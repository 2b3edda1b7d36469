/** The decomposition queries of a file name: `name()`, `path()`,
    `lessExt()`, `ext()`, `components()` and `component()`
    (fileName.cxx, lines 147-286).  They are pure: each reads the text and
    returns a new string or list. */
module PathQueries {
  import opened StringSearch

  // ---------------------------------------------------------------------
  // name() and path()

  /** `name()`: the part beyond the last separator, or everything when there
      is none. */
  function Name(s: seq<char>): (r: seq<char>)
    ensures '/' !in r
    ensures '/' !in s ==> r == s
    ensures '/' in s ==> |r| < |s| && s[|s| - |r| - 1] == '/' && r == s[|s| - |r|..]
  {
    match RFind(s, '/')
    case None => s
    case Some(i) => s[i + 1..]
  }

  /** `path()`: the part before the last separator; "." when there is no
      separator, and "/" when the last separator is the first character. */
  function Path(s: seq<char>): (r: seq<char>)
    ensures '/' !in s ==> r == "."
    ensures '/' in s && s[0] == '/' && '/' !in s[1..] ==> r == "/"
    ensures '/' in s && !(s[0] == '/' && '/' !in s[1..]) ==>
              0 < |r| < |s| && r == s[..|r|] && s[|r|] == '/' && '/' !in s[|r| + 1..]
  {
    match RFind(s, '/')
    case None => "."
    case Some(i) =>
      if i != 0 then
        assert s[i + 1..] == s[|s[..i]| + 1..];
        s[..i]
      else
        assert s[1..] == s[i + 1..];
        "/"
  }

  /** The two halves put back together: the text is its path, a separator
      and its name, except that a root path "/" already holds the separator. */
  lemma PathNameSplit(s: seq<char>)
    ensures '/' !in s ==> Path(s) == "." && Name(s) == s
    ensures '/' in s ==> s == Path(s) + "/" + Name(s) || (Path(s) == "/" && s == "/" + Name(s))
  {
    if '/' in s {
      var i := RFind(s, '/').value;
      if i != 0 {
        assert s == s[..i] + "/" + s[i + 1..];
      } else {
        assert s == "/" + s[1..];
      }
    }
  }

  /** The last separator of `t + "/" + b`, when `b` has none, is the one
      between them. */
  lemma LastSlash(t: seq<char>, b: seq<char>)
    requires '/' !in b
    ensures RFind(t + "/" + b, '/') == Some(|t|)
  {
    var s := t + "/" + b;
    assert s[|t|] == '/';
  }

  /** The behaviour table for `name()` (fileName.cxx, lines 150-159), for
      any words `a` and `b` in place of "foo" and "bar". */
  lemma NameTable(a: seq<char>, b: seq<char>)
    requires a != [] && b != [] && '/' !in a && '/' !in b
    ensures Name(a) == a
    ensures Name("/" + a) == a
    ensures Name(a + "/" + b) == b
    ensures Name("/" + a + "/" + b) == b
    ensures Name("/" + a + "/" + b + "/") == ""
  {
    LastSlash("", a);
    assert "" + "/" + a == "/" + a;
    LastSlash(a, b);
    LastSlash("/" + a, b);
    LastSlash("/" + a + "/" + b, "");
    assert "/" + a + "/" + b + "/" + "" == "/" + a + "/" + b + "/";
  }

  /** The behaviour table for `path()` (fileName.cxx, lines 176-185), for
      any words `a` and `b`, with the last row as the code computes it:
      "/foo/bar/" gives "/foo/bar". */
  lemma PathTable(a: seq<char>, b: seq<char>)
    requires a != [] && b != [] && '/' !in a && '/' !in b
    ensures Path(a) == "."
    ensures Path("/" + a) == "/"
    ensures Path(a + "/" + b) == a
    ensures Path("/" + a + "/" + b) == "/" + a
    ensures Path("/" + a + "/" + b + "/") == "/" + a + "/" + b
  {
    LastSlash("", a);
    assert "" + "/" + a == "/" + a;
    LastSlash(a, b);
    assert (a + "/" + b)[..|a|] == a;
    LastSlash("/" + a, b);
    assert ("/" + a + "/" + b)[..|"/" + a|] == "/" + a;
    var t := "/" + a + "/" + b;
    LastSlash(t, "");
    assert t + "/" + "" == t + "/";
    assert (t + "/")[..|t|] == t;
  }

  // ---------------------------------------------------------------------
  // lessExt() and ext()

  /** `i` is the dot that starts an extension: not the first character, and
      neither a dot nor a separator after it. */
  predicate ExtAt(s: seq<char>, i: int)
  {
    0 < i < |s| && s[i] == '.' && forall j :: i < j < |s| ==> s[j] != '.' && s[j] != '/'
  }

  /** The last of the characters "./", when it is a dot other than the
      first character (fileName.cxx, lines 209 and 211). */
  function ExtDot(s: seq<char>): (r: Option<nat>)
    ensures r.Some? ==> ExtAt(s, r.value)
    ensures r.None? ==> forall i :: !ExtAt(s, i)
  {
    match FindLastOf(s, {'.', '/'})
    case None => None
    case Some(i) => if i == 0 || s[i] == '/' then None else Some(i)
  }

  /** `lessExt()`: the text without its extension. */
  function LessExt(s: seq<char>): (r: seq<char>)
    ensures |r| <= |s| && r == s[..|r|]
  {
    match ExtDot(s)
    case None => s
    case Some(i) => s[..i]
  }

  /** `ext()`: the extension, without its dot. */
  function Ext(s: seq<char>): (r: seq<char>)
    ensures '.' !in r && '/' !in r
  {
    match ExtDot(s)
    case None => ""
    case Some(i) => s[i + 1..]
  }

  /** `lessExt()` and `ext()` split the text at the dot of its extension;
      a text without one is all `lessExt()` and has an empty `ext()`. */
  lemma ExtRoundTrip(s: seq<char>)
    ensures (exists i :: ExtAt(s, i)) ==> LessExt(s) + "." + Ext(s) == s && Ext(s) != s
    ensures (forall i :: !ExtAt(s, i)) ==> LessExt(s) == s && Ext(s) == ""
  {
    match ExtDot(s)
    case None =>
    case Some(i) =>
      assert s == s[..i] + "." + s[i + 1..];
  }

  /** Examples: "a.b.c" has extension "c"; in "a/b.c/d" the dot comes
      before the last separator, so there is no extension. */
  lemma ExtExamples()
    ensures Ext("a.b.c") == "c" && LessExt("a.b.c") == "a.b"
    ensures Ext("a/b.c/d") == "" && LessExt("a/b.c/d") == "a/b.c/d"
  {
    assert FindLastOf("a.b.c", {'.', '/'}) == Some(3);
    assert FindLastOf("a/b.c/d", {'.', '/'}) == Some(5);
  }

  // ---------------------------------------------------------------------
  // components() and component()

  /** The fields between delimiters, empty ones included: the text split at
      every `d`. */
  function Fields(s: seq<char>, d: char): (r: seq<seq<char>>)
    ensures |r| >= 1
    ensures forall k :: 0 <= k < |r| ==> d !in r[k]
    decreases |s|
  {
    match Find(s, d)
    case None => [s]
    case Some(i) => [s[..i]] + Fields(s[i + 1..], d)
  }

  /** The fields put back together, with `d` between each two. */
  function JoinWith(ws: seq<seq<char>>, d: char): seq<char>
  {
    if |ws| == 0 then ""
    else if |ws| == 1 then ws[0]
    else ws[0] + [d] + JoinWith(ws[1..], d)
  }

  lemma JoinWithCons(w: seq<char>, ws: seq<seq<char>>, d: char)
    requires |ws| >= 1
    ensures JoinWith([w] + ws, d) == w + [d] + JoinWith(ws, d)
  {
    assert ([w] + ws)[1..] == ws;
  }

  /** Splitting and joining are inverse: joining the fields gives the text
      back ... */
  lemma {:induction false} FieldsJoin(s: seq<char>, d: char)
    ensures JoinWith(Fields(s, d), d) == s
    decreases |s|
  {
    match Find(s, d)
    case None =>
    case Some(i) =>
      var rest := s[i + 1..];
      var fs := Fields(rest, d);
      assert Fields(s, d) == [s[..i]] + fs;
      FieldsJoin(rest, d);
      JoinWithCons(s[..i], fs, d);
      assert s[..i + 1] == s[..i] + [d];
      assert s == s[..i + 1] + rest;
  }

  /** ... and splitting a join of delimiter-free words gives the words back. */
  lemma {:induction false} JoinFields(ws: seq<seq<char>>, d: char)
    requires |ws| >= 1
    requires forall k :: 0 <= k < |ws| ==> d !in ws[k]
    ensures Fields(JoinWith(ws, d), d) == ws
    decreases |ws|
  {
    if |ws| == 1 {
      assert Find(ws[0], d).None?;
    } else {
      var w := ws[0];
      var rest := JoinWith(ws[1..], d);
      var t := w + [d] + rest;
      assert ws == [w] + ws[1..];
      JoinWithCons(w, ws[1..], d);
      assert t[|w|] == d && t[..|w|] == w;
      assert Find(t, d) == Some(|w|);
      assert t[|w| + 1..] == rest;
      JoinFields(ws[1..], d);
    }
  }

  /** The non-empty words of a list, in their order. */
  function NonEmpty(ws: seq<seq<char>>): (r: seq<seq<char>>)
    ensures forall k :: 0 <= k < |r| ==> r[k] != []
    ensures |r| <= |ws|
  {
    if |ws| == 0 then []
    else if ws[0] == [] then NonEmpty(ws[1..])
    else [ws[0]] + NonEmpty(ws[1..])
  }

  lemma {:induction false} NonEmptyAppend(a: seq<seq<char>>, b: seq<seq<char>>)
    ensures NonEmpty(a + b) == NonEmpty(a) + NonEmpty(b)
    decreases |a|
  {
    if |a| == 0 {
      assert a + b == b;
    } else {
      assert (a + b)[1..] == a[1..] + b;
      NonEmptyAppend(a[1..], b);
    }
  }

  lemma {:induction false} NonEmptyKeeps(ws: seq<seq<char>>)
    requires forall k :: 0 <= k < |ws| ==> ws[k] != []
    ensures NonEmpty(ws) == ws
    decreases |ws|
  {
    if |ws| > 0 {
      NonEmptyKeeps(ws[1..]);
      assert ws == [ws[0]] + ws[1..];
    }
  }

  /** What `components(d)` returns: the fields between delimiters, with the
      empty ones (from doubled, leading or trailing delimiters) dropped. */
  function Components(s: seq<char>, d: char): (r: seq<seq<char>>)
    ensures forall k :: 0 <= k < |r| ==> r[k] != [] && d !in r[k]
  {
    var fs := Fields(s, d);
    NonEmptyFree(fs, d);
    NonEmpty(fs)
  }

  lemma {:induction false} NonEmptyFree(ws: seq<seq<char>>, d: char)
    requires forall k :: 0 <= k < |ws| ==> d !in ws[k]
    ensures forall k :: 0 <= k < |NonEmpty(ws)| ==> d !in NonEmpty(ws)[k]
    decreases |ws|
  {
    if |ws| > 0 {
      NonEmptyFree(ws[1..], d);
    }
  }

  /** A text whose delimiters each separate two non-empty words comes back
      from joining its components: the words of a join are its components,
      in order. */
  lemma ComponentsOfJoin(ws: seq<seq<char>>, d: char)
    requires forall k :: 0 <= k < |ws| ==> ws[k] != [] && d !in ws[k]
    ensures Components(JoinWith(ws, d), d) == ws
  {
    if |ws| == 0 {
      assert Find("", d).None?;
    } else {
      JoinFields(ws, d);
      NonEmptyKeeps(ws);
    }
  }

  /** The steps of the loop of `components()`: with no delimiter at or
      after `start`, the rest is one component (or none, when empty) ... */
  lemma ComponentsLast(s: seq<char>, d: char, start: nat)
    requires start <= |s| && FindFrom(s, d, start).None?
    ensures Components(s[start..], d) == if start < |s| then [s[start..]] else []
  {
    var t := s[start..];
    assert forall j :: 0 <= j < |t| ==> t[j] == s[start + j];
    assert d !in t;
    assert Fields(t, d) == [t];
  }

  /** ... and otherwise the field up to the first one comes first, when it
      is not empty. */
  lemma ComponentsNext(s: seq<char>, d: char, start: nat, e: nat)
    requires start <= |s| && FindFrom(s, d, start) == Some(e)
    ensures Components(s[start..], d) ==
              (if start < e then [s[start..e]] else []) + Components(s[e + 1..], d)
  {
    var t := s[start..];
    assert forall j :: 0 <= j < e - start ==> t[j] == s[start + j];
    assert t[e - start] == d;
    assert d !in t[..e - start];
    assert Find(t, d) == Some(e - start);
    var w := s[start..e];
    assert t[..e - start] == w;
    assert t[e - start + 1..] == s[e + 1..];
    var rest := Fields(s[e + 1..], d);
    assert Fields(t, d) == [w] + rest;
    NonEmptyCons(w, rest);
    assert (start < e) == (w != []);
  }

  lemma NonEmptyCons(w: seq<char>, ws: seq<seq<char>>)
    ensures NonEmpty([w] + ws) == (if w == [] then [] else [w]) + NonEmpty(ws)
  {
    assert ([w] + ws)[1..] == ws;
  }

  lemma ConcatAssoc(a: seq<seq<char>>, b: seq<seq<char>>, c: seq<seq<char>>)
    ensures a + (b + c) == a + b + c
  {
  }

  /** `components(d)` (fileName.cxx, lines 251-275): a loop over the
      delimiters that appends every non-empty field. */
  method ComponentsOf(s: seq<char>, d: char) returns (r: seq<seq<char>>)
    ensures r == Components(s, d)
  {
    r := [];
    var start: nat := 0;
    var end := FindFrom(s, d, start);
    assert s[0..] == s;
    while end.Some?
      invariant start <= |s| && end == FindFrom(s, d, start)
      invariant r + Components(s[start..], d) == Components(s, d)
      decreases |s| - start
    {
      ghost var r0 := r;
      ComponentsNext(s, d, start, end.value);
      ghost var here := if start < end.value then [s[start..end.value]] else [];
      ghost var rest := Components(s[end.value + 1..], d);
      assert r0 + (here + rest) == Components(s, d);
      // avoid an empty element, from a doubled delimiter
      if start < end.value {
        r := r + [s[start..end.value]];
      }
      assert r == r0 + here;
      ConcatAssoc(r0, here, rest);
      start := end.value + 1;
      end := FindFrom(s, d, start);
    }
    ComponentsLast(s, d, start);
    // avoid an empty trailing element
    if start < |s| {
      r := r + [s[start..]];
    }
  }

  /** `component(i, d)`: the i-th component, and None (the failed index
      check) when there are not that many (fileName.cxx, lines 279-286). */
  function Component(s: seq<char>, i: nat, d: char): (r: Option<seq<char>>)
    ensures r.Some? <==> i < |Components(s, d)|
    ensures r.Some? ==> r.value == Components(s, d)[i] && r.value != [] && d !in r.value
  {
    var cs := Components(s, d);
    if i < |cs| then Some(cs[i]) else None
  }

  /** The behaviour table for `components()` (fileName.cxx, lines 238-249),
      for any delimiter and any words `a` and `b` in place of "foo" and
      "bar": leading and trailing delimiters add no component. */
  lemma ComponentsTable(a: seq<char>, b: seq<char>, d: char)
    requires a != [] && b != [] && d !in a && d !in b
    ensures Components(a, d) == [a]
    ensures Components([d] + a, d) == [a]
    ensures Components(a + [d] + b, d) == [a, b]
    ensures Components([d] + a + [d] + b, d) == [a, b]
    ensures Components([d] + a + [d] + b + [d], d) == [a, b]
  {
    ComponentsOfJoin([a], d);
    ComponentsOfJoin([a, b], d);
    JoinWithCons(a, [b], d);
    assert [a] + [b] == [a, b];
    SplitLeading([d] + a, d);
    assert ([d] + a)[1..] == a;
    var ab := a + [d] + b;
    SplitLeading([d] + ab, d);
    assert ([d] + ab)[1..] == ab;
    assert [d] + a + [d] + b == [d] + ab;
    var t := [d] + ab + [d];
    SplitTrailing(t, d);
    assert t[..|t| - 1] == [d] + ab;
    assert [d] + a + [d] + b + [d] == t;
  }

  /** A leading delimiter adds no component ... */
  lemma SplitLeading(s: seq<char>, d: char)
    requires |s| > 0 && s[0] == d
    ensures Components(s, d) == Components(s[1..], d)
  {
    assert Find(s, d) == Some(0);
    assert Fields(s, d) == [[]] + Fields(s[1..], d);
  }

  /** ... and neither does a trailing one. */
  lemma SplitTrailing(s: seq<char>, d: char)
    requires |s| > 0 && s[|s| - 1] == d
    ensures Components(s, d) == Components(s[..|s| - 1], d)
  {
    var t := s[..|s| - 1];
    assert s == t + [d];
    FieldsAppend(t, d);
    NonEmptyAppend(Fields(t, d), [[]]);
  }

  lemma {:induction false} FieldsAppend(s: seq<char>, d: char)
    ensures Fields(s + [d], d) == Fields(s, d) + [[]]
    decreases |s|
  {
    var t := s + [d];
    match Find(s, d)
    case None =>
      assert t[|s|] == d && t[..|s|] == s;
      assert Find(t, d) == Some(|s|);
      assert t[|s| + 1..] == [];
      assert Find([], d).None?;
    case Some(i) =>
      assert t[i] == d && t[..i] == s[..i];
      assert Find(t, d) == Some(i);
      assert t[i + 1..] == s[i + 1..] + [d];
      FieldsAppend(s[i + 1..], d);
  }
}
