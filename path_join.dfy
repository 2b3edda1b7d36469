/** Composition of file names: the join `operator/` (fileName.cxx, lines
    325-349) and its left fold over a word list, which is what the word-list
    constructor (lines 18-24) computes. */
module PathJoin {
  import opened StringSearch
  import opened PathQueries

  /** `a / b`: the two joined by a separator when both are non-empty, and
      otherwise whichever is non-empty (or the empty name). */
  function Join(a: seq<char>, b: seq<char>): (r: seq<char>)
    ensures |r| == |a| + |b| + (if a != [] && b != [] then 1 else 0)
  {
    if a != [] then
      if b != [] then a + "/" + b else a
    else
      if b != [] then b else ""
  }

  /** The empty name is the identity of the join on both sides. */
  lemma JoinIdentity(a: seq<char>)
    ensures Join(a, "") == a && Join("", a) == a
  {
  }

  /** Joining a word onto a non-empty name makes the word its `name()` and
      the name its `path()`. */
  lemma JoinNamePath(a: seq<char>, b: seq<char>)
    requires a != [] && b != [] && '/' !in b
    ensures Name(Join(a, b)) == b
    ensures Path(Join(a, b)) == a
  {
    LastSlash(a, b);
    assert (a + "/" + b)[|a| + 1..] == b;
    assert (a + "/" + b)[..|a|] == a;
  }

  /** Splitting a join of two texts at `d` gives the fields of the first
      and then those of the second. */
  lemma {:induction false} FieldsConcat(a: seq<char>, b: seq<char>, d: char)
    ensures Fields(a + [d] + b, d) == Fields(a, d) + Fields(b, d)
    decreases |a|
  {
    var t := a + [d] + b;
    match Find(a, d)
    case None =>
      assert t[|a|] == d && t[..|a|] == a;
      assert Find(t, d) == Some(|a|);
      assert t[|a| + 1..] == b;
    case Some(i) =>
      var w, rest := a[..i], a[i + 1..];
      assert t[i] == d && t[..i] == w;
      assert Find(t, d) == Some(i);
      assert a == w + [d] + rest;
      assert t[i + 1..] == rest + [d] + b;
      FieldsConcat(rest, b, d);
      assert Fields(t, d) == [w] + (Fields(rest, d) + Fields(b, d));
      assert Fields(a, d) == [w] + Fields(rest, d);
      ConcatAssoc([w], Fields(rest, d), Fields(b, d));
  }

  /** The components of a join are those of its two halves, in order. */
  lemma JoinComponents(a: seq<char>, b: seq<char>)
    ensures Components(Join(a, b), '/') == Components(a, '/') + Components(b, '/')
  {
    if a == [] {
      assert Find(a, '/').None?;
      assert Components(a, '/') == [];
      assert Components(a, '/') + Components(b, '/') == Components(b, '/');
    } else if b == [] {
      assert Find(b, '/').None?;
      assert Components(b, '/') == [];
      assert Components(a, '/') + Components(b, '/') == Components(a, '/');
    } else {
      FieldsConcat(a, b, '/');
      NonEmptyAppend(Fields(a, '/'), Fields(b, '/'));
    }
  }

  /** The word-list constructor: the join folded over the list from the
      left, starting from the empty name. */
  function JoinAll(ws: seq<seq<char>>): (r: seq<char>)
    ensures r == [] <==> forall k :: 0 <= k < |ws| ==> ws[k] == []
  {
    if |ws| == 0 then "" else Join(JoinAll(ws[..|ws| - 1]), ws[|ws| - 1])
  }

  /** Words that are neither empty nor hold a separator come back from the
      components of their join, in order. */
  lemma {:induction false} JoinAllComponents(ws: seq<seq<char>>)
    requires forall k :: 0 <= k < |ws| ==> ws[k] != [] && '/' !in ws[k]
    ensures Components(JoinAll(ws), '/') == ws
    decreases |ws|
  {
    if |ws| == 0 {
      assert Find("", '/').None?;
    } else {
      var init, w := ws[..|ws| - 1], ws[|ws| - 1];
      JoinAllComponents(init);
      JoinComponents(JoinAll(init), w);
      ComponentsOfJoin([w], '/');
      assert JoinWith([w], '/') == w;
      assert init + [w] == ws;
    }
  }

  /** The last word joined onto a non-empty name is its `name()`, and the
      name of the words before it its `path()`. */
  lemma JoinAllNamePath(ws: seq<seq<char>>)
    requires |ws| >= 1 && ws[|ws| - 1] != [] && '/' !in ws[|ws| - 1]
    requires JoinAll(ws[..|ws| - 1]) != []
    ensures Name(JoinAll(ws)) == ws[|ws| - 1]
    ensures Path(JoinAll(ws)) == JoinAll(ws[..|ws| - 1])
  {
    JoinNamePath(JoinAll(ws[..|ws| - 1]), ws[|ws| - 1]);
  }

  /** The example of three words: ["a", "b", "c"] gives "a/b/c", for any
      non-empty words. */
  lemma JoinAllThree(a: seq<char>, b: seq<char>, c: seq<char>)
    requires a != [] && b != [] && c != []
    ensures JoinAll([a, b, c]) == a + "/" + b + "/" + c
  {
    assert [a][..0] == [];
    assert JoinAll([a]) == a;
    assert [a, b][..1] == [a];
    assert JoinAll([a, b]) == a + "/" + b;
    assert [a, b, c][..2] == [a, b];
  }
}
