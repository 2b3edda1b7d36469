/** `fileName::clean()`: the single-pass, in-place lexical normaliser of a
    slash-separated path (fileName.cxx, lines 46-138).

    The pass is specified by `Scan`, which runs `Step` from the state just
    after the first separator; `Clean` then drops a trailing separator.
    `CleanBuffer` is the in-place algorithm with its two cursors, proved to
    leave `Clean` of the old contents at the front of the buffer. */
module PathClean {
  import opened StringSearch

  /** The state of the pass: the read cursor `src`, the text written so far
      `out` (the write cursor `nChar` is its length and the previously
      written character `prev` its last character), and `top`, the lowest
      separator a `..` may rewind to. */
  datatype ScanState = ScanState(src: nat, out: seq<char>, top: nat)

  /** The parent separator a `..` may rewind to: with at least three
      characters written (the last one a separator), the separator found by
      searching backward from the character before that last one, provided
      it is not below `top`. */
  function Parent(out: seq<char>, top: nat): (r: Option<nat>)
    ensures r.Some? ==> |out| > 2 && top <= r.value <= |out| - 2 && out[r.value] == '/'
    ensures r.Some? ==> forall j :: r.value < j <= |out| - 2 ==> out[j] != '/'
    ensures r.None? ==> |out| <= 2 || forall j :: top <= j <= |out| - 2 ==> out[j] != '/'
  {
    if |out| > 2 then
      match RFindFrom(out, '/', |out| - 2)
      case Some(p) => if p >= top then Some(p) else None
      case None => None
    else None
  }

  /** One turn of the loop of `clean()` (fileName.cxx, lines 69-126). */
  function Step(s: seq<char>, st: ScanState): (r: ScanState)
    requires st.src < |s| && |st.out| >= 1
    ensures st.src < r.src && |r.out| >= 1
    ensures |r.out| <= |st.out| + 1 && (|r.out| == |st.out| + 1 ==> r.src == st.src + 1)
  {
    var c := s[st.src];
    var src := st.src + 1;
    var prev := st.out[|st.out| - 1];
    if prev == '/' && c == '/' then
      // repeated separator: skip it
      ScanState(src, st.out, st.top)
    else if prev == '/' && c == '.' && src >= |s| then
      // trailing "/.": skip it
      ScanState(src, st.out, st.top)
    else if prev == '/' && c == '.' && s[src] == '/' then
      // "/./": skip both characters
      ScanState(src + 1, st.out, st.top)
    else if prev == '/' && c == '.' && s[src] == '.' && (src + 1 >= |s| || s[src + 1] == '/') then
      match Parent(st.out, st.top)
      // "/x/..": rewind to just after the parent separator
      case Some(p) => ScanState(src + 2, st.out[..p + 1], st.top)
      // unresolvable "..": copy it, and raise top past it
      case None => ScanState(src, st.out + [c], |st.out| + 2)
    else
      ScanState(src, st.out + [c], st.top)
  }

  /** The text written by the pass once the read cursor has run off the end:
      never empty, and at most one character longer than what was written
      for each character still to be read. */
  function Scan(s: seq<char>, st: ScanState): (r: seq<char>)
    requires |st.out| >= 1
    ensures 1 <= |r| <= |st.out| + (if st.src < |s| then |s| - st.src else 0)
    decreases |s| - st.src
  {
    if st.src >= |s| then st.out else Scan(s, Step(s, st))
  }

  /** The state before the loop: everything up to and including the first
      separator (at `top`) is kept as it is. */
  function Start(s: seq<char>, top: nat): (r: ScanState)
    requires top < |s|
    ensures r.src == |r.out| == top + 1 && r.out <= s && r.top == top
  {
    ScanState(top + 1, s[..top + 1], top)
  }

  /** Drops one trailing separator, unless it is the whole text. */
  function DropTrailingSlash(t: seq<char>): (r: seq<char>)
    ensures r != t <==> |t| > 1 && t[|t| - 1] == '/'
    ensures r != t ==> |r| >= 1 && r + "/" == t
  {
    if |t| > 1 && t[|t| - 1] == '/' then t[..|t| - 1] else t
  }

  /** The text `clean()` leaves behind: never longer than the input, and
      the input itself when it has no separator. */
  function Clean(s: seq<char>): (r: seq<char>)
    ensures |r| <= |s|
    ensures '/' !in s ==> r == s
  {
    match Find(s, '/')
    case None => s
    case Some(top) =>
      StartInv(s, top);
      ScanFacts(s, Start(s, top), top);
      DropTrailingSlash(Scan(s, Start(s, top)))
  }

  /** The value `clean()` returns: whether the length changed, which is
      whether the text changed. */
  function Changed(s: seq<char>): (r: bool)
    ensures r <==> Clean(s) != s
  {
    CleanSameLength(s);
    |Clean(s)| != |s|
  }

  /** A cleaned text as long as the input is the input. */
  lemma CleanSameLength(s: seq<char>)
    ensures |Clean(s)| == |s| ==> Clean(s) == s
  {
    match Find(s, '/')
    case None =>
    case Some(top0) =>
      StartInv(s, top0);
      ScanFacts(s, Start(s, top0), top0);
  }

  // ---------------------------------------------------------------------
  // Shape predicates

  /** `top0` is the index of the first separator of `s`. */
  ghost predicate FirstSlash(s: seq<char>, top0: nat)
  {
    top0 < |s| && s[top0] == '/' && '/' !in s[..top0]
  }

  /** No two adjacent separators. */
  ghost predicate NoDoubleSlash(t: seq<char>)
  {
    forall i :: 0 < i < |t| ==> !(t[i - 1] == '/' && t[i] == '/')
  }

  /** Every "/." inside `t` is followed by a character other than a separator. */
  ghost predicate DotInner(t: seq<char>)
  {
    forall i :: 0 <= i < |t| - 2 && t[i] == '/' && t[i + 1] == '.' ==> t[i + 2] != '/'
  }

  ghost predicate EndsSlashDot(t: seq<char>)
  {
    |t| >= 2 && t[|t| - 2] == '/' && t[|t| - 1] == '.'
  }

  /** No segment after the first separator of `t` is a single `.`: neither
      "/./" nor a trailing "/.". A leading "./" is not a segment after a
      separator and is not excluded. */
  ghost predicate NoDotSegment(t: seq<char>)
  {
    DotInner(t) && !EndsSlashDot(t)
  }

  /** The characters written before `top` that the pass has already fixed. */
  function Kept(st: ScanState): nat
  {
    if st.top < |st.out| then st.top else |st.out|
  }

  /** What holds of every state of the pass over `s`, whose first separator
      is at `top0`. */
  ghost predicate ScanInv(s: seq<char>, st: ScanState, top0: nat)
  {
    FirstSlash(s, top0) && top0 <= st.top <= |st.out| + 1
    && top0 + 1 <= |st.out| && st.out[..top0 + 1] == s[..top0 + 1]
    && |st.out| <= st.src && |st.out| <= |s| && st.src <= |s| + 1
    && (st.src > |s| ==> |st.out| < |s|)
    && (|st.out| == st.src ==> st.out == s[..st.src])
    && NoDoubleSlash(st.out) && DotInner(st.out)
    && (EndsSlashDot(st.out) ==> st.src < |s| && s[st.src] != '/')
  }

  // ---------------------------------------------------------------------
  // Lemmas about the pass

  lemma StartInv(s: seq<char>, top0: nat)
    requires FirstSlash(s, top0)
    ensures ScanInv(s, Start(s, top0), top0)
  {
    var out := s[..top0 + 1];
    forall i | 0 <= i < top0 ensures out[i] != '/' {
      assert out[i] == s[..top0][i];
    }
  }

  /** A turn that skips a repeated separator, a trailing "/." or a "/./"
      writes nothing. */
  lemma StepInvSkip(s: seq<char>, st: ScanState, top0: nat)
    requires ScanInv(s, st, top0) && st.src < |s| && st.out[|st.out| - 1] == '/'
    requires s[st.src] == '/' || (s[st.src] == '.' && (st.src + 1 >= |s| || s[st.src + 1] == '/'))
    ensures ScanInv(s, Step(s, st), top0)
    ensures Step(s, st).out == st.out && Step(s, st).top == st.top
  {
    var src := if s[st.src] == '.' && st.src + 1 < |s| then st.src + 2 else st.src + 1;
    assert Step(s, st) == ScanState(src, st.out, st.top);
    assert |st.out| < src <= |s| + 1 && !EndsSlashDot(st.out);
  }

  /** A turn that resolves "/x/.." cuts the written text back to a separator
      at or above `top`, so what lies before `top` stays. */
  lemma StepInvCut(s: seq<char>, st: ScanState, top0: nat)
    requires ScanInv(s, st, top0) && st.src + 1 < |s| && st.out[|st.out| - 1] == '/'
    requires s[st.src] == '.' && s[st.src + 1] == '.' && (st.src + 2 >= |s| || s[st.src + 2] == '/')
    requires Parent(st.out, st.top).Some?
    ensures ScanInv(s, Step(s, st), top0)
    ensures Kept(st) <= Kept(Step(s, st))
    ensures Step(s, st).out[..Kept(st)] == st.out[..Kept(st)]
  {
    var p := Parent(st.out, st.top).value;
    var out := st.out;
    var ro := out[..p + 1];
    assert Step(s, st) == ScanState(st.src + 3, ro, st.top);
    assert ro[..top0 + 1] == out[..top0 + 1];
    forall i | 0 <= i < |ro| - 2 && ro[i] == '/' && ro[i + 1] == '.' ensures ro[i + 2] != '/' {
      assert ro[i + 2] == out[i + 2];
    }
    assert ro[..Kept(st)] == out[..Kept(st)];
  }

  /** Copying a character keeps the text free of doubled separators and
      of `.` segments after a separator. */
  lemma WriteShape(t: seq<char>, c: char)
    requires |t| >= 1 && NoDoubleSlash(t) && DotInner(t)
    requires t[|t| - 1] == '/' ==> c != '/'
    requires EndsSlashDot(t) ==> c != '/'
    ensures NoDoubleSlash(t + [c]) && DotInner(t + [c])
  {
    var ro := t + [c];
    forall i | 0 < i < |ro| ensures !(ro[i - 1] == '/' && ro[i] == '/') {
      if i < |t| {
        assert ro[i - 1] == t[i - 1] && ro[i] == t[i];
      }
    }
    forall i | 0 <= i < |ro| - 2 && ro[i] == '/' && ro[i + 1] == '.' ensures ro[i + 2] != '/' {
      if i < |t| - 2 {
        assert ro[i + 2] == t[i + 2];
      } else {
        assert EndsSlashDot(t);
      }
    }
  }

  /** A turn that copies the character it read to the text, setting `top`
      to `top` (unchanged but for an unresolvable ".."). */
  lemma WriteInv(s: seq<char>, st: ScanState, top0: nat, top: nat)
    requires ScanInv(s, st, top0) && st.src < |s| && st.top <= top <= |st.out| + 2
    requires st.out[|st.out| - 1] == '/' ==> s[st.src] != '/'
    requires st.out[|st.out| - 1] == '/' && s[st.src] == '.' ==> st.src + 1 < |s| && s[st.src + 1] != '/'
    ensures ScanInv(s, ScanState(st.src + 1, st.out + [s[st.src]], top), top0)
    ensures Kept(st) <= Kept(ScanState(st.src + 1, st.out + [s[st.src]], top))
    ensures (st.out + [s[st.src]])[..Kept(st)] == st.out[..Kept(st)]
  {
    var out := st.out;
    var ro := out + [s[st.src]];
    WriteShape(out, s[st.src]);
    assert ro[..top0 + 1] == out[..top0 + 1];
    if |out| == st.src {
      assert ro == s[..st.src + 1];
    }
    assert ro[..Kept(st)] == out[..Kept(st)];
  }

  /** An unresolvable ".." turn: its first '.' is copied and `top` raised. */
  lemma StepInvKeep(s: seq<char>, st: ScanState, top0: nat)
    requires ScanInv(s, st, top0) && st.src + 1 < |s| && st.out[|st.out| - 1] == '/'
    requires s[st.src] == '.' && s[st.src + 1] == '.' && (st.src + 2 >= |s| || s[st.src + 2] == '/')
    requires Parent(st.out, st.top).None?
    ensures Step(s, st) == ScanState(st.src + 1, st.out + [s[st.src]], |st.out| + 2)
    ensures ScanInv(s, Step(s, st), top0)
    ensures Kept(st) <= Kept(Step(s, st))
    ensures Step(s, st).out[..Kept(st)] == st.out[..Kept(st)]
  {
    WriteInv(s, st, top0, |st.out| + 2);
  }

  /** A turn that copies the character it read. */
  lemma StepInvCopy(s: seq<char>, st: ScanState, top0: nat)
    requires ScanInv(s, st, top0) && st.src < |s|
    requires st.out[|st.out| - 1] == '/' ==> s[st.src] != '/'
    requires st.out[|st.out| - 1] == '/' && s[st.src] == '.' ==> st.src + 1 < |s| && s[st.src + 1] != '/'
    requires st.out[|st.out| - 1] == '/' && s[st.src] == '.' ==> !(s[st.src + 1] == '.' && (st.src + 2 >= |s| || s[st.src + 2] == '/'))
    ensures ScanInv(s, Step(s, st), top0)
    ensures Kept(st) <= Kept(Step(s, st))
    ensures Step(s, st).out[..Kept(st)] == st.out[..Kept(st)]
  {
    assert Step(s, st) == ScanState(st.src + 1, st.out + [s[st.src]], st.top);
    WriteInv(s, st, top0, st.top);
  }

  /** One turn of the loop keeps the invariant, never shortens `Kept`, and
      never touches what `Kept` covers. */
  lemma StepInv(s: seq<char>, st: ScanState, top0: nat)
    requires ScanInv(s, st, top0) && st.src < |s|
    ensures ScanInv(s, Step(s, st), top0)
    ensures Kept(st) <= Kept(Step(s, st))
    ensures Step(s, st).out[..Kept(st)] == st.out[..Kept(st)]
  {
    var c := s[st.src];
    var src := st.src + 1;
    var prev := st.out[|st.out| - 1];
    if prev == '/' && (c == '/' || (c == '.' && (src >= |s| || s[src] == '/'))) {
      StepInvSkip(s, st, top0);
    } else if prev == '/' && c == '.' && s[src] == '.' && (src + 1 >= |s| || s[src + 1] == '/') {
      if Parent(st.out, st.top).Some? {
        StepInvCut(s, st, top0);
      } else {
        StepInvKeep(s, st, top0);
      }
    } else {
      StepInvCopy(s, st, top0);
    }
  }

  /** What the whole pass guarantees: the text written never outgrows the
      input, keeps everything up to the first separator, has no doubled
      separator and no `.` segment after the first separator, equals the input when it is as long,
      and keeps whatever lay before `top` when the pass started. */
  lemma {:induction false} ScanFacts(s: seq<char>, st: ScanState, top0: nat)
    requires ScanInv(s, st, top0)
    ensures top0 + 1 <= |Scan(s, st)| <= |s|
    ensures Scan(s, st)[..top0 + 1] == s[..top0 + 1]
    ensures NoDoubleSlash(Scan(s, st)) && NoDotSegment(Scan(s, st))
    ensures |Scan(s, st)| == |s| ==> Scan(s, st) == s
    ensures Kept(st) <= |Scan(s, st)| && Scan(s, st)[..Kept(st)] == st.out[..Kept(st)]
    decreases |s| - st.src
  {
    if st.src < |s| {
      var nx := Step(s, st);
      StepInv(s, st, top0);
      ScanFacts(s, nx, top0);
      assert Scan(s, st)[..Kept(st)] == Scan(s, nx)[..Kept(nx)][..Kept(st)];
    }
  }

  /** A `..` that cannot be resolved is copied as it stands and `top` is
      raised just past it, so no later `..` can climb into it: the final
      text still holds it. */
  lemma UnresolvedDotDotKept(s: seq<char>, st: ScanState, top0: nat)
    requires ScanInv(s, st, top0)
    requires st.src + 1 < |s| && st.out[|st.out| - 1] == '/'
    requires s[st.src] == '.' && s[st.src + 1] == '.' && (st.src + 2 >= |s| || s[st.src + 2] == '/')
    requires Parent(st.out, st.top).None?
    ensures Step(s, st).top == |st.out| + 2
    ensures |st.out| + 2 <= |Scan(s, st)| && Scan(s, st)[..|st.out| + 2] == st.out + ".."
  {
    var st2 := KeepTwoTurns(s, st, top0);
    ScanFacts(s, st2, top0);
    assert Kept(st2) == |st.out| + 2;
  }

  /** The two turns over an unresolvable `..`: both dots are copied. */
  lemma KeepTwoTurns(s: seq<char>, st: ScanState, top0: nat) returns (st2: ScanState)
    requires ScanInv(s, st, top0)
    requires st.src + 1 < |s| && st.out[|st.out| - 1] == '/'
    requires s[st.src] == '.' && s[st.src + 1] == '.' && (st.src + 2 >= |s| || s[st.src + 2] == '/')
    requires Parent(st.out, st.top).None?
    ensures Step(s, st).top == |st.out| + 2
    ensures st2 == ScanState(st.src + 2, st.out + "..", |st.out| + 2)
    ensures ScanInv(s, st2, top0) && Scan(s, st) == Scan(s, st2)
  {
    var st1 := ScanState(st.src + 1, st.out + ['.'], |st.out| + 2);
    StepInvKeep(s, st, top0);
    st2 := ScanState(st.src + 2, st.out + "..", |st.out| + 2);
    assert st1.out + [s[st1.src]] == st2.out;
    StepInvCopy(s, st1, top0);
    assert Step(s, st1) == st2;
    assert Scan(s, st) == Scan(s, st1);
  }

  // ---------------------------------------------------------------------
  // What `clean()` guarantees

  /** Without a separator there is nothing to do: the text stays as it is
      and `clean()` reports no change. */
  lemma CleanNoSlash(s: seq<char>)
    requires '/' !in s
    ensures Clean(s) == s && !Changed(s)
  {
  }

  /** Dropping the trailing separator of a text with no doubled separator
      and no `.` segment after the first separator keeps both properties and leaves no trailing
      separator, unless the text is a lone separator. */
  lemma DropTrailingSlashShape(t: seq<char>)
    requires NoDoubleSlash(t) && NoDotSegment(t)
    ensures |DropTrailingSlash(t)| <= |t|
    ensures NoDoubleSlash(DropTrailingSlash(t)) && NoDotSegment(DropTrailingSlash(t))
    ensures var r := DropTrailingSlash(t); |r| > 0 && r[|r| - 1] == '/' ==> |r| == 1
  {
    if |t| > 1 && t[|t| - 1] == '/' {
      var r := t[..|t| - 1];
      assert t[|t| - 2] != '/';
      assert NoDoubleSlash(r) by {
        forall i | 0 < i < |r| ensures !(r[i - 1] == '/' && r[i] == '/') {
          assert r[i] == t[i];
        }
      }
      assert DotInner(r) by {
        forall i | 0 <= i < |r| - 2 && r[i] == '/' && r[i + 1] == '.' ensures r[i + 2] != '/' {
          assert r[i + 2] == t[i + 2];
        }
      }
    }
  }

  /** The shape of the result: never longer than the input, no doubled
      separator, no `.` segment after the first separator, a trailing separator only when it is the
      whole text, and the reported change exactly when the text changed. */
  lemma CleanShape(s: seq<char>)
    ensures |Clean(s)| <= |s|
    ensures NoDoubleSlash(Clean(s)) && NoDotSegment(Clean(s))
    ensures |Clean(s)| > 0 && Clean(s)[|Clean(s)| - 1] == '/' ==> |Clean(s)| == 1
    ensures Changed(s) <==> Clean(s) != s
  {
    match Find(s, '/')
    case None =>
    case Some(top0) =>
      StartInv(s, top0);
      var t := Scan(s, Start(s, top0));
      ScanFacts(s, Start(s, top0), top0);
      DropTrailingSlashShape(t);
      assert Clean(s) == DropTrailingSlash(t);
  }

  /** Nothing before the first separator is touched: the result is either
      that prefix alone (the separator was trailing) or that prefix followed
      by the separator. */
  lemma CleanKeepsPrefix(s: seq<char>, top0: nat)
    requires FirstSlash(s, top0)
    ensures (0 < top0 && Clean(s) == s[..top0]) || (top0 < |Clean(s)| && Clean(s)[..top0 + 1] == s[..top0 + 1])
  {
    StartInv(s, top0);
    ScanFacts(s, Start(s, top0), top0);
    assert Find(s, '/') == Some(top0);
    var t := Scan(s, Start(s, top0));
    if |t| > 1 && t[|t| - 1] == '/' && |t| == top0 + 1 {
      assert t[..|t| - 1] == t[..top0 + 1][..top0];
    }
  }

  // ---------------------------------------------------------------------
  // The in-place algorithm

  /** One turn of the loop of `clean()` on the buffer `a` (fileName.cxx,
      lines 69-126): it reads at `src`, writes at `n`, and is the turn `Step`
      of the pass. */
  method CleanTurn(ghost s: seq<char>, a: array<char>, len: nat, src: nat, n: nat, top: nat, prev: char)
    returns (src': nat, n': nat, top': nat, prev': char)
    requires len == |s| <= a.Length && 1 <= n <= src < len && prev == a[n - 1]
    requires forall k :: src <= k < len ==> a[k] == s[k]
    modifies a
    ensures 1 <= n' <= src' <= len + 1 && n' <= len && prev' == a[n' - 1]
    ensures ScanState(src', a[..n'], top') == Step(s, ScanState(src, old(a[..n]), top))
    ensures forall k :: src' <= k < len ==> a[k] == s[k]
    ensures a[len..] == old(a[len..])
  {
    ghost var out := a[..n];
    var c := a[src];
    src' := src + 1;
    n' := n;
    top' := top;
    prev' := prev;
    if prev == '/' {
      if c == '/' {
        // repeated separator: skip it
        assert Step(s, ScanState(src, out, top)) == ScanState(src', out, top);
        return;
      }
      if c == '.' {
        if src' >= len {
          // trailing "/.": skip it
          assert Step(s, ScanState(src, out, top)) == ScanState(src', out, top);
          return;
        }
        var c1 := a[src'];
        if c1 == '/' {
          // "/./": skip both
          src' := src' + 1;
          assert Step(s, ScanState(src, out, top)) == ScanState(src', out, top);
          return;
        }
        if c1 == '.' && (src' + 1 >= len || a[src' + 1] == '/') {
          // "/.." or "/../": backtrack to the parent separator, which must
          // not lie above top
          var parent := if n > 2 then RFindFrom(a[..n], '/', n - 2) else None;
          if parent.Some? && parent.value >= top {
            assert Parent(out, top) == parent;
            n' := parent.value + 1;
            src' := src' + 2;
            assert a[..n'] == out[..n'];
            assert Step(s, ScanState(src, out, top)) == ScanState(src', out[..n'], top);
            return;
          }
          // unresolvable, as in "abc/../..": keep it, and move top past it
          assert Parent(out, top).None?;
          top' := n + 2;
        }
      }
    }
    a[n] := c;
    prev' := c;
    n' := n + 1;
    assert a[..n'] == out + [c];
  }

  /** `clean()` on a buffer whose first `len` characters hold the text
      (fileName.cxx, lines 46-138): the read cursor `src` runs ahead of the
      write cursor `n`, and afterwards the first `n` characters hold the
      cleaned text.  `changed` is whether the length changed. */
  method CleanBuffer(a: array<char>, len: nat) returns (n: nat, changed: bool)
    requires len <= a.Length
    modifies a
    ensures n <= len && a[..n] == Clean(old(a[..len]))
    ensures changed == (n != len) && changed == Changed(old(a[..len]))
    ensures a[len..] == old(a[len..])
  {
    ghost var s := a[..len];
    var first := Find(a[..len], '/');
    if first.None? {
      // no separator: nothing to do
      return len, false;
    }
    // the first separator: the pass never goes above it
    var top: nat := first.value;
    var prev := '/';
    n := top + 1;
    var src := n;
    ghost var target := Scan(s, Start(s, top));
    assert a[..n] == s[..top + 1];
    while src < len
      invariant 1 <= n <= src <= len + 1 && n <= len && prev == a[n - 1]
      invariant Scan(s, ScanState(src, a[..n], top)) == target
      invariant forall k :: src <= k < len ==> a[k] == s[k]
      invariant a[len..] == old(a[len..])
      decreases len + 1 - src
    {
      src, n, top, prev := CleanTurn(s, a, len, src, n, top, prev);
    }
    // drop a trailing separator
    if n > 1 && a[n - 1] == '/' {
      n := n - 1;
    }
    changed := n != len;
  }
}
