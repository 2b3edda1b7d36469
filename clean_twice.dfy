/** `clean()` is idempotent: cleaning a cleaned name changes nothing
    (fileName.cxx, lines 46-138).

    The first pass leaves a text in which every `..` segment is one that
    could not climb: it follows the first separator directly, or follows
    another `..`.  A second pass over such a text copies every character,
    because each `..` it meets finds `top` at or past its parent. */
module CleanTwice {
  import opened StringSearch
  import opened PathClean

  /** A `..` segment of `t` starting at `j`: preceded by a separator and
      followed by a separator or the end. */
  ghost predicate DotDotAt(t: seq<char>, j: int)
  {
    0 < j && j + 1 < |t| && t[j - 1] == '/' && t[j] == '.' && t[j + 1] == '.'
    && (j + 2 == |t| || t[j + 2] == '/')
  }

  /** The `..` at `j` has nothing to climb into: it follows the first
      separator (at `top0`) directly, or follows another `..`. */
  ghost predicate DotDotOk(t: seq<char>, top0: nat, j: int)
  {
    j - 1 == top0 || (4 <= j <= |t| && t[j - 4] == '/' && t[j - 3] == '.' && t[j - 2] == '.')
  }

  /** Every `..` segment after the first separator has nothing to climb into. */
  ghost predicate Canonical(t: seq<char>, top0: nat)
  {
    forall j :: top0 < j && DotDotAt(t, j) ==> DotDotOk(t, top0, j)
  }

  ghost predicate EndsDotDot(t: seq<char>)
  {
    |t| >= 3 && t[|t| - 3] == '/' && t[|t| - 2] == '.' && t[|t| - 1] == '.'
  }

  /** What the first pass keeps about the `..` segments it has written and
      about `top`, beside `ScanInv`. */
  ghost predicate DotInv(s: seq<char>, st: ScanState, top0: nat)
  {
    var out, n, top := st.out, |st.out|, st.top;
    1 <= n && top <= n + 1
    // a `..` already followed by a separator has nothing to climb into
    && (forall j :: top0 < j && DotDotAt(out, j) && j + 2 < n ==> DotDotOk(out, top0, j))
    // a trailing "/.." has nothing to climb into, or is not a segment
    && (EndsDotDot(out) ==> DotDotOk(out, top0, n - 2) || (st.src < |s| && s[st.src] != '/'))
    // a trailing "/." about to become "/.." was kept as an unresolvable ".."
    && (EndsSlashDot(out) && st.src < |s| && s[st.src] == '.' ==>
          top == n + 1 || (st.src + 1 < |s| && s[st.src + 1] != '/'))
    // `top` is a separator once written, and raised past a kept ".."
    && (top < n ==> out[top] == '/')
    && (top >= n ==> out[n - 1] == '.')
    && (top0 < top ==>
          top0 + 3 <= top && out[top - 3] == '/' && out[top - 2] == '.'
          && (top - 1 < n ==> out[top - 1] == '.') && DotDotOk(out, top0, top - 2))
    && (top == n + 1 ==> st.src < |s| && s[st.src] == '.' && (st.src + 1 >= |s| || s[st.src + 1] == '/'))
    && (top == n ==> st.src >= |s| || s[st.src] == '/')
  }

  lemma StartDotInv(s: seq<char>, top0: nat)
    requires FirstSlash(s, top0)
    ensures DotInv(s, Start(s, top0), top0)
  {
  }

  /** The first separator of the text written is that of the input. */
  lemma OutFirstSlash(s: seq<char>, st: ScanState, top0: nat)
    requires ScanInv(s, st, top0)
    ensures FirstSlash(st.out, top0)
  {
    assert st.out[..top0] == st.out[..top0 + 1][..top0];
  }

  /** A skipping turn writes nothing and leaves `top`. */
  lemma DotInvSkip(s: seq<char>, st: ScanState, top0: nat, src: nat)
    requires DotInv(s, st, top0) && st.out[|st.out| - 1] == '/'
    ensures DotInv(s, ScanState(src, st.out, st.top), top0)
  {
  }

  /** A resolving turn cuts back to a separator at or above `top`. */
  lemma DotInvCut(s: seq<char>, st: ScanState, top0: nat, p: nat)
    requires DotInv(s, st, top0) && st.top <= p < |st.out| && st.out[p] == '/'
    ensures DotInv(s, ScanState(st.src + 3, st.out[..p + 1], st.top), top0)
  {
    var out := st.out;
    var ro := out[..p + 1];
    forall j | top0 < j && DotDotAt(ro, j) && j + 2 < |ro| ensures DotDotOk(ro, top0, j) {
      assert DotDotAt(out, j);
    }
  }

  /** An unresolvable `..` follows the first separator or another `..`. */
  lemma DotInvKeep(s: seq<char>, st: ScanState, top0: nat)
    requires DotInv(s, st, top0) && FirstSlash(st.out, top0) && NoDoubleSlash(st.out) && top0 <= st.top
    requires st.src + 1 < |s| && st.out[|st.out| - 1] == '/'
    requires s[st.src] == '.' && s[st.src + 1] == '.' && (st.src + 2 >= |s| || s[st.src + 2] == '/')
    requires Parent(st.out, st.top).None?
    ensures DotInv(s, ScanState(st.src + 1, st.out + ['.'], |st.out| + 2), top0)
  {
    var out, n, top := st.out, |st.out|, st.top;
    var ro := out + ['.'];
    if n <= 2 {
      assert out[n - 1] == '/' && out[top0] == '/';
      assert n - 1 == top0;
    } else {
      assert top < n && out[top] == '/';
      assert top == n - 1;
      if top0 < top {
        assert ro[n - 4] == out[top - 3] && ro[n - 3] == out[top - 2] && ro[n - 2] == out[top - 1];
      }
    }
    assert DotDotOk(ro, top0, n);
    forall j | top0 < j && DotDotAt(ro, j) && j + 2 < |ro| ensures DotDotOk(ro, top0, j) {
      assert DotDotAt(out, j);
    }
  }

  /** A copying turn appends the character it read. */
  lemma DotInvCopy(s: seq<char>, st: ScanState, top0: nat)
    requires DotInv(s, st, top0) && st.src < |s| && top0 < |st.out|
    requires st.out[|st.out| - 1] == '/' && s[st.src] == '.' ==> st.src + 1 < |s| && s[st.src + 1] != '/'
    requires st.out[|st.out| - 1] == '/' && s[st.src] == '.' ==> !(s[st.src + 1] == '.' && (st.src + 2 >= |s| || s[st.src + 2] == '/'))
    ensures DotInv(s, ScanState(st.src + 1, st.out + [s[st.src]], st.top), top0)
  {
    var out, n, c := st.out, |st.out|, s[st.src];
    var ro := out + [c];
    forall j | top0 < j && DotDotAt(ro, j) && j + 2 < |ro| ensures DotDotOk(ro, top0, j) {
      if j + 2 < n {
        assert DotDotAt(out, j);
      } else {
        assert EndsDotDot(out);
      }
    }
  }

  /** One turn of the first pass keeps `DotInv`. */
  lemma DotInvStep(s: seq<char>, st: ScanState, top0: nat)
    requires DotInv(s, st, top0) && st.src < |s|
    requires FirstSlash(st.out, top0) && NoDoubleSlash(st.out) && top0 <= st.top
    ensures DotInv(s, Step(s, st), top0)
  {
    var c := s[st.src];
    var src := st.src + 1;
    var out := st.out;
    var prev := out[|out| - 1];
    if prev == '/' && c == '/' {
      assert Step(s, st) == ScanState(src, out, st.top);
      DotInvSkip(s, st, top0, src);
    } else if prev == '/' && c == '.' && src >= |s| {
      assert Step(s, st) == ScanState(src, out, st.top);
      DotInvSkip(s, st, top0, src);
    } else if prev == '/' && c == '.' && s[src] == '/' {
      assert Step(s, st) == ScanState(src + 1, out, st.top);
      DotInvSkip(s, st, top0, src + 1);
    } else if prev == '/' && c == '.' && s[src] == '.' && (src + 1 >= |s| || s[src + 1] == '/') {
      match Parent(out, st.top)
      case Some(p) =>
        assert Step(s, st) == ScanState(src + 2, out[..p + 1], st.top);
        DotInvCut(s, st, top0, p);
      case None =>
        assert Step(s, st) == ScanState(src, out + [c], |out| + 2);
        DotInvKeep(s, st, top0);
    } else {
      assert Step(s, st) == ScanState(src, out + [c], st.top);
      DotInvCopy(s, st, top0);
    }
  }

  /** The first pass leaves a canonical text. */
  lemma {:induction false} ScanCanonical(s: seq<char>, st: ScanState, top0: nat)
    requires ScanInv(s, st, top0) && DotInv(s, st, top0)
    ensures Canonical(Scan(s, st), top0)
    decreases |s| - st.src
  {
    if st.src < |s| {
      StepInv(s, st, top0);
      OutFirstSlash(s, st, top0);
      DotInvStep(s, st, top0);
      ScanCanonical(s, Step(s, st), top0);
    } else {
      forall j | top0 < j && DotDotAt(st.out, j) ensures DotDotOk(st.out, top0, j) {
        if j + 2 == |st.out| {
          assert EndsDotDot(st.out);
        }
      }
    }
  }

  /** The text `clean()` leaves is canonical. */
  lemma CleanCanonical(s: seq<char>, top0: nat)
    requires FirstSlash(s, top0)
    ensures Canonical(Clean(s), top0)
  {
    assert Find(s, '/') == Some(top0);
    StartInv(s, top0);
    StartDotInv(s, top0);
    var t := Scan(s, Start(s, top0));
    ScanCanonical(s, Start(s, top0), top0);
    if |t| > 1 && t[|t| - 1] == '/' {
      var r := t[..|t| - 1];
      forall j | top0 < j && DotDotAt(r, j) ensures DotDotOk(r, top0, j) {
        assert DotDotAt(t, j);
      }
    }
  }

  /** A text shaped as `clean()` leaves it: first separator at `top0`, no
      `//`, no `.` segment after the first separator, and canonical `..` segments. */
  ghost predicate CleanText(t: seq<char>, top0: nat)
  {
    FirstSlash(t, top0) && NoDoubleSlash(t) && NoDotSegment(t) && Canonical(t, top0)
  }

  /** In the second pass over a canonical text, `top` has been raised past
      every `..` already read. */
  ghost predicate CopyInv(t: seq<char>, src: nat, top: nat, top0: nat)
  {
    top0 < src <= |t| && top0 <= top
    && forall j :: top0 < j < src && DotDotAt(t, j) ==> j + 2 <= top
  }

  /** Over a canonical text one turn copies the character it reads. */
  lemma CopyStep(t: seq<char>, src: nat, top: nat, top0: nat) returns (top': nat)
    requires CleanText(t, top0)
    requires CopyInv(t, src, top, top0) && src < |t|
    ensures Scan(t, ScanState(src, t[..src], top)) == Scan(t, ScanState(src + 1, t[..src + 1], top'))
    ensures CopyInv(t, src + 1, top', top0)
  {
    var out := t[..src];
    var c := t[src];
    assert out[|out| - 1] == t[src - 1];
    assert t[..src + 1] == out + [c];
    if DotDotAt(t, src) {
      assert DotDotOk(t, top0, src);
      if src - 1 != top0 {
        assert DotDotAt(t, src - 3);
      }
      assert Parent(out, top).None?;
      assert Step(t, ScanState(src, out, top)) == ScanState(src + 1, out + [c], src + 2);
      top' := src + 2;
    } else {
      if t[src - 1] == '/' && c == '.' {
        assert src + 1 < |t| by {
          assert !EndsSlashDot(t);
        }
        assert t[src + 1] != '/';
      }
      assert Step(t, ScanState(src, out, top)) == ScanState(src + 1, out + [c], top);
      top' := top;
    }
  }

  /** The second pass over a canonical text copies it unchanged. */
  lemma ScanCopies(t: seq<char>, top0: nat)
    requires CleanText(t, top0)
    ensures Scan(t, Start(t, top0)) == t
  {
    var src, top := top0 + 1, top0;
    while src < |t|
      invariant CopyInv(t, src, top, top0)
      invariant Scan(t, Start(t, top0)) == Scan(t, ScanState(src, t[..src], top))
      decreases |t| - src
    {
      var top' := CopyStep(t, src, top, top0);
      src, top := src + 1, top';
    }
    assert t[..src] == t;
  }

  /** Cleaning a cleaned name changes nothing, and reports no change. */
  lemma CleanIdempotent(s: seq<char>)
    ensures Clean(Clean(s)) == Clean(s)
    ensures !Changed(Clean(s))
  {
    match Find(s, '/')
    case None =>
    case Some(top0) =>
      CleanKeepsPrefix(s, top0);
      CleanShape(s);
      var t := Clean(s);
      if t == s[..top0] {
        assert '/' !in t;
      } else {
        CleanCanonical(s, top0);
        assert t[..top0] == s[..top0];
        assert FirstSlash(t, top0);
        assert Find(t, '/') == Some(top0);
        ScanCopies(t, top0);
        assert Scan(t, Start(t, top0)) == t;
      }
  }
}
