/** The file-name object itself: a character buffer that the assignment
    operators overwrite and `clean()` rewrites in place (fileName.cxx). */
module FileNames {
  import opened StringSearch
  import PathClean
  import opened PathJoin

  // ---------------------------------------------------------------------
  // Sanitisation

  /** `stripInvalid()`: the characters the validity test accepts, in their
      order.  Which characters are valid is decided by the string type and
      is a parameter here. */
  function StripInvalid(s: seq<char>, valid: char -> bool): (r: seq<char>)
    ensures |r| <= |s|
    ensures forall k :: 0 <= k < |r| ==> valid(r[k])
    ensures forall c :: valid(c) ==> multiset(r)[c] == multiset(s)[c]
    ensures forall c :: !valid(c) ==> c !in r
  {
    if |s| == 0 then []
    else
      var r := StripInvalid(s[..|s| - 1], valid);
      var c := s[|s| - 1];
      assert s == s[..|s| - 1] + [c];
      if valid(c) then r + [c] else r
  }

  /** Sanitising a concatenation sanitises each part, so the valid
      characters come out in the order they went in. */
  lemma {:induction false} StripInvalidConcat(a: seq<char>, b: seq<char>, valid: char -> bool)
    ensures StripInvalid(a + b, valid) == StripInvalid(a, valid) + StripInvalid(b, valid)
    decreases |b|
  {
    if |b| == 0 {
      assert a + b == a;
    } else {
      var b', c := b[..|b| - 1], b[|b| - 1];
      assert (a + b)[..|a + b| - 1] == a + b';
      assert (a + b)[|a + b| - 1] == c;
      StripInvalidConcat(a, b', valid);
    }
  }

  /** A text whose characters are all valid is left as it is ... */
  lemma {:induction false} StripInvalidKeeps(s: seq<char>, valid: char -> bool)
    requires forall k :: 0 <= k < |s| ==> valid(s[k])
    ensures StripInvalid(s, valid) == s
    decreases |s|
  {
    if |s| > 0 {
      StripInvalidKeeps(s[..|s| - 1], valid);
      assert s == s[..|s| - 1] + [s[|s| - 1]];
    }
  }

  /** ... so sanitising twice is sanitising once. */
  lemma StripInvalidIdempotent(s: seq<char>, valid: char -> bool)
    ensures StripInvalid(StripInvalid(s, valid), valid) == StripInvalid(s, valid)
  {
    StripInvalidKeeps(StripInvalid(s, valid), valid);
  }

  // ---------------------------------------------------------------------
  // The object

  class FileName {
    /** The characters; the name is the first `size` of them. */
    var buf: array<char>
    var size: nat

    ghost predicate Valid()
      reads this
    {
      size <= buf.Length
    }

    /** The name this object holds. */
    function Text(): seq<char>
      requires Valid()
      reads this, buf
    {
      buf[..size]
    }

    /** The empty name. */
    constructor Empty()
      ensures Valid() && Text() == ""
      ensures fresh(buf)
    {
      buf := new char[0];
      size := 0;
    }

    /** The copy constructor. */
    constructor Copy(other: FileName)
      requires other.Valid()
      ensures Valid() && Text() == other.Text()
      ensures fresh(buf)
    {
      var t := other.Text();
      buf := new char[|t|](i requires 0 <= i < |t| => t[i]);
      size := |t|;
      new;
      assert buf[..size] == t;
    }

    /** The constructor from a word list (fileName.cxx, lines 18-24): each
        word in turn is joined onto the name, as `*this = *this / word`;
        the join is a file name, so the assignment is the one from a file
        name. */
    constructor FromWordList(ws: seq<seq<char>>)
      ensures Valid() && Text() == JoinAll(ws)
      ensures fresh(buf)
    {
      buf := new char[0];
      size := 0;
      new;
      var i := 0;
      assert ws[..0] == [];
      while i < |ws|
        invariant 0 <= i <= |ws|
        invariant Valid() && Text() == JoinAll(ws[..i]) && fresh(buf)
      {
        var joined := new FileName.Empty();
        joined.SetText(Join(Text(), ws[i]));
        AssignFileName(joined);
        assert ws[..i + 1][..i] == ws[..i];
        i := i + 1;
      }
      assert ws[..|ws|] == ws;
    }

    /** Replace the name by `t`, as the base-string assignment does. */
    method SetText(t: seq<char>)
      modifies this
      ensures Valid() && Text() == t
      ensures fresh(buf)
    {
      buf := new char[|t|](i requires 0 <= i < |t| => t[i]);
      size := |t|;
      assert buf[..size] == t;
    }

    /** `operator=(const fileName&)` (fileName.cxx, lines 288-292): a plain
        copy, with no sanitising. */
    method AssignFileName(other: FileName)
      requires other.Valid()
      modifies this
      ensures Valid() && Text() == old(other.Text())
      ensures fresh(buf)
    {
      SetText(other.Text());
    }

    /** `operator=(const word&)` (fileName.cxx, lines 295-299): a word is
        already valid, so nothing is stripped. */
    method AssignWord(w: seq<char>)
      modifies this
      ensures Valid() && Text() == w
      ensures fresh(buf)
    {
      SetText(w);
    }

    /** `operator=` from a string, a standard string or a C string
        (fileName.cxx, lines 302-323): copy, then strip the characters that
        are not valid in a file name. */
    method AssignString(str: seq<char>, valid: char -> bool)
      modifies this
      ensures Valid() && Text() == StripInvalid(str, valid)
      ensures forall k :: 0 <= k < |Text()| ==> valid(Text()[k])
      ensures fresh(buf)
    {
      SetText(str);
      var stripped := StripInvalid(Text(), valid);
      SetText(stripped);
    }

    /** `clean()` (fileName.cxx, lines 46-138): normalise the name in place
        and resize it; the answer is whether it changed. */
    method Clean() returns (changed: bool)
      requires Valid()
      modifies this, buf
      ensures Valid() && buf == old(buf)
      ensures Text() == PathClean.Clean(old(Text()))
      ensures changed == PathClean.Changed(old(Text()))
    {
      var n;
      n, changed := PathClean.CleanBuffer(buf, size);
      size := n;
    }

    /** The const `clean()` (fileName.cxx, lines 141-146): a cleaned copy,
        with this name left as it is. */
    method Cleaned() returns (f: FileName)
      requires Valid()
      ensures fresh(f) && f.Valid() && fresh(f.buf)
      ensures f.Text() == PathClean.Clean(Text())
    {
      f := new FileName.Copy(this);
      var _ := f.Clean();
    }
  }
}
