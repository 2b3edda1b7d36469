/** The input/output examples documented beside `clean()` (fileName.cxx,
    lines 32-45), each proved by running the pass two turns at a time: the
    lemma `RunX<i>` says what the pass over example X writes from its i-th
    state on.  The example of line 37 is stated as the code computes it:
    the trailing "/." is dropped, and so is the "/./" before it.  The last
    lemma shows that a leading "./" is kept. */
module CleanExamples {
  import opened StringSearch
  import opened PathClean

  lemma RunRepeatedSlashes0(s: seq<char>)
    requires s == "/abc////def"
    ensures Scan(s, ScanState(1, "/", 0)) == "/abc/def"
  {
    assert Step(s, ScanState(1, "/", 0)) == ScanState(2, "/a", 0);
    assert Step(s, ScanState(2, "/a", 0)) == ScanState(3, "/ab", 0);
    RunRepeatedSlashes1(s);
    assert Scan(s, ScanState(3, "/ab", 0)) == "/abc/def";
    assert Scan(s, ScanState(2, "/a", 0)) == "/abc/def";
    assert Scan(s, ScanState(1, "/", 0)) == "/abc/def";
  }

  lemma RunRepeatedSlashes1(s: seq<char>)
    requires s == "/abc////def"
    ensures Scan(s, ScanState(3, "/ab", 0)) == "/abc/def"
  {
    assert Step(s, ScanState(3, "/ab", 0)) == ScanState(4, "/abc", 0);
    assert Step(s, ScanState(4, "/abc", 0)) == ScanState(5, "/abc/", 0);
    RunRepeatedSlashes2(s);
    assert Scan(s, ScanState(5, "/abc/", 0)) == "/abc/def";
    assert Scan(s, ScanState(4, "/abc", 0)) == "/abc/def";
    assert Scan(s, ScanState(3, "/ab", 0)) == "/abc/def";
  }

  lemma RunRepeatedSlashes2(s: seq<char>)
    requires s == "/abc////def"
    ensures Scan(s, ScanState(5, "/abc/", 0)) == "/abc/def"
  {
    assert Step(s, ScanState(5, "/abc/", 0)) == ScanState(6, "/abc/", 0);
    assert Step(s, ScanState(6, "/abc/", 0)) == ScanState(7, "/abc/", 0);
    RunRepeatedSlashes3(s);
    assert Scan(s, ScanState(7, "/abc/", 0)) == "/abc/def";
    assert Scan(s, ScanState(6, "/abc/", 0)) == "/abc/def";
    assert Scan(s, ScanState(5, "/abc/", 0)) == "/abc/def";
  }

  lemma RunRepeatedSlashes3(s: seq<char>)
    requires s == "/abc////def"
    ensures Scan(s, ScanState(7, "/abc/", 0)) == "/abc/def"
  {
    assert Step(s, ScanState(7, "/abc/", 0)) == ScanState(8, "/abc/", 0);
    assert Step(s, ScanState(8, "/abc/", 0)) == ScanState(9, "/abc/d", 0);
    RunRepeatedSlashes4(s);
    assert Scan(s, ScanState(9, "/abc/d", 0)) == "/abc/def";
    assert Scan(s, ScanState(8, "/abc/", 0)) == "/abc/def";
    assert Scan(s, ScanState(7, "/abc/", 0)) == "/abc/def";
  }

  lemma RunRepeatedSlashes4(s: seq<char>)
    requires s == "/abc////def"
    ensures Scan(s, ScanState(9, "/abc/d", 0)) == "/abc/def"
  {
    assert Step(s, ScanState(9, "/abc/d", 0)) == ScanState(10, "/abc/de", 0);
    assert Step(s, ScanState(10, "/abc/de", 0)) == ScanState(11, "/abc/def", 0);
    assert Scan(s, ScanState(11, "/abc/def", 0)) == "/abc/def";
    assert Scan(s, ScanState(10, "/abc/de", 0)) == "/abc/def";
    assert Scan(s, ScanState(9, "/abc/d", 0)) == "/abc/def";
  }

  /** fileName.cxx, line 34. */
  lemma CleanExampleRepeatedSlashes(s: seq<char>)
    requires s == "/abc////def"
    ensures Clean(s) == "/abc/def"
  {
    assert FindFrom(s, '/', 0) == Some(0);
    assert Start(s, 0) == ScanState(1, "/", 0);
    RunRepeatedSlashes0(s);
  }

  lemma RunDotSegments0(s: seq<char>)
    requires s == "/abc/def/./ghi/."
    ensures Scan(s, ScanState(1, "/", 0)) == "/abc/def/ghi/"
  {
    assert Step(s, ScanState(1, "/", 0)) == ScanState(2, "/a", 0);
    assert Step(s, ScanState(2, "/a", 0)) == ScanState(3, "/ab", 0);
    RunDotSegments1(s);
    assert Scan(s, ScanState(3, "/ab", 0)) == "/abc/def/ghi/";
    assert Scan(s, ScanState(2, "/a", 0)) == "/abc/def/ghi/";
    assert Scan(s, ScanState(1, "/", 0)) == "/abc/def/ghi/";
  }

  lemma RunDotSegments1(s: seq<char>)
    requires s == "/abc/def/./ghi/."
    ensures Scan(s, ScanState(3, "/ab", 0)) == "/abc/def/ghi/"
  {
    assert Step(s, ScanState(3, "/ab", 0)) == ScanState(4, "/abc", 0);
    assert Step(s, ScanState(4, "/abc", 0)) == ScanState(5, "/abc/", 0);
    RunDotSegments2(s);
    assert Scan(s, ScanState(5, "/abc/", 0)) == "/abc/def/ghi/";
    assert Scan(s, ScanState(4, "/abc", 0)) == "/abc/def/ghi/";
    assert Scan(s, ScanState(3, "/ab", 0)) == "/abc/def/ghi/";
  }

  lemma RunDotSegments2(s: seq<char>)
    requires s == "/abc/def/./ghi/."
    ensures Scan(s, ScanState(5, "/abc/", 0)) == "/abc/def/ghi/"
  {
    assert Step(s, ScanState(5, "/abc/", 0)) == ScanState(6, "/abc/d", 0);
    assert Step(s, ScanState(6, "/abc/d", 0)) == ScanState(7, "/abc/de", 0);
    RunDotSegments3(s);
    assert Scan(s, ScanState(7, "/abc/de", 0)) == "/abc/def/ghi/";
    assert Scan(s, ScanState(6, "/abc/d", 0)) == "/abc/def/ghi/";
    assert Scan(s, ScanState(5, "/abc/", 0)) == "/abc/def/ghi/";
  }

  lemma RunDotSegments3(s: seq<char>)
    requires s == "/abc/def/./ghi/."
    ensures Scan(s, ScanState(7, "/abc/de", 0)) == "/abc/def/ghi/"
  {
    assert Step(s, ScanState(7, "/abc/de", 0)) == ScanState(8, "/abc/def", 0);
    assert Step(s, ScanState(8, "/abc/def", 0)) == ScanState(9, "/abc/def/", 0);
    RunDotSegments4(s);
    assert Scan(s, ScanState(9, "/abc/def/", 0)) == "/abc/def/ghi/";
    assert Scan(s, ScanState(8, "/abc/def", 0)) == "/abc/def/ghi/";
    assert Scan(s, ScanState(7, "/abc/de", 0)) == "/abc/def/ghi/";
  }

  lemma RunDotSegments4(s: seq<char>)
    requires s == "/abc/def/./ghi/."
    ensures Scan(s, ScanState(9, "/abc/def/", 0)) == "/abc/def/ghi/"
  {
    assert Step(s, ScanState(9, "/abc/def/", 0)) == ScanState(11, "/abc/def/", 0);
    assert Step(s, ScanState(11, "/abc/def/", 0)) == ScanState(12, "/abc/def/g", 0);
    RunDotSegments5(s);
    assert Scan(s, ScanState(12, "/abc/def/g", 0)) == "/abc/def/ghi/";
    assert Scan(s, ScanState(11, "/abc/def/", 0)) == "/abc/def/ghi/";
    assert Scan(s, ScanState(9, "/abc/def/", 0)) == "/abc/def/ghi/";
  }

  lemma RunDotSegments5(s: seq<char>)
    requires s == "/abc/def/./ghi/."
    ensures Scan(s, ScanState(12, "/abc/def/g", 0)) == "/abc/def/ghi/"
  {
    assert Step(s, ScanState(12, "/abc/def/g", 0)) == ScanState(13, "/abc/def/gh", 0);
    assert Step(s, ScanState(13, "/abc/def/gh", 0)) == ScanState(14, "/abc/def/ghi", 0);
    RunDotSegments6(s);
    assert Scan(s, ScanState(14, "/abc/def/ghi", 0)) == "/abc/def/ghi/";
    assert Scan(s, ScanState(13, "/abc/def/gh", 0)) == "/abc/def/ghi/";
    assert Scan(s, ScanState(12, "/abc/def/g", 0)) == "/abc/def/ghi/";
  }

  lemma RunDotSegments6(s: seq<char>)
    requires s == "/abc/def/./ghi/."
    ensures Scan(s, ScanState(14, "/abc/def/ghi", 0)) == "/abc/def/ghi/"
  {
    assert Step(s, ScanState(14, "/abc/def/ghi", 0)) == ScanState(15, "/abc/def/ghi/", 0);
    assert Step(s, ScanState(15, "/abc/def/ghi/", 0)) == ScanState(16, "/abc/def/ghi/", 0);
    assert Scan(s, ScanState(16, "/abc/def/ghi/", 0)) == "/abc/def/ghi/";
    assert Scan(s, ScanState(15, "/abc/def/ghi/", 0)) == "/abc/def/ghi/";
    assert Scan(s, ScanState(14, "/abc/def/ghi", 0)) == "/abc/def/ghi/";
  }

  /** fileName.cxx, line 37. */
  lemma CleanExampleDotSegments(s: seq<char>)
    requires s == "/abc/def/./ghi/."
    ensures Clean(s) == "/abc/def/ghi"
  {
    assert FindFrom(s, '/', 0) == Some(0);
    assert Start(s, 0) == ScanState(1, "/", 0);
    RunDotSegments0(s);
    assert "/abc/def/ghi/"[..12] == "/abc/def/ghi";
  }

  lemma RunTrailingDot0(s: seq<char>)
    requires s == "abc/def/./"
    ensures Scan(s, ScanState(4, "abc/", 3)) == "abc/def/"
  {
    assert Step(s, ScanState(4, "abc/", 3)) == ScanState(5, "abc/d", 3);
    assert Step(s, ScanState(5, "abc/d", 3)) == ScanState(6, "abc/de", 3);
    RunTrailingDot1(s);
    assert Scan(s, ScanState(6, "abc/de", 3)) == "abc/def/";
    assert Scan(s, ScanState(5, "abc/d", 3)) == "abc/def/";
    assert Scan(s, ScanState(4, "abc/", 3)) == "abc/def/";
  }

  lemma RunTrailingDot1(s: seq<char>)
    requires s == "abc/def/./"
    ensures Scan(s, ScanState(6, "abc/de", 3)) == "abc/def/"
  {
    assert Step(s, ScanState(6, "abc/de", 3)) == ScanState(7, "abc/def", 3);
    assert Step(s, ScanState(7, "abc/def", 3)) == ScanState(8, "abc/def/", 3);
    RunTrailingDot2(s);
    assert Scan(s, ScanState(8, "abc/def/", 3)) == "abc/def/";
    assert Scan(s, ScanState(7, "abc/def", 3)) == "abc/def/";
    assert Scan(s, ScanState(6, "abc/de", 3)) == "abc/def/";
  }

  lemma RunTrailingDot2(s: seq<char>)
    requires s == "abc/def/./"
    ensures Scan(s, ScanState(8, "abc/def/", 3)) == "abc/def/"
  {
    assert Step(s, ScanState(8, "abc/def/", 3)) == ScanState(10, "abc/def/", 3);
    assert Scan(s, ScanState(10, "abc/def/", 3)) == "abc/def/";
    assert Scan(s, ScanState(8, "abc/def/", 3)) == "abc/def/";
  }

  /** fileName.cxx, line 38. */
  lemma CleanExampleTrailingDot(s: seq<char>)
    requires s == "abc/def/./"
    ensures Clean(s) == "abc/def"
  {
    assert FindFrom(s, '/', 3) == Some(3);
    assert FindFrom(s, '/', 2) == Some(3);
    assert FindFrom(s, '/', 1) == Some(3);
    assert FindFrom(s, '/', 0) == Some(3);
    assert Start(s, 3) == ScanState(4, "abc/", 3);
    RunTrailingDot0(s);
    assert "abc/def/"[..7] == "abc/def";
  }

  lemma RunParents0(s: seq<char>)
    requires s == "/abc/def/../ghi/jkl/nmo/.."
    ensures Scan(s, ScanState(1, "/", 0)) == "/abc/ghi/jkl/"
  {
    assert Step(s, ScanState(1, "/", 0)) == ScanState(2, "/a", 0);
    assert Step(s, ScanState(2, "/a", 0)) == ScanState(3, "/ab", 0);
    RunParents1(s);
    assert Scan(s, ScanState(3, "/ab", 0)) == "/abc/ghi/jkl/";
    assert Scan(s, ScanState(2, "/a", 0)) == "/abc/ghi/jkl/";
    assert Scan(s, ScanState(1, "/", 0)) == "/abc/ghi/jkl/";
  }

  lemma RunParents1(s: seq<char>)
    requires s == "/abc/def/../ghi/jkl/nmo/.."
    ensures Scan(s, ScanState(3, "/ab", 0)) == "/abc/ghi/jkl/"
  {
    assert Step(s, ScanState(3, "/ab", 0)) == ScanState(4, "/abc", 0);
    assert Step(s, ScanState(4, "/abc", 0)) == ScanState(5, "/abc/", 0);
    RunParents2(s);
    assert Scan(s, ScanState(5, "/abc/", 0)) == "/abc/ghi/jkl/";
    assert Scan(s, ScanState(4, "/abc", 0)) == "/abc/ghi/jkl/";
    assert Scan(s, ScanState(3, "/ab", 0)) == "/abc/ghi/jkl/";
  }

  lemma RunParents2(s: seq<char>)
    requires s == "/abc/def/../ghi/jkl/nmo/.."
    ensures Scan(s, ScanState(5, "/abc/", 0)) == "/abc/ghi/jkl/"
  {
    assert Step(s, ScanState(5, "/abc/", 0)) == ScanState(6, "/abc/d", 0);
    assert Step(s, ScanState(6, "/abc/d", 0)) == ScanState(7, "/abc/de", 0);
    RunParents3(s);
    assert Scan(s, ScanState(7, "/abc/de", 0)) == "/abc/ghi/jkl/";
    assert Scan(s, ScanState(6, "/abc/d", 0)) == "/abc/ghi/jkl/";
    assert Scan(s, ScanState(5, "/abc/", 0)) == "/abc/ghi/jkl/";
  }

  lemma RunParents3(s: seq<char>)
    requires s == "/abc/def/../ghi/jkl/nmo/.."
    ensures Scan(s, ScanState(7, "/abc/de", 0)) == "/abc/ghi/jkl/"
  {
    assert Step(s, ScanState(7, "/abc/de", 0)) == ScanState(8, "/abc/def", 0);
    assert Step(s, ScanState(8, "/abc/def", 0)) == ScanState(9, "/abc/def/", 0);
    RunParents4(s);
    assert Scan(s, ScanState(9, "/abc/def/", 0)) == "/abc/ghi/jkl/";
    assert Scan(s, ScanState(8, "/abc/def", 0)) == "/abc/ghi/jkl/";
    assert Scan(s, ScanState(7, "/abc/de", 0)) == "/abc/ghi/jkl/";
  }

  lemma RunParents4(s: seq<char>)
    requires s == "/abc/def/../ghi/jkl/nmo/.."
    ensures Scan(s, ScanState(9, "/abc/def/", 0)) == "/abc/ghi/jkl/"
  {
    assert RFindFrom("/abc/def/", '/', 7) == Some(4);
    assert Parent("/abc/def/", 0) == Some(4);
    assert Step(s, ScanState(9, "/abc/def/", 0)) == ScanState(12, "/abc/", 0);
    assert Step(s, ScanState(12, "/abc/", 0)) == ScanState(13, "/abc/g", 0);
    RunParents5(s);
    assert Scan(s, ScanState(13, "/abc/g", 0)) == "/abc/ghi/jkl/";
    assert Scan(s, ScanState(12, "/abc/", 0)) == "/abc/ghi/jkl/";
    assert Scan(s, ScanState(9, "/abc/def/", 0)) == "/abc/ghi/jkl/";
  }

  lemma RunParents5(s: seq<char>)
    requires s == "/abc/def/../ghi/jkl/nmo/.."
    ensures Scan(s, ScanState(13, "/abc/g", 0)) == "/abc/ghi/jkl/"
  {
    assert Step(s, ScanState(13, "/abc/g", 0)) == ScanState(14, "/abc/gh", 0);
    assert Step(s, ScanState(14, "/abc/gh", 0)) == ScanState(15, "/abc/ghi", 0);
    RunParents6(s);
    assert Scan(s, ScanState(15, "/abc/ghi", 0)) == "/abc/ghi/jkl/";
    assert Scan(s, ScanState(14, "/abc/gh", 0)) == "/abc/ghi/jkl/";
    assert Scan(s, ScanState(13, "/abc/g", 0)) == "/abc/ghi/jkl/";
  }

  lemma RunParents6(s: seq<char>)
    requires s == "/abc/def/../ghi/jkl/nmo/.."
    ensures Scan(s, ScanState(15, "/abc/ghi", 0)) == "/abc/ghi/jkl/"
  {
    assert Step(s, ScanState(15, "/abc/ghi", 0)) == ScanState(16, "/abc/ghi/", 0);
    assert Step(s, ScanState(16, "/abc/ghi/", 0)) == ScanState(17, "/abc/ghi/j", 0);
    RunParents7(s);
    assert Scan(s, ScanState(17, "/abc/ghi/j", 0)) == "/abc/ghi/jkl/";
    assert Scan(s, ScanState(16, "/abc/ghi/", 0)) == "/abc/ghi/jkl/";
    assert Scan(s, ScanState(15, "/abc/ghi", 0)) == "/abc/ghi/jkl/";
  }

  lemma RunParents7(s: seq<char>)
    requires s == "/abc/def/../ghi/jkl/nmo/.."
    ensures Scan(s, ScanState(17, "/abc/ghi/j", 0)) == "/abc/ghi/jkl/"
  {
    assert Step(s, ScanState(17, "/abc/ghi/j", 0)) == ScanState(18, "/abc/ghi/jk", 0);
    assert Step(s, ScanState(18, "/abc/ghi/jk", 0)) == ScanState(19, "/abc/ghi/jkl", 0);
    RunParents8(s);
    assert Scan(s, ScanState(19, "/abc/ghi/jkl", 0)) == "/abc/ghi/jkl/";
    assert Scan(s, ScanState(18, "/abc/ghi/jk", 0)) == "/abc/ghi/jkl/";
    assert Scan(s, ScanState(17, "/abc/ghi/j", 0)) == "/abc/ghi/jkl/";
  }

  lemma RunParents8(s: seq<char>)
    requires s == "/abc/def/../ghi/jkl/nmo/.."
    ensures Scan(s, ScanState(19, "/abc/ghi/jkl", 0)) == "/abc/ghi/jkl/"
  {
    assert Step(s, ScanState(19, "/abc/ghi/jkl", 0)) == ScanState(20, "/abc/ghi/jkl/", 0);
    assert Step(s, ScanState(20, "/abc/ghi/jkl/", 0)) == ScanState(21, "/abc/ghi/jkl/n", 0);
    RunParents9(s);
    assert Scan(s, ScanState(21, "/abc/ghi/jkl/n", 0)) == "/abc/ghi/jkl/";
    assert Scan(s, ScanState(20, "/abc/ghi/jkl/", 0)) == "/abc/ghi/jkl/";
    assert Scan(s, ScanState(19, "/abc/ghi/jkl", 0)) == "/abc/ghi/jkl/";
  }

  lemma RunParents9(s: seq<char>)
    requires s == "/abc/def/../ghi/jkl/nmo/.."
    ensures Scan(s, ScanState(21, "/abc/ghi/jkl/n", 0)) == "/abc/ghi/jkl/"
  {
    assert Step(s, ScanState(21, "/abc/ghi/jkl/n", 0)) == ScanState(22, "/abc/ghi/jkl/nm", 0);
    assert Step(s, ScanState(22, "/abc/ghi/jkl/nm", 0)) == ScanState(23, "/abc/ghi/jkl/nmo", 0);
    RunParents10(s);
    assert Scan(s, ScanState(23, "/abc/ghi/jkl/nmo", 0)) == "/abc/ghi/jkl/";
    assert Scan(s, ScanState(22, "/abc/ghi/jkl/nm", 0)) == "/abc/ghi/jkl/";
    assert Scan(s, ScanState(21, "/abc/ghi/jkl/n", 0)) == "/abc/ghi/jkl/";
  }

  lemma RunParents10(s: seq<char>)
    requires s == "/abc/def/../ghi/jkl/nmo/.."
    ensures Scan(s, ScanState(23, "/abc/ghi/jkl/nmo", 0)) == "/abc/ghi/jkl/"
  {
    assert Step(s, ScanState(23, "/abc/ghi/jkl/nmo", 0)) == ScanState(24, "/abc/ghi/jkl/nmo/", 0);
    assert RFindFrom("/abc/ghi/jkl/nmo/", '/', 15) == Some(12);
    assert Parent("/abc/ghi/jkl/nmo/", 0) == Some(12);
    assert Step(s, ScanState(24, "/abc/ghi/jkl/nmo/", 0)) == ScanState(27, "/abc/ghi/jkl/", 0);
    assert Scan(s, ScanState(27, "/abc/ghi/jkl/", 0)) == "/abc/ghi/jkl/";
    assert Scan(s, ScanState(24, "/abc/ghi/jkl/nmo/", 0)) == "/abc/ghi/jkl/";
    assert Scan(s, ScanState(23, "/abc/ghi/jkl/nmo", 0)) == "/abc/ghi/jkl/";
  }

  /** fileName.cxx, line 41. */
  lemma CleanExampleParents(s: seq<char>)
    requires s == "/abc/def/../ghi/jkl/nmo/.."
    ensures Clean(s) == "/abc/ghi/jkl"
  {
    assert FindFrom(s, '/', 0) == Some(0);
    assert Start(s, 0) == ScanState(1, "/", 0);
    RunParents0(s);
    assert "/abc/ghi/jkl/"[..12] == "/abc/ghi/jkl";
  }

  lemma RunUnresolvedParent0(s: seq<char>)
    requires s == "abc/../def/ghi/../jkl"
    ensures Scan(s, ScanState(4, "abc/", 3)) == "abc/../def/jkl"
  {
    assert RFindFrom("abc/", '/', 2) == None;
    assert Parent("abc/", 3) == None;
    assert Step(s, ScanState(4, "abc/", 3)) == ScanState(5, "abc/.", 6);
    assert Step(s, ScanState(5, "abc/.", 6)) == ScanState(6, "abc/..", 6);
    RunUnresolvedParent1(s);
    assert Scan(s, ScanState(6, "abc/..", 6)) == "abc/../def/jkl";
    assert Scan(s, ScanState(5, "abc/.", 6)) == "abc/../def/jkl";
    assert Scan(s, ScanState(4, "abc/", 3)) == "abc/../def/jkl";
  }

  lemma RunUnresolvedParent1(s: seq<char>)
    requires s == "abc/../def/ghi/../jkl"
    ensures Scan(s, ScanState(6, "abc/..", 6)) == "abc/../def/jkl"
  {
    assert Step(s, ScanState(6, "abc/..", 6)) == ScanState(7, "abc/../", 6);
    assert Step(s, ScanState(7, "abc/../", 6)) == ScanState(8, "abc/../d", 6);
    RunUnresolvedParent2(s);
    assert Scan(s, ScanState(8, "abc/../d", 6)) == "abc/../def/jkl";
    assert Scan(s, ScanState(7, "abc/../", 6)) == "abc/../def/jkl";
    assert Scan(s, ScanState(6, "abc/..", 6)) == "abc/../def/jkl";
  }

  lemma RunUnresolvedParent2(s: seq<char>)
    requires s == "abc/../def/ghi/../jkl"
    ensures Scan(s, ScanState(8, "abc/../d", 6)) == "abc/../def/jkl"
  {
    assert Step(s, ScanState(8, "abc/../d", 6)) == ScanState(9, "abc/../de", 6);
    assert Step(s, ScanState(9, "abc/../de", 6)) == ScanState(10, "abc/../def", 6);
    RunUnresolvedParent3(s);
    assert Scan(s, ScanState(10, "abc/../def", 6)) == "abc/../def/jkl";
    assert Scan(s, ScanState(9, "abc/../de", 6)) == "abc/../def/jkl";
    assert Scan(s, ScanState(8, "abc/../d", 6)) == "abc/../def/jkl";
  }

  lemma RunUnresolvedParent3(s: seq<char>)
    requires s == "abc/../def/ghi/../jkl"
    ensures Scan(s, ScanState(10, "abc/../def", 6)) == "abc/../def/jkl"
  {
    assert Step(s, ScanState(10, "abc/../def", 6)) == ScanState(11, "abc/../def/", 6);
    assert Step(s, ScanState(11, "abc/../def/", 6)) == ScanState(12, "abc/../def/g", 6);
    RunUnresolvedParent4(s);
    assert Scan(s, ScanState(12, "abc/../def/g", 6)) == "abc/../def/jkl";
    assert Scan(s, ScanState(11, "abc/../def/", 6)) == "abc/../def/jkl";
    assert Scan(s, ScanState(10, "abc/../def", 6)) == "abc/../def/jkl";
  }

  lemma RunUnresolvedParent4(s: seq<char>)
    requires s == "abc/../def/ghi/../jkl"
    ensures Scan(s, ScanState(12, "abc/../def/g", 6)) == "abc/../def/jkl"
  {
    assert Step(s, ScanState(12, "abc/../def/g", 6)) == ScanState(13, "abc/../def/gh", 6);
    assert Step(s, ScanState(13, "abc/../def/gh", 6)) == ScanState(14, "abc/../def/ghi", 6);
    RunUnresolvedParent5(s);
    assert Scan(s, ScanState(14, "abc/../def/ghi", 6)) == "abc/../def/jkl";
    assert Scan(s, ScanState(13, "abc/../def/gh", 6)) == "abc/../def/jkl";
    assert Scan(s, ScanState(12, "abc/../def/g", 6)) == "abc/../def/jkl";
  }

  lemma RunUnresolvedParent5(s: seq<char>)
    requires s == "abc/../def/ghi/../jkl"
    ensures Scan(s, ScanState(14, "abc/../def/ghi", 6)) == "abc/../def/jkl"
  {
    assert Step(s, ScanState(14, "abc/../def/ghi", 6)) == ScanState(15, "abc/../def/ghi/", 6);
    assert RFindFrom("abc/../def/ghi/", '/', 13) == Some(10);
    assert Parent("abc/../def/ghi/", 6) == Some(10);
    assert Step(s, ScanState(15, "abc/../def/ghi/", 6)) == ScanState(18, "abc/../def/", 6);
    RunUnresolvedParent6(s);
    assert Scan(s, ScanState(18, "abc/../def/", 6)) == "abc/../def/jkl";
    assert Scan(s, ScanState(15, "abc/../def/ghi/", 6)) == "abc/../def/jkl";
    assert Scan(s, ScanState(14, "abc/../def/ghi", 6)) == "abc/../def/jkl";
  }

  lemma RunUnresolvedParent6(s: seq<char>)
    requires s == "abc/../def/ghi/../jkl"
    ensures Scan(s, ScanState(18, "abc/../def/", 6)) == "abc/../def/jkl"
  {
    assert Step(s, ScanState(18, "abc/../def/", 6)) == ScanState(19, "abc/../def/j", 6);
    assert Step(s, ScanState(19, "abc/../def/j", 6)) == ScanState(20, "abc/../def/jk", 6);
    RunUnresolvedParent7(s);
    assert Scan(s, ScanState(20, "abc/../def/jk", 6)) == "abc/../def/jkl";
    assert Scan(s, ScanState(19, "abc/../def/j", 6)) == "abc/../def/jkl";
    assert Scan(s, ScanState(18, "abc/../def/", 6)) == "abc/../def/jkl";
  }

  lemma RunUnresolvedParent7(s: seq<char>)
    requires s == "abc/../def/ghi/../jkl"
    ensures Scan(s, ScanState(20, "abc/../def/jk", 6)) == "abc/../def/jkl"
  {
    assert Step(s, ScanState(20, "abc/../def/jk", 6)) == ScanState(21, "abc/../def/jkl", 6);
    assert Scan(s, ScanState(21, "abc/../def/jkl", 6)) == "abc/../def/jkl";
    assert Scan(s, ScanState(20, "abc/../def/jk", 6)) == "abc/../def/jkl";
  }

  /** fileName.cxx, line 42. */
  lemma CleanExampleUnresolvedParent(s: seq<char>)
    requires s == "abc/../def/ghi/../jkl"
    ensures Clean(s) == "abc/../def/jkl"
  {
    assert FindFrom(s, '/', 3) == Some(3);
    assert FindFrom(s, '/', 2) == Some(3);
    assert FindFrom(s, '/', 1) == Some(3);
    assert FindFrom(s, '/', 0) == Some(3);
    assert Start(s, 3) == ScanState(4, "abc/", 3);
    RunUnresolvedParent0(s);
  }

  /** The pass starts after the first separator (fileName.cxx, lines
      48-64), so a `.` segment in front of that separator is kept. */
  lemma CleanExampleLeadingDot(s: seq<char>)
    requires s == "./a"
    ensures Clean(s) == "./a"
  {
    assert FindFrom(s, '/', 1) == Some(1);
    assert FindFrom(s, '/', 0) == Some(1);
    assert Start(s, 1) == ScanState(2, "./", 1);
    assert Step(s, ScanState(2, "./", 1)) == ScanState(3, "./a", 1);
    assert Scan(s, ScanState(3, "./a", 1)) == "./a";
    assert Scan(s, ScanState(2, "./", 1)) == "./a";
  }
}
