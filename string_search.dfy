/** The std::string search primitives the path type is built on.  Where
    std::string answers `npos`, these answer None. */
module StringSearch {

  datatype Option<T> = None | Some(value: T)

  /** `find(c, start)`: the first index at or after `start` that holds `c`. */
  function FindFrom(s: seq<char>, c: char, start: nat): (r: Option<nat>)
    ensures r.Some? ==> start <= r.value < |s| && s[r.value] == c
    ensures r.Some? ==> forall j :: start <= j < r.value ==> s[j] != c
    ensures r.None? ==> forall j :: start <= j < |s| ==> s[j] != c
    decreases |s| - start
  {
    if start >= |s| then None
    else if s[start] == c then Some(start)
    else FindFrom(s, c, start + 1)
  }

  /** `find(c)`: the first index that holds `c`. */
  function Find(s: seq<char>, c: char): (r: Option<nat>)
    ensures r.Some? <==> c in s
    ensures r.Some? ==> r.value < |s| && s[r.value] == c && c !in s[..r.value]
  {
    var r := FindFrom(s, c, 0);
    assert r.Some? ==> forall j :: 0 <= j < r.value ==> s[..r.value][j] == s[j];
    r
  }

  /** `rfind(c, pos)`: the last index at or before `pos` that holds `c`; a
      `pos` beyond the end searches the whole string. */
  function RFindFrom(s: seq<char>, c: char, pos: nat): (r: Option<nat>)
    ensures r.Some? ==> r.value <= pos && r.value < |s| && s[r.value] == c
    ensures r.Some? ==> forall j :: r.value < j <= pos && j < |s| ==> s[j] != c
    ensures r.None? ==> forall j :: 0 <= j <= pos && j < |s| ==> s[j] != c
    decreases pos
  {
    if |s| == 0 then None
    else if pos >= |s| then RFindFrom(s, c, |s| - 1)
    else if s[pos] == c then Some(pos)
    else if pos == 0 then None
    else RFindFrom(s, c, pos - 1)
  }

  /** `rfind(c)`: the last index that holds `c`. */
  function RFind(s: seq<char>, c: char): (r: Option<nat>)
    ensures r.Some? <==> c in s
    ensures r.Some? ==> r.value < |s| && s[r.value] == c && c !in s[r.value + 1..]
  {
    RFindFrom(s, c, |s|)
  }

  /** `find_last_of(cs)`: the last index whose character is one of `cs`. */
  function FindLastOf(s: seq<char>, cs: set<char>): (r: Option<nat>)
    ensures r.Some? ==> r.value < |s| && s[r.value] in cs
    ensures r.Some? ==> forall j :: r.value < j < |s| ==> s[j] !in cs
    ensures r.None? ==> forall j :: 0 <= j < |s| ==> s[j] !in cs
  {
    if |s| == 0 then None
    else if s[|s| - 1] in cs then Some(|s| - 1)
    else FindLastOf(s[..|s| - 1], cs)
  }
}
