# fileName — a lexical path string and its normaliser

This project models `AutLib::fileName` from AutMarine
(`AutBase/AutLib/Base/Primitives/string/fileName.cxx`) and proves properties of the model.
A file name is a string of characters with `/` as its only separator. Every
operation is lexical: nothing looks at a filesystem.

The model has seven modules:

- `StringSearch` (`string_search.dfy`): the `std::string` searches the code relies on.
  These are `find`, `rfind` and `find_last_of`. Where the C++ answers `npos`, they
  answer `None`.
- `PathClean` (`path_clean.dfy`): the in-place normaliser `clean()`.
  - `Step` states one turn of the loop as a function on a `ScanState`. The state
    holds the read cursor `src`, the text written so far (its length is the write
    cursor `nChar`, its last character `prev`) and the boundary `top`.
  - `Scan` runs the turns to the end. `Clean` is the text left behind, and
    `Changed` is the value returned.
  - `CleanBuffer` is the algorithm itself, on an `array<char>` with two cursors.
    Its loop body is the method `CleanTurn`. It is proved to leave `Clean` of the
    old contents at the front of the buffer.
  - The lemmas prove the shape of the result, the protected prefix, and what
    happens to a `..` that cannot be resolved.
- `CleanTwice` (`clean_twice.dfy`): `clean()` is idempotent. The first pass leaves
  every `..` segment directly after the first separator or after another `..`.
  A second pass over such a text copies every character.
- `CleanExamples` (`clean_examples.dfy`): the input/output examples in the comment
  above `clean()`.
- `PathQueries` (`path_queries.dfy`): `name()`, `path()`, `lessExt()`, `ext()`,
  `components()` and `component()`, as functions on `seq<char>`.
  - `components()` is also the loop method `ComponentsOf`, proved equal to the
    function.
  - `Fields` and `JoinWith` are the reference pair for `components()`. They are
    a split that keeps the empty fields, and its inverse.
- `PathJoin` (`path_join.dfy`): `operator/` as `Join`, and its left fold `JoinAll`.
  The fold is what the word-list constructor computes.
- `FileNames` (`file_names.dfy`): the object, as a class `FileName`.
  - Its text lives in its own `array<char>` buffer.
  - It has constructors: empty, copy, and from a word list (a loop over the words).
  - The assignment operators overwrite the buffer, and some of them also sanitise.
    `stripInvalid()` is modelled as `StripInvalid`, a filter taking the validity
    test as a parameter.
  - `Clean` runs `CleanBuffer` on the buffer and resizes it. `Cleaned` is the
    const version, which returns a cleaned copy.

The model follows the code where its comment tables disagree with it:

- The comment at `fileName.cxx:37` says `/abc/def/./ghi/.` cleans to
  `/abc/def/./ghi`. The pass drops both the `/./` and the trailing `/.`, and gives
  `/abc/def/ghi`. `CleanExamples.CleanExampleDotSegments` proves that value.
- The `path()` table at `fileName.cxx:185` gives `/foo/bar/` for `/foo/bar/`. The
  code returns the part before the last separator, which is `/foo/bar`.
  `PathQueries.PathTable` states that.
- The comment at `fileName.cxx:35` speaks of removing `/./`. The pass starts after
  the first separator (`fileName.cxx:48-64`), so a `.` segment in front of it is
  not a `/./` and is kept: `./a` cleans to `./a`. `CleanExamples.CleanExampleLeadingDot`
  proves that value.

## Model

| member | source | states |
|---|---|---|
| `StringSearch.FindFrom` | AutBase/AutLib/Base/Primitives/string/fileName.cxx:257 | `find(c, start)`: the answer is the first `c` at or after `start`, and `None` when there is none |
| `StringSearch.Find` | AutBase/AutLib/Base/Primitives/string/fileName.cxx:49 | `find(c)`: `Some` exactly when `c` occurs; then the index holds `c` and no earlier index does |
| `StringSearch.RFindFrom` | AutBase/AutLib/Base/Primitives/string/fileName.cxx:110 | `rfind(c, pos)`: the last `c` at or before `pos`; `None` when there is none |
| `StringSearch.RFind` | AutBase/AutLib/Base/Primitives/string/fileName.cxx:163 | `rfind(c)`: `Some` exactly when `c` occurs; then no later index holds `c` |
| `StringSearch.FindLastOf` | AutBase/AutLib/Base/Primitives/string/fileName.cxx:209 | `find_last_of(cs)`: the last index whose character is in `cs`, and `None` when no character is |
| `PathClean.Parent` | AutBase/AutLib/Base/Primitives/string/fileName.cxx:104-112 | the parent separator a `..` rewinds to needs at least three characters written; it lies at or above `top` and at or before the second-to-last character written, and no separator lies between it and the end; `None` means no separator lies in that range |
| `PathClean.Step` | AutBase/AutLib/Base/Primitives/string/fileName.cxx:69-126 | one turn of the loop always advances the read cursor and leaves at least one character written |
| `PathClean.Scan` | AutBase/AutLib/Base/Primitives/string/fileName.cxx:62-127 | the text the loop writes from a state: never empty, and longer than what was already written by at most one character per character still to be read; `ScanFacts` states its shape |
| `PathClean.Start` | AutBase/AutLib/Base/Primitives/string/fileName.cxx:57-59 | the loop starts with read and write cursors together just past the first separator, with the input up to that separator written and `top` at it; `StartInv` states that the invariant holds there |
| `PathClean.DropTrailingSlash` | AutBase/AutLib/Base/Primitives/string/fileName.cxx:130-133 | the text changes exactly when it is longer than one character and ends in a separator, and then only that separator goes; `DropTrailingSlashShape` states what it keeps |
| `PathClean.Clean` | AutBase/AutLib/Base/Primitives/string/fileName.cxx:46-138 | the text `clean()` leaves is never longer than the input and is the input when there is no separator; `CleanShape`, `CleanKeepsPrefix` and `CleanTwice.CleanIdempotent` state the rest |
| `PathClean.Changed` | AutBase/AutLib/Base/Primitives/string/fileName.cxx:137 | the value `clean()` returns, whether the length changed, is true exactly when the text changed |
| `PathClean.CleanSameLength` | AutBase/AutLib/Base/Primitives/string/fileName.cxx:130-137 | a cleaned text of the input's length is the input, so comparing lengths decides whether anything changed |
| `PathClean.StartInv` | AutBase/AutLib/Base/Primitives/string/fileName.cxx:48-66 | the state just after the first separator satisfies the invariant of the pass |
| `PathClean.StepInv` | AutBase/AutLib/Base/Primitives/string/fileName.cxx:69-126 | every turn preserves the invariant: prefix up to the first separator kept, output no longer than what was read, no `//`, no `/./`, `top` never below the first separator |
| `PathClean.ScanFacts` | AutBase/AutLib/Base/Primitives/string/fileName.cxx:62-127 | the whole pass writes at most as many characters as the input, keeps the prefix up to the first separator, writes no `//` and no `.` segment after the first separator, gives back the input when nothing was dropped, and never touches what lies before `top` |
| `PathClean.UnresolvedDotDotKept` | AutBase/AutLib/Base/Primitives/string/fileName.cxx:100-122 | a `..` with no parent at or above `top` raises `top` to `nChar + 2` and survives, as written, in the text the loop writes |
| `PathClean.CleanNoSlash` | AutBase/AutLib/Base/Primitives/string/fileName.cxx:49-55 | a text without a separator is left unchanged and reported unchanged |
| `PathClean.DropTrailingSlashShape` | AutBase/AutLib/Base/Primitives/string/fileName.cxx:130-133 | removing the trailing separator keeps the text free of `//` and of `.` segments after the first separator, and leaves no trailing separator on a text longer than one character |
| `PathClean.CleanShape` | AutBase/AutLib/Base/Primitives/string/fileName.cxx:46-138 | the result is never longer than the input, has no `//` and no `.` segment after the first separator, ends in a separator only when it is the lone separator, and the return value is true exactly when the text changed |
| `PathClean.CleanKeepsPrefix` | AutBase/AutLib/Base/Primitives/string/fileName.cxx:48-59 | everything up to the first separator is preserved: the result starts with that prefix and the separator, except that a non-empty prefix may be left alone when nothing follows the separator; an absolute path always keeps its root separator |
| `PathClean.CleanTurn` | AutBase/AutLib/Base/Primitives/string/fileName.cxx:69-126 | one turn of the loop on the buffer does exactly what `Step` does: same read cursor, same written text, same `top`; characters not yet read and those past the text are left alone |
| `PathClean.CleanBuffer` | AutBase/AutLib/Base/Primitives/string/fileName.cxx:46-138 | the in-place pass leaves `Clean` of the old text at the front of the buffer, returns true exactly when the length changed, and leaves the rest of the buffer alone |
| `CleanTwice.DotInvStep` | AutBase/AutLib/Base/Primitives/string/fileName.cxx:69-126 | every turn of the first pass keeps the record of written `..` segments: each one follows the first separator or another `..`, and `top` is a separator or lies just past a kept `..` |
| `CleanTwice.ScanCanonical` | AutBase/AutLib/Base/Primitives/string/fileName.cxx:62-127 | after the whole pass, every `..` segment follows the first separator directly or follows another `..` |
| `CleanTwice.CleanCanonical` | AutBase/AutLib/Base/Primitives/string/fileName.cxx:46-138 | the text `clean()` leaves is canonical in that sense, trailing separator dropped or not |
| `CleanTwice.CopyStep` | AutBase/AutLib/Base/Primitives/string/fileName.cxx:69-126 | over a canonical text without `//` and without `.` segments after the first separator, a turn copies the character it reads: every `..` finds no parent at or above `top` |
| `CleanTwice.ScanCopies` | AutBase/AutLib/Base/Primitives/string/fileName.cxx:62-127 | the pass over such a text writes it back unchanged |
| `CleanTwice.CleanIdempotent` | AutBase/AutLib/Base/Primitives/string/fileName.cxx:46-138 | cleaning a cleaned name gives the same name, and `clean()` then reports no change |
| `CleanExamples.CleanExampleRepeatedSlashes` | AutBase/AutLib/Base/Primitives/string/fileName.cxx:34 | `/abc////def` cleans to `/abc/def` |
| `CleanExamples.CleanExampleDotSegments` | AutBase/AutLib/Base/Primitives/string/fileName.cxx:37 | `/abc/def/./ghi/.` cleans to `/abc/def/ghi`, as the code computes it |
| `CleanExamples.CleanExampleTrailingDot` | AutBase/AutLib/Base/Primitives/string/fileName.cxx:38 | `abc/def/./` cleans to `abc/def` |
| `CleanExamples.CleanExampleParents` | AutBase/AutLib/Base/Primitives/string/fileName.cxx:41 | `/abc/def/../ghi/jkl/nmo/..` cleans to `/abc/ghi/jkl` |
| `CleanExamples.CleanExampleLeadingDot` | AutBase/AutLib/Base/Primitives/string/fileName.cxx:48-64 | `./a` cleans to `./a`: the `.` before the first separator is not removed |
| `CleanExamples.CleanExampleUnresolvedParent` | AutBase/AutLib/Base/Primitives/string/fileName.cxx:42 | `abc/../def/ghi/../jkl` cleans to `abc/../def/jkl`: the first `..` cannot climb above the first separator and is kept |
| `PathQueries.Name` | AutBase/AutLib/Base/Primitives/string/fileName.cxx:161-173 | `name()` holds no separator; it is the whole text when there is no separator, and otherwise the suffix right after the last one |
| `PathQueries.Path` | AutBase/AutLib/Base/Primitives/string/fileName.cxx:187-203 | `path()` is `.` without a separator, `/` when the only separator is the first character, and otherwise the prefix before the last separator |
| `PathQueries.PathNameSplit` | AutBase/AutLib/Base/Primitives/string/fileName.cxx:161-203 | path, separator and name together give the text back; for a root path `/` the separator is not repeated |
| `PathQueries.LastSlash` | AutBase/AutLib/Base/Primitives/string/fileName.cxx:163 | the last separator of `t + "/" + b`, for `b` without one, is the one between them |
| `PathQueries.NameTable` | AutBase/AutLib/Base/Primitives/string/fileName.cxx:150-159 | the `name()` table, for any non-empty words without a separator in place of `foo` and `bar` |
| `PathQueries.PathTable` | AutBase/AutLib/Base/Primitives/string/fileName.cxx:176-185 | the `path()` table, for any such words, with `/foo/bar/` giving `/foo/bar` as the code computes it |
| `PathQueries.ExtDot` | AutBase/AutLib/Base/Primitives/string/fileName.cxx:209-211 | the dot the extension starts at is the last of the characters `./`, provided it is a dot other than the first character; `None` when no such dot exists |
| `PathQueries.LessExt` | AutBase/AutLib/Base/Primitives/string/fileName.cxx:207-219 | `lessExt()` is a prefix of the text |
| `PathQueries.Ext` | AutBase/AutLib/Base/Primitives/string/fileName.cxx:223-235 | `ext()` holds no dot and no separator |
| `PathQueries.ExtRoundTrip` | AutBase/AutLib/Base/Primitives/string/fileName.cxx:207-235 | when an extension exists, `lessExt() + "." + ext()` is the text; otherwise `lessExt()` is the text and `ext()` is empty |
| `PathQueries.ExtExamples` | AutBase/AutLib/Base/Primitives/string/fileName.cxx:207-235 | `a.b.c` has extension `c` and `lessExt` `a.b`; `a/b.c/d` has no extension, because its dot lies before the last separator |
| `PathQueries.Fields` | AutBase/AutLib/Base/Primitives/string/fileName.cxx:257-265 | splitting at every delimiter gives at least one field, and no field holds the delimiter |
| `PathQueries.FieldsJoin` | AutBase/AutLib/Base/Primitives/string/fileName.cxx:251-275 | joining the fields with the delimiter gives the text back, so the fields come in their left-to-right order |
| `PathQueries.JoinFields` | AutBase/AutLib/Base/Primitives/string/fileName.cxx:251-275 | splitting a join of delimiter-free words gives the words back |
| `PathQueries.NonEmpty` | AutBase/AutLib/Base/Primitives/string/fileName.cxx:259-263 | dropping the empty elements leaves no empty element and no more elements than before |
| `PathQueries.Components` | AutBase/AutLib/Base/Primitives/string/fileName.cxx:251-275 | no element of `components(d)` is empty or holds `d` |
| `PathQueries.ComponentsOfJoin` | AutBase/AutLib/Base/Primitives/string/fileName.cxx:238-275 | the components of a join of non-empty, delimiter-free words are those words, in order |
| `PathQueries.ComponentsLast` | AutBase/AutLib/Base/Primitives/string/fileName.cxx:267-271 | with no delimiter left, the rest of the text is one component, or none when it is empty |
| `PathQueries.ComponentsNext` | AutBase/AutLib/Base/Primitives/string/fileName.cxx:257-265 | at the next delimiter, the field before it is the next component unless it is empty; the components of the rest follow |
| `PathQueries.ComponentsOf` | AutBase/AutLib/Base/Primitives/string/fileName.cxx:251-275 | the while loop over the delimiters returns exactly `Components(s, d)` |
| `PathQueries.Component` | AutBase/AutLib/Base/Primitives/string/fileName.cxx:279-286 | `component(i, d)` is `components(d)[i]`, and fails (`None`) exactly when `i` is out of range |
| `PathQueries.ComponentsTable` | AutBase/AutLib/Base/Primitives/string/fileName.cxx:238-249 | the `components()` table, for any delimiter and any non-empty delimiter-free words in place of `foo` and `bar`: leading and trailing delimiters add no component |
| `PathQueries.SplitLeading` | AutBase/AutLib/Base/Primitives/string/fileName.cxx:259-263 | a leading delimiter adds no component |
| `PathQueries.SplitTrailing` | AutBase/AutLib/Base/Primitives/string/fileName.cxx:267-271 | a trailing delimiter adds no component |
| `PathJoin.Join` | AutBase/AutLib/Base/Primitives/string/fileName.cxx:325-349 | the length of `a / b` is the sum of the lengths, plus one for the separator exactly when both are non-empty |
| `PathJoin.JoinIdentity` | AutBase/AutLib/Base/Primitives/string/fileName.cxx:325-349 | the empty name is the identity of `/` on both sides |
| `PathJoin.JoinNamePath` | AutBase/AutLib/Base/Primitives/string/fileName.cxx:327-332 | joining a word onto a non-empty name makes the word its `name()` and the name its `path()` |
| `PathJoin.FieldsConcat` | AutBase/AutLib/Base/Primitives/string/fileName.cxx:331 | the fields of `a + "/" + b` are the fields of `a` followed by those of `b` |
| `PathJoin.JoinComponents` | AutBase/AutLib/Base/Primitives/string/fileName.cxx:325-349 | the components of `a / b` are those of `a` followed by those of `b` |
| `PathJoin.JoinAll` | AutBase/AutLib/Base/Primitives/string/fileName.cxx:18-24 | the left fold of `/` over a word list is empty exactly when every word is empty |
| `PathJoin.JoinAllComponents` | AutBase/AutLib/Base/Primitives/string/fileName.cxx:18-24 | the components of the fold over non-empty words without a separator are those words |
| `PathJoin.JoinAllNamePath` | AutBase/AutLib/Base/Primitives/string/fileName.cxx:18-24 | after a last word is joined onto a non-empty name, that word is `name()` and the fold of the earlier words is `path()` |
| `PathJoin.JoinAllThree` | AutBase/AutLib/Base/Primitives/string/fileName.cxx:18-24 | three words `a`, `b` and `c` give `a/b/c` |
| `FileNames.StripInvalid` | AutBase/AutLib/Base/Primitives/string/fileName.cxx:305 | sanitising keeps every valid character, as often as it occurs, and no invalid one, and never lengthens the text |
| `FileNames.StripInvalidConcat` | AutBase/AutLib/Base/Primitives/string/fileName.cxx:305 | sanitising a concatenation sanitises each part, so the kept characters stay in their order |
| `FileNames.StripInvalidKeeps` | AutBase/AutLib/Base/Primitives/string/fileName.cxx:305 | a text whose characters are all valid is not changed by sanitising |
| `FileNames.StripInvalidIdempotent` | AutBase/AutLib/Base/Primitives/string/fileName.cxx:305 | sanitising twice is sanitising once |
| `FileNames.FileName.Empty` | AutBase/AutLib/Base/Primitives/string/fileName.cxx:16 | the default file name is empty |
| `FileNames.FileName.Copy` | AutBase/AutLib/Base/Primitives/string/fileName.cxx:143 | the copy holds the same text in a buffer of its own |
| `FileNames.FileName.SetText` | AutBase/AutLib/Base/Primitives/string/fileName.cxx:290 | the base-string assignment, shared by the three assignment operators: the object then holds exactly the given text |
| `FileNames.FileName.FromWordList` | AutBase/AutLib/Base/Primitives/string/fileName.cxx:18-24 | the loop that assigns the file name `*this / word`, through the assignment from a file name, for each word leaves the left fold `JoinAll` of the list |
| `FileNames.FileName.AssignFileName` | AutBase/AutLib/Base/Primitives/string/fileName.cxx:288-292 | assigning a file name copies its text, with no sanitising |
| `FileNames.FileName.AssignWord` | AutBase/AutLib/Base/Primitives/string/fileName.cxx:295-299 | assigning a word copies it, with no sanitising |
| `FileNames.FileName.AssignString` | AutBase/AutLib/Base/Primitives/string/fileName.cxx:302-323 | assigning a string, a standard string or a C string leaves the string sanitised: only valid characters remain |
| `FileNames.FileName.Clean` | AutBase/AutLib/Base/Primitives/string/fileName.cxx:46-138 | `clean()` rewrites the object's own buffer to `Clean` of the old text and returns whether it changed |
| `FileNames.FileName.Cleaned` | AutBase/AutLib/Base/Primitives/string/fileName.cxx:141-146 | the const `clean()` returns a fresh, cleaned copy and leaves the object as it was |

## Left out

- `type()` (`fileName.cxx:26-29`) asks the operating system what the name refers to. It is I/O and is not modelled.
- The `typeName` string, the debug switch and the `null` object (`fileName.cxx:7-16`) are registration plumbing. Only the empty value behind `null` is modelled, as `FileName.Empty`.
- Integer widths, in two parts:
  - The `size_type` arithmetic is modelled on unbounded naturals. This covers `nChar - 2` (guarded by `nChar > 2`, `fileName.cxx:109-110`), `top = nChar + 2` (`:122`) and `end + 1` (`:264`). These wrap only at lengths near the maximum of `size_type`, which no real buffer reaches.
  - `PathQueries.Component`: the `(label)cmpt` cast at `:285` is dropped. An index beyond the range of `label` is treated as out of range (`None`). The source would instead turn it into a different `label` value.
- `FileNames.StripInvalid`: the validity test is a parameter. The header that decides which characters are invalid for a file name, and whether stripping happens in every build, is not part of this model. The constructors from a `word`, a `string` or a C string live in that header too and are not modelled.
- `PathJoin.Join`: `operator/` builds its result with the `fileName(const string&)` constructor (`:331`). That constructor is in the header and may sanitise. The model joins the two texts as they are.
- `PathQueries.Name`, `PathQueries.Path`, `PathQueries.LessExt`, `PathQueries.Ext`, `PathQueries.Components` and `PathQueries.ComponentsOf`: the same conversion of a string result happens here. It turns the result into a `word` or a `fileName`: in `name()` (`:167`, `:171`), `path()` (`:193`, `:197`, `:201`), `lessExt()` (`:213`, `:217`), `ext()` (`:233`) and `components()` (`:262`, `:270`). Those constructors may sanitise too. The model returns the substrings as they are.
- `DynamicList` and `wordList` are modelled as `seq`. Their growth policy (the initial capacity 20) does not change any result.
- `PathQueries.Component`: an index out of range is modelled as `None`, the failed index check. The list type's own range check and its abort are not modelled.
