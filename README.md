# TYTSoundboard list model in Dafny

TYTSoundboard is an iOS soundboard. It reads clip records from a bundled JSON
document, shows them in a table sorted by title, and filters them with a search
bar. While searching, every occurrence of the search text in a row's title is
coloured. Rows can be deleted and reordered while no search is active, and
selecting a row plays its clip.

This project models the part of the app that decides what is shown:

- `wrappers.dfy` holds `Option`, which stands for Swift's optionals.
- `text.dfy` (module `Text`) holds the Foundation string behaviour the app relies on:
  - `lowercased()`;
  - `NSString.range(of:options:range:)` as `RangeOf`, the first occurrence of a
    string inside a window, exact or ignoring case;
  - `String.contains`;
  - Swift's `<` on strings, read as lexicographic order on characters and proved a
    strict total order.
- `sound.dfy` (module `SoundModel`) holds the `Sound` record from
  `TYTSoundboard/soundModel/Sound.swift`:
  - the search predicate `shouldFilter(by:)`;
  - the failable initializer from a string dictionary, with the inverse `ToJson`;
  - the loader over an array of dictionaries, a `for` loop proved against `ClipsOf`;
  - the loader over a parsed JSON document.
- `sounds_table.dfy` (module `SoundsTable`) holds the list state of
  `TYTSoundboard/controllers/SoundsTableViewController.swift`:
  - the highlight scan of a title, a loop proved against the recursive `HighlightRanges`;
  - the filtered list;
  - the row count and the clip in each row;
  - selection;
  - delete and move edits;
  - the sorted reload.

  The controller is a class. Its fields are `allSounds`, `filteredSounds` and the
  two parts of the search controller's state it reads. Its methods update these
  fields in place. `Valid()` states that the filtered list belongs to the current
  search text. `UpdateSearchResults` establishes it and `RefreshTriggered` keeps it.

Strings are sequences of characters. Case-insensitive comparison lower-cases
ASCII letters only.

An empty search text matches nothing. Foundation's `range(of:)` never finds an
empty string, so `contains("")` is false and so is `shouldFilter(by: "")`; the
model follows the code. In the table this never shows, because `isSearching` is
false while the search bar is empty.

## Model

| member | source | states |
|---|---|---|
| Text.LowerStr | TYTSoundboard/soundModel/Sound.swift:38 | lower-casing keeps the length and lower-cases each character in place |
| Text.MatchAtChars | TYTSoundboard/controllers/SoundsTableViewController.swift:84-87 | an occurrence at a position means the search text fits there and each character compares equal (or equal ignoring case) to the one under it |
| Text.RangeOf | TYTSoundboard/controllers/SoundsTableViewController.swift:84-87 | a found range has the search text's length, lies inside the search window, and is never the range of an empty string |
| Text.RangeOfFirstMatch | TYTSoundboard/controllers/SoundsTableViewController.swift:84-88 | a found range is an occurrence with no occurrence before it in the window; nothing is found (NSNotFound) exactly when the search text is empty or the window holds no occurrence |
| Text.NoMatchAnywhere | TYTSoundboard/soundModel/Sound.swift:40 | a search over the whole string that finds nothing rules out an occurrence at every position |
| Text.RangeOfWhole | TYTSoundboard/soundModel/Sound.swift:40 | a search over the whole string finds something exactly when the non-empty text occurs at some position |
| Text.Less | TYTSoundboard/controllers/SoundsTableViewController.swift:191 | the `<` of the sort: an empty string sorts before any non-empty one, and otherwise the first differing character decides |
| Text.Contains | TYTSoundboard/soundModel/Sound.swift:40-43 | `contains` holds exactly when the non-empty text occurs at some position |
| Text.LoweredMatch | TYTSoundboard/soundModel/Sound.swift:38-40 | an exact occurrence in both lower-cased strings is a case-insensitive occurrence in the originals, and back |
| Text.ContainsLowered | TYTSoundboard/soundModel/Sound.swift:38-43 | `s.lowercased().contains(q.lowercased())` is case-insensitive containment of a non-empty `q` |
| Text.LessIrreflexive | TYTSoundboard/controllers/SoundsTableViewController.swift:191 | no title sorts before itself |
| Text.LessTransitive | TYTSoundboard/controllers/SoundsTableViewController.swift:191 | the sort's comparison is transitive |
| Text.LessTotal | TYTSoundboard/controllers/SoundsTableViewController.swift:191 | any two different titles are ordered one way or the other |
| Text.LessAsymmetric | TYTSoundboard/controllers/SoundsTableViewController.swift:191 | two titles never sort before each other |
| Text.NotLessTransitive | TYTSoundboard/controllers/SoundsTableViewController.swift:191 | "does not sort before" is transitive, the order of a sorted list |
| SoundModel.FieldContainsLowered | TYTSoundboard/soundModel/Sound.swift:41-43 | `field?.lowercased().contains(...) ?? false` holds exactly when the field is present and contains the search text ignoring case |
| SoundModel.ShouldFilter | TYTSoundboard/soundModel/Sound.swift:37-44 | a clip matches exactly when its name, or one of its present speaker, text or description, contains the search text ignoring case |
| SoundModel.NameMatchSuffices | TYTSoundboard/soundModel/Sound.swift:40 | a name match alone makes the clip match |
| SoundModel.AbsentFieldsNeverMatch | TYTSoundboard/soundModel/Sound.swift:41-43 | with all optional fields nil only the name decides |
| SoundModel.ShouldFilterIgnoresSearchCase | TYTSoundboard/soundModel/Sound.swift:38 | the result does not depend on the case of the search text |
| SoundModel.EmptySearchMatchesNothing | TYTSoundboard/soundModel/Sound.swift:37-44 | the empty search text matches no clip |
| SoundModel.FromJson | TYTSoundboard/soundModel/Sound.swift:50-64 | nil exactly when the "name" key is missing; otherwise the name and each optional field come from their own keys |
| SoundModel.ToJson | TYTSoundboard/soundModel/Sound.swift:128-133 | the dictionary of a clip always has the "name" key |
| SoundModel.FromJsonToJson | TYTSoundboard/soundModel/Sound.swift:50-64 | reading back the dictionary of a clip gives the same clip |
| SoundModel.FromJsonIgnoresOtherKeys | TYTSoundboard/soundModel/Sound.swift:51-58 | a key other than the four known ones has no effect |
| SoundModel.FromJsonKeepsKnownKeys | TYTSoundboard/soundModel/Sound.swift:56-63 | a read clip keeps exactly the dictionary's values under the known keys |
| SoundModel.ClipsOf | TYTSoundboard/soundModel/Sound.swift:109-115 | the clips the `forEach` collects: one per dictionary that has a name, in order; its meaning is stated by ClipsOfAppend, ClipsOfSingle, ClipsOfLength and ClipsOfEmpty |
| SoundModel.ClipsOfAppend | TYTSoundboard/soundModel/Sound.swift:109-115 | reading a concatenation reads each part in turn, so input order is kept |
| SoundModel.ClipsOfSingle | TYTSoundboard/soundModel/Sound.swift:112-114 | one dictionary gives its clip, or nothing when it has no name |
| SoundModel.ClipsOfLength | TYTSoundboard/soundModel/Sound.swift:109-115 | one clip per dictionary that has a name |
| SoundModel.ClipsOfEmpty | TYTSoundboard/soundModel/Sound.swift:109-119 | no clips exactly when no dictionary has a name |
| SoundModel.AllClips | TYTSoundboard/soundModel/Sound.swift:106-122 | nil exactly when no dictionary has a name; otherwise the non-empty list of the named dictionaries' clips, in order |
| SoundModel.AsStringDict | TYTSoundboard/soundModel/Sound.swift:96 | the cast to a string dictionary succeeds exactly on objects whose values are all strings, and keeps every key and value |
| SoundModel.AsStringDictArray | TYTSoundboard/soundModel/Sound.swift:96 | the array cast succeeds exactly when every element converts, element by element |
| SoundModel.SoundsArray | TYTSoundboard/soundModel/Sound.swift:92-96 | the "sounds" array is found exactly when the document is an object whose "sounds" value is an array of string dictionaries |
| SoundModel.AllClipsFromData | TYTSoundboard/soundModel/Sound.swift:90-103 | nil when parsing threw or the document lacks the expected shape; otherwise the clips of the "sounds" array, nil when there are none |
| SoundModel.BarkExample | TYTSoundboard/soundModel/Sound.swift:90-122 | a document with one named and one unnamed record gives the one named clip |
| SoundsTable.HighlightRanges | TYTSoundboard/controllers/SoundsTableViewController.swift:69-95 | the ranges the scan colours: the first case-insensitive occurrence in the window, then the scan again from one past its start; its meaning is stated by the HighlightRanges lemmas below |
| SoundsTable.HighlightRangesSound | TYTSoundboard/controllers/SoundsTableViewController.swift:69-95 | every highlighted range covers an occurrence of the search text in the title, and the range starts strictly increase |
| SoundsTable.HighlightRangesComplete | TYTSoundboard/controllers/SoundsTableViewController.swift:69-95 | every occurrence starts a highlighted range, overlapping ones included, because the window advances one past each match start |
| SoundsTable.HighlightRangesFirstInWindow | TYTSoundboard/controllers/SoundsTableViewController.swift:75-94 | each range is the first occurrence in its window, and the scan stops on the first search that finds nothing |
| SoundsTable.HighlightFindsEveryOccurrence | TYTSoundboard/controllers/SoundsTableViewController.swift:62-98 | the highlighted starts are exactly the occurrence positions |
| SoundsTable.ScanStep | TYTSoundboard/controllers/SoundsTableViewController.swift:75-94 | one turn of the repeat loop either extends the recorded ranges by the one found or ends with all of them |
| SoundsTable.CreateHighlight | TYTSoundboard/controllers/SoundsTableViewController.swift:62-98 | the loop's ranges are the scan's ranges: each is a full-length occurrence, the starts increase, every occurrence is coloured, and an empty search colours nothing |
| SoundsTable.CacaoExample | TYTSoundboard/controllers/SoundsTableViewController.swift:69-95 | "ca" in "cacao" is highlighted at 0 and 2 |
| SoundsTable.FilterSounds | TYTSoundboard/controllers/SoundsTableViewController.swift:199-203 | the filtered list keeps exactly the matching clips, each as often as in the input, in input order |
| SoundsTable.Filtered | TYTSoundboard/controllers/SoundsTableViewController.swift:199 | filtering a nil list gives nil, and a present list gives a list |
| SoundsTable.RemoveAt | TYTSoundboard/controllers/SoundsTableViewController.swift:133 | removal drops exactly the element at the index and shifts the rest down |
| SoundsTable.InsertAt | TYTSoundboard/controllers/SoundsTableViewController.swift:147 | insertion puts the element at the index and shifts the rest up |
| SoundsTable.Moved | TYTSoundboard/controllers/SoundsTableViewController.swift:146-147 | the list after `remove(at: from)` followed by `insert(_:at: to)`; its meaning is stated by MovedProperties |
| SoundsTable.MovedProperties | TYTSoundboard/controllers/SoundsTableViewController.swift:146-147 | a move is a permutation that puts the moved clip at the target row and keeps the others in order |
| SoundsTable.MovedInPlace | TYTSoundboard/controllers/SoundsTableViewController.swift:146-147 | moving a row onto itself changes nothing |
| SoundsTable.InsertByTitle | TYTSoundboard/controllers/SoundsTableViewController.swift:191 | inserting into the sorted list adds exactly that clip |
| SoundsTable.InsertByTitleSorted | TYTSoundboard/controllers/SoundsTableViewController.swift:191 | inserting by title keeps a list sorted by lower-cased title |
| SoundsTable.SortByTitle | TYTSoundboard/controllers/SoundsTableViewController.swift:191 | the sort is a permutation, ascending by lower-cased title |
| SoundsTable.SoundsTableViewController.constructor | TYTSoundboard/controllers/SoundsTableViewController.swift:14-15 | a new controller has no clips and no filtered list, is not searching, and is consistent |
| SoundsTable.SoundsTableViewController.IsSearching | TYTSoundboard/controllers/SoundsTableViewController.swift:212-215 | searching means the search controller is active and the bar's text is not empty |
| SoundsTable.SoundsTableViewController.CanEditRow | TYTSoundboard/controllers/SoundsTableViewController.swift:125-128 | rows can be edited exactly when not searching; EditingShowsFullList states what that guarantees |
| SoundsTable.SoundsTableViewController.CanMoveRow | TYTSoundboard/controllers/SoundsTableViewController.swift:151-154 | rows can be moved exactly when not searching; EditingShowsFullList states what that guarantees |
| SoundsTable.SoundsTableViewController.NumberOfRows | TYTSoundboard/controllers/SoundsTableViewController.swift:47-58 | one row for the no-data message without clips; the filtered count while searching with a filtered list; the full count otherwise |
| SoundsTable.SoundsTableViewController.RowSound | TYTSoundboard/controllers/SoundsTableViewController.swift:107-117 | the clip a row shows: none without clips; the full list's clip when not searching; while searching, the filtered list's clip at that row, which in a consistent controller is the row-th matching clip of the full list, in order |
| SoundsTable.SoundsTableViewController.CellForRowAt | TYTSoundboard/controllers/SoundsTableViewController.swift:100-121 | the no-data text exactly without clips; otherwise the row's clip title, with every occurrence of the search text highlighted while searching and none otherwise |
| SoundsTable.SoundsTableViewController.EditingShowsFullList | TYTSoundboard/controllers/SoundsTableViewController.swift:125-154 | while editing and moving are allowed, the rows are the full list in order |
| SoundsTable.SoundsTableViewController.SelectedSound | TYTSoundboard/controllers/SoundsTableViewController.swift:156-166 | the clip played for a row is the clip that row shows |
| SoundsTable.SoundsTableViewController.CommitEdit | TYTSoundboard/controllers/SoundsTableViewController.swift:131-137 | called only when editing is allowed: a delete removes the row's clip from a present list and the row count drops by one; anything else changes nothing; the controller stays consistent |
| SoundsTable.SoundsTableViewController.MoveRow | TYTSoundboard/controllers/SoundsTableViewController.swift:140-148 | called only when moving is allowed; the move as written: the moved order exists only in a local copy, and the stored list is left unchanged |
| SoundsTable.SoundsTableViewController.MoveRowStored | TYTSoundboard/controllers/SoundsTableViewController.swift:140-148 | called only when moving is allowed; the intended move: the stored list becomes the moved permutation, the controller stays consistent, and selecting the target row plays the moved clip |
| SoundsTable.SoundsTableViewController.PopulateModel | TYTSoundboard/controllers/SoundsTableViewController.swift:190-193 | called only while not searching: the stored list is nil exactly when loading failed, otherwise a permutation of the loaded clips sorted by lower-cased title; the controller stays consistent |
| SoundsTable.SoundsTableViewController.RefreshTriggered | TYTSoundboard/controllers/SoundsTableViewController.swift:182-188 | while searching nothing changes; otherwise the list is reloaded and sorted; the filtered list stays consistent |
| SoundsTable.SoundsTableViewController.FilterContentForSearchText | TYTSoundboard/controllers/SoundsTableViewController.swift:198-206 | the filtered list is nil without clips, and otherwise holds the matching clips of the full list, in order, with their counts; given the bar's own text it leaves the controller consistent |
| SoundsTable.SoundsTableViewController.UpdateSearchResults | TYTSoundboard/controllers/SoundsTableViewController.swift:208-215 | the search state is the controller's, the filtered list is recomputed from the bar's text, and the two agree afterwards |
| SoundsTable.MoveRowIsLost | TYTSoundboard/controllers/SoundsTableViewController.swift:140-166 | after moving row 0 to row 1 of two clips, the table shows the first clip in row 1 while selecting row 1 plays the second |
| SoundsTable.DeletePlaceholderRow | TYTSoundboard/controllers/SoundsTableViewController.swift:47-52 | the no-data row is editable, and deleting it leaves the row count at 1 |
| SoundsTable.DeleteEditableRow | TYTSoundboard/controllers/SoundsTableViewController.swift:125-137 | with the guarded editing rule, deleting any editable row lowers the row count by exactly one |

## Left out

- Playback (`play(sound:)`, `AVAudioPlayer`, `Sound.soundData`) is left out: it is audio I/O.
  `SelectedSound` gives the clip that would be played, and None for "Nothing to select".
- `soundTitle` is defined outside the modelled files. The controller takes it as
  a fixed function.
- UIKit is left out: cell dequeueing, colours, the attributed string, `reloadData`,
  `deleteRows`, `endRefreshing`, `viewDidLoad`'s configuration and the cell class.
  The highlight is modelled as the list of ranges that would be coloured.
- The search controller itself is left out. Its `isActive` flag and the search
  bar's text are fields of the controller, set by `UpdateSearchResults`. The bar's
  text is taken as never nil, as the forced unwraps in the source assume.
- `filterContentForSearchText`'s `scope` parameter is left out: it is unused.
- `allClips(json fileName:)` (bundle lookup and file read) is I/O. `PopulateModel`
  and `RefreshTriggered` receive what it would have returned.
- `JSONSerialization` byte parsing is left out. `AllClipsFromData` receives the
  parsed document, or None when parsing threw. JSON numbers are kept as integers.
- The log output (`print`) is left out.
- Case-insensitive comparison and `lowercased()` cover ASCII letters only.
  Unicode case folding is not modelled.
- One length is used for every string. The source counts grapheme clusters in one
  place and UTF-16 units in another; that difference is not modelled.
- Text.Less: the model's order is plain lexicographic order on characters. It agrees
  with Swift's String `<` only on ASCII text. Swift compares non-ASCII text with
  Unicode-aware rules, so for non-ASCII titles the sort of `populateModel` may order
  clips differently from SortByTitle.
- SortByTitle: Swift's `sorted` does not promise an order for clips with equal
  keys. SortByTitle keeps them in input order. The contract states only a sorted
  permutation, which holds for any order.
- `TYTSoundboard/controllers/SoundsCollectionViewController.swift` and the
  constants under `TYTSoundboard/constants` are not part of this model.

## Findings

| source | as written | input that shows it | evidently intended | confidence | as-written member | corrected member |
|---|---|---|---|---|---|---|
| TYTSoundboard/controllers/SoundsTableViewController.swift:142-147 | `guard var allSounds = allSounds` moves the clip in a local copy, so the stored list keeps its old order while the table shows the new one | two clips `[a, b]`, move row 0 to row 1: the table shows `a` in row 1, and selecting row 1 plays `b` | the stored list takes the moved order | not executed | SoundsTable.MoveRowIsLost | SoundsTable.SoundsTableViewController.MoveRowStored |
| TYTSoundboard/controllers/SoundsTableViewController.swift:125-137 | `canEditRowAt` allows editing the single no-data row shown when there are no clips; deleting it leaves the row count at 1, while the table's row deletion needs 0 | no clips loaded, not searching, delete row 0 | no editing without clips, so every deletion lowers the row count by one | not executed | SoundsTable.DeletePlaceholderRow | SoundsTable.DeleteEditableRow |
