/** The list state of the sounds table (TYTSoundboard/controllers/SoundsTableViewController.swift)
    with the UIKit calls removed: the highlight scan of a cell title, the search filter,
    the row count, row selection, delete and move edits, and the sorted reload. */
module SoundsTable {
  import opened Wrappers
  import opened Text
  import opened SoundModel

  // ---------------------------------------------------------------- highlight scan

  /** The ranges the scan highlights when its search window starts at `from`: the
      first case-insensitive occurrence in [from, |s|), then the scan again from
      one past that occurrence's start. */
  function HighlightRanges(s: string, search: string, from: nat): seq<NSRange>
    requires from <= |s|
    decreases |s| - from
  {
    match RangeOf(s, search, NSRange(from, |s| - from), true)
    case None => []
    case Some(found) => [found] + HighlightRanges(s, search, found.location + 1)
  }

  /** Every position where a non-empty search text occurs, ignoring case. */
  ghost function MatchPositions(s: string, search: string): set<nat>
  {
    set p: nat | p < |s| && search != [] && MatchAt(s, search, p, true)
  }

  /** The start locations of a list of ranges. */
  ghost function Locations(ranges: seq<NSRange>): set<nat>
  {
    set i | 0 <= i < |ranges| :: ranges[i].location
  }

  /** Each range covers an occurrence of the search text at or after `from`. */
  ghost predicate RangesMatch(s: string, search: string, from: nat, r: seq<NSRange>)
  {
    forall i :: 0 <= i < |r| ==> from <= r[i].location && r[i].length == |search| && MatchAt(s, search, r[i].location, true)
  }

  /** The range starts strictly increase. */
  ghost predicate StrictlyIncreasing(r: seq<NSRange>)
  {
    forall i, j :: 0 <= i < j < |r| ==> r[i].location < r[j].location
  }

  /** Every occurrence at or after `from` starts some range. */
  ghost predicate CoversFrom(s: string, search: string, from: nat, r: seq<NSRange>)
  {
    forall p: nat :: from <= p && search != [] && MatchAt(s, search, p, true) ==> exists i :: 0 <= i < |r| && r[i].location == p
  }

  /** Each range is the first occurrence in its search window: the window of the first
      starts at `from`, that of each later one just past the previous range's start,
      and the window after the last range holds no occurrence. */
  ghost predicate FirstInWindows(s: string, search: string, from: nat, r: seq<NSRange>)
  {
    && (r == [] ==> search == [] || from > |s| || NoMatchIn(s, search, NSRange(from, |s| - from), true))
    && (r != [] ==> forall p: nat :: from <= p < r[0].location ==> !MatchAt(s, search, p, true))
    && (forall i, p: nat :: 0 <= i < |r| - 1 && r[i].location < p < r[i + 1].location ==> !MatchAt(s, search, p, true))
    && (r != [] ==> LastWindowEmpty(s, search, r[|r| - 1]))
  }

  /** The search after the final match, over [location + 1, |s|), finds nothing. */
  ghost predicate LastWindowEmpty(s: string, search: string, last: NSRange)
  {
    last.location < |s| && NoMatchIn(s, search, NSRange(last.location + 1, |s| - last.location - 1), true)
  }

  /** Each range covers an occurrence of the search text inside the string, and the
      starts strictly increase. */
  lemma {:induction false} HighlightRangesSound(s: string, search: string, from: nat)
    requires from <= |s|
    ensures RangesMatch(s, search, from, HighlightRanges(s, search, from))
    ensures StrictlyIncreasing(HighlightRanges(s, search, from))
    decreases |s| - from
  {
    var r := HighlightRanges(s, search, from);
    RangeOfFirstMatch(s, search, NSRange(from, |s| - from), true);
    match RangeOf(s, search, NSRange(from, |s| - from), true)
    case None =>
    case Some(found) =>
      var rest := HighlightRanges(s, search, found.location + 1);
      assert r == [found] + rest;
      HighlightRangesSound(s, search, found.location + 1);
      assert forall i :: 0 < i < |r| ==> r[i] == rest[i - 1];
  }

  /** Every occurrence at or after `from` is the start of some range: advancing the
      window by one past each match start finds overlapping occurrences too. */
  lemma {:induction false} HighlightRangesComplete(s: string, search: string, from: nat)
    requires from <= |s|
    ensures CoversFrom(s, search, from, HighlightRanges(s, search, from))
    decreases |s| - from
  {
    var r := HighlightRanges(s, search, from);
    RangeOfFirstMatch(s, search, NSRange(from, |s| - from), true);
    match RangeOf(s, search, NSRange(from, |s| - from), true)
    case None =>
    case Some(found) =>
      var rest := HighlightRanges(s, search, found.location + 1);
      assert r == [found] + rest;
      HighlightRangesComplete(s, search, found.location + 1);
      forall p: nat | from <= p && search != [] && MatchAt(s, search, p, true)
        ensures exists i :: 0 <= i < |r| && r[i].location == p
      {
        if p == found.location {
          assert r[0].location == p;
        } else {
          var i :| 0 <= i < |rest| && rest[i].location == p;
          assert r[i + 1].location == p;
        }
      }
  }

  /** The scan stops on the first search that finds nothing, and each range it
      records is the first occurrence in its own window. */
  lemma {:induction false} HighlightRangesFirstInWindow(s: string, search: string, from: nat)
    requires from <= |s|
    ensures FirstInWindows(s, search, from, HighlightRanges(s, search, from))
    decreases |s| - from
  {
    var r := HighlightRanges(s, search, from);
    RangeOfFirstMatch(s, search, NSRange(from, |s| - from), true);
    match RangeOf(s, search, NSRange(from, |s| - from), true)
    case None =>
    case Some(found) =>
      var rest := HighlightRanges(s, search, found.location + 1);
      assert r == [found] + rest;
      HighlightRangesFirstInWindow(s, search, found.location + 1);
      if rest == [] {
        assert LastWindowEmpty(s, search, found);
      } else {
        assert r[|r| - 1] == rest[|rest| - 1];
      }
      forall i, p: nat | 0 <= i < |r| - 1 && r[i].location < p < r[i + 1].location
        ensures !MatchAt(s, search, p, true)
      {
        if i > 0 {
          assert r[i] == rest[i - 1] && r[i + 1] == rest[i];
        }
      }
  }

  /** The highlighted starts are exactly the occurrences of the search text. */
  lemma HighlightFindsEveryOccurrence(s: string, search: string)
    ensures Locations(HighlightRanges(s, search, 0)) == MatchPositions(s, search)
  {
    var r := HighlightRanges(s, search, 0);
    HighlightRangesSound(s, search, 0);
    HighlightRangesComplete(s, search, 0);
    forall p | p in Locations(r) ensures p in MatchPositions(s, search) {
      var i :| 0 <= i < |r| && r[i].location == p;
    }
  }

  /** One turn of the scan: with `done` recorded and the window starting at `from`, a
      search that finds a range extends `done` by it, one that finds nothing ends the scan. */
  lemma ScanStep(s: string, search: string, done: seq<NSRange>, from: nat, found: Option<NSRange>)
    requires from <= |s| && done + HighlightRanges(s, search, from) == HighlightRanges(s, search, 0)
    requires found == RangeOf(s, search, NSRange(from, |s| - from), true)
    ensures found.Some? ==> found.value.location < |s|
    ensures found.Some? ==> (done + [found.value]) + HighlightRanges(s, search, found.value.location + 1) == HighlightRanges(s, search, 0)
    ensures found.None? ==> done == HighlightRanges(s, search, 0)
  {
  }

  /** The window start of the next search: 0 at first, then one past the last match's start. */
  function WindowStart(currentRange: Option<NSRange>): nat
  {
    match currentRange
    case None => 0
    case Some(range) => range.location + 1
  }

  /** createHighlight(input:search:): the ranges coloured as matches in `s`, in the
      order the repeat loop finds them. */
  method CreateHighlight(s: string, search: string) returns (highlighted: seq<NSRange>)
    ensures highlighted == HighlightRanges(s, search, 0)
    ensures forall i :: 0 <= i < |highlighted| ==> highlighted[i].length == |search|
    ensures forall i :: 0 <= i < |highlighted| ==> MatchAt(s, search, highlighted[i].location, true)
    ensures forall i, j :: 0 <= i < j < |highlighted| ==> highlighted[i].location < highlighted[j].location
    ensures Locations(highlighted) == MatchPositions(s, search)
    ensures search == [] ==> highlighted == []
  {
    highlighted := [];
    var currentRange: Option<NSRange> := None;
    var isDone := false;
    while !isDone
      invariant WindowStart(currentRange) <= |s|
      invariant !isDone ==> highlighted + HighlightRanges(s, search, WindowStart(currentRange)) == HighlightRanges(s, search, 0)
      invariant isDone ==> highlighted == HighlightRanges(s, search, 0)
      decreases (if isDone then 0 else 1) + |s| - WindowStart(currentRange)
    {
      var nextRangeToSearch: NSRange;
      if currentRange.Some? {
        var updatedLocation := currentRange.value.location + 1;
        nextRangeToSearch := NSRange(updatedLocation, |s| - updatedLocation);
      } else {
        nextRangeToSearch := NSRange(0, |s|);
      }
      ghost var from := WindowStart(currentRange);
      assert nextRangeToSearch == NSRange(from, |s| - from);
      var resultRange := RangeOf(s, search, nextRangeToSearch, true);
      ScanStep(s, search, highlighted, from, resultRange);
      if resultRange.Some? {
        highlighted := highlighted + [resultRange.value];
        currentRange := resultRange;
        assert WindowStart(currentRange) == resultRange.value.location + 1;
      } else {
        isDone := true;
      }
    }
    HighlightRangesSound(s, search, 0);
    HighlightFindsEveryOccurrence(s, search);
    RangeOfFirstMatch(s, search, NSRange(0, |s|), true);
  }

  /** In "cacao", "ca" is highlighted at 0 and 2, two characters each. */
  lemma CacaoExample()
    ensures HighlightRanges("cacao", "ca", 0) == [NSRange(0, 2), NSRange(2, 2)]
  {
    var s, q := "cacao", "ca";
    assert s[0] == 'c' && s[1] == 'a' && s[2] == 'c' && s[3] == 'a' && s[4] == 'o';
    assert q[0] == 'c' && q[1] == 'a';
    assert MatchAt(s, q, 0, true);
    assert !SameChar(s[1], q[0], true);
    assert MatchAt(s, q, 2, true);
    assert !SameChar(s[3], q[0], true);
    assert RangeOf(s, q, NSRange(3, 2), true) == None;
    assert RangeOf(s, q, NSRange(1, 4), true) == Some(NSRange(2, 2));
  }

  // ---------------------------------------------------------------- list operations

  /** `sounds.filter { $0.shouldFilter(by: search) }` */
  function FilterSounds(sounds: seq<Sound>, search: string): (r: seq<Sound>)
    ensures |r| <= |sounds|
    ensures forall i :: 0 <= i < |r| ==> ShouldFilter(r[i], search)
    ensures forall x :: multiset(r)[x] == if ShouldFilter(x, search) then multiset(sounds)[x] else 0
    ensures IsSubsequence(r, sounds)
  {
    if sounds == [] then []
    else
      var rest := FilterSounds(sounds[1..], search);
      assert sounds == [sounds[0]] + sounds[1..];
      if ShouldFilter(sounds[0], search) then [sounds[0]] + rest else rest
  }

  /** `a` is `b` with some elements left out, the rest in their original order. */
  ghost predicate IsSubsequence<T>(a: seq<T>, b: seq<T>)
    decreases |b|
  {
    if b == [] then a == []
    else (a != [] && a[0] == b[0] && IsSubsequence(a[1..], b[1..])) || IsSubsequence(a, b[1..])
  }

  /** The optional list filtered, nil when there is no list. */
  function Filtered(sounds: Option<seq<Sound>>, search: string): (r: Option<seq<Sound>>)
    ensures r.None? <==> sounds.None?
  {
    match sounds
    case None => None
    case Some(s) => Some(FilterSounds(s, search))
  }

  /** Array.remove(at:) */
  function RemoveAt<T>(s: seq<T>, i: nat): (r: seq<T>)
    requires i < |s|
    ensures |r| == |s| - 1
    ensures forall j :: 0 <= j < i ==> r[j] == s[j]
    ensures forall j :: i <= j < |r| ==> r[j] == s[j + 1]
    ensures multiset(r) + multiset{s[i]} == multiset(s)
  {
    assert s == s[..i] + [s[i]] + s[i + 1..];
    s[..i] + s[i + 1..]
  }

  /** Array.insert(_:at:) */
  function InsertAt<T>(s: seq<T>, i: nat, x: T): (r: seq<T>)
    requires i <= |s|
    ensures |r| == |s| + 1 && r[i] == x
    ensures forall j :: 0 <= j < i ==> r[j] == s[j]
    ensures forall j :: i < j < |r| ==> r[j] == s[j - 1]
    ensures multiset(r) == multiset(s) + multiset{x}
  {
    assert s == s[..i] + s[i..];
    s[..i] + [x] + s[i..]
  }

  /** The list after moving the element at `from` to position `to`. */
  function Moved<T>(s: seq<T>, from: nat, to: nat): seq<T>
    requires from < |s| && to < |s|
  {
    InsertAt(RemoveAt(s, from), to, s[from])
  }

  /** A move is a permutation that puts the moved element at `to` and keeps every
      other element in its relative order. */
  lemma MovedProperties<T>(s: seq<T>, from: nat, to: nat)
    requires from < |s| && to < |s|
    ensures |Moved(s, from, to)| == |s| && Moved(s, from, to)[to] == s[from]
    ensures multiset(Moved(s, from, to)) == multiset(s)
    ensures RemoveAt(Moved(s, from, to), to) == RemoveAt(s, from)
  {
  }

  /** Moving an element onto its own row changes nothing. */
  lemma MovedInPlace<T>(s: seq<T>, i: nat)
    requires i < |s|
    ensures Moved(s, i, i) == s
  {
  }

  // ---------------------------------------------------------------- sort on reload

  /** The sort key of a clip: its lower-cased title. */
  function TitleKey(sound: Sound, soundTitle: Sound -> string): string
  {
    LowerStr(soundTitle(sound))
  }

  /** Ascending by lower-cased title: no later element sorts before an earlier one. */
  ghost predicate SortedByTitle(s: seq<Sound>, soundTitle: Sound -> string)
  {
    forall i, j :: 0 <= i < j < |s| ==> !Less(TitleKey(s[j], soundTitle), TitleKey(s[i], soundTitle))
  }

  function InsertByTitle(x: Sound, s: seq<Sound>, soundTitle: Sound -> string): (r: seq<Sound>)
    ensures multiset(r) == multiset(s) + multiset{x}
    decreases |s|
  {
    if s == [] || !Less(TitleKey(s[0], soundTitle), TitleKey(x, soundTitle)) then [x] + s
    else
      assert s == [s[0]] + s[1..];
      [s[0]] + InsertByTitle(x, s[1..], soundTitle)
  }

  lemma {:induction false} InsertByTitleSorted(x: Sound, s: seq<Sound>, soundTitle: Sound -> string)
    requires SortedByTitle(s, soundTitle)
    ensures SortedByTitle(InsertByTitle(x, s, soundTitle), soundTitle)
    decreases |s|
  {
    var r := InsertByTitle(x, s, soundTitle);
    var kx := TitleKey(x, soundTitle);
    if s == [] {
    } else if !Less(TitleKey(s[0], soundTitle), kx) {
      forall j | 1 <= j < |r| ensures !Less(TitleKey(r[j], soundTitle), kx) {
        if j > 1 {
          NotLessTransitive(kx, TitleKey(s[0], soundTitle), TitleKey(s[j - 1], soundTitle));
        }
      }
    } else {
      var k0 := TitleKey(s[0], soundTitle);
      var t := InsertByTitle(x, s[1..], soundTitle);
      InsertByTitleSorted(x, s[1..], soundTitle);
      assert r == [s[0]] + t;
      forall j | 1 <= j < |r| ensures !Less(TitleKey(r[j], soundTitle), k0) {
        var y := t[j - 1];
        assert y in multiset(t);
        if y == x {
          LessAsymmetric(k0, kx);
        } else {
          assert y in multiset(s[1..]);
          var k :| 0 <= k < |s| - 1 && s[1..][k] == y;
          assert s[k + 1] == y;
        }
      }
    }
  }

  /** `sorted { $0.soundTitle.lowercased() < $1.soundTitle.lowercased() }`: an
      ascending permutation. Clips with equal keys keep their input order here;
      Swift's sort promises no particular order for them. */
  function SortByTitle(s: seq<Sound>, soundTitle: Sound -> string): (r: seq<Sound>)
    ensures multiset(r) == multiset(s)
    ensures SortedByTitle(r, soundTitle)
  {
    if s == [] then []
    else
      assert s == [s[0]] + s[1..];
      var sortedRest := SortByTitle(s[1..], soundTitle);
      InsertByTitleSorted(s[0], sortedRest, soundTitle);
      InsertByTitle(s[0], sortedRest, soundTitle)
  }

  // ---------------------------------------------------------------- the controller

  /** UITableViewCell.EditingStyle */
  datatype EditingStyle = NoStyle | Insert | Delete

  /** What cellForRowAt puts in a row: the no-data message, or a title with the
      ranges coloured as matches. */
  datatype CellText = NoDataText | TitleText(title: string, highlights: seq<NSRange>)

  class SoundsTableViewController {
    var allSounds: Option<seq<Sound>>
    var filteredSounds: Option<seq<Sound>>
    /** searchController.isActive */
    var searchActive: bool
    /** searchController.searchBar.text */
    var searchText: string
    /** Sound.soundTitle, defined outside this model. */
    const soundTitle: Sound -> string

    constructor (soundTitle: Sound -> string)
      ensures this.soundTitle == soundTitle
      ensures allSounds == None && filteredSounds == None
      ensures !searchActive && searchText == ""
      ensures Valid()
    {
      this.soundTitle := soundTitle;
      allSounds := None;
      filteredSounds := None;
      searchActive := false;
      searchText := "";
    }

    /** The search controller hands every change of its state to updateSearchResults,
        so while searching the filtered list is that of the current text. */
    ghost predicate Valid()
      reads this
    {
      IsSearching() ==> filteredSounds == Filtered(allSounds, searchText)
    }

    /** isSearching */
    predicate IsSearching()
      reads this
    {
      searchActive && searchText != ""
    }

    /** numberOfRowsInSection */
    function NumberOfRows(): (n: nat)
      reads this
      ensures allSounds.None? ==> n == 1
      ensures allSounds.Some? && IsSearching() && filteredSounds.Some? ==> n == |filteredSounds.value|
      ensures allSounds.Some? && !(IsSearching() && filteredSounds.Some?) ==> n == |allSounds.value|
    {
      if allSounds.None? then 1
      else if IsSearching() && filteredSounds.Some? then |filteredSounds.value|
      else |allSounds.value|
    }

    /** The clip cellForRowAt shows in a row, or None for the no-data row. */
    function RowSound(row: nat): (r: Option<Sound>)
      reads this
      requires row < NumberOfRows()
      ensures r.None? <==> allSounds.None?
      ensures allSounds.Some? && !IsSearching() ==> r == Some(allSounds.value[row])
      ensures allSounds.Some? && IsSearching() && filteredSounds.Some? ==> r == Some(filteredSounds.value[row])
      ensures allSounds.Some? && IsSearching() && Valid()
              ==> r == Some(FilterSounds(allSounds.value, searchText)[row])
      ensures allSounds.Some? && IsSearching() && Valid()
              ==> r.Some? && ShouldFilter(r.value, searchText) && r.value in allSounds.value
    {
      if allSounds.None? then None
      else if IsSearching() && filteredSounds.Some? then
        var shown := filteredSounds.value;
        assert shown[row] in multiset(shown);
        Some(shown[row])
      else Some(allSounds.value[row])
    }

    /** cellForRowAt, without the cell reuse and colours. */
    method CellForRowAt(row: nat) returns (cell: CellText)
      requires row < NumberOfRows()
      ensures cell.NoDataText? <==> allSounds.None?
      ensures cell.TitleText? ==> RowSound(row).Some? && cell.title == soundTitle(RowSound(row).value)
      ensures cell.TitleText? && IsSearching() && filteredSounds.Some?
              ==> cell.highlights == HighlightRanges(cell.title, searchText, 0)
      ensures cell.TitleText? && !(IsSearching() && filteredSounds.Some?) ==> cell.highlights == []
    {
      cell := NoDataText;
      if allSounds.Some? {
        if IsSearching() && filteredSounds.Some? {
          var title := soundTitle(filteredSounds.value[row]);
          var highlightedText := CreateHighlight(title, searchText);
          cell := TitleText(title, highlightedText);
        } else {
          var sound := allSounds.value[row];
          cell := TitleText(soundTitle(sound), []);
        }
      }
    }

    /** canEditRowAt */
    predicate CanEditRow()
      reads this
    {
      !IsSearching()
    }

    /** canMoveRowAt */
    predicate CanMoveRow()
      reads this
    {
      !IsSearching()
    }

    /** While editing is allowed the rows are the full list, in order, so an edit at
        a row index acts on the clip shown in that row. */
    lemma EditingShowsFullList(row: nat)
      requires CanEditRow() && CanMoveRow() && allSounds.Some?
      ensures NumberOfRows() == |allSounds.value|
      ensures row < NumberOfRows() ==> RowSound(row) == Some(allSounds.value[row])
    {
    }

    /** didSelectRowAt: the clip handed to play(sound:), None for "Nothing to select". */
    function SelectedSound(row: nat): (r: Option<Sound>)
      reads this
      requires Valid() && row < NumberOfRows()
      ensures r == RowSound(row)
    {
      if IsSearching() then
        match filteredSounds
        case None => None
        case Some(shown) => Some(shown[row])
      else
        match allSounds
        case None => None
        case Some(all) => Some(all[row])
    }

    /** commit editingStyle forRowAt: a delete removes the clip at `row`; the UIKit
        row deletion is left out. */
    method CommitEdit(editingStyle: EditingStyle, row: nat)
      requires CanEditRow() && Valid()
      requires editingStyle == Delete && allSounds.Some? ==> row < |allSounds.value|
      modifies this`allSounds
      ensures editingStyle == Delete && old(allSounds).Some? ==> allSounds == Some(RemoveAt(old(allSounds).value, row))
      ensures editingStyle != Delete || old(allSounds).None? ==> allSounds == old(allSounds)
      ensures editingStyle == Delete && old(allSounds).Some? ==> NumberOfRows() == old(NumberOfRows()) - 1
      ensures Valid()
    {
      if editingStyle == Delete {
        match allSounds
        case None =>
        case Some(all) => allSounds := Some(RemoveAt(all, row));
      }
    }

    /** moveRowAt as written: the move happens on a local copy (`guard var allSounds`),
        which is returned here so that its value can be stated; the stored list is
        not changed. */
    method MoveRow(from: nat, to: nat) returns (localCopy: Option<seq<Sound>>)
      requires CanMoveRow() && Valid()
      requires allSounds.Some? ==> from < |allSounds.value| && to < |allSounds.value|
      ensures localCopy.None? <==> allSounds.None?
      ensures localCopy.Some? ==> localCopy.value == Moved(allSounds.value, from, to)
      ensures localCopy.Some? ==> multiset(localCopy.value) == multiset(allSounds.value)
      ensures localCopy.Some? ==> localCopy.value[to] == allSounds.value[from]
    {
      if allSounds.None? {
        return None;
      }
      var copy := allSounds.value;
      var sound := copy[from];
      copy := RemoveAt(copy, from);
      copy := InsertAt(copy, to, sound);
      MovedProperties(allSounds.value, from, to);
      return Some(copy);
    }

    /** moveRowAt as evidently intended: the stored list takes the new order. */
    method MoveRowStored(from: nat, to: nat)
      requires CanMoveRow() && Valid()
      requires allSounds.Some? ==> from < |allSounds.value| && to < |allSounds.value|
      modifies this`allSounds
      ensures old(allSounds).None? ==> allSounds.None?
      ensures old(allSounds).Some? ==> allSounds == Some(Moved(old(allSounds).value, from, to))
      ensures old(allSounds).Some? ==> multiset(allSounds.value) == multiset(old(allSounds).value)
      ensures Valid()
      ensures old(allSounds).Some? ==> SelectedSound(to) == Some(old(allSounds).value[from])
    {
      if allSounds.Some? {
        MovedProperties(allSounds.value, from, to);
        allSounds := Some(Moved(allSounds.value, from, to));
      }
    }

    /** populateModel: `loaded` is what Sound.allClips() read from the bundle. Both
        callers, viewDidLoad and refreshTriggered, reach it only while not searching. */
    method PopulateModel(loaded: Option<seq<Sound>>)
      requires !IsSearching() && Valid()
      modifies this`allSounds
      ensures allSounds.None? <==> loaded.None?
      ensures allSounds.Some? ==> multiset(allSounds.value) == multiset(loaded.value)
      ensures allSounds.Some? ==> SortedByTitle(allSounds.value, soundTitle)
      ensures Valid()
    {
      allSounds := match loaded
        case None => None
        case Some(clips) => Some(SortByTitle(clips, soundTitle));
    }

    /** refreshTriggered: reload unless searching. */
    method RefreshTriggered(loaded: Option<seq<Sound>>)
      modifies this`allSounds
      ensures old(IsSearching()) ==> allSounds == old(allSounds)
      ensures !old(IsSearching()) ==> (allSounds.None? <==> loaded.None?)
      ensures !old(IsSearching()) && allSounds.Some? ==> multiset(allSounds.value) == multiset(loaded.value)
      ensures !old(IsSearching()) && allSounds.Some? ==> SortedByTitle(allSounds.value, soundTitle)
      ensures old(Valid()) ==> Valid()
    {
      if !IsSearching() {
        PopulateModel(loaded);
      }
    }

    /** filterContentForSearchText: the clips of the full list that match, in order;
        nil when there is no full list. Called with the search bar's own text, it
        leaves the controller consistent. */
    method FilterContentForSearchText(searchText: string)
      modifies this`filteredSounds
      ensures filteredSounds == Filtered(allSounds, searchText)
      ensures searchText == this.searchText ==> Valid()
      ensures filteredSounds.Some? ==> IsSubsequence(filteredSounds.value, allSounds.value)
      ensures filteredSounds.Some? ==> forall x :: multiset(filteredSounds.value)[x]
                                                   == if ShouldFilter(x, searchText) then multiset(allSounds.value)[x] else 0
    {
      filteredSounds := Filtered(allSounds, searchText);
    }

    /** updateSearchResults: the search controller reports its new state, and the
        filtered list is recomputed from the bar's text. */
    method UpdateSearchResults(isActive: bool, text: string)
      modifies this`searchActive, this`searchText, this`filteredSounds
      ensures searchActive == isActive && searchText == text
      ensures filteredSounds == Filtered(allSounds, text)
      ensures Valid()
    {
      searchActive := isActive;
      searchText := text;
      FilterContentForSearchText(searchText);
    }
  }

  // ---------------------------------------------------------------- two defects

  /** As written, moving row 0 below row 1 shows the first clip in row 1 while the
      stored list, which selection reads, still has the second clip there. */
  method MoveRowIsLost(table: SoundsTableViewController, a: Sound, b: Sound)
    returns (shown: Sound, selected: Option<Sound>)
    requires table.allSounds == Some([a, b]) && a != b
    requires table.Valid() && !table.IsSearching()
    ensures shown == a && selected == Some(b) && selected != Some(shown)
  {
    var localCopy := table.MoveRow(0, 1);
    shown := localCopy.value[1];
    selected := table.SelectedSound(1);
  }

  /** As written, the no-data row can be edited, and deleting it leaves the row count
      at 1, where the table's row deletion needs it to drop to 0. */
  method DeletePlaceholderRow(table: SoundsTableViewController)
    requires table.allSounds.None? && !table.IsSearching()
    modifies table
    ensures old(table.CanEditRow()) && old(table.NumberOfRows()) == 1 && table.NumberOfRows() == 1
  {
    table.CommitEdit(Delete, 0);
  }

  /** canEditRowAt as evidently intended: no editing while searching or without clips. */
  predicate CanEditRowGuarded(table: SoundsTableViewController)
    reads table
  {
    !table.IsSearching() && table.allSounds.Some?
  }

  /** With the guarded rule, deleting any editable row lowers the row count by one. */
  method DeleteEditableRow(table: SoundsTableViewController, row: nat)
    requires CanEditRowGuarded(table) && row < table.NumberOfRows()
    modifies table
    ensures table.NumberOfRows() == old(table.NumberOfRows()) - 1
  {
    table.CommitEdit(Delete, row);
  }
}
