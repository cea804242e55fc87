/**
 * What `split_long_entry` guarantees about its output: when it leaves an
 * entry alone, how many children it makes, how their time windows tile the
 * parent's, which columns they change, how the description's words are laid
 * out over them, and that splitting a child again changes nothing.
 */
module SplitProperties {
  import opened Wrappers
  import opened Text
  import opened Clock
  import opened Cells
  import opened Splitter

  /** Total minutes of a list of entries, each measured by `parse_time_duration`. */
  function TotalMinutes(entries: seq<Entry>): int {
    if entries == [] then 0
    else TotalMinutes(entries[..|entries| - 1]) + EntryDuration(entries[|entries| - 1])
  }

  /** The words a child carries before its two part-marker tokens. */
  function PartWords(child: Entry): seq<string> {
    var ws := Words(DescriptionText(child));
    if |ws| >= 2 then ws[..|ws| - 2] else []
  }

  /** The children's part words, read in order and concatenated. */
  function KeptWords(entries: seq<Entry>): seq<string> {
    if entries == [] then []
    else KeptWords(entries[..|entries| - 1]) + PartWords(entries[|entries| - 1])
  }

  /** The two tokens `split()` makes of the `" (část i/n)"` marker. */
  function MarkerWords(part: nat, total: nat): seq<string> {
    ["(část", Decimal(part) + "/" + Decimal(total) + ")"]
  }

  /** Where child `i`'s words begin: `i*w`, clamped to the word count as slicing clamps it. */
  function WordBound(p: Plan, i: nat): nat {
    Min(i * p.wordsPerChunk, |p.words|)
  }

  // ---------------------------------------------------------------------
  // Text of one child

  /** A joined word list followed by a part marker splits back into the words and the marker's two tokens. */
  lemma MarkedWords(ws: seq<string>, part: nat, total: nat)
    requires AllWords(ws)
    ensures Words(Join(ws) + PartSuffix(part, total)) == ws + MarkerWords(part, total)
  {
    var count := Decimal(part) + "/" + Decimal(total) + ")";
    DecimalIsWord(part);
    DecimalIsWord(total);
    assert IsWord(count) by {
      forall k | 0 <= k < |count| ensures !IsSpace(count[k]) {
      }
    }
    assert IsWord("(část");
    assert Join(ws) + PartSuffix(part, total) == Join(ws) + " " + (Join(["(část"]) + " " + count);
    WordsOfJoinThen(ws, Join(["(část"]) + " " + count);
    WordsOfJoinThen(["(část"], count);
    WordsOfWord(count);
  }

  /** Child `i`'s slice is the run of words between two consecutive bounds. */
  lemma WordSliceIs(p: Plan, i: nat, j: nat)
    requires p.wordsPerChunk >= 1 && j == i + 1
    ensures WordBound(p, i) <= WordBound(p, j)
    ensures WordSlice(p.words, p.wordsPerChunk, i) == p.words[WordBound(p, i)..WordBound(p, j)]
  {
    assert (i + 1) * p.wordsPerChunk == i * p.wordsPerChunk + p.wordsPerChunk;
    assert 0 <= i * p.wordsPerChunk;
  }

  /** How many leading words the children keep in all: `min(n, count * max(1, n // count))`. */
  function KeptCount(wordCount: nat, count: nat): (k: nat)
    requires count >= 1
    ensures k <= wordCount
  {
    Min(wordCount, count * Max(1, wordCount / count))
  }

  /** The bound after the last child is the kept count. */
  lemma PlanKeptCount(p: Plan)
    requires PlanOk(p)
    ensures WordBound(p, p.numChunks) == KeptCount(|p.words|, p.numChunks)
  {
  }

  /** With at least `count` words, `count * (n // count)` words are kept: all but the remainder. */
  lemma KeptCountDropsRemainder(wordCount: nat, count: nat)
    requires 1 <= count <= wordCount
    ensures KeptCount(wordCount, count) == wordCount - wordCount % count
  {
    var q := wordCount / count;
    assert q >= 1;
    assert count * q == wordCount - wordCount % count;
  }

  /** With fewer words than children, each gets one word and all are kept. */
  lemma KeptCountFewWords(wordCount: nat, count: nat)
    requires wordCount < count
    ensures KeptCount(wordCount, count) == wordCount
  {
  }

  /** With fewer words than children, a child at position `|words|` or later gets no words. */
  lemma PlanSliceEmpty(p: Plan, i: nat)
    requires PlanOk(p) && |p.words| < p.numChunks && |p.words| <= i
    ensures WordSlice(p.words, p.wordsPerChunk, i) == []
  {
    var w := p.wordsPerChunk;
    assert w == 1;
    assert i * w == i && (i + 1) * w == i + 1;
  }

  // ---------------------------------------------------------------------
  // Facts about one child, for any plan of a split-up entry

  /** Child `i`'s window, read back through `parse_time_duration`'s own parser. */
  lemma ChildWindow(entry: Entry, p: Plan, i: nat)
    requires PlanOk(p) && i < p.numChunks
    ensures ClockOf(Get(Child(entry, p, i), TimeStartKey)) == Some(ChildStart(p, i))
    ensures ClockOf(Get(Child(entry, p, i), TimeEndKey)) == Some(ChildStart(p, i + 1))
    ensures EntryDuration(Child(entry, p, i)) == ChildStart(p, i + 1) - ChildStart(p, i)
  {
    ChildTimes(entry, p, i);
    ChildStartAt(p, i);
    ChildStartAt(p, i + 1);
    ClockOfFormat(ChildStart(p, i));
    ClockOfFormat(ChildStart(p, i + 1));
  }

  /** Child `i`'s description splits into its word slice followed by the part marker. */
  lemma ChildWords(entry: Entry, p: Plan, i: nat)
    requires PlanOk(p) && AllWords(p.words) && i < p.numChunks
    ensures Words(DescriptionText(Child(entry, p, i))) == WordSlice(p.words, p.wordsPerChunk, i) + MarkerWords(i + 1, p.numChunks)
  {
    NumChunksIsCeiling(p.duration, p.maxMinutes);
    ChildDescriptionCell(entry, p, i);
    var slice := WordSlice(p.words, p.wordsPerChunk, i);
    SliceWords(p.words, p.wordsPerChunk, i);
    MarkedWords(slice, i + 1, p.numChunks);
  }

  /** A slice of a list of words is a list of words. */
  lemma SliceWords(words: seq<string>, w: nat, i: nat)
    requires AllWords(words)
    ensures AllWords(WordSlice(words, w, i))
  {
    var slice := WordSlice(words, w, i);
    forall k | 0 <= k < |slice| ensures IsWord(slice[k]) {
      assert slice[k] == words[i * w + k];
    }
  }

  /** What child `i` keeps of the words: its slice, once the marker's two tokens are set aside. */
  lemma ChildPartWords(entry: Entry, p: Plan, i: nat)
    requires PlanOk(p) && AllWords(p.words) && i < p.numChunks
    ensures PartWords(Child(entry, p, i)) == WordSlice(p.words, p.wordsPerChunk, i)
  {
    ChildWords(entry, p, i);
    var slice := WordSlice(p.words, p.wordsPerChunk, i);
    var ws := slice + MarkerWords(i + 1, p.numChunks);
    assert ws[..|ws| - 2] == slice;
  }

  lemma PrefixThenRun<T>(s: seq<T>, lo: nat, hi: nat)
    requires lo <= hi <= |s|
    ensures s[..hi] == s[..lo] + s[lo..hi]
  {
    assert s[..hi] == s[..lo] + s[lo..hi];
  }

  /** Taking one more entry adds its duration. */
  lemma TotalMinutesStep(rs: seq<Entry>, k: nat)
    requires 0 < k <= |rs|
    ensures TotalMinutes(rs[..k]) == TotalMinutes(rs[..k - 1]) + EntryDuration(rs[k - 1])
  {
    assert rs[..k][..k - 1] == rs[..k - 1];
  }

  /** Taking one more entry appends its part words. */
  lemma KeptWordsStep(rs: seq<Entry>, k: nat)
    requires 0 < k <= |rs|
    ensures KeptWords(rs[..k]) == KeptWords(rs[..k - 1]) + PartWords(rs[k - 1])
  {
    assert rs[..k][..k - 1] == rs[..k - 1];
  }

  /** Child `i` lasts from boundary `i` to boundary `j = i + 1`. */
  lemma ChildSpan(entry: Entry, p: Plan, i: nat, j: nat)
    requires PlanOk(p) && i < p.numChunks && j == i + 1
    ensures EntryDuration(Children(entry, p)[i]) == ChildStart(p, j) - ChildStart(p, i)
  {
    ChildrenUpToAt(entry, p, p.numChunks, i);
    ChildWindow(entry, p, i);
  }

  /**
   * Entries lasting from boundary `i` to boundary `i + 1` of a plan add up,
   * over the first `k`, to the span from the parent's start to boundary `k`.
   */
  lemma {:induction false} MinutesOfSpans(rs: seq<Entry>, p: Plan, k: nat)
    requires k <= |rs|
    requires forall i :: 0 <= i < |rs| ==> EntryDuration(rs[i]) == ChildStart(p, i + 1) - ChildStart(p, i)
    ensures TotalMinutes(rs[..k]) == ChildStart(p, k) - p.startTime
  {
    if k > 0 {
      MinutesOfSpans(rs, p, k - 1);
      TotalMinutesStep(rs, k);
    }
  }

  /** The children's durations add up to the parent's. */
  lemma ChildrenMinutes(entry: Entry, p: Plan)
    requires PlanOk(p)
    ensures TotalMinutes(Children(entry, p)) == p.duration
  {
    var rs := Children(entry, p);
    forall i | 0 <= i < |rs| ensures EntryDuration(rs[i]) == ChildStart(p, i + 1) - ChildStart(p, i) {
      ChildSpan(entry, p, i, i + 1);
    }
    MinutesOfSpans(rs, p, |rs|);
    assert rs[..|rs|] == rs;
    LastBoundary(p);
  }

  /** Child `i` keeps the words from bound `i` to bound `j = i + 1`. */
  lemma ChildRun(entry: Entry, p: Plan, i: nat, j: nat)
    requires PlanOk(p) && AllWords(p.words) && i < p.numChunks && j == i + 1
    ensures WordBound(p, i) <= WordBound(p, j) <= |p.words|
    ensures PartWords(Children(entry, p)[i]) == p.words[WordBound(p, i)..WordBound(p, j)]
  {
    ChildrenUpToAt(entry, p, p.numChunks, i);
    ChildPartWords(entry, p, i);
    WordSliceIs(p, i, j);
  }

  /** The first `k` children's part words, in order, are the description's words up to bound `k`. */
  lemma {:induction false} ChildrenKeptWordsUpTo(entry: Entry, p: Plan, k: nat)
    requires PlanOk(p) && AllWords(p.words) && k <= p.numChunks
    ensures KeptWords(Children(entry, p)[..k]) == p.words[..WordBound(p, k)]
  {
    var rs := Children(entry, p);
    if k > 0 {
      ChildrenKeptWordsUpTo(entry, p, k - 1);
      KeptWordsStep(rs, k);
      ChildRun(entry, p, k - 1, k);
      PrefixThenRun(p.words, WordBound(p, k - 1), WordBound(p, k));
    }
  }

  /** The children's part words, in order, are the description's words up to the last child's bound. */
  lemma ChildrenKeptWords(entry: Entry, p: Plan)
    requires PlanOk(p) && AllWords(p.words)
    ensures KeptWords(Children(entry, p)) == p.words[..WordBound(p, p.numChunks)]
  {
    var rs := Children(entry, p);
    ChildrenKeptWordsUpTo(entry, p, p.numChunks);
    assert rs[..p.numChunks] == rs;
  }

  /** Entry `i` of a split-up entry's result is child `i` of its plan. */
  lemma SplitChild(entry: Entry, maxMinutes: int, minWords: int, i: nat)
    requires maxMinutes > 0 && SplitsUp(entry, maxMinutes, minWords)
    requires i < |Split(entry, maxMinutes, minWords)|
    ensures Split(entry, maxMinutes, minWords)[i] == Child(entry, PlanOf(entry, maxMinutes, minWords), i)
  {
    var p := PlanOf(entry, maxMinutes, minWords);
    ChildrenUpToAt(entry, p, p.numChunks, i);
  }

  // ---------------------------------------------------------------------
  // When the entry is left alone, and how many children there are

  /**
   * The entry comes back as the one-element list `[entry]` exactly when its
   * description has fewer than `minWords` words or it lasts at most
   * `maxMinutes` (which covers an unparseable time, read as 0 minutes).
   */
  lemma SplitKeepsEntry(entry: Entry, maxMinutes: int, minWords: int)
    requires maxMinutes > 0
    ensures Split(entry, maxMinutes, minWords) == [entry]
        <==> |Words(DescriptionText(entry))| < minWords || EntryDuration(entry) <= maxMinutes
  {
    if SplitsUp(entry, maxMinutes, minWords) {
      NumChunksIsCeiling(EntryDuration(entry), maxMinutes);
    }
  }

  /**
   * A split-up entry has `ceil(duration / maxMinutes)` children, which is at
   * least two, so every child carries the part marker.
   */
  lemma SplitCount(entry: Entry, maxMinutes: int, minWords: int)
    requires maxMinutes > 0 && SplitsUp(entry, maxMinutes, minWords)
    ensures var n := |Split(entry, maxMinutes, minWords)|;
      && n >= 2
      && (n - 1) * maxMinutes < EntryDuration(entry) <= n * maxMinutes
  {
    NumChunksIsCeiling(EntryDuration(entry), maxMinutes);
  }

  // ---------------------------------------------------------------------
  // Durations and time windows

  /** One child's duration: what the loop's `chunk_duration` computes, at least 1, the cap except for the last. */
  lemma ChildDuration(entry: Entry, p: Plan, i: nat)
    requires PlanOk(p) && i < p.numChunks
    ensures EntryDuration(Child(entry, p, i)) == Min(p.maxMinutes, p.duration - i * p.maxMinutes)
    ensures 1 <= EntryDuration(Child(entry, p, i)) <= p.maxMinutes
    ensures i < p.numChunks - 1 ==> EntryDuration(Child(entry, p, i)) == p.maxMinutes
  {
    ChildWindow(entry, p, i);
    CursorAdvances(p, i);
    ChunkStartsInside(p, i);
    if i < p.numChunks - 1 {
      ChunkStartsInside(p, i + 1);
      assert (i + 1) * p.maxMinutes == i * p.maxMinutes + p.maxMinutes;
    }
  }

  /**
   * Child `i` lasts `min(maxMinutes, duration - i*maxMinutes)` minutes: at
   * least one, at most the cap, and exactly the cap for every child but the last.
   */
  lemma SplitDurations(entry: Entry, maxMinutes: int, minWords: int)
    requires maxMinutes > 0 && SplitsUp(entry, maxMinutes, minWords)
    ensures var r := Split(entry, maxMinutes, minWords);
      forall i :: 0 <= i < |r| ==>
        && EntryDuration(r[i]) == Min(maxMinutes, EntryDuration(entry) - i * maxMinutes)
        && 1 <= EntryDuration(r[i]) <= maxMinutes
        && (i < |r| - 1 ==> EntryDuration(r[i]) == maxMinutes)
  {
    var r := Split(entry, maxMinutes, minWords);
    forall i | 0 <= i < |r|
      ensures EntryDuration(r[i]) == Min(maxMinutes, EntryDuration(entry) - i * maxMinutes)
      ensures 1 <= EntryDuration(r[i]) <= maxMinutes
      ensures i < |r| - 1 ==> EntryDuration(r[i]) == maxMinutes
    {
      SplitDuration(entry, maxMinutes, minWords, i);
    }
  }

  /** The duration of one child of a split entry. */
  lemma SplitDuration(entry: Entry, maxMinutes: int, minWords: int, i: nat)
    requires maxMinutes > 0 && SplitsUp(entry, maxMinutes, minWords)
    requires i < |Split(entry, maxMinutes, minWords)|
    ensures var r := Split(entry, maxMinutes, minWords);
      && EntryDuration(r[i]) == Min(maxMinutes, EntryDuration(entry) - i * maxMinutes)
      && 1 <= EntryDuration(r[i]) <= maxMinutes
      && (i < |r| - 1 ==> EntryDuration(r[i]) == maxMinutes)
  {
    var p := PlanOf(entry, maxMinutes, minWords);
    SplitChild(entry, maxMinutes, minWords, i);
    ChildDuration(entry, p, i);
  }

  /** The children's durations add up to the parent's, whether or not the entry is split. */
  lemma SplitPreservesTotal(entry: Entry, maxMinutes: int, minWords: int)
    requires maxMinutes > 0
    ensures TotalMinutes(Split(entry, maxMinutes, minWords)) == EntryDuration(entry)
  {
    var r := Split(entry, maxMinutes, minWords);
    if SplitsUp(entry, maxMinutes, minWords) {
      var p := PlanOf(entry, maxMinutes, minWords);
      ChildrenMinutes(entry, p);
    } else {
      assert r[..0] == [];
    }
  }

  /**
   * The children tile the parent's window: the first starts when the parent
   * starts, each starts where the previous one ends (the same `HH:MM`
   * text), and the last ends when the parent ends.
   */
  lemma SplitTiles(entry: Entry, maxMinutes: int, minWords: int)
    requires maxMinutes > 0
    ensures var r := Split(entry, maxMinutes, minWords);
      && ClockOf(Get(r[0], TimeStartKey)) == ClockOf(Get(entry, TimeStartKey))
      && ClockOf(Get(r[|r| - 1], TimeEndKey)) == ClockOf(Get(entry, TimeEndKey))
      && forall i :: 0 <= i < |r| - 1 ==> Get(r[i + 1], TimeStartKey) == Get(r[i], TimeEndKey)
  {
    if SplitsUp(entry, maxMinutes, minWords) {
      ChildrenTile(entry, PlanOf(entry, maxMinutes, minWords));
    }
  }

  /** The tiling, for the children of any plan whose window is the parent's. */
  lemma ChildrenTile(entry: Entry, p: Plan)
    requires PlanOk(p)
    requires Some(p.startTime) == ClockOf(Get(entry, TimeStartKey))
    requires Some(p.startTime + p.duration) == ClockOf(Get(entry, TimeEndKey))
    ensures var r := Children(entry, p);
      && ClockOf(Get(r[0], TimeStartKey)) == ClockOf(Get(entry, TimeStartKey))
      && ClockOf(Get(r[|r| - 1], TimeEndKey)) == ClockOf(Get(entry, TimeEndKey))
      && forall i :: 0 <= i < |r| - 1 ==> Get(r[i + 1], TimeStartKey) == Get(r[i], TimeEndKey)
  {
    ChildrenFirstStart(entry, p);
    ChildrenEndCell(entry, p);
    ChildrenAllAdjacent(entry, p);
  }

  /** The last child's end cell reads as the parent's end cell. */
  lemma ChildrenEndCell(entry: Entry, p: Plan)
    requires PlanOk(p)
    requires Some(p.startTime + p.duration) == ClockOf(Get(entry, TimeEndKey))
    ensures var r := Children(entry, p);
      ClockOf(Get(r[|r| - 1], TimeEndKey)) == ClockOf(Get(entry, TimeEndKey))
  {
    var r := Children(entry, p);
    ChildrenLastEnd(entry, p);
    SameClock(Get(r[|r| - 1], TimeEndKey), Get(entry, TimeEndKey), p.startTime + p.duration);
  }

  /** Each child starts in the cell where the one before it ends. */
  lemma ChildrenAllAdjacent(entry: Entry, p: Plan)
    requires PlanOk(p)
    ensures var r := Children(entry, p);
      forall i :: 0 <= i < |r| - 1 ==> Get(r[i + 1], TimeStartKey) == Get(r[i], TimeEndKey)
  {
    var r := Children(entry, p);
    forall i | 0 <= i < |r| - 1 ensures Get(r[i + 1], TimeStartKey) == Get(r[i], TimeEndKey) {
      ChildrenAdjacent(entry, p, i);
    }
  }

  /** A cell holding the printed minute `a` reads the same as any cell that parses to `a`. */
  lemma SameClock(v: Value, w: Value, a: int)
    requires 0 <= a < MinutesPerDay
    requires v == Text(FormatClock(a)) && Some(a) == ClockOf(w)
    ensures ClockOf(v) == ClockOf(w)
  {
    ClockOfFormat(a);
  }

  /** The first child's start cell reads back as the parent's start minute. */
  lemma ChildrenFirstStart(entry: Entry, p: Plan)
    requires PlanOk(p)
    ensures ClockOf(Get(Children(entry, p)[0], TimeStartKey)) == Some(p.startTime)
  {
    ChildrenUpToAt(entry, p, p.numChunks, 0);
    FirstChildStart(entry, p);
  }

  /** The boundary after the last child is the parent's end minute. */
  lemma LastBoundary(p: Plan)
    requires PlanOk(p)
    ensures ChildStart(p, p.numChunks) == p.startTime + p.duration
  {
    ChildStartAt(p, p.numChunks);
  }

  /** The first child starts at the parent's start minute. */
  lemma FirstChildStart(entry: Entry, p: Plan)
    requires PlanOk(p)
    ensures ClockOf(Get(Child(entry, p, 0), TimeStartKey)) == Some(p.startTime)
  {
    ChildTimes(entry, p, 0);
    assert ChildStart(p, 0) == p.startTime;
    ClockOfFormat(p.startTime);
  }

  /** Child `i + 1`'s start cell is child `i`'s end cell. */
  lemma ChildrenAdjacent(entry: Entry, p: Plan, i: nat)
    requires i + 1 < p.numChunks
    ensures var r := Children(entry, p);
      Get(r[i + 1], TimeStartKey) == Get(r[i], TimeEndKey)
  {
    ChildrenUpToAt(entry, p, p.numChunks, i);
    ChildrenUpToAt(entry, p, p.numChunks, i + 1);
    ChildTimes(entry, p, i);
    ChildTimes(entry, p, i + 1);
  }

  /**
   * When the parent's end time is already written as zero-padded `HH:MM`,
   * the last child's end cell is the parent's, character for character.
   */
  lemma SplitKeepsPaddedEnd(entry: Entry, maxMinutes: int, minWords: int)
    requires maxMinutes > 0 && SplitsUp(entry, maxMinutes, minWords)
    requires Get(entry, TimeEndKey).Text? && |Get(entry, TimeEndKey).s| == 5
    ensures var r := Split(entry, maxMinutes, minWords);
      Get(r[|r| - 1], TimeEndKey) == Get(entry, TimeEndKey)
  {
    var p := PlanOf(entry, maxMinutes, minWords);
    PaddedEndIsParentEnd(entry, p);
    ChildrenLastEnd(entry, p);
  }

  /** The last child's end cell is the text `strftime` prints for the parent's end minute. */
  lemma ChildrenLastEnd(entry: Entry, p: Plan)
    requires PlanOk(p)
    ensures var r := Children(entry, p);
      Get(r[|r| - 1], TimeEndKey) == Text(FormatClock(p.startTime + p.duration))
  {
    var r := Children(entry, p);
    var n := p.numChunks;
    assert |r| == n;
    ChildrenUpToAt(entry, p, n, n - 1);
    LastChildEnd(entry, p);
  }

  /** A zero-padded end cell is what `strftime` prints for the parent's end minute. */
  lemma PaddedEndIsParentEnd(entry: Entry, p: Plan)
    requires Get(entry, TimeEndKey).Text? && |Get(entry, TimeEndKey).s| == 5
    requires Some(p.startTime + p.duration) == ClockOf(Get(entry, TimeEndKey))
    ensures Text(FormatClock(p.startTime + p.duration)) == Get(entry, TimeEndKey)
  {
    FormatParseClock(Get(entry, TimeEndKey).s);
  }

  /** The last child ends at boundary `numChunks`, the parent's end minute. */
  lemma LastChildEnd(entry: Entry, p: Plan)
    requires PlanOk(p)
    ensures Get(Child(entry, p, p.numChunks - 1), TimeEndKey) == Text(FormatClock(p.startTime + p.duration))
  {
    var last := p.numChunks - 1;
    ChildTimes(entry, p, last);
    LastBoundary(p);
    assert last + 1 == p.numChunks;
  }

  // ---------------------------------------------------------------------
  // Columns and flags

  /**
   * Every child is the parent with only the five splitter columns written:
   * the same other columns with the same values, `is_split` true, and
   * `original_entry` true for the first child only.
   */
  lemma SplitChildColumns(entry: Entry, maxMinutes: int, minWords: int)
    requires maxMinutes > 0 && SplitsUp(entry, maxMinutes, minWords)
    ensures var r := Split(entry, maxMinutes, minWords);
      forall i :: 0 <= i < |r| ==>
        && r[i].Keys == entry.Keys + SplitterKeys
        && r[i] - SplitterKeys == entry - SplitterKeys
        && Get(r[i], IsSplitKey) == Flag(true)
        && Get(r[i], OriginalEntryKey) == Flag(i == 0)
  {
    var p := PlanOf(entry, maxMinutes, minWords);
    var r := Split(entry, maxMinutes, minWords);
    forall i | 0 <= i < |r|
      ensures && r[i].Keys == entry.Keys + SplitterKeys
        && r[i] - SplitterKeys == entry - SplitterKeys
        && Get(r[i], IsSplitKey) == Flag(true)
        && Get(r[i], OriginalEntryKey) == Flag(i == 0)
    {
      SplitChild(entry, maxMinutes, minWords, i);
      ChildFields(entry, p, i);
    }
  }

  // ---------------------------------------------------------------------
  // Description words

  /**
   * Child `i` carries the words `words[i*w : min((i+1)*w, n)]` of the
   * parent's description, `w = max(1, n // count)`, followed by the marker
   * `(část i+1/count)`.
   */
  lemma SplitChildWords(entry: Entry, maxMinutes: int, minWords: int)
    requires maxMinutes > 0 && SplitsUp(entry, maxMinutes, minWords)
    ensures var r := Split(entry, maxMinutes, minWords);
      var words := Words(DescriptionText(entry));
      var w := Max(1, |words| / |r|);
      forall i :: 0 <= i < |r| ==>
        && PartWords(r[i]) == WordSlice(words, w, i)
        && Words(DescriptionText(r[i])) == PartWords(r[i]) + MarkerWords(i + 1, |r|)
  {
    var p := PlanOf(entry, maxMinutes, minWords);
    var r := Split(entry, maxMinutes, minWords);
    WordsAreWords(DescriptionText(entry));
    forall i | 0 <= i < |r|
      ensures PartWords(r[i]) == WordSlice(p.words, p.wordsPerChunk, i)
      ensures Words(DescriptionText(r[i])) == PartWords(r[i]) + MarkerWords(i + 1, |r|)
    {
      SplitChild(entry, maxMinutes, minWords, i);
      ChildWords(entry, p, i);
      ChildPartWords(entry, p, i);
    }
  }

  /**
   * Read in order, the children's part words are the first
   * `min(n, count*w)` words of the parent's description: nothing is
   * repeated or reordered, but words past `count*w` are dropped.
   */
  lemma SplitKeptWords(entry: Entry, maxMinutes: int, minWords: int)
    requires maxMinutes > 0 && SplitsUp(entry, maxMinutes, minWords)
    ensures var r := Split(entry, maxMinutes, minWords);
      var words := Words(DescriptionText(entry));
      KeptWords(r) == words[..KeptCount(|words|, |r|)]
  {
    var p := PlanOf(entry, maxMinutes, minWords);
    WordsAreWords(DescriptionText(entry));
    ChildrenKeptWords(entry, p);
    PlanKeptCount(p);
  }

  /**
   * With at least as many words as children, exactly the last
   * `n % count` words of the description appear in no child.
   */
  lemma SplitDropsRemainderWords(entry: Entry, maxMinutes: int, minWords: int)
    requires maxMinutes > 0 && SplitsUp(entry, maxMinutes, minWords)
    requires |Words(DescriptionText(entry))| >= |Split(entry, maxMinutes, minWords)|
    ensures var r := Split(entry, maxMinutes, minWords);
      var words := Words(DescriptionText(entry));
      KeptWords(r) == words[..|words| - |words| % |r|]
  {
    SplitKeptWords(entry, maxMinutes, minWords);
    KeptCountDropsRemainder(|Words(DescriptionText(entry))|, |Split(entry, maxMinutes, minWords)|);
  }

  /**
   * With fewer words than children, every word is kept, one per child, and
   * the children from position `n` on carry only the part marker.
   */
  lemma SplitSpreadsFewWords(entry: Entry, maxMinutes: int, minWords: int)
    requires maxMinutes > 0 && SplitsUp(entry, maxMinutes, minWords)
    requires |Words(DescriptionText(entry))| < |Split(entry, maxMinutes, minWords)|
    ensures var r := Split(entry, maxMinutes, minWords);
      var words := Words(DescriptionText(entry));
      && KeptWords(r) == words
      && forall i :: |words| <= i < |r| ==> PartWords(r[i]) == []
  {
    var p := PlanOf(entry, maxMinutes, minWords);
    var r := Split(entry, maxMinutes, minWords);
    var words := Words(DescriptionText(entry));
    SplitKeptWords(entry, maxMinutes, minWords);
    KeptCountFewWords(|words|, |r|);
    assert words[..|words|] == words;
    WordsAreWords(DescriptionText(entry));
    forall i | |words| <= i < |r| ensures PartWords(r[i]) == [] {
      SplitChild(entry, maxMinutes, minWords, i);
      ChildPartWords(entry, p, i);
      PlanSliceEmpty(p, i);
    }
  }

  // ---------------------------------------------------------------------
  // Splitting again

  /** Every entry `Split` returns is returned unchanged when split again with the same limits. */
  lemma SplitIdempotent(entry: Entry, maxMinutes: int, minWords: int)
    requires maxMinutes > 0
    ensures var r := Split(entry, maxMinutes, minWords);
      forall i :: 0 <= i < |r| ==> Split(r[i], maxMinutes, minWords) == [r[i]]
  {
    if SplitsUp(entry, maxMinutes, minWords) {
      SplitDurations(entry, maxMinutes, minWords);
    }
  }
}
