/**
 * The time-entry splitter (`split_long_entry`). An entry is a row of the
 * timesheet: a dictionary from column names to cell values. An entry whose
 * description is long enough and whose time window is longer than the block
 * cap is replaced by consecutive children that tile its window, each with a
 * slice of the description's words and a " (část i/n)" part marker.
 */
module Splitter {
  import opened Wrappers
  import opened Text
  import opened Clock
  import opened Cells

  /** A timesheet row: column name to cell value (`Dict` in the source). */
  type Entry = map<string, Value>

  const DescriptionKey := "description"
  const TimeStartKey := "time_start"
  const TimeEndKey := "time_end"
  const IsSplitKey := "is_split"
  const OriginalEntryKey := "original_entry"

  /** The five columns every child overwrites; all others are copied from the parent. */
  const SplitterKeys: set<string> := {DescriptionKey, TimeStartKey, TimeEndKey, IsSplitKey, OriginalEntryKey}

  function Min(a: int, b: int): int { if a <= b then a else b }
  function Max(a: int, b: int): int { if a >= b then a else b }

  /** `entry.get(key, '')`. */
  function Get(entry: Entry, key: string): (v: Value)
    ensures key !in entry ==> v == Text("")
  {
    if key in entry then entry[key] else Text("")
  }

  /** `str(entry.get('description', ''))`; a boolean cell prints as `True` or `False`. */
  function DescriptionText(entry: Entry): string {
    match Get(entry, DescriptionKey)
    case Text(s) => s
    case Flag(b) => if b then "True" else "False"
  }

  /** The entry's length in minutes, as `parse_time_duration` computes it from its two time cells. */
  function EntryDuration(entry: Entry): int {
    ParseTimeDuration(Get(entry, TimeStartKey), Get(entry, TimeEndKey))
  }

  /** Python slicing `s[lo:hi]` for non-negative bounds: both are clamped to `|s|`, and an inverted range is empty. */
  function PySlice<T>(s: seq<T>, lo: nat, hi: nat): (r: seq<T>)
    ensures |r| == Max(0, Min(hi, |s|) - Min(lo, |s|))
    ensures forall k :: 0 <= k < |r| ==> lo + k < |s| && r[k] == s[lo + k]
  {
    var a := Min(lo, |s|);
    var b := Min(hi, |s|);
    if b <= a then [] else s[a..b]
  }

  /** `duration // max_minutes`, at least 1, plus 1 when there is a remainder. */
  function NumChunks(duration: int, maxMinutes: int): (n: nat)
    requires maxMinutes > 0
    ensures n >= 1
  {
    var q := Max(1, duration / maxMinutes);
    if duration % maxMinutes > 0 then q + 1 else q
  }

  /** `max(1, len(words) // num_chunks)`. */
  function WordsPerChunk(wordCount: nat, numChunks: nat): (w: nat)
    requires numChunks >= 1
    ensures w >= 1
  {
    Max(1, wordCount / numChunks)
  }

  /** The quantities `split_long_entry` fixes before its loop. */
  datatype Plan = Plan(
    words: seq<string>,
    startTime: int,
    duration: int,
    maxMinutes: int,
    numChunks: nat,
    wordsPerChunk: nat)

  /**
   * What holds of the plan of every entry that is split up: the cap is
   * positive and shorter than the window, the counts are the source's, the
   * window lies inside one day.
   */
  ghost predicate PlanOk(p: Plan) {
    && 0 < p.maxMinutes < p.duration
    && p.numChunks == NumChunks(p.duration, p.maxMinutes)
    && p.wordsPerChunk == WordsPerChunk(|p.words|, p.numChunks)
    && 0 <= p.startTime && p.startTime + p.duration < MinutesPerDay
  }

  /** `" (část i/n)"`, the part marker appended to a child's description. */
  function PartSuffix(part: nat, total: nat): string {
    " (část " + Decimal(part) + "/" + Decimal(total) + ")"
  }

  /** The words chunk `i` receives when each gets `w`: `words[i*w : min((i+1)*w, len(words))]`. */
  function WordSlice(words: seq<string>, w: nat, i: nat): seq<string> {
    PySlice(words, i * w, Min((i + 1) * w, |words|))
  }

  function ChildDescription(p: Plan, i: nat): string {
    var text := Join(WordSlice(p.words, p.wordsPerChunk, i));
    if p.numChunks > 1 then text + PartSuffix(i + 1, p.numChunks) else text
  }

  /**
   * `entry.copy()` with the five splitter columns overwritten: the window,
   * the description and the two flags (`original_entry` marks the first child).
   */
  function Stamp(entry: Entry, timeStart: string, timeEnd: string, description: string, first: bool): Entry {
    entry[TimeStartKey := Text(timeStart)]
         [TimeEndKey := Text(timeEnd)]
         [DescriptionKey := Text(description)]
         [IsSplitKey := Flag(true)]
         [OriginalEntryKey := Flag(first)]
  }

  /** A stamped copy has the parent's columns plus the five splitter columns, and reads back what was written. */
  lemma StampFields(entry: Entry, timeStart: string, timeEnd: string, description: string, first: bool)
    ensures var c := Stamp(entry, timeStart, timeEnd, description, first);
      && c.Keys == entry.Keys + SplitterKeys
      && c - SplitterKeys == entry - SplitterKeys
      && Get(c, TimeStartKey) == Text(timeStart)
      && Get(c, TimeEndKey) == Text(timeEnd)
      && Get(c, DescriptionKey) == Text(description)
      && Get(c, IsSplitKey) == Flag(true)
      && Get(c, OriginalEntryKey) == Flag(first)
  {
    var c := Stamp(entry, timeStart, timeEnd, description, first);
    assert c - SplitterKeys == entry - SplitterKeys by {
      assert (c - SplitterKeys).Keys == (entry - SplitterKeys).Keys;
    }
  }

  /**
   * The minute of the day at which child `i` starts: the loop's cursor,
   * which moves on by the cap each pass but never past the parent's end.
   * For `i` equal to the chunk count it is the parent's end.
   */
  function ChildStart(p: Plan, i: nat): int {
    if i == 0 then p.startTime
    else Min(ChildStart(p, i - 1) + p.maxMinutes, p.startTime + p.duration)
  }

  /**
   * Child `i` in closed form: the parent with its window narrowed to
   * `[ChildStart(i), ChildStart(i + 1))`, its description replaced by its
   * word slice and part marker, and the two split flags set.
   */
  function Child(entry: Entry, p: Plan, i: nat): Entry {
    Stamp(entry, FormatClock(ChildStart(p, i)), FormatClock(ChildStart(p, i + 1)), ChildDescription(p, i), i == 0)
  }

  lemma ChildIsStamp(entry: Entry, p: Plan, i: nat, timeStart: int, timeEnd: int, description: string)
    requires timeStart == ChildStart(p, i) && timeEnd == ChildStart(p, i + 1)
    requires var text := Join(WordSlice(p.words, p.wordsPerChunk, i));
      description == if p.numChunks > 1 then text + PartSuffix(i + 1, p.numChunks) else text
    ensures Child(entry, p, i) == Stamp(entry, FormatClock(timeStart), FormatClock(timeEnd), description, i == 0)
  {
  }

  /** Child `i`'s time cells: boundaries `i` and `i + 1`, printed as `HH:MM`. */
  lemma ChildTimes(entry: Entry, p: Plan, i: nat)
    ensures Get(Child(entry, p, i), TimeStartKey) == Text(FormatClock(ChildStart(p, i)))
    ensures Get(Child(entry, p, i), TimeEndKey) == Text(FormatClock(ChildStart(p, i + 1)))
  {
  }

  /** Child `i`'s description cell: its word slice and part marker. */
  lemma ChildDescriptionCell(entry: Entry, p: Plan, i: nat)
    ensures DescriptionText(Child(entry, p, i)) == ChildDescription(p, i)
  {
  }

  /** Child `i` has the parent's columns plus the five splitter columns, with these values. */
  lemma ChildFields(entry: Entry, p: Plan, i: nat)
    ensures var c := Child(entry, p, i);
      && c.Keys == entry.Keys + SplitterKeys
      && c - SplitterKeys == entry - SplitterKeys
      && Get(c, TimeStartKey) == Text(FormatClock(ChildStart(p, i)))
      && Get(c, TimeEndKey) == Text(FormatClock(ChildStart(p, i + 1)))
      && Get(c, DescriptionKey) == Text(ChildDescription(p, i))
      && Get(c, IsSplitKey) == Flag(true)
      && Get(c, OriginalEntryKey) == Flag(i == 0)
  {
    StampFields(entry, FormatClock(ChildStart(p, i)), FormatClock(ChildStart(p, i + 1)), ChildDescription(p, i), i == 0);
  }

  /** Whether `split_long_entry` breaks the entry up: enough words and longer than the cap. */
  predicate SplitsUp(entry: Entry, maxMinutes: int, minWords: int) {
    |Words(DescriptionText(entry))| >= minWords && EntryDuration(entry) > maxMinutes
  }

  /** The plan of an entry that is split up. */
  function PlanOf(entry: Entry, maxMinutes: int, minWords: int): (p: Plan)
    requires maxMinutes > 0 && SplitsUp(entry, maxMinutes, minWords)
    ensures PlanOk(p)
    ensures p.words == Words(DescriptionText(entry)) && p.duration == EntryDuration(entry)
    ensures p.maxMinutes == maxMinutes
    ensures Some(p.startTime) == ClockOf(Get(entry, TimeStartKey))
    ensures Some(p.startTime + p.duration) == ClockOf(Get(entry, TimeEndKey))
  {
    var words := Words(DescriptionText(entry));
    var duration := EntryDuration(entry);
    var n := NumChunks(duration, maxMinutes);
    Plan(words, ClockOf(Get(entry, TimeStartKey)).value, duration, maxMinutes, n, WordsPerChunk(|words|, n))
  }

  /** What `split_long_entry(entry, max_minutes, min_words)` returns. */
  function Split(entry: Entry, maxMinutes: int, minWords: int): (chunks: seq<Entry>)
    requires maxMinutes > 0
    ensures |chunks| >= 1
  {
    if !SplitsUp(entry, maxMinutes, minWords) then [entry]
    else
      Children(entry, PlanOf(entry, maxMinutes, minWords))
  }

  /** `[f(0), ..., f(k - 1)]`, built by appending, as a loop over `range(k)` does. */
  function Tabulate<T>(f: nat -> T, k: nat): (r: seq<T>)
    ensures |r| == k
  {
    if k == 0 then [] else Tabulate(f, k - 1) + [f(k - 1)]
  }

  lemma {:induction false} TabulateAt<T>(f: nat -> T, k: nat, i: nat)
    requires i < k
    ensures Tabulate(f, k)[i] == f(i)
  {
    if i < k - 1 {
      TabulateAt(f, k - 1, i);
    }
  }

  /** The first `k` children, in time order, as the loop holds them after `k` passes. */
  function ChildrenUpTo(entry: Entry, p: Plan, k: nat): (r: seq<Entry>)
    ensures |r| == k
  {
    Tabulate(i => Child(entry, p, i), k)
  }

  /** All children of a split-up entry. */
  function Children(entry: Entry, p: Plan): (r: seq<Entry>)
    ensures |r| == p.numChunks
  {
    ChildrenUpTo(entry, p, p.numChunks)
  }

  /** One more pass appends child `k - 1`. */
  lemma ChildrenUpToStep(entry: Entry, p: Plan, k: nat)
    requires k > 0
    ensures ChildrenUpTo(entry, p, k) == ChildrenUpTo(entry, p, k - 1) + [Child(entry, p, k - 1)]
  {
  }

  /** Position `i` of the first `k` children is child `i`. */
  lemma ChildrenUpToAt(entry: Entry, p: Plan, k: nat, i: nat)
    requires i < k
    ensures ChildrenUpTo(entry, p, k)[i] == Child(entry, p, i)
  {
    TabulateAt(i => Child(entry, p, i), k, i);
  }

  /** When the chunk count is the ceiling of `duration / max_minutes`, only the last chunk is short. */
  lemma NumChunksIsCeiling(duration: int, maxMinutes: int)
    requires 0 < maxMinutes < duration
    ensures var n := NumChunks(duration, maxMinutes);
      n >= 2 && (n - 1) * maxMinutes < duration <= n * maxMinutes
  {
    var q, rem := duration / maxMinutes, duration % maxMinutes;
    assert duration == q * maxMinutes + rem;
    assert q >= 1;
    if rem > 0 {
      assert NumChunks(duration, maxMinutes) == q + 1;
      assert (q + 1) * maxMinutes == q * maxMinutes + maxMinutes;
    } else {
      assert NumChunks(duration, maxMinutes) == q;
      assert q >= 2;
      assert (q - 1) * maxMinutes == q * maxMinutes - maxMinutes;
    }
  }

  /** Before the last chunk, `i` whole caps still fall short of the duration. */
  lemma ChunkStartsInside(p: Plan, i: nat)
    requires PlanOk(p)
    requires i < p.numChunks
    ensures 0 <= i * p.maxMinutes < p.duration
  {
    NumChunksIsCeiling(p.duration, p.maxMinutes);
    assert i * p.maxMinutes <= (p.numChunks - 1) * p.maxMinutes by {
      var k := p.numChunks - 1 - i;
      assert (p.numChunks - 1) * p.maxMinutes == i * p.maxMinutes + k * p.maxMinutes;
    }
  }

  /**
   * Child `i` starts `i` caps after the parent, and the boundary after the
   * last child is the parent's end; every boundary lies inside the parent's window.
   */
  lemma {:induction false} ChildStartAt(p: Plan, i: nat)
    requires PlanOk(p) && i <= p.numChunks
    ensures i < p.numChunks ==> ChildStart(p, i) == p.startTime + i * p.maxMinutes
    ensures i == p.numChunks ==> ChildStart(p, i) == p.startTime + p.duration
    ensures p.startTime <= ChildStart(p, i) <= p.startTime + p.duration
  {
    if i > 0 {
      ChildStartAt(p, i - 1);
      ChunkStartsInside(p, i - 1);
      assert (i - 1) * p.maxMinutes + p.maxMinutes == i * p.maxMinutes;
      if i < p.numChunks {
        ChunkStartsInside(p, i);
      } else {
        NumChunksIsCeiling(p.duration, p.maxMinutes);
      }
    }
  }

  /** Advancing the cursor by child `i`'s allotment lands on the start of child `i + 1`. */
  lemma CursorAdvances(p: Plan, i: nat)
    requires PlanOk(p)
    requires i < p.numChunks
    ensures ChildStart(p, i) + Min(p.maxMinutes, p.duration - i * p.maxMinutes) == ChildStart(p, i + 1)
  {
    ChildStartAt(p, i);
  }

  /**
   * `split_long_entry` as the source runs it: the two early returns of the
   * entry itself, the chunk count and words per chunk, then the loop.
   */
  method SplitLongEntry(entry: Entry, maxMinutes: int, minWords: int) returns (chunks: seq<Entry>)
    requires maxMinutes > 0
    ensures chunks == Split(entry, maxMinutes, minWords)
  {
    var description := DescriptionText(entry);
    var words := Words(description);
    if |words| < minWords {
      return [entry];
    }
    var duration := ParseTimeDuration(Get(entry, TimeStartKey), Get(entry, TimeEndKey));
    if duration <= maxMinutes {
      return [entry];
    }
    var numChunks := Max(1, duration / maxMinutes);
    if duration % maxMinutes > 0 {
      numChunks := numChunks + 1;
    }
    var wordsPerChunk := Max(1, |words| / numChunks);
    var startTime := ClockOf(Get(entry, TimeStartKey)).value;
    assert Plan(words, startTime, duration, maxMinutes, numChunks, wordsPerChunk) == PlanOf(entry, maxMinutes, minWords);
    chunks := BuildChildren(entry, words, startTime, duration, maxMinutes, numChunks, wordsPerChunk);
  }

  /**
   * The loop of `split_long_entry`: one pass per chunk index, a running
   * start-time cursor, and a list that each pass appends one stamped copy
   * of the entry to.
   */
  method BuildChildren(entry: Entry, words: seq<string>, start: int, duration: int, maxMinutes: int,
                       numChunks: nat, wordsPerChunk: nat) returns (chunks: seq<Entry>)
    requires PlanOk(Plan(words, start, duration, maxMinutes, numChunks, wordsPerChunk))
    ensures chunks == Children(entry, Plan(words, start, duration, maxMinutes, numChunks, wordsPerChunk))
  {
    ghost var p := Plan(words, start, duration, maxMinutes, numChunks, wordsPerChunk);
    chunks := [];
    var startTime := start;
    for i := 0 to numChunks
      invariant chunks == ChildrenUpTo(entry, p, i)
      invariant startTime == ChildStart(p, i)
    {
      var chunk, chunkEndTime := BuildChunk(entry, words, start, duration, maxMinutes, numChunks, wordsPerChunk, i, startTime);
      ChildrenUpToStep(entry, p, i + 1);
      chunks := chunks + [chunk];
      startTime := chunkEndTime;
    }
  }

  /** The body of that loop: chunk `i`, stamped from the cursor to the cursor plus its duration. */
  method BuildChunk(entry: Entry, words: seq<string>, ghost start: int, duration: int, maxMinutes: int,
                    numChunks: nat, wordsPerChunk: nat, i: nat, startTime: int)
    returns (chunk: Entry, chunkEndTime: int)
    requires PlanOk(Plan(words, start, duration, maxMinutes, numChunks, wordsPerChunk)) && i < numChunks
    requires startTime == ChildStart(Plan(words, start, duration, maxMinutes, numChunks, wordsPerChunk), i)
    ensures chunk == Child(entry, Plan(words, start, duration, maxMinutes, numChunks, wordsPerChunk), i)
    ensures chunkEndTime == ChildStart(Plan(words, start, duration, maxMinutes, numChunks, wordsPerChunk), i + 1)
  {
    ghost var p := Plan(words, start, duration, maxMinutes, numChunks, wordsPerChunk);
    assert 0 <= i * wordsPerChunk;
    var chunkStartWord := i * wordsPerChunk;
    var chunkEndWord := Min((i + 1) * wordsPerChunk, |words|);
    var chunkDuration := Min(maxMinutes, duration - i * maxMinutes);
    chunkEndTime := startTime + chunkDuration;
    CursorAdvances(p, i);
    var chunkDescription := Join(PySlice(words, chunkStartWord, chunkEndWord));
    if numChunks > 1 {
      chunkDescription := chunkDescription + PartSuffix(i + 1, numChunks);
    }
    chunk := Stamp(entry, FormatClock(startTime), FormatClock(chunkEndTime), chunkDescription, i == 0);
    ChildIsStamp(entry, p, i, startTime, chunkEndTime, chunkDescription);
  }
}
