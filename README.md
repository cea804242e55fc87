# Timesheet entry splitter, modelled in Dafny

The AI timesheet optimizer reads time-tracking entries: rows with a
description and a `time_start`/`time_end` window written as `HH:MM`. Its
deterministic core breaks long, wordy entries into shorter blocks. Two
functions form that core:

- `parse_time_duration(start, end)` gives the length of an entry in whole
  minutes, or 0 when either time fails to parse.
- `split_long_entry(entry, max_minutes, min_words)` leaves an entry alone
  in two cases: its description has fewer than `min_words` words, or it
  lasts at most `max_minutes`. Otherwise it replaces the entry with
  `ceil(duration / max_minutes)` children. The children tile the parent's
  window, each carries a slice of the description's words plus a
  `" (část i/n)"` part marker, and each is flagged `is_split` (the first
  also `original_entry`).

The model has these modules:

- `Text` (`text.dfy`): Python's `str.split()`, `' '.join` and `str(n)`.
  It proves the round trips `Words(Join(ws)) == ws`, for whitespace-free, non-empty words, and "the digits of
  `str(n)` denote `n`".
- `Wrappers` and `Cells` (`cells.dfy`): `Option` for parses that can
  fail, and a cell of a timesheet row, either text or a boolean flag.
- `Clock` (`clock.dfy`): times of day as minutes since midnight, the
  `%H:%M` parser that `pd.to_datetime(s, format='%H:%M')` applies, the
  `strftime('%H:%M')` printer, and `parse_time_duration`. A string that
  matches `%H:%M` parses to that time on 1900-01-01. Every time the model
  parses is therefore on the same day, a minute in `0..1439`. The special
  strings pandas reads from the wall clock are the exception; see
  "## Left out".
- `Splitter` (`splitter.dfy`): an entry is a `map<string, Value>` from
  column names to cells.
  - `Split` is the closed-form result: `[entry]`, or the children
    `Child(entry, plan, i)` for `i < numChunks`.
  - `SplitLongEntry` is the source's procedure: its two early returns,
    then the loop with its running start-time cursor, in `BuildChildren`
    and `BuildChunk`. It is proved to return `Split`.
- `SplitProperties` (`properties.dfy`): what `Split` guarantees. This
  covers when the entry is kept, the child count, per-child durations and
  their sum, the tiling of the window, columns and flags, the layout of the
  description words, and idempotence.

Three facts about the code shape the model:

- There is no meeting-keyword rule. `split_long_entry` takes three
  parameters and never looks for "meeting".
- The part marker is the Czech `" (část i/n)"`.
- Words past `num_chunks * words_per_chunk` are dropped. The last chunk
  does not absorb them: its slice ends at `min((i+1)*w, n)`.
  `SplitDropsRemainderWords` states exactly which words go.

`max_minutes > 0` is a precondition throughout. No call of
`split_long_entry` appears in `streamlit_timesheet_app.py`. The only evidence for the
cap's range is the sidebar slider for the block length, which runs from 5
to 120 (`streamlit_timesheet_app.py:39`). The precondition drops some
behaviour, listed under "## Left out".

## Model

| member | source | states |
|---|---|---|
| Clock.ParseClock | streamlit_timesheet_app.py:95-96 | a `%H:%M` parse that succeeds yields a minute of the day in `0..1439` |
| Clock.ParseFormatClock | streamlit_timesheet_app.py:136-137 | parsing what `strftime('%H:%M')` prints for a minute of the day gives back that minute |
| Clock.FormatParseClock | streamlit_timesheet_app.py:95-96 | a five-character time that parses is exactly what `strftime` prints for the parsed minute |
| Clock.FormatClock | streamlit_timesheet_app.py:136-137 | `strftime('%H:%M')` prints five characters with a colon in the middle; `ParseFormatClock` and `FormatParseClock` make it the inverse of the parser |
| Clock.ParseTimeDuration | streamlit_timesheet_app.py:92-100 | the duration lies strictly between -1440 and 1440; a non-zero duration means both times parsed |
| Clock.DurationOfClocks | streamlit_timesheet_app.py:94-98 | on two printed times of day the duration is end minus start, negative when the end comes first |
| Clock.DurationOfUnparseable | streamlit_timesheet_app.py:94-100 | the duration is 0 exactly when a time fails to parse or the two times are equal |
| Text.Words | streamlit_timesheet_app.py:105 | `str.split()`: the maximal whitespace-free runs, in order; `WordsOfWord` and `WordsAtSpace` fix it on every string, `WordsAreWords` and `WordsOfJoin` state its contract |
| Text.WordsOfWord | streamlit_timesheet_app.py:105 | a single whitespace-free word splits to itself |
| Text.WordsAtSpace | streamlit_timesheet_app.py:105 | a whitespace character separates the string into halves that split independently: `split(a + c + b) == split(a) + split(b)` |
| Text.Join | streamlit_timesheet_app.py:131 | `' '.join`; `WordsOfJoin` states that splitting it gives back the joined words |
| Text.Decimal | streamlit_timesheet_app.py:133 | `str(n)` for the part numbers; `DecimalValue` states its contract |
| Text.DecimalValue | streamlit_timesheet_app.py:133 | `str(n)` is a non-empty run of decimal digits that denotes `n`, with a leading `0` only for 0 |
| Text.WordsOfJoin | streamlit_timesheet_app.py:105 | splitting the space-join of whitespace-free words gives back those words |
| Text.WordsAreWords | streamlit_timesheet_app.py:105 | every token `split()` yields is non-empty and free of whitespace |
| Splitter.PySlice | streamlit_timesheet_app.py:131 | a Python slice has the clamped length and holds the source elements from the lower bound on |
| Splitter.DescriptionText | streamlit_timesheet_app.py:104 | `str(entry.get('description', ''))`: the text cell, `""` when the column is missing, `True`/`False` for a flag; `SplitKeepsEntry` and `SplitChildWords` read it |
| Splitter.EntryDuration | streamlit_timesheet_app.py:110 | the entry's duration as `parse_time_duration` gives it on its two time cells, a missing cell read as `""`; `ChildWindow` and `SplitDurations` state it for the children |
| Splitter.PartSuffix | streamlit_timesheet_app.py:132-133 | the marker `" (část i/n)"`; `MarkedWords` states that it splits into the two marker tokens after the words |
| Splitter.Stamp | streamlit_timesheet_app.py:135-140 | `entry.copy()` with the five splitter columns written; `StampFields` states its contract |
| Splitter.Child | streamlit_timesheet_app.py:124-140 | child `i` as one pass of the loop builds it; `ChildFields`, `ChildWindow` and `ChildWords` state its contract |
| Splitter.ChildStartAt | streamlit_timesheet_app.py:122-143 | the loop's cursor is `i` caps after the parent's start before the last chunk, and the parent's end after it |
| Splitter.NumChunks | streamlit_timesheet_app.py:115-117 | the chunk count is at least 1 |
| Splitter.WordsPerChunk | streamlit_timesheet_app.py:120 | each chunk is allotted at least one word |
| Splitter.NumChunksIsCeiling | streamlit_timesheet_app.py:115-117 | for a duration above the cap, the count is `ceil(duration / cap)`, at least 2 |
| Splitter.ChunkStartsInside | streamlit_timesheet_app.py:124-128 | before the last chunk, `i` whole caps fall short of the duration |
| Splitter.CursorAdvances | streamlit_timesheet_app.py:128-129 | moving the cursor by chunk `i`'s allotment lands on chunk `i + 1`'s start |
| Splitter.StampFields | streamlit_timesheet_app.py:135-140 | a stamped copy has the parent's columns plus the five written ones; those read back what was written and the rest are the parent's |
| Splitter.ChildFields | streamlit_timesheet_app.py:135-140 | child `i` carries its window, description, `is_split = True` and `original_entry = (i == 0)`, and otherwise the parent's cells |
| Splitter.PlanOf | streamlit_timesheet_app.py:104-122 | a split-up entry's plan has the source's counts; its start and start-plus-duration are the parsed parent times |
| Splitter.Split | streamlit_timesheet_app.py:102-145 | the result is never empty |
| Splitter.SplitLongEntry | streamlit_timesheet_app.py:102-145 | the procedure, early returns and loop included, returns `Split` |
| Splitter.BuildChildren | streamlit_timesheet_app.py:119-145 | the loop with its running start time returns all children of the plan, in order |
| Splitter.BuildChunk | streamlit_timesheet_app.py:125-140 | one pass builds child `i` and the next start time |
| SplitProperties.SplitKeepsEntry | streamlit_timesheet_app.py:104-112 | the result is `[entry]` exactly when there are fewer than `min_words` words or the duration is at most the cap (an unparseable time counts as 0) |
| SplitProperties.SplitCount | streamlit_timesheet_app.py:115-117 | a split entry has `ceil(duration / cap)` children, at least two, so every child gets the marker |
| SplitProperties.ChildDuration | streamlit_timesheet_app.py:128-129 | child `i` lasts `min(cap, duration - i*cap)`, which is within `1..cap` and equals the cap for all but the last |
| SplitProperties.SplitDurations | streamlit_timesheet_app.py:128-137 | the same bounds hold for every entry of the split result, measured by `parse_time_duration` on its cells |
| SplitProperties.SplitPreservesTotal | streamlit_timesheet_app.py:128-143 | the durations of the result add up to the parent's duration, split or not |
| SplitProperties.ChildrenMinutes | streamlit_timesheet_app.py:128-143 | the children's durations add up to the plan's duration |
| SplitProperties.ChildWindow | streamlit_timesheet_app.py:129-137 | child `i`'s cells parse to its two boundaries, and its duration is their difference |
| SplitProperties.SplitTiles | streamlit_timesheet_app.py:122-143 | the first child starts at the parent's start, each child starts at the previous child's end cell, and the last ends at the parent's end |
| SplitProperties.ChildrenTile | streamlit_timesheet_app.py:122-143 | the same tiling for the children of any plan whose window is the parent's |
| SplitProperties.SplitKeepsPaddedEnd | streamlit_timesheet_app.py:137 | when the parent's end is written zero-padded, the last child's end cell is that same text |
| SplitProperties.SplitChildColumns | streamlit_timesheet_app.py:135-140 | every child has the parent's other columns unchanged, `is_split` true, and `original_entry` true only for the first |
| SplitProperties.ChildWords | streamlit_timesheet_app.py:131-133 | child `i`'s description splits into its word slice followed by the two marker tokens |
| SplitProperties.SplitChildWords | streamlit_timesheet_app.py:120-133 | child `i`'s part words are `words[i*w : min((i+1)*w, n)]` with `w = max(1, n // count)`, followed by `(část i+1/count)` |
| SplitProperties.SplitKeptWords | streamlit_timesheet_app.py:120-133 | the children's part words, read in order, are the first `min(n, count*w)` words of the description |
| SplitProperties.ChildrenKeptWords | streamlit_timesheet_app.py:125-133 | read in order, the children's part words are the description's words up to the last child's bound |
| SplitProperties.SplitDropsRemainderWords | streamlit_timesheet_app.py:120-131 | with at least as many words as children, exactly the last `n % count` words are dropped |
| SplitProperties.SplitSpreadsFewWords | streamlit_timesheet_app.py:120-131 | with fewer words than children, every word is kept and children from position `n` on carry only the marker |
| SplitProperties.SplitIdempotent | streamlit_timesheet_app.py:111-112 | splitting any entry of the result again with the same limits returns that entry alone |

## Left out

- The Streamlit interface is not modelled: page setup, sidebar widgets, session state, tabs and the file upload. It is presentation and framework state that the splitter never reads.
- `generate_activity_suggestions` is left out because its output comes from `np.random.choice`.
- Column mapping, LLM prompting, batching, CSV round trips and out-of-range filtering are not part of this model. They are not in the splitter's code.
- Cells that are neither text nor booleans (numbers, NaN, timestamps) are not modelled. A boolean time cell counts as unparseable. A boolean description prints as `True` or `False`, as `str` does.
- Clock.ParseClock: the strings "now" and "today" are modelled as unparseable. pandas `to_datetime` accepts them even with `format='%H:%M'` and reads them from the wall clock, as the current instant rather than a time on 1900-01-01. With either as an end time, `parse_time_duration` returns a duration of millions of minutes, beyond the `(-1440, 1440)` bound that `ParseTimeDuration` ensures. `split_long_entry` then makes `duration / max_minutes` children, with `HH:MM` cells that wrap around midnight. The model returns 0 and `[entry]` instead.
- Clock.ParseClock accepts ASCII digits only; Python's `\d` in the `%H:%M` pattern also matches other Unicode decimal digits.
- The pandas datetime and timedelta machinery is replaced by integer minutes. A string that matches `%H:%M` lands on 1900-01-01, so no computation the model covers crosses midnight. `FormatClock` reduces the hour modulo 24 as `strftime` would.
- Splitter.SplitLongEntry, Splitter.Split, Splitter.NumChunks and every lemma about them require `maxMinutes > 0`. Two behaviours of the code are therefore not modelled:
  - With `max_minutes = 0` the code raises `ZeroDivisionError` at `streamlit_timesheet_app.py:115` when the duration is positive. It returns `[entry]` when the duration is at most 0.
  - With a negative cap the chunk count is 1 (lines 115-117). The single child ends before it starts (lines 128-129) and gets no part marker (line 132). When the start time is unparseable the code raises an exception that nothing catches: malformed text fails at line 122, and an empty or missing start that pandas reads as `NaT` fails at line 136. An unparseable end time raises nothing: the duration is 0 and the single child runs from the start back by the size of the cap.
- `Entry` values are immutable maps. The fresh `dict` that `entry.copy()` makes, and any aliasing between the returned `[entry]` and the caller's entry, are not modelled.
