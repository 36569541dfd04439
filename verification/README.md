# vcd2tex core in Dafny

This project models `simulation.py` of vcd2tex. The program reads a VCD
waveform dump (already split into tokens by the `pyvcd` library), rebuilds
one *channel* per logical signal, and renders chosen channels over a time
window as the rows of a LaTeX `tikztimingtable`.

The model follows the code's four stages, one module each:

- **Declarations** (`VcdSimulation.scope_vars`): one pass over the tokens
  with a single "current scope" slot. It builds the map scope ident →
  variable reference → bit index → declaration. A `$scope` resets that
  scope's map. A `$var` before any `$scope` is a fault (`scope` is unbound).
- **Timeline** (`VcdSimulation.time_changes`): timestamp → the scalar and
  vector changes under it, in token order. A change before any timestamp is
  a fault. Because of the chained comparison on line 53, real and string
  changes are never recorded, and they never fault.
- **Channels** (`to_events`, `to_channel`): each group of sibling
  declarations (one reference, several bit indices) gets a buffer of `X`
  symbols. The model replays the timeline against that buffer and emits one
  event per timestamp that touches the group. Bit index `i` writes buffer
  position `i`, with Python's negative-index rule; a declaration without a bit index writes
  position 0.
- **Render** (`Channel.value_at`, `next_event`, `to_tikz_line`,
  `Simulation.to_tikz`): run-length segments `duration{symbol}` over
  `[start, end)`, then the table.

Python's exceptions are modelled as `Failure` values of `Tokens.Fault`, raised
at the same point and in the same order as the code raises them:

- sorting a group whose bit indices mix `None`, `int` and tuple;
- an index out of range or a tuple index at line 68;
- `''.join` over an integer value.

Dicts are association lists that keep insertion order (`AssocLists`).
Integers are unbounded, as in Python.

Three behaviours of the code that are easy to miss, and that the model
keeps:

- The last segment of a line runs to the next event even when that event
  lies past `end`. For example, `enable` over `[5, 15)` renders `25{0}`, not
  `10{0}`, and the durations add up to `WindowStop - start`, which is at
  least `end - start`.
- A two-bit vector whose bit 0 became `1` while bit 1 is still unknown reads
  `1X`, not `X1`: bit `i` sits at string position `i`. Module `TwoBit`
  carries this example from the tokens to the channel.
- Real and string changes are not recorded in the timeline.

## Model

| member | source | states |
|---|---|---|
| `AssocLists.Get` | simulation.py:40 | `k in d` / `d[k]`: absent exactly when no entry has key k; otherwise the value stored under k |
| `AssocLists.Put` | simulation.py:37-42 | `d[k] = v`: afterwards k maps to v and every other key maps to what it did; an existing key keeps its position, a new key is appended |
| `AssocLists.PutKeepsKeysUnique` | simulation.py:37-42 | assignment never creates a duplicate key |
| `AssocLists.PutLast` | simulation.py:55 | updating the most recently inserted key replaces the last entry in place |
| `Declarations.ActiveScope` | simulation.py:35-36 | the current scope is unset exactly when no `$scope` has been seen, else it is the ident of some `$scope` seen |
| `Declarations.Declare` | simulation.py:39-42 | `acc[scope][var][bit_index] = decl` sets exactly that slot, creating the reference's map if needed, and leaves every other slot unchanged |
| `Declarations.Step` | simulation.py:35-42 | `$scope` empties that scope only; `$var` with no scope faults with its position; `$var` in a scope writes one slot; other tokens change nothing |
| `Declarations.Fold` | simulation.py:33-44 | after a successful pass the current scope is the last `$scope` seen, and the index has an entry for it |
| `Declarations.ScopeVarsLookup` | simulation.py:31-44 | every slot of the index is the declaration of the last `$var` for it in its scope, unless a later `$scope` reset that scope (reference definition `LastDecl`) |
| `Declarations.ScopeVarsFailsIff` | simulation.py:38-42 | the index fails exactly when some `$var` precedes every `$scope`, and the fault names the first such `$var` |
| `Timeline.IsRecorded` | simulation.py:53 | a token is recorded exactly when it is a scalar or vector change |
| `Timeline.TimesOf` | simulation.py:50-52 | no timestamps are collected exactly when there is no `$time` marker |
| `Timeline.Step` | simulation.py:50-55 | a marker opens an empty list under its time; a change appends to the current time's list, or faults with its position when there is none; other tokens change nothing |
| `Timeline.Fold` | simulation.py:48-56 | after a successful pass the current time is the last marker seen |
| `Timeline.TimeChangesFailsIff` | simulation.py:53-55 | the timeline fails exactly when a scalar or vector change precedes every marker, and the fault names the first such change |
| `Timeline.TimeChangesKeepsOrder` | simulation.py:46-56 | with distinct timestamps the keys are the markers in token order, and the lists read in key order are exactly the recorded changes in token order |
| `Channels.InitialBuffer` | simulation.py:60 | the buffer has one unknown symbol per sibling declaration |
| `Channels.Insert` | simulation.py:61 | insertion keeps the elements (as a multiset) and places x first or leaves the old head first |
| `Channels.InsertDescending` | simulation.py:61 | inserting into a non-increasing group whose indices share one type keeps it non-increasing |
| `Channels.SortDescending` | simulation.py:61 | the sorted group is a permutation of the group, in non-increasing bit-index order whenever all indices have one type |
| `Channels.SlotOf` | simulation.py:67-68 | a declaration has a position exactly when the buffer is non-empty and it is scalar or its bit index lies in `[-n, n)`; a scalar writes position 0 and bit index `i` writes `i` modulo n, Python's negative-index rule; otherwise the assignment raises |
| `Channels.ApplyChange` | simulation.py:65-69 | one change faults exactly when a matching declaration has no valid position; otherwise it writes its value at every position a matching declaration names, leaves the rest, and reports a match exactly when its id code is in the group |
| `Channels.ApplyChanges` | simulation.py:64-69 | the changes of one timestamp fault exactly when one of them does; otherwise each position holds the value of the last change that writes it, or its old value, and `has_changed` holds exactly when some change matches the group |
| `Channels.JoinBuffer` | simulation.py:71 | joining succeeds exactly when every position holds a string; with one character per position the result has one character per position, in order |
| `Channels.Replay` | simulation.py:62-72 | the events' times are exactly the timestamps, in timeline order, whose changes touch the group (reference definition `TouchedTimes`) |
| `Channels.ToEvents` | simulation.py:58-73 | an unsortable group faults first; then a faulty timeline; on success the events' times are the timestamps whose changes touch the group |
| `Channels.EntriesMembers` | simulation.py:77-78 | the (scope, reference, group) triples visited are exactly those of the index |
| `IndexProofs.EntriesCount` | simulation.py:77-78 | one group is visited per (scope, reference) pair: the count is the sum of the scopes' reference counts |
| `IndexProofs.EntriesAt` | simulation.py:77-78 | reference j of scope i is visited at position `Offset(idx, i) + j`: scope by scope, each scope's references in dict order |
| `IndexProofs.EntriesDistinct` | simulation.py:77-78 | no (scope, reference) pair is visited twice when the index has unique keys |
| `IndexProofs.ScopeVarsWellFormed` | simulation.py:31-44 | the index has no duplicate scope, no duplicate reference within a scope and no duplicate bit index within a reference, and every reference holds at least one declaration |
| `IndexProofs.ScopeOrderMembers` | simulation.py:35-37 | a scope appears in the reference order `ScopeOrder` exactly when some `$scope` opens it |
| `IndexProofs.ScopeVarsKeys` | simulation.py:35-37 | the index's scopes are keyed in the order of their first `$scope`; a repeated `$scope` empties its scope but keeps its place |
| `IndexProofs.FoldRefKeys` | simulation.py:34-42 | after a successful pass, the references of scope s are keyed in `RefOrder`: the first `$var` of each reference issued while s is current, counted from the last `$scope s`, which starts the list afresh |
| `IndexProofs.ScopeVarsRefKeys` | simulation.py:31-44 | the same for the whole index; a scope never opened holds no reference |
| `IndexProofs.ScopeVarsAt` | simulation.py:31-44 | scope i of the index is the i-th scope opened, and its references are keyed in that scope's `RefOrder` |
| `IndexProofs.ToChannelsGroups` | simulation.py:75-82 | `to_channel` visits the scopes in first-`$scope` order and each scope's references in `RefOrder`, one group per (scope, reference) pair, none twice and none empty |
| `IndexProofs.ToChannelsAt` | simulation.py:75-82 | channel number `Offset(idx, i) + j` is the one of reference j of scope i, with that scope, that name and that reference's sibling count; there are exactly as many channels as groups |
| `Wrappers.CollectFailsIff` | simulation.py:80-82 | running computations in order fails exactly when one of them fails, and then with the fault of the first failing one |
| `Wrappers.CollectAt` | simulation.py:80-82 | value i of a successful run is the value of computation i |
| `Channels.BuildChannelsFailsIff` | simulation.py:75-82 | channel building fails exactly when some group's events fail, and then with the fault of the first such group |
| `Channels.BuildChannelsAt` | simulation.py:75-82 | a successful build has one channel per group, in order, with its scope, name, `size` equal to the number of siblings, and that group's events |
| `ReplayProofs.ApplyChangesBuffer` | simulation.py:64-69 | the buffer after one timestamp is the reference buffer `BufferAfter`: each position holds its last write or its old value |
| `ReplayProofs.ApplyChangesFirstFault` | simulation.py:64-68 | a failing timestamp raises for its first change that a matching declaration cannot write |
| `ReplayProofs.ReplayEventValues` | simulation.py:62-72 | timestamp i, when it touches the group, emits event number `TouchedCount(i)`, at its time, whose value is the join of the reference buffer `BufferAt(i + 1)` |
| `ReplayProofs.ReplayFailsIff` | simulation.py:62-72 | the replay fails exactly when some timestamp has an unwritable change or touches the group while the buffer holds a non-string, and then with the fault of the first such timestamp |
| `ReplayProofs.ToEventsValues` | simulation.py:58-73 | each touching timestamp of `to_events` emits the join of the group's buffer after it, at its time, in timeline order |
| `ReplayProofs.ToEventsFailsIff` | simulation.py:58-73 | `to_events` fails exactly when the group cannot be sorted, the timeline fails, or some timestamp fails; in the last case with the first failing timestamp's fault |
| `TwoBit.DumpIndex` | simulation.py:31-44 | for `$scope top`, two sibling `$var`s of `data` (bit 1 `a`, bit 0 `b`), `#5`, `1b`, the index holds the group of `data` under `top` |
| `TwoBit.DumpTimeline` | simulation.py:46-56 | for the same dump the timeline holds the change of `b` under time 5 |
| `TwoBit.DataEvents` | simulation.py:58-73 | `to_events` of `data` emits one event, at 5, reading `1X` |
| `TwoBit.DumpChannels` | simulation.py:75-82 | `to_channel` of the dump is the one channel `data` of `top`, size 2, reading `1X` from 5 |
| `ChannelProofs.ApplyChangeOrderFree` | simulation.py:65-68 | the outcome of one change depends only on which declarations the group holds, not their order |
| `ChannelProofs.ReplayOrderFree` | simulation.py:62-72 | the same holds for the whole replay |
| `ChannelProofs.ToEventsIgnoresSort` | simulation.py:61-72 | the descending sort does not change the events or faults: replaying the group in its own order gives the same result |
| `ChannelProofs.ReplayKeepsWidth` | simulation.py:60-71 | with one-character changes every emitted value is as long as the buffer |
| `ChannelProofs.ToEventsWidth` | simulation.py:58-73 | with one-character changes every event value of a group has one character per sibling declaration |
| `ChannelProofs.TouchedTimesIncreasing` | simulation.py:62-72 | increasing timeline keys give increasing event times |
| `ChannelProofs.ToEventsIncreasing` | simulation.py:58-73 | when the `$time` markers increase, every group's event times increase |
| `Text.NatToString` | simulation.py:146 | `str(n)` is a non-empty digit string without a leading zero |
| `Text.NatToStringRoundTrip` | simulation.py:146 | reading the digits of `str(n)` back gives n |
| `Text.IntToString` | simulation.py:146 | `str(i)` is a digit string for i >= 0 and starts with `-` otherwise |
| `Text.SplitJoin` | simulation.py:109 | splitting a `'\n'.join` on newline gives the parts back when no part contains a newline |
| `Render.PrefixLen` | simulation.py:119-121 | the scan stops at the end of the longest prefix of events no later than the given time |
| `Render.ValueAt` | simulation.py:118-124 | `X` when no event is at or before t; otherwise the value of the event that ends that prefix |
| `Render.NextEvent` | simulation.py:126-132 | `None` exactly when no event is later than t; otherwise the first event later than t, in list order |
| `Render.Segments` | simulation.py:138-150 | no segment for an empty window; otherwise the first segment carries the current value, and every duration is positive |
| `Render.Selected` | simulation.py:102-104 | no filter keeps every channel; a filter never adds channels |
| `RenderProofs.SelectedMembers` | simulation.py:102-104 | a channel is kept exactly when it is among the channels and there is no filter or the filter contains its name |
| `Render.ChannelLines` | simulation.py:104-105 | one line per channel, in order: a tab then that channel's `to_tikz_line` |
| `Render.TikzLines` | simulation.py:100-107 | the document's lines are the begin marker, the lines of the selected channels, and the end marker |
| `RenderProofs.ValueAtLatest` | simulation.py:118-124 | on increasing events `value_at(t)` is the value of the latest event at or before t |
| `RenderProofs.PrefixLenUnique` | simulation.py:119-121 | the scan length is the only length that stops the scan |
| `RenderProofs.SegmentsSymbols` | simulation.py:138-150 | on increasing events the segments carry the current value, then the value of each event strictly inside the window, one segment per event |
| `RenderProofs.SegmentsTotal` | simulation.py:138-150 | on increasing events the durations add up to the distance to the first event at or after end (or to end) |
| `RenderProofs.SegmentsCover` | simulation.py:136-150 | on increasing events every time a segment spans has `value_at` equal to that segment's symbol |
| `RenderProofs.WindowSegmentsSorted` | simulation.py:134-152 | over a non-empty window: 1 + (events strictly inside) segments, the first with `value_at(start)`, all positive, covering at least `end - start`, each holding `value_at` at every time it spans |
| `RenderProofs.ToTikzLineEmptyWindow` | simulation.py:134-152 | an empty or inverted window renders only `name &` |
| `RenderProofs.ToTikzLineNoEvents` | simulation.py:134-152 | a channel without events renders one `X` segment of the window's length |
| `RenderProofs.SelectedAppend` | simulation.py:102-104 | filtering keeps the channels' original order |
| `RenderProofs.ToTikzSplits` | simulation.py:100-109 | the document splits back into the begin marker, the selected channels' lines and the end marker |
| `RenderProofs.ChannelsIncreasing` | simulation.py:75-82 | channels rebuilt from tokens whose markers increase have increasing events |
| `Scenarios.ClockLine` | simulation.py:160-167 | the demonstration clock, all six events, over `[5, 20)` renders `clock & 5{0} 10{1}` |
| `Scenarios.EnableLine` | simulation.py:168-172 | the demonstration enable over `[0, 50)` renders `enable & 30{0} 20{1}` |
| `Scenarios.EnableLineOverrun` | simulation.py:134-152 | enable over `[5, 15)` renders `enable & 25{0}`: the last segment runs past the window |

## Left out

- Tokenizing the byte stream (`__init__`, `_filtered_tokens`, lines 16-20) is left to `pyvcd`; the model starts from the token sequence.
- `date` and `timescale` (lines 22-29) only parse header strings and are not used by the core.
- `to_simulation` (lines 84-85) only wraps the channels of `to_channel` in a `Simulation`.
- The `Signal` enum (lines 89-93) is never used.
- The `__main__` block (lines 159-187) does file I/O. Its two channels appear only as the scenarios, with integer values written as the strings they format to.
- `cached_property` caching is not modelled: each stage is a pure function of the tokens.
- `Tokens.VarDecl.size`: the declared width is stored but never read by the core.
- The real and string payloads are carried but never interpreted: those changes are never recorded.
- `Timeline.TimeChangesKeepsOrder`: stated for distinct timestamps only. A repeated `$time` marker empties that timestamp's list, in the model as in the code.
- `Channels.JoinBuffer`: the content of the joined string is stated only when each position holds one character; multi-character vector values are joined but their layout is not stated.
- `ChannelProofs.ReplayKeepsWidth`: stated only for one-character changes, as scalar changes are.
- `RenderProofs.WindowSegmentsSorted`: stated for strictly increasing events, which `RenderProofs.ChannelsIncreasing` guarantees for channels built from increasing markers. Unsorted event lists are described only by the contracts of `Render.Segments`, `Render.ValueAt` and `Render.NextEvent`.
- `Render.Selected`: the filter is modelled as an optional set of names. The code accepts any container, and a `str` filter would test substrings.
- `RenderProofs.ToTikzSplits`: needs channel lines without newlines, since a newline inside a name or value would split a line.
