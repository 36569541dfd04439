/** The diagram renderer: `Channel.value_at`, `Channel.next_event`,
    `Channel.to_tikz_line` and `Simulation.to_tikz`. */
module Render {
  import opened Wrappers
  import opened Channels
  import opened Text

  /** `Simulation`: the reconstructed channels, in order. */
  datatype Simulation = Simulation(channels: seq<Channel>)

  /** One run-length segment: `symbol` held for `duration` time units. */
  datatype Segment = Segment(duration: int, symbol: string)

  /** The symbol of a channel before its first event. */
  const UnknownSymbol: string := "X"

  /** The markers around the table. They are plain literals in the source,
      not format strings, so their braces stay doubled. */
  const BeginMarker: string := "\\begin{{tikztimingtable}}"
  const EndMarker: string := "\\end{{tikztimingtable}}"

  /** The scan shared by `value_at` and `next_event` (lines 119-121 and
      127-129): the length of the longest prefix of es whose events all have
      a time no later than t. */
  function PrefixLen(es: seq<ChannelEvent>, t: int): (k: nat)
    ensures k <= |es|
    ensures forall i :: 0 <= i < k ==> es[i].time <= t
    ensures k < |es| ==> es[k].time > t
    decreases |es|
  {
    if es == [] || es[0].time > t then 0 else 1 + PrefixLen(es[1..], t)
  }

  /** A later time scans at least as far. */
  lemma PrefixLenGrows(es: seq<ChannelEvent>, t: int, u: int)
    requires t <= u
    ensures PrefixLen(es, t) <= PrefixLen(es, u)
    decreases |es|
  {
    if es != [] && es[0].time <= t {
      PrefixLenGrows(es[1..], t, u);
    }
  }

  /** Event i is the last of the longest prefix of es whose times are all
      no later than t. */
  predicate EndsPrefix(es: seq<ChannelEvent>, t: int, i: int) {
    && 0 <= i < |es|
    && (forall j :: 0 <= j <= i ==> es[j].time <= t)
    && (i + 1 == |es| || es[i + 1].time > t)
  }

  /** Event k is the first event of es later than t. */
  predicate FirstLater(es: seq<ChannelEvent>, t: int, k: int) {
    && 0 <= k < |es|
    && es[k].time > t
    && forall i :: 0 <= i < k ==> es[i].time <= t
  }

  /** `Channel.value_at`: the value of the last event of the scanned prefix,
      or the unknown symbol when the prefix is empty. */
  function ValueAt(ch: Channel, t: int): (r: string)
    ensures |ch.events| == 0 || ch.events[0].time > t ==> r == UnknownSymbol
    ensures |ch.events| > 0 && ch.events[0].time <= t ==>
      exists i :: EndsPrefix(ch.events, t, i) && r == ch.events[i].value
  {
    var k := PrefixLen(ch.events, t);
    if k == 0 then UnknownSymbol else ch.events[k - 1].value
  }

  /** `Channel.next_event`: the event right after the scanned prefix, which
      is the first event, in list order, later than t, even when the events
      are not sorted; None exactly when no event is later than t. */
  function NextEvent(ch: Channel, t: int): (r: Option<ChannelEvent>)
    ensures r.None? <==> forall i :: 0 <= i < |ch.events| ==> ch.events[i].time <= t
    ensures r.Some? ==> exists k :: FirstLater(ch.events, t, k) && r.value == ch.events[k]
  {
    var k := PrefixLen(ch.events, t);
    if k >= |ch.events| then None else Some(ch.events[k])
  }

  /** The loop of `to_tikz_line` (lines 138-150) from `current_time` cur
      holding `current_value` v. Each round emits the segment up to the next
      event (or up to end when there is none) and moves to that event; the
      rounds stop once the current time reaches end, so the last segment
      may reach past end. The next event is read off the scan directly: it
      is event `PrefixLen(ch.events, cur)`, the one `NextEvent` returns. */
  function Segments(ch: Channel, cur: int, v: string, end: int): (r: seq<Segment>)
    ensures cur >= end ==> r == []
    ensures cur < end ==> |r| >= 1 && r[0].symbol == v
    ensures forall i :: 0 <= i < |r| ==> r[i].duration > 0
    decreases |ch.events| - PrefixLen(ch.events, cur)
  {
    if cur >= end then []
    else
      var k := PrefixLen(ch.events, cur);
      if k == |ch.events| then [Segment(end - cur, v)]
      else
        var e := ch.events[k];
        PrefixLenGrows(ch.events, cur, e.time);
        [Segment(e.time - cur, v)] + Segments(ch, e.time, e.value, end)
  }

  /** The segments `to_tikz_line` renders for the window [start, end). */
  function WindowSegments(ch: Channel, start: int, end: int): seq<Segment> {
    Segments(ch, start, ValueAt(ch, start), end)
  }

  /** `f'{duration}{{{symbol}}}'`. */
  function FormatSegment(s: Segment): string {
    IntToString(s.duration) + "{" + s.symbol + "}"
  }

  function FormatSegments(segs: seq<Segment>): (r: seq<string>)
    ensures |r| == |segs| && forall i :: 0 <= i < |segs| ==> r[i] == FormatSegment(segs[i])
  {
    seq(|segs|, i requires 0 <= i < |segs| => FormatSegment(segs[i]))
  }

  /** `Channel.to_tikz_line`: the channel name and `&`, then the formatted
      segments, joined by single spaces. */
  function ToTikzLine(ch: Channel, start: int, end: int): string {
    Join([ch.name + " &"] + FormatSegments(WindowSegments(ch, start, end)), " ")
  }

  /** The channels `to_tikz` renders: all of them, or those whose name is in
      the filter, in their original order. */
  function Selected(cs: seq<Channel>, names: Option<set<string>>): (r: seq<Channel>)
    ensures names.None? ==> r == cs
    ensures |r| <= |cs|
    decreases |cs|
  {
    if names.None? || cs == [] then cs
    else
      var rest := Selected(cs[1..], names);
      if cs[0].name in names.value then [cs[0]] + rest else rest
  }

  /** The document line of one channel: a tab, then its `to_tikz_line`. */
  function IndentedLine(ch: Channel, start: int, end: int): string {
    "\t" + ToTikzLine(ch, start, end)
  }

  /** The tab-indented lines of cs, one per channel, in order. */
  function ChannelLines(cs: seq<Channel>, start: int, end: int): (r: seq<string>)
    ensures |r| == |cs|
    ensures forall i :: 0 <= i < |cs| ==> r[i] == IndentedLine(cs[i], start, end)
  {
    seq(|cs|, i requires 0 <= i < |cs| => IndentedLine(cs[i], start, end))
  }

  /** The lines of the document: the begin marker, the lines of the
      selected channels, the end marker. */
  function TikzLines(sim: Simulation, start: int, end: int, names: Option<set<string>>): (r: seq<string>)
    ensures |r| >= 2 && r[0] == BeginMarker && r[|r| - 1] == EndMarker
    ensures r[1..|r| - 1] == ChannelLines(Selected(sim.channels, names), start, end)
  {
    var body := ChannelLines(Selected(sim.channels, names), start, end);
    assert ([BeginMarker] + body + [EndMarker])[1..|body| + 1] == body;
    [BeginMarker] + body + [EndMarker]
  }

  /** `Simulation.to_tikz`. */
  function ToTikz(sim: Simulation, start: int, end: int, names: Option<set<string>>): string {
    Join(TikzLines(sim, start, end, names), "\n")
  }
}
