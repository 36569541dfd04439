/** Properties of the renderer: what `value_at` means on sorted events, the
    number, symbols and total length of the segments `to_tikz_line` emits,
    and how `to_tikz` assembles and filters its lines. */
module RenderProofs {
  import opened Wrappers
  import opened Channels
  import opened Text
  import opened Render
  import opened Tokens
  import D = Declarations
  import TL = Timeline
  import ChannelProofs
  import opened Sequences

  predicate StrictlyIncreasing(es: seq<ChannelEvent>) {
    forall i, j :: 0 <= i < j < |es| ==> es[i].time < es[j].time
  }

  /** The events strictly inside the open interval (lo, hi), in order. */
  function Inside(es: seq<ChannelEvent>, lo: int, hi: int): seq<ChannelEvent>
    decreases |es|
  {
    if es == [] then []
    else (if lo < es[0].time < hi then [es[0]] else []) + Inside(es[1..], lo, hi)
  }

  function EventValues(es: seq<ChannelEvent>): seq<string>
    decreases |es|
  {
    if es == [] then [] else [es[0].value] + EventValues(es[1..])
  }

  function Symbols(segs: seq<Segment>): seq<string>
    decreases |segs|
  {
    if segs == [] then [] else [segs[0].symbol] + Symbols(segs[1..])
  }

  function TotalDuration(segs: seq<Segment>): int
    decreases |segs|
  {
    if segs == [] then 0 else segs[0].duration + TotalDuration(segs[1..])
  }

  /** Where the rendered line stops: the time of the first event at or after
      end, or end itself when there is none. */
  function WindowStop(es: seq<ChannelEvent>, end: int): int
    decreases |es|
  {
    if es == [] then end
    else if es[0].time >= end then es[0].time
    else WindowStop(es[1..], end)
  }

  // ---------------------------------------------------------------------
  // value_at on sorted events

  /** On strictly increasing events `value_at(t)` is the value of the latest
      event no later than t, and the unknown symbol before the first event. */
  lemma ValueAtLatest(ch: Channel, t: int, i: int)
    requires StrictlyIncreasing(ch.events)
    requires 0 <= i < |ch.events| && ch.events[i].time <= t
    requires i + 1 == |ch.events| || ch.events[i + 1].time > t
    ensures ValueAt(ch, t) == ch.events[i].value
  {
    var es := ch.events;
    assert EndsPrefix(es, t, i) by {
      assert forall j :: 0 <= j < i ==> es[j].time < es[i].time;
    }
    var j :| EndsPrefix(es, t, j) && ValueAt(ch, t) == es[j].value;
    assert EndsPrefix(es, t, j);
    EndsPrefixUnique(es, t, i, j);
  }

  /** At most one event ends the scanned prefix. */
  lemma EndsPrefixUnique(es: seq<ChannelEvent>, t: int, i: int, j: int)
    requires EndsPrefix(es, t, i) && EndsPrefix(es, t, j)
    ensures i == j
  {
  }

  // ---------------------------------------------------------------------
  // The events inside a window

  lemma {:induction false} InsideAppend(a: seq<ChannelEvent>, b: seq<ChannelEvent>, lo: int, hi: int)
    ensures Inside(a + b, lo, hi) == Inside(a, lo, hi) + Inside(b, lo, hi)
    decreases |a|
  {
    if a == [] {
      assert a + b == b;
    } else {
      assert (a + b)[0] == a[0];
      assert (a + b)[1..] == a[1..] + b;
      InsideAppend(a[1..], b, lo, hi);
    }
  }

  lemma {:induction false} InsideNone(es: seq<ChannelEvent>, lo: int, hi: int)
    requires forall i :: 0 <= i < |es| ==> es[i].time <= lo || es[i].time >= hi
    ensures Inside(es, lo, hi) == []
    decreases |es|
  {
    if es != [] {
      assert forall i :: 0 <= i < |es| - 1 ==> es[1..][i] == es[i + 1];
      InsideNone(es[1..], lo, hi);
    }
  }

  lemma {:induction false} InsideRaiseLo(es: seq<ChannelEvent>, lo: int, lo': int, hi: int)
    requires lo <= lo'
    requires forall i :: 0 <= i < |es| ==> es[i].time > lo'
    ensures Inside(es, lo, hi) == Inside(es, lo', hi)
    decreases |es|
  {
    if es != [] {
      assert forall i :: 0 <= i < |es| - 1 ==> es[1..][i] == es[i + 1];
      InsideRaiseLo(es[1..], lo, lo', hi);
    }
  }

  /** Moving the current time from cur to the next event e peels e off the
      events inside the window. */
  lemma InsideStep(es: seq<ChannelEvent>, cur: int, hi: int)
    requires StrictlyIncreasing(es)
    requires PrefixLen(es, cur) < |es| && es[PrefixLen(es, cur)].time < hi
    ensures Inside(es, cur, hi) == [es[PrefixLen(es, cur)]] + Inside(es, es[PrefixLen(es, cur)].time, hi)
  {
    var k := PrefixLen(es, cur);
    var e := es[k];
    var before, after := es[..k], es[k + 1..];
    var rest := Inside(after, e.time, hi);
    assert Inside(after, cur, hi) == rest by {
      assert forall i :: 0 <= i < |after| ==> after[i] == es[k + 1 + i];
      InsideRaiseLo(after, cur, e.time, hi);
    }
    assert Inside([e] + after, cur, hi) == [e] + rest by {
      InsideCons(e, after, cur, hi);
    }
    assert Inside([e] + after, e.time, hi) == rest by {
      InsideCons(e, after, e.time, hi);
    }
    assert Inside(before, cur, hi) == [] && Inside(before, e.time, hi) == [] by {
      InsideNone(before, cur, hi);
      InsideNone(before, e.time, hi);
    }
    InsideSplitAt(es, k, cur, hi);
    InsideSplitAt(es, k, e.time, hi);
  }

  lemma InsideSplitAt(es: seq<ChannelEvent>, k: nat, lo: int, hi: int)
    requires k < |es|
    ensures Inside(es, lo, hi) == Inside(es[..k], lo, hi) + Inside([es[k]] + es[k + 1..], lo, hi)
  {
    SplitAround(es, k);
    InsideAppend(es[..k], [es[k]] + es[k + 1..], lo, hi);
  }

  lemma InsideCons(e: ChannelEvent, rest: seq<ChannelEvent>, lo: int, hi: int)
    ensures Inside([e] + rest, lo, hi) == (if lo < e.time < hi then [e] else []) + Inside(rest, lo, hi)
  {
    ConsParts(e, rest);
  }

  /** The loop from cur runs its last round: no event is later than cur. */
  lemma SegmentsLast(ch: Channel, cur: int, v: string, end: int)
    requires cur < end && PrefixLen(ch.events, cur) == |ch.events|
    ensures Segments(ch, cur, v, end) == [Segment(end - cur, v)]
  {
  }

  /** The loop from cur moves to event k, the first later than cur. */
  lemma SegmentsNext(ch: Channel, cur: int, v: string, end: int, k: nat)
    requires cur < end && k == PrefixLen(ch.events, cur) && k < |ch.events|
    ensures Segments(ch, cur, v, end)
         == [Segment(ch.events[k].time - cur, v)] + Segments(ch, ch.events[k].time, ch.events[k].value, end)
  {
  }

  lemma SymbolsCons(s: Segment, rest: seq<Segment>)
    ensures Symbols([s] + rest) == [s.symbol] + Symbols(rest)
  {
    assert ([s] + rest)[1..] == rest;
  }

  lemma EventValuesCons(e: ChannelEvent, rest: seq<ChannelEvent>)
    ensures EventValues([e] + rest) == [e.value] + EventValues(rest)
  {
    assert ([e] + rest)[1..] == rest;
  }

  lemma TotalDurationCons(s: Segment, rest: seq<Segment>)
    ensures TotalDuration([s] + rest) == s.duration + TotalDuration(rest)
  {
    assert ([s] + rest)[1..] == rest;
  }

  /** The symbols when the loop runs one round and stops. */
  lemma SymbolsLastRound(ch: Channel, cur: int, v: string, end: int)
    requires StrictlyIncreasing(ch.events) && cur < end
    requires PrefixLen(ch.events, cur) == |ch.events| || ch.events[PrefixLen(ch.events, cur)].time >= end
    ensures Symbols(Segments(ch, cur, v, end)) == [v] + EventValues(Inside(ch.events, cur, end))
  {
    var es := ch.events;
    var k := PrefixLen(es, cur);
    assert Symbols(Segments(ch, cur, v, end)) == [v] by {
      if k == |es| {
        SegmentsLast(ch, cur, v, end);
        SymbolsCons(Segment(end - cur, v), []);
      } else {
        var e := es[k];
        var rest := Segments(ch, e.time, e.value, end);
        SegmentsNext(ch, cur, v, end, k);
        assert rest == [];
        SymbolsCons(Segment(e.time - cur, v), rest);
      }
    }
    assert Inside(es, cur, end) == [] by {
      if k < |es| {
        assert forall i :: k < i < |es| ==> es[i].time > es[k].time;
      }
      InsideNone(es, cur, end);
    }
  }

  /** The symbols when the loop moves on to the next event e before end,
      given those from e onwards. */
  lemma SymbolsNextRound(ch: Channel, cur: int, v: string, end: int)
    requires StrictlyIncreasing(ch.events) && cur < end
    requires PrefixLen(ch.events, cur) < |ch.events|
    requires var e := ch.events[PrefixLen(ch.events, cur)];
      && e.time < end
      && Symbols(Segments(ch, e.time, e.value, end)) == [e.value] + EventValues(Inside(ch.events, e.time, end))
    ensures Symbols(Segments(ch, cur, v, end)) == [v] + EventValues(Inside(ch.events, cur, end))
  {
    var es := ch.events;
    var e := es[PrefixLen(es, cur)];
    SegmentsNext(ch, cur, v, end, PrefixLen(es, cur));
    SymbolsCons(Segment(e.time - cur, v), Segments(ch, e.time, e.value, end));
    InsideStep(es, cur, end);
    EventValuesCons(e, Inside(es, e.time, end));
  }

  /** On strictly increasing events the segments from cur carry v and then
      the value of every event inside (cur, end), one segment each. */
  lemma {:induction false} SegmentsSymbols(ch: Channel, cur: int, v: string, end: int)
    requires StrictlyIncreasing(ch.events) && cur < end
    ensures Symbols(Segments(ch, cur, v, end)) == [v] + EventValues(Inside(ch.events, cur, end))
    decreases |ch.events| - PrefixLen(ch.events, cur)
  {
    var k := PrefixLen(ch.events, cur);
    if k == |ch.events| || ch.events[k].time >= end {
      SymbolsLastRound(ch, cur, v, end);
    } else {
      var e := ch.events[k];
      assert PrefixLen(ch.events, e.time) > k;
      SegmentsSymbols(ch, e.time, e.value, end);
      SymbolsNextRound(ch, cur, v, end);
    }
  }

  lemma {:induction false} WindowStopAt(es: seq<ChannelEvent>, k: nat, end: int)
    requires k <= |es| && forall i :: 0 <= i < k ==> es[i].time < end
    ensures k == |es| ==> WindowStop(es, end) == end
    ensures k < |es| && es[k].time >= end ==> WindowStop(es, end) == es[k].time
    decreases k
  {
    if k > 0 {
      assert forall i :: 0 <= i < k - 1 ==> es[1..][i] == es[i + 1];
      WindowStopAt(es[1..], k - 1, end);
    }
  }

  /** The total when the loop runs one round and stops. */
  lemma TotalLastRound(ch: Channel, cur: int, v: string, end: int)
    requires cur < end
    requires PrefixLen(ch.events, cur) == |ch.events| || ch.events[PrefixLen(ch.events, cur)].time >= end
    ensures TotalDuration(Segments(ch, cur, v, end)) == WindowStop(ch.events, end) - cur
  {
    var es := ch.events;
    var k := PrefixLen(es, cur);
    WindowStopAt(es, k, end);
    if k == |es| {
      SegmentsLast(ch, cur, v, end);
      TotalDurationCons(Segment(end - cur, v), []);
    } else {
      SegmentsNext(ch, cur, v, end, k);
      assert Segments(ch, es[k].time, es[k].value, end) == [];
      TotalDurationCons(Segment(es[k].time - cur, v), []);
    }
  }

  /** The total when the loop moves on to the next event e before end, given
      the total from e onwards. */
  lemma TotalNextRound(ch: Channel, cur: int, v: string, end: int)
    requires StrictlyIncreasing(ch.events) && cur < end
    requires PrefixLen(ch.events, cur) < |ch.events|
    requires var e := ch.events[PrefixLen(ch.events, cur)];
      && e.time < end
      && TotalDuration(Segments(ch, e.time, e.value, end)) == WindowStop(ch.events, end) - e.time
    ensures TotalDuration(Segments(ch, cur, v, end)) == WindowStop(ch.events, end) - cur
  {
    var es := ch.events;
    var e := es[PrefixLen(es, cur)];
    SegmentsNext(ch, cur, v, end, PrefixLen(es, cur));
    TotalDurationCons(Segment(e.time - cur, v), Segments(ch, e.time, e.value, end));
  }

  /** On strictly increasing events the segments from cur add up to the
      distance from cur to the window stop. */
  lemma {:induction false} SegmentsTotal(ch: Channel, cur: int, v: string, end: int)
    requires StrictlyIncreasing(ch.events) && cur < end
    ensures TotalDuration(Segments(ch, cur, v, end)) == WindowStop(ch.events, end) - cur
    decreases |ch.events| - PrefixLen(ch.events, cur)
  {
    var k := PrefixLen(ch.events, cur);
    if k == |ch.events| || ch.events[k].time >= end {
      TotalLastRound(ch, cur, v, end);
    } else {
      var e := ch.events[k];
      assert PrefixLen(ch.events, e.time) > k;
      SegmentsTotal(ch, e.time, e.value, end);
      TotalNextRound(ch, cur, v, end);
    }
  }

  /** The window stop is never before end. */
  lemma {:induction false} WindowStopAtLeastEnd(es: seq<ChannelEvent>, end: int)
    ensures WindowStop(es, end) >= end
    decreases |es|
  {
    if es != [] && es[0].time < end {
      WindowStopAtLeastEnd(es[1..], end);
    }
  }

  /** Segments laid end to end from `from` each hold their symbol: every
      time t a segment spans has `value_at(t)` equal to that symbol. */
  predicate Covers(ch: Channel, segs: seq<Segment>, from: int)
    decreases |segs|
  {
    segs != [] ==>
      && (forall t :: from <= t < from + segs[0].duration ==> ValueAt(ch, t) == segs[0].symbol)
      && Covers(ch, segs[1..], from + segs[0].duration)
  }

  /** Between cur and the next event the scan stops at the same place. */
  lemma PrefixLenSame(es: seq<ChannelEvent>, cur: int, t: int)
    requires cur <= t
    requires PrefixLen(es, cur) == |es| || t < es[PrefixLen(es, cur)].time
    ensures PrefixLen(es, t) == PrefixLen(es, cur)
  {
    PrefixLenUnique(es, t, PrefixLen(es, cur));
  }

  /** The scan length is the only k whose prefix is no later than t and
      whose next event, if any, is later. */
  lemma {:induction false} PrefixLenUnique(es: seq<ChannelEvent>, t: int, k: nat)
    requires k <= |es| && forall i :: 0 <= i < k ==> es[i].time <= t
    requires k < |es| ==> es[k].time > t
    ensures PrefixLen(es, t) == k
    decreases |es|
  {
    if es != [] && es[0].time <= t {
      assert forall i :: 0 <= i < |es| - 1 ==> es[1..][i] == es[i + 1];
      PrefixLenUnique(es[1..], t, k - 1);
    }
  }

  /** The value held for d time units from cur, when no event comes
      before cur + d. */
  lemma ValueHeld(ch: Channel, cur: int, v: string, d: int)
    requires v == ValueAt(ch, cur)
    requires PrefixLen(ch.events, cur) == |ch.events| || cur + d <= ch.events[PrefixLen(ch.events, cur)].time
    ensures forall t :: cur <= t < cur + d ==> ValueAt(ch, t) == v
  {
    forall t | cur <= t < cur + d
      ensures ValueAt(ch, t) == v
    {
      PrefixLenSame(ch.events, cur, t);
    }
  }

  /** On strictly increasing events the value at an event's own time is that
      event's value. */
  lemma ValueAtEvent(ch: Channel, k: nat)
    requires StrictlyIncreasing(ch.events) && k < |ch.events|
    ensures ValueAt(ch, ch.events[k].time) == ch.events[k].value
  {
    var es := ch.events;
    if k + 1 < |es| {
      assert es[k + 1].time > es[k].time;
    }
    ValueAtLatest(ch, es[k].time, k);
  }

  lemma CoversCons(ch: Channel, s: Segment, rest: seq<Segment>, from: int)
    requires forall t :: from <= t < from + s.duration ==> ValueAt(ch, t) == s.symbol
    requires Covers(ch, rest, from + s.duration)
    ensures Covers(ch, [s] + rest, from)
  {
    assert ([s] + rest)[0] == s;
    assert ([s] + rest)[1..] == rest;
  }

  /** Starting from the value at cur, on strictly increasing events, every
      segment holds exactly the value `value_at` gives for the times it
      spans, the last one included even where it reaches past end. */
  lemma {:induction false} SegmentsCover(ch: Channel, cur: int, v: string, end: int)
    requires StrictlyIncreasing(ch.events) && v == ValueAt(ch, cur)
    ensures Covers(ch, Segments(ch, cur, v, end), cur)
    decreases |ch.events| - PrefixLen(ch.events, cur)
  {
    if cur < end {
      var es := ch.events;
      var k := PrefixLen(es, cur);
      if k == |es| {
        CoversLastRound(ch, cur, v, end);
      } else {
        var e := es[k];
        assert PrefixLen(es, e.time) > k;
        ValueAtEvent(ch, k);
        SegmentsCover(ch, e.time, e.value, end);
        CoversNextRound(ch, cur, v, end);
      }
    }
  }

  lemma CoversLastRound(ch: Channel, cur: int, v: string, end: int)
    requires v == ValueAt(ch, cur) && cur < end && PrefixLen(ch.events, cur) == |ch.events|
    ensures Covers(ch, Segments(ch, cur, v, end), cur)
  {
    SegmentsLast(ch, cur, v, end);
    ValueHeld(ch, cur, v, end - cur);
    CoversCons(ch, Segment(end - cur, v), [], cur);
  }

  lemma CoversNextRound(ch: Channel, cur: int, v: string, end: int)
    requires v == ValueAt(ch, cur) && cur < end && PrefixLen(ch.events, cur) < |ch.events|
    requires var e := ch.events[PrefixLen(ch.events, cur)];
      Covers(ch, Segments(ch, e.time, e.value, end), e.time)
    ensures Covers(ch, Segments(ch, cur, v, end), cur)
  {
    var e := ch.events[PrefixLen(ch.events, cur)];
    var first, rest := Segment(e.time - cur, v), Segments(ch, e.time, e.value, end);
    assert Segments(ch, cur, v, end) == [first] + rest by {
      SegmentsNext(ch, cur, v, end, PrefixLen(ch.events, cur));
    }
    assert forall t :: cur <= t < cur + first.duration ==> ValueAt(ch, t) == v by {
      ValueHeld(ch, cur, v, first.duration);
    }
    CoversCons(ch, first, rest, cur);
  }

  /** What `to_tikz_line` renders over [start, end) for strictly increasing
      events: 1 + (number of events strictly inside the window) segments, all
      of positive duration; the first holds `value_at(start)` and each later
      one the value of the event that opened it; together they last from
      start to the first event at or after end (or to end), which reaches
      past end whenever that event lies strictly after end; and at every time
      a segment spans, `value_at` gives that segment's symbol. */
  lemma WindowSegmentsSorted(ch: Channel, start: int, end: int)
    requires StrictlyIncreasing(ch.events) && start < end
    ensures |WindowSegments(ch, start, end)| == 1 + |Inside(ch.events, start, end)|
    ensures Symbols(WindowSegments(ch, start, end))
            == [ValueAt(ch, start)] + EventValues(Inside(ch.events, start, end))
    ensures forall i :: 0 <= i < |WindowSegments(ch, start, end)| ==> WindowSegments(ch, start, end)[i].duration > 0
    ensures TotalDuration(WindowSegments(ch, start, end)) == WindowStop(ch.events, end) - start
    ensures TotalDuration(WindowSegments(ch, start, end)) >= end - start
    ensures Covers(ch, WindowSegments(ch, start, end), start)
  {
    var segs := WindowSegments(ch, start, end);
    SegmentsSymbols(ch, start, ValueAt(ch, start), end);
    SegmentsTotal(ch, start, ValueAt(ch, start), end);
    WindowStopAtLeastEnd(ch.events, end);
    SegmentsCover(ch, start, ValueAt(ch, start), end);
    SymbolsLength(segs);
    EventValuesLength(Inside(ch.events, start, end));
  }

  lemma {:induction false} SymbolsLength(segs: seq<Segment>)
    ensures |Symbols(segs)| == |segs|
    decreases |segs|
  {
    if segs != [] {
      SymbolsLength(segs[1..]);
    }
  }

  lemma {:induction false} EventValuesLength(es: seq<ChannelEvent>)
    ensures |EventValues(es)| == |es|
    decreases |es|
  {
    if es != [] {
      EventValuesLength(es[1..]);
    }
  }

  // ---------------------------------------------------------------------
  // Lines and documents

  /** An empty or inverted window renders the name and the ampersand only. */
  lemma ToTikzLineEmptyWindow(ch: Channel, start: int, end: int)
    requires start >= end
    ensures ToTikzLine(ch, start, end) == ch.name + " &"
  {
    assert FormatSegments(WindowSegments(ch, start, end)) == [];
    assert [ch.name + " &"] + [] == [ch.name + " &"];
  }

  /** A channel without events renders one unknown segment over the whole
      window. */
  lemma ToTikzLineNoEvents(ch: Channel, start: int, end: int)
    requires ch.events == [] && start < end
    ensures ToTikzLine(ch, start, end) == ch.name + " & " + IntToString(end - start) + "{X}"
  {
    assert ValueAt(ch, start) == "X";
    assert WindowSegments(ch, start, end) == [Segment(end - start, "X")];
    var d := IntToString(end - start);
    assert FormatSegment(Segment(end - start, "X")) == d + "{X}" by {
      assert "{" + "X" + "}" == "{X}";
    }
    var parts := [ch.name + " &"] + FormatSegments(WindowSegments(ch, start, end));
    assert parts == [ch.name + " &", d + "{X}"];
    assert parts[1..] == [d + "{X}"];
    assert Join(parts, " ") == ch.name + " &" + " " + (d + "{X}");
    assert ch.name + " &" + " " == ch.name + " & ";
  }

  /** A filter keeps exactly the channels whose name it lists. */
  lemma {:induction false} SelectedMembers(cs: seq<Channel>, names: Option<set<string>>)
    ensures forall c :: c in Selected(cs, names) <==> c in cs && (names.None? || c.name in names.value)
    decreases |cs|
  {
    if names.Some? && cs != [] {
      SelectedMembers(cs[1..], names);
      assert cs == [cs[0]] + cs[1..];
    }
  }

  /** Filtering keeps the original order: it distributes over concatenation. */
  lemma {:induction false} SelectedAppend(a: seq<Channel>, b: seq<Channel>, names: Option<set<string>>)
    ensures Selected(a + b, names) == Selected(a, names) + Selected(b, names)
    decreases |a|
  {
    if a == [] {
      assert a + b == b;
    } else if names.Some? {
      ConsAppend(a, b);
      SelectedAppend(a[1..], b, names);
      var head := if a[0].name in names.value then [a[0]] else [];
      assert Selected(a + b, names) == head + Selected(a[1..] + b, names);
      assert Selected(a, names) == head + Selected(a[1..], names);
      AppendAssoc(head, Selected(a[1..], names), Selected(b, names));
    }
  }

  /** The document splits back into its lines: the begin marker, the
      tab-indented line of every selected channel in order, the end marker,
      provided no rendered line contains a newline. */
  lemma ToTikzSplits(sim: Simulation, start: int, end: int, names: Option<set<string>>)
    requires forall c :: c in Selected(sim.channels, names) ==> '\n' !in ToTikzLine(c, start, end)
    ensures Split(ToTikz(sim, start, end, names), '\n') == TikzLines(sim, start, end, names)
  {
    var lines := TikzLines(sim, start, end, names);
    var chosen := Selected(sim.channels, names);
    forall i | 0 <= i < |lines|
      ensures '\n' !in lines[i]
    {
      if 0 < i < |lines| - 1 {
        assert chosen[i - 1] in chosen;
        assert lines[i] == lines[1..|lines| - 1][i - 1] == IndentedLine(chosen[i - 1], start, end);
      }
    }
    SplitJoin(lines, '\n');
  }

  /** Channels rebuilt from tokens whose `$time` markers increase have
      strictly increasing events, so everything above applies to them. */
  lemma ChannelsIncreasing(tokens: seq<Token>)
    requires TL.Increasing(TL.TimesOf(tokens)) && ToChannels(tokens).Success?
    ensures forall i :: 0 <= i < |ToChannels(tokens).value| ==>
              StrictlyIncreasing(ToChannels(tokens).value[i].events)
  {
    var entries := Entries(D.ScopeVars(tokens).value);
    var chans := ToChannels(tokens).value;
    assert BuildChannels(entries, tokens) == Success(chans);
    forall i | 0 <= i < |chans|
      ensures StrictlyIncreasing(chans[i].events)
    {
      BuildChannelsAt(entries, tokens, i);
      ChannelProofs.ToEventsIncreasing(entries[i].group, tokens);
      var es := chans[i].events;
      assert forall a :: 0 <= a < |es| ==> Times(es)[a] == es[a].time;
    }
  }
}
