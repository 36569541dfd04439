/** Worked examples: the demonstration channels of `simulation.py`
    rendered by `to_tikz_line`. */
module Scenarios {
  import opened Channels
  import opened Text
  import opened Render
  import RenderProofs
  import opened Sequences

  /** The demonstration clock, its values written as the strings they
      format to. */
  function ClockChannel(): Channel {
    Channel(1, "teste", "clock", [
      ChannelEvent(0, "0"), ChannelEvent(10, "1"), ChannelEvent(20, "0"),
      ChannelEvent(30, "1"), ChannelEvent(40, "0"), ChannelEvent(50, "1")])
  }

  function EnableChannel(): Channel {
    Channel(1, "teste", "enable", [ChannelEvent(0, "0"), ChannelEvent(30, "1")])
  }

  /** `str(d)` for the durations the lines below print. */
  lemma TensToString()
    ensures IntToString(5) == "5"
    ensures IntToString(10) == "10" && IntToString(20) == "20"
    ensures IntToString(25) == "25" && IntToString(30) == "30"
  {
  }

  /** A segment whose duration prints as digits. */
  lemma FormatWith(s: Segment, digits: string)
    requires IntToString(s.duration) == digits
    ensures FormatSegment(s) == digits + "{" + s.symbol + "}"
  {
  }

  /** One round of the loop from cur when event k is the first later one. */
  lemma SegmentsAt(ch: Channel, cur: int, v: string, end: int, k: nat)
    requires cur < end && k < |ch.events| && ch.events[k].time > cur
    requires forall i :: 0 <= i < k ==> ch.events[i].time <= cur
    ensures Segments(ch, cur, v, end)
         == [Segment(ch.events[k].time - cur, v)] + Segments(ch, ch.events[k].time, ch.events[k].value, end)
  {
    RenderProofs.PrefixLenUnique(ch.events, cur, k);
    RenderProofs.SegmentsNext(ch, cur, v, end, k);
  }

  /** Before the second event the value is that of the first. */
  lemma ValueAtFirst(ch: Channel, t: int)
    requires |ch.events| > 0 && ch.events[0].time <= t
    requires |ch.events| == 1 || ch.events[1].time > t
    ensures ValueAt(ch, t) == ch.events[0].value
  {
    RenderProofs.PrefixLenUnique(ch.events, t, 1);
  }

  /** After the last event the loop emits one segment up to end. */
  lemma SegmentsEnd(ch: Channel, cur: int, v: string, end: int)
    requires cur < end
    requires forall i :: 0 <= i < |ch.events| ==> ch.events[i].time <= cur
    ensures Segments(ch, cur, v, end) == [Segment(end - cur, v)]
  {
    RenderProofs.PrefixLenUnique(ch.events, cur, |ch.events|);
    RenderProofs.SegmentsLast(ch, cur, v, end);
  }

  lemma FormatPair(a: Segment, b: Segment)
    ensures FormatSegments([a, b]) == [FormatSegment(a), FormatSegment(b)]
  {
  }

  lemma JoinThree(x: string, y: string, z: string)
    ensures Join([x, y, z], " ") == x + " " + y + " " + z
  {
    assert [x, y, z][1..] == [y, z];
    assert [y, z][1..] == [z];
    assert Join([y, z], " ") == y + " " + z;
    assert Join([x, y, z], " ") == x + " " + (y + " " + z);
    AppendAssoc(x + " ", y + " ", z);
    AppendAssoc(x + " ", y, " ");
  }

  lemma ConsPair<T>(x: T, y: T, z: T)
    ensures [x] + [y, z] == [x, y, z]
  {
  }

  /** The line of a window rendered as one segment. */
  lemma LineOfOne(ch: Channel, start: int, end: int, a: Segment)
    requires WindowSegments(ch, start, end) == [a]
    ensures ToTikzLine(ch, start, end) == ch.name + " & " + FormatSegment(a)
  {
    var head := ch.name + " &";
    assert FormatSegments([a]) == [FormatSegment(a)];
    assert [head] + [FormatSegment(a)] == [head, FormatSegment(a)];
    assert [head, FormatSegment(a)][1..] == [FormatSegment(a)];
    assert Join([head, FormatSegment(a)], " ") == head + " " + FormatSegment(a);
    AppendAssoc(ch.name, " &", " ");
  }

  /** The line of a window rendered as two segments. */
  lemma LineOfTwo(ch: Channel, start: int, end: int, a: Segment, b: Segment)
    requires WindowSegments(ch, start, end) == [a, b]
    ensures ToTikzLine(ch, start, end) == ch.name + " & " + FormatSegment(a) + " " + FormatSegment(b)
  {
    var head, fa, fb := ch.name + " &", FormatSegment(a), FormatSegment(b);
    FormatPair(a, b);
    ConsPair(head, fa, fb);
    JoinThree(head, fa, fb);
  }

  lemma ClockSegments()
    ensures WindowSegments(ClockChannel(), 5, 20) == [Segment(5, "0"), Segment(10, "1")]
  {
    var ch := ClockChannel();
    ValueAtFirst(ch, 5);
    var tail := Segments(ch, 10, "1", 20);
    assert tail == [Segment(10, "1")] by {
      SegmentsAt(ch, 10, "1", 20, 2);
    }
    assert Segments(ch, 5, "0", 20) == [Segment(5, "0")] + tail by {
      SegmentsAt(ch, 5, "0", 20, 1);
    }
    PairConcat(Segment(5, "0"), Segment(10, "1"));
  }

  /** The clock over [5, 20): the value at 5 for five units, then `1` for
      ten; the event at 20, on the end of the window, opens no segment. */
  lemma ClockLine()
    ensures ToTikzLine(ClockChannel(), 5, 20) == "clock & 5{0} 10{1}"
  {
    var a, b := Segment(5, "0"), Segment(10, "1");
    ClockSegments();
    LineOfTwo(ClockChannel(), 5, 20, a, b);
    TensToString();
    FormatWith(a, "5");
    FormatWith(b, "10");
    ClockText();
  }

  lemma ClockText()
    ensures "clock" + " & " + ("5" + "{" + "0" + "}") + " " + ("10" + "{" + "1" + "}") == "clock & 5{0} 10{1}"
  {
  }

  lemma EnableSegments()
    ensures WindowSegments(EnableChannel(), 0, 50) == [Segment(30, "0"), Segment(20, "1")]
  {
    var ch := EnableChannel();
    ValueAtFirst(ch, 0);
    var tail := Segments(ch, 30, "1", 50);
    assert tail == [Segment(20, "1")] by {
      SegmentsEnd(ch, 30, "1", 50);
    }
    assert Segments(ch, 0, "0", 50) == [Segment(30, "0")] + tail by {
      SegmentsAt(ch, 0, "0", 50, 1);
    }
    PairConcat(Segment(30, "0"), Segment(20, "1"));
  }

  /** The enable line over [0, 50): low for 30 units, then high until the
      end of the window. */
  lemma EnableLine()
    ensures ToTikzLine(EnableChannel(), 0, 50) == "enable & 30{0} 20{1}"
  {
    var a, b := Segment(30, "0"), Segment(20, "1");
    EnableSegments();
    LineOfTwo(EnableChannel(), 0, 50, a, b);
    TensToString();
    FormatWith(a, "30");
    FormatWith(b, "20");
    EnableText();
  }

  lemma EnableText()
    ensures "enable" + " & " + ("30" + "{" + "0" + "}") + " " + ("20" + "{" + "1" + "}") == "enable & 30{0} 20{1}"
  {
  }

  lemma OverrunSegments()
    ensures WindowSegments(EnableChannel(), 5, 15) == [Segment(25, "0")]
  {
    var ch := EnableChannel();
    ValueAtFirst(ch, 5);
    assert Segments(ch, 30, "1", 15) == [];
    assert Segments(ch, 5, "0", 15) == [Segment(25, "0")] + [] by {
      SegmentsAt(ch, 5, "0", 15, 1);
    }
    AppendEmpty([Segment(25, "0")]);
  }

  /** Over [5, 15) the single segment runs from 5 to the event at 30, past
      the end of the window. */
  lemma EnableLineOverrun()
    ensures ToTikzLine(EnableChannel(), 5, 15) == "enable & 25{0}"
  {
    var a := Segment(25, "0");
    OverrunSegments();
    LineOfOne(EnableChannel(), 5, 15, a);
    TensToString();
    FormatWith(a, "25");
    OverrunText();
  }

  lemma OverrunText()
    ensures "enable" + " & " + ("25" + "{" + "0" + "}") == "enable & 25{0}"
  {
  }
}
