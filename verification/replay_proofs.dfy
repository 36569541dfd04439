/** What `to_events` emits (lines 62-72), stated against the reference
    buffer `BufferAt`: each touched timestamp emits the join of the buffer
    at that moment, and the replay fails exactly at the first timestamp
    whose changes cannot be written or whose buffer cannot be joined. */
module ReplayProofs {
  import opened Wrappers
  import opened AssocLists
  import opened Tokens
  import opened Declarations
  import opened Timeline
  import opened Channels
  import opened ChannelProofs

  /** Every slot holds a string, so `''.join` succeeds. */
  predicate AllText(buf: seq<ChangeValue>) {
    forall s :: 0 <= s < |buf| ==> buf[s].Text?
  }

  /** Change j of cs is the first one with a matching declaration that has
      no slot in an n-slot buffer. */
  predicate FirstFaulty(vars: seq<VarDecl>, cs: seq<Change>, n: nat, j: int) {
    && 0 <= j < |cs|
    && Faulty(vars, cs[j], n)
    && forall l :: 0 <= l < j ==> !Faulty(vars, cs[l], n)
  }

  predicate HasFaulty(vars: seq<VarDecl>, cs: seq<Change>, n: nat) {
    exists j :: 0 <= j < |cs| && Faulty(vars, cs[j], n)
  }

  /** Timestamp i of the timeline raises when it is reached: one of its
      changes cannot be written, or it touches the group and the buffer
      after it holds a non-string. */
  predicate EntryFails(entries: Timeline, vars: seq<VarDecl>, buf: seq<ChangeValue>, i: int) {
    && 0 <= i < |entries|
    && (|| HasFaulty(vars, entries[i].1, |buf|)
        || (Touches(entries[i].1, IdCodes(vars)) && !AllText(BufferAt(entries, vars, buf, i + 1))))
  }

  /** The fault the timestamp entry raises in an n-slot buffer: the first
      unwritable change's, or the join's. */
  predicate FaultOf(vars: seq<VarDecl>, entry: (int, seq<Change>), n: nat, e: Fault) {
    var (time, cs) := entry;
    if HasFaulty(vars, cs, n) then
      exists j :: 0 <= j < |cs| && FirstFaulty(vars, cs, n, j) && e == BitIndexFault(time, cs[j].idCode)
    else e == NonTextValue(time)
  }

  /** The buffer a successful round leaves is the reference buffer. */
  lemma ApplyChangesBuffer(buf: seq<ChangeValue>, cs: seq<Change>, vars: seq<VarDecl>, time: int)
    requires ApplyChanges(buf, cs, vars, time).Success?
    ensures ApplyChanges(buf, cs, vars, time).value.buffer == BufferAfter(cs, vars, buf)
  {
  }

  /** A failing round raises for its first unwritable change. */
  lemma {:induction false} ApplyChangesFirstFault(buf: seq<ChangeValue>, cs: seq<Change>, vars: seq<VarDecl>, time: int)
    requires ApplyChanges(buf, cs, vars, time).Failure?
    ensures exists j :: FirstFaulty(vars, cs, |buf|, j)
                        && ApplyChanges(buf, cs, vars, time).error == BitIndexFault(time, cs[j].idCode)
    decreases |cs|
  {
    var p := cs[..|cs| - 1];
    var c := cs[|cs| - 1];
    assert forall l :: 0 <= l < |p| ==> p[l] == cs[l];
    var w := ApplyChanges(buf, p, vars, time);
    if w.Failure? {
      ApplyChangesFirstFault(buf, p, vars, time);
      var j :| FirstFaulty(vars, p, |buf|, j) && w.error == BitIndexFault(time, p[j].idCode);
      assert FirstFaulty(vars, cs, |buf|, j);
    } else {
      assert forall l :: 0 <= l < |p| ==> !Faulty(vars, p[l], |buf|);
      assert ApplyChanges(buf, cs, vars, time) == ApplyChange(w.value.buffer, c, vars, time).PropagateFailure();
      assert FirstFaulty(vars, cs, |buf|, |cs| - 1);
    }
  }

  /** Replaying the timestamps after the first from the buffer the first
      leaves gives the same reference buffers. */
  lemma {:induction false} BufferAtShift(entries: Timeline, vars: seq<VarDecl>, buf: seq<ChangeValue>, i: nat)
    requires 0 < |entries| && i < |entries|
    ensures BufferAt(entries, vars, buf, i + 1)
         == BufferAt(entries[1..], vars, BufferAfter(entries[0].1, vars, buf), i)
  {
    if i > 0 {
      BufferAtShift(entries, vars, buf, i - 1);
      assert entries[1..][i - 1] == entries[i];
    }
  }

  lemma {:induction false} TouchedCountShift(entries: Timeline, ids: set<string>, i: nat)
    requires 0 < |entries| && i < |entries|
    ensures TouchedCount(entries, ids, i + 1)
         == (if Touches(entries[0].1, ids) then 1 else 0) + TouchedCount(entries[1..], ids, i)
  {
    if i > 0 {
      TouchedCountShift(entries, ids, i - 1);
      assert entries[1..][i - 1] == entries[i];
    }
  }

  /** One round of the outer loop on a successful replay. */
  lemma ReplayRound(entries: Timeline, vars: seq<VarDecl>, buf: seq<ChangeValue>)
    requires entries != [] && Replay(entries, vars, buf).Success?
    ensures var (time, cs) := entries[0];
      && ApplyChanges(buf, cs, vars, time).Success?
      && var w := ApplyChanges(buf, cs, vars, time).value;
      && Replay(entries[1..], vars, w.buffer).Success?
      && (w.touched ==> JoinBuffer(w.buffer, time).Success?)
      && Replay(entries, vars, buf).value
         == (if w.touched then [ChannelEvent(time, JoinBuffer(w.buffer, time).value)] else [])
            + Replay(entries[1..], vars, w.buffer).value
  {
  }

  /** Event values: on a successful replay, a timestamp i whose changes touch
      the group emits the event at position `TouchedCount(entries, ids, i)`,
      with time i's timestamp and value the join of the buffer after
      timestamp i. */
  lemma {:induction false} ReplayEventValues(entries: Timeline, vars: seq<VarDecl>, buf: seq<ChangeValue>, i: nat)
    requires Replay(entries, vars, buf).Success?
    requires i < |entries| && Touches(entries[i].1, IdCodes(vars))
    ensures var k := TouchedCount(entries, IdCodes(vars), i);
      && k < |Replay(entries, vars, buf).value|
      && Replay(entries, vars, buf).value[k].time == entries[i].0
      && JoinBuffer(BufferAt(entries, vars, buf, i + 1), entries[i].0)
         == Success(Replay(entries, vars, buf).value[k].value)
    decreases |entries|
  {
    if i == 0 {
      FirstEventValue(entries, vars, buf);
    } else {
      var (time, cs) := entries[0];
      ReplayRound(entries, vars, buf);
      var w := ApplyChanges(buf, cs, vars, time).value;
      ReplayEventValues(entries[1..], vars, w.buffer, i - 1);
      LaterEventValue(entries, vars, buf, i);
    }
  }

  lemma FirstEventValue(entries: Timeline, vars: seq<VarDecl>, buf: seq<ChangeValue>)
    requires Replay(entries, vars, buf).Success?
    requires 0 < |entries| && Touches(entries[0].1, IdCodes(vars))
    ensures 0 < |Replay(entries, vars, buf).value|
    ensures Replay(entries, vars, buf).value[0].time == entries[0].0
    ensures JoinBuffer(BufferAt(entries, vars, buf, 1), entries[0].0)
         == Success(Replay(entries, vars, buf).value[0].value)
  {
    var (time, cs) := entries[0];
    ReplayRound(entries, vars, buf);
    var w := ApplyChanges(buf, cs, vars, time).value;
    ApplyChangesBuffer(buf, cs, vars, time);
    assert BufferAt(entries, vars, buf, 1) == w.buffer;
    assert w.touched;
    var ev := Replay(entries, vars, buf).value;
    assert ev[0] == ChannelEvent(time, JoinBuffer(w.buffer, time).value);
  }

  /** The induction step: event k' of the rest is event k of the whole. */
  lemma LaterEventValue(entries: Timeline, vars: seq<VarDecl>, buf: seq<ChangeValue>, i: nat)
    requires Replay(entries, vars, buf).Success?
    requires 0 < i < |entries| && Touches(entries[i].1, IdCodes(vars))
    requires var w := ApplyChanges(buf, entries[0].1, vars, entries[0].0);
      && w.Success?
      && var rest := Replay(entries[1..], vars, w.value.buffer);
      && var k' := TouchedCount(entries[1..], IdCodes(vars), i - 1);
      && rest.Success? && k' < |rest.value|
      && rest.value[k'].time == entries[1..][i - 1].0
      && JoinBuffer(BufferAt(entries[1..], vars, w.value.buffer, i), entries[1..][i - 1].0)
         == Success(rest.value[k'].value)
    ensures var k := TouchedCount(entries, IdCodes(vars), i);
      && k < |Replay(entries, vars, buf).value|
      && Replay(entries, vars, buf).value[k].time == entries[i].0
      && JoinBuffer(BufferAt(entries, vars, buf, i + 1), entries[i].0)
         == Success(Replay(entries, vars, buf).value[k].value)
  {
    var (time, cs) := entries[0];
    var w := ApplyChanges(buf, cs, vars, time).value;
    var rest := Replay(entries[1..], vars, w.buffer).value;
    var emitted := LaterIndex(entries, vars, buf, i);
    ApplyChangesBuffer(buf, cs, vars, time);
    assert entries[1..][i - 1] == entries[i];
    BufferAtShift(entries, vars, buf, i);
    var k' := TouchedCount(entries[1..], IdCodes(vars), i - 1);
    var joined := JoinBuffer(BufferAt(entries, vars, buf, i + 1), entries[i].0);
    assert joined == Success(rest[k'].value);
    ShiftEvent(Replay(entries, vars, buf).value, emitted, rest, k', entries[i].0, joined);
  }

  /** The events of a successful replay are those of the first round, then
      those of the rest; the count of touched timestamps shifts by the
      first round's. */
  lemma LaterIndex(entries: Timeline, vars: seq<VarDecl>, buf: seq<ChangeValue>, i: nat) returns (emitted: seq<ChannelEvent>)
    requires Replay(entries, vars, buf).Success?
    requires 0 < i < |entries|
    ensures var w := ApplyChanges(buf, entries[0].1, vars, entries[0].0);
      && w.Success?
      && Replay(entries[1..], vars, w.value.buffer).Success?
      && Replay(entries, vars, buf).value == emitted + Replay(entries[1..], vars, w.value.buffer).value
      && TouchedCount(entries, IdCodes(vars), i) == |emitted| + TouchedCount(entries[1..], IdCodes(vars), i - 1)
  {
    var (time, cs) := entries[0];
    ReplayRound(entries, vars, buf);
    var w := ApplyChanges(buf, cs, vars, time).value;
    emitted := if w.touched then [ChannelEvent(time, JoinBuffer(w.buffer, time).value)] else [];
    TouchedCountShift(entries, IdCodes(vars), i - 1);
    assert w.touched == Touches(cs, IdCodes(vars));
  }

  lemma ShiftEvent(ev: seq<ChannelEvent>, emitted: seq<ChannelEvent>, rest: seq<ChannelEvent>, k': nat,
                   t: int, joined: Result<string, Fault>)
    requires ev == emitted + rest && k' < |rest|
    requires rest[k'].time == t && joined == Success(rest[k'].value)
    ensures |emitted| + k' < |ev| && ev[|emitted| + k'].time == t && joined == Success(ev[|emitted| + k'].value)
  {
  }

  /** Timestamp i + 1 fails from buf exactly when timestamp i of the rest
      fails from the buffer the first timestamp leaves. */
  lemma EntryFailsShift(entries: Timeline, vars: seq<VarDecl>, buf: seq<ChangeValue>, i: nat)
    requires 0 < |entries| && i + 1 < |entries|
    ensures var buf' := BufferAfter(entries[0].1, vars, buf);
      && (EntryFails(entries, vars, buf, i + 1) <==> EntryFails(entries[1..], vars, buf', i))
      && entries[1..][i] == entries[i + 1]
  {
    var tail, buf' := entries[1..], BufferAfter(entries[0].1, vars, buf);
    var cs := entries[i + 1].1;
    assert tail[i] == entries[i + 1];
    BufferAtShift(entries, vars, buf, i + 1);
    var after := BufferAt(entries, vars, buf, i + 2);
    assert after == BufferAt(tail, vars, buf', i + 1);
    assert EntryFails(entries, vars, buf, i + 1) <==>
      HasFaulty(vars, cs, |buf|) || (Touches(cs, IdCodes(vars)) && !AllText(after));
    assert EntryFails(tail, vars, buf', i) <==>
      HasFaulty(vars, cs, |buf'|) || (Touches(cs, IdCodes(vars)) && !AllText(after));
  }

  /** The first round fails exactly when timestamp 0 fails, with its fault. */
  lemma FirstRoundFails(entries: Timeline, vars: seq<VarDecl>, buf: seq<ChangeValue>)
    requires entries != []
    ensures var (time, cs) := entries[0];
      var a := ApplyChanges(buf, cs, vars, time);
      && (EntryFails(entries, vars, buf, 0) <==>
            a.Failure? || (a.value.touched && JoinBuffer(a.value.buffer, time).Failure?))
      && (a.Failure? ==> FaultOf(vars, entries[0], |buf|, a.error))
      && (a.Success? && a.value.touched && JoinBuffer(a.value.buffer, time).Failure? ==>
            FaultOf(vars, entries[0], |buf|, JoinBuffer(a.value.buffer, time).error))
  {
    var (time, cs) := entries[0];
    var a := ApplyChanges(buf, cs, vars, time);
    if a.Failure? {
      ApplyChangesFirstFault(buf, cs, vars, time);
    } else {
      ApplyChangesBuffer(buf, cs, vars, time);
      assert BufferAt(entries, vars, buf, 1) == a.value.buffer;
    }
  }

  /** The replay fails exactly when some timestamp fails, and then with the
      fault of the first failing timestamp. */
  lemma {:induction false} ReplayFailsIff(entries: Timeline, vars: seq<VarDecl>, buf: seq<ChangeValue>)
    ensures Replay(entries, vars, buf).Failure? <==> exists i :: EntryFails(entries, vars, buf, i)
    ensures Replay(entries, vars, buf).Failure? ==>
      exists i :: && EntryFails(entries, vars, buf, i)
                  && (forall j :: 0 <= j < i ==> !EntryFails(entries, vars, buf, j))
                  && FaultOf(vars, entries[i], |buf|, Replay(entries, vars, buf).error)
    decreases |entries|
  {
    if entries != [] {
      var (time, cs) := entries[0];
      var a := ApplyChanges(buf, cs, vars, time);
      FirstRoundFails(entries, vars, buf);
      if !EntryFails(entries, vars, buf, 0) {
        var w := a.value;
        ApplyChangesBuffer(buf, cs, vars, time);
        var tail := entries[1..];
        ReplayFailsIff(tail, vars, w.buffer);
        assert Replay(entries, vars, buf).Failure? <==> Replay(tail, vars, w.buffer).Failure?;
        forall i | 0 <= i < |tail|
          ensures EntryFails(entries, vars, buf, i + 1) <==> EntryFails(tail, vars, w.buffer, i)
          ensures tail[i] == entries[i + 1]
        {
          EntryFailsShift(entries, vars, buf, i);
        }
        if Replay(tail, vars, w.buffer).Failure? {
          var i :| && EntryFails(tail, vars, w.buffer, i)
                   && (forall j :: 0 <= j < i ==> !EntryFails(tail, vars, w.buffer, j))
                   && FaultOf(vars, tail[i], |w.buffer|, Replay(tail, vars, w.buffer).error);
          assert Replay(entries, vars, buf).error == Replay(tail, vars, w.buffer).error;
          assert EntryFails(entries, vars, buf, i + 1);
          forall j | 0 <= j < i + 1
            ensures !EntryFails(entries, vars, buf, j)
          {
            if j > 0 {
              assert !EntryFails(tail, vars, w.buffer, j - 1);
            }
          }
        } else {
          forall i | 0 <= i < |entries|
            ensures !EntryFails(entries, vars, buf, i)
          {
            if i > 0 {
              assert !EntryFails(tail, vars, w.buffer, i - 1);
            }
          }
        }
      }
    }
  }

  /** `to_events` of a group: timestamp i of the timeline, when it touches
      the group, emits event `TouchedCount(timeline, ids, i)`, whose value is
      the join of the group's buffer after timestamp i. */
  lemma ToEventsValues(group: Group, tokens: seq<Token>, i: nat)
    requires ToEvents(group, tokens).Success?
    requires i < |TimeChanges(tokens).value|
    requires Touches(TimeChanges(tokens).value[i].1, IdCodes(Values(group)))
    ensures var timeline := TimeChanges(tokens).value;
      var events := ToEvents(group, tokens).value;
      var k := TouchedCount(timeline, IdCodes(Values(group)), i);
      && k < |events|
      && events[k].time == timeline[i].0
      && JoinBuffer(BufferAt(timeline, Values(group), InitialBuffer(|group|), i + 1), timeline[i].0)
         == Success(events[k].value)
  {
    ToEventsIgnoresSort(group, tokens);
    ReplayEventValues(TimeChanges(tokens).value, Values(group), InitialBuffer(|group|), i);
  }

  /** `to_events` of a group fails exactly when the group cannot be sorted,
      the timeline fails, or some timestamp fails; in the last case with the
      fault of the first failing timestamp. */
  lemma ToEventsFailsIff(group: Group, tokens: seq<Token>)
    ensures ToEvents(group, tokens).Failure? <==>
      || !Orderable(Values(group))
      || TimeChanges(tokens).Failure?
      || exists i :: EntryFails(TimeChanges(tokens).value, Values(group), InitialBuffer(|group|), i)
    ensures Orderable(Values(group)) && TimeChanges(tokens).Success? && ToEvents(group, tokens).Failure? ==>
      var timeline := TimeChanges(tokens).value;
      var buf := InitialBuffer(|group|);
      exists i :: && EntryFails(timeline, Values(group), buf, i)
                  && (forall j :: 0 <= j < i ==> !EntryFails(timeline, Values(group), buf, j))
                  && FaultOf(Values(group), timeline[i], |group|, ToEvents(group, tokens).error)
  {
    if Orderable(Values(group)) && TimeChanges(tokens).Success? {
      ToEventsIgnoresSort(group, tokens);
      ReplayFailsIff(TimeChanges(tokens).value, Values(group), InitialBuffer(|group|));
    }
  }
}
