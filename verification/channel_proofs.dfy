/** Properties of channel reconstruction: the sort does not matter, values
    keep the group's width, and increasing markers give increasing event
    times. */
module ChannelProofs {
  import opened Wrappers
  import opened AssocLists
  import opened Tokens
  import opened Declarations
  import opened Timeline
  import opened Channels

  /** Which slot a change writes depends only on which declarations the group
      holds, not on the order in which the loop visits them. */
  lemma ApplyChangeOrderFree(buf: seq<ChangeValue>, c: Change, a: seq<VarDecl>, b: seq<VarDecl>, time: int)
    requires forall v :: v in a <==> v in b
    ensures ApplyChange(buf, c, a, time) == ApplyChange(buf, c, b, time)
  {
    var ra := ApplyChange(buf, c, a, time);
    var rb := ApplyChange(buf, c, b, time);
    assert Faulty(a, c, |buf|) <==> Faulty(b, c, |buf|);
    if ra.Success? {
      assert IdCodes(a) == IdCodes(b);
      assert forall s :: WrittenBy(a, c, |buf|, s) <==> WrittenBy(b, c, |buf|, s);
      assert ra.value.buffer == rb.value.buffer;
    }
  }

  lemma {:induction false} ApplyChangesOrderFree(buf: seq<ChangeValue>, cs: seq<Change>, a: seq<VarDecl>, b: seq<VarDecl>, time: int)
    requires forall v :: v in a <==> v in b
    ensures ApplyChanges(buf, cs, a, time) == ApplyChanges(buf, cs, b, time)
    decreases |cs|
  {
    if cs != [] {
      var p := cs[..|cs| - 1];
      ApplyChangesOrderFree(buf, p, a, b, time);
      var w := ApplyChanges(buf, p, a, time);
      if w.Success? {
        ApplyChangeOrderFree(w.value.buffer, cs[|cs| - 1], a, b, time);
      }
    }
  }

  lemma {:induction false} ReplayOrderFree(entries: Timeline, a: seq<VarDecl>, b: seq<VarDecl>, buf: seq<ChangeValue>)
    requires forall v :: v in a <==> v in b
    ensures Replay(entries, a, buf) == Replay(entries, b, buf)
    decreases |entries|
  {
    if entries != [] {
      var (time, cs) := entries[0];
      ApplyChangesOrderFree(buf, cs, a, b, time);
      var w := ApplyChanges(buf, cs, a, time);
      if w.Success? {
        ReplayOrderFree(entries[1..], a, b, w.value.buffer);
      }
    }
  }

  /** The descending sort of line 61 does not change the outcome: replaying
      the declarations in the group's own order gives the same events and
      the same faults. */
  lemma ToEventsIgnoresSort(group: Group, tokens: seq<Token>)
    requires Orderable(Values(group))
    requires TimeChanges(tokens).Success?
    ensures ToEvents(group, tokens) == Replay(TimeChanges(tokens).value, Values(group), InitialBuffer(|group|))
  {
    var vars := Values(group);
    SameMembers(SortDescending(vars), vars);
    ReplayOrderFree(TimeChanges(tokens).value, SortDescending(vars), vars, InitialBuffer(|group|));
  }

  /** Every slot holds a one-character string. */
  predicate SingleChars(buf: seq<ChangeValue>) {
    forall i :: 0 <= i < |buf| ==> buf[i].Text? && |buf[i].text| == 1
  }

  /** Every change of the timeline carries a one-character string, as scalar
      changes do. */
  predicate SingleCharChanges(entries: Timeline) {
    forall i, j :: 0 <= i < |entries| && 0 <= j < |entries[i].1| ==>
      entries[i].1[j].value.Text? && |entries[i].1[j].value.text| == 1
  }

  lemma ApplyChangesKeepsSingleChars(buf: seq<ChangeValue>, cs: seq<Change>, vars: seq<VarDecl>, time: int)
    requires SingleChars(buf)
    requires forall j :: 0 <= j < |cs| ==> cs[j].value.Text? && |cs[j].value.text| == 1
    requires ApplyChanges(buf, cs, vars, time).Success?
    ensures SingleChars(ApplyChanges(buf, cs, vars, time).value.buffer)
  {
    var r := ApplyChanges(buf, cs, vars, time).value.buffer;
    forall s | 0 <= s < |r|
      ensures r[s].Text? && |r[s].text| == 1
    {
      var last := LastWrite(cs, vars, |buf|, s);
      if last.Some? {
        var i :| 0 <= i < |cs| && last.value == cs[i].value;
      }
    }
  }

  /** Merge-order invariant: when every change is a single character, every
      event's value has exactly one character per buffer slot, whatever the
      order of the declarations. */
  lemma {:induction false} ReplayKeepsWidth(entries: Timeline, vars: seq<VarDecl>, buf: seq<ChangeValue>)
    requires SingleCharChanges(entries) && SingleChars(buf)
    ensures Replay(entries, vars, buf).Success?
            ==> forall k :: 0 <= k < |Replay(entries, vars, buf).value| ==>
                  |Replay(entries, vars, buf).value[k].value| == |buf|
    decreases |entries|
  {
    if entries != [] && Replay(entries, vars, buf).Success? {
      var (time, cs) := entries[0];
      assert forall j :: 0 <= j < |cs| ==> cs[j] == entries[0].1[j];
      var w := ApplyChanges(buf, cs, vars, time).value;
      ApplyChangesKeepsSingleChars(buf, cs, vars, time);
      assert SingleCharChanges(entries[1..]) by {
        assert forall i :: 0 <= i < |entries| - 1 ==> entries[1..][i] == entries[i + 1];
      }
      ReplayKeepsWidth(entries[1..], vars, w.buffer);
    }
  }

  /** The group's channel width follows: each event of `to_events` is as
      long as the group has sibling declarations. */
  lemma ToEventsWidth(group: Group, tokens: seq<Token>)
    requires TimeChanges(tokens).Success? && SingleCharChanges(TimeChanges(tokens).value)
    requires ToEvents(group, tokens).Success?
    ensures forall k :: 0 <= k < |ToEvents(group, tokens).value| ==>
              |ToEvents(group, tokens).value[k].value| == |group|
  {
    ReplayKeepsWidth(TimeChanges(tokens).value, SortDescending(Values(group)), InitialBuffer(|group|));
  }

  lemma IncreasingCons(x: int, tail: seq<int>)
    requires Increasing(tail) && forall j :: 0 <= j < |tail| ==> tail[j] > x
    ensures Increasing([x] + tail)
  {
    var r := [x] + tail;
    forall i, j | 0 <= i < j < |r|
      ensures r[i] < r[j]
    {
      assert r[j] == tail[j - 1];
      if i > 0 {
        assert r[i] == tail[i - 1];
      }
    }
  }

  /** Every event time of a group is a timestamp of the timeline. */
  lemma {:induction false} TouchedTimesAreKeys(entries: Timeline, ids: set<string>)
    ensures forall j :: 0 <= j < |TouchedTimes(entries, ids)| ==>
              exists i :: 0 <= i < |entries| && TouchedTimes(entries, ids)[j] == entries[i].0
    decreases |entries|
  {
    if entries != [] {
      var rest := entries[1..];
      TouchedTimesAreKeys(rest, ids);
      var head: seq<int> := if Touches(entries[0].1, ids) then [entries[0].0] else [];
      var tail := TouchedTimes(rest, ids);
      var r := TouchedTimes(entries, ids);
      assert r == head + tail;
      forall j | 0 <= j < |r|
        ensures exists i :: 0 <= i < |entries| && r[j] == entries[i].0
      {
        if j < |head| {
          assert r[j] == entries[0].0;
        } else {
          var i :| 0 <= i < |rest| && tail[j - |head|] == rest[i].0;
          assert r[j] == entries[i + 1].0;
        }
      }
    } else {
      assert TouchedTimes(entries, ids) == [];
    }
  }

  /** The event times of a group come in timeline order. */
  lemma {:induction false} TouchedTimesIncreasing(entries: Timeline, ids: set<string>)
    requires Increasing(Keys(entries))
    ensures Increasing(TouchedTimes(entries, ids))
    decreases |entries|
  {
    if entries != [] {
      var rest := entries[1..];
      assert Increasing(Keys(rest)) by {
        assert forall i :: 0 <= i < |rest| ==> Keys(rest)[i] == Keys(entries)[i + 1];
      }
      TouchedTimesIncreasing(rest, ids);
      TouchedTimesAreKeys(rest, ids);
      var tail := TouchedTimes(rest, ids);
      if Touches(entries[0].1, ids) {
        forall j | 0 <= j < |tail|
          ensures tail[j] > entries[0].0
        {
          var i :| 0 <= i < |rest| && tail[j] == rest[i].0;
          assert Keys(entries)[0] < Keys(entries)[i + 1];
        }
        IncreasingCons(entries[0].0, tail);
      }
    }
  }

  /** When the `$time` markers increase, so do the times of every group's
      events: the timeline keeps them in token order and a group only skips
      some of them. */
  lemma ToEventsIncreasing(group: Group, tokens: seq<Token>)
    requires Increasing(TimesOf(tokens))
    requires ToEvents(group, tokens).Success?
    ensures Increasing(Times(ToEvents(group, tokens).value))
  {
    TimeChangesKeepsOrder(tokens);
    TouchedTimesIncreasing(TimeChanges(tokens).value, IdCodes(Values(group)));
  }
}
