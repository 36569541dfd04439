/** The timeline builder (`VcdSimulation.time_changes`): one pass over the
    tokens with a single "current time" slot, building
    timestamp -> changes recorded at that timestamp, in token order. */
module Timeline {
  import opened Wrappers
  import opened AssocLists
  import opened Tokens
  import opened Sequences

  type Timeline = AList<int, seq<Change>>

  /** The fold state: the timeline so far and the current time, if any. */
  datatype Clock = Clock(acc: Timeline, time: Option<int>)

  /** The token test of line 53 as written. Python reads the chain
      `k == REAL == k == STRING` as `k == REAL and REAL == k and k == STRING`,
      which no token satisfies, so real and string changes are never
      recorded. */
  function IsRecorded(t: Token): (r: bool)
    ensures r <==> t.Scalar? || t.Vector?
  {
    t.Scalar? || t.Vector? || (t.Real? && t.Real? && t.String?)
  }

  /** The payload of a recorded change. */
  function ChangeOf(t: Token): Change
    requires IsRecorded(t)
  {
    t.change
  }

  /** The values of the `$time` markers of ts, in order. */
  function TimesOf(ts: seq<Token>): (r: seq<int>)
    ensures r == [] <==> forall j :: 0 <= j < |ts| ==> !ts[j].Time?
    decreases |ts|
  {
    if ts == [] then []
    else
      var p := ts[..|ts| - 1];
      assert forall j :: 0 <= j < |p| ==> p[j] == ts[j];
      if ts[|ts| - 1].Time? then TimesOf(p) + [ts[|ts| - 1].time] else TimesOf(p)
  }

  /** The current time once ts has been consumed: the last marker's value. */
  function LastTime(ts: seq<Token>): Option<int> {
    var times := TimesOf(ts);
    if times == [] then None else Some(times[|times| - 1])
  }

  /** The payloads of all scalar and vector changes of ts, in order. */
  function RecordedChanges(ts: seq<Token>): seq<Change>
    decreases |ts|
  {
    if ts == [] then []
    else
      var t := ts[|ts| - 1];
      RecordedChanges(ts[..|ts| - 1]) + (if IsRecorded(t) then [ChangeOf(t)] else [])
  }

  /** One iteration of the loop body. */
  function Step(c: Clock, t: Token, pos: nat): (r: Result<Clock, Fault>)
    ensures t.Time? ==>
      && r.Success?
      && r.value.time == Some(t.time)
      && Get(r.value.acc, t.time) == Some([])
      && forall k :: k != t.time ==> Get(r.value.acc, k) == Get(c.acc, k)
    ensures IsRecorded(t) && c.time.None? ==> r == Failure(ChangeBeforeTime(pos))
    ensures IsRecorded(t) && c.time.Some? ==>
      && r.Success?
      && r.value.time == c.time
      && Get(r.value.acc, c.time.value) == Some(Get(c.acc, c.time.value).GetOr([]) + [ChangeOf(t)])
      && forall k :: k != c.time.value ==> Get(r.value.acc, k) == Get(c.acc, k)
    ensures !t.Time? && !IsRecorded(t) ==> r == Success(c)
  {
    if t.Time? then
      Success(Clock(Put(c.acc, t.time, []), Some(t.time)))
    else if IsRecorded(t) then
      if c.time.None? then Failure(ChangeBeforeTime(pos))
      else
        var now := c.time.value;
        Success(Clock(Put(c.acc, now, Get(c.acc, now).GetOr([]) + [ChangeOf(t)]), c.time))
    else
      Success(c)
  }

  /** The loop over ts, run left to right; the first fault aborts it. */
  function Fold(ts: seq<Token>): (r: Result<Clock, Fault>)
    ensures r.Success? ==> r.value.time == LastTime(ts)
    decreases |ts|
  {
    if ts == [] then Success(Clock([], None))
    else
      var c :- Fold(ts[..|ts| - 1]);
      Step(c, ts[|ts| - 1], |ts| - 1)
  }

  /** `VcdSimulation.time_changes`. */
  function TimeChanges(ts: seq<Token>): Result<Timeline, Fault> {
    var c :- Fold(ts);
    Success(c.acc)
  }

  /** A scalar or vector change at position i with no `$time` before it. */
  predicate Untimed(ts: seq<Token>, i: int) {
    0 <= i < |ts| && IsRecorded(ts[i]) && forall j :: 0 <= j < i ==> !ts[j].Time?
  }

  predicate Distinct(xs: seq<int>) {
    forall i, j :: 0 <= i < j < |xs| ==> xs[i] != xs[j]
  }

  predicate Increasing(xs: seq<int>) {
    forall i, j :: 0 <= i < j < |xs| ==> xs[i] < xs[j]
  }

  function Flatten<T>(xss: seq<seq<T>>): seq<T>
    decreases |xss|
  {
    if xss == [] then [] else Flatten(xss[..|xss| - 1]) + xss[|xss| - 1]
  }

  /** The timeline fails to build exactly when a scalar or vector change
      precedes every `$time`, and the fault names the first such change. */
  lemma {:induction false} TimeChangesFailsIff(ts: seq<Token>)
    ensures TimeChanges(ts).Failure? <==> exists i :: Untimed(ts, i)
    ensures TimeChanges(ts).Failure? ==>
      exists i :: Untimed(ts, i) && TimeChanges(ts).error == ChangeBeforeTime(i)
                  && forall j :: 0 <= j < i ==> !IsRecorded(ts[j])
  {
    FoldFailsIff(ts);
  }

  lemma {:induction false} FoldFailsIff(ts: seq<Token>)
    ensures Fold(ts).Failure? <==> exists i :: Untimed(ts, i)
    ensures Fold(ts).Failure? ==>
      exists i :: Untimed(ts, i) && Fold(ts).error == ChangeBeforeTime(i)
                  && forall j :: 0 <= j < i ==> !IsRecorded(ts[j])
    decreases |ts|
  {
    if ts != [] {
      var p := ts[..|ts| - 1];
      var t := ts[|ts| - 1];
      FoldFailsIff(p);
      assert forall j :: 0 <= j < |p| ==> p[j] == ts[j];
      if Fold(p).Failure? {
        var i :| Untimed(p, i) && Fold(p).error == ChangeBeforeTime(i)
                 && forall j :: 0 <= j < i ==> !IsRecorded(p[j]);
        assert Untimed(ts, i);
        assert Fold(ts) == Failure(Fold(p).error);
      } else {
        var c := Fold(p).value;
        assert Fold(ts) == Step(c, t, |ts| - 1);
        if IsRecorded(t) && c.time.None? {
          assert Untimed(ts, |ts| - 1);
          forall j | 0 <= j < |ts| - 1
            ensures !IsRecorded(ts[j])
          {
            assert !Untimed(p, j);
          }
        } else {
          forall i | 0 <= i < |ts|
            ensures !Untimed(ts, i)
          {
            if i < |p| {
              assert !Untimed(p, i);
            }
          }
        }
      }
    }
  }

  lemma FlattenValuesAppend(m: Timeline, k: int, l: seq<Change>)
    ensures Keys(m + [(k, l)]) == Keys(m) + [k]
    ensures Flatten(Values(m + [(k, l)])) == Flatten(Values(m)) + l
  {
    var vs := Values(m + [(k, l)]);
    assert vs[..|vs| - 1] == Values(m);
  }

  /** Extending the change list of the last entry extends the flattened
      changes at their end. */
  lemma FlattenValuesExtendLast(init: Timeline, k: int, l: seq<Change>, c: Change)
    ensures Keys(init + [(k, l + [c])]) == Keys(init + [(k, l)])
    ensures Flatten(Values(init + [(k, l + [c])])) == Flatten(Values(init + [(k, l)])) + [c]
  {
    FlattenValuesAppend(init, k, l);
    FlattenValuesAppend(init, k, l + [c]);
    assert Flatten(Values(init)) + (l + [c]) == Flatten(Values(init)) + l + [c];
  }

  /** With pairwise distinct timestamps nothing is lost or reordered: the
      keys are the timestamps in token order and the change lists, read in
      key order, are exactly the scalar and vector changes in token order. */
  lemma {:induction false} TimeChangesKeepsOrder(ts: seq<Token>)
    requires Distinct(TimesOf(ts))
    requires TimeChanges(ts).Success?
    ensures Keys(TimeChanges(ts).value) == TimesOf(ts)
    ensures Flatten(Values(TimeChanges(ts).value)) == RecordedChanges(ts)
    decreases |ts|
  {
    if ts != [] {
      var p := ts[..|ts| - 1];
      var t := ts[|ts| - 1];
      var c := Fold(p).value;
      var times := TimesOf(p);
      assert TimesOf(ts) == if t.Time? then times + [t.time] else times;
      DistinctPrefix(times, TimesOf(ts));
      TimeChangesKeepsOrder(p);
      assert TimeChanges(ts).value == Step(c, t, |ts| - 1).value.acc;
      StepKeepsOrder(c, t, |ts| - 1, times);
    }
  }

  /** One step of the loop keeps the keys equal to the markers seen and the
      flattened lists equal to the changes seen. */
  lemma StepKeepsOrder(c: Clock, t: Token, pos: nat, times: seq<int>)
    requires Keys(c.acc) == times && Distinct(if t.Time? then times + [t.time] else times)
    requires c.time == if times == [] then None else Some(times[|times| - 1])
    requires Step(c, t, pos).Success?
    ensures Keys(Step(c, t, pos).value.acc) == if t.Time? then times + [t.time] else times
    ensures Flatten(Values(Step(c, t, pos).value.acc))
         == Flatten(Values(c.acc)) + (if IsRecorded(t) then [ChangeOf(t)] else [])
  {
    if t.Time? {
      AbsentKey(c.acc, times, t.time);
      MarkAppends(c, t, pos);
    } else if IsRecorded(t) {
      KeysDistinct(c.acc, times);
      LastKey(c.acc, times);
      RecordExtendsLast(c, t, pos);
    }
  }

  lemma LastKey(m: Timeline, times: seq<int>)
    requires Keys(m) == times && times != []
    ensures |m| > 0 && m[|m| - 1].0 == times[|times| - 1]
  {
    assert Keys(m)[|m| - 1] == m[|m| - 1].0;
  }

  lemma DistinctPrefix(a: seq<int>, b: seq<int>)
    requires Distinct(b) && |a| <= |b| && a == b[..|a|]
    ensures Distinct(a)
  {
    assert forall i :: 0 <= i < |a| ==> a[i] == b[i];
  }

  /** A `$time` marker for a new timestamp appends an empty change list. */
  lemma MarkAppends(c: Clock, t: Token, pos: nat)
    requires t.Time? && !HasKey(c.acc, t.time)
    ensures Step(c, t, pos).Success?
    ensures Keys(Step(c, t, pos).value.acc) == Keys(c.acc) + [t.time]
    ensures Flatten(Values(Step(c, t, pos).value.acc)) == Flatten(Values(c.acc))
  {
    assert Step(c, t, pos).value.acc == c.acc + [(t.time, [])];
    FlattenValuesAppend(c.acc, t.time, []);
  }

  /** A recorded change, while the current time is the last key, extends
      the last change list and nothing else. */
  lemma RecordExtendsLast(c: Clock, t: Token, pos: nat)
    requires IsRecorded(t) && c.time.Some? && UniqueKeys(c.acc)
    requires |c.acc| > 0 && c.acc[|c.acc| - 1].0 == c.time.value
    ensures Step(c, t, pos).Success?
    ensures Keys(Step(c, t, pos).value.acc) == Keys(c.acc)
    ensures Flatten(Values(Step(c, t, pos).value.acc)) == Flatten(Values(c.acc)) + [ChangeOf(t)]
  {
    var m := c.acc;
    var n := |m| - 1;
    var k, l := m[n].0, m[n].1;
    GetLast(m);
    PutLast(m, k, l + [ChangeOf(t)]);
    assert Step(c, t, pos).value.acc == Put(m, k, l + [ChangeOf(t)]);
    SplitLast(m);
    FlattenValuesExtendLast(m[..n], k, l, ChangeOf(t));
  }

  lemma AbsentKey(m: Timeline, times: seq<int>, k: int)
    requires Keys(m) == times && Distinct(times + [k])
    ensures !HasKey(m, k)
  {
    forall i | 0 <= i < |m|
      ensures m[i].0 != k
    {
      assert (times + [k])[i] == m[i].0;
      assert (times + [k])[|times|] == k;
    }
  }

  lemma KeysDistinct(m: Timeline, times: seq<int>)
    requires Keys(m) == times && Distinct(times)
    ensures UniqueKeys(m)
  {
    forall i, j | 0 <= i < j < |m|
      ensures m[i].0 != m[j].0
    {
      assert Keys(m)[i] == m[i].0 && Keys(m)[j] == m[j].0;
    }
  }
}
