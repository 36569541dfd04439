/** Channel reconstruction (`VcdSimulation.to_events` and `to_channel`):
    replaying the timeline against each group of sibling declarations to get
    that group's composite value history. */
module Channels {
  import opened Wrappers
  import opened AssocLists
  import opened Tokens
  import opened Declarations
  import opened Timeline
  import opened Sequences

  /** `ChannelEvent`: the composite value of a channel from `time` on. */
  datatype ChannelEvent = ChannelEvent(time: int, value: string)

  /** `Channel`: one logical signal of a scope with its value history. */
  datatype Channel = Channel(size: nat, scope: string, name: string, events: seq<ChannelEvent>)

  /** The symbol every buffer slot starts with. */
  const Unknown: ChangeValue := Text("X")

  /** The value buffer of a channel of n slots before any change. */
  function InitialBuffer(n: nat): (r: seq<ChangeValue>)
    ensures |r| == n && forall s :: 0 <= s < n ==> r[s] == Unknown
  {
    seq(n, _ => Unknown)
  }

  // ---------------------------------------------------------------------
  // The sort of line 61

  /** Python's type of a bit index: None, int or tuple. */
  function Kind(b: BitIndex): nat {
    match b
    case NoIndex => 0
    case Bit(_) => 1
    case Range(_, _) => 2
  }

  /** Python can order the bit indices of vars only when they all have one
      type; comparing None, int and tuple with each other raises. */
  predicate Orderable(vars: seq<VarDecl>) {
    forall v, w :: v in vars && w in vars ==> Kind(v.bitIndex) == Kind(w.bitIndex)
  }

  /** Python's `a >= b` for two bit indices of one type (tuples compare
      lexicographically); false for indices of different types. */
  predicate AtLeast(a: BitIndex, b: BitIndex) {
    match a
    case NoIndex => b.NoIndex?
    case Bit(i) => b.Bit? && i >= b.index
    case Range(m, l) => b.Range? && (m > b.msb || (m == b.msb && l >= b.lsb))
  }

  lemma AtLeastTotal(a: BitIndex, b: BitIndex)
    requires Kind(a) == Kind(b)
    ensures AtLeast(a, b) || AtLeast(b, a)
  {
  }

  /** Non-increasing in bit index. */
  predicate Descending(vars: seq<VarDecl>) {
    forall i :: 0 <= i < |vars| - 1 ==> AtLeast(vars[i].bitIndex, vars[i + 1].bitIndex)
  }

  /** Places x before the first element it is at least as large as, which
      keeps equal elements in their original order, as Python's stable sort
      with `reverse=True` does. */
  function Insert(x: VarDecl, s: seq<VarDecl>): (r: seq<VarDecl>)
    ensures multiset(r) == multiset(s) + multiset{x}
    ensures |r| == |s| + 1 && (r[0] == x || (|s| > 0 && r[0] == s[0]))
    decreases |s|
  {
    if s == [] || AtLeast(x.bitIndex, s[0].bitIndex) then [x] + s
    else
      MultisetCons(s);
      [s[0]] + Insert(x, s[1..])
  }

  lemma ConsDescending(y: VarDecl, rest: seq<VarDecl>)
    requires Descending(rest) && (rest != [] ==> AtLeast(y.bitIndex, rest[0].bitIndex))
    ensures Descending([y] + rest)
  {
    assert forall i :: 1 <= i < |rest| + 1 ==> ([y] + rest)[i] == rest[i - 1];
  }

  lemma DescendingTail(s: seq<VarDecl>)
    requires Descending(s) && s != []
    ensures Descending(s[1..])
  {
    assert forall i :: 0 <= i < |s| - 1 ==> s[1..][i] == s[i + 1];
  }

  lemma OrderableSub(a: seq<VarDecl>, b: seq<VarDecl>)
    requires Orderable(b) && forall v :: v in a ==> v in b
    ensures Orderable(a)
  {
  }

  lemma TailMembers(s: seq<VarDecl>)
    requires s != []
    ensures s[0] in s && forall v :: v in s[1..] ==> v in s
  {
  }

  lemma OrderableCons(x: VarDecl, rest: seq<VarDecl>, vars: seq<VarDecl>)
    requires Orderable(vars) && x in vars && forall v :: v in rest ==> v in vars
    ensures Orderable([x] + rest)
  {
    forall v | v in [x] + rest
      ensures v in vars
    {
      if v != x {
        assert v in rest;
      }
    }
  }

  /** Inserting into a non-increasing group whose indices share one type
      keeps it non-increasing. */
  lemma {:induction false} InsertDescending(x: VarDecl, s: seq<VarDecl>)
    requires Orderable([x] + s) && Descending(s)
    ensures Descending(Insert(x, s))
    decreases |s|
  {
    if s == [] || AtLeast(x.bitIndex, s[0].bitIndex) {
      ConsDescending(x, s);
    } else {
      var rest := Insert(x, s[1..]);
      assert x in [x] + s && s[0] in [x] + s;
      OrderableSub([x] + s[1..], [x] + s);
      DescendingTail(s);
      InsertDescending(x, s[1..]);
      assert AtLeast(s[0].bitIndex, rest[0].bitIndex) by {
        if rest[0] == x {
          AtLeastTotal(x.bitIndex, s[0].bitIndex);
        } else {
          assert rest[0] == s[1];
        }
      }
      ConsDescending(s[0], rest);
    }
  }

  /** `sorted(vars, key=lambda x: x.bit_index, reverse=True)`, for the
      groups it does not raise on. */
  function SortDescending(vars: seq<VarDecl>): (r: seq<VarDecl>)
    ensures multiset(r) == multiset(vars)
    ensures Orderable(vars) ==> Descending(r)
    decreases |vars|
  {
    if vars == [] then []
    else
      var rest := SortDescending(vars[1..]);
      MultisetCons(vars);
      assert Orderable(vars) ==> Descending(Insert(vars[0], rest)) by {
        if Orderable(vars) {
          TailMembers(vars);
          OrderableSub(vars[1..], vars);
          SameMembers(rest, vars[1..]);
          OrderableCons(vars[0], rest, vars);
          InsertDescending(vars[0], rest);
        }
      }
      Insert(vars[0], rest)
  }

  lemma SameMembers<T>(a: seq<T>, b: seq<T>)
    requires multiset(a) == multiset(b)
    ensures forall v :: v in a <==> v in b
  {
    forall v
      ensures v in a <==> v in b
    {
      assert v in a <==> v in multiset(a);
      assert v in b <==> v in multiset(b);
    }
  }

  // ---------------------------------------------------------------------
  // Writing one change into the buffer (lines 65-69)

  /** The buffer position that `value[index] = ...` writes for a declaration
      with bit index b in a buffer of n slots: 0 for a scalar, the index for
      an int (negative ones counting from the end, as Python lists do);
      None where the assignment raises (an index out of range, or a tuple). */
  function SlotOf(b: BitIndex, n: nat): (r: Option<nat>)
    ensures r.Some? <==> n > 0 && (b.NoIndex? || (b.Bit? && -(n as int) <= b.index < n))
    ensures r.Some? ==> r.value < n
    ensures b.NoIndex? && n > 0 ==> r == Some(0)
    ensures b.Bit? && r.Some? ==> r.value == b.index % n
  {
    match b
    case NoIndex => if 0 < n then Some(0) else None
    case Bit(i) => if 0 <= i < n then Some(i) else if -(n as int) <= i < 0 then Some(n + i) else None
    case Range(_, _) => None
  }

  /** The id codes of a group. */
  function IdCodes(vars: seq<VarDecl>): set<string> {
    set v | v in vars :: v.idCode
  }

  /** Some declaration of vars matches c and writes slot s of an n-slot buffer. */
  predicate WrittenBy(vars: seq<VarDecl>, c: Change, n: nat, s: nat) {
    exists v :: v in vars && v.idCode == c.idCode && SlotOf(v.bitIndex, n) == Some(s)
  }

  /** Some declaration of vars matches c but has no slot to write. */
  predicate Faulty(vars: seq<VarDecl>, c: Change, n: nat) {
    exists v :: v in vars && v.idCode == c.idCode && SlotOf(v.bitIndex, n).None?
  }

  /** The buffer after some changes, and whether any of them matched. */
  datatype Write = Write(buffer: seq<ChangeValue>, touched: bool)

  /** The inner loop over the group for one change. */
  function ApplyChange(buf: seq<ChangeValue>, c: Change, vars: seq<VarDecl>, time: int): (r: Result<Write, Fault>)
    ensures r.Failure? <==> Faulty(vars, c, |buf|)
    ensures r.Failure? ==> r.error == BitIndexFault(time, c.idCode)
    ensures r.Success? ==>
      && |r.value.buffer| == |buf|
      && (r.value.touched <==> c.idCode in IdCodes(vars))
      && forall s :: 0 <= s < |buf| ==>
           r.value.buffer[s] == if WrittenBy(vars, c, |buf|, s) then c.value else buf[s]
    decreases |vars|
  {
    if vars == [] then Success(Write(buf, false))
    else
      var v := vars[0];
      assert vars == [v] + vars[1..];
      if v.idCode != c.idCode then
        var r := ApplyChange(buf, c, vars[1..], time);
        assert forall s :: WrittenBy(vars, c, |buf|, s) <==> WrittenBy(vars[1..], c, |buf|, s);
        r
      else
        match SlotOf(v.bitIndex, |buf|)
        case None => Failure(BitIndexFault(time, c.idCode))
        case Some(slot) =>
          var w :- ApplyChange(buf[slot := c.value], c, vars[1..], time);
          assert forall s :: WrittenBy(vars, c, |buf|, s) <==> s == slot || WrittenBy(vars[1..], c, |buf|, s);
          Success(Write(w.buffer, true))
  }

  /** A change of cs carries an id code of the group. */
  predicate Touches(cs: seq<Change>, ids: set<string>) {
    exists i :: 0 <= i < |cs| && cs[i].idCode in ids
  }

  /** Reference semantics of a buffer slot after a list of changes: the value
      of the last change that writes it, if any. */
  function LastWrite(cs: seq<Change>, vars: seq<VarDecl>, n: nat, s: nat): (r: Option<ChangeValue>)
    ensures r.Some? ==> exists i :: 0 <= i < |cs| && r.value == cs[i].value
    decreases |cs|
  {
    if cs == [] then None
    else if WrittenBy(vars, cs[|cs| - 1], n, s) then Some(cs[|cs| - 1].value)
    else
      var r := LastWrite(cs[..|cs| - 1], vars, n, s);
      assert forall i :: 0 <= i < |cs| - 1 ==> cs[..|cs| - 1][i] == cs[i];
      r
  }

  /** Reference semantics of the buffer after the changes cs: each slot
      holds the value of the last change of cs that writes it, or its old
      value. */
  function BufferAfter(cs: seq<Change>, vars: seq<VarDecl>, buf: seq<ChangeValue>): (r: seq<ChangeValue>)
    ensures |r| == |buf|
  {
    seq(|buf|, s requires 0 <= s < |buf| => LastWrite(cs, vars, |buf|, s).GetOr(buf[s]))
  }

  /** Reference semantics of the buffer once the first i timestamps of the
      timeline have been replayed from buf. */
  function BufferAt(entries: Timeline, vars: seq<VarDecl>, buf: seq<ChangeValue>, i: nat): (r: seq<ChangeValue>)
    requires i <= |entries|
    ensures |r| == |buf|
  {
    if i == 0 then buf else BufferAfter(entries[i - 1].1, vars, BufferAt(entries, vars, buf, i - 1))
  }

  /** The loop over the changes of one timestamp (lines 64-69). */
  function ApplyChanges(buf: seq<ChangeValue>, cs: seq<Change>, vars: seq<VarDecl>, time: int): (r: Result<Write, Fault>)
    ensures r.Failure? <==> exists i :: 0 <= i < |cs| && Faulty(vars, cs[i], |buf|)
    ensures r.Failure? ==> r.error.BitIndexFault? && r.error.time == time
    ensures r.Success? ==>
      && |r.value.buffer| == |buf|
      && (r.value.touched <==> Touches(cs, IdCodes(vars)))
      && forall s :: 0 <= s < |buf| ==> r.value.buffer[s] == LastWrite(cs, vars, |buf|, s).GetOr(buf[s])
    decreases |cs|
  {
    if cs == [] then Success(Write(buf, false))
    else
      var p := cs[..|cs| - 1];
      var c := cs[|cs| - 1];
      assert forall i :: 0 <= i < |p| ==> p[i] == cs[i];
      var w :- ApplyChanges(buf, p, vars, time);
      var w' :- ApplyChange(w.buffer, c, vars, time);
      Success(Write(w'.buffer, w.touched || w'.touched))
  }

  /** `''.join(value)`: defined only when every slot holds a string. */
  function JoinBuffer(buf: seq<ChangeValue>, time: int): (r: Result<string, Fault>)
    ensures r.Success? <==> forall i :: 0 <= i < |buf| ==> buf[i].Text?
    ensures r.Failure? ==> r.error == NonTextValue(time)
    ensures (forall i :: 0 <= i < |buf| ==> buf[i].Text? && |buf[i].text| == 1) ==>
              r.Success? && |r.value| == |buf| && forall i :: 0 <= i < |buf| ==> r.value[i] == buf[i].text[0]
    decreases |buf|
  {
    if buf == [] then Success("")
    else
      assert forall i :: 1 <= i < |buf| ==> buf[1..][i - 1] == buf[i];
      match buf[0]
      case Number(_) => Failure(NonTextValue(time))
      case Text(s) =>
        var rest :- JoinBuffer(buf[1..], time);
        Success(s + rest)
  }

  /** The number of the first i timestamps whose changes touch the group:
      the position of the event a touched timestamp i emits. */
  function TouchedCount(entries: Timeline, ids: set<string>, i: nat): (r: nat)
    requires i <= |entries|
    ensures r <= i
  {
    if i == 0 then 0
    else TouchedCount(entries, ids, i - 1) + if Touches(entries[i - 1].1, ids) then 1 else 0
  }

  function Times(events: seq<ChannelEvent>): (r: seq<int>)
    ensures |r| == |events| && forall i :: 0 <= i < |events| ==> r[i] == events[i].time
  {
    seq(|events|, i requires 0 <= i < |events| => events[i].time)
  }

  /** Reference definition of the event times: the timestamps, in timeline
      order, whose change list carries an id code of the group. */
  function TouchedTimes(entries: Timeline, ids: set<string>): seq<int>
    decreases |entries|
  {
    if entries == [] then []
    else (if Touches(entries[0].1, ids) then [entries[0].0] else []) + TouchedTimes(entries[1..], ids)
  }

  /** The outer loop of `to_events` (lines 62-72), from the buffer buf. */
  function Replay(entries: Timeline, vars: seq<VarDecl>, buf: seq<ChangeValue>): (r: Result<seq<ChannelEvent>, Fault>)
    ensures r.Success? ==> Times(r.value) == TouchedTimes(entries, IdCodes(vars))
    decreases |entries|
  {
    if entries == [] then Success([])
    else
      var (time, cs) := entries[0];
      var w :- ApplyChanges(buf, cs, vars, time);
      var emitted :- if w.touched then
                       var value :- JoinBuffer(w.buffer, time);
                       Success([ChannelEvent(time, value)])
                     else Success([]);
      var rest :- Replay(entries[1..], vars, w.buffer);
      Success(emitted + rest)
  }

  /** `VcdSimulation.to_events` for one group of sibling declarations. */
  function ToEvents(group: Group, tokens: seq<Token>): (r: Result<seq<ChannelEvent>, Fault>)
    ensures !Orderable(Values(group)) ==> r == Failure(UnorderableBitIndices)
    ensures Orderable(Values(group)) && TimeChanges(tokens).Failure? ==> r == Failure(TimeChanges(tokens).error)
    ensures r.Success? ==>
      && TimeChanges(tokens).Success?
      && Times(r.value) == TouchedTimes(TimeChanges(tokens).value, IdCodes(Values(group)))
  {
    var vars := Values(group);
    if !Orderable(vars) then Failure(UnorderableBitIndices)
    else
      var timeline :- TimeChanges(tokens);
      var sorted := SortDescending(vars);
      SameMembers(sorted, vars);
      assert IdCodes(sorted) == IdCodes(vars);
      Replay(timeline, sorted, InitialBuffer(|group|))
  }

  // ---------------------------------------------------------------------
  // Channel building (lines 75-82)

  /** One (scope, reference) group of the declaration index. */
  datatype Entry = Entry(scope: string, name: string, group: Group)

  /** The groups of one scope, in reference order. */
  function ScopeEntries(scope: string, refs: ScopeMap): (r: seq<Entry>)
    ensures |r| == |refs|
    ensures forall j :: 0 <= j < |refs| ==> r[j] == Entry(scope, refs[j].0, refs[j].1)
  {
    seq(|refs|, j requires 0 <= j < |refs| => Entry(scope, refs[j].0, refs[j].1))
  }

  /** All groups of the index, scope by scope. */
  function Entries(idx: Index): seq<Entry>
    decreases |idx|
  {
    if idx == [] then []
    else ScopeEntries(idx[0].0, idx[0].1) + Entries(idx[1..])
  }

  /** The (scope, reference, group) triples listed are exactly those of the
      index. */
  lemma {:induction false} EntriesMembers(idx: Index)
    ensures forall e :: e in Entries(idx) <==>
      exists i, j :: 0 <= i < |idx| && 0 <= j < |idx[i].1| && e == Entry(idx[i].0, idx[i].1[j].0, idx[i].1[j].1)
    decreases |idx|
  {
    if idx != [] {
      var first := ScopeEntries(idx[0].0, idx[0].1);
      var rest := Entries(idx[1..]);
      assert Entries(idx) == first + rest;
      EntriesMembers(idx[1..]);
      forall e
        ensures e in rest <==>
          exists i, j :: 1 <= i < |idx| && 0 <= j < |idx[i].1| && e == Entry(idx[i].0, idx[i].1[j].0, idx[i].1[j].1)
      {
        if e in rest {
          var i, j :| 0 <= i < |idx[1..]| && 0 <= j < |idx[1..][i].1| && e == Entry(idx[1..][i].0, idx[1..][i].1[j].0, idx[1..][i].1[j].1);
          assert idx[1..][i] == idx[i + 1];
        }
        if exists i, j :: 1 <= i < |idx| && 0 <= j < |idx[i].1| && e == Entry(idx[i].0, idx[i].1[j].0, idx[i].1[j].1) {
          var i, j :| 1 <= i < |idx| && 0 <= j < |idx[i].1| && e == Entry(idx[i].0, idx[i].1[j].0, idx[i].1[j].1);
          assert idx[1..][i - 1] == idx[i];
        }
      }
    }
  }

  /** The Channel of one group: its size is the number of siblings. */
  function GroupChannel(e: Entry, tokens: seq<Token>): (r: Result<Channel, Fault>)
    ensures r.Failure? <==> ToEvents(e.group, tokens).Failure?
    ensures r.Success? ==>
      && r.value.scope == e.scope && r.value.name == e.name && r.value.size == |e.group|
      && ToEvents(e.group, tokens) == Success(r.value.events)
  {
    var events :- ToEvents(e.group, tokens);
    Success(Channel(|e.group|, e.scope, e.name, events))
  }

  /** The Channel of each group, in order, each as a success or a fault. */
  function GroupChannels(entries: seq<Entry>, tokens: seq<Token>): (r: seq<Result<Channel, Fault>>)
    ensures |r| == |entries| && forall i :: 0 <= i < |entries| ==> r[i] == GroupChannel(entries[i], tokens)
  {
    seq(|entries|, i requires 0 <= i < |entries| => GroupChannel(entries[i], tokens))
  }

  /** One Channel per group, in order; the first failing group aborts. */
  function BuildChannels(entries: seq<Entry>, tokens: seq<Token>): Result<seq<Channel>, Fault> {
    Collect(GroupChannels(entries, tokens))
  }

  /** Building fails exactly when the events of some group fail, and then
      with the fault of the first such group. */
  lemma BuildChannelsFailsIff(entries: seq<Entry>, tokens: seq<Token>)
    ensures BuildChannels(entries, tokens).Failure? <==>
      exists i :: 0 <= i < |entries| && ToEvents(entries[i].group, tokens).Failure?
    ensures BuildChannels(entries, tokens).Failure? ==>
      exists i :: && 0 <= i < |entries| && ToEvents(entries[i].group, tokens).Failure?
                  && BuildChannels(entries, tokens).error == ToEvents(entries[i].group, tokens).error
                  && forall j :: 0 <= j < i ==> ToEvents(entries[j].group, tokens).Success?
  {
    CollectFailsIff(GroupChannels(entries, tokens));
  }

  /** A successful build has one Channel per group, in order: channel i has
      group i's scope and name, its number of siblings as size, and its
      events. */
  lemma BuildChannelsAt(entries: seq<Entry>, tokens: seq<Token>, i: nat)
    requires BuildChannels(entries, tokens).Success? && i < |entries|
    ensures |BuildChannels(entries, tokens).value| == |entries|
    ensures var c := BuildChannels(entries, tokens).value[i];
      && c.scope == entries[i].scope && c.name == entries[i].name && c.size == |entries[i].group|
      && ToEvents(entries[i].group, tokens) == Success(c.events)
  {
    CollectAt(GroupChannels(entries, tokens), i);
  }

  /** `VcdSimulation.to_channel`. */
  function ToChannels(tokens: seq<Token>): Result<seq<Channel>, Fault> {
    var idx :- ScopeVars(tokens);
    BuildChannels(Entries(idx), tokens)
  }
}
