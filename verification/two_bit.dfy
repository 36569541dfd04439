/** A worked two-bit example of channel reconstruction: a vector `data` of
    two sibling declarations (bit 1 with id code `a`, bit 0 with id code
    `b`), of which only bit 0 changes, to `1`, at time 5. Bit i sits at
    string position i, so the channel reads `1X`. */
module TwoBit {
  import opened Wrappers
  import opened AssocLists
  import opened Tokens
  import opened Declarations
  import opened Timeline
  import Clocks = Timeline
  import opened Channels

  function High(): VarDecl {
    VarDecl(1, "a", "data", Bit(1))
  }

  function Low(): VarDecl {
    VarDecl(1, "b", "data", Bit(0))
  }

  function Rise(): Change {
    Change("b", Text("1"))
  }

  /** `$scope top`, the two `$var`s, `#5`, `1b`. */
  function Dump(): seq<Token> {
    [Scope("top"), Var(High()), Var(Low()), Time(5), Scalar(Rise())]
  }

  lemma DumpTokens()
    ensures |Dump()| == 5
    ensures Dump()[0] == Scope("top") && Dump()[1] == Var(High()) && Dump()[2] == Var(Low())
    ensures Dump()[3] == Time(5) && Dump()[4] == Scalar(Rise())
  {
  }

  /** The group of `data` as the index stores it: in declaration order. */
  function DataGroup(): Group {
    [(Bit(1), High()), (Bit(0), Low())]
  }

  /** The index fold over a prefix one token longer takes one more step. */
  lemma CursorPrefix(ts: seq<Token>, k: nat)
    requires k < |ts| && Declarations.Fold(ts[..k]).Success?
    ensures Declarations.Fold(ts[..k + 1]) == Declarations.Step(Declarations.Fold(ts[..k]).value, ts[k], k)
  {
    assert ts[..k + 1][..k] == ts[..k];
    assert ts[..k + 1][k] == ts[k];
  }

  lemma DeclareHigh()
    ensures Declare([("top", [])], "top", High()) == [("top", [("data", [(Bit(1), High())])])]
  {
    var acc: Index := [("top", [])];
    var none: ScopeMap := [];
    var empty: Group := [];
    assert Get(acc, "top") == Some(none);
    assert Put(empty, Bit(1), High()) == [(Bit(1), High())];
    assert Put(none, "data", [(Bit(1), High())]) == [("data", [(Bit(1), High())])];
    PutOnly(acc, "top", [("data", [(Bit(1), High())])]);
  }

  lemma DeclareLow()
    ensures Declare([("top", [("data", [(Bit(1), High())])])], "top", Low()) == [("top", [("data", DataGroup())])]
  {
    var group: Group := [(Bit(1), High())];
    var refs: ScopeMap := [("data", group)];
    var acc: Index := [("top", refs)];
    assert Get(acc, "top") == Some(refs);
    assert Get(refs, "data") == Some(group);
    assert !HasKey(group, Bit(0));
    assert Put(group, Bit(0), Low()) == DataGroup();
    PutOnly(refs, "data", DataGroup());
    PutOnly(acc, "top", [("data", DataGroup())]);
  }

  lemma TopOpened()
    ensures Declarations.Fold(Dump()[..1]) == Success(Cursor([("top", [])], Some("top")))
  {
    DumpTokens();
    var ts := Dump();
    assert ts[..0] == [];
    CursorPrefix(ts, 0);
    var none: Index := [];
    var empty: ScopeMap := [];
    assert Put(none, "top", empty) == [("top", empty)];
  }

  lemma HighDeclared()
    ensures Declarations.Fold(Dump()[..2]) == Success(Cursor([("top", [("data", [(Bit(1), High())])])], Some("top")))
  {
    DumpTokens();
    TopOpened();
    CursorPrefix(Dump(), 1);
    HighStep();
  }

  lemma HighStep()
    ensures Declarations.Step(Cursor([("top", [])], Some("top")), Var(High()), 1)
         == Success(Cursor([("top", [("data", [(Bit(1), High())])])], Some("top")))
  {
    DeclareHigh();
  }

  lemma DumpCursor()
    ensures Declarations.Fold(Dump()[..3]) == Success(Cursor([("top", [("data", DataGroup())])], Some("top")))
  {
    DumpTokens();
    HighDeclared();
    CursorPrefix(Dump(), 2);
    DeclareLow();
  }

  lemma DumpCursorLater()
    ensures Declarations.Fold(Dump()[..4]) == Success(Cursor([("top", [("data", DataGroup())])], Some("top")))
  {
    DumpTokens();
    DumpCursor();
    CursorPrefix(Dump(), 3);
  }

  lemma DumpIndex()
    ensures ScopeVars(Dump()) == Success([("top", [("data", DataGroup())])])
  {
    DumpTokens();
    DumpCursorLater();
    CursorPrefix(Dump(), 4);
    DumpWhole();
  }

  lemma DumpWhole()
    ensures Dump()[..5] == Dump()
  {
  }

  /** The fold over a prefix one token longer takes one more step. */
  lemma ClockPrefix(ts: seq<Token>, k: nat)
    requires k < |ts| && Clocks.Fold(ts[..k]).Success?
    ensures Clocks.Fold(ts[..k + 1]) == Clocks.Step(Clocks.Fold(ts[..k]).value, ts[k], k)
  {
    assert ts[..k + 1][..k] == ts[..k];
    assert ts[..k + 1][k] == ts[k];
  }

  lemma DumpClock()
    ensures Clocks.Fold(Dump()[..3]) == Success(Clock([], None))
  {
    DumpTokens();
    var ts := Dump();
    var c := Clock([], None);
    assert ts[..0] == [];
    ClockPrefix(ts, 0);
    ClockPrefix(ts, 1);
    ClockPrefix(ts, 2);
  }

  /** Assigning to the only key of a one-entry dict replaces the entry. */
  lemma PutOnly<K(!new), V>(m: AList<K, V>, k: K, v: V)
    requires |m| == 1 && m[0].0 == k
    ensures Put(m, k, v) == [(k, v)]
  {
    assert m[1..] == [];
  }

  lemma FirstMark()
    ensures Clocks.Fold(Dump()[..4]) == Success(Clock([(5, [])], Some(5)))
  {
    DumpTokens();
    DumpClock();
    ClockPrefix(Dump(), 3);
    var none: Timeline := [];
    assert Put(none, 5, []) == [(5, [])];
  }

  lemma RiseRecorded()
    ensures Clocks.Fold(Dump()) == Success(Clock([(5, [Rise()])], Some(5)))
  {
    DumpTokens();
    FirstMark();
    ClockPrefix(Dump(), 4);
    DumpWhole();
    RiseStep();
  }

  /** The change of `b` is appended to the list of time 5. */
  lemma RiseStep()
    ensures Clocks.Step(Clock([(5, [])], Some(5)), Scalar(Rise()), 4) == Success(Clock([(5, [Rise()])], Some(5)))
  {
    var l: seq<Change> := [];
    assert Get([(5, l)], 5) == Some(l);
    PutOnly([(5, l)], 5, l + [Rise()]);
    assert l + [Rise()] == [Rise()];
  }

  lemma DumpTimeline()
    ensures TimeChanges(Dump()) == Success([(5, [Rise()])])
  {
    RiseRecorded();
  }

  /** The descending sort puts bit 1 first. */
  lemma DataValues()
    ensures Values(DataGroup()) == [High(), Low()]
  {
  }

  lemma LowSorted()
    ensures SortDescending([Low()]) == [Low()]
  {
    assert [Low()][1..] == [];
  }

  lemma DataSorted()
    ensures SortDescending(Values(DataGroup())) == [High(), Low()]
  {
    DataValues();
    var vars := [High(), Low()];
    assert vars[1..] == [Low()];
    LowSorted();
    assert AtLeast(Bit(1), Bit(0));
    assert Insert(High(), [Low()]) == [High()] + [Low()];
  }

  lemma LowWrites()
    ensures ApplyChange([Text("X"), Text("X")], Rise(), [Low()], 5) == Success(Write([Text("1"), Text("X")], true))
  {
    var buf: seq<ChangeValue> := [Text("X"), Text("X")];
    assert [Low()][1..] == [];
    assert SlotOf(Bit(0), 2) == Some(0);
    assert buf[0 := Text("1")] == [Text("1"), Text("X")];
    assert ApplyChange([Text("1"), Text("X")], Rise(), [], 5) == Success(Write([Text("1"), Text("X")], false));
  }

  /** The change of `b` skips `a` and writes position 0 of the two-slot
      buffer. */
  lemma RiseWritten()
    ensures ApplyChanges(InitialBuffer(2), [Rise()], [High(), Low()], 5)
         == Success(Write([Text("1"), Text("X")], true))
  {
    var buf := InitialBuffer(2);
    assert buf == [Text("X"), Text("X")];
    assert [Rise()][..0] == [];
    assert ApplyChanges(buf, [], [High(), Low()], 5) == Success(Write(buf, false));
    assert ApplyChange(buf, Rise(), [High(), Low()], 5) == Success(Write([Text("1"), Text("X")], true)) by {
      assert [High(), Low()][1..] == [Low()];
      LowWrites();
    }
  }

  lemma UnknownJoined()
    ensures JoinBuffer([Text("X")], 5) == Success("X")
  {
    assert [Text("X")][1..] == [];
    assert JoinBuffer([], 5) == Success("");
    assert "X" + "" == "X";
  }

  lemma RiseJoined()
    ensures JoinBuffer([Text("1"), Text("X")], 5) == Success("1X")
  {
    assert [Text("1"), Text("X")][1..] == [Text("X")];
    UnknownJoined();
    assert "1" + "X" == "1X";
  }

  lemma RiseReplayed()
    ensures Replay([(5, [Rise()])], [High(), Low()], InitialBuffer(2)) == Success([ChannelEvent(5, "1X")])
  {
    var timeline: Timeline := [(5, [Rise()])];
    RiseWritten();
    RiseJoined();
    assert timeline[1..] == [];
    assert Replay([], [High(), Low()], [Text("1"), Text("X")]) == Success([]);
    assert [ChannelEvent(5, "1X")] + [] == [ChannelEvent(5, "1X")];
  }

  lemma DataOrderable()
    ensures Orderable(Values(DataGroup()))
  {
    assert Values(DataGroup()) == [High(), Low()];
  }

  /** `to_events` of `data`: one event at 5, reading `1X`. */
  lemma DataEvents()
    ensures ToEvents(DataGroup(), Dump()) == Success([ChannelEvent(5, "1X")])
  {
    DumpTimeline();
    DataOrderable();
    DataSorted();
    RiseReplayed();
  }

  function DataChannel(): Channel {
    Channel(2, "top", "data", [ChannelEvent(5, "1X")])
  }

  lemma DumpEntries()
    ensures Entries([("top", [("data", DataGroup())])]) == [Entry("top", "data", DataGroup())]
  {
    var idx: Index := [("top", [("data", DataGroup())])];
    assert idx[1..] == [];
    assert ScopeEntries("top", [("data", DataGroup())]) == [Entry("top", "data", DataGroup())];
  }

  lemma DataGrouped()
    ensures GroupChannel(Entry("top", "data", DataGroup()), Dump()) == Success(DataChannel())
  {
    DataEvents();
  }

  lemma DataBuilt()
    ensures BuildChannels([Entry("top", "data", DataGroup())], Dump()) == Success([DataChannel()])
  {
    var entries := [Entry("top", "data", DataGroup())];
    DataGrouped();
    GroupChannelsOne(entries[0], Dump());
    CollectOne(DataChannel());
  }

  lemma GroupChannelsOne(e: Entry, tokens: seq<Token>)
    ensures GroupChannels([e], tokens) == [GroupChannel(e, tokens)]
  {
  }

  lemma CollectOne(x: Channel)
    ensures Collect<Channel, Fault>([Success(x)]) == Success([x])
  {
    var rs: seq<Result<Channel, Fault>> := [Success(x)];
    assert rs[1..] == [];
    assert [x] + [] == [x];
  }

  /** `to_channel` of the dump: the one channel `data` of `top`, two bits
      wide, reading `1X` from time 5. */
  lemma DumpChannels()
    ensures ToChannels(Dump()) == Success([DataChannel()])
  {
    DumpIndex();
    DumpEntries();
    DataBuilt();
  }
}
