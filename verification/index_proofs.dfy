/** Shape of the declaration index and of its flattening into channel groups:
    every dict in the index has unique keys and no group is empty, scopes are
    keyed in the order of their first `$scope` and references in the order of
    their first `$var` since that scope's last `$scope`, and the groups are
    listed scope by scope, each exactly once. */
module IndexProofs {
  import opened Wrappers
  import opened AssocLists
  import opened Tokens
  import opened Declarations
  import opened Channels

  // ---------------------------------------------------------------------
  // Unique keys at every level

  /** The references of a scope are distinct, and each reference holds at
      least one declaration, with distinct bit indices. */
  predicate ScopeWellFormed(refs: ScopeMap) {
    && UniqueKeys(refs)
    && forall j :: 0 <= j < |refs| ==> UniqueKeys(refs[j].1) && |refs[j].1| > 0
  }

  /** The scopes are distinct, and each scope is well formed. */
  predicate WellFormed(idx: Index) {
    && UniqueKeys(idx)
    && forall i :: 0 <= i < |idx| ==> ScopeWellFormed(idx[i].1)
  }

  lemma ScopePut(refs: ScopeMap, f: string, g: Group)
    requires ScopeWellFormed(refs) && UniqueKeys(g) && |g| > 0
    ensures ScopeWellFormed(Put(refs, f, g))
  {
    PutKeepsKeysUnique(refs, f, g);
    GroupsPut(refs, f, g);
  }

  lemma GroupsPut(refs: ScopeMap, f: string, g: Group)
    requires (forall j :: 0 <= j < |refs| ==> UniqueKeys(refs[j].1) && |refs[j].1| > 0)
    requires UniqueKeys(g) && |g| > 0
    ensures forall j :: 0 <= j < |Put(refs, f, g)| ==> UniqueKeys(Put(refs, f, g)[j].1) && |Put(refs, f, g)[j].1| > 0
  {
    var r := Put(refs, f, g);
    PutEntries(refs, f, g);
    forall j | 0 <= j < |r|
      ensures UniqueKeys(r[j].1) && |r[j].1| > 0
    {
      if r[j] != (f, g) {
        var k :| 0 <= k < |refs| && refs[k] == r[j];
      }
    }
  }

  lemma IndexPut(idx: Index, s: string, refs: ScopeMap)
    requires WellFormed(idx) && ScopeWellFormed(refs)
    ensures WellFormed(Put(idx, s, refs))
  {
    PutKeepsKeysUnique(idx, s, refs);
    ScopesPut(idx, s, refs);
  }

  lemma ScopesPut(idx: Index, s: string, refs: ScopeMap)
    requires (forall i :: 0 <= i < |idx| ==> ScopeWellFormed(idx[i].1)) && ScopeWellFormed(refs)
    ensures forall i :: 0 <= i < |Put(idx, s, refs)| ==> ScopeWellFormed(Put(idx, s, refs)[i].1)
  {
    var r := Put(idx, s, refs);
    PutEntries(idx, s, refs);
    forall i | 0 <= i < |r|
      ensures ScopeWellFormed(r[i].1)
    {
      if r[i] != (s, refs) {
        var k :| 0 <= k < |idx| && idx[k] == r[i];
      }
    }
  }

  /** Declaring a variable keeps every level free of duplicate keys. */
  lemma DeclareWellFormed(acc: Index, s: string, d: VarDecl)
    requires WellFormed(acc)
    ensures WellFormed(Declare(acc, s, d))
  {
    var refs := Get(acc, s).GetOr([]);
    var group := Get(refs, d.reference).GetOr([]);
    assert ScopeWellFormed(refs);
    assert UniqueKeys(group);
    var group' := Put(group, d.bitIndex, d);
    PutKeepsKeysUnique(group, d.bitIndex, d);
    assert HasKey(group', d.bitIndex);
    ScopePut(refs, d.reference, group');
    IndexPut(acc, s, Put(refs, d.reference, group'));
  }

  lemma StepWellFormed(c: Cursor, t: Token, pos: nat)
    requires WellFormed(c.acc) && Step(c, t, pos).Success?
    ensures WellFormed(Step(c, t, pos).value.acc)
  {
    match t
    case Scope(ident) =>
      IndexPut(c.acc, ident, []);
    case Var(decl) =>
      DeclareWellFormed(c.acc, c.scope.value, decl);
    case _ =>
  }

  lemma {:induction false} FoldWellFormed(ts: seq<Token>)
    requires Declarations.Fold(ts).Success?
    ensures WellFormed(Declarations.Fold(ts).value.acc)
    decreases |ts|
  {
    if ts != [] {
      var prefix := ts[..|ts| - 1];
      FoldWellFormed(prefix);
      StepWellFormed(Declarations.Fold(prefix).value, ts[|ts| - 1], |ts| - 1);
    }
  }

  /** `scope_vars` builds dicts: no scope, no reference within a scope and no
      bit index within a reference occurs twice, and every reference holds a
      declaration, so that no channel is built from an empty group. */
  lemma ScopeVarsWellFormed(ts: seq<Token>)
    requires ScopeVars(ts).Success?
    ensures UniqueKeys(ScopeVars(ts).value)
    ensures forall i :: 0 <= i < |ScopeVars(ts).value| ==> UniqueKeys(ScopeVars(ts).value[i].1)
    ensures forall i, j :: 0 <= i < |ScopeVars(ts).value| && 0 <= j < |ScopeVars(ts).value[i].1| ==>
              UniqueKeys(ScopeVars(ts).value[i].1[j].1)
    ensures forall i, j :: 0 <= i < |ScopeVars(ts).value| && 0 <= j < |ScopeVars(ts).value[i].1| ==>
              |ScopeVars(ts).value[i].1[j].1| > 0
  {
    FoldWellFormed(ts);
  }

  // ---------------------------------------------------------------------
  // Key order of the index

  /** Reference order of the scopes: each scope ident where its first
      `$scope` occurs; a scope opened again keeps its place. */
  function ScopeOrder(ts: seq<Token>): (r: seq<string>)
    decreases |ts|
  {
    if ts == [] then []
    else
      var order := ScopeOrder(ts[..|ts| - 1]);
      var t := ts[|ts| - 1];
      if t.Scope? && t.ident !in order then order + [t.ident] else order
  }

  /** A scope is listed exactly when some `$scope` opens it. */
  lemma {:induction false} ScopeOrderMembers(ts: seq<Token>, s: string)
    ensures s in ScopeOrder(ts) <==> exists j :: 0 <= j < |ts| && ts[j] == Scope(s)
    decreases |ts|
  {
    if ts != [] {
      var prefix := ts[..|ts| - 1];
      ScopeOrderMembers(prefix, s);
      if exists j :: 0 <= j < |prefix| && prefix[j] == Scope(s) {
        var j :| 0 <= j < |prefix| && prefix[j] == Scope(s);
        assert ts[j] == Scope(s);
      }
      if exists j :: 0 <= j < |ts| && ts[j] == Scope(s) {
        var j :| 0 <= j < |ts| && ts[j] == Scope(s);
        if j < |prefix| {
          assert prefix[j] == Scope(s);
        }
      }
    }
  }

  /** Declaring into an existing scope leaves the scope keys as they are. */
  lemma DeclareKeys(acc: Index, s: string, d: VarDecl)
    requires HasKey(acc, s)
    ensures Keys(Declare(acc, s, d)) == Keys(acc)
  {
    var refs := Get(acc, s).GetOr([]);
    var group := Get(refs, d.reference).GetOr([]);
    HasKeyKeys(acc, s);
    PutKeys(acc, s, Put(refs, d.reference, Put(group, d.bitIndex, d)));
  }

  lemma {:induction false} FoldKeys(ts: seq<Token>)
    requires Declarations.Fold(ts).Success?
    ensures Keys(Declarations.Fold(ts).value.acc) == ScopeOrder(ts)
    decreases |ts|
  {
    if ts != [] {
      var prefix := ts[..|ts| - 1];
      var c := Declarations.Fold(prefix).value;
      var t := ts[|ts| - 1];
      FoldKeys(prefix);
      match t
      case Scope(ident) =>
        PutKeys(c.acc, ident, []);
      case Var(decl) =>
        DeclareKeys(c.acc, c.scope.value, decl);
      case _ =>
    }
  }

  /** The scopes of `scope_vars` are keyed in the order of their first
      `$scope`: a repeated `$scope` empties its scope but keeps its place. */
  lemma ScopeVarsKeys(ts: seq<Token>)
    requires ScopeVars(ts).Success?
    ensures Keys(ScopeVars(ts).value) == ScopeOrder(ts)
  {
    FoldKeys(ts);
  }

  /** Reference order within scope s: the reference of each `$var` issued
      while s is the current scope, where it first occurs since the last
      `$scope s`, which starts the list afresh. */
  function RefOrder(ts: seq<Token>, s: string): (r: seq<string>)
    decreases |ts|
  {
    if ts == [] then []
    else
      var prefix := ts[..|ts| - 1];
      var order := RefOrder(prefix, s);
      var t := ts[|ts| - 1];
      if t == Scope(s) then []
      else if t.Var? && ActiveScope(prefix) == Some(s) && t.decl.reference !in order then order + [t.decl.reference]
      else order
  }

  /** The references of a scope, as `Get` reports them; none for an absent
      scope. */
  function RefKeys(acc: Index, s: string): seq<string> {
    Keys(Get(acc, s).GetOr([]))
  }

  /** Declaring into scope s appends a new reference to s and changes no
      other scope. */
  lemma DeclareRefKeys(acc: Index, s: string, d: VarDecl, s': string)
    ensures RefKeys(Declare(acc, s, d), s') ==
      if s' != s then RefKeys(acc, s')
      else if d.reference in RefKeys(acc, s) then RefKeys(acc, s)
      else RefKeys(acc, s) + [d.reference]
  {
    var refs := Get(acc, s).GetOr([]);
    var group := Get(refs, d.reference).GetOr([]);
    var refs' := Put(refs, d.reference, Put(group, d.bitIndex, d));
    assert Declare(acc, s, d) == Put(acc, s, refs');
    PutKeys(refs, d.reference, Put(group, d.bitIndex, d));
  }

  lemma StepRefKeys(c: Cursor, t: Token, pos: nat, s: string)
    requires Step(c, t, pos).Success?
    ensures RefKeys(Step(c, t, pos).value.acc, s) ==
      if t == Scope(s) then []
      else if t.Var? && c.scope == Some(s) && t.decl.reference !in RefKeys(c.acc, s) then RefKeys(c.acc, s) + [t.decl.reference]
      else RefKeys(c.acc, s)
  {
    match t
    case Scope(ident) =>
    case Var(decl) =>
      DeclareRefKeys(c.acc, c.scope.value, decl, s);
    case _ =>
  }

  lemma {:induction false} FoldRefKeys(ts: seq<Token>, s: string)
    requires Declarations.Fold(ts).Success?
    ensures RefKeys(Declarations.Fold(ts).value.acc, s) == RefOrder(ts, s)
    decreases |ts|
  {
    if ts != [] {
      var prefix := ts[..|ts| - 1];
      FoldRefKeys(prefix, s);
      StepRefKeys(Declarations.Fold(prefix).value, ts[|ts| - 1], |ts| - 1, s);
    }
  }

  /** The references of each scope of `scope_vars` are keyed in the order of
      their first `$var` since the scope's last `$scope`; a scope never
      opened holds none. */
  lemma ScopeVarsRefKeys(ts: seq<Token>, s: string)
    requires ScopeVars(ts).Success?
    ensures Keys(Get(ScopeVars(ts).value, s).GetOr([])) == RefOrder(ts, s)
  {
    FoldRefKeys(ts, s);
  }

  /** Scope i of the index is the i-th scope opened, and its references are
      in their `RefOrder`: together with `EntriesAt` this fixes the order of
      the channels. */
  lemma ScopeVarsAt(ts: seq<Token>, i: nat)
    requires ScopeVars(ts).Success? && i < |ScopeVars(ts).value|
    ensures i < |ScopeOrder(ts)| && ScopeVars(ts).value[i].0 == ScopeOrder(ts)[i]
    ensures Keys(ScopeVars(ts).value[i].1) == RefOrder(ts, ScopeOrder(ts)[i])
  {
    var idx := ScopeVars(ts).value;
    ScopeVarsKeys(ts);
    FoldWellFormed(ts);
    GetAt(idx, i);
    ScopeVarsRefKeys(ts, idx[i].0);
  }

  // ---------------------------------------------------------------------
  // Flattening the index into groups

  /** The number of groups in the first i scopes: the sum of |idx[k].1| for
      k < i. */
  function Offset(idx: Index, i: nat): nat
    requires i <= |idx|
  {
    if i == 0 then 0 else Offset(idx, i - 1) + |idx[i - 1].1|
  }

  /** Dropping the first scope shifts every offset by its group count. */
  lemma {:induction false} OffsetShift(idx: Index, i: nat)
    requires i < |idx|
    ensures Offset(idx, i + 1) == |idx[0].1| + Offset(idx[1..], i)
  {
    if i > 0 {
      OffsetShift(idx, i - 1);
      assert idx[1..][i - 1] == idx[i];
    }
  }

  /** There is one entry per (scope, reference) pair of the index. */
  lemma {:induction false} EntriesCount(idx: Index)
    ensures |Entries(idx)| == Offset(idx, |idx|)
    decreases |idx|
  {
    if idx != [] {
      assert Entries(idx) == ScopeEntries(idx[0].0, idx[0].1) + Entries(idx[1..]);
      EntriesCount(idx[1..]);
      OffsetShift(idx, |idx| - 1);
    }
  }

  /** Reference j of scope i is entry Offset(idx, i) + j: scope by scope,
      each scope's references in their own order. */
  lemma {:induction false} EntriesAt(idx: Index, i: nat, j: nat)
    requires i < |idx| && j < |idx[i].1|
    ensures Offset(idx, i) + j < |Entries(idx)|
    ensures Entries(idx)[Offset(idx, i) + j] == Entry(idx[i].0, idx[i].1[j].0, idx[i].1[j].1)
    decreases i
  {
    var first := ScopeEntries(idx[0].0, idx[0].1);
    var rest := Entries(idx[1..]);
    assert Entries(idx) == first + rest;
    if i > 0 {
      OffsetShift(idx, i - 1);
      assert idx[1..][i - 1] == idx[i];
      EntriesAt(idx[1..], i - 1, j);
    }
  }

  lemma WellFormedTail(idx: Index)
    requires WellFormed(idx) && |idx| > 0
    ensures WellFormed(idx[1..])
  {
    UniqueKeysTail(idx);
    forall i | 0 <= i < |idx| - 1
      ensures ScopeWellFormed(idx[1..][i].1)
    {
      assert idx[1..][i] == idx[i + 1];
    }
  }

  lemma {:induction false} EntriesDistinctAt(idx: Index, p: nat, q: nat)
    requires WellFormed(idx) && p < q < |Entries(idx)|
    ensures Entries(idx)[p].scope != Entries(idx)[q].scope || Entries(idx)[p].name != Entries(idx)[q].name
    decreases |idx|
  {
    var first := ScopeEntries(idx[0].0, idx[0].1);
    var rest := Entries(idx[1..]);
    var n := |first|;
    assert Entries(idx) == first + rest;
    if q < n {
      assert idx[0].1[p].0 != idx[0].1[q].0;
    } else if p < n {
      var e := rest[q - n];
      assert e in rest;
      EntriesMembers(idx[1..]);
      var i, j :| 0 <= i < |idx[1..]| && 0 <= j < |idx[1..][i].1| && e == Entry(idx[1..][i].0, idx[1..][i].1[j].0, idx[1..][i].1[j].1);
      assert idx[1..][i] == idx[i + 1];
      assert idx[0].0 != idx[i + 1].0;
    } else {
      WellFormedTail(idx);
      EntriesDistinctAt(idx[1..], p - n, q - n);
    }
  }

  /** No (scope, reference) pair is listed twice, so `to_channel` builds one
      Channel per group. */
  lemma EntriesDistinct(idx: Index)
    requires WellFormed(idx)
    ensures forall p, q :: 0 <= p < q < |Entries(idx)| ==>
              Entries(idx)[p].scope != Entries(idx)[q].scope || Entries(idx)[p].name != Entries(idx)[q].name
  {
    forall p, q | 0 <= p < q < |Entries(idx)|
      ensures Entries(idx)[p].scope != Entries(idx)[q].scope || Entries(idx)[p].name != Entries(idx)[q].name
    {
      EntriesDistinctAt(idx, p, q);
    }
  }

  /** The groups `to_channel` visits, for a successful `scope_vars`: one per
      (scope, reference) pair, none twice and none empty, scope by scope in
      first-`$scope` order and within a scope in `RefOrder`. */
  lemma ToChannelsGroups(ts: seq<Token>)
    requires ScopeVars(ts).Success?
    ensures var idx := ScopeVars(ts).value;
      && Keys(idx) == ScopeOrder(ts)
      && (forall i :: 0 <= i < |idx| ==> Keys(idx[i].1) == RefOrder(ts, idx[i].0))
      && |Entries(idx)| == Offset(idx, |idx|)
      && (forall p :: 0 <= p < |Entries(idx)| ==> |Entries(idx)[p].group| > 0)
      && forall p, q :: 0 <= p < q < |Entries(idx)| ==>
           Entries(idx)[p].scope != Entries(idx)[q].scope || Entries(idx)[p].name != Entries(idx)[q].name
  {
    var idx := ScopeVars(ts).value;
    ScopeVarsKeys(ts);
    EntriesCount(idx);
    FoldWellFormed(ts);
    EntriesDistinct(idx);
    forall i | 0 <= i < |idx|
      ensures Keys(idx[i].1) == RefOrder(ts, idx[i].0)
    {
      ScopeVarsAt(ts, i);
    }
    EntriesNonEmpty(idx);
  }

  /** A well-formed index lists no empty group. */
  lemma EntriesNonEmpty(idx: Index)
    requires WellFormed(idx)
    ensures forall p :: 0 <= p < |Entries(idx)| ==> |Entries(idx)[p].group| > 0
  {
    EntriesMembers(idx);
    forall p | 0 <= p < |Entries(idx)|
      ensures |Entries(idx)[p].group| > 0
    {
      var e := Entries(idx)[p];
      assert e in Entries(idx);
      var i, j :| 0 <= i < |idx| && 0 <= j < |idx[i].1| && e == Entry(idx[i].0, idx[i].1[j].0, idx[i].1[j].1);
      assert ScopeWellFormed(idx[i].1);
    }
  }


  /** Channel order of `to_channel`: the channel of reference j of scope i
      of the index is number Offset(idx, i) + j, and carries that scope, that
      reference and the reference's sibling count. */
  lemma ToChannelsAt(ts: seq<Token>, i: nat, j: nat)
    requires ToChannels(ts).Success?
    requires i < |ScopeVars(ts).value| && j < |ScopeVars(ts).value[i].1|
    ensures var idx := ScopeVars(ts).value;
      var cs := ToChannels(ts).value;
      && |cs| == Offset(idx, |idx|)
      && Offset(idx, i) + j < |cs|
      && cs[Offset(idx, i) + j].scope == idx[i].0
      && cs[Offset(idx, i) + j].name == idx[i].1[j].0
      && cs[Offset(idx, i) + j].size == |idx[i].1[j].1|
  {
    var idx := ScopeVars(ts).value;
    var k := Offset(idx, i) + j;
    var cs := ToChannels(ts).value;
    ToChannelsBuild(ts);
    BuildLabelled(Entries(idx), ts);
    LabelledAt(idx, cs, i, j);
  }

  /** Channel p carries the scope, reference and sibling count of group p. */
  predicate Labelled(cs: seq<Channel>, es: seq<Entry>) {
    && |cs| == |es|
    && forall p :: 0 <= p < |cs| ==>
         cs[p].scope == es[p].scope && cs[p].name == es[p].name && cs[p].size == |es[p].group|
  }

  lemma BuildLabelled(es: seq<Entry>, ts: seq<Token>)
    requires BuildChannels(es, ts).Success?
    ensures Labelled(BuildChannels(es, ts).value, es)
  {
    forall p | 0 <= p < |es| {
      BuildChannelsAt(es, ts, p);
    }
  }

  lemma LabelledAt(idx: Index, cs: seq<Channel>, i: nat, j: nat)
    requires Labelled(cs, Entries(idx))
    requires i < |idx| && j < |idx[i].1|
    ensures |cs| == Offset(idx, |idx|)
    ensures Offset(idx, i) + j < |cs|
    ensures cs[Offset(idx, i) + j].scope == idx[i].0
    ensures cs[Offset(idx, i) + j].name == idx[i].1[j].0
    ensures cs[Offset(idx, i) + j].size == |idx[i].1[j].1|
  {
    EntriesCount(idx);
    EntriesAt(idx, i, j);
  }

  lemma ToChannelsBuild(ts: seq<Token>)
    requires ScopeVars(ts).Success?
    ensures ToChannels(ts) == BuildChannels(Entries(ScopeVars(ts).value), ts)
  {
  }
}
