/** The declaration index (`VcdSimulation.scope_vars`): one pass over the
    tokens with a single "current scope" slot, building
    scope ident -> variable reference -> bit index -> declaration. */
module Declarations {
  import opened Wrappers
  import opened AssocLists
  import opened Tokens

  /** The sibling declarations of one reference, keyed by bit index. */
  type Group = AList<BitIndex, VarDecl>

  /** The references of one scope. */
  type ScopeMap = AList<string, Group>

  type Index = AList<string, ScopeMap>

  /** The fold state: the index so far and the current scope, if any. */
  datatype Cursor = Cursor(acc: Index, scope: Option<string>)

  /** `acc[s][f][b]` as an option. */
  function Lookup(idx: Index, s: string, f: string, b: BitIndex): Option<VarDecl> {
    match Get(idx, s)
    case None => None
    case Some(refs) =>
      match Get(refs, f)
      case None => None
      case Some(group) => Get(group, b)
  }

  /** The ident of the last `$scope` token of ts: the current scope once ts
      has been consumed. Scopes do not nest and `$upscope` is ignored. */
  function ActiveScope(ts: seq<Token>): (r: Option<string>)
    ensures r.None? <==> forall j :: 0 <= j < |ts| ==> !ts[j].Scope?
    ensures r.Some? ==> exists j :: 0 <= j < |ts| && ts[j] == Scope(r.value)
  {
    if ts == [] then None
    else if ts[|ts| - 1].Scope? then Some(ts[|ts| - 1].ident)
    else
      var r := ActiveScope(ts[..|ts| - 1]);
      assert forall j :: 0 <= j < |ts| - 1 ==> ts[..|ts| - 1][j] == ts[j];
      r
  }

  /** The nested assignment leaves every other slot as it was. */
  lemma DeclareElsewhere(acc: Index, s: string, d: VarDecl, refs: ScopeMap, group: Group,
                         s': string, f: string, b: BitIndex)
    requires refs == Get(acc, s).GetOr([]) && group == Get(refs, d.reference).GetOr([])
    requires (s', f, b) != (s, d.reference, d.bitIndex)
    ensures Lookup(Put(acc, s, Put(refs, d.reference, Put(group, d.bitIndex, d))), s', f, b)
         == Lookup(acc, s', f, b)
  {
    var refs' := Put(refs, d.reference, Put(group, d.bitIndex, d));
    var r := Put(acc, s, refs');
    if s' != s {
      assert Get(r, s') == Get(acc, s');
    } else {
      assert Get(r, s) == Some(refs');
      assert Lookup(r, s', f, b) == Get(Get(refs', f).GetOr([]), b);
      assert Lookup(acc, s', f, b) == Get(Get(refs, f).GetOr([]), b);
      if f == d.reference {
        assert Get(refs', f) == Some(Put(group, d.bitIndex, d));
      } else {
        assert Get(refs', f) == Get(refs, f);
      }
    }
  }

  /** `acc[s][d.reference][d.bitIndex] = d`, creating the reference's map
      first when it is new (lines 39-42). */
  function Declare(acc: Index, s: string, d: VarDecl): (r: Index)
    ensures HasKey(r, s)
    ensures Lookup(r, s, d.reference, d.bitIndex) == Some(d)
    ensures forall s', f, b :: (s', f, b) != (s, d.reference, d.bitIndex) ==>
              Lookup(r, s', f, b) == Lookup(acc, s', f, b)
  {
    var refs := Get(acc, s).GetOr([]);
    var group := Get(refs, d.reference).GetOr([]);
    var refs' := Put(refs, d.reference, Put(group, d.bitIndex, d));
    var r := Put(acc, s, refs');
    assert Get(r, s) == Some(refs');
    forall s', f, b | (s', f, b) != (s, d.reference, d.bitIndex)
      ensures Lookup(r, s', f, b) == Lookup(acc, s', f, b)
    {
      DeclareElsewhere(acc, s, d, refs, group, s', f, b);
    }
    r
  }

  /** One iteration of the loop body. */
  function Step(c: Cursor, t: Token, pos: nat): (r: Result<Cursor, Fault>)
    ensures t.Scope? ==>
      && r.Success?
      && r.value.scope == Some(t.ident)
      && Get(r.value.acc, t.ident) == Some([])
      && forall s :: s != t.ident ==> Get(r.value.acc, s) == Get(c.acc, s)
    ensures t.Var? && c.scope.None? ==> r == Failure(VarBeforeScope(pos))
    ensures t.Var? && c.scope.Some? ==>
      && r.Success?
      && r.value.scope == c.scope
      && HasKey(r.value.acc, c.scope.value)
      && Lookup(r.value.acc, c.scope.value, t.decl.reference, t.decl.bitIndex) == Some(t.decl)
      && forall s, f, b :: (s, f, b) != (c.scope.value, t.decl.reference, t.decl.bitIndex) ==>
           Lookup(r.value.acc, s, f, b) == Lookup(c.acc, s, f, b)
    ensures !t.Scope? && !t.Var? ==> r == Success(c)
  {
    match t
    case Scope(ident) => Success(Cursor(Put(c.acc, ident, []), Some(ident)))
    case Var(decl) =>
      if c.scope.None? then Failure(VarBeforeScope(pos))
      else Success(Cursor(Declare(c.acc, c.scope.value, decl), c.scope))
    case _ => Success(c)
  }

  /** The loop over ts, run left to right; the first fault aborts it. */
  function Fold(ts: seq<Token>): (r: Result<Cursor, Fault>)
    ensures r.Success? ==> r.value.scope == ActiveScope(ts)
    ensures r.Success? && r.value.scope.Some? ==> HasKey(r.value.acc, r.value.scope.value)
    decreases |ts|
  {
    if ts == [] then Success(Cursor([], None))
    else
      var c :- Fold(ts[..|ts| - 1]);
      Step(c, ts[|ts| - 1], |ts| - 1)
  }

  /** `VcdSimulation.scope_vars`. */
  function ScopeVars(ts: seq<Token>): Result<Index, Fault> {
    var c :- Fold(ts);
    Success(c.acc)
  }

  /** Reference semantics of one slot of the index: the declaration of the
      last `$var` for (f, b) issued while s was the current scope, unless a
      later `$scope s` reset that scope. */
  function LastDecl(ts: seq<Token>, s: string, f: string, b: BitIndex): Option<VarDecl>
    decreases |ts|
  {
    if ts == [] then None
    else
      var t := ts[|ts| - 1];
      var p := ts[..|ts| - 1];
      if t == Scope(s) then None
      else if t.Var? && t.decl.reference == f && t.decl.bitIndex == b && ActiveScope(p) == Some(s) then Some(t.decl)
      else LastDecl(p, s, f, b)
  }

  /** A `$var` token at position i with no `$scope` before it. */
  predicate Unscoped(ts: seq<Token>, i: int) {
    0 <= i < |ts| && ts[i].Var? && forall j :: 0 <= j < i ==> !ts[j].Scope?
  }

  /** Every slot of a successfully built index holds exactly what the
      reference semantics says. */
  lemma {:induction false} ScopeVarsLookup(ts: seq<Token>, s: string, f: string, b: BitIndex)
    requires ScopeVars(ts).Success?
    ensures Lookup(ScopeVars(ts).value, s, f, b) == LastDecl(ts, s, f, b)
    decreases |ts|
  {
    if ts != [] {
      var p := ts[..|ts| - 1];
      var t := ts[|ts| - 1];
      ScopeVarsLookup(p, s, f, b);
      var c := Fold(p).value;
      assert c.scope == ActiveScope(p);
      assert Fold(ts) == Step(c, t, |ts| - 1);
      StepLookup(c, t, |ts| - 1, s, f, b);
    }
  }

  /** One step changes one slot the way the reference semantics does. */
  lemma StepLookup(c: Cursor, t: Token, pos: nat, s: string, f: string, b: BitIndex)
    requires Step(c, t, pos).Success?
    ensures Lookup(Step(c, t, pos).value.acc, s, f, b)
         == if t == Scope(s) then None
            else if t.Var? && t.decl.reference == f && t.decl.bitIndex == b && c.scope == Some(s) then Some(t.decl)
            else Lookup(c.acc, s, f, b)
  {
    var r := Step(c, t, pos).value;
    if t.Scope? && t.ident != s {
      assert Get(r.acc, s) == Get(c.acc, s);
    }
  }

  /** The index fails to build exactly when some `$var` precedes every
      `$scope`, and the fault names the first `$var`. */
  lemma {:induction false} ScopeVarsFailsIff(ts: seq<Token>)
    ensures ScopeVars(ts).Failure? <==> exists i :: Unscoped(ts, i)
    ensures ScopeVars(ts).Failure? ==>
      exists i :: Unscoped(ts, i) && ScopeVars(ts).error == VarBeforeScope(i)
                  && forall j :: 0 <= j < i ==> !ts[j].Var?
  {
    FoldFailsIff(ts);
  }

  lemma {:induction false} FoldFailsIff(ts: seq<Token>)
    ensures Fold(ts).Failure? <==> exists i :: Unscoped(ts, i)
    ensures Fold(ts).Failure? ==>
      exists i :: Unscoped(ts, i) && Fold(ts).error == VarBeforeScope(i)
                  && forall j :: 0 <= j < i ==> !ts[j].Var?
    decreases |ts|
  {
    if ts != [] {
      var p := ts[..|ts| - 1];
      var t := ts[|ts| - 1];
      FoldFailsIff(p);
      assert forall j :: 0 <= j < |p| ==> p[j] == ts[j];
      if Fold(p).Failure? {
        var i :| Unscoped(p, i) && Fold(p).error == VarBeforeScope(i) && forall j :: 0 <= j < i ==> !p[j].Var?;
        assert Unscoped(ts, i);
        assert Fold(ts) == Failure(Fold(p).error);
      } else {
        var c := Fold(p).value;
        assert Fold(ts) == Step(c, t, |ts| - 1);
        if t.Var? && c.scope.None? {
          assert Unscoped(ts, |ts| - 1);
          forall j | 0 <= j < |ts| - 1
            ensures !ts[j].Var?
          {
            assert !Unscoped(p, j);
          }
        } else {
          forall i | 0 <= i < |ts|
            ensures !Unscoped(ts, i)
          {
            if i < |p| {
              assert !Unscoped(p, i);
            }
          }
        }
      }
    }
  }
}
