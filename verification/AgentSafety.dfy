/**
 What every agent pass keeps: a program loaded on the node belongs to exactly one BpfProgram object, of the *Program it
 was loaded for, that still carries the agent's finalizer and whose ID annotation names the loaded program.
 */
module AgentSafety {
  import opened Wrappers
  import opened AgentModel
  import opened AgentWrites

  // ----- The invariant -----

  ghost predicate WellFormed(objs: map<ObjName, BpfObj>) {
    && (forall n | n in objs :: objs[n].name == n)
    && (forall m, n | m in objs && n in objs && objs[m].uid == objs[n].uid :: m == n)
  }

  ghost predicate IdsUnique(loaded: map<Uid, LoadedProg>) {
    forall u, v | u in loaded && v in loaded && loaded[u].id == loaded[v].id :: u == v
  }

  /** `o` is the object that keeps the program loaded under UID `u` from being forgotten. */
  ghost predicate Backs(o: BpfObj, u: Uid, prog: LoadedProg, node: NodeName) {
    o.uid == u && o.node == node && o.finalizer && o.id == Some(prog.id) && o.owner == prog.request.owner
  }

  ghost predicate Backed(objs: map<ObjName, BpfObj>, u: Uid, prog: LoadedProg, node: NodeName) {
    exists n :: n in objs && Backs(objs[n], u, prog, node)
  }

  ghost predicate Inv(objs: map<ObjName, BpfObj>, loaded: map<Uid, LoadedProg>, node: NodeName) {
    && WellFormed(objs)
    && IdsUnique(loaded)
    && forall u | u in loaded :: Backed(objs, u, loaded[u], node)
  }

  // ----- Hypotheses on a pass -----

  /** ID annotations parse, unloads succeed, and recording the ID of a program just loaded succeeds. */
  ghost predicate Dependable(f: Oracle) {
    f.unloadFails == {} && f.badIds == {} && f.loads.Keys !! f.writeFails
  }

  /** The part of `Dependable` that one BpfProgram needs. */
  ghost predicate DependableFor(f: Oracle, n: ObjName) {
    n !in f.unloadFails && n !in f.badIds && !(n in f.loads && n in f.writeFails)
  }

  /** The kernel hands out each ID once, and never one that is in use. */
  ghost predicate KernelIdsFresh(f: Oracle, loaded: map<Uid, LoadedProg>) {
    && (forall m, n | m in f.loads && n in f.loads && f.loads[m] == f.loads[n] :: m == n)
    && (forall n, u | n in f.loads && u in loaded :: f.loads[n] != loaded[u].id)
  }

  ghost predicate UidFresh(uid: Uid, objs: map<ObjName, BpfObj>, loaded: map<Uid, LoadedProg>) {
    uid !in loaded && forall n | n in objs :: objs[n].uid != uid
  }

  /** No BpfProgram that lost its finalizer is expected again. */
  ghost predicate ExpectedHaveFinalizers(existing: map<ObjName, BpfObj>, expected: seq<Expected>) {
    forall i | 0 <= i < |expected| && expected[i].name in existing :: existing[expected[i].name].finalizer
  }

  // ----- One BpfProgram -----

  ghost predicate SameEntry(a: map<Uid, LoadedProg>, b: map<Uid, LoadedProg>, u: Uid) {
    (u in a <==> u in b) && (u in a ==> a[u] == b[u])
  }

  ghost predicate SameExcept(a: map<Uid, LoadedProg>, b: map<Uid, LoadedProg>, uid: Uid) {
    forall u | u != uid :: SameEntry(a, b, u)
  }

  /** For every name still to be visited, the listing is current and the ID waiting for it is unused. */
  ghost predicate Ready(s: NodeState, listed: map<Uid, LoadedProg>, f: Oracle, todo: set<ObjName>) {
    && (forall n | n in todo && n in s.objs :: SameEntry(listed, s.loaded, s.objs[n].uid))
    && (forall n, u | n in todo && n in f.loads && u in s.loaded :: f.loads[n] != s.loaded[u].id)
    && (forall m, n | m in f.loads && n in f.loads && f.loads[m] == f.loads[n] :: m == n)
  }

  /** The object backing an object's own program is that object. */
  lemma OwnBacking(s: NodeState, o: BpfObj, node: NodeName)
    requires Inv(s.objs, s.loaded, node) && o.name in s.objs && s.objs[o.name] == o && o.uid in s.loaded
    ensures Backs(o, o.uid, s.loaded[o.uid], node)
  {
    var n :| n in s.objs && Backs(s.objs[n], o.uid, s.loaded[o.uid], node);
    assert n == o.name;
  }

  lemma UnloadOwn(s: NodeState, o: BpfObj, f: Oracle, node: NodeName)
    requires Inv(s.objs, s.loaded, node) && o.name in s.objs && s.objs[o.name] == o && o.uid in s.loaded
    requires o.name !in f.unloadFails
    ensures o.finalizer && o.id == Some(s.loaded[o.uid].id)
    ensures var u := UnloadProg(s, o, o.id.value, f);
            u.ok && u.s == s.(loaded := u.s.loaded) && SameExcept(s.loaded, u.s.loaded, o.uid) && o.uid !in u.s.loaded
  {
    OwnBacking(s, o, node);
  }

  /** Only this BpfProgram's entry changed in bpfman, and to what the decision says. */
  ghost predicate Effect(s: NodeState, r: Reconciled, o: BpfObj, c: Ctx, deleting: bool, f: Oracle) {
    && r.Reconciled?
    && r.s.objs == s.objs
    && SameExcept(s.loaded, r.s.loaded, o.uid)
    && IdsUnique(r.s.loaded)
    && (!ShouldBeLoaded(c, o, deleting) ==> o.uid !in r.s.loaded && r.ok && r.cond == SuccessCondition(c, o, deleting))
    && (o.uid in r.s.loaded ==>
          || SameEntry(s.loaded, r.s.loaded, o.uid)
          || (o.name in f.loads && r.s.loaded[o.uid].id == f.loads[o.name] && r.s.progId == Some(f.loads[o.name])
              && r.s.loaded[o.uid].request.owner == c.prog.name && r.ok && r.cond == Loaded))
    && (o.uid in r.s.loaded && r.ok ==> r.s.progId == Some(r.s.loaded[o.uid].id))
    && (o.uid !in r.s.loaded && ShouldBeLoaded(c, o, deleting) ==> r.s.progId.None? || !r.ok)
  }

  lemma LoadedEffect(s: NodeState, actual: Request, o: BpfObj, c: Ctx, deleting: bool, f: Oracle)
    requires Inv(s.objs, s.loaded, c.node) && o.name in s.objs && s.objs[o.name] == o && o.uid in s.loaded
    requires DependableFor(f, o.name)
    requires o.name in f.loads ==> forall u | u in s.loaded :: f.loads[o.name] != s.loaded[u].id
    ensures Effect(s, ReconcileLoaded(s, actual, o, c, deleting, f), o, c, deleting, f)
  {
    UnloadOwn(s, o, f, c.node);
    var u := UnloadProg(s, o, o.id.value, f);
    if ShouldBeLoaded(c, o, deleting) && o.name !in f.requestFails && !DoesProgExist(actual, LoadRequest(c, o)) {
      ReloadEffect(s, u.s, o, c, deleting, f);
    }
  }

  /** Unloaded first, then loaded again if that succeeds; `t` is the state in between. */
  lemma ReloadEffect(s: NodeState, t: NodeState, o: BpfObj, c: Ctx, deleting: bool, f: Oracle)
    requires t == s.(loaded := t.loaded) && SameExcept(s.loaded, t.loaded, o.uid) && o.uid !in t.loaded
    requires IdsUnique(s.loaded) && ShouldBeLoaded(c, o, deleting)
    requires o.name in f.loads ==> forall u | u in s.loaded :: f.loads[o.name] != s.loaded[u].id
    ensures
      var r := if o.name !in f.loads then Reconciled(t.(progId := None), NotLoaded, false)
               else Reconciled(LoadProg(t, o, LoadRequest(c, o), f.loads[o.name], f), Loaded, true);
      Effect(s, r, o, c, deleting, f)
  {
    forall u | u in t.loaded ensures u in s.loaded && s.loaded[u] == t.loaded[u] {
      assert SameEntry(s.loaded, t.loaded, u);
    }
    if o.name in f.loads {
      OneMoreLoaded(s, t, o.uid, LoadedProg(f.loads[o.name], Listed(LoadRequest(c, o), f)));
    }
  }

  lemma OneMoreLoaded(s: NodeState, t: NodeState, uid: Uid, prog: LoadedProg)
    requires SameExcept(s.loaded, t.loaded, uid) && uid !in t.loaded
    requires IdsUnique(s.loaded) && forall u | u in s.loaded :: prog.id != s.loaded[u].id
    ensures SameExcept(s.loaded, t.loaded[uid := prog], uid) && IdsUnique(t.loaded[uid := prog])
  {
    var after := t.loaded[uid := prog];
    forall u | u != uid ensures SameEntry(s.loaded, after, u) { assert SameEntry(s.loaded, t.loaded, u); }
    forall u, v | u in after && v in after && after[u].id == after[v].id ensures u == v {
      assert u != uid ==> SameEntry(s.loaded, after, u);
      assert v != uid ==> SameEntry(s.loaded, after, v);
    }
  }

  /** Effect of reconcileBpfProgram on bpfman. */
  lemma ReconcileEffect(s: NodeState, listed: map<Uid, LoadedProg>, o: BpfObj, c: Ctx, deleting: bool, f: Oracle)
    requires Inv(s.objs, s.loaded, c.node) && o.name in s.objs && s.objs[o.name] == o
    requires DependableFor(f, o.name) && Ready(s, listed, f, {o.name})
    ensures Effect(s, ReconcileBpf(s, listed, o, c, deleting, f), o, c, deleting, f)
  {
    assert SameEntry(listed, s.loaded, o.uid);
    if o.uid in s.loaded { LoadedEffect(s, listed[o.uid].request, o, c, deleting, f); }
  }

  /** A write that keeps name, UID, node, finalizer and ID leaves every program backed. */
  lemma PutKeepsInv(s: NodeState, o: BpfObj, o': BpfObj, loaded: map<Uid, LoadedProg>, node: NodeName)
    requires WellFormed(s.objs) && o.name in s.objs && s.objs[o.name] == o
    requires o'.name == o.name && o'.uid == o.uid && o'.node == o.node && o'.owner == o.owner
    requires IdsUnique(loaded)
    requires forall u | u in loaded && u != o.uid :: Backed(s.objs, u, loaded[u], node)
    requires o.uid in loaded ==> Backs(o', o.uid, loaded[o.uid], node)
    ensures Inv(s.objs[o.name := o'], loaded, node)
  {
    var objs := s.objs[o.name := o'];
    forall u | u in loaded
      ensures Backed(objs, u, loaded[u], node)
    {
      if u == o.uid {
        assert Backs(objs[o.name], u, loaded[u], node);
      } else {
        var n :| n in s.objs && Backs(s.objs[n], u, loaded[u], node);
        assert n in objs && Backs(objs[n], u, loaded[u], node);
      }
    }
  }

  lemma DropKeepsInv(s: NodeState, o: BpfObj, loaded: map<Uid, LoadedProg>, node: NodeName)
    requires WellFormed(s.objs) && o.name in s.objs && s.objs[o.name] == o
    requires IdsUnique(loaded) && o.uid !in loaded
    requires forall u | u in loaded :: Backed(s.objs, u, loaded[u], node)
    ensures Inv(s.objs - {o.name}, loaded, node)
  {
    forall u | u in loaded
      ensures Backed(s.objs - {o.name}, u, loaded[u], node)
    {
      var n :| n in s.objs && Backs(s.objs[n], u, loaded[u], node);
      assert n in s.objs - {o.name};
    }
  }

  lemma BackedBySame(s: NodeState, t: NodeState, o: BpfObj, node: NodeName)
    requires Inv(s.objs, s.loaded, node) && t.objs == s.objs && SameExcept(s.loaded, t.loaded, o.uid)
    ensures forall u | u in t.loaded && u != o.uid :: Backed(t.objs, u, t.loaded[u], node)
  {
    forall u | u in t.loaded && u != o.uid
      ensures Backed(t.objs, u, t.loaded[u], node)
    {
      assert SameEntry(s.loaded, t.loaded, u);
    }
  }

  /** One iteration of handleProgDelete keeps the invariant; afterwards this BpfProgram is not loaded. */
  lemma DeleteOneKeepsInv(s: NodeState, listed: map<Uid, LoadedProg>, o: BpfObj, c: Ctx, f: Oracle)
    requires Inv(s.objs, s.loaded, c.node) && o.name in s.objs && s.objs[o.name] == o && o.node == c.node
    requires DependableFor(f, o.name) && Ready(s, listed, f, {o.name})
    ensures
      var r := DeleteOne(s, listed, o, c, f);
      && Inv(r.s.objs, r.s.loaded, c.node)
      && SameExcept(s.loaded, r.s.loaded, o.uid) && o.uid !in r.s.loaded
      && (r.Next? ==> r.s.objs == s.objs)
  {
    var r := ReconcileBpf(s, listed, o, c, true, f);
    ReconcileEffect(s, listed, o, c, true, f);
    BackedBySame(s, r.s, o, c.node);
    assert Inv(r.s.objs, r.s.loaded, c.node);
    if o.finalizer {
      FinalizerKeepsInv(r.s, o, f, c.node);
    } else if c.prog.deleting {
      StatusKeepsInv(r.s, o, r.cond, f, c.node);
    } else {
      DropKeepsInv(r.s, o, r.s.loaded, c.node);
    }
  }

  lemma FinalizerKeepsInv(s: NodeState, o: BpfObj, f: Oracle, node: NodeName)
    requires Inv(s.objs, s.loaded, node) && o.name in s.objs && s.objs[o.name] == o && o.uid !in s.loaded
    ensures Inv(RemoveFinalizer(s, o, f).objs, s.loaded, node)
  {
    if o.terminating {
      DropKeepsInv(s, o, s.loaded, node);
    } else {
      PutKeepsInv(s, o, o.(finalizer := false), s.loaded, node);
    }
  }

  /** Writing only the condition keeps the invariant. */
  lemma StatusKeepsInv(s: NodeState, o: BpfObj, cond: Cond, f: Oracle, node: NodeName)
    requires Inv(s.objs, s.loaded, node) && o.name in s.objs && s.objs[o.name] == o && o.node == node
    ensures var r := StatusFlow(UpdateStatus(s, o, cond, f));
            Inv(r.s.objs, r.s.loaded, node) && r.s.loaded == s.loaded && (r.Next? ==> r.s.objs == s.objs)
  {
    if o.conds != [cond] && o.name !in f.writeFails {
      if o.uid in s.loaded { OwnBacking(s, o, node); }
      PutKeepsInv(s, o, o.(conds := [cond]), s.loaded, node);
    }
  }

  /** Recording the agent's program ID restores the invariant for the one program that may lack an annotation. */
  lemma RecordIdKeepsInv(s: NodeState, o: BpfObj, cond: Cond, f: Oracle, node: NodeName)
    requires WellFormed(s.objs) && IdsUnique(s.loaded)
    requires o.name in s.objs && s.objs[o.name] == o && o.node == node
    requires o.uid in s.loaded ==> o.finalizer && o.owner == s.loaded[o.uid].request.owner
    requires forall u | u in s.loaded && u != o.uid :: Backed(s.objs, u, s.loaded[u], node)
    requires o.name !in f.badIds
    requires o.uid in s.loaded ==> s.progId == Some(s.loaded[o.uid].id)
    requires o.uid in s.loaded && o.id != s.progId ==> o.name !in f.writeFails
    ensures var r := RecordId(s, o, cond, f);
            Inv(r.s.objs, r.s.loaded, node) && r.s.loaded == s.loaded && (r.Next? ==> r.s.objs == s.objs)
  {
    if o.id == s.progId || o.uid !in s.loaded {
      PutKeepsInv(s, o, o, s.loaded, node);
      assert s.objs[o.name := o] == s.objs;
      StatusKeepsInv(s, o, cond, f, node);
    }
    if o.id != s.progId && s.progId.Some? {
      PutKeepsInv(s, o, o.(id := s.progId), s.loaded, node);
    }
  }

  /** One iteration of handleProgCreateOrUpdate over a BpfProgram that still has its finalizer. */
  lemma UpdateOneKeepsInv(s: NodeState, listed: map<Uid, LoadedProg>, o: BpfObj, c: Ctx, f: Oracle)
    requires Inv(s.objs, s.loaded, c.node) && o.name in s.objs && s.objs[o.name] == o && o.node == c.node
    requires DependableFor(f, o.name) && Ready(s, listed, f, {o.name})
    requires o.finalizer && o.owner == c.prog.name
    ensures
      var r := UpdateOne(s, listed, o, c, f);
      && Inv(r.s.objs, r.s.loaded, c.node)
      && SameExcept(s.loaded, r.s.loaded, o.uid)
      && (o.uid in r.s.loaded && !SameEntry(s.loaded, r.s.loaded, o.uid) ==>
            o.name in f.loads && r.s.loaded[o.uid].id == f.loads[o.name])
      && (r.Next? ==> r.s.objs == s.objs)
  {
    ReconcileEffect(s, listed, o, c, c.prog.deleting, f);
    var r := ReconcileBpf(s, listed, o, c, c.prog.deleting, f);
    assert UpdateOne(s, listed, o, c, f) == AfterReconcile(r, o, f);
    UpdateOneTail(s, r, o, c, f);
  }

  /** The rest of an iteration of handleProgCreateOrUpdate after its reconcile. */
  function AfterReconcile(r: Reconciled, o: BpfObj, f: Oracle): Flow
    requires r.Reconciled?
  {
    if !r.ok || SkipsId(r.cond) then StatusFlow(UpdateStatus(r.s, o, r.cond, f)) else RecordId(r.s, o, r.cond, f)
  }

  lemma UpdateOneTail(s: NodeState, r: Reconciled, o: BpfObj, c: Ctx, f: Oracle)
    requires Inv(s.objs, s.loaded, c.node) && o.name in s.objs && s.objs[o.name] == o && o.node == c.node
    requires DependableFor(f, o.name)
    requires r.Reconciled? && (o.uid in r.s.loaded ==> o.finalizer && o.owner == r.s.loaded[o.uid].request.owner)
    requires r.s.objs == s.objs
    requires SameExcept(s.loaded, r.s.loaded, o.uid) && IdsUnique(r.s.loaded)
    requires o.uid in r.s.loaded && r.ok ==> r.s.progId == Some(r.s.loaded[o.uid].id)
    requires o.uid in r.s.loaded && (!r.ok || SkipsId(r.cond) || o.name !in f.loads) ==>
             SameEntry(s.loaded, r.s.loaded, o.uid)
    ensures
      var t := AfterReconcile(r, o, f);
      Inv(t.s.objs, t.s.loaded, c.node) && t.s.loaded == r.s.loaded && (t.Next? ==> t.s.objs == s.objs)
  {
    BackedBySame(s, r.s, o, c.node);
    if o.uid in s.loaded { OwnBacking(s, o, c.node); }
    if !r.ok || SkipsId(r.cond) {
      StatusKeepsInv(r.s, o, r.cond, f, c.node);
    } else {
      RecordIdKeepsInv(r.s, o, r.cond, f, c.node);
    }
  }

  // ----- Whole loops -----

  /** Having visited one BpfProgram, the pass is still ready for all the others. */
  lemma ReadyForOthers(s: NodeState, t: NodeState, listed: map<Uid, LoadedProg>, o: BpfObj, f: Oracle,
                       todo: set<ObjName>)
    requires WellFormed(s.objs) && o.name in s.objs && s.objs[o.name] == o && t.objs == s.objs
    requires Ready(s, listed, f, todo) && SameExcept(s.loaded, t.loaded, o.uid)
    requires o.uid in t.loaded && !SameEntry(s.loaded, t.loaded, o.uid) ==>
               o.name in f.loads && t.loaded[o.uid].id == f.loads[o.name]
    ensures Ready(t, listed, f, todo - {o.name})
  {
    forall n, u | n in todo - {o.name} && n in f.loads && u in t.loaded
      ensures f.loads[n] != t.loaded[u].id
    {
      assert u != o.uid ==> SameEntry(s.loaded, t.loaded, u);
    }
    forall n | n in todo - {o.name} && n in t.objs
      ensures SameEntry(listed, t.loaded, t.objs[n].uid)
    {
      assert SameEntry(s.loaded, t.loaded, t.objs[n].uid);
    }
  }

  ghost predicate Distinct<T>(xs: seq<T>) {
    forall i, j | 0 <= i < j < |xs| :: xs[i] != xs[j]
  }

  ghost function Rest(order: seq<ObjName>, i: nat): set<ObjName>
    requires i <= |order|
  {
    set k | i <= k < |order| :: order[k]
  }

  /** `existing` is what the pass read: current objects of this node. */
  ghost predicate Current(existing: map<ObjName, BpfObj>, objs: map<ObjName, BpfObj>, node: NodeName) {
    forall n | n in existing :: n in objs && objs[n] == existing[n] && existing[n].node == node
  }

  /** One iteration of handleProgDelete, with what it leaves for the rest of the pass. */
  lemma DeleteStep(
    s: NodeState, listed: map<Uid, LoadedProg>, o: BpfObj, c: Ctx, f: Oracle, todo: set<ObjName>)
    requires Inv(s.objs, s.loaded, c.node) && o.name in s.objs && s.objs[o.name] == o && o.node == c.node
    requires Dependable(f) && Ready(s, listed, f, todo) && o.name in todo
    ensures
      var r := DeleteOne(s, listed, o, c, f);
      && Inv(r.s.objs, r.s.loaded, c.node)
      && (r.Next? || GoesOn(r.outcome) ==> r.s.objs == s.objs && Ready(r.s, listed, f, todo - {o.name}))
  {
    DeleteOneKeepsInv(s, listed, o, c, f);
    var r := DeleteOne(s, listed, o, c, f);
    DeleteOneWrites(s, listed, o, c, f);
    if r.Next? || GoesOn(r.outcome) { ReadyForOthers(s, r.s, listed, o, f, todo); }
  }

  lemma ReadyForFewer(s: NodeState, listed: map<Uid, LoadedProg>, f: Oracle, todo: set<ObjName>, fewer: set<ObjName>)
    requires Ready(s, listed, f, todo) && fewer <= todo
    ensures Ready(s, listed, f, fewer)
  {
  }

  ghost function Todo(existing: map<ObjName, BpfObj>, order: seq<ObjName>, i: nat, others: set<ObjName>): set<ObjName>
    requires i <= |order|
  {
    others + existing.Keys * Rest(order, i)
  }

  lemma TodoShrinks(existing: map<ObjName, BpfObj>, order: seq<ObjName>, i: nat, others: set<ObjName>)
    requires i < |order| && Distinct(order) && others !! existing.Keys
    ensures Todo(existing, order, i + 1, others) <= Todo(existing, order, i, others)
    ensures order[i] in existing ==>
            Todo(existing, order, i + 1, others) <= Todo(existing, order, i, others) - {order[i]}
    ensures order[i] in existing ==> order[i] in Todo(existing, order, i, others)
    ensures others <= Todo(existing, order, i, others)
    ensures order[i] in existing ==> others <= Todo(existing, order, i, others) - {order[i]}
  {
  }

  /** The deletion loop before its i-th iteration. */
  ghost predicate InDelete(
    s: NodeState, listed: map<Uid, LoadedProg>, existing: map<ObjName, BpfObj>, c: Ctx, f: Oracle, i: nat,
    others: set<ObjName>)
  {
    && i <= |f.order| && Distinct(f.order)
    && Inv(s.objs, s.loaded, c.node) && Current(existing, s.objs, c.node) && Dependable(f)
    && others !! existing.Keys && Ready(s, listed, f, Todo(existing, f.order, i, others))
  }

  lemma InDeleteSkip(
    s: NodeState, listed: map<Uid, LoadedProg>, existing: map<ObjName, BpfObj>, c: Ctx, f: Oracle, i: nat,
    others: set<ObjName>)
    requires InDelete(s, listed, existing, c, f, i, others) && i < |f.order| && f.order[i] !in existing
    ensures InDelete(s, listed, existing, c, f, i + 1, others)
  {
    TodoShrinks(existing, f.order, i, others);
    ReadyForFewer(s, listed, f, Todo(existing, f.order, i, others), Todo(existing, f.order, i + 1, others));
  }

  lemma InDeleteNext(
    s: NodeState, listed: map<Uid, LoadedProg>, existing: map<ObjName, BpfObj>, c: Ctx, f: Oracle, i: nat,
    others: set<ObjName>)
    requires InDelete(s, listed, existing, c, f, i, others) && i < |f.order| && f.order[i] in existing
    ensures
      var r := DeleteOne(s, listed, existing[f.order[i]], c, f);
      && Inv(r.s.objs, r.s.loaded, c.node)
      && (r.Next? ==> r.s.objs == s.objs && InDelete(r.s, listed, existing, c, f, i + 1, others))
      && (r.Exit? && GoesOn(r.outcome) ==> r.s.objs == s.objs && Ready(r.s, listed, f, others))
  {
    TodoShrinks(existing, f.order, i, others);
    var o, todo := existing[f.order[i]], Todo(existing, f.order, i, others);
    DeleteStep(s, listed, o, c, f, todo);
    var r := DeleteOne(s, listed, o, c, f);
    if r.Next? {
      ReadyForFewer(r.s, listed, f, todo - {o.name}, Todo(existing, f.order, i + 1, others));
    } else if GoesOn(r.outcome) {
      ReadyForFewer(r.s, listed, f, todo - {o.name}, others);
    }
  }

  lemma {:induction false} DeleteFromKeepsInv(
    s: NodeState, listed: map<Uid, LoadedProg>, existing: map<ObjName, BpfObj>, c: Ctx, f: Oracle, i: nat,
    others: set<ObjName>)
    requires InDelete(s, listed, existing, c, f, i, others)
    ensures
      var p := DeleteFrom(s, listed, existing, c, f, i);
      && Inv(p.s.objs, p.s.loaded, c.node)
      && (GoesOn(p.outcome) ==> p.s.objs == s.objs && Ready(p.s, listed, f, others))
    decreases |f.order| - i
  {
    if i == |f.order| {
      ReadyForFewer(s, listed, f, Todo(existing, f.order, i, others), others);
    } else if f.order[i] !in existing {
      InDeleteSkip(s, listed, existing, c, f, i, others);
      DeleteFromKeepsInv(s, listed, existing, c, f, i + 1, others);
    } else {
      InDeleteNext(s, listed, existing, c, f, i, others);
      var r := DeleteOne(s, listed, existing[f.order[i]], c, f);
      if r.Next? { DeleteFromKeepsInv(r.s, listed, existing, c, f, i + 1, others); }
    }
  }

  lemma CreateKeepsInv(s: NodeState, e: Expected, c: Ctx, f: Oracle)
    requires Inv(s.objs, s.loaded, c.node) && UidFresh(f.newUid, s.objs, s.loaded)
    ensures Inv(Create(s, e, c, f).s.objs, s.loaded, c.node) && Create(s, e, c, f).s.loaded == s.loaded
  {
    var t := Create(s, e, c, f).s;
    forall u | u in s.loaded
      ensures Backed(t.objs, u, s.loaded[u], c.node)
    {
      var n :| n in s.objs && Backs(s.objs[n], u, s.loaded[u], c.node);
      assert n in t.objs && t.objs[n] == s.objs[n];
    }
  }

  /** One iteration of handleProgCreateOrUpdate, with what it leaves for the rest of the pass. */
  lemma UpdateStep(
    s: NodeState, listed: map<Uid, LoadedProg>, o: BpfObj, c: Ctx, f: Oracle, todo: set<ObjName>)
    requires Inv(s.objs, s.loaded, c.node) && o.name in s.objs && s.objs[o.name] == o && o.node == c.node
    requires o.finalizer && o.owner == c.prog.name
    requires Dependable(f) && Ready(s, listed, f, todo) && o.name in todo
    ensures
      var r := UpdateOne(s, listed, o, c, f);
      && Inv(r.s.objs, r.s.loaded, c.node)
      && SameExcept(s.loaded, r.s.loaded, o.uid)
      && (r.Next? || GoesOn(r.outcome) ==> r.s.objs == s.objs && Ready(r.s, listed, f, todo - {o.name}))
  {
    UpdateOneKeepsInv(s, listed, o, c, f);
    var r := UpdateOne(s, listed, o, c, f);
    UpdateOneWrites(s, listed, o, c, f);
    if r.Next? || GoesOn(r.outcome) { ReadyForOthers(s, r.s, listed, o, f, todo); }
  }

  /** Past the last expected BpfProgram: the rest is deleted. */
  lemma UpdateEndKeepsInv(
    s: NodeState, listed: map<Uid, LoadedProg>, existing: map<ObjName, BpfObj>, c: Ctx, f: Oracle, others: set<ObjName>)
    requires Distinct(f.order)
    requires Inv(s.objs, s.loaded, c.node) && Current(existing, s.objs, c.node) && Dependable(f)
    requires others !! existing.Keys && Ready(s, listed, f, others + existing.Keys) && f.newUid !in s.loaded
    ensures
      var p := if existing == map[] then Pass(s, Unchanged) else DeleteFrom(s, listed, existing, c, f, 0);
      KeptBy(s, p, listed, c, f, others)
  {
    ReadyForFewer(s, listed, f, others + existing.Keys, others);
    ReadyForFewer(s, listed, f, others + existing.Keys, Todo(existing, f.order, 0, others));
    DeleteFromKeepsInv(s, listed, existing, c, f, 0, others);
    DeleteFromUids(s, listed, existing, c, f, 0);
  }

  /** The pass keeps the invariant and, if it goes on, wrote nothing and is ready for the others. */
  ghost predicate KeptBy(
    s: NodeState, p: Pass, listed: map<Uid, LoadedProg>, c: Ctx, f: Oracle, others: set<ObjName>)
  {
    && Inv(p.s.objs, p.s.loaded, c.node)
    && (GoesOn(p.outcome) ==> p.s.objs == s.objs && f.newUid !in p.s.loaded && Ready(p.s, listed, f, others))
  }

  /** What the loop over expected BpfPrograms relies on between two iterations. */
  ghost predicate InLoop(
    s: NodeState, listed: map<Uid, LoadedProg>, existing: map<ObjName, BpfObj>, expected: seq<Expected>,
    c: Ctx, f: Oracle, others: set<ObjName>)
  {
    && Inv(s.objs, s.loaded, c.node) && Current(existing, s.objs, c.node) && Dependable(f) && Distinct(f.order)
    && others !! existing.Keys && Ready(s, listed, f, others + existing.Keys)
    && ExpectedHaveFinalizers(existing, expected) && (forall n | n in existing :: existing[n].owner == c.prog.name)
    && UidFresh(f.newUid, s.objs, s.loaded)
  }

  lemma InLoopNext(
    s: NodeState, listed: map<Uid, LoadedProg>, existing: map<ObjName, BpfObj>, expected: seq<Expected>,
    c: Ctx, f: Oracle, i: nat, others: set<ObjName>)
    requires InLoop(s, listed, existing, expected, c, f, others) && i < |expected| && expected[i].name in existing
    ensures
      var r := UpdateOne(s, listed, existing[expected[i].name], c, f);
      && Inv(r.s.objs, r.s.loaded, c.node)
      && (r.Next? ==> r.s.objs == s.objs && InLoop(r.s, listed, existing - {expected[i].name}, expected, c, f, others))
      && (r.Exit? ==> KeptBy(s, Pass(r.s, r.outcome), listed, c, f, others))
  {
    var o, todo := existing[expected[i].name], others + existing.Keys;
    UpdateStep(s, listed, o, c, f, todo);
    var r := UpdateOne(s, listed, o, c, f);
    assert SameEntry(s.loaded, r.s.loaded, f.newUid);
    if r.Next? {
      ReadyForFewer(r.s, listed, f, todo - {o.name}, others + (existing - {o.name}).Keys);
    } else if GoesOn(r.outcome) {
      ReadyForFewer(r.s, listed, f, todo - {o.name}, others);
    }
  }

  lemma CreateKept(
    s: NodeState, listed: map<Uid, LoadedProg>, existing: map<ObjName, BpfObj>, expected: seq<Expected>,
    c: Ctx, f: Oracle, i: nat, others: set<ObjName>)
    requires i < |expected| && InLoop(s, listed, existing, expected, c, f, others)
    ensures var r := Create(s, expected[i], c, f); KeptBy(s, Pass(r.s, r.outcome), listed, c, f, others)
  {
    ReadyForFewer(s, listed, f, others + existing.Keys, others);
    CreateKeepsInv(s, expected[i], c, f);
  }

  lemma {:induction false} UpdateFromKeepsInv(
    s: NodeState, listed: map<Uid, LoadedProg>, existing: map<ObjName, BpfObj>, expected: seq<Expected>,
    c: Ctx, f: Oracle, i: nat, others: set<ObjName>)
    requires i <= |expected| && InLoop(s, listed, existing, expected, c, f, others)
    ensures KeptBy(s, UpdateFrom(s, listed, existing, expected, c, f, i), listed, c, f, others)
    decreases |expected| - i
  {
    if i == |expected| {
      UpdateEndKeepsInv(s, listed, existing, c, f, others);
    } else if expected[i].name !in existing {
      CreateKept(s, listed, existing, expected, c, f, i, others);
    } else {
      InLoopNext(s, listed, existing, expected, c, f, i, others);
      var r := UpdateOne(s, listed, existing[expected[i].name], c, f);
      if r.Next? { UpdateFromKeepsInv(r.s, listed, existing - {expected[i].name}, expected, c, f, i + 1, others); }
    }
  }

  /** Deleting only ever shrinks the set of loaded programs. */
  lemma {:induction false} DeleteFromUids(
    s: NodeState, listed: map<Uid, LoadedProg>, existing: map<ObjName, BpfObj>, c: Ctx, f: Oracle, i: nat)
    requires i <= |f.order|
    ensures DeleteFrom(s, listed, existing, c, f, i).s.loaded.Keys <= s.loaded.Keys
    decreases |f.order| - i
  {
    if i < |f.order| {
      if f.order[i] !in existing {
        DeleteFromUids(s, listed, existing, c, f, i + 1);
      } else {
        var r := DeleteOne(s, listed, existing[f.order[i]], c, f);
        if r.Next? { DeleteFromUids(r.s, listed, existing, c, f, i + 1); }
      }
    }
  }

  // ----- A whole pass -----

  /**
   What the pass assumes about its surroundings: the view of every live *Program expects only objects with a finalizer.
   */
  ghost predicate ViewsOk(s: NodeState, node: NodeName, progs: seq<ProgObj>, views: map<ProgName, View>) {
    forall k | 0 <= k < |progs| && !progs[k].deleting && progs[k].name in views && views[progs[k].name].View?
               && views[progs[k].name].expected.Some? ::
      ExpectedHaveFinalizers(Existing(s.objs, node, progs[k].name), views[progs[k].name].expected.value)
  }

  ghost predicate DistinctNames(progs: seq<ProgObj>) {
    forall i, j | 0 <= i < j < |progs| :: progs[i].name != progs[j].name
  }

  /** Names on this node owned by a *Program the pass has not reached. */
  ghost function Unvisited(objs: map<ObjName, BpfObj>, node: NodeName, progs: seq<ProgObj>, i: nat): set<ObjName>
    requires i <= |progs|
  {
    set n, k | n in objs && i <= k < |progs| && objs[n].node == node && objs[n].owner == progs[k].name :: n
  }

  lemma ReconcileProgramKeepsInv(
    s: NodeState, listed: map<Uid, LoadedProg>, node: NodeName, prog: ProgObj, v: View, f: Oracle, others: set<ObjName>)
    requires Inv(s.objs, s.loaded, node) && Dependable(f) && Distinct(f.order)
    requires UidFresh(f.newUid, s.objs, s.loaded)
    requires others !! Existing(s.objs, node, prog.name).Keys
    requires Ready(s, listed, f, others + Existing(s.objs, node, prog.name).Keys)
    requires !prog.deleting && v.View? && v.expected.Some? ==>
               ExpectedHaveFinalizers(Existing(s.objs, node, prog.name), v.expected.value)
    ensures
      var p := ReconcileProgram(s, listed, node, prog, v, f);
      && Inv(p.s.objs, p.s.loaded, node)
      && (GoesOn(p.outcome) ==> p.s.objs == s.objs && f.newUid !in p.s.loaded && Ready(p.s, listed, f, others))
  {
    if v.View? {
      var c := Ctx(node, prog, v.selected, v.mapOwner);
      var existing := Existing(s.objs, node, prog.name);
      if prog.deleting {
        ReadyForFewer(s, listed, f, others + existing.Keys, Todo(existing, f.order, 0, others));
        DeleteFromKeepsInv(s, listed, existing, c, f, 0, others);
        DeleteFromUids(s, listed, existing, c, f, 0);
      } else if v.expected.Some? {
        UpdateFromKeepsInv(s, listed, existing, v.expected.value, c, f, 0, others);
      }
    }
  }

  lemma {:induction false} ReconcileFromKeepsInv(
    s: NodeState, listed: map<Uid, LoadedProg>, node: NodeName, progs: seq<ProgObj>,
    views: map<ProgName, View>, f: Oracle, i: nat, requeue: bool)
    requires i <= |progs| && DistinctNames(progs)
    requires Inv(s.objs, s.loaded, node) && Dependable(f) && Distinct(f.order)
    requires UidFresh(f.newUid, s.objs, s.loaded)
    requires Ready(s, listed, f, Unvisited(s.objs, node, progs, i)) && ViewsOk(s, node, progs, views)
    ensures var p := ReconcileFrom(s, listed, node, progs, views, f, i, requeue); Inv(p.s.objs, p.s.loaded, node)
    decreases |progs| - i
  {
    if i < |progs| {
      var v := ViewOf(views, progs[i].name);
      var existing := Existing(s.objs, node, progs[i].name);
      var others := Unvisited(s.objs, node, progs, i + 1);
      assert others + existing.Keys <= Unvisited(s.objs, node, progs, i);
      ReconcileProgramKeepsInv(s, listed, node, progs[i], v, f, others);
      var p := ReconcileProgram(s, listed, node, progs[i], v, f);
      if !v.CannotSet? && GoesOn(p.outcome) {
        ReconcileFromKeepsInv(p.s, listed, node, progs, views, f, i + 1, requeue || p.outcome == Requeue);
      }
    }
  }

  /**
   Every pass keeps the invariant, whatever the views, the iteration order, and the failures of List, Load,
   getLoadRequest and of Kubernetes writes other than recording the ID of a program just loaded.
   */
  lemma PassKeepsInv(s: NodeState, node: NodeName, progs: seq<ProgObj>, views: map<ProgName, View>, f: Oracle)
    requires Inv(s.objs, s.loaded, node) && Dependable(f) && Distinct(f.order) && DistinctNames(progs)
    requires KernelIdsFresh(f, s.loaded) && UidFresh(f.newUid, s.objs, s.loaded) && ViewsOk(s, node, progs, views)
    ensures var p := ReconcileCommon(s, node, progs, views, f); Inv(p.s.objs, p.s.loaded, node)
  {
    if !f.listFails { ReconcileFromKeepsInv(s, s.loaded, node, progs, views, f, 0, false); }
  }
}
