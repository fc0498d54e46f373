/**
 Whom a pass concerns: it spares every *Program that is not in its list, it never undoes the deletion of one that is
 being deleted, and with succeeding calls it advances the deletion of every such *Program that it reaches.
 */
module AgentFrame {
  import opened Wrappers
  import opened AgentModel
  import opened AgentWrites
  import opened AgentSafety
  import opened AgentConvergence

  // ----- What a pass leaves alone -----

  ghost predicate OwnedBy(objs: map<ObjName, BpfObj>, q: ProgName, n: ObjName) {
    n in objs && objs[n].owner == q
  }

  /** No BpfProgram of `q` and no program loaded for one has changed. */
  ghost predicate Spares(s: NodeState, t: NodeState, q: ProgName) {
    && (forall n :: OwnedBy(s.objs, q, n) <==> OwnedBy(t.objs, q, n))
    && (forall n | OwnedBy(s.objs, q, n) ::
          n in t.objs && t.objs[n] == s.objs[n] && SameEntry(s.loaded, t.loaded, s.objs[n].uid))
  }

  /** A BpfProgram is at least as far in its deletion as before. */
  ghost predicate Eased(s: NodeState, t: NodeState, n: ObjName)
    requires n in t.objs
  {
    && n in s.objs && t.objs[n].uid == s.objs[n].uid && DeleteRank(t.objs[n]) <= DeleteRank(s.objs[n])
    && (s.objs[n].uid in t.loaded ==> s.objs[n].uid in s.loaded)
  }

  /** On this node the deletion of `q` has not gone back. */
  ghost predicate Eases(s: NodeState, t: NodeState, q: ProgName, node: NodeName) {
    forall n | OwnedBy(t.objs, q, n) && t.objs[n].node == node ::
      OwnedBy(s.objs, q, n) && s.objs[n].node == node && Eased(s, t, n)
  }

  /** What a visit on behalf of one *Program means for any *Program. */
  ghost predicate Follows(s: NodeState, t: NodeState, c: Ctx, q: ProgName) {
    if q != c.prog.name then Spares(s, t, q) else c.prog.deleting ==> Eases(s, t, q, c.node)
  }

  lemma FollowsTrans(s: NodeState, t: NodeState, u: NodeState, c: Ctx, q: ProgName)
    requires Follows(s, t, c, q) && Follows(t, u, c, q)
    ensures Follows(s, u, c, q)
  {
    if q == c.prog.name && c.prog.deleting {
      EasesTrans(s, t, u, q, c.node);
    }
  }

  lemma EasesTrans(s: NodeState, t: NodeState, u: NodeState, q: ProgName, node: NodeName)
    requires Eases(s, t, q, node) && Eases(t, u, q, node)
    ensures Eases(s, u, q, node)
  {
    forall n | OwnedBy(u.objs, q, n) && u.objs[n].node == node
      ensures OwnedBy(s.objs, q, n) && s.objs[n].node == node && Eased(s, u, n)
    {
      assert OwnedBy(t.objs, q, n) && Eased(t, u, n) && Eased(s, t, n);
    }
  }

  lemma SparesTrans(s: NodeState, t: NodeState, u: NodeState, q: ProgName)
    requires Spares(s, t, q) && Spares(t, u, q)
    ensures Spares(s, u, q)
  {
    forall n ensures OwnedBy(s.objs, q, n) <==> OwnedBy(u.objs, q, n) { assert OwnedBy(t.objs, q, n) || true; }
  }

  lemma SparesEases(s: NodeState, t: NodeState, q: ProgName, node: NodeName)
    requires Spares(s, t, q)
    ensures Eases(s, t, q, node)
  {
    forall n | OwnedBy(t.objs, q, n) && t.objs[n].node == node
      ensures OwnedBy(s.objs, q, n) && s.objs[n].node == node && Eased(s, t, n)
    {
      assert OwnedBy(s.objs, q, n);
    }
  }

  // ----- One visit -----

  lemma VisitSpares(s: NodeState, t: NodeState, o: BpfObj, q: ProgName)
    requires WellFormed(s.objs) && o.name in s.objs && s.objs[o.name] == o && o.owner != q
    requires t.objs - {o.name} == s.objs - {o.name} && (o.name in t.objs ==> t.objs[o.name].owner == o.owner)
    requires SameExcept(s.loaded, t.loaded, o.uid)
    ensures Spares(s, t, q)
  {
    forall n | n != o.name ensures (n in s.objs <==> n in t.objs) && (n in s.objs ==> s.objs[n] == t.objs[n]) {
      assert n in s.objs - {o.name} <==> n in t.objs - {o.name};
      assert n in s.objs ==> (s.objs - {o.name})[n] == (t.objs - {o.name})[n];
    }
    forall n | OwnedBy(s.objs, q, n) ensures SameEntry(s.loaded, t.loaded, s.objs[n].uid) {
      assert s.objs[n].uid != o.uid;
    }
  }

  lemma VisitEases(s: NodeState, t: NodeState, o: BpfObj, q: ProgName, node: NodeName)
    requires WellFormed(s.objs) && o.name in s.objs && s.objs[o.name] == o && o.owner == q && o.node == node
    requires t.objs - {o.name} == s.objs - {o.name} && (o.name in t.objs ==> Eased(s, t, o.name))
    requires SameExcept(s.loaded, t.loaded, o.uid)
    ensures Eases(s, t, q, node)
  {
    forall n | OwnedBy(t.objs, q, n) && t.objs[n].node == node
      ensures OwnedBy(s.objs, q, n) && s.objs[n].node == node && Eased(s, t, n)
    {
      if n != o.name {
        assert n in t.objs - {o.name} && n in s.objs - {o.name};
        assert t.objs[n] == (t.objs - {o.name})[n] == (s.objs - {o.name})[n] == s.objs[n];
        assert SameEntry(s.loaded, t.loaded, s.objs[n].uid);
      }
    }
  }

  /** A deletion visit writes nothing that sets the deletion back. */
  lemma DeleteOneEases(s: NodeState, listed: map<Uid, LoadedProg>, o: BpfObj, c: Ctx, f: Oracle)
    requires Inv(s.objs, s.loaded, c.node) && o.name in s.objs && s.objs[o.name] == o && o.node == c.node
    requires DependableFor(f, o.name) && Ready(s, listed, f, {o.name})
    ensures
      var t := DeleteOne(s, listed, o, c, f).s;
      o.name in t.objs ==> t.objs[o.name].owner == o.owner && (c.prog.deleting ==> Eased(s, t, o.name))
  {
    DeletingNeverErrs(s, listed, o, c, f);
    ReconcileEffect(s, listed, o, c, true, f);
  }

  lemma DeleteOneFollows(s: NodeState, listed: map<Uid, LoadedProg>, o: BpfObj, c: Ctx, f: Oracle, q: ProgName)
    requires Inv(s.objs, s.loaded, c.node) && o.name in s.objs && s.objs[o.name] == o && o.node == c.node
    requires DependableFor(f, o.name) && Ready(s, listed, f, {o.name}) && o.owner == c.prog.name
    ensures Follows(s, DeleteOne(s, listed, o, c, f).s, c, q)
  {
    var t := DeleteOne(s, listed, o, c, f).s;
    DeleteOneKeepsInv(s, listed, o, c, f);
    DeleteOneWrites(s, listed, o, c, f);
    DeleteOneEases(s, listed, o, c, f);
    if q != c.prog.name {
      VisitSpares(s, t, o, q);
    } else if c.prog.deleting {
      VisitEases(s, t, o, q, c.node);
    }
  }

  lemma UpdateOneFollows(s: NodeState, listed: map<Uid, LoadedProg>, o: BpfObj, c: Ctx, f: Oracle, q: ProgName)
    requires Inv(s.objs, s.loaded, c.node) && o.name in s.objs && s.objs[o.name] == o && o.node == c.node
    requires DependableFor(f, o.name) && Ready(s, listed, f, {o.name}) && o.finalizer && o.owner == c.prog.name
    requires !c.prog.deleting
    ensures Follows(s, UpdateOne(s, listed, o, c, f).s, c, q)
  {
    UpdateOneKeepsInv(s, listed, o, c, f);
    UpdateOneWrites(s, listed, o, c, f);
    UpdateOneOwner(s, listed, o, c, f);
    if q != c.prog.name { VisitSpares(s, UpdateOne(s, listed, o, c, f).s, o, q); }
  }

  lemma UpdateOneOwner(s: NodeState, listed: map<Uid, LoadedProg>, o: BpfObj, c: Ctx, f: Oracle)
    requires o.name in s.objs && s.objs[o.name] == o
    ensures
      var t := UpdateOne(s, listed, o, c, f).s;
      o.name in t.objs ==> t.objs[o.name].owner == o.owner
  {
    ReconcileBpfFrame(s, listed, o, c, c.prog.deleting, f);
  }

  // ----- One *Program -----

  lemma {:induction false} DeleteFromFollows(
    s: NodeState, listed: map<Uid, LoadedProg>, existing: map<ObjName, BpfObj>, c: Ctx, f: Oracle, i: nat,
    q: ProgName)
    requires InDelete(s, listed, existing, c, f, i, {})
    requires forall n | n in existing :: existing[n].owner == c.prog.name
    ensures Follows(s, DeleteFrom(s, listed, existing, c, f, i).s, c, q)
    decreases |f.order| - i
  {
    if i < |f.order| {
      if f.order[i] !in existing {
        InDeleteSkip(s, listed, existing, c, f, i, {});
        DeleteFromFollows(s, listed, existing, c, f, i + 1, q);
      } else {
        var o := existing[f.order[i]];
        TodoShrinks(existing, f.order, i, {});
        ReadyForFewer(s, listed, f, Todo(existing, f.order, i, {}), {o.name});
        DeleteOneFollows(s, listed, o, c, f, q);
        InDeleteNext(s, listed, existing, c, f, i, {});
        var r := DeleteOne(s, listed, o, c, f);
        if r.Next? {
          DeleteFromFollows(r.s, listed, existing, c, f, i + 1, q);
          FollowsTrans(s, r.s, DeleteFrom(r.s, listed, existing, c, f, i + 1).s, c, q);
        }
      }
    }
  }

  lemma UpdateNextFollows(
    s: NodeState, listed: map<Uid, LoadedProg>, existing: map<ObjName, BpfObj>, expected: seq<Expected>,
    c: Ctx, f: Oracle, i: nat, q: ProgName)
    requires i < |expected| && InLoop(s, listed, existing, expected, c, f, {}) && !c.prog.deleting
    requires expected[i].name in existing
    ensures
      var r := UpdateOne(s, listed, existing[expected[i].name], c, f);
      && Follows(s, r.s, c, q)
      && (r.Next? ==> InLoop(r.s, listed, existing - {expected[i].name}, expected, c, f, {}))
  {
    var o := existing[expected[i].name];
    ReadyForFewer(s, listed, f, {} + existing.Keys, {o.name});
    UpdateOneFollows(s, listed, o, c, f, q);
    InLoopNext(s, listed, existing, expected, c, f, i, {});
  }

  lemma EndFollows(
    s: NodeState, listed: map<Uid, LoadedProg>, existing: map<ObjName, BpfObj>, expected: seq<Expected>,
    c: Ctx, f: Oracle, q: ProgName)
    requires InLoop(s, listed, existing, expected, c, f, {}) && !c.prog.deleting
    ensures Follows(s, UpdateFrom(s, listed, existing, expected, c, f, |expected|).s, c, q)
  {
    ReadyForFewer(s, listed, f, {} + existing.Keys, Todo(existing, f.order, 0, {}));
    DeleteFromFollows(s, listed, existing, c, f, 0, q);
  }

  lemma CreateFollows(s: NodeState, e: Expected, c: Ctx, f: Oracle, q: ProgName)
    requires !c.prog.deleting
    ensures Follows(s, Create(s, e, c, f).s, c, q)
  {
  }

  lemma {:induction false} UpdateFromFollows(
    s: NodeState, listed: map<Uid, LoadedProg>, existing: map<ObjName, BpfObj>, expected: seq<Expected>,
    c: Ctx, f: Oracle, i: nat, q: ProgName)
    requires i <= |expected| && InLoop(s, listed, existing, expected, c, f, {}) && !c.prog.deleting
    ensures Follows(s, UpdateFrom(s, listed, existing, expected, c, f, i).s, c, q)
    decreases |expected| - i
  {
    if i == |expected| {
      EndFollows(s, listed, existing, expected, c, f, q);
    } else if expected[i].name !in existing {
      CreateFollows(s, expected[i], c, f, q);
    } else {
      UpdateNextFollows(s, listed, existing, expected, c, f, i, q);
      var r, rest := UpdateOne(s, listed, existing[expected[i].name], c, f), existing - {expected[i].name};
      if r.Next? {
        UpdateFromFollows(r.s, listed, rest, expected, c, f, i + 1, q);
        FollowsTrans(s, r.s, UpdateFrom(r.s, listed, rest, expected, c, f, i + 1).s, c, q);
      }
    }
  }

  lemma ReconcileProgramFollows(
    s: NodeState, listed: map<Uid, LoadedProg>, node: NodeName, prog: ProgObj, v: View, f: Oracle, q: ProgName)
    requires Inv(s.objs, s.loaded, node) && Dependable(f) && Distinct(f.order)
    requires UidFresh(f.newUid, s.objs, s.loaded)
    requires Ready(s, listed, f, Existing(s.objs, node, prog.name).Keys)
    requires !prog.deleting && v.View? && v.expected.Some? ==>
               ExpectedHaveFinalizers(Existing(s.objs, node, prog.name), v.expected.value)
    ensures Follows(s, ReconcileProgram(s, listed, node, prog, v, f).s, CtxOf(node, prog, v), q)
  {
    if v.View? {
      var existing := Existing(s.objs, node, prog.name);
      if prog.deleting {
        ReadyForFewer(s, listed, f, existing.Keys, Todo(existing, f.order, 0, {}));
        DeleteFromFollows(s, listed, existing, CtxOf(node, prog, v), f, 0, q);
      } else if v.expected.Some? {
        ReadyForFewer(s, listed, f, existing.Keys, {} + existing.Keys);
        UpdateFromFollows(s, listed, existing, v.expected.value, CtxOf(node, prog, v), f, 0, q);
      }
    }
  }

  // ----- Whole passes -----

  /** The pass before its i-th *Program, under the hypotheses of safety. */
  ghost predicate SafeAt(
    s: NodeState, listed: map<Uid, LoadedProg>, node: NodeName, progs: seq<ProgObj>,
    views: map<ProgName, View>, f: Oracle, i: nat)
  {
    && i <= |progs| && DistinctNames(progs) && Inv(s.objs, s.loaded, node) && Dependable(f) && Distinct(f.order)
    && UidFresh(f.newUid, s.objs, s.loaded) && Ready(s, listed, f, Unvisited(s.objs, node, progs, i))
    && ViewsOk(s, node, progs, views)
  }

  /** The next *Program's turn. */
  function Turn(
    s: NodeState, listed: map<Uid, LoadedProg>, node: NodeName, progs: seq<ProgObj>,
    views: map<ProgName, View>, f: Oracle, i: nat): Pass
    requires i < |progs|
  {
    ReconcileProgram(s, listed, node, progs[i], ViewOf(views, progs[i].name), f)
  }

  /** What is ready for the rest of the list is ready for the next *Program and for those after it. */
  lemma ReadySplit(
    s: NodeState, listed: map<Uid, LoadedProg>, node: NodeName, progs: seq<ProgObj>, f: Oracle, i: nat)
    requires i < |progs| && DistinctNames(progs) && Ready(s, listed, f, Unvisited(s.objs, node, progs, i))
    ensures
      var existing, others := Existing(s.objs, node, progs[i].name).Keys, Unvisited(s.objs, node, progs, i + 1);
      others !! existing && Ready(s, listed, f, existing) && Ready(s, listed, f, others + existing)
  {
    var existing, others := Existing(s.objs, node, progs[i].name).Keys, Unvisited(s.objs, node, progs, i + 1);
    ReadyForFewer(s, listed, f, Unvisited(s.objs, node, progs, i), existing);
    ReadyForFewer(s, listed, f, Unvisited(s.objs, node, progs, i), others + existing);
  }

  lemma SafeNext(
    s: NodeState, listed: map<Uid, LoadedProg>, node: NodeName, progs: seq<ProgObj>,
    views: map<ProgName, View>, f: Oracle, i: nat, q: ProgName)
    requires i < |progs| && SafeAt(s, listed, node, progs, views, f, i)
    ensures
      var p := Turn(s, listed, node, progs, views, f, i);
      && Follows(s, p.s, CtxAt(node, progs, views, i), q)
      && (GoesOn(p.outcome) ==> p.s.objs == s.objs && SafeAt(p.s, listed, node, progs, views, f, i + 1))
  {
    ReadySplit(s, listed, node, progs, f, i);
    var v, others := ViewOf(views, progs[i].name), Unvisited(s.objs, node, progs, i + 1);
    ReconcileProgramFollows(s, listed, node, progs[i], v, f, q);
    ReconcileProgramKeepsInv(s, listed, node, progs[i], v, f, others);
  }

  /** A *Program is spared if it is not in the rest of the list, and eased if it is at most there to be deleted. */
  ghost predicate RestFollows(s: NodeState, t: NodeState, node: NodeName, progs: seq<ProgObj>, i: nat, q: ProgName) {
    && ((forall k | i <= k < |progs| :: progs[k].name != q) ==> Spares(s, t, q))
    && ((forall k | i <= k < |progs| && progs[k].name == q :: progs[k].deleting) ==> Eases(s, t, q, node))
  }

  lemma RestFollowsTrans(
    s: NodeState, t: NodeState, u: NodeState, node: NodeName, progs: seq<ProgObj>, views: map<ProgName, View>,
    i: nat, q: ProgName)
    requires i < |progs| && Follows(s, t, CtxAt(node, progs, views, i), q)
    requires RestFollows(t, u, node, progs, i + 1, q)
    ensures RestFollows(s, u, node, progs, i, q)
  {
    if progs[i].name != q {
      SparesEases(s, t, q, node);
      if forall k | i <= k < |progs| :: progs[k].name != q { SparesTrans(s, t, u, q); }
    }
    if forall k | i <= k < |progs| && progs[k].name == q :: progs[k].deleting { EasesTrans(s, t, u, q, node); }
  }

  lemma NothingFollows(s: NodeState, node: NodeName, progs: seq<ProgObj>, i: nat, q: ProgName)
    ensures RestFollows(s, s, node, progs, i, q)
  {
  }

  lemma {:induction false} ReconcileFromFollows(
    s: NodeState, listed: map<Uid, LoadedProg>, node: NodeName, progs: seq<ProgObj>,
    views: map<ProgName, View>, f: Oracle, i: nat, requeue: bool, q: ProgName)
    requires SafeAt(s, listed, node, progs, views, f, i)
    ensures RestFollows(s, ReconcileFrom(s, listed, node, progs, views, f, i, requeue).s, node, progs, i, q)
    decreases |progs| - i
  {
    NothingFollows(s, node, progs, i, q);
    if i < |progs| && !ViewOf(views, progs[i].name).CannotSet? {
      SafeNext(s, listed, node, progs, views, f, i, q);
      var p := Turn(s, listed, node, progs, views, f, i);
      if GoesOn(p.outcome) {
        var requeue' := requeue || p.outcome == Requeue;
        ReconcileFromFollows(p.s, listed, node, progs, views, f, i + 1, requeue', q);
        var u := ReconcileFrom(p.s, listed, node, progs, views, f, i + 1, requeue').s;
        RestFollowsTrans(s, p.s, u, node, progs, views, i, q);
      } else {
        NothingFollows(p.s, node, progs, i + 1, q);
        RestFollowsTrans(s, p.s, p.s, node, progs, views, i, q);
      }
    }
  }

  /**
   For every failure that safety admits, a pass changes nothing for a *Program that is not in its list, and nothing
   sets back the deletion of one that is in the list only to be deleted.
   */
  lemma PassFollows(
    s: NodeState, node: NodeName, progs: seq<ProgObj>, views: map<ProgName, View>, f: Oracle, q: ProgName)
    requires Inv(s.objs, s.loaded, node) && Dependable(f) && Distinct(f.order) && DistinctNames(progs)
    requires KernelIdsFresh(f, s.loaded) && UidFresh(f.newUid, s.objs, s.loaded) && ViewsOk(s, node, progs, views)
    ensures
      var t := ReconcileCommon(s, node, progs, views, f).s;
      && ((forall k | 0 <= k < |progs| :: progs[k].name != q) ==> Spares(s, t, q))
      && ((forall k | 0 <= k < |progs| && progs[k].name == q :: progs[k].deleting) ==> Eases(s, t, q, node))
  {
    NothingFollows(s, node, progs, 0, q);
    if !f.listFails { ReconcileFromFollows(s, s.loaded, node, progs, views, f, 0, false, q); }
  }

  /** A pass that ends within the front of the list never looks at the rest. */
  lemma {:induction false} FrontDecides(
    s: NodeState, listed: map<Uid, LoadedProg>, node: NodeName, progs: seq<ProgObj>, n: nat,
    views: map<ProgName, View>, f: Oracle, i: nat, requeue: bool)
    requires i <= n <= |progs|
    ensures
      var p := ReconcileFrom(s, listed, node, progs[..n], views, f, i, requeue);
      !GoesOn(p.outcome) ==> ReconcileFrom(s, listed, node, progs, views, f, i, requeue) == p
    decreases n - i
  {
    if i < n {
      var p := Turn(s, listed, node, progs, views, f, i);
      assert progs[..n][i] == progs[i];
      if !ViewOf(views, progs[i].name).CannotSet? && GoesOn(p.outcome) {
        FrontDecides(p.s, listed, node, progs, n, views, f, i + 1, requeue || p.outcome == Requeue);
      }
    }
  }

  // ----- Deletion advances -----

  /** Node `d` is done with the *Program. */
  ghost predicate DoneAt(s: NodeState, d: NodeName, q: ProgName) {
    forall n | OwnedBy(s.objs, q, n) && s.objs[n].node == d :: CleanedUp(s.objs[n], s.loaded)
  }

  /** The context of a deletion; it does not depend on what the *Program was. */
  ghost function DeletionCtx(d: NodeName, q: ProgName): Ctx {
    Ctx(d, ProgObj(q, Spec("", File(""), NoCodes, "", ""), true), false, MapOwner(false, false, false, None))
  }

  /** Kubernetes writes that the deletion of a *Program still needs on node `d`. */
  ghost function Pending(s: NodeState, d: NodeName, q: ProgName): nat {
    Measure(s, DeletionCtx(d, q), {})
  }

  /** Only the objects of a *Program that is being deleted decide its measure. */
  lemma PendingIsMeasure(s: NodeState, c: Ctx, want: set<ObjName>)
    requires c.prog.deleting
    ensures Measure(s, c, want) == Pending(s, c.node, c.prog.name)
  {
    var c' := DeletionCtx(c.node, c.prog.name);
    forall n ensures Rank(s, c, want, n) == Rank(s, c', {}, n) && (n !in s.objs ==> Rank(s, c, want, n) == 0) { }
    forall k | 0 < k ensures Level(s, c, want, k) == Level(s, c', {}, k) { }
  }

  lemma EasesPending(s: NodeState, t: NodeState, d: NodeName, q: ProgName)
    requires Eases(s, t, q, d)
    ensures Pending(t, d, q) <= Pending(s, d, q)
    ensures DoneAt(s, d, q) ==> DoneAt(t, d, q)
  {
    var c := DeletionCtx(d, q);
    forall n ensures Rank(t, c, {}, n) <= Rank(s, c, {}, n) {
      if Owned(t.objs, c, n) { assert OwnedBy(t.objs, q, n); }
    }
    NoWorseMeasure(s, t, c, {});
  }

  lemma PendingBound(s: NodeState, d: NodeName, q: ProgName)
    ensures Pending(s, d, q) <= 2 * |Existing(s.objs, d, q)|
  {
    DeletionMeasure(s, DeletionCtx(d, q), {});
  }

  /** The *Program's own turn, with every call for it succeeding: it is done or strictly closer. */
  lemma TurnAdvances(
    s: NodeState, listed: map<Uid, LoadedProg>, node: NodeName, progs: seq<ProgObj>,
    views: map<ProgName, View>, f: Oracle, i: nat)
    requires i < |progs| && SafeAt(s, listed, node, progs, views, f, i)
    requires progs[i].deleting && ViewOf(views, progs[i].name).View?
    requires Healthy(f, Existing(s.objs, node, progs[i].name).Keys)
    ensures
      var t := Turn(s, listed, node, progs, views, f, i).s;
      DoneAt(t, node, progs[i].name) || Pending(t, node, progs[i].name) < Pending(s, node, progs[i].name)
  {
    var v, c := ViewOf(views, progs[i].name), CtxAt(node, progs, views, i);
    var p := Turn(s, listed, node, progs, views, f, i);
    ReadySplit(s, listed, node, progs, f, i);
    ReconcileProgramProgress(s, listed, node, progs[i], v, f);
    if p.outcome == Updated {
      NoWorseMeasure(s, p.s, c, Names(Expects(v)));
      PendingIsMeasure(s, c, Names(Expects(v)));
      PendingIsMeasure(p.s, c, Names(Expects(v)));
    } else {
      forall n | OwnedBy(p.s.objs, progs[i].name, n) && p.s.objs[n].node == node
        ensures CleanedUp(p.s.objs[n], p.s.loaded)
      {
        assert Owned(p.s.objs, c, n);
      }
    }
  }

  /** The pass, now before its j-th *Program, gets as far as the i-th. */
  ghost predicate Reaches(
    s: NodeState, listed: map<Uid, LoadedProg>, node: NodeName, progs: seq<ProgObj>,
    views: map<ProgName, View>, f: Oracle, j: nat, i: nat)
    requires j <= i < |progs|
    decreases i - j
  {
    j == i ||
    (&& !ViewOf(views, progs[j].name).CannotSet?
     && var p := Turn(s, listed, node, progs, views, f, j);
        GoesOn(p.outcome) && Reaches(p.s, listed, node, progs, views, f, j + 1, i))
  }

  /** What a pass does for the deletion of a *Program that it reaches. */
  ghost predicate Advances(s: NodeState, t: NodeState, node: NodeName, q: ProgName) {
    DoneAt(t, node, q) || Pending(t, node, q) < Pending(s, node, q)
  }

  lemma AdvancesLater(s: NodeState, t: NodeState, u: NodeState, node: NodeName, q: ProgName)
    ensures Eases(s, t, q, node) && Advances(t, u, node, q) ==> Advances(s, u, node, q)
    ensures Advances(s, t, node, q) && Eases(t, u, q, node) ==> Advances(s, u, node, q)
  {
    if Eases(s, t, q, node) { EasesPending(s, t, node, q); }
    if Eases(t, u, q, node) { EasesPending(t, u, node, q); }
  }

  /** The pass at the *Program itself: its turn advances it and the rest of the list spares it. */
  lemma AtItsTurn(
    s: NodeState, listed: map<Uid, LoadedProg>, node: NodeName, progs: seq<ProgObj>,
    views: map<ProgName, View>, f: Oracle, i: nat, requeue: bool)
    requires i < |progs| && SafeAt(s, listed, node, progs, views, f, i)
    requires progs[i].deleting && ViewOf(views, progs[i].name).View?
    requires Healthy(f, Existing(s.objs, node, progs[i].name).Keys)
    ensures Advances(s, ReconcileFrom(s, listed, node, progs, views, f, i, requeue).s, node, progs[i].name)
  {
    var q, p := progs[i].name, Turn(s, listed, node, progs, views, f, i);
    TurnAdvances(s, listed, node, progs, views, f, i);
    SafeNext(s, listed, node, progs, views, f, i, q);
    if GoesOn(p.outcome) {
      var requeue' := requeue || p.outcome == Requeue;
      ReconcileFromFollows(p.s, listed, node, progs, views, f, i + 1, requeue', q);
      AdvancesLater(s, p.s, ReconcileFrom(p.s, listed, node, progs, views, f, i + 1, requeue').s, node, q);
    }
  }

  lemma {:induction false} ReachedAdvances(
    s: NodeState, listed: map<Uid, LoadedProg>, node: NodeName, progs: seq<ProgObj>,
    views: map<ProgName, View>, f: Oracle, j: nat, i: nat, requeue: bool)
    requires j <= i < |progs| && SafeAt(s, listed, node, progs, views, f, j)
    requires Reaches(s, listed, node, progs, views, f, j, i)
    requires progs[i].deleting && ViewOf(views, progs[i].name).View?
    requires Healthy(f, Existing(s.objs, node, progs[i].name).Keys)
    ensures Advances(s, ReconcileFrom(s, listed, node, progs, views, f, j, requeue).s, node, progs[i].name)
    decreases i - j
  {
    if j == i {
      AtItsTurn(s, listed, node, progs, views, f, i, requeue);
    } else {
      var q, p := progs[i].name, Turn(s, listed, node, progs, views, f, j);
      var requeue' := requeue || p.outcome == Requeue;
      SafeNext(s, listed, node, progs, views, f, j, q);
      SparesEases(s, p.s, q, node);
      ReachedAdvances(p.s, listed, node, progs, views, f, j + 1, i, requeue');
      AdvancesLater(s, p.s, ReconcileFrom(p.s, listed, node, progs, views, f, j + 1, requeue').s, node, q);
    }
  }

  /** Whatever else is in the list, a pass that reaches a *Program being deleted finishes it or brings it closer. */
  lemma PassAdvances(
    s: NodeState, node: NodeName, progs: seq<ProgObj>, views: map<ProgName, View>, f: Oracle, i: nat)
    requires Inv(s.objs, s.loaded, node) && Dependable(f) && Distinct(f.order) && DistinctNames(progs)
    requires KernelIdsFresh(f, s.loaded) && UidFresh(f.newUid, s.objs, s.loaded) && ViewsOk(s, node, progs, views)
    requires i < |progs| && progs[i].deleting && ViewOf(views, progs[i].name).View? && !f.listFails
    requires Reaches(s, s.loaded, node, progs, views, f, 0, i)
    requires Healthy(f, Existing(s.objs, node, progs[i].name).Keys)
    ensures Advances(s, ReconcileCommon(s, node, progs, views, f).s, node, progs[i].name)
  {
    ReachedAdvances(s, s.loaded, node, progs, views, f, 0, i, false);
  }
}
