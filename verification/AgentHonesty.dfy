/**
 From one reconcile to whole passes: whatever fails, a pass writes only conditions that are true, and a pass that
 reports Unchanged leaves every BpfProgram of its list with a true condition.
 */
module AgentHonesty {
  import opened Wrappers
  import opened AgentModel
  import opened AgentWrites
  import opened AgentSafety
  import opened OperatorModel
  import opened AgentTruth

  /** The object has one condition, and it is true of what bpfman has. */
  ghost predicate Honest(o: BpfObj, loaded: map<Uid, LoadedProg>) {
    && |o.conds| == 1
    && match o.conds[0]
       case Loaded =>
         o.uid in loaded && o.id == Some(loaded[o.uid].id) && loaded[o.uid].request.owner == o.owner
       case NotUnloaded => o.uid in loaded
       case NotLoaded => true
       case BytecodeSelectorError => true
       case _ => o.uid !in loaded
  }

  // ----- One visit -----

  /** What a visit leaves: only this BpfProgram changed, and what it now says is what it said before or true. */
  ghost predicate Visited(s: NodeState, r: Flow, o: BpfObj, f: Oracle) {
    && SameExcept(s.loaded, r.s.loaded, o.uid) && IdsUnique(r.s.loaded)
    && (o.uid in r.s.loaded && !SameEntry(s.loaded, r.s.loaded, o.uid) ==>
          o.name in f.loads && r.s.loaded[o.uid].id == f.loads[o.name])
    && r.s.objs - {o.name} == s.objs - {o.name}
    && (o.name in r.s.objs ==> r.s.objs[o.name].conds == o.conds || Honest(r.s.objs[o.name], r.s.loaded))
    && (r.Next? || GoesOn(r.outcome) ==> r.s.objs == s.objs)
    && (r.Next? ==> Honest(o, r.s.loaded))
  }

  /** The condition a reconcile returns, once written, is true. */
  lemma SaidIsHonest(s: NodeState, r: Reconciled, o: BpfObj, c: Ctx, deleting: bool, f: Oracle)
    requires Truthful(s, r, o, c, deleting, f) && o.owner == c.prog.name
    requires r.cond == Loaded ==> o.id == r.s.progId
    ensures Honest(o.(conds := [r.cond]), r.s.loaded)
  {
    assert Says(r.cond, s.loaded, r.s.loaded, o, c, deleting, f);
  }

  lemma UpdateOneHonest(s: NodeState, listed: map<Uid, LoadedProg>, o: BpfObj, c: Ctx, f: Oracle)
    requires Named(s, o) && NewId(s, o, f) && SameEntry(listed, s.loaded, o.uid)
    requires o.name in s.objs && s.objs[o.name] == o && o.owner == c.prog.name
    ensures Visited(s, UpdateOne(s, listed, o, c, f), o, f)
  {
    var r := ReconcileBpf(s, listed, o, c, c.prog.deleting, f);
    ReconcileTruth(s, listed, o, c, c.prog.deleting, f);
    if r.cond != Loaded || o.id == r.s.progId { SaidIsHonest(s, r, o, c, c.prog.deleting, f); }
    AfterHonest(r, o, f);
  }

  /** What follows the reconcile: nothing, the ID annotation, or the condition. */
  lemma AfterHonest(r: Reconciled, o: BpfObj, f: Oracle)
    requires r.Reconciled? && o.name in r.s.objs && r.s.objs[o.name] == o && (r.cond == Loaded ==> r.ok)
    requires r.cond != Loaded || o.id == r.s.progId ==> Honest(o.(conds := [r.cond]), r.s.loaded)
    ensures
      var t := AfterReconcile(r, o, f);
      && t.s.loaded == r.s.loaded && t.s.objs - {o.name} == r.s.objs - {o.name}
      && (o.name in t.s.objs ==> t.s.objs[o.name].conds == o.conds || Honest(t.s.objs[o.name], t.s.loaded))
      && (t.Next? || GoesOn(t.outcome) ==> t.s.objs == r.s.objs)
      && (t.Next? ==> Honest(o, t.s.loaded))
  {
  }

  lemma DeleteOneHonest(s: NodeState, listed: map<Uid, LoadedProg>, o: BpfObj, c: Ctx, f: Oracle)
    requires Named(s, o) && NewId(s, o, f) && SameEntry(listed, s.loaded, o.uid)
    requires o.name in s.objs && s.objs[o.name] == o && o.owner == c.prog.name
    ensures Visited(s, DeleteOne(s, listed, o, c, f), o, f)
  {
    var r := ReconcileBpf(s, listed, o, c, true, f);
    ReconcileTruth(s, listed, o, c, true, f);
    assert !Says(Loaded, s.loaded, r.s.loaded, o, c, true, f);
    SaidIsHonest(s, r, o, c, true, f);
  }

  // ----- From visit to visit -----

  /** For the names in `todo` nothing has happened yet; those in `done` tell the truth. */
  ghost predicate Visiting(
    s: NodeState, listed: map<Uid, LoadedProg>, f: Oracle, todo: set<ObjName>, done: set<ObjName>)
  {
    && WellFormed(s.objs) && IdsUnique(s.loaded) && Ready(s, listed, f, todo) && todo !! done
    && (forall n | n in todo && n in s.objs && s.objs[n].uid in s.loaded ::
          s.objs[n].id == Some(s.loaded[s.objs[n].uid].id))
    && (forall n | n in done && n in s.objs :: Honest(s.objs[n], s.loaded))
  }

  lemma VisitingFewer(
    s: NodeState, listed: map<Uid, LoadedProg>, f: Oracle, todo: set<ObjName>, done: set<ObjName>,
    fewer: set<ObjName>)
    requires Visiting(s, listed, f, todo, done) && fewer <= todo
    ensures Visiting(s, listed, f, fewer, done)
  {
    ReadyForFewer(s, listed, f, todo, fewer);
  }

  lemma VisitingNext(
    s: NodeState, r: Flow, listed: map<Uid, LoadedProg>, o: BpfObj, f: Oracle, todo: set<ObjName>,
    done: set<ObjName>)
    requires Visiting(s, listed, f, todo, done) && o.name in todo && o.name in s.objs && s.objs[o.name] == o
    requires Visited(s, r, o, f) && r.s.objs == s.objs
    ensures Visiting(r.s, listed, f, todo - {o.name}, if r.Next? then done + {o.name} else done)
  {
    ReadyForOthers(s, r.s, listed, o, f, todo);
    forall n | n in s.objs && n != o.name ensures SameEntry(s.loaded, r.s.loaded, s.objs[n].uid) {
      assert s.objs[n].uid != o.uid;
    }
  }

  /** What a name still to be visited brings along. */
  lemma VisitStart(
    s: NodeState, listed: map<Uid, LoadedProg>, o: BpfObj, f: Oracle, todo: set<ObjName>, done: set<ObjName>)
    requires Visiting(s, listed, f, todo, done) && o.name in todo && o.name in s.objs && s.objs[o.name] == o
    ensures Named(s, o) && NewId(s, o, f) && SameEntry(listed, s.loaded, o.uid)
  {
  }

  /** Every condition that is new is true. */
  ghost predicate WritesTruth(before: map<ObjName, BpfObj>, s: NodeState) {
    forall n | n in s.objs ::
      || s.objs[n].conds == (if n in before then before[n].conds else [])
      || Honest(s.objs[n], s.loaded)
  }

  lemma VisitWritesTruth(s: NodeState, r: Flow, o: BpfObj, f: Oracle)
    requires o.name in s.objs && s.objs[o.name] == o && Visited(s, r, o, f)
    ensures WritesTruth(s.objs, r.s)
  {
    forall n | n in r.s.objs && n != o.name ensures n in s.objs && r.s.objs[n] == s.objs[n] {
      assert n in r.s.objs - {o.name} && n in s.objs - {o.name};
      assert r.s.objs[n] == (r.s.objs - {o.name})[n] == (s.objs - {o.name})[n];
    }
  }

  /** What a loop, or the rest of it, leaves: if it ends Unchanged, `more` tell the truth as well. */
  ghost predicate Reported(
    s: NodeState, p: Pass, listed: map<Uid, LoadedProg>, f: Oracle, others: set<ObjName>, done: set<ObjName>,
    more: set<ObjName>)
  {
    && WritesTruth(s.objs, p.s)
    && (GoesOn(p.outcome) ==> p.s.objs == s.objs && Visiting(p.s, listed, f, others, done))
    && (p.outcome == Unchanged ==> Visiting(p.s, listed, f, others, done + more))
  }

  // ----- handleProgDelete -----

  lemma {:induction false} DeleteFromHonest(
    s: NodeState, listed: map<Uid, LoadedProg>, existing: map<ObjName, BpfObj>, c: Ctx, f: Oracle, i: nat,
    others: set<ObjName>, done: set<ObjName>)
    requires i <= |f.order| && Distinct(f.order) && Current(existing, s.objs, c.node) && others !! existing.Keys
    requires forall n | n in existing :: existing[n].owner == c.prog.name
    requires Visiting(s, listed, f, Todo(existing, f.order, i, others), done)
    ensures
      Reported(s, DeleteFrom(s, listed, existing, c, f, i), listed, f, others, done,
               existing.Keys * Rest(f.order, i))
    decreases |f.order| - i
  {
    if i == |f.order| {
      NothingToDelete(s, listed, existing, f, others, done);
    } else if f.order[i] !in existing {
      RestSplits(existing, f.order, i);
      SkipsOne(s, listed, existing, f, i, others, done);
      DeleteFromHonest(s, listed, existing, c, f, i + 1, others, done);
    } else {
      RestSplits(existing, f.order, i);
      DeleteNextHonest(s, listed, existing, c, f, i, others, done);
      var o := existing[f.order[i]];
      var r := DeleteOne(s, listed, o, c, f);
      if r.Next? {
        DeleteFromHonest(r.s, listed, existing, c, f, i + 1, others, done + {o.name});
        var p := DeleteFrom(r.s, listed, existing, c, f, i + 1);
        MoreDone(s, r.s, p, listed, f, others, done, o.name, existing.Keys * Rest(f.order, i + 1));
      }
    }
  }

  lemma RestSplits(existing: map<ObjName, BpfObj>, order: seq<ObjName>, i: nat)
    requires i < |order|
    ensures existing.Keys * Rest(order, i) ==
            (if order[i] in existing then {order[i]} else {}) + existing.Keys * Rest(order, i + 1)
  {
  }

  lemma NothingToDelete(
    s: NodeState, listed: map<Uid, LoadedProg>, existing: map<ObjName, BpfObj>, f: Oracle, others: set<ObjName>,
    done: set<ObjName>)
    requires Visiting(s, listed, f, Todo(existing, f.order, |f.order|, others), done)
    ensures Reported(s, Pass(s, Unchanged), listed, f, others, done, existing.Keys * Rest(f.order, |f.order|))
  {
    assert Todo(existing, f.order, |f.order|, others) == others;
    assert done + existing.Keys * Rest(f.order, |f.order|) == done;
  }

  lemma SkipsOne(
    s: NodeState, listed: map<Uid, LoadedProg>, existing: map<ObjName, BpfObj>, f: Oracle, i: nat,
    others: set<ObjName>, done: set<ObjName>)
    requires i < |f.order| && f.order[i] !in existing &&
             Visiting(s, listed, f, Todo(existing, f.order, i, others), done)
    ensures Visiting(s, listed, f, Todo(existing, f.order, i + 1, others), done)
  {
    VisitingFewer(s, listed, f, Todo(existing, f.order, i, others), done, Todo(existing, f.order, i + 1, others));
  }

  lemma DeleteNextHonest(
    s: NodeState, listed: map<Uid, LoadedProg>, existing: map<ObjName, BpfObj>, c: Ctx, f: Oracle, i: nat,
    others: set<ObjName>, done: set<ObjName>)
    requires i < |f.order| && Distinct(f.order) && Current(existing, s.objs, c.node) && others !! existing.Keys
    requires f.order[i] in existing && existing[f.order[i]].owner == c.prog.name
    requires Visiting(s, listed, f, Todo(existing, f.order, i, others), done)
    ensures
      var o := existing[f.order[i]];
      var r := DeleteOne(s, listed, o, c, f);
      && (r.Next? ==> r.s.objs == s.objs &&
                      Visiting(r.s, listed, f, Todo(existing, f.order, i + 1, others), done + {o.name}))
      && (r.Exit? ==> r.outcome != Unchanged && Reported(s, Pass(r.s, r.outcome), listed, f, others, done, {}))
  {
    TodoShrinks(existing, f.order, i, others);
    var o, todo := existing[f.order[i]], Todo(existing, f.order, i, others);
    var todo' := Todo(existing, f.order, i + 1, others);
    VisitStart(s, listed, o, f, todo, done);
    DeleteOneHonest(s, listed, o, c, f);
    var r := DeleteOne(s, listed, o, c, f);
    VisitWritesTruth(s, r, o, f);
    if r.s.objs == s.objs {
      VisitingNext(s, r, listed, o, f, todo, done);
      VisitingFewer(r.s, listed, f, todo - {o.name}, if r.Next? then done + {o.name} else done, todo');
      VisitingFewer(r.s, listed, f, todo - {o.name}, if r.Next? then done + {o.name} else done, others);
    }
  }

  /** The rest of a loop after one more truthful BpfProgram. */
  lemma MoreDone(
    s: NodeState, t: NodeState, p: Pass, listed: map<Uid, LoadedProg>, f: Oracle, others: set<ObjName>,
    done: set<ObjName>, n: ObjName, more: set<ObjName>)
    requires t.objs == s.objs && Reported(t, p, listed, f, others, done + {n}, more)
    ensures Reported(s, p, listed, f, others, done, {n} + more)
  {
    assert done + {n} + more == done + ({n} + more);
  }

  // ----- handleProgCreateOrUpdate -----

  /** The loop over expected BpfPrograms between two iterations. */
  ghost predicate Updating(
    s: NodeState, listed: map<Uid, LoadedProg>, existing: map<ObjName, BpfObj>, c: Ctx, f: Oracle,
    others: set<ObjName>, done: set<ObjName>)
  {
    && Distinct(f.order) && Current(existing, s.objs, c.node) && others !! existing.Keys
    && (forall n | n in existing :: existing[n].owner == c.prog.name && n in f.order)
    && Visiting(s, listed, f, others + existing.Keys, done)
  }

  lemma UpdateEndHonest(
    s: NodeState, listed: map<Uid, LoadedProg>, existing: map<ObjName, BpfObj>, c: Ctx, f: Oracle,
    others: set<ObjName>, done: set<ObjName>)
    requires Updating(s, listed, existing, c, f, others, done)
    ensures
      var p := if existing == map[] then Pass(s, Unchanged) else DeleteFrom(s, listed, existing, c, f, 0);
      Reported(s, p, listed, f, others, done, existing.Keys)
  {
    assert existing.Keys * Rest(f.order, 0) == existing.Keys;
    assert Todo(existing, f.order, 0, others) == others + existing.Keys;
    DeleteFromHonest(s, listed, existing, c, f, 0, others, done);
    if existing == map[] {
      assert others + existing.Keys == others && done + existing.Keys == done;
    }
  }

  lemma CreateHonest(
    s: NodeState, listed: map<Uid, LoadedProg>, existing: map<ObjName, BpfObj>, e: Expected, c: Ctx, f: Oracle,
    others: set<ObjName>, done: set<ObjName>)
    requires Updating(s, listed, existing, c, f, others, done)
    ensures var r := Create(s, e, c, f); Reported(s, Pass(r.s, r.outcome), listed, f, others, done, {})
    ensures Create(s, e, c, f).outcome != Unchanged
  {
    VisitingFewer(s, listed, f, others + existing.Keys, done, others);
  }

  lemma UpdateNextHonest(
    s: NodeState, listed: map<Uid, LoadedProg>, existing: map<ObjName, BpfObj>, n: ObjName, c: Ctx, f: Oracle,
    others: set<ObjName>, done: set<ObjName>)
    requires Updating(s, listed, existing, c, f, others, done) && n in existing
    ensures
      var r := UpdateOne(s, listed, existing[n], c, f);
      && (r.Next? ==> r.s.objs == s.objs && Updating(r.s, listed, existing - {n}, c, f, others, done + {n}))
      && (r.Exit? ==> r.outcome != Unchanged && Reported(s, Pass(r.s, r.outcome), listed, f, others, done, {}))
  {
    var o, todo := existing[n], others + existing.Keys;
    assert o.name == n;
    VisitStart(s, listed, o, f, todo, done);
    UpdateOneHonest(s, listed, o, c, f);
    var r := UpdateOne(s, listed, o, c, f);
    VisitWritesTruth(s, r, o, f);
    if r.s.objs == s.objs {
      VisitingNext(s, r, listed, o, f, todo, done);
      LeavesRest(r.s, listed, existing, n, f, others, done, r.Next?);
    }
  }

  lemma LeavesRest(
    s: NodeState, listed: map<Uid, LoadedProg>, existing: map<ObjName, BpfObj>, n: ObjName, f: Oracle,
    others: set<ObjName>, done: set<ObjName>, next: bool)
    requires n in existing && others !! existing.Keys
    requires Visiting(s, listed, f, others + existing.Keys - {n}, if next then done + {n} else done)
    ensures Visiting(s, listed, f, others + (existing - {n}).Keys, if next then done + {n} else done)
    ensures Visiting(s, listed, f, others, if next then done + {n} else done)
  {
    var todo, done' := others + existing.Keys - {n}, if next then done + {n} else done;
    VisitingFewer(s, listed, f, todo, done', others + (existing - {n}).Keys);
    VisitingFewer(s, listed, f, todo, done', others);
  }

  lemma {:induction false} UpdateFromHonest(
    s: NodeState, listed: map<Uid, LoadedProg>, existing: map<ObjName, BpfObj>, expected: seq<Expected>,
    c: Ctx, f: Oracle, i: nat, others: set<ObjName>, done: set<ObjName>)
    requires i <= |expected| && Updating(s, listed, existing, c, f, others, done)
    ensures
      Reported(s, UpdateFrom(s, listed, existing, expected, c, f, i), listed, f, others, done, existing.Keys)
    decreases |expected| - i
  {
    if i == |expected| {
      UpdateEndHonest(s, listed, existing, c, f, others, done);
    } else if expected[i].name !in existing {
      CreateHonest(s, listed, existing, expected[i], c, f, others, done);
    } else {
      var n := expected[i].name;
      UpdateNextHonest(s, listed, existing, n, c, f, others, done);
      var r, rest := UpdateOne(s, listed, existing[n], c, f), existing - {n};
      if r.Next? {
        UpdateFromHonest(r.s, listed, rest, expected, c, f, i + 1, others, done + {n});
        var p := UpdateFrom(r.s, listed, rest, expected, c, f, i + 1);
        MoreDone(s, r.s, p, listed, f, others, done, n, rest.Keys);
        assert {n} + rest.Keys == existing.Keys;
      }
    }
  }

  // ----- A whole pass -----

  lemma ReconcileProgramHonest(
    s: NodeState, listed: map<Uid, LoadedProg>, node: NodeName, prog: ProgObj, v: View, f: Oracle,
    others: set<ObjName>, done: set<ObjName>)
    requires Distinct(f.order) && (forall n | n in s.objs :: n in f.order)
    requires others !! Existing(s.objs, node, prog.name).Keys
    requires Visiting(s, listed, f, others + Existing(s.objs, node, prog.name).Keys, done)
    ensures
      Reported(s, ReconcileProgram(s, listed, node, prog, v, f), listed, f, others, done,
               Existing(s.objs, node, prog.name).Keys)
  {
    var existing := Existing(s.objs, node, prog.name);
    VisitingFewer(s, listed, f, others + existing.Keys, done, others);
    if v.View? {
      var c := Ctx(node, prog, v.selected, v.mapOwner);
      assert Updating(s, listed, existing, c, f, others, done);
      if prog.deleting {
        assert existing.Keys * Rest(f.order, 0) == existing.Keys;
        assert Todo(existing, f.order, 0, others) == others + existing.Keys;
        DeleteFromHonest(s, listed, existing, c, f, 0, others, done);
      } else if v.expected.Some? {
        UpdateFromHonest(s, listed, existing, v.expected.value, c, f, 0, others, done);
      }
    }
  }

  /** Every BpfProgram that the pass was to visit, or had visited, tells the truth. */
  ghost predicate AllHonest(s: NodeState, names: set<ObjName>) {
    forall n | n in names && n in s.objs :: Honest(s.objs[n], s.loaded)
  }

  lemma {:induction false} ReconcileFromHonest(
    s: NodeState, listed: map<Uid, LoadedProg>, node: NodeName, progs: seq<ProgObj>,
    views: map<ProgName, View>, f: Oracle, i: nat, requeue: bool, done: set<ObjName>)
    requires i <= |progs| && DistinctNames(progs) && Distinct(f.order) && (forall n | n in s.objs :: n in f.order)
    requires Visiting(s, listed, f, Unvisited(s.objs, node, progs, i), done)
    ensures
      var p := ReconcileFrom(s, listed, node, progs, views, f, i, requeue);
      && WritesTruth(s.objs, p.s)
      && (p.outcome == Unchanged ==> AllHonest(p.s, done + Unvisited(s.objs, node, progs, i)))
    decreases |progs| - i
  {
    if i == |progs| {
      assert Unvisited(s.objs, node, progs, i) == {};
    } else {
      var v := ViewOf(views, progs[i].name);
      var mine, others := Existing(s.objs, node, progs[i].name).Keys, Unvisited(s.objs, node, progs, i + 1);
      assert others + mine == Unvisited(s.objs, node, progs, i);
      ReconcileProgramHonest(s, listed, node, progs[i], v, f, others, done);
      var p := ReconcileProgram(s, listed, node, progs[i], v, f);
      if !v.CannotSet? && GoesOn(p.outcome) {
        var requeue' := requeue || p.outcome == Requeue;
        var done' := if p.outcome == Unchanged then done + mine else done;
        ReconcileFromHonest(p.s, listed, node, progs, views, f, i + 1, requeue', done');
        RequeueStays(p.s, listed, node, progs, views, f, i + 1, requeue');
        assert done + mine + others == done + Unvisited(s.objs, node, progs, i);
      }
    }
  }

  /** A remembered Requeue is never forgotten. */
  lemma {:induction false} RequeueStays(
    s: NodeState, listed: map<Uid, LoadedProg>, node: NodeName, progs: seq<ProgObj>,
    views: map<ProgName, View>, f: Oracle, i: nat, requeue: bool)
    requires i <= |progs|
    ensures requeue ==> ReconcileFrom(s, listed, node, progs, views, f, i, requeue).outcome != Unchanged
    decreases |progs| - i
  {
    if i < |progs| {
      var v := ViewOf(views, progs[i].name);
      var p := ReconcileProgram(s, listed, node, progs[i], v, f);
      if !v.CannotSet? && GoesOn(p.outcome) {
        RequeueStays(p.s, listed, node, progs, views, f, i + 1, requeue || p.outcome == Requeue);
      }
    }
  }

  /**
   Whatever fails: every condition that a pass writes is true of what bpfman has then; and if the pass reports
   Unchanged, so is the one condition of every BpfProgram of the list on this node.
   */
  lemma PassTellsTruth(s: NodeState, node: NodeName, progs: seq<ProgObj>, views: map<ProgName, View>, f: Oracle)
    requires Inv(s.objs, s.loaded, node) && KernelIdsFresh(f, s.loaded) && DistinctNames(progs)
    requires Distinct(f.order) && forall n | n in s.objs :: n in f.order
    ensures
      var p := ReconcileCommon(s, node, progs, views, f);
      && WritesTruth(s.objs, p.s)
      && (p.outcome == Unchanged ==> AllHonest(p.s, Unvisited(s.objs, node, progs, 0)))
  {
    forall n | n in s.objs && s.objs[n].uid in s.loaded
      ensures s.objs[n].id == Some(s.loaded[s.objs[n].uid].id)
    {
      OwnBacking(s, s.objs[n], node);
    }
    if !f.listFails {
      ReconcileFromHonest(s, s.loaded, node, progs, views, f, 0, false, {});
      assert {} + Unvisited(s.objs, node, progs, 0) == Unvisited(s.objs, node, progs, 0);
    }
  }
}
