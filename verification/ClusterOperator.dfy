/**
 The operator's pass as a step of the cluster, in terms of the objects that exist: it protects a *Program first, lets go
 of it only when no BpfProgram is protected any more, and otherwise says how the BpfPrograms are.
 */
module ClusterOperator {
  import opened Wrappers
  import opened AgentModel
  import opened AgentWrites
  import opened AgentSafety
  import opened OperatorModel
  import opened Cluster
  import opened ClusterOrphans
  import opened AgentTruth
  import opened AgentHonesty

  // ----- What the operator says -----

  /** Some BpfProgram of the *Program still has the agents' finalizer. */
  ghost predicate SomeFinalizer(w: World, p: ProgName) {
    exists n :: n in w.objs && w.objs[n].owner == p && w.objs[n].finalizer
  }

  ghost predicate SomeNodeWithout(w: World, p: ProgName, nodeNames: seq<NodeName>) {
    exists d :: d in nodeNames && forall n | n in w.objs && w.objs[n].owner == p :: w.objs[n].node != d
  }

  /** The first condition is missing or tells of something that is not as it should be. */
  ghost predicate Troubled(o: BpfObj) {
    |o.conds| > 0 ==>
      match o.conds[0]
      case Loaded => false
      case Unloaded => false
      case NotSelected => false
      case NoContainersOnNode => false
      case _ => true
  }

  ghost predicate SomeTroubled(w: World, p: ProgName) {
    exists n :: n in w.objs && w.objs[n].owner == p && Troubled(w.objs[n])
  }

  lemma ListedFinalizer(w: World, p: ProgName, items: seq<BpfObj>)
    requires Lists(items, w.objs, p)
    ensures WithFinalizer(items) != [] <==> SomeFinalizer(w, p)
  {
    if SomeFinalizer(w, p) {
      var n :| n in w.objs && w.objs[n].owner == p && w.objs[n].finalizer;
      assert w.objs[n] in items;
    }
    forall i | 0 <= i < |items| && items[i].finalizer ensures SomeFinalizer(w, p) { assert items[i] in items; }
  }

  lemma ListedTroubled(w: World, p: ProgName, items: seq<BpfObj>)
    requires Lists(items, w.objs, p)
    ensures Failed(items) != [] <==> SomeTroubled(w, p)
  {
    if SomeTroubled(w, p) {
      var n :| n in w.objs && w.objs[n].owner == p && Troubled(w.objs[n]);
      assert w.objs[n] in items;
    }
    forall i | 0 <= i < |items| && IsConditionFailure(items[i].conds) ensures SomeTroubled(w, p) {
      assert items[i] in items && Troubled(w.objs[items[i].name]);
    }
  }

  lemma ListedNodes(w: World, p: ProgName, items: seq<BpfObj>, nodeNames: seq<NodeName>)
    requires Lists(items, w.objs, p)
    ensures (exists d :: d in nodeNames && !HasProgram(items, d)) <==> SomeNodeWithout(w, p, nodeNames)
  {
    forall d ensures HasProgram(items, d) <==> exists n :: n in w.objs && w.objs[n].owner == p && w.objs[n].node == d {
      HasProgramIff(items, w.objs, p, d);
    }
  }

  /** What a live *Program's one condition says after the operator's pass. */
  ghost predicate Verdict(w: World, p: ProgName, nodeNames: seq<NodeName>, cond: ProgCond) {
    if SomeNodeWithout(w, p, nodeNames) then cond == NotYetLoaded
    else if SomeTroubled(w, p) then cond == ReconcileError
    else cond == ReconcileSuccess
  }

  /**
   The operator's pass, exactly: a *Program without the operator's finalizer gets it and nothing else happens; one that
   is being deleted goes if and only if no BpfProgram of it has a finalizer; otherwise its one condition is set.
   */
  lemma OperatorExactly(w: World, p: ProgName, items: seq<BpfObj>, nodeNames: seq<NodeName>)
    requires p in w.progs && Lists(items, w.objs, p)
    ensures
      var w', r := Take(w, OperatorPass(p, items, nodeNames, false)), w.progs[p];
      && w' == w.(progs := w'.progs) && w'.progs - {p} == w.progs - {p}
      && (!r.opFinalizer ==> w'.progs == w.progs[p := r.(opFinalizer := true)])
      && (r.opFinalizer && r.deleting ==>
            if SomeFinalizer(w, p) then w'.progs == w.progs[p := r.(conds := [DeleteError])] else p !in w'.progs)
      && (r.opFinalizer && !r.deleting ==>
            && p in w'.progs && |w'.progs[p].conds| == 1 && w'.progs[p] == r.(conds := w'.progs[p].conds)
            && Verdict(w, p, nodeNames, w'.progs[p].conds[0]))
    ensures Take(w, OperatorPass(p, items, nodeNames, true)) == w
  {
    ListedFinalizer(w, p, items);
    ListedTroubled(w, p, items);
    ListedNodes(w, p, items, nodeNames);
  }

  /** The status message names exactly the BpfPrograms that hold the deletion up, or that are in trouble. */
  lemma NamesExactly(w: World, p: ProgName, items: seq<BpfObj>, nodeNames: seq<NodeName>, n: ObjName)
    requires WellFormed(w.objs) && p in w.progs && Lists(items, w.objs, p)
    requires Decide(w.progs[p], items, nodeNames).SetStatus?
    ensures
      var d := Decide(w.progs[p], items, nodeNames);
      n in d.names <==>
        && n in w.objs && w.objs[n].owner == p
        && ((d.cond == DeleteError && w.objs[n].finalizer) || (d.cond == ReconcileError && Troubled(w.objs[n])))
  {
    if n in w.objs && w.objs[n].owner == p {
      assert w.objs[n] in items;
      var i :| 0 <= i < |items| && items[i] == w.objs[n];
      assert items[i].name == n;
    }
    forall i | 0 <= i < |items| && items[i].name == n
      ensures n in w.objs && w.objs[n] == items[i] && w.objs[n].owner == p
    {
      assert items[i] in items;
    }
  }

  // ----- A protected *Program -----

  ghost predicate Protected(w: World, p: ProgName) {
    p in w.progs && w.progs[p].opFinalizer
  }

  /** Once the finalizer is there it stays, whoever takes steps, until the operator drops it. */
  lemma StaysProtected(w: World, step: Step, p: ProgName)
    requires Protected(w, p) && !Drops(w, step, p)
    ensures Protected(Take(w, step), p) && !(Leaks(w, step) && step.prog == p)
  {
  }

  ghost predicate NeverDrops(w: World, steps: seq<Step>, p: ProgName) {
    forall k | 0 <= k < |steps| :: !Drops(Final(w, steps[..k]), steps[k], p)
  }

  lemma NeverDropsBefore(final: seq<Step> -> World, steps: seq<Step>, p: ProgName)
    requires steps != [] && forall k | 0 <= k < |steps| :: !Drops(final(steps[..k]), steps[k], p)
    ensures
      var before := steps[..|steps| - 1];
      forall k | 0 <= k < |before| :: !Drops(final(before[..k]), before[k], p)
  {
    var before := steps[..|steps| - 1];
    forall k | 0 <= k < |before| ensures !Drops(final(before[..k]), before[k], p) { assert before[..k] == steps[..k]; }
  }

  /**
   From the operator's first pass over a *Program on, until it drops the finalizer, the *Program exists, whatever users
   do, and no deletion of it can leave a program behind.
   */
  lemma {:induction false} ProtectedOverRuns(w: World, steps: seq<Step>, p: ProgName)
    requires Protected(w, p) && NeverDrops(w, steps, p)
    ensures Protected(Final(w, steps), p)
    ensures !Leaks(Final(w, steps), UserDelete(p))
  {
    if steps != [] {
      var before := steps[..|steps| - 1];
      NeverDropsBefore(front => Final(w, front), steps, p);
      ProtectedOverRuns(w, before, p);
      StaysProtected(Final(w, before), steps[|steps| - 1], p);
    }
  }

  // ----- What users and the API server do -----

  /**
   An edit is what agents act on from then on; an object whose deletion is asked for goes as soon as an agent's visit
   has taken its finalizer away.
   */
  lemma WishesCount(w: World, p: ProgName, spec: Spec, n: ObjName, listed: map<Uid, LoadedProg>, c: Ctx, f: Oracle)
    requires p in w.progs && n in w.objs && w.objs[n].name == n && w.objs[n].finalizer && c.node in w.nodes
    requires n !in f.writeFails
    ensures ProgOf(Take(w, UserEdit(p, spec)), p) == ProgObj(p, spec, w.progs[p].deleting)
    ensures
      var w' := Take(w, DeleteObject(n));
      && n in w'.objs
      && var t := DeleteOne(StateOf(w', c.node), listed, w'.objs[n], c, f);
         t.Exit? && t.outcome == Updated ==> n !in t.s.objs
  {
    DeletingNeverErrs(StateOf(Take(w, DeleteObject(n)), c.node), listed, Take(w, DeleteObject(n)).objs[n], c, f);
  }

  // ----- Success tells the truth -----

  /** Every BpfProgram of the *Program has one condition, and it is true on its node. */
  ghost predicate AllTell(w: World, p: ProgName) {
    forall n | n in w.objs && w.objs[n].owner == p ::
      w.objs[n].node in w.nodes && Honest(w.objs[n], w.nodes[w.objs[n].node].loaded)
  }

  /** An Unchanged pass over a list with the *Program, whatever failed in it, leaves that true on its node. */
  lemma UnchangedTells(w: World, step: Step, p: ProgName, n: ObjName)
    requires step.AgentPass? && step.node in w.nodes && ClusterInv(w) && p in step.names && Distinct(step.names)
    requires KernelIdsFresh(step.oracle, w.nodes[step.node].loaded)
    requires Distinct(step.oracle.order) && forall m | m in w.objs :: m in step.oracle.order
    requires PassOf(w, step.node, step.names, step.views, step.oracle).outcome == Unchanged
    requires n in w.objs && w.objs[n].owner == p && w.objs[n].node == step.node
    ensures
      var w' := Take(w, step);
      n in w'.objs && w'.objs[n] == w.objs[n] && Honest(w'.objs[n], w'.nodes[step.node].loaded)
  {
    var s, progs := StateOf(w, step.node), ProgsOf(w, step.names);
    PassTellsTruth(s, step.node, progs, step.views, step.oracle);
    AtMostOneWritePerPass(s, step.node, progs, step.views, step.oracle);
    var k :| 0 <= k < |step.names| && step.names[k] == p;
    assert progs[k].name == p;
    assert n in Unvisited(s.objs, step.node, progs, 0);
  }

  /**
   If every BpfProgram tells the truth, the operator's ReconcileSuccess means: each of them runs under the ID its
   annotation has, loaded for this *Program, or does not run and says why.
   */
  lemma SuccessTellsTruth(w: World, p: ProgName, items: seq<BpfObj>, nodeNames: seq<NodeName>, n: ObjName)
    requires Protected(w, p) && !w.progs[p].deleting && Lists(items, w.objs, p) && AllTell(w, p)
    requires Take(w, OperatorPass(p, items, nodeNames, false)).progs[p].conds == [ReconcileSuccess]
    requires n in w.objs && w.objs[n].owner == p
    ensures
      var o, loaded := w.objs[n], w.nodes[w.objs[n].node].loaded;
      || (o.conds == [Loaded] && o.uid in loaded && o.id == Some(loaded[o.uid].id)
          && loaded[o.uid].request.owner == p)
      || (o.uid !in loaded && |o.conds| == 1 && o.conds[0] in {Unloaded, NotSelected, NoContainersOnNode})
  {
    OperatorExactly(w, p, items, nodeNames);
    assert !Troubled(w.objs[n]);
  }
}
