/**
 The whole cluster as a transition system: users, the API server, one operator and one agent per node take atomic
 steps in any order. The central result is that the operator lets go of a *Program only when no node runs it.
 */
module Cluster {
  import opened Wrappers
  import opened AgentModel
  import opened AgentWrites
  import opened AgentSafety
  import opened AgentConvergence
  import opened OperatorModel

  /** What lives on one node: the programs bpfman has loaded and the agent's progId field. */
  datatype Local = Local(loaded: map<Uid, LoadedProg>, progId: Option<nat>)

  datatype World = World(progs: map<ProgName, ProgRecord>, objs: map<ObjName, BpfObj>, nodes: map<NodeName, Local>)

  datatype Step =
    | UserCreate(prog: ProgName, spec: Spec)
    | UserEdit(prog: ProgName, spec: Spec)
    | UserDelete(prog: ProgName)
    | DeleteObject(obj: ObjName)          // by the garbage collector or by a user
    | AgentPass(node: NodeName, names: seq<ProgName>, views: map<ProgName, View>, oracle: Oracle)
    | OperatorPass(prog: ProgName, items: seq<BpfObj>, nodeNames: seq<NodeName>, writeFails: bool)

  // ----- Steps -----

  function ProgOf(w: World, p: ProgName): ProgObj {
    if p in w.progs then ProgObj(p, w.progs[p].spec, w.progs[p].deleting)
    else ProgObj(p, Spec("", File(""), NoCodes, "", ""), false)
  }

  function ProgsOf(w: World, names: seq<ProgName>): seq<ProgObj> {
    seq(|names|, i requires 0 <= i < |names| => ProgOf(w, names[i]))
  }

  function StateOf(w: World, node: NodeName): NodeState
    requires node in w.nodes
  {
    NodeState(w.objs, w.nodes[node].loaded, w.nodes[node].progId, 0)
  }

  function PassOf(w: World, node: NodeName, names: seq<ProgName>, views: map<ProgName, View>, f: Oracle): Pass
    requires node in w.nodes
  {
    ReconcileCommon(StateOf(w, node), node, ProgsOf(w, names), views, f)
  }

  /** A *Program that is being deleted disappears with its last finalizer. */
  function Operate(w: World, p: ProgName, d: Decision): World
    requires p in w.progs
  {
    var r := w.progs[p];
    match d
    case AddFinalizer => w.(progs := w.progs[p := r.(opFinalizer := true)])
    case RemoveOpFinalizer => w.(progs := w.progs - {p})
    case SetStatus(cond, _) => w.(progs := w.progs[p := r.(conds := UpdateCondition(r.conds, cond))])
  }

  function Take(w: World, step: Step): World {
    match step
    case UserCreate(p, spec) =>
      if p in w.progs then w else w.(progs := w.progs[p := ProgRecord(spec, false, false, [])])
    case UserEdit(p, spec) => if p !in w.progs then w else w.(progs := w.progs[p := w.progs[p].(spec := spec)])
    case UserDelete(p) =>
      if p !in w.progs then w
      else if w.progs[p].opFinalizer then w.(progs := w.progs[p := w.progs[p].(deleting := true)])
      else w.(progs := w.progs - {p})
    case DeleteObject(n) =>
      if n !in w.objs then w
      else if w.objs[n].finalizer then w.(objs := w.objs[n := w.objs[n].(terminating := true)])
      else w.(objs := w.objs - {n})
    case AgentPass(node, names, views, f) =>
      if node !in w.nodes then w
      else
        var s := PassOf(w, node, names, views, f).s;
        w.(objs := s.objs, nodes := w.nodes[node := Local(s.loaded, s.progId)])
    case OperatorPass(p, items, nodeNames, writeFails) =>
      if p !in w.progs || writeFails then w else Operate(w, p, Decide(w.progs[p], items, nodeNames))
  }

  // ----- Hypotheses -----

  /** `items` is a correct listing of the BpfPrograms labelled with this *Program. */
  ghost predicate Lists(items: seq<BpfObj>, objs: map<ObjName, BpfObj>, p: ProgName) {
    && (forall n | n in objs && objs[n].owner == p :: objs[n] in items)
    && (forall o | o in items :: o.name in objs && objs[o.name] == o && o.owner == p)
  }

  ghost predicate UidNew(w: World, uid: Uid) {
    && (forall n | n in w.objs :: w.objs[n].uid != uid)
    && (forall d | d in w.nodes :: uid !in w.nodes[d].loaded)
  }

  /** The hypotheses of deletion safety on one step. */
  ghost predicate Allowed(w: World, step: Step) {
    match step
    case AgentPass(node, names, views, f) =>
      && node in w.nodes && Distinct(names) && (forall p | p in names :: p in w.progs)
      && Dependable(f) && Distinct(f.order)
      && KernelIdsFresh(f, w.nodes[node].loaded) && UidNew(w, f.newUid)
      && ViewsOk(StateOf(w, node), node, ProgsOf(w, names), views)
    case OperatorPass(p, items, nodeNames, _) =>
      Lists(items, w.objs, p) && forall d | d in w.nodes :: d in nodeNames
    case _ => true
  }

  // ----- The invariant of every run -----

  ghost predicate ClusterInv(w: World) {
    && WellFormed(w.objs)
    && forall d | d in w.nodes :: Inv(w.objs, w.nodes[d].loaded, d)
  }

  /** A cluster before anything happened: no objects, nothing loaded. */
  ghost predicate Initial(w: World) {
    w.progs == map[] && w.objs == map[] && forall d | d in w.nodes :: w.nodes[d].loaded == map[]
  }

  /** An agent's pass cannot disturb another node. */
  lemma OtherNodeKeepsInv(
    before: map<ObjName, BpfObj>, after: map<ObjName, BpfObj>, loaded: map<Uid, LoadedProg>,
    node: NodeName, other: NodeName, uid: Uid)
    requires Inv(before, loaded, other) && WellFormed(after) && node != other && uid !in loaded
    requires TouchesOne(before, after, node, uid)
    ensures Inv(after, loaded, other)
  {
    var m :| OnlyTouches(before, after, m, node, uid);
    forall u | u in loaded
      ensures Backed(after, u, loaded[u], other)
    {
      var n :| n in before && Backs(before[n], u, loaded[u], other);
      if n == m {
        assert before == after;
      } else {
        assert n in before - {m} && n in after - {m};
      }
    }
  }

  lemma AgentStepKeepsInv(w: World, step: Step)
    requires step.AgentPass? && ClusterInv(w) && Allowed(w, step)
    ensures ClusterInv(Take(w, step))
  {
    var AgentPass(node, names, views, f) := step;
    var s := StateOf(w, node);
    PassKeepsInv(s, node, ProgsOf(w, names), views, f);
    AtMostOneWritePerPass(s, node, ProgsOf(w, names), views, f);
    var t := PassOf(w, node, names, views, f).s;
    forall d | d in w.nodes && d != node
      ensures Inv(t.objs, w.nodes[d].loaded, d)
    {
      OtherNodeKeepsInv(w.objs, t.objs, w.nodes[d].loaded, node, d, f.newUid);
    }
  }

  lemma DeleteObjectKeepsInv(w: World, n: ObjName)
    requires ClusterInv(w)
    ensures ClusterInv(Take(w, DeleteObject(n)))
  {
    var w' := Take(w, DeleteObject(n));
    forall d | d in w.nodes ensures Inv(w'.objs, w.nodes[d].loaded, d) {
      if n in w.objs { MarkedKeepsInv(w.objs, n, w.nodes[d].loaded, d); }
    }
  }

  /** What deleting an object does on the API server keeps every program backed. */
  lemma MarkedKeepsInv(objs: map<ObjName, BpfObj>, n: ObjName, loaded: map<Uid, LoadedProg>, d: NodeName)
    requires n in objs && Inv(objs, loaded, d)
    ensures objs[n].finalizer ==> Inv(objs[n := objs[n].(terminating := true)], loaded, d)
    ensures !objs[n].finalizer ==> Inv(objs - {n}, loaded, d)
  {
    var after := if objs[n].finalizer then objs[n := objs[n].(terminating := true)] else objs - {n};
    forall u | u in loaded ensures Backed(after, u, loaded[u], d) {
      var m :| m in objs && Backs(objs[m], u, loaded[u], d);
      assert m in after && Backs(after[m], u, loaded[u], d);
    }
  }

  lemma StepKeepsInv(w: World, step: Step)
    requires ClusterInv(w) && Allowed(w, step)
    ensures ClusterInv(Take(w, step))
  {
    match step
    case AgentPass(_, _, _, _) => AgentStepKeepsInv(w, step);
    case DeleteObject(n) => DeleteObjectKeepsInv(w, n);
    case _ =>
  }

  // ----- Runs -----

  ghost function Final(w: World, steps: seq<Step>): World {
    if steps == [] then w else Take(Final(w, steps[..|steps| - 1]), steps[|steps| - 1])
  }

  ghost predicate AllAllowed(w: World, steps: seq<Step>) {
    forall k | 0 <= k < |steps| :: Allowed(Final(w, steps[..k]), steps[k])
  }

  lemma AllowedBefore(w: World, steps: seq<Step>)
    requires steps != [] && AllAllowed(w, steps)
    ensures AllAllowed(w, steps[..|steps| - 1])
    ensures Allowed(Final(w, steps[..|steps| - 1]), steps[|steps| - 1])
  {
    var before := steps[..|steps| - 1];
    forall k | 0 <= k < |before| ensures Allowed(Final(w, before[..k]), before[k]) { assert before[..k] == steps[..k]; }
  }

  /**
   Whole-run invariant: after any interleaving of steps, every program loaded on any node belongs to a BpfProgram of
   that node that still has its controller finalizer and whose ID annotation is the loaded program's ID.
   */
  lemma {:induction false} RunKeepsInv(w: World, steps: seq<Step>)
    requires Initial(w) && AllAllowed(w, steps)
    ensures ClusterInv(Final(w, steps))
  {
    if steps != [] {
      var before := steps[..|steps| - 1];
      AllowedBefore(w, steps);
      RunKeepsInv(w, before);
      StepKeepsInv(Final(w, before), steps[|steps| - 1]);
    }
  }

  /** No node has a program loaded for this *Program, whether or not its BpfProgram still exists. */
  ghost predicate NotRunning(w: World, p: ProgName) {
    forall d, u | d in w.nodes && u in w.nodes[d].loaded :: w.nodes[d].loaded[u].request.owner != p
  }

  /** The step is the operator dropping its finalizer from the *Program. */
  ghost predicate Drops(w: World, step: Step, p: ProgName) {
    step.OperatorPass? && p in w.progs && p !in Take(w, step).progs
  }

  /**
   Deletion safety: in every interleaving of passes by any number of agents and the operator, when the operator drops
   its finalizer from a *Program no node still has a bpfman program loaded for it.
   */
  lemma DeletionSafety(w: World, steps: seq<Step>, p: ProgName)
    requires Initial(w) && steps != [] && AllAllowed(w, steps)
    requires Drops(Final(w, steps[..|steps| - 1]), steps[|steps| - 1], p)
    ensures NotRunning(Final(w, steps[..|steps| - 1]), p) && NotRunning(Final(w, steps), p)
  {
    AllowedBefore(w, steps);
    RunKeepsInv(w, steps[..|steps| - 1]);
    DropMeans(Final(w, steps[..|steps| - 1]), steps[|steps| - 1], p);
  }

  /** The step in which the operator lets go. */
  lemma DropMeans(w: World, step: Step, p: ProgName)
    requires ClusterInv(w) && Allowed(w, step) && Drops(w, step, p)
    ensures NotRunning(w, p) && NotRunning(Take(w, step), p)
  {
    var OperatorPass(q, items, nodeNames, _) := step;
    assert q == p && w.progs[p].deleting && WithFinalizer(items) == [];
    NobodyRuns(w, items, p);
  }

  /** Without a finalizer on any of its BpfPrograms, nothing of the *Program is loaded. */
  lemma NobodyRuns(w: World, items: seq<BpfObj>, p: ProgName)
    requires ClusterInv(w) && Lists(items, w.objs, p) && WithFinalizer(items) == []
    ensures NotRunning(w, p)
  {
    forall n | n in w.objs && w.objs[n].owner == p ensures !w.objs[n].finalizer { assert w.objs[n] in items; }
    forall d, u | d in w.nodes && u in w.nodes[d].loaded
      ensures w.nodes[d].loaded[u].request.owner != p
    {
      assert Inv(w.objs, w.nodes[d].loaded, d);
      var m :| m in w.objs && Backs(w.objs[m], u, w.nodes[d].loaded[u], d);
    }
  }

  /** The UID of an object that a step removes does not live on in another object. */
  lemma UidNotReused(w: World, step: Step, n: ObjName, m: ObjName)
    requires ClusterInv(w) && Allowed(w, step) && n in w.objs && n !in Take(w, step).objs && m in Take(w, step).objs
    ensures Take(w, step).objs[m].uid != w.objs[n].uid
  {
    if step.AgentPass? {
      var w' := Take(w, step);
      AtMostOneWritePerPass(StateOf(w, step.node), step.node, ProgsOf(w, step.names), step.views, step.oracle);
      var k :| OnlyTouches(w.objs, w'.objs, k, step.node, step.oracle.newUid);
      assert n !in w'.objs - {k} && n !in w.objs - {k};
      assert m in w'.objs - {k} && m in w.objs - {k};
    }
  }

  /** No step of a run makes a BpfProgram object disappear while its program stays loaded on some node. */
  lemma ObjectNeverLostWhileLoaded(w: World, step: Step, n: ObjName, d: NodeName)
    requires ClusterInv(w) && Allowed(w, step) && n in w.objs && n !in Take(w, step).objs && d in w.nodes
    ensures w.objs[n].uid !in Take(w, step).nodes[d].loaded
  {
    StepKeepsInv(w, step);
    var w' := Take(w, step);
    forall u | u in w'.nodes[d].loaded
      ensures u != w.objs[n].uid
    {
      assert Inv(w'.objs, w'.nodes[d].loaded, d);
      var m :| m in w'.objs && Backs(w'.objs[m], u, w'.nodes[d].loaded[u], d);
      UidNotReused(w, step, n, m);
    }
  }

  // ----- Success is truthful -----

  /**
   The agent of node `d` is at its fixed point: its pass over a list with this *Program, every call succeeding, reports
   Unchanged and leaves bpfman as it is.
   */
  ghost predicate AtFixedPoint(w: World, d: NodeName, p: ProgName, pass: Step) {
    && d in w.nodes && pass.AgentPass? && pass.node == d && p in pass.names && Distinct(pass.names)
    && GoodViews(StateOf(w, d), d, ProgsOf(w, pass.names), pass.views)
    && PassOk(StateOf(w, d), pass.oracle)
    && var r := PassOf(w, d, pass.names, pass.views, pass.oracle);
       r.outcome == Unchanged && r.s.loaded == w.nodes[d].loaded
  }

  /** What each agent's pass sees of this *Program. */
  ghost function ViewsOf(passes: map<NodeName, Step>, p: ProgName): map<NodeName, View> {
    map d | d in passes && passes[d].AgentPass? :: ViewOf(passes[d].views, p)
  }

  /** At the fixed point everything is as the *Program asks. */
  lemma FixedPointSettled(w: World, d: NodeName, p: ProgName, pass: Step)
    requires ClusterInv(w) && AtFixedPoint(w, d, p, pass)
    ensures ViewOf(pass.views, p).View?
    ensures ProgramSettled(StateOf(w, d), CtxOf(d, ProgOf(w, p), ViewOf(pass.views, p)), Want(ViewOf(pass.views, p)))
  {
    var s, progs := StateOf(w, d), ProgsOf(w, pass.names);
    PassProgress(s, d, progs, pass.views, pass.oracle);
    var t := PassOf(w, d, pass.names, pass.views, pass.oracle).s;
    CalmIsSettled(t, s.loaded, d, progs, pass.views, pass.oracle);
    var k :| 0 <= k < |pass.names| && pass.names[k] == p;
    assert GoodView(s, d, progs[k], ViewOf(pass.views, p));
    assert ProgramSettled(t, CtxAt(d, progs, pass.views, k), WantAt(progs, pass.views, k));
  }

  /** This BpfProgram runs as requested, or there is a declared reason for it not to run on its node. */
  ghost predicate Accounted(w: World, p: ProgName, views: map<NodeName, View>, n: ObjName)
    requires n in w.objs
  {
    var o := w.objs[n];
    && o.node in w.nodes && o.node in views && views[o.node].View?
    && (|| RunsAsRequested(o, w.nodes[o.node].loaded, CtxOf(o.node, ProgOf(w, p), views[o.node]))
        || !views[o.node].selected
        || o.noContainers)
  }

  lemma SettledIsAccounted(w: World, p: ProgName, passes: map<NodeName, Step>, n: ObjName)
    requires ClusterInv(w) && p in w.progs && !w.progs[p].deleting
    requires n in w.objs && w.objs[n].owner == p && w.objs[n].node in w.nodes && w.objs[n].node in passes
    requires AtFixedPoint(w, w.objs[n].node, p, passes[w.objs[n].node])
    ensures !IsConditionFailure(w.objs[n].conds) <==> Accounted(w, p, ViewsOf(passes, p), n)
  {
    var d := w.objs[n].node;
    FixedPointSettled(w, d, p, passes[d]);
    var c := CtxOf(d, ProgOf(w, p), ViewOf(passes[d].views, p));
    assert Owned(StateOf(w, d).objs, c, n);
    assert Settled(w.objs[n], w.nodes[d].loaded, c);
  }

  /**
   Once every agent is at its fixed point, the operator reports ReconcileSuccess for a live *Program exactly when every
   node has a BpfProgram for it and each of them runs as requested, or its node is not selected, or it has no
   containers.
   */
  lemma SuccessIsTruthful(
    w: World, p: ProgName, passes: map<NodeName, Step>, items: seq<BpfObj>, nodeNames: seq<NodeName>)
    requires ClusterInv(w) && p in w.progs && w.progs[p].opFinalizer && !w.progs[p].deleting
    requires (forall d | d in w.nodes :: d in passes && AtFixedPoint(w, d, p, passes[d])) && Lists(items, w.objs, p)
    requires forall d :: d in nodeNames <==> d in w.nodes
    requires forall n | n in w.objs :: w.objs[n].node in w.nodes
    ensures Decide(w.progs[p], items, nodeNames) == SetStatus(ReconcileSuccess, []) <==>
              && (forall d | d in w.nodes :: exists n :: n in w.objs && w.objs[n].owner == p && w.objs[n].node == d)
              && (forall n | n in w.objs && w.objs[n].owner == p :: Accounted(w, p, ViewsOf(passes, p), n))
  {
    SuccessExact(w.progs[p], items, nodeNames);
    forall d | d in w.nodes
      ensures HasProgram(items, d) <==> exists n :: n in w.objs && w.objs[n].owner == p && w.objs[n].node == d
    {
      HasProgramIff(items, w.objs, p, d);
    }
    forall n | n in w.objs && w.objs[n].owner == p
      ensures !IsConditionFailure(w.objs[n].conds) <==> Accounted(w, p, ViewsOf(passes, p), n)
    {
      SettledIsAccounted(w, p, passes, n);
    }
    NoneFailedIff(items, w.objs, p);
  }

  lemma HasProgramIff(items: seq<BpfObj>, objs: map<ObjName, BpfObj>, p: ProgName, d: NodeName)
    requires Lists(items, objs, p)
    ensures HasProgram(items, d) <==> exists n :: n in objs && objs[n].owner == p && objs[n].node == d
  {
    forall n | n in objs && objs[n].owner == p && objs[n].node == d ensures HasProgram(items, d) {
      assert objs[n] in items;
    }
    if HasProgram(items, d) {
      var i :| 0 <= i < |items| && items[i].node == d;
      assert items[i] in items;
    }
  }

  lemma NoneFailedIff(items: seq<BpfObj>, objs: map<ObjName, BpfObj>, p: ProgName)
    requires Lists(items, objs, p)
    ensures (forall o | o in items :: !IsConditionFailure(o.conds)) <==>
            (forall n | n in objs && objs[n].owner == p :: !IsConditionFailure(objs[n].conds))
  {
  }
}
