/**
 The other half of deletion: safety says the operator does not let go too early, this says that it lets go. Agents reach
 a *Program that is being deleted in any order and on any number of nodes, while anything else goes on around them.
 */
module ClusterProgress {
  import opened Wrappers
  import opened AgentModel
  import opened AgentWrites
  import opened AgentSafety
  import opened AgentConvergence
  import opened AgentFrame
  import opened OperatorModel
  import opened Cluster

  /** A pass on node `d` that reaches this *Program and in which every call for it succeeds, whatever else it lists. */
  ghost predicate Serves(w: World, step: Step, p: ProgName, d: NodeName) {
    && step.AgentPass? && step.node == d && d in w.nodes && !step.oracle.listFails && ViewOf(step.views, p).View?
    && Healthy(step.oracle, Existing(w.objs, d, p).Keys)
    && exists i: nat :: i < |step.names| && step.names[i] == p &&
         Reaches(StateOf(w, d), w.nodes[d].loaded, d, ProgsOf(w, step.names), step.views, step.oracle, 0, i)
  }

  /** How many steps of the run serve the *Program on node `d`. */
  ghost function Served(w: World, steps: seq<Step>, p: ProgName, d: NodeName): nat {
    if steps == [] then 0
    else
      var before := steps[..|steps| - 1];
      Served(w, before, p, d) + if Serves(Final(w, before), steps[|steps| - 1], p, d) then 1 else 0
  }

  /** The *Program is not live, so nothing is loaded for it any more. */
  ghost predicate NotLive(w: World, p: ProgName) {
    p in w.progs ==> w.progs[p].deleting
  }

  // ----- Every step -----

  lemma SameOnOtherNode(
    before: map<ObjName, BpfObj>, after: map<ObjName, BpfObj>, m: ObjName, node: NodeName, uid: Uid, d: NodeName)
    requires OnlyTouches(before, after, m, node, uid) && d != node
    ensures forall n | n in after && after[n].node == d :: n in before && before[n] == after[n]
  {
    forall n | n in after && after[n].node == d ensures n in before && before[n] == after[n] {
      if n != m {
        assert n in after - {m} && n in before - {m};
        assert after[n] == (after - {m})[n] == (before - {m})[n] == before[n];
      }
    }
  }

  lemma OtherPassEases(w: World, step: Step, p: ProgName, d: NodeName)
    requires ClusterInv(w) && step.AgentPass? && step.node in w.nodes && d in w.nodes && d != step.node
    ensures d in Take(w, step).nodes && Eases(StateOf(w, d), StateOf(Take(w, step), d), p, d)
  {
    var w' := Take(w, step);
    AtMostOneWritePerPass(StateOf(w, step.node), step.node, ProgsOf(w, step.names), step.views, step.oracle);
    var m :| OnlyTouches(w.objs, w'.objs, m, step.node, step.oracle.newUid);
    SameOnOtherNode(w.objs, w'.objs, m, step.node, step.oracle.newUid, d);
  }

  lemma OwnPassEases(w: World, step: Step, p: ProgName)
    requires ClusterInv(w) && step.AgentPass? && Allowed(w, step) && NotLive(w, p)
    ensures step.node in Take(w, step).nodes
    ensures Eases(StateOf(w, step.node), StateOf(Take(w, step), step.node), p, step.node)
  {
    var d, progs := step.node, ProgsOf(w, step.names);
    assert forall k | 0 <= k < |progs| :: progs[k].name == step.names[k] && step.names[k] in step.names;
    PassFollows(StateOf(w, d), d, progs, step.views, step.oracle, p);
  }

  /** No step of anybody sets back the deletion of a *Program on any node. */
  lemma StepEases(w: World, step: Step, p: ProgName, d: NodeName)
    requires ClusterInv(w) && Allowed(w, step) && NotLive(w, p) && d in w.nodes
    ensures d in Take(w, step).nodes && Eases(StateOf(w, d), StateOf(Take(w, step), d), p, d)
  {
    if !step.AgentPass? {
      OtherStep(w, step);
      ObjsEase(StateOf(w, d), StateOf(Take(w, step), d), p, d);
    } else if step.node == d {
      OwnPassEases(w, step, p);
    } else {
      OtherPassEases(w, step, p, d);
    }
  }

  /** Steps that no agent takes leave bpfman alone and at most mark or remove objects. */
  lemma OtherStep(w: World, step: Step)
    requires !step.AgentPass?
    ensures
      var w' := Take(w, step);
      w'.nodes == w.nodes && forall n | n in w'.objs :: n in w.objs && MarkOnly(w.objs[n], w'.objs[n])
  {
  }

  ghost predicate MarkOnly(before: BpfObj, after: BpfObj) {
    after == before.(terminating := after.terminating)
  }

  lemma ObjsEase(s: NodeState, t: NodeState, p: ProgName, d: NodeName)
    requires t.loaded == s.loaded && forall n | n in t.objs :: n in s.objs && MarkOnly(s.objs[n], t.objs[n])
    ensures Eases(s, t, p, d)
  {
  }

  lemma ServedAdvances(w: World, step: Step, p: ProgName, d: NodeName)
    requires ClusterInv(w) && Allowed(w, step) && Serves(w, step, p, d) && p in w.progs && w.progs[p].deleting
    ensures d in Take(w, step).nodes && Advances(StateOf(w, d), StateOf(Take(w, step), d), d, p)
  {
    var s, progs := StateOf(w, d), ProgsOf(w, step.names);
    var i: nat :| i < |step.names| && step.names[i] == p &&
      Reaches(s, w.nodes[d].loaded, d, progs, step.views, step.oracle, 0, i);
    PassAdvances(s, d, progs, step.views, step.oracle, i);
    SameDeletion(PassOf(w, d, step.names, step.views, step.oracle).s, StateOf(Take(w, step), d), d, p);
  }

  /** Deletion looks at nothing but objects and loaded programs. */
  lemma SameDeletion(s: NodeState, t: NodeState, d: NodeName, p: ProgName)
    requires s.objs == t.objs && s.loaded == t.loaded
    ensures (DoneAt(s, d, p) <==> DoneAt(t, d, p)) && Pending(s, d, p) == Pending(t, d, p)
  {
    EasesPending(s, t, d, p);
    EasesPending(t, s, d, p);
  }

  // ----- Runs -----

  /** Every BpfProgram lives on a node of the cluster. */
  ghost predicate NodesKnown(w: World) {
    forall n | n in w.objs :: w.objs[n].node in w.nodes
  }

  lemma NodesStayKnown(w: World, step: Step)
    requires ClusterInv(w) && NodesKnown(w) && Allowed(w, step)
    ensures NodesKnown(Take(w, step)) && Take(w, step).nodes.Keys == w.nodes.Keys
  {
    if step.AgentPass? {
      AtMostOneWritePerPass(StateOf(w, step.node), step.node, ProgsOf(w, step.names), step.views, step.oracle);
      TouchedKnown(w.objs, Take(w, step).objs, step.node, step.oracle.newUid, w.nodes.Keys);
    } else {
      OtherStep(w, step);
    }
  }

  lemma TouchedKnown(
    before: map<ObjName, BpfObj>, after: map<ObjName, BpfObj>, node: NodeName, uid: Uid, nodes: set<NodeName>)
    requires TouchesOne(before, after, node, uid) && node in nodes && forall n | n in before :: before[n].node in nodes
    ensures forall n | n in after :: after[n].node in nodes
  {
    var m :| OnlyTouches(before, after, m, node, uid);
    forall n | n in after ensures after[n].node in nodes {
      if n != m { assert n in after - {m} && n in before - {m}; }
    }
  }

  /** The *Program is being deleted and the operator has not let go. */
  ghost predicate Waiting(w: World, p: ProgName) {
    p in w.progs && w.progs[p].deleting && w.progs[p].opFinalizer
  }

  lemma StaysWaiting(w: World, step: Step, p: ProgName)
    requires Waiting(w, p) && !Drops(w, step, p)
    ensures Waiting(Take(w, step), p)
  {
  }

  /** The run is allowed, and the operator does not let go in it. */
  ghost predicate StillWaiting(w: World, steps: seq<Step>, p: ProgName) {
    && AllAllowed(w, steps)
    && forall k | 0 <= k < |steps| :: !Drops(Final(w, steps[..k]), steps[k], p)
  }

  lemma WaitingBefore(w: World, steps: seq<Step>, p: ProgName)
    requires steps != [] && StillWaiting(w, steps, p)
    ensures StillWaiting(w, steps[..|steps| - 1], p)
    ensures Allowed(Final(w, steps[..|steps| - 1]), steps[|steps| - 1])
    ensures !Drops(Final(w, steps[..|steps| - 1]), steps[|steps| - 1], p)
  {
    AllowedBefore(w, steps);
    NoDropBefore(before => Final(w, before), steps, p);
  }

  lemma NoDropBefore(final: seq<Step> -> World, steps: seq<Step>, p: ProgName)
    requires steps != [] && forall k | 0 <= k < |steps| :: !Drops(final(steps[..k]), steps[k], p)
    ensures
      var before := steps[..|steps| - 1];
      forall k | 0 <= k < |before| :: !Drops(final(before[..k]), before[k], p)
  {
    var before := steps[..|steps| - 1];
    forall k | 0 <= k < |before| ensures !Drops(final(before[..k]), before[k], p) { assert before[..k] == steps[..k]; }
  }

  /** Node `d` is done, or has come closer by what it was served. */
  ghost predicate CloserBy(w: World, w': World, p: ProgName, d: NodeName, served: nat)
    requires d in w.nodes && d in w'.nodes
  {
    DoneAt(StateOf(w', d), d, p) || served + Pending(StateOf(w', d), d, p) <= Pending(StateOf(w, d), d, p)
  }

  lemma StepCloser(w: World, w1: World, step: Step, p: ProgName, d: NodeName, served: nat)
    requires ClusterInv(w1) && Allowed(w1, step) && Waiting(w1, p) && d in w.nodes && d in w1.nodes
    requires CloserBy(w, w1, p, d, served)
    ensures d in Take(w1, step).nodes
    ensures CloserBy(w, Take(w1, step), p, d, served + if Serves(w1, step, p, d) then 1 else 0)
  {
    StepEases(w1, step, p, d);
    EasesPending(StateOf(w1, d), StateOf(Take(w1, step), d), d, p);
    if Serves(w1, step, p, d) { ServedAdvances(w1, step, p, d); }
  }

  /** After any run every node is done, or each service has brought it at least one write closer. */
  lemma {:induction false} RunCloser(w: World, steps: seq<Step>, p: ProgName)
    requires ClusterInv(w) && NodesKnown(w) && Waiting(w, p) && StillWaiting(w, steps, p)
    ensures
      var w' := Final(w, steps);
      && ClusterInv(w') && NodesKnown(w') && Waiting(w', p) && w'.nodes.Keys == w.nodes.Keys
      && forall d | d in w.nodes :: CloserBy(w, w', p, d, Served(w, steps, p, d))
  {
    if steps != [] {
      var before, step := steps[..|steps| - 1], steps[|steps| - 1];
      WaitingBefore(w, steps, p);
      RunCloser(w, before, p);
      var w1 := Final(w, before);
      StaysWaiting(w1, step, p);
      NodesStayKnown(w1, step);
      StepKeepsInv(w1, step);
      forall d | d in w.nodes ensures CloserBy(w, Take(w1, step), p, d, Served(w, steps, p, d)) {
        StepCloser(w, w1, step, p, d, Served(w, before, p, d));
      }
    }
  }

  /**
   Deletion progress: in any run of allowed steps (passes over any lists, with failures, users' and operator's steps,
   object deletions), once every node has been served more often than twice the number of the *Program's BpfPrograms
   there, the operator's next pass drops its finalizer, unless it did so before.
   */
  lemma DeletionFinishes(w: World, steps: seq<Step>, p: ProgName, items: seq<BpfObj>, nodeNames: seq<NodeName>)
    requires ClusterInv(w) && NodesKnown(w) && Waiting(w, p) && StillWaiting(w, steps, p)
    requires forall d | d in w.nodes :: Served(w, steps, p, d) > 2 * |Existing(w.objs, d, p)|
    requires Lists(items, Final(w, steps).objs, p)
    ensures p in Final(w, steps).progs && Decide(Final(w, steps).progs[p], items, nodeNames) == RemoveOpFinalizer
  {
    var w' := Final(w, steps);
    RunCloser(w, steps, p);
    forall i | 0 <= i < |items|
      ensures !items[i].finalizer
    {
      assert items[i] in items;
      var d := items[i].node;
      assert d in w'.nodes && d in w.nodes;
      PendingBound(StateOf(w, d), d, p);
      assert OwnedBy(w'.objs, p, items[i].name);
    }
  }
}
