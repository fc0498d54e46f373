/**
 Whether a loaded program can outlive its *Program: only if a user deletes the *Program before the operator has put its
 finalizer on it while agents already run it, and then it stays loaded until a *Program of that name exists again.
 */
module ClusterOrphans {
  import opened Wrappers
  import opened AgentModel
  import opened AgentWrites
  import opened AgentSafety
  import opened AgentConvergence
  import opened AgentFrame
  import opened OperatorModel
  import opened Cluster

  /** Every loaded program belongs to a *Program that exists. */
  ghost predicate NoOrphans(w: World) {
    forall d, u | d in w.nodes && u in w.nodes[d].loaded :: w.nodes[d].loaded[u].request.owner in w.progs
  }

  /** A user deletes a *Program that runs somewhere and does not have the operator's finalizer yet. */
  ghost predicate Leaks(w: World, step: Step) {
    && step.UserDelete? && step.prog in w.progs && !w.progs[step.prog].opFinalizer
    && !NotRunning(w, step.prog)
  }

  // ----- One pass -----

  /** The programs loaded for a *Program that is not in the list are the same after the pass. */
  lemma PassSpares(w: World, step: Step, u: Uid, q: ProgName)
    requires step.AgentPass? && ClusterInv(w) && Allowed(w, step) && q !in step.names
    ensures
      var a, b := w.nodes[step.node].loaded, Take(w, step).nodes[step.node].loaded;
      && (u in a && a[u].request.owner == q ==> u in b && b[u] == a[u])
      && (u in b && b[u].request.owner == q ==> u in a && a[u] == b[u])
  {
    var d, progs := step.node, ProgsOf(w, step.names);
    var s, t := StateOf(w, d), PassOf(w, d, step.names, step.views, step.oracle).s;
    assert forall k | 0 <= k < |progs| :: progs[k].name == step.names[k] && step.names[k] in step.names;
    PassFollows(s, d, progs, step.views, step.oracle, q);
    PassKeepsInv(s, d, progs, step.views, step.oracle);
    SparedPrograms(s, t, d, u, q);
  }

  lemma SparedPrograms(s: NodeState, t: NodeState, d: NodeName, u: Uid, q: ProgName)
    requires Inv(s.objs, s.loaded, d) && Inv(t.objs, t.loaded, d) && Spares(s, t, q)
    ensures u in s.loaded && s.loaded[u].request.owner == q ==> u in t.loaded && t.loaded[u] == s.loaded[u]
    ensures u in t.loaded && t.loaded[u].request.owner == q ==> u in s.loaded && s.loaded[u] == t.loaded[u]
  {
    if u in s.loaded && s.loaded[u].request.owner == q {
      var n :| n in s.objs && Backs(s.objs[n], u, s.loaded[u], d);
      assert OwnedBy(s.objs, q, n);
    }
    if u in t.loaded && t.loaded[u].request.owner == q {
      var n :| n in t.objs && Backs(t.objs[n], u, t.loaded[u], d);
      assert OwnedBy(t.objs, q, n) && OwnedBy(s.objs, q, n);
    }
  }

  // ----- Every step -----

  lemma PassKeepsOwners(w: World, step: Step)
    requires step.AgentPass? && ClusterInv(w) && Allowed(w, step) && NoOrphans(w)
    ensures NoOrphans(Take(w, step))
  {
    var w' := Take(w, step);
    forall d, u | d in w'.nodes && u in w'.nodes[d].loaded
      ensures w'.nodes[d].loaded[u].request.owner in w'.progs
    {
      var q := w'.nodes[d].loaded[u].request.owner;
      if d == step.node && q !in step.names { PassSpares(w, step, u, q); }
    }
  }

  /** Only dropping the operator's finalizer and an early deletion take a *Program away. */
  lemma ProgsStay(w: World, step: Step, q: ProgName)
    requires !step.AgentPass? && q in w.progs
    ensures Take(w, step).nodes == w.nodes
    ensures q in Take(w, step).progs <==>
            !Drops(w, step, q) && !(step.UserDelete? && step.prog == q && !w.progs[q].opFinalizer)
  {
  }

  /** The exact condition: a step leaves a loaded program without its *Program if and only if it is such a deletion. */
  lemma OrphanedExactly(w: World, step: Step)
    requires ClusterInv(w) && Allowed(w, step) && NoOrphans(w)
    ensures NoOrphans(Take(w, step)) <==> !Leaks(w, step)
  {
    if step.AgentPass? {
      PassKeepsOwners(w, step);
    } else {
      OtherStepOrphans(w, step);
    }
  }

  lemma OtherStepOrphans(w: World, step: Step)
    requires !step.AgentPass? && ClusterInv(w) && Allowed(w, step) && NoOrphans(w)
    ensures NoOrphans(Take(w, step)) <==> !Leaks(w, step)
  {
    var w' := Take(w, step);
    if Leaks(w, step) {
      ProgsStay(w, step, step.prog);
      var d, u :| d in w.nodes && u in w.nodes[d].loaded && w.nodes[d].loaded[u].request.owner == step.prog;
      assert w'.nodes[d].loaded[u].request.owner !in w'.progs;
    } else {
      forall d, u | d in w'.nodes && u in w'.nodes[d].loaded
        ensures w'.nodes[d].loaded[u].request.owner in w'.progs
      {
        OwnerStays(w, step, d, u);
      }
    }
  }

  lemma OwnerStays(w: World, step: Step, d: NodeName, u: Uid)
    requires !step.AgentPass? && ClusterInv(w) && Allowed(w, step) && NoOrphans(w) && !Leaks(w, step)
    requires d in Take(w, step).nodes && u in Take(w, step).nodes[d].loaded
    ensures Take(w, step).nodes[d].loaded[u].request.owner in Take(w, step).progs
  {
    assert Take(w, step).nodes == w.nodes;
    var q := w.nodes[d].loaded[u].request.owner;
    ProgsStay(w, step, q);
    if Drops(w, step, q) { DropMeans(w, step, q); }
  }

  // ----- Every run -----

  ghost predicate NeverLeaks(w: World, steps: seq<Step>) {
    forall k | 0 <= k < |steps| :: !Leaks(Final(w, steps[..k]), steps[k])
  }

  lemma NeverLeaksBefore(w: World, steps: seq<Step>)
    requires steps != [] && NeverLeaks(w, steps)
    ensures NeverLeaks(w, steps[..|steps| - 1]) && !Leaks(Final(w, steps[..|steps| - 1]), steps[|steps| - 1])
  {
    NoLeakBefore(before => Final(w, before), steps);
  }

  lemma NoLeakBefore(final: seq<Step> -> World, steps: seq<Step>)
    requires steps != [] && forall k | 0 <= k < |steps| :: !Leaks(final(steps[..k]), steps[k])
    ensures
      var before := steps[..|steps| - 1];
      forall k | 0 <= k < |before| :: !Leaks(final(before[..k]), before[k])
  {
    var before := steps[..|steps| - 1];
    forall k | 0 <= k < |before| ensures !Leaks(final(before[..k]), before[k]) { assert before[..k] == steps[..k]; }
  }

  /**
   After every run without such a deletion each program loaded on any node belongs to a *Program that exists, so the
   user can still get at it.
   */
  lemma {:induction false} NoOrphansOverRuns(w: World, steps: seq<Step>)
    requires Initial(w) && AllAllowed(w, steps) && NeverLeaks(w, steps)
    ensures NoOrphans(Final(w, steps))
  {
    if steps != [] {
      var before := steps[..|steps| - 1];
      AllowedBefore(w, steps);
      NeverLeaksBefore(w, steps);
      NoOrphansOverRuns(w, before);
      RunKeepsInv(w, before);
      OrphanedExactly(Final(w, before), steps[|steps| - 1]);
    }
  }

  // ----- An orphan stays -----

  /** Program `entry` is loaded on node `d`, and its *Program does not exist. */
  ghost predicate Orphan(w: World, d: NodeName, u: Uid, entry: LoadedProg) {
    d in w.nodes && u in w.nodes[d].loaded && w.nodes[d].loaded[u] == entry && entry.request.owner !in w.progs
  }

  lemma OrphanStays(w: World, step: Step, d: NodeName, u: Uid, entry: LoadedProg)
    requires ClusterInv(w) && Allowed(w, step) && Orphan(w, d, u, entry)
    requires !(step.UserCreate? && step.prog == entry.request.owner)
    ensures Orphan(Take(w, step), d, u, entry)
  {
    if step.AgentPass? {
      if step.node == d { PassSpares(w, step, u, entry.request.owner); }
    } else {
      NeverComesBack(w, step, entry.request.owner);
    }
  }

  /** Only a user creates a *Program. */
  lemma NeverComesBack(w: World, step: Step, q: ProgName)
    requires !step.AgentPass? && q !in w.progs && !(step.UserCreate? && step.prog == q)
    ensures q !in Take(w, step).progs && Take(w, step).nodes == w.nodes
  {
  }

  /** In every run in which no *Program of that name is created, an orphan stays loaded as it is. */
  lemma {:induction false} OrphanForEver(w: World, steps: seq<Step>, d: NodeName, u: Uid, entry: LoadedProg)
    requires ClusterInv(w) && AllAllowed(w, steps) && Orphan(w, d, u, entry)
    requires forall k | 0 <= k < |steps| :: !(steps[k].UserCreate? && steps[k].prog == entry.request.owner)
    ensures ClusterInv(Final(w, steps)) && Orphan(Final(w, steps), d, u, entry)
  {
    if steps != [] {
      var before := steps[..|steps| - 1];
      AllowedBefore(w, steps);
      OrphanForEver(w, before, d, u, entry);
      StepKeepsInv(Final(w, before), steps[|steps| - 1]);
      OrphanStays(Final(w, before), steps[|steps| - 1], d, u, entry);
    }
  }

  // ----- A run that leaks -----

  const SPEC := Spec("prog", Image("image"), NoCodes, "", "")
  const VIEWS := map["p" := View(true, MapOwner(false, false, false, None), Some([Expected("o", "eth0", false)]))]
  const ORACLE := Oracle(false, ["o"], map["o" := 7], {}, {}, {}, {}, "u", spec => spec)
  const CREATE := AgentPass("d", ["p"], VIEWS, ORACLE)
  const LOAD := AgentPass("d", ["p"], VIEWS, ORACLE.(newUid := "v"))

  /** The user creates a *Program, the node's agent creates and loads its BpfProgram, the user deletes the *Program. */
  const EARLY_DELETION := [UserCreate("p", SPEC), CREATE, LOAD, UserDelete("p")]

  function Stage(k: nat): World {
    var live := map["p" := ProgRecord(SPEC, false, false, [])];
    var o := BpfObj("o", "u", "p", "d", "eth0", false, true, false, None, []);
    var loaded := map["u" := LoadedProg(7, Request("p", SPEC, "u", "eth0", None))];
    if k == 0 then World(map[], map[], map["d" := Local(map[], None)])
    else if k == 1 then World(live, map[], map["d" := Local(map[], None)])
    else if k == 2 then World(live, map["o" := o], map["d" := Local(map[], None)])
    else World(if k == 3 then live else map[], map["o" := o.(id := Some(7))], map["d" := Local(loaded, Some(7))])
  }

  lemma CreateStage()
    ensures Allowed(Stage(1), CREATE) && Take(Stage(1), CREATE) == Stage(2)
  {
    var s, f := StateOf(Stage(1), "d"), ORACLE;
    var prog, v := ProgOf(Stage(1), "p"), VIEWS["p"];
    assert ProgsOf(Stage(1), ["p"]) == [prog];
    assert Existing(s.objs, "d", "p") == map[];
    var t := Create(s, Expected("o", "eth0", false), CtxOf("d", prog, v), f).s;
    assert ReconcileProgram(s, s.loaded, "d", prog, v, f) == Pass(t, Updated);
    assert ReconcileCommon(s, "d", [prog], VIEWS, f) == Pass(t, Updated);
  }

  lemma LoadAllowed()
    ensures Allowed(Stage(2), LOAD)
  {
    LoadViewsOk();
  }

  lemma LoadViewsOk()
    ensures ViewsOk(StateOf(Stage(2), "d"), "d", ProgsOf(Stage(2), ["p"]), VIEWS)
  {
    assert Existing(Stage(2).objs, "d", "p") == Stage(2).objs;
  }

  lemma LoadStage()
    ensures Take(Stage(2), LOAD) == Stage(3)
  {
    var s, f := StateOf(Stage(2), "d"), LOAD.oracle;
    var prog, v := ProgOf(Stage(2), "p"), VIEWS["p"];
    var c, o := CtxOf("d", prog, v), s.objs["o"];
    assert ProgsOf(Stage(2), ["p"]) == [prog];
    assert Existing(s.objs, "d", "p") == s.objs;
    var t := LoadProg(s, o, LoadRequest(c, o), 7, f);
    assert UpdateOne(s, s.loaded, o, c, f) == Exit(Put(t, o.(id := Some(7))), Updated);
    assert ReconcileProgram(s, s.loaded, "d", prog, v, f) == Pass(Put(t, o.(id := Some(7))), Updated);
    assert ReconcileCommon(s, "d", [prog], VIEWS, f) == Pass(Put(t, o.(id := Some(7))), Updated);
  }

  lemma NextStage(k: nat)
    requires k < 4
    ensures Allowed(Stage(k), EARLY_DELETION[k]) && Take(Stage(k), EARLY_DELETION[k]) == Stage(k + 1)
  {
    if k == 1 { CreateStage(); }
    if k == 2 {
      LoadAllowed();
      LoadStage();
    }
  }

  lemma {:induction false} Stages(k: nat)
    requires k <= 4
    ensures Final(Stage(0), EARLY_DELETION[..k]) == Stage(k)
  {
    if k > 0 {
      Stages(k - 1);
      NextStage(k - 1);
      assert EARLY_DELETION[..k][..k - 1] == EARLY_DELETION[..k - 1];
    }
  }

  /** From the empty cluster, with nothing failing, a *Program that is deleted early leaves its program loaded. */
  lemma EarlyDeletionLeaks()
    ensures Initial(Stage(0)) && AllAllowed(Stage(0), EARLY_DELETION)
    ensures Orphan(Final(Stage(0), EARLY_DELETION), "d", "u", LoadedProg(7, Request("p", SPEC, "u", "eth0", None)))
  {
    forall k | 0 <= k < 4 ensures Allowed(Final(Stage(0), EARLY_DELETION[..k]), EARLY_DELETION[k]) {
      Stages(k);
      NextStage(k);
    }
    Stages(4);
    assert EARLY_DELETION[..4] == EARLY_DELETION;
  }
}
