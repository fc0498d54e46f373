/**
 Where the agent's code stops keeping its promise, and exactly when. The single iterations are characterised for all
 inputs. Further runs show what happens without the hypotheses of the safety theorems on failing calls, on finalizers
 and on kernel IDs.
 */
module AgentLimits {
  import opened Wrappers
  import opened AgentModel
  import opened AgentWrites
  import opened AgentSafety
  import opened AgentConvergence
  import opened OperatorModel
  import opened Cluster

  // ----- One iteration of handleProgDelete -----

  /** The unload is skipped or fails, yet the error is swallowed and the finalizer goes. */
  ghost predicate ForgetsLoaded(s: NodeState, o: BpfObj, f: Oracle) {
    o.uid in s.loaded && (o.name in f.badIds || o.name in f.unloadFails) && o.name !in f.writeFails
  }

  /** An object's own program cannot stay loaded once the object has lost its finalizer or is gone. */
  lemma BreaksInv(
    objs: map<ObjName, BpfObj>, after: map<ObjName, BpfObj>, loaded: map<Uid, LoadedProg>, n: ObjName, node: NodeName)
    requires WellFormed(objs) && n in objs && after - {n} == objs - {n}
    requires objs[n].uid in loaded && (n in after ==> !Backs(after[n], objs[n].uid, loaded[objs[n].uid], node))
    ensures !Inv(after, loaded, node)
  {
    var u := objs[n].uid;
    forall m | m in after
      ensures !Backs(after[m], u, loaded[u], node)
    {
      if m != n { assert m in after - {n} && m in objs - {n}; }
    }
  }

  /**
   handleProgDelete keeps the invariant for a BpfProgram if and only if it does not forget a loaded program: the
   program is not loaded, or its ID parses and the unload succeeds, or not even the finalizer write succeeds.
   */
  lemma DeleteOneExact(s: NodeState, listed: map<Uid, LoadedProg>, o: BpfObj, c: Ctx, f: Oracle)
    requires Inv(s.objs, s.loaded, c.node) && o.name in s.objs && s.objs[o.name] == o && o.node == c.node
    requires Ready(s, listed, f, {o.name})
    ensures var r := DeleteOne(s, listed, o, c, f);
            Inv(r.s.objs, r.s.loaded, c.node) <==> !ForgetsLoaded(s, o, f)
  {
    var r := DeleteOne(s, listed, o, c, f);
    assert SameEntry(listed, s.loaded, o.uid);
    if o.uid in s.loaded && (o.name in f.badIds || o.name in f.unloadFails) {
      assert Backed(s.objs, o.uid, s.loaded[o.uid], c.node);
      if o.name !in f.writeFails { BreaksInv(s.objs, r.s.objs, r.s.loaded, o.name, c.node); }
    } else {
      var g := f.(badIds := {}, unloadFails := {}, loads := map[]);
      assert DeleteOne(s, listed, o, c, g) == r;
      DeleteOneKeepsInv(s, listed, o, c, g);
    }
  }

  // ----- One iteration of handleProgCreateOrUpdate -----

  /**
   A failed unload comes back with a nil error, and the agent then records whatever ID its progId field still holds: the
   ID of the BpfProgram it handled before.
   */
  ghost predicate RecordsStaleId(s: NodeState, o: BpfObj, c: Ctx, f: Oracle) {
    && o.uid in s.loaded && o.name !in f.badIds && o.name in f.unloadFails && o.name !in f.writeFails
    && (ShouldBeLoaded(c, o, c.prog.deleting) ==> o.name !in f.requestFails && !RunsAsRequested(o, s.loaded, c))
    && s.progId.Some? && s.progId != o.id
  }

  /** What stands in the way of unloading a loaded program. */
  ghost predicate CannotUnload(s: NodeState, o: BpfObj, f: Oracle) {
    o.uid in s.loaded && (o.name in f.badIds || o.name in f.unloadFails)
  }

  /** This iteration loads the program. */
  ghost predicate Loads(s: NodeState, o: BpfObj, c: Ctx, f: Oracle) {
    && ShouldBeLoaded(c, o, c.prog.deleting) && !RunsAsRequested(o, s.loaded, c)
    && o.name !in f.requestFails && o.name in f.loads && !CannotUnload(s, o, f)
  }

  /** The ID of a program just loaded ends up in the annotation, or was there before. */
  ghost predicate IdRecorded(o: BpfObj, f: Oracle)
    requires o.name in f.loads
  {
    o.name in f.writeFails || o.name in f.badIds ==> o.id == Some(f.loads[o.name])
  }

  /** The ID annotation is rewritten after the reconcile `r`. */
  ghost predicate RewritesId(r: Reconciled, o: BpfObj, f: Oracle) {
    && r.Reconciled? && r.ok && !SkipsId(r.cond) && o.name !in f.badIds && o.name !in f.writeFails
    && r.s.progId.Some? && r.s.progId != o.id
  }

  /** After its reconcile an iteration leaves bpfman alone and writes at most the object's ID and conditions. */
  lemma TailEffect(r: Reconciled, o: BpfObj, f: Oracle)
    requires r.Reconciled? && o.name in r.s.objs && r.s.objs[o.name] == o
    ensures
      var t := AfterReconcile(r, o, f);
      && t.s.loaded == r.s.loaded && o.name in t.s.objs && t.s.objs == r.s.objs[o.name := t.s.objs[o.name]]
      && t.s.objs[o.name] == o.(id := t.s.objs[o.name].id, conds := t.s.objs[o.name].conds)
      && t.s.objs[o.name].id == if RewritesId(r, o, f) then r.s.progId else o.id
  {
    assert r.s.objs[o.name := o] == r.s.objs;
  }

  /** With the unload out of reach the reconcile leaves bpfman alone. */
  lemma CannotUnloadReconciles(s: NodeState, listed: map<Uid, LoadedProg>, o: BpfObj, c: Ctx, f: Oracle)
    requires SameEntry(listed, s.loaded, o.uid) && CannotUnload(s, o, f) && o.id == Some(s.loaded[o.uid].id)
    ensures
      var r := ReconcileBpf(s, listed, o, c, c.prog.deleting, f);
      && r.Reconciled? && r.s == s.(progId := r.s.progId)
      && (RewritesId(r, o, f) <==> RecordsStaleId(s, o, c, f))
  {
  }

  lemma CannotUnloadExact(s: NodeState, listed: map<Uid, LoadedProg>, o: BpfObj, c: Ctx, f: Oracle)
    requires Inv(s.objs, s.loaded, c.node) && o.name in s.objs && s.objs[o.name] == o && o.node == c.node
    requires Ready(s, listed, f, {o.name}) && CannotUnload(s, o, f)
    ensures var r := UpdateOne(s, listed, o, c, f);
            Inv(r.s.objs, r.s.loaded, c.node) <==> !RecordsStaleId(s, o, c, f)
  {
    var r := UpdateOne(s, listed, o, c, f);
    OwnBacking(s, o, c.node);
    CannotUnloadReconciles(s, listed, o, c, f);
    TailEffect(ReconcileBpf(s, listed, o, c, c.prog.deleting, f), o, f);
    if RecordsStaleId(s, o, c, f) {
      assert r.s.objs - {o.name} == s.objs - {o.name};
      BreaksInv(s.objs, r.s.objs, r.s.loaded, o.name, c.node);
    } else {
      PutKeepsInv(s, o, r.s.objs[o.name], s.loaded, c.node);
    }
  }

  lemma NoLoadReconciles(s: NodeState, listed: map<Uid, LoadedProg>, o: BpfObj, c: Ctx, f: Oracle)
    requires Inv(s.objs, s.loaded, c.node) && o.name in s.objs && s.objs[o.name] == o && o.node == c.node
    requires Ready(s, listed, f, {o.name}) && !CannotUnload(s, o, f) && !Loads(s, o, c, f)
    ensures
      var g := f.(loads := f.loads - {o.name}, unloadFails := {}, badIds := {});
      var r := ReconcileBpf(s, listed, o, c, c.prog.deleting, g);
      && ReconcileBpf(s, listed, o, c, c.prog.deleting, f) == r && Effect(s, r, o, c, c.prog.deleting, g)
  {
    var g := f.(loads := f.loads - {o.name}, unloadFails := {}, badIds := {});
    assert SameEntry(listed, s.loaded, o.uid);
    ReconcileEffect(s, listed, o, c, c.prog.deleting, g);
  }

  lemma NoLoadKeepsInv(s: NodeState, listed: map<Uid, LoadedProg>, o: BpfObj, c: Ctx, f: Oracle)
    requires Inv(s.objs, s.loaded, c.node) && o.name in s.objs && s.objs[o.name] == o && o.node == c.node
    requires Ready(s, listed, f, {o.name}) && !CannotUnload(s, o, f) && !Loads(s, o, c, f)
    ensures var r := UpdateOne(s, listed, o, c, f); Inv(r.s.objs, r.s.loaded, c.node)
  {
    var g := f.(loads := f.loads - {o.name}, unloadFails := {}, badIds := {});
    var r := ReconcileBpf(s, listed, o, c, c.prog.deleting, f);
    NoLoadReconciles(s, listed, o, c, f);
    if o.uid in s.loaded { OwnBacking(s, o, c.node); }
    UnrecordedSame(s, r, o, c, f);
    TailKeepsInv(r, o, c, f);
  }

  /** What is left of the iteration keeps the invariant if the ID of a loaded program is not touched. */
  lemma TailKeepsInv(r: Reconciled, o: BpfObj, c: Ctx, f: Oracle)
    requires r.Reconciled? && Inv(r.s.objs, r.s.loaded, c.node) && o.name in r.s.objs && r.s.objs[o.name] == o
    requires o.uid in r.s.loaded && r.ok ==> r.s.progId == Some(r.s.loaded[o.uid].id)
    ensures
      var t := AfterReconcile(r, o, f);
      Inv(t.s.objs, t.s.loaded, c.node)
  {
    var t := AfterReconcile(r, o, f);
    TailEffect(r, o, f);
    if o.uid in r.s.loaded { OwnBacking(r.s, o, c.node); }
    PutKeepsInv(r.s, o, t.s.objs[o.name], r.s.loaded, c.node);
  }

  /** When the annotation does not parse, the iteration ends without a write. */
  lemma UnrecordedSame(s: NodeState, r: Reconciled, o: BpfObj, c: Ctx, f: Oracle)
    requires Inv(s.objs, s.loaded, c.node) && r.Reconciled? && r.s.objs == s.objs
    requires SameExcept(s.loaded, r.s.loaded, o.uid) && IdsUnique(r.s.loaded)
    requires o.uid in r.s.loaded ==> SameEntry(s.loaded, r.s.loaded, o.uid)
    ensures Inv(r.s.objs, r.s.loaded, c.node)
  {
    forall u | u in r.s.loaded
      ensures Backed(r.s.objs, u, r.s.loaded[u], c.node)
    {
      assert SameEntry(s.loaded, r.s.loaded, u);
    }
  }

  lemma ReconcileLoads(s: NodeState, listed: map<Uid, LoadedProg>, o: BpfObj, c: Ctx, f: Oracle)
    requires Inv(s.objs, s.loaded, c.node) && o.name in s.objs && s.objs[o.name] == o && o.node == c.node
    requires Ready(s, listed, f, {o.name}) && Loads(s, o, c, f)
    ensures
      var r := ReconcileBpf(s, listed, o, c, c.prog.deleting, f);
      && r.Reconciled? && r.ok && r.cond == Loaded && r.s.objs == s.objs && r.s.progId == Some(f.loads[o.name])
      && o.uid in r.s.loaded && r.s.loaded[o.uid] == LoadedProg(f.loads[o.name], Listed(LoadRequest(c, o), f))
      && SameExcept(s.loaded, r.s.loaded, o.uid) && IdsUnique(r.s.loaded)
  {
    assert SameEntry(listed, s.loaded, o.uid);
    if o.uid in s.loaded { UnloadOwn(s, o, f, c.node); }
  }

  lemma LoadExact(s: NodeState, listed: map<Uid, LoadedProg>, o: BpfObj, c: Ctx, f: Oracle)
    requires Inv(s.objs, s.loaded, c.node) && o.name in s.objs && s.objs[o.name] == o && o.node == c.node
    requires Ready(s, listed, f, {o.name}) && Loads(s, o, c, f) && o.owner == c.prog.name
    ensures var r := UpdateOne(s, listed, o, c, f);
            Inv(r.s.objs, r.s.loaded, c.node) <==> o.finalizer && IdRecorded(o, f)
  {
    ReconcileLoads(s, listed, o, c, f);
    var t := ReconcileBpf(s, listed, o, c, c.prog.deleting, f).s;
    var r := UpdateOne(s, listed, o, c, f);
    TailEffect(ReconcileBpf(s, listed, o, c, c.prog.deleting, f), o, f);
    BackedBySame(s, t, o, c.node);
    if o.finalizer && IdRecorded(o, f) {
      PutKeepsInv(t, o, r.s.objs[o.name], t.loaded, c.node);
      assert r.s.objs == t.objs[o.name := r.s.objs[o.name]];
    } else {
      BreaksInv(s.objs, r.s.objs, r.s.loaded, o.name, c.node);
    }
  }

  /**
   handleProgCreateOrUpdate keeps the invariant for a BpfProgram of the *Program if and only if it does not record a
   stale ID after a failed unload and, whenever it loads the program, the object still has its finalizer and the new ID
   gets into the annotation.
   */
  lemma UpdateOneExact(s: NodeState, listed: map<Uid, LoadedProg>, o: BpfObj, c: Ctx, f: Oracle)
    requires Inv(s.objs, s.loaded, c.node) && o.name in s.objs && s.objs[o.name] == o && o.node == c.node
    requires Ready(s, listed, f, {o.name}) && o.owner == c.prog.name
    ensures var r := UpdateOne(s, listed, o, c, f);
            Inv(r.s.objs, r.s.loaded, c.node) <==>
            !RecordsStaleId(s, o, c, f) && (Loads(s, o, c, f) ==> o.finalizer && IdRecorded(o, f))
  {
    if CannotUnload(s, o, f) {
      CannotUnloadExact(s, listed, o, c, f);
    } else if Loads(s, o, c, f) {
      LoadExact(s, listed, o, c, f);
    } else {
      NoLoadKeepsInv(s, listed, o, c, f);
    }
  }

  // ----- Concrete runs that lose a program -----

  const SOME_SPEC := Spec("prog", Image("image"), NoCodes, "", "")
  const NO_OWNER := MapOwner(false, false, false, None)
  const QUIET := Oracle(false, ["o"], map[], {}, {}, {}, {}, "fresh", spec => spec)

  /** One node "d", one *Program "p", one BpfProgram "o" of it, possibly loaded as program 7. */
  function Example(deleting: bool, finalizer: bool, loaded: bool): World {
    var o := BpfObj("o", "u", "p", "d", "eth0", false, finalizer, false, Some(7), [Loaded]);
    var entry := LoadedProg(7, Request("p", SOME_SPEC, "u", "eth0", None));
    World(
      map["p" := ProgRecord(SOME_SPEC, deleting, true, [])],
      map["o" := o],
      map["d" := Local(if loaded then map["u" := entry] else map[], None)])
  }

  function ExampleView(expected: seq<Expected>): map<ProgName, View> {
    map["p" := View(true, NO_OWNER, Some(expected))]
  }

  lemma ExampleInv(deleting: bool, finalizer: bool, loaded: bool)
    requires loaded ==> finalizer
    ensures ClusterInv(Example(deleting, finalizer, loaded))
  {
    var w := Example(deleting, finalizer, loaded);
    if loaded { assert Backs(w.objs["o"], "u", w.nodes["d"].loaded["u"], "d"); }
  }

  /**
   A failing unload is reported as a condition with a nil error, so the agent still removes the finalizer; the operator
   then lets the *Program go while the node keeps running it.
   */
  lemma FailedUnloadOrphans()
    ensures
      var w := Example(true, true, true);
      var w1 := Take(w, AgentPass("d", ["p"], ExampleView([]), QUIET.(unloadFails := {"o"})));
      && ClusterInv(w)
      && "o" in w1.objs
      && Drops(w1, OperatorPass("p", [w1.objs["o"]], ["d"], false), "p")
      && "u" in Take(w1, OperatorPass("p", [w1.objs["o"]], ["d"], false)).nodes["d"].loaded
  {
    ExampleInv(true, true, true);
  }

  /** The example with a second BpfProgram "q" of the same *Program, loaded as 8 and handled first. */
  function TwoLoaded(): World {
    var w := Example(false, true, true);
    var q := BpfObj("q", "v", "p", "d", "eth1", false, true, false, Some(8), [Loaded]);
    var loaded := map[
      "u" := LoadedProg(7, Request("p", SOME_SPEC.(compared := "older"), "u", "eth0", None)),
      "v" := LoadedProg(8, Request("p", SOME_SPEC, "v", "eth1", None))];
    w.(objs := w.objs["q" := q], nodes := map["d" := Local(loaded, None)])
  }

  const MIX_EXPECTED := [Expected("q", "eth1", false), Expected("o", "eth0", false)]
  const MIX_PASS := QUIET.(unloadFails := {"o"}, loads := map["o" := 9])

  lemma TwoLoadedInv()
    ensures ClusterInv(TwoLoaded())
  {
    var w := TwoLoaded();
    var loaded := w.nodes["d"].loaded;
    assert Backs(w.objs["o"], "u", loaded["u"], "d");
    assert Backs(w.objs["q"], "v", loaded["v"], "d");
    assert IdsUnique(loaded);
  }

  /** The two visits of the pass: "q" is found as it should be and leaves its ID in progId, which "o" then receives. */
  lemma MixVisits()
    ensures
      var w := TwoLoaded();
      var s, c := StateOf(w, "d"), Ctx("d", ProgOf(w, "p"), true, NO_OWNER);
      var t := s.(progId := Some(8));
      && UpdateOne(s, s.loaded, w.objs["q"], c, MIX_PASS) == Next(t)
      && UpdateOne(t, s.loaded, w.objs["o"], c, MIX_PASS) == Exit(Put(t, w.objs["o"].(id := Some(8))), Updated)
  {
  }

  lemma MixPass()
    ensures
      var w := TwoLoaded();
      var s := StateOf(w, "d");
      PassOf(w, "d", ["p"], ExampleView(MIX_EXPECTED), MIX_PASS) ==
      Pass(Put(s.(progId := Some(8)), w.objs["o"].(id := Some(8))), Updated)
  {
    var w := TwoLoaded();
    var s, c := StateOf(w, "d"), Ctx("d", ProgOf(w, "p"), true, NO_OWNER);
    MixLoop();
    assert Existing(s.objs, "d", "p") == s.objs && ProgsOf(w, ["p"]) == [ProgOf(w, "p")];
    UpdatedPass(s, "d", ProgOf(w, "p"), ExampleView(MIX_EXPECTED), MIX_PASS);
  }

  /** A pass that updates something for its only *Program ends there. */
  lemma UpdatedPass(s: NodeState, node: NodeName, prog: ProgObj, views: map<ProgName, View>, f: Oracle)
    requires !prog.deleting && !f.listFails
    requires ViewOf(views, prog.name).View? && ViewOf(views, prog.name).expected.Some?
    ensures
      var v := ViewOf(views, prog.name);
      var c := CtxOf(node, prog, v);
      var p := UpdateFrom(s, s.loaded, Existing(s.objs, node, prog.name), v.expected.value, c, f, 0);
      p.outcome == Updated ==> ReconcileCommon(s, node, [prog], views, f) == p
  {
  }

  lemma MixLoop()
    ensures
      var w := TwoLoaded();
      var s, c := StateOf(w, "d"), Ctx("d", ProgOf(w, "p"), true, NO_OWNER);
      UpdateFrom(s, s.loaded, s.objs, MIX_EXPECTED, c, MIX_PASS, 0) ==
      Pass(Put(s.(progId := Some(8)), w.objs["o"].(id := Some(8))), Updated)
  {
    var w := TwoLoaded();
    var s, c := StateOf(w, "d"), Ctx("d", ProgOf(w, "p"), true, NO_OWNER);
    MixVisits();
    var rest, t := s.objs - {"q"}, s.(progId := Some(8));
    assert UpdateFrom(t, s.loaded, rest, MIX_EXPECTED, c, MIX_PASS, 1) ==
           Pass(Put(t, w.objs["o"].(id := Some(8))), Updated);
  }

  /**
   A failing unload makes the agent record another program's ID: "q" is fine, "o" runs an older spec and cannot be
   unloaded, and the pass writes q's ID into o's annotation. From then on unloading "o" would unload "q".
   */
  lemma FailedUnloadMixesIds()
    ensures
      var w1 := Take(TwoLoaded(), AgentPass("d", ["p"], ExampleView(MIX_EXPECTED), MIX_PASS));
      && ClusterInv(TwoLoaded()) && !ClusterInv(w1)
      && "o" in w1.objs && w1.objs["o"].id == Some(8)
      && "u" in w1.nodes["d"].loaded && w1.nodes["d"].loaded["u"].id == 7
  {
    TwoLoadedInv();
    MixTake();
    MixedBreaks();
  }

  /** The example after the pass. */
  function Mixed(): World {
    var w := TwoLoaded();
    w.(objs := w.objs["o" := w.objs["o"].(id := Some(8))], nodes := map["d" := Local(w.nodes["d"].loaded, Some(8))])
  }

  lemma MixTake()
    ensures Take(TwoLoaded(), AgentPass("d", ["p"], ExampleView(MIX_EXPECTED), MIX_PASS)) == Mixed()
  {
    MixPass();
  }

  lemma MixedBreaks()
    ensures !ClusterInv(Mixed())
  {
    var w := Mixed();
    TwoLoadedInv();
    assert w.objs - {"o"} == TwoLoaded().objs - {"o"};
    BreaksInv(TwoLoaded().objs, w.objs, w.nodes["d"].loaded, "o", "d");
  }

  /**
   A BpfProgram that lost its finalizer and then becomes expected again is loaded without one: the next deletion of the
   *Program by the operator leaves it running.
   */
  lemma ReexpectedObjectOrphans()
    ensures
      var w := Example(false, false, false);
      var views := ExampleView([Expected("o", "eth0", false)]);
      var w1 := Take(w, AgentPass("d", ["p"], views, QUIET.(loads := map["o" := 9])));
      var w2 := Take(w1, UserDelete("p"));
      && ClusterInv(w)
      && "o" in w2.objs
      && Drops(w2, OperatorPass("p", [w2.objs["o"]], ["d"], false), "p")
      && "u" in Take(w2, OperatorPass("p", [w2.objs["o"]], ["d"], false)).nodes["d"].loaded
  {
    ExampleInv(false, false, false);
  }

  /** An ID annotation that does not parse ends the same way as a failing unload. */
  lemma UnparsableIdOrphans()
    ensures
      var w := Example(true, true, true);
      var w1 := Take(w, AgentPass("d", ["p"], ExampleView([]), QUIET.(badIds := {"o"})));
      && ClusterInv(w)
      && "o" in w1.objs
      && Drops(w1, OperatorPass("p", [w1.objs["o"]], ["d"], false), "p")
      && "u" in Take(w1, OperatorPass("p", [w1.objs["o"]], ["d"], false)).nodes["d"].loaded
  {
    ExampleInv(true, true, true);
  }

  /** If the write that records a new ID fails, the program runs under an ID that no annotation names. */
  lemma FailedIdWriteForgetsId(s: NodeState, o: BpfObj, c: Ctx, f: Oracle)
    requires Inv(s.objs, s.loaded, c.node) && o.name in s.objs && s.objs[o.name] == o && o.node == c.node
    requires o.uid !in s.loaded && ShouldBeLoaded(c, o, c.prog.deleting) && o.owner == c.prog.name
    requires o.name in f.loads && o.name in f.writeFails && o.name !in f.badIds && o.name !in f.requestFails
    requires o.id != Some(f.loads[o.name]) && forall u | u in s.loaded :: f.loads[o.name] != s.loaded[u].id
    ensures
      var t := LoadProg(s, o, LoadRequest(c, o), f.loads[o.name], f);
      UpdateOne(s, s.loaded, o, c, f) == Exit(t, Requeue) && !Inv(t.objs, t.loaded, c.node)
  {
    var t := LoadProg(s, o, LoadRequest(c, o), f.loads[o.name], f);
    BreaksInv(s.objs, t.objs, t.loaded, o.name, c.node);
  }

  /** If the kernel could give out an ID in use, an annotation would name two programs. */
  lemma ReusedKernelIdBreaks(s: NodeState, o: BpfObj, c: Ctx, f: Oracle, u: Uid)
    requires Inv(s.objs, s.loaded, c.node) && o.name in s.objs && s.objs[o.name] == o && o.node == c.node
    requires o.uid !in s.loaded && ShouldBeLoaded(c, o, c.prog.deleting) && o.name !in f.requestFails
    requires u in s.loaded && o.name in f.loads && f.loads[o.name] == s.loaded[u].id
    ensures var r := UpdateOne(s, s.loaded, o, c, f); !Inv(r.s.objs, r.s.loaded, c.node)
  {
    var r := ReconcileBpf(s, s.loaded, o, c, c.prog.deleting, f);
    TailEffect(r, o, f);
    assert r.s.loaded[u].id == r.s.loaded[o.uid].id && u != o.uid;
  }
}
