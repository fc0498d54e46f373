/**
 Exactly when convergence holds: a run of passes with succeeding calls settles if and only if every expected BpfProgram
 that should be loaded already runs as requested or has a spec that the agent recognises in bpfman's listing. A spec
 that it does not recognise is reloaded by every pass, for ever.
 */
module AgentChurn {
  import opened Wrappers
  import opened AgentModel
  import opened AgentWrites
  import opened AgentSafety
  import opened AgentConvergence
  import opened AgentFrame
  import opened Listing

  // ----- One visit -----

  /** A visit to a loaded BpfProgram that is stuck reloads it, records the new ID and leaves it stuck. */
  lemma VisitChurns(s: NodeState, listed: map<Uid, LoadedProg>, o: BpfObj, c: Ctx, f: Oracle)
    requires Inv(s.objs, s.loaded, c.node) && o.name in s.objs && s.objs[o.name] == o && o.node == c.node
    requires Healthy(f, {o.name}) && Ready(s, listed, f, {o.name}) && !c.prog.deleting
    requires o.uid in s.loaded && Stuck(o, s.loaded, c, f)
    ensures
      var r := UpdateOne(s, listed, o, c, f);
      && r.Exit? && r.outcome == Updated && r.s.objs == s.objs[o.name := o.(id := Some(f.loads[o.name]))]
      && o.uid in r.s.loaded && r.s.loaded[o.uid].id == f.loads[o.name] && Stuck(o, r.s.loaded, c, f)
  {
    ReconcileReaches(s, listed, o, c, f);
    ReachedRuns(s, ReconcileBpf(s, listed, o, c, false, f), o, c, f);
    OwnBacking(s, o, c.node);
    assert f.loads[o.name] != s.loaded[o.uid].id;
  }

  // ----- Runs that never settle -----

  /** The i-th expected BpfProgram of the j-th *Program is loaded, and stuck. */
  ghost predicate Churns(
    s: NodeState, node: NodeName, progs: seq<ProgObj>, views: map<ProgName, View>, f: Oracle, j: nat, i: nat)
  {
    && j < |progs| && i < |ExpectsAt(progs, views, j)| && !Echoes(f, progs[j].spec)
    && var c, e := CtxAt(node, progs, views, j), ExpectsAt(progs, views, j)[i];
       Misfit(s, c, e) && IsLoaded(s, c, e.name)
  }

  /** A pass over a list with such a *Program reports Updated and achieves nothing for it. */
  lemma PassChurns(
    s: NodeState, node: NodeName, progs: seq<ProgObj>, views: map<ProgName, View>, f: Oracle, j: nat, i: nat)
    requires DistinctNames(progs) && GoodViews(s, node, progs, views)
    requires Inv(s.objs, s.loaded, node) && PassOk(s, f) && Churns(s, node, progs, views, f, j, i)
    ensures
      var p := ReconcileCommon(s, node, progs, views, f);
      && p.outcome == Updated && Inv(p.s.objs, p.s.loaded, node) && GoodViews(p.s, node, progs, views)
      && Churns(p.s, node, progs, views, f, j, i)
  {
    PassProgress(s, node, progs, views, f);
    StillChurns(s, ReconcileCommon(s, node, progs, views, f), node, progs, views, f, j, i);
  }

  lemma StillChurns(
    s: NodeState, p: Pass, node: NodeName, progs: seq<ProgObj>, views: map<ProgName, View>, f: Oracle, j: nat, i: nat)
    requires Progressed(s, p, node, progs, views, f) && Churns(s, node, progs, views, f, j, i)
    ensures p.outcome == Updated && Churns(p.s, node, progs, views, f, j, i)
  {
    var c, expected := CtxAt(node, progs, views, j), ExpectsAt(progs, views, j);
    assert MisfitsKept(s, p.s, c, f, expected);
    assert MisfitKept(s, p.s, c, expected[i]);
    MisfitNotCalm(s, p.s, c, f, expected, i);
    assert p.outcome == Unchanged ==> ProgramCalm(p.s, s.loaded, c, f, Names(expected));
  }

  /** A loaded misfit leaves something to write. */
  lemma MisfitNotCalm(s: NodeState, t: NodeState, c: Ctx, f: Oracle, expected: seq<Expected>, i: nat)
    requires i < |expected| && Misfit(s, c, expected[i]) && IsLoaded(s, c, expected[i].name)
    requires MisfitKept(s, t, c, expected[i])
    ensures t.objs == s.objs ==> !ProgramCalm(t, s.loaded, c, f, Names(expected))
  {
    assert expected[i].name in Names(expected);
    assert !Settled(t.objs[expected[i].name], t.loaded, c);
  }

  /** The outcome of pass number k of a run. */
  ghost function OutcomeAt(
    s: NodeState, node: NodeName, progs: seq<ProgObj>, views: map<ProgName, View>, fs: seq<Oracle>, k: nat): Outcome
    requires k < |fs|
  {
    Nth(PassesOver(node, progs, views), s, fs, k).outcome
  }

  /** A BpfProgram that churns under one listing of the run churns under all of them. */
  lemma SameChurns(
    s: NodeState, node: NodeName, progs: seq<ProgObj>, views: map<ProgName, View>, fs: seq<Oracle>, f: Oracle,
    j: nat, i: nat)
    requires OneListing(progs, fs) && f in fs
    ensures Churns(s, node, progs, views, f, j, i) <==> Churns(s, node, progs, views, fs[0], j, i)
  {
    assert j < |progs| && !progs[j].deleting ==> (Echoes(f, progs[j].spec) <==> Echoes(fs[0], progs[j].spec));
  }

  lemma ChurnStep(
    s: NodeState, node: NodeName, progs: seq<ProgObj>, views: map<ProgName, View>, fs: seq<Oracle>, f: Oracle,
    j: nat, i: nat)
    requires GoodState(s, node, progs, views) && PassOk(s, f) && OneListing(progs, fs) && f in fs
    requires Churns(s, node, progs, views, fs[0], j, i)
    ensures
      var p := ReconcileCommon(s, node, progs, views, f);
      p.outcome == Updated && GoodState(p.s, node, progs, views) && Churns(p.s, node, progs, views, fs[0], j, i)
  {
    SameChurns(s, node, progs, views, fs, f, j, i);
    PassChurns(s, node, progs, views, f, j, i);
    SameChurns(ReconcileCommon(s, node, progs, views, f).s, node, progs, views, fs, f, j, i);
  }

  /** Once a BpfProgram that does not echo is loaded, no pass ever reports Unchanged, however long the run. */
  lemma NeverSettles(
    s: NodeState, node: NodeName, progs: seq<ProgObj>, views: map<ProgName, View>, fs: seq<Oracle>,
    j: nat, i: nat, k: nat)
    requires GoodState(s, node, progs, views) && AllPassesOk(s, node, progs, views, fs) && OneListing(progs, fs)
    requires k < |fs| && Churns(s, node, progs, views, fs[0], j, i)
    ensures OutcomeAt(s, node, progs, views, fs, k) == Updated
  {
    var inv := (t: NodeState) => GoodState(t, node, progs, views) && Churns(t, node, progs, views, fs[0], j, i);
    forall t, f | inv(t) && SUCCEEDS(t, f) && f in fs
      ensures inv(PassesOver(node, progs, views)(t, f).s)
    {
      ChurnStep(t, node, progs, views, fs, f, j, i);
    }
    var t := KeptAlong(PassesOver(node, progs, views), SUCCEEDS, inv, s, fs, k);
    ChurnStep(t, node, progs, views, fs, fs[k], j, i);
  }

  // ----- Who waits behind it -----

  /** A pass ends at the latest with a *Program that churns. */
  lemma PassEndsThere(
    s: NodeState, node: NodeName, progs: seq<ProgObj>, views: map<ProgName, View>, f: Oracle, j: nat, i: nat,
    q: ProgName)
    requires j < |progs| && DistinctNames(progs[..j + 1]) && GoodViews(s, node, progs[..j + 1], views)
    requires Inv(s.objs, s.loaded, node) && PassOk(s, f) && Churns(s, node, progs[..j + 1], views, f, j, i)
    requires forall k | 0 <= k <= j :: progs[k].name != q
    ensures
      var p := ReconcileCommon(s, node, progs, views, f);
      && p == ReconcileCommon(s, node, progs[..j + 1], views, f) && p.outcome == Updated && Spares(s, p.s, q)
  {
    PassChurns(s, node, progs[..j + 1], views, f, j, i);
    FrontDecides(s, s.loaded, node, progs, j + 1, views, f, 0, false);
    FrontSpares(s, node, progs[..j + 1], views, f, q);
  }

  lemma FrontSpares(
    s: NodeState, node: NodeName, progs: seq<ProgObj>, views: map<ProgName, View>, f: Oracle, q: ProgName)
    requires GoodState(s, node, progs, views) && PassOk(s, f) && forall k | 0 <= k < |progs| :: progs[k].name != q
    ensures Spares(s, ReconcileCommon(s, node, progs, views, f).s, q)
  {
    FrontViewsOk(s, node, progs, views);
    PassFollows(s, node, progs, views, f, q);
  }

  lemma FrontViewsOk(s: NodeState, node: NodeName, progs: seq<ProgObj>, views: map<ProgName, View>)
    requires GoodViews(s, node, progs, views)
    ensures ViewsOk(s, node, progs, views)
  {
    forall k | 0 <= k < |progs| ensures GoodView(s, node, progs[k], ViewOf(views, progs[k].name)) { }
  }

  /**
   Starvation: while a *Program churns, no *Program behind it in the list is looked at. However many passes there are,
   and although every call succeeds, its BpfPrograms and their programs stay as they are, also if it is to be deleted.
   */
  lemma ChurnStarves(
    s: NodeState, node: NodeName, progs: seq<ProgObj>, views: map<ProgName, View>, fs: seq<Oracle>,
    j: nat, i: nat, q: ProgName, k: nat)
    requires j < |progs| && GoodState(s, node, progs[..j + 1], views) && AllPassesOk(s, node, progs, views, fs)
    requires OneListing(progs[..j + 1], fs) && k < |fs| && Churns(s, node, progs[..j + 1], views, fs[0], j, i)
    requires forall m | 0 <= m <= j :: progs[m].name != q
    ensures Spares(s, Nth(PassesOver(node, progs, views), s, fs, k).s, q)
  {
    var front := progs[..j + 1];
    var inv := (t: NodeState) =>
      GoodState(t, node, front, views) && Churns(t, node, front, views, fs[0], j, i) && Spares(s, t, q);
    forall t, f | inv(t) && SUCCEEDS(t, f) && f in fs
      ensures inv(PassesOver(node, progs, views)(t, f).s)
    {
      StarveStep(s, t, node, progs, views, fs, f, j, i, q);
    }
    var t := KeptAlong(PassesOver(node, progs, views), SUCCEEDS, inv, s, fs, k);
    StarveStep(s, t, node, progs, views, fs, fs[k], j, i, q);
  }

  lemma StarveStep(
    s: NodeState, t: NodeState, node: NodeName, progs: seq<ProgObj>, views: map<ProgName, View>, fs: seq<Oracle>,
    f: Oracle, j: nat, i: nat, q: ProgName)
    requires j < |progs| && GoodState(t, node, progs[..j + 1], views) && PassOk(t, f) && f in fs
    requires OneListing(progs[..j + 1], fs) && Churns(t, node, progs[..j + 1], views, fs[0], j, i)
    requires (forall m | 0 <= m <= j :: progs[m].name != q) && Spares(s, t, q)
    ensures
      var u := ReconcileCommon(t, node, progs, views, f).s;
      && GoodState(u, node, progs[..j + 1], views) && Churns(u, node, progs[..j + 1], views, fs[0], j, i)
      && Spares(s, u, q)
  {
    var front := progs[..j + 1];
    SameChurns(t, node, front, views, fs, f, j, i);
    PassEndsThere(t, node, progs, views, f, j, i, q);
    ChurnStep(t, node, front, views, fs, f, j, i);
    SparesTrans(s, t, ReconcileCommon(t, node, progs, views, f).s, q);
  }

  // ----- The exact condition on a run -----

  lemma UnfitStep(
    s: NodeState, node: NodeName, progs: seq<ProgObj>, views: map<ProgName, View>, fs: seq<Oracle>, f: Oracle)
    requires GoodState(s, node, progs, views) && PassOk(s, f) && OneListing(progs, fs) && f in fs
    ensures
      var p := ReconcileCommon(s, node, progs, views, f);
      && GoodState(p.s, node, progs, views)
      && (AllFit(p.s, node, progs, views, fs[0]) <==> AllFit(s, node, progs, views, fs[0]))
  {
    PassProgress(s, node, progs, views, f);
    SameListing(s, node, progs, views, fs, f);
    SameListing(ReconcileCommon(s, node, progs, views, f).s, node, progs, views, fs, f);
  }

  /** A run that settles started without misfits that loading cannot help. */
  lemma SettlesOnlyIfFit(
    s: NodeState, node: NodeName, progs: seq<ProgObj>, views: map<ProgName, View>, fs: seq<Oracle>, k: nat)
    requires GoodState(s, node, progs, views) && AllPassesOk(s, node, progs, views, fs) && OneListing(progs, fs)
    requires k < |fs| && SettlesAt(s, node, progs, views, fs, k)
    ensures AllFit(s, node, progs, views, fs[0])
  {
    if !AllFit(s, node, progs, views, fs[0]) {
      var inv := (t: NodeState) => GoodState(t, node, progs, views) && !AllFit(t, node, progs, views, fs[0]);
      forall t, f | inv(t) && SUCCEEDS(t, f) && f in fs
        ensures inv(PassesOver(node, progs, views)(t, f).s)
      {
        UnfitStep(t, node, progs, views, fs, f);
      }
      var t := KeptAlong(PassesOver(node, progs, views), SUCCEEDS, inv, s, fs, k);
      UnfitStep(t, node, progs, views, fs, fs[k]);
      SettledFits(PassesOver(node, progs, views)(t, fs[k]).s, node, progs, views, fs[0]);
    }
  }

  ghost predicate Settles(
    s: NodeState, node: NodeName, progs: seq<ProgObj>, views: map<ProgName, View>, fs: seq<Oracle>)
  {
    exists k: nat :: k < |fs| && SettlesAt(s, node, progs, views, fs, k)
  }

  /**
   The exact condition: a long enough run of passes in which every call succeeds settles if and only if every expected
   BpfProgram that should be loaded echoes or already runs as requested.
   */
  lemma SettlesExactly(
    s: NodeState, node: NodeName, progs: seq<ProgObj>, views: map<ProgName, View>, fs: seq<Oracle>)
    requires GoodState(s, node, progs, views)
    requires AllPassesOk(s, node, progs, views, fs) && OneListing(progs, fs)
    requires Distance(s, node, progs, views) < |fs|
    ensures Settles(s, node, progs, views, fs) <==> AllFit(s, node, progs, views, fs[0])
  {
    if Settles(s, node, progs, views, fs) {
      var k: nat :| k < |fs| && SettlesAt(s, node, progs, views, fs, k);
      SettlesOnlyIfFit(s, node, progs, views, fs, k);
    }
    if AllFit(s, node, progs, views, fs[0]) {
      var k := Converges(s, node, progs, views, fs);
    }
  }

  /** The kernel gives no BpfProgram the ID that its annotation has already. */
  ghost predicate IdsNew(s: NodeState, f: Oracle) {
    forall n | n in s.objs && n in f.loads :: s.objs[n].id != Some(f.loads[n])
  }

  ghost const GETS_NEW_IDS: (NodeState, Oracle) -> bool := (s, f) => PassOk(s, f) && IdsNew(s, f)

  /** Every call of every pass succeeds, and the IDs are new. */
  ghost predicate AllIdsNew(
    s: NodeState, node: NodeName, progs: seq<ProgObj>, views: map<ProgName, View>, fs: seq<Oracle>)
  {
    Along(PassesOver(node, progs, views), GETS_NEW_IDS, s, fs)
  }

  lemma {:induction false} AlongWeaker(
    pass: (NodeState, Oracle) -> Pass, ok: (NodeState, Oracle) -> bool, less: (NodeState, Oracle) -> bool,
    s: NodeState, fs: seq<Oracle>)
    requires Along(pass, ok, s, fs) && forall t, f | ok(t, f) :: less(t, f)
    ensures Along(pass, less, s, fs)
    decreases |fs|
  {
    if fs != [] { AlongWeaker(pass, ok, less, pass(s, fs[0]).s, fs[1..]); }
  }

  /** An Unchanged pass then finds everything settled, whatever the specs. */
  lemma UnchangedIsSettled(
    s: NodeState, node: NodeName, progs: seq<ProgObj>, views: map<ProgName, View>, f: Oracle)
    requires DistinctNames(progs) && GoodViews(s, node, progs, views)
    requires Inv(s.objs, s.loaded, node) && PassOk(s, f) && IdsNew(s, f)
    ensures
      var p := ReconcileCommon(s, node, progs, views, f);
      p.outcome == Unchanged ==> AllSettled(p.s, node, progs, views, |progs|)
  {
    PassProgress(s, node, progs, views, f);
    NewIdsSettle(s, ReconcileCommon(s, node, progs, views, f), node, progs, views, f);
  }

  lemma NewIdsSettle(
    s: NodeState, p: Pass, node: NodeName, progs: seq<ProgObj>, views: map<ProgName, View>, f: Oracle)
    requires Progressed(s, p, node, progs, views, f) && IdsNew(s, f)
    ensures p.outcome == Unchanged ==> AllSettled(p.s, node, progs, views, |progs|)
  {
    if p.outcome == Unchanged {
      forall k, n | 0 <= k < |progs| && !progs[k].deleting && n in WantAt(progs, views, k) && n in p.s.objs
        ensures !Coincides(p.s.objs[n], s.loaded, p.s.loaded, CtxAt(node, progs, views, k), f)
      {
        assert p.s.objs[n].name == n;
      }
      CalmIsSettled(p.s, s.loaded, node, progs, views, f);
    }
  }

  lemma UnchangedSettles(
    s: NodeState, node: NodeName, progs: seq<ProgObj>, views: map<ProgName, View>, fs: seq<Oracle>, k: nat)
    requires GoodState(s, node, progs, views) && AllIdsNew(s, node, progs, views, fs) && k < |fs|
    ensures OutcomeAt(s, node, progs, views, fs, k) == Unchanged <==> SettlesAt(s, node, progs, views, fs, k)
  {
    var inv := (t: NodeState) => GoodState(t, node, progs, views);
    forall t, f | inv(t) && GETS_NEW_IDS(t, f) && f in fs
      ensures inv(PassesOver(node, progs, views)(t, f).s)
    {
      PassProgress(t, node, progs, views, f);
    }
    var t := KeptAlong(PassesOver(node, progs, views), GETS_NEW_IDS, inv, s, fs, k);
    UnchangedIsSettled(t, node, progs, views, fs[k]);
  }

  ghost predicate ReachesUnchanged(
    s: NodeState, node: NodeName, progs: seq<ProgObj>, views: map<ProgName, View>, fs: seq<Oracle>)
  {
    exists k: nat :: k < |fs| && OutcomeAt(s, node, progs, views, fs, k) == Unchanged
  }

  /**
   The same condition read off the outcomes: such a run reaches an Unchanged pass if and only if every expected
   BpfProgram that should be loaded echoes or already runs as requested.
   */
  lemma UnchangedExactly(
    s: NodeState, node: NodeName, progs: seq<ProgObj>, views: map<ProgName, View>, fs: seq<Oracle>)
    requires GoodState(s, node, progs, views)
    requires AllIdsNew(s, node, progs, views, fs) && OneListing(progs, fs)
    requires Distance(s, node, progs, views) < |fs|
    ensures ReachesUnchanged(s, node, progs, views, fs) <==> AllFit(s, node, progs, views, fs[0])
  {
    AlongWeaker(PassesOver(node, progs, views), GETS_NEW_IDS, SUCCEEDS, s, fs);
    SettlesExactly(s, node, progs, views, fs);
    if Settles(s, node, progs, views, fs) {
      var k: nat :| k < |fs| && SettlesAt(s, node, progs, views, fs, k);
      UnchangedSettles(s, node, progs, views, fs, k);
    }
    if ReachesUnchanged(s, node, progs, views, fs) {
      var k: nat :| k < |fs| && OutcomeAt(s, node, progs, views, fs, k) == Unchanged;
      UnchangedSettles(s, node, progs, views, fs, k);
    }
  }

  // ----- The exact condition on a spec -----

  /** bpfman lists a spec the way it stores and reads it. */
  ghost predicate ListsAsStored(f: Oracle, images: string -> string) {
    forall spec :: f.lists(spec) == ListedSpec(spec, images)
  }

  /** Codes as the agent computes them: known to bpfman, and no more than the API admits. */
  ghost predicate ApiCodes(c: Codes) {
    && (!c.NoCodes? ==> |c.codes| <= 11)
    && (c.TcCodes? ==> forall i | 0 <= i < |c.codes| :: TcP.FromInt(c.codes[i]).Some?)
    && (c.XdpCodes? ==> forall i | 0 <= i < |c.codes| :: XdpP.FromInt(c.codes[i]).Some?)
  }

  /**
   What a user can check: the function name is given unless the bytecode is a file or an image without a name, and
   a proceed-on list, if there is one, is not empty and, should it have eleven entries, repeats the third to the end.
   */
  ghost predicate Recognisable(spec: Spec, images: string -> string) {
    && (spec.name == "" && spec.bytecode.Image? ==> images(spec.bytecode.source) == "")
    && (spec.proceedOn.NoCodes? ||
        (spec.proceedOn.codes != [] && (|spec.proceedOn.codes| == 11 ==> TailUniform(spec.proceedOn.codes))))
  }

  /** The exact condition on a spec under which the agent recognises it in what bpfman lists. */
  lemma EchoesExactly(f: Oracle, spec: Spec, images: string -> string)
    requires ListsAsStored(f, images) && ApiCodes(spec.proceedOn)
    ensures Echoes(f, spec) <==> Recognisable(spec, images)
  {
    ListedExact(spec.proceedOn);
  }

  // ----- Runs that go on for ever -----

  const ONE_VIEW := View(true, MapOwner(false, false, false, None), Some([Expected("o", "eth0", false)]))
  const VIEWS := map["p" := ONE_VIEW]

  function Progs(spec: Spec): seq<ProgObj> {
    [ProgObj("p", spec, false)]
  }

  /** Node "d" with the one BpfProgram "o" of *Program "p", loaded as program `id` and listed with the given spec. */
  function OneLoaded(listed: Spec, id: nat, progId: Option<nat>, writes: nat): NodeState {
    var o := BpfObj("o", "u", "p", "d", "eth0", false, true, false, Some(id), [Loaded]);
    NodeState(map["o" := o], map["u" := LoadedProg(id, Request("p", listed, "u", "eth0", None))], progId, writes)
  }

  /** A pass in which every call succeeds; the kernel's next ID is `id`. */
  function NextPass(lists: Spec -> Spec, id: nat): Oracle {
    Oracle(false, ["o"], map["o" := id], {}, {}, {}, {}, "fresh", lists)
  }

  function Passes(lists: Spec -> Spec, id: nat, m: nat): (fs: seq<Oracle>)
    ensures |fs| == m && forall k | 0 <= k < m :: fs[k] == NextPass(lists, id + 1 + k)
  {
    seq(m, k requires 0 <= k < m => NextPass(lists, id + 1 + k))
  }

  lemma OneLoadedInv(listed: Spec, id: nat, progId: Option<nat>, writes: nat, lists: Spec -> Spec)
    ensures
      var s := OneLoaded(listed, id, progId, writes);
      Inv(s.objs, s.loaded, "d") && PassOk(s, NextPass(lists, id + 1))
  {
    var s := OneLoaded(listed, id, progId, writes);
    assert Backs(s.objs["o"], "u", s.loaded["u"], "d");
  }

  lemma OneLoadedChurns(spec: Spec, lists: Spec -> Spec, id: nat, progId: Option<nat>, writes: nat)
    requires !SameSpec(lists(spec), spec)
    ensures
      var s := OneLoaded(lists(spec), id, progId, writes);
      GoodViews(s, "d", Progs(spec), VIEWS) && Churns(s, "d", Progs(spec), VIEWS, NextPass(lists, id + 1), 0, 0)
  {
    var s, c := OneLoaded(lists(spec), id, progId, writes), CtxAt("d", Progs(spec), VIEWS, 0);
    assert GoodView(s, "d", Progs(spec)[0], ONE_VIEW);
    assert ExpectsAt(Progs(spec), VIEWS, 0) == [Expected("o", "eth0", false)];
    assert Misfit(s, c, Expected("o", "eth0", false));
  }

  /** One pass only gives the program another ID. */
  lemma OneStep(spec: Spec, lists: Spec -> Spec, id: nat, progId: Option<nat>, writes: nat)
    requires !SameSpec(lists(spec), spec)
    ensures
      ReconcileCommon(OneLoaded(lists(spec), id, progId, writes), "d", Progs(spec), VIEWS, NextPass(lists, id + 1)) ==
      Pass(OneLoaded(lists(spec), id + 1, Some(id + 1), writes + 1), Updated)
  {
    var s, f := OneLoaded(lists(spec), id, progId, writes), NextPass(lists, id + 1);
    var c := CtxAt("d", Progs(spec), VIEWS, 0);
    var o, t := s.objs["o"], OneLoaded(lists(spec), id + 1, Some(id + 1), writes + 1);
    assert UnloadProg(s, o, id, f).s.loaded == map[];
    assert ReconcileBpf(s, s.loaded, o, c, false, f).s.loaded == t.loaded;
    assert UpdateOne(s, s.loaded, o, c, f) == Exit(t, Updated);
    assert Existing(s.objs, "d", "p") == s.objs;
    assert UpdateFrom(s, s.loaded, s.objs, ONE_VIEW.expected.value, c, f, 0) == Pass(t, Updated);
    assert ReconcileProgram(s, s.loaded, "d", Progs(spec)[0], ONE_VIEW, f) == Pass(t, Updated);
  }

  lemma {:induction false} PassesHealthy(
    spec: Spec, lists: Spec -> Spec, id: nat, progId: Option<nat>, writes: nat, m: nat)
    requires !SameSpec(lists(spec), spec)
    ensures AllPassesOk(OneLoaded(lists(spec), id, progId, writes), "d", Progs(spec), VIEWS, Passes(lists, id, m))
    decreases m
  {
    if m > 0 {
      OneLoadedInv(lists(spec), id, progId, writes, lists);
      OneStep(spec, lists, id, progId, writes);
      PassesHealthy(spec, lists, id + 1, Some(id + 1), writes + 1, m - 1);
      assert Passes(lists, id, m)[1..] == Passes(lists, id + 1, m - 1);
    }
  }

  /** Any spec that is not listed as requested has a run of any length in which nothing fails and nothing settles. */
  lemma UnlistedNeverSettles(spec: Spec, lists: Spec -> Spec, id: nat, m: nat, k: nat)
    requires !SameSpec(lists(spec), spec) && k < m
    ensures OutcomeAt(OneLoaded(lists(spec), id, Some(id), 0), "d", Progs(spec), VIEWS, Passes(lists, id, m), k) ==
            Updated
  {
    OneLoadedInv(lists(spec), id, Some(id), 0, lists);
    OneLoadedChurns(spec, lists, id, Some(id), 0);
    PassesHealthy(spec, lists, id, Some(id), 0, m);
    NeverSettles(OneLoaded(lists(spec), id, Some(id), 0), "d", Progs(spec), VIEWS, Passes(lists, id, m), 0, 0, k);
  }

  function AsStored(images: string -> string): Spec -> Spec {
    spec => ListedSpec(spec, images)
  }

  /** Every spec that fails the condition churns for ever once it is loaded. */
  lemma UnrecognisableNeverSettles(spec: Spec, images: string -> string, id: nat, m: nat, k: nat)
    requires ApiCodes(spec.proceedOn) && !Recognisable(spec, images) && k < m
    ensures OutcomeAt(OneLoaded(ListedSpec(spec, images), id, Some(id), 0), "d", Progs(spec), VIEWS,
                      Passes(AsStored(images), id, m), k) == Updated
  {
    EchoesExactly(NextPass(AsStored(images), 0), spec, images);
    UnlistedNeverSettles(spec, AsStored(images), id, m, k);
  }

  /**
   A legal *Program that never settles: with all eleven TC actions in its proceed-on list every pass unloads and
   reloads it and reports Updated, in runs of any length in which every call succeeds.
   */
  lemma ElevenActionsNeverSettle(spec: Spec, images: string -> string, id: nat, m: nat, k: nat)
    requires spec.proceedOn == TcCodes(ALL_TC) && k < m
    ensures OutcomeAt(OneLoaded(ListedSpec(spec, images), id, Some(id), 0), "d", Progs(spec), VIEWS,
                      Passes(AsStored(images), id, m), k) == Updated
  {
    assert ALL_TC[3] != ALL_TC[2];
    UnrecognisableNeverSettles(spec, images, id, m, k);
  }

  /** Another one: no function name, and bytecode from an image that has one. */
  lemma EmptyNameNeverSettles(spec: Spec, images: string -> string, id: nat, m: nat, k: nat)
    requires spec.name == "" && spec.bytecode.Image? && images(spec.bytecode.source) != "" && k < m
    ensures OutcomeAt(OneLoaded(ListedSpec(spec, images), id, Some(id), 0), "d", Progs(spec), VIEWS,
                      Passes(AsStored(images), id, m), k) == Updated
  {
    UnlistedNeverSettles(spec, AsStored(images), id, m, k);
  }

  /**
   Why outcomes tell only if IDs are new: bpfman lost the program, as in a reboot, and the kernel gives it the ID that
   the annotation still has. The pass loads it and reports Unchanged, although it will be reloaded by every later one.
   */
  lemma OldIdHidesReload(spec: Spec, lists: Spec -> Spec, id: nat)
    requires !SameSpec(lists(spec), spec)
    ensures
      var s := OneLoaded(lists(spec), id, None, 0);
      ReconcileCommon(s.(loaded := map[]), "d", Progs(spec), VIEWS, NextPass(lists, id)) ==
      Pass(s.(progId := Some(id)), Unchanged)
  {
    var s, f := OneLoaded(lists(spec), id, None, 0), NextPass(lists, id);
    var s', c := s.(loaded := map[]), CtxAt("d", Progs(spec), VIEWS, 0);
    var o, t, q := s.objs["o"], s.(progId := Some(id)), ProgObj("p", spec, false);
    assert ReconcileBpf(s', map[], o, c, false, f).s.loaded == s.loaded;
    assert UpdateOne(s', map[], o, c, f) == Next(t);
    assert Existing(s'.objs, "d", "p") == s'.objs && s'.objs - {"o"} == map[];
    assert UpdateFrom(t, map[], map[], ONE_VIEW.expected.value, c, f, 1) == Pass(t, Unchanged);
    assert ReconcileProgram(s', map[], "d", q, ONE_VIEW, f) == Pass(t, Unchanged);
    assert ReconcileFrom(t, map[], "d", Progs(spec), VIEWS, f, 1, false) == Pass(t, Unchanged);
  }
}
