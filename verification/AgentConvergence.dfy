/**
 Convergence of the agent: with a fixed spec and succeeding calls, every Updated pass brings the node strictly
 closer to what the *Programs ask for, and the first Unchanged pass finds it exactly there, unless a program has to be
 loaded that bpfman will not list as it was requested.
 */
module AgentConvergence {
  import opened Wrappers
  import opened AgentModel
  import opened AgentWrites
  import opened AgentSafety

  // ----- Distance from the goal -----

  ghost predicate Owned(objs: map<ObjName, BpfObj>, c: Ctx, n: ObjName) {
    n in objs && objs[n].owner == c.prog.name && objs[n].node == c.node
  }

  /** bpfman runs this BpfProgram with the request the *Program asks for now. */
  ghost predicate RunsAsRequested(o: BpfObj, loaded: map<Uid, LoadedProg>, c: Ctx) {
    o.uid in loaded && DoesProgExist(loaded[o.uid].request, LoadRequest(c, o))
  }

  /** Kubernetes writes still needed for an expected BpfProgram that exists. */
  ghost function UpdateRank(o: BpfObj, loaded: map<Uid, LoadedProg>, c: Ctx): nat {
    if ShouldBeLoaded(c, o, false) && !RunsAsRequested(o, loaded, c) then 2
    else if o.conds != [SuccessCondition(c, o, false)] then 1
    else 0
  }

  /** Kubernetes writes still needed for a BpfProgram whose *Program is being deleted. */
  ghost function DeleteRank(o: BpfObj): nat {
    (if o.finalizer then 1 else 0) + (if o.conds == [Unloaded] then 0 else 1)
  }

  /**
   How far one name is from where this *Program wants it. An expected BpfProgram that lost its finalizer ranks
   highest, because no pass ever gives the finalizer back.
   */
  ghost function Rank(s: NodeState, c: Ctx, want: set<ObjName>, n: ObjName): nat {
    if c.prog.deleting then (if Owned(s.objs, c, n) then DeleteRank(s.objs[n]) else 0)
    else if n in want then
      if !Owned(s.objs, c, n) then 3
      else if !s.objs[n].finalizer then 4
      else UpdateRank(s.objs[n], s.loaded, c)
    else if Owned(s.objs, c, n) then (if s.objs[n].finalizer then 2 else 1)
    else 0
  }

  ghost predicate NoWorse(s: NodeState, t: NodeState, c: Ctx, want: set<ObjName>) {
    forall n :: Rank(t, c, want, n) <= Rank(s, c, want, n)
  }

  ghost predicate Better(s: NodeState, t: NodeState, c: Ctx, want: set<ObjName>) {
    NoWorse(s, t, c, want) && exists n :: Rank(t, c, want, n) < Rank(s, c, want, n)
  }

  // ----- The goal -----

  /** Loaded exactly when it should be, with its request, its ID annotation and its one condition correct. */
  ghost predicate Settled(o: BpfObj, loaded: map<Uid, LoadedProg>, c: Ctx) {
    && (o.uid in loaded <==> ShouldBeLoaded(c, o, false))
    && (o.uid in loaded ==> RunsAsRequested(o, loaded, c) && o.id == Some(loaded[o.uid].id))
    && o.conds == [SuccessCondition(c, o, false)]
  }

  /** Step 3 of deletion reached: not loaded, no finalizer, status Unloaded. */
  ghost predicate CleanedUp(o: BpfObj, loaded: map<Uid, LoadedProg>) {
    o.uid !in loaded && !o.finalizer && o.conds == [Unloaded]
  }

  ghost predicate ProgramSettled(s: NodeState, c: Ctx, want: set<ObjName>) {
    if c.prog.deleting then forall n | Owned(s.objs, c, n) :: CleanedUp(s.objs[n], s.loaded)
    else
      && (forall n :: Owned(s.objs, c, n) <==> n in want)
      && (forall n | n in want :: Settled(s.objs[n], s.loaded, c))
  }

  // ----- Hypotheses -----

  ghost function Names(expected: seq<Expected>): set<ObjName> {
    set i | 0 <= i < |expected| :: expected[i].name
  }

  /** Every call succeeds, and the iteration order is a real one. */
  ghost predicate Healthy(f: Oracle, names: set<ObjName>) {
    && f.unloadFails == {} && f.badIds == {} && f.requestFails == {} && f.writeFails == {}
    && names <= f.loads.Keys
    && Distinct(f.order) && (forall n | n in names :: n in f.order)
  }

  /** The agent will recognise this spec in what bpfman lists for it; AgentChurn.EchoesExactly says when it does. */
  ghost predicate Echoes(f: Oracle, spec: Spec) {
    SameSpec(f.lists(spec), spec)
  }

  // ----- What stands in the way -----

  ghost predicate WouldLoad(objs: map<ObjName, BpfObj>, c: Ctx, e: Expected) {
    && !c.prog.deleting && c.selected && MapOk(c.mapOwner)
    && !(if Owned(objs, c, e.name) then objs[e.name].noContainers else e.noContainers)
  }

  /** An expected BpfProgram that should be loaded and does not run as requested yet. */
  ghost predicate Misfit(s: NodeState, c: Ctx, e: Expected) {
    WouldLoad(s.objs, c, e) && !(Owned(s.objs, c, e.name) && RunsAsRequested(s.objs[e.name], s.loaded, c))
  }

  /** Every expected BpfProgram that should be loaded runs as requested, or will once it is loaded. */
  ghost predicate Fit(s: NodeState, c: Ctx, f: Oracle, expected: seq<Expected>) {
    Echoes(f, c.prog.spec) || forall i | 0 <= i < |expected| :: !Misfit(s, c, expected[i])
  }

  ghost predicate IsLoaded(s: NodeState, c: Ctx, n: ObjName) {
    Owned(s.objs, c, n) && s.objs[n].uid in s.loaded
  }

  ghost predicate MisfitKept(s: NodeState, t: NodeState, c: Ctx, e: Expected) {
    && (Misfit(s, c, e) <==> Misfit(t, c, e))
    && (Misfit(s, c, e) && IsLoaded(s, c, e.name) ==> IsLoaded(t, c, e.name))
  }

  /** Loading helps no BpfProgram of a spec that does not echo. */
  ghost predicate MisfitsKept(s: NodeState, t: NodeState, c: Ctx, f: Oracle, expected: seq<Expected>) {
    !Echoes(f, c.prog.spec) ==> forall i | 0 <= i < |expected| :: MisfitKept(s, t, c, expected[i])
  }

  lemma FitKept(s: NodeState, t: NodeState, c: Ctx, f: Oracle, expected: seq<Expected>)
    requires MisfitsKept(s, t, c, f, expected)
    ensures Fit(s, c, f, expected) <==> Fit(t, c, f, expected)
  {
    assert !Echoes(f, c.prog.spec) ==> forall i | 0 <= i < |expected| :: MisfitKept(s, t, c, expected[i]);
  }

  // ----- One BpfProgram -----

  /** The program was just loaded for this BpfProgram's current request. */
  ghost predicate LoadedFor(o: BpfObj, loaded: map<Uid, LoadedProg>, c: Ctx, f: Oracle) {
    o.uid in loaded && loaded[o.uid].request == Listed(LoadRequest(c, o), f)
  }

  /** bpfman has exactly the wanted program, and the agent knows its ID. */
  ghost predicate Reached(s: NodeState, r: Reconciled, o: BpfObj, c: Ctx, f: Oracle)
    requires o.name in f.loads
  {
    && r.Reconciled? && r.ok && r.cond == SuccessCondition(c, o, false)
    && r.s.objs == s.objs && SameExcept(s.loaded, r.s.loaded, o.uid)
    && (o.uid in r.s.loaded <==> ShouldBeLoaded(c, o, false))
    && (o.uid in r.s.loaded ==> r.s.progId == Some(r.s.loaded[o.uid].id))
    && (o.uid in r.s.loaded ==>
          if RunsAsRequested(o, s.loaded, c) then SameEntry(s.loaded, r.s.loaded, o.uid)
          else LoadedFor(o, r.s.loaded, c, f) && r.s.loaded[o.uid].id == f.loads[o.name])
    && (o.uid in s.loaded && ShouldBeLoaded(c, o, false) && RunsAsRequested(o, s.loaded, c) ==> r.s.progId == o.id)
  }

  lemma LoadedReaches(s: NodeState, o: BpfObj, c: Ctx, f: Oracle)
    requires Inv(s.objs, s.loaded, c.node) && o.name in s.objs && s.objs[o.name] == o && o.uid in s.loaded
    requires Healthy(f, {o.name}) && forall u | u in s.loaded :: f.loads[o.name] != s.loaded[u].id
    ensures Reached(s, ReconcileLoaded(s, s.loaded[o.uid].request, o, c, false, f), o, c, f)
  {
    OwnBacking(s, o, c.node);
    UnloadOwn(s, o, f, c.node);
  }

  /** With every call succeeding, reconcileBpfProgram leaves bpfman with exactly the wanted program. */
  lemma ReconcileReaches(s: NodeState, listed: map<Uid, LoadedProg>, o: BpfObj, c: Ctx, f: Oracle)
    requires Inv(s.objs, s.loaded, c.node) && o.name in s.objs && s.objs[o.name] == o && o.node == c.node
    requires Healthy(f, {o.name}) && Ready(s, listed, f, {o.name})
    ensures Reached(s, ReconcileBpf(s, listed, o, c, false, f), o, c, f)
  {
    assert SameEntry(listed, s.loaded, o.uid);
    if o.uid in s.loaded { LoadedReaches(s, o, c, f); }
  }

  /** Loading this BpfProgram does not help: the agent will not recognise it. */
  ghost predicate Stuck(o: BpfObj, loaded: map<Uid, LoadedProg>, c: Ctx, f: Oracle) {
    ShouldBeLoaded(c, o, false) && !RunsAsRequested(o, loaded, c) && !Echoes(f, c.prog.spec)
  }

  /**
   Stuck, and just loaded under the very ID that its annotation had before: the one case in which a pass has nothing
   to write for a BpfProgram that is not settled.
   */
  ghost predicate Coincides(
    o: BpfObj, before: map<Uid, LoadedProg>, loaded: map<Uid, LoadedProg>, c: Ctx, f: Oracle)
  {
    && Stuck(o, loaded, c, f) && o.uid !in before && o.uid in loaded
    && o.name in f.loads && o.id == Some(f.loads[o.name])
  }

  ghost predicate Calm(
    o: BpfObj, before: map<Uid, LoadedProg>, loaded: map<Uid, LoadedProg>, c: Ctx, f: Oracle)
  {
    Settled(o, loaded, c) || Coincides(o, before, loaded, c, f)
  }

  /** What a reconcile leaves of being as requested: what was there, or what a load can bring. */
  lemma ReachedRuns(s: NodeState, r: Reconciled, o: BpfObj, c: Ctx, f: Oracle)
    requires o.name in f.loads && Reached(s, r, o, c, f) && ShouldBeLoaded(c, o, false)
    ensures RunsAsRequested(o, r.s.loaded, c) <==> RunsAsRequested(o, s.loaded, c) || Echoes(f, c.prog.spec)
  {
  }

  /** What one visit achieves: the object's rank falls unless it is stuck, or there is nothing to write. */
  ghost predicate Visited(s: NodeState, r: Flow, o: BpfObj, c: Ctx, f: Oracle) {
    && SameExcept(s.loaded, r.s.loaded, o.uid)
    && (o.uid in r.s.loaded <==> ShouldBeLoaded(c, o, false))
    && (ShouldBeLoaded(c, o, false) && !Echoes(f, c.prog.spec) ==>
          (RunsAsRequested(o, r.s.loaded, c) <==> RunsAsRequested(o, s.loaded, c)))
    && (r.Next? ==> r.s.objs == s.objs && Calm(o, s.loaded, r.s.loaded, c, f))
    && (r.Exit? ==>
          && r.outcome == Updated
          && o.name in r.s.objs
          && var o' := r.s.objs[o.name];
             && r.s.objs == s.objs[o.name := o']
             && o' == o.(id := o'.id, conds := o'.conds)
             && UpdateRank(o', r.s.loaded, c) <= UpdateRank(o, s.loaded, c)
             && (!Stuck(o, s.loaded, c, f) ==> UpdateRank(o', r.s.loaded, c) < UpdateRank(o, s.loaded, c)))
  }

  /** What the Kubernetes write after a reconcile achieves. */
  lemma WriteAfterReconcile(s: NodeState, t: NodeState, o: BpfObj, c: Ctx, f: Oracle)
    requires o.name in s.objs && s.objs[o.name] == o && Healthy(f, {o.name})
    requires t.objs == s.objs && SameExcept(s.loaded, t.loaded, o.uid)
    requires o.uid in s.loaded ==> o.id == Some(s.loaded[o.uid].id) && f.loads[o.name] != s.loaded[o.uid].id
    requires o.uid in t.loaded <==> ShouldBeLoaded(c, o, false)
    requires o.uid in t.loaded ==> t.progId == Some(t.loaded[o.uid].id)
    requires ShouldBeLoaded(c, o, false) ==>
               (RunsAsRequested(o, t.loaded, c) <==> RunsAsRequested(o, s.loaded, c) || Echoes(f, c.prog.spec))
    requires ShouldBeLoaded(c, o, false) && RunsAsRequested(o, s.loaded, c) ==> t.progId == o.id
    requires ShouldBeLoaded(c, o, false) && !RunsAsRequested(o, s.loaded, c) ==> t.progId == Some(f.loads[o.name])
    ensures
      var cond := SuccessCondition(c, o, false);
      var r := if SkipsId(cond) then StatusFlow(UpdateStatus(t, o, cond, f)) else RecordId(t, o, cond, f);
      r.s.loaded == t.loaded && Visited(s, r, o, c, f)
  {
  }

  lemma UpdateOneProgress(s: NodeState, listed: map<Uid, LoadedProg>, o: BpfObj, c: Ctx, f: Oracle)
    requires Inv(s.objs, s.loaded, c.node) && o.name in s.objs && s.objs[o.name] == o && o.node == c.node
    requires Healthy(f, {o.name}) && Ready(s, listed, f, {o.name}) && !c.prog.deleting
    ensures Visited(s, UpdateOne(s, listed, o, c, f), o, c, f)
  {
    var r := ReconcileBpf(s, listed, o, c, false, f);
    ReconcileReaches(s, listed, o, c, f);
    if ShouldBeLoaded(c, o, false) { ReachedRuns(s, r, o, c, f); }
    if o.uid in s.loaded { OwnBacking(s, o, c.node); }
    WriteAfterReconcile(s, r.s, o, c, f);
  }

  lemma DeleteOneProgress(s: NodeState, listed: map<Uid, LoadedProg>, o: BpfObj, c: Ctx, f: Oracle)
    requires Inv(s.objs, s.loaded, c.node) && o.name in s.objs && s.objs[o.name] == o && o.node == c.node
    requires Healthy(f, {o.name}) && Ready(s, listed, f, {o.name})
    ensures
      var r := DeleteOne(s, listed, o, c, f);
      && SameExcept(s.loaded, r.s.loaded, o.uid)
      && (r.Next? ==> c.prog.deleting && r.s.objs == s.objs && CleanedUp(o, r.s.loaded))
      && (r.Exit? ==>
            && r.outcome == Updated
            && (|| r.s.objs == s.objs - {o.name}
                || (o.name in r.s.objs && var o' := r.s.objs[o.name];
                    && r.s.objs == s.objs[o.name := o']
                    && o' == o.(finalizer := o'.finalizer, conds := o'.conds)
                    && (c.prog.deleting ==> DeleteRank(o') < DeleteRank(o))
                    && (!c.prog.deleting ==> o.finalizer && !o'.finalizer)))
            && (c.prog.deleting ==> DeleteRank(o) > 0))
  {
    if o.uid in s.loaded {
      OwnBacking(s, o, c.node);
      UnloadOwn(s, o, f, c.node);
    }
    assert SameEntry(listed, s.loaded, o.uid);
  }

  // ----- From one BpfProgram to all of them -----

  /** Between `s` and `t` only objects and programs of this *Program on this node changed. */
  ghost predicate Framed(s: NodeState, t: NodeState, c: Ctx, want: set<ObjName>) {
    && (forall n | n in s.objs && !Owned(s.objs, c, n) :: n in t.objs && t.objs[n] == s.objs[n])
    && (forall n | n in t.objs && n !in s.objs :: Owned(t.objs, c, n) && n in want)
    && (forall n | Owned(s.objs, c, n) && n in t.objs :: Owned(t.objs, c, n))
    && (forall n | n in s.objs && !Owned(s.objs, c, n) :: SameEntry(s.loaded, t.loaded, s.objs[n].uid))
  }

  /** What every step for a *Program keeps. */
  ghost predicate Moved(s: NodeState, t: NodeState, c: Ctx, f: Oracle, expected: seq<Expected>) {
    && Framed(s, t, c, Names(expected)) && NoWorse(s, t, c, Names(expected)) && MisfitsKept(s, t, c, f, expected)
  }

  lemma MovedTrans(s: NodeState, t: NodeState, u: NodeState, c: Ctx, f: Oracle, expected: seq<Expected>)
    requires Moved(s, t, c, f, expected) && Moved(t, u, c, f, expected)
    ensures Moved(s, u, c, f, expected)
    ensures Better(t, u, c, Names(expected)) ==> Better(s, u, c, Names(expected))
  {
    FramedTrans(s, t, u, c, Names(expected));
    BetterTrans(s, t, u, c, Names(expected));
    MisfitsTrans(s, t, u, c, f, expected);
  }

  lemma MisfitsTrans(s: NodeState, t: NodeState, u: NodeState, c: Ctx, f: Oracle, expected: seq<Expected>)
    requires MisfitsKept(s, t, c, f, expected) && MisfitsKept(t, u, c, f, expected)
    ensures MisfitsKept(s, u, c, f, expected)
  {
    if !Echoes(f, c.prog.spec) {
      forall i | 0 <= i < |expected| ensures MisfitKept(s, u, c, expected[i]) {
        assert MisfitKept(s, t, c, expected[i]) && MisfitKept(t, u, c, expected[i]);
      }
    }
  }

  lemma FramedTrans(s: NodeState, t: NodeState, u: NodeState, c: Ctx, want: set<ObjName>)
    requires Framed(s, t, c, want) && Framed(t, u, c, want)
    ensures Framed(s, u, c, want)
  {
  }

  lemma BetterTrans(s: NodeState, t: NodeState, u: NodeState, c: Ctx, want: set<ObjName>)
    requires NoWorse(s, t, c, want)
    ensures NoWorse(t, u, c, want) ==> NoWorse(s, u, c, want)
    ensures Better(t, u, c, want) ==> Better(s, u, c, want)
  {
  }

  /** Only the visited BpfProgram can have changed rank. */
  lemma OthersKeepRank(s: NodeState, t: NodeState, o: BpfObj, c: Ctx, want: set<ObjName>)
    requires WellFormed(s.objs) && Owned(s.objs, c, o.name) && s.objs[o.name] == o
    requires SameExcept(s.loaded, t.loaded, o.uid)
    requires t.objs - {o.name} == s.objs - {o.name}
    requires Owned(t.objs, c, o.name) || o.name !in t.objs
    ensures forall n | n != o.name :: Rank(t, c, want, n) == Rank(s, c, want, n)
    ensures Framed(s, t, c, want)
  {
    forall n | n != o.name
      ensures n in s.objs <==> n in t.objs
      ensures n in s.objs ==> s.objs[n] == t.objs[n] && SameEntry(s.loaded, t.loaded, s.objs[n].uid)
      ensures Rank(t, c, want, n) == Rank(s, c, want, n)
    {
      assert n in s.objs <==> n in s.objs - {o.name};
      assert n in t.objs <==> n in t.objs - {o.name};
      if n in s.objs { assert s.objs[n].uid != o.uid; }
    }
  }

  lemma OneNoWorse(s: NodeState, t: NodeState, o: BpfObj, c: Ctx, want: set<ObjName>)
    requires WellFormed(s.objs) && Owned(s.objs, c, o.name) && s.objs[o.name] == o
    requires SameExcept(s.loaded, t.loaded, o.uid)
    requires t.objs - {o.name} == s.objs - {o.name}
    requires Owned(t.objs, c, o.name) || o.name !in t.objs
    requires Rank(t, c, want, o.name) <= Rank(s, c, want, o.name)
    ensures NoWorse(s, t, c, want) && Framed(s, t, c, want)
    ensures Rank(t, c, want, o.name) < Rank(s, c, want, o.name) ==> Better(s, t, c, want)
  {
    OthersKeepRank(s, t, o, c, want);
    forall n
      ensures Rank(t, c, want, n) <= Rank(s, c, want, n)
    {
      if n == o.name { assert Rank(t, c, want, n) <= Rank(s, c, want, n); }
    }
  }

  /** The visited BpfProgram as far as `Misfit` looks at it. */
  ghost predicate SameFit(s: NodeState, t: NodeState, o: BpfObj, c: Ctx, f: Oracle) {
    && o.name in t.objs && t.objs[o.name] == o.(id := t.objs[o.name].id, conds := t.objs[o.name].conds)
    && (ShouldBeLoaded(c, o, false) ==> o.uid in t.loaded)
    && (ShouldBeLoaded(c, o, false) && !Echoes(f, c.prog.spec) ==>
          (RunsAsRequested(o, t.loaded, c) <==> RunsAsRequested(o, s.loaded, c)))
  }

  lemma OneKeepsMisfits(s: NodeState, t: NodeState, o: BpfObj, c: Ctx, f: Oracle, expected: seq<Expected>)
    requires WellFormed(s.objs) && Owned(s.objs, c, o.name) && s.objs[o.name] == o
    requires SameExcept(s.loaded, t.loaded, o.uid)
    requires t.objs - {o.name} == s.objs - {o.name}
    requires c.prog.deleting || o.name !in Names(expected) || SameFit(s, t, o, c, f)
    ensures MisfitsKept(s, t, c, f, expected)
  {
    if !c.prog.deleting && !Echoes(f, c.prog.spec) {
      forall i | 0 <= i < |expected| ensures MisfitKept(s, t, c, expected[i]) {
        var n := expected[i].name;
        assert n in Names(expected);
        if n != o.name { OtherKeepsMisfit(s, t, o, c, expected[i]); }
      }
    }
  }

  lemma OtherKeepsMisfit(s: NodeState, t: NodeState, o: BpfObj, c: Ctx, e: Expected)
    requires WellFormed(s.objs) && Owned(s.objs, c, o.name) && s.objs[o.name] == o && e.name != o.name
    requires SameExcept(s.loaded, t.loaded, o.uid) && t.objs - {o.name} == s.objs - {o.name}
    ensures MisfitKept(s, t, c, e)
  {
    assert e.name in s.objs <==> e.name in s.objs - {o.name};
    assert e.name in t.objs <==> e.name in t.objs - {o.name};
    if e.name in s.objs { assert SameEntry(s.loaded, t.loaded, s.objs[e.name].uid); }
  }

  /** One visit by handleProgDelete makes progress. */
  lemma DeleteVisit(
    s: NodeState, listed: map<Uid, LoadedProg>, o: BpfObj, c: Ctx, f: Oracle, expected: seq<Expected>)
    requires Inv(s.objs, s.loaded, c.node) && Owned(s.objs, c, o.name) && s.objs[o.name] == o
    requires Healthy(f, {o.name}) && Ready(s, listed, f, {o.name})
    requires !c.prog.deleting ==> o.name !in Names(expected)
    ensures
      var r := DeleteOne(s, listed, o, c, f);
      && Moved(s, r.s, c, f, expected)
      && (r.Next? ==> c.prog.deleting)
      && (r.Exit? ==> r.outcome == Updated && Better(s, r.s, c, Names(expected)))
  {
    DeleteOneProgress(s, listed, o, c, f);
    var t := DeleteOne(s, listed, o, c, f).s;
    if o.name in t.objs { assert t.objs == s.objs[o.name := t.objs[o.name]]; }
    assert t.objs - {o.name} == s.objs - {o.name};
    OneNoWorse(s, t, o, c, Names(expected));
    OneKeepsMisfits(s, t, o, c, f, expected);
  }

  /** One visit by handleProgCreateOrUpdate makes progress unless the BpfProgram is stuck. */
  lemma UpdateVisit(s: NodeState, r: Flow, o: BpfObj, c: Ctx, f: Oracle, expected: seq<Expected>)
    requires WellFormed(s.objs) && Owned(s.objs, c, o.name) && s.objs[o.name] == o
    requires Visited(s, r, o, c, f) && !c.prog.deleting && o.name in Names(expected) && o.finalizer
    ensures Moved(s, r.s, c, f, expected)
    ensures r.Exit? && !Stuck(o, s.loaded, c, f) ==> Better(s, r.s, c, Names(expected))
  {
    assert r.s.objs - {o.name} == s.objs - {o.name};
    VisitRank(s, r, o, c, f, Names(expected));
    OneNoWorse(s, r.s, o, c, Names(expected));
    OneKeepsMisfits(s, r.s, o, c, f, expected);
  }

  lemma VisitRank(s: NodeState, r: Flow, o: BpfObj, c: Ctx, f: Oracle, want: set<ObjName>)
    requires Owned(s.objs, c, o.name) && s.objs[o.name] == o
    requires Visited(s, r, o, c, f) && !c.prog.deleting && o.name in want && o.finalizer
    ensures Rank(r.s, c, want, o.name) <= Rank(s, c, want, o.name)
    ensures r.Exit? && !Stuck(o, s.loaded, c, f) ==> Rank(r.s, c, want, o.name) < Rank(s, c, want, o.name)
  {
  }

  /** What the deletion loop, or the rest of it, achieves. */
  ghost predicate Removed(
    s: NodeState, p: Pass, existing: map<ObjName, BpfObj>, c: Ctx, f: Oracle, expected: seq<Expected>)
  {
    && Moved(s, p.s, c, f, expected)
    && (p.outcome == Updated || p.outcome == Unchanged)
    && (p.outcome == Updated ==> Better(s, p.s, c, Names(expected)))
    && (p.outcome == Unchanged ==>
          && p.s.objs == s.objs
          && forall n | n in existing :: c.prog.deleting && CleanedUp(existing[n], p.s.loaded))
  }

  /** The deletion loop before its i-th iteration: what it has passed is cleaned up. */
  ghost predicate Deleting(
    s: NodeState, listed: map<Uid, LoadedProg>, existing: map<ObjName, BpfObj>, c: Ctx, f: Oracle, i: nat,
    expected: seq<Expected>)
  {
    && i <= |f.order| && Inv(s.objs, s.loaded, c.node)
    && (forall n | n in existing :: Owned(s.objs, c, n) && s.objs[n] == existing[n])
    && Healthy(f, existing.Keys) && Ready(s, listed, f, Todo(existing, f.order, i, {}))
    && (!c.prog.deleting ==> existing.Keys !! Names(expected))
    && (forall n | n in existing && n !in Rest(f.order, i) :: c.prog.deleting && CleanedUp(existing[n], s.loaded))
  }

  /** One object of the loop: it is improved, or it is cleaned up and the loop goes on. */
  lemma DeletingNext(
    s: NodeState, listed: map<Uid, LoadedProg>, existing: map<ObjName, BpfObj>, c: Ctx, f: Oracle, i: nat,
    expected: seq<Expected>)
    requires Deleting(s, listed, existing, c, f, i, expected) && i < |f.order| && f.order[i] in existing
    ensures
      var r := DeleteOne(s, listed, existing[f.order[i]], c, f);
      && Moved(s, r.s, c, f, expected)
      && (r.Exit? ==> r.outcome == Updated && Better(s, r.s, c, Names(expected)))
      && (r.Next? ==> r.s.objs == s.objs && Deleting(r.s, listed, existing, c, f, i + 1, expected))
  {
    TodoShrinks(existing, f.order, i, {});
    var todo, n := Todo(existing, f.order, i, {}), f.order[i];
    var o := existing[n];
    ReadyForFewer(s, listed, f, todo, {n});
    DeleteStep(s, listed, o, c, f, todo);
    DeleteOneProgress(s, listed, o, c, f);
    DeleteVisit(s, listed, o, c, f, expected);
    var r := DeleteOne(s, listed, o, c, f);
    if r.Next? {
      ReadyForFewer(r.s, listed, f, todo - {n}, Todo(existing, f.order, i + 1, {}));
      VisitedStay(s, r.s, existing, f.order, i, o);
    }
  }

  lemma DeletingSkip(
    s: NodeState, listed: map<Uid, LoadedProg>, existing: map<ObjName, BpfObj>, c: Ctx, f: Oracle, i: nat,
    expected: seq<Expected>)
    requires Deleting(s, listed, existing, c, f, i, expected) && i < |f.order| && f.order[i] !in existing
    ensures Deleting(s, listed, existing, c, f, i + 1, expected)
  {
    TodoShrinks(existing, f.order, i, {});
    ReadyForFewer(s, listed, f, Todo(existing, f.order, i, {}), Todo(existing, f.order, i + 1, {}));
  }

  lemma DeletingDone(
    s: NodeState, listed: map<Uid, LoadedProg>, existing: map<ObjName, BpfObj>, c: Ctx, f: Oracle,
    expected: seq<Expected>)
    requires Deleting(s, listed, existing, c, f, |f.order|, expected)
    ensures Removed(s, Pass(s, Unchanged), existing, c, f, expected)
  {
  }

  lemma {:induction false} DeleteFromProgress(
    s: NodeState, listed: map<Uid, LoadedProg>, existing: map<ObjName, BpfObj>, c: Ctx, f: Oracle, i: nat,
    expected: seq<Expected>)
    requires Deleting(s, listed, existing, c, f, i, expected)
    ensures Removed(s, DeleteFrom(s, listed, existing, c, f, i), existing, c, f, expected)
    decreases |f.order| - i
  {
    if i == |f.order| {
      DeletingDone(s, listed, existing, c, f, expected);
    } else if f.order[i] !in existing {
      DeletingSkip(s, listed, existing, c, f, i, expected);
      DeleteFromProgress(s, listed, existing, c, f, i + 1, expected);
    } else {
      DeletingNext(s, listed, existing, c, f, i, expected);
      var r := DeleteOne(s, listed, existing[f.order[i]], c, f);
      if r.Next? {
        DeleteFromProgress(r.s, listed, existing, c, f, i + 1, expected);
        MovedTrans(s, r.s, DeleteFrom(r.s, listed, existing, c, f, i + 1).s, c, f, expected);
      }
    }
  }

  lemma VisitedStay(s: NodeState, t: NodeState, existing: map<ObjName, BpfObj>, order: seq<ObjName>, i: nat, o: BpfObj)
    requires i < |order| && WellFormed(s.objs) && t.objs == s.objs
    requires o.name == order[i] && o.name in s.objs && s.objs[o.name] == o
    requires SameExcept(s.loaded, t.loaded, o.uid) && CleanedUp(o, t.loaded)
    requires forall n | n in existing :: n in s.objs
    requires forall n | n in existing && n !in Rest(order, i) :: CleanedUp(s.objs[n], s.loaded)
    ensures forall n | n in existing && n !in Rest(order, i + 1) :: CleanedUp(t.objs[n], t.loaded)
  {
    forall n | n in existing && n !in Rest(order, i + 1)
      ensures CleanedUp(t.objs[n], t.loaded)
    {
      if n != o.name {
        assert n !in Rest(order, i);
        assert SameEntry(s.loaded, t.loaded, s.objs[n].uid);
      }
    }
  }

  ghost predicate DistinctExpected(expected: seq<Expected>) {
    forall i, j | 0 <= i < j < |expected| :: expected[i].name != expected[j].name
  }

  /** The names already handled by the loop over expected BpfPrograms. */
  ghost function Done(expected: seq<Expected>, i: nat): set<ObjName>
    requires i <= |expected|
  {
    set k | 0 <= k < i :: expected[k].name
  }

  lemma CreateIsBetter(s: NodeState, e: Expected, c: Ctx, f: Oracle, want: set<ObjName>)
    requires Inv(s.objs, s.loaded, c.node) && UidFresh(f.newUid, s.objs, s.loaded)
    requires e.name in want && e.name !in s.objs && e.name !in f.writeFails && !c.prog.deleting
    ensures var r := Create(s, e, c, f); r.outcome == Updated && Framed(s, r.s, c, want) && Better(s, r.s, c, want)
  {
    var t := Create(s, e, c, f).s;
    forall n
      ensures Rank(t, c, want, n) <= Rank(s, c, want, n)
    {
      if n == e.name { assert Rank(t, c, want, n) < 3 == Rank(s, c, want, n); }
    }
    assert Rank(t, c, want, e.name) < Rank(s, c, want, e.name);
  }

  /** A new object still has to be loaded if it should be at all. */
  lemma CreateKeepsMisfits(s: NodeState, expected: seq<Expected>, i: nat, c: Ctx, f: Oracle)
    requires i < |expected| && DistinctExpected(expected) && expected[i].name !in s.objs
    requires f.newUid !in s.loaded && f.writeFails == {}
    ensures MisfitsKept(s, Create(s, expected[i], c, f).s, c, f, expected)
  {
    var t := Create(s, expected[i], c, f).s;
    forall j | 0 <= j < |expected| ensures MisfitKept(s, t, c, expected[j]) {
      if j != i { assert expected[j].name != expected[i].name; }
    }
  }

  lemma CreateMoves(s: NodeState, expected: seq<Expected>, i: nat, c: Ctx, f: Oracle)
    requires i < |expected| && DistinctExpected(expected) && expected[i].name !in s.objs
    requires Inv(s.objs, s.loaded, c.node) && UidFresh(f.newUid, s.objs, s.loaded)
    requires f.writeFails == {} && !c.prog.deleting
    ensures
      var r := Create(s, expected[i], c, f);
      r.outcome == Updated && Moved(s, r.s, c, f, expected) && Better(s, r.s, c, Names(expected))
  {
    assert expected[i].name in Names(expected);
    CreateIsBetter(s, expected[i], c, f, Names(expected));
    CreateKeepsMisfits(s, expected, i, c, f);
  }

  /** Before iteration i, `existing` holds this *Program's objects that are still to be matched. */
  ghost predicate LoopObjs(
    objs: map<ObjName, BpfObj>, existing: map<ObjName, BpfObj>, expected: seq<Expected>, c: Ctx, i: nat)
    requires i <= |expected|
  {
    && (forall n :: n in existing <==> Owned(objs, c, n) && n !in Done(expected, i))
    && (forall n | n in existing :: n in objs && objs[n] == existing[n])
    && ExpectedHaveFinalizers(existing, expected)
    && (forall n | n in Names(expected) && n in objs :: Owned(objs, c, n))
  }

  lemma LoopObjsNext(
    objs: map<ObjName, BpfObj>, existing: map<ObjName, BpfObj>, expected: seq<Expected>, c: Ctx, i: nat)
    requires i < |expected| && LoopObjs(objs, existing, expected, c, i)
    ensures LoopObjs(objs, existing - {expected[i].name}, expected, c, i + 1)
  {
  }

  /** The loop over expected BpfPrograms, before its i-th iteration. */
  ghost predicate AtIndex(
    s: NodeState, listed: map<Uid, LoadedProg>, existing: map<ObjName, BpfObj>, expected: seq<Expected>,
    c: Ctx, f: Oracle, i: nat)
  {
    && i <= |expected| && DistinctExpected(expected) && !c.prog.deleting
    && Inv(s.objs, s.loaded, c.node) && UidFresh(f.newUid, s.objs, s.loaded)
    && LoopObjs(s.objs, existing, expected, c, i)
    && (forall n | n in Done(expected, i) :: n in s.objs && Calm(s.objs[n], listed, s.loaded, c, f))
    && Healthy(f, existing.Keys) && Ready(s, listed, f, existing.Keys)
  }

  /** Everything is as it should be, up to loads that coincide with an old annotation. */
  ghost predicate ProgramCalm(
    s: NodeState, before: map<Uid, LoadedProg>, c: Ctx, f: Oracle, want: set<ObjName>)
  {
    if c.prog.deleting then forall n | Owned(s.objs, c, n) :: CleanedUp(s.objs[n], s.loaded)
    else
      && (forall n :: Owned(s.objs, c, n) <==> n in want)
      && (forall n | n in want :: Calm(s.objs[n], before, s.loaded, c, f))
  }

  ghost predicate Progress(
    s: NodeState, p: Pass, listed: map<Uid, LoadedProg>, c: Ctx, f: Oracle, expected: seq<Expected>)
  {
    && Moved(s, p.s, c, f, expected)
    && (p.outcome == Updated || p.outcome == Unchanged)
    && (p.outcome == Updated && Fit(s, c, f, expected) ==> Better(s, p.s, c, Names(expected)))
    && (p.outcome == Unchanged ==> p.s.objs == s.objs && ProgramCalm(p.s, listed, c, f, Names(expected)))
  }

  /** Past the last expected BpfProgram with nothing left over: everything is as it should be. */
  lemma NothingLeft(
    s: NodeState, listed: map<Uid, LoadedProg>, expected: seq<Expected>, c: Ctx, f: Oracle)
    requires AtIndex(s, listed, map[], expected, c, f, |expected|)
    ensures Progress(s, Pass(s, Unchanged), listed, c, f, expected)
  {
    assert Done(expected, |expected|) == Names(expected);
  }

  /** Otherwise what still exists is unexpected and gets deleted, one Updated pass at a time. */
  lemma LeftOversGo(
    s: NodeState, listed: map<Uid, LoadedProg>, existing: map<ObjName, BpfObj>, expected: seq<Expected>,
    c: Ctx, f: Oracle)
    requires AtIndex(s, listed, existing, expected, c, f, |expected|) && existing != map[]
    ensures Progress(s, DeleteFrom(s, listed, existing, c, f, 0), listed, c, f, expected)
  {
    assert Done(expected, |expected|) == Names(expected);
    ReadyForFewer(s, listed, f, existing.Keys, Todo(existing, f.order, 0, {}));
    assert forall n | n in existing :: n in Rest(f.order, 0);
    DeleteFromProgress(s, listed, existing, c, f, 0, expected);
    assert exists n :: n in existing;
  }

  lemma AtNextIndex(
    s: NodeState, t: NodeState, listed: map<Uid, LoadedProg>, existing: map<ObjName, BpfObj>,
    expected: seq<Expected>, c: Ctx, f: Oracle, i: nat)
    requires AtIndex(s, listed, existing, expected, c, f, i) && i < |expected| && expected[i].name in existing
    requires t.objs == s.objs && Inv(t.objs, t.loaded, c.node)
    requires SameExcept(s.loaded, t.loaded, existing[expected[i].name].uid)
    requires Calm(existing[expected[i].name], listed, t.loaded, c, f)
    requires Ready(t, listed, f, existing.Keys - {expected[i].name})
    ensures AtIndex(t, listed, existing - {expected[i].name}, expected, c, f, i + 1)
  {
    var o, existing' := existing[expected[i].name], existing - {expected[i].name};
    assert Done(expected, i + 1) == Done(expected, i) + {o.name};
    assert existing'.Keys == existing.Keys - {o.name};
    assert forall n | n in Done(expected, i + 1) :: n in t.objs && Calm(t.objs[n], listed, t.loaded, c, f) by {
      CalmStay(s, t, listed, Done(expected, i), o, c, f);
    }
    assert UidFresh(f.newUid, t.objs, t.loaded) by { assert SameEntry(s.loaded, t.loaded, f.newUid); }
    LoopObjsNext(s.objs, existing, expected, c, i);
    ReadyForFewer(t, listed, f, existing.Keys - {o.name}, existing'.Keys);
  }

  lemma CalmStay(
    s: NodeState, t: NodeState, listed: map<Uid, LoadedProg>, done: set<ObjName>, o: BpfObj, c: Ctx, f: Oracle)
    requires WellFormed(s.objs) && t.objs == s.objs && o.name in s.objs && s.objs[o.name] == o
    requires SameExcept(s.loaded, t.loaded, o.uid) && Calm(o, listed, t.loaded, c, f)
    requires forall n | n in done :: n in s.objs && Calm(s.objs[n], listed, s.loaded, c, f)
    ensures forall n | n in done + {o.name} :: n in t.objs && Calm(t.objs[n], listed, t.loaded, c, f)
  {
    forall n | n in done + {o.name}
      ensures n in t.objs && Calm(t.objs[n], listed, t.loaded, c, f)
    {
      if n != o.name { assert SameEntry(s.loaded, t.loaded, s.objs[n].uid); }
    }
  }

  /** A BpfProgram with nothing to write leaves the loop ready for the next one. */
  lemma UpdateFromNext(
    s: NodeState, listed: map<Uid, LoadedProg>, existing: map<ObjName, BpfObj>, expected: seq<Expected>,
    c: Ctx, f: Oracle, i: nat)
    requires AtIndex(s, listed, existing, expected, c, f, i) && i < |expected| && expected[i].name in existing
    ensures
      var r := UpdateOne(s, listed, existing[expected[i].name], c, f);
      && Moved(s, r.s, c, f, expected)
      && (r.Exit? ==> r.outcome == Updated)
      && (r.Exit? && Fit(s, c, f, expected) ==> Better(s, r.s, c, Names(expected)))
      && (r.Next? ==> && r.s.objs == s.objs
                      && AtIndex(r.s, listed, existing - {expected[i].name}, expected, c, f, i + 1))
  {
    var o := existing[expected[i].name];
    assert o.name == expected[i].name && o.name in Names(expected);
    ReadyForFewer(s, listed, f, existing.Keys, {o.name});
    UpdateStep(s, listed, o, c, f, existing.Keys);
    UpdateOneProgress(s, listed, o, c, f);
    var r := UpdateOne(s, listed, o, c, f);
    UpdateVisit(s, r, o, c, f, expected);
    assert Stuck(o, s.loaded, c, f) ==> Misfit(s, c, expected[i]);
    if r.Next? {
      assert SameEntry(listed, s.loaded, o.uid);
      AtNextIndex(s, r.s, listed, existing, expected, c, f, i);
    }
  }

  lemma {:induction false} UpdateFromProgress(
    s: NodeState, listed: map<Uid, LoadedProg>, existing: map<ObjName, BpfObj>, expected: seq<Expected>,
    c: Ctx, f: Oracle, i: nat)
    requires AtIndex(s, listed, existing, expected, c, f, i)
    ensures Progress(s, UpdateFrom(s, listed, existing, expected, c, f, i), listed, c, f, expected)
    decreases |expected| - i
  {
    if i == |expected| {
      if existing == map[] { NothingLeft(s, listed, expected, c, f); }
      else { LeftOversGo(s, listed, existing, expected, c, f); }
    } else if expected[i].name !in existing {
      assert expected[i].name in Names(expected) && expected[i].name !in Done(expected, i);
      CreateMoves(s, expected, i, c, f);
    } else {
      UpdateFromNext(s, listed, existing, expected, c, f, i);
      var r := UpdateOne(s, listed, existing[expected[i].name], c, f);
      if r.Next? {
        var existing' := existing - {expected[i].name};
        UpdateFromProgress(r.s, listed, existing', expected, c, f, i + 1);
        ProgressLater(s, r.s, UpdateFrom(r.s, listed, existing', expected, c, f, i + 1), listed, c, f, expected);
      }
    }
  }

  lemma ProgressLater(
    s: NodeState, t: NodeState, p: Pass, listed: map<Uid, LoadedProg>, c: Ctx, f: Oracle, expected: seq<Expected>)
    requires t.objs == s.objs && Moved(s, t, c, f, expected) && Progress(t, p, listed, c, f, expected)
    ensures Progress(s, p, listed, c, f, expected)
  {
    MovedTrans(s, t, p.s, c, f, expected);
    FitKept(s, t, c, f, expected);
  }

  // ----- One *Program -----

  /**
   The views a converging run may have: readable, naming each expected BpfProgram once, and no other program's objects.
   */
  ghost predicate GoodView(s: NodeState, node: NodeName, prog: ProgObj, v: View) {
    && v.View?
    && (!prog.deleting ==>
          && v.expected.Some?
          && DistinctExpected(v.expected.value)
          && ExpectedHaveFinalizers(Existing(s.objs, node, prog.name), v.expected.value)
          && forall n | n in Names(v.expected.value) && n in s.objs :: n in Existing(s.objs, node, prog.name))
  }

  ghost function Expects(v: View): seq<Expected> {
    if v.View? && v.expected.Some? then v.expected.value else []
  }

  ghost function Want(v: View): set<ObjName> {
    Names(Expects(v))
  }

  ghost function CtxOf(node: NodeName, prog: ProgObj, v: View): Ctx {
    if v.View? then Ctx(node, prog, v.selected, v.mapOwner)
    else Ctx(node, prog, false, MapOwner(false, false, false, None))
  }

  /** One call of reconcileProgram either improves this *Program's BpfPrograms or finds them all as they should be. */
  lemma ReconcileProgramProgress(
    s: NodeState, listed: map<Uid, LoadedProg>, node: NodeName, prog: ProgObj, v: View, f: Oracle)
    requires Inv(s.objs, s.loaded, node) && UidFresh(f.newUid, s.objs, s.loaded)
    requires GoodView(s, node, prog, v)
    requires Healthy(f, Existing(s.objs, node, prog.name).Keys)
    requires Ready(s, listed, f, Existing(s.objs, node, prog.name).Keys)
    ensures Progress(s, ReconcileProgram(s, listed, node, prog, v, f), listed, CtxOf(node, prog, v), f, Expects(v))
  {
    var c := CtxOf(node, prog, v);
    var existing := Existing(s.objs, node, prog.name);
    assert forall n :: n in existing <==> Owned(s.objs, c, n);
    if prog.deleting {
      ReadyForFewer(s, listed, f, existing.Keys, Todo(existing, f.order, 0, {}));
      assert forall n | n in existing :: n in Rest(f.order, 0);
      DeleteFromProgress(s, listed, existing, c, f, 0, Expects(v));
    } else {
      UpdateFromProgress(s, listed, existing, v.expected.value, c, f, 0);
    }
  }

  // ----- A natural-number measure -----

  lemma SubsetCard(a: set<ObjName>, b: set<ObjName>)
    requires a <= b
    ensures |a| <= |b| && (a != b ==> |a| < |b|)
  {
    assert b == a + (b - a) && a !! (b - a);
    assert a != b ==> b - a != {};
  }

  ghost function Level(s: NodeState, c: Ctx, want: set<ObjName>, k: nat): set<ObjName> {
    set n | n in want + s.objs.Keys && k <= Rank(s, c, want, n)
  }

  /** The sum of all ranks. */
  ghost function Measure(s: NodeState, c: Ctx, want: set<ObjName>): nat {
    |Level(s, c, want, 1)| + |Level(s, c, want, 2)| + |Level(s, c, want, 3)| + |Level(s, c, want, 4)|
  }

  lemma NoWorseLevel(s: NodeState, t: NodeState, c: Ctx, want: set<ObjName>, k: nat)
    requires NoWorse(s, t, c, want) && 0 < k
    ensures Level(t, c, want, k) <= Level(s, c, want, k)
    ensures |Level(t, c, want, k)| <= |Level(s, c, want, k)|
  {
    forall n | n in Level(t, c, want, k)
      ensures n in Level(s, c, want, k)
    {
      assert Rank(t, c, want, n) <= Rank(s, c, want, n);
    }
    SubsetCard(Level(t, c, want, k), Level(s, c, want, k));
  }

  lemma NoWorseMeasure(s: NodeState, t: NodeState, c: Ctx, want: set<ObjName>)
    requires NoWorse(s, t, c, want)
    ensures Measure(t, c, want) <= Measure(s, c, want)
    ensures Better(s, t, c, want) ==> Measure(t, c, want) < Measure(s, c, want)
  {
    NoWorseLevel(s, t, c, want, 1);
    NoWorseLevel(s, t, c, want, 2);
    NoWorseLevel(s, t, c, want, 3);
    NoWorseLevel(s, t, c, want, 4);
    if Better(s, t, c, want) {
      var n :| Rank(t, c, want, n) < Rank(s, c, want, n);
      BetterLevel(s, t, c, want, n);
    }
  }

  lemma BetterLevel(s: NodeState, t: NodeState, c: Ctx, want: set<ObjName>, n: ObjName)
    requires NoWorse(s, t, c, want) && Rank(t, c, want, n) < Rank(s, c, want, n)
    ensures var k := Rank(s, c, want, n); 1 <= k <= 4 && |Level(t, c, want, k)| < |Level(s, c, want, k)|
  {
    var k := Rank(s, c, want, n);
    NoWorseLevel(s, t, c, want, k);
    assert n in Level(s, c, want, k) && n !in Level(t, c, want, k);
    SubsetCard(Level(t, c, want, k), Level(s, c, want, k));
  }

  /** Deleting a *Program takes at most two Updated passes per BpfProgram. */
  lemma DeletionMeasure(s: NodeState, c: Ctx, want: set<ObjName>)
    requires c.prog.deleting
    ensures Measure(s, c, want) <= 2 * |Existing(s.objs, c.node, c.prog.name)|
  {
    var existing := Existing(s.objs, c.node, c.prog.name).Keys;
    SubsetCard(Level(s, c, want, 1), existing);
    SubsetCard(Level(s, c, want, 2), existing);
    assert Level(s, c, want, 3) == {} && Level(s, c, want, 4) == {};
  }

  // ----- Whole passes over a list of *Programs -----

  ghost function CtxAt(node: NodeName, progs: seq<ProgObj>, views: map<ProgName, View>, k: nat): Ctx
    requires k < |progs|
  {
    CtxOf(node, progs[k], ViewOf(views, progs[k].name))
  }

  ghost function WantAt(progs: seq<ProgObj>, views: map<ProgName, View>, k: nat): set<ObjName>
    requires k < |progs|
  {
    Want(ViewOf(views, progs[k].name))
  }

  ghost function ExpectsAt(progs: seq<ProgObj>, views: map<ProgName, View>, k: nat): seq<Expected>
    requires k < |progs|
  {
    Expects(ViewOf(views, progs[k].name))
  }

  ghost function MeasureAt(s: NodeState, node: NodeName, progs: seq<ProgObj>, views: map<ProgName, View>, k: nat): nat
    requires k < |progs|
  {
    Measure(s, CtxAt(node, progs, views, k), WantAt(progs, views, k))
  }

  ghost function Sum(xs: seq<nat>): nat {
    if xs == [] then 0 else xs[0] + Sum(xs[1..])
  }

  lemma SumOne(xs: seq<nat>)
    requires |xs| == 1
    ensures Sum(xs) == xs[0]
  {
  }

  lemma {:induction false} SumFalls(xs: seq<nat>, ys: seq<nat>, better: nat)
    requires |xs| == |ys| && better < |xs|
    requires (forall k | 0 <= k < |xs| :: ys[k] <= xs[k]) && ys[better] < xs[better]
    ensures Sum(ys) < Sum(xs)
  {
    if better > 0 { SumFalls(xs[1..], ys[1..], better - 1); } else { SumNoWorse(xs[1..], ys[1..]); }
  }

  lemma {:induction false} SumNoWorse(xs: seq<nat>, ys: seq<nat>)
    requires |xs| == |ys| && forall k | 0 <= k < |xs| :: ys[k] <= xs[k]
    ensures Sum(ys) <= Sum(xs)
  {
    if xs != [] { SumNoWorse(xs[1..], ys[1..]); }
  }

  ghost function Measures(s: NodeState, node: NodeName, progs: seq<ProgObj>, views: map<ProgName, View>): (ms: seq<nat>)
    ensures |ms| == |progs| && forall k | 0 <= k < |progs| :: ms[k] == MeasureAt(s, node, progs, views, k)
  {
    seq(|progs|, k requires 0 <= k < |progs| => MeasureAt(s, node, progs, views, k))
  }

  /** The whole node's distance from the goal. */
  ghost function Distance(s: NodeState, node: NodeName, progs: seq<ProgObj>, views: map<ProgName, View>): nat {
    Sum(Measures(s, node, progs, views))
  }

  ghost predicate AllNoWorse(
    s: NodeState, t: NodeState, node: NodeName, progs: seq<ProgObj>, views: map<ProgName, View>)
  {
    forall k | 0 <= k < |progs| :: NoWorse(s, t, CtxAt(node, progs, views, k), WantAt(progs, views, k))
  }

  ghost predicate SomeBetter(
    s: NodeState, t: NodeState, node: NodeName, progs: seq<ProgObj>, views: map<ProgName, View>)
  {
    exists k :: 0 <= k < |progs| && Better(s, t, CtxAt(node, progs, views, k), WantAt(progs, views, k))
  }

  lemma DistanceFalls(s: NodeState, t: NodeState, node: NodeName, progs: seq<ProgObj>, views: map<ProgName, View>)
    requires AllNoWorse(s, t, node, progs, views) && SomeBetter(s, t, node, progs, views)
    ensures Distance(t, node, progs, views) < Distance(s, node, progs, views)
  {
    var better :| 0 <= better < |progs| &&
      Better(s, t, CtxAt(node, progs, views, better), WantAt(progs, views, better));
    forall k | 0 <= k < |progs|
      ensures MeasureAt(t, node, progs, views, k) <= MeasureAt(s, node, progs, views, k)
    {
      NoWorseMeasure(s, t, CtxAt(node, progs, views, k), WantAt(progs, views, k));
    }
    NoWorseMeasure(s, t, CtxAt(node, progs, views, better), WantAt(progs, views, better));
    SumFalls(Measures(s, node, progs, views), Measures(t, node, progs, views), better);
  }

  /** Every expected BpfProgram of the list that should be loaded echoes or already runs as requested. */
  ghost predicate AllFit(
    s: NodeState, node: NodeName, progs: seq<ProgObj>, views: map<ProgName, View>, f: Oracle)
  {
    forall k | 0 <= k < |progs| :: Fit(s, CtxAt(node, progs, views, k), f, ExpectsAt(progs, views, k))
  }

  ghost predicate AllMisfitsKept(
    s: NodeState, t: NodeState, node: NodeName, progs: seq<ProgObj>, views: map<ProgName, View>, f: Oracle)
  {
    forall k | 0 <= k < |progs| ::
      MisfitsKept(s, t, CtxAt(node, progs, views, k), f, ExpectsAt(progs, views, k))
  }

  lemma AllFitKept(
    s: NodeState, t: NodeState, node: NodeName, progs: seq<ProgObj>, views: map<ProgName, View>, f: Oracle)
    requires AllMisfitsKept(s, t, node, progs, views, f)
    ensures AllFit(s, node, progs, views, f) <==> AllFit(t, node, progs, views, f)
  {
    forall k | 0 <= k < |progs|
      ensures Fit(s, CtxAt(node, progs, views, k), f, ExpectsAt(progs, views, k)) <==>
              Fit(t, CtxAt(node, progs, views, k), f, ExpectsAt(progs, views, k))
    {
      FitKept(s, t, CtxAt(node, progs, views, k), f, ExpectsAt(progs, views, k));
    }
  }

  lemma AllMisfitsTrans(
    s: NodeState, t: NodeState, u: NodeState, node: NodeName, progs: seq<ProgObj>, views: map<ProgName, View>,
    f: Oracle)
    requires AllMisfitsKept(s, t, node, progs, views, f) && AllMisfitsKept(t, u, node, progs, views, f)
    ensures AllMisfitsKept(s, u, node, progs, views, f)
  {
    forall k | 0 <= k < |progs|
      ensures MisfitsKept(s, u, CtxAt(node, progs, views, k), f, ExpectsAt(progs, views, k))
    {
      MisfitsTrans(s, t, u, CtxAt(node, progs, views, k), f, ExpectsAt(progs, views, k));
    }
  }

  ghost predicate AllSettled(s: NodeState, node: NodeName, progs: seq<ProgObj>, views: map<ProgName, View>, upTo: nat)
    requires upTo <= |progs|
  {
    forall k | 0 <= k < upTo :: ProgramSettled(s, CtxAt(node, progs, views, k), WantAt(progs, views, k))
  }

  ghost predicate AllCalm(
    s: NodeState, before: map<Uid, LoadedProg>, node: NodeName, progs: seq<ProgObj>, views: map<ProgName, View>,
    f: Oracle, upTo: nat)
    requires upTo <= |progs|
  {
    forall k | 0 <= k < upTo :: ProgramCalm(s, before, CtxAt(node, progs, views, k), f, WantAt(progs, views, k))
  }

  ghost predicate GoodViews(s: NodeState, node: NodeName, progs: seq<ProgObj>, views: map<ProgName, View>) {
    && (forall k | 0 <= k < |progs| :: GoodView(s, node, progs[k], ViewOf(views, progs[k].name)))
    && (forall j, k | 0 <= j < |progs| && 0 <= k < |progs| && j != k ::
          WantAt(progs, views, j) !! WantAt(progs, views, k))
  }

  /** Nothing done for one *Program shows up in another's distance or goal. */
  lemma OtherProgramUntouched(s: NodeState, t: NodeState, c: Ctx, want: set<ObjName>, c': Ctx, want': set<ObjName>)
    requires Framed(s, t, c, want) && c'.node == c.node && c'.prog.name != c.prog.name
    ensures forall n :: Owned(t.objs, c', n) <==> Owned(s.objs, c', n)
    ensures forall n | Owned(s.objs, c', n) :: n in t.objs &&
              t.objs[n] == s.objs[n] && SameEntry(s.loaded, t.loaded, s.objs[n].uid)
    ensures NoWorse(s, t, c', want')
    ensures Existing(t.objs, c'.node, c'.prog.name) == Existing(s.objs, c'.node, c'.prog.name)
  {
    forall n
      ensures Owned(t.objs, c', n) <==> Owned(s.objs, c', n)
      ensures Owned(s.objs, c', n) ==> t.objs[n] == s.objs[n] && SameEntry(s.loaded, t.loaded, s.objs[n].uid)
      ensures Rank(t, c', want', n) <= Rank(s, c', want', n)
    {
      assert Owned(s.objs, c', n) ==> !Owned(s.objs, c, n);
      assert Owned(t.objs, c', n) ==> !Owned(t.objs, c, n);
    }
  }

  lemma OtherStaysCalm(
    s: NodeState, t: NodeState, before: map<Uid, LoadedProg>, c: Ctx, f: Oracle, expected: seq<Expected>)
    requires forall n :: Owned(t.objs, c, n) <==> Owned(s.objs, c, n)
    requires forall n | Owned(s.objs, c, n) :: n in t.objs &&
               t.objs[n] == s.objs[n] && SameEntry(s.loaded, t.loaded, s.objs[n].uid)
    ensures ProgramCalm(s, before, c, f, Names(expected)) ==> ProgramCalm(t, before, c, f, Names(expected))
    ensures MisfitsKept(s, t, c, f, expected)
  {
    forall i | 0 <= i < |expected| ensures MisfitKept(s, t, c, expected[i]) {
      assert Owned(t.objs, c, expected[i].name) <==> Owned(s.objs, c, expected[i].name);
    }
    if ProgramCalm(s, before, c, f, Names(expected)) && !c.prog.deleting {
      forall n | n in Names(expected) ensures Calm(t.objs[n], before, t.loaded, c, f) {
        assert Owned(s.objs, c, n) && Calm(s.objs[n], before, s.loaded, c, f);
      }
    }
  }

  /** Everything a pass needs to succeed at every call. */
  ghost predicate PassOk(s: NodeState, f: Oracle) {
    !f.listFails && Healthy(f, s.objs.Keys) && KernelIdsFresh(f, s.loaded) && UidFresh(f.newUid, s.objs, s.loaded)
  }

  /** Views that were good stay good: no expected finalizer is lost and no expected name falls to another *Program. */
  lemma GoodViewsKept(
    s: NodeState, t: NodeState, node: NodeName, progs: seq<ProgObj>, views: map<ProgName, View>, i: nat)
    requires i < |progs| && DistinctNames(progs) && GoodViews(s, node, progs, views)
    requires Framed(s, t, CtxAt(node, progs, views, i), WantAt(progs, views, i)) && AllNoWorse(s, t, node, progs, views)
    ensures GoodViews(t, node, progs, views)
  {
    forall k | 0 <= k < |progs|
      ensures GoodView(t, node, progs[k], ViewOf(views, progs[k].name))
    {
      var c, want := CtxAt(node, progs, views, k), WantAt(progs, views, k);
      assert GoodView(s, node, progs[k], ViewOf(views, progs[k].name));
      if !progs[k].deleting {
        forall n | n in want && n in t.objs
          ensures Owned(t.objs, c, n) && t.objs[n].finalizer
        {
          assert WantAt(progs, views, i) !! want || i == k;
          assert n in s.objs ==> Owned(s.objs, c, n);
          assert Rank(t, c, want, n) <= Rank(s, c, want, n) <= 3;
        }
      }
    }
  }

  /** What one *Program's turn leaves for the rest of the pass. */
  lemma OthersFollow(
    s: NodeState, t: NodeState, before: map<Uid, LoadedProg>, node: NodeName, progs: seq<ProgObj>,
    views: map<ProgName, View>, f: Oracle, i: nat)
    requires i < |progs| && DistinctNames(progs) && AllCalm(s, before, node, progs, views, f, i)
    requires Moved(s, t, CtxAt(node, progs, views, i), f, ExpectsAt(progs, views, i))
    ensures AllNoWorse(s, t, node, progs, views) && AllMisfitsKept(s, t, node, progs, views, f)
    ensures AllCalm(t, before, node, progs, views, f, i)
  {
    forall k | 0 <= k < |progs| && k != i
      ensures NoWorse(s, t, CtxAt(node, progs, views, k), WantAt(progs, views, k))
      ensures MisfitsKept(s, t, CtxAt(node, progs, views, k), f, ExpectsAt(progs, views, k))
      ensures k < i ==> ProgramCalm(t, before, CtxAt(node, progs, views, k), f, WantAt(progs, views, k))
    {
      OtherProgramUntouched(s, t, CtxAt(node, progs, views, i), WantAt(progs, views, i),
                            CtxAt(node, progs, views, k), WantAt(progs, views, k));
      OtherStaysCalm(s, t, before, CtxAt(node, progs, views, k), f, ExpectsAt(progs, views, k));
    }
  }

  /** The pass before the i-th *Program of the list. */
  ghost predicate AtProgram(
    s: NodeState, listed: map<Uid, LoadedProg>, node: NodeName, progs: seq<ProgObj>,
    views: map<ProgName, View>, f: Oracle, i: nat)
  {
    && i <= |progs| && DistinctNames(progs) && GoodViews(s, node, progs, views)
    && Inv(s.objs, s.loaded, node) && UidFresh(f.newUid, s.objs, s.loaded) && Healthy(f, s.objs.Keys)
    && Ready(s, listed, f, Unvisited(s.objs, node, progs, i)) && AllCalm(s, listed, node, progs, views, f, i)
  }

  /** One *Program of the list, as part of the whole pass. */
  lemma VisitProgram(
    s: NodeState, listed: map<Uid, LoadedProg>, node: NodeName, progs: seq<ProgObj>,
    views: map<ProgName, View>, f: Oracle, i: nat)
    requires i < |progs| && AtProgram(s, listed, node, progs, views, f, i)
    ensures
      var p := ReconcileProgram(s, listed, node, progs[i], ViewOf(views, progs[i].name), f);
      && ViewOf(views, progs[i].name).View?
      && Progress(s, p, listed, CtxAt(node, progs, views, i), f, ExpectsAt(progs, views, i))
      && Inv(p.s.objs, p.s.loaded, node) && GoodViews(p.s, node, progs, views)
      && AllNoWorse(s, p.s, node, progs, views) && AllMisfitsKept(s, p.s, node, progs, views, f)
      && (p.outcome == Unchanged ==> p.s.objs == s.objs && AtProgram(p.s, listed, node, progs, views, f, i + 1))
  {
    var v := ViewOf(views, progs[i].name);
    var existing := Existing(s.objs, node, progs[i].name);
    var others := Unvisited(s.objs, node, progs, i + 1);
    ReadyForFewer(s, listed, f, Unvisited(s.objs, node, progs, i), existing.Keys);
    ReadyForFewer(s, listed, f, Unvisited(s.objs, node, progs, i), others + existing.Keys);
    assert GoodView(s, node, progs[i], v);
    ReconcileProgramProgress(s, listed, node, progs[i], v, f);
    ReconcileProgramKeepsInv(s, listed, node, progs[i], v, f, others);
    var p := ReconcileProgram(s, listed, node, progs[i], v, f);
    OthersFollow(s, p.s, listed, node, progs, views, f, i);
    GoodViewsKept(s, p.s, node, progs, views, i);
  }

  /** What a pass, or the rest of one, achieves. */
  ghost predicate Achieved(
    s: NodeState, p: Pass, listed: map<Uid, LoadedProg>, node: NodeName, progs: seq<ProgObj>,
    views: map<ProgName, View>, f: Oracle)
  {
    && (p.outcome == Updated || p.outcome == Unchanged)
    && Inv(p.s.objs, p.s.loaded, node) && GoodViews(p.s, node, progs, views)
    && AllNoWorse(s, p.s, node, progs, views) && AllMisfitsKept(s, p.s, node, progs, views, f)
    && (p.outcome == Updated && AllFit(s, node, progs, views, f) ==> SomeBetter(s, p.s, node, progs, views))
    && (p.outcome == Unchanged ==> p.s.objs == s.objs && AllCalm(p.s, listed, node, progs, views, f, |progs|))
  }

  lemma AchievedLater(
    s: NodeState, t: NodeState, p: Pass, listed: map<Uid, LoadedProg>, node: NodeName, progs: seq<ProgObj>,
    views: map<ProgName, View>, f: Oracle)
    requires t.objs == s.objs && AllNoWorse(s, t, node, progs, views)
    requires AllMisfitsKept(s, t, node, progs, views, f) && Achieved(t, p, listed, node, progs, views, f)
    ensures Achieved(s, p, listed, node, progs, views, f)
  {
    AllFitKept(s, t, node, progs, views, f);
    AllMisfitsTrans(s, t, p.s, node, progs, views, f);
    forall k | 0 <= k < |progs|
      ensures NoWorse(s, p.s, CtxAt(node, progs, views, k), WantAt(progs, views, k))
      ensures Better(t, p.s, CtxAt(node, progs, views, k), WantAt(progs, views, k)) ==>
                Better(s, p.s, CtxAt(node, progs, views, k), WantAt(progs, views, k))
    {
      BetterTrans(s, t, p.s, CtxAt(node, progs, views, k), WantAt(progs, views, k));
    }
  }

  lemma {:induction false} ReconcileFromProgress(
    s: NodeState, listed: map<Uid, LoadedProg>, node: NodeName, progs: seq<ProgObj>,
    views: map<ProgName, View>, f: Oracle, i: nat)
    requires AtProgram(s, listed, node, progs, views, f, i)
    ensures Achieved(s, ReconcileFrom(s, listed, node, progs, views, f, i, false), listed, node, progs, views, f)
    decreases |progs| - i
  {
    if i == |progs| {
      NothingDone(s, listed, node, progs, views, f);
    } else {
      VisitProgram(s, listed, node, progs, views, f, i);
      VisitContinues(s, listed, node, progs, views, f, i);
      var p := ReconcileProgram(s, listed, node, progs[i], ViewOf(views, progs[i].name), f);
      if p.outcome == Unchanged {
        ReconcileFromProgress(p.s, listed, node, progs, views, f, i + 1);
        var q := ReconcileFrom(p.s, listed, node, progs, views, f, i + 1, false);
        AchievedLater(s, p.s, q, listed, node, progs, views, f);
      } else {
        UpdatedAchieves(s, p, listed, node, progs, views, f, i);
      }
    }
  }

  /** How the pass goes on after one *Program. */
  lemma VisitContinues(
    s: NodeState, listed: map<Uid, LoadedProg>, node: NodeName, progs: seq<ProgObj>,
    views: map<ProgName, View>, f: Oracle, i: nat)
    requires i < |progs| && ViewOf(views, progs[i].name).View?
    ensures
      var p := ReconcileProgram(s, listed, node, progs[i], ViewOf(views, progs[i].name), f);
      var q := ReconcileFrom(s, listed, node, progs, views, f, i, false);
      && (p.outcome == Unchanged ==> q == ReconcileFrom(p.s, listed, node, progs, views, f, i + 1, false))
      && (p.outcome == Updated ==> q == p)
  {
  }

  lemma NothingDone(
    s: NodeState, listed: map<Uid, LoadedProg>, node: NodeName, progs: seq<ProgObj>, views: map<ProgName, View>,
    f: Oracle)
    requires Inv(s.objs, s.loaded, node) && GoodViews(s, node, progs, views)
    requires AllCalm(s, listed, node, progs, views, f, |progs|)
    ensures Achieved(s, Pass(s, Unchanged), listed, node, progs, views, f)
  {
  }

  /** The *Program that was updated ends the pass. */
  lemma UpdatedAchieves(
    s: NodeState, p: Pass, listed: map<Uid, LoadedProg>, node: NodeName, progs: seq<ProgObj>,
    views: map<ProgName, View>, f: Oracle, i: nat)
    requires i < |progs| && p.outcome == Updated
    requires Progress(s, p, listed, CtxAt(node, progs, views, i), f, ExpectsAt(progs, views, i))
    requires Inv(p.s.objs, p.s.loaded, node) && GoodViews(p.s, node, progs, views)
    requires AllNoWorse(s, p.s, node, progs, views) && AllMisfitsKept(s, p.s, node, progs, views, f)
    ensures Achieved(s, p, listed, node, progs, views, f)
  {
    if AllFit(s, node, progs, views, f) {
      assert Fit(s, CtxAt(node, progs, views, i), f, ExpectsAt(progs, views, i));
      assert Better(s, p.s, CtxAt(node, progs, views, i), WantAt(progs, views, i));
    }
  }

  ghost predicate Progressed(
    s: NodeState, p: Pass, node: NodeName, progs: seq<ProgObj>, views: map<ProgName, View>, f: Oracle)
  {
    && Inv(p.s.objs, p.s.loaded, node) && GoodViews(p.s, node, progs, views)
    && AllMisfitsKept(s, p.s, node, progs, views, f)
    && (AllFit(s, node, progs, views, f) <==> AllFit(p.s, node, progs, views, f))
    && (|| (&& p.outcome == Updated
            && (AllFit(s, node, progs, views, f) ==>
                  Distance(p.s, node, progs, views) < Distance(s, node, progs, views)))
        || (&& p.outcome == Unchanged && p.s.objs == s.objs
            && AllCalm(p.s, s.loaded, node, progs, views, f, |progs|)))
  }

  /**
   With every call succeeding, a pass reports Updated or Unchanged. An Updated pass makes the node's distance from the
   goal fall strictly if every expected BpfProgram that should be loaded echoes or already runs as requested; whether
   that is so, no pass changes. An Unchanged pass wrote nothing, and everything is as asked for but for programs just
   loaded, to no avail, under the ID that their annotation had before.
   */
  lemma PassProgress(s: NodeState, node: NodeName, progs: seq<ProgObj>, views: map<ProgName, View>, f: Oracle)
    requires DistinctNames(progs) && GoodViews(s, node, progs, views)
    requires Inv(s.objs, s.loaded, node) && PassOk(s, f)
    ensures Progressed(s, ReconcileCommon(s, node, progs, views, f), node, progs, views, f)
  {
    ReconcileFromProgress(s, s.loaded, node, progs, views, f, 0);
    var p := ReconcileCommon(s, node, progs, views, f);
    AllFitKept(s, p.s, node, progs, views, f);
    if p.outcome == Updated && AllFit(s, node, progs, views, f) { DistanceFalls(s, p.s, node, progs, views); }
  }

  /** No program was loaded under the ID that its BpfProgram's annotation already had. */
  ghost predicate NoCoincidence(
    s: NodeState, before: map<Uid, LoadedProg>, node: NodeName, progs: seq<ProgObj>, views: map<ProgName, View>,
    f: Oracle)
  {
    forall k, n | 0 <= k < |progs| && !progs[k].deleting && n in WantAt(progs, views, k) && n in s.objs ::
      !Coincides(s.objs[n], before, s.loaded, CtxAt(node, progs, views, k), f)
  }

  lemma CalmIsSettled(
    s: NodeState, before: map<Uid, LoadedProg>, node: NodeName, progs: seq<ProgObj>, views: map<ProgName, View>,
    f: Oracle)
    requires AllCalm(s, before, node, progs, views, f, |progs|) && NoCoincidence(s, before, node, progs, views, f)
    ensures AllSettled(s, node, progs, views, |progs|)
  {
    forall k | 0 <= k < |progs|
      ensures ProgramSettled(s, CtxAt(node, progs, views, k), WantAt(progs, views, k))
    {
      var c, want := CtxAt(node, progs, views, k), WantAt(progs, views, k);
      assert ProgramCalm(s, before, c, f, want);
      if !c.prog.deleting {
        forall n | n in want ensures Settled(s.objs[n], s.loaded, c) { assert Owned(s.objs, c, n); }
      }
    }
  }

  /** A program loaded to no avail is a misfit. */
  lemma FitMeansNoCoincidence(
    s: NodeState, before: map<Uid, LoadedProg>, node: NodeName, progs: seq<ProgObj>, views: map<ProgName, View>,
    f: Oracle)
    requires AllFit(s, node, progs, views, f) && AllCalm(s, before, node, progs, views, f, |progs|)
    ensures NoCoincidence(s, before, node, progs, views, f)
  {
    forall k, n | 0 <= k < |progs| && !progs[k].deleting && n in WantAt(progs, views, k) && n in s.objs
      ensures !Coincides(s.objs[n], before, s.loaded, CtxAt(node, progs, views, k), f)
    {
      var c, expected := CtxAt(node, progs, views, k), ExpectsAt(progs, views, k);
      assert Fit(s, c, f, expected) && ProgramCalm(s, before, c, f, Names(expected));
      var i :| 0 <= i < |expected| && expected[i].name == n;
      assert Owned(s.objs, c, n);
      assert !Echoes(f, c.prog.spec) ==> !Misfit(s, c, expected[i]);
    }
  }

  /** The progress of a pass when nothing stands in the way. */
  lemma FitPass(s: NodeState, node: NodeName, progs: seq<ProgObj>, views: map<ProgName, View>, f: Oracle)
    requires DistinctNames(progs) && GoodViews(s, node, progs, views)
    requires Inv(s.objs, s.loaded, node) && PassOk(s, f) && AllFit(s, node, progs, views, f)
    ensures
      var p := ReconcileCommon(s, node, progs, views, f);
      && Inv(p.s.objs, p.s.loaded, node) && GoodViews(p.s, node, progs, views) && AllFit(p.s, node, progs, views, f)
      && (|| (p.outcome == Updated && Distance(p.s, node, progs, views) < Distance(s, node, progs, views))
          || (p.outcome == Unchanged && p.s.objs == s.objs && AllSettled(p.s, node, progs, views, |progs|)))
  {
    PassProgress(s, node, progs, views, f);
    FitProgressed(s, ReconcileCommon(s, node, progs, views, f), node, progs, views, f);
  }

  lemma FitProgressed(
    s: NodeState, p: Pass, node: NodeName, progs: seq<ProgObj>, views: map<ProgName, View>, f: Oracle)
    requires Progressed(s, p, node, progs, views, f) && AllFit(s, node, progs, views, f)
    ensures AllFit(p.s, node, progs, views, f)
    ensures p.outcome == Unchanged ==> AllSettled(p.s, node, progs, views, |progs|)
  {
    if p.outcome == Unchanged {
      FitMeansNoCoincidence(p.s, s.loaded, node, progs, views, f);
      CalmIsSettled(p.s, s.loaded, node, progs, views, f);
    }
  }

  /** A settled node has no misfits. */
  lemma SettledFits(s: NodeState, node: NodeName, progs: seq<ProgObj>, views: map<ProgName, View>, f: Oracle)
    requires AllSettled(s, node, progs, views, |progs|)
    ensures AllFit(s, node, progs, views, f)
  {
    forall k, i | 0 <= k < |progs| && 0 <= i < |ExpectsAt(progs, views, k)|
      ensures !Misfit(s, CtxAt(node, progs, views, k), ExpectsAt(progs, views, k)[i])
    {
      var c, expected := CtxAt(node, progs, views, k), ExpectsAt(progs, views, k);
      assert ProgramSettled(s, c, Names(expected)) && expected[i].name in Names(expected);
    }
  }

  // ----- Runs of passes -----

  /** Pass number k of a run from `s`; `pass` is what one pass does. */
  ghost function Nth(pass: (NodeState, Oracle) -> Pass, s: NodeState, fs: seq<Oracle>, k: nat): Pass
    requires k < |fs|
    decreases k
  {
    if k == 0 then pass(s, fs[0]) else Nth(pass, pass(s, fs[0]).s, fs[1..], k - 1)
  }

  /** `ok` holds at every pass of the run. */
  ghost predicate Along(
    pass: (NodeState, Oracle) -> Pass, ok: (NodeState, Oracle) -> bool, s: NodeState, fs: seq<Oracle>)
    decreases |fs|
  {
    fs == [] || (ok(s, fs[0]) && Along(pass, ok, pass(s, fs[0]).s, fs[1..]))
  }

  /** What every pass keeps holds at every pass of a run. */
  lemma {:induction false} KeptAlong(
    pass: (NodeState, Oracle) -> Pass, ok: (NodeState, Oracle) -> bool, inv: NodeState -> bool,
    s: NodeState, fs: seq<Oracle>, k: nat) returns (t: NodeState)
    requires k < |fs| && inv(s) && Along(pass, ok, s, fs)
    requires forall t, f | inv(t) && ok(t, f) && f in fs :: inv(pass(t, f).s)
    ensures inv(t) && ok(t, fs[k]) && Nth(pass, s, fs, k) == pass(t, fs[k])
    decreases k
  {
    if k == 0 {
      t := s;
    } else {
      assert fs[0] in fs;
      t := KeptAlong(pass, ok, inv, pass(s, fs[0]).s, fs[1..], k - 1);
    }
  }

  /** A measure that every pass but an Unchanged one lowers bounds the number of passes before an Unchanged one. */
  lemma {:induction false} Descends(
    pass: (NodeState, Oracle) -> Pass, ok: (NodeState, Oracle) -> bool, inv: NodeState -> bool,
    measure: NodeState -> nat, s: NodeState, fs: seq<Oracle>) returns (k: nat, t: NodeState)
    requires inv(s) && Along(pass, ok, s, fs) && measure(s) < |fs|
    requires forall t, f | inv(t) && ok(t, f) && f in fs && pass(t, f).outcome != Unchanged ::
               inv(pass(t, f).s) && measure(pass(t, f).s) < measure(t)
    ensures k <= measure(s) && inv(t) && ok(t, fs[k])
    ensures Nth(pass, s, fs, k) == pass(t, fs[k]) && pass(t, fs[k]).outcome == Unchanged
    decreases |fs|
  {
    assert fs[0] in fs;
    if pass(s, fs[0]).outcome == Unchanged {
      k, t := 0, s;
    } else {
      k, t := Descends(pass, ok, inv, measure, pass(s, fs[0]).s, fs[1..]);
      k := k + 1;
    }
  }

  ghost function PassesOver(node: NodeName, progs: seq<ProgObj>, views: map<ProgName, View>):
    (NodeState, Oracle) -> Pass
  {
    (s, f) => ReconcileCommon(s, node, progs, views, f)
  }

  ghost const SUCCEEDS: (NodeState, Oracle) -> bool := (s, f) => PassOk(s, f)

  /** Every call of every pass succeeds. */
  ghost predicate AllPassesOk(
    s: NodeState, node: NodeName, progs: seq<ProgObj>, views: map<ProgName, View>, fs: seq<Oracle>)
  {
    Along(PassesOver(node, progs, views), SUCCEEDS, s, fs)
  }

  /** Whether a spec echoes does not change during the run. */
  ghost predicate OneListing(progs: seq<ProgObj>, fs: seq<Oracle>) {
    forall i, k | 0 <= i < |progs| && !progs[i].deleting && 0 <= k < |fs| ::
      Echoes(fs[k], progs[i].spec) <==> Echoes(fs[0], progs[i].spec)
  }

  lemma SameListing(
    s: NodeState, node: NodeName, progs: seq<ProgObj>, views: map<ProgName, View>, fs: seq<Oracle>, f: Oracle)
    requires OneListing(progs, fs) && f in fs
    ensures AllFit(s, node, progs, views, f) <==> AllFit(s, node, progs, views, fs[0])
  {
    forall k | 0 <= k < |progs|
      ensures Fit(s, CtxAt(node, progs, views, k), f, ExpectsAt(progs, views, k)) <==>
              Fit(s, CtxAt(node, progs, views, k), fs[0], ExpectsAt(progs, views, k))
    {
      assert !progs[k].deleting ==> (Echoes(f, progs[k].spec) <==> Echoes(fs[0], progs[k].spec));
    }
  }

  /** In the run of passes `fs` from `s`, pass number k reports Unchanged and finds every *Program satisfied. */
  ghost predicate SettlesAt(
    s: NodeState, node: NodeName, progs: seq<ProgObj>, views: map<ProgName, View>, fs: seq<Oracle>, k: nat)
    requires k < |fs|
  {
    var p := Nth(PassesOver(node, progs, views), s, fs, k);
    p.outcome == Unchanged && AllSettled(p.s, node, progs, views, |progs|)
  }

  /** A state from which passes go on: nothing is lost, and the views fit the objects. */
  ghost predicate GoodState(s: NodeState, node: NodeName, progs: seq<ProgObj>, views: map<ProgName, View>) {
    DistinctNames(progs) && GoodViews(s, node, progs, views) && Inv(s.objs, s.loaded, node)
  }

  /**
   Convergence: if every expected BpfProgram that should be loaded echoes or already runs as requested, then in every
   run of more passes than the initial distance one of the first Distance(s)+1 reports Unchanged, and then every
   BpfProgram on the node is as its *Program asks.
   */
  lemma Converges(
    s: NodeState, node: NodeName, progs: seq<ProgObj>, views: map<ProgName, View>, fs: seq<Oracle>) returns (k: nat)
    requires GoodState(s, node, progs, views)
    requires AllPassesOk(s, node, progs, views, fs) && Distance(s, node, progs, views) < |fs|
    requires OneListing(progs, fs) && AllFit(s, node, progs, views, fs[0])
    ensures k <= Distance(s, node, progs, views) && SettlesAt(s, node, progs, views, fs, k)
  {
    var pass, ok := PassesOver(node, progs, views), SUCCEEDS;
    var inv := (t: NodeState) => GoodState(t, node, progs, views) && AllFit(t, node, progs, views, fs[0]);
    var measure := (t: NodeState) => Distance(t, node, progs, views);
    forall t, f | inv(t) && ok(t, f) && f in fs
      ensures FitStep(t, pass(t, f), node, progs, views, fs[0])
    {
      ConvergeStep(t, node, progs, views, fs, f);
    }
    var t;
    k, t := Descends(pass, ok, inv, measure, s, fs);
    ConvergeStep(t, node, progs, views, fs, fs[k]);
  }

  /** What one pass does when nothing stands in the way. */
  ghost predicate FitStep(
    s: NodeState, p: Pass, node: NodeName, progs: seq<ProgObj>, views: map<ProgName, View>, f: Oracle)
  {
    && GoodState(p.s, node, progs, views) && AllFit(p.s, node, progs, views, f)
    && (p.outcome != Unchanged ==> Distance(p.s, node, progs, views) < Distance(s, node, progs, views))
    && (p.outcome == Unchanged ==> AllSettled(p.s, node, progs, views, |progs|))
  }

  lemma ConvergeStep(
    s: NodeState, node: NodeName, progs: seq<ProgObj>, views: map<ProgName, View>, fs: seq<Oracle>, f: Oracle)
    requires GoodState(s, node, progs, views) && PassOk(s, f) && f in fs
    requires OneListing(progs, fs) && AllFit(s, node, progs, views, fs[0])
    ensures FitStep(s, ReconcileCommon(s, node, progs, views, f), node, progs, views, fs[0])
  {
    var p := ReconcileCommon(s, node, progs, views, f);
    SameListing(s, node, progs, views, fs, f);
    FitPass(s, node, progs, views, f);
    SameListing(p.s, node, progs, views, fs, f);
  }

  /**
   Deletion convergence: while one *Program is being deleted, whatever the iteration orders, at most two Updated
   passes per BpfProgram come before an Unchanged one, and then none is loaded or has the finalizer and all say
   Unloaded.
   */
  lemma DeletionConverges(s: NodeState, node: NodeName, prog: ProgObj, views: map<ProgName, View>, fs: seq<Oracle>)
    returns (k: nat)
    requires prog.deleting && ViewOf(views, prog.name).View? && Inv(s.objs, s.loaded, node)
    requires AllPassesOk(s, node, [prog], views, fs) && 2 * |Existing(s.objs, node, prog.name)| < |fs|
    ensures k <= 2 * |Existing(s.objs, node, prog.name)| && SettlesAt(s, node, [prog], views, fs, k)
  {
    DeletionDistance(s, node, prog, views);
    k := Converges(s, node, [prog], views, fs);
  }

  lemma DeletionDistance(s: NodeState, node: NodeName, prog: ProgObj, views: map<ProgName, View>)
    requires prog.deleting
    ensures Distance(s, node, [prog], views) <= 2 * |Existing(s.objs, node, prog.name)|
  {
    DeletionMeasure(s, CtxAt(node, [prog], views, 0), WantAt([prog], views, 0));
    SumOne(Measures(s, node, [prog], views));
  }

  // ----- The goal is stable -----

  lemma SettledMeasure(s: NodeState, node: NodeName, prog: ProgObj, v: View)
    requires GoodView(s, node, prog, v) && ProgramSettled(s, CtxOf(node, prog, v), Want(v))
    ensures Measure(s, CtxOf(node, prog, v), Want(v)) == 0
  {
    var c, want := CtxOf(node, prog, v), Want(v);
    forall n
      ensures Rank(s, c, want, n) == 0
    {
      assert Owned(s.objs, c, n) <==> n in Existing(s.objs, node, prog.name);
    }
    assert forall k | 0 < k :: Level(s, c, want, k) == {};
  }

  lemma {:induction false} SumZero(xs: seq<nat>)
    requires forall k | 0 <= k < |xs| :: xs[k] == 0
    ensures Sum(xs) == 0
  {
    if xs != [] { SumZero(xs[1..]); }
  }

  /**
   Once every *Program is satisfied, every further pass with succeeding calls reports Unchanged and writes nothing.
   */
  lemma SettledStaysUnchanged(
    s: NodeState, node: NodeName, progs: seq<ProgObj>, views: map<ProgName, View>, f: Oracle)
    requires DistinctNames(progs) && GoodViews(s, node, progs, views)
    requires Inv(s.objs, s.loaded, node) && PassOk(s, f) && AllSettled(s, node, progs, views, |progs|)
    ensures
      var p := ReconcileCommon(s, node, progs, views, f);
      p.outcome == Unchanged && p.s.objs == s.objs && AllSettled(p.s, node, progs, views, |progs|)
  {
    forall k | 0 <= k < |progs|
      ensures MeasureAt(s, node, progs, views, k) == 0
    {
      assert ProgramSettled(s, CtxAt(node, progs, views, k), WantAt(progs, views, k));
      SettledMeasure(s, node, progs[k], ViewOf(views, progs[k].name));
    }
    SumZero(Measures(s, node, progs, views));
    SettledFits(s, node, progs, views, f);
    FitPass(s, node, progs, views, f);
  }
}
