/**
 What a pass reports, whatever fails: when it asks to be run again, when it crashes, and what a settled BpfProgram is in
 terms of its *Program's fields.
 */
module AgentOutcomes {
  import opened Wrappers
  import opened AgentModel
  import opened AgentWrites
  import opened AgentSafety
  import opened AgentConvergence
  import opened AgentFrame
  import opened AgentTruth

  // ----- The outcome of a pass -----

  /**
   How the *Programs' turns ended, in order. A *Program that cannot be set ends the pass with the wish for another;
   so does an update or a crash.
   */
  ghost function Turns(
    s: NodeState, listed: map<Uid, LoadedProg>, node: NodeName, progs: seq<ProgObj>, views: map<ProgName, View>,
    f: Oracle, i: nat): seq<Outcome>
    requires i <= |progs|
    decreases |progs| - i
  {
    if i == |progs| then []
    else if ViewOf(views, progs[i].name).CannotSet? then [Requeue]
    else
      var p := Turn(s, listed, node, progs, views, f, i);
      [p.outcome] +
      if p.outcome == Updated || p.outcome == Crashed then []
      else Turns(p.s, listed, node, progs, views, f, i + 1)
  }

  ghost predicate AllUnchanged(turns: seq<Outcome>) {
    forall k | 0 <= k < |turns| :: turns[k] == Unchanged
  }

  /** The pass's outcome from those of its turns. */
  ghost predicate Sums(turns: seq<Outcome>, requeue: bool, outcome: Outcome) {
    && (outcome == Updated <==> turns != [] && turns[|turns| - 1] == Updated)
    && (outcome == Crashed <==> turns != [] && turns[|turns| - 1] == Crashed)
    && (outcome == Unchanged <==> !requeue && AllUnchanged(turns))
  }

  lemma {:induction false} TurnsSum(
    s: NodeState, listed: map<Uid, LoadedProg>, node: NodeName, progs: seq<ProgObj>, views: map<ProgName, View>,
    f: Oracle, i: nat, requeue: bool)
    requires i <= |progs|
    ensures
      Sums(Turns(s, listed, node, progs, views, f, i), requeue,
           ReconcileFrom(s, listed, node, progs, views, f, i, requeue).outcome)
    decreases |progs| - i
  {
    if i < |progs| && !ViewOf(views, progs[i].name).CannotSet? {
      var p := Turn(s, listed, node, progs, views, f, i);
      if p.outcome == Unchanged || p.outcome == Requeue {
        var requeue' := requeue || p.outcome == Requeue;
        TurnsSum(p.s, listed, node, progs, views, f, i + 1, requeue');
        var rest := Turns(p.s, listed, node, progs, views, f, i + 1);
        PrependSums(p.outcome, rest, requeue,
            ReconcileFrom(p.s, listed, node, progs, views, f, i + 1, requeue').outcome);
      }
    }
  }

  lemma PrependSums(first: Outcome, rest: seq<Outcome>, requeue: bool, outcome: Outcome)
    requires first == Unchanged || first == Requeue
    requires Sums(rest, requeue || first == Requeue, outcome)
    ensures Sums([first] + rest, requeue, outcome)
  {
    var turns := [first] + rest;
    assert rest != [] ==> turns[|turns| - 1] == rest[|rest| - 1];
    assert forall k | 0 <= k < |rest| :: turns[k + 1] == rest[k];
    assert turns[0] == first;
  }

  /** Without something to read there is nothing to do but to ask for another pass. */
  lemma UnreadableRequeues(
    s: NodeState, listed: map<Uid, LoadedProg>, node: NodeName, progs: seq<ProgObj>, views: map<ProgName, View>,
    f: Oracle, i: nat)
    requires i < |progs|
    ensures
      var v := ViewOf(views, progs[i].name);
      !v.View? || (!progs[i].deleting && v.expected.None?) ==>
        Turn(s, listed, node, progs, views, f, i) == Pass(s, Requeue)
  {
  }

  /** A pass that has something readable for each *Program from the i-th on. */
  ghost predicate AllReadable(progs: seq<ProgObj>, views: map<ProgName, View>, i: nat) {
    forall k | i <= k < |progs| ::
      ViewOf(views, progs[k].name).View? && (progs[k].deleting || ViewOf(views, progs[k].name).expected.Some?)
  }

  lemma FirstUnchanged(first: Outcome, rest: seq<Outcome>)
    requires AllUnchanged([first] + rest)
    ensures first == Unchanged && AllUnchanged(rest)
  {
    var turns := [first] + rest;
    assert turns[0] == first;
    forall k | 0 <= k < |rest| ensures rest[k] == Unchanged { assert turns[k + 1] == rest[k]; }
  }

  /** The first turn and the others. */
  lemma TurnsSplit(
    s: NodeState, listed: map<Uid, LoadedProg>, node: NodeName, progs: seq<ProgObj>, views: map<ProgName, View>,
    f: Oracle, i: nat)
    requires i < |progs| && AllUnchanged(Turns(s, listed, node, progs, views, f, i))
    ensures
      var p := Turn(s, listed, node, progs, views, f, i);
      var rest := Turns(p.s, listed, node, progs, views, f, i + 1);
      && p.outcome == Unchanged && AllUnchanged(rest)
      && |Turns(s, listed, node, progs, views, f, i)| == 1 + |rest|
  {
    var p := Turn(s, listed, node, progs, views, f, i);
    if ViewOf(views, progs[i].name).CannotSet? {
      FirstUnchanged(Requeue, []);
    } else if p.outcome == Updated || p.outcome == Crashed {
      FirstUnchanged(p.outcome, []);
    } else {
      FirstUnchanged(p.outcome, Turns(p.s, listed, node, progs, views, f, i + 1));
    }
  }

  lemma {:induction false} UnchangedTurns(
    s: NodeState, listed: map<Uid, LoadedProg>, node: NodeName, progs: seq<ProgObj>, views: map<ProgName, View>,
    f: Oracle, i: nat)
    requires i <= |progs| && AllUnchanged(Turns(s, listed, node, progs, views, f, i))
    ensures |Turns(s, listed, node, progs, views, f, i)| == |progs| - i && AllReadable(progs, views, i)
    decreases |progs| - i
  {
    if i < |progs| {
      TurnsSplit(s, listed, node, progs, views, f, i);
      UnreadableRequeues(s, listed, node, progs, views, f, i);
      UnchangedTurns(Turn(s, listed, node, progs, views, f, i).s, listed, node, progs, views, f, i + 1);
    }
  }

  /**
   Whatever fails: a pass reports Updated or Crashed if and only if its last turn did, and Unchanged if and only if
   bpfman's list succeeded and every *Program's turn ended Unchanged; then every one had a turn and could be read.
   In all other cases it asks to be run again.
   */
  lemma OutcomeExactly(s: NodeState, node: NodeName, progs: seq<ProgObj>, views: map<ProgName, View>, f: Oracle)
    ensures
      var outcome := ReconcileCommon(s, node, progs, views, f).outcome;
      var turns := Turns(s, s.loaded, node, progs, views, f, 0);
      && (outcome == Updated <==> !f.listFails && turns != [] && turns[|turns| - 1] == Updated)
      && (outcome == Crashed <==> !f.listFails && turns != [] && turns[|turns| - 1] == Crashed)
      && (outcome == Unchanged <==> !f.listFails && AllUnchanged(turns))
      && (outcome == Unchanged ==> |turns| == |progs| && AllReadable(progs, views, 0))
  {
    TurnsSum(s, s.loaded, node, progs, views, f, 0, false);
    var turns := Turns(s, s.loaded, node, progs, views, f, 0);
    if AllUnchanged(turns) {
      UnchangedTurns(s, s.loaded, node, progs, views, f, 0);
    }
  }

  // ----- When a visit crashes -----

  /** The program is not loaded, and loading it fails: progId is then nil, without an error. */
  ghost predicate FirstLoadFails(s: NodeState, o: BpfObj, c: Ctx, f: Oracle) {
    && o.uid !in s.loaded && Wanted(c, o, false) && OwnerReady(c.mapOwner)
    && o.name !in f.requestFails && o.name !in f.loads
  }

  /** The program should go or change and cannot be unloaded, while progId is nil from before. */
  ghost predicate UnloadFailsUnset(s: NodeState, o: BpfObj, c: Ctx, f: Oracle) {
    && o.uid in s.loaded && o.name in f.unloadFails && s.progId.None?
    && (Wanted(c, o, false) && OwnerReady(c.mapOwner) ==>
          o.name !in f.requestFails && !AsAsked(s.loaded[o.uid].request, c, o))
  }

  /**
   A visit dereferences a nil progId if and only if the BpfProgram has an ID annotation that parses and its first load
   fails, or it cannot be unloaded while progId is still unset. A visit that deletes never crashes.
   */
  lemma CrashesExactly(s: NodeState, listed: map<Uid, LoadedProg>, o: BpfObj, c: Ctx, f: Oracle)
    requires Named(s, o) && NewId(s, o, f) && SameEntry(listed, s.loaded, o.uid) && !c.prog.deleting
    ensures
      var r := UpdateOne(s, listed, o, c, f);
      r.Exit? && r.outcome == Crashed <==>
        o.id.Some? && o.name !in f.badIds && (FirstLoadFails(s, o, c, f) || UnloadFailsUnset(s, o, c, f))
    ensures var r := DeleteOne(s, listed, o, c, f); r.Exit? ==> r.outcome != Crashed
  {
    var r := ReconcileBpf(s, listed, o, c, false, f);
    ReconcileTruth(s, listed, o, c, false, f);
    ReconcileTruth(s, listed, o, c, true, f);
    assert Says(r.cond, s.loaded, r.s.loaded, o, c, false, f);
    CrashCondition(s, r, o, c, f);
  }

  lemma CrashCondition(s: NodeState, r: Reconciled, o: BpfObj, c: Ctx, f: Oracle)
    requires Truthful(s, r, o, c, false, f) && Says(r.cond, s.loaded, r.s.loaded, o, c, false, f) && NewId(s, o, f)
    ensures
      var t := AfterReconcile(r, o, f);
      t.Exit? && t.outcome == Crashed <==>
        && o.id.Some? && o.name !in f.badIds && r.s.progId.None?
        && (r.cond == NotUnloaded || (r.cond == NotLoaded && o.uid !in s.loaded))
  {
  }

  // ----- What a visit writes and reports -----

  /** The annotation is looked at: the reconcile had no error and did not find a reason for the program not to run. */
  ghost predicate LooksAtId(r: Reconciled)
    requires r.Reconciled?
  {
    r.ok && (r.cond == Loaded || r.cond == NotLoaded || r.cond == NotUnloaded)
  }

  /** After the reconcile `r`, the annotation has to be written. */
  ghost predicate IdBehind(r: Reconciled, o: BpfObj)
    requires r.Reconciled?
  {
    LooksAtId(r) && o.id != r.s.progId
  }

  /** What becomes of the object: its ID annotation first, its one condition next, and neither if the write fails. */
  ghost function Written(r: Reconciled, o: BpfObj, f: Oracle): BpfObj
    requires r.Reconciled?
  {
    if o.name in f.writeFails || (LooksAtId(r) && o.name in f.badIds) then o
    else if IdBehind(r, o) then (if r.s.progId.Some? then o.(id := r.s.progId) else o)
    else o.(conds := [r.cond])
  }

  /**
   A visit to an expected BpfProgram: exactly when it goes on, asks for another pass, crashes or reports Updated, and
   what it writes.
   */
  lemma UpdateReports(s: NodeState, listed: map<Uid, LoadedProg>, o: BpfObj, c: Ctx, f: Oracle)
    requires Named(s, o) && NewId(s, o, f) && SameEntry(listed, s.loaded, o.uid) && !c.prog.deleting
    requires o.name in s.objs && s.objs[o.name] == o
    ensures
      var r, t := ReconcileBpf(s, listed, o, c, false, f), UpdateOne(s, listed, o, c, f);
      && r.Reconciled?
      && t.s.objs == s.objs[o.name := Written(r, o, f)] && t.s.loaded == r.s.loaded
      && (t.Next? <==> o.conds == [r.cond] && (LooksAtId(r) ==> o.name !in f.badIds && o.id == r.s.progId))
      && (t.Exit? && t.outcome == Requeue <==>
            LooksAtId(r) &&
            (o.name in f.badIds || (o.id != r.s.progId && r.s.progId.Some? && o.name in f.writeFails)))
      && (t.Exit? ==> t.outcome == Requeue || t.outcome == Crashed || t.outcome == Updated)
  {
    var r := ReconcileBpf(s, listed, o, c, false, f);
    ReconcileTruth(s, listed, o, c, false, f);
    assert Says(r.cond, s.loaded, r.s.loaded, o, c, false, f);
    assert s.objs[o.name := o] == s.objs;
    AfterReports(r, o, f);
  }

  lemma AfterReports(r: Reconciled, o: BpfObj, f: Oracle)
    requires r.Reconciled? && o.name in r.s.objs && r.s.objs[o.name] == o && r.cond != Unloaded
    requires r.cond == BytecodeSelectorError ==> !r.ok
    ensures
      var t := AfterReconcile(r, o, f);
      && t.s.objs == r.s.objs[o.name := Written(r, o, f)] && t.s.loaded == r.s.loaded
      && (t.Next? <==> o.conds == [r.cond] && (LooksAtId(r) ==> o.name !in f.badIds && o.id == r.s.progId))
      && (t.Exit? && t.outcome == Requeue <==>
            LooksAtId(r) &&
            (o.name in f.badIds || (o.id != r.s.progId && r.s.progId.Some? && o.name in f.writeFails)))
      && (t.Exit? ==> t.outcome == Requeue || t.outcome == Crashed || t.outcome == Updated)
  {
    assert r.s.objs[o.name := o] == r.s.objs;
    assert o.conds == [r.cond] ==> o.(conds := [r.cond]) == o;
  }

  /** What a deletion visit makes of the objects. */
  ghost predicate Removes(s: NodeState, t: NodeState, o: BpfObj, cond: Cond, deleting: bool, f: Oracle) {
    if o.name in f.writeFails then t.objs == s.objs
    else if o.finalizer && o.terminating then t.objs == s.objs - {o.name}
    else if o.finalizer then t.objs == s.objs[o.name := o.(finalizer := false)]
    else if deleting then t.objs == s.objs[o.name := o.(conds := [cond])]
    else t.objs == s.objs - {o.name}
  }

  /**
   A deletion visit takes the finalizer away if it is there. After that it sets the condition if the *Program is being
   deleted, and deletes the object if it is not; only a deletion that fails asks for another pass.
   */
  lemma DeleteReports(s: NodeState, listed: map<Uid, LoadedProg>, o: BpfObj, c: Ctx, f: Oracle)
    requires Named(s, o) && NewId(s, o, f) && SameEntry(listed, s.loaded, o.uid)
    requires o.name in s.objs && s.objs[o.name] == o
    ensures
      var r, t := ReconcileBpf(s, listed, o, c, true, f), DeleteOne(s, listed, o, c, f);
      && r.Reconciled? && t.s.loaded == r.s.loaded && Removes(s, t.s, o, r.cond, c.prog.deleting, f)
      && (t.Next? <==> !o.finalizer && c.prog.deleting && o.conds == [r.cond])
      && (t.Exit? ==>
            t.outcome == if !o.finalizer && !c.prog.deleting && o.name in f.writeFails then Requeue else Updated)
  {
    ReconcileTruth(s, listed, o, c, true, f);
    assert s.objs[o.name := o] == s.objs;
  }

  /** An expected BpfProgram that is missing is created as expected, with finalizer; a failure asks for another pass. */
  lemma CreateReports(s: NodeState, e: Expected, c: Ctx, f: Oracle)
    ensures
      var t, fails := Create(s, e, c, f), e.name in f.writeFails || e.name in s.objs;
      && t.Exit? && t.outcome == (if fails then Requeue else Updated) && t.s.loaded == s.loaded
      && (fails ==> t.s.objs == s.objs)
      && (!fails ==>
            && e.name in t.s.objs && t.s.objs == s.objs[e.name := t.s.objs[e.name]]
            && var o := t.s.objs[e.name];
               && o.name == e.name && o.uid == f.newUid && o.owner == c.prog.name && o.node == c.node
               && o.attach == e.attach && o.noContainers == e.noContainers
               && o.finalizer && !o.terminating && o.id.None? && o.conds == [])
  {
  }

  // ----- What settled means -----

  /** The condition that tells why a BpfProgram does not run. */
  ghost predicate Reason(cond: Cond, o: BpfObj, c: Ctx) {
    if !c.selected then cond == NotSelected
    else if o.noContainers then cond == NoContainersOnNode
    else if !c.mapOwner.isFound then cond == MapOwnerNotFound
    else cond == MapOwnerNotLoaded
  }

  /**
   A settled BpfProgram runs with exactly what its *Program's fields ask for now, or does not run for the reason its
   one condition gives.
   */
  lemma SettledMeans(o: BpfObj, loaded: map<Uid, LoadedProg>, c: Ctx)
    ensures Settled(o, loaded, c) <==>
            if Wanted(c, o, false) && OwnerReady(c.mapOwner)
            then && o.uid in loaded && AsAsked(loaded[o.uid].request, c, o)
                 && o.id == Some(loaded[o.uid].id) && o.conds == [Loaded]
            else o.uid !in loaded && |o.conds| == 1 && Reason(o.conds[0], o, c)
  {
    if o.uid in loaded { ComparesWhatIsAsked(loaded[o.uid].request, c, o); }
  }
}
