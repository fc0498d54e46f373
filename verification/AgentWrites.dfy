/** A pass makes at most one successful Kubernetes write, whatever fails around it. */
module AgentWrites {
  import opened AgentModel

  /** A deleting reconcile only ever unloads, so it has no error to return. */
  lemma DeletingNeverErrs(s: NodeState, listed: map<Uid, LoadedProg>, o: BpfObj, c: Ctx, f: Oracle)
    ensures var r := ReconcileBpf(s, listed, o, c, true, f); r.Reconciled? ==> r.ok
    ensures ReconcileBpf(s, listed, o, c, true, f).s.objs == s.objs
    ensures ReconcileBpf(s, listed, o, c, true, f).s.writes == s.writes
  {
  }

  /** Talking to bpfman never touches a Kubernetes object. */
  lemma ReconcileBpfFrame(s: NodeState, listed: map<Uid, LoadedProg>, o: BpfObj, c: Ctx, deleting: bool, f: Oracle)
    ensures var t := ReconcileBpf(s, listed, o, c, deleting, f).s; t.objs == s.objs && t.writes == s.writes
  {
  }

  /** At most one successful write happened, and none unless the outcome stops the pass. */
  predicate OneWrite(s: NodeState, t: NodeState, stops: bool) {
    && s.writes <= t.writes <= s.writes + 1
    && (t.writes != s.writes ==> stops)
    && (t.writes == s.writes ==> t.objs == s.objs)
  }

  /** The only object that differs is `n`: one of this node's, or one just created here under the given UID. */
  ghost predicate OnlyTouches(
    before: map<ObjName, BpfObj>, after: map<ObjName, BpfObj>, n: ObjName, node: NodeName, uid: Uid)
  {
    && before - {n} == after - {n}
    && (n in before && before != after ==> before[n].node == node)
    && (n in after && before != after ==>
          after[n].name == n && after[n].node == node && after[n].uid == if n in before then before[n].uid else uid)
  }

  ghost predicate TouchesOne(before: map<ObjName, BpfObj>, after: map<ObjName, BpfObj>, node: NodeName, uid: Uid) {
    exists n :: OnlyTouches(before, after, n, node, uid)
  }

  /** Objects as a pass reads them: current, and stored under their own name. */
  ghost predicate ReadFrom(existing: map<ObjName, BpfObj>, objs: map<ObjName, BpfObj>, node: NodeName) {
    forall n | n in existing :: n in objs && objs[n] == existing[n] && existing[n].name == n && existing[n].node == node
  }

  lemma DeleteOneWrites(s: NodeState, listed: map<Uid, LoadedProg>, o: BpfObj, c: Ctx, f: Oracle)
    requires o.name in s.objs && s.objs[o.name] == o && o.node == c.node
    ensures
      var r := DeleteOne(s, listed, o, c, f);
      && OneWrite(s, r.s, r.Exit? && r.outcome == Updated)
      && OnlyTouches(s.objs, r.s.objs, o.name, c.node, f.newUid)
  {
    DeletingNeverErrs(s, listed, o, c, f);
  }

  lemma RecordWrites(s: NodeState, o: BpfObj, cond: Cond, f: Oracle, r: Flow)
    requires o.name in s.objs && s.objs[o.name] == o
    requires r == StatusFlow(UpdateStatus(s, o, cond, f)) || r == RecordId(s, o, cond, f)
    ensures OneWrite(s, r.s, r.Exit? && r.outcome == Updated) && OnlyTouches(s.objs, r.s.objs, o.name, o.node, f.newUid)
  {
  }

  lemma UpdateOneWrites(s: NodeState, listed: map<Uid, LoadedProg>, o: BpfObj, c: Ctx, f: Oracle)
    requires o.name in s.objs && s.objs[o.name] == o && o.node == c.node
    ensures
      var r := UpdateOne(s, listed, o, c, f);
      && OneWrite(s, r.s, r.Exit? && r.outcome == Updated)
      && OnlyTouches(s.objs, r.s.objs, o.name, c.node, f.newUid)
  {
    ReconcileBpfFrame(s, listed, o, c, c.prog.deleting, f);
    var r := ReconcileBpf(s, listed, o, c, c.prog.deleting, f);
    if r.Reconciled? { RecordWrites(r.s, o, r.cond, f, UpdateOne(s, listed, o, c, f)); }
  }

  lemma {:induction false} DeleteFromWrites(
    s: NodeState, listed: map<Uid, LoadedProg>, existing: map<ObjName, BpfObj>, c: Ctx, f: Oracle, i: nat)
    requires i <= |f.order| && ReadFrom(existing, s.objs, c.node)
    ensures
      var p := DeleteFrom(s, listed, existing, c, f, i);
      OneWrite(s, p.s, p.outcome == Updated) && TouchesOne(s.objs, p.s.objs, c.node, f.newUid)
    decreases |f.order| - i
  {
    if i == |f.order| {
      assert OnlyTouches(s.objs, s.objs, "", c.node, f.newUid);
    } else if f.order[i] !in existing {
      DeleteFromWrites(s, listed, existing, c, f, i + 1);
    } else {
      DeleteOneWrites(s, listed, existing[f.order[i]], c, f);
      var r := DeleteOne(s, listed, existing[f.order[i]], c, f);
      if r.Next? { DeleteFromWrites(r.s, listed, existing, c, f, i + 1); }
    }
  }

  lemma {:induction false} UpdateFromWrites(
    s: NodeState, listed: map<Uid, LoadedProg>, existing: map<ObjName, BpfObj>, expected: seq<Expected>,
    c: Ctx, f: Oracle, i: nat)
    requires i <= |expected| && ReadFrom(existing, s.objs, c.node)
    ensures
      var p := UpdateFrom(s, listed, existing, expected, c, f, i);
      OneWrite(s, p.s, p.outcome == Updated) && TouchesOne(s.objs, p.s.objs, c.node, f.newUid)
    decreases |expected| - i
  {
    if i == |expected| {
      assert OnlyTouches(s.objs, s.objs, "", c.node, f.newUid);
      DeleteFromWrites(s, listed, existing, c, f, 0);
    } else if expected[i].name !in existing {
      assert OnlyTouches(s.objs, Create(s, expected[i], c, f).s.objs, expected[i].name, c.node, f.newUid);
    } else {
      var o := existing[expected[i].name];
      UpdateOneWrites(s, listed, o, c, f);
      var r := UpdateOne(s, listed, o, c, f);
      if r.Next? { UpdateFromWrites(r.s, listed, existing - {expected[i].name}, expected, c, f, i + 1); }
    }
  }

  lemma ReconcileProgramWrites(
    s: NodeState, listed: map<Uid, LoadedProg>, node: NodeName, prog: ProgObj, v: View, f: Oracle)
    requires forall n | n in s.objs :: s.objs[n].name == n
    ensures
      var p := ReconcileProgram(s, listed, node, prog, v, f);
      OneWrite(s, p.s, p.outcome == Updated) && TouchesOne(s.objs, p.s.objs, node, f.newUid)
  {
    assert OnlyTouches(s.objs, s.objs, "", node, f.newUid);
    if v.View? {
      var c := Ctx(node, prog, v.selected, v.mapOwner);
      var existing := Existing(s.objs, node, prog.name);
      DeleteFromWrites(s, listed, existing, c, f, 0);
      if v.expected.Some? { UpdateFromWrites(s, listed, existing, v.expected.value, c, f, 0); }
    }
  }

  lemma {:induction false} ReconcileFromWrites(
    s: NodeState, listed: map<Uid, LoadedProg>, node: NodeName, progs: seq<ProgObj>,
    views: map<ProgName, View>, f: Oracle, i: nat, requeue: bool)
    requires i <= |progs| && forall n | n in s.objs :: s.objs[n].name == n
    ensures
      var p := ReconcileFrom(s, listed, node, progs, views, f, i, requeue);
      OneWrite(s, p.s, p.outcome == Updated) && TouchesOne(s.objs, p.s.objs, node, f.newUid)
    decreases |progs| - i
  {
    assert OnlyTouches(s.objs, s.objs, "", node, f.newUid);
    if i < |progs| {
      var v := ViewOf(views, progs[i].name);
      ReconcileProgramWrites(s, listed, node, progs[i], v, f);
      var p := ReconcileProgram(s, listed, node, progs[i], v, f);
      if !v.CannotSet? && GoesOn(p.outcome) {
        ReconcileFromWrites(p.s, listed, node, progs, views, f, i + 1, requeue || p.outcome == Requeue);
      }
    }
  }

  /**
   For every list of *Programs and every pattern of failing calls, one pass makes at most one successful
   Kubernetes write, to one object of its own node; a pass that reports anything but Updated made none and left
   every object as it was.
   */
  lemma AtMostOneWritePerPass(s: NodeState, node: NodeName, progs: seq<ProgObj>, views: map<ProgName, View>, f: Oracle)
    requires forall n | n in s.objs :: s.objs[n].name == n
    ensures
      var p := ReconcileCommon(s, node, progs, views, f);
      && TouchesOne(s.objs, p.s.objs, node, f.newUid)
      && s.writes <= p.s.writes <= s.writes + 1
      && (p.outcome != Updated ==> p.s.writes == s.writes && p.s.objs == s.objs)
  {
    assert OnlyTouches(s.objs, s.objs, "", node, f.newUid);
    if !f.listFails { ReconcileFromWrites(s, s.loaded, node, progs, views, f, 0, false); }
  }
}
