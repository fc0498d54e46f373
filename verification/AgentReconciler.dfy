/**
 The agent's reconciler in the source's own form: objects whose fields its methods update, loops with early exits, a
 program-ID field that outlives each call. Every method is proved to act as the corresponding function of AgentModel.
 */
module AgentReconciler {
  import opened Wrappers
  import opened AgentModel

  /** The Kubernetes API server as the agent sees it. */
  class ApiServer {
    var objs: map<ObjName, BpfObj>
    var writes: nat

    constructor ()
      ensures objs == map[] && writes == 0
    {
      objs, writes := map[], 0;
    }

    method Put(o: BpfObj)
      modifies this
      ensures objs == old(objs)[o.name := o] && writes == old(writes) + 1
    {
      objs, writes := objs[o.name := o], writes + 1;
    }

    method Drop(o: BpfObj)
      modifies this
      ensures objs == old(objs) - {o.name} && writes == old(writes) + 1
    {
      objs, writes := objs - {o.name}, writes + 1;
    }
  }

  /** The bpfman daemon of one node. */
  class Bpfman {
    var loaded: map<Uid, LoadedProg>

    constructor ()
      ensures loaded == map[]
    {
      loaded := map[];
    }
  }

  /** ReconcilerCommon. */
  class Reconciler {
    const node: NodeName
    const api: ApiServer
    const bpfman: Bpfman
    var progId: Option<nat>

    constructor (node: NodeName, api: ApiServer, bpfman: Bpfman)
      ensures this.node == node && this.api == api && this.bpfman == bpfman && progId == None
    {
      this.node, this.api, this.bpfman, progId := node, api, bpfman, None;
    }

    ghost function State(): NodeState
      reads this, api, bpfman
    {
      NodeState(api.objs, bpfman.loaded, progId, api.writes)
    }

    method UnloadBpfmanProgram(o: BpfObj, id: nat, f: Oracle) returns (ok: bool)
      modifies bpfman
      ensures Unload(State(), ok) == UnloadProg(old(State()), o, id, f)
    {
      ok := !(o.name in f.unloadFails || (forall u :: u in bpfman.loaded ==> bpfman.loaded[u].id != id));
      if ok {
        bpfman.loaded := map u | u in bpfman.loaded && bpfman.loaded[u].id != id :: bpfman.loaded[u];
      }
    }

    /** Sets progId to the new program's ID, or to nil when the load fails. */
    method LoadBpfmanProgram(o: BpfObj, q: Request, f: Oracle) returns (ok: bool)
      modifies this, bpfman
      ensures ok <==> o.name in f.loads
      ensures State() == if ok then LoadProg(old(State()), o, q, f.loads[o.name], f) else old(State()).(progId := None)
    {
      ok := o.name in f.loads;
      if ok {
        bpfman.loaded := bpfman.loaded[o.uid := LoadedProg(f.loads[o.name], Listed(q, f))];
        progId := Some(f.loads[o.name]);
      } else {
        progId := None;
      }
    }

    method ReconcileBpfProgram(listed: map<Uid, LoadedProg>, o: BpfObj, c: Ctx, deleting: bool, f: Oracle)
      returns (cond: Cond, ok: bool, crashed: bool)
      modifies this, bpfman
      ensures ReconcileBpf(old(State()), listed, o, c, deleting, f) ==
              if crashed then Crash(State()) else Reconciled(State(), cond, ok)
    {
      var isLoaded := o.uid in listed;
      var shouldBeLoaded := ShouldBeLoaded(c, o, deleting);
      cond, ok, crashed := SuccessCondition(c, o, deleting), true, false;
      if isLoaded {
        if o.name in f.badIds {
          return NotLoaded, true, false;
        }
        if shouldBeLoaded {
          if o.name in f.requestFails {
            return BytecodeSelectorError, false, false;
          }
          var request := LoadRequest(c, o);
          if !DoesProgExist(listed[o.uid].request, request) {
            if o.id.None? {
              return cond, ok, true;
            }
            var unloaded := UnloadBpfmanProgram(o, o.id.value, f);
            if !unloaded {
              return NotUnloaded, true, false;
            }
            var loaded := LoadBpfmanProgram(o, request, f);
            if !loaded {
              return NotLoaded, false, false;
            }
          } else {
            progId := o.id;
          }
        } else {
          if o.id.None? {
            return cond, ok, true;
          }
          var unloaded := UnloadBpfmanProgram(o, o.id.value, f);
          if !unloaded {
            return NotUnloaded, true, false;
          }
        }
      } else if shouldBeLoaded {
        if o.name in f.requestFails {
          return BytecodeSelectorError, false, false;
        }
        var loaded := LoadBpfmanProgram(o, LoadRequest(c, o), f);
        if !loaded {
          return NotLoaded, true, false;
        }
      }
    }

    method UpdateBpfStatus(o: BpfObj, cond: Cond, f: Oracle) returns (changed: bool)
      modifies api
      ensures StatusWrite(State(), changed) == UpdateStatus(old(State()), o, cond, f)
    {
      if |o.conds| == 1 && o.conds[0] == cond {
        return false;
      }
      if o.name !in f.writeFails {
        api.Put(o.(conds := [cond]));
      }
      return true;
    }

    /** Returns whether the finalizer was there, even if the write to remove it failed. */
    method RemoveBpfFinalizer(o: BpfObj, f: Oracle) returns (changed: bool)
      modifies api
      ensures changed == o.finalizer
      ensures State() == if changed then RemoveFinalizer(old(State()), o, f) else old(State())
    {
      changed := o.finalizer;
      if changed && o.name !in f.writeFails {
        if o.terminating {
          api.Drop(o);
        } else {
          api.Put(o.(finalizer := false));
        }
      }
    }

    method HandleProgDelete(listed: map<Uid, LoadedProg>, existing: map<ObjName, BpfObj>, c: Ctx, f: Oracle)
      returns (outcome: Outcome)
      modifies this, api, bpfman
      ensures Pass(State(), outcome) == DeleteFrom(old(State()), listed, existing, c, f, 0)
    {
      for i := 0 to |f.order|
        invariant DeleteFrom(State(), listed, existing, c, f, i) == DeleteFrom(old(State()), listed, existing, c, f, 0)
      {
        if f.order[i] in existing {
          var o := existing[f.order[i]];
          ghost var before := State();
          var cond, ok, crashed := ReconcileBpfProgram(listed, o, c, true, f);
          if crashed {
            return Crashed;
          }
          if !ok {
            var _ := UpdateBpfStatus(o, cond, f);
            return Requeue;
          }
          var removed := RemoveBpfFinalizer(o, f);
          if removed {
            return Updated;
          }
          if c.prog.deleting {
            var changed := UpdateBpfStatus(o, cond, f);
            if changed {
              return Updated;
            }
          } else {
            if o.name in f.writeFails {
              return Requeue;
            }
            api.Drop(o);
            return Updated;
          }
          assert DeleteOne(before, listed, o, c, f) == Next(State());
        }
      }
      return Unchanged;
    }

    method HandleProgCreateOrUpdate(
      listed: map<Uid, LoadedProg>, existingBpfPrograms: map<ObjName, BpfObj>, expected: seq<Expected>, c: Ctx,
      f: Oracle)
      returns (outcome: Outcome)
      modifies this, api, bpfman
      ensures Pass(State(), outcome) == UpdateFrom(old(State()), listed, existingBpfPrograms, expected, c, f, 0)
    {
      var existing := existingBpfPrograms;
      for i := 0 to |expected|
        invariant UpdateFrom(State(), listed, existing, expected, c, f, i) ==
                  UpdateFrom(old(State()), listed, existingBpfPrograms, expected, c, f, 0)
      {
        var e := expected[i];
        if e.name !in existing {
          if e.name in f.writeFails || e.name in api.objs {
            return Requeue;
          }
          api.Put(NewObject(c, e, f.newUid));
          return Updated;
        }
        var o := existing[e.name];
        existing := existing - {e.name};
        ghost var before := State();
        var cond, ok, crashed := ReconcileBpfProgram(listed, o, c, c.prog.deleting, f);
        if crashed {
          return Crashed;
        }
        if !ok {
          var changed := UpdateBpfStatus(o, cond, f);
          if changed {
            return Updated;
          }
        } else if SkipsId(cond) {
          var changed := UpdateBpfStatus(o, cond, f);
          if changed {
            return Updated;
          } else {
            assert UpdateOne(before, listed, o, c, f) == Next(State());
            continue;
          }
        } else {
          if o.name in f.badIds {
            return Requeue;
          }
          if o.id != progId {
            if progId.None? {
              return Crashed;
            }
            if o.name in f.writeFails {
              return Requeue;
            }
            api.Put(o.(id := progId));
            return Updated;
          }
          var changed := UpdateBpfStatus(o, cond, f);
          if changed {
            return Updated;
          }
        }
        assert UpdateOne(before, listed, o, c, f) == Next(State());
      }
      if |existing| > 0 {
        outcome := HandleProgDelete(listed, existing, c, f);
      } else {
        return Unchanged;
      }
    }

    method ReconcileOneProgram(listed: map<Uid, LoadedProg>, prog: ProgObj, v: View, f: Oracle)
      returns (outcome: Outcome)
      modifies this, api, bpfman
      ensures Pass(State(), outcome) == ReconcileProgram(old(State()), listed, node, prog, v, f)
    {
      if !v.View? {
        return Requeue;
      }
      var c := Ctx(node, prog, v.selected, v.mapOwner);
      var existing := Existing(api.objs, node, prog.name);
      if prog.deleting {
        outcome := HandleProgDelete(listed, existing, c, f);
      } else {
        if v.expected.None? {
          return Requeue;
        }
        outcome := HandleProgCreateOrUpdate(listed, existing, v.expected.value, c, f);
      }
    }

    /** One pass: list what bpfman has, then visit the *Programs until one of them causes a write. */
    method Reconcile(progs: seq<ProgObj>, views: map<ProgName, View>, f: Oracle) returns (outcome: Outcome)
      modifies this, api, bpfman
      ensures Pass(State(), outcome) == ReconcileCommon(old(State()), node, progs, views, f)
    {
      if f.listFails {
        return Requeue;
      }
      var listed := bpfman.loaded;
      var requeue := false;
      for i := 0 to |progs|
        invariant ReconcileFrom(State(), listed, node, progs, views, f, i, requeue) ==
                  ReconcileFrom(old(State()), listed, node, progs, views, f, 0, false)
      {
        var v := ViewOf(views, progs[i].name);
        if v.CannotSet? {
          return Requeue;
        }
        var result := ReconcileOneProgram(listed, progs[i], v, f);
        match result
        case Unchanged =>
        case Updated => return Updated;
        case Requeue => requeue := true;
        case Crashed => return Crashed;
      }
      return if requeue then Requeue else Unchanged;
    }
  }
}
