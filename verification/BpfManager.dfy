/**
 The daemon as it works: one object whose trees are changed in place, entry by entry. Each method is shown to do exactly
 what its function in DaemonModel says, so everything proved about those functions holds of the object.
 */
module BpfManager {
  import opened Wrappers
  import opened Sled
  import opened ProceedOn
  import opened DispatcherChain
  import opened DaemonModel
  import opened DaemonRuns

  class Manager {
    var trees: map<Ref, Prog>
    var maps: map<Id, Store>
    var dispatchers: map<DispatcherId, Dispatcher>
    var pinDirs: set<Id>

    function State(): Db
      reads this
    {
      Db(trees, maps, dispatchers, pinDirs)
    }

    constructor ()
      ensures State() == EMPTY
    {
      trees, maps, dispatchers, pinDirs := map[], map[], map[], {};
    }

    // ----- Used-by lists -----

    method GetMapsUsedBy(o: Id) returns (ids: seq<Id>)
      requires o in maps
      ensures ids == ReadIds(maps[o], MAPS_USED_BY_PREFIX)
    {
      var keys := SortedKeys(KeysUnder(maps[o], MAPS_USED_BY_PREFIX));
      ids := [];
      for i := 0 to |keys|
        invariant forall k | k in keys :: k in maps[o]
        invariant |ids| == i && forall j | 0 <= j < i :: ids[j] == IdOf(maps[o][keys[j]])
      {
        ids := ids + [IdOf(maps[o][keys[i]])];
      }
    }

    method SetMapsUsedBy(o: Id, ids: seq<Id>)
      requires o in maps
      modifies this`maps
      ensures maps == old(maps)[o := SetMapUsedBy(old(maps)[o], ids)]
    {
      for i := 0 to |ids|
        invariant o in maps
        invariant maps == old(maps)[o := WriteList(old(maps)[o], MAPS_USED_BY_PREFIX, IdBytes(ids)[..i])]
      {
        assert IdBytes(ids)[..i + 1][..i] == IdBytes(ids)[..i];
        maps := maps[o := maps[o][IndexKey(MAPS_USED_BY_PREFIX, i) := U32Bytes(ids[i])]];
      }
      assert IdBytes(ids)[..|ids|] == IdBytes(ids);
    }

    method PushMapsUsedBy(o: Id, id: Id)
      requires o in maps
      modifies this`maps
      ensures maps == old(maps)[o := PushUsedBy(old(maps)[o], id)]
    {
      var existing := GetMapsUsedBy(o);
      maps := maps[o := maps[o][IndexKey(MAPS_USED_BY_PREFIX, |existing| + 1) := U32Bytes(id)]];
    }

    method ClearMapsUsedBy(o: Id)
      requires o in maps
      modifies this`maps
      ensures maps == old(maps)[o := ClearUnder(old(maps)[o], MAPS_USED_BY_PREFIX)]
    {
      var keys := SortedKeys(KeysUnder(maps[o], MAPS_USED_BY_PREFIX));
      assert WithoutKeys(maps[o], keys[..0]) == maps[o] && maps[o := maps[o]] == maps;
      for i := 0 to |keys|
        invariant o in maps && maps == old(maps)[o := WithoutKeys(old(maps)[o], keys[..i])]
      {
        WithoutKeysNext(old(maps)[o], keys, i);
        maps := maps[o := maps[o] - {keys[i]}];
      }
      assert keys[..|keys|] == keys;
      AllCleared(old(maps)[o], MAPS_USED_BY_PREFIX);
    }

    /** ProgramData::set_maps_used_by: the program's own list is cleared and written again. */
    method SetOwnUsedBy(r: Ref, ids: seq<Id>)
      requires r in trees
      modifies this`trees
      ensures trees == old(trees)[r := SetProgUsedBy(old(trees)[r], ids)]
    {
      var p := trees[r];
      var store := ClearUnder(p.usedBy, PREFIX_MAPS_USED_BY);
      ghost var cleared := store;
      for i := 0 to |ids|
        invariant store == WriteList(cleared, PREFIX_MAPS_USED_BY, IdBytes(ids)[..i])
      {
        assert IdBytes(ids)[..i + 1][..i] == IdBytes(ids)[..i];
        store := store[IndexKey(PREFIX_MAPS_USED_BY, i) := U32Bytes(ids[i])];
      }
      assert IdBytes(ids)[..|ids|] == IdBytes(ids);
      trees := trees[r := p.(usedBy := store)];
    }

    /** clear_maps_used_by, then set_maps_used_by. */
    method RewriteMapsUsedBy(o: Id, ids: seq<Id>)
      requires o in maps
      modifies this`maps
      ensures maps == old(maps)[o := SetMapUsedBy(ClearUnder(old(maps)[o], MAPS_USED_BY_PREFIX), ids)]
    {
      ClearMapsUsedBy(o);
      SetMapsUsedBy(o, ids);
    }

    method TellUsers(used: seq<Id>)
      modifies this`trees
      ensures trees == UpdateUsers(old(trees), used, 0)
    {
      for i := 0 to |used|
        invariant UpdateUsers(trees, used, i) == UpdateUsers(old(trees), used, 0)
      {
        if Live(used[i]) in trees { SetOwnUsedBy(Live(used[i]), used); }
      }
    }

    // ----- save_map and delete_map -----

    method SaveSharedMap(rand: Id, id: Id, o: Id)
      requires Pre(rand) in trees && o in maps
      modifies this`trees, this`maps
      ensures Ok(State()) == DaemonModel.SaveMap(old(State()), rand, id, Some(o))
    {
      PushMapsUsedBy(o, id);
      var used := GetMapsUsedBy(o);
      SetOwnUsedBy(Pre(rand), used);
      TellUsers(used);
    }

    method SaveOwnMap(rand: Id, id: Id) returns (ok: bool)
      requires Pre(rand) in trees
      modifies this`trees, this`maps
      ensures
        var r := DaemonModel.SaveMap(old(State()), rand, id, None);
        ok == r.Ok? && State() == Outcome(r)
    {
      ghost var tree := SetMapUsedBy(if id in maps then maps[id] else map[], [id]);
      if id !in maps { maps := maps[id := map[]]; }
      SetMapsUsedBy(id, [id]);
      assert maps == old(maps)[id := tree];
      SetOwnUsedBy(Pre(rand), [id]);
      ok := trees[Pre(rand)].pinPath.Some?;
    }

    method SaveMap(rand: Id, id: Id, owner: Option<Id>) returns (ok: bool)
      requires Pre(rand) in trees
      modifies this`trees, this`maps
      ensures
        var r := DaemonModel.SaveMap(old(State()), rand, id, owner);
        ok == r.Ok? && State() == Outcome(r)
    {
      match owner
      case Some(o) =>
        if o !in maps { return false; }
        SaveSharedMap(rand, id, o);
        return true;
      case None =>
        ok := SaveOwnMap(rand, id);
    }

    method DeleteMap(id: Id, owner: Option<Id>) returns (ok: bool)
      modifies this
      ensures
        var r := DaemonModel.DeleteMap(old(State()), id, owner);
        ok == r.Ok? && State() == Outcome(r)
    {
      var index := if owner.Some? then owner.value else id;
      if index !in maps { return false; }
      var used := GetMapsUsedBy(index);
      var found := IndexOf(used, id);
      if found.Some? { used := SwapRemove(used, found.value); }
      RewriteMapsUsedBy(index, used);
      assert used == RemoveId(ReadIds(old(maps)[index], MAPS_USED_BY_PREFIX), id);
      if used == [] {
        maps := maps - {index};
        assert maps == old(maps) - {index};
        ok := index in pinDirs;
        pinDirs := pinDirs - {index};
      } else {
        TellUsers(used);
        ok := true;
      }
    }

    // ----- Positions and dispatchers -----

    method FilterPrograms(did: DispatcherId, order: seq<Ref>) returns (rs: seq<Ref>)
      ensures rs == Filter(trees, did, order)
    {
      rs := [];
      for i := 0 to |order|
        invariant rs == Filter(trees, did, order[..i])
      {
        assert order[..i + 1][..i] == order[..i];
        if order[i] in trees && InGroup(trees[order[i]], did) { rs := rs + [order[i]]; }
      }
      assert order[..|order|] == order;
    }

    method NumberPrograms(sorted: seq<Ref>)
      requires forall r | r in sorted :: r in trees
      modifies this`trees
      ensures trees == NumberFrom(old(trees), sorted, 0)
    {
      for i := 0 to |sorted|
        invariant forall r | r in sorted :: r in trees
        invariant NumberFrom(trees, sorted, i) == NumberFrom(old(trees), sorted, 0)
      {
        trees := trees[sorted[i] := SetPosition(trees[sorted[i]], i)];
      }
    }

    method SetProgramPositions(did: DispatcherId, order: seq<Ref>)
      modifies this`trees
      ensures trees == SetPositions(old(trees), did, order)
    {
      var extensions := FilterPrograms(did, order);
      var sorted := SortByKey(trees, extensions);
      assert forall r | r in sorted :: r in multiset(extensions);
      NumberPrograms(sorted);
    }

    /** chain_call_actions; failing is the index panic of the source. */
    method FillActions(programs: seq<Ref>) returns (ok: bool, actions: seq<bv32>)
      requires forall r | r in programs :: r in trees
      ensures FillSlots(trees, programs) == if ok then Some(actions) else None
    {
      actions := seq(MAX_DISPATCHER_ACTIONS, _ => 0);
      for i := 0 to |programs|
        invariant |actions| == MAX_DISPATCHER_ACTIONS && FillSlots(trees, programs[..i]) == Some(actions)
      {
        FillNext(trees, programs, i, actions);
        var net := trees[programs[i]].net;
        if net.None? || net.value.position.None? || net.value.position.value >= |actions| {
          FillFails(trees, programs, i + 1);
          return false, [];
        }
        actions := actions[net.value.position.value := net.value.Mask()];
      }
      assert programs[..|programs|] == programs;
      ok := true;
    }

    method NewDispatcher(did: DispatcherId, order: seq<Ref>) returns (ok: bool)
      modifies this`dispatchers
      ensures
        var r := DaemonModel.NewDispatcher(old(State()), did, order);
        ok == r.Some? && State() == if r.Some? then r.value else old(State())
    {
      var programs := FilterPrograms(did, order);
      if programs == [] { return false; }
      var actions;
      ok, actions := FillActions(programs);
      if ok {
        var d := Dispatcher(NextRevision(State(), did), |programs|, Config(|programs|, actions));
        dispatchers := dispatchers[did := d];
      }
    }

    // ----- add_program -----

    /** What a failed load leaves to clean up: the own pin directory if it was created, and the pre-load tree. */
    method CleanUp(rand: Id, owner: Option<Id>, k: Kernel)
      modifies this`trees, this`pinDirs
      ensures State() == DaemonModel.CleanUp(old(State()), rand, owner, k)
    {
      if owner.None? && k.fail == AfterPin {
        pinDirs := pinDirs + {k.kernelId};
        pinDirs := pinDirs - {k.kernelId};
      }
      trees := trees - {Pre(rand)};
    }

    method AddMultiAttach(rand: Id, owner: Option<Id>, did: DispatcherId, k: Kernel) returns (ok: bool)
      modifies this`trees, this`dispatchers, this`pinDirs
      ensures
        var r := AttachMulti(old(State()), rand, did, k);
        && ok == r.Some?
        && (ok ==> State() == r.value)
        && (!ok ==>
              State() ==
              if k.fail == AtVerify || NumAttached(old(State()), did) >= MAX_DISPATCHER_ACTIONS then old(State())
              else old(State()).(trees := SetPositions(old(trees), did, k.order),
                                 pinDirs := DirsAtFailure(old(State()), owner, k)))
    {
      if k.fail == AtVerify { return false; }
      var attached := NumAttached(State(), did);
      if attached >= MAX_DISPATCHER_ACTIONS { return false; }
      SetProgramPositions(did, k.order);
      if k.fail == AtLoad || k.fail == AfterPin {
        if owner.None? && k.fail == AfterPin { pinDirs := pinDirs + {k.kernelId}; }
        return false;
      }
      ok := NewDispatcher(did, k.order);
    }

    method FinishAdd(rand: Id, owner: Option<Id>, k: Kernel) returns (ok: bool)
      requires Pre(rand) in trees
      modifies this`trees, this`maps, this`pinDirs
      ensures
        var r := DaemonModel.FinishAdd(old(State()), rand, owner, k);
        ok == r.Ok? && State() == Outcome(r)
    {
      if trees[Pre(rand)].pinPath.None? {
        trees := trees[Pre(rand) := trees[Pre(rand)].(pinPath := Some(k.kernelId))];
        pinDirs := pinDirs + {k.kernelId};
      }
      trees := trees[Pre(rand) := SetAttached(trees[Pre(rand)])];
      ok := SaveMap(rand, k.kernelId, owner);
      if ok {
        ok := Pre(rand) in trees;
        if ok { trees := SwapTree(trees, rand, k.kernelId); }
      }
    }

    /** From add_multi_attach_program to the end of add_program. */
    method LoadMulti(rand: Id, owner: Option<Id>, did: DispatcherId, k: Kernel) returns (ok: bool)
      modifies this
      ensures
        var r := match AttachMulti(old(State()), rand, did, k)
                 case None => Err(FailedMulti(old(State()), rand, owner, did, k))
                 case Some(db) => if Pre(rand) in db.trees then DaemonModel.FinishAdd(db, rand, owner, k) else Err(db);
        ok == r.Ok? && State() == Outcome(r)
    {
      ok := AddMultiAttach(rand, owner, did, k);
      if !ok {
        trees := trees - {Pre(rand)};
        return;
      }
      ok := Pre(rand) in trees;
      if ok { ok := FinishAdd(rand, owner, k); }
    }

    /** load, and the pin path of another program's maps. */
    method Prepare(rand: Id, p: Prog) returns (ok: bool)
      modifies this`trees
      ensures ok <==> (p.owner.Some? ==> p.owner.value in maps)
      ensures trees == old(trees)[Pre(rand) := if ok && p.owner.Some? then p.(pinPath := p.owner) else p]
    {
      trees := trees[Pre(rand) := p];
      if p.owner.Some? {
        if p.owner.value !in maps { return false; }
        trees := trees[Pre(rand) := p.(pinPath := p.owner)];
      }
      ok := true;
    }

    method AddProgram(rand: Id, p: Prog, k: Kernel) returns (ok: bool)
      modifies this
      ensures
        var r := DaemonModel.AddProgram(old(State()), rand, p, k);
        ok == r.Ok? && State() == Outcome(r)
    {
      ok := Prepare(rand, p);
      if !ok || k.fail == AtBytes { return false; }
      if p.net.None? {
        if k.fail == Never {
          ok := FinishAdd(rand, p.owner, k);
        } else {
          CleanUp(rand, p.owner, k);
          ok := false;
        }
        return;
      }
      if k.fail == AtIfIndex { return false; }
      var net := p.net.value.(ifIndex := Some(k.ifIndex));
      ghost var p1 := trees[Pre(rand)];
      trees := trees[Pre(rand) := trees[Pre(rand)].(net := Some(net))];
      assert trees == old(trees)[Pre(rand) := p1.(net := Some(net))];
      ok := LoadMulti(rand, p.owner, DispatcherId(net.hook, k.ifIndex), k);
    }

    // ----- remove_program -----

    method RemoveMultiAttach(did: DispatcherId, order: seq<Ref>) returns (ok: bool)
      modifies this`trees, this`dispatchers
      ensures
        var r := DetachMulti(old(State()), did, order);
        ok == r.Some? && State() == if ok then r.value else DetachFailed(old(State()), did, order)
    {
      var attached := NumAttached(State(), did);
      if attached == 0 { return false; }
      if attached == 1 {
        dispatchers := dispatchers - {did};
        return true;
      }
      SetProgramPositions(did, order);
      ok := NewDispatcher(did, order);
    }

    method RemoveProgram(id: Id, order: seq<Ref>) returns (ok: bool)
      modifies this
      ensures
        var r := DaemonModel.RemoveProgram(old(State()), id, order);
        ok == r.Ok? && State() == Outcome(r)
    {
      if Live(id) !in trees { return false; }
      var p := trees[Live(id)];
      if p.net.Some? {
        if p.net.value.ifIndex.None? { return false; }
        trees := trees - {Live(id)};
        ok := RemoveMultiAttach(DispatcherId(p.net.value.hook, p.net.value.ifIndex.value), order);
        if !ok { return; }
      } else {
        trees := trees - {Live(id)};
      }
      ok := DeleteMap(id, p.owner);
    }
  }

  function WithoutKeys(m: Store, keys: seq<string>): Store {
    m - set k | k in keys
  }

  lemma WithoutKeysNext(m: Store, keys: seq<string>, i: nat)
    requires i < |keys|
    ensures WithoutKeys(m, keys[..i]) - {keys[i]} == WithoutKeys(m, keys[..i + 1])
  {
    assert keys[..i + 1] == keys[..i] + [keys[i]];
  }

  lemma AllCleared(m: Store, prefix: string)
    ensures WithoutKeys(m, SortedKeys(KeysUnder(m, prefix))) == ClearUnder(m, prefix)
  {
  }

  lemma FillNext(trees: map<Ref, Prog>, programs: seq<Ref>, i: nat, actions: seq<bv32>)
    requires i < |programs| && (forall r | r in programs :: r in trees) &&
             FillSlots(trees, programs[..i]) == Some(actions)
    ensures
      var net := trees[programs[i]].net;
      FillSlots(trees, programs[..i + 1]) ==
      if net.Some? && net.value.position.Some? && net.value.position.value < |actions|
      then Some(actions[net.value.position.value := net.value.Mask()]) else None
  {
    assert programs[..i + 1][..i] == programs[..i];
  }

  lemma {:induction false} FillFails(trees: map<Ref, Prog>, rs: seq<Ref>, i: nat)
    requires i <= |rs| && (forall r | r in rs :: r in trees) && FillSlots(trees, rs[..i]).None?
    ensures FillSlots(trees, rs).None?
    decreases |rs| - i
  {
    if i == |rs| {
      assert rs[..i] == rs;
    } else {
      assert rs[..i + 1][..i] == rs[..i];
      FillFails(trees, rs, i + 1);
    }
  }
}
