/**
 The bpfman daemon's bookkeeping (bpfman/src/lib.rs) as functions over its database: program trees, map trees with
 their reference counts, dispatchers with their slots, and the map pin directories. Trees are keyed by what their names
 say. Kernel calls arrive as a stage at which an add fails and as the kernel's program ID.
 */
module DaemonModel {
  import opened Wrappers
  import opened Sled
  import opened ProceedOn
  import opened DispatcherChain
  import TcP = TcProceedOn
  import XdpP = XdpProceedOn

  type Id = n: nat | n < 0x1_0000_0000

  const MAPS_USED_BY_PREFIX := "map_used_by_"    // in a map tree
  const PREFIX_MAPS_USED_BY := "maps_used_by_"   // in a program tree

  /** What a dispatcher is keyed by: DispatcherId. */
  datatype Hook = Xdp | TcIngress | TcEgress
  datatype DispatcherId = DispatcherId(hook: Hook, ifIndex: nat)

  /** Attributes of XDP and TC programs. `proceedOn` is the list of names the user gave. */
  datatype Net = Net(
    hook: Hook, ifIndex: Option<nat>, priority: int, attached: bool, position: Option<nat>, proceedOn: seq<string>) {

    /** get_proceed_on and mask; a list that does not convert never gets as far as a tree. */
    function Mask(): bv32 {
      var mask := if hook.Xdp? then SlotMask(XdpP.CODEC, proceedOn, map[]) else SlotMask(TcP.CODEC, proceedOn, map[]);
      if mask.Some? then mask.value else 0
    }

    /** The return codes the program wants the chain to go on with. */
    function Asks(): set<int> {
      if hook.Xdp? then Asked(XdpP.CODEC, proceedOn) else Asked(TcP.CODEC, proceedOn)
    }
  }

  /** A program tree. `pinPath` names the map pin directory, `usedBy` the entries under "maps_used_by_". */
  datatype Prog = Prog(name: string, owner: Option<Id>, pinPath: Option<Id>, usedBy: Store, net: Option<Net>)

  /** A program tree's name: under a random ID before the load, under the kernel's afterwards. */
  datatype Ref = Pre(rand: Id) | Live(id: Id)

  datatype Dispatcher = Dispatcher(revision: nat, numExtensions: nat, config: Config)

  datatype Db = Db(
    trees: map<Ref, Prog>, maps: map<Id, Store>, dispatchers: map<DispatcherId, Dispatcher>, pinDirs: set<Id>)

  /** Where an add fails, if it does. The first two are the early exits that leave the pre-load tree behind. */
  datatype Stage = Never | AtBytes | AtIfIndex | AtVerify | AtLoad | AfterPin

  /** `order` is the iteration order over tree names; `ifIndex` and `kernelId` are what the kernel answers. */
  datatype Kernel = Kernel(order: seq<Ref>, fail: Stage, ifIndex: nat, kernelId: Id)

  // ----- Used-by lists -----

  /** bytes_to_u32; the trees only ever hold four-byte values here. */
  function IdOf(b: Bytes): Id {
    match U32FromBytes(b)
    case Some(n) => if n < 0x1_0000_0000 then n else 0
    case None => 0
  }

  function IdBytes(ids: seq<Id>): (bs: seq<Bytes>)
    ensures |bs| == |ids| && forall i | 0 <= i < |ids| :: bs[i] == U32Bytes(ids[i])
  {
    seq(|ids|, i requires 0 <= i < |ids| => U32Bytes(ids[i]))
  }

  /** get_maps_used_by. */
  function ReadIds(m: Store, prefix: string): (ids: seq<Id>)
    ensures |ids| == |ReadList(m, prefix)| && forall i | 0 <= i < |ids| :: ids[i] == IdOf(ReadList(m, prefix)[i])
  {
    seq(|ReadList(m, prefix)|, i requires 0 <= i < |ReadList(m, prefix)| => IdOf(ReadList(m, prefix)[i]))
  }

  /** clear_maps_used_by. */
  function ClearUnder(m: Store, prefix: string): Store {
    map k | k in m && !(prefix <= k) :: m[k]
  }

  /** set_maps_used_by on a map tree: inserts without clearing first. */
  function SetMapUsedBy(m: Store, ids: seq<Id>): Store {
    WriteList(m, MAPS_USED_BY_PREFIX, IdBytes(ids))
  }

  /** push_maps_used_by: the new key's index is one more than the number of entries. */
  function PushUsedBy(m: Store, id: Id): Store {
    m[IndexKey(MAPS_USED_BY_PREFIX, |ReadIds(m, MAPS_USED_BY_PREFIX)| + 1) := U32Bytes(id)]
  }

  /** ProgramData::set_maps_used_by: clears, then inserts. */
  function SetProgUsedBy(p: Prog, ids: seq<Id>): Prog {
    p.(usedBy := WriteList(ClearUnder(p.usedBy, PREFIX_MAPS_USED_BY), PREFIX_MAPS_USED_BY, IdBytes(ids)))
  }

  /** Give every listed program that has a tree the new list. */
  function UpdateUsers(trees: map<Ref, Prog>, used: seq<Id>, i: nat): map<Ref, Prog>
    requires i <= |used|
    decreases |used| - i
  {
    if i == |used| then trees
    else
      var r := Live(used[i]);
      UpdateUsers(if r in trees then trees[r := SetProgUsedBy(trees[r], used)] else trees, used, i + 1)
  }

  function IndexOf(ids: seq<Id>, id: Id): (r: Option<nat>)
    ensures r.Some? ==> r.value < |ids| && ids[r.value] == id
    ensures r.None? ==> id !in ids
  {
    if ids == [] then None
    else if ids[0] == id then Some(0)
    else match IndexOf(ids[1..], id) case None => None case Some(i) => Some(i + 1)
  }

  /** Vec::swap_remove: the last element takes the removed one's place. */
  function SwapRemove(ids: seq<Id>, i: nat): seq<Id>
    requires i < |ids|
  {
    ids[i := ids[|ids| - 1]][..|ids| - 1]
  }

  function RemoveId(ids: seq<Id>, id: Id): seq<Id> {
    match IndexOf(ids, id) case None => ids case Some(i) => SwapRemove(ids, i)
  }

  // ----- save_map, swap_tree, delete_map -----

  function SaveMap(db: Db, rand: Id, id: Id, owner: Option<Id>): Result<Db, Db>
    requires Pre(rand) in db.trees
  {
    var p := db.trees[Pre(rand)];
    match owner
    case Some(o) =>
      if o !in db.maps then Err(db)
      else
        var tree := PushUsedBy(db.maps[o], id);
        var used := ReadIds(tree, MAPS_USED_BY_PREFIX);
        var trees := db.trees[Pre(rand) := SetProgUsedBy(p, used)];
        Ok(db.(maps := db.maps[o := tree], trees := UpdateUsers(trees, used, 0)))
    case None =>
      var tree := SetMapUsedBy(if id in db.maps then db.maps[id] else map[], [id]);
      var db' := db.(maps := db.maps[id := tree], trees := db.trees[Pre(rand) := SetProgUsedBy(p, [id])]);
      if p.pinPath.None? then Err(db') else Ok(db')
  }

  function SwapTree(trees: map<Ref, Prog>, rand: Id, id: Id): map<Ref, Prog>
    requires Pre(rand) in trees
  {
    trees[Live(id) := trees[Pre(rand)]] - {Pre(rand)}
  }

  function DeleteMap(db: Db, id: Id, owner: Option<Id>): Result<Db, Db> {
    var index := if owner.Some? then owner.value else id;
    if index !in db.maps then Err(db)
    else
      var used := RemoveId(ReadIds(db.maps[index], MAPS_USED_BY_PREFIX), id);
      var tree := SetMapUsedBy(ClearUnder(db.maps[index], MAPS_USED_BY_PREFIX), used);
      if used == [] then
        var db' := db.(maps := db.maps - {index}, pinDirs := db.pinDirs - {index});
        if index in db.pinDirs then Ok(db') else Err(db')
      else
        Ok(db.(maps := db.maps[index := tree], trees := UpdateUsers(db.trees, used, 0)))
  }

  // ----- Positions -----

  predicate InGroup(p: Prog, did: DispatcherId) {
    p.net.Some? && p.net.value.hook == did.hook && p.net.value.ifIndex == Some(did.ifIndex)
  }

  /** filter: the trees of one group, in tree-name order. */
  function Filter(trees: map<Ref, Prog>, did: DispatcherId, order: seq<Ref>): (rs: seq<Ref>)
    ensures forall r :: r in rs <==> r in order && r in trees && InGroup(trees[r], did)
  {
    if order == [] then []
    else
      var rest := Filter(trees, did, order[..|order| - 1]);
      var r := order[|order| - 1];
      if r in trees && InGroup(trees[r], did) then rest + [r] else rest
  }

  /** The sort key as coded: priority, then not yet attached before attached, then name. */
  predicate KeyLess(a: Prog, b: Prog) {
    a.net.Some? && b.net.Some? &&
    (|| a.net.value.priority < b.net.value.priority
     || (a.net.value.priority == b.net.value.priority &&
         (|| (!a.net.value.attached && b.net.value.attached)
          || (a.net.value.attached == b.net.value.attached && Less(a.name, b.name)))))
  }

  /** Stable insertion of one more element behind everything that is not greater. */
  function Insert(trees: map<Ref, Prog>, sorted: seq<Ref>, r: Ref): seq<Ref>
    requires r in trees && forall x | x in sorted :: x in trees
  {
    if sorted == [] then [r]
    else
      var last := sorted[|sorted| - 1];
      if KeyLess(trees[r], trees[last]) then Insert(trees, sorted[..|sorted| - 1], r) + [last] else sorted + [r]
  }

  /** sort_by_key. */
  function SortByKey(trees: map<Ref, Prog>, rs: seq<Ref>): (sorted: seq<Ref>)
    requires forall r | r in rs :: r in trees
    ensures multiset(sorted) == multiset(rs)
  {
    if rs == [] then []
    else
      var rest := SortByKey(trees, rs[..|rs| - 1]);
      assert rs == rs[..|rs| - 1] + [rs[|rs| - 1]];
      assert forall x | x in rest :: x in multiset(rs[..|rs| - 1]);
      InsertPermutes(trees, rest, rs[|rs| - 1]);
      Insert(trees, rest, rs[|rs| - 1])
  }

  lemma {:induction false} InsertPermutes(trees: map<Ref, Prog>, sorted: seq<Ref>, r: Ref)
    requires r in trees && forall x | x in sorted :: x in trees
    ensures multiset(Insert(trees, sorted, r)) == multiset(sorted) + multiset{r}
  {
    if sorted != [] {
      var init := sorted[..|sorted| - 1];
      assert sorted == init + [sorted[|sorted| - 1]];
      if KeyLess(trees[r], trees[sorted[|sorted| - 1]]) { InsertPermutes(trees, init, r); }
    }
  }

  function SetPosition(p: Prog, i: nat): Prog {
    if p.net.Some? then p.(net := Some(p.net.value.(position := Some(i)))) else p
  }

  /** Number the sorted extensions from `i` on. */
  function NumberFrom(trees: map<Ref, Prog>, sorted: seq<Ref>, i: nat): map<Ref, Prog>
    requires i <= |sorted| && forall r | r in sorted :: r in trees
    decreases |sorted| - i
  {
    if i == |sorted| then trees
    else NumberFrom(trees[sorted[i] := SetPosition(trees[sorted[i]], i)], sorted, i + 1)
  }

  /** set_program_positions / add_and_set_program_positions. */
  function SetPositions(trees: map<Ref, Prog>, did: DispatcherId, order: seq<Ref>): map<Ref, Prog> {
    var rs := Filter(trees, did, order);
    var sorted := SortByKey(trees, rs);
    assert forall r | r in sorted :: r in multiset(rs);
    NumberFrom(trees, sorted, 0)
  }

  // ----- Dispatchers -----

  function NumAttached(db: Db, did: DispatcherId): nat {
    if did in db.dispatchers then db.dispatchers[did].numExtensions else 0
  }

  /** next_revision wraps around; the first dispatcher of an interface has revision 1. */
  function NextRevision(db: Db, did: DispatcherId): nat {
    if did in db.dispatchers then (db.dispatchers[did].revision + 1) % 0x1_0000_0000 else 1
  }

  /** Filling chain_call_actions: slot `position` gets the program's mask. None is the index panic of the source. */
  function FillSlots(trees: map<Ref, Prog>, rs: seq<Ref>): Option<seq<bv32>>
    requires forall r | r in rs :: r in trees
  {
    if rs == [] then Some(seq(MAX_DISPATCHER_ACTIONS, _ => 0))
    else
      var net := trees[rs[|rs| - 1]].net;
      match FillSlots(trees, rs[..|rs| - 1])
      case None => None
      case Some(slots) =>
        if net.Some? && net.value.position.Some? && net.value.position.value < |slots| then
          Some(slots[net.value.position.value := net.value.Mask()])
        else None
  }

  /** Dispatcher::new and the load it performs, when the kernel accepts it. */
  function NewDispatcher(db: Db, did: DispatcherId, order: seq<Ref>): Option<Db> {
    var rs := Filter(db.trees, did, order);
    if rs == [] then None
    else
      match FillSlots(db.trees, rs)
      case None => None
      case Some(slots) =>
        Some(db.(dispatchers := db.dispatchers[did := Dispatcher(NextRevision(db, did), |rs|, Config(|rs|, slots))]))
  }

  // ----- add_program -----

  /** The pin directories when the load fails: a program with maps of its own may already have created its directory. */
  function DirsAtFailure(db: Db, owner: Option<Id>, k: Kernel): set<Id> {
    if owner.None? && k.fail == AfterPin then db.pinDirs + {k.kernelId} else db.pinDirs
  }

  /** cleanup_map_pin_path and the deletion of the pre-load tree: a shared pin directory is left alone. */
  function CleanUp(db: Db, rand: Id, owner: Option<Id>, k: Kernel): Db {
    var dirs := DirsAtFailure(db, owner, k);
    db.(trees := db.trees - {Pre(rand)},
        pinDirs := if owner.None? && k.fail == AfterPin then dirs - {k.kernelId} else dirs)
  }

  function DropPreLoad(db: Db, rand: Id): Db {
    db.(trees := db.trees - {Pre(rand)})
  }

  /** A successful load pins the program's own maps unless it shares another's. */
  function PinMaps(db: Db, rand: Id, k: Kernel): Db
    requires Pre(rand) in db.trees
  {
    var p := db.trees[Pre(rand)];
    if p.pinPath.Some? then db
    else db.(trees := db.trees[Pre(rand) := p.(pinPath := Some(k.kernelId))], pinDirs := db.pinDirs + {k.kernelId})
  }

  /** add_multi_attach_program up to the kernel accepting the new dispatcher. */
  function AttachMulti(db: Db, rand: Id, did: DispatcherId, k: Kernel): Option<Db> {
    if k.fail == AtVerify || NumAttached(db, did) >= MAX_DISPATCHER_ACTIONS then None
    else
      var db1 := db.(trees := SetPositions(db.trees, did, k.order));
      if k.fail == AtLoad || k.fail == AfterPin then None else NewDispatcher(db1, did, k.order)
  }

  /**
   The database after a multi-attach add that failed. Once the dispatcher load is reached, positions have been
   reassigned; when it fails the pre-load tree is deleted before anybody reads its pin path, so an own directory stays.
   */
  function FailedMulti(db: Db, rand: Id, owner: Option<Id>, did: DispatcherId, k: Kernel): Db {
    if k.fail == AtVerify || NumAttached(db, did) >= MAX_DISPATCHER_ACTIONS then DropPreLoad(db, rand)
    else DropPreLoad(db.(trees := SetPositions(db.trees, did, k.order), pinDirs := DirsAtFailure(db, owner, k)), rand)
  }

  function SetAttached(p: Prog): Prog {
    if p.net.Some? then p.(net := Some(p.net.value.(attached := true))) else p
  }

  /** The bookkeeping after a successful load. */
  function FinishAdd(db: Db, rand: Id, owner: Option<Id>, k: Kernel): Result<Db, Db>
    requires Pre(rand) in db.trees
  {
    var db1 := PinMaps(db, rand, k);
    var db2 := db1.(trees := db1.trees[Pre(rand) := SetAttached(db1.trees[Pre(rand)])]);
    match SaveMap(db2, rand, k.kernelId, owner)
    case Err(e) => Err(e)
    case Ok(db3) =>
      if Pre(rand) in db3.trees then Ok(db3.(trees := SwapTree(db3.trees, rand, k.kernelId))) else Err(db3)
  }

  function AddProgram(db: Db, rand: Id, p: Prog, k: Kernel): Result<Db, Db> {
    if p.owner.Some? && p.owner.value !in db.maps then Err(db.(trees := db.trees[Pre(rand) := p]))
    else
      var p1 := if p.owner.Some? then p.(pinPath := p.owner) else p;
      var db1 := db.(trees := db.trees[Pre(rand) := p1]);
      if k.fail == AtBytes then Err(db1)
      else if p.net.None? then
        if k.fail == Never then FinishAdd(db1, rand, p.owner, k) else Err(CleanUp(db1, rand, p.owner, k))
      else if k.fail == AtIfIndex then Err(db1)
      else
        var did := DispatcherId(p.net.value.hook, k.ifIndex);
        var p2 := p1.(net := Some(p.net.value.(ifIndex := Some(k.ifIndex))));
        var db2 := db.(trees := db.trees[Pre(rand) := p2]);
        match AttachMulti(db2, rand, did, k)
        case None => Err(FailedMulti(db2, rand, p.owner, did, k))
        case Some(db3) => if Pre(rand) in db3.trees then FinishAdd(db3, rand, p.owner, k) else Err(db3)
  }

  // ----- remove_program -----

  /** remove_multi_attach_program; None is the failure of Dispatcher::new or the underflow of the extension count. */
  function DetachMulti(db: Db, did: DispatcherId, order: seq<Ref>): Option<Db> {
    if NumAttached(db, did) == 0 then None
    else if NumAttached(db, did) == 1 then Some(db.(dispatchers := db.dispatchers - {did}))
    else NewDispatcher(db.(trees := SetPositions(db.trees, did, order)), did, order)
  }

  /** The database when remove_multi_attach_program fails: positions may already have been reassigned. */
  function DetachFailed(db: Db, did: DispatcherId, order: seq<Ref>): Db {
    if NumAttached(db, did) == 0 then db else db.(trees := SetPositions(db.trees, did, order))
  }

  /** remove_program; a program without an interface index is the panic of dispatcher_id. */
  function RemoveProgram(db: Db, id: Id, order: seq<Ref>): Result<Db, Db> {
    if Live(id) !in db.trees then Err(db)
    else
      var p := db.trees[Live(id)];
      var db1 := db.(trees := db.trees - {Live(id)});
      if p.net.None? then DeleteMap(db1, id, p.owner)
      else if p.net.value.ifIndex.None? then Err(db)
      else
        var did := DispatcherId(p.net.value.hook, p.net.value.ifIndex.value);
        match DetachMulti(db1, did, order)
        case None => Err(DetachFailed(db1, did, order))
        case Some(db2) => DeleteMap(db2, id, p.owner)
  }
}
