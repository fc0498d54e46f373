/**
 add_program and remove_program as steps of the whole database: what each means for map sharing and for dispatcher
 slots, whether it succeeds or fails.
 */
module DaemonSteps {
  import opened Wrappers
  import opened Sled
  import opened DispatcherChain
  import opened DaemonModel
  import opened UsedByLists
  import opened MapSharing
  import opened Slots
  import opened SlotSteps

  /** A program as a client hands it over. */
  predicate NewProgram(p: Prog) {
    p.pinPath.None? && (p.net.Some? ==> p.net.value.ifIndex.None? && !p.net.value.attached)
  }

  /** The random pre-load name and the kernel's ID are fresh, and the iteration order lists every tree. */
  ghost predicate CanAdd(db: Db, rand: Id, p: Prog, k: Kernel) {
    Pre(rand) !in db.trees && NewProgram(p) && FreshId(db, k.kernelId) && Covers(k.order, db.trees[Pre(rand) := p])
  }

  // ----- What does not concern sharing -----

  ghost predicate SharingSame(trees: map<Ref, Prog>, t: map<Ref, Prog>) {
    && (forall x :: Live(x) in t <==> Live(x) in trees)
    && (forall x | Live(x) in trees ::
          t[Live(x)].owner == trees[Live(x)].owner && t[Live(x)].pinPath == trees[Live(x)].pinPath
          && t[Live(x)].usedBy == trees[Live(x)].usedBy)
  }

  lemma SharingFrame(rd: Reading, trees: map<Ref, Prog>, t: map<Ref, Prog>)
    requires Faithful(rd) && SharingSame(trees, t)
    ensures Clients(rd, t) == Clients(rd, trees)
  {
  }

  lemma AbsFrame(rd: Reading, db: Db, db': Db)
    requires Faithful(rd) && SharingSame(db.trees, db'.trees) && db'.maps == db.maps
    ensures Abs(rd, db') == Abs(rd, db).(dirs := db'.pinDirs)
  {
    SharingFrame(rd, db.trees, db'.trees);
  }

  lemma InvFrame(rd: Reading, db: Db, db': Db)
    requires Abs(rd, db') == Abs(rd, db).(dirs := db'.pinDirs) && db'.maps == db.maps && MapInv(rd, db)
    requires db.maps.Keys <= db'.pinDirs
    ensures MapInv(rd, db')
  {
    assert Abs(rd, db).maps.Keys == db.maps.Keys;
  }

  lemma PositionsShareSame(trees: map<Ref, Prog>, t: map<Ref, Prog>, did: DispatcherId)
    requires OnlyPositions(trees, t, did)
    ensures SharingSame(trees, t)
  {
  }

  // ----- After a successful load -----

  lemma SharerRenamed(trees: map<Ref, Prog>, rand: Id, id: Id, used: seq<Id>)
    requires Pre(rand) in trees && Live(id) !in trees && Pre(rand) in SharedTrees(trees, rand, used)
    ensures Renamed(trees, SwapTree(SharedTrees(trees, rand, used), rand, id), rand, id)
  {
    var before := trees[Pre(rand) := SetProgUsedBy(SetAttached(trees[Pre(rand)]), used)];
    forall r
      ensures r in SharedTrees(trees, rand, used) <==> r in before
      ensures r in before ==> SameButUsedBy(before[r], SharedTrees(trees, rand, used)[r])
    {
      UpdateUsersFrame(before, used, 0, r);
    }
  }

  lemma OwnerRenamed(trees: map<Ref, Prog>, rand: Id, id: Id)
    requires Pre(rand) in trees && Live(id) !in trees
    ensures Renamed(trees, SwapTree(trees[Pre(rand) := OwnerTree(trees[Pre(rand)], id)], rand, id), rand, id)
  {
  }

  /** The bookkeeping after a successful load succeeds; it adds one user of the owner's or the program's own maps. */
  lemma FinishRefines(rd: Reading, db: Db, rand: Id, owner: Option<Id>, k: Kernel)
    requires Faithful(rd) && MapInv(rd, db) && FreshId(db, k.kernelId) && (owner.Some? ==> owner.value in db.maps)
    requires Pre(rand) in db.trees && db.trees[Pre(rand)].owner == owner && db.trees[Pre(rand)].pinPath == owner
    ensures
      var r := FinishAdd(db, rand, owner, k);
      && r.Ok? && Abs(rd, r.value) == Join(Abs(rd, db), k.kernelId, if owner.Some? then owner.value else k.kernelId)
      && MapInv(rd, r.value)
  {
    if owner.Some? { SharerRefines(rd, db, rand, owner.value, k); } else { OwnerRefines(rd, db, rand, k); }
  }

  lemma FinishRenames(db: Db, rand: Id, owner: Option<Id>, k: Kernel)
    requires FreshId(db, k.kernelId) && (owner.Some? ==> owner.value in db.maps)
    requires Pre(rand) in db.trees && db.trees[Pre(rand)].owner == owner && db.trees[Pre(rand)].pinPath == owner
    ensures
      var r := FinishAdd(db, rand, owner, k);
      r.Ok? && Renamed(db.trees, r.value.trees, rand, k.kernelId) && r.value.dispatchers == db.dispatchers
  {
    if owner.Some? {
      SharerShape(db, rand, owner.value, k);
      SharerRenamed(db.trees, rand, k.kernelId,
          ReadIds(PushUsedBy(db.maps[owner.value], k.kernelId), MAPS_USED_BY_PREFIX));
    } else {
      OwnerShape(db, rand, k);
      OwnerRenamed(db.trees, rand, k.kernelId);
    }
  }

  // ----- add_program and sharing -----

  /** The pre-load tree once the owner's pin path and the interface index are known. */
  function Prepared(p: Prog, k: Kernel): Prog {
    p.(pinPath := p.owner, net := if p.net.Some? then Some(p.net.value.(ifIndex := Some(k.ifIndex))) else None)
  }

  function With(db: Db, rand: Id, p: Prog): Db {
    db.(trees := db.trees[Pre(rand) := p])
  }

  function HookOf(p: Prog, k: Kernel): DispatcherId
    requires p.net.Some?
  {
    DispatcherId(p.net.value.hook, k.ifIndex)
  }

  /** The exits of add_program, one by one. */
  lemma AddCases(db: Db, rand: Id, p: Prog, k: Kernel)
    requires NewProgram(p)
    ensures
      var r, db1 := AddProgram(db, rand, p, k), With(db, rand, Prepared(p, k));
      if p.owner.Some? && p.owner.value !in db.maps then r == Err(With(db, rand, p))
      else if k.fail == AtBytes || (p.net.Some? && k.fail == AtIfIndex) then
        r == Err(With(db, rand, p.(pinPath := p.owner)))
      else if p.net.None? then
        r == if k.fail == Never then FinishAdd(db1, rand, p.owner, k) else Err(CleanUp(db1, rand, p.owner, k))
      else
        var attached := AttachMulti(db1, rand, HookOf(p, k), k);
        if attached.None? then r == Err(FailedMulti(db1, rand, p.owner, HookOf(p, k), k))
        else Pre(rand) in attached.value.trees ==> r == FinishAdd(attached.value, rand, p.owner, k)
  {
  }

  lemma AttachFrame(db: Db, rand: Id, did: DispatcherId, k: Kernel)
    requires AttachMulti(db, rand, did, k).Some? && Covers(k.order, db.trees)
    ensures
      var db' := AttachMulti(db, rand, did, k).value;
      && db'.maps == db.maps && db'.pinDirs == db.pinDirs && OnlyPositions(db.trees, db'.trees, did)
      && db'.trees == SetPositions(db.trees, did, k.order) && k.fail != AtVerify && k.fail != AtLoad &&
         k.fail != AfterPin
  {
    PositionsOnly(db.trees, did, k.order);
  }

  /** Maps, dispatchers and every live program's sharing are as before; at most directory `id` came or went. */
  ghost predicate Undone(db: Db, db': Db, id: Id) {
    && db'.maps == db.maps && db'.dispatchers == db.dispatchers && SharingSame(db.trees, db'.trees)
    && db'.pinDirs - {id} == db.pinDirs - {id}
  }

  lemma CleanUpFrame(db: Db, rand: Id, p: Prog, owner: Option<Id>, k: Kernel)
    ensures Undone(db, CleanUp(With(db, rand, p), rand, owner, k), k.kernelId)
  {
  }

  lemma WithFrame(db: Db, rand: Id, p: Prog, id: Id)
    ensures Undone(db, With(db, rand, p), id)
  {
  }

  lemma DropFrame(db: Db, db1: Db, rand: Id, id: Id)
    requires Undone(db, db1, id)
    ensures Undone(db, DropPreLoad(db1, rand), id)
  {
  }

  lemma FailedFrame(db: Db, rand: Id, p: Prog, owner: Option<Id>, did: DispatcherId, k: Kernel)
    requires Covers(k.order, With(db, rand, p).trees)
    ensures Undone(db, FailedMulti(With(db, rand, p), rand, owner, did, k), k.kernelId)
  {
    var db1 := With(db, rand, p);
    var t := SetPositions(db1.trees, did, k.order);
    WithFrame(db, rand, p, k.kernelId);
    PositionsOnly(db1.trees, did, k.order);
    PositionsShareSame(db1.trees, t, did);
    DropFrame(db, db1, rand, k.kernelId);
    DropFrame(db, db1.(trees := t, pinDirs := DirsAtFailure(db1, owner, k)), rand, k.kernelId);
  }

  /** When the kernel and the owner check accept the program. */
  ghost predicate Accepted(db: Db, rand: Id, p: Prog, k: Kernel) {
    && (p.owner.Some? ==> p.owner.value in db.maps)
    && k.fail != AtBytes && (p.net.Some? ==> k.fail != AtIfIndex)
    && (if p.net.None? then k.fail == Never
          else AttachMulti(With(db, rand, Prepared(p, k)), rand, HookOf(p, k), k).Some?)
  }

  /**
   A refused add leaves maps, dispatchers and sharing as they were, wherever it fails, and no other program's
   directory.
   */
  lemma RefusedUndone(db: Db, rand: Id, p: Prog, k: Kernel)
    requires CanAdd(db, rand, p, k) && !Accepted(db, rand, p, k)
    ensures AddProgram(db, rand, p, k).Err? && Undone(db, AddProgram(db, rand, p, k).error, k.kernelId)
  {
    AddCases(db, rand, p, k);
    WithFrame(db, rand, p, k.kernelId);
    WithFrame(db, rand, p.(pinPath := p.owner), k.kernelId);
    if p.net.Some? { FailedFrame(db, rand, Prepared(p, k), p.owner, HookOf(p, k), k); }
    else { CleanUpFrame(db, rand, Prepared(p, k), p.owner, k); }
  }

  /** The program's own directory was created before the dispatcher load failed. */
  predicate Leaks(db: Db, p: Prog, k: Kernel) {
    p.owner.None? && p.net.Some? && k.fail == AfterPin && NumAttached(db, HookOf(p, k)) < MAX_DISPATCHER_ACTIONS
  }

  /** The exact condition for a refused add to leave no directory behind. */
  lemma RefusedDirsExact(db: Db, rand: Id, p: Prog, k: Kernel)
    requires CanAdd(db, rand, p, k) && !Accepted(db, rand, p, k) && k.kernelId !in db.pinDirs
    ensures AddProgram(db, rand, p, k).Err?
    ensures AddProgram(db, rand, p, k).error.pinDirs == db.pinDirs <==> !Leaks(db, p, k)
  {
    AddCases(db, rand, p, k);
    if p.net.Some? { FailedDirs(db, rand, p, k); }
  }

  lemma FailedDirs(db: Db, rand: Id, p: Prog, k: Kernel)
    requires p.net.Some?
    ensures FailedMulti(With(db, rand, Prepared(p, k)), rand, p.owner, HookOf(p, k), k).pinDirs ==
            if Leaks(db, p, k) then db.pinDirs + {k.kernelId} else db.pinDirs
  {
  }

  /** The database as it is when the kernel has accepted the program. */
  function Loaded(db: Db, rand: Id, p: Prog, k: Kernel): Db {
    var db1 := With(db, rand, Prepared(p, k));
    if p.net.None? then db1
    else match AttachMulti(db1, rand, HookOf(p, k), k) case None => db1 case Some(db2) => db2
  }

  lemma LoadedFrame(db: Db, rand: Id, p: Prog, k: Kernel)
    requires CanAdd(db, rand, p, k) && Accepted(db, rand, p, k)
    ensures
      var l := Loaded(db, rand, p, k);
      && SharingSame(db.trees, l.trees) && l.maps == db.maps && l.pinDirs == db.pinDirs && FreshId(l, k.kernelId)
      && Pre(rand) in l.trees && l.trees[Pre(rand)].owner == p.owner && l.trees[Pre(rand)].pinPath == p.owner
  {
    var db1, l := With(db, rand, Prepared(p, k)), Loaded(db, rand, p, k);
    WithFrame(db, rand, Prepared(p, k), k.kernelId);
    if p.net.Some? {
      AttachFrame(db1, rand, HookOf(p, k), k);
      PositionsShareSame(db1.trees, l.trees, HookOf(p, k));
    }
  }

  lemma LoadedFinishes(db: Db, rand: Id, p: Prog, k: Kernel)
    requires CanAdd(db, rand, p, k) && Accepted(db, rand, p, k) && Pre(rand) in Loaded(db, rand, p, k).trees
    ensures AddProgram(db, rand, p, k) == FinishAdd(Loaded(db, rand, p, k), rand, p.owner, k)
  {
  }

  /**
   What an add needs: its owner's maps if it names one, no failing call, and a free slot if it goes to a dispatcher.
   */
  predicate Admissible(db: Db, p: Prog, k: Kernel) {
    && (p.owner.Some? ==> p.owner.value in db.maps) && k.fail == Never
    && (p.net.Some? ==> NumAttached(db, HookOf(p, k)) < MAX_DISPATCHER_ACTIONS)
  }

  /** In a database whose slots are in order that is all it needs. */
  lemma AcceptedExact(db: Db, rand: Id, p: Prog, k: Kernel)
    requires SlotInv(db) && CanAdd(db, rand, p, k)
    ensures Accepted(db, rand, p, k) <==> Admissible(db, p, k)
  {
    if p.net.Some? { AttachIff(db, rand, p, k); }
  }

  /**
   add_program refines the simple model: an accepted program joins the users of its owner's maps, or of its own; a
   refused one, at whatever point, leaves sharing as it was, though it may leave its pre-load tree, its own pin
   directory or reassigned positions behind.
   */
  lemma AddRefines(rd: Reading, db: Db, rand: Id, p: Prog, k: Kernel)
    requires Faithful(rd) && MapInv(rd, db) && CanAdd(db, rand, p, k)
    ensures
      var r := AddProgram(db, rand, p, k);
      && (r.Ok? <==> Accepted(db, rand, p, k)) && (SlotInv(db) ==> (r.Ok? <==> Admissible(db, p, k)))
      && (r.Ok? ==>
            && Abs(rd, r.value) == Join(Abs(rd, db), k.kernelId, if p.owner.Some? then p.owner.value else k.kernelId)
            && MapInv(rd, r.value))
      && (r.Err? ==> Undone(db, r.error, k.kernelId) && Abs(rd, r.error) == Abs(rd, db).(dirs := r.error.pinDirs)
                     && MapInv(rd, r.error))
  {
    if SlotInv(db) { AcceptedExact(db, rand, p, k); }
    if Accepted(db, rand, p, k) {
      var l := Loaded(db, rand, p, k);
      LoadedFrame(db, rand, p, k);
      LoadedFinishes(db, rand, p, k);
      AbsFrame(rd, db, l);
      DirsOfMaps(rd, db);
      InvFrame(rd, db, l);
      FinishRefines(rd, l, rand, p.owner, k);
    } else {
      RefusedUndone(db, rand, p, k);
      UndoneKeepsInv(rd, db, AddProgram(db, rand, p, k).error, k.kernelId);
    }
  }

  lemma UndoneKeepsInv(rd: Reading, db: Db, db': Db, id: Id)
    requires Faithful(rd) && MapInv(rd, db) && Undone(db, db', id) && id !in db.maps
    ensures Abs(rd, db') == Abs(rd, db).(dirs := db'.pinDirs) && MapInv(rd, db')
  {
    DirsOfMaps(rd, db);
    OthersDirs(db.maps.Keys, db.pinDirs, db'.pinDirs, id);
    AbsFrame(rd, db, db');
    InvFrame(rd, db, db');
  }

  lemma OthersDirs(used: set<Id>, dirs: set<Id>, dirs': set<Id>, id: Id)
    requires used <= dirs && id !in used && dirs' - {id} == dirs - {id}
    ensures used <= dirs'
  {
    forall o | o in used ensures o in dirs' { assert o in dirs - {id}; }
  }

  // ----- add_program and slots -----

  /** The dispatcher could not be loaded, after positions were already reassigned. */
  predicate LateFailure(p: Prog, k: Kernel) {
    p.net.Some? && (k.fail == AtLoad || k.fail == AfterPin)
  }

  lemma NoGroup(db: Db, rand: Id, p: Prog)
    requires Pre(rand) !in db.trees && (p.net.Some? ==> p.net.value.ifIndex.None?)
    ensures SlotInv(db) ==> SlotInv(With(db, rand, p))
  {
    if SlotInv(db) {
      forall did ensures SameGroup(db, With(db, rand, p), did) { }
      AllGroupsFrame(db, With(db, rand, p));
    }
  }

  lemma SameTreesSlots(db: Db, db': Db)
    requires SlotInv(db) && db'.trees == db.trees && db'.dispatchers == db.dispatchers
    ensures SlotInv(db')
  {
    forall did ensures SameGroup(db, db', did) { }
    AllGroupsFrame(db, db');
  }

  lemma CleanUpSlots(db: Db, rand: Id, p: Prog, owner: Option<Id>, k: Kernel)
    requires Pre(rand) !in db.trees && SlotInv(db)
    ensures SlotInv(CleanUp(With(db, rand, p), rand, owner, k)) && SlotInv(DropPreLoad(With(db, rand, p), rand))
  {
    assert With(db, rand, p).trees - {Pre(rand)} == db.trees;
    SameTreesSlots(db, CleanUp(With(db, rand, p), rand, owner, k));
    SameTreesSlots(db, DropPreLoad(With(db, rand, p), rand));
  }

  lemma RefusedSlots(db: Db, rand: Id, p: Prog, k: Kernel)
    requires SlotInv(db) && CanAdd(db, rand, p, k) && !Accepted(db, rand, p, k) && !LateFailure(p, k)
    ensures AddProgram(db, rand, p, k).Err? && SlotInv(AddProgram(db, rand, p, k).error)
  {
    AddCases(db, rand, p, k);
    NoGroup(db, rand, p);
    NoGroup(db, rand, p.(pinPath := p.owner));
    CleanUpSlots(db, rand, Prepared(p, k), p.owner, k);
    if p.net.Some? { AttachIff(db, rand, p, k); }
  }

  /** A program the kernel accepts is refused exactly when the ten slots of its hook are taken. */
  lemma AttachIff(db: Db, rand: Id, p: Prog, k: Kernel)
    requires GroupsOk(db) && CanAdd(db, rand, p, k) && p.net.Some?
    ensures k.fail == Never ==>
              (AttachMulti(With(db, rand, Prepared(p, k)), rand, HookOf(p, k), k).Some? <==>
               NumAttached(db, HookOf(p, k)) < MAX_DISPATCHER_ACTIONS)
    ensures AttachMulti(With(db, rand, Prepared(p, k)), rand, HookOf(p, k), k).Some? ==>
              GroupsOk(AttachMulti(With(db, rand, Prepared(p, k)), rand, HookOf(p, k), k).value)
  {
    AttachSlots(db, With(db, rand, Prepared(p, k)), rand, Prepared(p, k), HookOf(p, k), k);
  }

  lemma LoadedGroups(db: Db, rand: Id, p: Prog, k: Kernel)
    requires SlotInv(db) && CanAdd(db, rand, p, k) && Accepted(db, rand, p, k)
    ensures GroupsOk(Loaded(db, rand, p, k))
  {
    if p.net.Some? { AttachIff(db, rand, p, k); } else { NoGroup(db, rand, Prepared(p, k)); }
  }

  /** Everything but the new tree keeps its interface index and attached flag. */
  lemma RenamedSettled(trees: map<Ref, Prog>, rand: Id, p: Prog, l: map<Ref, Prog>, t: map<Ref, Prog>, id: Id)
    requires Settled(trees) && Pre(rand) in l && Renamed(l, t, rand, id) && l.Keys == trees.Keys + {Pre(rand)}
    requires p.net.Some? ==> p.net.value.ifIndex.Some?
    requires forall r | r in trees && r != Pre(rand) :: SamePlace(trees[r], l[r])
    requires SamePlace(p, l[Pre(rand)])
    ensures Settled(t)
  {
    forall r | r in t && t[r].net.Some?
      ensures (r.Live? <==> t[r].net.value.ifIndex.Some?) && (r.Live? ==> t[r].net.value.attached)
    {
      if r != Live(id) { assert r in l.Keys; }
    }
  }

  /** Same interface index and attached flag, if any. */
  ghost predicate SamePlace(p: Prog, q: Prog) {
    && (p.net.Some? <==> q.net.Some?)
    && (p.net.Some? ==> q.net.value.ifIndex == p.net.value.ifIndex && q.net.value.attached == p.net.value.attached)
  }

  lemma LoadedPlaces(db: Db, rand: Id, p: Prog, k: Kernel)
    requires CanAdd(db, rand, p, k) && Accepted(db, rand, p, k)
    ensures
      var l := Loaded(db, rand, p, k).trees;
      && l.Keys == db.trees.Keys + {Pre(rand)} && SamePlace(Prepared(p, k), l[Pre(rand)])
      && forall r | r in db.trees :: SamePlace(db.trees[r], l[r])
  {
    var trees := With(db, rand, Prepared(p, k)).trees;
    if p.net.Some? {
      AttachFrame(With(db, rand, Prepared(p, k)), rand, HookOf(p, k), k);
      PositionsPlaces(trees, Loaded(db, rand, p, k).trees, HookOf(p, k));
    }
    assert trees.Keys == db.trees.Keys + {Pre(rand)};
    assert forall r | r in db.trees :: trees[r] == db.trees[r];
  }

  lemma PositionsPlaces(trees: map<Ref, Prog>, t: map<Ref, Prog>, did: DispatcherId)
    requires OnlyPositions(trees, t, did)
    ensures forall r | r in trees :: SamePlace(trees[r], t[r])
  {
  }

  lemma LoadedSettled(db: Db, rand: Id, p: Prog, k: Kernel, t: map<Ref, Prog>)
    requires Settled(db.trees) && CanAdd(db, rand, p, k) && Accepted(db, rand, p, k)
    requires Pre(rand) in Loaded(db, rand, p, k).trees && Renamed(Loaded(db, rand, p, k).trees, t, rand, k.kernelId)
    ensures Settled(t)
  {
    LoadedPlaces(db, rand, p, k);
    RenamedSettled(db.trees, rand, Prepared(p, k), Loaded(db, rand, p, k).trees, t, k.kernelId);
  }

  lemma AddKeepsSlots(db: Db, rand: Id, p: Prog, k: Kernel)
    requires SlotInv(db) && CanAdd(db, rand, p, k) && !LateFailure(p, k)
    ensures
      var r := AddProgram(db, rand, p, k);
      if r.Ok? then SlotInv(r.value) else SlotInv(r.error)
  {
    if SlotInv(db) { AcceptedExact(db, rand, p, k); }
    if Accepted(db, rand, p, k) {
      var l := Loaded(db, rand, p, k);
      LoadedFrame(db, rand, p, k);
      LoadedFinishes(db, rand, p, k);
      LoadedGroups(db, rand, p, k);
      FinishRenames(l, rand, p.owner, k);
      RenamedGroups(l, AddProgram(db, rand, p, k).value, rand, k.kernelId);
      LoadedSettled(db, rand, p, k, AddProgram(db, rand, p, k).value.trees);
    } else {
      RefusedSlots(db, rand, p, k);
    }
  }

  // ----- remove_program -----

  function WithoutProgram(db: Db, id: Id): Db {
    db.(trees := db.trees - {Live(id)})
  }

  /** The database after the dispatcher work of a removal, if that succeeds. */
  function Detached(db: Db, id: Id, order: seq<Ref>): Option<Db>
    requires Live(id) in db.trees
  {
    var net := db.trees[Live(id)].net;
    if net.None? then Some(WithoutProgram(db, id))
    else if net.value.ifIndex.None? then None
    else DetachMulti(WithoutProgram(db, id), DispatcherId(net.value.hook, net.value.ifIndex.value), order)
  }

  lemma DetachFrame(db: Db, did: DispatcherId, order: seq<Ref>)
    requires DetachMulti(db, did, order).Some? && Covers(order, db.trees)
    ensures
      var db' := DetachMulti(db, did, order).value;
      db'.maps == db.maps && db'.pinDirs == db.pinDirs &&
          (db'.trees == db.trees || OnlyPositions(db.trees, db'.trees, did))
  {
    PositionsOnly(db.trees, did, order);
  }

  lemma DetachedDrops(rd: Reading, db: Db, id: Id, order: seq<Ref>)
    requires Faithful(rd) && Live(id) in db.trees && Covers(order, WithoutProgram(db, id).trees) &&
             Detached(db, id, order).Some?
    ensures Dropped(rd, db, Detached(db, id, order).value, id)
  {
    ClientsWithout(rd, db.trees, id);
    var net := db.trees[Live(id)].net;
    if net.Some? {
      var did, db2 := DispatcherId(net.value.hook, net.value.ifIndex.value), Detached(db, id, order).value;
      DetachFrame(WithoutProgram(db, id), did, order);
      if OnlyPositions(WithoutProgram(db, id).trees, db2.trees, did) {
        PositionsShareSame(WithoutProgram(db, id).trees, db2.trees, did);
      }
      SharingFrame(rd, WithoutProgram(db, id).trees, db2.trees);
    }
  }

  lemma RemoveShape(db: Db, id: Id, order: seq<Ref>)
    requires Live(id) in db.trees
    ensures
      var r, db1 := RemoveProgram(db, id, order), Detached(db, id, order);
      if db1.Some? then r == DeleteMap(db1.value, id, db.trees[Live(id)].owner) else r.Err?
  {
  }

  /** remove_program refines the simple model: the program leaves; the last user takes the maps with it. */
  lemma RemoveSharing(rd: Reading, db: Db, id: Id, order: seq<Ref>)
    requires Faithful(rd) && MapInv(rd, db) && Live(id) in db.trees && Covers(order, WithoutProgram(db, id).trees)
    requires Detached(db, id, order).Some?
    ensures
      var r, sh := RemoveProgram(db, id, order), Abs(rd, db);
      && r.Ok? && id in sh.progs && sh.progs[id].index in sh.maps
      && Abs(rd, r.value) == Leave(sh, id) && MapInv(rd, r.value)
  {
    RemoveShape(db, id, order);
    DetachedDrops(rd, db, id, order);
    RemoveRefines(rd, db, Detached(db, id, order).value, id);
  }

  lemma DeleteMapNets(db: Db, id: Id, owner: Option<Id>)
    requires DeleteMap(db, id, owner).Ok?
    ensures
      var db' := DeleteMap(db, id, owner).value;
      && db'.dispatchers == db.dispatchers && db'.trees.Keys == db.trees.Keys
      && (forall r | r in db.trees :: db'.trees[r].net == db.trees[r].net && db'.trees[r].name == db.trees[r].name)
  {
    var index := if owner.Some? then owner.value else id;
    var used := RemoveId(ReadIds(db.maps[index], MAPS_USED_BY_PREFIX), id);
    forall r
      ensures r in UpdateUsers(db.trees, used, 0) <==> r in db.trees
      ensures r in db.trees ==> SameButUsedBy(db.trees[r], UpdateUsers(db.trees, used, 0)[r])
    {
      UpdateUsersFrame(db.trees, used, 0, r);
    }
  }

  lemma SameNetsSlots(db: Db, db': Db)
    requires db'.dispatchers == db.dispatchers && db'.trees.Keys == db.trees.Keys
    requires forall r | r in db.trees :: db'.trees[r].net == db.trees[r].net
    ensures SlotInv(db) ==> SlotInv(db')
  {
    if SlotInv(db) {
      forall did ensures SameGroup(db, db', did) { assert forall r :: r in db'.trees <==> r in db.trees.Keys; }
      AllGroupsFrame(db, db');
    }
  }

  lemma DetachedSettled(db: Db, id: Id, order: seq<Ref>)
    requires Settled(db.trees) && Live(id) in db.trees && Covers(order, WithoutProgram(db, id).trees)
    requires Detached(db, id, order).Some?
    ensures Settled(Detached(db, id, order).value.trees)
  {
    var net, db2 := db.trees[Live(id)].net, Detached(db, id, order).value;
    if net.Some? {
      DetachFrame(WithoutProgram(db, id), DispatcherId(net.value.hook, net.value.ifIndex.value), order);
      forall r | r in db2.trees ensures r in WithoutProgram(db, id).trees { assert r in db2.trees.Keys; }
    }
  }

  /** In a settled database removing a live program gets through the dispatcher work and leaves all groups in order. */
  lemma DetachedSlots(db: Db, id: Id, order: seq<Ref>)
    requires SlotInv(db) && Live(id) in db.trees && Covers(order, WithoutProgram(db, id).trees)
    ensures Detached(db, id, order).Some? && SlotInv(Detached(db, id, order).value)
  {
    var net, db1 := db.trees[Live(id)].net, WithoutProgram(db, id);
    if net.None? {
      forall did ensures SameGroup(db, db1, did) { }
      AllGroupsFrame(db, db1);
    } else {
      DetachSlots(db, db1, Live(id), DispatcherId(net.value.hook, net.value.ifIndex.value), order);
    }
    DetachedSettled(db, id, order);
  }

  lemma RemoveKeepsSlots(db: Db, id: Id, order: seq<Ref>)
    requires SlotInv(db) && Live(id) in db.trees && Covers(order, WithoutProgram(db, id).trees)
    requires RemoveProgram(db, id, order).Ok?
    ensures SlotInv(RemoveProgram(db, id, order).value)
  {
    RemoveShape(db, id, order);
    DetachedSlots(db, id, order);
    DeleteMapNets(Detached(db, id, order).value, id, db.trees[Live(id)].owner);
    SameNetsSlots(Detached(db, id, order).value, RemoveProgram(db, id, order).value);
  }

  // ----- Errors of the map bookkeeping -----

  /**
   save_map fails if and only if the owner named has no map tree, or a program with maps of its own has no pin path.
   */
  lemma SaveMapErrs(db: Db, rand: Id, id: Id, owner: Option<Id>)
    requires Pre(rand) in db.trees
    ensures
      var r := SaveMap(db, rand, id, owner);
      && (r.Err? <==> if owner.Some? then owner.value !in db.maps else db.trees[Pre(rand)].pinPath.None?)
      && (r.Err? && owner.Some? ==> r.error == db)
  {
  }

  lemma NobodyLeft(ids: seq<Id>, id: Id)
    ensures RemoveId(ids, id) == [] <==> ids == [] || ids == [id]
  {
    match IndexOf(ids, id)
    case None =>
    case Some(i) => assert |SwapRemove(ids, i)| == |ids| - 1;
  }

  /**
   delete_map fails if and only if there is no map tree, which changes nothing, or its last user leaves and the pin
   directory is already gone; the tree goes even then.
   */
  lemma DeleteMapErrs(db: Db, id: Id, owner: Option<Id>)
    ensures
      var r, index := DeleteMap(db, id, owner), if owner.Some? then owner.value else id;
      && (r.Err? <==>
            || index !in db.maps
            || (var ids := ReadIds(db.maps[index], MAPS_USED_BY_PREFIX);
                (ids == [] || ids == [id]) && index !in db.pinDirs))
      && (index !in db.maps ==> r == Err(db))
      && (r.Err? && index in db.maps ==> r.error == db.(maps := db.maps - {index}))
  {
    var index := if owner.Some? then owner.value else id;
    if index in db.maps { NobodyLeft(ReadIds(db.maps[index], MAPS_USED_BY_PREFIX), id); }
    if index !in db.pinDirs { assert db.pinDirs - {index} == db.pinDirs; }
  }

  /**
   A removal that fails: without the program, or with the panic for a missing interface index, nothing has changed. If
   the dispatcher cannot be rebuilt the program is lost, but maps, directories and dispatchers are as before, and what
   is left of the group is numbered without gaps, unless nothing was attached at all. Otherwise delete_map decides.
   */
  lemma RemoveErrs(db: Db, id: Id, order: seq<Ref>)
    requires Covers(order, WithoutProgram(db, id).trees)
    ensures
      var r := RemoveProgram(db, id, order);
      if Live(id) !in db.trees then r == Err(db)
      else
        var p := db.trees[Live(id)];
        if p.net.Some? && p.net.value.ifIndex.None? then r == Err(db)
        else if Detached(db, id, order).Some? then r == DeleteMap(Detached(db, id, order).value, id, p.owner)
        else
          && p.net.Some? && r.Err? && r.error == db.(trees := r.error.trees)
          && var did := DispatcherId(p.net.value.hook, p.net.value.ifIndex.value);
             if NumAttached(db, did) == 0 then r.error.trees == db.trees - {Live(id)}
             else
               && OnlyPositions(db.trees - {Live(id)}, r.error.trees, did)
               && Numbered(r.error.trees, did, Ranking(db.trees - {Live(id)}, did, order))
  {
    if Live(id) in db.trees && db.trees[Live(id)].net.Some? && db.trees[Live(id)].net.value.ifIndex.Some? {
      var net := db.trees[Live(id)].net.value;
      PositionsAreRanks(WithoutProgram(db, id).trees, DispatcherId(net.hook, net.ifIndex.value), order);
    }
  }
}
