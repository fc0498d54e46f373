/**
 Reference-counted map sharing. `Sharing` is what the bookkeeping is about: who uses which maps. The database refines
 it: every add and remove acts on the database as the simple operation acts on `Sharing`.
 */
module MapSharing {
  import opened Wrappers
  import opened Sled
  import opened ProceedOn
  import opened DaemonModel
  import opened UsedByLists

  // ----- The simple model -----

  /** A live program: the map index it uses, its pin path, and its own copy of the index's users. */
  datatype Client = Client(index: Id, pin: Option<Id>, copy: multiset<Id>)

  datatype Sharing = Sharing(maps: map<Id, multiset<Id>>, progs: map<Id, Client>, dirs: set<Id>)

  /** The live programs that use map index `o`. */
  ghost function Users(progs: map<Id, Client>, o: Id): set<Id> {
    set id | id in progs && progs[id].index == o
  }

  /**
   Map index `o` records exactly the live programs that use it, each once; it exists exactly when somebody uses it, and
   then so does its pin directory; every user's own copy agrees.
   */
  ghost predicate SharingInv(sh: Sharing) {
    && (forall o :: o in sh.maps <==> Users(sh.progs, o) != {})
    && (forall o | o in sh.maps :: sh.maps[o] == multiset(Users(sh.progs, o)))
    && (forall id | id in sh.progs ::
          sh.progs[id].copy == multiset(Users(sh.progs, sh.progs[id].index)) &&
              sh.progs[id].pin == Some(sh.progs[id].index))
    && sh.maps.Keys <= sh.dirs
  }

  /** Everybody who uses index `o` gets the new list of users. */
  ghost function Tell(progs: map<Id, Client>, o: Id, users: multiset<Id>): map<Id, Client> {
    map id | id in progs :: if progs[id].index == o then progs[id].(copy := users) else progs[id]
  }

  /** One more recorded user, and everybody told. */
  ghost function Joined(progs: map<Id, Client>, id: Id, o: Id, users: multiset<Id>): map<Id, Client> {
    Tell(progs[id := Client(o, Some(o), users)], o, users)
  }

  ghost function Join(sh: Sharing, id: Id, o: Id): Sharing {
    var users := (if o in sh.maps then sh.maps[o] else multiset{}) + multiset{id};
    Sharing(sh.maps[o := users], Joined(sh.progs, id, o, users), sh.dirs + {o})
  }

  ghost function Leave(sh: Sharing, id: Id): Sharing
    requires id in sh.progs && sh.progs[id].index in sh.maps
  {
    var o := sh.progs[id].index;
    var users := sh.maps[o] - multiset{id};
    if users == multiset{} then Sharing(sh.maps - {o}, sh.progs - {id}, sh.dirs - {o})
    else Sharing(sh.maps[o := users], Tell(sh.progs - {id}, o, users), sh.dirs)
  }

  lemma UsersAfterJoin(sh: Sharing, id: Id, o: Id, q: Id)
    requires id !in sh.progs
    ensures Users(Join(sh, id, o).progs, q) == if q == o then Users(sh.progs, o) + {id} else Users(sh.progs, q)
  {
  }

  lemma UsersAfterLeave(sh: Sharing, id: Id, q: Id)
    requires id in sh.progs && sh.progs[id].index in sh.maps
    ensures Users(Leave(sh, id).progs, q) == if q == sh.progs[id].index then Users(sh.progs, q) - {id}
            else Users(sh.progs, q)
  {
  }

  lemma MultisetOfSet(s: set<Id>, id: Id)
    ensures id !in s ==> multiset(s + {id}) == multiset(s) + multiset{id}
    ensures id in s ==> multiset(s - {id}) == multiset(s) - multiset{id}
    ensures multiset(s) == multiset{} <==> s == {}
  {
    assert forall x :: x in multiset(s) <==> x in s;
  }

  lemma JoinedUsers(sh: Sharing, id: Id, o: Id)
    requires SharingInv(sh) && id !in sh.progs && (o == id || o in sh.maps)
    ensures Join(sh, id, o).maps[o] == multiset(Users(sh.progs, o) + {id})
  {
  }

  lemma JoinedClient(sh: Sharing, id: Id, o: Id, x: Id)
    requires SharingInv(sh) && id !in sh.progs && (o == id || o in sh.maps) && x in Join(sh, id, o).progs
    ensures
      var progs := Join(sh, id, o).progs;
      progs[x].copy == multiset(Users(progs, progs[x].index)) && progs[x].pin == Some(progs[x].index)
  {
    JoinedUsers(sh, id, o);
    UsersAfterJoin(sh, id, o, Join(sh, id, o).progs[x].index);
  }

  /** A program that starts using map index `o`, its own or an existing one, keeps the bookkeeping exact. */
  lemma JoinKeepsInv(sh: Sharing, id: Id, o: Id)
    requires SharingInv(sh) && id !in sh.progs && (o == id || o in sh.maps)
    ensures SharingInv(Join(sh, id, o))
  {
    var sh' := Join(sh, id, o);
    forall q
      ensures q in sh'.maps <==> Users(sh'.progs, q) != {}
      ensures q in sh'.maps ==> sh'.maps[q] == multiset(Users(sh'.progs, q))
    {
      UsersAfterJoin(sh, id, o, q);
      JoinedUsers(sh, id, o);
    }
    forall x | x in sh'.progs
      ensures sh'.progs[x].copy == multiset(Users(sh'.progs, sh'.progs[x].index)) &&
              sh'.progs[x].pin == Some(sh'.progs[x].index)
    {
      JoinedClient(sh, id, o, x);
    }
  }

  lemma LeftUsers(sh: Sharing, id: Id)
    requires SharingInv(sh) && id in sh.progs && sh.progs[id].index in sh.maps
    ensures
      var o := sh.progs[id].index;
      && sh.maps[o] - multiset{id} == multiset(Users(sh.progs, o) - {id})
      && (sh.maps[o] - multiset{id} == multiset{} <==> Users(sh.progs, o) - {id} == {})
  {
    var o := sh.progs[id].index;
    assert id in Users(sh.progs, o);
    MultisetOfSet(Users(sh.progs, o), id);
    MultisetOfSet(Users(sh.progs, o) - {id}, id);
  }

  lemma LeftClient(sh: Sharing, id: Id, x: Id)
    requires SharingInv(sh) && id in sh.progs && sh.progs[id].index in sh.maps && x in Leave(sh, id).progs
    ensures
      var progs := Leave(sh, id).progs;
      progs[x].copy == multiset(Users(progs, progs[x].index)) && progs[x].pin == Some(progs[x].index)
  {
    LeftUsers(sh, id);
    var progs := Leave(sh, id).progs;
    UsersAfterLeave(sh, id, progs[x].index);
    assert x in Users(sh.progs, sh.progs[x].index);
  }

  /**
   A program that stops using its maps keeps the bookkeeping exact; the last one takes the entry and directory away.
   */
  lemma LeaveKeepsInv(sh: Sharing, id: Id)
    requires SharingInv(sh) && id in sh.progs && sh.progs[id].index in sh.maps
    ensures SharingInv(Leave(sh, id))
  {
    var sh' := Leave(sh, id);
    LeftUsers(sh, id);
    forall q
      ensures q in sh'.maps <==> Users(sh'.progs, q) != {}
      ensures q in sh'.maps ==> sh'.maps[q] == multiset(Users(sh'.progs, q))
    {
      UsersAfterLeave(sh, id, q);
    }
    forall x | x in sh'.progs
      ensures sh'.progs[x].copy == multiset(Users(sh'.progs, sh'.progs[x].index)) &&
              sh'.progs[x].pin == Some(sh'.progs[x].index)
    {
      LeftClient(sh, id, x);
    }
  }

  // ----- What a database says about sharing -----

  function MapIndex(id: Id, p: Prog): Id {
    if p.owner.Some? then p.owner.value else id
  }

  /**
   How the used-by entries of a map tree and of a program tree are read. The proofs below only use what `Faithful`
   says about a reading; `GET_USED_BY` is the one in the source.
   */
  datatype Reading = Reading(users: Store -> multiset<Id>, copy: Prog -> multiset<Id>)

  const GET_USED_BY := Reading(
    (m: Store) => multiset(ReadIds(m, MAPS_USED_BY_PREFIX)),
    (p: Prog) => multiset(ReadIds(p.usedBy, PREFIX_MAPS_USED_BY)))

  ghost predicate Faithful(rd: Reading) {
    && (forall m: Store :: rd.users(m) == multiset(ReadIds(m, MAPS_USED_BY_PREFIX)))
    && (forall p: Prog, ids: seq<Id> :: rd.copy(SetProgUsedBy(p, ids)) == multiset(ids))
    && (forall p: Prog :: rd.copy(p) == rd.copy(Prog("", None, None, p.usedBy, None)))
  }

  lemma GetUsedByFaithful()
    ensures Faithful(GET_USED_BY)
  {
    forall p: Prog, ids: seq<Id> ensures GET_USED_BY.copy(SetProgUsedBy(p, ids)) == multiset(ids) {
      ProgUsedBy(p, ids);
    }
  }

  ghost function ClientOf(rd: Reading, id: Id, p: Prog): Client {
    Client(MapIndex(id, p), p.pinPath, rd.copy(p))
  }

  ghost function LiveIds(trees: map<Ref, Prog>): set<Id> {
    set r | r in trees && r.Live? :: r.id
  }

  ghost function Clients(rd: Reading, trees: map<Ref, Prog>): map<Id, Client> {
    map id | id in LiveIds(trees) :: ClientOf(rd, id, trees[Live(id)])
  }

  ghost function Recorded(rd: Reading, maps: map<Id, Store>): map<Id, multiset<Id>> {
    map o | o in maps :: rd.users(maps[o])
  }

  ghost function Abs(rd: Reading, db: Db): Sharing {
    Sharing(Recorded(rd, db.maps), Clients(rd, db.trees), db.pinDirs)
  }

  ghost predicate TreesOk(maps: map<Id, Store>) {
    forall o | o in maps :: MapTreeOk(maps[o])
  }

  /** The sharing invariant of a database. */
  ghost predicate MapInv(rd: Reading, db: Db) {
    TreesOk(db.maps) && SharingInv(Abs(rd, db))
  }

  lemma LiveIdsIff(trees: map<Ref, Prog>, id: Id)
    ensures id in LiveIds(trees) <==> Live(id) in trees
  {
  }

  ghost predicate FreshId(db: Db, id: Id) {
    Live(id) !in db.trees && id !in db.maps
  }

  lemma ClientsAre(rd: Reading, trees: map<Ref, Prog>, want: map<Id, Client>)
    requires forall x :: Live(x) in trees <==> x in want
    requires forall x | x in want :: ClientOf(rd, x, trees[Live(x)]) == want[x]
    ensures Clients(rd, trees) == want
  {
  }

  /** The IDs recorded in a map tree are the live programs that use it. */
  lemma RecordedIffUser(rd: Reading, db: Db, o: Id, x: Id)
    requires SharingInv(Abs(rd, db)) && o in db.maps && Live(x) in db.trees
    ensures x in rd.users(db.maps[o]) <==> MapIndex(x, db.trees[Live(x)]) == o
  {
    var sh := Abs(rd, db);
    LiveIdsIff(db.trees, x);
    assert sh.maps[o] == multiset(Users(sh.progs, o));
    assert x in multiset(Users(sh.progs, o)) <==> x in Users(sh.progs, o);
  }

  /** What one live program sees of UpdateUsers. */
  lemma Told(rd: Reading, trees: map<Ref, Prog>, used: seq<Id>, x: Id)
    requires Faithful(rd)
    ensures
      var t := UpdateUsers(trees, used, 0);
      && (Live(x) in t <==> Live(x) in trees)
      && (Live(x) in trees ==>
            ClientOf(rd, x, t[Live(x)]) ==
            if x in used then ClientOf(rd, x, trees[Live(x)]).(copy := multiset(used))
            else ClientOf(rd, x, trees[Live(x)]))
  {
    UpdateUsersFrame(trees, used, 0, Live(x));
    if x in used && Live(x) in trees { UpdateUsersTells(trees, used, 0, x, rd.copy, multiset(used)); }
  }

  // ----- Adding -----

  lemma RecordedUpdate(rd: Reading, maps: map<Id, Store>, o: Id, tree: Store)
    ensures Recorded(rd, maps[o := tree]) == Recorded(rd, maps)[o := rd.users(tree)]
  {
  }

  /** The trees after save_map of a sharer: its own copy set, everybody else told. */
  ghost function SharedTrees(trees: map<Ref, Prog>, rand: Id, used: seq<Id>): map<Ref, Prog>
    requires Pre(rand) in trees
  {
    UpdateUsers(trees[Pre(rand) := SetProgUsedBy(SetAttached(trees[Pre(rand)]), used)], used, 0)
  }

  lemma SharerShape(db: Db, rand: Id, o: Id, k: Kernel)
    requires Pre(rand) in db.trees && db.trees[Pre(rand)].pinPath == Some(o) && o in db.maps
    ensures
      var tree := PushUsedBy(db.maps[o], k.kernelId);
      var trees := SharedTrees(db.trees, rand, ReadIds(tree, MAPS_USED_BY_PREFIX));
      && Pre(rand) in trees
      && FinishAdd(db, rand, Some(o), k) ==
         Ok(db.(maps := db.maps[o := tree], trees := SwapTree(trees, rand, k.kernelId)))
  {
    var used := ReadIds(PushUsedBy(db.maps[o], k.kernelId), MAPS_USED_BY_PREFIX);
    var p := SetAttached(db.trees[Pre(rand)]);
    assert db.trees[Pre(rand) := p][Pre(rand) := SetProgUsedBy(p, used)] ==
           db.trees[Pre(rand) := SetProgUsedBy(p, used)];
    UpdateUsersFrame(db.trees[Pre(rand) := SetProgUsedBy(p, used)], used, 0, Pre(rand));
  }

  lemma SharerItself(rd: Reading, trees: map<Ref, Prog>, rand: Id, o: Id, id: Id, used: seq<Id>)
    requires Faithful(rd) && Pre(rand) in trees && trees[Pre(rand)].owner == Some(o) &&
             trees[Pre(rand)].pinPath == Some(o)
    ensures Pre(rand) in SharedTrees(trees, rand, used)
    ensures ClientOf(rd, id, SharedTrees(trees, rand, used)[Pre(rand)]) == Client(o, Some(o), multiset(used))
  {
    var p := SetAttached(trees[Pre(rand)]);
    UpdateUsersFrame(trees[Pre(rand) := SetProgUsedBy(p, used)], used, 0, Pre(rand));
  }

  /** What SharedTrees followed by SwapTree means for sharing. */
  lemma SharerClients(rd: Reading, trees: map<Ref, Prog>, rand: Id, o: Id, id: Id, used: seq<Id>)
    requires Faithful(rd) && Pre(rand) in trees && trees[Pre(rand)].owner == Some(o) &&
             trees[Pre(rand)].pinPath == Some(o)
    requires Live(id) !in trees && Pre(rand) in SharedTrees(trees, rand, used)
    requires forall x | x != id && Live(x) in trees :: x in used <==> MapIndex(x, trees[Live(x)]) == o
    ensures Clients(rd, SwapTree(SharedTrees(trees, rand, used), rand, id)) ==
            Joined(Clients(rd, trees), id, o, multiset(used))
  {
    var after := SwapTree(SharedTrees(trees, rand, used), rand, id);
    var want := Joined(Clients(rd, trees), id, o, multiset(used));
    forall x
      ensures Live(x) in after <==> x in want
      ensures x in want ==> ClientOf(rd, x, after[Live(x)]) == want[x]
    {
      LiveIdsIff(trees, x);
      SharerItself(rd, trees, rand, o, id, used);
      Told(rd, trees[Pre(rand) := SetProgUsedBy(SetAttached(trees[Pre(rand)]), used)], used, x);
    }
    ClientsAre(rd, after, want);
  }

  lemma AbsNotIn(rd: Reading, db: Db, id: Id)
    requires Live(id) !in db.trees
    ensures id !in Abs(rd, db).progs
  {
  }

  lemma AbsJoined(rd: Reading, db: Db, db': Db, id: Id, o: Id, tree: Store)
    requires db'.maps == db.maps[o := tree] && db'.pinDirs == db.pinDirs + {o}
    requires rd.users(tree) == (if o in db.maps then rd.users(db.maps[o]) else multiset{}) + multiset{id}
    requires Clients(rd, db'.trees) == Joined(Clients(rd, db.trees), id, o, rd.users(tree))
    ensures Abs(rd, db') == Join(Abs(rd, db), id, o)
  {
    RecordedUpdate(rd, db.maps, o, tree);
  }

  /** Adding a user to the database is joining in the simple model. */
  lemma JoinRefined(rd: Reading, db: Db, db': Db, id: Id, o: Id, tree: Store)
    requires MapInv(rd, db) && Live(id) !in db.trees && (o == id || o in db.maps) && MapTreeOk(tree)
    requires db'.maps == db.maps[o := tree]
    requires Abs(rd, db') == Join(Abs(rd, db), id, o)
    ensures MapInv(rd, db')
  {
    AbsNotIn(rd, db, id);
    JoinKeepsInv(Abs(rd, db), id, o);
    TreesOkUpdate(db.maps, o, tree);
  }

  lemma TreesOkUpdate(maps: map<Id, Store>, o: Id, tree: Store)
    requires TreesOk(maps) && MapTreeOk(tree)
    ensures TreesOk(maps[o := tree])
  {
  }

  /** After the push the recorded IDs other than the new one are still exactly the users. */
  lemma PushedUsers(rd: Reading, db: Db, o: Id, id: Id, used: seq<Id>)
    requires SharingInv(Abs(rd, db)) && o in db.maps
    requires multiset(used) == rd.users(db.maps[o]) + multiset{id}
    ensures forall x | x != id && Live(x) in db.trees :: x in used <==> MapIndex(x, db.trees[Live(x)]) == o
  {
    forall x | x != id && Live(x) in db.trees
      ensures x in used <==> MapIndex(x, db.trees[Live(x)]) == o
    {
      RecordedIffUser(rd, db, o, x);
      assert x in used <==> x in multiset(used);
    }
  }

  lemma AddPresent(dirs: set<Id>, o: Id)
    requires o in dirs
    ensures dirs + {o} == dirs
  {
  }

  lemma DirsOfMaps(rd: Reading, db: Db)
    requires SharingInv(Abs(rd, db))
    ensures db.maps.Keys <= db.pinDirs
  {
  }

  lemma SharerRefines(rd: Reading, db: Db, rand: Id, o: Id, k: Kernel)
    requires Faithful(rd) && MapInv(rd, db) && FreshId(db, k.kernelId) && o in db.maps
    requires Pre(rand) in db.trees && db.trees[Pre(rand)].owner == Some(o) && db.trees[Pre(rand)].pinPath == Some(o)
    ensures
      var r := FinishAdd(db, rand, Some(o), k);
      r.Ok? && Abs(rd, r.value) == Join(Abs(rd, db), k.kernelId, o) && MapInv(rd, r.value)
  {
    var tree := PushUsedBy(db.maps[o], k.kernelId);
    var used := ReadIds(tree, MAPS_USED_BY_PREFIX);
    SharerShape(db, rand, o, k);
    PushIsFresh(db.maps[o], k.kernelId);
    var db' := db.(maps := db.maps[o := tree], trees := SwapTree(SharedTrees(db.trees, rand, used), rand, k.kernelId));
    DirsOfMaps(rd, db);
    PushedUsers(rd, db, o, k.kernelId, used);
    SharerClients(rd, db.trees, rand, o, k.kernelId, used);
    AddPresent(db.pinDirs, o);
    AbsJoined(rd, db, db', k.kernelId, o, tree);
    JoinRefined(rd, db, db', k.kernelId, o, tree);
  }

  /** A program with maps of its own, after pinning, attaching and save_map. */
  function OwnerTree(p: Prog, id: Id): Prog {
    SetProgUsedBy(SetAttached(p.(pinPath := Some(id))), [id])
  }

  lemma OwnerShape(db: Db, rand: Id, k: Kernel)
    requires Pre(rand) in db.trees && db.trees[Pre(rand)].pinPath == None && k.kernelId !in db.maps
    ensures
      var trees := db.trees[Pre(rand) := OwnerTree(db.trees[Pre(rand)], k.kernelId)];
      FinishAdd(db, rand, None, k) ==
      Ok(Db(SwapTree(trees, rand, k.kernelId), db.maps[k.kernelId := SetMapUsedBy(map[], [k.kernelId])],
            db.dispatchers, db.pinDirs + {k.kernelId}))
  {
    var p := db.trees[Pre(rand)].(pinPath := Some(k.kernelId));
    assert db.trees[Pre(rand) := p][Pre(rand) := SetAttached(p)] == db.trees[Pre(rand) := SetAttached(p)];
    assert db.trees[Pre(rand) := SetAttached(p)][Pre(rand) := OwnerTree(db.trees[Pre(rand)], k.kernelId)] ==
           db.trees[Pre(rand) := OwnerTree(db.trees[Pre(rand)], k.kernelId)];
  }

  lemma OwnerClients(rd: Reading, trees: map<Ref, Prog>, rand: Id, id: Id)
    requires Faithful(rd) && Pre(rand) in trees && trees[Pre(rand)].owner == None && Live(id) !in trees
    requires forall x | Live(x) in trees :: MapIndex(x, trees[Live(x)]) != id
    ensures Clients(rd, SwapTree(trees[Pre(rand) := OwnerTree(trees[Pre(rand)], id)], rand, id)) ==
            Joined(Clients(rd, trees), id, id, multiset([id]))
  {
    var after := SwapTree(trees[Pre(rand) := OwnerTree(trees[Pre(rand)], id)], rand, id);
    var want := Joined(Clients(rd, trees), id, id, multiset([id]));
    forall x
      ensures Live(x) in after <==> x in want
      ensures x in want ==> ClientOf(rd, x, after[Live(x)]) == want[x]
    {
      LiveIdsIff(trees, x);
    }
    ClientsAre(rd, after, want);
  }

  lemma NobodyUses(rd: Reading, db: Db, o: Id)
    requires SharingInv(Abs(rd, db)) && o !in db.maps
    ensures forall x | Live(x) in db.trees :: MapIndex(x, db.trees[Live(x)]) != o
  {
    var progs := Abs(rd, db).progs;
    forall x | Live(x) in db.trees
      ensures MapIndex(x, db.trees[Live(x)]) != o
    {
      LiveIdsIff(db.trees, x);
      assert x in Users(progs, progs[x].index);
    }
  }

  /** Adding a program with maps of its own is joining its own map index. */
  lemma OwnerRefines(rd: Reading, db: Db, rand: Id, k: Kernel)
    requires Faithful(rd) && MapInv(rd, db) && FreshId(db, k.kernelId)
    requires Pre(rand) in db.trees && db.trees[Pre(rand)].owner == None && db.trees[Pre(rand)].pinPath == None
    ensures
      var r := FinishAdd(db, rand, None, k);
      r.Ok? && Abs(rd, r.value) == Join(Abs(rd, db), k.kernelId, k.kernelId) && MapInv(rd, r.value)
  {
    var id := k.kernelId;
    OwnerShape(db, rand, k);
    RewrittenMapTree([id]);
    NobodyUses(rd, db, id);
    OwnerClients(rd, db.trees, rand, id);
    var db' := FinishAdd(db, rand, None, k).value;
    AbsJoined(rd, db, db', id, id, SetMapUsedBy(map[], [id]));
    JoinRefined(rd, db, db', id, id, SetMapUsedBy(map[], [id]));
  }

  // ----- Removing -----

  lemma RecordedWithout(rd: Reading, maps: map<Id, Store>, o: Id)
    ensures Recorded(rd, maps - {o}) == Recorded(rd, maps) - {o}
  {
  }

  lemma ClientsWithout(rd: Reading, trees: map<Ref, Prog>, id: Id)
    ensures Clients(rd, trees - {Live(id)}) == Clients(rd, trees) - {id}
  {
  }

  /** Everybody who is still listed is told. */
  lemma RemainingClients(rd: Reading, trees: map<Ref, Prog>, o: Id, used: seq<Id>)
    requires Faithful(rd)
    requires forall x | Live(x) in trees :: x in used <==> MapIndex(x, trees[Live(x)]) == o
    ensures Clients(rd, UpdateUsers(trees, used, 0)) == Tell(Clients(rd, trees), o, multiset(used))
  {
    var want := Tell(Clients(rd, trees), o, multiset(used));
    forall x
      ensures Live(x) in UpdateUsers(trees, used, 0) <==> x in want
      ensures x in want ==> ClientOf(rd, x, UpdateUsers(trees, used, 0)[Live(x)]) == want[x]
    {
      LiveIdsIff(trees, x);
      Told(rd, trees, used, x);
    }
    ClientsAre(rd, UpdateUsers(trees, used, 0), want);
  }

  /** `db1` is `db` after program `id`'s tree is gone, whatever happened to positions and dispatchers. */
  ghost predicate Dropped(rd: Reading, db: Db, db1: Db, id: Id) {
    db1.maps == db.maps && db1.pinDirs == db.pinDirs && Clients(rd, db1.trees) == Clients(rd, db.trees) - {id}
  }

  lemma ClientIs(rd: Reading, trees: map<Ref, Prog>, x: Id)
    requires Live(x) in trees
    ensures x in Clients(rd, trees) && Clients(rd, trees)[x] == ClientOf(rd, x, trees[Live(x)])
  {
  }

  /** After the removal the recorded IDs are exactly the remaining users. */
  lemma RemainingUsers(rd: Reading, db: Db, db1: Db, id: Id, o: Id, used: seq<Id>)
    requires SharingInv(Abs(rd, db)) && Dropped(rd, db, db1, id) && o in db.maps
    requires multiset(used) == rd.users(db.maps[o]) - multiset{id}
    ensures forall x | Live(x) in db1.trees :: x in used <==> MapIndex(x, db1.trees[Live(x)]) == o
  {
    forall x | Live(x) in db1.trees
      ensures x in used <==> MapIndex(x, db1.trees[Live(x)]) == o
    {
      ClientIs(rd, db1.trees, x);
      LiveIdsIff(db.trees, x);
      RecordedIffUser(rd, db, o, x);
      assert x in used <==> x in multiset(used);
    }
  }

  /** The database once index `o` is only used by `used`. */
  function Left(db: Db, o: Id, used: seq<Id>): Db {
    if used == [] then db.(maps := db.maps - {o}, pinDirs := db.pinDirs - {o})
    else db.(maps := db.maps[o := SetMapUsedBy(map[], used)], trees := UpdateUsers(db.trees, used, 0))
  }

  /** What delete_map does to an index that exists. */
  lemma DeleteShape(db: Db, id: Id, owner: Option<Id>, o: Id, used: seq<Id>)
    requires o == (if owner.Some? then owner.value else id) && o in db.maps && o in db.pinDirs && MapTreeOk(db.maps[o])
    requires used == RemoveId(ReadIds(db.maps[o], MAPS_USED_BY_PREFIX), id)
    ensures DeleteMap(db, id, owner) == Ok(Left(db, o, used))
  {
  }

  lemma AbsLeft(rd: Reading, db: Db, db1: Db, id: Id, o: Id, used: seq<Id>)
    requires Faithful(rd) && Dropped(rd, db, db1, id) && o in db.maps
    requires Live(id) in db.trees && MapIndex(id, db.trees[Live(id)]) == o
    requires multiset(used) == rd.users(db.maps[o]) - multiset{id}
    requires forall x | Live(x) in db1.trees :: x in used <==> MapIndex(x, db1.trees[Live(x)]) == o
    ensures
      var sh := Abs(rd, db);
      id in sh.progs && sh.progs[id].index == o && o in sh.maps && Abs(rd, Left(db1, o, used)) == Leave(sh, id)
  {
    ClientIs(rd, db.trees, id);
    EmptyIff(used);
    if used == [] {
      RecordedWithout(rd, db.maps, o);
    } else {
      RewrittenMapTree(used);
      RecordedUpdate(rd, db.maps, o, SetMapUsedBy(map[], used));
      RemainingClients(rd, db1.trees, o, used);
    }
  }

  lemma LeftTrees(db: Db, o: Id, used: seq<Id>)
    requires TreesOk(db.maps)
    ensures TreesOk(Left(db, o, used).maps)
  {
    RewrittenMapTree(used);
  }

  lemma EmptyIff(used: seq<Id>)
    ensures used == [] <==> multiset(used) == multiset{}
  {
  }

  lemma OwnIndexRecorded(rd: Reading, db: Db, id: Id)
    requires SharingInv(Abs(rd, db)) && Live(id) in db.trees
    ensures
      var o := MapIndex(id, db.trees[Live(id)]);
      o in db.maps && o in db.pinDirs && id in rd.users(db.maps[o])
  {
  }

  /** Removing a program from the database is leaving in the simple model, and it cannot fail. */
  lemma RemoveRefines(rd: Reading, db: Db, db1: Db, id: Id)
    requires Faithful(rd) && MapInv(rd, db) && Live(id) in db.trees && Dropped(rd, db, db1, id)
    ensures
      var r, sh := DeleteMap(db1, id, db.trees[Live(id)].owner), Abs(rd, db);
      && r.Ok? && id in sh.progs && sh.progs[id].index in sh.maps
      && Abs(rd, r.value) == Leave(sh, id) && MapInv(rd, r.value)
  {
    var o := MapIndex(id, db.trees[Live(id)]);
    OwnIndexRecorded(rd, db, id);
    var before := ReadIds(db.maps[o], MAPS_USED_BY_PREFIX);
    var used := RemoveId(before, id);
    assert id in multiset(before);
    RemoveIdRemoves(before, id);
    DeleteShape(db1, id, db.trees[Live(id)].owner, o, used);
    RemainingUsers(rd, db, db1, id, o, used);
    AbsLeft(rd, db, db1, id, o, used);
    LeaveKeepsInv(Abs(rd, db), id);
    LeftTrees(db1, o, used);
  }
}
