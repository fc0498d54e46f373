/** Every run of the daemon: adds that succeed or fail anywhere, and removes. */
module DaemonRuns {
  import opened Wrappers
  import opened Sled
  import opened ProceedOn
  import opened DispatcherChain
  import TcP = TcProceedOn
  import XdpP = XdpProceedOn
  import opened DaemonModel
  import opened UsedByLists
  import opened MapSharing
  import opened Slots
  import opened SlotSteps
  import opened DaemonSteps

  datatype Action = Add(rand: Id, p: Prog, k: Kernel) | Remove(id: Id, order: seq<Ref>)

  const EMPTY := Db(map[], map[], map[], {})

  function Outcome(r: Result<Db, Db>): Db {
    match r case Ok(db) => db case Err(db) => db
  }

  function Apply(db: Db, a: Action): Db {
    match a
    case Add(rand, p, k) => Outcome(AddProgram(db, rand, p, k))
    case Remove(id, order) => Outcome(RemoveProgram(db, id, order))
  }

  /** Fresh names and IDs, and a complete iteration order. */
  ghost predicate Allowed(db: Db, a: Action) {
    match a
    case Add(rand, p, k) => CanAdd(db, rand, p, k)
    case Remove(id, order) => Covers(order, WithoutProgram(db, id).trees)
  }

  /** A removal of a live program succeeds. */
  predicate RemovesCleanly(db: Db, a: Action) {
    a.Remove? && Live(a.id) in db.trees ==> RemoveProgram(db, a.id, a.order).Ok?
  }

  predicate Orderly(a: Action) {
    a.Add? ==> !LateFailure(a.p, a.k)
  }

  ghost predicate Run(dbs: seq<Db>, acts: seq<Action>) {
    && |dbs| == |acts| + 1 && dbs[0] == EMPTY
    && forall i | 0 <= i < |acts| :: Allowed(dbs[i], acts[i]) && dbs[i + 1] == Apply(dbs[i], acts[i])
  }

  ghost predicate Consistent(db: Db) {
    MapInv(GET_USED_BY, db)
  }

  lemma EmptyConsistent()
    ensures Consistent(EMPTY) && SlotInv(EMPTY)
  {
    assert Abs(GET_USED_BY, EMPTY).progs == map[];
    forall o ensures Users(map[], o) == {} { }
    forall did ensures GroupOk(EMPTY, did) { assert SlotsOk(EMPTY, did, []); }
  }

  lemma StepConsistent(db: Db, a: Action)
    requires Consistent(db) && Allowed(db, a) && RemovesCleanly(db, a)
    ensures Consistent(Apply(db, a))
  {
    GetUsedByFaithful();
    match a
    case Add(rand, p, k) => AddRefines(GET_USED_BY, db, rand, p, k);
    case Remove(id, order) =>
      if Live(id) in db.trees {
        RemoveShape(db, id, order);
        RemoveSharing(GET_USED_BY, db, id, order);
      }
  }

  /** In order, every allowed step keeps sharing and slots exact, and a live program can always be removed. */
  lemma StepOrderly(db: Db, a: Action)
    requires Consistent(db) && SlotInv(db) && Allowed(db, a) && Orderly(a)
    ensures RemovesCleanly(db, a) && Consistent(Apply(db, a)) && SlotInv(Apply(db, a))
  {
    match a
    case Add(rand, p, k) =>
      AddKeepsSlots(db, rand, p, k);
      StepConsistent(db, a);
    case Remove(id, order) =>
      if Live(id) in db.trees {
        GetUsedByFaithful();
        DetachedSlots(db, id, order);
        RemoveSharing(GET_USED_BY, db, id, order);
        RemoveKeepsSlots(db, id, order);
      }
  }

  // ----- Sharing over runs -----

  ghost predicate Uses(db: Db, x: Id, o: Id) {
    Live(x) in db.trees && MapIndex(x, db.trees[Live(x)]) == o
  }

  /** The map tree `o` lists exactly its live users, each once. */
  ghost predicate ListsUsers(db: Db, o: Id)
    requires o in db.maps
  {
    var ids := ReadIds(db.maps[o], MAPS_USED_BY_PREFIX);
    (forall i, j | 0 <= i < j < |ids| :: ids[i] != ids[j]) && forall x :: x in ids <==> Uses(db, x, o)
  }

  /** A live program's maps, directory and own list of users are all there and agree. */
  ghost predicate ClientExact(db: Db, x: Id)
    requires Live(x) in db.trees
  {
    var p := db.trees[Live(x)];
    var o := MapIndex(x, p);
    && o in db.maps && o in db.pinDirs && p.pinPath == Some(o)
    && multiset(ReadIds(p.usedBy, PREFIX_MAPS_USED_BY)) == multiset(ReadIds(db.maps[o], MAPS_USED_BY_PREFIX))
  }

  lemma {:induction false} SeqOfSet(ids: seq<Id>, users: set<Id>)
    requires multiset(ids) == multiset(users)
    ensures (forall i, j | 0 <= i < j < |ids| :: ids[i] != ids[j]) && forall x :: x in ids <==> x in users
  {
    forall x ensures x in ids <==> x in users { assert x in ids <==> x in multiset(ids); }
    forall i, j | 0 <= i < j < |ids|
      ensures ids[i] != ids[j]
    {
      assert ids == ids[..j] + [ids[j]] + ids[j + 1..];
      assert multiset(users)[ids[j]] <= 1;
      assert ids[j] !in multiset(ids[..j]);
      assert ids[i] in ids[..j];
    }
  }

  lemma UsersAre(rd: Reading, db: Db, o: Id, x: Id)
    ensures x in Users(Abs(rd, db).progs, o) <==> Uses(db, x, o)
  {
  }

  lemma ConsistentLists(db: Db, o: Id)
    requires Consistent(db) && o in db.maps
    ensures ListsUsers(db, o) && MapTreeOk(db.maps[o]) && ReadIds(db.maps[o], MAPS_USED_BY_PREFIX) != [] &&
            o in db.pinDirs
  {
    var sh := Abs(GET_USED_BY, db);
    assert sh.maps[o] == multiset(Users(sh.progs, o));
    SeqOfSet(ReadIds(db.maps[o], MAPS_USED_BY_PREFIX), Users(sh.progs, o));
    forall x ensures x in Users(sh.progs, o) <==> Uses(db, x, o) { UsersAre(GET_USED_BY, db, o, x); }
    DirsOfMaps(GET_USED_BY, db);
  }

  lemma ConsistentClient(db: Db, x: Id)
    requires Consistent(db) && Live(x) in db.trees
    ensures ClientExact(db, x)
  {
    var sh := Abs(GET_USED_BY, db);
    OwnIndexRecorded(GET_USED_BY, db, x);
    ClientIs(GET_USED_BY, db.trees, x);
    assert sh.maps[sh.progs[x].index] == multiset(Users(sh.progs, sh.progs[x].index));
  }

  lemma {:induction false} RunConsistent(dbs: seq<Db>, acts: seq<Action>, n: nat)
    requires Run(dbs, acts) && n < |dbs| && forall i | 0 <= i < |acts| :: RemovesCleanly(dbs[i], acts[i])
    ensures Consistent(dbs[n])
  {
    EmptyConsistent();
    if n > 0 {
      RunConsistent(dbs, acts, n - 1);
      StepConsistent(dbs[n - 1], acts[n - 1]);
    }
  }

  /**
   Map sharing: after every run of adds, succeeding or failing at any point, and clean removes, a map tree exists
   exactly when somebody uses it and lists exactly its live users, each once, under keys that cannot clash; every live
   program's own list is the same and its pin directory exists, also when the owner itself is gone.
   */
  lemma SharingOverRuns(dbs: seq<Db>, acts: seq<Action>, n: nat)
    requires Run(dbs, acts) && n < |dbs| && forall i | 0 <= i < |acts| :: RemovesCleanly(dbs[i], acts[i])
    ensures forall o | o in dbs[n].maps :: ListsUsers(dbs[n], o) && MapTreeOk(dbs[n].maps[o])
    ensures forall o :: o in dbs[n].maps <==> exists x :: Uses(dbs[n], x, o)
    ensures forall x | Live(x) in dbs[n].trees :: ClientExact(dbs[n], x)
    ensures dbs[n].maps.Keys <= dbs[n].pinDirs
  {
    RunConsistent(dbs, acts, n);
    var db := dbs[n];
    DirsOfMaps(GET_USED_BY, db);
    forall x | Live(x) in db.trees ensures ClientExact(db, x) { ConsistentClient(db, x); }
    forall o
      ensures o in db.maps ==> ListsUsers(db, o) && MapTreeOk(db.maps[o])
      ensures o in db.maps <==> exists x :: Uses(db, x, o)
    {
      if o in db.maps {
        ConsistentLists(db, o);
        assert Uses(db, ReadIds(db.maps[o], MAPS_USED_BY_PREFIX)[0], o);
      }
    }
  }

  lemma AddDirs(db: Db, rand: Id, p: Prog, k: Kernel)
    requires Consistent(db) && CanAdd(db, rand, p, k)
    ensures
      var r := AddProgram(db, rand, p, k);
      if r.Ok? then db.pinDirs <= r.value.pinDirs else r.error.pinDirs - {k.kernelId} == db.pinDirs - {k.kernelId}
  {
    GetUsedByFaithful();
    AddRefines(GET_USED_BY, db, rand, p, k);
    var r := AddProgram(db, rand, p, k);
    if r.Ok? {
      assert Abs(GET_USED_BY, db).dirs == db.pinDirs && Abs(GET_USED_BY, r.value).dirs == r.value.pinDirs;
    }
  }

  lemma LeaveDirs(rd: Reading, db: Db, db': Db, id: Id)
    requires Live(id) in db.trees && id in Abs(rd, db).progs && Abs(rd, db).progs[id].index in Abs(rd, db).maps
    requires Abs(rd, db') == Leave(Abs(rd, db), id)
    ensures forall o | o in db.pinDirs && o !in db'.pinDirs :: Uses(db, id, o)
  {
    ClientIs(rd, db.trees, id);
    assert db'.pinDirs == Leave(Abs(rd, db), id).dirs;
  }

  lemma RemoveDirs(db: Db, id: Id, order: seq<Ref>)
    requires Consistent(db) && Live(id) in db.trees && Covers(order, WithoutProgram(db, id).trees)
    requires RemoveProgram(db, id, order).Ok?
    ensures forall o | o in db.pinDirs && o !in RemoveProgram(db, id, order).value.pinDirs :: Uses(db, id, o)
  {
    GetUsedByFaithful();
    RemoveShape(db, id, order);
    RemoveSharing(GET_USED_BY, db, id, order);
    LeaveDirs(GET_USED_BY, db, RemoveProgram(db, id, order).value, id);
  }

  lemma NobodyUsesFresh(db: Db, id: Id)
    requires Consistent(db) && FreshId(db, id)
    ensures forall x :: !Uses(db, x, id)
  {
    NobodyUses(GET_USED_BY, db, id);
  }

  /**
   Shared pin directories: when a directory disappears, no live program uses it; either its last user was just removed,
   or a failed add took its own directory back.
   */
  lemma PinDirsSafe(db: Db, a: Action, o: Id)
    requires Consistent(db) && Allowed(db, a) && RemovesCleanly(db, a) && o in db.pinDirs && o !in Apply(db, a).pinDirs
    ensures forall x :: !Uses(Apply(db, a), x, o)
    ensures if a.Remove? then Uses(db, a.id, o) else o == a.k.kernelId && forall x :: !Uses(db, x, o)
  {
    StepConsistent(db, a);
    forall x ensures !Uses(Apply(db, a), x, o) { if Uses(Apply(db, a), x, o) { ConsistentClient(Apply(db, a), x); } }
    match a
    case Add(rand, p, k) =>
      AddDirs(db, rand, p, k);
      assert o !in Apply(db, a).pinDirs - {k.kernelId};
      NobodyUsesFresh(db, k.kernelId);
    case Remove(id, order) => if Live(id) in db.trees { RemoveDirs(db, id, order); }
  }

  // ----- Slots over runs -----

  lemma {:induction false} RunOrderly(dbs: seq<Db>, acts: seq<Action>, n: nat)
    requires Run(dbs, acts) && n < |dbs| && forall i | 0 <= i < |acts| :: Orderly(acts[i])
    ensures Consistent(dbs[n]) && SlotInv(dbs[n])
  {
    EmptyConsistent();
    if n > 0 {
      RunOrderly(dbs, acts, n - 1);
      StepOrderly(dbs[n - 1], acts[n - 1]);
    }
  }

  // ----- No directory is left over -----

  /** There is a pin directory for every map index in use, and no other. */
  ghost predicate Tight(db: Db) {
    db.pinDirs == db.maps.Keys
  }

  lemma JoinTight(rd: Reading, db: Db, db': Db, id: Id, o: Id)
    requires Abs(rd, db') == Join(Abs(rd, db), id, o) && Tight(db)
    ensures Tight(db')
  {
    assert Abs(rd, db).maps.Keys == db.maps.Keys && Abs(rd, db').maps.Keys == db'.maps.Keys;
    assert db'.pinDirs == db.pinDirs + {o};
  }

  lemma LeaveTight(rd: Reading, db: Db, db': Db, id: Id)
    requires id in Abs(rd, db).progs && Abs(rd, db).progs[id].index in Abs(rd, db).maps
    requires Abs(rd, db') == Leave(Abs(rd, db), id) && Tight(db)
    ensures Tight(db')
  {
    assert Abs(rd, db).maps.Keys == db.maps.Keys && Abs(rd, db').maps.Keys == db'.maps.Keys;
    assert db'.pinDirs == Leave(Abs(rd, db), id).dirs;
  }

  lemma AddTight(db: Db, rand: Id, p: Prog, k: Kernel)
    requires Consistent(db) && CanAdd(db, rand, p, k) && !LateFailure(p, k) && Tight(db)
    ensures Tight(Apply(db, Add(rand, p, k)))
  {
    GetUsedByFaithful();
    AddRefines(GET_USED_BY, db, rand, p, k);
    var r := AddProgram(db, rand, p, k);
    if r.Ok? {
      JoinTight(GET_USED_BY, db, r.value, k.kernelId, if p.owner.Some? then p.owner.value else k.kernelId);
    } else {
      RefusedDirsExact(db, rand, p, k);
    }
  }

  /** In order, the pin directories are exactly those of the maps in use. */
  lemma StepTight(db: Db, a: Action)
    requires Consistent(db) && SlotInv(db) && Allowed(db, a) && Orderly(a) && Tight(db)
    ensures Tight(Apply(db, a))
  {
    match a
    case Add(rand, p, k) => AddTight(db, rand, p, k);
    case Remove(id, order) =>
      if Live(id) in db.trees {
        GetUsedByFaithful();
        DetachedSlots(db, id, order);
        RemoveSharing(GET_USED_BY, db, id, order);
        LeaveTight(GET_USED_BY, db, RemoveProgram(db, id, order).value, id);
      }
  }

  /** After every run in which no dispatcher load fails, the pin directories are exactly those of the maps in use. */
  lemma {:induction false} DirsOverRuns(dbs: seq<Db>, acts: seq<Action>, n: nat)
    requires Run(dbs, acts) && n < |dbs| && forall i | 0 <= i < |acts| :: Orderly(acts[i])
    ensures Tight(dbs[n])
  {
    assert Tight(EMPTY);
    if n > 0 {
      DirsOverRuns(dbs, acts, n - 1);
      RunOrderly(dbs, acts, n - 1);
      StepTight(dbs[n - 1], acts[n - 1]);
    }
  }

  /**
   Slots: after every run in which no dispatcher load fails, each group is numbered 0..n-1 in priority order, has a
   dispatcher exactly when it is nonempty, with n slots, at most ten, each holding its own program's mask; any live
   program can be removed, and the extension count of its dispatcher is then at least one.
   */
  lemma SlotsOverRuns(dbs: seq<Db>, acts: seq<Action>, n: nat, did: DispatcherId)
    requires Run(dbs, acts) && n < |dbs| && forall i | 0 <= i < |acts| :: Orderly(acts[i])
    ensures exists s :: SlotsOk(dbs[n], did, s)
    ensures forall r | r in dbs[n].trees && InGroup(dbs[n].trees[r], did) :: NumAttached(dbs[n], did) >= 1 && r.Live?
    ensures forall id, order | Live(id) in dbs[n].trees && Covers(order, WithoutProgram(dbs[n], id).trees) ::
              RemoveProgram(dbs[n], id, order).Ok?
  {
    RunOrderly(dbs, acts, n);
    var db := dbs[n];
    assert GroupOk(db, did);
    var s :| SlotsOk(db, did, s);
    CountIsSize(db, did, s);
    forall id, order | Live(id) in db.trees && Covers(order, WithoutProgram(db, id).trees)
      ensures RemoveProgram(db, id, order).Ok?
    {
      StepOrderly(db, Remove(id, order));
    }
  }

  // ----- What a packet meets -----

  function ShiftOf(hook: Hook): nat {
    if hook.Xdp? then 0 else 1
  }

  function VerdictOf(hook: Hook): int {
    if hook.Xdp? then XDP_PASS else TC_ACT_OK
  }

  /** What the programs of a group ask for, in slot order. */
  function AskedBy(trees: map<Ref, Prog>, s: seq<Ref>): (allowed: seq<set<int>>)
    requires AllNet(trees, s)
    ensures |allowed| == |s| && forall i | 0 <= i < |s| :: allowed[i] == trees[s[i]].net.value.Asks()
  {
    seq(|s|, i requires 0 <= i < |s| => assert s[i] in s; trees[s[i]].net.value.Asks())
  }

  lemma MaskMeansAsked(net: Net)
    ensures Admits(net.Mask(), net.Asks(), ShiftOf(net.hook))
  {
    if net.hook.Xdp? {
      XdpP.CodecSound();
      SlotMaskAdmits(XdpP.CODEC, net.proceedOn, map[]);
    } else {
      TcP.CodecSound();
      SlotMaskAdmits(TcP.CODEC, net.proceedOn, map[]);
    }
  }

  /**
   A group's dispatcher runs its programs in slot order and returns the first code that its own program did not ask
   for.
   */
  lemma DispatcherRunsGroup(db: Db, did: DispatcherId, s: seq<Ref>, rets: seq<int>)
    requires SlotsOk(db, did, s) && s != [] && |rets| > MAX_DISPATCHER_ACTIONS
    requires forall i | 0 <= i < |rets| :: 0 <= rets[i] + ShiftOf(did.hook) < 32
    ensures db.dispatchers[did].config.Valid()
    ensures FirstStop(rets, GoesOn(db.dispatchers[did].config, rets, ShiftOf(did.hook)), VerdictOf(did.hook), 0) ==
            Wanted(AskedBy(db.trees, s), rets, VerdictOf(did.hook))
  {
    forall i | 0 <= i < |s|
      ensures Admits(Masks(db.trees, s)[i], AskedBy(db.trees, s)[i], ShiftOf(did.hook))
    {
      assert InGroup(db.trees[s[i]], did);
      MaskMeansAsked(db.trees[s[i]].net.value);
    }
    ChainMeans(Masks(db.trees, s), AskedBy(db.trees, s), rets, ShiftOf(did.hook), VerdictOf(did.hook));
  }


  /**
   What a packet meets after any run in which no dispatcher load failed: on every hook with a program the dispatcher
   returns the first code, in slot order, that its own program did not ask for, and the default verdict if there is
   none.
   */
  lemma PacketsOverRuns(dbs: seq<Db>, acts: seq<Action>, n: nat, did: DispatcherId, rets: seq<int>)
    returns (s: seq<Ref>)
    requires Run(dbs, acts) && n < |dbs| && forall i | 0 <= i < |acts| :: Orderly(acts[i])
    requires |rets| > MAX_DISPATCHER_ACTIONS && forall i | 0 <= i < |rets| :: 0 <= rets[i] + ShiftOf(did.hook) < 32
    ensures SlotsOk(dbs[n], did, s)
    ensures did in dbs[n].dispatchers ==>
              && dbs[n].dispatchers[did].config.Valid()
              && var goesOn := GoesOn(dbs[n].dispatchers[did].config, rets, ShiftOf(did.hook));
                 FirstStop(rets, goesOn, VerdictOf(did.hook), 0) ==
                 Wanted(AskedBy(dbs[n].trees, s), rets, VerdictOf(did.hook))
  {
    SlotsOverRuns(dbs, acts, n, did);
    s :| SlotsOk(dbs[n], did, s);
    if s != [] { DispatcherRunsGroup(dbs[n], did, s, rets); }
  }
}
