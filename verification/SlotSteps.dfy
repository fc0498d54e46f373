/**
 Slot bookkeeping across add_program and remove_program: counts, positions and masks stay exact, and nothing
 underflows.
 */
module SlotSteps {
  import opened Wrappers
  import opened Sled
  import opened DispatcherChain
  import opened DaemonModel
  import opened UsedByLists
  import opened MapSharing
  import opened Slots

  ghost predicate ByPriority(trees: map<Ref, Prog>, s: seq<Ref>)
    requires AllNet(trees, s)
  {
    forall i, j | 0 <= i < j < |s| :: trees[s[i]].net.value.priority <= trees[s[j]].net.value.priority
  }

  /**
   The group of `did` is `s` in slot order: positions are places, no lower priority value sits later, and a dispatcher
   exists exactly when there is a program, with one slot for each, at most ten, holding that program's own mask.
   */
  ghost predicate SlotsOk(db: Db, did: DispatcherId, s: seq<Ref>) {
    && Numbered(db.trees, did, s) && AllNet(db.trees, s) && ByPriority(db.trees, s)
    && |s| <= MAX_DISPATCHER_ACTIONS
    && (did in db.dispatchers <==> s != [])
    && (s != [] ==>
          db.dispatchers[did].numExtensions == |s| && db.dispatchers[did].config == Configure(Masks(db.trees, s)))
  }

  /** Only live programs have an interface index, so trees that an early exit left behind are in no group. */
  ghost predicate Settled(trees: map<Ref, Prog>) {
    forall r | r in trees && trees[r].net.Some? ::
      (r.Live? <==> trees[r].net.value.ifIndex.Some?) && (r.Live? ==> trees[r].net.value.attached)
  }

  ghost predicate GroupOk(db: Db, did: DispatcherId) {
    exists s :: SlotsOk(db, did, s)
  }

  ghost predicate GroupsOk(db: Db) {
    forall did :: GroupOk(db, did)
  }

  ghost predicate SlotInv(db: Db) {
    Settled(db.trees) && GroupsOk(db)
  }

  lemma CountIsSize(db: Db, did: DispatcherId, s: seq<Ref>)
    requires SlotsOk(db, did, s)
    ensures NumAttached(db, did) == |s|
  {
  }

  // ----- Frames -----

  /** Same group members with the same network attributes, same dispatcher. */
  ghost predicate SameGroup(db: Db, db': Db, did: DispatcherId) {
    && (forall r :: r in db.trees && InGroup(db.trees[r], did) <==> r in db'.trees && InGroup(db'.trees[r], did))
    && (forall r | r in db.trees && r in db'.trees && InGroup(db.trees[r], did) :: db'.trees[r].net == db.trees[r].net)
    && (did in db.dispatchers <==> did in db'.dispatchers)
    && (did in db.dispatchers ==> db.dispatchers[did] == db'.dispatchers[did])
  }

  lemma GroupFrame(db: Db, db': Db, did: DispatcherId, s: seq<Ref>)
    requires SlotsOk(db, did, s) && SameGroup(db, db', did)
    ensures SlotsOk(db', did, s)
  {
  }

  lemma AllGroupsFrame(db: Db, db': Db)
    requires GroupsOk(db) && forall did :: SameGroup(db, db', did)
    ensures GroupsOk(db')
  {
    forall did
      ensures GroupOk(db', did)
    {
      assert GroupOk(db, did);
      var s :| SlotsOk(db, did, s);
      GroupFrame(db, db', did, s);
    }
  }

  // ----- The rename from the pre-load tree to the live one -----

  ghost predicate Renamed(trees: map<Ref, Prog>, t: map<Ref, Prog>, rand: Id, id: Id)
    requires Pre(rand) in trees
  {
    && (forall r :: r in t <==> (r in trees && r != Pre(rand)) || r == Live(id))
    && (forall r | r in trees && r != Pre(rand) :: t[r].net == trees[r].net && t[r].name == trees[r].name)
    && t[Live(id)].net == SetAttached(trees[Pre(rand)]).net && t[Live(id)].name == trees[Pre(rand)].name
  }

  function Rename(s: seq<Ref>, rand: Id, id: Id): (s': seq<Ref>)
    ensures |s'| == |s| && forall i | 0 <= i < |s| :: s'[i] == if s[i] == Pre(rand) then Live(id) else s[i]
  {
    seq(|s|, i requires 0 <= i < |s| => if s[i] == Pre(rand) then Live(id) else s[i])
  }

  lemma RenamedNumbers(trees: map<Ref, Prog>, t: map<Ref, Prog>, did: DispatcherId, s: seq<Ref>, rand: Id, id: Id)
    requires Numbered(trees, did, s) && Pre(rand) in trees && Live(id) !in trees && Renamed(trees, t, rand, id)
    ensures Numbered(t, did, Rename(s, rand, id))
  {
  }

  lemma RenamedSlots(db: Db, db': Db, did: DispatcherId, s: seq<Ref>, rand: Id, id: Id)
    requires SlotsOk(db, did, s) && Pre(rand) in db.trees && Live(id) !in db.trees
    requires Renamed(db.trees, db'.trees, rand, id) && db'.dispatchers == db.dispatchers
    ensures SlotsOk(db', did, Rename(s, rand, id))
  {
    var s' := Rename(s, rand, id);
    RenamedNumbers(db.trees, db'.trees, did, s, rand, id);
    forall i | 0 <= i < |s|
      ensures s'[i] in db'.trees && s[i] in db.trees && db'.trees[s'[i]].net.Some?
      ensures
        var n, n' := db.trees[s[i]].net.value, db'.trees[s'[i]].net.value;
        n'.priority == n.priority && n'.Mask() == n.Mask()
    {
      assert s[i] in s;
    }
    assert Masks(db'.trees, s') == Masks(db.trees, s);
  }

  lemma RenamedGroups(db: Db, db': Db, rand: Id, id: Id)
    requires GroupsOk(db) && Pre(rand) in db.trees && Live(id) !in db.trees
    requires Renamed(db.trees, db'.trees, rand, id) && db'.dispatchers == db.dispatchers
    ensures GroupsOk(db')
  {
    forall did
      ensures GroupOk(db', did)
    {
      assert GroupOk(db, did);
      var s :| SlotsOk(db, did, s);
      RenamedSlots(db, db', did, s, rand, id);
    }
  }

  // ----- Building a dispatcher over a group that has changed -----

  lemma SortedByPriority(trees: map<Ref, Prog>, s: seq<Ref>)
    requires AllNet(trees, s) && Sorted(trees, s)
    ensures ByPriority(trees, s)
  {
  }

  /** Renumber a group of at most ten and build its dispatcher: the group is in order. */
  lemma RebuiltGroup(db: Db, did: DispatcherId, order: seq<Ref>)
    requires Covers(order, db.trees) && 0 < |Ranking(db.trees, did, order)| <= MAX_DISPATCHER_ACTIONS
    ensures
      var r := NewDispatcher(db.(trees := SetPositions(db.trees, did, order)), did, order);
      && r.Some? && SlotsOk(r.value, did, Ranking(db.trees, did, order))
      && r.value.maps == db.maps && r.value.pinDirs == db.pinDirs
      && r.value.trees == SetPositions(db.trees, did, order)
      && (forall d | d != did :: d in r.value.dispatchers <==> d in db.dispatchers)
      && (forall d | d != did && d in db.dispatchers :: r.value.dispatchers[d] == db.dispatchers[d])
  {
    var t, s := SetPositions(db.trees, did, order), Ranking(db.trees, did, order);
    PositionsAreRanks(db.trees, did, order);
    NewDispatcherSlots(db.(trees := t), did, order, s);
    SortedByPriority(t, s);
  }

  lemma OtherGroup(db: Db, db': Db, did: DispatcherId, d: DispatcherId)
    requires OnlyPositions(db.trees, db'.trees, did) && d != did
    requires d in db'.dispatchers <==> d in db.dispatchers
    requires d in db.dispatchers ==> db'.dispatchers[d] == db.dispatchers[d]
    ensures SameGroup(db, db', d)
  {
  }

  /** All groups are in order but possibly that of `did`, whose members are listed by `s`. */
  ghost predicate OthersOk(db: Db, did: DispatcherId) {
    forall d | d != did :: GroupOk(db, d)
  }

  lemma RebuiltGroups(db: Db, did: DispatcherId, order: seq<Ref>)
    requires Covers(order, db.trees) && 0 < |Ranking(db.trees, did, order)| <= MAX_DISPATCHER_ACTIONS &&
             OthersOk(db, did)
    ensures
      var r := NewDispatcher(db.(trees := SetPositions(db.trees, did, order)), did, order);
      r.Some? && GroupsOk(r.value)
  {
    RebuiltGroup(db, did, order);
    PositionsOnly(db.trees, did, order);
    var db' := NewDispatcher(db.(trees := SetPositions(db.trees, did, order)), did, order).value;
    forall d
      ensures GroupOk(db', d)
    {
      if d != did {
        assert GroupOk(db, d);
        var s :| SlotsOk(db, d, s);
        OtherGroup(db, db', did, d);
        GroupFrame(db, db', d, s);
      }
    }
  }

  // ----- One more program -----

  /** `db'` is `db` with one more tree `r`, in group `did`. */
  ghost predicate OneMore(db: Db, db': Db, r: Ref, p: Prog, did: DispatcherId) {
    r !in db.trees && db'.trees == db.trees[r := p] && InGroup(p, did) && db'.dispatchers == db.dispatchers
  }

  lemma OneMoreOthers(db: Db, db': Db, r: Ref, p: Prog, did: DispatcherId)
    requires GroupsOk(db) && OneMore(db, db', r, p, did)
    ensures OthersOk(db', did)
  {
    forall d | d != did
      ensures GroupOk(db', d)
    {
      assert GroupOk(db, d);
      var s :| SlotsOk(db, d, s);
      GroupFrame(db, db', d, s);
    }
  }

  lemma OneMoreLength(s: seq<Ref>, s': seq<Ref>, r: Ref)
    requires NoRepeats(s) && NoRepeats(s') && r !in s && forall x :: x in s' <==> x in s || x == r
    ensures |s'| == |s| + 1
  {
    SameLength(s', s + [r]);
  }

  lemma OneMoreRanks(db: Db, db': Db, r: Ref, p: Prog, did: DispatcherId, order: seq<Ref>, s: seq<Ref>)
    requires SlotsOk(db, did, s) && OneMore(db, db', r, p, did) && Covers(order, db'.trees)
    ensures |Ranking(db'.trees, did, order)| == |s| + 1
  {
    RankingEnumerates(db'.trees, did, order);
    OneMoreLength(s, Ranking(db'.trees, did, order), r);
  }

  /** The ten-slot limit is exact: a valid program is attached if and only if its group has a free slot. */
  lemma AttachSlots(db: Db, db': Db, rand: Id, p: Prog, did: DispatcherId, k: Kernel)
    requires GroupsOk(db) && OneMore(db, db', Pre(rand), p, did) && Covers(k.order, db'.trees)
    ensures k.fail == Never ==>
              (AttachMulti(db', rand, did, k).Some? <==> NumAttached(db, did) < MAX_DISPATCHER_ACTIONS)
    ensures AttachMulti(db', rand, did, k).Some? ==> GroupsOk(AttachMulti(db', rand, did, k).value)
  {
    assert GroupOk(db, did);
    var s :| SlotsOk(db, did, s);
    CountIsSize(db, did, s);
    if |s| < MAX_DISPATCHER_ACTIONS {
      OneMoreRanks(db, db', Pre(rand), p, did, k.order, s);
      OneMoreOthers(db, db', Pre(rand), p, did);
      RebuiltGroups(db', did, k.order);
    }
  }

  // ----- One program less -----

  ghost predicate OneLess(db: Db, db': Db, r: Ref, did: DispatcherId) {
    r in db.trees && InGroup(db.trees[r], did) && db'.trees == db.trees - {r} && db'.dispatchers == db.dispatchers
  }

  lemma OneLessOthers(db: Db, db': Db, r: Ref, did: DispatcherId)
    requires GroupsOk(db) && OneLess(db, db', r, did)
    ensures OthersOk(db', did)
  {
    forall d | d != did
      ensures GroupOk(db', d)
    {
      assert GroupOk(db, d);
      var s :| SlotsOk(db, d, s);
      GroupFrame(db, db', d, s);
    }
  }

  lemma OneLessRanks(db: Db, db': Db, r: Ref, did: DispatcherId, order: seq<Ref>, s: seq<Ref>)
    requires SlotsOk(db, did, s) && OneLess(db, db', r, did) && Covers(order, db'.trees)
    ensures |Ranking(db'.trees, did, order)| == |s| - 1
  {
    RankingEnumerates(db'.trees, did, order);
    OneMoreLength(Ranking(db'.trees, did, order), s, r);
  }

  lemma LastOneGone(db: Db, db': Db, r: Ref, did: DispatcherId, order: seq<Ref>, s: seq<Ref>)
    requires SlotsOk(db, did, s) && OneLess(db, db', r, did) && Covers(order, db'.trees) && |s| == 1
    ensures SlotsOk(db'.(dispatchers := db'.dispatchers - {did}), did, [])
  {
    OneLessRanks(db, db', r, did, order, s);
    RankingEnumerates(db'.trees, did, order);
    assert Ranking(db'.trees, did, order) == [];
  }

  lemma LastGroups(db: Db, did: DispatcherId)
    requires OthersOk(db, did) && SlotsOk(db.(dispatchers := db.dispatchers - {did}), did, [])
    ensures GroupsOk(db.(dispatchers := db.dispatchers - {did}))
  {
    var db' := db.(dispatchers := db.dispatchers - {did});
    forall d
      ensures GroupOk(db', d)
    {
      if d != did {
        assert GroupOk(db, d);
        var s :| SlotsOk(db, d, s);
        GroupFrame(db, db', d, s);
      }
    }
  }

  /** Removing a program never underflows the extension count and always leaves every group in order. */
  lemma DetachSlots(db: Db, db': Db, r: Ref, did: DispatcherId, order: seq<Ref>)
    requires GroupsOk(db) && OneLess(db, db', r, did) && Covers(order, db'.trees)
    ensures NumAttached(db', did) >= 1
    ensures DetachMulti(db', did, order).Some? && GroupsOk(DetachMulti(db', did, order).value)
  {
    assert GroupOk(db, did);
    var s :| SlotsOk(db, did, s);
    CountIsSize(db, did, s);
    assert r in s;
    OneLessRanks(db, db', r, did, order, s);
    OneLessOthers(db, db', r, did);
    if |s| == 1 {
      LastOneGone(db, db', r, did, order, s);
      LastGroups(db', did);
    } else {
      RebuiltGroups(db', did, order);
    }
  }
}
