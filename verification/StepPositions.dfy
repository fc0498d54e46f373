/**
 Positions after whole steps: what a successful add or remove makes of the order of a group, and of the other groups.
 */
module StepPositions {
  import opened Wrappers
  import opened Sled
  import opened DispatcherChain
  import opened DaemonModel
  import opened MapSharing
  import opened Slots
  import opened SlotSteps
  import opened DaemonSteps

  /** Where the not yet attached program ends up among attached ones: before its equals. */
  lemma NewcomerRank(trees: map<Ref, Prog>, s: seq<Ref>, j: nat)
    requires AllNet(trees, s) && Sorted(trees, s) && j < |s| && !trees[s[j]].net.value.attached
    requires forall i | 0 <= i < |s| && i != j :: trees[s[i]].net.value.attached
    ensures forall i | 0 <= i < j :: trees[s[i]].net.value.priority < trees[s[j]].net.value.priority
    ensures forall i | j < i < |s| :: trees[s[i]].net.value.priority >= trees[s[j]].net.value.priority
  {
  }

  /** The order that an add of `p` sorts its group into; the new program is not attached yet at that point. */
  function AddOrder(db: Db, rand: Id, p: Prog, k: Kernel): seq<Ref>
    requires p.net.Some?
  {
    Ranking(With(db, rand, Prepared(p, k)).trees, HookOf(p, k), k.order)
  }

  lemma LoadedNumbers(db: Db, rand: Id, p: Prog, k: Kernel)
    requires CanAdd(db, rand, p, k) && Accepted(db, rand, p, k) && p.net.Some?
    ensures
      var trees, s := With(db, rand, Prepared(p, k)).trees, AddOrder(db, rand, p, k);
      && OnlyPositions(trees, Loaded(db, rand, p, k).trees, HookOf(p, k))
      && Numbered(Loaded(db, rand, p, k).trees, HookOf(p, k), s)
      && NoRepeats(s) && AllNet(trees, s) && Sorted(trees, s)
      && (forall r :: r in s <==> r in trees && InGroup(trees[r], HookOf(p, k)))
  {
    var db1 := With(db, rand, Prepared(p, k));
    AttachFrame(db1, rand, HookOf(p, k), k);
    PositionsAreRanks(db1.trees, HookOf(p, k), k.order);
    RankingEnumerates(db1.trees, HookOf(p, k), k.order);
  }

  lemma AddRenames(db: Db, rand: Id, p: Prog, k: Kernel)
    requires CanAdd(db, rand, p, k) && Accepted(db, rand, p, k)
    ensures AddProgram(db, rand, p, k).Ok? && Pre(rand) in Loaded(db, rand, p, k).trees
    ensures Renamed(Loaded(db, rand, p, k).trees, AddProgram(db, rand, p, k).value.trees, rand, k.kernelId)
    ensures Live(k.kernelId) !in Loaded(db, rand, p, k).trees
  {
    LoadedFrame(db, rand, p, k);
    LoadedFinishes(db, rand, p, k);
    FinishRenames(Loaded(db, rand, p, k), rand, p.owner, k);
  }

  lemma OthersUnmoved(
    trees: map<Ref, Prog>, rand: Id, p: Prog, loaded: map<Ref, Prog>, t: map<Ref, Prog>, did: DispatcherId, id: Id)
    requires Pre(rand) !in trees && Pre(rand) in loaded
    requires OnlyPositions(trees[Pre(rand) := p], loaded, did) && Renamed(loaded, t, rand, id)
    ensures forall r | r in trees && !InGroup(trees[r], did) :: r in t && t[r].net == trees[r].net
  {
  }

  /** A successful add numbers its group 0..n-1 in the order of the sort key and leaves every other group alone. */
  lemma AddPositions(db: Db, rand: Id, p: Prog, k: Kernel)
    requires CanAdd(db, rand, p, k) && Accepted(db, rand, p, k) && p.net.Some?
    ensures AddProgram(db, rand, p, k).Ok?
    ensures
      var t, s := AddProgram(db, rand, p, k).value.trees, AddOrder(db, rand, p, k);
      && Numbered(t, HookOf(p, k), Rename(s, rand, k.kernelId))
      && AllNet(With(db, rand, Prepared(p, k)).trees, s) && Sorted(With(db, rand, Prepared(p, k)).trees, s)
      && (forall r | r in db.trees && !InGroup(db.trees[r], HookOf(p, k)) :: r in t && t[r].net == db.trees[r].net)
  {
    LoadedNumbers(db, rand, p, k);
    AddRenames(db, rand, p, k);
    var l, t := Loaded(db, rand, p, k).trees, AddProgram(db, rand, p, k).value.trees;
    RenamedNumbers(l, t, HookOf(p, k), AddOrder(db, rand, p, k), rand, k.kernelId);
    OthersUnmoved(db.trees, rand, Prepared(p, k), l, t, HookOf(p, k), k.kernelId);
  }

  /** The places of an attached program and of the newcomer in a sorted group. */
  lemma PlacesOf(trees: map<Ref, Prog>, s: seq<Ref>, r: Ref, newcomer: Ref) returns (i: nat, j: nat)
    requires AllNet(trees, s) && Sorted(trees, s) && r in s && newcomer in s && NoRepeats(s)
    requires forall x | x in s :: trees[x].net.value.attached <==> x != newcomer
    requires r != newcomer
    ensures i < |s| && s[i] == r && j < |s| && s[j] == newcomer
    ensures i < j <==> trees[r].net.value.priority < trees[newcomer].net.value.priority
  {
    i :| 0 <= i < |s| && s[i] == r;
    j :| 0 <= j < |s| && s[j] == newcomer;
    forall x | 0 <= x < |s| && x != j ensures trees[s[x]].net.value.attached { assert s[x] in s; }
    NewcomerRank(trees, s, j);
  }

  lemma NewcomerPlace(db: Db, rand: Id, p: Prog, k: Kernel, r: Ref) returns (i: nat, j: nat)
    requires Settled(db.trees) && CanAdd(db, rand, p, k) && Accepted(db, rand, p, k) && p.net.Some?
    requires r in db.trees && InGroup(db.trees[r], HookOf(p, k))
    ensures i < |AddOrder(db, rand, p, k)| && AddOrder(db, rand, p, k)[i] == r
    ensures j < |AddOrder(db, rand, p, k)| && AddOrder(db, rand, p, k)[j] == Pre(rand)
    ensures i < j <==> db.trees[r].net.value.priority < p.net.value.priority
  {
    LoadedNumbers(db, rand, p, k);
    OnlyNewcomerDetached(db.trees, rand, Prepared(p, k), HookOf(p, k), AddOrder(db, rand, p, k));
    i, j := PlacesOf(With(db, rand, Prepared(p, k)).trees, AddOrder(db, rand, p, k), r, Pre(rand));
  }

  lemma OnlyNewcomerDetached(trees: map<Ref, Prog>, rand: Id, p: Prog, did: DispatcherId, s: seq<Ref>)
    requires Settled(trees) && Pre(rand) !in trees && p.net.Some? && !p.net.value.attached
    requires forall r :: r in s <==> r in trees[Pre(rand) := p] && InGroup(trees[Pre(rand) := p][r], did)
    ensures forall x | x in s :: trees[Pre(rand) := p][x].net.Some? &&
                                 (trees[Pre(rand) := p][x].net.value.attached <==> x != Pre(rand))
  {
  }

  /**
   Ties as coded: a newly added program sits behind exactly the programs with a lower priority value, so before every
   program of its own priority that is already attached, whatever their names.
   */
  lemma NewcomerBeforeEquals(db: Db, rand: Id, p: Prog, k: Kernel, r: Ref)
    requires Settled(db.trees) && CanAdd(db, rand, p, k) && Accepted(db, rand, p, k) && p.net.Some?
    requires r in db.trees && InGroup(db.trees[r], HookOf(p, k))
    ensures AddProgram(db, rand, p, k).Ok?
    ensures
      var t := AddProgram(db, rand, p, k).value.trees;
      && r in t && Live(k.kernelId) in t && t[r].net.Some? && t[Live(k.kernelId)].net.Some?
      && var theirs, its := t[r].net.value.position, t[Live(k.kernelId)].net.value.position;
         && theirs.Some? && its.Some?
         && (theirs.value < its.value <==> db.trees[r].net.value.priority < p.net.value.priority)
  {
    var s := AddOrder(db, rand, p, k);
    AddPositions(db, rand, p, k);
    var i, j := NewcomerPlace(db, rand, p, k, r);
    var s' := Rename(s, rand, k.kernelId);
    assert s'[i] == r && s'[j] == Live(k.kernelId);
    assert s'[i] in s' && s'[j] in s';
  }

  // ----- remove_program -----

  lemma DetachedNumbers(db: Db, did: DispatcherId, order: seq<Ref>)
    requires Covers(order, db.trees) && DetachMulti(db, did, order).Some?
    requires NumAttached(db, did) == 1 ==> Ranking(db.trees, did, order) == []
    ensures
      var t, s := DetachMulti(db, did, order).value.trees, Ranking(db.trees, did, order);
      OnlyPositions(db.trees, t, did) && Numbered(t, did, s) && AllNet(t, s) && Sorted(t, s)
  {
    PositionsAreRanks(db.trees, did, order);
    RankingEnumerates(db.trees, did, order);
  }

  lemma NumberedAfterTold(t: map<Ref, Prog>, t': map<Ref, Prog>, did: DispatcherId, s: seq<Ref>)
    requires Numbered(t, did, s) && t'.Keys == t.Keys && forall r | r in t :: t'[r].net == t[r].net
    ensures Numbered(t', did, s)
  {
  }

  /**
   A successful remove numbers what is left of the group 0..n-1 in the order of the sort key, and leaves every other
   group alone.
   */
  lemma RemovePositions(db: Db, id: Id, order: seq<Ref>)
    requires SlotInv(db) && Live(id) in db.trees && db.trees[Live(id)].net.Some?
    requires Covers(order, WithoutProgram(db, id).trees) && RemoveProgram(db, id, order).Ok?
    ensures db.trees[Live(id)].net.value.ifIndex.Some?
    ensures
      var did := DispatcherId(db.trees[Live(id)].net.value.hook, db.trees[Live(id)].net.value.ifIndex.value);
      var t, s := RemoveProgram(db, id, order).value.trees, Ranking(WithoutProgram(db, id).trees, did, order);
      && Numbered(t, did, s) && AllNet(WithoutProgram(db, id).trees, s) && Sorted(WithoutProgram(db, id).trees, s)
      && (forall r | r in WithoutProgram(db, id).trees && !InGroup(db.trees[r], did) ::
            r in t && t[r].net == db.trees[r].net)
  {
    var net, db1 := db.trees[Live(id)].net.value, WithoutProgram(db, id);
    RemoveShape(db, id, order);
    var did, db2 := DispatcherId(net.hook, net.ifIndex.value), Detached(db, id, order).value;
    LastOneLeaves(db, id, did, order);
    DetachedNumbers(db1, did, order);
    RankingEnumerates(db1.trees, did, order);
    DeleteMapNets(db2, id, db.trees[Live(id)].owner);
    NumberedAfterTold(db2.trees, RemoveProgram(db, id, order).value.trees, did, Ranking(db1.trees, did, order));
  }

  lemma LastOneLeaves(db: Db, id: Id, did: DispatcherId, order: seq<Ref>)
    requires SlotInv(db) && Live(id) in db.trees && InGroup(db.trees[Live(id)], did) &&
             Covers(order, WithoutProgram(db, id).trees)
    ensures NumAttached(db, did) == 1 ==> Ranking(WithoutProgram(db, id).trees, did, order) == []
  {
    assert GroupOk(db, did);
    var s :| SlotsOk(db, did, s);
    CountIsSize(db, did, s);
    OneLessRanks(db, WithoutProgram(db, id), Live(id), did, order, s);
  }

  // ----- The order by its key, and what stays -----

  /** Position of `a` below that of `b`. */
  ghost predicate Lower(t: map<Ref, Prog>, a: Ref, b: Ref) {
    && a in t && b in t && t[a].net.Some? && t[b].net.Some?
    && t[a].net.value.position.Some? && t[b].net.value.position.Some?
    && t[a].net.value.position.value < t[b].net.value.position.value
  }

  /** After a successful add, programs that were on the hook before are in the order of priority, attached and name. */
  lemma AddOrdersByKey(db: Db, rand: Id, p: Prog, k: Kernel, a: Ref, b: Ref)
    requires CanAdd(db, rand, p, k) && Accepted(db, rand, p, k) && p.net.Some?
    requires a in db.trees && b in db.trees
    requires InGroup(db.trees[a], HookOf(p, k)) && InGroup(db.trees[b], HookOf(p, k))
    requires Precedes(db.trees[a], db.trees[b])
    ensures AddProgram(db, rand, p, k).Ok? && Lower(AddProgram(db, rand, p, k).value.trees, a, b)
  {
    LoadedByKey(db, rand, p, k, a, b);
    AddRenames(db, rand, p, k);
    RenamedLower(Loaded(db, rand, p, k).trees, AddProgram(db, rand, p, k).value.trees, rand, k.kernelId, a, b);
  }

  lemma LoadedByKey(db: Db, rand: Id, p: Prog, k: Kernel, a: Ref, b: Ref)
    requires CanAdd(db, rand, p, k) && Accepted(db, rand, p, k) && p.net.Some?
    requires a in db.trees && b in db.trees
    requires InGroup(db.trees[a], HookOf(p, k)) && InGroup(db.trees[b], HookOf(p, k))
    requires Precedes(db.trees[a], db.trees[b])
    ensures Lower(Loaded(db, rand, p, k).trees, a, b)
  {
    var trees, s := With(db, rand, Prepared(p, k)).trees, AddOrder(db, rand, p, k);
    LoadedNumbers(db, rand, p, k);
    PrecedingIsLower(trees, Loaded(db, rand, p, k).trees, HookOf(p, k), s, a, b);
  }

  lemma RenamedLower(l: map<Ref, Prog>, t: map<Ref, Prog>, rand: Id, id: Id, a: Ref, b: Ref)
    requires Pre(rand) in l && Renamed(l, t, rand, id) && a != Pre(rand) && b != Pre(rand) && Lower(l, a, b)
    ensures Lower(t, a, b)
  {
  }

  /** After a successful remove, the programs that are left are in that order. */
  lemma RemoveOrdersByKey(db: Db, id: Id, order: seq<Ref>, a: Ref, b: Ref)
    requires SlotInv(db) && Live(id) in db.trees && db.trees[Live(id)].net.Some?
    requires Covers(order, WithoutProgram(db, id).trees) && RemoveProgram(db, id, order).Ok?
    requires a in db.trees && b in db.trees && a != Live(id) && b != Live(id)
    requires db.trees[Live(id)].net.value.ifIndex.Some? ==>
               var did := DispatcherId(db.trees[Live(id)].net.value.hook, db.trees[Live(id)].net.value.ifIndex.value);
               InGroup(db.trees[a], did) && InGroup(db.trees[b], did) && Precedes(db.trees[a], db.trees[b])
    ensures Lower(RemoveProgram(db, id, order).value.trees, a, b)
  {
    RemovePositions(db, id, order);
    var did := DispatcherId(db.trees[Live(id)].net.value.hook, db.trees[Live(id)].net.value.ifIndex.value);
    RankedLower(WithoutProgram(db, id).trees, RemoveProgram(db, id, order).value.trees, did, order, a, b);
  }

  lemma RankedLower(trees: map<Ref, Prog>, t: map<Ref, Prog>, did: DispatcherId, order: seq<Ref>, a: Ref, b: Ref)
    requires Covers(order, trees) && a in trees && b in trees && InGroup(trees[a], did) && InGroup(trees[b], did)
    requires Numbered(t, did, Ranking(trees, did, order)) && Precedes(trees[a], trees[b])
    ensures Lower(t, a, b)
  {
    RankingEnumerates(trees, did, order);
    PrecedingIsLower(trees, t, did, Ranking(trees, did, order), a, b);
  }

  /** All attributes but the position are the same. */
  ghost predicate SameAttributes(p: Prog, q: Prog) {
    && q.name == p.name && q.net.Some? == p.net.Some?
    && (p.net.Some? ==> q.net.value == p.net.value.(position := q.net.value.position))
  }

  /** A successful add keeps every program's name and attributes, and stores its own as they were given. */
  lemma AddKeepsAttributes(db: Db, rand: Id, p: Prog, k: Kernel, r: Ref)
    requires CanAdd(db, rand, p, k) && Accepted(db, rand, p, k)
    ensures AddProgram(db, rand, p, k).Ok?
    ensures
      var t := AddProgram(db, rand, p, k).value.trees;
      && (r in t <==> r in db.trees || r == Live(k.kernelId))
      && (r in db.trees ==> SameAttributes(db.trees[r], t[r]))
      && Live(k.kernelId) in t
      && SameAttributes(
           if p.net.Some? then p.(net := Some(p.net.value.(ifIndex := Some(k.ifIndex), attached := true))) else p,
           t[Live(k.kernelId)])
  {
    var l := Loaded(db, rand, p, k);
    AddRenames(db, rand, p, k);
    LoadedAttributes(db, rand, p, k);
    RenamedAttributes(db.trees, Prepared(p, k), l.trees, AddProgram(db, rand, p, k).value.trees, rand, k.kernelId, r);
  }

  lemma LoadedAttributes(db: Db, rand: Id, p: Prog, k: Kernel)
    requires CanAdd(db, rand, p, k) && Accepted(db, rand, p, k)
    ensures KeepAttributes(With(db, rand, Prepared(p, k)).trees, Loaded(db, rand, p, k).trees)
  {
    if p.net.Some? {
      CoversPrepared(db.trees, rand, p, Prepared(p, k), k.order);
      AttachKeepsAttributes(With(db, rand, Prepared(p, k)), rand, HookOf(p, k), k);
    }
  }

  ghost predicate KeepAttributes(trees: map<Ref, Prog>, t: map<Ref, Prog>) {
    t.Keys == trees.Keys && forall r | r in t :: SameAttributes(trees[r], t[r])
  }

  lemma CoversPrepared(trees: map<Ref, Prog>, rand: Id, p: Prog, q: Prog, order: seq<Ref>)
    requires Covers(order, trees[Pre(rand) := p])
    ensures Covers(order, trees[Pre(rand) := q])
  {
    assert trees[Pre(rand) := q].Keys == trees[Pre(rand) := p].Keys;
  }

  lemma AttachKeepsAttributes(db: Db, rand: Id, did: DispatcherId, k: Kernel)
    requires AttachMulti(db, rand, did, k).Some? && Covers(k.order, db.trees)
    ensures KeepAttributes(db.trees, AttachMulti(db, rand, did, k).value.trees)
  {
    AttachFrame(db, rand, did, k);
    PositionsKeepAttributes(db.trees, AttachMulti(db, rand, did, k).value.trees, did);
  }

  lemma PositionsKeepAttributes(trees: map<Ref, Prog>, t: map<Ref, Prog>, did: DispatcherId)
    requires OnlyPositions(trees, t, did)
    ensures KeepAttributes(trees, t)
  {
  }

  lemma RenamedAttributes(
    trees: map<Ref, Prog>, p: Prog, l: map<Ref, Prog>, t: map<Ref, Prog>, rand: Id, id: Id, r: Ref)
    requires Pre(rand) !in trees && KeepAttributes(trees[Pre(rand) := p], l)
    requires Live(id) !in l && Pre(rand) in l && Renamed(l, t, rand, id)
    ensures r in t <==> r in trees || r == Live(id)
    ensures r in trees ==> r in t && SameAttributes(trees[r], t[r])
    ensures Live(id) in t && SameAttributes(SetAttached(p), t[Live(id)])
  {
    assert SameAttributes(p, l[Pre(rand)]);
  }

  /** A successful remove takes its program away and keeps every other program's name and attributes. */
  lemma RemoveKeepsAttributes(db: Db, id: Id, order: seq<Ref>, r: Ref)
    requires Live(id) in db.trees && Covers(order, WithoutProgram(db, id).trees) && RemoveProgram(db, id, order).Ok?
    ensures
      var t := RemoveProgram(db, id, order).value.trees;
      (r in t <==> r in db.trees && r != Live(id)) && (r in t ==> SameAttributes(db.trees[r], t[r]))
  {
    RemoveShape(db, id, order);
    DetachKeepsAttributes(db, id, order);
    DeleteMapNets(Detached(db, id, order).value, id, db.trees[Live(id)].owner);
  }

  lemma DetachKeepsAttributes(db: Db, id: Id, order: seq<Ref>)
    requires Live(id) in db.trees && Covers(order, WithoutProgram(db, id).trees) && Detached(db, id, order).Some?
    ensures
      var t := Detached(db, id, order).value.trees;
      t.Keys == db.trees.Keys - {Live(id)} && forall r | r in t :: SameAttributes(db.trees[r], t[r])
  {
    var db1, net := WithoutProgram(db, id), db.trees[Live(id)].net;
    if net.Some? {
      var did := DispatcherId(net.value.hook, net.value.ifIndex.value);
      DetachFrame(db1, did, order);
      var t := DetachMulti(db1, did, order).value.trees;
      if OnlyPositions(db1.trees, t, did) { PositionsKeepAttributes(db1.trees, t, did); }
    }
  }

  // ----- Dispatchers -----

  /** The dispatcher of a hook after a change: the next revision, its programs counted, all other hooks untouched. */
  ghost predicate Rebuilt(db: Db, db': Db, did: DispatcherId) {
    && did in db'.dispatchers && db'.dispatchers == db.dispatchers[did := db'.dispatchers[did]]
    && db'.dispatchers[did].revision ==
       if did in db.dispatchers then (db.dispatchers[did].revision + 1) % 0x1_0000_0000 else 1
  }

  lemma AddRebuilds(db: Db, rand: Id, p: Prog, k: Kernel)
    requires CanAdd(db, rand, p, k) && Accepted(db, rand, p, k)
    ensures AddProgram(db, rand, p, k).Ok?
    ensures
      var db' := AddProgram(db, rand, p, k).value;
      if p.net.None? then db'.dispatchers == db.dispatchers else Rebuilt(db, db', HookOf(p, k))
  {
    var l := Loaded(db, rand, p, k);
    LoadedFrame(db, rand, p, k);
    LoadedFinishes(db, rand, p, k);
    FinishRenames(l, rand, p.owner, k);
    LoadedDispatchers(db, rand, p, k);
    if p.net.Some? { SameRebuilt(db, l, FinishAdd(l, rand, p.owner, k).value, HookOf(p, k)); }
  }

  lemma LoadedDispatchers(db: Db, rand: Id, p: Prog, k: Kernel)
    requires CanAdd(db, rand, p, k) && Accepted(db, rand, p, k)
    ensures
      var l := Loaded(db, rand, p, k);
      if p.net.None? then l.dispatchers == db.dispatchers else Rebuilt(db, l, HookOf(p, k))
  {
    if p.net.Some? {
      var db1 := With(db, rand, Prepared(p, k));
      AttachRebuilds(db1, rand, HookOf(p, k), k);
      FromSame(db, db1, Loaded(db, rand, p, k), HookOf(p, k));
    }
  }

  lemma NewRebuilds(db: Db, did: DispatcherId, order: seq<Ref>)
    requires NewDispatcher(db, did, order).Some?
    ensures Rebuilt(db, NewDispatcher(db, did, order).value, did)
  {
  }

  lemma AttachRebuilds(db: Db, rand: Id, did: DispatcherId, k: Kernel)
    requires AttachMulti(db, rand, did, k).Some?
    ensures Rebuilt(db, AttachMulti(db, rand, did, k).value, did)
  {
    var db1 := db.(trees := SetPositions(db.trees, did, k.order));
    NewRebuilds(db1, did, k.order);
    FromSame(db, db1, NewDispatcher(db1, did, k.order).value, did);
  }

  lemma FromSame(db: Db, db1: Db, db2: Db, did: DispatcherId)
    requires db1.dispatchers == db.dispatchers && Rebuilt(db1, db2, did)
    ensures Rebuilt(db, db2, did)
  {
  }

  lemma SameRebuilt(db: Db, l: Db, db': Db, did: DispatcherId)
    requires Rebuilt(db, l, did) && db'.dispatchers == l.dispatchers
    ensures Rebuilt(db, db', did)
  {
  }

  lemma DetachRebuilds(db: Db, did: DispatcherId, order: seq<Ref>)
    requires DetachMulti(db, did, order).Some?
    ensures
      var db' := DetachMulti(db, did, order).value;
      if NumAttached(db, did) == 1 then db'.dispatchers == db.dispatchers - {did} else Rebuilt(db, db', did)
  {
    if NumAttached(db, did) > 1 {
      var db1 := db.(trees := SetPositions(db.trees, did, order));
      NewRebuilds(db1, did, order);
      FromSame(db, db1, NewDispatcher(db1, did, order).value, did);
    }
  }

  /** Removing the last program of a hook takes the dispatcher away; otherwise it is rebuilt. */
  lemma RemoveRebuilds(db: Db, id: Id, order: seq<Ref>)
    requires Live(id) in db.trees && RemoveProgram(db, id, order).Ok?
    ensures
      var db', net := RemoveProgram(db, id, order).value, db.trees[Live(id)].net;
      if net.None? then db'.dispatchers == db.dispatchers
      else
        && net.value.ifIndex.Some?
        && var did := DispatcherId(net.value.hook, net.value.ifIndex.value);
           if NumAttached(db, did) == 1 then db'.dispatchers == db.dispatchers - {did} else Rebuilt(db, db', did)
  {
    RemoveShape(db, id, order);
    var db1, net := Detached(db, id, order).value, db.trees[Live(id)].net;
    DeleteMapNets(db1, id, db.trees[Live(id)].owner);
    if net.Some? {
      var did := DispatcherId(net.value.hook, net.value.ifIndex.value);
      DetachRebuilds(WithoutProgram(db, id), did, order);
      if NumAttached(db, did) != 1 {
        FromSame(db, WithoutProgram(db, id), db1, did);
        SameRebuilt(db, db1, DeleteMap(db1, id, db.trees[Live(id)].owner).value, did);
      }
    }
  }
}
