/**
 Positions after an add whose dispatcher could not be loaded: they were reassigned for the new program too, which is
 then deleted. The positions that remain are gap-free exactly when the new program ranked last.
 */
module PositionGaps {
  import opened Wrappers
  import opened Sled
  import opened DispatcherChain
  import opened DaemonModel
  import opened MapSharing
  import opened Slots
  import opened SlotSteps
  import opened DaemonSteps
  import opened StepPositions
  import opened DaemonRuns

  ghost predicate GapFree(trees: map<Ref, Prog>, did: DispatcherId) {
    exists s :: Numbered(trees, did, s)
  }

  /** Every attached program of the group has a strictly lower priority value than the new one. */
  ghost predicate RanksLast(trees: map<Ref, Prog>, did: DispatcherId, priority: int) {
    forall r | r in trees && InGroup(trees[r], did) :: trees[r].net.value.priority < priority
  }

  /** Dropping the last member leaves no gap; dropping an earlier one does, however the rest is listed. */
  lemma DroppedLast(trees: map<Ref, Prog>, did: DispatcherId, s: seq<Ref>)
    requires Numbered(trees, did, s) && s != []
    ensures Numbered(trees - {s[|s| - 1]}, did, s[..|s| - 1])
  {
  }

  lemma DroppedInside(trees: map<Ref, Prog>, did: DispatcherId, s: seq<Ref>, j: nat, s': seq<Ref>)
    requires Numbered(trees, did, s) && j < |s| - 1
    ensures !Numbered(trees - {s[j]}, did, s')
  {
    assert s[|s| - 1] in s && trees[s[|s| - 1]].net.value.position == Some(|s| - 1);
    if Numbered(trees - {s[j]}, did, s') { OneMoreLength(s', s, s[j]); }
  }

  lemma NewcomerLast(trees: map<Ref, Prog>, did: DispatcherId, s: seq<Ref>, j: nat)
    requires NoRepeats(s) && (forall r :: r in s <==> r in trees && InGroup(trees[r], did))
    requires AllNet(trees, s) && Sorted(trees, s) && j < |s| && !trees[s[j]].net.value.attached
    requires forall i | 0 <= i < |s| && i != j :: trees[s[i]].net.value.attached
    ensures RanksLast(trees - {s[j]}, did, trees[s[j]].net.value.priority) <==> j == |s| - 1
  {
    NewcomerRank(trees, s, j);
    var rest := trees - {s[j]};
    if j == |s| - 1 {
      forall r | r in rest && InGroup(rest[r], did)
        ensures rest[r].net.value.priority < trees[s[j]].net.value.priority
      {
        var i :| 0 <= i < |s| && s[i] == r;
      }
    } else {
      assert s[j + 1] in rest && InGroup(rest[s[j + 1]], did);
    }
  }

  lemma RefilledGaps(trees: map<Ref, Prog>, did: DispatcherId, order: seq<Ref>, r: Ref)
    requires Covers(order, trees) && r in trees && InGroup(trees[r], did) && !trees[r].net.value.attached
    requires forall x | x in trees && x != r && InGroup(trees[x], did) :: trees[x].net.value.attached
    ensures GapFree(SetPositions(trees, did, order) - {r}, did) <==>
            RanksLast(trees - {r}, did, trees[r].net.value.priority)
  {
    var t, s := SetPositions(trees, did, order), Ranking(trees, did, order);
    RankingEnumerates(trees, did, order);
    PositionsAreRanks(trees, did, order);
    assert r in s;
    var j :| 0 <= j < |s| && s[j] == r;
    forall i | 0 <= i < |s| && i != j ensures trees[s[i]].net.value.attached { assert s[i] in s; }
    NewcomerLast(trees, did, s, j);
    if j == |s| - 1 {
      DroppedLast(t, did, s);
    } else {
      forall s' ensures !Numbered(t - {r}, did, s') { DroppedInside(t, did, s, j, s'); }
    }
  }

  lemma LateFailureTrees(db: Db, rand: Id, owner: Option<Id>, did: DispatcherId, k: Kernel)
    requires (k.fail == AtLoad || k.fail == AfterPin) && NumAttached(db, did) < MAX_DISPATCHER_ACTIONS
    ensures AttachMulti(db, rand, did, k).None?
    ensures FailedMulti(db, rand, owner, did, k).trees == SetPositions(db.trees, did, k.order) - {Pre(rand)}
  {
  }

  lemma FailedLoadShape(db: Db, rand: Id, p: Prog, k: Kernel)
    requires NewProgram(p) && LateFailure(p, k) && NumAttached(db, HookOf(p, k)) < MAX_DISPATCHER_ACTIONS
    requires p.owner.Some? ==> p.owner.value in db.maps
    ensures
      var r := AddProgram(db, rand, p, k);
      r.Err? && r.error.trees == SetPositions(With(db, rand, Prepared(p, k)).trees, HookOf(p, k), k.order) - {Pre(rand)}
  {
    AddCases(db, rand, p, k);
    LateFailureTrees(With(db, rand, Prepared(p, k)), rand, p.owner, HookOf(p, k), k);
  }

  /**
   The exact condition: after an add that failed while loading the dispatcher, the group's positions are still 0..n-1 if
   and only if every program already attached there has a lower priority value than the one that failed.
   */
  lemma FailedLoadPositions(db: Db, rand: Id, p: Prog, k: Kernel)
    requires SlotInv(db) && CanAdd(db, rand, p, k) && LateFailure(p, k) &&
             NumAttached(db, HookOf(p, k)) < MAX_DISPATCHER_ACTIONS
    requires p.owner.Some? ==> p.owner.value in db.maps
    ensures AddProgram(db, rand, p, k).Err?
    ensures GapFree(AddProgram(db, rand, p, k).error.trees, HookOf(p, k)) <==>
            RanksLast(db.trees, HookOf(p, k), p.net.value.priority)
  {
    FailedLoadShape(db, rand, p, k);
    var trees := With(db, rand, Prepared(p, k)).trees;
    RefilledGaps(trees, HookOf(p, k), k.order, Pre(rand));
    NewTreeDropped(db, rand, Prepared(p, k));
  }

  lemma NewTreeDropped(db: Db, rand: Id, p: Prog)
    requires Pre(rand) !in db.trees
    ensures With(db, rand, p).trees - {Pre(rand)} == db.trees
  {
  }

  // ----- A run -----

  /** An accepted program is a new member of its group, at its own priority. */
  lemma AddedMember(db: Db, rand: Id, p: Prog, k: Kernel)
    requires CanAdd(db, rand, p, k) && Accepted(db, rand, p, k) && p.net.Some?
    ensures AddProgram(db, rand, p, k).Ok?
    ensures
      var t := AddProgram(db, rand, p, k).value.trees;
      && (forall r :: r in t <==> r in db.trees || r == Live(k.kernelId))
      && InGroup(t[Live(k.kernelId)], HookOf(p, k)) && t[Live(k.kernelId)].net.value.priority == p.net.value.priority
  {
    LoadedNumbers(db, rand, p, k);
    AddRenames(db, rand, p, k);
    MemberAfter(db.trees, rand, Prepared(p, k), Loaded(db, rand, p, k).trees, AddProgram(db, rand, p, k).value.trees,
                HookOf(p, k), k.kernelId);
  }

  lemma MemberAfter(
    trees: map<Ref, Prog>, rand: Id, p: Prog, loaded: map<Ref, Prog>, t: map<Ref, Prog>, did: DispatcherId, id: Id)
    requires Pre(rand) !in trees && InGroup(p, did) && Pre(rand) in loaded
    requires OnlyPositions(trees[Pre(rand) := p], loaded, did) && Renamed(loaded, t, rand, id)
    ensures forall r :: r in t <==> r in trees || r == Live(id)
    ensures InGroup(t[Live(id)], did) && t[Live(id)].net.value.priority == p.net.value.priority
  {
    assert loaded.Keys == trees.Keys + {Pre(rand)};
  }

  lemma AddedMaps(db: Db, rand: Id, p: Prog, k: Kernel)
    requires Consistent(db) && CanAdd(db, rand, p, k) && Accepted(db, rand, p, k) && p.owner.None?
    ensures AddProgram(db, rand, p, k).Ok? && AddProgram(db, rand, p, k).value.maps.Keys == db.maps.Keys + {k.kernelId}
  {
    GetUsedByFaithful();
    AddRefines(GET_USED_BY, db, rand, p, k);
    JoinMaps(GET_USED_BY, db, AddProgram(db, rand, p, k).value, k.kernelId, k.kernelId);
  }

  lemma JoinMaps(rd: Reading, db: Db, db': Db, id: Id, o: Id)
    requires Abs(rd, db') == Join(Abs(rd, db), id, o)
    ensures db'.maps.Keys == db.maps.Keys + {o}
  {
    assert Abs(rd, db').maps.Keys == db'.maps.Keys && Abs(rd, db).maps.Keys == db.maps.Keys;
  }

  /** A dispatcher load that fails after pinning, for a program that would not have ranked last. */
  lemma GapAndLeak(db: Db, rand: Id, p: Prog, k: Kernel, r: Ref)
    requires SlotInv(db) && CanAdd(db, rand, p, k) && p.net.Some? && p.owner.None? && k.fail == AfterPin
    requires NumAttached(db, HookOf(p, k)) < MAX_DISPATCHER_ACTIONS && k.kernelId !in db.pinDirs
    requires r in db.trees && InGroup(db.trees[r], HookOf(p, k)) &&
             db.trees[r].net.value.priority >= p.net.value.priority
    ensures
      var a := AddProgram(db, rand, p, k);
      && a.Err? && !GapFree(a.error.trees, HookOf(p, k)) && k.kernelId in a.error.pinDirs && a.error.maps == db.maps
  {
    FailedLoadPositions(db, rand, p, k);
    assert !RanksLast(db.trees, HookOf(p, k), p.net.value.priority);
    LateFailureTrees(With(db, rand, Prepared(p, k)), rand, p.owner, HookOf(p, k), k);
    RefusedUndone(db, rand, p, k);
    AddCases(db, rand, p, k);
    FailedDirs(db, rand, p, k);
  }

  const HOOK := DispatcherId(Hook.Xdp, 1)

  /** An XDP program with maps of its own. */
  function Newcomer(name: string, priority: int): Prog {
    Prog(name, None, None, map[], Some(Net(Hook.Xdp, None, priority, false, None, ["pass"])))
  }

  /** Program 10 of priority 5 is added; then the dispatcher load for program 11 of priority 3 fails after pinning. */
  const FIRST := Add(1, Newcomer("a", 5), Kernel([Pre(1)], Never, 1, 10))
  const SECOND := Add(2, Newcomer("b", 3), Kernel([Live(10), Pre(2)], AfterPin, 1, 11))

  lemma FirstAccepted()
    ensures CanAdd(EMPTY, 1, FIRST.p, FIRST.k) && Accepted(EMPTY, 1, FIRST.p, FIRST.k)
  {
    EmptyConsistent();
    AttachIff(EMPTY, 1, FIRST.p, FIRST.k);
  }

  lemma FirstAdd()
    ensures SlotInv(Apply(EMPTY, FIRST)) && Tight(Apply(EMPTY, FIRST)) &&
            Apply(EMPTY, FIRST).maps.Keys == EMPTY.maps.Keys + {10}
  {
    EmptyConsistent();
    FirstAccepted();
    StepOrderly(EMPTY, FIRST);
    assert Tight(EMPTY);
    AddTight(EMPTY, 1, FIRST.p, FIRST.k);
    AddedMaps(EMPTY, 1, FIRST.p, FIRST.k);
  }

  lemma FirstMember()
    ensures
      var t := Apply(EMPTY, FIRST).trees;
      && (forall r :: r in t <==> r == Live(10)) && InGroup(t[Live(10)], HOOK) && t[Live(10)].net.value.priority == 5
  {
    FirstAccepted();
    AddedMember(EMPTY, 1, FIRST.p, FIRST.k);
  }

  lemma OneAttached(db: Db)
    requires SlotInv(db) && forall r :: r in db.trees <==> r == Live(10)
    ensures NumAttached(db, HOOK) < MAX_DISPATCHER_ACTIONS
  {
    assert GroupOk(db, HOOK);
    var s :| SlotsOk(db, HOOK, s);
    CountIsSize(db, HOOK, s);
    NoRepeatsSize(s);
    assert Elements(s) <= {Live(10)};
    SubsetSize(Elements(s), {Live(10)});
  }

  lemma SubsetSize(a: set<Ref>, b: set<Ref>)
    requires a <= b
    ensures |a| <= |b|
  {
    assert b == a + (b - a);
  }

  /**
   One run from the empty database: the failed second add leaves position 0 of the group empty and a pin directory for a
   program that was never loaded.
   */
  lemma GapExample()
    ensures
      var db1 := Apply(EMPTY, FIRST);
      var db2 := Apply(db1, SECOND);
      && Run([EMPTY, db1, db2], [FIRST, SECOND])
      && !GapFree(db2.trees, HOOK) && 11 in db2.pinDirs && 11 !in db2.maps
  {
    FirstAccepted();
    FirstAdd();
    FirstMember();
    SecondFails(Apply(EMPTY, FIRST));
    TwoSteps(FIRST, SECOND);
  }

  lemma SecondFails(db: Db)
    requires SlotInv(db) && Tight(db) && db.maps.Keys == EMPTY.maps.Keys + {10}
    requires forall r :: r in db.trees <==> r == Live(10)
    requires InGroup(db.trees[Live(10)], HOOK) && db.trees[Live(10)].net.value.priority == 5
    ensures CanAdd(db, 2, SECOND.p, SECOND.k)
    ensures !GapFree(Apply(db, SECOND).trees, HOOK) && 11 in Apply(db, SECOND).pinDirs && 11 !in Apply(db, SECOND).maps
  {
    assert EMPTY.maps.Keys == {};
    OneAttached(db);
    GapAndLeak(db, 2, SECOND.p, SECOND.k, Live(10));
  }

  lemma TwoSteps(a: Action, b: Action)
    requires Allowed(EMPTY, a) && Allowed(Apply(EMPTY, a), b)
    ensures Run([EMPTY, Apply(EMPTY, a), Apply(Apply(EMPTY, a), b)], [a, b])
  {
  }
}
