/**
 Dispatcher slots: the position setters number a group by their sort key without gaps, and a new dispatcher's slots hold
 the masks of the programs in that order.
 */
module Slots {
  import opened Wrappers
  import opened Sled
  import opened DispatcherChain
  import opened DaemonModel

  ghost predicate NoRepeats(rs: seq<Ref>) {
    forall i, j | 0 <= i < j < |rs| :: rs[i] != rs[j]
  }

  /** An iteration order lists every tree name, once. */
  ghost predicate Covers(order: seq<Ref>, trees: map<Ref, Prog>) {
    NoRepeats(order) && forall r | r in trees :: r in order
  }

  /** `s` enumerates the group, and each program's position is its place in `s`: positions are exactly 0..|s|-1. */
  ghost predicate Numbered(trees: map<Ref, Prog>, did: DispatcherId, s: seq<Ref>) {
    && NoRepeats(s)
    && (forall r :: r in s <==> r in trees && InGroup(trees[r], did))
    && (forall i | 0 <= i < |s| ::
          s[i] in trees && InGroup(trees[s[i]], did) && trees[s[i]].net.value.position == Some(i))
  }

  // ----- The sort key is a total preorder -----

  lemma KeyAsymmetric(a: Prog, b: Prog)
    requires KeyLess(a, b)
    ensures !KeyLess(b, a)
  {
    if Less(a.name, b.name) { LessAsymmetric(a.name, b.name); }
  }

  lemma NotLessTrans(a: string, b: string, c: string)
    requires !Less(a, b) && !Less(b, c)
    ensures !Less(a, c)
  {
  }

  lemma KeyNotLessTrans(a: Prog, b: Prog, c: Prog)
    requires a.net.Some? && b.net.Some? && c.net.Some?
    requires !KeyLess(a, b) && !KeyLess(b, c)
    ensures !KeyLess(a, c)
  {
    if !Less(a.name, b.name) && !Less(b.name, c.name) { NotLessTrans(a.name, b.name, c.name); }
  }

  // ----- sort_by_key -----

  ghost predicate AllNet(trees: map<Ref, Prog>, rs: seq<Ref>) {
    forall r | r in rs :: r in trees && trees[r].net.Some?
  }

  ghost predicate Sorted(trees: map<Ref, Prog>, rs: seq<Ref>)
    requires AllNet(trees, rs)
  {
    forall i, j | 0 <= i < j < |rs| :: !KeyLess(trees[rs[j]], trees[rs[i]])
  }

  lemma {:induction false} InsertSorted(trees: map<Ref, Prog>, rs: seq<Ref>, r: Ref)
    requires AllNet(trees, rs) && Sorted(trees, rs) && r in trees && trees[r].net.Some?
    ensures AllNet(trees, Insert(trees, rs, r)) && Sorted(trees, Insert(trees, rs, r))
  {
    if rs != [] {
      var init, last := rs[..|rs| - 1], rs[|rs| - 1];
      if KeyLess(trees[r], trees[last]) {
        InsertSorted(trees, init, r);
        InsertedElements(trees, init, r);
        KeyAsymmetric(trees[r], trees[last]);
        var ins := Insert(trees, init, r);
        forall i | 0 <= i < |ins|
          ensures !KeyLess(trees[last], trees[ins[i]])
        {
          assert ins[i] in ins;
          if ins[i] != r {
            var j :| 0 <= j < |init| && init[j] == ins[i];
            assert rs[j] == ins[i];
          }
        }
      } else {
        forall i | 0 <= i < |rs|
          ensures !KeyLess(trees[r], trees[rs[i]])
        {
          if i < |rs| - 1 { KeyNotLessTrans(trees[r], trees[last], trees[rs[i]]); }
        }
      }
    }
  }

  lemma InsertedElements(trees: map<Ref, Prog>, rs: seq<Ref>, r: Ref)
    requires r in trees && forall x | x in rs :: x in trees
    ensures forall x | x in Insert(trees, rs, r) :: x in rs || x == r
  {
  }

  lemma {:induction false} SortSorts(trees: map<Ref, Prog>, rs: seq<Ref>)
    requires AllNet(trees, rs)
    ensures AllNet(trees, SortByKey(trees, rs)) && Sorted(trees, SortByKey(trees, rs))
  {
    if rs != [] {
      SortSorts(trees, rs[..|rs| - 1]);
      InsertSorted(trees, SortByKey(trees, rs[..|rs| - 1]), rs[|rs| - 1]);
    }
  }

  lemma {:induction false} PermutedNoRepeats(rs: seq<Ref>, s: seq<Ref>)
    requires NoRepeats(rs) && multiset(s) == multiset(rs)
    ensures NoRepeats(s) && forall r :: r in s <==> r in rs
  {
    forall r
      ensures r in s <==> r in rs
    {
      assert r in s <==> r in multiset(s);
    }
    forall r ensures multiset(rs)[r] <= 1 { OnceOnly(rs, r); }
    forall i, j | 0 <= i < j < |s|
      ensures s[i] != s[j]
    {
      RepeatCounts(s, i, j);
    }
  }

  lemma RepeatCounts(s: seq<Ref>, i: nat, j: nat)
    requires i < j < |s|
    ensures s[i] == s[j] ==> multiset(s)[s[j]] >= 2
  {
    assert s == s[..j] + [s[j]] + s[j + 1..];
    if s[i] == s[j] { assert s[i] in s[..j]; }
  }

  lemma {:induction false} OnceOnly(rs: seq<Ref>, r: Ref)
    requires NoRepeats(rs)
    ensures multiset(rs)[r] <= 1
  {
    if rs != [] {
      var init := rs[..|rs| - 1];
      OnceOnly(init, r);
      assert rs == init + [rs[|rs| - 1]];
      assert rs[|rs| - 1] !in init;
    }
  }

  // ----- Numbering -----

  lemma {:induction false} NumberFromEffect(trees: map<Ref, Prog>, s: seq<Ref>, i: nat, r: Ref)
    requires i <= |s| && NoRepeats(s) && forall x | x in s :: x in trees
    ensures
      var t := NumberFrom(trees, s, i);
      && (r in t <==> r in trees)
      && (r in trees && r !in s[i..] ==> t[r] == trees[r])
      && (forall j | i <= j < |s| && s[j] == r :: t[r] == SetPosition(trees[r], j))
    decreases |s| - i
  {
    if i < |s| {
      var trees' := trees[s[i] := SetPosition(trees[s[i]], i)];
      NumberFromEffect(trees', s, i + 1, r);
      assert s[i..] == [s[i]] + s[i + 1..];
    }
  }

  lemma {:induction false} FilterNoRepeats(trees: map<Ref, Prog>, did: DispatcherId, order: seq<Ref>)
    requires NoRepeats(order)
    ensures NoRepeats(Filter(trees, did, order))
  {
    if order != [] {
      var init, r := order[..|order| - 1], order[|order| - 1];
      FilterNoRepeats(trees, did, init);
      assert r !in init;
    }
  }

  /** The order the setters sort a group into. */
  function Ranking(trees: map<Ref, Prog>, did: DispatcherId, order: seq<Ref>): seq<Ref> {
    SortByKey(trees, Filter(trees, did, order))
  }

  lemma RankingEnumerates(trees: map<Ref, Prog>, did: DispatcherId, order: seq<Ref>)
    requires Covers(order, trees)
    ensures
      var s := Ranking(trees, did, order);
      && NoRepeats(s) && (forall r :: r in s <==> r in trees && InGroup(trees[r], did))
      && AllNet(trees, s) && Sorted(trees, s)
  {
    FilterNoRepeats(trees, did, order);
    PermutedNoRepeats(Filter(trees, did, order), Ranking(trees, did, order));
    SortSorts(trees, Filter(trees, did, order));
  }

  /** All that SetPositions changes: each program's position becomes its rank. */
  lemma SetPositionsEffect(trees: map<Ref, Prog>, did: DispatcherId, order: seq<Ref>, r: Ref)
    requires Covers(order, trees)
    ensures
      var t, s := SetPositions(trees, did, order), Ranking(trees, did, order);
      && (r in t <==> r in trees)
      && (r in trees && !InGroup(trees[r], did) ==> t[r] == trees[r])
      && (forall j | 0 <= j < |s| && s[j] == r :: r in trees && t[r] == SetPosition(trees[r], j))
  {
    RankingEnumerates(trees, did, order);
    var s := Ranking(trees, did, order);
    NumberFromEffect(trees, s, 0, r);
    assert s[0..] == s;
  }

  /** Trees that differ at most in the positions of one group. */
  ghost predicate OnlyPositions(trees: map<Ref, Prog>, t: map<Ref, Prog>, did: DispatcherId) {
    && t.Keys == trees.Keys
    && (forall r | r in trees :: if InGroup(trees[r], did) then RepositionedOnly(trees[r], t[r]) else t[r] == trees[r])
  }

  ghost predicate RepositionedOnly(p: Prog, q: Prog) {
    p.net.Some? && q.net.Some? && q == p.(net := Some(p.net.value.(position := q.net.value.position)))
  }

  lemma PositionsOnly(trees: map<Ref, Prog>, did: DispatcherId, order: seq<Ref>)
    requires Covers(order, trees)
    ensures OnlyPositions(trees, SetPositions(trees, did, order), did)
  {
    var t, s := SetPositions(trees, did, order), Ranking(trees, did, order);
    RankingEnumerates(trees, did, order);
    forall r
      ensures r in t <==> r in trees
      ensures r in trees ==> if InGroup(trees[r], did) then RepositionedOnly(trees[r], t[r]) else t[r] == trees[r]
    {
      SetPositionsEffect(trees, did, order, r);
    }
  }

  lemma OnlyPositionsKeys(trees: map<Ref, Prog>, t: map<Ref, Prog>, did: DispatcherId, s: seq<Ref>)
    requires OnlyPositions(trees, t, did) && AllNet(trees, s) && Sorted(trees, s)
    requires forall r | r in s :: r in trees && InGroup(trees[r], did)
    ensures AllNet(t, s) && Sorted(t, s)
  {
  }

  lemma RanksNumber(trees: map<Ref, Prog>, did: DispatcherId, order: seq<Ref>)
    requires Covers(order, trees)
    ensures Numbered(SetPositions(trees, did, order), did, Ranking(trees, did, order))
  {
    var t, s := SetPositions(trees, did, order), Ranking(trees, did, order);
    RankingEnumerates(trees, did, order);
    PositionsOnly(trees, did, order);
    forall i | 0 <= i < |s|
      ensures s[i] in t && InGroup(t[s[i]], did) && t[s[i]].net.value.position == Some(i)
    {
      SetPositionsEffect(trees, did, order, s[i]);
    }
  }

  /**
   Positions: after the setters ran, the group's positions are exactly 0..n-1, in an order sorted by (priority,
   attached as coded, name); nothing but positions of the group changed.
   */
  lemma PositionsAreRanks(trees: map<Ref, Prog>, did: DispatcherId, order: seq<Ref>)
    requires Covers(order, trees)
    ensures
      var t, s := SetPositions(trees, did, order), Ranking(trees, did, order);
      OnlyPositions(trees, t, did) && Numbered(t, did, s) && AllNet(t, s) && Sorted(t, s)
  {
    RankingEnumerates(trees, did, order);
    PositionsOnly(trees, did, order);
    RanksNumber(trees, did, order);
    OnlyPositionsKeys(trees, SetPositions(trees, did, order), did, Ranking(trees, did, order));
  }

  /** What the positions mean for a reader: no repeats, no gaps, and the key never falls. */
  lemma PositionsMonotone(trees: map<Ref, Prog>, did: DispatcherId, s: seq<Ref>, a: Ref, b: Ref)
    requires Numbered(trees, did, s) && AllNet(trees, s) && Sorted(trees, s) && a in s && b in s
    ensures
      var pa, pb := trees[a].net.value.position, trees[b].net.value.position;
      && pa.Some? && pb.Some? && pa.value < |s| && pb.value < |s|
      && (pa == pb ==> a == b)
      && (KeyLess(trees[a], trees[b]) ==> pa.value < pb.value)
  {
    var i :| 0 <= i < |s| && s[i] == a;
    var j :| 0 <= j < |s| && s[j] == b;
    if KeyLess(trees[a], trees[b]) { KeyAsymmetric(trees[a], trees[b]); }
  }

  /** The order of a hook with its key written out: priority, then the newcomer before attached programs, then name. */
  ghost predicate Precedes(a: Prog, b: Prog)
    requires a.net.Some? && b.net.Some?
  {
    var x, y := a.net.value, b.net.value;
    if x.priority != y.priority then x.priority < y.priority
    else if x.attached != y.attached then y.attached
    else Less(a.name, b.name)
  }

  lemma PrecedesIsKey(a: Prog, b: Prog)
    requires a.net.Some? && b.net.Some?
    ensures Precedes(a, b) <==> KeyLess(a, b)
  {
  }

  /** In a numbered and sorted group, who precedes by that key has the lower position. */
  lemma PrecedingIsLower(trees: map<Ref, Prog>, t: map<Ref, Prog>, did: DispatcherId, s: seq<Ref>, a: Ref, b: Ref)
    requires AllNet(trees, s) && Sorted(trees, s) && Numbered(t, did, s) && a in s && b in s
    requires Precedes(trees[a], trees[b])
    ensures
      var pa, pb := t[a].net.value.position, t[b].net.value.position;
      pa.Some? && pb.Some? && pa.value < pb.value
  {
    PrecedesIsKey(trees[a], trees[b]);
    KeyAsymmetric(trees[a], trees[b]);
    var i :| 0 <= i < |s| && s[i] == a;
    var j :| 0 <= j < |s| && s[j] == b;
  }

  /** The setters order a group by priority, attached and name, as the source's sort key has them. */
  lemma PositionsByKey(trees: map<Ref, Prog>, did: DispatcherId, order: seq<Ref>, a: Ref, b: Ref)
    requires Covers(order, trees) && a in trees && b in trees && InGroup(trees[a], did) && InGroup(trees[b], did)
    requires Precedes(trees[a], trees[b])
    ensures
      var t := SetPositions(trees, did, order);
      && a in t && b in t && t[a].net.Some? && t[b].net.Some?
      && t[a].net.value.position.Some? && t[b].net.value.position.Some?
      && t[a].net.value.position.value < t[b].net.value.position.value
  {
    PositionsAreRanks(trees, did, order);
    RankingEnumerates(trees, did, order);
    PrecedingIsLower(trees, SetPositions(trees, did, order), did, Ranking(trees, did, order), a, b);
  }

  // ----- The sort is stable -----

  ghost predicate Before(s: seq<Ref>, a: Ref, b: Ref) {
    exists i, j :: 0 <= i < j < |s| && s[i] == a && s[j] == b
  }

  lemma BeforeAt(s: seq<Ref>, i: nat, j: nat)
    requires i < j < |s|
    ensures Before(s, s[i], s[j])
  {
  }

  lemma BeforeAppend(s: seq<Ref>, r: Ref, a: Ref, b: Ref)
    requires Before(s, a, b) || (a in s && b == r)
    ensures Before(s + [r], a, b)
  {
    if Before(s, a, b) {
      var i, j :| 0 <= i < j < |s| && s[i] == a && s[j] == b;
      BeforeAt(s + [r], i, j);
    } else {
      var i :| 0 <= i < |s| && s[i] == a;
      BeforeAt(s + [r], i, |s|);
    }
  }

  lemma {:induction false} InsertedHas(trees: map<Ref, Prog>, rs: seq<Ref>, r: Ref, x: Ref)
    requires r in trees && (forall y | y in rs :: y in trees) && x in rs
    ensures x in Insert(trees, rs, r)
  {
    InsertPermutes(trees, rs, r);
    assert x in multiset(rs) + multiset{r};
  }

  /** Inserting keeps who is before whom. */
  lemma {:induction false} InsertKeepsBefore(trees: map<Ref, Prog>, rs: seq<Ref>, r: Ref, a: Ref, b: Ref)
    requires r in trees && (forall y | y in rs :: y in trees) && Before(rs, a, b)
    ensures Before(Insert(trees, rs, r), a, b)
  {
    var init, last := rs[..|rs| - 1], rs[|rs| - 1];
    if KeyLess(trees[r], trees[last]) {
      var i, j :| 0 <= i < j < |rs| && rs[i] == a && rs[j] == b;
      if j < |rs| - 1 {
        assert init[i] == a && init[j] == b;
        InsertKeepsBefore(trees, init, r, a, b);
      } else {
        assert init[i] == a;
        InsertedHas(trees, init, r, a);
      }
      BeforeAppend(Insert(trees, init, r), last, a, b);
    } else {
      BeforeAppend(rs, r, a, b);
    }
  }

  /** The new element comes behind all that are not greater. */
  lemma {:induction false} InsertsBehind(trees: map<Ref, Prog>, rs: seq<Ref>, r: Ref, a: Ref)
    requires r in trees && (forall y | y in rs :: y in trees) && a in rs && !KeyLess(trees[r], trees[a])
    ensures Before(Insert(trees, rs, r), a, r)
  {
    var init, last := rs[..|rs| - 1], rs[|rs| - 1];
    if KeyLess(trees[r], trees[last]) {
      assert rs == init + [last] && a in init;
      InsertsBehind(trees, init, r, a);
      BeforeAppend(Insert(trees, init, r), last, a, r);
    } else {
      BeforeAppend(rs, r, a, r);
    }
  }

  lemma {:induction false} SortStable(trees: map<Ref, Prog>, rs: seq<Ref>, a: Ref, b: Ref)
    requires AllNet(trees, rs) && Before(rs, a, b) && !KeyLess(trees[b], trees[a])
    ensures Before(SortByKey(trees, rs), a, b)
  {
    var init, last := rs[..|rs| - 1], rs[|rs| - 1];
    var i, j :| 0 <= i < j < |rs| && rs[i] == a && rs[j] == b;
    var sorted := SortByKey(trees, init);
    assert forall x | x in sorted :: x in multiset(init);
    if j < |rs| - 1 {
      BeforeAt(init, i, j);
      SortStable(trees, init, a, b);
      InsertKeepsBefore(trees, sorted, last, a, b);
    } else {
      assert init[i] == a && a in multiset(sorted);
      InsertsBehind(trees, sorted, last, a);
    }
  }

  lemma {:induction false} FilterKeepsOrder(trees: map<Ref, Prog>, did: DispatcherId, order: seq<Ref>, a: Ref, b: Ref)
    requires Before(order, a, b)
    requires a in trees && b in trees && InGroup(trees[a], did) && InGroup(trees[b], did)
    ensures Before(Filter(trees, did, order), a, b)
  {
    var init, last := order[..|order| - 1], order[|order| - 1];
    var i, j :| 0 <= i < j < |order| && order[i] == a && order[j] == b;
    var rest := Filter(trees, did, init);
    if j < |order| - 1 {
      BeforeAt(init, i, j);
      FilterKeepsOrder(trees, did, init, a, b);
      if last in trees && InGroup(trees[last], did) { BeforeAppend(rest, last, a, b); }
    } else {
      assert init[i] == a && a in rest;
      BeforeAppend(rest, last, a, b);
    }
  }

  /** Programs that the key does not tell apart keep the order in which the database lists them. */
  lemma PositionsStable(trees: map<Ref, Prog>, did: DispatcherId, order: seq<Ref>, a: Ref, b: Ref)
    requires Covers(order, trees) && Before(order, a, b)
    requires a in trees && b in trees && InGroup(trees[a], did) && InGroup(trees[b], did)
    requires !Precedes(trees[a], trees[b]) && !Precedes(trees[b], trees[a])
    ensures
      var t := SetPositions(trees, did, order);
      && a in t && b in t && t[a].net.Some? && t[b].net.Some?
      && t[a].net.value.position.Some? && t[b].net.value.position.Some?
      && t[a].net.value.position.value < t[b].net.value.position.value
  {
    var s := Ranking(trees, did, order);
    PrecedesIsKey(trees[b], trees[a]);
    FilterKeepsOrder(trees, did, order, a, b);
    SortStable(trees, Filter(trees, did, order), a, b);
    PositionsAreRanks(trees, did, order);
    var i, j :| 0 <= i < j < |s| && s[i] == a && s[j] == b;
  }

  // ----- A new dispatcher -----

  function Masks(trees: map<Ref, Prog>, s: seq<Ref>): (masks: seq<bv32>)
    requires forall r | r in s :: r in trees && trees[r].net.Some?
    ensures |masks| == |s| && forall i | 0 <= i < |s| :: masks[i] == trees[s[i]].net.value.Mask()
  {
    seq(|s|, i requires 0 <= i < |s| => assert s[i] in s; trees[s[i]].net.value.Mask())
  }

  lemma {:induction false} FillSlotsEffect(trees: map<Ref, Prog>, did: DispatcherId, s: seq<Ref>, rs: seq<Ref>)
    requires Numbered(trees, did, s) && |s| <= MAX_DISPATCHER_ACTIONS && forall r | r in rs :: r in s
    ensures
      var slots := FillSlots(trees, rs);
      && slots.Some? && |slots.value| == MAX_DISPATCHER_ACTIONS
      && (forall i | 0 <= i < MAX_DISPATCHER_ACTIONS ::
            slots.value[i] == if i < |s| && s[i] in rs then trees[s[i]].net.value.Mask() else 0)
  {
    if rs != [] {
      var init, r := rs[..|rs| - 1], rs[|rs| - 1];
      FillSlotsEffect(trees, did, s, init);
      assert forall x :: x in rs <==> x in init || x == r;
      assert r in s;
      var j :| 0 <= j < |s| && s[j] == r;
    }
  }

  function Elements(rs: seq<Ref>): set<Ref> {
    set r | r in rs
  }

  lemma {:induction false} NoRepeatsSize(rs: seq<Ref>)
    requires NoRepeats(rs)
    ensures |Elements(rs)| == |rs|
  {
    if rs != [] {
      var init := rs[..|rs| - 1];
      NoRepeatsSize(init);
      assert Elements(rs) == Elements(init) + {rs[|rs| - 1]};
    }
  }

  lemma SameLength(rs: seq<Ref>, s: seq<Ref>)
    requires NoRepeats(rs) && NoRepeats(s) && forall r :: r in rs <==> r in s
    ensures |rs| == |s|
  {
    NoRepeatsSize(rs);
    NoRepeatsSize(s);
    assert Elements(rs) == Elements(s);
  }

  /** A dispatcher built over a numbered group has one slot per program: slot i holds the mask of the program at i. */
  lemma NewDispatcherSlots(db: Db, did: DispatcherId, order: seq<Ref>, s: seq<Ref>)
    requires Covers(order, db.trees) && Numbered(db.trees, did, s) && 0 < |s| <= MAX_DISPATCHER_ACTIONS
    ensures AllNet(db.trees, s)
    ensures NewDispatcher(db, did, order) == Some(db.(dispatchers :=
              db.dispatchers[did := Dispatcher(NextRevision(db, did), |s|, Configure(Masks(db.trees, s)))]))
  {
    var rs := Filter(db.trees, did, order);
    FilterNoRepeats(db.trees, did, order);
    SameLength(rs, s);
    FillSlotsEffect(db.trees, did, s, rs);
    assert FillSlots(db.trees, rs).value == Configure(Masks(db.trees, s)).chainCallActions;
  }
}
