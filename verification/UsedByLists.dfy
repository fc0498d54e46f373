/** Reference counts as lists in a tree: index keys never clash, and reading gives back exactly who was recorded. */
module UsedByLists {
  import opened Wrappers
  import opened Sled
  import opened ProceedOn
  import opened DaemonModel

  lemma IdRoundTrip(id: Id)
    ensures IdOf(U32Bytes(id)) == id
  {
    U32RoundTrip(id);
  }

  lemma {:induction false} SortedKeysLength(keys: set<string>)
    ensures |SortedKeys(keys)| == |keys|
    decreases |keys|
  {
    if keys != {} { SortedKeysLength(keys - {Least(keys)}); }
  }

  /** The recorded IDs follow the stored values, whatever the order. */
  lemma IdsOfValues(m: Store, prefix: string, vals: seq<Bytes>, ids: seq<Id>)
    requires multiset(ReadList(m, prefix)) == multiset(vals) && |ids| == |vals|
    requires forall i | 0 <= i < |vals| :: IdOf(vals[i]) == ids[i]
    ensures multiset(ReadIds(m, prefix)) == multiset(ids)
  {
    ParsePermutation((b: Bytes) => Some(IdOf(b)), ReadList(m, prefix), vals, ReadIds(m, prefix), ids);
  }

  /** Writing a list where nothing is stored yet records exactly that list. */
  lemma WrittenIds(m: Store, prefix: string, ids: seq<Id>)
    requires NoneUnder(m, prefix)
    ensures multiset(ReadIds(WriteList(m, prefix, IdBytes(ids)), prefix)) == multiset(ids)
  {
    ListReadsBackPermuted(m, prefix, IdBytes(ids));
    forall i | 0 <= i < |ids| ensures IdOf(IdBytes(ids)[i]) == ids[i] { IdRoundTrip(ids[i]); }
    IdsOfValues(WriteList(m, prefix, IdBytes(ids)), prefix, IdBytes(ids), ids);
  }

  /** A program's own copy is replaced as a whole. */
  lemma ProgUsedBy(p: Prog, ids: seq<Id>)
    ensures multiset(ReadIds(SetProgUsedBy(p, ids).usedBy, PREFIX_MAPS_USED_BY)) == multiset(ids)
  {
    WrittenIds(ClearUnder(p.usedBy, PREFIX_MAPS_USED_BY), PREFIX_MAPS_USED_BY, ids);
  }

  // ----- Map trees -----

  /** Every key of a map tree is an index key, and no index exceeds the number of entries. */
  ghost predicate IndexedWithin(m: Store, bound: nat) {
    forall k | k in m :: exists i :: 0 <= i <= bound && k == IndexKey(MAPS_USED_BY_PREFIX, i)
  }

  ghost predicate MapTreeOk(m: Store) {
    IndexedWithin(m, |m|)
  }

  lemma AllUnderPrefix(m: Store, bound: nat)
    requires IndexedWithin(m, bound)
    ensures KeysUnder(m, MAPS_USED_BY_PREFIX) == m.Keys
    ensures |ReadIds(m, MAPS_USED_BY_PREFIX)| == |m|
    ensures ClearUnder(m, MAPS_USED_BY_PREFIX) == map[]
  {
    forall k | k in m
      ensures MAPS_USED_BY_PREFIX <= k
    {
      var i :| 0 <= i <= bound && k == IndexKey(MAPS_USED_BY_PREFIX, i);
    }
    assert KeysUnder(m, MAPS_USED_BY_PREFIX) == m.Keys;
    SortedKeysLength(m.Keys);
  }

  lemma NextKeyIsNew(m: Store, k: string)
    requires MapTreeOk(m) && k in m
    ensures k != IndexKey(MAPS_USED_BY_PREFIX, |m| + 1)
  {
    var i :| 0 <= i <= |m| && k == IndexKey(MAPS_USED_BY_PREFIX, i);
    IndexKeyInjective(MAPS_USED_BY_PREFIX, i, |m| + 1);
  }

  lemma IndexedAfterPush(m: Store, m': Store, v: Bytes)
    requires MapTreeOk(m) && m' == m[IndexKey(MAPS_USED_BY_PREFIX, |m| + 1) := v] && |m'| == |m| + 1
    ensures MapTreeOk(m')
  {
  }

  /**
   Used-by key freshness: push writes at one more than the number of entries; since no index exceeds that number the key
   is new, so no entry is overwritten even though an index is skipped.
   */
  lemma PushIsFresh(m: Store, id: Id)
    requires MapTreeOk(m)
    ensures IndexKey(MAPS_USED_BY_PREFIX, |ReadIds(m, MAPS_USED_BY_PREFIX)| + 1) !in m
    ensures MapTreeOk(PushUsedBy(m, id))
    ensures multiset(ReadIds(PushUsedBy(m, id), MAPS_USED_BY_PREFIX)) ==
            multiset(ReadIds(m, MAPS_USED_BY_PREFIX)) + multiset{id}
  {
    AllUnderPrefix(m, |m|);
    var key := IndexKey(MAPS_USED_BY_PREFIX, |m| + 1);
    assert key !in m by { if key in m { NextKeyIsNew(m, key); } }
    var m' := PushUsedBy(m, id);
    assert m'.Keys == m.Keys + {key};
    assert |m'| == |m'.Keys| == |m.Keys| + 1;
    IndexedAfterPush(m, m', U32Bytes(id));
    AllUnderPrefix(m', |m'|);
    PushAdds(m, m', key, id);
  }

  lemma PushedValues(m: Store, m': Store, key: string, v: Bytes)
    requires KeysUnder(m, MAPS_USED_BY_PREFIX) == m.Keys && KeysUnder(m', MAPS_USED_BY_PREFIX) == m'.Keys
    requires key !in m && m' == m[key := v]
    ensures multiset(ReadList(m', MAPS_USED_BY_PREFIX)) == multiset(ReadList(m, MAPS_USED_BY_PREFIX) + [v])
  {
    var ks, ks' := SortedKeys(m.Keys), SortedKeys(m'.Keys);
    SortedDistinct(ks);
    SortedDistinct(ks');
    SameKeysSameValues(m', ks', ks + [key]);
    assert Values(m', ks + [key]) == Values(m, ks) + [v];
  }

  lemma PushAdds(m: Store, m': Store, key: string, id: Id)
    requires KeysUnder(m, MAPS_USED_BY_PREFIX) == m.Keys && KeysUnder(m', MAPS_USED_BY_PREFIX) == m'.Keys
    requires key !in m && m' == m[key := U32Bytes(id)]
    ensures multiset(ReadIds(m', MAPS_USED_BY_PREFIX)) == multiset(ReadIds(m, MAPS_USED_BY_PREFIX)) + multiset{id}
  {
    PushedValues(m, m', key, U32Bytes(id));
    IdRoundTrip(id);
    IdsOfValues(m', MAPS_USED_BY_PREFIX, ReadList(m, MAPS_USED_BY_PREFIX) + [U32Bytes(id)],
                ReadIds(m, MAPS_USED_BY_PREFIX) + [id]);
  }

  /** Rewriting a map tree after clearing it records exactly the new list, from index 0. */
  lemma RewrittenMapTree(ids: seq<Id>)
    ensures MapTreeOk(SetMapUsedBy(map[], ids))
    ensures multiset(ReadIds(SetMapUsedBy(map[], ids), MAPS_USED_BY_PREFIX)) == multiset(ids)
  {
    WrittenIds(map[], MAPS_USED_BY_PREFIX, ids);
    var m := SetMapUsedBy(map[], ids);
    WriteListEffect(map[], MAPS_USED_BY_PREFIX, IdBytes(ids));
    assert IndexedWithin(m, |ids|);
    AllUnderPrefix(m, |ids|);
    assert |m| == |ReadIds(m, MAPS_USED_BY_PREFIX)| == |multiset(ids)| == |ids|;
  }

  /** Writing a one-element list over a longer one replaces the first element and keeps the rest. */
  lemma {:induction false} OverwritesFirst(m: Store, prefix: string, vals: seq<Bytes>, v: Bytes)
    requires vals != []
    ensures WriteList(m, prefix, vals)[IndexKey(prefix, 0) := v] == WriteList(m, prefix, vals[0 := v])
  {
    var last := |vals| - 1;
    if last == 0 {
      assert vals[0 := v][..0] == vals[..0];
    } else {
      OverwritesFirst(m, prefix, vals[..last], v);
      assert vals[0 := v][..last] == vals[..last][0 := v];
      IndexKeyInjective(prefix, 0, last);
    }
  }

  lemma WriteOne(m: Store, prefix: string, v: Bytes)
    ensures WriteList(m, prefix, [v]) == m[IndexKey(prefix, 0) := v]
  {
    assert [v][..0] == [];
    assert WriteList(m, prefix, [v][..0]) == m;
  }

  /**
   Why kernel IDs must be fresh: set_maps_used_by does not clear. If the kernel gave a program with its own maps the ID
   of an unloaded owner whose maps are still shared, the first sharer in the map tree would be forgotten.
   */
  lemma ReusedIdForgetsFirstUser(ids: seq<Id>, id: Id)
    requires ids != []
    ensures multiset(ReadIds(SetMapUsedBy(SetMapUsedBy(map[], ids), [id]), MAPS_USED_BY_PREFIX)) ==
            multiset(ids[0 := id])
  {
    var tree := SetMapUsedBy(map[], ids);
    OverwritesFirst(map[], MAPS_USED_BY_PREFIX, IdBytes(ids), U32Bytes(id));
    assert IdBytes([id]) == [U32Bytes(id)];
    WriteOne(tree, MAPS_USED_BY_PREFIX, U32Bytes(id));
    assert IdBytes(ids)[0 := U32Bytes(id)] == IdBytes(ids[0 := id]);
    WrittenIds(map[], MAPS_USED_BY_PREFIX, ids[0 := id]);
  }

  // ----- Removing an ID -----

  lemma {:induction false} SwapRemoveRemoves(ids: seq<Id>, i: nat)
    requires i < |ids|
    ensures multiset(SwapRemove(ids, i)) == multiset(ids) - multiset{ids[i]}
  {
    var last := |ids| - 1;
    var swapped := ids[i := ids[last]][last := ids[i]];
    assert multiset(swapped) == multiset(ids);
    assert SwapRemove(ids, i) == swapped[..last];
    assert swapped == swapped[..last] + [ids[i]];
  }

  lemma RemoveIdRemoves(ids: seq<Id>, id: Id)
    requires id in ids
    ensures multiset(RemoveId(ids, id)) == multiset(ids) - multiset{id}
  {
    SwapRemoveRemoves(ids, IndexOf(ids, id).value);
  }

  // ----- Telling the other users -----

  ghost predicate SameButUsedBy(p: Prog, q: Prog) {
    q == p.(usedBy := q.usedBy)
  }

  /** UpdateUsers changes only used-by copies, and only of listed programs. */
  lemma {:induction false} UpdateUsersFrame(trees: map<Ref, Prog>, used: seq<Id>, i: nat, r: Ref)
    requires i <= |used|
    ensures
      var t := UpdateUsers(trees, used, i);
      && (r in t <==> r in trees)
      && (r in trees ==> SameButUsedBy(trees[r], t[r]))
      && (r in trees && !(exists j :: i <= j < |used| && r == Live(used[j])) ==> t[r] == trees[r])
    decreases |used| - i
  {
    if i < |used| {
      var l := Live(used[i]);
      UpdateUsersFrame(if l in trees then trees[l := SetProgUsedBy(trees[l], used)] else trees, used, i + 1, r);
    }
  }

  /**
   Every listed program with a tree gets the new list: seen through any reading of a tree that SetProgUsedBy fixes.
   */
  lemma {:induction false} UpdateUsersTells<T>(
    trees: map<Ref, Prog>, used: seq<Id>, i: nat, id: Id, reading: Prog -> T, told: T)
    requires i <= |used| && Live(id) in trees
    requires forall p :: reading(SetProgUsedBy(p, used)) == told
    requires reading(trees[Live(id)]) == told || exists j :: i <= j < |used| && used[j] == id
    ensures Live(id) in UpdateUsers(trees, used, i) && reading(UpdateUsers(trees, used, i)[Live(id)]) == told
    decreases |used| - i
  {
    if i < |used| {
      var l := Live(used[i]);
      var trees' := if l in trees then trees[l := SetProgUsedBy(trees[l], used)] else trees;
      UpdateUsersTells(trees', used, i + 1, id, reading, told);
    }
  }
}
