/** Maps and lists kept under a key prefix of a tree: what scan_prefix sees, and how user maps are stored and read. */
module PrefixedMaps {
  import opened Sled

  /** The entries whose keys start with a prefix: all that scan_prefix can see. */
  function Under(m: Store, prefix: string): Store {
    map s | s in m && prefix <= s :: m[s]
  }

  /** The entries of a user map under their prefixed keys. */
  function Prefixed(prefix: string, data: map<string, Bytes>): (m: Store)
    ensures forall s | s in m :: prefix <= s
    ensures forall k :: (prefix + k in m <==> k in data) && (k in data ==> m[prefix + k] == data[k])
  {
    assert forall k {:trigger prefix + k} :: prefix <= prefix + k && (prefix + k)[|prefix|..] == k;
    map s | s in (set k | k in data :: prefix + k) :: data[s[|prefix|..]]
  }

  /** set_global_data / set_metadata. */
  function PutMap(m: Store, prefix: string, data: map<string, Bytes>): Store {
    m + Prefixed(prefix, data)
  }

  /** strip_prefix on the scanned keys. */
  function Suffixes(m: Store, prefix: string): (ks: set<string>)
    ensures forall k :: k in ks <==> prefix + k in m
  {
    var ks := set s | s in m && prefix <= s :: s[|prefix|..];
    assert forall s | prefix <= s :: s == prefix + s[|prefix|..];
    assert forall k {:trigger prefix + k} :: prefix <= prefix + k && (prefix + k)[|prefix|..] == k;
    ks
  }

  /** get_global_data / get_metadata: the scanned keys without the prefix. */
  function GetMap(m: Store, prefix: string): map<string, Bytes> {
    map k | k in Suffixes(m, prefix) :: m[prefix + k]
  }

  /** Setting a user map adds it to what getting returns, whatever keys and values the user chose. */
  lemma PutMapMerges(m: Store, prefix: string, data: map<string, Bytes>)
    ensures GetMap(PutMap(m, prefix, data), prefix) == GetMap(m, prefix) + data
  {
  }

  /** So on a tree without such entries, what was set is exactly what is got. */
  lemma MapReadsBack(m: Store, prefix: string, data: map<string, Bytes>)
    requires Under(m, prefix) == map[]
    ensures GetMap(PutMap(m, prefix, data), prefix) == data
  {
    PutMapMerges(m, prefix, data);
    forall k ensures prefix + k !in m { assert prefix + k !in Under(m, prefix); }
    assert GetMap(m, prefix) == map[];
  }

  lemma SameUnder(m: Store, m': Store, prefix: string, s: string)
    requires Under(m, prefix) == Under(m', prefix) && prefix <= s
    ensures (s in m <==> s in m') && (s in m ==> m[s] == m'[s])
  {
    assert s in Under(m, prefix) <==> s in Under(m', prefix);
    if s in Under(m, prefix) { assert Under(m, prefix)[s] == Under(m', prefix)[s]; }
  }

  /** Getters of a prefix depend only on what is under it. */
  lemma MapUnder(m: Store, m': Store, prefix: string)
    requires Under(m, prefix) == Under(m', prefix)
    ensures GetMap(m, prefix) == GetMap(m', prefix)
  {
    forall k
      ensures k in GetMap(m, prefix) <==> k in GetMap(m', prefix)
      ensures k in GetMap(m, prefix) ==> GetMap(m, prefix)[k] == GetMap(m', prefix)[k]
    {
      SameUnder(m, m', prefix, prefix + k);
    }
  }

  /** What is under a prefix after a list was written there. */
  lemma {:induction false} ListWrittenUnder(m: Store, prefix: string, vals: seq<Bytes>)
    ensures Under(WriteList(m, prefix, vals), prefix) == WriteList(Under(m, prefix), prefix, vals)
  {
    if vals != [] {
      ListWrittenUnder(m, prefix, vals[..|vals| - 1]);
      assert prefix <= IndexKey(prefix, |vals| - 1);
    }
  }
}
