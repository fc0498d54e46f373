/**
 sled trees as bpfman uses them: ordered key/value stores whose lists live under decimal index keys and are read back
 in key order. A byte is modelled by a `char`, so a byte string and a Rust string are both a Dafny `string`; every
 statement quantifies over all strings.
 */
module Sled {
  import opened Wrappers

  type Bytes = string
  type Store = map<string, Bytes>

  // ----- Key order -----

  /** sled's key order: lexicographic, byte by byte. */
  predicate Less(a: string, b: string) {
    b != [] && (a == [] || a[0] < b[0] || (a[0] == b[0] && Less(a[1..], b[1..])))
  }

  lemma {:induction false} LessTotal(a: string, b: string)
    ensures Less(a, b) || Less(b, a) || a == b
  {
    if a != [] && b != [] && a[0] == b[0] {
      LessTotal(a[1..], b[1..]);
      assert a == [a[0]] + a[1..] && b == [b[0]] + b[1..];
    }
  }

  lemma {:induction false} LessTrans(a: string, b: string, c: string)
    requires Less(a, b) && Less(b, c)
    ensures Less(a, c)
  {
    if a != [] && a[0] == b[0] && b[0] == c[0] { LessTrans(a[1..], b[1..], c[1..]); }
  }

  lemma {:induction false} LessAsymmetric(a: string, b: string)
    requires Less(a, b)
    ensures !Less(b, a) && a != b
  {
    if a != [] && a[0] == b[0] { LessAsymmetric(a[1..], b[1..]); }
  }

  lemma {:induction false} LessUnderPrefix(p: string, a: string, b: string)
    ensures Less(p + a, p + b) <==> Less(a, b)
  {
    if p == [] {
      assert p + a == a && p + b == b;
    } else {
      LessUnderPrefix(p[1..], a, b);
      assert (p + a)[1..] == p[1..] + a && (p + b)[1..] == p[1..] + b;
    }
  }

  predicate IsLeast(k: string, keys: set<string>) {
    k in keys && forall j | j in keys && j != k :: Less(k, j)
  }

  lemma {:induction false} LeastExists(keys: set<string>)
    requires keys != {}
    ensures exists k :: IsLeast(k, keys)
    decreases |keys|
  {
    var x :| x in keys;
    var rest := keys - {x};
    if rest == {} {
      assert keys == {x};
      assert IsLeast(x, keys);
    } else {
      LeastExists(rest);
      var k :| IsLeast(k, rest);
      LessTotal(x, k);
      if Less(x, k) {
        forall j | j in keys && j != x ensures Less(x, j) { if j != k { LessTrans(x, k, j); } }
        assert IsLeast(x, keys);
      } else {
        assert IsLeast(k, keys);
      }
    }
  }

  lemma LeastUnique(keys: set<string>)
    ensures forall j, k | IsLeast(j, keys) && IsLeast(k, keys) :: j == k
  {
    forall j, k | IsLeast(j, keys) && IsLeast(k, keys)
      ensures j == k
    {
      if j != k { LessAsymmetric(j, k); }
    }
  }

  function Least(keys: set<string>): (k: string)
    requires keys != {}
    ensures IsLeast(k, keys)
  {
    LeastExists(keys);
    LeastUnique(keys);
    var k :| k in keys && IsLeast(k, keys);
    k
  }

  ghost predicate StrictlySorted(ks: seq<string>) {
    forall i, j | 0 <= i < j < |ks| :: Less(ks[i], ks[j])
  }

  /** The keys of a tree in iteration order. */
  function SortedKeys(keys: set<string>): (ks: seq<string>)
    ensures forall k :: k in ks <==> k in keys
    ensures StrictlySorted(ks)
    decreases |keys|
  {
    if keys == {} then []
    else
      var k := Least(keys);
      [k] + SortedKeys(keys - {k})
  }

  lemma HasElement(ks: seq<string>)
    ensures ks == [] || exists k :: k in ks
  {
    if ks != [] { assert ks[0] in ks; }
  }

  /** A strictly sorted sequence is determined by its elements. */
  lemma {:induction false} SortedUnique(ks: seq<string>, js: seq<string>)
    requires StrictlySorted(ks) && StrictlySorted(js) && forall k :: k in ks <==> k in js
    ensures ks == js
  {
    if ks == [] {
      HasElement(js);
    } else {
      assert ks[0] in js;
      assert js != [] && js[0] in ks;
      var a :| 0 <= a < |ks| && ks[a] == js[0];
      var b :| 0 <= b < |js| && js[b] == ks[0];
      if a > 0 && b > 0 { LessAsymmetric(ks[0], ks[a]); }
      assert ks[0] == js[0];
      forall k
        ensures k in ks[1..] <==> k in js[1..]
      {
        SortedTail(ks, k);
        SortedTail(js, k);
      }
      SortedUnique(ks[1..], js[1..]);
    }
  }

  lemma SortedTail(ks: seq<string>, k: string)
    requires StrictlySorted(ks) && ks != []
    ensures k in ks[1..] <==> k in ks && k != ks[0]
  {
    if k in ks[1..] {
      var i :| 0 <= i < |ks[1..]| && ks[1..][i] == k;
      LessAsymmetric(ks[0], ks[i + 1]);
    }
    if k in ks && k != ks[0] {
      var i :| 0 <= i < |ks| && ks[i] == k;
      assert ks[1..][i - 1] == k;
    }
  }

  // ----- Scanning a prefix -----

  function KeysUnder(m: Store, prefix: string): set<string> {
    set k | k in m && prefix <= k
  }

  function Values(m: Store, ks: seq<string>): (vs: seq<Bytes>)
    requires forall k | k in ks :: k in m
    ensures |vs| == |ks| && forall i | 0 <= i < |ks| :: vs[i] == m[ks[i]]
  {
    seq(|ks|, i requires 0 <= i < |ks| => m[ks[i]])
  }

  /** The values scan_prefix yields, in key order. */
  function ReadList(m: Store, prefix: string): seq<Bytes> {
    Values(m, SortedKeys(KeysUnder(m, prefix)))
  }

  /** Two duplicate-free enumerations of the same keys read the same values, up to order. */
  lemma {:induction false} SameKeysSameValues(m: Store, ks: seq<string>, js: seq<string>)
    requires forall k | k in ks :: k in m
    requires forall k :: k in ks <==> k in js
    requires forall i, j | 0 <= i < j < |ks| :: ks[i] != ks[j]
    requires forall i, j | 0 <= i < j < |js| :: js[i] != js[j]
    ensures multiset(Values(m, ks)) == multiset(Values(m, js))
  {
    if ks == [] {
      HasElement(js);
    } else {
      var k := ks[0];
      assert k in js;
      var p :| 0 <= p < |js| && js[p] == k;
      var rest := js[..p] + js[p + 1..];
      forall x
        ensures x in ks[1..] <==> x in rest
      {
        RestOfKeys(ks, js, p, x);
      }
      RestDistinct(js, p);
      SameKeysSameValues(m, ks[1..], rest);
      TakeOutFirst(m, ks);
      TakeOut(m, js, p);
    }
  }

  lemma TakeOutFirst(m: Store, ks: seq<string>)
    requires ks != [] && forall k | k in ks :: k in m
    ensures forall k | k in ks[1..] :: k in m
    ensures multiset(Values(m, ks)) == multiset{m[ks[0]]} + multiset(Values(m, ks[1..]))
  {
    assert Values(m, ks) == [m[ks[0]]] + Values(m, ks[1..]);
  }

  lemma RestDistinct(js: seq<string>, p: nat)
    requires p < |js| && forall i, j | 0 <= i < j < |js| :: js[i] != js[j]
    ensures var rest := js[..p] + js[p + 1..]; forall i, j | 0 <= i < j < |rest| :: rest[i] != rest[j]
  {
  }

  lemma TakeOut(m: Store, js: seq<string>, p: nat)
    requires p < |js| && forall k | k in js :: k in m
    ensures forall k | k in js[..p] + js[p + 1..] :: k in m
    ensures multiset(Values(m, js)) == multiset{m[js[p]]} + multiset(Values(m, js[..p] + js[p + 1..]))
  {
    var vs, rest := Values(m, js), js[..p] + js[p + 1..];
    assert vs == vs[..p] + [m[js[p]]] + vs[p + 1..];
    assert Values(m, rest) == vs[..p] + vs[p + 1..];
  }

  lemma RestOfKeys(ks: seq<string>, js: seq<string>, p: nat, x: string)
    requires ks != [] && p < |js| && js[p] == ks[0]
    requires forall k :: k in ks <==> k in js
    requires forall i, j | 0 <= i < j < |ks| :: ks[i] != ks[j]
    requires forall i, j | 0 <= i < j < |js| :: js[i] != js[j]
    ensures x in ks[1..] <==> x in js[..p] + js[p + 1..]
  {
    assert x in ks <==> x == ks[0] || x in ks[1..];
    assert js == js[..p] + [js[p]] + js[p + 1..];
  }

  // ----- Decimal index keys -----

  function Digit(d: nat): char
    requires d < 10
  {
    (48 + d) as char
  }

  /** Rust's formatting of an index. */
  function Dec(n: nat): (s: string)
    ensures s != []
  {
    if n < 10 then [Digit(n)] else Dec(n / 10) + [Digit(n % 10)]
  }

  lemma {:induction false} DecInjective(a: nat, b: nat)
    requires a != b
    ensures Dec(a) != Dec(b)
  {
    if a < 10 && b < 10 {
      assert Dec(a)[0] != Dec(b)[0];
    } else if a >= 10 && b >= 10 {
      var x, y := Dec(a / 10), Dec(b / 10);
      if a / 10 != b / 10 { DecInjective(a / 10, b / 10); }
      assert (x + [Digit(a % 10)])[..|x|] == x && (y + [Digit(b % 10)])[..|y|] == y;
      assert (x + [Digit(a % 10)])[|x|] == Digit(a % 10) && (y + [Digit(b % 10)])[|y|] == Digit(b % 10);
    } else {
      assert |Dec(a)| != |Dec(b)|;
    }
  }

  function IndexKey(prefix: string, i: nat): string {
    prefix + Dec(i)
  }

  lemma IndexKeyInjective(prefix: string, i: nat, j: nat)
    requires i != j
    ensures IndexKey(prefix, i) != IndexKey(prefix, j)
  {
    assert IndexKey(prefix, i)[|prefix|..] == Dec(i) && IndexKey(prefix, j)[|prefix|..] == Dec(j);
    DecInjective(i, j);
  }

  /** Inserting a list's elements one by one under their index keys. */
  function WriteList(m: Store, prefix: string, vals: seq<Bytes>): Store {
    if vals == [] then m
    else
      var last := |vals| - 1;
      WriteList(m, prefix, vals[..last])[IndexKey(prefix, last) := vals[last]]
  }

  /** What a written list leaves in the tree. */
  lemma {:induction false} WriteListEffect(m: Store, prefix: string, vals: seq<Bytes>)
    ensures
      var w := WriteList(m, prefix, vals);
      && (forall i | 0 <= i < |vals| :: IndexKey(prefix, i) in w && w[IndexKey(prefix, i)] == vals[i])
      && (forall k :: k in w <==> k in m || exists i :: 0 <= i < |vals| && k == IndexKey(prefix, i))
      && (forall k | k in m && !(exists i :: 0 <= i < |vals| && k == IndexKey(prefix, i)) :: w[k] == m[k])
  {
    if vals != [] {
      var last := |vals| - 1;
      WriteListEffect(m, prefix, vals[..last]);
      forall i | 0 <= i < last
        ensures IndexKey(prefix, i) != IndexKey(prefix, last)
      {
        IndexKeyInjective(prefix, i, last);
      }
    }
  }

  ghost predicate NoneUnder(m: Store, prefix: string) {
    forall k | k in m :: !(prefix <= k)
  }

  function IndexKeys(prefix: string, n: nat): (ks: seq<string>)
    ensures |ks| == n && forall i | 0 <= i < n :: ks[i] == IndexKey(prefix, i)
  {
    seq(n, i requires 0 <= i < n => IndexKey(prefix, i))
  }

  lemma FreshListKeys(m: Store, prefix: string, vals: seq<Bytes>)
    requires NoneUnder(m, prefix)
    ensures
      var w, ks := WriteList(m, prefix, vals), IndexKeys(prefix, |vals|);
      && (forall k :: k in ks <==> k in KeysUnder(w, prefix))
      && (forall i, j | 0 <= i < j < |ks| :: ks[i] != ks[j])
      && (forall k | k in ks :: k in w) && Values(w, ks) == vals
  {
    WriteListEffect(m, prefix, vals);
    var w, ks := WriteList(m, prefix, vals), IndexKeys(prefix, |vals|);
    forall i, j | 0 <= i < j < |ks|
      ensures ks[i] != ks[j]
    {
      IndexKeyInjective(prefix, i, j);
    }
    forall k
      ensures k in ks <==> k in KeysUnder(w, prefix)
    {
      if k in ks {
        var i :| 0 <= i < |ks| && ks[i] == k;
        assert prefix <= k && k in w;
      }
      if k in KeysUnder(w, prefix) {
        var i :| 0 <= i < |vals| && k == IndexKey(prefix, i);
        assert ks[i] == k;
      }
    }
  }

  lemma SortedDistinct(ks: seq<string>)
    requires StrictlySorted(ks)
    ensures forall i, j | 0 <= i < j < |ks| :: ks[i] != ks[j]
  {
    forall i, j | 0 <= i < j < |ks| ensures ks[i] != ks[j] { LessAsymmetric(ks[i], ks[j]); }
  }

  /** A list of any length written under a fresh prefix reads back with exactly its elements, repetitions included. */
  lemma ListReadsBackPermuted(m: Store, prefix: string, vals: seq<Bytes>)
    requires NoneUnder(m, prefix)
    ensures multiset(ReadList(WriteList(m, prefix, vals), prefix)) == multiset(vals)
  {
    FreshListKeys(m, prefix, vals);
    var w := WriteList(m, prefix, vals);
    SortedDistinct(SortedKeys(KeysUnder(w, prefix)));
    SameKeysSameValues(w, SortedKeys(KeysUnder(w, prefix)), IndexKeys(prefix, |vals|));
  }

  /** Up to ten elements the string order of the keys is the numeric one, so the list reads back unchanged. */
  lemma ShortListReadsBack(m: Store, prefix: string, vals: seq<Bytes>)
    requires NoneUnder(m, prefix) && |vals| <= 10
    ensures ReadList(WriteList(m, prefix, vals), prefix) == vals
  {
    FreshListKeys(m, prefix, vals);
    var w, ks := WriteList(m, prefix, vals), IndexKeys(prefix, |vals|);
    forall i, j | 0 <= i < j < |ks|
      ensures Less(ks[i], ks[j])
    {
      assert Less(Dec(i), Dec(j));
      LessUnderPrefix(prefix, Dec(i), Dec(j));
    }
    SortedUnique(SortedKeys(KeysUnder(w, prefix)), ks);
  }

  /** The key order of eleven indices: "10" sorts between "1" and "2". */
  function InKeyOrder(i: nat): nat {
    if i < 2 then i else if i == 2 then 10 else i - 1
  }

  lemma InKeyOrderSorted(i: nat, j: nat)
    requires i < j < 11
    ensures Less(Dec(InKeyOrder(i)), Dec(InKeyOrder(j)))
  {
  }

  /** The keys of eleven entries in key order. */
  function ScrambledKeys(prefix: string): (ks: seq<string>)
    ensures |ks| == 11 && forall i | 0 <= i < 11 :: ks[i] == IndexKey(prefix, InKeyOrder(i))
  {
    seq(11, i requires 0 <= i < 11 => IndexKey(prefix, InKeyOrder(i)))
  }

  lemma ScrambledSorted(prefix: string)
    ensures StrictlySorted(ScrambledKeys(prefix))
  {
    var ks := ScrambledKeys(prefix);
    forall i, j | 0 <= i < j < 11
      ensures Less(ks[i], ks[j])
    {
      InKeyOrderSorted(i, j);
      LessUnderPrefix(prefix, Dec(InKeyOrder(i)), Dec(InKeyOrder(j)));
    }
  }

  lemma ScrambledComplete(prefix: string, k: string)
    ensures k in ScrambledKeys(prefix) <==> k in IndexKeys(prefix, 11)
  {
    var all, ks := IndexKeys(prefix, 11), ScrambledKeys(prefix);
    if k in all {
      var i :| 0 <= i < 11 && all[i] == k;
      assert ks[if i < 2 then i else if i == 10 then 2 else i + 1] == k;
    }
    if k in ks {
      var i :| 0 <= i < 11 && ks[i] == k;
      assert all[InKeyOrder(i)] == k;
    }
  }

  /** With eleven elements the last one comes back third. */
  lemma ElevenReadsBackScrambled(m: Store, prefix: string, vals: seq<Bytes>)
    requires NoneUnder(m, prefix) && |vals| == 11
    ensures ReadList(WriteList(m, prefix, vals), prefix) == seq(11, i requires 0 <= i < 11 => vals[InKeyOrder(i)])
  {
    FreshListKeys(m, prefix, vals);
    var w, ks := WriteList(m, prefix, vals), ScrambledKeys(prefix);
    ScrambledSorted(prefix);
    forall k ensures k in ks <==> k in IndexKeys(prefix, 11) { ScrambledComplete(prefix, k); }
    SortedUnique(SortedKeys(KeysUnder(w, prefix)), ks);
    forall i | 0 <= i < 11
      ensures w[ks[i]] == vals[InKeyOrder(i)]
    {
      assert Values(w, IndexKeys(prefix, 11))[InKeyOrder(i)] == vals[InKeyOrder(i)];
    }
  }

  // ----- Integers as native-endian bytes -----

  /** u32::to_ne_bytes on a little-endian machine. */
  function U32Bytes(n: nat): Bytes
    requires n < 0x1_0000_0000
  {
    [(n % 256) as char, (n / 256 % 256) as char, (n / 65536 % 256) as char, (n / 16777216) as char]
  }

  /** bytes_to_u32; the source panics unless there are exactly four bytes. */
  function U32FromBytes(b: Bytes): Option<nat> {
    if |b| != 4 then None
    else Some(b[0] as nat + 256 * (b[1] as nat) + 65536 * (b[2] as nat) + 16777216 * (b[3] as nat))
  }

  lemma ByteSplit(n: nat)
    ensures n == n % 256 + 256 * (n / 256) && n / 256 / 256 == n / 65536 && n / 65536 / 256 == n / 16777216
  {
  }

  lemma BytesSum(n: nat)
    ensures n == n % 256 + 256 * (n / 256 % 256) + 65536 * (n / 65536 % 256) + 16777216 * (n / 16777216)
  {
    ByteSplit(n);
    ByteSplit(n / 256);
    ByteSplit(n / 65536);
  }

  lemma U32RoundTrip(n: nat)
    requires n < 0x1_0000_0000
    ensures U32FromBytes(U32Bytes(n)) == Some(n)
  {
    BytesSum(n);
  }

  predicate IsI32(i: int) {
    -0x8000_0000 <= i < 0x8000_0000
  }

  /** i32::to_ne_bytes: two's complement. */
  function I32Bytes(i: int): Bytes
    requires IsI32(i)
  {
    U32Bytes(if i < 0 then i + 0x1_0000_0000 else i)
  }

  function I32FromBytes(b: Bytes): Option<int> {
    match U32FromBytes(b)
    case None => None
    case Some(n) => Some(if n < 0x8000_0000 then n else n - 0x1_0000_0000)
  }

  lemma I32RoundTrip(i: int)
    requires IsI32(i)
    ensures I32FromBytes(I32Bytes(i)) == Some(i)
  {
    U32RoundTrip(if i < 0 then i + 0x1_0000_0000 else i);
  }
}
