/**
 What TC and XDP proceed-on lists share on their way from the names a user writes to the bit mask a dispatcher slot
 holds: bits of a mask, element-wise conversions, and storage in a sled tree.
 */
module ProceedOn {
  import opened Wrappers
  import opened Sled

  // ----- Bits of a u32 -----

  type BitIndex = i: nat | i < 32

  /** 1 << i, one doubling at a time; see BitIsShift. */
  function Bit(i: BitIndex): bv32 {
    if i == 0 then 1 else Bit(i - 1) << 1
  }

  lemma {:induction false} BitIsShift(i: BitIndex)
    ensures Bit(i) == (1 as bv32) << i
  {
    if i > 0 { BitIsShift(i - 1); }
  }

  /** The two have a bit in common. Keeps bit-vector goals apart from the recursive `Bit`. */
  predicate Overlap(a: bv32, b: bv32) {
    a & b != 0
  }

  lemma BitsDisjoint(i: BitIndex, j: BitIndex)
    ensures Overlap(Bit(i), Bit(j)) <==> i == j
  {
    BitIsShift(i);
    BitIsShift(j);
  }

  predicate Has(mask: bv32, i: BitIndex) {
    Overlap(mask, Bit(i))
  }

  lemma OrTest(mask: bv32, a: bv32, b: bv32)
    ensures Overlap(mask | a, b) <==> Overlap(mask, b) || Overlap(a, b)
  {
    assert (mask | a) & b == (mask & b) | (a & b);
  }

  lemma OrOneBit(mask: bv32, a: bv32, b: bv32, i: BitIndex, j: BitIndex)
    requires a == Bit(i) && b == Bit(j)
    ensures Overlap(mask | a, b) <==> Overlap(mask, b) || i == j
  {
    BitsDisjoint(i, j);
    OrTest(mask, a, b);
  }

  lemma SetBit(mask: bv32, result: bv32, a: bv32, b: bv32, i: BitIndex, j: BitIndex)
    requires a == Bit(i) && b == Bit(j) && result == mask | a
    ensures Has(result, j) <==> Has(mask, j) || i == j
  {
    OrOneBit(mask, a, b, i, j);
  }

  lemma SettingABit(mask: bv32, i: BitIndex, j: BitIndex)
    ensures Has(mask | Bit(i), j) <==> Has(mask, j) || i == j
  {
    var a, b := Bit(i), Bit(j);
    var m := mask | a;
    SetBit(mask, m, a, b, i, j);
  }

  /** OR-ing one bit after another. */
  function MaskOf(bits: seq<BitIndex>): bv32 {
    if bits == [] then 0 else MaskOf(bits[..|bits| - 1]) | Bit(bits[|bits| - 1])
  }

  lemma InLast(bits: seq<BitIndex>, j: BitIndex)
    requires bits != []
    ensures j in bits <==> j in bits[..|bits| - 1] || j == bits[|bits| - 1]
  {
  }

  lemma {:induction false} MaskTests(bits: seq<BitIndex>, j: BitIndex)
    ensures Has(MaskOf(bits), j) <==> j in bits
  {
    if bits == [] {
      assert !Overlap(0, Bit(j));
    } else {
      var last := |bits| - 1;
      MaskTests(bits[..last], j);
      InLast(bits, j);
      SettingABit(MaskOf(bits[..last]), bits[last], j);
    }
  }

  lemma {:induction false} MaskTakeOut(bits: seq<BitIndex>, p: nat)
    requires p < |bits|
    ensures MaskOf(bits) == MaskOf(bits[..p] + bits[p + 1..]) | Bit(bits[p])
  {
    var last := |bits| - 1;
    var rest := bits[..p] + bits[p + 1..];
    if p == last {
      assert rest == bits[..last];
    } else {
      MaskTakeOut(bits[..last], p);
      assert bits[..last][..p] + bits[..last][p + 1..] == rest[..|rest| - 1];
      var m, a, b := MaskOf(rest[..|rest| - 1]), Bit(bits[p]), Bit(bits[last]);
      assert (m | a) | b == (m | b) | a;
    }
  }

  /** A mask depends only on which bits are listed, not on their order. */
  lemma {:induction false} MaskPermutation(xs: seq<BitIndex>, ys: seq<BitIndex>)
    requires multiset(xs) == multiset(ys)
    ensures MaskOf(xs) == MaskOf(ys)
  {
    if xs == [] {
      assert |multiset(ys)| == 0;
    } else {
      var last := |xs| - 1;
      assert xs[last] in multiset(ys);
      var p :| 0 <= p < |ys| && ys[p] == xs[last];
      RemoveOne(xs, last);
      RemoveOne(ys, p);
      assert xs[..last] + xs[last + 1..] == xs[..last];
      MaskPermutation(xs[..last], Without(ys, p));
      MaskTakeOut(ys, p);
    }
  }

  // ----- Element-wise conversions -----

  /** Converts every element, or stops at the first that does not convert. */
  function ParseAll<A, E>(f: A -> Option<E>, xs: seq<A>): (r: Result<seq<E>, A>)
    ensures r.Ok? <==> forall i | 0 <= i < |xs| :: f(xs[i]).Some?
    ensures r.Ok? ==> |r.value| == |xs| && forall i | 0 <= i < |xs| :: f(xs[i]) == Some(r.value[i])
    ensures r.Err? ==>
              exists i :: 0 <= i < |xs| && xs[i] == r.error && f(xs[i]).None? && forall j | 0 <= j < i :: f(xs[j]).Some?
  {
    if xs == [] then Ok([])
    else
      var last := |xs| - 1;
      match ParseAll(f, xs[..last])
      case Err(e) => Err(e)
      case Ok(es) => if f(xs[last]).Some? then Ok(es + [f(xs[last]).value]) else Err(xs[last])
  }

  lemma {:induction false} FirstError<A, E>(f: A -> Option<E>, xs: seq<A>, i: nat)
    requires i < |xs| && f(xs[i]).None? && ParseAll(f, xs[..i]).Ok?
    ensures ParseAll(f, xs) == Err(xs[i])
    decreases |xs|
  {
  }

  /** Converts the elements that convert and silently drops the others, as a Go switch without a default does. */
  function KeepSome<A, B>(f: A -> Option<B>, xs: seq<A>): seq<B> {
    if xs == [] then []
    else
      var last := |xs| - 1;
      KeepSome(f, xs[..last]) + if f(xs[last]).Some? then [f(xs[last]).value] else []
  }

  lemma {:induction false} KeepsNoMore<A, B>(f: A -> Option<B>, xs: seq<A>)
    ensures |KeepSome(f, xs)| <= |xs|
    ensures |KeepSome(f, xs)| == |xs| <==> forall i | 0 <= i < |xs| :: f(xs[i]).Some?
    ensures forall i | 0 <= i < |KeepSome(f, xs)| :: exists j :: 0 <= j < |xs| && f(xs[j]) == Some(KeepSome(f, xs)[i])
    ensures |KeepSome(f, xs)| == |xs| ==> forall i | 0 <= i < |xs| :: f(xs[i]) == Some(KeepSome(f, xs)[i])
  {
    if xs != [] {
      var last := |xs| - 1;
      KeepsNoMore(f, xs[..last]);
      assert forall i | 0 <= i < last :: xs[..last][i] == xs[i];
    }
  }

  /** An empty list means the default list. */
  function OrDefault<E>(list: seq<E>, default: seq<E>): seq<E> {
    if list == [] then default else list
  }

  /**
   Converting names to integers in Go and integers to entries in Rust gives what converting the names in Rust gives,
   exactly when every name is valid and there is at least one.
   */
  lemma NamesAgree<E>(byName: string -> Option<E>, go: string -> Option<int>, byInt: int -> Option<E>,
                      names: seq<string>, default: seq<E>)
    requires default != [] && Compatible(byName, go, byInt)
    ensures
      var viaGo := ParseAll(byInt, KeepSome(go, names));
      && viaGo.Ok?
      && (ParseAll(byName, names) == Ok(OrDefault(viaGo.value, default)) <==>
          names != [] && forall i | 0 <= i < |names| :: byName(names[i]).Some?)
  {
    KeptParse(byName, go, byInt, names);
    if forall i | 0 <= i < |names| :: byName(names[i]).Some? { ValidNamesAgree(byName, go, byInt, names); }
  }

  ghost predicate Compatible<E>(byName: string -> Option<E>, go: string -> Option<int>, byInt: int -> Option<E>) {
    forall s :: if go(s).None? then byName(s).None? else byInt(go(s).value).Some? && byName(s) == byInt(go(s).value)
  }

  /** Every integer the Go side produces converts. */
  lemma KeptParse<E>(byName: string -> Option<E>, go: string -> Option<int>, byInt: int -> Option<E>,
                     names: seq<string>)
    requires Compatible(byName, go, byInt)
    ensures ParseAll(byInt, KeepSome(go, names)).Ok?
  {
    KeepsNoMore(go, names);
    var ints := KeepSome(go, names);
    forall i | 0 <= i < |ints| ensures byInt(ints[i]).Some? {
      var j :| 0 <= j < |names| && go(names[j]) == Some(ints[i]);
    }
  }

  lemma ValidNamesAgree<E>(byName: string -> Option<E>, go: string -> Option<int>, byInt: int -> Option<E>,
                           names: seq<string>)
    requires Compatible(byName, go, byInt) && forall i | 0 <= i < |names| :: byName(names[i]).Some?
    ensures ParseAll(byInt, KeepSome(go, names)).Ok?
    ensures ParseAll(byInt, KeepSome(go, names)).value == ParseAll(byName, names).value
  {
    KeepsNoMore(go, names);
    KeptParse(byName, go, byInt, names);
    var ints := KeepSome(go, names);
    var viaGo, direct := ParseAll(byInt, ints).value, ParseAll(byName, names).value;
    assert |ints| == |names|;
    forall i | 0 <= i < |names| ensures viaGo[i] == direct[i] { assert go(names[i]) == Some(ints[i]); }
    assert viaGo == direct;
  }

  // ----- Storage -----

  ghost predicate Parses<A, E>(f: A -> Option<E>, xs: seq<A>, rs: seq<E>) {
    |rs| == |xs| && forall i | 0 <= i < |xs| :: f(xs[i]) == Some(rs[i])
  }

  function Without<T>(xs: seq<T>, p: nat): seq<T>
    requires p < |xs|
  {
    xs[..p] + xs[p + 1..]
  }

  lemma ParsesWithout<A, E>(f: A -> Option<E>, xs: seq<A>, rs: seq<E>, p: nat)
    requires Parses(f, xs, rs) && p < |xs|
    ensures Parses(f, Without(xs, p), Without(rs, p))
  {
  }

  lemma {:induction false} ParsePermutation<A, E>(f: A -> Option<E>, xs: seq<A>, ys: seq<A>, rx: seq<E>, ry: seq<E>)
    requires multiset(xs) == multiset(ys) && Parses(f, xs, rx) && Parses(f, ys, ry)
    ensures multiset(rx) == multiset(ry)
    decreases |xs|
  {
    assert |xs| == |multiset(xs)| == |multiset(ys)| == |ys|;
    if xs != [] {
      assert xs[0] in multiset(ys);
      var p :| 0 <= p < |ys| && ys[p] == xs[0];
      RemoveOne(xs, 0);
      RemoveOne(ys, p);
      ParsesWithout(f, xs, rx, 0);
      ParsesWithout(f, ys, ry, p);
      ParsePermutation(f, Without(xs, 0), Without(ys, p), Without(rx, 0), Without(ry, p));
      RemoveOne(rx, 0);
      RemoveOne(ry, p);
      assert Some(rx[0]) == Some(ry[p]);
    }
  }

  lemma RemoveOne<T>(xs: seq<T>, p: nat)
    requires p < |xs|
    ensures multiset(xs) == multiset(Without(xs, p)) + multiset{xs[p]}
    ensures multiset(Without(xs, p)) == multiset(xs) - multiset{xs[p]}
  {
    assert xs == xs[..p] + [xs[p]] + xs[p + 1..];
  }

  /** set_proceed_on: one entry per index key. */
  function StoreEntries<E>(m: Store, prefix: string, encode: E -> Bytes, list: seq<E>): Store {
    WriteList(m, prefix, seq(|list|, i requires 0 <= i < |list| => encode(list[i])))
  }

  /** get_proceed_on: convert what the scan yields; nothing stored means the default list. */
  function LoadEntries<E>(m: Store, prefix: string, decode: Bytes -> Option<E>, default: seq<E>):
    Result<seq<E>, Bytes>
  {
    match ParseAll(decode, ReadList(m, prefix))
    case Err(b) => Err(b)
    case Ok(list) => Ok(OrDefault(list, default))
  }

  /**
   Storing a proceed-on list on a fresh tree and reading it back: a nonempty list of any length comes back as a
   permutation of itself, unchanged up to ten entries; an empty one comes back as the default.
   */
  lemma EntriesReadBack<E>(
    m: Store, prefix: string, encode: E -> Bytes, decode: Bytes -> Option<E>, list: seq<E>, default: seq<E>)
    requires NoneUnder(m, prefix) && forall i | 0 <= i < |list| :: decode(encode(list[i])) == Some(list[i])
    ensures
      var r := LoadEntries(StoreEntries(m, prefix, encode, list), prefix, decode, default);
      && r.Ok?
      && (list == [] ==> r.value == default)
      && (list != [] ==> multiset(r.value) == multiset(list))
      && (0 < |list| <= 10 ==> r.value == list)
  {
    var vals := seq(|list|, i requires 0 <= i < |list| => encode(list[i]));
    assert Parses(decode, vals, list);
    var read := ReadList(WriteList(m, prefix, vals), prefix);
    ListReadsBackPermuted(m, prefix, vals);
    PermutedParses(decode, vals, list, read);
    if |list| <= 10 {
      ShortListReadsBack(m, prefix, vals);
      assert ParseAll(decode, read).value == list;
    }
  }

  lemma PermutedParses<A, E>(f: A -> Option<E>, xs: seq<A>, rs: seq<E>, ys: seq<A>)
    requires Parses(f, xs, rs) && multiset(ys) == multiset(xs)
    ensures ParseAll(f, ys).Ok? && multiset(ParseAll(f, ys).value) == multiset(rs) && |ys| == |xs|
  {
    assert |ys| == |multiset(ys)| == |multiset(xs)| == |xs|;
    forall i | 0 <= i < |ys|
      ensures f(ys[i]).Some?
    {
      assert ys[i] in multiset(xs);
    }
    ParsePermutation(f, ys, xs, ParseAll(f, ys).value, rs);
  }

  // ----- One kind of program -----

  /** How one kind of program converts and stores its proceed-on entries. */
  datatype Codec<!E> = Codec(
    byName: string -> Option<E>,      // names in bpfman
    goCode: string -> Option<int>,    // names in the agent
    fromInt: int -> Option<E>,
    code: E -> int,                   // what a program returns for this action
    bit: E -> BitIndex, shift: nat,   // the bit of a mask, and how far it lies from the code
    encode: E -> Bytes, decode: Bytes -> Option<E>, prefix: string,
    default: seq<E>)

  /** The conversions fit together. */
  ghost predicate Sound<E(!new)>(c: Codec<E>) {
    && (forall e :: c.decode(c.encode(e)) == Some(e))
    && (forall e :: c.fromInt(c.code(e)) == Some(e))
    && (forall e :: c.bit(e) == c.code(e) + c.shift)
    && (forall i | c.fromInt(i).Some? :: c.code(c.fromInt(i).value) == i)
    && Compatible(c.byName, c.goCode, c.fromInt)
    && 0 < |c.default| <= 10
  }

  function BitsOf<E>(bit: E -> BitIndex, list: seq<E>): (bits: seq<BitIndex>)
    ensures |bits| == |list| && forall i | 0 <= i < |list| :: bits[i] == bit(list[i])
  {
    seq(|list|, i requires 0 <= i < |list| => bit(list[i]))
  }

  /** The codes a list of entries stands for. */
  function CodeSet<E>(code: E -> int, list: seq<E>): set<int> {
    set i | 0 <= i < |list| :: code(list[i])
  }

  /** After OR-ing, exactly the listed actions' bits are set. */
  lemma MaskHolds<E>(bit: E -> BitIndex, list: seq<E>, j: BitIndex)
    ensures Has(MaskOf(BitsOf(bit, list)), j) <==> exists e :: e in list && bit(e) == j
  {
    var bits := BitsOf(bit, list);
    MaskTests(bits, j);
    if j in bits {
      var i :| 0 <= i < |list| && bits[i] == j;
      assert list[i] in list;
    }
    forall e | e in list && bit(e) == j
      ensures j in bits
    {
      var i :| 0 <= i < |list| && list[i] == e;
      assert bits[i] == j;
    }
  }

  /** A mask lets exactly these return codes through. */
  ghost predicate Admits(mask: bv32, allowed: set<int>, shift: nat) {
    forall r | 0 <= r + shift < 32 :: Has(mask, r + shift) <==> r in allowed
  }

  lemma MaskAdmits<E(!new)>(c: Codec<E>, list: seq<E>)
    requires Sound(c)
    ensures Admits(MaskOf(BitsOf(c.bit, list)), CodeSet(c.code, list), c.shift)
  {
    forall r | 0 <= r + c.shift < 32
      ensures Has(MaskOf(BitsOf(c.bit, list)), r + c.shift) <==> r in CodeSet(c.code, list)
    {
      MaskHolds(c.bit, list, r + c.shift);
      if r in CodeSet(c.code, list) {
        var i :| 0 <= i < |list| && c.code(list[i]) == r;
        assert list[i] in list && c.bit(list[i]) == r + c.shift;
      }
      forall e | e in list && c.bit(e) == r + c.shift
        ensures r in CodeSet(c.code, list)
      {
        var i :| 0 <= i < |list| && list[i] == e;
      }
    }
  }

  /** set_proceed_on then get_proceed_on keeps the mask, although the string order of the keys may scramble the list. */
  lemma StoredKeepsMask<E(!new)>(c: Codec<E>, m: Store, list: seq<E>)
    requires Sound(c) && NoneUnder(m, c.prefix) && list != []
    ensures
      var r := LoadEntries(StoreEntries(m, c.prefix, c.encode, list), c.prefix, c.decode, c.default);
      r.Ok? && multiset(r.value) == multiset(list) && MaskOf(BitsOf(c.bit, r.value)) == MaskOf(BitsOf(c.bit, list))
  {
    EntriesReadBack(m, c.prefix, c.encode, c.decode, list, c.default);
    var r := LoadEntries(StoreEntries(m, c.prefix, c.encode, list), c.prefix, c.decode, c.default).value;
    ParsePermutation((e: E) => Some(c.bit(e)), r, list, BitsOf(c.bit, r), BitsOf(c.bit, list));
    MaskPermutation(BitsOf(c.bit, r), BitsOf(c.bit, list));
  }

  // ----- From names to masks -----

  /** The codes a list of names stands for. */
  function Named<E>(c: Codec<E>, names: seq<string>): set<int> {
    set i | 0 <= i < |names| && c.goCode(names[i]).Some? :: c.goCode(names[i]).value
  }

  /** The entries bpfman receives for a list of names: Go conversion, then from_int32s. */
  function Entries<E>(c: Codec<E>, names: seq<string>): Option<seq<E>> {
    match ParseAll(c.fromInt, KeepSome(c.goCode, names))
    case Err(_) => None
    case Ok(list) => Some(OrDefault(list, c.default))
  }

  /** The mask that ends up in a slot for a user's list of names, stored in the program's tree and read back. */
  function SlotMask<E>(c: Codec<E>, names: seq<string>, tree: Store): Option<bv32> {
    match Entries(c, names)
    case None => None
    case Some(entries) =>
      match LoadEntries(StoreEntries(tree, c.prefix, c.encode, entries), c.prefix, c.decode, c.default)
      case Err(_) => None
      case Ok(read) => Some(MaskOf(BitsOf(c.bit, read)))
  }

  ghost predicate AllNames<E>(c: Codec<E>, names: seq<string>) {
    names != [] && forall i | 0 <= i < |names| :: c.byName(names[i]).Some?
  }

  /** What a program asked for: the codes of the entries bpfman received, which are the default's if there were none. */
  function Asked<E>(c: Codec<E>, names: seq<string>): set<int> {
    match Entries(c, names) case None => {} case Some(entries) => CodeSet(c.code, entries)
  }

  /** The mask of a slot admits exactly what was asked for, for every list of names. */
  lemma SlotMaskAdmits<E(!new)>(c: Codec<E>, names: seq<string>, tree: Store)
    requires Sound(c) && NoneUnder(tree, c.prefix)
    ensures SlotMask(c, names, tree).Some? && Admits(SlotMask(c, names, tree).value, Asked(c, names), c.shift)
  {
    NamesAgree(c.byName, c.goCode, c.fromInt, names, c.default);
    StoredKeepsMask(c, tree, Entries(c, names).value);
    MaskAdmits(c, Entries(c, names).value);
  }

  lemma NameIsCode<E(!new)>(c: Codec<E>, s: string, e: E)
    requires Sound(c) && c.byName(s) == Some(e)
    ensures c.goCode(s) == Some(c.code(e))
  {
    assert c.goCode(s).Some?;
    var i := c.goCode(s).value;
    assert c.fromInt(i) == Some(e) && c.code(c.fromInt(i).value) == i;
  }

  /** For valid names that is what they name. */
  lemma AskedIsNamed<E(!new)>(c: Codec<E>, names: seq<string>)
    requires Sound(c) && AllNames(c, names)
    ensures Asked(c, names) == Named(c, names)
  {
    NamesAgree(c.byName, c.goCode, c.fromInt, names, c.default);
    var entries := ParseAll(c.byName, names).value;
    assert Entries(c, names) == Some(entries);
    forall i | 0 <= i < |names| ensures c.goCode(names[i]) == Some(c.code(entries[i])) {
      NameIsCode(c, names[i], entries[i]);
    }
    SameCodes(c, names, entries);
  }

  lemma SameCodes<E(!new)>(c: Codec<E>, names: seq<string>, entries: seq<E>)
    requires |entries| == |names| && forall i | 0 <= i < |names| :: c.goCode(names[i]) == Some(c.code(entries[i]))
    ensures CodeSet(c.code, entries) == Named(c, names)
  {
    forall r ensures r in CodeSet(c.code, entries) <==> r in Named(c, names) {
      if r in CodeSet(c.code, entries) {
        var i :| 0 <= i < |entries| && c.code(entries[i]) == r;
        assert c.goCode(names[i]).value == r;
      }
      if r in Named(c, names) {
        var i :| 0 <= i < |names| && c.goCode(names[i]).Some? && c.goCode(names[i]).value == r;
        assert c.code(entries[i]) == r;
      }
    }
  }

  /** The whole pipeline keeps the meaning of a nonempty list of valid names, whatever its length. */
  lemma SlotMaskMeans<E(!new)>(c: Codec<E>, names: seq<string>, tree: Store)
    requires Sound(c) && AllNames(c, names) && NoneUnder(tree, c.prefix)
    ensures SlotMask(c, names, tree).Some? && Admits(SlotMask(c, names, tree).value, Named(c, names), c.shift)
  {
    AskedIsNamed(c, names);
    SlotMaskAdmits(c, names, tree);
  }
}
