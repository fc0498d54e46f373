/** XDP proceed-on values: the Go conversion in the agent and XdpProceedOn in bpfman's types. */
module XdpProceedOn {
  import opened Wrappers
  import opened Sled
  import opened ProceedOn

  /** XdpProceedOnEntry. */
  datatype Entry = Aborted | Drop | Pass | Tx | Redirect | DispatcherReturn

  const DEFAULT := [Pass, DispatcherReturn]
  const PREFIX := "xdp_proceed_on_"

  /** The value an XDP program returns for this action. */
  function Code(e: Entry): int {
    match e
    case Aborted => 0
    case Drop => 1
    case Pass => 2
    case Tx => 3
    case Redirect => 4
    case DispatcherReturn => 31
  }

  function FromInt(i: int): Option<Entry> {
    match i
    case 0 => Some(Aborted)
    case 1 => Some(Drop)
    case 2 => Some(Pass)
    case 3 => Some(Tx)
    case 4 => Some(Redirect)
    case 31 => Some(DispatcherReturn)
    case _ => None
  }

  function FromName(s: string): Option<Entry> {
    if s == "aborted" then Some(Aborted)
    else if s == "drop" then Some(Drop)
    else if s == "pass" then Some(Pass)
    else if s == "tx" then Some(Tx)
    else if s == "redirect" then Some(Redirect)
    else if s == "dispatcher_return" then Some(DispatcherReturn)
    else None
  }

  /** The cases of the Go switch. */
  function GoCode(s: string): Option<int> {
    if s == "aborted" then Some(0)
    else if s == "drop" then Some(1)
    else if s == "pass" then Some(2)
    else if s == "tx" then Some(3)
    else if s == "redirect" then Some(4)
    else if s == "dispatcher_return" then Some(31)
    else None
  }

  lemma CodeRoundTrip(e: Entry)
    ensures FromInt(Code(e)) == Some(e) && 0 <= Code(e) < 32
  {
  }

  /** The bit an action occupies. */
  function BitOf(e: Entry): BitIndex {
    Code(e)
  }

  function Bits(list: seq<Entry>): seq<BitIndex> {
    BitsOf(BitOf, list)
  }

  /** xdpProceedOnToInt. */
  method ToInt(names: seq<string>) returns (out: seq<int>)
    ensures out == KeepSome(GoCode, names)
  {
    out := [];
    for i := 0 to |names|
      invariant out == KeepSome(GoCode, names[..i])
    {
      assert names[..i + 1][..i] == names[..i];
      var code := GoCode(names[i]);
      if code.Some? {
        out := out + [code.value];
      }
    }
    assert names[..|names|] == names;
  }

  /** from_int32s. */
  method FromInt32s(values: seq<int>) returns (r: Result<seq<Entry>, int>)
    ensures r == match ParseAll(FromInt, values) { case Err(i) => Err(i) case Ok(list) => Ok(OrDefault(list, DEFAULT)) }
  {
    if values == [] {
      return Ok(DEFAULT);
    }
    var res := [];
    for i := 0 to |values|
      invariant ParseAll(FromInt, values[..i]) == Ok(res) && |res| == i
    {
      assert values[..i + 1][..i] == values[..i];
      var e := FromInt(values[i]);
      if e.None? {
        FirstError(FromInt, values, i);
        return Err(values[i]);
      }
      res := res + [e.value];
    }
    assert values[..|values|] == values;
    return Ok(res);
  }

  /** from_strings. */
  method FromStrings(values: seq<string>) returns (r: Result<seq<Entry>, string>)
    ensures r == ParseAll(FromName, values)
  {
    var res := [];
    for i := 0 to |values|
      invariant ParseAll(FromName, values[..i]) == Ok(res)
    {
      assert values[..i + 1][..i] == values[..i];
      var e := FromName(values[i]);
      if e.None? {
        FirstError(FromName, values, i);
        return Err(values[i]);
      }
      res := res + [e.value];
    }
    assert values[..|values|] == values;
    return Ok(res);
  }

  /** mask: after the loop exactly the listed actions' bits are set. */
  method Mask(list: seq<Entry>) returns (mask: bv32)
    ensures mask == MaskOf(Bits(list))
    ensures forall j: BitIndex :: Has(mask, j) <==> exists e :: e in list && BitOf(e) == j
  {
    mask := 0;
    for i := 0 to |list|
      invariant mask == MaskOf(Bits(list[..i]))
    {
      MaskStep(list, i);
      mask := mask | Bit(Code(list[i]));
    }
    assert list[..|list|] == list;
    forall j: BitIndex ensures Has(mask, j) <==> exists e :: e in list && BitOf(e) == j { MaskHolds(BitOf, list, j); }
  }

  lemma MaskStep(list: seq<Entry>, i: nat)
    requires i < |list|
    ensures MaskOf(Bits(list[..i + 1])) == MaskOf(Bits(list[..i])) | Bit(Code(list[i]))
  {
    assert Bits(list[..i + 1])[..i] == Bits(list[..i]);
  }

  /** as_action_vec. */
  method AsActionVec(list: seq<Entry>) returns (res: seq<int>)
    ensures |res| == |list| && forall i | 0 <= i < |list| :: res[i] == Code(list[i])
  {
    res := [];
    for i := 0 to |list|
      invariant |res| == i && forall j | 0 <= j < i :: res[j] == Code(list[j])
    {
      res := res + [Code(list[i])];
    }
  }

  /** A set bit of the mask is exactly a listed code. */
  lemma MaskIsMembership(list: seq<Entry>, code: int)
    requires 0 <= code < 32
    ensures Has(MaskOf(Bits(list)), code) <==> exists e :: e in list && Code(e) == code
  {
    MaskHolds(BitOf, list, code);
    assert forall e :: BitOf(e) == code <==> Code(e) == code;
  }

  lemma GoCodeMatches(s: string)
    ensures GoCode(s).None? ==> FromName(s).None?
    ensures GoCode(s).Some? ==> FromInt(GoCode(s).value).Some? && FromName(s) == FromInt(GoCode(s).value)
  {
  }

  /** Name-to-mask agreement between the agent's Go code and bpfman's Rust code. */
  lemma GoAndRustAgree(names: seq<string>)
    ensures
      var viaGo := ParseAll(FromInt, KeepSome(GoCode, names));
      && viaGo.Ok?
      && (ParseAll(FromName, names) == Ok(OrDefault(viaGo.value, DEFAULT)) <==>
          names != [] && forall i | 0 <= i < |names| :: FromName(names[i]).Some?)
  {
    CodecSound();
    NamesAgree(FromName, GoCode, FromInt, names, DEFAULT);
  }

  // ----- Storage -----

  function Encode(e: Entry): Bytes {
    I32Bytes(Code(e))
  }

  function Decode(b: Bytes): Option<Entry> {
    match I32FromBytes(b)
    case None => None
    case Some(i) => FromInt(i)
  }

  lemma EncodingRoundTrip(e: Entry)
    ensures Decode(Encode(e)) == Some(e)
  {
    CodeRoundTrip(e);
    I32RoundTrip(Code(e));
  }

  lemma IntIsCode(i: int)
    ensures FromInt(i).Some? ==> Code(FromInt(i).value) == i
  {
  }

  const CODEC: Codec<Entry> :=
    Codec(FromName, GoCode, FromInt, Code, BitOf, 0, Encode, Decode, PREFIX, DEFAULT)

  lemma CodecSound()
    ensures Sound(CODEC)
    ensures forall s: string ::
              (GoCode(s).None? ==> FromName(s).None?) &&
              (GoCode(s).Some? ==> FromInt(GoCode(s).value).Some? && FromName(s) == FromInt(GoCode(s).value))
  {
    forall e: Entry ensures Decode(Encode(e)) == Some(e) { EncodingRoundTrip(e); }
    forall e: Entry ensures FromInt(Code(e)) == Some(e) { CodeRoundTrip(e); }
    forall i ensures FromInt(i).Some? ==> Code(FromInt(i).value) == i { IntIsCode(i); }
    forall s: string
      ensures (GoCode(s).None? ==> FromName(s).None?) &&
              (GoCode(s).Some? ==> FromInt(GoCode(s).value).Some? && FromName(s) == FromInt(GoCode(s).value))
    {
      GoCodeMatches(s);
    }
  }

  /** set_proceed_on then get_proceed_on keeps the mask, although the string order of the keys may scramble the list. */
  lemma StoredMaskUnchanged(m: Store, list: seq<Entry>)
    requires NoneUnder(m, PREFIX)
    ensures
      var r := LoadEntries(StoreEntries(m, PREFIX, Encode, list), PREFIX, Decode, DEFAULT);
      && r.Ok?
      && (list != [] ==> multiset(r.value) == multiset(list) && MaskOf(Bits(r.value)) == MaskOf(Bits(list)))
      && (0 < |list| <= 10 ==> r.value == list)
      && (list == [] ==> r.value == DEFAULT && MaskOf(Bits(r.value)) != MaskOf(Bits(list)))
  {
    CodecSound();
    EntriesReadBack(m, PREFIX, Encode, Decode, list, DEFAULT);
    if list != [] {
      StoredKeepsMask(CODEC, m, list);
    } else {
      MaskIsMembership(DEFAULT, Code(Pass));
      assert Pass in DEFAULT;
      MaskIsMembership([], Code(Pass));
    }
  }
}
