/** TC proceed-on values: the Go conversion in the agent and TcProceedOn in bpfman's types. */
module TcProceedOn {
  import opened Wrappers
  import opened Sled
  import opened ProceedOn

  /** TcProceedOnEntry. */
  datatype Entry =
    | Unspec | Ok | Reclassify | Shot | Pipe | Stolen | Queued | Repeat | Redirect | Trap | DispatcherReturn

  const DEFAULT := [Pipe, DispatcherReturn]
  const PREFIX := "tc_proceed_on_"

  /** The value a TC program returns for this action. */
  function Code(e: Entry): int {
    match e
    case Unspec => -1
    case Ok => 0
    case Reclassify => 1
    case Shot => 2
    case Pipe => 3
    case Stolen => 4
    case Queued => 5
    case Repeat => 6
    case Redirect => 7
    case Trap => 8
    case DispatcherReturn => 30
  }

  function FromInt(i: int): Option<Entry> {
    match i
    case -1 => Some(Unspec)
    case 0 => Some(Entry.Ok)
    case 1 => Some(Reclassify)
    case 2 => Some(Shot)
    case 3 => Some(Pipe)
    case 4 => Some(Stolen)
    case 5 => Some(Queued)
    case 6 => Some(Repeat)
    case 7 => Some(Redirect)
    case 8 => Some(Trap)
    case 30 => Some(DispatcherReturn)
    case _ => None
  }

  function FromName(s: string): Option<Entry> {
    if s == "unspec" then Some(Unspec)
    else if s == "ok" then Some(Entry.Ok)
    else if s == "reclassify" then Some(Reclassify)
    else if s == "shot" then Some(Shot)
    else if s == "pipe" then Some(Pipe)
    else if s == "stolen" then Some(Stolen)
    else if s == "queued" then Some(Queued)
    else if s == "repeat" then Some(Repeat)
    else if s == "redirect" then Some(Redirect)
    else if s == "trap" then Some(Trap)
    else if s == "dispatcher_return" then Some(DispatcherReturn)
    else None
  }

  /** The cases of the Go switch. */
  function GoCode(s: string): Option<int> {
    if s == "unspec" then Some(-1)
    else if s == "ok" then Some(0)
    else if s == "reclassify" then Some(1)
    else if s == "shot" then Some(2)
    else if s == "pipe" then Some(3)
    else if s == "stolen" then Some(4)
    else if s == "queued" then Some(5)
    else if s == "repeat" then Some(6)
    else if s == "redirect" then Some(7)
    else if s == "trap" then Some(8)
    else if s == "dispatcher_return" then Some(30)
    else None
  }

  lemma CodeRoundTrip(e: Entry)
    ensures FromInt(Code(e)) == Some(e) && -1 <= Code(e) < 31
  {
  }

  /** The bit an action occupies: TC codes start at -1, so everything is shifted by one. */
  function BitOf(e: Entry): BitIndex {
    Code(e) + 1
  }

  function Bits(list: seq<Entry>): seq<BitIndex> {
    BitsOf(BitOf, list)
  }

  /** tcProceedOnToInt. */
  method ToInt(names: seq<string>) returns (out: seq<int>)
    ensures out == KeepSome(GoCode, names)
  {
    out := [];
    for i := 0 to |names|
      invariant out == KeepSome(GoCode, names[..i])
    {
      assert names[..i + 1][..i] == names[..i];
      var code := GoCode(names[i]);
      if code.Some? {
        out := out + [code.value];
      }
    }
    assert names[..|names|] == names;
  }

  /** from_int32s. */
  method FromInt32s(values: seq<int>) returns (r: Result<seq<Entry>, int>)
    ensures
      var all := ParseAll(FromInt, values);
      r == if all.Ok? then Result.Ok(OrDefault(all.value, DEFAULT)) else Err(all.error)
  {
    if values == [] {
      return Result.Ok(DEFAULT);
    }
    var res := [];
    for i := 0 to |values|
      invariant ParseAll(FromInt, values[..i]) == Result.Ok(res) && |res| == i
    {
      assert values[..i + 1][..i] == values[..i];
      var e := FromInt(values[i]);
      if e.None? {
        FirstError(FromInt, values, i);
        return Err(values[i]);
      }
      res := res + [e.value];
    }
    assert values[..|values|] == values;
    return Result.Ok(res);
  }

  /** from_strings. */
  method FromStrings(values: seq<string>) returns (r: Result<seq<Entry>, string>)
    ensures r == ParseAll(FromName, values)
  {
    var res := [];
    for i := 0 to |values|
      invariant ParseAll(FromName, values[..i]) == Result.Ok(res)
    {
      assert values[..i + 1][..i] == values[..i];
      var e := FromName(values[i]);
      if e.None? {
        FirstError(FromName, values, i);
        return Err(values[i]);
      }
      res := res + [e.value];
    }
    assert values[..|values|] == values;
    return Result.Ok(res);
  }

  /** mask: after the loop exactly the listed actions' bits are set. */
  method Mask(list: seq<Entry>) returns (mask: bv32)
    ensures mask == MaskOf(Bits(list))
    ensures forall j: BitIndex :: Has(mask, j) <==> exists e :: e in list && BitOf(e) == j
  {
    mask := 0;
    for i := 0 to |list|
      invariant mask == MaskOf(Bits(list[..i]))
    {
      MaskStep(list, i);
      mask := mask | Bit(Code(list[i]) + 1);
    }
    assert list[..|list|] == list;
    forall j: BitIndex ensures Has(mask, j) <==> exists e :: e in list && BitOf(e) == j { MaskHolds(BitOf, list, j); }
  }

  lemma MaskStep(list: seq<Entry>, i: nat)
    requires i < |list|
    ensures MaskOf(Bits(list[..i + 1])) == MaskOf(Bits(list[..i])) | Bit(Code(list[i]) + 1)
  {
    assert Bits(list[..i + 1])[..i] == Bits(list[..i]);
  }

  /** as_action_vec. */
  method AsActionVec(list: seq<Entry>) returns (res: seq<int>)
    ensures |res| == |list| && forall i | 0 <= i < |list| :: res[i] == Code(list[i])
  {
    res := [];
    for i := 0 to |list|
      invariant |res| == i && forall j | 0 <= j < i :: res[j] == Code(list[j])
    {
      res := res + [Code(list[i])];
    }
  }

  /** A set bit of the mask is exactly a listed code. */
  lemma MaskIsMembership(list: seq<Entry>, code: int)
    requires -1 <= code < 31
    ensures Has(MaskOf(Bits(list)), code + 1) <==> exists e :: e in list && Code(e) == code
  {
    MaskHolds(BitOf, list, code + 1);
    assert forall e :: BitOf(e) == code + 1 <==> Code(e) == code;
  }

  lemma GoCodeMatches(s: string)
    ensures GoCode(s).None? ==> FromName(s).None?
    ensures GoCode(s).Some? ==> FromInt(GoCode(s).value).Some? && FromName(s) == FromInt(GoCode(s).value)
  {
  }

  /** Name-to-mask agreement between the agent's Go code and bpfman's Rust code. */
  lemma GoAndRustAgree(names: seq<string>)
    ensures
      var viaGo := ParseAll(FromInt, KeepSome(GoCode, names));
      && viaGo.Ok?
      && (ParseAll(FromName, names) == Result.Ok(OrDefault(viaGo.value, DEFAULT)) <==>
          names != [] && forall i | 0 <= i < |names| :: FromName(names[i]).Some?)
  {
    CodecSound();
    NamesAgree(FromName, GoCode, FromInt, names, DEFAULT);
  }

  // ----- Storage -----

  function Encode(e: Entry): Bytes {
    I32Bytes(Code(e))
  }

  function Decode(b: Bytes): Option<Entry> {
    match I32FromBytes(b)
    case None => None
    case Some(i) => FromInt(i)
  }

  lemma EncodingRoundTrip(e: Entry)
    ensures Decode(Encode(e)) == Some(e)
  {
    CodeRoundTrip(e);
    I32RoundTrip(Code(e));
  }

  lemma IntIsCode(i: int)
    ensures FromInt(i).Some? ==> Code(FromInt(i).value) == i
  {
  }

  const CODEC: Codec<Entry> :=
    Codec(FromName, GoCode, FromInt, Code, BitOf, 1, Encode, Decode, PREFIX, DEFAULT)

  lemma CodecSound()
    ensures Sound(CODEC)
    ensures forall s: string ::
              (GoCode(s).None? ==> FromName(s).None?) &&
              (GoCode(s).Some? ==> FromInt(GoCode(s).value).Some? && FromName(s) == FromInt(GoCode(s).value))
  {
    forall e: Entry ensures Decode(Encode(e)) == Some(e) { EncodingRoundTrip(e); }
    forall e: Entry ensures FromInt(Code(e)) == Some(e) { CodeRoundTrip(e); }
    forall i ensures FromInt(i).Some? ==> Code(FromInt(i).value) == i { IntIsCode(i); }
    forall s: string
      ensures (GoCode(s).None? ==> FromName(s).None?) &&
              (GoCode(s).Some? ==> FromInt(GoCode(s).value).Some? && FromName(s) == FromInt(GoCode(s).value))
    {
      GoCodeMatches(s);
    }
  }

  /** set_proceed_on then get_proceed_on keeps the mask, although the string order of the keys may scramble the list. */
  lemma StoredMaskUnchanged(m: Store, list: seq<Entry>)
    requires NoneUnder(m, PREFIX)
    ensures
      var r := LoadEntries(StoreEntries(m, PREFIX, Encode, list), PREFIX, Decode, DEFAULT);
      && r.Ok?
      && (list != [] ==> multiset(r.value) == multiset(list) && MaskOf(Bits(r.value)) == MaskOf(Bits(list)))
      && (0 < |list| <= 10 ==> r.value == list)
      && (list == [] ==> r.value == DEFAULT && MaskOf(Bits(r.value)) != MaskOf(Bits(list)))
  {
    CodecSound();
    EntriesReadBack(m, PREFIX, Encode, Decode, list, DEFAULT);
    if list != [] {
      StoredKeepsMask(CODEC, m, list);
    } else {
      MaskIsMembership(DEFAULT, Code(Pipe));
      assert Pipe in DEFAULT;
      MaskIsMembership([], Code(Pipe));
    }
  }
}
