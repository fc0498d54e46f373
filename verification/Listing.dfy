/**
 What bpfman lists for a program it was asked to load: an empty function name is replaced by the image's, and the
 proceed-on codes of the request become entries, are stored, and come back from a scan of the tree. What an agent
 compares with is this, not what it sent.
 */
module Listing {
  import opened Wrappers
  import opened Sled
  import opened ProceedOn
  import TcP = TcProceedOn
  import XdpP = XdpProceedOn
  import opened AgentModel

  function CodesOf<E>(code: E -> int, list: seq<E>): (codes: seq<int>)
    ensures |codes| == |list| && forall i | 0 <= i < |list| :: codes[i] == code(list[i])
  {
    seq(|list|, i requires 0 <= i < |list| => code(list[i]))
  }

  /**
   from_int32s, set_proceed_on on a fresh tree, get_proceed_on, as_action_vec. Codes that do not convert never get
   here.
   */
  function Echo<E>(c: Codec<E>, codes: seq<int>): seq<int> {
    match ParseAll(c.fromInt, codes)
    case Err(_) => codes
    case Ok(list) =>
      match LoadEntries(StoreEntries(map[], c.prefix, c.encode, OrDefault(list, c.default)), c.prefix, c.decode,
          c.default)
      case Err(_) => codes
      case Ok(read) => CodesOf(c.code, read)
  }

  function ListedCodes(c: Codes): Codes {
    match c
    case NoCodes => NoCodes
    case TcCodes(codes) => TcCodes(Echo(TcP.CODEC, codes))
    case XdpCodes(codes) => XdpCodes(Echo(XdpP.CODEC, codes))
  }

  /** set_program_bytes: without a function name the one in the image's metadata is used; a file has none. */
  function ListedName(spec: Spec, images: string -> string): string {
    if spec.name == "" && spec.bytecode.Image? then images(spec.bytecode.source) else spec.name
  }

  /** How bpfman lists a spec; `images` gives the function name that each image carries. */
  function ListedSpec(spec: Spec, images: string -> string): Spec {
    spec.(name := ListedName(spec, images), proceedOn := ListedCodes(spec.proceedOn))
  }

  // ----- When the listing agrees with the request -----

  /** From the eleventh entry on the string order of the index keys shows: the last of eleven comes back third. */
  lemma ElevenScrambled<E(!new)>(c: Codec<E>, list: seq<E>)
    requires Sound(c) && |list| == 11
    ensures LoadEntries(StoreEntries(map[], c.prefix, c.encode, list), c.prefix, c.decode, c.default) ==
            Ok(seq(11, i requires 0 <= i < 11 => list[InKeyOrder(i)]))
  {
    var vals := seq(|list|, i requires 0 <= i < |list| => c.encode(list[i]));
    ElevenReadsBackScrambled(map[], c.prefix, vals);
    var read := ReadList(WriteList(map[], c.prefix, vals), c.prefix);
    assert forall i | 0 <= i < 11 :: c.decode(read[i]) == Some(list[InKeyOrder(i)]);
    assert ParseAll(c.decode, read).value == seq(11, i requires 0 <= i < 11 => list[InKeyOrder(i)]);
  }

  /** All but the first two of eleven are the same. */
  ghost predicate TailUniform(codes: seq<int>) {
    forall i | 2 <= i < |codes| :: codes[i] == codes[2]
  }

  lemma ScrambleFixed(codes: seq<int>)
    requires |codes| == 11
    ensures (forall i | 0 <= i < 11 :: codes[InKeyOrder(i)] == codes[i]) <==> TailUniform(codes)
  {
    if forall i | 0 <= i < 11 :: codes[InKeyOrder(i)] == codes[i] {
      assert codes[InKeyOrder(3)] == codes[3] && codes[InKeyOrder(4)] == codes[4] && codes[InKeyOrder(5)] == codes[5];
      assert codes[InKeyOrder(6)] == codes[6] && codes[InKeyOrder(7)] == codes[7] && codes[InKeyOrder(8)] == codes[8];
      assert codes[InKeyOrder(9)] == codes[9] && codes[InKeyOrder(10)] == codes[10];
    }
  }

  lemma CodesBack<E(!new)>(c: Codec<E>, codes: seq<int>)
    requires Sound(c) && forall i | 0 <= i < |codes| :: c.fromInt(codes[i]).Some?
    ensures ParseAll(c.fromInt, codes).Ok? && CodesOf(c.code, ParseAll(c.fromInt, codes).value) == codes
  {
    var list := ParseAll(c.fromInt, codes).value;
    forall i | 0 <= i < |codes| ensures c.code(list[i]) == codes[i] { assert c.fromInt(codes[i]) == Some(list[i]); }
  }

  lemma ShortEcho<E(!new)>(c: Codec<E>, codes: seq<int>)
    requires Sound(c) && |codes| <= 10 && forall i | 0 <= i < |codes| :: c.fromInt(codes[i]).Some?
    ensures Echo(c, codes) == if codes == [] then CodesOf(c.code, c.default) else codes
  {
    CodesBack(c, codes);
    EntriesReadBack(map[], c.prefix, c.encode, c.decode, OrDefault(ParseAll(c.fromInt, codes).value, c.default),
        c.default);
  }

  lemma ElevenEcho<E(!new)>(c: Codec<E>, codes: seq<int>)
    requires Sound(c) && |codes| == 11 && forall i | 0 <= i < |codes| :: c.fromInt(codes[i]).Some?
    ensures |Echo(c, codes)| == 11 && forall i | 0 <= i < 11 :: Echo(c, codes)[i] == codes[InKeyOrder(i)]
  {
    CodesBack(c, codes);
    ElevenScrambled(c, ParseAll(c.fromInt, codes).value);
  }

  /**
   Exactly when the agent finds again what it asked for: a list of valid codes, of a length the API admits, is listed
   unchanged if and only if it is not empty and, should it have eleven entries, all but the first two are the same.
   */
  lemma EchoExact<E(!new)>(c: Codec<E>, codes: seq<int>)
    requires Sound(c) && |codes| <= 11 && forall i | 0 <= i < |codes| :: c.fromInt(codes[i]).Some?
    ensures Echo(c, codes) == codes <==> codes != [] && (|codes| == 11 ==> TailUniform(codes))
  {
    if |codes| <= 10 {
      ShortEcho(c, codes);
    } else {
      ElevenEcho(c, codes);
      ScrambleFixed(codes);
    }
  }

  /** The eleven TC codes, in the order of the API's documentation. */
  const ALL_TC: seq<int> := [-1, 0, 1, 2, 3, 4, 5, 6, 7, 8, 30]

  lemma ListedExact(c: Codes)
    requires !c.NoCodes? ==> |c.codes| <= 11
    requires c.TcCodes? ==> forall i | 0 <= i < |c.codes| :: TcP.FromInt(c.codes[i]).Some?
    requires c.XdpCodes? ==> forall i | 0 <= i < |c.codes| :: XdpP.FromInt(c.codes[i]).Some?
    ensures ListedCodes(c) == c <==> c.NoCodes? || (c.codes != [] && (|c.codes| == 11 ==> TailUniform(c.codes)))
  {
    TcP.CodecSound();
    XdpP.CodecSound();
    if c.TcCodes? { EchoExact(TcP.CODEC, c.codes); }
    if c.XdpCodes? { EchoExact(XdpP.CODEC, c.codes); }
  }
}
