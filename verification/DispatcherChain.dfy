/**
 The eBPF dispatchers (bpf/tc_dispatcher.bpf.c, bpf/xdp_dispatcher_v2.bpf.c): ten slots tried in turn, each tested
 against its own bit mask. The chain is shown to mean what the users' proceed-on lists say.
 */
module DispatcherChain {
  import opened Wrappers
  import opened Sled
  import opened ProceedOn
  import Tc = TcProceedOn
  import Xdp = XdpProceedOn

  const MAX_DISPATCHER_ACTIONS := 10
  const TC_ACT_OK := 0
  const XDP_PASS := 2

  /** The part of tc_dispatcher_config / xdp_dispatcher_conf that the chain reads. */
  datatype Config = Config(numProgsEnabled: nat, chainCallActions: seq<bv32>) {
    ghost predicate Valid() {
      |chainCallActions| == MAX_DISPATCHER_ACTIONS
    }
  }

  /** The value of the first slot from `i` on that does not let the chain go on, else the default verdict. */
  function FirstStop(rets: seq<int>, goesOn: seq<bool>, verdict: int, i: nat): (r: int)
    requires i <= |goesOn| <= |rets|
    decreases |goesOn| - i
  {
    if i == |goesOn| then verdict
    else if !goesOn[i] then rets[i]
    else FirstStop(rets, goesOn, verdict, i + 1)
  }

  /** What FirstStop is: the default if every slot goes on, otherwise the value of the first that does not. */
  lemma {:induction false} FirstStopMeans(rets: seq<int>, goesOn: seq<bool>, verdict: int, i: nat)
    requires i <= |goesOn| <= |rets|
    ensures
      var r := FirstStop(rets, goesOn, verdict, i);
      && ((forall j | i <= j < |goesOn| :: goesOn[j]) ==> r == verdict)
      && (forall k | i <= k < |goesOn| && !goesOn[k] && (forall j | i <= j < k :: goesOn[j]) :: r == rets[k])
    decreases |goesOn| - i
  {
    if i < |goesOn| && goesOn[i] { FirstStopMeans(rets, goesOn, verdict, i + 1); }
  }

  function Enabled(conf: Config): nat {
    if conf.numProgsEnabled < MAX_DISPATCHER_ACTIONS then conf.numProgsEnabled else MAX_DISPATCHER_ACTIONS
  }

  /** Which enabled slots let the chain go on, when slot i returns rets[i] and tests bit rets[i] + shift. */
  function GoesOn(conf: Config, rets: seq<int>, shift: nat): (g: seq<bool>)
    requires conf.Valid() && |rets| >= MAX_DISPATCHER_ACTIONS
    requires forall i | 0 <= i < |rets| :: 0 <= rets[i] + shift < 32
    ensures |g| == Enabled(conf)
    ensures forall i | 0 <= i < |g| :: g[i] <==> Has(conf.chainCallActions[i], rets[i] + shift)
  {
    seq(Enabled(conf), i requires 0 <= i < Enabled(conf) => Has(conf.chainCallActions[i], rets[i] + shift))
  }

  // ----- The unrolled chains -----

  /** tc_dispatcher; rets[i] is what prog<i> returns, rets[10] what compat_test returns. */
  method TcDispatcher(conf: Config, rets: seq<int>) returns (ret: int)
    requires conf.Valid() && |rets| == MAX_DISPATCHER_ACTIONS + 1 && forall i | 0 <= i < |rets| :: -1 <= rets[i] < 31
    ensures ret == FirstStop(rets, GoesOn(conf, rets, 1), TC_ACT_OK, 0)
  {
    ghost var g := GoesOn(conf, rets, 1);
    if conf.numProgsEnabled < 1 { return TC_ACT_OK; }
    ret := rets[0];
    if !Has(conf.chainCallActions[0], ret + 1) { return; }
    assert FirstStop(rets, g, TC_ACT_OK, 0) == FirstStop(rets, g, TC_ACT_OK, 1);

    if conf.numProgsEnabled < 2 { return TC_ACT_OK; }
    ret := rets[1];
    if !Has(conf.chainCallActions[1], ret + 1) { return; }
    assert FirstStop(rets, g, TC_ACT_OK, 1) == FirstStop(rets, g, TC_ACT_OK, 2);

    if conf.numProgsEnabled < 3 { return TC_ACT_OK; }
    ret := rets[2];
    if !Has(conf.chainCallActions[2], ret + 1) { return; }
    assert FirstStop(rets, g, TC_ACT_OK, 2) == FirstStop(rets, g, TC_ACT_OK, 3);

    if conf.numProgsEnabled < 4 { return TC_ACT_OK; }
    ret := rets[3];
    if !Has(conf.chainCallActions[3], ret + 1) { return; }
    assert FirstStop(rets, g, TC_ACT_OK, 3) == FirstStop(rets, g, TC_ACT_OK, 4);

    if conf.numProgsEnabled < 5 { return TC_ACT_OK; }
    ret := rets[4];
    if !Has(conf.chainCallActions[4], ret + 1) { return; }
    assert FirstStop(rets, g, TC_ACT_OK, 4) == FirstStop(rets, g, TC_ACT_OK, 5);

    ret := TcSlots5To9(conf, rets);
  }

  /** The second half of the unrolled chain. */
  method TcSlots5To9(conf: Config, rets: seq<int>) returns (ret: int)
    requires conf.Valid() && |rets| == MAX_DISPATCHER_ACTIONS + 1 && forall i | 0 <= i < |rets| :: -1 <= rets[i] < 31
    requires conf.numProgsEnabled >= 5
    ensures ret == FirstStop(rets, GoesOn(conf, rets, 1), TC_ACT_OK, 5)
  {
    ghost var g := GoesOn(conf, rets, 1);
    if conf.numProgsEnabled < 6 { return TC_ACT_OK; }
    ret := rets[5];
    if !Has(conf.chainCallActions[5], ret + 1) { return; }
    assert FirstStop(rets, g, TC_ACT_OK, 5) == FirstStop(rets, g, TC_ACT_OK, 6);

    if conf.numProgsEnabled < 7 { return TC_ACT_OK; }
    ret := rets[6];
    if !Has(conf.chainCallActions[6], ret + 1) { return; }
    assert FirstStop(rets, g, TC_ACT_OK, 6) == FirstStop(rets, g, TC_ACT_OK, 7);

    if conf.numProgsEnabled < 8 { return TC_ACT_OK; }
    ret := rets[7];
    if !Has(conf.chainCallActions[7], ret + 1) { return; }
    assert FirstStop(rets, g, TC_ACT_OK, 7) == FirstStop(rets, g, TC_ACT_OK, 8);

    if conf.numProgsEnabled < 9 { return TC_ACT_OK; }
    ret := rets[8];
    if !Has(conf.chainCallActions[8], ret + 1) { return; }
    assert FirstStop(rets, g, TC_ACT_OK, 8) == FirstStop(rets, g, TC_ACT_OK, 9);

    if conf.numProgsEnabled < 10 { return TC_ACT_OK; }
    ret := rets[9];
    if !Has(conf.chainCallActions[9], ret + 1) { return; }
    assert FirstStop(rets, g, TC_ACT_OK, 9) == FirstStop(rets, g, TC_ACT_OK, 10);

    if conf.numProgsEnabled < 11 { return TC_ACT_OK; }
    ret := rets[10];
    return TC_ACT_OK;
  }

  /** xdp_dispatcher; rets[i] is what prog<i> returns, rets[10] what compat_test returns. */
  method XdpDispatcher(conf: Config, rets: seq<int>) returns (ret: int)
    requires conf.Valid() && |rets| == MAX_DISPATCHER_ACTIONS + 1 && forall i | 0 <= i < |rets| :: 0 <= rets[i] < 32
    ensures ret == FirstStop(rets, GoesOn(conf, rets, 0), XDP_PASS, 0)
  {
    ghost var g := GoesOn(conf, rets, 0);
    if conf.numProgsEnabled < 1 { return XDP_PASS; }
    ret := rets[0];
    if !Has(conf.chainCallActions[0], ret) { return; }
    assert FirstStop(rets, g, XDP_PASS, 0) == FirstStop(rets, g, XDP_PASS, 1);

    if conf.numProgsEnabled < 2 { return XDP_PASS; }
    ret := rets[1];
    if !Has(conf.chainCallActions[1], ret) { return; }
    assert FirstStop(rets, g, XDP_PASS, 1) == FirstStop(rets, g, XDP_PASS, 2);

    if conf.numProgsEnabled < 3 { return XDP_PASS; }
    ret := rets[2];
    if !Has(conf.chainCallActions[2], ret) { return; }
    assert FirstStop(rets, g, XDP_PASS, 2) == FirstStop(rets, g, XDP_PASS, 3);

    if conf.numProgsEnabled < 4 { return XDP_PASS; }
    ret := rets[3];
    if !Has(conf.chainCallActions[3], ret) { return; }
    assert FirstStop(rets, g, XDP_PASS, 3) == FirstStop(rets, g, XDP_PASS, 4);

    if conf.numProgsEnabled < 5 { return XDP_PASS; }
    ret := rets[4];
    if !Has(conf.chainCallActions[4], ret) { return; }
    assert FirstStop(rets, g, XDP_PASS, 4) == FirstStop(rets, g, XDP_PASS, 5);

    ret := XdpSlots5To9(conf, rets);
  }

  /** The second half of the unrolled chain. */
  method XdpSlots5To9(conf: Config, rets: seq<int>) returns (ret: int)
    requires conf.Valid() && |rets| == MAX_DISPATCHER_ACTIONS + 1 && forall i | 0 <= i < |rets| :: 0 <= rets[i] < 32
    requires conf.numProgsEnabled >= 5
    ensures ret == FirstStop(rets, GoesOn(conf, rets, 0), XDP_PASS, 5)
  {
    ghost var g := GoesOn(conf, rets, 0);
    if conf.numProgsEnabled < 6 { return XDP_PASS; }
    ret := rets[5];
    if !Has(conf.chainCallActions[5], ret) { return; }
    assert FirstStop(rets, g, XDP_PASS, 5) == FirstStop(rets, g, XDP_PASS, 6);

    if conf.numProgsEnabled < 7 { return XDP_PASS; }
    ret := rets[6];
    if !Has(conf.chainCallActions[6], ret) { return; }
    assert FirstStop(rets, g, XDP_PASS, 6) == FirstStop(rets, g, XDP_PASS, 7);

    if conf.numProgsEnabled < 8 { return XDP_PASS; }
    ret := rets[7];
    if !Has(conf.chainCallActions[7], ret) { return; }
    assert FirstStop(rets, g, XDP_PASS, 7) == FirstStop(rets, g, XDP_PASS, 8);

    if conf.numProgsEnabled < 9 { return XDP_PASS; }
    ret := rets[8];
    if !Has(conf.chainCallActions[8], ret) { return; }
    assert FirstStop(rets, g, XDP_PASS, 8) == FirstStop(rets, g, XDP_PASS, 9);

    if conf.numProgsEnabled < 10 { return XDP_PASS; }
    ret := rets[9];
    if !Has(conf.chainCallActions[9], ret) { return; }
    assert FirstStop(rets, g, XDP_PASS, 9) == FirstStop(rets, g, XDP_PASS, 10);

    if conf.numProgsEnabled < 11 { return XDP_PASS; }
    ret := rets[10];
    return XDP_PASS;
  }

  // ----- What the chain means -----

  /** The configuration for programs with these masks, in slot order; unused slots hold no bits. */
  function Configure(masks: seq<bv32>): (conf: Config)
    requires |masks| <= MAX_DISPATCHER_ACTIONS
    ensures conf.Valid() && Enabled(conf) == |masks|
    ensures forall i | 0 <= i < |masks| :: conf.chainCallActions[i] == masks[i]
  {
    Config(|masks|, masks + seq(MAX_DISPATCHER_ACTIONS - |masks|, _ => 0))
  }

  /** The verdict the users asked for: the first code that its own program's list does not name, else the default. */
  function Wanted(allowed: seq<set<int>>, rets: seq<int>, verdict: int): int
    requires |allowed| <= |rets|
  {
    FirstStop(rets, seq(|allowed|, i requires 0 <= i < |allowed| => rets[i] in allowed[i]), verdict, 0)
  }

  lemma ChainMeans(masks: seq<bv32>, allowed: seq<set<int>>, rets: seq<int>, shift: nat, verdict: int)
    requires |masks| == |allowed| <= MAX_DISPATCHER_ACTIONS < |rets|
    requires forall i | 0 <= i < |masks| :: Admits(masks[i], allowed[i], shift)
    requires forall i | 0 <= i < |rets| :: 0 <= rets[i] + shift < 32
    ensures FirstStop(rets, GoesOn(Configure(masks), rets, shift), verdict, 0) == Wanted(allowed, rets, verdict)
  {
    var g := GoesOn(Configure(masks), rets, shift);
    var h := seq(|allowed|, i requires 0 <= i < |allowed| => rets[i] in allowed[i]);
    forall i | 0 <= i < |masks|
      ensures g[i] == h[i]
    {
      assert Admits(masks[i], allowed[i], shift);
    }
    assert g == h;
  }

  /**
   Chain correctness for TC: with at most ten programs and each slot configured with its list's mask, the unrolled
   dispatcher returns the first code that is not in its own program's list, and TC_ACT_OK if there is none.
   */
  method RunTc(lists: seq<seq<Tc.Entry>>, rets: seq<int>) returns (ret: int)
    requires |lists| <= MAX_DISPATCHER_ACTIONS && |rets| == MAX_DISPATCHER_ACTIONS + 1
    requires forall i | 0 <= i < |rets| :: -1 <= rets[i] < 31
    ensures ret == Wanted(seq(|lists|, i requires 0 <= i < |lists| => CodeSet(Tc.Code, lists[i])), rets, TC_ACT_OK)
  {
    var masks := [];
    for i := 0 to |lists|
      invariant |masks| == i && forall j | 0 <= j < i :: masks[j] == MaskOf(Tc.Bits(lists[j]))
    {
      var mask := Tc.Mask(lists[i]);
      masks := masks + [mask];
    }
    ret := TcDispatcher(Configure(masks), rets);
    Tc.CodecSound();
    ghost var allowed := seq(|lists|, i requires 0 <= i < |lists| => CodeSet(Tc.Code, lists[i]));
    forall i | 0 <= i < |lists| ensures Admits(masks[i], allowed[i], 1) { MaskAdmits(Tc.CODEC, lists[i]); }
    ChainMeans(masks, allowed, rets, 1, TC_ACT_OK);
  }

  /** Chain correctness for XDP, with XDP_PASS as the default verdict. */
  method RunXdp(lists: seq<seq<Xdp.Entry>>, rets: seq<int>) returns (ret: int)
    requires |lists| <= MAX_DISPATCHER_ACTIONS && |rets| == MAX_DISPATCHER_ACTIONS + 1
    requires forall i | 0 <= i < |rets| :: 0 <= rets[i] < 32
    ensures ret == Wanted(seq(|lists|, i requires 0 <= i < |lists| => CodeSet(Xdp.Code, lists[i])), rets, XDP_PASS)
  {
    var masks := [];
    for i := 0 to |lists|
      invariant |masks| == i && forall j | 0 <= j < i :: masks[j] == MaskOf(Xdp.Bits(lists[j]))
    {
      var mask := Xdp.Mask(lists[i]);
      masks := masks + [mask];
    }
    ret := XdpDispatcher(Configure(masks), rets);
    Xdp.CodecSound();
    ghost var allowed := seq(|lists|, i requires 0 <= i < |lists| => CodeSet(Xdp.Code, lists[i]));
    forall i | 0 <= i < |lists| ensures Admits(masks[i], allowed[i], 0) { MaskAdmits(Xdp.CODEC, lists[i]); }
    ChainMeans(masks, allowed, rets, 0, XDP_PASS);
  }

  // ----- Defaults -----

  lemma KeepTwo(f: string -> Option<int>, a: string, b: string)
    requires f(a).Some? && f(b).Some?
    ensures KeepSome(f, [a, b]) == [f(a).value, f(b).value]
  {
    assert [a, b][..1] == [a] && [a][..0] == [];
    assert KeepSome(f, [a]) == [f(a).value];
  }

  lemma ParseTwo<E>(f: int -> Option<E>, i: int, j: int)
    requires f(i).Some? && f(j).Some?
    ensures ParseAll(f, [i, j]) == Ok([f(i).value, f(j).value])
  {
    var r := ParseAll(f, [i, j]);
    assert r.Ok? && r.value == [f(i).value, f(j).value];
  }

  /** Two names, converted by the agent and then by bpfman. */
  lemma TwoNames<E>(c: Codec<E>, a: string, b: string, x: E, y: E)
    requires c.goCode(a).Some? && c.fromInt(c.goCode(a).value) == Some(x)
    requires c.goCode(b).Some? && c.fromInt(c.goCode(b).value) == Some(y)
    ensures Entries(c, [a, b]) == Some([x, y])
  {
    KeepTwo(c.goCode, a, b);
    ParseTwo(c.fromInt, c.goCode(a).value, c.goCode(b).value);
  }

  /**
   An empty list means in bpfman what the API's defaults, pipe or pass and dispatcher_return, mean; and a packet that no
   program stops gets the verdict that users call ok or pass.
   */
  lemma DefaultsAgree()
    ensures Entries(Tc.CODEC, []) == Entries(Tc.CODEC, ["pipe", "dispatcher_return"])
    ensures Entries(Xdp.CODEC, []) == Entries(Xdp.CODEC, ["pass", "dispatcher_return"])
    ensures Tc.CODEC.goCode("ok") == Some(TC_ACT_OK) && Xdp.CODEC.goCode("pass") == Some(XDP_PASS)
  {
    TwoNames(Tc.CODEC, "pipe", "dispatcher_return", Tc.Pipe, Tc.DispatcherReturn);
    TwoNames(Xdp.CODEC, "pass", "dispatcher_return", Xdp.Pass, Xdp.DispatcherReturn);
  }

  // ----- From the users' names to the verdict -----

  /**
   Some input of the pipeline: at most ten programs given by nonempty lists of valid names, each with a fresh tree.
   */
  ghost predicate Given<E>(c: Codec<E>, names: seq<seq<string>>, trees: seq<Store>, rets: seq<int>) {
    && |names| == |trees| <= MAX_DISPATCHER_ACTIONS && |rets| == MAX_DISPATCHER_ACTIONS + 1
    && (forall i | 0 <= i < |names| :: AllNames(c, names[i]) && NoneUnder(trees[i], c.prefix))
    && (forall i | 0 <= i < |rets| :: 0 <= rets[i] + c.shift < 32)
  }

  ghost predicate MeansNames<E>(c: Codec<E>, names: seq<seq<string>>, trees: seq<Store>, rets: seq<int>, verdict: int)
    requires Given(c, names, trees, rets)
  {
    && (forall i | 0 <= i < |names| :: SlotMask(c, names[i], trees[i]).Some?)
    && var masks := seq(|names|, i requires 0 <= i < |names| => SlotMask(c, names[i], trees[i]).value);
       var allowed := seq(|names|, i requires 0 <= i < |names| => Named(c, names[i]));
       FirstStop(rets, GoesOn(Configure(masks), rets, c.shift), verdict, 0) == Wanted(allowed, rets, verdict)
  }

  /**
   End to end, for either kind: the dispatcher running the masks that went through the agent, the bpfman API and the
   database returns the first code its own program did not name.
   */
  lemma EndToEnd<E(!new)>(c: Codec<E>, names: seq<seq<string>>, trees: seq<Store>, rets: seq<int>, verdict: int)
    requires Sound(c) && Given(c, names, trees, rets)
    ensures MeansNames(c, names, trees, rets, verdict)
  {
    forall i | 0 <= i < |names|
      ensures SlotMask(c, names[i], trees[i]).Some? &&
              Admits(SlotMask(c, names[i], trees[i]).value, Named(c, names[i]), c.shift)
    {
      SlotMaskMeans(c, names[i], trees[i]);
    }
    var masks := seq(|names|, i requires 0 <= i < |names| => SlotMask(c, names[i], trees[i]).value);
    var allowed := seq(|names|, i requires 0 <= i < |names| => Named(c, names[i]));
    ChainMeans(masks, allowed, rets, c.shift, verdict);
  }

  lemma TcEndToEnd(names: seq<seq<string>>, trees: seq<Store>, rets: seq<int>)
    requires Given(Tc.CODEC, names, trees, rets)
    ensures MeansNames(Tc.CODEC, names, trees, rets, TC_ACT_OK)
  {
    Tc.CodecSound();
    EndToEnd(Tc.CODEC, names, trees, rets, TC_ACT_OK);
  }

  lemma XdpEndToEnd(names: seq<seq<string>>, trees: seq<Store>, rets: seq<int>)
    requires Given(Xdp.CODEC, names, trees, rets)
    ensures MeansNames(Xdp.CODEC, names, trees, rets, XDP_PASS)
  {
    Xdp.CodecSound();
    EndToEnd(Xdp.CODEC, names, trees, rets, XDP_PASS);
  }
}
