/**
 What a program's tree holds (bpfman/src/types.rs), seen the way the getters see it: fixed keys one by one, and each
 prefix as a scan. Building a program, moving it to its final tree and rebuilding it are functions on this view.
 */
module ProgramView {
  import opened Wrappers
  import opened Sled
  import opened ProceedOn
  import opened TreeKeys
  import opened PrefixedMaps
  import Tc = TcProceedOn
  import Xdp = XdpProceedOn

  type U32 = n: nat | n < 0x1_0000_0000
  type U64 = n: nat | n < 0x1_0000_0000_0000_0000
  type I32 = i: int | -0x8000_0000 <= i < 0x8000_0000

  /** A value under a fixed key, as its getter decodes it. */
  datatype Cell =
    | U32Cell(u32: U32) | I32Cell(i32: I32) | U64Cell(u64: U64) | Flag(flag: bool) | Str(str: string) | Malformed

  /**
   What getters can see of a tree: the fixed keys that are set, the two user maps, and the entries under the prefixes
   that hold lists.
   */
  datatype View = View(
    fixed: map<Key, Cell>, metadata: map<string, string>, globalData: map<string, Bytes>, scans: map<Prefix, Store>) {

    function Get(k: Key): Option<Cell> {
      if k in fixed then Some(fixed[k]) else None
    }

    function Scan(p: Prefix): Store {
      if p in scans then scans[p] else map[]
    }

    function Put(k: Key, c: Cell): View {
      this.(fixed := fixed[k := c])
    }

    function PutOption(k: Key, c: Option<Cell>): View {
      match c case None => this case Some(cell) => Put(k, cell)
    }

    /** set_metadata / set_global_data: entries are added to what is there. */
    function PutMetadata(data: map<string, string>): View {
      this.(metadata := metadata + data)
    }

    function PutGlobalData(data: map<string, Bytes>): View {
      this.(globalData := globalData + data)
    }

    /** set_proceed_on and the like: one entry per index key. */
    function PutList(p: Prefix, vals: seq<Bytes>): View {
      this.(scans := scans[p := WriteList(Scan(p), Start(p), vals)])
    }
  }

  const LISTS: set<Prefix> := {MapsUsedBy, KernelMapIds, XdpProceedOn, TcProceedOn}

  datatype PullPolicy = Always | IfNotPresent | Never

  function PolicyText(p: PullPolicy): string {
    match p case Always => "Always" case IfNotPresent => "IfNotPresent" case Never => "Never"
  }

  function PolicyOf(s: string): Option<PullPolicy> {
    if s == "Always" then Some(Always)
    else if s == "IfNotPresent" then Some(IfNotPresent)
    else if s == "Never" then Some(Never)
    else None
  }

  datatype Direction = Ingress | Egress

  function DirectionText(d: Direction): string {
    match d case Ingress => "ingress" case Egress => "egress"
  }

  function DirectionOf(s: string): Option<Direction> {
    if s == "ingress" then Some(Ingress) else if s == "egress" then Some(Egress) else None
  }

  lemma TextsRoundTrip(p: PullPolicy, d: Direction)
    ensures PolicyOf(PolicyText(p)) == Some(p) && DirectionOf(DirectionText(d)) == Some(d)
  {
  }

  datatype Location =
    | File(path: string)
    | Image(url: string, policy: PullPolicy, username: Option<string>, password: Option<string>)

  /** What the seven kinds of program have of their own. */
  datatype Attributes =
    | XdpProgram(priority: I32, iface: string, xdpProceedOn: seq<Xdp.Entry>)
    | TcProgram(priority: I32, iface: string, tcProceedOn: seq<Tc.Entry>, direction: Direction)
    | TracepointProgram(tracepoint: string)
    | KprobeProgram(fnName: string, offset: U64, retprobe: bool, containerPid: Option<I32>)
    | UprobeProgram(optFnName: Option<string>, offset: U64, target: string, retprobe: bool, pid: Option<I32>,
                    containerPid: Option<I32>)
    | FentryProgram(fnName: string)
    | FexitProgram(fnName: string)

  datatype Info = Info(
    id: U32, location: Location, name: string, metadata: map<string, string>, globalData: map<string, Bytes>,
    mapOwner: Option<U32>, attributes: Attributes)

  const PROBE: U32 := 2
  const TC: U32 := 3
  const TRACEPOINT: U32 := 5
  const XDP: U32 := 6
  const TRACING: U32 := 26

  // ----- Building -----

  function PutLocation(v: View, loc: Location): View {
    match loc
    case File(path) => v.Put(Data(LocationFilename), Str(path))
    case Image(url, policy, username, password) =>
      v.Put(Data(LocationImageUrl), Str(url)).Put(Data(LocationImagePullPolicy), Str(PolicyText(policy)))
       .PutOption(Data(LocationUsername), StrOption(username)).PutOption(Data(LocationPassword), StrOption(password))
  }

  function U32Option(n: Option<U32>): Option<Cell> {
    match n case None => None case Some(i) => Some(U32Cell(i))
  }

  function I32Option(n: Option<I32>): Option<Cell> {
    match n case None => None case Some(i) => Some(I32Cell(i))
  }

  function StrOption(t: Option<string>): Option<Cell> {
    match t case None => None case Some(x) => Some(Str(x))
  }

  function Encoded<E>(encode: E -> Bytes, list: seq<E>): seq<Bytes> {
    seq(|list|, i requires 0 <= i < |list| => encode(list[i]))
  }

  /** ProgramData::new. */
  function BuildData(v: View, i: Info): View {
    PutUserData(PutLocation(v.Put(ProgId, U32Cell(i.id)), i.location), i)
  }

  function PutUserData(v: View, i: Info): View {
    v.Put(Data(Name), Str(i.name)).PutMetadata(i.metadata).PutGlobalData(i.globalData)
     .PutOption(Data(MapOwnerId), U32Option(i.mapOwner))
  }

  function BuildXdp(v: View, priority: I32, iface: string, list: seq<Xdp.Entry>): View {
    v.Put(Own(XdpPriority), I32Cell(priority)).Put(Own(XdpIface), Str(iface))
     .PutList(XdpProceedOn, Encoded(Xdp.Encode, list)).Put(Kind, U32Cell(XDP))
  }

  function BuildTc(v: View, priority: I32, iface: string, list: seq<Tc.Entry>, direction: Direction): View {
    v.Put(Own(TcPriority), I32Cell(priority)).Put(Own(TcIface), Str(iface))
     .PutList(TcProceedOn, Encoded(Tc.Encode, list)).Put(Own(TcDirection), Str(DirectionText(direction)))
     .Put(Kind, U32Cell(TC))
  }

  function BuildKprobe(v: View, fnName: string, offset: U64, retprobe: bool, containerPid: Option<I32>): View {
    v.Put(Own(KprobeFnName), Str(fnName)).Put(Own(KprobeOffset), U64Cell(offset))
     .Put(Own(KprobeRetprobe), Flag(retprobe)).Put(Kind, U32Cell(PROBE))
     .PutOption(Own(KprobeContainerPid), I32Option(containerPid))
  }

  function BuildUprobe(
    v: View, fnName: Option<string>, offset: U64, target: string, retprobe: bool, pid: Option<I32>,
    containerPid: Option<I32>): View
  {
    v.PutOption(Own(UprobeFnName), StrOption(fnName)).Put(Own(UprobeOffset), U64Cell(offset))
     .Put(Own(UprobeRetprobe), Flag(retprobe)).PutOption(Own(UprobeContainerPid), I32Option(containerPid))
     .PutOption(Own(UprobePid), I32Option(pid)).Put(Own(UprobeTarget), Str(target)).Put(Kind, U32Cell(PROBE))
  }

  /** The constructors of the kinds with one attribute of their own. */
  function BuildNamed(v: View, k: OwnKey, name: string, kind: U32): View {
    v.Put(Own(k), Str(name)).Put(Kind, U32Cell(kind))
  }

  predicate MultiAttach(a: Attributes) {
    a.XdpProgram? || a.TcProgram?
  }

  /** The constructors of the kinds that share a hook through a dispatcher. */
  function BuildMultiAttach(v: View, a: Attributes): View
    requires MultiAttach(a)
  {
    match a
    case XdpProgram(priority, iface, list) => BuildXdp(v, priority, iface, list)
    case TcProgram(priority, iface, list, direction) => BuildTc(v, priority, iface, list, direction)
  }

  /** The kinds with one attribute of their own: its key, its value and the kernel's program type. */
  predicate OneAttribute(a: Attributes) {
    a.TracepointProgram? || a.FentryProgram? || a.FexitProgram?
  }

  function AttributeKey(a: Attributes): OwnKey {
    if a.TracepointProgram? then TracepointName else if a.FentryProgram? then FentryFnName else FexitFnName
  }

  function AttributeValue(a: Attributes): string
    requires OneAttribute(a)
  {
    if a.TracepointProgram? then a.tracepoint else a.fnName
  }

  function AttributeKind(a: Attributes): U32 {
    if a.TracepointProgram? then TRACEPOINT else TRACING
  }

  /** The constructors of the other five kinds. */
  function BuildSingleAttach(v: View, a: Attributes): View
    requires !MultiAttach(a)
  {
    if a.KprobeProgram? then BuildKprobe(v, a.fnName, a.offset, a.retprobe, a.containerPid)
    else if a.UprobeProgram? then
      BuildUprobe(v, a.optFnName, a.offset, a.target, a.retprobe, a.pid, a.containerPid)
    else BuildNamed(v, AttributeKey(a), AttributeValue(a), AttributeKind(a))
  }

  /** The constructors of the seven kinds. */
  function BuildAttributes(v: View, a: Attributes): View {
    if MultiAttach(a) then BuildMultiAttach(v, a) else BuildSingleAttach(v, a)
  }

  function Build(v: View, i: Info): View {
    BuildAttributes(BuildData(v, i), i.attributes)
  }

  /** swap_tree records the kernel's ID in the tree it moved everything to. */
  function Moved(v: View, id: U32): View {
    v.Put(ProgId, U32Cell(id))
  }

  // ----- Getters -----

  /** None: the entry is missing or malformed. */
  function GetU32(v: View, k: Key): Option<U32> {
    match v.Get(k) case Some(U32Cell(n)) => Some(n) case _ => None
  }

  function GetI32(v: View, k: Key): Option<I32> {
    match v.Get(k) case Some(I32Cell(i)) => Some(i) case _ => None
  }

  function GetU64(v: View, k: Key): Option<U64> {
    match v.Get(k) case Some(U64Cell(n)) => Some(n) case _ => None
  }

  function GetStr(v: View, k: Key): Option<string> {
    match v.Get(k) case Some(Str(t)) => Some(t) case _ => None
  }

  /** Absent means false. */
  function GetFlag(v: View, k: Key): Option<bool> {
    match v.Get(k) case None => Some(false) case Some(Flag(b)) => Some(b) case _ => None
  }

  /** A getter that may be absent; a malformed value is the panic of the source. */
  function Optional<T>(present: bool, value: Option<T>): Option<Option<T>> {
    if !present then Some(None) else if value.None? then None else Some(value)
  }

  function GetLocation(v: View): Option<Location> {
    var policy := match GetStr(v, Data(LocationImagePullPolicy)) case None => None case Some(t) => PolicyOf(t);
    var username := Optional(v.Get(Data(LocationUsername)).Some?, GetStr(v, Data(LocationUsername)));
    var password := Optional(v.Get(Data(LocationPassword)).Some?, GetStr(v, Data(LocationPassword)));
    if GetStr(v, Data(LocationFilename)).Some? then Some(File(GetStr(v, Data(LocationFilename)).value))
    else
      match (GetStr(v, Data(LocationImageUrl)), policy, username, password)
      case (Some(url), Some(p), Some(u), Some(w)) => Some(Image(url, p, u, w))
      case _ => None
  }

  function GetXdp(v: View): Option<Attributes> {
    var proceedOn := LoadEntries(v.Scan(XdpProceedOn), Start(XdpProceedOn), Xdp.Decode, Xdp.DEFAULT);
    match (GetI32(v, Own(XdpPriority)), GetStr(v, Own(XdpIface)), proceedOn)
    case (Some(priority), Some(iface), Ok(list)) => Some(XdpProgram(priority, iface, list))
    case _ => None
  }

  function GetTc(v: View): Option<Attributes> {
    var direction := match GetStr(v, Own(TcDirection)) case None => None case Some(t) => DirectionOf(t);
    var proceedOn := LoadEntries(v.Scan(TcProceedOn), Start(TcProceedOn), Tc.Decode, Tc.DEFAULT);
    match (GetI32(v, Own(TcPriority)), GetStr(v, Own(TcIface)), proceedOn, direction)
    case (Some(priority), Some(iface), Ok(list), Some(d)) => Some(TcProgram(priority, iface, list, d))
    case _ => None
  }

  function GetKprobe(v: View): Option<Attributes> {
    var pid := Optional(v.Get(Own(KprobeContainerPid)).Some?, GetI32(v, Own(KprobeContainerPid)));
    match (GetStr(v, Own(KprobeFnName)), GetU64(v, Own(KprobeOffset)), GetFlag(v, Own(KprobeRetprobe)), pid)
    case (Some(fnName), Some(offset), Some(retprobe), Some(p)) => Some(KprobeProgram(fnName, offset, retprobe, p))
    case _ => None
  }

  function GetUprobe(v: View): Option<Attributes> {
    var pid := Optional(v.Get(Own(UprobePid)).Some?, GetI32(v, Own(UprobePid)));
    var container := Optional(v.Get(Own(UprobeContainerPid)).Some?, GetI32(v, Own(UprobeContainerPid)));
    var fnName := Optional(v.Get(Own(UprobeFnName)).Some?, GetStr(v, Own(UprobeFnName)));
    var retprobe := GetFlag(v, Own(UprobeRetprobe));
    match (fnName, GetU64(v, Own(UprobeOffset)), GetStr(v, Own(UprobeTarget)), retprobe, pid, container)
    case (Some(f), Some(offset), Some(target), Some(retprobe), Some(p), Some(c)) =>
      Some(UprobeProgram(f, offset, target, retprobe, p, c))
    case _ => None
  }

  /** The variant new_from_db chooses, and what the variant's getters then return. */
  function GetAttributes(v: View): Option<Attributes> {
    match GetU32(v, Kind)
    case None => None
    case Some(kind) =>
      if kind == XDP then GetXdp(v)
      else if kind == TC then GetTc(v)
      else if kind == TRACEPOINT then
        (match GetStr(v, Own(TracepointName)) case None => None case Some(t) => Some(TracepointProgram(t)))
      else if kind == PROBE then (if v.Get(Own(UprobeOffset)).Some? then GetUprobe(v) else GetKprobe(v))
      else if kind == TRACING then
        (match (GetStr(v, Own(FentryFnName)), GetStr(v, Own(FexitFnName)))
         case (Some(f), _) => Some(FentryProgram(f))
         case (None, Some(f)) => Some(FexitProgram(f))
         case (None, None) => None)
      else None
  }

  /** new_from_db with every getter: None if the stored ID is another one or something is missing or malformed. */
  function NewFromDb(id: U32, v: View): Option<Info> {
    var owner := Optional(v.Get(Data(MapOwnerId)).Some?, GetU32(v, Data(MapOwnerId)));
    match (GetU32(v, ProgId), GetLocation(v), GetStr(v, Data(Name)), owner, GetAttributes(v))
    case (Some(stored), Some(location), Some(name), Some(o), Some(attributes)) =>
      if stored == id then
        Some(Info(id, location, name, v.metadata, v.globalData, o, attributes))
      else None
    case _ => None
  }

  /**
   Entries that are absent or superfluous: a missing retprobe flag means false and a missing PID none; a file name wins
   over an image; and a function to attach to on entry wins over one on exit.
   */
  lemma AbsentMeans(v: View, fnName: string, offset: U64, path: string)
    ensures v.Get(Own(KprobeFnName)) == Some(Str(fnName)) && v.Get(Own(KprobeOffset)) == Some(U64Cell(offset)) &&
            v.Get(Own(KprobeRetprobe)) == None && v.Get(Own(KprobeContainerPid)) == None ==>
              GetKprobe(v) == Some(KprobeProgram(fnName, offset, false, None))
    ensures v.Get(Data(LocationFilename)) == Some(Str(path)) ==> GetLocation(v) == Some(File(path))
    ensures v.Get(Kind) == Some(U32Cell(TRACING)) && v.Get(Own(FentryFnName)) == Some(Str(fnName)) ==>
              GetAttributes(v) == Some(FentryProgram(fnName))
  {
  }

  // ----- Round trips -----

  /** A tree that no kind of program has written to yet. */
  ghost predicate Blank(v: View) {
    && (forall o :: Own(o) !in v.fixed)
    && v.Scan(XdpProceedOn) == map[] && v.Scan(TcProceedOn) == map[]
  }

  /** The layout of the seven kinds: what a tree must hold to be read as `a`. */
  ghost predicate Stored(v: View, a: Attributes) {
    match a
    case XdpProgram(priority, iface, list) =>
      && v.Get(Kind) == Some(U32Cell(XDP)) && v.Get(Own(XdpPriority)) == Some(I32Cell(priority))
      && v.Get(Own(XdpIface)) == Some(Str(iface))
      && v.Scan(XdpProceedOn) == WriteList(map[], Start(XdpProceedOn), Encoded(Xdp.Encode, list))
    case TcProgram(priority, iface, list, direction) =>
      && v.Get(Kind) == Some(U32Cell(TC)) && v.Get(Own(TcPriority)) == Some(I32Cell(priority))
      && v.Get(Own(TcIface)) == Some(Str(iface))
      && v.Get(Own(TcDirection)) == Some(Str(DirectionText(direction)))
      && v.Scan(TcProceedOn) == WriteList(map[], Start(TcProceedOn), Encoded(Tc.Encode, list))
    case TracepointProgram(tracepoint) =>
      v.Get(Kind) == Some(U32Cell(TRACEPOINT)) && v.Get(Own(TracepointName)) == Some(Str(tracepoint))
    case KprobeProgram(fnName, offset, retprobe, containerPid) =>
      && v.Get(Kind) == Some(U32Cell(PROBE)) && v.Get(Own(UprobeOffset)) == None
      && v.Get(Own(KprobeFnName)) == Some(Str(fnName))
      && v.Get(Own(KprobeOffset)) == Some(U64Cell(offset)) && v.Get(Own(KprobeRetprobe)) == Some(Flag(retprobe))
      && v.Get(Own(KprobeContainerPid)) == I32Option(containerPid)
    case UprobeProgram(fnName, offset, target, retprobe, pid, containerPid) =>
      && v.Get(Kind) == Some(U32Cell(PROBE)) && v.Get(Own(UprobeFnName)) == StrOption(fnName)
      && v.Get(Own(UprobeOffset)) == Some(U64Cell(offset))
      && v.Get(Own(UprobeRetprobe)) == Some(Flag(retprobe)) && v.Get(Own(UprobeTarget)) == Some(Str(target))
      && v.Get(Own(UprobePid)) == I32Option(pid) && v.Get(Own(UprobeContainerPid)) == I32Option(containerPid)
    case FentryProgram(fnName) =>
      v.Get(Kind) == Some(U32Cell(TRACING)) && v.Get(Own(FentryFnName)) == Some(Str(fnName))
    case FexitProgram(fnName) =>
      v.Get(Kind) == Some(U32Cell(TRACING)) && v.Get(Own(FentryFnName)) == None &&
          v.Get(Own(FexitFnName)) == Some(Str(fnName))
  }

  lemma XdpBuilt(v: View, a: Attributes)
    requires Blank(v) && a.XdpProgram?
    ensures Stored(BuildAttributes(v, a), a)
  {
  }

  lemma TcBuilt(v: View, a: Attributes)
    requires Blank(v) && a.TcProgram?
    ensures Stored(BuildAttributes(v, a), a)
  {
  }

  lemma KprobeKeys(v: View, fnName: Cell, offset: Cell, retprobe: Cell, kind: Cell, container: Option<Cell>)
    requires Blank(v)
    ensures
      var r := v.Put(Own(KprobeFnName), fnName).Put(Own(KprobeOffset), offset).Put(Own(KprobeRetprobe), retprobe)
                .Put(Kind, kind).PutOption(Own(KprobeContainerPid), container);
      && r.Get(Kind) == Some(kind) && r.Get(Own(UprobeOffset)) == None && r.Get(Own(KprobeFnName)) == Some(fnName)
      && r.Get(Own(KprobeOffset)) == Some(offset) && r.Get(Own(KprobeRetprobe)) == Some(retprobe)
      && r.Get(Own(KprobeContainerPid)) == container
  {
  }

  lemma KprobeBuilt(v: View, a: Attributes)
    requires Blank(v) && a.KprobeProgram?
    ensures Stored(BuildAttributes(v, a), a)
  {
    KprobeKeys(v, Str(a.fnName), U64Cell(a.offset), Flag(a.retprobe), U32Cell(PROBE), I32Option(a.containerPid));
  }

  lemma UprobeKeys(
    v: View, fnName: Option<Cell>, offset: Cell, retprobe: Cell, target: Cell, pid: Option<Cell>,
    container: Option<Cell>,
    kind: Cell)
    requires Blank(v)
    ensures
      var r := v.PutOption(Own(UprobeFnName), fnName).Put(Own(UprobeOffset), offset).Put(Own(UprobeRetprobe), retprobe)
                .PutOption(Own(UprobeContainerPid), container).PutOption(Own(UprobePid), pid)
                .Put(Own(UprobeTarget), target).Put(Kind, kind);
      && r.Get(Own(UprobeFnName)) == fnName && r.Get(Own(UprobeOffset)) == Some(offset)
      && r.Get(Own(UprobeRetprobe)) == Some(retprobe) && r.Get(Own(UprobeContainerPid)) == container
      && r.Get(Own(UprobePid)) == pid && r.Get(Own(UprobeTarget)) == Some(target) && r.Get(Kind) == Some(kind)
  {
  }

  lemma UprobeBuilt(v: View, a: Attributes)
    requires Blank(v) && a.UprobeProgram?
    ensures Stored(BuildAttributes(v, a), a)
  {
    UprobeKeys(v, StrOption(a.optFnName), U64Cell(a.offset), Flag(a.retprobe), Str(a.target), I32Option(a.pid),
               I32Option(a.containerPid), U32Cell(PROBE));
  }

  lemma BuiltStored(v: View, a: Attributes)
    requires Blank(v)
    ensures Stored(BuildAttributes(v, a), a)
  {
    match a
    case XdpProgram(_, _, _) => XdpBuilt(v, a);
    case TcProgram(_, _, _, _) => TcBuilt(v, a);
    case KprobeProgram(_, _, _, _) => KprobeBuilt(v, a);
    case UprobeProgram(_, _, _, _, _, _) => UprobeBuilt(v, a);
    case _ =>
  }

  /**
   Equal but for the order of a proceed-on list, which survives up to ten entries; an empty one reads as the default.
   */
  ghost predicate SameUpToOrder(a: Attributes, b: Attributes) {
    match (a, b)
    case (XdpProgram(priority, iface, list), XdpProgram(_, _, read)) =>
      b == a.(xdpProceedOn := read) && SameList(list, read, Xdp.DEFAULT)
    case (TcProgram(priority, iface, list, direction), TcProgram(_, _, read, _)) =>
      b == a.(tcProceedOn := read) && SameList(list, read, Tc.DEFAULT)
    case _ => a == b
  }

  ghost predicate SameList<E>(list: seq<E>, read: seq<E>, default: seq<E>) {
    if list == [] then read == default else multiset(read) == multiset(list) && (|list| <= 10 ==> read == list)
  }

  ghost predicate ReadsAs(v: View, a: Attributes) {
    GetAttributes(v).Some? && SameUpToOrder(a, GetAttributes(v).value)
  }

  lemma EncodedReads<E>(prefix: string, encode: E -> Bytes, decode: Bytes -> Option<E>, list: seq<E>, default: seq<E>)
    requires forall i | 0 <= i < |list| :: decode(encode(list[i])) == Some(list[i])
    ensures
      var r := LoadEntries(WriteList(map[], prefix, Encoded(encode, list)), prefix, decode, default);
      r.Ok? && SameList(list, r.value, default)
  {
    EntriesReadBack(map[], prefix, encode, decode, list, default);
    assert Encoded(encode, list) == seq(|list|, i requires 0 <= i < |list| => encode(list[i]));
  }

  lemma XdpListReads(list: seq<Xdp.Entry>)
    ensures
      var m := WriteList(map[], Start(XdpProceedOn), Encoded(Xdp.Encode, list));
      var r := LoadEntries(m, Start(XdpProceedOn), Xdp.Decode, Xdp.DEFAULT);
      r.Ok? && SameList(list, r.value, Xdp.DEFAULT)
  {
    forall e ensures Xdp.Decode(Xdp.Encode(e)) == Some(e) { Xdp.EncodingRoundTrip(e); }
    EncodedReads(Start(XdpProceedOn), Xdp.Encode, Xdp.Decode, list, Xdp.DEFAULT);
  }

  lemma TcListReads(list: seq<Tc.Entry>)
    ensures
      var m := WriteList(map[], Start(TcProceedOn), Encoded(Tc.Encode, list));
      var r := LoadEntries(m, Start(TcProceedOn), Tc.Decode, Tc.DEFAULT);
      r.Ok? && SameList(list, r.value, Tc.DEFAULT)
  {
    forall e ensures Tc.Decode(Tc.Encode(e)) == Some(e) { Tc.EncodingRoundTrip(e); }
    EncodedReads(Start(TcProceedOn), Tc.Encode, Tc.Decode, list, Tc.DEFAULT);
  }

  lemma XdpGot(v: View, a: Attributes)
    requires a.XdpProgram? && Stored(v, a)
    ensures GetXdp(v).Some? && SameUpToOrder(a, GetXdp(v).value)
  {
    XdpListReads(a.xdpProceedOn);
  }

  lemma TcGot(v: View, a: Attributes)
    requires a.TcProgram? && Stored(v, a)
    ensures GetTc(v).Some? && SameUpToOrder(a, GetTc(v).value)
  {
    TextsRoundTrip(Always, a.direction);
    TcListReads(a.tcProceedOn);
  }

  /** Which getters new_from_db settles on. */
  lemma KindDecides(v: View, kind: U32)
    requires v.Get(Kind) == Some(U32Cell(kind))
    ensures kind == XDP ==> GetAttributes(v) == GetXdp(v)
    ensures kind == TC ==> GetAttributes(v) == GetTc(v)
    ensures kind == PROBE ==> GetAttributes(v) == if v.Get(Own(UprobeOffset)).Some? then GetUprobe(v) else GetKprobe(v)
  {
  }

  lemma NetReads(v: View, a: Attributes)
    requires (a.XdpProgram? || a.TcProgram?) && Stored(v, a)
    ensures ReadsAs(v, a)
  {
    if a.XdpProgram? {
      KindDecides(v, XDP);
      XdpGot(v, a);
    } else {
      KindDecides(v, TC);
      TcGot(v, a);
    }
  }

  lemma KprobeReads(v: View, a: Attributes)
    requires a.KprobeProgram? && Stored(v, a)
    ensures GetKprobe(v) == Some(a)
  {
  }

  lemma UprobeReads(v: View, a: Attributes)
    requires a.UprobeProgram? && Stored(v, a)
    ensures GetUprobe(v) == Some(a)
  {
  }

  lemma TracingReads(v: View, a: Attributes)
    requires (a.TracepointProgram? || a.FentryProgram? || a.FexitProgram?) && Stored(v, a)
    ensures ReadsAs(v, a)
  {
  }

  lemma ProbeReads(v: View, a: Attributes)
    requires (a.KprobeProgram? || a.UprobeProgram?) && Stored(v, a)
    ensures ReadsAs(v, a)
  {
    KindDecides(v, PROBE);
    if a.KprobeProgram? { KprobeReads(v, a); } else { UprobeReads(v, a); }
  }

  /** A tree that holds a program's layout is read as that kind with those attributes. */
  lemma StoredReads(v: View, a: Attributes)
    requires Stored(v, a)
    ensures ReadsAs(v, a)
  {
    match a
    case XdpProgram(_, _, _) => NetReads(v, a);
    case TcProgram(_, _, _, _) => NetReads(v, a);
    case KprobeProgram(_, _, _, _) => ProbeReads(v, a);
    case UprobeProgram(_, _, _, _, _, _) => ProbeReads(v, a);
    case _ => TracingReads(v, a);
  }

  // ----- Common data -----

  ghost predicate LocationStored(v: View, loc: Location) {
    match loc
    case File(path) => v.Get(Data(LocationFilename)) == Some(Str(path))
    case Image(url, policy, username, password) =>
      && v.Get(Data(LocationFilename)) == None && v.Get(Data(LocationImageUrl)) == Some(Str(url))
      && v.Get(Data(LocationImagePullPolicy)) == Some(Str(PolicyText(policy)))
      && v.Get(Data(LocationUsername)) == StrOption(username) && v.Get(Data(LocationPassword)) == StrOption(password)
  }

  ghost predicate DataStored(v: View, i: Info) {
    && v.Get(ProgId) == Some(U32Cell(i.id)) && LocationStored(v, i.location) && v.Get(Data(Name)) == Some(Str(i.name))
    && v.Get(Data(MapOwnerId)) == U32Option(i.mapOwner)
    && v.metadata == i.metadata && v.globalData == i.globalData
  }

  lemma LocationBuilt(v: View, loc: Location)
    requires v.Get(Data(LocationFilename)) == None
    requires v.Get(Data(LocationUsername)) == None && v.Get(Data(LocationPassword)) == None
    ensures LocationStored(PutLocation(v, loc), loc) && PutLocation(v, loc) == v.(fixed := PutLocation(v, loc).fixed)
  {
  }

  lemma LocationKeeps(v: View, loc: Location, k: Key)
    requires !k.Data? || k == Data(Name) || k == Data(MapOwnerId)
    ensures PutLocation(v, loc).Get(k) == v.Get(k)
  {
  }

  lemma LocationSame(v: View, w: View, loc: Location)
    requires LocationStored(v, loc) && forall d | d != Name && d != MapOwnerId :: w.Get(Data(d)) == v.Get(Data(d))
    ensures LocationStored(w, loc)
  {
  }

  lemma UserKeysBuilt(v: View, i: Info)
    requires v.Get(ProgId) == Some(U32Cell(i.id)) && v.Get(Data(MapOwnerId)) == None
    requires v.metadata == map[] && v.globalData == map[]
    ensures
      var w := PutUserData(v, i);
      && w.Get(ProgId) == Some(U32Cell(i.id)) && w.Get(Data(Name)) == Some(Str(i.name))
      && w.Get(Data(MapOwnerId)) == U32Option(i.mapOwner) && w.metadata == i.metadata && w.globalData == i.globalData
  {
  }

  lemma UserDataBuilt(v: View, i: Info)
    requires v.Get(ProgId) == Some(U32Cell(i.id)) && LocationStored(v, i.location) && v.Get(Data(MapOwnerId)) == None
    requires v.metadata == map[] && v.globalData == map[]
    ensures DataStored(PutUserData(v, i), i)
  {
    UserKeysBuilt(v, i);
    forall d | d != Name && d != MapOwnerId ensures PutUserData(v, i).Get(Data(d)) == v.Get(Data(d)) {
      UserDataKeeps(v, i, d);
    }
    LocationSame(v, PutUserData(v, i), i.location);
  }

  lemma UserDataKeeps(v: View, i: Info, d: DataKey)
    requires d != Name && d != MapOwnerId
    ensures PutUserData(v, i).Get(Data(d)) == v.Get(Data(d))
  {
  }

  ghost predicate Empty(v: View) {
    v.fixed == map[] && v.metadata == map[] && v.globalData == map[] && forall p :: v.Scan(p) == map[]
  }

  lemma DataBuilt(empty: View, i: Info)
    requires Empty(empty)
    ensures DataStored(BuildData(empty, i), i)
  {
    var v := empty.Put(ProgId, U32Cell(i.id));
    LocationBuilt(v, i.location);
    LocationKeeps(v, i.location, ProgId);
    LocationKeeps(v, i.location, Data(MapOwnerId));
    UserDataBuilt(PutLocation(v, i.location), i);
  }

  lemma LocationScans(v: View, loc: Location)
    ensures PutLocation(v, loc).scans == v.scans
  {
  }

  lemma UserDataScans(v: View, i: Info)
    ensures PutUserData(v, i).scans == v.scans
  {
  }

  lemma DataScans(v: View, i: Info)
    ensures BuildData(v, i).scans == v.scans
  {
    var w := v.Put(ProgId, U32Cell(i.id));
    LocationScans(w, i.location);
    UserDataScans(PutLocation(w, i.location), i);
  }

  lemma DataOwnAbsent(v: View, i: Info, o: OwnKey)
    requires v.fixed == map[]
    ensures Own(o) !in BuildData(v, i).fixed
  {
    LocationKeeps(v.Put(ProgId, U32Cell(i.id)), i.location, Own(o));
  }

  lemma DataLeavesBlank(empty: View, i: Info)
    requires Empty(empty)
    ensures Blank(BuildData(empty, i))
  {
    DataScans(empty, i);
    assert empty.Scan(XdpProceedOn) == map[] && empty.Scan(TcProceedOn) == map[];
    forall o ensures Own(o) !in BuildData(empty, i).fixed { DataOwnAbsent(empty, i, o); }
  }

  /** `w` differs from `v` at most in the program's ID, bookkeeping keys, used-by lists and kernel map IDs. */
  ghost predicate SameProgram(v: View, w: View) {
    && (forall k: Key | !k.Book? && k != ProgId :: w.Get(k) == v.Get(k))
    && w.metadata == v.metadata && w.globalData == v.globalData
    && w.Scan(XdpProceedOn) == v.Scan(XdpProceedOn) && w.Scan(TcProceedOn) == v.Scan(TcProceedOn)
  }

  lemma AttributesKeepData(v: View, a: Attributes)
    ensures BuildAttributes(v, a).metadata == v.metadata && BuildAttributes(v, a).globalData == v.globalData
  {
    if MultiAttach(a) { MultiAttachKeepsData(v, a); } else { SingleAttachKeepsData(v, a); }
  }

  lemma MultiAttachKeepsData(v: View, a: Attributes)
    requires MultiAttach(a)
    ensures var r := BuildMultiAttach(v, a); r.metadata == v.metadata && r.globalData == v.globalData
  {
  }

  lemma SingleAttachKeepsData(v: View, a: Attributes)
    requires !MultiAttach(a)
    ensures var r := BuildSingleAttach(v, a); r.metadata == v.metadata && r.globalData == v.globalData
  {
  }

  lemma UprobeChainKeeps(
    v: View, fnName: Option<Cell>, offset: Cell, retprobe: Cell, target: Cell, pid: Option<Cell>,
    container: Option<Cell>,
    kind: Cell, k: Key)
    requires !k.Own? && k != Kind
    ensures v.PutOption(Own(UprobeFnName), fnName).Put(Own(UprobeOffset), offset).Put(Own(UprobeRetprobe), retprobe)
             .PutOption(Own(UprobeContainerPid), container).PutOption(Own(UprobePid), pid)
             .Put(Own(UprobeTarget), target).Put(Kind, kind).Get(k) == v.Get(k)
  {
  }

  lemma UprobeKeepsKey(v: View, a: Attributes, k: Key)
    requires !k.Own? && k != Kind && a.UprobeProgram?
    ensures BuildAttributes(v, a).Get(k) == v.Get(k)
  {
    UprobeChainKeeps(v, StrOption(a.optFnName), U64Cell(a.offset), Flag(a.retprobe), Str(a.target), I32Option(a.pid),
                     I32Option(a.containerPid), U32Cell(PROBE), k);
  }

  lemma AttributesKeepKey(v: View, a: Attributes, k: Key)
    requires !k.Own? && k != Kind
    ensures BuildAttributes(v, a).Get(k) == v.Get(k)
  {
    if a.UprobeProgram? { UprobeKeepsKey(v, a, k); }
  }

  lemma BuiltData(empty: View, i: Info)
    requires Empty(empty)
    ensures DataStored(Build(empty, i), i) && Stored(Build(empty, i), i.attributes)
  {
    var v := BuildData(empty, i);
    DataBuilt(empty, i);
    DataLeavesBlank(empty, i);
    AttributesKeepData(v, i.attributes);
    forall k: Key | !k.Own? && k != Kind ensures Build(empty, i).Get(k) == v.Get(k) {
      AttributesKeepKey(v, i.attributes, k);
    }
    BuiltStored(v, i.attributes);
  }

  lemma SameStored(v: View, w: View, a: Attributes)
    requires SameProgram(v, w) && Stored(v, a)
    ensures Stored(w, a)
  {
  }

  lemma SameData(v: View, w: View, i: Info, id: U32)
    requires SameProgram(v, w) && DataStored(v, i) && w.Get(ProgId) == Some(U32Cell(id))
    ensures DataStored(w, i.(id := id))
  {
  }

  lemma DataReads(v: View, i: Info)
    requires DataStored(v, i) && GetAttributes(v).Some?
    ensures NewFromDb(i.id, v) == Some(i.(attributes := GetAttributes(v).value))
    ensures forall other: U32 | other != i.id :: NewFromDb(other, v) == None
  {
  }

  /** The same program but for the ID and the order of a long proceed-on list. */
  ghost predicate RebuiltAs(i: Info, id: U32, r: Option<Info>) {
    r.Some? && r.value == i.(id := id, attributes := r.value.attributes) &&
        SameUpToOrder(i.attributes, r.value.attributes)
  }

  /**
   Program rebuild: a program of any of the seven kinds, built on a fresh tree and moved, after whatever bookkeeping,
   to the tree of ID `id`, is rebuilt as the same variant with the same data and attributes and the new ID, and as
   nothing at all under any other ID.
   */
  lemma RebuildRoundTrip(empty: View, i: Info, w: View, id: U32)
    requires Empty(empty) && SameProgram(Build(empty, i), w) && w.Get(ProgId) == Some(U32Cell(id))
    ensures RebuiltAs(i, id, NewFromDb(id, w))
    ensures forall other: U32 | other != id :: NewFromDb(other, w) == None
  {
    BuiltData(empty, i);
    SameStored(Build(empty, i), w, i.attributes);
    SameData(Build(empty, i), w, i, id);
    StoredReads(w, i.attributes);
    DataReads(w, i.(id := id));
  }

  /** In particular when nothing but the move happens. */
  lemma MovedRebuilds(empty: View, i: Info, id: U32)
    requires Empty(empty)
    ensures RebuiltAs(i, id, NewFromDb(id, Moved(Build(empty, i), id)))
  {
    MovedSame(Build(empty, i), id);
    RebuildRoundTrip(empty, i, Moved(Build(empty, i), id), id);
  }

  lemma MovedSame(v: View, id: U32)
    ensures SameProgram(v, Moved(v, id)) && Moved(v, id).Get(ProgId) == Some(U32Cell(id))
  {
  }
}
