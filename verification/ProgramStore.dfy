/**
 Program trees as they are stored (bpfman/src/types.rs): one ordered key/value tree of bytes. Every write is shown to
 have exactly its effect on the view that the getters have, so the round trip of views is the round trip of trees.
 */
module ProgramStore {
  import opened Wrappers
  import opened Sled
  import opened ProceedOn
  import opened TreeKeys
  import opened PrefixedMaps
  import opened ProgramView
  import Tc = TcProceedOn
  import Xdp = XdpProceedOn

  // ----- Values under fixed keys -----

  function U64Bytes(n: U64): Bytes {
    U32Bytes(n % 0x1_0000_0000) + U32Bytes(n / 0x1_0000_0000)
  }

  function U64FromBytes(b: Bytes): Option<nat> {
    if |b| != 8 then None
    else Some(U32FromBytes(b[..4]).value + 0x1_0000_0000 * U32FromBytes(b[4..]).value)
  }

  lemma U64RoundTrip(n: U64)
    ensures U64FromBytes(U64Bytes(n)) == Some(n)
  {
    U32RoundTrip(n % 0x1_0000_0000);
    U32RoundTrip(n / 0x1_0000_0000);
    assert U64Bytes(n)[..4] == U32Bytes(n % 0x1_0000_0000) && U64Bytes(n)[4..] == U32Bytes(n / 0x1_0000_0000);
  }

  datatype Form = U32Form | I32Form | U64Form | FlagForm | StrForm

  /** Which conversion the getter of a key applies. */
  function FormOf(k: Key): Form {
    match k
    case ProgId => U32Form
    case Kind => U32Form
    case Data(d) => if d.MapOwnerId? then U32Form else StrForm
    case Own(o) =>
      (match o
       case XdpPriority => I32Form
       case TcPriority => I32Form
       case KprobeContainerPid => I32Form
       case UprobeContainerPid => I32Form
       case UprobePid => I32Form
       case KprobeOffset => U64Form
       case UprobeOffset => U64Form
       case KprobeRetprobe => FlagForm
       case UprobeRetprobe => FlagForm
       case _ => StrForm)
    case Book(b) =>
      (match b
       case MapPinPath => StrForm
       case ProgramBytes => StrForm
       case KernelName => StrForm
       case KernelLoadedAt => StrForm
       case KernelTag => StrForm
       case KernelGplCompatible => FlagForm
       case KernelJited => FlagForm
       case XdpAttached => FlagForm
       case TcAttached => FlagForm
       case XdpCurrentPosition => U64Form
       case TcCurrentPosition => U64Form
       case _ => U32Form)
  }

  predicate HasForm(c: Cell, f: Form) {
    match c
    case U32Cell(_) => f == U32Form
    case I32Cell(_) => f == I32Form
    case U64Cell(_) => f == U64Form
    case Flag(_) => f == FlagForm
    case Str(_) => f == StrForm
    case Malformed => false
  }

  /** to_ne_bytes, as_bytes. */
  function Encode(c: Cell): Bytes {
    match c
    case U32Cell(n) => U32Bytes(n)
    case I32Cell(i) => I32Bytes(i)
    case U64Cell(n) => U64Bytes(n)
    case Flag(b) => [if b then 1 as char else 0 as char]
    case Str(t) => t
    case Malformed => []
  }

  /** bytes_to_u32 and its siblings; Malformed is their panic. */
  function Decode(f: Form, b: Bytes): Cell {
    match f
    case U32Form =>
      if U32FromBytes(b).Some? && U32FromBytes(b).value < 0x1_0000_0000 then U32Cell(U32FromBytes(b).value)
      else Malformed
    case I32Form =>
      if I32FromBytes(b).Some? && IsI32(I32FromBytes(b).value) then I32Cell(I32FromBytes(b).value) else Malformed
    case U64Form =>
      if U64FromBytes(b).Some? && U64FromBytes(b).value < 0x1_0000_0000_0000_0000 then U64Cell(U64FromBytes(b).value)
      else Malformed
    case FlagForm => if |b| == 1 then Flag(b[0] != 0 as char) else Malformed
    case StrForm => Str(b)
  }

  lemma CellRoundTrip(c: Cell, f: Form)
    requires HasForm(c, f)
    ensures Decode(f, Encode(c)) == c
  {
    match c
    case U32Cell(n) => U32RoundTrip(n);
    case I32Cell(i) => I32RoundTrip(i);
    case U64Cell(n) => U64RoundTrip(n);
    case _ =>
  }

  // ----- The view of a tree -----

  function KeysIn(m: Store): (ks: set<Key>)
    ensures forall k :: k in ks <==> Text(k) in m
  {
    var ks := set s | s in m && |s| >= 2 && Text(Find(s)) == s :: Find(s);
    assert forall k :: Text(k) in m ==> k in ks by {
      forall k | Text(k) in m ensures k in ks { FindText(k); }
    }
    ks
  }

  function FixedBy<T>(m: Store, decode: (Key, Bytes) -> T): map<Key, T> {
    map k | k in KeysIn(m) :: decode(k, m[Text(k)])
  }

  const DECODE_AT: (Key, Bytes) -> Cell := (k, b) => Decode(FormOf(k), b)

  function FixedOf(m: Store): map<Key, Cell> {
    FixedBy(m, DECODE_AT)
  }

  function ScansOf(m: Store): map<Prefix, Store> {
    map p | p in LISTS :: Under(m, Start(p))
  }

  /** Everything the getters can find out about a tree. */
  function ViewOf(m: Store): View {
    View(FixedOf(m), GetMap(m, Start(Metadata)), GetMap(m, Start(GlobalData)), ScansOf(m))
  }

  lemma EmptyView()
    ensures Empty(ViewOf(map[]))
  {
  }

  /** Nothing changed outside one prefix. */
  ghost predicate OnlyUnder(m: Store, m': Store, p: Prefix) {
    forall s | !(Start(p) <= s) :: (s in m' <==> s in m) && (s in m ==> m'[s] == m[s])
  }

  lemma FixedUnaffected(m: Store, m': Store, p: Prefix)
    requires OnlyUnder(m, m', p)
    ensures FixedOf(m') == FixedOf(m)
  {
    forall k
      ensures k in KeysIn(m') <==> k in KeysIn(m)
      ensures k in KeysIn(m) ==> m'[Text(k)] == m[Text(k)]
    {
      KeysApart(k, p, p, Text(k));
    }
  }

  lemma ScanUnaffected(m: Store, m': Store, p: Prefix, q: Prefix)
    requires OnlyUnder(m, m', p) && p != q
    ensures Under(m', Start(q)) == Under(m, Start(q))
  {
    forall s
      ensures Start(q) <= s ==> (s in m' <==> s in m) && (s in m ==> m'[s] == m[s])
    {
      KeysApart(Kind, p, q, s);
    }
  }

  lemma MapUnaffected(m: Store, m': Store, p: Prefix, q: Prefix)
    requires OnlyUnder(m, m', p) && p != q
    ensures GetMap(m', Start(q)) == GetMap(m, Start(q))
  {
    ScanUnaffected(m, m', p, q);
    MapUnder(m', m, Start(q));
  }

  lemma ScansUnaffected(m: Store, m': Store, p: Prefix)
    requires OnlyUnder(m, m', p) && p !in LISTS
    ensures ScansOf(m') == ScansOf(m)
  {
    forall q | q in LISTS ensures Under(m', Start(q)) == Under(m, Start(q)) { ScanUnaffected(m, m', p, q); }
  }

  lemma PutMapOnlyUnder(m: Store, p: Prefix, data: map<string, Bytes>)
    ensures OnlyUnder(m, PutMap(m, Start(p), data), p)
  {
  }

  /**
   User maps: whatever keys a user chose, set_metadata adds its entries to what get_metadata returns and changes what no
   other getter returns.
   */
  lemma MetadataView(m: Store, data: map<string, string>)
    ensures ViewOf(PutMap(m, Start(Metadata), data)) == ViewOf(m).PutMetadata(data)
  {
    var m' := PutMap(m, Start(Metadata), data);
    PutMapOnlyUnder(m, Metadata, data);
    FixedUnaffected(m, m', Metadata);
    MapUnaffected(m, m', Metadata, GlobalData);
    ScansUnaffected(m, m', Metadata);
    PutMapMerges(m, Start(Metadata), data);
  }

  lemma GlobalDataView(m: Store, data: map<string, Bytes>)
    ensures ViewOf(PutMap(m, Start(GlobalData), data)) == ViewOf(m).PutGlobalData(data)
  {
    var m' := PutMap(m, Start(GlobalData), data);
    PutMapOnlyUnder(m, GlobalData, data);
    FixedUnaffected(m, m', GlobalData);
    MapUnaffected(m, m', GlobalData, Metadata);
    ScansUnaffected(m, m', GlobalData);
    PutMapMerges(m, Start(GlobalData), data);
  }

  lemma ListOnlyUnder(m: Store, p: Prefix, vals: seq<Bytes>)
    ensures OnlyUnder(m, WriteList(m, Start(p), vals), p)
  {
  }

  lemma ListScans(m: Store, p: Prefix, vals: seq<Bytes>)
    requires p in LISTS
    ensures ScansOf(WriteList(m, Start(p), vals)) == ScansOf(m)[p := WriteList(Under(m, Start(p)), Start(p), vals)]
  {
    var m' := WriteList(m, Start(p), vals);
    ListOnlyUnder(m, p, vals);
    forall q | q in LISTS && q != p ensures Under(m', Start(q)) == Under(m, Start(q)) { ScanUnaffected(m, m', p, q); }
    ListWrittenUnder(m, Start(p), vals);
    OneScan(m, m', p);
  }

  lemma OneScan(m: Store, m': Store, p: Prefix)
    requires p in LISTS && forall q | q in LISTS && q != p :: Under(m', Start(q)) == Under(m, Start(q))
    ensures ScansOf(m') == ScansOf(m)[p := Under(m', Start(p))]
  {
  }

  /** Writing a list changes only what is seen under its own prefix. */
  lemma ListView(m: Store, p: Prefix, vals: seq<Bytes>)
    requires p in LISTS
    ensures ViewOf(WriteList(m, Start(p), vals)) == ViewOf(m).PutList(p, vals)
  {
    var m' := WriteList(m, Start(p), vals);
    ListOnlyUnder(m, p, vals);
    FixedUnaffected(m, m', p);
    MapUnaffected(m, m', p, Metadata);
    MapUnaffected(m, m', p, GlobalData);
    ListScans(m, p, vals);
  }

  lemma PutUnder(m: Store, k: Key, b: Bytes, q: Prefix)
    ensures Under(m[Text(k) := b], Start(q)) == Under(m, Start(q))
  {
    KeysApart(k, q, q, Text(k));
  }

  lemma FixedAfterPut<T>(m: Store, k: Key, b: Bytes, decode: (Key, Bytes) -> T)
    ensures FixedBy(m[Text(k) := b], decode) == FixedBy(m, decode)[k := decode(k, b)]
  {
  }

  lemma RestAfterPut(m: Store, k: Key, b: Bytes)
    ensures
      var m' := m[Text(k) := b];
      && GetMap(m', Start(Metadata)) == GetMap(m, Start(Metadata))
      && GetMap(m', Start(GlobalData)) == GetMap(m, Start(GlobalData)) && ScansOf(m') == ScansOf(m)
  {
    var m' := m[Text(k) := b];
    PutUnder(m, k, b, Metadata);
    MapUnder(m', m, Start(Metadata));
    PutUnder(m, k, b, GlobalData);
    MapUnder(m', m, Start(GlobalData));
    forall q | q in LISTS ensures Under(m', Start(q)) == Under(m, Start(q)) { PutUnder(m, k, b, q); }
  }

  /** Setting a fixed key changes only what is got under that key. */
  lemma PutView(m: Store, k: Key, c: Cell)
    requires HasForm(c, FormOf(k))
    ensures ViewOf(m[Text(k) := Encode(c)]) == ViewOf(m).Put(k, c)
  {
    CellRoundTrip(c, FormOf(k));
    FixedAfterPut(m, k, Encode(c), DECODE_AT);
    RestAfterPut(m, k, Encode(c));
  }

  // ----- The tree of a program, changed in place -----

  class ProgramTree {
    var tree: Store

    constructor ()
      ensures tree == map[]
    {
      tree := map[];
    }

    method SetKey(k: Key, c: Cell)
      requires HasForm(c, FormOf(k))
      modifies this
      ensures ViewOf(tree) == old(ViewOf(tree)).Put(k, c)
    {
      PutView(tree, k, c);
      tree := tree[Text(k) := Encode(c)];
    }

    method SetOptionalU32(k: Key, n: Option<U32>)
      requires FormOf(k) == U32Form
      modifies this
      ensures ViewOf(tree) == old(ViewOf(tree)).PutOption(k, U32Option(n))
    {
      if n.Some? { SetKey(k, U32Cell(n.value)); }
    }

    method SetOptionalI32(k: Key, n: Option<I32>)
      requires FormOf(k) == I32Form
      modifies this
      ensures ViewOf(tree) == old(ViewOf(tree)).PutOption(k, I32Option(n))
    {
      if n.Some? { SetKey(k, I32Cell(n.value)); }
    }

    method SetOptionalStr(k: Key, t: Option<string>)
      requires FormOf(k) == StrForm
      modifies this
      ensures ViewOf(tree) == old(ViewOf(tree)).PutOption(k, StrOption(t))
    {
      if t.Some? { SetKey(k, Str(t.value)); }
    }

    /** set_metadata / set_global_data: entry by entry, in the order the hash map happens to yield. */
    method SetUserMap(prefix: string, data: map<string, Bytes>)
      modifies this
      ensures tree == PutMap(old(tree), prefix, data)
    {
      var rest := data.Keys;
      PutNone(tree, prefix, data);
      while rest != {}
        invariant rest <= data.Keys && tree == PutMap(old(tree), prefix, data - rest)
        decreases |rest|
      {
        var k :| k in rest;
        PutOneMore(old(tree), prefix, data, rest, k);
        tree := tree[prefix + k := data[k]];
        rest := rest - {k};
      }
      assert data - {} == data;
    }

    /** set_proceed_on, set_kernel_map_ids and the like. */
    method SetList(p: Prefix, vals: seq<Bytes>)
      requires p in LISTS
      modifies this
      ensures ViewOf(tree) == old(ViewOf(tree)).PutList(p, vals)
    {
      for i := 0 to |vals|
        invariant tree == WriteList(old(tree), Start(p), vals[..i])
      {
        assert vals[..i + 1][..i] == vals[..i];
        tree := tree[IndexKey(Start(p), i) := vals[i]];
      }
      assert vals[..|vals|] == vals;
      ListView(old(tree), p, vals);
    }

    method SetLocation(loc: Location)
      modifies this
      ensures ViewOf(tree) == PutLocation(old(ViewOf(tree)), loc)
    {
      match loc
      case File(path) => SetKey(Data(LocationFilename), Str(path));
      case Image(url, policy, username, password) =>
        SetKey(Data(LocationImageUrl), Str(url));
        SetKey(Data(LocationImagePullPolicy), Str(PolicyText(policy)));
        SetOptionalStr(Data(LocationUsername), username);
        SetOptionalStr(Data(LocationPassword), password);
    }

    /** ProgramData::new. */
    method SetData(i: Info)
      modifies this
      ensures ViewOf(tree) == BuildData(old(ViewOf(tree)), i)
    {
      SetKey(ProgId, U32Cell(i.id));
      SetLocation(i.location);
      SetUserData(i);
    }

    method SetUserData(i: Info)
      modifies this
      ensures ViewOf(tree) == PutUserData(old(ViewOf(tree)), i)
    {
      SetKey(Data(Name), Str(i.name));
      SetMetadata(i.metadata);
      SetGlobalData(i.globalData);
      SetOptionalU32(Data(MapOwnerId), i.mapOwner);
    }

    method SetMetadata(data: map<string, string>)
      modifies this
      ensures ViewOf(tree) == old(ViewOf(tree)).PutMetadata(data)
    {
      MetadataView(tree, data);
      SetUserMap(Start(Metadata), data);
    }

    method SetGlobalData(data: map<string, Bytes>)
      modifies this
      ensures ViewOf(tree) == old(ViewOf(tree)).PutGlobalData(data)
    {
      GlobalDataView(tree, data);
      SetUserMap(Start(GlobalData), data);
    }

    method SetXdp(a: Attributes)
      requires a.XdpProgram?
      modifies this
      ensures ViewOf(tree) == BuildMultiAttach(old(ViewOf(tree)), a)
    {
      SetKey(Own(XdpPriority), I32Cell(a.priority));
      SetKey(Own(XdpIface), Str(a.iface));
      SetList(XdpProceedOn, Encoded(Xdp.Encode, a.xdpProceedOn));
      SetKey(Kind, U32Cell(XDP));
    }

    method SetTc(a: Attributes)
      requires a.TcProgram?
      modifies this
      ensures ViewOf(tree) == BuildMultiAttach(old(ViewOf(tree)), a)
    {
      SetKey(Own(TcPriority), I32Cell(a.priority));
      SetKey(Own(TcIface), Str(a.iface));
      SetList(TcProceedOn, Encoded(Tc.Encode, a.tcProceedOn));
      SetKey(Own(TcDirection), Str(DirectionText(a.direction)));
      SetKey(Kind, U32Cell(TC));
    }

    method SetKprobe(fnName: string, offset: U64, retprobe: bool, containerPid: Option<I32>)
      modifies this
      ensures ViewOf(tree) == BuildKprobe(old(ViewOf(tree)), fnName, offset, retprobe, containerPid)
    {
      SetKey(Own(KprobeFnName), Str(fnName));
      SetKey(Own(KprobeOffset), U64Cell(offset));
      SetKey(Own(KprobeRetprobe), Flag(retprobe));
      SetKey(Kind, U32Cell(PROBE));
      SetOptionalI32(Own(KprobeContainerPid), containerPid);
    }

    method SetUprobePids(pid: Option<I32>, containerPid: Option<I32>)
      modifies this
      ensures ViewOf(tree) == old(ViewOf(tree)).PutOption(Own(UprobeContainerPid), I32Option(containerPid))
                                               .PutOption(Own(UprobePid), I32Option(pid))
    {
      SetOptionalI32(Own(UprobeContainerPid), containerPid);
      SetOptionalI32(Own(UprobePid), pid);
    }

    method SetUprobe(
      fnName: Option<string>, offset: U64, target: string, retprobe: bool, pid: Option<I32>, containerPid: Option<I32>)
      modifies this
      ensures ViewOf(tree) == BuildUprobe(old(ViewOf(tree)), fnName, offset, target, retprobe, pid, containerPid)
    {
      SetOptionalStr(Own(UprobeFnName), fnName);
      SetKey(Own(UprobeOffset), U64Cell(offset));
      SetKey(Own(UprobeRetprobe), Flag(retprobe));
      SetUprobePids(pid, containerPid);
      SetKey(Own(UprobeTarget), Str(target));
      SetKey(Kind, U32Cell(PROBE));
    }

    /** The constructors of the three kinds with one attribute. */
    method SetNamed(k: OwnKey, name: string, kind: U32)
      requires FormOf(Own(k)) == StrForm
      modifies this
      ensures ViewOf(tree) == BuildNamed(old(ViewOf(tree)), k, name, kind)
    {
      SetKey(Own(k), Str(name));
      SetKey(Kind, U32Cell(kind));
    }

    method SetSingleAttach(a: Attributes)
      requires !MultiAttach(a)
      modifies this
      ensures ViewOf(tree) == BuildSingleAttach(old(ViewOf(tree)), a)
    {
      if a.KprobeProgram? {
        SetKprobe(a.fnName, a.offset, a.retprobe, a.containerPid);
      } else if a.UprobeProgram? {
        SetUprobe(a.optFnName, a.offset, a.target, a.retprobe, a.pid, a.containerPid);
      } else {
        SetNamed(AttributeKey(a), AttributeValue(a), AttributeKind(a));
      }
    }

    method SetAttributes(a: Attributes)
      modifies this
      ensures ViewOf(tree) == BuildAttributes(old(ViewOf(tree)), a)
    {
      if a.XdpProgram? {
        SetXdp(a);
      } else if a.TcProgram? {
        SetTc(a);
      } else {
        SetSingleAttach(a);
      }
    }

    /** load and the first half of swap_tree: every entry is inserted into another tree. */
    method CopyInto(existing: Store) returns (copy: Store)
      ensures copy == existing + tree
    {
      copy := existing;
      var keys := SortedKeys(tree.Keys);
      for i := 0 to |keys|
        invariant copy == Inserted(existing, tree, keys[..i])
      {
        InsertedNext(existing, tree, keys, i);
        copy := copy[keys[i] := tree[keys[i]]];
      }
      assert keys[..|keys|] == keys;
      AllInserted(existing, tree, keys);
    }

    /** load: `existing` is what the database's tree of this name holds; a fresh name has an empty one. */
    method Load(existing: Store)
      modifies this
      ensures tree == existing + old(tree)
    {
      tree := CopyInto(existing);
    }

    /** swap_tree: `existing` is what the tree named after the kernel's ID holds; a fresh ID has an empty one. */
    method SwapTree(existing: Store, id: U32)
      modifies this
      ensures tree == (existing + old(tree))[Text(ProgId) := Encode(U32Cell(id))]
      ensures ViewOf(tree) == Moved(ViewOf(existing + old(tree)), id)
    {
      tree := CopyInto(existing);
      PutView(tree, ProgId, U32Cell(id));
      tree := tree[Text(ProgId) := Encode(U32Cell(id))];
    }
  }

  /**
   The life of a program's tree: built, copied into the database, moved to the tree of the kernel's ID, and rebuilt from
   it. Nothing is lost and only the ID is new, for every kind and whatever the user's maps contain.
   */
  method BuildMoveRebuild(i: Info, id: U32) returns (r: Option<Info>)
    ensures RebuiltAs(i, id, r)
  {
    var p := new ProgramTree();
    p.SetData(i);
    p.SetAttributes(i.attributes);
    ghost var built := p.tree;
    p.Load(map[]);
    p.SwapTree(map[], id);
    IntoFresh(built);
    EmptyView();
    MovedRebuilds(ViewOf(map[]), i, id);
    r := NewFromDb(id, ViewOf(p.tree));
  }

  /** Copying into a fresh tree copies. */
  lemma IntoFresh(m: Store)
    ensures map[] + (map[] + m) == m
  {
  }

  /** The entries of `m` under `keys`, inserted one after the other. */
  function Inserted(existing: Store, m: Store, keys: seq<string>): Store
    requires forall k | k in keys :: k in m
  {
    if keys == [] then existing
    else
      var last := keys[|keys| - 1];
      Inserted(existing, m, keys[..|keys| - 1])[last := m[last]]
  }

  lemma InsertedNext(existing: Store, m: Store, keys: seq<string>, i: nat)
    requires i < |keys| && forall k | k in keys :: k in m
    ensures Inserted(existing, m, keys[..i + 1]) == Inserted(existing, m, keys[..i])[keys[i] := m[keys[i]]]
  {
    assert keys[..i + 1][..i] == keys[..i];
  }

  lemma {:induction false} InsertedEntry(existing: Store, m: Store, keys: seq<string>, k: string)
    requires forall k | k in keys :: k in m
    ensures
      var r := Inserted(existing, m, keys);
      && (k in r <==> k in existing || k in keys)
      && (k in keys ==> r[k] == m[k]) && (k !in keys && k in existing ==> r[k] == existing[k])
  {
    if keys != [] {
      InsertedEntry(existing, m, keys[..|keys| - 1], k);
      assert keys == keys[..|keys| - 1] + [keys[|keys| - 1]];
    }
  }

  lemma AllInserted(existing: Store, m: Store, keys: seq<string>)
    requires forall k :: k in keys <==> k in m
    ensures Inserted(existing, m, keys) == existing + m
  {
    forall k
      ensures k in Inserted(existing, m, keys) <==> k in existing + m
      ensures k in existing + m ==> Inserted(existing, m, keys)[k] == (existing + m)[k]
    {
      InsertedEntry(existing, m, keys, k);
    }
  }

  lemma PutNone(m: Store, prefix: string, data: map<string, Bytes>)
    ensures PutMap(m, prefix, data - data.Keys) == m
  {
  }

  lemma PutOneMore(m: Store, prefix: string, data: map<string, Bytes>, rest: set<string>, k: string)
    requires k in data && k in rest
    ensures PutMap(m, prefix, data - (rest - {k})) == PutMap(m, prefix, data - rest)[prefix + k := data[k]]
  {
    OneLess(data, rest, k);
    PutMapOneMore(m, prefix, data - rest, k, data[k]);
  }

  lemma OneLess(data: map<string, Bytes>, rest: set<string>, k: string)
    requires k in data && k in rest
    ensures data - (rest - {k}) == (data - rest)[k := data[k]]
  {
  }

  lemma PutMapOneMore(m: Store, prefix: string, data: map<string, Bytes>, k: string, b: Bytes)
    ensures PutMap(m, prefix, data[k := b]) == PutMap(m, prefix, data)[prefix + k := b]
  {
    PrefixedOneMore(prefix, data, k, b);
  }

  lemma PrefixedOneMore(prefix: string, data: map<string, Bytes>, k: string, b: Bytes)
    ensures Prefixed(prefix, data[k := b]) == Prefixed(prefix, data)[prefix + k := b]
  {
  }
}
