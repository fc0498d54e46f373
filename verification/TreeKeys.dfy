/**
 The key names of a program tree: fixed keys, and prefixes under which lists and user-chosen names live. No two fixed
 keys have the same text, no fixed key starts with a prefix, and no key starts with two prefixes.
 */
module TreeKeys {
  import opened Wrappers

  /** What every program has. */
  datatype DataKey =
    | Name | LocationFilename | LocationImageUrl | LocationImagePullPolicy | LocationUsername | LocationPassword
    | MapOwnerId

  /** What the kinds of program have of their own. */
  datatype OwnKey =
    | XdpPriority | XdpIface | TcPriority | TcIface | TcDirection | TracepointName | KprobeFnName | KprobeOffset
    | KprobeRetprobe | KprobeContainerPid | UprobeFnName | UprobeOffset | UprobeRetprobe | UprobeContainerPid
    | UprobePid | UprobeTarget | FentryFnName | FexitFnName

  /** What is recorded while a program is loaded and attached. */
  datatype BookKey =
    | MapPinPath | ProgramBytes | KernelName | KernelProgramType | KernelLoadedAt | KernelTag
    | KernelGplCompatible | KernelBtfId | KernelBytesXlated | KernelJited | KernelBytesJited
    | KernelBytesMemlock | KernelVerifiedInsns | XdpCurrentPosition | XdpIfIndex | XdpAttached
    | TcCurrentPosition | TcIfIndex | TcAttached

  datatype Key = ProgId | Kind | Data(data: DataKey) | Own(own: OwnKey) | Book(book: BookKey)

  function Text(k: Key): string {
    match k
    case ProgId => "id"
    case Kind => "kind"
    case Data(d) => DataText(d)
    case Own(o) => OwnText(o)
    case Book(b) => BookText(b)
  }

  function DataText(k: DataKey): string {
    match k
    case Name => "name"
    case LocationFilename => "location_filename"
    case LocationImageUrl => "location_image_url"
    case LocationImagePullPolicy => "location_image_pull_policy"
    case LocationUsername => "location_username"
    case LocationPassword => "location_password"
    case MapOwnerId => "map_owner_id"
  }

  function OwnText(k: OwnKey): string {
    match k
    case XdpPriority => "xdp_priority"
    case XdpIface => "xdp_iface"
    case TcPriority => "tc_priority"
    case TcIface => "tc_iface"
    case TcDirection => "tc_direction"
    case TracepointName => "tracepoint_name"
    case KprobeFnName => "kprobe_fn_name"
    case KprobeOffset => "kprobe_offset"
    case KprobeRetprobe => "kprobe_retprobe"
    case KprobeContainerPid => "kprobe_container_pid"
    case UprobeFnName => "uprobe_fn_name"
    case UprobeOffset => "uprobe_offset"
    case UprobeRetprobe => "uprobe_retprobe"
    case UprobeContainerPid => "uprobe_container_pid"
    case UprobePid => "uprobe_pid"
    case UprobeTarget => "uprobe_target"
    case FentryFnName => "fentry_fn_name"
    case FexitFnName => "fexit_fn_name"
  }

  function BookText(k: BookKey): string {
    match k
    case MapPinPath => "map_pin_path"
    case ProgramBytes => "program_bytes"
    case KernelName => "kernel_name"
    case KernelProgramType => "kernel_program_type"
    case KernelLoadedAt => "kernel_loaded_at"
    case KernelTag => "kernel_tag"
    case KernelGplCompatible => "kernel_gpl_compatible"
    case KernelBtfId => "kernel_btf_id"
    case KernelBytesXlated => "kernel_bytes_xlated"
    case KernelJited => "kernel_jited"
    case KernelBytesJited => "kernel_bytes_jited"
    case KernelBytesMemlock => "kernel_bytes_memlock"
    case KernelVerifiedInsns => "kernel_verified_insns"
    case XdpCurrentPosition => "xdp_current_position"
    case XdpIfIndex => "xdp_if_index"
    case XdpAttached => "xdp_attached"
    case TcCurrentPosition => "tc_current_position"
    case TcIfIndex => "tc_if_index"
    case TcAttached => "tc_attached"
  }

  /** The inverse of Text, by first letter; then length and a character tell the fixed keys apart. */
  function Find(s: string): Key
    requires |s| >= 2
  {
    match s[0]
    case 'i' => ProgId
    case 'n' => Data(Name)
    case 'p' => Book(ProgramBytes)
    case 'k' => FindKernelOrKprobe(s)
    case 'x' => FindXdp(s)
    case 't' => FindTcOrTracepoint(s)
    case 'u' => FindUprobe(s)
    case _ => FindOther(s)
  }

  function FindKernelOrKprobe(s: string): Key {
    match |s|
    case 4 => Kind
    case 10 => Book(KernelTag)
    case 11 => Book(KernelName)
    case 12 => Book(KernelJited)
    case 13 => if s[1] == 'e' then Book(KernelBtfId) else Own(KprobeOffset)
    case 14 => Own(KprobeFnName)
    case 15 => Own(KprobeRetprobe)
    case 16 => Book(KernelLoadedAt)
    case 18 => Book(KernelBytesJited)
    case 19 => if s[7] == 'p' then Book(KernelProgramType) else Book(KernelBytesXlated)
    case 20 => if s[1] == 'e' then Book(KernelBytesMemlock) else Own(KprobeContainerPid)
    case 21 => if s[7] == 'g' then Book(KernelGplCompatible) else Book(KernelVerifiedInsns)
    case _ => Kind
  }

  function FindXdp(s: string): Key {
    if |s| < 7 then Kind
    else match s[6]
    case 'i' => Own(XdpPriority)
    case 'a' => Own(XdpIface)
    case 'r' => Book(XdpCurrentPosition)
    case '_' => Book(XdpIfIndex)
    case _ => Book(XdpAttached)
  }

  function FindTcOrTracepoint(s: string): Key {
    if |s| < 5 then Kind
    else match s[4]
    case 'r' => Own(TcPriority)
    case 'f' => if |s| == 8 then Own(TcIface) else Book(TcIfIndex)
    case 'u' => Book(TcCurrentPosition)
    case 't' => Book(TcAttached)
    case 'i' => Own(TcDirection)
    case _ => Own(TracepointName)
  }

  function FindUprobe(s: string): Key {
    if |s| < 8 then Kind
    else match s[7]
    case 'f' => Own(UprobeFnName)
    case 'o' => Own(UprobeOffset)
    case 'r' => Own(UprobeRetprobe)
    case 'c' => Own(UprobeContainerPid)
    case 'p' => Own(UprobePid)
    case _ => Own(UprobeTarget)
  }

  function FindOther(s: string): Key {
    match |s|
    case 12 => if s[4] == 'o' then Data(MapOwnerId) else Book(MapPinPath)
    case 13 => Own(FexitFnName)
    case 14 => Own(FentryFnName)
    case 17 =>
      if s[9] == 'f' then Data(LocationFilename) else if s[9] == 'u' then Data(LocationUsername)
      else Data(LocationPassword)
    case 18 => Data(LocationImageUrl)
    case _ => Data(LocationImagePullPolicy)
  }

  lemma FindData(d: DataKey)
    ensures |DataText(d)| >= 2 && Find(DataText(d)) == Data(d)
  {
  }

  lemma FindOwn(o: OwnKey)
    ensures |OwnText(o)| >= 2 && Find(OwnText(o)) == Own(o)
  {
  }

  lemma FindBook(b: BookKey)
    ensures |BookText(b)| >= 2 && Find(BookText(b)) == Book(b)
  {
  }

  lemma FindText(k: Key)
    ensures |Text(k)| >= 2 && Find(Text(k)) == k
  {
    match k
    case ProgId =>
    case Kind =>
    case Data(d) => FindData(d);
    case Own(o) => FindOwn(o);
    case Book(b) => FindBook(b);
  }

  lemma TextInjective(j: Key, k: Key)
    requires Text(j) == Text(k)
    ensures j == k
  {
    FindText(j);
    FindText(k);
  }

  datatype Prefix = GlobalData | Metadata | MapsUsedBy | KernelMapIds | XdpProceedOn | TcProceedOn

  function Start(p: Prefix): string {
    match p
    case GlobalData => "global_data_"
    case Metadata => "metadata_"
    case MapsUsedBy => "maps_used_by_"
    case KernelMapIds => "kernel_map_ids_"
    case XdpProceedOn => "xdp_proceed_on_"
    case TcProceedOn => "tc_proceed_on_"
  }

  /** The prefix a key starts with, told from a few of its characters. */
  function Family(s: string): Option<Prefix> {
    if |s| < 9 then None
    else if s[0] == 'g' then Some(GlobalData)
    else if s[0] == 'm' && s[1] == 'e' then Some(Metadata)
    else if s[0] == 'm' && s[3] == 's' then Some(MapsUsedBy)
    else if s[0] == 'k' && s[1] == 'e' && s[7] == 'm' then Some(KernelMapIds)
    else if s[0] == 'x' && s[6] == 'o' then Some(XdpProceedOn)
    else if s[0] == 't' && s[5] == 'o' then Some(TcProceedOn)
    else None
  }

  lemma OwnHasNoFamily(o: OwnKey)
    ensures Family(OwnText(o)) == None
  {
  }

  lemma BookHasNoFamily(b: BookKey)
    ensures Family(BookText(b)) == None
  {
  }

  lemma FixedHasNoFamily(k: Key)
    ensures Family(Text(k)) == None
  {
    if k.Own? { OwnHasNoFamily(k.own); }
    if k.Book? { BookHasNoFamily(k.book); }
  }

  lemma UnderHasFamily(p: Prefix, s: string)
    requires Start(p) <= s
    ensures Family(s) == Some(p)
  {
  }

  /** Keys of different kinds never clash, whatever users append to a prefix. */
  lemma KeysApart(k: Key, p: Prefix, q: Prefix, s: string)
    ensures !(Start(p) <= Text(k))
    ensures Start(p) <= s && Start(q) <= s ==> p == q
  {
    FixedHasNoFamily(k);
    if Start(p) <= Text(k) { UnderHasFamily(p, Text(k)); }
    if Start(p) <= s { UnderHasFamily(p, s); }
    if Start(q) <= s { UnderHasFamily(q, s); }
  }
}
