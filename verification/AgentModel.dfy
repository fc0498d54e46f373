/**
 The node agent's reconcile pass (bpfman-operator/controllers/bpfman-agent/common.go) as functions over
 the state a pass can see. Everything the pass cannot decide for itself (failing calls, the kernel's
 program IDs, Go's map iteration order) arrives in an `Oracle`, so a statement that quantifies over
 oracles covers every such choice.
 */
module AgentModel {
  import opened Wrappers

  type ObjName = string
  type ProgName = string
  type NodeName = string
  type Uid = string

  /** BpfProgramConditionType. */
  datatype Cond =
    | Loaded | NotLoaded | NotUnloaded | NotSelected | Unloaded | MapOwnerNotFound
    | MapOwnerNotLoaded | BytecodeSelectorError | NoContainersOnNode

  /** The proceed-on codes of a load request, if its kind of program has any. */
  datatype Codes = NoCodes | TcCodes(codes: seq<int>) | XdpCodes(codes: seq<int>)

  /** Where the bytecode comes from; `source` is an image's URL with its pull policy. */
  datatype Bytecode = Image(source: string) | File(path: string)

  /**
   A *Program's spec, split by what `DoesProgExist` makes of it: the function name, the bytecode's location, the
   proceed-on codes, the other compared fields, and TC direction and global data, which are not compared.
   */
  datatype Spec = Spec(name: string, bytecode: Bytecode, proceedOn: Codes, compared: string, ignored: string)

  /** A *Program object (XdpProgram, TcProgram, ...). */
  datatype ProgObj = ProgObj(name: ProgName, spec: Spec, deleting: bool)

  /** The part of a bpfman LoadRequest that varies. `attach` is what the BpfProgram's annotations contribute. */
  datatype Request = Request(owner: ProgName, spec: Spec, uid: Uid, attach: string, mapOwner: Option<nat>)

  /** What bpfman lists for one loaded program; `request` as it is listed. */
  datatype LoadedProg = LoadedProg(id: nat, request: Request)

  /** A BpfProgram object. `finalizer` is the agent controller's finalizer, `id` the program ID annotation. */
  datatype BpfObj = BpfObj(
    name: ObjName, uid: Uid, owner: ProgName, node: NodeName, attach: string, noContainers: bool,
    finalizer: bool, terminating: bool, id: Option<nat>, conds: seq<Cond>)

  /** One entry of getExpectedBpfPrograms. */
  datatype Expected = Expected(name: ObjName, attach: string, noContainers: bool)

  datatype MapOwner = MapOwner(isSet: bool, isFound: bool, isLoaded: bool, id: Option<nat>)

  /** What a pass reads about one *Program before it acts: setCurrentProgram may fail, any later read may fail. */
  datatype View =
    | CannotSet
    | Unreadable
    | View(selected: bool, mapOwner: MapOwner, expected: Option<seq<Expected>>)

  datatype Oracle = Oracle(
    listFails: bool,              // bpfman List fails
    order: seq<ObjName>,          // map iteration order over existing BpfPrograms
    loads: map<ObjName, nat>,     // kernel ID given to a BpfProgram if it is loaded; a load of any other name fails
    unloadFails: set<ObjName>,    // bpfman Unload fails
    requestFails: set<ObjName>,   // getLoadRequest fails
    badIds: set<ObjName>,         // the ID annotation does not parse
    writeFails: set<ObjName>,     // the Kubernetes write to this object fails
    newUid: Uid,                  // UID given to an object created in this pass
    lists: Spec -> Spec)          // how bpfman lists what it was asked to load

  /** The state a pass works on. `writes` counts successful Kubernetes writes. */
  datatype NodeState = NodeState(
    objs: map<ObjName, BpfObj>, loaded: map<Uid, LoadedProg>, progId: Option<nat>, writes: nat)

  /** The parameters that reconcileProgram fixes for one *Program. */
  datatype Ctx = Ctx(node: NodeName, prog: ProgObj, selected: bool, mapOwner: MapOwner)

  datatype Outcome = Unchanged | Updated | Requeue | Crashed

  datatype Pass = Pass(s: NodeState, outcome: Outcome)

  /** How one iteration of a loop ends: carry on, or leave the function. */
  datatype Flow = Next(s: NodeState) | Exit(s: NodeState, outcome: Outcome)

  /** What reconcileBpfProgram returns; `ok` is "the error is nil". A nil dereference crashes the pass. */
  datatype Reconciled = Reconciled(s: NodeState, cond: Cond, ok: bool) | Crash(s: NodeState)

  datatype StatusWrite = StatusWrite(s: NodeState, changed: bool)

  datatype Unload = Unload(s: NodeState, ok: bool)

  // ----- Decisions -----

  predicate MapOk(m: MapOwner) {
    !m.isSet || (m.isFound && m.isLoaded)
  }

  predicate ShouldBeLoaded(c: Ctx, o: BpfObj, deleting: bool) {
    c.selected && !deleting && !o.noContainers && MapOk(c.mapOwner)
  }

  /** reconcileBpfProgramSuccessCondition: the same ladder whether or not the program was loaded before. */
  function SuccessCondition(c: Ctx, o: BpfObj, deleting: bool): Cond {
    if ShouldBeLoaded(c, o, deleting) then Loaded
    else if deleting then Unloaded
    else if !c.selected then NotSelected
    else if o.noContainers then NoContainersOnNode
    else if c.mapOwner.isSet && !c.mapOwner.isFound then MapOwnerNotFound
    else if c.mapOwner.isSet && !c.mapOwner.isLoaded then MapOwnerNotLoaded
    else Unloaded
  }

  function LoadRequest(c: Ctx, o: BpfObj): Request {
    Request(c.prog.name, c.prog.spec, o.uid, o.attach, c.mapOwner.id)
  }

  /** GetFile: empty for an image. */
  function FileOf(b: Bytecode): string {
    if b.File? then b.path else ""
  }

  /** What `DoesProgExist` compares of the spec. Image sources are compared only if both are images. */
  predicate SameSpec(actual: Spec, expected: Spec) {
    && actual.name == expected.name
    && (actual.bytecode.Image? && expected.bytecode.Image? ==> actual.bytecode.source == expected.bytecode.source)
    && FileOf(actual.bytecode) == FileOf(expected.bytecode)
    && actual.proceedOn == expected.proceedOn
    && actual.compared == expected.compared
  }

  /** DoesProgExist (internal/cmp.go). */
  predicate DoesProgExist(actual: Request, expected: Request) {
    && actual.owner == expected.owner
    && actual.uid == expected.uid
    && actual.attach == expected.attach
    && actual.mapOwner == expected.mapOwner
    && SameSpec(actual.spec, expected.spec)
  }

  // ----- Calls into bpfman and Kubernetes -----

  /** bpfman's Unload(id) drops whatever program has that kernel ID, and fails if there is none. */
  function UnloadProg(s: NodeState, o: BpfObj, id: nat, f: Oracle): Unload {
    if o.name in f.unloadFails || (forall u :: u in s.loaded ==> s.loaded[u].id != id) then
      Unload(s, false)
    else
      Unload(s.(loaded := map u | u in s.loaded && s.loaded[u].id != id :: s.loaded[u]), true)
  }

  /** What bpfman lists once it has loaded a request. */
  function Listed(q: Request, f: Oracle): Request {
    q.(spec := f.lists(q.spec))
  }

  /** bpfman's Load; the agent stores the returned ID in its progId field. */
  function LoadProg(s: NodeState, o: BpfObj, q: Request, id: nat, f: Oracle): NodeState {
    s.(loaded := s.loaded[o.uid := LoadedProg(id, Listed(q, f))], progId := Some(id))
  }

  function Put(s: NodeState, o: BpfObj): NodeState {
    s.(objs := s.objs[o.name := o], writes := s.writes + 1)
  }

  function Drop(s: NodeState, o: BpfObj): NodeState {
    s.(objs := s.objs - {o.name}, writes := s.writes + 1)
  }

  function UpdateStatus(s: NodeState, o: BpfObj, cond: Cond, f: Oracle): StatusWrite {
    if o.conds == [cond] then StatusWrite(s, false)
    else if o.name in f.writeFails then StatusWrite(s, true)
    else StatusWrite(Put(s, o.(conds := [cond])), true)
  }

  /** The API server forgets a terminating object once its last finalizer is gone. */
  function RemoveFinalizer(s: NodeState, o: BpfObj, f: Oracle): NodeState {
    if o.name in f.writeFails then s
    else if o.terminating then Drop(s, o)
    else Put(s, o.(finalizer := false))
  }

  function NewObject(c: Ctx, e: Expected, uid: Uid): BpfObj {
    BpfObj(e.name, uid, c.prog.name, c.node, e.attach, e.noContainers, true, false, None, [])
  }

  // ----- reconcileBpfProgram -----

  function Reload(s: NodeState, o: BpfObj, c: Ctx, q: Request, f: Oracle): Reconciled {
    if o.id.None? then Crash(s)
    else
      var u := UnloadProg(s, o, o.id.value, f);
      if !u.ok then Reconciled(s, NotUnloaded, true)
      else if o.name !in f.loads then Reconciled(u.s.(progId := None), NotLoaded, false)
      else Reconciled(LoadProg(u.s, o, q, f.loads[o.name], f), Loaded, true)
  }

  function ReconcileLoaded(s: NodeState, actual: Request, o: BpfObj, c: Ctx, deleting: bool, f: Oracle): Reconciled {
    if o.name in f.badIds then Reconciled(s, NotLoaded, true)
    else if ShouldBeLoaded(c, o, deleting) then
      if o.name in f.requestFails then Reconciled(s, BytecodeSelectorError, false)
      else if !DoesProgExist(actual, LoadRequest(c, o)) then Reload(s, o, c, LoadRequest(c, o), f)
      else Reconciled(s.(progId := o.id), Loaded, true)
    else if o.id.None? then Crash(s)
    else
      var u := UnloadProg(s, o, o.id.value, f);
      if u.ok then Reconciled(u.s, SuccessCondition(c, o, deleting), true) else Reconciled(s, NotUnloaded, true)
  }

  function ReconcileUnloaded(s: NodeState, o: BpfObj, c: Ctx, deleting: bool, f: Oracle): Reconciled {
    if !ShouldBeLoaded(c, o, deleting) then Reconciled(s, SuccessCondition(c, o, deleting), true)
    else if o.name in f.requestFails then Reconciled(s, BytecodeSelectorError, false)
    else if o.name !in f.loads then Reconciled(s.(progId := None), NotLoaded, true)
    else Reconciled(LoadProg(s, o, LoadRequest(c, o), f.loads[o.name], f), Loaded, true)
  }

  /** reconcileBpfProgram: `listed` is the bpfman listing taken when the pass started. */
  function ReconcileBpf(
    s: NodeState, listed: map<Uid, LoadedProg>, o: BpfObj, c: Ctx, deleting: bool, f: Oracle): Reconciled
  {
    if o.uid in listed then ReconcileLoaded(s, listed[o.uid].request, o, c, deleting, f)
    else ReconcileUnloaded(s, o, c, deleting, f)
  }

  // ----- handleProgDelete -----

  function DeleteOne(s: NodeState, listed: map<Uid, LoadedProg>, o: BpfObj, c: Ctx, f: Oracle): Flow {
    var r := ReconcileBpf(s, listed, o, c, true, f);
    if r.Crash? then Exit(r.s, Crashed)
    else if !r.ok then Exit(UpdateStatus(r.s, o, r.cond, f).s, Requeue)
    else if o.finalizer then Exit(RemoveFinalizer(r.s, o, f), Updated)
    else if c.prog.deleting then
      var u := UpdateStatus(r.s, o, r.cond, f);
      if u.changed then Exit(u.s, Updated) else Next(u.s)
    else if o.name in f.writeFails then Exit(r.s, Requeue)
    else Exit(Drop(r.s, o), Updated)
  }

  function DeleteFrom(
    s: NodeState, listed: map<Uid, LoadedProg>, existing: map<ObjName, BpfObj>, c: Ctx, f: Oracle, i: nat): Pass
    requires i <= |f.order|
    decreases |f.order| - i
  {
    if i == |f.order| then Pass(s, Unchanged)
    else if f.order[i] !in existing then DeleteFrom(s, listed, existing, c, f, i + 1)
    else
      match DeleteOne(s, listed, existing[f.order[i]], c, f)
      case Exit(s', outcome) => Pass(s', outcome)
      case Next(s') => DeleteFrom(s', listed, existing, c, f, i + 1)
  }

  // ----- handleProgCreateOrUpdate -----

  /** The conditions after which the pass does not look at the program ID. */
  predicate SkipsId(cond: Cond) {
    cond in {NotSelected, MapOwnerNotFound, MapOwnerNotLoaded, NoContainersOnNode}
  }

  function Create(s: NodeState, e: Expected, c: Ctx, f: Oracle): Flow {
    if e.name in f.writeFails || e.name in s.objs then Exit(s, Requeue)
    else Exit(Put(s, NewObject(c, e, f.newUid)), Updated)
  }

  function StatusFlow(u: StatusWrite): Flow {
    if u.changed then Exit(u.s, Updated) else Next(u.s)
  }

  /** After a nil-error reconcile: bring the ID annotation, then the status, up to date. */
  function RecordId(s: NodeState, o: BpfObj, cond: Cond, f: Oracle): Flow {
    if o.name in f.badIds then Exit(s, Requeue)
    else if o.id != s.progId then
      if s.progId.None? then Exit(s, Crashed)
      else if o.name in f.writeFails then Exit(s, Requeue)
      else Exit(Put(s, o.(id := s.progId)), Updated)
    else StatusFlow(UpdateStatus(s, o, cond, f))
  }

  function UpdateOne(s: NodeState, listed: map<Uid, LoadedProg>, o: BpfObj, c: Ctx, f: Oracle): Flow {
    var r := ReconcileBpf(s, listed, o, c, c.prog.deleting, f);
    if r.Crash? then Exit(r.s, Crashed)
    else if !r.ok || SkipsId(r.cond) then StatusFlow(UpdateStatus(r.s, o, r.cond, f))
    else RecordId(r.s, o, r.cond, f)
  }

  function UpdateFrom(
    s: NodeState, listed: map<Uid, LoadedProg>, existing: map<ObjName, BpfObj>, expected: seq<Expected>,
    c: Ctx, f: Oracle, i: nat): Pass
    requires i <= |expected|
    decreases |expected| - i
  {
    if i == |expected| then
      if existing == map[] then Pass(s, Unchanged) else DeleteFrom(s, listed, existing, c, f, 0)
    else if expected[i].name !in existing then
      var t := Create(s, expected[i], c, f);
      Pass(t.s, t.outcome)
    else
      match UpdateOne(s, listed, existing[expected[i].name], c, f)
      case Exit(s', outcome) => Pass(s', outcome)
      case Next(s') => UpdateFrom(s', listed, existing - {expected[i].name}, expected, c, f, i + 1)
  }

  // ----- reconcileProgram and reconcileCommon -----

  /** getExistingBpfPrograms: the objects labelled with this *Program and this node. */
  function Existing(objs: map<ObjName, BpfObj>, node: NodeName, prog: ProgName): map<ObjName, BpfObj> {
    map n | n in objs && objs[n].owner == prog && objs[n].node == node :: objs[n]
  }

  function ReconcileProgram(
    s: NodeState, listed: map<Uid, LoadedProg>, node: NodeName, prog: ProgObj, v: View, f: Oracle): Pass
  {
    if !v.View? then Pass(s, Requeue)
    else
      var c := Ctx(node, prog, v.selected, v.mapOwner);
      var existing := Existing(s.objs, node, prog.name);
      if prog.deleting then DeleteFrom(s, listed, existing, c, f, 0)
      else if v.expected.None? then Pass(s, Requeue)
      else UpdateFrom(s, listed, existing, v.expected.value, c, f, 0)
  }

  function ViewOf(views: map<ProgName, View>, prog: ProgName): View {
    if prog in views then views[prog] else Unreadable
  }

  /** The pass goes on to the next *Program after this outcome. */
  predicate GoesOn(outcome: Outcome) {
    outcome == Unchanged || outcome == Requeue
  }

  function ReconcileFrom(
    s: NodeState, listed: map<Uid, LoadedProg>, node: NodeName, progs: seq<ProgObj>,
    views: map<ProgName, View>, f: Oracle, i: nat, requeue: bool): Pass
    requires i <= |progs|
    decreases |progs| - i
  {
    if i == |progs| then Pass(s, if requeue then Requeue else Unchanged)
    else
      var v := ViewOf(views, progs[i].name);
      if v.CannotSet? then Pass(s, Requeue)
      else
        var p := ReconcileProgram(s, listed, node, progs[i], v, f);
        if !GoesOn(p.outcome) then p
        else ReconcileFrom(p.s, listed, node, progs, views, f, i + 1, requeue || p.outcome == Requeue)
  }

  /** reconcileCommon: one whole pass of a node agent. */
  function ReconcileCommon(
    s: NodeState, node: NodeName, progs: seq<ProgObj>, views: map<ProgName, View>, f: Oracle): Pass
  {
    if f.listFails then Pass(s, Requeue)
    else ReconcileFrom(s, s.loaded, node, progs, views, f, 0, false)
  }
}
