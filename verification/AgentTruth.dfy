/**
 What the conditions say, whatever fails: each condition a reconcile returns is tied to what is wanted of the BpfProgram
 and to what bpfman has afterwards, and everything a pass writes, or leaves standing when it reports Unchanged, is true.
 Nothing here goes through the decisions of the code; they are written out again.
 */
module AgentTruth {
  import opened Wrappers
  import opened AgentModel
  import opened AgentWrites
  import opened AgentSafety
  import opened OperatorModel

  // ----- What is wanted -----

  /** The BpfProgram is to run on this node, if only its map owner is there. */
  ghost predicate Wanted(c: Ctx, o: BpfObj, deleting: bool) {
    c.selected && !deleting && !o.noContainers
  }

  ghost predicate OwnerReady(m: MapOwner) {
    m.isSet ==> m.isFound && m.isLoaded
  }

  /** The listed bytecode is the wanted one; images and files are told apart by the file name only. */
  ghost predicate SameBytecode(actual: Bytecode, wanted: Bytecode) {
    match actual
    case Image(a) => (match wanted case Image(b) => a == b case File(path) => path == "")
    case File(a) => (match wanted case Image(_) => a == "" case File(b) => a == b)
  }

  /** The listed request is the one this BpfProgram stands for now. */
  ghost predicate AsAsked(actual: Request, c: Ctx, o: BpfObj) {
    && actual.owner == c.prog.name && actual.uid == o.uid && actual.attach == o.attach
    && actual.mapOwner == c.mapOwner.id
    && actual.spec.name == c.prog.spec.name && actual.spec.compared == c.prog.spec.compared
    && actual.spec.proceedOn == c.prog.spec.proceedOn
    && SameBytecode(actual.spec.bytecode, c.prog.spec.bytecode)
  }

  /** bpfman has this BpfProgram's program from a load in this reconcile. */
  ghost predicate JustLoaded(loaded: map<Uid, LoadedProg>, o: BpfObj, c: Ctx, f: Oracle) {
    && o.uid in loaded && o.name in f.loads
    && loaded[o.uid] ==
       LoadedProg(f.loads[o.name], Request(c.prog.name, f.lists(c.prog.spec), o.uid, o.attach, c.mapOwner.id))
  }

  /** bpfman has what is wanted of this BpfProgram. */
  ghost predicate Fulfilled(loaded: map<Uid, LoadedProg>, o: BpfObj, c: Ctx, deleting: bool, f: Oracle) {
    if !Wanted(c, o, deleting) then o.uid !in loaded
    else
      && OwnerReady(c.mapOwner) && o.uid in loaded
      && (AsAsked(loaded[o.uid].request, c, o) || JustLoaded(loaded, o, c, f))
  }

  /** The reconcile could not find out: the annotation of a loaded program does not parse, or no request can be made. */
  ghost predicate Unknown(loaded: map<Uid, LoadedProg>, o: BpfObj, c: Ctx, deleting: bool, f: Oracle) {
    || (o.uid in loaded && o.name in f.badIds)
    || (Wanted(c, o, deleting) && OwnerReady(c.mapOwner) && o.name in f.requestFails)
  }

  // ----- One reconcile -----

  /** When a reconcile that found `before` and left `after` returns this condition. */
  ghost predicate Says(
    cond: Cond, before: map<Uid, LoadedProg>, after: map<Uid, LoadedProg>, o: BpfObj, c: Ctx, deleting: bool,
    f: Oracle)
  {
    var unreadable := o.uid in before && o.name in f.badIds;
    var ready := Wanted(c, o, deleting) && OwnerReady(c.mapOwner);
    match cond
    case Loaded => ready && Fulfilled(after, o, c, deleting, f) && !Unknown(before, o, c, deleting, f)
    case NotLoaded => unreadable || (ready && o.uid !in after && o.name !in f.requestFails)
    case BytecodeSelectorError => !unreadable && ready && o.name in f.requestFails
    case NotUnloaded => o.uid in after && !Fulfilled(after, o, c, deleting, f) && !Unknown(before, o, c, deleting, f)
    case Unloaded => o.uid !in after && deleting
    case NotSelected => o.uid !in after && !deleting && !c.selected
    case NoContainersOnNode => o.uid !in after && !deleting && c.selected && o.noContainers
    case MapOwnerNotFound =>
      o.uid !in after && Wanted(c, o, deleting) && c.mapOwner.isSet && !c.mapOwner.isFound
    case MapOwnerNotLoaded =>
      o.uid !in after && Wanted(c, o, deleting) && c.mapOwner.isSet && c.mapOwner.isFound && !c.mapOwner.isLoaded
  }

  /** The program loaded for this BpfProgram is the one its annotation names, and no other has that ID. */
  ghost predicate Named(s: NodeState, o: BpfObj) {
    IdsUnique(s.loaded) && (o.uid in s.loaded ==> o.id == Some(s.loaded[o.uid].id))
  }

  ghost predicate NewId(s: NodeState, o: BpfObj, f: Oracle) {
    o.name in f.loads ==> forall u | u in s.loaded :: f.loads[o.name] != s.loaded[u].id
  }

  /** Unloading by a unique ID takes exactly that program away. */
  lemma UnloadNamed(s: NodeState, o: BpfObj, f: Oracle)
    requires Named(s, o) && o.uid in s.loaded && o.name !in f.unloadFails
    ensures
      var u := UnloadProg(s, o, o.id.value, f);
      u.ok && u.s == s.(loaded := u.s.loaded) && SameExcept(s.loaded, u.s.loaded, o.uid) && o.uid !in u.s.loaded
  {
  }

  lemma LoadNamed(t: NodeState, o: BpfObj, c: Ctx, f: Oracle)
    requires IdsUnique(t.loaded) && NewId(t, o, f) && o.name in f.loads
    ensures
      var r := LoadProg(t, o, LoadRequest(c, o), f.loads[o.name], f);
      && r == t.(loaded := r.loaded, progId := Some(f.loads[o.name])) && SameExcept(t.loaded, r.loaded, o.uid)
      && IdsUnique(r.loaded) && JustLoaded(r.loaded, o, c, f)
  {
  }

  /** What a reconcile does to bpfman and says about it. */
  ghost predicate Truthful(s: NodeState, r: Reconciled, o: BpfObj, c: Ctx, deleting: bool, f: Oracle) {
    && r.Reconciled? && r.s.objs == s.objs && SameExcept(s.loaded, r.s.loaded, o.uid) && IdsUnique(r.s.loaded)
    && (forall cond :: cond == r.cond <==> Says(cond, s.loaded, r.s.loaded, o, c, deleting, f))
    && (o.uid in r.s.loaded ==> SameEntry(s.loaded, r.s.loaded, o.uid) || JustLoaded(r.s.loaded, o, c, f))
    && (JustLoaded(r.s.loaded, o, c, f) <==> LoadsNow(s.loaded, o, c, deleting, f))
    && (r.cond == Loaded ==> o.uid in r.s.loaded && r.s.progId == Some(r.s.loaded[o.uid].id))
    && (r.cond != Loaded ==> r.s.progId == if LoadFailed(s.loaded, r.cond, o, f) then None else s.progId)
    && (r.ok <==> r.cond != BytecodeSelectorError && !(LoadFailed(s.loaded, r.cond, o, f) && o.uid in s.loaded))
  }

  /** The reconcile is one that loads: nothing is in the way, and what runs is not what is asked for. */
  ghost predicate LoadsNow(before: map<Uid, LoadedProg>, o: BpfObj, c: Ctx, deleting: bool, f: Oracle) {
    && Wanted(c, o, deleting) && OwnerReady(c.mapOwner) && o.name !in f.requestFails && o.name in f.loads
    && (o.uid in before ==>
          o.name !in f.badIds && o.name !in f.unloadFails && !AsAsked(before[o.uid].request, c, o))
  }

  /** bpfman refused to load. Only for a program that ran before is that an error of the reconcile. */
  ghost predicate LoadFailed(before: map<Uid, LoadedProg>, cond: Cond, o: BpfObj, f: Oracle) {
    cond == NotLoaded && !(o.uid in before && o.name in f.badIds)
  }

  lemma SameBytecodeMeans(actual: Bytecode, wanted: Bytecode)
    ensures SameBytecode(actual, wanted) <==>
            && (actual.Image? && wanted.Image? ==> actual.source == wanted.source)
            && FileOf(actual) == FileOf(wanted)
  {
  }

  /** The comparison in internal/cmp.go accepts exactly what was asked for. */
  lemma ComparesWhatIsAsked(actual: Request, c: Ctx, o: BpfObj)
    ensures DoesProgExist(actual, LoadRequest(c, o)) <==> AsAsked(actual, c, o)
  {
    SameBytecodeMeans(actual.spec.bytecode, c.prog.spec.bytecode);
  }

  lemma ReloadTruth(s: NodeState, o: BpfObj, c: Ctx, f: Oracle)
    requires Named(s, o) && NewId(s, o, f) && o.uid in s.loaded && Wanted(c, o, false) && OwnerReady(c.mapOwner)
    requires !AsAsked(s.loaded[o.uid].request, c, o) && o.name !in f.badIds && o.name !in f.requestFails
    ensures Truthful(s, Reload(s, o, c, LoadRequest(c, o), f), o, c, false, f)
  {
    if o.name !in f.unloadFails {
      UnloadNamed(s, o, f);
      var t := UnloadProg(s, o, o.id.value, f).s;
      AfterUnload(s, t, o, f);
      if o.name in f.loads { LoadNamed(t, o, c, f); }
    }
  }

  lemma AfterUnload(s: NodeState, t: NodeState, o: BpfObj, f: Oracle)
    requires IdsUnique(s.loaded) && NewId(s, o, f) && SameExcept(s.loaded, t.loaded, o.uid) && o.uid !in t.loaded
    ensures IdsUnique(t.loaded) && NewId(t, o, f)
  {
    forall u | u in t.loaded ensures u in s.loaded && s.loaded[u] == t.loaded[u] {
      assert SameEntry(s.loaded, t.loaded, u);
    }
  }

  lemma LoadedTruth(s: NodeState, o: BpfObj, c: Ctx, deleting: bool, f: Oracle)
    requires Named(s, o) && NewId(s, o, f) && o.uid in s.loaded
    ensures Truthful(s, ReconcileLoaded(s, s.loaded[o.uid].request, o, c, deleting, f), o, c, deleting, f)
  {
    ComparesWhatIsAsked(s.loaded[o.uid].request, c, o);
    if o.name in f.badIds {
    } else if Wanted(c, o, deleting) && OwnerReady(c.mapOwner) {
      if o.name !in f.requestFails && !AsAsked(s.loaded[o.uid].request, c, o) { ReloadTruth(s, o, c, f); }
    } else if o.name !in f.unloadFails {
      UnloadNamed(s, o, f);
      AfterUnload(s, UnloadProg(s, o, o.id.value, f).s, o, f);
    }
  }

  lemma UnloadedTruth(s: NodeState, o: BpfObj, c: Ctx, deleting: bool, f: Oracle)
    requires Named(s, o) && NewId(s, o, f) && o.uid !in s.loaded
    ensures Truthful(s, ReconcileUnloaded(s, o, c, deleting, f), o, c, deleting, f)
  {
    if Wanted(c, o, deleting) && OwnerReady(c.mapOwner) && o.name !in f.requestFails && o.name in f.loads {
      LoadNamed(s, o, c, f);
    }
  }

  /**
   Whatever fails, the condition that reconcileBpfProgram returns is decided by what is wanted and by what bpfman has
   afterwards: each condition is returned if and only if `Says` holds of it.
   */
  lemma ReconcileTruth(s: NodeState, listed: map<Uid, LoadedProg>, o: BpfObj, c: Ctx, deleting: bool, f: Oracle)
    requires Named(s, o) && NewId(s, o, f) && SameEntry(listed, s.loaded, o.uid)
    ensures Truthful(s, ReconcileBpf(s, listed, o, c, deleting, f), o, c, deleting, f)
  {
    if o.uid in s.loaded { LoadedTruth(s, o, c, deleting, f); } else { UnloadedTruth(s, o, c, deleting, f); }
  }

  /**
   The operator takes a condition for a failure if and only if bpfman does not have what is wanted of the BpfProgram,
   or the agent could not find out.
   */
  lemma FailureExactly(s: NodeState, listed: map<Uid, LoadedProg>, o: BpfObj, c: Ctx, deleting: bool, f: Oracle)
    requires Named(s, o) && NewId(s, o, f) && SameEntry(listed, s.loaded, o.uid)
    ensures
      var r := ReconcileBpf(s, listed, o, c, deleting, f);
      && r.Reconciled?
      && (IsConditionFailure([r.cond]) <==>
            !Fulfilled(r.s.loaded, o, c, deleting, f) || Unknown(s.loaded, o, c, deleting, f))
  {
    var r := ReconcileBpf(s, listed, o, c, deleting, f);
    ReconcileTruth(s, listed, o, c, deleting, f);
    assert Says(r.cond, s.loaded, r.s.loaded, o, c, deleting, f);
  }

  /**
   A change of anything the request is made of, say of the map owner's ID, makes the next reconcile load the program
   anew, with exactly what is asked for now.
   */
  lemma ChangeReloads(s: NodeState, listed: map<Uid, LoadedProg>, o: BpfObj, c: Ctx, f: Oracle)
    requires Named(s, o) && NewId(s, o, f) && SameEntry(listed, s.loaded, o.uid) && o.uid in s.loaded
    requires Wanted(c, o, false) && OwnerReady(c.mapOwner) && !AsAsked(s.loaded[o.uid].request, c, o)
    requires o.name !in f.badIds + f.requestFails + f.unloadFails && o.name in f.loads
    ensures
      var r := ReconcileBpf(s, listed, o, c, false, f);
      && r.Reconciled? && o.uid in r.s.loaded && r.s.loaded[o.uid].id == f.loads[o.name]
      && r.s.loaded[o.uid].request == Request(c.prog.name, f.lists(c.prog.spec), o.uid, o.attach, c.mapOwner.id)
  {
    ReconcileTruth(s, listed, o, c, false, f);
  }

  /**
   In any state at all: a reconcile dereferences a missing ID annotation if and only if the program is listed and has
   to be unloaded.
   */
  lemma NilIdCrashes(s: NodeState, listed: map<Uid, LoadedProg>, o: BpfObj, c: Ctx, deleting: bool, f: Oracle)
    ensures ReconcileBpf(s, listed, o, c, deleting, f).Crash? <==>
            && o.uid in listed && o.id.None? && o.name !in f.badIds
            && (Wanted(c, o, deleting) && OwnerReady(c.mapOwner) ==>
                  o.name !in f.requestFails && !AsAsked(listed[o.uid].request, c, o))
  {
    if o.uid in listed { ComparesWhatIsAsked(listed[o.uid].request, c, o); }
  }
}
