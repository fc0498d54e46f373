/** The cluster-wide operator (bpfman-operator/controllers/bpfman-operator/common.go). */
module OperatorModel {
  import opened Wrappers
  import opened AgentModel

  /** ProgramConditionType. */
  datatype ProgCond = NotYetLoaded | ReconcileError | ReconcileSuccess | DeleteError

  /** A *Program object as the API server stores it. `opFinalizer` is the operator's finalizer. */
  datatype ProgRecord = ProgRecord(spec: Spec, deleting: bool, opFinalizer: bool, conds: seq<ProgCond>)

  /** The one thing a reconcile of the operator decides to write; the names go into the status message. */
  datatype Decision = AddFinalizer | RemoveOpFinalizer | SetStatus(cond: ProgCond, names: seq<ObjName>)

  /** IsBpfProgramConditionFailure: a BpfProgram without conditions has not been dealt with yet. */
  predicate IsConditionFailure(conds: seq<Cond>) {
    || conds == []
    || conds[0] in {NotLoaded, NotUnloaded, MapOwnerNotFound, MapOwnerNotLoaded, BytecodeSelectorError}
  }

  predicate HasProgram(items: seq<BpfObj>, node: NodeName) {
    exists i :: 0 <= i < |items| && items[i].node == node
  }

  /** The listed BpfPrograms that still carry the agents' finalizer, in list order. */
  function WithFinalizer(items: seq<BpfObj>): (names: seq<ObjName>)
    ensures names == [] <==> forall i | 0 <= i < |items| :: !items[i].finalizer
    ensures forall n :: n in names <==> exists i :: 0 <= i < |items| && items[i].finalizer && items[i].name == n
  {
    if items == [] then []
    else
      var last := items[|items| - 1];
      WithFinalizer(items[..|items| - 1]) + if last.finalizer then [last.name] else []
  }

  /** The listed BpfPrograms whose first condition reports a failure, in list order. */
  function Failed(items: seq<BpfObj>): (names: seq<ObjName>)
    ensures names == [] <==> forall i | 0 <= i < |items| :: !IsConditionFailure(items[i].conds)
    ensures forall n :: n in names <==>
            exists i :: 0 <= i < |items| && IsConditionFailure(items[i].conds) && items[i].name == n
  {
    if items == [] then []
    else
      var last := items[|items| - 1];
      assert items == items[..|items| - 1] + [last];
      Failed(items[..|items| - 1]) + if IsConditionFailure(last.conds) then [last.name] else []
  }

  /** What the operator decides, given the *Program, its listed BpfPrograms and the cluster's nodes. */
  function Decide(prog: ProgRecord, items: seq<BpfObj>, nodes: seq<NodeName>): Decision {
    if !prog.opFinalizer then AddFinalizer
    else if prog.deleting then
      if WithFinalizer(items) == [] then RemoveOpFinalizer else SetStatus(DeleteError, WithFinalizer(items))
    else if exists d :: d in nodes && !HasProgram(items, d) then SetStatus(NotYetLoaded, [])
    else if Failed(items) != [] then SetStatus(ReconcileError, Failed(items))
    else SetStatus(ReconcileSuccess, [])
  }

  /** When the operator reports success for a live *Program. */
  lemma SuccessExact(prog: ProgRecord, items: seq<BpfObj>, nodes: seq<NodeName>)
    requires prog.opFinalizer && !prog.deleting
    ensures Decide(prog, items, nodes) == SetStatus(ReconcileSuccess, []) <==>
            (forall d | d in nodes :: HasProgram(items, d)) && (forall o | o in items :: !IsConditionFailure(o.conds))
  {
    assert forall i | 0 <= i < |items| :: items[i] in items;
  }

  /** updateCondition: keep a single, current condition. */
  function UpdateCondition(conds: seq<ProgCond>, cond: ProgCond): seq<ProgCond> {
    if conds == [cond] then conds else [cond]
  }

  /** reconcileBpfProgram, loop by loop. */
  method ReconcileBpfProgram(prog: ProgRecord, items: seq<BpfObj>, nodes: seq<NodeName>) returns (d: Decision)
    ensures d == Decide(prog, items, nodes)
  {
    if !prog.opFinalizer {
      return AddFinalizer;
    }
    if !prog.deleting {
      for k := 0 to |nodes|
        invariant forall j | 0 <= j < k :: HasProgram(items, nodes[j])
      {
        var found := false;
        for i := 0 to |items|
          invariant found <==> exists j :: 0 <= j < i && items[j].node == nodes[k]
        {
          if items[i].node == nodes[k] {
            found := true;
            break;
          }
        }
        if !found {
          assert !HasProgram(items, nodes[k]);
          return SetStatus(NotYetLoaded, []);
        }
      }
    }
    var failed, finalApplied := [], [];
    for i := 0 to |items|
      invariant finalApplied == WithFinalizer(items[..i]) && failed == Failed(items[..i])
    {
      assert items[..i + 1][..i] == items[..i];
      if items[i].finalizer {
        finalApplied := finalApplied + [items[i].name];
      }
      if IsConditionFailure(items[i].conds) {
        failed := failed + [items[i].name];
      }
    }
    assert items[..|items|] == items;
    if prog.deleting {
      if |finalApplied| == 0 {
        return RemoveOpFinalizer;
      }
      return SetStatus(DeleteError, finalApplied);
    }
    if |failed| != 0 {
      return SetStatus(ReconcileError, failed);
    }
    return SetStatus(ReconcileSuccess, []);
  }
}
