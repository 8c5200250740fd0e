/**
  The Validate pass over a lowered IR unit: per-kind boundary checks, the
  universal port check, the LoopEnd / LoopInfo consistency check and the
  global buffer-cluster check. Every failed assertion of the pass becomes a
  Fail outcome naming the violated invariant.
*/
module ValidatePass {
  import opened Outcomes
  import opened LoweredIR

  /** Why a per-expression check failed. */
  datatype CheckError =
    | UnexpectedKind                        // "<X> validation expects <X> op"
    | MissingConnector                      // the expression has no port connector 0
    | LayoutIndexOutOfRange                 // max layout index >= shape rank
    | ShapeLayoutLengthMismatch             // shape and layout lengths differ
    | ParameterConsumerNotMemoryAccessPort  // MemoryAccess consumer on a non-MemoryAccess port
    | ParameterConsumerNotLoopEnd           // consumer is neither MemoryAccess nor LoopEnd
    | InconsistentParameterLayouts          // MemoryAccess consumers do not share exactly one layout
    | ResultParentNotMemoryAccess
    | BufferParentNotMemoryAccess
    | BufferSiblingNotLoopEnd
    | BufferConsumerNotMemoryAccessPort
    | BufferConsumerNotLoopEnd
    | MissingLoopBegin
    | MissingLoopInfo
    | IncompatibleLoopBounds                // work amount or increment differ
    | IncompatiblePortCounts                // port-info counts differ from input/output numbers
    | IncompatiblePtrShifts                 // a per-port field differs
    | SelfCheckFailed                       // the node's own validate() failed

  /** Why the buffer-cluster check failed. */
  datatype ClusterError =
    | NotABuffer               // a registry entry is not a Buffer
    | IncorrectClusterCount    // distinct ids != static clusters + dynamic clusters
    | IncorrectClusterIds      // the ids are not 0 .. N-1
    | StaticOffsetMismatch     // two static buffers of one cluster have different offsets

  // ---------------------------------------------------------------------
  // Port descriptors
  // ---------------------------------------------------------------------

  /** The largest element of a non-empty sequence (std::max_element). */
  function SeqMax(s: seq<nat>): (m: nat)
    requires |s| > 0
    ensures m in s
    ensures forall i :: 0 <= i < |s| ==> s[i] <= m
  {
    if |s| == 1 then s[0]
    else
      var rest := SeqMax(s[1..]);
      if s[0] < rest then rest else s[0]
  }

  /** The descriptor invariant: as many layout entries as shape dimensions,
      each addressing an existing dimension. */
  predicate DescriptorOk(d: PortDescriptor)
  {
    && |d.shape| == |d.layout|
    && forall i :: 0 <= i < |d.layout| ==> d.layout[i] < |d.shape|
  }

  /** The descriptor lambda of validate_ports: the maximum layout index is
      checked before the lengths. An empty layout has no maximum. */
  function ValidateDescriptor(d: PortDescriptor): (r: Outcome<CheckError>)
    requires |d.layout| > 0
    ensures r.Pass? <==> DescriptorOk(d)
    ensures r == Fail(LayoutIndexOutOfRange) <==>
              exists i :: 0 <= i < |d.layout| && d.layout[i] >= |d.shape|
    ensures r.Fail? ==> r.error == LayoutIndexOutOfRange || r.error == ShapeLayoutLengthMismatch
  {
    var maxDim := SeqMax(d.layout);
    if !(maxDim < |d.shape|) then Fail(LayoutIndexOutOfRange)
    else if |d.shape| != |d.layout| then Fail(ShapeLayoutLengthMismatch)
    else Pass
  }

  /** Every descriptor before `i` passes: the lambda reaches descriptor `i`. */
  predicate DescriptorsOkBefore(ds: seq<PortDescriptor>, i: nat)
    requires i <= |ds|
  {
    forall j :: 0 <= j < i ==> DescriptorOk(ds[j])
  }

  /** Every descriptor the lambda reaches has a layout: the maximum of an
      empty layout is undefined, and the first failure ends the scan. */
  predicate ReachedLayoutsNonEmpty(ds: seq<PortDescriptor>)
  {
    forall i :: 0 <= i < |ds| && DescriptorsOkBefore(ds, i) ==> |ds[i].layout| > 0
  }

  /** Descriptor `i` is the first that fails. */
  predicate FirstBadDescriptor(ds: seq<PortDescriptor>, i: nat)
  {
    i < |ds| && !DescriptorOk(ds[i]) && DescriptorsOkBefore(ds, i)
  }

  /** std::for_each of the descriptor lambda: the first failing descriptor
      decides the outcome. */
  function ValidateDescriptors(ds: seq<PortDescriptor>): (r: Outcome<CheckError>)
    requires ReachedLayoutsNonEmpty(ds)
    ensures r.Pass? <==> forall i :: 0 <= i < |ds| ==> DescriptorOk(ds[i])
    ensures r.Fail? ==> exists i: nat :: FirstBadDescriptor(ds, i) && ValidateDescriptor(ds[i]) == r
  {
    if |ds| == 0 then Pass
    else
      assert DescriptorsOkBefore(ds, 0);
      match ValidateDescriptor(ds[0])
      case Fail(err) =>
        assert FirstBadDescriptor(ds, 0);
        Fail(err)
      case Pass =>
        DescriptorsShift(ds);
        var r := ValidateDescriptors(ds[1..]);
        assert forall i :: 1 <= i < |ds| ==> ds[i] == ds[1..][i - 1];
        assert r.Fail? ==> exists i: nat :: FirstBadDescriptor(ds[1..], i) && ValidateDescriptor(ds[1..][i]) == r;
        r
  }

  /** With the first descriptor passing, the rest are reached as in the
      whole list, one position earlier. */
  lemma DescriptorsShift(ds: seq<PortDescriptor>)
    requires |ds| > 0 && DescriptorOk(ds[0]) && ReachedLayoutsNonEmpty(ds)
    ensures ReachedLayoutsNonEmpty(ds[1..])
    ensures forall i: nat :: FirstBadDescriptor(ds[1..], i) ==> FirstBadDescriptor(ds, i + 1)
  {
    forall i | 0 <= i < |ds[1..]| && DescriptorsOkBefore(ds[1..], i)
      ensures DescriptorsOkBefore(ds, i + 1)
    {
      forall j | 0 <= j < i + 1 ensures DescriptorOk(ds[j]) {
        if j > 0 {
          assert ds[j] == ds[1..][j - 1];
        }
      }
    }
  }

  /** The descriptors validate_ports reaches have layouts: every input
      descriptor it reaches, and the output descriptors once all inputs
      pass. */
  predicate PortLayoutsDefined(x: Expression)
  {
    && ReachedLayoutsNonEmpty(x.inputDescs)
    && ((forall i :: 0 <= i < |x.inputDescs| ==> DescriptorOk(x.inputDescs[i])) ==>
          ReachedLayoutsNonEmpty(x.outputDescs))
  }

  predicate PortsOk(x: Expression)
  {
    && (forall i :: 0 <= i < |x.inputDescs| ==> DescriptorOk(x.inputDescs[i]))
    && (forall i :: 0 <= i < |x.outputDescs| ==> DescriptorOk(x.outputDescs[i]))
  }

  /** validate_ports: input descriptors first, then output descriptors. */
  function ValidatePorts(x: Expression): (r: Outcome<CheckError>)
    requires PortLayoutsDefined(x)
    ensures r.Pass? <==> PortsOk(x)
    ensures (exists i :: 0 <= i < |x.inputDescs| && !DescriptorOk(x.inputDescs[i])) ==>
              r == ValidateDescriptors(x.inputDescs) && r.Fail?
    ensures (forall i :: 0 <= i < |x.inputDescs| ==> DescriptorOk(x.inputDescs[i])) ==>
              r == ValidateDescriptors(x.outputDescs)
    ensures r.Fail? ==> r.error == LayoutIndexOutOfRange || r.error == ShapeLayoutLengthMismatch
  {
    match ValidateDescriptors(x.inputDescs)
    case Fail(err) => Fail(err)
    case Pass => ValidateDescriptors(x.outputDescs)
  }

  // ---------------------------------------------------------------------
  // Parameter, Result and Buffer boundaries
  // ---------------------------------------------------------------------

  /** A consumer a Parameter or a Buffer output may feed: a MemoryAccess node
      reading on a MemoryAccess input port; a node that is not MemoryAccess
      only if it is a LoopEnd. A MemoryAccess node on another port is refused
      even when it is a LoopEnd. */
  predicate FeedsMemoryAccessOrLoopEnd(ir: LinearIR, c: ExprPort)
    requires c.expr < |ir.exprs|
  {
    var x := ir.exprs[c.expr];
    match x.memoryAccess
    case Some(ma) => ma.IsMemoryAccessInputPort(c.index)
    case None => x.kind.LoopEnd?
  }

  predicate IsMemoryAccessConsumer(ir: LinearIR, c: ExprPort)
    requires c.expr < |ir.exprs|
  {
    ir.exprs[c.expr].memoryAccess.Some?
  }

  predicate PortsInRange(ir: LinearIR, cs: seq<ExprPort>)
  {
    forall k :: 0 <= k < |cs| ==> PortInRange(ir, cs[k])
  }

  /** The distinct layouts recorded on the MemoryAccess consumers in `cs`. */
  ghost function MemoryAccessLayouts(ir: LinearIR, cs: seq<ExprPort>): set<seq<nat>>
    requires PortsInRange(ir, cs)
  {
    set k | 0 <= k < |cs| && IsMemoryAccessConsumer(ir, cs[k]) :: ConsumerLayout(ir, cs[k])
  }

  /** Consumer `k` is the first in `cs` that feeds neither a MemoryAccess
      input port nor a LoopEnd: the consumer at which the scan of
      validate_parameter or validate_buffer stops. */
  predicate FirstRefusedConsumer(ir: LinearIR, cs: seq<ExprPort>, k: nat)
    requires PortsInRange(ir, cs)
  {
    && k < |cs|
    && !FeedsMemoryAccessOrLoopEnd(ir, cs[k])
    && forall j :: 0 <= j < k ==> FeedsMemoryAccessOrLoopEnd(ir, cs[j])
  }

  /** The error a consumer scan reports at its first refused consumer: a
      MemoryAccess node on the wrong port, or a node that is neither
      MemoryAccess nor a LoopEnd. */
  ghost predicate RefusedAsMemoryAccess(ir: LinearIR, cs: seq<ExprPort>)
    requires PortsInRange(ir, cs)
  {
    exists k: nat :: FirstRefusedConsumer(ir, cs, k) && IsMemoryAccessConsumer(ir, cs[k])
  }

  /** What validate_parameter accepts: every consumer of the (shape-infer
      skipped) output feeds MemoryAccess or LoopEnd, and the MemoryAccess
      consumers record exactly one layout. */
  ghost predicate ParameterOk(ir: LinearIR, e: ExprId)
    requires WellFormed(ir) && e < |ir.exprs|
  {
    && ir.exprs[e].kind.Parameter?
    && var v := ChildValueExpr(ir, e);
    && |ir.exprs[v].outputs| > 0
    && var cs := OutputConnector(ir, v, 0).consumers;
    && (forall k :: 0 <= k < |cs| ==> FeedsMemoryAccessOrLoopEnd(ir, cs[k]))
    && |MemoryAccessLayouts(ir, cs)| == 1
  }

  /** The error the consumer loop of validate_parameter reports: at the
      first refused consumer, the port error for a MemoryAccess node and the
      LoopEnd error for any other node; when every consumer is accepted, the
      layout error. */
  ghost function ParameterConsumersError(ir: LinearIR, cs: seq<ExprPort>): CheckError
    requires PortsInRange(ir, cs)
  {
    if RefusedAsMemoryAccess(ir, cs) then ParameterConsumerNotMemoryAccessPort
    else if exists k: nat :: FirstRefusedConsumer(ir, cs, k) then ParameterConsumerNotLoopEnd
    else InconsistentParameterLayouts
  }

  /** The error validate_parameter reports when it fails: the first of its
      assertions, in the order the source makes them, that does not hold. */
  ghost function ParameterError(ir: LinearIR, e: ExprId): CheckError
    requires WellFormed(ir) && e < |ir.exprs|
  {
    if !ir.exprs[e].kind.Parameter? then UnexpectedKind
    else
      var v := ChildValueExpr(ir, e);
      if |ir.exprs[v].outputs| == 0 then MissingConnector
      else ParameterConsumersError(ir, OutputConnector(ir, v, 0).consumers)
  }

  method ValidateParameter(ir: LinearIR, e: ExprId) returns (r: Outcome<CheckError>)
    requires WellFormed(ir) && e < |ir.exprs|
    ensures r.Pass? <==> ParameterOk(ir, e)
    ensures r.Fail? ==> r.error == ParameterError(ir, e)
  {
    if !ir.exprs[e].kind.Parameter? {
      return Fail(UnexpectedKind);
    }
    var v := ChildValueExpr(ir, e);
    if |ir.exprs[v].outputs| == 0 {
      return Fail(MissingConnector);
    }
    r := CheckParameterConsumers(ir, OutputConnector(ir, v, 0).consumers);
  }

  /** The consumer loop of validate_parameter and its final layout count. */
  method CheckParameterConsumers(ir: LinearIR, consumers: seq<ExprPort>) returns (r: Outcome<CheckError>)
    requires PortsInRange(ir, consumers)
    ensures r.Pass? <==>
              && (forall k :: 0 <= k < |consumers| ==> FeedsMemoryAccessOrLoopEnd(ir, consumers[k]))
              && |MemoryAccessLayouts(ir, consumers)| == 1
    ensures r.Fail? ==> r.error == ParameterConsumersError(ir, consumers)
  {
    var layouts: set<seq<nat>> := {};
    for k := 0 to |consumers|
      invariant forall j :: 0 <= j < k ==> FeedsMemoryAccessOrLoopEnd(ir, consumers[j])
      invariant layouts == MemoryAccessLayouts(ir, consumers[..k])
    {
      var c := consumers[k];
      var x := ir.exprs[c.expr];
      assert consumers[..k + 1] == consumers[..k] + [c];
      if x.memoryAccess.Some? {
        if !x.memoryAccess.value.IsMemoryAccessInputPort(c.index) {
          assert FirstRefusedConsumer(ir, consumers, k);
          return Fail(ParameterConsumerNotMemoryAccessPort);
        }
        layouts := layouts + {x.inputDescs[c.index].layout};
      } else if !x.kind.LoopEnd? {
        assert FirstRefusedConsumer(ir, consumers, k);
        FirstRefusedConsumerUnique(ir, consumers, k);
        return Fail(ParameterConsumerNotLoopEnd);
      }
      LayoutsStep(ir, consumers, k);
    }
    assert consumers[..|consumers|] == consumers;
    if |layouts| != 1 {
      return Fail(InconsistentParameterLayouts);
    }
    return Pass;
  }

  /** A scan stops at one consumer only. */
  lemma FirstRefusedConsumerUnique(ir: LinearIR, cs: seq<ExprPort>, k: nat)
    requires PortsInRange(ir, cs) && FirstRefusedConsumer(ir, cs, k)
    ensures forall j: nat :: FirstRefusedConsumer(ir, cs, j) ==> j == k
  {
  }

  /** Extending the consumer prefix by one adds that consumer's layout when it
      is a MemoryAccess consumer, and nothing otherwise. */
  lemma LayoutsStep(ir: LinearIR, cs: seq<ExprPort>, k: nat)
    requires PortsInRange(ir, cs) && k < |cs|
    ensures PortsInRange(ir, cs[..k]) && PortsInRange(ir, cs[..k + 1])
    ensures MemoryAccessLayouts(ir, cs[..k + 1]) ==
              MemoryAccessLayouts(ir, cs[..k]) +
              (if IsMemoryAccessConsumer(ir, cs[k]) then {ConsumerLayout(ir, cs[k])} else {})
  {
    var a, b := cs[..k], cs[..k + 1];
    assert forall j :: 0 <= j < k ==> b[j] == a[j];
    assert b[k] == cs[k];
    forall l | l in MemoryAccessLayouts(ir, b)
      ensures l in MemoryAccessLayouts(ir, a) + (if IsMemoryAccessConsumer(ir, cs[k]) then {ConsumerLayout(ir, cs[k])} else {})
    {
      var j :| 0 <= j < |b| && IsMemoryAccessConsumer(ir, b[j]) && ConsumerLayout(ir, b[j]) == l;
      if j < k {
        assert a[j] == b[j];
      }
    }
    forall l | l in MemoryAccessLayouts(ir, a)
      ensures l in MemoryAccessLayouts(ir, b)
    {
      var j :| 0 <= j < |a| && IsMemoryAccessConsumer(ir, a[j]) && ConsumerLayout(ir, a[j]) == l;
      assert b[j] == a[j];
    }
  }

  /** What validate_result accepts: the node producing the value of the
      (shape-infer skipped) first input is MemoryAccess on exactly that
      output port. */
  ghost predicate ResultOk(ir: LinearIR, e: ExprId)
    requires WellFormed(ir) && e < |ir.exprs|
  {
    && ir.exprs[e].kind.Result?
    && var v := ParentValueExpr(ir, e);
    && |ir.exprs[v].inputs| > 0
    && var source := InputConnector(ir, v, 0).source;
    && match ir.exprs[source.expr].memoryAccess
       case Some(ma) => source.index in ma.outputPorts
       case None => false
  }

  function ValidateResult(ir: LinearIR, e: ExprId): (r: Outcome<CheckError>)
    requires WellFormed(ir) && e < |ir.exprs|
    ensures r.Pass? <==> ResultOk(ir, e)
    ensures r == Fail(UnexpectedKind) <==> !ir.exprs[e].kind.Result?
    ensures r == Fail(MissingConnector) <==>
              ir.exprs[e].kind.Result? && |ir.exprs[ParentValueExpr(ir, e)].inputs| == 0
    ensures r == Fail(ResultParentNotMemoryAccess) <==>
              ir.exprs[e].kind.Result? && |ir.exprs[ParentValueExpr(ir, e)].inputs| > 0 && !ResultOk(ir, e)
  {
    if !ir.exprs[e].kind.Result? then Fail(UnexpectedKind)
    else
      var v := ParentValueExpr(ir, e);
      if |ir.exprs[v].inputs| == 0 then Fail(MissingConnector)
      else
        var source := InputConnector(ir, v, 0).source;
        var ma := ir.exprs[source.expr].memoryAccess;
        if ma.Some? && ma.value.IsMemoryAccessOutputPort(source.index) then Pass
        else Fail(ResultParentNotMemoryAccess)
  }

  /** The producer of a Buffer input, as validate_buffer checks it: it is
      MemoryAccess and its *input*-port query holds for the producing
      output's index (the source asks is_memory_access_input_port here). */
  predicate BufferProducerOk(ir: LinearIR, source: ExprPort)
    requires source.expr < |ir.exprs|
  {
    match ir.exprs[source.expr].memoryAccess
    case Some(ma) => ma.IsMemoryAccessInputPort(source.index)
    case None => false
  }

  /** Every other consumer of a value feeding the Buffer is the Buffer itself
      or a LoopEnd. */
  predicate SiblingsOk(ir: LinearIR, e: ExprId, cs: seq<ExprPort>)
    requires PortsInRange(ir, cs)
  {
    forall k :: 0 <= k < |cs| ==> cs[k].expr == e || ir.exprs[cs[k].expr].kind.LoopEnd?
  }

  /** Input `k` of a Buffer passes: its producer and its siblings. */
  predicate InputAccepted(ir: LinearIR, e: ExprId, k: nat)
    requires WellFormed(ir) && e < |ir.exprs| && k < |ir.exprs[e].inputs|
  {
    && BufferProducerOk(ir, InputConnector(ir, e, k).source)
    && SiblingsOk(ir, e, InputConnector(ir, e, k).consumers)
  }

  predicate BufferInputsOk(ir: LinearIR, e: ExprId)
    requires WellFormed(ir) && e < |ir.exprs|
  {
    forall k :: 0 <= k < |ir.exprs[e].inputs| ==> InputAccepted(ir, e, k)
  }

  /** Input `k` is the first input of the Buffer that does not pass. */
  predicate FirstRefusedInput(ir: LinearIR, e: ExprId, k: nat)
    requires WellFormed(ir) && e < |ir.exprs|
  {
    && k < |ir.exprs[e].inputs|
    && !InputAccepted(ir, e, k)
    && forall j :: 0 <= j < k ==> InputAccepted(ir, e, j)
  }

  /** The error the output loop of validate_buffer reports at its first
      refused consumer; it is only reached when some consumer is refused. */
  ghost function BufferConsumersError(ir: LinearIR, cs: seq<ExprPort>): CheckError
    requires PortsInRange(ir, cs)
  {
    if RefusedAsMemoryAccess(ir, cs) then BufferConsumerNotMemoryAccessPort else BufferConsumerNotLoopEnd
  }

  /** The error validate_buffer reports when it fails: at the first refused
      input the producer is asked before the siblings; then the output is
      fetched and its consumers scanned. */
  ghost function BufferError(ir: LinearIR, e: ExprId): CheckError
    requires WellFormed(ir) && e < |ir.exprs|
  {
    if !ir.exprs[e].kind.Buffer? then UnexpectedKind
    else if exists k: nat :: FirstRefusedInput(ir, e, k) && !BufferProducerOk(ir, InputConnector(ir, e, k).source)
    then BufferParentNotMemoryAccess
    else if !BufferInputsOk(ir, e) then BufferSiblingNotLoopEnd
    else
      var v := ChildValueExpr(ir, e);
      if |ir.exprs[v].outputs| == 0 then MissingConnector
      else BufferConsumersError(ir, OutputConnector(ir, v, 0).consumers)
  }

  /** Only one input is the first refused one. */
  lemma FirstRefusedInputUnique(ir: LinearIR, e: ExprId, k: nat)
    requires WellFormed(ir) && e < |ir.exprs| && FirstRefusedInput(ir, e, k)
    ensures forall j: nat :: FirstRefusedInput(ir, e, j) ==> j == k
  {
  }

  /** What validate_buffer accepts. */
  ghost predicate BufferOk(ir: LinearIR, e: ExprId)
    requires WellFormed(ir) && e < |ir.exprs|
  {
    && ir.exprs[e].kind.Buffer?
    && BufferInputsOk(ir, e)
    && var v := ChildValueExpr(ir, e);
    && |ir.exprs[v].outputs| > 0
    && var cs := OutputConnector(ir, v, 0).consumers;
    && forall k :: 0 <= k < |cs| ==> FeedsMemoryAccessOrLoopEnd(ir, cs[k])
  }

  method ValidateBuffer(ir: LinearIR, e: ExprId) returns (r: Outcome<CheckError>)
    requires WellFormed(ir) && e < |ir.exprs|
    ensures r.Pass? <==> BufferOk(ir, e)
    ensures r.Fail? ==> r.error == BufferError(ir, e)
  {
    if !ir.exprs[e].kind.Buffer? {
      return Fail(UnexpectedKind);
    }
    r := CheckBufferInputs(ir, e);
    if r.Fail? {
      return;
    }
    var v := ChildValueExpr(ir, e);
    if |ir.exprs[v].outputs| == 0 {
      return Fail(MissingConnector);
    }
    r := CheckBufferConsumers(ir, OutputConnector(ir, v, 0).consumers);
  }

  /** The input loop of validate_buffer: each input's producer, then the
      other readers of that input. */
  method CheckBufferInputs(ir: LinearIR, e: ExprId) returns (r: Outcome<CheckError>)
    requires WellFormed(ir) && e < |ir.exprs|
    ensures r.Pass? <==> BufferInputsOk(ir, e)
    ensures r == Fail(BufferParentNotMemoryAccess) <==>
              exists k: nat :: FirstRefusedInput(ir, e, k) && !BufferProducerOk(ir, InputConnector(ir, e, k).source)
    ensures r.Fail? ==> r.error == BufferParentNotMemoryAccess || r.error == BufferSiblingNotLoopEnd
  {
    var inputs := ir.exprs[e].inputs;
    for k := 0 to |inputs|
      invariant forall j :: 0 <= j < k ==> InputAccepted(ir, e, j)
    {
      var input := InputConnector(ir, e, k);
      var source := input.source;
      var ma := ir.exprs[source.expr].memoryAccess;
      if !(ma.Some? && ma.value.IsMemoryAccessInputPort(source.index)) {
        assert FirstRefusedInput(ir, e, k);
        return Fail(BufferParentNotMemoryAccess);
      }
      var siblings := input.consumers;
      for s := 0 to |siblings|
        invariant forall j :: 0 <= j < s ==> siblings[j].expr == e || ir.exprs[siblings[j].expr].kind.LoopEnd?
      {
        var sibling := siblings[s].expr;
        if !(sibling == e || ir.exprs[sibling].kind.LoopEnd?) {
          assert FirstRefusedInput(ir, e, k);
          FirstRefusedInputUnique(ir, e, k);
          return Fail(BufferSiblingNotLoopEnd);
        }
      }
    }
    return Pass;
  }

  /** The output loop of validate_buffer. */
  method CheckBufferConsumers(ir: LinearIR, consumers: seq<ExprPort>) returns (r: Outcome<CheckError>)
    requires PortsInRange(ir, consumers)
    ensures r.Pass? <==> forall k :: 0 <= k < |consumers| ==> FeedsMemoryAccessOrLoopEnd(ir, consumers[k])
    ensures r.Fail? ==> r.error == BufferConsumersError(ir, consumers)
  {
    for k := 0 to |consumers|
      invariant forall j :: 0 <= j < k ==> FeedsMemoryAccessOrLoopEnd(ir, consumers[j])
    {
      var c := consumers[k];
      var x := ir.exprs[c.expr];
      if x.memoryAccess.Some? {
        if !x.memoryAccess.value.IsMemoryAccessInputPort(c.index) {
          assert FirstRefusedConsumer(ir, consumers, k);
          return Fail(BufferConsumerNotMemoryAccessPort);
        }
      } else if !x.kind.LoopEnd? {
        FirstRefusedConsumerUnique(ir, consumers, k);
        return Fail(BufferConsumerNotLoopEnd);
      }
    }
    return Pass;
  }

  // ---------------------------------------------------------------------
  // LoopEnd against LoopInfo
  // ---------------------------------------------------------------------

  /** Entry `k` of the LoopEnd's flat arrays agrees with a LoopInfo port. */
  predicate PortInfoMatches(d: LoopEndData, k: nat, p: LoopPortInfo)
    requires k < |d.isIncremented| && k < |d.ptrIncrements| && k < |d.finalizationOffsets|
  {
    && d.isIncremented[k] == p.isIncremented
    && d.ptrIncrements[k] == p.ptrIncrement
    && d.finalizationOffsets[k] == p.finalizationOffset
  }

  predicate ArraysCoverFrom(d: LoopEndData, shift: nat, n: nat)
  {
    shift + n <= |d.isIncremented| && shift + n <= |d.ptrIncrements| && shift + n <= |d.finalizationOffsets|
  }

  predicate PortsMatchFrom(d: LoopEndData, shift: nat, infos: seq<LoopPortInfo>)
    requires ArraysCoverFrom(d, shift, |infos|)
  {
    forall i :: 0 <= i < |infos| ==> PortInfoMatches(d, shift + i, infos[i])
  }

  /** The validate_loop_ports lambda: port `i` of `infos` is compared with
      entry `i + shift` of the flat arrays. */
  method ValidateLoopPorts(d: LoopEndData, infos: seq<LoopPortInfo>, shift: nat) returns (r: Outcome<CheckError>)
    requires ArraysCoverFrom(d, shift, |infos|)
    ensures r.Pass? <==> PortsMatchFrom(d, shift, infos)
    ensures r.Fail? ==> r.error == IncompatiblePtrShifts
  {
    for i := 0 to |infos|
      invariant forall j :: 0 <= j < i ==> PortInfoMatches(d, shift + j, infos[j])
    {
      if !(d.isIncremented[i + shift] == infos[i].isIncremented &&
           d.ptrIncrements[i + shift] == infos[i].ptrIncrement &&
           d.finalizationOffsets[i + shift] == infos[i].finalizationOffset) {
        return Fail(IncompatiblePtrShifts);
      }
    }
    return Pass;
  }

  /** The LoopEnd's inline copy agrees with the LoopInfo field by field,
      output ports stored after the input ports. */
  predicate InlineCopyAgrees(d: LoopEndData, info: LoopInfo)
    requires LoopEndArraysCover(d)
  {
    && d.workAmount == info.workAmount
    && d.increment == info.increment
    && |info.inputPorts| == d.inputNum
    && |info.outputPorts| == d.outputNum
    && PortsMatchFrom(d, 0, info.inputPorts)
    && PortsMatchFrom(d, d.inputNum, info.outputPorts)
  }

  /** What validate_loop_end accepts. */
  ghost predicate LoopEndOk(ir: LinearIR, e: ExprId)
    requires WellFormed(ir) && e < |ir.exprs|
  {
    && ir.exprs[e].kind.LoopEnd?
    && var d := ir.exprs[e].kind.loop;
    && d.loopBegin.Some?
    && d.id in ir.loopManager
    && InlineCopyAgrees(d, ir.loopManager[d.id])
  }

  /** A LoopEnd with a LoopBegin whose loop id the loop manager knows: the
      point from which validate_loop_end compares with the LoopInfo. */
  predicate LoopInfoFound(ir: LinearIR, e: ExprId)
    requires e < |ir.exprs|
  {
    && ir.exprs[e].kind.LoopEnd?
    && ir.exprs[e].kind.loop.loopBegin.Some?
    && ir.exprs[e].kind.loop.id in ir.loopManager
  }

  predicate BoundsAgree(ir: LinearIR, e: ExprId)
    requires e < |ir.exprs| && LoopInfoFound(ir, e)
  {
    var d := ir.exprs[e].kind.loop;
    d.workAmount == ir.loopManager[d.id].workAmount && d.increment == ir.loopManager[d.id].increment
  }

  predicate PortCountsAgree(ir: LinearIR, e: ExprId)
    requires e < |ir.exprs| && LoopInfoFound(ir, e)
  {
    var d := ir.exprs[e].kind.loop;
    |ir.loopManager[d.id].inputPorts| == d.inputNum && |ir.loopManager[d.id].outputPorts| == d.outputNum
  }

  /** The error validate_loop_end reports when it fails: the first of its
      assertions, in source order, that does not hold. */
  function LoopEndError(ir: LinearIR, e: ExprId): CheckError
    requires e < |ir.exprs|
  {
    if !ir.exprs[e].kind.LoopEnd? then UnexpectedKind
    else if ir.exprs[e].kind.loop.loopBegin.None? then MissingLoopBegin
    else if !LoopInfoFound(ir, e) then MissingLoopInfo
    else if !BoundsAgree(ir, e) then IncompatibleLoopBounds
    else if !PortCountsAgree(ir, e) then IncompatiblePortCounts
    else IncompatiblePtrShifts
  }

  method ValidateLoopEnd(ir: LinearIR, e: ExprId) returns (r: Outcome<CheckError>)
    requires WellFormed(ir) && e < |ir.exprs|
    ensures r.Pass? <==> LoopEndOk(ir, e)
    ensures r == Fail(UnexpectedKind) <==> !ir.exprs[e].kind.LoopEnd?
    ensures r == Fail(MissingLoopBegin) <==>
              ir.exprs[e].kind.LoopEnd? && ir.exprs[e].kind.loop.loopBegin.None?
    ensures r == Fail(MissingLoopInfo) <==>
              ir.exprs[e].kind.LoopEnd? && ir.exprs[e].kind.loop.loopBegin.Some? && !LoopInfoFound(ir, e)
    ensures r == Fail(IncompatibleLoopBounds) <==> LoopInfoFound(ir, e) && !BoundsAgree(ir, e)
    ensures r == Fail(IncompatiblePortCounts) <==>
              LoopInfoFound(ir, e) && BoundsAgree(ir, e) && !PortCountsAgree(ir, e)
    ensures r == Fail(IncompatiblePtrShifts) <==>
              && LoopInfoFound(ir, e) && BoundsAgree(ir, e) && PortCountsAgree(ir, e)
              && var d := ir.exprs[e].kind.loop;
              && !(PortsMatchFrom(d, 0, ir.loopManager[d.id].inputPorts) &&
                   PortsMatchFrom(d, d.inputNum, ir.loopManager[d.id].outputPorts))
    ensures r.Fail? ==> r.error == LoopEndError(ir, e)
  {
    if !ir.exprs[e].kind.LoopEnd? {
      return Fail(UnexpectedKind);
    }
    var loopEnd := ir.exprs[e].kind.loop;
    assert LoopEndArraysCover(loopEnd);
    if loopEnd.loopBegin.None? {
      return Fail(MissingLoopBegin);
    }
    if loopEnd.id !in ir.loopManager {
      return Fail(MissingLoopInfo);
    }
    var loopInfo := ir.loopManager[loopEnd.id];
    if !(loopInfo.workAmount == loopEnd.workAmount && loopInfo.increment == loopEnd.increment) {
      return Fail(IncompatibleLoopBounds);
    }
    var inputPortInfos := loopInfo.inputPorts;
    var outputPortInfos := loopInfo.outputPorts;
    if !(|inputPortInfos| == loopEnd.inputNum && |outputPortInfos| == loopEnd.outputNum) {
      return Fail(IncompatiblePortCounts);
    }
    r := ValidateLoopPorts(loopEnd, inputPortInfos, 0);
    if r.Fail? {
      return;
    }
    r := ValidateLoopPorts(loopEnd, outputPortInfos, loopEnd.inputNum);
  }

  // ---------------------------------------------------------------------
  // Buffer clusters
  // ---------------------------------------------------------------------

  /** The least element of a non-empty set (std::set::cbegin). */
  function SetMin(s: set<nat>): (m: nat)
    requires s != {}
    ensures m in s && forall x :: x in s ==> m <= x
  {
    MinExists(s);
    var m :| m in s && forall x :: x in s ==> m <= x;
    m
  }

  /** The greatest element of a non-empty set (std::set::crbegin). */
  function SetMax(s: set<nat>): (m: nat)
    requires s != {}
    ensures m in s && forall x :: x in s ==> x <= m
  {
    MaxExists(s);
    var m :| m in s && forall x :: x in s ==> x <= m;
    m
  }

  lemma MinExists(s: set<nat>)
    requires s != {}
    ensures exists m :: m in s && forall x :: x in s ==> m <= x
  {
    var m := MinOf(s);
  }

  lemma MaxExists(s: set<nat>)
    requires s != {}
    ensures exists m :: m in s && forall x :: x in s ==> x <= m
  {
    var m := MaxOf(s);
  }

  /** The least element, found by removing one element at a time. */
  lemma {:induction false} MinOf(s: set<nat>) returns (least: nat)
    requires s != {}
    ensures least in s && forall x :: x in s ==> least <= x
    decreases |s|
  {
    var y :| y in s;
    var rest := s - {y};
    if rest == {} {
      least := y;
      forall x | x in s ensures least <= x {
        assert x == y || x in rest;
      }
    } else {
      var m := MinOf(rest);
      least := if y < m then y else m;
      forall x | x in s ensures least <= x {
        assert x == y || x in rest;
      }
    }
  }

  /** The greatest element, found the same way. */
  lemma {:induction false} MaxOf(s: set<nat>) returns (greatest: nat)
    requires s != {}
    ensures greatest in s && forall x :: x in s ==> x <= greatest
    decreases |s|
  {
    var y :| y in s;
    var rest := s - {y};
    if rest == {} {
      greatest := y;
      forall x | x in s ensures x <= greatest {
        assert x == y || x in rest;
      }
    } else {
      var m := MaxOf(rest);
      greatest := if m < y then y else m;
      forall x | x in s ensures x <= greatest {
        assert x == y || x in rest;
      }
    }
  }

  /** Every registry entry is a Buffer expression. */
  predicate AllBuffers(ir: LinearIR)
    requires IdsInRange(ir, ir.buffers)
  {
    BuffersInPrefix(ir, |ir.buffers|)
  }

  /** The first `n` registry entries are Buffer expressions. */
  predicate BuffersInPrefix(ir: LinearIR, n: nat)
    requires IdsInRange(ir, ir.buffers) && n <= |ir.buffers|
  {
    forall k :: 0 <= k < n ==> ir.exprs[ir.buffers[k]].kind.Buffer?
  }

  /** The cluster ids of the static buffers (if `inStatic`) and of the dynamic
      buffers (if `inDynamic`) among the first `n` registry entries. */
  ghost function IdsOf(ir: LinearIR, n: nat, inStatic: bool, inDynamic: bool): set<nat>
    requires IdsInRange(ir, ir.buffers) && n <= |ir.buffers| && BuffersInPrefix(ir, n)
  {
    set k | 0 <= k < n && (if ir.exprs[ir.buffers[k]].kind.isDefined then inStatic else inDynamic)
      :: ir.exprs[ir.buffers[k]].kind.clusterId
  }

  /** The members of the static (`defined`) or dynamic cluster `id` among the
      first `n` registry entries. */
  ghost function ClusterOf(ir: LinearIR, n: nat, defined: bool, id: nat): set<ExprId>
    requires IdsInRange(ir, ir.buffers) && n <= |ir.buffers| && BuffersInPrefix(ir, n)
  {
    set k | 0 <= k < n && ir.exprs[ir.buffers[k]].kind.isDefined == defined
                       && ir.exprs[ir.buffers[k]].kind.clusterId == id
      :: ir.buffers[k]
  }

  ghost function ClusterIds(ir: LinearIR): set<nat>
    requires IdsInRange(ir, ir.buffers) && AllBuffers(ir)
  {
    IdsOf(ir, |ir.buffers|, true, true)
  }

  ghost function StaticClusterIds(ir: LinearIR): set<nat>
    requires IdsInRange(ir, ir.buffers) && AllBuffers(ir)
  {
    IdsOf(ir, |ir.buffers|, true, false)
  }

  ghost function DynamicClusterIds(ir: LinearIR): set<nat>
    requires IdsInRange(ir, ir.buffers) && AllBuffers(ir)
  {
    IdsOf(ir, |ir.buffers|, false, true)
  }

  /** The numbers 0 .. n-1. */
  ghost function Range(n: nat): set<nat>
  {
    if n == 0 then {} else Range(n - 1) + {n - 1}
  }

  lemma {:induction false} RangeMembers(n: nat)
    ensures forall x: nat :: x in Range(n) <==> x < n
  {
    if n > 0 {
      RangeMembers(n - 1);
      forall x: nat
        ensures x in Range(n) <==> x < n
      {
        assert x in Range(n) <==> x in Range(n - 1) || x == n - 1;
      }
    }
  }

  lemma {:induction false} RangeSize(n: nat)
    ensures |Range(n)| == n
  {
    if n > 0 {
      RangeSize(n - 1);
      RangeMembers(n - 1);
      assert n - 1 !in Range(n - 1);
    }
  }

  /** Two static buffers with the same cluster id have the same offset. */
  ghost predicate StaticOffsetsAgree(ir: LinearIR)
    requires IdsInRange(ir, ir.buffers) && AllBuffers(ir)
  {
    forall i, j :: 0 <= i < |ir.buffers| && 0 <= j < |ir.buffers| ==>
      var a, b := ir.exprs[ir.buffers[i]].kind, ir.exprs[ir.buffers[j]].kind;
      a.isDefined && b.isDefined && a.clusterId == b.clusterId ==> a.offset == b.offset
  }

  /** The global invariants over the buffer registry: every entry a Buffer,
      dense cluster ids, no id both static and dynamic, one offset per static
      cluster. */
  ghost predicate BufferClustersOk(ir: LinearIR)
    requires IdsInRange(ir, ir.buffers)
  {
    && AllBuffers(ir)
    && ClusterIds(ir) == Range(|ClusterIds(ir)|)
    && StaticClusterIds(ir) !! DynamicClusterIds(ir)
    && StaticOffsetsAgree(ir)
  }

  /** The offset of a Buffer expression (0 for anything else). */
  function OffsetOf(ir: LinearIR, b: ExprId): nat
  {
    if b < |ir.exprs| && ir.exprs[b].kind.Buffer? then ir.exprs[b].kind.offset else 0
  }

  /** A map holds exactly the static (`defined`) or dynamic clusters of the
      first `n` registry entries, keyed by cluster id. */
  ghost predicate ClustersCollected(ir: LinearIR, n: nat, defined: bool, clusters: map<nat, set<ExprId>>)
    requires IdsInRange(ir, ir.buffers) && n <= |ir.buffers| && BuffersInPrefix(ir, n)
  {
    && clusters.Keys == IdsOf(ir, n, defined, !defined)
    && forall id :: id in clusters ==> clusters[id] == ClusterOf(ir, n, defined, id)
  }

  /** `clusters[id].insert(b)`: file `b` under `id`, creating the entry. */
  function InsertIntoCluster(clusters: map<nat, set<ExprId>>, id: nat, b: ExprId): (r: map<nat, set<ExprId>>)
    ensures r.Keys == clusters.Keys + {id}
    ensures r[id] == (if id in clusters then clusters[id] else {}) + {b}
    ensures forall other :: other in clusters && other != id ==> r[other] == clusters[other]
  {
    clusters[id := (if id in clusters then clusters[id] else {}) + {b}]
  }

  /** The registry loop of validate_buffer_expressions: it files each buffer
      under its cluster id in the static or the dynamic map and records the id. */
  method CollectBufferClusters(ir: LinearIR)
    returns (r: Outcome<ClusterError>, clusterIds: set<nat>,
             staticClusters: map<nat, set<ExprId>>, dynamicClusters: map<nat, set<ExprId>>)
    requires WellFormed(ir)
    ensures r.Pass? <==> AllBuffers(ir)
    ensures r.Fail? ==> r.error == NotABuffer
    ensures r.Pass? ==> && clusterIds == ClusterIds(ir)
                        && ClustersCollected(ir, |ir.buffers|, true, staticClusters)
                        && ClustersCollected(ir, |ir.buffers|, false, dynamicClusters)
  {
    clusterIds, staticClusters, dynamicClusters := {}, map[], map[];
    for k := 0 to |ir.buffers|
      invariant BuffersInPrefix(ir, k)
      invariant clusterIds == IdsOf(ir, k, true, true)
      invariant ClustersCollected(ir, k, true, staticClusters)
      invariant ClustersCollected(ir, k, false, dynamicClusters)
    {
      var b := ir.buffers[k];
      if !ir.exprs[b].kind.Buffer? {
        return Fail(NotABuffer), clusterIds, staticClusters, dynamicClusters;
      }
      var buffer := ir.exprs[b].kind;
      assert BuffersInPrefix(ir, k + 1);
      IdsStep(ir, k, true, true);
      FileBuffer(ir, k, true, staticClusters);
      FileBuffer(ir, k, false, dynamicClusters);
      if buffer.isDefined {
        staticClusters := InsertIntoCluster(staticClusters, buffer.clusterId, b);
      } else {
        dynamicClusters := InsertIntoCluster(dynamicClusters, buffer.clusterId, b);
      }
      clusterIds := clusterIds + {buffer.clusterId};
    }
    r := Pass;
  }

  /** One more registry entry adds its id to the id sets it belongs to. */
  lemma IdsStep(ir: LinearIR, k: nat, inStatic: bool, inDynamic: bool)
    requires IdsInRange(ir, ir.buffers) && k < |ir.buffers| && BuffersInPrefix(ir, k + 1)
    ensures IdsOf(ir, k + 1, inStatic, inDynamic) ==
              IdsOf(ir, k, inStatic, inDynamic) +
              (if (if ir.exprs[ir.buffers[k]].kind.isDefined then inStatic else inDynamic)
               then {ir.exprs[ir.buffers[k]].kind.clusterId} else {})
  {
    var kind := ir.exprs[ir.buffers[k]].kind;
    var extra: set<nat> := if (if kind.isDefined then inStatic else inDynamic) then {kind.clusterId} else {};
    forall x | x in IdsOf(ir, k + 1, inStatic, inDynamic)
      ensures x in IdsOf(ir, k, inStatic, inDynamic) + extra
    {
      var j :| 0 <= j < k + 1 && (if ir.exprs[ir.buffers[j]].kind.isDefined then inStatic else inDynamic)
               && ir.exprs[ir.buffers[j]].kind.clusterId == x;
      if j < k {
        assert x in IdsOf(ir, k, inStatic, inDynamic);
      }
    }
    if extra != {} {
      assert kind.clusterId in IdsOf(ir, k + 1, inStatic, inDynamic);
    }
  }

  /** One more registry entry adds itself to the cluster it belongs to. */
  lemma ClusterStep(ir: LinearIR, k: nat, defined: bool, id: nat)
    requires IdsInRange(ir, ir.buffers) && k < |ir.buffers| && BuffersInPrefix(ir, k + 1)
    ensures ClusterOf(ir, k + 1, defined, id) ==
              ClusterOf(ir, k, defined, id) +
              (if ir.exprs[ir.buffers[k]].kind.isDefined == defined && ir.exprs[ir.buffers[k]].kind.clusterId == id
               then {ir.buffers[k]} else {})
  {
    var kind := ir.exprs[ir.buffers[k]].kind;
    var extra: set<ExprId> := if kind.isDefined == defined && kind.clusterId == id then {ir.buffers[k]} else {};
    forall x | x in ClusterOf(ir, k + 1, defined, id)
      ensures x in ClusterOf(ir, k, defined, id) + extra
    {
      var j :| 0 <= j < k + 1 && ir.exprs[ir.buffers[j]].kind.isDefined == defined
               && ir.exprs[ir.buffers[j]].kind.clusterId == id && ir.buffers[j] == x;
      if j < k {
        assert x in ClusterOf(ir, k, defined, id);
      }
    }
    if extra != {} {
      assert ir.buffers[k] in ClusterOf(ir, k + 1, defined, id);
    }
  }

  /** Filing entry `k` in the map of its kind keeps that map equal to the
      clusters collected so far; the other map needs no change. */
  lemma FileBuffer(ir: LinearIR, k: nat, defined: bool, clusters: map<nat, set<ExprId>>)
    requires IdsInRange(ir, ir.buffers) && k < |ir.buffers| && BuffersInPrefix(ir, k + 1)
    requires ClustersCollected(ir, k, defined, clusters)
    ensures var kind := ir.exprs[ir.buffers[k]].kind;
            ClustersCollected(ir, k + 1, defined,
                              if kind.isDefined == defined then InsertIntoCluster(clusters, kind.clusterId, ir.buffers[k]) else clusters)
  {
    var kind := ir.exprs[ir.buffers[k]].kind;
    var b := ir.buffers[k];
    var after := if kind.isDefined == defined then InsertIntoCluster(clusters, kind.clusterId, b) else clusters;
    IdsStep(ir, k, defined, !defined);
    forall id | id in after
      ensures after[id] == ClusterOf(ir, k + 1, defined, id)
    {
      ClusterStep(ir, k, defined, id);
      if id !in clusters {
        ClusterOutsideIds(ir, k, defined, id);
      }
    }
  }

  /** A cluster whose id was not seen yet is empty. */
  lemma ClusterOutsideIds(ir: LinearIR, n: nat, defined: bool, id: nat)
    requires IdsInRange(ir, ir.buffers) && n <= |ir.buffers| && BuffersInPrefix(ir, n)
    requires id !in IdsOf(ir, n, defined, !defined)
    ensures ClusterOf(ir, n, defined, id) == {}
  {
  }

  /** All ids are the static ids together with the dynamic ids. */
  lemma IdsSplit(ir: LinearIR)
    requires IdsInRange(ir, ir.buffers) && AllBuffers(ir)
    ensures ClusterIds(ir) == StaticClusterIds(ir) + DynamicClusterIds(ir)
  {
  }

  /** The number of distinct ids equals the number of static plus dynamic
      clusters exactly when no id is both. */
  lemma CountIffDisjoint(a: set<nat>, b: set<nat>)
    ensures |a + b| == |a| + |b| <==> a !! b
  {
    if !(a !! b) {
      var x :| x in a && x in b;
      assert x in a * b;
    } else {
      assert a * b == {};
    }
  }

  /** A set of ids is 0 .. N-1 exactly when it is empty or its least element
      is 0 and its greatest N-1. */
  lemma DenseIffMinMax(s: set<nat>)
    ensures s == Range(|s|) <==> (s == {} || (SetMin(s) == 0 && SetMax(s) == |s| - 1))
  {
    RangeSize(|s|);
    RangeMembers(|s|);
    if s != {} {
      if SetMin(s) == 0 && SetMax(s) == |s| - 1 {
        assert s <= Range(|s|);
        SubsetOfSameSize(s, Range(|s|));
      }
      if s == Range(|s|) {
        assert 0 in s && |s| - 1 in s;
      }
    }
  }

  lemma SubsetOfSameSize<T>(a: set<T>, b: set<T>)
    requires a <= b && |a| == |b|
    ensures a == b
  {
    if a != b {
      var x :| x in b && x !in a;
      assert a <= b - {x};
      SubsetSize(a, b - {x});
    }
  }

  lemma {:induction false} SubsetSize<T>(a: set<T>, b: set<T>)
    requires a <= b
    ensures |a| <= |b|
    decreases |b|
  {
    if a != {} {
      var x :| x in a;
      SubsetSize(a - {x}, b - {x});
    }
  }

  /** The static-cluster loop of validate_buffer_expressions: every member of
      a static cluster has the offset of the cluster's first member. */
  method CheckStaticOffsets(ir: LinearIR, staticClusters: map<nat, set<ExprId>>,
                            dynamicClusters: map<nat, set<ExprId>>) returns (r: Outcome<ClusterError>)
    requires IdsInRange(ir, ir.buffers) && AllBuffers(ir)
    requires ClustersCollected(ir, |ir.buffers|, true, staticClusters)
    requires staticClusters.Keys !! dynamicClusters.Keys
    ensures r.Pass? <==> StaticOffsetsAgree(ir)
    ensures r.Fail? ==> r.error == StaticOffsetMismatch
  {
    var todo := staticClusters.Keys;
    while todo != {}
      invariant todo <= staticClusters.Keys
      invariant forall id, i, j :: id in staticClusters.Keys - todo && i in staticClusters[id] && j in staticClusters[id] ==>
                  OffsetOf(ir, i) == OffsetOf(ir, j)
      decreases |todo|
    {
      var clusterId :| clusterId in todo;
      var cluster := staticClusters[clusterId];
      // Neither the test that the id is not also dynamic nor the test that
      // the cluster is non-empty can fail here.
      assert clusterId !in dynamicClusters;
      ClusterNonEmpty(ir, clusterId);
      assert |cluster| > 0;
      var first := SetMin(cluster);
      var clusterOffset := OffsetOf(ir, first);
      var members := cluster;
      while members != {}
        invariant members <= cluster
        invariant forall i :: i in cluster - members ==> OffsetOf(ir, i) == clusterOffset
        decreases |members|
      {
        var member :| member in members;
        if clusterOffset != OffsetOf(ir, member) {
          StaticOffsetsDisagree(ir, clusterId, first, member);
          return Fail(StaticOffsetMismatch);
        }
        members := members - {member};
      }
      todo := todo - {clusterId};
    }
    StaticOffsetsFromClusters(ir, staticClusters);
    return Pass;
  }

  /** The error the cluster check reports for a registry that breaks its
      invariants: the first of its checks, in order, that fails. */
  ghost function ExpectedClusterError(ir: LinearIR): ClusterError
    requires IdsInRange(ir, ir.buffers)
  {
    if !AllBuffers(ir) then NotABuffer
    else if !(StaticClusterIds(ir) !! DynamicClusterIds(ir)) then IncorrectClusterCount
    else if ClusterIds(ir) != Range(|ClusterIds(ir)|) then IncorrectClusterIds
    else StaticOffsetMismatch
  }

  /** validate_buffer_expressions: collect the clusters, check the count and
      the ids, then the static offsets. */
  method ValidateBufferExpressions(ir: LinearIR) returns (r: Outcome<ClusterError>)
    requires WellFormed(ir)
    ensures r.Pass? <==> BufferClustersOk(ir)
    ensures r == Fail(NotABuffer) <==> !AllBuffers(ir)
    ensures r == Fail(IncorrectClusterCount) <==>
              AllBuffers(ir) && !(StaticClusterIds(ir) !! DynamicClusterIds(ir))
    ensures r == Fail(IncorrectClusterIds) <==>
              AllBuffers(ir) && StaticClusterIds(ir) !! DynamicClusterIds(ir) &&
              ClusterIds(ir) != Range(|ClusterIds(ir)|)
    ensures r.Fail? ==> r.error == ExpectedClusterError(ir)
  {
    var collected, clusterIds, staticClusters, dynamicClusters := CollectBufferClusters(ir);
    if collected.Fail? {
      return collected;
    }
    IdsSplit(ir);
    CountIffDisjoint(staticClusters.Keys, dynamicClusters.Keys);
    if |clusterIds| != |dynamicClusters| + |staticClusters| {
      return Fail(IncorrectClusterCount);
    }
    DenseIffMinMax(clusterIds);
    if !(clusterIds == {} || (SetMin(clusterIds) == 0 && SetMax(clusterIds) == |clusterIds| - 1)) {
      return Fail(IncorrectClusterIds);
    }
    r := CheckStaticOffsets(ir, staticClusters, dynamicClusters);
  }

  /** A static cluster collected from the registry has a member. */
  lemma ClusterNonEmpty(ir: LinearIR, id: nat)
    requires IdsInRange(ir, ir.buffers) && AllBuffers(ir)
    requires id in IdsOf(ir, |ir.buffers|, true, false)
    ensures ClusterOf(ir, |ir.buffers|, true, id) != {}
  {
    var k :| 0 <= k < |ir.buffers| && ir.exprs[ir.buffers[k]].kind.isDefined
             && ir.exprs[ir.buffers[k]].kind.clusterId == id;
    assert ir.buffers[k] in ClusterOf(ir, |ir.buffers|, true, id);
  }

  lemma StaticOffsetsDisagree(ir: LinearIR, id: nat, a: ExprId, b: ExprId)
    requires IdsInRange(ir, ir.buffers) && AllBuffers(ir)
    requires a in ClusterOf(ir, |ir.buffers|, true, id) && b in ClusterOf(ir, |ir.buffers|, true, id)
    requires OffsetOf(ir, a) != OffsetOf(ir, b)
    ensures !StaticOffsetsAgree(ir)
  {
    var i :| 0 <= i < |ir.buffers| && ir.buffers[i] == a && ir.exprs[a].kind.isDefined && ir.exprs[a].kind.clusterId == id;
    var j :| 0 <= j < |ir.buffers| && ir.buffers[j] == b && ir.exprs[b].kind.isDefined && ir.exprs[b].kind.clusterId == id;
  }

  lemma StaticOffsetsFromClusters(ir: LinearIR, clusters: map<nat, set<ExprId>>)
    requires IdsInRange(ir, ir.buffers) && AllBuffers(ir)
    requires ClustersCollected(ir, |ir.buffers|, true, clusters)
    requires forall id, i, j :: id in clusters.Keys && i in clusters[id] && j in clusters[id] ==>
               OffsetOf(ir, i) == OffsetOf(ir, j)
    ensures StaticOffsetsAgree(ir)
  {
    forall i, j | 0 <= i < |ir.buffers| && 0 <= j < |ir.buffers|
      ensures var a, b := ir.exprs[ir.buffers[i]].kind, ir.exprs[ir.buffers[j]].kind;
              a.isDefined && b.isDefined && a.clusterId == b.clusterId ==> a.offset == b.offset
    {
      var a, b := ir.exprs[ir.buffers[i]].kind, ir.exprs[ir.buffers[j]].kind;
      if a.isDefined && b.isDefined && a.clusterId == b.clusterId {
        var id := a.clusterId;
        assert id in IdsOf(ir, |ir.buffers|, true, false);
        assert ir.buffers[i] in ClusterOf(ir, |ir.buffers|, true, id);
        assert ir.buffers[j] in ClusterOf(ir, |ir.buffers|, true, id);
        assert OffsetOf(ir, ir.buffers[i]) == OffsetOf(ir, ir.buffers[j]);
      }
    }
  }

  // ---------------------------------------------------------------------
  // The pass
  // ---------------------------------------------------------------------

  /** The boundary checks the dispatch map can name. */
  datatype Check = CheckParameter | CheckResult | CheckBuffer | CheckLoopEnd

  /** The dispatch map the Validate constructor builds. */
  function DefaultValidationMap(): map<TypeInfo, Check>
  {
    map[ParameterType := CheckParameter, ResultType := CheckResult,
        BufferType := CheckBuffer, LoopEndType := CheckLoopEnd]
  }

  ghost predicate CheckOk(c: Check, ir: LinearIR, e: ExprId)
    requires WellFormed(ir) && e < |ir.exprs|
  {
    match c
    case CheckParameter => ParameterOk(ir, e)
    case CheckResult => ResultOk(ir, e)
    case CheckBuffer => BufferOk(ir, e)
    case CheckLoopEnd => LoopEndOk(ir, e)
  }

  /** The error a failing check reports. */
  ghost function ErrorOf(c: Check, ir: LinearIR, e: ExprId): CheckError
    requires WellFormed(ir) && e < |ir.exprs|
  {
    match c
    case CheckParameter => ParameterError(ir, e)
    case CheckResult => (if ValidateResult(ir, e).Fail? then ValidateResult(ir, e).error else UnexpectedKind)
    case CheckBuffer => BufferError(ir, e)
    case CheckLoopEnd => LoopEndError(ir, e)
  }

  method ApplyCheck(c: Check, ir: LinearIR, e: ExprId) returns (r: Outcome<CheckError>)
    requires WellFormed(ir) && e < |ir.exprs|
    ensures r.Pass? <==> CheckOk(c, ir, e)
    ensures r.Fail? ==> r.error == ErrorOf(c, ir, e)
    ensures r.Fail? ==> r.error != SelfCheckFailed && r.error != LayoutIndexOutOfRange &&
                        r.error != ShapeLayoutLengthMismatch
  {
    match c
    case CheckParameter => r := ValidateParameter(ir, e);
    case CheckResult => r := ValidateResult(ir, e);
    case CheckBuffer => r := ValidateBuffer(ir, e);
    case CheckLoopEnd => r := ValidateLoopEnd(ir, e);
  }

  /** What Run demands of one expression: the mapped check (if its type is
      in the map), then the node's own validate(), then the port check for
      every expression that is not a LoopBegin or LoopEnd. */
  ghost predicate ExprOk(ir: LinearIR, m: map<TypeInfo, Check>, e: ExprId)
    requires WellFormed(ir) && e < |ir.exprs|
  {
    var x := ir.exprs[e];
    && (TypeInfoOf(x.kind) in m ==> CheckOk(m[TypeInfoOf(x.kind)], ir, e))
    && x.selfCheck
    && (!IsLoopBase(x.kind) ==> PortsOk(x))
  }

  /** One iteration of Run reaches the port check: the mapped check and the
      node's own validate() pass and the node is not a loop boundary. */
  ghost predicate PortsReached(ir: LinearIR, m: map<TypeInfo, Check>, e: ExprId)
    requires WellFormed(ir) && e < |ir.exprs|
  {
    var x := ir.exprs[e];
    && (TypeInfoOf(x.kind) in m ==> CheckOk(m[TypeInfoOf(x.kind)], ir, e))
    && x.selfCheck
    && !IsLoopBase(x.kind)
  }

  /** What Run reports for one expression: the mapped check's failure, then
      a failed validate(), then the port check's failure. */
  ghost function ExprOutcome(ir: LinearIR, m: map<TypeInfo, Check>, e: ExprId): (r: Outcome<CheckError>)
    requires WellFormed(ir) && e < |ir.exprs|
    requires PortsReached(ir, m, e) ==> PortLayoutsDefined(ir.exprs[e])
    ensures r.Pass? <==> ExprOk(ir, m, e)
  {
    var x := ir.exprs[e];
    var t := TypeInfoOf(x.kind);
    if t in m && !CheckOk(m[t], ir, e) then Fail(ErrorOf(m[t], ir, e))
    else if !x.selfCheck then Fail(SelfCheckFailed)
    else if IsLoopBase(x.kind) then Pass
    else ValidatePorts(x)
  }

  /** The port check's precondition over a range: an expression whose port
      check the run reaches (every earlier expression passed, and its own
      mapped check and validate() passed) has layouts where the check reads. */
  ghost predicate RangeLayoutsDefined(ir: LinearIR, m: map<TypeInfo, Check>, begin: nat, end: nat)
    requires WellFormed(ir) && end <= |ir.exprs|
  {
    forall k :: begin <= k < end && (forall j :: begin <= j < k ==> ExprOk(ir, m, j)) && PortsReached(ir, m, k) ==>
      PortLayoutsDefined(ir.exprs[k])
  }

  /** Why Run failed: an expression of the range, or the cluster check. */
  datatype RunFailure = ExprFailure(at: ExprId, error: CheckError) | ClusterFailure(clusterError: ClusterError)

  class Validate {
    var validationMap: map<TypeInfo, Check>

    constructor ()
      ensures validationMap == DefaultValidationMap()
    {
      validationMap := DefaultValidationMap();
    }

    /** Validate::run over [begin, end). On success it reports that the IR
        was not modified; the cluster check covers the whole registry. */
    method Run(ir: LinearIR, begin: nat, end: nat) returns (r: Result<bool, RunFailure>)
      requires WellFormed(ir) && begin <= end <= |ir.exprs|
      requires RangeLayoutsDefined(ir, validationMap, begin, end)
      ensures r.Success? <==>
                (forall k :: begin <= k < end ==> ExprOk(ir, validationMap, k)) && BufferClustersOk(ir)
      ensures r.Success? ==> r.value == false
      ensures r.Failure? && r.error.ExprFailure? ==>
                && begin <= r.error.at < end
                && !ExprOk(ir, validationMap, r.error.at)
                && (forall k :: begin <= k < r.error.at ==> ExprOk(ir, validationMap, k))
                && ExprOutcome(ir, validationMap, r.error.at) == Fail(r.error.error)
      ensures r.Failure? && r.error.ClusterFailure? ==>
                && (forall k :: begin <= k < end ==> ExprOk(ir, validationMap, k))
                && !BufferClustersOk(ir)
                && r.error.clusterError == ExpectedClusterError(ir)
    {
      for k := begin to end
        invariant forall j :: begin <= j < k ==> ExprOk(ir, validationMap, j)
      {
        var x := ir.exprs[k];
        var t := TypeInfoOf(x.kind);
        if t in validationMap {
          var o := ApplyCheck(validationMap[t], ir, k);
          if o.Fail? {
            assert !ExprOk(ir, validationMap, k);
            return Failure(ExprFailure(k, o.error));
          }
        }
        if !x.selfCheck {
          assert !ExprOk(ir, validationMap, k);
          return Failure(ExprFailure(k, SelfCheckFailed));
        }
        if !IsLoopBase(x.kind) {
          var o := ValidatePorts(x);
          if o.Fail? {
            assert !ExprOk(ir, validationMap, k);
            return Failure(ExprFailure(k, o.error));
          }
        }
      }
      var c := ValidateBufferExpressions(ir);
      if c.Fail? {
        return Failure(ClusterFailure(c.error));
      }
      return Success(false);
    }
  }
}
