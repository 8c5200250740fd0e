/**
  Properties of the Validate pass that relate several of its checks, or a
  check to an independent description of what it should accept: the
  single-layout rule for graph inputs, the buffer producer query, the
  LoopEnd copy as a flat sequence of port records, the shape of the
  cluster-id invariant, the dispatch of the standard map, and the
  repeatability of a run.
*/
module ValidateProperties {
  import opened Outcomes
  import opened LoweredIR
  import opened ValidatePass

  // ---------------------------------------------------------------------
  // Port descriptors
  // ---------------------------------------------------------------------

  /** The port check bounds the layout's entries and its length; it does not
      ask for a permutation: a layout naming one axis twice passes. */
  lemma RepeatedAxisLayoutPasses()
    ensures ValidateDescriptor(PortDescriptor([2, 3], [0, 0])) == Pass
    ensures ValidateDescriptor(PortDescriptor([2, 3], [0, 2])) == Fail(LayoutIndexOutOfRange)
    ensures ValidateDescriptor(PortDescriptor([2, 3], [0])) == Fail(ShapeLayoutLengthMismatch)
  {
    assert DescriptorOk(PortDescriptor([2, 3], [0, 0]));
    assert PortDescriptor([2, 3], [0, 2]).layout[1] >= 2;
  }

  /** The scan stops at the first failing descriptor: a later descriptor with
      no layout is never read, and the first error is the one reported. */
  lemma StopsAtFirstBadDescriptor()
    ensures ReachedLayoutsNonEmpty([PortDescriptor([2], [5]), PortDescriptor([], [])])
    ensures ValidateDescriptors([PortDescriptor([2], [5]), PortDescriptor([], [])]) == Fail(LayoutIndexOutOfRange)
  {
    var ds := [PortDescriptor([2], [5]), PortDescriptor([], [])];
    assert ds[0].layout[0] >= |ds[0].shape|;
    assert !DescriptorOk(ds[0]);
    assert !DescriptorsOkBefore(ds, 1);
  }

  // ---------------------------------------------------------------------
  // Graph inputs: one layout over every MemoryAccess reader
  // ---------------------------------------------------------------------

  /** The consumers validate_parameter and validate_buffer examine: those of
      the first output of the expression reached after the shape-infer chain. */
  function ValueConsumers(ir: LinearIR, e: ExprId): (cs: seq<ExprPort>)
    requires WellFormed(ir) && e < |ir.exprs|
    requires |ir.exprs[ChildValueExpr(ir, e)].outputs| > 0
    ensures PortsInRange(ir, cs)
  {
    OutputConnector(ir, ChildValueExpr(ir, e), 0).consumers
  }

  /** A set has one element exactly when it is non-empty and any two of its
      elements are equal. */
  lemma SingletonIff<T>(s: set<T>)
    ensures |s| == 1 <==> (s != {} && forall a, b :: a in s && b in s ==> a == b)
  {
    if |s| == 1 {
      var a :| a in s;
      assert s == {a} by {
        forall b | b in s ensures b == a {
          if b != a {
            assert {a, b} <= s;
            SubsetSize({a, b}, s);
          }
        }
      }
    }
    if s != {} && forall a, b :: a in s && b in s ==> a == b {
      var a :| a in s;
      assert s == {a};
    }
  }

  /** Some consumer of `cs` is a MemoryAccess node. */
  predicate SomeMemoryAccessConsumer(ir: LinearIR, cs: seq<ExprPort>)
    requires PortsInRange(ir, cs)
  {
    exists k :: 0 <= k < |cs| && IsMemoryAccessConsumer(ir, cs[k])
  }

  /** Any two MemoryAccess consumers of `cs` record the same layout. */
  predicate LayoutsAgree(ir: LinearIR, cs: seq<ExprPort>)
    requires PortsInRange(ir, cs)
  {
    forall i, j ::
      (0 <= i < |cs| && 0 <= j < |cs| &&
       IsMemoryAccessConsumer(ir, cs[i]) && IsMemoryAccessConsumer(ir, cs[j])) ==>
      ConsumerLayout(ir, cs[i]) == ConsumerLayout(ir, cs[j])
  }

  lemma {:induction false} LayoutsNonEmptyIff(ir: LinearIR, cs: seq<ExprPort>)
    requires PortsInRange(ir, cs)
    ensures MemoryAccessLayouts(ir, cs) != {} <==> SomeMemoryAccessConsumer(ir, cs)
  {
    if SomeMemoryAccessConsumer(ir, cs) {
      var k :| 0 <= k < |cs| && IsMemoryAccessConsumer(ir, cs[k]);
      assert ConsumerLayout(ir, cs[k]) in MemoryAccessLayouts(ir, cs);
    }
  }

  lemma {:induction false} LayoutsEqualIff(ir: LinearIR, cs: seq<ExprPort>)
    requires PortsInRange(ir, cs)
    ensures (forall a, b :: a in MemoryAccessLayouts(ir, cs) && b in MemoryAccessLayouts(ir, cs) ==> a == b)
              <==> LayoutsAgree(ir, cs)
  {
    var layouts := MemoryAccessLayouts(ir, cs);
    if LayoutsAgree(ir, cs) {
      forall a, b | a in layouts && b in layouts ensures a == b {
        var i :| 0 <= i < |cs| && IsMemoryAccessConsumer(ir, cs[i]) && ConsumerLayout(ir, cs[i]) == a;
        var j :| 0 <= j < |cs| && IsMemoryAccessConsumer(ir, cs[j]) && ConsumerLayout(ir, cs[j]) == b;
      }
    }
    if forall a, b :: a in layouts && b in layouts ==> a == b {
      forall i, j | 0 <= i < |cs| && 0 <= j < |cs| &&
          IsMemoryAccessConsumer(ir, cs[i]) && IsMemoryAccessConsumer(ir, cs[j])
        ensures ConsumerLayout(ir, cs[i]) == ConsumerLayout(ir, cs[j])
      {
        assert ConsumerLayout(ir, cs[i]) in layouts;
        assert ConsumerLayout(ir, cs[j]) in layouts;
      }
    }
  }

  /** validate_parameter accepts exactly when every consumer feeds a
      MemoryAccess port or a LoopEnd, at least one consumer is MemoryAccess,
      and all MemoryAccess consumers record the same layout. */
  lemma {:induction false} ParameterOkIffOneLayout(ir: LinearIR, e: ExprId)
    requires WellFormed(ir) && e < |ir.exprs| && ir.exprs[e].kind.Parameter?
    requires |ir.exprs[ChildValueExpr(ir, e)].outputs| > 0
    ensures var cs := ValueConsumers(ir, e);
            ParameterOk(ir, e) <==>
              && (forall k :: 0 <= k < |cs| ==> FeedsMemoryAccessOrLoopEnd(ir, cs[k]))
              && SomeMemoryAccessConsumer(ir, cs)
              && LayoutsAgree(ir, cs)
  {
    var cs := ValueConsumers(ir, e);
    SingletonIff(MemoryAccessLayouts(ir, cs));
    LayoutsNonEmptyIff(ir, cs);
    LayoutsEqualIff(ir, cs);
  }

  /** When some consumer is refused, there is a first refused one. */
  lemma {:induction false} FirstRefusedOf(ir: LinearIR, cs: seq<ExprPort>, j: nat) returns (k: nat)
    requires PortsInRange(ir, cs) && j < |cs| && !FeedsMemoryAccessOrLoopEnd(ir, cs[j])
    ensures FirstRefusedConsumer(ir, cs, k)
    decreases j
  {
    if forall i :: 0 <= i < j ==> FeedsMemoryAccessOrLoopEnd(ir, cs[i]) {
      k := j;
    } else {
      var i :| 0 <= i < j && !FeedsMemoryAccessOrLoopEnd(ir, cs[i]);
      k := FirstRefusedOf(ir, cs, i);
    }
  }

  /** The consumer loop of validate_parameter reports the port error exactly
      when it stops at a MemoryAccess consumer, the LoopEnd error exactly
      when it stops at any other consumer, and the layout error exactly when
      it does not stop. */
  lemma {:induction false} ParameterConsumersErrorIff(ir: LinearIR, cs: seq<ExprPort>)
    requires PortsInRange(ir, cs)
    ensures ParameterConsumersError(ir, cs) == ParameterConsumerNotMemoryAccessPort <==>
              exists k: nat :: FirstRefusedConsumer(ir, cs, k) && IsMemoryAccessConsumer(ir, cs[k])
    ensures ParameterConsumersError(ir, cs) == ParameterConsumerNotLoopEnd <==>
              exists k: nat :: FirstRefusedConsumer(ir, cs, k) && !IsMemoryAccessConsumer(ir, cs[k])
    ensures ParameterConsumersError(ir, cs) == InconsistentParameterLayouts <==>
              forall k :: 0 <= k < |cs| ==> FeedsMemoryAccessOrLoopEnd(ir, cs[k])
  {
    if exists k: nat :: FirstRefusedConsumer(ir, cs, k) {
      var k: nat :| FirstRefusedConsumer(ir, cs, k);
      FirstRefusedConsumerUnique(ir, cs, k);
    }
    if !forall k :: 0 <= k < |cs| ==> FeedsMemoryAccessOrLoopEnd(ir, cs[k]) {
      var j :| 0 <= j < |cs| && !FeedsMemoryAccessOrLoopEnd(ir, cs[j]);
      var k := FirstRefusedOf(ir, cs, j);
    }
  }

  /** Each failure of validate_parameter past the kind and connector checks
      is the assertion that fires: the port assertion at the first refused
      consumer when it is MemoryAccess, the LoopEnd assertion when it is not,
      and the layout assertion when every consumer is accepted but the
      layouts are not exactly one. */
  lemma {:induction false} ParameterFailureClassified(ir: LinearIR, e: ExprId)
    requires WellFormed(ir) && e < |ir.exprs| && ir.exprs[e].kind.Parameter?
    requires |ir.exprs[ChildValueExpr(ir, e)].outputs| > 0
    ensures var cs := ValueConsumers(ir, e);
            (!ParameterOk(ir, e) && ParameterError(ir, e) == ParameterConsumerNotMemoryAccessPort) <==>
              exists k: nat :: FirstRefusedConsumer(ir, cs, k) && IsMemoryAccessConsumer(ir, cs[k])
    ensures var cs := ValueConsumers(ir, e);
            (!ParameterOk(ir, e) && ParameterError(ir, e) == ParameterConsumerNotLoopEnd) <==>
              exists k: nat :: FirstRefusedConsumer(ir, cs, k) && !IsMemoryAccessConsumer(ir, cs[k])
    ensures var cs := ValueConsumers(ir, e);
            (!ParameterOk(ir, e) && ParameterError(ir, e) == InconsistentParameterLayouts) <==>
              (forall k :: 0 <= k < |cs| ==> FeedsMemoryAccessOrLoopEnd(ir, cs[k])) &&
              |MemoryAccessLayouts(ir, cs)| != 1
  {
    ParameterConsumersErrorIff(ir, ValueConsumers(ir, e));
  }

  /** Two MemoryAccess readers of one graph input with different layouts
      make validate_parameter fail. */
  lemma {:induction false} DivergentLayoutsRejected(ir: LinearIR, e: ExprId, i: nat, j: nat)
    requires WellFormed(ir) && e < |ir.exprs| && ir.exprs[e].kind.Parameter?
    requires |ir.exprs[ChildValueExpr(ir, e)].outputs| > 0
    requires var cs := ValueConsumers(ir, e);
             && i < |cs| && j < |cs|
             && IsMemoryAccessConsumer(ir, cs[i]) && IsMemoryAccessConsumer(ir, cs[j])
             && ConsumerLayout(ir, cs[i]) != ConsumerLayout(ir, cs[j])
    ensures !ParameterOk(ir, e)
  {
    ParameterOkIffOneLayout(ir, e);
  }

  /** A graph input read only by LoopEnds (or by nothing) has no layout to
      agree on, and validate_parameter fails. */
  lemma {:induction false} NoMemoryAccessReaderRejected(ir: LinearIR, e: ExprId)
    requires WellFormed(ir) && e < |ir.exprs| && ir.exprs[e].kind.Parameter?
    requires |ir.exprs[ChildValueExpr(ir, e)].outputs| > 0
    requires var cs := ValueConsumers(ir, e);
             forall k :: 0 <= k < |cs| ==> !IsMemoryAccessConsumer(ir, cs[k])
    ensures !ParameterOk(ir, e)
  {
    ParameterOkIffOneLayout(ir, e);
  }

  /** A MemoryAccess LoopEnd reading the value on a port that is not a
      MemoryAccess input port is refused: the LoopEnd exemption covers only
      nodes that are not MemoryAccess. */
  lemma MemoryAccessLoopEndOffPortRejected(ir: LinearIR, e: ExprId, k: nat)
    requires WellFormed(ir) && e < |ir.exprs| && ir.exprs[e].kind.Parameter?
    requires |ir.exprs[ChildValueExpr(ir, e)].outputs| > 0
    requires var cs := ValueConsumers(ir, e);
             && k < |cs|
             && var x := ir.exprs[cs[k].expr];
             && x.kind.LoopEnd?
             && x.memoryAccess.Some?
             && cs[k].index !in x.memoryAccess.value.inputPorts
    ensures !ParameterOk(ir, e)
  {
  }

  // ---------------------------------------------------------------------
  // Buffers: the producer is asked the input-port question
  // ---------------------------------------------------------------------

  /** A producer that is MemoryAccess on the output feeding a Buffer, but has
      no MemoryAccess input port of that index, makes validate_buffer fail:
      the producer is checked with the input-port query. */
  lemma {:induction false} BufferProducerAskedInputPort(ir: LinearIR, e: ExprId, k: nat)
    requires WellFormed(ir) && e < |ir.exprs| && k < |ir.exprs[e].inputs|
    requires var source := InputConnector(ir, e, k).source;
             var ma := ir.exprs[source.expr].memoryAccess;
             && ma.Some?
             && ma.value.IsMemoryAccessOutputPort(source.index)
             && !ma.value.IsMemoryAccessInputPort(source.index)
    ensures !BufferOk(ir, e)
  {
    assert !BufferProducerOk(ir, InputConnector(ir, e, k).source);
    assert !InputAccepted(ir, e, k);
  }

  /** A second reader of a Buffer's input value that is neither the Buffer
      nor a LoopEnd makes validate_buffer fail. */
  lemma {:induction false} BufferSiblingRejected(ir: LinearIR, e: ExprId, k: nat, s: nat)
    requires WellFormed(ir) && e < |ir.exprs| && k < |ir.exprs[e].inputs|
    requires var cs := InputConnector(ir, e, k).consumers;
             s < |cs| && cs[s].expr != e && !ir.exprs[cs[s].expr].kind.LoopEnd?
    ensures !BufferOk(ir, e)
  {
    assert !SiblingsOk(ir, e, InputConnector(ir, e, k).consumers);
    assert !InputAccepted(ir, e, k);
  }

  // ---------------------------------------------------------------------
  // LoopEnd: the inline copy is the flattened LoopInfo
  // ---------------------------------------------------------------------

  /** The LoopEnd's per-port arrays read as port records, inputs then
      outputs. */
  function FlatPorts(d: LoopEndData): (ports: seq<LoopPortInfo>)
    requires LoopEndArraysCover(d)
    ensures |ports| == d.inputNum + d.outputNum
    ensures forall k :: 0 <= k < |ports| ==> PortInfoMatches(d, k, ports[k])
  {
    seq(d.inputNum + d.outputNum,
        k requires 0 <= k < d.inputNum + d.outputNum =>
          LoopPortInfo(d.isIncremented[k], d.ptrIncrements[k], d.finalizationOffsets[k]))
  }

  /** validate_loop_end's field comparison holds exactly when the LoopEnd and
      the LoopInfo have equal bounds and the LoopEnd's port records are the
      LoopInfo's input ports followed by its output ports. */
  lemma {:induction false} InlineCopyIsFlattenedInfo(d: LoopEndData, info: LoopInfo)
    requires LoopEndArraysCover(d)
    ensures InlineCopyAgrees(d, info) <==>
              && d.workAmount == info.workAmount
              && d.increment == info.increment
              && |info.inputPorts| == d.inputNum
              && FlatPorts(d) == info.inputPorts + info.outputPorts
  {
    var flat, both := FlatPorts(d), info.inputPorts + info.outputPorts;
    if InlineCopyAgrees(d, info) {
      forall k | 0 <= k < |flat| ensures flat[k] == both[k] {
        if k < d.inputNum {
          assert PortInfoMatches(d, 0 + k, info.inputPorts[k]);
        } else {
          assert PortInfoMatches(d, d.inputNum + (k - d.inputNum), info.outputPorts[k - d.inputNum]);
        }
      }
    }
    if |info.inputPorts| == d.inputNum && flat == both {
      forall i | 0 <= i < |info.inputPorts| ensures PortInfoMatches(d, 0 + i, info.inputPorts[i]) {
        assert flat[i] == both[i];
      }
      forall i | 0 <= i < |info.outputPorts| ensures PortInfoMatches(d, d.inputNum + i, info.outputPorts[i]) {
        assert flat[d.inputNum + i] == both[d.inputNum + i];
      }
    }
  }

  /** A LoopInfo fixes the LoopEnd copy that agrees with it: two copies with
      the same port counts that both agree have the same bounds and the same
      port records. Any single-field change of an agreeing copy is therefore
      refused. */
  lemma {:induction false} AgreeingCopyIsUnique(d1: LoopEndData, d2: LoopEndData, info: LoopInfo)
    requires LoopEndArraysCover(d1) && LoopEndArraysCover(d2)
    requires d1.inputNum == d2.inputNum && d1.outputNum == d2.outputNum
    requires InlineCopyAgrees(d1, info) && InlineCopyAgrees(d2, info)
    ensures d1.workAmount == d2.workAmount && d1.increment == d2.increment
    ensures FlatPorts(d1) == FlatPorts(d2)
  {
    InlineCopyIsFlattenedInfo(d1, info);
    InlineCopyIsFlattenedInfo(d2, info);
  }

  /** Changing the record of one loop port (k < inputNum + outputNum) of an
      agreeing LoopEnd copy makes the comparison fail. */
  lemma {:induction false} PortPerturbationRejected(d: LoopEndData, info: LoopInfo, k: nat, p: LoopPortInfo)
    requires LoopEndArraysCover(d) && InlineCopyAgrees(d, info)
    requires k < d.inputNum + d.outputNum
    requires p != LoopPortInfo(d.isIncremented[k], d.ptrIncrements[k], d.finalizationOffsets[k])
    ensures var changed := d.(isIncremented := d.isIncremented[k := p.isIncremented],
                              ptrIncrements := d.ptrIncrements[k := p.ptrIncrement],
                              finalizationOffsets := d.finalizationOffsets[k := p.finalizationOffset]);
            LoopEndArraysCover(changed) && !InlineCopyAgrees(changed, info)
  {
    var changed := d.(isIncremented := d.isIncremented[k := p.isIncremented],
                      ptrIncrements := d.ptrIncrements[k := p.ptrIncrement],
                      finalizationOffsets := d.finalizationOffsets[k := p.finalizationOffset]);
    InlineCopyIsFlattenedInfo(d, info);
    InlineCopyIsFlattenedInfo(changed, info);
    assert FlatPorts(changed)[k] == p;
    assert FlatPorts(changed) != FlatPorts(d);
  }

  /** Changing the work amount or the increment of an agreeing copy makes the
      comparison fail. */
  lemma BoundsPerturbationRejected(d: LoopEndData, info: LoopInfo, workAmount: nat, increment: nat)
    requires LoopEndArraysCover(d) && InlineCopyAgrees(d, info)
    requires workAmount != d.workAmount || increment != d.increment
    ensures !InlineCopyAgrees(d.(workAmount := workAmount, increment := increment), info)
  {
  }

  // ---------------------------------------------------------------------
  // Buffer clusters
  // ---------------------------------------------------------------------

  /** A set of naturals is 0 .. |s|-1 exactly when every member is below |s|. */
  lemma {:induction false} DenseIffBounded(s: set<nat>)
    ensures s == Range(|s|) <==> forall x :: x in s ==> x < |s|
  {
    RangeMembers(|s|);
    if forall x :: x in s ==> x < |s| {
      RangeSize(|s|);
      SubsetOfSameSize(s, Range(|s|));
    }
  }

  /** A cluster id at or above the number of distinct ids (a gap below it,
      as in the ids 0 and 2) fails the cluster invariants. */
  lemma {:induction false} SparseIdsRejected(ir: LinearIR, id: nat)
    requires IdsInRange(ir, ir.buffers) && AllBuffers(ir)
    requires id in ClusterIds(ir) && id >= |ClusterIds(ir)|
    ensures !BufferClustersOk(ir)
  {
    DenseIffBounded(ClusterIds(ir));
  }

  /** A cluster id carried by both a static and a dynamic buffer fails the
      cluster invariants; validate_buffer_expressions reports it as an
      incorrect cluster count, the first check that sees it. */
  lemma {:induction false} MixedClusterRejected(ir: LinearIR, i: nat, j: nat)
    requires IdsInRange(ir, ir.buffers) && AllBuffers(ir)
    requires i < |ir.buffers| && j < |ir.buffers|
    requires var a, b := ir.exprs[ir.buffers[i]].kind, ir.exprs[ir.buffers[j]].kind;
             a.clusterId == b.clusterId && a.isDefined && !b.isDefined
    ensures !BufferClustersOk(ir)
    ensures !(StaticClusterIds(ir) !! DynamicClusterIds(ir))
  {
    var id := ir.exprs[ir.buffers[i]].kind.clusterId;
    assert id in StaticClusterIds(ir);
    assert id in DynamicClusterIds(ir);
  }

  /** Two static buffers of one cluster with different offsets fail the
      cluster invariants. */
  lemma OffsetMismatchRejected(ir: LinearIR, i: nat, j: nat)
    requires IdsInRange(ir, ir.buffers) && AllBuffers(ir)
    requires i < |ir.buffers| && j < |ir.buffers|
    requires var a, b := ir.exprs[ir.buffers[i]].kind, ir.exprs[ir.buffers[j]].kind;
             a.clusterId == b.clusterId && a.isDefined && b.isDefined && a.offset != b.offset
    ensures !BufferClustersOk(ir)
  {
  }

  // ---------------------------------------------------------------------
  // The standard dispatch map
  // ---------------------------------------------------------------------

  /** The kind-specific check the standard map selects: the boundary check
      of Parameter, Result, Buffer and LoopEnd nodes, nothing for the rest. */
  ghost predicate KindCheckOk(ir: LinearIR, e: ExprId)
    requires WellFormed(ir) && e < |ir.exprs|
  {
    match ir.exprs[e].kind
    case Parameter => ParameterOk(ir, e)
    case Result => ResultOk(ir, e)
    case Buffer(_, _, _) => BufferOk(ir, e)
    case LoopEnd(_) => LoopEndOk(ir, e)
    case LoopBegin => true
    case Other(_) => true
  }

  /** With the constructor's map, Run demands of an expression its kind's
      boundary check, its own validate(), and the port check unless it is a
      LoopBegin or LoopEnd. */
  lemma {:induction false} StandardMapDispatch(ir: LinearIR, e: ExprId)
    requires WellFormed(ir) && e < |ir.exprs|
    ensures ExprOk(ir, DefaultValidationMap(), e) <==>
              && KindCheckOk(ir, e)
              && ir.exprs[e].selfCheck
              && (ir.exprs[e].kind.LoopBegin? || ir.exprs[e].kind.LoopEnd? || PortsOk(ir.exprs[e]))
  {
    var m := DefaultValidationMap();
    match ir.exprs[e].kind
    case Parameter => assert m[ParameterType] == CheckParameter;
    case Result => assert m[ResultType] == CheckResult;
    case Buffer(_, _, _) => assert m[BufferType] == CheckBuffer;
    case LoopEnd(_) => assert m[LoopEndType] == CheckLoopEnd;
    case LoopBegin => assert LoopBeginType !in m;
    case Other(name) => assert OtherType(name) !in m;
  }

  /** The run stops at the first failing expression, so nothing is asked of
      the layouts of the expressions after it. */
  lemma LaterLayoutsUnread(ir: LinearIR, m: map<TypeInfo, Check>, begin: nat, k: nat, end: nat)
    requires WellFormed(ir) && begin <= k < end <= |ir.exprs|
    requires RangeLayoutsDefined(ir, m, begin, k + 1) && !ExprOk(ir, m, k)
    ensures RangeLayoutsDefined(ir, m, begin, end)
  {
  }

  // ---------------------------------------------------------------------
  // Repeatability
  // ---------------------------------------------------------------------

  /** Two runs of a freshly built validator over the same IR agree on
      success, on which kind of failure is reported, on the expression at
      which an expression check fails and on the cluster error. */
  method RunTwice(ir: LinearIR, begin: nat, end: nat) returns (first: Result<bool, RunFailure>, second: Result<bool, RunFailure>)
    requires WellFormed(ir) && begin <= end <= |ir.exprs|
    requires RangeLayoutsDefined(ir, DefaultValidationMap(), begin, end)
    ensures first == second
  {
    var v := new Validate();
    first := v.Run(ir, begin, end);
    second := v.Run(ir, begin, end);
  }
}
