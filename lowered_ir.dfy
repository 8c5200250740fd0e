/**
  The lowered linear IR of the snippets kernel compiler, as far as the
  Validate pass observes it: expressions with a node kind, port descriptors
  and port connectors, the loop manager and the buffer registry.

  Expressions and connectors are shared objects in the compiler; here they
  are values stored in two sequences and referred to by their index.
*/
module LoweredIR {
  import opened Outcomes

  /** Index of an expression in LinearIR.exprs. */
  type ExprId = nat
  /** Index of a port connector in LinearIR.connectors. */
  type ConnectorId = nat

  /** Shape and memory-traversal layout of one input or output port. */
  datatype PortDescriptor = PortDescriptor(shape: seq<nat>, layout: seq<nat>)

  /** One port of one expression: the owning expression and the port index. */
  datatype ExprPort = ExprPort(expr: ExprId, index: nat)

  /** A produced value: its source (an output port) and its consumers
      (input ports), the consumers in the container's iteration order. */
  datatype PortConnector = PortConnector(source: ExprPort, consumers: seq<ExprPort>)

  /** The MemoryAccess modifier of a node: the input and output port indices
      on which the node moves data to or from memory. */
  datatype MemoryAccess = MemoryAccess(inputPorts: set<nat>, outputPorts: set<nat>) {
    predicate IsMemoryAccessInputPort(i: nat) { i in inputPorts }
    predicate IsMemoryAccessOutputPort(i: nat) { i in outputPorts }
  }

  /** The loop metadata a LoopEnd node carries inline: its LoopBegin (None for
      a null pointer), the loop id, the bounds, the numbers of loop input and
      output ports, and per port (inputs first, then outputs) the pointer
      shift data. */
  datatype LoopEndData = LoopEndData(
    loopBegin: Option<ExprId>,
    id: nat,
    workAmount: nat,
    increment: nat,
    inputNum: nat,
    outputNum: nat,
    isIncremented: seq<bool>,
    ptrIncrements: seq<int>,
    finalizationOffsets: seq<int>)

  /** Per-port record of a LoopInfo: whether the port is incremented and its
      pointer increment and finalization offset. */
  datatype LoopPortInfo = LoopPortInfo(isIncremented: bool, ptrIncrement: int, finalizationOffset: int)

  /** The loop manager's authoritative record of one loop. */
  datatype LoopInfo = LoopInfo(
    workAmount: nat,
    increment: nat,
    inputPorts: seq<LoopPortInfo>,
    outputPorts: seq<LoopPortInfo>)

  /** The node an expression wraps. Buffer carries its cluster id, whether
      its shape is defined (a static buffer) and its offset. */
  datatype Kind =
    | Parameter
    | Result
    | Buffer(clusterId: nat, isDefined: bool, offset: nat)
    | LoopBegin
    | LoopEnd(loop: LoopEndData)
    | Other(name: string)

  /** The run-time type information of a node, the key of the dispatch map. */
  datatype TypeInfo = ParameterType | ResultType | BufferType | LoopBeginType | LoopEndType | OtherType(name: string)

  function TypeInfoOf(k: Kind): TypeInfo
  {
    match k
    case Parameter => ParameterType
    case Result => ResultType
    case Buffer(_, _, _) => BufferType
    case LoopBegin => LoopBeginType
    case LoopEnd(_) => LoopEndType
    case Other(name) => OtherType(name)
  }

  /** LoopBegin and LoopEnd derive from LoopBase. */
  predicate IsLoopBase(k: Kind) { k.LoopBegin? || k.LoopEnd? }

  /** One lowered instruction. `memoryAccess` is None when the node is not a
      MemoryAccess (a failed cast); `selfCheck` is the outcome of the node's
      own validate() call, which is not part of this model. */
  datatype Expression = Expression(
    kind: Kind,
    inputDescs: seq<PortDescriptor>,
    outputDescs: seq<PortDescriptor>,
    inputs: seq<ConnectorId>,
    outputs: seq<ConnectorId>,
    memoryAccess: Option<MemoryAccess>,
    selfCheck: bool)

  /** A lowered IR unit: its expressions in program order, its connectors,
      the buffer registry, the loop manager (loop id to LoopInfo), and the
      results of the shape-infer sequence helpers (the chain of pure
      shape-relabelling expressions after / before an expression), which are
      not part of this model and are taken as given. */
  datatype LinearIR = LinearIR(
    exprs: seq<Expression>,
    connectors: seq<PortConnector>,
    buffers: seq<ExprId>,
    loopManager: map<nat, LoopInfo>,
    childShapeInferSeq: ExprId -> seq<ExprId>,
    parentShapeInferSeq: ExprId -> seq<ExprId>)

  /** A LoopEnd's flat per-port arrays hold an entry for every loop port. */
  predicate LoopEndArraysCover(d: LoopEndData)
  {
    && d.inputNum + d.outputNum <= |d.isIncremented|
    && d.inputNum + d.outputNum <= |d.ptrIncrements|
    && d.inputNum + d.outputNum <= |d.finalizationOffsets|
  }

  predicate PortInRange(ir: LinearIR, p: ExprPort)
  {
    p.expr < |ir.exprs| && p.index < |ir.exprs[p.expr].inputDescs|
  }

  predicate IdsInRange(ir: LinearIR, ids: seq<ExprId>)
  {
    forall k :: 0 <= k < |ids| ==> ids[k] < |ir.exprs|
  }

  /** Every connector id an expression names exists; a LoopEnd's arrays
      cover its ports. */
  predicate ExpressionWellFormed(ir: LinearIR, x: Expression)
  {
    && (forall k :: 0 <= k < |x.inputs| ==> x.inputs[k] < |ir.connectors|)
    && (forall k :: 0 <= k < |x.outputs| ==> x.outputs[k] < |ir.connectors|)
    && (x.kind.LoopEnd? ==> LoopEndArraysCover(x.kind.loop))
  }

  /** A connector's source expression exists and every consumer names an
      existing input port of an existing expression. */
  predicate ConnectorWellFormed(ir: LinearIR, c: PortConnector)
  {
    && c.source.expr < |ir.exprs|
    && (forall k :: 0 <= k < |c.consumers| ==> PortInRange(ir, c.consumers[k]))
  }

  /** The structural invariants of an IR unit: every reference points at
      something that exists, as the compiler's shared pointers do. */
  predicate WellFormed(ir: LinearIR)
  {
    && (forall e :: 0 <= e < |ir.exprs| ==> ExpressionWellFormed(ir, ir.exprs[e]))
    && (forall c :: 0 <= c < |ir.connectors| ==> ConnectorWellFormed(ir, ir.connectors[c]))
    && IdsInRange(ir, ir.buffers)
    && (forall e :: 0 <= e < |ir.exprs| ==> IdsInRange(ir, ir.childShapeInferSeq(e)))
    && (forall e :: 0 <= e < |ir.exprs| ==> IdsInRange(ir, ir.parentShapeInferSeq(e)))
  }

  /** The expression whose output is examined in place of `e`: the last of
      the shape-infer chain after `e`, or `e` itself when the chain is empty. */
  function ChildValueExpr(ir: LinearIR, e: ExprId): (v: ExprId)
    requires WellFormed(ir) && e < |ir.exprs|
    ensures v < |ir.exprs|
  {
    var s := ir.childShapeInferSeq(e);
    if |s| == 0 then e else s[|s| - 1]
  }

  /** The same, walking back through the shape-infer chain before `e`. */
  function ParentValueExpr(ir: LinearIR, e: ExprId): (v: ExprId)
    requires WellFormed(ir) && e < |ir.exprs|
    ensures v < |ir.exprs|
  {
    var s := ir.parentShapeInferSeq(e);
    if |s| == 0 then e else s[|s| - 1]
  }

  function OutputConnector(ir: LinearIR, e: ExprId, i: nat): (c: PortConnector)
    requires WellFormed(ir) && e < |ir.exprs| && i < |ir.exprs[e].outputs|
    ensures ConnectorWellFormed(ir, c)
  {
    ir.connectors[ir.exprs[e].outputs[i]]
  }

  function InputConnector(ir: LinearIR, e: ExprId, i: nat): (c: PortConnector)
    requires WellFormed(ir) && e < |ir.exprs| && i < |ir.exprs[e].inputs|
    ensures ConnectorWellFormed(ir, c)
  {
    ir.connectors[ir.exprs[e].inputs[i]]
  }

  /** The layout recorded on the input port a consumer entry names. */
  function ConsumerLayout(ir: LinearIR, c: ExprPort): seq<nat>
    requires PortInRange(ir, c)
  {
    ir.exprs[c.expr].inputDescs[c.index].layout
  }
}
