/**
 The span-tree executor of the trace generator (app.go): the per-span dump
 budget, the choice of the root span, and the recursive walk that starts one
 span per configured node under the span of its enclosing node.

 The tracer client is abstracted as the list of span records it is asked to
 produce. Goroutines only change the order in which sibling subtrees are
 produced, not which spans exist or who their parents are, so the walk emits
 records in depth-first pre-order and gives each span the position it takes
 in that order as its identifier (the root is 0).
 */
module Executor {
  import opened Wrappers
  import opened SpanTree
  import Hex
  import Nesting

  /** Keys of the tags the generator sets (the tracer's spellings of the first three are not part of this model). */
  datatype TagKey = ResourceName | SpanType | DumpData | User(key: string)

  /** One `SetTag` call on a span. */
  datatype SetTag = SetTag(key: TagKey, value: string)

  /**
   What the tracer is asked to produce for one span: its identifier and
   parent, its operation name, the tags set in order, the error it is
   finished with, the random dump tag, and the sleeps (in nanoseconds) made
   between start and finish.
   */
  datatype SpanRecord = SpanRecord(
    id: nat,
    parent: Option<nat>,
    operation: string,
    tags: seq<SetTag>,
    error: Option<string>,
    dump: Option<string>,
    sleepsNs: seq<int>)

  /** The random source: byte `i` of the dump of span `id`. */
  type Entropy = (nat, int) -> Hex.Byte

  const Millisecond: int := 1_000_000
  const SyntheticRootName: string := "start_root_span"
  const SyntheticRootMs: int := 10
  /** Bytes per kilobyte of `dump_size`. */
  const KiloByte: int := 1000

  datatype BudgetError = DivideByZero

  /**
   The per-span dump budget in bytes: `dump_size` (kilobytes) shared evenly
   over the configured nodes, or 0 when no dump is configured. The share is
   truncated to whole kilobytes before it is scaled to bytes, so a
   `dump_size` below the node count gives 0. Go's integer division panics
   on an empty forest.
   */
  function DumpBudget(dumpSize: int, trace: seq<SpanNode>): (r: Result<nat, BudgetError>)
    ensures dumpSize <= 0 ==> r == Success(0)
    ensures dumpSize > 0 && |trace| == 0 ==> r == Failure(DivideByZero)
    ensures r.Success? ==> r.value % KiloByte == 0
    ensures dumpSize > 0 && |trace| > 0 ==>
      r.Success? && r.value * ForestSize(trace) <= dumpSize * KiloByte
      && dumpSize * KiloByte < (r.value + KiloByte) * ForestSize(trace)
  {
    if dumpSize > 0 then
      var n := CountSpans(trace, 0);
      CountSpansTotal(trace, 0);
      if n == 0 then Failure(DivideByZero)
      else
        BudgetBounds(dumpSize, n);
        Success((dumpSize / n) * KiloByte)
    else Success(0)
  }

  lemma BudgetBounds(size: nat, n: nat)
    requires n > 0
    ensures (size / n) * KiloByte * n <= size * KiloByte < ((size / n) * KiloByte + KiloByte) * n
  {
    var q := size / n;
    assert q * n <= size < q * n + n;
    assert q * KiloByte * n == (q * n) * KiloByte;
    assert (q * KiloByte + KiloByte) * n == (q * n + n) * KiloByte;
  }

  /**
   A dump of fewer kilobytes than there are nodes gives every span a budget
   of 0, so no span gets a dump tag.
   */
  lemma {:induction false} SmallDumpNoBudget(dumpSize: int, trace: seq<SpanNode>)
    requires 0 < dumpSize < ForestSize(trace)
    ensures DumpBudget(dumpSize, trace) == Success(0)
  {
    var n := ForestSize(trace);
    assert |trace| > 0;
    var r := DumpBudget(dumpSize, trace);
    var k := r.value / KiloByte;
    assert r.value == k * KiloByte;
    assert k * n * KiloByte <= dumpSize * KiloByte;
    assert k * n <= dumpSize;
  }

  /** Go's `time.Duration(d) / 2`, which truncates toward zero. */
  function Half(d: int): (h: int)
    ensures 0 <= d ==> 0 <= h && d - 1 <= h + h <= d
    ensures d < 0 ==> h <= 0 && d <= h + h <= d + 1
    ensures h + h == d <==> d % 2 == 0
  {
    if d >= 0 then d / 2 else -((-d) / 2)
  }

  /** The configured tags of a node, each set with its own key. */
  function UserTags(tags: seq<Tag>): (r: seq<SetTag>)
    ensures |r| == |tags|
    ensures forall i :: 0 <= i < |tags| ==> r[i] == SetTag(User(tags[i].key), tags[i].value)
  {
    if |tags| == 0 then [] else [SetTag(User(tags[0].key), tags[0].value)] + UserTags(tags[1..])
  }

  /** The tags a configured node asks for, in the order they are set: resource, span type, then its own tags. */
  function NodeTags(node: SpanNode): seq<SetTag> {
    [SetTag(ResourceName, node.resource), SetTag(SpanType, node.spanType)] + UserTags(node.tags)
  }

  /** A record carries a configured node: same operation and tags, an error exactly when the node declares one. */
  predicate Carries(r: SpanRecord, node: SpanNode) {
    && r.operation == node.operation
    && r.tags == NodeTags(node)
    && (r.error.Some? <==> |node.error| != 0)
    && (r.error.Some? ==> r.error.value == node.error)
  }

  /** A dump tag is present exactly when the budget is non-zero, and is `2 * fillup` hex digits. */
  predicate DumpFits(r: SpanRecord, fillup: nat) {
    && (r.dump.Some? <==> fillup != 0)
    && (r.dump.Some? ==> |r.dump.value| == 2 * fillup)
    && (r.dump.Some? ==> Hex.AllHex(r.dump.value))
  }

  /** `startSpanFromContext`: starts the span of `node` as a child of `parent`, tags it, sleeps, finishes it. */
  function StartSpan(node: SpanNode, parent: nat, id: nat, fillup: nat, entropy: Entropy): (r: SpanRecord)
    ensures r.id == id && r.parent == Some(parent)
    ensures Carries(r, node) && DumpFits(r, fillup)
    ensures r.sleepsNs == [node.duration * Millisecond]
  {
    var dump := if fillup != 0 then Some(Hex.RandomHexString(fillup, i => entropy(id, i))) else None;
    var err := if |node.error| != 0 then Some(node.error) else None;
    SpanRecord(id, Some(parent), node.operation, NodeTags(node), err, dump, [node.duration * Millisecond])
  }

  /**
   `orchestrator`: a single child runs inline; several children each run in
   their own goroutine under the same parent context and are joined. Both
   branches start, for each child, its span and then the walk of its own
   children under it.
   */
  function Orchestrate(children: seq<SpanNode>, parent: nat, base: nat, fillup: nat, entropy: Entropy): seq<SpanRecord>
    decreases children, 2
  {
    if |children| == 1 then
      var head := StartSpan(children[0], parent, base, fillup, entropy);
      [head] + (if |children[0].children| != 0 then Orchestrate(children[0].children, base, base + 1, fillup, entropy) else [])
    else Fan(children, parent, base, fillup, entropy)
  }

  /** The goroutines of the fan-out branch, in declaration order; `base` is the identifier of the next span. */
  function Fan(children: seq<SpanNode>, parent: nat, base: nat, fillup: nat, entropy: Entropy): seq<SpanRecord>
    decreases children, 1
  {
    if |children| == 0 then []
    else
      var head := StartSpan(children[0], parent, base, fillup, entropy);
      var below := if |children[0].children| != 0 then Orchestrate(children[0].children, base, base + 1, fillup, entropy) else [];
      [head] + below + Fan(children[1..], parent, base + 1 + ForestSize(children[0].children), fillup, entropy)
  }

  /** Both branches of `orchestrator` produce the same spans: the single-child branch is the fan-out of one child. */
  lemma {:induction false} OrchestrateIsFan(children: seq<SpanNode>, parent: nat, base: nat, fillup: nat, entropy: Entropy)
    ensures Orchestrate(children, parent, base, fillup, entropy) == Fan(children, parent, base, fillup, entropy)
  {
    if |children| == 1 {
      assert children[1..] == [];
    }
  }

  /** A record in position: identifier `id`, parent `p`, carrying `node` and a fitting dump tag. */
  predicate Placed(r: SpanRecord, node: SpanNode, p: nat, id: nat, fillup: nat) {
    && r.id == id
    && r.parent == Some(p)
    && Carries(r, node)
    && DumpFits(r, fillup)
  }

  /** Every record of `rs` is in position, numbered from `base`, carrying `nodes` under the parents `ps`. */
  predicate AllPlaced(rs: seq<SpanRecord>, nodes: seq<SpanNode>, ps: seq<nat>, base: nat, fillup: nat) {
    && |rs| == |nodes| == |ps|
    && forall k :: 0 <= k < |rs| ==> Placed(rs[k], nodes[k], ps[k], base + k, fillup)
  }

  /** Splits the walk of a non-empty forest into its first node's span, that node's subtree, and the rest. */
  lemma FanSplit(children: seq<SpanNode>, parent: nat, base: nat, fillup: nat, entropy: Entropy, c: SpanNode, next: nat)
    requires |children| > 0
    requires c == children[0] && next == base + 1 + ForestSize(c.children)
    ensures Fan(children, parent, base, fillup, entropy)
            == [StartSpan(c, parent, base, fillup, entropy)] + Fan(c.children, base, base + 1, fillup, entropy)
               + Fan(children[1..], parent, next, fillup, entropy)
  {
    OrchestrateIsFan(c.children, base, base + 1, fillup, entropy);
    if |c.children| == 0 {
      assert Orchestrate(c.children, base, base + 1, fillup, entropy) == [];
    }
  }

  /**
   The walk of a forest starts exactly one span per node, in pre-order: the
   span at position `k` has identifier `base + k`, carries the `k`-th node of
   the forest and its dump tag, and is started under the span of the node
   that encloses it (`Nesting.Parents`).
   */
  lemma {:induction false} FanShape(children: seq<SpanNode>, parent: nat, base: nat, fillup: nat, entropy: Entropy)
    ensures AllPlaced(Fan(children, parent, base, fillup, entropy), Flatten(children),
                      Nesting.Parents(children, parent, base), base, fillup)
    decreases children
  {
    if |children| > 0 {
      var c := children[0];
      var next := base + 1 + ForestSize(c.children);
      FanShape(c.children, base, base + 1, fillup, entropy);
      FanShape(children[1..], parent, next, fillup, entropy);
      FanSplit(children, parent, base, fillup, entropy, c, next);
      Nesting.Split(children, parent, base, c, next);
      PlaceBlock(Fan(children, parent, base, fillup, entropy), Flatten(children), Nesting.Parents(children, parent, base),
                 StartSpan(c, parent, base, fillup, entropy), c, parent,
                 Fan(c.children, base, base + 1, fillup, entropy), Flatten(c.children), Nesting.Parents(c.children, base, base + 1),
                 Fan(children[1..], parent, next, fillup, entropy), Flatten(children[1..]), Nesting.Parents(children[1..], parent, next),
                 base, fillup);
    }
  }

  /** The walk of a forest has one span per node. */
  lemma FanLength(children: seq<SpanNode>, parent: nat, base: nat, fillup: nat, entropy: Entropy)
    ensures |Fan(children, parent, base, fillup, entropy)| == |Flatten(children)| == ForestSize(children)
  {
    FanShape(children, parent, base, fillup, entropy);
  }

  /** `orchestrator` starts as many spans as `countSpans` counts nodes, and none for an empty list. */
  lemma OrchestrateCount(children: seq<SpanNode>, parent: nat, base: nat, fillup: nat, entropy: Entropy)
    ensures |Orchestrate(children, parent, base, fillup, entropy)| == CountSpans(children, 0)
    ensures |children| == 0 ==> Orchestrate(children, parent, base, fillup, entropy) == []
  {
    OrchestrateIsFan(children, parent, base, fillup, entropy);
    FanLength(children, parent, base, fillup, entropy);
    CountSpansTotal(children, 0);
  }

  /** Assembles the placement of a forest's walk from its first node's span, its subtree, and the rest. */
  lemma PlaceBlock(rs: seq<SpanRecord>, nodes: seq<SpanNode>, ps: seq<nat>,
                   head: SpanRecord, c: SpanNode, p: nat,
                   below: seq<SpanRecord>, belowNodes: seq<SpanNode>, belowPs: seq<nat>,
                   rest: seq<SpanRecord>, restNodes: seq<SpanNode>, restPs: seq<nat>,
                   base: nat, fillup: nat)
    requires rs == [head] + below + rest && nodes == [c] + belowNodes + restNodes && ps == [p] + belowPs + restPs
    requires Placed(head, c, p, base, fillup)
    requires AllPlaced(below, belowNodes, belowPs, base + 1, fillup)
    requires AllPlaced(rest, restNodes, restPs, base + 1 + |below|, fillup)
    ensures AllPlaced(rs, nodes, ps, base, fillup)
  {
    forall k | 0 <= k < |rs|
      ensures Placed(rs[k], nodes[k], ps[k], base + k, fillup)
    {
      if 1 <= k < 1 + |below| {
        assert rs[k] == below[k - 1] && nodes[k] == belowNodes[k - 1] && ps[k] == belowPs[k - 1];
        assert Placed(below[k - 1], belowNodes[k - 1], belowPs[k - 1], base + 1 + (k - 1), fillup);
      } else if 1 + |below| <= k {
        var j := k - 1 - |below|;
        assert rs[k] == rest[j] && nodes[k] == restNodes[j] && ps[k] == restPs[j];
        assert Placed(rest[j], restNodes[j], restPs[j], base + 1 + |below| + j, fillup);
      }
    }
  }

  /**
   The nodes, taken from the aligned list `nodes`, of the records whose
   parent is span `id`, in emission order: the children list a reader of the
   emitted spans reconstructs for `id`.
   */
  function ChildrenOf<T>(records: seq<SpanRecord>, nodes: seq<T>, id: nat): seq<T>
    requires |records| == |nodes|
  {
    if |records| == 0 then []
    else (if records[0].parent == Some(id) then [nodes[0]] else []) + ChildrenOf(records[1..], nodes[1..], id)
  }

  /** Records started under the parents `ps` group their nodes exactly as `ps` does. */
  lemma {:induction false} ChildrenOfParents<T>(rs: seq<SpanRecord>, ps: seq<nat>, nodes: seq<T>, id: nat)
    requires |rs| == |ps| == |nodes|
    requires forall k :: 0 <= k < |rs| ==> rs[k].parent == Some(ps[k])
    ensures ChildrenOf(rs, nodes, id) == Nesting.Under(ps, nodes, id)
  {
    if |rs| > 0 {
      ChildrenOfParents(rs[1..], ps[1..], nodes[1..], id);
    }
  }

  /** The walk's records sit under the parents `Nesting.Parents` lists. */
  lemma FanParents<T>(children: seq<SpanNode>, parent: nat, base: nat, fillup: nat, entropy: Entropy, nodes: seq<T>, id: nat)
    requires |nodes| == ForestSize(children)
    ensures |Fan(children, parent, base, fillup, entropy)| == |nodes|
    ensures ChildrenOf(Fan(children, parent, base, fillup, entropy), nodes, id)
            == Nesting.Under(Nesting.Parents(children, parent, base), nodes, id)
  {
    var rs := Fan(children, parent, base, fillup, entropy);
    var ps := Nesting.Parents(children, parent, base);
    FanShape(children, parent, base, fillup, entropy);
    forall k | 0 <= k < |rs|
      ensures rs[k].parent == Some(ps[k])
    {
      assert Placed(rs[k], Flatten(children)[k], ps[k], base + k, fillup);
    }
    ChildrenOfParents(rs, ps, nodes, id);
  }

  /** The spans whose parent is the enclosing context carry exactly the forest's top-level nodes, in order. */
  lemma TopLevelChildren(children: seq<SpanNode>, parent: nat, base: nat, fillup: nat, entropy: Entropy)
    requires parent < base
    ensures |Fan(children, parent, base, fillup, entropy)| == |Flatten(children)|
    ensures ChildrenOf(Fan(children, parent, base, fillup, entropy), Flatten(children), parent) == children
  {
    FanParents(children, parent, base, fillup, entropy, Flatten(children), parent);
    Nesting.TopLevel(children, parent, base);
  }

  /**
   For every span of the walk, the spans whose parent it is carry exactly
   the configured children of its node, in order.
   */
  lemma InnerChildren(children: seq<SpanNode>, parent: nat, base: nat, fillup: nat, entropy: Entropy, id: nat)
    requires parent < base <= id < base + ForestSize(children)
    ensures |Fan(children, parent, base, fillup, entropy)| == |Flatten(children)|
    ensures ChildrenOf(Fan(children, parent, base, fillup, entropy), Flatten(children), id)
            == Flatten(children)[id - base].children
  {
    FanParents(children, parent, base, fillup, entropy, Flatten(children), id);
    Nesting.Inner(children, parent, base, id);
  }

  /**
   `startRootSpan`: a trace of exactly one node becomes the root span itself
   and its children are walked next; any other trace (none or several nodes)
   gets a synthetic root of 10 ms and is walked whole under it. The root has
   no parent and no dump tag, and waits its duration in two halves, one
   before `startRootSpan` returns and one before it is finished.
   */
  function StartRootSpan(trace: seq<SpanNode>): (out: (SpanRecord, seq<SpanNode>))
    ensures out.0.id == 0 && out.0.parent == None && out.0.dump == None
    ensures |trace| == 1 ==> Carries(out.0, trace[0]) && out.1 == trace[0].children
    ensures |trace| != 1 ==>
      && out.0.operation == SyntheticRootName && out.0.tags == [] && out.0.error == None
      && out.1 == trace
    ensures |out.0.sleepsNs| == 2
    ensures var d := if |trace| == 1 then trace[0].duration * Millisecond else SyntheticRootMs * Millisecond;
      && out.0.sleepsNs[0] == out.0.sleepsNs[1]
      && (d >= 0 ==> d - 1 <= out.0.sleepsNs[0] + out.0.sleepsNs[1] <= d)
  {
    if |trace| == 1 then
      var node := trace[0];
      var d := node.duration * Millisecond;
      var err := if |node.error| != 0 then Some(node.error) else None;
      (SpanRecord(0, None, node.operation, NodeTags(node), err, None, [Half(d), Half(d)]), node.children)
    else
      var d := SyntheticRootMs * Millisecond;
      (SpanRecord(0, None, SyntheticRootName, [], None, None, [Half(d), Half(d)]), trace)
  }

  /**
   `main` after the tracer is started: the dump budget, the root span, then
   the walk of the root's children under it, numbered from 1. Fails exactly
   when the budget divides by an empty trace.
   */
  function Run(cfg: Config, entropy: Entropy): (r: Result<seq<SpanRecord>, BudgetError>)
    ensures r.Failure? <==> cfg.dumpSize > 0 && |cfg.trace| == 0
  {
    match DumpBudget(cfg.dumpSize, cfg.trace)
    case Failure(e) => Failure(e)
    case Success(fillup) =>
      var (root, children) := StartRootSpan(cfg.trace);
      Success([root] + Orchestrate(children, 0, 1, fillup, entropy))
  }

  /** A successful run is the root span followed by the walk of the root's children. */
  lemma RunIsWalk(cfg: Config, entropy: Entropy, fillup: nat, root: SpanRecord, children: seq<SpanNode>)
    requires DumpBudget(cfg.dumpSize, cfg.trace) == Success(fillup)
    requires StartRootSpan(cfg.trace) == (root, children)
    ensures Run(cfg, entropy) == Success([root] + Fan(children, 0, 1, fillup, entropy))
  {
    OrchestrateIsFan(children, 0, 1, fillup, entropy);
  }

  /** The root's record takes no part in grouping the walk's spans by parent. */
  lemma DropRoot<T>(records: seq<SpanRecord>, nodes: seq<T>, root: SpanRecord, node: T,
                    walk: seq<SpanRecord>, walkNodes: seq<T>, id: nat)
    requires records == [root] + walk && nodes == [node] + walkNodes
    requires |walk| == |walkNodes| && root.parent == None
    ensures |records| == |nodes|
    ensures ChildrenOf(records, nodes, id) == ChildrenOf(walk, walkNodes, id)
  {
    assert records[1..] == walk && nodes[1..] == walkNodes;
  }

  /** Past its head, a sequence is its tail one position further on. */
  lemma ShiftByOne<T>(s: seq<T>, x: T, tail: seq<T>)
    requires s == [x] + tail
    ensures s[0] == x && forall k :: 1 <= k < |s| ==> s[k] == tail[k - 1]
  {
  }

  /** A trace of one node flattens to that node followed by the flattening of its children. */
  lemma FlattenSingle(trace: seq<SpanNode>)
    requires |trace| == 1
    ensures Flatten(trace) == [trace[0]] + Flatten(trace[0].children)
  {
    assert trace[1..] == [];
  }

  /**
   A run whose trace is one node emits one span per configured node, lined
   up with the configured tree in pre-order: span `k` is numbered `k` and
   carries the `k`-th node, the root has no parent, and every other span
   carries a dump tag fitting the budget.
   */
  lemma RunSingleRecords(cfg: Config, entropy: Entropy)
    requires |cfg.trace| == 1
    ensures Run(cfg, entropy).Success?
    ensures var records := Run(cfg, entropy).value;
      && |records| == CountSpans(cfg.trace, 0) == |Flatten(cfg.trace)|
      && records[0].parent == None
      && (forall k :: 0 <= k < |records| ==> records[k].id == k && Carries(records[k], Flatten(cfg.trace)[k]))
      && (forall k :: 1 <= k < |records| ==> DumpFits(records[k], DumpBudget(cfg.dumpSize, cfg.trace).value))
  {
    var trace := cfg.trace;
    var fillup := DumpBudget(cfg.dumpSize, trace).value;
    var (root, children) := StartRootSpan(trace);
    var walk := Fan(children, 0, 1, fillup, entropy);
    RunIsWalk(cfg, entropy, fillup, root, children);
    FlattenSingle(trace);
    FanShape(children, 0, 1, fillup, entropy);
    CountSpansEmpty(trace, 0);
    AfterRoot([root] + walk, root, walk, Flatten(children), Nesting.Parents(children, 0, 1), fillup);
    ShiftByOne(Flatten(trace), trace[0], Flatten(children));
  }

  /** The records after the root are the walk's, each one position further on. */
  lemma AfterRoot(records: seq<SpanRecord>, root: SpanRecord, walk: seq<SpanRecord>, walkNodes: seq<SpanNode>,
                  ps: seq<nat>, fillup: nat)
    requires records == [root] + walk
    requires AllPlaced(walk, walkNodes, ps, 1, fillup)
    ensures |records| == 1 + |walkNodes|
    ensures forall k :: 1 <= k < |records| ==>
      records[k].id == k && Carries(records[k], walkNodes[k - 1]) && DumpFits(records[k], fillup)
  {
    forall k | 1 <= k < |records|
      ensures records[k].id == k && Carries(records[k], walkNodes[k - 1]) && DumpFits(records[k], fillup)
    {
      assert records[k] == walk[k - 1];
      assert Placed(walk[k - 1], walkNodes[k - 1], ps[k - 1], 1 + (k - 1), fillup);
    }
  }

  /**
   In a run whose trace is one node, the spans started under span `id` carry
   exactly the configured children of the `id`-th node, in order: the
   emitted spans rebuild the configured tree.
   */
  lemma RunSingleChildren(cfg: Config, entropy: Entropy, id: nat)
    requires |cfg.trace| == 1 && id < ForestSize(cfg.trace)
    ensures Run(cfg, entropy).Success?
    ensures |Run(cfg, entropy).value| == |Flatten(cfg.trace)|
    ensures ChildrenOf(Run(cfg, entropy).value, Flatten(cfg.trace), id) == Flatten(cfg.trace)[id].children
  {
    var trace := cfg.trace;
    var fillup := DumpBudget(cfg.dumpSize, trace).value;
    var (root, children) := StartRootSpan(trace);
    RunIsWalk(cfg, entropy, fillup, root, children);
    FlattenSingle(trace);
    FanLength(children, 0, 1, fillup, entropy);
    DropRoot([root] + Fan(children, 0, 1, fillup, entropy), Flatten(trace), root, trace[0],
             Fan(children, 0, 1, fillup, entropy), Flatten(children), id);
    if id == 0 {
      TopLevelChildren(children, 0, 1, fillup, entropy);
    } else {
      InnerChildren(children, 0, 1, fillup, entropy, id);
      assert Flatten(trace)[id] == Flatten(children)[id - 1];
    }
  }

  /**
   A run whose trace is empty or has several nodes emits the synthetic root
   and then one span per configured node in pre-order: span `k + 1` carries
   the `k`-th node and a dump tag fitting the budget.
   */
  lemma RunManyRecords(cfg: Config, entropy: Entropy)
    requires |cfg.trace| != 1 && Run(cfg, entropy).Success?
    ensures var records := Run(cfg, entropy).value;
      && |records| == 1 + CountSpans(cfg.trace, 0) == 1 + |Flatten(cfg.trace)|
      && records[0].parent == None && records[0].operation == SyntheticRootName
      && (forall k :: 0 <= k < |records| ==> records[k].id == k)
      && (forall k :: 1 <= k < |records| ==> Carries(records[k], Flatten(cfg.trace)[k - 1]))
      && (forall k :: 1 <= k < |records| ==> DumpFits(records[k], DumpBudget(cfg.dumpSize, cfg.trace).value))
  {
    var trace := cfg.trace;
    var fillup := DumpBudget(cfg.dumpSize, trace).value;
    var (root, children) := StartRootSpan(trace);
    var walk := Fan(children, 0, 1, fillup, entropy);
    RunIsWalk(cfg, entropy, fillup, root, children);
    FanShape(children, 0, 1, fillup, entropy);
    CountSpansEmpty(trace, 0);
    AfterRoot([root] + walk, root, walk, Flatten(trace), Nesting.Parents(children, 0, 1), fillup);
  }

  /**
   In a run whose trace is empty or has several nodes, the configured
   top-level nodes are exactly the spans under the synthetic root, and under
   every other span lie exactly the configured children of its node.
   */
  lemma RunManyChildren(cfg: Config, entropy: Entropy, id: nat)
    requires |cfg.trace| != 1 && Run(cfg, entropy).Success? && id <= ForestSize(cfg.trace)
    ensures |Run(cfg, entropy).value| == 1 + |Flatten(cfg.trace)|
    ensures var walk := Run(cfg, entropy).value[1..];
      ChildrenOf(walk, Flatten(cfg.trace), id) == if id == 0 then cfg.trace else Flatten(cfg.trace)[id - 1].children
  {
    var trace := cfg.trace;
    var fillup := DumpBudget(cfg.dumpSize, trace).value;
    var (root, children) := StartRootSpan(trace);
    RunIsWalk(cfg, entropy, fillup, root, children);
    assert Run(cfg, entropy).value[1..] == Fan(children, 0, 1, fillup, entropy);
    if id == 0 {
      TopLevelChildren(children, 0, 1, fillup, entropy);
    } else {
      InnerChildren(children, 0, 1, fillup, entropy, id);
    }
  }
}
