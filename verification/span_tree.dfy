/**
 Configuration data model of the trace generator (app.go): the span
 descriptors of the configured call tree, and the node count the generator
 computes before it walks the tree.
 */
module SpanTree {

  /** A user tag of a configured span. JSON values of any kind are kept as their text. */
  datatype Tag = Tag(key: string, value: string)

  /** One configured span (type `span`); `duration` is in milliseconds. */
  datatype SpanNode = SpanNode(
    resource: string,
    operation: string,
    spanType: string,
    duration: int,
    error: string,
    tags: seq<Tag>,
    children: seq<SpanNode>)

  /** Sender settings (type `sender`); `sendInterval` is read from the configuration but never used. */
  datatype SenderConfig = SenderConfig(threads: int, sendCount: int, sendInterval: int)

  /** The whole configuration (type `config`). */
  datatype Config = Config(
    dkAgent: string,
    sender: SenderConfig,
    service: string,
    dumpSize: int,
    trace: seq<SpanNode>)

  /** Number of nodes in a forest, counted structurally: the reference for `countSpans`. */
  function ForestSize(forest: seq<SpanNode>): nat
    decreases forest
  {
    if |forest| == 0 then 0
    else 1 + ForestSize(forest[0].children) + ForestSize(forest[1..])
  }

  /** Nodes of a forest in depth-first pre-order (each node before its descendants). */
  function Flatten(forest: seq<SpanNode>): (nodes: seq<SpanNode>)
    ensures |nodes| == ForestSize(forest)
    decreases forest
  {
    if |forest| == 0 then []
    else [forest[0]] + Flatten(forest[0].children) + Flatten(forest[1..])
  }

  /**
   `countSpans(trace, c)`: adds the number of top-level nodes to the
   accumulator, then, for every node in order that has children, threads the
   accumulator through the count of that node's children.
   */
  function CountSpans(trace: seq<SpanNode>, c: int): int
    decreases trace, 1
  {
    CountLoop(trace, 0, c + |trace|)
  }

  /** The `for i := range trace` loop of `countSpans`, from index `i` on. */
  function CountLoop(trace: seq<SpanNode>, i: nat, c: int): int
    requires i <= |trace|
    decreases trace, 0, |trace| - i
  {
    if i == |trace| then c
    else if |trace[i].children| != 0 then CountLoop(trace, i + 1, CountSpans(trace[i].children, c))
    else CountLoop(trace, i + 1, c)
  }

  /** Sum of the subtree sizes of `trace[i..]`'s children lists. */
  function ChildrenSize(trace: seq<SpanNode>, i: nat): nat
    requires i <= |trace|
    decreases |trace| - i
  {
    if i == |trace| then 0 else ForestSize(trace[i].children) + ChildrenSize(trace, i + 1)
  }

  lemma {:induction false} ForestSizeSplit(trace: seq<SpanNode>, i: nat)
    requires i <= |trace|
    ensures ForestSize(trace[i..]) == (|trace| - i) + ChildrenSize(trace, i)
    decreases |trace| - i
  {
    if i < |trace| {
      ForestSizeSplit(trace, i + 1);
      assert trace[i..][1..] == trace[i + 1..];
      assert trace[i..][0] == trace[i];
    }
  }

  /** The loop adds, on top of its accumulator, the sizes of the remaining nodes' subtrees below them. */
  lemma {:induction false} CountLoopTotal(trace: seq<SpanNode>, i: nat, c: int)
    requires i <= |trace|
    ensures CountLoop(trace, i, c) == c + ChildrenSize(trace, i)
    decreases trace, 0, |trace| - i
  {
    if i < |trace| {
      if |trace[i].children| != 0 {
        CountSpansTotal(trace[i].children, c);
      }
      CountLoopTotal(trace, i + 1, if |trace[i].children| != 0 then CountSpans(trace[i].children, c) else c);
    }
  }

  /** `countSpans(t, c)` is `c` plus the number of nodes of the forest `t`. */
  lemma {:induction false} CountSpansTotal(trace: seq<SpanNode>, c: int)
    ensures CountSpans(trace, c) == c + ForestSize(trace)
    decreases trace, 1
  {
    CountLoopTotal(trace, 0, c + |trace|);
    ForestSizeSplit(trace, 0);
    assert trace[0..] == trace;
  }

  /** An empty forest leaves the accumulator unchanged; a non-empty one increases it. */
  lemma CountSpansEmpty(trace: seq<SpanNode>, c: int)
    ensures CountSpans(trace, c) == c <==> |trace| == 0
    ensures CountSpans(trace, 0) == |Flatten(trace)|
  {
    CountSpansTotal(trace, c);
    CountSpansTotal(trace, 0);
  }
}
