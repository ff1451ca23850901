/**
 How the walk of a configured forest nests its spans, stated on parent
 identifiers alone: `Parents` lists, in depth-first pre-order, the identifier
 of the span each node is started under when spans are numbered in that same
 order from `base`, and `Under` collects the nodes whose span sits under a
 given identifier. The span records the walk produces are tied to `Parents`
 in the executor.
 */
module Nesting {
  import opened SpanTree

  /** The parent identifier of every node of `forest`, in pre-order; the forest's own nodes sit under `parent`. */
  function Parents(forest: seq<SpanNode>, parent: nat, base: nat): (ps: seq<nat>)
    ensures |ps| == ForestSize(forest)
    decreases forest
  {
    if |forest| == 0 then []
    else [parent] + Parents(forest[0].children, base, base + 1)
         + Parents(forest[1..], parent, base + 1 + ForestSize(forest[0].children))
  }

  /** The nodes, taken from the aligned list `nodes`, whose parent identifier is `id`, in order. */
  function Under<T>(ps: seq<nat>, nodes: seq<T>, id: nat): seq<T>
    requires |ps| == |nodes|
  {
    if |ps| == 0 then []
    else (if ps[0] == id then [nodes[0]] else []) + Under(ps[1..], nodes[1..], id)
  }

  /** Every position is under `parent` or under an earlier position, positions being numbered from `base`. */
  predicate Nested(ps: seq<nat>, parent: nat, base: nat) {
    forall k :: 0 <= k < |ps| ==> ps[k] == parent || base <= ps[k] < base + k
  }

  /** No position is under `id`. */
  predicate NoneUnder(ps: seq<nat>, id: nat) {
    forall k :: 0 <= k < |ps| ==> ps[k] != id
  }

  /** Splits a non-empty forest into its first node, that node's subtree, and the rest, for both lists. */
  lemma {:induction false} Split(forest: seq<SpanNode>, parent: nat, base: nat, c: SpanNode, next: nat)
    requires |forest| > 0
    requires c == forest[0] && next == base + 1 + ForestSize(c.children)
    ensures Parents(forest, parent, base) == [parent] + Parents(c.children, base, base + 1) + Parents(forest[1..], parent, next)
    ensures Flatten(forest) == [c] + Flatten(c.children) + Flatten(forest[1..])
  {
  }

  /** The walk only ever parents a span to its context or to a span started before it. */
  lemma {:induction false} ParentsNested(forest: seq<SpanNode>, parent: nat, base: nat)
    ensures Nested(Parents(forest, parent, base), parent, base)
    decreases forest
  {
    if |forest| > 0 {
      var c := forest[0];
      var next := base + 1 + ForestSize(c.children);
      ParentsNested(c.children, base, base + 1);
      ParentsNested(forest[1..], parent, next);
      Split(forest, parent, base, c, next);
      NestedBlock(Parents(forest, parent, base), Parents(c.children, base, base + 1), Parents(forest[1..], parent, next),
                  parent, base);
    }
  }

  lemma {:induction false} NestedBlock(ps: seq<nat>, below: seq<nat>, rest: seq<nat>, parent: nat, base: nat)
    requires ps == [parent] + below + rest
    requires Nested(below, base, base + 1)
    requires Nested(rest, parent, base + 1 + |below|)
    ensures Nested(ps, parent, base)
  {
    forall k | 0 <= k < |ps|
      ensures ps[k] == parent || base <= ps[k] < base + k
    {
      if 1 <= k < 1 + |below| {
        assert ps[k] == below[k - 1];
      } else if 1 + |below| <= k {
        assert ps[k] == rest[k - 1 - |below|];
      }
    }
  }

  /** An identifier that is neither the context nor one of the walk's own parents none of its positions. */
  lemma {:induction false} Outside(forest: seq<SpanNode>, parent: nat, base: nat, id: nat)
    requires id != parent && (id < base || base + ForestSize(forest) <= id)
    ensures NoneUnder(Parents(forest, parent, base), id)
  {
    ParentsNested(forest, parent, base);
  }

  lemma {:induction false} UnderConcat<T>(p1: seq<nat>, n1: seq<T>, p2: seq<nat>, n2: seq<T>, id: nat)
    requires |p1| == |n1| && |p2| == |n2|
    ensures Under(p1 + p2, n1 + n2, id) == Under(p1, n1, id) + Under(p2, n2, id)
  {
    if |p1| > 0 {
      assert (p1 + p2)[1..] == p1[1..] + p2;
      assert (n1 + n2)[1..] == n1[1..] + n2;
      UnderConcat(p1[1..], n1[1..], p2, n2, id);
    } else {
      assert p1 + p2 == p2 && n1 + n2 == n2;
    }
  }

  lemma {:induction false} UnderNone<T>(ps: seq<nat>, nodes: seq<T>, id: nat)
    requires |ps| == |nodes| && NoneUnder(ps, id)
    ensures Under(ps, nodes, id) == []
  {
    if |ps| > 0 {
      UnderNone(ps[1..], nodes[1..], id);
    }
  }

  /** `Under` over a list split into a first position, its subtree, and the rest. */
  lemma {:induction false} UnderBlock<T>(ps: seq<nat>, nodes: seq<T>, p: nat, c: T, below: seq<nat>, belowNodes: seq<T>,
                      rest: seq<nat>, restNodes: seq<T>, id: nat)
    requires ps == [p] + below + rest && nodes == [c] + belowNodes + restNodes
    requires |below| == |belowNodes| && |rest| == |restNodes|
    ensures |ps| == |nodes|
    ensures Under(ps, nodes, id)
            == (if p == id then [c] else []) + Under(below, belowNodes, id) + Under(rest, restNodes, id)
  {
    UnderConcat([p], [c], below, belowNodes, id);
    UnderConcat([p] + below, [c] + belowNodes, rest, restNodes, id);
  }

  /** When neither the first position nor the rest is under `id`, everything under it lies in the subtree. */
  lemma {:induction false} OnlyBelow<T>(ps: seq<nat>, nodes: seq<T>, p: nat, c: T, below: seq<nat>, belowNodes: seq<T>,
                     rest: seq<nat>, restNodes: seq<T>, id: nat)
    requires ps == [p] + below + rest && nodes == [c] + belowNodes + restNodes
    requires |below| == |belowNodes| && |rest| == |restNodes|
    requires p != id && NoneUnder(rest, id)
    ensures |ps| == |nodes|
    ensures Under(ps, nodes, id) == Under(below, belowNodes, id)
  {
    UnderBlock(ps, nodes, p, c, below, belowNodes, rest, restNodes, id);
    UnderNone(rest, restNodes, id);
    assert [] + Under(below, belowNodes, id) + [] == Under(below, belowNodes, id);
  }

  /** When neither the first position nor its subtree is under `id`, everything under it lies in the rest. */
  lemma {:induction false} OnlyRest<T>(ps: seq<nat>, nodes: seq<T>, p: nat, c: T, below: seq<nat>, belowNodes: seq<T>,
                    rest: seq<nat>, restNodes: seq<T>, id: nat)
    requires ps == [p] + below + rest && nodes == [c] + belowNodes + restNodes
    requires |below| == |belowNodes| && |rest| == |restNodes|
    requires p != id && NoneUnder(below, id)
    ensures |ps| == |nodes|
    ensures Under(ps, nodes, id) == Under(rest, restNodes, id)
  {
    UnderBlock(ps, nodes, p, c, below, belowNodes, rest, restNodes, id);
    UnderNone(below, belowNodes, id);
    assert [] + [] + Under(rest, restNodes, id) == Under(rest, restNodes, id);
  }

  /** When only the first position is under `id` outside the rest, it leads everything under `id`. */
  lemma {:induction false} FirstThenRest<T>(ps: seq<nat>, nodes: seq<T>, p: nat, c: T, below: seq<nat>, belowNodes: seq<T>,
                         rest: seq<nat>, restNodes: seq<T>, id: nat)
    requires ps == [p] + below + rest && nodes == [c] + belowNodes + restNodes
    requires |below| == |belowNodes| && |rest| == |restNodes|
    requires p == id && NoneUnder(below, id)
    ensures |ps| == |nodes|
    ensures Under(ps, nodes, id) == [c] + Under(rest, restNodes, id)
  {
    UnderBlock(ps, nodes, p, c, below, belowNodes, rest, restNodes, id);
    UnderNone(below, belowNodes, id);
    assert [c] + [] + Under(rest, restNodes, id) == [c] + Under(rest, restNodes, id);
  }

  /** The nodes directly under the context are exactly the forest's own nodes, in order. */
  lemma {:induction false} TopLevel(forest: seq<SpanNode>, parent: nat, base: nat)
    requires parent < base
    ensures |Parents(forest, parent, base)| == |Flatten(forest)|
    ensures Under(Parents(forest, parent, base), Flatten(forest), parent) == forest
    decreases forest
  {
    if |forest| > 0 {
      var c := forest[0];
      var next := base + 1 + ForestSize(c.children);
      TopLevel(forest[1..], parent, next);
      Outside(c.children, base, base + 1, parent);
      Split(forest, parent, base, c, next);
      FirstThenRest(Parents(forest, parent, base), Flatten(forest), parent, c,
                    Parents(c.children, base, base + 1), Flatten(c.children),
                    Parents(forest[1..], parent, next), Flatten(forest[1..]), parent);
      assert [forest[0]] + forest[1..] == forest;
    }
  }

  /**
   For every position `id` of the walk, the nodes under it are exactly the
   configured children of the node at that position, in order.
   */
  lemma {:induction false} Inner(forest: seq<SpanNode>, parent: nat, base: nat, id: nat)
    requires parent < base <= id < base + ForestSize(forest)
    ensures |Parents(forest, parent, base)| == |Flatten(forest)|
    ensures Under(Parents(forest, parent, base), Flatten(forest), id) == Flatten(forest)[id - base].children
    decreases forest, 1
  {
    if id == base {
      InnerFirst(forest, parent, base);
    } else if id <= base + ForestSize(forest[0].children) {
      InnerBelow(forest, parent, base, id);
    } else {
      InnerRest(forest, parent, base, id);
    }
  }

  /** `Inner` for the first node of the forest: the top level of its own subtree. */
  lemma {:induction false} InnerFirst(forest: seq<SpanNode>, parent: nat, base: nat)
    requires parent < base && |forest| > 0
    ensures |Parents(forest, parent, base)| == |Flatten(forest)|
    ensures Under(Parents(forest, parent, base), Flatten(forest), base) == Flatten(forest)[0].children
  {
    var c := forest[0];
    var next := base + 1 + ForestSize(c.children);
    TopLevel(c.children, base, base + 1);
    Outside(forest[1..], parent, next, base);
    Split(forest, parent, base, c, next);
    OnlyBelow(Parents(forest, parent, base), Flatten(forest), parent, c,
              Parents(c.children, base, base + 1), Flatten(c.children),
              Parents(forest[1..], parent, next), Flatten(forest[1..]), base);
  }

  /** `Inner` for a node inside the first node's subtree. */
  lemma {:induction false} InnerBelow(forest: seq<SpanNode>, parent: nat, base: nat, id: nat)
    requires parent < base && |forest| > 0
    requires base < id <= base + ForestSize(forest[0].children)
    ensures |Parents(forest, parent, base)| == |Flatten(forest)|
    ensures Under(Parents(forest, parent, base), Flatten(forest), id) == Flatten(forest)[id - base].children
    decreases forest, 0
  {
    var k: nat := id - base - 1;
    Inner(forest[0].children, base, base + 1, id);
    BelowUnder(forest, parent, base, id);
    BelowIndex(forest, k);
    assert id - base == k + 1 && id - (base + 1) == k;
  }

  /** Inside the first node's subtree, what lies under a position is decided by the subtree alone. */
  lemma {:induction false} BelowUnder(forest: seq<SpanNode>, parent: nat, base: nat, id: nat)
    requires parent < base && |forest| > 0
    requires base < id <= base + ForestSize(forest[0].children)
    ensures |Parents(forest, parent, base)| == |Flatten(forest)|
    ensures |Parents(forest[0].children, base, base + 1)| == |Flatten(forest[0].children)|
    ensures Under(Parents(forest, parent, base), Flatten(forest), id)
            == Under(Parents(forest[0].children, base, base + 1), Flatten(forest[0].children), id)
  {
    var c := forest[0];
    var next := base + 1 + ForestSize(c.children);
    Outside(forest[1..], parent, next, id);
    Split(forest, parent, base, c, next);
    OnlyBelow(Parents(forest, parent, base), Flatten(forest), parent, c,
              Parents(c.children, base, base + 1), Flatten(c.children),
              Parents(forest[1..], parent, next), Flatten(forest[1..]), id);
  }

  /** Position `k + 1` of the forest is position `k` of the first node's subtree, when it lies inside it. */
  lemma {:induction false} BelowIndex(forest: seq<SpanNode>, k: nat)
    requires |forest| > 0 && k < ForestSize(forest[0].children)
    ensures k + 1 < |Flatten(forest)| && k < |Flatten(forest[0].children)|
    ensures Flatten(forest)[k + 1] == Flatten(forest[0].children)[k]
  {
    var c := forest[0];
    var below := Flatten(c.children);
    assert Flatten(forest) == [c] + below + Flatten(forest[1..]);
    assert Flatten(forest)[k + 1] == below[k];
  }

  /** `Inner` for a node after the first node's subtree. */
  lemma {:induction false} InnerRest(forest: seq<SpanNode>, parent: nat, base: nat, id: nat)
    requires parent < base && |forest| > 0
    requires base + 1 + ForestSize(forest[0].children) <= id < base + ForestSize(forest)
    ensures |Parents(forest, parent, base)| == |Flatten(forest)|
    ensures Under(Parents(forest, parent, base), Flatten(forest), id) == Flatten(forest)[id - base].children
    decreases forest, 0
  {
    var next := base + 1 + ForestSize(forest[0].children);
    var k: nat := id - next;
    Inner(forest[1..], parent, next, id);
    RestUnder(forest, parent, base, id, forest[0], next);
    RestIndex(forest, k);
    assert id - base == 1 + ForestSize(forest[0].children) + k && id - next == k;
  }

  /** After the first node's subtree, what lies under a position is decided by the rest of the forest alone. */
  lemma {:induction false} RestUnder(forest: seq<SpanNode>, parent: nat, base: nat, id: nat, c: SpanNode, next: nat)
    requires |forest| > 0 && c == forest[0] && next == base + 1 + ForestSize(c.children)
    requires parent < base && next <= id
    ensures |Parents(forest, parent, base)| == |Flatten(forest)|
    ensures |Parents(forest[1..], parent, next)| == |Flatten(forest[1..])|
    ensures Under(Parents(forest, parent, base), Flatten(forest), id)
            == Under(Parents(forest[1..], parent, next), Flatten(forest[1..]), id)
  {
    var below := Parents(c.children, base, base + 1);
    Outside(c.children, base, base + 1, id);
    Split(forest, parent, base, c, next);
    OnlyRest(Parents(forest, parent, base), Flatten(forest), parent, c,
             below, Flatten(c.children),
             Parents(forest[1..], parent, next), Flatten(forest[1..]), id);
  }

  /** Position `k` of the rest of the forest sits after the first node and its subtree. */
  lemma {:induction false} RestIndex(forest: seq<SpanNode>, k: nat)
    requires |forest| > 0 && k < ForestSize(forest[1..])
    ensures 1 + ForestSize(forest[0].children) + k < |Flatten(forest)| && k < |Flatten(forest[1..])|
    ensures Flatten(forest)[1 + ForestSize(forest[0].children) + k] == Flatten(forest[1..])[k]
  {
    var c := forest[0];
    var below := Flatten(c.children);
    assert Flatten(forest) == [c] + below + Flatten(forest[1..]);
    assert Flatten(forest)[1 + |below| + k] == Flatten(forest[1..])[k];
  }
}
