/**
 The sending task the agent starts for each accepted payload
 (`sendDDTraceTask`): the decoded batch is copied once per thread, and each
 copy is posted `SendCount` times, re-stamped before every post with a
 freshly drawn trace identifier. The threads run concurrently in the program; the model runs them
 one after the other, replica 0 first, which fixes the order in which the
 identifier source is drawn from. The network is a parameter: `net(i, j)`
 is what became of attempt `j` of replica `i`.
 */
module Sender {
  import opened Wrappers
  import opened Traces

  /** `http.Header`: every header name with its values. */
  type Headers = map<string, seq<string>>

  /** What became of one post: the request could not be built, the transport failed, or a status came back. */
  datatype NetOutcome = RequestError | TransportError | Delivered(status: int)

  /** One post of one replica: where it went, with which headers, what it carried and what came of it. */
  datatype Attempt = Attempt(
    replica: nat,
    iteration: nat,
    endpoint: string,
    headers: Headers,
    traceID: Option<UInt64>,
    payload: seq<seq<Span>>,
    outcome: NetOutcome)

  /** What unmarshalling the posted body gives: span records and the batch pointing to them. */
  datatype Decoded = Decoded(heap: Heap, batch: Batch)

  /** The task either dies on a body it cannot decode, or completes every post of every replica. */
  datatype TaskResult = DecodeFatal | Completed(grid: seq<seq<Attempt>>)

  /** The number of identifiers `i` replicas draw when each draws `n`, counted replica by replica. */
  function Draws(i: nat, n: nat): nat {
    if i == 0 then 0 else Draws(i - 1, n) + n
  }

  /** `Draws` is the product `i * n`. */
  lemma {:induction false} DrawsIsProduct(i: nat, n: nat)
    ensures Draws(i, n) == i * n
  {
    if i > 0 {
      DrawsIsProduct(i - 1, n);
      assert (i - 1) * n + n == i * n;
    }
  }

  /**
   The index of the identifier drawn for attempt `j` of replica `i`, when
   each replica draws `sendCount` identifiers in turn.
   */
  function DrawIndex(cursor: nat, sendCount: nat, i: nat, j: nat): nat {
    cursor + Draws(i, sendCount) + j
  }

  /**
   Attempt `j` of replica `i` when it uses the `k`-th drawn identifier,
   given the span values `vals` of the decoded batch: an empty batch draws
   nothing and is posted empty; otherwise every span carries the drawn
   identifier.
   */
  function AttemptOf(vals: seq<seq<Span>>, i: nat, j: nat, endpoint: string, headers: Headers,
                     ids: nat -> Int64, k: nat, net: (nat, nat) -> NetOutcome): Attempt
  {
    if |vals| == 0 then Attempt(i, j, endpoint, headers, None, [], net(i, j))
    else Attempt(i, j, endpoint, headers, Some(ToUint64(ids(k))), Stamp(vals, ToUint64(ids(k))), net(i, j))
  }

  /** The attempt the program makes as attempt `j` of replica `i`. */
  function Expected(vals: seq<seq<Span>>, i: nat, j: nat, sendCount: nat, endpoint: string, headers: Headers,
                    ids: nat -> Int64, cursor: nat, net: (nat, nat) -> NetOutcome): Attempt
  {
    AttemptOf(vals, i, j, endpoint, headers, ids, DrawIndex(cursor, sendCount, i, j), net)
  }

  /** `grid` holds `threads` rows of `sendCount` attempts, each the expected one. */
  predicate GridOf(grid: seq<seq<Attempt>>, threads: nat, sendCount: nat, vals: seq<seq<Span>>, endpoint: string,
                   headers: Headers, ids: nat -> Int64, cursor: nat, net: (nat, nat) -> NetOutcome)
  {
    && |grid| == threads
    && (forall i :: 0 <= i < threads ==> |grid[i]| == sendCount)
    && (forall i, j :: 0 <= i < threads && 0 <= j < sendCount ==>
          grid[i][j] == Expected(vals, i, j, sendCount, endpoint, headers, ids, cursor, net))
  }

  /**
   The body of one sending goroutine: `sendCount` times, re-stamp the copy
   `d`, serialise it and post it; a failed post is logged and the loop goes
   on. Only the records of `d` change.
   */
  method Worker(h: Heap, d: Batch, replica: nat, sendCount: nat, endpoint: string, headers: Headers,
                ids: nat -> Int64, cursor: nat, net: (nat, nat) -> NetOutcome)
    returns (row: seq<Attempt>, h': Heap)
    requires Holds(h, d)
    ensures |row| == sendCount
    ensures forall j :: 0 <= j < sendCount ==> row[j] == AttemptOf(Deref(h, d), replica, j, endpoint, headers, ids, cursor + j, net)
    ensures h'.next == h.next && h'.spans.Keys == h.spans.Keys
    ensures forall r :: r in h.spans && !InBatch(d, r) ==> h'.spans[r] == h.spans[r]
  {
    var vals := Deref(h, d);
    row := [];
    h' := h;
    ghost var last: Option<UInt64> := None;
    var j := 0;
    while j < sendCount
      invariant 0 <= j <= sendCount
      invariant h'.next == h.next && h'.spans.Keys == h.spans.Keys && Holds(h', d)
      invariant last.None? ==> Deref(h', d) == vals
      invariant last.Some? ==> Deref(h', d) == Stamp(vals, last.value)
      invariant |row| == j
      invariant forall k :: 0 <= k < j ==> row[k] == AttemptOf(vals, replica, k, endpoint, headers, ids, cursor + k, net)
      invariant forall r :: r in h.spans && !InBatch(d, r) ==> h'.spans[r] == h.spans[r]
    {
      row, h', last := Post(h, h', d, replica, j, endpoint, headers, ids, cursor, net, row, last);
      j := j + 1;
    }
  }

  /**
   One turn of a worker's loop: re-stamp the copy, serialise it, post it,
   and record the attempt. A non-empty copy's turn `j` uses the identifier
   drawn `j`-th from `cursor`; an empty copy draws none.
   */
  method Post(h: Heap, cur: Heap, d: Batch, replica: nat, j: nat, endpoint: string, headers: Headers,
              ids: nat -> Int64, cursor: nat, net: (nat, nat) -> NetOutcome,
              row: seq<Attempt>, ghost last: Option<UInt64>)
    returns (row': seq<Attempt>, h': Heap, ghost last': Option<UInt64>)
    requires Holds(h, d) && Holds(cur, d)
    requires cur.next == h.next && cur.spans.Keys == h.spans.Keys
    requires last.None? ==> Deref(cur, d) == Deref(h, d)
    requires last.Some? ==> Deref(cur, d) == Stamp(Deref(h, d), last.value)
    requires forall r :: r in h.spans && !InBatch(d, r) ==> cur.spans[r] == h.spans[r]
    requires |row| == j
    requires forall k :: 0 <= k < j ==> row[k] == AttemptOf(Deref(h, d), replica, k, endpoint, headers, ids, cursor + k, net)
    ensures |row'| == j + 1
    ensures forall k :: 0 <= k < j + 1 ==> row'[k] == AttemptOf(Deref(h, d), replica, k, endpoint, headers, ids, cursor + k, net)
    ensures h'.next == h.next && h'.spans.Keys == h.spans.Keys && Holds(h', d)
    ensures last'.None? ==> Deref(h', d) == Deref(h, d)
    ensures last'.Some? ==> Deref(h', d) == Stamp(Deref(h, d), last'.value)
    ensures forall r :: r in h.spans && !InBatch(d, r) ==> h'.spans[r] == h.spans[r]
  {
    var a;
    h', a, last' := Send(h, cur, d, replica, j, endpoint, headers, ids, cursor + j, net, last);
    row' := row + [a];
    RowGrows(row, a, Deref(h, d), replica, j, endpoint, headers, ids, cursor, net);
  }

  /** The attempt a turn records, built from the re-stamped copy, is the attempt that uses draw `k`. */
  lemma Posted(vals: seq<seq<Span>>, payload: seq<seq<Span>>, replica: nat, j: nat, endpoint: string, headers: Headers,
               ids: nat -> Int64, k: nat, net: (nat, nat) -> NetOutcome)
    requires |vals| == 0 ==> |payload| == 0
    requires |vals| > 0 ==> payload == Stamp(vals, ToUint64(ids(k)))
    ensures Attempt(replica, j, endpoint, headers, if |vals| == 0 then None else Some(ToUint64(ids(k))), payload, net(replica, j))
      == AttemptOf(vals, replica, j, endpoint, headers, ids, k, net)
  {
    if |vals| == 0 {
      assert payload == [];
    }
  }

  /**
   Re-stamp the copy `d` with the `k`-th drawn identifier (an empty copy
   is left as it is), serialise it and post it: the attempt made is the one
   that uses draw `k`.
   */
  method Send(h: Heap, cur: Heap, d: Batch, replica: nat, j: nat, endpoint: string, headers: Headers,
              ids: nat -> Int64, k: nat, net: (nat, nat) -> NetOutcome, ghost last: Option<UInt64>)
    returns (h': Heap, a: Attempt, ghost last': Option<UInt64>)
    requires Holds(h, d) && Holds(cur, d)
    requires cur.next == h.next && cur.spans.Keys == h.spans.Keys
    requires last.None? ==> Deref(cur, d) == Deref(h, d)
    requires last.Some? ==> Deref(cur, d) == Stamp(Deref(h, d), last.value)
    requires forall r :: r in h.spans && !InBatch(d, r) ==> cur.spans[r] == h.spans[r]
    ensures a == AttemptOf(Deref(h, d), replica, j, endpoint, headers, ids, k, net)
    ensures h'.next == h.next && h'.spans.Keys == h.spans.Keys && Holds(h', d)
    ensures last'.None? ==> Deref(h', d) == Deref(h, d)
    ensures last'.Some? ==> Deref(h', d) == Stamp(Deref(h, d), last'.value)
    ensures forall r :: r in h.spans && !InBatch(d, r) ==> h'.spans[r] == h.spans[r]
  {
    last' := last;
    var next;
    h', next := ModifyIDs(cur, d, ids, k);
    if |d| > 0 {
      var tid := ToUint64(ids(k));
      Restamped(cur, h', d, Deref(h, d), last, tid);
      last' := Some(tid);
    }
    var payload := Deref(h', d);
    var traceID: Option<UInt64> := if |d| == 0 then None else Some(ToUint64(ids(k)));
    a := Attempt(replica, j, endpoint, headers, traceID, payload, net(replica, j));
    Posted(Deref(h, d), payload, replica, j, endpoint, headers, ids, k, net);
  }

  /** Appending attempt `j` to a worker's first `j` attempts gives its first `j + 1`. */
  lemma RowGrows(row: seq<Attempt>, a: Attempt, vals: seq<seq<Span>>, replica: nat, j: nat, endpoint: string,
                 headers: Headers, ids: nat -> Int64, cursor: nat, net: (nat, nat) -> NetOutcome)
    requires |row| == j
    requires forall k :: 0 <= k < j ==> row[k] == AttemptOf(vals, replica, k, endpoint, headers, ids, cursor + k, net)
    requires a == AttemptOf(vals, replica, j, endpoint, headers, ids, cursor + j, net)
    ensures forall k :: 0 <= k < j + 1 ==> (row + [a])[k] == AttemptOf(vals, replica, k, endpoint, headers, ids, cursor + k, net)
  {
    assert forall k :: 0 <= k < j ==> (row + [a])[k] == row[k];
  }

  /** Re-stamping a copy that already holds the decoded values, stamped or not, gives them stamped with the new identifier. */
  lemma Restamped(before: Heap, after: Heap, d: Batch, vals: seq<seq<Span>>, last: Option<UInt64>, tid: UInt64)
    requires Holds(before, d) && Holds(after, d)
    requires last.None? ==> Deref(before, d) == vals
    requires last.Some? ==> Deref(before, d) == Stamp(vals, last.value)
    requires forall i, j :: 0 <= i < |d| && 0 <= j < |d[i]| ==> after.spans[d[i][j]] == before.spans[d[i][j]].(traceID := tid)
    ensures Deref(after, d) == Stamp(vals, tid)
  {
    ModifiedValues(before, after, d, tid);
    if last.Some? {
      StampTwice(vals, last.value, tid);
    }
  }

  /**
   The replica loop of `sendDDTraceTask`: for each thread, duplicate the
   decoded batch and run one worker on the copy. The decoded records are
   never written.
   */
  method Replicate(threads: nat, sendCount: nat, h: Heap, b: Batch, endpoint: string, headers: Headers,
                   ids: nat -> Int64, cursor: nat, net: (nat, nat) -> NetOutcome)
    returns (grid: seq<seq<Attempt>>, h': Heap, cursor': nat)
    requires Good(h) && Holds(h, b)
    ensures GridOf(grid, threads, sendCount, Deref(h, b), endpoint, headers, ids, cursor, net)
    ensures cursor' == cursor + (if |b| == 0 then 0 else Draws(threads, sendCount))
    ensures Good(h')
    ensures forall r :: r in h.spans ==> r in h'.spans && h'.spans[r] == h.spans[r]
  {
    var vals := Deref(h, b);
    grid := [];
    h' := h;
    cursor' := cursor;
    var i := 0;
    while i < threads
      invariant 0 <= i <= threads
      invariant |grid| == i
      invariant cursor' == cursor + (if |b| == 0 then 0 else Draws(i, sendCount))
      invariant Good(h') && h.next <= h'.next
      invariant forall r :: r in h.spans ==> r in h'.spans && h'.spans[r] == h.spans[r]
      invariant GridOf(grid, i, sendCount, vals, endpoint, headers, ids, cursor, net)
    {
      var row, next := Round(h, b, h', i, sendCount, endpoint, headers, ids, cursor', net);
      RowAt(row, vals, i, sendCount, endpoint, headers, ids, cursor, cursor', net);
      GridGrows(grid, row, i, sendCount, vals, endpoint, headers, ids, cursor, net);
      h' := next;
      grid := grid + [row];
      cursor' := cursor' + (if |b| == 0 then 0 else sendCount);
      i := i + 1;
    }
  }

  /** One turn of the replica loop: copy the batch, run a worker on the copy, keep the decoded records. */
  method Round(h: Heap, b: Batch, cur: Heap, i: nat, sendCount: nat, endpoint: string, headers: Headers,
               ids: nat -> Int64, at: nat, net: (nat, nat) -> NetOutcome)
    returns (row: seq<Attempt>, h': Heap)
    requires Good(h) && Holds(h, b) && Good(cur) && h.next <= cur.next
    requires forall r :: r in h.spans ==> r in cur.spans && cur.spans[r] == h.spans[r]
    ensures |row| == sendCount
    ensures Good(h') && h.next <= h'.next
    ensures forall r :: r in h.spans ==> r in h'.spans && h'.spans[r] == h.spans[r]
    ensures forall j :: 0 <= j < sendCount ==> row[j] == AttemptOf(Deref(h, b), i, j, endpoint, headers, ids, at + j, net)
  {
    assert Holds(cur, b);
    var hd, d := Duplicate(cur, b);
    DerefCopy(cur, b, hd, d);
    DerefCopy(h, b, cur, b);
    row, h' := Worker(hd, d, i, sendCount, endpoint, headers, ids, at, net);
    KeepDecoded(h, b, cur, hd, d, h');
  }

  /** The records of the decoded batch lie below the copies, so a worker that writes only the copies keeps them. */
  lemma KeepDecoded(h: Heap, b: Batch, cur: Heap, hd: Heap, d: Batch, after: Heap)
    requires Good(h) && h.next <= cur.next
    requires forall r :: r in h.spans ==> r in cur.spans && cur.spans[r] == h.spans[r]
    requires |d| == |b| && forall x :: 0 <= x < |b| ==> |d[x]| == |b[x]|
    requires forall x, y :: 0 <= x < |b| && 0 <= y < |b[x]| ==> d[x][y] == cur.next + Before(b, x) + y
    requires forall r :: r in cur.spans ==> r in hd.spans && hd.spans[r] == cur.spans[r]
    requires after.spans.Keys == hd.spans.Keys
    requires forall r :: r in hd.spans && !InBatch(d, r) ==> after.spans[r] == hd.spans[r]
    ensures forall r :: r in h.spans ==> r in after.spans && after.spans[r] == h.spans[r]
  {
    forall r | r in h.spans
      ensures r in after.spans && after.spans[r] == h.spans[r]
    {
      DuplicateAbove(cur, b, d, r);
    }
  }

  /** A worker's row, whose draws start at `at`, is the replica's row of the grid. */
  lemma RowAt(row: seq<Attempt>, vals: seq<seq<Span>>, i: nat, sendCount: nat, endpoint: string, headers: Headers,
              ids: nat -> Int64, cursor: nat, at: nat, net: (nat, nat) -> NetOutcome)
    requires at == cursor + (if |vals| == 0 then 0 else Draws(i, sendCount))
    requires |row| == sendCount
    requires forall j :: 0 <= j < sendCount ==> row[j] == AttemptOf(vals, i, j, endpoint, headers, ids, at + j, net)
    ensures forall j :: 0 <= j < sendCount ==> row[j] == Expected(vals, i, j, sendCount, endpoint, headers, ids, cursor, net)
  {
    forall j | 0 <= j < sendCount
      ensures row[j] == Expected(vals, i, j, sendCount, endpoint, headers, ids, cursor, net)
    {
      assert |vals| > 0 ==> DrawIndex(cursor, sendCount, i, j) == at + j;
    }
  }

  /** Appending replica `i`'s row to the rows of the replicas before it gives the rows of the first `i + 1`. */
  lemma GridGrows(grid: seq<seq<Attempt>>, row: seq<Attempt>, i: nat, sendCount: nat, vals: seq<seq<Span>>, endpoint: string,
                  headers: Headers, ids: nat -> Int64, cursor: nat, net: (nat, nat) -> NetOutcome)
    requires GridOf(grid, i, sendCount, vals, endpoint, headers, ids, cursor, net)
    requires |row| == sendCount
    requires forall j :: 0 <= j < sendCount ==> row[j] == Expected(vals, i, j, sendCount, endpoint, headers, ids, cursor, net)
    ensures GridOf(grid + [row], i + 1, sendCount, vals, endpoint, headers, ids, cursor, net)
  {
    var g := grid + [row];
    forall k, j | 0 <= k < i + 1 && 0 <= j < sendCount
      ensures g[k][j] == Expected(vals, k, j, sendCount, endpoint, headers, ids, cursor, net)
    {
      if k < i {
        assert g[k] == grid[k];
      } else {
        assert g[k] == row;
      }
    }
  }

  /**
   `sendDDTraceTask`: a body that does not decode is fatal; otherwise every
   replica makes all of its posts, whatever becomes of each, and the task
   then reports completion (the caller closes the shutdown channel).
   */
  method SendDDTraceTask(threads: nat, sendCount: nat, decoded: Option<Decoded>, endpoint: string, headers: Headers,
                         ids: nat -> Int64, cursor: nat, net: (nat, nat) -> NetOutcome)
    returns (out: TaskResult, cursor': nat)
    requires decoded.Some? ==> Good(decoded.value.heap) && Holds(decoded.value.heap, decoded.value.batch)
    ensures out.DecodeFatal? <==> decoded.None?
    ensures out.DecodeFatal? ==> cursor' == cursor
    ensures out.Completed? ==>
      var Decoded(h, b) := decoded.value;
      && GridOf(out.grid, threads, sendCount, Deref(h, b), endpoint, headers, ids, cursor, net)
      && cursor' == cursor + (if |b| == 0 then 0 else threads * sendCount)
  {
    match decoded {
      case None =>
        return DecodeFatal, cursor;
      case Some(Decoded(h, b)) =>
        var grid, _, c' := Replicate(threads, sendCount, h, b, endpoint, headers, ids, cursor, net);
        DrawsIsProduct(threads, sendCount);
        return Completed(grid), c';
    }
  }

  /** The number of attempts in the rows of `grid` from row `i` on. */
  function AttemptsFrom(grid: seq<seq<Attempt>>, i: nat): nat
    requires i <= |grid|
    decreases |grid| - i
  {
    if i == |grid| then 0 else |grid[i]| + AttemptsFrom(grid, i + 1)
  }

  /** A task makes exactly `threads * sendCount` posts, failed ones included. */
  lemma {:induction false} AttemptCount(grid: seq<seq<Attempt>>, threads: nat, sendCount: nat, vals: seq<seq<Span>>,
                                        endpoint: string, headers: Headers, ids: nat -> Int64, cursor: nat,
                                        net: (nat, nat) -> NetOutcome, i: nat)
    requires GridOf(grid, threads, sendCount, vals, endpoint, headers, ids, cursor, net)
    requires i <= threads
    ensures AttemptsFrom(grid, i) == (threads - i) * sendCount
    decreases threads - i
  {
    if i < threads {
      AttemptCount(grid, threads, sendCount, vals, endpoint, headers, ids, cursor, net, i + 1);
      assert (threads - i) * sendCount == (threads - (i + 1)) * sendCount + sendCount;
    }
  }

  /** Different attempts draw different identifiers: replica `i`'s draws all come before replica `i + 1`'s. */
  lemma DrawIndexInjective(cursor: nat, sendCount: nat, i: nat, j: nat, i': nat, j': nat)
    requires j < sendCount && j' < sendCount
    ensures DrawIndex(cursor, sendCount, i, j) == DrawIndex(cursor, sendCount, i', j') <==> i == i' && j == j'
  {
    if i < i' {
      DrawsGap(i, i', sendCount);
    } else if i' < i {
      DrawsGap(i', i, sendCount);
    }
  }

  /** Replica `i`'s draws all come before those of any later replica. */
  lemma {:induction false} DrawsGap(i: nat, i': nat, n: nat)
    requires i < i'
    ensures Draws(i, n) + n <= Draws(i', n)
    decreases i' - i
  {
    if i + 1 < i' {
      DrawsGap(i, i' - 1, n);
    }
  }

  /** Every draw of a task falls among its `Draws(threads, sendCount)` draws from `cursor` on. */
  lemma DrawIndexBounds(cursor: nat, threads: nat, sendCount: nat, i: nat, j: nat)
    requires i < threads && j < sendCount
    ensures cursor <= DrawIndex(cursor, sendCount, i, j) < cursor + Draws(threads, sendCount)
  {
    DrawsGap(i, threads, sendCount);
  }

  /**
   When the identifier source never repeats over the draws of a task, every
   post of a non-empty batch carries its own trace identifier.
   */
  lemma DistinctTraceIDs(grid: seq<seq<Attempt>>, threads: nat, sendCount: nat, vals: seq<seq<Span>>, endpoint: string,
                         headers: Headers, ids: nat -> Int64, cursor: nat, net: (nat, nat) -> NetOutcome,
                         i: nat, j: nat, i': nat, j': nat)
    requires GridOf(grid, threads, sendCount, vals, endpoint, headers, ids, cursor, net)
    requires |vals| > 0
    requires forall m, n :: cursor <= m < n < cursor + Draws(threads, sendCount) ==> ids(m) != ids(n)
    requires i < threads && j < sendCount && i' < threads && j' < sendCount
    ensures grid[i][j].traceID.Some?
    ensures grid[i][j].traceID == grid[i'][j'].traceID <==> i == i' && j == j'
  {
    var k := DrawIndex(cursor, sendCount, i, j);
    var k' := DrawIndex(cursor, sendCount, i', j');
    DrawIndexInjective(cursor, sendCount, i, j, i', j');
    DrawIndexBounds(cursor, threads, sendCount, i, j);
    DrawIndexBounds(cursor, threads, sendCount, i', j');
    CastInjective(ids(k), ids(k'));
    if k < k' {
      assert ids(k) != ids(k');
    } else if k' < k {
      assert ids(k') != ids(k);
    }
  }

  /**
   Any two posts of a task carry the same spans up to the trace identifier:
   re-stamping one with the other's identifier gives the other.
   */
  lemma SamePayloadUpToTraceID(grid: seq<seq<Attempt>>, threads: nat, sendCount: nat, vals: seq<seq<Span>>, endpoint: string,
                               headers: Headers, ids: nat -> Int64, cursor: nat, net: (nat, nat) -> NetOutcome,
                               i: nat, j: nat, i': nat, j': nat)
    requires GridOf(grid, threads, sendCount, vals, endpoint, headers, ids, cursor, net)
    requires |vals| > 0
    requires i < threads && j < sendCount && i' < threads && j' < sendCount
    ensures grid[i][j].traceID.Some?
    ensures Stamp(grid[i'][j'].payload, grid[i][j].traceID.value) == grid[i][j].payload
  {
    var t := ToUint64(ids(DrawIndex(cursor, sendCount, i, j)));
    var t' := ToUint64(ids(DrawIndex(cursor, sendCount, i', j')));
    StampTwice(vals, t', t);
  }
}
