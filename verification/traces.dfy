/**
 The agent's in-memory trace batches (`pb.Traces`): a batch is a list of
 traces, a trace a list of pointers to spans. Spans live in a heap so that
 pointer identity is visible: `duplicate` allocates fresh span records while
 the maps a span points to (`Meta`, `Metrics`, `MetaStruct`) stay shared,
 and `modifyIDs` overwrites the trace identifier of every span a batch
 points to.
 */
module Traces {
  const TwoTo64: int := 0x1_0000_0000_0000_0000
  const TwoTo63: int := 0x8000_0000_0000_0000

  type UInt64 = x: int | 0 <= x < 0x1_0000_0000_0000_0000
  type Int64 = x: int | -0x8000_0000_0000_0000 <= x < 0x8000_0000_0000_0000
  type Int32 = x: int | -0x8000_0000 <= x < 0x8000_0000

  /** Go's `uint64(x)` on an `int64`: the same bits, read as unsigned (see `SameBits`). */
  function ToUint64(x: Int64): (u: UInt64)
    ensures x >= 0 ==> u == x
  {
    if x >= 0 then x else x + TwoTo64
  }

  /** Go's `int64(u)` on a `uint64`: the same bits, read as two's complement (see `SameBits`). */
  function ToInt64(u: UInt64): (x: Int64)
    ensures u < TwoTo63 ==> x == u
  {
    if u < TwoTo63 then u else u - TwoTo64
  }

  /** Both conversions keep the value modulo 2^64, that is, the 64 bits. */
  lemma SameBits(x: Int64, u: UInt64)
    ensures ToUint64(x) % TwoTo64 == x % TwoTo64
    ensures ToInt64(u) % TwoTo64 == u % TwoTo64
  {
  }

  /** The conversion loses nothing: reading the bits back gives the drawn identifier. */
  lemma CastRoundTrip(x: Int64, u: UInt64)
    ensures ToInt64(ToUint64(x)) == x
    ensures ToUint64(ToInt64(u)) == u
  {
  }

  /** Distinct drawn identifiers give distinct trace identifiers. */
  lemma CastInjective(x: Int64, y: Int64)
    ensures ToUint64(x) == ToUint64(y) <==> x == y
  {
    CastRoundTrip(x, 0);
    CastRoundTrip(y, 0);
  }

  /** The address of a span record. */
  type Ref = nat
  /** The address of a map a span points to (`Meta`, `Metrics`, `MetaStruct`). */
  type MapRef = nat

  /** `pb.Span`, with its maps held by address. */
  datatype Span = Span(
    service: string,
    name: string,
    resource: string,
    traceID: UInt64,
    spanID: UInt64,
    parentID: UInt64,
    start: Int64,
    duration: Int64,
    error: Int32,
    meta: MapRef,
    metrics: MapRef,
    spanType: string,
    metaStruct: MapRef)

  /** The span records allocated so far; `next` is the next free address. */
  datatype Heap = Heap(spans: map<Ref, Span>, next: Ref)

  /** Every allocated address lies below the next free one. */
  predicate Good(h: Heap) {
    forall r :: r in h.spans ==> r < h.next
  }

  /** `pb.Traces`: traces of span pointers. */
  type Batch = seq<seq<Ref>>

  /** Every pointer of `b` points to an allocated span. */
  predicate Holds(h: Heap, b: Batch) {
    forall i, j :: 0 <= i < |b| && 0 <= j < |b[i]| ==> b[i][j] in h.spans
  }

  /** `r` is one of the pointers of `b`. */
  predicate InBatch(b: Batch, r: Ref) {
    InPrefix(b, |b|, r)
  }

  /** The spans a trace points to, in order. */
  function DerefTrace(h: Heap, t: seq<Ref>): (vals: seq<Span>)
    requires forall j :: 0 <= j < |t| ==> t[j] in h.spans
    ensures |vals| == |t|
    ensures forall j :: 0 <= j < |t| ==> vals[j] == h.spans[t[j]]
  {
    if |t| == 0 then [] else [h.spans[t[0]]] + DerefTrace(h, t[1..])
  }

  /** The span values a batch points to: what `MarshalMsg` serialises. */
  function Deref(h: Heap, b: Batch): (vals: seq<seq<Span>>)
    requires Holds(h, b)
    ensures |vals| == |b|
    ensures forall i :: 0 <= i < |b| ==> vals[i] == DerefTrace(h, b[i])
  {
    if |b| == 0 then [] else [DerefTrace(h, b[0])] + Deref(h, b[1..])
  }

  /** Every span value of one trace with its trace identifier set to `tid`. */
  function StampRow(t: seq<Span>, tid: UInt64): (out: seq<Span>)
    ensures |out| == |t|
  {
    if |t| == 0 then [] else [t[0].(traceID := tid)] + StampRow(t[1..], tid)
  }

  /** Every span value of `vals` with its trace identifier set to `tid`, everything else kept. */
  function Stamp(vals: seq<seq<Span>>, tid: UInt64): (out: seq<seq<Span>>)
    ensures |out| == |vals|
  {
    if |vals| == 0 then [] else [StampRow(vals[0], tid)] + Stamp(vals[1..], tid)
  }

  /** Stamping a trace sets the trace identifier of each of its spans and nothing else. */
  lemma {:induction false} StampRowAt(t: seq<Span>, tid: UInt64)
    ensures forall j :: 0 <= j < |t| ==> StampRow(t, tid)[j] == t[j].(traceID := tid)
  {
    if |t| > 0 {
      StampRowAt(t[1..], tid);
      assert forall j :: 1 <= j < |t| ==> StampRow(t, tid)[j] == StampRow(t[1..], tid)[j - 1];
    }
  }

  /** Stamping a batch stamps each of its traces. */
  lemma {:induction false} StampAt(vals: seq<seq<Span>>, tid: UInt64)
    ensures forall i :: 0 <= i < |vals| ==> Stamp(vals, tid)[i] == StampRow(vals[i], tid)
  {
    if |vals| > 0 {
      StampAt(vals[1..], tid);
      assert forall i :: 1 <= i < |vals| ==> Stamp(vals, tid)[i] == Stamp(vals[1..], tid)[i - 1];
    }
  }

  /** Stamping keeps every field but the trace identifier: span and parent identifiers survive. */
  lemma StampKeeps(vals: seq<seq<Span>>, tid: UInt64, i: nat, j: nat)
    requires i < |vals| && j < |vals[i]|
    ensures |Stamp(vals, tid)[i]| == |vals[i]|
    ensures var s := Stamp(vals, tid)[i][j];
      && s.traceID == tid
      && s.spanID == vals[i][j].spanID && s.parentID == vals[i][j].parentID
      && s.(traceID := vals[i][j].traceID) == vals[i][j]
  {
    StampAt(vals, tid);
    StampRowAt(vals[i], tid);
  }

  /**
   Stamping preserves which span is the parent of which inside a trace: for
   any two spans of the same trace, one names the other as parent after
   stamping exactly when it did before.
   */
  lemma StampKeepsLinks(vals: seq<seq<Span>>, tid: UInt64, i: nat, j: nat, k: nat)
    requires i < |vals| && j < |vals[i]| && k < |vals[i]|
    ensures |Stamp(vals, tid)[i]| == |vals[i]|
    ensures var out := Stamp(vals, tid);
      out[i][j].parentID == out[i][k].spanID <==> vals[i][j].parentID == vals[i][k].spanID
  {
    StampAt(vals, tid);
    StampRowAt(vals[i], tid);
  }

  /** Stamping twice is stamping with the last identifier. */
  lemma StampTwice(vals: seq<seq<Span>>, t1: UInt64, t2: UInt64)
    ensures Stamp(Stamp(vals, t1), t2) == Stamp(vals, t2)
  {
    var s1 := Stamp(vals, t1);
    var a := Stamp(s1, t2);
    var b := Stamp(vals, t2);
    StampAt(vals, t1);
    StampAt(s1, t2);
    StampAt(vals, t2);
    forall i | 0 <= i < |a|
      ensures a[i] == b[i]
    {
      StampRowAt(vals[i], t1);
      StampRowAt(s1[i], t2);
      StampRowAt(vals[i], t2);
      assert |a[i]| == |b[i]|;
    }
  }

  /** The number of span pointers in the traces before trace `i`. */
  function Before(b: Batch, i: nat): nat
    requires i <= |b|
  {
    if i == 0 then 0 else Before(b, i - 1) + |b[i - 1]|
  }

  /** All span pointers of a batch. */
  function Total(b: Batch): nat {
    Before(b, |b|)
  }

  lemma {:induction false} BeforeGrows(b: Batch, k: nat, i: nat)
    requires k < i <= |b|
    ensures Before(b, k) + |b[k]| <= Before(b, i)
    decreases i
  {
    if k < i - 1 {
      BeforeGrows(b, k, i - 1);
    }
  }

  /** Copies the spans of one trace into fresh records at consecutive addresses from `h.next`. */
  method CopyTrace(h: Heap, t: seq<Ref>) returns (h': Heap, row: seq<Ref>)
    requires Good(h)
    requires forall j :: 0 <= j < |t| ==> t[j] in h.spans
    ensures Good(h') && h'.next == h.next + |t|
    ensures |row| == |t|
    ensures forall j :: 0 <= j < |t| ==> row[j] == h.next + j && row[j] in h'.spans && h'.spans[row[j]] == h.spans[t[j]]
    ensures forall r :: r in h.spans ==> r in h'.spans && h'.spans[r] == h.spans[r]
  {
    h' := h;
    row := [];
    var j := 0;
    while j < |t|
      invariant 0 <= j <= |t|
      invariant Good(h') && h'.next == h.next + j
      invariant |row| == j
      invariant forall k :: 0 <= k < j ==> row[k] == h.next + k && row[k] in h'.spans && h'.spans[row[k]] == h.spans[t[k]]
      invariant forall r :: r in h.spans ==> r in h'.spans && h'.spans[r] == h.spans[r]
    {
      var r := h'.next;
      h' := Heap(h'.spans[r := h.spans[t[j]]], r + 1);
      row := row + [r];
      j := j + 1;
    }
  }

  /**
   `duplicate`: a new batch of the same shape whose pointers are fresh
   records, allocated consecutively, each a field-for-field copy of the
   record it replaces; the maps the copies point to are the originals'.
   Records that already existed are untouched.
   */
  method Duplicate(h: Heap, b: Batch) returns (h': Heap, d: Batch)
    requires Good(h) && Holds(h, b)
    ensures Good(h') && Holds(h', d) && h'.next == h.next + Total(b)
    ensures |d| == |b| && forall i :: 0 <= i < |b| ==> |d[i]| == |b[i]|
    ensures forall i, j :: 0 <= i < |b| && 0 <= j < |b[i]| ==>
      d[i][j] == h.next + Before(b, i) + j && h'.spans[d[i][j]] == h.spans[b[i][j]]
    ensures forall r :: r in h.spans ==> r in h'.spans && h'.spans[r] == h.spans[r]
  {
    h' := h;
    d := [];
    var i := 0;
    while i < |b|
      invariant 0 <= i <= |b|
      invariant Good(h') && h'.next == h.next + Before(b, i)
      invariant |d| == i
      invariant forall k :: 0 <= k < i ==> |d[k]| == |b[k]|
      invariant forall k, j :: 0 <= k < i && 0 <= j < |b[k]| ==>
        d[k][j] == h.next + Before(b, k) + j && d[k][j] in h'.spans && h'.spans[d[k][j]] == h.spans[b[k][j]]
      invariant forall r :: r in h.spans ==> r in h'.spans && h'.spans[r] == h.spans[r]
    {
      var hNext, row := CopyTrace(h', b[i]);
      h' := hNext;
      d := d + [row];
      i := i + 1;
    }
  }

  /** The copies `duplicate` allocates are fresh and pairwise distinct. */
  lemma DuplicateFresh(h: Heap, b: Batch, d: Batch, i: nat, j: nat, k: nat, l: nat)
    requires Good(h)
    requires |d| == |b| && forall x :: 0 <= x < |b| ==> |d[x]| == |b[x]|
    requires forall x, y :: 0 <= x < |b| && 0 <= y < |b[x]| ==> d[x][y] == h.next + Before(b, x) + y
    requires i < |b| && j < |b[i]| && k < |b| && l < |b[k]|
    ensures d[i][j] !in h.spans
    ensures d[i][j] == d[k][l] <==> i == k && j == l
  {
    if i < k {
      BeforeGrows(b, i, k);
    } else if k < i {
      BeforeGrows(b, k, i);
    }
  }

  /** Sets the trace identifier of every span one trace points to. */
  method StampTrace(h: Heap, t: seq<Ref>, tid: UInt64) returns (h': Heap)
    requires forall j :: 0 <= j < |t| ==> t[j] in h.spans
    ensures h'.next == h.next && h'.spans.Keys == h.spans.Keys
    ensures forall j :: 0 <= j < |t| ==> h'.spans[t[j]] == h.spans[t[j]].(traceID := tid)
    ensures forall r :: r in h.spans && r !in t ==> h'.spans[r] == h.spans[r]
  {
    h' := h;
    var j := 0;
    while j < |t|
      invariant 0 <= j <= |t|
      invariant h'.next == h.next && h'.spans.Keys == h.spans.Keys
      invariant forall k :: 0 <= k < j ==> h'.spans[t[k]] == h.spans[t[k]].(traceID := tid)
      invariant forall r :: r in h.spans && r !in t[..j] ==> h'.spans[r] == h.spans[r]
    {
      h' := h'.(spans := h'.spans[t[j] := h.spans[t[j]].(traceID := tid)]);
      j := j + 1;
    }
    assert t[..j] == t;
  }

  /**
   `modifyIDs`: an empty batch is left alone and draws nothing; otherwise one
   identifier is drawn from `ids` at `cursor` and becomes the trace
   identifier of every span the batch points to, empty traces included
   trivially. No other field and no other record changes.
   */
  method ModifyIDs(h: Heap, b: Batch, ids: nat -> Int64, cursor: nat) returns (h': Heap, cursor': nat)
    requires Holds(h, b)
    ensures |b| == 0 ==> h' == h && cursor' == cursor
    ensures |b| > 0 ==> cursor' == cursor + 1
    ensures h'.next == h.next && h'.spans.Keys == h.spans.Keys && Holds(h', b)
    ensures |b| > 0 ==> forall i, j :: 0 <= i < |b| && 0 <= j < |b[i]| ==>
      h'.spans[b[i][j]] == h.spans[b[i][j]].(traceID := ToUint64(ids(cursor)))
    ensures forall r :: r in h.spans && !InBatch(b, r) ==> h'.spans[r] == h.spans[r]
  {
    if |b| == 0 {
      return h, cursor;
    }
    var tid := ToUint64(ids(cursor));
    cursor' := cursor + 1;
    h' := h;
    var i := 0;
    while i < |b|
      invariant 0 <= i <= |b|
      invariant h'.next == h.next && h'.spans.Keys == h.spans.Keys
      invariant forall k, j :: 0 <= k < i && 0 <= j < |b[k]| ==> h'.spans[b[k][j]] == h.spans[b[k][j]].(traceID := tid)
      invariant forall r :: r in h.spans && !InPrefix(b, i, r) ==> h'.spans[r] == h.spans[r]
    {
      if |b[i]| == 0 {
        forall r | InPrefix(b, i + 1, r)
          ensures InPrefix(b, i, r)
        {
          PrefixStep(b, i, r);
        }
        i := i + 1;
        continue;
      }
      var before := h';
      h' := StampTrace(h', b[i], tid);
      StampStep(h, before, h', b, i, tid);
      i := i + 1;
    }
    forall r | r in h.spans && !InBatch(b, r)
      ensures h'.spans[r] == h.spans[r]
    {
      assert !InPrefix(b, |b|, r);
    }
  }

  /** Stamping trace `i` extends what the loop of `modifyIDs` has stamped and spared to the first `i + 1` traces. */
  lemma StampStep(h: Heap, before: Heap, after: Heap, b: Batch, i: nat, tid: UInt64)
    requires i < |b| && Holds(h, b) && before.spans.Keys == h.spans.Keys
    requires forall k, j :: 0 <= k < i && 0 <= j < |b[k]| ==> before.spans[b[k][j]] == h.spans[b[k][j]].(traceID := tid)
    requires forall r :: r in h.spans && !InPrefix(b, i, r) ==> before.spans[r] == h.spans[r]
    requires after.spans.Keys == before.spans.Keys
    requires forall j :: 0 <= j < |b[i]| ==> after.spans[b[i][j]] == before.spans[b[i][j]].(traceID := tid)
    requires forall r :: r in before.spans && r !in b[i] ==> after.spans[r] == before.spans[r]
    ensures forall k, j :: 0 <= k < i + 1 && 0 <= j < |b[k]| ==> after.spans[b[k][j]] == h.spans[b[k][j]].(traceID := tid)
    ensures forall r :: r in h.spans && !InPrefix(b, i + 1, r) ==> after.spans[r] == h.spans[r]
  {
    forall k, j | 0 <= k < i + 1 && 0 <= j < |b[k]|
      ensures after.spans[b[k][j]] == h.spans[b[k][j]].(traceID := tid)
    {
      if k == i {
        assert !InPrefix(b, i, b[i][j]) ==> before.spans[b[i][j]] == h.spans[b[i][j]];
      } else if b[k][j] in b[i] {
        var l :| 0 <= l < |b[i]| && b[i][l] == b[k][j];
        assert after.spans[b[i][l]] == before.spans[b[i][l]].(traceID := tid);
      }
    }
    forall r | r in h.spans && !InPrefix(b, i + 1, r)
      ensures after.spans[r] == h.spans[r]
    {
      PrefixStep(b, i, r);
    }
  }

  /** `r` is one of the pointers of the traces before trace `i`. */
  predicate InPrefix(b: Batch, i: nat, r: Ref)
    requires i <= |b|
  {
    exists k, j :: 0 <= k < i && 0 <= j < |b[k]| && b[k][j] == r
  }

  lemma PrefixStep(b: Batch, i: nat, r: Ref)
    requires i < |b|
    ensures InPrefix(b, i + 1, r) <==> InPrefix(b, i, r) || r in b[i]
  {
    if r in b[i] {
      var j :| 0 <= j < |b[i]| && b[i][j] == r;
      assert 0 <= i < i + 1 && b[i][j] == r;
    }
  }

  /** After `modifyIDs`, the batch serialises as its old values stamped with the drawn identifier. */
  lemma ModifiedValues(h: Heap, h': Heap, b: Batch, tid: UInt64)
    requires Holds(h, b) && Holds(h', b)
    requires forall i, j :: 0 <= i < |b| && 0 <= j < |b[i]| ==> h'.spans[b[i][j]] == h.spans[b[i][j]].(traceID := tid)
    ensures Deref(h', b) == Stamp(Deref(h, b), tid)
  {
    var a := Deref(h', b);
    var v := Deref(h, b);
    var s := Stamp(v, tid);
    StampAt(v, tid);
    forall i | 0 <= i < |b|
      ensures a[i] == s[i]
    {
      StampRowAt(v[i], tid);
      assert |a[i]| == |s[i]|;
    }
  }

  /** A batch whose records copy another batch's, position by position, serialises the same. */
  lemma DerefCopy(h: Heap, b: Batch, h': Heap, d: Batch)
    requires Holds(h, b) && Holds(h', d)
    requires |d| == |b| && forall i :: 0 <= i < |b| ==> |d[i]| == |b[i]|
    requires forall i, j :: 0 <= i < |b| && 0 <= j < |b[i]| ==> h'.spans[d[i][j]] == h.spans[b[i][j]]
    ensures Deref(h', d) == Deref(h, b)
  {
    var a := Deref(h', d);
    var s := Deref(h, b);
    forall i | 0 <= i < |b|
      ensures a[i] == s[i]
    {
      assert |a[i]| == |s[i]|;
    }
  }

  /** Every record `duplicate` allocates lies at or above the heap's old next free address. */
  lemma DuplicateAbove(h: Heap, b: Batch, d: Batch, r: Ref)
    requires |d| == |b| && forall x :: 0 <= x < |b| ==> |d[x]| == |b[x]|
    requires forall x, y :: 0 <= x < |b| && 0 <= y < |b[x]| ==> d[x][y] == h.next + Before(b, x) + y
    requires r < h.next
    ensures !InBatch(d, r)
  {
  }
}
