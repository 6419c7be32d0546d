/** The driver's callouts as the ring sees them: any number of them at once, each writing
    its own requests in order, those of one stream one after the other. */
module Callouts {
  import opened Bytes
  import opened RingProtocol
  import opened StreamCapture
  import FlowModel

  // ---- chunks of a stream -------------------------------------------------------------------

  /** A request of one of the driver's three kinds. */
  ghost predicate FromDriver(req: Request) {
    || ((req.kind == REC_CONN_OPEN || req.kind == REC_CONN_CLOSE) && |req.payload| == FlowModel.CONN_SIZE)
    || exists id: nat, dir: bool :: IsChunk(req, id, dir, req.data)
  }

  ghost predicate AllFromDriver(reqs: seq<Request>) {
    forall i :: 0 <= i < |reqs| ==> FromDriver(reqs[i])
  }

  /** The chunk a request carries for a flow and direction, if it does. */
  ghost function ChunkOf(req: Request, id: nat, dir: bool): seq<seq<Byte>> {
    if IsChunk(req, id, dir, req.data) then [req.data] else []
  }

  /** The chunks of a flow in one direction, in the order they were requested. */
  ghost function ChunkList(reqs: seq<Request>, id: nat, dir: bool): seq<seq<Byte>> {
    if reqs == [] then [] else ChunkList(reqs[..|reqs| - 1], id, dir) + ChunkOf(reqs[|reqs| - 1], id, dir)
  }

  lemma {:induction false} ChunkListMore(reqs: seq<Request>, r: Request, id: nat, dir: bool)
    ensures ChunkList(reqs + [r], id, dir) == ChunkList(reqs, id, dir) + ChunkOf(r, id, dir)
  {
    assert (reqs + [r])[..|reqs|] == reqs;
  }

  /** The chunks of several indications. */
  ghost function ChunkedAll(indications: seq<seq<Byte>>): seq<seq<Byte>> {
    if indications == [] then []
    else ChunkedAll(indications[..|indications| - 1]) + Chunks(indications[|indications| - 1])
  }

  lemma {:induction false} ChunkedAllMore(indications: seq<seq<Byte>>, bytes: seq<Byte>)
    ensures ChunkedAll(indications + [bytes]) == ChunkedAll(indications) + Chunks(bytes)
  {
    assert (indications + [bytes])[..|indications|] == indications;
  }

  lemma {:induction false} ChunkedAllRejoin(indications: seq<seq<Byte>>)
    ensures Concat(ChunkedAll(indications)) == Concat(indications)
  {
    if indications != [] {
      var front, last := indications[..|indications| - 1], indications[|indications| - 1];
      ChunkedAllRejoin(front);
      ConcatAppend(ChunkedAll(front), Chunks(last));
      ChunksRejoin(last);
    }
  }

  /** A chunk request belongs to one flow and direction only. */
  lemma {:induction false} ChunkBelongs(req: Request, f: nat, d: bool, chunk: seq<Byte>, id: nat, dir: bool)
    requires IsChunk(req, f, d, chunk) && IsChunk(req, id, dir, req.data)
    ensures f == id && d == dir
  {
    assert req.payload[..FlowModel.DATA_SIZE] == req.payload;
    HeaderReads(req.payload, f, d, |chunk|);
    HeaderReads(req.payload, id, dir, |req.data|);
  }

  /** The requests of one run of the chunk loop carry exactly the chunks of its bytes, for
      its own flow and direction and for no other. */
  lemma {:induction false} LoopChunks(reqs: seq<Request>, f: nat, d: bool, chunks: seq<seq<Byte>>, id: nat, dir: bool)
    requires AllChunks(reqs, f, d, chunks)
    ensures ChunkList(reqs, id, dir) == if f == id && d == dir then chunks else []
  {
    if reqs != [] {
      var n := |reqs| - 1;
      FrontChunks(reqs, f, d, chunks);
      LoopChunks(reqs[..n], f, d, chunks[..n], id, dir);
      assert IsChunk(reqs[n], f, d, chunks[n]);
      if IsChunk(reqs[n], id, dir, reqs[n].data) { ChunkBelongs(reqs[n], f, d, chunks[n], id, dir); }
      assert chunks[..n] + [chunks[n]] == chunks;
    }
  }

  lemma {:induction false} FrontChunks(reqs: seq<Request>, f: nat, d: bool, chunks: seq<seq<Byte>>)
    requires AllChunks(reqs, f, d, chunks) && reqs != []
    ensures AllChunks(reqs[..|reqs| - 1], f, d, chunks[..|reqs| - 1])
  {
    var n := |reqs| - 1;
    forall i | 0 <= i < n ensures IsChunk(reqs[..n][i], f, d, chunks[..n][i]) { assert IsChunk(reqs[i], f, d, chunks[i]); }
  }

  // ---- callouts at once ---------------------------------------------------------------------

  /** One callout and the requests it makes: a stream indication of which `bytes` were
      copied, or a connection opening or closing. */
  datatype Callout =
    | Stream(flowId: nat, inbound: bool, bytes: seq<Byte>, reqs: seq<Request>)
    | Connection(req: Request)

  function Made(c: Callout): seq<Request> {
    match c
    case Stream(_, _, _, reqs) => reqs
    case Connection(req) => [req]
  }

  /** A stream callout makes the requests CaptureStream makes. */
  ghost predicate Genuine(c: Callout) {
    match c
    case Stream(flowId, inbound, bytes, reqs) => AllChunks(reqs, flowId, inbound, Chunks(bytes))
    case Connection(req) => (req.kind == REC_CONN_OPEN || req.kind == REC_CONN_CLOSE) && |req.payload| == FlowModel.CONN_SIZE
  }

  predicate OnStream(c: Callout, id: nat, dir: bool) { c.Stream? && c.flowId == id && c.inbound == dir }

  /** The requests, among those at positions before `m`, that callout `c` made. */
  function Own(called: seq<Request>, origin: seq<nat>, c: nat, m: nat): seq<Request>
    requires m <= |called| == |origin|
  {
    if m == 0 then []
    else if origin[m - 1] == c then Own(called, origin, c, m - 1) + [called[m - 1]]
    else Own(called, origin, c, m - 1)
  }

  /** Callout `c` has made its first requests, in order. */
  ghost predicate UnderWay(called: seq<Request>, callouts: seq<Callout>, origin: seq<nat>, c: nat)
    requires |origin| == |called| && c < |callouts|
  {
    Genuine(callouts[c]) && Own(called, origin, c, |called|) <= Made(callouts[c])
  }

  ghost predicate AfterEarlier(callouts: seq<Callout>, origin: seq<nat>, i: nat, j: nat) {
    && i < j < |origin| && origin[i] < |callouts| && origin[j] < |callouts|
    && var a, b := callouts[origin[i]], callouts[origin[j]];
       a.Stream? && b.Stream? && a.flowId == b.flowId && a.inbound == b.inbound ==> origin[i] <= origin[j]
  }

  /** `called` interleaves what the callouts made: request `i` comes from callout
      `origin[i]`, every callout's requests appear in order, and the callouts of one
      flow and direction do not overlap. */
  ghost predicate Interleaved(called: seq<Request>, callouts: seq<Callout>, origin: seq<nat>) {
    && |origin| == |called|
    && (forall i :: 0 <= i < |origin| ==> origin[i] < |callouts|)
    && (forall c {:trigger UnderWay(called, callouts, origin, c)} :: 0 <= c < |callouts| ==> UnderWay(called, callouts, origin, c))
    && (forall i, j {:trigger AfterEarlier(callouts, origin, i, j)} :: 0 <= i < j < |origin| ==> AfterEarlier(callouts, origin, i, j))
  }

  ghost predicate MadeAll(called: seq<Request>, callouts: seq<Callout>, origin: seq<nat>, c: nat)
    requires |origin| == |called| && c < |callouts|
  {
    Own(called, origin, c, |called|) == Made(callouts[c])
  }

  /** The callouts of a stream have made all their requests; others may be under way. */
  ghost predicate Finished(called: seq<Request>, callouts: seq<Callout>, origin: seq<nat>, id: nat, dir: bool)
    requires |origin| == |called|
  {
    forall c {:trigger MadeAll(called, callouts, origin, c)} ::
      0 <= c < |callouts| && OnStream(callouts[c], id, dir) ==> MadeAll(called, callouts, origin, c)
  }

  /** What was indicated on a stream, in order. */
  function Indicated(callouts: seq<Callout>, id: nat, dir: bool, n: nat): seq<seq<Byte>>
    requires n <= |callouts|
  {
    if n == 0 then []
    else if OnStream(callouts[n - 1], id, dir) then Indicated(callouts, id, dir, n - 1) + [callouts[n - 1].bytes]
    else Indicated(callouts, id, dir, n - 1)
  }

  // ---- any interleaving gives the stream its chunks in order -------------------------------------

  lemma {:induction false} OwnContains(called: seq<Request>, origin: seq<nat>, i: nat, m: nat)
    requires i < m <= |called| == |origin|
    ensures called[i] in Own(called, origin, origin[i], m)
  {
    if i < m - 1 { OwnContains(called, origin, i, m - 1); }
  }

  lemma {:induction false} OwnComesFrom(called: seq<Request>, origin: seq<nat>, c: nat, m: nat) returns (i: nat)
    requires m <= |called| == |origin| && Own(called, origin, c, m) != []
    ensures i < m && origin[i] == c
  {
    if origin[m - 1] == c { i := m - 1; } else { i := OwnComesFrom(called, origin, c, m - 1); }
  }

  /** A request carries a chunk of a stream exactly if its callout is on that stream. */
  lemma {:induction false} RequestOnStream(called: seq<Request>, callouts: seq<Callout>, origin: seq<nat>, i: nat, id: nat, dir: bool)
    requires Interleaved(called, callouts, origin) && i < |called|
    ensures FromDriver(called[i])
    ensures !OnStream(callouts[origin[i]], id, dir) ==> ChunkOf(called[i], id, dir) == []
  {
    var c, r := origin[i], called[i];
    assert UnderWay(called, callouts, origin, c);
    OwnContains(called, origin, i, |called|);
    if callouts[c].Stream? {
      var reqs, f, d := callouts[c].reqs, callouts[c].flowId, callouts[c].inbound;
      var k :| 0 <= k < |reqs| && reqs[k] == r;
      assert IsChunk(reqs[k], f, d, Chunks(callouts[c].bytes)[k]);
      if IsChunk(r, id, dir, r.data) { ChunkBelongs(r, f, d, Chunks(callouts[c].bytes)[k], id, dir); }
    }
  }

  lemma {:induction false} OwnOffStream(called: seq<Request>, callouts: seq<Callout>, origin: seq<nat>, c: nat, m: nat, id: nat, dir: bool)
    requires Interleaved(called, callouts, origin) && c < |callouts| && m <= |called| && !OnStream(callouts[c], id, dir)
    ensures ChunkList(Own(called, origin, c, m), id, dir) == []
  {
    if m > 0 {
      OwnOffStream(called, callouts, origin, c, m - 1, id, dir);
      if origin[m - 1] == c {
        RequestOnStream(called, callouts, origin, m - 1, id, dir);
        ChunkListMore(Own(called, origin, c, m - 1), called[m - 1], id, dir);
      }
    }
  }

  /** The requests of the first `n` callouts among the first `m` requests. */
  function UpTo(called: seq<Request>, origin: seq<nat>, n: nat, m: nat): seq<Request>
    requires m <= |called| == |origin|
  {
    if m == 0 then []
    else if origin[m - 1] < n then UpTo(called, origin, n, m - 1) + [called[m - 1]]
    else UpTo(called, origin, n, m - 1)
  }

  /** A request of an earlier callout on a stream finds nothing yet from a later one. */
  lemma {:induction false} NothingYet(called: seq<Request>, callouts: seq<Callout>, origin: seq<nat>, n: nat, m: nat, id: nat, dir: bool)
    requires Interleaved(called, callouts, origin) && n < |callouts| && m < |called| && origin[m] < n
    ensures ChunkOf(called[m], id, dir) == [] || ChunkList(Own(called, origin, n, m), id, dir) == []
  {
    RequestOnStream(called, callouts, origin, m, id, dir);
    if !OnStream(callouts[n], id, dir) {
      OwnOffStream(called, callouts, origin, n, m, id, dir);
    } else if ChunkOf(called[m], id, dir) != [] && Own(called, origin, n, m) != [] {
      var i := OwnComesFrom(called, origin, n, m);
      InStreamOrder(called, callouts, origin, i, m, id, dir);
    }
  }

  lemma {:induction false} InStreamOrder(called: seq<Request>, callouts: seq<Callout>, origin: seq<nat>, i: nat, j: nat, id: nat, dir: bool)
    requires Interleaved(called, callouts, origin) && i < j < |called|
    requires OnStream(callouts[origin[i]], id, dir) && OnStream(callouts[origin[j]], id, dir)
    ensures origin[i] <= origin[j]
  {
    assert AfterEarlier(callouts, origin, i, j);
  }

  lemma {:induction false} Swap<T>(a: seq<T>, b: seq<T>, r: seq<T>)
    requires b == [] || r == []
    ensures a + b + r == a + r + b
  {
    if b == [] { assert a + b + r == a + r + b; } else { assert a + b + r == a + r + b; }
  }

  /** One more request, of the callout itself or of an earlier one. */
  lemma {:induction false} OneMoreRequest(a: seq<Request>, b: seq<Request>, own: seq<Request>, r: Request, mine: bool, id: nat, dir: bool)
    requires ChunkList(a, id, dir) == ChunkList(b, id, dir) + ChunkList(own, id, dir)
    requires mine || ChunkOf(r, id, dir) == [] || ChunkList(own, id, dir) == []
    ensures ChunkList(a + [r], id, dir) ==
      if mine then ChunkList(b, id, dir) + ChunkList(own + [r], id, dir) else ChunkList(b + [r], id, dir) + ChunkList(own, id, dir)
  {
    ChunkListMore(a, r, id, dir);
    if mine {
      ChunkListMore(own, r, id, dir);
      Associate(ChunkList(b, id, dir), ChunkList(own, id, dir), ChunkOf(r, id, dir));
    } else {
      ChunkListMore(b, r, id, dir);
      Swap(ChunkList(b, id, dir), ChunkList(own, id, dir), ChunkOf(r, id, dir));
    }
  }

  lemma {:induction false} OneMoreCallout(called: seq<Request>, callouts: seq<Callout>, origin: seq<nat>, n: nat, m: nat, id: nat, dir: bool)
    requires Interleaved(called, callouts, origin) && n < |callouts| && m <= |called|
    ensures ChunkList(UpTo(called, origin, n + 1, m), id, dir) ==
      ChunkList(UpTo(called, origin, n, m), id, dir) + ChunkList(Own(called, origin, n, m), id, dir)
  {
    if m > 0 {
      OneMoreCallout(called, callouts, origin, n, m - 1, id, dir);
      if origin[m - 1] < n { NothingYet(called, callouts, origin, n, m - 1, id, dir); }
      if origin[m - 1] <= n {
        OneMoreRequest(UpTo(called, origin, n + 1, m - 1), UpTo(called, origin, n, m - 1), Own(called, origin, n, m - 1),
                       called[m - 1], origin[m - 1] == n, id, dir);
      }
    }
  }

  /** The first `n` callouts gave a stream the chunks of their indications. */
  ghost predicate Agree(called: seq<Request>, callouts: seq<Callout>, origin: seq<nat>, n: nat, id: nat, dir: bool)
    requires |origin| == |called| && n <= |callouts|
  {
    ChunkList(UpTo(called, origin, n, |called|), id, dir) == ChunkedAll(Indicated(callouts, id, dir, n))
  }

  lemma {:induction false} FirstCallouts(called: seq<Request>, callouts: seq<Callout>, origin: seq<nat>, id: nat, dir: bool)
    requires Interleaved(called, callouts, origin) && Finished(called, callouts, origin, id, dir)
    ensures Agree(called, callouts, origin, |callouts|, id, dir)
  {
    NoCallouts(called, origin, |called|);
    var n := 0;
    while n < |callouts|
      invariant n <= |callouts| && Agree(called, callouts, origin, n, id, dir)
    {
      NextCallout(called, callouts, origin, n, id, dir);
      n := n + 1;
    }
  }

  lemma {:induction false} NextCallout(called: seq<Request>, callouts: seq<Callout>, origin: seq<nat>, c: nat, id: nat, dir: bool)
    requires Interleaved(called, callouts, origin) && Finished(called, callouts, origin, id, dir) && c < |callouts|
    requires Agree(called, callouts, origin, c, id, dir)
    ensures Agree(called, callouts, origin, c + 1, id, dir)
  {
    OneMoreCallout(called, callouts, origin, c, |called|, id, dir);
    CalloutChunks(called, callouts, origin, c, id, dir);
  }

  lemma {:induction false} NoCallouts(called: seq<Request>, origin: seq<nat>, m: nat)
    requires m <= |called| == |origin|
    ensures UpTo(called, origin, 0, m) == []
  {
    if m > 0 { NoCallouts(called, origin, m - 1); }
  }

  /** What one callout adds to a stream. */
  lemma {:induction false} CalloutChunks(called: seq<Request>, callouts: seq<Callout>, origin: seq<nat>, c: nat, id: nat, dir: bool)
    requires Interleaved(called, callouts, origin) && Finished(called, callouts, origin, id, dir) && c < |callouts|
    ensures ChunkedAll(Indicated(callouts, id, dir, c + 1)) ==
      ChunkedAll(Indicated(callouts, id, dir, c)) + ChunkList(Own(called, origin, c, |called|), id, dir)
  {
    var before := Indicated(callouts, id, dir, c);
    if OnStream(callouts[c], id, dir) {
      assert UnderWay(called, callouts, origin, c) && MadeAll(called, callouts, origin, c);
      LoopChunks(callouts[c].reqs, id, dir, Chunks(callouts[c].bytes), id, dir);
      ChunkedAllMore(before, callouts[c].bytes);
    } else {
      OwnOffStream(called, callouts, origin, c, |called|, id, dir);
      assert ChunkedAll(before) + [] == ChunkedAll(before);
    }
  }

  lemma {:induction false} EveryCallout(called: seq<Request>, origin: seq<nat>, n: nat, m: nat)
    requires m <= |called| == |origin| && forall i :: 0 <= i < m ==> origin[i] < n
    ensures UpTo(called, origin, n, m) == called[..m]
  {
    if m > 0 {
      EveryCallout(called, origin, n, m - 1);
      assert called[..m - 1] + [called[m - 1]] == called[..m];
    }
  }

  /** However callouts interleave, the requests carry for every stream the chunks of its
      indications, in order, and nothing else. */
  lemma {:induction false} AnyInterleaving(called: seq<Request>, callouts: seq<Callout>, origin: seq<nat>, id: nat, dir: bool)
    requires Interleaved(called, callouts, origin) && Finished(called, callouts, origin, id, dir)
    ensures ChunkList(called, id, dir) == ChunkedAll(Indicated(callouts, id, dir, |callouts|))
  {
    FirstCallouts(called, callouts, origin, id, dir);
    EveryCallout(called, origin, |callouts|, |called|);
    assert called[..|called|] == called;
  }

  lemma {:induction false} CalloutsAreDriver(called: seq<Request>, callouts: seq<Callout>, origin: seq<nat>)
    requires Interleaved(called, callouts, origin)
    ensures AllFromDriver(called)
  {
    forall i | 0 <= i < |called| ensures FromDriver(called[i]) { RequestOnStream(called, callouts, origin, i, 0, false); }
  }
}
