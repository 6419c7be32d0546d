/** What the application shows of a captured flow (app/src/ui.cpp, the inspector): HTTP messages
    of the payload itself and of the payload decrypted. Joins the capture pipeline to the
    two decoders. */
module Inspector {
  import opened Bytes
  import opened RingProtocol
  import opened RingSystem
  import opened Callouts
  import opened Pipeline
  import opened InspectorCache
  import FlowModel
  import HttpMessages
  import HttpStability
  import HttpRoundTrip
  import HttpWire
  import TlsRecords
  import TlsDecrypt
  import TlsKeyLog
  import TlsFlow

  // ---- while the capture grows ---------------------------------------------------------------

  /** Messages inside TLS stay on the screen too, for one key log: in every run without a
      clear, a connection that decrypts goes on decrypting, with the same suite, and only
      the last message of a direction may still grow. */
  lemma {:induction false} DecryptedStays(c: TlsDecrypt.Cipher, macs: TlsFlow.Macs, secrets: TlsKeyLog.Secrets, s: Screen, events: seq<Event>, id: nat)
    returns (a: TlsFlow.Result, b: TlsFlow.Result)
    requires TlsFlow.GoodMacs(macs) && s.model.Valid() && AllPossible(events) && NoClear(events)
    ensures a == Decoded(c, macs, secrets, s, id) && b == Decoded(c, macs, secrets, Show(s, events), id)
    ensures a.Ok() ==>
      && b.Ok() && b.cipherSuite == a.cipherSuite
      && HttpStability.Continues(HttpMessages.Messages(a.outPlain, false), HttpMessages.Messages(b.outPlain, false), |a.outPlain|)
      && HttpStability.Continues(HttpMessages.Messages(a.inPlain, true), HttpMessages.Messages(b.inPlain, true), |a.inPlain|)
  {
    PayloadGrows(s, events, id, false);
    PayloadGrows(s, events, id, true);
    var n := Show(s, events);
    a, b := OpenedStays(c, macs, secrets, s.Payload(id, false), s.Payload(id, true), n.Payload(id, false), n.Payload(id, true));
  }

  /** What the decoder makes of a flow on the screen. */
  ghost function Decoded(c: TlsDecrypt.Cipher, macs: TlsFlow.Macs, secrets: TlsKeyLog.Secrets, s: Screen, id: nat): TlsFlow.Result
    requires TlsFlow.GoodMacs(macs)
  {
    TlsFlow.FlowResult(c, macs, TlsRecords.Records(s.Payload(id, false)), TlsRecords.Records(s.Payload(id, true)), secrets)
  }

  lemma {:induction false} OpenedStays(c: TlsDecrypt.Cipher, macs: TlsFlow.Macs, secrets: TlsKeyLog.Secrets,
                                       out: seq<Byte>, inn: seq<Byte>, out': seq<Byte>, inn': seq<Byte>)
    returns (a: TlsFlow.Result, b: TlsFlow.Result)
    requires TlsFlow.GoodMacs(macs) && out <= out' && inn <= inn'
    ensures a == TlsFlow.FlowResult(c, macs, TlsRecords.Records(out), TlsRecords.Records(inn), secrets)
    ensures b == TlsFlow.FlowResult(c, macs, TlsRecords.Records(out'), TlsRecords.Records(inn'), secrets)
    ensures a.Ok() ==>
      && b.Ok() && b.cipherSuite == a.cipherSuite
      && HttpStability.Continues(HttpMessages.Messages(a.outPlain, false), HttpMessages.Messages(b.outPlain, false), |a.outPlain|)
      && HttpStability.Continues(HttpMessages.Messages(a.inPlain, true), HttpMessages.Messages(b.inPlain, true), |a.inPlain|)
  {
    a := TlsFlow.FlowResult(c, macs, TlsRecords.Records(out), TlsRecords.Records(inn), secrets);
    b := TlsFlow.FlowResult(c, macs, TlsRecords.Records(out'), TlsRecords.Records(inn'), secrets);
    if a.Ok() {
      var moreOut, moreIn := MoreRecords(out, out'), MoreRecords(inn, inn');
      TlsFlow.FlowGrows(c, macs, TlsRecords.Records(out), TlsRecords.Records(inn), moreOut, moreIn, secrets);
      MessagesContinue(a.outPlain, b.outPlain, false);
      MessagesContinue(a.inPlain, b.inPlain, true);
    }
  }

  ghost function MoreRecords(s: seq<Byte>, t: seq<Byte>): (more: seq<TlsRecords.Record>)
    requires s <= t
    ensures TlsRecords.Records(t) == TlsRecords.Records(s) + more
  {
    TlsRecords.RecordsGrow(s, t[|s|..]);
    assert s + t[|s|..] == t;
    TlsRecords.Records(t)[|TlsRecords.Records(s)|..]
  }

  /** HTTP messages `vs` captured and drawn, then a clear, then messages `ws` of the same total
      size on the same flow: `vs` are still shown in place of `ws`. */
  lemma {:induction false} StaleMessages(id: nat, dir: bool, vs: seq<HttpWire.Wire>, ws: seq<HttpWire.Wire>, payloadCap: nat, packetCap: nat) returns (n: Screen)
    requires |vs| <= HttpMessages.MAX_MESSAGES && |ws| <= HttpMessages.MAX_MESSAGES && HttpRoundTrip.AllGood(vs, dir) && HttpRoundTrip.AllGood(ws, dir)
    requires id < U64 && 0 < |HttpRoundTrip.Stream(vs)| == |HttpRoundTrip.Stream(ws)| <= Min(payloadCap, U32 - 1)
    ensures var a, b := DataRecord(id, dir, HttpRoundTrip.Stream(vs)), DataRecord(id, dir, HttpRoundTrip.Stream(ws));
      var events := [Deliver(a), Draw(id), Clear, Deliver(b), Draw(id)];
      AllPossible(events) && n == Show(Start(payloadCap, packetCap), events)
    ensures (if dir then n.cache.responses else n.cache.requests) == HttpRoundTrip.Expected(vs)
    ensures HttpMessages.Messages(n.Payload(id, dir), dir) == HttpRoundTrip.Expected(ws)
  {
    n := StaleShown(id, dir, HttpRoundTrip.Stream(vs), HttpRoundTrip.Stream(ws), payloadCap, packetCap);
    HttpRoundTrip.PipelineRoundTrip(vs, dir);
    HttpRoundTrip.PipelineRoundTrip(ws, dir);
  }

  // ---- from the wire to the window ----------------------------------------------------------------

  /** A drained run whose callouts indicated `bytes` on a stream and lost none of them. */
  ghost predicate Captures(size: nat, actions: seq<Action>, callouts: seq<Callout>, origin: seq<nat>, id: nat, dir: bool, bytes: seq<Byte>) {
    && SizeAccepted(size) && Honest(actions) && Drained(Run(Init(size), actions))
    && Interleaved(Run(Init(size), actions).h.called, callouts, origin)
    && Finished(Run(Init(size), actions).h.called, callouts, origin, id, dir)
    && Lossless(size, actions, id, dir) && Concat(Indicated(callouts, id, dir, |callouts|)) == bytes
  }

  lemma {:induction false} CapturesAll(size: nat, actions: seq<Action>, callouts: seq<Callout>, origin: seq<nat>, id: nat, dir: bool, bytes: seq<Byte>,
                                       payloadCap: nat, packetCap: nat)
    returns (m: FlowModel.Model)
    requires Captures(size, actions, callouts, origin, id, dir, bytes) && |bytes| <= payloadCap
    ensures FlowModel.AllCastable(Run(Init(size), actions).h.delivered)
    ensures m == FlowModel.IngestAll(Run(Init(size), actions).h.delivered, payloadCap, packetCap)
    ensures FlowModel.Captured(m, id, dir).payload == bytes
  {
    EndToEnd(size, actions, callouts, origin, id, dir, payloadCap, packetCap);
    m := FlowModel.IngestAll(Run(Init(size), actions).h.delivered, payloadCap, packetCap);
  }

  /** HTTP messages sent over a connection are shown as they were sent: through the chunk
      loop, the ring, poll, ingest and the parser, however their bytes were split. */
  lemma {:induction false} HttpIsShown(size: nat, actions: seq<Action>, callouts: seq<Callout>, origin: seq<nat>, id: nat, dir: bool,
                                       ws: seq<HttpWire.Wire>, payloadCap: nat, packetCap: nat)
    returns (m: FlowModel.Model)
    requires Captures(size, actions, callouts, origin, id, dir, HttpRoundTrip.Stream(ws)) && |HttpRoundTrip.Stream(ws)| <= payloadCap
    requires |ws| <= HttpMessages.MAX_MESSAGES && HttpRoundTrip.AllGood(ws, dir)
    ensures FlowModel.AllCastable(Run(Init(size), actions).h.delivered)
    ensures m == FlowModel.IngestAll(Run(Init(size), actions).h.delivered, payloadCap, packetCap)
    ensures HttpMessages.Messages(FlowModel.Captured(m, id, dir).payload, dir) == HttpRoundTrip.Expected(ws)
  {
    m := CapturesAll(size, actions, callouts, origin, id, dir, HttpRoundTrip.Stream(ws), payloadCap, packetCap);
    HttpRoundTrip.PipelineRoundTrip(ws, dir);
  }

  /** The same for messages inside TLS 1.2, given the connection's secret: what the two
      sides sent is decrypted and shown as it was sent. */
  lemma {:induction false} SecureHttpIsShown(size: nat, actions: seq<Action>, callouts: seq<Callout>, origin: seq<nat>, id: nat, payloadCap: nat, packetCap: nat,
                          c: TlsDecrypt.Cipher, macs: TlsFlow.Macs, secrets: TlsKeyLog.Secrets, k: TlsFlow.Connection,
                          out: seq<Byte>, inn: seq<Byte>, requests: seq<HttpWire.Wire>, responses: seq<HttpWire.Wire>)
    returns (m: FlowModel.Model, r: TlsFlow.Result)
    requires TlsFlow.GoodMacs(macs) && TlsFlow.GoodConnection(k) && TlsKeyLog.Lookup(secrets, k.cr) == k.master
    requires var d := TlsFlow.KeysOf(macs, k);
      && TlsDecrypt.Inverts(c, d.cKey) && TlsDecrypt.Inverts(c, d.sKey)
      && TlsRecords.AllFramable(TlsDecrypt.Sent(c, d.cKey, d.cIV, k.client)) && out == TlsRecords.Frames(TlsDecrypt.Sent(c, d.cKey, d.cIV, k.client))
      && TlsRecords.AllFramable(TlsDecrypt.Sent(c, d.sKey, d.sIV, k.server)) && inn == TlsRecords.Frames(TlsDecrypt.Sent(c, d.sKey, d.sIV, k.server))
    requires Captures(size, actions, callouts, origin, id, false, out) && Captures(size, actions, callouts, origin, id, true, inn)
    requires |out| <= payloadCap && |inn| <= payloadCap
    requires TlsDecrypt.AppData(k.client.data) == HttpRoundTrip.Stream(requests)
    requires TlsDecrypt.AppData(k.server.data) == HttpRoundTrip.Stream(responses)
    requires |requests| <= HttpMessages.MAX_MESSAGES && HttpRoundTrip.AllGood(requests, false)
    requires |responses| <= HttpMessages.MAX_MESSAGES && HttpRoundTrip.AllGood(responses, true)
    ensures FlowModel.AllCastable(Run(Init(size), actions).h.delivered)
    ensures m == FlowModel.IngestAll(Run(Init(size), actions).h.delivered, payloadCap, packetCap)
    ensures r == TlsFlow.FlowResult(c, macs, TlsRecords.Records(FlowModel.Captured(m, id, false).payload), TlsRecords.Records(FlowModel.Captured(m, id, true).payload), secrets)
    ensures r.Ok() && r.cipherSuite == k.suite
    ensures HttpMessages.Messages(r.outPlain, false) == HttpRoundTrip.Expected(requests)
    ensures HttpMessages.Messages(r.inPlain, true) == HttpRoundTrip.Expected(responses)
  {
    m := CapturesAll(size, actions, callouts, origin, id, false, out, payloadCap, packetCap);
    var _ := CapturesAll(size, actions, callouts, origin, id, true, inn, payloadCap, packetCap);
    r := FlowIsOpened(c, macs, secrets, k, out, inn);
    HttpRoundTrip.PipelineRoundTrip(requests, false);
    HttpRoundTrip.PipelineRoundTrip(responses, true);
  }

  lemma {:induction false} FlowIsOpened(c: TlsDecrypt.Cipher, macs: TlsFlow.Macs, secrets: TlsKeyLog.Secrets, k: TlsFlow.Connection, out: seq<Byte>, inn: seq<Byte>)
    returns (r: TlsFlow.Result)
    requires TlsFlow.GoodMacs(macs) && TlsFlow.GoodConnection(k) && TlsKeyLog.Lookup(secrets, k.cr) == k.master
    requires var d := TlsFlow.KeysOf(macs, k);
      && TlsDecrypt.Inverts(c, d.cKey) && TlsDecrypt.Inverts(c, d.sKey)
      && TlsRecords.AllFramable(TlsDecrypt.Sent(c, d.cKey, d.cIV, k.client)) && out == TlsRecords.Frames(TlsDecrypt.Sent(c, d.cKey, d.cIV, k.client))
      && TlsRecords.AllFramable(TlsDecrypt.Sent(c, d.sKey, d.sIV, k.server)) && inn == TlsRecords.Frames(TlsDecrypt.Sent(c, d.sKey, d.sIV, k.server))
    ensures r == TlsFlow.FlowResult(c, macs, TlsRecords.Records(out), TlsRecords.Records(inn), secrets)
    ensures r == TlsFlow.Result(TlsFlow.Fine, k.suite, TlsDecrypt.AppData(k.client.data), TlsDecrypt.AppData(k.server.data))
  {
    TlsFlow.FlowRoundTrip(c, macs, k, secrets, [], []);
    assert out + [] == out && inn + [] == inn;
    r := TlsFlow.FlowResult(c, macs, TlsRecords.Records(out), TlsRecords.Records(inn), secrets);
  }
}
