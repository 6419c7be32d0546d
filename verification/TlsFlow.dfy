/** TlsDecryptFlow (app/src/tls_decrypt.cpp): both directions of a captured connection, from the
    hellos to the application data. */
module TlsFlow {
  import opened Bytes
  import opened TlsRecords
  import opened TlsPrf
  import opened TlsKeyLog
  import opened TlsDecrypt

  datatype Hash = Sha256 | Sha384

  function DigestSize(h: Hash): nat { if h.Sha256? then 32 else 48 }

  datatype Suite = Suite(keyLen: nat, hash: Hash, gcm: bool, tls13: bool)

  function LookupSuite(id: nat): Option<Suite> {
    if id == 0xC02F || id == 0xC02B || id == 0x009C then Some(Suite(16, Sha256, true, false))
    else if id == 0xC030 || id == 0xC02C || id == 0x009D then Some(Suite(32, Sha384, true, false))
    else if id == 0x1301 then Some(Suite(16, Sha256, true, true))
    else if id == 0x1302 then Some(Suite(32, Sha384, true, true))
    else if id == 0x1303 then Some(Suite(32, Sha256, false, true))
    else None
  }

  /** The suites with AES-128 and SHA-256, and with AES-256 and SHA-384, of RFC 5288 and RFC 5289. */
  predicate WithAes128(id: nat) { id in {0x009C, 0xC02B, 0xC02F} }

  predicate WithAes256(id: nat) { id in {0x009D, 0xC02C, 0xC030} }

  /** The table knows key length and hash of exactly these TLS 1.2 GCM suites. */
  lemma {:induction false} SuiteTable(id: nat, suite: Suite)
    ensures LookupSuite(id) == Some(suite) && suite.gcm && !suite.tls13 <==>
      (WithAes128(id) && suite == Suite(16, Sha256, true, false)) || (WithAes256(id) && suite == Suite(32, Sha384, true, false))
  {
  }

  /** Why there is nothing to show. */
  datatype Note = NoClientHello | NoServerHello | BadServerHello | UnknownSuite | Tls13 | NotGcm | NoSecret | Fine

  datatype Result = Result(note: Note, cipherSuite: nat, outPlain: seq<Byte>, inPlain: seq<Byte>) {
    predicate Ok() { note.Fine? }
  }

  /** HMAC with each hash. */
  type Macs = Hash -> Hmac

  ghost predicate GoodMacs(macs: Macs) {
    forall h: Hash :: HashLength(macs(h), DigestSize(h))
  }

  // ---- what the hellos say --------------------------------------------------------------------

  function RandomOf(body: seq<Byte>): (r: seq<Byte>)
    requires |body| >= 34
    ensures |r| == 32
  {
    body[2..34]
  }

  /** The suite of a ServerHello, which follows the session id. */
  function SuiteOf(body: seq<Byte>): Option<nat>
    requires |body| >= 35
  {
    var off := 35 + body[34] as int;
    if off + 2 > |body| then None else Some(Word(body[off], body[off + 1]))
  }

  ghost function Keys(macs: Macs, suite: Suite, master: seq<Byte>, cr: seq<Byte>, sr: seq<Byte>): (k: DirKeys)
    requires GoodMacs(macs)
    ensures Tiles(k, KeyBlock(macs(suite.hash), DigestSize(suite.hash), master, cr, sr, suite.keyLen), suite.keyLen)
  {
    var kb, n := KeyBlock(macs(suite.hash), DigestSize(suite.hash), master, cr, sr, suite.keyLen), suite.keyLen;
    Retile(kb, n);
    DirKeys(kb[0..n], kb[n..n + n], kb[n + n..n + n + 4], kb[n + n + 4..n + n + 8])
  }

  /** Both directions, once the secret is known. */
  ghost function Opened(c: Cipher, macs: Macs, outRecs: seq<Record>, inRecs: seq<Record>, id: nat, suite: Suite,
                        master: seq<Byte>, cr: seq<Byte>, sr: seq<Byte>): Result
    requires GoodMacs(macs)
  {
    var k := Keys(macs, suite, master, cr, sr);
    Result(Fine, id, Direction(c, k.cKey, k.cIV, outRecs), Direction(c, k.sKey, k.sIV, inRecs))
  }

  /** The part that depends on the suite. */
  ghost function WithSuite(c: Cipher, macs: Macs, outRecs: seq<Record>, inRecs: seq<Record>, secrets: Secrets, id: nat,
                           cr: seq<Byte>, sr: seq<Byte>): Result
    requires GoodMacs(macs)
  {
    match LookupSuite(id)
    case None => Result(UnknownSuite, id, [], [])
    case Some(suite) =>
      if suite.tls13 then Result(Tls13, id, [], [])
      else if !suite.gcm then Result(NotGcm, id, [], [])
      else
        var master := Lookup(secrets, cr);
        if |master| != 48 then Result(NoSecret, id, [], [])
        else Opened(c, macs, outRecs, inRecs, id, suite, master, cr, sr)
  }

  ghost function FlowResult(c: Cipher, macs: Macs, outRecs: seq<Record>, inRecs: seq<Record>, secrets: Secrets): Result
    requires GoodMacs(macs)
  {
    var ch, sh := Search(outRecs, 1), Search(inRecs, 2);
    if ch.None? || |ch.value| < 34 then Result(NoClientHello, 0, [], [])
    else if sh.None? || |sh.value| < 35 then Result(NoServerHello, 0, [], [])
    else
      match SuiteOf(sh.value)
      case None => Result(BadServerHello, 0, [], [])
      case Some(id) => WithSuite(c, macs, outRecs, inRecs, secrets, id, RandomOf(ch.value), RandomOf(sh.value))
  }

  // ---- the code -----------------------------------------------------------------------------------

  method DecryptBoth(c: Cipher, macs: Macs, outRecs: seq<Record>, inRecs: seq<Record>, id: nat, suite: Suite,
                     master: seq<Byte>, cr: seq<Byte>, sr: seq<Byte>) returns (r: Result)
    requires GoodMacs(macs)
    ensures r == Opened(c, macs, outRecs, inRecs, id, suite, master, cr, sr)
  {
    ghost var hlen := DigestSize(suite.hash);
    var k := DeriveKeyBlock(macs(suite.hash), hlen, master, cr, sr, suite.keyLen);
    TilingIsUnique(k, Keys(macs, suite, master, cr, sr),
                   KeyBlock(macs(suite.hash), hlen, master, cr, sr, suite.keyLen), suite.keyLen);
    var outPlain := DecryptDir(c, k.cKey, k.cIV, outRecs);
    var inPlain := DecryptDir(c, k.sKey, k.sIV, inRecs);
    r := Result(Fine, id, outPlain, inPlain);
  }

  method TlsDecryptFlow(c: Cipher, macs: Macs, outStream: seq<Byte>, inStream: seq<Byte>, keylog: KeyLog) returns (r: Result)
    requires GoodMacs(macs)
    ensures r == FlowResult(c, macs, Records(outStream), Records(inStream), keylog.secrets)
  {
    var outRecs := ParseRecords(outStream);
    var inRecs := ParseRecords(inStream);
    var ch := FindHandshake(outRecs, 1);
    if ch.None? || |ch.value| < 34 {
      return Result(NoClientHello, 0, [], []);
    }
    var sh := FindHandshake(inRecs, 2);
    if sh.None? || |sh.value| < 35 {
      return Result(NoServerHello, 0, [], []);
    }
    var cr, sr := RandomOf(ch.value), RandomOf(sh.value);
    var id := SuiteOf(sh.value);
    if id.None? {
      return Result(BadServerHello, 0, [], []);
    }
    var suite := LookupSuite(id.value);
    if suite.None? {
      return Result(UnknownSuite, id.value, [], []);
    }
    if suite.value.tls13 {
      return Result(Tls13, id.value, [], []);
    }
    if !suite.value.gcm {
      return Result(NotGcm, id.value, [], []);
    }
    var master := keylog.MasterSecret(cr);
    if |master| != 48 {
      return Result(NoSecret, id.value, [], []);
    }
    r := DecryptBoth(c, macs, outRecs, inRecs, id.value, suite.value, master, cr, sr);
  }

  // ---- end to end ---------------------------------------------------------------------------------

  /** A connection: what both sides agreed on and what each one sent. */
  datatype Connection = Connection(cr: seq<Byte>, sr: seq<Byte>, suite: nat, master: seq<Byte>, client: Side, server: Side)

  /** The body of a ClientHello (section 7.4.1.2 of RFC 5246): version, random, and more. */
  ghost predicate IsClientHello(body: seq<Byte>, cr: seq<Byte>) {
    |cr| == 32 && exists version, rest :: |version| == 2 && body == version + cr + rest
  }

  /** The body of a ServerHello (section 7.4.1.3 of RFC 5246): version, random, session id,
      cipher suite, compression method, and more. */
  function ServerHello(version: seq<Byte>, sr: seq<Byte>, session: seq<Byte>, suite: seq<Byte>, rest: seq<Byte>): seq<Byte>
    requires |session| < 256
  {
    version + sr + [|session|] + session + suite + rest
  }

  ghost predicate IsServerHello(body: seq<Byte>, sr: seq<Byte>, id: nat) {
    && |sr| == 32 && id < U16
    && exists version: seq<Byte>, session: seq<Byte>, rest: seq<Byte> ::
         |version| == 2 && |session| < 256 && body == ServerHello(version, sr, session, [id / 256, id % 256], rest)
  }

  lemma {:induction false} ClientHelloReads(body: seq<Byte>, cr: seq<Byte>)
    requires IsClientHello(body, cr)
    ensures |body| >= 34 && RandomOf(body) == cr
  {
    var version, rest :| |version| == 2 && body == version + cr + rest;
  }

  lemma {:induction false} ServerHelloReads(body: seq<Byte>, sr: seq<Byte>, id: nat)
    requires IsServerHello(body, sr, id)
    ensures |body| >= 35 && RandomOf(body) == sr && SuiteOf(body) == Some(id)
  {
    var version: seq<Byte>, session: seq<Byte>, rest: seq<Byte> :|
      |version| == 2 && |session| < 256 && body == ServerHello(version, sr, session, [id / 256, id % 256], rest);
    ServerHelloSplits(version, sr, session, [id / 256, id % 256], rest);
    WordSplits(id);
  }

  lemma {:induction false} ServerHelloSplits(version: seq<Byte>, sr: seq<Byte>, session: seq<Byte>, suite: seq<Byte>, rest: seq<Byte>)
    requires |version| == 2 && |sr| == 32 && |session| < 256 && |suite| == 2
    ensures var body := ServerHello(version, sr, session, suite, rest);
      && |body| >= 37 + |session| && body[2..34] == sr && body[34] == |session|
      && body[35 + |session|] == suite[0] && body[36 + |session|] == suite[1]
  {
  }

  ghost predicate SaysHello(k: Connection) {
    && (exists ch :: OpensWith(k.client.hello, Handshake(1, ch)) && IsClientHello(ch, k.cr))
    && (exists sh :: OpensWith(k.server.hello, Handshake(2, sh)) && IsServerHello(sh, k.sr, k.suite))
  }

  lemma {:induction false} HellosFound(k: Connection)
    requires SaysHello(k)
    ensures var ch, sh := Search(k.client.hello, 1), Search(k.server.hello, 2);
      && ch.Some? && |ch.value| >= 34 && RandomOf(ch.value) == k.cr
      && sh.Some? && |sh.value| >= 35 && RandomOf(sh.value) == k.sr && SuiteOf(sh.value) == Some(k.suite)
  {
    var ch :| OpensWith(k.client.hello, Handshake(1, ch)) && IsClientHello(ch, k.cr);
    var sh :| OpensWith(k.server.hello, Handshake(2, sh)) && IsServerHello(sh, k.sr, k.suite);
    OpeningFound(k.client.hello, Handshake(1, ch));
    OpeningFound(k.server.hello, Handshake(2, sh));
    ClientHelloReads(ch, k.cr);
    ServerHelloReads(sh, k.sr, k.suite);
  }

  /** A TLS 1.2 connection with an AES-GCM suite. */
  ghost predicate GoodConnection(k: Connection) {
    && SaysHello(k) && GoodSide(k.client) && GoodSide(k.server) && |k.master| == 48
    && (WithAes128(k.suite) || WithAes256(k.suite))
  }

  /** The keys both sides derive: 16-byte keys with SHA-256 or 32-byte keys with SHA-384, by
      the number of the suite. */
  ghost function KeysOf(macs: Macs, k: Connection): DirKeys
    requires GoodMacs(macs)
  {
    Keys(macs, if WithAes128(k.suite) then Suite(16, Sha256, true, false) else Suite(32, Sha384, true, false), k.master, k.cr, k.sr)
  }

  /** They tile the key block of section 6.3 of RFC 5246. */
  lemma {:induction false} KeysTile(macs: Macs, k: Connection)
    requires GoodMacs(macs) && (WithAes128(k.suite) || WithAes256(k.suite))
    ensures var seed := Text("key expansion") + (k.sr + k.cr);
      if k.suite in {0x009C, 0xC02B, 0xC02F} then Tiles(KeysOf(macs, k), PHash(macs(Sha256), 32, k.master, seed, 40), 16)
      else Tiles(KeysOf(macs, k), PHash(macs(Sha384), 48, k.master, seed, 72), 32)
  {
  }

  /** The hellos are found in all that a side sends. */
  lemma {:induction false} HelloFound(c: Cipher, key: seq<Byte>, iv: seq<Byte>, s: Side, rest: seq<Record>, want: Byte)
    requires Search(s.hello, want).Some?
    ensures Search(Sent(c, key, iv, s) + rest, want) == Search(s.hello, want)
  {
    var others := [s.change] + SealAll(c, key, iv, s.data, 0);
    Associate(s.hello, others, rest);
    SearchStable(s.hello, others + rest, want);
  }

  /** What a connection put on the wire is decrypted in both directions to exactly the
      application data its sides sent, provided the key log knows the client random.
      Either capture may end inside a further record. */
  lemma {:induction false} FlowRoundTrip(c: Cipher, macs: Macs, k: Connection, secrets: Secrets, outRest: seq<Byte>, inRest: seq<Byte>)
    requires GoodMacs(macs) && GoodConnection(k) && Lookup(secrets, k.cr) == k.master
    requires Inverts(c, KeysOf(macs, k).cKey) && Inverts(c, KeysOf(macs, k).sKey) && !Complete(outRest) && !Complete(inRest)
    ensures var d := KeysOf(macs, k);
      var outRecs, inRecs := Sent(c, d.cKey, d.cIV, k.client), Sent(c, d.sKey, d.sIV, k.server);
      && AllFramable(outRecs) && AllFramable(inRecs)
      && FlowResult(c, macs, Records(Frames(outRecs) + outRest), Records(Frames(inRecs) + inRest), secrets)
         == Result(Fine, k.suite, AppData(k.client.data), AppData(k.server.data))
  {
    var d := KeysOf(macs, k);
    HellosFound(k);
    var outRecs := SideReads(c, d.cKey, d.cIV, k.client, outRest, 1);
    var inRecs := SideReads(c, d.sKey, d.sIV, k.server, inRest, 2);
    FlowOpens(c, macs, k, secrets, outRecs, inRecs, d);
  }

  /** The flow is decrypted with the keys of the connection once its hellos are found. */
  lemma {:induction false} FlowOpens(c: Cipher, macs: Macs, k: Connection, secrets: Secrets, outRecs: seq<Record>, inRecs: seq<Record>, d: DirKeys)
    requires GoodMacs(macs) && GoodConnection(k) && Lookup(secrets, k.cr) == k.master && d == KeysOf(macs, k)
    requires Search(outRecs, 1) == Search(k.client.hello, 1) && Search(inRecs, 2) == Search(k.server.hello, 2)
    ensures FlowResult(c, macs, outRecs, inRecs, secrets) ==
      Result(Fine, k.suite, Direction(c, d.cKey, d.cIV, outRecs), Direction(c, d.sKey, d.sIV, inRecs))
  {
    HellosFound(k);
    SuiteTable(k.suite, if WithAes128(k.suite) then Suite(16, Sha256, true, false) else Suite(32, Sha384, true, false));
  }

  lemma {:induction false} SideReads(c: Cipher, key: seq<Byte>, iv: seq<Byte>, s: Side, rest: seq<Byte>, want: Byte) returns (recs: seq<Record>)
    requires Inverts(c, key) && GoodSide(s) && !Complete(rest) && Search(s.hello, want).Some?
    ensures AllFramable(Sent(c, key, iv, s)) && recs == Records(Frames(Sent(c, key, iv, s)) + rest)
    ensures Search(recs, want) == Search(s.hello, want) && Direction(c, key, iv, recs) == AppData(s.data)
  {
    StreamRoundTrip(c, key, iv, s, rest);
    recs := Records(Frames(Sent(c, key, iv, s)) + rest);
    FramesRead(Sent(c, key, iv, s), rest);
    HelloFound(c, key, iv, s, [], want);
  }

  /** A flow that has been decrypted once stays decrypted as more of it is captured: the
      same suite, and more of the same application data. */
  lemma {:induction false} FlowGrows(c: Cipher, macs: Macs, outRecs: seq<Record>, inRecs: seq<Record>, moreOut: seq<Record>, moreIn: seq<Record>, secrets: Secrets)
    requires GoodMacs(macs) && FlowResult(c, macs, outRecs, inRecs, secrets).Ok()
    ensures var a, b := FlowResult(c, macs, outRecs, inRecs, secrets), FlowResult(c, macs, outRecs + moreOut, inRecs + moreIn, secrets);
      b.Ok() && b.cipherSuite == a.cipherSuite && a.outPlain <= b.outPlain && a.inPlain <= b.inPlain
  {
    SearchStable(outRecs, moreOut, 1);
    SearchStable(inRecs, moreIn, 2);
    var sh := Search(inRecs, 2).value;
    OpenedGrows(c, macs, outRecs, inRecs, moreOut, moreIn, SuiteOf(sh).value, LookupSuite(SuiteOf(sh).value).value,
                Lookup(secrets, RandomOf(Search(outRecs, 1).value)), RandomOf(Search(outRecs, 1).value), RandomOf(sh));
  }

  lemma {:induction false} OpenedGrows(c: Cipher, macs: Macs, outRecs: seq<Record>, inRecs: seq<Record>, moreOut: seq<Record>, moreIn: seq<Record>,
                    id: nat, suite: Suite, master: seq<Byte>, cr: seq<Byte>, sr: seq<Byte>)
    requires GoodMacs(macs)
    ensures var a := Opened(c, macs, outRecs, inRecs, id, suite, master, cr, sr);
      var b := Opened(c, macs, outRecs + moreOut, inRecs + moreIn, id, suite, master, cr, sr);
      a.outPlain <= b.outPlain && a.inPlain <= b.inPlain
  {
    var k := Keys(macs, suite, master, cr, sr);
    DecryptedGrows(c, k.cKey, k.cIV, outRecs, moreOut, false, 0);
    DecryptedGrows(c, k.sKey, k.sIV, inRecs, moreIn, false, 0);
  }

  lemma {:induction false} SuiteGivesUp(c: Cipher, macs: Macs, outRecs: seq<Record>, inRecs: seq<Record>, secrets: Secrets, id: nat, cr: seq<Byte>, sr: seq<Byte>)
    requires GoodMacs(macs)
    ensures var r := WithSuite(c, macs, outRecs, inRecs, secrets, id, cr, sr);
      && r.cipherSuite == id && r.note !in {NoClientHello, NoServerHello, BadServerHello} && (!r.Ok() ==> r.outPlain == [] && r.inPlain == [])
      && (r.note == Tls13 <==> id in {0x1301, 0x1302, 0x1303})
      && (r.note == UnknownSuite <==> !WithAes128(id) && !WithAes256(id) && id !in {0x1301, 0x1302, 0x1303})
      && (r.note == NoSecret <==> (WithAes128(id) || WithAes256(id)) && |Lookup(secrets, cr)| != 48)
      && (r.Ok() <==> (WithAes128(id) || WithAes256(id)) && |Lookup(secrets, cr)| == 48)
  {
  }

  /** What is said when a flow is not decrypted: the first thing that is missing, in the order
      hellos, suite, version, secret. */
  lemma {:induction false} GivesUp(c: Cipher, macs: Macs, outRecs: seq<Record>, inRecs: seq<Record>, secrets: Secrets)
    requires GoodMacs(macs)
    ensures var r, ch, sh := FlowResult(c, macs, outRecs, inRecs, secrets), Search(outRecs, 1), Search(inRecs, 2);
      && (r.note == NoClientHello <==> ch.None? || |ch.value| < 34)
      && (r.note != NoClientHello ==> (r.note == NoServerHello <==> sh.None? || |sh.value| < 35))
      && (r.note != NoClientHello && r.note != NoServerHello ==>
            && (r.note == BadServerHello <==> |sh.value| < 37 + sh.value[34] as int)
            && (r.note != BadServerHello ==>
                  var id := SuiteOf(sh.value).value;
                  && r.cipherSuite == id
                  && (r.note == Tls13 <==> id in {0x1301, 0x1302, 0x1303})
                  && (r.note == UnknownSuite <==> !WithAes128(id) && !WithAes256(id) && id !in {0x1301, 0x1302, 0x1303})
                  && (r.note == NoSecret <==> (WithAes128(id) || WithAes256(id)) && |Lookup(secrets, RandomOf(ch.value))| != 48)))
      && (!r.Ok() ==> r.outPlain == [] && r.inPlain == [])
  {
    var ch, sh := Search(outRecs, 1), Search(inRecs, 2);
    if ch.Some? && |ch.value| >= 34 && sh.Some? && |sh.value| >= 35 && SuiteOf(sh.value).Some? {
      SuiteGivesUp(c, macs, outRecs, inRecs, secrets, SuiteOf(sh.value).value, RandomOf(ch.value), RandomOf(sh.value));
    }
  }

  /** A flow is decrypted exactly when both hellos are there, the suite is one of the six
      TLS 1.2 GCM suites, and the key log has a 48-byte secret for the client random. */
  lemma {:induction false} DecodesExactly(c: Cipher, macs: Macs, outRecs: seq<Record>, inRecs: seq<Record>, secrets: Secrets)
    requires GoodMacs(macs)
    ensures FlowResult(c, macs, outRecs, inRecs, secrets).Ok() <==>
      var ch, sh := Search(outRecs, 1), Search(inRecs, 2);
      && ch.Some? && |ch.value| >= 34 && sh.Some? && |sh.value| >= 35 && SuiteOf(sh.value).Some?
      && SuiteOf(sh.value).value in {0xC02F, 0xC02B, 0x009C, 0xC030, 0xC02C, 0x009D}
      && |Lookup(secrets, RandomOf(ch.value))| == 48
  {
    var ch, sh := Search(outRecs, 1), Search(inRecs, 2);
    if ch.Some? && |ch.value| >= 34 && sh.Some? && |sh.value| >= 35 && SuiteOf(sh.value).Some? {
      SuiteGivesUp(c, macs, outRecs, inRecs, secrets, SuiteOf(sh.value).value, RandomOf(ch.value), RandomOf(sh.value));
    }
  }
}
