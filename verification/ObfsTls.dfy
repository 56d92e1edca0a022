/** simple-obfs "tls": the payload rides in a fake ClientHello's session ticket, then in
    application-data records (common/obfs/tls.go). */
module ObfsTls {
  import opened Octets
  import opened Wire

  const MAX_RECORD := 16384

  // ---- the ClientHello walker ----

  datatype Ticket =
    | Found(data: Bytes)
    | NotClientHello
    | TruncatedSuites
    | TruncatedCompression
    | NoExtensions
    | ExtensionOverrun
    | NoTicket

  /** Walk the extensions between `p` and `end` to the first session ticket. */
  function Walk(b: Bytes, p: nat, end: nat): Ticket
    requires end <= |b|
    decreases end - p
  {
    if p + 4 > end then NoTicket else
      var elen: nat := BE16(b[p + 2..p + 4]);
      if p + 4 + elen > end then ExtensionOverrun
      else if BE16(b[p..p + 2]) == 0x0023 then Found(b[p + 4..p + 4 + elen])
      else Walk(b, p + 4 + elen, end)
  }

  function Extract(b: Bytes): Ticket {
    if |b| < 39 || b[0] != 0x01 then NotClientHello else AtSuites(b, 39 + b[38] as int)
  }

  function AtSuites(b: Bytes, p: nat): Ticket {
    if p + 2 > |b| then TruncatedSuites else AtCompression(b, p + 2 + BE16(b[p..p + 2]) as int)
  }

  function AtCompression(b: Bytes, p: nat): Ticket {
    if p + 1 > |b| then TruncatedCompression else AtExtensions(b, p + 1 + b[p] as int)
  }

  function AtExtensions(b: Bytes, p: nat): Ticket {
    if p + 2 > |b| then NoExtensions else Walk(b, p + 2, Min(p + 2 + BE16(b[p..p + 2]) as int, |b|))
  }

  /** In bounds and terminating on every byte string. */
  method ExtractSessionTicket(b: Bytes) returns (t: Ticket)
    ensures t == Extract(b)
  {
    hide BE16;
    if |b| < 39 || b[0] != 0x01 {
      return NotClientHello;
    }
    var p: int := 38;
    p := p + 1 + b[p];
    if p + 2 > |b| {
      return TruncatedSuites;
    }
    p := p + 2 + BE16(b[p..p + 2]);
    if p + 1 > |b| {
      return TruncatedCompression;
    }
    p := p + 1 + b[p];
    if p + 2 > |b| {
      return NoExtensions;
    }
    var end: int := p + 2 + BE16(b[p..p + 2]);
    p := p + 2;
    if end > |b| {
      end := |b|;
    }
    while p + 4 <= end
      invariant 0 <= p && end <= |b|
      invariant Walk(b, p, end) == Extract(b)
      decreases end - p
    {
      var etype, elen: int := BE16(b[p..p + 2]), BE16(b[p + 2..p + 4]);
      p := p + 4;
      if p + elen > end {
        return ExtensionOverrun;
      }
      if etype == 0x0023 {
        return Found(b[p..p + elen]);
      }
      p := p + elen;
    }
    t := NoTicket;
  }

  /** An extension of a ClientHello. */
  datatype Ext = Ext(typ: u16, data: Bytes)

  predicate Encodable(es: seq<Ext>) { forall i :: 0 <= i < |es| ==> |es[i].data| < 0x1_0000 }

  function EncodeExts(es: seq<Ext>): Bytes
    requires Encodable(es)
  {
    if es == [] then []
    else PutBE16(es[0].typ) + PutBE16(|es[0].data|) + es[0].data + EncodeExts(es[1..])
  }

  /** A ClientHello handshake message (section 7.4.1.2 of RFC 5246), with or without an extension block. */
  datatype Hello = Hello(length: Bytes, version: Bytes, random: Bytes, sessionId: Bytes, suites: Bytes,
                         compression: Bytes, exts: Option<seq<Ext>>)
  {
    predicate WellFormed() {
      && |length| == 3 && |version| == 2 && |random| == 32 && |sessionId| < 256
      && |suites| < 0x1_0000 && |compression| < 256
      && (exts.Some? ==> Encodable(exts.value) && |EncodeExts(exts.value)| < 0x1_0000)
    }

    function Head(): Bytes
      requires WellFormed()
    {
      [0x01] + length + version + random + [|sessionId|] + sessionId + PutBE16(|suites|) + suites
      + [|compression|] + compression
    }

    function Encode(): Bytes
      requires WellFormed()
    {
      match exts
      case None => Head()
      case Some(es) => Head() + PutBE16(|EncodeExts(es)|) + EncodeExts(es)
    }

    /** What the walker should say about it. */
    function Ticket(): Ticket {
      match exts
      case None => NoExtensions
      case Some(es) => FirstTicket(es)
    }
  }

  /** The data of the first SessionTicket extension (section 3.2 of RFC 5077). */
  function FirstTicket(es: seq<Ext>): Ticket {
    if es == [] then NoTicket else if es[0].typ == 0x0023 then Found(es[0].data) else FirstTicket(es[1..])
  }

  lemma {:induction false} WalkFindsFirst(pre: Bytes, es: seq<Ext>)
    requires Encodable(es)
    ensures var b := pre + EncodeExts(es); Walk(b, |pre|, |b|) == FirstTicket(es)
    decreases |es|
  {
    hide BE16, PutBE16;
    if es != [] {
      var e, tail := es[0], EncodeExts(es[1..]);
      var one := PutBE16(e.typ) + PutBE16(|e.data|) + e.data;
      var b := (pre + one) + tail;
      assert pre + EncodeExts(es) == b;
      assert b[|pre|..|pre| + 2] == PutBE16(e.typ);
      assert b[|pre| + 2..|pre| + 4] == PutBE16(|e.data|);
      assert b[|pre| + 4..|pre| + 4 + |e.data|] == e.data;
      WalkStep(b, |pre|, |b|, e);
      WalkFindsFirst(pre + one, es[1..]);
    }
  }

  /** One extension further. */
  lemma WalkStep(b: Bytes, p: nat, end: nat, e: Ext)
    requires p + 4 + |e.data| <= end <= |b| && |e.data| < 0x1_0000
    requires b[p..p + 2] == PutBE16(e.typ) && b[p + 2..p + 4] == PutBE16(|e.data|)
    requires b[p + 4..p + 4 + |e.data|] == e.data
    ensures Walk(b, p, end) == if e.typ == 0x0023 then Found(e.data) else Walk(b, p + 4 + |e.data|, end)
  {
    hide BE16, PutBE16;
    BE16Put(e.typ);
    BE16Put(|e.data|);
  }

  /** What is found is the content of a SessionTicket extension that lies inside the message. */
  lemma {:induction false} FoundInWalk(b: Bytes, p: nat, end: nat)
    requires end <= |b| && Walk(b, p, end).Found?
    ensures exists at :: TicketAt(b, at, Walk(b, p, end).data)
    decreases end - p
  {
    BigEndian16(b[p..p + 2], 0);
    BigEndian16(b[p + 2..p + 4], 0);
    var n: nat := BE16(b[p + 2..p + 4]);
    if BE16(b[p..p + 2]) == 0x0023 {
      assert TicketAt(b, p, Walk(b, p, end).data);
    } else {
      FoundInWalk(b, p + 4 + n, end);
    }
  }

  predicate TicketAt(b: Bytes, at: int, data: Bytes) {
    && 0 <= at && at + 4 + |data| <= |b| && BigValue(b[at..at + 2]) == 0x0023
    && BigValue(b[at + 2..at + 4]) == |data| && b[at + 4..at + 4 + |data|] == data
  }

  lemma FoundIsTicket(b: Bytes)
    requires Extract(b).Found?
    ensures exists at :: TicketAt(b, at, Extract(b).data)
  {
    hide Walk, BE16, TicketAt;
    var p1 := 39 + b[38] as int;
    var p2 := p1 + 2 + BE16(b[p1..p1 + 2]) as int;
    var p3 := p2 + 1 + b[p2] as int;
    FoundInWalk(b, p3 + 2, Min(p3 + 2 + BE16(b[p3..p3 + 2]) as int, |b|));
  }

  /** A length field `x` and its content `y` in the middle of a message. */
  lemma Field(pre: Bytes, x: Bytes, y: Bytes, rest: Bytes)
    ensures (pre + x + y) + rest == pre + (x + y + rest)
    ensures (pre + (x + y + rest))[|pre|..|pre| + |x|] == x
  {
  }

  /** On every well-formed ClientHello the walker finds the first ticket, or that there is none, or that
      there are no extensions. */
  lemma ExtractFindsFirstTicket(h: Hello)
    requires h.WellFormed()
    ensures Extract(h.Encode()) == h.Ticket()
  {
    hide Walk, EncodeExts, FirstTicket, PutBE16, BE16, Extract, Hello.Head;
    var head := h.Head();
    match h.exts
    case None =>
      HeadLeadsToExtensions(h, []);
      assert head + [] == head;
    case Some(es) =>
      var exts := EncodeExts(es);
      var b := (head + PutBE16(|exts|)) + exts;
      HeadLeadsToExtensions(h, PutBE16(|exts|) + exts);
      assert head + (PutBE16(|exts|) + exts) == b;
      assert b[|head|..|head| + 2] == PutBE16(|exts|);
      BE16Put(|exts|);
      WalkFindsFirst(head + PutBE16(|exts|), es);
  }

  /** Whatever follows the fixed part, the walker looks for the extensions right behind it. */
  lemma HeadLeadsToExtensions(h: Hello, rest: Bytes)
    requires h.WellFormed()
    ensures Extract(h.Head() + rest) == AtExtensions(h.Head() + rest, |h.Head()|)
  {
    hide AtExtensions, Extract, PutBE16;
    var s1 := [0x01] + h.length + h.version + h.random;
    var s2 := s1 + [|h.sessionId|] + h.sessionId;
    var s3 := s2 + PutBE16(|h.suites|) + h.suites;
    var s4 := s3 + [|h.compression|] + h.compression;
    var t3 := [|h.compression|] + h.compression + rest;
    var t2 := PutBE16(|h.suites|) + h.suites + t3;
    assert h.Head() == s4;
    Field(s3, [|h.compression|], h.compression, rest);
    Field(s2, PutBE16(|h.suites|), h.suites, t3);
    Field(s1, [|h.sessionId|], h.sessionId, t2);
    ExtractSplit(s4 + rest, s1, s2, s3, s4, |h.sessionId|, |h.suites|, |h.compression|);
  }

  /** Where the walker looks for the extensions, given the lengths it meets on the way. */
  lemma ExtractSplit(b: Bytes, s1: Bytes, s2: Bytes, s3: Bytes, s4: Bytes, sid: byte, suites: u16, comp: byte)
    requires |s1| == 38 && |s2| == 39 + sid && |s3| == |s2| + 2 + suites && |s4| == |s3| + 1 + comp <= |b|
    requires b[0] == 0x01 && b[38..39] == [sid] && b[|s2|..|s2| + 2] == PutBE16(suites) && b[|s3|..|s3| + 1] == [comp]
    ensures Extract(b) == AtExtensions(b, |s4|)
  {
    hide AtExtensions, BE16, PutBE16;
    assert b[38] == b[38..39][0] == sid;
    BE16Put(suites);
    assert b[|s3|] == b[|s3|..|s3| + 1][0] == comp;
  }

  // ---- the stream from the client ----

  predicate AppHeader(b: Bytes) {
    |b| >= 5 && b[0] == 0x17 && b[1] == 0x03 && b[2] == 0x03 && BE16(b[3..5]) <= MAX_RECORD
  }

  /** The payload of the application-data records at the front of `b`. */
  function AppData(b: Bytes): Bytes
    decreases |b|
  {
    if !AppHeader(b) then [] else
      var n: nat := BE16(b[3..5]);
      if |b| < 5 + n then [] else b[5..5 + n] + AppData(b[5 + n..])
  }

  /** The stream ends at anything that is not a whole application-data record of version 3.3 with at most 2^14
      bytes (section 6.2.1 of RFC 5246); such a record contributes its payload. */
  lemma AppDataIs(b: Bytes)
    ensures AppData(b)
         == if |b| >= 5 && b[0] == 0x17 && b[1] == 3 && b[2] == 3 && BigValue(b[3..5]) <= 16384 && 5 + BigValue(b[3..5]) <= |b|
            then b[5..5 + BigValue(b[3..5])] + AppData(b[5 + BigValue(b[3..5])..]) else []
  {
    if |b| >= 5 { BigEndian16(b[3..5], 0); }
  }

  predicate HelloHeader(b: Bytes) { |b| >= 5 && b[0] == 0x16 && b[1] == 0x03 && BE16(b[3..5]) >= 42 }

  /** Whatever opens a connection: a whole handshake record of version 3.x with at least 42 bytes, whose message
      offers a ticket; otherwise there is nothing to be had. */
  lemma OpeningIs(b: Bytes)
    ensures var n := if |b| >= 5 then BigValue(b[3..5]) else 0;
            Opening(b)
            == (if |b| >= 5 && b[0] == 0x16 && b[1] == 3 && n >= 42 && 5 + n <= |b| && Extract(b[5..5 + n]).Found?
                then Extract(b[5..5 + n]).data + AppData(b[5 + n..]) else [])
  {
    hide Extract, AppData;
    if |b| >= 5 { BigEndian16(b[3..5], 0); }
  }

  /** The payload of a whole connection: the ticket, then the records. */
  function Opening(b: Bytes): Bytes {
    if !HelloHeader(b) || |b| < 5 + BE16(b[3..5]) as int then [] else
      match Extract(b[5..5 + BE16(b[3..5])])
      case Found(ticket) => ticket + AppData(b[5 + BE16(b[3..5])..])
      case _ => []
  }

  /** wrapAppData, and what the client sends after its hello. */
  function Record(data: Bytes): Bytes
    requires |data| <= MAX_RECORD
  {
    [0x17, 0x03, 0x03] + PutBE16(|data|) + data
  }

  function RecordAll(ws: seq<Bytes>): Bytes
    requires forall i :: 0 <= i < |ws| ==> |ws[i]| <= MAX_RECORD
  {
    if ws == [] then [] else Record(ws[0]) + RecordAll(ws[1..])
  }

  lemma {:induction false} RecordsRoundTrip(ws: seq<Bytes>)
    requires forall i :: 0 <= i < |ws| ==> |ws[i]| <= MAX_RECORD
    ensures AppData(RecordAll(ws)) == Flatten(ws)
  {
    hide AppData, Record;
    if ws == [] {
      NoAppData();
    } else {
      RecordFirst(ws[0], RecordAll(ws[1..]));
      RecordsRoundTrip(ws[1..]);
    }
  }

  lemma NoAppData()
    ensures AppData([]) == []
  {
  }

  lemma RecordFirst(data: Bytes, rest: Bytes)
    requires |data| <= MAX_RECORD
    ensures AppData(Record(data) + rest) == data + AppData(rest)
  {
    hide BE16, PutBE16;
    var b, n := Record(data) + rest, |data|;
    BE16Put(n);
    assert b[3..5] == PutBE16(n) && b[..3] == [0x17, 0x03, 0x03];
    assert b[0] == b[..3][0] && b[1] == b[..3][1] && b[2] == b[..3][2];
    assert b[5..5 + n] == data && b[5 + n..] == rest;
  }

  /** A connection opened by a ClientHello with a ticket and continued in records is, to the server, the
      ticket followed by all payloads. */
  lemma OpeningRoundTrip(h: Hello, ws: seq<Bytes>)
    requires h.WellFormed() && |h.Encode()| < 0x1_0000 && h.Ticket().Found?
    requires forall i :: 0 <= i < |ws| ==> |ws[i]| <= MAX_RECORD
    ensures Opening([0x16, 0x03, 0x01] + PutBE16(|h.Encode()|) + h.Encode() + RecordAll(ws))
         == h.Ticket().data + Flatten(ws)
  {
    hide Extract, AppData, RecordAll, FirstTicket;
    var msg := h.Encode();
    var b := [0x16, 0x03, 0x01] + PutBE16(|msg|) + msg + RecordAll(ws);
    ExtractFindsFirstTicket(h);
    HelloIsLong(h);
    assert b[3..5] == PutBE16(|msg|);
    assert b[5..5 + |msg|] == msg && b[5 + |msg|..] == RecordAll(ws);
    RecordsRoundTrip(ws);
  }

  lemma {:induction false} HelloIsLong(h: Hello)
    requires h.WellFormed() && h.Ticket().Found?
    ensures |h.Encode()| >= 48
  {
    assert |EncodeExts(h.exts.value)| >= 4;
    assert |h.Head()| >= 42;
  }

  // ---- the stream to the client ----

  /** The ServerHello record: the template with its time, random and session id filled in. */
  function ServerHello(time: Bytes, random: Bytes, sessionId: Bytes): (r: Bytes)
    requires |time| == 4 && |random| == 28 && |sessionId| == 32
    ensures |r| == 96
  {
    [0x16, 0x03, 0x01, 0x00, 0x5b, 0x02, 0x00, 0x00, 0x57, 0x03, 0x03] + time + random + [0x20] + sessionId
    + [0xcc, 0xa8, 0x00, 0x00, 0x00, 0xff, 0x01, 0x00, 0x01, 0x00, 0x00, 0x17, 0x00, 0x00,
       0x00, 0x0b, 0x00, 0x02, 0x01, 0x00]
  }

  /** It is one record with one handshake message, both lengths right, with the time, the random bytes and
      the session id in their places (section 7.4.1.3 of RFC 5246). */
  lemma ServerHelloLayout(time: Bytes, random: Bytes, sessionId: Bytes)
    requires |time| == 4 && |random| == 28 && |sessionId| == 32
    ensures var r := ServerHello(time, random, sessionId);
            && r[0] == 0x16 && BigValue(r[3..5]) == |r| - 5 && r[5] == 0x02 && r[6] == 0 && BigValue(r[7..9]) == |r| - 9
            && r[11..15] == time && r[15..43] == random && r[43] == 32 && r[44..76] == sessionId
  {
    var r := ServerHello(time, random, sessionId);
    assert r[3..5] == [0x00, 0x5b] && r[7..9] == [0x00, 0x57];
    TwoBig(r[3..5]);
    TwoBig(r[7..9]);
  }

  /** The first response: ServerHello, ChangeCipherSpec, and the first chunk in a handshake record. */
  function FirstResponse(hello: Bytes, data: Bytes): Bytes
    requires |data| <= MAX_RECORD
  {
    hello + [0x14, 0x03, 0x03, 0x00, 0x01, 0x01] + [0x16, 0x03, 0x03] + PutBE16(|data|) + data
  }

  /** What a Write puts on the wire, in chunks of at most one record. */
  function Emit(first: bool, hello: Bytes, data: Bytes): Bytes
    decreases |data|
  {
    if data == [] then [] else
      var n := Min(|data|, MAX_RECORD);
      (if first then FirstResponse(hello, data[..n]) else Record(data[..n])) + Emit(false, hello, data[n..])
  }

  function EmitAll(first: bool, hello: Bytes, ws: seq<Bytes>): Bytes
    decreases |ws|
  {
    if ws == [] then [] else Emit(first, hello, ws[0]) + EmitAll(first && ws[0] == [], hello, ws[1..])
  }

  /** The client's reader: skip 105 bytes of the first record and 3 of each later one, then length and
      payload. */
  function ClientReads(first: bool, b: Bytes): Bytes
    decreases |b|
  {
    var skip := if first then 105 else 3;
    if |b| < skip + 2 then [] else
      var n: nat := BE16(b[skip..skip + 2]);
      if |b| < skip + 2 + n then [] else b[skip + 2..skip + 2 + n] + ClientReads(false, b[skip + 2 + n..])
  }

  /** The first record of an emission, followed by anything. */
  function Packet(first: bool, hello: Bytes, data: Bytes): Bytes
    requires |data| <= MAX_RECORD
  {
    if first then FirstResponse(hello, data) else Record(data)
  }

  lemma PacketReads(first: bool, hello: Bytes, data: Bytes, rest: Bytes)
    requires |hello| == 96 && |data| <= MAX_RECORD
    ensures ClientReads(first, Packet(first, hello, data) + rest) == data + ClientReads(false, rest)
  {
    hide BE16, PutBE16, ClientReads;
    var head := if first then hello + [0x14, 0x03, 0x03, 0x00, 0x01, 0x01] + [0x16, 0x03, 0x03] else [0x17, 0x03, 0x03];
    assert Packet(first, hello, data) + rest == head + (PutBE16(|data|) + data + rest);
    BehindHead(first, head, data, rest);
  }

  lemma BehindHead(first: bool, head: Bytes, data: Bytes, rest: Bytes)
    requires |head| == (if first then 105 else 3) && |data| <= MAX_RECORD
    ensures ClientReads(first, head + (PutBE16(|data|) + data + rest)) == data + ClientReads(false, rest)
  {
    hide BE16, PutBE16;
    var b, n, skip := head + (PutBE16(|data|) + data + rest), |data|, |head|;
    BE16Put(n);
    assert b[skip..skip + 2] == PutBE16(n);
    assert b[skip + 2..skip + 2 + n] == data;
    assert b[skip + 2 + n..] == rest;
  }

  lemma EmitUnfold(first: bool, hello: Bytes, data: Bytes)
    ensures data == [] ==> Emit(first, hello, data) == []
    ensures data != [] ==>
              var n := Min(|data|, MAX_RECORD);
              Emit(first, hello, data) == Packet(first, hello, data[..n]) + Emit(false, hello, data[n..])
  {
    hide FirstResponse, Record;
  }

  /** Data goes out in records of 16384 bytes, the first response in front of them 102 bytes longer. */
  lemma {:induction false} EmitSize(first: bool, hello: Bytes, data: Bytes)
    requires |hello| == 96
    ensures |Emit(first, hello, data)|
         == |data| + 5 * Chunks(|data|, 16384) + (if first && data != [] then 102 else 0)
    decreases |data|
  {
    hide Chunks;
    if data == [] {
      NoChunks(16384);
    } else {
      var n := Min(|data|, 16384);
      ChunkLess(|data|, 16384);
      EmitSize(false, hello, data[n..]);
      if n == |data| { NoChunks(16384); }
    }
  }

  lemma {:induction false} EmitRoundTrip(first: bool, hello: Bytes, data: Bytes, rest: Bytes)
    requires |hello| == 96
    ensures ClientReads(first, Emit(first, hello, data) + rest)
         == data + ClientReads(first && data == [], rest)
    decreases |data|
  {
    hide Emit, Packet, ClientReads;
    EmitUnfold(first, hello, data);
    if data == [] {
      assert Emit(first, hello, data) + rest == rest;
    } else {
      var n := Min(|data|, MAX_RECORD);
      var p, tail := Packet(first, hello, data[..n]), Emit(false, hello, data[n..]);
      assert (p + tail) + rest == p + (tail + rest);
      PacketReads(first, hello, data[..n], tail + rest);
      EmitRoundTrip(false, hello, data[n..], rest);
      assert data == data[..n] + data[n..];
    }
  }

  /** For any writes the client recovers exactly the written bytes. */
  lemma {:induction false} ServerStreamRoundTrip(first: bool, hello: Bytes, ws: seq<Bytes>)
    requires |hello| == 96
    ensures ClientReads(first, EmitAll(first, hello, ws)) == Flatten(ws)
    decreases |ws|
  {
    hide Emit;
    if ws != [] {
      EmitRoundTrip(first, hello, ws[0], EmitAll(first && ws[0] == [], hello, ws[1..]));
      ServerStreamRoundTrip(first && ws[0] == [], hello, ws[1..]);
    }
  }

  /** A run of writes seen from its end. */
  lemma {:induction false} EmitAllSnoc(first: bool, hello: Bytes, ws: seq<Bytes>, w: Bytes)
    ensures EmitAll(first, hello, ws + [w]) == EmitAll(first, hello, ws) + Emit(first && Flatten(ws) == [], hello, w)
    decreases |ws|
  {
    hide Emit;
    if ws == [] {
      assert ws + [w] == [w] && EmitAll(first && w == [], hello, []) == [];
      assert Emit(first, hello, w) + [] == [] + Emit(first, hello, w);
    } else {
      var next := first && ws[0] == [];
      assert (ws + [w])[1..] == ws[1..] + [w];
      EmitAllSnoc(next, hello, ws[1..], w);
      assert Flatten(ws) == [] <==> ws[0] == [] && Flatten(ws[1..]) == [];
      var e, rest, last := Emit(first, hello, ws[0]), EmitAll(next, hello, ws[1..]), Emit(first && Flatten(ws) == [], hello, w);
      assert e + (rest + last) == (e + rest) + last;
    }
  }

  /** What one end has written is what the client's reader recovers from the wire. */
  lemma WrittenIsRecovered(c: Conn, base: Bytes, ws: seq<Bytes>)
    requires c.Valid() && c.Wrote(base, ws)
    ensures base <= c.sock.sent && ClientReads(true, c.sock.sent[|base|..]) == Flatten(ws)
  {
    hide EmitAll, ClientReads;
    assert (base + EmitAll(true, c.hello, ws))[|base|..] == EmitAll(true, c.hello, ws);
    ServerStreamRoundTrip(true, c.hello, ws);
  }

  // ---- the connection ----

  class Conn {
    const sock: Socket
    const hello: Bytes           // the ServerHello of this connection
    var handshakeDone: bool
    var plain: Bytes
    var plainOff: nat
    var firstResponse: bool
    ghost var failed: bool       // a read has failed: the connection is of no further use

    constructor (sock: Socket, time: Bytes, random: Bytes, sessionId: Bytes)
      requires |time| == 4 && |random| == 28 && |sessionId| == 32
      ensures Valid() && this.sock == sock && !handshakeDone && plain == [] && firstResponse && !failed
    {
      this.sock, hello := sock, ServerHello(time, random, sessionId);
      handshakeDone, plain, plainOff, firstResponse, failed := false, [], 0, true, false;
    }

    ghost predicate Valid()
      reads this
    {
      plainOff <= |plain| && |hello| == 96 && (!handshakeDone ==> plain == [])
    }

    /** The payload that the reader will still get. */
    ghost function Pending(): Bytes
      requires Valid()
      reads this, sock
    {
      plain[plainOff..] + (if handshakeDone then AppData(sock.Coming()) else Opening(sock.Coming()))
    }

    /** Since the wire held `base`, this end has made exactly these writes. */
    ghost predicate Wrote(base: Bytes, ws: seq<Bytes>)
      reads this, sock
    {
      sock.sent == base + EmitAll(true, hello, ws) && firstResponse == (Flatten(ws) == [])
    }

    method ReadClientHello() returns (ok: bool)
      requires Valid() && !handshakeDone && !failed
      modifies this`plain, this`plainOff, this`failed, sock`incoming
      ensures plainOff == 0 && |hello| == 96
      ensures ok ==> !failed && plain + AppData(sock.Coming()) == old(Opening(sock.Coming()))
      ensures !ok ==> plain == [] && old(Opening(sock.Coming())) == []
    {
      hide Extract, AppData;
      ghost var all := sock.Coming();
      failed, plainOff := true, 0;
      var hdr;
      hdr, ok := sock.ReadFull(5);
      if !ok { return; }
      assert all[..5] == hdr && all[3..5] == hdr[3..5];
      if hdr[0] != 0x16 || hdr[1] != 0x03 { return false; }
      var recLen: nat := BE16(hdr[3..5]);
      if recLen < 42 { return false; }
      ghost var mid := sock.Coming();
      var body;
      body, ok := sock.ReadFull(recLen);
      if !ok { return; }
      assert all[5..5 + recLen] == body && all[5 + recLen..] == sock.Coming();
      var payload := ExtractSessionTicket(body);
      if !payload.Found? { return false; }
      plain := payload.data;
      failed := false;
    }

    method ReadAppData() returns (data: Bytes, ok: bool)
      requires !failed
      modifies this`failed, sock`incoming
      ensures ok ==> !failed && data + AppData(sock.Coming()) == old(AppData(sock.Coming()))
      ensures ok ==> |sock.Coming()| < |old(sock.Coming())|
      ensures !ok ==> old(AppData(sock.Coming())) == []
    {
      ghost var all := sock.Coming();
      failed := true;
      var hdr;
      data := [];
      hdr, ok := sock.ReadFull(5);
      if !ok { return; }
      assert all[..5] == hdr && all[3..5] == hdr[3..5];
      if hdr[0] != 0x17 || hdr[1] != 0x03 || hdr[2] != 0x03 { return [], false; }
      var n: nat := BE16(hdr[3..5]);
      if n > MAX_RECORD { return [], false; }
      ghost var mid := sock.Coming();
      if n > 0 {
        data, ok := sock.ReadFull(n);
        if !ok { return; }
      }
      assert mid == data + sock.Coming();
      assert all[5..5 + n] == data && all[5 + n..] == sock.Coming();
      failed := false;
    }

    /** The ticket, then all record payloads, for any buffer sizes; failure only when nothing is left. */
    method Read(n: nat) returns (data: Bytes, ok: bool)
      requires Valid() && !failed
      modifies this`plain, this`plainOff, this`failed, this`handshakeDone, sock`incoming
      ensures Valid() && |data| <= n
      ensures ok ==> !failed && data + Pending() == old(Pending()) && (n > 0 ==> data != [])
      ensures !ok ==> data == [] && old(Pending()) == []
    {
      hide AppData, Opening;
      ghost var all := Pending();
      while plainOff >= |plain|
        invariant Valid() && !failed && Pending() == all
        decreases plainOff >= |plain|, !handshakeDone, |sock.Coming()|
      {
        if !handshakeDone {
          ok := ReadClientHello();
          if !ok {
            return [], false;
          }
          handshakeDone := true;
        } else {
          var d;
          d, ok := ReadAppData();
          if !ok {
            return [], false;
          }
          plain, plainOff := d, 0;
        }
      }
      var k := Min(n, |plain| - plainOff);
      data := plain[plainOff..plainOff + k];
      plainOff := plainOff + k;
      assert plain[plainOff - k..] == data + plain[plainOff..];
      ok := true;
    }

    method Write(p: Bytes)
      requires Valid()
      modifies this`firstResponse, sock`sent
      ensures Valid() && sock.sent == old(sock.sent) + Emit(old(firstResponse), hello, p)
      ensures firstResponse == (old(firstResponse) && p == [])
      ensures forall base, ws :: old(Wrote(base, ws)) ==> Wrote(base, ws + [p])
    {
      hide Emit, EmitAll, FirstResponse, Record;
      var rest := p;
      ghost var before := sock.sent;
      while |rest| > 0
        invariant sock.sent + Emit(firstResponse, hello, rest) == before + Emit(old(firstResponse), hello, p)
        invariant firstResponse == (old(firstResponse) && rest == p)
        invariant |rest| <= |p|
        decreases |rest|
      {
        var n := |rest|;
        if n > MAX_RECORD { n := MAX_RECORD; }
        EmitUnfold(firstResponse, hello, rest);
        ghost var was, tail := sock.sent, Emit(false, hello, rest[n..]);
        var out;
        if firstResponse {
          out := FirstResponse(hello, rest[..n]);
          firstResponse := false;
        } else {
          out := Record(rest[..n]);
        }
        sock.Write(out);
        assert was + (out + tail) == (was + out) + tail;
        rest := rest[n..];
      }
      EmitUnfold(firstResponse, hello, rest);
      assert sock.sent + [] == sock.sent;
      forall base, ws | old(Wrote(base, ws)) ensures Wrote(base, ws + [p]) {
        EmitAllSnoc(true, hello, ws, p);
        FlattenSnoc(ws, p);
        var sent, w := EmitAll(true, hello, ws), Emit(old(firstResponse), hello, p);
        assert (base + sent) + w == base + (sent + w);
      }
    }
  }
}
