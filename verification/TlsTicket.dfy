/** tls1.2_ticket_auth, server side: a fake handshake, then the stream inside TLS records
    (common/ssr/obfs.go). */
module TlsTicket {
  import opened Octets
  import opened Incremental
  import opened Wire

  // ---- records ----

  function RecordSize(b: Bytes): nat
    requires |b| >= 5
  {
    BE16(b[3..5])
  }

  /** Only application_data carries payload; a record of any other type carries none. */
  function Carried(b: Bytes): Bytes
    requires |b| >= 5 && |b| >= 5 + RecordSize(b)
  {
    if b[0] == 0x17 then b[5..5 + RecordSize(b)] else []
  }

  function Records(): Parser<(), ()> {
    (s, b) =>
      if |b| < 5 || |b| < 5 + RecordSize(b) then More(()) else Frame((), 5 + RecordSize(b), Carried(b))
  }

  lemma RecordsStable()
    ensures Stable(Records())
  {
    forall s, b, c ensures StableAt(Records(), s, b, c) {
      if |b| >= 5 {
        assert (b + c)[3..5] == b[3..5];
        if |b| >= 5 + RecordSize(b) {
          assert (b + c)[5..5 + RecordSize(b)] == b[5..5 + RecordSize(b)];
        }
      }
    }
  }

  /** The tunnelled stream inside a sequence of record bytes. */
  function Payload(raw: Bytes): Bytes { Run(Records(), (), raw).out }

  /** The payload of a stream whose front is a complete record. */
  lemma PayloadStep(b: Bytes)
    requires |b| >= 5 && |b| >= 5 + RecordSize(b)
    ensures Payload(b) == Carried(b) + Payload(b[5 + RecordSize(b)..])
  {
    assert Records()((), b) == Frame((), 5 + RecordSize(b), Carried(b));
  }

  /** Consuming the record at the front of what has arrived so far. */
  lemma ConsumeRecord(raw: Bytes, coming: Bytes)
    requires |raw| >= 5 && |raw| >= 5 + RecordSize(raw)
    ensures Payload(raw + coming) == Carried(raw) + Payload(raw[5 + RecordSize(raw)..] + coming)
  {
    var all, n := raw + coming, RecordSize(raw);
    assert all[3..5] == raw[3..5];
    assert all[5..5 + n] == raw[5..5 + n];
    assert all[5 + n..] == raw[5 + n..] + coming;
    PayloadStep(all);
  }

  /** No complete record at the front. */
  predicate Idle(raw: Bytes) { |raw| < 5 || |raw| < 5 + RecordSize(raw) }

  predicate KnownType(typ: byte) { typ == 0x17 || typ == 0x14 || typ == 0x16 }

  /** What draining makes of the bytes that have arrived: the payload of the complete records up to the
      first of unknown type, the bytes behind it or behind the last, and whether there was one. */
  function Drained(raw: Bytes): (Bytes, Bytes, bool)
    decreases |raw|
  {
    if Idle(raw) then ([], raw, false) else
      var rest := raw[5 + RecordSize(raw)..];
      if !KnownType(raw[0]) then ([], rest, true) else
        var (payload, left, bad) := Drained(rest);
        (Carried(raw) + payload, left, bad)
  }

  lemma DrainedStep(raw: Bytes)
    requires !Idle(raw)
    ensures var rest := raw[5 + RecordSize(raw)..];
            && (!KnownType(raw[0]) ==> Carried(raw) == [] && Drained(raw) == ([], rest, true))
            && (KnownType(raw[0]) ==>
                  Drained(raw) == (Carried(raw) + Drained(rest).0, Drained(rest).1, Drained(rest).2))
  {
    hide RecordSize;
  }

  lemma IdleStays(raw: Bytes)
    requires Idle(raw)
    ensures Drained(raw) == ([], raw, false)
  {
  }

  lemma Regroup(a: Bytes, b: Bytes, c: Bytes)
    ensures a + (b + c) == (a + b) + c
  {
  }

  /** Draining loses no payload, whatever is still to come. */
  lemma {:induction false} DrainedPayload(raw: Bytes, coming: Bytes)
    ensures var (payload, left, bad) := Drained(raw);
            && Payload(raw + coming) == payload + Payload(left + coming)
            && (!bad ==> Idle(left)) && (Idle(raw) ==> payload == [] && left == raw && !bad)
    decreases |raw|
  {
    hide Payload, RecordSize, Drained, Carried;
    if Idle(raw) {
      IdleStays(raw);
    } else {
      var rest := raw[5 + RecordSize(raw)..];
      ConsumeRecord(raw, coming);
      DrainedStep(raw);
      if KnownType(raw[0]) {
        DrainedPayload(rest, coming);
        Regroup(Carried(raw), Drained(rest).0, Payload(Drained(rest).1 + coming));
      }
    }
  }

  /** No record of unknown type is complete. */
  predicate Clean(raw: Bytes) { !Drained(raw).2 }

  function Record(typ: byte, data: Bytes): (r: Bytes)
    requires |data| < 0x1_0000
    ensures |r| == 5 + |data|
  {
    [typ, 0x03, 0x03] + PutBE16(|data|) + data
  }

  lemma RecordReads(typ: byte, data: Bytes, rest: Bytes)
    requires |data| < 0x1_0000
    ensures Payload(Record(typ, data) + rest) == (if typ == 0x17 then data else []) + Payload(rest)
  {
    hide BE16, PutBE16, Payload;
    var all, n := Record(typ, data) + rest, |data|;
    BE16Put(n);
    assert all[3..5] == PutBE16(n) && all[0] == typ;
    assert all[5..5 + n] == data && all[5 + n..] == rest;
    PayloadStep(all);
  }

  /** A record as section 6.2.1 of RFC 5246 has it: type, version 3.3, the length with its high byte first, and
      the data; the reader takes the length from the same place. */
  lemma RecordLayout(typ: byte, data: Bytes, b: Bytes)
    requires |data| < 0x1_0000 && |b| >= 5
    ensures var r := Record(typ, data);
            r[0] == typ && r[1..3] == [3, 3] && BigValue(r[3..5]) == |data| && r[5..] == data
    ensures RecordSize(b) == BigValue(b[3..5])
  {
    var r := Record(typ, data);
    assert r[3..5] == PutBE16(|data|);
    BigEndian16(b[3..5], |data|);
  }

  /** What draining makes of a whole record: application data is payload, ChangeCipherSpec and handshake
      records are skipped, and a record of any other type stops it. */
  lemma DrainedRecord(typ: byte, data: Bytes, rest: Bytes)
    requires |data| < 0x1_0000
    ensures var (payload, left, bad) := Drained(rest);
            Drained(Record(typ, data) + rest)
            == (if typ == 0x17 then (data + payload, left, bad)
                else if typ == 0x14 || typ == 0x16 then (payload, left, bad)
                else ([], rest, true))
  {
    hide Drained, BE16, PutBE16;
    var all, n := Record(typ, data) + rest, |data|;
    BE16Put(n);
    assert all[3..5] == PutBE16(n) && all[0] == typ;
    assert all[5..5 + n] == data && all[5 + n..] == rest;
    DrainedStep(all);
    assert [] + Drained(rest).0 == Drained(rest).0;
  }

  /** What Write puts on the wire. */
  function Wrap(data: Bytes): Bytes
    decreases |data|
  {
    if data == [] then []
    else Record(0x17, data[..Min(|data|, 16384)]) + Wrap(data[Min(|data|, 16384)..])
  }

  /** Unwrapping inverts wrapping, wherever the records stand in the stream. */
  lemma {:induction false} WrapRoundTrip(data: Bytes, rest: Bytes)
    ensures Payload(Wrap(data) + rest) == data + Payload(rest)
    decreases |data|
  {
    hide Payload, Record;
    if data == [] {
      assert Wrap(data) + rest == rest;
    } else {
      var n := Min(|data|, 16384);
      var r, tail := Record(0x17, data[..n]), Wrap(data[n..]);
      assert Wrap(data) + rest == r + (tail + rest);
      RecordReads(0x17, data[..n], tail + rest);
      WrapRoundTrip(data[n..], rest);
      assert data == data[..n] + data[n..];
    }
  }

  /** Data is cut into records of 16384 bytes. */
  lemma {:induction false} WrapSize(data: Bytes)
    ensures |Wrap(data)| == |data| + 5 * Chunks(|data|, 16384)
    decreases |data|
  {
    hide Record, Chunks;
    if data == [] {
      NoChunks(16384);
    } else {
      var n := Min(|data|, 16384);
      ChunkLess(|data|, 16384);
      WrapSize(data[n..]);
      if n == |data| { NoChunks(16384); }
    }
  }

  // ---- handshake ----

  datatype Hello = Incomplete | Malformed | Ready(clientID: Bytes, used: nat)

  /** The client's opening record: its 32-byte session id is the client id. */
  function ParseHello(b: Bytes): Hello {
    if |b| < 5 then Incomplete
    else if b[0] != 0x16 then Malformed
    else if |b| < 5 + RecordSize(b) then Incomplete
    else if RecordSize(b) < 71 || b[43] != 0x20 then Malformed
    else Ready(b[44..76], 5 + RecordSize(b))
  }

  lemma HelloStable(b: Bytes, c: Bytes)
    ensures !ParseHello(b).Incomplete? ==> ParseHello(b + c) == ParseHello(b)
  {
    if |b| >= 5 {
      assert (b + c)[3..5] == b[3..5];
      if |b| >= 76 {
        assert (b + c)[44..76] == b[44..76];
      }
    }
  }

  /** A ClientHello record: handshake header, version and random, a session id of 32 bytes, and the rest. */
  function ClientHello(version: Bytes, front: Bytes, sessionId: Bytes, more: Bytes): Bytes
    requires |version| == 2 && |front| == 38 && |sessionId| == 32 && 71 + |more| < 0x1_0000
  {
    [0x16] + version + PutBE16(71 + |more|) + front + [0x20] + sessionId + more
  }

  /** Such a record, and nothing else, is ready to be answered: its session id is the client id, and it is
      consumed whole. */
  lemma HelloIff(b: Bytes, id: Bytes, used: nat)
    ensures ParseHello(b) == Ready(id, used)
       <==> (exists version, front, more ::
              && |version| == 2 && |front| == 38 && |id| == 32 && 71 + |more| < 0x1_0000
              && used == 76 + |more| && ClientHello(version, front, id, more) <= b)
  {
    hide ParseHello, ClientHello;
    if ParseHello(b) == Ready(id, used) { ReadyIsHello(b, id, used); }
    if version, front, more :|
      && |version| == 2 && |front| == 38 && |id| == 32 && 71 + |more| < 0x1_0000
      && used == 76 + |more| && ClientHello(version, front, id, more) <= b
    {
      HelloIsReady(b, version, front, id, more);
    }
  }

  lemma ReadyIsHello(b: Bytes, id: Bytes, used: nat)
    requires ParseHello(b) == Ready(id, used)
    ensures 76 <= used <= |b| && used < 5 + 0x1_0000 && |id| == 32
    ensures ClientHello(b[1..3], b[5..43], id, b[76..used]) <= b
  {
    hide BE16, PutBE16;
    BE16Back(b[3..5]);
    assert b[..used] == b[..1] + b[1..3] + b[3..5] + b[5..43] + b[43..44] + b[44..76] + b[76..used];
    assert b[..1] == [0x16] && b[43..44] == [0x20];
    assert ClientHello(b[1..3], b[5..43], id, b[76..used]) == b[..used];
  }

  lemma HelloIsReady(b: Bytes, version: Bytes, front: Bytes, id: Bytes, more: Bytes)
    requires |version| == 2 && |front| == 38 && |id| == 32 && 71 + |more| < 0x1_0000
    requires ClientHello(version, front, id, more) <= b
    ensures ParseHello(b) == Ready(id, 76 + |more|)
  {
    hide BE16, PutBE16;
    var w := ClientHello(version, front, id, more);
    BE16Put(71 + |more|);
    assert w[3..5] == PutBE16(71 + |more|) && w[0] == 0x16 && w[43] == 0x20 && w[44..76] == id;
    assert b[..|w|] == w;
    assert b[3..5] == w[3..5] && b[44..76] == w[44..76] && b[0] == w[0] && b[43] == w[43];
  }

  lemma BE16Back(b: Bytes)
    requires |b| == 2
    ensures PutBE16(BE16(b)) == b
  {
  }

  /** The whole reply: ServerHello, ChangeCipherSpec and Finished, authenticated by `mac`, a ten-byte
      HMAC keyed with the node key and the client id.  `rnd` is the time and random bytes, `fin` the
      random part of Finished. */
  function ServerHello(mac: (Bytes, Bytes) -> Bytes, clientID: Bytes, rnd: Bytes, fin: Bytes): Bytes
    requires |mac(clientID, rnd)| == 10 && |clientID| == 32 && |rnd| == 22 && |fin| == 22
  {
    var body := [0x03, 0x03] + rnd + mac(clientID, rnd) + [0x20] + clientID
              + [0xc0, 0x2f, 0x00, 0x00, 0x05, 0xff, 0x01, 0x00, 0x01, 0x00];
    var hs := [0x02, 0x00] + PutBE16(|body|) + body;
    var out := [0x16, 0x03, 0x03] + PutBE16(|hs|) + hs
             + [0x14, 0x03, 0x03, 0x00, 0x01, 0x01]
             + [0x16, 0x03, 0x03, 0x00, 0x20] + fin;
    out + mac(clientID, out)
  }

  /** The reply is three whole records that carry no payload, so a record reader that meets it in
      front of the stream sees only the stream. */
  lemma ServerHelloInvisible(mac: (Bytes, Bytes) -> Bytes, clientID: Bytes, rnd: Bytes, fin: Bytes, rest: Bytes)
    requires |clientID| == 32 && |rnd| == 22 && |fin| == 22
    requires forall id, m :: |mac(id, m)| == 10
    ensures Payload(ServerHello(mac, clientID, rnd, fin) + rest) == Payload(rest)
  {
    hide Payload;
    var hs, fm := ServerHelloRecords(mac, clientID, rnd, fin);
    var r1, r2, r3 := Record(0x16, hs), Record(0x14, [0x01]), Record(0x16, fm);
    hide Record;
    assert (r1 + r2 + r3) + rest == r1 + (r2 + (r3 + rest));
    RecordReads(0x16, hs, r2 + (r3 + rest));
    RecordReads(0x14, [0x01], r3 + rest);
    RecordReads(0x16, fm, rest);
  }

  /** The reply passes the client's checks: the last ten bytes of the server random are the MAC of the others,
      the session id is the client's own, and the last ten bytes of all are the MAC of everything before. */
  lemma ReplyVerifies(mac: (Bytes, Bytes) -> Bytes, clientID: Bytes, rnd: Bytes, fin: Bytes)
    requires |clientID| == 32 && |rnd| == 22 && |fin| == 22
    requires forall id, m :: |mac(id, m)| == 10
    ensures var w := ServerHello(mac, clientID, rnd, fin);
            && |w| == 129 && w[11..33] == rnd && w[33..43] == mac(clientID, rnd)
            && w[43] == 0x20 && w[44..76] == clientID && w[119..] == mac(clientID, w[..119])
  {
    var w := ServerHello(mac, clientID, rnd, fin);
    assert |w| == 129 && w[11..33] == rnd && w[33..43] == mac(clientID, rnd);
    var body := [0x03, 0x03] + rnd + mac(clientID, rnd) + [0x20] + clientID
              + [0xc0, 0x2f, 0x00, 0x00, 0x05, 0xff, 0x01, 0x00, 0x01, 0x00];
    var hs := [0x02, 0x00] + PutBE16(|body|) + body;
    var out := [0x16, 0x03, 0x03] + PutBE16(|hs|) + hs
             + [0x14, 0x03, 0x03, 0x00, 0x01, 0x01]
             + [0x16, 0x03, 0x03, 0x00, 0x20] + fin;
    assert |out| == 119 && w[..119] == out;
  }

  lemma ServerHelloRecords(mac: (Bytes, Bytes) -> Bytes, clientID: Bytes, rnd: Bytes, fin: Bytes)
    returns (hs: Bytes, fm: Bytes)
    requires |clientID| == 32 && |rnd| == 22 && |fin| == 22
    requires forall id, m :: |mac(id, m)| == 10
    ensures |hs| == 81 && |fm| == 32
    ensures ServerHello(mac, clientID, rnd, fin) == Record(0x16, hs) + Record(0x14, [0x01]) + Record(0x16, fm)
  {
    var body := [0x03, 0x03] + rnd + mac(clientID, rnd) + [0x20] + clientID
              + [0xc0, 0x2f, 0x00, 0x00, 0x05, 0xff, 0x01, 0x00, 0x01, 0x00];
    hs := [0x02, 0x00] + PutBE16(|body|) + body;
    var out := [0x16, 0x03, 0x03] + PutBE16(|hs|) + hs
             + [0x14, 0x03, 0x03, 0x00, 0x01, 0x01]
             + [0x16, 0x03, 0x03, 0x00, 0x20] + fin;
    fm := fin + mac(clientID, out);
    assert Record(0x14, [0x01]) == [0x14, 0x03, 0x03, 0x00, 0x01, 0x01];
    assert Record(0x16, fm) == [0x16, 0x03, 0x03, 0x00, 0x20] + fin + mac(clientID, out);
  }

  // ---- reading, as a function of what arrives ----

  /** The reading side of a connection: handshake done, undecoded and decoded bytes, fragments to come. */
  datatype Link = Link(hello: bool, raw: Bytes, dec: Bytes, incoming: seq<Bytes>)

  /** More bytes have arrived; true if the handshake fails on them. */
  function Arrive(l: Link, buf: Bytes, incoming: seq<Bytes>): (Link, bool) {
    var raw := l.raw + buf;
    var l' := l.(raw := raw, incoming := incoming);
    if l.hello then (l', false) else
      match ParseHello(raw)
      case Malformed => (l', true)
      case Incomplete => (l', false)
      case Ready(_, used) => (l'.(hello := true, raw := raw[used..]), false)
  }

  function Take(n: nat, l: Link): (r: (Bytes, Status, Link))
    requires l.dec != []
    ensures r.1 == Ok && (n > 0 ==> 0 < |r.0| <= n)
  {
    var k := Min(n, |l.dec|);
    (l.dec[..k], Ok, l.(dec := l.dec[k..]))
  }

  /** After the handshake, everything complete is drained; true if a record of unknown type is met. */
  function DrainLink(l: Link): (r: (Link, bool))
    ensures r.0.incoming == l.incoming
  {
    if !l.hello then (l, false) else
      var (payload, left, bad) := Drained(l.raw);
      (l.(raw := left, dec := l.dec + payload), bad)
  }

  lemma NotDrained(l: Link)
    requires !l.hello
    ensures DrainLink(l) == (l, false)
  {
  }

  /** One Read with a buffer of `n` bytes. */
  function ReadLink(n: nat, l: Link): (r: (Bytes, Status, Link))
    ensures r.1 == Ok && n > 0 ==> 0 < |r.0| <= n
    ensures r.1 != Ok ==> r.0 == []
    decreases |l.incoming| + |Flatten(l.incoming)|
  {
    if l.dec != [] then Take(n, l) else
      var (l1, bad) := DrainLink(l);
      if bad then ([], Refused, l1)
      else if l1.dec != [] then Take(n, l1)
      else
        var (buf, incoming) := if l.incoming == [] then ([], []) else Pull(l.incoming, 16384);
        var (l2, malformed) := Arrive(l1, buf, incoming);
        if malformed then ([], Refused, l2)
        else if l.incoming == [] then ([], Eof, l2)
        else ReadLink(n, l2)
  }

  class Conn {
    const sock: Socket
    const mac: (Bytes, Bytes) -> Bytes   // by client id
    const rnd: Bytes
    const fin: Bytes
    var sentHello: bool
    var clientID: Bytes
    var raw: Bytes
    var dec: Bytes

    constructor (sock: Socket, mac: (Bytes, Bytes) -> Bytes, rnd: Bytes, fin: Bytes)
      requires |rnd| == 22 && |fin| == 22 && forall id, m :: |mac(id, m)| == 10
      ensures this.sock == sock && Valid() && !sentHello && raw == [] && dec == []
    {
      this.sock, this.mac, this.rnd, this.fin := sock, mac, rnd, fin;
      sentHello, clientID, raw, dec := false, [], [], [];
    }

    ghost predicate Valid()
      reads this
    {
      && |rnd| == 22 && |fin| == 22 && (forall id, m :: |mac(id, m)| == 10)
      && (!sentHello ==> !ParseHello(raw).Ready? && dec == [])
    }

    /** The tunnelled bytes that the reader will still get, given everything that is to arrive. */
    ghost function Pending(): Bytes
      reads this, sock
    {
      if sentHello then dec + Payload(raw + sock.Coming())
      else Opening(raw + sock.Coming())
    }

    ghost function Reading(): Link
      reads this, sock
    {
      Link(sentHello, raw, dec, sock.incoming)
    }

    static ghost function Opening(all: Bytes): Bytes {
      match ParseHello(all)
      case Ready(_, used) => Payload(all[used..])
      case _ => []
    }

    method DoHandshake() returns (status: Hello)
      requires !sentHello && dec == []
      requires |rnd| == 22 && |fin| == 22 && forall id, m :: |mac(id, m)| == 10
      modifies this`sentHello, this`clientID, this`raw, sock`sent
      ensures Valid() && Pending() == old(Pending())
      ensures status == ParseHello(old(raw)) && sentHello == status.Ready?
      ensures !sentHello ==> raw == old(raw) && sock.sent == old(sock.sent)
      ensures sentHello ==> status.used <= |old(raw)| && raw == old(raw)[status.used..]
      ensures sentHello ==> clientID == status.clientID && |clientID| == 32
      ensures sentHello ==>
        sock.sent == old(sock.sent) + ServerHello(mac, clientID, rnd, fin)
    {
      status := ParseHello(raw);
      HelloStable(raw, sock.Coming());
      if status.Ready? {
        clientID := status.clientID;
        assert (raw + sock.Coming())[status.used..] == raw[status.used..] + sock.Coming();
        raw := raw[status.used..];
        sock.Write(ServerHello(mac, clientID, rnd, fin));
        sentHello := true;
        assert [] + Payload(raw + sock.Coming()) == Payload(raw + sock.Coming());
      }
    }

    /** Move the payload of every complete record to `dec`; an unknown record type stops the loop
        after that record has been consumed. */
    method Drain() returns (bad: bool)
      requires sentHello
      modifies this`raw, this`dec
      ensures Pending() == old(Pending())
      ensures (Reading(), bad) == DrainLink(old(Reading()))
      ensures !bad ==> Idle(raw)
      ensures old(Idle(raw)) ==> !bad && raw == old(raw) && dec == old(dec)
    {
      hide Payload, Drained, Idle;
      ghost var payload := Drained(raw).0;
      DrainedPayload(raw, sock.Coming());
      bad := Consume();
      Regroup(old(dec), payload, Payload(raw + sock.Coming()));
      assert payload == [] ==> old(dec) + payload == old(dec);
    }

    method Consume() returns (bad: bool)
      requires sentHello
      modifies this`raw, this`dec
      ensures (Reading(), bad) == DrainLink(old(Reading()))
    {
      hide Payload, RecordSize, Drained;
      ghost var (payload, left, b) := Drained(raw);
      ghost var got := [];
      assert got + Drained(raw).0 == payload;
      while |raw| >= 5
        invariant dec == old(dec) + got && got + Drained(raw).0 == payload
        invariant Drained(raw).1 == left && Drained(raw).2 == b
        decreases |raw|
      {
        var typ, size := raw[0], RecordSize(raw);
        if |raw| < 5 + size {
          break;
        }
        DrainedStep(raw);
        ghost var c, later := Carried(raw), Drained(raw[5 + size..]).0;
        Regroup(got, c, later);
        Regroup(old(dec), got, c);
        assert got + [] == got;
        if typ == 0x17 {
          dec := dec + raw[5..5 + size];
        }
        raw := raw[5 + size..];
        got := got + c;
        if typ != 0x17 && typ != 0x14 && typ != 0x16 {
          return true;
        }
      }
      IdleStays(raw);
      assert got + [] == got;
      bad := false;
    }

    /** No byte is lost or repeated, whatever the fragments, the buffer sizes and the outcome; and the
        stream is reported as ended only when nothing is left. */
    method Read(n: nat) returns (data: Bytes, status: Status)
      requires Valid()
      modifies this, sock
      ensures Valid()
      ensures data + Pending() == old(Pending()) && |data| <= n
      ensures (data, status, Reading()) == ReadLink(n, old(Reading()))
      ensures status == Ok ==> n > 0 ==> data != []
      ensures status != Ok ==> data == []
      ensures status == Eof ==> Pending() == []
      ensures old(sentHello) ==> sentHello && sock.sent == old(sock.sent)
    {
      hide Payload, ParseHello, RecordSize, DrainLink, Take, Arrive, Pull, Pending, Idle;
      ghost var all := Pending();
      while true
        invariant Valid() && Pending() == all
        invariant ReadLink(n, Reading()) == ReadLink(n, old(Reading()))
        invariant old(sentHello) ==> sentHello && sock.sent == old(sock.sent)
        decreases |sock.incoming| + |sock.Coming()|
      {
        ghost var l := Reading();
        if dec != [] {
          data := TakeDec(n);
          return data, Ok;
        }
        if sentHello {
          var bad := Drain();
          if bad {
            return [], Refused;
          }
          if dec != [] {
            data := TakeDec(n);
            return data, Ok;
          }
        }
        assert (Reading(), false) == DrainLink(l) by { if !l.hello { NotDrained(l); } }
        var eof, malformed := Fill();
        if malformed {
          return [], Refused;
        }
        if eof {
          if sentHello {
            var _ := Drain();
            assert dec == [];   // the first drain left no complete record, and nothing has come since
          }
          AtEnd();
          return [], Eof;
        }
      }
    }

    /** One read from the connection, and the handshake if it is still outstanding. */
    method Fill() returns (eof: bool, malformed: bool)
      requires Valid()
      modifies this`raw, this`sentHello, this`clientID, sock
      ensures Valid() && Pending() == old(Pending())
      ensures eof <==> old(sock.incoming) == []
      ensures var (buf, incoming) := if eof then ([], []) else Pull(old(sock.incoming), 16384);
              (Reading(), malformed) == Arrive(old(Reading()), buf, incoming)
      ensures !eof ==> |sock.incoming| + |sock.Coming()| < |old(sock.incoming)| + |old(sock.Coming())|
      ensures eof ==> sock.incoming == [] && raw == old(raw) && sentHello == old(sentHello)
      ensures old(sentHello) ==> sentHello && sock.sent == old(sock.sent)
    {
      hide Payload, ParseHello, RecordSize, Pull;
      ghost var before := raw + sock.Coming();
      var buf;
      buf, eof := sock.Read(16384);
      malformed := false;
      assert (raw + buf) + sock.Coming() == before;
      assert eof ==> raw + buf == raw;
      raw := raw + buf;
      if !sentHello {
        var hello := DoHandshake();
        malformed := hello.Malformed?;
      }
    }

    lemma AtEnd()
      requires Valid() && sock.incoming == [] && dec == []
      requires sentHello ==> Idle(raw)
      ensures Pending() == []
    {
      assert raw + sock.Coming() == raw;
    }

    method TakeDec(n: nat) returns (data: Bytes)
      requires sentHello
      modifies this`dec
      ensures data + Pending() == old(Pending()) && |data| <= n
      ensures n > 0 && old(dec) != [] ==> data != []
      ensures old(dec) != [] ==> (data, Ok, Reading()) == Take(n, old(Reading()))
    {
      hide Payload;
      data := dec[..Min(n, |dec|)];
      dec := dec[Min(n, |dec|)..];
      assert old(dec) == data + dec;
      assert (data + dec) + Payload(raw + sock.Coming()) == data + (dec + Payload(raw + sock.Coming()));
    }

    method Write(p: Bytes)
      modifies sock`sent
      ensures sock.sent == old(sock.sent) + Wrap(p)
    {
      var out, b := [], p;
      while b != []
        invariant out + Wrap(b) == Wrap(p)
        decreases |b|
      {
        var n := Min(|b|, 16384);
        out := out + Record(0x17, b[..n]);
        b := b[n..];
      }
      sock.Write(out);
    }
  }
}
