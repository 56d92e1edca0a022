/** The auth_chain connection over the stream cipher over the TLS records: reads and writes as the
    objects perform them, and what a whole stack delivers (common/ssr/authchain.go). */
module AuthChainConn {
  import opened Octets
  import opened Incremental
  import opened Wire
  import opened XorShift
  import opened Padding
  import opened AuthChain
  import opened AuthChainProofs
  import opened Stack
  import StreamCipher
  import TlsTicket

  /** How one attempt on the accumulator ended. */
  datatype Progress = NeedMore | Failed(error: Error) | Decoded

  ghost predicate Reports(r: Progress, o: Outcome<Session, Error>) {
    match o
    case More(_) => r == NeedMore
    case Fail(_, e) => r == Failed(e)
    case Frame(_, _, _) => r == Decoded
  }

  class Conn {
    const p: Params
    const sc: StreamCipher.Conn
    const randClient: Generator
    const randServer: Generator
    var gotHdr: bool
    var uuid: string
    var userKey: Bytes
    var rkey: Bytes
    var overhead: nat
    var lastClientHash: Hash
    var lastServerHash: Hash
    var recvID: u32
    var packID: u32
    var decPos: nat
    var encPos: nat
    var sentFirst: bool
    var acc: Bytes
    var rbuf: Bytes

    constructor (p: Params, sc: StreamCipher.Conn)
      requires sc.Valid()
      ensures Valid() && this.p == p && this.sc == sc && State() == FRESH && acc == [] && rbuf == []
      ensures !gotHdr && !sentFirst && overhead == 4
      ensures fresh(randClient) && fresh(randServer)
    {
      this.p, this.sc := p, sc;
      randClient := new Generator();
      randServer := new Generator();
      gotHdr, uuid, userKey, rkey, overhead := false, "", [], [], 4;
      lastClientHash, lastServerHash := Zeros(16), Zeros(16);
      recvID, packID, decPos, encPos, sentFirst := 0, 0, 0, 0, false;
      acc, rbuf := [], [];
    }

    ghost predicate Valid()
      reads this, sc, sc.conn
    {
      sc.Valid() && randClient != randServer && (acc != [] ==> sc.readIV.Some?)
    }

    ghost function State(): Session
      reads this, randClient, randServer
    {
      Session(gotHdr, uuid, userKey, rkey, overhead,
              lastClientHash, recvID, decPos, randClient.State(),
              lastServerHash, packID, encPos, randServer.State(), sentFirst)
    }

    /** The application bytes that the reader will still get, given everything that is to arrive. */
    ghost function Pending(): Bytes
      reads this, randClient, randServer, sc, sc.conn, sc.conn.sock
    {
      rbuf + Run(Decode(p, sc.IV()), State(), acc + sc.Pending()).out
    }

    /** Both handshakes are over. */
    ghost predicate Settled()
      reads this, sc.conn
    {
      gotHdr && sc.conn.sentHello
    }

    /** Nothing that writing depends on has changed, nor anything that has been written. */
    twostate predicate Untouched()
      reads this, randClient, randServer, sc, sc.conn.sock
    {
      && Downlink(State()) == old(Downlink(State())) && sc.conn.sock.sent == old(sc.conn.sock.sent)
      && sc.writeIV == old(sc.writeIV) && sc.writeHist == old(sc.writeHist)
    }

    /** Since its chain was `e` and the wire held `base`, this end has made exactly these writes. */
    ghost predicate Wrote(base: Bytes, e: Session, writes: seq<Bytes>)
      reads this, randClient, randServer, sc, sc.conn.sock
    {
      var (frames, e') := WriteAll(p, e, writes);
      && Downlink(State()) == e'
      && if writes == [] then sc.writeIV.None? && sc.conn.sock.sent == base
         else && sc.writeIV == Some(sc.freshIV)
              && sc.writeHist == Flatten(StreamCipher.EncipherAll(sc.pad, sc.freshIV, [], frames))
              && sc.conn.sock.sent == base + Sent(sc.pad, sc.freshIV, frames)
    }

    method DecodeHeader() returns (r: Progress)
      requires !gotHdr && (acc != [] ==> sc.readIV.Some?)
      modifies this
      ensures acc != [] ==> sc.readIV.Some?
      ensures var o := HeaderStep(p, if sc.readIV.Some? then sc.readIV.value else [], old(State()), old(acc));
              && Reports(r, o) && State() == o.next
              && acc == (if o.Frame? then old(acc)[36..] else old(acc)) && rbuf == old(rbuf)
      ensures r.Decoded? ==> gotHdr
    {
      hide LE16, LE32, Xor32, AdoptUser;
      var b := acc;
      if |b| < 36 {
        return NeedMore;
      }
      lastClientHash := p.hmac(sc.readIV.value + p.cipherKey, b[..4]);
      if lastClientHash[..8] != b[4..12] {
        return Failed(HeadMacMismatch);
      }
      var user := p.lookup(Xor32(LE32(b[12..16]), LE32(lastClientHash[8..12])));
      if user.None? {
        return Failed(UnknownUser);
      }
      r := Adopt(b, user.value.0, user.value.1);
    }

    method Adopt(b: Bytes, uk: Bytes, id: string) returns (r: Progress)
      requires |b| >= 36 && b == acc && !gotHdr
      modifies this
      ensures var o := AdoptUser(p, old(State()), b, uk, id);
              && Reports(r, o) && State() == o.next
              && acc == (if o.Frame? then b[36..] else b) && rbuf == old(rbuf)
      ensures r.Decoded? ==> gotHdr
    {
      hide LE16;
      var ov := LE16(p.authBlock(uk, b[16..32])[12..14]);
      var serverHash := p.hmac(uk, b[12..32]);
      TakeKeys(uk, id, ov, serverHash);
      if serverHash[..4] != b[32..36] {
        return Failed(ServerHashMismatch);
      }
      recvID, packID, acc, gotHdr := 1, 1, b[36..], true;
      r := Decoded;
    }

    method TakeKeys(uk: Bytes, id: string, ov: nat, serverHash: Hash)
      modifies this
      ensures State() == old(State()).(userKey := uk, uuid := id, rkey := p.sessionKey(uk, old(lastClientHash)),
                                       decPos := 0, encPos := 0, serverHash := serverHash,
                                       overhead := if ov < 256 then ov else old(overhead))
      ensures acc == old(acc) && rbuf == old(rbuf)
    {
      if ov < 256 {
        overhead := ov;
      }
      userKey, uuid, rkey, decPos, encPos, lastServerHash :=
        uk, id, p.sessionKey(uk, lastClientHash), 0, 0, serverHash;
    }

    /** One turn of the decodeData loop. */
    method DecodeFrame() returns (r: Progress)
      requires gotHdr && randClient != randServer
      modifies this, randClient
      ensures var o := DataStep(p, old(State()), old(acc));
              && Reports(r, o) && State() == o.next
              && (o.Frame? ==> o.used <= |old(acc)| && acc == old(acc)[o.used..] && rbuf == old(rbuf) + o.out)
              && (!o.Frame? ==> acc == old(acc) && rbuf == old(rbuf))
      ensures gotHdr
    {
      hide RandLen, LE16, Xor16, FinishFrame;
      if |acc| <= 4 {
        return NeedMore;
      }
      var dataLength := Xor16(LE16(acc[..2]), LE16(lastClientHash[14..16]));
      var randLen := GetRandLen(p.scheme, overhead, dataLength, lastClientHash, randClient);
      var length := dataLength + randLen;
      if randLen < 0 || length < 0 {
        return Failed(BadLength);
      }
      if length >= 4096 {
        return Failed(LengthError);
      }
      if 4 + length > |acc| {
        return NeedMore;
      }
      r := Finish(dataLength, randLen);
    }

    method Finish(dataLength: nat, randLen: nat) returns (r: Progress)
      requires gotHdr && randClient != randServer && 4 + dataLength + randLen <= |acc|
      modifies this, randClient
      ensures var o := FinishFrame(p, old(State()), old(acc), dataLength, randLen);
              && Reports(r, o) && State() == o.next
              && (o.Frame? ==> o.used <= |old(acc)| && acc == old(acc)[o.used..] && rbuf == old(rbuf) + o.out)
              && (!o.Frame? ==> acc == old(acc) && rbuf == old(rbuf))
      ensures gotHdr
    {
      hide Rc4, StartPos, PutLE32;
      var b, length := acc, dataLength + randLen;
      var h := p.hmac(userKey + PutLE32(recvID), b[..length + 2]);
      if h[..2] != b[length + 2..length + 4] {
        return Failed(DataMacMismatch);
      }
      var pos := 2;
      if dataLength > 0 {
        var off := GetRandStartPos(randLen, randClient);
        pos := pos + off;
      }
      var wanted := Rc4(p, rkey, decPos, b[pos..pos + dataLength]);
      Consume(h, wanted, b[length + 4..]);
      r := Decoded;
    }

    method Consume(h: Hash, wanted: Bytes, rest: Bytes)
      modifies this
      ensures State() == old(State()).(clientHash := h, decPos := old(decPos) + |wanted|, recvID := Inc32(old(recvID)))
      ensures rbuf == old(rbuf) + wanted && acc == rest
    {
      lastClientHash, decPos, recvID := h, decPos + |wanted|, Inc32(recvID);
      rbuf, acc := rbuf + wanted, rest;
    }

    /** The decodeData loop is exactly the incremental decoder. */
    method DecodeData(ghost iv: Bytes) returns (error: Option<Error>)
      requires gotHdr && randClient != randServer
      modifies this, randClient
      ensures var q := Run(Decode(p, iv), old(State()), old(acc));
              State() == q.state && acc == q.acc && rbuf == old(rbuf) + q.out && error == q.error
      ensures gotHdr
    {
      hide DataStep, HeaderStep, Run, Stable;
      DecodeIsStable(p, iv);
      ghost var parse, out := Decode(p, iv), [];
      ghost var q := Run(parse, State(), acc);
      while true
        invariant gotHdr && rbuf == old(rbuf) + out
        invariant var t := Run(parse, State(), acc); q == t.(out := out + t.out)
        decreases |acc|
      {
        RunUnfold(parse, State(), acc);
        ghost var o := DataStep(p, State(), acc);
        var r := DecodeFrame();
        match r
        case NeedMore => return None;
        case Failed(e) => return Some(e);
        case Decoded =>
          ghost var rest := Run(parse, State(), acc).out;
          assert (out + o.out) + rest == out + (o.out + rest);
          out := out + o.out;
      }
    }

    /** One read from below, then everything that has become decodable. */
    method Pump() returns (status: Status, error: Option<Error>)
      requires Valid()
      modifies this, randClient, sc`readIV, sc`readHist, sc.conn, sc.conn.sock
      ensures Valid()
      ensures status == Ok ==> |sc.conn.Pending()| < |old(sc.conn.Pending())|
      ensures status == Ok ==> sc.readIV.Some?
      ensures old(sc.readIV).Some? ==> sc.readIV.Some?
      ensures status != Refused || sc.readIV.Some? || !old(sc.LosesIV()) ==> Pending() == old(Pending())
      ensures status == Eof || error.Some? ==> Pending() == rbuf
      ensures old(Settled()) ==> Settled() && Untouched()
    {
      hide Downlink, Run, Decode, Stable, TlsTicket.Conn.Pending, TlsTicket.Conn.Valid,
           StreamCipher.Conn.Pending, StreamCipher.Conn.IV, StreamCipher.Conn.Valid, StreamCipher.Conn.LosesIV;
      ghost var s0, a0, iv, r0 := State(), acc, sc.IV(), rbuf;
      ghost var tmp;
      status, tmp := Receive();
      error := Advance();
      DecodeIsStable(p, sc.IV());
      PumpKeeps(Decode(p, sc.IV()), s0, a0, tmp, sc.Pending(), r0);
      assert status != Refused || sc.readIV.Some? || !old(sc.LosesIV()) ==> sc.IV() == iv;
    }

    /** One read from below into the accumulator. */
    method Receive() returns (status: Status, ghost tmp: Bytes)
      requires Valid()
      modifies this`acc, sc`readIV, sc`readHist, sc.conn, sc.conn.sock
      ensures Valid() && acc == old(acc) + tmp
      ensures status == Ok ==> |sc.conn.Pending()| < |old(sc.conn.Pending())| && sc.readIV.Some?
      ensures old(sc.readIV).Some? ==> sc.readIV.Some?
      ensures status != Refused || sc.readIV.Some? || !old(sc.LosesIV()) ==>
        tmp + sc.Pending() == old(sc.Pending()) && sc.IV() == old(sc.IV())
      ensures status == Eof ==> sc.Pending() == []
      ensures old(sc.conn.sentHello) ==> sc.conn.sentHello && sc.conn.sock.sent == old(sc.conn.sock.sent)
    {
      hide TlsTicket.Conn.Pending, TlsTicket.Conn.Valid,
           StreamCipher.Conn.Pending, StreamCipher.Conn.IV, StreamCipher.Conn.Valid, StreamCipher.Conn.LosesIV;
      var data;
      data, status := sc.Read(8192);
      acc := acc + data;
      tmp := data;
    }

    /** Header if outstanding, then data: one run of the incremental decoder. */
    method Advance() returns (error: Option<Error>)
      requires Valid()
      modifies this, randClient
      ensures Valid()
      ensures var q := Run(Decode(p, sc.IV()), old(State()), old(acc));
              State() == q.state && acc == q.acc && rbuf == old(rbuf) + q.out && error == q.error
      ensures old(gotHdr) ==> gotHdr && Downlink(State()) == old(Downlink(State()))
    {
      hide Downlink, Run, HeaderStep, DataStep, TlsTicket.Payload, TlsTicket.ParseHello, StreamCipher.Decipher;
      ghost var iv := sc.IV();
      DecodeIsStable(p, iv);
      RunUnfold(Decode(p, iv), State(), acc);
      if gotHdr { RunKeepsDownlink(p, iv, State(), acc); }
      if !gotHdr {
        HeaderNeedsIV(p, iv, State(), acc);
        var r := DecodeHeader();
        match r
        case NeedMore => return None;
        case Failed(e) => return Some(e);
        case Decoded =>
      }
      error := DecodeData(iv);
      AccOnlyShrinks(Decode(p, iv), old(State()), old(acc));
    }

    /** No byte is lost or repeated for any fragmentation below, any buffer size above and any outcome,
        unless a part of the IV is lost; and a read that comes back empty-handed, but for a refused record,
        means that nothing decodable is left. */
    method Read(n: nat) returns (data: Bytes, status: Status, error: Option<Error>)
      requires Valid() && n > 0
      modifies this, randClient, sc`readIV, sc`readHist, sc.conn, sc.conn.sock
      ensures Valid() && |data| <= n
      ensures status != Refused || sc.readIV.Some? || !old(sc.LosesIV()) ==> data + Pending() == old(Pending())
      ensures status != Refused && data == [] ==> Pending() == []
      ensures old(Settled()) ==> Settled() && Untouched()
    {
      hide Pending, Downlink, Valid, StreamCipher.Conn.LosesIV;
      status, error := Refill();
      if rbuf == [] {
        return [], status, error;
      }
      data := Take(n);
    }

    /** Pump until there is something to return, or no more will come. */
    method Refill() returns (status: Status, error: Option<Error>)
      requires Valid()
      modifies this, randClient, sc`readIV, sc`readHist, sc.conn, sc.conn.sock
      ensures Valid()
      ensures status != Refused || sc.readIV.Some? || !old(sc.LosesIV()) ==> Pending() == old(Pending())
      ensures status != Refused && rbuf == [] ==> Pending() == []
      ensures old(Settled()) ==> Settled() && Untouched()
    {
      hide Run, Decode, Downlink, TlsTicket.Payload, TlsTicket.ParseHello, StreamCipher.Decipher, StreamCipher.Conn.Pending;
      ghost var all := Pending();
      status, error := Ok, None;
      while rbuf == []
        invariant Valid() && (status != Refused || sc.readIV.Some? || !old(sc.LosesIV()) ==> Pending() == all)
        invariant rbuf == [] ==> sc.readIV.Some? || sc.LosesIV() == old(sc.LosesIV())
        invariant status != Ok || error.Some? ==> rbuf != []
        invariant old(Settled()) ==> Settled() && Untouched()
        decreases rbuf == [], |sc.conn.Pending()|
      {
        status, error := Pump();
        if (status != Ok || error.Some?) && rbuf == [] {
          return;
        }
      }
    }

    /** Hand over at most `n` of the decoded bytes. */
    method Take(n: nat) returns (data: Bytes)
      requires Valid() && rbuf != []
      modifies this`rbuf
      ensures Valid() && |data| <= n && data + Pending() == old(Pending())
      ensures n > 0 ==> data != []
      ensures Settled() == old(Settled()) && Untouched()
    {
      hide Run, Decode, Downlink, StreamCipher.Conn.Pending, StreamCipher.Conn.IV;
      data := rbuf[..Min(n, |rbuf|)];
      rbuf := rbuf[Min(n, |rbuf|)..];
      ghost var rest := Run(Decode(p, sc.IV()), State(), acc + sc.Pending()).out;
      assert data + (rbuf + rest) == (data + rbuf) + rest;
    }

    method PackOne(data: Bytes) returns (frame: Bytes)
      requires gotHdr && randClient != randServer
      modifies this, randServer
      ensures (frame, State()) == Pack(p, old(State()), data)
      ensures gotHdr && acc == old(acc) && rbuf == old(rbuf)
    {
      hide Rc4, StartPos, PutLE32, RandLen, LE16, Xor16, PutLE16;
      var buf := Rc4(p, rkey, encPos, data);
      RandLenBounds(p.scheme, overhead, |data|, lastServerHash, randServer.State());
      frame := PutLE16(Xor16(|data| % 0x1_0000, LE16(lastServerHash[14..16])));
      var randLen := GetRandLen(p.scheme, overhead, |data|, lastServerHash, randServer);
      if |data| == 0 {
        frame := frame + Zeros(randLen);
      } else if randLen > 0 {
        var sp := GetRandStartPos(randLen, randServer);
        frame := frame + Zeros(sp) + buf + Zeros(randLen - sp);
      } else {
        frame := frame + buf;
      }
      lastServerHash := p.hmac(userKey + PutLE32(packID), frame);
      packID := Inc32(packID);
      encPos := encPos + |data|;
      frame := frame + lastServerHash[..2];
    }

    /** The frames of one write, enciphered and wrapped as one write to each layer below. */
    method Write(data: Bytes)
      requires Valid() && gotHdr
      modifies this, randServer, sc`writeIV, sc`writeHist, sc.conn.sock`sent
      ensures Valid() && gotHdr && acc == old(acc) && rbuf == old(rbuf)
      ensures State() == AuthChain.Write(p, old(State()), data).1
      ensures var iv := if old(sc.writeIV).Some? then old(sc.writeIV).value else sc.freshIV;
              var hist := if old(sc.writeIV).Some? then old(sc.writeHist) else [];
              var c := StreamCipher.Encipher(sc.pad, iv, hist, AuthChain.Write(p, old(State()), data).0);
              && sc.writeIV == Some(iv) && sc.writeHist == hist + c
              && sc.conn.sock.sent == old(sc.conn.sock.sent)
                                      + (if old(sc.writeIV).Some? then [] else TlsTicket.Wrap(sc.freshIV))
                                      + TlsTicket.Wrap(c)
      ensures forall base, e, writes :: old(Wrote(base, e, writes)) ==> Wrote(base, e, writes + [data])
    {
      hide PackAll, StreamCipher.Encipher, TlsTicket.Wrap, WriteAll, Sent, Flatten, StreamCipher.EncipherAll, Downlink;
      var rest := if sentFirst then data else [0, 0] + data;
      sentFirst := true;
      var out := PackMany(rest);
      sc.Write(out);
      forall base, e, writes | old(Wrote(base, e, writes)) ensures Wrote(base, e, writes + [data]) {
        WroteOneMore(p, sc.pad, sc.freshIV, old(State()), base, e, writes, data);
      }
    }

    method PackMany(data: Bytes) returns (out: Bytes)
      requires gotHdr && randClient != randServer
      modifies this, randServer
      ensures (out, State()) == PackAll(p, old(State()), data)
      ensures gotHdr && acc == old(acc) && rbuf == old(rbuf)
    {
      hide Pack;
      var rest := data;
      out := [];
      ghost var all, end := PackAll(p, State(), data).0, PackAll(p, State(), data).1;
      assert out + all == all;
      while |rest| > 2800
        invariant gotHdr && acc == old(acc) && rbuf == old(rbuf)
        invariant out + PackAll(p, State(), rest).0 == all && PackAll(p, State(), rest).1 == end
        decreases |rest|
      {
        var frame := PackOne(rest[..2800]);
        ghost var tail := PackAll(p, State(), rest[2800..]).0;
        assert out + (frame + tail) == (out + frame) + tail;
        out := out + frame;
        rest := rest[2800..];
      }
      if |rest| > 0 {
        var frame := PackOne(rest);
        out := out + frame;
      }
      assert out + [] == out;
    }
  }

  /** Before the IV is known nothing has accumulated, and the header step does not look at it. */
  lemma HeaderNeedsIV(p: Params, iv: Bytes, s: Session, b: Bytes)
    ensures b == [] ==> HeaderStep(p, iv, s, b) == HeaderStep(p, [], s, b) == More(s)
    ensures HeaderStep(p, iv, s, b).Frame? ==> HeaderStep(p, iv, s, b).used == 36 <= |b| && HeaderStep(p, iv, s, b).out == []
  {
  }

  // ---- the whole stack ----

  lemma WroteOneMore(p: Params, pad: StreamCipher.Pad, iv: Bytes, s: Session, base: Bytes, e: Session,
                     writes: seq<Bytes>, data: Bytes)
    requires Downlink(s) == WriteAll(p, e, writes).1
    ensures var frames := WriteAll(p, e, writes).0;
            var (w, s') := AuthChain.Write(p, s, data);
            var hist := Flatten(StreamCipher.EncipherAll(pad, iv, [], frames));
            var c := StreamCipher.Encipher(pad, iv, hist, w);
            && WriteAll(p, e, writes + [data]) == (frames + [w], Downlink(s'))
            && (base + Sent(pad, iv, frames)) + TlsTicket.Wrap(c) == base + Sent(pad, iv, frames + [w])
            && Flatten(StreamCipher.EncipherAll(pad, iv, [], frames + [w])) == hist + c
            && (writes == [] ==> hist == [] && Sent(pad, iv, frames) == TlsTicket.Wrap(iv))
  {
    hide WriteAll, Sent, Flatten, StreamCipher.EncipherAll, StreamCipher.Encipher, Downlink, AuthChain.Write;
    var frames := WriteAll(p, e, writes).0;
    WriteAllSnoc(p, e, writes, data);
    WriteDownlink(p, s, data);
    SentSnoc(pad, iv, frames, AuthChain.Write(p, s, data).0);
    if writes == [] {
      assert frames == [] by { NoWrites(p, e); }
      NothingSent(pad, iv);
      FlattenNil<byte>();
    }
  }

  lemma NoWrites(p: Params, e: Session)
    ensures WriteAll(p, e, []) == ([], e)
  {
  }

  /** End to end: for every run of writes, every fragmentation `pieces` of the wire, and every way
      `cuts` of cutting the tunnelled stream into reads after the IV, the receiving stack yields two
      zero bytes followed by exactly the written bytes, and both chains end mirrored. */
  lemma EndToEnd(p: Params, pad: StreamCipher.Pad, iv: Bytes, e: Session, d: Session, writes: seq<Bytes>,
                 pieces: seq<Bytes>)
    requires Mirrors(d, e) && !e.sentFirst && writes != []
    requires pieces != [] && Flatten(pieces) == Sent(pad, iv, WriteAll(p, e, writes).0)
    ensures var tunnel := FeedAll(TlsTicket.Records(), Decoder((), [], [], None), pieces).out;
            && |tunnel| >= |iv| && tunnel[..|iv|] == iv
            && forall cuts: seq<Bytes> | cuts != [] && Flatten(cuts) == tunnel[|iv|..] ::
                 var plain := StreamCipher.DecipherAll(pad, iv, [], cuts);
                 var q := FeedAll(Decode(p, iv), Decoder(d, [], [], None), plain);
                 && q.out == [0, 0] + Flatten(writes)
                 && q.acc == [] && q.error == None && Mirrors(q.state, WriteAll(p, e, writes).1)
  {
    hide WriteAll, Mirrors, Run, StreamCipher.DecipherAll, Sent, Decode;
    Through(pad, iv, WriteAll(p, e, writes).0, pieces);
    var tunnel := FeedAll(TlsTicket.Records(), Decoder((), [], [], None), pieces).out;
    forall cuts: seq<Bytes> | cuts != [] && Flatten(cuts) == tunnel[|iv|..]
      ensures var q := FeedAll(Decode(p, iv), Decoder(d, [], [], None), StreamCipher.DecipherAll(pad, iv, [], cuts));
              && q.out == [0, 0] + Flatten(writes)
              && q.acc == [] && q.error == None && Mirrors(q.state, WriteAll(p, e, writes).1)
    {
      ChainRoundTrip(p, iv, e, d, writes, StreamCipher.DecipherAll(pad, iv, [], cuts));
    }
  }

  /** A receiving stack about to get what a sending stack wrote, with or without the fake handshake
      reply in front, holds exactly those bytes; by the contract of `Conn.Read` it then delivers them. */
  lemma StackDelivers(c: Conn, mac: (Bytes, Bytes) -> Bytes, id: Bytes, rnd: Bytes, fin: Bytes, greeted: bool,
                      iv: Bytes, e: Session, writes: seq<Bytes>)
    requires c.Valid() && c.acc == [] && c.rbuf == [] && c.sc.readIV.None? && c.sc.ivSize == |iv|
    requires c.sc.conn.sentHello && c.sc.conn.raw == [] && c.sc.conn.dec == []
    requires |id| == 32 && |rnd| == 22 && |fin| == 22 && forall k, m :: |mac(k, m)| == 10
    requires Mirrors(c.State(), e) && !e.sentFirst && writes != []
    requires c.sc.conn.sock.Coming() == (if greeted then TlsTicket.ServerHello(mac, id, rnd, fin) else [])
                                        + Sent(c.sc.pad, iv, WriteAll(c.p, e, writes).0)
    ensures c.Pending() == [0, 0] + Flatten(writes)
  {
    hide WriteAll, Run, StreamCipher.Encipher, StreamCipher.Decipher, StreamCipher.EncipherAll,
         TlsTicket.Payload, TlsTicket.ServerHello, Sent, Mirrors;
    var frames := WriteAll(c.p, e, writes).0;
    var wire := Sent(c.sc.pad, iv, frames);
    if greeted {
      TlsTicket.ServerHelloInvisible(mac, id, rnd, fin, wire);
    }
    assert [] + wire == wire && [] + c.sc.conn.sock.Coming() == c.sc.conn.sock.Coming();
    SentPayload(c.sc.pad, iv, frames);
    StreamCipher.DecipherWrites(c.sc.pad, iv, [], frames);
    WritesRoundTrip(c.p, iv, e, c.State(), writes);
    var cs := StreamCipher.EncipherAll(c.sc.pad, iv, [], frames);
    assert (iv + Flatten(cs))[..|iv|] == iv && (iv + Flatten(cs))[|iv|..] == Flatten(cs);
    assert c.sc.conn.Pending() == iv + Flatten(cs);
    assert c.sc.Pending() == Flatten(frames);
    assert [] + c.sc.Pending() == c.sc.Pending();
  }

  /** Stack to stack: whatever one end has written since its chain was `e`, the other end, if it
      starts mirrored and is sent those bytes in any fragments, holds for its reader. */
  lemma WrittenIsDelivered(a: Conn, base: Bytes, e: Session, writes: seq<Bytes>, c: Conn)
    requires a.Wrote(base, e, writes) && !e.sentFirst && writes != []
    requires c.Valid() && c.acc == [] && c.rbuf == [] && c.sc.readIV.None?
    requires c.sc.conn.sentHello && c.sc.conn.raw == [] && c.sc.conn.dec == []
    requires c.p == a.p && c.sc.pad == a.sc.pad && c.sc.ivSize == |a.sc.freshIV| && Mirrors(c.State(), e)
    requires base + c.sc.conn.sock.Coming() == a.sc.conn.sock.sent
    ensures c.Pending() == [0, 0] + Flatten(writes)
  {
    hide WriteAll, Sent, Mirrors, Downlink, Conn.Pending, StreamCipher.EncipherAll;
    var wire := Sent(a.sc.pad, a.sc.freshIV, WriteAll(a.p, e, writes).0);
    assert c.sc.conn.sock.Coming() == (base + c.sc.conn.sock.Coming())[|base|..] == wire;
    assert [] + wire == wire;
    StackDelivers(c, (_, _) => Zeros(10), Zeros(32), Zeros(22), Zeros(22), false, a.sc.freshIV, e, writes);
  }
}
