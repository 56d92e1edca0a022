/** The auth_aes128 connection over the stream cipher over the TLS records: reads and writes as the
    objects perform them, and what a whole stack delivers (common/ssr/protocol.go). */
module AuthAesConn {
  import opened Octets
  import opened Incremental
  import opened Wire
  import opened AuthAes
  import opened Stack
  import StreamCipher
  import TlsTicket

  /** How one attempt on the accumulator ended. */
  datatype Progress = NeedMore | Failed(error: Error) | Decoded

  class Conn {
    const p: Params
    const sc: StreamCipher.Conn
    var gotHdr: bool
    var uuid: string
    var userKey: Bytes
    var recvID: u32
    var packID: u32
    var crashed: bool      // a panic has ended the connection
    var acc: Bytes
    var rbuf: Bytes

    constructor (p: Params, sc: StreamCipher.Conn)
      requires sc.Valid()
      ensures Valid() && this.p == p && this.sc == sc && State() == FRESH && acc == [] && rbuf == []
      ensures !gotHdr && !crashed && packID == 1
    {
      this.p, this.sc := p, sc;
      gotHdr, uuid, userKey, recvID, packID, crashed := false, "", [], 0, 1, false;
      acc, rbuf := [], [];
    }

    ghost predicate Valid()
      reads this, sc, sc.conn
    {
      sc.Valid() && (acc != [] ==> sc.readIV.Some?)
    }

    ghost function State(): Session
      reads this
    {
      Session(gotHdr, uuid, userKey, recvID, packID, crashed)
    }

    /** The application bytes that the reader will still get, given everything that is to arrive. */
    ghost function Pending(): Bytes
      reads this, sc, sc.conn, sc.conn.sock
    {
      rbuf + Run(Decode(p, sc.IV()), State(), acc + sc.Pending()).out
    }

    /** Both handshakes are over. */
    ghost predicate Settled()
      reads this, sc.conn
    {
      gotHdr && sc.conn.sentHello
    }

    /** Nothing that writing depends on has changed, nor anything that has been written. */
    twostate predicate Untouched()
      reads this, sc, sc.conn.sock
    {
      && Downlink(State()) == old(Downlink(State())) && sc.conn.sock.sent == old(sc.conn.sock.sent)
      && sc.writeIV == old(sc.writeIV) && sc.writeHist == old(sc.writeHist)
    }

    /** Since the wire held `base`, this end has handed down exactly these frames. */
    ghost predicate HandedDown(base: Bytes, frames: seq<Bytes>)
      reads sc, sc.conn.sock
    {
      if frames == [] then sc.writeIV.None? && sc.conn.sock.sent == base
      else && sc.writeIV == Some(sc.freshIV)
           && sc.writeHist == Flatten(StreamCipher.EncipherAll(sc.pad, sc.freshIV, [], frames))
           && sc.conn.sock.sent == base + Sent(sc.pad, sc.freshIV, frames)
    }

    /** Since its state was `e` and the wire held `base`, this end has made exactly these writes. */
    ghost predicate Wrote(base: Bytes, e: Session, writes: seq<Bytes>)
      reads this, sc, sc.conn.sock
    {
      var (frames, e') := WriteAll(p, e, writes);
      Downlink(State()) == e' && HandedDown(base, frames)
    }

    /** What the object did is what the outcome says. */
    twostate predicate Follows(r: Progress, o: Outcome<Session, Error>)
      reads this
    {
      && State() == o.next
      && match o
         case More(_) => r == NeedMore && acc == old(acc) && rbuf == old(rbuf)
         case Fail(_, e) => r == Failed(e) && acc == old(acc) && rbuf == old(rbuf)
         case Frame(_, used, out) =>
           r == Decoded && used <= |old(acc)| && acc == old(acc)[used..] && rbuf == old(rbuf) + out
    }

    method DecodeHeader() returns (r: Progress)
      requires !gotHdr && (acc != [] ==> sc.readIV.Some?)
      modifies this
      ensures Follows(r, HeaderStep(p, if sc.readIV.Some? then sc.readIV.value else [], old(State()), old(acc)))
    {
      hide LE16, LE32;
      var b := acc;
      if |b| < 31 {
        return NeedMore;
      }
      var macKey := sc.readIV.value + p.cipherKey;
      if p.hmac(macKey, b[..1])[..6] != b[1..7] {
        return Failed(HeadMacMismatch);
      }
      var user := p.lookup(LE32(b[7..11]));
      if user.None? {
        return Failed(UnknownUser);
      }
      var uk := user.value.0;
      if p.hmac(macKey, b[7..27])[..4] != b[27..31] {
        return Failed(AuthMacMismatch);
      }
      var dec := p.authBlock(uk, b[11..27]);
      var packedLen: nat, randLen: nat := LE16(dec[12..14]), LE16(dec[14..16]);
      if packedLen < 31 + randLen + 4 {
        return Failed(BadPackedLength);
      }
      if |b| < packedLen {
        return NeedMore;
      }
      if p.hmac(uk, b[..packedLen - 4])[..4] != b[packedLen - 4..packedLen] {
        return Failed(FinalMacMismatch);
      }
      var dataLen := packedLen - 31 - randLen - 4;
      rbuf := rbuf + b[31 + randLen..31 + randLen + dataLen];
      userKey, uuid, recvID := uk, user.value.1, 1;
      acc := acc[packedLen..];
      gotHdr := true;
      r := Decoded;
    }

    /** One turn of the decodeData loop. */
    method DecodeFrame() returns (r: Progress)
      requires gotHdr
      modifies this
      ensures Follows(r, DataStep(p, old(State()), old(acc)))
    {
      hide LE16, PutLE32;
      var b := acc;
      if |b| <= 4 {
        return NeedMore;
      }
      var macKey := userKey + PutLE32(recvID);
      var length: nat := LE16(b[..2]);
      if length < 7 || length >= 8192 {
        return Failed(BadDataLength);
      }
      if length > |b| {
        return NeedMore;
      }
      if p.hmac(macKey, b[..2])[..2] != b[2..4] {
        return Failed(LengthMacMismatch);
      }
      if p.hmac(macKey, b[..length - 4])[..4] != b[length - 4..length] {
        return Failed(DataMacMismatch);
      }
      recvID := Inc32(recvID);
      var pos: int := b[4];
      if pos < 255 {
        pos := pos + 4;
      } else {
        pos := LE16(b[5..7]);
        pos := pos + 4;
      }
      if pos > length - 4 {
        crashed := true;
        return Failed(Crash);
      }
      rbuf := rbuf + b[pos..length - 4];
      acc := acc[length..];
      r := Decoded;
    }

    /** The decodeData loop is exactly the incremental decoder. */
    method DecodeData(ghost iv: Bytes) returns (error: Option<Error>)
      requires gotHdr && !crashed
      modifies this
      ensures var q := Run(Decode(p, iv), old(State()), old(acc));
              State() == q.state && acc == q.acc && rbuf == old(rbuf) + q.out && error == q.error
      ensures gotHdr
    {
      hide DataStep, HeaderStep, Run, Stable;
      DecodeIsStable(p, iv);
      ghost var parse, out := Decode(p, iv), [];
      ghost var q := Run(parse, State(), acc);
      while true
        invariant gotHdr && !crashed && rbuf == old(rbuf) + out
        invariant var t := Run(parse, State(), acc); q == t.(out := out + t.out)
        decreases |acc|
      {
        RunUnfold(parse, State(), acc);
        ghost var o := DataStep(p, State(), acc);
        FrameKeeps(p, iv, State(), acc);
        var r := DecodeFrame();
        match r
        case NeedMore => return None;
        case Failed(e) => return Some(e);
        case Decoded =>
          ghost var rest := Run(parse, State(), acc).out;
          assert (out + o.out) + rest == out + (o.out + rest);
          out := out + o.out;
      }
    }

    /** Header if outstanding, then data: one run of the incremental decoder. */
    method Advance() returns (error: Option<Error>)
      requires Valid() && !crashed
      modifies this
      ensures Valid()
      ensures var q := Run(Decode(p, sc.IV()), old(State()), old(acc));
              State() == q.state && acc == q.acc && rbuf == old(rbuf) + q.out && error == q.error
      ensures old(gotHdr) ==> gotHdr && Downlink(State()) == old(Downlink(State()))
      ensures crashed ==> error == Some(Crash)
    {
      hide Downlink, Run, HeaderStep, DataStep, StreamCipher.Conn.Pending, StreamCipher.Conn.Valid;
      ghost var iv, s0, a0 := sc.IV(), State(), acc;
      DecodeIsStable(p, iv);
      RunUnfold(Decode(p, iv), s0, a0);
      CrashIsReported(p, iv, s0, a0);
      AccOnlyShrinks(Decode(p, iv), s0, a0);
      if gotHdr { RunKeepsDownlink(p, iv, s0, a0); }
      if !gotHdr {
        HeaderNeedsIV(p, iv, s0, a0);
        var r := DecodeHeader();
        match r
        case NeedMore => return None;
        case Failed(e) => return Some(e);
        case Decoded =>
      }
      ghost var r1, s1, a1 := rbuf, State(), acc;
      error := DecodeData(iv);
      ghost var t := Run(Decode(p, iv), s1, a1).out;
      if !s0.gotHdr {
        ghost var o := HeaderStep(p, iv, s0, a0).out;
        assert (old(rbuf) + o) + t == old(rbuf) + (o + t);
      }
    }

    /** One read from below, then everything that has become decodable. */
    method Pump() returns (status: Status, error: Option<Error>)
      requires Valid() && !crashed
      modifies this, sc`readIV, sc`readHist, sc.conn, sc.conn.sock
      ensures Valid()
      ensures status == Ok ==> |sc.conn.Pending()| < |old(sc.conn.Pending())|
      ensures status == Ok ==> sc.readIV.Some?
      ensures old(sc.readIV).Some? ==> sc.readIV.Some?
      ensures status != Refused || sc.readIV.Some? || !old(sc.LosesIV()) ==> Pending() == old(Pending())
      ensures status == Eof || error.Some? ==> Pending() == rbuf
      ensures crashed ==> error == Some(Crash)
      ensures old(Settled()) ==> Settled() && Untouched()
    {
      hide Downlink, Run, Decode, Stable, TlsTicket.Conn.Pending, TlsTicket.Conn.Valid,
           StreamCipher.Conn.Pending, StreamCipher.Conn.IV, StreamCipher.Conn.Valid, StreamCipher.Conn.LosesIV;
      ghost var s0, a0, iv := State(), acc, sc.IV();
      var tmp;
      tmp, status := sc.Read(8192);
      acc := acc + tmp;
      ghost var r0 := rbuf;
      error := Advance();
      DecodeIsStable(p, sc.IV());
      PumpKeeps(Decode(p, sc.IV()), s0, a0, tmp, sc.Pending(), r0);
      assert status != Refused || sc.readIV.Some? || !old(sc.LosesIV()) ==> sc.IV() == iv;
    }

    /** As for auth_chain: no byte is lost or repeated, unless a part of the IV is lost; and an empty-handed
        read, but for a refused record, means that nothing decodable is left.  A panic unwinds out of the
        read: it returns nothing, and what had been decoded before it in the same read, which is all that
        was still to be had, is lost. */
    method Read(n: nat) returns (data: Bytes, status: Status, error: Option<Error>)
      requires Valid() && !crashed && n > 0
      modifies this, sc`readIV, sc`readHist, sc.conn, sc.conn.sock
      ensures Valid() && |data| <= n
      ensures status != Refused || sc.readIV.Some? || !old(sc.LosesIV()) ==>
        old(Pending()) == if crashed then rbuf else data + Pending()
      ensures status != Refused && data == [] && !crashed ==> Pending() == []
      ensures crashed ==> data == [] && error == Some(Crash)
      ensures old(Settled()) ==> Settled() && Untouched()
    {
      hide Pending, Downlink, Valid, StreamCipher.Conn.LosesIV;
      status, error := Refill();
      if rbuf == [] || crashed {
        return [], status, error;
      }
      data := Take(n);
    }

    /** Pump until there is something to return, or no more will come. */
    method Refill() returns (status: Status, error: Option<Error>)
      requires Valid() && !crashed
      modifies this, sc`readIV, sc`readHist, sc.conn, sc.conn.sock
      ensures Valid()
      ensures status != Refused || sc.readIV.Some? || !old(sc.LosesIV()) ==> Pending() == old(Pending())
      ensures status != Refused && rbuf == [] ==> Pending() == []
      ensures crashed ==> error == Some(Crash) && Pending() == rbuf
      ensures old(Settled()) ==> Settled() && Untouched()
    {
      hide Run, Decode, Downlink, TlsTicket.Payload, TlsTicket.ParseHello, StreamCipher.Decipher,
           StreamCipher.Conn.Pending, StreamCipher.Conn.LosesIV;
      ghost var all := Pending();
      status, error := Ok, None;
      while rbuf == []
        invariant Valid() && (status != Refused || sc.readIV.Some? || !old(sc.LosesIV()) ==> Pending() == all)
        invariant rbuf == [] ==> sc.readIV.Some? || sc.LosesIV() == old(sc.LosesIV())
        invariant status != Ok || error.Some? ==> rbuf != []
        invariant crashed ==> error == Some(Crash) && Pending() == rbuf
        invariant old(Settled()) ==> Settled() && Untouched()
        decreases rbuf == [], |sc.conn.Pending()|
      {
        status, error := Pump();
        if (status != Ok || error.Some?) && rbuf == [] {
          return;
        }
      }
    }

    /** Hand over at most `n` of the decoded bytes. */
    method Take(n: nat) returns (data: Bytes)
      requires Valid() && rbuf != []
      modifies this`rbuf
      ensures Valid() && |data| <= n && data + Pending() == old(Pending())
      ensures n > 0 ==> data != []
      ensures Settled() == old(Settled()) && Untouched()
    {
      hide Run, Decode, Downlink, StreamCipher.Conn.Pending, StreamCipher.Conn.IV;
      data := rbuf[..Min(n, |rbuf|)];
      rbuf := rbuf[Min(n, |rbuf|)..];
      ghost var rest := Run(Decode(p, sc.IV()), State(), acc + sc.Pending()).out;
      assert data + (rbuf + rest) == (data + rbuf) + rest;
    }

    /** One frame, handed to the stream cipher on its own. */
    method WriteChunk(data: Bytes)
      requires Valid() && |data| <= 8000
      modifies this`packID, sc`writeIV, sc`writeHist, sc.conn.sock`sent
      ensures Valid() && State() == Pack(p, old(State()), data).1
      ensures forall base, frames :: old(HandedDown(base, frames)) ==>
                HandedDown(base, frames + [Pack(p, old(State()), data).0])
    {
      hide StreamCipher.Encipher, TlsTicket.Wrap, StreamCipher.EncipherAll, Sent, Flatten, PutLE32;
      var macKey := userKey + PutLE32(packID);
      packID := Inc32(packID);
      var packedLen := 2 + 2 + 1 + |data| + 4;
      var hdr := PutLE16(packedLen);
      assert hdr[..2] == hdr;
      hdr := hdr + p.hmac(macKey, hdr[..2])[..2];
      hdr := hdr + [1];
      hdr := hdr + data;
      hdr := hdr + p.hmac(macKey, hdr)[..4];
      assert hdr == Pack(p, old(State()), data).0;
      sc.Write(hdr);
      forall base, frames | old(HandedDown(base, frames)) ensures HandedDown(base, frames + [hdr]) {
        OneMoreFrame(sc.pad, sc.freshIV, base, frames, hdr);
      }
    }

    /** All chunks of one write; if this end has made some run of writes, it has afterwards made that run
        and this one. */
    method Write(data: Bytes)
      requires Valid()
      modifies this`packID, sc`writeIV, sc`writeHist, sc.conn.sock`sent
      ensures Valid() && State() == PackAll(p, old(State()), data).1
      ensures forall base, frames :: old(HandedDown(base, frames)) ==>
                HandedDown(base, frames + PackAll(p, old(State()), data).0)
      ensures forall base, e, writes :: old(Wrote(base, e, writes)) ==> Wrote(base, e, writes + [data])
    {
      hide Pack, HandedDown, Downlink, StreamCipher.Conn.Valid, WriteAll;
      var rest := data;
      ghost var all, end, done := PackAll(p, State(), data).0, PackAll(p, State(), data).1, [];
      assert done + all == all;
      assert forall frames: seq<Bytes> :: frames + done == frames;
      while |rest| > 0
        invariant Valid()
        invariant done + PackAll(p, State(), rest).0 == all && PackAll(p, State(), rest).1 == end
        invariant forall base, frames :: old(HandedDown(base, frames)) ==> HandedDown(base, frames + done)
        decreases |rest|
      {
        var n := |rest|;
        if n > 8000 { n := 8000; }
        ghost var w, tail := Pack(p, State(), rest[..n]).0, PackAll(p, Pack(p, State(), rest[..n]).1, rest[n..]).0;
        assert done + ([w] + tail) == (done + [w]) + tail;
        assert forall frames: seq<Bytes> :: (frames + done) + [w] == frames + (done + [w]);
        WriteChunk(rest[..n]);
        done := done + [w];
        rest := rest[n..];
      }
      assert done + [] == done;
      forall base, e, writes | old(Wrote(base, e, writes)) ensures Wrote(base, e, writes + [data]) {
        WriteAllSnoc(p, e, writes, data);
        PackAllDownlink(p, old(State()), data);
        ghost var ws := WriteAll(p, e, writes).0;
        assert old(HandedDown(base, ws));
        assert WriteAll(p, e, writes + [data]).0 == ws + all;
        assert HandedDown(base, ws + done);
      }
    }
  }

  lemma OneMoreFrame(pad: StreamCipher.Pad, iv: Bytes, base: Bytes, frames: seq<Bytes>, w: Bytes)
    ensures var hist := Flatten(StreamCipher.EncipherAll(pad, iv, [], frames));
            var c := StreamCipher.Encipher(pad, iv, hist, w);
            && (base + Sent(pad, iv, frames)) + TlsTicket.Wrap(c) == base + Sent(pad, iv, frames + [w])
            && Flatten(StreamCipher.EncipherAll(pad, iv, [], frames + [w])) == hist + c
            && (frames == [] ==> hist == [] && Sent(pad, iv, frames) == TlsTicket.Wrap(iv))
  {
    hide Sent, Flatten, StreamCipher.EncipherAll, StreamCipher.Encipher;
    SentSnoc(pad, iv, frames, w);
    if frames == [] {
      NothingSent(pad, iv);
      FlattenNil<byte>();
    }
  }

  /** Before the IV is known nothing has accumulated, and the header step does not look at it. */
  lemma HeaderNeedsIV(p: Params, iv: Bytes, s: Session, b: Bytes)
    ensures b == [] ==> HeaderStep(p, iv, s, b) == HeaderStep(p, [], s, b) == More(s)
    ensures HeaderStep(p, iv, s, b).Frame? ==>
      HeaderStep(p, iv, s, b).next.gotHdr && HeaderStep(p, iv, s, b).next.crashed == s.crashed
  {
  }

  lemma FrameKeeps(p: Params, iv: Bytes, s: Session, b: Bytes)
    requires !s.crashed
    ensures var o := DataStep(p, s, b); o.next.gotHdr == s.gotHdr && (o.Frame? ==> !o.next.crashed)
  {
  }

  lemma {:induction false} CrashIsReported(p: Params, iv: Bytes, s: Session, b: Bytes)
    requires !s.crashed
    ensures var q := Run(Decode(p, iv), s, b); q.state.crashed ==> q.error == Some(Crash)
    decreases |b|
  {
    hide HeaderStep, DataStep;
    DecodeIsStable(p, iv);
    RunUnfold(Decode(p, iv), s, b);
    OnlyCrashCrashes(p, iv, s, b);
    match Step(p, iv, s, b)
    case More(_) =>
    case Fail(_, _) =>
    case Frame(s', used, _) => CrashIsReported(p, iv, s', b[used..]);
  }

  lemma OnlyCrashCrashes(p: Params, iv: Bytes, s: Session, b: Bytes)
    requires !s.crashed
    ensures var o := Step(p, iv, s, b); o.next.crashed ==> o.Fail? && o.error == Crash
  {
  }

  // ---- the whole stack ----

  /** End to end: for every run of writes that writes something, every fragmentation of the wire and every
      way of cutting the tunnelled stream into reads after the IV, the receiving stack yields exactly the
      written bytes, and both ends stay in lockstep. */
  lemma EndToEnd(p: Params, pad: StreamCipher.Pad, iv: Bytes, e: Session, d: Session, writes: seq<Bytes>,
                 pieces: seq<Bytes>)
    requires Mirrors(d, e)
    requires pieces != [] && Flatten(pieces) == Sent(pad, iv, WriteAll(p, e, writes).0)
    ensures var tunnel := FeedAll(TlsTicket.Records(), Decoder((), [], [], None), pieces).out;
            && |tunnel| >= |iv| && tunnel[..|iv|] == iv
            && forall cuts: seq<Bytes> | cuts != [] && Flatten(cuts) == tunnel[|iv|..] ::
                 var plain := StreamCipher.DecipherAll(pad, iv, [], cuts);
                 var q := FeedAll(Decode(p, iv), Decoder(d, [], [], None), plain);
                 && q.out == Flatten(writes)
                 && q.acc == [] && q.error == None && Mirrors(q.state, WriteAll(p, e, writes).1)
  {
    hide WriteAll, Mirrors, Run, StreamCipher.DecipherAll, Sent, Decode;
    Through(pad, iv, WriteAll(p, e, writes).0, pieces);
    var tunnel := FeedAll(TlsTicket.Records(), Decoder((), [], [], None), pieces).out;
    forall cuts: seq<Bytes> | cuts != [] && Flatten(cuts) == tunnel[|iv|..]
      ensures var q := FeedAll(Decode(p, iv), Decoder(d, [], [], None), StreamCipher.DecipherAll(pad, iv, [], cuts));
              && q.out == Flatten(writes)
              && q.acc == [] && q.error == None && Mirrors(q.state, WriteAll(p, e, writes).1)
    {
      AesRoundTrip(p, iv, e, d, writes, StreamCipher.DecipherAll(pad, iv, [], cuts));
    }
  }

  /** Stack to stack: whatever one end has written since its chain was `e`, the other end, if it starts in
      lockstep and is sent those bytes in any fragments, holds for its reader. */
  lemma WrittenIsDelivered(a: Conn, base: Bytes, e: Session, writes: seq<Bytes>, c: Conn)
    requires a.Wrote(base, e, writes) && Flatten(writes) != []
    requires c.Valid() && c.acc == [] && c.rbuf == [] && c.sc.readIV.None?
    requires c.sc.conn.sentHello && c.sc.conn.raw == [] && c.sc.conn.dec == []
    requires c.p == a.p && c.sc.pad == a.sc.pad && c.sc.ivSize == |a.sc.freshIV| && Mirrors(c.State(), e)
    requires base + c.sc.conn.sock.Coming() == a.sc.conn.sock.sent
    ensures c.Pending() == Flatten(writes)
  {
    hide WriteAll, Sent, Mirrors, Downlink, Run, Decode, StreamCipher.EncipherAll, StreamCipher.Decipher, TlsTicket.Payload;
    var frames := WriteAll(a.p, e, writes).0;
    FramesIff(a.p, e, writes);
    var iv, pad := a.sc.freshIV, a.sc.pad;
    var wire := Sent(pad, iv, frames);
    var coming := c.sc.conn.sock.Coming();
    assert coming == (base + coming)[|base|..] == wire;
    SentPayload(pad, iv, frames);
    StreamCipher.DecipherWrites(pad, iv, [], frames);
    WritesRoundTrip(a.p, iv, e, c.State(), writes);
    var cs := StreamCipher.EncipherAll(pad, iv, [], frames);
    assert (iv + Flatten(cs))[..|iv|] == iv && (iv + Flatten(cs))[|iv|..] == Flatten(cs);
    var none: Bytes := [];
    assert none + coming == coming && none + TlsTicket.Payload(coming) == TlsTicket.Payload(coming);
    assert c.sc.conn.Pending() == iv + Flatten(cs);
    assert c.sc.Pending() == Flatten(frames);
    assert none + c.sc.Pending() == c.sc.Pending();
    assert none + Flatten(writes) == Flatten(writes);
  }
}
