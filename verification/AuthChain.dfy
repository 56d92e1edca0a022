/** auth_chain_a and auth_chain_b: the frame codec as functions (common/ssr/authchain.go).
    HMAC-MD5, RC4, AES-CBC and the key derivations are parameters of which only determinism and the
    length of the result are used. */
module AuthChain {
  import opened Octets
  import opened XorShift
  import opened Padding
  import opened Incremental

  datatype Error =
    | HeadMacMismatch
    | UnknownUser
    | ServerHashMismatch
    | BadLength
    | LengthError
    | DataMacMismatch

  /** What a node fixes for all its connections. */
  datatype Params = Params(
    hmac: (Bytes, Bytes) -> Hash,
    rc4: (Bytes, nat) -> byte,                    // keystream byte at a position, by session key
    sessionKey: (Bytes, Bytes) -> Bytes,          // from the user key and the client hash
    authBlock: (Bytes, Bytes) -> Hash,            // the decrypted auth block, by user key
    lookup: u32 -> Option<(Bytes, string)>,       // user key and uuid of a user id
    cipherKey: Bytes,
    scheme: Scheme)

  /** One connection: the identity learnt from the header, the uplink chain, the downlink chain. */
  datatype Session = Session(
    gotHdr: bool, uuid: string, userKey: Bytes, rkey: Bytes, overhead: nat,
    clientHash: Hash, recvID: u32, decPos: nat, randClient: Prng,
    serverHash: Hash, packID: u32, encPos: nat, randServer: Prng, sentFirst: bool)

  /** A connection as `newAuthChain` leaves it. */
  const FRESH := Session(false, "", [], [], 4, Zeros(16), 0, 0, Prng(0, 0), Zeros(16), 0, 0, Prng(0, 0), false)

  /** RC4 from keystream position `pos`. */
  function Rc4(p: Params, key: Bytes, pos: nat, data: Bytes): (r: Bytes)
    ensures |r| == |data|
  {
    seq(|data|, i requires 0 <= i < |data| => Xor8(data[i], p.rc4(key, pos + i)))
  }

  lemma Rc4Involution(p: Params, key: Bytes, pos: nat, data: Bytes)
    ensures Rc4(p, key, pos, Rc4(p, key, pos, data)) == data
  {
    var r := Rc4(p, key, pos, Rc4(p, key, pos, data));
    forall i | 0 <= i < |data| ensures r[i] == data[i] {
      Xor8Involution(data[i], p.rc4(key, pos + i));
    }
  }

  // ---- uplink ----

  function HeaderStep(p: Params, iv: Bytes, s: Session, b: Bytes): Outcome<Session, Error> {
    if |b| < 36 then More(s) else
      var clientHash := p.hmac(iv + p.cipherKey, b[..4]);
      var s1 := s.(clientHash := clientHash);
      if clientHash[..8] != b[4..12] then Fail(s1, HeadMacMismatch) else
        match p.lookup(Xor32(LE32(b[12..16]), LE32(clientHash[8..12])))
        case None => Fail(s1, UnknownUser)
        case Some((userKey, uuid)) => AdoptUser(p, s1, b, userKey, uuid)
  }

  /** The user is known: take over its keys and overhead, and check the downlink hash. */
  function AdoptUser(p: Params, s: Session, b: Bytes, userKey: Bytes, uuid: string): Outcome<Session, Error>
    requires |b| >= 36
  {
    var overhead := LE16(p.authBlock(userKey, b[16..32])[12..14]);
    var serverHash := p.hmac(userKey, b[12..32]);
    var s1 := s.(userKey := userKey, uuid := uuid, rkey := p.sessionKey(userKey, s.clientHash),
                 decPos := 0, encPos := 0, serverHash := serverHash,
                 overhead := if overhead < 256 then overhead else s.overhead);
    if serverHash[..4] != b[32..36] then Fail(s1, ServerHashMismatch) else
      Frame(s1.(recvID := 1, packID := 1, gotHdr := true), 36, [])
  }

  /** Length of the data in the frame at the front of `b`, unmasked with the last hash. */
  function DataLength(s: Session, b: Bytes): u16
    requires |b| > 4
  {
    Xor16(LE16(b[..2]), LE16(s.clientHash[14..16]))
  }

  function DataStep(p: Params, s: Session, b: Bytes): Outcome<Session, Error> {
    if |b| <= 4 then More(s) else
      var dataLength := DataLength(s, b);
      var (randLen, r) := RandLen(p.scheme, s.overhead, dataLength, s.clientHash, s.randClient);
      var s1 := s.(randClient := r);
      var length := dataLength + randLen;
      if randLen < 0 then Fail(s1, BadLength)
      else if length >= 4096 then Fail(s1, LengthError)
      else if 4 + length > |b| then More(s1)
      else FinishFrame(p, s1, b, dataLength, randLen)
  }

  /** The frame is complete: check its HMAC, find the payload inside the padding and decrypt it. */
  function FinishFrame(p: Params, s: Session, b: Bytes, dataLength: nat, randLen: nat): Outcome<Session, Error>
    requires 4 + dataLength + randLen <= |b|
  {
    var length := dataLength + randLen;
    var h := p.hmac(s.userKey + PutLE32(s.recvID), b[..length + 2]);
    if h[..2] != b[length + 2..length + 4] then Fail(s, DataMacMismatch) else
      var (off, r) := if dataLength > 0 then StartPos(randLen, s.randClient) else (0, s.randClient);
      var payload := Rc4(p, s.rkey, s.decPos, b[2 + off..2 + off + dataLength]);
      Frame(s.(clientHash := h, randClient := r, recvID := Inc32(s.recvID), decPos := s.decPos + dataLength),
            length + 4, payload)
  }

  function Step(p: Params, iv: Bytes, s: Session, b: Bytes): Outcome<Session, Error> {
    if s.gotHdr then DataStep(p, s, b) else HeaderStep(p, iv, s, b)
  }

  function Decode(p: Params, iv: Bytes): Parser<Session, Error> {
    (s, b) => Step(p, iv, s, b)
  }

  // ---- downlink ----

  /** A frame without its HMAC, and the generator afterwards. */
  function Body(p: Params, s: Session, data: Bytes): (q: (Bytes, Prng)) {
    RandLenBounds(p.scheme, s.overhead, |data|, s.serverHash, s.randServer);
    var buf := Rc4(p, s.rkey, s.encPos, data);
    var (randLen, r) := RandLen(p.scheme, s.overhead, |data|, s.serverHash, s.randServer);
    var head := PutLE16(Xor16(|data| % 0x1_0000, LE16(s.serverHash[14..16])));
    if |data| == 0 then (head + Zeros(randLen), r)
    else if randLen > 0 then
      var (sp, r') := StartPos(randLen, r);
      (head + Zeros(sp) + buf + Zeros(randLen - sp), r')
    else (head + buf, r)
  }

  function Pack(p: Params, s: Session, data: Bytes): (Bytes, Session) {
    var (body, r) := Body(p, s, data);
    var h := p.hmac(s.userKey + PutLE32(s.packID), body);
    (body + h[..2],
     s.(serverHash := h, randServer := r, packID := Inc32(s.packID), encPos := s.encPos + |data|))
  }

  /** Split into chunks of at most 2800 bytes and frame each. */
  function PackAll(p: Params, s: Session, data: Bytes): (Bytes, Session)
    decreases |data|
  {
    if |data| > 2800 then
      var (w, s1) := Pack(p, s, data[..2800]);
      var (rest, s2) := PackAll(p, s1, data[2800..]);
      (w + rest, s2)
    else if |data| > 0 then Pack(p, s, data)
    else ([], s)
  }

  /** What one Write hands to the stream cipher. */
  function Write(p: Params, s: Session, data: Bytes): (Bytes, Session) {
    PackAll(p, s.(sentFirst := true), if s.sentFirst then data else [0, 0] + data)
  }

  function WriteAll(p: Params, s: Session, writes: seq<Bytes>): (seq<Bytes>, Session)
    decreases |writes|
  {
    if writes == [] then ([], s) else
      var (w, s1) := Write(p, s, writes[0]);
      var (ws, s2) := WriteAll(p, s1, writes[1..]);
      ([w] + ws, s2)
  }

  /** The part of a session that writing depends on; the decoder's own fields are blanked. */
  function Downlink(s: Session): Session {
    s.(clientHash := Zeros(16), recvID := 0, decPos := 0, randClient := Prng(0, 0))
  }

  /** The two bytes that the peer strips off, if these writes include the connection's first. */
  function Preamble(s: Session, writes: seq<Bytes>): Bytes {
    if s.sentFirst || writes == [] then [] else [0, 0]
  }
}

/** Decoding auth_chain is independent of fragmentation and inverts encoding. */
module AuthChainProofs {
  import opened Octets
  import opened XorShift
  import opened Padding
  import opened Incremental
  import opened AuthChain

  lemma HeaderStable(p: Params, iv: Bytes, s: Session, b: Bytes, c: Bytes)
    requires !s.gotHdr
    ensures StableAt(Decode(p, iv), s, b, c)
  {
    if |b| >= 36 {
      SlicePrefix(b, c, 0, 4);
      SlicePrefix(b, c, 4, 12);
      SlicePrefix(b, c, 12, 16);
      SlicePrefix(b, c, 16, 32);
      SlicePrefix(b, c, 12, 32);
      SlicePrefix(b, c, 32, 36);
      assert HeaderStep(p, iv, s, b + c) == HeaderStep(p, iv, s, b);
      var s' := HeaderStep(p, iv, s, b).next;
      assert !s'.gotHdr ==> HeaderStep(p, iv, s', b + c) == HeaderStep(p, iv, s, b);
    }
  }

  lemma DataStable(p: Params, iv: Bytes, s: Session, b: Bytes, c: Bytes)
    requires s.gotHdr
    ensures StableAt(Decode(p, iv), s, b, c)
  {
    hide DataStep;
    if |b| > 4 {
      var dataLength := DataLength(s, b);
      var (randLen, r) := RandLen(p.scheme, s.overhead, dataLength, s.clientHash, s.randClient);
      AttemptAt(p, s, b, dataLength, randLen, r);
      assert DataLength(s, b + c) == dataLength by { SlicePrefix(b, c, 0, 2); }
      AttemptAt(p, s, b + c, dataLength, randLen, r);
      CarriedStateUnobserved(p.scheme, s.overhead, dataLength, s.clientHash, s.randClient, r);
      AttemptAt(p, s.(randClient := r), b + c, dataLength, randLen, r);
      if 0 <= randLen && dataLength + randLen + 4 <= |b| {
        FinishStable(p, s.(randClient := r), b, c, dataLength, randLen);
      }
      FinishKinds(p, s.(randClient := r), b, dataLength, randLen);
    } else {
      assert DataStep(p, s, b) == More(s) by { TooShort(p, s, b); }
    }
  }

  /** A data step is decided by the length field and the padding length it leads to. */
  lemma AttemptAt(p: Params, s: Session, b: Bytes, dataLength: u16, randLen: int, r: Prng)
    requires |b| > 4 && DataLength(s, b) == dataLength
    requires RandLen(p.scheme, s.overhead, dataLength, s.clientHash, s.randClient) == (randLen, r)
    ensures DataStep(p, s, b)
         == var s1 := s.(randClient := r);
            if randLen < 0 then Fail(s1, BadLength)
            else if dataLength + randLen >= 4096 then Fail(s1, LengthError)
            else if 4 + dataLength + randLen > |b| then More(s1)
            else FinishFrame(p, s1, b, dataLength, randLen)
  {
    hide RandLen, DataLength, FinishFrame;
  }

  lemma TooShort(p: Params, s: Session, b: Bytes)
    requires |b| <= 4
    ensures DataStep(p, s, b) == More(s)
  {
  }

  /** A complete frame is consumed whole or rejected without a trace. */
  lemma FinishKinds(p: Params, s: Session, b: Bytes, dataLength: nat, randLen: int)
    requires s.gotHdr
    ensures randLen >= 0 && 4 + dataLength + randLen <= |b| ==>
              var o := FinishFrame(p, s, b, dataLength, randLen);
              !o.More? && (o.Fail? ==> o.next == s) && (o.Frame? ==> o.used == dataLength + randLen + 4)
  {
  }

  lemma FinishStable(p: Params, s: Session, b: Bytes, c: Bytes, dataLength: nat, randLen: nat)
    requires 4 + dataLength + randLen <= |b|
    ensures FinishFrame(p, s, b + c, dataLength, randLen) == FinishFrame(p, s, b, dataLength, randLen)
  {
    hide Rc4, StartPos, PutLE32;
    var length := dataLength + randLen;
    SlicePrefix(b, c, 0, length + 2);
    SlicePrefix(b, c, length + 2, length + 4);
    var off := if dataLength > 0 then StartPos(randLen, s.randClient).0 else 0;
    SlicePrefix(b, c, 2 + off, 2 + off + dataLength);
  }

  /** Re-parsing a partial or rejected frame is harmless, so late bytes never change the past. */
  lemma DecodeIsStable(p: Params, iv: Bytes)
    ensures Stable(Decode(p, iv))
  {
    forall s, b, c ensures StableAt(Decode(p, iv), s, b, c) {
      if s.gotHdr { DataStable(p, iv, s, b, c); } else { HeaderStable(p, iv, s, b, c); }
    }
  }

  /** The decoder `d` expects exactly what the encoder `e` is about to send. */
  predicate Mirrors(d: Session, e: Session) {
    && d.gotHdr
    && d.userKey == e.userKey && d.rkey == e.rkey && d.overhead == e.overhead
    && d.clientHash == e.serverHash && d.recvID == e.packID && d.decPos == e.encPos
  }

  /** The shape of a frame body: masked length, then `sp` padding bytes, the ciphertext, and the rest
      of the padding. */
  lemma BodyShape(p: Params, e: Session, data: Bytes)
    requires 0 < |data| < 4096
    ensures var (body, r') := Body(p, e, data);
            var (randLen, r) := RandLen(p.scheme, e.overhead, |data|, e.serverHash, e.randServer);
            && 0 <= randLen && |data| + randLen < 4096
            && var (sp, r'') := StartPos(randLen, r);
            && |body| == 2 + |data| + randLen && r' == r''
            && body[..2] == PutLE16(Xor16(|data|, LE16(e.serverHash[14..16])))
            && body[2 + sp..2 + sp + |data|] == Rc4(p, e.rkey, e.encPos, data)
  {
    hide RandLen, Rc4, Xor16, LE16, PutLE16, StartPos, Zeros;
    RandLenBounds(p.scheme, e.overhead, |data|, e.serverHash, e.randServer);
    var (randLen, r) := RandLen(p.scheme, e.overhead, |data|, e.serverHash, e.randServer);
    var sp, buf := StartPos(randLen, r).0, Rc4(p, e.rkey, e.encPos, data);
    var head := PutLE16(Xor16(|data|, LE16(e.serverHash[14..16])));
    NoStart(r);
    Middle(head + Zeros(sp), buf, Zeros(randLen - sp));
    Middle(head, buf, []);
    assert head + buf + [] == head + buf;
  }

  lemma NoStart(r: Prng)
    ensures StartPos(0, r) == (0, r)
  {
  }

  lemma Middle(a: Bytes, b: Bytes, c: Bytes)
    ensures (a + b + c)[|a|..|a| + |b|] == b
    ensures |a| >= 2 ==> (a + b + c)[..2] == a[..2]
  {
  }

  /** One frame decodes to its data wherever it stands in the stream, and the chains stay mirrored. */
  lemma FrameRoundTrip(p: Params, iv: Bytes, e: Session, d: Session, data: Bytes)
    requires Mirrors(d, e) && 0 < |data| < 4096
    ensures var (w, e') := Pack(p, e, data);
            var o := Step(p, iv, d, w);
            o.Frame? && o.used == |w| && o.out == data && Mirrors(o.next, e')
  {
    hide RandLen, Rc4, Xor16, LE16, PutLE16, Body, StartPos;
    var (w, e') := Pack(p, e, data);
    var (body, _) := Body(p, e, data);
    BodyShape(p, e, data);
    assert w[..|body|] == body && w[|body|..|body| + 2] == e'.serverHash[..2];
    assert w[..2] == body[..2];
    Unmask(|data|, LE16(e.serverHash[14..16]));
    assert DataLength(d, w) == |data|;
    CarriedStateUnobserved(p.scheme, e.overhead, |data|, e.serverHash, e.randServer, d.randClient);
    var (randLen, r) := RandLen(p.scheme, d.overhead, |data|, d.clientHash, d.randClient);
    var off := StartPos(randLen, r).0;
    StartAgrees(randLen, r, RandLen(p.scheme, e.overhead, |data|, e.serverHash, e.randServer).1);
    assert w[2 + off..2 + off + |data|] == body[2 + off..2 + off + |data|];
    Rc4Involution(p, e.rkey, e.encPos, data);
  }

  lemma Unmask(x: u16, mask: u16)
    ensures Xor16(LE16(PutLE16(Xor16(x, mask))), mask) == x
  {
    hide Xor16;
    Xor16Involution(x, mask);
  }

  lemma StartAgrees(randLen: nat, r: Prng, r': Prng)
    requires randLen > 0 ==> r == r'
    ensures StartPos(randLen, r).0 == StartPos(randLen, r').0
  {
  }

  /** Decoding everything one PackAll produced. */
  lemma {:induction false} PackAllRoundTrip(p: Params, iv: Bytes, e: Session, d: Session, data: Bytes)
    requires Mirrors(d, e)
    ensures var (w, e') := PackAll(p, e, data);
            var q := Run(Decode(p, iv), d, w);
            q.out == data && q.acc == [] && q.error == None && Mirrors(q.state, e')
    decreases |data|
  {
    hide Pack, Step;
    var parse := Decode(p, iv);
    if |data| > 2800 {
      var (w, e1) := Pack(p, e, data[..2800]);
      SingleFrame(p, iv, e, d, data[..2800]);
      var q := Run(parse, d, w);
      var (rest, _) := PackAll(p, e1, data[2800..]);
      PackAllRoundTrip(p, iv, e1, q.state, data[2800..]);
      DecodeIsStable(p, iv);
      RunAppend(parse, d, w, rest);
      assert [] + rest == rest;
      assert data[..2800] + data[2800..] == data;
    } else if |data| > 0 {
      SingleFrame(p, iv, e, d, data);
    } else {
      assert Step(p, iv, d, []) == More(d) by { NothingYet(p, iv, d); }
    }
  }

  lemma NothingYet(p: Params, iv: Bytes, d: Session)
    ensures Step(p, iv, d, []) == More(d)
  {
  }

  lemma SingleFrame(p: Params, iv: Bytes, e: Session, d: Session, data: Bytes)
    requires Mirrors(d, e) && 0 < |data| < 4096
    ensures var (w, e') := Pack(p, e, data);
            var q := Run(Decode(p, iv), d, w);
            q.out == data && q.acc == [] && q.error == None && Mirrors(q.state, e')
  {
    hide Pack, Step;
    FrameRoundTrip(p, iv, e, d, data);
    var w := Pack(p, e, data).0;
    var d' := Step(p, iv, d, w).next;
    NothingYet(p, iv, d');
    DecodeIsStable(p, iv);
    assert StableAt(Decode(p, iv), d, w, []);
    assert w[|w|..] == [];
  }

  /** Decoding everything a run of Writes produced recovers the writes and leaves the chains mirrored. */
  lemma {:induction false} WritesRoundTrip(p: Params, iv: Bytes, e: Session, d: Session, writes: seq<Bytes>)
    requires Mirrors(d, e)
    ensures var (ws, e') := WriteAll(p, e, writes);
            var q := Run(Decode(p, iv), d, Flatten(ws));
            && q.out == Preamble(e, writes) + Flatten(writes)
            && q.acc == [] && q.error == None && Mirrors(q.state, e')
    decreases |writes|
  {
    hide Run, Write, Mirrors, Decode, Flatten;
    if writes == [] {
      EmptyRun(p, iv, d);
      FlattenNil<byte>();
    } else {
      var (w, e1) := Write(p, e, writes[0]);
      WriteRoundTrip(p, iv, e, d, writes[0]);
      var q := Run(Decode(p, iv), d, w);
      WritesRoundTrip(p, iv, e1, q.state, writes[1..]);
      var (ws, _) := WriteAll(p, e1, writes[1..]);
      DecodeIsStable(p, iv);
      RunOn(Decode(p, iv), d, w, Flatten(ws));
      FlattenCons(w, ws);
      FlattenCons(writes[0], writes[1..]);
      assert [writes[0]] + writes[1..] == writes;
    }
  }

  lemma EmptyRun(p: Params, iv: Bytes, d: Session)
    ensures Run(Decode(p, iv), d, []) == Decoder(d, [], [], None)
  {
    NothingYet(p, iv, d);
  }

  lemma WriteRoundTrip(p: Params, iv: Bytes, e: Session, d: Session, data: Bytes)
    requires Mirrors(d, e)
    ensures var (w, e') := Write(p, e, data);
            var q := Run(Decode(p, iv), d, w);
            && q.out == (if e.sentFirst then data else [0, 0] + data)
            && q.acc == [] && q.error == None && Mirrors(q.state, e') && e'.sentFirst
  {
    hide PackAll, Step, Run;
    var all := if e.sentFirst then data else [0, 0] + data;
    PackAllRoundTrip(p, iv, e.(sentFirst := true), d, all);
    KeepsSentFirst(p, e.(sentFirst := true), all);
  }

  lemma {:induction false} KeepsSentFirst(p: Params, s: Session, data: Bytes)
    ensures PackAll(p, s, data).1.sentFirst == s.sentFirst
    decreases |data|
  {
    hide Body;
    if |data| > 2800 {
      KeepsSentFirst(p, Pack(p, s, data[..2800]).1, data[2800..]);
    }
  }

  /** The round trip for every fragmentation of the wire. */
  lemma ChainRoundTrip(p: Params, iv: Bytes, e: Session, d: Session, writes: seq<Bytes>, pieces: seq<Bytes>)
    requires Mirrors(d, e) && pieces != []
    requires Flatten(pieces) == Flatten(WriteAll(p, e, writes).0)
    ensures var q := FeedAll(Decode(p, iv), Decoder(d, [], [], None), pieces);
            && q.out == Preamble(e, writes) + Flatten(writes)
            && q.acc == [] && q.error == None && Mirrors(q.state, WriteAll(p, e, writes).1)
  {
    hide Run, WriteAll, Decode, Mirrors;
    var start: Decoder<Session, Error> := Decoder(d, [], [], None);
    DecodeIsStable(p, iv);
    FragmentationIndependence(Decode(p, iv), start, pieces);
    WritesRoundTrip(p, iv, e, d, writes);
    assert [] + Flatten(pieces) == Flatten(pieces);
  }

  // ---- the two directions do not interfere ----

  lemma PackDownlink(p: Params, s: Session, data: Bytes)
    ensures Pack(p, Downlink(s), data) == (Pack(p, s, data).0, Downlink(Pack(p, s, data).1))
  {
    hide RandLen, Rc4, StartPos, LE16, PutLE16, PutLE32, Xor16, Zeros;
    assert Body(p, Downlink(s), data) == Body(p, s, data);
  }

  lemma {:induction false} PackAllDownlink(p: Params, s: Session, data: Bytes)
    ensures PackAll(p, Downlink(s), data) == (PackAll(p, s, data).0, Downlink(PackAll(p, s, data).1))
    decreases |data|
  {
    hide Pack, Downlink;
    PackDownlink(p, s, data);
    if |data| > 2800 {
      PackDownlink(p, s, data[..2800]);
      PackAllDownlink(p, Pack(p, s, data[..2800]).1, data[2800..]);
    }
  }

  /** What a Write sends does not depend on what has been read. */
  lemma WriteDownlink(p: Params, s: Session, data: Bytes)
    ensures Write(p, Downlink(s), data) == (Write(p, s, data).0, Downlink(Write(p, s, data).1))
  {
    hide PackAll;
    var all := if s.sentFirst then data else [0, 0] + data;
    PackAllDownlink(p, s.(sentFirst := true), all);
    assert Downlink(s).(sentFirst := true) == Downlink(s.(sentFirst := true));
  }

  lemma StepKeepsDownlink(p: Params, iv: Bytes, s: Session, b: Bytes)
    requires s.gotHdr
    ensures Downlink(Step(p, iv, s, b).next) == Downlink(s)
  {
    hide RandLen, Rc4, StartPos, LE16, PutLE32, Xor16, Zeros;
  }

  /** Decoding data leaves the encoder's chain alone. */
  lemma {:induction false} RunKeepsDownlink(p: Params, iv: Bytes, s: Session, b: Bytes)
    requires s.gotHdr
    ensures Downlink(Run(Decode(p, iv), s, b).state) == Downlink(s)
    decreases |b|
  {
    hide Step, Downlink;
    StepKeepsDownlink(p, iv, s, b);
    match Step(p, iv, s, b)
    case More(_) =>
    case Fail(_, _) =>
    case Frame(s', used, _) =>
      assert s'.gotHdr by { StillHeaded(s', s); }
      if 0 < used <= |b| { RunKeepsDownlink(p, iv, s', b[used..]); }
  }

  lemma StillHeaded(s': Session, s: Session)
    requires Downlink(s') == Downlink(s)
    ensures s'.gotHdr == s.gotHdr
  {
  }

  /** A run of writes seen from its end. */
  lemma {:induction false} WriteAllSnoc(p: Params, e: Session, writes: seq<Bytes>, data: Bytes)
    ensures var (ws, e1) := WriteAll(p, e, writes);
            var (w, e2) := Write(p, e1, data);
            WriteAll(p, e, writes + [data]) == (ws + [w], e2)
    decreases |writes|
  {
    hide Write;
    if writes == [] {
      assert writes + [data] == [data];
      var (w, e1) := Write(p, e, data);
      assert WriteAll(p, e1, []) == ([], e1);
      assert [w] + [] == [] + [w];
    } else {
      var (first, e1) := Write(p, e, writes[0]);
      assert (writes + [data])[1..] == writes[1..] + [data];
      WriteAllSnoc(p, e1, writes[1..], data);
      var (ws, e2) := WriteAll(p, e1, writes[1..]);
      assert [first] + (ws + [Write(p, e2, data).0]) == ([first] + ws) + [Write(p, e2, data).0];
    }
  }
}
