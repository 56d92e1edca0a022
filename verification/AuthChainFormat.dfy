/** What auth_chain_a and auth_chain_b look like on the wire: which headers are accepted and for whom, and
    which bytes are a frame of which data (common/ssr/authchain.go). */
module AuthChainFormat {
  import opened Octets
  import opened XorShift
  import opened Padding
  import opened Incremental
  import opened AuthChain
  import opened AuthChainProofs

  // ---- the header ----

  /** The hash that a client's chain starts from. */
  function FirstHash(p: Params, iv: Bytes, head: Bytes): Hash { p.hmac(iv + p.cipherKey, head) }

  /** The user id, masked with the hash. */
  function MaskedId(p: Params, iv: Bytes, head: Bytes, uid: u32): Bytes {
    PutLE32(Xor32(uid, LE32(FirstHash(p, iv, head)[8..12])))
  }

  /** The header that the client of a user sends: four bytes of its choice and their MAC, its masked user id,
      the auth block, and the MAC of both. */
  function ClientHeader(p: Params, iv: Bytes, head: Bytes, uid: u32, userKey: Bytes, block: Bytes): (r: Bytes)
    requires |head| == 4 && |block| == 16
    ensures |r| == 36
  {
    var id := MaskedId(p, iv, head, uid);
    head + FirstHash(p, iv, head)[..8] + id + block + p.hmac(userKey, id + block)[..4]
  }

  function BlockOverhead(p: Params, s: Session, userKey: Bytes, block: Bytes): nat {
    var ov := Value(p.authBlock(userKey, block)[12..14]);
    if ov < 256 then ov else s.overhead
  }

  /** The session of that user, both chains at their start. */
  function Greeted(p: Params, iv: Bytes, s: Session, head: Bytes, uid: u32, userKey: Bytes, uuid: string, block: Bytes): Session {
    var h := FirstHash(p, iv, head);
    s.(gotHdr := true, uuid := uuid, userKey := userKey, rkey := p.sessionKey(userKey, h),
       overhead := BlockOverhead(p, s, userKey, block),
       clientHash := h, recvID := 1, decPos := 0,
       serverHash := p.hmac(userKey, MaskedId(p, iv, head, uid) + block), packID := 1, encPos := 0)
  }

  /** A user's header is accepted, for that user, with its keys and the overhead of its block, whatever
      follows. */
  lemma HeaderAccepted(p: Params, iv: Bytes, s: Session, head: Bytes, uid: u32, userKey: Bytes, uuid: string,
                       block: Bytes, rest: Bytes)
    requires |head| == 4 && |block| == 16 && p.lookup(uid) == Some((userKey, uuid))
    ensures HeaderStep(p, iv, s, ClientHeader(p, iv, head, uid, userKey, block) + rest)
         == Frame(Greeted(p, iv, s, head, uid, userKey, uuid, block), 36, [])
  {
    hide LE16, LE32, PutLE32, Xor32, Value;
    var h, id := FirstHash(p, iv, head), MaskedId(p, iv, head, uid);
    var b := ClientHeader(p, iv, head, uid, userKey, block) + rest;
    assert b[..4] == head && b[4..12] == h[..8] && b[12..16] == id && b[16..32] == block;
    assert b[12..32] == id + block && b[32..36] == p.hmac(userKey, id + block)[..4];
    LittleEndianPut(Xor32(uid, LE32(h[8..12])), 0);
    Xor32Involution(uid, LE32(h[8..12]));
    LittleEndian16(p.authBlock(userKey, block)[12..14]);
  }

  /** These are the only headers that are accepted. */
  lemma HeaderAcceptedIff(p: Params, iv: Bytes, s: Session, b: Bytes)
    requires |b| >= 36
    ensures HeaderStep(p, iv, s, b).Frame?
       <==> exists uid: u32, userKey, uuid ::
              p.lookup(uid) == Some((userKey, uuid)) && b[..36] == ClientHeader(p, iv, b[..4], uid, userKey, b[16..32])
    ensures !HeaderStep(p, iv, s, b).More?
  {
    hide LE16, LE32, PutLE32, Xor32;
    var h := FirstHash(p, iv, b[..4]);
    var mask := LE32(h[8..12]);
    var uid := Xor32(LE32(b[12..16]), mask);
    if HeaderStep(p, iv, s, b).Frame? {
      var (userKey, uuid) := p.lookup(uid).value;
      Xor32Involution(LE32(b[12..16]), mask);
      LittleEndianBack(b[12..16]);
      assert MaskedId(p, iv, b[..4], uid) == b[12..16];
      assert b[12..16] + b[16..32] == b[12..32];
      assert b[..36] == b[..4] + b[4..12] + b[12..16] + b[16..32] + b[32..36];
      assert p.lookup(uid) == Some((userKey, uuid)) && b[..36] == ClientHeader(p, iv, b[..4], uid, userKey, b[16..32]);
    }
    if uid', userKey, uuid :| p.lookup(uid') == Some((userKey, uuid))
                              && b[..36] == ClientHeader(p, iv, b[..4], uid', userKey, b[16..32]) {
      HeaderAccepted(p, iv, s, b[..4], uid', userKey, uuid, b[16..32], b[36..]);
      assert b[..36] + b[36..] == b;
    }
  }

  /** Why a header is rejected: its first MAC, then an unknown user, then the second MAC. */
  lemma HeaderErrors(p: Params, iv: Bytes, s: Session, b: Bytes)
    requires |b| >= 36
    ensures var h := FirstHash(p, iv, b[..4]);
            var user := p.lookup(Xor32(Value32(b[12..16]), Value32(h[8..12])));
            var o := HeaderStep(p, iv, s, b);
            && (o.Fail? && o.error == HeadMacMismatch <==> h[..8] != b[4..12])
            && (o.Fail? && o.error == UnknownUser <==> h[..8] == b[4..12] && user.None?)
            && (o.Fail? && o.error == ServerHashMismatch
                <==> h[..8] == b[4..12] && user.Some? && p.hmac(user.value.0, b[12..32])[..4] != b[32..36])
  {
    hide LE16, LE32, Value, Xor32;
    LittleEndian32(b[12..16]);
    LittleEndian32(FirstHash(p, iv, b[..4])[8..12]);
  }

  /** The client's own end after sending that header. */
  predicate ClientEnd(p: Params, iv: Bytes, e: Session, s: Session, head: Bytes, userKey: Bytes, block: Bytes) {
    && e.userKey == userKey && e.rkey == p.sessionKey(userKey, FirstHash(p, iv, head))
    && e.overhead == BlockOverhead(p, s, userKey, block)
    && e.serverHash == FirstHash(p, iv, head) && e.packID == 1 && e.encPos == 0
  }

  /** The whole uplink from its first byte: a header and then any number of writes, in any fragments, is
      decoded to exactly the writes, for the user of the header, and the ends stay mirrored. */
  lemma UplinkFromHeader(p: Params, iv: Bytes, s: Session, head: Bytes, uid: u32, userKey: Bytes, uuid: string,
                         block: Bytes, e: Session, writes: seq<Bytes>, pieces: seq<Bytes>)
    requires |head| == 4 && |block| == 16 && p.lookup(uid) == Some((userKey, uuid)) && !s.gotHdr
    requires ClientEnd(p, iv, e, s, head, userKey, block) && e.sentFirst
    requires pieces != []
    requires Flatten(pieces) == ClientHeader(p, iv, head, uid, userKey, block) + Flatten(WriteAll(p, e, writes).0)
    ensures var q := FeedAll(Decode(p, iv), Decoder(s, [], [], None), pieces);
            && q.out == Flatten(writes) && q.acc == [] && q.error == None
            && q.state.uuid == uuid && Mirrors(q.state, WriteAll(p, e, writes).1)
  {
    hide Run, WriteAll, HeaderStep, DataStep, ClientHeader, Greeted;
    var header, rest := ClientHeader(p, iv, head, uid, userKey, block), Flatten(WriteAll(p, e, writes).0);
    var d := Greeted(p, iv, s, head, uid, userKey, uuid, block);
    HeaderAccepted(p, iv, s, head, uid, userKey, uuid, block, rest);
    DecodeIsStable(p, iv);
    RunUnfold(Decode(p, iv), s, header + rest);
    assert (header + rest)[36..] == rest;
    GreetedMirrors(p, iv, s, head, uid, userKey, uuid, block, e);
    WritesRoundTrip(p, iv, e, d, writes);
    RunKeepsUser(p, iv, d, rest);
    FragmentationIndependence(Decode(p, iv), Decoder(s, [], [], None), pieces);
    assert [] + Flatten(pieces) == Flatten(pieces);
  }

  lemma GreetedMirrors(p: Params, iv: Bytes, s: Session, head: Bytes, uid: u32, userKey: Bytes, uuid: string,
                       block: Bytes, e: Session)
    requires ClientEnd(p, iv, e, s, head, userKey, block)
    ensures var d := Greeted(p, iv, s, head, uid, userKey, uuid, block); Mirrors(d, e) && d.gotHdr && d.uuid == uuid
  {
  }

  /** Data does not change whose session it is. */
  lemma RunKeepsUser(p: Params, iv: Bytes, s: Session, b: Bytes)
    requires s.gotHdr
    ensures Run(Decode(p, iv), s, b).state.uuid == s.uuid
  {
    RunKeepsDownlink(p, iv, s, b);
  }

  // ---- frames ----

  /** The padding of a frame of `n` data bytes and where in it the payload starts. */
  function Layout(p: Params, s: Session, n: nat): (int, nat) {
    RandLenBounds(p.scheme, s.overhead, n, s.clientHash, Prng(0, 0));
    var (pad, r) := RandLen(p.scheme, s.overhead, n, s.clientHash, Prng(0, 0));
    (pad, StartPos(pad, r).0)
  }

  /** The bytes of `data`, each under its byte of the keystream, stand at `at`. */
  predicate Carries(p: Params, key: Bytes, pos: nat, w: Bytes, at: nat, data: Bytes) {
    at + |data| <= |w| && forall i :: 0 <= i < |data| ==> w[at + i] == Xor8(data[i], p.rc4(key, pos + i))
  }

  /** The last two bytes are the MAC of the others under the user key and the packet id. */
  predicate Sealed(p: Params, userKey: Bytes, id: u32, w: Bytes) {
    |w| >= 2 && w[|w| - 2..] == p.hmac(userKey + PutLE32(id), w[..|w| - 2])[..2]
  }

  /** `w` is a frame of `data` for this decoder: the length masked with the last hash, the payload somewhere
      in padding of any content, and the MAC of it all. */
  predicate Formatted(p: Params, s: Session, w: Bytes, data: Bytes) {
    var (pad, sp) := Layout(p, s, |data|);
    && |data| < 0x1_0000 && pad >= sp && |w| == |data| + pad + 4
    && Value(w[..2]) == Xor16(|data|, Value16(s.clientHash[14..16]))
    && Carries(p, s.rkey, s.decPos, w, 2 + sp, data)
    && Sealed(p, s.userKey, s.recvID, w)
  }

  /** The decoder after a frame of `data`. */
  predicate Advanced(p: Params, s: Session, w: Bytes, data: Bytes, t: Session)
    requires |w| >= 2
  {
    t == s.(clientHash := p.hmac(s.userKey + PutLE32(s.recvID), w[..|w| - 2]), recvID := Inc32(s.recvID),
            decPos := s.decPos + |data|, randClient := t.randClient)
  }

  lemma LayoutAgrees(p: Params, s: Session, n: nat, r: Prng)
    ensures var (pad, q) := RandLen(p.scheme, s.overhead, n, s.clientHash, r);
            pad >= 0 && Layout(p, s, n) == (pad, StartPos(pad, q).0)
  {
    hide RandLen;
    RandLenBounds(p.scheme, s.overhead, n, s.clientHash, r);
    CarriedStateUnobserved(p.scheme, s.overhead, n, s.clientHash, r, Prng(0, 0));
    var (pad, q) := RandLen(p.scheme, s.overhead, n, s.clientHash, r);
    StartAgrees(pad, q, RandLen(p.scheme, s.overhead, n, s.clientHash, Prng(0, 0)).1);
  }

  /** A complete frame, given its length and padding. */
  lemma FinishIff(p: Params, s: Session, b: Bytes, n: nat, pad: nat, data: Bytes)
    requires 4 + n + pad <= |b| && |data| == n
    requires Carries(p, s.rkey, s.decPos, b, 2 + StartPos(pad, s.randClient).0, data)
    ensures var w, o := b[..n + pad + 4], FinishFrame(p, s, b, n, pad);
            && (Sealed(p, s.userKey, s.recvID, w) ==>
                  o.Frame? && o.used == n + pad + 4 && o.out == data && Advanced(p, s, w, data, o.next))
            && (!Sealed(p, s.userKey, s.recvID, w) ==> o.Fail?)
  {
    hide StartPos, PutLE32, Xor8, Rc4;
    var w := b[..n + pad + 4];
    assert w[n + pad + 2..] == b[n + pad + 2..n + pad + 4] && w[..n + pad + 2] == b[..n + pad + 2];
    var sp := if n > 0 then StartPos(pad, s.randClient).0 else 0;
    var c := b[2 + sp..2 + sp + n];
    Keystream(p, s.rkey, s.decPos, data, c);
  }

  lemma Keystream(p: Params, key: Bytes, pos: nat, data: Bytes, c: Bytes)
    requires |c| == |data| && forall i :: 0 <= i < |data| ==> c[i] == Xor8(data[i], p.rc4(key, pos + i))
    ensures Rc4(p, key, pos, c) == data
  {
    var r := Rc4(p, key, pos, c);
    forall i | 0 <= i < |data| ensures r[i] == data[i] {
      Xor8Involution(data[i], p.rc4(key, pos + i));
    }
  }

  /** Every such frame below the limit is decoded to its data, whatever its padding and what follows; only
      the loop does not look at four bytes, so that a frame without data and padding waits for a fifth. */
  lemma FormattedDecodes(p: Params, iv: Bytes, s: Session, w: Bytes, data: Bytes, rest: Bytes)
    requires s.gotHdr && Formatted(p, s, w, data) && |w| < 4100 && |w + rest| > 4
    ensures var o := Step(p, iv, s, w + rest);
            o.Frame? && o.used == |w| && o.out == data && Advanced(p, s, w, data, o.next)
  {
    hide RandLen, StartPos, Xor16, Value, LE16, FinishFrame, DataStep, Layout, Sealed, Advanced, Carries;
    var b, n := w + rest, |data|;
    LayoutAgrees(p, s, n, s.randClient);
    assert b[..2] == w[..2] && b[..|w|] == w;
    assert DataLength(s, b) == n by { Unmasked(w[..2], s.clientHash[14..16], n); }
    var (pad, r) := RandLen(p.scheme, s.overhead, n, s.clientHash, s.randClient);
    AttemptAt(p, s, b, n, pad, r);
    CarriesMore(p, s.rkey, s.decPos, w, rest, 2 + StartPos(pad, r).0, data);
    FinishIff(p, s.(randClient := r), b, n, pad, data);
    SameAdvance(p, s, r, w, data, FinishFrame(p, s.(randClient := r), b, n, pad).next);
  }

  lemma Unmasked(field: Bytes, mask: Bytes, n: u16)
    requires |field| == 2 && |mask| == 2
    ensures Value(field) == Xor16(n, Value16(mask)) <==> Xor16(LE16(field), LE16(mask)) == n
  {
    hide Xor16, LE16, Value;
    LittleEndian16(field);
    LittleEndian16(mask);
    Xor16Involution(n, LE16(mask));
    Xor16Involution(LE16(field), LE16(mask));
  }

  lemma CarriesMore(p: Params, key: Bytes, pos: nat, w: Bytes, rest: Bytes, at: nat, data: Bytes)
    requires at + |data| <= |w|
    ensures Carries(p, key, pos, w + rest, at, data) <==> Carries(p, key, pos, w, at, data)
  {
    hide Xor8;
    assert forall i :: 0 <= i < |w| ==> (w + rest)[i] == w[i];
  }

  /** The generator is not part of what a frame decides. */
  lemma SameAdvance(p: Params, s: Session, r: Prng, w: Bytes, data: Bytes, t: Session)
    requires |w| >= 2
    ensures Advanced(p, s.(randClient := r), w, data, t) <==> Advanced(p, s, w, data, t)
  {
    hide PutLE32;
  }

  /** And nothing else is decoded: what a step consumes is such a frame of what it yields. */
  lemma DecodedIsFormatted(p: Params, iv: Bytes, s: Session, b: Bytes)
    requires s.gotHdr && Step(p, iv, s, b).Frame?
    ensures var o := Step(p, iv, s, b);
            && 2 <= o.used <= |b| && o.used < 4100 && Formatted(p, s, b[..o.used], o.out)
            && Advanced(p, s, b[..o.used], o.out, o.next)
  {
    hide RandLen, StartPos, Xor16, Value, LE16, FinishFrame, DataStep, Layout, Rc4, Sealed, Advanced, Carries;
    if |b| <= 4 { TooShort(p, s, b); }
    var n := DataLength(s, b);
    var (pad, r) := RandLen(p.scheme, s.overhead, n, s.clientHash, s.randClient);
    LayoutAgrees(p, s, n, s.randClient);
    AttemptAt(p, s, b, n, pad, r);
    var sp := StartPos(pad, r).0;
    var data := Rc4(p, s.rkey, s.decPos, b[2 + sp..2 + sp + n]);
    Undo(p, s.rkey, s.decPos, b, 2 + sp, n);
    FinishIff(p, s.(randClient := r), b, n, pad, data);
    var w, rest := b[..n + pad + 4], b[n + pad + 4..];
    assert w + rest == b && w[..2] == b[..2];
    CarriesMore(p, s.rkey, s.decPos, w, rest, 2 + sp, data);
    Unmasked(w[..2], s.clientHash[14..16], n);
    SameAdvance(p, s, r, w, data, FinishFrame(p, s.(randClient := r), b, n, pad).next);
  }

  lemma Undo(p: Params, key: Bytes, pos: nat, b: Bytes, at: nat, n: nat)
    requires at + n <= |b|
    ensures Carries(p, key, pos, b, at, Rc4(p, key, pos, b[at..at + n]))
  {
    var c := b[at..at + n];
    forall i | 0 <= i < n ensures b[at + i] == Xor8(Rc4(p, key, pos, c)[i], p.rc4(key, pos + i)) {
      assert c[i] == b[at + i];
      Xor8Involution(c[i], p.rc4(key, pos + i));
    }
  }

  /** Why data is rejected: a frame of 4096 bytes or more, or its MAC; the check for a negative length never
      fires. */
  lemma DataErrors(p: Params, iv: Bytes, s: Session, b: Bytes)
    requires s.gotHdr && |b| > 4
    ensures var n := Xor16(Value16(b[..2]), Value16(s.clientHash[14..16]));
            var size := n + Layout(p, s, n).0;
            var o := Step(p, iv, s, b);
            && (o.Fail? && o.error == LengthError <==> size >= 4096)
            && (o.More? <==> size < 4096 && |b| < size + 4)
            && (o.Fail? && o.error == DataMacMismatch
                <==> size < 4096 && |b| >= size + 4 && !Sealed(p, s.userKey, s.recvID, b[..size + 4]))
            && (o.Fail? ==> o.error != BadLength)
  {
    hide RandLen, StartPos, Xor16, Value, LE16, FinishFrame, DataStep, Layout, Rc4, Sealed, Advanced, Carries;
    LittleEndian16(b[..2]);
    LittleEndian16(s.clientHash[14..16]);
    var n := DataLength(s, b);
    var (pad, r) := RandLen(p.scheme, s.overhead, n, s.clientHash, s.randClient);
    LayoutAgrees(p, s, n, s.randClient);
    AttemptAt(p, s, b, n, pad, r);
    if n + pad < 4096 && |b| >= n + pad + 4 {
      var sp := StartPos(pad, r).0;
      Undo(p, s.rkey, s.decPos, b, 2 + sp, n);
      FinishIff(p, s.(randClient := r), b, n, pad, Rc4(p, s.rkey, s.decPos, b[2 + sp..2 + sp + n]));
      FinishErrors(p, s.(randClient := r), b, n, pad);
    }
  }

  lemma FinishErrors(p: Params, s: Session, b: Bytes, n: nat, pad: nat)
    requires 4 + n + pad <= |b|
    ensures var o := FinishFrame(p, s, b, n, pad); o.Fail? ==> o.error == DataMacMismatch
  {
    hide StartPos, Rc4, PutLE32;
  }

  /** What packOne writes is such a frame, with zeros for padding, and its chain goes on from its MAC. */
  lemma PackIsFormatted(p: Params, e: Session, d: Session, data: Bytes)
    requires Mirrors(d, e) && |data| < 0x1_0000
    ensures var (w, e') := Pack(p, e, data);
            var (pad, sp) := Layout(p, d, |data|);
            && Formatted(p, d, w, data)
            && (forall i :: 2 <= i < |w| - 2 && !(2 + sp <= i < 2 + sp + |data|) ==> w[i] == 0)
            && e' == e.(serverHash := p.hmac(e.userKey + PutLE32(e.packID), w[..|w| - 2]), packID := Inc32(e.packID),
                        encPos := e.encPos + |data|, randServer := e'.randServer)
  {
    hide RandLen, StartPos, PutLE32, Xor16, Value, LE16, Layout, Carries, Body;
    LayoutAgrees(p, d, |data|, e.randServer);
    var body := Body(p, e, data).0;
    BodyBytes(p, e, data);
    var (w, e') := Pack(p, e, data);
    assert w[..|w| - 2] == body && w[|w| - 2..] == e'.serverHash[..2] && w[..2] == body[..2];
    LittleEndian16(d.clientHash[14..16]);
    CarriesMore(p, e.rkey, e.encPos, body, e'.serverHash[..2], 2 + Layout(p, d, |data|).1, data);
  }

  /** The bytes of a body, one by one. */
  lemma BodyBytes(p: Params, e: Session, data: Bytes)
    requires |data| < 0x1_0000
    ensures var (pad, r) := RandLen(p.scheme, e.overhead, |data|, e.serverHash, e.randServer);
            && pad >= 0
            && var sp, body := StartPos(pad, r).0, Body(p, e, data).0;
            && sp <= pad && |body| == 2 + |data| + pad && Value(body[..2]) == Xor16(|data|, LE16(e.serverHash[14..16]))
            && Carries(p, e.rkey, e.encPos, body, 2 + sp, data)
            && (forall i :: 2 <= i < |body| && !(2 + sp <= i < 2 + sp + |data|) ==> body[i] == 0)
  {
    hide RandLen, Xor16, LE16, PutLE16, Value, Xor8, Rc4;
    RandLenBounds(p.scheme, e.overhead, |data|, e.serverHash, e.randServer);
    var field := Xor16(|data|, LE16(e.serverHash[14..16]));
    LittleEndianPut(0, field);
    var body := Body(p, e, data).0;
    assert body[..2] == PutLE16(field);
    KeystreamBytes(p, e.rkey, e.encPos, data);
  }

  lemma KeystreamBytes(p: Params, key: Bytes, pos: nat, data: Bytes)
    ensures forall i :: 0 <= i < |data| ==> Rc4(p, key, pos, data)[i] == Xor8(data[i], p.rc4(key, pos + i))
  {
  }

  /** A write is cut into chunks of 2800 bytes: so many frames, and no byte of keystream unused. */
  lemma {:induction false} ChunkCount(p: Params, s: Session, data: Bytes)
    ensures var s' := PackAll(p, s, data).1;
            && s'.packID == (s.packID + Chunks(|data|, 2800)) % 0x1_0000_0000 && s'.encPos == s.encPos + |data|
    decreases |data|
  {
    hide Body, Chunks;
    if |data| > 0 { ChunkLess(|data|, 2800); }
    if |data| > 2800 {
      ChunkCount(p, Pack(p, s, data[..2800]).1, data[2800..]);
      Twice32(s.packID, Chunks(|data| - 2800, 2800));
    } else if data == [] {
      assert Chunks(0, 2800) == 0 by { NoChunks(2800); }
    }
  }

  lemma Twice32(x: u32, n: nat)
    ensures (Inc32(x) + n) % 0x1_0000_0000 == (x + (1 + n)) % 0x1_0000_0000
  {
    var y := x + 1;
    if y == 0x1_0000_0000 {
      assert (x + (1 + n)) == 0x1_0000_0000 + n;
    }
  }
}
