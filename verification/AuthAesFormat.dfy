/** What auth_aes128 looks like on the wire: which headers are accepted and for whom, and which bytes are a
    frame of which data (common/ssr/protocol.go). */
module AuthAesFormat {
  import opened Octets
  import opened Incremental
  import opened AuthAes

  // ---- the header ----

  /** The header that the client of a user sends: a byte of its choice and its MAC, its user id and the auth
      block with their MAC, random bytes, the first data, and the MAC of it all under the user's key. */
  function ClientHeader(p: Params, iv: Bytes, head: byte, uid: u32, userKey: Bytes, block: Bytes, rnd: Bytes, data: Bytes): (r: Bytes)
    requires |block| == 16
    ensures |r| == 35 + |rnd| + |data|
  {
    var macKey := iv + p.cipherKey;
    var id := PutLE32(uid);
    var front := [head] + p.hmac(macKey, [head])[..6] + id + block + p.hmac(macKey, id + block)[..4] + rnd + data;
    front + p.hmac(userKey, front)[..4]
  }

  /** The block says how long the header is and how many random bytes it has. */
  predicate BlockSays(p: Params, userKey: Bytes, block: Bytes, packed: nat, random: nat) {
    var dec := p.authBlock(userKey, block);
    Value(dec[12..14]) == packed && Value(dec[14..16]) == random
  }

  /** A user's header is accepted, for that user, and its first data delivered, whatever the random bytes and
      what follows. */
  lemma HeaderAccepted(p: Params, iv: Bytes, s: Session, head: byte, uid: u32, userKey: Bytes, uuid: string,
                       block: Bytes, rnd: Bytes, data: Bytes, rest: Bytes)
    requires |block| == 16 && p.lookup(uid) == Some((userKey, uuid))
    requires BlockSays(p, userKey, block, 35 + |rnd| + |data|, |rnd|)
    ensures var w := ClientHeader(p, iv, head, uid, userKey, block, rnd, data);
            HeaderStep(p, iv, s, w + rest)
            == Frame(s.(userKey := userKey, uuid := uuid, recvID := 1, gotHdr := true), |w|, data)
  {
    hide LE16, LE32, PutLE32, Value;
    var macKey, id := iv + p.cipherKey, PutLE32(uid);
    var w := ClientHeader(p, iv, head, uid, userKey, block, rnd, data);
    var b, n := w + rest, |w|;
    assert b[..1] == [head] && b[1..7] == p.hmac(macKey, [head])[..6];
    assert b[7..11] == id && b[11..27] == block && b[7..27] == id + block;
    assert b[27..31] == p.hmac(macKey, id + block)[..4];
    assert b[31 + |rnd|..n - 4] == data;
    assert b[..n - 4] == w[..n - 4] && b[n - 4..n] == w[n - 4..n];
    assert w[n - 4..n] == p.hmac(userKey, w[..n - 4])[..4] by {
      var front := [head] + p.hmac(macKey, [head])[..6] + id + block + p.hmac(macKey, id + block)[..4] + rnd + data;
      assert w[..n - 4] == front;
    }
    LittleEndianPut(uid, 0);
    var dec := p.authBlock(userKey, block);
    LittleEndian16(dec[12..14]);
    LittleEndian16(dec[14..16]);
  }

  /** These are the only headers that are accepted. */
  lemma HeaderAcceptedIff(p: Params, iv: Bytes, s: Session, b: Bytes)
    requires |b| >= 31
    ensures HeaderStep(p, iv, s, b).Frame?
       <==> exists uid: u32, userKey, uuid, rnd, data ::
              && p.lookup(uid) == Some((userKey, uuid)) && BlockSays(p, userKey, b[11..27], 35 + |rnd| + |data|, |rnd|)
              && ClientHeader(p, iv, b[0], uid, userKey, b[11..27], rnd, data) <= b
  {
    hide LE16, LE32, PutLE32, Value, ClientHeader, BlockSays;
    if HeaderStep(p, iv, s, b).Frame? { AcceptedIsHeader(p, iv, s, b); }
    if uid: u32, userKey, uuid, rnd, data :|
      && p.lookup(uid) == Some((userKey, uuid)) && BlockSays(p, userKey, b[11..27], 35 + |rnd| + |data|, |rnd|)
      && ClientHeader(p, iv, b[0], uid, userKey, b[11..27], rnd, data) <= b
    {
      var w := ClientHeader(p, iv, b[0], uid, userKey, b[11..27], rnd, data);
      HeaderAccepted(p, iv, s, b[0], uid, userKey, uuid, b[11..27], rnd, data, b[|w|..]);
      assert w + b[|w|..] == b;
    }
  }

  /** Why a header is rejected, in the order of the checks: the MAC of its first byte, an unknown user, the MAC
      of id and block, lengths that do not fit, and, once it is complete, the MAC of it all. */
  lemma HeaderErrors(p: Params, iv: Bytes, s: Session, b: Bytes)
    requires |b| >= 31
    ensures var macKey, user := iv + p.cipherKey, p.lookup(Value32(b[7..11]));
            var o := HeaderStep(p, iv, s, b);
            var first := p.hmac(macKey, b[..1])[..6] == b[1..7];
            var second := first && user.Some? && p.hmac(macKey, b[7..27])[..4] == b[27..31];
            && (o.Fail? && o.error == HeadMacMismatch <==> !first)
            && (o.Fail? && o.error == UnknownUser <==> first && user.None?)
            && (o.Fail? && o.error == AuthMacMismatch <==> first && user.Some? && !second)
            && (second ==>
                  var dec := p.authBlock(user.value.0, b[11..27]);
                  var packed, random := Value(dec[12..14]), Value(dec[14..16]);
                  && (o.Fail? && o.error == BadPackedLength <==> packed < 35 + random)
                  && (o.More? <==> 35 + random <= packed && |b| < packed)
                  && (o.Fail? && o.error == FinalMacMismatch
                      <==> 35 + random <= packed <= |b| && p.hmac(user.value.0, b[..packed - 4])[..4] != b[packed - 4..packed]))
  {
    hide LE16, LE32, Value;
    LittleEndian32(b[7..11]);
    var user := p.lookup(LE32(b[7..11]));
    if user.Some? {
      var dec := p.authBlock(user.value.0, b[11..27]);
      LittleEndian16(dec[12..14]);
      LittleEndian16(dec[14..16]);
    }
  }

  lemma AcceptedIsHeader(p: Params, iv: Bytes, s: Session, b: Bytes)
    requires |b| >= 31 && HeaderStep(p, iv, s, b).Frame?
    ensures exists uid: u32, userKey, uuid, rnd, data ::
              && p.lookup(uid) == Some((userKey, uuid)) && BlockSays(p, userKey, b[11..27], 35 + |rnd| + |data|, |rnd|)
              && ClientHeader(p, iv, b[0], uid, userKey, b[11..27], rnd, data) <= b
  {
    hide LE16, LE32, PutLE32, Value;
    var uid := LE32(b[7..11]);
    var (userKey, uuid) := p.lookup(uid).value;
    var dec := p.authBlock(userKey, b[11..27]);
    var packed: nat, random: nat := LE16(dec[12..14]), LE16(dec[14..16]);
    LittleEndian16(dec[12..14]);
    LittleEndian16(dec[14..16]);
    var rnd, data := b[31..31 + random], b[31 + random..packed - 4];
    LittleEndianBack(b[7..11]);
    var front := b[..packed - 4];
    var macKey := iv + p.cipherKey;
    assert b[..1] == [b[0]] && b[7..27] == b[7..11] + b[11..27];
    assert front == [b[0]] + b[1..7] + b[7..11] + b[11..27] + b[27..31] + rnd + data;
    assert ClientHeader(p, iv, b[0], uid, userKey, b[11..27], rnd, data) == front + b[packed - 4..packed] == b[..packed];
    assert BlockSays(p, userKey, b[11..27], 35 + |rnd| + |data|, |rnd|);
  }

  /** The whole uplink from its first byte: a header with the first data and then any number of writes, in any
      fragments, is decoded to exactly those, for the user of the header. */
  lemma UplinkFromHeader(p: Params, iv: Bytes, s: Session, head: byte, uid: u32, userKey: Bytes, uuid: string,
                         block: Bytes, rnd: Bytes, data: Bytes, e: Session, writes: seq<Bytes>, pieces: seq<Bytes>)
    requires |block| == 16 && p.lookup(uid) == Some((userKey, uuid)) && !s.gotHdr && !s.crashed
    requires BlockSays(p, userKey, block, 35 + |rnd| + |data|, |rnd|)
    requires e.userKey == userKey && e.packID == 1 && pieces != []
    requires Flatten(pieces)
          == ClientHeader(p, iv, head, uid, userKey, block, rnd, data) + Flatten(WriteAll(p, e, writes).0)
    ensures var q := FeedAll(Decode(p, iv), Decoder(s, [], [], None), pieces);
            && q.out == data + Flatten(writes) && q.acc == [] && q.error == None
            && q.state.uuid == uuid && Mirrors(q.state, WriteAll(p, e, writes).1)
  {
    hide Run, WriteAll, HeaderStep, DataStep, ClientHeader;
    var w, rest := ClientHeader(p, iv, head, uid, userKey, block, rnd, data), Flatten(WriteAll(p, e, writes).0);
    var d := s.(userKey := userKey, uuid := uuid, recvID := 1, gotHdr := true);
    HeaderAccepted(p, iv, s, head, uid, userKey, uuid, block, rnd, data, rest);
    DecodeIsStable(p, iv);
    RunUnfold(Decode(p, iv), s, w + rest);
    assert (w + rest)[|w|..] == rest;
    WritesRoundTrip(p, iv, e, d, writes);
    RunKeepsDownlink(p, iv, d, rest);
    FragmentationIndependence(Decode(p, iv), Decoder(s, [], [], None), pieces);
    assert [] + Flatten(pieces) == Flatten(pieces);
  }

  // ---- frames ----

  /** How many bytes stand between the MAC of the length and the payload, as the frame itself says. */
  function PrefixLength(w: Bytes): nat
    requires |w| >= 7
  {
    if w[4] == 255 then Value(w[5..7]) else w[4]
  }

  /** `w` is a frame of `data` for this decoder: its length and the MAC of it, a prefix that says how long it
      is, the data, and the MAC of it all. */
  predicate Formatted(p: Params, s: Session, w: Bytes, data: Bytes) {
    && 7 <= |w| < 8192 && Value(w[..2]) == |w|
    && var macKey := s.userKey + PutLE32(s.recvID);
    && w[2..4] == p.hmac(macKey, w[..2])[..2] && w[|w| - 4..] == p.hmac(macKey, w[..|w| - 4])[..4]
    && 4 + PrefixLength(w) <= |w| - 4 && data == w[4 + PrefixLength(w)..|w| - 4]
  }

  lemma OffsetIs(b: Bytes)
    requires |b| >= 7
    ensures Offset(b) == 4 + PrefixLength(b)
  {
    LittleEndian16(b[5..7]);
  }

  /** Exactly such frames are decoded, to their data, whatever follows. */
  lemma DecodedIff(p: Params, iv: Bytes, s: Session, b: Bytes, n: nat, data: Bytes)
    requires s.gotHdr && !s.crashed && 4 < |b| && n <= |b|
    ensures Formatted(p, s, b[..n], data)
       <==> Step(p, iv, s, b) == Frame(s.(recvID := Inc32(s.recvID)), n, data)
  {
    hide LE16, PutLE32, Value, PrefixLength, Offset;
    LittleEndian16(b[..2]);
    if n >= 7 {
      var w := b[..n];
      assert w[..2] == b[..2] && w[2..4] == b[2..4] && w[..n - 4] == b[..n - 4] && w[n - 4..] == b[n - 4..n];
      OffsetIs(b);
      SamePrefix(b, n);
      if 4 + PrefixLength(b) <= n - 4 { assert w[4 + PrefixLength(b)..n - 4] == b[4 + PrefixLength(b)..n - 4]; }
    }
  }

  /** Why data is rejected: a length outside 7..8191, then the MAC of the length, then the MAC of it all; with
      the frame incomplete nothing is decided. */
  lemma DataErrors(p: Params, iv: Bytes, s: Session, b: Bytes)
    requires s.gotHdr && !s.crashed && |b| > 4
    ensures var n, macKey := Value(b[..2]), s.userKey + PutLE32(s.recvID);
            var o := Step(p, iv, s, b);
            && (o.Fail? && o.error == BadDataLength <==> n < 7 || n >= 8192)
            && (o.More? <==> 7 <= n < 8192 && n > |b|)
            && (o.Fail? && o.error == LengthMacMismatch
                <==> 7 <= n < 8192 && n <= |b| && p.hmac(macKey, b[..2])[..2] != b[2..4])
            && (o.Fail? && o.error == DataMacMismatch
                <==> 7 <= n < 8192 && n <= |b| && p.hmac(macKey, b[..2])[..2] == b[2..4]
                     && p.hmac(macKey, b[..n - 4])[..4] != b[n - 4..n])
  {
    hide LE16, PutLE32, Value, Offset;
    LittleEndian16(b[..2]);
  }

  lemma SamePrefix(b: Bytes, n: nat)
    requires 7 <= n <= |b|
    ensures PrefixLength(b[..n]) == PrefixLength(b)
  {
    assert b[..n][5..7] == b[5..7];
  }

  /** A prefix that says how long it is: in its first byte, or behind the byte 255 in two more. */
  predicate Prefix(pre: Bytes) {
    || (1 <= |pre| < 255 && pre[0] == |pre|)
    || (3 <= |pre| && pre[0] == 255 && Value(pre[1..3]) == |pre|)
  }

  /** A frame built with any such prefix, whatever random bytes fill it, is decoded to its data. */
  lemma AnyPrefixDecodes(p: Params, iv: Bytes, s: Session, len: Bytes, pre: Bytes, data: Bytes, rest: Bytes)
    requires s.gotHdr && !s.crashed && Prefix(pre)
    requires |len| == 2 && Value(len) == 8 + |pre| + |data| < 8192
    ensures var macKey := s.userKey + PutLE32(s.recvID);
            var body := len + p.hmac(macKey, len)[..2] + pre + data;
            var w := body + p.hmac(macKey, body)[..4];
            Step(p, iv, s, w + rest) == Frame(s.(recvID := Inc32(s.recvID)), |w|, data)
  {
    hide LE16, PutLE32, Value, Step;
    var macKey := s.userKey + PutLE32(s.recvID);
    var body := len + p.hmac(macKey, len)[..2] + pre + data;
    var w := body + p.hmac(macKey, body)[..4];
    assert w[..2] == len && w[2..4] == p.hmac(macKey, len)[..2] && w[..|w| - 4] == body;
    assert w[4] == pre[0] && w[4 + |pre|..|w| - 4] == data;
    if |pre| >= 3 { assert w[5..7] == pre[1..3]; }
    assert (w + rest)[..|w|] == w;
    DecodedIff(p, iv, s, w + rest, |w|, data);
  }

  /** What writeChunk writes is such a frame, with the prefix [1]. */
  lemma PackIsFormatted(p: Params, e: Session, d: Session, data: Bytes)
    requires Mirrors(d, e) && |data| <= 8000
    ensures var (w, e') := Pack(p, e, data);
            Formatted(p, d, w, data) && w[4] == 1 && e' == e.(packID := Inc32(e.packID))
  {
    hide Step;
    FrameRoundTrip(p, [], e, d, data);
    var w := Pack(p, e, data).0;
    DecodedIff(p, [], d, w, |w|, data);
    assert w[..|w|] == w;
  }

  /** A write is cut into chunks of 8000 bytes. */
  lemma {:induction false} ChunkCount(p: Params, s: Session, data: Bytes)
    ensures |PackAll(p, s, data).0| == Chunks(|data|, 8000)
    decreases |data|
  {
    hide Pack, Chunks;
    if data == [] {
      assert Chunks(0, 8000) == 0 by { NoChunks(8000); }
    } else {
      ChunkLess(|data|, 8000);
      var n := Min(|data|, 8000);
      ChunkCount(p, Pack(p, s, data[..n]).1, data[n..]);
      if n == |data| { assert Chunks(0, 8000) == 0 by { NoChunks(8000); } }
    }
  }
}
