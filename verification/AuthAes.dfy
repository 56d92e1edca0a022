/** auth_aes128_sha1 and auth_aes128_md5: the frame codec (common/ssr/protocol.go). */
module AuthAes {
  import opened Octets
  import opened XorShift
  import opened Incremental

  datatype Error =
    | HeadMacMismatch
    | UnknownUser
    | AuthMacMismatch
    | BadPackedLength
    | FinalMacMismatch
    | BadDataLength
    | LengthMacMismatch
    | DataMacMismatch
    | Crash      // the payload offset lies past the end of the payload: a slice out of range

  /** HMAC-SHA1 gives twenty bytes, HMAC-MD5 sixteen. */
  type Mac = m: Bytes | |m| >= 16 witness Zeros(16)

  datatype Params = Params(
    hmac: (Bytes, Bytes) -> Mac,
    authBlock: (Bytes, Bytes) -> Hash,
    lookup: u32 -> Option<(Bytes, string)>,
    cipherKey: Bytes)

  datatype Session = Session(
    gotHdr: bool, uuid: string, userKey: Bytes, recvID: u32, packID: u32, crashed: bool)

  const FRESH := Session(false, "", [], 0, 1, false)

  function HeaderStep(p: Params, iv: Bytes, s: Session, b: Bytes): Outcome<Session, Error> {
    if |b| < 31 then More(s) else
      var macKey := iv + p.cipherKey;
      if p.hmac(macKey, b[..1])[..6] != b[1..7] then Fail(s, HeadMacMismatch) else
        match p.lookup(LE32(b[7..11]))
        case None => Fail(s, UnknownUser)
        case Some((userKey, uuid)) =>
          if p.hmac(macKey, b[7..27])[..4] != b[27..31] then Fail(s, AuthMacMismatch) else
            var dec := p.authBlock(userKey, b[11..27]);
            var packedLen: nat, randLen: nat := LE16(dec[12..14]), LE16(dec[14..16]);
            if packedLen < 31 + randLen + 4 then Fail(s, BadPackedLength)
            else if |b| < packedLen then More(s)
            else if p.hmac(userKey, b[..packedLen - 4])[..4] != b[packedLen - 4..packedLen] then
              Fail(s, FinalMacMismatch)
            else
              Frame(s.(userKey := userKey, uuid := uuid, recvID := 1, gotHdr := true),
                    packedLen, b[31 + randLen..packedLen - 4])
  }

  /** Where the payload of a frame starts. */
  function Offset(b: Bytes): nat
    requires |b| >= 7
  {
    if b[4] < 255 then b[4] as int + 4 else LE16(b[5..7]) as int + 4
  }

  function DataStep(p: Params, s: Session, b: Bytes): Outcome<Session, Error> {
    if |b| <= 4 then More(s) else
      var macKey := s.userKey + PutLE32(s.recvID);
      var length: nat := LE16(b[..2]);
      if length < 7 || length >= 8192 then Fail(s, BadDataLength)
      else if length > |b| then More(s)
      else if p.hmac(macKey, b[..2])[..2] != b[2..4] then Fail(s, LengthMacMismatch)
      else if p.hmac(macKey, b[..length - 4])[..4] != b[length - 4..length] then Fail(s, DataMacMismatch)
      else
        var s1 := s.(recvID := Inc32(s.recvID));
        if Offset(b) > length - 4 then Fail(s1.(crashed := true), Crash)
        else Frame(s1, length, b[Offset(b)..length - 4])
  }

  function Step(p: Params, iv: Bytes, s: Session, b: Bytes): Outcome<Session, Error> {
    if s.crashed then Fail(s, Crash)
    else if s.gotHdr then DataStep(p, s, b)
    else HeaderStep(p, iv, s, b)
  }

  function Decode(p: Params, iv: Bytes): Parser<Session, Error> {
    (s, b) => Step(p, iv, s, b)
  }

  /** One frame of at most 8000 payload bytes. */
  function Pack(p: Params, s: Session, data: Bytes): (Bytes, Session)
    requires |data| <= 8000
  {
    var macKey := s.userKey + PutLE32(s.packID);
    var len := PutLE16(9 + |data|);
    var body := len + p.hmac(macKey, len)[..2] + [1] + data;
    (body + p.hmac(macKey, body)[..4], s.(packID := Inc32(s.packID)))
  }

  /** The frames of one write, each handed down on its own. */
  function PackAll(p: Params, s: Session, data: Bytes): (seq<Bytes>, Session)
    decreases |data|
  {
    if data == [] then ([], s) else
      var n := Min(|data|, 8000);
      var (w, s1) := Pack(p, s, data[..n]);
      var (rest, s2) := PackAll(p, s1, data[n..]);
      ([w] + rest, s2)
  }

  function WriteAll(p: Params, s: Session, writes: seq<Bytes>): (seq<Bytes>, Session)
    decreases |writes|
  {
    if writes == [] then ([], s) else
      var (w, s1) := PackAll(p, s, writes[0]);
      var (ws, s2) := WriteAll(p, s1, writes[1..]);
      (w + ws, s2)
  }

  /** The part of a session that writing depends on; the decoder's own fields are blanked. */
  function Downlink(s: Session): Session { s.(recvID := 0, crashed := false) }

  // ---- fragmentation ----

  lemma HeaderStable(p: Params, iv: Bytes, s: Session, b: Bytes, c: Bytes)
    requires |b| >= 31
    ensures var o := HeaderStep(p, iv, s, b); !o.More? ==> HeaderStep(p, iv, s, b + c) == o
    ensures var o := HeaderStep(p, iv, s, b); !o.Frame? ==> o.next == s
  {
    hide LE16, LE32;
    SlicePrefix(b, c, 0, 1);
    SlicePrefix(b, c, 1, 7);
    SlicePrefix(b, c, 7, 11);
    SlicePrefix(b, c, 7, 27);
    SlicePrefix(b, c, 27, 31);
    SlicePrefix(b, c, 11, 27);
    match p.lookup(LE32(b[7..11]))
    case None =>
    case Some((userKey, _)) =>
      var dec := p.authBlock(userKey, b[11..27]);
      var packedLen: nat, randLen: nat := LE16(dec[12..14]), LE16(dec[14..16]);
      if 31 + randLen + 4 <= packedLen <= |b| {
        SlicePrefix(b, c, 0, packedLen - 4);
        SlicePrefix(b, c, packedLen - 4, packedLen);
        SlicePrefix(b, c, 31 + randLen, packedLen - 4);
      }
  }

  lemma DataStable(p: Params, s: Session, b: Bytes, c: Bytes)
    ensures var o := DataStep(p, s, b); !o.More? ==> DataStep(p, s, b + c) == o
    ensures var o := DataStep(p, s, b); o.More? || (o.Fail? && o.error != Crash) ==> o.next == s
    ensures var o := DataStep(p, s, b); o.Fail? && o.error == Crash ==> o.next.crashed
  {
    if |b| > 4 {
      hide LE16;
      SlicePrefix(b, c, 0, 2);
      SlicePrefix(b, c, 2, 4);
      var length: nat := LE16(b[..2]);
      if 7 <= length <= |b| {
        SlicePrefix(b, c, 0, length - 4);
        SlicePrefix(b, c, length - 4, length);
        SlicePrefix(b, c, 5, 7);
        if Offset(b) <= length - 4 {
          SlicePrefix(b, c, Offset(b), length - 4);
        }
      }
    }
  }

  /** Late bytes never change the past, for every byte stream, crashing ones included. */
  lemma DecodeIsStable(p: Params, iv: Bytes)
    ensures Stable(Decode(p, iv))
  {
    hide DataStep, HeaderStep;
    forall s, b, c ensures StableAt(Decode(p, iv), s, b, c) {
      if s.crashed {
      } else if s.gotHdr {
        DataStable(p, s, b, c);
        FrameFits(p, iv, s, b);
      } else {
        if |b| >= 31 { HeaderStable(p, iv, s, b, c); }
        FrameFits(p, iv, s, b);
      }
    }
  }

  lemma FrameFits(p: Params, iv: Bytes, s: Session, b: Bytes)
    ensures DataStep(p, s, b).Frame? ==> 0 < DataStep(p, s, b).used <= |b|
    ensures HeaderStep(p, iv, s, b).Frame? ==> 0 < HeaderStep(p, iv, s, b).used <= |b|
    ensures |b| < 31 ==> HeaderStep(p, iv, s, b) == More(s)
    ensures HeaderStep(p, iv, s, b).Frame? ==> HeaderStep(p, iv, s, b).next.gotHdr
  {
  }

  // ---- round trip ----

  predicate Mirrors(d: Session, e: Session) {
    d.gotHdr && !d.crashed && d.userKey == e.userKey && d.recvID == e.packID
  }

  lemma FrameRoundTrip(p: Params, iv: Bytes, e: Session, d: Session, data: Bytes)
    requires Mirrors(d, e) && |data| <= 8000
    ensures var (w, e') := Pack(p, e, data);
            var o := Step(p, iv, d, w);
            && o == Frame(d.(recvID := Inc32(d.recvID)), |w|, data)
            && |w| == 9 + |data| <= 8009 && Mirrors(o.next, e')
  {
    var (w, e') := Pack(p, e, data);
    var len, n := PutLE16(9 + |data|), |data|;
    assert w[..2] == len && LE16(len) == 9 + n;
    assert w[..n + 5] == len + p.hmac(e.userKey + PutLE32(e.packID), len)[..2] + [1] + data;
    assert w[4] == 1 && w[5..n + 5] == data;
  }

  lemma {:induction false} PackAllRoundTrip(p: Params, iv: Bytes, e: Session, d: Session, data: Bytes)
    requires Mirrors(d, e)
    ensures var (w, e') := PackAll(p, e, data);
            var q := Run(Decode(p, iv), d, Flatten(w));
            q.out == data && q.acc == [] && q.error == None && Mirrors(q.state, e')
    decreases |data|
  {
    hide Pack, Step, Flatten, Stable;
    FlattenNil<byte>();
    EmptyRun(p, iv, d);
    if data != [] {
      var n := Min(|data|, 8000);
      var (w, e1) := Pack(p, e, data[..n]);
      FrameRoundTrip(p, iv, e, d, data[..n]);
      var d1 := Step(p, iv, d, w).next;
      var (rest, _) := PackAll(p, e1, data[n..]);
      PackAllRoundTrip(p, iv, e1, d1, data[n..]);
      DecodeIsStable(p, iv);
      FlattenCons(w, rest);
      FirstFrame(p, iv, d, w, Flatten(rest));
      assert data == data[..n] + data[n..];
    }
  }

  /** A stream that starts with a complete frame. */
  lemma FirstFrame(p: Params, iv: Bytes, s: Session, w: Bytes, rest: Bytes)
    requires Step(p, iv, s, w).Frame? && Step(p, iv, s, w).used == |w|
    ensures var t := Run(Decode(p, iv), Step(p, iv, s, w).next, rest);
            Run(Decode(p, iv), s, w + rest) == t.(out := Step(p, iv, s, w).out + t.out)
  {
    hide Step;
    DecodeIsStable(p, iv);
    assert StableAt(Decode(p, iv), s, w, rest);
    assert (w + rest)[|w|..] == rest;
  }

  lemma EmptyRun(p: Params, iv: Bytes, d: Session)
    requires d.gotHdr && !d.crashed
    ensures Run(Decode(p, iv), d, []) == Decoder(d, [], [], None)
  {
  }

  lemma {:induction false} WritesRoundTrip(p: Params, iv: Bytes, e: Session, d: Session, writes: seq<Bytes>)
    requires Mirrors(d, e)
    ensures var (ws, e') := WriteAll(p, e, writes);
            var q := Run(Decode(p, iv), d, Flatten(ws));
            q.out == Flatten(writes) && q.acc == [] && q.error == None && Mirrors(q.state, e')
    decreases |writes|
  {
    hide PackAll, Run, Decode, Flatten, Mirrors;
    FlattenNil<byte>();
    if writes == [] {
      EmptyRun(p, iv, d) by { MirrorIsReady(d, e); }
    } else {
      var (w, e1) := PackAll(p, e, writes[0]);
      PackAllRoundTrip(p, iv, e, d, writes[0]);
      var q := Run(Decode(p, iv), d, Flatten(w));
      WritesRoundTrip(p, iv, e1, q.state, writes[1..]);
      var rest := WriteAll(p, e1, writes[1..]).0;
      DecodeIsStable(p, iv);
      RunOn(Decode(p, iv), d, Flatten(w), Flatten(rest));
      FlattenConcat(w, rest);
      FlattenCons(writes[0], writes[1..]);
      assert [writes[0]] + writes[1..] == writes;
    }
  }

  lemma MirrorIsReady(d: Session, e: Session)
    requires Mirrors(d, e)
    ensures d.gotHdr && !d.crashed
  {
  }

  /** decodeData inverts any run of Writes, in any fragmentation, with the ids in lockstep. */
  lemma AesRoundTrip(p: Params, iv: Bytes, e: Session, d: Session, writes: seq<Bytes>, pieces: seq<Bytes>)
    requires Mirrors(d, e) && pieces != [] && Flatten(pieces) == Flatten(WriteAll(p, e, writes).0)
    ensures var q := FeedAll(Decode(p, iv), Decoder(d, [], [], None), pieces);
            && q.out == Flatten(writes) && q.acc == [] && q.error == None
            && Mirrors(q.state, WriteAll(p, e, writes).1)
  {
    hide Run, WriteAll, Decode, Mirrors;
    var start: Decoder<Session, Error> := Decoder(d, [], [], None);
    DecodeIsStable(p, iv);
    FragmentationIndependence(Decode(p, iv), start, pieces);
    WritesRoundTrip(p, iv, e, d, writes);
    assert [] + Flatten(pieces) == Flatten(pieces);
  }

  // ---- when decoding panics ----

  /** The next bytes are a complete frame that passes both checks and has its payload offset past the end
      of its payload. */
  predicate Overruns(p: Params, s: Session, b: Bytes) {
    && s.gotHdr && !s.crashed && |b| > 4
    && var length: nat := LE16(b[..2]);
    && 7 <= length < 8192 && length <= |b|
    && var macKey := s.userKey + PutLE32(s.recvID);
    && p.hmac(macKey, b[..2])[..2] == b[2..4]
    && p.hmac(macKey, b[..length - 4])[..4] == b[length - 4..length]
    && Offset(b) > length - 4
  }

  lemma CrashStep(p: Params, iv: Bytes, s: Session, b: Bytes)
    requires !s.crashed
    ensures var o := Step(p, iv, s, b); o.Fail? && o.error == Crash <==> Overruns(p, s, b)
    ensures var o := Step(p, iv, s, b); o.Frame? ==> !o.next.crashed
  {
    hide LE16, LE32, PutLE32;
  }

  /** A frame is made of its own bytes only. */
  lemma FrameAlone(p: Params, iv: Bytes, s: Session, b: Bytes)
    requires Step(p, iv, s, b).Frame? && Step(p, iv, s, b).used <= |b|
    ensures Step(p, iv, s, b[..Step(p, iv, s, b).used]) == Step(p, iv, s, b)
  {
    hide DataStep, HeaderStep;
    var n := Step(p, iv, s, b).used;
    if s.gotHdr { DataAlone(p, s, b, b[..n]); } else { HeaderAlone(p, iv, s, b, b[..n]); }
  }

  lemma DataAlone(p: Params, s: Session, b: Bytes, c: Bytes)
    requires var o := DataStep(p, s, b); o.Frame? && o.used <= |b| && c == b[..o.used]
    ensures DataStep(p, s, c) == DataStep(p, s, b)
  {
    hide LE16, PutLE32;
    var n := |c|;
    assert c[..2] == b[..2] && c[2..4] == b[2..4] && c[5..7] == b[5..7];
    assert c[..n - 4] == b[..n - 4] && c[n - 4..n] == b[n - 4..n];
    assert c[Offset(c)..n - 4] == b[Offset(b)..n - 4];
  }

  lemma HeaderAlone(p: Params, iv: Bytes, s: Session, b: Bytes, c: Bytes)
    requires var o := HeaderStep(p, iv, s, b); o.Frame? && o.used <= |b| && c == b[..o.used]
    ensures HeaderStep(p, iv, s, c) == HeaderStep(p, iv, s, b)
  {
    hide LE16, LE32;
    var n := |c|;
    assert c[..1] == b[..1] && c[1..7] == b[1..7] && c[7..11] == b[7..11];
    assert c[7..27] == b[7..27] && c[27..31] == b[27..31] && c[11..27] == b[11..27];
    assert c[..n - 4] == b[..n - 4] && c[n - 4..n] == b[n - 4..n];
    var dec := p.authBlock(p.lookup(LE32(b[7..11])).value.0, b[11..27]);
    var randLen: nat := LE16(dec[14..16]);
    assert c[31 + randLen..n - 4] == b[31 + randLen..n - 4];
  }

  /** The first `k` bytes are whole frames, and what stands behind them overruns. */
  ghost predicate OverrunsAt(p: Params, iv: Bytes, s: Session, b: Bytes, k: nat) {
    && k <= |b|
    && var q := Run(Decode(p, iv), s, b[..k]);
    && q.acc == [] && q.error == None && Overruns(p, q.state, b[k..])
  }

  lemma {:induction false} CrashingRunOverruns(p: Params, iv: Bytes, s: Session, b: Bytes) returns (k: nat)
    requires !s.crashed && Run(Decode(p, iv), s, b).error == Some(Crash)
    ensures OverrunsAt(p, iv, s, b, k)
    decreases |b|
  {
    hide Step, Overruns;
    DecodeIsStable(p, iv);
    RunUnfold(Decode(p, iv), s, b);
    CrashStep(p, iv, s, b);
    match Step(p, iv, s, b)
    case More(_) => assert false;
    case Fail(_, e) =>
      k := 0;
      assert s.gotHdr by { OverrunHasHeader(p, s, b); }
      EmptyRun(p, iv, s);
      assert b[..0] == [] && b[0..] == b;
    case Frame(s', used, out) =>
      var rest := b[used..];
      var j := CrashingRunOverruns(p, iv, s', rest);
      k := used + j;
      FrameAlone(p, iv, s, b);
      FirstFrame(p, iv, s, b[..used], rest[..j]);
      assert b[..k] == b[..used] + rest[..j] && b[k..] == rest[j..];
  }

  lemma OverrunHasHeader(p: Params, s: Session, b: Bytes)
    requires Overruns(p, s, b)
    ensures s.gotHdr && !s.crashed
  {
  }

  lemma OverrunningRunCrashes(p: Params, iv: Bytes, s: Session, b: Bytes, k: nat)
    requires OverrunsAt(p, iv, s, b, k)
    ensures Run(Decode(p, iv), s, b).error == Some(Crash)
  {
    hide Step, Overruns, Run;
    DecodeIsStable(p, iv);
    RunOn(Decode(p, iv), s, b[..k], b[k..]);
    assert b[..k] + b[k..] == b;
    var q := Run(Decode(p, iv), s, b[..k]);
    OverrunHasHeader(p, q.state, b[k..]);
    CrashStep(p, iv, q.state, b[k..]);
    RunUnfold(Decode(p, iv), q.state, b[k..]);
  }

  /** Decoding a stream, in whatever fragments, panics if and only if some number of whole frames is
      followed by one that overruns. */
  lemma CrashesIff(p: Params, iv: Bytes, s: Session, pieces: seq<Bytes>)
    requires !s.crashed && pieces != []
    ensures FeedAll(Decode(p, iv), Decoder(s, [], [], None), pieces).error == Some(Crash)
       <==> exists k :: OverrunsAt(p, iv, s, Flatten(pieces), k)
  {
    hide Run, Decode, OverrunsAt;
    var b := Flatten(pieces);
    DecodeIsStable(p, iv);
    FragmentationIndependence(Decode(p, iv), Decoder(s, [], [], None), pieces);
    assert [] + b == b;
    if Run(Decode(p, iv), s, b).error == Some(Crash) {
      var k := CrashingRunOverruns(p, iv, s, b);
    }
    if k :| OverrunsAt(p, iv, s, b, k) {
      OverrunningRunCrashes(p, iv, s, b, k);
    }
  }

  /** Nine bytes that any authenticated user can send: an empty payload, and an offset one past its end. */
  function ShortFrame(p: Params, s: Session): Bytes {
    var macKey := s.userKey + PutLE32(s.recvID);
    var head := [9, 0] + p.hmac(macKey, [9, 0])[..2] + [2];
    head + p.hmac(macKey, head)[..4]
  }

  lemma ShortFrameCrashes(p: Params, iv: Bytes, s: Session, rest: Bytes)
    requires s.gotHdr && !s.crashed
    ensures Overruns(p, s, ShortFrame(p, s) + rest)
    ensures Run(Decode(p, iv), s, ShortFrame(p, s) + rest).error == Some(Crash)
  {
    hide PutLE32;
    var f := ShortFrame(p, s);
    var b := f + rest;
    assert b[..2] == [9, 0] && b[..5] == f[..5] && b[2..4] == f[2..4] && b[5..9] == f[5..9];
    CrashStep(p, iv, s, b);
  }

  /** A good frame and then such a one: the payload of the first has been decoded when the second panics,
      if both are there at once; if the first comes alone, it is decoded without a panic. */
  lemma DecodedBeforePanic(p: Params, iv: Bytes, e: Session, d: Session, data: Bytes, rest: Bytes)
    requires Mirrors(d, e) && |data| <= 8000
    ensures var w := Pack(p, e, data).0;
            var d1 := d.(recvID := Inc32(d.recvID));
            var q, alone := Run(Decode(p, iv), d, w + (ShortFrame(p, d1) + rest)), Run(Decode(p, iv), d, w + []);
            && q.out == data && q.error == Some(Crash)
            && alone.out == data && alone.error == None && alone.state == d1
  {
    hide Pack, Step, Run, ShortFrame;
    var w := Pack(p, e, data).0;
    var d1 := d.(recvID := Inc32(d.recvID));
    var bad := ShortFrame(p, d1) + rest;
    FrameRoundTrip(p, iv, e, d, data);
    FirstFrame(p, iv, d, w, bad);
    FirstFrame(p, iv, d, w, []);
    EmptyRun(p, iv, d1);
    ShortFrameCrashes(p, iv, d1, rest);
    CrashStep(p, iv, d1, bad);
    DecodeIsStable(p, iv);
    RunUnfold(Decode(p, iv), d1, bad);
    assert data + [] == data;
  }

  // ---- the two directions do not interfere ----

  lemma {:induction false} PackAllDownlink(p: Params, s: Session, data: Bytes)
    ensures PackAll(p, Downlink(s), data) == (PackAll(p, s, data).0, Downlink(PackAll(p, s, data).1))
    decreases |data|
  {
    if data != [] {
      var n := Min(|data|, 8000);
      PackAllDownlink(p, Pack(p, s, data[..n]).1, data[n..]);
    }
  }

  /** Decoding data leaves what writing depends on alone. */
  lemma {:induction false} RunKeepsDownlink(p: Params, iv: Bytes, s: Session, b: Bytes)
    requires s.gotHdr
    ensures Downlink(Run(Decode(p, iv), s, b).state) == Downlink(s)
    decreases |b|
  {
    hide Step;
    StepKeepsDownlink(p, iv, s, b);
    match Step(p, iv, s, b)
    case More(_) =>
    case Fail(_, _) =>
    case Frame(s', used, _) =>
      if 0 < used <= |b| { RunKeepsDownlink(p, iv, s', b[used..]); }
  }

  lemma StepKeepsDownlink(p: Params, iv: Bytes, s: Session, b: Bytes)
    requires s.gotHdr
    ensures Downlink(Step(p, iv, s, b).next) == Downlink(s)
  {
    hide LE16, PutLE32;
  }

  /** A run of writes seen from its end. */
  lemma {:induction false} WriteAllSnoc(p: Params, e: Session, writes: seq<Bytes>, data: Bytes)
    ensures var (ws, e1) := WriteAll(p, e, writes);
            var (w, e2) := PackAll(p, e1, data);
            WriteAll(p, e, writes + [data]) == (ws + w, e2)
    decreases |writes|
  {
    hide PackAll;
    if writes == [] {
      assert writes + [data] == [data];
      var (w, e1) := PackAll(p, e, data);
      assert WriteAll(p, e1, []) == ([], e1);
      assert w + [] == w && [] + w == w;
    } else {
      var (first, e1) := PackAll(p, e, writes[0]);
      assert (writes + [data])[1..] == writes[1..] + [data];
      WriteAllSnoc(p, e1, writes[1..], data);
      var (ws, e2) := WriteAll(p, e1, writes[1..]);
      assert first + (ws + PackAll(p, e2, data).0) == (first + ws) + PackAll(p, e2, data).0;
    }
  }

  /** Something is handed down exactly if something was written. */
  lemma {:induction false} FramesIff(p: Params, e: Session, writes: seq<Bytes>)
    ensures WriteAll(p, e, writes).0 == [] <==> Flatten(writes) == []
    decreases |writes|
  {
    if writes != [] { FramesIff(p, PackAll(p, e, writes[0]).1, writes[1..]); }
  }
}
