/** The Shadowsocks SIP004 AEAD stream under trojan's ss-obfs (common/trojanss/ssaead.go). */
module Sip004 {
  import opened Octets
  import opened Wire

  // ---- nonces ----

  /** The low `size` bytes of `k`, little-endian. */
  function Digits(k: nat, size: nat): (r: Bytes)
    ensures |r| == size
    decreases size
  {
    if size == 0 then [] else [k % 256] + Digits(k / 256, size - 1)
  }

  function Pow256(n: nat): (r: nat)
    ensures r > 0
  {
    if n == 0 then 1 else 256 * Pow256(n - 1)
  }

  /** What `incNonce` does to a nonce. */
  function Inc(n: Bytes): (r: Bytes)
    ensures |r| == |n|
  {
    if n == [] then []
    else if n[0] == 255 then [0] + Inc(n[1..])
    else [n[0] as int + 1] + n[1..]
  }

  /** A run of 255s carries into the first other byte. */
  lemma {:induction false} IncShape(n: Bytes, i: nat)
    requires i <= |n| && forall j :: 0 <= j < i ==> n[j] == 255
    ensures i < |n| && n[i] != 255 ==> Inc(n) == Zeros(i) + [n[i] as int + 1] + n[i + 1..]
    ensures i == |n| ==> Inc(n) == Zeros(i)
    decreases i
  {
    if i > 0 {
      IncShape(n[1..], i - 1);
      assert Zeros(i) == [0] + Zeros(i - 1);
      if i < |n| { assert n[1..][i..] == n[i + 1..]; }
    } else if |n| > 0 {
      assert Zeros(0) + [n[0] as int + 1] == [n[0] as int + 1];
    }
  }

  method IncNonce(n: array<byte>)
    modifies n
    ensures n[..] == Inc(old(n[..]))
  {
    hide Inc;
    ghost var was := n[..];
    for i := 0 to n.Length
      invariant forall j :: 0 <= j < i ==> was[j] == 255 && n[j] == 0
      invariant forall j :: i <= j < n.Length ==> n[j] == was[j]
    {
      IncShape(was, i);
      if n[i] != 255 {
        n[i] := n[i] + 1;
        return;
      }
      n[i] := 0;
    }
    IncShape(was, n.Length);
  }

  /** Incrementing is addition of one modulo the width. */
  lemma {:induction false} IncDigits(k: nat, size: nat)
    ensures Inc(Digits(k, size)) == Digits(k + 1, size)
    decreases size
  {
    if size > 0 {
      var lo, hi := k % 256, k / 256;
      if lo == 255 {
        assert (k + 1) % 256 == 0 && (k + 1) / 256 == hi + 1;
        IncDigits(hi, size - 1);
      } else {
        assert (k + 1) % 256 == lo + 1 && (k + 1) / 256 == hi;
      }
    }
  }

  /** As an integer, the nonce after `k` seals is `k` modulo the width. */
  lemma {:induction false} DigitsValue(k: nat, size: nat)
    ensures Value(Digits(k, size)) == k % Pow256(size)
    decreases size
  {
    if size > 0 {
      DigitsValue(k / 256, size - 1);
      ModSplit(k, Pow256(size - 1));
    }
  }

  lemma ModSplit(k: nat, m: nat)
    requires m > 0
    ensures k % 256 + 256 * ((k / 256) % m) == k % (256 * m)
  {
    var q, r := (k / 256) / m, (k / 256) % m;
    assert k / 256 == m * q + r;
    var low := k % 256 + 256 * r;
    assert k == 256 * (m * q + r) + k % 256 == (256 * m) * q + low;
    assert 0 <= low < 256 * m;
    DivIs(k, 256 * m, q, low);
  }

  /** No nonce comes back before the counter has gone round: 2^96 seals, 2^95 chunks. */
  lemma NonceUnique(i: nat, j: nat)
    requires i < j < 0x1_0000_0000_0000_0000_0000_0000
    ensures Digits(i, 12) != Digits(j, 12)
  {
    hide Digits, Value;
    DigitsValue(i, 12);
    DigitsValue(j, 12);
    Width96();
  }

  lemma Width96()
    ensures Pow256(12) == 0x1_0000_0000_0000_0000_0000_0000
  {
    Scale3(0, 1);
    Scale3(3, 0x100_0000);
    Scale3(6, 0x1_0000_0000_0000);
    Scale3(9, 0x100_0000_0000_0000_0000);
  }

  lemma Scale3(n: nat, p: nat)
    requires Pow256(n) == p
    ensures Pow256(n + 3) == 0x100_0000 * p
  {
    assert Pow256(n + 2) == 0x1_0000 * p;
  }

  // ---- chunks ----

  datatype Aead = Aead(seal: (Bytes, Bytes) -> Bytes, open: (Bytes, Bytes) -> Option<Bytes>, overhead: nat)

  /** Opening inverts sealing under the same nonce, and the sizes differ by the tag. */
  ghost predicate Lawful(a: Aead) {
    && (forall n, p :: |a.seal(n, p)| == |p| + a.overhead && a.open(n, a.seal(n, p)) == Some(p))
    && (forall n, c :: a.open(n, c).Some? ==> |c| == |a.open(n, c).value| + a.overhead)
  }

  function Nonce(i: nat): Bytes { Digits(i, 12) }

  /** The `k`-th chunk of a direction. */
  function Chunk(a: Aead, k: nat, data: Bytes): Bytes
    requires 0 < |data| <= 0x3fff
  {
    a.seal(Nonce(2 * k), PutBE16(|data|)) + a.seal(Nonce(2 * k + 1), data)
  }

  /** What a Write emits after `k` chunks, and the chunks emitted then. */
  function Emit(a: Aead, k: nat, data: Bytes): (Bytes, nat)
    decreases |data|
  {
    if data == [] then ([], k) else
      var n := Min(|data|, 0x3fff);
      var (rest, k') := Emit(a, k + 1, data[n..]);
      (Chunk(a, k, data[..n]) + rest, k')
  }

  function EmitAll(a: Aead, k: nat, writes: seq<Bytes>): (Bytes, nat)
    decreases |writes|
  {
    if writes == [] then ([], k) else
      var (w, k1) := Emit(a, k, writes[0]);
      var (ws, k2) := EmitAll(a, k1, writes[1..]);
      (w + ws, k2)
  }

  /** The length of the chunk at the front of `b`, if it opens and is acceptable. */
  function FrontLength(a: Aead, k: nat, b: Bytes): Option<nat> {
    if |b| < 2 + a.overhead then None else
      match a.open(Nonce(2 * k), b[..2 + a.overhead])
      case None => None
      case Some(l) =>
        if |l| != 2 || BE16(l) == 0 || BE16(l) > 0x3fff || |b| < 2 + a.overhead + BE16(l) + a.overhead then None
        else Some(BE16(l))
  }

  /** The `k`-th chunk at the front of `b`: its plaintext and what follows it. */
  function Front(a: Aead, k: nat, b: Bytes): Option<(Bytes, Bytes)> {
    match FrontLength(a, k, b)
    case None => None
    case Some(n) =>
      var at := 2 + a.overhead;
      match a.open(Nonce(2 * k + 1), b[at..at + n + a.overhead])
      case None => None
      case Some(plain) => Some((plain, b[at + n + a.overhead..]))
  }

  /** All plaintext to be had from `b`. */
  function Plain(a: Aead, k: nat, b: Bytes): Bytes
    decreases |b|
  {
    match Front(a, k, b)
    case None => []
    case Some((plain, rest)) => if |rest| < |b| then plain + Plain(a, k + 1, rest) else []
  }

  /** A chunk is to be had if and only if its length block opens under nonce 2k to a length from 1 to 0x3fff,
      and as many bytes, which are there, open under the next nonce. */
  lemma FrontIff(a: Aead, k: nat, b: Bytes, plain: Bytes, rest: Bytes)
    requires Lawful(a)
    ensures Front(a, k, b) == Some((plain, rest))
       <==> var at := 2 + a.overhead;
            && at <= |b|
            && var len := a.open(Digits(2 * k, 12), b[..at]);
            && len.Some? && |len.value| == 2 && 1 <= BigValue(len.value) <= 0x3fff
            && var end := at + BigValue(len.value) + a.overhead;
            && end <= |b| && a.open(Digits(2 * k + 1, 12), b[at..end]) == Some(plain) && rest == b[end..]
  {
    hide Digits;
    var at := 2 + a.overhead;
    if at <= |b| {
      var len := a.open(Digits(2 * k, 12), b[..at]);
      if len.Some? && |len.value| == 2 { BigEndian16(len.value, 0); }
    }
  }

  lemma FrontOfChunk(a: Aead, k: nat, data: Bytes, rest: Bytes)
    requires Lawful(a) && 0 < |data| <= 0x3fff
    ensures Front(a, k, Chunk(a, k, data) + rest) == Some((data, rest))
  {
    var head, body := a.seal(Nonce(2 * k), PutBE16(|data|)), a.seal(Nonce(2 * k + 1), data);
    var b, at := Chunk(a, k, data) + rest, 2 + a.overhead;
    assert |head| == at && b[..at] == head;
    assert b[at..at + |data| + a.overhead] == body;
    assert b[at + |data| + a.overhead..] == rest;
    assert BE16(PutBE16(|data|)) == |data|;
  }

  lemma {:induction false} EmitRoundTrip(a: Aead, k: nat, data: Bytes, rest: Bytes)
    requires Lawful(a)
    ensures var (w, k') := Emit(a, k, data); Plain(a, k, w + rest) == data + Plain(a, k', rest)
    decreases |data|
  {
    hide Chunk, Front;
    if data == [] {
      assert [] + rest == rest;
    } else {
      var n := Min(|data|, 0x3fff);
      var (tail, _) := Emit(a, k + 1, data[n..]);
      FrontOfChunk(a, k, data[..n], tail + rest);
      assert (Chunk(a, k, data[..n]) + tail) + rest == Chunk(a, k, data[..n]) + (tail + rest);
      assert |Chunk(a, k, data[..n])| > 0 by { ChunkSize(a, k, data[..n]); }
      EmitRoundTrip(a, k + 1, data[n..], rest);
      assert data == data[..n] + data[n..];
    }
  }

  lemma ChunkSize(a: Aead, k: nat, data: Bytes)
    requires Lawful(a) && 0 < |data| <= 0x3fff
    ensures |Chunk(a, k, data)| == 2 + |data| + 2 * a.overhead
  {
  }

  /** A chunk on the wire: the length of its data, high byte first, sealed under nonce 2k, then the data itself
      under the next nonce. */
  lemma ChunkLayout(a: Aead, k: nat, data: Bytes) returns (len: Bytes)
    requires Lawful(a) && 0 < |data| <= 0x3fff
    ensures |len| == 2 && BigValue(len) == |data|
    ensures var w, mid := Chunk(a, k, data), 2 + a.overhead;
            && |w| == mid + |data| + a.overhead
            && w[..mid] == a.seal(Digits(2 * k, 12), len) && w[mid..] == a.seal(Digits(2 * k + 1, 12), data)
  {
    hide Digits;
    len := PutBE16(|data|);
    BigEndian16(len, |data|);
  }

  /** The i-th chunk of a write: where it stands, which data it has and which nonces; all but the last have
      0x3fff bytes. */
  lemma {:induction false} EmitLayout(a: Aead, k: nat, data: Bytes, i: nat) returns (before: Bytes, after: Bytes)
    requires Lawful(a) && i < Chunks(|data|, 0x3fff)
    ensures i * 0x3fff < |data| && |before| == i * (0x3fff + 2 + 2 * a.overhead)
    ensures var n := Min(|data| - i * 0x3fff, 0x3fff);
            Emit(a, k, data).0 == before + Chunk(a, k + i, data[i * 0x3fff..i * 0x3fff + n]) + after
    decreases i
  {
    hide Chunk, Lawful, Chunks;
    assert data != [] by { if data == [] { NoChunks(0x3fff); } }
    var n := Min(|data|, 0x3fff);
    var first := Chunk(a, k, data[..n]);
    ChunkLess(|data|, 0x3fff);
    ChunkSize(a, k, data[..n]);
    if i == 0 {
      before, after := [], Emit(a, k + 1, data[n..]).0;
      assert [] + first == first;
    } else {
      before, after := EmitLayout(a, k + 1, data[n..], i - 1);
      var m := Min(|data| - i * 0x3fff, 0x3fff);
      assert data[n..][(i - 1) * 0x3fff..(i - 1) * 0x3fff + m] == data[i * 0x3fff..i * 0x3fff + m];
      var c := Chunk(a, k + i, data[i * 0x3fff..i * 0x3fff + m]);
      assert first + (before + c + after) == (first + before) + c + after;
      var step := 0x3fff + 2 + 2 * a.overhead;
      assert i * step == (i - 1) * step + step;
      before := first + before;
    }
  }

  /** How long it is, and how many nonces it used up. */
  lemma {:induction false} EmitSize(a: Aead, k: nat, data: Bytes)
    requires Lawful(a)
    ensures Emit(a, k, data).1 == k + Chunks(|data|, 0x3fff)
    ensures |Emit(a, k, data).0| == |data| + Chunks(|data|, 0x3fff) * (2 + 2 * a.overhead)
    decreases |data|
  {
    hide Chunk, Chunks, Lawful;
    if data == [] {
      NoChunks(0x3fff);
    } else {
      var n := Min(|data|, 0x3fff);
      ChunkLess(|data|, 0x3fff);
      ChunkSize(a, k, data[..n]);
      EmitSize(a, k + 1, data[n..]);
      if n == |data| { NoChunks(0x3fff); }
      var c, step := Chunks(|data[n..]|, 0x3fff), 2 + 2 * a.overhead;
      assert (1 + c) * step == step + c * step;
    }
  }

  /** For any writes the reader's plaintext is exactly the written bytes. */
  lemma {:induction false} StreamRoundTrip(a: Aead, k: nat, writes: seq<Bytes>)
    requires Lawful(a)
    ensures Plain(a, k, EmitAll(a, k, writes).0) == Flatten(writes)
    decreases |writes|
  {
    hide Emit, Front;
    if writes == [] {
      assert Front(a, k, []) == None by { NoChunk(a, k); }
    } else {
      var (w, k1) := Emit(a, k, writes[0]);
      EmitRoundTrip(a, k, writes[0], EmitAll(a, k1, writes[1..]).0);
      StreamRoundTrip(a, k1, writes[1..]);
    }
  }

  /** A run of writes seen from its end. */
  lemma {:induction false} EmitAllSnoc(a: Aead, k: nat, writes: seq<Bytes>, data: Bytes)
    ensures var (ws, k1) := EmitAll(a, k, writes);
            var (w, k2) := Emit(a, k1, data);
            EmitAll(a, k, writes + [data]) == (ws + w, k2)
    decreases |writes|
  {
    hide Emit;
    if writes == [] {
      assert writes + [data] == [data];
      var (w, k1) := Emit(a, k, data);
      assert EmitAll(a, k1, []) == ([], k1);
      assert w + [] == w && [] + w == w;
    } else {
      var (first, k1) := Emit(a, k, writes[0]);
      assert (writes + [data])[1..] == writes[1..] + [data];
      EmitAllSnoc(a, k1, writes[1..], data);
      var (ws, k2) := EmitAll(a, k1, writes[1..]);
      assert first + (ws + Emit(a, k2, data).0) == (first + ws) + Emit(a, k2, data).0;
    }
  }

  /** Object to object: what one end has written is what a reader that is sent those bytes, in any
      fragments, has still to return. */
  lemma WrittenIsDelivered(a: Conn, base: Bytes, writes: seq<Bytes>, c: Conn)
    requires a.Valid() && a.Wrote(base, writes) && writes != []
    requires c.Valid() && c.rAEAD.None? && c.subkey == a.subkey && c.keyLen == a.keyLen
    requires base + c.sock.Coming() == a.sock.sent
    ensures c.Pending() == Flatten(writes)
  {
    hide Plain, EmitAll, Lawful, Nonce, Conn.Pending;
    var stream := a.freshSalt + EmitAll(a.subkey(a.freshSalt), 0, writes).0;
    assert base + a.freshSalt + EmitAll(a.subkey(a.freshSalt), 0, writes).0 == base + stream;
    assert c.sock.Coming() == (base + c.sock.Coming())[|base|..] == stream;
    ReaderHolds(c, a.freshSalt, writes);
  }

  /** A reader about to get a salt and the chunks written under it holds exactly the written bytes; by
      the contract of `Conn.Read` it returns them whatever the fragments and the buffer sizes. */
  lemma ReaderHolds(c: Conn, salt: Bytes, writes: seq<Bytes>)
    requires c.Valid() && c.rAEAD.None? && |salt| == c.keyLen
    requires c.sock.Coming() == salt + EmitAll(c.subkey(salt), 0, writes).0
    ensures c.Pending() == Flatten(writes)
  {
    hide Plain, EmitAll;
    var stream := c.sock.Coming();
    assert stream[..c.keyLen] == salt && stream[c.keyLen..] == EmitAll(c.subkey(salt), 0, writes).0;
    StreamRoundTrip(c.subkey(salt), 0, writes);
  }

  lemma NoChunk(a: Aead, k: nat)
    ensures Front(a, k, []) == None
  {
  }

  // ---- the connection ----

  class Conn {
    const sock: Socket
    const keyLen: nat
    const subkey: Bytes -> Aead       // the AEAD of a direction, from its salt
    const freshSalt: Bytes            // what the random source will give
    const rNonce: array<byte>
    const wNonce: array<byte>
    var rAEAD: Option<Aead>
    var wAEAD: Option<Aead>
    var rbuf: Bytes
    ghost var rChunks: nat
    ghost var wChunks: nat
    ghost var failed: bool            // a read has failed: the connection is of no further use

    constructor (sock: Socket, subkey: Bytes -> Aead, freshSalt: Bytes)
      requires forall s :: Lawful(subkey(s))
      ensures Valid() && this.sock == sock && this.subkey == subkey && this.freshSalt == freshSalt
      ensures keyLen == |freshSalt| && rAEAD.None? && wAEAD.None? && rbuf == [] && !failed
      ensures fresh(rNonce) && fresh(wNonce)
    {
      this.sock, this.subkey, this.freshSalt, keyLen := sock, subkey, freshSalt, |freshSalt|;
      rNonce := new byte[12](_ => 0);
      wNonce := new byte[12](_ => 0);
      rAEAD, wAEAD, rbuf, rChunks, wChunks, failed := None, None, [], 0, 0, false;
      new;
      ZeroNonce();
      assert rNonce[..] == Zeros(12) && wNonce[..] == Zeros(12);
    }

    /** After `k` chunks of a direction its nonce is 2k. */
    ghost predicate Valid()
      reads this, rNonce, wNonce
    {
      && rNonce != wNonce && |freshSalt| == keyLen
      && (forall s :: Lawful(subkey(s)))
      && (rAEAD.Some? ==> Lawful(rAEAD.value)) && (wAEAD.Some? ==> Lawful(wAEAD.value))
      && (rAEAD.None? ==> rChunks == 0 && rbuf == []) && (wAEAD.None? ==> wChunks == 0)
      && (!failed ==> rNonce[..] == Nonce(2 * rChunks))
      && wNonce[..] == Nonce(2 * wChunks)
    }

    /** The plaintext that the reader will still get. */
    ghost function Pending(): Bytes
      reads this, sock
    {
      rbuf + match rAEAD
             case Some(a) => Plain(a, rChunks, sock.Coming())
             case None => Salted(sock.Coming())
    }

    /** Since the wire held `base`, this end has made exactly these writes. */
    ghost predicate Wrote(base: Bytes, writes: seq<Bytes>)
      reads this, sock
    {
      if writes == [] then wAEAD.None? && wChunks == 0 && sock.sent == base
      else && wAEAD == Some(subkey(freshSalt))
           && var (w, k) := EmitAll(subkey(freshSalt), 0, writes);
           && wChunks == k && sock.sent == base + freshSalt + w
    }

    ghost function Salted(stream: Bytes): Bytes {
      if |stream| < keyLen then [] else Plain(subkey(stream[..keyLen]), 0, stream[keyLen..])
    }

    method InitRead() returns (ok: bool)
      requires Valid() && rAEAD.None? && !failed
      modifies this`rAEAD, this`failed, sock`incoming
      ensures Valid() && rbuf == old(rbuf) && rChunks == 0
      ensures ok ==> rAEAD.Some? && !failed && Pending() == old(Pending())
      ensures !ok ==> old(Pending()) == []
    {
      hide Plain;
      var salt;
      salt, ok := sock.ReadFull(keyLen);
      if !ok {
        failed := true;
        return;
      }
      assert old(sock.Coming())[..keyLen] == salt && old(sock.Coming())[keyLen..] == sock.Coming();
      rAEAD := Some(subkey(salt));
    }

    /** Open the length block of the next chunk. */
    method ReadLength(a: Aead) returns (n: nat, ok: bool, ghost lenBuf: Bytes)
      requires Lawful(a) && rNonce[..] == Nonce(2 * rChunks)
      modifies sock`incoming, rNonce
      ensures ok ==>
        && old(sock.Coming()) == lenBuf + sock.Coming()
        && |lenBuf| == 2 + a.overhead && rNonce[..] == Nonce(2 * rChunks + 1)
        && 0 < n <= 0x3fff && a.open(Nonce(2 * rChunks), lenBuf) == Some(PutBE16(n))
      ensures !ok ==> Front(a, rChunks, old(sock.Coming())) == None
    {
      hide Nonce, Lawful, Inc;
      ghost var all := sock.Coming();
      n := 0;
      var buf;
      buf, ok := sock.ReadFull(2 + a.overhead);
      lenBuf := buf;
      if !ok { return; }
      assert all[..2 + a.overhead] == buf;
      OpenSize(a, rNonce[..], buf);
      var lenPlain := a.open(rNonce[..], buf);
      if lenPlain.None? { return n, false, lenBuf; }
      IncNonce(rNonce);
      NonceSteps(2 * rChunks);
      n := BE16(lenPlain.value);
      assert PutBE16(n) == lenPlain.value;
      ok := n != 0 && n <= 0x3fff;
    }

    method ReadChunk() returns (ok: bool)
      requires Valid() && rAEAD.Some? && !failed && rbuf == []
      modifies this`rbuf, this`rChunks, this`failed, sock`incoming, rNonce
      ensures Valid() && rNonce != wNonce
      ensures ok ==> !failed && rbuf != [] && Pending() == old(Pending())
      ensures !ok ==> old(Pending()) == []
    {
      hide Plain, Nonce, Lawful, Inc, Front, PutBE16, Flatten;
      var a := rAEAD.value;
      ghost var k, all := rChunks, sock.Coming();
      PlainUnfold(a, k, all);
      failed := true;
      var n;
      ghost var lenBuf;
      n, ok, lenBuf := ReadLength(a);
      if !ok { return; }
      ghost var mid := sock.Coming();
      FrontNeeds(a, k, lenBuf, n, mid);
      var data;
      data, ok := sock.ReadFull(n + a.overhead);
      if !ok { return; }
      assert mid[..n + a.overhead] == data && mid[n + a.overhead..] == sock.Coming();
      OpenSize(a, rNonce[..], data);
      var plain := a.open(rNonce[..], data);
      if plain.None? { return false; }
      IncNonce(rNonce);
      NonceSteps(2 * k + 1);
      assert old(Pending()) == Plain(a, k, all);
      rbuf := plain.value;
      rChunks, failed := rChunks + 1, false;
    }

    /** Read returns the next plaintext bytes for any buffer size and any fragmentation below, and fails
        only when nothing is left to return. */
    method Read(n: nat) returns (data: Bytes, ok: bool)
      requires Valid() && !failed
      modifies this`rAEAD, this`rbuf, this`rChunks, this`failed, sock`incoming, rNonce
      ensures Valid() && |data| <= n
      ensures ok ==> !failed && data + Pending() == old(Pending()) && (n > 0 ==> data != [])
      ensures !ok ==> data == [] && old(Pending()) == []
    {
      hide Plain, Front, Digits;
      data := [];
      if rAEAD.None? {
        ok := InitRead();
        if !ok { return; }
      }
      while rbuf == []
        invariant Valid() && !failed && rAEAD.Some? && Pending() == old(Pending())
        decreases rbuf == []
      {
        ok := ReadChunk();
        if !ok { return; }
      }
      var m := Min(n, |rbuf|);
      data, rbuf := rbuf[..m], rbuf[m..];
      ok := true;
    }

    method InitWrite()
      requires Valid() && wAEAD.None?
      modifies this`wAEAD, sock`sent
      ensures Valid() && wAEAD == Some(subkey(freshSalt)) && sock.sent == old(sock.sent) + freshSalt
    {
      sock.Write(freshSalt);
      wAEAD := Some(subkey(freshSalt));
    }

    method Write(p: Bytes)
      requires Valid()
      modifies this`wAEAD, this`wChunks, sock`sent, wNonce
      ensures Valid() && wAEAD.Some?
      ensures old(wAEAD).Some? ==> wAEAD == old(wAEAD)
      ensures old(wAEAD).None? ==> wAEAD == Some(subkey(freshSalt))
      ensures var (w, k) := Emit(wAEAD.value, old(wChunks), p);
              && wChunks == k
              && sock.sent == old(sock.sent) + (if old(wAEAD).Some? then [] else freshSalt) + w
      ensures forall base, writes :: old(Wrote(base, writes)) ==> Wrote(base, writes + [p])
    {
      hide Nonce, Lawful, Inc, Emit, EmitAll;
      if wAEAD.None? {
        InitWrite();
      }
      var a, rest := wAEAD.value, p;
      ghost var before := sock.sent;
      ghost var w, k := Emit(a, wChunks, p).0, Emit(a, wChunks, p).1;
      while |rest| > 0
        invariant Valid() && wAEAD == Some(a)
        invariant sock.sent + Emit(a, wChunks, rest).0 == before + w && Emit(a, wChunks, rest).1 == k
        decreases |rest|
      {
        var n := |rest|;
        if n > 0x3fff { n := 0x3fff; }
        EmitUnfold(a, wChunks, rest, sock.sent);
        var out := SealChunk(a, rest[..n]);
        sock.Write(out);
        rest := rest[n..];
      }
      EmitUnfold(a, wChunks, rest, sock.sent);
      assert sock.sent + [] == sock.sent;
      forall base, writes | old(Wrote(base, writes)) ensures Wrote(base, writes + [p]) {
        WroteOneMore(subkey(freshSalt), base + freshSalt, writes, p);
        if writes == [] { assert old(sock.sent) + freshSalt == base + freshSalt; }
      }
    }

    method SealChunk(a: Aead, data: Bytes) returns (out: Bytes)
      requires Valid() && 0 < |data| <= 0x3fff
      modifies this`wChunks, wNonce
      ensures wNonce[..] == Nonce(2 * wChunks) && wChunks == old(wChunks) + 1
      ensures out == Chunk(a, old(wChunks), data)
    {
      hide Nonce, Lawful, Inc;
      out := a.seal(wNonce[..], PutBE16(|data|));
      IncNonce(wNonce);
      NonceSteps(2 * wChunks);
      out := out + a.seal(wNonce[..], data);
      IncNonce(wNonce);
      NonceSteps(2 * wChunks + 1);
      wChunks := wChunks + 1;
    }
  }

  lemma WroteOneMore(a: Aead, salted: Bytes, writes: seq<Bytes>, data: Bytes)
    ensures var (ws, k) := EmitAll(a, 0, writes);
            var (w, k') := Emit(a, k, data);
            && EmitAll(a, 0, writes + [data]) == (ws + w, k') && (salted + ws) + w == salted + (ws + w)
            && (writes == [] ==> ws == [] && k == 0 && salted + ws == salted)
  {
    EmitAllSnoc(a, 0, writes, data);
  }

  lemma NonceSteps(i: nat)
    ensures Inc(Nonce(i)) == Nonce(i + 1)
  {
    IncDigits(i, 12);
  }

  lemma OpenSize(a: Aead, n: Bytes, c: Bytes)
    requires Lawful(a)
    ensures a.open(n, c).Some? ==> |c| == |a.open(n, c).value| + a.overhead
  {
  }

  lemma PlainUnfold(a: Aead, k: nat, b: Bytes)
    ensures Front(a, k, b) == None ==> Plain(a, k, b) == []
    ensures Front(a, k, b).Some? ==>
              var (plain, rest) := Front(a, k, b).value; Plain(a, k, b) == plain + Plain(a, k + 1, rest)
  {
  }

  lemma EmitUnfold(a: Aead, k: nat, data: Bytes, sent: Bytes)
    ensures data == [] ==> Emit(a, k, data) == ([], k)
    ensures data != [] ==>
              var n := Min(|data|, 0x3fff);
              var (rest, k') := Emit(a, k + 1, data[n..]);
              && sent + Emit(a, k, data).0 == (sent + Chunk(a, k, data[..n])) + rest
              && Emit(a, k, data).1 == k'
  {
    hide Chunk;
    if data != [] {
      var n := Min(|data|, 0x3fff);
      var rest := Emit(a, k + 1, data[n..]).0;
      assert sent + (Chunk(a, k, data[..n]) + rest) == (sent + Chunk(a, k, data[..n])) + rest;
    }
  }

  /** Once its length block has opened, a chunk is what its body makes it. */
  lemma FrontNeeds(a: Aead, k: nat, lenBuf: Bytes, n: nat, mid: Bytes)
    requires |lenBuf| == 2 + a.overhead && 0 < n <= 0x3fff && a.open(Nonce(2 * k), lenBuf) == Some(PutBE16(n))
    ensures Front(a, k, lenBuf + mid)
         == if |mid| < n + a.overhead then None
            else match a.open(Nonce(2 * k + 1), mid[..n + a.overhead])
                 case None => None
                 case Some(plain) => Some((plain, mid[n + a.overhead..]))
  {
    hide Nonce;
    var all, at := lenBuf + mid, |lenBuf|;
    assert all[..at] == lenBuf && BE16(PutBE16(n)) == n;
    if |mid| >= n + a.overhead {
      assert all[at..at + n + a.overhead] == mid[..n + a.overhead];
      assert all[at + n + a.overhead..] == mid[n + a.overhead..];
    }
  }

  lemma ZeroNonce()
    ensures Nonce(0) == Zeros(12)
  {
    assert forall i {:trigger Digits(0, i)} :: 0 <= i <= 12 ==> Digits(0, i) == Zeros(i) by {
      forall i | 0 <= i <= 12 ensures Digits(0, i) == Zeros(i) { ZeroDigits(i); }
    }
  }

  lemma {:induction false} ZeroDigits(n: nat)
    ensures Digits(0, n) == Zeros(n)
  {
    if n > 0 { ZeroDigits(n - 1); }
  }
}
