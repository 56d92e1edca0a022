/** The shadowsocks stream-cipher layer: a fresh IV, then the enciphered stream (common/ssr/stream.go,
    common/ssr/cipher.go). */
module StreamCipher {
  import opened Octets
  import opened Wire
  import TlsTicket
  import IvLoss

  /** Every cipher of the layer is an XOR with a pad byte that depends, under the node key, on the IV
      and the ciphertext so far: on its last block for CFB, only on its length for CTR, RC4 and
      ChaCha20. */
  type Pad = (Bytes, Bytes) -> byte

  /** Ciphertext of `data` when `hist` has already been sent. */
  function Encipher(pad: Pad, iv: Bytes, hist: Bytes, data: Bytes): (c: Bytes)
    ensures |c| == |data|
    decreases |data|
  {
    if data == [] then [] else
      var c := Xor8(data[0], pad(iv, hist));
      [c] + Encipher(pad, iv, hist + [c], data[1..])
  }

  function Decipher(pad: Pad, iv: Bytes, hist: Bytes, data: Bytes): (c: Bytes)
    ensures |c| == |data|
    decreases |data|
  {
    if data == [] then [] else
      [Xor8(data[0], pad(iv, hist))] + Decipher(pad, iv, hist + [data[0]], data[1..])
  }

  /** Each byte is enciphered with the pad for the ciphertext that has gone out before it. */
  lemma {:induction false} EncipherAt(pad: Pad, iv: Bytes, hist: Bytes, data: Bytes, i: nat)
    requires i < |data|
    ensures var c := Encipher(pad, iv, hist, data); c[i] == Xor8(data[i], pad(iv, hist + c[..i]))
    decreases |data|
  {
    hide Xor8;
    var c := Encipher(pad, iv, hist, data);
    if i == 0 {
      assert hist + c[..0] == hist;
    } else {
      EncipherAt(pad, iv, hist + [c[0]], data[1..], i - 1);
      assert (hist + [c[0]]) + c[1..][..i - 1] == hist + c[..i];
    }
  }

  lemma {:induction false} DecipherEncipher(pad: Pad, iv: Bytes, hist: Bytes, data: Bytes)
    ensures Decipher(pad, iv, hist, Encipher(pad, iv, hist, data)) == data
    decreases |data|
  {
    if data != [] {
      var c := Xor8(data[0], pad(iv, hist));
      Xor8Involution(data[0], pad(iv, hist));
      DecipherEncipher(pad, iv, hist + [c], data[1..]);
    }
  }

  lemma {:induction false} DecipherAppend(pad: Pad, iv: Bytes, hist: Bytes, a: Bytes, b: Bytes)
    ensures Decipher(pad, iv, hist, a + b) == Decipher(pad, iv, hist, a) + Decipher(pad, iv, hist + a, b)
    decreases |a|
  {
    if a == [] {
      assert a + b == b && hist + a == hist;
    } else {
      assert (a + b)[1..] == a[1..] + b;
      assert (hist + [a[0]]) + a[1..] == hist + a;
      DecipherAppend(pad, iv, hist + [a[0]], a[1..], b);
    }
  }

  /** The ciphertexts of successive writes. */
  function EncipherAll(pad: Pad, iv: Bytes, hist: Bytes, ws: seq<Bytes>): seq<Bytes>
    decreases |ws|
  {
    if ws == [] then [] else
      var c := Encipher(pad, iv, hist, ws[0]);
      [c] + EncipherAll(pad, iv, hist + c, ws[1..])
  }

  /** The plaintexts of successive reads. */
  function DecipherAll(pad: Pad, iv: Bytes, hist: Bytes, cs: seq<Bytes>): (ps: seq<Bytes>)
    ensures |ps| == |cs|
    decreases |cs|
  {
    if cs == [] then [] else
      [Decipher(pad, iv, hist, cs[0])] + DecipherAll(pad, iv, hist + cs[0], cs[1..])
  }

  /** A run of writes seen from its end. */
  lemma {:induction false} EncipherAllSnoc(pad: Pad, iv: Bytes, hist: Bytes, ws: seq<Bytes>, w: Bytes)
    ensures var cs := EncipherAll(pad, iv, hist, ws);
            var c := Encipher(pad, iv, hist + Flatten(cs), w);
            EncipherAll(pad, iv, hist, ws + [w]) == cs + [c]
    decreases |ws|
  {
    hide Encipher;
    if ws == [] {
      assert ws + [w] == [w] && hist + Flatten<byte>([]) == hist;
      assert EncipherAll(pad, iv, hist + Encipher(pad, iv, hist, w), []) == [];
    } else {
      var c := Encipher(pad, iv, hist, ws[0]);
      var cs := EncipherAll(pad, iv, hist + c, ws[1..]);
      assert (ws + [w])[1..] == ws[1..] + [w];
      EncipherAllSnoc(pad, iv, hist + c, ws[1..], w);
      FlattenCons(c, cs);
      assert (hist + c) + Flatten(cs) == hist + (c + Flatten(cs));
      var last := Encipher(pad, iv, (hist + c) + Flatten(cs), w);
      assert [c] + (cs + [last]) == ([c] + cs) + [last];
    }
  }

  lemma {:induction false} DecipherWrites(pad: Pad, iv: Bytes, hist: Bytes, ws: seq<Bytes>)
    ensures Decipher(pad, iv, hist, Flatten(EncipherAll(pad, iv, hist, ws))) == Flatten(ws)
    decreases |ws|
  {
    if ws != [] {
      var c := Encipher(pad, iv, hist, ws[0]);
      DecipherEncipher(pad, iv, hist, ws[0]);
      DecipherWrites(pad, iv, hist + c, ws[1..]);
      DecipherAppend(pad, iv, hist, c, Flatten(EncipherAll(pad, iv, hist + c, ws[1..])));
    }
  }

  /** How the ciphertext was cut into reads does not matter. */
  lemma {:induction false} DecipherReads(pad: Pad, iv: Bytes, hist: Bytes, cs: seq<Bytes>)
    ensures Flatten(DecipherAll(pad, iv, hist, cs)) == Decipher(pad, iv, hist, Flatten(cs))
    decreases |cs|
  {
    if cs != [] {
      DecipherReads(pad, iv, hist + cs[0], cs[1..]);
      DecipherAppend(pad, iv, hist, cs[0], Flatten(cs[1..]));
    }
  }

  class Conn {
    const conn: TlsTicket.Conn
    const pad: Pad
    const ivSize: nat
    const freshIV: Bytes           // what the random source will give
    var readIV: Option<Bytes>
    var readHist: Bytes
    var writeIV: Option<Bytes>
    var writeHist: Bytes

    constructor (conn: TlsTicket.Conn, pad: Pad, freshIV: Bytes)
      requires conn.Valid() && |freshIV| > 0
      ensures this.conn == conn && this.pad == pad && this.freshIV == freshIV && ivSize == |freshIV|
      ensures Valid() && readIV.None? && writeIV.None? && readHist == [] && writeHist == []
    {
      this.conn, this.pad, this.freshIV, ivSize := conn, pad, freshIV, |freshIV|;
      readIV, readHist, writeIV, writeHist := None, [], None, [];
    }

    ghost predicate Valid()
      reads this, conn
    {
      && conn.Valid() && |freshIV| == ivSize > 0
      && (readIV.None? ==> readHist == [])
      && (readIV.Some? ==> |readIV.value| == ivSize)
    }

    /** The client's IV: already read, or the first bytes still to come. */
    ghost function IV(): Bytes
      reads this, conn, conn.sock
    {
      if readIV.Some? then readIV.value
      else if |conn.Pending()| >= ivSize then conn.Pending()[..ivSize]
      else []
    }

    /** The plaintext that the reader will still get. */
    ghost function Pending(): Bytes
      reads this, conn, conn.sock
    {
      if readIV.Some? then Decipher(pad, readIV.value, readHist, conn.Pending())
      else Plain(pad, ivSize, conn.Pending())
    }

    static ghost function Plain(pad: Pad, ivSize: nat, stream: Bytes): Bytes {
      if |stream| >= ivSize then Decipher(pad, stream[..ivSize], [], stream[ivSize..]) else []
    }

    /** A part of the IV is going to be lost on a record of unknown type. */
    ghost predicate LosesIV()
      reads this, conn, conn.sock
    {
      readIV.None? && IvLoss.LosesIV(ivSize, conn.Reading())
    }

    /** Read the IV in full.  If that is refused, nothing is lost unless a part of the IV had been read,
        which is exactly the case that `LosesIV` foresees. */
    method InitRead() returns (status: Status)
      requires Valid()
      modifies this`readIV, conn, conn.sock
      ensures Valid() && readHist == old(readHist)
      ensures old(readIV).Some? ==> status == Ok && readIV == old(readIV) && conn.Pending() == old(conn.Pending())
      ensures status == Ok ==> readIV.Some? && IV() == old(IV()) && Pending() == old(Pending())
      ensures status != Ok ==> readIV.None?
      ensures status == Eof ==> conn.Pending() == [] && old(Pending()) == [] && old(IV()) == []
      ensures status == Refused ==> (conn.Pending() == old(conn.Pending()) <==> !old(LosesIV()))
      ensures old(LosesIV()) ==> status == Refused
      ensures |conn.Pending()| <= |old(conn.Pending())|
      ensures old(conn.sentHello) ==> conn.sentHello && conn.sock.sent == old(conn.sock.sent)
    {
      hide TlsTicket.Payload, TlsTicket.ParseHello, TlsTicket.ReadLink, TlsTicket.Conn.Pending, TlsTicket.Conn.Valid,
           IvLoss.LosesIV, IvLoss.ReadAll, Decipher, Flatten;
      if readIV.Some? {
        return Ok;
      }
      ghost var all, start := conn.Pending(), conn.Reading();
      IvLoss.LossIff(ivSize, start) by { ValidIsSound(conn); }
      var iv: Bytes := [];
      assert iv + IvLoss.ReadAll(ivSize, start).0 == IvLoss.ReadAll(ivSize, start).0;
      while |iv| < ivSize
        invariant conn.Valid() && |iv| <= ivSize && readIV.None?
        invariant iv + conn.Pending() == all
        invariant var (rest, end, l) := IvLoss.ReadAll(ivSize - |iv|, conn.Reading());
                  IvLoss.ReadAll(ivSize, start) == (iv + rest, end, l)
        invariant old(conn.sentHello) ==> conn.sentHello && conn.sock.sent == old(conn.sock.sent)
        decreases ivSize - |iv|
      {
        var data;
        IvLoss.ReadAllUnfold(ivSize - |iv|, conn.Reading(), iv);
        data, status := conn.Read(ivSize - |iv|);
        if status != Ok {
          return;
        }
        assert (iv + data) + conn.Pending() == all;
        iv := iv + data;
      }
      IvLoss.ReadNothing(conn.Reading(), iv);
      assert all[..ivSize] == iv && all[ivSize..] == conn.Pending();
      readIV := Some(iv);
      status := Ok;
    }

    static lemma ValidIsSound(c: TlsTicket.Conn)
      requires c.Valid()
      ensures IvLoss.Sound(c.Reading())
    {
    }

    method Read(n: nat) returns (data: Bytes, status: Status)
      requires Valid() && n > 0
      modifies this`readIV, this`readHist, conn, conn.sock
      ensures Valid() && |data| <= n
      ensures status != Ok ==> data == []
      ensures status == Ok ==> data != [] && |conn.Pending()| < |old(conn.Pending())|
      ensures status != Refused || readIV.Some? || !old(LosesIV()) ==>
        data + Pending() == old(Pending()) && IV() == old(IV())
      ensures status == Eof ==> Pending() == []
      ensures data != [] ==> readIV.Some?
      ensures old(readIV).Some? ==> readIV == old(readIV)
      ensures old(conn.sentHello) ==> conn.sentHello && conn.sock.sent == old(conn.sock.sent)
    {
      hide Decipher, TlsTicket.Payload, TlsTicket.ParseHello, TlsTicket.ReadLink, TlsTicket.Conn.Pending,
           TlsTicket.Conn.Valid, LosesIV;
      status := InitRead();
      if status != Ok {
        return [], status;
      }
      ghost var rest := conn.Pending();
      var c;
      c, status := conn.Read(n);
      DecipherAppend(pad, readIV.value, readHist, c, conn.Pending());
      data := Decipher(pad, readIV.value, readHist, c);
      readHist := readHist + c;
      if status == Eof { assert |Pending()| == 0; }
    }

    method Write(p: Bytes)
      requires Valid()
      modifies this`writeIV, this`writeHist, conn.sock`sent
      ensures Valid() && writeIV.Some?
      ensures old(writeIV).Some? ==> writeIV == old(writeIV)
      ensures old(writeIV).None? ==> writeIV == Some(freshIV)
      ensures var hist := if old(writeIV).Some? then old(writeHist) else [];
              var c := Encipher(pad, writeIV.value, hist, p);
              && writeHist == hist + c
              && conn.sock.sent == old(conn.sock.sent)
                                   + (if old(writeIV).Some? then [] else TlsTicket.Wrap(freshIV))
                                   + TlsTicket.Wrap(c)
    {
      hide Encipher, TlsTicket.Wrap;
      if writeIV.None? {
        conn.Write(freshIV);
        writeIV, writeHist := Some(freshIV), [];
      }
      var c := Encipher(pad, writeIV.value, writeHist, p);
      conn.Write(c);
      writeHist := writeHist + c;
    }
  }
}
