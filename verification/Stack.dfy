/** What a run of writes looks like on the wire below the auth layers: enciphered after a fresh IV and
    wrapped in TLS records (common/ssr/stream.go, common/ssr/obfs.go). */
module Stack {
  import opened Octets
  import opened Incremental
  import StreamCipher
  import TlsTicket

  /** What the sending stack has put on the wire after these frames, the IV first. */
  function Sent(pad: StreamCipher.Pad, iv: Bytes, frames: seq<Bytes>): Bytes {
    TlsTicket.Wrap(iv) + WrapAll(StreamCipher.EncipherAll(pad, iv, [], frames))
  }

  function WrapAll(cs: seq<Bytes>): Bytes {
    if cs == [] then [] else TlsTicket.Wrap(cs[0]) + WrapAll(cs[1..])
  }

  lemma {:induction false} WrapAllRoundTrip(cs: seq<Bytes>)
    ensures TlsTicket.Payload(WrapAll(cs)) == Flatten(cs)
  {
    hide TlsTicket.Payload, TlsTicket.Wrap;
    if cs == [] {
      TlsTicket.WrapRoundTrip([], []);
      assert TlsTicket.Payload([]) == [] by { NoRecords(); }
    } else {
      WrapAllRoundTrip(cs[1..]);
      TlsTicket.WrapRoundTrip(cs[0], WrapAll(cs[1..]));
    }
  }

  lemma NoRecords()
    ensures TlsTicket.Payload([]) == []
  {
  }

  lemma {:induction false} WrapAllSnoc(cs: seq<Bytes>, c: Bytes)
    ensures WrapAll(cs + [c]) == WrapAll(cs) + TlsTicket.Wrap(c)
  {
    hide TlsTicket.Wrap;
    if cs == [] {
      assert cs + [c] == [c] && WrapAll([]) == [];
      assert TlsTicket.Wrap(c) + [] == TlsTicket.Wrap(c);
    } else {
      assert (cs + [c])[1..] == cs[1..] + [c];
      WrapAllSnoc(cs[1..], c);
      assert TlsTicket.Wrap(cs[0]) + (WrapAll(cs[1..]) + TlsTicket.Wrap(c)) == WrapAll(cs) + TlsTicket.Wrap(c);
    }
  }

  /** One more write makes the wire what the longer run of writes would have sent. */
  lemma SentSnoc(pad: StreamCipher.Pad, iv: Bytes, frames: seq<Bytes>, w: Bytes)
    ensures var hist := Flatten(StreamCipher.EncipherAll(pad, iv, [], frames));
            var c := StreamCipher.Encipher(pad, iv, hist, w);
            && Sent(pad, iv, frames + [w]) == Sent(pad, iv, frames) + TlsTicket.Wrap(c)
            && Flatten(StreamCipher.EncipherAll(pad, iv, [], frames + [w])) == hist + c
  {
    hide StreamCipher.EncipherAll, StreamCipher.Encipher, TlsTicket.Wrap, WrapAll;
    var cs := StreamCipher.EncipherAll(pad, iv, [], frames);
    var hist := Flatten(cs);
    var c := StreamCipher.Encipher(pad, iv, hist, w);
    StreamCipher.EncipherAllSnoc(pad, iv, [], frames, w);
    assert [] + hist == hist;
    WrapAllSnoc(cs, c);
    FlattenSnoc(cs, c);
    assert TlsTicket.Wrap(iv) + (WrapAll(cs) + TlsTicket.Wrap(c)) == Sent(pad, iv, frames) + TlsTicket.Wrap(c);
  }

  lemma NothingSent(pad: StreamCipher.Pad, iv: Bytes)
    ensures Sent(pad, iv, []) == TlsTicket.Wrap(iv) && StreamCipher.EncipherAll(pad, iv, [], []) == []
  {
    assert TlsTicket.Wrap(iv) + [] == TlsTicket.Wrap(iv);
  }

  /** Everything the sending stack put on the wire, seen below the auth layer. */
  lemma SentPayload(pad: StreamCipher.Pad, iv: Bytes, frames: seq<Bytes>)
    ensures TlsTicket.Payload(Sent(pad, iv, frames)) == iv + Flatten(StreamCipher.EncipherAll(pad, iv, [], frames))
  {
    var cs := StreamCipher.EncipherAll(pad, iv, [], frames);
    TlsTicket.WrapRoundTrip(iv, WrapAll(cs));
    WrapAllRoundTrip(cs);
  }

  /** For every fragmentation of the wire the records yield the IV and the ciphertext, and however that
      is cut into reads, deciphering yields the frames. */
  lemma Through(pad: StreamCipher.Pad, iv: Bytes, frames: seq<Bytes>, pieces: seq<Bytes>)
    requires pieces != [] && Flatten(pieces) == Sent(pad, iv, frames)
    ensures var tunnel := FeedAll(TlsTicket.Records(), Decoder((), [], [], None), pieces).out;
            && |tunnel| >= |iv| && tunnel[..|iv|] == iv
            && forall cuts: seq<Bytes> | Flatten(cuts) == tunnel[|iv|..] ::
                 Flatten(StreamCipher.DecipherAll(pad, iv, [], cuts)) == Flatten(frames)
  {
    hide Run, StreamCipher.Encipher, StreamCipher.Decipher, StreamCipher.EncipherAll, StreamCipher.DecipherAll, Sent;
    var start: Decoder<(), ()> := Decoder((), [], [], None);
    var tunnel := FeedAll(TlsTicket.Records(), start, pieces).out;
    var cipher := Flatten(StreamCipher.EncipherAll(pad, iv, [], frames));
    assert tunnel == iv + cipher by {
      TlsTicket.RecordsStable();
      FragmentationIndependence(TlsTicket.Records(), start, pieces);
      assert [] + Flatten(pieces) == Flatten(pieces);
      SentPayload(pad, iv, frames);
    }
    StreamCipher.DecipherWrites(pad, iv, [], frames);
    forall cuts: seq<Bytes> | Flatten(cuts) == tunnel[|iv|..]
      ensures Flatten(StreamCipher.DecipherAll(pad, iv, [], cuts)) == Flatten(frames)
    {
      assert Flatten(cuts) == cipher;
      StreamCipher.DecipherReads(pad, iv, [], cuts);
    }
  }
}
