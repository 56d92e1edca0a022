/** Decoders that keep an accumulator, append what the connection delivers and parse frames off its
    front until none is complete.  `authChain`, `authAES128` and the TLS record layer of
    `tlsTicketObfs` all have this shape; what they share is stated and proved once here. */
module Incremental {
  import opened Octets

  /** One attempt to parse the front of the accumulator.  Every outcome carries the decoder state it
      leaves behind, because an attempt that fails or falls short may still have moved that state. */
  datatype Outcome<S, E> =
    | More(next: S)
    | Fail(next: S, error: E)
    | Frame(next: S, used: nat, out: Bytes)

  type Parser<!S, !E> = (S, Bytes) -> Outcome<S, E>

  /** A decoder between two reads: its state, unparsed residue, plaintext so far, last error. */
  datatype Decoder<S, E> = Decoder(state: S, acc: Bytes, out: Bytes, error: Option<E>)

  /** Parse frames until one is incomplete or bad. */
  function Run<S, E>(p: Parser<S, E>, s: S, acc: Bytes): Decoder<S, E>
    decreases |acc|
  {
    match p(s, acc)
    case More(s') => Decoder(s', acc, [], None)
    case Fail(s', e) => Decoder(s', acc, [], Some(e))
    case Frame(s', used, out) =>
      if 0 < used <= |acc| then
        var r := Run(p, s', acc[used..]);
        r.(out := out + r.out)
      else
        Decoder(s', acc, out, None)
  }

  /** One read: append the delivered piece and run the loop. */
  function Feed<S, E>(p: Parser<S, E>, d: Decoder<S, E>, piece: Bytes): Decoder<S, E> {
    var r := Run(p, d.state, d.acc + piece);
    r.(out := d.out + r.out)
  }

  function FeedAll<S, E>(p: Parser<S, E>, d: Decoder<S, E>, pieces: seq<Bytes>): Decoder<S, E>
    decreases |pieces|
  {
    if pieces == [] then d else FeedAll(p, Feed(p, d, pieces[0]), pieces[1..])
  }

  /** What a parser must satisfy at one point for late bytes to be harmless: a complete frame is not
      reinterpreted when more bytes follow it, and an attempt repeated from the state that a short
      or failed attempt left behind behaves as a first attempt would. */
  ghost predicate StableAt<S, E>(p: Parser<S, E>, s: S, b: Bytes, c: Bytes) {
    match p(s, b)
    case Frame(_, used, _) => 0 < used <= |b| && p(s, b + c) == p(s, b)
    case Fail(s', _) => p(s, b + c) == p(s, b) && p(s', b + c) == p(s, b)
    case More(s') => p(s', b + c) == p(s, b + c)
  }

  ghost predicate Stable<S(!new), E>(p: Parser<S, E>) {
    forall s, b, c :: StableAt(p, s, b, c)
  }

  lemma {:induction false} RunAppend<S(!new), E>(p: Parser<S, E>, s: S, a: Bytes, b: Bytes)
    requires Stable(p)
    ensures Feed(p, Run(p, s, a), b) == Run(p, s, a + b)
    decreases |a|
  {
    assert StableAt(p, s, a, b);
    match p(s, a)
    case More(_) =>
    case Fail(_, _) =>
    case Frame(s', used, out) =>
      RunAppend(p, s', a[used..], b);
      assert (a + b)[used..] == a[used..] + b;
      var r := Run(p, s', a[used..]);
      var q := Run(p, r.state, r.acc + b);
      assert (out + r.out) + q.out == out + (r.out + q.out);
  }

  lemma FeedFeed<S(!new), E>(p: Parser<S, E>, d: Decoder<S, E>, a: Bytes, b: Bytes)
    requires Stable(p)
    ensures Feed(p, Feed(p, d, a), b) == Feed(p, d, a + b)
  {
    RunAppend(p, d.state, d.acc + a, b);
    assert (d.acc + a) + b == d.acc + (a + b);
    var r := Run(p, d.state, d.acc + a);
    var q := Run(p, r.state, r.acc + b);
    assert (d.out + r.out) + q.out == d.out + (r.out + q.out);
  }

  /** Fragmentation independence: plaintext, residue, state and error after any non-empty sequence
      of reads are those of a single read of all the bytes at once. */
  lemma {:induction false} FragmentationIndependence<S(!new), E>(p: Parser<S, E>, d: Decoder<S, E>, pieces: seq<Bytes>)
    requires Stable(p) && pieces != []
    ensures FeedAll(p, d, pieces) == Feed(p, d, Flatten(pieces))
    decreases |pieces|
  {
    var x, rest := pieces[0], pieces[1..];
    if rest == [] {
      assert Flatten(pieces) == x + Flatten(rest) == x;
    } else {
      FragmentationIndependence(p, Feed(p, d, x), rest);
      FeedFeed(p, d, x, Flatten(rest));
    }
  }

  // ---- what a connection object needs to know about its decoder ----

  /** One turn of the loop. */
  lemma RunUnfold<S(!new), E>(p: Parser<S, E>, s: S, b: Bytes)
    requires Stable(p)
    ensures var q, o := Run(p, s, b), p(s, b);
            && (o.More? ==> q == Decoder(o.next, b, [], None))
            && (o.Fail? ==> q == Decoder(o.next, b, [], Some(o.error)))
            && (o.Frame? ==>
                  && 0 < o.used <= |b|
                  && var t := Run(p, o.next, b[o.used..]);
                  && q == t.(out := o.out + t.out))
  {
    assert StableAt(p, s, b, []);
  }

  lemma {:induction false} AccOnlyShrinks<S(!new), E>(p: Parser<S, E>, s: S, b: Bytes)
    requires Stable(p)
    ensures |Run(p, s, b).acc| <= |b|
    decreases |b|
  {
    hide Stable;
    RunUnfold(p, s, b);
    match p(s, b)
    case More(_) =>
    case Fail(_, _) =>
    case Frame(s', used, _) => AccOnlyShrinks(p, s', b[used..]);
  }

  /** Once it has stopped, a run has nothing more to give: not without new bytes, and after an error
      not with them either. */
  lemma {:induction false} Quiescent<S(!new), E>(p: Parser<S, E>, s: S, a: Bytes, rest: Bytes)
    requires Stable(p)
    ensures var q := Run(p, s, a);
            && Run(p, q.state, q.acc).out == []
            && (q.error.Some? ==> Run(p, q.state, q.acc + rest).out == [])
    decreases |a|
  {
    RunUnfold(p, s, a);
    assert StableAt(p, s, a, rest);
    assert StableAt(p, s, a, []);
    assert a + [] == a;
    match p(s, a)
    case More(_) =>
    case Fail(_, _) =>
    case Frame(s', used, _) => Quiescent(p, s', a[used..], rest);
  }

  /** What is still to be decoded does not depend on how much has been decoded already. */
  lemma RunRest<S(!new), E>(p: Parser<S, E>, s: S, a: Bytes, rest: Bytes)
    requires Stable(p)
    ensures var q := Run(p, s, a);
            Run(p, s, a + rest).out == q.out + Run(p, q.state, q.acc + rest).out
  {
    RunAppend(p, s, a, rest);
  }

  /** A run that used up its input goes on as if the next bytes had been there from the start. */
  lemma RunOn<S(!new), E>(p: Parser<S, E>, s: S, a: Bytes, rest: Bytes)
    requires Stable(p) && Run(p, s, a).acc == []
    ensures var q := Run(p, s, a);
            var t := Run(p, q.state, rest);
            Run(p, s, a + rest) == t.(out := q.out + t.out)
  {
    hide Run;
    RunAppend(p, s, a, rest);
    assert [] + rest == rest;
  }

  /** One more delivery decoded now or later makes no difference to what is delivered in the end. */
  lemma PumpKeeps<S(!new), E>(p: Parser<S, E>, s: S, a: Bytes, tmp: Bytes, rest: Bytes, rbuf: Bytes)
    requires Stable(p)
    ensures var q := Run(p, s, a + tmp);
            && rbuf + Run(p, s, a + (tmp + rest)).out == (rbuf + q.out) + Run(p, q.state, q.acc + rest).out
            && (q.error.Some? || rest == [] ==> Run(p, q.state, q.acc + rest).out == [])
  {
    hide Run;
    assert (a + tmp) + rest == a + (tmp + rest);
    RunRest(p, s, a + tmp, rest);
    Quiescent(p, s, a + tmp, rest);
    var q := Run(p, s, a + tmp);
    assert rest == [] ==> q.acc + rest == q.acc;
  }
}
