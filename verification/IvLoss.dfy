/** When the start of a stream is lost: the IV is read in full or not at all, and a record of unknown type
    that arrives after a part of it throws that part away (common/ssr/stream.go, common/ssr/obfs.go). */
module IvLoss {
  import opened Octets
  import opened Wire
  import opened TlsTicket

  /** Go's `io.ReadFull` over the record layer: what has been read of `need` bytes, and how it ended. */
  function ReadAll(need: nat, l: Link): (r: (Bytes, Status, Link))
    ensures |r.0| <= need && (r.1 == Ok ==> |r.0| == need)
    decreases need
  {
    if need == 0 then ([], Ok, l) else
      var (data, status, l1) := ReadLink(need, l);
      if status != Ok then ([], status, l1) else
        var (rest, status', l') := ReadAll(need - |data|, l1);
        (data + rest, status', l')
  }

  /** One read further, `got` having been read before. */
  lemma ReadAllUnfold(need: nat, l: Link, got: Bytes)
    requires need > 0
    ensures var (data, status, l1) := ReadLink(need, l);
            && (status != Ok ==> ReadAll(need, l) == ([], status, l1) && got + [] == got)
            && (status == Ok ==>
                  && 0 < |data| <= need
                  && var (rest, status', l') := ReadAll(need - |data|, l1);
                  && ReadAll(need, l) == (data + rest, status', l')
                  && got + (data + rest) == (got + data) + rest)
  {
    hide ReadLink;
  }

  lemma ReadNothing(l: Link, got: Bytes)
    ensures ReadAll(0, l) == ([], Ok, l) && got + [] == got
  {
  }

  /** The record bytes among the first bytes of a connection. */
  function Tunnel(hello: bool, s: Bytes): Bytes {
    if hello then s else
      match ParseHello(s)
      case Ready(_, used) => s[used..]
      case _ => []
  }

  /** With `have` bytes already taken and `seen` arrived, a part of what is needed has been delivered, and
      the next arrival completes a record of unknown type. */
  predicate SpoilsHere(need: nat, have: nat, hello: bool, seen: Bytes, next: Bytes) {
    && Clean(Tunnel(hello, seen)) && 0 < have + |Payload(Tunnel(hello, seen))| < need
    && !Clean(Tunnel(hello, seen + next))
  }

  /** All that a reader will see arrive, what it has already first. */
  function Seen(l: Link): seq<Bytes> { [l.raw] + Arrivals(l.incoming, 16384) }

  /** At some arrival the part of the IV delivered so far is spoilt. */
  ghost predicate LosesIV(need: nat, l: Link) {
    exists j :: 0 <= j < |Seen(l)| && SpoilsHere(need, |l.dec|, l.hello, Flatten(Seen(l)[..j]), Seen(l)[j])
  }

  // ---- the same from arrival to arrival ----

  predicate Spoils(need: nat, have: nat, hello: bool, seen: Bytes, next: seq<Bytes>)
    decreases |next|
  {
    next != []
    && (SpoilsHere(need, have, hello, seen, next[0]) || Spoils(need, have, hello, seen + next[0], next[1..]))
  }

  lemma {:induction false} SpoilsIff(need: nat, have: nat, hello: bool, seen: Bytes, next: seq<Bytes>)
    ensures Spoils(need, have, hello, seen, next)
       <==> exists j :: 0 <= j < |next| && SpoilsHere(need, have, hello, seen + Flatten(next[..j]), next[j])
    decreases |next|
  {
    hide SpoilsHere;
    if next != [] {
      SpoilsIff(need, have, hello, seen + next[0], next[1..]);
      assert seen + Flatten(next[..0]) == seen;
      forall j | 0 <= j < |next| - 1
        ensures (seen + next[0]) + Flatten(next[1..][..j]) == seen + Flatten(next[..j + 1]) && next[1..][j] == next[j + 1]
      {
        assert next[..j + 1] == [next[0]] + next[1..][..j];
        FlattenCons(next[0], next[1..][..j]);
      }
      if j :| 0 <= j < |next| && SpoilsHere(need, have, hello, seen + Flatten(next[..j]), next[j]) {
        if j > 0 {
          assert SpoilsHere(need, have, hello, (seen + next[0]) + Flatten(next[1..][..j - 1]), next[1..][j - 1]);
        }
      }
      if j :| 0 <= j < |next[1..]| && SpoilsHere(need, have, hello, (seen + next[0]) + Flatten(next[1..][..j]), next[1..][j]) {
        assert SpoilsHere(need, have, hello, seen + Flatten(next[..j + 1]), next[j + 1]);
      }
    }
  }

  /** What is spoilt from here on, `have` bytes having been taken and `l.dec` being next. */
  predicate Spoilt(need: nat, have: nat, l: Link) { Spoils(need, have + |l.dec|, l.hello, [], Seen(l)) }

  // ---- draining and arrivals ----

  /** Bytes that have been drained make no difference to what comes later. */
  lemma {:induction false} CleanLater(raw: Bytes, more: Bytes)
    ensures !Clean(raw) ==> !Clean(raw + more)
    ensures Clean(raw) ==> Clean(raw + more) == Clean(Drained(raw).1 + more)
    decreases |raw|
  {
    hide RecordSize, Carried;
    if !Idle(raw) {
      SameFront(raw, more);
      var n := 5 + RecordSize(raw);
      DrainedStep(raw);
      DrainedStep(raw + more);
      if KnownType(raw[0]) { CleanLater(raw[n..], more); }
    }
  }

  lemma SameFront(raw: Bytes, more: Bytes)
    requires !Idle(raw)
    ensures var all, n := raw + more, 5 + RecordSize(raw);
            !Idle(all) && RecordSize(all) == RecordSize(raw) && all[0] == raw[0] && all[n..] == raw[n..] + more
  {
    assert (raw + more)[3..5] == raw[3..5];
  }

  lemma NothingIsClean()
    ensures Clean([]) && Payload([]) == []
  {
  }

  /** From a clean start, only what draining left matters, with the drained payload counted as had. */
  lemma {:induction false} SpoilsAfterDrain(need: nat, have: nat, raw: Bytes, next: seq<Bytes>)
    requires Clean(raw)
    ensures Spoils(need, have, true, raw, next) == Spoils(need, have + |Drained(raw).0|, true, Drained(raw).1, next)
    decreases |next|
  {
    hide Payload, Drained;
    var (payload, left, _) := Drained(raw);
    DrainedPayload(raw, []);
    assert raw + [] == raw && left + [] == left;
    IdleStays(left);
    if next != [] {
      CleanLater(raw, next[0]);
      CleanLater(left, next[0]);
      DrainedPayload(raw, next[0]);
      if Clean(raw + next[0]) {
        SpoilsAfterDrain(need, have, raw + next[0], next[1..]);
        SpoilsAfterDrain(need, have + |payload|, left + next[0], next[1..]);
        DrainedTwice(raw, next[0]);
      } else {
        SpoiltAlready(need, have, raw + next[0], next[1..]);
        SpoiltAlready(need, have + |payload|, left + next[0], next[1..]);
      }
    }
  }

  /** Draining in two goes. */
  lemma {:induction false} DrainedTwice(raw: Bytes, more: Bytes)
    requires Clean(raw)
    ensures var (p, left, _) := Drained(raw);
            && Drained(raw + more).0 == p + Drained(left + more).0
            && Drained(raw + more).1 == Drained(left + more).1
    decreases |raw|
  {
    hide RecordSize, Carried;
    if !Idle(raw) {
      SameFront(raw, more);
      SameCarried(raw, more);
      DrainedStep(raw);
      DrainedStep(raw + more);
      DrainedTwice(raw[5 + RecordSize(raw)..], more);
    }
  }

  lemma SameCarried(raw: Bytes, more: Bytes)
    requires !Idle(raw)
    ensures !Idle(raw + more) && Carried(raw + more) == Carried(raw)
  {
    SameFront(raw, more);
    assert (raw + more)[5..5 + RecordSize(raw)] == raw[5..5 + RecordSize(raw)];
  }

  /** After a record of unknown type the moment has passed. */
  lemma {:induction false} SpoiltAlready(need: nat, have: nat, raw: Bytes, next: seq<Bytes>)
    requires !Clean(raw)
    ensures !Spoils(need, have, true, raw, next)
    decreases |next|
  {
    hide Clean, Payload;
    if next != [] {
      CleanLater(raw, next[0]);
      SpoiltAlready(need, have, raw + next[0], next[1..]);
    }
  }

  /** When nothing is needed any more, nothing can be spoilt. */
  lemma {:induction false} NothingNeeded(need: nat, have: nat, hello: bool, seen: Bytes, next: seq<Bytes>)
    requires have >= need
    ensures !Spoils(need, have, hello, seen, next)
    decreases |next|
  {
    if next != [] { NothingNeeded(need, have, hello, seen + next[0], next[1..]); }
  }

  // ---- the handshake ----

  lemma {:induction false} SpoilsAfterHello(need: nat, have: nat, seen: Bytes, next: seq<Bytes>)
    requires !ParseHello(seen).Incomplete?
    ensures ParseHello(seen).Ready? ==>
              Spoils(need, have, false, seen, next) == Spoils(need, have, true, seen[ParseHello(seen).used..], next)
    ensures ParseHello(seen).Malformed? ==> !Spoils(need, have, false, seen, next)
    decreases |next|
  {
    hide ParseHello, Clean, Payload;
    NothingIsClean();
    if next != [] {
      HelloStable(seen, next[0]);
      SpoilsAfterHello(need, have, seen + next[0], next[1..]);
      if ParseHello(seen).Ready? {
        var used := ParseHello(seen).used;
        assert used <= |seen| by { HelloFits(seen); }
        assert (seen + next[0])[used..] == seen[used..] + next[0];
      }
    }
  }

  lemma HelloFits(b: Bytes)
    requires ParseHello(b).Ready?
    ensures ParseHello(b).used <= |b|
  {
  }

  // ---- the reads ----

  /** A link as a connection has it: before the handshake nothing is decoded. */
  predicate Sound(l: Link) { !l.hello ==> l.dec == [] && !ParseHello(l.raw).Ready? }

  lemma SpoiltUnfold(need: nat, have: nat, l: Link)
    ensures Spoilt(need, have, l)
         == (SpoilsHere(need, have + |l.dec|, l.hello, [], l.raw)
             || Spoils(need, have + |l.dec|, l.hello, l.raw, Arrivals(l.incoming, 16384)))
  {
    hide SpoilsHere, Arrivals;
    var s := Seen(l);
    assert s[0] == l.raw && s[1..] == Arrivals(l.incoming, 16384) && [] + l.raw == l.raw;
  }

  /** Arrival after arrival. */
  lemma ArrivalsUnfold(incoming: seq<Bytes>)
    requires incoming != []
    ensures var (buf, rest) := Pull(incoming, 16384);
            && Arrivals(incoming, 16384)[0] == buf && Arrivals(incoming, 16384)[1..] == Arrivals(rest, 16384)
            && Arrivals(incoming, 16384) != []
  {
  }

  /** The drain at the start of a read. */
  lemma SpoiltByDrain(need: nat, have: nat, l: Link)
    requires Sound(l) && l.dec == [] && have < need && (!l.hello ==> have == 0)
    ensures var (l1, bad) := DrainLink(l);
            && (bad ==> (Spoilt(need, have, l) <==> have > 0))
            && (!bad ==> Sound(l1) && Spoilt(need, have, l) == Spoilt(need, have, l1)
                         && Spoilt(need, have, l) == Spoils(need, have + |l1.dec|, l1.hello, l1.raw, Arrivals(l.incoming, 16384)))
            && (!bad && l.hello ==> Idle(l1.raw))
  {
    hide Payload, Drained, ParseHello, Spoils, Arrivals;
    NothingIsClean();
    var next := Arrivals(l.incoming, 16384);
    SpoiltUnfold(need, have, l);
    var (l1, bad) := DrainLink(l);
    SpoiltUnfold(need, have, l1);
    EmptyTunnel();
    assert [] + l.raw == l.raw && [] + l1.raw == l1.raw;
    if l.hello {
      DrainedPayload(l.raw, []);
      if bad {
        SpoiltAlready(need, have, l.raw, next);
      } else {
        SpoilsAfterDrain(need, have, l.raw, next);
        IdleStays(l1.raw);
        assert l.dec + Drained(l.raw).0 == Drained(l.raw).0;
      }
    }
  }

  lemma EmptyTunnel()
    ensures forall hello :: Tunnel(hello, []) == []
  {
  }

  /** One arrival that does not end the read. */
  lemma SpoiltByArrival(need: nat, have: nat, l: Link, buf: Bytes, incoming: seq<Bytes>)
    requires Sound(l) && l.dec == [] && have < need && (!l.hello ==> have == 0) && (l.hello ==> Idle(l.raw))
    ensures var (l2, malformed) := Arrive(l, buf, incoming);
            var s := Spoils(need, have, l.hello, l.raw, [buf] + Arrivals(incoming, 16384));
            && Sound(l2) && l2.dec == [] && (malformed ==> !s && have == 0)
            && (!malformed ==> s == Spoilt(need, have, l2) && (l.hello ==> l2.hello))
  {
    hide Payload, Drained, ParseHello, Arrivals;
    NothingIsClean();
    EmptyTunnel();
    var next := Arrivals(incoming, 16384);
    assert ([buf] + next)[0] == buf && ([buf] + next)[1..] == next;
    var raw := l.raw + buf;
    var (l2, malformed) := Arrive(l, buf, incoming);
    SpoiltUnfold(need, have, l2);
    assert [] + raw == raw && [] + l2.raw == l2.raw;
    if l.hello {
      IdleStays(l.raw);
      DrainedPayload(l.raw, []);
      IdleHasNoPayload(l.raw);
    } else if !ParseHello(raw).Incomplete? {
      SpoilsAfterHello(need, have, raw, next);
    }
  }

  lemma IdleHasNoPayload(raw: Bytes)
    requires Idle(raw)
    ensures Payload(raw) == [] && Clean(raw)
  {
  }

  /** What one read does to what is spoilt. */
  lemma {:induction false} ReadSpoils(need: nat, have: nat, l: Link)
    requires Sound(l) && have < need && (!l.hello ==> have == 0)
    ensures var (data, status, l') := ReadLink(need - have, l);
            && (status == Ok ==> Sound(l') && l'.hello && Spoilt(need, have, l) == Spoilt(need, have + |data|, l'))
            && (status == Refused ==> (Spoilt(need, have, l) <==> have > 0))
            && (status == Eof ==> !Spoilt(need, have, l))
    decreases |l.incoming| + |Flatten(l.incoming)|
  {
    hide Spoilt, Spoils, DrainLink, Arrive, Arrivals, Sound, Pull;
    var n := need - have;
    if l.dec != [] {
      TakeKeepsSpoilt(need, have, n, l);
    } else {
      var (l1, bad) := DrainLink(l);
      SpoiltByDrain(need, have, l);
      DrainLinkShape(l);
      if !bad && l1.dec != [] {
        TakeKeepsSpoilt(need, have, n, l1);
      } else if !bad {
        var (buf, incoming) := if l.incoming == [] then ([], []) else Pull(l.incoming, 16384);
        SpoiltByArrival(need, have, l1, buf, incoming);
        if l.incoming == [] {
          NothingArrives(need, have, l1, buf);
        } else {
          ArrivalsUnfold(l.incoming);
          assert Arrivals(l.incoming, 16384) == [buf] + Arrivals(incoming, 16384);
          var (l2, malformed) := Arrive(l1, buf, incoming);
          assert l2.incoming == incoming by { ArriveShape(l1, buf, incoming); }
          if !malformed { ReadSpoils(need, have, l2); }
        }
      }
    }
  }

  lemma DrainLinkShape(l: Link)
    ensures DrainLink(l).0.hello == l.hello && (!l.hello ==> DrainLink(l) == (l, false))
  {
  }

  lemma ArriveShape(l: Link, buf: Bytes, incoming: seq<Bytes>)
    ensures Arrive(l, buf, incoming).0.incoming == incoming
  {
  }

  lemma NothingArrives(need: nat, have: nat, l: Link, buf: Bytes)
    ensures Arrivals([], 16384) == [] && !Spoils(need, have, l.hello, l.raw, [])
  {
  }

  lemma TakeKeepsSpoilt(need: nat, have: nat, n: nat, l: Link)
    requires l.dec != [] && Sound(l)
    ensures var (data, _, l') := Take(n, l);
            Sound(l') && l'.hello && Spoilt(need, have, l) == Spoilt(need, have + |data|, l')
  {
    hide ParseHello;
    var (data, _, l') := Take(n, l);
    assert have + |data| + |l'.dec| == have + |l.dec|;
  }

  lemma {:induction false} FullIff(need: nat, have: nat, l: Link)
    requires Sound(l) && have <= need && (!l.hello ==> have == 0)
    ensures var (got, status, _) := ReadAll(need - have, l);
            status == Refused && have + |got| > 0 <==> Spoilt(need, have, l)
    decreases need - have
  {
    hide ReadLink, Spoils, Sound;
    if have == need {
      NothingNeeded(need, have + |l.dec|, l.hello, [], Seen(l));
    } else {
      ReadSpoils(need, have, l);
      var (data, status, l1) := ReadLink(need - have, l);
      if status == Ok { FullIff(need, have + |data|, l1); }
    }
  }

  /** A part of the IV is read and thrown away if and only if some arrival had delivered such a part and
      the next one completes a record of unknown type. */
  lemma LossIff(need: nat, l: Link)
    requires Sound(l)
    ensures var (got, status, _) := ReadAll(need, l); status == Refused && got != [] <==> LosesIV(need, l)
  {
    hide ReadAll, Spoils;
    FullIff(need, 0, l);
    SpoilsIff(need, |l.dec|, l.hello, [], Seen(l));
    var s := Seen(l);
    assert forall j :: 0 <= j <= |s| ==> [] + Flatten(s[..j]) == Flatten(s[..j]);
  }

  // ---- an example ----

  lemma ReadDrains(n: nat, raw: Bytes, incoming: seq<Bytes>)
    ensures var (payload, left, bad) := Drained(raw);
            && (bad ==> ReadLink(n, Link(true, raw, [], incoming)) == ([], Refused, Link(true, left, payload, incoming)))
            && (!bad && 0 < |payload| <= n ==>
                  ReadLink(n, Link(true, raw, [], incoming)) == (payload, Ok, Link(true, left, [], incoming)))
  {
    hide Drained, Arrive, Pull;
    var payload := Drained(raw).0;
    assert [] + payload == payload && payload[..|payload|] == payload && payload[|payload|..] == [];
  }

  lemma ReadWaits(n: nat, first: Bytes, rest: seq<Bytes>)
    requires |first| <= 16384
    ensures ReadLink(n, Link(true, [], [], [first] + rest)) == ReadLink(n, Link(true, first, [], rest))
  {
    IdleStays([]);
    assert [] + first == first && ([first] + rest)[1..] == rest;
    assert Pull([first] + rest, 16384) == (first, rest);
    var none: Bytes := [];
    var l := Link(true, none, none, [first] + rest);
    assert none + none == none;
    assert Drained(none) == (none, none, false);
    assert DrainLink(l) == (l, false);
    assert Arrive(l, first, rest) == (Link(true, first, [], rest), false);
    hide DrainLink, Arrive, Pull, Take;
  }

  /** One byte of payload; an empty record of type 0x63. */
  const ONE: Bytes := [0x17, 0x03, 0x03, 0, 1, 1]
  const BAD: Bytes := [0x63, 0x03, 0x03, 0, 0]

  lemma DrainExample()
    ensures Drained(ONE) == ([1], [], false) && Drained(BAD) == ([], [], true) && Drained(ONE + BAD) == ([1], [], true)
  {
    var all := ONE + BAD;
    assert ONE[3..5] == [0, 1] && ONE[5..6] == [1] && ONE[6..] == [];
    assert BAD[3..5] == [0, 0] && BAD[5..] == [];
    assert all[3..5] == [0, 1] && all[5..6] == [1] && all[6..] == BAD;
    assert RecordSize(ONE) == RecordSize(all) == 1 && RecordSize(BAD) == 0;
    hide Drained, RecordSize;
    IdleStays([]);
    DrainedStep(ONE);
    DrainedStep(BAD);
    DrainedStep(all);
    assert [1] + [] == [1];
  }

  /** A sixteen-byte IV of which one byte arrives before the bad record: the byte is lost if the two arrive
      one after the other, and kept for the next read if they arrive together. */
  lemma LossDependsOnArrival()
    ensures ReadAll(16, Link(true, [], [], [ONE, BAD])) == ([1], Refused, Link(true, [], [], []))
    ensures ReadAll(16, Link(true, [], [], [ONE + BAD])) == ([], Refused, Link(true, [], [1], []))
  {
    hide ReadLink, ReadAll, Drained;
    DrainExample();
    var none: Bytes, no: seq<Bytes> := [], [];
    var pair, both := [ONE] + [BAD], [ONE + BAD] + no;
    assert pair == [ONE, BAD] && both == [ONE + BAD] && [BAD] + no == [BAD];
    ReadWaits(16, ONE, [BAD]);
    ReadDrains(16, ONE, [BAD]);
    ReadAllUnfold(16, Link(true, none, none, pair), none);
    ReadWaits(15, BAD, no);
    ReadDrains(15, BAD, no);
    ReadAllUnfold(15, Link(true, none, none, [BAD]), [1]);
    assert ReadAll(15, Link(true, none, none, [BAD])) == ([], Refused, Link(true, [], [], []));
    ReadWaits(16, ONE + BAD, no);
    ReadDrains(16, ONE + BAD, no);
    ReadAllUnfold(16, Link(true, none, none, both), none);
  }
}
