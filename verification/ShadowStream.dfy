/** The ShadowStream multiplexer on the wire (common/shadowflow/stream.go). */
module ShadowStream {
  import opened Octets
  import opened Wire

  const DATA: byte := 0x00
  const PADDING: byte := 0x01

  datatype Frame = Frame(typ: byte, flags: byte, id: u16, payload: Bytes)

  /** Serialise; a payload that does not fit the length field is an error. */
  function Marshal(f: Frame): Option<Bytes> {
    if |f.payload| > 65535 then None
    else Some([f.typ, f.flags] + PutBE16(f.id) + PutBE16(|f.payload|) + f.payload)
  }

  /** The frame at the front of `b` and what follows it. */
  function Front(b: Bytes): Option<(Frame, Bytes)> {
    if |b| < 6 then None else
      var n: nat := BE16(b[4..6]);
      if |b| < 6 + n then None else Some((Frame(b[0], b[1], BE16(b[2..4]), b[6..6 + n]), b[6 + n..]))
  }

  function Parse(b: Bytes): seq<Frame>
    decreases |b|
  {
    match Front(b)
    case None => []
    case Some((f, rest)) => [f] + Parse(rest)
  }

  /** A frame byte by byte: type, flags, stream id and length with the high byte first, payload. */
  lemma FrameLayout(f: Frame)
    requires |f.payload| <= 65535
    ensures var w := Marshal(f).value;
            && |w| == 6 + |f.payload| && w[0] == f.typ && w[1] == f.flags
            && BigValue(w[2..4]) == f.id && BigValue(w[4..6]) == |f.payload| && w[6..] == f.payload
  {
    var w := Marshal(f).value;
    assert w[2..4] == PutBE16(f.id) && w[4..6] == PutBE16(|f.payload|);
    BigEndian16(w[2..4], f.id);
    BigEndian16(w[4..6], |f.payload|);
  }

  lemma FrontOfMarshal(f: Frame, rest: Bytes)
    requires |f.payload| <= 65535
    ensures Front(Marshal(f).value + rest) == Some((f, rest))
    ensures Parse(Marshal(f).value + rest) == [f] + Parse(rest)
  {
    var b, n := Marshal(f).value + rest, |f.payload|;
    assert b[2..4] == PutBE16(f.id) && b[4..6] == PutBE16(n);
    assert b[6..6 + n] == f.payload && b[6 + n..] == rest;
    assert BE16(PutBE16(f.id)) == f.id && BE16(PutBE16(n)) == n;
  }

  method ReadFrame(sock: Socket) returns (f: Option<Frame>)
    modifies sock`incoming
    ensures f.None? <==> Front(old(sock.Coming())).None?
    ensures f.Some? ==> Front(old(sock.Coming())) == Some((f.value, sock.Coming()))
  {
    ghost var all := sock.Coming();
    var header, ok := sock.ReadFull(6);
    if !ok {
      return None;
    }
    assert all[..6] == header;
    assert all[2..4] == header[2..4] && all[4..6] == header[4..6];
    var n: nat := BE16(header[4..6]);
    var payload: Bytes := [];
    ghost var mid := sock.Coming();
    if n > 0 {
      payload, ok := sock.ReadFull(n);
      if !ok {
        return None;
      }
    }
    assert mid == payload + sock.Coming();
    assert all[6..6 + n] == payload && all[6 + n..] == sock.Coming();
    f := Some(Frame(header[0], header[1], BE16(header[2..4]), payload));
  }

  // ---- sampled sizes ----

  /** A weighted range of record sizes; a profile read from a file may hold any numbers. */
  datatype SizeRange = SizeRange(min: int, max: int, weight: int)

  datatype Profile = Profile(sizes: seq<SizeRange>, minRecord: int)

  /** `rand.Intn` panics if it is asked for a number below one that is not positive. */
  datatype Sampled = Size(size: int) | Panic

  /** Sum of the first `n` weights. */
  function Cum(ranges: seq<SizeRange>, n: nat): int
    requires n <= |ranges|
  {
    if n == 0 then 0 else Cum(ranges, n - 1) + ranges[n - 1].weight
  }

  function Total(ranges: seq<SizeRange>): int { Cum(ranges, |ranges|) }

  /** The range that `pick` falls into, from the `i`-th on. */
  function Chosen(ranges: seq<SizeRange>, i: nat, pick: nat): (c: nat)
    requires i <= |ranges|
    ensures i <= c <= |ranges|
    decreases |ranges| - i
  {
    if i == |ranges| || pick < Cum(ranges, i + 1) then i else Chosen(ranges, i + 1, pick)
  }

  function Roll(r: SizeRange, roll: nat): Sampled {
    if r.min <= r.max then Size(r.min + roll % (r.max - r.min + 1)) else Panic
  }

  /** A sample, from two random numbers. */
  function Sample(ranges: seq<SizeRange>, pick: nat, roll: nat): Sampled {
    if Total(ranges) == 0 then Size(512)
    else if Total(ranges) < 0 then Panic
    else
      var c := Chosen(ranges, 0, pick % Total(ranges));
      if c < |ranges| then Roll(ranges[c], roll) else Panic
  }

  method SampleSize(ranges: seq<SizeRange>, pick: nat, roll: nat) returns (s: Sampled)
    ensures s == Sample(ranges, pick, roll)
  {
    var total := 0;
    for i := 0 to |ranges|
      invariant total == Cum(ranges, i)
    {
      total := total + ranges[i].weight;
    }
    if total == 0 {
      return Size(512);
    }
    if total < 0 {
      return Panic;
    }
    var at, cumulative := pick % total, 0;
    for i := 0 to |ranges|
      invariant cumulative == Cum(ranges, i)
      invariant Chosen(ranges, 0, at) == Chosen(ranges, i, at)
    {
      cumulative := cumulative + ranges[i].weight;
      if at < cumulative {
        var r := ranges[i];
        if r.min == r.max {
          return Size(r.min);
        }
        if r.max - r.min + 1 <= 0 {
          return Panic;
        }
        return Size(r.min + roll % (r.max - r.min + 1));
      }
    }
    SomeRangeIsChosen(ranges, at);
  }

  /** A range yields exactly the sizes in it. */
  lemma RollCovers(r: SizeRange, n: int)
    ensures (exists roll: nat :: Roll(r, roll) == Size(n)) <==> r.min <= n <= r.max
  {
    if r.min <= n <= r.max {
      SmallMod(n - r.min, r.max - r.min + 1);
      assert Roll(r, n - r.min) == Size(n);
    }
  }

  /** The highest that the running sum gets within the first `n` ranges, at least zero. */
  function High(ranges: seq<SizeRange>, n: nat): nat
    requires n <= |ranges|
  {
    if n == 0 then 0 else Max(High(ranges, n - 1), Cum(ranges, n))
  }

  /** Some pick selects this range. */
  predicate Selectable(ranges: seq<SizeRange>, i: nat)
    requires i < |ranges|
  {
    High(ranges, i) < Min(Cum(ranges, i + 1), Total(ranges))
  }

  lemma {:induction false} ChosenIff(ranges: seq<SizeRange>, i: nat, c: nat, pick: nat)
    requires i <= c < |ranges| && High(ranges, i) <= pick
    ensures Chosen(ranges, i, pick) == c <==> High(ranges, c) <= pick < Cum(ranges, c + 1)
    decreases c - i
  {
    if i < c {
      if pick < Cum(ranges, i + 1) {
        HighGrows(ranges, i + 1, c);
      } else {
        ChosenIff(ranges, i + 1, c, pick);
      }
    }
  }

  lemma {:induction false} HighGrows(ranges: seq<SizeRange>, i: nat, n: nat)
    requires i <= n <= |ranges|
    ensures High(ranges, i) <= High(ranges, n) && Cum(ranges, i) <= High(ranges, n)
    decreases n - i
  {
    if i < n { HighGrows(ranges, i, n - 1); }
  }

  /** The fallback behind the loop is never reached. */
  lemma SomeRangeIsChosen(ranges: seq<SizeRange>, pick: nat)
    requires pick < Total(ranges)
    ensures Chosen(ranges, 0, pick) < |ranges|
  {
    if Chosen(ranges, 0, pick) == |ranges| { NoneChosen(ranges, 0, pick); }
  }

  lemma {:induction false} NoneChosen(ranges: seq<SizeRange>, i: nat, pick: nat)
    requires i < |ranges| && Chosen(ranges, i, pick) == |ranges|
    ensures Total(ranges) <= pick
    decreases |ranges| - i
  {
    if i + 1 < |ranges| { NoneChosen(ranges, i + 1, pick); }
  }

  /** With the weights a distribution is meant to have, the selectable ranges are those of positive weight. */
  lemma SelectableMeansWeighted(ranges: seq<SizeRange>, i: nat)
    requires i < |ranges| && forall k :: 0 <= k < |ranges| ==> ranges[k].weight >= 0
    ensures Selectable(ranges, i) <==> ranges[i].weight > 0
  {
    CumGrows(ranges, 0, i);
    CumGrows(ranges, i + 1, |ranges|);
  }

  lemma {:induction false} CumGrows(ranges: seq<SizeRange>, i: nat, n: nat)
    requires i <= n <= |ranges| && forall k :: 0 <= k < |ranges| ==> ranges[k].weight >= 0
    ensures Cum(ranges, i) <= Cum(ranges, n)
    ensures i == 0 ==> High(ranges, n) == Cum(ranges, n)
    decreases n - i
  {
    if i < n { CumGrows(ranges, i, n - 1); }
  }

  // ---- writeData ----

  /** The random numbers of one turn of the loop: for the record size, and for the padding frame after
      the record, if there is one. */
  datatype Turn = Turn(pick: nat, roll: nat, inject: bool, padPick: nat, padRoll: nat, noise: nat -> byte)

  type Dice = nat -> Turn

  /** A sampled size raised to the smallest record of the profile; none if sampling panics. */
  function Record(p: Profile, pick: nat, roll: nat): Option<int> {
    match Sample(p.sizes, pick, roll)
    case Size(n) => Some(Max(n, p.minRecord))
    case Panic => None
  }

  /** A record that has room for something behind the frame header. */
  predicate Roomy(r: Option<int>) { r.Some? && r.value > 6 }

  /** Payload bytes taken into the next frame. */
  function ChunkSize(record: int, remaining: nat): int { Min(Min(record - 6, remaining), 65535) }

  /** What this turn does with the rest of the data: it panics, stays where it is, or takes some. */
  predicate Advances(p: Profile, t: Turn, remaining: nat) {
    var r := Record(p, t.pick, t.roll);
    r.Some? && ChunkSize(r.value, remaining) > 0
  }

  /** A profile that can be relied on: its weights do not sum to a negative number, and every range that
      can be selected is a range and leaves room for payload. */
  predicate Reliable(p: Profile) {
    && Total(p.sizes) >= 0
    && forall i :: 0 <= i < |p.sizes| && Selectable(p.sizes, i) ==>
         p.sizes[i].min <= p.sizes[i].max && Max(p.sizes[i].min, p.minRecord) > 6
  }

  lemma RoomyIsEnough(p: Profile, pick: nat, roll: nat)
    requires Reliable(p)
    ensures Roomy(Record(p, pick, roll))
  {
    hide Chosen, Selectable;
    var total := Total(p.sizes);
    if total > 0 {
      var at := pick % total;
      var c := Chosen(p.sizes, 0, at);
      SomeRangeIsChosen(p.sizes, at);
      ChosenIff(p.sizes, 0, c, at);
      assert Selectable(p.sizes, c) by { SelectedBy(p.sizes, c, at); }
    }
  }

  lemma SelectedBy(ranges: seq<SizeRange>, c: nat, pick: nat)
    requires c < |ranges| && High(ranges, c) <= pick < Min(Cum(ranges, c + 1), Total(ranges))
    ensures Selectable(ranges, c)
  {
  }

  /** A range that can be selected and is no range, or leaves no room, is selected by some numbers. */
  lemma UnreliableFails(p: Profile) returns (pick: nat)
    requires !Reliable(p)
    ensures !Roomy(Record(p, pick, 0))
  {
    hide Chosen;
    pick := 0;
    if Total(p.sizes) >= 0 {
      var i :| 0 <= i < |p.sizes| && Selectable(p.sizes, i)
               && !(p.sizes[i].min <= p.sizes[i].max && Max(p.sizes[i].min, p.minRecord) > 6);
      pick := High(p.sizes, i);
      ChosenIff(p.sizes, 0, i, pick);
      SmallMod(pick, Total(p.sizes));
      ZeroRoll(p.sizes[i]);
    }
  }

  lemma SmallMod(x: nat, m: nat)
    requires x < m
    ensures x % m == x
  {
  }

  lemma ZeroRoll(r: SizeRange)
    ensures Roll(r, 0) == if r.min <= r.max then Size(r.min) else Panic
  {
    if r.min <= r.max { SmallMod(0, r.max - r.min + 1); }
  }

  /** The loop makes progress in every turn, whatever is drawn, exactly for the reliable profiles. */
  lemma ProgressIff(p: Profile, remaining: nat)
    requires remaining > 0
    ensures (forall t: Turn :: Advances(p, t, remaining)) <==> Reliable(p)
  {
    hide Record, Reliable;
    if Reliable(p) {
      forall t: Turn ensures Advances(p, t, remaining) { RoomyIsEnough(p, t.pick, t.roll); }
    } else {
      var pick := UnreliableFails(p);
      assert !Advances(p, Turn(pick, 0, false, 0, 0, _ => 0), remaining);
    }
  }

  /** A profile as a file may give it, without a smallest record and with one range of six bytes: every
      turn of the loop sends an empty frame and takes nothing. */
  lemma SixBytesStandStill(t: Turn, remaining: nat)
    requires remaining > 0
    ensures var p := Profile([SizeRange(6, 6, 1)], 0);
            && !Reliable(p) && !Advances(p, t, remaining)
            && Record(p, t.pick, t.roll) == Some(6) && ChunkSize(6, remaining) == 0
  {
    var ranges := [SizeRange(6, 6, 1)];
    assert Cum(ranges, 0) == 0 && Cum(ranges, 1) == 1 && Total(ranges) == 1 && High(ranges, 0) == 0;
    assert Selectable(ranges, 0);
    assert Chosen(ranges, 0, t.pick % 1) == 0;
  }

  /** And one that works although its smallest record is none at all. */
  lemma NoMinimumNeeded()
    ensures Reliable(Profile([SizeRange(26, 120, 25), SizeRange(121, 500, 30)], 0))
  {
    var ranges := [SizeRange(26, 120, 25), SizeRange(121, 500, 30)];
    assert Cum(ranges, 0) == 0 && Cum(ranges, 1) == 25 && Cum(ranges, 2) == 55;
  }

  function DataFrame(id: u16, payload: Bytes): Frame { Frame(DATA, 0, id, payload) }

  /** Padding goes out on stream 0 and is cut at 2048 bytes. */
  function PaddingFrame(record: nat, noise: nat -> byte): Frame {
    Frame(PADDING, 0, 0, seq(Min(record, 2048), (i: nat) => noise(i)))
  }

  /** Padding may be of any size but a negative one. */
  predicate Padded(r: Option<int>) { r.Some? && r.value >= 0 }

  function PaddingWire(p: Profile, t: Turn): Bytes
    requires t.inject ==> Padded(Record(p, t.padPick, t.padRoll))
  {
    if t.inject then Marshal(PaddingFrame(Record(p, t.padPick, t.padRoll).value, t.noise)).value else []
  }

  /** What is drawn in this turn neither panics nor stands still. */
  predicate Works(p: Profile, t: Turn) {
    Roomy(Record(p, t.pick, t.roll)) && (t.inject ==> Padded(Record(p, t.padPick, t.padRoll)))
  }

  /** The bytes that a turn takes. */
  function Taken(p: Profile, t: Turn, remaining: nat): (n: nat)
    requires Works(p, t) && remaining > 0
    ensures 0 < n <= remaining && n <= 65535
  {
    ChunkSize(Record(p, t.pick, t.roll).value, remaining)
  }

  /** Every turn that a writeData of `remaining` bytes takes from turn `k` on works. */
  predicate AllWork(p: Profile, dice: Dice, k: nat, remaining: nat)
    decreases remaining
  {
    remaining == 0 || (Works(p, dice(k)) && AllWork(p, dice, k + 1, remaining - Taken(p, dice(k), remaining)))
  }

  lemma {:induction false} ReliableWorks(p: Profile, dice: Dice, k: nat, remaining: nat)
    requires Reliable(p)
    ensures AllWork(p, dice, k, remaining)
    decreases remaining
  {
    hide Reliable, Record;
    if remaining > 0 {
      RoomyIsEnough(p, dice(k).pick, dice(k).roll);
      RoomyIsEnough(p, dice(k).padPick, dice(k).padRoll);
      ReliableWorks(p, dice, k + 1, remaining - Taken(p, dice(k), remaining));
    }
  }

  /** The wire of one writeData from turn `k` on. */
  function DataWire(p: Profile, dice: Dice, k: nat, id: u16, data: Bytes): Bytes
    requires AllWork(p, dice, k, |data|)
    decreases |data|
  {
    if data == [] then [] else
      var n := Taken(p, dice(k), |data|);
      Marshal(DataFrame(id, data[..n])).value + PaddingWire(p, dice(k)) + DataWire(p, dice, k + 1, id, data[n..])
  }

  /** A record on the wire, header included, is as long as was drawn, unless the data ends before or the
      length field cannot hold it; the padding after it is as long as was drawn, up to 2048. */
  lemma RecordOnWire(p: Profile, t: Turn, id: u16, data: Bytes)
    requires Works(p, t) && data != []
    ensures var n := Taken(p, t, |data|);
            var w := Marshal(DataFrame(id, data[..n])).value;
            && |w| == Min(Record(p, t.pick, t.roll).value, Min(6 + |data|, 6 + 65535)) && w[0] == 0 && w[6..] == data[..n]
            && (!t.inject ==> PaddingWire(p, t) == [])
            && (t.inject ==>
                  var q := PaddingWire(p, t);
                  && |q| == 6 + Min(Record(p, t.padPick, t.padRoll).value, 2048) && q[0] == 1 && q[2..4] == [0, 0])
  {
    hide Record;
    FrameLayout(DataFrame(id, data[..Taken(p, t, |data|)]));
    if t.inject {
      FrameLayout(PaddingFrame(Record(p, t.padPick, t.padRoll).value, t.noise));
    }
  }

  /** What is drawn: a size of the range that the number picks, raised to the smallest record. */
  lemma RecordIs(p: Profile, pick: nat, roll: nat)
    ensures Total(p.sizes) == 0 ==> Record(p, pick, roll) == Some(Max(512, p.minRecord))
    ensures Total(p.sizes) > 0 ==>
              var c := Chosen(p.sizes, 0, pick % Total(p.sizes));
              && c < |p.sizes| && (Record(p, pick, roll).Some? <==> p.sizes[c].min <= p.sizes[c].max)
              && (Record(p, pick, roll).Some? ==>
                    exists n :: p.sizes[c].min <= n <= p.sizes[c].max && Record(p, pick, roll) == Some(Max(n, p.minRecord)))
    ensures Total(p.sizes) < 0 ==> Record(p, pick, roll).None?
  {
    hide Chosen;
    if Total(p.sizes) > 0 { SomeRangeIsChosen(p.sizes, pick % Total(p.sizes)); }
  }

  lemma TurnUnfold(p: Profile, dice: Dice, k: nat, id: u16, data: Bytes, sent: Bytes)
    requires AllWork(p, dice, k, |data|)
    ensures data == [] ==> DataWire(p, dice, k, id, data) == [] && sent + [] == sent
    ensures data != [] ==>
              && Works(p, dice(k))
              && var n := Taken(p, dice(k), |data|);
              && AllWork(p, dice, k + 1, |data| - n)
              && sent + DataWire(p, dice, k, id, data)
              == (sent + Marshal(DataFrame(id, data[..n])).value + PaddingWire(p, dice(k)))
                 + DataWire(p, dice, k + 1, id, data[n..])
  {
    hide Marshal, Record, Taken;
    if data != [] {
      var n := Taken(p, dice(k), |data|);
      MarshalSome(DataFrame(id, data[..n]));
      var m, pad := Marshal(DataFrame(id, data[..n])).value, PaddingWire(p, dice(k));
      var rest := DataWire(p, dice, k + 1, id, data[n..]);
      assert sent + (m + pad + rest) == (sent + m + pad) + rest;
    }
  }

  /** One call that holds the write lock: application data, under the profile then active and with the
      numbers then drawn, or a control frame of another type. */
  datatype Call =
    | Data(profile: Profile, dice: Dice, id: u16, data: Bytes)
    | Control(typ: byte, id: u16, payload: Bytes)

  predicate Lawful(c: Call) {
    match c
    case Data(p, dice, _, data) => AllWork(p, dice, 0, |data|)
    case Control(typ, _, _) => typ != DATA
  }

  function CallWire(c: Call): Bytes
    requires Lawful(c)
  {
    match c
    case Data(p, dice, id, data) => DataWire(p, dice, 0, id, data)
    case Control(typ, id, payload) =>
      var w := Marshal(Frame(typ, 0, id, payload));
      if w.Some? then w.value else []
  }

  function CallsWire(cs: seq<Call>): Bytes
    requires forall i :: 0 <= i < |cs| ==> Lawful(cs[i])
  {
    if cs == [] then [] else CallWire(cs[0]) + CallsWire(cs[1..])
  }

  /** The bytes of one stream in a sequence of frames. */
  function StreamBytes(fs: seq<Frame>, id: u16): Bytes {
    if fs == [] then []
    else (if fs[0].typ == DATA && fs[0].id == id then fs[0].payload else []) + StreamBytes(fs[1..], id)
  }

  /** The bytes written to one stream. */
  function Written(cs: seq<Call>, id: u16): Bytes {
    if cs == [] then []
    else (if cs[0].Data? && cs[0].id == id then cs[0].data else []) + Written(cs[1..], id)
  }

  lemma StreamBytesCons(f: Frame, fs: seq<Frame>, id: u16)
    ensures StreamBytes([f] + fs, id) == (if f.typ == DATA && f.id == id then f.payload else []) + StreamBytes(fs, id)
  {
    assert ([f] + fs)[1..] == fs;
  }

  /** A frame of another kind or stream in front changes nothing for this one. */
  lemma SkipFrame(f: Frame, rest: Bytes, id: u16)
    requires |f.payload| <= 65535 && (f.typ != DATA || f.id != id)
    ensures StreamBytes(Parse(Marshal(f).value + rest), id) == StreamBytes(Parse(rest), id)
  {
    FrontOfMarshal(f, rest);
    StreamBytesCons(f, Parse(rest), id);
  }

  lemma {:induction false} DataWireReads(p: Profile, dice: Dice, k: nat, sid: u16, data: Bytes, rest: Bytes, id: u16)
    requires AllWork(p, dice, k, |data|)
    ensures StreamBytes(Parse(DataWire(p, dice, k, sid, data) + rest), id)
         == (if sid == id then data else []) + StreamBytes(Parse(rest), id)
    decreases |data|
  {
    hide Parse, Marshal, StreamBytes, Record, DataWire, PaddingWire, AllWork, Taken;
    TurnUnfold(p, dice, k, sid, data, []);
    var w := DataWire(p, dice, k, sid, data);
    assert [] + w == w;
    if data == [] {
      assert w + rest == rest;
    } else {
      var n := Taken(p, dice(k), |data|);
      var f, pad := DataFrame(sid, data[..n]), PaddingWire(p, dice(k));
      var tail := DataWire(p, dice, k + 1, sid, data[n..]) + rest;
      MarshalSome(f);
      assert w + rest == Marshal(f).value + (pad + tail);
      FrontOfMarshal(f, pad + tail);
      StreamBytesCons(f, Parse(pad + tail), id);
      PaddingIsSkipped(p, dice(k), tail, id);
      DataWireReads(p, dice, k + 1, sid, data[n..], rest, id);
      assert data == data[..n] + data[n..];
    }
  }

  lemma MarshalSome(f: Frame)
    ensures Marshal(f).Some? <==> |f.payload| <= 65535
  {
  }

  lemma PaddingIsSkipped(p: Profile, t: Turn, rest: Bytes, id: u16)
    requires t.inject ==> Padded(Record(p, t.padPick, t.padRoll))
    ensures StreamBytes(Parse(PaddingWire(p, t) + rest), id) == StreamBytes(Parse(rest), id)
  {
    hide Parse, Marshal, StreamBytes, Record;
    if t.inject {
      var f := PaddingFrame(Record(p, t.padPick, t.padRoll).value, t.noise);
      MarshalSome(f);
      SkipFrame(f, rest, id);
    } else {
      assert [] + rest == rest;
    }
  }

  lemma CallReads(c: Call, rest: Bytes, id: u16)
    requires Lawful(c)
    ensures StreamBytes(Parse(CallWire(c) + rest), id)
         == (if c.Data? && c.id == id then c.data else []) + StreamBytes(Parse(rest), id)
  {
    hide Parse, Marshal, StreamBytes, DataWire, AllWork;
    match c
    case Data(p, dice, sid, data) => DataWireReads(p, dice, 0, sid, data, rest, id);
    case Control(typ, sid, payload) =>
      var f := Frame(typ, 0, sid, payload);
      MarshalSome(f);
      if |payload| <= 65535 {
        SkipFrame(f, rest, id);
      } else {
        assert [] + rest == rest;
      }
  }

  /** For every interleaving of whole calls, every profile active at each, every draw that was made and left
      room for payload and every padding, parsing the wire and keeping the data frames of one stream gives
      exactly that stream's bytes. */
  lemma {:induction false} MuxRoundTrip(cs: seq<Call>, id: u16)
    requires forall i :: 0 <= i < |cs| ==> Lawful(cs[i])
    ensures StreamBytes(Parse(CallsWire(cs)), id) == Written(cs, id)
  {
    hide CallWire, Parse, StreamBytes, Lawful;
    if cs == [] {
      NothingParsed(id);
    } else {
      CallReads(cs[0], CallsWire(cs[1..]), id);
      MuxRoundTrip(cs[1..], id);
    }
  }

  lemma NothingParsed(id: u16)
    ensures StreamBytes(Parse([]), id) == []
  {
  }

  // ---- stream ids ----

  /** The id of the k-th stream a side opens: the 32-bit counter cut to 16 bits. */
  function IdAt(server: bool, k: nat): u16 {
    ((if server then 2 else 1) + 2 * k) % 0x1_0000_0000 % 0x1_0000
  }

  lemma IdIs(server: bool, k: nat)
    ensures IdAt(server, k) == ((if server then 2 else 1) + 2 * k) % 0x1_0000
    ensures IdAt(server, k) % 2 == if server then 0 else 1
  {
    var x := (if server then 2 else 1) + 2 * k;
    Truncate(x);
    EvenWidth(x, x / 0x1_0000);
  }

  /** Cutting to 32 and then to 16 bits is cutting to 16. */
  lemma Truncate(x: nat)
    ensures x % 0x1_0000_0000 % 0x1_0000 == x % 0x1_0000
  {
    var q, r := x / 0x1_0000_0000, x % 0x1_0000_0000;
    Remainder(x, 0x1_0000 * q + r / 0x1_0000, r % 0x1_0000);
  }

  lemma Remainder(x: nat, q: nat, r: nat)
    requires x == 0x1_0000 * q + r && r < 0x1_0000
    ensures x % 0x1_0000 == r
  {
  }

  lemma EvenWidth(x: nat, q: nat)
    requires q == x / 0x1_0000
    ensures x % 0x1_0000 % 2 == x % 2
  {
    assert x == 2 * (0x8000 * q) + x % 0x1_0000;
  }

  /** Client and server never give out the same id, however many streams they open. */
  lemma SidesNeverCollide(i: nat, j: nat)
    ensures IdAt(true, i) != IdAt(false, j)
  {
    IdIs(true, i);
    IdIs(false, j);
  }

  /** A side's first 32767 ids are distinct and not the reserved stream 0; the server's next one is 0. */
  lemma FirstIdsDistinct(server: bool, i: nat, j: nat)
    requires i < j < 32767
    ensures IdAt(server, i) != IdAt(server, j) && IdAt(server, i) != 0 && IdAt(server, j) != 0
    ensures IdAt(server, i) == 2 * i + (if server then 2 else 1)
    ensures IdAt(true, 32767) == 0
  {
    IdIs(server, i);
    IdIs(server, j);
  }

  // ---- the connection ----

  class Conn {
    const sock: Socket
    const server: bool
    var nextID: u32
    ghost var streams: nat

    constructor (sock: Socket, server: bool)
      ensures Valid() && this.sock == sock && this.server == server && streams == 0
    {
      this.sock, this.server := sock, server;
      nextID := if server then 2 else 1;
      streams := 0;
    }

    ghost predicate Valid()
      reads this
    {
      nextID == ((if server then 2 else 1) + 2 * streams) % 0x1_0000_0000
    }

    method OpenStream() returns (id: u16)
      requires Valid()
      modifies this`nextID, this`streams, sock`sent
      ensures Valid() && streams == old(streams) + 1 && id == IdAt(server, old(streams))
      ensures sock.sent == old(sock.sent) + Marshal(Frame(0x02, 0, id, [])).value
    {
      var next: int := (nextID + 2) % 0x1_0000_0000;
      id := (next - 2) % 0x1_0000_0000 % 0x1_0000;
      nextID := next;
      streams := streams + 1;
      var _ := WriteControl(0x02, id, []);
    }

    method WriteControl(typ: byte, id: u16, payload: Bytes) returns (ok: bool)
      modifies sock`sent
      ensures ok <==> |payload| <= 65535
      ensures var w := Marshal(Frame(typ, 0, id, payload));
              sock.sent == old(sock.sent) + (if w.Some? then w.value else [])
    {
      var w := Marshal(Frame(typ, 0, id, payload));
      if w.None? {
        return false;
      }
      sock.Write(w.value);
      ok := true;
    }

    method WriteData(p: Profile, dice: Dice, id: u16, data: Bytes)
      requires Valid() && AllWork(p, dice, 0, |data|)
      modifies sock`sent
      ensures Valid() && sock.sent == old(sock.sent) + DataWire(p, dice, 0, id, data)
    {
      hide DataWire, Works, AllWork, Taken;
      var remaining, turn := data, 0;
      ghost var all := sock.sent + DataWire(p, dice, 0, id, data);
      while |remaining| > 0
        invariant Valid() && AllWork(p, dice, turn, |remaining|)
        invariant sock.sent + DataWire(p, dice, turn, id, remaining) == all
        decreases |remaining|
      {
        TurnUnfold(p, dice, turn, id, remaining, sock.sent);
        var n := WriteRecord(p, dice(turn), id, remaining);
        remaining := remaining[n..];
        turn := turn + 1;
      }
      TurnUnfold(p, dice, turn, id, remaining, sock.sent);
    }

    /** One turn of the loop: a record and perhaps a padding frame. */
    method WriteRecord(p: Profile, t: Turn, id: u16, remaining: Bytes) returns (n: nat)
      requires Works(p, t) && remaining != []
      modifies sock`sent
      ensures n == Taken(p, t, |remaining|)
      ensures sock.sent == old(sock.sent) + Marshal(DataFrame(id, remaining[..n])).value + PaddingWire(p, t)
    {
      hide Marshal, Record, Taken;
      n := TakeSize(p, t, |remaining|);
      var f := DataFrame(id, remaining[..n]);
      MarshalSome(f);
      sock.Write(Marshal(f).value);
      if t.inject {
        InjectPadding(p, t);
      } else {
        assert sock.sent + [] == sock.sent;
      }
    }

    method TakeSize(p: Profile, t: Turn, remaining: nat) returns (n: nat)
      requires Works(p, t) && remaining > 0
      ensures n == Taken(p, t, remaining)
    {
      hide Sample;
      var sampled := SampleSize(p.sizes, t.pick, t.roll);
      var targetSize := sampled.size;
      if targetSize < p.minRecord {
        targetSize := p.minRecord;
      }
      n := targetSize - 6;
      if n > remaining {
        n := remaining;
      }
      if n > 65535 {
        n := 65535;
      }
    }

    method InjectPadding(p: Profile, t: Turn)
      requires t.inject && Works(p, t)
      modifies sock`sent
      ensures sock.sent == old(sock.sent) + PaddingWire(p, t)
    {
      hide Sample, Marshal;
      var sampled := SampleSize(p.sizes, t.padPick, t.padRoll);
      var size := sampled.size;
      if size < p.minRecord {
        size := p.minRecord;
      }
      if size > 2048 {
        size := 2048;
      }
      var f := Frame(PADDING, 0, 0, seq(size, (i: nat) => t.noise(i)));
      assert f == PaddingFrame(Record(p, t.padPick, t.padRoll).value, t.noise);
      MarshalSome(f);
      sock.Write(Marshal(f).value);
    }
  }
}
