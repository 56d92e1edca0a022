/** Traffic accounting: the counters of a tag, which connections hold on to, the sweep that reports them,
    and the return of what could not be reported (core/user.go, common/counter/traffic.go,
    core/app/dispatcher/default.go). */
module Traffic {
  datatype Direction = Upload | Download

  /** The counter of one user tag.  The id stands for the storage itself: a connection keeps the one it got
      when it was opened.  A tag's counters are listed in the order in which the concurrent map hands them
      out, which is arbitrary. */
  datatype Counter = Counter(email: string, id: nat, up: nat, down: nat) {
    function Bytes(d: Direction): nat { if d.Upload? then up else down }
  }

  datatype Report = Report(uid: int, up: nat, down: nat) {
    function Bytes(d: Direction): nat { if d.Upload? then up else down }
  }

  function Of(d: Direction, up: nat, down: nat): nat { if d.Upload? then up else down }

  type UidMap = map<string, int>

  predicate Belongs(m: UidMap, email: string, uid: int) { email in m && m[email] == uid }

  /** All bytes counted for a uid under a tag, over all its emails. */
  function Counted(cs: seq<Counter>, m: UidMap, uid: int, d: Direction): nat {
    if cs == [] then 0
    else (if Belongs(m, cs[0].email, uid) then cs[0].Bytes(d) else 0) + Counted(cs[1..], m, uid, d)
  }

  function Threshold(min: int): nat { if min > 0 then min * 1000 else 0 }

  /** The threshold, once for each counter of a uid. */
  function Slack(cs: seq<Counter>, m: UidMap, uid: int, min: int): nat {
    if cs == [] then 0 else (if Belongs(m, cs[0].email, uid) then Threshold(min) else 0) + Slack(cs[1..], m, uid, min)
  }

  function Reported(rs: seq<Report>, uid: int, d: Direction): nat {
    if rs == [] then 0 else (if rs[0].uid == uid then rs[0].Bytes(d) else 0) + Reported(rs[1..], uid, d)
  }

  /** The user behind a counter is registered under a real id. */
  predicate Live(m: UidMap, email: string) { email in m && m[email] != 0 }

  /** Read and zero every counter; drop the orphans; report what exceeds the threshold. */
  function Sweep(cs: seq<Counter>, m: UidMap, min: int): (seq<Report>, seq<Counter>) {
    if cs == [] then ([], []) else
      var (rs, rest) := Sweep(cs[1..], m, min);
      if !Live(m, cs[0].email) then (rs, rest)
      else
        (if cs[0].up + cs[0].down > min * 1000 then [Report(m[cs[0].email], cs[0].up, cs[0].down)] + rs else rs,
         [cs[0].(up := 0, down := 0)] + rest)
  }

  /** Add to the counter of an email, creating one with the next id if there is none. */
  function Credit(cs: seq<Counter>, next: nat, email: string, up: nat, down: nat): seq<Counter> {
    if cs == [] then [Counter(email, next, up, down)]
    else if cs[0].email == email then [cs[0].(up := cs[0].up + up, down := cs[0].down + down)] + cs[1..]
    else [cs[0]] + Credit(cs[1..], next, email, up, down)
  }

  predicate HasCounter(cs: seq<Counter>, email: string) {
    cs != [] && (cs[0].email == email || HasCounter(cs[1..], email))
  }

  /** The emails for which counters have been created, by id. */
  function Created(cs: seq<Counter>, born: seq<string>, email: string): seq<string> {
    if HasCounter(cs, email) then born else born + [email]
  }

  /** `pick` finds for every registered uid one of its emails: the inverse of the map, as far as there is one. */
  ghost predicate Inverts(pick: map<int, string>, m: UidMap) {
    && (forall uid :: uid in pick ==> Belongs(m, pick[uid], uid))
    && (forall email :: email in m ==> m[email] in pick)
  }

  function AddBack(cs: seq<Counter>, born: seq<string>, pick: map<int, string>, rs: seq<Report>): (seq<Counter>, seq<string>)
    decreases |rs|
  {
    if rs == [] then (cs, born)
    else if rs[0].uid !in pick then AddBack(cs, born, pick, rs[1..])
    else
      var email := pick[rs[0].uid];
      AddBack(Credit(cs, |born|, email, rs[0].up, rs[0].down), Created(cs, born, email), pick, rs[1..])
  }

  // ---- what a sweep reports ----

  /** A sweep reports all bytes of a registered uid but at most the threshold for each of its counters,
      never more than was counted, and leaves nothing counted. */
  lemma {:induction false} SweepReports(cs: seq<Counter>, m: UidMap, min: int, uid: int)
    requires uid != 0
    ensures var (rs, cs') := Sweep(cs, m, min);
            var up, down := Counted(cs, m, uid, Upload), Counted(cs, m, uid, Download);
            && Reported(rs, uid, Upload) <= up && Reported(rs, uid, Download) <= down
            && up + down - Reported(rs, uid, Upload) - Reported(rs, uid, Download) <= Slack(cs, m, uid, min)
            && Counted(cs', m, uid, Upload) == 0 && Counted(cs', m, uid, Download) == 0
  {
    if cs != [] {
      SweepReports(cs[1..], m, min, uid);
      var (rs, rest) := Sweep(cs[1..], m, min);
      assert ([cs[0].(up := 0, down := 0)] + rest)[1..] == rest;
      if Live(m, cs[0].email) {
        var r := Report(m[cs[0].email], cs[0].up, cs[0].down);
        assert ([r] + rs)[1..] == rs;
      }
    }
  }

  /** The bytes of a uid in counters that exceed the threshold. */
  function Above(cs: seq<Counter>, m: UidMap, min: int, uid: int, d: Direction): nat {
    if cs == [] then 0
    else (if Belongs(m, cs[0].email, uid) && cs[0].up + cs[0].down > min * 1000 then cs[0].Bytes(d) else 0)
         + Above(cs[1..], m, min, uid, d)
  }

  /** Exactly the counters that exceed the threshold are reported, each in full. */
  lemma {:induction false} SweepExact(cs: seq<Counter>, m: UidMap, min: int, uid: int, d: Direction)
    requires uid != 0
    ensures Reported(Sweep(cs, m, min).0, uid, d) == Above(cs, m, min, uid, d)
  {
    if cs != [] {
      SweepExact(cs[1..], m, min, uid, d);
      var rs := Sweep(cs[1..], m, min).0;
      if Live(m, cs[0].email) {
        var r := Report(m[cs[0].email], cs[0].up, cs[0].down);
        assert ([r] + rs)[1..] == rs;
      }
    }
  }

  /** With no threshold nothing is withheld. */
  lemma {:induction false} NoSlack(cs: seq<Counter>, m: UidMap, uid: int)
    ensures Slack(cs, m, uid, 0) == 0
  {
    if cs != [] { NoSlack(cs[1..], m, uid); }
  }

  /** Nobody is reported who is not registered under that id. */
  lemma {:induction false} SweepNamesOnlyLive(cs: seq<Counter>, m: UidMap, min: int)
    ensures forall i :: 0 <= i < |Sweep(cs, m, min).0| ==>
      Sweep(cs, m, min).0[i].uid != 0 && Sweep(cs, m, min).0[i].uid in m.Values
  {
    if cs != [] {
      SweepNamesOnlyLive(cs[1..], m, min);
      if Live(m, cs[0].email) { assert m[cs[0].email] in m.Values; }
    }
  }

  /** A sweep prunes exactly the orphans, whatever they carried. */
  lemma {:induction false} SweepKeepsExactlyLive(cs: seq<Counter>, m: UidMap, min: int, email: string)
    ensures HasCounter(Sweep(cs, m, min).1, email) <==> Live(m, email) && HasCounter(cs, email)
  {
    if cs != [] {
      var rest := Sweep(cs[1..], m, min).1;
      SweepKeepsExactlyLive(cs[1..], m, min, email);
      assert ([cs[0].(up := 0, down := 0)] + rest)[1..] == rest;
    }
  }

  // ---- adding back ----

  lemma {:induction false} CreditCounts(cs: seq<Counter>, next: nat, m: UidMap, email: string, up: nat, down: nat, uid: int, d: Direction)
    ensures Counted(Credit(cs, next, email, up, down), m, uid, d)
         == Counted(cs, m, uid, d) + (if Belongs(m, email, uid) then Of(d, up, down) else 0)
  {
    var now := Credit(cs, next, email, up, down);
    if cs == [] {
      assert now[1..] == [];
    } else if cs[0].email == email {
      assert now[1..] == cs[1..];
    } else {
      CreditCounts(cs[1..], next, m, email, up, down, uid, d);
      assert now[1..] == Credit(cs[1..], next, email, up, down);
    }
  }

  /** Adding back puts every reported byte of a registered uid on top of what has been counted
      meanwhile, under whichever of its emails. */
  lemma {:induction false} AddBackRestores(cs: seq<Counter>, born: seq<string>, m: UidMap, pick: map<int, string>,
                                           rs: seq<Report>, uid: int, d: Direction)
    requires Inverts(pick, m)
    ensures Counted(AddBack(cs, born, pick, rs).0, m, uid, d)
         == Counted(cs, m, uid, d) + (if uid in pick then Reported(rs, uid, d) else 0)
    decreases |rs|
  {
    hide Credit, Counted, Created;
    if rs != [] {
      var r := rs[0];
      if r.uid in pick {
        var email := pick[r.uid];
        CreditCounts(cs, |born|, m, email, r.up, r.down, uid, d);
        AddBackRestores(Credit(cs, |born|, email, r.up, r.down), Created(cs, born, email), m, pick, rs[1..], uid, d);
      } else {
        AddBackRestores(cs, born, m, pick, rs[1..], uid, d);
      }
    }
  }

  /** A sweep that is added back at once loses no more than the threshold of each counter, and makes
      nothing up. */
  lemma BounceKeeps(cs: seq<Counter>, born: seq<string>, m: UidMap, min: int, pick: map<int, string>, uid: int)
    requires Inverts(pick, m) && uid != 0
    ensures var (rs, cs') := Sweep(cs, m, min);
            var back := AddBack(cs', born, pick, rs).0;
            var up, down := Counted(cs, m, uid, Upload), Counted(cs, m, uid, Download);
            && Counted(back, m, uid, Upload) <= up && Counted(back, m, uid, Download) <= down
            && up + down - Counted(back, m, uid, Upload) - Counted(back, m, uid, Download) <= Slack(cs, m, uid, min)
  {
    hide Sweep, Counted, AddBack, Slack, Reported, Inverts;
    var (rs, cs') := Sweep(cs, m, min);
    SweepReports(cs, m, min, uid);
    if uid !in pick {
      assert uid !in m.Values by { NotPicked(pick, m, uid); }
      Unregistered(cs, m, uid, Upload);
      Unregistered(cs, m, uid, Download);
    }
    AddBackRestores(cs', born, m, pick, rs, uid, Upload);
    AddBackRestores(cs', born, m, pick, rs, uid, Download);
  }

  /** With no threshold, a sweep that is added back at once changes no uid's totals, even if its bytes come
      back under another of its emails. */
  lemma SweepThenAddBack(cs: seq<Counter>, born: seq<string>, m: UidMap, pick: map<int, string>, uid: int, d: Direction)
    requires Inverts(pick, m) && uid != 0
    ensures var (rs, cs') := Sweep(cs, m, 0);
            Counted(AddBack(cs', born, pick, rs).0, m, uid, d) == Counted(cs, m, uid, d)
  {
    hide Sweep, Counted, AddBack, Slack, Inverts;
    BounceKeeps(cs, born, m, 0, pick, uid);
    NoSlack(cs, m, uid);
  }

  lemma NotPicked(pick: map<int, string>, m: UidMap, uid: int)
    requires Inverts(pick, m) && uid !in pick
    ensures uid !in m.Values
  {
  }

  lemma {:induction false} Unregistered(cs: seq<Counter>, m: UidMap, uid: int, d: Direction)
    requires uid !in m.Values
    ensures Counted(cs, m, uid, d) == 0
  {
    if cs != [] {
      assert !Belongs(m, cs[0].email, uid) by {
        if cs[0].email in m { assert m[cs[0].email] in m.Values; }
      }
      Unregistered(cs[1..], m, uid, d);
    }
  }

  // ---- whole runs ----

  /** The registered users; whether the tag has counters at all, and which; the emails of all counters ever
      created, by id; reports taken but neither delivered nor returned. */
  datatype Books = Books(m: UidMap, open: bool, cs: seq<Counter>, born: seq<string>, pending: seq<Report>)

  datatype Event =
    | Connect(email: string)             // a connection looks its counter up and keeps it
    | Use(id: nat, up: nat, down: nat)   // a connection moves bytes into the counter it has
    | Collect(min: int)                  // the sweep
    | Deliver                            // the report has reached the panel
    | Discard                            // the report has failed and is forgotten
    | Return(pick: map<int, string>)     // the report has failed and is added back
    | Enrol(email: string, uid: int)     // a user is registered
    | Remove(email: string)              // a user of this tag is deleted
    | Forget(email: string)              // a user of another tag is deleted
    | Rebuild                            // the node is taken down: the tag's counters go

  /** Deleting a user deletes its counter with whatever it holds. */
  function Drop(cs: seq<Counter>, email: string): seq<Counter> {
    if cs == [] then [] else (if cs[0].email == email then [] else [cs[0]]) + Drop(cs[1..], email)
  }

  /** Bytes go into the counter that a connection has; nobody sees them if it is no longer listed. */
  function Tally(cs: seq<Counter>, id: nat, up: nat, down: nat): seq<Counter> {
    if cs == [] then []
    else if cs[0].id == id then [cs[0].(up := cs[0].up + up, down := cs[0].down + down)] + cs[1..]
    else [cs[0]] + Tally(cs[1..], id, up, down)
  }

  predicate Listed(cs: seq<Counter>, id: nat) { cs != [] && (cs[0].id == id || Listed(cs[1..], id)) }

  function Next(b: Books, e: Event): Books {
    match e
    case Connect(email) => b.(open := true, cs := Credit(b.cs, |b.born|, email, 0, 0), born := Created(b.cs, b.born, email))
    case Use(id, up, down) => b.(cs := Tally(b.cs, id, up, down))
    case Collect(min) => b.(cs := Sweep(b.cs, b.m, min).1, pending := b.pending + Sweep(b.cs, b.m, min).0)
    case Deliver => b.(pending := [])
    case Discard => b.(pending := [])
    case Return(pick) =>
      if !b.open then b.(pending := []) else
        var (cs, born) := AddBack(b.cs, b.born, pick, b.pending);
        b.(cs := cs, born := born, pending := [])
    case Enrol(email, id) => b.(m := b.m[email := id])
    case Remove(email) => b.(m := b.m - {email}, cs := Drop(b.cs, email))
    case Forget(email) => b.(m := b.m - {email})
    case Rebuild => b.(open := false, cs := [])
  }

  function Final(b: Books, es: seq<Event>): Books
    decreases |es|
  {
    if es == [] then b else Final(Next(b, es[0]), es[1..])
  }

  /** Every listed counter was created for its email. */
  predicate Genuine(cs: seq<Counter>, born: seq<string>) {
    forall i :: 0 <= i < |cs| ==> cs[i].id < |born| && born[cs[i].id] == cs[i].email
  }

  predicate Sound(b: Books) { Genuine(b.cs, b.born) }

  /** Connections use counters that have been created, and reports return by an inverse of the
      registrations of the time. */
  ghost predicate Fits(b: Books, e: Event) {
    (e.Use? ==> e.id < |b.born|) && (e.Return? ==> Inverts(e.pick, b.m))
  }

  ghost predicate AllFit(b: Books, es: seq<Event>)
    decreases |es|
  {
    es == [] || (Fits(b, es[0]) && AllFit(Next(b, es[0]), es[1..]))
  }

  /** Bytes held under one email. */
  function Held(cs: seq<Counter>, email: string, d: Direction): nat {
    if cs == [] then 0 else (if cs[0].email == email then cs[0].Bytes(d) else 0) + Held(cs[1..], email, d)
  }

  /** What happens to a uid's bytes: moved by its connections; come with an email that is registered under
      it; delivered to the panel; lost while counted or reported; gone astray in counters no longer listed. */
  datatype Flow = Flow(used: nat, inherited: nat, delivered: nat, lost: nat, stray: nat)

  const STILL := Flow(0, 0, 0, 0, 0)

  function Plus(a: Flow, b: Flow): Flow {
    Flow(a.used + b.used, a.inherited + b.inherited, a.delivered + b.delivered, a.lost + b.lost, a.stray + b.stray)
  }

  function FlowOf(b: Books, e: Event, uid: int, d: Direction): Flow {
    match e
    case Connect(_) => STILL
    case Use(id, up, down) =>
      var mine := if id < |b.born| && Belongs(b.m, b.born[id], uid) then Of(d, up, down) else 0;
      STILL.(used := mine, stray := if Listed(b.cs, id) then 0 else mine)
    case Collect(_) => STILL
    case Deliver => STILL.(delivered := Reported(b.pending, uid, d))
    case Discard => STILL.(lost := Reported(b.pending, uid, d))
    case Return(pick) => STILL.(lost := if b.open && uid in pick then 0 else Reported(b.pending, uid, d))
    case Enrol(email, id) =>
      if Belongs(b.m, email, uid) == (id == uid) then STILL
      else if id == uid then STILL.(inherited := Held(b.cs, email, d))
      else STILL.(lost := Held(b.cs, email, d))
    case Remove(email) => STILL.(lost := if Belongs(b.m, email, uid) then Held(b.cs, email, d) else 0)
    case Forget(email) => STILL.(lost := if Belongs(b.m, email, uid) then Held(b.cs, email, d) else 0)
    case Rebuild => STILL.(lost := Counted(b.cs, b.m, uid, d))
  }

  function Flows(b: Books, es: seq<Event>, uid: int, d: Direction): Flow
    decreases |es|
  {
    if es == [] then STILL else Plus(FlowOf(b, es[0], uid, d), Flows(Next(b, es[0]), es[1..], uid, d))
  }

  /** The sum of the thresholds that a uid's counters go through. */
  function Tolerance(b: Books, es: seq<Event>, uid: int): nat
    decreases |es|
  {
    if es == [] then 0 else
      (if es[0].Collect? then Slack(b.cs, b.m, uid, es[0].min) else 0) + Tolerance(Next(b, es[0]), es[1..], uid)
  }

  /** A uid's bytes that are still in the books. */
  function InBooks(b: Books, uid: int, d: Direction): nat { Counted(b.cs, b.m, uid, d) + Reported(b.pending, uid, d) }

  // ---- the exact effect of each event ----

  /** Registering an email moves what it holds, no more and no less. */
  lemma {:induction false} EnrolMoves(cs: seq<Counter>, m: UidMap, email: string, id: int, uid: int, d: Direction)
    ensures Counted(cs, m[email := id], uid, d) + (if Belongs(m, email, uid) then Held(cs, email, d) else 0)
         == Counted(cs, m, uid, d) + (if id == uid then Held(cs, email, d) else 0)
  {
    if cs != [] { EnrolMoves(cs[1..], m, email, id, uid, d); }
  }

  /** Deleting a user loses what its email holds, no more and no less. */
  lemma {:induction false} RemoveLoses(cs: seq<Counter>, m: UidMap, email: string, uid: int, d: Direction)
    ensures Counted(Drop(cs, email), m - {email}, uid, d) + (if Belongs(m, email, uid) then Held(cs, email, d) else 0)
         == Counted(cs, m, uid, d)
  {
    if cs != [] {
      hide Belongs;
      var rest := Drop(cs[1..], email);
      RemoveLoses(cs[1..], m, email, uid, d);
      OneLess(m, email, cs[0].email, uid);
      if cs[0].email == email {
        assert [] + rest == rest;
      } else {
        assert ([cs[0]] + rest)[1..] == rest;
      }
    }
  }

  lemma OneLess(m: UidMap, email: string, other: string, uid: int)
    ensures Belongs(m - {email}, other, uid) <==> other != email && Belongs(m, other, uid)
  {
  }

  /** Deleting a user of another tag leaves a counter standing that nobody is registered for. */
  lemma {:induction false} ForgetLoses(cs: seq<Counter>, m: UidMap, email: string, uid: int, d: Direction)
    ensures Counted(cs, m - {email}, uid, d) + (if Belongs(m, email, uid) then Held(cs, email, d) else 0)
         == Counted(cs, m, uid, d)
  {
    if cs != [] {
      hide Belongs;
      ForgetLoses(cs[1..], m, email, uid, d);
      OneLess(m, email, cs[0].email, uid);
    }
  }

  /** Bytes that a connection moves are counted for the uid of its email if its counter is still listed. */
  lemma {:induction false} TallyCounts(cs: seq<Counter>, born: seq<string>, id: nat, up: nat, down: nat,
                                       m: UidMap, uid: int, d: Direction)
    requires id < |born| && Genuine(cs, born)
    ensures Counted(Tally(cs, id, up, down), m, uid, d)
         == Counted(cs, m, uid, d) + (if Listed(cs, id) && Belongs(m, born[id], uid) then Of(d, up, down) else 0)
  {
    if cs != [] {
      hide Belongs;
      var now := Tally(cs, id, up, down);
      if cs[0].id == id {
        assert now[1..] == cs[1..];
      } else {
        assert now[1..] == Tally(cs[1..], id, up, down);
        TallyCounts(cs[1..], born, id, up, down, m, uid, d);
      }
    }
  }

  lemma {:induction false} ReportedConcat(a: seq<Report>, b: seq<Report>, uid: int, d: Direction)
    ensures Reported(a + b, uid, d) == Reported(a, uid, d) + Reported(b, uid, d)
  {
    if a == [] {
      assert a + b == b;
    } else {
      assert (a + b)[1..] == a[1..] + b;
      ReportedConcat(a[1..], b, uid, d);
    }
  }

  // ---- conservation ----

  /** One event, apart from the sweep, in one direction: no byte is made up and none is unaccounted for. */
  lemma EventConserves(b: Books, e: Event, uid: int, d: Direction)
    requires Sound(b) && Fits(b, e) && !e.Collect?
    ensures var f := FlowOf(b, e, uid, d);
            InBooks(b, uid, d) + f.used + f.inherited == InBooks(Next(b, e), uid, d) + f.delivered + f.lost + f.stray
  {
    hide Sweep, Counted, AddBack, Inverts, Credit, Created, Drop, Held, Tally, Listed, Belongs;
    assert Reported([], uid, d) == 0;
    match e
    case Connect(email) => CreditCounts(b.cs, |b.born|, b.m, email, 0, 0, uid, d);
    case Use(id, up, down) => TallyCounts(b.cs, b.born, id, up, down, b.m, uid, d);
    case Deliver =>
    case Discard =>
    case Return(pick) =>
      if b.open { AddBackRestores(b.cs, b.born, b.m, pick, b.pending, uid, d); }
    case Enrol(email, id) => EnrolMoves(b.cs, b.m, email, id, uid, d);
    case Remove(email) => RemoveLoses(b.cs, b.m, email, uid, d);
    case Forget(email) => ForgetLoses(b.cs, b.m, email, uid, d);
    case Rebuild => assert Counted([], b.m, uid, d) == 0 by { NoCounters(b.m, uid, d); }
  }

  lemma NoCounters(m: UidMap, uid: int, d: Direction)
    ensures Counted([], m, uid, d) == 0
  {
  }

  /** The sweep moves bytes from the counters to the report, but for the thresholds. */
  lemma CollectConserves(b: Books, min: int, uid: int)
    requires uid != 0
    ensures var f := Next(b, Collect(min));
            && InBooks(f, uid, Upload) <= InBooks(b, uid, Upload) && InBooks(f, uid, Download) <= InBooks(b, uid, Download)
            && InBooks(b, uid, Upload) + InBooks(b, uid, Download)
            <= InBooks(f, uid, Upload) + InBooks(f, uid, Download) + Slack(b.cs, b.m, uid, min)
  {
    hide Sweep, Counted, Reported, Slack;
    var rs := Sweep(b.cs, b.m, min).0;
    SweepReports(b.cs, b.m, min, uid);
    ReportedConcat(b.pending, rs, uid, Upload);
    ReportedConcat(b.pending, rs, uid, Download);
  }

  lemma NextSound(b: Books, e: Event)
    requires Sound(b)
    ensures Sound(Next(b, e)) && b.born <= Next(b, e).born
  {
    match e
    case Connect(email) => CreditSound(b.cs, b.born, email, 0, 0);
    case Use(id, up, down) => TallySound(b.cs, b.born, id, up, down);
    case Collect(min) => SweepSound(b.cs, b.born, b.m, min);
    case Return(pick) => AddBackSound(b.cs, b.born, pick, b.pending);
    case Remove(email) => DropSound(b.cs, b.born, email);
    case _ =>
  }

  lemma {:induction false} CreditSound(cs: seq<Counter>, born: seq<string>, email: string, up: nat, down: nat)
    requires Genuine(cs, born)
    ensures Genuine(Credit(cs, |born|, email, up, down), Created(cs, born, email)) && born <= Created(cs, born, email)
  {
    if cs != [] && cs[0].email != email { CreditSound(cs[1..], born, email, up, down); }
  }

  lemma {:induction false} TallySound(cs: seq<Counter>, born: seq<string>, id: nat, up: nat, down: nat)
    requires Genuine(cs, born)
    ensures Genuine(Tally(cs, id, up, down), born)
  {
    if cs != [] && cs[0].id != id { TallySound(cs[1..], born, id, up, down); }
  }

  lemma {:induction false} SweepSound(cs: seq<Counter>, born: seq<string>, m: UidMap, min: int)
    requires Genuine(cs, born)
    ensures Genuine(Sweep(cs, m, min).1, born)
  {
    if cs != [] { SweepSound(cs[1..], born, m, min); }
  }

  lemma {:induction false} DropSound(cs: seq<Counter>, born: seq<string>, email: string)
    requires Genuine(cs, born)
    ensures Genuine(Drop(cs, email), born)
  {
    if cs != [] { DropSound(cs[1..], born, email); }
  }

  lemma {:induction false} AddBackSound(cs: seq<Counter>, born: seq<string>, pick: map<int, string>, rs: seq<Report>)
    requires Genuine(cs, born)
    ensures var (cs', born') := AddBack(cs, born, pick, rs); Genuine(cs', born') && born <= born'
    decreases |rs|
  {
    hide Credit, Created, Genuine;
    if rs != [] {
      if rs[0].uid in pick {
        var email := pick[rs[0].uid];
        CreditSound(cs, born, email, rs[0].up, rs[0].down);
        AddBackSound(Credit(cs, |born|, email, rs[0].up, rs[0].down), Created(cs, born, email), pick, rs[1..]);
      } else {
        AddBackSound(cs, born, pick, rs[1..]);
      }
    }
  }

  /** Conservation over every run: in each direction, what was in the books, what a uid's connections moved
      and what it inherited is delivered to the panel, still in the books, lost or astray, but for what the
      thresholds withheld; and nothing is made up. */
  lemma {:induction false} TrafficIsConserved(b: Books, es: seq<Event>, uid: int)
    requires uid != 0 && Sound(b) && AllFit(b, es)
    ensures var f := Final(b, es);
            var u, w := Flows(b, es, uid, Upload), Flows(b, es, uid, Download);
            var up, down := InBooks(b, uid, Upload) + u.used + u.inherited, InBooks(b, uid, Download) + w.used + w.inherited;
            var up' := InBooks(f, uid, Upload) + u.delivered + u.lost + u.stray;
            var down' := InBooks(f, uid, Download) + w.delivered + w.lost + w.stray;
            up' <= up && down' <= down && up + down <= up' + down' + Tolerance(b, es, uid)
    decreases |es|
  {
    hide Next, InBooks, FlowOf, Slack, Sound, Fits;
    if es != [] {
      NextSound(b, es[0]);
      TrafficIsConserved(Next(b, es[0]), es[1..], uid);
      if es[0].Collect? {
        CollectConserves(b, es[0].min, uid);
        assert FlowOf(b, es[0], uid, Upload) == FlowOf(b, es[0], uid, Download) == STILL by { SweepIsStill(b, es[0].min, uid); }
      } else {
        EventConserves(b, es[0], uid, Upload);
        EventConserves(b, es[0], uid, Download);
      }
    }
  }

  lemma SweepIsStill(b: Books, min: int, uid: int)
    ensures forall d :: FlowOf(b, Collect(min), uid, d) == STILL
  {
  }

  // ---- when a connection's bytes go astray ----

  /** The event takes the counter with this id off the list: its user is deleted, the sweep finds its user
      unregistered, or the node is taken down. */
  predicate Unlists(b: Books, e: Event, id: nat)
    requires id < |b.born|
  {
    match e
    case Remove(email) => b.born[id] == email
    case Collect(_) => !Live(b.m, b.born[id])
    case Rebuild => true
    case _ => false
  }

  /** Somewhere in the run that happens. */
  predicate UnlistedIn(b: Books, es: seq<Event>, id: nat)
    requires Sound(b) && id < |b.born|
    decreases |es|
  {
    es != [] && (Unlists(b, es[0], id) || (NextSound(b, es[0]); UnlistedIn(Next(b, es[0]), es[1..], id)))
  }

  lemma {:induction false} ListedAfterSweep(cs: seq<Counter>, born: seq<string>, id: nat, m: UidMap, min: int)
    requires Genuine(cs, born) && id < |born|
    ensures Listed(Sweep(cs, m, min).1, id) <==> Listed(cs, id) && Live(m, born[id])
  {
    if cs != [] {
      ListedAfterSweep(cs[1..], born, id, m, min);
      assert ([cs[0].(up := 0, down := 0)] + Sweep(cs[1..], m, min).1)[1..] == Sweep(cs[1..], m, min).1;
    }
  }

  lemma {:induction false} ListedAfterDrop(cs: seq<Counter>, born: seq<string>, id: nat, email: string)
    requires Genuine(cs, born) && id < |born|
    ensures Listed(Drop(cs, email), id) <==> Listed(cs, id) && born[id] != email
  {
    if cs != [] {
      var rest := Drop(cs[1..], email);
      ListedAfterDrop(cs[1..], born, id, email);
      assert ([cs[0]] + rest)[1..] == rest && [] + rest == rest;
    }
  }

  lemma {:induction false} ListedAfterTally(cs: seq<Counter>, id: nat, other: nat, up: nat, down: nat)
    ensures Listed(Tally(cs, other, up, down), id) <==> Listed(cs, id)
  {
    if cs != [] {
      ListedAfterTally(cs[1..], id, other, up, down);
      assert Tally(cs, other, up, down)[1..] == (if cs[0].id == other then cs[1..] else Tally(cs[1..], other, up, down));
    }
  }

  lemma {:induction false} ListedAfterCredit(cs: seq<Counter>, id: nat, next: nat, email: string, up: nat, down: nat)
    requires id != next
    ensures Listed(Credit(cs, next, email, up, down), id) <==> Listed(cs, id)
  {
    var now := Credit(cs, next, email, up, down);
    if cs == [] {
      assert now[1..] == [];
    } else {
      ListedAfterCredit(cs[1..], id, next, email, up, down);
      assert now[1..] == (if cs[0].email == email then cs[1..] else Credit(cs[1..], next, email, up, down));
    }
  }

  lemma {:induction false} ListedAfterReturn(cs: seq<Counter>, born: seq<string>, id: nat, pick: map<int, string>, rs: seq<Report>)
    requires Genuine(cs, born) && id < |born|
    ensures Listed(AddBack(cs, born, pick, rs).0, id) <==> Listed(cs, id)
    decreases |rs|
  {
    hide Credit, Created, Genuine, Listed;
    if rs != [] {
      if rs[0].uid in pick {
        var email := pick[rs[0].uid];
        CreditSound(cs, born, email, rs[0].up, rs[0].down);
        ListedAfterCredit(cs, id, |born|, email, rs[0].up, rs[0].down);
        ListedAfterReturn(Credit(cs, |born|, email, rs[0].up, rs[0].down), Created(cs, born, email), id, pick, rs[1..]);
      } else {
        ListedAfterReturn(cs, born, id, pick, rs[1..]);
      }
    }
  }

  lemma ListedStep(b: Books, e: Event, id: nat)
    requires Sound(b) && id < |b.born|
    ensures Listed(Next(b, e).cs, id) <==> Listed(b.cs, id) && !Unlists(b, e, id)
  {
    hide Sweep, Credit, Created, Drop, Tally, AddBack;
    match e
    case Connect(email) => ListedAfterCredit(b.cs, id, |b.born|, email, 0, 0);
    case Use(other, up, down) => ListedAfterTally(b.cs, id, other, up, down);
    case Collect(min) => ListedAfterSweep(b.cs, b.born, id, b.m, min);
    case Return(pick) => ListedAfterReturn(b.cs, b.born, id, pick, b.pending);
    case Remove(email) => ListedAfterDrop(b.cs, b.born, id, email);
    case _ =>
  }

  /** A counter is still listed if and only if it was and nothing in the run has taken it off; once off, it
      never comes back. */
  lemma {:induction false} ListedIff(b: Books, es: seq<Event>, id: nat)
    requires Sound(b) && id < |b.born|
    ensures Listed(Final(b, es).cs, id) <==> Listed(b.cs, id) && !UnlistedIn(b, es, id)
    ensures Sound(Final(b, es)) && b.born <= Final(b, es).born
    decreases |es|
  {
    hide Next, Unlists, Sound, Listed;
    if es != [] {
      NextSound(b, es[0]);
      ListedStep(b, es[0], id);
      ListedIff(Next(b, es[0]), es[1..], id);
    }
  }

  /** The tag has counters from the first connection on until the node is taken down, so that only then a
      report cannot be added back. */
  lemma OpenUntilRebuild(b: Books, e: Event)
    ensures Next(b, e).open == (if e.Connect? then true else if e.Rebuild? then false else b.open)
  {
    hide Sweep, Credit, Created, Drop, Tally, AddBack;
  }

  /** The counter that a new connection gets. */
  function CounterOf(cs: seq<Counter>, email: string, next: nat): nat {
    if cs == [] then next else if cs[0].email == email then cs[0].id else CounterOf(cs[1..], email, next)
  }

  lemma {:induction false} ConnectLists(cs: seq<Counter>, born: seq<string>, email: string)
    requires Genuine(cs, born)
    ensures var id := CounterOf(cs, email, |born|);
            && Listed(Credit(cs, |born|, email, 0, 0), id)
            && id < |Created(cs, born, email)| && Created(cs, born, email)[id] == email
  {
    if cs != [] && cs[0].email != email {
      ConnectLists(cs[1..], born, email);
      assert Credit(cs, |born|, email, 0, 0)[1..] == Credit(cs[1..], |born|, email, 0, 0);
    }
  }

  /** What a connection of a registered user moves after any run goes astray if and only if, since it was
      opened, its user has been deleted, a sweep has found its user unregistered, or the node has been taken
      down; otherwise it is counted. */
  lemma StrayIff(b: Books, email: string, es: seq<Event>, up: nat, down: nat, uid: int, d: Direction)
    requires Sound(b)
    ensures var id, b1 := CounterOf(b.cs, email, |b.born|), Next(b, Connect(email));
            && Sound(b1) && id < |b1.born|
            && var f := Final(b1, es);
            && id < |f.born| && f.born[id] == email
            && (Belongs(f.m, email, uid) ==>
                  var flow, gone := FlowOf(f, Use(id, up, down), uid, d), UnlistedIn(b1, es, id);
                  && flow.used == Of(d, up, down) && flow.stray == (if gone then Of(d, up, down) else 0)
                  && InBooks(Next(f, Use(id, up, down)), uid, d)
                  == InBooks(f, uid, d) + (if gone then 0 else Of(d, up, down)))
  {
    hide Credit, Created, CounterOf, Tally, Counted, Listed;
    var id, b1 := CounterOf(b.cs, email, |b.born|), Next(b, Connect(email));
    NextSound(b, Connect(email));
    ConnectLists(b.cs, b.born, email);
    ListedIff(b1, es, id);
    var f := Final(b1, es);
    TallyCounts(f.cs, f.born, id, up, down, f.m, uid, d);
  }

  // ---- examples ----

  /** One event at a time. */
  lemma FlowsCons(b: Books, e: Event, es: seq<Event>, uid: int, d: Direction)
    ensures Flows(b, [e] + es, uid, d) == Plus(FlowOf(b, e, uid, d), Flows(Next(b, e), es, uid, d))
    ensures Final(b, [e] + es) == Final(Next(b, e), es)
  {
    assert ([e] + es)[1..] == es;
  }

  /** A sweep over no counters. */
  lemma NothingToReport(b: Books, uid: int, d: Direction)
    requires b.cs == [] && b.pending == []
    ensures Flows(b, [Collect(0), Deliver], uid, d) == STILL && Final(b, [Collect(0), Deliver]) == b
  {
    var none: seq<Event>, one: seq<Event> := [], [Deliver];
    NothingMoves(b);
    SweepIsStill(b, 0, uid);
    DeliverNothing(b, uid, d);
    hide *;
    assert one == [Deliver] + none && [Collect(0), Deliver] == [Collect(0)] + one;
    FlowsCons(b, Deliver, none, uid, d);
    FlowsCons(b, Collect(0), one, uid, d);
    StillPlus(STILL);
  }

  lemma StillPlus(f: Flow)
    ensures Plus(STILL, f) == f && Plus(f, STILL) == f
  {
  }

  lemma NothingMoves(b: Books)
    requires b.cs == [] && b.pending == []
    ensures Next(b, Collect(0)) == b && Next(b, Deliver) == b
  {
  }

  lemma DeliverNothing(b: Books, uid: int, d: Direction)
    requires b.pending == []
    ensures FlowOf(b, Deliver, uid, d) == STILL && Flows(b, [], uid, d) == STILL && Final(b, []) == b
  {
  }

  /** A registered user with one open counter is deleted. */
  lemma DeleteOnly(m: UidMap, c: Counter, born: seq<string>, uid: int, d: Direction)
    requires Belongs(m, c.email, uid)
    ensures var b := Books(m, true, [c], born, []);
            && Next(b, Remove(c.email)) == Books(m - {c.email}, true, [], born, [])
            && FlowOf(b, Remove(c.email), uid, d) == STILL.(lost := c.Bytes(d))
  {
    DropOne(c, c.email);
    assert [c][1..] == [] && Held([], c.email, d) == 0;
    assert Held([c], c.email, d) == c.Bytes(d) + Held([c][1..], c.email, d);
  }

  /** A user deleted between two sweeps: what it has moved since the last one is delivered to nobody. */
  lemma DeletionLosesTraffic(m: UidMap, c: Counter, born: seq<string>, uid: int, d: Direction)
    requires Belongs(m, c.email, uid)
    ensures var b, es := Books(m, true, [c], born, []), [Remove(c.email), Collect(0), Deliver];
            Flows(b, es, uid, d) == STILL.(lost := c.Bytes(d)) && InBooks(Final(b, es), uid, d) == 0
  {
    hide FlowOf, Next, Flows, Final;
    var b, b1 := Books(m, true, [c], born, []), Books(m - {c.email}, true, [], born, []);
    var es: seq<Event> := [Collect(0), Deliver];
    assert [Remove(c.email), Collect(0), Deliver] == [Remove(c.email)] + es;
    DeleteOnly(m, c, born, uid, d);
    FlowsCons(b, Remove(c.email), es, uid, d);
    NothingToReport(b1, uid, d);
  }

  /** A user deleted and registered again while its connection stays open: what the connection moves from
      then on is neither delivered nor counted, although the user is registered whenever it moves it. */
  lemma ReregistrationGoesAstray(m: UidMap, c: Counter, born: seq<string>, uid: int, up: nat, down: nat, d: Direction)
    requires Belongs(m, c.email, uid) && c.id < |born| && born[c.id] == c.email && c.up == c.down == 0
    ensures var b := Books(m, true, [c], born, []);
            var es := [Remove(c.email), Enrol(c.email, uid), Use(c.id, up, down), Collect(0), Deliver];
            && CounterOf(b.cs, c.email, |born|) == c.id
            && Flows(b, es, uid, d) == STILL.(used := Of(d, up, down), stray := Of(d, up, down))
            && InBooks(Final(b, es), uid, d) == 0
  {
    hide *;
    var b := Books(m, true, [c], born, []);
    AstraySteps(m, c, born, uid, up, down, d);
    var b1 := Books(m - {c.email}, true, [], born, []);
    var b2 := b1.(m := b1.m[c.email := uid]);
    var es3: seq<Event> := [Collect(0), Deliver];
    var es2 := [Use(c.id, up, down)] + es3;
    var es1 := [Enrol(c.email, uid)] + es2;
    assert [Remove(c.email), Enrol(c.email, uid), Use(c.id, up, down), Collect(0), Deliver] == [Remove(c.email)] + es1;
    FlowsCons(b, Remove(c.email), es1, uid, d);
    FlowsCons(b1, Enrol(c.email, uid), es2, uid, d);
    FlowsCons(b2, Use(c.id, up, down), es3, uid, d);
    StillPlus(FlowOf(b2, Use(c.id, up, down), uid, d));
  }

  /** The steps of that run. */
  lemma AstraySteps(m: UidMap, c: Counter, born: seq<string>, uid: int, up: nat, down: nat, d: Direction)
    requires Belongs(m, c.email, uid) && c.id < |born| && born[c.id] == c.email && c.up == c.down == 0
    ensures var b := Books(m, true, [c], born, []);
            var b1 := Books(m - {c.email}, true, [], born, []);
            var b2 := b1.(m := b1.m[c.email := uid]);
            && CounterOf(b.cs, c.email, |born|) == c.id
            && Next(b, Remove(c.email)) == b1 && FlowOf(b, Remove(c.email), uid, d) == STILL
            && Next(b1, Enrol(c.email, uid)) == b2 && FlowOf(b1, Enrol(c.email, uid), uid, d) == STILL
            && Next(b2, Use(c.id, up, down)) == b2
            && FlowOf(b2, Use(c.id, up, down), uid, d) == STILL.(used := Of(d, up, down), stray := Of(d, up, down))
            && Flows(b2, [Collect(0), Deliver], uid, d) == STILL && Final(b2, [Collect(0), Deliver]) == b2
            && InBooks(b2, uid, d) == 0
  {
    hide Next, FlowOf, Flows, Final;
    DeleteOnly(m, c, born, uid, d);
    var b1 := Books(m - {c.email}, true, [], born, []);
    var b2 := b1.(m := b1.m[c.email := uid]);
    EnrolEmpty(b1, c.email, uid, d);
    UseUnlisted(b2, c.id, up, down, uid, d);
    NothingToReport(b2, uid, d);
  }

  lemma EnrolEmpty(b: Books, email: string, uid: int, d: Direction)
    requires b.cs == []
    ensures Next(b, Enrol(email, uid)) == b.(m := b.m[email := uid]) && FlowOf(b, Enrol(email, uid), uid, d) == STILL
  {
  }

  lemma UseUnlisted(b: Books, id: nat, up: nat, down: nat, uid: int, d: Direction)
    requires b.cs == [] && id < |b.born| && Belongs(b.m, b.born[id], uid)
    ensures Next(b, Use(id, up, down)) == b
    ensures FlowOf(b, Use(id, up, down), uid, d) == STILL.(used := Of(d, up, down), stray := Of(d, up, down))
  {
  }

  // ---- the object ----

  /** Credit goes to the first counter of the email, or to a new one at the end. */
  lemma {:induction false} CreditAt(cs: seq<Counter>, i: nat, next: nat, email: string, up: nat, down: nat)
    requires i <= |cs| && (forall j :: 0 <= j < i ==> cs[j].email != email) && (i < |cs| ==> cs[i].email == email)
    ensures Credit(cs, next, email, up, down)
         == if i < |cs| then cs[i := cs[i].(up := cs[i].up + up, down := cs[i].down + down)]
            else cs + [Counter(email, next, up, down)]
    ensures HasCounter(cs, email) <==> i < |cs|
    ensures CounterOf(cs, email, next) == if i < |cs| then cs[i].id else next
    decreases i
  {
    if i > 0 {
      CreditAt(cs[1..], i - 1, next, email, up, down);
      assert cs == [cs[0]] + cs[1..];
    } else if |cs| > 0 {
      assert cs == [cs[0]] + cs[1..];
    }
  }

  lemma {:induction false} TallyAt(cs: seq<Counter>, i: nat, id: nat, up: nat, down: nat)
    requires i <= |cs| && (forall j :: 0 <= j < i ==> cs[j].id != id) && (i < |cs| ==> cs[i].id == id)
    ensures Tally(cs, id, up, down)
         == if i < |cs| then cs[i := cs[i].(up := cs[i].up + up, down := cs[i].down + down)] else cs
    decreases i
  {
    if i > 0 {
      TallyAt(cs[1..], i - 1, id, up, down);
      assert cs == [cs[0]] + cs[1..];
    } else if |cs| > 0 {
      assert cs == [cs[0]] + cs[1..];
    }
  }

  lemma {:induction false} DropAppend(a: seq<Counter>, b: seq<Counter>, email: string)
    ensures Drop(a + b, email) == Drop(a, email) + Drop(b, email)
  {
    if a == [] {
      assert a + b == b;
    } else {
      assert (a + b)[1..] == a[1..] + b;
      DropAppend(a[1..], b, email);
    }
  }

  /** The counters of one tag and the core's registrations. */
  class Ledger {
    var uidMap: UidMap
    var open: bool               // the dispatcher has counters for the tag
    var counters: seq<Counter>
    var born: seq<string>        // what has been allocated so far

    ghost function State(pending: seq<Report>): Books
      reads this
    {
      Books(uidMap, open, counters, born, pending)
    }

    /** GetCounter, and the bytes added to what it returns. */
    method Add(email: string, up: nat, down: nat) returns (id: nat)
      modifies this`counters, this`born
      ensures counters == Credit(old(counters), |old(born)|, email, up, down)
      ensures born == Created(old(counters), old(born), email) && id == CounterOf(old(counters), email, |old(born)|)
    {
      hide Credit, CounterOf, HasCounter;
      for i := 0 to |counters|
        invariant counters == old(counters) && born == old(born)
        invariant forall j :: 0 <= j < i ==> counters[j].email != email
      {
        if counters[i].email == email {
          CreditAt(counters, i, |born|, email, up, down);
          id := counters[i].id;
          counters := counters[i := counters[i].(up := counters[i].up + up, down := counters[i].down + down)];
          return;
        }
      }
      CreditAt(counters, |counters|, |born|, email, up, down);
      id := |born|;
      counters := counters + [Counter(email, |born|, up, down)];
      born := born + [email];
    }

    /** A connection is dispatched: it gets a counter to keep. */
    method Open(email: string) returns (id: nat)
      modifies this
      ensures id == CounterOf(old(counters), email, |old(born)|)
      ensures forall pending :: State(pending) == Next(old(State(pending)), Connect(email))
    {
      hide Credit, CounterOf, Created;
      open := true;
      id := Add(email, 0, 0);
    }

    /** A connection moves bytes. */
    method Count(id: nat, up: nat, down: nat)
      modifies this`counters
      ensures forall pending :: State(pending) == Next(old(State(pending)), Use(id, up, down))
    {
      hide Tally;
      for i := 0 to |counters|
        invariant counters == old(counters)
        invariant forall j :: 0 <= j < i ==> counters[j].id != id
      {
        if counters[i].id == id {
          TallyAt(counters, i, id, up, down);
          counters := counters[i := counters[i].(up := counters[i].up + up, down := counters[i].down + down)];
          return;
        }
      }
      TallyAt(counters, |counters|, id, up, down);
    }

    /** What DelUsers does for each user. */
    method Delete(email: string)
      modifies this`uidMap, this`counters
      ensures forall pending :: State(pending) == Next(old(State(pending)), Remove(email))
    {
      hide Drop;
      uidMap := uidMap - {email};
      var kept: seq<Counter> := [];
      assert Drop([], email) == [] by { NothingDropped(email); }
      assert counters[..0] == [];
      for i := 0 to |counters|
        invariant counters == old(counters) && uidMap == old(uidMap) - {email}
        invariant kept == Drop(counters[..i], email)
      {
        assert counters[..i + 1] == counters[..i] + [counters[i]];
        DropAppend(counters[..i], [counters[i]], email);
        DropOne(counters[i], email);
        if counters[i].email != email {
          kept := kept + [counters[i]];
        }
      }
      assert counters[..|counters|] == counters;
      counters := kept;
    }

    /** What DelNode does. */
    method Cleanup()
      modifies this`open, this`counters
      ensures forall pending :: State(pending) == Next(old(State(pending)), Rebuild)
    {
      open, counters := false, [];
    }

    method GetUserTrafficSlice(min: int) returns (report: seq<Report>)
      modifies this`counters
      ensures (report, counters) == Sweep(old(counters), uidMap, min)
      ensures State(report) == Next(old(State([])), Collect(min))
    {
      report := [];
      var kept: seq<Counter> := [];
      ghost var (rs, cs) := Sweep(counters, uidMap, min);
      for i := 0 to |counters|
        invariant counters == old(counters)
        invariant report + Sweep(counters[i..], uidMap, min).0 == rs
        invariant kept + Sweep(counters[i..], uidMap, min).1 == cs
      {
        var c := counters[i];
        assert counters[i..][1..] == counters[i + 1..];
        if Live(uidMap, c.email) {
          kept := kept + [c.(up := 0, down := 0)];
          if c.up + c.down > min * 1000 {
            report := report + [Report(uidMap[c.email], c.up, c.down)];
          }
        }
      }
      assert counters[|counters|..] == [] && report + [] == report && kept + [] == kept;
      assert [] + report == report;
      counters := kept;
    }

    method AddBackTraffic(report: seq<Report>) returns (ghost pick: map<int, string>)
      modifies this`counters, this`born
      ensures Inverts(pick, uidMap) && State([]) == Next(old(State(report)), Return(pick))
    {
      var uidToEmail: map<int, string> := map[];
      var left := uidMap.Keys;
      while left != {}
        invariant left <= uidMap.Keys && unchanged(this)
        invariant forall uid :: uid in uidToEmail ==> Belongs(uidMap, uidToEmail[uid], uid)
        invariant forall email :: email in uidMap && email !in left ==> uidMap[email] in uidToEmail
        decreases left
      {
        var email :| email in left;
        uidToEmail := uidToEmail[uidMap[email] := email];
        left := left - {email};
      }
      pick := uidToEmail;
      if open {
        GiveBack(uidToEmail, report);
      }
    }

    method GiveBack(uidToEmail: map<int, string>, report: seq<Report>)
      modifies this`counters, this`born
      ensures (counters, born) == AddBack(old(counters), old(born), uidToEmail, report)
    {
      hide Credit, Created, CounterOf;
      for i := 0 to |report|
        invariant AddBack(counters, born, uidToEmail, report[i..]) == AddBack(old(counters), old(born), uidToEmail, report)
      {
        assert report[i..][1..] == report[i + 1..] && report[i..][0] == report[i];
        if report[i].uid in uidToEmail {
          var _ := Add(uidToEmail[report[i].uid], report[i].up, report[i].down);
        }
      }
    }
  }

  lemma NothingDropped(email: string)
    ensures Drop([], email) == []
  {
  }

  lemma DropOne(c: Counter, email: string)
    ensures Drop([c], email) == if c.email == email then [] else [c]
  {
    NothingDropped(email);
    assert [c][1..] == [];
  }
}
