/** Snell v4/v5 trial authentication: the self-organising credential list (common/snell/trial.go). */
module TrialOrder {
  import opened Octets

  datatype Cred = Cred(psk: Bytes, uuid: string)

  predicate Unique(c: seq<Cred>) {
    forall i, j :: 0 <= i < j < |c| ==> c[i].uuid != c[j].uuid
  }

  /** Position of a user, or the length of the list. */
  function Find(c: seq<Cred>, uuid: string): (i: nat)
    ensures i <= |c| && (i < |c| ==> c[i].uuid == uuid)
    ensures forall j :: 0 <= j < i ==> c[j].uuid != uuid
  {
    if c == [] || c[0].uuid == uuid then 0 else 1 + Find(c[1..], uuid)
  }

  predicate Has(c: seq<Cred>, uuid: string) { Find(c, uuid) < |c| }

  function Users(c: seq<Cred>): set<string> { set i | 0 <= i < |c| :: c[i].uuid }

  lemma HasIffUser(c: seq<Cred>, uuid: string)
    ensures Has(c, uuid) <==> uuid in Users(c)
  {
  }

  lemma FindIsUnique(c: seq<Cred>, i: nat)
    requires Unique(c) && i < |c|
    ensures Find(c, c[i].uuid) == i
  {
    assert forall j :: 0 <= j < i ==> c[j].uuid != c[i].uuid;
  }

  function MoveToFront(c: seq<Cred>, uuid: string): seq<Cred> {
    var i := Find(c, uuid);
    if i == |c| then c else [c[i]] + c[..i] + c[i + 1..]
  }

  /** Promotion is a permutation that puts the user first. */
  lemma PromotePermutes(c: seq<Cred>, uuid: string)
    ensures multiset(MoveToFront(c, uuid)) == multiset(c)
    ensures Unique(c) ==> Unique(MoveToFront(c, uuid))
    ensures Users(MoveToFront(c, uuid)) == Users(c)
    ensures Has(c, uuid) ==> Find(MoveToFront(c, uuid), uuid) == 0
  {
    var i := Find(c, uuid);
    if i < |c| {
      Rotate(c, i);
    }
  }

  lemma Rotate(c: seq<Cred>, i: nat)
    requires i < |c|
    ensures var d := [c[i]] + c[..i] + c[i + 1..];
            multiset(d) == multiset(c) && Users(d) == Users(c) && (Unique(c) ==> Unique(d))
  {
    hide Unique, Users;
    var a, b := c[..i], c[i + 1..];
    assert c == a + [c[i]] + b;
    UsersConcat(a + [c[i]], b);
    UsersConcat(a, [c[i]]);
    UsersConcat([c[i]] + a, b);
    UsersConcat([c[i]], a);
    if Unique(c) { RotateUnique(c, i); }
  }

  lemma RotateUnique(c: seq<Cred>, i: nat)
    requires i < |c| && Unique(c)
    ensures Unique([c[i]] + c[..i] + c[i + 1..])
  {
    var d := [c[i]] + c[..i] + c[i + 1..];
    forall x, y | 0 <= x < y < |d| ensures d[x].uuid != d[y].uuid {
      var ox, oy := if x == 0 then i else if x <= i then x - 1 else x, if y <= i then y - 1 else y;
      assert d[x] == c[ox] && d[y] == c[oy] && ox != oy;
    }
  }

  // ---- UpdateUsers ----

  /** The credential set of a panel list: the last non-empty key given for each user. */
  function NewSet(users: seq<string>, keys: seq<Bytes>, n: nat): map<string, Bytes>
    requires n <= |users|
  {
    if n == 0 then map[]
    else if n - 1 < |keys| && |keys[n - 1]| > 0 then NewSet(users, keys, n - 1)[users[n - 1] := keys[n - 1]]
    else NewSet(users, keys, n - 1)
  }

  /** The i-th entry of the panel's list gives the user a key. */
  predicate Keyed(users: seq<string>, keys: seq<Bytes>, uuid: string, i: nat) {
    i < |users| && i < |keys| && users[i] == uuid && keys[i] != []
  }

  /** And it is the last that does. */
  predicate LastKeyed(users: seq<string>, keys: seq<Bytes>, uuid: string, i: nat) {
    Keyed(users, keys, uuid, i) && forall j :: i < j < |users| ==> !Keyed(users, keys, uuid, j)
  }

  /** The set has exactly the users with a key, and for each the last one. */
  lemma {:induction false} NewSetIs(users: seq<string>, keys: seq<Bytes>, n: nat, uuid: string)
    requires n <= |users|
    ensures uuid in NewSet(users, keys, n) <==> exists i :: 0 <= i < n && Keyed(users, keys, uuid, i)
    ensures forall i :: 0 <= i < n && Keyed(users, keys, uuid, i) && (forall j :: i < j < n ==> !Keyed(users, keys, uuid, j))
              ==> NewSet(users, keys, n)[uuid] == keys[i]
    decreases n
  {
    if n > 0 {
      NewSetIs(users, keys, n - 1, uuid);
      assert Keyed(users, keys, uuid, n - 1) <==> n - 1 < |keys| && users[n - 1] == uuid && keys[n - 1] != [];
    }
  }

  /** A list serves exactly the users with a key, each once and under the last key given for it. */
  ghost predicate Serves(c: seq<Cred>, users: seq<string>, keys: seq<Bytes>) {
    && Unique(c)
    && (forall u :: u in Users(c) <==> exists i :: 0 <= i < |users| && Keyed(users, keys, u, i))
    && (forall k, i :: 0 <= k < |c| && 0 <= i < |keys| && LastKeyed(users, keys, c[k].uuid, i) ==> c[k].psk == keys[i])
  }

  /** An update makes the list serve the panel's users. */
  lemma UpdateServesPanel(c: seq<Cred>, users: seq<string>, keys: seq<Bytes>, added: seq<Cred>)
    requires Unique(c) && NewcomersOf(c, NewSet(users, keys, |users|), added)
    ensures Serves(Survivors(c, NewSet(users, keys, |users|)) + added, users, keys)
  {
    hide NewSet, Keyed;
    var m := NewSet(users, keys, |users|);
    var d := Survivors(c, m) + added;
    UpdateServes(c, m, added);
    forall u ensures u in Users(d) <==> exists i :: 0 <= i < |users| && Keyed(users, keys, u, i) {
      NewSetIs(users, keys, |users|, u);
    }
    forall k, i | 0 <= k < |d| && 0 <= i < |keys| && LastKeyed(users, keys, d[k].uuid, i) ensures d[k].psk == keys[i] {
      NewSetIs(users, keys, |users|, d[k].uuid);
      KeyedListed(users, keys, d[k].uuid, i);
    }
  }

  lemma KeyedListed(users: seq<string>, keys: seq<Bytes>, uuid: string, i: nat)
    requires Keyed(users, keys, uuid, i)
    ensures i < |users|
  {
  }

  /** Users still present, in their old order and with their new keys. */
  function Survivors(c: seq<Cred>, m: map<string, Bytes>): seq<Cred> {
    if c == [] then []
    else if c[0].uuid in m then [Cred(m[c[0].uuid], c[0].uuid)] + Survivors(c[1..], m)
    else Survivors(c[1..], m)
  }

  /** The new users, in whatever order the map hands them out. */
  ghost predicate NewcomersOf(c: seq<Cred>, m: map<string, Bytes>, added: seq<Cred>) {
    && Unique(added)
    && Users(added) == m.Keys - Users(c)
    && forall i :: 0 <= i < |added| ==> added[i].uuid in m && added[i].psk == m[added[i].uuid]
  }

  lemma {:induction false} SurvivorsAre(c: seq<Cred>, m: map<string, Bytes>)
    ensures Users(Survivors(c, m)) == Users(c) * m.Keys
    ensures Unique(c) ==> Unique(Survivors(c, m))
    ensures forall i :: 0 <= i < |Survivors(c, m)| ==>
      Survivors(c, m)[i].uuid in m && Survivors(c, m)[i].psk == m[Survivors(c, m)[i].uuid]
  {
    if c != [] {
      var s, t := Survivors(c, m), Survivors(c[1..], m);
      SurvivorsAre(c[1..], m);
      assert Users(c) == {c[0].uuid} + Users(c[1..]) by { UsersCons(c[0], c[1..]); assert [c[0]] + c[1..] == c; }
      if c[0].uuid in m {
        UsersCons(Cred(m[c[0].uuid], c[0].uuid), t);
        if Unique(c) {
          forall j | 0 < j < |s| ensures s[0].uuid != s[j].uuid {
            assert s[j] == t[j - 1] && s[j].uuid in Users(t);
          }
        }
      }
    }
  }

  lemma UsersCons(x: Cred, c: seq<Cred>)
    ensures Users([x] + c) == {x.uuid} + Users(c)
  {
    var d := [x] + c;
    assert d[0] == x && forall i :: 0 <= i < |c| ==> d[i + 1] == c[i];
  }

  lemma UsersOne(x: Cred)
    ensures Users([x]) == {x.uuid}
  {
    assert [x][0] == x;
  }

  lemma UsersConcat(a: seq<Cred>, b: seq<Cred>)
    ensures Users(a + b) == Users(a) + Users(b)
  {
    var d := a + b;
    assert forall i :: 0 <= i < |a| ==> d[i] == a[i];
    assert forall i :: 0 <= i < |b| ==> d[|a| + i] == b[i];
  }

  /** After an update the list serves exactly the new set, each user once. */
  lemma UpdateServes(c: seq<Cred>, m: map<string, Bytes>, added: seq<Cred>)
    requires Unique(c) && NewcomersOf(c, m, added)
    ensures var d := Survivors(c, m) + added;
            && Unique(d) && Users(d) == m.Keys
            && forall i :: 0 <= i < |d| ==> d[i].psk == m[d[i].uuid]
  {
    var s := Survivors(c, m);
    SurvivorsAre(c, m);
    UsersConcat(s, added);
    forall i, j | 0 <= i < |s| && 0 <= j < |added| ensures s[i].uuid != added[j].uuid {
      assert s[i].uuid in Users(s) && added[j].uuid in Users(added);
    }
  }

  /** Where a survivor stands: after exactly the survivors that stood before it. */
  lemma {:induction false} SurvivorPosition(c: seq<Cred>, m: map<string, Bytes>, uuid: string)
    requires uuid in m && Has(c, uuid)
    ensures Has(Survivors(c, m), uuid)
    ensures Find(Survivors(c, m), uuid) == |Survivors(c[..Find(c, uuid)], m)|
  {
    if c[0].uuid != uuid {
      SurvivorPosition(c[1..], m, uuid);
      assert c[..Find(c, uuid)][1..] == c[1..][..Find(c[1..], uuid)];
    } else {
      assert c[..0] == [];
    }
  }

  lemma {:induction false} SurvivorsConcat(a: seq<Cred>, b: seq<Cred>, m: map<string, Bytes>)
    ensures Survivors(a + b, m) == Survivors(a, m) + Survivors(b, m)
  {
    if a == [] {
      assert a + b == b;
    } else {
      assert (a + b)[1..] == a[1..] + b;
      SurvivorsConcat(a[1..], b, m);
    }
  }

  /** Survivors keep their relative order. */
  lemma SurvivorsKeepOrder(c: seq<Cred>, m: map<string, Bytes>, added: seq<Cred>, u: string, v: string)
    requires u in m && v in m && Has(c, u) && Has(c, v)
    ensures var d := Survivors(c, m) + added; Find(c, u) < Find(c, v) <==> Find(d, u) < Find(d, v)
  {
    SurvivorPosition(c, m, u);
    SurvivorPosition(c, m, v);
    FindInPrefix(Survivors(c, m), added, u);
    FindInPrefix(Survivors(c, m), added, v);
    if Find(c, u) < Find(c, v) {
      StrictlyMore(c, m, u, v);
    } else if Find(c, v) < Find(c, u) {
      StrictlyMore(c, m, v, u);
    }
  }

  lemma StrictlyMore(c: seq<Cred>, m: map<string, Bytes>, u: string, v: string)
    requires u in m && Has(c, u) && Has(c, v) && Find(c, u) < Find(c, v)
    ensures |Survivors(c[..Find(c, u)], m)| < |Survivors(c[..Find(c, v)], m)|
  {
    var i, j := Find(c, u), Find(c, v);
    assert c[..j] == c[..i] + ([c[i]] + c[i + 1..j]);
    SurvivorsConcat(c[..i], [c[i]] + c[i + 1..j], m);
  }

  lemma {:induction false} FindInPrefix(c: seq<Cred>, more: seq<Cred>, uuid: string)
    requires Has(c, uuid)
    ensures Find(c + more, uuid) == Find(c, uuid)
  {
    if c[0].uuid != uuid {
      assert (c + more)[1..] == c[1..] + more;
      FindInPrefix(c[1..], more, uuid);
    }
  }

  // ---- runs ----

  datatype Event =
    | Promoted(uuid: string)
    | Updated(m: map<string, Bytes>, added: seq<Cred>)

  function Apply(c: seq<Cred>, e: Event): seq<Cred> {
    match e
    case Promoted(uuid) => MoveToFront(c, uuid)
    case Updated(m, added) => Survivors(c, m) + added
  }

  function ApplyAll(c: seq<Cred>, es: seq<Event>): seq<Cred>
    decreases |es|
  {
    if es == [] then c else ApplyAll(Apply(c, es[0]), es[1..])
  }

  /** Every update appends exactly its newcomers. */
  ghost predicate Admissible(c: seq<Cred>, es: seq<Event>)
    decreases |es|
  {
    es != [] ==>
      && (es[0].Updated? ==> NewcomersOf(c, es[0].m, es[0].added))
      && Admissible(Apply(c, es[0]), es[1..])
  }

  /** No update of the run drops this user. */
  predicate Kept(uuid: string, es: seq<Event>) {
    forall i :: 0 <= i < |es| && es[i].Updated? ==> uuid in es[i].m
  }

  function PromotedIn(es: seq<Event>): set<string> {
    set i | 0 <= i < |es| && es[i].Promoted? :: es[i].uuid
  }

  function Ahead(c: seq<Cred>, uuid: string): set<string> { Users(c[..Find(c, uuid)]) }

  /** Over any run no user is ever listed twice. */
  lemma {:induction false} RunKeepsUnique(c: seq<Cred>, es: seq<Event>)
    requires Unique(c) && Admissible(c, es)
    ensures Unique(ApplyAll(c, es))
    decreases |es|
  {
    if es != [] {
      match es[0] {
        case Promoted(uuid) => PromotePermutes(c, uuid);
        case Updated(m, added) => UpdateServes(c, m, added);
      }
      RunKeepsUnique(Apply(c, es[0]), es[1..]);
    }
  }

  lemma AheadStep(c: seq<Cred>, e: Event, uuid: string)
    requires Has(c, uuid) && (e.Updated? ==> uuid in e.m)
    ensures Has(Apply(c, e), uuid)
    ensures Ahead(Apply(c, e), uuid) <= Ahead(c, uuid) + (if e.Promoted? then {e.uuid} else {})
  {
    match e
    case Promoted(v) =>
      PromoteAhead(c, v, uuid);
    case Updated(m, added) =>
      var s, i := Survivors(c, m), Find(c, uuid);
      SurvivorPosition(c, m, uuid);
      FindInPrefix(s, added, uuid);
      assert c == c[..i] + c[i..];
      SurvivorsConcat(c[..i], c[i..], m);
      assert (s + added)[..Find(s, uuid)] == Survivors(c[..i], m);
      SurvivorsAre(c[..i], m);
  }

  lemma PromoteAhead(c: seq<Cred>, v: string, uuid: string)
    requires Has(c, uuid)
    ensures var d := MoveToFront(c, v); Has(d, uuid) && Ahead(d, uuid) <= Ahead(c, uuid) + {v}
  {
    var d, i, k := MoveToFront(c, v), Find(c, uuid), Find(c, v);
    PromotePermutes(c, v);
    HasIffUser(c, uuid);
    HasIffUser(d, uuid);
    var p := Find(d, uuid);
    if k < |c| && v != uuid {
      if i < k { assert d[i + 1].uuid == uuid; } else { assert d[i].uuid == uuid; }
      forall x | x in Ahead(d, uuid) ensures x in Ahead(c, uuid) + {v} {
        var j :| 0 <= j < p && d[j].uuid == x;
        if j > 0 {
          var o := if j <= k then j - 1 else j;
          assert c[o] == d[j];
          assert o < i;
          assert c[..i][o].uuid == x;
        }
      }
    }
  }

  lemma {:induction false} AheadOverRun(c: seq<Cred>, es: seq<Event>, uuid: string)
    requires Has(c, uuid) && Kept(uuid, es)
    ensures Has(ApplyAll(c, es), uuid)
    ensures Ahead(ApplyAll(c, es), uuid) <= Ahead(c, uuid) + PromotedIn(es)
    decreases |es|
  {
    if es != [] {
      AheadStep(c, es[0], uuid);
      assert forall i :: 0 <= i < |es[1..]| ==> es[1..][i] == es[i + 1];
      AheadOverRun(Apply(c, es[0]), es[1..], uuid);
      assert es[0].Promoted? ==> es[0].uuid in PromotedIn(es);
      assert PromotedIn(es[1..]) <= PromotedIn(es);
    }
  }

  /** Whoever is ahead of a user has been promoted since that user was, whatever promotions and
      updates have happened in between. */
  lemma AheadWerePromotedSince(c: seq<Cred>, uuid: string, es: seq<Event>)
    requires Has(c, uuid) && Kept(uuid, es)
    ensures var d := ApplyAll(MoveToFront(c, uuid), es);
            Has(d, uuid) && Ahead(d, uuid) <= PromotedIn(es)
  {
    PromotePermutes(c, uuid);
    var f := MoveToFront(c, uuid);
    assert Ahead(f, uuid) == {} by { assert f[..0] == []; }
    AheadOverRun(f, es, uuid);
  }

  // ---- cost ----

  /** Trial decryptions until this user's key is tried. */
  function Trials(c: seq<Cred>, uuid: string): nat { Find(c, uuid) + 1 }

  /** A connection costs at most one trial more than the number of other users promoted since this
      user last was. */
  lemma TrialsSinceLast(c: seq<Cred>, uuid: string, es: seq<Event>)
    requires Unique(c) && Has(c, uuid) && Kept(uuid, es) && Admissible(MoveToFront(c, uuid), es)
    ensures Trials(ApplyAll(MoveToFront(c, uuid), es), uuid) <= 1 + |PromotedIn(es) - {uuid}|
  {
    var f := MoveToFront(c, uuid);
    var d := ApplyAll(f, es);
    PromotePermutes(c, uuid);
    RunKeepsUnique(f, es);
    AheadWerePromotedSince(c, uuid, es);
    var front := d[..Find(d, uuid)];
    assert uuid !in Users(front);
    CountUsers(front);
    Subset(Users(front), PromotedIn(es) - {uuid});
  }

  lemma {:induction false} CountUsers(c: seq<Cred>)
    requires Unique(c)
    ensures |Users(c)| == |c|
  {
    if c != [] {
      CountUsers(c[1..]);
      UsersCons(c[0], c[1..]);
      assert [c[0]] + c[1..] == c;
      assert c[0].uuid !in Users(c[1..]);
    }
  }

  lemma {:induction false} Subset(a: set<string>, b: set<string>)
    requires a <= b
    ensures |a| <= |b|
    decreases a
  {
    if a != {} {
      var x :| x in a;
      Subset(a - {x}, b - {x});
    }
  }

  /** Trials of `k` connections in a row by one user, each promoted before the next. */
  function BurstCost(c: seq<Cred>, uuid: string, k: nat): nat
    decreases k
  {
    if k == 0 then 0 else Trials(c, uuid) + BurstCost(MoveToFront(c, uuid), uuid, k - 1)
  }

  /** Only the first connection of a burst pays for the user's position: n + k - 1 at worst. */
  lemma {:induction false} BurstBound(c: seq<Cred>, uuid: string, k: nat)
    requires Has(c, uuid) && k > 0
    ensures BurstCost(c, uuid, k) == Find(c, uuid) + k <= |c| + k - 1
    decreases k
  {
    if k > 1 {
      PromotePermutes(c, uuid);
      BurstBound(MoveToFront(c, uuid), uuid, k - 1);
    }
  }

  // ---- outcome ----

  /** The user of the first credential whose key opens the stream. */
  function Winner(c: seq<Cred>, opens: Bytes -> bool): Option<string> {
    if c == [] then None
    else if opens(c[0].psk) then Some(c[0].uuid)
    else Winner(c[1..], opens)
  }

  lemma {:induction false} WinnerIs(c: seq<Cred>, opens: Bytes -> bool)
    ensures Winner(c, opens).None? <==> forall x :: x in c ==> !opens(x.psk)
    ensures Winner(c, opens).Some? ==> exists x :: x in c && opens(x.psk) && x.uuid == Winner(c, opens).value
  {
    if c != [] {
      WinnerIs(c[1..], opens);
      assert c == [c[0]] + c[1..];
      if opens(c[0].psk) { assert c[0] in c; }
    }
  }

  /** When the stream opens for one user only, that user is found in every order of the list. */
  lemma OutcomeIgnoresOrder(c: seq<Cred>, d: seq<Cred>, opens: Bytes -> bool)
    requires multiset(c) == multiset(d)
    requires forall x, y :: x in c && y in c && opens(x.psk) && opens(y.psk) ==> x.uuid == y.uuid
    ensures Winner(c, opens) == Winner(d, opens)
  {
    WinnerIs(c, opens);
    WinnerIs(d, opens);
    assert forall x :: x in c <==> x in multiset(c);
    assert forall x :: x in d <==> x in multiset(d);
  }
}

/** The rewindable connection and the trial loop (common/snell/trial.go). */
module TrialService {
  import opened Octets
  import opened Wire
  import opened TrialOrder

  /** The single-user service for one key: after what it has seen of the stream, how many bytes it reads
      next, none when it has decided; and whether it hands the connection to its handler. */
  datatype Protocol = Protocol(more: (Bytes, Bytes) -> nat, accepts: (Bytes, Bytes) -> bool)

  /** All that the service of a key reads of a stream before it decides. */
  function View(svc: Protocol, psk: Bytes, seen: Bytes, rest: Bytes): Bytes
    decreases |rest|
  {
    var n := Min(svc.more(psk, seen), |rest|);
    if n == 0 then seen else View(svc, psk, seen + rest[..n], rest[n..])
  }

  lemma ViewStep(svc: Protocol, psk: Bytes, seen: Bytes, data: Bytes, rest: Bytes)
    requires |data| == Min(svc.more(psk, seen), |data + rest|)
    ensures View(svc, psk, seen, data + rest) == if data == [] then seen else View(svc, psk, seen + data, rest)
  {
    assert (data + rest)[..|data|] == data && (data + rest)[|data|..] == rest;
  }

  /** The keys whose service accepts a stream met from its first byte. */
  function Opens(svc: Protocol, stream: Bytes): Bytes -> bool {
    psk => svc.accepts(psk, View(svc, psk, [], stream))
  }

  class RewindConn {
    const sock: Socket
    var buf: Bytes
    var off: nat
    var recording: bool

    constructor (sock: Socket)
      ensures this.sock == sock && Valid() && recording && buf == [] && off == 0
    {
      this.sock, buf, off, recording := sock, [], 0, true;
    }

    ghost predicate Valid()
      reads this
    {
      off <= |buf|
    }

    /** The stream from its first byte, as long as recording goes on. */
    ghost function Whole(): Bytes
      reads this, sock
    {
      buf + sock.Coming()
    }

    /** What the next reads will return. */
    ghost function Rest(): Bytes
      requires Valid()
      reads this, sock
    {
      buf[off..] + sock.Coming()
    }

    method Read(n: nat) returns (data: Bytes, eof: bool)
      requires Valid()
      modifies this`buf, this`off, sock
      ensures Valid() && |data| <= n
      ensures data + Rest() == old(Rest())
      ensures recording ==> Whole() == old(Whole())
      ensures eof ==> data == [] && Rest() == []
      ensures !eof && n > 0 ==> |Rest()| + |sock.incoming| < |old(Rest())| + |old(sock.incoming)|
    {
      hide Socket.Coming;
      if off < |buf| {
        data := Replay(n);
        return data, false;
      }
      if n == 0 {
        return [], false;
      }
      ghost var before := sock.Coming();
      assert Rest() == before;
      data, eof := sock.Read(n);
      if recording {
        assert (buf + data) + sock.Coming() == buf + before;
        buf := buf + data;
        off := |buf|;
      }
      assert Rest() == sock.Coming();
    }

    /** Serve recorded bytes first. */
    method Replay(n: nat) returns (data: Bytes)
      requires Valid() && off < |buf|
      modifies this`off
      ensures Valid() && |data| <= n && data + Rest() == old(Rest())
      ensures n > 0 ==> |Rest()| < |old(Rest())|
    {
      hide Socket.Coming;
      var k := Min(n, |buf| - off);
      data := buf[off..off + k];
      assert buf[off..] == data + buf[off + k..];
      assert (data + buf[off + k..]) + sock.Coming() == data + (buf[off + k..] + sock.Coming());
      off := off + k;
    }

    /** Go's `io.ReadFull` on it: `n` bytes, or all that are left. */
    method ReadFull(n: nat) returns (data: Bytes)
      requires Valid()
      modifies this`buf, this`off, sock
      ensures Valid() && |data| == Min(n, |old(Rest())|) && data + Rest() == old(Rest())
      ensures recording ==> Whole() == old(Whole())
    {
      hide Whole, Rest, Socket.Coming;
      ghost var all := Rest();
      data := [];
      while |data| < n
        invariant Valid() && |data| <= n && data + Rest() == all
        invariant recording ==> Whole() == old(Whole())
        decreases |Rest()| + |sock.incoming|
      {
        var more, eof := Read(n - |data|);
        assert (data + more) + Rest() == all;
        data := data + more;
        if eof {
          break;
        }
      }
    }

    method Rewind()
      requires Valid()
      modifies this`off
      ensures Valid() && off == 0 && Rest() == Whole()
    {
      off := 0;
    }

    /** Recording stops; not a byte of what is still unread changes. */
    method Commit()
      requires Valid()
      modifies this
      ensures Valid() && !recording && Rest() == old(Rest())
    {
      if off < |buf| {
        buf := buf[off..];
      } else {
        buf := [];
      }
      off, recording := 0, false;
    }
  }

  class Service {
    var creds: seq<Cred>

    constructor ()
      ensures creds == []
    {
      creds := [];
    }

    method Promote(uuid: string)
      modifies this
      ensures creds == MoveToFront(old(creds), uuid)
    {
      if |creds| == 0 || creds[0].uuid == uuid {
        assert |creds| > 0 ==> [creds[0]] + creds[..0] + creds[1..] == creds;
        return;
      }
      var idx := |creds|;
      for i := 0 to |creds|
        invariant idx == |creds|
        invariant forall j :: 0 <= j < i ==> creds[j].uuid != uuid
      {
        if creds[i].uuid == uuid {
          idx := i;
          break;
        }
      }
      if idx == |creds| {
        return;
      }
      creds := [creds[idx]] + creds[..idx] + creds[idx + 1..];
    }

    /** Rebuild the list for a new user set, keeping the learned order. */
    method UpdateUsers(users: seq<string>, keys: seq<Bytes>) returns (ghost added: seq<Cred>)
      modifies this
      ensures var m := NewSet(users, keys, |users|);
              NewcomersOf(old(creds), m, added) && creds == Survivors(old(creds), m) + added
      ensures Unique(old(creds)) ==> Serves(creds, users, keys)
    {
      var newSet: map<string, Bytes> := map[];
      for i := 0 to |users|
        invariant creds == old(creds) && newSet == NewSet(users, keys, i)
      {
        if i < |keys| && |keys[i]| > 0 {
          newSet := newSet[users[i] := keys[i]];
        }
      }
      var kept: seq<Cred>, seen: set<string> := [], {};
      for i := 0 to |creds|
        invariant creds == old(creds)
        invariant kept == Survivors(creds[..i], newSet) && seen == Users(creds[..i]) * newSet.Keys
      {
        var c := creds[i];
        assert creds[..i + 1] == creds[..i] + [c];
        SurvivorsConcat(creds[..i], [c], newSet);
        UsersConcat(creds[..i], [c]);
        UsersOne(c);
        if c.uuid in newSet {
          kept := kept + [Cred(newSet[c.uuid], c.uuid)];
          seen := seen + {c.uuid};
        }
      }
      assert creds[..|creds|] == creds;
      var newcomers: seq<Cred> := AppendNew(newSet, newSet.Keys - seen);
      added := newcomers;
      if Unique(creds) { UpdateServesPanel(creds, users, keys, newcomers); }
      creds := kept + newcomers;
    }

    /** The keys of a map in an unspecified order. */
    method AppendNew(m: map<string, Bytes>, todo: set<string>) returns (newcomers: seq<Cred>)
      requires todo <= m.Keys
      ensures Unique(newcomers) && Users(newcomers) == todo
      ensures forall i :: 0 <= i < |newcomers| ==> newcomers[i].uuid in m && newcomers[i].psk == m[newcomers[i].uuid]
    {
      newcomers := [];
      var left := todo;
      while left != {}
        invariant left <= todo && Unique(newcomers) && Users(newcomers) == todo - left
        invariant forall i :: 0 <= i < |newcomers| ==> newcomers[i].uuid in m && newcomers[i].psk == m[newcomers[i].uuid]
        decreases left
      {
        var uuid :| uuid in left;
        UsersConcat(newcomers, [Cred(m[uuid], uuid)]);
        UsersOne(Cred(m[uuid], uuid));
        assert forall i :: 0 <= i < |newcomers| ==> newcomers[i].uuid in Users(newcomers);
        newcomers := newcomers + [Cred(m[uuid], uuid)];
        left := left - {uuid};
      }
    }

    /** Try every key in turn on the same stream, each from byte 0; commit to the first that accepts and
        leave to its handler exactly the bytes that its attempt has not read. */
    method NewConnection(sock: Socket, svc: Protocol)
      returns (winner: Option<string>, trials: nat, rw: RewindConn, ghost seen: Bytes)
      modifies this, sock
      ensures fresh(rw) && rw.Valid() && rw.sock == sock
      ensures var stream := old(sock.Coming());
              && winner == Winner(old(creds), Opens(svc, stream))
              && (winner.Some? ==> seen + rw.Rest() == stream && !rw.recording)
              && (winner.None? ==> trials == |old(creds)| && rw.Whole() == stream)
      ensures Unique(old(creds)) && winner.Some? ==> trials == Trials(old(creds), winner.value)
      ensures creds == (if winner.Some? then MoveToFront(old(creds), winner.value) else old(creds))
    {
      hide View;
      ghost var stream := sock.Coming();
      ghost var opens := Opens(svc, stream);
      rw := new RewindConn(sock);
      assert [] + sock.Coming() == stream;
      seen := [];
      trials := 0;
      for i := 0 to |creds|
        invariant creds == old(creds) && trials == i
        invariant rw.Valid() && rw.recording && rw.Whole() == stream
        invariant Winner(creds, opens) == Winner(creds[i..], opens)
      {
        rw.Rewind();
        var ok;
        ok, seen := Attempt(rw, creds[i].psk, svc, stream);
        trials := trials + 1;
        assert creds[i..][1..] == creds[i + 1..];
        if ok {
          rw.Commit();
          winner := Some(creds[i].uuid);
          if Unique(creds) { FindIsUnique(creds, i); }
          Promote(creds[i].uuid);
          return;
        }
      }
      winner := None;
    }

    /** One attempt: it sees the stream from byte 0, whatever the fragments and the earlier attempts. */
    method Attempt(rw: RewindConn, psk: Bytes, svc: Protocol, ghost stream: Bytes)
      returns (ok: bool, seen: Bytes)
      requires rw.Valid() && rw.recording && rw.Whole() == stream && rw.Rest() == stream
      modifies rw`buf, rw`off, rw.sock
      ensures rw.Valid() && rw.Whole() == stream && seen + rw.Rest() == stream
      ensures seen == View(svc, psk, [], stream) && ok == Opens(svc, stream)(psk)
    {
      hide RewindConn.Whole, RewindConn.Rest, View;
      seen := [];
      assert [] + stream == stream;
      while true
        invariant rw.Valid() && rw.recording && rw.Whole() == stream && seen + rw.Rest() == stream
        invariant View(svc, psk, seen, rw.Rest()) == View(svc, psk, [], stream)
        decreases |rw.Rest()|
      {
        var data := rw.ReadFull(svc.more(psk, seen));
        ViewStep(svc, psk, seen, data, rw.Rest());
        assert (seen + data) + rw.Rest() == stream;
        if data == [] {
          break;
        }
        seen := seen + data;
      }
      ok := svc.accepts(psk, seen);
    }
  }
}
