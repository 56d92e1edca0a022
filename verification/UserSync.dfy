/** The user diff, and the limiter tables kept in step with the user list by it (node/user.go,
    limiter/limiter.go). */
module UserDiff {
  import opened LimiterModel

  /** The last user listed under each uuid. */
  function LastOf(users: seq<User>): (m: map<string, User>)
    ensures forall k :: k in m ==> m[k].uuid == k
  {
    if users == [] then map[] else map[users[0].uuid := users[0]] + LastOf(users[1..])
  }

  function FirstOf(users: seq<User>, uuid: string): User
    requires uuid in LastOf(users)
  {
    if users[0].uuid == uuid then users[0] else FirstOf(users[1..], uuid)
  }

  /** The uuid is listed more than once. */
  predicate Again(users: seq<User>, uuid: string) {
    users != [] && (if users[0].uuid == uuid then uuid in LastOf(users[1..]) else Again(users[1..], uuid))
  }

  predicate LimitsDiffer(a: User, b: User) { a.speed != b.speed || a.device != b.device }

  /** The scan over the new list: added, modified, and the old users not met. */
  function Scan(rem: map<string, User>, users: seq<User>): (seq<User>, seq<User>, map<string, User>)
    decreases |users|
  {
    if users == [] then ([], [], rem) else
      var u := users[0];
      if u.uuid !in rem then
        var (a, m, r) := Scan(rem, users[1..]);
        ([u] + a, m, r)
      else
        var (a, m, r) := Scan(rem - {u.uuid}, users[1..]);
        (a, if LimitsDiffer(rem[u.uuid], u) then [u] + m else m, r)
  }

  /** `users` are the values of `m`, in whatever order the map hands them out. */
  ghost predicate ValuesOf(m: map<string, User>, users: seq<User>) {
    && (forall i :: 0 <= i < |users| ==> users[i].uuid in m && m[users[i].uuid] == users[i])
    && (forall k :: k in m ==> exists i :: 0 <= i < |users| && users[i].uuid == k)
  }

  /** What compareUserList may return for two lists. */
  ghost predicate Diff(was: seq<User>, now: seq<User>, deleted: seq<User>, added: seq<User>, modified: seq<User>) {
    var (a, m, r) := Scan(LastOf(was), now);
    added == a && modified == m && ValuesOf(r, deleted)
  }

  lemma {:induction false} LastOfAppend(users: seq<User>, u: User)
    ensures LastOf(users + [u]) == LastOf(users)[u.uuid := u]
  {
    if users == [] {
      assert users + [u] == [u];
    } else {
      assert (users + [u])[1..] == users[1..] + [u];
      LastOfAppend(users[1..], u);
    }
  }

  method CompareUserList(was: seq<User>, now: seq<User>)
    returns (deleted: seq<User>, added: seq<User>, modified: seq<User>)
    ensures Diff(was, now, deleted, added, modified)
  {
    var oldMap: map<string, User> := map[];
    for i := 0 to |was|
      invariant oldMap == LastOf(was[..i])
    {
      assert was[..i + 1] == was[..i] + [was[i]];
      LastOfAppend(was[..i], was[i]);
      oldMap := oldMap[was[i].uuid := was[i]];
    }
    assert was[..|was|] == was;
    added, modified := [], [];
    ghost var (a, m, r) := Scan(oldMap, now);
    for i := 0 to |now|
      invariant added + Scan(oldMap, now[i..]).0 == a
      invariant modified + Scan(oldMap, now[i..]).1 == m
      invariant Scan(oldMap, now[i..]).2 == r
      invariant forall k :: k in oldMap ==> oldMap[k].uuid == k
    {
      var u := now[i];
      assert now[i..][1..] == now[i + 1..];
      if u.uuid !in oldMap {
        added := added + [u];
      } else {
        var o := oldMap[u.uuid];
        if o.speed != u.speed || o.device != u.device {
          modified := modified + [u];
        }
        oldMap := oldMap - {u.uuid};
      }
    }
    assert now[|now|..] == [];
    deleted := Drain(oldMap);
  }

  method Drain(m: map<string, User>) returns (users: seq<User>)
    requires forall k :: k in m ==> m[k].uuid == k
    ensures ValuesOf(m, users)
  {
    users := [];
    var left := m.Keys;
    while left != {}
      invariant left <= m.Keys
      invariant forall i :: 0 <= i < |users| ==> users[i].uuid in m && m[users[i].uuid] == users[i]
      invariant forall k :: k in m && k !in left ==> exists i :: 0 <= i < |users| && users[i].uuid == k
      decreases left
    {
      var k :| k in left;
      ghost var before := users;
      users := users + [m[k]];
      left := left - {k};
      assert users[|before|].uuid == k;
      forall x | x in m && x !in left ensures exists i :: 0 <= i < |users| && users[i].uuid == x {
        if x != k {
          var i :| 0 <= i < |before| && before[i].uuid == x;
          assert users[i].uuid == x;
        }
      }
    }
  }
}

/** The incrementally updated limiter has the tables of one built from scratch. */
module LimiterRefinement {
  import opened Octets
  import opened Format
  import opened LimiterModel
  import opened UserDiff

  /** What the panel determines about a user; the rest of `Info` is the throttle's. */
  datatype Entry = Entry(uid: int, speed: int, device: int)

  function Look(s: Limits, tag: string, uuid: string): Option<Entry> {
    var key := UserTag(tag, uuid);
    if key in s.info then Some(Entry(s.info[key].uid, s.info[key].speed, s.info[key].device)) else None
  }

  function UidOf(s: Limits, uuid: string): Option<int> { if uuid in s.uids then Some(s.uids[uuid]) else None }

  function EntryOf(u: User, fallback: int): Entry { Entry(u.id, u.speed, if u.device == 0 then fallback else u.device) }

  /** All keys of the table belong to this node. */
  predicate Tagged(s: Limits, tag: string) {
    forall k :: k in s.info ==> |k| > |tag| && k == UserTag(tag, k[|tag| + 1..])
  }

  /** For one uuid the limiter has what a user list asks for. */
  predicate MatchesAt(s: Limits, tag: string, users: seq<User>, uuid: string) {
    var m := LastOf(users);
    && Look(s, tag, uuid) == (if uuid in m then Some(EntryOf(m[uuid], s.deviceLimit)) else None)
    && UidOf(s, uuid) == (if uuid in m then Some(m[uuid].id) else None)
  }

  ghost predicate Matches(s: Limits, tag: string, users: seq<User>) {
    Tagged(s, tag) && forall uuid :: MatchesAt(s, tag, users, uuid)
  }

  /** Apart from what throttles add, the tables of two limiters are the same. */
  predicate SameEntries(s: Limits, f: Limits) {
    && s.uids == f.uids && s.info.Keys == f.info.Keys
    && forall k :: k in s.info ==>
         && s.info[k].uid == f.info[k].uid
         && s.info[k].speed == f.info[k].speed
         && s.info[k].device == f.info[k].device
  }

  /** A limiter matches a list if and only if it has the tables of a limiter built from it. */
  lemma MatchesMeansRebuilt(s: Limits, tag: string, users: seq<User>, nodeType: string, alive: map<int, int>, speed: int)
    ensures Matches(s, tag, users)
       <==> SameEntries(s, AddLimiter(nodeType, tag, users, alive, speed, s.deviceLimit))
  {
    hide AddLimiter, MatchesAt, Matches, SameEntries;
    BuiltMatches(nodeType, tag, users, alive, speed, s.deviceLimit);
    var f := AddLimiter(nodeType, tag, users, alive, speed, s.deviceLimit);
    if Matches(s, tag, users) { MatchingAgree(s, f, tag, users); }
    if SameEntries(s, f) { AgreeingMatch(s, f, tag, users); }
  }

  lemma AgreeingMatch(s: Limits, f: Limits, tag: string, users: seq<User>)
    requires SameEntries(s, f) && Matches(f, tag, users) && s.deviceLimit == f.deviceLimit
    ensures Matches(s, tag, users)
  {
    hide UserTag;
    forall u ensures MatchesAt(s, tag, users, u) { assert MatchesAt(f, tag, users, u); }
  }

  lemma MatchingAgree(s: Limits, f: Limits, tag: string, users: seq<User>)
    requires Matches(s, tag, users) && Matches(f, tag, users) && s.deviceLimit == f.deviceLimit
    ensures SameEntries(s, f)
  {
    hide MatchesAt, Look, UidOf;
    forall u ensures UidOf(s, u) == UidOf(f, u) && Look(s, tag, u) == Look(f, tag, u) {
      assert MatchesAt(s, tag, users, u) && MatchesAt(f, tag, users, u);
      BothMatch(s, f, tag, users, u);
    }
    SameUids(s, f);
    forall k | k in s.info || k in f.info
      ensures k in s.info && k in f.info && s.info[k].uid == f.info[k].uid
           && s.info[k].speed == f.info[k].speed && s.info[k].device == f.info[k].device
    {
      SameAt(s, f, tag, k);
    }
  }

  lemma SameUids(s: Limits, f: Limits)
    requires forall u :: UidOf(s, u) == UidOf(f, u)
    ensures s.uids == f.uids
  {
    assert forall u {:trigger u in s.uids} {:trigger u in f.uids} :: UidOf(s, u) == UidOf(f, u);
  }

  lemma SameAt(s: Limits, f: Limits, tag: string, k: string)
    requires Tagged(s, tag) && Tagged(f, tag) && (k in s.info || k in f.info)
    requires forall u :: Look(s, tag, u) == Look(f, tag, u)
    ensures k in s.info && k in f.info && s.info[k].uid == f.info[k].uid
         && s.info[k].speed == f.info[k].speed && s.info[k].device == f.info[k].device
  {
    assert Look(s, tag, k[|tag| + 1..]) == Look(f, tag, k[|tag| + 1..]);
  }

  lemma BothMatch(s: Limits, f: Limits, tag: string, users: seq<User>, u: string)
    requires MatchesAt(s, tag, users, u) && MatchesAt(f, tag, users, u) && s.deviceLimit == f.deviceLimit
    ensures UidOf(s, u) == UidOf(f, u) && Look(s, tag, u) == Look(f, tag, u)
  {
  }

  // ---- what each loop does to one uuid ----

  lemma {:induction false} AddAllAt(s: Limits, tag: string, users: seq<User>, uuid: string)
    ensures var a, m := AddAll(s, tag, users), LastOf(users);
            && a.deviceLimit == s.deviceLimit && (Tagged(s, tag) ==> Tagged(a, tag))
            && Look(a, tag, uuid) == (if uuid in m then Some(EntryOf(m[uuid], s.deviceLimit)) else Look(s, tag, uuid))
            && UidOf(a, uuid) == (if uuid in m then Some(m[uuid].id) else UidOf(s, uuid))
    decreases |users|
  {
    if users != [] {
      var s1 := AddUser(s, tag, users[0]);
      SameTag(tag, users[0].uuid, uuid);
      assert Tagged(s, tag) ==> Tagged(s1, tag);
      AddAllAt(s1, tag, users[1..], uuid);
    }
  }

  lemma {:induction false} DelAllAt(s: Limits, tag: string, users: seq<User>, uuid: string)
    ensures var d, gone := DelAll(s, tag, users), exists i :: 0 <= i < |users| && users[i].uuid == uuid;
            && d.deviceLimit == s.deviceLimit && (Tagged(s, tag) ==> Tagged(d, tag))
            && Look(d, tag, uuid) == (if gone then None else Look(s, tag, uuid))
            && UidOf(d, uuid) == (if gone then None else UidOf(s, uuid))
    decreases |users|
  {
    if users != [] {
      var s1 := DelUser(s, tag, users[0]);
      SameTag(tag, users[0].uuid, uuid);
      DelAllAt(s1, tag, users[1..], uuid);
      assert forall i :: 0 <= i < |users| - 1 ==> users[1..][i] == users[i + 1];
      if exists i :: 0 <= i < |users| && users[i].uuid == uuid {
        var i :| 0 <= i < |users| && users[i].uuid == uuid;
        if i > 0 { assert users[1..][i - 1].uuid == uuid; }
      }
    }
  }

  lemma {:induction false} ModAllAt(s: Limits, tag: string, users: seq<User>, uuid: string)
    ensures var d, m := ModAll(s, tag, users), LastOf(users);
            && d.deviceLimit == s.deviceLimit && (Tagged(s, tag) ==> Tagged(d, tag))
            && Look(d, tag, uuid)
            == (if Look(s, tag, uuid).Some? && uuid in m
                then Some(Entry(Look(s, tag, uuid).value.uid, m[uuid].speed, DeviceOf(s.deviceLimit, m[uuid])))
                else Look(s, tag, uuid))
            && UidOf(d, uuid) == UidOf(s, uuid)
    decreases |users|
  {
    if users != [] {
      var s1 := ModUser(s, tag, users[0]);
      SameTag(tag, users[0].uuid, uuid);
      assert Tagged(s, tag) ==> Tagged(s1, tag);
      ModAllAt(s1, tag, users[1..], uuid);
    }
  }

  lemma BuiltMatches(nodeType: string, tag: string, users: seq<User>, alive: map<int, int>, speed: int, device: int)
    ensures Matches(AddLimiter(nodeType, tag, users, alive, speed, device), tag, users)
    ensures var f := AddLimiter(nodeType, tag, users, alive, speed, device);
            && f.deviceLimit == device && f.nodeType == nodeType && f.speedLimit == speed && f.alive == alive
            && f.online == map[] && f.previous == map[] && f.buckets == map[]
  {
    hide AddAll;
    var empty := Limits(nodeType, speed, device, map[], map[], map[], map[], map[], alive);
    forall uuid ensures MatchesAt(AddAll(empty, tag, users), tag, users, uuid) {
      AddAllAt(empty, tag, users, uuid);
    }
    AddAllAt(empty, tag, users, "");
    AddAllLeaves(empty, tag, users);
  }

  lemma {:induction false} AddAllLeaves(s: Limits, tag: string, users: seq<User>)
    ensures var a := AddAll(s, tag, users); a == s.(info := a.info, uids := a.uids)
    decreases |users|
  {
    if users != [] { AddAllLeaves(AddUser(s, tag, users[0]), tag, users[1..]); }
  }

  // ---- what the diff says about one uuid ----

  lemma {:induction false} ScanAt(rem: map<string, User>, users: seq<User>, uuid: string)
    ensures var (a, m, r) := Scan(rem, users);
            var listed := uuid in LastOf(users);
            && (uuid in r <==> uuid in rem && !listed) && (uuid in r ==> r[uuid] == rem[uuid])
            && (uuid in LastOf(a) <==> listed && (uuid !in rem || Again(users, uuid)))
            && (uuid in LastOf(a) ==> LastOf(a)[uuid] == LastOf(users)[uuid])
            && (uuid in LastOf(m) <==> listed && uuid in rem && LimitsDiffer(rem[uuid], FirstOf(users, uuid)))
            && (uuid in LastOf(m) ==> LastOf(m)[uuid] == FirstOf(users, uuid))
    decreases |users|
  {
    if users != [] {
      var u := users[0];
      if u.uuid !in rem {
        var a := Scan(rem, users[1..]).0;
        assert ([u] + a)[1..] == a;
        ScanAt(rem, users[1..], uuid);
        AgainIsListed(users[1..], uuid);
      } else {
        var m := Scan(rem - {u.uuid}, users[1..]).1;
        assert ([u] + m)[1..] == m;
        ScanAt(rem - {u.uuid}, users[1..], uuid);
      }
    }
  }

  lemma {:induction false} AgainIsListed(users: seq<User>, uuid: string)
    ensures Again(users, uuid) ==> uuid in LastOf(users)
  {
    if users != [] && users[0].uuid != uuid { AgainIsListed(users[1..], uuid); }
  }

  lemma {:induction false} OnceIsFirst(users: seq<User>, uuid: string)
    requires uuid in LastOf(users) && !Again(users, uuid)
    ensures FirstOf(users, uuid) == LastOf(users)[uuid]
  {
    if users[0].uuid != uuid { OnceIsFirst(users[1..], uuid); }
  }

  /** A user that stays, listed once, keeps its id. */
  predicate IdStable(was: seq<User>, now: seq<User>, uuid: string) {
    uuid in LastOf(was) && uuid in LastOf(now) && !Again(now, uuid) ==> LastOf(was)[uuid].id == LastOf(now)[uuid].id
  }

  lemma SyncAt(s: Limits, tag: string, was: seq<User>, now: seq<User>,
               deleted: seq<User>, added: seq<User>, modified: seq<User>, uuid: string)
    requires Tagged(s, tag) && MatchesAt(s, tag, was, uuid) && Diff(was, now, deleted, added, modified)
    ensures var s' := UpdateUser(s, tag, added, deleted, modified);
            && Tagged(s', tag) && s'.deviceLimit == s.deviceLimit
            && (MatchesAt(s', tag, now, uuid) <==> IdStable(was, now, uuid))
  {
    hide AddAll, ModAll, DelAll, Scan, Again;
    var d := DelAll(s, tag, deleted);
    var e := ModAll(d, tag, modified);
    DelAllAt(s, tag, deleted, uuid);
    ModAllAt(d, tag, modified, uuid);
    AddAllAt(e, tag, added, uuid);
    ScanAt(LastOf(was), now, uuid);
    DeletedIffLeft(Scan(LastOf(was), now).2, deleted, uuid);
    if uuid in LastOf(now) && !Again(now, uuid) {
      OnceIsFirst(now, uuid);
    }
  }

  lemma DeletedIffLeft(r: map<string, User>, deleted: seq<User>, uuid: string)
    requires ValuesOf(r, deleted)
    ensures uuid in r <==> exists i :: 0 <= i < |deleted| && deleted[i].uuid == uuid
  {
  }

  /** Building for `was` and applying the diff gives the tables built for `now` exactly when every user
      that stays kept its id: compareUserList does not look at ids. */
  lemma SyncRefinesRebuild(s: Limits, tag: string, was: seq<User>, now: seq<User>,
                           deleted: seq<User>, added: seq<User>, modified: seq<User>)
    requires Matches(s, tag, was) && Diff(was, now, deleted, added, modified)
    ensures Matches(UpdateUser(s, tag, added, deleted, modified), tag, now)
       <==> forall uuid :: IdStable(was, now, uuid)
  {
    hide UpdateUser, IdStable, Diff, MatchesAt;
    var s' := UpdateUser(s, tag, added, deleted, modified);
    forall uuid ensures Tagged(s', tag) && (MatchesAt(s', tag, now, uuid) <==> IdStable(was, now, uuid)) {
      assert MatchesAt(s, tag, was, uuid);
      SyncAt(s, tag, was, now, deleted, added, modified, uuid);
    }
    SyncAt(s, tag, was, now, deleted, added, modified, "");
  }

  /** The condition can fail: the panel moves a uuid to another id and changes nothing else. */
  lemma ReassignedIdIsMissed()
    ensures var was, now := [User(1, "u", 0, 0)], [User(2, "u", 0, 0)];
            && Diff(was, now, [], [], []) && !IdStable(was, now, "u")
            && var s := UpdateUser(AddLimiter("", "t", was, map[], 0, 0), "t", [], [], []);
            && UserTag("t", "u") in s.info && s.info[UserTag("t", "u")].uid == 1
  {
    var was, now := [User(1, "u", 0, 0)], [User(2, "u", 0, 0)];
    assert was[1..] == [] && now[1..] == [];
    assert LastOf(was) == map["u" := was[0]];
    var rem := LastOf(was) - {"u"};
    assert Scan(rem, []) == ([], [], rem);
  }
}
