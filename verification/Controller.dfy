/** What the core records about users: `uidMap`, by user tag (core/user.go). */
module CoreUsers {
  import opened Octets
  import opened Format
  import opened LimiterModel
  import opened UserDiff

  function Register(m: map<string, int>, tag: string, users: seq<User>): map<string, int>
    decreases |users|
  {
    if users == [] then m else Register(m[UserTag(tag, users[0].uuid) := users[0].id], tag, users[1..])
  }

  function Unregister(m: map<string, int>, tag: string, users: seq<User>): map<string, int>
    decreases |users|
  {
    if users == [] then m else Unregister(m - {UserTag(tag, users[0].uuid)}, tag, users[1..])
  }

  /** The uuids registered under a tag: the keys with its prefix, cut. */
  function Registered(m: map<string, int>, tag: string): set<string> {
    set k | k in m && UserTag(tag, "") <= k :: k[|tag| + 1..]
  }

  function Uuids(users: seq<User>): set<string> { LastOf(users).Keys }

  lemma RegisteredIff(m: map<string, int>, tag: string, uuid: string)
    ensures uuid in Registered(m, tag) <==> UserTag(tag, uuid) in m
  {
    SameTag(tag, uuid, uuid);
    assert UserTag(tag, "") == tag + "|";
    if uuid in Registered(m, tag) {
      var k :| k in m && UserTag(tag, "") <= k && k[|tag| + 1..] == uuid;
      assert k == k[..|tag| + 1] + k[|tag| + 1..] == UserTag(tag, uuid);
    }
    if UserTag(tag, uuid) in m {
      var k := UserTag(tag, uuid);
      assert UserTag(tag, "") <= k && k[|tag| + 1..] == uuid;
    }
  }

  /** The uid under which a uuid is registered. */
  function UidAt(m: map<string, int>, tag: string, uuid: string): Option<int> {
    if UserTag(tag, uuid) in m then Some(m[UserTag(tag, uuid)]) else None
  }

  /** Registering gives each user the id that the list, read to its end, has for it, and no other user of
      the tag another one. */
  lemma {:induction false} RegisterAt(m: map<string, int>, tag: string, users: seq<User>, uuid: string)
    ensures UidAt(Register(m, tag, users), tag, uuid)
         == if uuid in LastOf(users) then Some(LastOf(users)[uuid].id) else UidAt(m, tag, uuid)
    decreases |users|
  {
    if users != [] {
      SameTag(tag, users[0].uuid, uuid);
      RegisterAt(m[UserTag(tag, users[0].uuid) := users[0].id], tag, users[1..], uuid);
    }
  }

  lemma {:induction false} UnregisterAt(m: map<string, int>, tag: string, users: seq<User>, uuid: string)
    ensures UidAt(Unregister(m, tag, users), tag, uuid) == if uuid in LastOf(users) then None else UidAt(m, tag, uuid)
    decreases |users|
  {
    if users != [] {
      SameTag(tag, users[0].uuid, uuid);
      UnregisterAt(m - {UserTag(tag, users[0].uuid)}, tag, users[1..], uuid);
    }
  }

  /** Whatever else is in the map stays as it is, values included. */
  lemma {:induction false} OtherKeysUntouched(m: map<string, int>, tag: string, users: seq<User>, key: string)
    requires forall i :: 0 <= i < |users| ==> UserTag(tag, users[i].uuid) != key
    ensures key in Register(m, tag, users) <==> key in m
    ensures key in Unregister(m, tag, users) <==> key in m
    ensures key in m ==> Register(m, tag, users)[key] == m[key] && Unregister(m, tag, users)[key] == m[key]
    decreases |users|
  {
    if users != [] {
      var k := UserTag(tag, users[0].uuid);
      OtherKeysUntouched(m[k := users[0].id], tag, users[1..], key);
      OtherKeysUntouched(m - {k}, tag, users[1..], key);
    }
  }

  lemma RegisterSet(m: map<string, int>, tag: string, users: seq<User>)
    ensures Registered(Register(m, tag, users), tag) == Registered(m, tag) + Uuids(users)
  {
    forall u ensures u in Registered(Register(m, tag, users), tag) <==> u in Registered(m, tag) + Uuids(users) {
      RegisterAt(m, tag, users, u);
      RegisteredIff(m, tag, u);
      RegisteredIff(Register(m, tag, users), tag, u);
    }
  }

  lemma UnregisterSet(m: map<string, int>, tag: string, users: seq<User>)
    ensures Registered(Unregister(m, tag, users), tag) == Registered(m, tag) - Uuids(users)
  {
    forall u ensures u in Registered(Unregister(m, tag, users), tag) <==> u in Registered(m, tag) - Uuids(users) {
      UnregisterAt(m, tag, users, u);
      RegisteredIff(m, tag, u);
      RegisteredIff(Unregister(m, tag, users), tag, u);
    }
  }

  /** Nodes share one core, but what one does to its users never shows in another's set. */
  lemma {:induction false} OtherTagsUntouched(m: map<string, int>, tag: string, users: seq<User>, other: string)
    requires '|' !in tag && '|' !in other && tag != other
    ensures Registered(Register(m, tag, users), other) == Registered(m, other)
    ensures Registered(Unregister(m, tag, users), other) == Registered(m, other)
    decreases |users|
  {
    if users != [] {
      var k := UserTag(tag, users[0].uuid);
      assert !(UserTag(other, "") <= k) by {
        if UserTag(other, "") <= k {
          assert k[..|other| + 1] == other + "|";
          assert k == UserTag(other, k[|other| + 1..]);
          UserTagInjective(tag, users[0].uuid, other, k[|other| + 1..]);
        }
      }
      forall u
        ensures u in Registered(m[k := users[0].id], other) <==> u in Registered(m, other)
        ensures u in Registered(m - {k}, other) <==> u in Registered(m, other)
      {
        RegisteredIff(m, other, u);
        RegisteredIff(m[k := users[0].id], other, u);
        RegisteredIff(m - {k}, other, u);
        assert UserTag(other, "") <= UserTag(other, u);
      }
      OtherTagsUntouched(m[k := users[0].id], tag, users[1..], other);
      OtherTagsUntouched(m - {k}, tag, users[1..], other);
    }
  }

  /** Nor is the uid of a user of another tag. */
  lemma OtherUidsUntouched(m: map<string, int>, tag: string, users: seq<User>, other: string, uuid: string)
    requires '|' !in tag && '|' !in other && tag != other
    ensures UidAt(Register(m, tag, users), other, uuid) == UidAt(m, other, uuid)
    ensures UidAt(Unregister(m, tag, users), other, uuid) == UidAt(m, other, uuid)
  {
    forall i | 0 <= i < |users| ensures UserTag(tag, users[i].uuid) != UserTag(other, uuid) {
      if UserTag(tag, users[i].uuid) == UserTag(other, uuid) {
        UserTagInjective(tag, users[i].uuid, other, uuid);
      }
    }
    OtherKeysUntouched(m, tag, users, UserTag(other, uuid));
  }

  class Core {
    var uidMap: map<string, int>

    /** The user manager may refuse, but only after the map has been written. */
    method AddUsers(tag: string, users: seq<User>, refused: bool) returns (err: bool)
      modifies this
      ensures uidMap == Register(old(uidMap), tag, users) && err == refused
    {
      for i := 0 to |users|
        invariant Register(uidMap, tag, users[i..]) == Register(old(uidMap), tag, users)
      {
        assert users[i..][1..] == users[i + 1..];
        uidMap := uidMap[UserTag(tag, users[i].uuid) := users[i].id];
      }
      err := refused;
    }

    /** A missing user manager is noticed before anything is deleted. */
    method DelUsers(users: seq<User>, tag: string, refused: bool) returns (err: bool)
      modifies this
      ensures uidMap == (if refused then old(uidMap) else Unregister(old(uidMap), tag, users)) && err == refused
    {
      if refused {
        return true;
      }
      for i := 0 to |users|
        invariant Unregister(uidMap, tag, users[i..]) == Unregister(old(uidMap), tag, users)
      {
        assert users[i..][1..] == users[i + 1..];
        uidMap := uidMap - {UserTag(tag, users[i].uuid)};
      }
      err := false;
    }

    method GetUserUUIDs(tag: string) returns (uuids: set<string>)
      ensures uuids == Registered(uidMap, tag)
    {
      var prefix := UserTag(tag, "");
      uuids := {};
      var left := uidMap.Keys;
      while left != {}
        invariant left <= uidMap.Keys
        invariant uuids == set k | k in uidMap && k !in left && prefix <= k :: k[|tag| + 1..]
        decreases left
      {
        var k :| k in left;
        left := left - {k};
        if prefix <= k {
          uuids := uuids + {k[|prefix|..]};
        }
      }
    }
  }
}

/** The user-sync cycle and the drift safety net (node/task.go). */
module SyncCycle {
  import opened Octets
  import opened Format
  import opened LimiterModel
  import opened UserDiff
  import opened LimiterRefinement
  import opened CoreUsers

  const EVERY := 5

  datatype Node = Node(userList: seq<User>, uidMap: map<string, int>, limits: Limits, counter: nat)

  /** How the rebuild of the inbound goes, if one is needed. */
  datatype Rebuild = NotNeeded | DelNodeFails | AddNodeFails | ReAddFails | Rebuilt

  datatype Listing = NotModified | Unavailable | Listed(users: seq<User>)

  /** Everything the panel, the core and the kernel decide during one cycle. */
  datatype Input = Input(
    nodeInfo: bool, rebuild: Rebuild, listing: Listing, alive: Option<map<int, int>>,
    delRefused: bool, addRefused: bool, repairDelRefused: bool, repairAddRefused: bool, portLost: bool)

  /** The orders in which Go's maps hand out deleted and surplus users. */
  datatype Order = Order(deleted: seq<User>, added: seq<User>, modified: seq<User>, extra: seq<User>)

  /** Users wanted but not registered, in list order. */
  function Missing(desired: seq<User>, core: set<string>): seq<User> {
    if desired == [] then []
    else if desired[0].uuid !in core then [desired[0]] + Missing(desired[1..], core)
    else Missing(desired[1..], core)
  }

  /** Registered users that nobody wants, known by uuid only. */
  ghost predicate Surplus(core: set<string>, desired: seq<User>, extra: seq<User>) {
    && (forall i :: 0 <= i < |extra| ==> extra[i] == User(0, extra[i].uuid, 0, 0))
    && Uuids(extra) == core - Uuids(desired)
  }

  function Reconcile(tag: string, s: Node, extra: seq<User>, delRefused: bool): Node {
    var missing := Missing(s.userList, Registered(s.uidMap, tag));
    if missing == [] && extra == [] then s else
      s.(uidMap := Register(if delRefused then s.uidMap else Unregister(s.uidMap, tag, extra), tag, missing),
         limits := UpdateUser(s.limits, tag, missing, extra, []))
  }

  /** The three outcomes of the part of a cycle before the safety net. */
  datatype Synced = Stop(node: Node) | Go(node: Node)

  function AfterRebuild(tag: string, s: Node, i: Input): Synced {
    if !i.nodeInfo || i.rebuild == DelNodeFails || i.rebuild == AddNodeFails then Stop(s)
    else if i.rebuild == NotNeeded then Go(s)
    else
      var s1 := s.(uidMap := Register(s.uidMap, tag, s.userList));
      if i.rebuild == ReAddFails && s.userList != [] then Stop(s1) else Go(s1)
  }

  function SyncUsers(tag: string, s: Node, i: Input, o: Order): Synced {
    if i.listing == Unavailable then Stop(s) else
      var s1 := if i.alive.Some? then s.(limits := s.limits.(alive := i.alive.value)) else s;
      if i.listing == NotModified || (i.listing.users == [] && s.userList != []) then Go(s1)
      else if o.deleted != [] && i.delRefused then Stop(s1)
      else
        var s2 := s1.(uidMap := Register(Unregister(s1.uidMap, tag, o.deleted), tag, o.added));
        if o.added != [] && i.addRefused then Stop(s2)
        else Go(s2.(limits := UpdateUser(s2.limits, tag, o.added, o.deleted, o.modified), userList := i.listing.users))
  }

  function SafetyNet(tag: string, s: Node, i: Input, o: Order): Node {
    var s1 := s.(counter := s.counter + 1);
    var s2 := if s1.counter >= EVERY then Reconcile(tag, s1.(counter := 0), o.extra, i.repairDelRefused) else s1;
    if i.portLost && s2.userList != [] then s2.(uidMap := Register(s2.uidMap, tag, s2.userList)) else s2
  }

  function Prefix(tag: string, s: Node, i: Input, o: Order): Synced {
    match AfterRebuild(tag, s, i)
    case Stop(s1) => Stop(s1)
    case Go(s1) => SyncUsers(tag, s1, i, o)
  }

  function Cycle(tag: string, s: Node, i: Input, o: Order): Node {
    match Prefix(tag, s, i, o)
    case Stop(s1) => s1
    case Go(s1) => SafetyNet(tag, s1, i, o)
  }

  predicate Reaches(tag: string, s: Node, i: Input, o: Order) { Prefix(tag, s, i, o).Go? }

  predicate Repairs(tag: string, s: Node, i: Input, o: Order) {
    Reaches(tag, s, i, o) && s.counter + 1 >= EVERY
  }

  /** The cycle gets as far as comparing lists: it has a new one, and not an empty one in place of a
      non-empty one. */
  predicate Compares(s: Node, i: Input) {
    i.listing.Listed? && (i.listing.users == [] ==> s.userList == [])
  }

  /** The orders fit the sets they are orders of. */
  ghost predicate Fits(tag: string, s: Node, i: Input, o: Order) {
    && (AfterRebuild(tag, s, i).Go? && Compares(s, i) ==>
          Diff(s.userList, i.listing.users, o.deleted, o.added, o.modified))
    && (Repairs(tag, s, i, o) ==>
          var n := Prefix(tag, s, i, o).node; Surplus(Registered(n.uidMap, tag), n.userList, o.extra))
  }

  /** Core and mirror agree. */
  predicate InSync(tag: string, s: Node) { Registered(s.uidMap, tag) == Uuids(s.userList) }

  // ---- runs ----

  /** What happens to a node: its own cycles, its connections' traffic, and what other nodes do to their
      users in the core that all share. */
  datatype Act =
    | Tick(input: Input, order: Order)
    | Traffic(event: Event)
    | Elsewhere(other: string, users: seq<User>, added: bool)

  function Do(tag: string, s: Node, a: Act): Node {
    match a
    case Tick(i, o) => Cycle(tag, s, i, o)
    case Traffic(e) => s.(limits := Step(tag, s.limits, e))
    case Elsewhere(other, users, added) =>
      s.(uidMap := if added then Register(s.uidMap, other, users) else Unregister(s.uidMap, other, users))
  }

  function Run(tag: string, s: Node, acts: seq<Act>): Node
    decreases |acts|
  {
    if acts == [] then s else Run(tag, Do(tag, s, acts[0]), acts[1..])
  }

  /** The number of cycles that reach the safety net. */
  function Reached(tag: string, s: Node, acts: seq<Act>): nat
    decreases |acts|
  {
    if acts == [] then 0 else
      (if acts[0].Tick? && Reaches(tag, s, acts[0].input, acts[0].order) then 1 else 0)
      + Reached(tag, Do(tag, s, acts[0]), acts[1..])
  }

  function Reconciles(tag: string, s: Node, acts: seq<Act>): nat
    decreases |acts|
  {
    if acts == [] then 0 else
      (if acts[0].Tick? && Repairs(tag, s, acts[0].input, acts[0].order) then 1 else 0)
      + Reconciles(tag, Do(tag, s, acts[0]), acts[1..])
  }

  /** Map orders fit their maps, and other nodes have other tags, free of the separator. */
  ghost predicate Fit(tag: string, s: Node, a: Act) {
    match a
    case Tick(i, o) => Fits(tag, s, i, o)
    case Traffic(_) => true
    case Elsewhere(other, _, _) => '|' !in tag && '|' !in other && tag != other
  }

  ghost predicate AllFit(tag: string, s: Node, acts: seq<Act>)
    decreases |acts|
  {
    acts == [] || (Fit(tag, s, acts[0]) && AllFit(tag, Do(tag, s, acts[0]), acts[1..]))
  }

  /** From here on the core refuses no additions, and no deletions to a reconcile; panel, inbound and the
      deletions of the fast path may still fail. */
  predicate CoreObliges(acts: seq<Act>) {
    forall k :: 0 <= k < |acts| && acts[k].Tick? ==> !acts[k].input.addRefused && !acts[k].input.repairDelRefused
  }

  lemma CounterStep(tag: string, s: Node, i: Input, o: Order)
    ensures Cycle(tag, s, i, o).counter
         == if Repairs(tag, s, i, o) then 0 else if Reaches(tag, s, i, o) then s.counter + 1 else s.counter
  {
    hide Register, Unregister, UpdateUser, Registered, Missing;
  }

  /** The reconcile comes on exactly every fifth cycle that reaches it: any five include one. */
  lemma {:induction false} EveryFifthReconciles(tag: string, s: Node, acts: seq<Act>)
    requires s.counter < EVERY
    ensures Reconciles(tag, s, acts) == (s.counter + Reached(tag, s, acts)) / EVERY
    ensures Run(tag, s, acts).counter == (s.counter + Reached(tag, s, acts)) % EVERY
    decreases |acts|
  {
    hide Cycle, Reaches;
    if acts != [] {
      if acts[0].Tick? { CounterStep(tag, s, acts[0].input, acts[0].order); }
      EveryFifthReconciles(tag, Do(tag, s, acts[0]), acts[1..]);
    }
  }

  /** In particular, any five such cycles include one. */
  lemma AnyFiveReconcile(tag: string, s: Node, acts: seq<Act>)
    requires s.counter < 5 && Reached(tag, s, acts) >= 5
    ensures Reconciles(tag, s, acts) >= 1
  {
    EveryFifthReconciles(tag, s, acts);
  }

  /** A list in use is never replaced by an empty one. */
  lemma {:induction false} NeverEmptied(tag: string, s: Node, acts: seq<Act>)
    requires s.userList != []
    ensures Run(tag, s, acts).userList != []
    decreases |acts|
  {
    hide Cycle;
    if acts != [] {
      if acts[0].Tick? { NotEmptiedStep(tag, s, acts[0].input, acts[0].order); }
      NeverEmptied(tag, Do(tag, s, acts[0]), acts[1..]);
    }
  }

  lemma NotEmptiedStep(tag: string, s: Node, i: Input, o: Order)
    requires s.userList != []
    ensures Cycle(tag, s, i, o).userList != []
  {
    hide Register, Unregister, UpdateUser, Registered, Missing;
  }

  // ---- drift ----

  lemma {:induction false} MissingAre(desired: seq<User>, core: set<string>)
    ensures Uuids(Missing(desired, core)) == Uuids(desired) - core
    ensures forall u :: u in LastOf(Missing(desired, core)) ==> LastOf(Missing(desired, core))[u] == LastOf(desired)[u]
  {
    if desired != [] {
      MissingAre(desired[1..], core);
      var m := Missing(desired[1..], core);
      assert ([desired[0]] + m)[1..] == m;
    }
  }

  /** From any drift whatsoever, a reconcile makes the registered users exactly the list, if and only if
      the deletion of the surplus ones was not refused. */
  lemma ReconcileRepairs(tag: string, s: Node, extra: seq<User>, delRefused: bool)
    requires Surplus(Registered(s.uidMap, tag), s.userList, extra)
    ensures InSync(tag, Reconcile(tag, s, extra, delRefused)) <==> (!delRefused || extra == [])
  {
    var core := Registered(s.uidMap, tag);
    var missing := Missing(s.userList, core);
    MissingAre(s.userList, core);
    var m := if delRefused then s.uidMap else Unregister(s.uidMap, tag, extra);
    UnregisterSet(s.uidMap, tag, extra);
    RegisterSet(m, tag, missing);
    if missing == [] { assert Register(m, tag, missing) == m; }
    SomeListed(extra);
  }

  lemma SomeListed(users: seq<User>)
    ensures users == [] <==> Uuids(users) == {}
  {
    if users != [] { assert users[0].uuid in Uuids(users); }
  }

  lemma DiffSets(was: seq<User>, now: seq<User>, o: Order)
    requires Diff(was, now, o.deleted, o.added, o.modified)
    ensures (Uuids(was) - Uuids(o.deleted)) + Uuids(o.added) == Uuids(now)
  {
    var (a, m, r) := Scan(LastOf(was), now);
    forall u ensures u in (Uuids(was) - Uuids(o.deleted)) + Uuids(o.added) <==> u in Uuids(now) {
      ScanAt(LastOf(was), now, u);
      AgainIsListed(now, u);
      ListedIff(o.deleted, u);
      DeletedIffLeft(r, o.deleted, u);
    }
  }

  lemma {:induction false} ListedIff(users: seq<User>, uuid: string)
    ensures uuid in LastOf(users) <==> exists i :: 0 <= i < |users| && users[i].uuid == uuid
  {
    if users != [] {
      ListedIff(users[1..], uuid);
      assert forall i :: 0 <= i < |users| - 1 ==> users[1..][i] == users[i + 1];
      if exists i :: 0 <= i < |users| && users[i].uuid == uuid {
        var i :| 0 <= i < |users| && users[i].uuid == uuid;
        if i > 0 { assert users[1..][i - 1].uuid == uuid; }
      }
    }
  }

  lemma RebuildKeepsSync(tag: string, s: Node, i: Input)
    requires InSync(tag, s)
    ensures InSync(tag, AfterRebuild(tag, s, i).node) && AfterRebuild(tag, s, i).node.userList == s.userList
  {
    hide Register, Registered;
    RegisterSet(s.uidMap, tag, s.userList);
  }

  lemma SyncKeepsSync(tag: string, s: Node, i: Input, o: Order)
    requires InSync(tag, s)
    requires Compares(s, i) ==> Diff(s.userList, i.listing.users, o.deleted, o.added, o.modified)
    requires !i.addRefused
    ensures InSync(tag, SyncUsers(tag, s, i, o).node)
  {
    hide Register, Unregister, Registered, UpdateUser, Diff;
    if Compares(s, i) {
      UnregisterSet(s.uidMap, tag, o.deleted);
      RegisterSet(Unregister(s.uidMap, tag, o.deleted), tag, o.added);
      DiffSets(s.userList, i.listing.users, o);
    }
  }

  lemma NetKeepsSync(tag: string, s: Node, i: Input, o: Order)
    requires s.counter + 1 >= EVERY ==> Surplus(Registered(s.uidMap, tag), s.userList, o.extra)
    requires InSync(tag, s) || (s.counter + 1 >= EVERY && !i.repairDelRefused)
    ensures InSync(tag, SafetyNet(tag, s, i, o))
  {
    hide Register, Unregister, Registered, UpdateUser, Missing, Reconcile, Surplus;
    var s1 := s.(counter := 0);
    ReconcileKeepsList(tag, s1, o.extra, i.repairDelRefused);
    if s.counter + 1 >= EVERY {
      ReconcileRepairs(tag, s1, o.extra, i.repairDelRefused);
      if InSync(tag, s) { NoSurplus(tag, s, o.extra); }
    }
    var s2 := if s.counter + 1 >= EVERY then Reconcile(tag, s1, o.extra, i.repairDelRefused) else s.(counter := s.counter + 1);
    RegisterSet(s2.uidMap, tag, s2.userList);
  }

  lemma ReconcileKeepsList(tag: string, s: Node, extra: seq<User>, delRefused: bool)
    ensures Reconcile(tag, s, extra, delRefused).userList == s.userList
  {
  }

  lemma NoSurplus(tag: string, s: Node, extra: seq<User>)
    requires InSync(tag, s) && Surplus(Registered(s.uidMap, tag), s.userList, extra)
    ensures extra == []
  {
    SomeListed(extra);
  }

  /** A cycle whose additions are not refused keeps agreement; one that reconciles without a refused
      deletion restores it. */
  lemma CycleSync(tag: string, s: Node, i: Input, o: Order)
    requires Fits(tag, s, i, o) && !i.addRefused && !i.repairDelRefused
    requires InSync(tag, s) || Repairs(tag, s, i, o)
    ensures InSync(tag, Cycle(tag, s, i, o))
  {
    hide AfterRebuild, SyncUsers, SafetyNet, Registered, Diff, Surplus;
    if InSync(tag, s) {
      RebuildKeepsSync(tag, s, i);
      var s1 := AfterRebuild(tag, s, i);
      if s1.Go? { SyncKeepsSync(tag, s1.node, i, o); }
    }
    CounterKept(tag, s, i, o);
    var p := Prefix(tag, s, i, o);
    if p.Go? { NetKeepsSync(tag, p.node, i, o); }
  }

  lemma CounterKept(tag: string, s: Node, i: Input, o: Order)
    ensures Prefix(tag, s, i, o).node.counter == s.counter
  {
    hide Register, Unregister, UpdateUser;
  }

  /** What other nodes do leaves agreement as it is. */
  lemma ElsewhereKeepsSync(tag: string, s: Node, a: Act)
    requires a.Elsewhere? && Fit(tag, s, a)
    ensures InSync(tag, Do(tag, s, a)) <==> InSync(tag, s)
  {
    OtherTagsUntouched(s.uidMap, a.other, a.users, tag);
  }

  /** From any contents of the core and any history, once the core obliges, agreement is reached by the
      time five cycles have come to the safety net, and kept from then on, whatever connections, panel,
      inbound and the other nodes do in between. */
  lemma {:induction false} DriftIsRepaired(tag: string, s: Node, acts: seq<Act>)
    requires s.counter < EVERY && AllFit(tag, s, acts) && CoreObliges(acts)
    requires InSync(tag, s) || s.counter + Reached(tag, s, acts) >= EVERY
    ensures InSync(tag, Run(tag, s, acts))
    decreases |acts|
  {
    hide Cycle, Fits, Reaches, Registered, Register, Unregister, Step;
    if acts != [] {
      match acts[0] {
        case Tick(i, o) =>
          CounterStep(tag, s, i, o);
          if InSync(tag, s) || Repairs(tag, s, i, o) { CycleSync(tag, s, i, o); }
        case Traffic(_) =>
        case Elsewhere(_, _, _) => ElsewhereKeepsSync(tag, s, acts[0]);
      }
      DriftIsRepaired(tag, Do(tag, s, acts[0]), acts[1..]);
    }
  }

  /** A refused deletion: the surplus user stays registered in the core and is out of the limiter, so
      its connections are rejected while the core still knows it. */
  lemma RefusedDeletionLeavesSurplus(limits: Limits)
    ensures var key, extra := UserTag("t", "x"), [User(0, "x", 0, 0)];
            var s := Node([], map[key := 7], limits, 0);
            var n := Reconcile("t", s, extra, true);
            && Surplus(Registered(s.uidMap, "t"), s.userList, extra)
            && n.uidMap == s.uidMap && key !in n.limits.info && !InSync("t", n)
  {
    var key, extra := UserTag("t", "x"), [User(0, "x", 0, 0)];
    var s := Node([], map[key := 7], limits, 0);
    assert Registered(s.uidMap, "t") == {"x"} by {
      forall u ensures u in Registered(s.uidMap, "t") <==> u == "x" {
        RegisteredIff(s.uidMap, "t", u);
        SameTag("t", u, "x");
      }
    }
    assert extra[1..] == [] && Uuids(extra) == {"x"} && Uuids([]) == {};
    assert Missing([], {"x"}) == [];
    assert Register(s.uidMap, "t", []) == s.uidMap;
    var d := DelUser(limits, "t", extra[0]);
    assert DelAll(limits, "t", extra) == DelAll(d, "t", []) == d;
    assert UpdateUser(limits, "t", [], extra, []) == d;
  }

  // ---- which ids the core has ----

  /** For one uuid the core has what a list asks for. */
  predicate UidMatches(tag: string, m: map<string, int>, users: seq<User>, uuid: string) {
    UidAt(m, tag, uuid) == if uuid in LastOf(users) then Some(LastOf(users)[uuid].id) else None
  }

  /** The core has exactly the listed users, each under its id. */
  ghost predicate CoreMatches(tag: string, s: Node) { forall uuid :: UidMatches(tag, s.uidMap, s.userList, uuid) }

  lemma MatchingIsInSync(tag: string, s: Node)
    requires CoreMatches(tag, s)
    ensures InSync(tag, s)
  {
    forall u ensures u in Registered(s.uidMap, tag) <==> u in Uuids(s.userList) {
      RegisteredIff(s.uidMap, tag, u);
      assert UidMatches(tag, s.uidMap, s.userList, u);
    }
  }

  /** A rebuild of the inbound registers every listed user under its id, whatever was there. */
  lemma RebuildGivesIds(tag: string, s: Node, i: Input, uuid: string)
    requires i.nodeInfo && (i.rebuild == Rebuilt || i.rebuild == ReAddFails) && uuid in LastOf(s.userList)
    ensures UidAt(AfterRebuild(tag, s, i).node.uidMap, tag, uuid) == Some(LastOf(s.userList)[uuid].id)
  {
    hide Register;
    RegisterAt(s.uidMap, tag, s.userList, uuid);
  }

  /** A reconcile registers the missing users under their ids and leaves the others the ids they have: it
      brings the core to the list if and only if no deletion of a surplus user is refused and no listed user
      was registered under another id. */
  lemma ReconcileGivesIds(tag: string, s: Node, extra: seq<User>, delRefused: bool)
    requires Surplus(Registered(s.uidMap, tag), s.userList, extra)
    ensures CoreMatches(tag, Reconcile(tag, s, extra, delRefused))
       <==> (!delRefused || extra == [])
            && forall u :: u in LastOf(s.userList) && UidAt(s.uidMap, tag, u).Some? ==> UidMatches(tag, s.uidMap, s.userList, u)
    ensures var n := Reconcile(tag, s, extra, delRefused);
            forall u :: u in LastOf(s.userList) && UidAt(s.uidMap, tag, u).None? ==> UidMatches(tag, n.uidMap, n.userList, u)
  {
    hide Register, Unregister, Registered, Missing, UpdateUser;
    var core := Registered(s.uidMap, tag);
    var missing := Missing(s.userList, core);
    MissingAre(s.userList, core);
    var m := if delRefused then s.uidMap else Unregister(s.uidMap, tag, extra);
    var n := Reconcile(tag, s, extra, delRefused);
    NoRegistration(m, tag);
    NoRegistration(s.uidMap, tag);
    SomeListed(extra);
    forall u ensures UidAt(n.uidMap, tag, u)
                  == if u in LastOf(s.userList) && UidAt(s.uidMap, tag, u).None? then Some(LastOf(s.userList)[u].id)
                     else if u !in LastOf(s.userList) && !delRefused then None
                     else UidAt(s.uidMap, tag, u) {
      ReconciledAt(tag, s, extra, delRefused, u);
    }
    if extra != [] && delRefused {
      var u :| u in Uuids(extra);
      RegisteredIff(s.uidMap, tag, u);
      assert !UidMatches(tag, n.uidMap, n.userList, u);
    }
    forall u ensures (!delRefused || extra == []) ==> (UidMatches(tag, n.uidMap, n.userList, u)
               <==> (u in LastOf(s.userList) && UidAt(s.uidMap, tag, u).Some? ==> UidMatches(tag, s.uidMap, s.userList, u))) {
      RegisteredIff(s.uidMap, tag, u);
    }
  }

  /** A user that the panel has moved to another id: the reconcile sees no drift. */
  lemma ReconcileMissesIds(limits: Limits)
    ensures var s := Node([User(2, "u", 0, 0)], map[UserTag("t", "u") := 1], limits, 0);
            && Surplus(Registered(s.uidMap, "t"), s.userList, []) && Reconcile("t", s, [], false) == s
            && InSync("t", s) && !CoreMatches("t", s)
  {
    var s := Node([User(2, "u", 0, 0)], map[UserTag("t", "u") := 1], limits, 0);
    assert s.userList[1..] == [] && LastOf(s.userList) == map["u" := s.userList[0]];
    assert Registered(s.uidMap, "t") == {"u"} by {
      forall u ensures u in Registered(s.uidMap, "t") <==> u == "u" {
        RegisteredIff(s.uidMap, "t", u);
        SameTag("t", u, "u");
      }
    }
    assert Missing(s.userList, {"u"}) == Missing([], {"u"}) == [] && Uuids([]) == {};
    assert !UidMatches("t", s.uidMap, s.userList, "u");
  }

  lemma NoRegistration(m: map<string, int>, tag: string)
    ensures Register(m, tag, []) == m && Unregister(m, tag, []) == m
  {
  }

  lemma ReconciledAt(tag: string, s: Node, extra: seq<User>, delRefused: bool, u: string)
    requires Surplus(Registered(s.uidMap, tag), s.userList, extra)
    ensures UidAt(Reconcile(tag, s, extra, delRefused).uidMap, tag, u)
         == if u in LastOf(s.userList) && UidAt(s.uidMap, tag, u).None? then Some(LastOf(s.userList)[u].id)
            else if u !in LastOf(s.userList) && !delRefused then None
            else UidAt(s.uidMap, tag, u)
  {
    hide Register, Unregister, Registered, Missing, UpdateUser;
    var core := Registered(s.uidMap, tag);
    var missing := Missing(s.userList, core);
    MissingAre(s.userList, core);
    var m := if delRefused then s.uidMap else Unregister(s.uidMap, tag, extra);
    RegisteredIff(s.uidMap, tag, u);
    UnregisterAt(s.uidMap, tag, extra, u);
    RegisterAt(m, tag, missing, u);
    assert u in LastOf(missing) <==> u in Uuids(missing);
  }

  /** The fast path brings a core that has the old list to the new one if and only if every user that stays
      kept its id. */
  lemma SyncGivesIds(tag: string, m: map<string, int>, was: seq<User>, now: seq<User>, o: Order, uuid: string)
    requires UidMatches(tag, m, was, uuid) && Diff(was, now, o.deleted, o.added, o.modified)
    ensures UidMatches(tag, Register(Unregister(m, tag, o.deleted), tag, o.added), now, uuid) <==> IdStable(was, now, uuid)
  {
    hide Register, Unregister, Scan, Again;
    UnregisterAt(m, tag, o.deleted, uuid);
    RegisterAt(Unregister(m, tag, o.deleted), tag, o.added, uuid);
    ScanAt(LastOf(was), now, uuid);
    AgainIsListed(now, uuid);
    ListedIff(o.deleted, uuid);
    DeletedIffLeft(Scan(LastOf(was), now).2, o.deleted, uuid);
  }

  lemma CycleKeepsIds(tag: string, s: Node, i: Input, o: Order)
    requires Fits(tag, s, i, o) && CoreMatches(tag, s) && !i.addRefused
    requires Compares(s, i) ==> forall u :: IdStable(s.userList, i.listing.users, u)
    ensures CoreMatches(tag, Cycle(tag, s, i, o))
  {
    hide Register, Unregister, Registered, UpdateUser, IdStable, Surplus, Diff, Missing, UidMatches;
    var r := AfterRebuild(tag, s, i).node;
    assert r.userList == s.userList && r.counter == s.counter;
    forall u ensures UidMatches(tag, r.uidMap, s.userList, u) {
      assert UidMatches(tag, s.uidMap, s.userList, u);
      AgainMatches(tag, s.uidMap, s.userList, u);
    }
    var p := Prefix(tag, s, i, o);
    CounterKept(tag, s, i, o);
    forall u ensures UidMatches(tag, p.node.uidMap, p.node.userList, u) {
      assert UidMatches(tag, r.uidMap, s.userList, u);
      if AfterRebuild(tag, s, i).Go? && Compares(s, i) {
        assert IdStable(s.userList, i.listing.users, u);
        SyncGivesIds(tag, r.uidMap, s.userList, i.listing.users, o, u);
      }
    }
    if p.Go? { NetKeepsIds(tag, p.node, i, o); }
  }

  /** Registering a list again changes nothing where it already holds. */
  lemma AgainMatches(tag: string, m: map<string, int>, users: seq<User>, u: string)
    requires UidMatches(tag, m, users, u)
    ensures UidMatches(tag, Register(m, tag, users), users, u)
  {
    hide Register;
    RegisterAt(m, tag, users, u);
  }

  lemma NetKeepsIds(tag: string, s: Node, i: Input, o: Order)
    requires s.counter + 1 >= EVERY ==> Surplus(Registered(s.uidMap, tag), s.userList, o.extra)
    requires CoreMatches(tag, s)
    ensures CoreMatches(tag, SafetyNet(tag, s, i, o))
  {
    hide Register, Unregister, Registered, UpdateUser, Missing, Reconcile, Surplus, UidMatches;
    var s1 := s.(counter := 0);
    ReconcileKeepsList(tag, s1, o.extra, i.repairDelRefused);
    if s.counter + 1 >= EVERY {
      MatchingIsInSync(tag, s);
      NoSurplus(tag, s, o.extra);
      ReconcileGivesIds(tag, s1, o.extra, i.repairDelRefused);
    }
    var s2 := if s.counter + 1 >= EVERY then Reconcile(tag, s1, o.extra, i.repairDelRefused) else s.(counter := s.counter + 1);
    assert CoreMatches(tag, s2);
    forall u ensures UidMatches(tag, Register(s2.uidMap, tag, s2.userList), s2.userList, u) {
      assert UidMatches(tag, s2.uidMap, s2.userList, u);
      AgainMatches(tag, s2.uidMap, s2.userList, u);
    }
  }

  /** Over every run in which additions are not refused and ids are stable, whatever the panel, the inbound
      and the other nodes do, the core has exactly the listed users, each under its id. */
  lemma {:induction false} CoreFollowsList(tag: string, s: Node, acts: seq<Act>)
    requires CoreMatches(tag, s) && Regular(tag, s, acts) && AllFit(tag, s, acts)
    requires forall k :: 0 <= k < |acts| && acts[k].Tick? ==> !acts[k].input.addRefused
    ensures CoreMatches(tag, Run(tag, s, acts))
    decreases |acts|
  {
    hide Cycle, Fits, CoreMatches, IdStable, Step, Register, Unregister;
    if acts != [] {
      match acts[0] {
        case Tick(i, o) => CycleKeepsIds(tag, s, i, o);
        case Traffic(e) => SameCore(tag, s, Do(tag, s, acts[0]));
        case Elsewhere(_, _, _) => ElsewhereKeepsIds(tag, s, acts[0]);
      }
      CoreFollowsList(tag, Do(tag, s, acts[0]), acts[1..]);
    }
  }

  lemma SameCore(tag: string, s: Node, n: Node)
    requires CoreMatches(tag, s) && n.uidMap == s.uidMap && n.userList == s.userList
    ensures CoreMatches(tag, n)
  {
    forall u ensures UidMatches(tag, n.uidMap, n.userList, u) { assert UidMatches(tag, s.uidMap, s.userList, u); }
  }

  lemma ElsewhereKeepsIds(tag: string, s: Node, a: Act)
    requires a.Elsewhere? && Fit(tag, s, a) && CoreMatches(tag, s)
    ensures CoreMatches(tag, Do(tag, s, a))
  {
    hide Register, Unregister;
    var n := Do(tag, s, a);
    forall u ensures UidMatches(tag, n.uidMap, n.userList, u) {
      assert UidMatches(tag, s.uidMap, s.userList, u);
      OtherUidsUntouched(s.uidMap, a.other, a.users, tag, u);
    }
  }

  /** The limiter is repaired along with the core: every missing user gets the entry of the list, and every
      surplus one loses its own, whatever the limiter had for them. */
  lemma ReconcileUpdatesLimiter(tag: string, s: Node, extra: seq<User>, delRefused: bool, u: string)
    requires Surplus(Registered(s.uidMap, tag), s.userList, extra)
    ensures var n := Reconcile(tag, s, extra, delRefused).limits;
            && (u in LastOf(s.userList) && UidAt(s.uidMap, tag, u).None? ==>
                  Look(n, tag, u) == Some(EntryOf(LastOf(s.userList)[u], s.limits.deviceLimit)))
            && (u !in LastOf(s.userList) && UidAt(s.uidMap, tag, u).Some? ==> Look(n, tag, u) == None)
  {
    hide AddAll, ModAll, DelAll, Missing, Registered, Register, Unregister;
    var missing := Missing(s.userList, Registered(s.uidMap, tag));
    MissingAre(s.userList, Registered(s.uidMap, tag));
    RegisteredIff(s.uidMap, tag, u);
    var d := DelAll(s.limits, tag, extra);
    NoMods(d, tag);
    DelAllAt(s.limits, tag, extra, u);
    AddAllAt(d, tag, missing, u);
    ListedIff(extra, u);
    assert u in LastOf(missing) <==> u in Uuids(missing);
    assert u in LastOf(extra) <==> u in Uuids(extra);
  }

  // ---- what a cycle takes over from the panel ----

  /** The list is taken over if and only if the cycle gets through with one to compare. */
  lemma CycleAdoptsList(tag: string, s: Node, i: Input, o: Order)
    ensures Cycle(tag, s, i, o).userList
         == if Reaches(tag, s, i, o) && Compares(s, i) then i.listing.users else s.userList
  {
    hide Register, Unregister, UpdateUser, Reconcile;
    if Reaches(tag, s, i, o) {
      var p := Prefix(tag, s, i, o).node;
      ReconcileKeepsList(tag, p.(counter := 0), o.extra, i.repairDelRefused);
    }
  }

  /** A cycle that cannot get the node's data, or needs no rebuild and cannot get the user list, changes
      nothing at all. */
  lemma FailedFetchChangesNothing(tag: string, s: Node, i: Input, o: Order)
    requires !i.nodeInfo || (i.rebuild == NotNeeded && i.listing == Unavailable)
    ensures Cycle(tag, s, i, o) == s
  {
  }

  /** A refused deletion or addition ends the cycle with list and limiter as they were, but for the device
      counts; after a refused deletion the core is as it was too. */
  lemma RefusalStops(tag: string, s: Node, i: Input, o: Order)
    requires i.nodeInfo && i.rebuild == NotNeeded && Compares(s, i)
    requires (o.deleted != [] && i.delRefused) || (o.added != [] && i.addRefused)
    ensures var n := Cycle(tag, s, i, o);
            && n.userList == s.userList && n.counter == s.counter && n.limits == s.limits.(alive := n.limits.alive)
            && (o.deleted != [] && i.delRefused ==> n.uidMap == s.uidMap)
  {
    hide Register, Unregister, UpdateUser;
  }

  /** A listener that is gone is rebuilt with every listed user under its id. */
  lemma PortRepairGivesIds(tag: string, s: Node, i: Input, o: Order, uuid: string)
    requires Reaches(tag, s, i, o) && i.portLost && uuid in LastOf(Cycle(tag, s, i, o).userList)
    ensures var n := Cycle(tag, s, i, o); UidAt(n.uidMap, tag, uuid) == Some(LastOf(n.userList)[uuid].id)
  {
    hide Register, Unregister, UpdateUser, Reconcile;
    var p := Prefix(tag, s, i, o).node;
    var s1 := p.(counter := p.counter + 1);
    ReconcileKeepsList(tag, s1.(counter := 0), o.extra, i.repairDelRefused);
    var s2 := if s1.counter >= EVERY then Reconcile(tag, s1.(counter := 0), o.extra, i.repairDelRefused) else s1;
    RegisterAt(s2.uidMap, tag, s2.userList, uuid);
  }

  /** The panel's device counts reach the limiter in every cycle that gets a user list or learns that it has
      not changed, whatever is refused afterwards; only those of users deleted in the cycle are dropped. */
  lemma AliveReachesLimiter(tag: string, s: Node, i: Input, o: Order, uid: int)
    requires Fits(tag, s, i, o) && AfterRebuild(tag, s, i).Go? && i.listing != Unavailable && i.alive.Some?
    requires uid != 0 && forall k :: 0 <= k < |o.deleted| ==> o.deleted[k].id != uid
    ensures var n := Cycle(tag, s, i, o).limits;
            AliveOf(n, uid) == if uid in i.alive.value then i.alive.value[uid] else 0
  {
    hide Register, Unregister, Registered, DelAll, AddAll, ModAll, Missing, Diff;
    var l := s.limits.(alive := i.alive.value);
    UpdateKeepsAlive(l, tag, o.added, o.deleted, o.modified, uid);
    var p := Prefix(tag, s, i, o);
    assert AliveOf(p.node.limits, uid) == AliveOf(l, uid);
    if p.Go? && s.counter + 1 >= EVERY {
      CounterKept(tag, s, i, o);
      UpdateKeepsAlive(p.node.limits, tag, Missing(p.node.userList, Registered(p.node.uidMap, tag)), o.extra, [], uid);
    }
  }

  lemma UpdateKeepsAlive(s: Limits, tag: string, added: seq<User>, deleted: seq<User>, modified: seq<User>, uid: int)
    requires forall k :: 0 <= k < |deleted| ==> deleted[k].id != uid
    ensures AliveOf(UpdateUser(s, tag, added, deleted, modified), uid) == AliveOf(s, uid)
  {
    hide DelAll, AddAll, ModAll;
    var d := DelAll(s, tag, deleted);
    DelKeepsAlive(s, tag, deleted, uid);
    AddModKeepAlive(d, tag, modified);
    AddModKeepAlive(ModAll(d, tag, modified), tag, added);
  }

  lemma {:induction false} DelKeepsAlive(s: Limits, tag: string, users: seq<User>, uid: int)
    requires forall k :: 0 <= k < |users| ==> users[k].id != uid
    ensures AliveOf(DelAll(s, tag, users), uid) == AliveOf(s, uid)
    decreases |users|
  {
    if users != [] { DelKeepsAlive(DelUser(s, tag, users[0]), tag, users[1..], uid); }
  }

  lemma {:induction false} AddModKeepAlive(s: Limits, tag: string, users: seq<User>)
    ensures AddAll(s, tag, users).alive == s.alive && ModAll(s, tag, users).alive == s.alive
    decreases |users|
  {
    if users != [] {
      AddModKeepAlive(AddUser(s, tag, users[0]), tag, users[1..]);
      AddModKeepAlive(ModUser(s, tag, users[0]), tag, users[1..]);
    }
  }

  // ---- the limiter follows the list, whatever fails ----

  /** Only cycles update users, and the lists they put to use leave the users that stay their ids. */
  ghost predicate Regular(tag: string, s: Node, acts: seq<Act>)
    decreases |acts|
  {
    acts == [] ||
      (&& (match acts[0]
           case Tick(i, o) =>
             Fits(tag, s, i, o) && (Compares(s, i) ==> forall u :: IdStable(s.userList, i.listing.users, u))
           case Traffic(e) => !e.Update?
           case Elsewhere(_, _, _) => true)
       && Regular(tag, Do(tag, s, acts[0]), acts[1..]))
  }

  lemma AliveKeepsMatches(s: Limits, tag: string, users: seq<User>, alive: map<int, int>)
    requires Matches(s, tag, users)
    ensures Matches(s.(alive := alive), tag, users)
  {
    forall u ensures MatchesAt(s.(alive := alive), tag, users, u) {
      assert MatchesAt(s, tag, users, u);
    }
  }

  lemma ReconcileKeepsMatches(tag: string, s: Node, extra: seq<User>, delRefused: bool)
    requires Matches(s.limits, tag, s.userList) && Surplus(Registered(s.uidMap, tag), s.userList, extra)
    ensures Matches(Reconcile(tag, s, extra, delRefused).limits, tag, s.userList)
  {
    hide AddAll, ModAll, DelAll, Missing, Registered, MatchesAt;
    var missing := Missing(s.userList, Registered(s.uidMap, tag));
    MissingAre(s.userList, Registered(s.uidMap, tag));
    var d := DelAll(s.limits, tag, extra);
    assert ModAll(d, tag, []) == d by { NoMods(d, tag); }
    var n := AddAll(d, tag, missing);
    forall u ensures MatchesAt(n, tag, s.userList, u) && Tagged(n, tag) {
      assert MatchesAt(s.limits, tag, s.userList, u);
      DelAllAt(s.limits, tag, extra, u);
      AddAllAt(d, tag, missing, u);
      ListedIff(extra, u);
      AgreeAt(s.limits, n, tag, s.userList, u);
    }
    DelAllAt(s.limits, tag, extra, "");
    AddAllAt(d, tag, missing, "");
  }

  lemma NoMods(s: Limits, tag: string)
    ensures ModAll(s, tag, []) == s
  {
  }

  lemma AgreeAt(s: Limits, n: Limits, tag: string, users: seq<User>, u: string)
    requires MatchesAt(s, tag, users, u) && n.deviceLimit == s.deviceLimit
    requires Look(n, tag, u) == Look(s, tag, u)
          || (u in LastOf(users) && Look(n, tag, u) == Some(EntryOf(LastOf(users)[u], s.deviceLimit)))
          || (u !in LastOf(users) && Look(n, tag, u) == None)
    requires UidOf(n, u) == UidOf(s, u)
          || (u in LastOf(users) && UidOf(n, u) == Some(LastOf(users)[u].id))
          || (u !in LastOf(users) && UidOf(n, u) == None)
    ensures MatchesAt(n, tag, users, u)
  {
  }

  lemma CycleKeepsMatches(tag: string, s: Node, i: Input, o: Order)
    requires Fits(tag, s, i, o) && Matches(s.limits, tag, s.userList)
    requires Compares(s, i) ==> forall u :: IdStable(s.userList, i.listing.users, u)
    ensures var n := Cycle(tag, s, i, o); Matches(n.limits, tag, n.userList)
  {
    hide Register, Unregister, Registered, UpdateUser, Matches, IdStable, Reconcile, Surplus, Diff;
    var r := AfterRebuild(tag, s, i);
    if r.Go? && i.alive.Some? {
      AliveKeepsMatches(s.limits, tag, s.userList, i.alive.value);
    }
    CounterKept(tag, s, i, o);
    if r.Go? && Compares(s, i) {
      var l := if i.alive.Some? then s.limits.(alive := i.alive.value) else s.limits;
      SyncRefinesRebuild(l, tag, s.userList, i.listing.users, o.deleted, o.added, o.modified);
    }
    var p := Prefix(tag, s, i, o);
    assert Matches(p.node.limits, tag, p.node.userList);
    if p.Go? && s.counter + 1 >= EVERY {
      ReconcileKeepsMatches(tag, p.node.(counter := 0), o.extra, i.repairDelRefused);
      ReconcileKeepsList(tag, p.node.(counter := 0), o.extra, i.repairDelRefused);
    }
  }

  /** The limiter's tables are those of a limiter built afresh from the current user list at every point
      of every run of cycles, connections, throttles and sweeps, however many syncs, rebuilds and
      repairs have failed on the way. */
  lemma {:induction false} LimiterFollowsList(tag: string, s: Node, acts: seq<Act>)
    requires Matches(s.limits, tag, s.userList) && Regular(tag, s, acts)
    ensures var n := Run(tag, s, acts); Matches(n.limits, tag, n.userList)
    decreases |acts|
  {
    hide Cycle, Fits, Matches, IdStable, Step;
    if acts != [] {
      match acts[0] {
        case Tick(i, o) => CycleKeepsMatches(tag, s, i, o);
        case Traffic(e) => TrafficKeepsMatches(s.limits, tag, s.userList, e);
        case Elsewhere(_, _, _) =>
      }
      LimiterFollowsList(tag, Do(tag, s, acts[0]), acts[1..]);
    }
  }

  predicate SameEntry(a: Info, b: Info) { a.uid == b.uid && a.speed == b.speed && a.device == b.device }

  predicate SameTables(s: Limits, n: Limits) {
    && n.uids == s.uids && n.deviceLimit == s.deviceLimit && n.info.Keys == s.info.Keys
    && forall k :: k in s.info ==> SameEntry(s.info[k], n.info[k])
  }

  lemma TrafficKeepsMatches(s: Limits, tag: string, users: seq<User>, e: Event)
    requires Matches(s, tag, users) && !e.Update?
    ensures Matches(Step(tag, s, e), tag, users)
  {
    hide UserTag, MatchesAt, Step;
    var n := Step(tag, s, e);
    StepKeepsTables(s, tag, e);
    forall u ensures MatchesAt(n, tag, users, u) {
      assert MatchesAt(s, tag, users, u);
      AgreeAt(s, n, tag, users, u);
    }
  }

  lemma StepKeepsTables(s: Limits, tag: string, e: Event)
    requires !e.Update?
    ensures SameTables(s, Step(tag, s, e))
  {
    hide CheckLimit;
    if e.Check? { CheckKeepsTables(s, e.key, e.ip, e.noUDP, e.now); }
  }

  lemma CheckKeepsTables(s: Limits, key: string, ip: string, noUDP: bool, now: int)
    ensures SameTables(s, CheckLimit(s, key, ip, noUDP, now).0)
  {
    hide Trim, Admit, Expire, Bucket;
    if key in s.info {
      ExpireKeepsTables(s, key, now);
      var (s1, l) := Expire(s, key, now);
      RestKeepsInfo(s1, key, Trim(ip), s.info[key], l);
      RestKeepsInfo(Admit(s1, key, Trim(ip), s.info[key]).0, key, Trim(ip), s.info[key], l);
    }
  }

  lemma ExpireKeepsTables(s: Limits, key: string, now: int)
    requires key in s.info
    ensures SameTables(s, Expire(s, key, now).0)
  {
  }

  lemma RestKeepsInfo(s: Limits, key: string, ip: string, i: Info, l: int)
    ensures var n := Admit(s, key, ip, i).0; n.info == s.info && n.uids == s.uids && n.deviceLimit == s.deviceLimit
    ensures var n := Bucket(s, key, l).0; n.info == s.info && n.uids == s.uids && n.deviceLimit == s.deviceLimit
  {
  }
}

/** The node controller's cycle as the object performs it (node/task.go). */
module NodeController {
  import opened LimiterModel
  import opened UserDiff
  import opened CoreUsers
  import opened SyncCycle
  import LimiterObject

  class Controller {
    const tag: string
    const server: Core
    const limiter: LimiterObject.Limiter
    var userList: seq<User>
    var reconcileCounter: nat

    constructor (tag: string, server: Core, limiter: LimiterObject.Limiter, userList: seq<User>)
      ensures this.tag == tag && this.server == server && this.limiter == limiter
      ensures this.userList == userList && reconcileCounter == 0
    {
      this.tag, this.server, this.limiter := tag, server, limiter;
      this.userList, reconcileCounter := userList, 0;
    }

    ghost function State(): Node
      reads this, server, limiter
    {
      Node(userList, server.uidMap, limiter.State(), reconcileCounter)
    }

    method ReconcileUsers(delRefused: bool, addRefused: bool) returns (ghost extras: seq<User>)
      modifies server, limiter
      ensures Surplus(Registered(old(server.uidMap), tag), userList, extras)
      ensures State() == Reconcile(tag, old(State()), extras, delRefused)
    {
      hide Register, Unregister, Registered, UpdateUser;
      var missing, extra := Drift();
      extras := extra;
      if |missing| == 0 && |extra| == 0 {
        return;
      }
      NothingListed(server.uidMap, tag);
      if |extra| > 0 {
        var _ := server.DelUsers(extra, tag, delRefused);
      }
      NothingListed(server.uidMap, tag);
      if |missing| > 0 {
        var _ := server.AddUsers(tag, missing, addRefused);
      }
      limiter.UpdateUser(tag, missing, extra, []);
    }

    /** Users the list wants and the core lacks, and users the core has and the list does not want. */
    method Drift() returns (missing: seq<User>, extra: seq<User>)
      ensures missing == Missing(userList, Registered(server.uidMap, tag))
      ensures Surplus(Registered(server.uidMap, tag), userList, extra)
    {
      hide Registered, Missing, Uuids;
      var coreSet := server.GetUserUUIDs(tag);
      var desiredSet: set<string> := {};
      missing := [];
      DriftEnds(userList, coreSet);
      for i := 0 to |userList|
        invariant desiredSet == Uuids(userList[..i])
        invariant missing + Missing(userList[i..], coreSet) == Missing(userList, coreSet)
      {
        DriftStep(userList, coreSet, i, missing);
        desiredSet := desiredSet + {userList[i].uuid};
        if userList[i].uuid !in coreSet {
          missing := missing + [userList[i]];
        }
      }
      assert missing + [] == missing;
      extra := Unwanted(coreSet - desiredSet);
    }

    method Unwanted(uuids: set<string>) returns (extra: seq<User>)
      ensures Uuids(extra) == uuids
      ensures forall i :: 0 <= i < |extra| ==> extra[i] == User(0, extra[i].uuid, 0, 0)
    {
      extra := [];
      var left := uuids;
      while left != {}
        invariant left <= uuids && Uuids(extra) == uuids - left
        invariant forall i :: 0 <= i < |extra| ==> extra[i] == User(0, extra[i].uuid, 0, 0)
        decreases left
      {
        var u :| u in left;
        LastOfAppend(extra, User(0, u, 0, 0));
        extra := extra + [User(0, u, 0, 0)];
        left := left - {u};
      }
    }

    /** One cycle of the monitor. */
    method NodeInfoMonitor(i: Input) returns (ghost o: Order)
      modifies this, server, limiter
      ensures Fits(tag, old(State()), i, o) && State() == Cycle(tag, old(State()), i, o)
    {
      hide Register, Unregister, Registered, UpdateUser, Reconcile, Surplus, Diff, AfterRebuild, SyncUsers;
      o := Order([], [], [], []);
      var go := RebuildInbound(i);
      if !go {
        return;
      }
      go, o := SyncUserList(i);
      if !go {
        return;
      }
      CounterKept(tag, old(State()), i, o);
      ghost var s1 := State();
      reconcileCounter := reconcileCounter + 1;
      if reconcileCounter >= EVERY {
        reconcileCounter := 0;
        ghost var extras := ReconcileUsers(i.repairDelRefused, i.repairAddRefused);
        OnlyExtra(tag, old(State()), i, o, extras);
        o := o.(extra := extras);
      }
      ReconcileKeepsList(tag, s1.(counter := 0), o.extra, i.repairDelRefused);
      if i.portLost && |userList| > 0 {
        var _ := server.AddUsers(tag, userList, false);
      }
    }

    /** Fetch the node info and rebuild the inbound if it has changed. */
    method RebuildInbound(i: Input) returns (go: bool)
      modifies server
      ensures var r := AfterRebuild(tag, old(State()), i); State() == r.node && go == r.Go?
    {
      hide Register;
      if !i.nodeInfo || i.rebuild == DelNodeFails || i.rebuild == AddNodeFails {
        return false;
      }
      if i.rebuild == NotNeeded {
        return true;
      }
      NothingListed(server.uidMap, tag);
      if |userList| > 0 {
        var err := server.AddUsers(tag, userList, i.rebuild == ReAddFails);
        if err {
          return false;
        }
      }
      go := true;
    }

    /** Fetch the user list and the alive list, and apply the difference. */
    method SyncUserList(i: Input) returns (go: bool, ghost o: Order)
      modifies this, server, limiter
      ensures var r := SyncUsers(tag, old(State()), i, o); State() == r.node && go == r.Go?
      ensures Compares(old(State()), i) ==> Diff(old(userList), i.listing.users, o.deleted, o.added, o.modified)
    {
      hide Register, Unregister, UpdateUser, Diff;
      o := Order([], [], [], []);
      if i.listing.Listed? && (|i.listing.users| > 0 || |userList| == 0) {
        var deleted, added, modified := CompareUserList(userList, i.listing.users);
        o := Order(deleted, added, modified, []);
        go := Apply(i, deleted, added, modified);
        return;
      }
      if i.listing == Unavailable {
        return false, o;
      }
      if i.alive.Some? {
        limiter.UpdateAliveList(i.alive.value);
      }
      go := true;
    }

    method Apply(i: Input, deleted: seq<User>, added: seq<User>, modified: seq<User>) returns (go: bool)
      requires Compares(State(), i)
      modifies this, server, limiter
      ensures var r := SyncUsers(tag, old(State()), i, Order(deleted, added, modified, []));
              State() == r.node && go == r.Go?
    {
      hide Register, Unregister, UpdateUser;
      if i.alive.Some? {
        limiter.UpdateAliveList(i.alive.value);
      }
      NothingListed(server.uidMap, tag);
      if |deleted| > 0 {
        var err := server.DelUsers(deleted, tag, i.delRefused);
        if err {
          return false;
        }
      }
      NothingListed(server.uidMap, tag);
      if |added| > 0 {
        var err := server.AddUsers(tag, added, i.addRefused);
        if err {
          return false;
        }
      }
      NoUpdate(limiter.State(), tag);
      if |added| > 0 || |deleted| > 0 || |modified| > 0 {
        limiter.UpdateUser(tag, added, deleted, modified);
      }
      userList := i.listing.users;
      go := true;
    }
  }

  /** What the loop of `Drift` has at its start and at its end. */
  lemma DriftEnds(users: seq<User>, core: set<string>)
    ensures Uuids(users[..0]) == {} && users[0..] == users && users[..|users|] == users
    ensures Missing(users[|users|..], core) == [] && [] + Missing(users[0..], core) == Missing(users, core)
  {
  }

  lemma DriftStep(users: seq<User>, core: set<string>, i: nat, found: seq<User>)
    requires i < |users|
    ensures Uuids(users[..i + 1]) == Uuids(users[..i]) + {users[i].uuid}
    ensures found + Missing(users[i..], core)
         == (if users[i].uuid in core then found else found + [users[i]]) + Missing(users[i + 1..], core)
  {
    assert users[..i + 1] == users[..i] + [users[i]];
    LastOfAppend(users[..i], users[i]);
    assert users[i..][0] == users[i] && users[i..][1..] == users[i + 1..];
    assert found + ([users[i]] + Missing(users[i + 1..], core)) == (found + [users[i]]) + Missing(users[i + 1..], core);
  }

  lemma NothingListed(m: map<string, int>, tag: string)
    ensures Register(m, tag, []) == m && Unregister(m, tag, []) == m
  {
  }

  lemma NoUpdate(s: Limits, tag: string)
    ensures UpdateUser(s, tag, [], [], []) == s
  {
  }

  lemma OnlyExtra(tag: string, s: Node, i: Input, o: Order, extra: seq<User>)
    ensures Prefix(tag, s, i, o.(extra := extra)) == Prefix(tag, s, i, o)
  {
    hide Register, Unregister, UpdateUser;
  }
}
