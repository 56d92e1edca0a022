/** The composite keys of users (common/format/user.go). */
module Format {
  function UserTag(tag: string, uuid: string): string { tag + "|" + uuid }

  /** Where a key's tag ends, if the tag has no separator in it. */
  function FirstBar(key: string): nat {
    if key == "" || key[0] == '|' then 0 else 1 + FirstBar(key[1..])
  }

  lemma {:induction false} TagEndsAtBar(tag: string, uuid: string)
    requires '|' !in tag
    ensures FirstBar(UserTag(tag, uuid)) == |tag|
  {
    var key := UserTag(tag, uuid);
    if tag != "" {
      assert key[1..] == UserTag(tag[1..], uuid) && key[0] == tag[0] && tag[0] in tag;
      TagEndsAtBar(tag[1..], uuid);
    }
  }

  /** Two keys are equal only if made of the same parts, for tags without the separator. */
  lemma UserTagInjective(t1: string, u1: string, t2: string, u2: string)
    requires '|' !in t1 && '|' !in t2 && UserTag(t1, u1) == UserTag(t2, u2)
    ensures t1 == t2 && u1 == u2
  {
    var k := UserTag(t1, u1);
    TagEndsAtBar(t1, u1);
    TagEndsAtBar(t2, u2);
    assert t1 == k[..|t1|] && t2 == k[..|t2|];
    SameTag(t1, u1, u2);
  }

  /** Under one tag, no assumption is needed. */
  lemma SameTag(tag: string, u1: string, u2: string)
    ensures UserTag(tag, u1) == UserTag(tag, u2) <==> u1 == u2
    ensures UserTag(tag, u1)[|tag| + 1..] == u1
  {
    assert UserTag(tag, u1)[|tag| + 1..] == u1 && UserTag(tag, u2)[|tag| + 1..] == u2;
  }
}

/** The state of a node's limiter and its operations as functions (limiter/limiter.go). */
module LimiterModel {
  import opened Octets
  import opened Format

  datatype User = User(id: int, uuid: string, speed: int, device: int)

  datatype Info = Info(uid: int, speed: int, device: int, dynamic: int, expire: int)

  datatype Limits = Limits(
    nodeType: string, speedLimit: int, deviceLimit: int,
    info: map<string, Info>,                // by user tag
    uids: map<string, int>,                 // by uuid
    online: map<string, map<string, int>>,  // by user tag, then ip: the uid
    previous: map<string, int>,                  // by ip: the uid
    buckets: map<string, int>,              // by user tag: bytes per second
    alive: map<int, int>)                   // by uid: the panel's count of devices

  /** The smaller non-zero rate (limiter/dynamic.go). */
  function Determine(a: int, b: int): int {
    if a == 0 || b == 0 then Max(a, b) else Min(a, b)
  }

  function DeviceOf(fallback: int, u: User): int { if u.device != 0 then u.device else fallback }

  // ---- AddLimiter and UpdateUser ----

  function AddUser(s: Limits, tag: string, u: User): Limits {
    s.(info := s.info[UserTag(tag, u.uuid) := Info(u.id, u.speed, DeviceOf(s.deviceLimit, u), 0, 0)],
       uids := s.uids[u.uuid := u.id])
  }

  function DelUser(s: Limits, tag: string, u: User): Limits {
    var key := UserTag(tag, u.uuid);
    s.(info := s.info - {key}, online := s.online - {key}, buckets := s.buckets - {key},
       uids := s.uids - {u.uuid}, alive := s.alive - {u.id})
  }

  function ModUser(s: Limits, tag: string, u: User): Limits {
    var key := UserTag(tag, u.uuid);
    var limit := Determine(s.speedLimit, u.speed) * 125000;
    s.(info := if key in s.info
               then s.info[key := s.info[key].(speed := u.speed, device := DeviceOf(s.deviceLimit, u))]
               else s.info,
       buckets := if limit > 0 then s.buckets[key := limit] else s.buckets - {key})
  }

  function AddAll(s: Limits, tag: string, users: seq<User>): Limits
    decreases |users|
  {
    if users == [] then s else AddAll(AddUser(s, tag, users[0]), tag, users[1..])
  }

  function DelAll(s: Limits, tag: string, users: seq<User>): Limits
    decreases |users|
  {
    if users == [] then s else DelAll(DelUser(s, tag, users[0]), tag, users[1..])
  }

  function ModAll(s: Limits, tag: string, users: seq<User>): Limits
    decreases |users|
  {
    if users == [] then s else ModAll(ModUser(s, tag, users[0]), tag, users[1..])
  }

  function UpdateUser(s: Limits, tag: string, added: seq<User>, deleted: seq<User>, modified: seq<User>): Limits {
    AddAll(ModAll(DelAll(s, tag, deleted), tag, modified), tag, added)
  }

  function AddLimiter(nodeType: string, tag: string, users: seq<User>, alive: map<int, int>,
                      speedLimit: int, deviceLimit: int): Limits {
    AddAll(Limits(nodeType, speedLimit, deviceLimit, map[], map[], map[], map[], map[], alive), tag, users)
  }

  // ---- CheckLimit ----

  const MAPPED := "::ffff:"

  function Trim(ip: string): string { if MAPPED <= ip then ip[|MAPPED|..] else ip }

  predicate Tracks(s: Limits, noUDP: bool) { noUDP || s.nodeType == "hysteria2" || s.nodeType == "tuic" }

  function AliveOf(s: Limits, uid: int): int { if uid in s.alive then s.alive[uid] else 0 }

  function Ips(s: Limits, key: string): map<string, int> { if key in s.online then s.online[key] else map[] }

  predicate AtLimit(s: Limits, i: Info) { 0 < i.device <= AliveOf(s, i.uid) }

  /** Record a device, unless it is unknown and the user is at the limit. */
  function Admit(s: Limits, key: string, ip: string, i: Info): (Limits, bool) {
    var (online, previous, ok) := Devices(s.online, s.previous, AtLimit(s, i), key, ip, i.uid);
    (s.(online := online, previous := previous), ok)
  }

  function Devices(online: map<string, map<string, int>>, previous: map<string, int>, atLimit: bool,
                   key: string, ip: string, uid: int): (map<string, map<string, int>>, map<string, int>, bool) {
    var ips := if key in online then online[key] else map[];
    if ip in ips then (online, previous, true)
    else if ip in previous then
      (online[key := ips[ip := uid]], if previous[ip] == uid then previous - {ip} else previous, true)
    else if atLimit then (online, previous, false)
    else (online[key := ips[ip := uid]], previous, true)
  }

  /** Clear a dynamic limit that has run out; the user's effective limit. */
  function Expire(s: Limits, key: string, now: int): (Limits, int)
    requires key in s.info
  {
    var i := s.info[key];
    if i.expire < now && i.expire != 0 then
      (s.(info := s.info[key := i.(dynamic := 0, expire := 0)]), i.speed)
    else (s, Determine(i.speed, i.dynamic))
  }

  datatype Verdict = Rejected | Accepted(bucket: Option<int>)

  function Bucket(s: Limits, key: string, userLimit: int): (Limits, Verdict) {
    var limit := Determine(s.speedLimit, userLimit) * 125000;
    if limit <= 0 then (s, Accepted(None))
    else if key in s.buckets then (s, Accepted(Some(s.buckets[key])))
    else (s.(buckets := s.buckets[key := limit]), Accepted(Some(limit)))
  }

  function CheckLimit(s: Limits, key: string, ip: string, noUDP: bool, now: int): (Limits, Verdict) {
    if key !in s.info then (s, Rejected) else
      var (s1, userLimit) := Expire(s, key, now);
      if !Tracks(s, noUDP) then Bucket(s1, key, userLimit) else
        var (s2, ok) := Admit(s1, key, Trim(ip), s.info[key]);
        if !ok then (s2, Rejected) else Bucket(s2, key, userLimit)
  }

  /** What a sweep may leave as the previous cycle's devices: every recorded ip, with a uid that was
      recorded for it. */
  ghost predicate SweptFrom(online: map<string, map<string, int>>, previous: map<string, int>) {
    && (forall key, ip :: key in online && ip in online[key] ==> ip in previous)
    && (forall ip :: ip in previous ==> exists key :: key in online && ip in online[key] && online[key][ip] == previous[ip])
  }

  function SetDynamic(s: Limits, key: string, limit: int, expire: int): Limits {
    if key in s.info then s.(info := s.info[key := s.info[key].(dynamic := limit, expire := expire)]) else s
  }

  // ---- runs ----

  datatype Event =
    | Check(key: string, ip: string, noUDP: bool, now: int)
    | Alive(alive: map<int, int>)
    | Sweep(previous: map<string, int>)
    | Update(added: seq<User>, deleted: seq<User>, modified: seq<User>)
    | Throttle(key: string, limit: int, expire: int)

  function Step(tag: string, s: Limits, e: Event): Limits {
    match e
    case Check(key, ip, noUDP, now) => CheckLimit(s, key, ip, noUDP, now).0
    case Alive(alive) => s.(alive := alive)
    case Sweep(previous) => s.(previous := previous, online := map[])
    case Update(added, deleted, modified) => UpdateUser(s, tag, added, deleted, modified)
    case Throttle(key, limit, expire) => SetDynamic(s, key, limit, expire)
  }

  function Run(tag: string, s: Limits, es: seq<Event>): Limits
    decreases |es|
  {
    if es == [] then s else Run(tag, Step(tag, s, es[0]), es[1..])
  }
}

/** What connections may rely on over whole runs (limiter/limiter.go). */
module DeviceStability {
  import opened Format
  import opened LimiterModel

  predicate Deletes(tag: string, e: Event, key: string) {
    e.Update? && exists i :: 0 <= i < |e.deleted| && UserTag(tag, e.deleted[i].uuid) == key
  }

  /** The user is known, and the device recorded if devices are tracked at all. */
  predicate Holds(s: Limits, key: string, ip: string, noUDP: bool) {
    key in s.info && (Tracks(s, noUDP) ==> Trim(ip) in Ips(s, key))
  }

  /** What a check does apart from speed limits: nothing to users, and to devices what `Admit` does. */
  lemma CheckEffect(s: Limits, key: string, ip: string, noUDP: bool, now: int)
    ensures var (s', v) := CheckLimit(s, key, ip, noUDP, now);
            && s'.nodeType == s.nodeType && s'.alive == s.alive && s'.info.Keys == s.info.Keys
            && (key !in s.info ==> v.Rejected? && s' == s)
            && (key in s.info && !Tracks(s, noUDP) ==> v.Accepted? && s'.online == s.online && s'.previous == s.previous)
            && (key in s.info && Tracks(s, noUDP) ==>
                  var (a, ok) := Admit(s, key, Trim(ip), s.info[key]);
                  v.Accepted? == ok && s'.online == a.online && s'.previous == a.previous)
  {
    hide Trim, Admit, Expire, Bucket;
    if key in s.info {
      ExpireEffect(s, key, now);
      var (s1, userLimit) := Expire(s, key, now);
      AdmitLooksAt(s, s1, key, Trim(ip), s.info[key]);
      BucketEffect(s1, key, userLimit);
      BucketEffect(Admit(s1, key, Trim(ip), s.info[key]).0, key, userLimit);
    }
  }

  predicate SameDevices(s: Limits, t: Limits) {
    s.nodeType == t.nodeType && s.alive == t.alive && s.online == t.online && s.previous == t.previous
  }

  lemma ExpireEffect(s: Limits, key: string, now: int)
    requires key in s.info
    ensures SameDevices(Expire(s, key, now).0, s) && Expire(s, key, now).0.info.Keys == s.info.Keys
  {
  }

  lemma BucketEffect(s: Limits, key: string, userLimit: int)
    ensures var (t, v) := Bucket(s, key, userLimit); SameDevices(s, t) && t.info == s.info && v.Accepted?
  {
  }

  lemma AdmitLooksAt(s: Limits, t: Limits, key: string, ip: string, i: Info)
    requires SameDevices(s, t)
    ensures var (a, ok), (b, ok') := Admit(s, key, ip, i), Admit(t, key, ip, i);
            && ok == ok' && a.online == b.online && a.previous == b.previous
            && b.nodeType == t.nodeType && b.alive == t.alive && b.info == t.info
  {
    hide Devices;
  }

  lemma AcceptedHolds(s: Limits, key: string, ip: string, noUDP: bool, now: int)
    requires CheckLimit(s, key, ip, noUDP, now).1.Accepted?
    ensures Holds(CheckLimit(s, key, ip, noUDP, now).0, key, ip, noUDP)
  {
    hide CheckLimit, Trim;
    CheckEffect(s, key, ip, noUDP, now);
  }

  lemma HeldIsAccepted(s: Limits, key: string, ip: string, noUDP: bool, now: int)
    requires Holds(s, key, ip, noUDP)
    ensures CheckLimit(s, key, ip, noUDP, now).1.Accepted?
  {
    hide CheckLimit, Trim;
    CheckEffect(s, key, ip, noUDP, now);
  }

  /** Adding and modifying users touches neither devices nor the node type, and forgets nobody. */
  lemma {:induction false} AddModKeep(tag: string, s: Limits, users: seq<User>)
    ensures var a := AddAll(s, tag, users);
            && a.online == s.online && a.previous == s.previous && a.nodeType == s.nodeType && s.info.Keys <= a.info.Keys
    ensures var m := ModAll(s, tag, users);
            && m.online == s.online && m.previous == s.previous && m.nodeType == s.nodeType && s.info.Keys == m.info.Keys
    decreases |users|
  {
    if users != [] {
      AddModKeep(tag, AddUser(s, tag, users[0]), users[1..]);
      AddModKeep(tag, ModUser(s, tag, users[0]), users[1..]);
    }
  }

  lemma {:induction false} DelKeeps(tag: string, s: Limits, users: seq<User>, key: string)
    requires forall i :: 0 <= i < |users| ==> UserTag(tag, users[i].uuid) != key
    ensures var d := DelAll(s, tag, users);
            && d.previous == s.previous && d.nodeType == s.nodeType && Ips(d, key) == Ips(s, key)
            && (key in d.info <==> key in s.info)
    decreases |users|
  {
    if users != [] {
      DelKeeps(tag, DelUser(s, tag, users[0]), users[1..], key);
    }
  }

  lemma HoldsStep(tag: string, s: Limits, e: Event, key: string, ip: string, noUDP: bool)
    requires Holds(s, key, ip, noUDP) && !e.Sweep? && !Deletes(tag, e, key)
    ensures Holds(Step(tag, s, e), key, ip, noUDP)
  {
    hide CheckLimit, Trim, AddAll, ModAll, DelAll;
    match e
    case Check(k, i, n, now) =>
      CheckEffect(s, k, i, n, now);
    case Alive(_) =>
    case Throttle(_, _, _) =>
    case Update(added, deleted, modified) =>
      var d := DelAll(s, tag, deleted);
      DelKeeps(tag, s, deleted, key);
      AddModKeep(tag, d, modified);
      AddModKeep(tag, ModAll(d, tag, modified), added);
  }

  lemma {:induction false} HoldsRun(tag: string, s: Limits, es: seq<Event>, key: string, ip: string, noUDP: bool)
    requires Holds(s, key, ip, noUDP)
    requires forall i :: 0 <= i < |es| ==> !es[i].Sweep? && !Deletes(tag, es[i], key)
    ensures Holds(Run(tag, s, es), key, ip, noUDP)
    decreases |es|
  {
    if es != [] {
      HoldsStep(tag, s, es[0], key, ip, noUDP);
      HoldsRun(tag, Step(tag, s, es[0]), es[1..], key, ip, noUDP);
    }
  }

  /** An accepted device stays accepted until the next sweep or its user's deletion, whatever else
      happens in between. */
  lemma AcceptedStaysAccepted(tag: string, s: Limits, key: string, ip: string, noUDP: bool, now: int,
                              es: seq<Event>, later: int)
    requires CheckLimit(s, key, ip, noUDP, now).1.Accepted?
    requires forall i :: 0 <= i < |es| ==> !es[i].Sweep? && !Deletes(tag, es[i], key)
    ensures var s' := Run(tag, CheckLimit(s, key, ip, noUDP, now).0, es);
            CheckLimit(s', key, ip, noUDP, later).1.Accepted?
  {
    hide CheckLimit;
    AcceptedHolds(s, key, ip, noUDP, now);
    var s1 := CheckLimit(s, key, ip, noUDP, now).0;
    HoldsRun(tag, s1, es, key, ip, noUDP);
    HeldIsAccepted(Run(tag, s1, es), key, ip, noUDP, later);
  }

  // ---- across a sweep ----

  /** In this state the event is a tracked connection from `ip` by a user with this uid. */
  predicate Reconnects(s: Limits, e: Event, uid: int, ip: string) {
    e.Check? && Trim(e.ip) == ip && Tracks(s, e.noUDP) && e.key in s.info && s.info[e.key].uid == uid
  }

  /** Along the run there is no further sweep, and the uid does not connect from `ip`. */
  predicate Quiet(tag: string, s: Limits, es: seq<Event>, uid: int, ip: string)
    decreases |es|
  {
    es == [] || (!es[0].Sweep? && !Reconnects(s, es[0], uid, ip) && Quiet(tag, Step(tag, s, es[0]), es[1..], uid, ip))
  }

  lemma OldKept(tag: string, s: Limits, e: Event, uid: int, ip: string)
    requires ip in s.previous && s.previous[ip] == uid && !e.Sweep? && !Reconnects(s, e, uid, ip)
    ensures var s' := Step(tag, s, e); ip in s'.previous && s'.previous[ip] == uid
  {
    hide CheckLimit, Trim, UpdateUser;
    if e.Update? {
      UpdateKeepsOld(tag, s, e);
    } else if e.Check? {
      CheckEffect(s, e.key, e.ip, e.noUDP, e.now);
    }
  }

  lemma UpdateKeepsOld(tag: string, s: Limits, e: Event)
    requires e.Update?
    ensures Step(tag, s, e).previous == s.previous
  {
    var d := DelAll(s, tag, e.deleted);
    DelKeepsOld(tag, s, e.deleted);
    AddModKeep(tag, d, e.modified);
    AddModKeep(tag, ModAll(d, tag, e.modified), e.added);
  }

  lemma {:induction false} DelKeepsOld(tag: string, s: Limits, users: seq<User>)
    ensures DelAll(s, tag, users).previous == s.previous
    decreases |users|
  {
    if users != [] { DelKeepsOld(tag, DelUser(s, tag, users[0]), users[1..]); }
  }

  lemma {:induction false} OldKeptRun(tag: string, s: Limits, es: seq<Event>, uid: int, ip: string)
    requires ip in s.previous && s.previous[ip] == uid && Quiet(tag, s, es, uid, ip)
    ensures var s' := Run(tag, s, es); ip in s'.previous && s'.previous[ip] == uid
    decreases |es|
  {
    hide Step;
    if es != [] {
      OldKept(tag, s, es[0], uid, ip);
      OldKeptRun(tag, Step(tag, s, es[0]), es[1..], uid, ip);
    }
  }

  /** A device that a sweep saw online for one uid only is accepted on that uid's first reconnection
      from it, even at the limit, whatever other users have done since. */
  lemma ReturningDeviceAccepted(tag: string, s: Limits, previous: map<string, int>, uid: int, seenBy: string,
                                es: seq<Event>, key: string, ip: string, noUDP: bool, now: int)
    requires SweptFrom(s.online, previous)
    requires Trim(ip) in Ips(s, seenBy)
    requires forall k :: k in s.online && Trim(ip) in s.online[k] ==> s.online[k][Trim(ip)] == uid
    requires var s1 := Step(tag, s, Sweep(previous));
             && Quiet(tag, s1, es, uid, Trim(ip))
             && key in Run(tag, s1, es).info && Run(tag, s1, es).info[key].uid == uid
    ensures CheckLimit(Run(tag, Step(tag, s, Sweep(previous)), es), key, ip, noUDP, now).1.Accepted?
  {
    hide CheckLimit, Trim;
    var s1 := Step(tag, s, Sweep(previous));
    assert Trim(ip) in previous && previous[Trim(ip)] == uid;
    OldKeptRun(tag, s1, es, uid, Trim(ip));
    CheckEffect(Run(tag, s1, es), key, ip, noUDP, now);
  }

  // ---- the device limit ----

  /** A rejection changes nothing that later decisions about devices look at. */
  lemma RejectionLeavesDevices(s: Limits, key: string, ip: string, noUDP: bool, now: int)
    requires CheckLimit(s, key, ip, noUDP, now).1.Rejected?
    ensures var s' := CheckLimit(s, key, ip, noUDP, now).0; s'.online == s.online && s'.previous == s.previous
  {
    hide CheckLimit, Trim;
    CheckEffect(s, key, ip, noUDP, now);
  }

  /** Whenever somebody connects, this user is unknown or at its device limit. */
  predicate AlwaysAtLimit(tag: string, s: Limits, es: seq<Event>, key: string)
    decreases |es|
  {
    es == [] || (!es[0].Sweep?
                 && (es[0].Check? ==> key in s.info ==> AtLimit(s, s.info[key]))
                 && AlwaysAtLimit(tag, Step(tag, s, es[0]), es[1..], key))
  }

  lemma NoNewDevice(s: Limits, k: string, ip: string, key: string)
    requires k in s.info && (key in s.info ==> AtLimit(s, s.info[key]))
    ensures var a := Admit(s, k, ip, s.info[k]).0;
            Ips(a, key).Keys <= Ips(s, key).Keys + s.previous.Keys && a.previous.Keys <= s.previous.Keys
  {
  }

  lemma NoNewDeviceStep(tag: string, s: Limits, e: Event, key: string)
    requires !e.Sweep? && (e.Check? ==> key in s.info ==> AtLimit(s, s.info[key]))
    ensures var s' := Step(tag, s, e);
            Ips(s', key).Keys <= Ips(s, key).Keys + s.previous.Keys && s'.previous.Keys <= s.previous.Keys
  {
    hide CheckLimit, Trim, AddAll, ModAll, DelAll;
    match e
    case Check(k, ip, n, now) =>
      hide Admit;
      CheckEffect(s, k, ip, n, now);
      if k in s.info && Tracks(s, n) { NoNewDevice(s, k, Trim(ip), key); }
    case Alive(_) =>
    case Throttle(_, _, _) =>
    case Update(added, deleted, modified) =>
      var d := DelAll(s, tag, deleted);
      DelShrinks(tag, s, deleted, key);
      UpdateKeepsOld(tag, s, e);
      AddModKeep(tag, d, modified);
      AddModKeep(tag, ModAll(d, tag, modified), added);
  }

  lemma {:induction false} DelShrinks(tag: string, s: Limits, users: seq<User>, key: string)
    ensures Ips(DelAll(s, tag, users), key).Keys <= Ips(s, key).Keys
    decreases |users|
  {
    if users != [] { DelShrinks(tag, DelUser(s, tag, users[0]), users[1..], key); }
  }

  /** Within one cycle, while the user stays at the limit, its devices never leave those recorded at
      the start and those of the previous cycle. */
  lemma {:induction false} DeviceLimitSafety(tag: string, s: Limits, es: seq<Event>, key: string)
    requires AlwaysAtLimit(tag, s, es, key)
    ensures Ips(Run(tag, s, es), key).Keys <= Ips(s, key).Keys + s.previous.Keys
    ensures Run(tag, s, es).previous.Keys <= s.previous.Keys
    decreases |es|
  {
    hide Step;
    if es != [] {
      NoNewDeviceStep(tag, s, es[0], key);
      DeviceLimitSafety(tag, Step(tag, s, es[0]), es[1..], key);
    }
  }
}

/** Which devices and which rates a check grants (limiter/limiter.go, limiter/dynamic.go). */
module LimiterRates {
  import opened Octets
  import opened Format
  import opened LimiterModel
  import opened DeviceStability

  /** `r` is the smallest of the rates that are set; none if none is. */
  ghost predicate Slowest(rates: set<int>, r: Option<int>) {
    match r
    case None => forall x :: x in rates ==> x == 0
    case Some(v) => v > 0 && v in rates && forall x :: x in rates && x > 0 ==> v <= x
  }

  /** The rates that apply to a user: the node's, its own, and its throttle's while that lasts. */
  function Rates(s: Limits, i: Info, now: int): set<int> {
    {s.speedLimit, i.speed} + (if i.expire != 0 && i.expire < now then {} else {i.dynamic})
  }

  /** Rates are given in megabits, buckets in bytes per second. */
  function Bytes(r: Option<int>): Option<int> { if r.None? then None else Some(r.value * 125000) }

  /** A check of a user without a bucket grants the slowest rate that applies, and remembers it; one of a
      user with a bucket grants what that was made for, as long as any rate is set. */
  lemma GrantedRate(s: Limits, key: string, ip: string, noUDP: bool, now: int) returns (r: Option<int>)
    requires CheckLimit(s, key, ip, noUDP, now).1.Accepted?
    requires s.speedLimit >= 0 && key in s.info && s.info[key].speed >= 0 && s.info[key].dynamic >= 0
    ensures Slowest(Rates(s, s.info[key], now), r)
    ensures var (s', v) := CheckLimit(s, key, ip, noUDP, now);
            && (r.None? ==> v == Accepted(None) && s'.buckets == s.buckets)
            && (r.Some? && key in s.buckets ==> v == Accepted(Some(s.buckets[key])) && s'.buckets == s.buckets)
            && (r.Some? && key !in s.buckets ==> v == Accepted(Bytes(r)) && s'.buckets == s.buckets[key := r.value * 125000])
  {
    hide Trim, Admit, Expire, Bucket, Slowest, Determine;
    var i := s.info[key];
    var (s1, userLimit) := Expire(s, key, now);
    AdmitLeaves(s1, key, Trim(ip), i);
    var s2 := Admit(s1, key, Trim(ip), i).0;
    r := SlowestOf(s, key, now);
    BucketIs(s1, key, userLimit, r);
    BucketIs(s2, key, userLimit, r);
  }

  lemma SlowestOf(s: Limits, key: string, now: int) returns (r: Option<int>)
    requires s.speedLimit >= 0 && key in s.info && s.info[key].speed >= 0 && s.info[key].dynamic >= 0
    ensures Slowest(Rates(s, s.info[key], now), r) && (r.Some? ==> r.value > 0)
    ensures var (s1, userLimit) := Expire(s, key, now);
            && Determine(s.speedLimit, userLimit) == (if r.None? then 0 else r.value)
            && s1.speedLimit == s.speedLimit && s1.buckets == s.buckets
  {
    var userLimit := Expire(s, key, now).1;
    var limit := Determine(s.speedLimit, userLimit);
    r := if limit == 0 then None else Some(limit);
  }

  lemma BucketIs(s: Limits, key: string, userLimit: int, r: Option<int>)
    requires Determine(s.speedLimit, userLimit) == (if r.None? then 0 else r.value) && (r.Some? ==> r.value > 0)
    ensures var (s', v) := Bucket(s, key, userLimit);
            && (r.None? ==> v == Accepted(None) && s'.buckets == s.buckets)
            && (r.Some? && key in s.buckets ==> v == Accepted(Some(s.buckets[key])) && s'.buckets == s.buckets)
            && (r.Some? && key !in s.buckets ==> v == Accepted(Bytes(r)) && s'.buckets == s.buckets[key := r.value * 125000])
  {
    hide Determine;
  }

  lemma AdmitLeaves(s: Limits, key: string, ip: string, i: Info)
    ensures var a := Admit(s, key, ip, i).0;
            a == s.(online := a.online, previous := a.previous)
  {
  }

  /** A throttle that has run out is cleared by the next check of its user, and nothing else about any user
      is changed by a check. */
  lemma ThrottleRunsOut(s: Limits, key: string, ip: string, noUDP: bool, now: int)
    ensures var s' := CheckLimit(s, key, ip, noUDP, now).0;
            s'.info == (if key in s.info && s.info[key].expire != 0 && s.info[key].expire < now
                        then s.info[key := s.info[key].(dynamic := 0, expire := 0)] else s.info)
  {
    hide Trim, Admit, Determine;
    if key in s.info {
      var s1 := Expire(s, key, now).0;
      AdmitLeaves(s1, key, Trim(ip), s.info[key]);
    }
  }

  /** While a throttle lasts, a user without a bucket gets no more than it allows. */
  lemma ThrottleBites(s: Limits, key: string, limit: int, expire: int, ip: string, noUDP: bool, now: int)
    requires key in s.info && key !in s.buckets && limit > 0 && (expire == 0 || expire >= now)
    requires s.speedLimit >= 0 && s.info[key].speed >= 0
    requires CheckLimit(SetDynamic(s, key, limit, expire), key, ip, noUDP, now).1.Accepted?
    ensures var v := CheckLimit(SetDynamic(s, key, limit, expire), key, ip, noUDP, now).1;
            v.bucket.Some? && v.bucket.value <= limit * 125000
  {
    hide CheckLimit;
    var s1 := SetDynamic(s, key, limit, expire);
    var r := GrantedRate(s1, key, ip, noUDP, now);
    assert limit in Rates(s1, s1.info[key], now);
  }

  /** A throttle set with an end is gone at the first check after it. */
  lemma ThrottleEnds(s: Limits, key: string, limit: int, expire: int, ip: string, noUDP: bool, now: int)
    requires key in s.info && expire != 0 && expire < now
    ensures var n := CheckLimit(SetDynamic(s, key, limit, expire), key, ip, noUDP, now).0;
            key in n.info && n.info[key] == s.info[key].(dynamic := 0, expire := 0)
  {
    hide CheckLimit;
    ThrottleRunsOut(SetDynamic(s, key, limit, expire), key, ip, noUDP, now);
  }

  /** A modified user's bucket is made for the slower of the node's and its own rate, or removed. */
  lemma ModifiedRate(s: Limits, tag: string, u: User) returns (r: Option<int>)
    requires s.speedLimit >= 0 && u.speed >= 0
    ensures Slowest({s.speedLimit, u.speed}, r)
    ensures var key := UserTag(tag, u.uuid);
            ModUser(s, tag, u).buckets == if r.None? then s.buckets - {key} else s.buckets[key := r.value * 125000]
    ensures var key, n := UserTag(tag, u.uuid), ModUser(s, tag, u);
            && n.info.Keys == s.info.Keys && (forall k :: k in s.info && k != key ==> n.info[k] == s.info[k])
            && (key in s.info ==> n.info[key].uid == s.info[key].uid && n.info[key].dynamic == s.info[key].dynamic
                                  && n.info[key].expire == s.info[key].expire)
  {
    var limit := Determine(s.speedLimit, u.speed);
    r := if limit == 0 then None else Some(limit);
  }

  /** An IPv4 address counts as the same device in its IPv6-mapped form. */
  lemma MappedIsPlain(s: Limits, key: string, ip: string, noUDP: bool, now: int)
    requires !("::ffff:" <= ip)
    ensures CheckLimit(s, key, "::ffff:" + ip, noUDP, now) == CheckLimit(s, key, ip, noUDP, now)
  {
    assert ("::ffff:" + ip)[7..] == ip;
    assert Trim("::ffff:" + ip) == ip == Trim(ip);
  }

  /** Which device is admitted, and what becomes of both tables: a device on record; one of the previous
      cycle, which then no longer counts as such if it was this uid's; or a new one below the limit. */
  lemma AdmittedIff(s: Limits, key: string, ip: string, i: Info)
    ensures var (a, ok) := Admit(s, key, ip, i);
            var known, before := ip in Ips(s, key), ip in s.previous;
            && (ok <==> known || before || !(0 < i.device <= AliveOf(s, i.uid)))
            && Ips(a, key) == (if ok && !known then Ips(s, key)[ip := i.uid] else Ips(s, key))
            && (forall k :: k != key ==> Ips(a, k) == Ips(s, k))
            && a.previous == (if !known && before && s.previous[ip] == i.uid then s.previous - {ip} else s.previous)
  {
  }

  /** When a connection is rejected: an unknown user, or, on connections whose source can be told or on a node
      of these two types, an unknown device at the limit. */
  lemma RejectedIff(s: Limits, key: string, ip: string, noUDP: bool, now: int)
    ensures CheckLimit(s, key, ip, noUDP, now).1.Rejected?
       <==> key !in s.info
            || ((noUDP || s.nodeType == "hysteria2" || s.nodeType == "tuic")
                && Trim(ip) !in Ips(s, key) && Trim(ip) !in s.previous
                && 0 < s.info[key].device <= AliveOf(s, s.info[key].uid))
  {
    hide CheckLimit, Trim, Admit;
    CheckEffect(s, key, ip, noUDP, now);
    if key in s.info { AdmittedIff(s, key, Trim(ip), s.info[key]); }
  }

  /** Nothing is left of a deleted user: no entry, devices, bucket, uid or device count. */
  lemma {:induction false} DeletedIsForgotten(s: Limits, tag: string, users: seq<User>, k: nat)
    requires k < |users|
    ensures var d, key := DelAll(s, tag, users), UserTag(tag, users[k].uuid);
            && key !in d.info && key !in d.online && key !in d.buckets
            && users[k].uuid !in d.uids && users[k].id !in d.alive
    decreases |users|
  {
    var s1 := DelUser(s, tag, users[0]);
    if k == 0 {
      StaysForgotten(s1, tag, users[1..], UserTag(tag, users[0].uuid), users[0].uuid, users[0].id);
    } else {
      DeletedIsForgotten(s1, tag, users[1..], k - 1);
    }
  }

  lemma {:induction false} StaysForgotten(s: Limits, tag: string, users: seq<User>, key: string, uuid: string, id: int)
    requires key !in s.info && key !in s.online && key !in s.buckets && uuid !in s.uids && id !in s.alive
    ensures var d := DelAll(s, tag, users);
            key !in d.info && key !in d.online && key !in d.buckets && uuid !in d.uids && id !in d.alive
    decreases |users|
  {
    if users != [] { StaysForgotten(DelUser(s, tag, users[0]), tag, users[1..], key, uuid, id); }
  }

  /** A user that is added starts without a throttle. */
  lemma {:induction false} AddedIsUnthrottled(s: Limits, tag: string, users: seq<User>, uuid: string)
    requires (exists k :: 0 <= k < |users| && users[k].uuid == uuid) || (UserTag(tag, uuid) in s.info && s.info[UserTag(tag, uuid)].dynamic == 0)
    ensures var a, key := AddAll(s, tag, users), UserTag(tag, uuid); key in a.info && a.info[key].dynamic == 0
    decreases |users|
  {
    if users != [] {
      SameTag(tag, users[0].uuid, uuid);
      var s1 := AddUser(s, tag, users[0]);
      if users[0].uuid != uuid && exists k :: 0 <= k < |users| && users[k].uuid == uuid {
        var k :| 0 <= k < |users| && users[k].uuid == uuid;
        assert users[1..][k - 1].uuid == uuid;
      }
      AddedIsUnthrottled(s1, tag, users[1..], uuid);
    }
  }
}

/** The limiter object (limiter/limiter.go). */
module LimiterObject {
  import opened Octets
  import opened Format
  import M = LimiterModel

  class Limiter {
    const nodeType: string
    const speedLimit: int
    const deviceLimit: int
    var userOnlineIP: map<string, map<string, int>>
    var oldUserOnline: map<string, int>
    var uuidToUID: map<string, int>
    var userLimitInfo: map<string, M.Info>
    var speedLimiter: map<string, int>
    var aliveList: map<int, int>

    ghost function State(): M.Limits
      reads this
    {
      M.Limits(nodeType, speedLimit, deviceLimit, userLimitInfo, uuidToUID, userOnlineIP, oldUserOnline,
               speedLimiter, aliveList)
    }

    constructor (nodeType: string, tag: string, users: seq<M.User>, alive: map<int, int>, speedLimit: int, deviceLimit: int)
      ensures State() == M.AddLimiter(nodeType, tag, users, alive, speedLimit, deviceLimit)
    {
      this.nodeType, this.speedLimit, this.deviceLimit := nodeType, speedLimit, deviceLimit;
      userOnlineIP, oldUserOnline, uuidToUID, userLimitInfo := map[], map[], map[], map[];
      speedLimiter, aliveList := map[], alive;
      new;
      for i := 0 to |users|
        invariant M.AddAll(State(), tag, users[i..])
               == M.AddLimiter(nodeType, tag, users, alive, speedLimit, deviceLimit)
      {
        assert users[i..][1..] == users[i + 1..];
        AddOne(tag, users[i]);
      }
    }

    method AddOne(tag: string, u: M.User)
      modifies this
      ensures State() == M.AddUser(old(State()), tag, u)
    {
      var device := if u.device != 0 then u.device else deviceLimit;
      userLimitInfo := userLimitInfo[UserTag(tag, u.uuid) := M.Info(u.id, u.speed, device, 0, 0)];
      uuidToUID := uuidToUID[u.uuid := u.id];
    }

    method UpdateAliveList(newAlive: map<int, int>)
      modifies this
      ensures State() == old(State()).(alive := newAlive)
    {
      aliveList := newAlive;
    }

    method UpdateUser(tag: string, added: seq<M.User>, deleted: seq<M.User>, modified: seq<M.User>)
      modifies this
      ensures State() == M.UpdateUser(old(State()), tag, added, deleted, modified)
    {
      hide M.DelUser, M.ModUser, M.AddUser;
      ghost var d := M.DelAll(State(), tag, deleted);
      for i := 0 to |deleted|
        invariant M.DelAll(State(), tag, deleted[i..]) == d
      {
        assert deleted[i..][1..] == deleted[i + 1..];
        DeleteOne(tag, deleted[i]);
      }
      ghost var m := M.ModAll(d, tag, modified);
      for i := 0 to |modified|
        invariant M.ModAll(State(), tag, modified[i..]) == m
      {
        assert modified[i..][1..] == modified[i + 1..];
        ModifyOne(tag, modified[i]);
      }
      ghost var a := M.AddAll(m, tag, added);
      for i := 0 to |added|
        invariant M.AddAll(State(), tag, added[i..]) == a
      {
        assert added[i..][1..] == added[i + 1..];
        AddOne(tag, added[i]);
      }
    }

    method DeleteOne(tag: string, u: M.User)
      modifies this
      ensures State() == M.DelUser(old(State()), tag, u)
    {
      var key := UserTag(tag, u.uuid);
      userLimitInfo := userLimitInfo - {key};
      userOnlineIP := userOnlineIP - {key};
      speedLimiter := speedLimiter - {key};
      uuidToUID := uuidToUID - {u.uuid};
      aliveList := aliveList - {u.id};
    }

    method ModifyOne(tag: string, u: M.User)
      modifies this
      ensures State() == M.ModUser(old(State()), tag, u)
    {
      var key := UserTag(tag, u.uuid);
      if key in userLimitInfo {
        var i := userLimitInfo[key].(speed := u.speed);
        i := i.(device := if u.device != 0 then u.device else deviceLimit);
        userLimitInfo := userLimitInfo[key := i];
      }
      var limit := M.Determine(speedLimit, u.speed) * 1000000 / 8;
      assert limit == M.Determine(speedLimit, u.speed) * 125000;
      if limit > 0 {
        speedLimiter := speedLimiter[key := limit];
      } else {
        speedLimiter := speedLimiter - {key};
      }
    }

    method UpdateDynamicSpeedLimit(key: string, limit: int, expire: int) returns (found: bool)
      modifies this
      ensures State() == M.SetDynamic(old(State()), key, limit, expire) && found == (key in userLimitInfo)
    {
      found := key in userLimitInfo;
      if found {
        userLimitInfo := userLimitInfo[key := userLimitInfo[key].(dynamic := limit, expire := expire)];
      }
    }

    method CheckLimit(key: string, rawIp: string, noUDP: bool, now: int) returns (v: M.Verdict)
      modifies this
      ensures (State(), v) == M.CheckLimit(old(State()), key, rawIp, noUDP, now)
    {
      hide M.Admit, M.Trim, M.Determine;
      var ip := M.Trim(rawIp);
      if key !in userLimitInfo {
        return M.Rejected;
      }
      var u := userLimitInfo[key];
      var userLimit;
      if u.expire < now && u.expire != 0 {
        userLimitInfo := userLimitInfo[key := u.(dynamic := 0, expire := 0)];
        userLimit := u.speed;
      } else {
        userLimit := M.Determine(u.speed, u.dynamic);
      }
      if noUDP || nodeType == "hysteria2" || nodeType == "tuic" {
        var ok := AdmitDevice(key, ip, u);
        if !ok {
          return M.Rejected;
        }
      }
      var limit := M.Determine(speedLimit, userLimit) * 1000000 / 8;
      assert limit == M.Determine(speedLimit, userLimit) * 125000;
      if limit <= 0 {
        return M.Accepted(None);
      }
      if key !in speedLimiter {
        speedLimiter := speedLimiter[key := limit];
      }
      v := M.Accepted(Some(speedLimiter[key]));
    }

    /** The device is recorded first and taken back if it turns out not to be admissible. */
    method AdmitDevice(key: string, ip: string, u: M.Info) returns (ok: bool)
      modifies this
      ensures (State(), ok) == M.Admit(old(State()), key, ip, u)
    {
      var aliveIp := if u.uid in aliveList then aliveList[u.uid] else 0;
      if key !in userOnlineIP {
        ghost var before := userOnlineIP;
        userOnlineIP := userOnlineIP[key := map[ip := u.uid]];
        if ip in oldUserOnline {
          if oldUserOnline[ip] == u.uid {
            oldUserOnline := oldUserOnline - {ip};
          }
        } else if u.device > 0 && u.device <= aliveIp {
          userOnlineIP := userOnlineIP - {key};
          assert userOnlineIP == before;
          return false;
        }
        return true;
      }
      var ips := userOnlineIP[key];
      if ip !in ips {
        ghost var before := userOnlineIP;
        userOnlineIP := userOnlineIP[key := ips[ip := u.uid]];
        if ip in oldUserOnline {
          if oldUserOnline[ip] == u.uid {
            oldUserOnline := oldUserOnline - {ip};
          }
        } else if u.device > 0 && u.device <= aliveIp {
          userOnlineIP := userOnlineIP[key := userOnlineIP[key] - {ip}];
          assert userOnlineIP[key] == ips;
          assert userOnlineIP == before;
          return false;
        }
      }
      ok := true;
    }

    /** Report every recorded device, remember them as the previous cycle's and start a new cycle. */
    method GetOnlineDevice() returns (report: seq<(int, string)>)
      modifies this
      ensures M.SweptFrom(old(userOnlineIP), oldUserOnline)
      ensures State() == old(State()).(previous := oldUserOnline, online := map[])
      ensures forall uid, ip :: (uid, ip) in report <==>
        exists key :: key in old(userOnlineIP) && ip in old(userOnlineIP)[key] && old(userOnlineIP)[key][ip] == uid
    {
      var newOld: map<string, int> := map[];
      report := [];
      var keys := userOnlineIP.Keys;
      ghost var done: map<string, map<string, int>> := map[];
      while keys != {}
        invariant unchanged(this) && keys <= userOnlineIP.Keys
        invariant done == map k | k in userOnlineIP && k !in keys :: userOnlineIP[k]
        invariant M.SweptFrom(done, newOld)
        invariant forall uid, ip :: (uid, ip) in report <==>
          exists key :: key in done && ip in done[key] && done[key][ip] == uid
        decreases keys
      {
        var key :| key in keys;
        var more;
        more, newOld := SweepOne(done, newOld, key, userOnlineIP[key]);
        keys := keys - {key};
        ghost var before := report;
        report := report + more;
        ghost var was := done;
        done := done[key := userOnlineIP[key]];
        forall uid, ip ensures (uid, ip) in report <==>
          exists k :: k in done && ip in done[k] && done[k][ip] == uid
        {
          if (uid, ip) in before {
            var k :| k in was && ip in was[k] && was[k][ip] == uid;
            assert k in done && done[k] == was[k];
          }
          if (uid, ip) in more { assert ip in done[key] && done[key][ip] == uid; }
          if k :| k in done && ip in done[k] && done[k][ip] == uid {
            if k != key { assert k in was && was[k] == done[k]; }
          }
        }
      }
      assert done == userOnlineIP;
      oldUserOnline := newOld;
      userOnlineIP := map[];
    }

    /** The devices of one user. */
    method SweepOne(ghost done: map<string, map<string, int>>, newOld: map<string, int>, key: string, ips: map<string, int>)
      returns (more: seq<(int, string)>, next: map<string, int>)
      requires M.SweptFrom(done, newOld) && key !in done
      ensures M.SweptFrom(done[key := ips], next)
      ensures forall uid, ip :: (uid, ip) in more <==> ip in ips && ips[ip] == uid
    {
      more, next := [], newOld;
      var left := ips.Keys;
      while left != {}
        invariant left <= ips.Keys
        invariant forall uid, ip :: (uid, ip) in more <==> ip in ips && ip !in left && ips[ip] == uid
        invariant forall ip :: ip in next <==> ip in newOld || (ip in ips && ip !in left)
        invariant forall ip :: ip in next ==> next[ip] == if ip in ips && ip !in left then ips[ip] else newOld[ip]
        decreases left
      {
        var ip :| ip in left;
        next := next[ip := ips[ip]];
        more := more + [(ips[ip], ip)];
        left := left - {ip};
      }
      var all := done[key := ips];
      forall ip | ip in next ensures exists k :: k in all && ip in all[k] && all[k][ip] == next[ip] {
        if ip in ips {
          assert all[key] == ips;
        } else {
          var k :| k in done && ip in done[k] && done[k][ip] == newOld[ip];
          assert all[k] == done[k];
        }
      }
    }
  }
}
