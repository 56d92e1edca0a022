/** Hot reload as a sequence of steps that the limiter table can observe (cmd/server.go,
    node/controller.go, node/node.go).  Controllers start concurrently: between any two steps of one
    there may be any steps of the others. */
module Reload {

  /** How far a controller's Start has come. */
  datatype Phase =
    | Waiting       // user list not fetched yet
    | FetchFailed   // Start returned before the tag was set
    | Tagged        // tag set, limiter not installed yet
    | Limited       // limiter installed
    | Up            // started
    | Down          // failed after the limiter was installed

  datatype Controller = Controller(nodeTag: string, phase: Phase) {
    /** The tag field: empty until the user list has been fetched. */
    function Tag(): string { if Fetched() then nodeTag else "" }

    predicate Fetched() { phase != Waiting && phase != FetchFailed }

    predicate Installed() { phase == Limited || phase == Up || phase == Down }

    predicate Settled() { phase == FetchFailed || phase == Up || phase == Down }
  }

  function Tags(cs: seq<Controller>): seq<string> {
    if cs == [] then [] else [cs[0].Tag()] + Tags(cs[1..])
  }

  lemma {:induction false} InTags(cs: seq<Controller>, t: string)
    ensures t in Tags(cs) <==> exists i :: 0 <= i < |cs| && cs[i].Tag() == t
  {
    if cs != [] {
      InTags(cs[1..], t);
      assert forall i :: 0 <= i < |cs| - 1 ==> cs[1..][i] == cs[i + 1];
      if i :| 0 <= i < |cs| && cs[i].Tag() == t {
        if i > 0 { assert cs[1..][i - 1].Tag() == t; }
      }
    }
  }

  datatype Stage = Serving | Teardown | Starting | Pruning(next: nat)

  /** The limiter table, the tags captured before the teardown, and the controllers: those in service,
      or during a reload the new ones. */
  datatype State = State(limiters: set<string>, oldTags: seq<string>, cs: seq<Controller>, stage: Stage)

  datatype Action =
    | Begin(nodes: seq<string>)   // the new configuration validated; old controllers closed, limiters kept
    | CoreFails
    | CoreStarts
    | Fetch(i: nat, ok: bool)
    | Install(i: nat)
    | Settle(i: nat, ok: bool)
    | NoneStarted
    | SomeStarted
    | PruneNext
    | Finish

  predicate AllSettled(s: State) { forall i :: 0 <= i < |s.cs| ==> s.cs[i].Settled() }

  predicate AnyUp(s: State) { exists i :: 0 <= i < |s.cs| && s.cs[i].phase == Up }

  predicate At(s: State, i: nat, phase: Phase) { s.stage == Starting && i < |s.cs| && s.cs[i].phase == phase }

  predicate Enabled(s: State, a: Action) {
    match a
    case Begin(_) => s.stage == Serving
    case CoreFails => s.stage == Teardown
    case CoreStarts => s.stage == Teardown
    case Fetch(i, _) => At(s, i, Waiting)
    case Install(i) => At(s, i, Tagged)
    case Settle(i, _) => At(s, i, Limited)
    case NoneStarted => s.stage == Starting && AllSettled(s) && !AnyUp(s)
    case SomeStarted => s.stage == Starting && AllSettled(s) && AnyUp(s)
    case PruneNext => s.stage.Pruning? && s.stage.next < |s.oldTags|
    case Finish => s.stage.Pruning? && s.stage.next == |s.oldTags|
  }

  function Fresh(nodes: seq<string>): seq<Controller> {
    seq(|nodes|, i requires 0 <= i < |nodes| => Controller(nodes[i], Waiting))
  }

  function Move(s: State, i: nat, phase: Phase): State
    requires i < |s.cs|
  {
    s.(cs := s.cs[i := s.cs[i].(phase := phase)])
  }

  function Next(s: State, a: Action): State
    requires Enabled(s, a)
  {
    match a
    case Begin(nodes) => State(s.limiters, Tags(s.cs), Fresh(nodes), Teardown)
    case CoreFails => s.(cs := [], stage := Serving)        // the old node list has lost its controllers
    case CoreStarts => s.(stage := Starting)
    case Fetch(i, ok) => Move(s, i, if ok then Tagged else FetchFailed)
    case Install(i) => Move(s, i, Limited).(limiters := s.limiters + {s.cs[i].nodeTag})
    case Settle(i, ok) => Move(s, i, if ok then Up else Down)
    case NoneStarted => s.(cs := [], stage := Serving)
    case SomeStarted => s.(stage := Pruning(0))
    case PruneNext =>
      var t := s.oldTags[s.stage.next];
      s.(limiters := if t in Tags(s.cs) then s.limiters else s.limiters - {t}, stage := Pruning(s.stage.next + 1))
    case Finish => s.(stage := Serving)
  }

  predicate Possible(s: State, acts: seq<Action>)
    decreases |acts|
  {
    acts == [] || (Enabled(s, acts[0]) && Possible(Next(s, acts[0]), acts[1..]))
  }

  function Run(s: State, acts: seq<Action>): State
    requires Possible(s, acts)
    decreases |acts|
  {
    if acts == [] then s else Run(Next(s, acts[0]), acts[1..])
  }

  // ---- the invariant ----

  /** Every controller that has installed a limiter has one, in every state. */
  predicate InstalledAreKept(s: State) {
    forall i :: 0 <= i < |s.cs| && s.cs[i].Installed() ==> s.cs[i].nodeTag in s.limiters
  }

  predicate Inv(s: State) {
    && InstalledAreKept(s)
    && match s.stage
       case Serving => AllSettled(s)
       case Teardown =>
         && (forall t :: t in s.oldTags && t != "" ==> t in s.limiters)
         && (forall i :: 0 <= i < |s.cs| ==> s.cs[i].phase == Waiting)
       case Starting => forall t :: t in s.oldTags && t != "" ==> t in s.limiters
       case Pruning(k) =>
         && AllSettled(s) && k <= |s.oldTags|
         && (forall t :: t in s.oldTags && t != "" && t in Tags(s.cs) ==> t in s.limiters)
         && (forall j :: 0 <= j < k && s.oldTags[j] !in Tags(s.cs) ==> s.oldTags[j] !in s.limiters)
  }

  lemma InvStep(s: State, a: Action)
    requires Inv(s) && Enabled(s, a)
    ensures Inv(Next(s, a))
  {
    match a
    case Begin(nodes) =>
      forall t | t in Tags(s.cs) && t != "" ensures t in s.limiters {
        InTags(s.cs, t);
      }
    case PruneNext =>
      var t := s.oldTags[s.stage.next];
      if t !in Tags(s.cs) {
        forall i | 0 <= i < |s.cs| && s.cs[i].Installed() ensures s.cs[i].nodeTag != t {
          if s.cs[i].nodeTag == t { InTags(s.cs, t); }
        }
      }
    case _ =>
  }

  lemma {:induction false} InvRun(s: State, acts: seq<Action>)
    requires Inv(s) && Possible(s, acts)
    ensures Inv(Run(s, acts))
    decreases |acts|
  {
    if acts != [] {
      InvStep(s, acts[0]);
      InvRun(Next(s, acts[0]), acts[1..]);
    }
  }

  /** The process starts with no node and no limiter; its first start is a reload from nothing. */
  const BOOT := State({}, [], [], Serving)

  /** For every interleaving of the starts, in every state of every number of reloads: an old tag whose
      new controller has got past the user-list fetch has a limiter, and so has every controller that
      has installed one. */
  lemma SurvivorNeverWithout(acts: seq<Action>, i: nat)
    requires Possible(BOOT, acts) && i < |Run(BOOT, acts).cs| && Run(BOOT, acts).cs[i].Fetched()
    requires var s := Run(BOOT, acts); s.cs[i].nodeTag != "" && (s.cs[i].nodeTag in s.oldTags || s.cs[i].Installed())
    ensures Run(BOOT, acts).cs[i].nodeTag in Run(BOOT, acts).limiters
  {
    InvRun(BOOT, acts);
    var s := Run(BOOT, acts);
    InTags(s.cs, s.cs[i].nodeTag);
  }

  /** Until pruning begins no old tag is without a limiter at all. */
  lemma NoGapBeforePruning(acts: seq<Action>, t: string)
    requires Possible(BOOT, acts) && t != ""
    requires var s := Run(BOOT, acts); (s.stage == Teardown || s.stage == Starting) && t in s.oldTags
    ensures t in Run(BOOT, acts).limiters
  {
    InvRun(BOOT, acts);
  }

  /** A completed reload leaves an old tag its limiter exactly if some new controller of that tag got past
      the user-list fetch; being in the new configuration is not enough. */
  lemma CompletedReload(acts: seq<Action>, t: string)
    requires Possible(BOOT, acts) && Enabled(Run(BOOT, acts), Finish) && t in Run(BOOT, acts).oldTags && t != ""
    ensures var s := Next(Run(BOOT, acts), Finish);
            t in s.limiters <==> exists i :: 0 <= i < |s.cs| && s.cs[i].nodeTag == t && s.cs[i].Fetched()
  {
    InvRun(BOOT, acts);
    var s := Run(BOOT, acts);
    InTags(s.cs, t);
    var j :| 0 <= j < |s.oldTags| && s.oldTags[j] == t;
  }

  ghost predicate Reachable(s: State) { exists acts :: Possible(BOOT, acts) && Run(BOOT, acts) == s }

  lemma {:induction false} RunSnoc(s: State, acts: seq<Action>, a: Action)
    requires Possible(s, acts) && Enabled(Run(s, acts), a)
    ensures Possible(s, acts + [a]) && Run(s, acts + [a]) == Next(Run(s, acts), a)
    decreases |acts|
  {
    if acts == [] {
      assert acts + [a] == [a] && [a][1..] == [];
      assert Possible(Next(s, a), []) && Run(Next(s, a), []) == Next(s, a);
    } else {
      assert (acts + [a])[0] == acts[0] && (acts + [a])[1..] == acts[1..] + [a];
      RunSnoc(Next(s, acts[0]), acts[1..], a);
    }
  }

  lemma Reach(s: State, a: Action, t: State)
    requires Reachable(s) && Enabled(s, a) && Next(s, a) == t
    ensures Reachable(t)
  {
    var acts :| Possible(BOOT, acts) && Run(BOOT, acts) == s;
    RunSnoc(BOOT, acts, a);
  }

  /** Two nodes in service. */
  const PAIR := State({"a", "b"}, [], [Controller("a", Up), Controller("b", Up)], Serving)

  lemma BothServe()
    ensures Reachable(PAIR)
  {
    hide Reachable;
    var none: set<string>, tags: seq<string> := {}, [];
    var two := Fresh(["a", "b"]);
    assert Reachable(BOOT) by { AtBoot(); }
    assert Tags([]) == [];
    Reach(BOOT, Begin(["a", "b"]), State(none, tags, two, Teardown));
    Reach(State(none, tags, two, Teardown), CoreStarts, State(none, tags, two, Starting));
    var s := State(none, tags, two, Starting);
    StartUp(s, 0);
    var s1 := Move(s, 0, Up).(limiters := s.limiters + {"a"});
    StartUp(s1, 1);
    var s2 := Move(s1, 1, Up).(limiters := s1.limiters + {"b"});
    assert s2 == PAIR.(stage := Starting) && s2.cs[0].phase == Up;
    Reach(s2, SomeStarted, PAIR.(stage := Pruning(0)));
    Reach(PAIR.(stage := Pruning(0)), Finish, PAIR);
  }

  lemma AtBoot()
    ensures Reachable(BOOT)
  {
    assert Possible(BOOT, []) && Run(BOOT, []) == BOOT;
  }

  /** A controller starts without trouble. */
  lemma StartUp(s: State, i: nat)
    requires Reachable(s) && At(s, i, Waiting)
    ensures Reachable(Move(s, i, Up).(limiters := s.limiters + {s.cs[i].nodeTag}))
  {
    hide Reachable;
    var s1 := Move(s, i, Tagged);
    Reach(s, Fetch(i, true), s1);
    var s2 := Move(s1, i, Limited).(limiters := s.limiters + {s.cs[i].nodeTag});
    Reach(s1, Install(i), s2);
    Reach(s2, Settle(i, true), Move(s, i, Up).(limiters := s.limiters + {s.cs[i].nodeTag}));
  }

  /** The new controller of one node is up; the other could not fetch its user list. */
  const HALF := [Controller("a", Up), Controller("b", FetchFailed)]

  lemma HalfStarts()
    ensures Reachable(State({"a", "b"}, ["a", "b"], HALF, Starting))
  {
    hide Reachable;
    BothServe();
    var both: set<string>, tags := {"a", "b"}, ["a", "b"];
    assert PAIR.cs[1..] == [Controller("b", Up)] && PAIR.cs[1..][1..] == [] && Tags([]) == [];
    assert Tags(PAIR.cs) == tags;
    var s := State(both, tags, Fresh(tags), Teardown);
    Reach(PAIR, Begin(tags), s);
    Reach(s, CoreStarts, s.(stage := Starting));
    StartUp(s.(stage := Starting), 0);
    assert both + {"a"} == both;
    Reach(Move(s.(stage := Starting), 0, Up), Fetch(1, false), State(both, tags, HALF, Starting));
  }

  /** One node restarts, the other is still configured but its user list cannot be fetched: when the
      reload is complete its limiter is gone, although the node has not left the configuration. */
  lemma UnfetchedSurvivorIsPruned()
    ensures Reachable(State({"a"}, ["a", "b"], [Controller("a", Up), Controller("b", FetchFailed)], Serving))
  {
    hide Reachable;
    HalfStarts();
    var both: set<string>, one: set<string>, tags := {"a", "b"}, {"a"}, ["a", "b"];
    assert HALF[0].phase == Up;
    Reach(State(both, tags, HALF, Starting), SomeStarted, State(both, tags, HALF, Pruning(0)));
    assert HALF[1..] == [Controller("b", FetchFailed)] && HALF[1..][1..] == [];
    assert Tags(HALF) == ["a", ""];
    hide Tags;
    Reach(State(both, tags, HALF, Pruning(0)), PruneNext, State(both, tags, HALF, Pruning(1)));
    assert both - {"b"} == one;
    Reach(State(both, tags, HALF, Pruning(1)), PruneNext, State(one, tags, HALF, Pruning(2)));
    Reach(State(one, tags, HALF, Pruning(2)), Finish, State(one, tags, HALF, Serving));
  }

  // ---- limiters that nobody prunes any more ----

  /** The tag has a limiter, and neither a controller nor a place among the tags to be pruned. */
  predicate Abandoned(s: State, t: string) {
    && t != "" && t in s.limiters
    && (forall i :: 0 <= i < |s.cs| ==> s.cs[i].nodeTag != t)
    && (s.stage == Serving || t !in s.oldTags)
  }

  /** No reload in the run configures the tag. */
  predicate NeverConfigured(acts: seq<Action>, t: string) {
    forall k :: 0 <= k < |acts| && acts[k].Begin? ==> t !in acts[k].nodes
  }

  lemma AbandonedStep(s: State, a: Action, t: string)
    requires Abandoned(s, t) && Enabled(s, a) && (a.Begin? ==> t !in a.nodes)
    ensures Abandoned(Next(s, a), t)
  {
    if a.Begin? { InTags(s.cs, t); }
  }

  /** A limiter that a failed reload left behind stays for good, over every later run that does not
      configure its tag, however many reloads succeed in it. */
  lemma {:induction false} AbandonedForever(s: State, acts: seq<Action>, t: string)
    requires Abandoned(s, t) && Possible(s, acts) && NeverConfigured(acts, t)
    ensures Abandoned(Run(s, acts), t)
    decreases |acts|
  {
    hide Abandoned;
    if acts != [] {
      AbandonedStep(s, acts[0], t);
      AbandonedForever(Next(s, acts[0]), acts[1..], t);
    }
  }

  /** A reload that fails after the teardown abandons the limiters of all nodes then in service. */
  lemma FailedReloadAbandons(s: State, a: Action, t: string)
    requires Inv(s) && Enabled(s, a) && (a.CoreFails? || a.NoneStarted?) && t in s.oldTags && t != ""
    ensures Abandoned(Next(s, a), t)
  {
  }

  /** Both nodes in service, and a reload to a configuration without the second one fails: its limiter is
      there, and by `AbandonedForever` stays there. */
  lemma AbandonedIsReachable()
    ensures Reachable(State({"a", "b"}, ["a", "b"], [], Serving))
    ensures Abandoned(State({"a", "b"}, ["a", "b"], [], Serving), "b")
  {
    hide Reachable;
    BothServe();
    var both: set<string>, tags := {"a", "b"}, ["a", "b"];
    assert PAIR.cs[1..] == [Controller("b", Up)] && PAIR.cs[1..][1..] == [] && Tags([]) == [];
    assert Tags(PAIR.cs) == tags;
    var s := State(both, tags, Fresh(["a"]), Teardown);
    Reach(PAIR, Begin(["a"]), s);
    Reach(s, CoreFails, State(both, tags, [], Serving));
  }

  // ---- the loops ----

  /** The whole pruning loop at once. */
  function Pruned(limiters: set<string>, oldTags: seq<string>, newTags: seq<string>): set<string> {
    set t | t in limiters && (t in oldTags ==> t in newTags)
  }

  /** Pruning step by step does what the loop does at once. */
  lemma {:induction false} PruneSteps(s: State, n: nat)
    requires s.stage.Pruning? && s.stage.next + n <= |s.oldTags|
    ensures Possible(s, seq(n, _ => PruneNext))
    ensures Run(s, seq(n, _ => PruneNext))
         == s.(limiters := Pruned(s.limiters, s.oldTags[s.stage.next..s.stage.next + n], Tags(s.cs)),
               stage := Pruning(s.stage.next + n))
    decreases n
  {
    var acts, k := seq(n, _ => PruneNext), s.stage.next;
    if n == 0 {
      assert acts == [] && s.oldTags[k..k] == [];
      assert Pruned(s.limiters, [], Tags(s.cs)) == s.limiters;
    } else {
      var s1 := Next(s, PruneNext);
      assert acts[0] == PruneNext && acts[1..] == seq(n - 1, _ => PruneNext);
      PruneSteps(s1, n - 1);
      assert s.oldTags[k..k + n] == [s.oldTags[k]] + s.oldTags[k + 1..k + n];
    }
  }

  /** Node.Tags and the pruning loop of reload. */
  method PruneLimiters(limiters: set<string>, oldTags: seq<string>, cs: seq<Controller>) returns (left: set<string>)
    ensures left == Pruned(limiters, oldTags, Tags(cs))
  {
    var tags: seq<string>, newTagSet: set<string> := [], {};
    for i := 0 to |cs|
      invariant tags + Tags(cs[i..]) == Tags(cs)
      invariant forall t :: t in newTagSet <==> t in tags
    {
      assert cs[i..][1..] == cs[i + 1..];
      tags := tags + [cs[i].Tag()];
      newTagSet := newTagSet + {cs[i].Tag()};
    }
    assert tags == Tags(cs);
    left := limiters;
    for i := 0 to |oldTags|
      invariant left == Pruned(limiters, oldTags[..i], Tags(cs))
    {
      assert oldTags[..i + 1] == oldTags[..i] + [oldTags[i]];
      if oldTags[i] !in newTagSet {
        left := left - {oldTags[i]};
      }
    }
    assert oldTags[..|oldTags|] == oldTags;
  }
}
