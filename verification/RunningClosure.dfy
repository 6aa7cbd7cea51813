/** The running set stays closed under dependencies over every run of unforced requests. */
module RunningClosure {
  import opened Orchestrator
  import opened StartOrder

  /** The managed units after a list of commands. */
  function Replay(env: Environment, managed: set<Id>, cs: seq<Command>): (after: set<Id>) {
    if cs == [] then managed else
    var n := |cs| - 1;
    ManagedAfter(Replay(env, managed, cs[..n]), cs[n].action, cs[n].id, env(n))
  }

  ghost predicate Replayed(env: Environment, managed: set<Id>, s: Session) {
    s.managed == Replay(env, managed, s.issued)
  }

  lemma IssueReplays(env: Environment, managed: set<Id>, s: Session, action: string, id: Id)
    requires Replayed(env, managed, s)
    ensures Replayed(env, managed, Issue(env, s, action, id).session)
  {
    var t := Issue(env, s, action, id).session;
    assert t.issued[..|t.issued| - 1] == s.issued;
  }

  lemma {:induction false} ControlReplays(g: Graph, env: Environment, id: Id, action: string, force: bool,
                                          managed: set<Id>, s: Session)
    requires g.WellFormed() && Replayed(env, managed, s)
    ensures Replayed(env, managed, Control(g, env, id, action, force, s).session)
    decreases |g.deps.Keys - s.visited|, 0
  {
    if id in g.deps && id !in s.visited {
      var entered := s.(visited := s.visited + {id});
      assert g.deps.Keys - s.visited == (g.deps.Keys - entered.visited) + {id};
      StartAllReplays(g, env, g.deps[id], managed, entered);
      var ready := if (action == "start" || action == "restart") && !force
                   then StartAll(g, env, g.deps[id], entered) else Result(entered, Accepted);
      IssueReplays(env, managed, ready.session, action, id);
    }
  }

  lemma {:induction false} StartAllReplays(g: Graph, env: Environment, ids: seq<Id>, managed: set<Id>, s: Session)
    requires g.WellFormed() && Replayed(env, managed, s)
    ensures Replayed(env, managed, StartAll(g, env, ids, s).session)
    decreases |g.deps.Keys - s.visited|, 1 + |ids|
  {
    if ids != [] {
      var first := Control(g, env, ids[0], "start", false, s);
      ControlReplays(g, env, ids[0], "start", false, managed, s);
      Shrinks(g, s.visited, first.session.visited);
      StartAllReplays(g, env, ids[1..], managed, first.session);
    }
  }

  ghost predicate AllStarted(env: Environment, cs: seq<Command>) {
    forall i :: 0 <= i < |cs| ==> env(i).Succeeds? && cs[i].action != "stop"
  }

  lemma {:induction false} StartsAccumulate(env: Environment, managed: set<Id>, cs: seq<Command>)
    requires AllStarted(env, cs)
    ensures Replay(env, managed, cs) == managed + IdsOf(cs)
  {
    if cs != [] {
      var n := |cs| - 1;
      var c := cs[n];
      StartsAccumulate(env, managed, cs[..n]);
      var before := Replay(env, managed, cs[..n]);
      assert ManagedAfter(before, c.action, c.id, env(n)) == before + {c.id};
      assert cs == cs[..n] + [c];
      IdsOfAppend(cs[..n], c);
    }
  }

  lemma PrefixOrdered(g: Graph, cs: seq<Command>, n: nat)
    requires DepsFirst(g, cs) && n <= |cs|
    ensures DepsFirst(g, cs[..n])
  {
    forall i | 0 <= i < n
      ensures DepsBefore(g, cs[..n], i)
    {
      assert DepsBefore(g, cs, i) && cs[..n][..i] == cs[..i];
    }
  }

  /** Running units plus a dependencies-first batch are closed when the running units were. */
  lemma OrderedBatchCloses(g: Graph, managed: set<Id>, cs: seq<Command>)
    requires Closed(g, managed) && DepsFirst(g, cs)
    ensures Closed(g, managed + IdsOf(cs))
  {
    forall x, d | x in managed + IdsOf(cs) && x in g.deps && d in g.deps[x]
      ensures d in managed + IdsOf(cs)
    {
      if x !in managed {
        var c :| c in cs && c.id == x;
        var i :| 0 <= i < |cs| && cs[i] == c;
        assert DepsBefore(g, cs, i);
        IdsOfPrefix(cs[..i], cs);
      }
    }
  }

  predicate HasDependent(g: Graph, managed: set<Id>, id: Id) {
    exists y :: y in managed && y in g.deps && id in g.deps[y]
  }

  /** Only a unit that is running itself can have a running dependent. */
  lemma DependentMeansRunning(g: Graph, managed: set<Id>, id: Id)
    requires Closed(g, managed) && HasDependent(g, managed, id)
    ensures id in managed
  {
  }

  /** The first failure among the planned commands leaves down a unit that some running unit depends on. */
  ghost predicate Collapses(g: Graph, env: Environment, plan: seq<Command>, managed: set<Id>) {
    exists k :: 0 <= k < |plan| && env(k) == Fails(false) && (forall j :: 0 <= j < k ==> env(j).Succeeds?) &&
                HasDependent(g, managed, plan[k].id)
  }

  /** The effect of a start on the running units: the batch before the last command, then the last outcome. */
  lemma StartEffect(g: Graph, env: Environment, root: Id, action: string, managed: set<Id>)
    requires g.WellFormed() && root in g.deps && Starts(action)
    ensures var r := Serve(g, env, root, action, false, managed);
            var cs := r.session.issued;
            if r.reply.Accepted? then r.session.managed == managed + IdsOf(cs)
            else |cs| > 0 && r.reply == CommandFailed(cs[|cs| - 1].id) && cs[|cs| - 1].action != "stop" &&
                 r.session.managed == ManagedAfter(managed + IdsOf(cs[..|cs| - 1]), cs[|cs| - 1].action,
                                                   cs[|cs| - 1].id, env(|cs| - 1))
  {
    var s := Session({}, [], managed);
    ControlExtends(g, env, root, action, s);
    ControlReplays(g, env, root, action, false, managed, s);
    var r := Control(g, env, root, action, false, s);
    var cs := r.session.issued;
    if r.reply.Accepted? {
      StartsAccumulate(env, managed, cs);
    } else {
      var n := |cs| - 1;
      assert AllStarted(env, cs[..n]);
      StartsAccumulate(env, managed, cs[..n]);
    }
  }

  lemma DropCloses(g: Graph, base: set<Id>, id: Id)
    requires Closed(g, base)
    ensures Closed(g, base - {id}) <==> forall y :: y in base - {id} && y in g.deps ==> id !in g.deps[y]
  {
    if y :| y in base - {id} && y in g.deps && id in g.deps[y] {
      assert id !in base - {id};
    }
  }

  /** On an acyclic graph nothing issued earlier depends on the component issued last. */
  lemma LastHasNoEarlierDependent(g: Graph, cs: seq<Command>, y: Id)
    requires DepsFirst(g, cs) && Distinct(cs) && |cs| > 0 && y in IdsOf(cs[..|cs| - 1]) && y in g.deps
    ensures cs[|cs| - 1].id !in g.deps[y]
  {
    var n := |cs| - 1;
    var c :| c in cs[..n] && c.id == y;
    var i :| 0 <= i < n && cs[i] == c;
    assert DepsBefore(g, cs, i);
    forall d | d in IdsOf(cs[..i])
      ensures d != cs[n].id
    {
      var e :| e in cs[..i] && e.id == d;
      var k :| 0 <= k < i && cs[k] == e;
    }
  }

  lemma SelfIsACycle(g: Graph, x: Id)
    requires Acyclic(g) && x in g.deps
    ensures x !in g.deps[x]
  {
    assert !Cycle(g, [x, x]);
  }

  lemma FailedStartCloses(g: Graph, cs: seq<Command>, managed: set<Id>, up: bool, after: set<Id>)
    requires g.WellFormed() && Acyclic(g) && Closed(g, managed) && DepsFirst(g, cs) && Distinct(cs) && |cs| > 0
    requires cs[|cs| - 1].id in g.deps && cs[|cs| - 1].action != "stop"
    requires after == ManagedAfter(managed + IdsOf(cs[..|cs| - 1]), cs[|cs| - 1].action, cs[|cs| - 1].id, Fails(up))
    ensures Closed(g, after) <==> up || !HasDependent(g, managed, cs[|cs| - 1].id)
  {
    var n := |cs| - 1;
    var id, base := cs[n].id, managed + IdsOf(cs[..n]);
    PrefixOrdered(g, cs, n);
    OrderedBatchCloses(g, managed, cs[..n]);
    if up {
      assert DepsBefore(g, cs, n);
    } else {
      DropCloses(g, base, id);
      SelfIsACycle(g, id);
      forall y | y in IdsOf(cs[..n]) && y in g.deps
        ensures id !in g.deps[y]
      {
        LastHasNoEarlierDependent(g, cs, y);
      }
    }
  }

  /** An unforced start or restart on an acyclic graph leaves the running set closed exactly unless the first
      failure in its plan takes down a unit that something running needs. The plan is known before the request. */
  lemma StartKeepsClosed(g: Graph, env: Environment, root: Id, action: string, managed: set<Id>)
    requires g.WellFormed() && Acyclic(g) && root in g.deps && Starts(action) && Closed(g, managed)
    ensures Closed(g, Serve(g, env, root, action, false, managed).session.managed) <==>
            !Collapses(g, env, Plan(g, root, action), managed)
  {
    assert AcyclicFrom(g, root);
    StartIsDepsFirst(g, env, root, action, managed);
    StartIssuesEachReachableOnce(g, env, root, action, managed);
    StartEffect(g, env, root, action, managed);
    StartFollowsPlan(g, env, root, action, managed);
    var r := Serve(g, env, root, action, false, managed);
    var cs := r.session.issued;
    if r.reply.Accepted? {
      OrderedBatchCloses(g, managed, cs);
    } else {
      IssuedIsKnown(g, env, root, action, managed);
      FailedStartCloses(g, cs, managed, env(|cs| - 1).up, r.session.managed);
      FirstFailureDecides(g, env, Plan(g, root, action), managed, |cs| - 1);
    }
  }

  lemma FirstFailureDecides(g: Graph, env: Environment, plan: seq<Command>, managed: set<Id>, k: nat)
    requires k < |plan| && env(k).Fails? && forall j :: 0 <= j < k ==> env(j).Succeeds?
    ensures Collapses(g, env, plan, managed) <==> !env(k).up && HasDependent(g, managed, plan[k].id)
  {
  }

  /** No unit that the request will command is needed by a running unit. */
  ghost predicate Undisturbing(g: Graph, managed: set<Id>, root: Id) {
    forall x :: Reaches(g, root, x) ==> !HasDependent(g, managed, x)
  }

  /** A request is safe whatever `systemctl` answers exactly when it commands no unit that a running unit needs. */
  lemma SafeIffUndisturbing(g: Graph, root: Id, action: string, managed: set<Id>)
    requires g.WellFormed() && Acyclic(g) && root in g.deps && Starts(action) && Closed(g, managed)
    ensures (forall env :: Closed(g, Serve(g, env, root, action, false, managed).session.managed)) <==>
            Undisturbing(g, managed, root)
  {
    var plan := Plan(g, root, action);
    StartFollowsPlan(g, SUCCESS, root, action, managed);
    if Undisturbing(g, managed, root) {
      forall env
        ensures Closed(g, Serve(g, env, root, action, false, managed).session.managed)
      {
        UndisturbingNeverCollapses(g, env, root, action, managed);
        StartKeepsClosed(g, env, root, action, managed);
      }
    } else {
      var x :| Reaches(g, root, x) && HasDependent(g, managed, x);
      var env := Spoiler(g, plan, managed, x);
      StartKeepsClosed(g, env, root, action, managed);
    }
  }

  /** Outcomes that let a plan collapse at a given unit. */
  lemma Spoiler(g: Graph, plan: seq<Command>, managed: set<Id>, x: Id) returns (env: Environment)
    requires x in IdsOf(plan) && HasDependent(g, managed, x)
    ensures Collapses(g, env, plan, managed)
  {
    var c :| c in plan && c.id == x;
    var k :| 0 <= k < |plan| && plan[k] == c;
    env := j => if j == k then Fails(false) else Succeeds;
    FirstFailureDecides(g, env, plan, managed, k);
  }

  lemma UndisturbingNeverCollapses(g: Graph, env: Environment, root: Id, action: string, managed: set<Id>)
    requires g.WellFormed() && root in g.deps && Starts(action) && Undisturbing(g, managed, root)
    ensures !Collapses(g, env, Plan(g, root, action), managed)
  {
    StartFollowsPlan(g, SUCCESS, root, action, managed);
    var plan := Plan(g, root, action);
    forall k | 0 <= k < |plan|
      ensures !HasDependent(g, managed, plan[k].id)
    {
      assert plan[k] in plan;
      assert plan[k].id in IdsOf(plan);
    }
  }

  /** A failing start or restart never leaves down a unit that was running. */
  predicate Steady(env: Environment, plan: seq<Command>, managed: set<Id>) {
    forall k :: 0 <= k < |plan| && env(k) == Fails(false) ==> plan[k].id !in managed
  }

  lemma SteadyNeverCollapses(g: Graph, env: Environment, plan: seq<Command>, managed: set<Id>)
    requires Closed(g, managed) && Steady(env, plan, managed)
    ensures !Collapses(g, env, plan, managed)
  {
    forall k | 0 <= k < |plan| && HasDependent(g, managed, plan[k].id)
      ensures env(k) != Fails(false)
    {
      DependentMeansRunning(g, managed, plan[k].id);
    }
  }

  lemma IssuedIsKnown(g: Graph, env: Environment, root: Id, action: string, managed: set<Id>)
    requires g.WellFormed() && root in g.deps && Starts(action)
    ensures forall c :: c in Serve(g, env, root, action, false, managed).session.issued ==> c.id in g.deps
  {
    var s := Session({}, [], managed);
    ControlExtends(g, env, root, action, s);
    ExtensionIsKnown(g, env, s, Control(g, env, root, action, false, s));
  }

  lemma ExtensionIsKnown(g: Graph, env: Environment, s: Session, r: Result)
    requires Extends(g, env, s, r) && s.visited == {}
    ensures forall c :: c in r.session.issued ==> c.id in g.deps
  {
    var t := r.session;
    assert t.visited - s.visited == t.visited;
    forall c | c in t.issued
      ensures c.id in g.deps
    {
      assert c.id in IdsOf(t.issued);
    }
  }

  /** A stop that is let through issues one stop and nothing else; a forced start or restart looks at no dependency;
      replies say what went wrong. */
  lemma DirectCommands(g: Graph, env: Environment, id: Id, action: string, force: bool, managed: set<Id>)
    requires g.WellFormed() && (force || !Starts(action))
    ensures var r := Serve(g, env, id, action, force, managed);
            if id !in g.deps then r.reply == UnknownComponent(id) && r.session.issued == []
            else if action == "stop" && !force && HasDependent(g, managed, id) then
              r.reply.DependentRunning? && r.reply.id in managed && r.session.issued == []
            else if action !in {"start", "stop", "restart"} then r.reply == UnsupportedAction && r.session.issued == []
            else r.session.issued == [Command(action, id)] &&
                 r.reply == (if env(0).Succeeds? then Accepted else CommandFailed(id))
  {
    if id in g.deps && action == "stop" && !force {
      DependentFound(g, id, managed);
    }
  }

  lemma DependentFound(g: Graph, id: Id, managed: set<Id>)
    requires g.WellFormed()
    ensures RunningDependent(g, managed, id, 0).Some? <==> HasDependent(g, managed, id)
  {
    forall y | y in managed && y in g.deps && id in g.deps[y]
      ensures RunningDependent(g, managed, id, 0).Some?
    {
      assert y in g.order;
    }
  }

  /** An unforced stop always leaves the running set closed: it is refused while a direct dependent runs. */
  lemma StopKeepsClosed(g: Graph, env: Environment, id: Id, managed: set<Id>)
    requires g.WellFormed() && Closed(g, managed)
    ensures var r := Serve(g, env, id, "stop", false, managed);
            && Closed(g, r.session.managed)
            && (id in g.deps ==> (r.reply.DependentRunning? <==> HasDependent(g, managed, id)))
  {
    if id in g.deps {
      DependentFound(g, id, managed);
      DropCloses(g, managed, id);
    }
  }

  /** Any other action, and any unknown component, changes nothing. */
  lemma OthersChangeNothing(g: Graph, env: Environment, id: Id, action: string, managed: set<Id>)
    requires g.WellFormed() && (!Supported(action) || id !in g.deps)
    ensures var r := Serve(g, env, id, action, false, managed);
            r.session.managed == managed && r.session.issued == [] && !r.reply.Accepted?
  {
  }

  // ----- runs

  datatype Request =
    | Component(id: Id, action: string, env: Environment)
    | Profile(ids: seq<Id>, profileAction: string, envs: nat -> Environment)

  /** Profile stops are forced and outside this theorem. */
  predicate Unforced(q: Request) {
    q.Profile? ==> q.profileAction != "stop"
  }

  function Next(g: Graph, managed: set<Id>, q: Request): (after: set<Id>)
    requires g.WellFormed()
  {
    match q
    case Component(id, action, env) => Serve(g, env, id, action, false, managed).session.managed
    case Profile(ids, action, envs) => ServeProfile(g, envs, ids, action, managed).session.managed
  }

  ghost predicate AllSucceed(env: Environment, plan: seq<Command>) {
    forall k :: 0 <= k < |plan| ==> env(k).Succeeds?
  }

  /** Some component of the profile collapses, all before it having gone through. */
  ghost predicate ProfileCollapses(g: Graph, envs: nat -> Environment, ids: seq<Id>, action: string,
                                   managed: set<Id>, k: nat)
    requires g.WellFormed() && k <= |ids|
    decreases |ids| - k
  {
    k < |ids| && ids[k] in g.deps &&
    var plan := Plan(g, ids[k], action);
    Collapses(g, envs(k), plan, managed) ||
    (AllSucceed(envs(k), plan) && ProfileCollapses(g, envs, ids, action, managed + IdsOf(plan), k + 1))
  }

  /** From the graph, the running set before the request and the outcomes: some running unit loses a dependency. */
  ghost predicate Breaks(g: Graph, managed: set<Id>, q: Request)
    requires g.WellFormed()
  {
    match q
    case Component(id, action, env) =>
      Starts(action) && id in g.deps && Collapses(g, env, Plan(g, id, action), managed)
    case Profile(ids, action, envs) => Starts(action) && ProfileCollapses(g, envs, ids, action, managed, 0)
  }

  lemma ServeKeepsClosed(g: Graph, env: Environment, id: Id, action: string, managed: set<Id>)
    requires g.WellFormed() && Acyclic(g) && Closed(g, managed)
    ensures Closed(g, Serve(g, env, id, action, false, managed).session.managed) <==>
            !Breaks(g, managed, Component(id, action, env))
  {
    if action == "stop" {
      StopKeepsClosed(g, env, id, managed);
    } else if Starts(action) && id in g.deps {
      StartKeepsClosed(g, env, id, action, managed);
    } else {
      OthersChangeNothing(g, env, id, action, managed);
    }
  }

  /** An accepted start adds its plan to the running units. */
  lemma AcceptedAddsPlan(g: Graph, env: Environment, id: Id, action: string, managed: set<Id>)
    requires g.WellFormed() && id in g.deps && Starts(action)
    ensures var r, plan := Serve(g, env, id, action, false, managed), Plan(g, id, action);
            && (r.reply.Accepted? <==> AllSucceed(env, plan))
            && (r.reply.Accepted? ==> r.session.managed == managed + IdsOf(plan))
  {
    StartFollowsPlan(g, env, id, action, managed);
    StartEffect(g, env, id, action, managed);
  }

  lemma {:induction false} ProfileKeepsClosed(g: Graph, envs: nat -> Environment, ids: seq<Id>, action: string,
                                              managed: set<Id>, k: nat)
    requires g.WellFormed() && Acyclic(g) && k <= |ids| && Closed(g, managed) && Starts(action)
    ensures Closed(g, ServeAll(g, envs, ids, action, false, managed, k).session.managed) <==>
            !ProfileCollapses(g, envs, ids, action, managed, k)
    decreases |ids| - k
  {
    if k < |ids| {
      ServeKeepsClosed(g, envs(k), ids[k], action, managed);
      if ids[k] in g.deps {
        AcceptedAddsPlan(g, envs(k), ids[k], action, managed);
        if AllSucceed(envs(k), Plan(g, ids[k], action)) {
          ProfileKeepsClosed(g, envs, ids, action, managed + IdsOf(Plan(g, ids[k], action)), k + 1);
        }
      }
    }
  }

  /** One unforced request keeps the running set closed exactly unless it breaks a running unit's dependency. */
  lemma RequestKeepsClosed(g: Graph, managed: set<Id>, q: Request)
    requires g.WellFormed() && Acyclic(g) && Closed(g, managed) && Unforced(q)
    ensures Closed(g, Next(g, managed, q)) <==> !Breaks(g, managed, q)
  {
    match q
    case Component(id, action, env) => ServeKeepsClosed(g, env, id, action, managed);
    case Profile(ids, action, envs) =>
      if Starts(action) {
        ProfileKeepsClosed(g, envs, ids, action, managed, 0);
      } else if ids != [] {
        OthersChangeNothing(g, envs(0), ids[0], action, managed);
      }
  }

  /** The running sets before, between and after a list of unforced requests. */
  ghost predicate History(g: Graph, runs: seq<set<Id>>, qs: seq<Request>)
    requires g.WellFormed()
  {
    && |runs| == |qs| + 1
    && (forall k :: 0 <= k < |qs| ==> Unforced(qs[k]) && runs[k + 1] == Next(g, runs[k], qs[k]))
  }

  lemma {:induction false} ClosedUpTo(g: Graph, runs: seq<set<Id>>, qs: seq<Request>, k: nat)
    requires g.WellFormed() && Acyclic(g) && History(g, runs, qs) && Closed(g, runs[0]) && k < |runs|
    requires forall j :: 0 <= j < k ==> !Breaks(g, runs[j], qs[j])
    ensures Closed(g, runs[k])
  {
    if k > 0 {
      ClosedUpTo(g, runs, qs, k - 1);
      RequestKeepsClosed(g, runs[k - 1], qs[k - 1]);
    }
  }

  /** Over every run on an acyclic graph from a closed set, the running set is closed all along exactly when no
      request breaks a dependency of what was running before it. */
  lemma RunsClosedExactly(g: Graph, runs: seq<set<Id>>, qs: seq<Request>)
    requires g.WellFormed() && Acyclic(g) && History(g, runs, qs) && Closed(g, runs[0])
    ensures (forall k :: 0 <= k < |runs| ==> Closed(g, runs[k])) <==>
            (forall k :: 0 <= k < |qs| ==> !Breaks(g, runs[k], qs[k]))
  {
    if forall k :: 0 <= k < |qs| ==> !Breaks(g, runs[k], qs[k]) {
      forall k | 0 <= k < |runs|
        ensures Closed(g, runs[k])
      {
        ClosedUpTo(g, runs, qs, k);
      }
    }
    if forall k :: 0 <= k < |runs| ==> Closed(g, runs[k]) {
      forall k | 0 <= k < |qs|
        ensures !Breaks(g, runs[k], qs[k])
      {
        RequestKeepsClosed(g, runs[k], qs[k]);
        assert Closed(g, runs[k + 1]);
      }
    }
  }

  /** What a caller or an administrator can ensure: the component needs no unit that a running one needs, or units
      that run survive a failing command. */
  ghost predicate Careful(g: Graph, env: Environment, id: Id, action: string, managed: set<Id>)
    requires g.WellFormed()
  {
    Undisturbing(g, managed, id) || Steady(env, Plan(g, id, action), managed)
  }

  ghost predicate CarefulProfile(g: Graph, envs: nat -> Environment, ids: seq<Id>, action: string,
                                 managed: set<Id>, k: nat)
    requires g.WellFormed() && k <= |ids|
    decreases |ids| - k
  {
    k < |ids| && ids[k] in g.deps ==>
      && Careful(g, envs(k), ids[k], action, managed)
      && CarefulProfile(g, envs, ids, action, managed + IdsOf(Plan(g, ids[k], action)), k + 1)
  }

  ghost predicate CarefulRequest(g: Graph, managed: set<Id>, q: Request)
    requires g.WellFormed()
  {
    match q
    case Component(id, action, env) => Starts(action) && id in g.deps ==> Careful(g, env, id, action, managed)
    case Profile(ids, action, envs) => Starts(action) ==> CarefulProfile(g, envs, ids, action, managed, 0)
  }

  lemma CarefulNeverCollapses(g: Graph, env: Environment, id: Id, action: string, managed: set<Id>)
    requires g.WellFormed() && id in g.deps && Starts(action) && Closed(g, managed)
    requires Careful(g, env, id, action, managed)
    ensures !Collapses(g, env, Plan(g, id, action), managed)
  {
    if Undisturbing(g, managed, id) {
      UndisturbingNeverCollapses(g, env, id, action, managed);
    } else {
      SteadyNeverCollapses(g, env, Plan(g, id, action), managed);
    }
  }

  lemma {:induction false} CarefulProfileNeverCollapses(g: Graph, envs: nat -> Environment, ids: seq<Id>,
                                                        action: string, managed: set<Id>, k: nat)
    requires g.WellFormed() && Acyclic(g) && k <= |ids| && Closed(g, managed) && Starts(action)
    requires CarefulProfile(g, envs, ids, action, managed, k)
    ensures !ProfileCollapses(g, envs, ids, action, managed, k)
    decreases |ids| - k
  {
    if k < |ids| && ids[k] in g.deps {
      CarefulNeverCollapses(g, envs(k), ids[k], action, managed);
      PlanCloses(g, ids[k], action, managed);
      CarefulProfileNeverCollapses(g, envs, ids, action, managed + IdsOf(Plan(g, ids[k], action)), k + 1);
    }
  }

  lemma PlanCloses(g: Graph, id: Id, action: string, managed: set<Id>)
    requires g.WellFormed() && Acyclic(g) && id in g.deps && Starts(action) && Closed(g, managed)
    ensures Closed(g, managed + IdsOf(Plan(g, id, action)))
  {
    assert AcyclicFrom(g, id);
    StartIsDepsFirst(g, SUCCESS, id, action, {});
    OrderedBatchCloses(g, managed, Plan(g, id, action));
  }

  lemma CarefulNeverBreaks(g: Graph, managed: set<Id>, q: Request)
    requires g.WellFormed() && Acyclic(g) && Closed(g, managed) && CarefulRequest(g, managed, q)
    ensures !Breaks(g, managed, q)
  {
    match q
    case Component(id, action, env) =>
      if Starts(action) && id in g.deps {
        CarefulNeverCollapses(g, env, id, action, managed);
      }
    case Profile(ids, action, envs) =>
      if Starts(action) {
        CarefulProfileNeverCollapses(g, envs, ids, action, managed, 0);
      }
  }

  /** Running-set closure: over every run of unforced component and profile requests on an acyclic graph, each
      running component has all its dependencies running, if each start commands no unit that a running one needs
      or no failing command leaves down a unit that was running. */
  lemma {:induction false} RunsStayClosed(g: Graph, runs: seq<set<Id>>, qs: seq<Request>, k: nat)
    requires g.WellFormed() && Acyclic(g) && History(g, runs, qs) && Closed(g, runs[0]) && k < |runs|
    requires forall j :: 0 <= j < |qs| ==> CarefulRequest(g, runs[j], qs[j])
    ensures Closed(g, runs[k])
  {
    if k > 0 {
      RunsStayClosed(g, runs, qs, k - 1);
      CarefulNeverBreaks(g, runs[k - 1], qs[k - 1]);
      RequestKeepsClosed(g, runs[k - 1], qs[k - 1]);
    }
  }

  // ----- what a profile issues

  function Plans(g: Graph, ids: seq<Id>, action: string, k: nat): (plans: seq<Command>)
    requires g.WellFormed() && k <= |ids|
    decreases |ids| - k
  {
    if k == |ids| then [] else Plan(g, ids[k], action) + Plans(g, ids, action, k + 1)
  }

  lemma {:induction false} PlansName(g: Graph, ids: seq<Id>, action: string, k: nat)
    requires g.WellFormed() && k <= |ids| && Starts(action) && forall x :: x in ids ==> x in g.deps
    ensures forall c :: c in Plans(g, ids, action, k) ==> c.action == "start" || (c.action == action && c.id in ids)
    decreases |ids| - k
  {
    if k < |ids| {
      StartFollowsPlan(g, SUCCESS, ids[k], action, {});
      PlansName(g, ids, action, k + 1);
    }
  }

  /** A profile start issues the plans of its components one after the other, up to the first failure, and when
      accepted leaves all of them running. */
  lemma {:induction false} ProfileFollowsPlans(g: Graph, envs: nat -> Environment, ids: seq<Id>, action: string,
                                               managed: set<Id>, k: nat)
    requires g.WellFormed() && k <= |ids| && Starts(action) && forall x :: x in ids ==> x in g.deps
    ensures var r, plans := ServeAll(g, envs, ids, action, false, managed, k), Plans(g, ids, action, k);
            && r.session.issued <= plans
            && (r.reply.Accepted? ==> r.session.issued == plans && r.session.managed == managed + IdsOf(plans))
    decreases |ids| - k
  {
    if k < |ids| {
      StartFollowsPlan(g, envs(k), ids[k], action, managed);
      AcceptedAddsPlan(g, envs(k), ids[k], action, managed);
      var r := Serve(g, envs(k), ids[k], action, false, managed);
      ProfileFollowsPlans(g, envs, ids, action, r.session.managed, k + 1);
      IdsOfConcat(Plan(g, ids[k], action), Plans(g, ids, action, k + 1));
    }
  }

  lemma IdsOfConcat(cs: seq<Command>, ds: seq<Command>)
    ensures IdsOf(cs + ds) == IdsOf(cs) + IdsOf(ds)
  {
    assert forall c :: c in cs + ds <==> c in cs || c in ds;
    assert forall c :: c in cs || c in ds ==> c in cs + ds && c.id in IdsOf(cs + ds);
  }

  function Stops(ids: seq<Id>, k: nat): (cs: seq<Command>)
    requires k <= |ids|
    decreases |ids| - k
  {
    if k == |ids| then [] else [Command("stop", ids[k])] + Stops(ids, k + 1)
  }

  lemma ForcedStop(g: Graph, env: Environment, id: Id, managed: set<Id>)
    requires g.WellFormed() && id in g.deps
    ensures var r := Serve(g, env, id, "stop", true, managed);
            r.session.issued == [Command("stop", id)] && (r.reply.Accepted? ==> r.session.managed == managed - {id})
  {
  }

  lemma {:induction false} ForcedStops(g: Graph, envs: nat -> Environment, ids: seq<Id>, managed: set<Id>, k: nat)
    requires g.WellFormed() && k <= |ids| && forall x :: x in ids ==> x in g.deps
    ensures var r := ServeAll(g, envs, ids, "stop", true, managed, k);
            && r.session.issued <= Stops(ids, k)
            && (r.reply.Accepted? ==>
                  && r.session.issued == Stops(ids, k)
                  && (forall x :: x in r.session.managed <==> x in managed && x !in ids[k..]))
    decreases |ids| - k
  {
    if k < |ids| {
      ForcedStop(g, envs(k), ids[k], managed);
      var r := Serve(g, envs(k), ids[k], "stop", true, managed);
      if r.reply.Accepted? {
        ForcedStops(g, envs, ids, r.session.managed, k + 1);
        assert ids[k..] == [ids[k]] + ids[k + 1..];
      }
    }
  }

  /** A profile stop issues one forced stop per component, last component first, up to the first failure; when
      accepted none of them is left running. */
  lemma ProfileStopsBackwards(g: Graph, envs: nat -> Environment, ids: seq<Id>, managed: set<Id>)
    requires g.WellFormed() && forall x :: x in ids ==> x in g.deps
    ensures var r := ServeProfile(g, envs, ids, "stop", managed);
            && r.session.issued <= Stops(Reversed(ids), 0)
            && (r.reply.Accepted? ==>
                  && r.session.issued == Stops(Reversed(ids), 0)
                  && (forall x :: x in r.session.managed <==> x in managed && x !in ids))
  {
    var back := Reversed(ids);
    forall x
      ensures x in back <==> x in ids
    {
      if x in ids {
        var i :| 0 <= i < |ids| && ids[i] == x;
        assert back[|ids| - 1 - i] == x;
      }
    }
    assert back[0..] == back;
    ForcedStops(g, envs, back, managed, 0);
  }

  /** The condition bites: restarting a unit with a running dependent is never refused, and if `systemctl` fails
      and leaves the unit down, its dependent runs without it. */
  lemma FailedRestartBreaksClosure()
    ensures var g := Graph(["app", "core"], map["app" := ["core"], "core" := []]);
            var r := Serve(g, n => Fails(false), "core", "restart", false, {"app", "core"});
            g.WellFormed() && Closed(g, {"app", "core"}) && r.reply == CommandFailed("core") &&
            !Closed(g, r.session.managed)
  {
    var g := Graph(["app", "core"], map["app" := ["core"], "core" := []]);
    assert g.order[0] == "app" && g.order[1] == "core";
    var s := Session({}, [], {"app", "core"});
    var r := Control(g, n => Fails(false), "core", "restart", false, s);
    assert StartAll(g, n => Fails(false), [], s.(visited := {"core"})) == Result(s.(visited := {"core"}), Accepted);
    assert g.deps["app"][0] == "core";
    assert "core" in g.deps["app"] && "core" !in r.session.managed && "app" in r.session.managed;
  }
}
