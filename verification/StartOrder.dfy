/** What a dependency-first start issues and in which order. */
module StartOrder {
  import opened Orchestrator

  // ----- the dependency graph

  ghost predicate Path(g: Graph, p: seq<Id>) {
    && |p| > 0
    && (forall i :: 0 <= i < |p| ==> p[i] in g.deps)
    && (forall i :: 0 <= i < |p| - 1 ==> p[i + 1] in g.deps[p[i]])
  }

  /** `b` is `a` or one of its direct or indirect dependencies. */
  ghost predicate Reaches(g: Graph, a: Id, b: Id) {
    exists p :: Path(g, p) && p[0] == a && p[|p| - 1] == b
  }

  ghost predicate Cycle(g: Graph, p: seq<Id>) {
    Path(g, p) && |p| >= 2 && p[0] == p[|p| - 1]
  }

  ghost predicate AcyclicFrom(g: Graph, root: Id) {
    forall p :: Cycle(g, p) ==> !Reaches(g, root, p[0])
  }

  ghost predicate Acyclic(g: Graph) {
    forall p :: !Cycle(g, p)
  }

  lemma ReachesSelf(g: Graph, a: Id)
    requires a in g.deps
    ensures Reaches(g, a, a)
  {
    assert Path(g, [a]);
  }

  lemma ReachesThrough(g: Graph, a: Id, d: Id, b: Id)
    requires a in g.deps && d in g.deps[a] && Reaches(g, d, b)
    ensures Reaches(g, a, b)
  {
    var p :| Path(g, p) && p[0] == d && p[|p| - 1] == b;
    assert Path(g, [a] + p);
  }

  // ----- what one start visits and issues

  function IdsOf(cs: seq<Command>): (ids: set<Id>) {
    set c | c in cs :: c.id
  }

  lemma IdsOfAppend(cs: seq<Command>, c: Command)
    ensures IdsOf(cs + [c]) == IdsOf(cs) + {c.id}
  {
    assert forall x :: x in cs + [c] <==> x in cs || x == c;
    assert IdsOf(cs + [c]) <= IdsOf(cs) + {c.id};
    forall id | id in IdsOf(cs) + {c.id}
      ensures id in IdsOf(cs + [c])
    {
      var x :| (x in cs || x == c) && x.id == id;
      assert x in cs + [c];
    }
  }

  ghost predicate Distinct(cs: seq<Command>) {
    forall i, j :: 0 <= i < j < |cs| ==> cs[i].id != cs[j].id
  }

  ghost predicate Tidy(s: Session) {
    Distinct(s.issued) && IdsOf(s.issued) <= s.visited
  }

  /** A start only extends the session, visits configured components and runs commands for new visits only, one
      for each when it is accepted. If it fails, exactly the last command issued failed. */
  ghost predicate Extends(g: Graph, env: Environment, s: Session, r: Result) {
    var t := r.session;
    && Tidy(t) && s.issued <= t.issued
    && s.visited <= t.visited && t.visited - s.visited <= g.deps.Keys
    && (forall i :: |s.issued| <= i < |t.issued| ==>
          t.issued[i].id !in s.visited && t.issued[i].action != "stop")
    && (if r.reply.Accepted? then
          && (forall x :: x in t.visited - s.visited ==> x in IdsOf(t.issued))
          && (forall i :: |s.issued| <= i < |t.issued| ==> env(i).Succeeds?)
        else
          && |t.issued| > |s.issued| && env(|t.issued| - 1).Fails?
          && r.reply == CommandFailed(t.issued[|t.issued| - 1].id)
          && (forall i :: |s.issued| <= i < |t.issued| - 1 ==> env(i).Succeeds?))
  }

  lemma IdsOfPrefix(cs: seq<Command>, ds: seq<Command>)
    requires cs <= ds
    ensures IdsOf(cs) <= IdsOf(ds)
  {
    forall c | c in cs
      ensures c in ds
    {
      var i :| 0 <= i < |cs| && cs[i] == c;
      assert ds[i] == c;
    }
  }

  lemma ExtendsTransitive(g: Graph, env: Environment, s: Session, mid: Session, r: Result)
    requires Extends(g, env, s, Result(mid, Accepted)) && Extends(g, env, mid, r)
    ensures Extends(g, env, s, r)
  {
    IdsOfPrefix(mid.issued, r.session.issued);
  }

  lemma CoversTransitive(g: Graph, ids: seq<Id>, s: Session, mid: Session, t: Session)
    requires ids != [] && s.visited <= mid.visited <= t.visited
    requires Covers(g, [ids[0]], s, mid) && Covers(g, ids[1..], mid, t)
    ensures Covers(g, ids, s, t)
  {
    assert ids[0] in [ids[0]];
    forall x | x in ids
      ensures x in t.visited
    {
      assert x == ids[0] || x in ids[1..];
    }
    forall x | x in t.visited - s.visited
      ensures exists root :: root in ids && Reaches(g, root, x)
    {
      if x in mid.visited {
        assert x in mid.visited - s.visited;
        assert Reaches(g, ids[0], x);
      } else {
        assert x in t.visited - mid.visited;
        var root :| root in ids[1..] && Reaches(g, root, x);
        assert root in ids;
      }
    }
  }

  /** After an accepted start everything newly visited is reachable and has all its dependencies visited. */
  ghost predicate Covers(g: Graph, roots: seq<Id>, s: Session, t: Session) {
    && (forall x :: x in roots ==> x in t.visited)
    && (forall x, d :: x in t.visited - s.visited && x in g.deps && d in g.deps[x] ==> d in t.visited)
    && (forall x :: x in t.visited - s.visited ==> exists root :: root in roots && Reaches(g, root, x))
  }

  predicate Starts(action: string) {
    action == "start" || action == "restart"
  }

  /** A start or restart of an unvisited component, unfolded once. */
  lemma ControlUnfolds(g: Graph, env: Environment, id: Id, action: string, s: Session)
    requires g.WellFormed() && id in g.deps && id !in s.visited && Starts(action)
    ensures var ready := StartAll(g, env, g.deps[id], s.(visited := s.visited + {id}));
            Control(g, env, id, action, false, s) ==
            if ready.reply.Accepted? then Issue(env, ready.session, action, id) else ready
    ensures |g.deps.Keys - (s.visited + {id})| < |g.deps.Keys - s.visited|
  {
    assert g.deps.Keys - s.visited == (g.deps.Keys - (s.visited + {id})) + {id};
  }

  lemma {:induction false} ControlExtends(g: Graph, env: Environment, id: Id, action: string, s: Session)
    requires g.WellFormed() && id in g.deps && Starts(action) && Tidy(s)
    ensures var r := Control(g, env, id, action, false, s);
            Extends(g, env, s, r) && (r.reply.Accepted? ==> Covers(g, [id], s, r.session))
    decreases |g.deps.Keys - s.visited|, 0
  {
    if id !in s.visited {
      var entered := s.(visited := s.visited + {id});
      ControlUnfolds(g, env, id, action, s);
      StartAllExtends(g, env, g.deps[id], entered);
      var ready := StartAll(g, env, g.deps[id], entered);
      LeavesOpen(g, env, id, s, ready);
      if ready.reply.Accepted? {
        FinishExtends(g, env, id, action, s, ready.session);
        FinishCovers(g, id, s, entered, ready.session);
      }
    }
  }

  /** While a component's dependencies are started, no command is issued for the component itself. */
  lemma LeavesOpen(g: Graph, env: Environment, id: Id, s: Session, r: Result)
    requires Tidy(s) && id in g.deps && id !in s.visited
    requires Extends(g, env, s.(visited := s.visited + {id}), r)
    ensures id !in IdsOf(r.session.issued)
    ensures !r.reply.Accepted? ==> Extends(g, env, s, r)
  {
  }

  lemma FinishExtends(g: Graph, env: Environment, id: Id, action: string, s: Session, ready: Session)
    requires id in g.deps && id !in s.visited && Starts(action) && Tidy(s)
    requires Extends(g, env, s.(visited := s.visited + {id}), Result(ready, Accepted))
    requires id !in IdsOf(ready.issued)
    ensures Extends(g, env, s, Issue(env, ready, action, id))
  {
    var c := Command(action, id);
    IdsOfAppend(ready.issued, c);
    forall i | 0 <= i < |ready.issued|
      ensures ready.issued[i].id != id
    {
      assert ready.issued[i] in ready.issued;
    }
  }

  lemma FinishCovers(g: Graph, id: Id, s: Session, entered: Session, t: Session)
    requires id in g.deps && id !in s.visited && entered.visited == s.visited + {id}
    requires Covers(g, g.deps[id], entered, t) && entered.visited <= t.visited
    ensures Covers(g, [id], s, t)
  {
    forall x | x in t.visited - s.visited
      ensures exists root :: root in [id] && Reaches(g, root, x)
    {
      assert id in [id];
      if x == id {
        ReachesSelf(g, id);
      } else {
        assert x in t.visited - entered.visited;
        var d :| d in g.deps[id] && Reaches(g, d, x);
        ReachesThrough(g, id, d, x);
      }
    }
  }

  lemma {:induction false} StartAllExtends(g: Graph, env: Environment, ids: seq<Id>, s: Session)
    requires g.WellFormed() && Tidy(s) && forall x :: x in ids ==> x in g.deps
    ensures var r := StartAll(g, env, ids, s);
            Extends(g, env, s, r) && (r.reply.Accepted? ==> Covers(g, ids, s, r.session))
    decreases |g.deps.Keys - s.visited|, 1 + |ids|
  {
    if ids != [] {
      var first := Control(g, env, ids[0], "start", false, s);
      ControlExtends(g, env, ids[0], "start", s);
      if first.reply.Accepted? {
        Shrinks(g, s.visited, first.session.visited);
        StartAllExtends(g, env, ids[1..], first.session);
        var r := StartAll(g, env, ids[1..], first.session);
        assert r == StartAll(g, env, ids, s);
        ExtendsTransitive(g, env, s, first.session, r);
        if r.reply.Accepted? {
          CoversTransitive(g, ids, s, first.session, r.session);
        }
      }
    }
  }

  // ----- the actions issued

  /** The commands added are starts, except that `root` itself gets `action`. */
  ghost predicate Named(root: Id, action: string, s: Session, t: Session) {
    s.issued <= t.issued &&
    forall i :: |s.issued| <= i < |t.issued| ==>
      t.issued[i].action == (if t.issued[i].id == root then action else "start")
  }

  lemma {:induction false} ControlNames(g: Graph, env: Environment, id: Id, action: string, s: Session)
    requires g.WellFormed() && id in g.deps && Starts(action) && Tidy(s)
    ensures Named(id, action, s, Control(g, env, id, action, false, s).session)
    decreases |g.deps.Keys - s.visited|, 0
  {
    if id !in s.visited {
      var entered := s.(visited := s.visited + {id});
      ControlUnfolds(g, env, id, action, s);
      StartAllExtends(g, env, g.deps[id], entered);
      StartAllNames(g, env, g.deps[id], entered);
      var ready := StartAll(g, env, g.deps[id], entered);
      LeavesOpen(g, env, id, s, ready);
      forall i | 0 <= i < |ready.session.issued|
        ensures ready.session.issued[i].id != id
      {
        assert ready.session.issued[i] in ready.session.issued;
      }
    }
  }

  lemma {:induction false} StartAllNames(g: Graph, env: Environment, ids: seq<Id>, s: Session)
    requires g.WellFormed() && Tidy(s) && forall x :: x in ids ==> x in g.deps
    ensures var t := StartAll(g, env, ids, s).session;
            s.issued <= t.issued && forall i :: |s.issued| <= i < |t.issued| ==> t.issued[i].action == "start"
    decreases |g.deps.Keys - s.visited|, 1 + |ids|
  {
    if ids != [] {
      var first := Control(g, env, ids[0], "start", false, s);
      ControlExtends(g, env, ids[0], "start", s);
      ControlNames(g, env, ids[0], "start", s);
      if first.reply.Accepted? {
        Shrinks(g, s.visited, first.session.visited);
        StartAllNames(g, env, ids[1..], first.session);
      }
    }
  }

  /** On any graph and for any outcomes, a start or restart issues plain starts for every other component: nothing
      that already runs is restarted on the way. When accepted, the requested command comes last. */
  lemma StartNames(g: Graph, env: Environment, root: Id, action: string, managed: set<Id>)
    requires g.WellFormed() && root in g.deps && Starts(action)
    ensures var r := Serve(g, env, root, action, false, managed);
            var cs := r.session.issued;
            && (forall i :: 0 <= i < |cs| ==> cs[i].action == (if cs[i].id == root then action else "start"))
            && (r.reply.Accepted? ==> |cs| > 0 && cs[|cs| - 1] == Command(action, root))
  {
    var s := Session({}, [], managed);
    ControlNames(g, env, root, action, s);
    ControlUnfolds(g, env, root, action, s);
  }

  // ----- configuration order

  lemma {:induction false} StartAllSplits(g: Graph, env: Environment, ids: seq<Id>, n: nat, s: Session)
    requires g.WellFormed() && Tidy(s) && n <= |ids| && StartAll(g, env, ids, s).reply.Accepted?
    requires forall x :: x in ids ==> x in g.deps
    ensures var first := StartAll(g, env, ids[..n], s);
            first.reply.Accepted? && first.session.issued <= StartAll(g, env, ids, s).session.issued
    decreases |ids|
  {
    StartAllExtends(g, env, ids, s);
    if n > 0 {
      var first := Control(g, env, ids[0], "start", false, s);
      ControlExtends(g, env, ids[0], "start", s);
      assert ids[..n][0] == ids[0] && ids[..n][1..] == ids[1..][..n - 1];
      StartAllSplits(g, env, ids[1..], n - 1, first.session);
    }
  }

  /** Dependencies are taken in configuration order: unless an earlier one needs it, a later dependency of the
      component asked for is not yet commanded when an earlier one is. */
  lemma EarlierDependencyFirst(g: Graph, env: Environment, root: Id, action: string, managed: set<Id>, i: nat, j: nat)
    requires g.WellFormed() && root in g.deps && Starts(action) && AcyclicFrom(g, root)
    requires Serve(g, env, root, action, false, managed).reply.Accepted?
    requires i < j < |g.deps[root]| && forall k :: 0 <= k <= i ==> !Reaches(g, g.deps[root][k], g.deps[root][j])
    ensures var cs := Serve(g, env, root, action, false, managed).session.issued;
            exists m :: 0 <= m <= |cs| && g.deps[root][i] in IdsOf(cs[..m]) && g.deps[root][j] !in IdsOf(cs[..m])
  {
    var ids := g.deps[root];
    var s := Session({}, [], managed);
    var entered := s.(visited := s.visited + {root});
    ControlUnfolds(g, env, root, action, s);
    var mid := AfterSome(g, env, ids, i + 1, entered);
    var cs := Serve(g, env, root, action, false, managed).session.issued;
    assert cs[..|mid.issued|] == mid.issued;
    NotItsOwnDependency(g, root, ids[i]);
    NotItsOwnDependency(g, root, ids[j]);
    PrefixDecides(g, env, ids, i, j, entered, mid);
  }

  /** The session after the first `n` of an accepted list of starts. */
  lemma AfterSome(g: Graph, env: Environment, ids: seq<Id>, n: nat, s: Session) returns (mid: Session)
    requires g.WellFormed() && Tidy(s) && n <= |ids| && StartAll(g, env, ids, s).reply.Accepted?
    requires forall x :: x in ids ==> x in g.deps
    ensures Extends(g, env, s, Result(mid, Accepted)) && Covers(g, ids[..n], s, mid)
    ensures mid.issued <= StartAll(g, env, ids, s).session.issued
  {
    StartAllSplits(g, env, ids, n, s);
    StartAllExtends(g, env, ids[..n], s);
    mid := StartAll(g, env, ids[..n], s).session;
  }

  lemma PrefixDecides(g: Graph, env: Environment, ids: seq<Id>, i: nat, j: nat, s: Session, t: Session)
    requires i < j < |ids| && ids[i] !in s.visited && ids[j] !in s.visited
    requires Extends(g, env, s, Result(t, Accepted)) && Covers(g, ids[..i + 1], s, t)
    requires forall k :: 0 <= k <= i ==> !Reaches(g, ids[k], ids[j])
    ensures ids[i] in IdsOf(t.issued) && ids[j] !in IdsOf(t.issued)
  {
    assert ids[..i + 1][i] == ids[i] && ids[i] in t.visited - s.visited;
    NotVisited(g, ids[..i + 1], s, t, ids[j]);
  }

  lemma NotVisited(g: Graph, roots: seq<Id>, s: Session, t: Session, x: Id)
    requires Covers(g, roots, s, t) && x !in s.visited && forall d :: d in roots ==> !Reaches(g, d, x)
    ensures x !in t.visited
  {
    assert x in t.visited ==> x in t.visited - s.visited;
  }

  lemma NotItsOwnDependency(g: Graph, root: Id, d: Id)
    requires root in g.deps && AcyclicFrom(g, root) && d in g.deps[root]
    ensures d != root
  {
    ReachesSelf(g, root);
    if d == root {
      assert Cycle(g, [root, root]);
      assert false;
    }
  }

  // ----- dependencies first

  /** Every issued command comes after commands for all the dependencies of its component. */
  ghost predicate DepsFirst(g: Graph, cs: seq<Command>) {
    forall i :: 0 <= i < |cs| ==> DepsBefore(g, cs, i)
  }

  ghost predicate DepsBefore(g: Graph, cs: seq<Command>, i: nat)
    requires i < |cs|
  {
    cs[i].id in g.deps ==> forall d :: d in g.deps[cs[i].id] ==> d in IdsOf(cs[..i])
  }

  lemma DepsFirstAppend(g: Graph, cs: seq<Command>, c: Command)
    requires DepsFirst(g, cs) && c.id in g.deps && forall d :: d in g.deps[c.id] ==> d in IdsOf(cs)
    ensures DepsFirst(g, cs + [c])
  {
    var all := cs + [c];
    forall i | 0 <= i < |all|
      ensures DepsBefore(g, all, i)
    {
      if i < |cs| {
        assert all[..i] == cs[..i] && DepsBefore(g, cs, i);
      } else {
        assert all[..i] == cs;
      }
    }
  }

  lemma StackCycle(g: Graph, stack: seq<Id>, k: nat)
    requires Path(g, stack) && k < |stack| && stack[k] in g.deps[stack[|stack| - 1]]
    ensures Cycle(g, stack[k..] + [stack[k]]) && Reaches(g, stack[0], stack[k])
  {
    assert Path(g, stack[..k + 1]);
  }

  /** `stack` is the path of components being started around the current one. On an acyclic graph none of them is
      a dependency of the current component. */
  lemma StackIsNotADependency(g: Graph, stack: seq<Id>, d: Id)
    requires Path(g, stack) && AcyclicFrom(g, stack[0])
    requires d in g.deps && d in g.deps[stack[|stack| - 1]]
    ensures d !in stack && Path(g, stack + [d])
  {
    forall k | 0 <= k < |stack|
      ensures stack[k] != d
    {
      if stack[k] in g.deps[stack[|stack| - 1]] {
        StackCycle(g, stack, k);
        assert false;
      }
    }
  }

  /** Every visited component has been commanded or is still being started. */
  ghost predicate Accounted(stack: seq<Id>, s: Session) {
    forall x :: x in s.visited ==> x in IdsOf(s.issued) || x in stack
  }

  lemma StaysAccounted(g: Graph, env: Environment, stack: seq<Id>, s: Session, t: Session)
    requires Accounted(stack, s) && Extends(g, env, s, Result(t, Accepted))
    ensures Accounted(stack, t)
  {
    IdsOfPrefix(s.issued, t.issued);
    forall x | x in t.visited
      ensures x in IdsOf(t.issued) || x in stack
    {
      if x !in s.visited {
        assert x in t.visited - s.visited;
      }
    }
  }

  /** Once its dependencies are visited, all of them have been commanded. */
  lemma DependenciesIssued(g: Graph, stack: seq<Id>, s: Session)
    requires g.WellFormed() && Path(g, stack) && AcyclicFrom(g, stack[0]) && Accounted(stack, s)
    requires forall d :: d in g.deps[stack[|stack| - 1]] ==> d in s.visited
    ensures forall d :: d in g.deps[stack[|stack| - 1]] ==> d in IdsOf(s.issued)
  {
    forall d | d in g.deps[stack[|stack| - 1]]
      ensures d in IdsOf(s.issued)
    {
      StackIsNotADependency(g, stack, d);
    }
  }

  /** The command that ends an accepted start follows those of its dependencies. */
  lemma FinishOrders(g: Graph, env: Environment, stack: seq<Id>, action: string, entered: Session, ready: Session)
    requires g.WellFormed() && Path(g, stack) && AcyclicFrom(g, stack[0]) && Accounted(stack, entered)
    requires Extends(g, env, entered, Result(ready, Accepted)) && DepsFirst(g, ready.issued)
    requires forall d :: d in g.deps[stack[|stack| - 1]] ==> d in ready.visited
    ensures DepsFirst(g, ready.issued + [Command(action, stack[|stack| - 1])])
  {
    StaysAccounted(g, env, stack, entered, ready);
    DependenciesIssued(g, stack, ready);
    DepsFirstAppend(g, ready.issued, Command(action, stack[|stack| - 1]));
  }

  lemma {:induction false} ControlOrders(g: Graph, env: Environment, stack: seq<Id>, action: string, s: Session)
    requires g.WellFormed() && Starts(action) && Tidy(s) && DepsFirst(g, s.issued)
    requires Path(g, stack) && AcyclicFrom(g, stack[0])
    requires Accounted(stack[..|stack| - 1], s)
    requires stack[|stack| - 1] !in stack[..|stack| - 1]
    ensures var r := Control(g, env, stack[|stack| - 1], action, false, s);
            DepsFirst(g, r.session.issued)
    decreases |g.deps.Keys - s.visited|, 0
  {
    var id := stack[|stack| - 1];
    if id !in s.visited {
      var entered := s.(visited := s.visited + {id});
      ControlUnfolds(g, env, id, action, s);
      assert stack == stack[..|stack| - 1] + [id];
      StartAllOrders(g, env, stack, g.deps[id], entered);
      StartAllExtends(g, env, g.deps[id], entered);
      var ready := StartAll(g, env, g.deps[id], entered);
      if ready.reply.Accepted? {
        FinishOrders(g, env, stack, action, entered, ready.session);
      }
    }
  }

  lemma {:induction false} StartAllOrders(g: Graph, env: Environment, stack: seq<Id>, ids: seq<Id>, s: Session)
    requires g.WellFormed() && Tidy(s) && DepsFirst(g, s.issued)
    requires Path(g, stack) && AcyclicFrom(g, stack[0])
    requires Accounted(stack, s)
    requires forall x :: x in ids ==> x in g.deps[stack[|stack| - 1]]
    ensures DepsFirst(g, StartAll(g, env, ids, s).session.issued)
    decreases |g.deps.Keys - s.visited|, 1 + |ids|
  {
    if ids != [] {
      assert ids[0] in ids;
      StackIsNotADependency(g, stack, ids[0]);
      var deeper := stack + [ids[0]];
      assert deeper[..|deeper| - 1] == stack && deeper[|deeper| - 1] == ids[0];
      ControlOrders(g, env, deeper, "start", s);
      ControlExtends(g, env, ids[0], "start", s);
      var first := Control(g, env, ids[0], "start", false, s);
      if first.reply.Accepted? {
        Shrinks(g, s.visited, first.session.visited);
        assert Tidy(first.session);
        StaysAccounted(g, env, stack, s, first.session);
        assert forall x :: x in ids[1..] ==> x in ids;
        StartAllOrders(g, env, stack, ids[1..], first.session);
      }
    }
  }

  /** Along a path, positions in a dependencies-first order go down. */
  lemma {:induction false} PathDescends(g: Graph, cs: seq<Command>, p: seq<Id>, i: nat)
    returns (j: nat)
    requires DepsFirst(g, cs) && Path(g, p) && i < |cs| && cs[i].id == p[0]
    ensures j <= i && cs[j].id == p[|p| - 1] && (|p| >= 2 ==> j < i)
  {
    j := i;
    if |p| >= 2 {
      assert DepsBefore(g, cs, i) && p[1] in g.deps[p[0]];
      var c :| c in cs[..i] && c.id == p[1];
      var k :| 0 <= k < i && cs[k] == c;
      assert Path(g, p[1..]);
      j := PathDescends(g, cs, p[1..], k);
    }
  }

  lemma OrderedIsAcyclic(g: Graph, cs: seq<Command>, root: Id)
    requires Distinct(cs) && DepsFirst(g, cs) && forall x :: Reaches(g, root, x) ==> x in IdsOf(cs)
    ensures AcyclicFrom(g, root)
  {
    forall p | Cycle(g, p)
      ensures !Reaches(g, root, p[0])
    {
      if Reaches(g, root, p[0]) {
        var c :| c in cs && c.id == p[0];
        var i :| 0 <= i < |cs| && cs[i] == c;
        var j := PathDescends(g, cs, p, i);
        assert false;
      }
    }
  }

  /** Every component of the set has all its direct dependencies in the set. */
  ghost predicate Closed(g: Graph, ids: set<Id>) {
    forall x :: x in ids && x in g.deps ==> forall d :: d in g.deps[x] ==> d in ids
  }

  lemma {:induction false} ReachableVisited(g: Graph, t: Session, p: seq<Id>)
    requires Path(g, p) && p[0] in t.visited
    requires Closed(g, t.visited)
    ensures p[|p| - 1] in t.visited
  {
    if |p| >= 2 {
      assert p[1] in g.deps[p[0]];
      assert Path(g, p[1..]);
      ReachableVisited(g, t, p[1..]);
    }
  }

  lemma VisitedIsReachable(g: Graph, root: Id, s: Session, t: Session, x: Id)
    requires s.visited == {} && Covers(g, [root], s, t)
    ensures x in t.visited <==> Reaches(g, root, x)
  {
    if x in t.visited {
      assert x in t.visited - s.visited;
      var r :| r in [root] && Reaches(g, r, x);
    }
    if Reaches(g, root, x) {
      var p :| Path(g, p) && p[0] == root && p[|p| - 1] == x;
      assert root in [root];
      CoversCloses(g, root, s, t);
      ReachableVisited(g, t, p);
    }
  }

  lemma CoversCloses(g: Graph, root: Id, s: Session, t: Session)
    requires s.visited == {} && Covers(g, [root], s, t)
    ensures Closed(g, t.visited)
  {
    assert t.visited - s.visited == t.visited;
  }

  lemma AcceptedIsReachable(g: Graph, env: Environment, root: Id, s: Session, t: Session)
    requires s.visited == {} && Extends(g, env, s, Result(t, Accepted)) && Covers(g, [root], s, t)
    ensures forall x :: x in IdsOf(t.issued) <==> Reaches(g, root, x)
  {
    assert t.visited - s.visited == t.visited;
    assert IdsOf(t.issued) == t.visited;
    forall x
      ensures x in t.visited <==> Reaches(g, root, x)
    {
      VisitedIsReachable(g, root, s, t, x);
    }
  }

  /** A start on any graph, cyclic or not: it terminates with at most one command per component; if accepted, the
      components commanded are exactly those reachable through dependencies and every command succeeded; if not,
      the last command issued is the only one that failed. */
  lemma StartIssuesEachReachableOnce(g: Graph, env: Environment, root: Id, action: string, managed: set<Id>)
    requires g.WellFormed() && root in g.deps && Starts(action)
    ensures var r := Serve(g, env, root, action, false, managed);
            var cs := r.session.issued;
            && Distinct(cs)
            && (r.reply.Accepted? ==>
                  && (forall x :: x in IdsOf(cs) <==> Reaches(g, root, x))
                  && (forall i :: 0 <= i < |cs| ==> env(i).Succeeds?))
            && (!r.reply.Accepted? ==>
                  && |cs| > 0 && env(|cs| - 1).Fails? && r.reply == CommandFailed(cs[|cs| - 1].id)
                  && (forall i :: 0 <= i < |cs| - 1 ==> env(i).Succeeds?))
  {
    var s := Session({}, [], managed);
    ControlExtends(g, env, root, action, s);
    var r := Control(g, env, root, action, false, s);
    if r.reply.Accepted? {
      AcceptedIsReachable(g, env, root, s, r.session);
    }
  }

  /** Dependency-first start: if no cycle is reachable from the component, every command, even the one that fails,
      follows commands for all the dependencies of its component. */
  lemma StartIsDepsFirst(g: Graph, env: Environment, root: Id, action: string, managed: set<Id>)
    requires g.WellFormed() && root in g.deps && Starts(action) && AcyclicFrom(g, root)
    ensures DepsFirst(g, Serve(g, env, root, action, false, managed).session.issued)
  {
    assert Path(g, [root]);
    ControlOrders(g, env, [root], action, Session({}, [], managed));
  }

  /** And acyclicity is exactly what it takes. */
  lemma DepsFirstIffAcyclic(g: Graph, env: Environment, root: Id, action: string, managed: set<Id>)
    requires g.WellFormed() && root in g.deps && Starts(action)
    requires Serve(g, env, root, action, false, managed).reply.Accepted?
    ensures DepsFirst(g, Serve(g, env, root, action, false, managed).session.issued) <==> AcyclicFrom(g, root)
  {
    var cs := Serve(g, env, root, action, false, managed).session.issued;
    StartIssuesEachReachableOnce(g, env, root, action, managed);
    if AcyclicFrom(g, root) {
      StartIsDepsFirst(g, env, root, action, managed);
    }
    if DepsFirst(g, cs) {
      OrderedIsAcyclic(g, cs, root);
    }
  }

  // ----- the plan

  const SUCCESS: Environment := k => Succeeds

  /** What a start or restart issues when nothing fails; the graph alone determines it. */
  function Plan(g: Graph, root: Id, action: string): (plan: seq<Command>)
    requires g.WellFormed()
  {
    Serve(g, SUCCESS, root, action, false, {}).session.issued
  }

  /** `r` issued a prefix of what `full` did, all of it when accepted. */
  ghost predicate Follows(r: Result, full: Result) {
    && full.reply.Accepted? && r.session.issued <= full.session.issued
    && (r.reply.Accepted? ==>
          r.session.issued == full.session.issued && r.session.visited == full.session.visited)
  }

  lemma {:induction false} ControlFollows(g: Graph, env: Environment, id: Id, action: string, s: Session, f: Session)
    requires g.WellFormed() && id in g.deps && Starts(action) && Tidy(s)
    requires s.visited == f.visited && s.issued == f.issued
    ensures Follows(Control(g, env, id, action, false, s), Control(g, SUCCESS, id, action, false, f))
    decreases |g.deps.Keys - s.visited|, 0
  {
    if id !in s.visited {
      var entered, entered' := s.(visited := s.visited + {id}), f.(visited := f.visited + {id});
      ControlUnfolds(g, env, id, action, s);
      ControlUnfolds(g, SUCCESS, id, action, f);
      StartAllFollows(g, env, g.deps[id], entered, entered');
    }
  }

  lemma {:induction false} StartAllFollows(g: Graph, env: Environment, ids: seq<Id>, s: Session, f: Session)
    requires g.WellFormed() && Tidy(s) && forall x :: x in ids ==> x in g.deps
    requires s.visited == f.visited && s.issued == f.issued
    ensures Follows(StartAll(g, env, ids, s), StartAll(g, SUCCESS, ids, f))
    decreases |g.deps.Keys - s.visited|, 1 + |ids|
  {
    if ids != [] {
      var first, full := Control(g, env, ids[0], "start", false, s), Control(g, SUCCESS, ids[0], "start", false, f);
      ControlFollows(g, env, ids[0], "start", s, f);
      ControlExtends(g, SUCCESS, ids[0], "start", f);
      StartAllExtends(g, SUCCESS, ids[1..], full.session);
      if first.reply.Accepted? {
        Shrinks(g, s.visited, first.session.visited);
        StartAllFollows(g, env, ids[1..], first.session, full.session);
      }
    }
  }

  /** Every start or restart, whatever is running and whatever fails, issues its plan up to the first failure; the
      plan has one command for each reachable component, a start for all but the component asked for. */
  lemma StartFollowsPlan(g: Graph, env: Environment, root: Id, action: string, managed: set<Id>)
    requires g.WellFormed() && root in g.deps && Starts(action)
    ensures var r, plan := Serve(g, env, root, action, false, managed), Plan(g, root, action);
            && Distinct(plan) && (forall x :: x in IdsOf(plan) <==> Reaches(g, root, x))
            && r.session.issued <= plan
            && (r.reply.Accepted? <==> forall i :: 0 <= i < |plan| ==> env(i).Succeeds?)
            && (r.reply.Accepted? ==> r.session.issued == plan)
            && (forall i :: 0 <= i < |plan| ==> plan[i].action == (if plan[i].id == root then action else "start"))
  {
    StartNames(g, SUCCESS, root, action, {});
    ControlFollows(g, env, root, action, Session({}, [], managed), Session({}, [], {}));
    StartIssuesEachReachableOnce(g, env, root, action, managed);
    StartIssuesEachReachableOnce(g, SUCCESS, root, action, {});
  }
}
