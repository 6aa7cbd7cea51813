/** The operation orchestrator: dependency-first start, guarded stop. `systemctl` is an environment that decides
    the outcome of the k-th command of a request; units change only through these commands. */
module Orchestrator {
  import opened Common

  type Id = string

  /** `order` lists the configured components, `deps` their direct dependencies in configuration order. */
  datatype Graph = Graph(order: seq<Id>, deps: map<Id, seq<Id>>) {
    /** The check at the end of `load_configuration`. */
    ghost predicate WellFormed() {
      && (forall id :: id in order <==> id in deps)
      && (forall id, d :: id in deps && d in deps[id] ==> d in deps)
    }
  }

  /** A command succeeds, or fails leaving its unit up or down. */
  datatype Outcome = Succeeds | Fails(up: bool)
  type Environment = nat -> Outcome

  datatype Command = Command(action: string, id: Id)

  datatype Reply = Accepted | UnknownComponent(id: Id) | DependentRunning(id: Id) | UnsupportedAction |
                   CommandFailed(id: Id) | UnknownProfile

  /** One service request: the visited set, the commands issued so far and the managed units. */
  datatype Session = Session(visited: set<Id>, issued: seq<Command>, managed: set<Id>)

  datatype Result = Result(session: Session, reply: Reply)

  predicate Supported(action: string) {
    action == "start" || action == "stop" || action == "restart"
  }

  function ManagedAfter(managed: set<Id>, action: string, id: Id, outcome: Outcome): (after: set<Id>) {
    match outcome
    case Succeeds => if action == "stop" then managed - {id} else managed + {id}
    case Fails(up) => if !up then managed - {id} else if action == "stop" then managed else managed + {id}
  }

  function Issue(env: Environment, s: Session, action: string, id: Id): (r: Result) {
    var outcome := env(|s.issued|);
    Result(s.(issued := s.issued + [Command(action, id)],
              managed := ManagedAfter(s.managed, action, id, outcome)),
           if outcome.Succeeds? then Accepted else CommandFailed(id))
  }

  /** The first configured component, from position `k`, that is managed and depends directly on `id`. */
  function RunningDependent(g: Graph, managed: set<Id>, id: Id, k: nat): (found: Option<Id>)
    requires k <= |g.order| && forall x :: x in g.order ==> x in g.deps
    ensures found.Some? ==> found.value in g.deps && id in g.deps[found.value] && found.value in managed
    ensures found.None? ==> forall i :: k <= i < |g.order| ==>
                              !(id in g.deps[g.order[i]] && g.order[i] in managed)
    decreases |g.order| - k
  {
    if k == |g.order| then None
    else if id in g.deps[g.order[k]] && g.order[k] in managed then Some(g.order[k])
    else RunningDependent(g, managed, id, k + 1)
  }

  /** The part of `control_component` after the dependencies: guard, validate and run the command. */
  function Finish(g: Graph, env: Environment, id: Id, action: string, force: bool, s: Session): (r: Result)
    requires g.WellFormed()
  {
    var dependent := if action == "stop" && !force then RunningDependent(g, s.managed, id, 0) else None;
    if dependent.Some? then Result(s, DependentRunning(dependent.value))
    else if !Supported(action) then Result(s, UnsupportedAction)
    else Issue(env, s, action, id)
  }

  function Control(g: Graph, env: Environment, id: Id, action: string, force: bool, s: Session): (r: Result)
    requires g.WellFormed()
    ensures s.visited <= r.session.visited
    decreases |g.deps.Keys - s.visited|, 0
  {
    if id !in g.deps then Result(s, UnknownComponent(id))
    else if id in s.visited then Result(s, Accepted)
    else
      var entered := s.(visited := s.visited + {id});
      assert g.deps.Keys - s.visited == (g.deps.Keys - entered.visited) + {id};
      var ready := if (action == "start" || action == "restart") && !force
                   then StartAll(g, env, g.deps[id], entered) else Result(entered, Accepted);
      if !ready.reply.Accepted? then ready
      else Finish(g, env, id, action, force, ready.session)
  }

  function StartAll(g: Graph, env: Environment, ids: seq<Id>, s: Session): (r: Result)
    requires g.WellFormed()
    ensures s.visited <= r.session.visited
    decreases |g.deps.Keys - s.visited|, 1 + |ids|
  {
    if ids == [] then Result(s, Accepted) else
    var first := Control(g, env, ids[0], "start", false, s);
    if !first.reply.Accepted? then first else
    Shrinks(g, s.visited, first.session.visited);
    StartAll(g, env, ids[1..], first.session)
  }

  lemma Shrinks(g: Graph, small: set<Id>, large: set<Id>)
    requires small <= large
    ensures |g.deps.Keys - large| <= |g.deps.Keys - small|
  {
    Cardinality(g.deps.Keys - large, g.deps.Keys - small);
  }

  lemma {:induction false} Cardinality<T>(a: set<T>, b: set<T>)
    requires a <= b
    ensures |a| <= |b|
  {
    if a != {} {
      var x :| x in a;
      Cardinality(a - {x}, b - {x});
    }
  }

  /** A component request as the service handles it: a fresh visited set and no commands yet. */
  function Serve(g: Graph, env: Environment, id: Id, action: string, force: bool, managed: set<Id>): (r: Result)
    requires g.WellFormed()
  {
    Control(g, env, id, action, force, Session({}, [], managed))
  }

  /** The components from position `k` on in order, each with its own visited set, up to the first failure.
      `envs(k)` answers the commands of the k-th component. */
  function ServeAll(g: Graph, envs: nat -> Environment, ids: seq<Id>, action: string, force: bool,
                    managed: set<Id>, k: nat): (r: Result)
    requires g.WellFormed() && k <= |ids|
    decreases |ids| - k
  {
    if k == |ids| then Result(Session({}, [], managed), Accepted) else
    var r := Serve(g, envs(k), ids[k], action, force, managed);
    if !r.reply.Accepted? then r else
    var rest := ServeAll(g, envs, ids, action, force, r.session.managed, k + 1);
    Result(rest.session.(issued := r.session.issued + rest.session.issued), rest.reply)
  }

  function Reversed(ids: seq<Id>): (r: seq<Id>)
    ensures |r| == |ids| && forall i :: 0 <= i < |ids| ==> r[i] == ids[|ids| - 1 - i]
  {
    if ids == [] then [] else [ids[|ids| - 1]] + Reversed(ids[..|ids| - 1])
  }

  /** A profile request: a stop takes the components in reverse and forces each. */
  function ServeProfile(g: Graph, envs: nat -> Environment, ids: seq<Id>, action: string, managed: set<Id>):
    (r: Result)
    requires g.WellFormed()
  {
    ServeAll(g, envs, if action == "stop" then Reversed(ids) else ids, action, action == "stop", managed, 0)
  }

  /** `rest` is what remains of `whole` once `commands` are issued. */
  predicate Continues(rest: Result, commands: seq<Command>, whole: Result) {
    rest.reply == whole.reply && rest.session.managed == whole.session.managed &&
    commands + rest.session.issued == whole.session.issued
  }

  lemma ContinuesAfter(r: Result, rest: Result, commands: seq<Command>, whole: Result)
    requires Continues(Result(rest.session.(issued := r.session.issued + rest.session.issued), rest.reply),
                       commands, whole)
    ensures Continues(rest, commands + r.session.issued, whole)
  {
    assert commands + (r.session.issued + rest.session.issued) == (commands + r.session.issued) + rest.session.issued;
  }

  // ----- the node

  class Node {
    const g: Graph
    const profiles: map<string, seq<Id>>
    var issued: seq<Command>
    var managed: set<Id>

    constructor (g: Graph, profiles: map<string, seq<Id>>, managed: set<Id>)
      ensures this.g == g && this.profiles == profiles && this.managed == managed && issued == []
    {
      this.g, this.profiles, this.managed, issued := g, profiles, managed, [];
    }

    function View(visited: set<Id>): (s: Session)
      reads this
    {
      Session(visited, issued, managed)
    }

    method HandleComponent(env: Environment, id: Id, action: string, force: bool) returns (reply: Reply)
      requires g.WellFormed()
      modifies this
      ensures var r := Serve(g, env, id, action, force, old(managed));
              reply == r.reply && issued == r.session.issued && managed == r.session.managed
    {
      issued := [];
      var visited;
      reply, visited := ControlComponent(env, id, action, force, {});
    }

    /** `commands` lists everything the profile issued. */
    method HandleProfile(envs: nat -> Environment, profile: string, action: string)
      returns (reply: Reply, commands: seq<Command>)
      requires g.WellFormed()
      modifies this
      ensures profile !in profiles ==> reply == UnknownProfile && commands == [] && managed == old(managed)
      ensures profile in profiles ==>
                var r := ServeProfile(g, envs, profiles[profile], action, old(managed));
                reply == r.reply && commands == r.session.issued && managed == r.session.managed
    {
      commands := [];
      if profile !in profiles {
        return UnknownProfile, [];
      }
      var ids := profiles[profile];
      if action == "stop" {
        ids := Reversed(ids);
      }
      ghost var whole := ServeProfile(g, envs, profiles[profile], action, managed);
      var k := 0;
      while k < |ids|
        invariant 0 <= k <= |ids|
        invariant Continues(ServeAll(g, envs, ids, action, action == "stop", managed, k), commands, whole)
      {
        ghost var r := Serve(g, envs(k), ids[k], action, action == "stop", managed);
        ghost var rest := ServeAll(g, envs, ids, action, action == "stop", r.session.managed, k + 1);
        if r.reply.Accepted? {
          ContinuesAfter(r, rest, commands, whole);
        }
        reply := HandleComponent(envs(k), ids[k], action, action == "stop");
        commands := commands + issued;
        if !reply.Accepted? {
          return;
        }
        k := k + 1;
      }
      reply := Accepted;
    }

    /** `visited'` is the visited set after the call; the source passes it by reference. */
    method ControlComponent(env: Environment, id: Id, action: string, force: bool, visited: set<Id>)
      returns (reply: Reply, visited': set<Id>)
      requires g.WellFormed()
      modifies this
      ensures Control(g, env, id, action, force, old(View(visited))) == Result(View(visited'), reply)
      decreases |g.deps.Keys - visited|, 0
    {
      if id !in g.deps {
        return UnknownComponent(id), visited;
      }
      if id in visited {
        return Accepted, visited;
      }
      visited' := visited + {id};
      assert g.deps.Keys - visited == (g.deps.Keys - visited') + {id};
      if (action == "start" || action == "restart") && !force {
        reply, visited' := StartDependencies(env, g.deps[id], visited');
        if !reply.Accepted? {
          return;
        }
      }
      if action == "stop" && !force {
        var dependent := RunningDependent(g, managed, id, 0);
        if dependent.Some? {
          return DependentRunning(dependent.value), visited';
        }
      }
      if action != "start" && action != "stop" && action != "restart" {
        return UnsupportedAction, visited';
      }
      var outcome := env(|issued|);
      issued := issued + [Command(action, id)];
      managed := ManagedAfter(managed, action, id, outcome);
      reply := if outcome.Succeeds? then Accepted else CommandFailed(id);
    }

    /** The dependency loop of `control_component`. */
    method StartDependencies(env: Environment, deps: seq<Id>, visited: set<Id>)
      returns (reply: Reply, visited': set<Id>)
      requires g.WellFormed()
      modifies this
      ensures StartAll(g, env, deps, old(View(visited))) == Result(View(visited'), reply)
      decreases |g.deps.Keys - visited|, 1
    {
      reply, visited' := Accepted, visited;
      ghost var entered := View(visited);
      var k := 0;
      assert deps[0..] == deps;
      while k < |deps|
        invariant 0 <= k <= |deps| && visited <= visited' && reply.Accepted?
        invariant StartAll(g, env, deps[k..], View(visited')) == StartAll(g, env, deps, entered)
      {
        ghost var rest := deps[k..];
        assert rest[0] == deps[k] && rest[1..] == deps[k + 1..];
        Shrinks(g, visited, visited');
        reply, visited' := ControlComponent(env, deps[k], "start", false, visited');
        if !reply.Accepted? {
          return;
        }
        k := k + 1;
      }
    }
  }
}
