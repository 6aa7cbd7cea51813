/** The gateway as a concurrent protocol. Each critical section of the node is one event. The node's callbacks share
    one thread; every accepted goal has a thread of its own. A thread that decides to revoke the lease drops the mutex
    first and revokes whatever lease it finds later, so the decision and the revocation are two events: in between, a
    callback thread enters no other callback, while goal threads go on. The histories are what the proofs speak
    about. */
module LeaseProtocol {
  import opened Common
  import opened Interfaces
  import opened TeleopGateway

  /** A command the gateway accepted: under which lease (by number), when, and the limits then in force. */
  datatype Accepted = Accepted(lease: nat, command: TeleopCommand, at: nat, maxLinear: real, maxAngular: real)

  /** A message on the teleop velocity topic; `cause` indexes the accepted command it repeats. */
  datatype Published = Published(twist: Twist, stamp: nat, cause: Option<nat>)

  /** A message on the override topic, the clock when it was published, and the accepted command it repeats. */
  datatype Signal = Signal(data: bool, at: nat, cause: Option<nat>)

  /** The thread that carries out a revocation. */
  datatype Revoker = CallbackThread | GoalThread(index: nat)

  datatype World = World(
    now: nat, node: GatewayState,
    outstanding: seq<Goal>,      // admitted, not yet executed
    negotiating: seq<nat>,       // leases granted whose thread still waits for the supervisor's answer
    refused: seq<nat>,           // leases whose thread was refused the mode and has yet to revoke
    closing: Option<nat>,        // the lease released or found expired, which a callback has yet to revoke
    issued: seq<nat>,            // the clock reading in each lease id, in issue order
    accepted: seq<Accepted>,
    commands: seq<Published>, overrides: seq<Signal>, leases: seq<Lease>)

  datatype Event =
    | TimePassed(elapsed: nat)
    | GoalOffered(goal: Goal)
    | GoalExecuted(index: nat)
    | CommandReceived(command: TeleopCommand)
    | TimerFired(stamp: nat)     // the stamp is read before the section is entered
    | ModeAnswered(thread: nat, granted: bool)
    | ReleaseRequested(leaseId: string, controller: string)
    | LeaseRevoked(who: Revoker)
    | LeasePublished

  function Start(now: nat): (w: World) {
    World(now, INITIAL, [], [], [], None, [], [], [], [], [])
  }

  predicate IsCallback(e: Event) {
    e.GoalOffered? || e.CommandReceived? || e.TimerFired? || e.ReleaseRequested?
  }

  function Next(cfg: GatewayConfig, w: World, e: Event): (w': World)
    requires cfg.Valid()
  {
    if IsCallback(e) && w.closing.Some? then w else
    match e
    case TimePassed(elapsed) => w.(now := w.now + elapsed)
    case GoalOffered(goal) =>
      if Admits(cfg, w.node, w.now, goal) then
        w.(node := Admit(w.node, goal), outstanding := w.outstanding + [goal])
      else w
    case GoalExecuted(i) => if Executable(cfg, w, i) then Executed(cfg, w, i) else w
    case CommandReceived(m) =>
      w.(node := OnCommand(cfg, w.node, w.now, m),
         accepted := if AcceptsCommand(w.node, w.now, m) then w.accepted + [Record(w, m)] else w.accepted)
    case TimerFired(stamp) => if 1 <= stamp <= w.now then Ticked(w, stamp) else w
    case ModeAnswered(i, granted) =>
      if i >= |w.negotiating| then w else
      w.(negotiating := Without(w.negotiating, i),
         refused := if granted then w.refused else w.refused + [w.negotiating[i]])
    case ReleaseRequested(id, controller) =>
      if Releases(w.node, id, controller) then w.(closing := Some(w.node.counter)) else w
    case LeaseRevoked(who) => if DecidedLease(w, who).Some? then Revoked(w, who) else w
    case LeasePublished => w.(leases := w.leases + [w.node.lease])
  }

  function Without<T>(s: seq<T>, i: nat): (r: seq<T>)
    requires i < |s|
    ensures forall x :: x in r ==> x in s
  {
    s[..i] + s[i + 1..]
  }

  predicate Executable(cfg: GatewayConfig, w: World, i: nat) {
    i < |w.outstanding| && Acceptable(cfg, w.outstanding[i])
  }

  function Executed(cfg: GatewayConfig, w: World, i: nat): (w': World)
    requires cfg.Valid() && Executable(cfg, w, i)
  {
    var goal := w.outstanding[i];
    var node := Grant(cfg, w.node, w.now, goal);
    w.(node := node, outstanding := Without(w.outstanding, i), negotiating := w.negotiating + [node.counter],
       issued := if Renews(w.node, w.now, goal) then w.issued else w.issued + [w.now])
  }

  /** The lease that the revocation was decided for, if one is due. */
  function DecidedLease(w: World, who: Revoker): (lease: Option<nat>) {
    match who
    case CallbackThread => w.closing
    case GoalThread(i) => if i < |w.refused| then Some(w.refused[i]) else None
  }

  function Revoked(w: World, who: Revoker): (w': World)
    requires DecidedLease(w, who).Some?
  {
    var done := w.(node := Revoke(w.node, w.now));
    match who
    case CallbackThread => done.(closing := None)
    case GoalThread(i) => done.(refused := Without(w.refused, i))
  }

  function Record(w: World, m: TeleopCommand): (a: Accepted) {
    Accepted(w.node.counter, m, w.now, w.node.lease.maxLinear, w.node.lease.maxAngular)
  }

  function Ticked(w: World, stamp: nat): (w': World) {
    var cause := if CommandValid(w.node, w.now) && |w.accepted| > 0 then Some(|w.accepted| - 1) else None;
    w.(overrides := w.overrides + [Signal(TimerOverride(w.node, w.now), w.now, cause)],
       closing := if w.node.lease.active && Expired(w.node, w.now) then Some(w.node.counter) else w.closing,
       commands := if w.node.lease.active
                   then w.commands + [Published(TimerTwist(w.node, w.now), stamp, cause)] else w.commands)
  }

  /** Some event leads from state `k` of the list to the next. */
  ghost predicate MovesAt(cfg: GatewayConfig, ws: seq<World>, k: nat)
    requires cfg.Valid() && k < |ws| - 1
  {
    exists e :: ws[k + 1] == Next(cfg, ws[k], e)
  }

  /** The states of one run, from the start. */
  ghost predicate Behavior(cfg: GatewayConfig, ws: seq<World>)
    requires cfg.Valid()
  {
    && |ws| > 0 && (exists t :: ws[0] == Start(t))
    && (forall k: nat :: k < |ws| - 1 ==> MovesAt(cfg, ws, k))
  }

  function Last(ws: seq<World>): (w: World)
    requires |ws| > 0
  {
    ws[|ws| - 1]
  }

  /** A run continued by one event. */
  function Extend(cfg: GatewayConfig, ws: seq<World>, e: Event): (ws': seq<World>)
    requires cfg.Valid() && |ws| > 0
    ensures ws <= ws' && |ws'| == |ws| + 1 && Last(ws') == Next(cfg, Last(ws), e)
  {
    ws + [Next(cfg, Last(ws), e)]
  }

  lemma ExtendIsBehavior(cfg: GatewayConfig, ws: seq<World>, e: Event)
    requires cfg.Valid() && Behavior(cfg, ws)
    ensures Behavior(cfg, Extend(cfg, ws, e))
  {
    var all := Extend(cfg, ws, e);
    forall k: nat | k < |all| - 1
      ensures MovesAt(cfg, all, k)
    {
      if k < |ws| - 1 {
        assert MovesAt(cfg, ws, k);
        var f :| ws[k + 1] == Next(cfg, ws[k], f);
        assert all[k + 1] == Next(cfg, all[k], f);
      } else {
        assert all[k + 1] == Next(cfg, all[k], e);
      }
    }
  }

  // ----- lease identity

  function IdOf(w: World, lease: nat): (id: string)
    requires 1 <= lease <= |w.issued|
  {
    MakeLeaseId(w.issued[lease - 1], lease)
  }

  ghost predicate LeaseNumbered(w: World) {
    && |w.issued| == w.node.counter
    && (w.node.lease.active ==> w.node.counter > 0)
    && (w.node.counter > 0 ==> w.node.lease.id == IdOf(w, w.node.counter))
  }

  ghost predicate AcceptedUnderLease(w: World)
    requires LeaseNumbered(w)
  {
    forall i :: 0 <= i < |w.accepted| ==>
      var a := w.accepted[i];
      && 1 <= a.lease <= w.node.counter && a.command.leaseId == IdOf(w, a.lease)
      && (a.lease == w.node.counter ==>
            a.command.sequence <= w.node.lastSequence && a.command.controller == w.node.lease.controller)
  }

  /** Later under the same lease means the same controller and a larger sequence number. */
  predicate Succeeds(a: Accepted, b: Accepted) {
    a.lease <= b.lease &&
    (a.lease == b.lease ==>
       a.command.sequence < b.command.sequence && a.command.controller == b.command.controller)
  }

  ghost predicate AcceptedOrdered(w: World) {
    forall i, j :: 0 <= i < j < |w.accepted| ==> Succeeds(w.accepted[i], w.accepted[j])
  }

  ghost predicate IdentityInv(w: World) {
    LeaseNumbered(w) && AcceptedUnderLease(w) && AcceptedOrdered(w)
  }

  /** Nothing that identity depends on has changed, except that the lease may have ended. */
  ghost predicate SameIdentity(w: World, w': World) {
    && w'.issued == w.issued && w'.accepted == w.accepted && w'.node.counter == w.node.counter
    && w'.node.lastSequence == w.node.lastSequence && w'.node.lease.id == w.node.lease.id
    && w'.node.lease.controller == w.node.lease.controller && (w'.node.lease.active ==> w.node.lease.active)
  }

  lemma SameIdentityKeeps(w: World, w': World)
    requires IdentityInv(w) && SameIdentity(w, w')
    ensures IdentityInv(w')
  {
    assert forall k :: 1 <= k <= |w.issued| ==> IdOf(w', k) == IdOf(w, k);
  }

  lemma OthersKeepIdentity(cfg: GatewayConfig, w: World, e: Event)
    requires cfg.Valid() && !e.GoalExecuted? && !e.CommandReceived?
    ensures SameIdentity(w, Next(cfg, w, e))
  {
  }

  lemma GrantKeepsIdentity(cfg: GatewayConfig, w: World, i: nat)
    requires cfg.Valid() && IdentityInv(w) && Executable(cfg, w, i)
    ensures IdentityInv(Executed(cfg, w, i))
  {
    var w' := Executed(cfg, w, i);
    assert forall k :: 1 <= k <= |w.issued| ==> IdOf(w', k) == IdOf(w, k);
  }

  lemma CommandKeepsIdentity(cfg: GatewayConfig, w: World, m: TeleopCommand)
    requires cfg.Valid() && IdentityInv(w)
    ensures IdentityInv(Next(cfg, w, CommandReceived(m)))
  {
    var w' := Next(cfg, w, CommandReceived(m));
    assert forall k :: 1 <= k <= |w.issued| ==> IdOf(w', k) == IdOf(w, k);
  }

  lemma IdentityStep(cfg: GatewayConfig, w: World, e: Event)
    requires cfg.Valid() && IdentityInv(w)
    ensures IdentityInv(Next(cfg, w, e))
  {
    match e
    case GoalExecuted(i) =>
      if Executable(cfg, w, i) {
        GrantKeepsIdentity(cfg, w, i);
      }
    case CommandReceived(m) => CommandKeepsIdentity(cfg, w, m);
    case _ =>
      OthersKeepIdentity(cfg, w, e);
      SameIdentityKeeps(w, Next(cfg, w, e));
  }

  lemma {:induction false} IdentityHolds(cfg: GatewayConfig, ws: seq<World>, k: nat)
    requires cfg.Valid() && Behavior(cfg, ws) && k < |ws|
    ensures IdentityInv(ws[k])
  {
    if k > 0 {
      IdentityHolds(cfg, ws, k - 1);
      assert MovesAt(cfg, ws, k - 1);
      var e :| ws[k] == Next(cfg, ws[k - 1], e);
      IdentityStep(cfg, ws[k - 1], e);
    }
  }

  /** In every run, two accepted commands bearing the same lease id come from the same controller with strictly
      increasing sequence numbers, renewals included. */
  lemma SequencesIncreasePerLease(cfg: GatewayConfig, ws: seq<World>, k: nat, i: nat, j: nat)
    requires cfg.Valid() && Behavior(cfg, ws) && k < |ws| && i < j < |ws[k].accepted|
    requires ws[k].accepted[i].command.leaseId == ws[k].accepted[j].command.leaseId
    ensures ws[k].accepted[i].command.sequence < ws[k].accepted[j].command.sequence
    ensures ws[k].accepted[i].command.controller == ws[k].accepted[j].command.controller
  {
    IdentityHolds(cfg, ws, k);
    var w := ws[k];
    var a, b := w.accepted[i], w.accepted[j];
    assert Succeeds(a, b);
    LeaseIdsDistinct(w.issued[a.lease - 1], a.lease, w.issued[b.lease - 1], b.lease);
  }

  /** The lease numbered `lease` was issued and no longer entitles anyone: revoked, expired or superseded. */
  ghost predicate Retired(w: World, lease: nat) {
    1 <= lease <= |w.issued| && !(Live(w.node, w.now) && w.node.counter == lease)
  }

  /** From `w` to `w'` nothing was accepted under the retired lease. */
  ghost predicate NothingUnder(w: World, w': World, lease: nat)
    requires Retired(w, lease)
  {
    && Retired(w', lease) && IdOf(w', lease) == IdOf(w, lease) && w.accepted <= w'.accepted
    && (forall i :: |w.accepted| <= i < |w'.accepted| ==> w'.accepted[i].lease != lease)
  }

  lemma RetiredStays(cfg: GatewayConfig, w: World, e: Event, lease: nat)
    requires cfg.Valid() && IdentityInv(w) && Retired(w, lease)
    ensures NothingUnder(w, Next(cfg, w, e), lease)
  {
  }

  lemma NothingUnderLonger(w: World, mid: World, w': World, lease: nat)
    requires Retired(w, lease) && NothingUnder(w, mid, lease) && NothingUnder(mid, w', lease)
    ensures NothingUnder(w, w', lease)
  {
  }

  lemma {:induction false} RetiredForever(cfg: GatewayConfig, ws: seq<World>, k: nat, l: nat, lease: nat)
    requires cfg.Valid() && Behavior(cfg, ws) && k <= l < |ws| && Retired(ws[k], lease)
    ensures NothingUnder(ws[k], ws[l], lease)
    decreases l
  {
    if k < l {
      RetiredForever(cfg, ws, k, l - 1, lease);
      IdentityHolds(cfg, ws, l - 1);
      assert MovesAt(cfg, ws, l - 1);
      var e :| ws[l] == Next(cfg, ws[l - 1], e);
      RetiredStays(cfg, ws[l - 1], e, lease);
      NothingUnderLonger(ws[k], ws[l - 1], ws[l], lease);
    }
  }

  /** Once a lease is revoked, expired or superseded, no command accepted later in the run bears its id. */
  lemma RetiredLeaseNeverAccepted(cfg: GatewayConfig, ws: seq<World>, k: nat, l: nat, lease: nat, i: nat)
    requires cfg.Valid() && Behavior(cfg, ws) && k <= l < |ws| && Retired(ws[k], lease)
    requires |ws[k].accepted| <= i < |ws[l].accepted|
    ensures ws[l].accepted[i].command.leaseId != IdOf(ws[k], lease)
  {
    IdentityHolds(cfg, ws, l);
    RetiredForever(cfg, ws, k, l, lease);
    var w' := ws[l];
    var a := w'.accepted[i];
    if a.command.leaseId == IdOf(w', lease) {
      LeaseIdsDistinct(w'.issued[a.lease - 1], a.lease, w'.issued[lease - 1], lease);
      assert false;
    }
  }

  // ----- provenance of published velocities

  /** A published velocity repeats a deadman command accepted at most `commandTimeout` before its stamp. */
  predicate Explains(cfg: GatewayConfig, a: Accepted, twist: Twist, stamp: int) {
    && a.command.deadman && stamp <= a.at + cfg.commandTimeout
    && twist == Planar(Clamp(a.command.linear, -1.0, 1.0) * a.maxLinear,
                       Clamp(a.command.angular, -1.0, 1.0) * a.maxAngular)
  }

  /** While the deadman is held, the node's fields are those of the last accepted command. */
  ghost predicate CommandRemembered(cfg: GatewayConfig, w: World) {
    w.node.deadman ==>
      && |w.accepted| > 0
      && var last := w.accepted[|w.accepted| - 1];
      && last.command.deadman && last.lease == w.node.counter && (w.node.override ==> last.command.override)
      && w.node.commandDeadline <= last.at + cfg.commandTimeout
      && w.node.linear == Clamp(last.command.linear, -1.0, 1.0) && w.node.lease.maxLinear == last.maxLinear
      && w.node.angular == Clamp(last.command.angular, -1.0, 1.0) && w.node.lease.maxAngular == last.maxAngular
  }

  ghost predicate CommandExplained(cfg: GatewayConfig, accepted: seq<Accepted>, c: Published) {
    c.twist != ZERO ==>
      c.cause.Some? && c.cause.value < |accepted| && Explains(cfg, accepted[c.cause.value], c.twist, c.stamp)
  }

  /** An override signal repeats a deadman command with its override flag set, accepted at most `commandTimeout`
      before. */
  ghost predicate SignalExplained(cfg: GatewayConfig, accepted: seq<Accepted>, o: Signal) {
    o.data ==>
      && o.cause.Some? && o.cause.value < |accepted|
      && var a := accepted[o.cause.value];
         a.command.deadman && a.command.override && o.at <= a.at + cfg.commandTimeout
  }

  ghost predicate ProvenanceInv(cfg: GatewayConfig, w: World) {
    && CommandRemembered(cfg, w)
    && (forall o :: o in w.overrides ==> o.at <= w.now && SignalExplained(cfg, w.accepted, o))
    && (forall c :: c in w.commands ==> 1 <= c.stamp <= w.now && CommandExplained(cfg, w.accepted, c))
  }

  lemma RememberedStep(cfg: GatewayConfig, w: World, e: Event)
    requires cfg.Valid() && CommandRemembered(cfg, w)
    ensures CommandRemembered(cfg, Next(cfg, w, e))
  {
  }

  lemma TimerExplained(cfg: GatewayConfig, w: World, stamp: nat)
    requires CommandRemembered(cfg, w) && stamp <= w.now
    ensures var w' := Ticked(w, stamp);
            forall c :: c in w'.commands && c !in w.commands ==>
              c.stamp == stamp && CommandExplained(cfg, w'.accepted, c)
    ensures var w' := Ticked(w, stamp);
            forall o :: o in w'.overrides && o !in w.overrides ==> o.at == w.now && SignalExplained(cfg, w'.accepted, o)
  {
    if CommandValid(w.node, w.now) {
      var last := w.accepted[|w.accepted| - 1];
      assert Explains(cfg, last, TimerTwist(w.node, w.now), stamp);
    }
  }

  lemma ProvenanceStep(cfg: GatewayConfig, w: World, e: Event)
    requires cfg.Valid() && ProvenanceInv(cfg, w)
    ensures ProvenanceInv(cfg, Next(cfg, w, e))
    ensures Next(cfg, w, e).now >= w.now && w.accepted <= Next(cfg, w, e).accepted
    ensures w.commands <= Next(cfg, w, e).commands && w.overrides <= Next(cfg, w, e).overrides
  {
    var w' := Next(cfg, w, e);
    RememberedStep(cfg, w, e);
    if e.TimerFired? && 1 <= e.stamp <= w.now {
      TimerExplained(cfg, w, e.stamp);
    }
    forall o | o in w'.overrides
      ensures o.at <= w'.now && SignalExplained(cfg, w'.accepted, o)
    {
      if o in w.overrides {
        assert SignalExplained(cfg, w.accepted, o);
      }
    }
    forall c | c in w'.commands
      ensures 1 <= c.stamp <= w'.now && CommandExplained(cfg, w'.accepted, c)
    {
      if c in w.commands {
        assert CommandExplained(cfg, w.accepted, c);
      }
    }
  }

  lemma {:induction false} ProvenanceHolds(cfg: GatewayConfig, ws: seq<World>, k: nat)
    requires cfg.Valid() && Behavior(cfg, ws) && k < |ws|
    ensures ProvenanceInv(cfg, ws[k])
  {
    if k > 0 {
      ProvenanceHolds(cfg, ws, k - 1);
      assert MovesAt(cfg, ws, k - 1);
      var e :| ws[k] == Next(cfg, ws[k - 1], e);
      ProvenanceStep(cfg, ws[k - 1], e);
    }
  }

  /** From `w` on, every non-zero velocity published repeats a command of a lease not retired at `w`. */
  ghost predicate OnlyUnretired(w: World, w': World) {
    && w.commands <= w'.commands && w.accepted <= w'.accepted
    && (forall i :: |w.commands| <= i < |w'.commands| && w'.commands[i].twist != ZERO ==>
          var cause := w'.commands[i].cause;
          cause.Some? && cause.value < |w'.accepted| && !Retired(w, w'.accepted[cause.value].lease))
  }

  /** What the timer publishes with a non-zero velocity comes from the live lease. */
  lemma TimerUsesLiveLease(cfg: GatewayConfig, w: World, stamp: nat)
    requires CommandRemembered(cfg, w) && TimerTwist(w.node, w.now) != ZERO
    ensures Live(w.node, w.now) && |w.accepted| > 0 && w.accepted[|w.accepted| - 1].lease == w.node.counter
    ensures Ticked(w, stamp).commands ==
            w.commands + [Published(TimerTwist(w.node, w.now), stamp, Some(|w.accepted| - 1))]
  {
  }

  lemma UnretiredStep(cfg: GatewayConfig, w0: World, w: World, e: Event)
    requires cfg.Valid() && ProvenanceInv(cfg, w) && OnlyUnretired(w0, w)
    requires Live(w.node, w.now) ==> !Retired(w0, w.node.counter)
    ensures OnlyUnretired(w0, Next(cfg, w, e))
  {
    ProvenanceStep(cfg, w, e);
    if e.TimerFired? && TimerTwist(w.node, w.now) != ZERO {
      TimerUsesLiveLease(cfg, w, e.stamp);
    }
  }

  /** A lease that is live now was not retired before. */
  lemma LiveWasNotRetired(cfg: GatewayConfig, ws: seq<World>, i: nat, j: nat)
    requires cfg.Valid() && Behavior(cfg, ws) && i <= j < |ws|
    ensures Live(ws[j].node, ws[j].now) ==> !Retired(ws[i], ws[j].node.counter)
  {
    if Retired(ws[i], ws[j].node.counter) {
      RetiredForever(cfg, ws, i, j, ws[j].node.counter);
    }
  }

  /** Once a lease is revoked, expired or superseded, no velocity published later in the run repeats one of its
      commands. */
  lemma {:induction false} RetiredNeverPublished(cfg: GatewayConfig, ws: seq<World>, i: nat, j: nat)
    requires cfg.Valid() && Behavior(cfg, ws) && i <= j < |ws|
    ensures OnlyUnretired(ws[i], ws[j])
    decreases j
  {
    if i < j {
      RetiredNeverPublished(cfg, ws, i, j - 1);
      ProvenanceHolds(cfg, ws, j - 1);
      LiveWasNotRetired(cfg, ws, i, j - 1);
      assert MovesAt(cfg, ws, j - 1);
      var e :| ws[j] == Next(cfg, ws[j - 1], e);
      UnretiredStep(cfg, ws[i], ws[j - 1], e);
    }
  }

  // ----- revocation

  /** Revocations and negotiations are about leases that were issued. */
  ghost predicate DecisionInv(w: World) {
    && (w.closing.Some? ==> 1 <= w.closing.value <= w.node.counter)
    && (forall n :: n in w.refused ==> 1 <= n <= w.node.counter)
    && (forall n :: n in w.negotiating ==> 1 <= n <= w.node.counter)
  }

  lemma DecisionStep(cfg: GatewayConfig, w: World, e: Event)
    requires cfg.Valid() && LeaseNumbered(w) && DecisionInv(w)
    ensures DecisionInv(Next(cfg, w, e))
  {
    assert forall i :: 0 <= i < |w.negotiating| ==> w.negotiating[i] in w.negotiating;
  }

  lemma {:induction false} DecisionHolds(cfg: GatewayConfig, ws: seq<World>, k: nat)
    requires cfg.Valid() && Behavior(cfg, ws) && k < |ws|
    ensures DecisionInv(ws[k])
  {
    if k > 0 {
      IdentityHolds(cfg, ws, k - 1);
      DecisionHolds(cfg, ws, k - 1);
      assert MovesAt(cfg, ws, k - 1);
      var e :| ws[k] == Next(cfg, ws[k - 1], e);
      DecisionStep(cfg, ws[k - 1], e);
    }
  }

  /** Carrying out the revocation in `w` ends a lease other than the one it was decided for. */
  predicate EndsAnother(cfg: GatewayConfig, w: World, who: Revoker)
    requires cfg.Valid() && DecidedLease(w, who).Some?
  {
    w.node.lease.active && !Next(cfg, w, LeaseRevoked(who)).node.lease.active &&
    w.node.counter != DecidedLease(w, who).value
  }

  /** From `w` to `w'` a thread commits itself to one lease: a callback by deciding to end it, a goal thread by
      granting it. */
  ghost predicate Commits(w: World, w': World, who: Revoker, lease: nat) {
    match who
    case CallbackThread => w.closing.None? && w'.closing == Some(lease)
    case GoalThread(_) => w'.negotiating == w.negotiating + [lease]
  }

  lemma CommitmentNamesCurrent(cfg: GatewayConfig, w: World, e: Event, who: Revoker, lease: nat)
    requires cfg.Valid() && IdentityInv(w) && Commits(w, Next(cfg, w, e), who, lease)
    ensures lease == |Next(cfg, w, e).issued|
  {
    var w' := Next(cfg, w, e);
    IdentityStep(cfg, w, e);
    if who.GoalThread? {
      assert |w'.negotiating| == |w.negotiating| + 1 && w'.negotiating[|w.negotiating|] == lease;
    }
  }

  /** A commitment to this lease was made before state `j`. */
  ghost predicate Committed(ws: seq<World>, j: nat, who: Revoker, lease: nat)
    requires j < |ws|
  {
    exists i: nat :: i < j && Commits(ws[i], ws[i + 1], who, lease)
  }

  lemma CommittedStays(ws: seq<World>, j: nat, who: Revoker, lease: nat)
    requires j + 1 < |ws|
    requires Committed(ws, j, who, lease) || Commits(ws[j], ws[j + 1], who, lease)
    ensures Committed(ws, j + 1, who, lease)
  {
  }

  /** Every revocation due, and every goal thread that may come to one, has committed itself before. */
  lemma {:induction false} EveryRevocationCommitted(cfg: GatewayConfig, ws: seq<World>, j: nat)
    requires cfg.Valid() && Behavior(cfg, ws) && j < |ws|
    ensures ws[j].closing.Some? ==> Committed(ws, j, CallbackThread, ws[j].closing.value)
    ensures forall n :: n in ws[j].negotiating || n in ws[j].refused ==> Committed(ws, j, GoalThread(0), n)
  {
    if j > 0 {
      var w, w' := ws[j - 1], ws[j];
      EveryRevocationCommitted(cfg, ws, j - 1);
      assert MovesAt(cfg, ws, j - 1);
      var e :| w' == Next(cfg, w, e);
      if w'.closing.Some? {
        CommittedStays(ws, j - 1, CallbackThread, w'.closing.value);
      }
      forall n | n in w'.negotiating || n in w'.refused
        ensures Committed(ws, j, GoalThread(0), n)
      {
        GoalThreadsStep(cfg, w, e, n);
        CommittedStays(ws, j - 1, GoalThread(0), n);
      }
    }
  }

  lemma GoalThreadsStep(cfg: GatewayConfig, w: World, e: Event, n: nat)
    requires cfg.Valid()
    requires n in Next(cfg, w, e).negotiating || n in Next(cfg, w, e).refused
    ensures n in w.negotiating || n in w.refused || Commits(w, Next(cfg, w, e), GoalThread(0), n)
  {
    if e.ModeAnswered? && e.thread < |w.negotiating| {
      assert w.negotiating[e.thread] in w.negotiating;
    }
  }

  /** Exactly when a revocation hits the wrong lease, whether decided by a release, by an expiry or because the mode
      was refused: when a lease was issued after the thread committed itself (at step `i`) and is still active. */
  lemma RevocationEndsAnother(cfg: GatewayConfig, ws: seq<World>, i: nat, j: nat, who: Revoker)
    requires cfg.Valid() && Behavior(cfg, ws) && i < j < |ws| && DecidedLease(ws[j], who).Some?
    requires Commits(ws[i], ws[i + 1], who, DecidedLease(ws[j], who).value)
    ensures EndsAnother(cfg, ws[j], who) <==> ws[j].node.lease.active && |ws[j].issued| > |ws[i + 1].issued|
  {
    assert MovesAt(cfg, ws, i);
    var e :| ws[i + 1] == Next(cfg, ws[i], e);
    IdentityHolds(cfg, ws, i);
    CommitmentNamesCurrent(cfg, ws[i], e, who, DecidedLease(ws[j], who).value);
    LaterLeaseIsAnother(cfg, ws, j, who);
  }

  /** The same at one state: by the number of leases issued. */
  lemma LaterLeaseIsAnother(cfg: GatewayConfig, ws: seq<World>, j: nat, who: Revoker)
    requires cfg.Valid() && Behavior(cfg, ws) && j < |ws| && DecidedLease(ws[j], who).Some?
    ensures EndsAnother(cfg, ws[j], who) <==>
            ws[j].node.lease.active && |ws[j].issued| > DecidedLease(ws[j], who).value
  {
    IdentityHolds(cfg, ws, j);
    DecisionHolds(cfg, ws, j);
    if who.GoalThread? {
      assert ws[j].refused[who.index] in ws[j].refused;
    }
  }

  // ----- what a revocation due can come to

  /** `more` continues the run without carrying out the callback's revocation. */
  ghost predicate Withholds(cfg: GatewayConfig, ws: seq<World>, more: seq<World>)
    requires cfg.Valid() && |ws| > 0
  {
    && Behavior(cfg, more) && ws <= more
    && (forall k :: |ws| - 1 <= k < |more| ==> more[k].closing == Last(ws).closing)
  }

  ghost predicate CallbackCanEndAnother(cfg: GatewayConfig, ws: seq<World>)
    requires cfg.Valid() && |ws| > 0 && Last(ws).closing.Some?
  {
    exists more :: Withholds(cfg, ws, more) && EndsAnother(cfg, Last(more), CallbackThread)
  }

  /** Nothing is left that could issue a lease, and no later lease is active. */
  predicate Harmless(w: World, lease: nat) {
    w.outstanding == [] && (w.node.lease.active ==> |w.issued| <= lease)
  }

  lemma HarmlessStep(cfg: GatewayConfig, w: World, e: Event, lease: nat)
    requires cfg.Valid() && Harmless(w, lease) && w.closing == Some(lease)
    ensures Harmless(Next(cfg, w, e), lease)
  {
  }

  lemma {:induction false} HarmlessStays(cfg: GatewayConfig, ws: seq<World>, more: seq<World>, k: nat)
    requires cfg.Valid() && |ws| > 0 && Withholds(cfg, ws, more) && |ws| - 1 <= k < |more|
    requires Last(ws).closing.Some? && Harmless(Last(ws), Last(ws).closing.value)
    ensures Harmless(more[k], Last(ws).closing.value)
  {
    if k >= |ws| {
      HarmlessStays(cfg, ws, more, k - 1);
      assert MovesAt(cfg, more, k - 1);
      var e :| more[k] == Next(cfg, more[k - 1], e);
      HarmlessStep(cfg, more[k - 1], e, Last(ws).closing.value);
    }
  }

  /** The time until the current lease has run out. */
  function UntilExpiry(w: World): (wait: nat) {
    if w.node.leaseDeadline > w.now then w.node.leaseDeadline - w.now else 0
  }

  /** Let the lease run out, then let the oldest goal be granted one. */
  function Regrant(cfg: GatewayConfig, ws: seq<World>): (more: seq<World>)
    requires cfg.Valid() && |ws| > 0
    ensures ws <= more && |more| == |ws| + 2
  {
    Extend(cfg, Extend(cfg, ws, TimePassed(UntilExpiry(Last(ws)))), GoalExecuted(0))
  }

  lemma RegrantIssues(cfg: GatewayConfig, ws: seq<World>)
    requires cfg.Valid() && Behavior(cfg, ws) && |Last(ws).outstanding| > 0
    ensures var more := Regrant(cfg, ws);
            && Behavior(cfg, more) && Live(Last(more).node, Last(more).now)
            && |Last(more).issued| == |Last(ws).issued| + 1
    ensures forall k :: |ws| - 1 <= k < |ws| + 2 ==>
              Regrant(cfg, ws)[k].closing == Last(ws).closing && Regrant(cfg, ws)[k].refused == Last(ws).refused
  {
    var rested := Extend(cfg, ws, TimePassed(UntilExpiry(Last(ws))));
    ExtendIsBehavior(cfg, ws, TimePassed(UntilExpiry(Last(ws))));
    ExtendIsBehavior(cfg, rested, GoalExecuted(0));
    SlotHolds(cfg, rested, |rested| - 1);
    var u := Last(rested);
    assert !Live(u.node, u.now) && u.outstanding[0] in u.outstanding;
    var more := Regrant(cfg, ws);
    assert more[|ws| - 1] == Last(ws) && more[|ws|] == u && more[|ws| + 1] == Last(more);
  }

  /** A release or an expiry not yet carried out can still come to end another lease if and only if a goal is
      outstanding, or a later lease is already active. */
  lemma CallbackEndsAnotherIff(cfg: GatewayConfig, ws: seq<World>)
    requires cfg.Valid() && Behavior(cfg, ws) && Last(ws).closing.Some?
    ensures CallbackCanEndAnother(cfg, ws) <==>
            Last(ws).outstanding != [] ||
            (Last(ws).node.lease.active && |Last(ws).issued| > Last(ws).closing.value)
  {
    if Last(ws).outstanding != [] {
      var more := Regrant(cfg, ws);
      RegrantIssues(cfg, ws);
      IdentityHolds(cfg, ws, |ws| - 1);
      DecisionHolds(cfg, ws, |ws| - 1);
      LaterLeaseIsAnother(cfg, more, |more| - 1, CallbackThread);
      assert Withholds(cfg, ws, more) && EndsAnother(cfg, Last(more), CallbackThread);
    } else if !Harmless(Last(ws), Last(ws).closing.value) {
      LaterLeaseIsAnother(cfg, ws, |ws| - 1, CallbackThread);
      assert Withholds(cfg, ws, ws) && EndsAnother(cfg, Last(ws), CallbackThread);
    } else {
      forall more | Withholds(cfg, ws, more)
        ensures !EndsAnother(cfg, Last(more), CallbackThread)
      {
        HarmlessStays(cfg, ws, more, |more| - 1);
        LaterLeaseIsAnother(cfg, more, |more| - 1, CallbackThread);
      }
    }
  }

  /** Let a callback finish its revocation, if one is due. */
  function Settle(cfg: GatewayConfig, ws: seq<World>): (more: seq<World>)
    requires cfg.Valid() && |ws| > 0
    ensures ws <= more && |more| == |ws| + 1
  {
    Extend(cfg, ws, LeaseRevoked(CallbackThread))
  }

  lemma SettleFrees(cfg: GatewayConfig, ws: seq<World>)
    requires cfg.Valid() && Behavior(cfg, ws)
    ensures Behavior(cfg, Settle(cfg, ws))
    ensures var w, w' := Last(ws), Last(Settle(cfg, ws));
            && w'.closing.None? && w'.outstanding == w.outstanding && w'.refused == w.refused
            && w'.issued == w.issued && w'.now == w.now && w'.node.pending == w.node.pending
  {
    ExtendIsBehavior(cfg, ws, LeaseRevoked(CallbackThread));
  }

  function Rival(cfg: GatewayConfig, controller: string): (g: Goal) {
    Goal(controller + "'", "rival", false, cfg.minimumLease, Finite(1.0), Finite(1.0))
  }

  /** Finish a callback's revocation, let the lease run out, and have a goal outstanding: a rival's if there was none. */
  function Supersede(cfg: GatewayConfig, ws: seq<World>): (more: seq<World>)
    requires cfg.Valid() && |ws| > 0
    ensures ws <= more && |more| == |ws| + 3
  {
    var settled := Settle(cfg, ws);
    var rested := Extend(cfg, settled, TimePassed(UntilExpiry(Last(settled))));
    Extend(cfg, rested, GoalOffered(Rival(cfg, "")))
  }

  lemma SupersedeOffers(cfg: GatewayConfig, ws: seq<World>)
    requires cfg.Valid() && Behavior(cfg, ws)
    ensures var more := Supersede(cfg, ws);
            && Behavior(cfg, more) && |Last(more).outstanding| > 0 && Last(more).issued == Last(ws).issued
    ensures forall k :: |ws| - 1 <= k < |ws| + 3 ==> Supersede(cfg, ws)[k].refused == Last(ws).refused
  {
    var settled := Settle(cfg, ws);
    var wait := TimePassed(UntilExpiry(Last(settled)));
    var rested := Extend(cfg, settled, wait);
    SettleFrees(cfg, ws);
    ExtendIsBehavior(cfg, settled, wait);
    ExtendIsBehavior(cfg, rested, GoalOffered(Rival(cfg, "")));
    SlotHolds(cfg, rested, |rested| - 1);
    var more := Supersede(cfg, ws);
    assert !Live(Last(rested).node, Last(rested).now) && Acceptable(cfg, Rival(cfg, ""));
    assert more[|ws| - 1] == Last(ws) && more[|ws|] == Last(settled);
    assert more[|ws| + 1] == Last(rested) && more[|ws| + 2] == Last(more);
  }

  /** A goal thread that was refused the mode can always come to end another lease: every run with such a thread has
      a continuation in which it has not moved and would end a live lease issued later. */
  lemma RefusalCanEndAnother(cfg: GatewayConfig, ws: seq<World>, i: nat)
    requires cfg.Valid() && Behavior(cfg, ws) && i < |Last(ws).refused|
    ensures var more := Regrant(cfg, Supersede(cfg, ws));
            && ws <= more && Behavior(cfg, more)
            && (forall k :: |ws| - 1 <= k < |more| ==> more[k].refused == Last(ws).refused)
            && Live(Last(more).node, Last(more).now) && EndsAnother(cfg, Last(more), GoalThread(i))
  {
    SupersedeOffers(cfg, ws);
    RegrantIssues(cfg, Supersede(cfg, ws));
    var offered, more := Supersede(cfg, ws), Regrant(cfg, Supersede(cfg, ws));
    forall k | |ws| - 1 <= k < |more|
      ensures more[k].refused == Last(ws).refused
    {
      if k < |offered| {
        assert more[k] == offered[k];
      }
    }
    IdentityHolds(cfg, ws, |ws| - 1);
    DecisionHolds(cfg, ws, |ws| - 1);
    assert Last(ws).refused[i] in Last(ws).refused;
    LaterLeaseIsAnother(cfg, more, |more| - 1, GoalThread(i));
  }

  // ----- exclusivity

  /** Executing this goal would take the vehicle from another controller's unexpired lease. */
  predicate Displaces(w: World, goal: Goal) {
    Live(w.node, w.now) && w.node.lease.controller != goal.controller
  }

  /** The pending slot vouches for its controller: nobody else holds a live lease while it is set. */
  ghost predicate SlotInv(cfg: GatewayConfig, w: World) {
    && (w.node.pending != "" ==> !(Live(w.node, w.now) && w.node.lease.controller != w.node.pending))
    && (forall g :: g in w.outstanding ==> Acceptable(cfg, g))
    && (w.node.pending != "" ==> exists g :: g in w.outstanding && g.controller == w.node.pending)
  }

  lemma SlotStep(cfg: GatewayConfig, w: World, e: Event)
    requires cfg.Valid() && SlotInv(cfg, w)
    ensures SlotInv(cfg, Next(cfg, w, e))
  {
    var w' := Next(cfg, w, e);
    if e.GoalOffered? && w.closing.None? && Admits(cfg, w.node, w.now, e.goal) {
      assert w'.outstanding[|w.outstanding|] == e.goal;
    }
  }

  lemma {:induction false} SlotHolds(cfg: GatewayConfig, ws: seq<World>, k: nat)
    requires cfg.Valid() && Behavior(cfg, ws) && k < |ws|
    ensures SlotInv(cfg, ws[k])
  {
    if k > 0 {
      SlotHolds(cfg, ws, k - 1);
      assert MovesAt(cfg, ws, k - 1);
      var e :| ws[k] == Next(cfg, ws[k - 1], e);
      SlotStep(cfg, ws[k - 1], e);
    }
  }

  /** No controller has two admitted goals waiting to be executed. */
  ghost predicate OneGoalEach(goals: seq<Goal>) {
    forall i, j :: 0 <= i < j < |goals| ==> goals[i].controller != goals[j].controller
  }

  ghost predicate NeverOverlapping(ws: seq<World>) {
    forall k :: 0 <= k < |ws| ==> OneGoalEach(ws[k].outstanding)
  }

  lemma OverlapDetected(goals: seq<Goal>, goal: Goal)
    requires |goals| == 1 && goals[0].controller == goal.controller
    ensures !OneGoalEach(goals + [goal])
  {
    var both := goals + [goal];
    assert both[0].controller == both[1].controller;
  }

  /** At most one goal is outstanding, and it owns the pending slot. */
  ghost predicate SlotOwned(w: World) {
    |w.outstanding| <= 1 &&
    forall g :: g in w.outstanding ==> g.controller == w.node.pending && g.controller != ""
  }

  lemma SlotOwnedStep(cfg: GatewayConfig, w: World, e: Event)
    requires cfg.Valid() && SlotInv(cfg, w) && SlotOwned(w) && OneGoalEach(Next(cfg, w, e).outstanding)
    ensures SlotOwned(Next(cfg, w, e))
  {
    if e.GoalOffered? && |w.outstanding| == 1 && w.outstanding[0].controller == e.goal.controller {
      OverlapDetected(w.outstanding, e.goal);
    }
  }

  lemma {:induction false} SlotStaysOwned(cfg: GatewayConfig, ws: seq<World>, k: nat)
    requires cfg.Valid() && Behavior(cfg, ws) && NeverOverlapping(ws) && k < |ws|
    ensures SlotOwned(ws[k])
  {
    if k > 0 {
      SlotStaysOwned(cfg, ws, k - 1);
      SlotHolds(cfg, ws, k - 1);
      assert MovesAt(cfg, ws, k - 1);
      var e :| ws[k] == Next(cfg, ws[k - 1], e);
      SlotOwnedStep(cfg, ws[k - 1], e);
    }
  }

  /** Lease exclusivity: in every interleaving in which no controller has two admitted goals at once, executing
      an admitted goal never replaces another controller's active, unexpired lease. */
  lemma ExecutionNeverDisplaces(cfg: GatewayConfig, ws: seq<World>, k: nat, i: nat)
    requires cfg.Valid() && Behavior(cfg, ws) && NeverOverlapping(ws)
    requires k < |ws| && i < |ws[k].outstanding|
    ensures Executable(cfg, ws[k], i) && !Displaces(ws[k], ws[k].outstanding[i])
  {
    SlotHolds(cfg, ws, k);
    SlotStaysOwned(cfg, ws, k);
    assert ws[k].outstanding[i] in ws[k].outstanding;
  }

  /** Without any hypothesis: a goal that still owns the pending slot when it executes displaces nobody. */
  lemma SlotOwnerNeverDisplaces(cfg: GatewayConfig, ws: seq<World>, k: nat, i: nat)
    requires cfg.Valid() && Behavior(cfg, ws) && k < |ws| && i < |ws[k].outstanding|
    requires ws[k].outstanding[i].controller == ws[k].node.pending
    ensures !Displaces(ws[k], ws[k].outstanding[i])
  {
    SlotHolds(cfg, ws, k);
    assert ws[k].outstanding[i] in ws[k].outstanding;
  }

  /** Finish a callback's revocation, execute one goal and release its lease. */
  function Turnover(cfg: GatewayConfig, ws: seq<World>): (more: seq<World>)
    requires cfg.Valid() && |ws| > 0
    ensures ws <= more && |more| > 0
  {
    var granted := Extend(cfg, Settle(cfg, ws), GoalExecuted(0));
    var lease := Last(granted).node.lease;
    Settle(cfg, Extend(cfg, granted, ReleaseRequested(lease.id, lease.controller)))
  }

  /** After that the slot and the lease are both open. */
  lemma TurnoverOpens(cfg: GatewayConfig, ws: seq<World>)
    requires cfg.Valid() && Behavior(cfg, ws) && |Last(ws).outstanding| > 0
    ensures var more := Turnover(cfg, ws);
            && Behavior(cfg, more) && Last(more).outstanding == Last(ws).outstanding[1..]
            && Last(more).node.pending == "" && !Last(more).node.lease.active && Last(more).closing.None?
  {
    var settled := Settle(cfg, ws);
    var granted := Extend(cfg, settled, GoalExecuted(0));
    var lease := Last(granted).node.lease;
    var released := Extend(cfg, granted, ReleaseRequested(lease.id, lease.controller));
    SettleFrees(cfg, ws);
    SlotHolds(cfg, settled, |settled| - 1);
    var u := Last(settled);
    assert u.outstanding[0] in u.outstanding;
    assert u.outstanding[..0] + u.outstanding[1..] == u.outstanding[1..];
    ExtendIsBehavior(cfg, settled, GoalExecuted(0));
    ExtendIsBehavior(cfg, granted, ReleaseRequested(lease.id, lease.controller));
    assert Last(released).closing.Some?;
    SettleFrees(cfg, released);
  }

  /** Turn one goal over, then admit and execute a rival. */
  function Takeover(cfg: GatewayConfig, ws: seq<World>, rival: Goal): (more: seq<World>)
    requires cfg.Valid() && |ws| > 0
    ensures ws <= more && |more| > 0
  {
    var open := Turnover(cfg, ws);
    Extend(cfg, Extend(cfg, open, GoalOffered(rival)), GoalExecuted(|Last(open).outstanding|))
  }

  /** Then a rival is admitted, executes and holds a live lease. */
  lemma RivalTakesOver(cfg: GatewayConfig, w: World, rival: Goal)
    requires cfg.Valid() && Acceptable(cfg, rival)
    requires w.node.pending == "" && !w.node.lease.active && w.closing.None?
    ensures var w4 := Next(cfg, Next(cfg, w, GoalOffered(rival)), GoalExecuted(|w.outstanding|));
            w4.outstanding == w.outstanding && Live(w4.node, w4.now) && w4.node.lease.controller == rival.controller
  {
    var w3 := Next(cfg, w, GoalOffered(rival));
    var n := |w.outstanding|;
    assert w3.outstanding == w.outstanding + [rival];
    assert w3.outstanding[..n] + w3.outstanding[n + 1..] == w.outstanding;
  }

  /** The hypothesis is tight: every run that reaches two outstanding goals has a continuation after which
      executing the later one displaces a live lease of someone else. */
  lemma OverlapDisplaces(cfg: GatewayConfig, ws: seq<World>, i: nat)
    requires cfg.Valid() && Behavior(cfg, ws) && 0 < i < |Last(ws).outstanding|
    ensures var goal := Last(ws).outstanding[i];
            var more := Takeover(cfg, ws, Rival(cfg, goal.controller));
            Behavior(cfg, more) && goal in Last(more).outstanding && Displaces(Last(more), goal)
  {
    var w := Last(ws);
    var rival := Rival(cfg, w.outstanding[i].controller);
    var open := Turnover(cfg, ws);
    TurnoverOpens(cfg, ws);
    RivalTakesOver(cfg, Last(open), rival);
    ExtendIsBehavior(cfg, open, GoalOffered(rival));
    ExtendIsBehavior(cfg, Extend(cfg, open, GoalOffered(rival)), GoalExecuted(|Last(open).outstanding|));
    assert w.outstanding[1..][i - 1] == w.outstanding[i];
    assert |rival.controller| == |w.outstanding[i].controller| + 1;
  }

  // ----- the failing states are reached

  /** Any acceptable goal offered twice at once is admitted twice. */
  lemma OverlapReached(cfg: GatewayConfig, t: nat, goal: Goal)
    requires cfg.Valid() && Acceptable(cfg, goal)
    ensures var ws := Extend(cfg, Extend(cfg, [Start(t)], GoalOffered(goal)), GoalOffered(goal));
            Behavior(cfg, ws) && Last(ws).outstanding == [goal, goal]
  {
    ExtendIsBehavior(cfg, [Start(t)], GoalOffered(goal));
    ExtendIsBehavior(cfg, Extend(cfg, [Start(t)], GoalOffered(goal)), GoalOffered(goal));
  }

  function Granted(cfg: GatewayConfig, t: nat, goal: Goal): (ws: seq<World>)
    requires cfg.Valid()
    ensures |ws| == 3
  {
    Extend(cfg, Extend(cfg, [Start(t)], GoalOffered(goal)), GoalExecuted(0))
  }

  lemma GrantedRuns(cfg: GatewayConfig, t: nat, goal: Goal)
    requires cfg.Valid() && Acceptable(cfg, goal)
    ensures var w := Last(Granted(cfg, t, goal));
            && Behavior(cfg, Granted(cfg, t, goal)) && Live(w.node, w.now) && w.node.lease.controller == goal.controller
            && w.outstanding == [] && w.closing.None? && w.negotiating == [1] && w.refused == [] && w.node.counter == 1
            && w.node.pending == "" && w.node.lastSequence == 0 && w.now == t && w.overrides == []
            && Granted(cfg, t, goal)[0] == Start(t)
  {
    var offered := Extend(cfg, [Start(t)], GoalOffered(goal));
    ExtendIsBehavior(cfg, [Start(t)], GoalOffered(goal));
    ExtendIsBehavior(cfg, offered, GoalExecuted(0));
    assert Last(offered).outstanding == [goal];
  }

  lemma RenewalThenRelease(cfg: GatewayConfig, w: World, goal: Goal)
    requires cfg.Valid() && Acceptable(cfg, goal) && w.node.lease.active && w.node.lease.controller == goal.controller
    requires w.node.pending == "" && w.outstanding == [] && w.closing.None?
    ensures var w1 := Next(cfg, w, GoalOffered(goal));
            var w2 := Next(cfg, w1, ReleaseRequested(w1.node.lease.id, goal.controller));
            w2.outstanding == [goal] && w2.closing == Some(w.node.counter)
  {
  }

  /** A holder that asks for renewal and then releases leaves a revocation due with a goal outstanding. */
  lemma CallbackRevocationReached(cfg: GatewayConfig, t: nat, goal: Goal)
    requires cfg.Valid() && Acceptable(cfg, goal)
    ensures var renewing := Extend(cfg, Granted(cfg, t, goal), GoalOffered(goal));
            var ws := Extend(cfg, renewing, ReleaseRequested(Last(renewing).node.lease.id, goal.controller));
            && Behavior(cfg, ws) && Last(ws).closing == Some(1) && Last(ws).outstanding == [goal]
            && CallbackCanEndAnother(cfg, ws)
  {
    GrantedRuns(cfg, t, goal);
    var renewing := Extend(cfg, Granted(cfg, t, goal), GoalOffered(goal));
    var release := ReleaseRequested(Last(renewing).node.lease.id, goal.controller);
    RenewalThenRelease(cfg, Last(Granted(cfg, t, goal)), goal);
    ExtendIsBehavior(cfg, Granted(cfg, t, goal), GoalOffered(goal));
    ExtendIsBehavior(cfg, renewing, release);
    CallbackEndsAnotherIff(cfg, Extend(cfg, renewing, release));
  }

  /** A goal thread refused the mode is reached for any acceptable goal. */
  lemma RefusalReached(cfg: GatewayConfig, t: nat, goal: Goal)
    requires cfg.Valid() && Acceptable(cfg, goal)
    ensures var ws := Extend(cfg, Granted(cfg, t, goal), ModeAnswered(0, false));
            Behavior(cfg, ws) && Last(ws).refused == [1]
  {
    GrantedRuns(cfg, t, goal);
    ExtendIsBehavior(cfg, Granted(cfg, t, goal), ModeAnswered(0, false));
  }
}
