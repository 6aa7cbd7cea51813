/** What the gateway does, told from its history alone: an observer that keeps the last grant and the claims since, next
    to the node, and exact theorems about admission, granting, acceptance and publication in its terms. */
module GatewayHistory {
  import opened Common
  import opened Interfaces
  import opened TeleopGateway
  import L = LeaseProtocol

  /** The goal executed last, when, and how many commands had been accepted by then. */
  datatype Granted = Granted(goal: Goal, at: nat, before: nat)

  /** `claims` are the controllers of the goals admitted since the last execution. */
  datatype History = History(grant: Option<Granted>, ended: bool, claims: seq<string>)

  datatype Observed = Observed(world: L.World, history: History)

  function Note(h: History, w: L.World, e: L.Event, w': L.World): (h': History) {
    match e
    case GoalOffered(goal) =>
      if |w'.outstanding| > |w.outstanding| then h.(claims := h.claims + [goal.controller]) else h
    case GoalExecuted(i) =>
      if i < |w.outstanding| then History(Some(Granted(w.outstanding[i], w.now, |w.accepted|)), false, []) else h
    case LeaseRevoked(who) =>
      if h.grant.Some? && L.DecidedLease(w, who).Some? then h.(ended := true) else h
    case _ => h
  }

  function Step(cfg: GatewayConfig, o: Observed, e: L.Event): (o': Observed)
    requires cfg.Valid()
  {
    var w' := L.Next(cfg, o.world, e);
    Observed(w', Note(o.history, o.world, e, w'))
  }

  ghost predicate MovesAt(cfg: GatewayConfig, os: seq<Observed>, k: nat)
    requires cfg.Valid() && k < |os| - 1
  {
    exists e :: os[k + 1] == Step(cfg, os[k], e)
  }

  /** The states of one observed run. */
  ghost predicate Behavior(cfg: GatewayConfig, os: seq<Observed>)
    requires cfg.Valid()
  {
    && |os| > 0 && (exists t :: os[0] == Observed(L.Start(t), History(None, false, [])))
    && (forall k: nat :: k < |os| - 1 ==> MovesAt(cfg, os, k))
  }

  // ----- the observer sees every run

  function Worlds(os: seq<Observed>): (ws: seq<L.World>)
    ensures |ws| == |os| && forall k :: 0 <= k < |os| ==> ws[k] == os[k].world
  {
    seq(|os|, k requires 0 <= k < |os| => os[k].world)
  }

  lemma ObservedRuns(cfg: GatewayConfig, os: seq<Observed>)
    requires cfg.Valid() && Behavior(cfg, os)
    ensures L.Behavior(cfg, Worlds(os))
  {
    var t :| os[0] == Observed(L.Start(t), History(None, false, []));
    assert Worlds(os)[0] == L.Start(t);
    forall k: nat | k < |os| - 1
      ensures L.MovesAt(cfg, Worlds(os), k)
    {
      assert MovesAt(cfg, os, k);
      var e :| os[k + 1] == Step(cfg, os[k], e);
      assert Worlds(os)[k + 1] == L.Next(cfg, Worlds(os)[k], e);
    }
  }

  lemma ObservedFurther(cfg: GatewayConfig, os: seq<Observed>, e: L.Event)
    requires cfg.Valid() && Behavior(cfg, os)
    ensures Behavior(cfg, os + [Step(cfg, os[|os| - 1], e)])
  {
    var all := os + [Step(cfg, os[|os| - 1], e)];
    forall k: nat | k < |all| - 1
      ensures MovesAt(cfg, all, k)
    {
      if k < |os| - 1 {
        assert MovesAt(cfg, os, k);
        var f :| os[k + 1] == Step(cfg, os[k], f);
        assert all[k + 1] == Step(cfg, all[k], f);
      } else {
        assert all[k + 1] == Step(cfg, all[k], e);
      }
    }
  }

  lemma PrefixRuns(cfg: GatewayConfig, ws: seq<L.World>, n: nat)
    requires cfg.Valid() && L.Behavior(cfg, ws) && 1 <= n <= |ws|
    ensures L.Behavior(cfg, ws[..n])
  {
    forall k: nat | k < n - 1
      ensures L.MovesAt(cfg, ws[..n], k)
    {
      assert L.MovesAt(cfg, ws, k);
    }
  }

  /** Every run of the gateway can be observed. */
  lemma {:induction false} EveryRunObserved(cfg: GatewayConfig, ws: seq<L.World>) returns (os: seq<Observed>)
    requires cfg.Valid() && L.Behavior(cfg, ws)
    ensures Behavior(cfg, os) && |os| == |ws| && forall k :: 0 <= k < |ws| ==> os[k].world == ws[k]
    decreases |ws|
  {
    var n := |ws| - 1;
    if n == 0 {
      var t :| ws[0] == L.Start(t);
      os := [Observed(L.Start(t), History(None, false, []))];
    } else {
      PrefixRuns(cfg, ws, n);
      var before := EveryRunObserved(cfg, ws[..n]);
      assert before[n - 1].world == ws[..n][n - 1] == ws[n - 1];
      assert L.MovesAt(cfg, ws, n - 1);
      var e :| ws[n] == L.Next(cfg, ws[n - 1], e);
      ObservedFurther(cfg, before, e);
      os := before + [Step(cfg, before[n - 1], e)];
    }
  }

  // ----- the terms of the theorems

  /** What an admissible goal looks like. */
  predicate WellFormed(cfg: GatewayConfig, goal: Goal) {
    && |goal.controller| > 0 && |goal.source| > 0
    && cfg.minimumLease <= goal.duration && goal.duration <= cfg.maximumLease
    && goal.maxLinear.Finite? && goal.maxLinear.value > 0.0
    && goal.maxAngular.Finite? && goal.maxAngular.value > 0.0
  }

  /** The last grant was not revoked. */
  predicate Standing(h: History) {
    h.grant.Some? && !h.ended
  }

  /** Nor has the time its goal asked for run out. */
  predicate InForce(h: History, now: nat) {
    Standing(h) && now < h.grant.value.at + h.grant.value.goal.duration
  }

  predicate Holds(h: History, controller: string) {
    h.grant.Some? && h.grant.value.goal.controller == controller
  }

  /** `m` is the smaller of what was asked for and what is configured. */
  predicate Smaller(m: real, asked: Num, configured: real) {
    asked.Finite? && m <= asked.value && m <= configured && (m == asked.value || m == configured)
  }

  /** The time for which command `a` entitles to move. */
  function Validity(cfg: GatewayConfig, a: L.Accepted): (d: int) {
    if a.command.validFor < 10_000_000 then 10_000_000
    else if a.command.validFor > cfg.commandTimeout then cfg.commandTimeout
    else a.command.validFor
  }

  function Saturated(x: real): (r: real) {
    if x < -1.0 then -1.0 else if x > 1.0 then 1.0 else x
  }

  /** The last command accepted since the grant, if any. */
  function LastCommand(o: Observed): (a: Option<L.Accepted>) {
    if o.history.grant.Some? && |o.world.accepted| > o.history.grant.value.before
    then Some(o.world.accepted[|o.world.accepted| - 1]) else None
  }

  /** The holder is driving: its lease is in force and its last command, a deadman command, is still valid. */
  predicate Driving(cfg: GatewayConfig, o: Observed) {
    InForce(o.history, o.world.now) && LastCommand(o).Some? &&
    var a := LastCommand(o).value;
    a.command.deadman && o.world.now <= a.at + Validity(cfg, a)
  }

  // ----- the invariant

  ghost predicate GrantInv(cfg: GatewayConfig, o: Observed) {
    var w, h := o.world, o.history;
    match h.grant
    case None => !w.node.lease.active && w.node.leaseDeadline == 0 && !h.ended && w.node.lease == NO_LEASE
    case Some(g) =>
      && w.node.lease.active == !h.ended && WellFormed(cfg, g.goal) && g.at <= w.now
      && w.node.lease.controller == g.goal.controller && w.node.lease.source == g.goal.source
      && w.node.lease.remote == g.goal.remote && w.node.leaseDeadline == g.at + g.goal.duration
      && Smaller(w.node.lease.maxLinear, g.goal.maxLinear, cfg.maximumLinear)
      && Smaller(w.node.lease.maxAngular, g.goal.maxAngular, cfg.maximumAngular)
      && (!h.ended ==> w.node.lease.stamp == g.at && w.node.lease.expiresAt == g.at + g.goal.duration)
      && (h.ended ==> w.node.lease.expiresAt == w.node.lease.stamp)
  }

  ghost predicate ClaimInv(cfg: GatewayConfig, o: Observed) {
    var w, h := o.world, o.history;
    && (h.claims == [] ==> w.node.pending == "")
    && (forall c :: c in h.claims ==> c == w.node.pending && c != "")
    && (forall g :: g in w.outstanding ==> WellFormed(cfg, g))
  }

  ghost predicate CommandInv(cfg: GatewayConfig, o: Observed) {
    var w, h := o.world, o.history;
    && (h.grant.Some? ==> h.grant.value.before <= |w.accepted|)
    && (Standing(h) ==>
          match LastCommand(o)
          case None => !w.node.deadman && !w.node.override
          case Some(a) =>
            && w.node.deadman == a.command.deadman
            && w.node.override == (a.command.deadman && a.command.override)
            && w.node.linear == Saturated(a.command.linear) && w.node.angular == Saturated(a.command.angular)
            && w.node.commandDeadline == a.at + Validity(cfg, a) && a.lease == w.node.counter
            && a.maxLinear == w.node.lease.maxLinear && a.maxAngular == w.node.lease.maxAngular)
  }

  /** The last sequence number is the largest accepted under the current lease, zero if there is none. */
  ghost predicate SequenceInv(o: Observed) {
    var w := o.world;
    && (forall a :: a in w.accepted && a.lease == w.node.counter ==> 0 < a.command.sequence <= w.node.lastSequence)
    && (w.node.lastSequence > 0 ==>
          exists a :: a in w.accepted && a.lease == w.node.counter && a.command.sequence == w.node.lastSequence)
  }

  ghost predicate Inv(cfg: GatewayConfig, o: Observed) {
    GrantInv(cfg, o) && ClaimInv(cfg, o) && CommandInv(cfg, o) && SequenceInv(o) && L.IdentityInv(o.world)
  }

  lemma ExecutionKeeps(cfg: GatewayConfig, o: Observed, i: nat)
    requires cfg.Valid() && Inv(cfg, o) && i < |o.world.outstanding|
    ensures L.Executable(cfg, o.world, i)
    ensures var o' := Step(cfg, o, L.GoalExecuted(i)); GrantInv(cfg, o') && ClaimInv(cfg, o') && CommandInv(cfg, o')
  {
    assert o.world.outstanding[i] in o.world.outstanding;
    assert WellFormed(cfg, o.world.outstanding[i]);
  }

  lemma ExecutionKeepsSequence(cfg: GatewayConfig, o: Observed, i: nat)
    requires cfg.Valid() && Inv(cfg, o) && L.Executable(cfg, o.world, i)
    ensures SequenceInv(Step(cfg, o, L.GoalExecuted(i)))
  {
    forall a | a in o.world.accepted
      ensures a.lease <= o.world.node.counter
    {
      var k :| 0 <= k < |o.world.accepted| && o.world.accepted[k] == a;
    }
  }

  lemma CommandKeeps(cfg: GatewayConfig, o: Observed, m: TeleopCommand)
    requires cfg.Valid() && Inv(cfg, o)
    ensures var o' := Step(cfg, o, L.CommandReceived(m)); GrantInv(cfg, o') && ClaimInv(cfg, o') && CommandInv(cfg, o')
  {
  }

  lemma CommandKeepsSequence(cfg: GatewayConfig, o: Observed, m: TeleopCommand)
    requires cfg.Valid() && SequenceInv(o)
    ensures SequenceInv(Step(cfg, o, L.CommandReceived(m)))
  {
    var w, w' := o.world, Step(cfg, o, L.CommandReceived(m)).world;
    if |w'.accepted| > |w.accepted| {
      assert w'.accepted[|w.accepted|] == L.Record(w, m);
    } else {
      assert w'.accepted == w.accepted && w'.node == w.node;
    }
  }

  lemma OfferKeeps(cfg: GatewayConfig, o: Observed, goal: Goal)
    requires cfg.Valid() && Inv(cfg, o)
    ensures var o' := Step(cfg, o, L.GoalOffered(goal)); GrantInv(cfg, o') && ClaimInv(cfg, o') && CommandInv(cfg, o')
    ensures SequenceInv(Step(cfg, o, L.GoalOffered(goal)))
  {
  }

  /** Node, history and accepted commands are as they were; time may have passed. */
  ghost predicate Undisturbed(o: Observed, o': Observed) {
    && o'.history == o.history && o'.world.node == o.world.node && o'.world.accepted == o.world.accepted
    && o'.world.outstanding == o.world.outstanding && o'.world.now >= o.world.now
  }

  lemma UndisturbedKeeps(cfg: GatewayConfig, o: Observed, o': Observed)
    requires Inv(cfg, o) && Undisturbed(o, o')
    ensures GrantInv(cfg, o') && ClaimInv(cfg, o') && CommandInv(cfg, o') && SequenceInv(o')
  {
  }

  lemma OthersUndisturbing(cfg: GatewayConfig, o: Observed, e: L.Event)
    requires cfg.Valid() && !e.GoalOffered? && !e.GoalExecuted? && !e.CommandReceived? && !e.LeaseRevoked?
    ensures Undisturbed(o, Step(cfg, o, e))
  {
  }

  lemma RevocationKeeps(cfg: GatewayConfig, o: Observed, who: L.Revoker)
    requires cfg.Valid() && Inv(cfg, o)
    ensures var o' := Step(cfg, o, L.LeaseRevoked(who));
            GrantInv(cfg, o') && ClaimInv(cfg, o') && CommandInv(cfg, o') && SequenceInv(o')
  {
  }

  lemma InvStep(cfg: GatewayConfig, o: Observed, e: L.Event)
    requires cfg.Valid() && Inv(cfg, o)
    ensures Inv(cfg, Step(cfg, o, e))
  {
    L.IdentityStep(cfg, o.world, e);
    match e
    case GoalOffered(goal) => OfferKeeps(cfg, o, goal);
    case GoalExecuted(i) =>
      if i < |o.world.outstanding| {
        ExecutionKeeps(cfg, o, i);
        ExecutionKeepsSequence(cfg, o, i);
      } else {
        assert Step(cfg, o, e) == o;
      }
    case CommandReceived(m) =>
      CommandKeeps(cfg, o, m);
      CommandKeepsSequence(cfg, o, m);
    case LeaseRevoked(who) => RevocationKeeps(cfg, o, who);
    case _ =>
      OthersUndisturbing(cfg, o, e);
      UndisturbedKeeps(cfg, o, Step(cfg, o, e));
  }

  lemma {:induction false} InvHolds(cfg: GatewayConfig, os: seq<Observed>, k: nat)
    requires cfg.Valid() && Behavior(cfg, os) && k < |os|
    ensures Inv(cfg, os[k])
  {
    if k > 0 {
      InvHolds(cfg, os, k - 1);
      assert MovesAt(cfg, os, k - 1);
      var e :| os[k] == Step(cfg, os[k - 1], e);
      InvStep(cfg, os[k - 1], e);
    }
  }

  // ----- exactly what each callback does

  /** A goal is admitted exactly when it is well formed, no other controller's lease is in force, and every goal
      admitted since the last execution came from the same controller. */
  lemma AdmissionExact(cfg: GatewayConfig, os: seq<Observed>, k: nat, goal: Goal)
    requires cfg.Valid() && Behavior(cfg, os) && k < |os| && os[k].world.closing.None?
    ensures var w, h := os[k].world, os[k].history;
            var w' := L.Next(cfg, w, L.GoalOffered(goal));
            if WellFormed(cfg, goal) && (InForce(h, w.now) ==> Holds(h, goal.controller)) &&
               (forall c :: c in h.claims ==> c == goal.controller)
            then w'.outstanding == w.outstanding + [goal] else w' == w
  {
    InvHolds(cfg, os, k);
    if os[k].history.claims != [] {
      assert os[k].history.claims[0] in os[k].history.claims;
    }
  }

  /** Executing a goal grants exactly what it asked for, capped by the configuration, from now for its duration. The
      lease keeps its id exactly when it is a renewal by the holder of a lease in force; otherwise the id is new. */
  lemma GrantExact(cfg: GatewayConfig, os: seq<Observed>, k: nat, i: nat)
    requires cfg.Valid() && Behavior(cfg, os) && k < |os| && i < |os[k].world.outstanding|
    ensures var w, h, goal := os[k].world, os[k].history, os[k].world.outstanding[i];
            var w' := L.Next(cfg, w, L.GoalExecuted(i));
            var lease := w'.node.lease;
            && lease.active && lease.controller == goal.controller && lease.source == goal.source
            && lease.remote == goal.remote && lease.stamp == w.now && lease.expiresAt == w.now + goal.duration
            && Smaller(lease.maxLinear, goal.maxLinear, cfg.maximumLinear)
            && Smaller(lease.maxAngular, goal.maxAngular, cfg.maximumAngular)
            && w'.outstanding == L.Without(w.outstanding, i)
            && (InForce(h, w.now) && Holds(h, goal.controller) <==>
                  w'.issued == w.issued && lease.id == w.node.lease.id)
            && (!(InForce(h, w.now) && Holds(h, goal.controller)) ==>
                  forall n :: 1 <= n <= |w.issued| ==> lease.id != L.IdOf(w, n))
  {
    InvHolds(cfg, os, k);
    var w := os[k].world;
    ExecutionKeeps(cfg, os[k], i);
    var w' := L.Next(cfg, w, L.GoalExecuted(i));
    if |w'.issued| > |w.issued| {
      forall n | 1 <= n <= |w.issued|
        ensures w'.node.lease.id != L.IdOf(w, n)
      {
        if w'.node.lease.id == L.IdOf(w, n) {
          LeaseIdsDistinct(w.now, w'.node.counter, w.issued[n - 1], n);
          assert false;
        }
      }
    }
  }

  /** A command is accepted exactly under the lease in force, from its holder, with its id and a sequence number above
      all accepted under it; otherwise nothing changes. */
  lemma AcceptanceExact(cfg: GatewayConfig, os: seq<Observed>, k: nat, m: TeleopCommand)
    requires cfg.Valid() && Behavior(cfg, os) && k < |os| && os[k].world.closing.None?
    ensures var w, h := os[k].world, os[k].history;
            var w' := L.Next(cfg, w, L.CommandReceived(m));
            if InForce(h, w.now) && Holds(h, m.controller) && |w.issued| > 0 && m.leaseId == L.IdOf(w, |w.issued|) &&
               m.sequence > 0 &&
               (forall a :: a in w.accepted && a.lease == |w.issued| ==> a.command.sequence < m.sequence)
            then |w'.accepted| == |w.accepted| + 1 && w.accepted <= w'.accepted &&
                 var a := w'.accepted[|w.accepted|];
                 a.command == m && a.at == w.now && a.lease == |w.issued| &&
                 Smaller(a.maxLinear, h.grant.value.goal.maxLinear, cfg.maximumLinear) &&
                 Smaller(a.maxAngular, h.grant.value.goal.maxAngular, cfg.maximumAngular)
            else w' == w
  {
    InvHolds(cfg, os, k);
  }

  /** The timer publishes a velocity exactly while the last grant stands: the holder's scaled last command while it is
      driving, zero otherwise; the override signal says whether that command asked for it; and a lease past its time
      is exactly what gets closed. */
  lemma TimerExact(cfg: GatewayConfig, os: seq<Observed>, k: nat, stamp: nat)
    requires cfg.Valid() && Behavior(cfg, os) && k < |os| && os[k].world.closing.None?
    requires 1 <= stamp <= os[k].world.now
    ensures var o := os[k];
            var w, w' := o.world, L.Next(cfg, o.world, L.TimerFired(stamp));
            && (if !Standing(o.history) then w'.commands == w.commands else
                  && |w'.commands| == |w.commands| + 1 && w.commands <= w'.commands
                  && var c := w'.commands[|w.commands|];
                     c.stamp == stamp &&
                     if !Driving(cfg, o) then c.twist == ZERO else
                       var a := LastCommand(o).value;
                       c.twist == Planar(Saturated(a.command.linear) * a.maxLinear,
                                         Saturated(a.command.angular) * a.maxAngular))
            && |w'.overrides| == |w.overrides| + 1 && w.overrides <= w'.overrides
            && (w'.overrides[|w.overrides|].data <==> Driving(cfg, o) && LastCommand(o).value.command.override)
            && (w'.closing.Some? <==> Standing(o.history) && !InForce(o.history, w.now))
  {
    InvHolds(cfg, os, k);
  }

  /** A release is let through exactly for the id and the holder of the last grant while it stands. */
  lemma ReleaseExact(cfg: GatewayConfig, os: seq<Observed>, k: nat, id: string, controller: string)
    requires cfg.Valid() && Behavior(cfg, os) && k < |os| && os[k].world.closing.None?
    ensures var w, h := os[k].world, os[k].history;
            L.Next(cfg, w, L.ReleaseRequested(id, controller)).closing ==
            if Standing(h) && Holds(h, controller) && |w.issued| > 0 && id == L.IdOf(w, |w.issued|)
            then Some(|w.issued|) else None
  {
    InvHolds(cfg, os, k);
  }

  /** A lease message says exactly whether the last grant stands, and whose it is. */
  lemma LeaseMessageExact(cfg: GatewayConfig, os: seq<Observed>, k: nat)
    requires cfg.Valid() && Behavior(cfg, os) && k < |os|
    ensures var w, h := os[k].world, os[k].history;
            var w' := L.Next(cfg, w, L.LeasePublished);
            && |w'.leases| == |w.leases| + 1 && w.leases <= w'.leases
            && var lease := w'.leases[|w.leases|];
            && (lease.active <==> Standing(h))
            && (h.grant.Some? ==>
                  && var g := h.grant.value;
                  && lease.controller == g.goal.controller && lease.remote == g.goal.remote
                  && (lease.active ==> lease.expiresAt == g.at + g.goal.duration)
                  && (!lease.active ==> lease.expiresAt == lease.stamp))
  {
    InvHolds(cfg, os, k);
  }

  // ----- velocity limits

  lemma ScaledBound(x: real, limit: real, most: real)
    requires 0.0 < limit <= most
    ensures -most <= Saturated(x) * limit <= most
  {
    var s := Saturated(x);
    assert s * limit <= 1.0 * limit && s * limit >= -1.0 * limit;
  }

  ghost predicate Bounded(cfg: GatewayConfig, w: L.World) {
    forall c :: c in w.commands ==>
      Abs(c.twist.linearX) <= cfg.maximumLinear && Abs(c.twist.angularZ) <= cfg.maximumAngular
  }

  lemma DrivingLimits(cfg: GatewayConfig, o: Observed)
    requires cfg.Valid() && Inv(cfg, o) && Driving(cfg, o)
    ensures var a := LastCommand(o).value;
            0.0 < a.maxLinear <= cfg.maximumLinear && 0.0 < a.maxAngular <= cfg.maximumAngular
  {
  }

  lemma AppendBounded(cfg: GatewayConfig, w: L.World, w': L.World, c: L.Published)
    requires Bounded(cfg, w) && w'.commands == w.commands + [c]
    requires Abs(c.twist.linearX) <= cfg.maximumLinear && Abs(c.twist.angularZ) <= cfg.maximumAngular
    ensures Bounded(cfg, w')
  {
  }

  lemma FiredBounded(cfg: GatewayConfig, os: seq<Observed>, k: nat, stamp: nat)
    requires cfg.Valid() && Behavior(cfg, os) && k < |os| && Bounded(cfg, os[k].world)
    requires os[k].world.closing.None? && 1 <= stamp <= os[k].world.now && Standing(os[k].history)
    ensures Bounded(cfg, L.Next(cfg, os[k].world, L.TimerFired(stamp)))
  {
    var o := os[k];
    var w, w' := o.world, L.Next(cfg, o.world, L.TimerFired(stamp));
    TimerExact(cfg, os, k, stamp);
    if Driving(cfg, o) {
      InvHolds(cfg, os, k);
      DrivingLimits(cfg, o);
      var a := LastCommand(o).value;
      ScaledBound(a.command.linear, a.maxLinear, cfg.maximumLinear);
      ScaledBound(a.command.angular, a.maxAngular, cfg.maximumAngular);
    }
    AppendBounded(cfg, w, w', w'.commands[|w.commands|]);
  }

  lemma TimerBounded(cfg: GatewayConfig, os: seq<Observed>, k: nat, stamp: nat)
    requires cfg.Valid() && Behavior(cfg, os) && k < |os| && Bounded(cfg, os[k].world)
    ensures Bounded(cfg, L.Next(cfg, os[k].world, L.TimerFired(stamp)))
  {
    var w := os[k].world;
    if w.closing.None? && 1 <= stamp <= w.now {
      if Standing(os[k].history) {
        FiredBounded(cfg, os, k, stamp);
      } else {
        TimerExact(cfg, os, k, stamp);
      }
    }
  }

  lemma OnlyTimerPublishes(cfg: GatewayConfig, w: L.World, e: L.Event)
    requires cfg.Valid() && !e.TimerFired?
    ensures L.Next(cfg, w, e).commands == w.commands
  {
  }

  /** In every run, no velocity is published beyond the configured limits, whatever the goals ask for. */
  lemma {:induction false} VelocitiesBounded(cfg: GatewayConfig, os: seq<Observed>, k: nat)
    requires cfg.Valid() && Behavior(cfg, os) && k < |os|
    ensures Bounded(cfg, os[k].world)
  {
    if k > 0 {
      VelocitiesBounded(cfg, os, k - 1);
      assert MovesAt(cfg, os, k - 1);
      var e :| os[k] == Step(cfg, os[k - 1], e);
      if e.TimerFired? {
        TimerBounded(cfg, os, k - 1, e.stamp);
      } else {
        OnlyTimerPublishes(cfg, os[k - 1].world, e);
      }
    }
  }
}
