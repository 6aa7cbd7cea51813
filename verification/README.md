# Vehicle control platform: a verified model

This project models the parts of the vehicle platform where a mistake is hard to see by reading one function, and
proves what they keep over whole runs.

- **Control chain.** Teleop gateway, control mux, safety guard, supervisor and capture node. Each node is a class
  whose methods are its callbacks, proved equal to a step function on the node's state. `LeaseProtocol` and
  `ControlChain` compose the step functions into one transition system over all nodes and prove properties of every
  run; `OverrideRun` builds one family of runs. A velocity, lease, mode or override topic is the list of everything ever published on it and a delivery picks
  any entry, so loss, delay, repetition and reordering are all runs of the model. Safety events travel over reliable
  queues read in order.
- **Action runtime.** The chunk queue that plays policy samples, for any mobility adapter, and the round trip from
  captured commands back through the adapters.
- **Component orchestrator.** The recursive dependency-first start with its visited set, the guarded stop, and the
  running set over whole runs of requests. `systemctl` is an environment that decides the outcome of every command.
- **Job manager.** The single job slot shared by API threads and a worker under one mutex, with the join performed
  while the mutex is held.
- **Dataset tools.** The largest-remainder allocation with its repair loop, the split built from it, and the
  exporter's one-pass join against a declarative specification.
- **Arithmetic.** The streaming base64 decoder (section 4 of RFC 4648) and the int8 weight quantizer.

Conventions: time is integer nanoseconds on one global clock, which never goes back and reads at least 1
(`ControlChain` needs this because the guard treats stamp 0 as "no stamp"); a stamp may be read any time before it
is used; velocities, ranges, ratios and weights are exact reals, and the fields the code tests with `isfinite` are a
`Num` that may be non-finite. Anything a thread does between two critical sections is a separate event; the gateway's
callbacks share one thread, its goals have one each. A run of the gateway, the chain or the job manager is the list of
its states (`Behavior`), each reached from the one before by some event. Names in the table are qualified by module
and class.

`GatewayHistory`, `ChainDecisions` and `JobHistory` put an observer beside the system that keeps only what was offered,
delivered or reported, and prove in its terms exactly what each node does, without the nodes' own functions.

What was found false of the code, with its exact condition:

- Lease exclusivity needs one outstanding goal per controller. `ExecutionNeverDisplaces` proves it then;
  `OverlapReached` reaches two outstanding goals and `OverlapDisplaces` shows that from every such state a live lease
  of another controller can be displaced, because `pending_controller_id_` is one slot cleared by the first execution.
- A release, an expiry or a refused mode revokes whatever lease is active when it gets the mutex again, not the one it
  was decided for. `RevocationEndsAnother` says exactly when these differ. For a release or an expiry that can still
  happen exactly while a goal is outstanding or a later lease is active (`CallbackEndsAnotherIff`), since the one
  callback thread admits nothing meanwhile; for a refused mode it always can (`RefusalCanEndAnother`).
  `CallbackRevocationReached` and `RefusalReached` are runs that get there.
- The obstacle gate is lifted by the override alone (`ObstaclePassesIffOverride`): it has no sender's stamp and no tie
  to the source or the lease, so it also lets a Nav2 command pass after the lease is gone (`OverrideOutlivesLease`).
- A failed start or restart that leaves its unit down breaks the running-set closure exactly when it is the first
  failure of the request's plan and some running unit depends on it (`StartKeepsClosed`, and `RunsClosedExactly` over
  runs): a command that goes to a running unit never looks at its dependents (`FailedRestartBreaksClosure`).
  A request is safe for every outcome exactly when it reaches no unit that a running unit needs (`SafeIffUndisturbing`).
- If persisting the job or starting the thread throws after the job was made active (`OrphanReached`), the slot is
  never freed (`SlotFreesUnlessOrphaned`); in every other reachable state it can be.
- A captured command does not always replay as itself: `CaptureReplays` gives the exact condition.

## Model

| member | source | states |
|---|---|---|
| TeleopGateway.LeaseIdsDistinct | ros_ws/src/vehicle_runtime/src/vehicle_teleop_gateway_node.cpp:314-320 | lease ids with different counters differ as strings, whatever their stamps |
| TeleopGateway.Gateway.HandleGoal | ros_ws/src/vehicle_runtime/src/vehicle_teleop_gateway_node.cpp:81-103 | accepts exactly admissible goals and then only claims the pending slot |
| TeleopGateway.Gateway.Execute | ros_ws/src/vehicle_runtime/src/vehicle_teleop_gateway_node.cpp:115-148 | the granting section: renewal keeps id and sequence, anything else gets a fresh id; the whole new state |
| TeleopGateway.Gateway.Command | ros_ws/src/vehicle_runtime/src/vehicle_teleop_gateway_node.cpp:172-190 | a command changes the state only under the live lease, its holder and a larger sequence; the whole new state |
| TeleopGateway.Gateway.Release | ros_ws/src/vehicle_runtime/src/vehicle_teleop_gateway_node.cpp:192-209 | run without interruption: released exactly for the active lease and its holder, after which no command is accepted and the timer publishes zero; otherwise nothing changes |
| TeleopGateway.Gateway.Timer | ros_ws/src/vehicle_runtime/src/vehicle_teleop_gateway_node.cpp:211-239 | what is published and whether the lease is found expired; the deadman and both deadlines gate the velocity |
| TeleopGateway.Gateway.RevokeLease | ros_ws/src/vehicle_runtime/src/vehicle_teleop_gateway_node.cpp:241-256 | revocation clears lease and command state, and is idle on an inactive lease |
| LeaseProtocol.SequencesIncreasePerLease | ros_ws/src/vehicle_runtime/src/vehicle_teleop_gateway_node.cpp:123-190 | in every run, commands accepted under one lease id come from one controller with strictly increasing sequence numbers, renewals included |
| LeaseProtocol.RetiredLeaseNeverAccepted | ros_ws/src/vehicle_runtime/src/vehicle_teleop_gateway_node.cpp:172-256 | once a lease is revoked, expired or superseded, no continuation accepts a command bearing its id |
| LeaseProtocol.ProvenanceHolds | ros_ws/src/vehicle_runtime/src/vehicle_teleop_gateway_node.cpp:172-239 | in every run each non-zero published velocity is the scaled value of an accepted deadman command stamped within the command timeout |
| LeaseProtocol.RetiredNeverPublished | ros_ws/src/vehicle_runtime/src/vehicle_teleop_gateway_node.cpp:172-256 | in every run nothing published after a lease was revoked, expired or superseded repeats one of its commands |
| LeaseProtocol.RevocationEndsAnother | ros_ws/src/vehicle_runtime/src/vehicle_teleop_gateway_node.cpp:115-256 | a revocation decided by a release, an expiry or a refused mode ends a lease other than its own if and only if a lease was issued after its thread committed itself and is still active |
| LeaseProtocol.EveryRevocationCommitted | ros_ws/src/vehicle_runtime/src/vehicle_teleop_gateway_node.cpp:115-256 | every revocation due was committed to at some earlier step of the run: a callback's by deciding it, a goal thread's by granting the lease |
| LeaseProtocol.CallbackEndsAnotherIff | ros_ws/src/vehicle_runtime/src/vehicle_teleop_gateway_node.cpp:192-256 | a release or expiry decided and not carried out can still come to end another lease if and only if a goal is outstanding or a later lease is already active |
| LeaseProtocol.RefusalCanEndAnother | ros_ws/src/vehicle_runtime/src/vehicle_teleop_gateway_node.cpp:150-160 | a goal thread refused the mode always can: every run with one has such a continuation |
| LeaseProtocol.CallbackRevocationReached | ros_ws/src/vehicle_runtime/src/vehicle_teleop_gateway_node.cpp:81-209 | offer, execute, offer a renewal, release: a release that can end another lease, for every acceptable goal |
| LeaseProtocol.RefusalReached | ros_ws/src/vehicle_runtime/src/vehicle_teleop_gateway_node.cpp:115-160 | offer, execute, mode refused: such a goal thread, for every acceptable goal |
| LeaseProtocol.ExecutionNeverDisplaces | ros_ws/src/vehicle_runtime/src/vehicle_teleop_gateway_node.cpp:81-148 | in every interleaving with at most one outstanding goal per controller, executing a goal never replaces another controller's live lease |
| LeaseProtocol.SlotOwnerNeverDisplaces | ros_ws/src/vehicle_runtime/src/vehicle_teleop_gateway_node.cpp:96-102 | with no hypothesis, a goal that still owns the pending slot displaces nobody |
| LeaseProtocol.OverlapDisplaces | ros_ws/src/vehicle_runtime/src/vehicle_teleop_gateway_node.cpp:95-148 | the hypothesis is tight: every reachable state with two outstanding goals has a continuation that displaces a live lease |
| LeaseProtocol.OverlapReached | ros_ws/src/vehicle_runtime/src/vehicle_teleop_gateway_node.cpp:81-103 | two outstanding goals are reached by offering any acceptable goal twice |
| GatewayHistory.AdmissionExact | ros_ws/src/vehicle_runtime/src/vehicle_teleop_gateway_node.cpp:81-103 | over runs and from the history alone: a goal is admitted if and only if it is well formed, no other controller's lease is in force, and every goal admitted since the last execution has the same controller |
| GatewayHistory.GrantExact | ros_ws/src/vehicle_runtime/src/vehicle_teleop_gateway_node.cpp:115-148 | an executed goal is granted exactly what it asked for, each limit the smaller of asked and configured, for its duration; the id is kept if and only if the holder renews a lease in force, otherwise it is new |
| GatewayHistory.AcceptanceExact | ros_ws/src/vehicle_runtime/src/vehicle_teleop_gateway_node.cpp:172-190 | a command is accepted if and only if it comes under the lease in force, from its holder, with its id and a sequence above all accepted under it |
| GatewayHistory.TimerExact | ros_ws/src/vehicle_runtime/src/vehicle_teleop_gateway_node.cpp:211-239 | what the timer publishes: nothing without a standing grant; the holder's scaled last deadman command until its own clamped validity or the lease runs out; zero otherwise; override and expiry alike |
| GatewayHistory.ReleaseExact | ros_ws/src/vehicle_runtime/src/vehicle_teleop_gateway_node.cpp:192-205 | a release is let through if and only if it names the id and holder of the standing grant |
| GatewayHistory.LeaseMessageExact | ros_ws/src/vehicle_runtime/src/vehicle_teleop_gateway_node.cpp:292-301 | a lease message is active if and only if the last grant stands, and names its controller, flag and end |
| GatewayHistory.VelocitiesBounded | ros_ws/src/vehicle_runtime/src/vehicle_teleop_gateway_node.cpp:134-224 | in every run no velocity is published beyond the configured limits |
| GatewayHistory.EveryRunObserved | ros_ws/src/vehicle_runtime/src/vehicle_teleop_gateway_node.cpp:81-256 | every run of the gateway has such a history, so these theorems are about all of them |
| ControlMux.Mux.PublishSelected | ros_ws/src/vehicle_runtime/src/vla_control_mux_node.cpp:75-98 | publishes the licensed source's command if fresh, zero otherwise |
| SafetyGuard.Guard.ScanReceived | ros_ws/src/vehicle_runtime/src/vla_safety_guard_node.cpp:68-81 | the scan loop leaves exactly the minimum over in-range rays of the front sector, infinity when there is none |
| SafetyGuard.FrontMinimumUnique | ros_ws/src/vehicle_runtime/src/vla_safety_guard_node.cpp:68-81 | that minimum is unique |
| SafetyGuard.Guard.PublishEvent | ros_ws/src/vehicle_runtime/src/vla_safety_guard_node.cpp:88-113 | silent while a rule stands, otherwise clears the old rule and raises the new one |
| SafetyGuard.Guard.PublishSafeCommand | ros_ws/src/vehicle_runtime/src/vla_safety_guard_node.cpp:115-165 | output, events and new state of one tick: stale command, missing scan, override, obstacle, pass |
| Supervisor.Node.SafetyEventReceived | ros_ws/src/vehicle_runtime/src/vehicle_supervisor_node.cpp:82-90 | new state; keeps mode, source, safe flag and stop flag consistent |
| Supervisor.Node.ModeRequested | ros_ws/src/vehicle_runtime/src/vehicle_supervisor_node.cpp:92-120 | accepted exactly for known modes that the stop flag and the policy permit; keeps consistency |
| Supervisor.Node.SafeStopRequested | ros_ws/src/vehicle_runtime/src/vehicle_supervisor_node.cpp:122-131 | always enters SAFE_STOP; keeps consistency |
| ControlChain.TeleopStopDeadline | ros_ws/src/vehicle_runtime/src/vla_safety_guard_node.cpp:115-165 | in every run, each non-zero chassis command selected from teleop is exactly what some accepted deadman command entitles to, accepted at most gateway + mux + guard timeouts before |
| ControlChain.EndedLeaseStopsVehicle | ros_ws/src/vehicle_runtime/src/vehicle_teleop_gateway_node.cpp:172-256 | in every run, a teleop chassis command later than mux + guard timeouts after some moment is entitled to by a lease that had not ended by that moment, even if all lease messages are lost |
| ControlChain.RevocationStopsVehicle | ros_ws/src/vehicle_runtime/src/vehicle_teleop_gateway_node.cpp:241-256 | once the lease is revoked or expired and none is issued since, teleop chassis commands after mux + guard timeouts are zero |
| ControlChain.GatewaysRun | ros_ws/src/vehicle_runtime/src/vehicle_teleop_gateway_node.cpp:81-256 | every run of the chain is, seen from the gateway, a run of the gateway protocol, so its theorems carry over |
| ControlChain.MotionIsLicensed | ros_ws/src/vehicle_runtime/src/vla_control_mux_node.cpp:75-98 | in every run, each non-zero chassis command repeats a selection at most the guard's timeout old, from a source the mode then licensed |
| ControlChain.GatedMuxStopsVehicle | ros_ws/src/vehicle_runtime/src/vla_control_mux_node.cpp:75-98 | while the mux licenses no source, every chassis command later than the guard's timeout is zero, whatever is in flight |
| ControlChain.MotionlessModesStopVehicle | ros_ws/src/vehicle_runtime/src/vla_control_mux_node.cpp:31-98 | so MANUAL, VLA_SHADOW, SAFE_STOP and FAULT stop the vehicle and Shadow predictions never reach it |
| ControlChain.LostLeaseStopsVehicle | ros_ws/src/vehicle_runtime/src/vla_control_mux_node.cpp:34-96 | the same for a teleop mode once the mux has heard the lease is inactive |
| ControlChain.ForwardMeansClear | ros_ws/src/vehicle_runtime/src/vla_safety_guard_node.cpp:68-165 | in every run, a forward chassis command with fresh scan and no fresh override means no front ray of the last scan is nearer than the stop distance |
| ControlChain.ReverseAlwaysPasses | ros_ws/src/vehicle_runtime/src/vla_safety_guard_node.cpp:115-165 | a fresh non-forward command passes clamped, however near the obstacle, unless a required scan is missing |
| ControlChain.ObstaclePassesIffOverride | ros_ws/src/vehicle_runtime/src/vla_safety_guard_node.cpp:54-165 | a fresh forward selection with a near front ray passes if and only if the override is active, whatever its source |
| ControlChain.OverrideIsCommanded | ros_ws/src/vehicle_runtime/src/vla_safety_guard_node.cpp:54-128 | every chassis command under an active override traces to an accepted deadman command with its override flag set, published within the command timeout; only delivery is unbounded |
| OverrideRun.OverrideOutlivesLease | ros_ws/src/vehicle_runtime/src/vla_safety_guard_node.cpp:54-148 | for every drive and every scan there is a run in which a Nav2 command passes under the override of a lease already revoked |
| ControlChain.SafetyEventsAgree | ros_ws/src/vehicle_runtime/src/vla_safety_guard_node.cpp:88-113 | in every run events alternate raising and clearing one rule; drained readers agree with the guard; a set stop flag leaves SAFE_STOP or MANUAL |
| ControlChain.StopReachesMux | ros_ws/src/vehicle_runtime/src/vehicle_supervisor_node.cpp:82-131 | with queues drained and the mode delivered, a standing STOP rule leaves the mux no licensed source |
| ChainDecisions.SelectionExact | ros_ws/src/vehicle_runtime/src/vla_control_mux_node.cpp:31-98 | over runs and from the messages delivered alone: Nav2, VLA and teleop are each selected if and only if mode, lease (local for MOBILE, remote for REMOTE) and freshness say so, with the source's latest velocity; zero otherwise |
| ChainDecisions.ChassisExact | ros_ws/src/vehicle_runtime/src/vla_safety_guard_node.cpp:42-165 | the fresh selection passes, brought within its limits, if and only if no required scan is missing and no obstacle stands before a forward command without override; zero otherwise; the fitting rule and severity stand afterwards and are announced once |
| ChainDecisions.ModeExact | ros_ws/src/vehicle_runtime/src/vehicle_supervisor_node.cpp:75-131 | every mode change: by a request, granted if and only if the mode is known, a standing stop permits it and policy modes find the last report ready; by a safe-stop request; by a stopping event; and by nothing else |
| ChainDecisions.PolicyTakesControl | ros_ws/src/vehicle_runtime/src/vehicle_supervisor_node.cpp:109-116 | a policy mode is entered only while the last policy report was ready and no stop stood |
| ChainDecisions.EveryRunObserved | ros_ws/src/vehicle_runtime/src/vla_safety_guard_node.cpp:42-165 | every run of the chain can be observed so, hence these theorems are about all of them |
| Supervisor.SourceTellsMode | ros_ws/src/vehicle_runtime/src/vehicle_supervisor_node.cpp:140-153 | the published control source tells all modes apart, except the two policy modes |
| ActionRuntime.FindFeature | ros_ws/src/vehicle_runtime/src/vla_action_runtime_node.cpp:35-46 | the first position of the earliest accepted name that is present; fails exactly when none is |
| ActionRuntime.LegacyTwistConverts | ros_ws/src/vehicle_runtime/src/vla_action_runtime_node.cpp:69-97 | a finite legacy twist is playable by the twist adapter and converts to itself |
| ActionRuntime.Node.Samples | ros_ws/src/vehicle_runtime/src/vla_action_runtime_node.cpp:182-210 | the two sample-building loops |
| ActionRuntime.Node.ActionReceived | ros_ws/src/vehicle_runtime/src/vla_action_runtime_node.cpp:212-242 | the queue is replaced exactly by a non-empty, fully convertible chunk that is not older |
| ActionRuntime.Node.Execute | ros_ws/src/vehicle_runtime/src/vla_action_runtime_node.cpp:260-285 | plays the front sample before the deadline, otherwise drops the queue |
| ActionRuntime.QueuedSamplesConvert | ros_ws/src/vehicle_runtime/src/vla_action_runtime_node.cpp:260-285 | in every run the conversion error branch of a tick is unreachable |
| ActionRuntime.PlayedIsOrderedPrefix | ros_ws/src/vehicle_runtime/src/vla_action_runtime_node.cpp:212-285 | in every run the samples played from a chunk, published as policy target with their own conversion as velocity, are an in-order prefix, none twice, none after its deadline, and generation stamps never decrease |
| ActionRuntime.ArrivalExact | ros_ws/src/vehicle_runtime/src/vla_action_runtime_node.cpp:212-242 | in every run a message replaces the queue if and only if it carries a sample, all its vectors can be played and no accepted chunk was generated later |
| ActionRuntime.TickExact | ros_ws/src/vehicle_runtime/src/vla_action_runtime_node.cpp:260-285 | in every run a tick plays the next sample if and only if one is left before the deadline; zero otherwise |
| ActionRuntime.SamplesCarry | ros_ws/src/vehicle_runtime/src/vla_action_runtime_node.cpp:182-210 | sample i is vector i under the message's own names and units, or legacy twist i under the standard ones |
| ActionRuntime.ConvertTwistExact | ros_ws/src/vehicle_runtime/src/vla_action_runtime_node.cpp:81-96 | forward and turn from the first accepted features, lateral from the first lateral one or zero, nothing else |
| ActionReplay.CaptureReplays | ros_ws/src/vehicle_runtime/src/vehicle_action_capture_node.cpp:77-114 | a captured command is playable by the vehicle's own adapter and plays back as itself if and only if it is planar and, for yaw-rate steering, does not turn at a crawl |
| ActionReplay.TurnRecovers | ros_ws/src/vehicle_runtime/src/vehicle_action_capture_node.cpp:108-114 | steering recorded from a yaw rate gives that yaw rate back, or zero at or below the slow limit |
| Orchestrator.Node.ControlComponent | ros_ws/src/vehicle_operation/src/operation_orchestrator_node.cpp:384-417 | the recursion with its visited set, commands and managed units equals the functional start |
| Orchestrator.Node.StartDependencies | ros_ws/src/vehicle_operation/src/operation_orchestrator_node.cpp:390-394 | its dependency loop |
| Orchestrator.Node.HandleComponent | ros_ws/src/vehicle_operation/src/operation_orchestrator_node.cpp:133-149 | one component request starts from an empty visited set; reply, commands and managed units |
| Orchestrator.Node.HandleProfile | ros_ws/src/vehicle_operation/src/operation_orchestrator_node.cpp:150-174 | unknown profiles refused; otherwise the components in order up to the first failure, reversed and forced for a stop; reply, all commands and managed units |
| StartOrder.StartIssuesEachReachableOnce | ros_ws/src/vehicle_operation/src/operation_orchestrator_node.cpp:384-417 | on any graph at most one command per component; accepted: exactly the reachable components, all successful; refused: only the last command failed |
| StartOrder.StartIsDepsFirst | ros_ws/src/vehicle_operation/src/operation_orchestrator_node.cpp:389-394 | without a reachable cycle every command, also a failing one, follows commands for all its dependencies |
| StartOrder.DepsFirstIffAcyclic | ros_ws/src/vehicle_operation/src/operation_orchestrator_node.cpp:384-417 | an accepted start is dependencies-first if and only if no cycle is reachable |
| StartOrder.StartFollowsPlan | ros_ws/src/vehicle_operation/src/operation_orchestrator_node.cpp:384-417 | whatever runs and whatever fails, a start or restart issues a prefix of one plan, fixed by the graph, that commands each reachable component once; accepted exactly when no planned command fails |
| StartOrder.StartNames | ros_ws/src/vehicle_operation/src/operation_orchestrator_node.cpp:384-417 | on any graph and for any outcomes every command issued is a plain start, except the one for the component asked for; accepted, that one is last |
| StartOrder.EarlierDependencyFirst | ros_ws/src/vehicle_operation/src/operation_orchestrator_node.cpp:390-394 | dependencies are commanded in configuration order, unless an earlier one needs a later one |
| RunningClosure.StartKeepsClosed | ros_ws/src/vehicle_operation/src/operation_orchestrator_node.cpp:384-417 | an unforced start or restart keeps the running set closed if and only if the first failure in its plan does not leave down a unit that a running unit needs |
| RunningClosure.SafeIffUndisturbing | ros_ws/src/vehicle_operation/src/operation_orchestrator_node.cpp:384-417 | it keeps the set closed whatever the commands answer if and only if it reaches no unit that a running unit needs |
| RunningClosure.DependentMeansRunning | ros_ws/src/vehicle_operation/src/operation_orchestrator_node.cpp:384-417 | only a unit already running can have a running dependent, so only a command on a running unit can break closure |
| RunningClosure.RequestKeepsClosed | ros_ws/src/vehicle_operation/src/operation_orchestrator_node.cpp:133-174 | the same if and only if for every unforced component or profile request, over the plans and the running set before it |
| RunningClosure.StopKeepsClosed | ros_ws/src/vehicle_operation/src/operation_orchestrator_node.cpp:395-404 | an unforced stop keeps the running set closed, and is refused exactly while a direct dependent runs |
| RunningClosure.DirectCommands | ros_ws/src/vehicle_operation/src/operation_orchestrator_node.cpp:384-417 | stops and forced requests: exactly one command, or none and the exact reply for an unknown component, a running dependent or an unsupported action |
| RunningClosure.RunsStayClosed | ros_ws/src/vehicle_operation/src/operation_orchestrator_node.cpp:133-174 | over every run of unforced requests on an acyclic graph each running component has its dependencies running, provided each start reaches no unit that a running one needs or no failing command leaves down a unit that was running |
| RunningClosure.RunsClosedExactly | ros_ws/src/vehicle_operation/src/operation_orchestrator_node.cpp:133-174 | the running set is closed all along a run if and only if no request's first failure takes down a unit needed by what ran before it |
| RunningClosure.ProfileFollowsPlans | ros_ws/src/vehicle_operation/src/operation_orchestrator_node.cpp:158-165 | a profile start issues its components' plans in order up to the first failure; accepted, all of them run |
| RunningClosure.PlansName | ros_ws/src/vehicle_operation/src/operation_orchestrator_node.cpp:158-165 | a profile's plans hold only plain starts, except for the listed components |
| RunningClosure.ProfileStopsBackwards | ros_ws/src/vehicle_operation/src/operation_orchestrator_node.cpp:158-165 | a profile stop issues one forced stop per component, last first; accepted, none is left running |
| RunningClosure.FailedRestartBreaksClosure | ros_ws/src/vehicle_operation/src/operation_orchestrator_node.cpp:390-409 | a restart that fails and leaves its unit down breaks closure |
| JobManager.Manager.constructor | ros_ws/src/vehicle_ops/src/job_manager.cpp:436-468 | history load keeps the first fifty readable jobs in order, live ones marked failed |
| JobManager.Manager.Create | ros_ws/src/vehicle_ops/src/job_manager.cpp:306-316 | refused exactly while a job is active; otherwise the new job is queued, active and newest, history capped |
| JobManager.Manager.WorkerFinished | ros_ws/src/vehicle_ops/src/job_manager.cpp:358-370 | final state, exit code and freed slot |
| JobManager.Manager.CancelJob | ros_ws/src/vehicle_ops/src/job_manager.cpp:418-434 | reply and new state of a cancel request |
| JobManager.Find | ros_ws/src/vehicle_ops/src/job_manager.cpp:386-390 | finds a job with the id, or none in the history has it |
| JobProtocol.SlotHolds | ros_ws/src/vehicle_ops/src/job_manager.cpp:306-371 | in every interleaving at most fifty jobs; either none is live or exactly one, active and newest |
| JobProtocol.JoinNeverDeadlocks | ros_ws/src/vehicle_ops/src/job_manager.cpp:306-371 | whenever create holds the mutex before its join, the old worker needs the mutex no more and the join returns |
| JobProtocol.SomebodyCanMove | ros_ws/src/vehicle_ops/src/job_manager.cpp:306-371 | no interleaving blocks worker and holder at once |
| JobProtocol.TerminalIsFinal | ros_ws/src/vehicle_ops/src/job_manager.cpp:320-371 | terminal jobs never change in any continuation |
| JobProtocol.CancelNeverSucceeds | ros_ws/src/vehicle_ops/src/job_manager.cpp:354-434 | an accepted cancel never ends in succeeded, and a running job ends cancelled |
| JobProtocol.SlotFreesUnlessOrphaned | ros_ws/src/vehicle_ops/src/job_manager.cpp:306-316 | the slot can be freed if and only if the insertion did not throw before the worker started |
| JobProtocol.OrphanReached | ros_ws/src/vehicle_ops/src/job_manager.cpp:306-316 | one request from an empty history whose worker cannot be started reaches that state |
| JobHistory.JobsEndExactly | ros_ws/src/vehicle_ops/src/job_manager.cpp:320-371 | over runs and from the events alone: a job is succeeded if and only if it was started, exited with 0 and was not cancelled before; cancelled if and only if it was started and cancelled before its end; failed otherwise; with exit code, 128 plus signal, or 127 |
| JobHistory.HistoryIsNewest | ros_ws/src/vehicle_ops/src/job_manager.cpp:306-316 | the history is the fifty newest jobs, newest first |
| JobHistory.CancelRepliesExactly | ros_ws/src/vehicle_ops/src/job_manager.cpp:418-434 | a cancel is accepted if and only if it names the job in the slot and its kind may be stopped; the other replies exactly |
| JobHistory.EveryRunObserved | ros_ws/src/vehicle_ops/src/job_manager.cpp:306-371 | every run of the job manager can be observed so |
| JobManager.Restore | ros_ws/src/vehicle_ops/src/job_manager.cpp:436-468 | a loaded job found live has failed; any other is taken back as stored |
| Allocation.AllocateCounts | tools/dataset/split_vehicle_dataset.py:94-149 | errors exactly for unusable ratios; otherwise the unique allocation, summing up, zero for zero ratios, within [quota - 2, quota + 1) and at least one per positive ratio from three episodes on |
| Allocation.RoundByRemainder | tools/dataset/split_vehicle_dataset.py:117-127 | the largest-remainder allocation: floors plus one seat for the splits that sort first |
| Allocation.LargestRemainderUnique | tools/dataset/split_vehicle_dataset.py:117-127 | there is only one such allocation |
| Allocation.SeatRule | tools/dataset/split_vehicle_dataset.py:121-127 | who gets a seat more: larger fractional part, then larger ratio, then earlier name |
| Allocation.QuotaProportional | tools/dataset/split_vehicle_dataset.py:117-118 | shares are proportional to the ratios |
| Allocation.DonorIsRichest | tools/dataset/split_vehicle_dataset.py:138-146 | the donor is the first split with the largest surplus, then count |
| Allocation.DonorExists | tools/dataset/split_vehicle_dataset.py:136-142 | the no-donor break is never reached |
| Allocation.Repair | tools/dataset/split_vehicle_dataset.py:136-148 | the nested repair loops terminate and compute the functional repair, with the no-donor break as coded |
| Allocation.RepairedKeeps | tools/dataset/split_vehicle_dataset.py:136-148 | the repair reaches every minimum, keeps the sum and crosses no minimum |
| Allocation.RepairedIsFair | tools/dataset/split_vehicle_dataset.py:129-149 | repairing a largest-remainder allocation of three or more episodes is fair |
| Allocation.AllocationUnique | tools/dataset/split_vehicle_dataset.py:94-149 | episode count and ratios determine the counts |
| DatasetSplit.SplitEpisodes | tools/dataset/split_vehicle_dataset.py:173-216 | duplicates refused exactly; otherwise three consecutive slices that partition the episodes, with allocated sizes, correct summaries and warnings |
| DatasetSplit.Summarize | tools/dataset/split_vehicle_dataset.py:152-160 | counts entries, frames and task frames |
| DatasetSplit.HasDuplicates | tools/dataset/split_vehicle_dataset.py:174-179 | true if and only if two episodes share an id |
| DatasetSplit.Shuffle | tools/dataset/split_vehicle_dataset.py:188 | the swap loop of the seeded shuffle |
| Shuffling.LastPlaced | tools/dataset/split_vehicle_dataset.py:188 | each pass places at its position the element drawn |
| Shuffling.ReachesAll | tools/dataset/split_vehicle_dataset.py:188 | every order of the episodes is the result of some draws |
| Shuffling.DrawsUnique | tools/dataset/split_vehicle_dataset.py:188 | and of only one sequence of draws, so no order is favoured |
| DatasetSplit.PrecedesExact | tools/dataset/split_vehicle_dataset.py:187 | ids are sorted by code point at the first difference |
| DatasetSplit.Slice | tools/dataset/split_vehicle_dataset.py:190-214 | consecutive slices of the allocated sizes, their summaries, and a warning exactly for each requested empty split |
| DatasetSplit.SummariesAddUp | tools/dataset/split_vehicle_dataset.py:190-215 | over the splits, episodes, frames and each task add up to the input's totals |
| DatasetSplit.SplitsOrderIndependent | tools/dataset/split_vehicle_dataset.py:174-195 | permuting the datasets leaves every split unchanged |
| DatasetSplit.FairFillsEverySplit | tools/dataset/split_vehicle_dataset.py:197-205 | from three episodes on no requested split is empty |
| DatasetExport.Export | ros_ws/src/vehicle_data/src/dataset_exporter.cpp:395-487 | frames are the kept ids in first-seen order, contiguously numbered, each with the last message of every kind; the statistics account for every observation |
| DatasetExport.ReadBag | ros_ws/src/vehicle_data/src/dataset_exporter.cpp:404-440 | the one-pass join equals the declarative last-message and first-seen functions |
| DatasetExport.Emit | ros_ws/src/vehicle_data/src/dataset_exporter.cpp:450-487 | the emission loop gives the specified frames and statistics for every joined bag |
| DatasetExport.LastIsLast | ros_ws/src/vehicle_data/src/dataset_exporter.cpp:415-438 | the last-message function finds the last matching position, or there is none |
| DatasetExport.FirstSeenLists | ros_ws/src/vehicle_data/src/dataset_exporter.cpp:408-414 | the first-seen list has exactly the observed ids, once each, by first position |
| DatasetExport.KeptAndSkipped | ros_ws/src/vehicle_data/src/dataset_exporter.cpp:463-470 | kept and skipped observations make up all of them |
| DatasetExport.ExportedExactly | ros_ws/src/vehicle_data/src/dataset_exporter.cpp:408-470 | in terms of the bag: an observed id is exported if and only if an executed action or a comparison names it, or incomplete ones are wanted |
| DatasetExport.ExportedInOrder | ros_ws/src/vehicle_data/src/dataset_exporter.cpp:408-487 | frames follow the first appearance of their ids |
| DatasetExport.FramesExact | ros_ws/src/vehicle_data/src/dataset_exporter.cpp:457-487 | each frame holds its index and, per kind, the last message naming its id, or none does |
| Base64.DecodeBase64 | ros_ws/src/vehicle_ops/src/vehicle_ops_api_node.cpp:136-160 | the loop decodes exactly the regrouped digits, and reports the two error cases exactly |
| Base64.DrainRegroups | ros_ws/src/vehicle_ops/src/vehicle_ops_api_node.cpp:145-157 | the bit accumulator yields the bytes of the four-digit groups of section 4 of RFC 4648 |
| Base64.RoundTrip | ros_ws/src/vehicle_ops/src/vehicle_ops_api_node.cpp:136-160 | text within the limit that is, whitespace apart, the standard encoding of some bytes decodes to them |
| Base64.SecondLimitNeverFires | ros_ws/src/vehicle_ops/src/vehicle_ops_api_node.cpp:140-158 | output stays within 675000 bytes, so the second limit is unreachable |
| Base64.ErrorsExact | ros_ws/src/vehicle_ops/src/vehicle_ops_api_node.cpp:136-149 | invalid if and only if some character before the padding is neither whitespace nor in the table; too large if and only if longer than 900000 |
| Base64.LetterOfTable | ros_ws/src/vehicle_ops/src/vehicle_ops_api_node.cpp:138-139 | digit values are the positions in the standard table |
| Quantization.ClampIsIdle | policy-runtime/runtime/quantization.py:61-63 | the clamp to [-127, 127] changes no value |
| Quantization.ScaleExact | policy-runtime/runtime/quantization.py:61-62 | 127 steps make the peak of the row, or the minimum peak |
| Quantization.PeakUsesFullRange | policy-runtime/runtime/quantization.py:61-63 | a weight of peak magnitude becomes 127 or -127 |
| Quantization.WeightError | policy-runtime/runtime/quantization.py:61-63 | each weight is recovered within half a step |
| Quantization.OutputError | policy-runtime/runtime/quantization.py:58-84 | each output row is within half a step times the sum of the input magnitudes |
| Quantization.RequantizingChangesNothing | policy-runtime/runtime/quantization.py:61-65 | quantizing the recovered weights gives the same scale and integers, unless the row is below the minimum peak |

## Left out

- ROS middleware, executors, sockets, fork and exec, `systemctl` and the file system: events, environments or abstract results.
- Floating-point rounding, float32 and bfloat16 narrowing and NaN: arithmetic is exact.
- Wrap-around of the 64-bit lease counter and the order of 64-bit sequence numbers near their maximum: both are unbounded.
- Other publishers on `/mobile_teleop/cmd_vel` and `/control/cmd_vel_selected`: in the repository only the gateway and the mux publish there.
- Overflow of the depth-10 safety-event queues: the agreement theorem assumes they deliver everything in order.
- Acceptance of client commands across a renewal: the web client restarts its sequence at 0 while the gateway keeps its last one, so such commands are dropped.
- Latching of an operator-requested SAFE_STOP: only an active safety event restricts later mode requests.
- Source-time deadlines for Nav2 and VLA commands: the mux stamps Nav2 on receipt and other nodes publish on the VLA topic; `MotionIsLicensed` is what holds for them.
- Forced component operations and profile stop in the closure theorem: they skip the dependency checks by design. `Control` models force and `ProfileStopsBackwards` says what a profile stop does.
- Two components that share one systemd unit, and units that end on their own: each component has its own unit, changed only by commands, and a successful start leaves it managed.
- Health, log and `recently_stopped_` bookkeeping of the orchestrator: display only.
- Parameter checking and job types in `create`, job logs and status files, and signal delivery to the child process.
- One-assignment callbacks of the mux, guard, supervisor, capture and worker nodes are modelled but have no row: the run theorems are about them.
- Colliding job ids: `Find` takes the first match, as the code does.
- The job objects behind shared pointers are entries of a table under handles, so aliasing is handle equality.
- Frame serialisation and image writing in the exporter, which can abort an export: frames are records and images a count.
- Target selection by module prefix, module replacement and the TorchAO path of the quantizer: the selection is a filter on dotted names and promises nothing beyond it.
- The random generator behind the shuffle: a function from position to draw, fixed by seed and length.
- `tan` and `atan` themselves: any functions with `tan(0) = 0` and `tan(atan(x)) = x`; the queue theorems hold for any adapter, including one whose conversion fails.
- Camera calibration, web interface, model loading, training and deployment scripts.
