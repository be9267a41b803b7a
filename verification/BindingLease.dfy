/**
 The single-writer lease on vendor bindings: one table of writers shared by every session, claimed
 by launches and by binding frames, released by failed launches and by finalization. Each launch is
 a task known by its own fresh token; the tasks interleave at every shared access.
 */
module BindingLeases {
  import opened Prelude

  type Binding = seq<byte>

  datatype Writer = Writer(token: nat, session: nat)

  type Writers = map<Binding, Writer>

  datatype ClaimError = InvalidIdentifier | AlreadyWritten(ownerSession: nat)

  const MAX_LAUNCH_TEXT_BYTES: nat := 1024

  predicate ValidIdentifier(binding: Binding) {
    0 < |binding| <= MAX_LAUNCH_TEXT_BYTES && 10 !in binding && 13 !in binding
  }

  function Claim(writers: Writers, binding: Binding, token: nat, session: nat): Result<Writers, ClaimError> {
    if !ValidIdentifier(binding) then Err(InvalidIdentifier)
    else if binding in writers then Err(AlreadyWritten(writers[binding].session))
    else Ok(writers[binding := Writer(token, session)])
  }

  function Release(writers: Writers, binding: Binding, token: nat): Writers {
    if binding in writers && writers[binding].token == token then writers - {binding} else writers
  }

  /** The table behind its lock; each method is one critical section. */
  class BindingTable {
    var writers: Writers

    constructor ()
      ensures writers == map[]
    {
      writers := map[];
    }

    method ClaimBinding(binding: Binding, token: nat, session: nat) returns (r: Result<(), ClaimError>)
      modifies this
      ensures r.Ok? <==> ValidIdentifier(binding) && binding !in old(writers)
      ensures r.Ok? ==> Claim(old(writers), binding, token, session) == Ok(writers)
      ensures r.Err? ==> writers == old(writers) && Claim(old(writers), binding, token, session) == Err(r.error)
    {
      if !ValidIdentifier(binding) {
        return Err(InvalidIdentifier);
      }
      if binding in writers {
        return Err(AlreadyWritten(writers[binding].session));
      }
      writers := writers[binding := Writer(token, session)];
      return Ok(());
    }

    method ReleaseBinding(binding: Binding, token: nat)
      modifies this
      ensures writers == Release(old(writers), binding, token)
      ensures forall other :: other in old(writers) && (other != binding || old(writers)[other].token != token) ==>
        other in writers && writers[other] == old(writers)[other]
    {
      if binding in writers && writers[binding].token == token {
        writers := writers - {binding};
      }
    }
  }

  // ----- the tasks that use the table

  datatype Phase =
    | Entered(requested: Option<Binding>)      // won the session's launching flag
    | Refused                                  // its claim failed
    | Guarded(lease: Option<Binding>)          // starting the process under the launch guard
    | Failed(lease: Option<Binding>)           // the launch failed, the guard is about to drop
    | Unwinding(lease: Option<Binding>)        // dropping the guard: flag cleared, lease not yet released
    | Installed(lease: Option<Binding>)        // it is the session's active run, the guard is about to drop
    | Running(lease: Option<Binding>)
    | Recording(claimed: Binding)              // a frame's claim succeeded, the lease is not yet recorded
    | Finalized(lease: Option<Binding>)
    | Releasing(taken: Option<Binding>)
    | Retiring                                 // about to clear the session's active run

  /** `requested` only records what the launch asked for. */
  datatype Task = Task(session: nat, requested: Option<Binding>, phase: Phase)

  datatype System = System(
    writers: Writers,
    launching: set<nat>,
    active: map<nat, nat>,
    tasks: map<nat, Task>,
    issued: set<nat>)

  const IDLE := System(map[], {}, map[], map[], {})

  datatype Step =
    | Enter(token: nat, session: nat, requested: Option<Binding>)
    | ClaimRequested(token: nat)
    | FailLaunch(token: nat)
    | Install(token: nat)
    | DropGuard(token: nat)
    | ReleaseUnwound(token: nat)
    | BindingFrame(token: nat, binding: Binding)
    | RecordLease(token: nat)
    | Finalize(token: nat)
    | TakeLease(token: nat)
    | ReleaseTaken(token: nat)
    | Retire(token: nat)

  /** What a step leaves behind: the phase its task is now in, unless it is gone, and the shared state. */
  datatype Effect = Effect(next: Option<Phase>, writers: Writers, launching: set<nat>, active: map<nat, nat>)

  function Stay(s: System, phase: Phase): Effect {
    Effect(Some(phase), s.writers, s.launching, s.active)
  }

  function Leave(s: System): Effect {
    Effect(None, s.writers, s.launching, s.active)
  }

  /** One shared access of a task; a step that is not its next one changes nothing. */
  function EffectOf(s: System, step: Step, session: nat, phase: Phase): Effect {
    var token := step.token;
    match (step, phase)
    case (ClaimRequested(_), Entered(None)) => Stay(s, Guarded(None))
    case (ClaimRequested(_), Entered(Some(binding))) =>
      (match Claim(s.writers, binding, token, session)
       case Ok(writers) => Stay(s, Guarded(Some(binding))).(writers := writers)
       case Err(_) => Stay(s, Refused))
    case (FailLaunch(_), Guarded(lease)) => Stay(s, Failed(lease))
    case (Install(_), Guarded(lease)) =>
      if session in s.active then Stay(s, Failed(lease))
      else Stay(s, Installed(lease)).(active := s.active[session := token])
    case (DropGuard(_), Refused) => Leave(s).(launching := s.launching - {session})
    case (DropGuard(_), Failed(lease)) => Stay(s, Unwinding(lease)).(launching := s.launching - {session})
    case (DropGuard(_), Installed(lease)) => Stay(s, Running(lease)).(launching := s.launching - {session})
    case (ReleaseUnwound(_), Unwinding(lease)) =>
      Leave(s).(writers := if lease.Some? then Release(s.writers, lease.value, token) else s.writers)
    case (BindingFrame(_, binding), Running(None)) =>
      (match Claim(s.writers, binding, token, session)
       case Ok(writers) => Stay(s, Recording(binding)).(writers := writers)
       case Err(_) => Stay(s, phase))
    case (RecordLease(_), Recording(claimed)) => Stay(s, Running(Some(claimed)))
    case (Finalize(_), Running(lease)) => Stay(s, Finalized(lease))
    case (TakeLease(_), Finalized(lease)) => Stay(s, Releasing(lease))
    case (ReleaseTaken(_), Releasing(taken)) =>
      Stay(s, Retiring).(writers := if taken.Some? then Release(s.writers, taken.value, token) else s.writers)
    case (Retire(_), Retiring) =>
      Leave(s).(active :=
        if session in s.active && s.active[session] == token then s.active - {session} else s.active)
    case _ => Stay(s, phase)
  }

  function Apply(s: System, token: nat, task: Task, effect: Effect): System {
    System(effect.writers, effect.launching, effect.active,
           if effect.next.Some? then s.tasks[token := task.(phase := effect.next.value)] else s.tasks - {token},
           s.issued)
  }

  function Take(s: System, step: Step): System {
    if step.Enter? then
      // The flag is taken by compare-and-exchange, then a fresh token is drawn.
      if step.session in s.launching || step.token in s.issued then s
      else s.(launching := s.launching + {step.session}, issued := s.issued + {step.token},
              tasks := s.tasks[step.token := Task(step.session, step.requested, Entered(step.requested))])
    else if step.token !in s.tasks then s
    else
      var task := s.tasks[step.token];
      Apply(s, step.token, task, EffectOf(s, step, task.session, task.phase))
  }

  /** A step changes no task but its own, and takes no token back. */
  lemma TakeSparesOthers(s: System, step: Step, other: nat)
    requires other != step.token
    ensures other in Take(s, step).tasks <==> other in s.tasks
    ensures other in s.tasks ==> Take(s, step).tasks[other] == s.tasks[other]
    ensures s.issued <= Take(s, step).issued <= s.issued + {step.token}
  {
  }

  function Fold<S, A>(take: (S, A) -> S, s: S, steps: seq<A>): S {
    if steps == [] then s else take(Fold(take, s, steps[..|steps| - 1]), steps[|steps| - 1])
  }

  function Run(s: System, steps: seq<Step>): System {
    Fold(Take, s, steps)
  }

  // ----- what every run keeps

  /** The binding that a launch, or a run not yet past its release, holds. */
  function Held(phase: Phase): Option<Binding> {
    match phase
    case Entered(_) => None
    case Refused => None
    case Retiring => None
    case Recording(claimed) => Some(claimed)
    case Releasing(taken) => taken
    case Guarded(lease) => lease
    case Failed(lease) => lease
    case Unwinding(lease) => lease
    case Installed(lease) => lease
    case Running(lease) => lease
    case Finalized(lease) => lease
  }

  predicate InLaunch(phase: Phase) {
    phase.Entered? || phase.Refused? || phase.Guarded? || phase.Failed? || phase.Installed?
  }

  predicate IsActive(phase: Phase) {
    phase.Installed? || phase.Running? || phase.Recording? || phase.Finalized? || phase.Releasing? || phase.Retiring?
  }

  /** The binding held by whoever has this token, if there is one. */
  function HeldBy(s: System, token: nat): Option<Binding> {
    if token in s.tasks then Held(s.tasks[token].phase) else None
  }

  /** The session whose launching flag this token's owner has. */
  function LaunchOf(s: System, token: nat): Option<nat> {
    if token in s.tasks && InLaunch(s.tasks[token].phase) then Some(s.tasks[token].session) else None
  }

  /** The session whose active run has this token. */
  function ActiveOf(s: System, token: nat): Option<nat> {
    if token in s.tasks && IsActive(s.tasks[token].phase) then Some(s.tasks[token].session) else None
  }

  /** The table lists exactly the held bindings, each with the token and session of its one holder. */
  ghost predicate TableIsExact(s: System) {
    && (forall token :: HeldBy(s, token).Some? ==>
          && token in s.tasks && HeldBy(s, token).value in s.writers
          && s.writers[HeldBy(s, token).value] == Writer(token, s.tasks[token].session))
    && (forall binding :: binding in s.writers ==> HeldBy(s, s.writers[binding].token) == Some(binding))
  }

  /** A session's flag is set exactly while one task launches in it. */
  ghost predicate FlagsAreExact(s: System) {
    && (forall session :: session in s.launching ==> exists token :: LaunchOf(s, token) == Some(session))
    && (forall token :: LaunchOf(s, token).Some? ==> LaunchOf(s, token).value in s.launching)
    && (forall a, b :: LaunchOf(s, a).Some? && LaunchOf(s, a) == LaunchOf(s, b) ==> a == b)
  }

  /** A session's active run is exactly the one task past its installation. */
  ghost predicate ActiveIsExact(s: System) {
    && (forall session :: session in s.active ==> ActiveOf(s, s.active[session]) == Some(session))
    && (forall token :: ActiveOf(s, token).Some? ==>
          ActiveOf(s, token).value in s.active && s.active[ActiveOf(s, token).value] == token)
  }

  ghost predicate Safe(s: System) {
    s.tasks.Keys <= s.issued && TableIsExact(s) && FlagsAreExact(s) && ActiveIsExact(s)
  }

  // ----- the shapes of a step

  function StepSession(s: System, step: Step): nat {
    if step.token in s.tasks then s.tasks[step.token].session else if step.Enter? then step.session else 0
  }

  ghost predicate OnlyTask(s: System, t: System, token: nat) {
    forall other :: other != token ==>
      (other in t.tasks <==> other in s.tasks) && (other in s.tasks ==> t.tasks[other] == s.tasks[other])
  }

  /** A task keeps its lease, claims a free binding, or releases the one it holds. */
  ghost predicate LeaseShift(before: Option<Binding>, after: Option<Binding>, w: Writers, w': Writers, writer: Writer) {
    || (after == before && w' == w)
    || (before.None? && after.Some? && after.value !in w && w' == w[after.value := writer])
    || (before.Some? && after.None? && w' == Release(w, before.value, writer.token))
  }

  ghost predicate LeaseChange(s: System, t: System, token: nat, session: nat) {
    var before, after := HeldBy(s, token), HeldBy(t, token);
      && LeaseShift(before, after, s.writers, t.writers, Writer(token, session))
      && (before.Some? ==> s.tasks[token].session == session) && (after.Some? ==> t.tasks[token].session == session)
  }

  ghost predicate FlagShift(before: bool, after: bool, flags: set<nat>, flags': set<nat>, session: nat) {
    || (after == before && flags' == flags)
    || (!before && after && session !in flags && flags' == flags + {session})
    || (before && !after && flags' == flags - {session})
  }

  ghost predicate FlagChange(s: System, t: System, token: nat, session: nat) {
    var before, after := LaunchOf(s, token), LaunchOf(t, token);
      && FlagShift(before.Some?, after.Some?, s.launching, t.launching, session)
      && (before.Some? ==> before.value == session) && (after.Some? ==> after.value == session)
  }

  ghost predicate ActiveShift(before: bool, after: bool, runs: map<nat, nat>, runs': map<nat, nat>, session: nat, token: nat) {
    || (after == before && runs' == runs)
    || (!before && after && session !in runs && runs' == runs[session := token])
    || (before && !after
        && runs' == if session in runs && runs[session] == token then runs - {session} else runs)
  }

  ghost predicate ActiveChange(s: System, t: System, token: nat, session: nat) {
    var before, after := ActiveOf(s, token), ActiveOf(t, token);
      && ActiveShift(before.Some?, after.Some?, s.active, t.active, session, token)
      && (before.Some? ==> before.value == session) && (after.Some? ==> after.value == session)
  }

  function PhaseLease(next: Option<Phase>): Option<Binding> {
    if next.Some? then Held(next.value) else None
  }

  ghost predicate Shifts(s: System, phase: Phase, effect: Effect, token: nat, session: nat) {
    var next := effect.next;
    && LeaseShift(Held(phase), PhaseLease(next), s.writers, effect.writers, Writer(token, session))
    && FlagShift(InLaunch(phase), next.Some? && InLaunch(next.value), s.launching, effect.launching, session)
    && ActiveShift(IsActive(phase), next.Some? && IsActive(next.value), s.active, effect.active, session, token)
  }

  lemma EffectShiftsLease(s: System, step: Step, session: nat, phase: Phase)
    ensures var effect := EffectOf(s, step, session, phase);
      LeaseShift(Held(phase), PhaseLease(effect.next), s.writers, effect.writers, Writer(step.token, session))
  {
  }

  lemma EffectShiftsFlags(s: System, step: Step, session: nat, phase: Phase)
    ensures var effect := EffectOf(s, step, session, phase);
      && FlagShift(InLaunch(phase), effect.next.Some? && InLaunch(effect.next.value), s.launching, effect.launching, session)
  {
  }

  lemma EffectShiftsActive(s: System, step: Step, session: nat, phase: Phase)
    ensures var effect := EffectOf(s, step, session, phase);
      && ActiveShift(IsActive(phase), effect.next.Some? && IsActive(effect.next.value), s.active, effect.active, session, step.token)
  {
  }

  lemma ApplyChanges(s: System, token: nat, effect: Effect)
    requires s.tasks.Keys <= s.issued && token in s.tasks
    requires Shifts(s, s.tasks[token].phase, effect, token, s.tasks[token].session)
    ensures var session := s.tasks[token].session;
      var t := Apply(s, token, s.tasks[token], effect);
      && t.tasks.Keys <= t.issued && OnlyTask(s, t, token)
      && LeaseChange(s, t, token, session) && FlagChange(s, t, token, session) && ActiveChange(s, t, token, session)
  {
  }

  lemma TakeChanges(s: System, step: Step)
    requires s.tasks.Keys <= s.issued
    ensures var t, session := Take(s, step), StepSession(s, step);
      && t.tasks.Keys <= t.issued && OnlyTask(s, t, step.token)
      && LeaseChange(s, t, step.token, session) && FlagChange(s, t, step.token, session) && ActiveChange(s, t, step.token, session)
  {
    if !step.Enter? && step.token in s.tasks {
      var task := s.tasks[step.token];
      EffectShiftsLease(s, step, task.session, task.phase);
      EffectShiftsFlags(s, step, task.session, task.phase);
      EffectShiftsActive(s, step, task.session, task.phase);
      ApplyChanges(s, step.token, EffectOf(s, step, task.session, task.phase));
    }
  }

  lemma LeaseChangeKeeps(s: System, t: System, token: nat, session: nat)
    requires TableIsExact(s) && OnlyTask(s, t, token) && LeaseChange(s, t, token, session)
    ensures TableIsExact(t)
  {
    assert forall other :: other != token ==> HeldBy(t, other) == HeldBy(s, other);
  }

  lemma FlagChangeKeeps(s: System, t: System, token: nat, session: nat)
    requires FlagsAreExact(s) && OnlyTask(s, t, token) && FlagChange(s, t, token, session)
    ensures FlagsAreExact(t)
  {
    assert forall other :: other != token ==> LaunchOf(t, other) == LaunchOf(s, other);
    forall session | session in t.launching ensures exists other :: LaunchOf(t, other) == Some(session) {
      if session in s.launching {
        var other :| LaunchOf(s, other) == Some(session);
        assert LaunchOf(t, other) == Some(session);
      } else {
        assert LaunchOf(t, token) == Some(session);
      }
    }
  }

  lemma ActiveChangeKeeps(s: System, t: System, token: nat, session: nat)
    requires ActiveIsExact(s) && OnlyTask(s, t, token) && ActiveChange(s, t, token, session)
    ensures ActiveIsExact(t)
  {
    assert forall other :: other != token ==> ActiveOf(t, other) == ActiveOf(s, other);
  }

  lemma TakeKeepsSafe(s: System, step: Step)
    requires Safe(s)
    ensures Safe(Take(s, step))
  {
    var t := Take(s, step);
    TakeChanges(s, step);
    LeaseChangeKeeps(s, t, step.token, StepSession(s, step));
    FlagChangeKeeps(s, t, step.token, StepSession(s, step));
    ActiveChangeKeeps(s, t, step.token, StepSession(s, step));
  }

  // ----- the lease over whole runs

  lemma {:induction false} RunKeepsSafe(s: System, steps: seq<Step>)
    requires Safe(s)
    ensures Safe(Run(s, steps))
  {
    if steps != [] {
      RunKeepsSafe(s, steps[..|steps| - 1]);
      TakeKeepsSafe(Run(s, steps[..|steps| - 1]), steps[|steps| - 1]);
    }
  }

  /**
   In every interleaving from an idle supervisor the table names a binding iff exactly one launch
   or run holds it, and then it names that holder; with nothing live it is empty, and so are the
   launching flags and the active runs.
   */
  lemma EveryRunIsExclusive(steps: seq<Step>)
    ensures var s := Run(IDLE, steps);
      && (forall binding, token :: HeldBy(s, token) == Some(binding) <==>
            binding in s.writers && s.writers[binding].token == token)
      && (forall a, b :: HeldBy(s, a).Some? && HeldBy(s, a) == HeldBy(s, b) ==> a == b)
      && (s.tasks == map[] ==> s.writers == map[] && s.launching == {} && s.active == map[])
  {
    RunKeepsSafe(IDLE, steps);
  }

  /**
   A lease lasts until its holder gives it up: whatever the others do, including releases and new
   launches in the same session, the table keeps naming the holder.
   */
  lemma {:induction false} LeaseIsStable(s: System, steps: seq<Step>, token: nat, binding: Binding)
    requires Safe(s) && HeldBy(s, token) == Some(binding)
    requires forall i :: 0 <= i < |steps| ==> steps[i].token != token
    ensures HeldBy(Run(s, steps), token) == Some(binding)
    ensures binding in Run(s, steps).writers && Run(s, steps).writers[binding] == Writer(token, s.tasks[token].session)
    ensures token in Run(s, steps).tasks && Run(s, steps).tasks[token] == s.tasks[token]
  {
    if steps != [] {
      var prefix := steps[..|steps| - 1];
      LeaseIsStable(s, prefix, token, binding);
      RunKeepsSafe(s, prefix);
      TakeChanges(Run(s, prefix), steps[|steps| - 1]);
      TakeKeepsSafe(Run(s, prefix), steps[|steps| - 1]);
      assert HeldBy(Run(s, steps), token) == Some(binding);
    }
  }

  // ----- a launch that asked for a binding has it

  /** Past its claim, and not past its release. */
  predicate PastClaim(phase: Phase) {
    !phase.Entered? && !phase.Refused? && !phase.Retiring?
  }

  /** What was asked for is what is held, from the claim to the release. */
  ghost predicate Honored(task: Task) {
    && (task.phase.Entered? ==> task.phase.requested == task.requested)
    && (task.requested.Some? && PastClaim(task.phase) ==> Held(task.phase) == task.requested && !task.phase.Recording?)
  }

  ghost predicate AllHonored(s: System) {
    forall token :: token in s.tasks ==> Honored(s.tasks[token])
  }

  lemma EffectHonors(s: System, step: Step, task: Task)
    requires Honored(task)
    ensures var effect := EffectOf(s, step, task.session, task.phase);
      effect.next.Some? ==> Honored(task.(phase := effect.next.value))
  {
  }

  lemma TakeHonors(s: System, step: Step)
    requires AllHonored(s)
    ensures AllHonored(Take(s, step))
  {
    if !step.Enter? && step.token in s.tasks {
      EffectHonors(s, step, s.tasks[step.token]);
    }
  }

  lemma {:induction false} RunHonors(s: System, steps: seq<Step>)
    requires AllHonored(s)
    ensures AllHonored(Run(s, steps))
  {
    if steps != [] {
      RunHonors(s, steps[..|steps| - 1]);
      TakeHonors(Run(s, steps[..|steps| - 1]), steps[|steps| - 1]);
    }
  }

  /**
   In every run a task that asked for a binding holds it from its claim to its release; so of all
   tasks that asked for one binding at most one is past its claim.
   */
  lemma EveryRunHonorsRequests(steps: seq<Step>, a: nat, b: nat, binding: Binding)
    ensures var s := Run(IDLE, steps);
      && (Asked(s, a, binding) ==> HeldBy(s, a) == Some(binding))
      && (Asked(s, a, binding) && Asked(s, b, binding) ==> a == b)
  {
    var s := Run(IDLE, steps);
    RunHonors(IDLE, steps);
    EveryRunIsExclusive(steps);
    assert Asked(s, a, binding) ==> HeldBy(s, a) == Some(binding);
    assert Asked(s, b, binding) ==> HeldBy(s, b) == Some(binding);
  }

  /** A task that asked for the binding and is past its claim. */
  ghost predicate Asked(s: System, token: nat, binding: Binding) {
    token in s.tasks && s.tasks[token].requested == Some(binding) && PastClaim(s.tasks[token].phase)
  }

  // ----- what the steps of one task bring about

  ghost predicate PhaseIs(s: System, token: nat, phase: Phase) {
    token in s.tasks && s.tasks[token].phase == phase
  }

  /** The launch's claim succeeds iff the identifier is valid and free; otherwise the launch is refused. */
  lemma ClaimDecides(s: System, token: nat, binding: Binding)
    requires PhaseIs(s, token, Entered(Some(binding)))
    ensures var t := Take(s, ClaimRequested(token));
      if ValidIdentifier(binding) && binding !in s.writers then
        PhaseIs(t, token, Guarded(Some(binding))) && t.writers == s.writers[binding := Writer(token, s.tasks[token].session)]
      else PhaseIs(t, token, Refused) && t.writers == s.writers
  {
  }

  /** A frame names a binding: a run without one claims it and then records it; a run that has one keeps it. */
  lemma FrameDecides(s: System, token: nat, binding: Binding, lease: Option<Binding>)
    requires PhaseIs(s, token, Running(lease))
    ensures var t := Take(s, BindingFrame(token, binding));
      if lease.None? && ValidIdentifier(binding) && binding !in s.writers then
        && PhaseIs(t, token, Recording(binding)) && t.writers == s.writers[binding := Writer(token, s.tasks[token].session)]
        && PhaseIs(Take(t, RecordLease(token)), token, Running(Some(binding)))
      else PhaseIs(t, token, Running(lease)) && t.writers == s.writers
  {
  }

  /** A launch under its guard becomes the session's run iff the session has none. */
  lemma InstallDecides(s: System, token: nat, lease: Option<Binding>)
    requires PhaseIs(s, token, Guarded(lease))
    ensures var t, session := Take(s, Install(token)), s.tasks[token].session;
      if session !in s.active then
        && PhaseIs(t, token, Installed(lease)) && t.active == s.active[session := token]
        && PhaseIs(Take(t, DropGuard(token)), token, Running(lease))
        && Take(t, DropGuard(token)).launching == s.launching - {session}
      else PhaseIs(t, token, Failed(lease)) && t.active == s.active
  {
  }

  /** Giving up a lease, in a failed launch and in finalization, frees exactly that binding. */
  lemma ReleaseFrees(s: System, token: nat, binding: Binding)
    requires Safe(s) && token in s.tasks
    ensures s.tasks[token].phase == Unwinding(Some(binding)) ==>
      Take(s, ReleaseUnwound(token)).writers == s.writers - {binding} && token !in Take(s, ReleaseUnwound(token)).tasks
    ensures s.tasks[token].phase == Releasing(Some(binding)) ==>
      Take(s, ReleaseTaken(token)).writers == s.writers - {binding} && PhaseIs(Take(s, ReleaseTaken(token)), token, Retiring)
  {
    assert HeldBy(s, token) == Some(binding) ==> s.writers[binding].token == token;
  }

  // ----- no lease is stuck

  /** A task that only winds down: the step it takes next. */
  function WindDown(token: nat, phase: Phase): Step {
    match phase
    case Entered(_) => ClaimRequested(token)
    case Refused => DropGuard(token)
    case Guarded(_) => FailLaunch(token)
    case Failed(_) => DropGuard(token)
    case Unwinding(_) => ReleaseUnwound(token)
    case Installed(_) => DropGuard(token)
    case Running(_) => Finalize(token)
    case Recording(_) => RecordLease(token)
    case Finalized(_) => TakeLease(token)
    case Releasing(_) => ReleaseTaken(token)
    case Retiring => Retire(token)
  }

  /** How many steps it takes to wind down, at most. */
  function Distance(phase: Phase): nat {
    match phase
    case Entered(_) => 4
    case Guarded(_) => 3
    case Refused => 1
    case Failed(_) => 2
    case Unwinding(_) => 1
    case Installed(_) => 5
    case Recording(_) => 5
    case Running(_) => 4
    case Finalized(_) => 3
    case Releasing(_) => 2
    case Retiring => 1
  }

  lemma WindDownProgresses(s: System, token: nat, session: nat, phase: Phase)
    ensures var effect := EffectOf(s, WindDown(token, phase), session, phase);
      effect.next.Some? ==> Distance(effect.next.value) < Distance(phase)
  {
  }

  lemma {:induction false} FoldThen<S, A>(take: (S, A) -> S, s: S, first: A, steps: seq<A>)
    ensures Fold(take, s, [first] + steps) == Fold(take, take(s, first), steps)
    decreases |steps|
  {
    if steps == [] {
      assert [first] + steps == [first] && [first][..0] == [];
    } else {
      assert ([first] + steps)[..|steps|] == [first] + steps[..|steps| - 1];
      FoldThen(take, s, first, steps[..|steps| - 1]);
    }
  }

  /** From every reachable state the tasks can finish, and then every lease is free again. */
  lemma {:induction false} EveryRunCanDrain(s: System) returns (steps: seq<Step>)
    requires Safe(s)
    ensures var t := Run(s, steps); t.tasks == map[] && t.writers == map[] && t.launching == {} && t.active == map[]
    decreases |s.tasks.Keys|, 1, 0
  {
    if s.tasks == map[] {
      steps := [];
    } else {
      var token :| token in s.tasks;
      steps := DrainFrom(s, token);
    }
  }

  lemma {:induction false} DrainFrom(s: System, token: nat) returns (steps: seq<Step>)
    requires Safe(s) && token in s.tasks
    ensures var t := Run(s, steps); t.tasks == map[] && t.writers == map[] && t.launching == {} && t.active == map[]
    decreases |s.tasks.Keys|, 0, Distance(s.tasks[token].phase)
  {
    var step := WindDown(token, s.tasks[token].phase);
    var t := Take(s, step);
    TakeKeepsSafe(s, step);
    WindDownShrinks(s, token);
    if token in t.tasks {
      steps := DrainFrom(t, token);
    } else {
      steps := EveryRunCanDrain(t);
    }
    FoldThen(Take, s, step, steps);
    steps := [step] + steps;
  }

  /** A task that winds down comes closer to its end, or is gone; the others stay. */
  lemma WindDownShrinks(s: System, token: nat)
    requires token in s.tasks
    ensures var phase := s.tasks[token].phase;
      var t := Take(s, WindDown(token, phase));
      if token in t.tasks then t.tasks.Keys == s.tasks.Keys && Distance(t.tasks[token].phase) < Distance(phase)
      else t.tasks.Keys == s.tasks.Keys - {token} && |t.tasks.Keys| < |s.tasks.Keys|
  {
    var task := s.tasks[token];
    WindDownProgresses(s, token, task.session, task.phase);
    assert s.tasks.Keys - {token} < s.tasks.Keys;
  }

  // ----- a launch from beginning to end

  /** A launch that nobody hinders brings up a run that holds the binding it asked for. */
  lemma LaunchSucceeds(s: System, token: nat, session: nat, binding: Binding)
    requires session !in s.launching && session !in s.active && token !in s.issued
    requires ValidIdentifier(binding) && binding !in s.writers
    ensures var entered := Take(s, Enter(token, session, Some(binding)));
      var up := Take(Take(Take(entered, ClaimRequested(token)), Install(token)), DropGuard(token));
      up == System(s.writers[binding := Writer(token, session)], s.launching, s.active[session := token],
                   s.tasks[token := Task(session, Some(binding), Running(Some(binding)))], s.issued + {token})
  {
    var entered := Take(s, Enter(token, session, Some(binding)));
    var claimed := Take(entered, ClaimRequested(token));
    var installed := Take(claimed, Install(token));
    assert claimed.tasks[token] == Task(session, Some(binding), Guarded(Some(binding)));
    assert installed.tasks[token] == Task(session, Some(binding), Installed(Some(binding)));
    assert s.launching + {session} - {session} == s.launching;
  }

  /** The same system with one task in another phase. */
  function At(s: System, token: nat, phase: Phase): (t: System)
    requires token in s.tasks
    ensures token in t.tasks && t.tasks[token] == s.tasks[token].(phase := phase)
  {
    s.(tasks := s.tasks[token := s.tasks[token].(phase := phase)])
  }

  lemma LeaseIsTaken(s: System, token: nat, lease: Option<Binding>)
    requires token in s.tasks && s.tasks[token].phase == Running(lease)
    ensures Take(Take(s, Finalize(token)), TakeLease(token)) == At(s, token, Releasing(lease))
  {
    assert Take(s, Finalize(token)) == At(s, token, Finalized(lease));
  }

  lemma LeaseIsReleased(s: System, token: nat, binding: Binding)
    requires token in s.tasks && s.tasks[token].phase == Releasing(Some(binding))
    requires binding in s.writers && s.writers[binding].token == token
    ensures Take(s, ReleaseTaken(token)) == At(s, token, Retiring).(writers := s.writers - {binding})
  {
  }

  lemma RunRetires(s: System, token: nat)
    requires token in s.tasks && s.tasks[token].phase == Retiring
    requires s.tasks[token].session in s.active && s.active[s.tasks[token].session] == token
    ensures Take(s, Retire(token)) == s.(active := s.active - {s.tasks[token].session}, tasks := s.tasks - {token})
  {
  }

  /** A run that is finalized gives its binding and its session back, and nothing else changes. */
  lemma RunEnds(s: System, token: nat, binding: Binding)
    requires token in s.tasks && s.tasks[token].phase == Running(Some(binding))
    requires binding in s.writers && s.writers[binding].token == token
    requires s.tasks[token].session in s.active && s.active[s.tasks[token].session] == token
    ensures var taken := Take(Take(s, Finalize(token)), TakeLease(token));
      var down := Take(Take(taken, ReleaseTaken(token)), Retire(token));
      down == System(s.writers - {binding}, s.launching, s.active - {s.tasks[token].session}, s.tasks - {token}, s.issued)
  {
    var taken := At(s, token, Releasing(Some(binding)));
    var released := At(taken, token, Retiring).(writers := s.writers - {binding});
    LeaseIsTaken(s, token, Some(binding));
    LeaseIsReleased(taken, token, binding);
    RunRetires(released, token);
    assert released.tasks - {token} == s.tasks - {token};
  }
}
