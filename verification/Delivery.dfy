/**
 Delivery of answers to structured requests, as every interleaving of the tasks that
 share one run's tracker: responders acting for the user interface, deadline timers,
 result frames read from the child, and the finalization of the run. Each step is
 what one task does between two points where others may run; the log records the
 effects on the child's stdin and on the event stream.
 */
module Delivery {
  import opened Prelude
  import opened PendingTrackers

  /**
   Where a task stands. The first six phases belong to a responder that has claimed the
   request; the next three lead up to the expiry of a request, in its timer or in a responder
   that has just given the request back; the two after those follow a successful expiry.
   */
  datatype Phase =
    | Encoding | Writing | Written | Restoring | Doubtful | Auditing
    | Sleeping(deadline: nat) | CheckingFinalized | Expiring
    | Announcing | Cancelling
    | Finished

  datatype Task = Task(key: Key, phase: Phase)

  /** `Wrote` is a write that may have reached the child; `sure` says that it succeeded. */
  datatype Effect =
    | Wrote(key: Key, cancel: bool, sure: bool)
    | Audited(key: Key)
    | Confirmed(key: Key)
    | Announced(key: Key)

  /** `registered` and `claimant` (who last claimed each id) only record history. */
  datatype System = System(
    tracker: Tracker,
    now: nat,
    tasks: map<nat, Task>,
    finalized: bool,
    registered: set<Key>,
    claimant: map<string, nat>,
    log: seq<Effect>)

  ghost predicate Init(s: System) {
    && s.tracker == Empty(s.tracker.capacity)
    && s.tasks == map[] && s.registered == {} && s.claimant == map[] && s.log == [] && !s.finalized
  }

  // ----- steps

  predicate At(s: System, tid: nat, phase: Phase) {
    tid in s.tasks && s.tasks[tid].phase == phase
  }

  function Goto(s: System, tid: nat, phase: Phase): System
    requires tid in s.tasks
  {
    s.(tasks := s.tasks[tid := s.tasks[tid].(phase := phase)])
  }

  function Log(s: System, effect: Effect): System {
    s.(log := s.log + [effect])
  }

  ghost predicate Advance(s: System, s': System) {
    s'.now >= s.now && s' == s.(now := s'.now)
  }

  /**
   A request frame or a GUI action: the id and kind have not been registered before in this run. The
   clock is read before the wait for the tracker, so the deadline may already be past.
   */
  ghost predicate RegisterRequest(s: System, s': System, tid: nat, key: Key, deadline: nat) {
    && tid !in s.tasks && key !in s.registered
    && match Register(s.tracker, key, deadline)
       case Err(_) => s' == s
       case Ok(t) => s' == s.(
         tracker := t, registered := s.registered + {key}, tasks := s.tasks[tid := Task(key, Sleeping(deadline))])
  }

  ghost predicate ClaimRequest(s: System, s': System, tid: nat, key: Key) {
    && tid !in s.tasks && key.kind != GuiAction
    && match Claim(s.tracker, key, s.now)
       case Err(_) => s' == s
       case Ok(t) => s' == s.(
         tracker := t, tasks := s.tasks[tid := Task(key, Encoding)], claimant := s.claimant[key.id := tid])
  }

  ghost predicate Encode(s: System, s': System, tid: nat) {
    && At(s, tid, Encoding)
    && (s' == Goto(s, tid, Writing) || s' == Goto(s, tid, Restoring))
  }

  ghost predicate Write(s: System, s': System, tid: nat) {
    && At(s, tid, Writing)
    && var key := s.tasks[tid].key;
       (|| s' == Goto(Log(s, Wrote(key, false, true)), tid, Written)
        || s' == Goto(Log(s, Wrote(key, false, false)), tid, Doubtful)
        || s' == Goto(s, tid, Restoring))
  }

  ghost predicate Complete(s: System, s': System, tid: nat) {
    && At(s, tid, Written)
    && match ResolveInFlight(s.tracker, s.tasks[tid].key)
       case Err(_) => s' == Goto(s, tid, Finished)
       case Ok(t) => s' == Goto(s.(tracker := t), tid, Auditing)
  }

  ghost predicate GiveBack(s: System, s': System, tid: nat) {
    && At(s, tid, Restoring)
    && var (t, restored) := Restore(s.tracker, s.tasks[tid].key);
       s' == Goto(s.(tracker := t), tid, if restored then CheckingFinalized else Finished)
  }

  ghost predicate Doubt(s: System, s': System, tid: nat) {
    && At(s, tid, Doubtful)
    && var (t, confirmed) := MarkUncertain(s.tracker, s.tasks[tid].key);
       s' == Goto(s.(tracker := t), tid, if confirmed then Auditing else Finished)
  }

  ghost predicate Audit(s: System, s': System, tid: nat) {
    && At(s, tid, Auditing)
    && (s' == Goto(Log(s, Audited(s.tasks[tid].key)), tid, Finished) || s' == Goto(s, tid, Finished))
  }

  ghost predicate Wake(s: System, s': System, tid: nat) {
    && tid in s.tasks && s.tasks[tid].phase.Sleeping? && s.tasks[tid].phase.deadline <= s.now
    && s' == Goto(s, tid, CheckingFinalized)
  }

  ghost predicate CheckFinalized(s: System, s': System, tid: nat) {
    && At(s, tid, CheckingFinalized)
    && s' == Goto(s, tid, if s.finalized then Finished else Expiring)
  }

  ghost predicate ExpireRequest(s: System, s': System, tid: nat) {
    && At(s, tid, Expiring)
    && var (t, expired) := Expire(s.tracker, s.tasks[tid].key, s.now);
       s' == Goto(s.(tracker := t), tid, if expired then Announcing else Finished)
  }

  ghost predicate Announce(s: System, s': System, tid: nat) {
    && At(s, tid, Announcing)
    && s' == Goto(Log(s, Announced(s.tasks[tid].key)), tid, Cancelling)
  }

  ghost predicate Cancel(s: System, s': System, tid: nat) {
    && At(s, tid, Cancelling)
    && var key := s.tasks[tid].key;
       (|| s' == Goto(s, tid, Finished)
        || (key.kind != GuiAction
            && exists sure :: s' == Goto(Log(s, Wrote(key, true, sure)), tid, Finished)))
  }

  ghost predicate ResultFrame(s: System, s': System, key: Key) {
    && key.kind != GuiAction
    && var (t, confirmed) := Confirm(s.tracker, key);
       s' == if confirmed then Log(s.(tracker := t), Confirmed(key)) else s
  }

  ghost predicate SettleAction(s: System, s': System, key: Key) {
    && key.kind == GuiAction
    && (|| s' == s.(tracker := OrKeep(s.tracker, ResolveActive(s.tracker, key, s.now)))
        || s' == s.(tracker := ForceResolve(s.tracker, key)))
  }

  ghost predicate Finalize(s: System, s': System) {
    || s' == s.(finalized := true)
    || (s.finalized && s' == s.(tracker := ClearActive(s.tracker)))
  }

  ghost predicate ResponderStep(s: System, s': System, tid: nat) {
    || Encode(s, s', tid) || Write(s, s', tid) || Complete(s, s', tid)
    || GiveBack(s, s', tid) || Doubt(s, s', tid) || Audit(s, s', tid)
  }

  ghost predicate ExpiryStep(s: System, s': System, tid: nat) {
    || Wake(s, s', tid) || CheckFinalized(s, s', tid) || ExpireRequest(s, s', tid)
    || Announce(s, s', tid) || Cancel(s, s', tid)
  }

  ghost predicate EnvironmentStep(s: System, s': System) {
    || Advance(s, s') || Finalize(s, s')
    || (exists key :: ResultFrame(s, s', key))
    || (exists key :: SettleAction(s, s', key))
  }

  ghost predicate Next(s: System, s': System) {
    || (exists tid, key, deadline :: RegisterRequest(s, s', tid, key, deadline))
    || (exists tid, key :: ClaimRequest(s, s', tid, key))
    || (exists tid :: ResponderStep(s, s', tid))
    || (exists tid :: ExpiryStep(s, s', tid))
    || EnvironmentStep(s, s')
  }

  ghost predicate IsRun(run: seq<System>) {
    && run != [] && Init(run[0])
    && forall i :: 0 <= i < |run| - 1 ==> Linked(run, i)
  }

  ghost predicate Linked(run: seq<System>, i: nat)
    requires i < |run| - 1
  {
    Next(run[i], run[i + 1])
  }

  // ----- what the log says about one request

  predicate WroteTo(e: Effect, key: Key) {
    e.Wrote? && e.key == key
  }

  ghost predicate Unwritten(s: System, key: Key) {
    forall i :: 0 <= i < |s.log| ==> !WroteTo(s.log[i], key)
  }

  ghost predicate Unaudited(s: System, key: Key) {
    forall i :: 0 <= i < |s.log| ==> s.log[i] != Audited(key)
  }

  /** Proof that the child received the answer, among the first `n` effects. */
  ghost predicate Delivered(log: seq<Effect>, n: nat, key: Key)
    requires n <= |log|
  {
    exists i :: 0 <= i < n && (log[i] == Wrote(key, false, true) || log[i] == Confirmed(key))
  }

  ghost predicate AtMostOneWrite(s: System) {
    forall i, j :: 0 <= i < j < |s.log| && s.log[i].Wrote? && s.log[j].Wrote? ==> s.log[i].key != s.log[j].key
  }

  ghost predicate AtMostOneAudit(s: System) {
    forall i, j :: 0 <= i < j < |s.log| && s.log[i].Audited? && s.log[j].Audited? ==> s.log[i].key != s.log[j].key
  }

  ghost predicate AuditsAreEarned(s: System) {
    forall i :: 0 <= i < |s.log| && s.log[i].Audited? ==> Delivered(s.log, i, s.log[i].key)
  }

  // ----- the invariant behind it

  predicate Owns(p: Phase) {
    p.Encoding? || p.Writing? || p.Written? || p.Restoring? || p.Doubtful?
  }

  predicate Holds(p: Phase) {
    Owns(p) || p.Auditing?
  }

  predicate Contends(p: Phase) {
    Holds(p) || p.Announcing? || p.Cancelling?
  }

  predicate MayStillWrite(p: Phase) {
    p.Encoding? || p.Writing? || p.Restoring? || p.Announcing? || p.Cancelling?
  }

  ghost predicate Exclusive(s: System) {
    forall a, b :: a in s.tasks && b in s.tasks && s.tasks[a].key == s.tasks[b].key ==>
      Contends(s.tasks[a].phase) && Contends(s.tasks[b].phase) ==> a == b
  }

  /** A request waiting in the tracker has caused nothing yet and nobody is working on it. */
  ghost predicate ActiveUntouched(s: System) {
    forall key :: Waits(s.tracker.active, key) ==>
      && Unwritten(s, key) && Unaudited(s, key)
      && (forall tid :: tid in s.tasks && s.tasks[tid].key == key ==> !Contends(s.tasks[tid].phase))
  }

  ghost predicate InFlightOwned(s: System) {
    forall key :: Waits(s.tracker.inFlight, key) ==>
      && key.id in s.claimant && s.claimant[key.id] in s.tasks
      && s.tasks[s.claimant[key.id]].key == key && Owns(s.tasks[s.claimant[key.id]].phase)
  }

  ghost predicate HonestTask(s: System, tid: nat)
    requires tid in s.tasks
  {
    var Task(key, phase) := s.tasks[tid];
    && key in s.registered
    && (MayStillWrite(phase) ==> Unwritten(s, key))
    && (Holds(phase) ==> Unaudited(s, key))
    && (phase.Written? || phase.Auditing? ==> Delivered(s.log, |s.log|, key))
    && (Owns(phase) && key in s.tracker.resolved ==> Delivered(s.log, |s.log|, key))
  }

  ghost predicate TasksHonest(s: System) {
    forall tid :: tid in s.tasks ==> HonestTask(s, tid)
  }

  ghost predicate AllRegistered(s: System) {
    && (forall key :: Live(s.tracker, key) || Remembers(s.tracker, key) ==> key in s.registered)
    && (forall i :: 0 <= i < |s.log| ==> s.log[i].key in s.registered)
  }

  ghost predicate Safe(s: System) {
    && Valid(s.tracker)
    && Exclusive(s) && ActiveUntouched(s) && InFlightOwned(s) && TasksHonest(s) && AllRegistered(s)
    && AtMostOneWrite(s) && AtMostOneAudit(s) && AuditsAreEarned(s)
  }

  // ----- steps that move one task and only shrink what waits in the tracker

  /** `key` may have left the waiting requests and entered the memory; nothing else changed hands. */
  ghost predicate Shrinks(t: Tracker, t': Tracker, key: Key) {
    && (forall k :: Waits(t'.active, k) ==> Waits(t.active, k))
    && (forall k :: Waits(t'.inFlight, k) ==> Waits(t.inFlight, k))
    && t'.resolved <= t.resolved + {key}
    && t'.uncertain <= t.uncertain + {key}
  }

  lemma SettlingShrinks(t: Tracker, key: Key)
    requires Valid(t)
    ensures Waits(t.active, key) ==>
      var t' := RememberResolved(t.(active := t.active - {key.id}), key);
      Valid(t') && Shrinks(t, t', key) && !Live(t', key)
    ensures Waits(t.inFlight, key) ==>
      var d := t.(inFlight := t.inFlight - {key.id});
      && Valid(RememberResolved(d, key)) && Valid(RememberUncertain(d, key))
      && Shrinks(t, RememberResolved(d, key), key) && !Live(RememberResolved(d, key), key)
      && Shrinks(t, RememberUncertain(d, key), key) && !Live(RememberUncertain(d, key), key)
  {
    SettleActiveKeepsValid(t, key);
    SettleInFlightKeepsValid(t, key);
  }

  lemma ConfirmShrinks(t: Tracker, key: Key)
    requires Valid(t)
    ensures Valid(Confirm(t, key).0) && Shrinks(t, Confirm(t, key).0, key)
    ensures Confirm(t, key).1 ==> !Live(Confirm(t, key).0, key)
  {
    ConfirmKeepsValid(t, key);
    SettlingShrinks(t, key);
  }

  lemma DeliveredGrows(log: seq<Effect>, more: seq<Effect>, n: nat, key: Key)
    requires n <= |log| && Delivered(log, n, key)
    ensures Delivered(log + more, n, key) && Delivered(log + more, |log + more|, key)
  {
    var i :| 0 <= i < n && (log[i] == Wrote(key, false, true) || log[i] == Confirmed(key));
    assert (log + more)[i] == log[i];
  }

  /** Effects that the log may receive: a first write, or a first audit that delivery has earned. */
  ghost predicate Admissible(s: System, effect: Effect) {
    match effect
    case Wrote(key, _, _) => Unwritten(s, key)
    case Audited(key) => Unaudited(s, key) && Delivered(s.log, |s.log|, key)
    case _ => true
  }

  lemma LogKeepsPromises(s: System, effect: Effect)
    requires AtMostOneWrite(s) && AtMostOneAudit(s) && AuditsAreEarned(s) && Admissible(s, effect)
    ensures AtMostOneWrite(Log(s, effect)) && AtMostOneAudit(Log(s, effect)) && AuditsAreEarned(Log(s, effect))
  {
    var l := Log(s, effect);
    forall i | 0 <= i < |l.log| && l.log[i].Audited? ensures Delivered(l.log, i, l.log[i].key) {
      DeliveredGrows(s.log, [effect], i, l.log[i].key);
    }
  }

  /** No task other than `tid` works on the request that `tid` works on. */
  ghost predicate Sole(s: System, tid: nat)
    requires tid in s.tasks
  {
    forall a :: a in s.tasks && a != tid && s.tasks[a].key == s.tasks[tid].key ==> !Contends(s.tasks[a].phase)
  }

  /**
   One task moves to `phase`, possibly settling its own request and logging one effect of it.
   Every step of a responder or an expiry is of this form, except giving a request back.
   */
  ghost predicate Moves(s: System, s': System, tid: nat, t: Tracker, more: seq<Effect>, phase: Phase) {
    && tid in s.tasks
    && s' == Goto(s.(tracker := t, log := s.log + more), tid, phase)
    && var key := s.tasks[tid].key;
    && Shrinks(s.tracker, t, key)
    && (more == [] || (|more| == 1 && more[0].key == key))
    && (Contends(phase) || more != [] || t != s.tracker ==> Sole(s, tid) && !Waits(t.active, key))
  }

  lemma MoveKeepsActive(s: System, s': System, tid: nat, t: Tracker, more: seq<Effect>, phase: Phase)
    requires ActiveUntouched(s) && Moves(s, s', tid, t, more, phase)
    ensures ActiveUntouched(s')
  {
    forall k | Waits(t.active, k)
      ensures Unwritten(s', k) && Unaudited(s', k)
      ensures forall a :: a in s'.tasks && s'.tasks[a].key == k ==> !Contends(s'.tasks[a].phase)
    {
      assert Waits(s.tracker.active, k);
    }
  }

  lemma MoveKeepsInFlight(s: System, s': System, tid: nat, t: Tracker, more: seq<Effect>, phase: Phase)
    requires InFlightOwned(s) && Moves(s, s', tid, t, more, phase)
    requires Waits(t.inFlight, s.tasks[tid].key) && Owns(s.tasks[tid].phase) ==> Owns(phase)
    ensures InFlightOwned(s')
  {
    forall k | Waits(t.inFlight, k)
      ensures k.id in s.claimant && s.claimant[k.id] in s.tasks
      ensures s'.tasks[s.claimant[k.id]].key == k && Owns(s'.tasks[s.claimant[k.id]].phase)
    {
      assert Waits(s.tracker.inFlight, k);
    }
  }

  lemma MoveKeepsHonest(s: System, s': System, tid: nat, t: Tracker, more: seq<Effect>, phase: Phase)
    requires TasksHonest(s) && Moves(s, s', tid, t, more, phase)
    requires HonestTask(s', tid)
    ensures TasksHonest(s')
  {
    forall a | a in s'.tasks && a != tid ensures HonestTask(s', a) {
      var Task(key, p) := s.tasks[a];
      assert HonestTask(s, a);
      if Delivered(s.log, |s.log|, key) {
        DeliveredGrows(s.log, more, |s.log|, key);
      }
    }
  }

  lemma MoveKeepsRegistered(s: System, s': System, tid: nat, t: Tracker, more: seq<Effect>, phase: Phase)
    requires AllRegistered(s) && Moves(s, s', tid, t, more, phase)
    requires s.tasks[tid].key in s.registered
    ensures AllRegistered(s')
  {
    forall k | Live(t, k) || Remembers(t, k) ensures k in s.registered {
      assert Live(s.tracker, k) || Remembers(s.tracker, k) || k == s.tasks[tid].key;
    }
  }

  lemma MoveKeepsPromises(s: System, s': System, more: seq<Effect>)
    requires AtMostOneWrite(s) && AtMostOneAudit(s) && AuditsAreEarned(s)
    requires more == [] || (|more| == 1 && Admissible(s, more[0]))
    requires s'.log == s.log + more
    ensures AtMostOneWrite(s') && AtMostOneAudit(s') && AuditsAreEarned(s')
  {
    if more == [] {
      assert s'.log == s.log;
    } else {
      LogKeepsPromises(s, more[0]);
      assert s'.log == Log(s, more[0]).log;
    }
  }

  lemma MoveKeepsExclusive(s: System, s': System, tid: nat, t: Tracker, more: seq<Effect>, phase: Phase)
    requires Exclusive(s) && Moves(s, s', tid, t, more, phase)
    ensures Exclusive(s')
  {
  }

  lemma MoveKeepsSafe(s: System, s': System, tid: nat, t: Tracker, more: seq<Effect>, phase: Phase)
    requires Safe(s) && Moves(s, s', tid, t, more, phase)
    requires Valid(t) && HonestTask(s', tid)
    requires more != [] ==> Admissible(s, more[0])
    requires Waits(t.inFlight, s.tasks[tid].key) && Owns(s.tasks[tid].phase) ==> Owns(phase)
    ensures Safe(s')
  {
    MoveKeepsExclusive(s, s', tid, t, more, phase);
    MoveKeepsActive(s, s', tid, t, more, phase);
    MoveKeepsInFlight(s, s', tid, t, more, phase);
    MoveKeepsHonest(s, s', tid, t, more, phase);
    assert HonestTask(s, tid);
    MoveKeepsRegistered(s, s', tid, t, more, phase);
    MoveKeepsPromises(s, s', more);
  }

  lemma ContenderIsSole(s: System, tid: nat)
    requires Safe(s) && tid in s.tasks && Contends(s.tasks[tid].phase)
    ensures Sole(s, tid) && !Waits(s.tracker.active, s.tasks[tid].key)
  {
  }

  // ----- each step keeps the invariant

  lemma ShrinksByNothing(t: Tracker, key: Key)
    ensures Shrinks(t, t, key)
  {
  }

  /** A step that touches only one task's phase. */
  lemma PhaseKeepsSafe(s: System, s': System, tid: nat, phase: Phase)
    requires Safe(s) && tid in s.tasks && s' == Goto(s, tid, phase)
    requires Contends(phase) ==> Contends(s.tasks[tid].phase)
    requires HonestTask(s', tid)
    requires Waits(s.tracker.inFlight, s.tasks[tid].key) && Owns(s.tasks[tid].phase) ==> Owns(phase)
    ensures Safe(s')
  {
    assert s'.log == s.log + [];
    ShrinksByNothing(s.tracker, s.tasks[tid].key);
    if Contends(phase) {
      ContenderIsSole(s, tid);
    }
    MoveKeepsSafe(s, s', tid, s.tracker, [], phase);
  }

  /** A step that logs one effect of a task's own request and changes the phase. */
  lemma EffectKeepsSafe(s: System, s': System, tid: nat, effect: Effect, phase: Phase)
    requires Safe(s) && tid in s.tasks && s' == Goto(Log(s, effect), tid, phase)
    requires effect.key == s.tasks[tid].key && Admissible(s, effect)
    requires Contends(s.tasks[tid].phase)
    requires HonestTask(s', tid)
    requires Waits(s.tracker.inFlight, s.tasks[tid].key) && Owns(s.tasks[tid].phase) ==> Owns(phase)
    ensures Safe(s')
  {
    ShrinksByNothing(s.tracker, s.tasks[tid].key);
    ContenderIsSole(s, tid);
    MoveKeepsSafe(s, s', tid, s.tracker, [effect], phase);
  }

  lemma EncodeKeepsSafe(s: System, s': System, tid: nat)
    requires Safe(s) && Encode(s, s', tid)
    ensures Safe(s')
  {
    assert HonestTask(s, tid);
    PhaseKeepsSafe(s, s', tid, s'.tasks[tid].phase);
  }

  lemma WriteKeepsSafe(s: System, s': System, tid: nat)
    requires Safe(s) && Write(s, s', tid)
    ensures Safe(s')
  {
    var key := s.tasks[tid].key;
    assert HonestTask(s, tid);
    if s' == Goto(s, tid, Restoring) {
      PhaseKeepsSafe(s, s', tid, Restoring);
    } else {
      var effect := s'.log[|s.log|];
      assert s'.log == s.log + [effect];
      assert effect.sure ==> s'.log[|s.log|] == Wrote(key, false, true);
      if Delivered(s.log, |s.log|, key) {
        DeliveredGrows(s.log, [effect], |s.log|, key);
      }
      EffectKeepsSafe(s, s', tid, effect, s'.tasks[tid].phase);
    }
  }

  lemma CompleteKeepsSafe(s: System, s': System, tid: nat)
    requires Safe(s) && Complete(s, s', tid)
    ensures Safe(s')
  {
    var key := s.tasks[tid].key;
    assert HonestTask(s, tid);
    ContenderIsSole(s, tid);
    SettlingShrinks(s.tracker, key);
    ShrinksByNothing(s.tracker, key);
    assert s'.log == s.log + [];
    assert key in s.tracker.resolved ==> !Waits(s.tracker.inFlight, key) by {
      assert Live(s.tracker, key) ==> !Remembers(s.tracker, key);
    }
    MoveKeepsSafe(s, s', tid, s'.tracker, [], s'.tasks[tid].phase);
  }

  lemma DoubtKeepsSafe(s: System, s': System, tid: nat)
    requires Safe(s) && Doubt(s, s', tid)
    ensures Safe(s')
  {
    var key := s.tasks[tid].key;
    assert HonestTask(s, tid);
    ContenderIsSole(s, tid);
    SettlingShrinks(s.tracker, key);
    ShrinksByNothing(s.tracker, key);
    assert s'.log == s.log + [];
    assert key in s.tracker.resolved ==> !Waits(s.tracker.inFlight, key) by {
      assert Live(s.tracker, key) ==> !Remembers(s.tracker, key);
    }
    MoveKeepsSafe(s, s', tid, s'.tracker, [], s'.tasks[tid].phase);
  }

  lemma AuditKeepsSafe(s: System, s': System, tid: nat)
    requires Safe(s) && Audit(s, s', tid)
    ensures Safe(s')
  {
    assert HonestTask(s, tid);
    if s' == Goto(s, tid, Finished) {
      PhaseKeepsSafe(s, s', tid, Finished);
    } else {
      EffectKeepsSafe(s, s', tid, Audited(s.tasks[tid].key), Finished);
    }
  }

  lemma WakeKeepsSafe(s: System, s': System, tid: nat)
    requires Safe(s) && (Wake(s, s', tid) || CheckFinalized(s, s', tid))
    ensures Safe(s')
  {
    assert HonestTask(s, tid);
    PhaseKeepsSafe(s, s', tid, s'.tasks[tid].phase);
  }

  lemma AnnounceKeepsSafe(s: System, s': System, tid: nat)
    requires Safe(s) && Announce(s, s', tid)
    ensures Safe(s')
  {
    assert HonestTask(s, tid);
    EffectKeepsSafe(s, s', tid, Announced(s.tasks[tid].key), Cancelling);
  }

  lemma CancelKeepsSafe(s: System, s': System, tid: nat)
    requires Safe(s) && Cancel(s, s', tid)
    ensures Safe(s')
  {
    var key := s.tasks[tid].key;
    assert HonestTask(s, tid);
    if s' == Goto(s, tid, Finished) {
      PhaseKeepsSafe(s, s', tid, Finished);
    } else {
      var sure :| s' == Goto(Log(s, Wrote(key, true, sure)), tid, Finished);
      EffectKeepsSafe(s, s', tid, Wrote(key, true, sure), Finished);
    }
  }

  lemma ExpireKeepsSafe(s: System, s': System, tid: nat)
    requires Safe(s) && ExpireRequest(s, s', tid)
    ensures Safe(s')
  {
    if Expire(s.tracker, s.tasks[tid].key, s.now).1 {
      ExpiredKeepsSafe(s, s', tid);
    } else {
      PhaseKeepsSafe(s, s', tid, Finished);
    }
  }

  lemma ExpiredKeepsSafe(s: System, s': System, tid: nat)
    requires Safe(s) && ExpireRequest(s, s', tid) && Expire(s.tracker, s.tasks[tid].key, s.now).1
    ensures Safe(s')
  {
    var key := s.tasks[tid].key;
    assert HonestTask(s, tid);
    assert Waits(s.tracker.active, key) && Unwritten(s, key);
    SettlingShrinks(s.tracker, key);
    assert s'.log == s.log + [];
    MoveKeepsSafe(s, s', tid, s'.tracker, [], Announcing);
  }

  lemma GiveBackKeepsSafe(s: System, s': System, tid: nat)
    requires Safe(s) && GiveBack(s, s', tid)
    ensures Safe(s')
  {
    var key := s.tasks[tid].key;
    assert HonestTask(s, tid);
    ContenderIsSole(s, tid);
    if !Waits(s.tracker.inFlight, key) {
      PhaseKeepsSafe(s, s', tid, Finished);
    } else {
      MoveKeepsValid(s.tracker, key, s.now);
      assert forall k :: Waits(s'.tracker.active, k) ==> k == key || Waits(s.tracker.active, k);
      assert forall k :: Waits(s'.tracker.inFlight, k) ==> k != key && Waits(s.tracker.inFlight, k);
      GivenBackKeepsRest(s, s', tid);
    }
  }

  /** Once the given-back request has no worker left, it may wait again untouched. */
  lemma GivenBackKeepsRest(s: System, s': System, tid: nat)
    requires Exclusive(s) && ActiveUntouched(s) && InFlightOwned(s) && TasksHonest(s) && AllRegistered(s)
    requires At(s, tid, Restoring) && Sole(s, tid)
    requires s' == Goto(s.(tracker := s'.tracker), tid, CheckingFinalized)
    requires forall k :: Waits(s'.tracker.active, k) ==> k == s.tasks[tid].key || Waits(s.tracker.active, k)
    requires forall k :: Waits(s'.tracker.inFlight, k) ==> k != s.tasks[tid].key && Waits(s.tracker.inFlight, k)
    requires s'.tracker.resolved == s.tracker.resolved && s'.tracker.uncertain == s.tracker.uncertain
    ensures Exclusive(s') && ActiveUntouched(s') && InFlightOwned(s') && TasksHonest(s') && AllRegistered(s')
  {
    assert HonestTask(s, tid);
    GivenBackKeepsHonest(s, s', tid);
    GivenBackKeepsOwners(s, s', tid);
  }

  lemma GivenBackKeepsHonest(s: System, s': System, tid: nat)
    requires TasksHonest(s)
    requires At(s, tid, Restoring) && Sole(s, tid)
    requires s' == Goto(s.(tracker := s'.tracker), tid, CheckingFinalized)
    requires s'.tracker.resolved == s.tracker.resolved
    ensures TasksHonest(s')
  {
    forall a | a in s'.tasks ensures HonestTask(s', a) {
      assert HonestTask(s, a);
    }
  }

  lemma GivenBackKeepsOwners(s: System, s': System, tid: nat)
    requires InFlightOwned(s)
    requires At(s, tid, Restoring) && Sole(s, tid)
    requires s' == Goto(s.(tracker := s'.tracker), tid, CheckingFinalized)
    requires forall k :: Waits(s'.tracker.inFlight, k) ==> k != s.tasks[tid].key && Waits(s.tracker.inFlight, k)
    ensures InFlightOwned(s')
  {
    forall k | Waits(s'.tracker.inFlight, k)
      ensures k.id in s.claimant && s.claimant[k.id] in s.tasks
      ensures s'.tasks[s.claimant[k.id]].key == k && Owns(s'.tasks[s.claimant[k.id]].phase)
    {
      assert Waits(s.tracker.inFlight, k);
    }
  }

  // Steps that start a task.

  lemma RegisterAdds(t: Tracker, key: Key, deadline: nat)
    requires Register(t, key, deadline).Ok?
    ensures var t' := Register(t, key, deadline).value;
      && (forall k :: Waits(t'.active, k) ==> k == key || Waits(t.active, k))
      && t'.inFlight == t.inFlight && t'.resolved == t.resolved && t'.uncertain == t.uncertain
  {
  }

  lemma RegisterKeepsSafe(s: System, s': System, tid: nat, key: Key, deadline: nat)
    requires Safe(s) && RegisterRequest(s, s', tid, key, deadline)
    ensures Safe(s')
  {
    RegisterKeepsRest(s, s', tid, key, deadline);
    RegisterKeepsTracker(s, s', tid, key, deadline);
  }

  lemma RegisterKeepsTracker(s: System, s': System, tid: nat, key: Key, deadline: nat)
    requires Valid(s.tracker) && RegisterRequest(s, s', tid, key, deadline)
    ensures Valid(s'.tracker)
  {
    if Register(s.tracker, key, deadline).Ok? {
      RegisterKeepsValid(s.tracker, key, deadline);
      assert s'.tracker == Register(s.tracker, key, deadline).value;
    } else {
      assert s'.tracker == s.tracker;
    }
  }

  lemma RegisterKeepsRest(s: System, s': System, tid: nat, key: Key, deadline: nat)
    requires RegisterRequest(s, s', tid, key, deadline)
    requires Exclusive(s) && ActiveUntouched(s) && InFlightOwned(s) && TasksHonest(s) && AllRegistered(s)
    requires AtMostOneWrite(s) && AtMostOneAudit(s) && AuditsAreEarned(s)
    ensures Exclusive(s') && ActiveUntouched(s') && InFlightOwned(s') && TasksHonest(s') && AllRegistered(s')
    ensures AtMostOneWrite(s') && AtMostOneAudit(s') && AuditsAreEarned(s')
  {
    if Register(s.tracker, key, deadline).Ok? {
      RegisterAdds(s.tracker, key, deadline);
      RegisteredKeepsRest(s, s', s'.tracker, tid, key, deadline);
    }
  }

  lemma RegisteredKeepsRest(s: System, s': System, t: Tracker, tid: nat, key: Key, deadline: nat)
    requires Exclusive(s) && ActiveUntouched(s) && InFlightOwned(s) && TasksHonest(s) && AllRegistered(s)
    requires tid !in s.tasks && key !in s.registered
    requires s' == s.(tracker := t, registered := s.registered + {key},
                      tasks := s.tasks[tid := Task(key, Sleeping(deadline))])
    requires forall k :: Waits(t.active, k) ==> k == key || Waits(s.tracker.active, k)
    requires t.inFlight == s.tracker.inFlight
    requires t.resolved == s.tracker.resolved && t.uncertain == s.tracker.uncertain
    ensures Exclusive(s') && ActiveUntouched(s') && InFlightOwned(s') && TasksHonest(s') && AllRegistered(s')
  {
    RegisteredIsUntouched(s, s', t, tid, key, deadline);
    RegisteredKeepsHonest(s, s', t, tid, key, deadline);
  }

  /** A key registered for the first time has caused nothing yet. */
  lemma RegisteredIsUntouched(s: System, s': System, t: Tracker, tid: nat, key: Key, deadline: nat)
    requires ActiveUntouched(s) && TasksHonest(s) && AllRegistered(s)
    requires tid !in s.tasks && key !in s.registered
    requires s' == s.(tracker := t, registered := s.registered + {key},
                      tasks := s.tasks[tid := Task(key, Sleeping(deadline))])
    requires forall k :: Waits(t.active, k) ==> k == key || Waits(s.tracker.active, k)
    ensures ActiveUntouched(s')
  {
    assert forall a :: a in s.tasks ==> HonestTask(s, a);
  }

  lemma RegisteredKeepsHonest(s: System, s': System, t: Tracker, tid: nat, key: Key, deadline: nat)
    requires TasksHonest(s)
    requires tid !in s.tasks && key !in s.registered
    requires s' == s.(tracker := t, registered := s.registered + {key},
                      tasks := s.tasks[tid := Task(key, Sleeping(deadline))])
    requires t.resolved == s.tracker.resolved
    ensures TasksHonest(s')
  {
    forall a | a in s.tasks ensures HonestTask(s', a) {
      assert HonestTask(s, a);
    }
  }

  lemma ClaimKeepsSafe(s: System, s': System, tid: nat, key: Key)
    requires Safe(s) && ClaimRequest(s, s', tid, key)
    ensures Safe(s')
  {
    if s' != s {
      MoveKeepsValid(s.tracker, key, s.now);
      assert Waits(s.tracker.active, key) && Live(s.tracker, key);
      assert forall k :: Waits(s'.tracker.active, k) ==> k != key && Waits(s.tracker.active, k);
      assert forall k :: Waits(s'.tracker.inFlight, k) ==> k == key || (k.id != key.id && Waits(s.tracker.inFlight, k));
      ClaimedKeepsRest(s, s', tid, key);
    }
  }

  lemma ClaimedKeepsRest(s: System, s': System, tid: nat, key: Key)
    requires Exclusive(s) && ActiveUntouched(s) && InFlightOwned(s) && TasksHonest(s) && AllRegistered(s)
    requires tid !in s.tasks && Waits(s.tracker.active, key) && !Remembers(s.tracker, key)
    requires s' == s.(tracker := s'.tracker, tasks := s.tasks[tid := Task(key, Encoding)],
                      claimant := s.claimant[key.id := tid])
    requires forall k :: Waits(s'.tracker.active, k) ==> k != key && Waits(s.tracker.active, k)
    requires forall k :: Waits(s'.tracker.inFlight, k) ==>
      k == key || (k.id != key.id && Waits(s.tracker.inFlight, k))
    requires s'.tracker.resolved == s.tracker.resolved && s'.tracker.uncertain == s.tracker.uncertain
    ensures Exclusive(s') && ActiveUntouched(s') && InFlightOwned(s') && TasksHonest(s') && AllRegistered(s')
  {
    assert Live(s.tracker, key);
    ClaimedKeepsHonest(s, s', tid, key);
    ClaimedIsOwned(s, s', tid, key);
  }

  lemma ClaimedKeepsHonest(s: System, s': System, tid: nat, key: Key)
    requires ActiveUntouched(s) && TasksHonest(s) && AllRegistered(s)
    requires tid !in s.tasks && Waits(s.tracker.active, key) && !Remembers(s.tracker, key)
    requires s' == s.(tracker := s'.tracker, tasks := s.tasks[tid := Task(key, Encoding)],
                      claimant := s.claimant[key.id := tid])
    requires s'.tracker.resolved == s.tracker.resolved
    ensures TasksHonest(s')
  {
    assert Live(s.tracker, key);
    forall a | a in s'.tasks ensures HonestTask(s', a) {
      if a != tid {
        assert HonestTask(s, a);
      }
    }
  }

  lemma ClaimedIsOwned(s: System, s': System, tid: nat, key: Key)
    requires InFlightOwned(s)
    requires tid !in s.tasks && Waits(s.tracker.active, key) && !Remembers(s.tracker, key)
    requires s' == s.(tracker := s'.tracker, tasks := s.tasks[tid := Task(key, Encoding)],
                      claimant := s.claimant[key.id := tid])
    requires forall k :: Waits(s'.tracker.inFlight, k) ==>
      k == key || (k.id != key.id && Waits(s.tracker.inFlight, k))
    ensures InFlightOwned(s')
  {
    forall k | Waits(s'.tracker.inFlight, k) && k != key
      ensures k.id in s.claimant && s.claimant[k.id] in s.tasks
      ensures s'.tasks[s'.claimant[k.id]].key == k && Owns(s'.tasks[s'.claimant[k.id]].phase)
    {
      assert Waits(s.tracker.inFlight, k);
    }
  }

  // Steps of the surroundings: only the tracker shrinks, or a child confirmation is logged.

  lemma ShrinkKeepsRest(s: System, t: Tracker, key: Key)
    requires Exclusive(s) && ActiveUntouched(s) && InFlightOwned(s) && TasksHonest(s) && AllRegistered(s)
    requires Shrinks(s.tracker, t, key) && key in s.registered
    requires key in t.resolved && key !in s.tracker.resolved ==>
      forall a :: a in s.tasks && s.tasks[a].key == key && Owns(s.tasks[a].phase) ==> Delivered(s.log, |s.log|, key)
    ensures var s' := s.(tracker := t);
      Exclusive(s') && ActiveUntouched(s') && InFlightOwned(s') && TasksHonest(s') && AllRegistered(s')
  {
    var s' := s.(tracker := t);
    forall a | a in s'.tasks ensures HonestTask(s', a) {
      assert HonestTask(s, a);
    }
    forall k | Waits(t.inFlight, k)
      ensures k.id in s.claimant && s.claimant[k.id] in s.tasks
      ensures s.tasks[s.claimant[k.id]].key == k && Owns(s.tasks[s.claimant[k.id]].phase)
    {
      assert Waits(s.tracker.inFlight, k);
    }
    forall k | Live(t, k) || Remembers(t, k) ensures k in s.registered {
      assert k == key || Live(s.tracker, k) || Remembers(s.tracker, k);
    }
  }

  lemma ConfirmationKeepsSafe(s: System, key: Key)
    requires Safe(s) && key in s.registered
    ensures Safe(Log(s, Confirmed(key))) && Delivered(Log(s, Confirmed(key)).log, |s.log| + 1, key)
  {
    var l := Log(s, Confirmed(key));
    LogKeepsPromises(s, Confirmed(key));
    assert l.log[|s.log|] == Confirmed(key);
    assert forall k :: Unwritten(s, k) ==> Unwritten(l, k);
    assert forall k :: Unaudited(s, k) ==> Unaudited(l, k);
    forall a | a in l.tasks ensures HonestTask(l, a) {
      assert HonestTask(s, a);
      if Delivered(s.log, |s.log|, s.tasks[a].key) {
        DeliveredGrows(s.log, [Confirmed(key)], |s.log|, s.tasks[a].key);
      }
    }
  }

  lemma ResultFrameKeepsSafe(s: System, s': System, key: Key)
    requires Safe(s) && ResultFrame(s, s', key)
    ensures Safe(s')
  {
    if s' != s {
      ConfirmShrinks(s.tracker, key);
      assert key in s.registered by {
        assert Live(s.tracker, key) || Remembers(s.tracker, key);
      }
      ConfirmationKeepsSafe(s, key);
      ShrinkKeepsRest(Log(s, Confirmed(key)), s'.tracker, key);
    }
  }

  lemma SettleActionKeepsSafe(s: System, s': System, key: Key)
    requires Safe(s) && SettleAction(s, s', key)
    ensures Safe(s')
  {
    if s' != s {
      assert Waits(s.tracker.active, key) && Live(s.tracker, key);
      SettlingShrinks(s.tracker, key);
      ShrinkKeepsRest(s, s'.tracker, key);
    }
  }

  lemma FinalizeKeepsSafe(s: System, s': System)
    requires Safe(s) && (Finalize(s, s') || Advance(s, s'))
    ensures Safe(s')
  {
    StepKeepsValid(s.tracker, ClearOp);
    assert forall a :: a in s.tasks ==> HonestTask(s, a);
    assert forall a :: a in s'.tasks ==> HonestTask(s', a);
    assert forall k :: Live(s'.tracker, k) ==> Live(s.tracker, k);
    assert forall k :: Remembers(s'.tracker, k) == Remembers(s.tracker, k);
  }

  lemma NextKeepsSafe(s: System, s': System)
    requires Safe(s) && Next(s, s')
    ensures Safe(s')
  {
    if tid, key, deadline :| RegisterRequest(s, s', tid, key, deadline) {
      RegisterKeepsSafe(s, s', tid, key, deadline);
    } else if tid, key :| ClaimRequest(s, s', tid, key) {
      ClaimKeepsSafe(s, s', tid, key);
    } else if tid :| ResponderStep(s, s', tid) {
      if Encode(s, s', tid) { EncodeKeepsSafe(s, s', tid); }
      else if Write(s, s', tid) { WriteKeepsSafe(s, s', tid); }
      else if Complete(s, s', tid) { CompleteKeepsSafe(s, s', tid); }
      else if GiveBack(s, s', tid) { GiveBackKeepsSafe(s, s', tid); }
      else if Doubt(s, s', tid) { DoubtKeepsSafe(s, s', tid); }
      else { AuditKeepsSafe(s, s', tid); }
    } else if tid :| ExpiryStep(s, s', tid) {
      if ExpireRequest(s, s', tid) { ExpireKeepsSafe(s, s', tid); }
      else if Announce(s, s', tid) { AnnounceKeepsSafe(s, s', tid); }
      else if Cancel(s, s', tid) { CancelKeepsSafe(s, s', tid); }
      else { WakeKeepsSafe(s, s', tid); }
    } else if key :| ResultFrame(s, s', key) {
      ResultFrameKeepsSafe(s, s', key);
    } else if key :| SettleAction(s, s', key) {
      SettleActionKeepsSafe(s, s', key);
    } else {
      FinalizeKeepsSafe(s, s');
    }
  }

  // ----- the promises, for every run

  lemma {:induction false} RunIsSafe(run: seq<System>, n: nat)
    requires IsRun(run) && n < |run|
    ensures Safe(run[n])
  {
    if n == 0 {
      assert Keys([]) == {};
    } else {
      RunIsSafe(run, n - 1);
      assert Linked(run, n - 1);
      NextKeepsSafe(run[n - 1], run[n]);
    }
  }

  /**
   However responders, timers and child frames interleave, if no id is registered twice with one
   kind, each request causes at most one write that may have reached the child (an answer or a
   cancel), at most one audit event, and an audit only after an answer was surely written or the
   child confirmed it.
   */
  lemma DeliveredAtMostOnce(run: seq<System>, n: nat)
    requires IsRun(run) && n < |run|
    ensures AtMostOneWrite(run[n]) && AtMostOneAudit(run[n]) && AuditsAreEarned(run[n])
  {
    RunIsSafe(run, n);
  }

  // ----- no request is stranded past its deadline

  predicate Awaits(p: Phase, deadline: nat) {
    p == Sleeping(deadline) || p.CheckingFinalized? || p.Expiring?
  }

  ghost predicate HasTimer(s: System, key: Key, deadline: nat) {
    exists tid :: tid in s.tasks && s.tasks[tid] == Task(key, Sleeping(deadline))
  }

  ghost predicate HasExpirer(s: System, key: Key, deadline: nat) {
    exists tid :: tid in s.tasks && s.tasks[tid].key == key && Awaits(s.tasks[tid].phase, deadline)
  }

  function KeyOf(requests: map<string, Request>, id: string): Key
    requires id in requests
  {
    Key(id, requests[id].kind)
  }

  /** Before its deadline, a live request still has its timer asleep. */
  ghost predicate TimersSet(s: System) {
    && (forall id :: id in s.tracker.active && s.now < s.tracker.active[id].deadline ==>
      HasTimer(s, KeyOf(s.tracker.active, id), s.tracker.active[id].deadline))
    && (forall id :: id in s.tracker.inFlight && s.now < s.tracker.inFlight[id].deadline ==>
      HasTimer(s, KeyOf(s.tracker.inFlight, id), s.tracker.inFlight[id].deadline))
  }

  /** Until the run is finalized, every waiting request has a task on its way to the expiry step. */
  ghost predicate NoneStranded(s: System) {
    !s.finalized ==> forall id :: id in s.tracker.active ==>
      HasExpirer(s, KeyOf(s.tracker.active, id), s.tracker.active[id].deadline)
  }

  ghost predicate SameRequest(t: Tracker, id: string, request: Request) {
    || (id in t.active && t.active[id] == request)
    || (id in t.inFlight && t.inFlight[id] == request)
  }

  /** Every task but `tid` is as before, and `tid` has not given up a sleep that was not over. */
  ghost predicate OthersStay(s: System, s': System, tid: nat) {
    && s.now <= s'.now
    && (forall a :: a in s.tasks ==> a in s'.tasks && (a == tid || s'.tasks[a] == s.tasks[a]))
    && (tid in s.tasks && s.tasks[tid].phase.Sleeping? ==>
      s'.tasks[tid] == s.tasks[tid] || s.tasks[tid].phase.deadline <= s.now)
  }

  lemma StepKeepsTimers(s: System, s': System, tid: nat)
    requires TimersSet(s) && OthersStay(s, s', tid)
    requires forall id :: id in s'.tracker.active ==> SameRequest(s.tracker, id, s'.tracker.active[id])
    requires forall id :: id in s'.tracker.inFlight ==> SameRequest(s.tracker, id, s'.tracker.inFlight[id])
    ensures TimersSet(s')
  {
    forall key, deadline | s'.now < deadline && HasTimer(s, key, deadline) ensures HasTimer(s', key, deadline) {
      var a :| a in s.tasks && s.tasks[a] == Task(key, Sleeping(deadline));
      assert s'.tasks[a] == s.tasks[a];
    }
    forall id | id in s'.tracker.active && s'.now < s'.tracker.active[id].deadline
      ensures HasTimer(s', KeyOf(s'.tracker.active, id), s'.tracker.active[id].deadline)
    {
      assert SameRequest(s.tracker, id, s'.tracker.active[id]);
    }
    forall id | id in s'.tracker.inFlight && s'.now < s'.tracker.inFlight[id].deadline
      ensures HasTimer(s', KeyOf(s'.tracker.inFlight, id), s'.tracker.inFlight[id].deadline)
    {
      assert SameRequest(s.tracker, id, s'.tracker.inFlight[id]);
    }
  }

  lemma StepKeepsExpirers(s: System, s': System, tid: nat)
    requires NoneStranded(s) && OthersStay(s, s', tid) && (s.finalized ==> s'.finalized)
    requires forall id :: id in s'.tracker.active ==>
      || (id in s.tracker.active && s.tracker.active[id] == s'.tracker.active[id])
      || HasExpirer(s', KeyOf(s'.tracker.active, id), s'.tracker.active[id].deadline)
    requires tid in s.tasks && !s'.finalized ==>
      || s'.tasks[tid] == s.tasks[tid]
      || (s.tasks[tid].phase.Sleeping? && s'.tasks[tid].key == s.tasks[tid].key && s'.tasks[tid].phase.CheckingFinalized?)
      || (s.tasks[tid].phase.CheckingFinalized? && s'.tasks[tid].key == s.tasks[tid].key && s'.tasks[tid].phase.Expiring?)
      || !(s.tasks[tid].phase.Sleeping? || s.tasks[tid].phase.CheckingFinalized? || s.tasks[tid].phase.Expiring?)
      || (forall id :: id in s'.tracker.active && KeyOf(s'.tracker.active, id) == s.tasks[tid].key ==>
        HasExpirer(s', KeyOf(s'.tracker.active, id), s'.tracker.active[id].deadline))
    ensures NoneStranded(s')
  {
    forall id | !s'.finalized && id in s'.tracker.active
      ensures HasExpirer(s', KeyOf(s'.tracker.active, id), s'.tracker.active[id].deadline)
    {
      var key, deadline := KeyOf(s'.tracker.active, id), s'.tracker.active[id].deadline;
      assert HasExpirer(s, key, deadline) || HasExpirer(s', key, deadline);
    }
  }

  lemma RegisterStrandsNone(s: System, s': System, tid: nat, key: Key, deadline: nat)
    requires TimersSet(s) && NoneStranded(s) && RegisterRequest(s, s', tid, key, deadline)
    ensures TimersSet(s') && NoneStranded(s')
  {
    if Register(s.tracker, key, deadline).Ok? {
      NewTimerIsSet(s, s', tid, key, deadline);
      NewTimerStrandsNone(s, s', tid, key, deadline);
    }
  }

  /** A new request and its timer, side by side. */
  ghost predicate AddsTimer(s: System, s': System, tid: nat, key: Key, deadline: nat) {
    && tid !in s.tasks && s'.tasks == s.tasks[tid := Task(key, Sleeping(deadline))]
    && s'.tracker.active == s.tracker.active[key.id := Request(key.kind, deadline)]
    && s'.tracker.inFlight == s.tracker.inFlight
    && s'.now == s.now && s'.finalized == s.finalized
  }

  lemma NewTimerIsSet(s: System, s': System, tid: nat, key: Key, deadline: nat)
    requires TimersSet(s) && AddsTimer(s, s', tid, key, deadline)
    ensures TimersSet(s')
  {
    assert s'.tasks[tid] == Task(key, Sleeping(deadline));
    assert HasTimer(s', key, deadline);
    forall k, d | HasTimer(s, k, d) ensures HasTimer(s', k, d) {
      var a :| a in s.tasks && s.tasks[a] == Task(k, Sleeping(d));
      assert s'.tasks[a] == s.tasks[a];
    }
  }

  lemma NewTimerStrandsNone(s: System, s': System, tid: nat, key: Key, deadline: nat)
    requires NoneStranded(s) && AddsTimer(s, s', tid, key, deadline)
    ensures NoneStranded(s')
  {
    assert s'.tasks[tid] == Task(key, Sleeping(deadline));
    assert HasExpirer(s', key, deadline);
    forall k, d | HasExpirer(s, k, d) ensures HasExpirer(s', k, d) {
      var a :| a in s.tasks && s.tasks[a].key == k && Awaits(s.tasks[a].phase, d);
      assert s'.tasks[a] == s.tasks[a];
    }
  }

  ghost predicate OnlyShrinks(t: Tracker, t': Tracker) {
    && (forall id :: id in t'.active ==> id in t.active && t'.active[id] == t.active[id])
    && (forall id :: id in t'.inFlight ==> id in t.inFlight && t'.inFlight[id] == t.inFlight[id])
  }

  lemma SettlingOnlyShrinks(t: Tracker, key: Key, now: nat)
    ensures OnlyShrinks(t, Confirm(t, key).0) && OnlyShrinks(t, ForceResolve(t, key))
    ensures OnlyShrinks(t, OrKeep(t, ResolveActive(t, key, now))) && OnlyShrinks(t, Expire(t, key, now).0)
    ensures OnlyShrinks(t, OrKeep(t, ResolveInFlight(t, key))) && OnlyShrinks(t, MarkUncertain(t, key).0)
  {
    RememberingKeepsWaiting(t.(active := t.active - {key.id}), key);
    RememberingKeepsWaiting(t.(inFlight := t.inFlight - {key.id}), key);
  }

  lemma ResponderOnlyShrinks(s: System, s': System, tid: nat)
    requires ResponderStep(s, s', tid) && !GiveBack(s, s', tid)
    ensures OnlyShrinks(s.tracker, s'.tracker)
  {
    var key := s.tasks[tid].key;
    if Complete(s, s', tid) {
      SettlingOnlyShrinks(s.tracker, key, s.now);
      assert s'.tracker == OrKeep(s.tracker, ResolveInFlight(s.tracker, key));
    } else if Doubt(s, s', tid) {
      SettlingOnlyShrinks(s.tracker, key, s.now);
      assert s'.tracker == MarkUncertain(s.tracker, key).0;
    } else {
      assert s'.tracker == s.tracker;
    }
  }

  /** What a step of a task leaves alone, whatever it does to its own request. */
  ghost predicate Frames(s: System, s': System, tid: nat) {
    && tid in s.tasks && tid in s'.tasks && s'.tasks == s.tasks[tid := s'.tasks[tid]]
    && s'.now == s.now && s'.finalized == s.finalized && s'.registered == s.registered && s.log <= s'.log
  }

  lemma ResponderFrames(s: System, s': System, tid: nat)
    requires ResponderStep(s, s', tid)
    ensures Frames(s, s', tid) && Holds(s.tasks[tid].phase)
  {
    ResponderHolds(s, s', tid);
    if Encode(s, s', tid) || Write(s, s', tid) || Audit(s, s', tid) {
      WriterFrames(s, s', tid);
    } else {
      SettlerFrames(s, s', tid);
    }
  }

  lemma WriterFrames(s: System, s': System, tid: nat)
    requires Encode(s, s', tid) || Write(s, s', tid) || Audit(s, s', tid)
    ensures Frames(s, s', tid)
  {
  }

  lemma SettlerFrames(s: System, s': System, tid: nat)
    requires Complete(s, s', tid) || GiveBack(s, s', tid) || Doubt(s, s', tid)
    ensures Frames(s, s', tid)
  {
  }

  lemma ResponderHolds(s: System, s': System, tid: nat)
    requires ResponderStep(s, s', tid)
    ensures tid in s.tasks && Holds(s.tasks[tid].phase)
  {
  }

  lemma ExpiryFrames(s: System, s': System, tid: nat)
    requires ExpiryStep(s, s', tid)
    ensures Frames(s, s', tid) && s'.tasks[tid].key == s.tasks[tid].key && !Holds(s.tasks[tid].phase)
    ensures s.tasks[tid].phase.Sleeping? ==> s.tasks[tid].phase.deadline <= s.now && s'.tasks[tid].phase.CheckingFinalized?
  {
  }

  lemma TaskStepFrame(s: System, s': System, tid: nat)
    requires ResponderStep(s, s', tid) || ExpiryStep(s, s', tid)
    ensures Frames(s, s', tid) && OthersStay(s, s', tid)
  {
    if ResponderStep(s, s', tid) {
      ResponderFrames(s, s', tid);
    } else {
      ExpiryFrames(s, s', tid);
    }
  }

  lemma ResponderStrandsNone(s: System, s': System, tid: nat)
    requires TimersSet(s) && NoneStranded(s) && ResponderStep(s, s', tid) && !GiveBack(s, s', tid)
    ensures TimersSet(s') && NoneStranded(s')
  {
    ResponderOnlyShrinks(s, s', tid);
    ResponderFrames(s, s', tid);
    ShrinkingStrandsNone(s, s', tid);
  }

  lemma ShrinkingStrandsNone(s: System, s': System, tid: nat)
    requires TimersSet(s) && NoneStranded(s) && Frames(s, s', tid) && Holds(s.tasks[tid].phase)
    requires OnlyShrinks(s.tracker, s'.tracker)
    ensures TimersSet(s') && NoneStranded(s')
  {
    StepKeepsTimers(s, s', tid);
    StepKeepsExpirers(s, s', tid);
  }

  lemma GiveBackStrandsNone(s: System, s': System, tid: nat)
    requires TimersSet(s) && NoneStranded(s) && GiveBack(s, s', tid)
    ensures TimersSet(s') && NoneStranded(s')
  {
    var key := s.tasks[tid].key;
    assert s'.tasks[tid].key == key;
    assert Waits(s.tracker.inFlight, key) ==> HasExpirer(s', key, s.tracker.inFlight[key.id].deadline);
    StepKeepsTimers(s, s', tid);
    StepKeepsExpirers(s, s', tid);
  }

  lemma ExpireStrandsNone(s: System, s': System, tid: nat)
    requires TimersSet(s) && NoneStranded(s) && ExpireRequest(s, s', tid)
    ensures TimersSet(s') && NoneStranded(s')
  {
    var key := s.tasks[tid].key;
    SettlingOnlyShrinks(s.tracker, key, s.now);
    StepKeepsTimers(s, s', tid);
    if Waits(s'.tracker.active, key) {
      var deadline := s'.tracker.active[key.id].deadline;
      assert s.now < deadline && HasTimer(s, key, deadline);
      var a :| a in s.tasks && s.tasks[a] == Task(key, Sleeping(deadline));
      assert s'.tasks[a] == s.tasks[a];
      assert HasExpirer(s', key, deadline);
    }
    StepKeepsExpirers(s, s', tid);
  }

  lemma ExpiryStrandsNone(s: System, s': System, tid: nat)
    requires TimersSet(s) && NoneStranded(s) && ExpiryStep(s, s', tid) && !ExpireRequest(s, s', tid)
    ensures TimersSet(s') && NoneStranded(s')
  {
    TaskStepFrame(s, s', tid);
    assert s'.tracker == s.tracker;
    StepKeepsTimers(s, s', tid);
    StepKeepsExpirers(s, s', tid);
  }

  lemma ClaimStrandsNone(s: System, s': System, tid: nat, key: Key)
    requires TimersSet(s) && NoneStranded(s) && ClaimRequest(s, s', tid, key)
    ensures TimersSet(s') && NoneStranded(s')
  {
    StepKeepsTimers(s, s', tid);
    StepKeepsExpirers(s, s', tid);
  }

  lemma EnvironmentOnlyShrinks(s: System, s': System)
    requires EnvironmentStep(s, s')
    ensures s'.tasks == s.tasks && s.now <= s'.now && (s.finalized ==> s'.finalized)
    ensures OnlyShrinks(s.tracker, s'.tracker)
  {
    if key :| ResultFrame(s, s', key) {
      SettlingOnlyShrinks(s.tracker, key, s.now);
    } else if key :| SettleAction(s, s', key) {
      SettlingOnlyShrinks(s.tracker, key, s.now);
    }
  }

  lemma EnvironmentStrandsNone(s: System, s': System)
    requires TimersSet(s) && NoneStranded(s) && EnvironmentStep(s, s')
    ensures TimersSet(s') && NoneStranded(s')
  {
    EnvironmentOnlyShrinks(s, s');
    StepKeepsTimers(s, s', 0);
    StepKeepsExpirers(s, s', 0);
  }

  lemma NextStrandsNone(s: System, s': System)
    requires TimersSet(s) && NoneStranded(s) && Next(s, s')
    ensures TimersSet(s') && NoneStranded(s')
  {
    if tid, key, deadline :| RegisterRequest(s, s', tid, key, deadline) {
      RegisterStrandsNone(s, s', tid, key, deadline);
    } else if tid, key :| ClaimRequest(s, s', tid, key) {
      ClaimStrandsNone(s, s', tid, key);
    } else if tid :| ResponderStep(s, s', tid) {
      if GiveBack(s, s', tid) { GiveBackStrandsNone(s, s', tid); } else { ResponderStrandsNone(s, s', tid); }
    } else if tid :| ExpiryStep(s, s', tid) {
      if ExpireRequest(s, s', tid) { ExpireStrandsNone(s, s', tid); } else { ExpiryStrandsNone(s, s', tid); }
    } else {
      EnvironmentStrandsNone(s, s');
    }
  }

  lemma {:induction false} RunStrandsNone(run: seq<System>, n: nat)
    requires IsRun(run) && n < |run|
    ensures TimersSet(run[n]) && NoneStranded(run[n])
  {
    if n > 0 {
      RunStrandsNone(run, n - 1);
      assert Linked(run, n - 1);
      NextStrandsNone(run[n - 1], run[n]);
    }
  }

  /**
   Until the run is finalized, a request past its deadline can no longer be claimed, and some task
   is on its way to the step that expires it; that step then succeeds whoever takes it. So a
   request with no such task left is not waiting.
   */
  lemma PastDeadlineIsExpired(run: seq<System>, n: nat, key: Key)
    requires IsRun(run) && n < |run|
    requires var s := run[n];
      !s.finalized && Waits(s.tracker.active, key) && s.tracker.active[key.id].deadline <= s.now
    ensures var s := run[n];
      && Claim(s.tracker, key, s.now).Err?
      && HasExpirer(s, key, s.tracker.active[key.id].deadline)
      && (forall tid, s' :: ExpireRequest(s, s', tid) && s.tasks[tid].key == key ==>
        !Live(s'.tracker, key) && At(s', tid, Announcing))
  {
    var s := run[n];
    RunStrandsNone(run, n);
    RunIsSafe(run, n);
    assert KeyOf(s.tracker.active, key.id) == key;
    forall tid, s' | ExpireRequest(s, s', tid) && s.tasks[tid].key == key
      ensures !Live(s'.tracker, key) && At(s', tid, Announcing)
    {
      ExpirySucceeds(s, s', tid);
    }
  }

  lemma ExpirySucceeds(s: System, s': System, tid: nat)
    requires Valid(s.tracker) && ExpireRequest(s, s', tid)
    requires var key := s.tasks[tid].key;
      Waits(s.tracker.active, key) && s.tracker.active[key.id].deadline <= s.now
    ensures !Live(s'.tracker, s.tasks[tid].key) && At(s', tid, Announcing)
  {
    SettlingShrinks(s.tracker, s.tasks[tid].key);
  }

  // ----- and it stays expired

  lemma StepKeepsGone(t: Tracker, op: Op, key: Key)
    requires !Live(t, key) && !(op.RegisterOp? && op.key == key)
    ensures !Live(Step(t, op), key)
  {
  }

  /** A waiting request past its deadline keeps waiting unchanged, or is gone: it cannot be claimed. */
  lemma StepKeepsDue(t: Tracker, op: Op, key: Key, now: nat)
    requires t.active.Keys !! t.inFlight.Keys && Waits(t.active, key) && t.active[key.id].deadline <= now
    requires op.ClaimOp? ==> op.now == now
    ensures var t' := Step(t, op);
      !Live(t', key) || (Waits(t'.active, key) && t'.active[key.id] == t.active[key.id])
  {
    if !op.ClearOp? {
      if op.key.id != key.id {
        StepSparesOthers(t, op, key.id);
      } else if IsMove(op) {
        MovesLeaveDue(t, op, key, now);
      } else {
        StepTakesOut(t, op);
        RememberingKeepsWaiting(t.(active := t.active - {key.id}), op.key);
        RememberingKeepsWaiting(t.(inFlight := t.inFlight - {key.id}), op.key);
      }
    }
  }

  lemma MovesLeaveDue(t: Tracker, op: Op, key: Key, now: nat)
    requires t.active.Keys !! t.inFlight.Keys && Waits(t.active, key) && t.active[key.id].deadline <= now
    requires IsMove(op) && op.key.id == key.id && (op.ClaimOp? ==> op.now == now)
    ensures Step(t, op) == t
  {
  }

  /** What a step of the system does to the tracker: nothing, or one operation. */
  ghost predicate UsesOp(s: System, s': System, op: Op) {
    && s'.tracker == Step(s.tracker, op)
    && (op.RegisterOp? ==> op.key !in s.registered)
    && (op.ClaimOp? ==> op.now == s.now)
    && (op.ClearOp? ==> s'.finalized)
  }

  lemma ResponderUsesOp(s: System, s': System, tid: nat)
    requires ResponderStep(s, s', tid)
    ensures s'.tracker == s.tracker || exists op :: UsesOp(s, s', op)
  {
    var key := s.tasks[tid].key;
    if Complete(s, s', tid) {
      assert UsesOp(s, s', ResolveInFlightOp(key));
    } else if GiveBack(s, s', tid) {
      assert UsesOp(s, s', RestoreOp(key));
    } else if Doubt(s, s', tid) {
      assert UsesOp(s, s', MarkUncertainOp(key));
    }
  }

  lemma ExpiryUsesOp(s: System, s': System, tid: nat)
    requires ExpiryStep(s, s', tid)
    ensures s'.tracker == s.tracker || exists op :: UsesOp(s, s', op)
  {
    if ExpireRequest(s, s', tid) {
      assert UsesOp(s, s', ExpireOp(s.tasks[tid].key, s.now));
    }
  }

  lemma ResultUsesOp(s: System, s': System, key: Key)
    requires ResultFrame(s, s', key)
    ensures s'.tracker == s.tracker || UsesOp(s, s', ConfirmOp(key))
  {
  }

  lemma SettleUsesOp(s: System, s': System, key: Key)
    requires SettleAction(s, s', key)
    ensures UsesOp(s, s', ResolveActiveOp(key, s.now)) || UsesOp(s, s', ForceResolveOp(key))
  {
  }

  lemma FinalizeUsesOp(s: System, s': System)
    requires Finalize(s, s')
    ensures s'.tracker == s.tracker || UsesOp(s, s', ClearOp)
  {
  }

  lemma EnvironmentUsesOp(s: System, s': System)
    requires EnvironmentStep(s, s')
    ensures s'.tracker == s.tracker || exists op :: UsesOp(s, s', op)
  {
    if key :| ResultFrame(s, s', key) {
      ResultUsesOp(s, s', key);
    } else if key :| SettleAction(s, s', key) {
      SettleUsesOp(s, s', key);
    } else if Finalize(s, s') {
      FinalizeUsesOp(s, s');
    }
  }

  lemma RegisterUsesOp(s: System, s': System, tid: nat, key: Key, deadline: nat)
    requires RegisterRequest(s, s', tid, key, deadline)
    ensures UsesOp(s, s', RegisterOp(key, deadline))
  {
  }

  lemma ClaimUsesOp(s: System, s': System, tid: nat, key: Key)
    requires ClaimRequest(s, s', tid, key)
    ensures UsesOp(s, s', ClaimOp(key, s.now))
  {
  }

  lemma NextUsesOp(s: System, s': System)
    requires Next(s, s')
    ensures s'.tracker == s.tracker || exists op :: UsesOp(s, s', op)
  {
    if tid, key, deadline :| RegisterRequest(s, s', tid, key, deadline) {
      RegisterUsesOp(s, s', tid, key, deadline);
    } else if tid, key :| ClaimRequest(s, s', tid, key) {
      ClaimUsesOp(s, s', tid, key);
    } else if tid :| ResponderStep(s, s', tid) {
      ResponderUsesOp(s, s', tid);
    } else if tid :| ExpiryStep(s, s', tid) {
      ExpiryUsesOp(s, s', tid);
    } else {
      EnvironmentUsesOp(s, s');
    }
  }

  lemma NextOnlyGrows(s: System, s': System)
    requires Next(s, s')
    ensures s.registered <= s'.registered && s.now <= s'.now && (s.finalized ==> s'.finalized)
  {
    if tid :| ResponderStep(s, s', tid) {
      ResponderFrames(s, s', tid);
    } else if tid :| ExpiryStep(s, s', tid) {
      ExpiryFrames(s, s', tid);
    } else if EnvironmentStep(s, s') {
      EnvironmentFrame(s, s');
    }
  }

  lemma EnvironmentFrame(s: System, s': System)
    requires EnvironmentStep(s, s')
    ensures s'.registered == s.registered && s'.tasks == s.tasks && s.now <= s'.now && (s.finalized ==> s'.finalized)
    ensures s.log <= s'.log
  {
  }

  /** A task on its way to the expiry step stays on it until it takes that step. */
  lemma AwaitingGoesOn(s: System, s': System, tid: nat, deadline: nat)
    requires Next(s, s') && tid in s.tasks && Awaits(s.tasks[tid].phase, deadline) && !s'.finalized
    ensures tid in s'.tasks && s'.tasks[tid].key == s.tasks[tid].key
    ensures Awaits(s'.tasks[tid].phase, deadline) || ExpireRequest(s, s', tid)
  {
    NextOnlyGrows(s, s');
    if other, key, due :| RegisterRequest(s, s', other, key, due) {
      assert tid != other;
    } else if other, key :| ClaimRequest(s, s', other, key) {
      assert tid != other;
    } else if other :| ResponderStep(s, s', other) {
      ResponderFrames(s, s', other);
    } else if other :| ExpiryStep(s, s', other) {
      ExpiryFrames(s, s', other);
      if other == tid {
        AwaitingStep(s, s', tid, deadline);
      }
    } else {
      EnvironmentFrame(s, s');
    }
  }

  lemma AwaitingStep(s: System, s': System, tid: nat, deadline: nat)
    requires ExpiryStep(s, s', tid) && Awaits(s.tasks[tid].phase, deadline) && !s.finalized
    ensures Awaits(s'.tasks[tid].phase, deadline) || ExpireRequest(s, s', tid)
  {
  }

  /** Some task awaits the expiry of a request that is due, or the request is gone for good. */
  ghost predicate DueOrGone(s: System, tid: nat, key: Key, deadline: nat) {
    && key in s.registered
    && (|| !Live(s.tracker, key)
        || (&& Waits(s.tracker.active, key) && s.tracker.active[key.id].deadline == deadline <= s.now
            && tid in s.tasks && s.tasks[tid].key == key && Awaits(s.tasks[tid].phase, deadline)))
  }

  lemma GoneStaysGone(s: System, s': System, key: Key)
    requires Next(s, s') && key in s.registered && !Live(s.tracker, key)
    ensures key in s'.registered && !Live(s'.tracker, key)
  {
    NextOnlyGrows(s, s');
    NextUsesOp(s, s');
    if s'.tracker != s.tracker {
      var op :| UsesOp(s, s', op);
      StepKeepsGone(s.tracker, op, key);
    }
  }

  lemma DueStaysDueOrGoes(s: System, s': System, tid: nat, key: Key, deadline: nat)
    requires Next(s, s') && Valid(s.tracker) && !s'.finalized
    requires Live(s.tracker, key) && DueOrGone(s, tid, key, deadline)
    ensures DueOrGone(s', tid, key, deadline)
  {
    NextOnlyGrows(s, s');
    NextUsesOp(s, s');
    if s'.tracker != s.tracker {
      var op :| UsesOp(s, s', op);
      StepKeepsDue(s.tracker, op, key, s.now);
    }
    AwaitingGoesOn(s, s', tid, deadline);
    if ExpireRequest(s, s', tid) {
      ExpirySucceeds(s, s', tid);
    }
  }

  lemma {:induction false} DueOverRun(run: seq<System>, n: nat, m: nat, tid: nat, key: Key, deadline: nat)
    requires IsRun(run) && n <= m < |run| && !run[m].finalized
    requires DueOrGone(run[n], tid, key, deadline)
    ensures DueOrGone(run[m], tid, key, deadline)
    decreases m - n
  {
    if n < m {
      assert Linked(run, m - 1);
      NextOnlyGrows(run[m - 1], run[m]);
      DueOverRun(run, n, m - 1, tid, key, deadline);
      RunIsSafe(run, m - 1);
      if Live(run[m - 1].tracker, key) {
        DueStaysDueOrGoes(run[m - 1], run[m], tid, key, deadline);
      } else {
        GoneStaysGone(run[m - 1], run[m], key);
      }
    }
  }

  /**
   The named expirer does its work: once a task that awaited the expiry of a due request is past its
   expiry step, in a run not yet finalized, the request is no longer live; and it never is again.
   */
  lemma ExpirerFinishes(run: seq<System>, n: nat, m: nat, tid: nat, key: Key)
    requires IsRun(run) && n <= m < |run| && !run[m].finalized
    requires Waits(run[n].tracker.active, key) && run[n].tracker.active[key.id].deadline <= run[n].now
    requires var deadline := run[n].tracker.active[key.id].deadline;
      && tid in run[n].tasks && run[n].tasks[tid].key == key && Awaits(run[n].tasks[tid].phase, deadline)
      && (tid in run[m].tasks ==> !Awaits(run[m].tasks[tid].phase, deadline))
    ensures forall k :: m <= k < |run| ==> !Live(run[k].tracker, key)
  {
    var deadline := run[n].tracker.active[key.id].deadline;
    RunIsSafe(run, n);
    assert Live(run[n].tracker, key);
    DueOverRun(run, n, m, tid, key, deadline);
    forall k | m <= k < |run| ensures !Live(run[k].tracker, key) {
      GoneOverRun(run, m, k, key);
    }
  }

  lemma {:induction false} GoneOverRun(run: seq<System>, m: nat, k: nat, key: Key)
    requires IsRun(run) && m <= k < |run| && key in run[m].registered && !Live(run[m].tracker, key)
    ensures key in run[k].registered && !Live(run[k].tracker, key)
    decreases k - m
  {
    if m < k {
      GoneOverRun(run, m, k - 1, key);
      assert Linked(run, k - 1);
      GoneStaysGone(run[k - 1], run[k], key);
    }
  }

  // ----- no request is lost

  lemma NextLosesNothing(s: System, s': System, key: Key)
    requires Next(s, s') && Valid(s.tracker) && s.tracker.capacity >= 1 && !s'.finalized && Live(s.tracker, key)
    ensures Live(s'.tracker, key) || EndsIn(s'.tracker.order, key)
  {
    NextUsesOp(s, s');
    if s'.tracker != s.tracker {
      var op :| UsesOp(s, s', op);
      StepLosesNothing(s.tracker, op, key);
    }
  }

  lemma NextKeepsCapacity(s: System, s': System)
    requires Next(s, s')
    ensures s'.tracker.capacity == s.tracker.capacity
  {
    NextUsesOp(s, s');
    if s'.tracker != s.tracker {
      var op :| UsesOp(s, s', op);
      StepKeepsCapacity(s.tracker, op);
    }
  }

  lemma {:induction false} CapacityIsFixed(run: seq<System>, n: nat)
    requires IsRun(run) && n < |run|
    ensures run[n].tracker.capacity == run[0].tracker.capacity
  {
    if n > 0 {
      CapacityIsFixed(run, n - 1);
      assert Linked(run, n - 1);
      NextKeepsCapacity(run[n - 1], run[n]);
    }
  }

  /** A key enters the history only by a registration that makes it wait. */
  lemma NewlyRegisteredIsLive(s: System, s': System, key: Key)
    requires Next(s, s') && key in s'.registered && key !in s.registered
    ensures Live(s'.tracker, key)
  {
    if tid, k, deadline :| RegisterRequest(s, s', tid, k, deadline) {
      assert k == key;
    } else if tid :| ResponderStep(s, s', tid) {
      ResponderFrames(s, s', tid);
    } else if tid :| ExpiryStep(s, s', tid) {
      ExpiryFrames(s, s', tid);
    } else if EnvironmentStep(s, s') {
      EnvironmentFrame(s, s');
    }
  }

  /** The key waits or is in flight, or was the newest thing remembered at one of the first `n + 1` moments. */
  ghost predicate Traced(run: seq<System>, n: nat, key: Key)
    requires n < |run|
  {
    Live(run[n].tracker, key) || exists k :: 0 <= k <= n && EndsIn(run[k].tracker.order, key)
  }

  lemma TracedNext(run: seq<System>, n: nat, key: Key)
    requires 0 < n < |run| && Next(run[n - 1], run[n]) && Valid(run[n - 1].tracker) && run[n - 1].tracker.capacity >= 1
    requires !run[n].finalized && Traced(run, n - 1, key)
    ensures Traced(run, n, key)
  {
    if Live(run[n - 1].tracker, key) {
      NextLosesNothing(run[n - 1], run[n], key);
    }
  }

  /**
   Until the run is finalized no request is lost: each one ever registered is still waiting or in
   flight, or has at some moment become the newest thing the tracker remembers.
   */
  lemma {:induction false} RunLosesNothing(run: seq<System>, n: nat, key: Key)
    requires IsRun(run) && n < |run| && run[0].tracker.capacity >= 1 && !run[n].finalized && key in run[n].registered
    ensures Traced(run, n, key)
  {
    if n > 0 {
      assert Linked(run, n - 1);
      NextOnlyGrows(run[n - 1], run[n]);
      if key in run[n - 1].registered {
        RunLosesNothing(run, n - 1, key);
        RunIsSafe(run, n - 1);
        CapacityIsFixed(run, n - 1);
        TracedNext(run, n, key);
      } else {
        NewlyRegisteredIsLive(run[n - 1], run[n], key);
      }
    }
  }

  // ----- what the steps bring about

  /** `t` can follow `s` after some steps. */
  ghost predicate Leads(s: System, steps: nat, t: System)
    decreases steps
  {
    if steps == 0 then t == s else exists m :: Next(s, m) && Leads(m, steps - 1, t)
  }

  lemma LeadsBy(s: System, m: System, steps: nat, t: System)
    requires Next(s, m) && Leads(m, steps, t)
    ensures Leads(s, steps + 1, t)
  {
  }

  lemma ResponderLeads(s: System, s': System, tid: nat)
    requires ResponderStep(s, s', tid)
    ensures Next(s, s')
  {
  }

  lemma ExpiryLeads(s: System, s': System, tid: nat)
    requires ExpiryStep(s, s', tid)
    ensures Next(s, s')
  {
  }

  /** A responder that has claimed a request writes, completes and audits. */
  lemma ClaimedIsAnswered(s: System, tid: nat, key: Key) returns (last: System)
    requires Valid(s.tracker) && s.tracker.capacity >= 1 && Waits(s.tracker.inFlight, key)
    requires tid in s.tasks && s.tasks[tid] == Task(key, Encoding)
    ensures Leads(s, 4, last)
    ensures last.log == s.log + [Wrote(key, false, true), Audited(key)] && Settled(last.tracker, key, true)
  {
    SettlingExactly(s.tracker, key, s.now);
    var encoded := Goto(s, tid, Writing);
    var written := Goto(Log(encoded, Wrote(key, false, true)), tid, Written);
    var resolved := Goto(written.(tracker := ResolveInFlight(s.tracker, key).value), tid, Auditing);
    last := Goto(Log(resolved, Audited(key)), tid, Finished);
    assert Encode(s, encoded, tid) && Write(encoded, written, tid);
    assert Complete(written, resolved, tid) && Audit(resolved, last, tid);
    FourResponderSteps(s, encoded, written, resolved, last, tid);
  }

  lemma FourResponderSteps(a: System, b: System, c: System, d: System, e: System, tid: nat)
    requires ResponderStep(a, b, tid) && ResponderStep(b, c, tid) && ResponderStep(c, d, tid) && ResponderStep(d, e, tid)
    ensures Leads(a, 4, e)
  {
    ResponderLeads(a, b, tid);
    ResponderLeads(b, c, tid);
    ResponderLeads(c, d, tid);
    ResponderLeads(d, e, tid);
    FourSteps(a, b, c, d, e);
  }

  lemma FourSteps(a: System, b: System, c: System, d: System, e: System)
    requires Next(a, b) && Next(b, c) && Next(c, d) && Next(d, e)
    ensures Leads(a, 4, e)
  {
    LeadsBy(d, e, 0, e);
    LeadsBy(c, d, 1, e);
    LeadsBy(b, c, 2, e);
    LeadsBy(a, b, 3, e);
  }

  /** A waiting request before its deadline can be answered: one sure write, one audit, and it is resolved. */
  lemma AnswerIsPossible(s: System, tid: nat, key: Key) returns (last: System)
    requires Valid(s.tracker) && s.tracker.capacity >= 1 && tid !in s.tasks && key.kind != GuiAction
    requires Waits(s.tracker.active, key) && s.now < s.tracker.active[key.id].deadline
    ensures Leads(s, 5, last)
    ensures last.log == s.log + [Wrote(key, false, true), Audited(key)] && Settled(last.tracker, key, true)
  {
    ClaimMoves(s.tracker, key, s.now);
    MoveKeepsValid(s.tracker, key, s.now);
    var t := Claim(s.tracker, key, s.now).value;
    var claimed := s.(tracker := t, tasks := s.tasks[tid := Task(key, Encoding)], claimant := s.claimant[key.id := tid]);
    assert ClaimRequest(s, claimed, tid, key);
    last := ClaimedIsAnswered(claimed, tid, key);
    LeadsBy(s, claimed, 4, last);
  }

  /** A due request can be expired by its timer: it is announced, the child is told, and it is resolved. */
  lemma ExpiryIsPossible(s: System, tid: nat, key: Key) returns (last: System)
    requires Valid(s.tracker) && s.tracker.capacity >= 1 && key.kind != GuiAction && !s.finalized
    requires tid in s.tasks && s.tasks[tid].key == key && s.tasks[tid].phase.Sleeping?
    requires s.tasks[tid].phase.deadline <= s.now
    requires Waits(s.tracker.active, key) && s.tracker.active[key.id].deadline <= s.now
    ensures Leads(s, 5, last)
    ensures last.log == s.log + [Announced(key), Wrote(key, true, true)] && Settled(last.tracker, key, true)
  {
    var awake := Goto(s, tid, CheckingFinalized);
    assert Wake(s, awake, tid);
    ExpiryLeads(s, awake, tid);
    last := AwakeExpires(awake, tid, key);
    LeadsBy(s, awake, 4, last);
  }

  lemma AwakeExpires(s: System, tid: nat, key: Key) returns (last: System)
    requires Valid(s.tracker) && s.tracker.capacity >= 1 && key.kind != GuiAction && !s.finalized
    requires tid in s.tasks && s.tasks[tid] == Task(key, CheckingFinalized)
    requires Waits(s.tracker.active, key) && s.tracker.active[key.id].deadline <= s.now
    ensures Leads(s, 4, last)
    ensures last.log == s.log + [Announced(key), Wrote(key, true, true)] && Settled(last.tracker, key, true)
  {
    SettlingExactly(s.tracker, key, s.now);
    var expiring := Goto(s, tid, Expiring);
    var expired := Goto(expiring.(tracker := Expire(s.tracker, key, s.now).0), tid, Announcing);
    var announced := Goto(Log(expired, Announced(key)), tid, Cancelling);
    last := Goto(Log(announced, Wrote(key, true, true)), tid, Finished);
    assert CheckFinalized(s, expiring, tid) && ExpireRequest(expiring, expired, tid);
    assert Announce(expired, announced, tid) && Cancel(announced, last, tid);
    FourExpirySteps(s, expiring, expired, announced, last, tid);
  }

  lemma FourExpirySteps(a: System, b: System, c: System, d: System, e: System, tid: nat)
    requires ExpiryStep(a, b, tid) && ExpiryStep(b, c, tid) && ExpiryStep(c, d, tid) && ExpiryStep(d, e, tid)
    ensures Leads(a, 4, e)
  {
    ExpiryLeads(a, b, tid);
    ExpiryLeads(b, c, tid);
    ExpiryLeads(c, d, tid);
    ExpiryLeads(d, e, tid);
    FourSteps(a, b, c, d, e);
  }

  // ----- every write is on record

  /** Whoever has written, surely or not, has its write in the log. */
  ghost predicate WritesOnRecord(s: System) {
    forall tid :: tid in s.tasks && (s.tasks[tid].phase.Written? || s.tasks[tid].phase.Doubtful?) ==>
      Wrote(s.tasks[tid].key, false, s.tasks[tid].phase.Written?) in s.log
  }

  lemma NextExtendsLog(s: System, s': System)
    requires Next(s, s')
    ensures s.log <= s'.log
  {
    if tid :| ResponderStep(s, s', tid) {
      ResponderFrames(s, s', tid);
    } else if tid :| ExpiryStep(s, s', tid) {
      ExpiryFrames(s, s', tid);
    } else if EnvironmentStep(s, s') {
      EnvironmentFrame(s, s');
    }
  }

  lemma OnlyWriteWrites(s: System, s': System, tid: nat)
    requires ResponderStep(s, s', tid) && tid in s'.tasks && (s'.tasks[tid].phase.Written? || s'.tasks[tid].phase.Doubtful?)
    ensures Write(s, s', tid)
  {
  }

  lemma ResponderWrites(s: System, s': System, tid: nat)
    requires ResponderStep(s, s', tid) && tid in s'.tasks && (s'.tasks[tid].phase.Written? || s'.tasks[tid].phase.Doubtful?)
    ensures Wrote(s'.tasks[tid].key, false, s'.tasks[tid].phase.Written?) in s'.log
  {
    OnlyWriteWrites(s, s', tid);
    assert s'.log[|s.log|] == Wrote(s.tasks[tid].key, false, s'.tasks[tid].phase.Written?);
  }

  lemma ExpiryWritesNoAnswer(s: System, s': System, tid: nat)
    requires ExpiryStep(s, s', tid)
    ensures tid in s'.tasks && !s'.tasks[tid].phase.Written? && !s'.tasks[tid].phase.Doubtful?
  {
  }

  lemma NextKeepsRecord(s: System, s': System)
    requires WritesOnRecord(s) && Next(s, s')
    ensures WritesOnRecord(s')
  {
    NextExtendsLog(s, s');
    if tid, key, deadline :| RegisterRequest(s, s', tid, key, deadline) {
    } else if tid, key :| ClaimRequest(s, s', tid, key) {
    } else if tid :| ResponderStep(s, s', tid) {
      ResponderFrames(s, s', tid);
      if s'.tasks[tid].phase.Written? || s'.tasks[tid].phase.Doubtful? { ResponderWrites(s, s', tid); }
    } else if tid :| ExpiryStep(s, s', tid) {
      ExpiryFrames(s, s', tid);
      ExpiryWritesNoAnswer(s, s', tid);
    } else {
      EnvironmentFrame(s, s');
    }
  }

  lemma {:induction false} RunRecordsWrites(run: seq<System>, n: nat)
    requires IsRun(run) && n < |run|
    ensures WritesOnRecord(run[n])
  {
    if n > 0 {
      RunRecordsWrites(run, n - 1);
      assert Linked(run, n - 1);
      NextKeepsRecord(run[n - 1], run[n]);
    }
  }
}
