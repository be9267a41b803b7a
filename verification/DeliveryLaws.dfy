/** More of what every run of the delivery tasks promises: what is never written, what finalization silences, who audits. */
module DeliveryLaws {
  import opened Prelude
  import opened PendingTrackers
  import opened Delivery

  /** The log grew by at most one effect, of this key. */
  ghost predicate LogsOf(s: System, s': System, key: Key) {
    s'.log == s.log || (|s'.log| == |s.log| + 1 && s.log <= s'.log && s'.log[|s.log|].key == key)
  }

  // ----- GUI actions have no one to write to

  ghost predicate NoActionHeld(s: System) {
    forall tid :: tid in s.tasks && Holds(s.tasks[tid].phase) ==> s.tasks[tid].key.kind != GuiAction
  }

  predicate WritesAction(e: Effect) {
    e.Wrote? && e.key.kind == GuiAction
  }

  /** Nobody works on an answer to a GUI action, and none was written. */
  ghost predicate ActionsUnwritten(s: System) {
    NoActionHeld(s) && forall i :: 0 <= i < |s.log| ==> !WritesAction(s.log[i])
  }

  lemma OneTaskMoves(s: System, s': System, tid: nat)
    requires NoActionHeld(s) && Frames(s, s', tid)
    requires Holds(s'.tasks[tid].phase) ==> s'.tasks[tid].key.kind != GuiAction
    ensures NoActionHeld(s')
  {
  }

  lemma OneEffectMore(s: System, s': System, key: Key)
    requires ActionsUnwritten(s) && NoActionHeld(s') && LogsOf(s, s', key)
    requires s'.log != s.log ==> !WritesAction(s'.log[|s.log|])
    ensures ActionsUnwritten(s')
  {
  }

  lemma WriterLogs(s: System, s': System, tid: nat)
    requires Encode(s, s', tid) || Write(s, s', tid) || Audit(s, s', tid)
    ensures tid in s.tasks && tid in s'.tasks && s'.tasks[tid].key == s.tasks[tid].key && LogsOf(s, s', s.tasks[tid].key)
  {
  }

  lemma SettlerLogs(s: System, s': System, tid: nat)
    requires Complete(s, s', tid) || GiveBack(s, s', tid) || Doubt(s, s', tid)
    ensures tid in s.tasks && tid in s'.tasks && s'.tasks[tid].key == s.tasks[tid].key && LogsOf(s, s', s.tasks[tid].key)
  {
  }

  lemma ResponderLogs(s: System, s': System, tid: nat)
    requires ResponderStep(s, s', tid)
    ensures tid in s.tasks && tid in s'.tasks && s'.tasks[tid].key == s.tasks[tid].key && LogsOf(s, s', s.tasks[tid].key)
  {
    if Encode(s, s', tid) || Write(s, s', tid) || Audit(s, s', tid) {
      WriterLogs(s, s', tid);
    } else {
      SettlerLogs(s, s', tid);
    }
  }

  lemma ExpiryLogs(s: System, s': System, tid: nat)
    requires ExpiryStep(s, s', tid)
    ensures tid in s.tasks && tid in s'.tasks && !Holds(s'.tasks[tid].phase) && LogsOf(s, s', s.tasks[tid].key)
    ensures s'.log != s.log && s'.log[|s.log|].Wrote? ==> s.tasks[tid].key.kind != GuiAction && s.tasks[tid].phase.Cancelling?
    ensures s'.log != s.log ==> s.tasks[tid].phase.Announcing? || s.tasks[tid].phase.Cancelling?
  {
  }

  lemma EnvironmentLogs(s: System, s': System)
    requires EnvironmentStep(s, s')
    ensures s'.tasks == s.tasks && s.log <= s'.log && forall i :: |s.log| <= i < |s'.log| ==> s'.log[i].Confirmed?
  {
    EnvironmentFrame(s, s');
  }

  lemma RegisteringWritesNothing(s: System, s': System, tid: nat, key: Key, deadline: nat)
    requires ActionsUnwritten(s) && RegisterRequest(s, s', tid, key, deadline)
    ensures ActionsUnwritten(s')
  {
  }

  lemma ClaimingWritesNothing(s: System, s': System, tid: nat, key: Key)
    requires ActionsUnwritten(s) && ClaimRequest(s, s', tid, key)
    ensures ActionsUnwritten(s')
  {
  }

  lemma NextKeepsActionsUnwritten(s: System, s': System)
    requires ActionsUnwritten(s) && Next(s, s')
    ensures ActionsUnwritten(s')
  {
    if tid, key, deadline :| RegisterRequest(s, s', tid, key, deadline) {
      RegisteringWritesNothing(s, s', tid, key, deadline);
    } else if tid, key :| ClaimRequest(s, s', tid, key) {
      ClaimingWritesNothing(s, s', tid, key);
    } else if tid :| ResponderStep(s, s', tid) {
      ResponderFrames(s, s', tid);
      ResponderLogs(s, s', tid);
      OneTaskMoves(s, s', tid);
      OneEffectMore(s, s', s.tasks[tid].key);
    } else if tid :| ExpiryStep(s, s', tid) {
      ExpiryFrames(s, s', tid);
      ExpiryLogs(s, s', tid);
      OneTaskMoves(s, s', tid);
      OneEffectMore(s, s', s.tasks[tid].key);
    } else {
      EnvironmentLogs(s, s');
    }
  }

  lemma StartsUnwritten(s: System)
    requires Init(s)
    ensures ActionsUnwritten(s)
  {
  }

  /** In no run is an answer or a cancellation for a GUI action written to the child. */
  lemma {:induction false} ActionsAreNeverWritten(run: seq<System>, n: nat)
    requires IsRun(run) && n < |run|
    ensures ActionsUnwritten(run[n])
  {
    if n == 0 {
      StartsUnwritten(run[0]);
    } else {
      ActionsAreNeverWritten(run, n - 1);
      assert Linked(run, n - 1);
      NextKeepsActionsUnwritten(run[n - 1], run[n]);
    }
  }

  // ----- a finalized run falls silent

  predicate IsExpiring(p: Phase) {
    p.Expiring? || p.Announcing? || p.Cancelling?
  }

  /** The run is finalized and no expiry is under way. */
  ghost predicate Silenced(s: System) {
    s.finalized && forall tid :: tid in s.tasks ==> !IsExpiring(s.tasks[tid].phase)
  }

  predicate IsExpiryEffect(e: Effect) {
    e.Announced? || (e.Wrote? && e.cancel)
  }

  ghost predicate AddsNoExpiry(before: seq<Effect>, after: seq<Effect>) {
    before <= after && forall i :: |before| <= i < |after| ==> !IsExpiryEffect(after[i])
  }

  lemma WriterIsSilent(s: System, s': System, tid: nat)
    requires Encode(s, s', tid) || Write(s, s', tid) || Audit(s, s', tid)
    ensures tid in s'.tasks && !IsExpiring(s'.tasks[tid].phase) && AddsNoExpiry(s.log, s'.log)
  {
  }

  lemma SettlerIsSilent(s: System, s': System, tid: nat)
    requires Complete(s, s', tid) || GiveBack(s, s', tid) || Doubt(s, s', tid)
    ensures tid in s'.tasks && !IsExpiring(s'.tasks[tid].phase) && AddsNoExpiry(s.log, s'.log)
  {
  }

  lemma ExpiryIsSilent(s: System, s': System, tid: nat)
    requires ExpiryStep(s, s', tid) && s.finalized && tid in s.tasks && !IsExpiring(s.tasks[tid].phase)
    ensures tid in s'.tasks && !IsExpiring(s'.tasks[tid].phase) && s'.log == s.log
  {
  }

  lemma NextKeepsSilence(s: System, s': System)
    requires Silenced(s) && Next(s, s')
    ensures Silenced(s') && AddsNoExpiry(s.log, s'.log)
  {
    if tid, key, deadline :| RegisterRequest(s, s', tid, key, deadline) {
    } else if tid, key :| ClaimRequest(s, s', tid, key) {
    } else if tid :| ResponderStep(s, s', tid) {
      ResponderFrames(s, s', tid);
      if Encode(s, s', tid) || Write(s, s', tid) || Audit(s, s', tid) {
        WriterIsSilent(s, s', tid);
      } else {
        SettlerIsSilent(s, s', tid);
      }
    } else if tid :| ExpiryStep(s, s', tid) {
      ExpiryFrames(s, s', tid);
      ExpiryIsSilent(s, s', tid);
    } else {
      EnvironmentLogs(s, s');
      NextOnlyGrows(s, s');
    }
  }

  /** After finalization no further expiry is announced or cancelled, whatever timers are left. */
  lemma {:induction false} FinalizedRunIsSilent(run: seq<System>, n: nat, m: nat)
    requires IsRun(run) && n <= m < |run| && Silenced(run[n])
    ensures Silenced(run[m]) && AddsNoExpiry(run[n].log, run[m].log)
  {
    if n < m {
      FinalizedRunIsSilent(run, n, m - 1);
      assert Linked(run, m - 1);
      NextKeepsSilence(run[m - 1], run[m]);
    }
  }

  /** A run can be finalized at any time, and then nothing waits any more. */
  lemma FinalizationIsPossible(s: System) returns (last: System)
    ensures Leads(s, 2, last) && last == s.(finalized := true, tracker := last.tracker)
    ensures forall key :: !Live(last.tracker, key)
    ensures last.tracker.resolved == s.tracker.resolved && last.tracker.uncertain == s.tracker.uncertain
  {
    var flagged := s.(finalized := true);
    last := flagged.(tracker := ClearActive(s.tracker));
    assert Finalize(s, flagged) && Finalize(flagged, last);
    LeadsBy(flagged, last, 0, last);
    LeadsBy(s, flagged, 1, last);
  }

  // ----- where a task goes on to

  /** What the tracker decides about a task that settles its request. */
  ghost predicate GoesOn(s: System, task: Task, next: Phase) {
    var key := task.key;
    match task.phase
    case Written => next == if key in s.tracker.resolved || Waits(s.tracker.inFlight, key) then Auditing else Finished
    case Doubtful => next == if key in s.tracker.resolved then Auditing else Finished
    case Restoring => next == if Waits(s.tracker.inFlight, key) then CheckingFinalized else Finished
    case Sleeping(_) => next == CheckingFinalized
    case CheckingFinalized => next == if s.finalized then Finished else Expiring
    case Expiring =>
      next == if Waits(s.tracker.active, key) && s.tracker.active[key.id].deadline <= s.now then Announcing else Finished
    case Announcing => next == Cancelling
    case _ => true
  }

  lemma WriterGoesOn(s: System, s': System, tid: nat)
    requires Encode(s, s', tid) || Write(s, s', tid) || Audit(s, s', tid)
    ensures tid in s.tasks && tid in s'.tasks && GoesOn(s, s.tasks[tid], s'.tasks[tid].phase)
  {
  }

  lemma SettlerGoesOn(s: System, s': System, tid: nat)
    requires Complete(s, s', tid) || GiveBack(s, s', tid) || Doubt(s, s', tid)
    ensures tid in s.tasks && tid in s'.tasks && GoesOn(s, s.tasks[tid], s'.tasks[tid].phase)
  {
  }

  lemma ExpiryGoesOn(s: System, s': System, tid: nat)
    requires ExpiryStep(s, s', tid)
    ensures tid in s.tasks && tid in s'.tasks && GoesOn(s, s.tasks[tid], s'.tasks[tid].phase)
  {
  }

  /**
   Whenever a task moves, the tracker has decided where to: an answer is audited exactly when its request
   was still in flight or already confirmed, a doubtful one when it was confirmed, a request is expired
   when it is due, unless the run is finalized.
   */
  lemma TrackerDecides(s: System, s': System, tid: nat)
    requires Next(s, s') && tid in s.tasks
    ensures tid in s'.tasks && (s'.tasks[tid] == s.tasks[tid] || GoesOn(s, s.tasks[tid], s'.tasks[tid].phase))
  {
    if t, key, deadline :| RegisterRequest(s, s', t, key, deadline) {
    } else if t, key :| ClaimRequest(s, s', t, key) {
    } else if t :| ResponderStep(s, s', t) {
      ResponderFrames(s, s', t);
      if Encode(s, s', t) || Write(s, s', t) || Audit(s, s', t) {
        WriterGoesOn(s, s', t);
      } else {
        SettlerGoesOn(s, s', t);
      }
    } else if t :| ExpiryStep(s, s', t) {
      ExpiryFrames(s, s', t);
      ExpiryGoesOn(s, s', t);
    } else {
      EnvironmentFrame(s, s');
    }
  }
}
