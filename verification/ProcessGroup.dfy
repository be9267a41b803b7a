/**
 The identity gate of an owned process group, and the order in which a supervisor seals it, reaps
 the leader, frees the process slot and publishes the outcome. A process-group id stays ours only
 while its leader is unreaped; afterwards the system may hand the same number to anyone.
 */
module ProcessGroups {
  import opened Prelude

  datatype Kind =
    | GroupTerm      // SIGTERM to the group
    | GroupKill      // SIGKILL to the group
    | LeaderKill     // SIGKILL to the child itself: the supervisor's fallback, or the handle's on drop

  datatype Target = Ours(process: nat) | Foreign | Nobody

  /** A signal sent on behalf of `owner`, and whom the number named at that moment. */
  datatype Signal = Signal(owner: nat, kind: Kind, hit: Target)

  // ----- one owner's gate, a critical section at a time

  class OwnedProcessGroup {
    const pid: nat
    var active: bool
    ghost var sent: seq<Kind>

    /** While the gate is open there was no final kill; once it is closed there was one, and nothing after it. */
    ghost predicate Valid()
      reads this
    {
      if active then GroupKill !in sent
      else sent != [] && sent[|sent| - 1] == GroupKill && GroupKill !in sent[..|sent| - 1]
    }

    constructor (pid: nat)
      ensures Valid() && active && sent == [] && this.pid == pid
    {
      this.pid, active, sent := pid, true, [];
    }

    method SealWith(delivered: bool) returns (ok: bool)
      requires Valid()
      modifies this
      ensures Valid() && !active
      ensures sent == if old(active) then old(sent) + [GroupKill] else old(sent)
      ensures ok == (delivered || !old(active))
    {
      if !active {
        return true;
      }
      SealsOnce(sent);
      sent := sent + [GroupKill];
      active := false;
      return delivered;
    }

    /** `contended`: someone else has the lock. */
    method TrySeal(contended: bool)
      requires Valid()
      modifies this
      ensures Valid()
      ensures contended ==> active == old(active) && sent == old(sent)
      ensures !contended ==> !active && sent == if old(active) then old(sent) + [GroupKill] else old(sent)
    {
      if contended {
        return;
      }
      if active {
        SealsOnce(sent);
        sent := sent + [GroupKill];
        active := false;
      }
    }

    method SignalWith(delivered: bool) returns (r: Result<bool, ()>)
      requires Valid()
      modifies this
      ensures Valid() && active == old(active)
      ensures sent == if active then old(sent) + [GroupTerm] else old(sent)
      ensures r == if !active then Ok(false) else if delivered then Ok(true) else Err(())
    {
      if !active {
        return Ok(false);
      }
      sent := sent + [GroupTerm];
      return if delivered then Ok(true) else Err(());
    }
  }

  lemma SealsOnce(sent: seq<Kind>)
    ensures (sent + [GroupKill])[..|sent|] == sent
  {
  }

  /** The admission counter. */
  class ProcessSpawner {
    const limit: nat
    var available: nat

    ghost predicate Valid()
      reads this
    {
      available <= limit && 0 < limit
    }

    constructor (limit: nat)
      requires limit > 0
      ensures Valid() && this.limit == limit && available == limit
    {
      this.limit, available := limit, limit;
    }

    method TryReserve() returns (ok: bool)
      requires Valid()
      modifies this
      ensures Valid() && ok == (old(available) > 0)
      ensures ActiveCount() == old(ActiveCount()) + if ok then 1 else 0
    {
      ok := available > 0;
      if ok {
        available := available - 1;
      }
    }

    method Free()
      requires Valid() && ActiveCount() > 0
      modifies this
      ensures Valid() && ActiveCount() == old(ActiveCount()) - 1
    {
      available := available + 1;
    }

    function ActiveCount(): nat
      requires Valid()
      reads this
    {
      limit - available
    }
  }

  // ----- supervisors, terminating callers and droppers, step by step

  datatype Role = Supervisor | Terminator | Dropper

  /** An operation on the gate: `seal`, `terminate`, `try_seal`. */
  datatype Op = Seal | Term | TrySeal

  datatype Phase =
    | Checking                          // a caller looks at the outcome first
    | Observing                         // the supervisor waits for the leader's exit
    | Locking(op: Op)
    | Locked(op: Op)                    // has the lock, has not looked at the gate
    | Signalled(op: Op, ok: bool)       // has sent its signal
    | Closing(op: Op, ok: bool)         // about to unlock
    | Waiting(escalated: bool)          // a caller waits for the outcome
    | Sealed(ok: bool)
    | Reaping
    | Reaped
    | Freed                             // the permit is dropped, the outcome not yet published
    | DroppingChild                     // the child handle, which kills an unreaped child when dropped

  datatype Agent = Agent(process: nat, role: Role, phase: Phase)

  datatype Outcome = StillRunning | Exited | Failed

  /** `clean`: everything the supervisor did so far succeeded. */
  datatype Process = Process(
    pid: nat,
    supervisor: nat,
    active: bool,
    holder: Option<nat>,
    clean: bool,
    reaped: bool,
    outcome: Outcome)

  datatype System = System(
    limit: nat,
    available: nat,
    slots: set<nat>,
    processes: map<nat, Process>,
    agents: map<nat, Agent>,
    issued: set<nat>,
    os: map<nat, Target>,
    log: seq<Signal>)

  function Initial(limit: nat): System {
    System(limit, limit, {}, map[], map[], {}, map[], [])
  }

  datatype Effect = Effect(next: Option<Phase>, process: Process, sends: Option<Kind>, frees: bool)

  function Stay(p: Process, phase: Phase): Effect {
    Effect(Some(phase), p, None, false)
  }

  function Leave(p: Process): Effect {
    Effect(None, p, None, false)
  }

  function AfterUnlock(role: Role, op: Op, ok: bool): Option<Phase> {
    match (role, op)
    case (Supervisor, Seal) => Some(Sealed(ok))
    case (Supervisor, TrySeal) => Some(DroppingChild)
    case (Terminator, Term) => if ok then Some(Waiting(false)) else None
    case (Terminator, Seal) => if ok then Some(Waiting(true)) else None
    case _ => None
  }

  /** One atomic action of agent `a`; `ok` is what the system answers, or that a timeout has struck. */
  function EffectOf(p: Process, a: nat, role: Role, phase: Phase, ok: bool): Effect {
    match phase
    case Checking =>
      if p.outcome != StillRunning then Leave(p)
      else Stay(p, Locking(if role == Dropper then TrySeal else Term))
    case Observing => Stay(p.(clean := ok), Locking(Seal))
    case Locking(op) =>
      if p.holder.None? then Stay(p.(holder := Some(a)), Locked(op))
      else if op != TrySeal then Stay(p, phase)
      else if role == Supervisor then Stay(p, DroppingChild)
      else Leave(p)
    case Locked(op) =>
      if !p.active then Stay(p, Closing(op, true))
      else Stay(p, Signalled(op, ok)).(sends := Some(if op == Term then GroupTerm else GroupKill))
    case Signalled(op, sent) => Stay(if op == Term then p else p.(active := false), Closing(op, sent))
    case Closing(op, sent) =>
      Effect(AfterUnlock(role, op, sent),
             p.(holder := None, clean := p.clean && (role == Supervisor && op == Seal ==> sent)), None, false)
    case Waiting(escalated) =>
      if p.outcome != StillRunning then Leave(p)
      else if ok && !escalated then Stay(p, Locking(Seal))
      else Stay(p, phase)
    case Sealed(sent) => Stay(p, Reaping).(sends := if sent then None else Some(LeaderKill))
    case Reaping => Stay(p.(reaped := ok, clean := p.clean && ok), Reaped)
    case Reaped => Stay(p, Freed).(frees := true)
    case Freed => Stay(p.(outcome := if p.clean then Exited else Failed), Locking(TrySeal))
    case DroppingChild => Leave(p).(sends := if p.reaped || !ok then None else Some(LeaderKill))
  }

  datatype Step =
    | Reserve(process: nat)
    | SpawnFails(process: nat)
    | Spawn(process: nat, pid: nat, supervisor: nat)
    | Arrive(agent: nat, process: nat, role: Role)
    | Act(agent: nat, ok: bool)
    | ReapOrphan(process: nat)
    | ForeignSpawn(pid: nat)
    | ForeignExit(pid: nat)

  /** The numbers after the leader of `k` is reaped. */
  function Unnamed(os: map<nat, Target>, k: nat): map<nat, Target> {
    map n | n in os && os[n] != Ours(k) :: os[n]
  }

  function HitBy(s: System, pid: nat): Target {
    if pid in s.os then s.os[pid] else Nobody
  }

  function Apply(s: System, a: nat, agent: Agent, effect: Effect): System {
    var k, p := agent.process, effect.process;
    s.(processes := s.processes[k := p],
       agents := if effect.next.Some? then s.agents[a := agent.(phase := effect.next.value)] else s.agents - {a},
       slots := if effect.frees then s.slots - {k} else s.slots,
       available := if effect.frees then s.available + 1 else s.available,
       os := if p.reaped then Unnamed(s.os, k) else s.os,
       log := if effect.sends.Some? then s.log + [Signal(k, effect.sends.value, HitBy(s, p.pid))] else s.log)
  }

  function Take(s: System, step: Step): System {
    match step
    case Reserve(k) =>
      if s.available == 0 || k in s.slots || k in s.processes then s
      else s.(available := s.available - 1, slots := s.slots + {k})
    case SpawnFails(k) =>
      if k !in s.slots || k in s.processes then s
      else s.(available := s.available + 1, slots := s.slots - {k})
    case Spawn(k, pid, a) =>
      if k !in s.slots || k in s.processes || pid in s.os || a in s.issued then s
      else s.(processes := s.processes[k := Process(pid, a, true, None, true, false, StillRunning)],
              agents := s.agents[a := Agent(k, Supervisor, Observing)],
              issued := s.issued + {a},
              os := s.os[pid := Ours(k)])
    case Arrive(a, k, role) =>
      if k !in s.processes || a in s.issued || role == Supervisor then s
      else s.(agents := s.agents[a := Agent(k, role, Checking)], issued := s.issued + {a})
    case Act(a, ok) =>
      if a in s.agents && s.agents[a].process in s.processes then
        var agent := s.agents[a];
        Apply(s, a, agent, EffectOf(s.processes[agent.process], a, agent.role, agent.phase, ok))
      else s
    case ReapOrphan(k) =>
      // A child that nobody waits for any more is reaped by the runtime, some time after its handle is gone.
      if k !in s.processes || s.processes[k].supervisor in s.agents then s
      else s.(processes := s.processes[k := s.processes[k].(reaped := true)], os := Unnamed(s.os, k))
    case ForeignSpawn(pid) => if pid in s.os then s else s.(os := s.os[pid := Foreign])
    case ForeignExit(pid) => if pid in s.os && s.os[pid] == Foreign then s.(os := s.os - {pid}) else s
  }

  /** An action changes no agent but its own, and no process but that agent's. */
  lemma ActSparesOthers(s: System, a: nat, ok: bool, other: nat, k: nat)
    requires a in s.agents && other != a && k != s.agents[a].process
    ensures var t := Take(s, Act(a, ok));
      && (other in t.agents <==> other in s.agents) && (other in s.agents ==> t.agents[other] == s.agents[other])
      && (k in t.processes <==> k in s.processes) && (k in s.processes ==> t.processes[k] == s.processes[k])
      && t.limit == s.limit && t.issued == s.issued && (k in t.slots <==> k in s.slots)
  {
  }

  /** A reserved slot is given back when the spawn fails, and then nothing has happened. */
  lemma FailedSpawnUndoesReserve(s: System, k: nat)
    requires s.available > 0 && k !in s.slots && k !in s.processes
    ensures Take(s, Reserve(k)).available == s.available - 1 && k in Take(s, Reserve(k)).slots
    ensures Take(Take(s, Reserve(k)), SpawnFails(k)) == s
  {
    assert s.slots + {k} - {k} == s.slots;
  }

  /** A spawned process has an open gate, its own number and a supervisor that waits for its exit. */
  lemma SpawnStarts(s: System, k: nat, pid: nat, a: nat)
    requires k in s.slots && k !in s.processes && pid !in s.os && a !in s.issued
    ensures var t := Take(s, Spawn(k, pid, a));
      && t.processes == s.processes[k := Process(pid, a, true, None, true, false, StillRunning)]
      && t.agents == s.agents[a := Agent(k, Supervisor, Observing)] && a in t.issued
      && HitBy(t, pid) == Ours(k) && t.slots == s.slots && t.available == s.available && t.log == s.log
  {
  }

  /** A caller or a dropper that arrives at a process first looks at its outcome. */
  lemma ArrivalChecks(s: System, a: nat, k: nat, role: Role)
    requires k in s.processes && a !in s.issued && role != Supervisor
    ensures var t := Take(s, Arrive(a, k, role));
      && t.agents == s.agents[a := Agent(k, role, Checking)] && a in t.issued
      && t.processes == s.processes && t.log == s.log && t.os == s.os
  {
  }

  function Run(s: System, steps: seq<Step>): System {
    if steps == [] then s else Take(Run(s, steps[..|steps| - 1]), steps[|steps| - 1])
  }

  // ----- what holds of one agent and its process

  predicate Holding(phase: Phase) {
    phase.Locked? || phase.Signalled? || phase.Closing?
  }

  /** The agent has sent the final kill and not yet closed the gate. */
  predicate KillSent(phase: Phase) {
    phase.Signalled? && phase.op != Term
  }

  predicate OpOf(phase: Phase, op: Op) {
    (phase.Locking? || phase.Locked? || phase.Signalled? || phase.Closing?) && phase.op == op
  }

  predicate Fits(role: Role, phase: Phase) {
    match role
    case Supervisor =>
      phase.Observing? || phase.Sealed? || phase.Reaping? || phase.Reaped? || phase.Freed? || phase.DroppingChild?
      || OpOf(phase, Seal) || OpOf(phase, TrySeal)
    case Terminator => phase.Checking? || phase.Waiting? || OpOf(phase, Seal) || OpOf(phase, Term)
    case Dropper => phase.Checking? || OpOf(phase, TrySeal)
  }

  ghost predicate AgentOk(p: Process, a: nat, role: Role, phase: Phase) {
    && Fits(role, phase)
    && (role == Supervisor <==> a == p.supervisor)
    && (Holding(phase) <==> p.holder == Some(a))
    && (KillSent(phase) ==> p.active)
    && (phase.Closing? && phase.op != Term ==> !p.active)
  }

  /** How far a supervisor is: sealed, reaped, slot freed, published. */
  function Rank(phase: Option<Phase>): nat {
    match phase
    case None => 4
    case Some(Sealed(_)) => 1
    case Some(Reaping) => 1
    case Some(Reaped) => 2
    case Some(Freed) => 3
    case Some(DroppingChild) => 4
    case Some(other) => if OpOf(other, TrySeal) then 4 else 0
  }

  ghost predicate ProcessOk(p: Process, phase: Option<Phase>, slot: bool) {
    var rank := Rank(phase);
    && (rank >= 1 ==> !p.active)
    && (p.reaped ==> rank >= 2)
    && (rank >= 2 && p.clean ==> p.reaped)
    && (slot <==> rank < 3)
    && (p.outcome != StillRunning <==> rank >= 4)
    && (p.outcome == Exited ==> p.reaped)
  }

  /** An effect leaves its agent in order and takes or gives back only its own lock. */
  ghost predicate OwnShape(p: Process, a: nat, role: Role, e: Effect) {
    && (e.next.Some? ==> AgentOk(e.process, a, role, e.next.value))
    && (e.next.None? ==> e.process.holder != Some(a))
    && (|| e.process.holder == p.holder
        || (p.holder.None? && e.process.holder == Some(a))
        || (p.holder == Some(a) && e.process.holder.None?))
    && e.process.supervisor == p.supervisor && e.process.pid == p.pid
  }

  /** The gate changes only by a close after the final kill, and the final kill is sent only through the open gate. */
  ghost predicate KillShape(p: Process, a: nat, phase: Phase, e: Effect) {
    var kills, killed := e.next.Some? && KillSent(e.next.value), KillSent(phase);
    && (e.sends == Some(GroupKill) ==> p.active && p.holder == Some(a) && !killed && kills && e.process == p)
    && (e.sends != Some(GroupKill) && !killed ==> !kills && e.process.active == p.active)
    && (killed ==> p.holder == Some(a) && e.process.holder == Some(a) && !kills && !e.process.active)
  }

  lemma EffectKeepsAgent(p: Process, a: nat, role: Role, phase: Phase, ok: bool, slot: bool)
    requires AgentOk(p, a, role, phase) && (role == Supervisor ==> ProcessOk(p, Some(phase), slot))
    ensures var e := EffectOf(p, a, role, phase, ok);
      e.next.Some? ==> AgentOk(e.process, a, role, e.next.value)
  {
  }

  lemma EffectLocks(p: Process, a: nat, role: Role, phase: Phase, ok: bool)
    requires Holding(phase) <==> p.holder == Some(a)
    ensures var e := EffectOf(p, a, role, phase, ok);
      && (e.next.None? ==> e.process.holder != Some(a))
      && (|| e.process.holder == p.holder
          || (p.holder.None? && e.process.holder == Some(a))
          || (p.holder == Some(a) && e.process.holder.None?))
      && e.process.supervisor == p.supervisor && e.process.pid == p.pid
  {
  }

  lemma EffectIsOwn(p: Process, a: nat, role: Role, phase: Phase, ok: bool, slot: bool)
    requires AgentOk(p, a, role, phase) && (role == Supervisor ==> ProcessOk(p, Some(phase), slot))
    ensures OwnShape(p, a, role, EffectOf(p, a, role, phase, ok))
  {
    EffectKeepsAgent(p, a, role, phase, ok, slot);
    EffectLocks(p, a, role, phase, ok);
  }

  lemma EffectKillsOnce(p: Process, a: nat, role: Role, phase: Phase, ok: bool)
    requires AgentOk(p, a, role, phase)
    ensures KillShape(p, a, phase, EffectOf(p, a, role, phase, ok))
  {
  }

  lemma EffectFramesOthers(p: Process, a: nat, role: Role, phase: Phase, ok: bool, b: nat, role': Role, phase': Phase)
    requires AgentOk(p, a, role, phase) && AgentOk(p, b, role', phase') && a != b
    ensures AgentOk(EffectOf(p, a, role, phase, ok).process, b, role', phase')
  {
  }

  /** An effect keeps the supervisor's order: signals before the reap, the slot freed before the outcome. */
  ghost predicate OrderShape(p: Process, e: Effect, supervisor: Option<Phase>, slot: bool) {
    && ProcessOk(e.process, supervisor, slot && !e.frees)
    && (e.frees ==> slot)
    && (p.reaped ==> e.process.reaped)
    && (e.sends.Some? ==> !p.reaped && !e.process.reaped)
  }

  lemma SupervisorKeepsOrder(p: Process, a: nat, phase: Phase, ok: bool, slot: bool)
    requires AgentOk(p, a, Supervisor, phase) && ProcessOk(p, Some(phase), slot)
    ensures var e := EffectOf(p, a, Supervisor, phase, ok);
      OrderShape(p, e, e.next, slot)
  {
  }

  lemma CallerKeepsOrder(p: Process, a: nat, role: Role, phase: Phase, ok: bool, supervisor: Option<Phase>, slot: bool)
    requires AgentOk(p, a, role, phase) && role != Supervisor && ProcessOk(p, supervisor, slot)
    ensures OrderShape(p, EffectOf(p, a, role, phase, ok), supervisor, slot)
  {
  }

  // ----- what holds of the whole system

  function SupervisorPhase(s: System, k: nat): Option<Phase>
    requires k in s.processes
  {
    var a := s.processes[k].supervisor;
    if a in s.agents then Some(s.agents[a].phase) else None
  }

  ghost predicate AgentsOk(s: System) {
    && s.agents.Keys <= s.issued
    && (forall a :: a in s.agents ==>
          s.agents[a].process in s.processes
          && AgentOk(s.processes[s.agents[a].process], a, s.agents[a].role, s.agents[a].phase))
  }

  ghost predicate NamesOk(s: System) {
    && (forall k :: k in s.processes ==> s.processes[k].supervisor in s.issued)
    && (forall k :: k in s.processes && s.processes[k].supervisor in s.agents ==>
          s.agents[s.processes[k].supervisor].process == k)
    && (forall k :: k in s.processes && s.processes[k].holder.Some? ==>
          s.processes[k].holder.value in s.agents && s.agents[s.processes[k].holder.value].process == k)
  }

  ghost predicate ProcessesOk(s: System) {
    forall k :: k in s.processes ==> ProcessOk(s.processes[k], SupervisorPhase(s, k), k in s.slots)
  }

  /** A number names a leader of ours exactly until that leader is reaped. */
  ghost predicate OsOk(s: System) {
    && (forall k :: k in s.processes && !s.processes[k].reaped ==> HitBy(s, s.processes[k].pid) == Ours(k))
    && (forall n :: n in s.os && s.os[n].Ours? ==> s.os[n].process in s.processes && !s.processes[s.os[n].process].reaped)
  }

  ghost predicate LogOk(s: System) {
    forall i :: 0 <= i < |s.log| ==> s.log[i].hit == Ours(s.log[i].owner)
  }

  function KillsOf(log: seq<Signal>, k: nat): nat {
    if log == [] then 0
    else
      var last := log[|log| - 1];
      KillsOf(log[..|log| - 1], k) + if last.owner == k && last.kind == GroupKill then 1 else 0
  }

  /** The final kill of process `k` is out: the gate is closed, or about to be. */
  predicate Killed(s: System, k: nat) {
    && k in s.processes
    && var p := s.processes[k];
    !p.active || (p.holder.Some? && p.holder.value in s.agents && KillSent(s.agents[p.holder.value].phase))
  }

  ghost predicate KillsOk(s: System) {
    forall k :: KillsOf(s.log, k) == if Killed(s, k) then 1 else 0
  }

  ghost predicate SlotsOk(s: System) {
    s.available + |s.slots| == s.limit
  }

  ghost predicate Safe(s: System) {
    AgentsOk(s) && NamesOk(s) && ProcessesOk(s) && OsOk(s) && LogOk(s) && KillsOk(s) && SlotsOk(s)
  }

  // ----- an agent acts

  ghost predicate CanAct(s: System, a: nat) {
    a in s.agents && s.agents[a].process in s.processes
  }

  function ActEffect(s: System, a: nat, ok: bool): Effect
    requires CanAct(s, a)
  {
    EffectOf(s.processes[s.agents[a].process], a, s.agents[a].role, s.agents[a].phase, ok)
  }

  lemma ActKeepsAgents(s: System, a: nat, e: Effect)
    requires CanAct(s, a) && AgentsOk(s) && OwnShape(s.processes[s.agents[a].process], a, s.agents[a].role, e)
    requires forall b :: b in s.agents && b != a && s.agents[b].process == s.agents[a].process ==>
      AgentOk(e.process, b, s.agents[b].role, s.agents[b].phase)
    ensures AgentsOk(Apply(s, a, s.agents[a], e))
  {
  }

  lemma ActKeepsNames(s: System, a: nat, e: Effect)
    requires CanAct(s, a) && NamesOk(s) && OwnShape(s.processes[s.agents[a].process], a, s.agents[a].role, e)
    requires AgentOk(s.processes[s.agents[a].process], a, s.agents[a].role, s.agents[a].phase)
    requires s.agents.Keys <= s.issued
    requires forall k :: k in s.processes && s.processes[k].holder == Some(a) ==> k == s.agents[a].process
    requires e.process.holder == Some(a) ==> e.next.Some?
    ensures NamesOk(Apply(s, a, s.agents[a], e))
  {
  }

  lemma ActKeepsProcesses(s: System, a: nat, e: Effect)
    requires CanAct(s, a) && NamesOk(s) && ProcessesOk(s)
    requires e.process.supervisor == s.processes[s.agents[a].process].supervisor
    requires var k := s.agents[a].process;
      OrderShape(s.processes[k], e, if s.processes[k].supervisor == a then e.next else SupervisorPhase(s, k), k in s.slots)
    ensures ProcessesOk(Apply(s, a, s.agents[a], e))
  {
    var t := Apply(s, a, s.agents[a], e);
    forall k | k in t.processes ensures ProcessOk(t.processes[k], SupervisorPhase(t, k), k in t.slots) {
      if k != s.agents[a].process {
        assert s.processes[k].supervisor != a;
        assert ProcessOk(s.processes[k], SupervisorPhase(s, k), k in s.slots);
      }
    }
  }

  lemma ActKeepsOs(s: System, a: nat, e: Effect)
    requires CanAct(s, a) && OsOk(s) && e.process.pid == s.processes[s.agents[a].process].pid
    requires s.processes[s.agents[a].process].reaped ==> e.process.reaped
    requires e.sends.Some? ==> !s.processes[s.agents[a].process].reaped
    ensures OsOk(Apply(s, a, s.agents[a], e))
    ensures LogOk(s) ==> LogOk(Apply(s, a, s.agents[a], e))
  {
  }

  lemma ActChangesKilled(s: System, a: nat, e: Effect)
    requires CanAct(s, a) && NamesOk(s)
    requires KillShape(s.processes[s.agents[a].process], a, s.agents[a].phase, e)
    requires OwnShape(s.processes[s.agents[a].process], a, s.agents[a].role, e)
    ensures var t, mine := Apply(s, a, s.agents[a], e), s.agents[a].process;
      && (forall k :: k != mine ==> Killed(t, k) == Killed(s, k))
      && (if e.sends == Some(GroupKill) then !Killed(s, mine) && Killed(t, mine) else Killed(t, mine) == Killed(s, mine))
  {
  }

  lemma ActKeepsKills(s: System, a: nat, e: Effect)
    requires CanAct(s, a) && KillsOk(s) && NamesOk(s)
    requires KillShape(s.processes[s.agents[a].process], a, s.agents[a].phase, e)
    requires OwnShape(s.processes[s.agents[a].process], a, s.agents[a].role, e)
    ensures KillsOk(Apply(s, a, s.agents[a], e))
  {
    ActChangesKilled(s, a, e);
    var t, mine := Apply(s, a, s.agents[a], e), s.agents[a].process;
    if e.sends.Some? {
      assert t.log[..|t.log| - 1] == s.log;
    }
    assert forall k :: KillsOf(t.log, k) == KillsOf(s.log, k) + if k == mine && e.sends == Some(GroupKill) then 1 else 0;
  }

  lemma ActKeepsSlots(s: System, a: nat, e: Effect)
    requires CanAct(s, a) && SlotsOk(s) && (e.frees ==> s.agents[a].process in s.slots)
    ensures SlotsOk(Apply(s, a, s.agents[a], e))
  {
  }

  lemma EffectIsGood(s: System, a: nat, ok: bool)
    requires AgentsOk(s) && NamesOk(s) && ProcessesOk(s) && a in s.agents
    ensures CanAct(s, a)
    ensures var k, role, phase, e := s.agents[a].process, s.agents[a].role, s.agents[a].phase, ActEffect(s, a, ok);
      var p := s.processes[k];
      && OwnShape(p, a, role, e) && KillShape(p, a, phase, e)
      && OrderShape(p, e, if p.supervisor == a then e.next else SupervisorPhase(s, k), k in s.slots)
      && (forall b :: b in s.agents && b != a && s.agents[b].process == k ==>
            AgentOk(e.process, b, s.agents[b].role, s.agents[b].phase))
  {
    var k, role, phase := s.agents[a].process, s.agents[a].role, s.agents[a].phase;
    var p, slot := s.processes[k], k in s.slots;
    assert ProcessOk(p, SupervisorPhase(s, k), slot);
    EffectIsOwn(p, a, role, phase, ok, slot);
    EffectKillsOnce(p, a, role, phase, ok);
    if role == Supervisor {
      SupervisorKeepsOrder(p, a, phase, ok, slot);
    } else {
      CallerKeepsOrder(p, a, role, phase, ok, SupervisorPhase(s, k), slot);
    }
    forall b | b in s.agents && b != a && s.agents[b].process == k
      ensures AgentOk(ActEffect(s, a, ok).process, b, s.agents[b].role, s.agents[b].phase)
    {
      EffectFramesOthers(p, a, role, phase, ok, b, s.agents[b].role, s.agents[b].phase);
    }
  }

  lemma ApplyKeepsSafe(s: System, a: nat, e: Effect)
    requires Safe(s) && a in s.agents
    requires var k, role, phase := s.agents[a].process, s.agents[a].role, s.agents[a].phase;
      var p := s.processes[k];
      && OwnShape(p, a, role, e) && KillShape(p, a, phase, e)
      && OrderShape(p, e, if p.supervisor == a then e.next else SupervisorPhase(s, k), k in s.slots)
      && (forall b :: b in s.agents && b != a && s.agents[b].process == k ==>
            AgentOk(e.process, b, s.agents[b].role, s.agents[b].phase))
    ensures Safe(Apply(s, a, s.agents[a], e))
  {
    ActKeepsAgents(s, a, e);
    ActKeepsNames(s, a, e);
    ActKeepsProcesses(s, a, e);
    ActKeepsOs(s, a, e);
    ActKeepsKills(s, a, e);
    ActKeepsSlots(s, a, e);
  }

  lemma ActKeepsSafe(s: System, a: nat, ok: bool)
    requires Safe(s)
    ensures Safe(Take(s, Act(a, ok)))
  {
    if a in s.agents {
      EffectIsGood(s, a, ok);
      ApplyKeepsSafe(s, a, ActEffect(s, a, ok));
    }
  }

  // ----- the other steps

  /** Steps that belong to no process that exists. */
  predicate Aside(step: Step) {
    !step.Act? && !step.ReapOrphan?
  }

  ghost predicate ReapsOrphan(s: System, t: System, k: nat) {
    && k in s.processes && s.processes[k].supervisor !in s.agents
    && t == s.(processes := s.processes[k := s.processes[k].(reaped := true)], os := Unnamed(s.os, k))
  }

  lemma OrphanKeepsSafe(s: System, t: System, k: nat)
    requires Safe(s) && ReapsOrphan(s, t, k)
    ensures Safe(t)
  {
    OrphanKeepsRest(s, t, k);
    OrphanKeepsProcesses(s, t, k);
    OrphanKeepsKills(s, t, k);
  }

  lemma OrphanKeepsProcesses(s: System, t: System, k: nat)
    requires ProcessesOk(s) && ReapsOrphan(s, t, k)
    ensures ProcessesOk(t)
  {
    forall j | j in t.processes ensures ProcessOk(t.processes[j], SupervisorPhase(t, j), j in t.slots) {
      assert ProcessOk(s.processes[j], SupervisorPhase(s, j), j in s.slots);
    }
  }

  lemma OrphanKeepsKills(s: System, t: System, k: nat)
    requires KillsOk(s) && ReapsOrphan(s, t, k)
    ensures KillsOk(t)
  {
    assert forall j :: Killed(t, j) == Killed(s, j);
  }

  lemma OrphanKeepsRest(s: System, t: System, k: nat)
    requires AgentsOk(s) && NamesOk(s) && OsOk(s) && ReapsOrphan(s, t, k)
    ensures AgentsOk(t) && NamesOk(t) && OsOk(t)
  {
    assert forall j :: j in s.processes && j != k && !s.processes[j].reaped ==> HitBy(s, s.processes[j].pid) == Ours(j);
  }

  lemma OthersKeepAgents(s: System, step: Step)
    requires AgentsOk(s) && NamesOk(s) && Aside(step)
    ensures AgentsOk(Take(s, step))
  {
  }

  lemma OthersKeepNames(s: System, step: Step)
    requires s.agents.Keys <= s.issued && NamesOk(s) && Aside(step)
    ensures NamesOk(Take(s, step))
  {
  }

  lemma OthersFrame(s: System, step: Step, k: nat)
    requires s.agents.Keys <= s.issued && NamesOk(s) && Aside(step) && k in s.processes
    ensures var t := Take(s, step);
      && k in t.processes && t.processes[k] == s.processes[k] && SupervisorPhase(t, k) == SupervisorPhase(s, k)
      && (k in t.slots <==> k in s.slots)
  {
  }

  lemma SpawnedIsOk(s: System, step: Step, k: nat)
    requires Aside(step) && k !in s.processes && k in Take(s, step).processes
    ensures var t := Take(s, step);
      ProcessOk(t.processes[k], SupervisorPhase(t, k), k in t.slots)
  {
  }

  lemma OthersKeepProcesses(s: System, step: Step)
    requires s.agents.Keys <= s.issued && NamesOk(s) && ProcessesOk(s) && Aside(step)
    ensures ProcessesOk(Take(s, step))
  {
    var t := Take(s, step);
    forall k | k in t.processes ensures ProcessOk(t.processes[k], SupervisorPhase(t, k), k in t.slots) {
      if k in s.processes {
        OthersFrame(s, step, k);
      } else {
        SpawnedIsOk(s, step, k);
      }
    }
  }

  lemma OthersKeepOs(s: System, step: Step)
    requires OsOk(s) && LogOk(s) && Aside(step)
    ensures OsOk(Take(s, step)) && LogOk(Take(s, step))
  {
  }

  lemma OthersKeepKills(s: System, step: Step)
    requires KillsOk(s) && s.agents.Keys <= s.issued && NamesOk(s) && Aside(step)
    ensures KillsOk(Take(s, step))
  {
    var t := Take(s, step);
    assert t.log == s.log;
    assert forall k :: Killed(t, k) == Killed(s, k);
  }

  lemma OthersKeepSlots(s: System, step: Step)
    requires SlotsOk(s) && Aside(step)
    ensures SlotsOk(Take(s, step))
  {
  }

  lemma TakeKeepsSafe(s: System, step: Step)
    requires Safe(s)
    ensures Safe(Take(s, step))
  {
    if step.Act? {
      ActKeepsSafe(s, step.agent, step.ok);
    } else if step.ReapOrphan? {
      if step.process in s.processes && s.processes[step.process].supervisor !in s.agents {
        OrphanKeepsSafe(s, Take(s, step), step.process);
      }
    } else {
      OthersKeepAgents(s, step);
      OthersKeepNames(s, step);
      OthersKeepProcesses(s, step);
      OthersKeepOs(s, step);
      OthersKeepKills(s, step);
      OthersKeepSlots(s, step);
    }
  }

  // ----- whole runs

  lemma {:induction false} RunKeepsSafe(s: System, steps: seq<Step>)
    requires Safe(s)
    ensures Safe(Run(s, steps))
  {
    if steps != [] {
      RunKeepsSafe(s, steps[..|steps| - 1]);
      TakeKeepsSafe(Run(s, steps[..|steps| - 1]), steps[|steps| - 1]);
    }
  }

  /**
   In every interleaving of supervisors, terminating callers, droppers and the rest of the machine:
   a signal sent through an owner hits that owner's own leader, never a reused number; an owner sends
   at most one final kill; the slots in use never exceed the limit, and every child that its supervisor
   has not seen off holds one; and whoever sees a finished
   outcome finds the gate closed, the slot free and, if the exit was clean, the leader reaped.
   */
  lemma EveryRunIsSafe(limit: nat, steps: seq<Step>)
    ensures var s := Run(Initial(limit), steps);
      && (forall i :: 0 <= i < |s.log| ==> s.log[i].hit == Ours(s.log[i].owner))
      && (forall k :: KillsOf(s.log, k) <= 1)
      && s.limit == limit && s.available + |s.slots| == limit
      && (forall k :: k in s.processes && Rank(SupervisorPhase(s, k)) < 3 ==> k in s.slots)
      && (forall k :: k in s.processes && s.processes[k].outcome != StillRunning ==>
            k !in s.slots && !s.processes[k].active && KillsOf(s.log, k) == 1
            && (s.processes[k].outcome == Exited ==> s.processes[k].reaped))
  {
    RunKeepsSafe(Initial(limit), steps);
    LimitIsFixed(Initial(limit), steps);
  }

  lemma {:induction false} LimitIsFixed(s: System, steps: seq<Step>)
    ensures Run(s, steps).limit == s.limit
  {
    if steps != [] {
      LimitIsFixed(s, steps[..|steps| - 1]);
    }
  }

  /** The signals sent for process `k`; with `group`, only those to its group. */
  function SignalsOf(log: seq<Signal>, k: nat, group: bool): seq<Signal> {
    if log == [] then []
    else
      var last := log[|log| - 1];
      SignalsOf(log[..|log| - 1], k, group)
      + if last.owner == k && (group ==> last.kind != LeaderKill) then [last] else []
  }

  /** The supervisor of `k` has sealed the gate and begun to wait for the reap, or is further. */
  ghost predicate ReapBegun(s: System, k: nat) {
    k in s.processes && Rank(SupervisorPhase(s, k)) >= 1
    && !(SupervisorPhase(s, k).Some? && SupervisorPhase(s, k).value.Sealed?)
  }

  /** The one signal that may follow: the child handle's kill, after a wait that failed. */
  ghost predicate LateKill(s: System, t: System, k: nat)
    requires k in s.processes && k in t.processes
  {
    && SupervisorPhase(s, k).Some? && SupervisorPhase(t, k).None? && t.processes[k].outcome == Failed
    && SignalsOf(t.log, k, false) == SignalsOf(s.log, k, false) + [Signal(k, LeaderKill, Ours(k))]
  }

  /** What is final between two moments of a process whose gate was closed at the first of them. */
  ghost predicate Silent(s: System, t: System, k: nat)
    requires k in s.processes
  {
    && k in t.processes && !t.processes[k].active
    && SignalsOf(t.log, k, true) == SignalsOf(s.log, k, true)
    && (ReapBegun(s, k) ==>
          ReapBegun(t, k) && (SignalsOf(t.log, k, false) == SignalsOf(s.log, k, false) || LateKill(s, t, k)))
    && (s.processes[k].reaped ==>
          t.processes[k].reaped && SignalsOf(t.log, k, false) == SignalsOf(s.log, k, false))
    && (SupervisorPhase(s, k).None? ==> SupervisorPhase(t, k).None?)
    && (s.processes[k].outcome != StillRunning ==> t.processes[k].outcome == s.processes[k].outcome)
  }

  lemma SilentChains(s: System, t: System, u: System, k: nat)
    requires k in s.processes && Silent(s, t, k) && Silent(t, u, k)
    ensures Silent(s, u, k)
  {
  }

  lemma TakeIsSilent(s: System, step: Step, k: nat)
    requires Safe(s) && k in s.processes && !s.processes[k].active
    ensures Silent(s, Take(s, step), k)
  {
    var t := Take(s, step);
    match step
    case Act(a, ok) => if a in s.agents { ActIsSilent(s, a, ok, k); }
    case ReapOrphan(orphan) =>
      if orphan in s.processes && s.processes[orphan].supervisor !in s.agents { OrphanIsSilent(s, t, orphan, k); }
    case _ => AsideIsSilent(s, step, k);
  }

  lemma OrphanIsSilent(s: System, t: System, orphan: nat, k: nat)
    requires ReapsOrphan(s, t, orphan) && k in s.processes && !s.processes[k].active
    ensures Silent(s, t, k)
  {
    assert t.log == s.log && SupervisorPhase(t, k) == SupervisorPhase(s, k);
  }

  lemma AsideIsSilent(s: System, step: Step, k: nat)
    requires s.agents.Keys <= s.issued && NamesOk(s) && Aside(step) && k in s.processes && !s.processes[k].active
    ensures Silent(s, Take(s, step), k)
  {
    OthersFrame(s, step, k);
    AsideLogsNothing(s, step);
  }

  lemma AsideLogsNothing(s: System, step: Step)
    requires Aside(step)
    ensures Take(s, step).log == s.log
  {
  }

  /** An effect behind a closed gate. */
  ghost predicate SilentShape(p: Process, role: Role, phase: Phase, e: Effect) {
    && (e.sends.Some? ==> e.sends.value == LeaderKill && role == Supervisor && !p.reaped)
    && (e.sends.Some? && !phase.Sealed? ==> e.next.None? && e.process.outcome == Failed)
    && !e.process.active
    && (p.reaped ==> e.process.reaped)
    && (p.outcome != StillRunning ==> e.process.outcome == p.outcome)
    && (role == Supervisor && Rank(Some(phase)) >= 1 ==> Rank(e.next) >= 1 && !(e.next.Some? && e.next.value.Sealed?))
  }

  lemma EffectIsSilent(p: Process, a: nat, role: Role, phase: Phase, ok: bool, supervisor: Option<Phase>, slot: bool)
    requires AgentOk(p, a, role, phase) && ProcessOk(p, supervisor, slot)
    requires role == Supervisor ==> supervisor == Some(phase)
    ensures EffectOf(p, a, role, phase, ok).process.supervisor == p.supervisor
    ensures !p.active ==> SilentShape(p, role, phase, EffectOf(p, a, role, phase, ok))
  {
  }

  lemma ApplyIsSilent(s: System, a: nat, e: Effect, k: nat)
    requires CanAct(s, a) && NamesOk(s) && OsOk(s) && k in s.processes && !s.processes[k].active
    requires s.agents[a].role == Supervisor <==> a == s.processes[s.agents[a].process].supervisor
    requires e.process.supervisor == s.processes[s.agents[a].process].supervisor
    requires e.process.pid == s.processes[s.agents[a].process].pid
    requires s.agents[a].process == k ==> SilentShape(s.processes[k], s.agents[a].role, s.agents[a].phase, e)
    ensures Silent(s, Apply(s, a, s.agents[a], e), k)
  {
    var t := Apply(s, a, s.agents[a], e);
    if e.sends.Some? {
      assert t.log[..|t.log| - 1] == s.log;
    }
    assert s.agents[a].process != k ==> s.processes[k].supervisor != a;
  }

  lemma ActIsSilent(s: System, a: nat, ok: bool, k: nat)
    requires AgentsOk(s) && NamesOk(s) && ProcessesOk(s) && OsOk(s)
    requires a in s.agents && k in s.processes && !s.processes[k].active
    ensures Silent(s, Apply(s, a, s.agents[a], ActEffect(s, a, ok)), k)
  {
    var mine := s.agents[a].process;
    assert ProcessOk(s.processes[mine], SupervisorPhase(s, mine), mine in s.slots);
    EffectIsSilent(
      s.processes[mine], a, s.agents[a].role, s.agents[a].phase, ok, SupervisorPhase(s, mine), mine in s.slots);
    EffectIsOwn(s.processes[mine], a, s.agents[a].role, s.agents[a].phase, ok, mine in s.slots);
    ApplyIsSilent(s, a, ActEffect(s, a, ok), k);
  }

  /**
   Over any continuation: no group signal after the gate closes; once the supervisor waits for the
   reap no signal at all, save the child handle's own kill after a wait that failed; and none
   whatever once the leader is reaped.
   */
  lemma {:induction false} NoSignalAfterReap(s: System, steps: seq<Step>, k: nat)
    requires Safe(s) && k in s.processes && !s.processes[k].active
    ensures Silent(s, Run(s, steps), k)
  {
    if steps != [] {
      var before := Run(s, steps[..|steps| - 1]);
      NoSignalAfterReap(s, steps[..|steps| - 1], k);
      RunKeepsSafe(s, steps[..|steps| - 1]);
      TakeIsSilent(before, steps[|steps| - 1], k);
      SilentChains(s, before, Run(s, steps), k);
    }
  }

  /** The supervisor never begins to reap behind an open gate. */
  lemma ReapMeansClosed(s: System, k: nat)
    requires Safe(s) && (ReapBegun(s, k) || (k in s.processes && s.processes[k].reaped))
    ensures !s.processes[k].active
  {
    assert ProcessOk(s.processes[k], SupervisorPhase(s, k), k in s.slots);
  }

  // ----- what an agent brings about when nobody interferes

  /** Where an agent has come, its process, and the signals it has sent. */
  datatype Alone = Alone(next: Option<Phase>, process: Process, sent: seq<Kind>)

  function Sent(e: Effect): seq<Kind> {
    if e.sends.Some? then [e.sends.value] else []
  }

  /** The agent acts alone; `answers` are what the system answers it, in turn. */
  function ActAlone(p: Process, a: nat, role: Role, phase: Phase, answers: seq<bool>): Alone
    decreases |answers|, 0
  {
    if answers == [] then Alone(Some(phase), p, [])
    else After(EffectOf(p, a, role, phase, answers[0]), a, role, answers[1..])
  }

  function After(e: Effect, a: nat, role: Role, answers: seq<bool>): Alone
    decreases |answers|, 1
  {
    if e.next.None? then Alone(None, e.process, Sent(e))
    else
      var rest := ActAlone(e.process, a, role, e.next.value, answers);
      rest.(sent := Sent(e) + rest.sent)
  }

  lemma ActsNext(p: Process, a: nat, role: Role, phase: Phase, answer: bool, rest: seq<bool>)
    ensures ActAlone(p, a, role, phase, [answer] + rest) == After(EffectOf(p, a, role, phase, answer), a, role, rest)
  {
    assert ([answer] + rest)[1..] == rest;
  }

  /** The agent passes through the gate: it locks, signals if the gate is open, closes it unless it terminates, unlocks. */
  lemma PassesGate(p: Process, a: nat, role: Role, op: Op, sent: bool, rest: seq<bool>)
    requires p.holder.None? && p.active
    ensures var clean := p.clean && (role == Supervisor && op == Seal ==> sent);
      var p', kind := p.(active := op == Term, clean := clean), if op == Term then GroupTerm else GroupKill;
      ActAlone(p, a, role, Locking(op), [true, sent, true, true] + rest)
      == After(Effect(AfterUnlock(role, op, sent), p', Some(kind), false), a, role, rest)
  {
    var locked := p.(holder := Some(a));
    var closed := if op == Term then locked else locked.(active := false);
    assert [true, sent, true, true] + rest == [true] + ([sent] + ([true] + ([true] + rest)));
    ActsNext(p, a, role, Locking(op), true, [sent] + ([true] + ([true] + rest)));
    ActsNext(locked, a, role, Locked(op), sent, [true] + ([true] + rest));
    ActsNext(locked, a, role, Signalled(op, sent), true, [true] + rest);
    ActsNext(closed, a, role, Closing(op, sent), true, rest);
  }

  /** Behind a closed gate nothing is sent, and the operation succeeds. */
  lemma FindsGateClosed(p: Process, a: nat, role: Role, op: Op, rest: seq<bool>)
    requires p.holder.None? && !p.active
    ensures ActAlone(p, a, role, Locking(op), [true, true, true] + rest)
      == After(Effect(AfterUnlock(role, op, true), p, None, false), a, role, rest)
  {
    var locked := p.(holder := Some(a));
    assert [true, true, true] + rest == [true] + ([true] + ([true] + rest));
    ActsNext(p, a, role, Locking(op), true, [true] + ([true] + rest));
    ActsNext(locked, a, role, Locked(op), true, [true] + rest);
    ActsNext(locked, a, role, Closing(op, true), true, rest);
    assert p.(holder := None) == p;
  }

  const PASS: seq<bool> := [true, true, true, true]

  /** Terminating a live process sends SIGTERM and leaves the gate open. */
  lemma TerminateSignals(p: Process, a: nat)
    requires p.holder.None? && p.active && p.outcome == StillRunning
    ensures ActAlone(p, a, Terminator, Checking, [true] + PASS) == Alone(Some(Waiting(false)), p, [GroupTerm])
  {
    assert PASS == PASS + [];
    ActsNext(p, a, Terminator, Checking, true, PASS);
    PassesGate(p, a, Terminator, Term, true, []);
  }

  /** A signal that cannot be delivered ends the call. */
  lemma FailedSignalEndsTheCall(p: Process, a: nat)
    requires p.holder.None? && p.active
    ensures ActAlone(p, a, Terminator, Locking(Term), [true, false, true, true]) == Alone(None, p, [GroupTerm])
    ensures ActAlone(p, a, Terminator, Locking(Seal), [true, false, true, true]) == Alone(None, p.(active := false), [GroupKill])
  {
    assert [true, false, true, true] == [true, false, true, true] + [];
    PassesGate(p, a, Terminator, Term, false, []);
    PassesGate(p, a, Terminator, Seal, false, []);
  }

  /** When the grace has run out, the caller sends the final SIGKILL and closes the gate. */
  lemma TerminateEscalates(p: Process, a: nat)
    requires p.holder.None? && p.active && p.outcome == StillRunning
    ensures ActAlone(p, a, Terminator, Waiting(false), [true] + PASS) ==
      Alone(Some(Waiting(true)), p.(active := false), [GroupKill])
  {
    assert PASS == PASS + [];
    ActsNext(p, a, Terminator, Waiting(false), true, PASS);
    PassesGate(p, a, Terminator, Seal, true, []);
  }

  /** A caller waits no longer than for the outcome, and does nothing when there is one already. */
  lemma FinishedEndsTheWait(p: Process, a: nat, role: Role, phase: Phase, answer: bool)
    requires p.outcome != StillRunning && (phase.Checking? || phase.Waiting?)
    ensures ActAlone(p, a, role, phase, [answer]) == Alone(None, p, [])
  {
    ActsNext(p, a, role, phase, answer, []);
    assert [answer] + [] == [answer];
  }

  /** Dropping the handle of a live process kills its group and closes the gate. */
  lemma DropKills(p: Process, a: nat, sent: bool)
    requires p.holder.None? && p.active && p.outcome == StillRunning
    ensures ActAlone(p, a, Dropper, Checking, [true] + [true, sent, true, true]) ==
      Alone(None, p.(active := false), [GroupKill])
  {
    var gate := [true, sent, true, true];
    assert gate == gate + [];
    ActsNext(p, a, Dropper, Checking, true, gate);
    PassesGate(p, a, Dropper, TrySeal, sent, []);
  }

  /** From the reap to the end: the outcome is clean iff everything was, and a failed wait may cost the child one kill. */
  lemma SupervisorEnds(p: Process, a: nat, reaped: bool, dropKill: bool)
    requires p.holder.None? && !p.active && !p.reaped
    ensures ActAlone(p, a, Supervisor, Reaping, [reaped] + ([true] + ([true] + ([true, true, true] + [dropKill])))) ==
      Alone(None, p.(reaped := reaped, clean := p.clean && reaped, outcome := if p.clean && reaped then Exited else Failed),
            if !reaped && dropKill then [LeaderKill] else [])
  {
    var p1 := p.(reaped := reaped, clean := p.clean && reaped);
    var p2 := p1.(outcome := if p1.clean then Exited else Failed);
    ActsNext(p, a, Supervisor, Reaping, reaped, [true] + ([true] + ([true, true, true] + [dropKill])));
    ActsNext(p1, a, Supervisor, Reaped, true, [true] + ([true, true, true] + [dropKill]));
    ActsNext(p1, a, Supervisor, Freed, true, [true, true, true] + [dropKill]);
    FindsGateClosed(p2, a, Supervisor, TrySeal, [dropKill]);
    ActsNext(p2, a, Supervisor, DroppingChild, dropKill, []);
    assert [dropKill] + [] == [dropKill];
  }

  /** From the leader's exit to the reap: one final kill through the open gate, and the fallback kill iff that failed. */
  lemma SupervisorSeals(p: Process, a: nat, observed: bool, sealed: bool, rest: seq<bool>)
    requires p.holder.None? && p.active
    ensures ActAlone(p, a, Supervisor, Observing, [observed] + ([true, sealed, true, true] + ([true] + rest))) ==
      var end := ActAlone(p.(active := false, clean := observed && sealed), a, Supervisor, Reaping, rest);
      end.(sent := [GroupKill] + (if sealed then [] else [LeaderKill]) + end.sent)
  {
    var p1 := p.(clean := observed);
    var p2 := p1.(active := false, clean := observed && sealed);
    ActsNext(p, a, Supervisor, Observing, observed, [true, sealed, true, true] + ([true] + rest));
    PassesGate(p1, a, Supervisor, Seal, sealed, [true] + rest);
    ActsNext(p2, a, Supervisor, Sealed(sealed), true, rest);
    var end := ActAlone(p2, a, Supervisor, Reaping, rest);
    assert [GroupKill] + ((if sealed then [] else [LeaderKill]) + end.sent)
        == [GroupKill] + (if sealed then [] else [LeaderKill]) + end.sent;
  }
}
