/**
 The bounded tracker of structured requests that wait for an answer from the user
 interface. `Tracker` and its functions give each operation's effect as a value;
 the class `PendingTracker` performs the same operations in place.
 */
module PendingTrackers {
  import opened Prelude
  import opened Ordering

  datatype Kind = Permission | UserInput | GuiAction

  datatype Key = Key(id: string, kind: Kind)

  datatype Request = Request(kind: Kind, deadline: nat)

  datatype Refusal = TooMany | NotUnique | Unknown | ExpiredOrWrongType | NotInFlight

  datatype Tracker = Tracker(
    active: map<string, Request>,
    inFlight: map<string, Request>,
    order: seq<Key>,
    resolved: set<Key>,
    uncertain: set<Key>,
    capacity: nat)

  function Empty(capacity: nat): Tracker {
    Tracker(map[], map[], [], {}, {}, capacity)
  }

  predicate Waits(requests: map<string, Request>, key: Key) {
    key.id in requests && requests[key.id].kind == key.kind
  }

  predicate Live(t: Tracker, key: Key) {
    Waits(t.active, key) || Waits(t.inFlight, key)
  }

  predicate Remembers(t: Tracker, key: Key) {
    key in t.resolved || key in t.uncertain
  }

  // ----- the operations as values

  function Keys(s: seq<Key>): set<Key> {
    set k | k in s
  }

  /** Forgets the oldest remembered keys until at most `capacity` are left. */
  function Evict(t: Tracker): Tracker {
    if |t.order| <= t.capacity then t
    else
      var cut := |t.order| - t.capacity;
      t.(order := t.order[cut..],
         resolved := t.resolved - Keys(t.order[..cut]),
         uncertain := t.uncertain - Keys(t.order[..cut]))
  }

  function RememberResolved(t: Tracker, key: Key): Tracker {
    Evict(if key in t.resolved then t else t.(resolved := t.resolved + {key}, order := t.order + [key]))
  }

  function RememberUncertain(t: Tracker, key: Key): Tracker {
    Evict(if key in t.uncertain then t else t.(uncertain := t.uncertain + {key}, order := t.order + [key]))
  }

  function Register(t: Tracker, key: Key, deadline: nat): Result<Tracker, Refusal> {
    if |t.active| + |t.inFlight| >= t.capacity then Err(TooMany)
    else if key.id in t.active || key.id in t.inFlight || Remembers(t, key) then Err(NotUnique)
    else Ok(t.(active := t.active[key.id := Request(key.kind, deadline)]))
  }

  /** Why the code refuses to take an active request at time `now`, if it does. */
  function Refused(t: Tracker, key: Key, now: nat): Option<Refusal> {
    if key.id !in t.active then Some(Unknown)
    else if t.active[key.id].kind != key.kind || t.active[key.id].deadline <= now then Some(ExpiredOrWrongType)
    else None
  }

  function Claim(t: Tracker, key: Key, now: nat): Result<Tracker, Refusal> {
    match Refused(t, key, now)
    case Some(refusal) => Err(refusal)
    case None => Ok(t.(active := t.active - {key.id}, inFlight := t.inFlight[key.id := t.active[key.id]]))
  }

  function Restore(t: Tracker, key: Key): (Tracker, bool) {
    if !Waits(t.inFlight, key) then (t, false)
    else (t.(inFlight := t.inFlight - {key.id}, active := t.active[key.id := t.inFlight[key.id]]), true)
  }

  function ResolveInFlight(t: Tracker, key: Key): Result<Tracker, Refusal> {
    if key in t.resolved then Ok(t)
    else if !Waits(t.inFlight, key) then Err(NotInFlight)
    else Ok(RememberResolved(t.(inFlight := t.inFlight - {key.id}), key))
  }

  function MarkUncertain(t: Tracker, key: Key): (Tracker, bool) {
    if key in t.resolved then (t, true)
    else if Waits(t.inFlight, key) then (RememberUncertain(t.(inFlight := t.inFlight - {key.id}), key), false)
    else (t, false)
  }

  function ResolveActive(t: Tracker, key: Key, now: nat): Result<Tracker, Refusal> {
    match Refused(t, key, now)
    case Some(refusal) => Err(refusal)
    case None => Ok(RememberResolved(t.(active := t.active - {key.id}), key))
  }

  function ForceResolve(t: Tracker, key: Key): Tracker {
    if Waits(t.active, key) then RememberResolved(t.(active := t.active - {key.id}), key) else t
  }

  function Expire(t: Tracker, key: Key, now: nat): (Tracker, bool) {
    if !Waits(t.active, key) || now < t.active[key.id].deadline then (t, false)
    else (RememberResolved(t.(active := t.active - {key.id}), key), true)
  }

  function Confirm(t: Tracker, key: Key): (Tracker, bool) {
    if key in t.resolved then (t, true)
    else if key in t.uncertain then
      (t.(uncertain := t.uncertain - {key}, resolved := t.resolved + {key}), true)
    else if Waits(t.inFlight, key) then
      (RememberResolved(t.(inFlight := t.inFlight - {key.id}), key), true)
    else (t, false)
  }

  function ClearActive(t: Tracker): Tracker {
    t.(active := map[], inFlight := map[])
  }

  // ----- the invariant

  ghost predicate Valid(t: Tracker) {
    && t.active.Keys !! t.inFlight.Keys
    && |t.active| + |t.inFlight| <= t.capacity
    && |t.order| <= t.capacity
    && Distinct(t.order)
    && t.resolved !! t.uncertain
    && Keys(t.order) == t.resolved + t.uncertain
    && (forall key :: Live(t, key) ==> !Remembers(t, key))
  }

  lemma RemoveOne<K, V>(m: map<K, V>, k: K)
    requires k in m
    ensures |m - {k}| == |m| - 1
  {
    assert (m - {k}).Keys == m.Keys - {k};
  }

  lemma InsertOne<K, V>(m: map<K, V>, k: K, v: V)
    requires k !in m
    ensures |m[k := v]| == |m| + 1
  {
    assert m[k := v].Keys == m.Keys + {k};
  }

  lemma EvictKeepsValid(t: Tracker)
    requires t.active.Keys !! t.inFlight.Keys
    requires |t.active| + |t.inFlight| <= t.capacity
    requires Distinct(t.order) && t.resolved !! t.uncertain
    requires Keys(t.order) == t.resolved + t.uncertain
    requires forall key :: Live(t, key) ==> !Remembers(t, key)
    ensures Valid(Evict(t))
  {
    if |t.order| > t.capacity {
      var cut, e := |t.order| - t.capacity, Evict(t);
      KeysOfTail(t.order, cut);
      assert forall key :: Live(e, key) == Live(t, key);
    }
  }

  lemma KeysOfTail(order: seq<Key>, cut: nat)
    requires Distinct(order) && cut <= |order|
    ensures Keys(order[cut..]) == Keys(order) - Keys(order[..cut])
  {
    assert order == order[..cut] + order[cut..];
  }

  /** Remembering a key that is no longer live, and was not remembered, keeps the invariant. */
  lemma RememberKeepsValid(t: Tracker, key: Key)
    requires Valid(t) && !Remembers(t, key)
    requires !Live(t, key)
    ensures Valid(RememberResolved(t, key)) && Valid(RememberUncertain(t, key))
  {
    var order := t.order + [key];
    assert Keys(order) == Keys(t.order) + {key} by {
      forall k | k in Keys(t.order) + {key} ensures k in order {
        if k != key {
          var i :| 0 <= i < |t.order| && t.order[i] == k;
          assert order[i] == k;
        } else {
          assert order[|t.order|] == key;
        }
      }
    }
    assert forall i :: 0 <= i < |t.order| ==> t.order[i] in Keys(t.order);
    var r := t.(resolved := t.resolved + {key}, order := order);
    var u := t.(uncertain := t.uncertain + {key}, order := order);
    assert forall k :: Live(r, k) == Live(t, k) && Live(u, k) == Live(t, k);
    EvictKeepsValid(r);
    EvictKeepsValid(u);
  }

  lemma DropActive(t: Tracker, key: Key)
    requires Valid(t) && Waits(t.active, key)
    ensures var d := t.(active := t.active - {key.id});
      Valid(d) && !Live(d, key) && !Remembers(d, key)
  {
    RemoveOne(t.active, key.id);
    var d := t.(active := t.active - {key.id});
    assert forall k :: Live(d, k) ==> Live(t, k);
    assert Live(t, key);
  }

  lemma DropInFlight(t: Tracker, key: Key)
    requires Valid(t) && Waits(t.inFlight, key)
    ensures var d := t.(inFlight := t.inFlight - {key.id});
      Valid(d) && !Live(d, key) && !Remembers(d, key)
  {
    RemoveOne(t.inFlight, key.id);
    var d := t.(inFlight := t.inFlight - {key.id});
    assert forall k :: Live(d, k) ==> Live(t, k);
    assert Live(t, key);
  }

  // ----- runs of operations

  datatype Op =
    | RegisterOp(key: Key, deadline: nat)
    | ClaimOp(key: Key, now: nat)
    | RestoreOp(key: Key)
    | ResolveInFlightOp(key: Key)
    | MarkUncertainOp(key: Key)
    | ResolveActiveOp(key: Key, now: nat)
    | ForceResolveOp(key: Key)
    | ExpireOp(key: Key, now: nat)
    | ConfirmOp(key: Key)
    | ClearOp

  function OrKeep(t: Tracker, r: Result<Tracker, Refusal>): Tracker {
    if r.Ok? then r.value else t
  }

  function Step(t: Tracker, op: Op): Tracker {
    match op
    case RegisterOp(key, deadline) => OrKeep(t, Register(t, key, deadline))
    case ClaimOp(key, now) => OrKeep(t, Claim(t, key, now))
    case RestoreOp(key) => Restore(t, key).0
    case ResolveInFlightOp(key) => OrKeep(t, ResolveInFlight(t, key))
    case MarkUncertainOp(key) => MarkUncertain(t, key).0
    case ResolveActiveOp(key, now) => OrKeep(t, ResolveActive(t, key, now))
    case ForceResolveOp(key) => ForceResolve(t, key)
    case ExpireOp(key, now) => Expire(t, key, now).0
    case ConfirmOp(key) => Confirm(t, key).0
    case ClearOp => ClearActive(t)
  }

  function Run(t: Tracker, ops: seq<Op>): Tracker {
    if ops == [] then t else Step(Run(t, ops[..|ops| - 1]), ops[|ops| - 1])
  }

  lemma MoveKeepsValid(t: Tracker, key: Key, now: nat)
    requires Valid(t)
    ensures Claim(t, key, now).Ok? ==> Valid(Claim(t, key, now).value)
    ensures Valid(Restore(t, key).0)
  {
    var c := Claim(t, key, now);
    if c.Ok? {
      RemoveOne(t.active, key.id);
      InsertOne(t.inFlight, key.id, t.active[key.id]);
      assert forall k :: Live(c.value, k) ==> Live(t, k);
    }
    var r := Restore(t, key).0;
    if Waits(t.inFlight, key) {
      RemoveOne(t.inFlight, key.id);
      InsertOne(t.active, key.id, t.inFlight[key.id]);
      assert forall k :: Live(r, k) ==> Live(t, k);
    }
  }

  lemma RegisterKeepsValid(t: Tracker, key: Key, deadline: nat)
    requires Valid(t) && Register(t, key, deadline).Ok?
    ensures Valid(Register(t, key, deadline).value)
  {
    var r := Register(t, key, deadline).value;
    InsertOne(t.active, key.id, Request(key.kind, deadline));
    assert forall k :: Live(r, k) ==> k == key || Live(t, k);
  }

  lemma ConfirmKeepsValid(t: Tracker, key: Key)
    requires Valid(t)
    ensures Valid(Confirm(t, key).0)
  {
    if key in t.resolved {
    } else if key in t.uncertain {
      var c := Confirm(t, key).0;
      assert forall k :: Live(c, k) == Live(t, k) && Remembers(c, k) == Remembers(t, k);
    } else if Waits(t.inFlight, key) {
      DropInFlight(t, key);
      RememberKeepsValid(t.(inFlight := t.inFlight - {key.id}), key);
    }
  }

  lemma StepKeepsCapacity(t: Tracker, op: Op)
    ensures Step(t, op).capacity == t.capacity
  {
  }

  lemma StepKeepsValid(t: Tracker, op: Op)
    requires Valid(t)
    ensures Valid(Step(t, op))
  {
    match op
    case RegisterOp(key, deadline) =>
      if Register(t, key, deadline).Ok? { RegisterKeepsValid(t, key, deadline); }
    case ClaimOp(key, now) => MoveKeepsValid(t, key, now);
    case RestoreOp(key) => MoveKeepsValid(t, key, 0);
    case ConfirmOp(key) => ConfirmKeepsValid(t, key);
    case ClearOp => ClearKeepsValid(t);
    case _ => SettlingKeepsValid(t, op);
  }

  lemma ClearKeepsValid(t: Tracker)
    requires Valid(t)
    ensures Valid(ClearActive(t))
  {
    assert forall k :: !Live(ClearActive(t), k);
  }

  /** The operations that take one request out and remember it, or do nothing. */
  lemma SettlingKeepsValid(t: Tracker, op: Op)
    requires Valid(t)
    requires op.ResolveInFlightOp? || op.MarkUncertainOp? || op.ResolveActiveOp? || op.ForceResolveOp? || op.ExpireOp?
    ensures Valid(Step(t, op))
  {
    SettleInFlightKeepsValid(t, op.key);
    SettleActiveKeepsValid(t, op.key);
    StepSettles(t, op);
  }

  lemma StepSettles(t: Tracker, op: Op)
    requires op.ResolveInFlightOp? || op.MarkUncertainOp? || op.ResolveActiveOp? || op.ForceResolveOp? || op.ExpireOp?
    ensures var t', d := Step(t, op), t.(inFlight := t.inFlight - {op.key.id});
      || t' == t
      || (Waits(t.active, op.key) && t' == RememberResolved(t.(active := t.active - {op.key.id}), op.key))
      || (Waits(t.inFlight, op.key) && (t' == RememberResolved(d, op.key) || t' == RememberUncertain(d, op.key)))
  {
  }

  lemma SettleActiveKeepsValid(t: Tracker, key: Key)
    requires Valid(t)
    ensures Waits(t.active, key) ==> Valid(RememberResolved(t.(active := t.active - {key.id}), key))
  {
    if Waits(t.active, key) {
      DropActive(t, key);
      RememberKeepsValid(t.(active := t.active - {key.id}), key);
    }
  }

  lemma SettleInFlightKeepsValid(t: Tracker, key: Key)
    requires Valid(t)
    ensures Waits(t.inFlight, key) ==>
      var d := t.(inFlight := t.inFlight - {key.id});
      Valid(RememberResolved(d, key)) && Valid(RememberUncertain(d, key))
  {
    if Waits(t.inFlight, key) {
      DropInFlight(t, key);
      RememberKeepsValid(t.(inFlight := t.inFlight - {key.id}), key);
    }
  }

  /** Every run of tracker operations keeps the tracker consistent. */
  lemma {:induction false} RunKeepsValid(t: Tracker, ops: seq<Op>)
    requires Valid(t)
    ensures Valid(Run(t, ops)) && Run(t, ops).capacity == t.capacity
  {
    if ops != [] {
      RunKeepsValid(t, ops[..|ops| - 1]);
      StepKeepsValid(Run(t, ops[..|ops| - 1]), ops[|ops| - 1]);
      StepKeepsCapacity(Run(t, ops[..|ops| - 1]), ops[|ops| - 1]);
    }
  }

  lemma EveryRunIsValid(capacity: nat, ops: seq<Op>)
    ensures Valid(Run(Empty(capacity), ops))
  {
    assert Keys([]) == {};
    RunKeepsValid(Empty(capacity), ops);
  }

  // ----- what one operation does to its own request, and leaves of the others

  predicate SameAt(m: map<string, Request>, n: map<string, Request>, id: string) {
    (id in m <==> id in n) && (id in m ==> m[id] == n[id])
  }

  lemma RememberingKeepsWaiting(t: Tracker, key: Key)
    ensures RememberResolved(t, key).active == t.active && RememberResolved(t, key).inFlight == t.inFlight
    ensures RememberUncertain(t, key).active == t.active && RememberUncertain(t, key).inFlight == t.inFlight
  {
  }

  predicate IsMove(op: Op) {
    op.RegisterOp? || op.ClaimOp? || op.RestoreOp?
  }

  lemma MovesSpareOthers(t: Tracker, op: Op, id: string)
    requires IsMove(op) && id != op.key.id
    ensures SameAt(Step(t, op).active, t.active, id) && SameAt(Step(t, op).inFlight, t.inFlight, id)
  {
    match op
    case RegisterOp(key, deadline) => RegisterSparesOthers(t, key, deadline, id);
    case ClaimOp(key, now) => ClaimSparesOthers(t, key, now, id);
    case RestoreOp(key) => RestoreSparesOthers(t, key, id);
  }

  lemma RegisterSparesOthers(t: Tracker, key: Key, deadline: nat, id: string)
    requires id != key.id
    ensures var t' := OrKeep(t, Register(t, key, deadline)); SameAt(t'.active, t.active, id) && t'.inFlight == t.inFlight
  {
  }

  lemma ClaimSparesOthers(t: Tracker, key: Key, now: nat, id: string)
    requires id != key.id
    ensures var t' := OrKeep(t, Claim(t, key, now)); SameAt(t'.active, t.active, id) && SameAt(t'.inFlight, t.inFlight, id)
  {
  }

  lemma RestoreSparesOthers(t: Tracker, key: Key, id: string)
    requires id != key.id
    ensures var t' := Restore(t, key).0; SameAt(t'.active, t.active, id) && SameAt(t'.inFlight, t.inFlight, id)
  {
  }

  /** Every operation that is no move leaves the tracker's waiting requests alone, or takes out its own. */
  lemma StepTakesOut(t: Tracker, op: Op)
    requires !IsMove(op) && !op.ClearOp?
    ensures var t', key := Step(t, op), op.key;
      var without, landed := t.(active := t.active - {key.id}), t.(inFlight := t.inFlight - {key.id});
      || (t'.active == t.active && t'.inFlight == t.inFlight)
      || (Waits(t.active, key) && t' == RememberResolved(without, key))
      || (Waits(t.inFlight, key) && (t' == RememberResolved(landed, key) || t' == RememberUncertain(landed, key)))
  {
    if !op.ConfirmOp? {
      StepSettles(t, op);
    }
  }

  /** Every operation but the final clearing leaves all requests with other ids as they were. */
  lemma StepSparesOthers(t: Tracker, op: Op, id: string)
    requires !op.ClearOp? && id != op.key.id
    ensures SameAt(Step(t, op).active, t.active, id) && SameAt(Step(t, op).inFlight, t.inFlight, id)
  {
    if IsMove(op) {
      MovesSpareOthers(t, op, id);
    } else {
      StepTakesOut(t, op);
      RememberingKeepsWaiting(t.(active := t.active - {op.key.id}), op.key);
      RememberingKeepsWaiting(t.(inFlight := t.inFlight - {op.key.id}), op.key);
    }
  }

  lemma NewestKeepsLast(s: seq<Key>, key: Key, n: nat)
    requires n >= 1
    ensures var kept := Newest(s + [key], n); kept != [] && kept[|kept| - 1] == key
  {
  }

  /** A request is never lost: what stops waiting has become the newest thing remembered. */
  lemma GoneIsRemembered(t: Tracker, op: Op, key: Key)
    requires Valid(t) && t.capacity >= 1 && !op.ClearOp? && Live(t, key) && !Live(Step(t, op), key)
    ensures op.key == key
    ensures var t' := Step(t, op); t'.order != [] && t'.order[|t'.order| - 1] == key && Remembers(t', key)
  {
    if op.key.id != key.id {
      StepSparesOthers(t, op, key.id);
    } else {
      SettledIsNewest(t, op, key);
      StepKeepsValid(t, op);
      MemoryIsOrder(Step(t, op), key);
    }
  }

  lemma StepLosesNothing(t: Tracker, op: Op, key: Key)
    requires Valid(t) && t.capacity >= 1 && !op.ClearOp? && Live(t, key)
    ensures Live(Step(t, op), key) || EndsIn(Step(t, op).order, key)
  {
    if !Live(Step(t, op), key) {
      GoneIsRemembered(t, op, key);
    }
  }

  lemma MovesLoseNothing(t: Tracker, op: Op, key: Key)
    requires Valid(t) && IsMove(op) && Live(t, key)
    ensures Live(Step(t, op), key)
  {
  }

  lemma SettledIsNewest(t: Tracker, op: Op, key: Key)
    requires Valid(t) && t.capacity >= 1 && !op.ClearOp? && Live(t, key) && !Live(Step(t, op), key) && op.key.id == key.id
    ensures op.key == key
    ensures var order := Step(t, op).order; order != [] && order[|order| - 1] == key
  {
    if IsMove(op) {
      MovesLoseNothing(t, op, key);
    } else {
      StepTakesOut(t, op);
      TakenOutIsNewest(t, op.key);
      assert op.key.kind == key.kind;
    }
  }

  lemma TakenOutIsNewest(t: Tracker, key: Key)
    requires Valid(t) && t.capacity >= 1
    ensures Waits(t.active, key) ==> EndsIn(RememberResolved(t.(active := t.active - {key.id}), key).order, key)
    ensures Waits(t.inFlight, key) ==>
      var d := t.(inFlight := t.inFlight - {key.id});
      EndsIn(RememberResolved(d, key).order, key) && EndsIn(RememberUncertain(d, key).order, key)
  {
    NewestKeepsLast(t.order, key, t.capacity);
    if Waits(t.active, key) {
      DropActive(t, key);
      RememberAppends(t.(active := t.active - {key.id}), key);
    }
    if Waits(t.inFlight, key) {
      DropInFlight(t, key);
      RememberAppends(t.(inFlight := t.inFlight - {key.id}), key);
    }
  }

  predicate EndsIn(order: seq<Key>, key: Key) {
    order != [] && order[|order| - 1] == key
  }

  /** A claim succeeds exactly for a waiting request before its deadline, and moves it unchanged. */
  lemma ClaimMoves(t: Tracker, key: Key, now: nat)
    requires Valid(t)
    ensures Claim(t, key, now).Ok? <==> Waits(t.active, key) && now < t.active[key.id].deadline
    ensures Claim(t, key, now).Ok? ==>
      var t' := Claim(t, key, now).value;
      && key.id !in t'.active && key.id in t'.inFlight && t'.inFlight[key.id] == t.active[key.id]
      && t'.order == t.order && t'.resolved == t.resolved && t'.uncertain == t.uncertain
  {
  }

  /** Giving a claimed request back undoes the claim. */
  lemma RestoreUndoesClaim(t: Tracker, key: Key, now: nat)
    requires Valid(t) && Claim(t, key, now).Ok?
    ensures Restore(Claim(t, key, now).value, key) == (t, true)
  {
    var c := Claim(t, key, now).value;
    assert c.inFlight - {key.id} == t.inFlight;
    assert c.active[key.id := c.inFlight[key.id]] == t.active;
  }

  lemma RestoreExactly(t: Tracker, key: Key)
    requires Valid(t)
    ensures Restore(t, key).1 <==> Waits(t.inFlight, key)
    ensures Restore(t, key).1 ==>
      var t' := Restore(t, key).0;
      key.id !in t'.inFlight && key.id in t'.active && t'.active[key.id] == t.inFlight[key.id]
  {
  }

  /** The request is settled: it waits no more, and the tracker remembers it as resolved or as uncertain. */
  ghost predicate Settled(t: Tracker, key: Key, resolved: bool) {
    !Live(t, key) && (resolved ==> key in t.resolved) && (!resolved ==> key in t.uncertain)
  }

  lemma RememberedKeyIsKept(t: Tracker, key: Key)
    requires Valid(t) && t.capacity >= 1 && !Live(t, key) && !Remembers(t, key)
    ensures Settled(RememberResolved(t, key), key, true) && Settled(RememberUncertain(t, key), key, false)
  {
    var order := t.order + [key];
    assert forall k :: k in t.order ==> k in Keys(t.order);
    assert |order| > t.capacity ==> key !in order[..|order| - t.capacity];
  }

  /** When each settling operation succeeds, and that the request is then settled. */
  lemma SettlingExactly(t: Tracker, key: Key, now: nat)
    requires Valid(t) && t.capacity >= 1
    ensures var r := ResolveInFlight(t, key);
      && (r.Ok? <==> key in t.resolved || Waits(t.inFlight, key))
      && (r.Ok? && Waits(t.inFlight, key) ==> Settled(r.value, key, true))
    ensures var r := ResolveActive(t, key, now);
      && (r.Ok? <==> Waits(t.active, key) && now < t.active[key.id].deadline)
      && (r.Ok? ==> Settled(r.value, key, true))
    ensures var (t', expired) := Expire(t, key, now);
      && (expired <==> Waits(t.active, key) && t.active[key.id].deadline <= now)
      && (expired ==> Settled(t', key, true)) && (!expired ==> t' == t)
    ensures Waits(t.active, key) ==> Settled(ForceResolve(t, key), key, true)
  {
    SettledWhenDropped(t, key);
  }

  lemma DoubtAndConfirmationExactly(t: Tracker, key: Key)
    requires Valid(t) && t.capacity >= 1
    ensures var (t', confirmed) := MarkUncertain(t, key);
      && (confirmed <==> key in t.resolved) && (Waits(t.inFlight, key) ==> Settled(t', key, false))
    ensures var (t', confirmed) := Confirm(t, key);
      && (confirmed <==> Remembers(t, key) || Waits(t.inFlight, key))
      && (confirmed ==> Settled(t', key, true)) && (!confirmed ==> t' == t)
  {
    SettledWhenDropped(t, key);
    assert Remembers(t, key) ==> !Live(t, key);
  }

  lemma SettledWhenDropped(t: Tracker, key: Key)
    requires Valid(t) && t.capacity >= 1
    ensures Waits(t.active, key) ==>
      !Remembers(t, key) && Settled(RememberResolved(t.(active := t.active - {key.id}), key), key, true)
    ensures Waits(t.inFlight, key) ==>
      var d := t.(inFlight := t.inFlight - {key.id});
      !Remembers(t, key) && Settled(RememberResolved(d, key), key, true) && Settled(RememberUncertain(d, key), key, false)
  {
    if Waits(t.active, key) {
      DropActive(t, key);
      RememberedKeyIsKept(t.(active := t.active - {key.id}), key);
    }
    if Waits(t.inFlight, key) {
      DropInFlight(t, key);
      RememberedKeyIsKept(t.(inFlight := t.inFlight - {key.id}), key);
    }
  }

  // ----- how long a key is remembered

  /** The key that one step newly remembers, if any. */
  function Newly(before: Tracker, after: Tracker): seq<Key> {
    if after.order == before.order || after.order == [] then [] else [after.order[|after.order| - 1]]
  }

  /** The keys newly remembered along a run, oldest first. */
  function History(t: Tracker, ops: seq<Op>): seq<Key> {
    if ops == [] then []
    else
      var prefix := ops[..|ops| - 1];
      History(t, prefix) + Newly(Run(t, prefix), Run(t, ops))
  }

  lemma RememberAppends(t: Tracker, key: Key)
    requires Valid(t) && !Remembers(t, key)
    ensures RememberResolved(t, key).order == Newest(t.order + [key], t.capacity)
    ensures RememberUncertain(t, key).order == Newest(t.order + [key], t.capacity)
  {
  }

  ghost predicate Appends(t: Tracker, after: Tracker) {
    && after.order == Newest(t.order + Newly(t, after), t.capacity)
    && (forall k :: k in Newly(t, after) ==> !Remembers(t, k))
  }

  lemma AppendsKey(t: Tracker, after: Tracker, key: Key)
    requires Valid(t) && t.capacity >= 1 && !Remembers(t, key)
    requires after.order == Newest(t.order + [key], t.capacity)
    ensures Appends(t, after)
  {
    assert after.order[|after.order| - 1] == key;
    assert key !in t.order by {
      assert key !in Keys(t.order);
    }
  }

  lemma AppendsNothing(t: Tracker, after: Tracker)
    requires Valid(t) && after.order == t.order
    ensures Appends(t, after)
  {
    assert t.order + [] == t.order;
  }

  /** A step either leaves the memory's order alone or appends one key it did not remember. */
  lemma StepAppends(t: Tracker, op: Op)
    requires Valid(t) && t.capacity >= 1
    ensures Appends(t, Step(t, op))
  {
    var after := Step(t, op);
    if after.order == t.order {
      AppendsNothing(t, after);
    } else {
      SettleAppends(t, op.key);
    }
  }

  lemma SettleAppends(t: Tracker, key: Key)
    requires Valid(t) && t.capacity >= 1
    ensures Waits(t.active, key) ==> Appends(t, RememberResolved(t.(active := t.active - {key.id}), key))
    ensures Waits(t.inFlight, key) ==>
      var d := t.(inFlight := t.inFlight - {key.id});
      Appends(t, RememberResolved(d, key)) && Appends(t, RememberUncertain(d, key))
  {
    if Waits(t.active, key) {
      DropActive(t, key);
      var d := t.(active := t.active - {key.id});
      RememberAppends(d, key);
      AppendsKey(t, RememberResolved(d, key), key);
    }
    if Waits(t.inFlight, key) {
      DropInFlight(t, key);
      var d := t.(inFlight := t.inFlight - {key.id});
      RememberAppends(d, key);
      AppendsKey(t, RememberResolved(d, key), key);
      AppendsKey(t, RememberUncertain(d, key), key);
    }
  }

  lemma {:induction false} RunAppends(t: Tracker, ops: seq<Op>)
    requires Valid(t) && t.capacity >= 1
    ensures Run(t, ops).order == Newest(t.order + History(t, ops), t.capacity)
  {
    if ops == [] {
      assert t.order + [] == t.order;
    } else {
      var prefix := ops[..|ops| - 1];
      RunAppends(t, prefix);
      RunKeepsValid(t, prefix);
      StepAppends(Run(t, prefix), ops[|ops| - 1]);
      var added := Newly(Run(t, prefix), Run(t, ops));
      NewestOfAppend(t.order + History(t, prefix), added, t.capacity);
      assert t.order + History(t, ops) == (t.order + History(t, prefix)) + added;
    }
  }

  /**
   A key just remembered stays remembered, and so blocks its own registration, while
   fewer than `capacity` further keys are remembered; it is forgotten with the one that
   makes `capacity`.
   */
  lemma {:induction false} RememberedExactlyCapacity(t: Tracker, ops: seq<Op>, key: Key)
    requires Valid(t) && t.capacity >= 1
    requires t.order != [] && t.order[|t.order| - 1] == key
    ensures |History(t, ops)| < t.capacity ==> Remembers(Run(t, ops), key)
    ensures |History(t, ops)| == t.capacity ==> !Remembers(Run(t, ops), key)
    ensures |History(t, ops)| <= t.capacity ==> key !in History(t, ops)
  {
    var after, history := Run(t, ops), History(t, ops);
    RunAppends(t, ops);
    RunKeepsValid(t, ops);
    MemoryIsOrder(after, key);
    if |history| <= t.capacity && ops != [] {
      var prefix := ops[..|ops| - 1];
      RememberedExactlyCapacity(t, prefix, key);
      RunKeepsValid(t, prefix);
      StepAppends(Run(t, prefix), ops[|ops| - 1]);
    }
    assert (t.order + history)[|t.order| - 1] == key;
    if |history| <= t.capacity {
      NewestHolds(t.order, history, t.capacity);
    }
  }

  lemma MemoryIsOrder(t: Tracker, key: Key)
    requires Valid(t)
    ensures Remembers(t, key) <==> key in t.order
  {
    assert key in Keys(t.order) <==> key in t.order;
  }

  lemma NewestHolds<T>(s: seq<T>, t: seq<T>, n: nat)
    requires s != [] && |t| <= n
    ensures |t| < n ==> s[|s| - 1] in Newest(s + t, n)
    ensures |t| == n ==> Newest(s + t, n) == t
  {
    var all, kept := s + t, Newest(s + t, n);
    assert |t| < n ==> kept[|s| - 1 - (|all| - |kept|)] == s[|s| - 1];
  }

  /** What the memory means to a caller: registration succeeds exactly when nothing blocks the key. */
  lemma RegistrationBlocked(t: Tracker, key: Key, deadline: nat)
    requires Valid(t)
    ensures Register(t, key, deadline).Ok? <==>
      && |t.active.Keys + t.inFlight.Keys| < t.capacity
      && key.id !in t.active.Keys + t.inFlight.Keys
      && key !in t.order
  {
    assert |t.active.Keys + t.inFlight.Keys| == |t.active| + |t.inFlight|;
    assert key in Keys(t.order) <==> key in t.order;
  }

  /** Why a request is refused: a full tracker first, then an id or a key that is taken. */
  lemma RefusalsAreExact(t: Tracker, key: Key, deadline: nat, now: nat)
    ensures Register(t, key, deadline) == Err(TooMany) <==> |t.active| + |t.inFlight| >= t.capacity
    ensures Register(t, key, deadline).Err? && |t.active| + |t.inFlight| < t.capacity ==>
      Register(t, key, deadline) == Err(NotUnique)
    ensures Claim(t, key, now) == Err(Unknown) <==> key.id !in t.active
    ensures Claim(t, key, now) == Err(ExpiredOrWrongType) <==>
      key.id in t.active && (t.active[key.id].kind != key.kind || t.active[key.id].deadline <= now)
  {
  }

  // ----- the tracker as the code updates it

  class PendingTracker {
    var active: map<string, Request>
    var inFlight: map<string, Request>
    var order: seq<Key>
    var resolved: set<Key>
    var uncertain: set<Key>
    const capacity: nat

    function View(): Tracker
      reads this
    {
      Tracker(active, inFlight, order, resolved, uncertain, capacity)
    }

    constructor (capacity: nat)
      ensures View() == Empty(capacity)
    {
      this.capacity := capacity;
      active, inFlight, order, resolved, uncertain := map[], map[], [], {}, {};
    }

    method EvictOldest()
      modifies this
      ensures View() == Evict(old(View()))
    {
      ghost var start := View();
      ghost var cut := 0;
      assert Keys(start.order[..0]) == {};
      while |order| > capacity
        invariant cut <= |start.order|
        invariant active == start.active && inFlight == start.inFlight
        invariant order == start.order[cut..]
        invariant cut == 0 || |order| >= capacity
        invariant resolved == start.resolved - Keys(start.order[..cut])
        invariant uncertain == start.uncertain - Keys(start.order[..cut])
      {
        var expired := order[0];
        order := order[1..];
        resolved := resolved - {expired};
        uncertain := uncertain - {expired};
        assert start.order[..cut + 1] == start.order[..cut] + [expired];
        assert Keys(start.order[..cut + 1]) == Keys(start.order[..cut]) + {expired};
        cut := cut + 1;
      }
    }

    method DoRememberResolved(key: Key)
      modifies this
      ensures View() == RememberResolved(old(View()), key)
    {
      if key !in resolved {
        resolved := resolved + {key};
        order := order + [key];
      }
      EvictOldest();
    }

    method DoRememberUncertain(key: Key)
      modifies this
      ensures View() == RememberUncertain(old(View()), key)
    {
      if key !in uncertain {
        uncertain := uncertain + {key};
        order := order + [key];
      }
      EvictOldest();
    }

    method DoRegister(key: Key, deadline: nat) returns (refusal: Option<Refusal>)
      modifies this
      ensures match Register(old(View()), key, deadline)
        case Ok(after) => refusal.None? && View() == after
        case Err(why) => refusal == Some(why) && View() == old(View())
    {
      if |active| + |inFlight| >= capacity {
        return Some(TooMany);
      }
      if key.id in active || key.id in inFlight || key in resolved || key in uncertain {
        return Some(NotUnique);
      }
      active := active[key.id := Request(key.kind, deadline)];
      return None;
    }

    method DoClaim(key: Key, now: nat) returns (refusal: Option<Refusal>)
      modifies this
      ensures match Claim(old(View()), key, now)
        case Ok(after) => refusal.None? && View() == after
        case Err(why) => refusal == Some(why) && View() == old(View())
    {
      if key.id !in active {
        return Some(Unknown);
      }
      var pending := active[key.id];
      if pending.kind != key.kind || pending.deadline <= now {
        return Some(ExpiredOrWrongType);
      }
      active := active - {key.id};
      inFlight := inFlight[key.id := pending];
      return None;
    }

    method DoRestore(key: Key) returns (restored: bool)
      modifies this
      ensures (View(), restored) == Restore(old(View()), key)
    {
      if !Waits(inFlight, key) {
        return false;
      }
      var pending := inFlight[key.id];
      inFlight := inFlight - {key.id};
      active := active[key.id := pending];
      return true;
    }

    method DoResolveInFlight(key: Key) returns (refusal: Option<Refusal>)
      modifies this
      ensures match ResolveInFlight(old(View()), key)
        case Ok(after) => refusal.None? && View() == after
        case Err(why) => refusal == Some(why) && View() == old(View())
    {
      if key in resolved {
        return None;
      }
      if !Waits(inFlight, key) {
        return Some(NotInFlight);
      }
      inFlight := inFlight - {key.id};
      DoRememberResolved(key);
      return None;
    }

    method DoMarkUncertain(key: Key) returns (confirmed: bool)
      modifies this
      ensures (View(), confirmed) == MarkUncertain(old(View()), key)
    {
      if key in resolved {
        return true;
      }
      if Waits(inFlight, key) {
        inFlight := inFlight - {key.id};
        DoRememberUncertain(key);
      }
      return false;
    }

    method DoResolveActive(key: Key, now: nat) returns (refusal: Option<Refusal>)
      modifies this
      ensures match ResolveActive(old(View()), key, now)
        case Ok(after) => refusal.None? && View() == after
        case Err(why) => refusal == Some(why) && View() == old(View())
    {
      if key.id !in active {
        return Some(Unknown);
      }
      if active[key.id].kind != key.kind || active[key.id].deadline <= now {
        return Some(ExpiredOrWrongType);
      }
      active := active - {key.id};
      DoRememberResolved(key);
      return None;
    }

    method DoForceResolve(key: Key)
      modifies this
      ensures View() == ForceResolve(old(View()), key)
    {
      if Waits(active, key) {
        active := active - {key.id};
        DoRememberResolved(key);
      }
    }

    method DoExpire(key: Key, now: nat) returns (expired: bool)
      modifies this
      ensures (View(), expired) == Expire(old(View()), key, now)
    {
      if !Waits(active, key) || now < active[key.id].deadline {
        return false;
      }
      active := active - {key.id};
      DoRememberResolved(key);
      return true;
    }

    method DoConfirm(key: Key) returns (confirmed: bool)
      modifies this
      ensures (View(), confirmed) == Confirm(old(View()), key)
    {
      if key in resolved {
        return true;
      }
      if key in uncertain {
        uncertain := uncertain - {key};
        resolved := resolved + {key};
        return true;
      }
      if Waits(inFlight, key) {
        inFlight := inFlight - {key.id};
        DoRememberResolved(key);
        return true;
      }
      return false;
    }

    method DoClearActive()
      modifies this
      ensures View() == ClearActive(old(View()))
    {
      active, inFlight := map[], map[];
    }
  }
}
