/** Carrying out a retention plan in bounded transactions. */
module RetentionBatches {
  import opened Prelude
  import opened Retention

  const MAX_RETENTION_BATCH: nat := 256

  /** Segment metadata is keyed by table and id. */
  datatype Key = Key(category: Category, id: string)

  function KeyOf(r: Record): Key {
    Key(r.category, r.id)
  }

  datatype Batch = Batch(rowsDeleted: nat, released: seq<string>, remaining: nat)

  datatype BatchError = ZeroBatchSize | TransactionFailed

  function KeysOf(s: seq<Record>): set<Key> {
    set i | 0 <= i < |s| :: KeyOf(s[i])
  }

  /** The paths of the candidates that the store still had. */
  function Released(rows: set<Key>, batch: seq<Record>): seq<string> {
    if batch == [] then []
    else
      var last := batch[|batch| - 1];
      Released(rows, batch[..|batch| - 1]) + if KeyOf(last) in rows then [last.path] else []
  }

  /** The references of normalized events after the raw segments of a batch are gone. */
  function Unreferenced(rows: set<Key>, events: map<nat, Option<string>>, batch: seq<Record>): map<nat, Option<string>> {
    map e | e in events ::
      if events[e].Some? && Dropped(rows, batch, events[e].value) then None else events[e]
  }

  predicate Dropped(rows: set<Key>, batch: seq<Record>, path: string) {
    exists i :: 0 <= i < |batch| && batch[i].category == RawProtocol && KeyOf(batch[i]) in rows && batch[i].path == path
  }

  /** The segment tables and the raw references of the events. */
  class Store {
    var rows: set<Key>
    var events: map<nat, Option<string>>

    constructor (rows: set<Key>, events: map<nat, Option<string>>)
      ensures this.rows == rows && this.events == events
    {
      this.rows, this.events := rows, events;
    }
  }

  class RetentionPlan {
    var candidates: seq<Record>

    constructor (candidates: seq<Record>)
      ensures this.candidates == candidates
    {
      this.candidates := candidates;
    }

    /** One transaction; `commits` says whether the database lets it through. */
    method ExecuteBatch(store: Store, requestedLimit: nat, commits: bool) returns (r: Result<Batch, BatchError>)
      requires DistinctKeys(candidates)
      modifies this, store
      ensures requestedLimit == 0 ==> r == Err(ZeroBatchSize)
      ensures requestedLimit > 0 && (commits || candidates == []) ==> r.Ok?
      ensures State(store.rows, store.events, candidates)
           == Execute(State(old(store.rows), old(store.events), old(candidates)), Attempt(requestedLimit, r.Ok?))
      ensures r.Ok? ==>
        var released := Released(old(store.rows), old(candidates)[..BatchSize(requestedLimit, old(candidates))]);
        r.value == Batch(|released|, released, |candidates|)
    {
      if requestedLimit == 0 {
        return Err(ZeroBatchSize);
      }
      var size := Min(Min(requestedLimit, MAX_RETENTION_BATCH), |candidates|);
      if size == 0 {
        assert store.events == Unreferenced(store.rows, store.events, []);
        return Ok(Batch(0, [], 0));
      }
      var batch := candidates[..size];
      var rows, events, deleted, released := store.rows, store.events, 0, [];
      for i := 0 to |batch|
        invariant candidates == old(candidates) && store.rows == old(store.rows) && store.events == old(store.events)
        invariant rows == store.rows - KeysOf(batch[..i])
        invariant released == Released(store.rows, batch[..i]) && deleted == |released|
        invariant events == Unreferenced(store.rows, store.events, batch[..i])
      {
        rows, events, deleted, released := Delete(store.rows, store.events, batch, i, rows, events, deleted, released);
      }
      assert batch[..|batch|] == batch;
      if !commits {
        return Err(TransactionFailed);
      }
      store.rows, store.events := rows, events;
      candidates := candidates[size..];
      return Ok(Batch(deleted, released, |candidates|));
    }
  }

  /** What the file system says of a released path. */
  datatype FileAnswer = Removable | Missing | Refused

  /** The segment files. */
  class Files {
    var present: set<string>

    constructor (present: set<string>)
      ensures this.present == present
    {
      this.present := present;
    }

    /** Removes the files at these paths one by one; a missing one is passed over, a refused one ends it. */
    method RemoveReleased(paths: seq<string>, answer: string -> FileAnswer) returns (ok: bool)
      modifies this
      ensures ok <==> forall i :: 0 <= i < |paths| ==> answer(paths[i]) != Refused
      ensures ok ==> present == old(present) - set i | 0 <= i < |paths| && answer(paths[i]).Removable? :: paths[i]
      ensures old(present) - present <= set i | 0 <= i < |paths| :: paths[i]
      ensures present <= old(present)
    {
      for i := 0 to |paths|
        invariant forall j :: 0 <= j < i ==> answer(paths[j]) != Refused
        invariant present == old(present) - set j | 0 <= j < i && answer(paths[j]).Removable? :: paths[j]
      {
        match answer(paths[i]) {
          case Refused => return false;
          case Missing =>
          case Removable => present := present - {paths[i]};
        }
      }
      return true;
    }
  }

  function PathSet(paths: seq<string>): set<string> {
    set i | 0 <= i < |paths| :: paths[i]
  }

  lemma PathSetAppend(a: seq<string>, b: seq<string>)
    ensures PathSet(a + b) == PathSet(a) + PathSet(b)
  {
    forall i | 0 <= i < |a| ensures a[i] in PathSet(a + b) {
      assert (a + b)[i] == a[i];
    }
    forall i | 0 <= i < |b| ensures b[i] in PathSet(a + b) {
      assert (a + b)[|a| + i] == b[i];
    }
  }

  /** One batch of the largest size, and the removal of the files it released. */
  method MaintenanceTurn(plan: RetentionPlan, store: Store, files: Files, commits: bool, answer: string -> FileAnswer)
    returns (ok: bool, ghost released: seq<string>)
    requires DistinctKeys(plan.candidates) && plan.candidates != []
    modifies plan, store, files
    ensures DistinctKeys(plan.candidates)
    ensures var before := State(old(store.rows), old(store.events), old(plan.candidates));
      var after := State(store.rows, store.events, plan.candidates);
      CarriedOut(before, after) && released == ReleasedBetween(before, after)
    ensures ok ==> |plan.candidates| < |old(plan.candidates)|
    ensures files.present <= old(files.present) && old(files.present) - files.present <= PathSet(released)
    ensures ok ==> forall path :: path in PathSet(released) && path in files.present ==> answer(path) == Missing
    ensures commits && (forall path :: answer(path) != Refused) ==> ok
  {
    ghost var before := State(store.rows, store.events, plan.candidates);
    var r := plan.ExecuteBatch(store, MAX_RETENTION_BATCH, commits);
    ExecuteCarriesOut(before, Attempt(MAX_RETENTION_BATCH, r.Ok?));
    ExecuteReleases(before, Attempt(MAX_RETENTION_BATCH, r.Ok?));
    ok, released := false, [];
    if r.Ok? {
      released := r.value.released;
      ok := files.RemoveReleased(r.value.released, answer);
    }
  }

  lemma ExecuteReleases(s: State, attempt: Attempt)
    ensures ReleasedBetween(s, Execute(s, attempt)) ==
      if attempt.commits then Released(s.rows, s.candidates[..BatchSize(attempt.limit, s.candidates)]) else []
  {
  }

  /** The files of a maintenance run: gone are only released ones, and all of those that could be removed. */
  ghost predicate FilesFollow(
    start: State, now: State, files0: set<string>, files: set<string>, answer: string -> FileAnswer, all: bool)
  {
    var released := PathSet(ReleasedBetween(start, now));
    && files <= files0 && files0 - files <= released
    && (all ==> forall path :: path in released && path in files ==> answer(path) == Missing)
  }

  /** The maintenance loop: batches until the plan is empty, or a transaction or the removal of a file fails. */
  method RunMaintenance(
    plan: RetentionPlan, store: Store, files: Files, commits: nat -> bool, answer: string -> FileAnswer) returns (ok: bool)
    requires DistinctKeys(plan.candidates)
    modifies plan, store, files
    ensures var start := State(old(store.rows), old(store.events), old(plan.candidates));
      var end := State(store.rows, store.events, plan.candidates);
      && CarriedOut(start, end)
      && FilesFollow(start, end, old(files.present), files.present, answer, ok)
    ensures ok ==>
      && plan.candidates == [] && store.rows == old(store.rows) - KeysOf(old(plan.candidates))
      && store.events == Unreferenced(old(store.rows), old(store.events), old(plan.candidates))
    ensures (forall i :: commits(i)) && (forall path :: answer(path) != Refused) ==> ok
  {
    ghost var start := State(store.rows, store.events, plan.candidates);
    ghost var files0 := files.present;
    ExecuteCarriesOut(start, Attempt(0, false));
    var turn := 0;
    while plan.candidates != []
      invariant DistinctKeys(plan.candidates)
      invariant CarriedOut(start, State(store.rows, store.events, plan.candidates))
      invariant FilesFollow(start, State(store.rows, store.events, plan.candidates), files0, files.present, answer, true)
      decreases |plan.candidates|
    {
      ghost var before := State(store.rows, store.events, plan.candidates);
      ghost var files1 := files.present;
      var done, released := MaintenanceTurn(plan, store, files, commits(turn), answer);
      ghost var after := State(store.rows, store.events, plan.candidates);
      CarriedOutChains(start, before, after);
      ReleasedChains(start, before, after);
      PathSetAppend(ReleasedBetween(start, before), released);
      if !done {
        return false;
      }
      turn := turn + 1;
    }
    assert start.candidates[..|start.candidates|] == start.candidates;
    return true;
  }

  /** The statements for one candidate, inside the transaction. */
  method Delete(
    ghost rows0: set<Key>, ghost events0: map<nat, Option<string>>, batch: seq<Record>, i: nat,
    rows: set<Key>, events: map<nat, Option<string>>, deleted: nat, released: seq<string>)
    returns (rows': set<Key>, events': map<nat, Option<string>>, deleted': nat, released': seq<string>)
    requires i < |batch| && DistinctKeys(batch)
    requires rows == rows0 - KeysOf(batch[..i]) && events == Unreferenced(rows0, events0, batch[..i])
    requires released == Released(rows0, batch[..i]) && deleted == |released|
    ensures rows' == rows0 - KeysOf(batch[..i + 1]) && events' == Unreferenced(rows0, events0, batch[..i + 1])
    ensures released' == Released(rows0, batch[..i + 1]) && deleted' == |released'|
  {
    var candidate := batch[i];
    var key := KeyOf(candidate);
    TakeNext(batch, i);
    KeyIsNew(batch, i);
    rows', events', deleted', released' := rows - {key}, events, deleted, released;
    if key in rows {
      if candidate.category == RawProtocol {
        events' := Forget(events, candidate.path);
      }
      deleted', released' := deleted + 1, released + [candidate.path];
    }
    UnreferencedNext(rows0, events0, batch, i);
  }

  function Forget(events: map<nat, Option<string>>, path: string): map<nat, Option<string>> {
    map e | e in events :: if events[e] == Some(path) then None else events[e]
  }

  lemma UnreferencedNext(rows: set<Key>, events: map<nat, Option<string>>, batch: seq<Record>, i: nat)
    requires i < |batch|
    ensures var before := Unreferenced(rows, events, batch[..i]);
      Unreferenced(rows, events, batch[..i + 1]) ==
        if batch[i].category == RawProtocol && KeyOf(batch[i]) in rows then Forget(before, batch[i].path) else before
  {
    forall e | e in events && events[e].Some?
      ensures Dropped(rows, batch[..i + 1], events[e].value) <==>
        Dropped(rows, batch[..i], events[e].value)
        || (batch[i].category == RawProtocol && KeyOf(batch[i]) in rows && batch[i].path == events[e].value)
    {
      DroppedNext(rows, batch, i, events[e].value);
    }
  }

  lemma KeyIsNew(batch: seq<Record>, i: nat)
    requires i < |batch| && DistinctKeys(batch)
    ensures KeyOf(batch[i]) !in KeysOf(batch[..i])
    ensures KeysOf(batch[..i + 1]) == KeysOf(batch[..i]) + {KeyOf(batch[i])}
  {
    forall j | 0 <= j < i ensures KeyOf(batch[j]) != KeyOf(batch[i]) {
      assert !SameKey(batch[j], batch[i]);
    }
    TakeNext(batch, i);
  }

  lemma DroppedNext(rows: set<Key>, batch: seq<Record>, i: nat, path: string)
    requires i < |batch|
    ensures Dropped(rows, batch[..i + 1], path) <==>
      Dropped(rows, batch[..i], path)
      || (batch[i].category == RawProtocol && KeyOf(batch[i]) in rows && batch[i].path == path)
  {
    var longer := batch[..i + 1];
    TakeNext(batch, i);
    if Dropped(rows, batch[..i], path) {
      var j :| 0 <= j < i && batch[..i][j].category == RawProtocol && KeyOf(batch[..i][j]) in rows && batch[..i][j].path == path;
      assert longer[j] == batch[..i][j];
    }
    assert longer[i] == batch[i];
  }

  // ----- batch after batch

  datatype State = State(rows: set<Key>, events: map<nat, Option<string>>, candidates: seq<Record>)

  datatype Attempt = Attempt(limit: nat, commits: bool)

  function BatchSize(limit: nat, candidates: seq<Record>): (n: nat)
    ensures n <= |candidates| && n <= MAX_RETENTION_BATCH && n <= limit
    ensures n == |candidates| || n == MAX_RETENTION_BATCH || n == limit
  {
    Min(Min(limit, MAX_RETENTION_BATCH), |candidates|)
  }

  function Execute(s: State, attempt: Attempt): State {
    if !attempt.commits then s
    else
      var batch := s.candidates[..BatchSize(attempt.limit, s.candidates)];
      State(s.rows - KeysOf(batch), Unreferenced(s.rows, s.events, batch), s.candidates[|batch|..])
  }

  function ExecuteAll(s: State, attempts: seq<Attempt>): State
    decreases |attempts|
  {
    if attempts == [] then s else ExecuteAll(Execute(s, attempts[0]), attempts[1..])
  }

  lemma KeysSplit(s: seq<Record>, n: nat)
    requires n <= |s|
    ensures KeysOf(s) == KeysOf(s[..n]) + KeysOf(s[n..])
  {
    forall i | 0 <= i < |s| ensures KeyOf(s[i]) in KeysOf(s[..n]) + KeysOf(s[n..]) {
      if i < n {
        assert s[..n][i] == s[i];
      } else {
        assert s[n..][i - n] == s[i];
      }
    }
  }

  /** From `s` to `t`, a prefix of the plan was carried out and nothing else happened. */
  ghost predicate CarriedOut(s: State, t: State) {
    && |t.candidates| <= |s.candidates|
    && var n := |s.candidates| - |t.candidates|;
    && t.candidates == s.candidates[n..]
    && t.rows == s.rows - KeysOf(s.candidates[..n])
    && t.events == Unreferenced(s.rows, s.events, s.candidates[..n])
  }

  /** The paths released between two such states. */
  ghost function ReleasedBetween(s: State, t: State): seq<string> {
    if |t.candidates| <= |s.candidates| then Released(s.rows, s.candidates[..|s.candidates| - |t.candidates|]) else []
  }

  /** What was carried out between two such states. */
  ghost function Gone(s: State, t: State): seq<Record> {
    if |t.candidates| <= |s.candidates| then s.candidates[..|s.candidates| - |t.candidates|] else []
  }

  /** An event loses its reference exactly when a raw segment at that path went; it never gets another one. */
  lemma ReferencesFollow(s: State, t: State, e: nat)
    requires CarriedOut(s, t) && e in s.events
    ensures e in t.events && (t.events[e] == s.events[e] || t.events[e].None?)
    ensures s.events[e].Some? ==>
      (t.events[e].None? <==>
       exists r :: r in Gone(s, t) && r.category == RawProtocol && KeyOf(r) in s.rows && r.path == s.events[e].value)
  {
    if s.events[e].Some? {
      DroppedMembers(s.rows, Gone(s, t), s.events[e].value);
    }
  }

  lemma DroppedMembers(rows: set<Key>, batch: seq<Record>, path: string)
    ensures Dropped(rows, batch, path) <==>
      exists r :: r in batch && r.category == RawProtocol && KeyOf(r) in rows && r.path == path
  {
    if Dropped(rows, batch, path) {
      var i :| 0 <= i < |batch| && batch[i].category == RawProtocol && KeyOf(batch[i]) in rows && batch[i].path == path;
      assert batch[i] in batch;
    }
  }

  lemma {:induction false} ReleasedMembers(rows: set<Key>, batch: seq<Record>, path: string)
    ensures path in Released(rows, batch) <==> exists r :: r in batch && KeyOf(r) in rows && r.path == path
  {
    if batch != [] {
      var init, last := batch[..|batch| - 1], batch[|batch| - 1];
      assert batch == init + [last];
      ReleasedMembers(rows, init, path);
    }
  }

  /** The paths released are those of the segments that went and that the store still had. */
  lemma ReleasedExactly(s: State, t: State, path: string)
    requires CarriedOut(s, t)
    ensures path in ReleasedBetween(s, t) <==> exists r :: r in Gone(s, t) && KeyOf(r) in s.rows && r.path == path
  {
    ReleasedMembers(s.rows, Gone(s, t), path);
  }

  lemma {:induction false} ReleasedCount(rows: set<Key>, batch: seq<Record>)
    requires DistinctKeys(batch)
    ensures |rows - KeysOf(batch)| + |Released(rows, batch)| == |rows|
  {
    if batch == [] {
      assert rows - KeysOf(batch) == rows;
    } else {
      var n := |batch| - 1;
      var key := KeyOf(batch[n]);
      ReleasedCount(rows, batch[..n]);
      KeyIsNew(batch, n);
      assert batch[..n + 1] == batch;
      assert rows - KeysOf(batch) == (rows - KeysOf(batch[..n])) - {key};
    }
  }

  /** As many paths are released as rows are deleted. */
  lemma OnePathPerRow(s: State, t: State)
    requires DistinctKeys(s.candidates) && CarriedOut(s, t)
    ensures |t.rows| + |ReleasedBetween(s, t)| == |s.rows|
  {
    ReleasedCount(s.rows, Gone(s, t));
  }

  lemma CarriedOutChains(s: State, t: State, u: State)
    requires DistinctKeys(s.candidates) && CarriedOut(s, t) && CarriedOut(t, u)
    ensures CarriedOut(s, u)
  {
    var n, m := |s.candidates| - |t.candidates|, |t.candidates| - |u.candidates|;
    assert u.candidates == s.candidates[n + m..];
    KeysJoin(s.candidates, n, m);
    SubtractTwice(s.rows, KeysOf(s.candidates[..n]), KeysOf(t.candidates[..m]));
    UnreferencedChains(s.rows, s.events, s.candidates, n, m);
  }

  lemma ReleasedChains(s: State, t: State, u: State)
    requires DistinctKeys(s.candidates) && CarriedOut(s, t) && CarriedOut(t, u)
    ensures ReleasedBetween(s, u) == ReleasedBetween(s, t) + ReleasedBetween(t, u)
  {
    ReleasedJoins(s.rows, s.candidates, |s.candidates| - |t.candidates|, |t.candidates| - |u.candidates|);
  }

  /** A later batch has none of the keys of an earlier one. */
  lemma LaterKeysDiffer(c: seq<Record>, n: nat, i: nat)
    requires DistinctKeys(c) && n <= i < |c|
    ensures KeyOf(c[i]) !in KeysOf(c[..n])
  {
    forall j | 0 <= j < n ensures KeyOf(c[j]) != KeyOf(c[i]) {
      assert !SameKey(c[j], c[i]);
    }
  }

  lemma DroppedChains(rows: set<Key>, c: seq<Record>, n: nat, m: nat, path: string)
    requires DistinctKeys(c) && n + m <= |c|
    ensures Dropped(rows, c[..n + m], path) <==>
      Dropped(rows, c[..n], path) || Dropped(rows - KeysOf(c[..n]), c[n..][..m], path)
    decreases m
  {
    if m == 0 {
      assert c[..n + m] == c[..n];
    } else {
      DroppedChains(rows, c, n, m - 1, path);
      LaterKeysDiffer(c, n, n + m - 1);
      assert c[n..][m - 1] == c[n + m - 1];
      DroppedNext(rows, c, n + m - 1, path);
      DroppedNext(rows - KeysOf(c[..n]), c[n..], m - 1, path);
    }
  }

  lemma UnreferencedChains(rows: set<Key>, events: map<nat, Option<string>>, c: seq<Record>, n: nat, m: nat)
    requires DistinctKeys(c) && n + m <= |c|
    ensures Unreferenced(rows - KeysOf(c[..n]), Unreferenced(rows, events, c[..n]), c[n..][..m])
         == Unreferenced(rows, events, c[..n + m])
  {
    forall e | e in events && events[e].Some?
      ensures Dropped(rows, c[..n + m], events[e].value) <==>
        Dropped(rows, c[..n], events[e].value) || Dropped(rows - KeysOf(c[..n]), c[n..][..m], events[e].value)
    {
      DroppedChains(rows, c, n, m, events[e].value);
    }
  }

  lemma {:induction false} ReleasedLast(rows: set<Key>, batch: seq<Record>, i: nat)
    requires i < |batch|
    ensures Released(rows, batch[..i + 1]) == Released(rows, batch[..i]) + if KeyOf(batch[i]) in rows then [batch[i].path] else []
  {
    assert batch[..i + 1][..i] == batch[..i];
  }

  lemma {:induction false} ReleasedJoins(rows: set<Key>, c: seq<Record>, n: nat, m: nat)
    requires DistinctKeys(c) && n + m <= |c|
    ensures Released(rows, c[..n + m]) == Released(rows, c[..n]) + Released(rows - KeysOf(c[..n]), c[n..][..m])
    decreases m
  {
    if m == 0 {
      assert c[..n + m] == c[..n];
    } else {
      var left, tail, k := rows - KeysOf(c[..n]), c[n..], n + m - 1;
      ReleasedJoins(rows, c, n, m - 1);
      LaterKeysDiffer(c, n, k);
      ReleasedLast(rows, c, k);
      ReleasedLast(left, tail, m - 1);
      var last := if KeyOf(c[k]) in rows then [c[k].path] else [];
      Associate(Released(rows, c[..n]), Released(left, tail[..m - 1]), last);
    }
  }

  lemma KeysJoin(c: seq<Record>, n: nat, m: nat)
    requires n + m <= |c|
    ensures KeysOf(c[..n]) + KeysOf(c[n..][..m]) == KeysOf(c[..n + m])
  {
    var all := c[..n + m];
    assert all[..n] == c[..n] && all[n..] == c[n..][..m];
    KeysSplit(all, n);
  }

  lemma SubtractTwice(rows: set<Key>, a: set<Key>, b: set<Key>)
    ensures rows - a - b == rows - (a + b)
  {
  }

  lemma ExecuteCarriesOut(s: State, attempt: Attempt)
    ensures CarriedOut(s, Execute(s, attempt))
    ensures |s.candidates| - |Execute(s, attempt).candidates| <= MAX_RETENTION_BATCH
  {
    assert s.candidates[0..] == s.candidates && KeysOf(s.candidates[..0]) == {};
    assert s.events == Unreferenced(s.rows, s.events, s.candidates[..0]);
  }

  /**
   Whatever the batch sizes and however often transactions fail, a prefix of the plan is carried
   out and nothing else; so what is gone and what is still planned together make up the plan.
   */
  lemma {:induction false} BatchesRemoveExactly(s: State, attempts: seq<Attempt>)
    requires DistinctKeys(s.candidates)
    ensures CarriedOut(s, ExecuteAll(s, attempts))
    decreases |attempts|
  {
    if attempts == [] {
      ExecuteCarriesOut(s, Attempt(0, false));
    } else {
      ExecuteCarriesOut(s, attempts[0]);
      BatchesRemoveExactly(Execute(s, attempts[0]), attempts[1..]);
      CarriedOutChains(s, Execute(s, attempts[0]), ExecuteAll(s, attempts));
    }
  }

  /** Positive batch sizes exhaust a plan, and then exactly the candidates are gone. */
  lemma BatchesExhaust(s: State, attempts: seq<Attempt>)
    requires DistinctKeys(s.candidates)
    requires forall i :: 0 <= i < |attempts| ==> attempts[i].limit > 0 && attempts[i].commits
    requires |attempts| >= |s.candidates|
    ensures ExecuteAll(s, attempts) ==
      State(s.rows - KeysOf(s.candidates), Unreferenced(s.rows, s.events, s.candidates), [])
  {
    BatchesRemoveExactly(s, attempts);
    AttemptsShrink(s, attempts);
    assert s.candidates[..|s.candidates|] == s.candidates;
  }

  lemma {:induction false} AttemptsShrink(s: State, attempts: seq<Attempt>)
    requires forall i :: 0 <= i < |attempts| ==> attempts[i].limit > 0 && attempts[i].commits
    ensures |ExecuteAll(s, attempts).candidates| <= SaturatingSub(|s.candidates|, |attempts|)
    decreases |attempts|
  {
    if attempts != [] {
      AttemptsShrink(Execute(s, attempts[0]), attempts[1..]);
    }
  }
}
