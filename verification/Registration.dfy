/**
 Project registration: the persistent store of projects and their ordered root lists, and the map of
 open projects that the daemon keeps in memory. Registrations are serialized by a lock, and a
 transaction either takes effect as a whole or not at all.
 */
module Registration {
  import opened Prelude
  import opened Ordering

  type Id = string

  /** Canonical roots as text, in their sorted order. */
  type RootList = seq<string>

  datatype Project = Project(displayName: string, roots: RootList, createdAt: int, lastOpened: int, favorite: bool)

  type Projects = map<Id, Project>

  // ----- which project a registration resolves to

  /** `a` is listed before `b`: the proposed id first, then the most recently opened, then by id. */
  predicate Preferred(projects: Projects, proposed: Id, a: Id, b: Id)
    requires a in projects && b in projects
  {
    if a == proposed || b == proposed then a == proposed
    else if projects[a].lastOpened != projects[b].lastOpened then projects[a].lastOpened > projects[b].lastOpened
    else StringLe(a, b)
  }

  predicate Owns(projects: Projects, id: Id, roots: RootList) {
    id in projects && projects[id].roots == roots
  }

  /** The id that a registration of `roots` under a proposed id ends up with. */
  ghost predicate Resolves(projects: Projects, proposed: Id, roots: RootList, id: Id) {
    if roots != [] && exists owner :: Owns(projects, owner, roots) then
      && Owns(projects, id, roots)
      && forall other :: Owns(projects, other, roots) ==> other == id || Preferred(projects, proposed, id, other)
    else id == proposed
  }

  /** What the lookup's `WHERE` clause admits: the number of roots and the first of them agree. */
  predicate IsCandidate(projects: Projects, id: Id, roots: RootList) {
    roots != [] && id in projects && |projects[id].roots| == |roots| && projects[id].roots[0] == roots[0]
  }

  /** A listing order on all ids, for the stable sort. */
  predicate ListedLe(projects: Projects, proposed: Id, a: Id, b: Id) {
    if a in projects && b in projects then Preferred(projects, proposed, a, b)
    else if a in projects || b in projects then a in projects
    else StringLe(a, b)
  }

  function Listed(projects: Projects, proposed: Id): (Id, Id) -> bool {
    (a, b) => ListedLe(projects, proposed, a, b)
  }

  lemma ListedIsTotal(projects: Projects, proposed: Id)
    ensures TotalPreorder(Listed(projects, proposed))
  {
    StringOrder();
  }

  /** The candidates in the order of the query. */
  method QueryCandidates(projects: Projects, proposed: Id, roots: RootList) returns (ids: seq<Id>)
    ensures forall id :: id in ids <==> IsCandidate(projects, id, roots)
    ensures SortedBy(Listed(projects, proposed), ids)
  {
    var unlisted, found := projects.Keys, [];
    while unlisted != {}
      invariant unlisted <= projects.Keys
      invariant forall id :: id in found <==> id !in unlisted && IsCandidate(projects, id, roots)
    {
      var id :| id in unlisted;
      unlisted := unlisted - {id};
      if IsCandidate(projects, id, roots) {
        found := found + [id];
      }
    }
    ids := Sort(Listed(projects, proposed), found);
    ListedIsTotal(projects, proposed);
    SortSorts(Listed(projects, proposed), found);
    SortMembers(Listed(projects, proposed), found);
  }

  /** Looks the candidates through until one has exactly these roots. */
  method ResolveId(projects: Projects, proposed: Id, roots: RootList) returns (id: Id)
    ensures Resolves(projects, proposed, roots, id)
  {
    var candidates := QueryCandidates(projects, proposed, roots);
    for i := 0 to |candidates|
      invariant forall j :: 0 <= j < i ==> !Owns(projects, candidates[j], roots)
    {
      var candidate := candidates[i];
      assert candidate in candidates;
      if projects[candidate].roots == roots {
        FirstMatchIsPreferred(projects, proposed, roots, candidates, i);
        return candidate;
      }
    }
    forall owner | roots != [] && Owns(projects, owner, roots) ensures false {
      assert IsCandidate(projects, owner, roots);
    }
    return proposed;
  }

  lemma FirstMatchIsPreferred(projects: Projects, proposed: Id, roots: RootList, candidates: seq<Id>, i: nat)
    requires forall id :: id in candidates <==> IsCandidate(projects, id, roots)
    requires SortedBy(Listed(projects, proposed), candidates)
    requires i < |candidates| && Owns(projects, candidates[i], roots)
    requires forall j :: 0 <= j < i ==> !Owns(projects, candidates[j], roots)
    ensures Resolves(projects, proposed, roots, candidates[i])
  {
    assert candidates[i] in candidates;
    forall other | Owns(projects, other, roots) && other != candidates[i]
      ensures Preferred(projects, proposed, candidates[i], other)
    {
      assert other in candidates;
      var j :| 0 <= j < |candidates| && candidates[j] == other;
      assert Listed(projects, proposed)(candidates[i], other);
    }
  }

  /** Insert the project or refresh it, and replace its roots. */
  function Upsert(projects: Projects, id: Id, name: string, roots: RootList, now: int): Projects {
    if id in projects
    then projects[id := projects[id].(displayName := name, roots := roots, lastOpened := now)]
    else projects[id := Project(name, roots, now, now, false)]
  }

  /** Among several owners of a root list the proposed id is chosen, else the most recently opened, else the first id. */
  lemma ResolvedOwner(projects: Projects, proposed: Id, roots: RootList, id: Id, owner: Id)
    requires roots != [] && Resolves(projects, proposed, roots, id) && Owns(projects, owner, roots)
    ensures Owns(projects, id, roots)
    ensures Owns(projects, proposed, roots) ==> id == proposed
    ensures !Owns(projects, proposed, roots) ==>
      && projects[owner].lastOpened <= projects[id].lastOpened
      && (projects[owner].lastOpened == projects[id].lastOpened ==> StringLe(id, owner))
  {
    StringOrder();
  }

  /** A root list nobody owns, and an empty one, go to the proposed id. */
  lemma UnownedGoesToProposed(projects: Projects, proposed: Id, roots: RootList, id: Id)
    requires Resolves(projects, proposed, roots, id)
    requires roots == [] || forall owner :: owner in projects ==> projects[owner].roots != roots
    ensures id == proposed
  {
  }

  /** A project registered again keeps its creation time and favourite and takes the rest; others stay as they are. */
  lemma UpsertRefreshes(projects: Projects, id: Id, name: string, roots: RootList, now: int)
    ensures var after := Upsert(projects, id, name, roots, now);
      && after.Keys == projects.Keys + {id}
      && after[id].displayName == name && after[id].roots == roots && after[id].lastOpened == now
      && (id in projects ==> after[id].createdAt == projects[id].createdAt && after[id].favorite == projects[id].favorite)
      && (id !in projects ==> after[id].createdAt == now && !after[id].favorite)
      && forall other :: other in projects && other != id ==> after[other] == projects[other]
  {
  }

  // ----- the store and the manager

  datatype StoreError = InvalidLimit | TransactionFailed

  const I64_MAX: nat := 0x7FFF_FFFF_FFFF_FFFF

  class Store {
    var projects: Projects

    constructor ()
      ensures projects == map[]
    {
      projects := map[];
    }

    method UpsertProjectRegistration(proposed: Id, name: string, roots: RootList, now: int, commits: bool)
      returns (r: Result<Id, StoreError>)
      modifies this
      ensures r.Ok? <==> |roots| <= I64_MAX && commits
      ensures r.Err? ==> projects == old(projects)
      ensures r.Ok? ==>
        Resolves(old(projects), proposed, roots, r.value) && projects == Upsert(old(projects), r.value, name, roots, now)
    {
      if |roots| > I64_MAX {
        return Err(InvalidLimit);
      }
      var id := ResolveId(projects, proposed, roots);
      var rows: RootList := [];
      for index := 0 to |roots|
        invariant rows == roots[..index] && projects == old(projects)
      {
        rows := rows + [roots[index]];
      }
      assert roots[..|roots|] == roots;
      if !commits {
        return Err(TransactionFailed);
      }
      projects := Upsert(projects, id, name, rows, now);
      return Ok(id);
    }
  }

  datatype Registered = Registered(id: Id, displayName: string, roots: RootList)

  datatype RegisterError = InvalidName | RootsRefused | LockPoisoned | PersistFailed | MapPoisoned

  /** One request: `built` is what building the workspace roots gave. */
  datatype Request<W> = Request(proposed: Id, name: string, nameIsValid: bool, built: Option<W>, now: int, commits: bool)

  /**
   Open projects, each with its workspace roots `W`. A lock is poisoned for good once a thread panics
   while holding it; a poisoned map answers every reader and writer with an error.
   */
  class ProjectManager<W> {
    var open: map<Id, W>
    var registrationsPoisoned: bool
    var mapPoisoned: bool
    const text: W -> RootList

    constructor (text: W -> RootList)
      ensures open == map[] && !registrationsPoisoned && !mapPoisoned && this.text == text
    {
      open, registrationsPoisoned, mapPoisoned := map[], false, false;
      this.text := text;
    }

    ghost predicate Agrees(store: Store)
      reads this, store
    {
      Consistent(text, State(store.projects, open, mapPoisoned))
    }

    /** Persist first; publish to the map only what was persisted. */
    method RegisterWithPersistence(store: Store, request: Request<W>) returns (r: Result<Registered, RegisterError>)
      requires Agrees(store)
      modifies this`open, store
      ensures Agrees(store)
      ensures r.Ok? <==> Accepts(text, request) && !registrationsPoisoned && !mapPoisoned
      ensures r.Ok? ==>
        && Registers(text, old(State(store.projects, open, mapPoisoned)), request, r.value.id,
                     State(store.projects, open, mapPoisoned))
        && r.value == Registered(r.value.id, request.name, text(request.built.value))
      ensures r.Err? && r.error != MapPoisoned ==> open == old(open) && store.projects == old(store.projects)
      ensures r.Err? && r.error == MapPoisoned ==> mapPoisoned && open == old(open) && Accepts(text, request)
      ensures r.Err? && r.error == MapPoisoned ==>
        exists id :: Persists(text, old(store.projects), request, id, store.projects)
    {
      if !request.nameIsValid {
        return Err(InvalidName);
      }
      if request.built.None? {
        return Err(RootsRefused);
      }
      var services := request.built.value;
      var roots := text(services);
      if registrationsPoisoned {
        return Err(LockPoisoned);
      }
      var persisted := store.UpsertProjectRegistration(request.proposed, request.name, roots, request.now, request.commits);
      if persisted.Err? {
        return Err(PersistFailed);
      }
      var id := persisted.value;
      PersistKeepsUnique(text, old(store.projects), request, id, store.projects);
      if mapPoisoned {
        assert Persists(text, old(store.projects), request, id, store.projects);
        return Err(MapPoisoned);
      }
      open := open[id := services];
      RegisterKeepsConsistent(
        text, old(State(store.projects, open, mapPoisoned)), request, id, State(store.projects, open, mapPoisoned));
      return Ok(Registered(id, request.name, roots));
    }

    /** A reader gets nothing, or workspace roots that are the ones the store has for this id, and for no other. */
    method Project(id: Id, ghost store: Store) returns (r: Result<Option<W>, RegisterError>)
      requires Agrees(store)
      ensures r.Ok? && r.value.Some? ==>
        id in store.projects && store.projects[id].roots == text(r.value.value)
      ensures r.Ok? && r.value.Some? && text(r.value.value) != [] ==>
        forall other :: Owns(store.projects, other, text(r.value.value)) ==> other == id
      ensures r.Ok? && r.value.None? ==> id !in open
      ensures r.Err? ==> mapPoisoned
    {
      if mapPoisoned {
        return Err(MapPoisoned);
      }
      return Ok(if id in open then Some(open[id]) else None);
    }
  }

  // ----- every sequence of registrations

  datatype State<W> = State(projects: Projects, open: map<Id, W>, poisoned: bool)

  ghost predicate Accepts<W>(text: W -> RootList, request: Request<W>) {
    request.nameIsValid && request.built.Some? && |text(request.built.value)| <= I64_MAX && request.commits
  }

  /** The store's part of a registration that resolves to `id`. */
  ghost predicate Persists<W>(text: W -> RootList, projects: Projects, request: Request<W>, id: Id, after: Projects)
    requires request.built.Some?
  {
    var roots := text(request.built.value);
    && Resolves(projects, request.proposed, roots, id)
    && after == Upsert(projects, id, request.name, roots, request.now)
  }

  /** A successful registration, returning `id`. */
  ghost predicate Registers<W>(text: W -> RootList, s: State<W>, request: Request<W>, id: Id, t: State<W>)
    requires request.built.Some?
  {
    && Persists(text, s.projects, request, id, t.projects)
    && t.open == s.open[id := request.built.value] && !s.poisoned && !t.poisoned
  }

  /** No two projects own the same non-empty root list. */
  ghost predicate UniqueRoots(projects: Projects) {
    forall a, b :: a in projects && b in projects && projects[a].roots == projects[b].roots != [] ==> a == b
  }

  /** Root lists are unique, and an open project that can be read has exactly its persisted roots. */
  ghost predicate Consistent<W>(text: W -> RootList, s: State<W>) {
    && UniqueRoots(s.projects)
    && (!s.poisoned ==>
          forall id :: id in s.open ==> id in s.projects && s.projects[id].roots == text(s.open[id]))
  }

  lemma PersistKeepsUnique<W>(text: W -> RootList, projects: Projects, request: Request<W>, id: Id, after: Projects)
    requires UniqueRoots(projects) && request.built.Some? && Persists(text, projects, request, id, after)
    ensures UniqueRoots(after)
  {
    var roots := text(request.built.value);
    forall other | other in after && other != id && after[other].roots == roots && roots != [] ensures false {
      assert Owns(projects, other, roots);
    }
  }

  lemma RegisterKeepsConsistent<W>(text: W -> RootList, s: State<W>, request: Request<W>, id: Id, t: State<W>)
    requires Consistent(text, s) && request.built.Some? && Registers(text, s, request, id, t)
    ensures Consistent(text, t)
  {
    PersistKeepsUnique(text, s.projects, request, id, t.projects);
  }

  /**
   What may happen between two moments: a registration, a panic that poisons the map's lock, a
   favourite toggled, a restart of the daemon.
   */
  datatype Event<W> = Register(request: Request<W>, id: Id) | Poison | Favorite(id: Id, favorite: bool) | Restart

  ghost predicate Next<W>(text: W -> RootList, s: State<W>, event: Event<W>, t: State<W>) {
    match event
    case Register(request, id) =>
      if !Accepts(text, request) then t == s
      else if s.poisoned then t == s.(projects := t.projects) && Persists(text, s.projects, request, id, t.projects)
      else Registers(text, s, request, id, t)
    case Poison => t == s.(poisoned := true)
    case Favorite(id, favorite) =>
      t == if id in s.projects then s.(projects := s.projects[id := s.projects[id].(favorite := favorite)]) else s
    case Restart => t == s.(open := map[], poisoned := false)
  }

  ghost predicate IsRun<W>(text: W -> RootList, events: seq<Event<W>>, states: seq<State<W>>) {
    && |states| == |events| + 1 && states[0] == State(map[], map[], false)
    && forall i :: 0 <= i < |events| ==> Next(text, states[i], events[i], states[i + 1])
  }

  lemma NextKeepsConsistent<W>(text: W -> RootList, s: State<W>, event: Event<W>, t: State<W>)
    requires Consistent(text, s) && Next(text, s, event, t)
    ensures Consistent(text, t)
  {
    if event.Register? && Accepts(text, event.request) {
      PersistKeepsUnique(text, s.projects, event.request, event.id, t.projects);
      if !s.poisoned {
        RegisterKeepsConsistent(text, s, event.request, event.id, t);
      }
    }
  }

  /** From an empty store, over every sequence of registrations, failures and restarts. */
  lemma {:induction false} EveryRunIsConsistent<W>(text: W -> RootList, events: seq<Event<W>>, states: seq<State<W>>, i: nat)
    requires IsRun(text, events, states) && i <= |events|
    ensures Consistent(text, states[i])
  {
    if i > 0 {
      EveryRunIsConsistent(text, events, states, i - 1);
      NextKeepsConsistent(text, states[i - 1], events[i - 1], states[i]);
    }
  }

  /** Registering a root list that some project owns, under any id, returns that project and gives it no twin. */
  lemma ReRegistrationReturnsTheOwner<W>(
    text: W -> RootList, events: seq<Event<W>>, states: seq<State<W>>, i: nat, owner: Id)
    requires IsRun(text, events, states) && i < |events|
    requires events[i].Register? && Accepts(text, events[i].request)
    requires var roots := text(events[i].request.built.value); roots != [] && Owns(states[i].projects, owner, roots)
    ensures events[i].id == owner && states[i + 1].projects.Keys == states[i].projects.Keys
    ensures forall other :: other != owner && other in states[i].projects ==>
      states[i + 1].projects[other] == states[i].projects[other]
  {
    EveryRunIsConsistent(text, events, states, i);
    assert Next(text, states[i], events[i], states[i + 1]);
  }
}
