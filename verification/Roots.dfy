/**
 Workspace roots and the authorization of paths against them. A path is its list of components, as
 `std::path` yields them on Unix; what the file system says of a root is a parameter.
 */
module Roots {
  import opened Prelude
  import opened Ordering

  datatype Component = RootDir | CurDir | ParentDir | Normal(name: seq<byte>)

  type Path = seq<Component>

  predicate IsAbsolute(path: Path) {
    path != [] && path[0] == RootDir
  }

  /** The root directory and nothing but names below it. */
  predicate IsCanonical(path: Path) {
    IsAbsolute(path) && forall i :: 1 <= i < |path| ==> path[i].Normal?
  }

  datatype RootError =
    | EmptyRoots
    | RootNotAbsolute(index: nat)
    | RootUnavailable(index: nat)
    | RootNotDirectory(index: nat)
    | RootUnreadable(index: nat)
    | OpenFailed
    | DuplicateRoot(first: nat, second: nat)
    | NestedRoots(outer: nat, inner: nat)
    | UnauthorizedPath
    | UnsafePath

  // ----- normalization

  /** What one component does to the path built so far; `None` when there is nothing to leave. */
  function Push(built: Path, component: Component): Option<Path> {
    match component
    case RootDir => Some([RootDir])
    case CurDir => Some(built)
    case ParentDir => if built == [] || built == [RootDir] then None else Some(built[..|built| - 1])
    case Normal(_) => Some(built + [component])
  }

  function PushAll(built: Path, path: Path): Option<Path>
    decreases |path|
  {
    if path == [] then Some(built)
    else match Push(built, path[0])
      case None => None
      case Some(next) => PushAll(next, path[1..])
  }

  function Normalize(path: Path): Result<Path, RootError> {
    match PushAll([], path)
    case None => Err(UnauthorizedPath)
    case Some(built) => if IsAbsolute(built) then Ok(built) else Err(UnauthorizedPath)
  }

  method NormalizeAbsolute(path: Path) returns (r: Result<Path, RootError>)
    ensures r == Normalize(path)
    ensures r.Ok? ==> IsCanonical(r.value)
  {
    var normalized := [];
    for i := 0 to |path|
      invariant PushAll([], path) == PushAll(normalized, path[i..])
    {
      assert path[i..][0] == path[i] && path[i..][1..] == path[i + 1..];
      match path[i] {
        case RootDir => normalized := [RootDir];
        case CurDir =>
        case ParentDir =>
          if normalized == [] || normalized == [RootDir] {
            return Err(UnauthorizedPath);
          }
          normalized := normalized[..|normalized| - 1];
        case Normal(_) => normalized := normalized + [path[i]];
      }
    }
    NormalizedIsCanonical(path);
    return if IsAbsolute(normalized) then Ok(normalized) else Err(UnauthorizedPath);
  }

  /** Only names, after at most one leading root. */
  ghost predicate Tidy(built: Path) {
    forall i :: 0 <= i < |built| ==> built[i].Normal? || (i == 0 && built[i] == RootDir)
  }

  lemma {:induction false} PushAllIsTidy(built: Path, path: Path)
    requires Tidy(built)
    ensures PushAll(built, path).Some? ==> Tidy(PushAll(built, path).value)
    decreases |path|
  {
    if path != [] && Push(built, path[0]).Some? {
      PushAllIsTidy(Push(built, path[0]).value, path[1..]);
    }
  }

  lemma NormalizedIsCanonical(path: Path)
    ensures Normalize(path).Ok? ==> IsCanonical(Normalize(path).value)
  {
    PushAllIsTidy([], path);
  }

  lemma {:induction false} PushNames(built: Path, names: Path)
    requires forall i :: 0 <= i < |names| ==> names[i].Normal?
    ensures PushAll(built, names) == Some(built + names)
    decreases |names|
  {
    if names == [] {
      assert built + names == built;
    } else {
      PushNames(built + [names[0]], names[1..]);
      assert built + [names[0]] + names[1..] == built + names;
    }
  }

  lemma CanonicalIsFixed(path: Path)
    requires IsCanonical(path)
    ensures Normalize(path) == Ok(path)
  {
    PushNames([RootDir], path[1..]);
    assert path == [RootDir] + path[1..];
  }

  lemma NormalizeIsIdempotent(path: Path)
    requires Normalize(path).Ok?
    ensures Normalize(Normalize(path).value) == Normalize(path)
  {
    NormalizedIsCanonical(path);
    CanonicalIsFixed(Normalize(path).value);
  }

  lemma {:induction false} PushAllAppends(built: Path, p: Path, q: Path)
    ensures PushAll(built, p + q) ==
      match PushAll(built, p) { case None => None case Some(next) => PushAll(next, q) }
    decreases |p|
  {
    if p == [] {
      assert p + q == q;
    } else {
      assert (p + q)[1..] == p[1..] + q;
      if Push(built, p[0]).Some? {
        PushAllAppends(Push(built, p[0]).value, p[1..], q);
      }
    }
  }

  /** Resolving a path in two stages is the same as resolving it at once. */
  lemma NormalizeComposes(p: Path, q: Path)
    requires Normalize(p).Ok?
    ensures Normalize(p + q) == Normalize(Normalize(p).value + q)
  {
    var n := Normalize(p).value;
    PushAllAppends([], p, q);
    NormalizedIsCanonical(p);
    CanonicalIsFixed(n);
    PushAllAppends([], n, q);
  }

  /** A name and the parent right after it cancel out: a parent leaves the directory entered last. */
  lemma ParentLeavesLast(p: Path, name: seq<byte>, q: Path)
    ensures Normalize(p + [Normal(name), ParentDir] + q) == Normalize(p + q)
  {
    var detour := [Normal(name), ParentDir];
    PushAllAppends([], p + detour, q);
    PushAllAppends([], p, detour);
    PushAllAppends([], p, q);
    if PushAll([], p).Some? {
      Detour(PushAll([], p).value, name);
    }
  }

  lemma Detour(built: Path, name: seq<byte>)
    ensures PushAll(built, [Normal(name), ParentDir]) == Some(built)
  {
    var entered := built + [Normal(name)];
    var detour := [Normal(name), ParentDir];
    assert detour[1..] == [ParentDir] && [ParentDir][1..] == [];
    assert entered[..|entered| - 1] == built && entered[|entered| - 1] == Normal(name);
    assert Push(entered, ParentDir) == Some(built);
    assert PushAll(entered, [ParentDir]) == PushAll(built, []);
  }

  /** The current directory is passed over. */
  lemma CurrentIsPassedOver(p: Path, q: Path)
    ensures Normalize(p + [CurDir] + q) == Normalize(p + q)
  {
    PushAllAppends([], p + [CurDir], q);
    PushAllAppends([], p, [CurDir]);
    PushAllAppends([], p, q);
    assert [CurDir][1..] == [];
  }

  /** A second root starts the path over. */
  lemma RootStartsOver(p: Path, q: Path)
    requires PushAll([], p).Some?
    ensures Normalize(p + [RootDir] + q) == Normalize([RootDir] + q)
  {
    PushAllAppends([], p + [RootDir], q);
    PushAllAppends([], p, [RootDir]);
    PushAllAppends([], [RootDir], q);
    assert [RootDir][1..] == [];
  }

  /** Names entered minus parents taken. */
  function Depth(path: Path): int {
    if path == [] then 0
    else
      Depth(path[..|path| - 1])
      + match path[|path| - 1] { case Normal(_) => 1 case ParentDir => -1 case _ => 0 }
  }

  /** No prefix of the path climbs above where it started. */
  ghost predicate NeverClimbs(path: Path) {
    forall i :: 0 <= i <= |path| ==> Depth(path[..i]) >= 0
  }

  lemma {:induction false} NeverClimbsNext(path: Path)
    requires path != []
    ensures NeverClimbs(path) <==> NeverClimbs(path[..|path| - 1]) && Depth(path) >= 0
  {
    var init := path[..|path| - 1];
    assert forall i :: 0 <= i <= |init| ==> path[..i] == init[..i];
    assert path[..|path|] == path;
  }

  lemma {:induction false} PushAllDepth(path: Path)
    requires IsAbsolute(path) && forall i :: 1 <= i < |path| ==> path[i] != RootDir
    ensures PushAll([], path).Some? <==> NeverClimbs(path)
    ensures PushAll([], path).Some? ==>
      IsAbsolute(PushAll([], path).value) && |PushAll([], path).value| == 1 + Depth(path)
  {
    var init, last := path[..|path| - 1], path[|path| - 1];
    NeverClimbsNext(path);
    if init == [] {
      assert path == [RootDir] && NeverClimbs(init);
      assert PushAll([RootDir], path[1..]) == Some([RootDir]);
    } else {
      PushAllDepth(init);
      PushLast(init, last);
      assert path == init + [last];
    }
  }

  lemma PushLast(init: Path, last: Component)
    ensures PushAll([], init + [last]) ==
      match PushAll([], init) { case None => None case Some(built) => Push(built, last) }
  {
    PushAllAppends([], init, [last]);
    assert [last][1..] == [];
  }

  /** An absolute path is refused exactly when some prefix of it climbs above the root. */
  lemma RefusedIfAndOnlyIfItClimbs(path: Path)
    requires IsAbsolute(path) && forall i :: 1 <= i < |path| ==> path[i] != RootDir
    ensures Normalize(path).Err? <==> exists i :: 0 <= i <= |path| && Depth(path[..i]) < 0
  {
    PushAllDepth(path);
  }

  // ----- the order of paths

  function Rank(c: Component): nat {
    match c
    case RootDir => 0
    case CurDir => 1
    case ParentDir => 2
    case Normal(_) => 3
  }

  predicate ByteLe(a: byte, b: byte) {
    a <= b
  }

  predicate ComponentLe(a: Component, b: Component) {
    if a.Normal? && b.Normal? then LexLe(ByteLe, a.name, b.name) else Rank(a) <= Rank(b)
  }

  predicate PathLe(a: Path, b: Path) {
    LexLe(ComponentLe, a, b)
  }

  lemma ComponentOrder()
    ensures TotalPreorder(ComponentLe) && Antisymmetric(ComponentLe)
  {
    LexIsTotalOrder(ByteLe);
    var le := (s: seq<byte>, t: seq<byte>) => LexLe(ByteLe, s, t);
    assert forall s: seq<byte>, t: seq<byte> :: le(s, t) == LexLe(ByteLe, s, t);
  }

  lemma PathOrder()
    ensures TotalPreorder(PathLe) && Antisymmetric(PathLe)
  {
    ComponentOrder();
    LexIsTotalOrder(ComponentLe);
    var le := (s: Path, t: Path) => LexLe(ComponentLe, s, t);
    assert forall s: Path, t: Path :: le(s, t) == PathLe(s, t);
  }

  /** Below one directory, paths are listed by the bytes of the names in which they part. */
  lemma {:induction false} ListedByName(p: Path, a: seq<byte>, b: seq<byte>, x: Path, y: Path, i: nat)
    requires i < |a| && i < |b| && a[..i] == b[..i] && a[i] < b[i]
    ensures var left, right := p + [Normal(a)] + x, p + [Normal(b)] + y; PathLe(left, right) && !PathLe(right, left)
  {
    var left, right := p + [Normal(a)] + x, p + [Normal(b)] + y;
    LexAtDifference(ByteLe, a, b, i);
    LexAtDifference(ByteLe, b, a, i);
    assert left[..|p|] == p && right[..|p|] == p && left[|p|] == Normal(a) && right[|p|] == Normal(b);
    LexAtDifference(ComponentLe, left, right, |p|);
    LexAtDifference(ComponentLe, right, left, |p|);
  }

  // ----- building the roots

  /** What the file system says of a requested root. */
  datatype Probe = Missing | NotADirectory | NoAccess | CannotOpen | Directory(canonical: Path)

  datatype Root = Root(requested: Path, canonical: Path, inputIndex: nat)

  predicate RootLe(a: Root, b: Root) {
    PathLe(a.canonical, b.canonical)
  }

  lemma RootOrder()
    ensures TotalPreorder(RootLe)
  {
    PathOrder();
  }

  /** The checks on one requested root. */
  function Capability(probe: Path -> Probe, requested: seq<Path>, index: nat): Result<Root, RootError>
    requires index < |requested|
  {
    var path := requested[index];
    if !IsAbsolute(path) then Err(RootNotAbsolute(index))
    else match Normalize(path)
      case Err(error) => Err(error)
      case Ok(normalized) =>
        match probe(path)
        case Missing => Err(RootUnavailable(index))
        case NotADirectory => Err(RootNotDirectory(index))
        case NoAccess => Err(RootUnreadable(index))
        case CannotOpen => Err(OpenFailed)
        case Directory(canonical) => Ok(Root(normalized, canonical, index))
  }

  /** Roots that stand for the requested paths, none inside another, in either direction. */
  ghost predicate IsAntichain(roots: seq<Root>) {
    forall i, j :: 0 <= i < |roots| && 0 <= j < |roots| && i != j ==> !(roots[i].canonical <= roots[j].canonical)
  }

  ghost predicate AllCapabilities(probe: Path -> Probe, requested: seq<Path>, roots: seq<Root>) {
    |roots| == |requested| && forall i :: 0 <= i < |requested| ==> Capability(probe, requested, i) == Ok(roots[i])
  }

  ghost predicate FirstFailure(probe: Path -> Probe, requested: seq<Path>, error: RootError) {
    exists i ::
      && 0 <= i < |requested| && Capability(probe, requested, i) == Err(error)
      && forall j :: 0 <= j < i ==> Capability(probe, requested, j).Ok?
  }

  method Capabilities(probe: Path -> Probe, requested: seq<Path>) returns (r: Result<seq<Root>, RootError>)
    ensures r.Ok? <==> forall i :: 0 <= i < |requested| ==> Capability(probe, requested, i).Ok?
    ensures r.Ok? ==> AllCapabilities(probe, requested, r.value)
    ensures r.Err? ==> FirstFailure(probe, requested, r.error)
  {
    var roots := [];
    for i := 0 to |requested|
      invariant |roots| == i && forall j :: 0 <= j < i ==> Capability(probe, requested, j) == Ok(roots[j])
    {
      var root := Capability(probe, requested, i);
      if root.Err? {
        return Err(root.error);
      }
      roots := roots + [root.value];
    }
    return Ok(roots);
  }

  function Clash(left: Root, right: Root): Option<RootError> {
    if left.canonical == right.canonical then
      Some(DuplicateRoot(Min(left.inputIndex, right.inputIndex), Max(left.inputIndex, right.inputIndex)))
    else if left.canonical <= right.canonical then Some(NestedRoots(left.inputIndex, right.inputIndex))
    else None
  }

  /** Compares every root with the later ones only. */
  method FindClash(roots: seq<Root>) returns (r: Option<RootError>)
    ensures r.None? ==> forall i, j :: 0 <= i < j < |roots| ==> Clash(roots[i], roots[j]).None?
    ensures r.Some? ==> exists i, j :: 0 <= i < j < |roots| && Clash(roots[i], roots[j]) == r
  {
    for first := 0 to |roots|
      invariant forall i, j :: 0 <= i < first && i < j < |roots| ==> Clash(roots[i], roots[j]).None?
    {
      for second := first + 1 to |roots|
        invariant forall j :: first < j < second ==> Clash(roots[first], roots[j]).None?
      {
        r := Clash(roots[first], roots[second]);
        if r.Some? {
          return;
        }
      }
    }
    return None;
  }

  /** After sorting, looking only at later roots rules out nesting in both directions. */
  lemma SortedWithoutClashIsAntichain(roots: seq<Root>)
    requires SortedBy(RootLe, roots)
    requires forall i, j :: 0 <= i < j < |roots| ==> Clash(roots[i], roots[j]).None?
    ensures IsAntichain(roots)
  {
    PathOrder();
    forall i, j | 0 <= i < |roots| && 0 <= j < |roots| && i != j ensures !(roots[i].canonical <= roots[j].canonical) {
      assert Clash(roots[Min(i, j)], roots[Max(i, j)]).None?;
      if i > j && roots[i].canonical <= roots[j].canonical {
        PrefixSortsFirst(ComponentLe, roots[i].canonical, roots[j].canonical);
      }
    }
  }

  /** The canonical path of a requested root that passes its checks. */
  function CanonicalOf(probe: Path -> Probe, requested: seq<Path>, index: nat): Option<Path> {
    if index < |requested| && Capability(probe, requested, index).Ok?
    then Some(Capability(probe, requested, index).value.canonical) else None
  }

  /** An error that blames two requested roots, and is right about them. */
  ghost predicate BlamesRightly(probe: Path -> Probe, requested: seq<Path>, error: RootError) {
    match error
    case DuplicateRoot(first, second) =>
      && first < second < |requested|
      && CanonicalOf(probe, requested, first).Some?
      && CanonicalOf(probe, requested, first) == CanonicalOf(probe, requested, second)
    case NestedRoots(outer, inner) =>
      && CanonicalOf(probe, requested, outer).Some? && CanonicalOf(probe, requested, inner).Some?
      && CanonicalOf(probe, requested, outer).value < CanonicalOf(probe, requested, inner).value
    case _ => false
  }

  /**
   Builds the roots. Success means every request passed its checks and no canonical root lies inside
   another; a failure names the first request that did not pass, or two that really overlap.
   */
  method NewRoots(probe: Path -> Probe, requested: seq<Path>) returns (r: Result<seq<Root>, RootError>)
    ensures requested == [] ==> r == Err(EmptyRoots)
    ensures r.Ok? ==> IsAntichain(r.value) && SortedBy(RootLe, r.value) && |r.value| == |requested|
    ensures r.Ok? ==> forall root ::
      root in r.value <==> exists i :: 0 <= i < |requested| && Capability(probe, requested, i) == Ok(root)
    ensures r.Err? && requested != [] ==>
      FirstFailure(probe, requested, r.error) || BlamesRightly(probe, requested, r.error)
  {
    if requested == [] {
      return Err(EmptyRoots);
    }
    var checked := Capabilities(probe, requested);
    if checked.Err? {
      return Err(checked.error);
    }
    var roots := Sort(RootLe, checked.value);
    RootOrder();
    SortSorts(RootLe, checked.value);
    SortMembers(RootLe, checked.value);
    var clash := FindClash(roots);
    if clash.Some? {
      ClashBlamesRightly(probe, requested, checked.value, roots, clash.value);
      return Err(clash.value);
    }
    SortedWithoutClashIsAntichain(roots);
    return Ok(roots);
  }

  /** A root still knows which request it came from, whatever the sorting did. */
  lemma RootIsLocated(probe: Path -> Probe, requested: seq<Path>, checked: seq<Root>, root: Root)
    requires AllCapabilities(probe, requested, checked) && root in checked
    ensures root.inputIndex < |requested| && Capability(probe, requested, root.inputIndex) == Ok(root)
  {
    var k :| 0 <= k < |checked| && checked[k] == root;
    assert Capability(probe, requested, k) == Ok(root);
  }

  lemma CheckedAreDistinct(probe: Path -> Probe, requested: seq<Path>, checked: seq<Root>)
    requires AllCapabilities(probe, requested, checked)
    ensures Distinct(checked)
  {
    forall k | 0 <= k < |checked| ensures checked[k].inputIndex == k {
      assert Capability(probe, requested, k) == Ok(checked[k]);
    }
  }

  lemma ClashBlamesRightly(
    probe: Path -> Probe, requested: seq<Path>, checked: seq<Root>, roots: seq<Root>, error: RootError)
    requires AllCapabilities(probe, requested, checked) && roots == Sort(RootLe, checked)
    requires exists i, j :: 0 <= i < j < |roots| && Clash(roots[i], roots[j]) == Some(error)
    ensures BlamesRightly(probe, requested, error)
  {
    var i, j :| 0 <= i < j < |roots| && Clash(roots[i], roots[j]) == Some(error);
    var left, right := roots[i], roots[j];
    RootOrder();
    SortMembers(RootLe, checked);
    assert left in roots && right in roots;
    CheckedAreDistinct(probe, requested, checked);
    SortDistinct(RootLe, checked);
    RootIsLocated(probe, requested, checked, left);
    RootIsLocated(probe, requested, checked, right);
    PairIsBlamed(probe, requested, left, right);
  }

  lemma PairIsBlamed(probe: Path -> Probe, requested: seq<Path>, left: Root, right: Root)
    requires left != right && Clash(left, right).Some?
    requires left.inputIndex < |requested| && Capability(probe, requested, left.inputIndex) == Ok(left)
    requires right.inputIndex < |requested| && Capability(probe, requested, right.inputIndex) == Ok(right)
    ensures BlamesRightly(probe, requested, Clash(left, right).value)
  {
  }

  // ----- authorization

  datatype Authorized = Authorized(root: Root, canonical: Path, components: Path)

  datatype Match = Match(root: Root, prefix: Path)

  /** The best match so far, given another candidate prefix: the deeper one, the earlier one on a tie. */
  function Better(best: Option<Match>, normalized: Path, candidate: Match): Option<Match> {
    if candidate.prefix <= normalized && (best.None? || |candidate.prefix| > |best.value.prefix|)
    then Some(candidate) else best
  }

  ghost predicate Matches(roots: seq<Root>, normalized: Path, m: Match) {
    m.root in roots && (m.prefix == m.root.canonical || m.prefix == m.root.requested) && m.prefix <= normalized
  }

  /** A longest prefix among the canonical and requested paths of the roots. */
  ghost predicate IsDeepest(roots: seq<Root>, normalized: Path, best: Option<Match>) {
    && (best.None? ==> forall m :: !Matches(roots, normalized, m))
    && (best.Some? ==> Matches(roots, normalized, best.value))
    && (best.Some? ==> forall m :: Matches(roots, normalized, m) ==> |m.prefix| <= |best.value.prefix|)
  }

  /** The root itself, or a path below it, matches at this depth or deeper. */
  predicate ReachesDepth(root: Root, normalized: Path, depth: nat) {
    || (root.canonical <= normalized && |root.canonical| >= depth)
    || (root.requested <= normalized && |root.requested| >= depth)
  }

  /** The match belongs to the first root that reaches its depth. */
  ghost predicate IsEarliest(roots: seq<Root>, normalized: Path, m: Match) {
    exists k :: 0 <= k < |roots| && roots[k] == m.root && NoneReaches(roots[..k], normalized, |m.prefix|)
  }

  ghost predicate NoneReaches(roots: seq<Root>, normalized: Path, depth: nat) {
    forall j :: 0 <= j < |roots| ==> !ReachesDepth(roots[j], normalized, depth)
  }

  lemma EarliestNext(roots: seq<Root>, normalized: Path, best: Option<Match>, root: Root)
    requires IsDeepest(roots, normalized, best) && (best.Some? ==> IsEarliest(roots, normalized, best.value))
    ensures var last := Better(Better(best, normalized, Match(root, root.canonical)), normalized, Match(root, root.requested));
      last.Some? ==> IsEarliest(roots + [root], normalized, last.value)
  {
    var last := Better(Better(best, normalized, Match(root, root.canonical)), normalized, Match(root, root.requested));
    var more := roots + [root];
    if last.Some? && last == best {
      var k :| 0 <= k < |roots| && roots[k] == last.value.root && NoneReaches(roots[..k], normalized, |last.value.prefix|);
      assert more[k] == roots[k] && more[..k] == roots[..k];
    } else if last.Some? {
      ShallowerReachNot(roots, normalized, best, |last.value.prefix|);
      assert more[|roots|] == root && more[..|roots|] == roots;
    }
  }

  lemma ShallowerReachNot(roots: seq<Root>, normalized: Path, best: Option<Match>, depth: nat)
    requires IsDeepest(roots, normalized, best) && (best.Some? ==> |best.value.prefix| < depth)
    ensures NoneReaches(roots, normalized, depth)
  {
    forall j | 0 <= j < |roots| ensures !ReachesDepth(roots[j], normalized, depth) {
      var canonical, requested := Match(roots[j], roots[j].canonical), Match(roots[j], roots[j].requested);
      assert canonical.prefix <= normalized ==> Matches(roots, normalized, canonical);
      assert requested.prefix <= normalized ==> Matches(roots, normalized, requested);
    }
  }

  lemma DeepestNext(roots: seq<Root>, normalized: Path, best: Option<Match>, root: Root)
    requires IsDeepest(roots, normalized, best)
    ensures var first := Better(best, normalized, Match(root, root.canonical));
      IsDeepest(roots + [root], normalized, Better(first, normalized, Match(root, root.requested)))
  {
    forall m | Matches(roots + [root], normalized, m)
      ensures Matches(roots, normalized, m) || m == Match(root, root.canonical) || m == Match(root, root.requested)
    {
    }
    forall m | Matches(roots, normalized, m) ensures Matches(roots + [root], normalized, m) {
    }
  }

  /** The path is its root and its components, which are what follows the deepest matching prefix, the first on a tie. */
  ghost predicate AuthorizedBy(roots: seq<Root>, normalized: Path, a: Authorized) {
    && a.root in roots
    && a.canonical == a.root.canonical + a.components
    && (forall i :: 0 <= i < |a.components| ==> a.components[i].Normal?)
    && exists m ::
      && IsDeepest(roots, normalized, Some(m)) && IsEarliest(roots, normalized, m)
      && m.root == a.root && normalized == m.prefix + a.components
  }

  method Authorize(roots: seq<Root>, requested: Path) returns (r: Result<Authorized, RootError>)
    requires forall root :: root in roots ==> IsAbsolute(root.canonical) && IsAbsolute(root.requested)
    ensures r.Err? ==> r.error == UnauthorizedPath
    ensures r.Ok? <==>
      IsAbsolute(requested) && Normalize(requested).Ok? && exists m :: Matches(roots, Normalize(requested).value, m)
    ensures r.Ok? ==> AuthorizedBy(roots, Normalize(requested).value, r.value)
  {
    if !IsAbsolute(requested) {
      return Err(UnauthorizedPath);
    }
    var result := NormalizeAbsolute(requested);
    if result.Err? {
      return Err(result.error);
    }
    var normalized := result.value;
    var best: Option<Match> := None;
    for i := 0 to |roots|
      invariant IsDeepest(roots[..i], normalized, best)
      invariant best.Some? ==> IsEarliest(roots[..i], normalized, best.value)
    {
      EarliestNext(roots[..i], normalized, best, roots[i]);
      DeepestNext(roots[..i], normalized, best, roots[i]);
      TakeNext(roots, i);
      best := Better(best, normalized, Match(roots[i], roots[i].canonical));
      best := Better(best, normalized, Match(roots[i], roots[i].requested));
    }
    assert roots[..|roots|] == roots;
    if best.None? {
      return Err(UnauthorizedPath);
    }
    var Match(root, prefix) := best.value;
    var relative := normalized[|prefix|..];
    assert normalized == prefix + relative;
    for i := 0 to |relative|
      invariant forall j :: 0 <= j < i ==> relative[j].Normal?
    {
      if !relative[i].Normal? {
        return Err(UnsafePath);
      }
    }
    return Ok(Authorized(root, root.canonical + relative, relative));
  }

  lemma PrefixesCompare(a: Path, b: Path, path: Path)
    requires a <= path && b <= path
    ensures a <= b || b <= a
  {
    assert a == path[..|a|] && b == path[..|b|];
  }

  /** Among roots that do not overlap, an authorized path lies beneath its own root and no other. */
  lemma BeneathExactlyOneRoot(roots: seq<Root>, path: Path, components: Path, i: nat)
    requires IsAntichain(roots) && i < |roots| && path == roots[i].canonical + components
    ensures forall j :: 0 <= j < |roots| ==> (roots[j].canonical <= path <==> j == i)
  {
    forall j | 0 <= j < |roots| ensures roots[j].canonical <= path <==> j == i {
      if roots[j].canonical <= path {
        PrefixesCompare(roots[i].canonical, roots[j].canonical, path);
      }
    }
  }

  /** `canonicalize` promises absolute paths without links or dots, so built roots are fit for authorization. */
  lemma BuiltRootsAreCanonical(probe: Path -> Probe, requested: seq<Path>, i: nat)
    requires forall path :: probe(path).Directory? ==> IsCanonical(probe(path).canonical)
    requires i < |requested| && Capability(probe, requested, i).Ok?
    ensures var root := Capability(probe, requested, i).value;
      IsCanonical(root.canonical) && IsCanonical(root.requested)
  {
    NormalizedIsCanonical(requested[i]);
  }

  /** A path of names below a requested root, spelled as it was requested or canonically, is authorized. */
  lemma RequestedIsAuthorized(probe: Path -> Probe, requested: seq<Path>, i: nat, roots: seq<Root>, names: Path)
    requires forall path :: probe(path).Directory? ==> IsCanonical(probe(path).canonical)
    requires i < |requested| && probe(requested[i]).Directory? && Capability(probe, requested, i).Ok?
    requires Capability(probe, requested, i).value in roots && forall j :: 0 <= j < |names| ==> names[j].Normal?
    ensures var path := requested[i] + names;
      Normalize(path).Ok? && exists m :: Matches(roots, Normalize(path).value, m) && m.root.inputIndex == i
    ensures var path := probe(requested[i]).canonical + names;
      Normalize(path) == Ok(path) && exists m :: Matches(roots, path, m) && m.root.inputIndex == i
  {
    var root := Capability(probe, requested, i).value;
    BuiltRootsAreCanonical(probe, requested, i);
    NormalizeComposes(requested[i], names);
    CanonicalIsFixed(root.requested + names);
    CanonicalIsFixed(root.canonical + names);
    assert Matches(roots, root.requested + names, Match(root, root.requested));
    assert Matches(roots, root.canonical + names, Match(root, root.canonical));
  }

  /** What authorization returns needs no further normalization. */
  lemma AuthorizedIsNormal(roots: seq<Root>, normalized: Path, a: Authorized)
    requires AuthorizedBy(roots, normalized, a) && IsCanonical(a.root.canonical)
    ensures Normalize(a.canonical) == Ok(a.canonical)
  {
    CanonicalIsFixed(a.canonical);
  }
}
