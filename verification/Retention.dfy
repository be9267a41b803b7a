/** Planning which stored segments to delete, and deleting them in bounded transactions. */
module Retention {
  import opened Prelude
  import opened Ordering

  datatype Category = Terminal | RawProtocol | DebugLog

  datatype Record = Record(
    id: string,
    category: Category,
    owner: string,
    createdAt: int,
    bytes: nat,
    path: string)

  datatype Policy = Policy(enabled: bool, maxBytesPerOwner: Option<nat>, maxAge: Option<int>)

  datatype Policies = Policies(terminal: Policy, rawProtocol: Policy, debugLog: Policy) {
    function For(category: Category): Policy {
      match category
      case Terminal => terminal
      case RawProtocol => rawProtocol
      case DebugLog => debugLog
    }
  }

  // ----- the three orders

  function Rank(category: Category): nat {
    match category
    case Terminal => 0
    case RawProtocol => 1
    case DebugLog => 2
  }

  predicate SameKey(a: Record, b: Record) {
    a.category == b.category && a.id == b.id
  }

  predicate KeyLe(a: Record, b: Record) {
    Rank(a.category) < Rank(b.category) || (a.category == b.category && StringLe(a.id, b.id))
  }

  /** Oldest first. */
  predicate AgeLe(a: Record, b: Record) {
    a.createdAt < b.createdAt || (a.createdAt == b.createdAt && StringLe(a.id, b.id))
  }

  predicate PlanLe(a: Record, b: Record) {
    Rank(a.category) < Rank(b.category) || (a.category == b.category && AgeLe(a, b))
  }

  lemma OrdersAreTotal()
    ensures TotalPreorder(KeyLe) && TotalPreorder(AgeLe) && TotalPreorder(PlanLe)
    ensures forall a, b :: KeyLe(a, b) && KeyLe(b, a) <==> SameKey(a, b)
    ensures forall a, b :: AgeLe(a, b) && AgeLe(b, a) <==> a.createdAt == b.createdAt && a.id == b.id
    ensures forall a, b :: PlanLe(a, b) && PlanLe(b, a) <==> SameKey(a, b) && a.createdAt == b.createdAt
  {
    StringOrder();
  }

  // ----- which records a plan selects

  function Filter(keep: Record -> bool, s: seq<Record>): seq<Record> {
    if s == [] then []
    else if keep(s[0]) then [s[0]] + Filter(keep, s[1..])
    else Filter(keep, s[1..])
  }

  lemma {:induction false} FilterMembers(keep: Record -> bool, s: seq<Record>)
    ensures forall x :: x in Filter(keep, s) <==> x in s && keep(x)
  {
    if s != [] {
      FilterMembers(keep, s[1..]);
    }
  }

  function Bytes(s: seq<Record>): nat {
    if s == [] then 0 else s[0].bytes + Bytes(s[1..])
  }

  /** The first record with the key of `r`, which is the one that deduplication keeps. */
  function First(s: seq<Record>, r: Record): Option<Record> {
    if s == [] then None else if SameKey(s[0], r) then Some(s[0]) else First(s[1..], r)
  }

  predicate Aged(policy: Policy, now: int, r: Record) {
    policy.maxAge.Some? && r.createdAt < now - policy.maxAge.value
  }

  function Shares(policy: Policy, now: int, category: Category, owner: string): Record -> bool {
    (x: Record) => x.category == category && x.owner == owner && !Aged(policy, now, x)
  }

  /** The records that share a byte budget: one category, one owner, not over age. */
  function Cohort(records: seq<Record>, policy: Policy, now: int, category: Category, owner: string): (s: seq<Record>)
    ensures forall x :: x in s <==> x in records && x.category == category && x.owner == owner && !Aged(policy, now, x)
  {
    FilterMembers(Shares(policy, now, category, owner), records);
    Filter(Shares(policy, now, category, owner), records)
  }

  predicate Before(a: Record, b: Record) {
    AgeLe(a, b) && a != b
  }

  function BeforeThe(r: Record): Record -> bool {
    x => Before(x, r)
  }

  /** The bytes of the cohort older than `r`. */
  function Older(cohort: seq<Record>, r: Record): nat {
    Bytes(Filter(BeforeThe(r), cohort))
  }

  /** The deletion that a total computed in `u64` asks for. */
  predicate OverBudget(cohort: seq<Record>, maximum: nat, r: Record) {
    Min(Bytes(cohort), U64_MAX) > maximum + Older(cohort, r)
  }

  predicate Selected(records: seq<Record>, policy: Policy, now: int, r: Record) {
    && r in records
    && (|| !policy.enabled
        || Aged(policy, now, r)
        || (policy.maxBytesPerOwner.Some?
            && OverBudget(Cohort(records, policy, now, r.category, r.owner), policy.maxBytesPerOwner.value, r)))
  }

  ghost predicate DistinctKeys(s: seq<Record>) {
    forall i, j :: 0 <= i < j < |s| ==> !SameKey(s[i], s[j])
  }

  /** What a plan is, said without its algorithm. */
  ghost predicate IsPlan(records: seq<Record>, policies: Policies, now: int, candidates: seq<Record>) {
    && SortedBy(PlanLe, candidates)
    && DistinctKeys(candidates)
    && forall r :: r in candidates <==> Selected(records, policies.For(r.category), now, r)
  }

  // ----- sums over filtered and sorted records

  lemma {:induction false} FilterAppend(keep: Record -> bool, a: seq<Record>, b: seq<Record>)
    ensures Filter(keep, a + b) == Filter(keep, a) + Filter(keep, b)
  {
    if a == [] {
      assert a + b == b;
    } else {
      assert (a + b)[1..] == a[1..] + b;
      FilterAppend(keep, a[1..], b);
      assert (a + b)[0] == a[0];
    }
  }

  lemma {:induction false} FilterAll(keep: Record -> bool, s: seq<Record>)
    requires forall x :: x in s ==> keep(x)
    ensures Filter(keep, s) == s
  {
    if s != [] {
      FilterAll(keep, s[1..]);
    }
  }

  lemma {:induction false} FilterNone(keep: Record -> bool, s: seq<Record>)
    requires forall x :: x in s ==> !keep(x)
    ensures Filter(keep, s) == []
  {
    if s != [] {
      FilterNone(keep, s[1..]);
    }
  }

  lemma {:induction false} BytesAppend(a: seq<Record>, b: seq<Record>)
    ensures Bytes(a + b) == Bytes(a) + Bytes(b)
  {
    if a == [] {
      assert a + b == b;
    } else {
      assert (a + b)[1..] == a[1..] + b;
      BytesAppend(a[1..], b);
    }
  }

  lemma {:induction false} FilterBytesStep(keep: Record -> bool, s: seq<Record>)
    requires s != []
    ensures Bytes(Filter(keep, s)) == (if keep(s[0]) then s[0].bytes else 0) + Bytes(Filter(keep, s[1..]))
  {
    if keep(s[0]) {
      assert Filter(keep, s)[1..] == Filter(keep, s[1..]);
    }
  }

  lemma {:induction false} InsertBytes(le: (Record, Record) -> bool, keep: Record -> bool, x: Record, s: seq<Record>)
    ensures Bytes(Filter(keep, Insert(le, x, s))) == Bytes(Filter(keep, s)) + if keep(x) then x.bytes else 0
  {
    var r := Insert(le, x, s);
    FilterBytesStep(keep, r);
    if s == [] || le(x, s[0]) {
      assert r[0] == x && r[1..] == s;
    } else {
      assert r[0] == s[0] && r[1..] == Insert(le, x, s[1..]);
      InsertBytes(le, keep, x, s[1..]);
      FilterBytesStep(keep, s);
    }
  }

  lemma {:induction false} SortBytes(le: (Record, Record) -> bool, keep: Record -> bool, s: seq<Record>)
    ensures Bytes(Filter(keep, Sort(le, s))) == Bytes(Filter(keep, s))
  {
    if s != [] {
      SortBytes(le, keep, s[1..]);
      FilterBytesStep(keep, s);
      InsertBytes(le, keep, s[0], Sort(le, s[1..]));
    }
  }

  // ----- deduplication

  /** `dedup_by` on the key: an element is dropped when it has the key of the last one kept. */
  method Deduplicate(s: seq<Record>) returns (kept: seq<Record>)
    ensures kept == Dedup(s)
  {
    kept := [];
    for i := 0 to |s|
      invariant kept == Dedup(s[..i])
    {
      TakeNext(s, i);
      if kept == [] || !SameKey(kept[|kept| - 1], s[i]) {
        kept := kept + [s[i]];
      }
    }
    assert s[..|s|] == s;
  }

  function Dedup(s: seq<Record>): seq<Record> {
    if s == [] then []
    else
      var kept, last := Dedup(s[..|s| - 1]), s[|s| - 1];
      if kept == [] || !SameKey(kept[|kept| - 1], last) then kept + [last] else kept
  }

  /** `kept` lists the first record of every key in `s`. */
  ghost predicate Deduped(le: (Record, Record) -> bool, s: seq<Record>, kept: seq<Record>) {
    && SortedBy(le, kept) && DistinctKeys(kept)
    && forall r :: r in kept <==> First(s, r) == Some(r)
  }

  ghost predicate TiesAreKeys(le: (Record, Record) -> bool, s: seq<Record>) {
    forall a, b :: a in s && b in s ==> (SameKey(a, b) <==> le(a, b) && le(b, a))
  }

  /** On a list sorted so that equal keys are neighbours, the first of each key is kept, in order. */
  lemma {:induction false} DedupKeepsFirst(le: (Record, Record) -> bool, s: seq<Record>)
    requires TotalPreorder(le) && SortedBy(le, s) && TiesAreKeys(le, s)
    ensures Deduped(le, s, Dedup(s))
  {
    if s != [] {
      SortedPrefix(le, s);
      DedupKeepsFirst(le, s[..|s| - 1]);
      DedupExtends(le, s);
    }
  }

  lemma {:induction false} DedupExtends(le: (Record, Record) -> bool, s: seq<Record>)
    requires TotalPreorder(le) && SortedBy(le, s) && TiesAreKeys(le, s) && s != []
    requires Deduped(le, s[..|s| - 1], Dedup(s[..|s| - 1]))
    ensures Deduped(le, s, Dedup(s))
  {
    var prefix, last := s[..|s| - 1], s[|s| - 1];
    assert s == prefix + [last];
    DedupLast(prefix, last);
    DedupStep(le, prefix, Dedup(prefix), last);
  }

  lemma {:induction false} DedupLast(prefix: seq<Record>, last: Record)
    ensures var kept := Dedup(prefix);
      Dedup(prefix + [last]) == if kept == [] || !SameKey(kept[|kept| - 1], last) then kept + [last] else kept
  {
    assert (prefix + [last])[..|prefix|] == prefix;
  }

  lemma SortedPrefix(le: (Record, Record) -> bool, s: seq<Record>)
    requires s != [] && SortedBy(le, s) && TiesAreKeys(le, s)
    ensures SortedBy(le, s[..|s| - 1]) && TiesAreKeys(le, s[..|s| - 1])
  {
  }

  lemma DedupStep(le: (Record, Record) -> bool, prefix: seq<Record>, kept: seq<Record>, last: Record)
    requires TotalPreorder(le) && SortedBy(le, prefix + [last]) && TiesAreKeys(le, prefix + [last])
    requires Deduped(le, prefix, kept)
    ensures Deduped(le, prefix + [last],
                    if kept == [] || !SameKey(kept[|kept| - 1], last) then kept + [last] else kept)
  {
    KeptIsEarlier(le, prefix, kept, last);
    if kept == [] || !SameKey(kept[|kept| - 1], last) {
      NoneWithKey(le, prefix, kept, last);
      DedupAdds(le, prefix, kept, last);
    } else {
      DedupSkips(le, prefix, kept, last);
    }
  }

  lemma DedupAdds(le: (Record, Record) -> bool, prefix: seq<Record>, kept: seq<Record>, last: Record)
    requires Deduped(le, prefix, kept) && First(prefix, last) == None && forall r :: r in kept ==> le(r, last)
    ensures Deduped(le, prefix + [last], kept + [last])
  {
    KeptGrows(prefix, kept, last);
    NewKey(prefix, kept, last);
  }

  lemma DedupSkips(le: (Record, Record) -> bool, prefix: seq<Record>, kept: seq<Record>, last: Record)
    requires Deduped(le, prefix, kept) && kept != [] && SameKey(kept[|kept| - 1], last)
    ensures Deduped(le, prefix + [last], kept)
  {
    assert kept[|kept| - 1] in kept;
    FirstDependsOnKey(prefix, kept[|kept| - 1], last);
    KeptStays(prefix, last);
  }

  lemma KeptIsEarlier(le: (Record, Record) -> bool, prefix: seq<Record>, kept: seq<Record>, last: Record)
    requires SortedBy(le, prefix + [last]) && Deduped(le, prefix, kept)
    ensures forall r :: r in kept ==> r in prefix && le(r, last)
  {
    forall r | r in kept ensures r in prefix && le(r, last) {
      FirstIsMember(prefix, r);
      var i :| 0 <= i < |prefix| && prefix[i] == r;
      assert (prefix + [last])[i] == r && (prefix + [last])[|prefix|] == last;
    }
  }

  lemma KeptGrows(prefix: seq<Record>, kept: seq<Record>, last: Record)
    requires forall r :: r in kept <==> First(prefix, r) == Some(r)
    requires First(prefix, last) == None
    ensures forall r :: r in kept + [last] <==> First(prefix + [last], r) == Some(r)
  {
    forall r ensures r in kept + [last] <==> First(prefix + [last], r) == Some(r) {
      FirstAppend(prefix, last, r);
    }
  }

  lemma KeptStays(prefix: seq<Record>, last: Record)
    requires First(prefix, last).Some?
    ensures forall r :: First(prefix + [last], r) == First(prefix, r)
  {
    forall r ensures First(prefix + [last], r) == First(prefix, r) {
      FirstAppend(prefix, last, r);
      if SameKey(last, r) {
        FirstDependsOnKey(prefix, last, r);
      }
    }
  }

  lemma NewKey(prefix: seq<Record>, kept: seq<Record>, last: Record)
    requires forall r :: r in kept ==> First(prefix, r) == Some(r)
    requires First(prefix, last) == None && DistinctKeys(kept)
    ensures DistinctKeys(kept + [last])
  {
    forall i | 0 <= i < |kept| ensures !SameKey(kept[i], last) {
      if SameKey(kept[i], last) {
        FirstDependsOnKey(prefix, kept[i], last);
      }
    }
  }

  lemma {:induction false} FirstAppend(s: seq<Record>, last: Record, r: Record)
    ensures First(s + [last], r) == if First(s, r).Some? then First(s, r) else First([last], r)
  {
    if s == [] {
      assert [] + [last] == [last];
    } else {
      FirstAppend(s[1..], last, r);
      assert (s + [last])[1..] == s[1..] + [last];
    }
  }

  lemma {:induction false} FirstIsMember(s: seq<Record>, r: Record)
    requires First(s, r).Some?
    ensures First(s, r).value in s && SameKey(First(s, r).value, r)
  {
    if !SameKey(s[0], r) {
      FirstIsMember(s[1..], r);
    }
  }

  lemma {:induction false} FirstDependsOnKey(s: seq<Record>, a: Record, b: Record)
    requires SameKey(a, b)
    ensures First(s, a) == First(s, b)
  {
    if s != [] {
      FirstDependsOnKey(s[1..], a, b);
    }
  }

  lemma NoneWithKey(le: (Record, Record) -> bool, prefix: seq<Record>, kept: seq<Record>, last: Record)
    requires TotalPreorder(le) && TiesAreKeys(le, prefix + [last]) && Deduped(le, prefix, kept)
    requires forall r :: r in kept ==> r in prefix && le(r, last)
    requires kept == [] || !SameKey(kept[|kept| - 1], last)
    ensures First(prefix, last) == None
  {
    if First(prefix, last).Some? {
      var r := First(prefix, last).value;
      FirstIsMember(prefix, last);
      FirstDependsOnKey(prefix, r, last);
    }
  }

  lemma {:induction false} InsertFirst(x: Record, s: seq<Record>, r: Record)
    requires TotalPreorder(KeyLe) && SortedBy(KeyLe, s)
    requires forall a, b :: KeyLe(a, b) && KeyLe(b, a) <==> SameKey(a, b)
    ensures First(Insert(KeyLe, x, s), r) == if SameKey(x, r) then Some(x) else First(s, r)
  {
    if s != [] && !KeyLe(x, s[0]) {
      InsertFirst(x, s[1..], r);
    }
  }

  /** A stable sort keeps the first record of every key first. */
  lemma {:induction false} SortKeepsFirst(s: seq<Record>, r: Record)
    ensures First(Sort(KeyLe, s), r) == First(s, r)
  {
    if s != [] {
      OrdersAreTotal();
      SortKeepsFirst(s[1..], r);
      SortSorts(KeyLe, s[1..]);
      InsertFirst(s[0], Sort(KeyLe, s[1..]), r);
    }
  }

  /** The records a plan is made from: the first of each key, in key order. */
  function Unique(records: seq<Record>): seq<Record> {
    Dedup(Sort(KeyLe, records))
  }

  lemma UniqueKeepsFirst(records: seq<Record>)
    ensures Deduped(KeyLe, records, Unique(records))
  {
    OrdersAreTotal();
    SortSorts(KeyLe, records);
    DedupKeepsFirst(KeyLe, Sort(KeyLe, records));
    forall r ensures First(Sort(KeyLe, records), r) == First(records, r) {
      SortKeepsFirst(records, r);
    }
  }

  // ----- the byte budget of one owner

  /** How many of the oldest records go, when the running total starts at `total`. */
  function Cut(oldestFirst: seq<Record>, total: nat, maximum: nat): (n: nat)
    ensures n <= |oldestFirst|
  {
    if oldestFirst == [] || total <= maximum then 0
    else 1 + Cut(oldestFirst[1..], SaturatingSub(total, oldestFirst[0].bytes), maximum)
  }

  lemma {:induction false} CutIsExact(s: seq<Record>, total: nat, maximum: nat, i: nat)
    requires i < |s|
    ensures i < Cut(s, total, maximum) <==> total > maximum + Bytes(s[..i])
  {
    if i > 0 {
      assert s[..i][0] == s[0] && s[..i][1..] == s[1..][..i - 1];
      CutIsExact(s[1..], SaturatingSub(total, s[0].bytes), maximum, i - 1);
    }
  }

  method SelectOverBudget(ownerRecords: seq<Record>, maximum: nat) returns (selected: seq<Record>)
    ensures var s := Sort(AgeLe, ownerRecords);
      selected == s[..Cut(s, Min(Bytes(s), U64_MAX), maximum)]
  {
    var s := Sort(AgeLe, ownerRecords);
    var total: nat := 0;
    for i := 0 to |s|
      invariant total == Min(Bytes(s[..i]), U64_MAX)
    {
      TakeNext(s, i);
      BytesAppend(s[..i], [s[i]]);
      total := SaturatingAdd(total, s[i].bytes);
    }
    assert s[..|s|] == s;
    ghost var all := total;
    selected := [];
    for i := 0 to |s|
      invariant selected == s[..i]
      invariant Cut(s, all, maximum) == i + Cut(s[i..], total, maximum)
    {
      if total <= maximum {
        return;
      }
      TakeNext(s, i);
      assert s[i..][1..] == s[i + 1..];
      total := SaturatingSub(total, s[i].bytes);
      selected := selected + [s[i]];
    }
    assert s[..|s|] == s;
  }

  lemma {:induction false} FilterSame(p: Record -> bool, q: Record -> bool, s: seq<Record>)
    requires forall x :: x in s ==> p(x) == q(x)
    ensures Filter(p, s) == Filter(q, s)
  {
    if s != [] {
      FilterSame(p, q, s[1..]);
    }
  }

  lemma {:induction false} FilterTwice(p: Record -> bool, q: Record -> bool, s: seq<Record>)
    ensures Filter(p, Filter(q, s)) == Filter((x: Record) => q(x) && p(x), s)
  {
    if s != [] {
      FilterTwice(p, q, s[1..]);
      if q(s[0]) {
        assert Filter(q, s)[1..] == Filter(q, s[1..]);
      }
    }
  }

  lemma {:induction false} FilterDistinct(keep: Record -> bool, s: seq<Record>)
    requires Distinct(s)
    ensures Distinct(Filter(keep, s))
  {
    if s != [] {
      FilterDistinct(keep, s[1..]);
      FilterMembers(keep, s[1..]);
      assert forall i :: 0 <= i < |Filter(keep, s[1..])| ==> Filter(keep, s[1..])[i] in Filter(keep, s[1..]);
    }
  }

  /** Records of one category with their own ids, each once. */
  ghost predicate IsCohort(s: seq<Record>) {
    && Distinct(s)
    && forall a, b :: a in s && b in s && a.id == b.id ==> a == b
  }

  lemma {:induction false} BeforeIsIndex(s: seq<Record>, i: nat)
    requires SortedBy(AgeLe, s) && IsCohort(s) && i < |s|
    ensures forall x :: x in s[..i] ==> Before(x, s[i])
    ensures forall x :: x in s[i..] ==> !Before(x, s[i])
  {
    OrdersAreTotal();
    forall x | x in s[..i] ensures Before(x, s[i]) {
      var j :| 0 <= j < i && s[j] == x;
    }
    forall x | x in s[i..] ensures !Before(x, s[i]) {
      var j :| i <= j < |s| && s[j] == x;
      assert j > i ==> AgeLe(s[i], x);
    }
  }

  lemma {:induction false} OlderIsPrefix(s: seq<Record>, i: nat)
    requires SortedBy(AgeLe, s) && IsCohort(s) && i < |s|
    ensures Older(s, s[i]) == Bytes(s[..i])
  {
    var before := BeforeThe(s[i]);
    BeforeIsIndex(s, i);
    FilterAll(before, s[..i]);
    FilterNone(before, s[i..]);
    FilterAppend(before, s[..i], s[i..]);
    assert s == s[..i] + s[i..];
    assert Filter(before, s) == s[..i];
  }

  /** Oldest first, the deleted records are exactly those over budget. */
  lemma CutIsOverBudget(cohort: seq<Record>, maximum: nat)
    requires IsCohort(cohort)
    ensures var s := Sort(AgeLe, cohort);
      forall r :: r in s[..Cut(s, Min(Bytes(s), U64_MAX), maximum)] <==> r in cohort && OverBudget(cohort, maximum, r)
  {
    var s := Sort(AgeLe, cohort);
    var n := Cut(s, Min(Bytes(s), U64_MAX), maximum);
    SortIsCohort(cohort);
    forall i | 0 <= i < |s| ensures i < n <==> OverBudget(cohort, maximum, s[i]) {
      CutIsExact(s, Min(Bytes(s), U64_MAX), maximum, i);
      OlderIsPrefix(s, i);
      SortBytes(AgeLe, BeforeThe(s[i]), cohort);
    }
    forall r ensures r in s[..n] <==> r in cohort && OverBudget(cohort, maximum, r) {
      if r in cohort && OverBudget(cohort, maximum, r) {
        assert r in s;
        var i :| 0 <= i < |s| && s[i] == r;
        assert s[..n][i] == r;
      }
    }
  }

  lemma SortIsCohort(cohort: seq<Record>)
    requires IsCohort(cohort)
    ensures var s := Sort(AgeLe, cohort);
      && SortedBy(AgeLe, s) && IsCohort(s) && Bytes(s) == Bytes(cohort)
      && forall r :: r in s <==> r in cohort
  {
    OrdersAreTotal();
    SortSorts(AgeLe, cohort);
    SortMembers(AgeLe, cohort);
    SortDistinct(AgeLe, cohort);
    var all := (x: Record) => true;
    SortBytes(AgeLe, all, cohort);
    FilterAll(all, cohort);
    FilterAll(all, Sort(AgeLe, cohort));
  }

  // ----- the planner

  function OwnedBy(owner: string): Record -> bool {
    (x: Record) => x.owner == owner
  }

  lemma OwnerNext(s: seq<Record>, i: nat)
    requires i < |s|
    ensures forall owner ::
      Filter(OwnedBy(owner), s[..i + 1]) == Filter(OwnedBy(owner), s[..i]) + if s[i].owner == owner then [s[i]] else []
  {
    TakeNext(s, i);
    forall owner
      ensures Filter(OwnedBy(owner), s[..i + 1]) ==
        Filter(OwnedBy(owner), s[..i]) + if s[i].owner == owner then [s[i]] else []
    {
      FilterAppend(OwnedBy(owner), s[..i], [s[i]]);
    }
  }

  /** The groups of the first `i` records. */
  ghost predicate Grouped(retained: seq<Record>, i: nat, byOwner: map<string, seq<Record>>)
    requires i <= |retained|
  {
    && (forall owner :: owner in byOwner ==> byOwner[owner] == Filter(OwnedBy(owner), retained[..i]))
    && (forall owner :: owner !in byOwner ==> Filter(OwnedBy(owner), retained[..i]) == [])
    && (forall j :: 0 <= j < i ==> retained[j].owner in byOwner)
  }

  lemma GroupNext(retained: seq<Record>, i: nat, byOwner: map<string, seq<Record>>)
    requires i < |retained| && Grouped(retained, i, byOwner)
    ensures var r := retained[i];
      Grouped(retained, i + 1, byOwner[r.owner := (if r.owner in byOwner then byOwner[r.owner] else []) + [r]])
  {
    OwnerNext(retained, i);
  }

  method GroupByOwner(retained: seq<Record>) returns (byOwner: map<string, seq<Record>>)
    ensures forall owner :: owner in byOwner ==> byOwner[owner] == Filter(OwnedBy(owner), retained)
    ensures forall r :: r in retained ==> r.owner in byOwner
  {
    byOwner := map[];
    for i := 0 to |retained|
      invariant Grouped(retained, i, byOwner)
    {
      GroupNext(retained, i, byOwner);
      var record := retained[i];
      var group := if record.owner in byOwner then byOwner[record.owner] else [];
      byOwner := byOwner[record.owner := group + [record]];
    }
    assert retained[..|retained|] == retained;
  }

  function InCategory(category: Category): Record -> bool {
    (x: Record) => x.category == category
  }

  function OverAge(policy: Policy, now: int): Record -> bool {
    (x: Record) => Aged(policy, now, x)
  }

  function WithinAge(policy: Policy, now: int): Record -> bool {
    (x: Record) => !Aged(policy, now, x)
  }

  method SplitByAge(records: seq<Record>, policy: Policy, now: int) returns (selected: seq<Record>, retained: seq<Record>)
    ensures selected == Filter(OverAge(policy, now), records)
    ensures retained == Filter(WithinAge(policy, now), records)
  {
    selected, retained := [], [];
    for i := 0 to |records|
      invariant selected == Filter(OverAge(policy, now), records[..i])
      invariant retained == Filter(WithinAge(policy, now), records[..i])
    {
      TakeNext(records, i);
      FilterAppend(OverAge(policy, now), records[..i], [records[i]]);
      FilterAppend(WithinAge(policy, now), records[..i], [records[i]]);
      if Aged(policy, now, records[i]) {
        selected := selected + [records[i]];
      } else {
        retained := retained + [records[i]];
      }
    }
    assert records[..|records|] == records;
  }

  lemma CohortOfRetained(records: seq<Record>, policy: Policy, now: int, category: Category, owner: string)
    ensures Filter(OwnedBy(owner), Filter(WithinAge(policy, now), Filter(InCategory(category), records)))
         == Cohort(records, policy, now, category, owner)
  {
    var inner := (x: Record) => InCategory(category)(x) && WithinAge(policy, now)(x);
    FilterTwice(WithinAge(policy, now), InCategory(category), records);
    FilterTwice(OwnedBy(owner), inner, records);
    FilterSame((x: Record) => inner(x) && OwnedBy(owner)(x), Shares(policy, now, category, owner), records);
  }

  lemma CohortIsCohort(records: seq<Record>, policy: Policy, now: int, category: Category, owner: string)
    requires DistinctKeys(records)
    ensures IsCohort(Cohort(records, policy, now, category, owner))
  {
    assert Distinct(records) by {
      assert forall i, j :: 0 <= i < j < |records| ==> !SameKey(records[i], records[j]);
    }
    FilterDistinct(Shares(policy, now, category, owner), records);
  }

  /** A record of an enabled category that the age rule, or the budget of an owner in `owners`, selects. */
  ghost predicate Chosen(
    records: seq<Record>, policy: Policy, now: int, category: Category, maximum: nat, owners: set<string>, r: Record)
  {
    && r in records && r.category == category
    && (Aged(policy, now, r)
        || (r.owner in owners && OverBudget(Cohort(records, policy, now, category, r.owner), maximum, r)))
  }

  /** The budgets of all owners, taken in whatever order the hash map yields them. */
  method SelectByOwner(
    byOwner: map<string, seq<Record>>, maximum: nat, aged: seq<Record>,
    ghost records: seq<Record>, ghost policy: Policy, ghost now: int, ghost category: Category)
    returns (selected: seq<Record>)
    requires DistinctKeys(records)
    requires forall owner :: owner in byOwner ==> byOwner[owner] == Cohort(records, policy, now, category, owner)
    requires forall r :: r in aged <==> r in records && r.category == category && Aged(policy, now, r)
    ensures forall r :: r in selected <==> Chosen(records, policy, now, category, maximum, byOwner.Keys, r)
  {
    selected := aged;
    var remaining := byOwner.Keys;
    while remaining != {}
      invariant remaining <= byOwner.Keys
      invariant forall r :: r in selected <==>
        Chosen(records, policy, now, category, maximum, byOwner.Keys - remaining, r)
    {
      var owner :| owner in remaining;
      var over := SelectOverBudget(byOwner[owner], maximum);
      CohortIsCohort(records, policy, now, category, owner);
      CutIsOverBudget(byOwner[owner], maximum);
      selected := selected + over;
      remaining := remaining - {owner};
    }
  }

  method PlanCategory(records: seq<Record>, category: Category, policy: Policy, now: int) returns (selected: seq<Record>)
    requires DistinctKeys(records)
    ensures forall r :: r in selected <==> r.category == category && Selected(records, policy, now, r)
  {
    var categoryRecords := Filter(InCategory(category), records);
    FilterMembers(InCategory(category), records);
    if !policy.enabled {
      return categoryRecords;
    }
    var aged, retained := SplitByAge(categoryRecords, policy, now);
    FilterMembers(OverAge(policy, now), categoryRecords);
    FilterMembers(WithinAge(policy, now), categoryRecords);
    if policy.maxBytesPerOwner.None? {
      return aged;
    }
    var byOwner := GroupByOwner(retained);
    forall owner | owner in byOwner ensures byOwner[owner] == Cohort(records, policy, now, category, owner) {
      CohortOfRetained(records, policy, now, category, owner);
    }
    selected := SelectByOwner(byOwner, policy.maxBytesPerOwner.value, aged, records, policy, now, category);
  }

  const CATEGORIES := [Terminal, RawProtocol, DebugLog]

  /** The planner: deduplicate, select category by category, put in order. */
  method FromRecords(records: seq<Record>, policies: Policies, now: int) returns (candidates: seq<Record>)
    ensures IsPlan(Unique(records), policies, now, candidates)
  {
    var unique := Deduplicate(Sort(KeyLe, records));
    UniqueKeepsFirst(records);
    var selected: seq<Record> := [];
    for i := 0 to |CATEGORIES|
      invariant forall r: Record :: r in selected <==>
        Rank(r.category) < i && Selected(unique, policies.For(r.category), now, r)
    {
      var more := PlanCategory(unique, CATEGORIES[i], policies.For(CATEGORIES[i]), now);
      selected := selected + more;
    }
    candidates := Deduplicate(Sort(PlanLe, selected));
    DedupIsPlan(unique, selected);
  }

  lemma DedupIsPlan(unique: seq<Record>, selected: seq<Record>)
    requires DistinctKeys(unique) && forall r :: r in selected ==> r in unique
    ensures var plan := Dedup(Sort(PlanLe, selected));
      SortedBy(PlanLe, plan) && DistinctKeys(plan) && forall r :: r in plan <==> r in selected
  {
    var sorted := Sort(PlanLe, selected);
    OrdersAreTotal();
    SortSorts(PlanLe, selected);
    SortMembers(PlanLe, selected);
    assert forall a, b :: a in unique && b in unique && SameKey(a, b) ==> a == b;
    DedupKeepsFirst(PlanLe, sorted);
    forall r ensures First(sorted, r) == Some(r) <==> r in selected {
      if r in selected {
        FirstExists(sorted, r);
        FirstIsMember(sorted, r);
      } else if First(sorted, r).Some? {
        FirstIsMember(sorted, r);
      }
    }
  }

  lemma {:induction false} FirstExists(s: seq<Record>, r: Record)
    requires r in s
    ensures First(s, r).Some?
  {
    if !SameKey(s[0], r) {
      FirstExists(s[1..], r);
    }
  }

  // ----- what a plan guarantees

  /** One plan for one record set: the order in which owners are visited leaves no trace. */
  lemma PlanIsUnique(records: seq<Record>, policies: Policies, now: int, a: seq<Record>, b: seq<Record>)
    requires IsPlan(records, policies, now, a) && IsPlan(records, policies, now, b)
    ensures a == b
  {
    OrdersAreTotal();
    SortedListingUnique(PlanLe, a, b);
  }

  lemma {:induction false} FirstOfDistinct(records: seq<Record>, r: Record)
    requires DistinctKeys(records)
    ensures First(records, r) == Some(r) <==> r in records
  {
    if First(records, r).Some? {
      FirstIsMember(records, r);
    }
    if r in records {
      FirstExists(records, r);
    }
  }

  /** With unique keys, plans do not depend on the order in which the records were loaded. */
  lemma InputOrderIsIrrelevant(
    records: seq<Record>, shuffled: seq<Record>, policies: Policies, now: int, a: seq<Record>, b: seq<Record>)
    requires multiset(records) == multiset(shuffled) && DistinctKeys(records) && DistinctKeys(shuffled)
    requires IsPlan(Unique(records), policies, now, a) && IsPlan(Unique(shuffled), policies, now, b)
    ensures a == b
  {
    UniqueOfShuffled(records, shuffled);
    PlanIsUnique(Unique(records), policies, now, a, b);
  }

  lemma UniqueOfShuffled(records: seq<Record>, shuffled: seq<Record>)
    requires multiset(records) == multiset(shuffled) && DistinctKeys(records) && DistinctKeys(shuffled)
    ensures Unique(records) == Unique(shuffled)
    ensures forall r :: r in Unique(records) <==> r in records
  {
    UniqueKeepsFirst(records);
    UniqueKeepsFirst(shuffled);
    MultisetMembers(records, shuffled);
    forall r
      ensures r in Unique(records) <==> r in records
      ensures r in Unique(shuffled) <==> r in shuffled
    {
      FirstOfDistinct(records, r);
      FirstOfDistinct(shuffled, r);
    }
    OrdersAreTotal();
    SortedListingUnique(KeyLe, Unique(records), Unique(shuffled));
  }

  lemma {:induction false} FilterSorted(le: (Record, Record) -> bool, keep: Record -> bool, s: seq<Record>)
    requires SortedBy(le, s)
    ensures SortedBy(le, Filter(keep, s))
  {
    if s != [] {
      FilterSorted(le, keep, s[1..]);
      FilterMembers(keep, s[1..]);
      assert forall i :: 0 <= i < |Filter(keep, s[1..])| ==> Filter(keep, s[1..])[i] in Filter(keep, s[1..]);
    }
  }

  /** Changing the policies of other categories leaves a category's candidates as they were. */
  lemma CategoriesAreIndependent(
    records: seq<Record>, now: int, category: Category, p: Policies, q: Policies, a: seq<Record>, b: seq<Record>)
    requires p.For(category) == q.For(category) && IsPlan(records, p, now, a) && IsPlan(records, q, now, b)
    ensures Filter(InCategory(category), a) == Filter(InCategory(category), b)
  {
    var keep := InCategory(category);
    FilterMembers(keep, a);
    FilterMembers(keep, b);
    FilterSorted(PlanLe, keep, a);
    FilterSorted(PlanLe, keep, b);
    FilterDistinct(keep, a);
    FilterDistinct(keep, b);
    OrdersAreTotal();
    SortedListingUnique(PlanLe, Filter(keep, a), Filter(keep, b));
  }

  // ----- plans in terms of the records alone

  /** Records with one category and one id are one record. */
  ghost predicate IdsAreUnique(records: seq<Record>) {
    forall i, j :: 0 <= i < j < |records| ==> records[i].category != records[j].category || records[i].id != records[j].id
  }

  /** With unique ids, nothing is lost before the selection. */
  lemma UniqueIdsAllCount(records: seq<Record>)
    requires IdsAreUnique(records)
    ensures DistinctKeys(records) && forall r :: r in Unique(records) <==> r in records
  {
    UniqueKeepsFirst(records);
    forall r ensures r in Unique(records) <==> r in records {
      FirstOfDistinct(records, r);
    }
  }

  /** A disabled category is planned whole. */
  lemma DisabledGoesWhole(records: seq<Record>, policies: Policies, now: int, plan: seq<Record>, r: Record)
    requires IdsAreUnique(records) && IsPlan(Unique(records), policies, now, plan)
    requires !policies.For(r.category).enabled
    ensures r in plan <==> r in records
  {
    UniqueIdsAllCount(records);
  }

  /** Neither an age nor a byte limit. */
  predicate Unlimited(policy: Policy) {
    policy.maxBytesPerOwner.None? && policy.maxAge.None?
  }

  /** Each category answers to its own policy: without limits the plan is exactly what the disabled categories hold. */
  lemma EachCategoryHasItsPolicy(records: seq<Record>, policies: Policies, now: int, plan: seq<Record>, r: Record)
    requires IdsAreUnique(records) && IsPlan(Unique(records), policies, now, plan)
    requires Unlimited(policies.terminal) && Unlimited(policies.rawProtocol) && Unlimited(policies.debugLog)
    ensures r in plan <==>
      && r in records
      && (|| (r.category == Terminal && !policies.terminal.enabled)
          || (r.category == RawProtocol && !policies.rawProtocol.enabled)
          || (r.category == DebugLog && !policies.debugLog.enabled))
  {
    UniqueIdsAllCount(records);
  }

  /** In an enabled category without a byte limit exactly the records older than the maximum age are planned. */
  lemma AgeAloneDecides(records: seq<Record>, policies: Policies, now: int, plan: seq<Record>, r: Record)
    requires IdsAreUnique(records) && IsPlan(Unique(records), policies, now, plan)
    requires policies.For(r.category).enabled && policies.For(r.category).maxBytesPerOwner.None?
    ensures var age := policies.For(r.category).maxAge;
      r in plan <==> r in records && age.Some? && now - r.createdAt > age.value
    ensures r in plan ==>
      forall x :: x in records && x.category == r.category && x.createdAt <= r.createdAt ==> x in plan
  {
    UniqueIdsAllCount(records);
  }

  /** Byte-budget deletions go by creation time: whatever the owner created earlier goes too. */
  lemma OldestGoFirst(records: seq<Record>, policies: Policies, now: int, plan: seq<Record>, r: Record, x: Record)
    requires IsPlan(Unique(records), policies, now, plan) && r in plan
    requires x in Unique(records) && x.category == r.category && x.owner == r.owner
    requires x.createdAt < r.createdAt || (x.createdAt == r.createdAt && x.id != r.id && StringLe(x.id, r.id))
    ensures x in plan
  {
    var policy, unique := policies.For(r.category), Unique(records);
    UniqueKeepsFirst(records);
    if policy.enabled && !Aged(policy, now, r) && !Aged(policy, now, x) {
      CohortIsCohort(unique, policy, now, r.category, r.owner);
      DeletionsAreOldest(Cohort(unique, policy, now, r.category, r.owner), policy.maxBytesPerOwner.value, x, r);
    }
  }

  /** Candidates are listed by category, then by creation time, then by id. */
  lemma PlanIsListedByAge(records: seq<Record>, policies: Policies, now: int, plan: seq<Record>, i: nat, j: nat)
    requires IsPlan(records, policies, now, plan) && i < j < |plan|
    ensures var a, b := plan[i], plan[j];
      && Rank(a.category) <= Rank(b.category)
      && (a.category == b.category ==> a.createdAt <= b.createdAt)
      && (a.category == b.category && a.createdAt == b.createdAt ==> StringLe(a.id, b.id) && a.id != b.id)
  {
    assert PlanLe(plan[i], plan[j]) && !SameKey(plan[i], plan[j]);
  }

  // ----- budgets

  function Survives(cohort: seq<Record>, maximum: nat): Record -> bool {
    (x: Record) => !OverBudget(cohort, maximum, x)
  }

  /** What is left of a cohort after its byte-budget deletions. */
  function Survivors(cohort: seq<Record>, maximum: nat): seq<Record> {
    Filter(Survives(cohort, maximum), cohort)
  }

  lemma SuffixBytes(keep: Record -> bool, s: seq<Record>, n: nat)
    requires n <= |s|
    requires (forall x :: x in s[..n] ==> !keep(x)) && (forall x :: x in s[n..] ==> keep(x))
    ensures Bytes(Filter(keep, s)) == Bytes(s[n..])
  {
    FilterNone(keep, s[..n]);
    FilterAll(keep, s[n..]);
    FilterAppend(keep, s[..n], s[n..]);
    assert s == s[..n] + s[n..];
    assert [] + s[n..] == s[n..];
  }

  lemma DistinctHalves(s: seq<Record>, n: nat)
    requires Distinct(s) && n <= |s|
    ensures forall x :: x in s[n..] ==> x !in s[..n] && x in s
  {
  }

  lemma SurvivorsAreSuffix(cohort: seq<Record>, maximum: nat)
    requires IsCohort(cohort)
    ensures var s := Sort(AgeLe, cohort);
      var n := Cut(s, Min(Bytes(s), U64_MAX), maximum);
      Bytes(Survivors(cohort, maximum)) == Bytes(s[n..])
  {
    var s, keep := Sort(AgeLe, cohort), Survives(cohort, maximum);
    var n := Cut(s, Min(Bytes(s), U64_MAX), maximum);
    CutIsOverBudget(cohort, maximum);
    SortIsCohort(cohort);
    SortBytes(AgeLe, keep, cohort);
    DistinctHalves(s, n);
    SuffixBytes(keep, s, n);
  }

  lemma SplitBytes(s: seq<Record>, n: nat)
    requires n <= |s|
    ensures Bytes(s) == Bytes(s[..n]) + Bytes(s[n..])
  {
    BytesAppend(s[..n], s[n..]);
    assert s == s[..n] + s[n..];
  }

  ghost predicate NoPrefixSaturates(oldestFirst: seq<Record>, maximum: nat) {
    forall i :: 0 <= i <= |oldestFirst| ==>
      !(U64_MAX - maximum <= Bytes(oldestFirst[..i]) < Bytes(oldestFirst) - maximum)
  }

  /**
   The survivors of an owner fit the budget exactly when no prefix of the oldest records has a size
   in [2^64 - 1 - maximum, total - maximum): an interval that is empty when the total fits in `u64`.
   */
  lemma SurvivorsFitExactly(cohort: seq<Record>, maximum: nat)
    requires IsCohort(cohort) && maximum <= U64_MAX
    ensures Bytes(Survivors(cohort, maximum)) <= maximum <==> NoPrefixSaturates(Sort(AgeLe, cohort), maximum)
  {
    var s := Sort(AgeLe, cohort);
    var total := Min(Bytes(s), U64_MAX);
    var n := Cut(s, total, maximum);
    SurvivorsAreSuffix(cohort, maximum);
    SplitBytes(s, n);
    CutCovers(s, total, maximum);
    forall i | 0 <= i <= |s| && U64_MAX - maximum <= Bytes(s[..i])
      ensures Bytes(s) <= U64_MAX || Bytes(s[..n]) <= Bytes(s[..i])
    {
      if i < n {
        CutIsExact(s, total, maximum, i);
      } else {
        SplitBytes(s[..i], n);
        assert s[..i][..n] == s[..n];
      }
    }
  }

  lemma CutCovers(s: seq<Record>, total: nat, maximum: nat)
    requires total <= Bytes(s)
    ensures total <= maximum + Bytes(s[..Cut(s, total, maximum)])
  {
    var n := Cut(s, total, maximum);
    if n < |s| {
      CutIsExact(s, total, maximum, n);
    } else {
      assert s[..n] == s;
    }
  }

  ghost predicate IsNewestDeleted(cohort: seq<Record>, maximum: nat, r: Record) {
    && r in cohort && OverBudget(cohort, maximum, r)
    && forall x :: x in cohort && Before(r, x) ==> !OverBudget(cohort, maximum, x)
  }

  /** When an owner's bytes fit in `u64`, the survivors fit the budget. */
  lemma BudgetHolds(cohort: seq<Record>, maximum: nat)
    requires IsCohort(cohort) && Bytes(cohort) <= U64_MAX
    ensures Bytes(Survivors(cohort, maximum)) <= maximum
  {
    var s := Sort(AgeLe, cohort);
    SortIsCohort(cohort);
    SurvivorsAreSuffix(cohort, maximum);
    SplitBytes(s, Cut(s, Bytes(s), maximum));
    CutCovers(s, Bytes(s), maximum);
  }

  /** Byte-budget deletions take the oldest: whatever is older than a deleted record is deleted too. */
  lemma DeletionsAreOldest(cohort: seq<Record>, maximum: nat, x: Record, r: Record)
    requires IsCohort(cohort) && x in cohort && r in cohort && Before(x, r) && OverBudget(cohort, maximum, r)
    ensures OverBudget(cohort, maximum, x)
  {
    OlderIsMonotone(cohort, x, r);
  }

  /** No deletion to spare: the survivors and the newest deleted record together exceed the budget. */
  lemma BudgetIsTight(cohort: seq<Record>, maximum: nat, r: Record)
    requires IsCohort(cohort) && Bytes(cohort) <= U64_MAX && IsNewestDeleted(cohort, maximum, r)
    ensures Bytes(Survivors(cohort, maximum)) + r.bytes > maximum
  {
    var s := Sort(AgeLe, cohort);
    var n := Cut(s, Bytes(s), maximum);
    SortIsCohort(cohort);
    CutIsOverBudget(cohort, maximum);
    NewestCutIsLast(s, n, r);
    SurvivorsAreSuffix(cohort, maximum);
    LastCutIsNeeded(s, n, maximum);
  }

  lemma LastCutIsNeeded(s: seq<Record>, n: nat, maximum: nat)
    requires n == Cut(s, Bytes(s), maximum) && n > 0
    ensures Bytes(s[n..]) + s[n - 1].bytes > maximum
  {
    CutIsExact(s, Bytes(s), maximum, n - 1);
    SplitBytes(s, n - 1);
    assert s[n - 1..][1..] == s[n..];
  }

  lemma {:induction false} BytesMonotone(p: Record -> bool, q: Record -> bool, s: seq<Record>)
    requires forall x :: x in s && p(x) ==> q(x)
    ensures Bytes(Filter(p, s)) <= Bytes(Filter(q, s))
  {
    if s != [] {
      BytesMonotone(p, q, s[1..]);
      FilterBytesStep(p, s);
      FilterBytesStep(q, s);
      assert s[0] in s;
    }
  }

  lemma OlderIsMonotone(cohort: seq<Record>, x: Record, r: Record)
    requires IsCohort(cohort) && x in cohort && r in cohort && Before(x, r)
    ensures Older(cohort, x) <= Older(cohort, r)
  {
    OrdersAreTotal();
    BytesMonotone(BeforeThe(x), BeforeThe(r), cohort);
  }

  lemma NewestCutIsLast(s: seq<Record>, n: nat, r: Record)
    requires SortedBy(AgeLe, s) && IsCohort(s) && n <= |s| && r in s[..n]
    requires forall x :: x in s && Before(r, x) ==> x !in s[..n]
    ensures n > 0 && s[n - 1] == r
  {
    var i :| 0 <= i < n && s[i] == r;
    var last := s[n - 1];
    assert s[..n][n - 1] == last;
    assert i < n - 1 ==> Before(r, last);
  }

  ghost predicate SumsFit(records: seq<Record>, policies: Policies, now: int) {
    forall category, owner :: Bytes(Cohort(records, policies.For(category), now, category, owner)) <= U64_MAX
  }

  /** What is left after a plan: the records it was made from, without its candidates, in any order. */
  ghost predicate IsLeft(records: seq<Record>, plan: seq<Record>, rest: seq<Record>) {
    DistinctKeys(rest) && forall r :: r in rest <==> r in Unique(records) && r !in plan
  }

  /** Planning again over what a plan leaves selects nothing, when each owner's bytes fit in `u64`. */
  lemma ReplanIsEmpty(
    records: seq<Record>, policies: Policies, now: int, plan: seq<Record>, rest: seq<Record>, again: seq<Record>)
    requires SumsFit(Unique(records), policies, now)
    requires IsPlan(Unique(records), policies, now, plan) && IsLeft(records, plan, rest)
    requires IsPlan(Unique(rest), policies, now, again)
    ensures again == []
  {
    UniqueKeepsFirst(records);
    LeftIsFiltered(records, policies, now, plan, rest);
    NothingLeftToSelect(Unique(records), policies, now, again);
  }

  /** Planning, deleting and planning again. */
  method Replan(records: seq<Record>, policies: Policies, now: int, rest: seq<Record>, ghost plan: seq<Record>)
    returns (again: seq<Record>)
    requires SumsFit(Unique(records), policies, now)
    requires IsPlan(Unique(records), policies, now, plan) && IsLeft(records, plan, rest)
    ensures again == []
  {
    again := FromRecords(rest, policies, now);
    ReplanIsEmpty(records, policies, now, plan, rest, again);
  }

  lemma LeftIsFiltered(records: seq<Record>, policies: Policies, now: int, plan: seq<Record>, rest: seq<Record>)
    requires IsPlan(Unique(records), policies, now, plan) && IsLeft(records, plan, rest)
    ensures Unique(rest) == Filter(Remains(Unique(records), policies, now), Unique(records))
  {
    var unique := Unique(records);
    var remains := Remains(unique, policies, now);
    UniqueKeepsFirst(records);
    UniqueKeepsFirst(rest);
    FilterMembers(remains, unique);
    FilterSorted(KeyLe, remains, unique);
    FilterDistinct(remains, unique);
    forall r ensures r in Unique(rest) <==> r in Filter(remains, unique) {
      FirstOfDistinct(rest, r);
    }
    OrdersAreTotal();
    SortedListingUnique(KeyLe, Unique(rest), Filter(remains, unique));
  }

  lemma NothingLeftToSelect(records: seq<Record>, policies: Policies, now: int, again: seq<Record>)
    requires DistinctKeys(records) && SumsFit(records, policies, now)
    requires IsPlan(Filter(Remains(records, policies, now), records), policies, now, again)
    ensures again == []
  {
    FilterMembers(Remains(records, policies, now), records);
    if again != [] {
      var r := again[0];
      assert r in again;
      var policy := policies.For(r.category);
      var maximum := policy.maxBytesPerOwner;
      assert policy.enabled && !Aged(policy, now, r) && maximum.Some?;
      var cohort := Cohort(records, policy, now, r.category, r.owner);
      CohortIsCohort(records, policy, now, r.category, r.owner);
      RestOfCohort(records, policies, now, r.category, r.owner);
      BudgetHolds(cohort, maximum.value);
    }
  }

  /** After a plan is carried out, every owner of an enabled, bounded category is within its budget. */
  lemma PlanLeavesBudgets(records: seq<Record>, policies: Policies, now: int, category: Category, owner: string)
    requires DistinctKeys(records)
    requires policies.For(category).enabled && policies.For(category).maxBytesPerOwner.Some?
    requires Bytes(Cohort(records, policies.For(category), now, category, owner)) <= U64_MAX
    ensures var policy, rest := policies.For(category), Filter(Remains(records, policies, now), records);
      Bytes(Cohort(rest, policy, now, category, owner)) <= policy.maxBytesPerOwner.value
  {
    var policy := policies.For(category);
    CohortIsCohort(records, policy, now, category, owner);
    RestOfCohort(records, policies, now, category, owner);
    BudgetHolds(Cohort(records, policy, now, category, owner), policy.maxBytesPerOwner.value);
  }

  function Remains(records: seq<Record>, policies: Policies, now: int): Record -> bool {
    (x: Record) => !Selected(records, policies.For(x.category), now, x)
  }

  lemma RestOfCohort(records: seq<Record>, policies: Policies, now: int, category: Category, owner: string)
    requires policies.For(category).enabled && policies.For(category).maxBytesPerOwner.Some?
    ensures var policy := policies.For(category);
      Cohort(Filter(Remains(records, policies, now), records), policy, now, category, owner)
      == Survivors(Cohort(records, policy, now, category, owner), policy.maxBytesPerOwner.value)
  {
    var policy := policies.For(category);
    var cohort := Cohort(records, policy, now, category, owner);
    var remains, shares := Remains(records, policies, now), Shares(policy, now, category, owner);
    var survives := Survives(cohort, policy.maxBytesPerOwner.value);
    FilterTwice(shares, remains, records);
    FilterTwice(survives, shares, records);
    FilterSame((x: Record) => remains(x) && shares(x), (x: Record) => shares(x) && survives(x), records);
  }

  const I64_MAX: nat := 0x7FFF_FFFF_FFFF_FFFF

  function Bulky(id: string, createdAt: int): Record {
    Record(id, Terminal, "tab", createdAt, I64_MAX, id)
  }

  /** Three records of one owner, each of the largest size the store can hold. */
  const BULKY_COHORT: seq<Record> := [Bulky("a", 0), Bulky("b", 1), Bulky("c", 2)]

  /** Without the bound on an owner's bytes the promise fails: with limit 1 the third of these is kept. */
  lemma SaturationBreaksTheBudget()
    ensures IsCohort(BULKY_COHORT)
    ensures Bytes(Survivors(BULKY_COHORT, 1)) == I64_MAX > 1
  {
    var a, b, c := BULKY_COHORT[0], BULKY_COHORT[1], BULKY_COHORT[2];
    assert Sort(AgeLe, BULKY_COHORT) == BULKY_COHORT by {
      assert BULKY_COHORT[1..] == [b, c] && [b, c][1..] == [c] && [c][1..] == [];
      assert Sort(AgeLe, [c]) == [c];
      assert Sort(AgeLe, [b, c]) == [b, c];
    }
    BulkyBytes();
    assert Cut(BULKY_COHORT, U64_MAX, 1) == 2 by {
      CutIsExact(BULKY_COHORT, U64_MAX, 1, 1);
      CutIsExact(BULKY_COHORT, U64_MAX, 1, 2);
    }
    SurvivorsAreSuffix(BULKY_COHORT, 1);
  }

  lemma BulkyBytes()
    ensures Bytes(BULKY_COHORT) == 3 * I64_MAX
    ensures Bytes(BULKY_COHORT[..1]) == I64_MAX && Bytes(BULKY_COHORT[..2]) == 2 * I64_MAX
    ensures Bytes(BULKY_COHORT[2..]) == I64_MAX
  {
    var a, b, c := BULKY_COHORT[0], BULKY_COHORT[1], BULKY_COHORT[2];
    assert BULKY_COHORT[..1] == [a] && BULKY_COHORT[..2] == [a] + [b] && BULKY_COHORT[2..] == [c];
    assert BULKY_COHORT == [a] + [b] + [c];
    assert [a][1..] == [] && [b][1..] == [] && [c][1..] == [];
    BytesAppend([a], [b]);
    BytesAppend([a] + [b], [c]);
  }
}
