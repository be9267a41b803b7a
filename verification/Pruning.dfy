/** The pruner that runs when a terminal segment is appended: newest first, keep what still fits. */
module Pruning {
  import opened Prelude
  import opened Ordering
  import opened Retention

  datatype Row = Row(id: string, byteCount: int, path: string)

  datatype PruneError = NegativeSize | NotCommitted

  /** What is kept of rows in newest-first order, when `retained` bytes are kept already. */
  function Kept(rows: seq<Row>, retained: nat, maximum: nat): seq<Row> {
    if rows == [] then []
    else
      var total := SaturatingAdd(retained, Max(rows[0].byteCount, 0));
      if total <= maximum then [rows[0]] + Kept(rows[1..], total, maximum) else Kept(rows[1..], retained, maximum)
  }

  function Expired(rows: seq<Row>, retained: nat, maximum: nat): seq<Row> {
    if rows == [] then []
    else
      var total := SaturatingAdd(retained, Max(rows[0].byteCount, 0));
      if total <= maximum then Expired(rows[1..], total, maximum) else [rows[0]] + Expired(rows[1..], retained, maximum)
  }

  function Size(rows: seq<Row>): nat {
    if rows == [] then 0 else Max(rows[0].byteCount, 0) + Size(rows[1..])
  }

  predicate SizesAreValid(rows: seq<Row>) {
    forall i :: 0 <= i < |rows| ==> rows[i].byteCount >= 0
  }

  /**
   Refuses a stored negative size; otherwise decides each row once and deletes the expired ones
   from the table of segments, if the transaction commits.
   */
  method PruneTerminalSegments(rows: seq<Row>, maximum: nat, table: set<string>, commits: bool)
    returns (r: Result<seq<string>, PruneError>, remaining: set<string>)
    ensures r == Err(NegativeSize) <==> !SizesAreValid(rows)
    ensures r.Err? ==> remaining == table
    ensures SizesAreValid(rows) && (commits || Expired(rows, 0, maximum) == []) ==> r.Ok?
    ensures r.Ok? ==>
      var expired := Expired(rows, 0, maximum);
      r.value == Paths(expired) && remaining == table - Ids(expired)
  {
    var retained: nat := 0;
    var expired := [];
    for i := 0 to |rows|
      invariant SizesAreValid(rows[..i])
      invariant expired + Expired(rows[i..], retained, maximum) == Expired(rows, 0, maximum)
    {
      var row := rows[i];
      if row.byteCount < 0 {
        return Err(NegativeSize), table;
      }
      assert rows[i..][1..] == rows[i + 1..];
      if SaturatingAdd(retained, row.byteCount) <= maximum {
        retained := SaturatingAdd(retained, row.byteCount);
      } else {
        expired := expired + [row];
      }
    }
    assert SizesAreValid(rows) && expired == Expired(rows, 0, maximum);
    if expired == [] {
      return Ok([]), table;
    }
    if !commits {
      return Err(NotCommitted), table;
    }
    return Ok(Paths(expired)), table - Ids(expired);
  }

  function Paths(rows: seq<Row>): (paths: seq<string>)
    ensures |paths| == |rows| && forall i :: 0 <= i < |rows| ==> paths[i] == rows[i].path
  {
    if rows == [] then [] else [rows[0].path] + Paths(rows[1..])
  }

  function Ids(rows: seq<Row>): set<string> {
    set i | 0 <= i < |rows| :: rows[i].id
  }

  /** Every row is kept or expired, and never both: the two make up the rows. */
  lemma {:induction false} PruningPartitions(rows: seq<Row>, retained: nat, maximum: nat)
    ensures multiset(Kept(rows, retained, maximum)) + multiset(Expired(rows, retained, maximum)) == multiset(rows)
  {
    if rows != [] {
      var total := SaturatingAdd(retained, Max(rows[0].byteCount, 0));
      PruningPartitions(rows[1..], if total <= maximum then total else retained, maximum);
      assert rows == [rows[0]] + rows[1..];
    }
  }

  lemma {:induction false} KeptFits(rows: seq<Row>, retained: nat, maximum: nat)
    requires retained <= maximum < U64_MAX
    ensures retained + Size(Kept(rows, retained, maximum)) <= maximum
  {
    if rows != [] {
      var total := SaturatingAdd(retained, Max(rows[0].byteCount, 0));
      KeptFits(rows[1..], if total <= maximum then total else retained, maximum);
    }
  }

  lemma {:induction false} FullBudgetKeepsAll(rows: seq<Row>, retained: nat)
    ensures Kept(rows, retained, U64_MAX) == rows
  {
    if rows != [] {
      FullBudgetKeepsAll(rows[1..], SaturatingAdd(retained, Max(rows[0].byteCount, 0)));
    }
  }

  lemma {:induction false} KeptInTurn(a: seq<Row>, b: seq<Row>, retained: nat, maximum: nat)
    requires retained <= maximum < U64_MAX
    ensures Kept(a + b, retained, maximum) ==
      Kept(a, retained, maximum) + Kept(b, retained + Size(Kept(a, retained, maximum)), maximum)
    decreases |a|
  {
    if a == [] {
      assert a + b == b;
    } else {
      var total := SaturatingAdd(retained, Max(a[0].byteCount, 0));
      var after := if total <= maximum then total else retained;
      KeptInTurn(a[1..], b, after, maximum);
      assert (a + b)[0] == a[0] && (a + b)[1..] == a[1..] + b;
      Associate([a[0]], Kept(a[1..], after, maximum), Kept(b, after + Size(Kept(a[1..], after, maximum)), maximum));
    }
  }

  lemma {:induction false} ExpiredInTurn(a: seq<Row>, b: seq<Row>, retained: nat, maximum: nat)
    requires retained <= maximum < U64_MAX
    ensures Expired(a + b, retained, maximum) ==
      Expired(a, retained, maximum) + Expired(b, retained + Size(Kept(a, retained, maximum)), maximum)
    decreases |a|
  {
    if a == [] {
      assert a + b == b;
    } else {
      var total := SaturatingAdd(retained, Max(a[0].byteCount, 0));
      var after := if total <= maximum then total else retained;
      ExpiredInTurn(a[1..], b, after, maximum);
      assert (a + b)[0] == a[0] && (a + b)[1..] == a[1..] + b;
      Associate([a[0]], Expired(a[1..], after, maximum), Expired(b, after + Size(Kept(a[1..], after, maximum)), maximum));
    }
  }

  /** A row is kept exactly when it fits beside the newer rows that are kept, whatever larger ones were expired. */
  lemma KeptIffItFits(newer: seq<Row>, row: Row, older: seq<Row>, maximum: nat)
    requires maximum < U64_MAX && row.byteCount >= 0
    ensures var kept := Kept(newer, 0, maximum);
      if Size(kept) + row.byteCount <= maximum then
        exists rest :: Kept(newer + [row] + older, 0, maximum) == kept + [row] + rest
      else
        exists rest :: Expired(newer + [row] + older, 0, maximum) == Expired(newer, 0, maximum) + [row] + rest
  {
    var kept := Kept(newer, 0, maximum);
    KeptInTurn(newer, [row] + older, 0, maximum);
    ExpiredInTurn(newer, [row] + older, 0, maximum);
    assert newer + [row] + older == newer + ([row] + older);
    assert ([row] + older)[0] == row && ([row] + older)[1..] == older;
    if Size(kept) + row.byteCount <= maximum {
      var rest := Kept(older, Size(kept) + row.byteCount, maximum);
      assert Kept(newer + [row] + older, 0, maximum) == kept + [row] + rest;
    } else {
      var rest := Expired(older, Size(kept), maximum);
      assert Expired(newer + [row] + older, 0, maximum) == Expired(newer, 0, maximum) + [row] + rest;
    }
  }

  /** What is kept fits the limit, except that the largest limit keeps everything, fitting or not. */
  lemma KeptFitsExactly(rows: seq<Row>, maximum: nat)
    requires maximum <= U64_MAX
    ensures Size(Kept(rows, 0, maximum)) <= maximum <==> maximum < U64_MAX || Size(rows) <= U64_MAX
  {
    if maximum < U64_MAX {
      KeptFits(rows, 0, maximum);
    } else {
      FullBudgetKeepsAll(rows, 0);
    }
  }

  /** Three rows of the largest size the store can hold. */
  const BULKY_ROWS: seq<Row> := [Row("c", I64_MAX, "c"), Row("b", I64_MAX, "b"), Row("a", I64_MAX, "a")]

  /** The largest limit is not respected: it keeps these three, which together exceed it. */
  lemma FullBudgetIsExceeded()
    ensures SizesAreValid(BULKY_ROWS)
    ensures Kept(BULKY_ROWS, 0, U64_MAX) == BULKY_ROWS
    ensures Size(Kept(BULKY_ROWS, 0, U64_MAX)) == 3 * I64_MAX > U64_MAX
  {
    FullBudgetKeepsAll(BULKY_ROWS, 0);
    var newer, older := BULKY_ROWS[1], BULKY_ROWS[2];
    assert Size([older]) == I64_MAX by { assert [older][1..] == []; }
    assert Size([newer, older]) == 2 * I64_MAX by { assert [newer, older][1..] == [older]; }
    assert BULKY_ROWS[1..] == [newer, older];
  }

  /** The newest rows that fit together are all kept. */
  lemma {:induction false} NewestAreKept(rows: seq<Row>, retained: nat, maximum: nat, n: nat)
    requires n <= |rows| && retained + Size(rows[..n]) <= maximum
    ensures rows[..n] <= Kept(rows, retained, maximum)
  {
    if n > 0 {
      assert rows[..n][1..] == rows[1..][..n - 1] && rows[..n][0] == rows[0];
      NewestAreKept(rows[1..], SaturatingAdd(retained, Max(rows[0].byteCount, 0)), maximum, n - 1);
      assert rows[..n] == [rows[0]] + rows[1..][..n - 1];
    }
  }

  // ----- against the planner's byte rule

  function RowOf(r: Record): Row {
    Row(r.id, r.bytes, r.path)
  }

  /** A cohort given newest first. */
  function NewestFirst(oldestFirst: seq<Record>): (rows: seq<Row>)
    ensures |rows| == |oldestFirst|
    ensures forall i :: 0 <= i < |rows| ==> rows[i] == RowOf(oldestFirst[|rows| - 1 - i])
  {
    seq(|oldestFirst|, i requires 0 <= i < |oldestFirst| => RowOf(oldestFirst[|oldestFirst| - 1 - i]))
  }

  lemma SizeAppend(a: seq<Row>, b: seq<Row>)
    ensures Size(a + b) == Size(a) + Size(b)
  {
    if a == [] {
      assert a + b == b;
    } else {
      assert (a + b)[1..] == a[1..] + b;
      SizeAppend(a[1..], b);
    }
  }

  lemma {:induction false} NewestFirstSize(s: seq<Record>)
    ensures Size(NewestFirst(s)) == Bytes(s)
  {
    if s != [] {
      assert NewestFirst(s) == NewestFirst(s[1..]) + [RowOf(s[0])];
      SizeAppend(NewestFirst(s[1..]), [RowOf(s[0])]);
      NewestFirstSize(s[1..]);
    }
  }

  lemma NewestSuffixIsKept(s: seq<Record>, n: nat, maximum: nat, i: nat)
    requires n <= i < |s| && Bytes(s[n..]) <= maximum
    ensures RowOf(s[i]) in Kept(NewestFirst(s), 0, maximum)
  {
    var rows, newest := NewestFirst(s), |s| - n;
    assert rows[..newest] == NewestFirst(s[n..]);
    NewestFirstSize(s[n..]);
    NewestAreKept(rows, 0, maximum, newest);
    assert Kept(rows, 0, maximum)[|s| - 1 - i] == rows[..newest][|s| - 1 - i] == RowOf(s[i]);
  }

  lemma SurvivorIsInSuffix(cohort: seq<Record>, maximum: nat, r: Record)
    requires IsCohort(cohort) && Bytes(cohort) <= U64_MAX
    requires r in cohort && !OverBudget(cohort, maximum, r)
    ensures var s := Sort(AgeLe, cohort);
      r in s[Cut(s, Bytes(s), maximum)..]
  {
    var s := Sort(AgeLe, cohort);
    var n := Cut(s, Bytes(s), maximum);
    SortIsCohort(cohort);
    CutIsOverBudget(cohort, maximum);
    assert r in s && r !in s[..n];
    assert s == s[..n] + s[n..];
  }

  /** Over one order, the pruner keeps every segment that the planner's byte rule keeps. */
  lemma PrunerKeepsPlannersSurvivors(cohort: seq<Record>, maximum: nat, r: Record)
    requires IsCohort(cohort) && Bytes(cohort) <= U64_MAX
    requires r in cohort && !OverBudget(cohort, maximum, r)
    ensures RowOf(r) in Kept(NewestFirst(Sort(AgeLe, cohort)), 0, maximum)
  {
    var s := Sort(AgeLe, cohort);
    SurvivorIsInSuffix(cohort, maximum, r);
    SuffixIsKept(s, Cut(s, Bytes(s), maximum), maximum, r);
  }

  lemma SuffixIsKept(s: seq<Record>, n: nat, maximum: nat, r: Record)
    requires n == Cut(s, Bytes(s), maximum) && r in s[n..]
    ensures RowOf(r) in Kept(NewestFirst(s), 0, maximum)
  {
    CutCovers(s, Bytes(s), maximum);
    SplitBytes(s, n);
    var i :| 0 <= i < |s[n..]| && s[n..][i] == r;
    NewestSuffixIsKept(s, n, maximum, n + i);
  }
}
