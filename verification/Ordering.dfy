/**
 The library facilities that the sources call for ordering: the stable `sort_by`
 of Rust slices, and the lexicographic comparison of strings and paths.
 */
module Ordering {
  ghost predicate TotalPreorder<T(!new)>(le: (T, T) -> bool) {
    && (forall a, b :: le(a, b) || le(b, a))
    && (forall a, b, c :: le(a, b) && le(b, c) ==> le(a, c))
  }

  ghost predicate Antisymmetric<T(!new)>(le: (T, T) -> bool) {
    forall a, b :: le(a, b) && le(b, a) ==> a == b
  }

  ghost predicate SortedBy<T>(le: (T, T) -> bool, s: seq<T>) {
    forall i, j :: 0 <= i < j < |s| ==> le(s[i], s[j])
  }

  ghost predicate Distinct<T>(s: seq<T>) {
    forall i, j :: 0 <= i < j < |s| ==> s[i] != s[j]
  }

  /** Places `x` before the first element that is not smaller, so equal keys keep their order. */
  function Insert<T>(le: (T, T) -> bool, x: T, s: seq<T>): (r: seq<T>) {
    if s == [] then [x]
    else if le(x, s[0]) then [x] + s
    else [s[0]] + Insert(le, x, s[1..])
  }

  function Sort<T>(le: (T, T) -> bool, s: seq<T>): (r: seq<T>) {
    if s == [] then [] else Insert(le, s[0], Sort(le, s[1..]))
  }

  lemma {:induction false} InsertMultiset<T>(le: (T, T) -> bool, x: T, s: seq<T>)
    ensures multiset(Insert(le, x, s)) == multiset{x} + multiset(s)
  {
    if s != [] && !le(x, s[0]) {
      InsertMultiset(le, x, s[1..]);
      assert s == [s[0]] + s[1..];
    }
  }

  lemma MultisetMembers<T>(s: seq<T>, t: seq<T>)
    requires multiset(s) == multiset(t)
    ensures forall x :: x in s <==> x in t
  {
    forall x ensures x in s <==> x in t {
      assert x in s <==> x in multiset(s);
      assert x in t <==> x in multiset(t);
    }
  }

  lemma {:induction false} InsertSorted<T(!new)>(le: (T, T) -> bool, x: T, s: seq<T>)
    requires TotalPreorder(le) && SortedBy(le, s)
    ensures SortedBy(le, Insert(le, x, s))
  {
    if s != [] && !le(x, s[0]) {
      InsertSorted(le, x, s[1..]);
      var tail := Insert(le, x, s[1..]);
      InsertMultiset(le, x, s[1..]);
      MultisetMembers(tail, [x] + s[1..]);
      forall j | 0 <= j < |tail| ensures le(s[0], tail[j]) {
        assert tail[j] in [x] + s[1..];
      }
    }
  }

  lemma {:induction false} SortSorts<T(!new)>(le: (T, T) -> bool, s: seq<T>)
    requires TotalPreorder(le)
    ensures multiset(Sort(le, s)) == multiset(s)
    ensures SortedBy(le, Sort(le, s))
  {
    if s != [] {
      SortSorts(le, s[1..]);
      InsertMultiset(le, s[0], Sort(le, s[1..]));
      InsertSorted(le, s[0], Sort(le, s[1..]));
      assert s == [s[0]] + s[1..];
    }
  }

  lemma SortMembers<T(!new)>(le: (T, T) -> bool, s: seq<T>)
    requires TotalPreorder(le)
    ensures |Sort(le, s)| == |s|
    ensures forall x :: x in Sort(le, s) <==> x in s
  {
    SortSorts(le, s);
    assert |multiset(Sort(le, s))| == |multiset(s)|;
    MultisetMembers(Sort(le, s), s);
  }

  lemma DistinctCons<T>(x: T, s: seq<T>)
    requires Distinct(s) && x !in s
    ensures Distinct([x] + s)
  {
  }

  lemma {:induction false} InsertMembers<T>(le: (T, T) -> bool, x: T, s: seq<T>, y: T)
    ensures y in Insert(le, x, s) <==> y == x || y in s
  {
    if s != [] && !le(x, s[0]) {
      InsertMembers(le, x, s[1..], y);
    }
  }

  lemma {:induction false} InsertDistinct<T>(le: (T, T) -> bool, x: T, s: seq<T>)
    requires Distinct(s) && x !in s
    ensures Distinct(Insert(le, x, s))
  {
    if s == [] || le(x, s[0]) {
      DistinctCons(x, s);
    } else {
      InsertDistinct(le, x, s[1..]);
      InsertMembers(le, x, s[1..], s[0]);
      DistinctCons(s[0], Insert(le, x, s[1..]));
    }
  }

  lemma {:induction false} SortDistinct<T(!new)>(le: (T, T) -> bool, s: seq<T>)
    requires TotalPreorder(le) && Distinct(s)
    ensures Distinct(Sort(le, s))
  {
    if s != [] {
      SortDistinct(le, s[1..]);
      SortMembers(le, s[1..]);
      InsertDistinct(le, s[0], Sort(le, s[1..]));
    }
  }

  /** A sorted, duplicate-free listing of a set is unique when no two of its elements tie. */
  lemma {:induction false} SortedListingUnique<T(!new)>(le: (T, T) -> bool, s: seq<T>, t: seq<T>)
    requires SortedBy(le, s) && SortedBy(le, t)
    requires Distinct(s) && Distinct(t)
    requires forall x :: x in s <==> x in t
    requires forall x, y :: x in s && y in s && le(x, y) && le(y, x) ==> x == y
    ensures s == t
  {
    if s == [] {
      assert t == [] by {
        assert forall i :: 0 <= i < |t| ==> t[i] in s;
      }
    } else {
      assert s[0] in t && t != [] && t[0] in s;
      var i :| 0 <= i < |s| && s[i] == t[0];
      var j :| 0 <= j < |t| && t[j] == s[0];
      assert s[0] == t[0];
      forall x ensures x in s[1..] <==> x in t[1..] {
        if x in s[1..] {
          assert x in s && x != s[0];
        }
        if x in t[1..] {
          assert x in t && x != t[0];
        }
      }
      SortedListingUnique(le, s[1..], t[1..]);
      assert s == [s[0]] + s[1..] && t == [t[0]] + t[1..];
    }
  }

  /** Lexicographic comparison, as `str`, `OsStr` and `Path` order their units. */
  predicate LexLe<T(==)>(le: (T, T) -> bool, s: seq<T>, t: seq<T>) {
    if s == [] then true
    else if t == [] then false
    else if s[0] == t[0] then LexLe(le, s[1..], t[1..])
    else le(s[0], t[0])
  }

  lemma {:induction false} LexTotal<T(!new)>(le: (T, T) -> bool, s: seq<T>, t: seq<T>)
    requires TotalPreorder(le) && Antisymmetric(le)
    ensures LexLe(le, s, t) || LexLe(le, t, s)
    ensures LexLe(le, s, t) && LexLe(le, t, s) ==> s == t
  {
    if s != [] && t != [] && s[0] == t[0] {
      LexTotal(le, s[1..], t[1..]);
      assert s == [s[0]] + s[1..] && t == [t[0]] + t[1..];
    }
  }

  lemma {:induction false} LexTransitive<T(!new)>(le: (T, T) -> bool, s: seq<T>, t: seq<T>, u: seq<T>)
    requires TotalPreorder(le) && Antisymmetric(le)
    requires LexLe(le, s, t) && LexLe(le, t, u)
    ensures LexLe(le, s, u)
  {
    if s != [] && s[0] == t[0] && t[0] == u[0] {
      LexTransitive(le, s[1..], t[1..], u[1..]);
    }
  }

  lemma LexIsTotalOrder<T(!new)>(le: (T, T) -> bool)
    requires TotalPreorder(le) && Antisymmetric(le)
    ensures TotalPreorder((s: seq<T>, t: seq<T>) => LexLe(le, s, t))
    ensures Antisymmetric((s: seq<T>, t: seq<T>) => LexLe(le, s, t))
  {
    forall s: seq<T>, t: seq<T>
      ensures LexLe(le, s, t) || LexLe(le, t, s)
      ensures LexLe(le, s, t) && LexLe(le, t, s) ==> s == t
    {
      LexTotal(le, s, t);
    }
    forall s: seq<T>, t: seq<T>, u: seq<T> | LexLe(le, s, t) && LexLe(le, t, u) ensures LexLe(le, s, u) {
      LexTransitive(le, s, t, u);
    }
  }

  /** A prefix never sorts after the sequence it begins. */
  lemma {:induction false} PrefixSortsFirst<T>(le: (T, T) -> bool, s: seq<T>, t: seq<T>)
    requires s <= t
    ensures LexLe(le, s, t)
  {
    if s != [] {
      PrefixSortsFirst(le, s[1..], t[1..]);
    }
  }

  /** Two sequences compare as their elements do at the first difference. */
  lemma {:induction false} LexAtDifference<T>(le: (T, T) -> bool, s: seq<T>, t: seq<T>, i: nat)
    requires i < |s| && i < |t| && s[..i] == t[..i] && s[i] != t[i]
    ensures LexLe(le, s, t) <==> le(s[i], t[i])
  {
    if i > 0 {
      assert s[0] == s[..i][0] == t[..i][0] == t[0];
      assert s[1..][..i - 1] == s[..i][1..] && t[1..][..i - 1] == t[..i][1..];
      LexAtDifference(le, s[1..], t[1..], i - 1);
    }
  }

  predicate CharLe(a: char, b: char) {
    a <= b
  }

  predicate StringLe(s: string, t: string) {
    LexLe(CharLe, s, t)
  }

  lemma StringOrder()
    ensures TotalPreorder(StringLe) && Antisymmetric(StringLe)
  {
    LexIsTotalOrder(CharLe);
    assert forall s: string, t: string :: StringLe(s, t) == ((s: string, t: string) => LexLe(CharLe, s, t))(s, t);
  }

  /** Strings compare at their first difference; a prefix comes first. */
  lemma {:induction false} StringLeMeans(s: string, t: string, i: nat)
    requires i <= |s| && i < |t| && s[..i] == t[..i] && (i < |s| ==> s[i] < t[i])
    ensures StringLe(s, t) && !StringLe(t, s)
  {
    if i > 0 {
      assert s[0] == s[..i][0] == t[..i][0] == t[0];
      assert s[1..][..i - 1] == s[..i][1..] && t[1..][..i - 1] == t[..i][1..];
      StringLeMeans(s[1..], t[1..], i - 1);
    }
  }
}
