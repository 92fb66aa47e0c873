/** Go's string order and the stable sorts built on comparison functions. */
module Ordering {

  /** `a < b` on Go strings. */
  predicate StrLess(a: string, b: string)
    decreases |a|
  {
    if b == [] then false
    else if a == [] then true
    else if a[0] != b[0] then a[0] < b[0]
    else StrLess(a[1..], b[1..])
  }

  lemma {:induction false} StrLessIrreflexive(a: string)
    ensures !StrLess(a, a)
    decreases |a|
  {
    if a != [] {
      StrLessIrreflexive(a[1..]);
    }
  }

  lemma {:induction false} StrLessTransitive(a: string, b: string, c: string)
    requires StrLess(a, b) && StrLess(b, c)
    ensures StrLess(a, c)
    decreases |a|
  {
    if a != [] && a[0] == b[0] == c[0] {
      StrLessTransitive(a[1..], b[1..], c[1..]);
    }
  }

  lemma {:induction false} StrLessTotal(a: string, b: string)
    ensures a == b || StrLess(a, b) || StrLess(b, a)
    decreases |a|
  {
    if a != [] && b != [] && a[0] == b[0] {
      StrLessTotal(a[1..], b[1..]);
      assert a == [a[0]] + a[1..] && b == [b[0]] + b[1..];
    }
  }

  /** The strings agree up to `i`, where the first ends or has the smaller character. */
  predicate LessAt(a: string, b: string, i: nat) {
    i <= |a| && i < |b| && a[..i] == b[..i] && (i < |a| ==> a[i] < b[i])
  }

  /** The order is that of the first difference, a prefix coming first. */
  lemma {:induction false} StrLessExactlyWhen(a: string, b: string)
    ensures StrLess(a, b) <==> exists i: nat :: LessAt(a, b, i)
    decreases |a|
  {
    if b == [] || a == [] || a[0] != b[0] {
      assert StrLess(a, b) ==> LessAt(a, b, 0);
    } else {
      StrLessExactlyWhen(a[1..], b[1..]);
      if i: nat :| LessAt(a[1..], b[1..], i) {
        assert a[..i + 1] == [a[0]] + a[1..][..i] && b[..i + 1] == [b[0]] + b[1..][..i];
        assert LessAt(a, b, i + 1);
      }
      if i: nat :| LessAt(a, b, i) {
        assert a[1..][..i - 1] == a[..i][1..] && b[1..][..i - 1] == b[..i][1..];
        assert LessAt(a[1..], b[1..], i - 1);
      }
    }
  }

  /** `less` orders the elements of `dom` strictly and totally. */
  ghost predicate StrictTotalOn<T(!new)>(less: (T, T) -> bool, dom: set<T>) {
    && (forall a :: a in dom ==> !less(a, a))
    && (forall a, b, c :: a in dom && b in dom && c in dom && less(a, b) && less(b, c) ==> less(a, c))
    && (forall a, b :: a in dom && b in dom && a != b ==> less(a, b) || less(b, a))
  }

  lemma {:induction false} StrLessOrders(dom: set<string>)
    ensures StrictTotalOn(StrLess, dom)
  {
    forall a | a in dom ensures !StrLess(a, a) { StrLessIrreflexive(a); }
    forall a, b, c | a in dom && b in dom && c in dom && StrLess(a, b) && StrLess(b, c) ensures StrLess(a, c) {
      StrLessTransitive(a, b, c);
    }
    forall a, b | a in dom && b in dom && a != b ensures StrLess(a, b) || StrLess(b, a) { StrLessTotal(a, b); }
  }

  function Elements<T>(s: seq<T>): set<T> {
    set x | x in s
  }

  lemma {:induction false} SubsetSize<T>(a: set<T>, b: set<T>)
    requires a <= b
    ensures |a| <= |b|
  {
    assert b == a + (b - a);
  }

  predicate Distinct<T(==)>(s: seq<T>) {
    forall i, j :: 0 <= i < j < |s| ==> s[i] != s[j]
  }

  predicate SortedBy<T>(less: (T, T) -> bool, s: seq<T>) {
    forall i, j :: 0 <= i < j < |s| ==> less(s[i], s[j])
  }

  /** One pass of a stable insertion sort: `x` moves left past everything it is less than. */
  function Insert<T>(less: (T, T) -> bool, s: seq<T>, x: T): (r: seq<T>)
    ensures |r| == |s| + 1
  {
    if s == [] || !less(x, s[|s| - 1]) then s + [x]
    else Insert(less, s[..|s| - 1], x) + [s[|s| - 1]]
  }

  function Sort<T>(less: (T, T) -> bool, s: seq<T>): (r: seq<T>)
    ensures |r| == |s|
  {
    if s == [] then [] else Insert(less, Sort(less, s[..|s| - 1]), s[|s| - 1])
  }

  lemma {:induction false} InsertPermutes<T>(less: (T, T) -> bool, s: seq<T>, x: T)
    ensures multiset(Insert(less, s, x)) == multiset(s) + multiset{x}
  {
    if s != [] && less(x, s[|s| - 1]) {
      InsertPermutes(less, s[..|s| - 1], x);
      assert s == s[..|s| - 1] + [s[|s| - 1]];
    }
  }

  lemma {:induction false} SortPermutes<T>(less: (T, T) -> bool, s: seq<T>)
    ensures multiset(Sort(less, s)) == multiset(s)
  {
    if s != [] {
      SortPermutes(less, s[..|s| - 1]);
      InsertPermutes(less, Sort(less, s[..|s| - 1]), s[|s| - 1]);
      assert s == s[..|s| - 1] + [s[|s| - 1]];
    }
  }

  lemma SameElements<T>(s: seq<T>, t: seq<T>)
    requires multiset(s) == multiset(t)
    ensures Elements(s) == Elements(t)
  {
    forall x ensures x in s <==> x in t {
      assert x in s <==> x in multiset(s);
      assert x in t <==> x in multiset(t);
    }
  }

  lemma {:induction false} InsertSorts<T(!new)>(less: (T, T) -> bool, s: seq<T>, x: T)
    requires StrictTotalOn(less, Elements(s) + {x}) && x !in s && SortedBy(less, s)
    ensures SortedBy(less, Insert(less, s, x))
  {
    if s != [] {
      var front, last := s[..|s| - 1], s[|s| - 1];
      assert last in s;
      if less(x, last) {
        assert Elements(front) <= Elements(s);
        InsertSorts(less, front, x);
        InsertPermutes(less, front, x);
        var r := Insert(less, front, x);
        forall i | 0 <= i < |r| ensures less(r[i], last) {
          assert r[i] in multiset(r);
          assert r[i] in front || r[i] == x;
        }
      } else {
        assert less(last, x);
        forall i | 0 <= i < |s| ensures less(s[i], x) {
          assert s[i] in s;
        }
      }
    }
  }

  /** Sorting distinct elements under a strict total order yields them in strict order. */
  lemma {:induction false} SortSorts<T(!new)>(less: (T, T) -> bool, s: seq<T>)
    requires StrictTotalOn(less, Elements(s)) && Distinct(s)
    ensures SortedBy(less, Sort(less, s))
  {
    if s != [] {
      var front, last := s[..|s| - 1], s[|s| - 1];
      SortSorts(less, front);
      SortPermutes(less, front);
      SameElements(Sort(less, front), front);
      ElementsSnoc(s);
      InsertSorts(less, Sort(less, front), last);
    }
  }

  lemma ElementsSnoc<T(!new)>(s: seq<T>)
    requires s != [] && Distinct(s)
    ensures var front, last := s[..|s| - 1], s[|s| - 1];
            last !in Elements(front) && Elements(front) + {last} == Elements(s) && Distinct(front)
  {
  }

  /** The strictly ordered enumeration of a set is unique. */
  lemma {:induction false} SortedUnique<T(!new)>(less: (T, T) -> bool, s: seq<T>, t: seq<T>)
    requires SortedBy(less, s) && SortedBy(less, t) && Elements(s) == Elements(t)
    requires StrictTotalOn(less, Elements(s))
    ensures s == t
    decreases |s|
  {
    assert (s == [] || s[0] in Elements(s)) && (t == [] || t[0] in Elements(t));
    if s != [] {
      var i :| 0 <= i < |t| && t[i] == s[0];
      var j :| 0 <= j < |s| && s[j] == t[0];
      assert s[0] == t[0];
      forall x ensures x in s[1..] <==> x in t[1..] {
        if x in s[1..] {
          var k :| 0 <= k < |s[1..]| && s[1..][k] == x;
          assert less(s[0], s[k + 1]) && x in Elements(t);
        }
        if x in t[1..] {
          var k :| 0 <= k < |t[1..]| && t[1..][k] == x;
          assert less(t[0], t[k + 1]) && x in Elements(s);
        }
      }
      assert Elements(s[1..]) <= Elements(s);
      SortedUnique(less, s[1..], t[1..]);
    }
  }

  /** Whatever order the elements arrive in, the sorted result is the same. */
  lemma SortIgnoresOrder<T(!new)>(less: (T, T) -> bool, s: seq<T>, t: seq<T>)
    requires Distinct(s) && Distinct(t) && Elements(s) == Elements(t)
    requires StrictTotalOn(less, Elements(s))
    ensures Sort(less, s) == Sort(less, t)
  {
    SortSorts(less, s);
    SortSorts(less, t);
    SortPermutes(less, s);
    SortPermutes(less, t);
    SameElements(Sort(less, s), s);
    SameElements(Sort(less, t), t);
    SortedUnique(less, Sort(less, s), Sort(less, t));
  }
}
