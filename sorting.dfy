/**
  `Array.prototype.sort` with a comparator. Engines have sorted stably since
  ES2019, and a stable sort is determined by its comparator alone, so the
  model is a stable insertion sort. `less(a, b)` holds when the comparator
  puts `a` strictly before `b` (the comparator returns a negative number).
*/
module Sorting {

  import opened Seqs

  ghost predicate Asymmetric<T(!new)>(less: (T, T) -> bool) {
    forall a, b :: less(a, b) ==> !less(b, a)
  }

  /** "Not before" is transitive: what makes the comparator consistent. */
  ghost predicate NegTransitive<T(!new)>(less: (T, T) -> bool) {
    forall a, b, c :: !less(a, b) && !less(b, c) ==> !less(a, c)
  }

  ghost predicate StrictWeakOrder<T(!new)>(less: (T, T) -> bool) {
    Asymmetric(less) && NegTransitive(less)
  }

  /** No element is strictly before an element that precedes it. */
  predicate SortedBy<T>(s: seq<T>, less: (T, T) -> bool) {
    forall i, j :: 0 <= i < j < |s| ==> !less(s[j], s[i])
  }

  /** Inserts `x` in front of the first element that is not strictly before it. */
  function Insert<T(==)>(x: T, s: seq<T>, less: (T, T) -> bool): (r: seq<T>)
    ensures |r| == |s| + 1
    ensures multiset(r) == multiset(s) + multiset{x}
  {
    if s == [] || !less(s[0], x) then [x] + s
    else
      assert s == [s[0]] + s[1..];
      [s[0]] + Insert(x, s[1..], less)
  }

  /** Stable sort: elements equal under `less` keep their input order. */
  function SortBy<T(==)>(s: seq<T>, less: (T, T) -> bool): (r: seq<T>)
    ensures |r| == |s|
    ensures multiset(r) == multiset(s)
  {
    if s == [] then []
    else
      assert s == [s[0]] + s[1..];
      Insert(s[0], SortBy(s[1..], less), less)
  }

  lemma {:induction false} InsertSorted<T(!new)>(x: T, s: seq<T>, less: (T, T) -> bool)
    requires StrictWeakOrder(less)
    requires SortedBy(s, less)
    ensures SortedBy(Insert(x, s, less), less)
  {
    if s == [] || !less(s[0], x) {
    } else {
      var t := Insert(x, s[1..], less);
      InsertSorted(x, s[1..], less);
      assert multiset(t) == multiset(s[1..]) + multiset{x};
      forall j | 0 <= j < |t| ensures !less(t[j], s[0]) {
        assert t[j] in multiset(t);
        if t[j] != x {
          assert t[j] in multiset(s[1..]);
          var k :| 0 <= k < |s[1..]| && s[1..][k] == t[j];
          assert s[k + 1] == t[j];
        }
      }
    }
  }

  /** The result of the sort is ordered. */
  lemma {:induction false} SortBySorted<T(!new)>(s: seq<T>, less: (T, T) -> bool)
    requires StrictWeakOrder(less)
    ensures SortedBy(SortBy(s, less), less)
  {
    if s != [] {
      SortBySorted(s[1..], less);
      InsertSorted(s[0], SortBy(s[1..], less), less);
    }
  }

  /** Sorting an already ordered sequence leaves it unchanged. */
  lemma {:induction false} SortByOfSorted<T(!new)>(s: seq<T>, less: (T, T) -> bool)
    requires SortedBy(s, less)
    ensures SortBy(s, less) == s
  {
    if s != [] {
      SortByOfSorted(s[1..], less);
      assert SortBy(s[1..], less) == s[1..];
      if |s| > 1 {
        assert !less(s[1], s[0]);
        assert s[1..][0] == s[1];
      }
    }
  }

  /** `x` is neither before nor after `e`: it is in the equivalence class of `e` under `less`. */
  predicate Equivalent<T>(less: (T, T) -> bool, e: T, x: T) {
    !less(x, e) && !less(e, x)
  }

  /** Membership of the class of `e`, as a filter predicate. */
  function EquivalentTo<T>(less: (T, T) -> bool, e: T): T -> bool {
    x => Equivalent(less, e, x)
  }

  /** Under a strict weak order nothing strictly before a member of a class belongs to the class. */
  lemma {:induction false} BeforeLeavesClass<T(!new)>(less: (T, T) -> bool, x: T, e: T)
    requires StrictWeakOrder(less) && Equivalent(less, e, x)
    ensures forall a :: less(a, x) ==> !Equivalent(less, e, a)
  {
    forall a | less(a, x) ensures !Equivalent(less, e, a) {
      assert !less(e, x);
    }
  }

  /** The elements of `s` equivalent to `e`, in their order in `s`. */
  function ClassOf<T>(s: seq<T>, less: (T, T) -> bool, e: T): seq<T> {
    if s == [] then []
    else (if Equivalent(less, e, s[0]) then [s[0]] else []) + ClassOf(s[1..], less, e)
  }

  lemma {:induction false} ClassOfIsFilter<T>(s: seq<T>, less: (T, T) -> bool, e: T)
    ensures ClassOf(s, less, e) == Filter(s, EquivalentTo(less, e))
  {
    if s != [] {
      ClassOfIsFilter(s[1..], less, e);
      assert EquivalentTo(less, e)(s[0]) == Equivalent(less, e, s[0]);
    }
  }

  lemma {:induction false} ClassOfCons<T>(x: T, s: seq<T>, less: (T, T) -> bool, e: T)
    ensures ClassOf([x] + s, less, e) == (if Equivalent(less, e, x) then [x] else []) + ClassOf(s, less, e)
  {
    assert ([x] + s)[0] == x && ([x] + s)[1..] == s;
  }

  /**
    Inserting `x` places it after exactly the elements strictly before it, so
    in the class of `e`, `x` comes first, in front of the members from `s`,
    when nothing strictly before `x` belongs to the class.
  */
  lemma {:induction false} InsertKeepsClasses<T(!new)>(x: T, s: seq<T>, less: (T, T) -> bool, e: T)
    requires Equivalent(less, e, x) ==> forall a :: less(a, x) ==> !Equivalent(less, e, a)
    ensures ClassOf(Insert(x, s, less), less, e)
         == (if Equivalent(less, e, x) then [x] else []) + ClassOf(s, less, e)
  {
    if s == [] || !less(s[0], x) {
      ClassOfCons(x, s, less, e);
    } else {
      var head: seq<T> := if Equivalent(less, e, s[0]) then [s[0]] else [];
      var mid: seq<T> := if Equivalent(less, e, x) then [x] else [];
      var tail := ClassOf(s[1..], less, e);
      var rest := Insert(x, s[1..], less);
      InsertKeepsClasses(x, s[1..], less, e);
      ClassOfCons(s[0], rest, less, e);
      assert ClassOf(s, less, e) == head + tail;
      assert Equivalent(less, e, x) ==> head == [];
      assert head == [] || mid == [];
      calc {
        ClassOf(Insert(x, s, less), less, e);
        ClassOf([s[0]] + rest, less, e);
        head + ClassOf(rest, less, e);
        head + (mid + tail);
        { SwapEmpty(head, mid, tail); }
        mid + (head + tail);
      }
    }
  }

  lemma {:induction false} SwapEmpty<T>(a: seq<T>, b: seq<T>, c: seq<T>)
    requires a == [] || b == []
    ensures a + (b + c) == b + (a + c)
  {
    if a == [] {
      assert a + (b + c) == b + c == b + (a + c);
    } else {
      assert a + (b + c) == a + c == b + (a + c);
    }
  }

  /**
    The sort is stable: for every `e`, the elements equivalent to `e` appear
    in the result in the same order as in the input.
  */
  lemma {:induction false} SortByStable<T(!new)>(s: seq<T>, less: (T, T) -> bool, e: T)
    requires StrictWeakOrder(less)
    ensures Filter(SortBy(s, less), EquivalentTo(less, e)) == Filter(s, EquivalentTo(less, e))
  {
    SortByKeepsClass(s, less, e);
    ClassOfIsFilter(SortBy(s, less), less, e);
    ClassOfIsFilter(s, less, e);
  }

  lemma {:induction false} SortByKeepsClass<T(!new)>(s: seq<T>, less: (T, T) -> bool, e: T)
    requires StrictWeakOrder(less)
    ensures ClassOf(SortBy(s, less), less, e) == ClassOf(s, less, e)
  {
    if s != [] {
      SortByKeepsClass(s[1..], less, e);
      if Equivalent(less, e, s[0]) {
        BeforeLeavesClass(less, s[0], e);
      }
      InsertKeepsClasses(s[0], SortBy(s[1..], less), less, e);
    }
  }

  /** Code-unit lexicographic order of strings. */
  predicate LexLess(a: string, b: string) {
    if a == [] then b != []
    else if b == [] then false
    else if a[0] != b[0] then a[0] < b[0]
    else LexLess(a[1..], b[1..])
  }

  lemma {:induction false} LexLessAsymmetric(a: string, b: string)
    requires LexLess(a, b)
    ensures !LexLess(b, a)
  {
    if a != [] && b != [] && a[0] == b[0] {
      LexLessAsymmetric(a[1..], b[1..]);
    }
  }

  lemma {:induction false} LexLessNegTransitive(a: string, b: string, c: string)
    requires !LexLess(a, b) && !LexLess(b, c)
    ensures !LexLess(a, c)
  {
    if a != [] && b != [] && c != [] && a[0] == b[0] && b[0] == c[0] {
      LexLessNegTransitive(a[1..], b[1..], c[1..]);
    }
  }

  lemma {:induction false} LexLessIsStrictWeakOrder()
    ensures StrictWeakOrder(LexLess)
  {
    forall a, b | LexLess(a, b) ensures !LexLess(b, a) {
      LexLessAsymmetric(a, b);
    }
    forall a, b, c | !LexLess(a, b) && !LexLess(b, c) ensures !LexLess(a, c) {
      LexLessNegTransitive(a, b, c);
    }
  }
}
