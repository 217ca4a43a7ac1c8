/**
 * The orders the program sorts by and the sort itself. `List.sort` with a
 * `Comparator` is modelled as a stable insertion sort under a total
 * preorder `le` ("a may come before b"); `Comparator.reversed()` is `Flip`
 * and `thenComparing` is `Then`.
 */
module Sorting {

  // ----- String.compareTo -------------------------------------------------

  /** `a.compareTo(b) < 0`: the first differing character decides; a proper prefix comes first. */
  predicate StrLt(a: string, b: string)
  {
    if |a| == 0 then |b| > 0
    else if |b| == 0 then false
    else a[0] < b[0] || (a[0] == b[0] && StrLt(a[1..], b[1..]))
  }

  /** `a.compareTo(b) <= 0`. */
  predicate StrLe(a: string, b: string)
  {
    a == b || StrLt(a, b)
  }

  lemma {:induction false} StrLtIrreflexive(a: string)
    ensures !StrLt(a, a)
  {
    if |a| > 0 {
      StrLtIrreflexive(a[1..]);
    }
  }

  /** Any two different strings are ordered one way. */
  lemma {:induction false} StrLtTotal(a: string, b: string)
    ensures a == b || StrLt(a, b) || StrLt(b, a)
  {
    if |a| > 0 && |b| > 0 && a[0] == b[0] {
      StrLtTotal(a[1..], b[1..]);
      if a[1..] == b[1..] {
        assert a == [a[0]] + a[1..] && b == [b[0]] + b[1..];
      }
    }
  }

  lemma {:induction false} StrLtTransitive(a: string, b: string, c: string)
    requires StrLt(a, b) && StrLt(b, c)
    ensures StrLt(a, c)
  {
    if |a| > 0 && a[0] == b[0] && b[0] == c[0] {
      StrLtTransitive(a[1..], b[1..], c[1..]);
    }
  }

  /** `StrLe` is a total order: total, transitive and antisymmetric. */
  lemma StrLeOrder(a: string, b: string, c: string)
    ensures StrLe(a, b) || StrLe(b, a)
    ensures StrLe(a, b) && StrLe(b, c) ==> StrLe(a, c)
    ensures StrLe(a, b) && StrLe(b, a) ==> a == b
  {
    StrLtTotal(a, b);
    if StrLt(a, b) && StrLt(b, c) {
      StrLtTransitive(a, b, c);
    }
    if StrLt(a, b) && StrLt(b, a) {
      StrLtTransitive(a, b, a);
      StrLtIrreflexive(a);
    }
  }

  // ----- comparators ------------------------------------------------------

  /** `le` orders every pair and is transitive. */
  ghost predicate TotalPreorder<T(!new)>(le: (T, T) -> bool)
  {
    && (forall a, b :: le(a, b) || le(b, a))
    && (forall a, b, c :: le(a, b) && le(b, c) ==> le(a, c))
  }

  /** `Comparator.comparing(key)` for a string key. */
  function ByName<T>(key: T -> string): (T, T) -> bool
  {
    (a: T, b: T) => StrLe(key(a), key(b))
  }

  /** `Comparator.comparing(key)` for a `double` key. */
  function ByReal<T>(key: T -> real): (T, T) -> bool
  {
    (a: T, b: T) => key(a) <= key(b)
  }

  /** `Comparator.reversed()`. */
  function Flip<T>(le: (T, T) -> bool): (T, T) -> bool
  {
    (a: T, b: T) => le(b, a)
  }

  /** `first.thenComparing(second)`: `second` decides between elements `first` ranks equal. */
  function Then<T>(first: (T, T) -> bool, second: (T, T) -> bool): (T, T) -> bool
  {
    (a: T, b: T) => (first(a, b) && !first(b, a)) || (first(a, b) && first(b, a) && second(a, b))
  }

  lemma ByNamePreorder<T(!new)>(key: T -> string)
    ensures TotalPreorder(ByName(key))
  {
    forall a: T, b: T, c: T ensures (StrLe(key(a), key(b)) || StrLe(key(b), key(a)))
      && (StrLe(key(a), key(b)) && StrLe(key(b), key(c)) ==> StrLe(key(a), key(c)))
    {
      StrLeOrder(key(a), key(b), key(c));
    }
  }

  lemma ByRealPreorder<T(!new)>(key: T -> real)
    ensures TotalPreorder(ByReal(key))
  {
  }

  lemma FlipPreorder<T(!new)>(le: (T, T) -> bool)
    requires TotalPreorder(le)
    ensures TotalPreorder(Flip(le))
  {
  }

  lemma ThenPreorder<T(!new)>(first: (T, T) -> bool, second: (T, T) -> bool)
    requires TotalPreorder(first) && TotalPreorder(second)
    ensures TotalPreorder(Then(first, second))
  {
    var t := Then(first, second);
    forall a: T, b: T, c: T | t(a, b) && t(b, c) ensures t(a, c) {
      assert first(a, b) && first(b, c) && first(a, c);
    }
  }

  // ----- the sort ---------------------------------------------------------

  /** Every element may come before every later one. */
  predicate Sorted<T>(s: seq<T>, le: (T, T) -> bool)
  {
    forall i, j :: 0 <= i < j < |s| ==> le(s[i], s[j])
  }

  /** Inserts `x` before the first element it may precede, so it stays ahead of the ones it ties with. */
  function Insert<T(!new)>(x: T, t: seq<T>, le: (T, T) -> bool): (r: seq<T>)
    requires TotalPreorder(le) && Sorted(t, le)
    ensures multiset(r) == multiset{x} + multiset(t) && |r| == |t| + 1
    ensures Sorted(r, le)
  {
    if |t| == 0 || le(x, t[0]) then
      assert Sorted([x] + t, le) by { InsertFront(x, t, le); }
      [x] + t
    else
      var u := Insert(x, t[1..], le);
      assert Sorted([t[0]] + u, le) by { InsertBehind(x, t, u, le); }
      assert t == [t[0]] + t[1..];
      [t[0]] + u
  }

  lemma InsertFront<T(!new)>(x: T, t: seq<T>, le: (T, T) -> bool)
    requires TotalPreorder(le) && Sorted(t, le)
    requires |t| == 0 || le(x, t[0])
    ensures Sorted([x] + t, le)
  {
    forall i, j | 0 <= i < j < |[x] + t| ensures le(([x] + t)[i], ([x] + t)[j]) {
      if i == 0 && j > 1 {
        assert le(t[0], t[j - 1]);
      }
    }
  }

  lemma InsertBehind<T(!new)>(x: T, t: seq<T>, u: seq<T>, le: (T, T) -> bool)
    requires TotalPreorder(le) && Sorted(t, le) && Sorted(u, le)
    requires |t| > 0 && !le(x, t[0])
    requires multiset(u) == multiset{x} + multiset(t[1..])
    ensures Sorted([t[0]] + u, le)
  {
    forall k | 0 <= k < |u| ensures le(t[0], u[k]) {
      assert u[k] in multiset(u);
      if u[k] != x {
        assert u[k] in multiset(t[1..]);
        var m :| 0 <= m < |t[1..]| && t[1..][m] == u[k];
        assert t[1..][m] == t[m + 1];
      }
    }
    forall i, j | 0 <= i < j < |[t[0]] + u| ensures le(([t[0]] + u)[i], ([t[0]] + u)[j]) {
      if i > 0 {
        assert ([t[0]] + u)[i] == u[i - 1];
      }
    }
  }

  /** `List.sort(comparator)`: a sorted permutation. */
  function Sort<T(!new)>(s: seq<T>, le: (T, T) -> bool): (r: seq<T>)
    requires TotalPreorder(le)
    ensures multiset(r) == multiset(s) && |r| == |s|
    ensures Sorted(r, le)
  {
    if |s| == 0 then []
    else
      assert s == [s[0]] + s[1..];
      Insert(s[0], Sort(s[1..], le), le)
  }

  // ----- stability --------------------------------------------------------

  /** The elements of `s` that `le` ranks equal to `a`, in their order in `s`. */
  function Ties<T>(s: seq<T>, a: T, le: (T, T) -> bool): seq<T>
  {
    if |s| == 0 then []
    else (if le(s[0], a) && le(a, s[0]) then [s[0]] else []) + Ties(s[1..], a, le)
  }

  /** Inserting `x` puts it ahead of every element it ties with, as if it had been in front. */
  lemma {:induction false} InsertStable<T(!new)>(x: T, t: seq<T>, a: T, le: (T, T) -> bool)
    requires TotalPreorder(le) && Sorted(t, le)
    ensures Ties(Insert(x, t, le), a, le) == Ties([x] + t, a, le)
    decreases |t|
  {
    var r := Insert(x, t, le);
    if |t| == 0 || le(x, t[0]) {
      assert r == [x] + t;
    } else {
      var u := Insert(x, t[1..], le);
      assert r == [t[0]] + u;
      InsertStable(x, t[1..], a, le);
      assert ([t[0]] + u)[1..] == u && ([t[0]] + ([x] + t[1..]))[1..] == [x] + t[1..];
      assert Ties(r, a, le) == Ties([t[0]] + ([x] + t[1..]), a, le);
      TiesSwap(x, t[0], t[1..], a, le);
      assert [t[0]] + t[1..] == t;
    }
  }

  /** An element that may not precede `y` does not tie with `a` when `y` does, so the two can change places. */
  lemma TiesSwap<T(!new)>(x: T, y: T, t: seq<T>, a: T, le: (T, T) -> bool)
    requires TotalPreorder(le) && !le(x, y)
    ensures Ties([y] + ([x] + t), a, le) == Ties([x] + ([y] + t), a, le)
  {
    assert ([y] + ([x] + t))[1..] == [x] + t && ([x] + t)[1..] == t;
    assert ([x] + ([y] + t))[1..] == [y] + t && ([y] + t)[1..] == t;
    assert !(le(x, a) && le(a, x) && le(y, a) && le(a, y));
  }

  /**
   * The sort is stable: the elements that `le` ranks equal keep their input
   * order.
   */
  lemma {:induction false} SortStable<T(!new)>(s: seq<T>, a: T, le: (T, T) -> bool)
    requires TotalPreorder(le)
    ensures Ties(Sort(s, le), a, le) == Ties(s, a, le)
    decreases |s|
  {
    if |s| > 0 {
      SortStable(s[1..], a, le);
      InsertStable(s[0], Sort(s[1..], le), a, le);
      assert ([s[0]] + Sort(s[1..], le))[1..] == Sort(s[1..], le);
    }
  }
}
