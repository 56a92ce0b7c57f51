/**
 Orders, ranks and sorting: what the tab allocator needs from `operator<` on strings and from `std::sort`.
 */
module Ordering {
  /** The order of `std::string`: compare character by character, a proper prefix comes first. */
  predicate StringLess(a: string, b: string) {
    |b| > 0 && (|a| == 0 || a[0] < b[0] || (a[0] == b[0] && StringLess(a[1..], b[1..])))
  }

  lemma {:induction false} StringLessIrreflexive(a: string)
    ensures !StringLess(a, a)
  {
    if |a| > 0 {
      StringLessIrreflexive(a[1..]);
    }
  }

  lemma {:induction false} StringLessTransitive(a: string, b: string, c: string)
    requires StringLess(a, b) && StringLess(b, c)
    ensures StringLess(a, c)
  {
    if |a| > 0 && a[0] == b[0] == c[0] {
      StringLessTransitive(a[1..], b[1..], c[1..]);
    }
  }

  lemma {:induction false} StringLessTotal(a: string, b: string)
    ensures a == b || StringLess(a, b) || StringLess(b, a)
  {
    if |a| > 0 && |b| > 0 && a[0] == b[0] {
      StringLessTotal(a[1..], b[1..]);
      assert a == [a[0]] + a[1..] && b == [b[0]] + b[1..];
    }
  }

  /** `a` and `b` agree before position i, and there `a` ends or has the smaller character. */
  ghost predicate FirstDifference(a: string, b: string, i: nat) {
    && i <= |a| && i < |b| && a[..i] == b[..i]
    && (i == |a| || a[i] < b[i])
  }

  /** The recursive order is the lexicographic one: it is decided at the first difference. */
  lemma {:induction false} StringLessMeaning(a: string, b: string)
    ensures StringLess(a, b) <==> exists i: nat :: FirstDifference(a, b, i)
  {
    if StringLess(a, b) {
      if |a| > 0 && a[0] == b[0] {
        StringLessMeaning(a[1..], b[1..]);
        var i: nat :| FirstDifference(a[1..], b[1..], i);
        assert a[..i + 1] == [a[0]] + a[1..][..i] && b[..i + 1] == [b[0]] + b[1..][..i];
        assert FirstDifference(a, b, i + 1);
      } else {
        assert FirstDifference(a, b, 0);
      }
    } else if i: nat :| FirstDifference(a, b, i) {
      if i > 0 {
        assert a[..i][0] == b[..i][0];
        assert a[1..][..i - 1] == a[..i][1..] && b[1..][..i - 1] == b[..i][1..];
        assert FirstDifference(a[1..], b[1..], i - 1);
        StringLessMeaning(a[1..], b[1..]);
      }
    }
  }

  // ---------- finite sets ----------

  lemma {:induction false} SubsetSize<T>(small: set<T>, large: set<T>)
    requires small <= large
    ensures |small| <= |large|
    ensures small != large ==> |small| < |large|
  {
    if small != {} {
      var x :| x in small;
      SubsetSize(small - {x}, large - {x});
    }
  }

  /** An injective function keeps the size of a finite set. */
  lemma {:induction false} ImageSize<A, B>(domain: set<A>, image: set<B>, f: A -> B)
    requires forall a :: a in domain ==> f(a) in image
    requires forall b :: b in image ==> exists a :: a in domain && f(a) == b
    requires forall a, a' :: a in domain && a' in domain && f(a) == f(a') ==> a == a'
    ensures |image| == |domain|
  {
    if domain != {} {
      var a :| a in domain;
      forall b | b in image - {f(a)} ensures exists a' :: a' in domain - {a} && f(a') == b {
        var a' :| a' in domain && f(a') == b;
        assert a' in domain - {a};
      }
      ImageSize(domain - {a}, image - {f(a)}, f);
    }
  }

  /** The integers lo..hi, both included. */
  ghost function Interval(lo: int, hi: int): (s: set<int>)
    ensures forall p :: p in s <==> lo <= p <= hi
    ensures |s| == if lo <= hi then hi - lo + 1 else 0
    decreases hi - lo
  {
    if lo > hi then {} else {lo} + Interval(lo + 1, hi)
  }

  // ---------- sequences without repetition ----------

  ghost predicate Distinct<T>(s: seq<T>) {
    forall i, j :: 0 <= i < j < |s| ==> s[i] != s[j]
  }

  ghost function Elements<T>(s: seq<T>): set<T> {
    set x | x in s
  }

  lemma {:induction false} ElementsSize<T>(s: seq<T>)
    requires Distinct(s)
    ensures |Elements(s)| == |s|
  {
    if |s| > 0 {
      var init, last := s[..|s| - 1], s[|s| - 1];
      ElementsSize(init);
      assert s == init + [last];
      assert Elements(s) == Elements(init) + {last};
    }
  }

  lemma {:induction false} ElementsAtMost<T>(s: seq<T>)
    ensures |Elements(s)| <= |s|
  {
    if |s| > 0 {
      ElementsAtMost(s[1..]);
      assert Elements(s) == {s[0]} + Elements(s[1..]);
    }
  }

  lemma DistinctBySize<T>(t: seq<T>)
    requires |Elements(t)| == |t|
    ensures Distinct(t)
  {
    forall i, j | 0 <= i < j < |t| ensures t[i] != t[j] {
      var short := t[..j] + t[j + 1..];
      if t[i] == t[j] {
        forall x | x in t ensures x in short {
          var k :| 0 <= k < |t| && t[k] == x;
          var k' := if k == j then i else k;
          assert short[if k' < j then k' else k' - 1] == x;
        }
        SubsetSize(Elements(t), Elements(short));
      }
      ElementsAtMost(short);
    }
  }

  lemma MultisetElements<T>(s: seq<T>, t: seq<T>)
    requires multiset(s) == multiset(t)
    ensures Elements(s) == Elements(t) && |s| == |t|
    ensures Distinct(s) ==> Distinct(t)
  {
    forall x ensures x in s <==> x in t {
      assert x in s <==> x in multiset(s);
      assert x in t <==> x in multiset(t);
    }
    assert |s| == |multiset(s)| == |multiset(t)| == |t|;
    if Distinct(s) {
      ElementsSize(s);
      assert Elements(s) == Elements(t);
      DistinctBySize(t);
    }
  }

  // ---------- sorting ----------

  ghost predicate StrictOrder<T(!new)>(less: (T, T) -> bool) {
    && (forall a :: !less(a, a))
    && (forall a, b, c :: less(a, b) && less(b, c) ==> less(a, c))
  }

  ghost predicate SortedBy<T>(less: (T, T) -> bool, s: seq<T>) {
    forall i, j :: 0 <= i < j < |s| ==> less(s[i], s[j])
  }

  /** How many members of `all` come before `x`. */
  ghost function Rank<T>(less: (T, T) -> bool, all: set<T>, x: T): nat {
    |set m | m in all && less(m, x)|
  }

  ghost predicate TotalOn<T>(less: (T, T) -> bool, all: set<T>) {
    forall a, b :: a in all && b in all && a != b ==> less(a, b) || less(b, a)
  }

  /** Only comparisons with `x` itself count for the rank of `x`. */
  lemma RankDependsOn<T>(less: (T, T) -> bool, less': (T, T) -> bool, all: set<T>, x: T)
    requires forall m :: m in all ==> less(m, x) == less'(m, x)
    ensures Rank(less, all, x) == Rank(less', all, x)
  {
    assert (set m | m in all && less(m, x)) == (set m | m in all && less'(m, x));
  }

  lemma RankBelowSize<T(!new)>(less: (T, T) -> bool, all: set<T>, x: T)
    requires StrictOrder(less) && x in all
    ensures Rank(less, all, x) < |all|
  {
    var before := set m | m in all && less(m, x);
    assert x !in before;
    SubsetSize(before, all);
  }

  lemma RankFollowsOrder<T(!new)>(less: (T, T) -> bool, all: set<T>, x: T, y: T)
    requires StrictOrder(less) && x in all && less(x, y)
    ensures Rank(less, all, x) < Rank(less, all, y)
  {
    var before, before' := (set m | m in all && less(m, x)), (set m | m in all && less(m, y));
    assert x !in before && x in before';
    SubsetSize(before, before');
  }

  /** In a total order of n elements every number below n is the rank of one of them. */
  lemma RankTaken<T(!new)>(less: (T, T) -> bool, all: set<T>, i: nat) returns (x: T)
    requires StrictOrder(less) && TotalOn(less, all) && i < |all|
    ensures x in all && Rank(less, all, x) == i
  {
    var rank: T -> int := a => Rank(less, all, a);
    var ranks: set<int> := set a | a in all :: rank(a);
    forall a, b | a in all && b in all && a != b ensures rank(a) != rank(b) {
      if less(a, b) {
        RankFollowsOrder(less, all, a, b);
      } else {
        RankFollowsOrder(less, all, b, a);
      }
    }
    ImageSize(all, ranks, rank);
    forall r | r in ranks ensures r in Interval(0, |all| - 1) {
      var a :| a in all && rank(a) == r;
      RankBelowSize(less, all, a);
    }
    SubsetSize(ranks, Interval(0, |all| - 1));
    assert i in ranks;
    x :| x in all && rank(x) == i;
  }

  /** In a sorted listing of a set, every element stands at its rank. */
  lemma RankIsIndex<T(!new)>(less: (T, T) -> bool, all: set<T>, s: seq<T>, i: nat)
    requires StrictOrder(less) && SortedBy(less, s) && Elements(s) == all
    requires i < |s|
    ensures Rank(less, all, s[i]) == i
  {
    var before := set m | m in all && less(m, s[i]);
    assert before == Elements(s[..i]) by {
      forall m | m in before ensures m in s[..i] {
        var k :| 0 <= k < |s| && s[k] == m;
        assert !(k >= i);
        assert s[..i][k] == m;
      }
    }
    assert Distinct(s[..i]);
    ElementsSize(s[..i]);
  }

  /** A set has at most one sorted listing. */
  lemma SortedUnique<T(!new)>(less: (T, T) -> bool, s: seq<T>, t: seq<T>)
    requires StrictOrder(less) && SortedBy(less, s) && SortedBy(less, t) && Elements(s) == Elements(t)
    ensures s == t
  {
    assert Distinct(s) && Distinct(t);
    ElementsSize(s);
    ElementsSize(t);
    forall i | 0 <= i < |s| ensures s[i] == t[i] {
      assert s[i] in Elements(t);
      var k :| 0 <= k < |t| && t[k] == s[i];
      RankIsIndex(less, Elements(s), s, i);
      RankIsIndex(less, Elements(s), t, k);
    }
  }

  lemma InsertedElements<T>(s: seq<T>, at: nat, x: T)
    requires at <= |s|
    ensures Elements(s[..at] + [x] + s[at..]) == Elements(s) + {x}
  {
    assert s == s[..at] + s[at..];
  }

  /** `std::sort` over a comparison of the elements' current state, here as an insertion sort. */
  method Sort<T(==)>(xs: seq<T>, less: (T, T) ~> bool) returns (ys: seq<T>)
    requires forall a, b :: a in xs && b in xs ==> less.requires(a, b)
    requires Distinct(xs)
    requires forall a, b :: a in xs && b in xs && a != b ==> less(a, b) || less(b, a)
    requires forall a, b, c :: a in xs && b in xs && c in xs && less(a, b) && less(b, c) ==> less(a, c)
    ensures Elements(ys) == Elements(xs) && |ys| == |xs|
    ensures forall a, b :: a in ys && b in ys ==> less.requires(a, b)
    ensures forall i, j :: 0 <= i < j < |ys| ==> less(ys[i], ys[j])
  {
    ys := [];
    for n := 0 to |xs|
      invariant |ys| == n && Elements(ys) == Elements(xs[..n])
      invariant forall i :: 0 <= i < n ==> ys[i] in xs
      invariant forall i, j :: 0 <= i < j < n ==> less(ys[i], ys[j])
    {
      var x := xs[n];
      forall i | 0 <= i < n ensures ys[i] != x {
        assert ys[i] in Elements(ys);
      }
      var at := 0;
      while at < |ys| && less(ys[at], x)
        invariant 0 <= at <= |ys|
        invariant forall i :: 0 <= i < at ==> less(ys[i], x)
      {
        at := at + 1;
      }
      InsertedElements(ys, at, x);
      assert at < |ys| ==> less(x, ys[at]);
      assert forall i :: at < i < |ys| ==> less(ys[at], ys[i]);
      ys := ys[..at] + [x] + ys[at..];
      assert xs[..n + 1] == xs[..n] + [x];
    }
    assert xs[..|xs|] == xs;
    assert forall y :: y in ys ==> y in Elements(xs);
  }
}
