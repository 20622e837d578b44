/** Small shared vocabulary: optional values and lists without repetitions. */
module Prelude {

  datatype Option<+T> = None | Some(value: T)

  /** The largest value of Go's 64-bit signed `int`. */
  const MAX_INT := 0x7FFF_FFFF_FFFF_FFFF

  const MIN_INT := -0x8000_0000_0000_0000

  ghost predicate NoDup<T>(s: seq<T>) {
    forall i, j :: 0 <= i < j < |s| ==> s[i] != s[j]
  }

  function Elements<T>(s: seq<T>): set<T> {
    set x | x in s
  }

  /** A list has as many distinct elements as entries exactly when nothing repeats. */
  lemma {:induction false} DistinctCount<T>(s: seq<T>)
    ensures |Elements(s)| <= |s|
    ensures |Elements(s)| == |s| <==> NoDup(s)
  {
    if s != [] {
      var last, init := s[|s| - 1], s[..|s| - 1];
      assert s == init + [last];
      DistinctCount(init);
      assert Elements(s) == Elements(init) + {last};
      if last in init {
        var i :| 0 <= i < |init| && init[i] == last;
        assert s[i] == s[|s| - 1];
      } else if NoDup(init) {
        assert NoDup(s);
      } else {
        var i, j :| 0 <= i < j < |init| && init[i] == init[j];
        assert s[i] == s[j];
      }
    }
  }

  /** A repetition-free list over the same elements is a rearrangement of the other. */
  lemma {:induction false} SameElementsSameBag<T>(a: seq<T>, b: seq<T>)
    requires NoDup(a) && NoDup(b)
    ensures Elements(a) == Elements(b) <==> multiset(a) == multiset(b)
  {
    NoDupBag(a);
    NoDupBag(b);
    if Elements(a) == Elements(b) {
      forall x ensures multiset(a)[x] == multiset(b)[x] {
        assert x in multiset(a) <==> x in Elements(a);
        assert x in multiset(b) <==> x in Elements(b);
      }
    } else if multiset(a) == multiset(b) {
      forall x ensures x in Elements(a) <==> x in Elements(b) {
        assert x in multiset(a) <==> x in Elements(a);
        assert x in multiset(b) <==> x in Elements(b);
      }
    }
  }

  lemma {:induction false} NoDupBag<T>(s: seq<T>)
    requires NoDup(s)
    ensures forall x :: multiset(s)[x] <= 1
  {
    if s != [] {
      var last, init := s[|s| - 1], s[..|s| - 1];
      assert s == init + [last];
      NoDupBag(init);
      assert last !in init;
      assert multiset(s) == multiset(init) + multiset{last};
    }
  }

  lemma SubsetCount<T>(a: set<T>, b: set<T>)
    requires a <= b
    ensures |a| <= |b|
    ensures |a| == |b| ==> a == b
  {
    assert b == a + (b - a);
  }

  lemma OneDone<T>(all: set<T>, todo: set<T>, x: T)
    requires x in todo && todo <= all
    ensures all - todo + {x} == all - (todo - {x}) && todo - {x} <= all && x in all
  {
  }

  lemma NoneDone<T>(all: set<T>)
    ensures all - all == {} && all - {} == all
  {
  }

  lemma Associative<T>(a: seq<T>, b: seq<T>, c: seq<T>)
    ensures a + b + c == a + (b + c)
  {
  }

  lemma SnocInit<T>(s: seq<T>)
    requires s != []
    ensures s == s[..|s| - 1] + [s[|s| - 1]]
  {
  }

  lemma SomeElement(s: set<int>)
    ensures s != {} ==> exists k: int :: k in s
  {
    if forall k: int :: k !in s {
      assert s == {};
    }
  }

  function Mapped<A, B>(f: A -> B, s: seq<A>): (r: seq<B>)
    ensures |r| == |s| && forall i :: 0 <= i < |s| ==> r[i] == f(s[i])
  {
    seq(|s|, i requires 0 <= i < |s| => f(s[i]))
  }

  ghost predicate OneToOne<A(!new), B>(f: A -> B) {
    forall x, y :: f(x) == f(y) ==> x == y
  }

  lemma {:induction false} MappedCount<A(!new), B>(f: A -> B, s: seq<A>, x: A)
    requires OneToOne(f)
    ensures multiset(Mapped(f, s))[f(x)] == multiset(s)[x]
  {
    if s != [] {
      var init, last := s[..|s| - 1], s[|s| - 1];
      MappedCount(f, init, x);
      assert s == init + [last] && Mapped(f, s) == Mapped(f, init) + [f(last)];
      assert multiset(s) == multiset(init) + multiset{last};
      assert multiset(Mapped(f, s)) == multiset(Mapped(f, init)) + multiset{f(last)};
    }
  }

  /** Replacing the elements of two lists one by one keeps whether the lists are rearrangements of each other. */
  lemma MappedBag<A(!new), B>(f: A -> B, a: seq<A>, b: seq<A>)
    requires OneToOne(f)
    ensures multiset(Mapped(f, a)) == multiset(Mapped(f, b)) <==> multiset(a) == multiset(b)
  {
    if multiset(Mapped(f, a)) == multiset(Mapped(f, b)) {
      forall x ensures multiset(a)[x] == multiset(b)[x] {
        MappedCount(f, a, x);
        MappedCount(f, b, x);
      }
    }
    if multiset(a) == multiset(b) {
      SubBag(f, a, b);
      SubBag(f, b, a);
    }
  }

  lemma SubBag<A(!new), B>(f: A -> B, a: seq<A>, b: seq<A>)
    requires OneToOne(f) && multiset(a) == multiset(b)
    ensures multiset(Mapped(f, a)) <= multiset(Mapped(f, b))
  {
    forall y | y in multiset(Mapped(f, a)) ensures multiset(Mapped(f, a))[y] <= multiset(Mapped(f, b))[y] {
      var i :| 0 <= i < |a| && Mapped(f, a)[i] == y;
      MappedCount(f, a, a[i]);
      MappedCount(f, b, a[i]);
    }
  }
}
