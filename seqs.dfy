/**
 * Generic list helpers shared by the spreadsheet readers: keeping the
 * present values of a list of optional values, and mapping a function
 * over a list, each with the facts the readers' proofs need.
 */
module Seqs {
  import opened Wrappers

  /** The present values of a list of optional values, in order. */
  function Kept<T>(xs: seq<Option<T>>): (r: seq<T>)
    ensures |r| <= |xs|
  {
    if xs == [] then []
    else Kept(xs[..|xs| - 1]) + (match xs[|xs| - 1] case Some(x) => [x] case None => [])
  }

  lemma KeptSnoc<T>(xs: seq<Option<T>>, o: Option<T>)
    ensures Kept(xs + [o]) == Kept(xs) + (match o case Some(x) => [x] case None => [])
  {
    assert (xs + [o])[..|xs|] == xs;
  }

  /** Keeping the values of two stacked lists stacks what each keeps. */
  lemma {:induction false} KeptAppend<T>(a: seq<Option<T>>, b: seq<Option<T>>)
    ensures Kept(a + b) == Kept(a) + Kept(b)
  {
    if b == [] {
      assert a + b == a;
    } else {
      var front, last := b[..|b| - 1], b[|b| - 1];
      var tail: seq<T> := match last case Some(x) => [x] case None => [];
      calc {
        Kept(a + b);
      == { assert a + b == (a + front) + [last]; }
        Kept((a + front) + [last]);
      == { KeptSnoc(a + front, last); }
        Kept(a + front) + tail;
      == { KeptAppend(a, front); }
        (Kept(a) + Kept(front)) + tail;
      == { assert (Kept(a) + Kept(front)) + tail == Kept(a) + (Kept(front) + tail); }
        Kept(a) + (Kept(front) + tail);
      == { assert b == front + [last]; KeptSnoc(front, last); }
        Kept(a) + Kept(b);
      }
    }
  }

  /** A value is kept exactly when some position holds it. */
  lemma KeptExact<T>(xs: seq<Option<T>>, v: T)
    ensures v in Kept(xs) <==> exists i :: 0 <= i < |xs| && xs[i] == Some(v)
  {
    if v in Kept(xs) {
      KeptSound(xs, v);
    }
    if exists i :: 0 <= i < |xs| && xs[i] == Some(v) {
      var i :| 0 <= i < |xs| && xs[i] == Some(v);
      KeptComplete(xs, v, i);
    }
  }

  /** A kept value is held at some position. */
  lemma {:induction false} KeptSound<T>(xs: seq<Option<T>>, v: T)
    requires v in Kept(xs)
    ensures exists i :: 0 <= i < |xs| && xs[i] == Some(v)
  {
    var front := xs[..|xs| - 1];
    if v in Kept(front) {
      KeptSound(front, v);
      var i :| 0 <= i < |front| && front[i] == Some(v);
      assert xs[i] == front[i];
    } else {
      assert xs[|xs| - 1] == Some(v);
    }
  }

  /** A value held at some position is kept. */
  lemma {:induction false} KeptComplete<T>(xs: seq<Option<T>>, v: T, i: nat)
    requires i < |xs| && xs[i] == Some(v)
    ensures v in Kept(xs)
  {
    var front := xs[..|xs| - 1];
    if i < |front| {
      assert front[i] == xs[i];
      KeptComplete(front, v, i);
    }
  }

  /** f applied to every element, in order. */
  function Mapped<A, B>(f: A -> B, xs: seq<A>): (r: seq<B>)
    ensures |r| == |xs|
  {
    if xs == [] then [] else Mapped(f, xs[..|xs| - 1]) + [f(xs[|xs| - 1])]
  }

  /** The i-th result is f of the i-th element. */
  lemma {:induction false} MappedAt<A, B>(f: A -> B, xs: seq<A>, i: nat)
    requires i < |xs|
    ensures Mapped(f, xs)[i] == f(xs[i])
  {
    if i < |xs| - 1 {
      MappedAt(f, xs[..|xs| - 1], i);
    }
  }

  /** Every result is f of the element at the same position. */
  lemma MappedAll<A, B>(f: A -> B, xs: seq<A>)
    ensures forall i :: 0 <= i < |xs| ==> Mapped(f, xs)[i] == f(xs[i])
  {
    forall i | 0 <= i < |xs|
      ensures Mapped(f, xs)[i] == f(xs[i])
    {
      MappedAt(f, xs, i);
    }
  }

  lemma MappedPrefix<A, B>(f: A -> B, xs: seq<A>, i: nat)
    requires i < |xs|
    ensures Mapped(f, xs[..i + 1]) == Mapped(f, xs[..i]) + [f(xs[i])]
  {
    forall k | 0 <= k < i
      ensures xs[..i + 1][..i][k] == xs[..i][k]
    {
    }
    assert xs[..i + 1][..i] == xs[..i];
    assert xs[..i + 1][i] == xs[i];
  }

  lemma {:induction false} MappedAppend<A, B>(f: A -> B, a: seq<A>, b: seq<A>)
    ensures Mapped(f, a + b) == Mapped(f, a) + Mapped(f, b)
  {
    if b == [] {
      assert a + b == a;
    } else {
      var front := b[..|b| - 1];
      MappedAppend(f, a, front);
      var last := b[|b| - 1];
      forall k | 0 <= k < |a + front|
        ensures (a + b)[..|a + b| - 1][k] == (a + front)[k]
      {
        if k >= |a| {
          assert (a + front)[k] == front[k - |a|];
        }
      }
      assert (a + b)[..|a + b| - 1] == a + front;
      assert (a + b)[|a + b| - 1] == last;
      assert Mapped(f, a + b) == Mapped(f, a + front) + [f(last)];
      assert Mapped(f, b) == Mapped(f, front) + [f(last)];
    }
  }

  /** The prefix one longer extends the prefix by the next element. */
  lemma PrefixStep<T>(xs: seq<T>, i: nat)
    requires i < |xs|
    ensures xs[..i + 1][..i] == xs[..i] && xs[..i + 1][i] == xs[i]
  {
  }

  /** The prefix as long as the list is the list. */
  lemma WholePrefix<T>(xs: seq<T>, i: nat)
    requires i == |xs|
    ensures xs[..i] == xs
  {
  }

  /** The last element of a + b, and what precedes it, when b is not empty. */
  lemma SliceAppend<T>(a: seq<T>, b: seq<T>)
    requires b != []
    ensures (a + b)[..|a + b| - 1] == a + b[..|b| - 1]
    ensures (a + b)[|a + b| - 1] == b[|b| - 1]
  {
  }

  lemma AppendAssoc<T>(a: seq<T>, b: seq<T>, c: seq<T>)
    ensures a + b + c == a + (b + c)
  {
  }

  /** No element occurs twice. */
  predicate NoDup<T(==)>(xs: seq<T>) {
    forall i, j :: 0 <= i < j < |xs| ==> xs[i] != xs[j]
  }

  /** The distinct elements in order of first occurrence (pandas' unique()). */
  function Unique<T(==)>(xs: seq<T>): seq<T> {
    if xs == [] then []
    else
      var prev := Unique(xs[..|xs| - 1]);
      if xs[|xs| - 1] in prev then prev else prev + [xs[|xs| - 1]]
  }

  /** unique() drops repeats only: no element twice, and the same elements as the input. */
  lemma {:induction false} UniqueExact<T>(xs: seq<T>)
    ensures NoDup(Unique(xs))
    ensures forall x :: x in Unique(xs) <==> x in xs
  {
    if xs != [] {
      var front := xs[..|xs| - 1];
      UniqueExact(front);
      assert forall x :: x in xs <==> x in front || x == xs[|xs| - 1];
    }
  }

  /** [x for x in xs if x not in p]. */
  function Outside<T(==,!new)>(xs: seq<T>, p: set<T>): (r: seq<T>)
    ensures forall x :: x in r <==> x in xs && x !in p
  {
    if xs == [] then []
    else Outside(xs[..|xs| - 1], p) + (if xs[|xs| - 1] in p then [] else [xs[|xs| - 1]])
  }

  /** Filtering by two sets that agree on the list's elements gives the same list. */
  lemma {:induction false} OutsideAgree<T(!new)>(xs: seq<T>, p: set<T>, q: set<T>)
    requires forall x :: x in xs ==> (x in p <==> x in q)
    ensures Outside(xs, p) == Outside(xs, q)
  {
    if xs != [] {
      OutsideAgree(xs[..|xs| - 1], p, q);
    }
  }

  /**
   * Out of a list without repeats, the elements outside a set of its own
   * elements number the list's length minus the set's size.
   */
  lemma {:induction false} OutsideCount<T(!new)>(xs: seq<T>, p: set<T>)
    requires NoDup(xs) && forall x :: x in p ==> x in xs
    ensures |Outside(xs, p)| + |p| == |xs|
  {
    if xs == [] {
      assert p == {};
    } else {
      var front := xs[..|xs| - 1];
      var x := xs[|xs| - 1];
      NoDupFront(xs);
      var q := p - {x};
      WithinFront(xs, p, q);
      if x in p {
        OutsideCount(front, q);
        OutsideAgree(front, p, q);
        assert |p| == |q| + 1 by {
          assert p == q + {x};
        }
      } else {
        assert q == p;
        OutsideCount(front, p);
      }
    }
  }

  /** The front of a list without repeats has none and lacks the last element. */
  lemma NoDupFront<T>(xs: seq<T>)
    requires xs != [] && NoDup(xs)
    ensures NoDup(xs[..|xs| - 1]) && xs[|xs| - 1] !in xs[..|xs| - 1]
  {
  }

  /** Elements of a list other than its last lie in its front. */
  lemma WithinFront<T(!new)>(xs: seq<T>, p: set<T>, q: set<T>)
    requires xs != [] && forall x :: x in p ==> x in xs
    requires q == p - {xs[|xs| - 1]}
    ensures forall y :: y in q ==> y in xs[..|xs| - 1]
  {
    forall y | y in q ensures y in xs[..|xs| - 1] {
      var i :| 0 <= i < |xs| && xs[i] == y;
      assert xs[..|xs| - 1][i] == y;
    }
  }

  /** The elements of a list, as a set. */
  function Elems<T(!new)>(xs: seq<T>): set<T> {
    set x | x in xs
  }

  /** A list without repeats has as many elements as its set. */
  lemma {:induction false} NoDupCard<T(!new)>(xs: seq<T>)
    requires NoDup(xs)
    ensures |Elems(xs)| == |xs|
  {
    if xs != [] {
      var front := xs[..|xs| - 1];
      var x := xs[|xs| - 1];
      assert NoDup(front);
      NoDupCard(front);
      assert x !in front;
      assert Elems(xs) == Elems(front) + {x};
    }
  }

  /** The position of the first element of xs that is in s. */
  function FirstIn<T(==)>(xs: seq<T>, s: set<T>): (r: Option<nat>)
    ensures r.Some? ==> r.value < |xs| && xs[r.value] in s
    ensures r.Some? ==> forall j :: 0 <= j < r.value ==> xs[j] !in s
    ensures r.None? <==> forall j :: 0 <= j < |xs| ==> xs[j] !in s
  {
    if xs == [] then None
    else if xs[0] in s then Some(0)
    else match FirstIn(xs[1..], s)
      case None => None
      case Some(i) => Some(i + 1)
  }
}
