/** Counting with duplicate-free sequences and injective images. */
module Finite {

  predicate Distinct<T(==)>(s: seq<T>) {
    forall i, j :: 0 <= i < j < |s| ==> s[i] != s[j]
  }

  ghost function Elements<T>(s: seq<T>): set<T> {
    set x | x in s
  }

  lemma {:induction false} DistinctSize<T>(s: seq<T>)
    requires Distinct(s)
    ensures |Elements(s)| == |s|
  {
    if s != [] {
      var front, last := s[..|s| - 1], s[|s| - 1];
      DistinctSize(front);
      assert Elements(s) == Elements(front) + {last};
    }
  }

  lemma {:induction false} Pigeonhole(s: set<int>, n: nat)
    requires forall x :: x in s ==> 0 <= x < n
    ensures |s| <= n
  {
    if n > 0 {
      Pigeonhole(s - {n - 1}, n - 1);
      assert n - 1 in s ==> s == (s - {n - 1}) + {n - 1};
      assert n - 1 !in s ==> s == s - {n - 1};
    } else {
      assert forall x :: x !in s;
    }
  }

  ghost function Image<A, B>(s: set<A>, f: A -> B): set<B> {
    set x | x in s :: f(x)
  }

  lemma {:induction false} ImageSize<A, B>(s: set<A>, f: A -> B)
    requires forall x, y :: x in s && y in s && f(x) == f(y) ==> x == y
    ensures |Image(s, f)| == |s|
  {
    if s != {} {
      var a :| a in s;
      ImageSize(s - {a}, f);
      assert Image(s, f) == Image(s - {a}, f) + {f(a)};
    }
  }

  /** `f` tells apart all elements of `s` that `g` does. */
  ghost predicate Separates<A, B, C>(s: set<A>, f: A -> B, g: A -> C) {
    forall x, y :: x in s && y in s && f(x) == f(y) ==> g(x) == g(y)
  }

  lemma OneMoreElement<A, B, C>(s: set<A>, a: A, f: A -> B, g: A -> C)
    requires a in s && Separates(s, g, f)
    ensures Image(s, f) == Image(s - {a}, f) + {f(a)} && Image(s, g) == Image(s - {a}, g) + {g(a)}
    ensures Separates(s - {a}, g, f) && (g(a) in Image(s - {a}, g) ==> f(a) in Image(s - {a}, f))
    ensures Separates(s, f, g)
            <==> Separates(s - {a}, f, g) && (f(a) in Image(s - {a}, f) ==> g(a) in Image(s - {a}, g))
  {
  }

  lemma AddedSize<B>(values: set<B>, v: B)
    ensures |values + {v}| == |values| + if v in values then 0 else 1
  {
    if v in values { assert values + {v} == values; }
  }

  /** A function that tells no more elements apart than another has at most as many values, and as many only if it
      tells the same elements apart. */
  lemma {:induction false} CoarserImage<A, B, C>(s: set<A>, f: A -> B, g: A -> C)
    requires Separates(s, g, f)
    ensures |Image(s, f)| <= |Image(s, g)|
    ensures |Image(s, f)| == |Image(s, g)| <==> Separates(s, f, g)
  {
    if s != {} {
      var a :| a in s;
      OneMoreElement(s, a, f, g);
      hide Image, Separates;
      CoarserImage(s - {a}, f, g);
      AddedSize(Image(s - {a}, f), f(a));
      AddedSize(Image(s - {a}, g), g(a));
    }
  }
}
