/** Sequences mapped element by element, and when only the bag of their elements matters. */
module Bags {

  function FlatMap<A, B>(f: A -> seq<B>, s: seq<A>): seq<B> {
    if s == [] then [] else f(s[0]) + FlatMap(f, s[1..])
  }

  lemma {:induction false} FlatMapAppend<A, B>(f: A -> seq<B>, s: seq<A>, t: seq<A>)
    ensures FlatMap(f, s + t) == FlatMap(f, s) + FlatMap(f, t)
    decreases |s|
  {
    if s == [] {
      assert s + t == t;
    } else {
      FlatMapAppend(f, s[1..], t);
      assert (s + t)[1..] == s[1..] + t;
    }
  }

  lemma FlatMapSingle<A, B>(f: A -> seq<B>, x: A)
    ensures FlatMap(f, [x]) == f(x)
  {
  }

  lemma {:induction false} FlatMapSame<A, B>(f: A -> seq<B>, g: A -> seq<B>, s: seq<A>)
    requires forall x :: x in s ==> f(x) == g(x)
    ensures FlatMap(f, s) == FlatMap(g, s)
    decreases |s|
  {
    if s != [] {
      FlatMapSame(f, g, s[1..]);
    }
  }

  /** Two passes are one. */
  lemma {:induction false} FlatMapCompose<A, B, C>(f: A -> seq<B>, g: B -> seq<C>, h: A -> seq<C>, s: seq<A>)
    requires forall x :: x in s ==> h(x) == FlatMap(g, f(x))
    ensures FlatMap(g, FlatMap(f, s)) == FlatMap(h, s)
    decreases |s|
  {
    if s != [] {
      FlatMapCompose(f, g, h, s[1..]);
      FlatMapAppend(g, f(s[0]), FlatMap(f, s[1..]));
    }
  }

  /** Every element of the result comes from an element of the input. */
  lemma {:induction false} FlatMapIn<A, B>(f: A -> seq<B>, s: seq<A>, y: B)
    ensures y in FlatMap(f, s) <==> exists x :: x in s && y in f(x)
    decreases |s|
  {
    if s != [] {
      FlatMapIn(f, s[1..], y);
    }
  }

  /** Mapping all inputs to nothing gives nothing; one that does not is felt in the length. */
  lemma {:induction false} FlatMapLonger<A, B>(f: A -> seq<B>, g: A -> seq<B>, s: seq<A>)
    requires forall x :: x in s ==> |f(x)| <= |g(x)|
    ensures |FlatMap(f, s)| <= |FlatMap(g, s)|
    ensures |FlatMap(f, s)| == |FlatMap(g, s)| <==> forall x :: x in s ==> |f(x)| == |g(x)|
    decreases |s|
  {
    if s != [] {
      FlatMapLonger(f, g, s[1..]);
      assert forall x :: x in s <==> x == s[0] || x in s[1..];
    }
  }

  lemma FlatMapRemove<A, B>(f: A -> seq<B>, s: seq<A>, i: nat)
    requires i < |s|
    ensures multiset(FlatMap(f, s)) == multiset(f(s[i])) + multiset(FlatMap(f, s[..i] + s[i + 1..]))
  {
    assert s == s[..i] + ([s[i]] + s[i + 1..]);
    FlatMapAppend(f, s[..i], [s[i]] + s[i + 1..]);
    FlatMapAppend(f, [s[i]], s[i + 1..]);
    FlatMapAppend(f, s[..i], s[i + 1..]);
  }

  lemma Removed<A>(s: seq<A>, i: nat)
    requires i < |s|
    ensures multiset(s) == multiset{s[i]} + multiset(s[..i] + s[i + 1..])
  {
    assert s == s[..i] + [s[i]] + s[i + 1..];
  }

  /** The bag of a mapped sequence depends on the bag of the sequence only. */
  lemma {:induction false} FlatMapBag<A, B>(f: A -> seq<B>, g: A -> seq<B>, s: seq<A>, t: seq<A>)
    requires multiset(s) == multiset(t)
    requires forall x :: x in s ==> multiset(f(x)) == multiset(g(x))
    ensures multiset(FlatMap(f, s)) == multiset(FlatMap(g, t))
    decreases |s|
  {
    BagIn(s, t);
    if s != [] {
      assert s[0] in t;
      var i :| 0 <= i < |t| && t[i] == s[0];
      TailBag(s, t, i);
      FlatMapRemove(g, t, i);
      FlatMapBag(f, g, s[1..], t[..i] + t[i + 1..]);
    }
  }

  lemma TailBag<A>(s: seq<A>, t: seq<A>, i: nat)
    requires i < |t| && s != [] && s[0] == t[i] && multiset(s) == multiset(t)
    ensures multiset(s[1..]) == multiset(t[..i] + t[i + 1..])
  {
    Removed(s, 0);
    Removed(t, i);
    assert s[..0] + s[0 + 1..] == s[1..];
    assert multiset(s[1..]) == multiset(s) - multiset{s[0]};
  }

  lemma BagIn<A>(s: seq<A>, t: seq<A>)
    requires multiset(s) == multiset(t)
    ensures |s| == |t|
    ensures forall x :: x in s <==> x in t
  {
    assert |s| == |multiset(s)| && |t| == |multiset(t)|;
    assert forall x :: x in s <==> x in multiset(s);
    assert forall x :: x in t <==> x in multiset(t);
  }

  // ----- lists without repetition --------------------------------------------------------------------

  ghost predicate Distinct<A>(s: seq<A>) {
    forall i, j :: 0 <= i < j < |s| ==> s[i] != s[j]
  }

  lemma DistinctTail<A>(s: seq<A>)
    requires Distinct(s) && s != []
    ensures Distinct(s[1..]) && s[0] !in s[1..]
  {
    forall k | 0 <= k < |s[1..]|
      ensures s[1..][k] != s[0]
    {
      assert s[0] != s[k + 1];
    }
  }

  lemma {:induction false} DistinctBag<A>(s: seq<A>, x: A)
    requires Distinct(s)
    ensures multiset(s)[x] == if x in s then 1 else 0
    decreases |s|
  {
    if s != [] {
      DistinctTail(s);
      DistinctBag(s[1..], x);
      assert s == [s[0]] + s[1..];
    }
  }

  /** The elements that map to something. */
  function Productive<A, B>(f: A -> seq<B>, s: seq<A>): seq<A> {
    if s == [] then []
    else if f(s[0]) == [] then Productive(f, s[1..])
    else [s[0]] + Productive(f, s[1..])
  }

  lemma {:induction false} ProductiveMaps<A, B>(f: A -> seq<B>, s: seq<A>)
    ensures FlatMap(f, Productive(f, s)) == FlatMap(f, s)
    decreases |s|
  {
    if s != [] {
      ProductiveMaps(f, s[1..]);
      if f(s[0]) != [] {
        FlatMapAppend(f, [s[0]], Productive(f, s[1..]));
      }
    }
  }

  lemma {:induction false} ProductiveFacts<A, B>(f: A -> seq<B>, s: seq<A>)
    ensures forall x :: x in Productive(f, s) <==> x in s && f(x) != []
    ensures Distinct(s) ==> Distinct(Productive(f, s))
    decreases |s|
  {
    if s != [] {
      ProductiveFacts(f, s[1..]);
      if Distinct(s) { DistinctTail(s); }
    }
  }

  /** Two lists without repetition that differ only in elements mapped to nothing give the same bag. */
  lemma DistinctFlatMapBag<A, B>(f: A -> seq<B>, s: seq<A>, t: seq<A>)
    requires Distinct(s) && Distinct(t)
    requires forall x :: f(x) != [] ==> (x in s <==> x in t)
    ensures multiset(FlatMap(f, s)) == multiset(FlatMap(f, t))
  {
    ProductiveMaps(f, s);
    ProductiveMaps(f, t);
    ProductiveFacts(f, s);
    ProductiveFacts(f, t);
    SameElements(Productive(f, s), Productive(f, t));
    FlatMapBag(f, f, Productive(f, s), Productive(f, t));
  }

  lemma SameElements<A>(s: seq<A>, t: seq<A>)
    requires Distinct(s) && Distinct(t) && forall x :: x in s <==> x in t
    ensures multiset(s) == multiset(t)
  {
    forall x: A
      ensures multiset(s)[x] == multiset(t)[x]
    {
      DistinctBag(s, x);
      DistinctBag(t, x);
    }
    assert multiset(s) == multiset(t);
  }
}
