/** Byte-wise lexicographic order, sorting by it, and sequences as multisets. */
module Ordering {
  import opened Bytes

  predicate LexLeq(a: bytes, b: bytes)
    decreases |a|
  {
    a == [] || (b != [] && (a[0] < b[0] || (a[0] == b[0] && LexLeq(a[1..], b[1..]))))
  }

  lemma {:induction false} LexTotal(a: bytes, b: bytes)
    ensures LexLeq(a, b) || LexLeq(b, a)
    decreases |a|
  {
    if a != [] && b != [] {
      LexTotal(a[1..], b[1..]);
    }
  }

  lemma {:induction false} LexAntisymmetric(a: bytes, b: bytes)
    requires LexLeq(a, b) && LexLeq(b, a)
    ensures a == b
    decreases |a|
  {
    if a != [] {
      LexAntisymmetric(a[1..], b[1..]);
      assert a == [a[0]] + a[1..] && b == [b[0]] + b[1..];
    }
  }

  lemma {:induction false} LexTransitive(a: bytes, b: bytes, c: bytes)
    requires LexLeq(a, b) && LexLeq(b, c)
    ensures LexLeq(a, c)
    decreases |a|
  {
    if a != [] && a[0] == b[0] && b[0] == c[0] {
      LexTransitive(a[1..], b[1..], c[1..]);
    }
  }

  datatype Pair = Pair(name: bytes, value: bytes)

  /** Names first, then values. */
  predicate PairLeq(a: Pair, b: Pair) {
    if a.name == b.name then LexLeq(a.value, b.value) else LexLeq(a.name, b.name)
  }

  lemma PairTotal(a: Pair, b: Pair)
    ensures PairLeq(a, b) || PairLeq(b, a)
  {
    LexTotal(a.name, b.name);
    LexTotal(a.value, b.value);
  }

  lemma PairAntisymmetric(a: Pair, b: Pair)
    requires PairLeq(a, b) && PairLeq(b, a)
    ensures a == b
  {
    if a.name == b.name {
      LexAntisymmetric(a.value, b.value);
    } else {
      LexAntisymmetric(a.name, b.name);
    }
  }

  lemma PairTransitive(a: Pair, b: Pair, c: Pair)
    requires PairLeq(a, b) && PairLeq(b, c)
    ensures PairLeq(a, c)
  {
    if a.name == b.name && b.name == c.name {
      LexTransitive(a.value, b.value, c.value);
    } else if a.name != b.name && b.name != c.name {
      LexTransitive(a.name, b.name, c.name);
      if a.name == c.name {
        LexAntisymmetric(a.name, b.name);
      }
    }
  }

  predicate Sorted(s: seq<Pair>) {
    |s| <= 1 || (PairLeq(s[0], s[1]) && Sorted(s[1..]))
  }

  function Insert(p: Pair, s: seq<Pair>): seq<Pair> {
    if s == [] then [p]
    else if PairLeq(p, s[0]) then [p] + s
    else [s[0]] + Insert(p, s[1..])
  }

  /** The sorted arrangement; equal pairs are indistinguishable, so stability does not matter. */
  function Sort(s: seq<Pair>): seq<Pair> {
    if s == [] then [] else Insert(s[0], Sort(s[1..]))
  }

  lemma SortedCons(p: Pair, s: seq<Pair>)
    requires Sorted(s) && (s != [] ==> PairLeq(p, s[0]))
    ensures Sorted([p] + s)
  {
    assert ([p] + s)[1..] == s;
  }

  lemma {:induction false} InsertSorted(p: Pair, s: seq<Pair>)
    requires Sorted(s)
    ensures Sorted(Insert(p, s))
    ensures Insert(p, s) != [] && (Insert(p, s)[0] == p || (s != [] && Insert(p, s)[0] == s[0]))
  {
    if s == [] {
    } else if PairLeq(p, s[0]) {
      SortedCons(p, s);
    } else {
      PairTotal(p, s[0]);
      InsertSorted(p, s[1..]);
      SortedCons(s[0], Insert(p, s[1..]));
    }
  }

  lemma {:induction false} InsertKeeps(p: Pair, s: seq<Pair>)
    ensures multiset(Insert(p, s)) == multiset{p} + multiset(s)
  {
    if s != [] && !PairLeq(p, s[0]) {
      InsertKeeps(p, s[1..]);
      assert s == [s[0]] + s[1..];
    }
  }

  lemma {:induction false} SortSorts(s: seq<Pair>)
    ensures Sorted(Sort(s)) && multiset(Sort(s)) == multiset(s)
  {
    if s != [] {
      SortSorts(s[1..]);
      InsertSorted(s[0], Sort(s[1..]));
      InsertKeeps(s[0], Sort(s[1..]));
      assert s == [s[0]] + s[1..];
    }
  }

  lemma {:induction false} HeadIsLeast(s: seq<Pair>, p: Pair)
    requires Sorted(s) && p in s
    ensures PairLeq(s[0], p)
  {
    if p == s[0] {
      PairTotal(p, p);
    } else {
      assert s == [s[0]] + s[1..];
      HeadIsLeast(s[1..], p);
      PairTransitive(s[0], s[1], p);
    }
  }

  lemma HeadsAgree(a: seq<Pair>, b: seq<Pair>)
    requires Sorted(a) && Sorted(b) && multiset(a) == multiset(b) && a != []
    ensures b != [] && a[0] == b[0]
  {
    assert a[0] in multiset(b);
    HeadIsLeast(b, a[0]);
    assert b[0] in multiset(a);
    HeadIsLeast(a, b[0]);
    PairAntisymmetric(a[0], b[0]);
  }

  /** There is only one sorted arrangement of a multiset. */
  lemma {:induction false} SortedUnique(a: seq<Pair>, b: seq<Pair>)
    requires Sorted(a) && Sorted(b) && multiset(a) == multiset(b)
    ensures a == b
    decreases |a|
  {
    if a == [] {
      assert multiset(b) == multiset{};
      assert |b| == |multiset(b)|;
    } else {
      HeadsAgree(a, b);
      assert a == [a[0]] + a[1..] && b == [b[0]] + b[1..];
      assert multiset(a[1..]) == multiset(a) - multiset{a[0]};
      assert multiset(b[1..]) == multiset(b) - multiset{b[0]};
      SortedUnique(a[1..], b[1..]);
    }
  }

  lemma SortUnique(a: seq<Pair>, b: seq<Pair>)
    ensures Sort(a) == Sort(b) <==> multiset(a) == multiset(b)
  {
    SortSorts(a);
    SortSorts(b);
    if multiset(a) == multiset(b) {
      SortedUnique(Sort(a), Sort(b));
    }
  }

  // ----- mapping

  function Map(f: Pair -> Pair, s: seq<Pair>): (t: seq<Pair>)
    ensures |t| == |s| && forall i :: 0 <= i < |s| ==> t[i] == f(s[i])
  {
    if s == [] then [] else [f(s[0])] + Map(f, s[1..])
  }

  lemma MapAppend(f: Pair -> Pair, a: seq<Pair>, b: seq<Pair>)
    ensures Map(f, a + b) == Map(f, a) + Map(f, b)
  {
  }

  lemma Removed(s: seq<Pair>, i: nat)
    requires i < |s|
    ensures multiset(s) == multiset{s[i]} + multiset(s[..i] + s[i + 1..])
  {
    assert s == s[..i] + [s[i]] + s[i + 1..];
  }

  lemma MapRemoved(f: Pair -> Pair, s: seq<Pair>, i: nat)
    requires i < |s|
    ensures multiset(Map(f, s)) == multiset{f(s[i])} + multiset(Map(f, s[..i] + s[i + 1..]))
  {
    Around(s, i);
    MapAround(f, s[..i], s[i], s[i + 1..]);
  }

  lemma Around(s: seq<Pair>, i: nat)
    requires i < |s|
    ensures s == s[..i] + ([s[i]] + s[i + 1..])
  {
  }

  lemma MapAround(f: Pair -> Pair, front: seq<Pair>, p: Pair, back: seq<Pair>)
    ensures multiset(Map(f, front + ([p] + back))) == multiset{f(p)} + multiset(Map(f, front + back))
  {
    MapAppend(f, front, [p] + back);
    MapFirst(f, p, back);
    MapAppend(f, front, back);
    Among(Map(f, front), f(p), Map(f, back));
  }

  lemma MapFirst(f: Pair -> Pair, p: Pair, s: seq<Pair>)
    ensures Map(f, [p] + s) == [f(p)] + Map(f, s)
  {
    assert ([p] + s)[1..] == s;
  }

  lemma Among(a: seq<Pair>, p: Pair, b: seq<Pair>)
    ensures multiset(a + ([p] + b)) == multiset{p} + multiset(a + b)
  {
  }

  lemma Cancel(p: Pair, x: multiset<Pair>, y: multiset<Pair>)
    requires multiset{p} + x == multiset{p} + y
    ensures x == y
  {
    forall e: Pair ensures x[e] == y[e] {
      assert (multiset{p} + x)[e] == (multiset{p} + y)[e];
    }
  }

  /** Mapping depends on the multiset alone. */
  lemma {:induction false} MapMultiset(f: Pair -> Pair, a: seq<Pair>, b: seq<Pair>)
    requires multiset(a) == multiset(b)
    ensures multiset(Map(f, a)) == multiset(Map(f, b))
    decreases |a|
  {
    if a == [] {
      assert |b| == |multiset(b)|;
    } else {
      var first, rest := a[0], a[1..];
      assert a == [first] + rest;
      var i := Located(first, b);
      var others := b[..i] + b[i + 1..];
      Removed(b, i);
      Cancel(first, multiset(rest), multiset(others));
      MapMultiset(f, rest, others);
      MapRemoved(f, b, i);
      assert Map(f, a) == [f(first)] + Map(f, rest);
    }
  }

  lemma Located(p: Pair, s: seq<Pair>) returns (i: nat)
    requires p in multiset(s)
    ensures i < |s| && s[i] == p
  {
    i :| i < |s| && s[i] == p;
  }
}
