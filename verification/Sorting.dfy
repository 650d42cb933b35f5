/** A stable sort, and when its result does not depend on the order of its input. */
module Sorting {
  import Seqs

  function Insert<T>(x: T, s: seq<T>, leq: (T, T) -> bool): seq<T> {
    if s == [] then [x] else if leq(x, s[0]) then [x] + s else [s[0]] + Insert(x, s[1..], leq)
  }

  function Sort<T>(s: seq<T>, leq: (T, T) -> bool): seq<T> {
    if s == [] then [] else Insert(s[0], Sort(s[1..], leq), leq)
  }

  ghost predicate Ordered<T(!new)>(leq: (T, T) -> bool) {
    && (forall a, b :: leq(a, b) || leq(b, a))
    && (forall a, b, c :: leq(a, b) && leq(b, c) ==> leq(a, c))
  }

  ghost predicate Sorted<T>(s: seq<T>, leq: (T, T) -> bool) {
    forall i, j :: 0 <= i < j < |s| ==> leq(s[i], s[j])
  }

  lemma {:induction false} InsertKeeps<T(!new)>(x: T, s: seq<T>, leq: (T, T) -> bool)
    requires Ordered(leq) && Sorted(s, leq)
    ensures Sorted(Insert(x, s, leq), leq)
  {
    if s == [] {
    } else if leq(x, s[0]) {
      forall i | 0 <= i < |s| ensures leq(x, s[i]) {
        if i > 0 { assert leq(s[0], s[i]); }
      }
    } else {
      var rest := Insert(x, s[1..], leq);
      InsertKeeps(x, s[1..], leq);
      InsertSame(x, s[1..], leq);
      forall i | 0 <= i < |rest| ensures leq(s[0], rest[i]) {
        assert rest[i] in multiset(rest);
        if rest[i] != x {
          assert rest[i] in s[1..];
          var k :| 0 <= k < |s[1..]| && s[1..][k] == rest[i];
          assert leq(s[0], s[k + 1]);
        }
      }
    }
  }

  lemma {:induction false} SortKeeps<T(!new)>(s: seq<T>, leq: (T, T) -> bool)
    requires Ordered(leq)
    ensures Sorted(Sort(s, leq), leq)
  {
    if s != [] {
      SortKeeps(s[1..], leq);
      InsertKeeps(s[0], Sort(s[1..], leq), leq);
    }
  }

  /** Sorting loses and invents nothing, whatever the ranking. */
  lemma {:induction false} SortSame<T>(s: seq<T>, leq: (T, T) -> bool)
    ensures multiset(Sort(s, leq)) == multiset(s)
  {
    if s != [] {
      SortSame(s[1..], leq);
      InsertSame(s[0], Sort(s[1..], leq), leq);
      assert s == [s[0]] + s[1..];
    }
  }

  lemma {:induction false} InsertSame<T>(x: T, s: seq<T>, leq: (T, T) -> bool)
    ensures multiset(Insert(x, s, leq)) == multiset(s) + multiset{x}
  {
    if s != [] {
      InsertSame(x, s[1..], leq);
      assert s == [s[0]] + s[1..];
    }
  }

  /** No two different members of `s` are ranked equal. */
  ghost predicate Ranked<T>(s: seq<T>, leq: (T, T) -> bool) {
    forall i, j :: 0 <= i < |s| && 0 <= j < |s| && leq(s[i], s[j]) && leq(s[j], s[i]) ==> s[i] == s[j]
  }

  lemma {:induction false} HeadsAgree<T(!new)>(a: seq<T>, b: seq<T>, leq: (T, T) -> bool)
    requires Ordered(leq) && Sorted(a, leq) && Sorted(b, leq) && multiset(a) == multiset(b) && Ranked(a, leq)
    requires a != [] && b != []
    ensures a[0] == b[0]
  {
    assert a[0] in multiset(b) && b[0] in multiset(a);
    var i :| 0 <= i < |b| && b[i] == a[0];
    var j :| 0 <= j < |a| && a[j] == b[0];
    assert leq(b[0], b[i]) && leq(a[0], a[j]);
  }

  lemma {:induction false} TailKeeps<T>(a: seq<T>, leq: (T, T) -> bool)
    requires a != [] && Sorted(a, leq) && Ranked(a, leq)
    ensures Sorted(a[1..], leq) && Ranked(a[1..], leq)
  {}

  lemma {:induction false} TailsAgree<T>(a: seq<T>, b: seq<T>)
    requires a != [] && b != [] && a[0] == b[0] && multiset(a) == multiset(b)
    ensures multiset(a[1..]) == multiset(b[1..])
  {
    assert a == [a[0]] + a[1..] && b == [b[0]] + b[1..];
    assert multiset(a[1..]) == multiset(a) - multiset{a[0]} && multiset(b[1..]) == multiset(b) - multiset{b[0]};
  }

  lemma {:induction false} SortedOnce<T(!new)>(a: seq<T>, b: seq<T>, leq: (T, T) -> bool)
    requires Ordered(leq) && Sorted(a, leq) && Sorted(b, leq) && multiset(a) == multiset(b) && Ranked(a, leq)
    ensures a == b
  {
    hide Ordered;
    hide Sorted;
    hide Ranked;
    assert |a| == |multiset(a)| && |b| == |multiset(b)|;
    if a != [] {
      HeadsAgree(a, b, leq);
      RankedKept(a, b, leq);
      TailKeeps(a, leq);
      TailKeeps(b, leq);
      TailsAgree(a, b);
      SortedOnce(a[1..], b[1..], leq);
      assert a == [a[0]] + a[1..] && b == [b[0]] + b[1..];
    }
  }

  /** A list without equally ranked members sorts the same in whatever order it comes. */
  lemma {:induction false} SortIgnoresOrder<T(!new)>(a: seq<T>, b: seq<T>, leq: (T, T) -> bool)
    requires Ordered(leq) && multiset(a) == multiset(b) && Ranked(a, leq)
    ensures Sort(a, leq) == Sort(b, leq)
  {
    SortKeeps(a, leq);
    SortKeeps(b, leq);
    SortSame(a, leq);
    SortSame(b, leq);
    RankedKept(a, Sort(a, leq), leq);
    SortedOnce(Sort(a, leq), Sort(b, leq), leq);
  }

  lemma {:induction false} RankedKept<T>(a: seq<T>, b: seq<T>, leq: (T, T) -> bool)
    requires Ranked(a, leq) && multiset(a) == multiset(b)
    ensures Ranked(b, leq)
  {
    forall i, j | 0 <= i < |b| && 0 <= j < |b| && leq(b[i], b[j]) && leq(b[j], b[i]) ensures b[i] == b[j] {
      assert b[i] in multiset(a) && b[j] in multiset(a);
      var k :| 0 <= k < |a| && a[k] == b[i];
      var l :| 0 <= l < |a| && a[l] == b[j];
      assert leq(a[k], a[l]) && leq(a[l], a[k]);
    }
  }

  function Filter<T>(s: seq<T>, keep: T -> bool): seq<T> {
    if s == [] then [] else (if keep(s[0]) then [s[0]] else []) + Filter(s[1..], keep)
  }

  lemma {:induction false} FilterAppend<T>(a: seq<T>, b: seq<T>, keep: T -> bool)
    ensures Filter(a + b, keep) == Filter(a, keep) + Filter(b, keep)
  {
    if a == [] {
      assert a + b == b;
    } else {
      FilterAppend(a[1..], b, keep);
      assert (a + b)[0] == a[0] && (a + b)[1..] == a[1..] + b;
      Seqs.Assoc(if keep(a[0]) then [a[0]] else [], Filter(a[1..], keep), Filter(b, keep));
    }
  }

  lemma {:induction false} FilterCounts<T>(s: seq<T>, keep: T -> bool, x: T)
    ensures multiset(Filter(s, keep))[x] == if keep(x) then multiset(s)[x] else 0
  {
    if s != [] {
      FilterCounts(s[1..], keep, x);
      assert s == [s[0]] + s[1..];
    }
  }

  lemma {:induction false} FilterIgnoresOrder<T(!new)>(a: seq<T>, b: seq<T>, keep: T -> bool)
    requires multiset(a) == multiset(b)
    ensures multiset(Filter(a, keep)) == multiset(Filter(b, keep))
  {
    forall x ensures multiset(Filter(a, keep))[x] == multiset(Filter(b, keep))[x] {
      FilterCounts(a, keep, x);
      FilterCounts(b, keep, x);
    }
  }

  lemma {:induction false} FilterExact<T>(s: seq<T>, keep: T -> bool, x: T)
    ensures x in Filter(s, keep) <==> x in s && keep(x)
  {
    if s != [] {
      FilterExact(s[1..], keep, x);
      assert s == [s[0]] + s[1..];
    }
  }

  // ---- What a stable sort keeps ----

  /** The members ranked equal to `x`, in their order. */
  function Ties<T>(s: seq<T>, leq: (T, T) -> bool, x: T): seq<T> {
    Filter(s, y => leq(x, y) && leq(y, x))
  }

  lemma {:induction false} TiesCons<T>(head: T, s: seq<T>, leq: (T, T) -> bool, x: T)
    ensures Ties([head] + s, leq, x) == (if leq(x, head) && leq(head, x) then [head] else []) + Ties(s, leq, x)
  {
    assert ([head] + s)[1..] == s;
  }

  /** A new member goes in front of those ranked equal to it. */
  lemma {:induction false} TiesInsert<T(!new)>(head: T, s: seq<T>, leq: (T, T) -> bool, x: T)
    requires Ordered(leq)
    ensures Ties(Insert(head, s, leq), leq, x)
            == (if leq(x, head) && leq(head, x) then [head] else []) + Ties(s, leq, x)
  {
    if s == [] || leq(head, s[0]) {
      TiesCons(head, s, leq, x);
      assert s == [] ==> [head] + s == [head];
    } else {
      assert s == [s[0]] + s[1..];
      TiesCons(s[0], s[1..], leq, x);
      TiesCons(s[0], Insert(head, s[1..], leq), leq, x);
      TiesInsert(head, s[1..], leq, x);
      var first := s[0];
      assert leq(head, x) && leq(x, first) ==> leq(head, first);
      hide Ties;
      assert [] + Ties(s[1..], leq, x) == Ties(s[1..], leq, x);
    }
  }

  lemma {:induction false} TiesSorted<T(!new)>(s: seq<T>, leq: (T, T) -> bool, x: T)
    requires Ordered(leq)
    ensures Ties(Sort(s, leq), leq, x) == Ties(s, leq, x)
  {
    if s != [] {
      TiesSorted(s[1..], leq, x);
      TiesInsert(s[0], Sort(s[1..], leq), leq, x);
      TiesCons(s[0], s[1..], leq, x);
      assert s == [s[0]] + s[1..];
      hide Ties;
    }
  }

  lemma {:induction false} TiesHead<T(!new)>(s: seq<T>, leq: (T, T) -> bool)
    requires Ordered(leq) && s != []
    ensures Ties(s, leq, s[0]) != [] && Ties(s, leq, s[0])[0] == s[0]
  {
    assert s == [s[0]] + s[1..];
    TiesCons(s[0], s[1..], leq, s[0]);
    hide Ties;
  }

  /** Two sorted lists whose ties agree begin alike. */
  lemma {:induction false} TiedHeads<T(!new)>(a: seq<T>, b: seq<T>, leq: (T, T) -> bool)
    requires Ordered(leq) && Sorted(a, leq) && Sorted(b, leq) && a != [] && b != []
    requires forall x :: Ties(a, leq, x) == Ties(b, leq, x)
    ensures a[0] == b[0]
  {
    TiesHead(a, leq);
    TiesHead(b, leq);
    FilterExact(b, y => leq(a[0], y) && leq(y, a[0]), a[0]);
    FilterExact(a, y => leq(b[0], y) && leq(y, b[0]), b[0]);
    assert a[0] in b && b[0] in a;
    var i :| 0 <= i < |b| && b[i] == a[0];
    var j :| 0 <= j < |a| && a[j] == b[0];
    assert leq(b[0], a[0]) && leq(a[0], b[0]);
    hide Ties;
    TiesAlike(a, a[0], b[0], leq);
    TiesAlike(b, a[0], b[0], leq);
  }

  lemma {:induction false} TiesAlike<T(!new)>(s: seq<T>, x: T, y: T, leq: (T, T) -> bool)
    requires Ordered(leq) && leq(x, y) && leq(y, x)
    ensures Ties(s, leq, x) == Ties(s, leq, y)
  {
    if s != [] {
      TiesAlike(s[1..], x, y, leq);
      assert s == [s[0]] + s[1..];
      TiesCons(s[0], s[1..], leq, x);
      TiesCons(s[0], s[1..], leq, y);
      hide Ties;
    }
  }

  lemma {:induction false} TiedOnce<T(!new)>(a: seq<T>, b: seq<T>, leq: (T, T) -> bool)
    requires Ordered(leq) && Sorted(a, leq) && Sorted(b, leq) && forall x :: Ties(a, leq, x) == Ties(b, leq, x)
    ensures a == b
  {
    if a == [] {
      if b != [] { TiesHead(b, leq); }
    } else if b == [] {
      TiesHead(a, leq);
    } else {
      TiedHeads(a, b, leq);
      var c := a[0];
      assert a == [c] + a[1..] && b == [c] + b[1..];
      forall x ensures Ties(a[1..], leq, x) == Ties(b[1..], leq, x) {
        TiesCons(c, a[1..], leq, x);
        TiesCons(c, b[1..], leq, x);
        SameRest(if leq(x, c) && leq(c, x) then [c] else [], Ties(a[1..], leq, x), Ties(b[1..], leq, x));
      }
      hide Ties;
      TiedOnce(a[1..], b[1..], leq);
    }
  }

  lemma {:induction false} SameRest<T>(p: seq<T>, a: seq<T>, b: seq<T>)
    requires p + a == p + b
    ensures a == b
  {
    assert (p + a)[|p|..] == a && (p + b)[|p|..] == b;
  }

  /** Two lists sort the same exactly when members ranked equal come in the same order in both. */
  lemma {:induction false} SortSameExactly<T(!new)>(a: seq<T>, b: seq<T>, leq: (T, T) -> bool)
    requires Ordered(leq)
    ensures Sort(a, leq) == Sort(b, leq) <==> forall x :: Ties(a, leq, x) == Ties(b, leq, x)
  {
    SortKeeps(a, leq);
    SortKeeps(b, leq);
    forall x ensures Ties(Sort(a, leq), leq, x) == Ties(a, leq, x) && Ties(Sort(b, leq), leq, x) == Ties(b, leq, x) {
      TiesSorted(a, leq, x);
      TiesSorted(b, leq, x);
    }
    hide Sort;
    hide Ties;
    if forall x :: Ties(a, leq, x) == Ties(b, leq, x) { TiedOnce(Sort(a, leq), Sort(b, leq), leq); }
  }

  // ---- Mapping ----

  function Map<T, U>(s: seq<T>, f: T -> U): (r: seq<U>)
    ensures |r| == |s|
  {
    seq(|s|, i requires 0 <= i < |s| => f(s[i]))
  }

  lemma {:induction false} MapAppend<T, U>(a: seq<T>, b: seq<T>, f: T -> U)
    ensures Map(a + b, f) == Map(a, f) + Map(b, f)
  {}

  /** One member out. */
  lemma {:induction false} PullOut<T>(s: seq<T>, k: nat)
    requires k < |s|
    ensures s == s[..k] + ([s[k]] + s[k + 1..])
    ensures multiset(s[..k] + s[k + 1..]) == multiset(s) - multiset{s[k]}
  {
    assert s == s[..k] + ([s[k]] + s[k + 1..]);
  }

  lemma {:induction false} MapPulledOut<T, U>(s: seq<T>, k: nat, f: T -> U)
    requires k < |s|
    ensures multiset(Map(s, f)) == multiset(Map(s[..k] + s[k + 1..], f)) + multiset{f(s[k])}
  {
    PullOut(s, k);
    MapAppend(s[..k], [s[k]] + s[k + 1..], f);
    MapAppend([s[k]], s[k + 1..], f);
    MapAppend(s[..k], s[k + 1..], f);
    assert Map([s[k]], f) == [f(s[k])];
    hide Map;
  }

  lemma {:induction false} MapIgnoresOrder<T, U>(a: seq<T>, b: seq<T>, f: T -> U)
    requires multiset(a) == multiset(b)
    ensures multiset(Map(a, f)) == multiset(Map(b, f))
  {
    hide Map;
    assert |a| == |multiset(a)| && |b| == |multiset(b)|;
    if a != [] {
      assert a[0] in multiset(b);
      var k :| 0 <= k < |b| && b[k] == a[0];
      PullOut(a, 0);
      PullOut(b, k);
      MapPulledOut(a, 0, f);
      MapPulledOut(b, k, f);
      assert a[..0] + a[1..] == a[1..];
      MapIgnoresOrder(a[1..], b[..k] + b[k + 1..], f);
    } else {
      assert a == b;
    }
  }

  // ---- Sorting what is mapped ----

  lemma {:induction false} MapCons<T, U>(x: T, s: seq<T>, f: T -> U)
    ensures Map([x] + s, f) == [f(x)] + Map(s, f)
  {}

  lemma {:induction false} InsertMap<T(!new), U>(x: T, s: seq<T>, f: T -> U, leq: (U, U) -> bool, under: (T, T) -> bool)
    requires forall a, b :: under(a, b) == leq(f(a), f(b))
    ensures Insert(f(x), Map(s, f), leq) == Map(Insert(x, s, under), f)
  {
    if s == [] {
    } else if under(x, s[0]) {
      MapCons(x, s, f);
    } else {
      InsertMap(x, s[1..], f, leq, under);
      Seqs.Uncons(s);
      MapCons(s[0], s[1..], f);
      assert Map(s, f)[1..] == Map(s[1..], f);
      MapCons(s[0], Insert(x, s[1..], under), f);
    }
  }

  /** A sort that looks at the image only commutes with mapping. */
  lemma {:induction false} SortMap<T(!new), U>(s: seq<T>, f: T -> U, leq: (U, U) -> bool, under: (T, T) -> bool)
    requires forall a, b :: under(a, b) == leq(f(a), f(b))
    ensures Sort(Map(s, f), leq) == Map(Sort(s, under), f)
  {
    if s != [] {
      SortMap(s[1..], f, leq, under);
      Seqs.Uncons(s);
      MapCons(s[0], s[1..], f);
      assert Map(s, f)[1..] == Map(s[1..], f);
      InsertMap(s[0], Sort(s[1..], under), f, leq, under);
    }
  }

  lemma {:induction false} FilterMap<T(!new), U>(s: seq<T>, f: T -> U, keep: U -> bool, under: T -> bool)
    requires forall a :: under(a) == keep(f(a))
    ensures Filter(Map(s, f), keep) == Map(Filter(s, under), f)
  {
    if s != [] {
      FilterMap(s[1..], f, keep, under);
      Seqs.Uncons(s);
      MapCons(s[0], s[1..], f);
      assert Map(s, f)[1..] == Map(s[1..], f);
      var rest := Filter(s[1..], under);
      if under(s[0]) { MapCons(s[0], rest, f); } else { assert [] + rest == rest && [] + Map(rest, f) == Map(rest, f); }
    }
  }
}
