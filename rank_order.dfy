/** The final ordering of both call sites: `sorted(results, key=score,
    reverse=True)` on score lists of three numbers. Python compares lists
    lexicographically and its sort is stable also when reversed, so the result
    is the unique arrangement whose keys are non-increasing and in which
    entries with equal keys keep their input order. */
module RankOrder {
  import opened Scoring

  /** `a >= b` on the lists `[a.hi, a.mid, a.lo]` and `[b.hi, b.mid, b.lo]`:
      the first differing element decides. */
  predicate AtLeast(a: Triple, b: Triple)
  {
    a.hi > b.hi || (a.hi == b.hi && (a.mid > b.mid || (a.mid == b.mid && a.lo >= b.lo)))
  }

  /** The comparison is a total order on keys. */
  lemma AtLeastIsTotalOrder(a: Triple, b: Triple, c: Triple)
    ensures AtLeast(a, a)
    ensures AtLeast(a, b) || AtLeast(b, a)
    ensures AtLeast(a, b) && AtLeast(b, a) ==> a == b
    ensures AtLeast(a, b) && AtLeast(b, c) ==> AtLeast(a, c)
  {
  }

  /** A result entry paired with its ranking key. */
  datatype Ranked<T> = Ranked(item: T, score: Triple)

  ghost predicate NonIncreasing<T>(s: seq<Ranked<T>>)
  {
    forall i, j :: 0 <= i < j < |s| ==> AtLeast(s[i].score, s[j].score)
  }

  /** The entries whose key is exactly `k`, in their order in `s`. */
  function WithScore<T>(s: seq<Ranked<T>>, k: Triple): seq<Ranked<T>>
  {
    if s == [] then []
    else (if s[0].score == k then [s[0]] else []) + WithScore(s[1..], k)
  }

  /** Places `x` before the first entry whose key it is at least. */
  function Insert<T>(x: Ranked<T>, ys: seq<Ranked<T>>): seq<Ranked<T>>
  {
    if ys == [] then [x]
    else if AtLeast(x.score, ys[0].score) then [x] + ys
    else [ys[0]] + Insert(x, ys[1..])
  }

  /** Stable descending sort by key (insertion sort). */
  function SortDesc<T>(xs: seq<Ranked<T>>): seq<Ranked<T>>
  {
    if xs == [] then [] else Insert(xs[0], SortDesc(xs[1..]))
  }

  lemma {:induction false} InsertPermutes<T>(x: Ranked<T>, ys: seq<Ranked<T>>)
    ensures multiset(Insert(x, ys)) == multiset(ys) + multiset{x}
  {
    if ys != [] && !AtLeast(x.score, ys[0].score) {
      InsertPermutes(x, ys[1..]);
      assert ys == [ys[0]] + ys[1..];
    }
  }

  lemma {:induction false} InsertKeepsOrder<T>(x: Ranked<T>, ys: seq<Ranked<T>>)
    requires NonIncreasing(ys)
    ensures NonIncreasing(Insert(x, ys))
  {
    if ys == [] {
    } else if AtLeast(x.score, ys[0].score) {
      var r := [x] + ys;
      forall i, j | 0 <= i < j < |r| ensures AtLeast(r[i].score, r[j].score) {
        if i == 0 {
          AtLeastIsTotalOrder(x.score, ys[0].score, ys[j - 1].score);
        }
      }
    } else {
      var tail := Insert(x, ys[1..]);
      InsertKeepsOrder(x, ys[1..]);
      InsertPermutes(x, ys[1..]);
      AtLeastIsTotalOrder(x.score, ys[0].score, x.score);
      var r := [ys[0]] + tail;
      forall i, j | 0 <= i < j < |r| ensures AtLeast(r[i].score, r[j].score) {
        if i == 0 {
          assert r[j] in multiset(tail);
          assert r[j] == x || r[j] in ys[1..];
        }
      }
    }
  }

  lemma {:induction false} InsertIsStable<T>(x: Ranked<T>, ys: seq<Ranked<T>>, k: Triple)
    ensures WithScore(Insert(x, ys), k) == (if x.score == k then [x] else []) + WithScore(ys, k)
  {
    if ys == [] {
      assert WithScore([x], k) == (if x.score == k then [x] else []) + WithScore([], k);
    } else if AtLeast(x.score, ys[0].score) {
      assert ([x] + ys)[1..] == ys;
    } else {
      InsertIsStable(x, ys[1..], k);
      AtLeastIsTotalOrder(x.score, ys[0].score, k);
      assert ([ys[0]] + Insert(x, ys[1..]))[1..] == Insert(x, ys[1..]);
    }
  }

  /** The sorted result is a permutation of the input, its keys are
      non-increasing, and entries with equal keys keep their input order. */
  lemma {:induction false} SortDescCorrect<T>(xs: seq<Ranked<T>>)
    ensures |SortDesc(xs)| == |xs|
    ensures multiset(SortDesc(xs)) == multiset(xs)
    ensures NonIncreasing(SortDesc(xs))
    ensures forall k :: WithScore(SortDesc(xs), k) == WithScore(xs, k)
  {
    if xs != [] {
      var rest := SortDesc(xs[1..]);
      SortDescCorrect(xs[1..]);
      InsertPermutes(xs[0], rest);
      InsertKeepsOrder(xs[0], rest);
      forall k ensures WithScore(SortDesc(xs), k) == WithScore(xs, k) {
        InsertIsStable(xs[0], rest, k);
      }
      assert xs == [xs[0]] + xs[1..];
      assert |SortDesc(xs)| == |multiset(SortDesc(xs))|;
    }
  }

  lemma {:induction false} WithScoreMembers<T>(s: seq<Ranked<T>>, k: Triple, e: Ranked<T>)
    requires e in WithScore(s, k)
    ensures e in s && e.score == k
  {
    if s != [] {
      if s[0].score == k && e == s[0] {
      } else {
        WithScoreMembers(s[1..], k, e);
      }
    }
  }

  /** Two arrangements with non-increasing keys and the same entries per key
      are equal: the three properties of `SortDescCorrect` determine the
      result, so `SortDesc` is exactly Python's stable reversed sort. */
  lemma {:induction false} SortedArrangementIsUnique<T>(r1: seq<Ranked<T>>, r2: seq<Ranked<T>>)
    requires NonIncreasing(r1) && NonIncreasing(r2)
    requires forall k :: WithScore(r1, k) == WithScore(r2, k)
    ensures r1 == r2
    decreases |r1| + |r2|
  {
    if r1 == [] && r2 == [] {
    } else if r1 == [] {
      var w := WithScore(r2, r2[0].score);
      assert false;
    } else if r2 == [] {
      var w := WithScore(r1, r1[0].score);
      assert false;
    } else {
      var k1, k2 := r1[0].score, r2[0].score;
      assert r1[0] in WithScore(r1, k1);
      WithScoreMembers(r2, k1, r1[0]);
      assert r2[0] in WithScore(r2, k2);
      WithScoreMembers(r1, k2, r2[0]);
      var j1 :| 0 <= j1 < |r1| && r1[j1] == r2[0];
      var j2 :| 0 <= j2 < |r2| && r2[j2] == r1[0];
      assert AtLeast(k1, k2) by {
        if j1 > 0 { } else { AtLeastIsTotalOrder(k1, k2, k2); }
      }
      assert AtLeast(k2, k1) by {
        if j2 > 0 { } else { AtLeastIsTotalOrder(k2, k1, k1); }
      }
      AtLeastIsTotalOrder(k1, k2, k1);
      assert k1 == k2;
      assert WithScore(r1, k1)[0] == r1[0];
      assert WithScore(r2, k1)[0] == r2[0];
      assert r1[0] == r2[0];
      forall k ensures WithScore(r1[1..], k) == WithScore(r2[1..], k) {
        var head := if k1 == k then [r1[0]] else [];
        assert WithScore(r1, k) == head + WithScore(r1[1..], k);
        assert WithScore(r2, k) == head + WithScore(r2[1..], k);
        assert WithScore(r1[1..], k) == WithScore(r1, k)[|head|..];
        assert WithScore(r2[1..], k) == WithScore(r2, k)[|head|..];
      }
      SortedArrangementIsUnique(r1[1..], r2[1..]);
      assert r1 == [r1[0]] + r1[1..];
      assert r2 == [r2[0]] + r2[1..];
    }
  }

  /** The entries of a ranked sequence, with keys unchanged. */
  function Items<T>(s: seq<Ranked<T>>): (r: seq<T>)
    ensures |r| == |s| && forall i :: 0 <= i < |s| ==> r[i] == s[i].item
  {
    if s == [] then [] else [s[0].item] + Items(s[1..])
  }

  /** Replaces every entry's item by `f` of it, keeping its key. */
  function Relabel<T, U>(s: seq<Ranked<T>>, f: T -> U): (r: seq<Ranked<U>>)
    ensures |r| == |s| && forall i :: 0 <= i < |s| ==> r[i] == Ranked(f(s[i].item), s[i].score)
  {
    if s == [] then [] else [Ranked(f(s[0].item), s[0].score)] + Relabel(s[1..], f)
  }

  /** The order depends on the keys alone: relabelling the entries before or
      after sorting gives the same result. */
  lemma {:induction false} SortIgnoresItems<T, U>(xs: seq<Ranked<T>>, f: T -> U)
    ensures SortDesc(Relabel(xs, f)) == Relabel(SortDesc(xs), f)
  {
    if xs != [] {
      SortIgnoresItems(xs[1..], f);
      assert Relabel(xs, f)[1..] == Relabel(xs[1..], f);
      InsertIgnoresItem(xs[0], SortDesc(xs[1..]), f);
    }
  }

  lemma {:induction false} InsertIgnoresItem<T, U>(x: Ranked<T>, ys: seq<Ranked<T>>, f: T -> U)
    ensures Insert(Ranked(f(x.item), x.score), Relabel(ys, f)) == Relabel(Insert(x, ys), f)
  {
    if ys != [] && !AtLeast(x.score, ys[0].score) {
      InsertIgnoresItem(x, ys[1..], f);
      assert Relabel(ys, f)[1..] == Relabel(ys[1..], f);
      assert Relabel(Insert(x, ys), f)[1..] == Relabel(Insert(x, ys[1..]), f);
    } else if ys != [] {
      assert Relabel([x] + ys, f)[1..] == Relabel(ys, f);
    }
  }
}
