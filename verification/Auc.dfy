/** The Mann-Whitney area under the curve, over the reals. */
module Auc {
  import opened Wrappers

  /** What one comparison adds: a win counts one, a tie a half. */
  function Score(p: real, q: real): real {
    if p > q then 1.0 else if p == q then 0.5 else 0.0
  }

  function SumOf(s: seq<real>, f: real -> real): real {
    if s == [] then 0.0 else SumOf(s[..|s| - 1], f) + f(s[|s| - 1])
  }

  function Versus(p: real): real -> real {
    q => Score(p, q)
  }

  function Against(neg: seq<real>): real -> real {
    p => SumOf(neg, Versus(p))
  }

  /** The U statistic: the score of every positive against every negative. */
  function Wins(pos: seq<real>, neg: seq<real>): real {
    SumOf(pos, Against(neg))
  }

  function AucOf(pos: seq<real>, neg: seq<real>): Option<real> {
    if pos == [] || neg == [] then None
    else Some(PerPair(Wins(pos, neg), |pos|, |neg|))
  }

  function PerPair(wins: real, m: nat, n: nat): real
    requires m > 0 && n > 0
  {
    assert m * n > 0;
    wins / (m * n) as real
  }

  method ComputeAuc(pos: seq<real>, neg: seq<real>) returns (r: Option<real>)
    ensures r == AucOf(pos, neg)
  {
    if pos == [] || neg == [] {
      return None;
    }
    var wins := 0.0;
    for i := 0 to |pos|
      invariant wins == Wins(pos[..i], neg)
    {
      var p := pos[i];
      ghost var before := wins;
      for j := 0 to |neg|
        invariant wins == before + SumOf(neg[..j], Versus(p))
      {
        var q := neg[j];
        wins := wins + if p > q then 1.0 else if p == q then 0.5 else 0.0;
        assert neg[..j + 1][..j] == neg[..j];
      }
      assert neg[..|neg|] == neg;
      assert pos[..i + 1][..i] == pos[..i];
    }
    assert pos[..|pos|] == pos;
    assert |pos| * |neg| > 0;
    return Some(wins / (|pos| * |neg|) as real);
  }

  // --------------------------------------------------------------------- sums

  lemma {:induction false} SumConcat(s: seq<real>, t: seq<real>, f: real -> real)
    ensures SumOf(s + t, f) == SumOf(s, f) + SumOf(t, f)
  {
    if t == [] {
      assert s + t == s;
    } else {
      SumConcat(s, t[..|t| - 1], f);
      assert (s + t)[..|s + t| - 1] == s + t[..|t| - 1];
    }
  }

  lemma {:induction false} SumPermuted(s: seq<real>, t: seq<real>, f: real -> real)
    requires multiset(s) == multiset(t)
    ensures SumOf(s, f) == SumOf(t, f)
  {
    if s == [] {
      assert |multiset(t)| == 0;
    } else {
      var front, last := s[..|s| - 1], s[|s| - 1];
      assert s == front + [last];
      assert last in multiset(t);
      var j :| 0 <= j < |t| && t[j] == last;
      SumPick(t, j, f);
      Without(t, j);
      SumPermuted(front, t[..j] + t[j + 1..], f);
    }
  }

  lemma Without(t: seq<real>, j: nat)
    requires j < |t|
    ensures multiset(t[..j] + t[j + 1..]) == multiset(t) - multiset{t[j]}
  {
    assert t == t[..j] + [t[j]] + t[j + 1..];
  }

  lemma SumPick(t: seq<real>, j: nat, f: real -> real)
    requires j < |t|
    ensures SumOf(t, f) == SumOf(t[..j] + t[j + 1..], f) + f(t[j])
  {
    var a, x, b := t[..j], t[j], t[j + 1..];
    assert t == a + [x] + b;
    SumConcat(a + [x], b, f);
    SumConcat(a, [x], f);
    SumConcat(a, b, f);
    assert [x][..0] == [];
  }

  lemma {:induction false} SumAdds(s: seq<real>, f: real -> real, g: real -> real, h: real -> real)
    requires forall x :: x in s ==> h(x) == f(x) + g(x)
    ensures SumOf(s, h) == SumOf(s, f) + SumOf(s, g)
  {
    if s != [] {
      var front, x := s[..|s| - 1], s[|s| - 1];
      assert x in s;
      SumAdds(front, f, g, h);
    }
  }

  lemma {:induction false} SumConstant(s: seq<real>, f: real -> real, c: real)
    requires forall x :: x in s ==> f(x) == c
    ensures SumOf(s, f) == c * |s| as real
  {
    if s != [] {
      var front, x := s[..|s| - 1], s[|s| - 1];
      assert x in s;
      SumConstant(front, f, c);
      assert c * |s| as real == c * |front| as real + c;
    }
  }

  /** Term by term: bounded by `c`, and at the bound exactly when every term is. */
  lemma {:induction false} SumBounded(s: seq<real>, f: real -> real, c: real)
    requires forall x :: x in s ==> 0.0 <= f(x) <= c
    ensures 0.0 <= SumOf(s, f) <= c * |s| as real
    ensures SumOf(s, f) == c * |s| as real <==> forall x :: x in s ==> f(x) == c
  {
    if s != [] {
      var front, x := s[..|s| - 1], s[|s| - 1];
      assert x in s;
      SumBounded(front, f, c);
      OneMore(c, |front|);
      assert forall y :: y in s <==> y in front || y == x;
    }
  }

  lemma OneMore(c: real, n: nat)
    ensures c * (n + 1) as real == c * n as real + c
  {
  }

  function Mapped(s: seq<real>, g: real -> real): (r: seq<real>)
    ensures |r| == |s|
    ensures forall i :: 0 <= i < |s| ==> r[i] == g(s[i])
  {
    if s == [] then [] else Mapped(s[..|s| - 1], g) + [g(s[|s| - 1])]
  }

  lemma {:induction false} SumMapped(s: seq<real>, g: real -> real, f: real -> real, h: real -> real)
    requires forall x :: x in s ==> f(x) == h(g(x))
    ensures SumOf(s, f) == SumOf(Mapped(s, g), h)
  {
    if s != [] {
      var front, x := s[..|s| - 1], s[|s| - 1];
      assert x in s;
      SumMapped(front, g, f, h);
      assert Mapped(s, g)[..|s| - 1] == Mapped(front, g);
    }
  }

  // --------------------------------------------------------------------- range and complement

  lemma WinsBounded(pos: seq<real>, neg: seq<real>)
    ensures 0.0 <= Wins(pos, neg) <= (|pos| * |neg|) as real
    ensures Wins(pos, neg) == (|pos| * |neg|) as real
       <==> forall p :: p in pos ==> Beats(p, neg)
  {
    EachAgainstAll(neg);
    ProductAsReal(|pos|, |neg|);
    SumAtBound(pos, Against(neg), |neg| as real, p => Beats(p, neg), (|pos| * |neg|) as real);
  }

  lemma SumAtBound(s: seq<real>, f: real -> real, c: real, full: real -> bool, total: real)
    requires forall x :: 0.0 <= f(x) <= c
    requires forall x :: f(x) == c <==> full(x)
    requires total == c * |s| as real
    ensures 0.0 <= SumOf(s, f) <= total
    ensures SumOf(s, f) == total <==> forall x :: x in s ==> full(x)
  {
    SumBounded(s, f, c);
  }

  lemma EachAgainstAll(neg: seq<real>)
    ensures forall p :: 0.0 <= Against(neg)(p) <= |neg| as real
    ensures forall p :: Against(neg)(p) == |neg| as real <==> Beats(p, neg)
  {
    forall p ensures 0.0 <= Against(neg)(p) <= |neg| as real
             ensures Against(neg)(p) == |neg| as real <==> Beats(p, neg) {
      OneAgainstAll(p, neg);
    }
  }

  ghost predicate Beats(p: real, neg: seq<real>) {
    forall q :: q in neg ==> p > q
  }

  lemma ProductAsReal(m: nat, n: nat)
    ensures (m * n) as real == n as real * m as real
  {
  }

  lemma OneAgainstAll(p: real, neg: seq<real>)
    ensures 0.0 <= Against(neg)(p) <= |neg| as real
    ensures Against(neg)(p) == |neg| as real <==> Beats(p, neg)
  {
    SumBounded(neg, Versus(p), 1.0);
    assert forall q :: Versus(p)(q) == 1.0 <==> p > q;
  }

  /** The area lies between 0 and 1, and is 1 exactly when every positive scores above every
      negative. */
  lemma AucBounds(pos: seq<real>, neg: seq<real>)
    requires AucOf(pos, neg).Some?
    ensures 0.0 <= AucOf(pos, neg).value <= 1.0
    ensures AucOf(pos, neg).value == 1.0 <==> forall p :: p in pos ==> Beats(p, neg)
  {
    WinsBounded(pos, neg);
    assert |pos| * |neg| > 0;
    Fraction(Wins(pos, neg), (|pos| * |neg|) as real);
  }

  lemma Fraction(w: real, n: real)
    requires n > 0.0
    requires 0.0 <= w <= n
    ensures 0.0 <= w / n <= 1.0
    ensures w / n == 1.0 <==> w == n
  {
  }

  lemma {:induction false} WinsAppend(neg: seq<real>, pos: seq<real>, p: real)
    ensures Wins(neg, pos + [p]) == Wins(neg, pos) + SumOf(neg, q => Score(q, p))
  {
    var last: real -> real := q => Score(q, p);
    forall q ensures Against(pos + [p])(q) == Against(pos)(q) + last(q) {
      SumConcat(pos, [p], Versus(q));
      assert SumOf([p], Versus(q)) == SumOf([], Versus(q)) + Versus(q)(p) by { assert [p][..0] == []; }
    }
    SumAdds(neg, Against(pos), last, Against(pos + [p]));
    forall q ensures last(q) == Score(q, p) {}
    SumSame(neg, last, q => Score(q, p));
  }

  lemma {:induction false} SumSame(s: seq<real>, f: real -> real, g: real -> real)
    requires forall x :: x in s ==> f(x) == g(x)
    ensures SumOf(s, f) == SumOf(s, g)
  {
    if s != [] {
      var front, x := s[..|s| - 1], s[|s| - 1];
      assert x in s;
      SumSame(front, f, g);
    }
  }

  /** Each pair is won, lost or tied: the two directions share out all the pairs. */
  lemma {:induction false} WinsComplement(pos: seq<real>, neg: seq<real>)
    ensures Wins(pos, neg) + Wins(neg, pos) == (|pos| * |neg|) as real
  {
    if pos == [] {
      SumConstant(neg, Against([]), 0.0);
    } else {
      var front, p := pos[..|pos| - 1], pos[|pos| - 1];
      assert pos == front + [p];
      WinsComplement(front, neg);
      WinsAppend(neg, front, p);
      var lost: real -> real := q => Score(q, p);
      var one: real -> real := q => 1.0;
      SumAdds(neg, Versus(p), lost, one);
      SumConstant(neg, one, 1.0);
      SumSame(neg, lost, q => Score(q, p));
      assert |pos| * |neg| == |front| * |neg| + |neg|;
    }
  }

  lemma AucComplement(pos: seq<real>, neg: seq<real>)
    requires pos != [] && neg != []
    ensures AucOf(pos, neg).Some? && AucOf(neg, pos).Some?
    ensures AucOf(pos, neg).value + AucOf(neg, pos).value == 1.0
  {
    WinsComplement(pos, neg);
    assert |pos| * |neg| > 0;
    assert |pos| * |neg| == |neg| * |pos|;
    FractionsAdd(Wins(pos, neg), Wins(neg, pos), (|pos| * |neg|) as real);
  }

  lemma FractionsAdd(x: real, y: real, n: real)
    requires n > 0.0 && x + y == n
    ensures x / n + y / n == 1.0
  {
  }

  // --------------------------------------------------------------------- invariance

  /** The order of the scores does not matter. */
  lemma AucPermuted(pos: seq<real>, neg: seq<real>, pos': seq<real>, neg': seq<real>)
    requires multiset(pos) == multiset(pos') && multiset(neg) == multiset(neg')
    ensures AucOf(pos, neg) == AucOf(pos', neg')
  {
    assert |pos| == |multiset(pos)| == |multiset(pos')| == |pos'|;
    assert |neg| == |multiset(neg)| == |multiset(neg')| == |neg'|;
    SumPermuted(pos, pos', Against(neg));
    forall p ensures Against(neg)(p) == Against(neg')(p) {
      SumPermuted(neg, neg', Versus(p));
    }
    SumSame(pos', Against(neg), Against(neg'));
  }

  /** Only the order of the scores matters: a map that is strictly increasing on them changes
      nothing. */
  lemma AucRescaled(pos: seq<real>, neg: seq<real>, g: real -> real)
    requires forall x, y :: x in pos + neg && y in pos + neg && x < y ==> g(x) < g(y)
    ensures AucOf(Mapped(pos, g), Mapped(neg, g)) == AucOf(pos, neg)
  {
    forall p | p in pos ensures Against(neg)(p) == Against(Mapped(neg, g))(g(p)) {
      forall q | q in neg ensures Versus(p)(q) == Versus(g(p))(g(q)) {
        assert p in pos + neg && q in pos + neg;
      }
      SumMapped(neg, g, Versus(p), Versus(g(p)));
    }
    SumMapped(pos, g, Against(neg), Against(Mapped(neg, g)));
  }

  // --------------------------------------------------------------------- ranks

  function Below(s: seq<real>, x: real): nat {
    if s == [] then 0 else Below(s[..|s| - 1], x) + if s[|s| - 1] < x then 1 else 0
  }

  function Equal(s: seq<real>, x: real): nat {
    if s == [] then 0 else Equal(s[..|s| - 1], x) + if s[|s| - 1] == x then 1 else 0
  }

  ghost predicate Sorted(s: seq<real>) {
    forall i, j :: 0 <= i < j < |s| ==> s[i] <= s[j]
  }

  /** In the sorted pool, the copies of `x` hold exactly the positions after the smaller scores. */
  lemma {:induction false} RanksInSortedPool(s: seq<real>, x: real)
    requires Sorted(s)
    ensures Below(s, x) + Equal(s, x) <= |s|
    ensures forall i :: 0 <= i < |s| ==> (s[i] < x <==> i < Below(s, x))
    ensures forall i :: 0 <= i < |s| ==> (s[i] == x <==> Below(s, x) <= i < Below(s, x) + Equal(s, x))
  {
    if s != [] {
      RanksInSortedPool(s[..|s| - 1], x);
    }
  }

  /** The middle of the (1-based) ranks that the copies of `x` share. */
  function MidRank(pool: seq<real>, x: real): real {
    ((Below(pool, x) + 1) + (Below(pool, x) + Equal(pool, x))) as real / 2.0
  }

  function MidRankIn(pool: seq<real>): real -> real {
    x => MidRank(pool, x)
  }

  lemma {:induction false} WinsAreRanks(pool: seq<real>, x: real)
    ensures SumOf(pool, Versus(x)) == Below(pool, x) as real + Equal(pool, x) as real / 2.0
    ensures MidRank(pool, x) == SumOf(pool, Versus(x)) + 0.5
  {
    if pool != [] {
      WinsAreRanks(pool[..|pool| - 1], x);
    }
  }

  /** The statistic as the textbooks compute it from the rank sum of `n` positives. */
  function RankStatistic(rankSum: real, n: nat): real {
    rankSum - (n * (n + 1)) as real / 2.0
  }

  /** The pairwise count is the mid-rank sum of the positives less its smallest possible value. */
  lemma WinsIsRankSum(pos: seq<real>, neg: seq<real>)
    ensures Wins(pos, neg) == RankStatistic(SumOf(pos, MidRankIn(pos + neg)), |pos|)
  {
    RanksAreWins(pos, neg);
    WinsComplement(pos, pos);
    var n := |pos|;
    assert (n * (n + 1)) == n * n + n;
  }

  lemma RankSplits(pos: seq<real>, neg: seq<real>, x: real)
    ensures MidRankIn(pos + neg)(x) == Against(pos)(x) + 0.5 + Against(neg)(x)
  {
    WinsAreRanks(pos + neg, x);
    SumConcat(pos, neg, Versus(x));
  }

  lemma RanksAreWins(pos: seq<real>, neg: seq<real>)
    ensures SumOf(pos, MidRankIn(pos + neg)) == Wins(pos, pos) + 0.5 * |pos| as real + Wins(pos, neg)
  {
    var half: real -> real := x => 0.5;
    var own: real -> real := x => Against(pos)(x) + 0.5;
    forall x ensures MidRankIn(pos + neg)(x) == own(x) + Against(neg)(x) {
      RankSplits(pos, neg, x);
    }
    SumAdds(pos, own, Against(neg), MidRankIn(pos + neg));
    SumAdds(pos, Against(pos), half, own);
    SumConstant(pos, half, 0.5);
  }

  lemma RanksPermuted(s: seq<real>, pool: seq<real>, other: seq<real>)
    requires multiset(pool) == multiset(other)
    ensures SumOf(s, MidRankIn(pool)) == SumOf(s, MidRankIn(other))
  {
    forall x ensures MidRankIn(pool)(x) == MidRankIn(other)(x) {
      RankPermuted(pool, other, x);
    }
    SumSame(s, MidRankIn(pool), MidRankIn(other));
  }

  /** The area is the mid-rank form of the Mann-Whitney statistic, with the ranks taken in any order
      of the pool of all the scores; so in the sorted one. */
  lemma AucIsRankSum(pos: seq<real>, neg: seq<real>, pool: seq<real>)
    requires pos != [] && neg != []
    requires multiset(pool) == multiset(pos + neg)
    ensures AucOf(pos, neg) == Some(PerPair(RankStatistic(SumOf(pos, MidRankIn(pool)), |pos|), |pos|, |neg|))
  {
    WinsIsRankSum(pos, neg);
    RanksPermuted(pos, pool, pos + neg);
  }

  lemma RankPermuted(pool: seq<real>, other: seq<real>, x: real)
    requires multiset(pool) == multiset(other)
    ensures MidRankIn(pool)(x) == MidRankIn(other)(x)
  {
    WinsAreRanks(pool, x);
    WinsAreRanks(other, x);
    SumPermuted(pool, other, Versus(x));
  }
}
