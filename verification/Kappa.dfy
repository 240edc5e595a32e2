/** Agreement between two labellers of the evaluation set: Cohen's kappa, over the reals. */
module Kappa {
  import opened Wrappers
  import opened JoinKeys
  import opened Sets

  type Label = string
  type Labelling = map<Key, Label>

  // --------------------------------------------------------------------- sums over label sets

  /** The sum of `f` over a set, which does not depend on the order the set is walked in
      (`SumPick`). */
  ghost function Sum(labels: set<Label>, f: Label -> real): real {
    if labels == {} then 0.0
    else
      var c :| c in labels;
      f(c) + Sum(labels - {c}, f)
  }

  lemma {:induction false} SumPick(labels: set<Label>, f: Label -> real, c: Label)
    requires c in labels
    ensures Sum(labels, f) == f(c) + Sum(labels - {c}, f)
  {
    var d :| d in labels && Sum(labels, f) == f(d) + Sum(labels - {d}, f);
    if d != c {
      SumPick(labels - {d}, f, c);
      SumPick(labels - {c}, f, d);
      assert labels - {d} - {c} == labels - {c} - {d};
    }
  }

  lemma {:induction false} SumLe(labels: set<Label>, f: Label -> real, g: Label -> real)
    requires forall c :: c in labels ==> f(c) <= g(c)
    ensures Sum(labels, f) <= Sum(labels, g)
  {
    if labels != {} {
      var c :| c in labels;
      SumPick(labels, f, c);
      SumPick(labels, g, c);
      SumLe(labels - {c}, f, g);
    }
  }

  lemma {:induction false} SumAdd(labels: set<Label>, f: Label -> real, g: Label -> real, h: Label -> real)
    requires forall c :: c in labels ==> h(c) == f(c) + g(c)
    ensures Sum(labels, h) == Sum(labels, f) + Sum(labels, g)
  {
    if labels != {} {
      var c :| c in labels;
      SumPick(labels, f, c);
      SumPick(labels, g, c);
      SumPick(labels, h, c);
      SumAdd(labels - {c}, f, g, h);
    }
  }

  // --------------------------------------------------------------------- the coefficient

  ghost function Shared(a: Labelling, b: Labelling): set<Key> {
    a.Keys * b.Keys
  }

  ghost function Using(a: Labelling, keys: set<Key>, c: Label): set<Key>
    requires keys <= a.Keys
  {
    set k | k in keys && a[k] == c
  }

  ghost function Agreed(a: Labelling, b: Labelling): set<Key> {
    set k | k in Shared(a, b) && a[k] == b[k]
  }

  ghost function Labels(a: Labelling, b: Labelling): set<Label> {
    (set k | k in Shared(a, b) :: a[k]) + (set k | k in Shared(a, b) :: b[k])
  }

  /** The part of the keys in `keys` that `a` gives the label `c`. */
  ghost function Share(a: Labelling, keys: set<Key>): Label -> real
    requires keys <= a.Keys
    requires keys != {}
  {
    c => |Using(a, keys, c)| as real / |keys| as real
  }

  ghost function ChanceOf(a: Labelling, b: Labelling): Label -> real
    requires Shared(a, b) != {}
  {
    c => Share(a, Shared(a, b))(c) * Share(b, Shared(a, b))(c)
  }

  ghost function Observed(a: Labelling, b: Labelling): real
    requires Shared(a, b) != {}
  {
    |Agreed(a, b)| as real / |Shared(a, b)| as real
  }

  ghost function Expected(a: Labelling, b: Labelling): real
    requires Shared(a, b) != {}
  {
    Sum(Labels(a, b), ChanceOf(a, b))
  }

  ghost function CohenKappa(a: Labelling, b: Labelling): Option<real> {
    if Shared(a, b) == {} then None
    else
      var po := Observed(a, b);
      var pe := Expected(a, b);
      if pe >= 1.0 then None else Some((po - pe) / (1.0 - pe))
  }

  // --------------------------------------------------------------------- counting

  /** The part of all the shared keys that lies in `part`. */
  ghost function Part(part: set<Key>, keys: set<Key>): real
    requires keys != {}
  {
    |part| as real / |keys| as real
  }

  lemma PartUnion(x: set<Key>, y: set<Key>, keys: set<Key>)
    requires keys != {}
    requires x !! y
    ensures Part(x + y, keys) == Part(x, keys) + Part(y, keys)
  {
    assert |x + y| == |x| + |y|;
    QuotientAdds(|x| as real, |y| as real, |keys| as real);
  }

  lemma QuotientAdds(x: real, y: real, n: real)
    requires n != 0.0
    ensures (x + y) / n == x / n + y / n
  {
  }

  lemma PartIsFraction(x: set<Key>, keys: set<Key>)
    requires x <= keys
    requires keys != {}
    ensures 0.0 <= Part(x, keys) <= 1.0
    ensures Part(x, keys) == 1.0 <==> x == keys
  {
    SubsetIsSmaller(x, keys);
    Ratio(|x| as real, |keys| as real);
  }

  lemma Ratio(x: real, n: real)
    requires n > 0.0
    ensures x / n <= 1.0 <==> x <= n
    ensures x / n >= 1.0 <==> x >= n
    ensures x / n >= -1.0 <==> x >= -n
    ensures x / n >= 0.0 <==> x >= 0.0
  {
    var r := x / n;
    var a, b := r * n, -1.0 * n;
    assert a == x && b == -n;
    Scales(r, 1.0, n, a, n);
    Scales(1.0, r, n, n, a);
    Scales(-1.0, r, n, b, a);
    Scales(0.0, r, n, 0.0, a);
  }

  lemma Scales(x: real, y: real, n: real, xn: real, yn: real)
    requires n > 0.0
    requires xn == x * n && yn == y * n
    ensures x <= y <==> xn <= yn
  {
    assert (y - x) * n == yn - xn;
  }

  /** Inclusion and exclusion. */
  lemma OverlapIsLarge(x: set<Key>, y: set<Key>, keys: set<Key>)
    requires x <= keys && y <= keys
    requires keys != {}
    ensures Part(x * y, keys) >= Part(x, keys) + Part(y, keys) - 1.0
  {
    PartUnion(x - y, x * y, keys);
    assert (x - y) + (x * y) == x;
    PartUnion(x - y, y, keys);
    PartIsFraction((x - y) + y, keys);
  }

  /** The parts of the keys with one label each add up to the part with any of these labels. */
  lemma {:induction false} SharesAddUp(
    f: Label -> real, m: Labelling, within: set<Key>, keys: set<Key>, labels: set<Label>)
    requires keys != {}
    requires within <= m.Keys
    requires forall c :: c in labels ==> f(c) == Part(Using(m, within, c), keys)
    ensures Sum(labels, f) == Part((set k | k in within && m[k] in labels), keys)
  {
    if labels == {} {
      assert (set k | k in within && m[k] in labels) == {};
    } else {
      var c :| c in labels;
      SumPick(labels, f, c);
      SharesAddUp(f, m, within, keys, labels - {c});
      LabelSplits(m, within, keys, labels, c);
    }
  }

  lemma LabelSplits(m: Labelling, within: set<Key>, keys: set<Key>, labels: set<Label>, c: Label)
    requires keys != {} && within <= m.Keys && c in labels
    ensures Part((set k | k in within && m[k] in labels), keys)
         == Part(Using(m, within, c), keys) + Part((set k | k in within && m[k] in labels - {c}), keys)
  {
    var rest := set k | k in within && m[k] in labels - {c};
    PartUnion(Using(m, within, c), rest, keys);
    assert Using(m, within, c) + rest == set k | k in within && m[k] in labels;
  }

  /** The shares of a labeller add up to one. */
  lemma SharesAreAll(a: Labelling, keys: set<Key>, labels: set<Label>)
    requires keys <= a.Keys && keys != {}
    requires forall k :: k in keys ==> a[k] in labels
    ensures Sum(labels, Share(a, keys)) == 1.0
  {
    SharesAddUp(Share(a, keys), a, keys, keys, labels);
    assert (set k | k in keys && a[k] in labels) == keys;
    PartIsFraction(keys, keys);
  }

  /** The part of the keys on which both used the label `c`. */
  ghost function BothUse(a: Labelling, b: Labelling): Label -> real
    requires Shared(a, b) != {}
  {
    c => Part(Using(a, Agreed(a, b), c), Shared(a, b))
  }

  lemma AgreementIsTheSum(a: Labelling, b: Labelling)
    requires Shared(a, b) != {}
    ensures Sum(Labels(a, b), BothUse(a, b)) == Observed(a, b)
  {
    SharesAddUp(BothUse(a, b), a, Agreed(a, b), Shared(a, b), Labels(a, b));
    assert (set k | k in Agreed(a, b) && a[k] in Labels(a, b)) == Agreed(a, b);
  }

  // --------------------------------------------------------------------- bounds

  lemma ChanceBound(x: real, y: real, m: real)
    requires 0.0 <= x <= 1.0 && 0.0 <= y <= 1.0
    requires 0.0 <= m && x + y - 1.0 <= m
    ensures 4.0 * (x * y) <= x + y + 2.0 * m
  {
    var s := x + y;
    assert s * s - 4.0 * (x * y) == (x - y) * (x - y);
    assert (x - y) * (x - y) >= 0.0;
    if s <= 1.0 {
      Product(s, 1.0 - s);
      assert s * (1.0 - s) == s - s * s;
    } else {
      Product(s - 1.0, 2.0 - s);
      assert (s - 1.0) * (2.0 - s) == 3.0 * s - s * s - 2.0;
    }
  }

  lemma Product(x: real, y: real)
    requires x >= 0.0 && y >= 0.0
    ensures x * y >= 0.0
  {
  }

  lemma LabelBound(a: Labelling, b: Labelling, c: Label)
    requires Shared(a, b) != {}
    ensures 4.0 * ChanceOf(a, b)(c)
         <= Share(a, Shared(a, b))(c) + Share(b, Shared(a, b))(c) + 2.0 * BothUse(a, b)(c)
  {
    var keys := Shared(a, b);
    var x, y := Using(a, keys, c), Using(b, keys, c);
    assert Using(a, Agreed(a, b), c) == x * y;
    OverlapIsLarge(x, y, keys);
    PartIsFraction(x, keys);
    PartIsFraction(y, keys);
    PartIsFraction(x * y, keys);
    ChanceBound(Part(x, keys), Part(y, keys), Part(x * y, keys));
  }

  /** Chance agreement is at most halfway between the observed agreement and one. */
  lemma ExpectedBound(a: Labelling, b: Labelling)
    requires Shared(a, b) != {}
    ensures 2.0 * Expected(a, b) <= 1.0 + Observed(a, b)
  {
    var keys, labels := Shared(a, b), Labels(a, b);
    var x, y, m, p := Share(a, keys), Share(b, keys), BothUse(a, b), ChanceOf(a, b);
    var p2: Label -> real := c => p(c) + p(c);
    var p4: Label -> real := c => p2(c) + p2(c);
    var xy: Label -> real := c => x(c) + y(c);
    var mm: Label -> real := c => m(c) + m(c);
    var right: Label -> real := c => xy(c) + mm(c);
    forall c | c in labels ensures p4(c) <= right(c) {
      LabelBound(a, b, c);
    }
    SumLe(labels, p4, right);
    SumAdd(labels, p, p, p2);
    SumAdd(labels, p2, p2, p4);
    SumAdd(labels, x, y, xy);
    SumAdd(labels, m, m, mm);
    SumAdd(labels, xy, mm, right);
    SharesAreAll(a, keys, labels);
    SharesAreAll(b, keys, labels);
    AgreementIsTheSum(a, b);
  }

  /** Whenever kappa is defined it lies between -1 and 1. */
  lemma KappaBounds(a: Labelling, b: Labelling)
    requires CohenKappa(a, b).Some?
    ensures -1.0 <= CohenKappa(a, b).value <= 1.0
  {
    ExpectedBound(a, b);
    PartIsFraction(Agreed(a, b), Shared(a, b));
    RatioBounds(Observed(a, b), Expected(a, b));
  }

  lemma RatioBounds(po: real, pe: real)
    requires pe < 1.0 && po <= 1.0 && 2.0 * pe <= 1.0 + po
    ensures -1.0 <= (po - pe) / (1.0 - pe) <= 1.0
    ensures (po - pe) / (1.0 - pe) == 1.0 <==> po == 1.0
  {
    Ratio(po - pe, 1.0 - pe);
  }

  /** Kappa is 1 exactly when the labellers agree on every shared key. */
  lemma KappaIsOneIffAgreed(a: Labelling, b: Labelling)
    requires CohenKappa(a, b).Some?
    ensures CohenKappa(a, b).value == 1.0 <==> forall k :: k in a && k in b ==> a[k] == b[k]
  {
    ExpectedBound(a, b);
    PartIsFraction(Agreed(a, b), Shared(a, b));
    RatioBounds(Observed(a, b), Expected(a, b));
    if forall k :: k in a && k in b ==> a[k] == b[k] {
      assert Agreed(a, b) == Shared(a, b);
    } else {
      var k :| k in a && k in b && a[k] != b[k];
      assert k in Shared(a, b) && k !in Agreed(a, b);
    }
  }

  /** Swapping the labellers changes nothing. */
  lemma KappaIsSymmetric(a: Labelling, b: Labelling)
    ensures CohenKappa(a, b) == CohenKappa(b, a)
  {
    assert Shared(a, b) == Shared(b, a);
    if Shared(a, b) != {} {
      assert Agreed(a, b) == Agreed(b, a);
      assert Labels(a, b) == Labels(b, a);
      assert forall c :: ChanceOf(a, b)(c) == ChanceOf(b, a)(c);
      SumLe(Labels(a, b), ChanceOf(a, b), ChanceOf(b, a));
      SumLe(Labels(a, b), ChanceOf(b, a), ChanceOf(a, b));
    }
  }

  // --------------------------------------------------------------------- when it is undefined

  /** Both give every shared key the label `c`. */
  ghost predicate OnlyUse(a: Labelling, b: Labelling, c: Label) {
    forall k :: k in Shared(a, b) ==> a[k] == c && b[k] == c
  }

  lemma ChanceBelowShare(a: Labelling, b: Labelling, c: Label)
    requires Shared(a, b) != {}
    ensures ChanceOf(a, b)(c) <= Share(a, Shared(a, b))(c)
    ensures ChanceOf(a, b)(c) == Share(a, Shared(a, b))(c)
        ==> Using(a, Shared(a, b), c) == {} || Using(b, Shared(a, b), c) == Shared(a, b)
  {
    var keys := Shared(a, b);
    var x, y := Using(a, keys, c), Using(b, keys, c);
    PartIsFraction(x, keys);
    PartIsFraction(y, keys);
    var p, q := Part(x, keys), Part(y, keys);
    assert p * q <= p;
    if p * q == p && x != {} {
      assert p > 0.0 by { assert |x| > 0; assert p * |keys| as real == |x| as real; }
      assert p * (1.0 - q) == 0.0;
      assert q == 1.0;
    }
  }

  lemma {:induction false} EqualSums(labels: set<Label>, f: Label -> real, g: Label -> real, c: Label)
    requires forall d :: d in labels ==> f(d) <= g(d)
    requires Sum(labels, f) >= Sum(labels, g)
    requires c in labels
    ensures f(c) == g(c)
  {
    SumPick(labels, f, c);
    SumPick(labels, g, c);
    SumLe(labels - {c}, f, g);
  }

  lemma CertainChanceIsOneLabel(a: Labelling, b: Labelling)
    requires Shared(a, b) != {}
    requires Expected(a, b) >= 1.0
    ensures exists c :: OnlyUse(a, b, c)
  {
    var keys, labels := Shared(a, b), Labels(a, b);
    SharesAreAll(a, keys, labels);
    forall c ensures ChanceOf(a, b)(c) <= Share(a, keys)(c) {
      ChanceBelowShare(a, b, c);
    }
    forall k | k in keys ensures forall j :: j in keys ==> b[j] == a[k] {
      EqualSums(labels, ChanceOf(a, b), Share(a, keys), a[k]);
      ChanceBelowShare(a, b, a[k]);
      assert k in Using(a, keys, a[k]);
      forall j | j in keys ensures b[j] == a[k] {
        assert j in Using(b, keys, a[k]);
      }
    }
    var k :| k in keys;
    assert OnlyUse(a, b, a[k]);
  }

  lemma OneLabelIsCertainChance(a: Labelling, b: Labelling, c: Label)
    requires Shared(a, b) != {}
    requires OnlyUse(a, b, c)
    ensures Expected(a, b) == 1.0
  {
    var keys := Shared(a, b);
    assert Using(a, keys, c) == keys && Using(b, keys, c) == keys;
    var k :| k in keys;
    assert a[k] == c;
    assert Labels(a, b) == {c};
    SumPick({c}, ChanceOf(a, b), c);
    assert {c} - {c} == {};
    PartIsFraction(keys, keys);
    var share := Part(keys, keys);
    assert Share(a, keys)(c) == share && Share(b, keys)(c) == share;
  }

  /** Kappa is undefined exactly when there is no shared key, or both labellers use one and the same
      label on all of them. */
  lemma UndefinedIff(a: Labelling, b: Labelling)
    ensures CohenKappa(a, b) == None
       <==> a.Keys !! b.Keys || exists c :: OnlyUse(a, b, c)
  {
    if Shared(a, b) != {} {
      assert !(a.Keys !! b.Keys);
      if Expected(a, b) >= 1.0 {
        CertainChanceIsOneLabel(a, b);
      }
      if c :| OnlyUse(a, b, c) {
        OneLabelIsCertainChance(a, b, c);
      }
    } else {
      assert forall k :: k in a.Keys && k in b.Keys ==> k in Shared(a, b);
    }
  }

  // --------------------------------------------------------------------- the value, by counting

  /** The pairs of shared keys on which the labellers give the same label: how often chance agrees. */
  ghost function ChancePairs(a: Labelling, b: Labelling): set<(Key, Key)> {
    PairsUsing(a, b, Labels(a, b))
  }

  ghost function PairsUsing(a: Labelling, b: Labelling, labels: set<Label>): set<(Key, Key)> {
    set j, k | j in Shared(a, b) && k in Shared(a, b) && a[j] == b[k] && a[j] in labels :: (j, k)
  }

  lemma ChancePairsAre(a: Labelling, b: Labelling, j: Key, k: Key)
    ensures (j, k) in ChancePairs(a, b) <==> j in a && j in b && k in a && k in b && a[j] == b[k]
  {
  }

  lemma {:induction false} ProductSize(x: set<Key>, y: set<Key>, p: set<(Key, Key)>)
    requires forall j, k :: (j, k) in p <==> j in x && k in y
    ensures |p| == |x| * |y|
  {
    if x == {} {
      assert p == {} by { assert forall q :: q in p ==> q.0 in x && (q.0, q.1) in p; }
    } else {
      var j :| j in x;
      var row := set k | k in y :: (j, k);
      var rest := p - row;
      RowSize(j, y, row);
      ProductSize(x - {j}, y, rest);
      assert p == rest + row by { assert forall k :: k in y ==> (j, k) in p; }
      assert |p| == |rest| + |row|;
      assert |x| == |x - {j}| + 1;
      OneMoreRow(|x - {j}|, |y|);
    }
  }

  lemma OneMoreRow(m: nat, n: nat)
    ensures (m + 1) * n == m * n + n
  {
  }

  lemma {:induction false} RowSize(j: Key, y: set<Key>, row: set<(Key, Key)>)
    requires row == set k | k in y :: (j, k)
    ensures |row| == |y|
    decreases |y|
  {
    if y != {} {
      var k :| k in y;
      var rest := set k' | k' in y - {k} :: (j, k');
      RowSize(j, y - {k}, rest);
      assert row == rest + {(j, k)};
      assert (j, k) !in rest;
    }
  }

  /** The pairs that agree on one label. */
  lemma LabelPairs(a: Labelling, b: Labelling, c: Label)
    ensures |PairsUsing(a, b, {c})| == |Using(a, Shared(a, b), c)| * |Using(b, Shared(a, b), c)|
  {
    ProductSize(Using(a, Shared(a, b), c), Using(b, Shared(a, b), c), PairsUsing(a, b, {c}));
  }

  lemma PairsSplit(a: Labelling, b: Labelling, labels: set<Label>, c: Label)
    requires c in labels
    ensures |PairsUsing(a, b, labels)| == |PairsUsing(a, b, labels - {c})| + |PairsUsing(a, b, {c})|
  {
    var rest, one := PairsUsing(a, b, labels - {c}), PairsUsing(a, b, {c});
    assert PairsUsing(a, b, labels) == rest + one;
    assert rest !! one;
    assert |rest + one| == |rest| + |one|;
  }

  /** The part of `m` pairs that lies in `pairs`. */
  ghost function PairPart(pairs: set<(Key, Key)>, m: nat): real
    requires m > 0
  {
    |pairs| as real / m as real
  }

  lemma ChanceOfCounts(a: Labelling, b: Labelling, c: Label, m: nat)
    requires Shared(a, b) != {} && m == |Shared(a, b)| * |Shared(a, b)| > 0
    ensures ChanceOf(a, b)(c) == PairPart(PairsUsing(a, b, {c}), m)
  {
    LabelPairs(a, b, c);
    var x, y, n := |Using(a, Shared(a, b), c)|, |Using(b, Shared(a, b), c)|, |Shared(a, b)|;
    OneLabelProduct(x, y, n, m);
    var p, q := Share(a, Shared(a, b))(c), Share(b, Shared(a, b))(c);
    assert p == x as real / n as real && q == y as real / n as real;
    assert ChanceOf(a, b)(c) == p * q;
  }

  lemma OneLabelProduct(x: nat, y: nat, n: nat, m: nat)
    requires n > 0 && m == n * n && m > 0
    ensures (x as real / n as real) * (y as real / n as real) == (x * y) as real / m as real
  {
    var p, q := x as real / n as real, y as real / n as real;
    assert p * n as real == x as real && q * n as real == y as real;
    assert m as real == n as real * n as real;
    assert p * q * m as real == (p * n as real) * (q * n as real);
  }

  lemma PairPartSplits(a: Labelling, b: Labelling, labels: set<Label>, c: Label, m: nat)
    requires c in labels && m > 0
    ensures PairPart(PairsUsing(a, b, labels), m)
         == PairPart(PairsUsing(a, b, {c}), m) + PairPart(PairsUsing(a, b, labels - {c}), m)
  {
    PairsSplit(a, b, labels, c);
    QuotientAdds(|PairsUsing(a, b, {c})| as real, |PairsUsing(a, b, labels - {c})| as real, m as real);
  }

  /** The double count, one label after the other. */
  lemma {:induction false} SumCountsPairs(a: Labelling, b: Labelling, labels: set<Label>, f: Label -> real, m: nat)
    requires m > 0
    requires forall c :: f(c) == PairPart(PairsUsing(a, b, {c}), m)
    ensures Sum(labels, f) == PairPart(PairsUsing(a, b, labels), m)
  {
    if labels == {} {
      assert PairsUsing(a, b, {}) == {};
    } else {
      var c :| c in labels;
      SumCountsPairs(a, b, labels - {c}, f, m);
      SumPick(labels, f, c);
      PairPartSplits(a, b, labels, c, m);
    }
  }

  /** The chance agreement is the part of all pairs that agree. */
  lemma ExpectedCounts(a: Labelling, b: Labelling, m: nat)
    requires Shared(a, b) != {} && m == |Shared(a, b)| * |Shared(a, b)| > 0
    ensures Expected(a, b) == PairPart(ChancePairs(a, b), m)
  {
    forall c ensures ChanceOf(a, b)(c) == PairPart(PairsUsing(a, b, {c}), m) {
      ChanceOfCounts(a, b, c, m);
    }
    SumCountsPairs(a, b, Labels(a, b), ChanceOf(a, b), m);
  }

  /** Kappa by counting alone: with `n` shared keys, `A` of them agreed on and `P` pairs of them that
      agree, kappa is the fraction of `n * A - P` over `n * n - P`. */
  lemma KappaByCounting(a: Labelling, b: Labelling)
    requires CohenKappa(a, b).Some?
    ensures var n, agreed, pairs := |Shared(a, b)|, |Agreed(a, b)|, |ChancePairs(a, b)|;
            && n * n > pairs
            && CohenKappa(a, b).value * (n * n - pairs) as real == (n * agreed - pairs) as real
            && (CohenKappa(a, b).value == 0.0 <==> n * agreed == pairs)
            && (CohenKappa(a, b).value < 0.0 <==> n * agreed < pairs)
  {
    var n, agreed, pairs := |Shared(a, b)|, |Agreed(a, b)|, |ChancePairs(a, b)|;
    PositiveSquare(n);
    ExpectedCounts(a, b, n * n);
    TimesSquare(agreed, n, Observed(a, b));
    Cleared(Observed(a, b), Expected(a, b), CohenKappa(a, b).value, n * n, n * agreed, pairs);
  }

  lemma PositiveSquare(n: nat)
    requires n > 0
    ensures n * n > 0
  {
  }

  lemma SquareAsReal(n: nat)
    ensures n as real * n as real == (n * n) as real
  {
  }

  lemma TimesSquare(agreed: nat, n: nat, po: real)
    requires n > 0 && po == agreed as real / n as real
    ensures po * (n * n) as real == (n * agreed) as real
  {
    assert po * n as real == agreed as real;
    assert po * (n as real * n as real) == (po * n as real) * n as real;
    SquareAsReal(n);
  }

  lemma Cleared(po: real, pe: real, kappa: real, m: nat, x: nat, pairs: nat)
    requires m > 0 && pe < 1.0
    requires po * m as real == x as real && pe == pairs as real / m as real
    requires kappa == (po - pe) / (1.0 - pe)
    ensures m > pairs
    ensures kappa * (m - pairs) as real == (x - pairs) as real
    ensures kappa == 0.0 <==> x == pairs
    ensures kappa < 0.0 <==> x < pairs
  {
    var r, d := m as real, (m - pairs) as real;
    assert pe * r == pairs as real;
    Scales(pe, 1.0, r, pairs as real, r);
    Scales(1.0, pe, r, r, pairs as real);
    assert kappa * (1.0 - pe) == po - pe;
    assert kappa * (1.0 - pe) * r == (po - pe) * r;
    assert (1.0 - pe) * r == d && (po - pe) * r == (x - pairs) as real;
    assert kappa * (1.0 - pe) * r == kappa * ((1.0 - pe) * r);
    Scales(kappa, 0.0, d, (x - pairs) as real, 0.0);
    Scales(0.0, kappa, d, 0.0, (x - pairs) as real);
  }

  // --------------------------------------------------------------------- consensus

  const AMBIGUOUS: Label := "ambiguous"

  ghost predicate Unanimous(labellers: map<string, Labelling>, k: Key, c: Label) {
    forall n :: n in labellers ==> k in labellers[n] && labellers[n][k] == c
  }

  ghost predicate Agrees(labellers: map<string, Labelling>, k: Key, r: Label) {
    || Unanimous(labellers, k, r)
    || (r == AMBIGUOUS && forall c :: !Unanimous(labellers, k, c))
  }

  ghost function ValuesOf(labellers: map<string, Labelling>, k: Key): set<Option<Label>> {
    set n | n in labellers :: if k in labellers[n] then Some(labellers[n][k]) else None
  }

  lemma SingleValue(labellers: map<string, Labelling>, k: Key, vals: set<Option<Label>>, n: string)
    requires vals == ValuesOf(labellers, k)
    requires n in labellers && k in labellers[n]
    ensures |vals| == 1 && None !in vals ==> forall v :: v in vals ==> v.Some? && Unanimous(labellers, k, v.value)
    ensures forall c :: Unanimous(labellers, k, c) ==> |vals| == 1 && None !in vals
  {
    var v := Some(labellers[n][k]);
    assert v in vals;
    if |vals| == 1 && None !in vals {
      assert |vals - {v}| == 0;
      forall m | m in labellers ensures k in labellers[m] && labellers[m][k] == labellers[n][k] {
        var w := if k in labellers[m] then Some(labellers[m][k]) else None;
        assert w in vals;
        assert w !in vals - {v};
      }
    }
    forall c | Unanimous(labellers, k, c) ensures |vals| == 1 && None !in vals {
      assert forall w :: w in vals ==> w == Some(c);
      assert vals == {v};
    }
  }

  /** A key's consensus is the label every labeller gives it; a key on which two differ, or which one
      of them has not labelled, is ambiguous. */
  method Consensus(labellers: map<string, Labelling>) returns (out: map<Key, Label>)
    ensures forall k :: k in out <==> exists n :: n in labellers && k in labellers[n]
    ensures forall k :: k in out ==> Agrees(labellers, k, out[k])
  {
    var todo := set n, k | n in labellers && k in labellers[n].Keys :: k;
    out := map[];
    ghost var all := todo;
    while todo != {}
      invariant todo <= all
      invariant out.Keys == all - todo
      invariant forall k :: k in out ==> Agrees(labellers, k, out[k])
      decreases |todo|
    {
      var k :| k in todo;
      var vals := set n | n in labellers :: if k in labellers[n] then Some(labellers[n][k]) else None;
      ghost var n :| n in labellers && k in labellers[n];
      SingleValue(labellers, k, vals, n);
      if |vals| == 1 && None !in vals {
        var v :| v in vals;
        out := out[k := v.value];
      } else {
        out := out[k := AMBIGUOUS];
      }
      todo := todo - {k};
    }
  }
}
