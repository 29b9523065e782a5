/** What a weighted mean is: the laws that determine it, without its definition. */
module MeanLaws {
  import opened Collections
  import opened Scoring

  lemma {:induction false} TotalsConcat(a: seq<Weighted>, b: seq<Weighted>)
    ensures TotalWeight(a + b) == TotalWeight(a) + TotalWeight(b)
    ensures WeightedSum(a + b) == WeightedSum(a) + WeightedSum(b)
  {
    if a == [] {
      assert a + b == b;
    } else {
      TotalsConcat(a[1..], b);
      assert (a + b)[1..] == a[1..] + b;
    }
  }

  lemma {:induction false} NoWeightNoSum(ws: seq<Weighted>)
    ensures TotalWeight(ws) == 0.0 <==> forall i :: 0 <= i < |ws| ==> ws[i].weight <= 0.0
    ensures TotalWeight(ws) == 0.0 ==> WeightedSum(ws) == 0.0
  {
    if ws != [] {
      NoWeightNoSum(ws[1..]);
      assert forall i :: 0 <= i < |ws[1..]| ==> ws[1..][i] == ws[i + 1];
      ScaleMonotone(0.0, 0.0, Positive(ws[0].weight));
      if TotalWeight(ws) == 0.0 {
        assert Positive(ws[0].weight) == 0.0;
        TimesZero(ws[0].score);
      }
    }
  }

  lemma TimesZero(x: real)
    ensures Times(x, 0.0) == 0.0
  {
  }

  lemma QuotientTimes(sum: real, total: real)
    requires total != 0.0
    ensures Times(sum / total, total) == sum
  {
  }

  /** The mean times the total weight is the weighted sum. */
  lemma MeanTimesTotal(ws: seq<Weighted>)
    ensures Times(Mean(ws), TotalWeight(ws)) == WeightedSum(ws)
  {
    NoWeightNoSum(ws);
    if TotalWeight(ws) == 0.0 {
      TimesZero(Mean(ws));
    } else {
      QuotientTimes(WeightedSum(ws), TotalWeight(ws));
    }
  }

  lemma TimesCancels(x: real, y: real, w: real)
    requires w > 0.0 && Times(x, w) == Times(y, w)
    ensures x == y
  {
    assert (x - y) * w == 0.0;
  }

  lemma MeanOfOne(w: Weighted)
    ensures TotalWeight([w]) == (if w.weight > 0.0 then w.weight else 0.0)
    ensures w.weight > 0.0 ==> Mean([w]) == w.score
  {
    assert [w][1..] == [];
    if w.weight > 0.0 {
      MeanTimesTotal([w]);
      assert WeightedSum([w]) == Times(w.score, w.weight) + WeightedSum([]);
      TimesCancels(Mean([w]), w.score, w.weight);
    }
  }

  /** Without a positive weight the mean is zero; one part with a positive weight has
      its own score as mean; and over two lists the means, each times its total
      weight, add up. Negative weights count as zero. */
  lemma WeightedMeanLaws(a: seq<Weighted>, b: seq<Weighted>, w: Weighted)
    ensures (forall i :: 0 <= i < |a| ==> a[i].weight <= 0.0) ==> Mean(a) == 0.0 && TotalWeight(a) == 0.0
    ensures TotalWeight([w]) == (if w.weight > 0.0 then w.weight else 0.0)
    ensures w.weight > 0.0 ==> Mean([w]) == w.score
    ensures TotalWeight(a + b) == TotalWeight(a) + TotalWeight(b)
    ensures Mean(a + b) * TotalWeight(a + b) == Mean(a) * TotalWeight(a) + Mean(b) * TotalWeight(b)
  {
    NoWeightNoSum(a);
    MeanOfOne(w);
    TotalsConcat(a, b);
    MeanTimesTotal(a);
    MeanTimesTotal(b);
    MeanTimesTotal(a + b);
  }

  /** Any two functions with these laws agree, so there is one weighted mean. */
  ghost predicate IsMean(total: seq<Weighted> -> real, mean: seq<Weighted> -> real) {
    && (forall w: Weighted :: total([w]) == if w.weight > 0.0 then w.weight else 0.0)
    && (forall w: Weighted :: w.weight > 0.0 ==> mean([w]) == w.score)
    && (forall a, b :: total(a + b) == total(a) + total(b))
    && (forall a, b :: Times(mean(a + b), total(a + b)) == Times(mean(a), total(a)) + Times(mean(b), total(b)))
    && (forall a :: total(a) == 0.0 ==> mean(a) == 0.0)
  }

  lemma {:induction false} LawsDetermineTotals(total: seq<Weighted> -> real, mean: seq<Weighted> -> real, ws: seq<Weighted>)
    requires IsMean(total, mean)
    ensures total(ws) == TotalWeight(ws) && Times(mean(ws), total(ws)) == WeightedSum(ws)
  {
    if ws == [] {
      assert ws + ws == ws;
      assert total(ws + ws) == total(ws) + total(ws);
      TimesZero(mean(ws));
    } else {
      var head, rest := [ws[0]], ws[1..];
      LawsDetermineTotals(total, mean, rest);
      assert head + rest == ws;
      assert total(head + rest) == total(head) + total(rest);
      if ws[0].weight <= 0.0 {
        TimesZero(mean(head));
        TimesZero(ws[0].score);
      }
    }
  }

  lemma LawsDetermineTheMean(total: seq<Weighted> -> real, mean: seq<Weighted> -> real, ws: seq<Weighted>)
    requires IsMean(total, mean)
    ensures total(ws) == TotalWeight(ws) && mean(ws) == Mean(ws)
  {
    LawsDetermineTotals(total, mean, ws);
    MeanTimesTotal(ws);
    if TotalWeight(ws) != 0.0 {
      TimesCancels(mean(ws), Mean(ws), TotalWeight(ws));
    }
  }

  // Means over a part of a list -----------------------------------------------------------

  /** Components outside the part weigh nothing. */
  function ShareOf(p: Component -> bool, cs: seq<Component>): seq<Weighted> {
    seq(|cs|, i requires 0 <= i < |cs| => Weighted(cs[i].score, if p(cs[i]) then cs[i].weight else 0.0))
  }

  lemma {:induction false} FilteredTotals(p: Component -> bool, cs: seq<Component>)
    ensures TotalWeight(WeightedOf(Filter(p, cs))) == TotalWeight(ShareOf(p, cs))
    ensures WeightedSum(WeightedOf(Filter(p, cs))) == WeightedSum(ShareOf(p, cs))
  {
    if cs != [] {
      var rest := cs[1..];
      FilteredTotals(p, rest);
      assert ShareOf(p, cs)[1..] == ShareOf(p, rest);
      if p(cs[0]) {
        assert Filter(p, cs) == [cs[0]] + Filter(p, rest);
        assert WeightedOf(Filter(p, cs))[1..] == WeightedOf(Filter(p, rest));
      } else {
        TimesZero(cs[0].score);
        assert Filter(p, cs) == Filter(p, rest);
      }
    }
  }

  lemma FilteredMean(p: Component -> bool, cs: seq<Component>)
    ensures Mean(WeightedOf(Filter(p, cs))) == Mean(ShareOf(p, cs))
  {
    FilteredTotals(p, cs);
  }
}
