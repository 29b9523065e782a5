/** Sequence helpers shared by the models: distinctness, membership sets,
    filtering and summation. */
module Collections {
  datatype Option<+T> = None | Some(value: T)

  ghost predicate Distinct<T>(s: seq<T>) {
    forall i, j :: 0 <= i < j < |s| ==> s[i] != s[j]
  }

  function Elements<T(==)>(s: seq<T>): set<T> {
    set x | x in s
  }

  function Filter<T>(p: T -> bool, s: seq<T>): seq<T> {
    if s == [] then [] else (if p(s[0]) then [s[0]] else []) + Filter(p, s[1..])
  }

  lemma {:induction false} FilterMembers<T(!new)>(p: T -> bool, s: seq<T>)
    ensures forall x :: x in Filter(p, s) <==> x in s && p(x)
  {
    if s != [] {
      FilterMembers(p, s[1..]);
      assert forall x :: x in s <==> x == s[0] || x in s[1..];
    }
  }

  lemma {:induction false} ElementsSize<T>(s: seq<T>)
    ensures |Elements(s)| <= |s|
  {
    if s != [] {
      ElementsSize(s[1..]);
      assert Elements(s) == {s[0]} + Elements(s[1..]);
    }
  }

  /** The idiom `new Set(values).size === values.length` decides distinctness. */
  lemma {:induction false} SetSizeDecidesDistinct<T>(s: seq<T>)
    ensures |Elements(s)| == |s| <==> Distinct(s)
  {
    if s != [] {
      var rest := s[1..];
      SetSizeDecidesDistinct(rest);
      ElementsSize(rest);
      assert Elements(s) == {s[0]} + Elements(rest);
      if s[0] in rest {
        assert Elements(s) == Elements(rest);
        var j :| 0 <= j < |rest| && rest[j] == s[0];
        assert s[0] == s[j + 1];
      } else {
        assert |Elements(s)| == 1 + |Elements(rest)|;
        if Distinct(rest) {
          assert forall i, j :: 0 <= i < j < |s| && i > 0 ==> s[i] == rest[i - 1] && s[j] == rest[j - 1];
        }
        if Distinct(s) {
          assert forall i, j :: 0 <= i < j < |rest| ==> rest[i] == s[i + 1] && rest[j] == s[j + 1];
        }
      }
    }
  }

  ghost predicate TwoSatisfy<T>(p: T -> bool, s: seq<T>) {
    exists i, j :: 0 <= i < j < |s| && p(s[i]) && p(s[j])
  }

  lemma TwoSatisfyCons<T(!new)>(p: T -> bool, s: seq<T>)
    requires s != []
    ensures TwoSatisfy(p, s) <==> TwoSatisfy(p, s[1..]) || (p(s[0]) && exists x :: x in s[1..] && p(x))
  {
    var rest := s[1..];
    if TwoSatisfy(p, s) {
      var i, j :| 0 <= i < j < |s| && p(s[i]) && p(s[j]);
      assert rest[j - 1] == s[j];
      if i > 0 {
        assert p(rest[i - 1]) && p(rest[j - 1]);
      }
    }
    if TwoSatisfy(p, rest) {
      var i, j :| 0 <= i < j < |rest| && p(rest[i]) && p(rest[j]);
      assert p(s[i + 1]) && p(s[j + 1]);
    }
    if p(s[0]) && exists x :: x in rest && p(x) {
      var j :| 0 <= j < |rest| && p(rest[j]);
      assert p(s[0]) && p(s[j + 1]);
    }
  }

  /** `filter(p).length >= 2` finds two different positions. */
  lemma {:induction false} FilterCountsTwo<T(!new)>(p: T -> bool, s: seq<T>)
    ensures |Filter(p, s)| >= 2 <==> TwoSatisfy(p, s)
  {
    if s != [] {
      var rest := s[1..];
      FilterCountsTwo(p, rest);
      TwoSatisfyCons(p, s);
      FilterMembers(p, rest);
      if exists x :: x in rest && p(x) {
        var x :| x in rest && p(x);
        assert x in Filter(p, rest);
      }
      if Filter(p, rest) != [] {
        assert Filter(p, rest)[0] in Filter(p, rest);
      }
    }
  }

  lemma {:induction false} FilterConcat<T>(p: T -> bool, a: seq<T>, b: seq<T>)
    ensures Filter(p, a + b) == Filter(p, a) + Filter(p, b)
  {
    if a == [] {
      assert a + b == b;
    } else {
      var s, head := a + b, if p(a[0]) then [a[0]] else [];
      FilterConcat(p, a[1..], b);
      assert s[1..] == a[1..] + b;
      assert Filter(p, s) == head + (Filter(p, a[1..]) + Filter(p, b));
      assert Filter(p, a) == head + Filter(p, a[1..]);
    }
  }

  lemma {:induction false} FilterSame<T>(p: T -> bool, q: T -> bool, s: seq<T>)
    requires forall i :: 0 <= i < |s| ==> p(s[i]) == q(s[i])
    ensures Filter(p, s) == Filter(q, s)
  {
    if s != [] {
      assert forall i :: 0 <= i < |s[1..]| ==> s[1..][i] == s[i + 1];
      FilterSame(p, q, s[1..]);
    }
  }

  lemma {:induction false} FilterTwice<T>(p: T -> bool, q: T -> bool, both: T -> bool, s: seq<T>)
    requires forall i :: 0 <= i < |s| ==> both(s[i]) == (p(s[i]) && q(s[i]))
    ensures Filter(p, Filter(q, s)) == Filter(both, s)
  {
    if s != [] {
      var rest := s[1..];
      assert forall i :: 0 <= i < |rest| ==> rest[i] == s[i + 1];
      FilterTwice(p, q, both, rest);
      if q(s[0]) {
        assert Filter(q, s)[0] == s[0] && Filter(q, s)[1..] == Filter(q, rest);
      } else {
        assert Filter(q, s) == Filter(q, rest);
      }
    }
  }

  /** The places with the property. */
  ghost function Where<T(!new)>(p: T -> bool, s: seq<T>): set<nat> {
    set i: nat | i < |s| && p(s[i])
  }

  lemma WhereExtends<T(!new)>(p: T -> bool, s: seq<T>, last: T)
    ensures Where(p, s + [last]) == Where(p, s) + (if p(last) then {|s|} else {})
    ensures |Where(p, s + [last])| == |Where(p, s)| + if p(last) then 1 else 0
  {
    assert forall i :: 0 <= i < |s| ==> (s + [last])[i] == s[i];
    assert |s| !in Where(p, s);
  }

  /** A filter keeps as many elements as there are places with the property. */
  lemma {:induction false} FilterCount<T(!new)>(p: T -> bool, s: seq<T>)
    ensures |Filter(p, s)| == |Where(p, s)|
  {
    if s != [] {
      var front, last := s[..|s| - 1], s[|s| - 1];
      assert s == front + [last];
      FilterCount(p, front);
      FilterConcat(p, front, [last]);
      WhereExtends(p, front, last);
    }
  }

  /** In order, all the places with the property. */
  ghost predicate Picks<T(!new)>(p: T -> bool, s: seq<T>, picks: seq<nat>) {
    && (forall k :: 0 <= k < |picks| ==> picks[k] < |s| && p(s[picks[k]]))
    && (forall j, k :: 0 <= j < k < |picks| ==> picks[j] < picks[k])
    && (forall i: nat :: i < |s| && p(s[i]) ==> i in picks)
  }

  lemma PicksExtend<T(!new)>(p: T -> bool, s: seq<T>, last: T, before: seq<nat>)
    requires Picks(p, s, before)
    ensures Picks(p, s + [last], before + if p(last) then [|s|] else [])
  {
    var all, picks := s + [last], before + if p(last) then [|s|] else [];
    forall i: nat | i < |all| && p(all[i])
      ensures i in picks
    {
      if i < |s| {
        assert p(s[i]) && i in before;
      } else {
        assert picks[|before|] == i;
      }
    }
  }

  /** A filter keeps the elements at these places, in order. */
  lemma {:induction false} FilterPicks<T(!new)>(p: T -> bool, s: seq<T>) returns (picks: seq<nat>)
    ensures Picks(p, s, picks) && |Filter(p, s)| == |picks|
    ensures forall k :: 0 <= k < |picks| ==> Filter(p, s)[k] == s[picks[k]]
  {
    picks := [];
    if s != [] {
      var front, last := s[..|s| - 1], s[|s| - 1];
      assert s == front + [last];
      var before := FilterPicks(p, front);
      FilterConcat(p, front, [last]);
      PicksExtend(p, front, last, before);
      picks := before + if p(last) then [|front|] else [];
    }
  }

  /** The first index from `from` on with the property, as `Array.find` looks for it. */
  function First(p: nat -> bool, from: nat, n: nat): (found: Option<nat>)
    requires from <= n
    ensures found.Some? ==> from <= found.value < n && p(found.value) && forall i :: from <= i < found.value ==> !p(i)
    ensures found.None? ==> forall i :: from <= i < n ==> !p(i)
    decreases n - from
  {
    if from == n then None
    else if p(from) then Some(from)
    else First(p, from + 1, n)
  }
}
