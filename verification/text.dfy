/** Composite string keys. The source builds identities by joining fields with
    a colon; these lemmas say when such a key determines its fields. */
module Text {
  import opened Collections

  function Decimal(n: nat): string {
    if n < 10 then [DigitChar(n)] else Decimal(n / 10) + [DigitChar(n % 10)]
  }

  function DigitChar(d: nat): char
    requires d < 10
  {
    "0123456789"[d]
  }

  function DigitValue(c: char): nat {
    if '0' <= c <= '9' then (c - '0') as nat else 0
  }

  function DecimalValue(s: string): nat {
    if s == [] then 0 else DecimalValue(s[..|s| - 1]) * 10 + DigitValue(s[|s| - 1])
  }

  lemma DigitRoundTrip(d: nat)
    requires d < 10
    ensures DigitValue(DigitChar(d)) == d && DigitChar(d) != ':'
  {
    assert d == 0 || d == 1 || d == 2 || d == 3 || d == 4 || d == 5 || d == 6 || d == 7 || d == 8 || d == 9;
  }

  lemma {:induction false} DecimalRoundTrip(n: nat)
    ensures DecimalValue(Decimal(n)) == n
    ensures ':' !in Decimal(n)
  {
    if n < 10 {
      DigitRoundTrip(n);
      assert Decimal(n)[..0] == [];
    } else {
      DecimalRoundTrip(n / 10);
      DigitRoundTrip(n % 10);
      assert Decimal(n)[..|Decimal(n)| - 1] == Decimal(n / 10);
    }
  }

  /** Joining with a colon is decodable from the right as long as the last
      field contains no colon. */
  lemma {:induction false} SplitAtLastColon(a: string, x: string, b: string, y: string)
    requires a + ":" + x == b + ":" + y
    requires ':' !in x && ':' !in y
    ensures a == b && x == y
  {
    var s := a + ":" + x;
    assert s[|a|] == ':' && s[|b|] == ':';
    assert forall i :: |a| < i < |s| ==> s[i] == x[i - |a| - 1];
    assert forall i :: |b| < i < |s| ==> s[i] == y[i - |b| - 1];
    assert |a| == |b|;
    assert a == s[..|a|] && b == s[..|b|];
    assert x == s[|a| + 1..] && y == s[|b| + 1..];
  }

  /** ... and from the left as long as the first field contains no colon. */
  lemma {:induction false} SplitAtFirstColon(a: string, x: string, b: string, y: string)
    requires a + ":" + x == b + ":" + y
    requires ':' !in a && ':' !in b
    ensures a == b && x == y
  {
    var s := a + ":" + x;
    assert s[|a|] == ':' && s[|b|] == ':';
    assert forall i :: 0 <= i < |a| ==> s[i] == a[i];
    assert forall i :: 0 <= i < |b| ==> s[i] == b[i];
    assert |a| == |b|;
    assert a == s[..|a|] && b == s[..|b|];
    assert x == s[|a| + 1..] && y == s[|b| + 1..];
  }

  /** `p` and `q` continue to one key, each by at least one character. */
  predicate Meet(p: string, s: string, q: string, t: string) {
    s != "" && t != "" && p + s == q + t
  }

  lemma PrefixCancels(p: string, s: string, t: string)
    ensures p + s == p + t ==> s == t
  {
    assert (p + s)[|p|..] == s && (p + t)[|p|..] == t;
  }

  /** Two prefixes can be continued to one key exactly when one starts the other. */
  lemma PrefixesMeetIffOneStartsTheOther(p: string, q: string)
    ensures (exists s, t :: Meet(p, s, q, t)) <==> p <= q || q <= p
  {
    if s, t :| Meet(p, s, q, t) {
      var key := p + s;
      assert key[..|p|] == p && key[..|q|] == q;
      assert |p| <= |q| ==> q[..|p|] == p;
      assert |q| <= |p| ==> p[..|q|] == q;
    }
    if p <= q {
      assert Meet(p, q[|p|..] + "x", q, "x");
    } else if q <= p {
      assert Meet(p, "x", q, p[|q|..] + "x");
    }
  }

  // Sorted lists of strings ------------------------------------------------------------

  /** The order `Array.sort` uses: by characters, a prefix first. */
  predicate Less(a: string, b: string) {
    b != [] && (a == [] || a[0] < b[0] || (a[0] == b[0] && Less(a[1..], b[1..])))
  }

  /** The two strings first differ at `k`, where `a` has the smaller character. */
  predicate SmallerAt(a: string, b: string, k: nat) {
    k < |a| && k < |b| && a[..k] == b[..k] && a[k] < b[k]
  }

  lemma SameHead(a: string, b: string, k: nat)
    requires SmallerAt(a, b, k) && k > 0
    ensures a[0] == b[0]
  {
    assert a[..k][0] == b[..k][0];
  }

  lemma {:induction false} LessMeaning(a: string, b: string)
    ensures Less(a, b) <==> a < b || exists k :: SmallerAt(a, b, k)
  {
    forall k: nat | SmallerAt(a, b, k) && k > 0
      ensures a[0] == b[0]
    {
      SameHead(a, b, k);
    }
    if a != [] && b != [] && a[0] == b[0] {
      var (x, y) := (a[1..], b[1..]);
      LessMeaning(x, y);
      assert a == [a[0]] + x && b == [b[0]] + y;
      if k: nat :| SmallerAt(x, y, k) {
        assert a[..k + 1] == [a[0]] + x[..k] && b[..k + 1] == [b[0]] + y[..k];
        assert SmallerAt(a, b, k + 1);
      }
      if k: nat :| SmallerAt(a, b, k) {
        assert x[..k - 1] == a[..k][1..] && y[..k - 1] == b[..k][1..];
        assert SmallerAt(x, y, k - 1);
      }
    } else if a != [] && b != [] {
      assert a[0] < b[0] ==> SmallerAt(a, b, 0);
    }
  }

  lemma {:induction false} LessIsTotal(a: string, b: string)
    ensures a == b || Less(a, b) || Less(b, a)
    ensures !(Less(a, b) && Less(b, a)) && (a == b ==> !Less(a, b))
  {
    if a != [] && b != [] {
      LessIsTotal(a[1..], b[1..]);
      assert a == [a[0]] + a[1..] && b == [b[0]] + b[1..];
    }
  }

  lemma {:induction false} LessIsTransitive(a: string, b: string, c: string)
    requires Less(a, b) && Less(b, c)
    ensures Less(a, c)
  {
    if a != [] && a[0] == b[0] == c[0] {
      LessIsTransitive(a[1..], b[1..], c[1..]);
    }
  }

  ghost predicate Ascending(s: seq<string>) {
    forall i, j :: 0 <= i < j < |s| ==> Less(s[i], s[j])
  }

  function Insert(x: string, s: seq<string>): seq<string> {
    if s == [] || Less(x, s[0]) then [x] + s
    else if x == s[0] then s
    else [s[0]] + Insert(x, s[1..])
  }

  /** `[...new Set(values)].sort()` */
  function SortedUnique(values: seq<string>): seq<string> {
    if values == [] then [] else Insert(values[0], SortedUnique(values[1..]))
  }

  lemma {:induction false} InsertMembers(x: string, s: seq<string>)
    ensures forall y :: y in Insert(x, s) <==> y == x || y in s
  {
    if s != [] && !Less(x, s[0]) && x != s[0] {
      InsertMembers(x, s[1..]);
      assert forall y :: y in s <==> y == s[0] || y in s[1..];
    }
  }

  lemma {:induction false} InsertAscends(x: string, s: seq<string>)
    requires Ascending(s)
    ensures Ascending(Insert(x, s))
  {
    if s != [] {
      LessIsTotal(x, s[0]);
      if Less(x, s[0]) {
        forall j | 1 <= j < |s|
          ensures Less(x, s[j])
        {
          LessIsTransitive(x, s[0], s[j]);
        }
      } else if x != s[0] {
        var rest := Insert(x, s[1..]);
        assert Ascending(s[1..]);
        InsertAscends(x, s[1..]);
        InsertMembers(x, s[1..]);
        forall j | 0 <= j < |rest|
          ensures Less(s[0], rest[j])
        {
          assert rest[j] in rest;
          if rest[j] != x {
            var i :| 0 <= i < |s[1..]| && s[1..][i] == rest[j];
            assert s[i + 1] == rest[j];
          }
        }
      }
    }
  }

  /** The result lists each value once, in ascending order. */
  lemma {:induction false} SortedUniqueMeaning(values: seq<string>)
    ensures Ascending(SortedUnique(values))
    ensures forall y :: y in SortedUnique(values) <==> y in values
  {
    if values != [] {
      SortedUniqueMeaning(values[1..]);
      InsertAscends(values[0], SortedUnique(values[1..]));
      InsertMembers(values[0], SortedUnique(values[1..]));
      assert forall y :: y in values <==> y == values[0] || y in values[1..];
    }
  }

  lemma AscendingIsDistinct(s: seq<string>)
    requires Ascending(s)
    ensures Distinct(s)
  {
    forall i, j | 0 <= i < j < |s|
      ensures s[i] != s[j]
    {
      LessIsTotal(s[i], s[j]);
    }
  }
}
