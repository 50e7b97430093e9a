/** Choosing the anomaly threshold: a scan over finitely many candidates that is claimed to
    optimise over every real threshold. */
module Threshold {
  import opened Wilson

  /** One validation window: whether it is anomalous, and its score. */
  datatype Window = Window(anomalous: bool, score: real)

  /** How many windows of one kind a threshold flags. */
  function Flagged(ws: seq<Window>, anomalous: bool, t: real): nat {
    if ws == [] then 0
    else (if ws[0].anomalous == anomalous && ws[0].score >= t then 1 else 0) + Flagged(ws[1..], anomalous, t)
  }

  function Total(ws: seq<Window>, anomalous: bool): nat {
    if ws == [] then 0
    else (if ws[0].anomalous == anomalous then 1 else 0) + Total(ws[1..], anomalous)
  }

  function Tp(ws: seq<Window>, t: real): nat { Flagged(ws, true, t) }
  function Fp(ws: seq<Window>, t: real): nat { Flagged(ws, false, t) }

  function Ratio(a: nat, b: nat): real {
    if b == 0 then 0.0 else a as real / b as real
  }

  function Recall(ws: seq<Window>, t: real): real { Ratio(Tp(ws, t), Total(ws, true)) }
  function F1(ws: seq<Window>, t: real): real { Ratio(2 * Tp(ws, t), Total(ws, true) + Tp(ws, t) + Fp(ws, t)) }
  function Fpr(ws: seq<Window>, t: real): real { Ratio(Fp(ws, t), Total(ws, false)) }

  function Precision(ws: seq<Window>, t: real): real { Ratio(Tp(ws, t), Tp(ws, t) + Fp(ws, t)) }

  // ---------------------------------------------------------------- what the metrics are

  /** The windows of one kind from position `k` on with at least this score. */
  ghost function Positions(ws: seq<Window>, anomalous: bool, t: real, k: nat): set<int> {
    set i | k <= i < |ws| && ws[i].anomalous == anomalous && ws[i].score >= t
  }

  lemma {:induction false} CountFrom(ws: seq<Window>, anomalous: bool, t: real, k: nat)
    requires k <= |ws|
    ensures Flagged(ws[k..], anomalous, t) == |Positions(ws, anomalous, t, k)|
    decreases |ws| - k
  {
    var here := Positions(ws, anomalous, t, k);
    if k == |ws| {
      assert here == {};
    } else {
      var rest := Positions(ws, anomalous, t, k + 1);
      CountFrom(ws, anomalous, t, k + 1);
      assert ws[k..][0] == ws[k] && ws[k..][1..] == ws[k + 1..];
      if ws[k].anomalous == anomalous && ws[k].score >= t {
        assert here == rest + {k};
      } else {
        assert here == rest;
      }
    }
  }

  /** Flagging counts exactly the windows of the kind whose score reaches the threshold. */
  lemma FlaggedIsCount(ws: seq<Window>, anomalous: bool, t: real)
    ensures Flagged(ws, anomalous, t) == |set i | 0 <= i < |ws| && ws[i].anomalous == anomalous && ws[i].score >= t|
  {
    CountFrom(ws, anomalous, t, 0);
    assert ws[0..] == ws;
    assert Positions(ws, anomalous, t, 0) == set i | 0 <= i < |ws| && ws[i].anomalous == anomalous && ws[i].score >= t;
  }

  /** The total is what the lowest threshold flags. */
  lemma {:induction false} TotalIsFlagged(ws: seq<Window>, anomalous: bool, t: real)
    requires forall i :: 0 <= i < |ws| ==> t <= ws[i].score
    ensures Total(ws, anomalous) == Flagged(ws, anomalous, t)
  {
    if ws == [] {
    } else {
      forall i | 0 <= i < |ws[1..]| ensures t <= ws[1..][i].score { assert ws[1..][i] == ws[i + 1]; }
      TotalIsFlagged(ws[1..], anomalous, t);
      assert t <= ws[0].score;
    }
  }

  /** Recall is the flagged share of the anomalous windows, and 0 where there are none ... */
  lemma RecallIs(ws: seq<Window>, t: real)
    ensures if Total(ws, true) == 0 then Recall(ws, t) == 0.0
            else Total(ws, true) as real * Recall(ws, t) == Tp(ws, t) as real
  {
    RatioIs(Tp(ws, t), Total(ws, true));
  }

  /** ... and the false-positive rate the flagged share of the normal ones. */
  lemma FprIs(ws: seq<Window>, t: real)
    ensures if Total(ws, false) == 0 then Fpr(ws, t) == 0.0
            else Total(ws, false) as real * Fpr(ws, t) == Fp(ws, t) as real
  {
    RatioIs(Fp(ws, t), Total(ws, false));
  }

  lemma RatioIs(a: nat, b: nat)
    ensures if b == 0 then Ratio(a, b) == 0.0 else b as real * Ratio(a, b) == a as real
  {
    if b > 0 { Cancel(a as real, b as real); }
  }

  /** F1 is the harmonic mean of precision and recall, and 0 when nothing anomalous is flagged. */
  lemma F1IsHarmonic(ws: seq<Window>, t: real)
    ensures Tp(ws, t) == 0 ==> F1(ws, t) == 0.0
    ensures F1(ws, t) * (Precision(ws, t) + Recall(ws, t)) == 2.0 * (Precision(ws, t) * Recall(ws, t))
  {
    var a, b, c := Tp(ws, t) as real, Fp(ws, t) as real, Total(ws, true) as real;
    FlaggedAtMostTotal(ws, true, t);
    if Tp(ws, t) == 0 {
      NoHits(ws, t);
    } else {
      Harmonic(a, a + b, c, a / (a + b), a / c, 2.0 * a / (c + a + b));
    }
  }

  lemma NoHits(ws: seq<Window>, t: real)
    requires Tp(ws, t) == 0
    ensures F1(ws, t) == 0.0 && Precision(ws, t) == 0.0 && Recall(ws, t) == 0.0
  {}

  lemma Harmonic(a: real, flagged: real, total: real, p: real, r: real, f: real)
    requires a > 0.0 && flagged > 0.0 && total > 0.0
    requires p == a / flagged && r == a / total && f == 2.0 * a / (total + flagged)
    ensures f * (p + r) == 2.0 * (p * r)
  {
    Cancel(a, flagged);
    Cancel(a, total);
    Cancel(2.0 * a, total + flagged);
    HarmonicProducts(a, flagged, total, p, r, f);
  }

  lemma HarmonicProducts(a: real, x: real, y: real, p: real, r: real, f: real)
    requires a > 0.0 && x > 0.0 && y > 0.0 && x * p == a && y * r == a && (y + x) * f == 2.0 * a
    ensures f * (p + r) == 2.0 * (p * r)
  {
    var xy := x * y;
    NamedProductPositive(x, y, xy);
    assert xy * (p + r) == a * (x + y) by { assert xy * p == y * a; assert xy * r == x * a; }
    assert xy * (f * (p + r)) == a * ((y + x) * f);
    assert xy * (p * r) == a * a;
    SameProduct(xy, f * (p + r), 2.0 * (p * r), 2.0 * (a * a));
  }

  // ---------------------------------------------------------------- the constraint

  /** `u` is the upper end of the 95% interval at `k` of `n`. */
  ghost predicate IsUpper(k: nat, n: nat, u: real)
    requires n > 0
  {
    exists s :: s >= 0.0 && s * s == Discriminant(k, n, Z) && u == Interval(k, n, Z, s).1
  }

  /** `upper[k]` is the upper end of the interval at `k` false positives among `n` normal windows. */
  ghost predicate UpperTable(n: nat, upper: seq<real>) {
    n > 0 ==> |upper| == n + 1 && forall k {:trigger IsUpper(k, n, upper[k])} :: 0 <= k <= n ==> IsUpper(k, n, upper[k])
  }

  lemma {:induction false} FlaggedAtMostTotal(ws: seq<Window>, anomalous: bool, t: real)
    ensures Flagged(ws, anomalous, t) <= Total(ws, anomalous)
  {
    if ws == [] {
    } else {
      FlaggedAtMostTotal(ws[1..], anomalous, t);
    }
  }

  /** The upper end of the 95% interval of the false-positive rate; `(0, 0)` is the interval of no
      windows at all. */
  function UpperFpr(ws: seq<Window>, upper: seq<real>, t: real): real
    requires Tabulated(ws, upper)
  {
    FlaggedAtMostTotal(ws, false, t);
    if Total(ws, false) == 0 then Interval(0, 0, Z, 0.0).1 else upper[Fp(ws, t)]
  }

  /** There is an entry for every possible count of false positives. */
  predicate Tabulated(ws: seq<Window>, upper: seq<real>) {
    Total(ws, false) > 0 ==> |upper| == Total(ws, false) + 1
  }

  predicate Eligible(ws: seq<Window>, upper: seq<real>, t: real)
    requires Tabulated(ws, upper)
  {
    UpperFpr(ws, upper, t) <= LIMIT
  }

  // ---------------------------------------------------------------- the keys being compared

  datatype Key = Key(a: real, b: real, c: real, d: real)

  predicate LexLe(x: Key, y: Key) {
    x.a < y.a || (x.a == y.a && (x.b < y.b || (x.b == y.b && (x.c < y.c || (x.c == y.c && x.d <= y.d)))))
  }

  /** A total order: of two keys one comes first, and only equal keys come both ways. */
  lemma LexIsTotal(x: Key, y: Key)
    ensures LexLe(x, y) || LexLe(y, x)
    ensures LexLe(x, y) && LexLe(y, x) ==> x == y
    ensures x.a < y.a ==> !LexLe(y, x)
    ensures x.a == y.a && x.b < y.b ==> !LexLe(y, x)
    ensures x.a == y.a && x.b == y.b && x.c < y.c ==> !LexLe(y, x)
  {}

  /** The key of an eligible threshold. */
  function EligibleKey(ws: seq<Window>, t: real): Key {
    Key(Recall(ws, t), F1(ws, t), -Fpr(ws, t), -t)
  }

  /** The key used when no threshold is eligible. */
  function FallbackKey(ws: seq<Window>, upper: seq<real>, t: real): Key
    requires Tabulated(ws, upper)
  {
    Key(-UpperFpr(ws, upper, t), Recall(ws, t), F1(ws, t), t)
  }

  /** Python's `max` over tuples. */
  function MaxKey(keys: seq<Key>): (m: Key)
    requires keys != []
    ensures m in keys && forall k :: k in keys ==> LexLe(k, m)
  {
    if |keys| == 1 then keys[0]
    else
      var rest := MaxKey(keys[1..]);
      assert forall k :: k in keys ==> k == keys[0] || k in keys[1..];
      if LexLe(rest, keys[0]) then keys[0] else rest
  }

  // ---------------------------------------------------------------- candidates

  function Insert(s: seq<real>, x: real): seq<real> {
    if s == [] || x < s[0] then [x] + s
    else if x == s[0] then s
    else [s[0]] + Insert(s[1..], x)
  }

  /** The sorted distinct scores. */
  function Unique(ws: seq<Window>): seq<real> {
    if ws == [] then [] else Insert(Unique(ws[1..]), ws[0].score)
  }

  ghost predicate Ascending(s: seq<real>) {
    forall i, j :: 0 <= i < j < |s| ==> s[i] < s[j]
  }

  lemma {:induction false} InsertContents(s: seq<real>, x: real)
    requires Ascending(s)
    ensures Ascending(Insert(s, x))
    ensures forall y :: y in Insert(s, x) <==> y == x || y in s
  {
    if s == [] || x <= s[0] {
      if s == [] || x < s[0] {
        forall y | y in s ensures x < y { var i :| 0 <= i < |s| && s[i] == y; }
        ConsAscending(x, s);
      }
    } else {
      InsertContents(s[1..], x);
      var tail := Insert(s[1..], x);
      forall y | y in tail ensures s[0] < y {
        if y != x { var i :| 0 <= i < |s[1..]| && s[1..][i] == y; assert s[i + 1] == y; }
      }
      ConsAscending(s[0], tail);
      assert s == [s[0]] + s[1..];
    }
  }

  lemma ConsAscending(h: real, tail: seq<real>)
    requires Ascending(tail) && forall y :: y in tail ==> h < y
    ensures Ascending([h] + tail)
  {
    var s := [h] + tail;
    forall i, j | 0 <= i < j < |s| ensures s[i] < s[j] {
      if i == 0 { assert s[j] in tail; } else { assert tail[i - 1] < tail[j - 1]; }
    }
  }

  lemma {:induction false} UniqueContents(ws: seq<Window>)
    ensures Ascending(Unique(ws))
    ensures forall y :: y in Unique(ws) <==> exists i :: 0 <= i < |ws| && ws[i].score == y
  {
    if ws == [] {
    } else {
      UniqueContents(ws[1..]);
      InsertContents(Unique(ws[1..]), ws[0].score);
      forall y ensures y in Unique(ws) <==> exists i :: 0 <= i < |ws| && ws[i].score == y {
        if y in Unique(ws[1..]) {
          var i :| 0 <= i < |ws[1..]| && ws[1..][i].score == y;
          assert ws[i + 1].score == y;
        }
        if i :| 0 <= i < |ws| && ws[i].score == y {
          if i > 0 { assert ws[1..][i - 1].score == y; }
        }
      }
    }
  }

  ghost predicate Above(ws: seq<Window>, above: real) {
    forall i :: 0 <= i < |ws| ==> ws[i].score < above
  }

  function Candidates(ws: seq<Window>, above: real): seq<real> {
    Unique(ws) + [above]
  }

  // ---------------------------------------------------------------- the scan

  /** What the scan delivers: a candidate that is maximal among the eligible ones if there are any,
      and otherwise maximal under the fallback key among all of them. */
  ghost predicate Chosen(ws: seq<Window>, above: real, upper: seq<real>, t: real)
    requires Tabulated(ws, upper)
  {
    var cs := Candidates(ws, above);
    && t in cs
    && ((exists c :: c in cs && Eligible(ws, upper, c)) ==>
          && Eligible(ws, upper, t)
          && forall c :: c in cs && Eligible(ws, upper, c) ==> LexLe(EligibleKey(ws, c), EligibleKey(ws, t)))
    && ((forall c :: c in cs ==> !Eligible(ws, upper, c)) ==>
          forall c :: c in cs ==> LexLe(FallbackKey(ws, upper, c), FallbackKey(ws, upper, t)))
  }

  /** One fallback key for each candidate. */
  function AllKeys(ws: seq<Window>, upper: seq<real>, cs: seq<real>): seq<Key>
    requires Tabulated(ws, upper)
  {
    if cs == [] then [] else var n := |cs| - 1; AllKeys(ws, upper, cs[..n]) + [FallbackKey(ws, upper, cs[n])]
  }

  /** One key for each eligible candidate. */
  function EligibleKeys(ws: seq<Window>, upper: seq<real>, cs: seq<real>): seq<Key>
    requires Tabulated(ws, upper)
  {
    if cs == [] then []
    else
      var n := |cs| - 1;
      var before := EligibleKeys(ws, upper, cs[..n]);
      if Eligible(ws, upper, cs[n]) then before + [EligibleKey(ws, cs[n])] else before
  }

  lemma {:induction false} HasKeys(ws: seq<Window>, upper: seq<real>, cs: seq<real>, c: real)
    requires Tabulated(ws, upper) && c in cs
    ensures FallbackKey(ws, upper, c) in AllKeys(ws, upper, cs)
    ensures Eligible(ws, upper, c) ==> EligibleKey(ws, c) in EligibleKeys(ws, upper, cs)
  {
    var n := |cs| - 1;
    assert cs == cs[..n] + [cs[n]];
    if c != cs[n] { HasKeys(ws, upper, cs[..n], c); }
  }

  lemma {:induction false} FallbackOwner(ws: seq<Window>, upper: seq<real>, cs: seq<real>, k: Key) returns (c: real)
    requires Tabulated(ws, upper) && k in AllKeys(ws, upper, cs)
    ensures c in cs && k == FallbackKey(ws, upper, c)
  {
    var n := |cs| - 1;
    if k == FallbackKey(ws, upper, cs[n]) { c := cs[n]; } else { c := FallbackOwner(ws, upper, cs[..n], k); }
  }

  lemma {:induction false} EligibleOwner(ws: seq<Window>, upper: seq<real>, cs: seq<real>, k: Key) returns (c: real)
    requires Tabulated(ws, upper) && k in EligibleKeys(ws, upper, cs)
    ensures c in cs && Eligible(ws, upper, c) && k == EligibleKey(ws, c)
  {
    var n := |cs| - 1;
    if Eligible(ws, upper, cs[n]) && k == EligibleKey(ws, cs[n]) { c := cs[n]; }
    else { c := EligibleOwner(ws, upper, cs[..n], k); }
  }

  /** The last component of the largest key gives the chosen threshold back. */
  lemma BestEligible(ws: seq<Window>, above: real, upper: seq<real>)
    requires Tabulated(ws, upper) && EligibleKeys(ws, upper, Candidates(ws, above)) != []
    ensures Chosen(ws, above, upper, -MaxKey(EligibleKeys(ws, upper, Candidates(ws, above))).d)
  {
    var cs := Candidates(ws, above);
    var best := MaxKey(EligibleKeys(ws, upper, cs));
    var t := EligibleOwner(ws, upper, cs, best);
    forall c | c in cs && Eligible(ws, upper, c) ensures LexLe(EligibleKey(ws, c), best) {
      HasKeys(ws, upper, cs, c);
    }
  }

  lemma BestFallback(ws: seq<Window>, above: real, upper: seq<real>)
    requires Tabulated(ws, upper) && EligibleKeys(ws, upper, Candidates(ws, above)) == []
    ensures AllKeys(ws, upper, Candidates(ws, above)) != []
    ensures Chosen(ws, above, upper, MaxKey(AllKeys(ws, upper, Candidates(ws, above))).d)
  {
    var cs := Candidates(ws, above);
    assert AllKeys(ws, upper, cs) != [];
    var best := MaxKey(AllKeys(ws, upper, cs));
    var t := FallbackOwner(ws, upper, cs, best);
    forall c | c in cs ensures !Eligible(ws, upper, c) && LexLe(FallbackKey(ws, upper, c), best) {
      HasKeys(ws, upper, cs, c);
    }
  }

  /** Judge each candidate in turn. */
  method CollectKeys(ws: seq<Window>, upper: seq<real>, candidates: seq<real>)
    returns (all: seq<Key>, eligible: seq<Key>)
    requires Tabulated(ws, upper)
    ensures all == AllKeys(ws, upper, candidates) && eligible == EligibleKeys(ws, upper, candidates)
  {
    all, eligible := [], [];
    for i := 0 to |candidates|
      invariant all == AllKeys(ws, upper, candidates[..i])
      invariant eligible == EligibleKeys(ws, upper, candidates[..i])
    {
      assert candidates[..i + 1][..i] == candidates[..i];
      all := all + [FallbackKey(ws, upper, candidates[i])];
      if Eligible(ws, upper, candidates[i]) { eligible := eligible + [EligibleKey(ws, candidates[i])]; }
    }
    assert candidates[..|candidates|] == candidates;
  }

  /** The scan: the best eligible candidate, or the best of all when none is eligible. */
  method ChooseAnomalyThreshold(ws: seq<Window>, above: real, upper: seq<real>) returns (t: real)
    requires ws != [] && Above(ws, above) && UpperTable(Total(ws, false), upper)
    ensures Chosen(ws, above, upper, t)
  {
    var all, eligible := CollectKeys(ws, upper, Candidates(ws, above));
    if eligible != [] {
      BestEligible(ws, above, upper);
      t := -MaxKey(eligible).d;
    } else {
      BestFallback(ws, above, upper);
      t := MaxKey(all).d;
    }
  }

  // ---------------------------------------------------------------- from candidates to the continuum

  lemma {:induction false} SameFlags(ws: seq<Window>, anomalous: bool, t: real, u: real)
    requires forall i :: 0 <= i < |ws| ==> (ws[i].score >= t <==> ws[i].score >= u)
    ensures Flagged(ws, anomalous, t) == Flagged(ws, anomalous, u)
  {
    if ws == [] {
    } else {
      assert ws[0].score >= t <==> ws[0].score >= u;
      forall i | 0 <= i < |ws[1..]| ensures ws[1..][i].score >= t <==> ws[1..][i].score >= u {
        assert ws[1..][i] == ws[i + 1];
      }
      SameFlags(ws[1..], anomalous, t, u);
    }
  }

  lemma {:induction false} LeastFrom(s: seq<real>, u: real) returns (c: real)
    requires exists y :: y in s && u <= y
    ensures c in s && u <= c && forall y :: y in s && u <= y ==> c <= y
  {
    if |s| == 1 || !(exists y :: y in s[1..] && u <= y) {
      c := s[0];
      assert forall y :: y in s ==> y == s[0] || y in s[1..];
    } else {
      c := LeastFrom(s[1..], u);
      if u <= s[0] < c { c := s[0]; }
      assert forall y :: y in s ==> y == s[0] || y in s[1..];
    }
  }

  /** Every real threshold flags exactly what some candidate flags. */
  lemma CandidateFor(ws: seq<Window>, above: real, u: real) returns (c: real)
    requires Above(ws, above)
    ensures c in Candidates(ws, above) && Tp(ws, c) == Tp(ws, u) && Fp(ws, c) == Fp(ws, u)
  {
    var cs := Candidates(ws, above);
    UniqueContents(ws);
    assert above in cs by { assert cs[|cs| - 1] == above; }
    if u <= above {
      c := LeastFrom(cs, u);
      forall i | 0 <= i < |ws| ensures ws[i].score >= c <==> ws[i].score >= u {
        assert ws[i].score in Unique(ws) && ws[i].score in cs;
      }
    } else {
      c := above;
    }
    SameFlags(ws, true, c, u);
    SameFlags(ws, false, c, u);
  }

  /** Optimality over all reals. If any real threshold is eligible, the chosen one is, and no
      eligible real threshold has higher recall, nor equal recall and higher F1, nor equal recall
      and F1 and a lower false-positive rate. */
  lemma {:induction false} OptimalOverReals(ws: seq<Window>, above: real, upper: seq<real>, t: real, u: real)
    requires Above(ws, above) && UpperTable(Total(ws, false), upper) && Chosen(ws, above, upper, t)
    requires Eligible(ws, upper, u)
    ensures Eligible(ws, upper, t)
    ensures Recall(ws, u) <= Recall(ws, t)
    ensures Recall(ws, u) == Recall(ws, t) ==> F1(ws, u) <= F1(ws, t)
    ensures Recall(ws, u) == Recall(ws, t) && F1(ws, u) == F1(ws, t) ==> Fpr(ws, u) >= Fpr(ws, t)
  {
    var c := CandidateFor(ws, above, u);
    assert Eligible(ws, upper, c);
    assert LexLe(EligibleKey(ws, c), EligibleKey(ws, t));
  }

  // ---------------------------------------------------------------- when anything is eligible

  lemma {:induction false} FlagsShrink(ws: seq<Window>, anomalous: bool, t: real, u: real)
    requires t <= u
    ensures Flagged(ws, anomalous, u) <= Flagged(ws, anomalous, t)
  {
    if ws == [] {
    } else {
      FlagsShrink(ws[1..], anomalous, t, u);
    }
  }

  lemma TableOrder(n: nat, upper: seq<real>, i: nat, j: nat)
    requires n > 0 && UpperTable(n, upper) && i <= n && j <= n
    ensures i <= j <==> upper[i] <= upper[j]
  {
    assert IsUpper(i, n, upper[i]) && IsUpper(j, n, upper[j]);
    var s :| s >= 0.0 && s * s == Discriminant(i, n, Z) && upper[i] == Interval(i, n, Z, s).1;
    var s' :| s' >= 0.0 && s' * s' == Discriminant(j, n, Z) && upper[j] == Interval(j, n, Z, s').1;
    if i < j { UpperStrict(i, j, n, Z, s, s'); }
    if j < i { UpperStrict(j, i, n, Z, s', s); }
  }

  lemma UpperOrder(ws: seq<Window>, upper: seq<real>, t: real, u: real)
    requires UpperTable(Total(ws, false), upper) && Total(ws, false) > 0
    ensures Fp(ws, t) <= Fp(ws, u) <==> UpperFpr(ws, upper, t) <= UpperFpr(ws, upper, u)
  {
    FlaggedAtMostTotal(ws, false, t);
    FlaggedAtMostTotal(ws, false, u);
    TableOrder(Total(ws, false), upper, Fp(ws, t), Fp(ws, u));
  }

  /** Eligible thresholds are upward closed. */
  lemma EligibleUpward(ws: seq<Window>, upper: seq<real>, t: real, u: real)
    requires UpperTable(Total(ws, false), upper) && Eligible(ws, upper, t) && t <= u
    ensures Eligible(ws, upper, u)
  {
    FlagsShrink(ws, false, t, u);
    if Total(ws, false) > 0 { UpperOrder(ws, upper, u, t); }
  }

  lemma {:induction false} NothingAbove(ws: seq<Window>, anomalous: bool, above: real)
    requires Above(ws, above)
    ensures Flagged(ws, anomalous, above) == 0
  {
    if ws == [] {
    } else {
      assert ws[0].score < above;
      forall i | 0 <= i < |ws[1..]| ensures ws[1..][i].score < above { assert ws[1..][i] == ws[i + 1]; }
      NothingAbove(ws[1..], anomalous, above);
    }
  }

  /** The limit test of one entry, on the counts alone. */
  lemma EntryIff(n: nat, upper: seq<real>, k: nat, x: real, t: real, c: real)
    requires n > 0 && UpperTable(n, upper) && k <= n && x > 0.0 && t == n as real && c == k as real
    ensures upper[k] <= x <==> CountsAbove(c, t, Z * Z, x)
  {
    assert IsUpper(k, n, upper[k]);
    var s :| s >= 0.0 && s * s == Discriminant(k, n, Z) && upper[k] == Interval(k, n, Z, s).1;
    UpperIff(k, n, Z, s, x, t, c, Z * Z);
  }

  /** One false positive meets the limit exactly from 110 normal windows on. */
  lemma OneEntry(n: nat, upper: seq<real>)
    requires n > 0 && UpperTable(n, upper)
    ensures upper[1] <= LIMIT <==> n >= 110
  {
    var t := n as real;
    EntryIff(n, upper, 1, LIMIT, t, 1.0);
    LevelAt(t, 1.0, (t * LIMIT - 1.0) * (t * LIMIT - 1.0));
    OneQuadratic(n, t);
  }

  lemma CleanEntry(n: nat, upper: seq<real>)
    requires n > 0 && UpperTable(n, upper)
    ensures upper[0] <= LIMIT <==> n >= 73
  {
    assert IsUpper(0, n, upper[0]);
    var s :| s >= 0.0 && s * s == Discriminant(0, n, Z) && upper[0] == Interval(0, n, Z, s).1;
    CleanMeetsLimitIff(n, s);
  }

  /** Some threshold is eligible exactly when there is no normal window or there are at least 73. */
  lemma {:induction false} EligibleExistsIff(ws: seq<Window>, above: real, upper: seq<real>)
    requires Above(ws, above) && UpperTable(Total(ws, false), upper)
    ensures (exists u: real :: Eligible(ws, upper, u)) <==> Total(ws, false) == 0 || Total(ws, false) >= 73
  {
    var n := Total(ws, false);
    NothingAbove(ws, false, above);
    if n == 0 {
      FlaggedAtMostTotal(ws, false, above);
      assert Eligible(ws, upper, above);
    } else {
      CleanEntry(n, upper);
      if u: real :| Eligible(ws, upper, u) {
        UpperOrder(ws, upper, above, u);
      }
      assert UpperFpr(ws, upper, above) <= LIMIT <==> Eligible(ws, upper, above);
    }
  }

  /** With too few normal windows the chosen threshold raises no false alarm on them at all, and
      has the best recall any real threshold has without one. */
  lemma {:induction false} FallbackIsSilent(ws: seq<Window>, above: real, upper: seq<real>, t: real, u: real)
    requires Above(ws, above) && UpperTable(Total(ws, false), upper) && Chosen(ws, above, upper, t)
    requires 0 < Total(ws, false) < 73
    ensures Fp(ws, t) == 0
    ensures Fp(ws, u) == 0 ==> Recall(ws, u) <= Recall(ws, t)
  {
    EligibleExistsIff(ws, above, upper);
    var cs := Candidates(ws, above);
    assert forall c :: c in cs ==> !Eligible(ws, upper, c);
    assert above in cs by { assert cs[|cs| - 1] == above; }
    NothingAbove(ws, false, above);
    assert LexLe(FallbackKey(ws, upper, above), FallbackKey(ws, upper, t));
    UpperOrder(ws, upper, t, above);
    if Fp(ws, u) == 0 {
      var c := CandidateFor(ws, above, u);
      UpperOrder(ws, upper, c, t);
      UpperOrder(ws, upper, t, c);
      assert LexLe(FallbackKey(ws, upper, c), FallbackKey(ws, upper, t));
    }
  }

  // ---------------------------------------------------------------- ties

  lemma {:induction false} DropsAScore(ws: seq<Window>, i: nat, t: real, u: real)
    requires i < |ws| && t <= ws[i].score < u
    ensures Tp(ws, u) + Fp(ws, u) < Tp(ws, t) + Fp(ws, t)
  {
    if i == 0 {
      FlagsShrink(ws[1..], true, t, u);
      FlagsShrink(ws[1..], false, t, u);
    } else {
      assert ws[1..][i - 1] == ws[i];
      DropsAScore(ws[1..], i - 1, t, u);
    }
  }

  lemma RatioInjective(a: nat, b: nat, d: nat)
    requires d > 0 && Ratio(a, d) == Ratio(b, d)
    ensures a == b
  {
    Cancel(a as real, d as real);
    Cancel(b as real, d as real);
  }

  lemma {:induction false} SomeKind(ws: seq<Window>)
    ensures Total(ws, true) + Total(ws, false) == |ws|
  {
    if ws == [] {
    } else {
      SomeKind(ws[1..]);
    }
  }

  /** Different candidates differ in recall or in false-positive rate, so the final tie-break on the
      threshold itself never decides. */
  lemma CandidatesNeverTie(ws: seq<Window>, above: real, c: real, d: real)
    requires Above(ws, above) && c in Candidates(ws, above) && d in Candidates(ws, above) && c < d
    ensures Recall(ws, c) != Recall(ws, d) || Fpr(ws, c) != Fpr(ws, d)
  {
    UniqueContents(ws);
    assert forall y :: y in Unique(ws) ==> y < above;
    assert c in Unique(ws);
    var i :| 0 <= i < |ws| && ws[i].score == c;
    DropsAScore(ws, i, c, d);
    SomeKind(ws);
    FlaggedAtMostTotal(ws, true, c);
    FlaggedAtMostTotal(ws, false, c);
    if Recall(ws, c) == Recall(ws, d) && Fpr(ws, c) == Fpr(ws, d) {
      if Total(ws, true) > 0 { RatioInjective(Tp(ws, c), Tp(ws, d), Total(ws, true)); }
      if Total(ws, false) > 0 { RatioInjective(Fp(ws, c), Fp(ws, d), Total(ws, false)); }
      FlaggedAtMostTotal(ws, true, d);
      FlaggedAtMostTotal(ws, false, d);
    }
  }
}
