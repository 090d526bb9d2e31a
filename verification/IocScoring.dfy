/**
 modules/ioc_correlation.py:21-78,144-169: the threat score of a cluster of indicators, over exact
 numbers.
 */
module IocScoring {
  import opened Prelude
  import Text

  /** `adversary` is the vetted actor name, empty when there is none. */
  datatype Ioc = Ioc(
    id: string,
    kind: string,
    value: string,
    malware: Option<string>,
    adversary: string,
    threatScore: Option<real>,
    confidence: Option<real>)

  function Weight(kind: string): (w: real)
    ensures 0.70 <= w <= 1.00
  {
    match kind
    case "hash_sha256" => 1.00
    case "hash_sha512" => 1.00
    case "hash_sha1" => 0.95
    case "hash_md5" => 0.90
    case "cve" => 1.00
    case "ip" => 0.90
    case "domain" => 0.85
    case "url" => 0.88
    case "cidr" => 0.82
    case "mutex" => 0.80
    case "yara" => 0.90
    case "email" => 0.75
    case _ => 0.70
  }

  const HIGH_RISK_ACTORS: set<string> :=
    {"apt28", "apt29", "apt41", "lazarus group", "cobalt group", "fin7", "lockbit", "conti", "blackcat", "alphv"}

  function Rating(ioc: Ioc): real {
    if ioc.threatScore.Some? then ioc.threatScore.value
    else if ioc.confidence.Some? then ioc.confidence.value
    else 70.0
  }

  function Min(a: real, b: real): real {
    if a <= b then a else b
  }

  function Weighted(ioc: Ioc): real {
    Rating(ioc) * Weight(ioc.kind)
  }

  function WeightedSum(iocs: seq<Ioc>): real {
    if iocs == [] then 0.0
    else
      WeightedSum(iocs[..|iocs| - 1]) + Weighted(iocs[|iocs| - 1])
  }

  function WeightTotal(iocs: seq<Ioc>): (w: real)
    ensures w >= 0.0 && (iocs != [] ==> w > 0.0)
  {
    if iocs == [] then 0.0 else WeightTotal(iocs[..|iocs| - 1]) + Weight(iocs[|iocs| - 1].kind)
  }

  function Kinds(iocs: seq<Ioc>): set<string> {
    set i | i in iocs :: i.kind
  }

  function Base(iocs: seq<Ioc>): real {
    if iocs == [] then 0.0 else WeightedSum(iocs) / WeightTotal(iocs)
  }

  function ActorBonus(adversary: string): real {
    if adversary == "" then 0.0 else if Text.Lower(adversary) in HIGH_RISK_ACTORS then 8.0 else 4.0
  }

  function Bonuses(kinds: nat, count: nat, adversary: string): real {
    Min(10.0, (kinds - 1) as real * 3.0) + ActorBonus(adversary) + Min(8.0, (count - 1) as real * 1.5)
  }

  function Score(iocs: seq<Ioc>, adversary: string): real {
    if iocs == [] then 0.0 else Min(100.0, Base(iocs) + Bonuses(|Kinds(iocs)|, |iocs|, adversary))
  }

  method ComputeScore(iocs: seq<Ioc>, adversary: string) returns (score: real)
    ensures score == Score(iocs, adversary)
  {
    if iocs == [] {
      return 0.0;
    }
    var weightedSum, weightTotal := 0.0, 0.0;
    var kinds := set i | i in iocs :: i.kind;
    for k := 0 to |iocs|
      invariant weightedSum == WeightedSum(iocs[..k]) && weightTotal == WeightTotal(iocs[..k])
    {
      assert iocs[..k + 1][..k] == iocs[..k];
      var w := Weight(iocs[k].kind);
      weightedSum, weightTotal := weightedSum + Rating(iocs[k]) * w, weightTotal + w;
    }
    assert iocs[..|iocs|] == iocs;
    score := Min(100.0, weightedSum / weightTotal + Bonuses(|kinds|, |iocs|, adversary));
  }

  // ----- Bounds -----

  lemma TimesKeepsOrder(a: real, b: real, w: real)
    requires a <= b && w >= 0.0
    ensures a * w <= b * w
  {
    assert (b - a) * w >= 0.0;
  }

  lemma {:induction false} SumBetween(iocs: seq<Ioc>, lo: real, hi: real)
    requires forall i | i in iocs :: lo <= Rating(i) <= hi
    ensures lo * WeightTotal(iocs) <= WeightedSum(iocs) <= hi * WeightTotal(iocs)
  {
    hide Rating, Weight, Weighted;
    if iocs == [] {
      Distribute(lo, 0.0, 0.0);
      Distribute(hi, 0.0, 0.0);
    } else {
      var init, last := iocs[..|iocs| - 1], iocs[|iocs| - 1];
      SumBetween(init, lo, hi);
      WeightedBetween(last, lo, hi);
      Distribute(lo, WeightTotal(init), Weight(last.kind));
      Distribute(hi, WeightTotal(init), Weight(last.kind));
    }
  }

  lemma WeightedBetween(ioc: Ioc, lo: real, hi: real)
    requires lo <= Rating(ioc) <= hi
    ensures lo * Weight(ioc.kind) <= Weighted(ioc) <= hi * Weight(ioc.kind)
  {
    hide Rating, Weight;
    TimesKeepsOrder(lo, Rating(ioc), Weight(ioc.kind));
    TimesKeepsOrder(Rating(ioc), hi, Weight(ioc.kind));
  }

  lemma Distribute(x: real, a: real, b: real)
    ensures x * (a + b) == x * a + x * b
  {
  }

  lemma QuotientBetween(s: real, w: real, lo: real, hi: real)
    requires w > 0.0 && lo * w <= s <= hi * w
    ensures lo <= s / w <= hi
  {
    var q := s / w;
    assert q * w == s;
    assert q < lo ==> (lo - q) * w > 0.0;
    assert q > hi ==> (q - hi) * w > 0.0;
  }

  /** The weighted base lies between the least and the greatest rating. */
  lemma BaseBetween(iocs: seq<Ioc>, lo: real, hi: real)
    requires iocs != [] && forall i | i in iocs :: lo <= Rating(i) <= hi
    ensures lo <= Base(iocs) <= hi
  {
    hide Rating, WeightedSum, WeightTotal;
    SumBetween(iocs, lo, hi);
    QuotientBetween(WeightedSum(iocs), WeightTotal(iocs), lo, hi);
  }

  lemma KindsCount(iocs: seq<Ioc>)
    requires iocs != []
    ensures |Kinds(iocs)| >= 1
  {
    assert iocs[0].kind in Kinds(iocs);
  }

  /** No score lies below the least rating (capped at 100), and none more than 26 above the greatest. */
  lemma ScoreBetween(iocs: seq<Ioc>, adversary: string, lo: real, hi: real)
    requires iocs != [] && forall i | i in iocs :: lo <= Rating(i) <= hi
    ensures Min(100.0, lo) <= Score(iocs, adversary) <= Min(100.0, hi + 26.0)
  {
    hide Base, Kinds;
    BaseBetween(iocs, lo, hi);
    KindsCount(iocs);
  }

  lemma ScoreInRange(iocs: seq<Ioc>, adversary: string)
    requires forall i | i in iocs :: Rating(i) >= 0.0
    ensures 0.0 <= Score(iocs, adversary) <= 100.0
  {
    if iocs != [] {
      var hi := Greatest(iocs);
      ScoreBetween(iocs, adversary, 0.0, hi);
    }
  }

  lemma {:induction false} Greatest(iocs: seq<Ioc>) returns (hi: real)
    ensures forall i | i in iocs :: Rating(i) <= hi
  {
    hi := 0.0;
    if iocs != [] {
      var before := Greatest(iocs[..|iocs| - 1]);
      var last := iocs[|iocs| - 1];
      hi := if before <= Rating(last) then Rating(last) else before;
      assert iocs == iocs[..|iocs| - 1] + [last];
    }
  }

  // ----- How the score reacts to its inputs -----

  /** Rating members higher never lowers the cluster's score. */
  lemma ScoreIsMonotone(a: seq<Ioc>, b: seq<Ioc>, adversary: string)
    requires |a| == |b| && forall k | 0 <= k < |a| :: a[k].kind == b[k].kind && Rating(a[k]) <= Rating(b[k])
    ensures Score(a, adversary) <= Score(b, adversary)
  {
    if a != [] {
      hide Rating, WeightedSum, WeightTotal, Kinds, ActorBonus;
      SumIsMonotone(a, b);
      QuotientIsMonotone(WeightedSum(a), WeightedSum(b), WeightTotal(a));
      SameKinds(a, b);
    }
  }

  lemma QuotientIsMonotone(s: real, t: real, w: real)
    requires w > 0.0 && s <= t
    ensures s / w <= t / w
  {
    var q, r := s / w, t / w;
    assert q * w == s && r * w == t;
    assert q > r ==> (q - r) * w > 0.0;
  }

  lemma SameKinds(a: seq<Ioc>, b: seq<Ioc>)
    requires |a| == |b| && forall k | 0 <= k < |a| :: a[k].kind == b[k].kind
    ensures Kinds(a) == Kinds(b)
  {
    assert forall k | 0 <= k < |a| :: a[k] in a && b[k] in b;
  }

  lemma {:induction false} SumIsMonotone(a: seq<Ioc>, b: seq<Ioc>)
    requires |a| == |b| && forall k | 0 <= k < |a| :: a[k].kind == b[k].kind && Rating(a[k]) <= Rating(b[k])
    ensures WeightTotal(a) == WeightTotal(b) && WeightedSum(a) <= WeightedSum(b)
  {
    if a != [] {
      hide Rating, Weight;
      var n := |a| - 1;
      SumIsMonotone(a[..n], b[..n]);
      TimesKeepsOrder(Rating(a[n]), Rating(b[n]), Weight(a[n].kind));
    }
  }

  lemma SumsAppend(s: seq<Ioc>, last: Ioc)
    ensures WeightedSum(s + [last]) == WeightedSum(s) + Weighted(last)
    ensures WeightTotal(s + [last]) == WeightTotal(s) + Weight(last.kind)
  {
    assert (s + [last])[..|s|] == s;
  }

  function Without(s: seq<Ioc>, k: nat): seq<Ioc>
    requires k < |s|
  {
    s[..k] + s[k + 1..]
  }

  lemma WithoutCounts(s: seq<Ioc>, k: nat)
    requires k < |s|
    ensures multiset(s) == multiset(Without(s, k)) + multiset{s[k]}
  {
    assert s == s[..k] + [s[k]] + s[k + 1..];
  }

  lemma {:induction false} SumsWithout(s: seq<Ioc>, k: nat)
    requires k < |s|
    ensures WeightedSum(s) == WeightedSum(Without(s, k)) + Weighted(s[k])
    ensures WeightTotal(s) == WeightTotal(Without(s, k)) + Weight(s[k].kind)
  {
    hide Weight, Weighted, WeightedSum, WeightTotal;
    var n := |s| - 1;
    var init := s[..n];
    SumsAppend(init, s[n]);
    assert s == init + [s[n]];
    if k < n {
      SumsWithout(init, k);
      SumsAppend(Without(init, k), s[n]);
      assert Without(s, k) == Without(init, k) + [s[n]];
    } else {
      assert Without(s, k) == init;
    }
  }

  lemma {:induction false} SumsOfPermutation(a: seq<Ioc>, b: seq<Ioc>)
    requires multiset(a) == multiset(b)
    ensures WeightedSum(a) == WeightedSum(b) && WeightTotal(a) == WeightTotal(b) && |a| == |b|
    decreases multiset(a)
  {
    hide WeightedSum, WeightTotal, Weight, Weighted;
    if a == [] {
      assert |multiset(b)| == 0 && b == a;
    } else {
      var n := |a| - 1;
      assert a[n] in multiset(b);
      var k :| 0 <= k < |b| && b[k] == a[n];
      SumsWithout(a, n);
      SumsWithout(b, k);
      WithoutCounts(a, n);
      WithoutCounts(b, k);
      hide Without;
      assert multiset(Without(a, n)) == multiset(a) - multiset{a[n]};
      assert multiset(Without(b, k)) == multiset(b) - multiset{a[n]};
      SumsOfPermutation(Without(a, n), Without(b, k));
    }
  }

  /** The order in which a cluster's members arrived does not matter. */
  lemma ScoreOfPermutation(a: seq<Ioc>, b: seq<Ioc>, adversary: string)
    requires multiset(a) == multiset(b)
    ensures Score(a, adversary) == Score(b, adversary)
  {
    SumsOfPermutation(a, b);
    assert Kinds(a) == Kinds(b) by {
      assert forall i :: i in a <==> i in multiset(a);
      assert forall i :: i in b <==> i in multiset(b);
    }
  }

  /** Which of several attributed actors is picked moves the score by at most four points. */
  lemma ActorPickMovesLittle(iocs: seq<Ioc>, one: string, other: string)
    requires one != "" && other != ""
    ensures -4.0 <= Score(iocs, one) - Score(iocs, other) <= 4.0
  {
  }

  /** A known high-risk actor never scores below another one, nor any actor below none. */
  lemma HighRiskScoresMost(iocs: seq<Ioc>, risky: string, other: string)
    requires Text.Lower(risky) in HIGH_RISK_ACTORS && risky != ""
    ensures Score(iocs, risky) >= Score(iocs, other) >= Score(iocs, "")
  {
    hide Base, Kinds;
  }

  /** Below the cap: eight points for a high-risk actor, four for any other. */
  lemma ActorPoints(iocs: seq<Ioc>, actor: string)
    requires iocs != [] && actor != "" && Score(iocs, actor) < 100.0
    ensures Score(iocs, actor) - Score(iocs, "") == if Text.Lower(actor) in HIGH_RISK_ACTORS then 8.0 else 4.0
  {
    hide Base, Kinds;
  }

  /** The bonuses grow by three points for each further kind up to ten, and by one and a half for each further member up to eight. */
  lemma BonusSteps(kinds: nat, count: nat, adversary: string)
    requires kinds >= 1 && count >= 1
    ensures Bonuses(1, 1, "") == 0.0
    ensures Bonuses(kinds + 1, count, adversary) - Bonuses(kinds, count, adversary)
         == if kinds <= 3 then 3.0 else if kinds == 4 then 1.0 else 0.0
    ensures Bonuses(kinds, count + 1, adversary) - Bonuses(kinds, count, adversary)
         == if count <= 5 then 1.5 else if count == 6 then 0.5 else 0.0
  {
  }

  /** A single indicator without an actor scores what it is rated, up to 100; a second one of the same kind moves the base to their mean. */
  lemma SmallClusters(a: Ioc, b: Ioc)
    requires a.kind == b.kind
    ensures Score([a], "") == Min(100.0, Rating(a))
    ensures Score([a, b], "") == Min(100.0, (Rating(a) + Rating(b)) / 2.0 + 1.5)
  {
    hide Weight, Rating, Weighted;
    SumsAppend([], a);
    SumsAppend([a], b);
    assert [] + [a] == [a] && [a] + [b] == [a, b];
    assert Kinds([a]) == {a.kind} && Kinds([a, b]) == {a.kind};
    BonusSteps(1, 1, "");
    PairOfWeights(a, b);
  }

  lemma PairOfWeights(a: Ioc, b: Ioc)
    requires a.kind == b.kind
    ensures Weighted(a) / Weight(a.kind) == Rating(a)
    ensures (Weighted(a) + Weighted(b)) / (Weight(a.kind) + Weight(b.kind)) == (Rating(a) + Rating(b)) / 2.0
  {
    hide Weight, Rating;
    var w, mean := Weight(a.kind), (Rating(a) + Rating(b)) / 2.0;
    Cancel(Rating(a), w);
    Cancel(mean, w + w);
    Distribute(mean, w, w);
    assert mean * w + mean * w == Weighted(a) + Weighted(b) by {
      Distribute(w, Rating(a), Rating(b));
    }
  }

  lemma Cancel(x: real, w: real)
    requires w > 0.0
    ensures x * w / w == x
  {
  }

  /** The more reliable the kind, the more it weighs; kinds not in the table weigh as little as a file path. */
  lemma WeightsRank()
    ensures Weight("hash_sha256") == Weight("hash_sha512") == Weight("cve") == 1.0
    ensures Weight("cve") > Weight("hash_sha1") > Weight("hash_md5") == Weight("ip") == Weight("yara") > Weight("url")
    ensures Weight("url") > Weight("domain") > Weight("cidr") > Weight("mutex") > Weight("email") > Weight("filepath")
    ensures Weight("filepath") == Weight("hostname") == 0.7
  {
  }

  /** An indicator is rated by its threat score, without one by its confidence, without either 70; and no indicators score nothing. */
  lemma RatingPrefers(ioc: Ioc, score: real, confidence: Option<real>)
    ensures Rating(ioc.(threatScore := Some(score), confidence := confidence)) == score
    ensures Rating(ioc.(threatScore := None, confidence := Some(score))) == score
    ensures Rating(ioc.(threatScore := None, confidence := None)) == 70.0
    ensures forall actor :: Score([], actor) == 0.0
  {
  }

  // ----- Rounding and bands -----

  function RoundHalfEven(y: real): (n: int)
    ensures -0.5 <= n as real - y <= 0.5
    ensures n as real - y == 0.5 || n as real - y == -0.5 ==> n % 2 == 0
  {
    var f := y.Floor;
    var d := y - f as real;
    if d < 0.5 || (d == 0.5 && f % 2 == 0) then f else f + 1
  }

  /** Python's `round(x, 1)`. */
  function Round1(x: real): real {
    RoundHalfEven(x * 10.0) as real / 10.0
  }

  function Severity(score: real): string {
    if score >= 90.0 then "CRITICAL"
    else if score >= 70.0 then "HIGH"
    else if score >= 50.0 then "MEDIUM"
    else if score >= 30.0 then "LOW"
    else "INFORMATIONAL"
  }

  /** Each band from its threshold up to the next. */
  lemma BandsMean(score: real)
    ensures Severity(score) == "CRITICAL" <==> 90.0 <= score
    ensures Severity(score) == "HIGH" <==> 70.0 <= score < 90.0
    ensures Severity(score) == "MEDIUM" <==> 50.0 <= score < 70.0
    ensures Severity(score) == "LOW" <==> 30.0 <= score < 50.0
    ensures Severity(score) == "INFORMATIONAL" <==> score < 30.0
  {
  }

  lemma RoundingIsMonotone(x: real, y: real)
    requires x <= y
    ensures RoundHalfEven(x) <= RoundHalfEven(y)
  {
    hide RoundHalfEven;
  }

  /** Rounding changes a score by at most half a tenth and never swaps two scores. */
  lemma ShownScore(x: real, y: real)
    requires x <= y
    ensures -0.05 <= Round1(x) - x <= 0.05 && Round1(x) <= Round1(y)
  {
    RoundingIsMonotone(x * 10.0, y * 10.0);
    hide RoundHalfEven;
  }

  /** Scores are shown as `t` or more exactly from half a tenth below `t`, for an even number of tenths. */
  lemma ShownFrom(x: real, t: int)
    ensures Round1(x) >= t as real <==> x >= t as real - 0.05
  {
    RoundsUpTo(x * 10.0, 5 * t);
    var n := RoundHalfEven(x * 10.0);
    hide RoundHalfEven;
    assert n >= 10 * t <==> n as real / 10.0 >= t as real;
  }

  lemma RoundsUpTo(y: real, k: int)
    ensures RoundHalfEven(y) >= 2 * k <==> y >= (2 * k) as real - 0.5
  {
    var n := RoundHalfEven(y);
    hide RoundHalfEven;
    if n < 2 * k {
      assert n as real <= (2 * k - 1) as real;
      assert n == 2 * k - 1 ==> n % 2 == 1;
    } else {
      assert n as real >= (2 * k) as real;
    }
  }

  predicate JustBelow(score: real, band: real) {
    band - 0.05 <= score < band
  }

  /** The band is taken before rounding: it fits the shown score exactly outside the half tenths below the bands. */
  lemma SeverityFitsShownScoreIff(score: real)
    ensures Severity(Round1(score)) == Severity(score)
       <==> !JustBelow(score, 90.0) && !JustBelow(score, 70.0) && !JustBelow(score, 50.0) && !JustBelow(score, 30.0)
  {
    ShownFrom(score, 30);
    ShownFrom(score, 50);
    ShownFrom(score, 70);
    ShownFrom(score, 90);
    hide Round1;
  }
}
