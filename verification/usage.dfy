/** Memory usage of one domain as a whole percentage of its balloon, and the
    thresholds that classify it. */
module Usage {
  import opened Machine
  import opened DomainStats

  /** The usage categories. Only COLD and HOT carry a threshold; WARM, the
      band between them, is the desired state. */
  datatype Category = Cold | Hot | Warm

  /** The threshold table: at or below 25 percent is COLD, at or above 80
      percent is HOT. */
  function Threshold(c: Category): nat
    requires c != Warm
  {
    match c
    case Cold => 25
    case Hot => 80
  }

  /** The category a usage percentage falls in. The thresholds are unsigned,
      so the comparison is only meaningful for a non-negative percentage,
      which is all `UsagePercentage` and the host percentage produce. */
  function Classify(pct: nat): (c: Category)
    ensures c == Cold <==> pct <= Threshold(Cold)
    ensures c == Hot <==> pct >= Threshold(Hot)
    ensures c == Warm <==> Threshold(Cold) < pct < Threshold(Hot)
  {
    if pct <= Threshold(Cold) then Cold
    else if pct >= Threshold(Hot) then Hot
    else Warm
  }

  /** The percentage computation has a defined result: either there are no
      valid entries, or both the balloon size and the unused size are present,
      the balloon is non-zero (no division by zero) and the quotient fits the
      `int` it is converted to. */
  predicate UsageDefined(n: int, stats: seq<Stat>)
    requires n <= |stats|
  {
    n == 0 ||
    (&& FindStat(n, stats, ACTUAL_BALLOON).Some?
     && FindStat(n, stats, UNUSED).Some?
     && StatValue(n, stats, ACTUAL_BALLOON) > 0
     && FitsInt(SubU64(StatValue(n, stats, ACTUAL_BALLOON), StatValue(n, stats, UNUSED)),
                StatValue(n, stats, ACTUAL_BALLOON)))
  }

  /** Used memory as a share of the balloon, rounded down to a whole percent;
      0 when the sample has no valid entries. Used memory is the balloon size
      minus the unused size in `unsigned long long`, so a domain reporting
      more unused memory than balloon reads as at least 100 percent. */
  function UsagePercentage(n: int, stats: seq<Stat>): (r: int)
    requires n <= |stats| && UsageDefined(n, stats)
    ensures n == 0 ==> r == 0
    ensures 0 <= r <= INT_MAX
    ensures n != 0 ==>
              var b, u := StatValue(n, stats, ACTUAL_BALLOON), StatValue(n, stats, UNUSED);
              && (u <= b ==> r <= 100)
              && (u > b ==> r >= 100)
  {
    if n == 0 then 0
    else
      var balloon := StatValue(n, stats, ACTUAL_BALLOON);
      Percent(SubU64(balloon, StatValue(n, stats, UNUSED)), balloon)
  }

  /** With no more unused memory than balloon, the usage is the used share
      of the balloon rounded down to a whole percent. */
  lemma UsageIsFloor(n: int, stats: seq<Stat>)
    requires 0 < n <= |stats| && UsageDefined(n, stats)
    requires StatValue(n, stats, UNUSED) <= StatValue(n, stats, ACTUAL_BALLOON)
    ensures var r, b, u := UsagePercentage(n, stats), StatValue(n, stats, ACTUAL_BALLOON), StatValue(n, stats, UNUSED);
            r * b <= (b - u) * 100 < (r + 1) * b
  {
    var b, u := StatValue(n, stats, ACTUAL_BALLOON), StatValue(n, stats, UNUSED);
    PercentIsFloor(SubU64(b, u), b);
  }

  /** With both figures present, a non-zero balloon and no more unused memory
      than balloon, the percentage is always defined. */
  lemma ConsistentStatsDefineUsage(n: int, stats: seq<Stat>)
    requires 0 < n <= |stats|
    requires FindStat(n, stats, ACTUAL_BALLOON).Some? && FindStat(n, stats, UNUSED).Some?
    requires 0 < StatValue(n, stats, ACTUAL_BALLOON)
    requires StatValue(n, stats, UNUSED) <= StatValue(n, stats, ACTUAL_BALLOON)
    ensures UsageDefined(n, stats)
    ensures 0 <= UsagePercentage(n, stats) <= 100
  {
  }
}
