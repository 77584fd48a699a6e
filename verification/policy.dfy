/** The ballooning policy run once per cycle: an emergency pass that halves
    every domain when the host's own memory is under pressure, then a
    hysteresis pass that doubles or halves a domain whose usage was HOT or
    COLD in both of its last two samples. The outcome is the ordered list of
    set-memory requests the cycle issues; a request's success never changes
    what is requested next. */
module Policy {
  import opened Machine
  import opened Options
  import opened DomainStats
  import opened Totals
  import opened HostStats
  import opened Usage

  datatype Action = Grow | Shrink | Hold

  /** A set-memory request: the domain's index and its new balloon size. */
  datatype Request = Request(domain: nat, size: U64)

  /** The hysteresis rule on the current and previous usage: grow when both
      are HOT, otherwise shrink when both are COLD, otherwise hold. */
  function Decide(curr: nat, prev: nat): (a: Action)
    ensures a == Grow <==> Classify(curr) == Hot && Classify(prev) == Hot
    ensures a == Shrink <==> Classify(curr) == Cold && Classify(prev) == Cold
    ensures a == Hold <==> !(Classify(curr) == Classify(prev) == Hot) && !(Classify(curr) == Classify(prev) == Cold)
  {
    if curr >= Threshold(Hot) && prev >= Threshold(Hot) then Grow
    else if curr <= Threshold(Cold) && prev <= Threshold(Cold) then Shrink
    else Hold
  }

  /** Everything the cycle reads from one domain is present and defined: a
      balloon entry in the current sample, and a usage percentage for both
      samples. */
  predicate DomainDefined(w: Window) {
    && w.Valid()
    && FindStat(w.nCurr, w.curr, ACTUAL_BALLOON).Some?
    && UsageDefined(w.nCurr, w.curr)
    && UsageDefined(w.nPrev, w.prev)
  }

  predicate AllDefined(ws: seq<Window>) {
    forall i :: 0 <= i < |ws| ==> DomainDefined(ws[i])
  }

  /** The balloon size in the current sample: the one snapshot both passes use. */
  function Balloon(w: Window): U64
    requires DomainDefined(w)
  {
    StatValue(w.nCurr, w.curr, ACTUAL_BALLOON)
  }

  function CurrUsage(w: Window): nat
    requires DomainDefined(w)
  {
    UsagePercentage(w.nCurr, w.curr)
  }

  function PrevUsage(w: Window): nat
    requires DomainDefined(w)
  {
    UsagePercentage(w.nPrev, w.prev)
  }

  function DomainAction(w: Window): Action
    requires DomainDefined(w)
  {
    Decide(CurrUsage(w), PrevUsage(w))
  }

  /** The size an action asks for, given the balloon size `b`: double it (in
      `unsigned long long`, so the top bit is lost) to grow, half of it
      rounded down to shrink, nothing to hold. */
  function ResizeFor(a: Action, b: U64): (r: Option<U64>)
    ensures r.Some? <==> a != Hold
    ensures a == Grow && 2 * b < TWO_64 ==> r == Some(2 * b)
    ensures a == Grow && 2 * b >= TWO_64 ==> r == Some(2 * b - TWO_64)
    ensures a == Shrink ==> r.Some? && 2 * r.value <= b <= 2 * r.value + 1
  {
    match a
    case Grow => Some(Shl1(b))
    case Shrink => Some(Shr1(b))
    case Hold => None
  }

  /** The new size the hysteresis pass requests for a domain, if any: double
      the balloon to grow, half of it to shrink. */
  function Resize(w: Window): (r: Option<U64>)
    requires DomainDefined(w)
    ensures r.Some? <==> DomainAction(w) != Hold
    ensures DomainAction(w) == Grow && 2 * Balloon(w) < TWO_64 ==> r == Some(2 * Balloon(w))
    ensures DomainAction(w) == Grow && 2 * Balloon(w) >= TWO_64 ==> r == Some(2 * Balloon(w) - TWO_64)
    ensures DomainAction(w) == Shrink ==> r.Some? && 2 * r.value <= Balloon(w) <= 2 * r.value + 1
  {
    ResizeFor(DomainAction(w), Balloon(w))
  }

  // ---------------------------------------------------------------- host

  /** Physical memory not given to any domain's balloon. */
  function NonDomainMemory(ws: seq<Window>, h: HostMemory): U64
    requires AllValid(ws)
  {
    SubU64(h.total, DomainBalloonTotal(ws))
  }

  /** Memory in use by the host itself: all used memory minus what the
      domains use of their balloons. */
  function HostOnlyUsage(ws: seq<Window>, h: HostMemory): U64
    requires AllValid(ws)
  {
    SubU64(SubU64(h.total, h.free), SubU64(DomainBalloonTotal(ws), DomainFreeTotal(ws)))
  }

  /** The host percentage has a defined result: no division by zero and a
      quotient that fits an `int`. */
  predicate HostUsageDefined(ws: seq<Window>, h: HostMemory)
    requires AllValid(ws)
  {
    NonDomainMemory(ws, h) > 0 && FitsInt(HostOnlyUsage(ws, h), NonDomainMemory(ws, h))
  }

  /** The figures of the host computation involve no `unsigned long long`
      wrap-around. */
  ghost predicate NoHostWrap(ws: seq<Window>, h: HostMemory)
    requires AllValid(ws)
  {
    var b, u := TagSum(ws, ACTUAL_BALLOON), TagSum(ws, UNUSED);
    b < h.total && u <= b && h.free <= h.total && b - u <= h.total - h.free
  }

  /** The share of the non-domain memory the host itself uses, as a whole
      percentage rounded down; it is a defined `int`. */
  function HostUsagePercentage(ws: seq<Window>, h: HostMemory): (pct: int)
    requires AllValid(ws) && HostUsageDefined(ws, h)
    ensures 0 <= pct <= INT_MAX
  {
    Percent(HostOnlyUsage(ws, h), NonDomainMemory(ws, h))
  }

  /** When nothing wraps, the host percentage is
      ((total - free) - (balloons - unused)) * 100 / (total - balloons),
      rounded down, with balloons and unused summed over all domains. */
  lemma HostUsageFormula(ws: seq<Window>, h: HostMemory)
    requires AllValid(ws) && HostUsageDefined(ws, h) && NoHostWrap(ws, h)
    ensures var b, u := TagSum(ws, ACTUAL_BALLOON), TagSum(ws, UNUSED);
            var whole, part := h.total - b, (h.total - h.free) - (b - u);
            var pct := HostUsagePercentage(ws, h);
            pct * whole <= part * 100 < (pct + 1) * whole
  {
    PercentIsFloor(HostOnlyUsage(ws, h), NonDomainMemory(ws, h));
  }

  // ---------------------------------------------------------------- cycle

  /** Every input the cycle's computation reads is defined. */
  predicate AdjustDefined(ws: seq<Window>, ps: seq<NodeParam>) {
    && AllValid(ws)
    && AllDefined(ws)
    && HostUsageDefined(ws, HostMemoryStats(ps))
  }

  /** The emergency path fires: the host usage percentage is HOT. */
  predicate HostUnderPressure(ws: seq<Window>, ps: seq<NodeParam>)
    requires AdjustDefined(ws, ps)
  {
    HostUsagePercentage(ws, HostMemoryStats(ps)) >= Threshold(Hot)
  }

  /** The balloon size of every domain, as read from its current sample. */
  function Snapshot(ws: seq<Window>): (bs: seq<U64>)
    requires AllDefined(ws)
    ensures |bs| == |ws|
    ensures forall i :: 0 <= i < |ws| ==> bs[i] == Balloon(ws[i])
  {
    seq(|ws|, i requires 0 <= i < |ws| && DomainDefined(ws[i]) => Balloon(ws[i]))
  }

  /** The new size the hysteresis rule asks for each domain, if any. */
  function Plan(ws: seq<Window>): (plan: seq<Option<U64>>)
    requires AllDefined(ws)
    ensures |plan| == |ws|
    ensures forall i :: 0 <= i < |ws| ==> plan[i] == Resize(ws[i])
  {
    seq(|ws|, i requires 0 <= i < |ws| && DomainDefined(ws[i]) => Resize(ws[i]))
  }

  /** The emergency pass over domains `i ..`: one half-size request each, in
      domain order. */
  function HalveFrom(bs: seq<U64>, i: nat): (r: seq<Request>)
    requires i <= |bs|
    ensures |r| == |bs| - i
    ensures forall k :: 0 <= k < |r| ==> r[k] == Request(i + k, Shr1(bs[i + k]))
    decreases |bs| - i
  {
    if i == |bs| then [] else [Request(i, Shr1(bs[i]))] + HalveFrom(bs, i + 1)
  }

  /** The request domain `i` gets from its plan, if any. */
  function PlannedRequest(plan: seq<Option<U64>>, i: nat): seq<Request>
    requires i < |plan|
  {
    match plan[i]
    case Some(size) => [Request(i, size)]
    case None => []
  }

  /** The hysteresis pass over domains `i ..`, in domain order. */
  function PlannedFrom(plan: seq<Option<U64>>, i: nat): seq<Request>
    requires i <= |plan|
    decreases |plan| - i
  {
    if i == |plan| then [] else PlannedRequest(plan, i) + PlannedFrom(plan, i + 1)
  }

  /** The hysteresis requests of one cycle. */
  function Hysteresis(ws: seq<Window>): seq<Request>
    requires AllDefined(ws)
  {
    PlannedFrom(Plan(ws), 0)
  }

  /** The requests one call of the policy issues, in order. Under host
      pressure every domain first gets a half-size request, in domain order;
      the hysteresis requests follow in either case, computed from the same
      balloon snapshot. */
  function AdjustResources(ws: seq<Window>, ps: seq<NodeParam>): (r: seq<Request>)
    requires AdjustDefined(ws, ps)
    ensures HostUnderPressure(ws, ps) ==>
              && |r| >= |ws|
              && (forall i :: 0 <= i < |ws| ==> r[i] == Request(i, Shr1(Balloon(ws[i]))))
              && r[|ws|..] == Hysteresis(ws)
    ensures !HostUnderPressure(ws, ps) ==> r == Hysteresis(ws)
  {
    var emergency := if HostUnderPressure(ws, ps) then HalveFrom(Snapshot(ws), 0) else [];
    emergency + Hysteresis(ws)
  }
}
