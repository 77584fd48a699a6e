/** Properties of the ballooning policy that relate several calls or look at
    one domain across the whole request list. */
module PolicyFacts {
  import opened Machine
  import opened Options
  import opened DomainStats
  import opened HostStats
  import opened Usage
  import opened Policy

  /** The sizes requested for domain `d`, in request order. */
  function SizesFor(reqs: seq<Request>, d: nat): seq<U64>
  {
    if |reqs| == 0 then []
    else (if reqs[0].domain == d then [reqs[0].size] else []) + SizesFor(reqs[1..], d)
  }

  function OptionToSeq(o: Option<U64>): seq<U64> {
    match o
    case Some(v) => [v]
    case None => []
  }

  lemma {:induction false} SizesForConcat(a: seq<Request>, b: seq<Request>, d: nat)
    ensures SizesFor(a + b, d) == SizesFor(a, d) + SizesFor(b, d)
  {
    if |a| > 0 {
      assert (a + b)[1..] == a[1..] + b;
      SizesForConcat(a[1..], b, d);
    } else {
      assert a + b == b;
    }
  }

  lemma SizesForSingle(r: Request, d: nat)
    ensures SizesFor([r], d) == if r.domain == d then [r.size] else []
  {
    assert [r][1..] == [];
  }

  lemma {:induction false} HalveSizes(bs: seq<U64>, i: nat, d: nat)
    requires i <= |bs|
    ensures i <= d < |bs| ==> SizesFor(HalveFrom(bs, i), d) == [Shr1(bs[d])]
    ensures !(i <= d < |bs|) ==> SizesFor(HalveFrom(bs, i), d) == []
    decreases |bs| - i
  {
    if i < |bs| {
      var head := [Request(i, Shr1(bs[i]))];
      var rest := HalveFrom(bs, i + 1);
      assert HalveFrom(bs, i) == head + rest;
      SizesForConcat(head, rest, d);
      SizesForSingle(head[0], d);
      HalveSizes(bs, i + 1, d);
    }
  }

  lemma PlannedRequestSizes(plan: seq<Option<U64>>, i: nat, d: nat)
    requires i < |plan|
    ensures SizesFor(PlannedRequest(plan, i), d) == if i == d then OptionToSeq(plan[i]) else []
  {
    match plan[i]
    case Some(size) => SizesForSingle(Request(i, size), d);
    case None =>
  }

  lemma {:induction false} PlannedSizes(plan: seq<Option<U64>>, i: nat, d: nat)
    requires i <= |plan|
    ensures i <= d < |plan| ==> SizesFor(PlannedFrom(plan, i), d) == OptionToSeq(plan[d])
    ensures !(i <= d < |plan|) ==> SizesFor(PlannedFrom(plan, i), d) == []
    decreases |plan| - i
  {
    if i < |plan| {
      var own := PlannedRequest(plan, i);
      var rest := PlannedFrom(plan, i + 1);
      assert PlannedFrom(plan, i) == own + rest;
      SizesForConcat(own, rest, d);
      PlannedRequestSizes(plan, i, d);
      PlannedSizes(plan, i + 1, d);
    }
  }

  /** Every request is for a domain `i ..` of the plan and carries the size
      the plan holds for it. */
  ghost predicate FollowsPlan(r: seq<Request>, plan: seq<Option<U64>>, i: nat) {
    forall k :: 0 <= k < |r| ==> i <= r[k].domain < |plan| && plan[r[k].domain] == Some(r[k].size)
  }

  ghost predicate InDomainOrder(r: seq<Request>) {
    forall k, l :: 0 <= k < l < |r| ==> r[k].domain < r[l].domain
  }

  /** The hysteresis requests come in strictly increasing domain order, each
      for a domain of the pass and with the size its plan holds; so a domain
      receives at most one of them. */
  lemma {:induction false} PlannedInDomainOrder(plan: seq<Option<U64>>, i: nat)
    requires i <= |plan|
    ensures FollowsPlan(PlannedFrom(plan, i), plan, i)
    ensures InDomainOrder(PlannedFrom(plan, i))
    decreases |plan| - i
  {
    if i < |plan| {
      var own := PlannedRequest(plan, i);
      var rest := PlannedFrom(plan, i + 1);
      PlannedInDomainOrder(plan, i + 1);
      assert FollowsPlan(rest, plan, i + 1) && InDomainOrder(rest);
      var r := own + rest;
      assert PlannedFrom(plan, i) == r;
      assert own == if plan[i].Some? then [Request(i, plan[i].value)] else [];
      forall k | 0 <= k < |r|
        ensures i <= r[k].domain < |plan| && plan[r[k].domain] == Some(r[k].size)
      {
        if k >= |own| {
          assert r[k] == rest[k - |own|];
        }
      }
      forall k, l | 0 <= k < l < |r|
        ensures r[k].domain < r[l].domain
      {
        assert r[l] == rest[l - |own|];
        if k >= |own| {
          assert r[k] == rest[k - |own|];
        }
      }
    }
  }

  /** What one cycle asks for one domain, in order: a half-size request if the
      host is under pressure, then the hysteresis request if its rule fires.
      A domain can therefore receive two requests in one cycle, and a domain
      outside the list receives none. */
  lemma RequestsPerDomain(ws: seq<Window>, ps: seq<NodeParam>, d: nat)
    requires AdjustDefined(ws, ps)
    ensures d < |ws| ==>
              SizesFor(AdjustResources(ws, ps), d)
              == (if HostUnderPressure(ws, ps) then [Shr1(Balloon(ws[d]))] else [])
                 + OptionToSeq(Resize(ws[d]))
    ensures d >= |ws| ==> SizesFor(AdjustResources(ws, ps), d) == []
  {
    var emergency := if HostUnderPressure(ws, ps) then HalveFrom(Snapshot(ws), 0) else [];
    SizesForConcat(emergency, Hysteresis(ws), d);
    HalveSizes(Snapshot(ws), 0, d);
    PlannedSizes(Plan(ws), 0, d);
  }

  /** The hysteresis rule needs two consecutive samples: after two rotations,
      a domain grows exactly when both samples were HOT, and shrinks exactly
      when both were COLD. A HOT sample followed by a WARM or COLD one does
      not grow it. */
  lemma TwoSamplesDecide(w: Window, s1: Sample, s2: Sample)
    requires w.Valid() && s1.Valid() && s2.Valid() && s1.count >= 0 && s2.count >= 0
    requires DomainDefined(Rotate(Rotate(w, s1), s2))
    ensures UsageDefined(s1.count, s1.stats) && UsageDefined(s2.count, s2.stats)
    ensures var w2 := Rotate(Rotate(w, s1), s2);
            var u1, u2 := UsagePercentage(s1.count, s1.stats), UsagePercentage(s2.count, s2.stats);
            && (DomainAction(w2) == Grow <==> u1 >= Threshold(Hot) && u2 >= Threshold(Hot))
            && (DomainAction(w2) == Shrink <==> u1 <= Threshold(Cold) && u2 <= Threshold(Cold))
  {
  }

  /** On the first cycle the previous sample has no valid entries, so its usage
      reads 0, which is COLD: a domain never grows, and it shrinks as soon as
      its single current sample is COLD. */
  lemma FirstCycleCountsPreviousAsCold(s: Sample)
    requires s.Valid() && s.count >= 0
    requires DomainDefined(Rotate(InitWindow(), s))
    ensures PrevUsage(Rotate(InitWindow(), s)) == 0
    ensures DomainAction(Rotate(InitWindow(), s)) != Grow
    ensures DomainAction(Rotate(InitWindow(), s)) == Shrink <==> UsagePercentage(s.count, s.stats) <= Threshold(Cold)
  {
  }

  /** A rotation carries the current usage over as the previous usage. */
  lemma RotateShiftsUsage(w: Window, s: Sample)
    requires w.Valid() && s.Valid() && s.count >= 0
    requires UsageDefined(w.nCurr, w.curr)
    ensures UsageDefined(Rotate(w, s).nPrev, Rotate(w, s).prev)
    ensures UsagePercentage(Rotate(w, s).nPrev, Rotate(w, s).prev) == UsagePercentage(w.nCurr, w.curr)
  {
  }

  /** Under host pressure, a domain whose own usage was HOT twice receives a
      half-size request and then a double-size request in the same cycle,
      both computed from the same balloon size. */
  lemma PressureAndGrowBothRequested(ws: seq<Window>, ps: seq<NodeParam>, d: nat)
    requires AdjustDefined(ws, ps) && d < |ws|
    requires HostUnderPressure(ws, ps) && DomainAction(ws[d]) == Grow
    ensures SizesFor(AdjustResources(ws, ps), d) == [Shr1(Balloon(ws[d])), Shl1(Balloon(ws[d]))]
  {
    RequestsPerDomain(ws, ps, d);
    assert Resize(ws[d]) == Some(Shl1(Balloon(ws[d])));
    assert OptionToSeq(Resize(ws[d])) == [Shl1(Balloon(ws[d]))];
  }
}
