/** Worked single-domain cycles: a domain HOT in both samples, a domain whose
    usage swings from HOT to COLD, and a host under memory pressure. */
module Scenarios {
  import opened Machine
  import opened Options
  import opened DomainStats
  import opened Totals
  import opened HostStats
  import opened Policy

  /** A sample array holding a balloon size and an unused size, then empty slots. */
  function Stats(balloon: U64, unused: U64): seq<Stat>
  {
    [Stat(ACTUAL_BALLOON, balloon), Stat(UNUSED, unused),
     Stat(0, 0), Stat(0, 0), Stat(0, 0), Stat(0, 0), Stat(0, 0), Stat(0, 0)]
  }

  /** Balloon 1000 with 100 unused (90 percent) in both samples: the domain
      grows to 2000. */
  lemma HotTwiceDoubles()
    ensures var w := Window(2, 2, Stats(1000, 100), Stats(1000, 100));
            DomainDefined(w) && CurrUsage(w) == 90 && PrevUsage(w) == 90
            && Resize(w) == Some(2000)
  {
    var s := Stats(1000, 100);
    assert FindStat(2, s, ACTUAL_BALLOON) == Some(0);
    assert FindStat(2, s, UNUSED) == Some(1);
  }

  /** 90 percent, then 10 percent (900 unused): HOT then COLD, so no request. */
  lemma HotThenColdHolds()
    ensures var w := Window(2, 2, Stats(1000, 100), Stats(1000, 900));
            DomainDefined(w) && CurrUsage(w) == 10 && PrevUsage(w) == 90
            && Resize(w) == None
  {
    var s, s' := Stats(1000, 100), Stats(1000, 900);
    assert FindStat(2, s, ACTUAL_BALLOON) == Some(0) && FindStat(2, s, UNUSED) == Some(1);
    assert FindStat(2, s', ACTUAL_BALLOON) == Some(0) && FindStat(2, s', UNUSED) == Some(1);
  }

  /** Host of 2000 with 250 free and one domain of balloon 1000, 100 unused:
      the host itself uses 850 of its 1000 non-domain memory, 85 percent, so
      the domain is halved to 500; being HOT twice, it is then also doubled
      to 2000 from the same snapshot. */
  lemma PressureHalvesThenHysteresisDoubles()
    ensures var ws := [Window(2, 2, Stats(1000, 100), Stats(1000, 100))];
            var ps := [NodeParam(FIELD_TOTAL, 2000), NodeParam(FIELD_FREE, 250)];
            && AdjustDefined(ws, ps)
            && HostUsagePercentage(ws, HostMemoryStats(ps)) == 85
            && AdjustResources(ws, ps) == [Request(0, 500), Request(0, 2000)]
  {
    var ws := [Window(2, 2, Stats(1000, 100), Stats(1000, 100))];
    var ps := [NodeParam(FIELD_TOTAL, 2000), NodeParam(FIELD_FREE, 250)];
    HotTwiceDoubles();
    assert AllDefined(ws);
    assert HostMemoryStats(ps) == HostMemory(2000, 250) by {
      assert ps[..1] == [NodeParam(FIELD_TOTAL, 2000)];
      assert ps[..1][..0] == [];
    }
    assert ws[..0] == [];
    assert TagTotal(ws, ACTUAL_BALLOON) == 1000;
    assert TagTotal(ws, UNUSED) == 100;
    assert Plan(ws) == [Some(2000)];
    assert Snapshot(ws) == [1000];
  }
}
