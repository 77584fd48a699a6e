/** Per-domain memory statistics as the coordinator holds them: fixed-size
    arrays of `(tag, value)` records with a count of valid entries, a
    first-match lookup over the valid prefix, and the two-sample window that
    each polling cycle rotates. */
module DomainStats {
  import opened Machine
  import opened Options

  // Memory-statistic tags, numbered in the order of the tag-name table.
  const SWAP_IN: int := 0
  const SWAP_OUT: int := 1
  const MAJOR_FAULT: int := 2
  const MINOR_FAULT: int := 3
  const UNUSED: int := 4
  const AVAILABLE: int := 5
  const ACTUAL_BALLOON: int := 6
  const RSS: int := 7

  /** Capacity of each statistics array (one slot per known tag). */
  const STAT_NR: nat := 8

  /** One `(tag, value)` record reported for a domain. */
  datatype Stat = Stat(tag: int, val: U64)

  /** Linear search of entries `i .. n-1` for the first one carrying `tag`. */
  function FindStatFrom(n: int, stats: seq<Stat>, tag: int, i: nat): (r: Option<nat>)
    requires n <= |stats|
    ensures r.Some? ==> i <= r.value < n && stats[r.value].tag == tag
    ensures r.Some? ==> forall j :: i <= j < r.value ==> stats[j].tag != tag
    ensures r.None? ==> forall j :: i <= j < n ==> stats[j].tag != tag
    decreases n - i
  {
    if n <= i then None
    else if stats[i].tag == tag then Some(i)
    else FindStatFrom(n, stats, tag, i + 1)
  }

  /** The position of the first of the `n` valid entries carrying `tag`, or
      None (the NULL pointer) when no valid entry carries it. Entries at or
      beyond `n` are never inspected; a count of zero or less finds nothing. */
  function FindStat(n: int, stats: seq<Stat>, tag: int): (r: Option<nat>)
    requires n <= |stats|
    ensures r.Some? ==> r.value < n && stats[r.value].tag == tag
    ensures r.Some? ==> forall j :: 0 <= j < r.value ==> stats[j].tag != tag
    ensures r.None? <==> forall j :: 0 <= j < n ==> stats[j].tag != tag
  {
    FindStatFrom(n, stats, tag, 0)
  }

  /** The value of the entry `FindStat` locates (the `->val` dereference). */
  function StatValue(n: int, stats: seq<Stat>, tag: int): U64
    requires n <= |stats|
    requires FindStat(n, stats, tag).Some?
  {
    stats[FindStat(n, stats, tag).value].val
  }

  /** Two arrays whose valid prefixes agree on which entries carry `tag`
      locate the same entry: the lookup never reads other tags, values, or
      anything past the count. */
  lemma FindStatReadsOnlyTag(n: int, s: seq<Stat>, s': seq<Stat>, tag: int)
    requires n <= |s| && n <= |s'|
    requires forall j :: 0 <= j < n ==> (s[j].tag == tag <==> s'[j].tag == tag)
    ensures FindStat(n, s, tag) == FindStat(n, s', tag)
  {
  }

  /** What one call of the statistics query hands back: the filled array and
      the call's return value, which is the number of valid entries or a
      negative status on failure. */
  datatype Sample = Sample(count: int, stats: seq<Stat>) {
    /** The query fills an array of `STAT_NR` slots and reports at most that many. */
    predicate Valid() {
      |stats| == STAT_NR && count <= STAT_NR
    }
  }

  /** The history kept for one domain: the previous and the current sample,
      each with its count of valid entries. */
  datatype Window = Window(nPrev: nat, nCurr: nat, prev: seq<Stat>, curr: seq<Stat>) {
    predicate Valid() {
      |prev| == STAT_NR && |curr| == STAT_NR && nPrev <= STAT_NR && nCurr <= STAT_NR
    }
  }

  predicate AllValid(ws: seq<Window>) {
    forall i :: 0 <= i < |ws| ==> ws[i].Valid()
  }

  /** A freshly allocated window: zero-filled memory, so both counts are 0. */
  function InitWindow(): (w: Window)
    ensures w.Valid()
    ensures forall tag :: FindStat(w.nPrev, w.prev, tag).None? && FindStat(w.nCurr, w.curr, tag).None?
  {
    var zero := seq(STAT_NR, _ => Stat(0, 0));
    Window(0, 0, zero, zero)
  }

  /** One domain's step of a polling cycle: the current sample and its count
      become the previous ones, and the fresh sample becomes current. Every
      valid entry is carried over unchanged, so each tag is found where it
      was and reads the value it had. */
  function Rotate(w: Window, s: Sample): (r: Window)
    requires s.count >= 0
    ensures r.nPrev == w.nCurr && r.nCurr == s.count
    ensures w.Valid() && s.Valid() ==> r.Valid()
    ensures w.Valid() && s.Valid() ==>
              && (forall j :: 0 <= j < w.nCurr ==> r.prev[j] == w.curr[j])
              && (forall j :: 0 <= j < s.count ==> r.curr[j] == s.stats[j])
    ensures w.Valid() && s.Valid() ==>
              forall tag :: FindStat(r.nPrev, r.prev, tag) == FindStat(w.nCurr, w.curr, tag)
    ensures w.Valid() && s.Valid() ==>
              forall tag :: FindStat(r.nCurr, r.curr, tag) == FindStat(s.count, s.stats, tag)
    ensures w.Valid() && s.Valid() ==>
              forall tag | FindStat(w.nCurr, w.curr, tag).Some? ::
                StatValue(r.nPrev, r.prev, tag) == StatValue(w.nCurr, w.curr, tag)
    ensures w.Valid() && s.Valid() ==>
              forall tag | FindStat(s.count, s.stats, tag).Some? ::
                StatValue(r.nCurr, r.curr, tag) == StatValue(s.count, s.stats, tag)
  {
    Window(w.nCurr, s.count, w.curr, s.stats)
  }

  /** Rotation of domains `i ..` in order, stopping at the first domain whose
      query failed and reporting its index. */
  function FetchStatsFrom(ws: seq<Window>, samples: seq<Sample>, i: nat): (r: Result<seq<Window>, nat>)
    requires |samples| == |ws| && i <= |ws|
    ensures r.Failure? ==> i <= r.error < |ws| && samples[r.error].count < 0
    ensures r.Failure? ==> forall j :: i <= j < r.error ==> samples[j].count >= 0
    ensures r.Success? ==> forall j :: i <= j < |ws| ==> samples[j].count >= 0
    ensures r.Success? ==> |r.value| == |ws| - i
    ensures r.Success? ==> forall j :: i <= j < |ws| ==> r.value[j - i] == Rotate(ws[j], samples[j])
    decreases |ws| - i
  {
    if i == |ws| then Success([])
    else if samples[i].count < 0 then Failure(i)
    else
      match FetchStatsFrom(ws, samples, i + 1)
      case Success(rest) => Success([Rotate(ws[i], samples[i])] + rest)
      case Failure(e) => Failure(e)
  }

  /** The rotation of every domain's window with its fresh sample, in domain
      order. The cycle fails, naming the first failing domain, exactly when
      some query returned a negative status; otherwise every window has been
      rotated with its own sample and nothing else has changed. */
  function FetchStats(ws: seq<Window>, samples: seq<Sample>): (r: Result<seq<Window>, nat>)
    requires |samples| == |ws|
    ensures r.Failure? <==> exists j :: 0 <= j < |ws| && samples[j].count < 0
    ensures r.Failure? ==> r.error < |ws| && samples[r.error].count < 0 && forall j :: 0 <= j < r.error ==> samples[j].count >= 0
    ensures r.Success? ==> |r.value| == |ws| && forall j :: 0 <= j < |ws| ==> r.value[j] == Rotate(ws[j], samples[j])
    ensures r.Success? && AllValid(ws) && (forall j :: 0 <= j < |ws| ==> samples[j].Valid()) ==> AllValid(r.value)
  {
    FetchStatsFrom(ws, samples, 0)
  }
}
