/** Totals of one statistic over all domains' current samples, as used for
    the host-pressure computation: the balloon total and the unused total. */
module Totals {
  import opened Machine
  import opened DomainStats

  /** What one domain adds to the total of `tag`: the value of its first
      valid current entry with that tag, or nothing when it has none. */
  function TagValue(w: Window, tag: int): U64
    requires w.Valid()
  {
    match FindStat(w.nCurr, w.curr, tag)
    case Some(i) => w.curr[i].val
    case None => 0
  }

  /** Reference: the exact (unbounded) sum of `tag` over the domains. */
  ghost function TagSum(ws: seq<Window>, tag: int): nat
    requires AllValid(ws)
  {
    if |ws| == 0 then 0 else TagSum(ws[..|ws| - 1], tag) + TagValue(ws[|ws| - 1], tag)
  }

  /** The accumulation loop over the domains in order, in `unsigned long long`:
      it equals the exact sum reduced modulo 2^64, and the exact sum itself
      whenever that fits. */
  function TagTotal(ws: seq<Window>, tag: int): (t: U64)
    requires AllValid(ws)
    ensures t == TagSum(ws, tag) % TWO_64
    ensures TagSum(ws, tag) < TWO_64 ==> t == TagSum(ws, tag)
  {
    if |ws| == 0 then 0
    else
      var prefix := TagTotal(ws[..|ws| - 1], tag);
      ModAddLeft(TagSum(ws[..|ws| - 1], tag), TagValue(ws[|ws| - 1], tag));
      AddU64(prefix, TagValue(ws[|ws| - 1], tag))
  }

  /** The sum of every domain's current balloon size. */
  function DomainBalloonTotal(ws: seq<Window>): (t: U64)
    requires AllValid(ws)
    ensures t == TagSum(ws, ACTUAL_BALLOON) % TWO_64
  {
    TagTotal(ws, ACTUAL_BALLOON)
  }

  /** The sum of every domain's current unused memory. */
  function DomainFreeTotal(ws: seq<Window>): (t: U64)
    requires AllValid(ws)
    ensures t == TagSum(ws, UNUSED) % TWO_64
  {
    TagTotal(ws, UNUSED)
  }

  /** Appending a domain adds exactly its value of `tag`; a domain that lacks
      the tag adds nothing. */
  lemma TagSumAppend(ws: seq<Window>, w: Window, tag: int)
    requires AllValid(ws) && w.Valid()
    ensures AllValid(ws + [w])
    ensures TagSum(ws + [w], tag) == TagSum(ws, tag) + TagValue(w, tag)
    ensures FindStat(w.nCurr, w.curr, tag).None? ==> TagTotal(ws + [w], tag) == TagTotal(ws, tag)
  {
    assert (ws + [w])[..|ws|] == ws;
  }

  /** Two windows that agree, over their valid current entries, on which
      entries carry `tag` and on those entries' values. */
  ghost predicate SameOnTag(w: Window, w': Window, tag: int)
    requires w.Valid() && w'.Valid()
  {
    && w.nCurr == w'.nCurr
    && (forall j :: 0 <= j < w.nCurr ==> (w.curr[j].tag == tag <==> w'.curr[j].tag == tag))
    && (forall j :: 0 <= j < w.nCurr && w.curr[j].tag == tag ==> w.curr[j].val == w'.curr[j].val)
  }

  /** Only entries carrying `tag` influence its total: other tags, their
      values, the previous samples and entries past the count do not. */
  lemma {:induction false} TagTotalReadsOnlyTag(ws: seq<Window>, ws': seq<Window>, tag: int)
    requires AllValid(ws) && AllValid(ws') && |ws| == |ws'|
    requires forall i :: 0 <= i < |ws| ==> SameOnTag(ws[i], ws'[i], tag)
    ensures TagTotal(ws, tag) == TagTotal(ws', tag)
  {
    TagSumReadsOnlyTag(ws, ws', tag);
  }

  lemma {:induction false} TagSumReadsOnlyTag(ws: seq<Window>, ws': seq<Window>, tag: int)
    requires AllValid(ws) && AllValid(ws') && |ws| == |ws'|
    requires forall i :: 0 <= i < |ws| ==> SameOnTag(ws[i], ws'[i], tag)
    ensures TagSum(ws, tag) == TagSum(ws', tag)
  {
    if |ws| > 0 {
      var k := |ws| - 1;
      TagSumReadsOnlyTag(ws[..k], ws'[..k], tag);
      assert SameOnTag(ws[k], ws'[k], tag);
      FindStatReadsOnlyTag(ws[k].nCurr, ws[k].curr, ws'[k].curr, tag);
    }
  }
}
