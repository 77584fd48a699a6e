/** Host-wide memory figures: the node statistics query returns a list of
    named fields, from which the coordinator keeps a total and a "free"
    figure that counts free, buffer and page-cache memory together. */
module HostStats {
  import opened Machine

  // Field names of the node memory statistics.
  const FIELD_TOTAL: string := "total"
  const FIELD_FREE: string := "free"
  const FIELD_BUFFERS: string := "buffers"
  const FIELD_CACHED: string := "cached"

  /** One named field of the node memory statistics. */
  datatype NodeParam = NodeParam(field: string, value: U64)

  /** Total physical memory and memory that is free, buffers or cache. */
  datatype HostMemory = HostMemory(total: U64, free: U64)

  /** Reference: the exact sum of the values of the fields named `f`. */
  ghost function FieldSum(ps: seq<NodeParam>, f: string): nat
  {
    if |ps| == 0 then 0
    else FieldSum(ps[..|ps| - 1], f) + (if ps[|ps| - 1].field == f then ps[|ps| - 1].value else 0)
  }

  /** Reference: what the host counts as free memory. */
  ghost function FreeSum(ps: seq<NodeParam>): nat
  {
    FieldSum(ps, FIELD_FREE) + FieldSum(ps, FIELD_BUFFERS) + FieldSum(ps, FIELD_CACHED)
  }

  /** One pass of the field loop: a field is matched against the names in
      turn, and at most one of the two figures grows. */
  function Accumulate(h: HostMemory, p: NodeParam): HostMemory
  {
    if p.field == FIELD_TOTAL then h.(total := AddU64(h.total, p.value))
    else if p.field == FIELD_FREE then h.(free := AddU64(h.free, p.value))
    else if p.field == FIELD_BUFFERS then h.(free := AddU64(h.free, p.value))
    else if p.field == FIELD_CACHED then h.(free := AddU64(h.free, p.value))
    else h
  }

  /** Both figures start at zero and accumulate over the returned fields, in
      `unsigned long long`: `total` is the sum of the total fields and `free`
      the sum of the free, buffers and cached fields, each modulo 2^64; any
      other field is ignored. A failed query leaves both at zero, which is
      what an empty field list gives. */
  function HostMemoryStats(ps: seq<NodeParam>): (h: HostMemory)
    ensures h.total == FieldSum(ps, FIELD_TOTAL) % TWO_64
    ensures h.free == FreeSum(ps) % TWO_64
  {
    if |ps| == 0 then HostMemory(0, 0)
    else
      var last := ps[|ps| - 1];
      var prefix := ps[..|ps| - 1];
      ModAddLeft(FieldSum(prefix, FIELD_TOTAL), last.value);
      ModAddLeft(FreeSum(prefix), last.value);
      Accumulate(HostMemoryStats(prefix), last)
  }

  lemma {:induction false} FieldSumConcat(a: seq<NodeParam>, b: seq<NodeParam>, f: string)
    ensures FieldSum(a + b, f) == FieldSum(a, f) + FieldSum(b, f)
    decreases |b|
  {
    if |b| > 0 {
      var k := |b| - 1;
      assert (a + b)[..|a + b| - 1] == a + b[..k];
      FieldSumConcat(a, b[..k], f);
    } else {
      assert a + b == a;
    }
  }

  /** Inserting a field not named `f` leaves the sum of `f` unchanged. */
  lemma FieldSumInsertOther(ps: seq<NodeParam>, k: nat, p: NodeParam, f: string)
    requires k <= |ps| && p.field != f
    ensures FieldSum(ps[..k] + [p] + ps[k..], f) == FieldSum(ps, f)
  {
    FieldSumConcat(ps[..k] + [p], ps[k..], f);
    FieldSumConcat(ps[..k], [p], f);
    FieldSumConcat(ps[..k], ps[k..], f);
    assert [p][..0] == [];
    assert ps[..k] + ps[k..] == ps;
  }

  /** A field other than total, free, buffers and cached, inserted anywhere
      in the list, changes neither figure. */
  lemma HostIgnoresOtherFields(ps: seq<NodeParam>, k: nat, p: NodeParam)
    requires k <= |ps|
    requires p.field != FIELD_TOTAL && p.field != FIELD_FREE
    requires p.field != FIELD_BUFFERS && p.field != FIELD_CACHED
    ensures HostMemoryStats(ps[..k] + [p] + ps[k..]) == HostMemoryStats(ps)
  {
    var ps' := ps[..k] + [p] + ps[k..];
    FieldSumInsertOther(ps, k, p, FIELD_TOTAL);
    FieldSumInsertOther(ps, k, p, FIELD_FREE);
    FieldSumInsertOther(ps, k, p, FIELD_BUFFERS);
    FieldSumInsertOther(ps, k, p, FIELD_CACHED);
    assert FreeSum(ps') == FreeSum(ps);
    assert FieldSum(ps', FIELD_TOTAL) == FieldSum(ps, FIELD_TOTAL);
  }
}
