# Memory balloon coordinator — a Dafny model of its decision logic

The memory coordinator polls every running domain (virtual machine) of one
hypervisor host at a fixed interval. Each cycle it rotates each domain's
two-sample statistics window and computes the usage of each domain's balloon.
It also computes the memory pressure of the host's own processes. Then it
issues set-memory requests. When the host's own usage is HOT, every domain is
halved. Separately, a domain whose usage was HOT in both of its last two
samples is doubled, and one that was COLD in both is halved.

This project models that logic as pure functions over sequences of
`(tag, value)` statistic records:

- `machine.dfy` (`Machine`): `unsigned long long` arithmetic with explicit
  wrap-around modulo 2^64, and the integer abstraction of the
  floating-point percentage.
- `options.dfy` (`Options`): `Option` and `Result`.
- `domain_stats.dfy` (`DomainStats`): statistic records, the first-match
  lookup, per-domain windows, the rotation, and the fetch pass over all
  domains.
- `totals.dfy` (`Totals`): the balloon and unused totals over all domains.
- `host_stats.dfy` (`HostStats`): the host's total and free figures.
- `usage.dfy` (`Usage`): the usage thresholds and categories, and the
  per-domain usage percentage.
- `policy.dfy` (`Policy`): the host usage percentage, the hysteresis rule,
  and the ordered list of requests of one cycle.
- `policy_facts.dfy` (`PolicyFacts`): properties relating several calls or
  one domain across the whole request list.
- `scenarios.dfy` (`Scenarios`): worked single-domain cycles.

A domain is identified by its index in the domain list. A request is
`Request(domain, size)`. The result of a set-memory call never changes what
is requested next, so the list returned by `Policy.AdjustResources` is the
complete output of a cycle.

Behaviours of the code that the model keeps:

- A sample with no valid entries has usage 0, which is COLD. On the first
  cycle the previous sample is zero-filled with count 0. So one COLD current
  sample is enough to halve a domain then (`PolicyFacts.FirstCycleCountsPreviousAsCold`).
- The emergency pass and the hysteresis pass both read the same balloon
  snapshot. So a domain can be asked for half its size and then for double
  its size in the same cycle (`PolicyFacts.PressureAndGrowBothRequested`).
- Sums and differences of `unsigned long long` values wrap modulo 2^64.
  Doubling a balloon of 2^63 or more wraps too.
- A domain reporting more unused memory than balloon has a wrapped used size.
  Its usage therefore reads as at least 100 percent.

The code does not treat these cases as unknown:

- A zero count yields usage 0.
- A missing balloon or unused entry, and a zero balloon, are not guarded.
  The code dereferences NULL or divides by zero there. The model states these
  as preconditions (`Usage.UsageDefined`, `Policy.DomainDefined`).
- A failed host-statistics query is ignored by its caller. Both host figures
  then stay 0, which is what an empty field list gives.
- The usages are `int` and the thresholds `unsigned int`, so a negative
  usage would compare as a huge unsigned value. No usage the code computes
  is negative, and the model's comparisons take non-negative usages only.

## Model

| member | source | states |
|---|---|---|
| DomainStats.FindStatFrom | Project1/Part2/mem_coordinator.cpp:103-110 | the scan from position i returns the first position below n whose tag matches, or none when no position from i to n-1 matches |
| DomainStats.FindStat | Project1/Part2/mem_coordinator.cpp:101-111 | the lookup returns the first of the n valid entries carrying the tag; it returns none exactly when no valid entry carries it |
| DomainStats.FindStatReadsOnlyTag | Project1/Part2/mem_coordinator.cpp:101-111 | the lookup's answer depends only on which of the first n entries carry the tag, not on values, other tags or entries past the count |
| DomainStats.InitWindow | Project1/Part2/mem_coordinator.cpp:70 | a zero-filled window is well formed, and the lookup finds nothing in either of its samples |
| DomainStats.Rotate | Project1/Part2/mem_coordinator.cpp:86-89 | the old current count and valid entries become the previous ones, and the fresh count and valid entries become the current ones; so every lookup in either sample finds the same position and reads the same value as before the rotation; well-formedness is kept |
| DomainStats.FetchStatsFrom | Project1/Part2/mem_coordinator.cpp:84-95 | the pass from domain i fails at the first domain whose query returned a negative status; otherwise each domain from i on is rotated with its own sample |
| DomainStats.FetchStats | Project1/Part2/mem_coordinator.cpp:81-96 | the fetch fails exactly when some query failed, naming the first such domain; on success each domain is rotated with its own sample, in order, and well-formedness is kept |
| Totals.TagTotal | Project1/Part2/mem_coordinator.cpp:113-142 | the accumulated total equals the exact sum over domains of each domain's first valid current entry with the tag (0 if missing), modulo 2^64 |
| Totals.DomainBalloonTotal | Project1/Part2/mem_coordinator.cpp:113-126 | the balloon total is the sum of every domain's current balloon size, modulo 2^64 |
| Totals.DomainFreeTotal | Project1/Part2/mem_coordinator.cpp:128-142 | the unused total is the sum of every domain's current unused size, modulo 2^64 |
| Totals.TagSumAppend | Project1/Part2/mem_coordinator.cpp:117-124 | one more domain adds exactly its value of the tag, and a domain lacking the tag leaves the total unchanged |
| Totals.TagTotalReadsOnlyTag | Project1/Part2/mem_coordinator.cpp:113-142 | domain lists that agree on which valid current entries carry the tag, and on those entries' values, have the same total |
| HostStats.HostMemoryStats | Project1/Part2/mem_coordinator.cpp:169-211 | starting from zero, total is the sum of the total fields and free is the sum of the free, buffers and cached fields, each modulo 2^64 |
| HostStats.HostIgnoresOtherFields | Project1/Part2/mem_coordinator.cpp:190-208 | inserting a field with any other name anywhere in the list changes neither figure |
| Machine.Percent | Project1/Part2/mem_coordinator.cpp:153 | the percentage is at most 100 when part is at most whole, at least 100 when part is at least whole, and fits an int whenever part * 100 is below 2^31 * whole |
| Machine.PercentIsFloor | Project1/Part2/mem_coordinator.cpp:153 | the percentage is the largest whole number r with r * whole at most part * 100 (the cast to int truncates the non-negative quotient) |
| Usage.Classify | Project1/Part2/mem_coordinator.cpp:29-40 | a non-negative usage (the only kind compared against the unsigned thresholds) is COLD exactly when at most 25, HOT exactly when at least 80, and WARM exactly when strictly between |
| Usage.UsagePercentage | Project1/Part2/mem_coordinator.cpp:145-157 | usage is 0 for a count of 0 and always a defined int; otherwise it is at most 100 when unused is at most balloon, and at least 100 when unused exceeds balloon (the unsigned subtraction wraps) |
| Usage.UsageIsFloor | Project1/Part2/mem_coordinator.cpp:151-153 | with a non-zero count and unused at most balloon, the usage is the floor of (balloon - unused) * 100 / balloon |
| Usage.ConsistentStatsDefineUsage | Project1/Part2/mem_coordinator.cpp:145-157 | with both entries present, a non-zero balloon and unused at most balloon, the usage is defined and lies in 0..100 |
| Policy.Decide | Project1/Part2/mem_coordinator.cpp:277-294 | grow exactly when both usages are HOT; shrink exactly when both are COLD; otherwise no action (the two are exclusive) |
| Policy.ResizeFor | Project1/Part2/mem_coordinator.cpp:276-294 | growing asks for twice the balloon size, wrapping modulo 2^64 when the doubled size does not fit; shrinking asks for half of it rounded down; holding asks for nothing |
| Policy.Resize | Project1/Part2/mem_coordinator.cpp:276-294 | a domain gets a hysteresis size exactly when its rule grows or shrinks it; growing asks for double the snapshot balloon, less 2^64 when the doubled size does not fit, and shrinking asks for half of it rounded down |
| Policy.HostUsagePercentage | Project1/Part2/mem_coordinator.cpp:219-242 | the host percentage is a defined, non-negative int |
| Policy.HostUsageFormula | Project1/Part2/mem_coordinator.cpp:219-242 | when no unsigned subtraction wraps, the host percentage is the floor of ((total - free) - (balloons - unused)) * 100 / (total - balloons), with balloons and unused summed over all domains |
| Policy.HalveFrom | Project1/Part2/mem_coordinator.cpp:260-267 | the emergency pass issues one request per domain from i on, in domain order, each for half that domain's snapshot balloon |
| Policy.AdjustResources | Project1/Part2/mem_coordinator.cpp:216-297 | under host pressure the list starts with one half-size request per domain in domain order, followed by the hysteresis requests; otherwise it is the hysteresis requests alone |
| PolicyFacts.PlannedInDomainOrder | Project1/Part2/mem_coordinator.cpp:272-295 | hysteresis requests are for domains of the pass, carry the size the rule asks for, and come in strictly increasing domain order |
| PolicyFacts.RequestsPerDomain | Project1/Part2/mem_coordinator.cpp:257-295 | the sizes requested for a domain in one cycle are exactly: half its balloon if the host is under pressure, then its hysteresis size if its rule fires; nothing for an index outside the list |
| PolicyFacts.PressureAndGrowBothRequested | Project1/Part2/mem_coordinator.cpp:257-285 | under host pressure a domain that was HOT twice receives a half-size and then a double-size request from the same snapshot |
| PolicyFacts.TwoSamplesDecide | Project1/Part2/mem_coordinator.cpp:277-294 | after two rotations a domain grows exactly when both fresh samples were HOT, and shrinks exactly when both were COLD |
| PolicyFacts.FirstCycleCountsPreviousAsCold | Project1/Part2/mem_coordinator.cpp:147-150 | on the first cycle the previous usage is 0, a domain never grows, and it shrinks exactly when its current usage is COLD |
| PolicyFacts.RotateShiftsUsage | Project1/Part2/mem_coordinator.cpp:86-88 | after a rotation the previous usage equals the usage of the sample that was current |
| Scenarios.HotTwiceDoubles | Project1/Part2/mem_coordinator.cpp:278-285 | balloon 1000 with 100 unused in both samples is 90 percent twice, so the request is for 2000 |
| Scenarios.HotThenColdHolds | Project1/Part2/mem_coordinator.cpp:278-294 | 90 percent and then 10 percent gives no request |
| Scenarios.PressureHalvesThenHysteresisDoubles | Project1/Part2/mem_coordinator.cpp:234-285 | a host at 85 percent with one domain HOT twice yields the requests (0, 500) and then (0, 2000) |

## Left out

- Project1/Part1/cpu_scheduler.cpp: it is a one-shot diagnostic dump of libvirt queries and printing. It contains no placement algorithm to model.
- Hypervisor calls (connect, list domains, memory statistics queries, set memory, set statistics period, domain name): queries are inputs to the functions and set-memory calls are the returned requests.
- `main`, the sleep loop, argument parsing, `printStats`, the tag-name table and all diagnostic printing: I/O only.
- Machine.Percent: the percentages are computed in `double` and then converted to `int`. The model uses exact integer division rounded down, which can differ from the `double` result once part * 100 (or whole) reaches 2^53, that is already for part around 2^47: part = 139330113471845 and whole = 140737488355399 give 98 exactly, while the `double` quotient truncates to 99. Below that bound both operands are exact doubles and the correctly rounded quotient truncates to the same whole number.
- Usage.UsagePercentage: a missing balloon or unused entry (NULL dereference), a zero balloon (division by zero) and a quotient beyond the `int` range are undefined behaviour in the code. They are excluded by the precondition rather than modelled.
- Policy.AdjustResources: likewise it requires every domain to have a current balloon entry and defined usages, and it requires a defined host percentage. The host percentage needs non-zero non-domain memory and a quotient in `int` range.
- DomainStats.FetchStats: the code's success path falls off the end without returning a value. The model treats it as success. On failure the model returns only the failing index, not the partly rotated windows, because the caller then exits.
- HostStats.HostMemoryStats: the allocation and query error paths are not modelled separately. Their caller ignores the status, and both figures stay 0 as for an empty field list. The leaked parameter buffer is not modelled.
- The closing of the connection when `adjustResources` fails is not modelled. That function always returns 0, so this path is never taken.
- The number of statistic slots is fixed at 8, one per tag of the tag-name table.
