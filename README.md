# Smart Bunk allocator, modelled in Dafny

The Smart Bunk Management System decides how many future lectures a
student may skip ("bunk") in each subject and still keep the required
attendance fraction. `calculateSmartBunks` takes a list of subjects
`{subject, attend, total}` and a required fraction. It returns one
`{subject, allocatedBunks}` per subject, in input order. It works in five
stages:

1. **Global pool.** Sum the attended and conducted lectures. Return all
   zeros when nothing was conducted. Otherwise the pool is
   `max(0, floor((attended - p * conducted) / p))`.
2. **Per-subject analysis.** Each subject gets a signed `buffer` (its
   attendance fraction minus `p`) and a ceiling,
   `maxSafeBunks = max(0, floor(attend / p - total))`.
3. **Proportional split.** Only the subjects with a positive buffer take
   part. Each gets `floor(buffer / bufferSum * pool)`, capped at its
   ceiling.
4. **Greedy round-robin fill.** The leftover of the pool is handed out one
   unit at a time, in list order, to subjects below their ceiling. A scan
   stops as soon as the leftover reaches zero. The loop stops after a scan
   that adds nothing.
5. **Assembly.** Each input subject gets the allocation of the first
   distributed entry with its label, or 0.

The model has three modules:

- `Greedy` (greedy.dfy) is stage 4. `Pass` is one scan and `Fill` is the
  whole loop, both as functions over sequences. `RedistributeLeftover` is
  the loop as `calculateSmartBunks` runs it: nested `while` loops over an array of
  allocations, with the same increments and the same two `break`s. It is
  proved equal to `Fill`. Lemmas prove the bounds, conservation, the exit
  condition and round-robin fairness about `Pass` and `Fill`.
- `Bunks` (bunks.dfy) has the data types and stages 1, 2, 3 and 5 as
  functions. `SmartBunks` is the whole allocator as a function.
  `CalculateSmartBunks` is the allocator as a method that runs the stages
  and the in-place fill; its result is proved equal to `SmartBunks`.
- `BunkProperties` (bunk_properties.dfy) has the properties of the stages
  and of the whole allocation, and a worked case.

JavaScript `Number` arithmetic is exact `real` arithmetic here, and
`Math.floor` is `.Floor`. Counts and allocations are `int`.
`MeetsTarget(attended, conducted, p)` means `attended / conducted >= p`,
written as `p * conducted <= attended`.

Worked by hand, the case A 40/50, B 18/20 at 0.75 has a pool of
floor(5.5 / 0.75) = 7. The split gives 1 and 4, both leftover units go to
A, and the result is A=3, B=4 (`BunkProperties.WorkedExample`). The same
numbers come out under IEEE-754 arithmetic, because 0.75 * 70 = 52.5 and
18 / 0.75 = 24 are exact there.

## Model

| member | source | states |
|---|---|---|
| Greedy.Pass | src.js:66-75 | One scan keeps the number of entries, never raises the leftover, keeps a positive leftover non-negative, and returns `added` true exactly when it was already true or the scan placed at least one unit. |
| Greedy.Fill | src.js:63-78 | The whole redistribution keeps the number of entries; it terminates because each further scan runs on a smaller positive leftover. |
| Greedy.RedistributeLeftover | src.js:63-78 | The in-place loop over the allocation array leaves exactly the allocations and leftover that `Fill` specifies. |
| Greedy.PassInvariant | src.js:66-75 | A scan keeps each allocation between its old value and its ceiling, moves units one for one from the leftover to the allocations, and a scan that adds nothing found every subject it visited at its ceiling. |
| Greedy.FillInvariant | src.js:63-78 | The loop keeps each allocation between its old value and its ceiling, conserves allocations plus leftover, never drives the leftover below 0, and exits with the leftover 0 or every subject saturated. |
| Greedy.FillFair | src.js:63-78 | The units are handed out round-robin in list order: a subject left below its ceiling got at least as many extra units as every later subject and at most one fewer than every earlier one. |
| Bunks.TotalBunksAvailable | src.js:28-29 | The global pool is never negative. |
| Bunks.MaxSafeBunks | src.js:35 | A subject's ceiling is never negative. |
| Bunks.SafeSubjects | src.js:41 | The filter keeps at most as many subjects as it is given, and every subject it keeps has a positive buffer. |
| Bunks.BufferSum | src.js:44 | For positive buffers, the buffer sum is positive exactly when the list is non-empty, so the weights never divide by zero. |
| Bunks.Proportional | src.js:47-57 | The split gives exactly one share per safe subject. |
| Bunks.ProportionalShares | src.js:47-57 | Each share keeps its subject's label and ceiling and is never above that ceiling; with positive buffers, a non-negative pool and non-negative ceilings it is never negative. |
| Bunks.SmartBunks | src.js:13-91 | The result has one entry per input subject with the same labels in the same order, and every allocation is 0 when nothing was conducted. |
| Bunks.CalculateSmartBunks | src.js:13-91 | The method, with the in-place fill, returns exactly `SmartBunks`. |
| Bunks.SumAttend | src.js:16 | No contract of its own: the sum of the attended counts; `BunkProperties.NothingConducted` states that it is 0 when nothing was conducted. |
| Bunks.SumTotal | src.js:17 | No contract of its own: the sum of the conducted counts; `BunkProperties.NonNegativeTotal` states that it is never negative for non-negative counts. |
| Bunks.ZeroAllocations | src.js:20-25 | No contract of its own: the all-zero result; `Bunks.SmartBunks` states that it keeps the labels and gives every subject 0. |
| Bunks.GlobalPool | src.js:16-29 | The pool of a whole input record is never negative; its meaning is `BunkProperties.PoolMeaning`. |
| Bunks.Buffer | src.js:33-34 | No contract of its own: the attendance fraction minus the target; `BunkProperties.BufferMeaning` states when it is positive. |
| Bunks.Analyze | src.js:32-38 | No contract of its own: one subject with its buffer and ceiling; `BunkProperties.SubjectWithinCeiling` uses the ceiling it records. |
| Bunks.AnalyzeAll | src.js:32-38 | No contract of its own: the analysis of every subject in order; `BunkProperties.Stages` states what the later stages make of it. |
| Bunks.ShareOf | src.js:48-56 | No contract of its own: one capped, floored share; `Bunks.ProportionalShares` bounds it by the ceiling. |
| Bunks.Distribution | src.js:41-57 | No contract of its own: the split of the pool among the safe subjects of an input record; `BunkProperties.InitialLeftover` states its bounds. |
| Bunks.Redistribution | src.js:60-78 | No contract of its own: the greedy fill of what the split leaves over; `BunkProperties.Stages` states its bounds, conservation and exit condition. |
| Bunks.Lookup | src.js:82-86 | No contract of its own: the `find` by label with 0 when nothing matches; `BunkProperties.LookupFirst` and `BunkProperties.LookupAbsent` state its meaning. |
| Bunks.Assemble | src.js:81-88 | No contract of its own: one result per input subject; `BunkProperties.LookupAt` and `BunkProperties.AssembleTotal` state what each entry and the total are. |
| BunkProperties.BufferMeaning | src.js:33-34 | A subject's buffer is positive exactly when its attendance is strictly above the target. |
| BunkProperties.PoolMeaning | src.js:28-29 | For every positive count `x`, `x` fits in the pool exactly when the combined record still meets the target after `x` more missed lectures. |
| BunkProperties.WithinPool | src.js:28-29 | Any result adding up to at most the pool keeps the combined record at the target. |
| BunkProperties.MaxSafeMeaning | src.js:35 | For every positive count `x`, `x` fits under a subject's ceiling exactly when that subject still meets the target after `x` more missed lectures. |
| BunkProperties.WithinCeiling | src.js:35 | Any positive count up to a subject's ceiling keeps that subject at the target. |
| BunkProperties.MaxSafeMonotone | src.js:35 | With the conducted count and the target fixed, attending more never lowers the ceiling. |
| BunkProperties.ProportionalWithinPool | src.js:44-57 | The capped, floored shares add up to at most the pool times the fraction of the buffer sum the subjects hold. |
| BunkProperties.SplitFits | src.js:44-57 | Over all safe subjects, every share lies between 0 and its ceiling and the shares add up to at most the pool. |
| BunkProperties.InitialLeftover | src.js:60-61 | After the split, the allocations lie between 0 and their ceilings and add up to at most the pool, so the initial leftover is never negative. |
| BunkProperties.SplitAndFill | src.js:47-78 | After the split and the fill, each allocation lies between 0 and its ceiling, allocations plus leftover equal the pool, the leftover is non-negative, and it is positive only when every subject is saturated. |
| BunkProperties.Stages | src.js:28-78 | The same facts for the pool and the safe subjects of an input record, plus the labels of the distributed list. |
| BunkProperties.SafeSubjectsAppend | src.js:41 | Filtering a concatenation is concatenating the filtered parts. |
| BunkProperties.SafeSubjectsFrom | src.js:41 | Every subject the filter keeps comes from its input. |
| BunkProperties.LookupFirst | src.js:82 | The lookup by label returns the allocation of the first entry with that label. |
| BunkProperties.LookupAbsent | src.js:82-86 | A label that no entry carries is given 0. |
| BunkProperties.LookupAt | src.js:81-88 | With unique labels, a subject with a positive buffer is given the allocation of its own entry (its position among the safe subjects), and any other subject 0. |
| BunkProperties.AssembleTotal | src.js:81-88 | With unique labels, the assembled result adds up to exactly the allocations of the distributed list. |
| BunkProperties.SubjectWithinCeiling | src.js:47-88 | With unique labels and something conducted, each subject's final allocation lies between 0 and its own ceiling. |
| BunkProperties.SubjectMeetsTarget | src.js:32-88 | With unique labels, each subject's allocation lies between 0 and its ceiling, and a positive allocation keeps that subject at the target. |
| BunkProperties.SmartBunksWithinCeilings | src.js:32-88 | With unique labels, every subject gets between 0 and its own ceiling, so a subject given any bunks still meets the target after taking them all. |
| BunkProperties.SmartBunksUnsafeGetNothing | src.js:41-88 | With unique labels, a subject whose attendance is not above the target gets 0. |
| BunkProperties.SmartBunksConservation | src.js:28-88 | With unique labels, the allocations add up to at most the pool, and to exactly the pool unless every subject above the target is at its ceiling. |
| BunkProperties.SmartBunksCombinedTarget | src.js:28-88 | With unique labels, the allocations taken together keep the combined record at the target. |
| BunkProperties.WorkedExample | src.js:13-91 | For A 40/50 and B 18/20 at 0.75 the result is A=3, B=4. |

## Left out

- IEEE-754 `Number` arithmetic: ratios, weights and the pool are exact reals, so rounding in `requiredPercentage * totalConducted` or `buffer / bufferSum` is not modelled.
- A subject with `total == 0` while the overall total is non-zero: `Admissible` excludes it, so the model does not cover a newly added subject with nothing conducted yet. Under the admissible counts such a subject is 0/0; JavaScript computes a `NaN` buffer, `NaN > 0` is false, so it would get 0 and the other subjects would be unaffected.
- Malformed input (negative counts, `attend > total`, a fraction outside (0, 1]): `Admissible` excludes it rather than modelling the arithmetic.
- The default argument `requiredPercentage = 0.75`: the fraction is always passed explicitly.
- The objects of the distributed list, whose `allocatedBunks` field the loop updates in place: the model keeps an immutable list of shares and a separate `array<int>` of allocations in the same order. No other reference to those objects exists, so no aliasing is lost.
- Greedy.RedistributeLeftover: its loop invariants tie the array to `Fill` rather than state conservation of the pool directly; conservation, the bounds and the exit condition are proved about `Fill` (`Greedy.FillInvariant`), which the method's result equals.
- BunkProperties.SmartBunksWithinCeilings: requires unique labels. With a repeated label, `find` gives every copy the first copy's allocation, which `Bunks.Lookup` models but this lemma does not cover.
- BunkProperties.SmartBunksUnsafeGetNothing: requires unique labels, for the same reason.
- BunkProperties.SmartBunksConservation: requires unique labels, for the same reason.
- BunkProperties.SmartBunksCombinedTarget: requires unique labels, for the same reason.
