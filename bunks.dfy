/** The Smart Bunk allocator: given each subject's attended and conducted
    lecture counts and a required attendance fraction, decide how many
    future lectures ("bunks") the student may skip in each subject.

    Numbers that the JavaScript function `calculateSmartBunks` computes
    with floating point are exact `real`s here;
    `Math.floor` is `.Floor`. */
module Bunks {
  import opened Greedy

  /** One input record: a subject label with lectures attended and conducted. */
  datatype Subject = Subject(subject: string, attend: int, total: int)

  /** A subject with its signed margin over the target and its own ceiling. */
  datatype SubjectInfo = SubjectInfo(subject: string, attend: int, total: int, buffer: real, maxSafeBunks: int)

  /** An entry of the distributed list: a safe subject's share and its ceiling. */
  datatype Share = Share(subject: string, allocatedBunks: int, maxSafeBunks: int)

  /** One output record. */
  datatype Allocation = Allocation(subject: string, allocatedBunks: int)

  function Max(x: int, y: int): int { if x < y then y else x }

  function Min(x: int, y: int): int { if x < y then x else y }

  /** The inputs the allocator is meant for: a required fraction in (0, 1],
      counts with 0 <= attend <= total, and, unless nothing was conducted at
      all, every subject with at least one conducted lecture. */
  predicate Admissible(data: seq<Subject>, p: real)
  {
    && 0.0 < p <= 1.0
    && (forall i :: 0 <= i < |data| ==> 0 <= data[i].attend <= data[i].total)
    && (SumTotal(data) != 0 ==> forall i :: 0 <= i < |data| ==> data[i].total > 0)
  }

  /** Subject labels are pairwise distinct. */
  predicate UniqueLabels(data: seq<Subject>)
  {
    forall i, j :: 0 <= i < j < |data| ==> data[i].subject != data[j].subject
  }

  /** A record of `attended` lectures out of `conducted` meets the target
      fraction `p`: attended / conducted >= p, stated without dividing. */
  predicate MeetsTarget(attended: int, conducted: int, p: real)
  {
    p * conducted as real <= attended as real
  }

  // Stage 1: the global pool

  function SumAttend(data: seq<Subject>): int
  {
    if data == [] then 0 else data[0].attend + SumAttend(data[1..])
  }

  function SumTotal(data: seq<Subject>): int
  {
    if data == [] then 0 else data[0].total + SumTotal(data[1..])
  }

  /** How many more lectures the combined record can miss and keep the
      combined ratio at the target; never negative. */
  function TotalBunksAvailable(totalAttended: int, totalConducted: int, p: real): (pool: int)
    requires p > 0.0
    ensures pool >= 0
  {
    var maxBunks := ((totalAttended as real - p * totalConducted as real) / p).Floor;
    Max(0, maxBunks)
  }

  /** The pool of the whole input record; never negative. */
  function GlobalPool(data: seq<Subject>, p: real): (pool: int)
    requires p > 0.0
    ensures pool >= 0
  {
    TotalBunksAvailable(SumAttend(data), SumTotal(data), p)
  }

  // Stage 2: per-subject analysis

  /** Current attendance fraction minus the target. */
  function Buffer(attend: int, total: int, p: real): real
    requires total > 0
  {
    attend as real / total as real - p
  }

  /** How many more lectures this subject alone can miss and keep its own
      ratio at the target; never negative. */
  function MaxSafeBunks(attend: int, total: int, p: real): (m: int)
    requires p > 0.0
    ensures m >= 0
  {
    Max(0, (attend as real / p - total as real).Floor)
  }

  function Analyze(s: Subject, p: real): SubjectInfo
    requires s.total > 0 && p > 0.0
  {
    SubjectInfo(s.subject, s.attend, s.total, Buffer(s.attend, s.total, p), MaxSafeBunks(s.attend, s.total, p))
  }

  function AnalyzeAll(data: seq<Subject>, p: real): (infos: seq<SubjectInfo>)
    requires p > 0.0 && forall i :: 0 <= i < |data| ==> data[i].total > 0
  {
    seq(|data|, i requires 0 <= i < |data| => Analyze(data[i], p))
  }

  // Stage 3: proportional split among the subjects with a positive buffer

  /** The subjects with a positive buffer, in input order. */
  function SafeSubjects(infos: seq<SubjectInfo>): (r: seq<SubjectInfo>)
    ensures |r| <= |infos|
    ensures forall j :: 0 <= j < |r| ==> r[j].buffer > 0.0
  {
    if infos == [] then []
    else (if infos[0].buffer > 0.0 then [infos[0]] else []) + SafeSubjects(infos[1..])
  }

  /** The sum of the buffers; positive exactly when a list of positive
      buffers is non-empty, so the weights below never divide by zero. */
  function BufferSum(safe: seq<SubjectInfo>): (r: real)
    ensures (forall j :: 0 <= j < |safe| ==> safe[j].buffer > 0.0) ==> (r > 0.0 <==> safe != [])
  {
    if safe == [] then 0.0 else safe[0].buffer + BufferSum(safe[1..])
  }

  /** A safe subject's proportional share of the pool, capped by its ceiling. */
  function ShareOf(s: SubjectInfo, bufferSum: real, pool: int): Share
    requires bufferSum != 0.0
  {
    var weight := s.buffer / bufferSum;
    var tentative := (weight * pool as real).Floor;
    Share(s.subject, Min(tentative, s.maxSafeBunks), s.maxSafeBunks)
  }

  /** The distributed list: one share per safe subject, in order. */
  function Proportional(safe: seq<SubjectInfo>, bufferSum: real, pool: int): (r: seq<Share>)
    requires safe == [] || bufferSum != 0.0
    ensures |r| == |safe|
  {
    if safe == [] then []
    else [ShareOf(safe[0], bufferSum, pool)] + Proportional(safe[1..], bufferSum, pool)
  }

  /** Each share keeps its subject's label and ceiling and is never above
      that ceiling; it is never negative when the weights and the pool are
      not. */
  lemma {:induction false} ProportionalShares(safe: seq<SubjectInfo>, bufferSum: real, pool: int)
    requires safe == [] || bufferSum != 0.0
    ensures var r := Proportional(safe, bufferSum, pool);
      && (forall j :: 0 <= j < |r| ==>
            && r[j].subject == safe[j].subject
            && r[j].maxSafeBunks == safe[j].maxSafeBunks
            && r[j].allocatedBunks <= r[j].maxSafeBunks)
      && (bufferSum > 0.0 && pool >= 0 && (forall j :: 0 <= j < |safe| ==> safe[j].buffer > 0.0 && safe[j].maxSafeBunks >= 0) ==>
            forall j :: 0 <= j < |r| ==> r[j].allocatedBunks >= 0)
  {
    if safe != [] {
      var r := Proportional(safe, bufferSum, pool);
      var first := ShareOf(safe[0], bufferSum, pool);
      ProportionalShares(safe[1..], bufferSum, pool);
      assert r == [first] + Proportional(safe[1..], bufferSum, pool);
      if bufferSum > 0.0 && pool >= 0 && safe[0].buffer > 0.0 {
        assert safe[0].buffer / bufferSum * pool as real >= 0.0;
      }
    }
  }

  function Allocs(shares: seq<Share>): seq<int>
  {
    seq(|shares|, j requires 0 <= j < |shares| => shares[j].allocatedBunks)
  }

  function Ceilings(shares: seq<Share>): seq<int>
  {
    seq(|shares|, j requires 0 <= j < |shares| => shares[j].maxSafeBunks)
  }

  /** The distributed list with its allocations replaced. */
  function WithAllocs(shares: seq<Share>, allocs: seq<int>): seq<Share>
    requires |allocs| == |shares|
  {
    seq(|shares|, j requires 0 <= j < |shares| => shares[j].(allocatedBunks := allocs[j]))
  }

  /** The distributed list produced by the proportional split. */
  function Distribution(data: seq<Subject>, p: real): seq<Share>
    requires Admissible(data, p) && SumTotal(data) != 0
  {
    var safe := SafeSubjects(AnalyzeAll(data, p));
    Proportional(safe, BufferSum(safe), GlobalPool(data, p))
  }

  // Stage 4: the greedy fill of the leftover (module Greedy)

  /** The allocations after the greedy fill, and the leftover it could not place. */
  function Redistribution(data: seq<Subject>, p: real): (seq<int>, int)
    requires Admissible(data, p) && SumTotal(data) != 0
  {
    var distributed := Distribution(data, p);
    var allocs := Allocs(distributed);
    Fill(allocs, Ceilings(distributed), GlobalPool(data, p) - Sum(allocs))
  }

  // Stage 5: result assembly

  /** The allocation of the first distributed entry with this label, or 0. */
  function Lookup(distributed: seq<Share>, name: string): int
  {
    if distributed == [] then 0
    else if distributed[0].subject == name then distributed[0].allocatedBunks
    else Lookup(distributed[1..], name)
  }

  function Assemble(data: seq<Subject>, distributed: seq<Share>): seq<Allocation>
  {
    seq(|data|, i requires 0 <= i < |data| => Allocation(data[i].subject, Lookup(distributed, data[i].subject)))
  }

  function ZeroAllocations(data: seq<Subject>): seq<Allocation>
  {
    seq(|data|, i requires 0 <= i < |data| => Allocation(data[i].subject, 0))
  }

  /** The whole allocation: one result per input subject, with its label,
      in input order; all zero when no lecture was conducted at all. */
  function SmartBunks(data: seq<Subject>, p: real): (r: seq<Allocation>)
    requires Admissible(data, p)
    ensures |r| == |data|
    ensures forall i :: 0 <= i < |data| ==> r[i].subject == data[i].subject
    ensures SumTotal(data) == 0 ==> forall i :: 0 <= i < |r| ==> r[i].allocatedBunks == 0
  {
    if SumTotal(data) == 0 then ZeroAllocations(data)
    else Assemble(data, WithAllocs(Distribution(data, p), Redistribution(data, p).0))
  }

  /** The allocator as `calculateSmartBunks` runs it: pure stages, then
      the greedy fill in place on an array holding the allocations of the
      `distributed` list, then the assembly. */
  method CalculateSmartBunks(data: seq<Subject>, requiredPercentage: real) returns (result: seq<Allocation>)
    requires Admissible(data, requiredPercentage)
    ensures result == SmartBunks(data, requiredPercentage)
  {
    var totalAttended := SumAttend(data);
    var totalConducted := SumTotal(data);
    if totalConducted == 0 {
      return ZeroAllocations(data);
    }
    var totalBunksAvailable := TotalBunksAvailable(totalAttended, totalConducted, requiredPercentage);
    assert totalBunksAvailable == GlobalPool(data, requiredPercentage);
    var subjectInfo := AnalyzeAll(data, requiredPercentage);
    var safeSubjects := SafeSubjects(subjectInfo);
    var bufferSum := BufferSum(safeSubjects);
    var distributed := Proportional(safeSubjects, bufferSum, totalBunksAvailable);
    var initial := Allocs(distributed);
    var n := |initial|;
    var bunks := new int[n](j requires 0 <= j < n => initial[j]);
    assert bunks[..] == initial;
    var leftover := totalBunksAvailable - Sum(initial);
    assert distributed == Distribution(data, requiredPercentage);
    leftover := RedistributeLeftover(bunks, Ceilings(distributed), leftover);
    assert bunks[..] == Redistribution(data, requiredPercentage).0;
    result := Assemble(data, WithAllocs(distributed, bunks[..]));
  }
}
