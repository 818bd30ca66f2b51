/** What the allocator promises: the meaning of the pool and of each
    subject's ceiling, the ceilings respected, conservation of the pool,
    the shape of the result, and a worked case. */
module BunkProperties {
  import opened Greedy
  import opened Bunks

  /** Sum of the allocations in a result. */
  function AllocatedTotal(r: seq<Allocation>): int
  {
    if r == [] then 0 else r[0].allocatedBunks + AllocatedTotal(r[1..])
  }

  // The meaning of the two floors

  /** For every positive number `x` of further absences: `x` fits in the
      global pool exactly when the combined record, after `x` more conducted
      and unattended lectures, still meets the target. */
  lemma {:induction false} PoolMeaning(totalAttended: int, totalConducted: int, p: real, x: int)
    requires p > 0.0 && x >= 1
    ensures x <= TotalBunksAvailable(totalAttended, totalConducted, p)
        <==> MeetsTarget(totalAttended, totalConducted + x, p)
  {
    var q := (totalAttended as real - p * totalConducted as real) / p;
    assert q * p == totalAttended as real - p * totalConducted as real;
    assert x as real <= q <==> x as real * p <= q * p;
  }

  /** For every positive number `x` of further absences: `x` is within the
      subject's ceiling exactly when its own ratio after missing `x` more
      lectures still meets the target. */
  lemma {:induction false} MaxSafeMeaning(attend: int, total: int, p: real, x: int)
    requires p > 0.0 && x >= 1
    ensures x <= MaxSafeBunks(attend, total, p) <==> MeetsTarget(attend, total + x, p)
  {
    var q := attend as real / p - total as real;
    assert q * p == attend as real - p * total as real;
    assert x as real <= q <==> x as real * p <= q * p;
  }

  /** A subject's buffer is positive exactly when its attendance is
      strictly above the target. */
  lemma {:induction false} BufferMeaning(attend: int, total: int, p: real)
    requires total > 0
    ensures Buffer(attend, total, p) > 0.0 <==> p * total as real < attend as real
  {
    var f := attend as real / total as real;
    assert f * total as real == attend as real;
    assert f > p <==> f * total as real > p * total as real;
  }

  /** With the conducted count and the target fixed, attending more never
      lowers a subject's ceiling. */
  lemma {:induction false} MaxSafeMonotone(attend: int, attend': int, total: int, p: real)
    requires p > 0.0 && attend <= attend'
    ensures MaxSafeBunks(attend, total, p) <= MaxSafeBunks(attend', total, p)
  {
    assert attend as real / p <= attend' as real / p by {
      assert attend' as real / p - attend as real / p == (attend' - attend) as real / p;
    }
  }

  // Stage 3: the proportional shares fit in the pool

  /** A share is at most its weight times the pool. */
  lemma {:induction false} ShareBelowWeight(s: SubjectInfo, bufferSum: real, pool: int)
    requires bufferSum != 0.0
    ensures ShareOf(s, bufferSum, pool).allocatedBunks as real <= s.buffer / bufferSum * pool as real
  {
  }

  /** Adding one subject's share and weight to those of the rest. */
  lemma {:induction false} WeightsAdd(first: int, others: int, b: real, rest: real, bufferSum: real, pool: int)
    requires bufferSum > 0.0
    requires first as real <= b / bufferSum * pool as real
    requires others as real <= rest / bufferSum * pool as real
    ensures (first + others) as real <= (b + rest) / bufferSum * pool as real
  {
    assert (b + rest) / bufferSum == b / bufferSum + rest / bufferSum;
  }

  /** The split of a non-empty list: the first share, then the rest. */
  lemma {:induction false} ProportionalFirst(safe: seq<SubjectInfo>, bufferSum: real, pool: int)
    requires safe != [] && bufferSum != 0.0
    ensures Sum(Allocs(Proportional(safe, bufferSum, pool)))
         == ShareOf(safe[0], bufferSum, pool).allocatedBunks + Sum(Allocs(Proportional(safe[1..], bufferSum, pool)))
  {
    var r := Proportional(safe, bufferSum, pool);
    assert r == [ShareOf(safe[0], bufferSum, pool)] + Proportional(safe[1..], bufferSum, pool);
    assert Allocs(r)[1..] == Allocs(Proportional(safe[1..], bufferSum, pool));
  }

  /** The capped, floored shares add up to at most the pool scaled by the
      fraction of the buffer sum these subjects hold. */
  lemma {:induction false} ProportionalWithinPool(safe: seq<SubjectInfo>, bufferSum: real, pool: int)
    requires bufferSum > 0.0 && pool >= 0
    ensures Sum(Allocs(Proportional(safe, bufferSum, pool))) as real <= BufferSum(safe) / bufferSum * pool as real
  {
    if safe == [] {
      assert Allocs(Proportional(safe, bufferSum, pool)) == [];
    } else {
      ProportionalFirst(safe, bufferSum, pool);
      ProportionalWithinPool(safe[1..], bufferSum, pool);
      ShareBelowWeight(safe[0], bufferSum, pool);
      WeightsAdd(ShareOf(safe[0], bufferSum, pool).allocatedBunks, Sum(Allocs(Proportional(safe[1..], bufferSum, pool))),
        safe[0].buffer, BufferSum(safe[1..]), bufferSum, pool);
    }
  }

  /** The shares of every safe subject together fit in the whole pool. */
  lemma {:induction false} WholePool(total: int, bufferSum: real, pool: int)
    requires bufferSum > 0.0 && total as real <= bufferSum / bufferSum * pool as real
    ensures total <= pool
  {
    assert bufferSum / bufferSum == 1.0;
  }

  /** The proportional split of a pool among subjects with positive
      buffers and non-negative ceilings: every share between 0 and its
      ceiling, all of them together at most the pool. */
  lemma {:induction false} SplitFits(safe: seq<SubjectInfo>, pool: int)
    requires pool >= 0
    requires forall j :: 0 <= j < |safe| ==> safe[j].buffer > 0.0 && safe[j].maxSafeBunks >= 0
    ensures var d := Proportional(safe, BufferSum(safe), pool);
      && Within(Allocs(d), Ceilings(d))
      && (forall j :: 0 <= j < |d| ==> Allocs(d)[j] >= 0)
      && Sum(Allocs(d)) <= pool
  {
    var bufferSum := BufferSum(safe);
    ProportionalShares(safe, bufferSum, pool);
    if safe != [] {
      ProportionalWithinPool(safe, bufferSum, pool);
      WholePool(Sum(Allocs(Proportional(safe, bufferSum, pool))), bufferSum, pool);
    } else {
      assert Allocs(Proportional(safe, bufferSum, pool)) == [];
    }
  }

  /** What the proportional split hands to the greedy fill: allocations
      between 0 and their ceilings, adding up to at most the pool, so the
      initial leftover is never negative. */
  lemma {:induction false} InitialLeftover(data: seq<Subject>, p: real)
    requires Admissible(data, p) && SumTotal(data) != 0
    ensures var d := Distribution(data, p);
      && Within(Allocs(d), Ceilings(d))
      && (forall j :: 0 <= j < |d| ==> Allocs(d)[j] >= 0)
      && Sum(Allocs(d)) <= GlobalPool(data, p)
  {
    var infos := AnalyzeAll(data, p);
    var safe := SafeSubjects(infos);
    assert forall j :: 0 <= j < |infos| ==> infos[j].maxSafeBunks >= 0;
    SafeSubjectsFrom(infos);
    SplitFits(safe, GlobalPool(data, p));
  }

  // Stage 5: the lookup by label

  function Names(s: seq<Share>): seq<string>
  {
    seq(|s|, j requires 0 <= j < |s| => s[j].subject)
  }

  function InfoNames(s: seq<SubjectInfo>): seq<string>
  {
    seq(|s|, j requires 0 <= j < |s| => s[j].subject)
  }

  ghost predicate UniqueNames(infos: seq<SubjectInfo>)
  {
    forall i, j :: 0 <= i < j < |infos| ==> infos[i].subject != infos[j].subject
  }

  lemma {:induction false} LookupFirst(distributed: seq<Share>, k: nat, name: string)
    requires k < |distributed| && distributed[k].subject == name
    requires forall j :: 0 <= j < k ==> distributed[j].subject != name
    ensures Lookup(distributed, name) == distributed[k].allocatedBunks
  {
    if k > 0 {
      LookupFirst(distributed[1..], k - 1, name);
    }
  }

  lemma {:induction false} LookupAbsent(distributed: seq<Share>, name: string)
    requires name !in Names(distributed)
    ensures Lookup(distributed, name) == 0
  {
    if distributed != [] {
      assert distributed[0].subject == Names(distributed)[0];
      assert Names(distributed[1..]) == Names(distributed)[1..];
      LookupAbsent(distributed[1..], name);
    }
  }

  lemma {:induction false} SafeSubjectsAppend(a: seq<SubjectInfo>, b: seq<SubjectInfo>)
    ensures SafeSubjects(a + b) == SafeSubjects(a) + SafeSubjects(b)
  {
    if a == [] {
      assert a + b == b;
    } else {
      assert (a + b)[0] == a[0] && (a + b)[1..] == a[1..] + b;
      SafeSubjectsAppend(a[1..], b);
    }
  }

  /** Every safe subject is one of the subjects it was filtered from. */
  lemma {:induction false} SafeSubjectsFrom(infos: seq<SubjectInfo>)
    ensures forall j :: 0 <= j < |SafeSubjects(infos)| ==> SafeSubjects(infos)[j] in infos
  {
    if infos != [] {
      SafeSubjectsFrom(infos[1..]);
      var r := SafeSubjects(infos);
      forall j | 0 <= j < |r|
        ensures r[j] in infos
      {
        if infos[0].buffer > 0.0 && j == 0 {
          assert r[0] == infos[0];
        } else {
          var k := if infos[0].buffer > 0.0 then j - 1 else j;
          assert r[j] == SafeSubjects(infos[1..])[k];
        }
      }
    }
  }

  /** The label of a subject does not occur among the safe subjects that
      precede or follow it. */
  lemma {:induction false} OtherNames(infos: seq<SubjectInfo>, i: nat, part: seq<SubjectInfo>)
    requires UniqueNames(infos) && i < |infos|
    requires part == infos[..i] || part == infos[i + 1..]
    ensures forall j :: 0 <= j < |SafeSubjects(part)| ==> SafeSubjects(part)[j].subject != infos[i].subject
  {
    SafeSubjectsFrom(part);
    forall j | 0 <= j < |SafeSubjects(part)|
      ensures SafeSubjects(part)[j].subject != infos[i].subject
    {
      var x := SafeSubjects(part)[j];
      var m :| 0 <= m < |part| && part[m] == x;
      if part == infos[..i] {
        assert x == infos[m];
      } else {
        assert x == infos[i + 1 + m];
      }
    }
  }

  /** The safe subjects of a list split around position `i`. */
  lemma {:induction false} SafeSplit(infos: seq<SubjectInfo>, i: nat)
    requires i < |infos|
    ensures SafeSubjects(infos)
         == SafeSubjects(infos[..i]) + (if infos[i].buffer > 0.0 then [infos[i]] else []) + SafeSubjects(infos[i + 1..])
  {
    assert infos == infos[..i] + ([infos[i]] + infos[i + 1..]);
    SafeSubjectsAppend(infos[..i], [infos[i]] + infos[i + 1..]);
    SafeSubjectsAppend([infos[i]], infos[i + 1..]);
    assert [infos[i]][1..] == [];
  }

  lemma {:induction false} SameNames(distributed: seq<Share>, safe: seq<SubjectInfo>)
    requires Names(distributed) == InfoNames(safe)
    ensures |distributed| == |safe|
    ensures forall j :: 0 <= j < |safe| ==> distributed[j].subject == safe[j].subject
  {
    assert |distributed| == |Names(distributed)| == |InfoNames(safe)| == |safe|;
    forall j | 0 <= j < |safe|
      ensures distributed[j].subject == safe[j].subject
    {
      assert Names(distributed)[j] == InfoNames(safe)[j];
    }
  }

  /** A label first found at position `|left|` of the safe list is looked
      up there in the distributed list. */
  lemma {:induction false} LookupMiddle(distributed: seq<Share>, left: seq<SubjectInfo>, x: SubjectInfo, right: seq<SubjectInfo>)
    requires Names(distributed) == InfoNames(left + [x] + right)
    requires forall j :: 0 <= j < |left| ==> left[j].subject != x.subject
    ensures |left| < |distributed|
    ensures Lookup(distributed, x.subject) == distributed[|left|].allocatedBunks
  {
    var safe := left + [x] + right;
    SameNames(distributed, safe);
    forall j | 0 <= j < |left|
      ensures distributed[j].subject != x.subject
    {
      assert safe[j] == left[j];
    }
    assert safe[|left|] == x;
    LookupFirst(distributed, |left|, x.subject);
  }

  /** A label found in neither part of the safe list is looked up as 0. */
  lemma {:induction false} LookupNeither(distributed: seq<Share>, left: seq<SubjectInfo>, right: seq<SubjectInfo>, name: string)
    requires Names(distributed) == InfoNames(left + right)
    requires forall j :: 0 <= j < |left| ==> left[j].subject != name
    requires forall j :: 0 <= j < |right| ==> right[j].subject != name
    ensures Lookup(distributed, name) == 0
  {
    var safe := left + right;
    SameNames(distributed, safe);
    forall j | 0 <= j < |safe|
      ensures Names(distributed)[j] != name
    {
      if j < |left| {
        assert safe[j] == left[j];
      } else {
        assert safe[j] == right[j - |left|];
      }
    }
    LookupAbsent(distributed, name);
  }

  /** With unique labels, the assembly gives a safe subject the allocation
      of its own entry in the distributed list, and every other subject 0. */
  lemma {:induction false} LookupAt(infos: seq<SubjectInfo>, distributed: seq<Share>, i: nat)
    requires UniqueNames(infos) && i < |infos|
    requires Names(distributed) == InfoNames(SafeSubjects(infos))
    ensures var k := |SafeSubjects(infos[..i])|;
      if infos[i].buffer > 0.0 then
        && k < |distributed| == |SafeSubjects(infos)|
        && SafeSubjects(infos)[k] == infos[i]
        && Lookup(distributed, infos[i].subject) == distributed[k].allocatedBunks
      else Lookup(distributed, infos[i].subject) == 0
  {
    var left, right := SafeSubjects(infos[..i]), SafeSubjects(infos[i + 1..]);
    SafeSplit(infos, i);
    SameNames(distributed, SafeSubjects(infos));
    OtherNames(infos, i, infos[..i]);
    OtherNames(infos, i, infos[i + 1..]);
    if infos[i].buffer > 0.0 {
      assert (left + [infos[i]] + right)[|left|] == infos[i];
      LookupMiddle(distributed, left, infos[i], right);
    } else {
      assert SafeSubjects(infos) == left + right;
      LookupNeither(distributed, left, right, infos[i].subject);
    }
  }

  /** Entries the looked-up labels never match can be dropped. */
  lemma {:induction false} AssembleSkip(data: seq<Subject>, distributed: seq<Share>)
    requires distributed != [] && forall i :: 0 <= i < |data| ==> data[i].subject != distributed[0].subject
    ensures Assemble(data, distributed) == Assemble(data, distributed[1..])
  {
  }

  /** The first subject is safe: it takes the first distributed entry,
      and the rest of the list serves the rest of the subjects. */
  lemma {:induction false} AssembleFirstSafe(data: seq<Subject>, infos: seq<SubjectInfo>, distributed: seq<Share>)
    requires |infos| == |data| && forall i :: 0 <= i < |data| ==> infos[i].subject == data[i].subject
    requires UniqueNames(infos)
    requires Names(distributed) == InfoNames(SafeSubjects(infos))
    requires data != [] && infos[0].buffer > 0.0
    ensures distributed != []
    ensures Lookup(distributed, data[0].subject) == distributed[0].allocatedBunks
    ensures Assemble(data[1..], distributed) == Assemble(data[1..], distributed[1..])
    ensures Names(distributed[1..]) == InfoNames(SafeSubjects(infos[1..]))
    ensures Sum(Allocs(distributed)) == distributed[0].allocatedBunks + Sum(Allocs(distributed[1..]))
  {
    assert SafeSubjects(infos) == [infos[0]] + SafeSubjects(infos[1..]);
    assert |distributed| == |Names(distributed)| > 0;
    assert distributed[0].subject == Names(distributed)[0] == data[0].subject;
    assert Names(distributed[1..]) == Names(distributed)[1..];
    forall i | 0 <= i < |data| - 1
      ensures data[1..][i].subject != distributed[0].subject
    {
      assert data[1..][i].subject == infos[i + 1].subject;
    }
    AssembleSkip(data[1..], distributed);
    assert Allocs(distributed)[1..] == Allocs(distributed[1..]);
  }

  /** The first subject is not safe: it gets nothing, and the whole list
      serves the rest of the subjects. */
  lemma {:induction false} AssembleFirstUnsafe(data: seq<Subject>, infos: seq<SubjectInfo>, distributed: seq<Share>)
    requires |infos| == |data| && forall i :: 0 <= i < |data| ==> infos[i].subject == data[i].subject
    requires UniqueNames(infos)
    requires Names(distributed) == InfoNames(SafeSubjects(infos))
    requires data != [] && infos[0].buffer <= 0.0
    ensures Lookup(distributed, data[0].subject) == 0
    ensures Names(distributed) == InfoNames(SafeSubjects(infos[1..]))
  {
    var name := data[0].subject;
    assert SafeSubjects(infos) == SafeSubjects(infos[1..]);
    OtherNames(infos, 0, infos[0 + 1..]);
    assert infos[1..] == infos[0 + 1..];
    forall j | 0 <= j < |distributed|
      ensures Names(distributed)[j] != name
    {
      assert InfoNames(SafeSubjects(infos))[j] == SafeSubjects(infos)[j].subject;
    }
    LookupAbsent(distributed, name);
  }

  /** With unique labels, the assembled result adds up to exactly the
      allocations of the distributed list. */
  lemma {:induction false} AssembleTotal(data: seq<Subject>, infos: seq<SubjectInfo>, distributed: seq<Share>)
    requires |infos| == |data| && forall i :: 0 <= i < |data| ==> infos[i].subject == data[i].subject
    requires UniqueNames(infos)
    requires Names(distributed) == InfoNames(SafeSubjects(infos))
    ensures AllocatedTotal(Assemble(data, distributed)) == Sum(Allocs(distributed))
  {
    var r := Assemble(data, distributed);
    if data == [] {
      assert |distributed| == |Names(distributed)| == 0;
      assert Allocs(distributed) == [];
    } else {
      assert r[1..] == Assemble(data[1..], distributed);
      if infos[0].buffer > 0.0 {
        AssembleFirstSafe(data, infos, distributed);
        AssembleTotal(data[1..], infos[1..], distributed[1..]);
      } else {
        AssembleFirstUnsafe(data, infos, distributed);
        AssembleTotal(data[1..], infos[1..], distributed);
      }
    }
  }

  // The stages together

  /** The proportional split of a pool followed by the greedy fill of
      its leftover: every final allocation between 0 and its subject's
      ceiling, the pool conserved, and a positive leftover only when every
      subject is at its ceiling. */
  lemma {:induction false} SplitAndFill(safe: seq<SubjectInfo>, pool: int)
    requires pool >= 0
    requires forall j :: 0 <= j < |safe| ==> safe[j].buffer > 0.0 && safe[j].maxSafeBunks >= 0
    ensures var d := Proportional(safe, BufferSum(safe), pool);
      var (filled, rest) := Fill(Allocs(d), Ceilings(d), pool - Sum(Allocs(d)));
      && |d| == |safe| == |filled|
      && (forall j :: 0 <= j < |d| ==> 0 <= filled[j] <= d[j].maxSafeBunks == safe[j].maxSafeBunks)
      && Sum(filled) + rest == pool
      && 0 <= rest
      && (rest == 0 || forall j :: 0 <= j < |d| ==> filled[j] == d[j].maxSafeBunks)
      && Names(WithAllocs(d, filled)) == InfoNames(safe)
      && Allocs(WithAllocs(d, filled)) == filled
  {
    var d := Proportional(safe, BufferSum(safe), pool);
    SplitFits(safe, pool);
    ProportionalShares(safe, BufferSum(safe), pool);
    var initial := Allocs(d);
    FillInvariant(initial, Ceilings(d), pool - Sum(initial));
    var filled := Fill(initial, Ceilings(d), pool - Sum(initial)).0;
    assert forall j :: 0 <= j < |d| ==> 0 <= initial[j] <= filled[j];
    assert Names(WithAllocs(d, filled)) == InfoNames(safe);
    assert Allocs(WithAllocs(d, filled)) == filled;
  }

  /** The facts about the stages that the properties below rely on. */
  lemma {:induction false} Stages(data: seq<Subject>, p: real)
    requires Admissible(data, p) && SumTotal(data) != 0
    ensures var d := Distribution(data, p);
      var (filled, rest) := Redistribution(data, p);
      var safe := SafeSubjects(AnalyzeAll(data, p));
      && |d| == |safe| == |filled|
      && (forall j :: 0 <= j < |d| ==> 0 <= filled[j] <= d[j].maxSafeBunks == safe[j].maxSafeBunks)
      && Sum(filled) + rest == GlobalPool(data, p)
      && 0 <= rest
      && (rest == 0 || forall j :: 0 <= j < |d| ==> filled[j] == d[j].maxSafeBunks)
      && Names(WithAllocs(d, filled)) == InfoNames(safe)
      && Allocs(WithAllocs(d, filled)) == filled
  {
    var infos := AnalyzeAll(data, p);
    assert forall j :: 0 <= j < |infos| ==> infos[j].maxSafeBunks >= 0;
    SafeSubjectsFrom(infos);
    SplitAndFill(SafeSubjects(infos), GlobalPool(data, p));
  }

  // The properties of the whole allocation

  /** One subject's final allocation, when something was conducted: the
      greedy fill's result for its entry when its buffer is positive,
      which lies between 0 and its ceiling. */
  lemma {:induction false} SubjectWithinCeiling(data: seq<Subject>, p: real, i: nat)
    requires Admissible(data, p) && UniqueLabels(data) && SumTotal(data) != 0 && i < |data|
    ensures 0 <= SmartBunks(data, p)[i].allocatedBunks <= MaxSafeBunks(data[i].attend, data[i].total, p)
  {
    Stages(data, p);
    var infos := AnalyzeAll(data, p);
    var filled := Redistribution(data, p).0;
    var distributed := WithAllocs(Distribution(data, p), filled);
    assert SmartBunks(data, p)[i].allocatedBunks == Lookup(distributed, data[i].subject);
    LookupAt(infos, distributed, i);
    if infos[i].buffer > 0.0 {
      var k := |SafeSubjects(infos[..i])|;
      assert distributed[k].allocatedBunks == filled[k];
      assert SafeSubjects(infos)[k].maxSafeBunks == infos[i].maxSafeBunks;
    }
  }

  /** With unique labels, every subject gets between 0 and its own ceiling,
      so a subject given any bunks still meets the target after taking them
      all. */
  lemma {:induction false} SmartBunksWithinCeilings(data: seq<Subject>, p: real)
    requires Admissible(data, p) && UniqueLabels(data)
    ensures var r := SmartBunks(data, p);
      forall i :: 0 <= i < |data| ==>
        && 0 <= r[i].allocatedBunks <= MaxSafeBunks(data[i].attend, data[i].total, p)
        && (r[i].allocatedBunks > 0 ==> MeetsTarget(data[i].attend, data[i].total + r[i].allocatedBunks, p))
  {
    forall i | 0 <= i < |data| {
      SubjectMeetsTarget(data, p, i);
    }
  }

  lemma {:induction false} SubjectMeetsTarget(data: seq<Subject>, p: real, i: nat)
    requires Admissible(data, p) && UniqueLabels(data) && i < |data|
    ensures var x := SmartBunks(data, p)[i].allocatedBunks;
      && 0 <= x <= MaxSafeBunks(data[i].attend, data[i].total, p)
      && (x > 0 ==> MeetsTarget(data[i].attend, data[i].total + x, p))
  {
    if SumTotal(data) != 0 {
      SubjectWithinCeiling(data, p, i);
    }
    WithinCeiling(data[i].attend, data[i].total, p, SmartBunks(data, p)[i].allocatedBunks);
  }

  /** Taking any positive number of absences within a subject's ceiling
      keeps that subject at the target. */
  lemma {:induction false} WithinCeiling(attend: int, total: int, p: real, x: int)
    requires p > 0.0 && x <= MaxSafeBunks(attend, total, p)
    ensures x > 0 ==> MeetsTarget(attend, total + x, p)
  {
    if x > 0 {
      MaxSafeMeaning(attend, total, p, x);
    }
  }

  /** With unique labels, a subject whose attendance is not above the
      target gets nothing. */
  lemma {:induction false} SmartBunksUnsafeGetNothing(data: seq<Subject>, p: real)
    requires Admissible(data, p) && UniqueLabels(data)
    ensures var r := SmartBunks(data, p);
      forall i :: 0 <= i < |data| && data[i].total > 0 && Buffer(data[i].attend, data[i].total, p) <= 0.0 ==>
        r[i].allocatedBunks == 0
  {
    if SumTotal(data) != 0 {
      Stages(data, p);
      var infos := AnalyzeAll(data, p);
      var distributed := WithAllocs(Distribution(data, p), Redistribution(data, p).0);
      forall i | 0 <= i < |data| && Buffer(data[i].attend, data[i].total, p) <= 0.0
        ensures Lookup(distributed, data[i].subject) == 0
      {
        LookupAt(infos, distributed, i);
      }
    }
  }

  lemma {:induction false} NothingConducted(data: seq<Subject>)
    requires forall i :: 0 <= i < |data| ==> 0 <= data[i].attend <= data[i].total
    requires SumTotal(data) == 0
    ensures SumAttend(data) == 0
  {
    if data != [] {
      assert SumTotal(data[1..]) >= 0 by {
        NonNegativeTotal(data[1..]);
      }
      NothingConducted(data[1..]);
    }
  }

  lemma {:induction false} NonNegativeTotal(data: seq<Subject>)
    requires forall i :: 0 <= i < |data| ==> 0 <= data[i].total
    ensures SumTotal(data) >= 0
  {
    if data != [] {
      NonNegativeTotal(data[1..]);
    }
  }

  lemma {:induction false} ZeroTotal(r: seq<Allocation>)
    requires forall i :: 0 <= i < |r| ==> r[i].allocatedBunks == 0
    ensures AllocatedTotal(r) == 0
  {
    if r != [] {
      ZeroTotal(r[1..]);
    }
  }

  /** With unique labels, the allocations add up to at most the global
      pool, and to exactly the pool unless every subject above the target
      is already at its ceiling. */
  lemma {:induction false} SmartBunksConservation(data: seq<Subject>, p: real)
    requires Admissible(data, p) && UniqueLabels(data)
    ensures var r := SmartBunks(data, p);
      && AllocatedTotal(r) <= GlobalPool(data, p)
      && (|| AllocatedTotal(r) == GlobalPool(data, p)
          || forall i :: 0 <= i < |data| && data[i].total > 0 && Buffer(data[i].attend, data[i].total, p) > 0.0 ==>
               r[i].allocatedBunks == MaxSafeBunks(data[i].attend, data[i].total, p))
  {
    var r := SmartBunks(data, p);
    if SumTotal(data) == 0 {
      ZeroTotal(r);
      NothingConducted(data);
    } else {
      Stages(data, p);
      var infos := AnalyzeAll(data, p);
      var d := Distribution(data, p);
      var (filled, rest) := Redistribution(data, p);
      var distributed := WithAllocs(d, filled);
      AssembleTotal(data, infos, distributed);
      if rest != 0 {
        forall i | 0 <= i < |data| && Buffer(data[i].attend, data[i].total, p) > 0.0
          ensures r[i].allocatedBunks == MaxSafeBunks(data[i].attend, data[i].total, p)
        {
          LookupAt(infos, distributed, i);
        }
      }
    }
  }

  /** The allocations taken together keep the combined attendance ratio
      at the target. */
  lemma {:induction false} SmartBunksCombinedTarget(data: seq<Subject>, p: real)
    requires Admissible(data, p) && UniqueLabels(data)
    ensures var r := SmartBunks(data, p);
      AllocatedTotal(r) > 0 ==> MeetsTarget(SumAttend(data), SumTotal(data) + AllocatedTotal(r), p)
  {
    SmartBunksConservation(data, p);
    WithinPool(data, p, SmartBunks(data, p));
  }

  /** Any result adding up to at most the pool keeps the combined record
      at the target. */
  lemma {:induction false} WithinPool(data: seq<Subject>, p: real, r: seq<Allocation>)
    requires p > 0.0 && AllocatedTotal(r) <= GlobalPool(data, p)
    ensures AllocatedTotal(r) > 0 ==> MeetsTarget(SumAttend(data), SumTotal(data) + AllocatedTotal(r), p)
  {
    if AllocatedTotal(r) > 0 {
      PoolMeaning(SumAttend(data), SumTotal(data), p, AllocatedTotal(r));
    }
  }

  // A worked case: subjects A (40 of 50) and B (18 of 20) at a target of 0.75

  lemma {:induction false} ExamplePool()
    ensures GlobalPool([Subject("A", 40, 50), Subject("B", 18, 20)], 0.75) == 7
  {
    var data := [Subject("A", 40, 50), Subject("B", 18, 20)];
    assert data[1..] == [Subject("B", 18, 20)];
    assert SumTotal(data) == 70 && SumAttend(data) == 58;
    assert (58.0 - 0.75 * 70.0) / 0.75 == 5.5 / 0.75;
  }

  lemma {:induction false} ExampleSafe()
    ensures SafeSubjects(AnalyzeAll([Subject("A", 40, 50), Subject("B", 18, 20)], 0.75))
         == [SubjectInfo("A", 40, 50, 0.05, 3), SubjectInfo("B", 18, 20, 0.15, 4)]
  {
    var data := [Subject("A", 40, 50), Subject("B", 18, 20)];
    var a, b := SubjectInfo("A", 40, 50, 0.05, 3), SubjectInfo("B", 18, 20, 0.15, 4);
    assert MaxSafeBunks(40, 50, 0.75) == 3 by {
      assert 40.0 / 0.75 - 50.0 == 10.0 / 3.0;
    }
    assert MaxSafeBunks(18, 20, 0.75) == 4;
    assert Analyze(data[0], 0.75) == a;
    assert Analyze(data[1], 0.75) == b;
    assert AnalyzeAll(data, 0.75) == [a, b];
    assert [a, b][1..] == [b];
    assert SafeSubjects([b]) == [b];
  }

  lemma {:induction false} ExampleSplit()
    ensures var safe := [SubjectInfo("A", 40, 50, 0.05, 3), SubjectInfo("B", 18, 20, 0.15, 4)];
      && BufferSum(safe) == 0.2
      && Proportional(safe, 0.2, 7) == [Share("A", 1, 3), Share("B", 4, 4)]
  {
    var a, b := SubjectInfo("A", 40, 50, 0.05, 3), SubjectInfo("B", 18, 20, 0.15, 4);
    assert [a, b][1..] == [b];
    assert BufferSum([b]) == 0.15;
    assert ShareOf(a, 0.2, 7) == Share("A", 1, 3);
    assert ShareOf(b, 0.2, 7) == Share("B", 4, 4);
    assert Proportional([b], 0.2, 7) == [Share("B", 4, 4)];
  }

  lemma {:induction false} ExampleFill()
    ensures Fill([1, 4], [3, 4], 2) == ([3, 4], 0)
  {
    assert [1, 4][0 := 2] == [2, 4] && [2, 4][0 := 3] == [3, 4];
    assert Pass([1, 4], [3, 4], 0, 2, false) == Pass([2, 4], [3, 4], 1, 1, true);
    assert Pass([2, 4], [3, 4], 1, 1, true) == ([2, 4], 1, true);
    assert Fill([1, 4], [3, 4], 2) == Fill([2, 4], [3, 4], 1);
    assert Pass([2, 4], [3, 4], 0, 1, false) == ([3, 4], 0, true);
  }

  /** The pool is floor(5.5 / 0.75) = 7, the ceilings are 3 and 4, the
      proportional split gives 1 and 4, and the two leftover units both go
      to A, in two scans. */
  lemma {:induction false} WorkedExample()
    ensures SmartBunks([Subject("A", 40, 50), Subject("B", 18, 20)], 0.75)
         == [Allocation("A", 3), Allocation("B", 4)]
  {
    var data := [Subject("A", 40, 50), Subject("B", 18, 20)];
    var d := [Share("A", 1, 3), Share("B", 4, 4)];
    ExamplePool();
    ExampleDistribution(data);
    ExampleRedistribution(d);
    ExampleAssemble(data);
  }

  lemma {:induction false} ExampleDistribution(data: seq<Subject>)
    requires data == [Subject("A", 40, 50), Subject("B", 18, 20)]
    ensures Admissible(data, 0.75) && SumTotal(data) != 0
    ensures Distribution(data, 0.75) == [Share("A", 1, 3), Share("B", 4, 4)]
  {
    ExamplePool();
    ExampleSafe();
    ExampleSplit();
  }

  lemma {:induction false} ExampleRedistribution(d: seq<Share>)
    requires d == [Share("A", 1, 3), Share("B", 4, 4)]
    ensures Fill(Allocs(d), Ceilings(d), 7 - Sum(Allocs(d))).0 == [3, 4]
  {
    assert Allocs(d) == [1, 4] && Ceilings(d) == [3, 4];
    assert Sum([1, 4]) == 5;
    ExampleFill();
  }

  lemma {:induction false} ExampleAssemble(data: seq<Subject>)
    requires data == [Subject("A", 40, 50), Subject("B", 18, 20)]
    ensures Assemble(data, WithAllocs([Share("A", 1, 3), Share("B", 4, 4)], [3, 4]))
         == [Allocation("A", 3), Allocation("B", 4)]
  {
    var distributed := WithAllocs([Share("A", 1, 3), Share("B", 4, 4)], [3, 4]);
    assert distributed == [Share("A", 3, 3), Share("B", 4, 4)];
    assert Lookup(distributed, "B") == 4 by {
      assert distributed[1..] == [Share("B", 4, 4)];
    }
  }
}
