/** What a batch run promises: one record per start, in order, each the simulator's answer, and the
    round-robin addresses the classification hands out over the whole batch. */
module Batches {
  import opened Outcomes
  import opened Rules
  import opened Sequences
  import opened Classification
  import opened Orbits

  /** Number of terms the batch driver requests from each generator. */
  const BatchTerms: nat := 200

  /** The record built from the simulator's answer for start n. */
  function ToInfo(n: int, res: OrbitResult): OrbitInfo {
    OrbitInfo(n, res.firstDrop, res.firstOrbit, res.totalOrbit, res.stopMod, res.stopIndex)
  }

  /** The simulator's answer a record holds. */
  function ToResult(info: OrbitInfo): OrbitResult {
    OrbitResult(info.firstDrop, info.firstOrbit, info.totalOrbit, info.stopMod, info.stopIndex)
  }

  /** The first-drop lengths the seeded lookup map knows: the base length 1 and, for the 3x+1 rule, the
      first 200 dropping times. */
  ghost function LookupLengths(opts: OrbitOptions): set<int> {
    if opts.name == "3x_plus_1" then {1} + set k | 1 <= k <= BatchTerms :: DroppingTime(k) else {1}
  }

  /** A record the batch may hold for start info.n: the fixed answer for a shortcut start, and otherwise
      the simulated orbit, classified exactly when the rule is fully supported and the orbit dropped. */
  ghost predicate ValidRecord(opts: OrbitOptions, coins: nat -> bool, info: OrbitInfo) {
    if IsShortcut(opts.name, info.n) then ToResult(info) == ShortcutResult(info.n)
    else
      && Simulated(opts, coins, info.n, ToResult(info))
      && (info.stopMod.Some? <==> opts.name in FullySupportedOptionNames && info.firstDrop.Some?)
      && (info.stopIndex.Some? <==> info.stopMod.Some?)
      && (info.stopMod.Some? ==> info.stopMod.value >= 1 && info.stopIndex.value >= 1)
  }

  /** A record classified by the simulation (not by a fixed answer) at first-drop length L. */
  predicate SimClassified(name: string, info: OrbitInfo, L: int) {
    !IsShortcut(name, info.n) && info.firstDrop == Some(L) && info.stopMod.Some?
  }

  /** How many records were classified by simulation at length L. */
  function Seen(name: string, records: seq<OrbitInfo>, L: int): nat {
    if records == [] then 0
    else Seen(name, records[..|records| - 1], L) + (if SimClassified(name, records[|records| - 1], L) then 1 else 0)
  }

  /** Each simulated classification at length L got the round-robin address of its position k among the
      records of length L: slot k mod M + 1 and ordinal k div M + 1, with M = lookup[L]. */
  ghost predicate Addressed(name: string, lookup: map<int, int>, records: seq<OrbitInfo>) {
    forall i, L :: 0 <= i < |records| && SimClassified(name, records[i], L) ==>
      && L in lookup && lookup[L] >= 1
      && records[i].stopMod == Some(Seen(name, records[..i], L) % lookup[L] + 1)
      && records[i].stopIndex == Some(Seen(name, records[..i], L) / lookup[L] + 1)
  }

  /** Records for consecutive starts from min_n, each valid for its start under that start's draws. */
  ghost predicate RecordsValid(opts: OrbitOptions, draws: int -> nat -> bool, records: seq<OrbitInfo>) {
    forall i :: 0 <= i < |records| ==> records[i].n == opts.minN + i && ValidRecord(opts, draws(records[i].n), records[i])
  }

  /** The records of a batch: consecutive starts from min_n, no more than the range holds, each one the
      simulator's answer for its start under that start's draws. */
  ghost predicate BatchRecords(opts: OrbitOptions, draws: int -> nat -> bool, total: int, records: seq<OrbitInfo>) {
    && |records| <= (if total - opts.minN < 0 then 0 else total - opts.minN)
    && RecordsValid(opts, draws, records)
  }

  /** No two simulated classifications of the same first-drop length share a (slot, ordinal) address. */
  ghost predicate DistinctAddresses(name: string, records: seq<OrbitInfo>) {
    forall i, j, L :: 0 <= i < j < |records| && SimClassified(name, records[i], L) && SimClassified(name, records[j], L) ==>
      (records[i].stopMod, records[i].stopIndex) != (records[j].stopMod, records[j].stopIndex)
  }

  /** A record appended after the given ones that, if classified by simulation, holds the next
      round-robin address of its length. */
  ghost predicate NextAddress(name: string, lookup: map<int, int>, records: seq<OrbitInfo>, info: OrbitInfo) {
    forall L :: SimClassified(name, info, L) ==>
      && L in lookup && lookup[L] >= 1
      && info.stopMod == Some(Seen(name, records, L) % lookup[L] + 1)
      && info.stopIndex == Some(Seen(name, records, L) / lookup[L] + 1)
  }

  /** The state of a batch after the records so far: each record is valid for its start, every known
      length is in the round-robin state of its count so far, and every classification got its address. */
  ghost predicate BatchInvariant(opts: OrbitOptions, draws: int -> nat -> bool, lookup: map<int, int>,
                                 wheel: map<int, int>, index: map<IndexKey, int>, records: seq<OrbitInfo>)
  {
    && RecordsValid(opts, draws, records)
    && (forall L :: L in lookup ==> RoundRobin(lookup, wheel, index, L, Seen(opts.name, records, L)))
    && Addressed(opts.name, lookup, records)
  }

  lemma {:induction false} SeenGrows(name: string, records: seq<OrbitInfo>, i: nat, j: nat, L: int)
    requires i < j <= |records| && SimClassified(name, records[i], L)
    ensures Seen(name, records[..j], L) >= Seen(name, records[..i], L) + 1
  {
    assert records[..j][..j - 1] == records[..j - 1];
    if j > i + 1 {
      SeenGrows(name, records, i, j - 1, L);
    }
  }

  /** Within a batch, no two simulated classifications of the same first-drop length share a
      (slot, ordinal) address. */
  lemma AddressesDistinct(name: string, lookup: map<int, int>, records: seq<OrbitInfo>)
    requires Addressed(name, lookup, records)
    ensures DistinctAddresses(name, records)
  {
    forall i, j, L | 0 <= i < j < |records| && SimClassified(name, records[i], L) && SimClassified(name, records[j], L)
      ensures (records[i].stopMod, records[i].stopIndex) != (records[j].stopMod, records[j].stopIndex)
    {
      SeenGrows(name, records, i, j, L);
      AddressInjective(Seen(name, records[..i], L), Seen(name, records[..j], L), lookup[L]);
    }
  }

  /** Freshly seeded maps: every known length has a positive magnitude, wheel slot 1 and no counts. */
  ghost predicate FreshMaps(lookup: map<int, int>, wheel: map<int, int>, index: map<IndexKey, int>) {
    forall L :: L in lookup ==>
      && lookup[L] >= 1 && L in wheel && wheel[L] == 1
      && forall m :: Count(index, SlotKey(L, m)) == 0
  }

  /** A batch with no records yet satisfies the invariant over freshly seeded maps. */
  lemma BatchStart(opts: OrbitOptions, draws: int -> nat -> bool, lookup: map<int, int>, wheel: map<int, int>, index: map<IndexKey, int>)
    requires FreshMaps(lookup, wheel, index)
    ensures BatchInvariant(opts, draws, lookup, wheel, index, [])
  {
  }

  /** Appending one record adds one to the count of its own length, if it was classified by simulation,
      and leaves the earlier prefixes alone. */
  lemma SeenAppend(name: string, records: seq<OrbitInfo>, info: OrbitInfo)
    ensures forall L :: Seen(name, records + [info], L) == Seen(name, records, L) + (if SimClassified(name, info, L) then 1 else 0)
    ensures forall i :: 0 <= i <= |records| ==> (records + [info])[..i] == records[..i]
  {
    assert (records + [info])[..|records|] == records;
  }

  /** The classification of one answer, starting from maps in the round-robin state of the counts so
      far: a classified answer holds the next round-robin address of its length, and the maps move to the
      round-robin state of the counts including it. */
  lemma ClassifyOutcome(name: string, lookup: map<int, int>,
                        wheel: map<int, int>, index: map<IndexKey, int>, wheel': map<int, int>, index': map<IndexKey, int>,
                        records: seq<OrbitInfo>, info: OrbitInfo)
    requires forall L :: L in lookup ==> RoundRobin(lookup, wheel, index, L, Seen(name, records, L))
    requires IsShortcut(name, info.n) ==> wheel' == wheel && index' == index
    requires !IsShortcut(name, info.n) ==>
      ClassifiedOnce(name in FullySupportedOptionNames, lookup, wheel, index, wheel', index', ToResult(info))
    ensures NextAddress(name, lookup, records, info)
    ensures forall L :: L in lookup ==>
      RoundRobin(lookup, wheel', index', L, Seen(name, records, L) + (if SimClassified(name, info, L) then 1 else 0))
  {
    if !IsShortcut(name, info.n) && info.firstDrop.Some? && name in FullySupportedOptionNames {
      var L := info.firstDrop.value;
      var k := Seen(name, records, L);
      var c := ClassifyStep(lookup, wheel, index, L);
      assert c.Success? && wheel' == c.value.wheel && index' == c.value.index;
      RoundRobinStep(lookup, wheel, index, L, k);
      forall L' | L' in lookup && L' != L
        ensures RoundRobin(lookup, wheel', index', L', Seen(name, records, L'))
      {
        RoundRobinFrame(lookup, wheel, index, L, L', Seen(name, records, L'));
      }
    }
  }

  /** The record of an answer given under the simulator's contract is valid for its start, once its
      classification is known to be a round-robin address. */
  lemma RecordFromContract(opts: OrbitOptions, coins: nat -> bool, lookup: map<int, int>,
                           wheel: map<int, int>, index: map<IndexKey, int>, wheel': map<int, int>, index': map<IndexKey, int>,
                           records: seq<OrbitInfo>, n: int, res: OrbitResult)
    requires OrbitContract(opts, coins, n, opts.name in FullySupportedOptionNames, lookup, wheel, index, wheel', index', Success(res))
    requires NextAddress(opts.name, lookup, records, ToInfo(n, res))
    ensures ValidRecord(opts, coins, ToInfo(n, res))
  {
    var info := ToInfo(n, res);
    assert ToResult(info) == res;
    if res.stopMod.Some? && !IsShortcut(opts.name, n) {
      assert SimClassified(opts.name, info, res.firstDrop.value);
    }
  }

  /** Appending a valid record for the next start keeps the records valid. */
  lemma RecordsValidAppend(opts: OrbitOptions, draws: int -> nat -> bool, records: seq<OrbitInfo>, info: OrbitInfo)
    requires RecordsValid(opts, draws, records)
    requires info.n == opts.minN + |records| && ValidRecord(opts, draws(info.n), info)
    ensures RecordsValid(opts, draws, records + [info])
  {
    var records' := records + [info];
    forall i | 0 <= i < |records'|
      ensures records'[i].n == opts.minN + i && ValidRecord(opts, draws(records'[i].n), records'[i])
    {
      if i < |records| { assert records'[i] == records[i]; }
    }
  }

  /** Appending a record whose classification, if any, is the next address of its length keeps every
      classification at its address. */
  lemma AddressedAppend(name: string, lookup: map<int, int>, records: seq<OrbitInfo>, info: OrbitInfo)
    requires Addressed(name, lookup, records)
    requires NextAddress(name, lookup, records, info)
    ensures Addressed(name, lookup, records + [info])
  {
    var records' := records + [info];
    forall i, L | 0 <= i < |records'| && SimClassified(name, records'[i], L)
      ensures && L in lookup && lookup[L] >= 1
              && records'[i].stopMod == Some(Seen(name, records'[..i], L) % lookup[L] + 1)
              && records'[i].stopIndex == Some(Seen(name, records'[..i], L) / lookup[L] + 1)
    {
      if i < |records| {
        assert records'[i] == records[i] && records'[..i] == records[..i];
      } else {
        assert records'[..i] == records;
      }
    }
  }

  /** Appending the record of start n, answered under the simulator's contract, keeps the invariant. */
  lemma BatchStep(opts: OrbitOptions, draws: int -> nat -> bool, lookup: map<int, int>,
                  wheel: map<int, int>, index: map<IndexKey, int>, wheel': map<int, int>, index': map<IndexKey, int>,
                  records: seq<OrbitInfo>, n: int, res: OrbitResult)
    requires BatchInvariant(opts, draws, lookup, wheel, index, records)
    requires n == opts.minN + |records|
    requires OrbitContract(opts, draws(n), n, opts.name in FullySupportedOptionNames, lookup, wheel, index, wheel', index', Success(res))
    ensures BatchInvariant(opts, draws, lookup, wheel', index', records + [ToInfo(n, res)])
  {
    var info := ToInfo(n, res);
    var records' := records + [info];
    assert ToResult(info) == res;
    ClassifyOutcome(opts.name, lookup, wheel, index, wheel', index', records, info);
    RecordFromContract(opts, draws(n), lookup, wheel, index, wheel', index', records, n, res);
    SeenAppend(opts.name, records, info);
    RecordsValidAppend(opts, draws, records, info);
    forall L | L in lookup
      ensures RoundRobin(lookup, wheel', index', L, Seen(opts.name, records', L))
    {
    }
    AddressedAppend(opts.name, lookup, records, info);
  }

  /** The maps built by `generate_maps` and filled by the seeding loop are fresh: the dropping times are
      distinct and never 1, and every admissible magnitude is positive. */
  lemma SeededFresh(droppingTimes: seq<int>, admissible: seq<int>,
                    lookup: map<int, int>, wheel: map<int, int>, index: map<IndexKey, int>)
    requires |admissible| >= |droppingTimes|
    requires forall i :: 0 <= i < |admissible| ==> admissible[i] > 0
    requires forall i :: 0 <= i < |droppingTimes| ==> droppingTimes[i] >= 3
    requires forall i, j :: 0 <= i < j < |droppingTimes| ==> droppingTimes[i] < droppingTimes[j]
    requires lookup == Seeded(map[1 := 1], droppingTimes, admissible)
    requires forall t :: t in droppingTimes ==> t in wheel && wheel[t] == 1
    requires forall t :: t !in droppingTimes ==> (t in wheel <==> t in map[1 := 1]) && (t in wheel ==> wheel[t] == map[1 := 1][t])
    requires forall t :: t in droppingTimes ==> SlotKey(t, 1) in index && index[SlotKey(t, 1)] == 0
    requires forall k :: k !in SlotKeys(droppingTimes) ==>
      (k in index <==> k in map[SeedKey(1) := 1]) && (k in index ==> index[k] == map[SeedKey(1) := 1][k])
    ensures FreshMaps(lookup, wheel, index)
    ensures lookup.Keys == {1} + set t | t in droppingTimes
  {
    SeededAt(map[1 := 1], droppingTimes, admissible);
    forall L | L in lookup
      ensures lookup[L] >= 1 && L in wheel && wheel[L] == 1 && forall m :: Count(index, SlotKey(L, m)) == 0
    {
      if L in droppingTimes {
        var i :| 0 <= i < |droppingTimes| && droppingTimes[i] == L;
        assert lookup[L] == admissible[i];
      }
      forall m ensures Count(index, SlotKey(L, m)) == 0 {
        if SlotKey(L, m) in SlotKeys(droppingTimes) {
          assert m == 1 && L in droppingTimes;
        }
      }
    }
  }

  /** The seeded lookup map keeps the base entry 1 -> 1 and maps the i-th dropping time to the i-th
      admissible value. */
  lemma SeededValues(droppingTimes: seq<int>, admissible: seq<int>, lookup: map<int, int>)
    requires |admissible| >= |droppingTimes|
    requires forall i :: 0 <= i < |droppingTimes| ==> droppingTimes[i] >= 3
    requires forall i, j :: 0 <= i < j < |droppingTimes| ==> droppingTimes[i] < droppingTimes[j]
    requires lookup == Seeded(map[1 := 1], droppingTimes, admissible)
    ensures 1 in lookup && lookup[1] == 1
    ensures forall i :: 0 <= i < |droppingTimes| ==> droppingTimes[i] in lookup && lookup[droppingTimes[i]] == admissible[i]
  {
    SeededAt(map[1 := 1], droppingTimes, admissible);
    forall i | 0 <= i < |droppingTimes|
      ensures droppingTimes[i] in lookup
    {
      assert droppingTimes[i] in droppingTimes;
    }
    assert 1 !in droppingTimes;
  }

  /** For the 3x+1 rule the lookup map gives the k-th dropping time the k-th admissible value (index
      k - 1) as its magnitude, for each of the 200 seeded terms. */
  ghost predicate SeededMagnitudes(opts: OrbitOptions, admissible: seq<int>, lookup: map<int, int>) {
    opts.name == "3x_plus_1" ==>
      forall k :: 1 <= k <= BatchTerms && k <= |admissible| ==>
        DroppingTime(k) in lookup && lookup[DroppingTime(k)] == admissible[k - 1]
  }

  /** For the 3x+1 rule the seeded magnitude of the (i+1)-th dropping time is the i-th admissible value. */
  lemma SeededDroppingTimes(opts: OrbitOptions, droppingTimes: seq<int>, admissible: seq<int>, lookup: map<int, int>)
    requires |admissible| >= |droppingTimes|
    requires opts.name == "3x_plus_1" ==> |droppingTimes| == BatchTerms
    requires forall i :: 0 <= i < |droppingTimes| ==> droppingTimes[i] == DroppingTime(i + 1)
    requires forall i :: 0 <= i < |droppingTimes| ==> droppingTimes[i] in lookup && lookup[droppingTimes[i]] == admissible[i]
    ensures SeededMagnitudes(opts, admissible, lookup)
  {
    if opts.name == "3x_plus_1" {
      forall k | 1 <= k <= BatchTerms && k <= |admissible|
        ensures DroppingTime(k) in lookup && lookup[DroppingTime(k)] == admissible[k - 1]
      {
        assert droppingTimes[k - 1] == DroppingTime(k);
      }
    }
  }

  /** The seeded lengths are exactly the base length 1 and the first 200 dropping times of the 3x+1 rule
      (only 1 for any other rule). */
  lemma SeededLengths(opts: OrbitOptions, droppingTimes: seq<int>)
    requires opts.name != "3x_plus_1" ==> droppingTimes == []
    requires opts.name == "3x_plus_1" ==> |droppingTimes| == BatchTerms
    requires forall i :: 0 <= i < |droppingTimes| ==> droppingTimes[i] == DroppingTime(i + 1)
    ensures {1} + (set t | t in droppingTimes) == LookupLengths(opts)
  {
    if opts.name == "3x_plus_1" {
      forall t | t in LookupLengths(opts) && t != 1 ensures t in droppingTimes {
        var k :| 1 <= k <= BatchTerms && DroppingTime(k) == t;
        assert droppingTimes[k - 1] == t;
      }
    }
  }

  /** A start at which the batch stops: the rule is fully supported and the start's orbit reaches its
      first drop after a number of steps the lookup map does not know. */
  ghost predicate Stops(opts: OrbitOptions, coins: nat -> bool, n: int) {
    && opts.name in FullySupportedOptionNames && !IsShortcut(opts.name, n)
    && exists o :: && IsOrbitPrefix(opts, coins, n, o) && |o| >= 2 && FirstDrop(o, n) == Some(|o| - 1)
                   && |o| - 1 !in LookupLengths(opts)
  }

  /** A batch of records for starts from min_n that is short of the range [min_n, total) ended at a start
      where the batch stops. */
  ghost predicate EndsAt(opts: OrbitOptions, draws: int -> nat -> bool, total: int, records: seq<OrbitInfo>) {
    |records| < total - opts.minN ==> Stops(opts, draws(opts.minN + |records|), opts.minN + |records|)
  }

  /** No record of the batch is at a start where the batch stops, so a short batch ended at the first
      stopping start. */
  ghost predicate NoneStops(opts: OrbitOptions, draws: int -> nat -> bool, records: seq<OrbitInfo>) {
    forall i :: 0 <= i < |records| ==> !Stops(opts, draws(records[i].n), records[i].n)
  }

  /** A valid record whose simulated classification, if any, is at a seeded length is not at a start
      where the batch stops: the stopping prefix would begin the record's orbit and end at its first drop. */
  lemma RecordDoesNotStop(opts: OrbitOptions, coins: nat -> bool, info: OrbitInfo)
    requires ValidRecord(opts, coins, info)
    requires forall L :: SimClassified(opts.name, info, L) ==> L in LookupLengths(opts)
    ensures !Stops(opts, coins, info.n)
  {
    if Stops(opts, coins, info.n) {
      var o :| && IsOrbitPrefix(opts, coins, info.n, o) && |o| >= 2 && FirstDrop(o, info.n) == Some(|o| - 1)
               && |o| - 1 !in LookupLengths(opts);
      assert ToResult(info).totalOrbit == info.totalOrbit;
      DropPrefix(opts, coins, info.n, o, info.totalOrbit);
      assert SimClassified(opts.name, info, |o| - 1);
      assert false;
    }
  }

  /** Under the batch invariant over the seeded maps, no record so far is at a stopping start. */
  lemma BatchDoesNotStop(opts: OrbitOptions, draws: int -> nat -> bool, lookup: map<int, int>,
                         wheel: map<int, int>, index: map<IndexKey, int>, records: seq<OrbitInfo>)
    requires BatchInvariant(opts, draws, lookup, wheel, index, records) && lookup.Keys == LookupLengths(opts)
    ensures NoneStops(opts, draws, records)
  {
    forall i | 0 <= i < |records|
      ensures !Stops(opts, draws(records[i].n), records[i].n)
    {
      forall L | SimClassified(opts.name, records[i], L) ensures L in LookupLengths(opts) {
        assert L in lookup;
      }
      RecordDoesNotStop(opts, draws(records[i].n), records[i]);
    }
  }

  /** Some start of the range [min_n, total) has an orbit that does not halt within fuel steps. */
  ghost predicate SomeStartExhausts(opts: OrbitOptions, draws: int -> nat -> bool, total: int, fuel: nat) {
    exists n :: opts.minN <= n < total && Exhausts(opts, draws(n), n, fuel)
  }

  /** Every simulated classification of the records holds its round-robin address over a lookup map
      that knows exactly the seeded lengths and gives the base length 1 a single slot. */
  ghost predicate AddressedBySeeds(opts: OrbitOptions, records: seq<OrbitInfo>) {
    exists lookup: map<int, int> ::
      && lookup.Keys == LookupLengths(opts) && 1 in lookup && lookup[1] == 1
      && Addressed(opts.name, lookup, records)
  }

  lemma AddressedBySeedsAt(opts: OrbitOptions, lookup: map<int, int>, records: seq<OrbitInfo>)
    requires lookup.Keys == LookupLengths(opts) && 1 in lookup && lookup[1] == 1
    requires Addressed(opts.name, lookup, records)
    ensures AddressedBySeeds(opts, records)
  {
  }

  lemma ExhaustsAt(opts: OrbitOptions, draws: int -> nat -> bool, total: int, fuel: nat, n: int)
    requires opts.minN <= n < total && Exhausts(opts, draws(n), n, fuel)
    ensures SomeStartExhausts(opts, draws, total, fuel)
  {
  }

  lemma EndsAtStop(opts: OrbitOptions, draws: int -> nat -> bool, total: int, records: seq<OrbitInfo>, n: int)
    requires n == opts.minN + |records| && Stops(opts, draws(n), n)
    ensures EndsAt(opts, draws, total, records)
  {
  }

  lemma EndsAtRange(opts: OrbitOptions, draws: int -> nat -> bool, total: int, records: seq<OrbitInfo>)
    requires |records| >= total - opts.minN
    ensures EndsAt(opts, draws, total, records)
  {
  }

  /** An exception from the simulator under the batch invariant is the unknown-first-drop exception. */
  lemma ExceptionStops(opts: OrbitOptions, coins: nat -> bool, lookup: map<int, int>,
                       wheel: map<int, int>, index: map<IndexKey, int>, wheel': map<int, int>, index': map<IndexKey, int>,
                       records: seq<OrbitInfo>, n: int, r: Result<OrbitResult>)
    requires forall L :: L in lookup ==> RoundRobin(lookup, wheel, index, L, Seen(opts.name, records, L))
    requires lookup.Keys == LookupLengths(opts)
    requires r.Failure? && IsException(r.error)
    requires OrbitContract(opts, coins, n, opts.name in FullySupportedOptionNames, lookup, wheel, index, wheel', index', r)
    ensures Stops(opts, coins, n)
  {
    var o :| && IsOrbitPrefix(opts, coins, n, o) && |o| >= 2 && FirstDrop(o, n) == Some(|o| - 1)
             && ClassifyStep(lookup, wheel, index, |o| - 1) == Failure(r.error);
    var L := |o| - 1;
    if L in lookup {
      assert RoundRobin(lookup, wheel, index, L, Seen(opts.name, records, L));
    }
  }

  /** The maps of a batch: `generate_maps`, then for the i-th of 200 allowable dropping times t,
      lookup[t] := admissible[i], wheel[t] := 1 and index[(t, 1)] := 0. */
  method SeedMaps(opts: OrbitOptions, admissible: seq<int>) returns (maps: ClassificationMaps)
    requires opts.name == "3x_plus_1" ==> |admissible| == BatchTerms
    requires forall i :: 0 <= i < |admissible| ==> admissible[i] > 0
    ensures fresh(maps)
    ensures maps.lookup.Keys == LookupLengths(opts)
    ensures FreshMaps(maps.lookup, maps.wheel, maps.index)
    ensures maps.Consistent()
    ensures 1 in maps.lookup && maps.lookup[1] == 1
    ensures SeededMagnitudes(opts, admissible, maps.lookup)
  {
    var allowableDroppingTimes := GetAllowableDroppingTimes(BatchTerms, opts);
    maps := new ClassificationMaps.GenerateMaps();
    maps.Populate(allowableDroppingTimes, admissible);
    SeededValues(allowableDroppingTimes, admissible, maps.lookup);
    SeededDroppingTimes(opts, allowableDroppingTimes, admissible, maps.lookup);
    SeededFresh(allowableDroppingTimes, admissible, maps.lookup, maps.wheel, maps.index);
    SeededLengths(opts, allowableDroppingTimes);
  }

  /** The fixed answer for start 1 of the 3x+1 rule carries slot 1 and ordinal 1 without touching the
      maps, and the first orbit classified by simulation at length 1 is given that same address, so
      address uniqueness holds only among simulated records. */
  lemma ShortcutAddressRepeats(opts: OrbitOptions, lookup: map<int, int>, wheel: map<int, int>, index: map<IndexKey, int>)
    requires opts.name == "3x_plus_1"
    requires FreshMaps(lookup, wheel, index) && lookup.Keys == LookupLengths(opts)
    ensures var c := ClassifyStep(lookup, wheel, index, 1);
      && c.Success?
      && ShortcutResult(1).firstDrop == Some(1)
      && ShortcutResult(1).stopMod == Some(c.value.stopMod)
      && ShortcutResult(1).stopIndex == Some(c.value.stopIndex)
  {
    assert 1 in lookup;
    RoundRobinStep(lookup, wheel, index, 1, 0);
  }
}
