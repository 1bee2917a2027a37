/** The older variant of the orbit construction: `generate_orbit_info` always receives the three maps
    (positionally, before the options) and classifies whenever the rule is fully supported; the batch
    driver unpacks each answer under swapped names and builds the record from them in the same swapped
    order, so the record still holds the answer field for field. */
module LegacyConstruction {
  import opened Outcomes
  import opened Rules
  import opened Sequences
  import opened Classification
  import opened Orbits
  import opened Batches

  /** The simulator of this variant: the maps are always present, and the first drop is classified
      exactly when the rule is fully supported. */
  method GenerateOrbitInfo(n: int, maps: ClassificationMaps, opts: OrbitOptions, coins: nat -> bool, fuel: nat)
    returns (r: Result<OrbitResult>)
    modifies maps
    ensures maps.lookup == old(maps.lookup)
    ensures old(maps.Consistent()) ==> maps.Consistent()
    ensures OrbitContract(opts, coins, n, opts.name in FullySupportedOptionNames,
                          old(maps.lookup), old(maps.wheel), old(maps.index), maps.wheel, maps.index, r)
    ensures r == Failure(OutOfFuel) ==> !IsShortcut(opts.name, n) && Exhausts(opts, coins, n, fuel)
  {
    r := RunOrbit(n, opts, maps, opts.name in FullySupportedOptionNames, coins, fuel);
  }

  /** One turn of the batch loop: simulate start n and build its record from the answer unpacked as
      (first_orbit, orbit, first_drop, ...), which names the first three fields wrongly but passes them
      on in the order the record takes them. */
  method NextRecord(n: int, opts: OrbitOptions, maps: ClassificationMaps, draws: int -> nat -> bool, fuel: nat,
                    ghost lookup: map<int, int>, ghost records: seq<OrbitInfo>)
    returns (r: Result<OrbitInfo>)
    requires n == opts.minN + |records|
    requires maps.lookup == lookup && lookup.Keys == LookupLengths(opts)
    requires BatchInvariant(opts, draws, lookup, maps.wheel, maps.index, records)
    modifies maps
    ensures maps.lookup == lookup
    ensures r.Success? ==> BatchInvariant(opts, draws, lookup, maps.wheel, maps.index, records + [r.value])
    ensures r.Failure? ==> r.error == OutOfFuel || Stops(opts, draws(n), n)
    ensures r == Failure(OutOfFuel) ==> Exhausts(opts, draws(n), n, fuel)
  {
    var info := GenerateOrbitInfo(n, maps, opts, draws(n), fuel);
    if info.Failure? {
      if info.error != OutOfFuel {
        ExceptionStops(opts, draws(n), lookup, old(maps.wheel), old(maps.index), maps.wheel, maps.index, records, n, info);
      }
      return Failure(info.error);
    }
    BatchStep(opts, draws, lookup, old(maps.wheel), old(maps.index), maps.wheel, maps.index, records, n, info.value);
    var OrbitResult(firstOrbit, orbit, firstDrop, stoppingMod, stoppingIndex) := info.value;
    return Success(OrbitInfo(n, firstOrbit, orbit, firstDrop, stoppingMod, stoppingIndex));
  }

  /** `generate_orbit_info_batch` of this variant: the same seeding, loop and exception handling as the
      current variant, so it promises the same records. */
  method GenerateOrbitInfoBatch(total: int, opts: OrbitOptions, draws: int -> nat -> bool, fuel: nat)
    returns (r: Result<seq<OrbitInfo>>)
    ensures r.Failure? ==> r.error == OutOfFuel || (r.error == IndexOutOfRange && opts.name == "3x_plus_1")
    ensures r.Success? ==> BatchRecords(opts, draws, total, r.value)
    ensures r.Success? ==> EndsAt(opts, draws, total, r.value)
    ensures r.Success? ==> NoneStops(opts, draws, r.value)
    ensures r.Success? ==> DistinctAddresses(opts.name, r.value)
    ensures r.Success? ==> AddressedBySeeds(opts, r.value)
    ensures r == Failure(OutOfFuel) ==> SomeStartExhausts(opts, draws, total, fuel)
  {
    var admissable := GetAdmissible(BatchTerms, opts);
    if admissable.Failure? {
      return Failure(admissable.error);
    }
    var maps := SeedMaps(opts, admissable.value);
    ghost var lookup := maps.lookup;
    BatchStart(opts, draws, lookup, maps.wheel, maps.index);

    var results: seq<OrbitInfo> := [];
    var n := opts.minN;
    while n < total
      invariant n == opts.minN + |results|
      invariant |results| <= (if total - opts.minN < 0 then 0 else total - opts.minN)
      invariant maps.lookup == lookup && lookup.Keys == LookupLengths(opts) && 1 in lookup && lookup[1] == 1
      invariant BatchInvariant(opts, draws, lookup, maps.wheel, maps.index, results)
      decreases total - n
    {
      BatchDoesNotStop(opts, draws, lookup, maps.wheel, maps.index, results);
      var next := NextRecord(n, opts, maps, draws, fuel, lookup, results);
      if next.Failure? {
        if next.error == OutOfFuel {
          ExhaustsAt(opts, draws, total, fuel, n);
          return Failure(OutOfFuel);
        }
        EndsAtStop(opts, draws, total, results, n);
        AddressesDistinct(opts.name, lookup, results);
        AddressedBySeedsAt(opts, lookup, results);
        return Success(results);
      }
      results := results + [next.value];
      n := n + 1;
    }
    EndsAtRange(opts, draws, total, results);
    AddressesDistinct(opts.name, lookup, results);
    AddressedBySeedsAt(opts, lookup, results);
    BatchDoesNotStop(opts, draws, lookup, maps.wheel, maps.index, results);
    return Success(results);
  }
}
