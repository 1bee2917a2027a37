# Collatz orbit construction, modelled in Dafny

This project models the orbit-construction core of a Collatz-experiment repository.

- **Rule sets.** An orbit rule set (`OrbitOptions`) bundles a name, a minimum start, a halting test, a parity-based choice between a decreasing step and an increasing step, and those two steps. There are three factories: the classic 3x+1 rule, the 3x+3 rule, and a probabilistic rule that picks 3x+1 or 3x+3 at each odd step.
- **Generators.**
  - `get_admissible` computes the admissible counts of OEIS A100982 with two arrays.
  - `get_allowable_dropping_times` computes the dropping times `floor(1 + k + k·log2 3)`.
- **Simulator.** `generate_orbit_info` iterates the rule from a start `n` until it halts. It records:
  - the whole orbit;
  - the first drop: the number of steps until the first value ≤ `n`;
  - the first orbit: the values before that drop.

  When the three classification maps are present and the rule is fully supported (only 3x+1), it also classifies the first drop in round-robin fashion:
  - `lookup[L]` is the number of slots for first-drop length `L`;
  - `wheel[L]` is the next slot;
  - `index[(L, slot)]` counts how often that slot was handed out.

  The answer then carries the slot (`stop_mod`) and the count (`stop_index`).
- **Batch driver.** `generate_orbit_info_batch` seeds the maps from 200 admissible values and dropping times. It then collects one record per start in `[min_n, total)`. An exception from the simulator ends the batch, and the records collected so far are returned.
- **Utilities.** Two counting helpers: the values common to all lists, and the positions where all lists agree.

The repository has two copies of the construction, and both are modelled:
- `utils/collatz_construction.py`, the current one: maps are optional;
- `collatz_construction.py`, an older one: maps are mandatory and passed positionally. Its batch driver unpacks each answer as `(first_orbit, orbit, first_drop, …)`. That names the first three fields wrongly, but the record is built from them in the same order, so the swap cancels out. `LegacyConstruction.NextRecord` performs exactly this unpacking, and its contract shows the record still equals the simulator's answer.

The rule factories and the generators are identical in both files apart from docstrings, comments and redundant parentheses. They are modelled once, and the table cites the `utils/` copy.

Modelling choices:
- **Random draws.** The probabilistic rule's `random.random() < p` test is a boolean draw. The simulator takes a draw sequence `coins: nat -> bool`, where draw `i` is used at step `i`. The batch takes one such sequence per start.
- **Logarithms.** The floating-point logarithms are replaced by exact integer statements:
  - the test `(b+1-c)·log 3 < b·log 2` becomes `3^(b+1-c) < 2^b`;
  - `floor(1 + k + k·log2 3)` becomes `1 + k + FloorLog2(3^k)`. That function is characterised by `2^(t-1-k) ≤ 3^k < 2^(t-k)`.
- **Termination.** Whether the orbit loop stops is the Collatz conjecture, so the simulator takes a `fuel` bound. Running out gives `OutOfFuel`, and only when the orbit has not halted within `fuel` steps (`Orbits.Exhausts`); an orbit that halts within the bound always gets an answer (`Orbits.FuelSuffices`). That is not a Python exception, so the batch passes it on instead of swallowing it.
- **Index keys.** The index map's string keys `"L-s"` become `SlotKey(L, s)`. The seed entry with the integer key `1` becomes `SeedKey(1)`, so the two kinds of key cannot collide. Python's string keys cannot collide with the integer key either.
- **Index errors.** The `IndexError` that `get_admissible` raises when it runs past its arrays of `limit + 2` = 1002 entries (the write at index 1002, once `b` exceeds `limit` = 1000) becomes `Failure(IndexOutOfRange)`. It is checked at the top of the iteration that would overrun. The arrays are local, so nothing observable differs.

The two fixed answers are taken as the code gives them:
- the 3x+1 rule at start 1 answers first drop `1`, first orbit `[1, 4, 2]`, orbit `[1, 4, 2]`, slot 1, index 1;
- the 3x+3 rule at start 3 answers first drop `3`, first orbit `[3, 12, 6]`, orbit `[3, 12, 6]`, slot 1, index 1.

Both fixed answers bypass the maps. So in a 3x+1 batch, the record for start 1 (first drop 1, slot 1, ordinal 1) and the first simulated orbit whose first drop has length 1 (start 2) carry the same address. `Batches.ShortcutAddressRepeats` shows this. The uniqueness of addresses (`Batches.AddressesDistinct`) is stated for simulated records only. Neither fixed answer is what simulation would give: both starts halt at once under their rule, so the simulated orbit would be the start alone, with no first drop (`Orbits.ShortcutNotSimulated`).

## Model

| member | source | states |
|---|---|---|
| Rules.CreateCollatz3xPlus1Options | utils/collatz_construction.py:43-68 | name `3x_plus_1`, min start 1, fully supported; halts exactly at 1; odd values go to 3n+1 |
| Rules.CreateCollatz3xPlus3Options | utils/collatz_construction.py:70-95 | name `3x_plus_3`, min start 3, not fully supported; halts exactly at 3; odd values go to 3n+3 |
| Rules.CreateCollatzProbabilisticOptions | utils/collatz_construction.py:97-129 | name `probabilistic`, min start 1, not fully supported; halts exactly at n ≤ 3; odd values go to 3n+1 on a true draw and 3n+3 on a false one |
| Rules.BuiltInRulesAreParityRules | utils/collatz_construction.py:53-60 | every built-in rule decreases exactly the even values, by floor halving, and increases exactly the others (the same predicates recur at lines 80-87 and 110-117) |
| Rules.Step | utils/collatz_construction.py:238-241 | under a parity rule one step halves an even value exactly and applies the increase to an odd one |
| Rules.ParityStep | utils/collatz_construction.py:238-241 | for a parity rule, the decrease and increase selections are exclusive |
| Rules.BuiltInSteps | utils/collatz_construction.py:238-241 | the built-in rules step as the classic maps: n/2 for even n, and 3n+1, 3n+3, or the drawn one of the two, for odd n |
| Sequences.FloorLog2 | utils/collatz_construction.py:195 | the result m is the exact integer base-2 logarithm: 2^m ≤ x < 2^(m+1) |
| Sequences.PowStrictlyIncreasing | utils/collatz_construction.py:168 | powers of a base ≥ 2 strictly increase with the exponent, as the logarithmic comparison relies on |
| Sequences.FloorLog2Monotone | utils/collatz_construction.py:195 | the floor of the base-2 logarithm is monotone |
| Sequences.DroppingTime | utils/collatz_construction.py:194-196 | the k-th dropping time t satisfies 2^(t-1-k) ≤ 3^k < 2^(t-k), i.e. t = floor(1 + k + k·log2 3) |
| Sequences.DroppingTimeGap | utils/collatz_construction.py:194-196 | consecutive dropping times differ by at least 2 |
| Sequences.DroppingTimesIncreasing | utils/collatz_construction.py:194-196 | dropping times strictly increase with k |
| Sequences.DroppingTimeAtLeast3 | utils/collatz_construction.py:194-196 | every dropping time from k = 1 on is at least 3, so none collides with the seeded length 1 |
| Sequences.PowThreeDominatesTwo | utils/collatz_construction.py:168 | 2^e ≤ 3^e, so the lowest column never passes the harvest test |
| Sequences.Harvested | utils/collatz_construction.py:168 | the exact form 3^(b+1-c) < 2^b of the harvest test; column 1 is never harvested and column b+1 always is (b ≥ 1) |
| Sequences.HarvestedSuffix | utils/collatz_construction.py:167-170 | the columns a pass harvests form a suffix: a column above a harvested one is harvested too |
| Sequences.GetAllowableDroppingTimes | utils/collatz_construction.py:177-197 | empty for rules other than 3x+1; otherwise max(0, n_terms) terms, the i-th being the (i+1)-th dropping time, all ≥ 3 and strictly increasing |
| Sequences.GetAdmissible | utils/collatz_construction.py:132-174 | `Success([])` for rules other than 3x+1; a failure is only the index error of running past the arrays; on success for 3x+1 exactly max(0, n_terms) terms, each positive |
| Classification.ClassifyStep | utils/collatz_construction.py:248-265 | classification fails exactly when the length is missing from the lookup or wheel map, and reports which map |
| Classification.ClassifyStepFrame | utils/collatz_construction.py:252-265 | a successful classification advances only the wheel entry of L to slot+1; it raises only the count of key (L, slot), to its old count plus one, which is the returned index; the slot lies in 1..lookup[L] |
| Classification.DivModUnique | utils/collatz_construction.py:253-257 | quotient and remainder are determined by a = d·q + r with 0 ≤ r < d, the arithmetic behind the wheel's wrap-around |
| Classification.DivModNext | utils/collatz_construction.py:253-257 | counting k to k+1 either bumps the remainder mod d or wraps it to 0 and bumps the quotient |
| Classification.SlotCountsNext | utils/collatz_construction.py:259-265 | handing out slot s+1 once more moves the per-slot counts from (q, s) to the next round-robin position |
| Classification.RoundRobinStep | utils/collatz_construction.py:252-265 | after k classifications of length L with M = lookup[L] slots, the next one succeeds, gets slot k mod M + 1 and index k div M + 1, and leaves the maps in the state after k+1 |
| Classification.RoundRobinFrame | utils/collatz_construction.py:252-265 | classifying length L leaves the round-robin state of every other length unchanged |
| Classification.AddressInjective | utils/collatz_construction.py:256-265 | different positions k ≠ k' of a length receive different (slot, index) pairs |
| Classification.WheelWrapExample | utils/collatz_construction.py:253-257 | with two slots, three classifications get slots 1, 2, 1 and indexes 1, 1, 2 |
| Classification.SeededAt | utils/collatz_construction.py:303-304 | seeding the lookup map with distinct keys maps each dropping time to its admissible value, adds exactly those keys and keeps the rest |
| Classification.ClassificationMaps.GenerateMaps | utils/collatz_construction.py:272-285 | `generate_maps`: lookup {1:1}, wheel {1:1}, index {1:1}, which satisfy the class invariant that every length has a positive magnitude and a wheel slot in 1..magnitude+1 |
| Classification.ClassificationMaps.Populate | utils/collatz_construction.py:302-306 | seeding loop: lookup[t] := admissible[i], wheel[t] := 1, index[(t,1)] := 0 for each dropping time, every other entry unchanged; positive admissible values keep the class invariant |
| Classification.ClassificationMaps.Classify | utils/collatz_construction.py:248-265 | classifies in place exactly as ClassifyStep of the old maps, never changes lookup, keeps the class invariant, and under it hands out a slot within 1..lookup[L] |
| Orbits.ShortcutResult | utils/collatz_construction.py:225-228 | each fixed orbit is its rule's minimum start followed by two steps of that rule (1, 4, 2 and 3, 12, 6); its first orbit is the whole orbit, with slot 1 and index 1 |
| Orbits.ShortcutNotSimulated | utils/collatz_construction.py:225-228 | the fixed answers are not what simulation gives: both starts halt at once, and neither fixed orbit drops to its start after index 0 although each reports a first drop |
| Orbits.FirstDrop | utils/collatz_construction.py:244-246 | the first drop is the least index ≥ 1 whose value is ≤ the start, or none if no value is |
| Orbits.FirstDropExtend | utils/collatz_construction.py:244 | appending a value keeps an earlier first drop and otherwise records the new index exactly when the value is ≤ the start |
| Orbits.PrefixExtend | utils/collatz_construction.py:237-241 | one more step of the rule from a non-halting value extends an orbit prefix |
| Orbits.TotalOrbitUnique | utils/collatz_construction.py:237-268 | for a given rule and draws the whole orbit of a start is unique |
| Orbits.PrefixAgrees | utils/collatz_construction.py:237-241 | two orbit prefixes of the same start under the same draws agree: the shorter begins the longer |
| Orbits.FuelSuffices | utils/collatz_construction.py:230-268 | an orbit that halts within `fuel` steps never makes the simulation run out of fuel |
| Orbits.DropPrefix | utils/collatz_construction.py:244-246 | an orbit prefix that ends at its first value ≤ the start ends at the first drop of the whole orbit |
| Orbits.FirstOrbitShape | utils/collatz_construction.py:244-246 | the first orbit starts at n, has length first_drop, stays above n after its first value, and is followed in the orbit by a value ≤ n |
| Orbits.Simulate | utils/collatz_construction.py:230-270 | the answer's orbit is the orbit of n until it halts, with its first drop and first orbit; when classifying, the maps went through one ClassifyStep at the first-drop length and the answer carries its slot and index; an exception leaves the maps untouched and names a reachable first-drop length the maps lack; running out of fuel happens only when the orbit has not halted after `fuel` steps |
| Orbits.RunOrbit | utils/collatz_construction.py:225-270 | the two fixed answers (3x+1 at 1, 3x+3 at 3) with the maps untouched, and otherwise the simulation contract; out-of-fuel only for a non-fixed start whose orbit does not halt within `fuel` steps |
| CollatzConstruction.GenerateOrbitInfo | utils/collatz_construction.py:199-270 | classification happens exactly when the maps are supplied and the rule is fully supported; lookup never changes; absent maps give an unclassified answer except at the two fixed starts, which carry slot 1 and index 1; out-of-fuel only when the orbit does not halt within `fuel` steps |
| Batches.AddressesDistinct | utils/collatz_construction.py:310-314 | within a batch no two simulated records of the same first-drop length share a (stop_mod, stop_index) pair |
| Batches.SeenGrows | utils/collatz_construction.py:310-314 | a later record of a length has seen strictly more classifications of that length than an earlier one |
| Batches.ClassifyOutcome | utils/collatz_construction.py:248-265 | one answer, classified or not, moves the maps from the round-robin state of the counts so far to the state of the counts including it, and a classified answer holds the next address of its length |
| Batches.RecordFromContract | utils/collatz_construction.py:312-314 | the record built from a simulator answer is valid for its start: the fixed answer, or the simulated orbit classified exactly when the rule is fully supported and the orbit dropped, with slot and index ≥ 1 |
| Batches.BatchStep | utils/collatz_construction.py:310-314 | appending the record of the next start keeps every record valid, every length in its round-robin state and every classification at its address |
| Batches.SeededFresh | utils/collatz_construction.py:298-306 | after seeding, every known length has a positive magnitude, wheel slot 1 and no index counts, and the known lengths are 1 and the dropping times |
| Batches.SeededLengths | utils/collatz_construction.py:298-306 | the seeded lengths are exactly 1 and the first 200 dropping times for 3x+1, only 1 otherwise |
| Batches.ExceptionStops | utils/collatz_construction.py:249-250 | under the batch invariant an exception means the rule is fully supported and the start's first-drop length is not a seeded length |
| Batches.SeededValues | utils/collatz_construction.py:282-304 | the seeded lookup keeps 1 -> 1 and maps the i-th dropping time to the i-th admissible value |
| Batches.SeededDroppingTimes | utils/collatz_construction.py:298-304 | for 3x+1, the k-th dropping time (k ≤ 200) has the k-th admissible value as its magnitude |
| Batches.SeedMaps | utils/collatz_construction.py:298-306 | the batch's maps are fresh, satisfy the class invariant and know exactly the seeded lengths; lookup[1] = 1, and for 3x+1 the k-th dropping time has the k-th admissible value as its magnitude |
| Batches.RecordDoesNotStop | utils/collatz_construction.py:248-250 | a valid record whose simulated classification is at a seeded length is not at a start where the batch stops |
| Batches.BatchDoesNotStop | utils/collatz_construction.py:309-317 | under the batch invariant over the seeded maps no record collected so far is at a start where the batch stops |
| Batches.ShortcutAddressRepeats | utils/collatz_construction.py:226 | the fixed answer for 3x+1 at start 1 carries the address (slot 1, index 1) that the first simulated classification of length 1 in fresh maps also receives |
| CollatzConstruction.NextRecord | utils/collatz_construction.py:310-315 | one loop turn keeps the batch invariant, or fails at a start where the batch stops, or with out-of-fuel only when that start's orbit does not halt within `fuel` steps |
| CollatzConstruction.GenerateOrbitInfoBatch | utils/collatz_construction.py:287-319 | a generator index error and running out of fuel are passed on; otherwise records for consecutive starts from min_n, at most total − min_n of them, each the simulator's answer; a short batch ended at a start whose first-drop length is not seeded, and no returned record is at such a start, so it stopped at the first one; each simulated classification holds its round-robin address (slot k mod M + 1, index k div M + 1 for the k-th record of its length, M its magnitude) over a lookup of the seeded lengths with lookup[1] = 1, so simulated addresses are pairwise distinct per length; out-of-fuel only when some start in [min_n, total) does not halt within `fuel` steps |
| LegacyConstruction.GenerateOrbitInfo | collatz_construction.py:136-186 | with the maps always present, classification happens exactly when the rule is fully supported |
| LegacyConstruction.NextRecord | collatz_construction.py:207-209 | the swapped-name unpacking still builds the record equal to the simulator's answer and keeps the batch invariant |
| LegacyConstruction.GenerateOrbitInfoBatch | collatz_construction.py:196-212 | the same batch contract as the current variant: round-robin addresses over the seeded lookup, stops at the first start with an unseeded first-drop length, and fails for fuel only when some start's orbit does not halt within `fuel` steps |
| Utilities.CountCommonElements | utils/utilities.py:1-16 | the count is the number of distinct values present in every list, 0 for no lists |
| Utilities.CommonBounded | utils/utilities.py:12-16 | the common values lie in every list, and there are no more of them than the first list has distinct values or elements |
| Utilities.CommonSingle | utils/utilities.py:12-16 | a single list's common values are its distinct values |
| Utilities.CommonOrderFree | utils/utilities.py:12-14 | the common values depend only on which lists are given, not on their order or repetition |
| Utilities.ElementsAtMostLength | utils/utilities.py:12 | a list has at most as many distinct values as elements |
| Utilities.SubsetCardinality | utils/utilities.py:14 | narrowing a set by intersection never increases its size |
| Utilities.MinLength | utils/utilities.py:30 | the minimum length is the length of some list and no list is shorter |
| Utilities.AnyLengthDiffers | utils/utilities.py:31 | true exactly when some list's length differs from the given one |
| Utilities.AllMatchAt | utils/utilities.py:37 | true exactly when every list holds the first list's value at the position |
| Utilities.CountMatchingIndexes | utils/utilities.py:19-40 | 0 for no lists; ValueError exactly when the lengths differ; otherwise the number of positions where all lists agree |
| Utilities.MatchingBelowNext | utils/utilities.py:36-38 | extending the range by one position adds it exactly when all lists agree there |
| Utilities.MatchingBelowCount | utils/utilities.py:35-40 | below n there are at most n agreeing positions, exactly n when the lists agree everywhere below n |
| Utilities.MatchingBounded | utils/utilities.py:35-40 | the count never exceeds the common length |
| Utilities.MatchingIdentical | utils/utilities.py:35-40 | identical lists (in particular one list) have equal lengths and match at every position |

## Left out

- The `OrbitOptions` constructor, the `OrbitInfo` record class and its `__repr__` are plain data; they are the `OrbitOptions` and `OrbitInfo` datatypes.
- `append_to_orbit`: every factory's version appends the value, so the simulator appends directly.
- `random.random()` and the probability `p` of the probabilistic factory: the draw is a boolean argument, so `p` has no counterpart and `CreateCollatzProbabilisticOptions` takes no argument.
- Floating-point logarithms: replaced by exact integer comparisons. Rounding differences of `math.log` for very large exponents are not modelled.
- Orbit termination: the simulator runs under a `fuel` bound, and its exhaustion is a failure the source has no counterpart for.
- `print(e)` in the batch drivers: output is not modelled; the exception is swallowed as in the source.
- Maps supplied only in part to the current `generate_orbit_info` (some `None`, some not): the model takes all three or none, as one nullable object.
- Sequences.GetAdmissible: the contract states the length, positivity and error cases but not the values of OEIS A100982 themselves, because the source gives no independent definition to compare them with.
- CollatzConstruction.GenerateOrbitInfoBatch and LegacyConstruction.GenerateOrbitInfoBatch: do not state that the index error never occurs for 200 terms, which would need the A100982 terms to be computed.
- Plotting, the database layer and every other module of the repository are not part of this model.
