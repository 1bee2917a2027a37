/** The orbit simulator shared by both variants of the construction engine, and the specification of
    the orbit it produces. */
module Orbits {
  import opened Outcomes
  import opened Rules
  import opened Classification

  /** The simulator's answer `(first_drop, first_orbit, orbit, stop_mod, stop_index)`. */
  datatype OrbitResult = OrbitResult(
    firstDrop: Option<int>,
    firstOrbit: Option<seq<int>>,
    totalOrbit: seq<int>,
    stopMod: Option<int>,
    stopIndex: Option<int>)

  /** The record the batch driver collects for each start (OrbitInfo). */
  datatype OrbitInfo = OrbitInfo(
    n: int,
    firstDrop: Option<int>,
    firstOrbit: Option<seq<int>>,
    totalOrbit: seq<int>,
    stopMod: Option<int>,
    stopIndex: Option<int>)

  /** The two starts answered by a fixed value instead of by simulation. */
  predicate IsShortcut(name: string, n: int) {
    (name == "3x_plus_1" && n == 1) || (name == "3x_plus_3" && n == 3)
  }

  /** The fixed answers: `[1, [1, 4, 2], [1, 4, 2], 1, 1]` and `[3, [3, 12, 6], [3, 12, 6], 1, 1]`. Each
      orbit is the rule's minimum start followed by two steps of the rule, its first orbit is the whole
      orbit, and it carries slot 1 and index 1. */
  function ShortcutResult(n: int): (r: OrbitResult)
    ensures var opts := if n == 1 then CreateCollatz3xPlus1Options() else CreateCollatz3xPlus3Options();
      && |r.totalOrbit| == 3 && r.totalOrbit[0] == opts.minN
      && (forall i, coin :: 0 <= i < 2 ==> r.totalOrbit[i + 1] == Step(opts, r.totalOrbit[i], coin))
      && r.firstOrbit == Some(r.totalOrbit) && r.stopMod == Some(1) && r.stopIndex == Some(1)
  {
    BuiltInRulesAreParityRules();
    if n == 1 then OrbitResult(Some(1), Some([1, 4, 2]), [1, 4, 2], Some(1), Some(1))
    else OrbitResult(Some(3), Some([3, 12, 6]), [3, 12, 6], Some(1), Some(1))
  }

  /** The fixed answers are not what the simulation would give: both starts halt at once, so their
      whole orbit is the start alone, and neither fixed orbit drops to or below its start after index 0
      although each reports a first drop. */
  lemma ShortcutNotSimulated(coins: nat -> bool)
    ensures !IsTotalOrbit(CreateCollatz3xPlus1Options(), coins, 1, ShortcutResult(1).totalOrbit)
    ensures !IsTotalOrbit(CreateCollatz3xPlus3Options(), coins, 3, ShortcutResult(3).totalOrbit)
    ensures FirstDrop(ShortcutResult(1).totalOrbit, 1) == None && ShortcutResult(1).firstDrop.Some?
    ensures FirstDrop(ShortcutResult(3).totalOrbit, 3) == None && ShortcutResult(3).firstDrop.Some?
  {
    var o1, o3 := ShortcutResult(1).totalOrbit, ShortcutResult(3).totalOrbit;
    assert o1 == [1, 4, 2] && o3 == [3, 12, 6];
    assert o1[..2] == [1, 4] && o1[..1] == [1] && o3[..2] == [3, 12] && o3[..1] == [3];
  }

  /** o is the orbit of start so far: it begins at start, each element is one step of the rule from the
      previous one (step i using draw coins(i)), and no element before the last halts. */
  ghost predicate IsOrbitPrefix(opts: OrbitOptions, coins: nat -> bool, start: int, o: seq<int>) {
    && |o| >= 1
    && o[0] == start
    && forall i :: 0 <= i < |o| - 1 ==> !opts.shouldHalt(o[i]) && o[i + 1] == Step(opts, o[i], coins(i))
  }

  /** o is the whole orbit of start: an orbit prefix whose last element halts. */
  ghost predicate IsTotalOrbit(opts: OrbitOptions, coins: nat -> bool, start: int, o: seq<int>) {
    IsOrbitPrefix(opts, coins, start, o) && opts.shouldHalt(o[|o| - 1])
  }

  /** The first drop of an orbit: the least index j >= 1 whose value is <= the start, if any. */
  function FirstDrop(o: seq<int>, start: int): (r: Option<int>)
    ensures r.Some? ==> 1 <= r.value < |o| && o[r.value] <= start
    ensures r.Some? ==> forall j :: 1 <= j < r.value ==> o[j] > start
    ensures r.None? ==> forall j :: 1 <= j < |o| ==> o[j] > start
  {
    if |o| <= 1 then None
    else
      var earlier := FirstDrop(o[..|o| - 1], start);
      if earlier.Some? then earlier
      else if o[|o| - 1] <= start then Some(|o| - 1)
      else None
  }

  /** An index past which nothing before has dropped, and whose value is <= the start, is the first drop. */
  lemma FirstDropAt(o: seq<int>, start: int, k: int)
    requires 1 <= k < |o| && o[k] <= start
    requires forall j :: 1 <= j < k ==> o[j] > start
    ensures FirstDrop(o, start) == Some(k)
  {
  }

  /** Extending an orbit by one value keeps an earlier first drop, and otherwise records the new index
      if the new value is <= the start. */
  lemma FirstDropExtend(o: seq<int>, start: int, x: int)
    requires |o| >= 1
    ensures FirstDrop(o + [x], start) ==
      if FirstDrop(o, start).Some? then FirstDrop(o, start)
      else if x <= start then Some(|o|)
      else None
  {
    assert (o + [x])[..|o|] == o;
  }

  /** One more step keeps an orbit prefix an orbit prefix, and leaves its earlier prefixes as they were. */
  lemma PrefixExtend(opts: OrbitOptions, coins: nat -> bool, start: int, o: seq<int>, x: int)
    requires IsOrbitPrefix(opts, coins, start, o) && !opts.shouldHalt(o[|o| - 1])
    requires x == Step(opts, o[|o| - 1], coins(|o| - 1))
    ensures IsOrbitPrefix(opts, coins, start, o + [x])
    ensures forall j :: 0 <= j <= |o| ==> (o + [x])[..j] == o[..j]
  {
  }

  /** Two orbit prefixes of the same start under the same draws agree: the shorter one begins the longer. */
  lemma {:induction false} PrefixAgrees(opts: OrbitOptions, coins: nat -> bool, start: int, o: seq<int>, o': seq<int>)
    requires IsOrbitPrefix(opts, coins, start, o) && IsOrbitPrefix(opts, coins, start, o') && |o| <= |o'|
    ensures o == o'[..|o|]
  {
    if |o| > 1 {
      var p := o[..|o| - 1];
      assert IsOrbitPrefix(opts, coins, start, p);
      PrefixAgrees(opts, coins, start, p, o');
      assert o[|o| - 2] == p[|o| - 2] == o'[|o| - 2];
      assert o == p + [o[|o| - 1]] && o'[..|o|] == o'[..|o| - 1] + [o'[|o| - 1]];
    }
  }

  /** The orbit of n does not halt within fuel steps: its prefix of fuel + 1 values ends at a value that
      does not halt. */
  ghost predicate Exhausts(opts: OrbitOptions, coins: nat -> bool, n: int, fuel: nat) {
    exists o :: IsOrbitPrefix(opts, coins, n, o) && |o| == fuel + 1 && !opts.shouldHalt(o[|o| - 1])
  }

  /** Fuel for at least as many steps as the whole orbit takes never runs out. */
  lemma FuelSuffices(opts: OrbitOptions, coins: nat -> bool, n: int, o: seq<int>, fuel: nat)
    requires IsTotalOrbit(opts, coins, n, o) && |o| <= fuel + 1
    ensures !Exhausts(opts, coins, n, fuel)
  {
    if Exhausts(opts, coins, n, fuel) {
      var p :| IsOrbitPrefix(opts, coins, n, p) && |p| == fuel + 1 && !opts.shouldHalt(p[|p| - 1]);
      PrefixAgrees(opts, coins, n, o, p);
      assert false;
    }
  }

  /** An orbit prefix that ends at its first drop ends at the first drop of the whole orbit. */
  lemma DropPrefix(opts: OrbitOptions, coins: nat -> bool, n: int, o: seq<int>, t: seq<int>)
    requires IsOrbitPrefix(opts, coins, n, o) && |o| >= 2 && FirstDrop(o, n) == Some(|o| - 1)
    requires IsTotalOrbit(opts, coins, n, t)
    ensures FirstDrop(t, n) == Some(|o| - 1)
  {
    if |t| < |o| {
      PrefixAgrees(opts, coins, n, t, o);
      assert false;
    }
    var k := |o| - 1;
    PrefixAgrees(opts, coins, n, o, t);
    assert t[k] <= n by { assert t[k] == o[k]; }
    forall j | 1 <= j < k ensures t[j] > n {
      assert t[j] == o[j];
    }
    FirstDropAt(t, n, k);
  }

  /** For a given rule and sequence of draws the whole orbit of a start is unique: the step rule and the
      halting predicate leave no choice. */
  lemma {:induction false} TotalOrbitUnique(opts: OrbitOptions, coins: nat -> bool, start: int, o: seq<int>, o': seq<int>)
    requires IsTotalOrbit(opts, coins, start, o) && IsTotalOrbit(opts, coins, start, o')
    ensures o == o'
  {
    var i := 0;
    while i < |o| - 1 && i < |o'| - 1 && o[i] == o'[i]
      invariant 0 <= i < |o| && i < |o'|
      invariant o[..i + 1] == o'[..i + 1]
    {
      assert o[i + 1] == o'[i + 1];
      assert o[..i + 2] == o[..i + 1] + [o[i + 1]] && o'[..i + 2] == o'[..i + 1] + [o'[i + 1]];
      i := i + 1;
    }
    assert o[i] == o'[i] by { assert o[..i + 1][i] == o[i] && o'[..i + 1][i] == o'[i]; }
    assert i == |o| - 1 && i == |o'| - 1;
    assert o == o[..i + 1] && o' == o'[..i + 1];
  }

  /** The non-classification part of a simulated answer: the total orbit is the orbit of n, the first
      drop is its first drop, and the first orbit is the prefix before that drop. */
  ghost predicate Simulated(opts: OrbitOptions, coins: nat -> bool, n: int, res: OrbitResult) {
    && IsTotalOrbit(opts, coins, n, res.totalOrbit)
    && res.firstDrop == FirstDrop(res.totalOrbit, n)
    && (res.firstDrop.None? ==> res.firstOrbit.None?)
    && (res.firstDrop.Some? ==> res.firstOrbit == Some(res.totalOrbit[..res.firstDrop.value]))
  }

  /** The first orbit of a simulated answer starts at n, stays strictly above n after its first value,
      has length first_drop >= 1 and is followed in the total orbit by a value <= n. */
  lemma FirstOrbitShape(opts: OrbitOptions, coins: nat -> bool, n: int, res: OrbitResult)
    requires Simulated(opts, coins, n, res) && res.firstDrop.Some?
    ensures var L, f := res.firstDrop.value, res.firstOrbit.value;
      && L >= 1 && |f| == L && f[0] == n
      && f == res.totalOrbit[..L] && res.totalOrbit[L] <= n
      && forall j :: 1 <= j < L ==> f[j] > n
  {
  }

  /** The classification part of an answer: when classifying and the orbit dropped, the maps went
      through exactly one ClassifyStep at the first-drop length and the answer carries its slot and
      ordinal; otherwise neither map changed and both fields are None. */
  ghost predicate ClassifiedOnce(classify: bool, lookup: map<int, int>, wheel: map<int, int>, index: map<IndexKey, int>,
                             wheel': map<int, int>, index': map<IndexKey, int>, res: OrbitResult)
  {
    if classify && res.firstDrop.Some? then
      var s := ClassifyStep(lookup, wheel, index, res.firstDrop.value);
      && s.Success?
      && res.stopMod == Some(s.value.stopMod) && res.stopIndex == Some(s.value.stopIndex)
      && wheel' == s.value.wheel && index' == s.value.index
    else
      res.stopMod.None? && res.stopIndex.None? && wheel' == wheel && index' == index
  }

  /** What one call of the simulator promises, given the maps before (lookup, wheel, index) and the
      wheel and index maps after. */
  ghost predicate OrbitContract(opts: OrbitOptions, coins: nat -> bool, n: int, classify: bool,
                                lookup: map<int, int>, wheel: map<int, int>, index: map<IndexKey, int>,
                                wheel': map<int, int>, index': map<IndexKey, int>, r: Result<OrbitResult>)
  {
    && (IsShortcut(opts.name, n) ==> r == Success(ShortcutResult(n)) && wheel' == wheel && index' == index)
    && (!IsShortcut(opts.name, n) && r.Success? ==>
          Simulated(opts, coins, n, r.value) && ClassifiedOnce(classify, lookup, wheel, index, wheel', index', r.value))
    && (r.Failure? && IsException(r.error) ==>
          && !IsShortcut(opts.name, n) && classify && wheel' == wheel && index' == index
          && exists o :: && IsOrbitPrefix(opts, coins, n, o) && |o| >= 2 && FirstDrop(o, n) == Some(|o| - 1)
                         && ClassifyStep(lookup, wheel, index, |o| - 1) == Failure(r.error))
  }

  /** `generate_orbit_info` with the classification switched on or off by the caller: the two fixed
      answers, and otherwise the simulation loop. */
  method RunOrbit(n: int, opts: OrbitOptions, maps: ClassificationMaps?, classify: bool, coins: nat -> bool, fuel: nat)
    returns (r: Result<OrbitResult>)
    requires classify ==> maps != null
    modifies maps
    ensures maps != null ==> maps.lookup == old(maps.lookup)
    ensures maps != null && old(maps.Consistent()) ==> maps.Consistent()
    ensures maps != null ==> OrbitContract(opts, coins, n, classify, old(maps.lookup), old(maps.wheel), old(maps.index),
                                           maps.wheel, maps.index, r)
    ensures maps == null ==> OrbitContract(opts, coins, n, false, map[], map[], map[], map[], map[], r)
    ensures r == Failure(OutOfFuel) ==> !IsShortcut(opts.name, n) && Exhausts(opts, coins, n, fuel)
  {
    if opts.name == "3x_plus_1" && n == 1 {
      return Success(OrbitResult(Some(1), Some([1, 4, 2]), [1, 4, 2], Some(1), Some(1)));
    }
    if opts.name == "3x_plus_3" && n == 3 {
      return Success(OrbitResult(Some(3), Some([3, 12, 6]), [3, 12, 6], Some(1), Some(1)));
    }
    r := Simulate(n, opts, maps, classify, coins, fuel);
  }

  /** The simulation loop of `generate_orbit_info`: steps from n until the rule halts, snapshots the
      orbit at the first value <= n and, when classifying, classifies the orbit there, once. `fuel`
      bounds the number of steps, since termination is the Collatz conjecture. */
  method Simulate(n: int, opts: OrbitOptions, maps: ClassificationMaps?, classify: bool, coins: nat -> bool, fuel: nat)
    returns (r: Result<OrbitResult>)
    requires classify ==> maps != null
    modifies maps
    ensures maps != null ==> maps.lookup == old(maps.lookup)
    ensures maps != null && old(maps.Consistent()) ==> maps.Consistent()
    ensures r.Success? ==> Simulated(opts, coins, n, r.value)
    ensures r.Success? && maps != null ==>
      ClassifiedOnce(classify, old(maps.lookup), old(maps.wheel), old(maps.index), maps.wheel, maps.index, r.value)
    ensures r.Success? && maps == null ==> r.value.stopMod.None? && r.value.stopIndex.None?
    ensures r == Failure(OutOfFuel) ==> Exhausts(opts, coins, n, fuel)
    ensures r.Failure? && IsException(r.error) ==>
      && classify && maps.wheel == old(maps.wheel) && maps.index == old(maps.index)
      && exists o :: && IsOrbitPrefix(opts, coins, n, o) && |o| >= 2 && FirstDrop(o, n) == Some(|o| - 1)
                     && ClassifyStep(old(maps.lookup), old(maps.wheel), old(maps.index), |o| - 1) == Failure(r.error)
  {
    ghost var lookup0, wheel0, index0 := map[], map[], map[];
    if maps != null {
      lookup0, wheel0, index0 := maps.lookup, maps.wheel, maps.index;
    }
    var cur := n;
    var orbit := [n];
    var firstOrbit: Option<seq<int>> := None;
    var stopMod: Option<int> := None;
    var stopIndex: Option<int> := None;
    var firstDrop: Option<int> := None;
    var fuelLeft: nat := fuel;
    while !opts.shouldHalt(cur)
      invariant IsOrbitPrefix(opts, coins, n, orbit) && cur == orbit[|orbit| - 1]
      invariant fuelLeft <= fuel && |orbit| == fuel - fuelLeft + 1
      invariant firstDrop == FirstDrop(orbit, n)
      invariant firstDrop.None? ==> firstOrbit.None?
      invariant firstDrop.Some? ==> firstOrbit == Some(orbit[..firstDrop.value])
      invariant maps != null ==> maps.lookup == lookup0
      invariant maps != null && old(maps.Consistent()) ==> maps.Consistent()
      invariant maps != null ==> ClassifiedOnce(classify, lookup0, wheel0, index0, maps.wheel, maps.index,
                                            OrbitResult(firstDrop, firstOrbit, orbit, stopMod, stopIndex))
      invariant maps == null ==> stopMod.None? && stopIndex.None?
      decreases fuelLeft
    {
      if fuelLeft == 0 {
        assert IsOrbitPrefix(opts, coins, n, orbit) && |orbit| == fuel + 1 && !opts.shouldHalt(orbit[|orbit| - 1]);
        return Failure(OutOfFuel);
      }
      fuelLeft := fuelLeft - 1;
      if opts.shouldDecrease(cur) {
        cur := opts.decrease(cur);
      } else {
        cur := opts.increase(cur, coins(|orbit| - 1));
      }
      PrefixExtend(opts, coins, n, orbit, cur);
      FirstDropExtend(orbit, n, cur);
      if cur <= n && firstOrbit.None? {
        firstOrbit := Some(orbit);
        firstDrop := Some(|orbit|);
        if classify {
          var c := maps.Classify(|orbit|);
          if c.Failure? {
            return Failure(c.error);
          }
          stopMod := Some(c.value.0);
          stopIndex := Some(c.value.1);
        }
      }
      orbit := orbit + [cur];
    }
    return Success(OrbitResult(firstDrop, firstOrbit, orbit, stopMod, stopIndex));
  }
}
