/** Rule bundles ("orbit options") of generalized Collatz maps. */
module Rules {

  /** A rule: its name (which gates classification), the smallest start it is run from, a halting
      predicate, the two step-selection predicates and the two transforms. The random draw of the
      probabilistic rule is the explicit argument `coin` of `increase`; deterministic rules ignore it. */
  datatype OrbitOptions = OrbitOptions(
    name: string,
    minN: int,
    shouldHalt: int -> bool,
    shouldDecrease: int -> bool,
    shouldIncrease: int -> bool,
    decrease: int -> int,
    increase: (int, bool) -> int)

  /** Names of the rules for which the classification maps are maintained. */
  const FullySupportedOptionNames: seq<string> := ["3x_plus_1"]

  /** One step of an orbit: `decrease` when `shouldDecrease` holds, `increase` otherwise. Under a
      parity rule an even value is halved exactly and an odd value takes the increase. */
  function Step(opts: OrbitOptions, n: int, coin: bool): (m: int)
    ensures ParityRule(opts) && n % 2 == 0 ==> 2 * m == n
    ensures ParityRule(opts) && n % 2 != 0 ==> m == opts.increase(n, coin)
  {
    if opts.shouldDecrease(n) then opts.decrease(n) else opts.increase(n, coin)
  }

  /** The step-selection predicates and the decreasing transform every built-in rule uses. */
  predicate IsEven(n: int) { n % 2 == 0 }

  predicate IsOdd(n: int) { n % 2 != 0 }

  function Halve(n: int): int { n / 2 }

  /** The parity skeleton shared by every built-in rule: even values halve, odd values take the
      increasing transform. Division by the positive 2 rounds toward minus infinity in Dafny, as
      Python's `//` does. */
  ghost predicate ParityRule(opts: OrbitOptions) {
    forall n ::
      && (opts.shouldDecrease(n) <==> n % 2 == 0)
      && (opts.shouldIncrease(n) <==> !opts.shouldDecrease(n))
      && opts.decrease(n) == n / 2
  }

  /** The classic 3x+1 rule: halts at 1, odd n goes to 3n+1. */
  function CreateCollatz3xPlus1Options(): (o: OrbitOptions)
    ensures o.name == "3x_plus_1" && o.minN == 1 && o.name in FullySupportedOptionNames
    ensures forall n :: o.shouldHalt(n) <==> n == 1
    ensures forall n, coin :: o.increase(n, coin) == 3 * n + 1
  {
    OrbitOptions("3x_plus_1", 1,
      n => n == 1, IsEven, IsOdd, Halve, (n, coin) => 3 * n + 1)
  }

  /** The 3x+3 rule: halts at 3, odd n goes to 3n+3. */
  function CreateCollatz3xPlus3Options(): (o: OrbitOptions)
    ensures o.name == "3x_plus_3" && o.minN == 3 && o.name !in FullySupportedOptionNames
    ensures forall n :: o.shouldHalt(n) <==> n == 3
    ensures forall n, coin :: o.increase(n, coin) == 3 * n + 3
  {
    OrbitOptions("3x_plus_3", 3,
      n => n == 3, IsEven, IsOdd, Halve, (n, coin) => 3 * n + 3)
  }

  /** The probabilistic rule: halts at any value <= 3; odd n goes to 3n+1 when the draw is below p
      (`coin` true) and to 3n+3 otherwise. */
  function CreateCollatzProbabilisticOptions(): (o: OrbitOptions)
    ensures o.name == "probabilistic" && o.minN == 1 && o.name !in FullySupportedOptionNames
    ensures forall n :: o.shouldHalt(n) <==> n <= 3
    ensures forall n :: o.increase(n, true) == 3 * n + 1
    ensures forall n :: o.increase(n, false) == 3 * n + 3
  {
    OrbitOptions("probabilistic", 1, n => n <= 3, IsEven, IsOdd, Halve, ProbabilisticIncrease)
  }

  /** The probabilistic increase: 3n+1 when the draw is below p, 3n+3 otherwise. */
  function ProbabilisticIncrease(n: int, coin: bool): int {
    if coin then 3 * n + 1 else 3 * n + 3
  }

  /** All three built-in rules share the parity skeleton. */
  lemma BuiltInRulesAreParityRules()
    ensures ParityRule(CreateCollatz3xPlus1Options())
    ensures ParityRule(CreateCollatz3xPlus3Options())
    ensures ParityRule(CreateCollatzProbabilisticOptions())
  {
  }

  /** Under any parity rule the two step-selection predicates never agree. */
  lemma ParityStep(opts: OrbitOptions, n: int)
    requires ParityRule(opts)
    ensures opts.shouldDecrease(n) != opts.shouldIncrease(n)
  {
  }

  /** The steps of the built-in rules are the classic maps: n/2 for even n, and 3n+1, 3n+3, or the
      drawn one of the two, for odd n. */
  lemma BuiltInSteps(n: int, coin: bool)
    ensures Step(CreateCollatz3xPlus1Options(), n, coin) == if n % 2 == 0 then n / 2 else 3 * n + 1
    ensures Step(CreateCollatz3xPlus3Options(), n, coin) == if n % 2 == 0 then n / 2 else 3 * n + 3
    ensures Step(CreateCollatzProbabilisticOptions(), n, coin) ==
      if n % 2 == 0 then n / 2 else if coin then 3 * n + 1 else 3 * n + 3
  {
    BuiltInRulesAreParityRules();
  }
}
