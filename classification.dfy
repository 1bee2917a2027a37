/** The classification state: the lookup, wheel and index maps and the update performed once per orbit
    at its first drop. */
module Classification {
  import opened Outcomes

  /** Keys of the index map. The source keys it by the strings `f'{L}-{slot}'`, an injective encoding
      of the pair for positive integers, plus one seeded integer key `1` that no update ever produces. */
  datatype IndexKey = SeedKey(key: int) | SlotKey(length: int, slot: int)

  /** The occurrence count recorded for a key; an absent key counts as 0, since the update creates it at 1. */
  function Count(index: map<IndexKey, int>, key: IndexKey): int {
    if key in index then index[key] else 0
  }

  /** The maps after one classification, with the slot and the ordinal it assigned. */
  datatype Classified = Classified(wheel: map<int, int>, index: map<IndexKey, int>, stopMod: int, stopIndex: int)

  /** The classification of an orbit whose first drop has length L. It fails, changing nothing, when L
      has no lookup entry or no wheel entry; otherwise it wraps the wheel slot of L back to 1 once it
      exceeds the magnitude lookup[L], hands out that slot and advances the wheel by one, and bumps the
      occurrence count of (L, slot). */
  function ClassifyStep(lookup: map<int, int>, wheel: map<int, int>, index: map<IndexKey, int>, L: int)
    : (r: Result<Classified>)
    ensures r.Failure? <==> L !in lookup || L !in wheel
    ensures r.Failure? ==> r.error == (if L !in lookup then MissingLookup(L) else MissingWheel(L))
  {
    if L !in lookup then Failure(MissingLookup(L))
    else if L !in wheel then Failure(MissingWheel(L))
    else
      var slot := if wheel[L] > lookup[L] then 1 else wheel[L];
      var key := SlotKey(L, slot);
      var count := if key in index then index[key] + 1 else 1;
      Success(Classified(wheel[L := slot + 1], index[key := count], slot, count))
  }

  /** A successful classification at length L: the slot lies in 1..lookup[L] whenever the wheel slot and
      the magnitude of L are positive, the wheel of L then points one past it, the count of (L, slot) grows
      by one (from 0 when absent) and is the ordinal handed out, and no other wheel or index entry changes. */
  lemma ClassifyStepFrame(lookup: map<int, int>, wheel: map<int, int>, index: map<IndexKey, int>, L: int)
    requires ClassifyStep(lookup, wheel, index, L).Success?
    ensures var c := ClassifyStep(lookup, wheel, index, L).value;
      && c.wheel.Keys == wheel.Keys
      && c.wheel[L] == c.stopMod + 1
      && (forall k :: k in wheel && k != L ==> c.wheel[k] == wheel[k])
      && (1 <= wheel[L] && 1 <= lookup[L] ==> 1 <= c.stopMod <= lookup[L])
      && c.index.Keys == index.Keys + {SlotKey(L, c.stopMod)}
      && c.stopIndex == c.index[SlotKey(L, c.stopMod)] == Count(index, SlotKey(L, c.stopMod)) + 1
      && (forall k :: k in index && k != SlotKey(L, c.stopMod) ==> c.index[k] == index[k])
  {
  }

  /** Slot m of length L has been handed out q times, plus once more for the first s slots. */
  ghost predicate SlotCounts(index: map<IndexKey, int>, L: int, M: int, q: int, s: int) {
    forall m :: 1 <= m <= M ==> Count(index, SlotKey(L, m)) == q + (if m - 1 < s then 1 else 0)
  }

  /** The state of length L after k classifications of orbits of that length, starting from wheel slot 1
      and no counts, with M = lookup[L]: the wheel points at slot k mod M + 1 (or one past the last slot),
      and slot m has been handed out once for every j < k with j mod M = m - 1. */
  ghost predicate RoundRobin(lookup: map<int, int>, wheel: map<int, int>, index: map<IndexKey, int>, L: int, k: nat)
  {
    && L in lookup && L in wheel && lookup[L] >= 1
    && 1 <= wheel[L] <= lookup[L] + 1
    && (wheel[L] - 1) % lookup[L] == k % lookup[L]
    && SlotCounts(index, L, lookup[L], k / lookup[L], k % lookup[L])
  }

  lemma {:induction false} MulAtLeast(d: int, t: int)
    requires d >= 1 && t >= 1
    ensures d * t >= d
  {
    if t > 1 {
      MulAtLeast(d, t - 1);
      assert d * t == d * (t - 1) + d;
    }
  }

  lemma DivModUnique(a: int, d: int, q: int, r: int)
    requires d >= 1 && 0 <= r < d && a == d * q + r
    ensures a / d == q && a % d == r
  {
    var q', r' := a / d, a % d;
    assert a == d * q' + r';
    var t := q' - q;
    assert d * t == r - r' by {
      assert d * q' - d * q == d * t;
    }
    if t >= 1 {
      MulAtLeast(d, t);
    } else if t <= -1 {
      MulAtLeast(d, -t);
    }
  }

  lemma DivModNext(k: nat, d: int)
    requires d >= 1
    ensures k % d < d - 1 ==> (k + 1) / d == k / d && (k + 1) % d == k % d + 1
    ensures k % d == d - 1 ==> (k + 1) / d == k / d + 1 && (k + 1) % d == 0
  {
    assert k == d * (k / d) + k % d;
    if k % d < d - 1 {
      DivModUnique(k + 1, d, k / d, k % d + 1);
    } else {
      DivModUnique(k + 1, d, k / d + 1, 0);
    }
  }

  /** Handing out slot s + 1 once more moves the slot counts from position (q, s) to the next one. */
  lemma SlotCountsNext(index: map<IndexKey, int>, index': map<IndexKey, int>, L: int, M: int, q: int, s: int, q': int, s': int)
    requires M >= 1 && 0 <= s < M && SlotCounts(index, L, M, q, s)
    requires Count(index', SlotKey(L, s + 1)) == Count(index, SlotKey(L, s + 1)) + 1
    requires forall m :: 1 <= m <= M && m != s + 1 ==> Count(index', SlotKey(L, m)) == Count(index, SlotKey(L, m))
    requires (s < M - 1 && q' == q && s' == s + 1) || (s == M - 1 && q' == q + 1 && s' == 0)
    ensures SlotCounts(index', L, M, q', s')
  {
    forall m | 1 <= m <= M
      ensures Count(index', SlotKey(L, m)) == q' + (if m - 1 < s' then 1 else 0)
    {
      if m != s + 1 {
        assert Count(index', SlotKey(L, m)) == Count(index, SlotKey(L, m));
      }
    }
  }

  /** Round-robin: the (k+1)-th orbit of first-drop length L gets slot k mod M + 1 and ordinal k div M + 1,
      where M = lookup[L], and leaves length L in the state after k + 1 classifications. */
  lemma RoundRobinStep(lookup: map<int, int>, wheel: map<int, int>, index: map<IndexKey, int>, L: int, k: nat)
    requires RoundRobin(lookup, wheel, index, L, k)
    ensures var r := ClassifyStep(lookup, wheel, index, L);
      && r.Success?
      && r.value.stopMod == k % lookup[L] + 1
      && r.value.stopIndex == k / lookup[L] + 1
      && RoundRobin(lookup, r.value.wheel, r.value.index, L, k + 1)
  {
    var M := lookup[L];
    var q, s := k / M, k % M;
    var q', s' := (k + 1) / M, (k + 1) % M;
    DivModNext(k, M);
    var c := ClassifyStep(lookup, wheel, index, L).value;
    assert c.stopMod == s + 1 by {
      if wheel[L] <= M {
        DivModUnique(wheel[L] - 1, M, 0, wheel[L] - 1);
      } else {
        DivModUnique(M, M, 1, 0);
      }
    }
    SlotCountsNext(index, c.index, L, M, q, s, q', s');
    assert (c.wheel[L] - 1) % M == s' by {
      if s == M - 1 {
        DivModUnique(M, M, 1, 0);
      } else {
        DivModUnique(s + 1, M, 0, s + 1);
      }
    }
  }

  /** Classifying an orbit of length L leaves the round-robin state of every other length as it was. */
  lemma RoundRobinFrame(lookup: map<int, int>, wheel: map<int, int>, index: map<IndexKey, int>, L: int, L': int, k: nat)
    requires L != L' && RoundRobin(lookup, wheel, index, L', k)
    requires ClassifyStep(lookup, wheel, index, L).Success?
    ensures var c := ClassifyStep(lookup, wheel, index, L).value;
      RoundRobin(lookup, c.wheel, c.index, L', k)
  {
    var c := ClassifyStep(lookup, wheel, index, L).value;
    forall m | 1 <= m <= lookup[L']
      ensures Count(c.index, SlotKey(L', m)) == Count(index, SlotKey(L', m))
    {
    }
  }

  /** The addresses (slot, ordinal) handed out for one length never repeat: distinct positions k give
      distinct pairs (k mod M + 1, k div M + 1). */
  lemma AddressInjective(k: nat, k': nat, M: int)
    requires M >= 1 && k != k'
    ensures (k % M + 1, k / M + 1) != (k' % M + 1, k' / M + 1)
  {
    assert k == M * (k / M) + k % M;
    assert k' == M * (k' / M) + k' % M;
  }

  /** Wrap-around with magnitude 2: three successive orbits of one length get slots 1, 2, 1 with ordinals
      1, 1, 2. */
  lemma WheelWrapExample(L: int)
    ensures var lookup, wheel, index := map[L := 2], map[L := 1], map[SlotKey(L, 1) := 0];
      var r1 := ClassifyStep(lookup, wheel, index, L);
      r1.Success? && r1.value.stopMod == 1 && r1.value.stopIndex == 1 &&
      var r2 := ClassifyStep(lookup, r1.value.wheel, r1.value.index, L);
      r2.Success? && r2.value.stopMod == 2 && r2.value.stopIndex == 1 &&
      var r3 := ClassifyStep(lookup, r2.value.wheel, r2.value.index, L);
      r3.Success? && r3.value.stopMod == 1 && r3.value.stopIndex == 2
  {
  }

  /** The lookup map after seeding: entry keys[i] := vals[i] written in order, later writes winning. */
  function Seeded(m: map<int, int>, keys: seq<int>, vals: seq<int>): map<int, int>
    requires |vals| >= |keys|
    decreases |keys|
  {
    if keys == [] then m else Seeded(m, keys[..|keys| - 1], vals)[keys[|keys| - 1] := vals[|keys| - 1]]
  }

  /** With pairwise distinct keys, seeding maps each keys[i] to vals[i], adds exactly those keys and
      leaves every other entry alone. */
  lemma {:induction false} SeededAt(m: map<int, int>, keys: seq<int>, vals: seq<int>)
    requires |vals| >= |keys|
    requires forall i, j :: 0 <= i < j < |keys| ==> keys[i] != keys[j]
    ensures Seeded(m, keys, vals).Keys == m.Keys + set t | t in keys
    ensures forall i :: 0 <= i < |keys| ==> Seeded(m, keys, vals)[keys[i]] == vals[i]
    ensures forall t :: t in m && t !in keys ==> Seeded(m, keys, vals)[t] == m[t]
  {
    if keys != [] {
      var n := |keys| - 1;
      SeededAt(m, keys[..n], vals);
      assert keys == keys[..n] + [keys[n]];
    }
  }

  /** The index keys (t, 1) of the given lengths. */
  function SlotKeys(lengths: seq<int>): set<IndexKey> {
    set t | t in lengths :: SlotKey(t, 1)
  }

  /** The three mutable dictionaries of a batch, updated in place by the orbit simulator. */
  class ClassificationMaps {
    var lookup: map<int, int>
    var wheel: map<int, int>
    var index: map<IndexKey, int>

    /** `generate_maps`: the seeded base entries, including the legacy integer key 1 of the index map. */
    constructor GenerateMaps()
      ensures lookup == map[1 := 1] && wheel == map[1 := 1] && index == map[SeedKey(1) := 1]
      ensures Consistent()
    {
      lookup := map[1 := 1];
      wheel := map[1 := 1];
      index := map[SeedKey(1) := 1];
    }

    /** Every length with a lookup entry has a positive magnitude and a wheel slot in 1..magnitude+1. */
    ghost predicate Consistent()
      reads this
    {
      forall L :: L in lookup ==> lookup[L] >= 1 && L in wheel && 1 <= wheel[L] <= lookup[L] + 1
    }

    /** The seeding loop of the batch driver: lookup[t] := admissible[i], wheel[t] := 1 and
        index[(t, 1)] := 0 for the i-th dropping time t. */
    method Populate(droppingTimes: seq<int>, admissible: seq<int>)
      requires |admissible| >= |droppingTimes|
      modifies this
      ensures lookup == Seeded(old(lookup), droppingTimes, admissible)
      ensures forall t :: t in droppingTimes ==> t in wheel && wheel[t] == 1
      ensures forall t :: t !in droppingTimes ==> (t in wheel <==> t in old(wheel)) && (t in wheel ==> wheel[t] == old(wheel)[t])
      ensures forall t :: t in droppingTimes ==> SlotKey(t, 1) in index && index[SlotKey(t, 1)] == 0
      ensures forall k :: k !in SlotKeys(droppingTimes) ==> (k in index <==> k in old(index)) && (k in index ==> index[k] == old(index)[k])
      ensures old(Consistent()) && (forall i :: 0 <= i < |admissible| ==> admissible[i] > 0) ==> Consistent()
    {
      var i := 0;
      while i < |droppingTimes|
        invariant 0 <= i <= |droppingTimes|
        invariant lookup == Seeded(old(lookup), droppingTimes[..i], admissible)
        invariant forall t :: t in droppingTimes[..i] ==> t in wheel && wheel[t] == 1
        invariant forall t :: t !in droppingTimes[..i] ==> (t in wheel <==> t in old(wheel)) && (t in wheel ==> wheel[t] == old(wheel)[t])
        invariant forall t :: t in droppingTimes[..i] ==> SlotKey(t, 1) in index && index[SlotKey(t, 1)] == 0
        invariant forall k :: k !in SlotKeys(droppingTimes[..i]) ==> (k in index <==> k in old(index)) && (k in index ==> index[k] == old(index)[k])
        invariant old(Consistent()) && (forall j :: 0 <= j < |admissible| ==> admissible[j] > 0) ==> Consistent()
      {
        var t := droppingTimes[i];
        assert droppingTimes[..i + 1] == droppingTimes[..i] + [t];
        lookup := lookup[t := admissible[i]];
        wheel := wheel[t := 1];
        index := index[SlotKey(t, 1) := 0];
        i := i + 1;
      }
      assert droppingTimes[..i] == droppingTimes;
    }

    /** The classification update at first-drop length L, performed on the maps in place. */
    method Classify(L: int) returns (r: Result<(int, int)>)
      modifies this
      ensures lookup == old(lookup)
      ensures var s := ClassifyStep(old(lookup), old(wheel), old(index), L);
        && (s.Failure? ==> r == Failure(s.error) && wheel == old(wheel) && index == old(index))
        && (s.Success? ==> r == Success((s.value.stopMod, s.value.stopIndex))
                           && wheel == s.value.wheel && index == s.value.index)
      ensures old(Consistent()) ==> Consistent()
      ensures old(Consistent()) && r.Success? ==> 1 <= r.value.0 <= lookup[L]
    {
      if L !in lookup {
        return Failure(MissingLookup(L));
      }
      var magnitude := lookup[L];
      if L !in wheel {
        return Failure(MissingWheel(L));
      }
      if wheel[L] > magnitude {
        wheel := wheel[L := 1];
      }
      var stopMod := wheel[L];
      wheel := wheel[L := wheel[L] + 1];
      var key := SlotKey(L, stopMod);
      if key in index {
        index := index[key := index[key] + 1];
      } else {
        index := index[key := 1];
      }
      r := Success((stopMod, index[key]));
      ClassifyStepFrame(old(lookup), old(wheel), old(index), L);
    }
  }
}
