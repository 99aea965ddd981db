/** The duplicate-key guard of core/src/json.c: a linear scan for small objects, an
    open-addressing table above, and the scan again whenever the table cannot be granted. */
module KeySet {
  import opened Bytes

  const LINEAR_MAX: nat := 64
  const FIRST_CAPACITY: nat := 128

  /** FNV-1a over the bytes of the key, from `h` on. */
  function Fnv(s: CText, i: nat, h: bv64): bv64
    requires i <= |s|
    decreases |s| - i
  {
    if i == |s| then h else Fnv(s, i + 1, (h ^ (s[i] as bv64)) * 1099511628211)
  }

  /** `key_hash`. */
  function KeyHash(s: CText): (h: nat)
  {
    Fnv(s, 0, 1469598103934665603) as nat
  }

  predicate PowerOfTwo(n: nat)
  {
    n == 1 || (n > 1 && n % 2 == 0 && PowerOfTwo(n / 2))
  }

  /** `h & (capacity - 1)` for a capacity that is a power of two: the low bits of `h`. */
  function Masked(h: nat, capacity: nat): (m: nat)
    requires capacity > 0
    ensures m < capacity
    decreases capacity, h
  {
    if capacity == 1 then 0 else Masked(h / 2, capacity / 2) * 2 + h % 2
  }

  /** The slot a key is hashed to. */
  function Home(key: CText, capacity: nat): (h: nat)
    requires capacity > 0
    ensures h < capacity
  {
    Masked(KeyHash(key), capacity)
  }

  /** `(slot + 1) & (capacity - 1)`. */
  function Next(slot: nat, capacity: nat): (n: nat)
    requires slot < capacity
    ensures n < capacity
  {
    if slot + 1 == capacity then 0 else slot + 1
  }

  /** The slot `d` steps after `home`, cyclically. */
  function Walk(home: nat, d: nat, capacity: nat): (s: nat)
    requires home < capacity && d < capacity
    ensures s < capacity
  {
    if home + d < capacity then home + d else home + d - capacity
  }

  /** How a table of slots represents keys 0 .. |keys|: key `i` sits `steps[i]` slots after its home. */
  ghost predicate Represents(slots: seq<nat>, keys: seq<CText>, steps: seq<nat>)
  {
    && |slots| > 0 && |steps| == |keys|
    && (forall i: nat :: i < |keys| ==> Sits(slots, keys, steps, i))
    && (forall s: nat :: s < |slots| ==> Holds(slots, keys, steps, s))
  }

  /** Slot `d` steps after `home` is in use. */
  ghost predicate Busy(slots: seq<nat>, home: nat, d: nat)
    requires home < |slots| && d < |slots|
  {
    slots[Walk(home, d, |slots|)] != 0
  }

  /** No gap in the first `n` slots of a probe. */
  ghost predicate ChainBusy(slots: seq<nat>, home: nat, n: nat)
    requires home < |slots| && n <= |slots|
  {
    forall d :: 0 <= d < n ==> Busy(slots, home, d)
  }

  /** Key `i` is in its slot and no slot between its home and there is empty. */
  ghost predicate Sits(slots: seq<nat>, keys: seq<CText>, steps: seq<nat>, i: nat)
    requires |slots| > 0 && i < |keys| == |steps|
  {
    && steps[i] < |slots|
    && slots[Place(slots, keys, steps, i)] == i + 1
    && ChainBusy(slots, Home(keys[i], |slots|), steps[i])
  }

  ghost function Place(slots: seq<nat>, keys: seq<CText>, steps: seq<nat>, i: nat): (s: nat)
    requires |slots| > 0 && i < |keys| == |steps| && steps[i] < |slots|
    ensures s < |slots|
  {
    Walk(Home(keys[i], |slots|), steps[i], |slots|)
  }

  /** A used slot holds the index (plus one) of a key that sits there. */
  ghost predicate Holds(slots: seq<nat>, keys: seq<CText>, steps: seq<nat>, s: nat)
    requires |slots| > 0 && s < |slots| && |steps| == |keys|
  {
    slots[s] != 0 ==>
      slots[s] <= |keys| && steps[slots[s] - 1] < |slots| && Place(slots, keys, steps, slots[s] - 1) == s
  }

  /** The numbers below `n`. */
  ghost function Range(n: nat): (r: set<nat>)
    ensures forall x: nat :: x in r <==> x < n
    ensures |r| == n
  {
    if n == 0 then {} else Range(n - 1) + {n - 1}
  }

  ghost function Elements(s: seq<nat>): set<nat>
  {
    set x | x in s
  }

  lemma {:induction false} DistinctSize(s: seq<nat>)
    requires forall i, j :: 0 <= i < j < |s| ==> s[i] != s[j]
    ensures |Elements(s)| == |s|
  {
    if s != [] {
      DistinctSize(s[1..]);
      assert Elements(s) == {s[0]} + Elements(s[1..]);
    }
  }

  /** Pigeonhole: distinct numbers in 1..m are at most m many. */
  lemma Pigeonhole(s: seq<nat>, m: nat)
    requires forall i, j :: 0 <= i < j < |s| ==> s[i] != s[j]
    requires forall i :: 0 <= i < |s| ==> 1 <= s[i] <= m
    ensures |s| <= m
  {
    DistinctSize(s);
    SubsetSize(Elements(s), Range(m + 1) - {0});
  }

  /** A table with more slots than keys has an empty slot, so every probe ends. */
  lemma EmptySlot(slots: seq<nat>, keys: seq<CText>, steps: seq<nat>) returns (e: nat)
    requires Represents(slots, keys, steps) && |keys| < |slots|
    ensures e < |slots| && slots[e] == 0
  {
    if forall s :: 0 <= s < |slots| ==> slots[s] != 0 {
      forall i, j | 0 <= i < j < |slots| ensures slots[i] != slots[j] {
        assert Holds(slots, keys, steps, i) && Holds(slots, keys, steps, j);
      }
      forall i | 0 <= i < |slots| ensures 1 <= slots[i] <= |keys| {
        assert Holds(slots, keys, steps, i);
      }
      Pigeonhole(slots, |keys|);
    }
    e :| 0 <= e < |slots| && slots[e] == 0;
  }

  /** The step by which a probe must have met an empty slot. */
  lemma Stop(slots: seq<nat>, keys: seq<CText>, steps: seq<nat>, home: nat) returns (stop: nat)
    requires Represents(slots, keys, steps) && |keys| < |slots| && home < |slots|
    ensures stop < |slots| && !Busy(slots, home, stop)
  {
    var e := EmptySlot(slots, keys, steps);
    stop := Distance(home, e, |slots|);
  }

  /** The step at which a probe from `home` meets slot `e`. */
  function Distance(home: nat, e: nat, capacity: nat): (d: nat)
    requires home < capacity && e < capacity
    ensures d < capacity && Walk(home, d, capacity) == e
  {
    if e >= home then e - home else e - home + capacity
  }

  lemma StaysBusy(slots: seq<nat>, s: nat, v: nat, home: nat, n: nat)
    requires s < |slots| && v != 0 && home < |slots| && n <= |slots|
    requires ChainBusy(slots, home, n)
    ensures ChainBusy(slots[s := v], home, n)
  {
    var after := slots[s := v];
    forall d | 0 <= d < n ensures Busy(after, home, d) {
      assert Busy(slots, home, d);
    }
  }

  /** Putting a new key in the first empty slot after its home keeps the table in order. */
  lemma Inserted(slots: seq<nat>, keys: seq<CText>, steps: seq<nat>, key: CText, d: nat)
    requires Represents(slots, keys, steps) && d < |slots|
    requires !Busy(slots, Home(key, |slots|), d) && ChainBusy(slots, Home(key, |slots|), d)
    ensures Represents(slots[Walk(Home(key, |slots|), d, |slots|) := |keys| + 1], keys + [key], steps + [d])
  {
    var s := Walk(Home(key, |slots|), d, |slots|);
    var slots', keys', steps' := slots[s := |keys| + 1], keys + [key], steps + [d];
    forall i: nat | i < |keys'| ensures Sits(slots', keys', steps', i) {
      if i < |keys| {
        StillSits(slots, keys, steps, key, d, s, i);
      } else {
        StaysBusy(slots, s, |keys| + 1, Home(key, |slots|), d);
      }
    }
    forall t: nat | t < |slots'| ensures Holds(slots', keys', steps', t) {
      StillHolds(slots, keys, steps, key, d, s, t);
    }
  }

  lemma StillSits(slots: seq<nat>, keys: seq<CText>, steps: seq<nat>, key: CText, d: nat, s: nat, i: nat)
    requires i < |keys| == |steps| && s < |slots| && slots[s] == 0 && Sits(slots, keys, steps, i)
    ensures Sits(slots[s := |keys| + 1], keys + [key], steps + [d], i)
  {
    StaysBusy(slots, s, |keys| + 1, Home(keys[i], |slots|), steps[i]);
  }

  lemma StillHolds(slots: seq<nat>, keys: seq<CText>, steps: seq<nat>, key: CText, d: nat, s: nat, t: nat)
    requires |keys| == |steps| && d < |slots| && t < |slots| && Holds(slots, keys, steps, t)
    requires s == Walk(Home(key, |slots|), d, |slots|)
    ensures Holds(slots[s := |keys| + 1], keys + [key], steps + [d], t)
  {
  }

  /** A probe that reaches an empty slot without meeting the key proves that it is new. */
  lemma ProbeSound(slots: seq<nat>, keys: seq<CText>, steps: seq<nat>, key: CText, d: nat)
    requires Represents(slots, keys, steps) && d < |slots|
    requires !Busy(slots, Home(key, |slots|), d)
    requires forall e :: 0 <= e < d ==> Passed(slots, keys, key, e)
    ensures key !in keys
    ensures ChainBusy(slots, Home(key, |slots|), d)
  {
    forall i | 0 <= i < |keys| ensures keys[i] != key {
      assert Sits(slots, keys, steps, i);
      assert steps[i] > d ==> Busy(slots, Home(keys[i], |slots|), d);
      assert steps[i] < d ==> Passed(slots, keys, key, steps[i]);
    }
    assert forall e :: 0 <= e < d ==> Passed(slots, keys, key, e) && Busy(slots, Home(key, |slots|), e);
  }

  /** Step `e` of the probe met another key. */
  ghost predicate Passed(slots: seq<nat>, keys: seq<CText>, key: CText, e: nat)
    requires |slots| > 0 && e < |slots|
  {
    var s := Walk(Home(key, |slots|), e, |slots|);
    slots[s] != 0 && (slots[s] <= |keys| ==> keys[slots[s] - 1] != key)
  }

  lemma NextStep(home: nat, d: nat, capacity: nat)
    requires home < capacity && d + 1 < capacity
    ensures Walk(home, d + 1, capacity) == Next(Walk(home, d, capacity), capacity)
  {
  }

  class Keys {
    var slots: array?<nat>
    var capacity: nat
    ghost var steps: seq<nat>

    /** The table, when there is one, holds exactly the indices of `keys`, at a load of at most one half. */
    ghost predicate Valid(keys: seq<CText>)
      reads this, slots
    {
      if slots == null then capacity == 0
      else
        && capacity == slots.Length && PowerOfTwo(capacity)
        && |keys| >= LINEAR_MAX && 2 * |keys| <= capacity
        && Represents(slots[..], keys, steps)
    }

    constructor ()
      ensures forall keys: seq<CText> :: Valid(keys)
      ensures slots == null
    {
      slots, capacity, steps := null, 0, [];
    }

    /** One key of the rebuild: the first empty slot after its home. */
    static method Place1(table: array<nat>, keys: seq<CText>, i: nat, ghost placed: seq<nat>)
      returns (ghost placed': seq<nat>)
      requires i < |keys| && 2 * |keys| < table.Length
      requires Represents(table[..], keys[..i], placed)
      modifies table
      ensures Represents(table[..], keys[..i + 1], placed')
    {
      ghost var before: seq<nat> := table[..];
      var home := Home(keys[i], table.Length);
      var slot := home;
      ghost var d: nat := 0;
      ghost var stop := Stop(before, keys[..i], placed, home);
      while table[slot] != 0
        invariant d <= stop && slot == Walk(home, d, table.Length)
        invariant table[..] == before && ChainBusy(before, home, d)
        decreases stop - d
      {
        assert Busy(before, home, d);
        NextStep(home, d, table.Length);
        slot, d := Next(slot, table.Length), d + 1;
      }
      assert !Busy(before, home, d);
      Inserted(before, keys[..i], placed, keys[i], d);
      table[slot] := i + 1;
      assert table[..] == before[slot := i + 1] && keys[..i + 1] == keys[..i] + [keys[i]];
      placed' := placed + [d];
    }

    /** The first capacity, doubled until the keys fill less than half of it. */
    static method Needed(count: nat) returns (needed: nat)
      ensures PowerOfTwo(needed) && 2 * count < needed
    {
      needed := FIRST_CAPACITY;
      assert PowerOfTwo(2) && PowerOfTwo(4) && PowerOfTwo(8) && PowerOfTwo(16) && PowerOfTwo(32) && PowerOfTwo(64);
      while 2 * count >= needed
        invariant needed > 0 && PowerOfTwo(needed)
        decreases 2 * count - needed
      {
        needed := needed * 2;
      }
    }

    /** All keys into a table of empty slots. */
    static method PlaceAll(table: array<nat>, keys: seq<CText>) returns (ghost placed: seq<nat>)
      requires 2 * |keys| < table.Length && forall s :: 0 <= s < table.Length ==> table[s] == 0
      modifies table
      ensures Represents(table[..], keys, placed)
    {
      placed := [];
      var i := 0;
      while i < |keys|
        invariant 0 <= i <= |keys| && Represents(table[..], keys[..i], placed)
      {
        placed := Place1(table, keys, i, placed);
        i := i + 1;
      }
      assert keys[..i] == keys;
    }

    /** `keyset_ensure`; `granted` is whether `calloc` succeeds this time. */
    method Ensure(keys: seq<CText>, granted: bool) returns (ready: bool)
      requires Valid(keys) && |keys| >= LINEAR_MAX
      modifies this
      ensures Valid(keys)
      ensures ready ==> slots != null && 2 * |keys| < capacity && (slots == old(slots) || fresh(slots))
      ensures !ready ==> slots == null && !granted
    {
      if capacity > 0 && 2 * |keys| < capacity { return true; }
      var needed := Needed(|keys|);
      slots := null;
      if !granted {
        capacity := 0;
        return false;
      }
      var table := new nat[needed](i => 0);
      ghost var placed := PlaceAll(table, keys);
      slots, capacity, steps := table, needed, placed;
      return true;
    }

    /** `keyset_probe`: true when the key is new, and then reserves the next index for it. */
    method Probe(keys: seq<CText>, key: CText) returns (isNew: bool)
      requires slots != null && Valid(keys) && 2 * |keys| < capacity
      modifies this`steps, slots
      ensures isNew <==> key !in keys
      ensures isNew ==> Valid(keys + [key])
      ensures !isNew ==> Valid(keys)
    {
      var home := Home(key, capacity);
      var slot := home;
      ghost var table: seq<nat>, placed, d: nat := slots[..], steps, 0;
      ghost var stop := Stop(table, keys, placed, home);
      while true
        invariant d <= stop && slot == Walk(home, d, capacity)
        invariant slots[..] == table && steps == placed
        invariant forall k :: 0 <= k < d ==> Passed(table, keys, key, k)
        decreases stop - d
      {
        var held := slots[slot];
        assert held == table[slot];
        if held == 0 {
          assert !Busy(table, home, d);
          ProbeSound(table, keys, placed, key, d);
          Reserve(keys, key, slot, d);
          return true;
        }
        assert Holds(table, keys, placed, slot);
        if keys[held - 1] == key { return false; }
        assert Busy(table, home, d) && Passed(table, keys, key, d);
        NextStep(home, d, capacity);
        slot, d := Next(slot, capacity), d + 1;
      }
    }

    /** The next index goes into the free slot where probing stopped. */
    method Reserve(keys: seq<CText>, key: CText, slot: nat, ghost d: nat)
      requires slots != null && Valid(keys) && 2 * |keys| < capacity && key !in keys
      requires d < capacity && slot == Walk(Home(key, capacity), d, capacity) && slots[slot] == 0
      requires ChainBusy(slots[..], Home(key, capacity), d)
      modifies this`steps, slots
      ensures Valid(keys + [key])
    {
      ghost var table: seq<nat> := slots[..];
      assert !Busy(table, Home(key, capacity), d);
      Inserted(table, keys, steps, key, d);
      HalfFull(|keys|, capacity);
      slots[slot] := |keys| + 1;
      assert slots[..] == table[slot := |keys| + 1];
      steps := steps + [d];
    }

    /** A capacity is even, so one more key still fills at most half of it. */
    static lemma HalfFull(count: nat, capacity: nat)
      requires PowerOfTwo(capacity) && 2 * count < capacity && count > 0
      ensures 2 * (count + 1) <= capacity
    {
    }

    /** The guard of `parse_collection`: the verdict never depends on the table or on its allocation. */
    method Duplicate(keys: seq<CText>, key: CText, granted: bool) returns (duplicate: bool)
      requires Valid(keys)
      modifies this, slots
      ensures duplicate <==> key in keys
      ensures !duplicate ==> Valid(keys + [key])
      ensures slots != null ==> slots == old(slots) || fresh(slots)
    {
      if |keys| >= LINEAR_MAX {
        var ready := Ensure(keys, granted);
        if ready {
          var isNew := Probe(keys, key);
          return !isNew;
        }
      }
      var i := 0;
      while i < |keys|
        invariant 0 <= i <= |keys| && key !in keys[..i]
      {
        if keys[i] == key { return true; }
        i := i + 1;
      }
      return false;
    }
  }

  lemma DistinctStep(keys: seq<CText>, i: nat)
    requires i < |keys| && Distinct(keys[..i])
    ensures Distinct(keys[..i + 1]) <==> keys[i] !in keys[..i]
    ensures Distinct(keys) ==> Distinct(keys[..i + 1])
    ensures keys[..i + 1] == keys[..i] + [keys[i]]
  {
    var front := keys[..i];
    if keys[i] in front {
      var j :| 0 <= j < |front| && front[j] == keys[i];
      assert keys[..i + 1][j] == keys[..i + 1][i];
    } else {
      var next := keys[..i + 1];
      forall a, b | 0 <= a < b < |next| ensures next[a] != next[b] {
        if b < i { assert front[a] != front[b]; } else { assert front[a] == keys[a]; }
      }
    }
  }

  /** Any sequence of keys, under any pattern of allocation failures: the object is
      accepted exactly when its keys are distinct. */
  method AcceptKeys(keys: seq<CText>, allocations: seq<bool>) returns (accepted: bool)
    requires |allocations| == |keys|
    ensures accepted <==> Distinct(keys)
  {
    var table := new Keys();
    var i := 0;
    while i < |keys|
      invariant 0 <= i <= |keys| && fresh(table) && table.Valid(keys[..i])
      invariant table.slots != null ==> fresh(table.slots)
      invariant Distinct(keys[..i])
    {
      DistinctStep(keys, i);
      var duplicate := table.Duplicate(keys[..i], keys[i], allocations[i]);
      if duplicate {
        return false;
      }
      i := i + 1;
    }
    assert keys[..i] == keys;
    return true;
  }
}
