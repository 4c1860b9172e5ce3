/** Tables built while bootstrapping: an entry goes to the first free slot from its key's hash on,
    around the end of the table. */
module OpenHash {

  datatype Option<+T> = None | Some(value: T)

  type Key = nat

  /** The slot a number of steps on from a hash. */
  function Probe(hash: nat, steps: nat, size: nat): (i: nat)
    requires size > 0
    ensures i < size
  {
    (hash + steps) % size
  }

  /** A slot is reached from its key's hash without passing a free slot. */
  ghost predicate Reached(hashes: Key -> nat, slots: seq<Option<Key>>, i: nat)
    requires i < |slots| && slots[i].Some?
  {
    exists steps: nat :: steps < |slots| && Leads(slots, hashes(slots[i].value), steps)
      && Probe(hashes(slots[i].value), steps, |slots|) == i
  }

  /** All the slots before some number of steps are taken. */
  predicate Leads(slots: seq<Option<Key>>, hash: nat, steps: nat)
    requires slots != []
  {
    forall j: nat :: j < steps ==> slots[Probe(hash, j, |slots|)].Some?
  }

  ghost predicate Valid(hashes: Key -> nat, slots: seq<Option<Key>>) {
    slots != [] && forall i :: 0 <= i < |slots| && slots[i].Some? ==> Reached(hashes, slots, i)
  }

  /** How many slots are taken. */
  function Taken(slots: seq<Option<Key>>): (n: nat)
    ensures n <= |slots|
  {
    if slots == [] then 0 else (if slots[|slots| - 1].Some? then 1 else 0) + Taken(slots[..|slots| - 1])
  }

  lemma {:induction false} TakenOneMore(slots: seq<Option<Key>>, i: nat, key: Key)
    requires i < |slots| && slots[i].None?
    ensures Taken(slots[i := Some(key)]) == Taken(slots) + 1
  {
    var last := |slots| - 1;
    if i == last {
      assert slots[i := Some(key)][..last] == slots[..last];
    } else {
      assert slots[i := Some(key)][..last] == slots[..last][i := Some(key)];
      TakenOneMore(slots[..last], i, key);
    }
  }

  lemma {:induction false} AllTaken(slots: seq<Option<Key>>)
    requires forall i :: 0 <= i < |slots| ==> slots[i].Some?
    ensures Taken(slots) == |slots|
  {
    if slots != [] {
      AllTaken(slots[..|slots| - 1]);
    }
  }

  /** Going all the way around meets every slot. */
  lemma AroundIsFull(slots: seq<Option<Key>>, hash: nat)
    requires slots != [] && Leads(slots, hash, |slots|)
    ensures Taken(slots) == |slots|
  {
    var n := |slots|;
    forall i | 0 <= i < n ensures slots[i].Some? {
      var steps: nat := (i - hash) % n;
      assert (hash + steps) % n == i by { Around(hash, i, n); }
      assert slots[Probe(hash, steps, n)].Some?;
    }
    AllTaken(slots);
  }

  lemma Around(hash: nat, i: nat, n: nat)
    requires i < n
    ensures (hash + (i - hash) % n) % n == i
  {
    var q, r := (i - hash) / n, (i - hash) % n;
    assert i - hash == q * n + r;
    assert hash + r == i - q * n;
    Multiples(i, -q, n);
  }

  /** Multiples of the divisor do not change a remainder. */
  lemma Multiples(i: nat, q: int, n: nat)
    requires i < n
    ensures (i + q * n) % n == i
  {
    var a := i + q * n;
    var d := a / n - q;
    assert a == a / n * n + a % n;
    assert d * n == a / n * n - q * n;
    AtLeastOnce(d, n);
  }

  lemma AtLeastOnce(d: int, n: nat)
    ensures d >= 1 ==> d * n >= n
    ensures d <= -1 ==> d * n + n <= 0
    ensures d == 0 ==> d * n == 0
  {
    if d >= 1 {
      assert d * n == (d - 1) * n + n;
    } else if d <= -1 {
      assert (d + 1) * n == d * n + n;
      assert (-(d + 1)) * n >= 0;
    }
  }

  /** A free slot taken by a key it is reached from keeps the table in order. */
  lemma InsertKeeps(hashes: Key -> nat, slots: seq<Option<Key>>, key: Key, steps: nat)
    requires Valid(hashes, slots) && steps < |slots| && Leads(slots, hashes(key), steps)
    requires slots[Probe(hashes(key), steps, |slots|)].None?
    ensures Valid(hashes, slots[Probe(hashes(key), steps, |slots|) := Some(key)])
  {
    var at := Probe(hashes(key), steps, |slots|);
    var r := slots[at := Some(key)];
    forall i | 0 <= i < |r| && r[i].Some? ensures Reached(hashes, r, i) {
      if i == at {
        assert Leads(r, hashes(key), steps);
      } else {
        var k: nat :| k < |slots| && Leads(slots, hashes(slots[i].value), k)
          && Probe(hashes(slots[i].value), k, |slots|) == i;
        assert Leads(r, hashes(slots[i].value), k);
      }
    }
  }

  /** False, and nothing changed, exactly when every slot is taken. */
  method Insert(hashes: Key -> nat, table: array<Option<Key>>, key: Key) returns (ok: bool)
    requires Valid(hashes, table[..])
    modifies table
    ensures Valid(hashes, table[..])
    ensures ok <==> Taken(old(table[..])) < table.Length
    ensures !ok ==> table[..] == old(table[..])
    ensures ok ==>
      exists i :: 0 <= i < table.Length && old(table[i]).None? && table[..] == old(table[..])[i := Some(key)]
        && Taken(table[..]) == Taken(old(table[..])) + 1
  {
    hide Probe;
    ghost var slots := table[..];
    var hash, size := hashes(key), table.Length;
    NoStep(hash, size);
    var index, steps := hash % size, 0;
    while steps < size
      invariant steps <= size && index == Probe(hash, steps, size) && Leads(slots, hash, steps)
      invariant table[..] == slots
    {
      if table[index].None? {
        InsertKeeps(hashes, slots, key, steps);
        TakenOneMore(slots, index, key);
        table[index] := Some(key);
        assert table[..] == slots[index := Some(key)];
        return true;
      }
      OneStep(hash, steps, size);
      index := (index + 1) % size;
      steps := steps + 1;
    }
    AroundIsFull(slots, hash);
    ok := false;
  }

  lemma NoStep(hash: nat, size: nat)
    requires size > 0
    ensures Probe(hash, 0, size) == hash % size
  {}

  lemma OneStep(hash: nat, steps: nat, size: nat)
    requires size > 0
    ensures (Probe(hash, steps, size) + 1) % size == Probe(hash, steps + 1, size)
  {
    var a := hash + steps;
    var q, r := a / size, a % size;
    assert a == r + q * size;
    if r + 1 < size {
      Multiples(r + 1, q, size);
      Multiples(r + 1, 0, size);
    } else {
      assert a + 1 == 0 + (q + 1) * size by { assert (q + 1) * size == q * size + size; }
      Multiples(0, q + 1, size);
      Multiples(0, 1, size);
    }
  }

  /** Looking for a key from its hash on, up to a free slot. */
  method Lookup(hashes: Key -> nat, table: array<Option<Key>>, key: Key) returns (found: Option<nat>)
    requires Valid(hashes, table[..])
    ensures found.Some? <==> exists i :: 0 <= i < table.Length && table[i] == Some(key)
    ensures found.Some? ==> found.value < table.Length && table[found.value] == Some(key)
  {
    hide Probe;
    var hash, size := hashes(key), table.Length;
    NoStep(hash, size);
    var index, steps := hash % size, 0;
    while steps < size && table[index] != Some(key)
      invariant steps <= size && index == Probe(hash, steps, size)
      invariant forall j: nat :: j < steps ==>
        table[Probe(hash, j, size)].Some? && table[Probe(hash, j, size)] != Some(key)
    {
      if table[index].None? {
        NotBeyond(hashes, table[..], key, steps);
        return None;
      }
      OneStep(hash, steps, size);
      index := (index + 1) % size;
      steps := steps + 1;
    }
    if steps < size {
      return Some(index);
    }
    NotBeyond(hashes, table[..], key, steps);
    found := None;
  }

  /** A key that is not met before a free slot, or all the way around, is not in the table. */
  lemma NotBeyond(hashes: Key -> nat, slots: seq<Option<Key>>, key: Key, steps: nat)
    requires Valid(hashes, slots) && steps <= |slots|
    requires forall j: nat :: j < steps ==> slots[Probe(hashes(key), j, |slots|)] != Some(key)
    requires steps == |slots| || slots[Probe(hashes(key), steps, |slots|)].None?
    ensures Some(key) !in slots
  {
    forall i | 0 <= i < |slots| && slots[i].Some?
      ensures slots[i].value != key
    {
      assert Reached(hashes, slots, i);
      var k: nat :| k < |slots| && Leads(slots, hashes(slots[i].value), k)
        && Probe(hashes(slots[i].value), k, |slots|) == i;
    }
  }

  // ---- dictionaries

  const PRIMES: seq<nat> := [
    7, 11, 13, 17, 19, 23, 29, 31, 37, 41, 43, 47, 53, 59, 61, 67, 71, 73, 79, 83, 89, 97, 101, 103, 107,
    109, 113, 127, 131, 137, 139, 149, 151, 157, 163, 167, 173, 179, 181, 191, 193, 197, 199, 211, 223,
    227, 229, 233, 239, 241, 251, 269, 359, 479, 641, 857]

  /** Room for half as many again, and at least for 7. */
  function TargetSize(count: nat): (target: nat)
    ensures target > count && target >= 7
    ensures 3 * count <= 2 * target + 1
    ensures target > 7 ==> 2 * target <= 3 * count
  {
    if count * 3 / 2 < 7 then 7 else count * 3 / 2
  }

  /** The first prime of the list that is large enough, or the size itself if none is. */
  ghost predicate IsTableSize(target: nat, size: nat) {
    || (size == target && forall k :: 0 <= k < |PRIMES| ==> PRIMES[k] < target)
    || exists i :: 0 <= i < |PRIMES| && size == PRIMES[i] >= target && forall k :: 0 <= k < i ==> PRIMES[k] < target
  }

  method TableSize(count: nat) returns (size: nat)
    ensures size > count && IsTableSize(TargetSize(count), size)
  {
    var target := TargetSize(count);
    size := target;
    for i := 0 to |PRIMES|
      invariant size == target && forall k :: 0 <= k < i ==> PRIMES[k] < target
    {
      if PRIMES[i] >= target {
        return PRIMES[i];
      }
    }
  }

  /** All the entries of a new dictionary go in, every one can be found, and a free slot is left
      to end every search. */
  method NewDictionary(hashes: Key -> nat, keys: seq<Key>) returns (table: array<Option<Key>>)
    ensures fresh(table) && Valid(hashes, table[..]) && Taken(table[..]) == |keys| < table.Length
    ensures forall k :: Some(k) in table[..] <==> k in keys
    ensures IsTableSize(TargetSize(|keys|), table.Length)
  {
    hide IsTableSize, TargetSize;
    var size := TableSize(|keys|);
    table := new Option<Key>[size](_ => None);
    NoneTaken(table[..]);
    for i := 0 to |keys|
      invariant Valid(hashes, table[..]) && Taken(table[..]) == i && table.Length == size
      invariant fresh(table)
      invariant forall k :: Some(k) in table[..] <==> k in keys[..i]
    {
      hide Valid, Reached, Leads, Probe, Taken;
      ghost var before := table[..];
      assert keys[..i + 1] == keys[..i] + [keys[i]];
      var ok := Insert(hashes, table, keys[i]);
      ghost var j :| 0 <= j < table.Length && before[j].None? && table[..] == before[j := Some(keys[i])];
      OneMoreKey(before, j, keys[i]);
    }
    assert keys[..|keys|] == keys;
  }

  lemma OneMoreKey(slots: seq<Option<Key>>, j: nat, key: Key)
    requires j < |slots| && slots[j].None?
    ensures forall k :: Some(k) in slots[j := Some(key)] <==> Some(k) in slots || k == key
  {
    var r := slots[j := Some(key)];
    forall k ensures Some(k) in r <==> Some(k) in slots || k == key {
      if Some(k) in slots {
        var i :| 0 <= i < |slots| && slots[i] == Some(k);
        assert r[i] == Some(k);
      }
      assert r[j] == Some(key);
    }
  }

  lemma {:induction false} NoneTaken(slots: seq<Option<Key>>)
    requires forall i :: 0 <= i < |slots| ==> slots[i].None?
    ensures Taken(slots) == 0
  {
    if slots != [] {
      NoneTaken(slots[..|slots| - 1]);
    }
  }
}
