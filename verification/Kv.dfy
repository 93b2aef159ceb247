/** Batches over a key-value store that may fail (`crates/storage/src/kv.rs`). */
module Kv {
  import opened Common

  datatype BatchOp<K, V> = Put(key: K, value: V) | Delete(key: K)

  function Apply<K, V>(m: map<K, V>, op: BatchOp<K, V>): map<K, V> {
    match op
    case Put(k, v) => m[k := v]
    case Delete(k) => m - {k}
  }

  function ApplyAll<K, V>(m: map<K, V>, ops: seq<BatchOp<K, V>>): map<K, V> {
    if ops == [] then m else Apply(ApplyAll(m, ops[..|ops| - 1]), ops[|ops| - 1])
  }

  lemma {:induction false} ApplyAllAppend<K, V>(m: map<K, V>, a: seq<BatchOp<K, V>>, b: seq<BatchOp<K, V>>)
    ensures ApplyAll(m, a + b) == ApplyAll(ApplyAll(m, a), b)
    decreases |b|
  {
    if b == [] {
      assert a + b == a;
    } else {
      ApplyAllAppend(m, a, b[..|b| - 1]);
      assert (a + b)[..|a + b| - 1] == a + b[..|b| - 1];
    }
  }

  lemma {:induction false} ApplyAllElsewhere<K, V>(m: map<K, V>, ops: seq<BatchOp<K, V>>, k: K)
    requires forall i :: 0 <= i < |ops| ==> ops[i].key != k
    ensures At(ApplyAll(m, ops), k) == At(m, k)
  {
    if ops != [] {
      ApplyAllElsewhere(m, ops[..|ops| - 1], k);
    }
  }

  /** The keys a batch names, each once, in order of first mention. */
  function Touched<K(==), V>(ops: seq<BatchOp<K, V>>): (keys: seq<K>)
    ensures forall i :: 0 <= i < |ops| ==> ops[i].key in keys
    ensures forall i, j :: 0 <= i < j < |keys| ==> keys[i] != keys[j]
  {
    if ops == [] then []
    else
      var keys, k := Touched(ops[..|ops| - 1]), ops[|ops| - 1].key;
      if k in keys then keys else keys + [k]
  }

  /** Put one key back to what it was in `m0`. */
  function Undo<K, V>(m0: map<K, V>, k: K): BatchOp<K, V> {
    if k in m0 then Put(k, m0[k]) else Delete(k)
  }

  /** Roll `m` back key by key; the write for key `i` lands when `good(i)`, and its error is ignored. */
  ghost function Restored<K, V>(m: map<K, V>, m0: map<K, V>, keys: seq<K>, good: nat -> bool): map<K, V> {
    if keys == [] then m
    else
      var n := |keys| - 1;
      var before := Restored(m, m0, keys[..n], good);
      if good(n) then Apply(before, Undo(m0, keys[n])) else before
  }

  lemma {:induction false} RestoredAt<K, V>(m: map<K, V>, m0: map<K, V>, keys: seq<K>, good: nat -> bool, k: K)
    requires forall i, j :: 0 <= i < j < |keys| ==> keys[i] != keys[j]
    ensures k !in keys ==> At(Restored(m, m0, keys, good), k) == At(m, k)
    ensures forall i :: 0 <= i < |keys| && keys[i] == k ==>
                          At(Restored(m, m0, keys, good), k) == if good(i) then At(m0, k) else At(m, k)
  {
    if keys != [] {
      RestoredAt(m, m0, keys[..|keys| - 1], good, k);
    }
  }

  /** A failed batch leaves the store as it was exactly when every key the applied part changed
      was written back. */
  lemma AtomicIff<K(!new), V>(m0: map<K, V>, ops: seq<BatchOp<K, V>>, j: nat, good: nat -> bool)
    requires j <= |ops|
    ensures var (keys, mid) := (Touched(ops), ApplyAll(m0, ops[..j]));
            Restored(mid, m0, keys, good) == m0
            <==> forall i :: 0 <= i < |keys| && At(mid, keys[i]) != At(m0, keys[i]) ==> good(i)
  {
    var keys, mid := Touched(ops), ApplyAll(m0, ops[..j]);
    var end := Restored(mid, m0, keys, good);
    forall k: K ensures k !in keys ==> At(end, k) == At(m0, k) {
      RestoredAt(mid, m0, keys, good, k);
      if k !in keys {
        ApplyAllElsewhere(m0, ops[..j], k);
      }
    }
    forall i | 0 <= i < |keys| ensures At(end, keys[i]) == if good(i) then At(m0, keys[i]) else At(mid, keys[i]) {
      RestoredAt(mid, m0, keys, good, keys[i]);
    }
    if forall i :: 0 <= i < |keys| && At(mid, keys[i]) != At(m0, keys[i]) ==> good(i) {
      forall k: K ensures SameEntry(end, m0, k) {
        assert k !in keys ==> At(end, k) == At(m0, k);
        if k in keys {
          var i :| 0 <= i < |keys| && keys[i] == k;
        }
      }
      SameEverywhere(end, m0);
    }
  }

  /** Two puts, the second write fails, and so does the write that should undo the first. */
  lemma HalfBatch()
    ensures var (m0, ops) := (map[0 := 10, 1 := 11], [Put(0, 20), Put(1, 21)]);
            Restored(ApplyAll(m0, ops[..1]), m0, Touched(ops), i => i != 0) == map[0 := 20, 1 := 11]
  {
    var m0, ops := map[0 := 10, 1 := 11], [Put(0, 20), Put(1, 21)];
    assert ops[..1] == [Put(0, 20)] && ops[..1][..0] == [];
    assert ApplyAll(m0, ops[..1]) == Apply(ApplyAll(m0, ops[..1][..0]), Put(0, 20)) == map[0 := 20, 1 := 11];
    assert Touched(ops[..1]) == [0];
    assert Touched(ops) == [0, 1];
    assert [0, 1][..1] == [0];
    assert Restored(map[0 := 20, 1 := 11], m0, [0], i => i != 0) == map[0 := 20, 1 := 11];
  }

  /** A store whose reads and writes succeed or fail as an outside schedule says. */
  class FlakyStore<K(==), V> {
    const getOk: nat -> bool
    const writeOk: nat -> bool
    var data: map<K, V>
    var gets: nat
    var writes: nat

    constructor (data: map<K, V>, getOk: nat -> bool, writeOk: nat -> bool)
      ensures this.data == data && this.getOk == getOk && this.writeOk == writeOk && gets == writes == 0
    {
      this.data, this.getOk, this.writeOk, gets, writes := data, getOk, writeOk, 0, 0;
    }

    method Get(k: K) returns (ok: bool, v: Option<V>)
      modifies this`gets
      ensures gets == old(gets) + 1 && ok == getOk(old(gets)) && (ok ==> v == At(data, k))
    {
      ok := getOk(gets);
      v := if k in data then Some(data[k]) else None;
      gets := gets + 1;
    }

    method Write(op: BatchOp<K, V>) returns (ok: bool)
      modifies this`data, this`writes
      ensures writes == old(writes) + 1 && ok == writeOk(old(writes))
      ensures data == if ok then Apply(old(data), op) else old(data)
    {
      ok := writeOk(writes);
      if ok {
        match op {
          case Put(k, v) => data := data[k := v];
          case Delete(k) => data := data - {k};
        }
      }
      writes := writes + 1;
    }

    /** Remember the value of every key the batch names. */
    method Snapshot(ops: seq<BatchOp<K, V>>) returns (ok: bool, snap: seq<(K, Option<V>)>)
      modifies this`gets
      ensures ok ==> |snap| == |Touched(ops)|
      ensures ok ==> forall i :: 0 <= i < |snap| ==> snap[i] == (Touched(ops)[i], At(data, Touched(ops)[i]))
    {
      snap := [];
      for j := 0 to |ops|
        invariant |snap| == |Touched(ops[..j])|
        invariant forall i :: 0 <= i < |snap| ==> snap[i] == (Touched(ops[..j])[i], At(data, Touched(ops[..j])[i]))
      {
        assert ops[..j + 1][..j] == ops[..j];
        var key := ops[j].key;
        ghost var keys := Touched(ops[..j]);
        assert key in keys <==> exists i :: 0 <= i < |snap| && snap[i].0 == key;
        if !exists i :: 0 <= i < |snap| && snap[i].0 == key {
          var got, v := Get(key);
          if !got {
            return false, [];
          }
          snap := snap + [(key, v)];
        }
      }
      assert ops[..|ops|] == ops;
      ok := true;
    }

    /** `restore`: write every remembered value back, whatever the store answers. */
    method Restore(snap: seq<(K, Option<V>)>, ghost keys: seq<K>, ghost m0: map<K, V>, ghost good: nat -> bool)
      requires |snap| == |keys| && forall i :: 0 <= i < |snap| ==> snap[i] == (keys[i], At(m0, keys[i]))
      requires forall i: nat :: good(i) == writeOk(writes + i)
      modifies this`data, this`writes
      ensures data == Restored(old(data), m0, keys, good)
    {
      for i := 0 to |snap|
        invariant data == Restored(old(data), m0, keys[..i], good) && writes == old(writes) + i
      {
        var (k, v) := snap[i];
        assert keys[..i + 1][..i] == keys[..i];
        var _ := Write(if v.Some? then Put(k, v.value) else Delete(k));
      }
      assert keys[..|snap|] == keys;
    }

    /** `apply_batch`. On a failed write `failed` is its position in the batch. */
    method ApplyBatch(ops: seq<BatchOp<K, V>>) returns (ok: bool, ghost failed: nat)
      modifies this
      ensures ok ==> data == ApplyAll(old(data), ops)
      ensures !ok && failed < |ops| ==>
                data == Restored(ApplyAll(old(data), ops[..failed]), old(data), Touched(ops),
                                 RestoreWrites(old(writes), failed))
      ensures !ok && failed >= |ops| ==> data == old(data)
      ensures ok ==> forall w: nat :: old(writes) <= w < old(writes) + |ops| ==> writeOk(w)
      ensures !ok && failed < |ops| ==>
                && !writeOk(old(writes) + failed)
                && forall w: nat :: old(writes) <= w < old(writes) + failed ==> writeOk(w)
    {
      hide Touched;
      hide Restored;
      var readable, snap := Snapshot(ops);
      if !readable {
        return false, |ops|;
      }
      for j := 0 to |ops|
        invariant data == ApplyAll(old(data), ops[..j]) && writes == old(writes) + j
        invariant forall w: nat :: old(writes) <= w < writes ==> writeOk(w)
      {
        assert ops[..j + 1][..j] == ops[..j];
        var written := Write(ops[j]);
        if !written {
          Restore(snap, Touched(ops), old(data), RestoreWrites(old(writes), j));
          return false, j;
        }
      }
      assert ops[..|ops|] == ops;
      return true, |ops|;
    }

    /** Outcomes of the writes that follow the failed write `j` of a batch begun at write `start`. */
    ghost function RestoreWrites(start: nat, j: nat): nat -> bool {
      (i: nat) => writeOk(start + j + 1 + i)
    }
  }
}
