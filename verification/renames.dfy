/** The rename map and the key renaming that `applyRenames` performs on
    `pinData` and `connections` (fix_workflows.js). */
module Renames {
  import opened Json

  /** Old node name to new node name, in the map's iteration order. */
  type RenameMap = seq<(string, string)>

  /** `obj[k]`: the value stored under `k`, if any, which is the first
      entry with that key. It serves both for the rename map and for the
      members of a JSON object. */
  function Lookup<V>(m: seq<(string, V)>, k: string): (r: Option<V>)
    ensures r.Some? ==> (k, r.value) in m
    ensures r.None? ==> k !in Keys(m)
  {
    if m == [] then None
    else if m[0].0 == k then Some(m[0].1)
    else Lookup(m[1..], k)
  }

  /** With distinct keys, looking a key up finds exactly its entry. */
  lemma {:induction false} LookupFinds(m: RenameMap, k: string, v: string)
    requires DistinctKeys(m)
    ensures Lookup(m, k) == Some(v) <==> (k, v) in m
  {
    if m != [] && m[0].0 != k && (k, v) in m {
      var i :| 0 <= i < |m| && m[i] == (k, v);
      assert m[1..][i - 1] == (k, v);
      LookupFinds(m[1..], k, v);
    } else if m != [] && m[0].0 == k && (k, v) in m {
      var i :| 0 <= i < |m| && m[i] == (k, v);
      assert i == 0;
    }
  }

  /** `renameMap[k] || k`: the mapped name when there is a non-empty one,
      and `k` itself otherwise. */
  function RenameName(m: RenameMap, k: string): (r: string)
    ensures r == k || (k, r) in m
    ensures k !in Keys(m) ==> r == k
  {
    match Lookup(m, k)
    case Some(v) => if v != [] then v else k
    case None => k
  }

  /** The rename acts like the map on a key with a non-empty value. */
  lemma RenameNameMapped(m: RenameMap, k: string, v: string)
    requires DistinctKeys(m)
    requires (k, v) in m && v != []
    ensures RenameName(m, k) == v
  {
    LookupFinds(m, k, v);
  }

  /** No value is also a key, so a renamed name is never renamed again. */
  predicate ValuesAreNotKeys(m: RenameMap) {
    forall i, j :: 0 <= i < |m| && 0 <= j < |m| ==> m[i].1 != m[j].0
  }

  /** Every new name is non-empty, so `renameMap[k] || k` always takes it. */
  predicate NonEmptyValues(m: RenameMap) {
    forall i :: 0 <= i < |m| ==> m[i].1 != []
  }

  /** When no value is a key and no value is empty, a renamed name is never
      an old name, whatever name was renamed. */
  lemma RenameNameAvoidsKeys(m: RenameMap, k: string)
    requires ValuesAreNotKeys(m) && NonEmptyValues(m)
    ensures RenameName(m, k) !in Keys(m)
  {
    match Lookup(m, k)
    case Some(v) =>
      var i :| 0 <= i < |m| && m[i] == (k, v);
      forall j | 0 <= j < |m| ensures Keys(m)[j] != v {
        assert m[i].1 != m[j].0;
      }
    case None =>
  }

  /** Renaming twice is renaming once when no value is a key. */
  lemma RenameNameIdempotent(m: RenameMap, k: string)
    requires ValuesAreNotKeys(m)
    ensures RenameName(m, RenameName(m, k)) == RenameName(m, k)
  {
    var r := RenameName(m, k);
    if r != k {
      var i :| 0 <= i < |m| && m[i] == (k, r);
      assert r !in Keys(m);
    }
  }

  /** The position of the first member named `k`, or `|obj|` when there
      is none. */
  function FirstIndex<V>(obj: seq<(string, V)>, k: string): (i: nat)
    ensures i <= |obj|
    ensures i < |obj| ==> obj[i].0 == k
    ensures forall j :: 0 <= j < i ==> obj[j].0 != k
    decreases |obj|
  {
    if obj == [] then 0
    else if obj[0].0 == k then 0
    else 1 + FirstIndex(obj[1..], k)
  }

  /** `obj[k] = v` on a JavaScript object: an existing member keeps its
      position and takes the new value, a new member goes last. */
  function ObjSet<V>(obj: seq<(string, V)>, k: string, v: V): (r: seq<(string, V)>)
    ensures k in Keys(obj) ==> |r| == |obj| && Keys(r) == Keys(obj)
    ensures k in Keys(obj) ==> forall i :: 0 <= i < |obj| && obj[i].0 != k ==> r[i] == obj[i]
    ensures k in Keys(obj) && DistinctKeys(obj) ==>
      forall i :: 0 <= i < |obj| ==> r[i] == (if obj[i].0 == k then (k, v) else obj[i])
    ensures k !in Keys(obj) ==> r == obj + [(k, v)]
    ensures DistinctKeys(obj) ==> DistinctKeys(r)
    ensures Keys(r) == Keys(obj) || Keys(r) == Keys(obj) + [k]
    ensures forall i :: 0 <= i < |r| ==> r[i] == (k, v) || (i < |obj| && r[i] == obj[i])
  {
    var i := FirstIndex(obj, k);
    if i < |obj| then
      assert Keys(obj)[i] == k;
      obj[i := (k, v)]
    else
      assert k !in Keys(obj);
      obj + [(k, v)]
  }

  /** Assignment seen member by member from the front, as the recursive
      proofs about objects need it. */
  lemma ObjSetCons<V>(obj: seq<(string, V)>, k: string, v: V)
    requires obj != []
    ensures ObjSet(obj, k, v) ==
      if obj[0].0 == k then [(k, v)] + obj[1..] else [obj[0]] + ObjSet(obj[1..], k, v)
  {
    if obj[0].0 != k {
      var t := obj[1..];
      assert FirstIndex(obj, k) == 1 + FirstIndex(t, k);
      if FirstIndex(t, k) < |t| {
        assert obj[FirstIndex(obj, k) := (k, v)] == [obj[0]] + t[FirstIndex(t, k) := (k, v)];
      } else {
        assert obj + [(k, v)] == [obj[0]] + (t + [(k, v)]);
      }
    }
  }

  /** The loop `for ([key, val] of Object.entries(obj)) out[renameMap[key] || key] = g(val)`
      building a fresh object `out`. */
  function RenameEntries<V>(entries: seq<(string, V)>, m: RenameMap, g: V -> V): (r: seq<(string, V)>)
    ensures DistinctKeys(r)
    ensures |r| <= |entries|
    ensures forall k :: k in Keys(r) ==> exists i :: 0 <= i < |entries| && RenameName(m, entries[i].0) == k
    decreases |entries|
  {
    if entries == [] then []
    else
      var last := entries[|entries| - 1];
      var prefix := RenameEntries(entries[..|entries| - 1], m, g);
      var r := ObjSet(prefix, RenameName(m, last.0), g(last.1));
      assert forall k :: k in Keys(r) ==> k in Keys(prefix) || k == RenameName(m, last.0);
      r
  }

  /** The renamed keys of `entries` are pairwise distinct: no two members
      land on the same key. */
  predicate NoCollision<V>(entries: seq<(string, V)>, m: RenameMap) {
    forall i, j :: 0 <= i < j < |entries| ==> RenameName(m, entries[i].0) != RenameName(m, entries[j].0)
  }

  /** The last member goes last when its renamed key is new. */
  lemma RenameEntriesSnoc<V>(entries: seq<(string, V)>, m: RenameMap, g: V -> V)
    requires entries != []
    ensures
      var n := |entries| - 1;
      var prefix := RenameEntries(entries[..n], m, g);
      var k := RenameName(m, entries[n].0);
      k !in Keys(prefix) ==> RenameEntries(entries, m, g) == prefix + [(k, g(entries[n].1))]
  {
  }

  /** Without collisions the new object has one member per old member, in
      the same order: the renamed key with the transformed value. */
  lemma {:induction false} RenameEntriesPointwise<V>(entries: seq<(string, V)>, m: RenameMap, g: V -> V)
    requires NoCollision(entries, m)
    ensures |RenameEntries(entries, m, g)| == |entries|
    ensures forall i :: 0 <= i < |entries| ==>
      RenameEntries(entries, m, g)[i] == (RenameName(m, entries[i].0), g(entries[i].1))
    decreases |entries|
  {
    if entries != [] {
      var n := |entries| - 1;
      var init := entries[..n];
      assert NoCollision(init, m) by {
        forall i, j | 0 <= i < j < |init| ensures RenameName(m, init[i].0) != RenameName(m, init[j].0) {
          assert init[i] == entries[i] && init[j] == entries[j];
        }
      }
      RenameEntriesPointwise(init, m, g);
      var prefix := RenameEntries(init, m, g);
      var k := RenameName(m, entries[n].0);
      assert k !in Keys(prefix) by {
        forall i | 0 <= i < |prefix| ensures prefix[i].0 != k {
          assert prefix[i].0 == RenameName(m, init[i].0);
          assert init[i] == entries[i];
        }
      }
      RenameEntriesSnoc(entries, m, g);
      var r := prefix + [(k, g(entries[n].1))];
      forall i | 0 <= i < |entries| ensures r[i] == (RenameName(m, entries[i].0), g(entries[i].1)) {
        if i < n {
          assert init[i] == entries[i];
        }
      }
    }
  }

  /** An object whose keys the rename fixes and whose values `g` fixes is
      rebuilt as it was. */
  lemma RenameEntriesFixed<V>(entries: seq<(string, V)>, m: RenameMap, g: V -> V)
    requires DistinctKeys(entries)
    requires forall k :: k in Keys(entries) ==> RenameName(m, k) == k
    requires forall i :: 0 <= i < |entries| ==> g(entries[i].1) == entries[i].1
    ensures RenameEntries(entries, m, g) == entries
  {
    forall i | 0 <= i < |entries| ensures RenameName(m, entries[i].0) == entries[i].0 {
      assert Keys(entries)[i] == entries[i].0;
    }
    RenameEntriesPointwise(entries, m, g);
  }

  /** With an empty map every object is rebuilt as it was. */
  lemma RenameEntriesEmptyMap<V>(entries: seq<(string, V)>, g: V -> V)
    requires DistinctKeys(entries)
    requires forall x :: g(x) == x
    ensures RenameEntries(entries, [], g) == entries
  {
    RenameEntriesFixed(entries, [], g);
  }

  /** Every key of the new object is fixed by the rename when renaming
      twice is renaming once. */
  lemma {:induction false} RenameEntriesKeysFixed<V>(entries: seq<(string, V)>, m: RenameMap, g: V -> V)
    requires ValuesAreNotKeys(m)
    ensures forall k :: k in Keys(RenameEntries(entries, m, g)) ==> RenameName(m, k) == k
  {
    forall k | k in Keys(RenameEntries(entries, m, g))
      ensures RenameName(m, k) == k
    {
      var i :| 0 <= i < |entries| && RenameName(m, entries[i].0) == k;
      RenameNameIdempotent(m, entries[i].0);
    }
  }

  /** Every value of the new object is an image of `g`, so an idempotent
      `g` fixes it. */
  lemma {:induction false} RenameEntriesValues<V>(entries: seq<(string, V)>, m: RenameMap, g: V -> V)
    requires forall x :: g(g(x)) == g(x)
    ensures forall i :: 0 <= i < |RenameEntries(entries, m, g)| ==>
      g(RenameEntries(entries, m, g)[i].1) == RenameEntries(entries, m, g)[i].1
    decreases |entries|
  {
    if entries != [] {
      RenameEntriesValues(entries[..|entries| - 1], m, g);
    }
  }

  /** Renaming the keys a second time with the same map changes nothing
      when no value of the map is also a key and `g` is idempotent. */
  lemma RenameEntriesIdempotent<V>(entries: seq<(string, V)>, m: RenameMap, g: V -> V)
    requires ValuesAreNotKeys(m)
    requires forall x :: g(g(x)) == g(x)
    ensures RenameEntries(RenameEntries(entries, m, g), m, g) == RenameEntries(entries, m, g)
  {
    RenameEntriesKeysFixed(entries, m, g);
    RenameEntriesValues(entries, m, g);
    RenameEntriesFixed(RenameEntries(entries, m, g), m, g);
  }
}
