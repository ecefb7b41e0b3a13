/** The collection helpers of `src/lib/EXAMPLE_CORE/utils.ts`, above all
    the three steps around a bulk upsert: `deduplicate_array` collapses a
    batch to one representative per key, `recreate_id_array` spreads the
    ids the store assigned back over the original positions, and
    `map_from_id_to_id` maps temporary ids to the ids the store assigned. */
module CoreUtils {
  import opened Wrappers
  import opened Json
  import opened CoreErrors

  // ------------------------------------------------------ first occurrences

  /** Position of the first element of `s` with key `k`, or -1. */
  function KeyIndex<T, K(==)>(s: seq<T>, key: T -> K, k: K): (r: int)
    ensures -1 <= r < |s|
    ensures r >= 0 ==> key(s[r]) == k
    decreases |s|
  {
    if |s| == 0 then -1
    else
      var r := KeyIndex(s[..|s| - 1], key, k);
      if r >= 0 then r else if key(s[|s| - 1]) == k then |s| - 1 else -1
  }

  /** -1 exactly when no element has the key, and otherwise no earlier
      element has it. */
  lemma {:induction false} KeyIndexFirst<T, K>(s: seq<T>, key: T -> K, k: K)
    ensures KeyIndex(s, key, k) == -1 <==> forall j :: 0 <= j < |s| ==> key(s[j]) != k
    ensures forall j :: 0 <= j < KeyIndex(s, key, k) ==> key(s[j]) != k
    decreases |s|
  {
    if |s| > 0 {
      var init := s[..|s| - 1];
      KeyIndexFirst(init, key, k);
      assert forall j :: 0 <= j < |init| ==> init[j] == s[j];
    }
  }

  lemma KeyIndexAppend<T, K>(s: seq<T>, x: T, key: T -> K, k: K)
    ensures KeyIndex(s + [x], key, k) ==
      if KeyIndex(s, key, k) >= 0 then KeyIndex(s, key, k) else if key(x) == k then |s| else -1
  {
    assert (s + [x])[..|s|] == s;
  }

  lemma KeyIndexAppendAll<T, K>(s: seq<T>, x: T, key: T -> K)
    ensures forall k :: KeyIndex(s + [x], key, k) ==
                        if KeyIndex(s, key, k) >= 0 then KeyIndex(s, key, k) else if key(x) == k then |s| else -1
  {
    forall k ensures KeyIndex(s + [x], key, k) ==
      if KeyIndex(s, key, k) >= 0 then KeyIndex(s, key, k) else if key(x) == k then |s| else -1
    {
      KeyIndexAppend(s, x, key, k);
    }
  }

  /** The elements of `s` that are not excluded and whose key was not seen
      earlier among the non-excluded ones, in their original order. */
  function FirstOccurrences<T, K(==)>(s: seq<T>, excluded: T -> bool, key: T -> K): seq<T>
    decreases |s|
  {
    if |s| == 0 then []
    else
      var prefix := FirstOccurrences(s[..|s| - 1], excluded, key);
      var x := s[|s| - 1];
      if excluded(x) || KeyIndex(prefix, key, key(x)) >= 0 then prefix else prefix + [x]
  }

  /** One more input element: the representatives grow by it exactly when
      it is not excluded and its key is new. */
  lemma FirstOccurrencesStep<T, K>(s: seq<T>, i: int, excluded: T -> bool, key: T -> K)
    requires 0 <= i < |s|
    ensures FirstOccurrences(s[..i + 1], excluded, key) ==
      if excluded(s[i]) || KeyIndex(FirstOccurrences(s[..i], excluded, key), key, key(s[i])) >= 0
      then FirstOccurrences(s[..i], excluded, key)
      else FirstOccurrences(s[..i], excluded, key) + [s[i]]
  {
    assert s[..i + 1][..i] == s[..i];
  }

  /** Position `p` holds the first non-excluded element with its key. */
  predicate IsFirstOf<T, K(==)>(s: seq<T>, excluded: T -> bool, key: T -> K, p: int)
    requires 0 <= p < |s|
  {
    !excluded(s[p]) && forall q :: 0 <= q < p ==> excluded(s[q]) || key(s[q]) != key(s[p])
  }

  /** No more representatives than items. */
  lemma {:induction false} FirstOccurrencesLength<T, K>(s: seq<T>, excluded: T -> bool, key: T -> K)
    ensures |FirstOccurrences(s, excluded, key)| <= |s|
    decreases |s|
  {
    if |s| > 0 {
      FirstOccurrencesLength(s[..|s| - 1], excluded, key);
    }
  }

  /** The representatives are original, non-excluded elements. */
  lemma {:induction false} FirstOccurrencesMembers<T, K>(s: seq<T>, excluded: T -> bool, key: T -> K)
    ensures forall j :: 0 <= j < |FirstOccurrences(s, excluded, key)| ==>
      FirstOccurrences(s, excluded, key)[j] in s && !excluded(FirstOccurrences(s, excluded, key)[j])
    decreases |s|
  {
    if |s| > 0 {
      var init := s[..|s| - 1];
      FirstOccurrencesMembers(init, excluded, key);
      var prefix := FirstOccurrences(init, excluded, key);
      var r := FirstOccurrences(s, excluded, key);
      forall j | 0 <= j < |r| ensures r[j] in s && !excluded(r[j]) {
        if j < |prefix| {
          assert r[j] == prefix[j];
          var q :| 0 <= q < |init| && init[q] == prefix[j];
          assert s[q] == r[j];
        }
      }
    }
  }

  /** The representatives have pairwise different keys. */
  lemma {:induction false} FirstOccurrencesDistinct<T, K>(s: seq<T>, excluded: T -> bool, key: T -> K)
    ensures
      forall j, k :: 0 <= j < k < |FirstOccurrences(s, excluded, key)| ==> key(FirstOccurrences(s, excluded, key)[j]) != key(FirstOccurrences(s, excluded, key)[k])
    decreases |s|
  {
    if |s| > 0 {
      var init := s[..|s| - 1];
      FirstOccurrencesDistinct(init, excluded, key);
      var prefix := FirstOccurrences(init, excluded, key);
      var x := s[|s| - 1];
      if excluded(x) || KeyIndex(prefix, key, key(x)) >= 0 {
        assert FirstOccurrences(s, excluded, key) == prefix;
      } else {
        var r := prefix + [x];
        assert FirstOccurrences(s, excluded, key) == r;
        KeyIndexFirst(prefix, key, key(x));
        forall j, k | 0 <= j < k < |r| ensures key(r[j]) != key(r[k]) {
          if k == |prefix| {
            assert r[j] == prefix[j] && r[k] == x;
            assert key(prefix[j]) != key(x);
          } else {
            assert r[j] == prefix[j] && r[k] == prefix[k];
          }
        }
      }
    }
  }

  /** Every key of a non-excluded element has a representative. */
  lemma {:induction false} FirstOccurrencesCover<T, K>(s: seq<T>, excluded: T -> bool, key: T -> K)
    ensures forall p :: 0 <= p < |s| && !excluded(s[p]) ==>
      KeyIndex(FirstOccurrences(s, excluded, key), key, key(s[p])) >= 0
    decreases |s|
  {
    if |s| > 0 {
      var init := s[..|s| - 1];
      var x := s[|s| - 1];
      FirstOccurrencesCover(init, excluded, key);
      var prefix := FirstOccurrences(init, excluded, key);
      var r := FirstOccurrences(s, excluded, key);
      forall p | 0 <= p < |s| && !excluded(s[p]) ensures KeyIndex(r, key, key(s[p])) >= 0 {
        if p < |init| {
          assert s[p] == init[p];
          assert KeyIndex(prefix, key, key(s[p])) >= 0;
        }
        if r != prefix {
          KeyIndexAppend(prefix, x, key, key(s[p]));
        }
      }
    }
  }

  lemma IsFirstOfPrefix<T, K>(s: seq<T>, excluded: T -> bool, key: T -> K, p: int)
    requires 0 <= p < |s| - 1
    ensures IsFirstOf(s, excluded, key, p) == IsFirstOf(s[..|s| - 1], excluded, key, p)
  {
  }

  /** The first occurrence of a key is its representative. */
  lemma {:induction false} FirstOccurrencesRepresent<T, K>(s: seq<T>, excluded: T -> bool, key: T -> K)
    ensures
      forall p :: 0 <= p < |s| && IsFirstOf(s, excluded, key, p) ==>
        0 <= KeyIndex(FirstOccurrences(s, excluded, key), key, key(s[p])) && FirstOccurrences(s, excluded, key)[KeyIndex(FirstOccurrences(s, excluded, key), key, key(s[p]))] == s[p]
    decreases |s|
  {
    if |s| > 0 {
      var n := |s| - 1;
      var init := s[..n];
      var x := s[n];
      FirstOccurrencesRepresent(init, excluded, key);
      var prefix := FirstOccurrences(init, excluded, key);
      var r := FirstOccurrences(s, excluded, key);
      forall p | 0 <= p < |s| && IsFirstOf(s, excluded, key, p)
        ensures 0 <= KeyIndex(r, key, key(s[p])) && r[KeyIndex(r, key, key(s[p]))] == s[p]
      {
        if p < n {
          IsFirstOfPrefix(s, excluded, key, p);
          assert s[p] == init[p];
          var j := KeyIndex(prefix, key, key(s[p]));
          assert 0 <= j && prefix[j] == s[p];
          if r != prefix {
            KeyIndexAppend(prefix, x, key, key(s[p]));
          }
        } else if r == prefix {
          FirstOccurrencesMembers(init, excluded, key);
          assert false;
        } else {
          KeyIndexAppend(prefix, x, key, key(x));
        }
      }
    }
  }

  /** One more element keeps two found keys in order, and a new key goes
      after every found one. */
  lemma AppendKeepsOrder<T, K>(prefix: seq<T>, x: T, key: T -> K, k1: K, k2: K)
    requires 0 <= KeyIndex(prefix, key, k1)
    requires 0 <= KeyIndex(prefix, key, k2) ==> KeyIndex(prefix, key, k1) < KeyIndex(prefix, key, k2)
    requires KeyIndex(prefix, key, k2) < 0 ==> key(x) == k2
    ensures KeyIndex(prefix + [x], key, k1) < KeyIndex(prefix + [x], key, k2)
  {
    KeyIndexAppend(prefix, x, key, k1);
    KeyIndexAppend(prefix, x, key, k2);
  }

  /** First occurrences keep their relative order among the representatives. */
  lemma {:induction false} FirstOccurrencesOrdered<T, K>(s: seq<T>, excluded: T -> bool, key: T -> K)
    ensures
      forall p1, p2 :: 0 <= p1 < p2 < |s| && IsFirstOf(s, excluded, key, p1) && IsFirstOf(s, excluded, key, p2) ==>
        KeyIndex(FirstOccurrences(s, excluded, key), key, key(s[p1])) < KeyIndex(FirstOccurrences(s, excluded, key), key, key(s[p2]))
    decreases |s|
  {
    if |s| > 0 {
      var n := |s| - 1;
      var init := s[..n];
      var x := s[n];
      FirstOccurrencesOrdered(init, excluded, key);
      FirstOccurrencesCover(init, excluded, key);
      var prefix := FirstOccurrences(init, excluded, key);
      var r := FirstOccurrences(s, excluded, key);
      forall p1, p2 | 0 <= p1 < p2 < |s| && IsFirstOf(s, excluded, key, p1) && IsFirstOf(s, excluded, key, p2)
        ensures KeyIndex(r, key, key(s[p1])) < KeyIndex(r, key, key(s[p2]))
      {
        var k1, k2 := key(s[p1]), key(s[p2]);
        IsFirstOfPrefix(s, excluded, key, p1);
        assert s[p1] == init[p1];
        assert 0 <= KeyIndex(prefix, key, k1);
        if p2 < n {
          IsFirstOfPrefix(s, excluded, key, p2);
          assert s[p2] == init[p2];
          assert KeyIndex(prefix, key, k1) < KeyIndex(prefix, key, k2);
          if r != prefix {
            AppendKeepsOrder(prefix, x, key, k1, k2);
          }
        } else {
          assert p2 == n && x == s[p2];
          assert KeyIndex(prefix, key, k2) < 0 by {
            NewKeyIsAbsent(s, excluded, key, p2);
          }
          assert r == prefix + [x];
          AppendKeepsOrder(prefix, x, key, k1, k2);
        }
      }
    }
  }

  /** The key of the last element, when that element is a first
      occurrence, is not among the earlier representatives. */
  lemma NewKeyIsAbsent<T, K>(s: seq<T>, excluded: T -> bool, key: T -> K, p: int)
    requires p == |s| - 1 && p >= 0 && IsFirstOf(s, excluded, key, p)
    ensures KeyIndex(FirstOccurrences(s[..p], excluded, key), key, key(s[p])) < 0
  {
    var prefix := FirstOccurrences(s[..p], excluded, key);
    FirstOccurrencesMembers(s[..p], excluded, key);
    forall j | 0 <= j < |prefix| ensures key(prefix[j]) != key(s[p]) {
      var q :| 0 <= q < p && s[..p][q] == prefix[j];
      assert s[q] == prefix[j];
    }
    KeyIndexFirst(prefix, key, key(s[p]));
  }

  // ---------------------------------------------------- deduplicate_array

  /** The key under which deduplicate_array compares an item: the item
      without the ignored properties, compared by value. */
  function DedupeKey(ignored: set<string>): Record -> Record {
    (item: Record) => item - ignored
  }

  /** The default exclusion criterion `() => false`. */
  function KeepAll<T>(): T -> bool {
    (item: T) => false
  }

  /** What the position map of deduplicate_array means: -1 exactly for
      excluded items, otherwise the index of a representative equal to the
      item up to the ignored properties. */
  lemma DeduplicatePositionsMeaning(arr: seq<Record>, excluded: Record -> bool, ignored: set<string>,
                                    items: seq<Record>, positions: map<nat, int>)
    requires items == FirstOccurrences(arr, excluded, DedupeKey(ignored))
    requires forall i: nat :: i in positions <==> i < |arr|
    requires forall i :: 0 <= i < |arr| ==>
      positions[i] == if excluded(arr[i]) then -1 else KeyIndex(items, DedupeKey(ignored), arr[i] - ignored)
    ensures forall i :: 0 <= i < |arr| ==> (positions[i] == -1 <==> excluded(arr[i]))
    ensures forall i :: 0 <= i < |arr| && !excluded(arr[i]) ==>
      0 <= positions[i] < |items| && items[positions[i]] - ignored == arr[i] - ignored
  {
    var key := DedupeKey(ignored);
    FirstOccurrencesCover(arr, excluded, key);
    forall i | 0 <= i < |arr| && !excluded(arr[i])
      ensures 0 <= positions[i] < |items| && items[positions[i]] - ignored == arr[i] - ignored
    {
      assert key(arr[i]) == arr[i] - ignored;
      assert key(items[positions[i]]) == arr[i] - ignored;
    }
  }

  /** The representatives of deduplicate_array are original items, not
      excluded, and pairwise different up to the ignored properties. */
  lemma DeduplicateItemsMeaning(arr: seq<Record>, excluded: Record -> bool, ignored: set<string>, items: seq<Record>)
    requires items == FirstOccurrences(arr, excluded, DedupeKey(ignored))
    ensures forall j :: 0 <= j < |items| ==> items[j] in arr && !excluded(items[j])
    ensures forall j, k :: 0 <= j < k < |items| ==> items[j] - ignored != items[k] - ignored
  {
    var key := DedupeKey(ignored);
    FirstOccurrencesMembers(arr, excluded, key);
    FirstOccurrencesDistinct(arr, excluded, key);
    forall j, k | 0 <= j < k < |items| ensures items[j] - ignored != items[k] - ignored {
      assert key(items[j]) != key(items[k]);
    }
  }

  /** `seen` gives each key seen so far its representative's index. */
  ghost predicate SeenIndexes(items: seq<Record>, ignored: set<string>, seen: map<Record, nat>) {
    forall k :: KeyIndex(items, DedupeKey(ignored), k) == if k in seen then seen[k] else -1
  }

  /** The position each visited item maps to. */
  ghost function DedupeSlot(arr: seq<Record>, excluded: Record -> bool, ignored: set<string>, items: seq<Record>, p: int): int
    requires 0 <= p < |arr|
  {
    if excluded(arr[p]) then -1 else KeyIndex(items, DedupeKey(ignored), arr[p] - ignored)
  }

  /** The slots recorded so far are the positions of the visited items. */
  ghost predicate SlotsFit(arr: seq<Record>, excluded: Record -> bool, ignored: set<string>,
                           items: seq<Record>, slots: seq<int>)
  {
    && |slots| <= |arr|
    && (forall p :: 0 <= p < |slots| ==> slots[p] == DedupeSlot(arr, excluded, ignored, items, p))
    && (forall p :: 0 <= p < |slots| && !excluded(arr[p]) ==> slots[p] >= 0)
  }

  /** The state of deduplicate_array after the first `i` items: the
      representatives so far, `seen` giving each seen key its
      representative's index, and the position of each visited item. */
  ghost predicate DedupeInv(arr: seq<Record>, excluded: Record -> bool, ignored: set<string>, i: int,
                            items: seq<Record>, seen: map<Record, nat>, slots: seq<int>)
  {
    && 0 <= i <= |arr|
    && items == FirstOccurrences(arr[..i], excluded, DedupeKey(ignored))
    && SeenIndexes(items, ignored, seen)
    && |slots| == i
    && SlotsFit(arr, excluded, ignored, items, slots)
  }

  lemma SlotsAppend(arr: seq<Record>, excluded: Record -> bool, ignored: set<string>,
                    items: seq<Record>, slots: seq<int>, v: int)
    requires SlotsFit(arr, excluded, ignored, items, slots) && |slots| < |arr|
    requires v == DedupeSlot(arr, excluded, ignored, items, |slots|)
    requires !excluded(arr[|slots|]) ==> v >= 0
    ensures SlotsFit(arr, excluded, ignored, items, slots + [v])
  {
    assert forall p :: 0 <= p < |slots| ==> (slots + [v])[p] == slots[p];
  }

  /** A new representative does not move the earlier ones. */
  lemma SlotsGrow(arr: seq<Record>, excluded: Record -> bool, ignored: set<string>,
                  items: seq<Record>, x: Record, slots: seq<int>)
    requires SlotsFit(arr, excluded, ignored, items, slots)
    ensures SlotsFit(arr, excluded, ignored, items + [x], slots)
  {
    forall p | 0 <= p < |slots| ensures slots[p] == DedupeSlot(arr, excluded, ignored, items + [x], p) {
      if !excluded(arr[p]) {
        KeyIndexAppend(items, x, DedupeKey(ignored), arr[p] - ignored);
      }
    }
  }

  lemma DedupeSkipExcluded(arr: seq<Record>, excluded: Record -> bool, ignored: set<string>, i: int,
                           items: seq<Record>, seen: map<Record, nat>, slots: seq<int>)
    requires 0 <= i < |arr| && excluded(arr[i])
    requires DedupeInv(arr, excluded, ignored, i, items, seen, slots)
    ensures DedupeInv(arr, excluded, ignored, i + 1, items, seen, slots + [-1])
  {
    FirstOccurrencesStep(arr, i, excluded, DedupeKey(ignored));
    SlotsAppend(arr, excluded, ignored, items, slots, -1);
  }

  lemma DedupeSeenKey(arr: seq<Record>, excluded: Record -> bool, ignored: set<string>, i: int,
                      items: seq<Record>, seen: map<Record, nat>, slots: seq<int>)
    requires 0 <= i < |arr| && !excluded(arr[i]) && arr[i] - ignored in seen
    requires DedupeInv(arr, excluded, ignored, i, items, seen, slots)
    ensures DedupeInv(arr, excluded, ignored, i + 1, items, seen, slots + [seen[arr[i] - ignored]])
  {
    var key := DedupeKey(ignored);
    assert key(arr[i]) == arr[i] - ignored;
    assert KeyIndex(items, key, arr[i] - ignored) == seen[arr[i] - ignored];
    FirstOccurrencesStep(arr, i, excluded, key);
    SlotsAppend(arr, excluded, ignored, items, slots, seen[arr[i] - ignored]);
  }

  lemma DedupeNewKey(arr: seq<Record>, excluded: Record -> bool, ignored: set<string>, i: int,
                     items: seq<Record>, seen: map<Record, nat>, slots: seq<int>)
    requires 0 <= i < |arr| && !excluded(arr[i]) && arr[i] - ignored !in seen
    requires DedupeInv(arr, excluded, ignored, i, items, seen, slots)
    ensures DedupeInv(arr, excluded, ignored, i + 1, items + [arr[i]], seen[arr[i] - ignored := |items|], slots + [|items|])
  {
    var key := DedupeKey(ignored);
    var k := arr[i] - ignored;
    assert key(arr[i]) == k;
    assert KeyIndex(items, key, k) == -1;
    FirstOccurrencesStep(arr, i, excluded, key);
    KeyIndexAppendAll(items, arr[i], key);
    assert SeenIndexes(items + [arr[i]], ignored, seen[k := |items|]);
    SlotsGrow(arr, excluded, ignored, items, arr[i], slots);
    KeyIndexAppend(items, arr[i], key, k);
    SlotsAppend(arr, excluded, ignored, items + [arr[i]], slots, |items|);
  }

  /** deduplicate_array. `positions` is the source's `map`: index to
      representative index, or -1 for an excluded item. */
  method DeduplicateArray(arr: seq<Record>, excluded: Record -> bool, ignored: set<string>)
    returns (items: seq<Record>, positions: map<nat, int>)
    ensures items == FirstOccurrences(arr, excluded, DedupeKey(ignored))
    ensures forall i: nat :: i in positions <==> i < |arr|
    ensures forall i :: 0 <= i < |arr| ==>
      positions[i] == if excluded(arr[i]) then -1 else KeyIndex(items, DedupeKey(ignored), arr[i] - ignored)
  {
    var seen: map<Record, nat> := map[];
    var slots: seq<int> := [];
    items := [];
    var i := 0;
    while i < |arr|
      invariant DedupeInv(arr, excluded, ignored, i, items, seen, slots)
    {
      var item := arr[i];
      if excluded(item) {
        DedupeSkipExcluded(arr, excluded, ignored, i, items, seen, slots);
        slots := slots + [-1];
      } else {
        var k := item - ignored;
        if k !in seen {
          DedupeNewKey(arr, excluded, ignored, i, items, seen, slots);
          seen := seen[k := |items|];
          items := items + [item];
        } else {
          DedupeSeenKey(arr, excluded, ignored, i, items, seen, slots);
        }
        slots := slots + [seen[k]];
      }
      i := i + 1;
    }
    assert arr[..i] == arr;
    positions := map p: nat | p < |slots| :: slots[p];
  }

  // ----------------------------------------------------- recreate_id_array

  /** What reading `.id` of a missing array element throws. */
  const MissingRowError := Foreign(Some("Cannot read properties of undefined (reading 'id')"))

  /** `ids[index] = v` on a JavaScript array: a write past the end grows the
      array and leaves holes (`None`) behind. */
  function WriteAt(ids: seq<Option<int>>, index: nat, v: int): (r: seq<Option<int>>)
    ensures |r| == if index < |ids| then |ids| else index + 1
    ensures r[index] == Some(v)
    ensures forall k :: 0 <= k < |r| && k != index ==> r[k] == if k < |ids| then ids[k] else None
  {
    if index < |ids| then ids[index := Some(v)] else ids + seq(index - |ids|, _ => None) + [Some(v)]
  }

  /** A map entry recreate_id_array can resolve: the sentinel or a row index. */
  predicate Resolvable(rowCount: int, value: int) {
    value == -1 || 0 <= value < rowCount
  }

  /** recreate_id_array over the ids of the returned rows. The array starts
      as `rows.length` nulls (`None`) and every map entry writes its slot,
      so its final length is the larger of the row count and the largest
      key plus one. An entry that names no row makes `.id` throw. */
  method RecreateIdArray(rows: seq<int>, positions: map<nat, int>) returns (r: Result<seq<Option<int>>, Thrown>)
    ensures r.Failure? <==> exists k :: k in positions && !Resolvable(|rows|, positions[k])
    ensures r.Failure? ==> r.error == MissingRowError
    ensures r.Success? ==>
      && |r.value| >= |rows|
      && (forall k :: k in positions ==> k < |r.value|)
      && (|r.value| > |rows| ==> (|r.value| - 1) in positions)
    ensures r.Success? ==> forall k :: 0 <= k < |r.value| ==>
      r.value[k] == if k !in positions then None
                    else if positions[k] == -1 then Some(-1) else Some(rows[positions[k]])
  {
    var ids: seq<Option<int>> := seq(|rows|, _ => None);
    var rest := positions.Keys;
    // Object.entries visits the keys in ascending order; the keys are
    // distinct, so the order of the writes does not matter.
    while rest != {}
      invariant rest <= positions.Keys
      invariant forall k :: k in positions && k !in rest ==> Resolvable(|rows|, positions[k]) && k < |ids|
      invariant |ids| >= |rows|
      invariant |ids| > |rows| ==> (|ids| - 1) in positions && (|ids| - 1) !in rest
      invariant forall k :: 0 <= k < |ids| ==>
        ids[k] == if k !in positions || k in rest then None
                  else if positions[k] == -1 then Some(-1) else Some(rows[positions[k]])
      decreases rest
    {
      var k :| k in rest;
      var value := positions[k];
      if value == -1 {
        ids := WriteAt(ids, k, -1);
      } else if 0 <= value < |rows| {
        ids := WriteAt(ids, k, rows[value]);
      } else {
        return Failure(MissingRowError);
      }
      rest := rest - {k};
    }
    return Success(ids);
  }

  // ----------------------------------------------------- map_from_id_to_id

  /** Whether iteration `i` of map_from_id_to_id writes key `k`. */
  predicate WritesKey(arr1: seq<Record>, arr2: seq<int>, i: int, k: Value)
    requires 0 <= i < |arr1| && i < |arr2|
  {
    ("id" in arr1[i] && arr1[i]["id"] == k) || k == Num(arr2[i])
  }

  /** The map after the first `n` iterations of map_from_id_to_id. */
  function IdMap(arr1: seq<Record>, arr2: seq<int>, n: nat): map<Value, int>
    requires n <= |arr1| && n <= |arr2|
  {
    if n == 0 then map[]
    else
      var m := IdMap(arr1, arr2, n - 1);
      var withTemp := if "id" in arr1[n - 1] then m[arr1[n - 1]["id"] := arr2[n - 1]] else m;
      withTemp[Num(arr2[n - 1]) := arr2[n - 1]]
  }

  /** map_from_id_to_id. The source reads `arr_2[i]` for every index of
      `arr_1`; callers pass at least as many ids as rows. */
  method MapFromIdToId(arr1: seq<Record>, arr2: seq<int>) returns (m: map<Value, int>)
    requires |arr2| >= |arr1|
    ensures m == IdMap(arr1, arr2, |arr1|)
  {
    m := map[];
    var i := 0;
    while i < |arr1|
      invariant 0 <= i <= |arr1|
      invariant m == IdMap(arr1, arr2, i)
    {
      if "id" in arr1[i] {
        m := m[arr1[i]["id"] := arr2[i]];
      }
      m := m[Num(arr2[i]) := arr2[i]];
      i := i + 1;
    }
  }

  /** The keys are the defined temporary ids and the server ids, and every
      value is one of the server ids. */
  lemma {:induction false} IdMapKeysAndValues(arr1: seq<Record>, arr2: seq<int>, n: nat)
    requires n <= |arr1| && n <= |arr2|
    ensures IdMap(arr1, arr2, n).Keys ==
      (set i | 0 <= i < n && "id" in arr1[i] :: arr1[i]["id"]) + (set i | 0 <= i < n :: Num(arr2[i]))
    ensures forall k :: k in IdMap(arr1, arr2, n) ==> exists j :: 0 <= j < n && IdMap(arr1, arr2, n)[k] == arr2[j]
  {
    if n > 0 {
      IdMapKeysAndValues(arr1, arr2, n - 1);
      var m := IdMap(arr1, arr2, n);
      var prev := IdMap(arr1, arr2, n - 1);
      forall k | k in m ensures exists j :: 0 <= j < n && m[k] == arr2[j] {
        if m[k] != arr2[n - 1] {
          var j :| 0 <= j < n - 1 && prev[k] == arr2[j];
        }
      }
    }
  }

  /** Later writes win: a key holds the server id of the last iteration
      that wrote it. */
  lemma {:induction false} IdMapLastWriteWins(arr1: seq<Record>, arr2: seq<int>, n: nat, i: nat, k: Value)
    requires i < n <= |arr1| && n <= |arr2|
    requires WritesKey(arr1, arr2, i, k)
    requires forall j :: i < j < n ==> !WritesKey(arr1, arr2, j, k)
    ensures k in IdMap(arr1, arr2, n) && IdMap(arr1, arr2, n)[k] == arr2[i]
  {
    if i < n - 1 {
      IdMapLastWriteWins(arr1, arr2, n - 1, i, k);
      assert !WritesKey(arr1, arr2, n - 1, k);
    }
  }

  /** When no temporary id coincides with a server id, every server id maps
      to itself: resolving an id that was already resolved changes nothing. */
  lemma {:induction false} IdMapResolvedIdsAreFixed(arr1: seq<Record>, arr2: seq<int>, n: nat)
    requires n <= |arr1| && n <= |arr2|
    requires forall i, j :: 0 <= i < n && 0 <= j < n && "id" in arr1[i] ==> arr1[i]["id"] != Num(arr2[j])
    ensures forall i :: 0 <= i < n ==> Num(arr2[i]) in IdMap(arr1, arr2, n) && IdMap(arr1, arr2, n)[Num(arr2[i])] == arr2[i]
  {
    if n > 0 {
      IdMapResolvedIdsAreFixed(arr1, arr2, n - 1);
      var m := IdMap(arr1, arr2, n);
      forall i | 0 <= i < n ensures Num(arr2[i]) in m && m[Num(arr2[i])] == arr2[i] {
        if arr2[i] != arr2[n - 1] {
          assert Num(arr2[i]) != Num(arr2[n - 1]);
        }
      }
    }
  }

  // ----------------------------------------------------------- chunk_array

  function Flatten<T>(chunks: seq<seq<T>>): seq<T> {
    if chunks == [] then [] else Flatten(chunks[..|chunks| - 1]) + chunks[|chunks| - 1]
  }

  /** chunk_array. An empty array gives no chunks whatever the size; on a
      non-empty array a chunk size of zero or less makes the source loop
      for ever. */
  method ChunkArray<T>(a: seq<T>, chunkSize: int) returns (chunks: seq<seq<T>>)
    requires |a| > 0 ==> chunkSize > 0
    ensures Flatten(chunks) == a
    ensures forall c :: 0 <= c < |chunks| - 1 ==> |chunks[c]| == chunkSize
    ensures |chunks| > 0 ==> 1 <= |chunks[|chunks| - 1]| <= chunkSize
    ensures |chunks| == 0 <==> |a| == 0
  {
    chunks := [];
    var i := 0;
    while i < |a|
      invariant 0 <= i
      invariant i <= |a| ==> |Flatten(chunks)| == i
      invariant Flatten(chunks) == a[..if i <= |a| then i else |a|]
      invariant forall c :: 0 <= c < |chunks| - 1 ==> |chunks[c]| == chunkSize
      invariant |chunks| > 0 ==> 1 <= |chunks[|chunks| - 1]| <= chunkSize
      invariant i < |a| ==> forall c :: 0 <= c < |chunks| ==> |chunks[c]| == chunkSize
      invariant |chunks| == 0 <==> i == 0
    {
      var end := if i + chunkSize <= |a| then i + chunkSize else |a|;
      var chunk := a[i..end];
      assert (chunks + [chunk])[..|chunks|] == chunks;
      assert a[..end] == a[..i] + chunk;
      chunks := chunks + [chunk];
      i := i + chunkSize;
    }
  }

  // ------------------------------------------------------------- unique_by

  /** What the first occurrences under `KeepAll` are: one item per key, every
      key of the input represented, and only input items. */
  lemma UniqueByMeaning<T, K>(a: seq<T>, key: T -> K)
    ensures var r := FirstOccurrences(a, KeepAll(), key);
      (forall j, k :: 0 <= j < k < |r| ==> key(r[j]) != key(r[k]))
      && (forall i :: 0 <= i < |a| ==> exists j :: 0 <= j < |r| && key(r[j]) == key(a[i]))
      && (forall j :: 0 <= j < |r| ==> r[j] in a)
  {
    var r := FirstOccurrences(a, KeepAll(), key);
    FirstOccurrencesCover(a, KeepAll(), key);
    FirstOccurrencesMembers(a, KeepAll(), key);
    FirstOccurrencesDistinct(a, KeepAll(), key);
    forall i | 0 <= i < |a| ensures exists j :: 0 <= j < |r| && key(r[j]) == key(a[i]) {
      assert !KeepAll<T>()(a[i]);
      var j := KeyIndex(r, key, key(a[i]));
      assert key(r[j]) == key(a[i]);
    }
  }

  /** One step of unique_by's loop: a key not seen yet adds the item. */
  lemma UniqueStep<T, K>(a: seq<T>, key: T -> K, i: int, r: seq<T>, seen: set<K>)
    requires 0 <= i < |a|
    requires r == FirstOccurrences(a[..i], KeepAll(), key)
    requires forall k :: k in seen <==> KeyIndex(r, key, k) >= 0
    ensures key(a[i]) in seen ==> FirstOccurrences(a[..i + 1], KeepAll(), key) == r
    ensures key(a[i]) !in seen ==>
      FirstOccurrences(a[..i + 1], KeepAll(), key) == r + [a[i]]
      && forall k :: k in seen + {key(a[i])} <==> KeyIndex(r + [a[i]], key, k) >= 0
  {
    FirstOccurrencesStep(a, i, KeepAll(), key);
    assert !KeepAll<T>()(a[i]);
    assert key(a[i]) in seen <==> KeyIndex(r, key, key(a[i])) >= 0;
    if key(a[i]) !in seen {
      forall k ensures k in seen + {key(a[i])} <==> KeyIndex(r + [a[i]], key, k) >= 0 {
        KeyIndexAppend(r, a[i], key, k);
      }
    }
  }

  /** unique_by: the first item for each key, in input order. */
  method UniqueBy<T, K(==)>(a: seq<T>, key: T -> K) returns (r: seq<T>)
    ensures r == FirstOccurrences(a, KeepAll(), key)
    ensures forall j, k :: 0 <= j < k < |r| ==> key(r[j]) != key(r[k])
    ensures forall i :: 0 <= i < |a| ==> exists j :: 0 <= j < |r| && key(r[j]) == key(a[i])
    ensures forall j :: 0 <= j < |r| ==> r[j] in a
  {
    var seen: set<K> := {};
    r := [];
    var i := 0;
    while i < |a|
      invariant 0 <= i <= |a|
      invariant r == FirstOccurrences(a[..i], KeepAll(), key)
      invariant forall k :: k in seen <==> KeyIndex(r, key, k) >= 0
    {
      UniqueStep(a, key, i, r, seen);
      var k := key(a[i]);
      if k !in seen {
        seen := seen + {k};
        r := r + [a[i]];
      }
      i := i + 1;
    }
    assert a[..i] == a;
    UniqueByMeaning(a, key);
  }

  // -------------------------------------------------------------- group_by

  /** The items of `a` with key `k`, in input order. */
  function Select<T>(a: seq<T>, key: T -> string, k: string): seq<T> {
    if a == [] then []
    else Select(a[..|a| - 1], key, k) + (if key(a[|a| - 1]) == k then [a[|a| - 1]] else [])
  }

  lemma {:induction false} SelectMembers<T>(a: seq<T>, key: T -> string, k: string)
    ensures forall x :: x in Select(a, key, k) <==> x in a && key(x) == k
  {
    if a != [] {
      SelectMembers(a[..|a| - 1], key, k);
      assert a == a[..|a| - 1] + [a[|a| - 1]];
    }
  }

  lemma {:induction false} SelectAbsent<T>(a: seq<T>, key: T -> string, k: string)
    requires forall i :: 0 <= i < |a| ==> key(a[i]) != k
    ensures Select(a, key, k) == []
  {
    if a != [] {
      var init := a[..|a| - 1];
      assert forall i :: 0 <= i < |init| ==> init[i] == a[i];
      SelectAbsent(init, key, k);
    }
  }

  /** The accumulator of group_by after the first `i` items. */
  ghost predicate GroupInv<T>(a: seq<T>, key: T -> string, i: int, groups: map<string, seq<T>>) {
    && 0 <= i <= |a|
    && groups.Keys == (set p | 0 <= p < i :: key(a[p]))
    && (forall k :: k in groups ==> groups[k] == Select(a[..i], key, k) && |groups[k]| > 0)
    && (forall k :: k !in groups ==> Select(a[..i], key, k) == [])
  }

  lemma GroupStep<T>(a: seq<T>, key: T -> string, i: int, groups: map<string, seq<T>>)
    requires GroupInv(a, key, i, groups) && i < |a|
    ensures GroupInv(a, key, i + 1,
      groups[key(a[i]) := (if key(a[i]) in groups then groups[key(a[i])] else []) + [a[i]]])
  {
    var prefix := a[..i + 1];
    assert prefix[..i] == a[..i] && prefix[i] == a[i];
    assert (set p | 0 <= p < i + 1 :: key(a[p])) == (set p | 0 <= p < i :: key(a[p])) + {key(a[i])};
  }

  /** group_by with own-property lookups: each key of an item maps to the
      items with that key, in input order. */
  method GroupBy<T>(a: seq<T>, key: T -> string) returns (groups: map<string, seq<T>>)
    ensures groups.Keys == set i | 0 <= i < |a| :: key(a[i])
    ensures forall k :: k in groups ==> groups[k] == Select(a, key, k) && |groups[k]| > 0
  {
    groups := map[];
    var i := 0;
    while i < |a|
      invariant GroupInv(a, key, i, groups)
    {
      var k := key(a[i]);
      GroupStep(a, key, i, groups);
      var current := if k in groups then groups[k] else [];
      groups := groups[k := current + [a[i]]];
      i := i + 1;
    }
    assert a[..i] == a;
  }

  /** What the source's `groups[key].push(item)` throws when `groups[key]`
      is a member inherited from `Object.prototype`. */
  const PushNotAFunction := Foreign(Some("groups[key].push is not a function"))

  /** group_by as written: the accumulator is an object literal, so
      `!groups[key]` is false for inherited names and `push` then throws. */
  function GroupByAsWritten<T>(a: seq<T>, key: T -> string): Result<map<string, seq<T>>, Thrown> {
    if a == [] then Success(map[])
    else
      match GroupByAsWritten(a[..|a| - 1], key)
      case Failure(e) => Failure(e)
      case Success(groups) =>
        var k := key(a[|a| - 1]);
        if k in groups then Success(groups[k := groups[k] + [a[|a| - 1]]])
        else if k in ObjectPrototypeMembers then Failure(PushNotAFunction)
        else Success(groups[k := [a[|a| - 1]]])
  }

  /** The discrepancy: grouping one item under the key "constructor" throws. */
  lemma GroupByAsWrittenThrowsOnInheritedKey<T>(x: T)
    ensures GroupByAsWritten([x], (item: T) => "constructor") == Failure(PushNotAFunction)
  {
    assert [x][..0] == [];
  }

  /** On keys that are not inherited names the source behaves as GroupBy. */
  lemma {:induction false} GroupByAsWrittenAgreesOnOwnKeys<T>(a: seq<T>, key: T -> string)
    requires forall i :: 0 <= i < |a| ==> key(a[i]) !in ObjectPrototypeMembers
    ensures GroupByAsWritten(a, key).Success?
    ensures GroupByAsWritten(a, key).value.Keys == set i | 0 <= i < |a| :: key(a[i])
    ensures forall k :: k in GroupByAsWritten(a, key).value ==> GroupByAsWritten(a, key).value[k] == Select(a, key, k)
  {
    if a != [] {
      var init := a[..|a| - 1];
      assert forall i :: 0 <= i < |init| ==> init[i] == a[i];
      GroupByAsWrittenAgreesOnOwnKeys(init, key);
      var groups := GroupByAsWritten(init, key).value;
      forall k | k !in groups ensures Select(init, key, k) == [] {
        SelectAbsent(init, key, k);
      }
      assert (set i | 0 <= i < |a| :: key(a[i])) == (set i | 0 <= i < |init| :: key(init[i])) + {key(a[|a| - 1])};
    }
  }

  // --------------------------------------------------------------- sort_by

  datatype SortOrder = Asc | Desc

  predicate InOrder(x: int, y: int, order: SortOrder) {
    if order == Asc then x <= y else x >= y
  }

  predicate SortedBy<T>(s: seq<T>, key: T -> int, order: SortOrder) {
    forall i, j :: 0 <= i < j < |s| ==> InOrder(key(s[i]), key(s[j]), order)
  }

  /** An element in order with every element of a sorted sequence can go first. */
  lemma ConsSorted<T>(y: T, s: seq<T>, key: T -> int, order: SortOrder)
    requires SortedBy(s, key, order)
    requires forall j :: 0 <= j < |s| ==> InOrder(key(y), key(s[j]), order)
    ensures SortedBy([y] + s, key, order)
  {
    var t := [y] + s;
    forall i, j | 0 <= i < j < |t| ensures InOrder(key(t[i]), key(t[j]), order) {
      assert t[j] == s[j - 1];
      if i > 0 {
        assert t[i] == s[i - 1];
      }
    }
  }

  /** The head of a sorted sequence is in order with the rest and with any
      element that does not go before it. */
  lemma HeadBoundsInsert<T>(x: T, s: seq<T>, rest: seq<T>, key: T -> int, order: SortOrder)
    requires s != [] && SortedBy(s, key, order) && !InOrder(key(x), key(s[0]), order)
    requires multiset(rest) == multiset(s[1..]) + multiset{x}
    ensures forall j :: 0 <= j < |rest| ==> InOrder(key(s[0]), key(rest[j]), order)
  {
    forall j | 0 <= j < |rest| ensures InOrder(key(s[0]), key(rest[j]), order) {
      assert rest[j] in multiset(rest);
      if rest[j] != x {
        assert rest[j] in multiset(s[1..]);
        var k :| 0 <= k < |s[1..]| && s[1..][k] == rest[j];
        assert s[k + 1] == rest[j];
      }
    }
  }

  function Insert<T>(x: T, s: seq<T>, key: T -> int, order: SortOrder): (r: seq<T>)
    requires SortedBy(s, key, order)
    ensures multiset(r) == multiset(s) + multiset{x}
    ensures SortedBy(r, key, order)
  {
    if s == [] then [x]
    else if InOrder(key(x), key(s[0]), order) then
      assert forall j :: 0 < j < |s| ==> InOrder(key(s[0]), key(s[j]), order);
      ConsSorted(x, s, key, order);
      [x] + s
    else
      assert s == [s[0]] + s[1..];
      var rest := Insert(x, s[1..], key, order);
      HeadBoundsInsert(x, s, rest, key, order);
      ConsSorted(s[0], rest, key, order);
      [s[0]] + rest
  }

  /** sort_by: a sorted copy (the argument is a value and is not changed).
      Keys are integers; `Desc` reverses the comparator. */
  function SortBy<T>(a: seq<T>, key: T -> int, order: SortOrder): (r: seq<T>)
    ensures multiset(r) == multiset(a)
    ensures |r| == |a|
    ensures SortedBy(r, key, order)
  {
    if a == [] then []
    else
      assert a == [a[0]] + a[1..];
      Insert(a[0], SortBy(a[1..], key, order), key, order)
  }

  // ------------------------------------------------------ clamp, truncate

  /** clamp: `Math.min(Math.max(value, min), max)`. */
  function Clamp(value: int, min: int, max: int): (r: int)
    ensures min <= max ==> min <= r <= max
    ensures min <= value <= max ==> r == value
    ensures min <= max && value < min ==> r == min
    ensures value > max || min > max ==> r == max
  {
    var lifted := if value > min then value else min;
    if lifted < max then lifted else max
  }

  /** truncate: the text itself when it fits, otherwise as many leading
      characters as leave room for the suffix, then the suffix.
      `substring` clamps a negative end to 0. */
  function Truncate(str: string, maxLength: int, suffix: string): (r: string)
    ensures |str| <= maxLength ==> r == str
    ensures |str| > maxLength ==>
      var kept := if maxLength - |suffix| > 0 then maxLength - |suffix| else 0;
      kept <= |str| && r == str[..kept] + suffix
    ensures |str| > maxLength && maxLength >= |suffix| ==> |r| == maxLength
  {
    if |str| <= maxLength then str
    else
      var end := if maxLength - |suffix| > 0 then maxLength - |suffix| else 0;
      str[..end] + suffix
  }
}
