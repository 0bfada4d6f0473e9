/** The seen-id ring: a map of remembered clips with first-in-first-out slots (internal/core/ring.go). */
module SeenIdRing {
  import opened Base
  import opened Messages

  /** One call of Remember. The whole history of calls determines what the ring holds. */
  datatype Call<+V> = Call(id: gostring, value: V)

  /** The position of the last call that remembered `id`, or -1. */
  function LastCall<V>(h: seq<Call<V>>, id: gostring): (k: int)
    ensures -1 <= k < |h|
    ensures k >= 0 ==> h[k].id == id
    ensures forall j :: k < j < |h| ==> h[j].id != id
  {
    if h == [] then -1
    else if h[|h| - 1].id == id then |h| - 1
    else LastCall(h[..|h| - 1], id)
  }

  ghost predicate NotCalledIn<V>(h: seq<Call<V>>, id: gostring, lo: int, hi: int) {
    forall j :: 0 <= j < |h| && lo <= j < hi ==> h[j].id != id
  }

  /** Whether the ring of this capacity still holds `id` after the calls `h`. The empty id is never evicted. */
  ghost predicate Holds<V>(h: seq<Call<V>>, capacity: int, id: gostring) {
    var k := LastCall(h, id);
    && k >= 0
    && (id == [] || (k >= |h| - capacity && NotCalledIn(h, id, k - capacity + 1, |h| - capacity)))
  }

  /** What a lookup of `id` answers after the calls `h`. */
  ghost function Lookup<V>(h: seq<Call<V>>, capacity: int, id: gostring): Option<V> {
    if Holds(h, capacity, id) then Some(h[LastCall(h, id)].value) else None
  }

  /** The slot that call number `j` writes: `j % n`, counted down. */
  ghost function Slot(j: nat, n: nat): (s: nat)
    requires 0 < n
    ensures s < n
  {
    if j < n then j else Slot(j - n, n)
  }

  lemma {:induction false} SlotStep(j: nat, n: nat)
    requires 0 < n
    ensures Slot(j + 1, n) == if Slot(j, n) + 1 == n then 0 else Slot(j, n) + 1
  {
    if j >= n { SlotStep(j - n, n); }
  }

  lemma WrapAround(i: nat, n: nat)
    requires i < n
    ensures (i + 1) % n == if i + 1 == n then 0 else i + 1
  {}

  lemma {:induction false} SlotsDiffer(a: nat, b: nat, n: nat)
    requires 0 < n && a < b < a + n
    ensures Slot(a, n) != Slot(b, n)
  {
    if a >= n { SlotsDiffer(a - n, b - n, n); }
  }

  lemma LastCallStep<V>(h: seq<Call<V>>, c: Call<V>, id: gostring)
    ensures LastCall(h + [c], id) == if id == c.id then |h| else LastCall(h, id)
  {
    assert (h + [c])[..|h|] == h;
  }

  /** One more call: how presence of every id changes. This is the step that the class refines. */
  lemma HoldsStep<V>(h: seq<Call<V>>, c: Call<V>, capacity: int, id: gostring)
    requires 0 < capacity
    ensures Holds(h + [c], capacity, id) <==>
            id == c.id ||
            (Holds(h, capacity, id) && (id == [] || |h| < capacity || h[|h| - capacity].id != id))
  {
    var h' := h + [c];
    LastCallStep(h, c, id);
    var lo := LastCall(h, id) - capacity + 1;
    assert forall j :: 0 <= j < |h| ==> h'[j] == h[j];
    assert NotCalledIn(h', id, lo, |h'| - capacity) <==>
           NotCalledIn(h, id, lo, |h| - capacity) && (|h| < capacity || |h| - capacity < lo || h[|h| - capacity].id != id);
  }

  /** A first-used id survives the next capacity - 1 calls of other ids. */
  lemma FirstUseSurvives<V>(before: seq<Call<V>>, c: Call<V>, later: seq<Call<V>>, capacity: int)
    requires |later| < capacity
    requires LastCall(before, c.id) == -1
    requires LastCall(later, c.id) == -1
    ensures Lookup(before + [c] + later, capacity, c.id) == Some(c.value)
  {
    var h := before + [c] + later;
    forall j | |before| < j < |h| ensures h[j].id != c.id {
      assert h[j] == later[j - |before| - 1];
    }
    assert h[|before|] == c;
    assert LastCall(h, c.id) == |before|;
    forall j | 0 <= j < |before| ensures h[j].id != c.id {
      assert h[j] == before[j];
    }
  }

  /** An id used again need not survive even one further call: its older slot still evicts it. */
  lemma ReuseCanBeEvictedEarly(x: gostring, y: gostring)
    requires x != y && x != []
    ensures !Holds([Call(x, 1), Call(x, 2), Call(y, 3)], 2, x)
  {
    var h := [Call(x, 1), Call(x, 2), Call(y, 3)];
    assert LastCall(h, x) == 1;
    assert h[0].id == x;
  }

  /** At most `capacity` non-empty ids are held at any time. */
  lemma AtMostCapacity<V>(h: seq<Call<V>>, capacity: nat, ids: set<gostring>)
    requires forall id :: id in ids ==> id != [] && Holds(h, capacity, id)
    ensures |ids| <= capacity
  {
    DistinctPositions(h, ids, |h| - capacity, |h|);
  }

  lemma {:induction false} DistinctPositions<V>(h: seq<Call<V>>, ids: set<gostring>, lo: int, hi: int)
    requires lo <= hi <= |h|
    requires forall id :: id in ids ==> 0 <= LastCall(h, id) && lo <= LastCall(h, id) < hi
    ensures |ids| <= hi - lo
    decreases hi - lo
  {
    if lo == hi {
      assert ids == {};
    } else if exists id :: id in ids && LastCall(h, id) == hi - 1 {
      var id :| id in ids && LastCall(h, id) == hi - 1;
      assert forall i :: i in ids && LastCall(h, i) == hi - 1 ==> i == h[hi - 1].id;
      DistinctPositions(h, ids - {id}, lo, hi - 1);
    } else {
      DistinctPositions(h, ids, lo, hi - 1);
    }
  }

  /** The size bound needs non-empty ids: the empty id is never evicted, so one entry too many can stay. */
  lemma EmptyIdStays(x: gostring)
    requires x != []
    ensures Holds([Call([], 1), Call(x, 2)], 1, []) && Holds([Call([], 1), Call(x, 2)], 1, x)
  {
    var h := [Call([], 1), Call(x, 2)];
    assert h[..1] == [Call([], 1)];
    assert LastCall(h, []) == 0 && LastCall(h, x) == 1;
  }

  /** Each slot holds the id of the most recent call that wrote it; an unwritten slot is empty. */
  ghost predicate SlotsMatch<V>(slots: seq<gostring>, h: seq<Call<V>>)
    requires 0 < |slots|
  {
    && (forall j :: 0 <= j < |h| && |h| - |slots| <= j ==> slots[Slot(j, |slots|)] == h[j].id)
    && (forall s :: |h| <= s < |slots| ==> slots[s] == [])
  }

  /** The map answers every lookup as the history does. */
  ghost predicate EntriesMatch<V>(entries: map<gostring, V>, h: seq<Call<V>>, capacity: int) {
    forall id :: (if id in entries then Some(entries[id]) else None) == Lookup(h, capacity, id)
  }

  lemma SlotsStep<V>(slots: seq<gostring>, h: seq<Call<V>>, c: Call<V>)
    requires 0 < |slots| && SlotsMatch(slots, h)
    ensures SlotsMatch(slots[Slot(|h|, |slots|) := c.id], h + [c])
    ensures slots[Slot(|h|, |slots|)] == if |h| < |slots| then [] else h[|h| - |slots|].id
  {
    forall j | 0 <= j < |h| && |h| - |slots| < j ensures Slot(j, |slots|) != Slot(|h|, |slots|) {
      SlotsDiffer(j, |h|, |slots|);
    }
  }

  lemma EntriesStep<V>(entries: map<gostring, V>, h: seq<Call<V>>, c: Call<V>, capacity: int, evicted: gostring)
    requires 0 < capacity && EntriesMatch(entries, h, capacity)
    requires evicted == if |h| < capacity then [] else h[|h| - capacity].id
    ensures EntriesMatch((if evicted != [] && evicted != c.id then entries - {evicted} else entries)[c.id := c.value],
                         h + [c], capacity)
  {
    forall id
      ensures Lookup(h + [c], capacity, id) ==
              if id == c.id then Some(c.value)
              else if id == evicted && id != [] then None
              else Lookup(h, capacity, id)
    {
      LastCallStep(h, c, id);
      HoldsStep(h, c, capacity, id);
    }
  }

  /** The ring after one call to remember: what was evicted, and why everything still matches the history. */
  lemma RememberStep<V>(slots: seq<gostring>, entries: map<gostring, V>, h: seq<Call<V>>, c: Call<V>)
    requires 0 < |slots| && SlotsMatch(slots, h) && EntriesMatch(entries, h, |slots|)
    ensures var next := Slot(|h|, |slots|);
            && (next + 1) % |slots| == Slot(|h| + 1, |slots|)
            && SlotsMatch(slots[next := c.id], h + [c])
            && EntriesMatch((if slots[next] != [] && slots[next] != c.id then entries - {slots[next]} else entries)[c.id := c.value],
                            h + [c], |slots|)
  {
    SlotsStep(slots, h, c);
    SlotStep(|h|, |slots|);
    WrapAround(Slot(|h|, |slots|), |slots|);
    EntriesStep(entries, h, c, |slots|, slots[Slot(|h|, |slots|)]);
  }

  /** The content test by which a resent clip counts as the remembered one. A nil result never matches. */
  predicate Unchanged(remembered: Option<LatestText>, payload: gostring, hash: gostring, encrypted: bool) {
    && remembered.Some?
    && remembered.value.payload == payload
    && remembered.value.hash == hash
    && remembered.value.encrypted == encrypted
  }

  class Ring {
    var entries: map<gostring, Option<LatestText>>
    const insertionOrder: array<gostring>
    var nextInsertIndex: nat
    ghost var history: seq<Call<Option<LatestText>>>

    ghost predicate Valid()
      reads this, insertionOrder
    {
      && 0 < insertionOrder.Length
      && nextInsertIndex == Slot(|history|, insertionOrder.Length)
      && SlotsMatch(insertionOrder[..], history)
      && EntriesMatch(entries, history, insertionOrder.Length)
    }

    /** A non-positive capacity panics in the source. */
    constructor (capacity: int)
      requires 0 < capacity
      ensures Valid() && history == [] && insertionOrder.Length == capacity
      ensures fresh(insertionOrder)
    {
      entries := map[];
      insertionOrder := new gostring[capacity](_ => []);
      nextInsertIndex := 0;
      history := [];
    }

    method TryGet(id: gostring) returns (r: Option<Option<LatestText>>)
      requires Valid()
      ensures r == Lookup(history, insertionOrder.Length, id)
    {
      r := if id in entries then Some(entries[id]) else None;
    }

    method IsUnchangedDuplicate(id: gostring, payload: gostring, hash: gostring, encrypted: bool)
      returns (latest: Option<LatestText>, same: bool)
      requires Valid()
      ensures same <==> exists remembered ::
                Lookup(history, insertionOrder.Length, id) == Some(remembered) && Unchanged(remembered, payload, hash, encrypted)
      ensures latest == match Lookup(history, insertionOrder.Length, id) case None => None case Some(remembered) => remembered
      ensures same ==> latest.Some?
    {
      assert Lookup(history, insertionOrder.Length, id) == if id in entries then Some(entries[id]) else None;
      if id !in entries {
        return None, false;
      }
      latest := entries[id];
      same := Unchanged(latest, payload, hash, encrypted);
    }

    method Remember(id: gostring, value: Option<LatestText>)
      requires Valid()
      modifies this, insertionOrder
      ensures Valid() && history == old(history) + [Call(id, value)]
    {
      ghost var slots, c := insertionOrder[..], Call(id, value);
      RememberStep(slots, entries, history, c);
      var evictedId := insertionOrder[nextInsertIndex];
      var kept := if evictedId != [] && evictedId != id then entries - {evictedId} else entries;
      insertionOrder[nextInsertIndex] := id;
      assert insertionOrder[..] == slots[nextInsertIndex := id];
      nextInsertIndex := (nextInsertIndex + 1) % insertionOrder.Length;
      entries := kept[id := value];
      history := history + [c];
    }

    /** Remembers an id seen for the first time and reports whether it was already held. */
    method TryDuplicate(id: gostring) returns (duplicate: bool)
      requires Valid()
      modifies this, insertionOrder
      ensures Valid()
      ensures duplicate <==> Holds(old(history), insertionOrder.Length, id)
      ensures history == old(history) + if duplicate then [] else [Call(id, None)]
    {
      if id in entries {
        assert Lookup(history, insertionOrder.Length, id).Some?;
        return true;
      }
      assert Lookup(history, insertionOrder.Length, id).None?;
      Remember(id, None);
      duplicate := false;
    }
  }
}
