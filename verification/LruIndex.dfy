/**
 The chunk store's in-memory index: a map from keys to slots, a stack of free slots, and a
 recency order threaded through the slots as a doubly linked list of slot numbers.

 `Lru` is the simple form (two maps and two sequences); `Index` is the form the store runs,
 and every method of `Index` is proved to do to its links what the simple form says.
 */
module LruIndex {
  import opened Common
  import opened Bytes

  /** Chunk keys, by their bytes; the index never looks inside one. */
  type Key = seq<Byte>

  /** What the index means: the recency order (least recent first), the free stack (top last)
      and the key-to-slot map with its inverse. */
  datatype Lru = Lru(order: seq<nat>, free: seq<nat>, slotOf: map<Key, nat>, keyOf: map<nat, Key>) {

    /** Both sequences are duplicate-free and in range; the two maps are inverse bijections
        between the keys held and the slots in the recency order. */
    ghost predicate Parts(n: nat) {
      && Distinct(order)
      && Distinct(free)
      && (forall s :: s in order ==> s < n)
      && (forall s :: s in free ==> s < n)
      && (forall s :: s in keyOf <==> s in order)
      && (forall k :: k in slotOf ==> slotOf[k] in keyOf && keyOf[slotOf[k]] == k)
      && (forall s :: s in keyOf ==> keyOf[s] in slotOf && slotOf[keyOf[s]] == s)
    }

    /** The index invariant: every slot is either held or free, never both. */
    ghost predicate Valid(n: nat) {
      var whole := Parts(n) && (forall s :: 0 <= s < n ==> (s in order <==> s !in free));
      whole
    }

    /** The invariant while `t` is in hand: taken from one side and not yet given to the other. */
    ghost predicate Reserves(n: nat, t: nat) {
      && Parts(n)
      && t < n && t !in order && t !in free
      && (forall s :: 0 <= s < n && s != t ==> (s in order <==> s !in free))
    }

    function Occupy(slot: nat, key: Key): Lru {
      Lru(order + [slot], free, slotOf[key := slot], keyOf[slot := key])
    }

    function Evict(slot: nat): Lru {
      if slot in keyOf then
        Lru(Without(order, slot), free, slotOf - {keyOf[slot]}, keyOf - {slot})
      else this
    }

    function Touch(key: Key): (Lru, Option<nat>) {
      if key in slotOf then
        (this.(order := Without(order, slotOf[key]) + [slotOf[key]]), Some(slotOf[key]))
      else (this, None)
    }

    function Claim(key: Key): (Lru, Option<nat>) {
      if key in slotOf then (this, None)
      else if free != [] then
        var slot := free[|free| - 1];
        (this.(free := free[..|free| - 1]).Occupy(slot, key), Some(slot))
      else if order != [] then
        (Evict(order[0]).Occupy(order[0], key), Some(order[0]))
      else (this, None)
    }

    function Forget(slot: nat): Lru {
      if slot in keyOf then Evict(slot).(free := free + [slot]) else this
    }

    function Remove(key: Key): (Lru, bool) {
      if key in slotOf then (Forget(slotOf[key]), true) else (this, false)
    }
  }

  /** An index over `n` empty slots that has not been scanned yet. */
  const EmptyLru := Lru([], [], map[], map[])

  /** Every slot is accounted for once. */
  lemma HeldPlusFree(v: Lru, n: nat)
    requires v.Valid(n)
    ensures |v.order| + |v.free| == n
  {
    var all: seq<nat> := v.order + v.free;
    assert forall s :: s in all <==> s in v.order || s in v.free;
    forall i, j | 0 <= i < j < |all|
      ensures all[i] != all[j]
    {
      assert all[i] in v.order || all[i] in v.free;
      assert all[j] in v.order || all[j] in v.free;
      if i < |v.order| <= j {
        assert all[i] in v.order && all[j] in v.free;
      }
    }
    DistinctBelow(all, n);
    CoversBelow(all, n);
  }

  // ----- what every operation keeps

  lemma EvictReserves(v: Lru, n: nat, slot: nat)
    requires v.Valid(n)
    requires slot in v.keyOf
    ensures v.Evict(slot).Reserves(n, slot)
  {
  }

  lemma PopReserves(v: Lru, n: nat)
    requires v.Valid(n)
    requires v.free != []
    ensures v.(free := v.free[..|v.free| - 1]).Reserves(n, v.free[|v.free| - 1])
  {
    var slot, rest := v.free[|v.free| - 1], v.free[..|v.free| - 1];
    assert v.free == rest + [slot];
    assert forall s :: s in v.free <==> s in rest || s == slot;
    assert slot !in rest by {
      assert forall i :: 0 <= i < |rest| ==> rest[i] == v.free[i];
    }
    var w := v.(free := rest);
    assert forall s :: s in w.free ==> s in v.free;
    assert w.Parts(n);
  }

  lemma OccupyKeeps(v: Lru, n: nat, slot: nat, key: Key)
    requires v.Reserves(n, slot)
    requires key !in v.slotOf
    ensures v.Occupy(slot, key).Valid(n)
  {
    assert forall s :: s in v.order + [slot] <==> s in v.order || s == slot;
  }

  lemma ReleaseKeeps(v: Lru, n: nat, slot: nat)
    requires v.Reserves(n, slot)
    ensures v.(free := v.free + [slot]).Valid(n)
  {
    assert forall s :: s in v.free + [slot] <==> s in v.free || s == slot;
  }

  lemma ForgetKeeps(v: Lru, n: nat, slot: nat)
    requires v.Valid(n)
    ensures v.Forget(slot).Valid(n)
  {
    if slot in v.keyOf {
      EvictReserves(v, n, slot);
      ReleaseKeeps(v.Evict(slot), n, slot);
    }
  }

  lemma TouchKeeps(v: Lru, n: nat, key: Key)
    requires v.Valid(n)
    ensures v.Touch(key).0.Valid(n)
    ensures v.Touch(key).1.Some? ==> v.Touch(key).1.value < n
  {
  }

  /** Claiming keeps the invariant; it fails only on a key already held. */
  lemma ClaimKeeps(v: Lru, n: nat, key: Key)
    requires v.Valid(n)
    requires n > 0
    ensures var (w, got) := v.Claim(key);
            && w.Valid(n)
            && (got.None? <==> key in v.slotOf)
            && (got.Some? ==> key in w.slotOf && w.slotOf[key] == got.value && got.value < n)
  {
    if key !in v.slotOf {
      if v.free != [] {
        PopReserves(v, n);
        OccupyKeeps(v.(free := v.free[..|v.free| - 1]), n, v.free[|v.free| - 1], key);
      } else {
        assert 0 in v.order;
        EvictReserves(v, n, v.order[0]);
        OccupyKeeps(v.Evict(v.order[0]), n, v.order[0], key);
      }
    }
  }

  // ----- what moves in the recency order

  /** Slots `order` name the same keys under two key maps. */
  ghost predicate SameKeys(order: seq<nat>, a: map<nat, Key>, b: map<nat, Key>) {
    forall i :: 0 <= i < |order| ==> order[i] in a && order[i] in b && a[order[i]] == b[order[i]]
  }

  lemma ForgetShape(v: Lru, n: nat, slot: nat)
    requires v.Valid(n) && slot in v.keyOf
    ensures v.Forget(slot).order == Without(v.order, slot)
    ensures SameKeys(v.Forget(slot).order, v.keyOf, v.Forget(slot).keyOf)
  {
    var order := Without<nat>(v.order, slot);
    assert forall i :: 0 <= i < |order| ==> order[i] in order;
  }

  /** The slots that stay when a new key claims one. */
  function Staying(v: Lru): seq<nat> {
    if v.free != [] || v.order == [] then v.order else v.order[1..]
  }

  /** What a claim's result looks like. */
  ghost predicate ClaimedAs(v: Lru, w: Lru, slot: nat, key: Key) {
    && slot !in Staying(v)
    && w.order == Staying(v) + [slot]
    && SameKeys(Staying(v), v.keyOf, w.keyOf)
    && slot in w.keyOf && w.keyOf[slot] == key
  }

  lemma ClaimFreeShape(v: Lru, n: nat, key: Key)
    requires v.Valid(n) && key !in v.slotOf && v.free != []
    ensures v.Claim(key).1.Some? && v.Claim(key).1.value < n && ClaimedAs(v, v.Claim(key).0, v.Claim(key).1.value, key)
  {
    var slot := v.free[|v.free| - 1];
    assert slot in v.free;
    assert slot < n && slot !in v.order && forall s :: s in v.keyOf <==> s in v.order;
    hide Lru.Valid;
    assert forall i :: 0 <= i < |v.order| ==> v.order[i] in v.order;
  }

  lemma OldestFacts(v: Lru, n: nat)
    requires v.Valid(n) && v.order != []
    ensures v.order[0] < n && v.order[0] in v.keyOf && v.order[0] !in v.order[1..]
    ensures Without(v.order, v.order[0]) == v.order[1..]
    ensures forall s :: s in v.order[1..] ==> s in v.keyOf
  {
    hide Without;
    assert v.order[0] in v.order;
    FirstOut<nat>(v.order);
  }

  lemma FirstOut<T(!new)>(s: seq<T>)
    requires Distinct(s) && s != []
    ensures s[0] !in s[1..] && Without(s, s[0]) == s[1..]
    ensures forall x :: x in s[1..] ==> x in s
  {
    WithoutAt<T>(s, 0);
    hide Without;
    assert s[..0] + s[1..] == s[1..];
  }

  lemma ClaimEvictShape(v: Lru, n: nat, key: Key)
    requires v.Valid(n) && key !in v.slotOf && v.free == [] && v.order != []
    ensures v.Claim(key).1.Some? && v.Claim(key).1.value < n && ClaimedAs(v, v.Claim(key).0, v.Claim(key).1.value, key)
  {
    hide Lru.Valid, Without;
    OldestFacts(v, n);
    var slot := v.order[0];
    assert v.Claim(key) == (v.Evict(slot).Occupy(slot, key), Some(slot));
    assert v.Evict(slot).order == v.order[1..];
    hide Lru.Claim;
  }

  lemma ClaimShape(v: Lru, n: nat, key: Key)
    requires v.Valid(n) && n > 0 && key !in v.slotOf
    ensures var (w, got) := v.Claim(key);
            && got.Some? && got.value < n
            && got.value !in Staying(v)
            && w.order == Staying(v) + [got.value]
            && SameKeys(Staying(v), v.keyOf, w.keyOf)
            && got.value in w.keyOf && w.keyOf[got.value] == key
    ensures |v.order| >= n <==> v.free == []
  {
    HeldPlusFree(v, n);
    hide Lru.Valid, Lru.Claim, SameKeys, Staying;
    if v.free == [] {
      ClaimEvictShape(v, n, key);
    } else {
      ClaimFreeShape(v, n, key);
    }
  }

  /** `w` names `key` at `slot` and agrees with `v` on every other slot. */
  ghost predicate Renames(v: Lru, w: Lru, slot: nat, key: Key) {
    && slot in w.keyOf && w.keyOf[slot] == key
    && (forall s :: s != slot ==> (s in w.keyOf <==> s in v.keyOf))
    && (forall s :: s != slot && s in v.keyOf ==> w.keyOf[s] == v.keyOf[s])
  }

  lemma ClaimRenames(v: Lru, n: nat, key: Key)
    requires v.Valid(n) && n > 0 && key !in v.slotOf
    ensures v.Claim(key).1.Some? && Renames(v, v.Claim(key).0, v.Claim(key).1.value, key)
  {
    ClaimShape(v, n, key);
  }

  // ----- the index as the store runs it

  /** One slot's bookkeeping: its key, and its neighbours in the recency list. */
  datatype Slot = Slot(key: Option<Key>, bodyLen: U32, bodyCrc: U32, prev: Option<nat>, next: Option<nat>)

  /** Equal but for the links. */
  predicate SameRecord(a: Slot, b: Slot) {
    a.key == b.key && a.bodyLen == b.bodyLen && a.bodyCrc == b.bodyCrc
  }

  const EMPTY_SLOT := Slot(None, 0, 0, None, None)

  /** The slot at position `i` of `order` points at the ones before and after it. */
  ghost predicate LinkedAt(slots: seq<Slot>, order: seq<nat>, i: int)
    requires 0 <= i < |order|
  {
    && order[i] < |slots|
    && slots[order[i]].prev == (if i == 0 then None else Some(order[i - 1]))
    && slots[order[i]].next == (if i == |order| - 1 then None else Some(order[i + 1]))
  }

  ghost predicate Unlinked(slot: Slot) {
    slot.prev.None? && slot.next.None?
  }

  /** The links, followed from either end, spell exactly `order`; a slot outside it has none. */
  ghost predicate Spells(slots: seq<Slot>, order: seq<nat>, head: Option<nat>, tail: Option<nat>) {
    && Distinct(order)
    && head == (if order == [] then None else Some(order[0]))
    && tail == (if order == [] then None else Some(order[|order| - 1]))
    && (forall i :: 0 <= i < |order| ==> LinkedAt(slots, order, i))
    && (forall s :: 0 <= s < |slots| && s !in order ==> Unlinked(slots[s]))
  }

  /** Only the links matter to what a list spells. */
  lemma SameLinksSpell(a: seq<Slot>, b: seq<Slot>, order: seq<nat>, head: Option<nat>, tail: Option<nat>)
    requires Spells(a, order, head, tail)
    requires |a| == |b|
    requires forall s :: 0 <= s < |a| ==> a[s].prev == b[s].prev && a[s].next == b[s].next
    ensures Spells(b, order, head, tail)
  {
    forall i | 0 <= i < |order|
      ensures LinkedAt(b, order, i)
    {
      assert LinkedAt(a, order, i);
    }
    forall s | 0 <= s < |b| && s !in order
      ensures Unlinked(b[s])
    {
      assert Unlinked(a[s]);
    }
  }

  /** `b` is `a` with `slot` bridged over: its neighbours point at each other. */
  ghost predicate Bridged(a: seq<Slot>, b: seq<Slot>, slot: nat)
    requires slot < |a|
  {
    && |b| == |a|
    && (forall s :: 0 <= s < |a| ==>
          b[s] == a[s].(
          prev := if s == slot then None else if a[slot].next == Some(s) then a[slot].prev else a[s].prev,
          next := if s == slot then None else if a[slot].prev == Some(s) then a[slot].next else a[s].next))
  }

  /** The three slot updates that take `slot` out of the list. */
  ghost function Bridge(a: seq<Slot>, slot: nat): seq<Slot>
    requires slot < |a|
    requires a[slot].prev.Some? ==> a[slot].prev.value < |a|
    requires a[slot].next.Some? ==> a[slot].next.value < |a|
  {
    var (p, n) := (a[slot].prev, a[slot].next);
    var b := if p.None? then a else a[p.value := a[p.value].(next := n)];
    var c := if n.None? then b else b[n.value := b[n.value].(prev := p)];
    c[slot := c[slot].(prev := None, next := None)]
  }

  lemma BridgeBridges(a: seq<Slot>, order: seq<nat>, i: nat, head: Option<nat>, tail: Option<nat>)
    requires Spells(a, order, head, tail)
    requires i < |order|
    ensures LinkedAt(a, order, i)
    ensures a[order[i]].prev.Some? ==> a[order[i]].prev.value < |a|
    ensures a[order[i]].next.Some? ==> a[order[i]].next.value < |a|
    ensures Bridged(a, Bridge(a, order[i]), order[i])
  {
    assert LinkedAt(a, order, i);
    assert i > 0 ==> LinkedAt(a, order, i - 1);
    assert i + 1 < |order| ==> LinkedAt(a, order, i + 1);
  }

  lemma BridgedAt(a: seq<Slot>, b: seq<Slot>, order: seq<nat>, i: nat, at: nat, head: Option<nat>, tail: Option<nat>)
    requires Spells(a, order, head, tail)
    requires i < |order| && at < |order| && at != i
    requires LinkedAt(a, order, i) && Bridged(a, b, order[i])
    ensures LinkedAt(b, order[..i] + order[i + 1..], if at < i then at else at - 1)
  {
    assert LinkedAt(a, order, at);
    assert order[at] != order[i];
  }

  lemma BridgedOutside(a: seq<Slot>, b: seq<Slot>, order: seq<nat>, i: nat, s: nat, head: Option<nat>,
                       tail: Option<nat>)
    requires Spells(a, order, head, tail)
    requires i < |order|
    requires LinkedAt(a, order, i) && Bridged(a, b, order[i])
    requires s < |b| && (s == order[i] || s !in order)
    ensures Unlinked(b[s])
  {
    if s != order[i] {
      assert Unlinked(a[s]);
    }
  }

  lemma BridgedSpells(a: seq<Slot>, b: seq<Slot>, order: seq<nat>, i: nat, head: Option<nat>, tail: Option<nat>)
    requires Spells(a, order, head, tail)
    requires i < |order|
    requires LinkedAt(a, order, i) && Bridged(a, b, order[i])
    ensures var slot := order[i];
            Spells(b, Without(order, slot),
                   if a[slot].prev.None? then a[slot].next else head,
                   if a[slot].next.None? then a[slot].prev else tail)
  {
    var rest: seq<nat> := Without<nat>(order, order[i]);
    forall s | 0 <= s < |b| && s !in rest
      ensures Unlinked(b[s])
    {
      BridgedOutside(a, b, order, i, s, head, tail);
    }
    WithoutAt<nat>(order, i);
    forall j | 0 <= j < |rest|
      ensures LinkedAt(b, rest, j)
    {
      BridgedAt(a, b, order, i, if j < i then j else j + 1, head, tail);
    }
  }

  /** `b` is `a` with `slot` hung behind the old tail. */
  ghost predicate Hung(a: seq<Slot>, b: seq<Slot>, slot: nat, tail: Option<nat>)
    requires slot < |a|
  {
    && |b| == |a|
    && (forall s :: 0 <= s < |a| ==>
          b[s] == a[s].(
          prev := if s == slot then tail else a[s].prev,
          next := if s == slot then None else if tail == Some(s) then Some(slot) else a[s].next))
  }

  lemma HungSpells(a: seq<Slot>, b: seq<Slot>, order: seq<nat>, slot: nat, head: Option<nat>, tail: Option<nat>)
    requires Spells(a, order, head, tail)
    requires slot < |a| && slot !in order
    requires Hung(a, b, slot, tail)
    ensures Spells(b, order + [slot], if order == [] then Some(slot) else head, Some(slot))
  {
    var longer := order + [slot];
    forall j | 0 <= j < |longer|
      ensures LinkedAt(b, longer, j)
    {
      if j < |order| {
        assert LinkedAt(a, order, j);
        assert longer[j] == order[j] && order[j] in order;
      }
    }
    forall s | 0 <= s < |b| && s !in longer
      ensures Unlinked(b[s])
    {
      assert longer[|order|] == slot;
      assert forall k :: 0 <= k < |order| ==> longer[k] == order[k];
      assert s !in order && Unlinked(a[s]);
    }
  }

  class Index {
    var slotOf: map<Key, nat>
    const slots: array<Slot>
    var free: seq<nat>
    var lruHead: Option<nat>
    var lruTail: Option<nat>
    /** What the fields above mean. */
    ghost var lru: Lru

    ghost predicate Chain()
      reads this, slots
    {
      Spells(slots[..], lru.order, lruHead, lruTail)
    }

    /** The free stack, the map and the slots' keys are the ones `lru` names. */
    ghost predicate Records()
      reads this, slots
    {
      && free == lru.free
      && slotOf == lru.slotOf
      && (forall s :: 0 <= s < slots.Length ==>
            slots[s].key == if s in lru.keyOf then Some(lru.keyOf[s]) else None)
    }

    /** The fields spell `lru`, whether or not every slot is accounted for yet. */
    ghost predicate Linked()
      reads this, slots
    {
      var whole := Chain() && Records();
      whole
    }

    ghost predicate Valid()
      reads this, slots
      ensures Valid() ==> lru.Valid(slots.Length)
    {
      lru.Valid(slots.Length) && Linked()
    }

    /** Every slot unlinked and unnamed, none of them free yet: the state a scan starts from. */
    constructor (n: nat)
      ensures slots.Length == n && fresh(slots)
      ensures lru == EmptyLru && Linked()
    {
      slotOf := map[];
      slots := new Slot[n](_ => EMPTY_SLOT);
      free := [];
      lruHead := None;
      lruTail := None;
      lru := EmptyLru;
    }

    /** Make `next` the successor of `p`, or the head of the list when `p` is absent. */
    method LinkForward(p: Option<nat>, next: Option<nat>)
      requires p.Some? ==> p.value < slots.Length
      modifies this`lruHead, slots
      ensures lruHead == if p.None? then next else old(lruHead)
      ensures slots[..] == if p.None? then old(slots[..])
                           else old(slots[..])[p.value := old(slots[p.value]).(next := next)]
    {
      match p {
        case Some(p) => slots[p] := slots[p].(next := next);
        case None => lruHead := next;
      }
    }

    /** Make `prev` the predecessor of `n`, or the tail of the list when `n` is absent. */
    method LinkBackward(n: Option<nat>, prev: Option<nat>)
      requires n.Some? ==> n.value < slots.Length
      modifies this`lruTail, slots
      ensures lruTail == if n.None? then prev else old(lruTail)
      ensures slots[..] == if n.None? then old(slots[..])
                           else old(slots[..])[n.value := old(slots[n.value]).(prev := prev)]
    {
      match n {
        case Some(n) => slots[n] := slots[n].(prev := prev);
        case None => lruTail := prev;
      }
    }

    /** Remove `slot` from the recency list, leaving its key in place. */
    method UnlinkLinked(slot: nat)
      requires Chain()
      requires slot in lru.order
      modifies this`lruHead, this`lruTail, this`lru, slots
      ensures Chain()
      ensures lru == old(lru).(order := Without(old(lru.order), slot))
      ensures forall s :: 0 <= s < slots.Length ==> SameRecord(slots[s], old(slots[s]))
    {
      hide Without;
      ghost var before, order := slots[..], lru.order;
      ghost var i :| 0 <= i < |order| && order[i] == slot;
      BridgeBridges(before, order, i, lruHead, lruTail);
      BridgedSpells(before, Bridge(before, slot), order, i, lruHead, lruTail);
      var prev, next := slots[slot].prev, slots[slot].next;
      LinkForward(prev, next);
      LinkBackward(next, prev);
      slots[slot] := slots[slot].(prev := None, next := None);
      assert slots[..] == Bridge(before, slot);
      lru := lru.(order := Without(lru.order, slot));
    }

    /** Append `slot` at the most-recently-used end. */
    method PushBack(slot: nat)
      requires Chain()
      requires slot < slots.Length && slot !in lru.order
      modifies this`lruHead, this`lruTail, this`lru, slots
      ensures Chain()
      ensures lru == old(lru).(order := old(lru.order) + [slot])
      ensures forall s :: 0 <= s < slots.Length ==> SameRecord(slots[s], old(slots[s]))
    {
      ghost var before := slots[..];
      assert lru.order != [] ==> LinkedAt(before, lru.order, |lru.order| - 1);
      var oldTail := lruTail;
      lruTail := Some(slot);
      slots[slot] := slots[slot].(prev := oldTail);
      slots[slot] := slots[slot].(next := None);
      LinkForward(oldTail, Some(slot));
      ghost var after := slots[..];
      assert Hung(before, after, slot, oldTail);
      HungSpells(before, after, lru.order, slot, old(lruHead), oldTail);
      assert forall s :: 0 <= s < |after| ==> SameRecord(after[s], before[s]);
      lru := lru.(order := lru.order + [slot]);
    }

    /** Give `slot` to `key`, most recently used. */
    method Occupy(slot: nat, key: Key, bodyLen: U32, bodyCrc: U32)
      requires Linked()
      requires slot < slots.Length && slot !in lru.order
      modifies this`slotOf, this`lruHead, this`lruTail, this`lru, slots
      ensures Linked()
      ensures lru == old(lru).Occupy(slot, key)
      ensures old(lru.Reserves(slots.Length, slot)) && key !in old(lru.slotOf) ==> Valid()
      ensures slots[slot].bodyLen == bodyLen && slots[slot].bodyCrc == bodyCrc
    {
      hide Lru.Valid, Lru.Reserves;
      if lru.Reserves(slots.Length, slot) && key !in lru.slotOf {
        OccupyKeeps(lru, slots.Length, slot, key);
      }
      ghost var before := slots[..];
      slots[slot] := slots[slot].(key := Some(key), bodyLen := bodyLen, bodyCrc := bodyCrc);
      slotOf := slotOf[key := slot];
      SameLinksSpell(before, slots[..], lru.order, lruHead, lruTail);
      lru := lru.(slotOf := lru.slotOf[key := slot], keyOf := lru.keyOf[slot := key]);
      PushBack(slot);
    }

    /** Free `slot`, removing its key from the map, and report whether it had held one. */
    method Evict(slot: nat) returns (held: bool)
      requires Linked()
      requires slot < slots.Length
      requires slot in lru.keyOf ==> slot in lru.order
      modifies this`slotOf, this`lruHead, this`lruTail, this`lru, slots
      ensures Linked()
      ensures held == (slot in old(lru.keyOf))
      ensures lru == old(lru).Evict(slot)
    {
      match slots[slot].key {
        case None =>
          held := false;
        case Some(key) =>
          ghost var before := slots[..];
          slots[slot] := slots[slot].(key := None);
          SameLinksSpell(before, slots[..], lru.order, lruHead, lruTail);
          UnlinkLinked(slot);
          slotOf := slotOf - {key};
          lru := lru.(slotOf := lru.slotOf - {key}, keyOf := lru.keyOf - {slot});
          held := true;
      }
    }

    // ----- the four lock sections of the store

    /** Look `key` up and mark it most recently used. */
    method Touch(key: Key) returns (slot: Option<nat>)
      requires Valid()
      modifies this`lruHead, this`lruTail, this`lru, slots
      ensures Valid()
      ensures (lru, slot) == old(lru).Touch(key)
    {
      TouchKeeps(lru, slots.Length, key);
      if key !in slotOf {
        return None;
      }
      var s := slotOf[key];
      UnlinkLinked(s);
      PushBack(s);
      return Some(s);
    }

    /** Reserve a slot for `key`, or `None` when the key is already held: the top of the free
        stack, else the least recently used slot, whose chunk is dropped. */
    method Claim(key: Key, bodyLen: U32, bodyCrc: U32) returns (slot: Option<nat>)
      requires Valid()
      requires slots.Length > 0
      modifies this`slotOf, this`free, this`lruHead, this`lruTail, this`lru, slots
      ensures Valid()
      ensures (lru, slot) == old(lru).Claim(key)
      ensures slot.None? <==> key in old(lru.slotOf)
    {
      ClaimKeeps(lru, slots.Length, key);
      if key in slotOf {
        return None;
      }
      var s: nat;
      if free != [] {
        PopReserves(lru, slots.Length);
        s := free[|free| - 1];
        free := free[..|free| - 1];
        lru := lru.(free := lru.free[..|lru.free| - 1]);
      } else {
        assert 0 in lru.order;
        match lruHead {
          case None => assert false;
          case Some(victim) =>
            EvictReserves(lru, slots.Length, victim);
            var _ := Evict(victim);
            s := victim;
        }
      }
      Occupy(s, key, bodyLen, bodyCrc);
      return Some(s);
    }

    /** Drop `slot` from the index and return it to the free stack, once. */
    method Forget(slot: nat)
      requires Valid()
      requires slot < slots.Length
      modifies this`slotOf, this`free, this`lruHead, this`lruTail, this`lru, slots
      ensures Valid()
      ensures lru == old(lru).Forget(slot)
    {
      ForgetKeeps(lru, slots.Length, slot);
      var held := Evict(slot);
      if held {
        free := free + [slot];
        lru := lru.(free := lru.free + [slot]);
      }
    }

    /** Drop `key`, freeing its slot, and report whether it was held. */
    method Remove(key: Key) returns (held: bool)
      requires Valid()
      modifies this`slotOf, this`free, this`lruHead, this`lruTail, this`lru, slots
      ensures Valid()
      ensures (lru, held) == old(lru).Remove(key)
    {
      if key !in slotOf {
        return false;
      }
      Forget(slotOf[key]);
      return true;
    }
  }
}
