/** The expiring slot map of src/map.c, and the abstract map with timestamps that it refines.
    `time(NULL)` is a parameter `now`, nonzero and never decreasing; one operation reads it once. */
module SlotMap {

  const MAP_MAX_LEN := 16 * 131325

  datatype Option<+T> = None | Some(value: T)

  datatype Stamped<+V> = Stamped(value: V, time: nat)

  /** map_entry_valid: time 0 marks an empty slot, timeout 0 means never expire. */
  predicate Alive(time: nat, timeout: nat, now: nat) {
    time != 0 && (timeout == 0 || time + timeout >= now)
  }

  /** What a client sees: for every key the last value set and not deleted since, with its time.
      `size` is the code's counter: it counts insertions minus deletions and never notices an expiry. */
  datatype ExpMap<K, V> = ExpMap(model: map<K, Stamped<V>>, size: nat, max: nat, timeout: nat) {
    predicate Has(k: K, now: nat) {
      k in model && Alive(model[k].time, timeout, now)
    }

    function Get(k: K, now: nat): Option<V> {
      if Has(k, now) then Some(model[k].value) else None
    }

    /** Insertion is refused exactly when the key is absent and the counter is at its maximum. */
    predicate CanSet(k: K, now: nat) {
      Has(k, now) || size != max
    }

    function Set(k: K, v: V, now: nat): ExpMap<K, V> {
      if !CanSet(k, now) then this
      else ExpMap(model[k := Stamped(v, now)], if Has(k, now) then size else size + 1, max, timeout)
    }

    function Delete(k: K, now: nat): ExpMap<K, V>
      requires Has(k, now) ==> size > 0
    {
      if Has(k, now) then ExpMap(model - {k}, size - 1, max, timeout) else this
    }

    /** Map accounting that needs no slots: with timeout 0 the counter is the number of keys. */
    predicate Counted() {
      && size <= max
      && (timeout == 0 ==> size == |model|)
      && (forall k <- model :: model[k].time != 0)
    }
  }

  /** map_set and map_get: a live key can always be updated, an absent one set while the counter is below the maximum,
      and the value is found as long as it lives; otherwise nothing changes. Other keys keep what they have, at all
      times. */
  lemma SetThenGet<K, V>(m: ExpMap<K, V>, k: K, v: V, now: nat, later: nat)
    requires 0 != now <= later
    ensures var t := m.Set(k, v, now);
            && (if m.Get(k, now).Some? || m.size != m.max
                then t.Get(k, later) == if m.timeout == 0 || later <= now + m.timeout then Some(v) else None
                else t == m)
            && (forall j: K, at: nat :: j != k ==> t.Get(j, at) == m.Get(j, at))
            && t.size == (if m.Get(k, now) == None && m.size != m.max then m.size + 1 else m.size)
            && t.max == m.max && t.timeout == m.timeout
  {
  }

  /** map_delete: the key is gone, and no other. */
  lemma DeleteThenGet<K, V>(m: ExpMap<K, V>, k: K, now: nat, later: nat)
    requires (m.Get(k, now).Some? ==> m.size > 0) && now <= later
    ensures var t := m.Delete(k, now);
            && t.Get(k, later) == None
            && (forall j: K, at: nat :: j != k ==> t.Get(j, at) == m.Get(j, at))
            && t.size == (if m.Get(k, now).Some? then m.size - 1 else m.size)
            && t.max == m.max && t.timeout == m.timeout
  {
  }

  /** The counter does not notice expiry. When it stands at the maximum and every entry has expired, the map stays as
      it is for good: it holds nothing, and neither map_set nor map_delete changes it. */
  lemma ExpiredForGood<K, V>(m: ExpMap<K, V>, now: nat, k: K, v: V, later: nat)
    requires m.size == m.max && (forall j <- m.model :: !m.Has(j, now)) && m.timeout != 0 && now <= later
    ensures m.Get(k, later) == None && m.Set(k, v, later) == m
    ensures (m.Has(k, later) ==> m.size > 0) && m.Delete(k, later) == m
  {
    if k in m.model {
      assert !m.Has(k, now);
    }
  }

  /** `n` different keys set at time 1. */
  function FilledUp(n: nat, max: nat, timeout: nat): ExpMap<nat, nat> {
    if n == 0 then ExpMap(map[], 0, max, timeout) else FilledUp(n - 1, max, timeout).Set(n, 0, 1)
  }

  lemma {:induction false} FilledUpHas(n: nat, max: nat, timeout: nat)
    requires n <= max
    ensures var m := FilledUp(n, max, timeout);
            && m.size == n && m.max == max && m.timeout == timeout
            && forall j <- m.model :: j <= n && m.model[j].time == 1
  {
    if n > 0 {
      FilledUpHas(n - 1, max, timeout);
    }
  }

  /** Every capacity and timeout gets there: fill the map once, and let the entries expire. */
  lemma Exhausts(max: nat, timeout: nat, k: nat, v: nat, later: nat)
    requires timeout != 0 && later > 1 + timeout
    ensures var m := FilledUp(max, max, timeout);
            m.Get(k, later) == None && m.Set(k, v, later) == m
  {
    FilledUpHas(max, max, timeout);
    ExpiredForGood(FilledUp(max, max, timeout), later, k, v, later);
  }

  lemma SetDeleteCounted<K, V>(m: ExpMap<K, V>, k: K, v: V, now: nat)
    requires m.Counted() && now != 0
    ensures m.Set(k, v, now).Counted()
    ensures m.timeout == 0 && m.Has(k, now) ==> m.size > 0 && m.Delete(k, now).Counted()
  {
    if m.timeout == 0 && m.Has(k, now) {
      assert m.model.Keys == (m.model - {k}).Keys + {k};
    }
  }

  datatype Slot<K, V> = Slot(key: K, value: V, time: nat)

  function CountLive<K, V>(s: seq<Slot<K, V>>, timeout: nat, now: nat): nat {
    if s == [] then 0
    else CountLive(s[..|s| - 1], timeout, now) + (if Alive(s[|s| - 1].time, timeout, now) then 1 else 0)
  }

  lemma {:induction false} CountLiveUpdate<K, V>(s: seq<Slot<K, V>>, i: nat, x: Slot<K, V>, timeout: nat, now: nat)
    requires i < |s|
    ensures CountLive(s[i := x], timeout, now) ==
            CountLive(s, timeout, now)
            - (if Alive(s[i].time, timeout, now) then 1 else 0) + (if Alive(x.time, timeout, now) then 1 else 0)
  {
    if i == |s| - 1 {
      assert s[i := x][..|s| - 1] == s[..|s| - 1];
    } else {
      assert s[i := x][..|s| - 1] == s[..|s| - 1][i := x];
      CountLiveUpdate(s[..|s| - 1], i, x, timeout, now);
    }
  }

  /** As the clock advances slots only expire. */
  lemma {:induction false} CountLiveAges<K, V>(s: seq<Slot<K, V>>, timeout: nat, now: nat, later: nat)
    requires now <= later
    ensures CountLive(s, timeout, later) <= CountLive(s, timeout, now)
    ensures timeout == 0 ==> CountLive(s, timeout, later) == CountLive(s, timeout, now)
  {
    if s != [] {
      CountLiveAges(s[..|s| - 1], timeout, now, later);
    }
  }

  lemma {:induction false} CountLiveFull<K, V>(s: seq<Slot<K, V>>, timeout: nat, now: nat)
    ensures CountLive(s, timeout, now) <= |s|
    ensures CountLive(s, timeout, now) == |s| <==> forall i :: 0 <= i < |s| ==> Alive(s[i].time, timeout, now)
  {
    if s != [] {
      CountLiveFull(s[..|s| - 1], timeout, now);
      assert s == s[..|s| - 1] + [s[|s| - 1]];
    }
  }

  predicate LiveAt<K, V>(s: seq<Slot<K, V>>, i: nat, timeout: nat, now: nat)
    requires i < |s|
  {
    Alive(s[i].time, timeout, now)
  }

  /** Every live slot holds what the abstract map says. */
  ghost predicate Sound<K, V>(s: seq<Slot<K, V>>, m: ExpMap<K, V>, now: nat) {
    forall i :: 0 <= i < |s| && LiveAt(s, i, m.timeout, now) ==>
                  s[i].key in m.model && m.model[s[i].key] == Stamped(s[i].value, s[i].time)
  }

  ghost predicate SlotOf<K, V>(s: seq<Slot<K, V>>, i: int, k: K, timeout: nat, now: nat) {
    0 <= i < |s| && s[i].key == k && Alive(s[i].time, timeout, now)
  }

  /** Every live key has a slot. */
  ghost predicate Complete<K, V>(s: seq<Slot<K, V>>, m: ExpMap<K, V>, now: nat) {
    forall k <- m.model :: m.Has(k, now) ==> exists i :: SlotOf(s, i, k, m.timeout, now)
  }

  /** No key is live in two slots. */
  ghost predicate Unique<K, V>(s: seq<Slot<K, V>>, timeout: nat, now: nat) {
    forall i, j :: 0 <= i < j < |s| && LiveAt(s, i, timeout, now) && LiveAt(s, j, timeout, now) ==>
                     s[i].key != s[j].key
  }

  /** The slots hold the live part of the abstract map. The counter bounds the live slots, and equals them without a
      timeout. */
  ghost predicate Represents<K, V>(s: seq<Slot<K, V>>, m: ExpMap<K, V>, now: nat) {
    && |s| == m.max
    && Sound(s, m, now)
    && Complete(s, m, now)
    && Unique(s, m.timeout, now)
    && CountLive(s, m.timeout, now) <= m.size
    && (m.timeout == 0 ==> CountLive(s, m.timeout, now) == m.size)
    && m.Counted()
  }

  /** Nothing has to be done for the representation to stay correct while time passes. */
  lemma RepresentsLater<K, V>(s: seq<Slot<K, V>>, m: ExpMap<K, V>, now: nat, later: nat)
    requires Represents(s, m, now) && now <= later
    ensures Represents(s, m, later)
  {
    CountLiveAges(s, m.timeout, now, later);
    assert forall i :: 0 <= i < |s| && LiveAt(s, i, m.timeout, later) ==> LiveAt(s, i, m.timeout, now);
    forall k | k in m.model && m.Has(k, later)
      ensures exists i :: SlotOf(s, i, k, m.timeout, later)
    {
      assert m.Has(k, now);
      var i :| SlotOf(s, i, k, m.timeout, now);
      assert LiveAt(s, i, m.timeout, now);
      assert SlotOf(s, i, k, m.timeout, later);
    }
  }

  lemma RepresentsSet<K, V>(s: seq<Slot<K, V>>, m: ExpMap<K, V>, i: nat, k: K, v: V, now: nat)
    requires Represents(s, m, now) && now != 0 && i < |s| && m.CanSet(k, now)
    requires if m.Has(k, now) then SlotOf(s, i, k, m.timeout, now) else !LiveAt(s, i, m.timeout, now)
    ensures Represents(s[i := Slot(k, v, now)], m.Set(k, v, now), now)
  {
    var s', m' := s[i := Slot(k, v, now)], m.Set(k, v, now);
    CountLiveUpdate(s, i, Slot(k, v, now), m.timeout, now);
    SetDeleteCounted(m, k, v, now);
    assert forall j :: 0 <= j < |s| && j != i ==>
                    s'[j] == s[j] && LiveAt(s', j, m.timeout, now) == LiveAt(s, j, m.timeout, now);
    assert OthersDiffer(s, i, k, m.timeout, now) by {
      if m.Has(k, now) {
        assert LiveAt(s, i, m.timeout, now);
      }
    }
    assert Sound(s', m', now);
    CompleteExcept(s, s', m, m', i, k, now);
    assert SlotOf(s', i, k, m.timeout, now);
  }

  /** Slot `i` is the only one that may be live for `k`. */
  ghost predicate OthersDiffer<K, V>(s: seq<Slot<K, V>>, i: nat, k: K, timeout: nat, now: nat) {
    forall j :: 0 <= j < |s| && j != i && LiveAt(s, j, timeout, now) ==> s[j].key != k
  }

  lemma CompleteExcept<K, V>(s: seq<Slot<K, V>>, s': seq<Slot<K, V>>, m: ExpMap<K, V>, m': ExpMap<K, V>,
                             i: nat, k: K, now: nat)
    requires Complete(s, m, now) && |s'| == |s| && i < |s| && m'.timeout == m.timeout
    requires forall j :: 0 <= j < |s| && j != i ==> s'[j] == s[j]
    requires s[i].key == k || !Alive(s[i].time, m.timeout, now)
    requires forall x <- m'.model :: x != k ==> x in m.model && m'.model[x] == m.model[x]
    ensures forall x <- m'.model :: x != k && m'.Has(x, now) ==> exists j :: SlotOf(s', j, x, m.timeout, now)
  {
    forall x | x in m'.model && x != k && m'.Has(x, now)
      ensures exists j :: SlotOf(s', j, x, m.timeout, now)
    {
      assert m.Has(x, now);
      var j :| SlotOf(s, j, x, m.timeout, now);
      assert SlotOf(s', j, x, m.timeout, now);
    }
  }

  lemma RepresentsDelete<K, V>(s: seq<Slot<K, V>>, m: ExpMap<K, V>, i: nat, k: K, now: nat)
    requires Represents(s, m, now) && SlotOf(s, i, k, m.timeout, now)
    ensures m.Has(k, now) && m.size > 0
    ensures Represents(s[i := s[i].(time := 0)], m.Delete(k, now), now)
  {
    var s' := s[i := s[i].(time := 0)];
    CountLiveUpdate(s, i, s[i].(time := 0), m.timeout, now);
    assert LiveAt(s, i, m.timeout, now) && !LiveAt(s', i, m.timeout, now);
    var m' := m.Delete(k, now);
    SetDeleteCounted(m, k, s[i].value, if now == 0 then 1 else now);
    assert forall j :: 0 <= j < |s| && j != i ==>
                    s'[j] == s[j] && LiveAt(s', j, m.timeout, now) == LiveAt(s, j, m.timeout, now);
    assert OthersDiffer(s, i, k, m.timeout, now);
    assert Sound(s', m', now);
    CompleteExcept(s, s', m, m', i, k, now);
  }

  // ----- the clock is read once for each slot

  /** The readings of one operation, in order. */
  predicate Ticks(times: seq<nat>) {
    forall i, j :: 0 <= i <= j < |times| ==> times[i] <= times[j]
  }

  /** The scan of map_get from slot `i` on, with its own reading of the clock at every slot. */
  function Scan<K(==), V>(s: seq<Slot<K, V>>, k: K, timeout: nat, times: seq<nat>, i: nat): (r: int)
    requires i <= |s| <= |times|
    ensures r == -1 || i <= r < |s|
    ensures r >= 0 ==> SlotOf(s, r, k, timeout, times[r])
    ensures r == -1 ==> forall j :: i <= j < |s| ==> s[j].key != k || !LiveAt(s, j, timeout, times[j])
    decreases |s| - i
  {
    if i == |s| then -1
    else if LiveAt(s, i, timeout, times[i]) && s[i].key == k then i
    else Scan(s, k, timeout, times, i + 1)
  }

  /** It finds what one look at the whole map would have found at one of these readings. */
  lemma ScanAtOnce<K, V>(s: seq<Slot<K, V>>, m: ExpMap<K, V>, k: K, times: seq<nat>)
    requires |s| < |times| && Ticks(times) && Represents(s, m, times[0])
    ensures var r := Scan(s, k, m.timeout, times, 0);
            exists n :: 0 <= n < |times| && m.Get(k, times[n]) == if r == -1 then None else Some(s[r].value)
  {
    hide Scan, CountLive, Unique;
    var r := Scan(s, k, m.timeout, times, 0);
    var n := if r == -1 then |s| else r;
    RepresentsLater(s, m, times[0], times[n]);
    if r >= 0 {
      assert LiveAt(s, r, m.timeout, times[r]);
    } else {
      forall i | 0 <= i < |s|
        ensures !SlotOf(s, i, k, m.timeout, times[n])
      {
        assert times[i] <= times[n] && (LiveAt(s, i, m.timeout, times[n]) ==> LiveAt(s, i, m.timeout, times[i]));
      }
    }
    assert m.Get(k, times[n]) == if r == -1 then None else Some(s[r].value);
  }

  /** The scan of map_set for a slot that has expired, likewise. */
  function FreeScan<K, V>(s: seq<Slot<K, V>>, timeout: nat, times: seq<nat>, i: nat): (r: int)
    requires i <= |s| <= |times|
    ensures r == -1 || (i <= r < |s| && !LiveAt(s, r, timeout, times[r]))
    ensures r == -1 ==> forall j :: i <= j < |s| ==> LiveAt(s, j, timeout, times[j])
    decreases |s| - i
  {
    if i == |s| then -1 else if !LiveAt(s, i, timeout, times[i]) then i else FreeScan(s, timeout, times, i + 1)
  }

  /** It finds one whenever the counter is below the maximum, and the slot is still free when it is written. */
  lemma FreeScanFinds<K, V>(s: seq<Slot<K, V>>, m: ExpMap<K, V>, times: seq<nat>, later: nat)
    requires 0 < |times| && |s| <= |times| && Ticks(times) && Represents(s, m, times[0])
    requires m.size != m.max && times[|times| - 1] <= later
    ensures var r := FreeScan(s, m.timeout, times, 0);
            0 <= r < |s| && !LiveAt(s, r, m.timeout, later)
  {
    hide FreeScan, CountLive, Sound, Complete, Unique;
    CountLiveFull(s, m.timeout, times[0]);
    var r := FreeScan(s, m.timeout, times, 0);
    forall j | 0 <= j < |s|
      ensures LiveAt(s, j, m.timeout, times[j]) ==> Alive(s[j].time, m.timeout, times[0])
    {
      assert times[0] <= times[j];
    }
    if r >= 0 {
      assert times[r] <= times[|times| - 1];
    }
  }

  /** A slot that was live when the scan passed it is overwritten `later`, perhaps after it has expired: the counter
      stays, and still bounds the live slots. */
  lemma OverwriteLater<K, V>(s: seq<Slot<K, V>>, m: ExpMap<K, V>, i: nat, k: K, v: V, now: nat, later: nat)
    requires Represents(s, m, now) && SlotOf(s, i, k, m.timeout, now) && 0 != now <= later
    ensures Represents(s[i := Slot(k, v, later)],
                       ExpMap(m.model[k := Stamped(v, later)], m.size, m.max, m.timeout), later)
  {
    hide Represents;
    var gone := s[i := s[i].(time := 0)];
    assert m.size <= m.max by { CounterBounded(s, m, now); }
    RepresentsDelete(s, m, i, k, now);
    RepresentsLater(gone, m.Delete(k, now), now, later);
    RepresentsSet(gone, m.Delete(k, now), i, k, v, later);
    assert gone[i := Slot(k, v, later)] == s[i := Slot(k, v, later)];
    assert m.Delete(k, now).model[k := Stamped(v, later)] == m.model[k := Stamped(v, later)];
  }

  lemma CounterBounded<K, V>(s: seq<Slot<K, V>>, m: ExpMap<K, V>, now: nat)
    requires Represents(s, m, now)
    ensures m.size <= m.max
  {
  }

  class SlotMap<K(0, ==), V(0)> {
    const slots: array<Slot<K, V>>
    var size: nat
    const maxSize: nat
    const timeout: nat
    ghost var model: map<K, Stamped<V>>

    ghost function View(): ExpMap<K, V>
      reads this
    {
      ExpMap(model, size, maxSize, timeout)
    }

    ghost predicate Valid(now: nat)
      reads this, slots
    {
      Represents(slots[..], View(), now)
    }

    /** map_init: the capacity is cut down to what fits into the fixed data area. */
    constructor (requested: nat, entrySize: nat, timeout: nat)
      requires entrySize > 0
      ensures fresh(slots) && View().model == map[] && size == 0 && this.timeout == timeout
      ensures maxSize * entrySize <= MAP_MAX_LEN
      ensures if 0 < requested && requested * entrySize <= MAP_MAX_LEN then maxSize == requested
              else MAP_MAX_LEN < (maxSize + 1) * entrySize
      ensures forall now :: Valid(now)
    {
      var n := if requested == 0 || requested * entrySize > MAP_MAX_LEN then MAP_MAX_LEN / entrySize else requested;
      maxSize := n;
      this.timeout := timeout;
      size := 0;
      model := map[];
      slots := new Slot<K, V>[n];
      new;
      var k: K := *;
      var v: V := *;
      for i := 0 to n
        invariant fresh(slots) && slots.Length == n && size == 0 && model == map[]
        invariant forall j :: 0 <= j < i ==> slots[j].time == 0
      {
        slots[i] := Slot(k, v, 0);
      }
      forall now: nat
        ensures Valid(now)
      {
        NoneLive(slots[..], timeout, now);
      }
    }

    /** map_get: a linear scan; the returned index stands for the pointer into the slot. */
    method Get(k: K, now: nat) returns (slot: int)
      requires Valid(now)
      ensures -1 <= slot < slots.Length
      ensures View().Get(k, now) == if slot == -1 then None else Some(slots[slot].value)
      ensures slot >= 0 ==> SlotOf(slots[..], slot, k, timeout, now)
    {
      for i := 0 to slots.Length
        invariant forall j :: 0 <= j < i && Alive(slots[j].time, timeout, now) ==> slots[j].key != k
      {
        if Alive(slots[i].time, timeout, now) && slots[i].key == k {
          assert LiveAt(slots[..], i, timeout, now);
          return i;
        }
      }
      slot := -1;
    }

    /** map_set: refines the abstract update; a live key keeps its slot and every other live slot is untouched. */
    method Set(k: K, v: V, now: nat) returns (ok: bool)
      requires Valid(now) && now != 0
      modifies this`size, this`model, slots
      ensures Valid(now)
      ensures ok == old(View()).CanSet(k, now)
      ensures View() == old(View()).Set(k, v, now)
      ensures forall i :: 0 <= i < slots.Length && old(Alive(slots[i].time, timeout, now)) ==>
                            slots[i].key == old(slots[i].key) && Alive(slots[i].time, timeout, now)
                            && (slots[i].key != k ==> slots[i] == old(slots[i]))
    {
      hide CountLive, Sound, Complete, Unique;
      var slot := Get(k, now);
      if slot >= 0 {
        RepresentsSet(slots[..], View(), slot, k, v, now);
        slots[slot] := Slot(k, v, now);
        model := model[k := Stamped(v, now)];
        assert slots[..] == old(slots[..])[slot := Slot(k, v, now)];
        return true;
      }
      if size == maxSize {
        return false;
      }
      for i := 0 to slots.Length
        invariant unchanged(this) && unchanged(slots)
        invariant forall j :: 0 <= j < i ==> Alive(slots[j].time, timeout, now)
      {
        if !Alive(slots[i].time, timeout, now) {
          RepresentsSet(slots[..], View(), i, k, v, now);
          slots[i] := Slot(k, v, now);
          size := size + 1;
          model := model[k := Stamped(v, now)];
          assert slots[..] == old(slots[..])[i := Slot(k, v, now)];
          return true;
        }
      }
      CountLiveFull(slots[..], timeout, now);
      assert false;  // the final `return -1` of map_set cannot be reached
    }

    method Delete(k: K, now: nat)
      requires Valid(now)
      modifies this`size, this`model, slots
      ensures Valid(now)
      ensures old(View()).Has(k, now) ==> old(size) > 0
      ensures View() == old(View()).Delete(k, now)
      ensures forall i :: 0 <= i < slots.Length && old(Alive(slots[i].time, timeout, now)) && old(slots[i].key) != k ==>
                            slots[i] == old(slots[i])
    {
      var slot := Get(k, now);
      if slot >= 0 {
        RepresentsDelete(slots[..], View(), slot, k, now);
        slots[slot] := slots[slot].(time := 0);
        size := size - 1;
        model := model - {k};
        assert slots[..] == old(slots[..])[slot := old(slots[slot]).(time := 0)];
      }
    }
  }

  lemma {:induction false} NoneLive<K, V>(s: seq<Slot<K, V>>, timeout: nat, now: nat)
    requires forall i :: 0 <= i < |s| ==> s[i].time == 0
    ensures CountLive(s, timeout, now) == 0
  {
    if s != [] {
      NoneLive(s[..|s| - 1], timeout, now);
    }
  }
}
