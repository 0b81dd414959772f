/** The handle table of skynet_handle.c: an open slot array, indexed by handle modulo its size,
    that doubles when full.  Shown to be a map from handles to contexts.  A handle is the harbor in the
    upper byte and a 24-bit counter, which wraps around, below it. */
module HandleTable {
  import Arith
  import HandleNames

  const DEFAULT_SLOT_SIZE := 4
  const HANDLE_LIMIT := 0x100_0000   // HANDLE_MASK + 1; the harbor byte sits above it

  type Handle = HandleNames.Handle

  type ContextId = nat

  /** A used slot remembers skynet_context_handle of the context stored in it. */
  datatype Slot = Empty | Used(handle: Handle, ctx: ContextId)

  datatype Lookup = NotFound | Found(ctx: ContextId)

  /** Registering aborts when the table can no longer double. */
  datatype Registered = Aborted | Registered(handle: Handle)

  /** handle & (slot_size - 1), the slot size being a power of two. */
  function Hash(handle: nat, size: nat): (i: nat)
    requires 0 < size
    ensures i < size
  {
    handle % size
  }

  lemma HashUnique(h: nat, n: nat, q: nat, r: nat)
    requires r < n && h == q * n + r
    ensures Hash(h, n) == r
  {
    Arith.DivModUnique(h, n, q, r);
  }

  /** Doubling the table keeps the position modulo the old size. */
  lemma HashDouble(h: nat, n: nat)
    requires 0 < n
    ensures Hash(Hash(h, 2 * n), n) == Hash(h, n)
  {
    hide Hash;
    var q := Quotient(h, 2 * n);
    var r := Hash(h, 2 * n);
    Arith.MulAssoc(q, 2, n);
    if r < n {
      HashUnique(h, n, q * 2, r);
      HashUnique(r, n, 0, r);
    } else {
      assert (q * 2 + 1) * n == q * 2 * n + n;
      HashUnique(h, n, q * 2 + 1, r - n);
      HashUnique(r, n, 1, r - n);
    }
  }

  lemma Quotient(h: nat, n: nat) returns (q: nat)
    requires 0 < n
    ensures h == q * n + Hash(h, n) && Hash(h, n) < n
  {
    q := h / n;
  }

  /** Every slot is met within one window of n consecutive handles. */
  lemma Window(from: nat, n: nat, j: nat) returns (k: nat)
    requires j < n
    ensures from <= k < from + n && Hash(k, n) == j
  {
    var q, r := from / n, from % n;
    assert from == q * n + r;
    if r <= j {
      k := from + (j - r);
      HashUnique(k, n, q, j);
    } else {
      k := from + n - (r - j);
      assert k == (q + 1) * n + j;
      HashUnique(k, n, q + 1, j);
    }
  }

  ghost predicate PowerOfTwo(q: nat) {
    q == 1 || (q > 0 && q % 2 == 0 && PowerOfTwo(q / 2))
  }

  /** A slot size fits a power of two times into the range of the counter. */
  ghost predicate IsSize(n: nat) {
    0 < n && PowerOfTwo(HANDLE_LIMIT / n) && HANDLE_LIMIT / n * n == HANDLE_LIMIT
  }

  lemma {:induction false} PowersMultiply(a: nat, b: nat)
    requires PowerOfTwo(a) && PowerOfTwo(b)
    ensures PowerOfTwo(a * b)
  {
    if a > 1 {
      var half := a / 2;
      PowersMultiply(half, b);
      Arith.MulAssoc(2, half, b);
      PowerDoubles(half * b);
    }
  }

  lemma PowerDoubles(q: nat)
    requires PowerOfTwo(q)
    ensures PowerOfTwo(2 * q)
  {
  }

  lemma SmallestSize()
    ensures IsSize(DEFAULT_SLOT_SIZE)
  {
    assert PowerOfTwo(2) && PowerOfTwo(4);
    hide PowerOfTwo;
    PowersMultiply(4, 4);
    PowersMultiply(16, 16);
    PowersMultiply(256, 256);
    PowersMultiply(0x1_0000, 16);
    PowersMultiply(0x10_0000, 4);
  }

  lemma DoubleSize(n: nat)
    requires IsSize(n) && 2 * n <= HANDLE_LIMIT
    ensures IsSize(2 * n)
  {
    var q := HANDLE_LIMIT / n;
    assert q != 1;
    Arith.MulAssoc(q / 2, 2, n);
    Arith.DivModUnique(HANDLE_LIMIT, 2 * n, q / 2, 0);
  }

  lemma LargestSize(n: nat)
    requires IsSize(n)
    ensures n <= HANDLE_LIMIT && (2 * n > HANDLE_LIMIT <==> n == HANDLE_LIMIT)
  {
    var q := HANDLE_LIMIT / n;
    Arith.MulAtLeast(q, n);
    Arith.MulAtLeast(q - 1, n);
    assert q * n == (q - 1) * n + n;
  }

  /** The slot of a handle does not depend on what is above the counter's 24 bits. */
  lemma HashWraps(x: nat, n: nat)
    requires IsSize(n)
    ensures Hash(x % HANDLE_LIMIT, n) == Hash(x, n)
  {
    hide Hash, PowerOfTwo;
    var up, q, r := x / HANDLE_LIMIT, HANDLE_LIMIT / n, x % HANDLE_LIMIT;
    var k := Quotient(r, n);
    assert x == up * HANDLE_LIMIT + r;
    Arith.MulAssoc(up, q, n);
    assert (up * q + k) * n == up * q * n + k * n;
    HashUnique(x, n, up * q + k, Hash(r, n));
  }

  /** The counter of a new handle: it went on from handle_index unless it wrapped. */
  lemma Counter(harbor: nat, i: nat, index: nat)
    requires i < HANDLE_LIMIT && 0 < index <= HANDLE_LIMIT
    ensures var c := (i + index) % HANDLE_LIMIT; var h := harbor * HANDLE_LIMIT + c;
      h / HANDLE_LIMIT == harbor && h % HANDLE_LIMIT == c && (index <= c <==> i + index < HANDLE_LIMIT)
  {
  }

  class Storage {
    const harbor: nat
    const names: HandleNames.Names
    var slot: array<Slot>
    var handleIndex: nat

    ghost predicate Valid()
      reads this, slot
    {
      && harbor < 256 && 0 < handleIndex <= HANDLE_LIMIT && IsSize(slot.Length)
      && forall i :: 0 <= i < slot.Length && slot[i].Used? ==>
        slot[i].handle / HANDLE_LIMIT == harbor && Hash(slot[i].handle, slot.Length) == i
    }

    /** The registered contexts. */
    ghost function Contents(): map<Handle, ContextId>
      requires Valid()
      reads this, slot
    {
      map h: Handle | slot[Hash(h, slot.Length)].Used? && slot[Hash(h, slot.Length)].handle == h :: slot[Hash(h, slot.Length)].ctx
    }

    constructor (harbor: nat)
      requires harbor < 256
      ensures Valid() && fresh(slot) && Contents() == map[] && this.harbor == harbor && handleIndex == 1
      ensures names.Valid() && fresh(names) && fresh(names.name) && names.count == 0
    {
      SmallestSize();
      this.harbor := harbor;
      names := new HandleNames.Names(HandleNames.Name([], 0));
      slot := new Slot[DEFAULT_SLOT_SIZE](_ => Empty);
      handleIndex := 1;
    }

    /** skynet_handle_grab (the count it takes is in Scheduler). */
    method Grab(handle: Handle) returns (r: Lookup)
      requires Valid()
      ensures r == if handle in Contents() then Found(Contents()[handle]) else NotFound
    {
      var s := slot[Hash(handle, slot.Length)];
      r := if s.Used? && s.handle == handle then Found(s.ctx) else NotFound;
    }

    /** skynet_handle_retire: the handle leaves the table, and its names go with it. */
    method Retire(handle: Handle) returns (r: Lookup)
      requires Valid() && names.Valid()
      modifies slot, names, names.name
      ensures Valid() && Contents() == old(Contents()) - {handle}
      ensures r == if handle in old(Contents()) then Found(old(Contents())[handle]) else NotFound
      ensures names.Valid() && names.name[..names.count]
        == if r.Found? then HandleNames.Without(old(names.name[..names.count]), handle) else old(names.name[..names.count])
    {
      hide Hash, IsSize;
      r := Clear(handle);
      if r.Found? {
        names.Drop(handle);
      }
    }

    method Clear(handle: Handle) returns (r: Lookup)
      requires Valid()
      modifies slot
      ensures Valid() && Contents() == old(Contents()) - {handle}
      ensures r == if handle in old(Contents()) then Found(old(Contents())[handle]) else NotFound
    {
      r := Grab(handle);
      if r.Found? {
        slot[Hash(handle, slot.Length)] := Empty;
      }
    }

    /** The rehash loop of skynet_handle_register; its assertion that no two contexts meet in the
        new array holds. */
    static method Rehash(slot: array<Slot>) returns (bigger: array<Slot>)
      requires 0 < slot.Length
      requires forall i :: 0 <= i < slot.Length ==> slot[i].Used? && Hash(slot[i].handle, slot.Length) == i
      ensures fresh(bigger) && bigger.Length == 2 * slot.Length
      ensures forall k :: 0 <= k < slot.Length ==> bigger[Hash(slot[k].handle, bigger.Length)] == slot[k]
      ensures forall j :: 0 <= j < bigger.Length && bigger[j].Used? ==>
        bigger[j] == slot[Hash(j, slot.Length)] && Hash(bigger[j].handle, bigger.Length) == j
    {
      var n := slot.Length;
      forall h: nat ensures Hash(Hash(h, 2 * n), n) == Hash(h, n) { HashDouble(h, n); }
      hide Hash;
      bigger := new Slot[2 * n](_ => Empty);
      for i := 0 to n
        invariant forall k :: 0 <= k < i ==> bigger[Hash(slot[k].handle, 2 * n)] == slot[k]
        invariant forall j :: 0 <= j < 2 * n && bigger[j].Used? ==>
          Hash(j, n) < i && bigger[j] == slot[Hash(j, n)] && Hash(bigger[j].handle, 2 * n) == j
        modifies bigger
      {
        var hash := Hash(slot[i].handle, 2 * n);
        assert bigger[hash] == Empty;   // assert(new_slot[hash] == NULL)
        bigger[hash] := slot[i];
      }
    }

    /** The doubling step of skynet_handle_register: nothing is lost and a slot comes free. */
    method Double()
      requires Valid() && 2 * slot.Length <= HANDLE_LIMIT && forall i :: 0 <= i < slot.Length ==> slot[i].Used?
      modifies this`slot
      ensures Valid() && fresh(slot) && slot.Length == 2 * old(slot.Length) && Contents() == old(Contents())
      ensures exists j :: 0 <= j < slot.Length && slot[j].Empty?
    {
      var n := slot.Length;
      DoubleSize(n);
      var bigger := Rehash(slot);
      forall h: nat ensures Hash(Hash(h, 2 * n), n) == Hash(h, n) { HashDouble(h, n); }
      HashUnique(0, n, 0, 0);
      HashUnique(n, n, 1, 0);
      hide Hash, IsSize;
      assert bigger[0].Empty? || bigger[n].Empty?;
      slot := bigger;
    }

    /** The slot the search loop looks at in its round i. */
    function Probe(i: nat): Slot
      requires Valid()
      reads this, slot
    {
      slot[Hash((i + handleIndex) % HANDLE_LIMIT, slot.Length)]
    }

    /** The search loop: the first round, if any, that meets a free slot. */
    method FindFree() returns (i: nat)
      requires Valid()
      ensures i <= slot.Length && forall k :: 0 <= k < i ==> Probe(k).Used?
      ensures if i < slot.Length then Probe(i).Empty? else forall j :: 0 <= j < slot.Length ==> slot[j].Used?
    {
      hide Hash, IsSize;
      for r := 0 to slot.Length
        invariant forall k :: 0 <= k < r ==> Probe(k).Used?
      {
        if slot[Hash((r + handleIndex) % HANDLE_LIMIT, slot.Length)].Empty? {
          return r;
        }
      }
      i := slot.Length;
      forall j | 0 <= j < slot.Length ensures slot[j].Used? {
        var k := Window(handleIndex, slot.Length, j);
        HashWraps(k, slot.Length);
        assert Probe(k - handleIndex).Used?;
      }
    }

    method Insert(handle: Handle, ctx: ContextId)
      requires Valid() && handle / HANDLE_LIMIT == harbor && slot[Hash(handle, slot.Length)].Empty?
      modifies this`handleIndex, slot
      ensures Valid() && handleIndex == handle % HANDLE_LIMIT + 1
      ensures handle !in old(Contents()) && Contents() == old(Contents())[handle := ctx]
    {
      hide Hash, IsSize;
      slot[Hash(handle, slot.Length)] := Used(handle, ctx);
      handleIndex := handle % HANDLE_LIMIT + 1;
    }

    /** skynet_handle_register.  `round` is the round of the search, in the final table, that found the slot. */
    method Register(ctx: ContextId) returns (r: Registered, ghost round: nat)
      requires Valid()
      modifies this, slot
      ensures Valid() && (slot == old(slot) || fresh(slot))
      ensures r.Aborted? <==> old(slot.Length == HANDLE_LIMIT && forall j :: 0 <= j < slot.Length ==> slot[j].Used?)
      ensures r.Aborted? ==> handleIndex == old(handleIndex) && Contents() == old(Contents())
      ensures r.Registered? ==>
        && r.handle / HANDLE_LIMIT == harbor && handleIndex == r.handle % HANDLE_LIMIT + 1
        && r.handle !in old(Contents()) && Contents() == old(Contents())[r.handle := ctx]
        && round < slot.Length && r.handle % HANDLE_LIMIT == (round + old(handleIndex)) % HANDLE_LIMIT
        && (old(handleIndex) <= r.handle % HANDLE_LIMIT <==> round + old(handleIndex) < HANDLE_LIMIT)
    {
      hide Hash, IsSize;
      var i := FindFree();
      LargestSize(slot.Length);
      if i == slot.Length {
        if 2 * slot.Length > HANDLE_LIMIT {
          return Aborted, 0;
        }
        Double();
        i := FindFree();
        LargestSize(slot.Length);
      }
      var counter := (i + handleIndex) % HANDLE_LIMIT;
      var handle := harbor * HANDLE_LIMIT + counter;
      Counter(harbor, i, handleIndex);
      HashWraps(handle, slot.Length);
      Insert(handle, ctx);
      r, round := Registered(handle), i;
    }
  }
}
