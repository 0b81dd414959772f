/** The read-only shared tables of lua-sharedata.c: an array part, and a hash part with as many slots as
    keys, filled in two passes so that no key stands in the way of another key's main position. */
module Sharedata {
  import opened Collections
  import opened Endian

  /** What fits a C int. */
  type Int32 = k: int | -0x8000_0000 <= k < 0x8000_0000

  datatype Key = Int(k: Int32) | Str(s: seq<Byte>)

  /** A value; what it holds does not matter here. */
  datatype Value = Nil | Val(payload: nat)

  datatype Entry = Entry(key: Key, val: Value)

  /** calchash. */
  function HashStr(s: seq<Byte>, l1: nat, step: nat, h: bv32): bv32
    requires l1 <= |s| && step > 0
    decreases l1
  {
    if l1 < step then h
    else HashStr(s, l1 - step, step, h ^ ((h << 5) + (h >> 2) + (s[l1 - 1] as bv32)))
  }

  /** The 32-bit hash of a key. */
  function Hash(key: Key): nat {
    match key
    case Int(k) => k % 0x1_0000_0000
    case Str(s) => HashStr(s, |s|, |s| / 32 + 1, (|s| % 0x1_0000_0000) as bv32) as nat
  }

  function MainPosition(key: Key, size: nat): (p: nat)
    requires size > 0
    ensures p < size
  {
    Hash(key) % size
  }

  /** Not in the array part: ishashkey. */
  predicate InArray(key: Key, n: nat) { key.Int? && 0 < key.k <= n }

  // ------------------------------------------------------------ the source table

  /** A Lua table as lua_next visits it: distinct keys, no nil values. */
  ghost predicate IsTable(src: seq<Entry>) {
    && (forall j :: 0 <= j < |src| ==> src[j].val != Nil)
    && (forall i, j :: 0 <= i < j < |src| ==> src[i].key != src[j].key)
  }

  /** The value of a key in the table, nil when it is absent. */
  function Get(src: seq<Entry>, key: Key): Value {
    if src == [] then Nil else if src[|src| - 1].key == key then src[|src| - 1].val else Get(src[..|src| - 1], key)
  }

  ghost function HashKeys(src: seq<Entry>, n: nat): set<Key> {
    set j | 0 <= j < |src| && !InArray(src[j].key, n) :: src[j].key
  }

  lemma {:induction false} GetAt(src: seq<Entry>, j: nat)
    requires IsTable(src) && j < |src|
    ensures Get(src, src[j].key) == src[j].val
  {
    if j < |src| - 1 {
      GetAt(src[..|src| - 1], j);
    }
  }

  lemma {:induction false} GetAbsent(src: seq<Entry>, key: Key)
    requires forall j :: 0 <= j < |src| ==> src[j].key != key
    ensures Get(src, key) == Nil
  {
    if src != [] {
      GetAbsent(src[..|src| - 1], key);
    }
  }

  lemma HashKeysOneMore(src: seq<Entry>, i: nat, n: nat)
    requires IsTable(src) && i < |src|
    ensures HashKeys(src[..i + 1], n) == HashKeys(src[..i], n) + (if InArray(src[i].key, n) then {} else {src[i].key})
    ensures src[i].key !in HashKeys(src[..i], n)
  {
  }

  /** countsize. */
  method CountSize(src: seq<Entry>, n: nat) returns (m: nat)
    requires IsTable(src)
    ensures m == |HashKeys(src, n)|
  {
    m := 0;
    for i := 0 to |src|
      invariant m == |HashKeys(src[..i], n)|
    {
      HashKeysOneMore(src, i, n);
      if !InArray(src[i].key, n) {
        m := m + 1;
      }
    }
    assert src[..|src|] == src;
  }

  // ------------------------------------------------------------ the hash part

  /** struct node; `used` is valuetype != NIL, `solo` is nocolliding. */
  datatype Node = Node(used: bool, key: Key, val: Value, next: int, keyhash: nat, solo: bool)

  /** `at` tells the slot of every key entered: keys and used slots match one to one. */
  ghost predicate Slots(hash: seq<Node>, at: map<Key, nat>) {
    && (forall p :: 0 <= p < |hash| && hash[p].used ==>
          hash[p].key in at && at[hash[p].key] == p && hash[p].keyhash == Hash(hash[p].key))
    && (forall k :: k in at ==> at[k] < |hash| && hash[at[k]].used && hash[at[k]].key == k)
  }

  /** A chain of slots that starts at p and holds keys of main position p only. */
  ghost predicate IsChain(hash: seq<Node>, c: seq<nat>, p: nat) {
    && c != [] && c[0] == p && (forall i :: 0 <= i < |c| ==> c[i] < |hash|)
    && (forall i :: 0 <= i < |c| ==> hash[c[i]].used && MainPosition(hash[c[i]].key, |hash|) == p)
    && (forall i :: 0 <= i < |c| ==> hash[c[i]].next == After(c, i))
  }

  ghost function After(c: seq<nat>, i: int): int { if 0 <= i + 1 < |c| then c[i + 1] else -1 }

  lemma ChainUntouched(hash: seq<Node>, hash': seq<Node>, c: seq<nat>, p: nat)
    requires IsChain(hash, c, p) && |hash'| == |hash| && forall i :: 0 <= i < |c| ==> hash'[c[i]] == hash[c[i]]
    ensures IsChain(hash', c, p)
  {
    hide MainPosition;
  }

  ghost predicate AllChains(hash: seq<Node>, chains: map<nat, seq<nat>>) {
    forall p :: p in chains ==> IsChain(hash, chains[p], p)
  }

  /** Every used slot is in the chain of its key's main position. */
  ghost predicate Reached(hash: seq<Node>, chains: map<nat, seq<nat>>) {
    forall q :: 0 <= q < |hash| && hash[q].used ==>
      MainPosition(hash[q].key, |hash|) in chains && q in chains[MainPosition(hash[q].key, |hash|)]
  }

  ghost predicate Solos(hash: seq<Node>, chains: map<nat, seq<nat>>) {
    forall p :: 0 <= p < |hash| && hash[p].used && hash[p].solo ==> p in chains && chains[p] == [p]
  }

  ghost predicate Chained(hash: seq<Node>, chains: map<nat, seq<nat>>) {
    AllChains(hash, chains) && Reached(hash, chains) && Solos(hash, chains)
  }

  /** Filling an unused main position, in the first pass. */
  function Filled(hash: seq<Node>, key: Key, val: Value): seq<Node>
    requires hash != []
  {
    hash[MainPosition(key, |hash|) := Node(true, key, val, -1, Hash(key), true)]
  }

  lemma FillsMain(hash: seq<Node>, at: map<Key, nat>, chains: map<nat, seq<nat>>, key: Key, val: Value)
    requires hash != [] && Slots(hash, at) && Chained(hash, chains) && key !in at
    requires !hash[MainPosition(key, |hash|)].used
    ensures var p := MainPosition(key, |hash|);
      Slots(Filled(hash, key, val), at[key := p]) && Chained(Filled(hash, key, val), chains[p := [p]])
  {
    hide Hash, MainPosition, AllChains, Slots, Reached, Solos, Filled;
    FillsChains(hash, chains, key, val);
    FillsSlots(hash, at, key, val);
    FillsReached(hash, chains, key, val);
  }

  lemma FillsSlots(hash: seq<Node>, at: map<Key, nat>, key: Key, val: Value)
    requires hash != [] && Slots(hash, at) && key !in at && !hash[MainPosition(key, |hash|)].used
    ensures Slots(Filled(hash, key, val), at[key := MainPosition(key, |hash|)])
  {
  }

  lemma FillsReached(hash: seq<Node>, chains: map<nat, seq<nat>>, key: Key, val: Value)
    requires hash != [] && Reached(hash, chains) && Solos(hash, chains) && !hash[MainPosition(key, |hash|)].used
    requires MainPosition(key, |hash|) !in chains
    ensures var p, hash' := MainPosition(key, |hash|), Filled(hash, key, val);
      Reached(hash', chains[p := [p]]) && Solos(hash', chains[p := [p]])
  {
  }

  lemma FillsChains(hash: seq<Node>, chains: map<nat, seq<nat>>, key: Key, val: Value)
    requires hash != [] && AllChains(hash, chains) && !hash[MainPosition(key, |hash|)].used
    ensures var p := MainPosition(key, |hash|); p !in chains && AllChains(Filled(hash, key, val), chains[p := [p]])
  {
  }

  /** Linking an unused slot q behind the main position, in the second pass. */
  function Linked(hash: seq<Node>, key: Key, val: Value, q: nat): seq<Node>
    requires q < |hash|
  {
    var p := MainPosition(key, |hash|);
    hash[p := hash[p].(next := q, solo := false)][q := Node(true, key, val, hash[p].next, Hash(key), false)]
  }

  lemma LinksSlots(hash: seq<Node>, at: map<Key, nat>, key: Key, val: Value, q: nat)
    requires Slots(hash, at) && key !in at && q < |hash| && !hash[q].used && hash[MainPosition(key, |hash|)].used
    ensures Slots(Linked(hash, key, val, q), at[key := q])
  {
    hide Hash, MainPosition;
  }

  lemma LinksChain(hash: seq<Node>, c: seq<nat>, key: Key, val: Value, q: nat)
    requires q < |hash| && !hash[q].used && IsChain(hash, c, MainPosition(key, |hash|))
    requires forall i :: 0 < i < |c| ==> c[i] != MainPosition(key, |hash|)
    ensures IsChain(Linked(hash, key, val, q), [c[0], q] + c[1..], MainPosition(key, |hash|))
  {
    hide Hash, MainPosition;
    var hash', c', p := Linked(hash, key, val, q), [c[0], q] + c[1..], MainPosition(key, |hash|);
    assert p != q && c'[0] == p && c'[1] == q;
    forall i | 0 <= i < |c'|
      ensures c'[i] < |hash| && hash'[c'[i]].used && MainPosition(hash'[c'[i]].key, |hash|) == p
      ensures hash'[c'[i]].next == After(c', i)
    {
      if i >= 2 {
        assert c'[i] == c[i - 1] && c[i - 1] != q && hash'[c'[i]] == hash[c[i - 1]];
        if i + 1 < |c'| {
          assert c'[i + 1] == c[i];
        }
      } else if i == 1 {
        assert hash[c[0]].next == After(c, 0);
        if 2 < |c'| {
          assert c'[2] == c[1];
        }
      } else {
        assert hash[c[0]].used;
      }
    }
  }

  /** A chain visits no slot twice. */
  lemma {:induction false} ChainDoesNotRepeat(hash: seq<Node>, c: seq<nat>, p: nat, i: nat, j: nat)
    requires IsChain(hash, c, p) && i < j < |c|
    ensures c[i] != c[j]
    decreases |c| - j
  {
    hide MainPosition;
    assert hash[c[i]].next == After(c, i) && hash[c[j]].next == After(c, j);
    if j + 1 < |c| {
      ChainDoesNotRepeat(hash, c, p, i + 1, j + 1);
    }
  }

  lemma LinksChained(hash: seq<Node>, chains: map<nat, seq<nat>>, key: Key, val: Value, q: nat)
    requires Chained(hash, chains) && q < |hash| && !hash[q].used && MainPosition(key, |hash|) in chains
    ensures var p := MainPosition(key, |hash|); chains[p] != []
    ensures var p := MainPosition(key, |hash|); Chained(Linked(hash, key, val, q), chains[p := [p, q] + chains[p][1..]])
  {
    hide MainPosition, Hash, IsChain;
    LinksAllChains(hash, chains, key, val, q);
    LinksReached(hash, chains, key, val, q);
    var p := MainPosition(key, |hash|);
    HeadIsUsed(hash, chains, p);
    hide AllChains, Reached;
  }

  lemma HeadIsUsed(hash: seq<Node>, chains: map<nat, seq<nat>>, p: nat)
    requires AllChains(hash, chains) && p in chains
    ensures chains[p] != [] && chains[p][0] == p < |hash| && hash[p].used && MainPosition(hash[p].key, |hash|) == p
  {
    assert IsChain(hash, chains[p], p) && hash[chains[p][0]].used;
  }

  lemma LinksAllChains(hash: seq<Node>, chains: map<nat, seq<nat>>, key: Key, val: Value, q: nat)
    requires Chained(hash, chains) && q < |hash| && !hash[q].used && MainPosition(key, |hash|) in chains
    ensures var p := MainPosition(key, |hash|);
      chains[p] != [] && AllChains(Linked(hash, key, val, q), chains[p := [p, q] + chains[p][1..]])
  {
    hide MainPosition, Hash;
    var p := MainPosition(key, |hash|);
    var c := chains[p];
    assert IsChain(hash, c, p);
    forall i | 0 < i < |c|
      ensures c[i] != p
    {
      ChainDoesNotRepeat(hash, c, p, 0, i);
    }
    hide IsChain;
    LinksChain(hash, c, key, val, q);
    OthersStay(hash, chains, key, val, q);
    HeadIsUsed(hash, chains, p);
  }

  lemma LinksReached(hash: seq<Node>, chains: map<nat, seq<nat>>, key: Key, val: Value, q: nat)
    requires Chained(hash, chains) && q < |hash| && !hash[q].used && MainPosition(key, |hash|) in chains
    ensures var p := MainPosition(key, |hash|);
      chains[p] != [] && Reached(Linked(hash, key, val, q), chains[p := [p, q] + chains[p][1..]])
  {
    hide MainPosition, Hash, IsChain;
    var p := MainPosition(key, |hash|);
    HeadIsUsed(hash, chains, p);
    var hash', c := Linked(hash, key, val, q), chains[p];
    var chains' := chains[p := [p, q] + c[1..]];
    forall u | 0 <= u < |hash'| && hash'[u].used
      ensures MainPosition(hash'[u].key, |hash|) in chains' && u in chains'[MainPosition(hash'[u].key, |hash|)]
    {
      if u == q {
        assert ([p, q] + c[1..])[1] == q;
      } else {
        assert hash[u].used && hash'[u].key == hash[u].key;
        StillThere(c, q, u);
      }
    }
  }

  lemma StillThere(c: seq<nat>, q: nat, u: nat)
    requires c != []
    ensures u in c ==> u in [c[0], q] + c[1..]
  {
  }

  /** Chains of other main positions are not touched. */
  lemma OthersStay(hash: seq<Node>, chains: map<nat, seq<nat>>, key: Key, val: Value, q: nat)
    requires Chained(hash, chains) && q < |hash| && !hash[q].used && MainPosition(key, |hash|) in chains
    ensures forall r :: r in chains && r != MainPosition(key, |hash|) ==> IsChain(Linked(hash, key, val, q), chains[r], r)
  {
    var p, hash' := MainPosition(key, |hash|), Linked(hash, key, val, q);
    forall r | r in chains && r != p
      ensures IsChain(hash', chains[r], r)
    {
      Apart(hash, chains, p, r);
      hide MainPosition, Hash;
      ChainUntouched(hash, hash', chains[r], r);
    }
  }

  lemma Apart(hash: seq<Node>, chains: map<nat, seq<nat>>, p: nat, r: nat)
    requires Chained(hash, chains) && p in chains && r in chains && p != r
    ensures IsChain(hash, chains[r], r)
    ensures forall i :: 0 <= i < |chains[r]| ==> hash[chains[r][i]].used && chains[r][i] != p
  {
    hide MainPosition;
    assert IsChain(hash, chains[p], p);
    assert hash[chains[p][0]].used;
  }

  // ------------------------------------------------------------ there is an empty slot

  lemma {:induction false} ImageIsNoLarger(keys: set<Key>, at: map<Key, nat>)
    requires forall k :: k in keys ==> k in at
    ensures |set k | k in keys :: at[k]| <= |keys|
    decreases |keys|
  {
    var image := set k | k in keys :: at[k];
    if keys == {} {
      assert image == {};
    } else {
      var k :| k in keys;
      var rest := keys - {k};
      ImageIsNoLarger(rest, at);
      var smaller := set k | k in rest :: at[k];
      assert image == smaller + {at[k]};
    }
  }

  ghost function Below(n: nat): set<nat> { if n == 0 then {} else Below(n - 1) + {n - 1} }

  lemma {:induction false} BelowHas(n: nat)
    ensures |Below(n)| == n && forall p :: p in Below(n) <==> 0 <= p < n
  {
    if n > 0 {
      BelowHas(n - 1);
    }
  }

  lemma EmptySlot(hash: seq<Node>, at: map<Key, nat>)
    requires Slots(hash, at) && |at.Keys| < |hash|
    ensures exists q :: 0 <= q < |hash| && !hash[q].used
  {
    hide Hash;
    var all := Below(|hash|);
    var image := set k | k in at.Keys :: at[k];
    BelowHas(|hash|);
    ImageIsNoLarger(at.Keys, at);
    if forall q :: 0 <= q < |hash| ==> hash[q].used {
      forall p | p in all
        ensures p in image
      {
        assert hash[p].key in at.Keys && at[hash[p].key] == p;
      }
      Subset(all, image);
    }
  }

  // ------------------------------------------------------------ building

  /** How far the fill has come: the keys entered are keys of the table, with their values. */
  ghost predicate Holds(hash: seq<Node>, src: seq<Entry>, n: nat, at: map<Key, nat>) {
    && at.Keys <= HashKeys(src, n)
    && (forall p :: 0 <= p < |hash| && hash[p].used ==> hash[p].val == Get(src, hash[p].key))
  }

  lemma InHashKeys(src: seq<Entry>, n: nat, j: nat)
    requires j < |src| && !InArray(src[j].key, n)
    ensures src[j].key in HashKeys(src, n)
  {
  }

  /** sizearray is a C int. */
  type Length = n: nat | n < 0x8000_0000

  type ArrayPart = a: seq<Value> | |a| < 0x8000_0000 witness []

  class SharedTable {
    var arr: ArrayPart
    var hash: seq<Node>
    ghost var at: map<Key, nat>
    ghost var chains: map<nat, seq<nat>>

    ghost predicate Filling(src: seq<Entry>)
      reads this
    {
      hash != [] && Slots(hash, at) && Chained(hash, chains) && Holds(hash, src, |arr|, at)
    }

    /** The array part agrees with the first i entries of the table. */
    ghost predicate ArrayHolds(src: seq<Entry>)
      reads this
    {
      forall k :: 0 <= k < |arr| ==> arr[k] == Get(src, Int(k + 1))
    }

    /** setarray. */
    method SetArray(src: seq<Entry>, i: nat)
      requires i < |src| && InArray(src[i].key, |arr|) && ArrayHolds(src[..i])
      modifies this`arr
      ensures |arr| == old(|arr|) && ArrayHolds(src[..i + 1])
    {
      var k := src[i].key.k - 1;
      arr := arr[k := src[i].val];
      assert src[..i + 1][..i] == src[..i];
    }

    lemma ArrayStays(src: seq<Entry>, i: nat)
      requires i < |src| && !InArray(src[i].key, |arr|) && ArrayHolds(src[..i])
      ensures ArrayHolds(src[..i + 1])
    {
      assert src[..i + 1][..i] == src[..i];
    }

    /** fillnocolliding: the first key of every main position gets it. */
    method FillNoColliding(src: seq<Entry>)
      requires IsTable(src) && Filling(src) && at == map[] && ArrayHolds([])
      modifies this
      ensures Filling(src) && |arr| == old(|arr|) && |hash| == old(|hash|) && ArrayHolds(src)
      ensures forall j :: 0 <= j < |src| && !InArray(src[j].key, |arr|) ==> MainPosition(src[j].key, |hash|) in chains
      ensures forall k :: k in at ==> at[k] == MainPosition(k, |hash|)
    {
      hide Slots, Chained, Get, Hash, MainPosition, HashKeys;
      assert src[..0] == [];
      for i := 0 to |src|
        invariant Filling(src) && |arr| == old(|arr|) && |hash| == old(|hash|) && ArrayHolds(src[..i])
        invariant forall j :: 0 <= j < i && !InArray(src[j].key, |arr|) ==> MainPosition(src[j].key, |hash|) in chains
        invariant forall k :: k in at ==> at[k] == MainPosition(k, |hash|) && k in HashKeys(src[..i], |arr|)
      {
        HashKeysOneMore(src, i, |arr|);
        if InArray(src[i].key, |arr|) {
          SetArray(src, i);
        } else {
          ArrayStays(src, i);
          EnterMain(src, i);
        }
      }
      assert src[..|src|] == src;
    }

    /** One key in the first pass. */
    method EnterMain(src: seq<Entry>, i: nat)
      requires IsTable(src) && i < |src| && !InArray(src[i].key, |arr|) && Filling(src) && src[i].key !in at
      requires forall k :: k in at ==> at[k] == MainPosition(k, |hash|)
      modifies this`hash, this`at, this`chains
      ensures Filling(src) && |hash| == old(|hash|)
      ensures forall p :: p in old(chains) ==> p in chains
      ensures MainPosition(src[i].key, |hash|) in chains
      ensures at == old(at) || at == old(at)[src[i].key := MainPosition(src[i].key, |hash|)]
    {
      hide Hash, Get, HashKeys;
      var key, val := src[i].key, src[i].val;
      var p := MainPosition(key, |hash|);
      if !hash[p].used {
        FillsMain(hash, at, chains, key, val);
        GetAt(src, i);
        InHashKeys(src, |arr|, i);
        hide Slots, Chained, MainPosition;
        hash := Filled(hash, key, val);
        at, chains := at[key := p], chains[p := [p]];
      } else {
        MainIsHead(p);
      }
    }

    lemma MainIsHead(p: nat)
      requires p < |hash| && hash[p].used && Slots(hash, at) && Chained(hash, chains)
      requires forall k :: k in at ==> at[k] == MainPosition(k, |hash|)
      ensures p in chains
    {
      hide MainPosition, Hash, AllChains, Solos;
      assert at[hash[p].key] == p;
    }

    /** fillcolliding: every other key gets an unused slot, linked behind its main position.  The
        assertion of the source, that there is one, is the `assert` in FindUnused. */
    method FillColliding(src: seq<Entry>)
      requires IsTable(src) && Filling(src) && |hash| == |HashKeys(src, |arr|)|
      requires forall j :: 0 <= j < |src| && !InArray(src[j].key, |arr|) ==> MainPosition(src[j].key, |hash|) in chains
      requires forall k :: k in at ==> at[k] == MainPosition(k, |hash|)
      modifies this`hash, this`at, this`chains
      ensures Filling(src) && |hash| == old(|hash|) && at.Keys == HashKeys(src, |arr|)
    {
      hide Slots, Chained, Get, Hash, MainPosition, HashKeys;
      assert src[..0] == [];
      NoHashKeys(|arr|);
      for i := 0 to |src|
        invariant Filling(src) && |hash| == old(|hash|)
        invariant forall j :: 0 <= j < |src| && !InArray(src[j].key, |arr|) ==> MainPosition(src[j].key, |hash|) in chains
        invariant HashKeys(src[..i], |arr|) <= at.Keys
        invariant forall k :: k in at && k !in HashKeys(src[..i], |arr|) ==> at[k] == MainPosition(k, |hash|)
      {
        HashKeysOneMore(src, i, |arr|);
        if !InArray(src[i].key, |arr|) {
          EnterColliding(src, i);
        }
      }
      assert src[..|src|] == src;
    }

    /** The first unused slot. */
    method FindUnused() returns (q: nat)
      requires Slots(hash, at) && |at.Keys| < |hash|
      ensures q < |hash| && !hash[q].used
    {
      hide Slots;
      EmptySlot(hash, at);
      q := 0;
      while q < |hash| && hash[q].used
        invariant q <= |hash| && forall p :: 0 <= p < q ==> hash[p].used
      {
        q := q + 1;
      }
      assert q < |hash|;
    }

    /** One key in the second pass. */
    method EnterColliding(src: seq<Entry>, i: nat)
      requires IsTable(src) && i < |src| && !InArray(src[i].key, |arr|) && Filling(src)
      requires |hash| == |HashKeys(src, |arr|)| && MainPosition(src[i].key, |hash|) in chains
      requires src[i].key in at ==> at[src[i].key] == MainPosition(src[i].key, |hash|)
      modifies this`hash, this`at, this`chains
      ensures Filling(src) && |hash| == old(|hash|) && chains.Keys == old(chains.Keys)
      ensures src[i].key in at && forall k :: k in old(at) ==> k in at && at[k] == old(at)[k]
      ensures at.Keys == old(at.Keys) + {src[i].key}
    {
      hide MainPosition, Get, Hash, HashKeys, Slots, Chained;
      var key, val := src[i].key, src[i].val;
      var p := MainPosition(key, |hash|);
      InHashKeys(src, |arr|, i);
      SlotOf(p, key);
      if hash[p].key != key {
        Fewer(at.Keys, HashKeys(src, |arr|), key);
        var q := FindUnused();
        LinksSlots(hash, at, key, val, q);
        LinksChained(hash, chains, key, val, q);
        GetAt(src, i);
        hash := Linked(hash, key, val, q);
        at, chains := at[key := q], chains[p := [p, q] + chains[p][1..]];
      }
    }

    /** The table built agrees with its source. */
    ghost predicate Valid(src: seq<Entry>)
      reads this
    {
      && ArrayHolds(src) && at.Keys == HashKeys(src, |arr|) && |hash| == |at.Keys|
      && Slots(hash, at) && Chained(hash, chains) && Holds(hash, src, |arr|, at)
    }

    /** convtable; n is the length lua_rawlen gives. */
    constructor (src: seq<Entry>, n: Length, blank: Node)
      requires IsTable(src) && !blank.used && !blank.solo
      ensures Valid(src) && |arr| == n
    {
      arr := seq(n, _ => Nil);
      var m := CountSize(src, n);
      hash := seq(m, _ => blank);
      at, chains := map[], map[];
      new;
      assert ArrayHolds([]);
      hide Get, Hash, MainPosition, HashKeys;
      if m > 0 {
        FillNoColliding(src);
        FillColliding(src);
      } else {
        for i := 0 to n
          invariant |arr| == n && hash == [] && at == map[] && chains == map[]
          invariant forall k :: 0 <= k < i ==> arr[k] == Get(src, Int(k + 1))
        {
          arr := arr[i := Get(src, Int(i + 1))];
        }
      }
    }

    /** Where a walk along the chains from a main position begins, and what it will meet. */
    lemma Walk(key: Key) returns (r: nat, k: nat)
      requires hash != [] && Slots(hash, at) && Chained(hash, chains) && |hash| == |at.Keys|
      ensures r in chains && k < |chains[r]| && chains[r][k] == MainPosition(key, |hash|)
      ensures IsChain(hash, chains[r], r)
      ensures key in at ==> k == 0 && r == MainPosition(key, |hash|) && at[key] in chains[r]
    {
      NoSlotIsFree(hash, at);
      var p := MainPosition(key, |hash|);
      hide Hash, MainPosition;
      if key in at {
        assert hash[at[key]].used;
        HeadIsUsed(hash, chains, p);
        r, k := p, 0;
      } else {
        assert hash[p].used;
        r := MainPosition(hash[p].key, |hash|);
        k :| 0 <= k < |chains[r]| && chains[r][k] == p;
      }
    }

    /** lookup_key. */
    method Lookup(key: Key) returns (found: bool, q: nat)
      requires Slots(hash, at) && Chained(hash, chains) && |hash| == |at.Keys|
      ensures found <==> key in at
      ensures found ==> q == at[key] < |hash|
    {
      hide Slots, Chained, Hash, MainPosition, IsChain;
      found, q := false, 0;
      if |hash| == 0 {
        assert at.Keys == {};
        return;
      }
      var h := Hash(key);
      q := MainPosition(key, |hash|);
      ghost var r, k := Walk(key);
      ghost var c := chains[r];
      OnChain(r, k, key);
      if h != hash[q].keyhash && hash[q].solo {
        SoloChain(key, q, r);
        return;
      }
      ghost var goal := 0;
      if key in at {
        goal :| 0 <= goal < |c| && c[goal] == at[key];
      }
      while true
        invariant k < |c| && c[k] == q && q < |hash| && (key in at ==> k <= goal < |c| && c[goal] == at[key])
        decreases |c| - k
      {
        OnChain(r, k, key);
        if h == hash[q].keyhash && hash[q].key == key {
          found := true;
          return;
        }
        if hash[q].next < 0 {
          return;
        }
        q, k := hash[q].next, k + 1;
      }
    }

    /** What a slot on a chain says about a key. */
    lemma OnChain(r: nat, k: nat, key: Key)
      requires Slots(hash, at) && Chained(hash, chains) && r in chains && k < |chains[r]|
      ensures var q := chains[r][k];
        && q < |hash| && hash[q].used && hash[q].next == After(chains[r], k) && hash[q].next < |hash|
        && hash[q].keyhash == Hash(hash[q].key) && (hash[q].key == key <==> key in at && at[key] == q)
    {
      hide Hash, MainPosition;
      assert IsChain(hash, chains[r], r);
    }

    lemma SoloChain(key: Key, q: nat, r: nat)
      requires Slots(hash, at) && Chained(hash, chains) && q < |hash| && hash[q].used && hash[q].solo
      requires r in chains && q in chains[r] && (key in at ==> at[key] in chains[r] && r == q)
      requires Hash(key) != hash[q].keyhash
      ensures key !in at
    {
    }

    /** lindexconf: the value in the source table, or nil. */
    method Index(ghost src: seq<Entry>, key: Key) returns (v: Value)
      requires IsTable(src) && Valid(src)
      ensures v == Get(src, key)
    {
      hide Slots, Chained, Get, Hash, HashKeys;
      if InArray(key, |arr|) {
        assert key == Int(key.k - 1 + 1);
        return arr[key.k - 1];
      }
      var found, q := Lookup(key);
      if found {
        At(key);
        v := hash[q].val;
      } else {
        Absent(src, key);
        v := Nil;
      }
    }

    lemma At(key: Key)
      requires Slots(hash, at) && key in at
      ensures at[key] < |hash| && hash[at[key]].used && hash[at[key]].key == key
    {
    }

    lemma Absent(src: seq<Entry>, key: Key)
      requires key !in HashKeys(src, |arr|) && !InArray(key, |arr|)
      ensures Get(src, key) == Nil
    {
    }

    /** The positions a traversal goes through: the array, then the slots. */
    ghost predicate Occupied(i: nat)
      reads this
      requires i < |arr| + |hash|
    {
      i >= |arr| || arr[i] != Nil
    }

    ghost function KeyAt(i: nat): Key
      reads this
      requires i < |arr| + |hash|
    {
      if i < |arr| then Int(i + 1) else hash[i - |arr|].key
    }

    /** The first occupied position from i on. */
    method FirstFrom(i: nat) returns (found: bool, key: Key, ghost pos: nat)
      requires i <= |arr| + |hash|
      ensures found <==> exists j :: i <= j < |arr| + |hash| && Occupied(j)
      ensures found ==> i <= pos < |arr| + |hash| && Occupied(pos) && key == KeyAt(pos) && forall j :: i <= j < pos ==> !Occupied(j)
    {
      var k := i;
      while k < |arr| && arr[k] == Nil
        invariant i <= k <= |arr| + |hash| && forall j :: i <= j < k ==> !Occupied(j)
      {
        k := k + 1;
      }
      pos := k;
      if k < |arr| {
        assert Occupied(k);
        return true, Int(k + 1), pos;
      }
      found, key := k < |arr| + |hash|, Int(0);
      if found {
        assert Occupied(k);
        key := hash[k - |arr|].key;
      }
    }

    ghost function Position(key: Key): nat
      reads this
      requires InArray(key, |arr|) || key in at
    {
      if InArray(key, |arr|) then key.k - 1 else |arr| + at[key]
    }

    /** lnextkey after a key; a traversal starts with FirstFrom(0). */
    method NextKey(key: Key) returns (found: bool, next: Key, ghost pos: nat)
      requires Slots(hash, at) && Chained(hash, chains) && |hash| == |at.Keys|
      ensures !InArray(key, |arr|) && key !in at ==> !found
      ensures InArray(key, |arr|) || key in at ==>
        && Position(key) < |arr| + |hash|
        && (found <==> exists j :: Position(key) < j < |arr| + |hash| && Occupied(j))
        && (found ==> Position(key) < pos < |arr| + |hash| && Occupied(pos) && next == KeyAt(pos)
                      && forall j :: Position(key) < j < pos ==> !Occupied(j))
    {
      hide Slots, Chained, Hash, Occupied, KeyAt;
      if InArray(key, |arr|) {
        found, next, pos := FirstFrom(key.k);
        return;
      }
      var there, q := Lookup(key);
      if !there {
        return false, key, 0;
      }
      found, next, pos := FirstFrom(|arr| + q + 1);
    }

    /** The keys at the occupied positions below i. */
    ghost function Visited(i: nat): seq<Key>
      reads this
      requires i <= |arr| + |hash|
    {
      if i == 0 then [] else Visited(i - 1) + if Occupied(i - 1) then [KeyAt(i - 1)] else []
    }

    lemma {:induction false} NothingBetween(i: nat, j: nat)
      requires i <= j <= |arr| + |hash| && forall k :: i <= k < j ==> !Occupied(k)
      ensures Visited(j) == Visited(i)
    {
      if i < j {
        NothingBetween(i, j - 1);
      }
    }

    lemma VisitOne(j: nat)
      requires j < |arr| + |hash| && Occupied(j)
      ensures Visited(j + 1) == Visited(j) + [KeyAt(j)]
    {
    }

    lemma PositionOf(src: seq<Entry>, j: nat)
      requires IsTable(src) && Valid(src) && j < |arr| + |hash|
      ensures var key := KeyAt(j); (InArray(key, |arr|) || key in at) && Position(key) == j
      ensures Get(src, KeyAt(j)) != Nil <==> Occupied(j)
    {
      hide Hash, Chained, Get;
      NoSlotIsFree(hash, at);
      if j >= |arr| {
        var key := KeyAt(j);
        assert key in at.Keys;
        Present(src, |arr|, key);
      }
    }

    lemma KeyOf(src: seq<Entry>, key: Key)
      requires IsTable(src) && Valid(src) && Get(src, key) != Nil
      ensures (InArray(key, |arr|) || key in at) && Position(key) < |arr| + |hash| && KeyAt(Position(key)) == key
    {
      hide Hash, Chained, Get;
      if !InArray(key, |arr|) {
        if key !in at {
          Absent(src, key);
        } else {
          At(key);
        }
      }
    }

    ghost predicate Seen(key: Key, i: nat)
      reads this
      requires i <= |arr| + |hash|
    {
      exists j :: 0 <= j < i && Occupied(j) && KeyAt(j) == key
    }

    /** What has been visited is what lies below the current position. */
    lemma {:induction false} VisitedAre(src: seq<Entry>, i: nat)
      requires IsTable(src) && Valid(src) && i <= |arr| + |hash|
      ensures forall key :: key in Visited(i) <==> Seen(key, i)
      ensures forall k, l :: 0 <= k < l < |Visited(i)| ==> Visited(i)[k] != Visited(i)[l]
    {
      hide Valid, KeyAt, Occupied;
      if i > 0 {
        VisitedAre(src, i - 1);
        forall key
          ensures key in Visited(i) <==> Seen(key, i)
        {
          SeenMore(key, i - 1);
        }
        if Occupied(i - 1) {
          NotSeenBefore(src, i - 1);
          var front, last := Visited(i - 1), KeyAt(i - 1);
          assert Visited(i) == front + [last] && last !in front;
        }
      }
    }

    lemma SeenMore(key: Key, i: nat)
      requires i < |arr| + |hash|
      ensures Seen(key, i + 1) <==> Seen(key, i) || (Occupied(i) && KeyAt(i) == key)
    {
    }

    lemma NotSeenBefore(src: seq<Entry>, i: nat)
      requires IsTable(src) && Valid(src) && i < |arr| + |hash|
      ensures !Seen(KeyAt(i), i)
    {
      hide Valid, Occupied, KeyAt;
      forall j | 0 <= j < i
        ensures KeyAt(j) != KeyAt(i)
      {
        PositionOf(src, j);
        PositionOf(src, i);
      }
    }

    /** Following nextkey from nil visits every key of the source table, once. */
    method Traverse(ghost src: seq<Entry>) returns (keys: seq<Key>)
      requires IsTable(src) && Valid(src)
      ensures forall key :: key in keys <==> Get(src, key) != Nil
      ensures forall i, j :: 0 <= i < j < |keys| ==> keys[i] != keys[j]
    {
      hide Slots, Chained, Hash, Occupied, KeyAt, Visited, Seen, Get, Holds, HashKeys, Position;
      NothingVisited();
      keys := [];
      ghost var done := 0;
      var more, key;
      ghost var pos;
      more, key, pos := FirstFrom(0);
      while more
        invariant 0 <= done <= |arr| + |hash| && keys == Visited(done)
        invariant more <==> exists j :: done <= j < |arr| + |hash| && Occupied(j)
        invariant more ==> done <= pos < |arr| + |hash| && Occupied(pos) && key == KeyAt(pos) && forall j :: done <= j < pos ==> !Occupied(j)
        decreases |arr| + |hash| - done
      {
        NothingBetween(done, pos);
        VisitOne(pos);
        PositionOf(src, pos);
        keys := keys + [key];
        done := pos + 1;
        more, key, pos := NextKey(key);
      }
      NothingBetween(done, |arr| + |hash|);
      VisitedAre(src, |arr| + |hash|);
      AllVisited(src, keys);
    }

    lemma NothingVisited()
      ensures Visited(0) == []
    {
    }

    lemma AllVisited(src: seq<Entry>, keys: seq<Key>)
      requires IsTable(src) && Valid(src)
      requires forall key :: key in keys <==> Seen(key, |arr| + |hash|)
      ensures forall key :: key in keys <==> Get(src, key) != Nil
    {
      hide Slots, Chained, Hash, Occupied, KeyAt, Get, Holds, HashKeys, Position;
      forall key
        ensures key in keys <==> Get(src, key) != Nil
      {
        if key in keys {
          var j :| 0 <= j < |arr| + |hash| && Occupied(j) && KeyAt(j) == key;
          PositionOf(src, j);
        }
        if Get(src, key) != Nil {
          KeyOf(src, key);
          PositionOf(src, Position(key));
        }
      }
    }

    lemma SlotOf(p: nat, key: Key)
      requires Slots(hash, at) && Chained(hash, chains) && p in chains && (key in at ==> at[key] == p)
      ensures p < |hash| && hash[p].used && (hash[p].key == key <==> key in at)
    {
      hide Hash, MainPosition;
      HeadIsUsed(hash, chains, p);
    }
  }

  // ------------------------------------------------------------ every slot is used

  lemma {:induction false} ImageHasAll(keys: set<Key>, at: map<Key, nat>)
    requires forall k :: k in keys ==> k in at
    requires forall k, l :: k in keys && l in keys && at[k] == at[l] ==> k == l
    ensures |set k | k in keys :: at[k]| == |keys|
    decreases |keys|
  {
    var image := set k | k in keys :: at[k];
    if keys == {} {
      assert image == {};
    } else {
      var k :| k in keys;
      var rest := keys - {k};
      ImageHasAll(rest, at);
      var smaller := set k | k in rest :: at[k];
      assert image == smaller + {at[k]} && at[k] !in smaller;
    }
  }

  lemma NoSlotIsFree(hash: seq<Node>, at: map<Key, nat>)
    requires Slots(hash, at) && |at.Keys| == |hash|
    ensures forall p :: 0 <= p < |hash| ==> hash[p].used
  {
    hide Hash;
    var image := set k | k in at.Keys :: at[k];
    assert forall k, l :: k in at && l in at && at[k] == at[l] ==> hash[at[k]].key == k && hash[at[l]].key == l;
    ImageHasAll(at.Keys, at);
    BelowHas(|hash|);
    Subset(image, Below(|hash|));
    forall p | 0 <= p < |hash|
      ensures hash[p].used
    {
      assert p in image;
    }
  }

  lemma Present(src: seq<Entry>, n: nat, key: Key)
    requires IsTable(src) && key in HashKeys(src, n)
    ensures Get(src, key) != Nil && !InArray(key, n)
  {
  }

  lemma NoHashKeys(n: nat)
    ensures HashKeys([], n) == {}
  {
  }

  lemma Fewer(a: set<Key>, b: set<Key>, key: Key)
    requires a <= b && key in b && key !in a
    ensures |a| < |b|
  {
    assert b == a + (b - a);
    assert |b| == |a| + |b - a|;
    assert key in b - a;
  }
}
