/** The slot table of Redis Cluster (cluster.c): slots[] with the per-node bitmaps and counters that
    mirror it, and the way nodes that hear each other's claims come to agree on it. */
module ClusterSlots {
  const SLOTS := 16384

  type Id = nat
  datatype Owner = Nobody | Node(id: Id)

  type Bits = seq<bool>
  type Table = seq<Owner>

  /** The slots of node n according to the table. */
  function BitsOf(t: Table, n: Id): (r: Bits)
    ensures |r| == |t|
  {
    seq(|t|, j requires 0 <= j < |t| => t[j] == Node(n))
  }

  /** The slots for which a node is recorded. */
  function Marked(t: Table): (r: Bits)
    ensures |r| == |t|
  {
    seq(|t|, j requires 0 <= j < |t| => t[j] != Nobody)
  }

  function Count(b: Bits): nat {
    if b == [] then 0 else Count(b[..|b| - 1]) + if b[|b| - 1] then 1 else 0
  }

  lemma {:induction false} CountUpdate(b: Bits, j: nat, x: bool)
    requires j < |b|
    ensures Count(b[j := x]) == Count(b) + (if x then 1 else 0) - (if b[j] then 1 else 0)
  {
    var n := |b| - 1;
    if j == n {
      assert b[j := x][..n] == b[..n];
    } else {
      CountUpdate(b[..n], j, x);
      assert b[j := x][..n] == b[..n][j := x];
    }
  }

  lemma {:induction false} CountPositive(b: Bits, j: nat)
    requires j < |b| && b[j]
    ensures Count(b) > 0
  {
    if j < |b| - 1 {
      CountPositive(b[..|b| - 1], j);
    }
  }

  lemma {:induction false} CountZero(b: Bits)
    ensures Count(b) == 0 <==> forall j :: 0 <= j < |b| ==> !b[j]
  {
    if b != [] {
      CountZero(b[..|b| - 1]);
      assert forall j :: 0 <= j < |b| - 1 ==> b[..|b| - 1][j] == b[j];
    }
  }

  /** Does a claim of `sender` with configEpoch e take over a slot of owner o? */
  predicate Takes(o: Owner, known: map<Id, nat>, sender: Id, e: nat) {
    o != Node(sender) && (o == Nobody || (o.id in known && known[o.id] < e))
  }

  function Rebound(o: Owner, known: map<Id, nat>, importing: bool, sender: Id, e: nat): Owner {
    if !importing && Takes(o, known, sender, e) then Node(sender) else o
  }

  /** The table after clusterUpdateSlotsConfigWith. */
  function Rebind(t: Table, known: map<Id, nat>, importing: Bits, sender: Id, e: nat, claim: Bits): (r: Table)
    requires |importing| == |claim| == |t|
    ensures |r| == |t|
  {
    seq(|t|, j requires 0 <= j < |t| =>
      if claim[j] then Rebound(t[j], known, importing[j], sender, e) else t[j])
  }

  /** Which slots change hands when `sender` claims some with configEpoch e, and may: exactly those it claims
      and does not own, that are not being imported, and that are free or owned under a smaller epoch. */
  ghost predicate Moved(was: Table, now: Table, known: map<Id, nat>, importing: Table, may: bool, sender: Id, e: nat, claim: Bits) {
    && |was| == |now| == |importing| == |claim|
    && (forall j :: 0 <= j < |was| && importing[j] != Nobody ==> now[j] == was[j])
    && (forall j :: 0 <= j < |was| ==>
          (now[j] != was[j] <==> may && claim[j] && importing[j] == Nobody && was[j] != Node(sender)
                                 && (was[j] == Nobody || (was[j].id in known && known[was[j].id] < e))))
    && (forall j :: 0 <= j < |was| && now[j] != was[j] ==> now[j] == Node(sender))
  }

  lemma NoneMoved(t: Table, known: map<Id, nat>, importing: Table, sender: Id, e: nat, claim: Bits)
    requires |importing| == |claim| == |t|
    ensures Moved(t, t, known, importing, false, sender, e, claim)
  {
  }

  lemma RebindMoves(t: Table, known: map<Id, nat>, importing: Table, sender: Id, e: nat, claim: Bits)
    requires |importing| == |claim| == |t|
    ensures Moved(t, Rebind(t, known, Marked(importing), sender, e, claim), known, importing, true, sender, e, claim)
  {
  }

  /** The memcmp shortcut of clusterProcessPacket: claims equal to the bitmap already known are skipped. */
  lemma KnownClaimsChangeNothing(t: Table, known: map<Id, nat>, importing: Bits, sender: Id, e: nat)
    requires |importing| == |t|
    ensures Rebind(t, known, importing, sender, e, BitsOf(t, sender)) == t
  {
  }

  /** What a node believes: the slot table and the configEpoch of every node it knows. */
  datatype View = View(slots: Table, known: map<Id, nat>)

  function Max(a: nat, b: nat): nat { if a < b then b else a }

  /** The header of every packet updates the sender's configEpoch. */
  function Header(known: map<Id, nat>, src: Id, e: nat): map<Id, nat> {
    if src in known then known[src := Max(known[src], e)] else known
  }

  /** A PING or PONG of the master `src`, claiming slots with configEpoch e. */
  function OnPing(v: View, importing: Bits, src: Id, e: nat, claim: Bits): View
    requires |importing| == |claim| == |v.slots|
  {
    var known := Header(v.known, src, e);
    if src in known then View(Rebind(v.slots, known, importing, src, e, claim), known) else View(v.slots, known)
  }

  /** An UPDATE of `src`, whose configEpoch is se, about another node. */
  function OnUpdate(v: View, importing: Bits, src: Id, se: nat, about: Id, e: nat, claim: Bits): View
    requires |importing| == |claim| == |v.slots|
  {
    var known := Header(v.known, src, se);
    if src !in known || about !in known || known[about] >= e then View(v.slots, known)
    else
      var known' := known[about := e];
      View(Rebind(v.slots, known', importing, about, e, claim), known')
  }

  /** The first k entries of a table with node n taken out. */
  function Without(t: Table, n: Id, k: nat): (r: Table)
    requires k <= |t|
    ensures |r| == |t|
  {
    seq(|t|, j requires 0 <= j < |t| => if j < k && t[j] == Node(n) then Nobody else t[j])
  }

  lemma WithoutNone(t: Table, n: Id)
    ensures Without(t, n, 0) == t
  {
  }

  lemma WithoutOne(t: Table, n: Id, k: nat)
    requires k < |t|
    ensures Without(t, n, k)[k] == t[k]
    ensures Without(t, n, k + 1) == if t[k] == Node(n) then Without(t, n, k)[k := Nobody] else Without(t, n, k)
  {
  }

  lemma WithoutAll(t: Table, n: Id)
    ensures forall j :: 0 <= j < |t| ==> Without(t, n, |t|)[j] != Node(n)
  {
  }

  /** Did one of the first k slots leave node n? */
  predicate Left(t: Table, t': Table, n: Id, k: nat)
    requires k <= |t| == |t'|
  {
    exists j :: 0 <= j < k && t[j] == Node(n) && t'[j] != Node(n)
  }

  /** The slots below k that left n although they hold keys, in ascending order. */
  function Dirty(t: Table, t': Table, n: Id, keys: seq<nat>, k: nat): seq<nat>
    requires k <= |t| == |t'| == |keys|
  {
    if k == 0 then []
    else Dirty(t, t', n, keys, k - 1) + if t[k - 1] == Node(n) && t'[k - 1] != Node(n) && keys[k - 1] > 0 then [k - 1] else []
  }

  lemma {:induction false} DirtyIs(t: Table, t': Table, n: Id, keys: seq<nat>, k: nat)
    requires k <= |t| == |t'| == |keys|
    ensures var r := Dirty(t, t', n, keys, k);
      && (forall j :: j in r <==> 0 <= j < k && t[j] == Node(n) && t'[j] != Node(n) && keys[j] > 0)
      && (forall i, j :: 0 <= i < j < |r| ==> r[i] < r[j])
  {
    if k > 0 {
      DirtyIs(t, t', n, keys, k - 1);
      var r := Dirty(t, t', n, keys, k - 1);
      assert forall i :: 0 <= i < |r| ==> r[i] in r;
    }
  }

  lemma {:induction false} NothingLeft(t: Table, n: Id, me: Id, keys: seq<nat>, k: nat)
    requires k <= |t| == |keys|
    ensures !Left(t, t, n, k) && Dirty(t, t, me, keys, k) == []
  {
    if k > 0 {
      NothingLeft(t, n, me, keys, k - 1);
    }
  }

  lemma NothingYet(t: Table, t': Table, n: Id, me: Id, keys: seq<nat>)
    requires |t| == |t'| == |keys|
    ensures !Left(t, t', n, 0) && Dirty(t, t', me, keys, 0) == []
  {
  }

  lemma OneMore(t: Table, t': Table, n: Id, me: Id, keys: seq<nat>, k: nat)
    requires k < |t| == |t'| == |keys|
    ensures Left(t, t', n, k + 1) == (Left(t, t', n, k) || (t[k] == Node(n) && t'[k] != Node(n)))
    ensures Dirty(t, t', me, keys, k + 1)
         == Dirty(t, t', me, keys, k) + if t[k] == Node(me) && t'[k] != Node(me) && keys[k] > 0 then [k] else []
  {
  }

  lemma RebindAt(t: Table, known: map<Id, nat>, importing: Bits, sender: Id, e: nat, claim: Bits, j: nat)
    requires |importing| == |claim| == |t| && j < |t|
    ensures Rebind(t, known, importing, sender, e, claim)[j]
         == if claim[j] then Rebound(t[j], known, importing[j], sender, e) else t[j]
  {
  }

  class Cluster {
    var slots: Table              // server.cluster->slots
    var bits: map<Id, Bits>       // node->slots
    var num: map<Id, nat>         // node->numslots
    var epoch: map<Id, nat>       // node->configEpoch
    var importing: Table          // importing_slots_from
    var migrating: Table          // migrating_slots_to

    /** Sizes, and numslots is the number of set bits. */
    ghost predicate Shape()
      reads this
    {
      && |slots| == |importing| == |migrating| == SLOTS && bits.Keys == num.Keys == epoch.Keys
      && (forall n :: n in bits ==> |bits[n]| == SLOTS && num[n] == Count(bits[n]))
    }

    /** slots[j] is n exactly when bit j of n is set. */
    ghost predicate Agrees()
      reads this
    {
      && Shape()
      && (forall j :: 0 <= j < SLOTS && slots[j].Node? ==> slots[j].id in bits)
      && (forall n, j :: n in bits && 0 <= j < SLOTS ==> (bits[n][j] <==> slots[j] == Node(n)))
    }

    constructor (nodes: set<Id>)
      ensures Agrees() && bits.Keys == nodes && slots == importing == migrating == seq(SLOTS, _ => Nobody)
      ensures epoch == map n | n in nodes :: 0
    {
      slots, importing, migrating := seq(SLOTS, _ => Nobody), seq(SLOTS, _ => Nobody), seq(SLOTS, _ => Nobody);
      bits, num, epoch := map n | n in nodes :: seq(SLOTS, _ => false), map n | n in nodes :: 0, map n | n in nodes :: 0;
      NoneSet(SLOTS);
    }

    static lemma {:induction false} NoneSet(n: nat)
      ensures Count(seq(n, _ => false)) == 0
    {
      if n > 0 {
        NoneSet(n - 1);
        assert seq(n, _ => false)[..n - 1] == seq(n - 1, _ => false);
      }
    }

    method SetSlotBit(n: Id, j: nat) returns (was: bool)
      requires Shape() && n in bits && j < SLOTS
      modifies this`bits, this`num
      ensures Shape() && was == old(bits[n][j]) && bits == old(bits)[n := old(bits[n])[j := true]]
    {
      was := bits[n][j];
      CountUpdate(bits[n], j, true);
      bits := bits[n := bits[n][j := true]];
      if !was {
        num := num[n := num[n] + 1];
      }
    }

    method ClearSlotBit(n: Id, j: nat) returns (was: bool)
      requires Shape() && n in bits && j < SLOTS
      modifies this`bits, this`num
      ensures Shape() && was == old(bits[n][j]) && bits == old(bits)[n := old(bits[n])[j := false]]
    {
      was := bits[n][j];
      CountUpdate(bits[n], j, false);
      if was {
        CountPositive(bits[n], j);
        num := num[n := num[n] - 1];
      }
      bits := bits[n := bits[n][j := false]];
    }

    method AddSlot(n: Id, j: nat) returns (ok: bool)
      requires Agrees() && n in bits && j < SLOTS
      modifies this`slots, this`bits, this`num
      ensures Agrees() && bits.Keys == old(bits.Keys)
      ensures ok == (old(slots[j]) == Nobody)
      ensures slots == if ok then old(slots)[j := Node(n)] else old(slots)
    {
      if slots[j] != Nobody {
        return false;
      }
      var _ := SetSlotBit(n, j);
      slots := slots[j := Node(n)];
      ok := true;
    }

    /** The assertion of the source, that the owner's bit was set, is the `assert` in the body. */
    method DelSlot(j: nat) returns (ok: bool)
      requires Agrees() && j < SLOTS
      modifies this`slots, this`bits, this`num
      ensures Agrees() && bits.Keys == old(bits.Keys)
      ensures ok == (old(slots[j]) != Nobody) && slots == old(slots)[j := Nobody]
    {
      if slots[j] == Nobody {
        assert slots == slots[j := Nobody];
        return false;
      }
      var was := ClearSlotBit(slots[j].id, j);
      assert was;
      slots := slots[j := Nobody];
      ok := true;
    }

    /** clusterDelSlot followed by clusterAddSlot. */
    method MoveSlot(j: nat, n: Id)
      requires Agrees() && n in bits && j < SLOTS
      modifies this`slots, this`bits, this`num
      ensures Agrees() && bits.Keys == old(bits.Keys) && slots == old(slots)[j := Node(n)]
    {
      var _ := DelSlot(j);
      var _ := AddSlot(n, j);
    }

    /** Every slot of the node is freed.  The result is SLOTS whatever the number of slots freed. */
    method DelNodeSlots(n: Id) returns (deleted: nat)
      requires Agrees() && n in bits
      modifies this`slots, this`bits, this`num
      ensures Agrees() && bits.Keys == old(bits.Keys)
      ensures forall j :: 0 <= j < SLOTS ==> slots[j] == if old(slots[j]) == Node(n) then Nobody else old(slots[j])
      ensures deleted == SLOTS
    {
      deleted := 0;
      for j := 0 to SLOTS
        invariant Agrees() && bits.Keys == old(bits.Keys) && deleted == j
        invariant forall k :: 0 <= k < SLOTS ==> slots[k] == if k < j && old(slots[k]) == Node(n) then Nobody else old(slots[k])
      {
        if bits[n][j] {
          var _ := DelSlot(j);
        }
        deleted := deleted + 1;
      }
    }

    /** clusterDelNode: slots and marks of the node are dropped, then the node itself. */
    method DelNode(n: Id)
      requires Agrees() && n in bits
      modifies this
      ensures Agrees() && bits.Keys == old(bits.Keys) - {n} && epoch == old(epoch) - {n}
      ensures slots == Without(old(slots), n, SLOTS)
      ensures importing == Without(old(importing), n, SLOTS) && migrating == Without(old(migrating), n, SLOTS)
    {
      hide Agrees, Shape, Without;
      Sizes();
      WithoutNone(slots, n);
      WithoutNone(importing, n);
      WithoutNone(migrating, n);
      for j := 0 to SLOTS
        invariant Agrees() && bits.Keys == old(bits.Keys) && epoch == old(epoch) && |slots| == |importing| == |migrating| == SLOTS
        invariant slots == Without(old(slots), n, j)
        invariant importing == Without(old(importing), n, j) && migrating == Without(old(migrating), n, j)
      {
        WithoutOne(old(slots), n, j);
        WithoutOne(old(importing), n, j);
        WithoutOne(old(migrating), n, j);
        if importing[j] == Node(n) {
          SetMarks(importing[j := Nobody], migrating);
        }
        if migrating[j] == Node(n) {
          SetMarks(importing, migrating[j := Nobody]);
        }
        if slots[j] == Node(n) {
          var _ := DelSlot(j);
        }
      }
      WithoutAll(old(slots), n);
      FreeNode(n);
    }

    method SetMarks(i: Table, m: Table)
      requires Agrees() && |i| == |m| == SLOTS
      modifies this`importing, this`migrating
      ensures Agrees() && importing == i && migrating == m
    {
      importing, migrating := i, m;
    }

    /** freeClusterNode, for a node that owns no slot. */
    method FreeNode(n: Id)
      requires Agrees() && n in bits && |slots| == SLOTS && forall j :: 0 <= j < SLOTS ==> slots[j] != Node(n)
      modifies this`bits, this`num, this`epoch
      ensures Agrees() && bits == old(bits) - {n} && epoch == old(epoch) - {n}
    {
      bits, num, epoch := bits - {n}, num - {n}, epoch - {n};
    }

    /** One slot that the sender claims, in the loop of clusterUpdateSlotsConfigWith. */
    method ClaimSlot(j: nat, me: Id, cur: Id, keys: nat, sender: Id, e: nat) returns (gone: bool, dirty: bool)
      requires Agrees() && j < SLOTS && sender in bits && sender != me
      modifies this`slots, this`bits, this`num
      ensures Agrees() && bits.Keys == old(bits.Keys)
      ensures slots == old(slots)[j := Rebound(old(slots[j]), epoch, importing[j] != Nobody, sender, e)]
      ensures importing[j] != Nobody ==> slots == old(slots)
      ensures var o := old(slots[j]);
        slots[j] != o <==> importing[j] == Nobody && o != Node(sender) && (o == Nobody || (o.id in epoch && epoch[o.id] < e))
      ensures slots[j] != old(slots[j]) ==> slots[j] == Node(sender)
      ensures gone == (old(slots[j]) == Node(cur) && slots[j] != Node(cur))
      ensures dirty == (old(slots[j]) == Node(me) && slots[j] != Node(me) && keys > 0)
    {
      gone, dirty := false, false;
      assert slots == slots[j := slots[j]];
      if slots[j] == Node(sender) || importing[j] != Nobody {
        return;
      }
      if slots[j] == Nobody || epoch[slots[j].id] < e {
        dirty := slots[j] == Node(me) && keys > 0;
        gone := slots[j] == Node(cur);
        MoveSlot(j, sender);
      }
    }

    lemma Sizes()
      requires Agrees()
      ensures |slots| == |importing| == |migrating| == SLOTS
    {
    }

    /** The loop of clusterUpdateSlotsConfigWith.  `cur` is myself or my master, `keys[j]` the number of
        keys in slot j: `lost` says a slot moved away from cur and dirty lists the slots of mine that
        moved with keys in them.  Claims about myself are discarded. */
    method UpdateSlotsConfigWith(me: Id, cur: Id, keys: seq<nat>, sender: Id, e: nat, claim: Bits) returns (lost: bool, dirty: seq<nat>)
      requires Agrees() && sender in bits && |claim| == |keys| == SLOTS
      modifies this`slots, this`bits, this`num
      ensures Agrees() && bits.Keys == old(bits.Keys)
      ensures slots == if sender == me then old(slots) else Rebind(old(slots), epoch, Marked(importing), sender, e, claim)
      ensures Moved(old(slots), slots, epoch, importing, sender != me, sender, e, claim)
      ensures lost == Left(old(slots), slots, cur, SLOTS) && dirty == Dirty(old(slots), slots, me, keys, SLOTS)
    {
      hide Shape, Agrees, Rebound, Rebind, Left, Dirty;
      Sizes();
      RebindMoves(slots, epoch, importing, sender, e, claim);
      ghost var was, goal := slots, Rebind(slots, epoch, Marked(importing), sender, e, claim);
      lost, dirty := false, [];
      if sender == me {
        NothingLeft(was, cur, me, keys, SLOTS);
        return;
      }
      NothingYet(was, goal, cur, me, keys);
      for j := 0 to SLOTS
        invariant Agrees() && bits.Keys == old(bits.Keys) && |slots| == SLOTS
        invariant forall k :: 0 <= k < SLOTS ==> slots[k] == if k < j then goal[k] else was[k]
        invariant lost == Left(was, goal, cur, j) && dirty == Dirty(was, goal, me, keys, j)
      {
        OneMore(was, goal, cur, me, keys, j);
        RebindAt(was, epoch, Marked(importing), sender, e, claim, j);
        if claim[j] {
          var gone, keysLeft := ClaimSlot(j, me, cur, keys[j], sender, e);
          dirty := dirty + if keysLeft then [j] else [];
          lost := lost || gone;
        }
      }
      assert slots == goal;
    }

    /** The end of clusterUpdateSlotsConfigWith: I follow the sender exactly when the last slot is gone. */
    method MustFollow(lost: bool, cur: Id) returns (follow: bool)
      requires Agrees() && cur in bits
      ensures follow <==> lost && forall j :: 0 <= j < SLOTS ==> slots[j] != Node(cur)
    {
      CountZero(bits[cur]);
      follow := lost && num[cur] == 0;
      if !follow && lost {
        var j :| 0 <= j < SLOTS && bits[cur][j];
        assert slots[j] == Node(cur);
      }
    }

    ghost function Now(): View
      reads this
    {
      View(slots, epoch)
    }

    method ReceiveHeader(src: Id, e: nat)
      requires Agrees()
      modifies this`epoch
      ensures Agrees() && epoch == Header(old(epoch), src, e)
      ensures epoch.Keys == old(epoch.Keys) && forall n :: n in epoch && n != src ==> epoch[n] == old(epoch)[n]
      ensures src in epoch ==> epoch[src] >= old(epoch)[src] && epoch[src] >= e && epoch[src] in {old(epoch)[src], e}
    {
      if src in epoch && e > epoch[src] {
        epoch := epoch[src := e];
      }
    }

    method SetEpoch(n: Id, e: nat)
      requires Agrees() && n in epoch
      modifies this`epoch
      ensures Agrees() && epoch == old(epoch)[n := e]
    {
      epoch := epoch[n := e];
    }

    lemma SameKeys()
      requires Agrees()
      ensures bits.Keys == epoch.Keys
    {
    }

    /** The slot part of clusterProcessPacket for a PING, with its shortcut. */
    method ReceivePing(me: Id, cur: Id, keys: seq<nat>, src: Id, e: nat, claim: Bits) returns (lost: bool, dirty: seq<nat>)
      requires Agrees() && |claim| == |keys| == SLOTS
      modifies this`slots, this`bits, this`num, this`epoch
      ensures Agrees() && bits.Keys == old(bits.Keys)
      ensures Now() == if src == me then View(old(slots), Header(old(epoch), src, e)) else OnPing(old(Now()), Marked(importing), src, e, claim)
      ensures Moved(old(slots), slots, epoch, importing, src in old(epoch) && src != me, src, e, claim)
      ensures lost == Left(old(slots), slots, cur, SLOTS) && dirty == Dirty(old(slots), slots, me, keys, SLOTS)
    {
      hide Moved, Agrees, Shape, Rebind, Left, Dirty, Marked, BitsOf;
      Sizes();
      SameKeys();
      lost, dirty := false, [];
      NothingLeft(slots, cur, me, keys, SLOTS);
      ReceiveHeader(src, e);
      NoneMoved(slots, epoch, importing, src, e, claim);
      if src in epoch {
        if bits[src] == claim {
          OwnBits(src);
          KnownClaimsChangeNothing(slots, epoch, Marked(importing), src, e);
          RebindMoves(slots, epoch, importing, src, e, claim);
        } else {
          lost, dirty := UpdateSlotsConfigWith(me, cur, keys, src, e, claim);
        }
      }
    }

    lemma OwnBits(n: Id)
      requires Agrees() && n in bits
      ensures bits[n] == BitsOf(slots, n)
    {
    }

    method ReceiveUpdate(me: Id, cur: Id, keys: seq<nat>, src: Id, se: nat, about: Id, e: nat, claim: Bits)
      returns (lost: bool, dirty: seq<nat>)
      requires Agrees() && |claim| == |keys| == SLOTS
      modifies this`slots, this`bits, this`num, this`epoch
      ensures Agrees() && bits.Keys == old(bits.Keys)
      ensures about == me ==> slots == old(slots) && epoch == OnUpdate(old(Now()), Marked(importing), src, se, about, e, claim).known
      ensures about != me ==> Now() == OnUpdate(old(Now()), Marked(importing), src, se, about, e, claim)
      ensures Moved(old(slots), slots, epoch, importing,
                    {src, about} <= old(epoch.Keys) && about != me && old(epoch)[about] < e && (about == src ==> se < e), about, e, claim)
      ensures lost == Left(old(slots), slots, cur, SLOTS) && dirty == Dirty(old(slots), slots, me, keys, SLOTS)
    {
      hide Moved, Agrees, Shape, Rebind, Left, Dirty, Marked;
      Sizes();
      NothingLeft(slots, cur, me, keys, SLOTS);
      SameKeys();
      lost, dirty := false, [];
      ReceiveHeader(src, se);
      if src !in epoch || about !in epoch || epoch[about] >= e {
        NoneMoved(slots, epoch, importing, about, e, claim);
        return;
      }
      SetEpoch(about, e);
      lost, dirty := UpdateSlotsConfigWith(me, cur, keys, about, e, claim);
    }

    /** clusterFailoverReplaceYourMaster: the promoted slave takes every slot of its master. */
    method ReplaceMaster(me: Id, master: Id)
      requires Agrees() && {me, master} <= bits.Keys && me != master
      modifies this`slots, this`bits, this`num
      ensures Agrees() && bits.Keys == old(bits.Keys)
      ensures forall j :: 0 <= j < SLOTS ==> slots[j] == if old(slots[j]) == Node(master) then Node(me) else old(slots[j])
    {
      for j := 0 to SLOTS
        invariant Agrees() && bits.Keys == old(bits.Keys)
        invariant forall k :: 0 <= k < SLOTS ==>
          slots[k] == if k < j && old(slots[k]) == Node(master) then Node(me) else old(slots[k])
      {
        if bits[master][j] {
          MoveSlot(j, me);
        }
      }
    }
  }

  // ------------------------------------------------------------ agreement by gossip

  /** Masters with fixed slot sets and distinct, nonzero configEpochs. */
  datatype Config = Config(epoch: map<Id, nat>, claim: map<Id, Bits>) {
    ghost predicate Proper() {
      && epoch.Keys == claim.Keys
      && (forall x :: x in epoch ==> epoch[x] > 0 && |claim[x]| == SLOTS)
      && (forall x, y :: x in epoch && y in epoch && epoch[x] == epoch[y] ==> x == y)
    }
  }

  datatype Msg = Ping(src: Id) | Update(src: Id, about: Id)

  ghost predicate Known(c: Config, ms: seq<Msg>) {
    forall k :: 0 <= k < |ms| ==> ms[k].src in c.epoch && (ms[k].Update? ==> ms[k].about in c.epoch)
  }

  /** An observer that starts with an empty table and imports nothing, after the messages ms. */
  ghost function After(c: Config, ms: seq<Msg>): (v: View)
    requires c.Proper() && Known(c, ms)
    ensures |v.slots| == SLOTS && v.known.Keys == c.epoch.Keys
  {
    if ms == [] then View(seq(SLOTS, _ => Nobody), map x | x in c.epoch :: 0)
    else React(c, After(c, ms[..|ms| - 1]), ms[|ms| - 1])
  }

  ghost function React(c: Config, v: View, m: Msg): (v': View)
    requires c.Proper() && |v.slots| == SLOTS && v.known.Keys == c.epoch.Keys
    requires m.src in c.epoch && (m.Update? ==> m.about in c.epoch)
    ensures |v'.slots| == SLOTS && v'.known.Keys == c.epoch.Keys
  {
    var none := seq(SLOTS, _ => false);
    match m
    case Ping(x) => OnPing(v, none, x, c.epoch[x], c.claim[x])
    case Update(x, y) => OnUpdate(v, none, x, c.epoch[x], y, c.epoch[y], c.claim[y])
  }

  /** Whose configEpoch the observer knows. */
  ghost function Heard(ms: seq<Msg>): set<Id> {
    (set m | m in ms :: m.src) + (set m | m in ms && m.Update? :: m.about)
  }

  /** Whose claims the observer has taken in: an UPDATE about y is dropped when y has been heard of. */
  ghost function Learned(ms: seq<Msg>): set<Id> {
    if ms == [] then {}
    else
      var before, m := ms[..|ms| - 1], ms[|ms| - 1];
      if m.Ping? then Learned(before) + {m.src}
      else if m.about !in Heard(before) && m.about != m.src then Learned(before) + {m.about}
      else Learned(before)
  }

  /** o is the member of `who` that claims slot j with the greatest epoch, or nobody claims it. */
  ghost predicate IsBest(c: Config, who: set<Id>, j: nat, o: Owner)
    requires c.Proper() && j < SLOTS && who <= c.epoch.Keys
  {
    match o
    case Nobody => forall y :: y in who ==> !c.claim[y][j]
    case Node(x) => x in who && c.claim[x][j] && forall y :: y in who && c.claim[y][j] ==> c.epoch[y] <= c.epoch[x]
  }

  lemma OneIsBest(c: Config, who: set<Id>, j: nat, o: Owner, o': Owner)
    requires c.Proper() && j < SLOTS && who <= c.epoch.Keys && IsBest(c, who, j, o) && IsBest(c, who, j, o')
    ensures o == o'
  {
  }

  /** The observer knows the epochs it has heard of, and its table is the best of the claims learned. */
  ghost predicate Sound(c: Config, v: View, heard: set<Id>, learned: set<Id>)
    requires c.Proper()
  {
    && v.known.Keys == c.epoch.Keys && |v.slots| == SLOTS && learned <= heard <= c.epoch.Keys
    && (forall x :: x in v.known ==> v.known[x] == if x in heard then c.epoch[x] else 0)
    && (forall j :: 0 <= j < SLOTS ==> IsBest(c, learned, j, v.slots[j]))
  }

  /** Taking in the claim of x. */
  lemma Learns(c: Config, t: Table, known: map<Id, nat>, heard: set<Id>, learned: set<Id>, x: Id)
    requires c.Proper() && x in c.epoch && Sound(c, View(t, known), heard, learned) && x in heard
    ensures Sound(c, View(Rebind(t, known, seq(SLOTS, _ => false), x, c.epoch[x], c.claim[x]), known), heard, learned + {x})
  {
  }

  lemma Hears(c: Config, v: View, heard: set<Id>, learned: set<Id>, x: Id)
    requires c.Proper() && x in c.epoch && Sound(c, v, heard, learned)
    ensures Sound(c, View(v.slots, Header(v.known, x, c.epoch[x])), heard + {x}, learned)
    ensures x !in heard ==> Header(v.known, x, c.epoch[x]) == v.known[x := c.epoch[x]]
  {
  }

  lemma ReactKeeps(c: Config, v: View, heard: set<Id>, learned: set<Id>, m: Msg)
    requires c.Proper() && Sound(c, v, heard, learned)
    requires m.src in c.epoch && (m.Update? ==> m.about in c.epoch)
    ensures m.Ping? ==> Sound(c, React(c, v, m), heard + {m.src}, learned + {m.src})
    ensures m.Update? ==> Sound(c, React(c, v, m), heard + {m.src} + {m.about},
                                if m.about !in heard && m.about != m.src then learned + {m.about} else learned)
  {
    var x := m.src;
    Hears(c, v, heard, learned, x);
    var known := Header(v.known, x, c.epoch[x]);
    var heard' := heard + {x};
    if m.Ping? {
      hide Sound, Rebind;
      Learns(c, v.slots, known, heard', learned, x);
    } else {
      var y := m.about;
      if y in heard' {
        assert heard' + {y} == heard';
      } else {
        assert known[y] == 0;
        Hears(c, View(v.slots, known), heard', learned, y);
        hide Sound, Rebind;
        Learns(c, v.slots, known[y := c.epoch[y]], heard' + {y}, learned, y);
      }
    }
  }

  lemma HeardMore(ms: seq<Msg>)
    requires ms != []
    ensures var m := ms[|ms| - 1];
      Heard(ms) == Heard(ms[..|ms| - 1]) + {m.src} + if m.Update? then {m.about} else {}
  {
  }

  /** Whatever the order and however often claims are repeated, each slot ends up with the claimant of
      greatest epoch among those whose claims were taken in. */
  lemma {:induction false} Converges(c: Config, ms: seq<Msg>)
    requires c.Proper() && Known(c, ms)
    ensures Sound(c, After(c, ms), Heard(ms), Learned(ms))
  {
    if ms != [] {
      var before, m := ms[..|ms| - 1], ms[|ms| - 1];
      Converges(c, before);
      HeardMore(ms);
      hide Heard, Sound, React;
      assert Heard(before) + {m.src} + {} == Heard(before) + {m.src};
      ReactKeeps(c, After(c, before), Heard(before), Learned(before), m);
    }
  }

  /** Exactly whose claims are taken in: those that pinged, and those about whom an UPDATE arrived
      before any packet of their own (the UPDATE itself included). */
  ghost predicate Reported(ms: seq<Msg>, y: Id) {
    || Ping(y) in ms
    || exists k :: 0 <= k < |ms| && ms[k].Update? && ms[k].about == y && forall i :: 0 <= i <= k ==> ms[i].src != y
  }

  lemma {:induction false} LearnedExactly(ms: seq<Msg>, y: Id)
    ensures y in Learned(ms) <==> Reported(ms, y)
  {
    if ms != [] {
      var before, m := ms[..|ms| - 1], ms[|ms| - 1];
      LearnedExactly(before, y);
      assert ms == before + [m];
      if m == Update(m.src, y) && m.src != y && y !in Heard(before) {
        assert ms[|ms| - 1].about == y;
        assert forall i :: 0 <= i < |ms| ==> ms[i].src != y by {
          assert forall i :: 0 <= i < |before| ==> before[i] in before && ms[i] == before[i];
        }
      }
    }
  }

  /** The same packets, in any order and with any repetitions. */
  ghost predicate SamePackets(ms: seq<Msg>, ms': seq<Msg>) {
    forall m :: m in ms <==> m in ms'
  }

  /** y pings, or another node talks about it. */
  ghost predicate Mentioned(ms: seq<Msg>, y: Id) {
    Ping(y) in ms || exists m :: m in ms && m.Update? && m.about == y && m.src != y
  }

  /** Another node talks about y, and y sends packets itself, but no PING. */
  ghost predicate Unsettled(ms: seq<Msg>, y: Id) {
    && Ping(y) !in ms && (exists m :: m in ms && m.src == y)
    && exists m :: m in ms && m.Update? && m.about == y && m.src != y
  }

  lemma OnlyMentioned(ms: seq<Msg>, y: Id)
    ensures y in Learned(ms) ==> Mentioned(ms, y)
    ensures Mentioned(ms, y) && !Unsettled(ms, y) ==> y in Learned(ms)
  {
    LearnedExactly(ms, y);
    hide Learned;
    if Mentioned(ms, y) && !Unsettled(ms, y) && Ping(y) !in ms {
      var m :| m in ms && m.Update? && m.about == y && m.src != y;
      var k :| 0 <= k < |ms| && ms[k] == m;
      assert forall i :: 0 <= i <= k ==> ms[i] in ms;
    }
  }

  /** The nodes whose claims may be taken in. */
  ghost function Candidates(ms: seq<Msg>): set<Id> {
    set y | y in Heard(ms) && Mentioned(ms, y)
  }

  lemma CandidatesAre(c: Config, ms: seq<Msg>)
    requires c.Proper() && Known(c, ms)
    ensures Learned(ms) <= Candidates(ms) <= c.epoch.Keys
    ensures forall y :: y in Candidates(ms) <==> Mentioned(ms, y)
  {
    Converges(c, ms);
    forall y
      ensures y in Learned(ms) ==> y in Candidates(ms)
      ensures Mentioned(ms, y) ==> y in Heard(ms)
    {
      OnlyMentioned(ms, y);
    }
  }

  lemma SameCandidates(c: Config, ms: seq<Msg>, ms': seq<Msg>)
    requires c.Proper() && Known(c, ms) && SamePackets(ms, ms')
    ensures Known(c, ms') && Candidates(ms') == Candidates(ms)
    ensures forall y :: Unsettled(ms', y) <==> Unsettled(ms, y)
  {
    assert Known(c, ms') by {
      assert forall k :: 0 <= k < |ms'| ==> ms'[k] in ms;
    }
    CandidatesAre(c, ms);
    CandidatesAre(c, ms');
    assert forall y :: Mentioned(ms, y) <==> Mentioned(ms', y);
  }

  /** Some claimant of a slot is the best, if there is one at all. */
  lemma {:induction false} BestExists(c: Config, who: set<Id>, j: nat) returns (o: Owner)
    requires c.Proper() && j < SLOTS && who <= c.epoch.Keys
    ensures IsBest(c, who, j, o)
    decreases |who|
  {
    if who == {} {
      o := Nobody;
    } else {
      var x :| x in who;
      o := BestExists(c, who - {x}, j);
      if c.claim[x][j] && (o == Nobody || c.epoch[o.id] < c.epoch[x]) {
        o := Node(x);
      }
    }
  }

  /** Of every slot the best claimant among the candidates, if there is one, pings or keeps silent. */
  ghost predicate Settled(c: Config, ms: seq<Msg>)
    requires c.Proper() && Candidates(ms) <= c.epoch.Keys
  {
    forall j, y :: 0 <= j < SLOTS && IsBest(c, Candidates(ms), j, Node(y)) ==> !Unsettled(ms, y)
  }

  lemma BestIsTaken(c: Config, ms: seq<Msg>, j: nat, o: Owner)
    requires c.Proper() && Known(c, ms) && j < SLOTS && Candidates(ms) <= c.epoch.Keys
    requires IsBest(c, Candidates(ms), j, o) && (o.Node? ==> !Unsettled(ms, o.id))
    ensures After(c, ms).slots[j] == o
  {
    hide After, Learned, Heard;
    CandidatesAre(c, ms);
    Converges(c, ms);
    if o.Node? {
      OnlyMentioned(ms, o.id);
    }
    assert IsBest(c, Learned(ms), j, o);
    OneIsBest(c, Learned(ms), j, After(c, ms).slots[j], o);
  }

  /** Then all orders give the same table. */
  lemma OrderIndependent(c: Config, ms: seq<Msg>, ms': seq<Msg>)
    requires c.Proper() && Known(c, ms) && Known(c, ms') && SamePackets(ms, ms')
    requires Candidates(ms) <= c.epoch.Keys && Settled(c, ms)
    ensures After(c, ms).slots == After(c, ms').slots
  {
    SameCandidates(c, ms, ms');
    var t, t' := After(c, ms).slots, After(c, ms').slots;
    forall j | 0 <= j < SLOTS
      ensures t[j] == t'[j]
    {
      hide After, Candidates, Unsettled;
      var o := BestExists(c, Candidates(ms), j);
      BestIsTaken(c, ms, j, o);
      BestIsTaken(c, ms', j, o);
    }
  }

  /** With a report ahead of everything else the node's claims are taken in. */
  lemma ReportFirst(c: Config, ms: seq<Msg>, m: Msg, j: nat)
    requires c.Proper() && Known(c, ms) && j < SLOTS && Candidates(ms) <= c.epoch.Keys
    requires m in ms && m.Update? && m.src != m.about && IsBest(c, Candidates(ms), j, Node(m.about))
    ensures SamePackets(ms, [m] + ms) && Known(c, [m] + ms) && After(c, [m] + ms).slots[j] == Node(m.about)
  {
    hide After, Learned, Heard, Candidates, Mentioned, Reported, SamePackets;
    var early, y := [m] + ms, m.about;
    ReportIsLearned(ms, m);
    SameCandidates(c, ms, early);
    CandidatesAre(c, early);
    Converges(c, early);
    assert IsBest(c, Learned(early), j, Node(y));
    OneIsBest(c, Learned(early), j, After(c, early).slots[j], Node(y));
  }

  lemma ReportIsLearned(ms: seq<Msg>, m: Msg)
    requires m in ms && m.Update? && m.src != m.about
    ensures SamePackets(ms, [m] + ms) && m.about in Learned([m] + ms)
  {
    var early := [m] + ms;
    assert early[0] == m;
    LearnedExactly(early, m.about);
  }

  /** With a packet of its own, not a PING, ahead they never are. */
  lemma OwnPacketFirst(c: Config, ms: seq<Msg>, m: Msg, j: nat)
    requires c.Proper() && Known(c, ms) && j < SLOTS && m in ms && Ping(m.src) !in ms
    ensures SamePackets(ms, [m] + ms) && Known(c, [m] + ms) && After(c, [m] + ms).slots[j] != Node(m.src)
  {
    var late := [m] + ms;
    assert late[0] == m;
    assert Known(c, late);
    LearnedExactly(late, m.src);
    hide After, Learned, Heard, Reported;
    Converges(c, late);
  }

  /** Otherwise the order matters. */
  lemma OrderMatters(c: Config, ms: seq<Msg>, j: nat, y: Id) returns (early: seq<Msg>, late: seq<Msg>)
    requires c.Proper() && Known(c, ms) && j < SLOTS && Candidates(ms) <= c.epoch.Keys
    requires IsBest(c, Candidates(ms), j, Node(y)) && Unsettled(ms, y)
    ensures SamePackets(ms, early) && SamePackets(ms, late) && Known(c, early) && Known(c, late)
    ensures After(c, early).slots[j] == Node(y) != After(c, late).slots[j]
  {
    hide After, Candidates, SamePackets, Known, IsBest;
    var m :| m in ms && m.Update? && m.about == y && m.src != y;
    var m' :| m' in ms && m'.src == y;
    ReportFirst(c, ms, m, j);
    OwnPacketFirst(c, ms, m', j);
    early, late := [m] + ms, [m'] + ms;
  }

  /** The table does not depend on order and repetition exactly if Settled holds. */
  lemma OrderIndependentExactly(c: Config, ms: seq<Msg>)
    requires c.Proper() && Known(c, ms)
    ensures Candidates(ms) <= c.epoch.Keys
    ensures Settled(c, ms) <==> forall ms' :: SamePackets(ms, ms') && Known(c, ms') ==> After(c, ms').slots == After(c, ms).slots
  {
    CandidatesAre(c, ms);
    hide After, Candidates, Unsettled, SamePackets, Known;
    if Settled(c, ms) {
      forall ms' | SamePackets(ms, ms') && Known(c, ms')
        ensures After(c, ms').slots == After(c, ms).slots
      {
        OrderIndependent(c, ms, ms');
      }
    } else {
      var j, y :| 0 <= j < SLOTS && IsBest(c, Candidates(ms), j, Node(y)) && Unsettled(ms, y);
      var early, late := OrderMatters(c, ms, j, y);
      assert After(c, early).slots != After(c, late).slots;
    }
  }

  /** A slot only ever moves to a claim with a greater epoch. */
  lemma OwnersOnlyRise(c: Config, ms: seq<Msg>, k: nat, j: nat)
    requires c.Proper() && Known(c, ms) && k <= |ms| && j < SLOTS
    ensures var o, o' := After(c, ms[..k]).slots[j], After(c, ms).slots[j];
      o == o' || o == Nobody || (o' != Nobody && {o.id, o'.id} <= c.epoch.Keys && c.epoch[o.id] < c.epoch[o'.id])
  {
    Converges(c, ms[..k]);
    Converges(c, ms);
    LearnedGrows(ms, k);
  }

  lemma {:induction false} LearnedGrows(ms: seq<Msg>, k: nat)
    requires k <= |ms|
    ensures Learned(ms[..k]) <= Learned(ms)
  {
    if k == |ms| {
      assert ms[..k] == ms;
    } else {
      LearnedGrows(ms[..|ms| - 1], k);
      assert ms[..|ms| - 1][..k] == ms[..k];
    }
  }

  /** Two nodes that report each other and never ping. */
  lemma TwoReports(c: Config, x: Id, z: Id, j: nat)
    requires c.Proper() && {x, z} <= c.epoch.Keys && x != z && j < SLOTS && c.claim[x][j] && !c.claim[z][j]
    ensures After(c, [Update(z, x), Update(x, z)]).slots[j] == Node(x)
    ensures After(c, [Update(x, z), Update(z, x)]).slots[j] == Nobody
  {
    hide After, Learned;
    FirstReportWins(z, x);
    FirstReportWins(x, z);
    SlotAfter(c, [Update(z, x), Update(x, z)], {x}, j, Node(x));
    SlotAfter(c, [Update(x, z), Update(z, x)], {z}, j, Nobody);
  }

  /** The owner of a slot after the messages ms, given whose claims were taken in. */
  lemma SlotAfter(c: Config, ms: seq<Msg>, who: set<Id>, j: nat, o: Owner)
    requires c.Proper() && Known(c, ms) && Learned(ms) == who && who <= c.epoch.Keys && j < SLOTS && IsBest(c, who, j, o)
    ensures After(c, ms).slots[j] == o
  {
    hide After, Learned, Heard;
    Converges(c, ms);
    OneIsBest(c, who, j, After(c, ms).slots[j], o);
  }

  lemma FirstReportWins(x: Id, z: Id)
    requires x != z
    ensures Learned([Update(x, z), Update(z, x)]) == {z}
  {
    var ms := [Update(x, z), Update(z, x)];
    assert ms[..1] == [Update(x, z)] && ms[..1][..0] == [];
    assert Heard([]) == {} && Learned([]) == {};
    assert Learned(ms[..1]) == {z};
    assert x in Heard(ms[..1]) by {
      assert Update(x, z) in ms[..1];
    }
  }
}
