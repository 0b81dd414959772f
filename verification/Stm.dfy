/** The reader/writer spin lock (rwlock.h) and the reference-counted copies it guards (lua-stm.c), as
    threads that take one atomic step at a time. */
module Stm {
  type Tid = nat
  type Id = nat

  datatype Ref = Null | Copy(id: Id)

  datatype Op = Read | Update | Release | Forget

  datatype Pc =
    | Idle
    // stm_copy, inside rwlock_rlock
    | RSpin       // while (write)
    | RAdd        // read + 1
    | RCheck      // if (write)
    | RUndo       // read - 1, try again
    // stm_copy, holding the read lock
    | RLoad       // ret = obj->copy
    | RInc        // ret->reference + 1
    | RUnlock     // read - 1
    // lread
    | RCompare    // copy == lastcopy ?
    | RDrop       // release the copy just taken
    | RSwap       // release lastcopy
    | RKeep       // lastcopy = copy
    // stm_update
    | WLock       // test and set of write
    | WWait       // while (read)
    | WLoad       // oldcopy = obj->copy
    | WStore      // obj->copy = copy
    | WUnlock
    | WDrop       // release oldcopy
    // stm_release
    | VLock
    | VWait
    | VDrop       // release obj->copy
    | VClear      // obj->copy = NULL
    | VUnlock
    // ldeletereader
    | FDrop       // release lastcopy

  predicate HasWriteLock(pc: Pc) {
    pc.WWait? || pc.WLoad? || pc.WStore? || pc.WUnlock? || pc.VWait? || pc.VDrop? || pc.VClear? || pc.VUnlock?
  }

  /** Writing: past both loops of rwlock_wlock. */
  predicate Writing(pc: Pc) {
    pc.WLoad? || pc.WStore? || pc.WUnlock? || pc.VDrop? || pc.VClear? || pc.VUnlock?
  }

  /** Counted in lock->read. */
  predicate Counted(pc: Pc) {
    pc.RCheck? || pc.RUndo? || pc.RLoad? || pc.RInc? || pc.RUnlock?
  }

  /** Reading: past rwlock_rlock. */
  predicate Reading(pc: Pc) {
    pc.RLoad? || pc.RInc? || pc.RUnlock?
  }

  /** last: boxreader.lastcopy; temp: the copy taken by stm_copy or made by stm_update; prior: oldcopy;
      seen: the pointer just loaded from obj->copy; victim: a copy whose count this thread brought to 0
      and which it must free before anything else. */
  datatype Thread = Thread(pc: Pc, last: Ref, temp: Ref, prior: Ref, seen: Ref, victim: Ref)

  datatype Fate = Live | Dying(who: Tid) | Freed

  datatype Counter = Counter(refs: int, fate: Fate)

  datatype Holder = Nobody | By(t: Tid)

  /** The lock and obj->copy.  `holder` says who set the write flag; `linked` is false while obj->copy is
      a dead pointer inside stm_release. */
  datatype Shared = Shared(write: bool, holder: Holder, read: int, obj: Ref, linked: bool)

  datatype State = State(sh: Shared, copies: map<Id, Counter>, threads: map<Tid, Thread>)

  /** A thread starts an operation, or goes on by one atomic step; `addr` is the address of a new copy. */
  datatype Step = Begin(t: Tid, op: Op, addr: Id) | Go(t: Tid)

  // ------------------------------------------------------------ steps

  /** What a step does to the counter of a copy. */
  datatype Effect = Keep | Inc(r: Ref) | Dec(r: Ref)

  datatype Move = Move(th: Thread, sh: Shared, effect: Effect)

  /** The next atomic step of thread t. */
  function Next(th: Thread, t: Tid, sh: Shared): Move {
    match th.pc
    case Idle => Move(th, sh, Keep)
    case RSpin => Move(if sh.write then th else th.(pc := RAdd), sh, Keep)
    case RAdd => Move(th.(pc := RCheck), sh.(read := sh.read + 1), Keep)
    case RCheck => Move(th.(pc := if sh.write then RUndo else RLoad), sh, Keep)
    case RUndo => Move(th.(pc := RSpin), sh.(read := sh.read - 1), Keep)
    case RLoad => Move(th.(pc := RInc, seen := sh.obj), sh, Keep)
    case RInc => Move(th.(pc := RUnlock, temp := th.seen), sh, Inc(th.seen))
    case RUnlock => Move(th.(pc := RCompare), sh.(read := sh.read - 1), Keep)
    case RCompare => Move(th.(pc := if th.temp == th.last then RDrop else RSwap), sh, Keep)
    case RDrop => Move(th.(pc := Idle, temp := Null), sh, Dec(th.temp))
    case RSwap => Move(th.(pc := RKeep, last := Null), sh, Dec(th.last))
    case RKeep => Move(th.(pc := Idle, last := th.temp, temp := Null), sh, Keep)
    case WLock => if sh.write then Move(th, sh, Keep) else Move(th.(pc := WWait), sh.(write := true, holder := By(t)), Keep)
    case WWait => Move(if sh.read != 0 then th else th.(pc := WLoad), sh, Keep)
    case WLoad => Move(th.(pc := WStore, seen := sh.obj), sh, Keep)
    case WStore => Move(th.(pc := WUnlock, prior := th.seen, temp := Null), sh.(obj := th.temp), Keep)
    case WUnlock => Move(th.(pc := WDrop), sh.(write := false, holder := Nobody), Keep)
    case WDrop => Move(th.(pc := Idle, prior := Null), sh, Dec(th.prior))
    case VLock => if sh.write then Move(th, sh, Keep) else Move(th.(pc := VWait), sh.(write := true, holder := By(t)), Keep)
    case VWait => Move(if sh.read != 0 then th else th.(pc := VDrop), sh, Keep)
    case VDrop => Move(th.(pc := VClear), sh.(linked := false), Dec(sh.obj))
    case VClear => Move(th.(pc := VUnlock), sh.(obj := Null, linked := true), Keep)
    case VUnlock => Move(th.(pc := Idle), sh.(write := false, holder := Nobody), Keep)
    case FDrop => Move(th.(pc := Idle, last := Null), sh, Dec(th.last))
  }

  /** The reference of an effect, if it is to a copy that was ever made. */
  predicate Real(s: State, r: Ref) { r != Null && r.id in s.copies }

  /** ATOM_FINC in stm_copy, ATOM_DEC in stm_releasecopy; whoever reaches 0 has to free the copy. */
  function Count(s: State, t: Tid, e: Effect): map<Id, Counter> {
    if e == Keep || !Real(s, e.r) then s.copies
    else
      var k := s.copies[e.r.id];
      if e.Inc? then s.copies[e.r.id := k.(refs := k.refs + 1)]
      else s.copies[e.r.id := Counter(k.refs - 1, if k.refs == 1 then Dying(t) else k.fate)]
  }

  function Victim(s: State, th: Thread, e: Effect): Ref {
    if e.Dec? && Real(s, e.r) && s.copies[e.r.id].refs == 1 then e.r else th.victim
  }

  function Advance(s: State, t: Tid): State
    requires t in s.threads
  {
    var m := Next(s.threads[t], t, s.sh);
    State(m.sh, Count(s, t, m.effect), s.threads[t := m.th.(victim := Victim(s, m.th, m.effect))])
  }

  function Start(s: State, t: Tid, op: Op, addr: Id): State
    requires t in s.threads
  {
    var th := s.threads[t];
    match op
    case Read => s.(threads := s.threads[t := th.(pc := RSpin)])
    case Update => s.(threads := s.threads[t := th.(pc := WLock, temp := Copy(addr))], copies := s.copies[addr := Counter(1, Live)])
    case Release => s.(threads := s.threads[t := th.(pc := VLock)])
    case Forget => s.(threads := s.threads[t := th.(pc := FDrop)])
  }

  function Free(s: State, t: Tid): State
    requires t in s.threads && s.threads[t].victim != Null
  {
    var c := s.threads[t].victim.id;
    var threads := s.threads[t := s.threads[t].(victim := Null)];
    if c in s.copies then s.(threads := threads, copies := s.copies[c := s.copies[c].(fate := Freed)]) else s.(threads := threads)
  }

  /** malloc may hand out an address again once it was freed. */
  predicate Unused(s: State, addr: Id) { addr in s.copies ==> s.copies[addr].fate == Freed }

  ghost predicate Enabled(s: State, step: Step) {
    match step
    case Begin(t, op, addr) => t in s.threads && s.threads[t].pc == Idle && s.threads[t].victim == Null && (op == Update ==> Unused(s, addr))
    case Go(t) => t in s.threads && (s.threads[t].pc != Idle || s.threads[t].victim != Null)
  }

  ghost function Apply(s: State, step: Step): State
    requires Enabled(s, step)
  {
    match step
    case Begin(t, op, addr) => Start(s, t, op, addr)
    case Go(t) => if s.threads[t].victim != Null then Free(s, t) else Advance(s, t)
  }

  ghost predicate Initial(s: State) {
    && !s.sh.write && s.sh.holder == Nobody && s.sh.read == 0 && s.sh.linked
    && s.copies == (if s.sh.obj == Null then map[] else map[s.sh.obj.id := Counter(1, Live)])
    && forall t :: t in s.threads ==> s.threads[t] == Thread(Idle, Null, Null, Null, Null, Null)
  }

  ghost predicate IsRun(run: seq<State>, steps: seq<Step>) {
    && |run| == |steps| + 1 && Initial(run[0])
    && forall k :: 0 <= k < |steps| ==> Enabled(run[k], steps[k]) && run[k + 1] == Apply(run[k], steps[k])
  }

  // ------------------------------------------------------------ the lock

  ghost function Readers(threads: map<Tid, Thread>): set<Tid> {
    set t | t in threads && Counted(threads[t].pc)
  }

  ghost predicate LockOk(sh: Shared, threads: map<Tid, Thread>) {
    && (sh.write <==> sh.holder != Nobody) && (sh.holder != Nobody ==> sh.holder.t in threads)
    && (forall t :: t in threads ==> (HasWriteLock(threads[t].pc) <==> sh.holder == By(t)))
    && sh.read == |Readers(threads)|
    && (forall t, u :: t in threads && u in threads && Writing(threads[t].pc) ==> !Reading(threads[u].pc))
  }

  /** What a step may do to the pc of its thread, the flag and the counter. */
  ghost predicate LockChange(sh: Shared, sh': Shared, t: Tid, pc: Pc, pc': Pc) {
    && sh'.read == sh.read + (if Counted(pc') then 1 else 0) - (if Counted(pc) then 1 else 0)
    && (if HasWriteLock(pc) == HasWriteLock(pc') then sh'.write == sh.write && sh'.holder == sh.holder
        else if HasWriteLock(pc') then !sh.write && sh'.write && sh'.holder == By(t)
        else !sh'.write && sh'.holder == Nobody)
    && (Reading(pc') && !Reading(pc) ==> !sh.write)
    && (Writing(pc') && !Writing(pc) ==> sh.read == 0)
  }

  lemma NextLock(th: Thread, t: Tid, sh: Shared)
    ensures LockChange(sh, Next(th, t, sh).sh, t, th.pc, Next(th, t, sh).th.pc)
  {
  }

  lemma LockStep(sh: Shared, sh': Shared, threads: map<Tid, Thread>, t: Tid, th': Thread)
    requires LockOk(sh, threads) && t in threads && LockChange(sh, sh', t, threads[t].pc, th'.pc)
    ensures LockOk(sh', threads[t := th'])
  {
    var pc, pc' := threads[t].pc, th'.pc;
    CountReaders(threads, t, th');
    if Writing(pc') && !Writing(pc) {
      assert Readers(threads) == {};
      assert forall u :: u in threads && Reading(threads[u].pc) ==> u in Readers(threads);
    }
    if Reading(pc') && !Reading(pc) {
      assert forall u :: u in threads ==> !HasWriteLock(threads[u].pc);
    }
  }

  lemma CountReaders(threads: map<Tid, Thread>, t: Tid, th': Thread)
    requires t in threads
    ensures |Readers(threads[t := th'])|
         == |Readers(threads)| + (if Counted(th'.pc) then 1 else 0) - (if Counted(threads[t].pc) then 1 else 0)
  {
    var rest := Readers(threads) - {t};
    assert Readers(threads) == if Counted(threads[t].pc) then rest + {t} else rest;
    assert Readers(threads[t := th']) == if Counted(th'.pc) then rest + {t} else rest;
  }

  lemma StepLock(s: State, step: Step)
    requires Enabled(s, step) && LockOk(s.sh, s.threads)
    ensures LockOk(Apply(s, step).sh, Apply(s, step).threads)
  {
    hide LockOk;
    var s', t := Apply(s, step), step.t;
    if step.Go? && s.threads[t].victim == Null {
      NextLock(s.threads[t], t, s.sh);
      hide Next, LockChange;
      LockStep(s.sh, s'.sh, s.threads, t, s'.threads[t]);
    } else {
      LockStep(s.sh, s'.sh, s.threads, t, s'.threads[t]);
    }
  }

  // ------------------------------------------------------------ the references

  /** The places that count as a reference to a copy. */
  datatype Link = Object | Last(t: Tid) | Temp(t: Tid) | Prior(t: Tid)

  ghost function Places(ts: set<Tid>): set<Link> {
    {Object} + (set t | t in ts :: Last(t)) + (set t | t in ts :: Temp(t)) + (set t | t in ts :: Prior(t))
  }

  /** Where each of them points. */
  ghost function Targets(sh: Shared, threads: map<Tid, Thread>): map<Link, Ref> {
    map l | l in Places(threads.Keys) :: Target(sh, threads, l)
  }

  ghost function Target(sh: Shared, threads: map<Tid, Thread>, l: Link): Ref {
    match l
    case Object => if sh.linked then sh.obj else Null
    case Last(t) => if t in threads then threads[t].last else Null
    case Temp(t) => if t in threads then threads[t].temp else Null
    case Prior(t) => if t in threads then threads[t].prior else Null
  }

  lemma TargetsAt(sh: Shared, threads: map<Tid, Thread>, t: Tid)
    requires t in threads
    ensures var m := Targets(sh, threads);
      && Object in m && Last(t) in m && Temp(t) in m && Prior(t) in m
      && m[Object] == (if sh.linked then sh.obj else Null)
      && m[Last(t)] == threads[t].last && m[Temp(t)] == threads[t].temp && m[Prior(t)] == threads[t].prior
  {
  }

  lemma TargetsStep(sh: Shared, sh': Shared, threads: map<Tid, Thread>, t: Tid, th': Thread)
    requires t in threads
    ensures Targets(sh', threads[t := th'])
         == Targets(sh, threads)[Object := if sh'.linked then sh'.obj else Null]
                                [Last(t) := th'.last][Temp(t) := th'.temp][Prior(t) := th'.prior]
  {
    assert threads[t := th'].Keys == threads.Keys;
  }

  ghost function Links(m: map<Link, Ref>, c: Id): set<Link> {
    set l | l in m && m[l] == Copy(c)
  }

  /** The counter of every copy is the number of places that refer to it, and a copy is alive exactly
      as long as there is one. */
  ghost predicate RefsOk(m: map<Link, Ref>, copies: map<Id, Counter>) {
    && (forall c :: c in copies ==> copies[c].refs == |Links(m, c)| && (copies[c].fate == Live <==> copies[c].refs > 0))
    && (forall l :: l in m && m[l] != Null ==> m[l].id in copies)
  }

  lemma LinkAdded(m: map<Link, Ref>, copies: map<Id, Counter>, l: Link, c: Id)
    requires RefsOk(m, copies) && l in m && m[l] == Null && c in copies && copies[c].fate == Live
    ensures RefsOk(m[l := Copy(c)], copies[c := copies[c].(refs := copies[c].refs + 1)])
  {
    var m' := m[l := Copy(c)];
    assert Links(m', c) == Links(m, c) + {l};
    assert forall d :: d != c ==> Links(m', d) == Links(m, d);
  }

  lemma LinkOfNew(m: map<Link, Ref>, copies: map<Id, Counter>, l: Link, c: Id)
    requires RefsOk(m, copies) && l in m && m[l] == Null && (c in copies ==> copies[c].fate == Freed)
    ensures RefsOk(m[l := Copy(c)], copies[c := Counter(1, Live)])
  {
    var m' := m[l := Copy(c)];
    assert Links(m, c) == {};
    assert Links(m', c) == {l};
    assert forall d :: d != c ==> Links(m', d) == Links(m, d);
  }

  lemma LinkDropped(m: map<Link, Ref>, copies: map<Id, Counter>, l: Link, fate: Fate)
    requires RefsOk(m, copies) && l in m && m[l] != Null
    requires var k := copies[m[l].id]; if k.refs == 1 then fate != Live else fate == k.fate
    ensures copies[m[l].id].fate == Live
    ensures RefsOk(m[l := Null], copies[m[l].id := Counter(copies[m[l].id].refs - 1, fate)])
  {
    var c, m' := m[l].id, m[l := Null];
    assert l in Links(m, c);
    assert Links(m', c) == Links(m, c) - {l};
    assert forall d :: d != c ==> Links(m', d) == Links(m, d);
  }

  lemma LinkMoved(m: map<Link, Ref>, copies: map<Id, Counter>, l: Link, l': Link)
    requires RefsOk(m, copies) && l in m && l' in m && l != l' && m[l'] == Null
    ensures RefsOk(m[l := Null][l' := m[l]], copies)
  {
    var m' := m[l := Null][l' := m[l]];
    if m[l] != Null {
      var c := m[l].id;
      assert Links(m', c) == Links(m, c) - {l} + {l'};
      assert forall d :: d != c ==> Links(m', d) == Links(m, d);
    } else {
      assert m' == m;
    }
  }

  /** Slots in use at each pc, and pointers loaded under the lock are still what obj->copy is. */
  ghost predicate SlotsOk(th: Thread, obj: Ref) {
    var pc := th.pc;
    && (th.temp != Null ==> pc.RUnlock? || pc.RCompare? || pc.RDrop? || pc.RSwap? || pc.RKeep?
                            || pc.WLock? || pc.WWait? || pc.WLoad? || pc.WStore?)
    && (th.prior != Null ==> pc.WUnlock? || pc.WDrop?)
    && (pc.RKeep? ==> th.last == Null)
    && (pc.RInc? || pc.WStore? ==> th.seen == obj)
  }

  ghost predicate Pointers(sh: Shared, threads: map<Tid, Thread>) {
    && (forall t :: t in threads ==> SlotsOk(threads[t], sh.obj))
    && (forall t :: t in threads && threads[t].pc.VClear? ==> !sh.linked)
    && (!sh.linked ==> exists t :: t in threads && threads[t].pc.VClear?)
  }

  lemma NextSlots(th: Thread, t: Tid, sh: Shared)
    requires SlotsOk(th, sh.obj)
    ensures var m := Next(th, t, sh);
      && SlotsOk(m.th, m.sh.obj)
      && (m.sh.obj != sh.obj ==> Writing(th.pc))
      && (m.sh.linked != sh.linked ==> th.pc.VDrop? || th.pc.VClear?)
      && (m.th.pc.VClear? ==> !m.sh.linked) && (th.pc.VDrop? ==> m.th.pc.VClear?)
      && (th.pc.VClear? ==> m.sh.linked && !m.th.pc.VClear?)
  {
  }

  lemma AdvancePointers(s: State, t: Tid)
    requires t in s.threads && LockOk(s.sh, s.threads) && Pointers(s.sh, s.threads)
    ensures Pointers(Advance(s, t).sh, Advance(s, t).threads)
  {
    var th, s' := s.threads[t], Advance(s, t);
    NextSlots(th, t, s.sh);
    if Writing(th.pc) {
      assert forall u :: u in s.threads && u != t ==> !HasWriteLock(s.threads[u].pc) && !Reading(s.threads[u].pc);
    }
    hide Next;
    assert forall u :: u in s'.threads && u != t ==> SlotsOk(s'.threads[u], s'.sh.obj);
    if !s'.sh.linked {
      if th.pc.VDrop? {
        assert s'.threads[t].pc.VClear?;
      } else {
        var u :| u in s.threads && s.threads[u].pc.VClear?;
        assert u != t && s'.threads[u] == s.threads[u];
      }
    }
  }

  lemma Alive(m: map<Link, Ref>, copies: map<Id, Counter>, l: Link)
    requires RefsOk(m, copies) && l in m && m[l] != Null
    ensures m[l].id in copies && copies[m[l].id].fate == Live && copies[m[l].id].refs > 0
  {
    assert l in Links(m, m[l].id);
  }

  /** Which place loses its reference by a step that releases a copy. */
  function Dropping(pc: Pc, t: Tid): Link {
    if pc.RDrop? then Temp(t) else if pc.WDrop? then Prior(t) else if pc.VDrop? then Object else Last(t)
  }

  ghost function Seen(sh: Shared): Ref { if sh.linked then sh.obj else Null }

  /** The new contents of Object, Last, Temp and Prior. */
  ghost function Quad(m: map<Link, Ref>, t: Tid, o: Ref, l: Ref, tm: Ref, p: Ref): map<Link, Ref> {
    m[Object := o][Last(t) := l][Temp(t) := tm][Prior(t) := p]
  }

  /** The steps by what they do to the places that hold references. */
  ghost predicate Shift(m: map<Link, Ref>, m': map<Link, Ref>, pc: Pc, effect: Effect, t: Tid, obj: Ref)
    requires Object in m && Last(t) in m && Temp(t) in m && Prior(t) in m
  {
    && (effect.Dec? ==> effect.r == m[Dropping(pc, t)] && m' == m[Dropping(pc, t) := Null])
    && (effect.Inc? ==> m' == m[Temp(t) := obj] && m[Object] == obj && m[Temp(t)] == Null && effect.r == obj)
    && (effect.Keep? ==>
          if pc.RKeep? then m' == m[Temp(t) := Null][Last(t) := m[Temp(t)]] && m[Last(t)] == Null
          else if pc.WStore? then m' == m[Object := Null][Prior(t) := m[Object]][Temp(t) := Null][Object := m[Temp(t)]] && m[Prior(t)] == Null
          else m' == m)
  }

  /** obj->copy is a counted reference for whoever holds the lock, but for the thread clearing it. */
  ghost predicate LinkedFor(pc: Pc, sh: Shared) {
    (pc.VClear? ==> !sh.linked) && (Reading(pc) || (Writing(pc) && !pc.VClear?) ==> sh.linked)
  }

  lemma LockLinks(s: State, t: Tid)
    requires t in s.threads && LockOk(s.sh, s.threads) && Pointers(s.sh, s.threads)
    ensures LinkedFor(s.threads[t].pc, s.sh) && SlotsOk(s.threads[t], s.sh.obj)
  {
  }

  /** The same, slot by slot: o, l, tm and p are what Object, Last, Temp and Prior held before. */
  ghost predicate SlotShift(o: Ref, l: Ref, tm: Ref, p: Ref, th': Thread, o': Ref, pc: Pc, effect: Effect, obj: Ref) {
    var now := (o', th'.last, th'.temp, th'.prior);
    match effect
    case Inc(r) => r == obj && o == obj && tm == Null && now == (o, l, obj, p)
    case Dec(r) =>
      if pc.RDrop? then r == tm && now == (o, l, Null, p)
      else if pc.WDrop? then r == p && now == (o, l, tm, Null)
      else if pc.VDrop? then r == o && now == (Null, l, tm, p)
      else r == l && now == (o, Null, tm, p)
    case Keep =>
      if pc.RKeep? then l == Null && now == (o, tm, Null, p)
      else if pc.WStore? then p == Null && now == (tm, l, Null, o)
      else now == (o, l, tm, p)
  }

  lemma NextSlotShift(th: Thread, t: Tid, sh: Shared)
    requires SlotsOk(th, sh.obj) && LinkedFor(th.pc, sh)
    ensures var n := Next(th, t, sh);
      SlotShift(Seen(sh), th.last, th.temp, th.prior, n.th, Seen(n.sh), th.pc, n.effect, sh.obj)
  {
  }

  lemma QuadShift(m: map<Link, Ref>, t: Tid, th': Thread, o': Ref, pc: Pc, effect: Effect, obj: Ref)
    requires Object in m && Last(t) in m && Temp(t) in m && Prior(t) in m
    requires SlotShift(m[Object], m[Last(t)], m[Temp(t)], m[Prior(t)], th', o', pc, effect, obj)
    ensures Shift(m, Quad(m, t, o', th'.last, th'.temp, th'.prior), pc, effect, t, obj)
  {
  }

  lemma NextShift(m: map<Link, Ref>, th: Thread, t: Tid, sh: Shared)
    requires Object in m && Last(t) in m && Temp(t) in m && Prior(t) in m
    requires m[Object] == Seen(sh) && m[Last(t)] == th.last && m[Temp(t)] == th.temp && m[Prior(t)] == th.prior
    requires SlotsOk(th, sh.obj) && LinkedFor(th.pc, sh)
    ensures var n := Next(th, t, sh);
      Shift(m, Quad(m, t, Seen(n.sh), n.th.last, n.th.temp, n.th.prior), th.pc, n.effect, t, sh.obj)
  {
    hide Next, SlotShift, Shift, Quad;
    var n := Next(th, t, sh);
    NextSlotShift(th, t, sh);
    QuadShift(m, t, n.th, Seen(n.sh), th.pc, n.effect, sh.obj);
  }

  /** A shift keeps the counts right, when the counters follow its effect. */
  lemma ShiftRefs(s: State, m: map<Link, Ref>, m': map<Link, Ref>, pc: Pc, e: Effect, t: Tid, obj: Ref)
    requires Object in m && Last(t) in m && Temp(t) in m && Prior(t) in m
    requires RefsOk(m, s.copies) && Shift(m, m', pc, e, t, obj)
    ensures RefsOk(m', Count(s, t, e))
    ensures !e.Keep? && e.r != Null ==> Real(s, e.r) && s.copies[e.r.id].fate == Live && s.copies[e.r.id].refs > 0
  {
    hide RefsOk;
    if e.Inc? {
      if obj == Null {
        assert m' == m;
      } else {
        Alive(m, s.copies, Object);
        LinkAdded(m, s.copies, Temp(t), obj.id);
      }
    } else if e.Dec? {
      var l := Dropping(pc, t);
      if e.r == Null {
        assert m' == m;
      } else {
        Alive(m, s.copies, l);
        LinkDropped(m, s.copies, l, if s.copies[e.r.id].refs == 1 then Dying(t) else s.copies[e.r.id].fate);
      }
    } else if pc.RKeep? {
      LinkMoved(m, s.copies, Temp(t), Last(t));
    } else if pc.WStore? {
      LinkMoved(m, s.copies, Object, Prior(t));
      LinkMoved(m[Object := Null][Prior(t) := m[Object]], s.copies, Temp(t), Object);
    }
  }

  lemma AdvanceRefs(s: State, t: Tid)
    requires t in s.threads && LockOk(s.sh, s.threads) && Pointers(s.sh, s.threads)
    requires RefsOk(Targets(s.sh, s.threads), s.copies)
    ensures var s' := Advance(s, t); RefsOk(Targets(s'.sh, s'.threads), s'.copies)
    ensures var e := Next(s.threads[t], t, s.sh).effect;
      !e.Keep? && e.r != Null ==> Real(s, e.r) && s.copies[e.r.id].fate == Live && s.copies[e.r.id].refs > 0
  {
    hide RefsOk, Targets, Pointers, LockOk, Shift, Count;
    var th, n := s.threads[t], Next(s.threads[t], t, s.sh);
    var m := Targets(s.sh, s.threads);
    LockLinks(s, t);
    TargetsAt(s.sh, s.threads, t);
    NextShift(m, th, t, s.sh);
    hide Next;
    var s' := Advance(s, t);
    TargetsStep(s.sh, n.sh, s.threads, t, s'.threads[t]);
    ShiftRefs(s, m, Targets(s'.sh, s'.threads), th.pc, n.effect, t, s.sh.obj);
  }

  // ------------------------------------------------------------ freeing

  ghost predicate VictimsOk(copies: map<Id, Counter>, threads: map<Tid, Thread>) {
    && (forall t :: t in threads && threads[t].victim != Null ==>
          threads[t].victim.id in copies && copies[threads[t].victim.id].fate == Dying(t))
    && (forall c :: c in copies && copies[c].fate.Dying? ==>
          copies[c].fate.who in threads && threads[copies[c].fate.who].victim == Copy(c))
  }

  lemma AdvanceVictims(s: State, t: Tid)
    requires t in s.threads && s.threads[t].victim == Null && VictimsOk(s.copies, s.threads)
    requires var e := Next(s.threads[t], t, s.sh).effect;
      !e.Keep? && e.r != Null ==> Real(s, e.r) && s.copies[e.r.id].fate == Live && s.copies[e.r.id].refs > 0
    ensures VictimsOk(Advance(s, t).copies, Advance(s, t).threads)
  {
  }

  ghost predicate Inv(s: State) {
    && LockOk(s.sh, s.threads) && Pointers(s.sh, s.threads)
    && RefsOk(Targets(s.sh, s.threads), s.copies) && VictimsOk(s.copies, s.threads)
  }

  lemma SlotsAt(s: State, t: Tid)
    requires t in s.threads && Pointers(s.sh, s.threads)
    ensures SlotsOk(s.threads[t], s.sh.obj)
  {
  }

  lemma StartKeeps(s: State, t: Tid, op: Op, addr: Id)
    requires Enabled(s, Begin(t, op, addr)) && Inv(s)
    ensures Inv(Start(s, t, op, addr))
  {
    hide LockOk, Pointers, RefsOk, Targets, VictimsOk;
    StepLock(s, Begin(t, op, addr));
    var s', m := Start(s, t, op, addr), Targets(s.sh, s.threads);
    SlotsAt(s, t);
    IdlePointers(s, t, s'.threads[t]);
    TargetsAt(s.sh, s.threads, t);
    TargetsStep(s.sh, s'.sh, s.threads, t, s'.threads[t]);
    StartVictims(s, t, op, addr);
    if op == Update {
      LinkOfNew(m, s.copies, Temp(t), addr);
      assert Targets(s'.sh, s'.threads) == m[Temp(t) := Copy(addr)];
    } else {
      assert Targets(s'.sh, s'.threads) == m;
    }
  }

  lemma StartVictims(s: State, t: Tid, op: Op, addr: Id)
    requires Enabled(s, Begin(t, op, addr)) && VictimsOk(s.copies, s.threads)
    ensures VictimsOk(Start(s, t, op, addr).copies, Start(s, t, op, addr).threads)
  {
  }

  lemma IdlePointers(s: State, t: Tid, th': Thread)
    requires t in s.threads && Pointers(s.sh, s.threads) && !s.threads[t].pc.VClear? && !th'.pc.VClear? && SlotsOk(th', s.sh.obj)
    ensures Pointers(s.sh, s.threads[t := th'])
  {
    if !s.sh.linked {
      var u :| u in s.threads && s.threads[u].pc.VClear?;
      assert u != t && s.threads[t := th'][u] == s.threads[u];
    }
  }

  lemma FreeKeeps(s: State, t: Tid)
    requires t in s.threads && s.threads[t].victim != Null && Inv(s)
    ensures Inv(Free(s, t))
  {
    hide LockOk, Targets, RefsOk, Pointers, VictimsOk;
    StepLock(s, Go(t));
    var s', m := Free(s, t), Targets(s.sh, s.threads);
    TargetsAt(s.sh, s.threads, t);
    TargetsStep(s.sh, s'.sh, s.threads, t, s'.threads[t]);
    assert Targets(s'.sh, s'.threads) == m;
    FreePointers(s, t);
    FreeVictims(s, m, t);
  }

  lemma FreeVictims(s: State, m: map<Link, Ref>, t: Tid)
    requires t in s.threads && s.threads[t].victim != Null && VictimsOk(s.copies, s.threads) && RefsOk(m, s.copies)
    ensures VictimsOk(Free(s, t).copies, Free(s, t).threads) && RefsOk(m, Free(s, t).copies)
  {
  }

  lemma FreePointers(s: State, t: Tid)
    requires t in s.threads && Pointers(s.sh, s.threads)
    ensures Pointers(s.sh, s.threads[t := s.threads[t].(victim := Null)])
  {
    var threads := s.threads[t := s.threads[t].(victim := Null)];
    if !s.sh.linked {
      var u :| u in s.threads && s.threads[u].pc.VClear?;
      assert threads[u].pc.VClear?;
    }
    assert forall u :: u in threads ==> SlotsOk(s.threads[u], s.sh.obj);
  }

  lemma StepKeeps(s: State, step: Step)
    requires Enabled(s, step) && Inv(s)
    ensures Inv(Apply(s, step))
  {
    var t := step.t;
    match step
    case Begin(_, op, addr) =>
      hide Inv, Start;
      StartKeeps(s, t, op, addr);
    case Go(_) =>
      if s.threads[t].victim != Null {
        hide Inv, Free;
        FreeKeeps(s, t);
      } else {
        StepLock(s, step);
        hide LockOk, Pointers, RefsOk, Targets, VictimsOk, Next;
        AdvancePointers(s, t);
        AdvanceRefs(s, t);
        AdvanceVictims(s, t);
      }
  }

  lemma InitialOk(s: State)
    requires Initial(s)
    ensures Inv(s)
  {
    assert Readers(s.threads) == {};
    InitialRefs(s);
    hide RefsOk, Targets;
  }

  lemma InitialRefs(s: State)
    requires Initial(s)
    ensures RefsOk(Targets(s.sh, s.threads), s.copies)
  {
    InitialTargets(s);
    hide Targets, RefsOk;
    OneReference(Targets(s.sh, s.threads), s.sh.obj);
  }

  lemma OneReference(m: map<Link, Ref>, obj: Ref)
    requires Object in m && m[Object] == obj && forall l :: l in m && l != Object ==> m[l] == Null
    ensures RefsOk(m, if obj == Null then map[] else map[obj.id := Counter(1, Live)])
  {
    if obj != Null {
      assert Links(m, obj.id) == {Object};
    }
  }

  lemma InitialTargets(s: State)
    requires Initial(s)
    ensures var m := Targets(s.sh, s.threads);
      Object in m && m[Object] == s.sh.obj && forall l :: l in m && l != Object ==> m[l] == Null
  {
  }

  lemma {:induction false} RunsKeep(run: seq<State>, steps: seq<Step>, k: nat)
    requires IsRun(run, steps) && k < |run|
    ensures Inv(run[k])
  {
    if k == 0 {
      InitialOk(run[0]);
    } else {
      RunsKeep(run, steps, k - 1);
      assert Enabled(run[k - 1], steps[k - 1]) && run[k] == Apply(run[k - 1], steps[k - 1]);
      hide IsRun, Enabled, Apply, Inv;
      StepKeeps(run[k - 1], steps[k - 1]);
    }
  }

  // ------------------------------------------------------------ what follows

  /** A thread past rwlock_wlock is alone: nobody else reads or writes. */
  lemma WritersAreAlone(run: seq<State>, steps: seq<Step>, k: nat, t: Tid, u: Tid)
    requires IsRun(run, steps) && k < |run| && {t, u} <= run[k].threads.Keys && t != u
    requires Writing(run[k].threads[t].pc)
    ensures !Writing(run[k].threads[u].pc) && !Reading(run[k].threads[u].pc)
  {
    RunsKeep(run, steps, k);
    hide IsRun;
  }

  /** Every counter that a step changes belongs to a living copy (the assertion in stm_copy holds), and
      a copy about to be freed has not been freed before and nothing refers to it. */
  ghost predicate SafeStep(s: State, step: Step) {
    step.Go? && step.t in s.threads ==>
      var th := s.threads[step.t];
      if th.victim == Null then
        var e := Next(th, step.t, s.sh).effect;
        !e.Keep? && e.r != Null ==> Real(s, e.r) && s.copies[e.r.id].fate == Live && s.copies[e.r.id].refs > 0
      else
        Real(s, th.victim) && s.copies[th.victim.id].fate == Dying(step.t) && Links(Targets(s.sh, s.threads), th.victim.id) == {}
  }

  lemma StepsAreSafe(run: seq<State>, steps: seq<Step>, k: nat)
    requires IsRun(run, steps) && k < |steps|
    ensures SafeStep(run[k], steps[k])
  {
    RunsKeep(run, steps, k);
    assert Enabled(run[k], steps[k]);
    hide IsRun, Apply;
    var s, t := run[k], steps[k].t;
    if steps[k].Go? {
      if s.threads[t].victim == Null {
        hide LockOk, Pointers, Targets, VictimsOk, RefsOk, Next;
        AdvanceRefs(s, t);
      } else {
        hide LockOk, Pointers, Targets;
        assert |Links(Targets(s.sh, s.threads), s.threads[t].victim.id)| == 0;
      }
    }
  }

  /** A copy lives exactly as long as the object or some thread refers to it. */
  lemma LivesWhileReferenced(run: seq<State>, steps: seq<Step>, k: nat, c: Id)
    requires IsRun(run, steps) && k < |run| && c in run[k].copies
    ensures var s := run[k];
      && s.copies[c].refs == |Links(Targets(s.sh, s.threads), c)|
      && (s.copies[c].fate == Live <==> Links(Targets(s.sh, s.threads), c) != {})
  {
    RunsKeep(run, steps, k);
    hide IsRun, LockOk, Pointers, Targets, VictimsOk;
  }

  /** A copy only goes from living to dying to freed, one stage at a time, until its address is used for a
      new one: it is freed at most once. */
  lemma FreedOnce(run: seq<State>, steps: seq<Step>, k: nat, c: Id)
    requires IsRun(run, steps) && k < |steps| && c in run[k].copies
    ensures c in run[k + 1].copies
    ensures var f, f' := run[k].copies[c].fate, run[k + 1].copies[c].fate;
      f == f' || (f == Live && f'.Dying?) || (f.Dying? && f' == Freed && steps[k] == Go(f.who))
      || (f == Freed && f' == Live && steps[k] == Begin(steps[k].t, Update, c))
  {
    StepsAreSafe(run, steps, k);
    var s, step := run[k], steps[k];
    assert Enabled(s, step) && run[k + 1] == Apply(s, step);
    hide IsRun, Next, Targets, Links;
  }
}
