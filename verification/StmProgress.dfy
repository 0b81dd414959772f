/** What a read and an update of lua-stm.c give their caller: which copy a read returns, which copy an update
    publishes, and that a thread finds its way through the lock when it is free. */
module StmProgress {
  import opened Stm

  /** From step i to step k thread t does not begin anything new. */
  ghost predicate SameOp(steps: seq<Step>, t: Tid, i: nat, k: nat)
    requires i <= k <= |steps|
  {
    forall j :: i <= j < k ==> !(steps[j].Begin? && steps[j].t == t)
  }

  /** Thread t takes its next atomic step at k, being at pc. */
  ghost predicate At(run: seq<State>, steps: seq<Step>, k: nat, t: Tid, pc: Pc)
    requires IsRun(run, steps)
  {
    k < |steps| && steps[k] == Go(t) && t in run[k].threads && run[k].threads[t].victim == Null && run[k].threads[t].pc == pc
  }

  lemma OthersStay(s: State, step: Step, t: Tid)
    requires Enabled(s, step) && t in s.threads && step.t != t
    ensures t in Apply(s, step).threads && Apply(s, step).threads[t] == s.threads[t]
  {
  }

  /** What happens to the thread that goes on. */
  lemma GoesOn(s: State, t: Tid)
    requires Enabled(s, Go(t))
    ensures t in Apply(s, Go(t)).threads
    ensures var s', th := Apply(s, Go(t)), s.threads[t];
      if th.victim != Null then s'.sh == s.sh && s'.threads[t] == th.(victim := Null)
      else s'.sh == Next(th, t, s.sh).sh && s'.threads[t] == Next(th, t, s.sh).th.(victim := s'.threads[t].victim)
  {
    hide Next;
  }

  // ------------------------------------------------------------ which copy a read returns

  /** A reader that loaded r carries it to the end and leaves it in lastcopy. */
  ghost predicate Carries(th: Thread, r: Ref) {
    match th.pc
    case RInc => th.seen == r
    case RUnlock | RCompare | RSwap | RKeep => th.temp == r
    case RDrop => th.temp == r && th.last == r
    case Idle => th.last == r
    case _ => false
  }

  lemma CarriesOn(th: Thread, t: Tid, sh: Shared, r: Ref)
    requires Carries(th, r)
    ensures Carries(Next(th, t, sh).th, r)
  {
  }

  lemma CarriesStep(s: State, step: Step, t: Tid, r: Ref)
    requires Enabled(s, step) && t in s.threads && Carries(s.threads[t], r) && !(step.Begin? && step.t == t)
    ensures t in Apply(s, step).threads && Carries(Apply(s, step).threads[t], r)
  {
    hide Apply, Enabled, Next;
    if step.t == t {
      assert step == Go(t);
      GoesOn(s, t);
      if s.threads[t].victim == Null { CarriesOn(s.threads[t], t, s.sh, r); }
    } else {
      OthersStay(s, step, t);
    }
  }

  lemma {:induction false} CarriesAlong(run: seq<State>, steps: seq<Step>, i: nat, k: nat, t: Tid)
    requires IsRun(run, steps) && At(run, steps, i, t, RLoad) && i < k < |run| && SameOp(steps, t, i, k)
    ensures t in run[k].threads && Carries(run[k].threads[t], run[i].sh.obj)
  {
    assert Enabled(run[k - 1], steps[k - 1]) && run[k] == Apply(run[k - 1], steps[k - 1]);
    if k == i + 1 {
      hide Apply, Enabled;
      GoesOn(run[i], t);
    } else {
      CarriesAlong(run, steps, i, k - 1, t);
      hide Apply, Enabled, Carries;
      CarriesStep(run[k - 1], steps[k - 1], t, run[i].sh.obj);
    }
  }

  /** A read returns what the object held at one moment during the read: whatever the other threads do,
      the copy a finished read leaves in lastcopy is the one that obj->copy was when the read, holding the
      lock, loaded it. */
  lemma ReadReturnsTheCopy(run: seq<State>, steps: seq<Step>, i: nat, k: nat, t: Tid)
    requires IsRun(run, steps) && At(run, steps, i, t, RLoad) && i < k < |run| && SameOp(steps, t, i, k)
    requires t in run[k].threads && run[k].threads[t].pc == Idle
    ensures run[k].threads[t].last == run[i].sh.obj && run[i].sh.linked
  {
    CarriesAlong(run, steps, i, k, t);
    RunsKeep(run, steps, i);
    hide IsRun;
    LockLinks(run[i], t);
  }

  // ------------------------------------------------------------ which copy an update publishes

  /** An update carries its new copy until it has stored it. */
  ghost predicate Offers(th: Thread, r: Ref) {
    match th.pc
    case WLock | WWait | WLoad | WStore => th.temp == r
    case WUnlock | WDrop | Idle => true
    case _ => false
  }

  lemma OffersStep(s: State, step: Step, t: Tid, r: Ref)
    requires Enabled(s, step) && t in s.threads && Offers(s.threads[t], r) && !(step.Begin? && step.t == t)
    ensures t in Apply(s, step).threads && Offers(Apply(s, step).threads[t], r)
  {
    hide Apply, Enabled;
    if step.t == t {
      assert step == Go(t);
      GoesOn(s, t);
    } else {
      OthersStay(s, step, t);
    }
  }

  lemma {:induction false} OffersAlong(run: seq<State>, steps: seq<Step>, i: nat, k: nat, t: Tid, addr: Id)
    requires IsRun(run, steps) && i < k < |run| && steps[i] == Begin(t, Update, addr) && SameOp(steps, t, i + 1, k)
    ensures t in run[k].threads && Offers(run[k].threads[t], Copy(addr))
  {
    assert Enabled(run[k - 1], steps[k - 1]) && run[k] == Apply(run[k - 1], steps[k - 1]);
    if k > i + 1 {
      OffersAlong(run, steps, i, k - 1, t, addr);
      hide Apply, Enabled, Offers;
      OffersStep(run[k - 1], steps[k - 1], t, Copy(addr));
    }
  }

  /** An update publishes the copy it was given, and the one it has to release is the one it replaced. */
  lemma UpdatePublishes(run: seq<State>, steps: seq<Step>, i: nat, k: nat, t: Tid, addr: Id)
    requires IsRun(run, steps) && i < k && At(run, steps, k, t, WStore)
    requires steps[i] == Begin(t, Update, addr) && SameOp(steps, t, i + 1, k)
    ensures run[k + 1].sh.obj == Copy(addr)
    ensures t in run[k + 1].threads && run[k + 1].threads[t].prior == run[k].sh.obj
  {
    OffersAlong(run, steps, i, k, t, addr);
    RunsKeep(run, steps, k);
    assert Enabled(run[k], steps[k]) && run[k + 1] == Apply(run[k], steps[k]);
    hide IsRun, Apply, Enabled;
    LockLinks(run[k], t);
    GoesOn(run[k], t);
  }

  /** Nothing else changes what is published, but for a release, which leaves nothing. */
  lemma OnlyStoresPublish(run: seq<State>, steps: seq<Step>, k: nat)
    requires IsRun(run, steps) && k < |steps| && run[k + 1].sh.obj != run[k].sh.obj
    ensures var t := steps[k].t;
      At(run, steps, k, t, WStore) || (At(run, steps, k, t, VClear) && run[k + 1].sh.obj == Null)
  {
    hide Apply, Next, Initial;
    var step := steps[k];
    assert Enabled(run[k], step);
    if step.Go? {
      GoesOn(run[k], step.t);
      NextObject(run[k].threads[step.t], step.t, run[k].sh);
    } else {
      BeginKeepsShared(run[k], step);
    }
  }

  lemma NextObject(th: Thread, t: Tid, sh: Shared)
    ensures var o := Next(th, t, sh).sh.obj; o == sh.obj || th.pc == WStore || (th.pc == VClear && o == Null)
  {
  }

  lemma BeginKeepsShared(s: State, step: Step)
    requires Enabled(s, step) && step.Begin?
    ensures Apply(s, step).sh == s.sh
  {
  }

  // ------------------------------------------------------------ a thread on its own

  ghost predicate IsPath(run: seq<State>, t: Tid, steps: seq<Step>) {
    && |run| == |steps| + 1
    && forall i :: 0 <= i < |steps| ==> steps[i].t == t && Enabled(run[i], steps[i]) && run[i + 1] == Apply(run[i], steps[i])
  }

  /** Thread t can get from s to s' by its own steps. */
  ghost predicate Can(s: State, t: Tid, s': State) {
    exists run, steps :: IsPath(run, t, steps) && run[0] == s && run[|run| - 1] == s'
  }

  lemma CanMore(s: State, t: Tid, s1: State, step: Step)
    requires Can(s, t, s1) && step.t == t && Enabled(s1, step)
    ensures Can(s, t, Apply(s1, step))
  {
    hide Enabled, Apply;
    var run, steps :| IsPath(run, t, steps) && run[0] == s && run[|run| - 1] == s1;
    assert IsPath(run + [Apply(s1, step)], t, steps + [step]);
  }

  lemma CanBegin(s: State, t: Tid, op: Op, addr: Id) returns (s': State)
    requires Enabled(s, Begin(t, op, addr))
    ensures Can(s, t, s') && s' == Start(s, t, op, addr)
  {
    assert IsPath([s], t, []);
    assert Can(s, t, s);
    s' := Apply(s, Begin(t, op, addr));
    hide Can;
    CanMore(s, t, s, Begin(t, op, addr));
  }

  /** One more step of the program of t; a copy it has to free is freed at once. */
  lemma Moves(s: State, s1: State, t: Tid) returns (s2: State)
    requires Can(s, t, s1) && t in s1.threads && s1.threads[t].pc != Idle && s1.threads[t].victim == Null
    ensures Can(s, t, s2) && t in s2.threads
    ensures var m := Next(s1.threads[t], t, s1.sh); s2.sh == m.sh && s2.threads[t] == m.th
  {
    hide Can, Apply, Next;
    GoesOn(s1, t);
    CanMore(s, t, s1, Go(t));
    NextVictim(s1.threads[t], t, s1.sh);
    var s3 := Apply(s1, Go(t));
    if s3.threads[t].victim == Null {
      s2 := s3;
    } else {
      GoesOn(s3, t);
      CanMore(s, t, s3, Go(t));
      s2 := Apply(s3, Go(t));
    }
  }

  lemma NextVictim(th: Thread, t: Tid, sh: Shared)
    ensures Next(th, t, sh).th.victim == th.victim
  {
  }

  ghost predicate AtRest(s: State, t: Tid) { t in s.threads && s.threads[t].pc == Idle && s.threads[t].victim == Null }

  /** t is at th, and the lock and the object are sh. */
  ghost predicate Now(s: State, t: Tid, th: Thread, sh: Shared) { t in s.threads && s.threads[t] == th && s.sh == sh }

  /** The next step of t, as Next has it. */
  lemma Then(s: State, s1: State, t: Tid, th: Thread, sh: Shared, th': Thread, sh': Shared) returns (s2: State)
    requires Can(s, t, s1) && Now(s1, t, th, sh) && th.pc != Idle && th.victim == Null
    requires Next(th, t, sh).th == th' && Next(th, t, sh).sh == sh'
    ensures Can(s, t, s2) && Now(s2, t, th', sh')
  {
    hide Can, Next;
    s2 := Moves(s, s1, t);
  }

  lemma Locks(s: State, s1: State, t: Tid, th: Thread, sh: Shared) returns (s2: State)
    requires Can(s, t, s1) && Now(s1, t, th, sh) && th.pc == RSpin && th.victim == Null && !sh.write
    ensures Can(s, t, s2) && Now(s2, t, th.(pc := RLoad), sh.(read := sh.read + 1))
  {
    hide Can, Now;
    var sh' := sh.(read := sh.read + 1);
    s2 := Then(s, s1, t, th, sh, th.(pc := RAdd), sh);
    s2 := Then(s, s2, t, th.(pc := RAdd), sh, th.(pc := RCheck), sh');
    s2 := Then(s, s2, t, th.(pc := RCheck), sh', th.(pc := RLoad), sh');
  }

  lemma Loads(s: State, s1: State, t: Tid, th: Thread, sh: Shared) returns (s2: State)
    requires Can(s, t, s1) && Now(s1, t, th, sh) && th.pc == RLoad && th.victim == Null
    ensures Can(s, t, s2) && Now(s2, t, th.(pc := RCompare, seen := sh.obj, temp := sh.obj), sh.(read := sh.read - 1))
  {
    hide Can, Now;
    var th1 := th.(pc := RInc, seen := sh.obj);
    var th2 := th1.(pc := RUnlock, temp := sh.obj);
    s2 := Then(s, s1, t, th, sh, th1, sh);
    s2 := Then(s, s2, t, th1, sh, th2, sh);
    s2 := Then(s, s2, t, th2, sh, th2.(pc := RCompare), sh.(read := sh.read - 1));
  }

  lemma Keeps(s: State, s1: State, t: Tid, th: Thread, sh: Shared) returns (s2: State)
    requires Can(s, t, s1) && Now(s1, t, th, sh) && th.pc == RCompare && th.victim == Null
    ensures Can(s, t, s2) && Now(s2, t, th.(pc := Idle, last := th.temp, temp := Null), sh)
  {
    hide Can, Now;
    if th.temp == th.last {
      s2 := Then(s, s1, t, th, sh, th.(pc := RDrop), sh);
      s2 := Then(s, s2, t, th.(pc := RDrop), sh, th.(pc := Idle, temp := Null), sh);
    } else {
      s2 := Then(s, s1, t, th, sh, th.(pc := RSwap), sh);
      s2 := Then(s, s2, t, th.(pc := RSwap), sh, th.(pc := RKeep, last := Null), sh);
      s2 := Then(s, s2, t, th.(pc := RKeep, last := Null), sh, th.(pc := Idle, last := th.temp, temp := Null), sh);
    }
  }

  /** While nobody holds the write flag, a read gets through and returns what is published. */
  lemma ReadGetsThrough(s: State, t: Tid) returns (s': State)
    requires AtRest(s, t) && !s.sh.write
    ensures Can(s, t, s') && AtRest(s', t) && s'.threads[t].last == s.sh.obj && s'.sh == s.sh
  {
    hide Can, Apply;
    var th, sh := s.threads[t], s.sh;
    var s1 := CanBegin(s, t, Read, 0);
    var th1 := th.(pc := RSpin);
    s' := Locks(s, s1, t, th1, sh);
    s' := Loads(s, s', t, th1.(pc := RLoad), sh.(read := sh.read + 1));
    s' := Keeps(s, s', t, th1.(pc := RCompare, seen := sh.obj, temp := sh.obj), sh);
  }

  /** While nobody holds the lock, an update gets through and publishes its copy. */
  lemma UpdateGetsThrough(s: State, t: Tid, addr: Id) returns (s': State)
    requires AtRest(s, t) && !s.sh.write && s.sh.read == 0 && Unused(s, addr)
    ensures Can(s, t, s') && AtRest(s', t) && s'.sh == s.sh.(obj := Copy(addr), holder := Nobody)
  {
    hide Can, Apply;
    var s1 := CanBegin(s, t, Update, addr);
    s' := Publishes(s, s1, t, s1.threads[t], s.sh);
  }

  lemma Publishes(s: State, s1: State, t: Tid, th: Thread, sh: Shared) returns (s2: State)
    requires Can(s, t, s1) && Now(s1, t, th, sh) && th.pc == WLock && th.victim == Null && !sh.write && sh.read == 0
    ensures Can(s, t, s2) && Now(s2, t, th.(pc := Idle, seen := sh.obj, temp := Null, prior := Null), sh.(obj := th.temp, holder := Nobody))
  {
    hide Can, Now;
    var locked := sh.(write := true, holder := By(t));
    var stored := locked.(obj := th.temp);
    var th1 := th.(pc := WStore, seen := sh.obj);
    var th2 := th1.(pc := WUnlock, temp := Null, prior := sh.obj);
    s2 := Then(s, s1, t, th, sh, th.(pc := WWait), locked);
    s2 := Then(s, s2, t, th.(pc := WWait), locked, th.(pc := WLoad), locked);
    s2 := Then(s, s2, t, th.(pc := WLoad), locked, th1, locked);
    s2 := Then(s, s2, t, th1, locked, th2, stored);
    s2 := Then(s, s2, t, th2, stored, th2.(pc := WDrop), stored.(write := false, holder := Nobody));
    s2 := Then(s, s2, t, th2.(pc := WDrop), stored.(write := false, holder := Nobody),
               th2.(pc := Idle, prior := Null), stored.(write := false, holder := Nobody));
  }

  /** And so does a release, which leaves nothing published. */
  lemma ReleaseGetsThrough(s: State, t: Tid) returns (s': State)
    requires AtRest(s, t) && !s.sh.write && s.sh.read == 0
    ensures Can(s, t, s') && AtRest(s', t) && s'.sh == s.sh.(obj := Null, holder := Nobody, linked := true)
  {
    hide Can, Apply;
    var s1 := CanBegin(s, t, Release, 0);
    s' := Withdraws(s, s1, t, s1.threads[t], s.sh);
  }

  lemma Withdraws(s: State, s1: State, t: Tid, th: Thread, sh: Shared) returns (s2: State)
    requires Can(s, t, s1) && Now(s1, t, th, sh) && th.pc == VLock && th.victim == Null && !sh.write && sh.read == 0
    ensures Can(s, t, s2) && Now(s2, t, th.(pc := Idle), sh.(obj := Null, holder := Nobody, linked := true))
  {
    hide Can, Now;
    var locked := sh.(write := true, holder := By(t));
    var cleared := locked.(obj := Null, linked := true);
    s2 := Then(s, s1, t, th, sh, th.(pc := VWait), locked);
    s2 := Then(s, s2, t, th.(pc := VWait), locked, th.(pc := VDrop), locked);
    s2 := Then(s, s2, t, th.(pc := VDrop), locked, th.(pc := VClear), locked.(linked := false));
    s2 := Then(s, s2, t, th.(pc := VClear), locked.(linked := false), th.(pc := VUnlock), cleared);
    s2 := Then(s, s2, t, th.(pc := VUnlock), cleared, th.(pc := Idle), cleared.(write := false, holder := Nobody));
  }

  /** A reader can always let go of its copy. */
  lemma ForgetGetsThrough(s: State, t: Tid) returns (s': State)
    requires AtRest(s, t)
    ensures Can(s, t, s') && AtRest(s', t) && s'.threads[t].last == Null && s'.sh == s.sh
  {
    hide Can;
    var s1 := CanBegin(s, t, Forget, 0);
    s' := Moves(s, s1, t);
  }

  /** The lock is free exactly when no thread is inside it: nothing is left locked, whatever the history. */
  lemma LockIsFree(run: seq<State>, steps: seq<Step>, k: nat)
    requires IsRun(run, steps) && k < |run|
    ensures run[k].sh.write <==> exists t :: t in run[k].threads && HasWriteLock(run[k].threads[t].pc)
    ensures run[k].sh.read == 0 <==> forall t :: t in run[k].threads ==> !Counted(run[k].threads[t].pc)
  {
    RunsKeep(run, steps, k);
    hide IsRun, Pointers, Targets, RefsOk, VictimsOk;
    var s := run[k];
    if s.sh.write { assert HasWriteLock(s.threads[s.sh.holder.t].pc); }
    NoReaders(s.threads);
  }

  lemma NoReaders(threads: map<Tid, Thread>)
    ensures |Readers(threads)| == 0 <==> forall t :: t in threads ==> !Counted(threads[t].pc)
  {
    if |Readers(threads)| == 0 {
      forall t | t in threads ensures !Counted(threads[t].pc) { assert t !in Readers(threads); }
    } else {
      var t :| t in Readers(threads);
    }
  }
}
