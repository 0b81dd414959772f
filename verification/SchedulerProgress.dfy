/** What a thread of the scheduler can bring about: from every reachable state a service can be launched
    and sent to, its messages are dispatched, and once retired it is freed. */
module SchedulerProgress {
  import opened Scheduler

  /** Steps of thread t alone. */
  ghost predicate IsPath(run: seq<State>, t: Tid, what: seq<Action>) {
    && |run| == |what| + 1
    && forall i :: 0 <= i < |what| ==> Enabled(run[i], t, what[i]) && run[i + 1] == Apply(run[i], t, what[i])
  }

  /** Thread t can get from s to s' by its own steps. */
  ghost predicate Can(s: State, t: Tid, s': State) {
    exists run, what :: IsPath(run, t, what) && run[0] == s && run[|run| - 1] == s'
  }

  lemma CanStay(s: State, t: Tid)
    ensures Can(s, t, s)
  {
    assert IsPath([s], t, []);
  }

  lemma CanStep(s: State, t: Tid, a: Action)
    requires Enabled(s, t, a)
    ensures Can(s, t, Apply(s, t, a))
  {
    var s' := Apply(s, t, a);
    hide Enabled, Apply;
    assert IsPath([s, s'], t, [a]);
  }

  lemma CanGoOn(s: State, t: Tid, s1: State, s2: State)
    requires Can(s, t, s1) && Can(s1, t, s2)
    ensures Can(s, t, s2)
  {
    hide Enabled, Apply;
    var run, what :| IsPath(run, t, what) && run[0] == s && run[|run| - 1] == s1;
    var run', what' :| IsPath(run', t, what') && run'[0] == s1 && run'[|run'| - 1] == s2;
    Joined(run, what, run', what', t);
  }

  lemma Joined(run: seq<State>, what: seq<Action>, run': seq<State>, what': seq<Action>, t: Tid)
    requires IsPath(run, t, what) && IsPath(run', t, what') && run[|run| - 1] == run'[0]
    ensures var r := run + run'[1..]; IsPath(r, t, what + what') && r[0] == run[0] && r[|r| - 1] == run'[|run'| - 1]
  {
    hide Enabled, Apply;
    var r, a := run + run'[1..], what + what';
    forall k | 0 <= k < |a|
      ensures Enabled(r[k], t, a[k]) && r[k + 1] == Apply(r[k], t, a[k])
    {
      if k >= |what| {
        var k' := k - |what|;
        assert Enabled(run'[k'], t, what'[k']) && run'[k' + 1] == Apply(run'[k'], t, what'[k']);
        assert r[k] == run'[k'] && r[k + 1] == run'[k' + 1] && a[k] == what'[k'];
      } else {
        assert r[k] == run[k] && r[k + 1] == run[k + 1] && a[k] == what[k];
      }
    }
  }

  /** One more step after what has been done so far, with the invariant. */
  lemma Go(s: State, s1: State, w1: Owners, t: Tid, a: Action) returns (s2: State, w2: Owners)
    requires Can(s, t, s1) && Inv(s1, w1) && Enabled(s1, t, a)
    ensures s2 == Apply(s1, t, a) && Can(s, t, s2) && Inv(s2, w2)
  {
    hide Inv, Can, Enabled, Apply;
    s2 := Apply(s1, t, a);
    CanStep(s1, t, a);
    CanGoOn(s, t, s1, s2);
    w2 := ActionKeeps(s1, w1, t, a);
  }

  /** Nothing but thread t, service h and the list differs. */
  ghost predicate Only(s: State, s': State, t: Tid, h: Handle) {
    && s'.threads.Keys == s.threads.Keys
    && (forall u :: u in s.threads && u != t ==> s'.threads[u] == s.threads[u])
    && s'.services.Keys == s.services.Keys + {h}
    && (forall g :: g in s.services && g != h ==> s'.services[g] == s.services[g])
  }

  /** t deals with no service but h. */
  ghost predicate About(th: Thread, a: Action, h: Handle) {
    && (th.held.Some? ==> th.held.value == h)
    && (th.ctx.Some? ==> th.ctx.value == h)
    && (th.dying.Some? ==> th.dying.value == h)
    && (a.Create? || a.Grab? || a.Retire? ==> a.h == h)
  }

  lemma StepOnly(s: State, t: Tid, a: Action, h: Handle)
    requires Enabled(s, t, a) && About(s.threads[t], a, h) && (h in s.services || a == Create(h))
    ensures Only(s, Apply(s, t, a), t, h)
  {
    hide ApplyStep;
    if a == Step { StepOnlyStep(s, t, h); }
  }

  lemma StepOnlyStep(s: State, t: Tid, h: Handle)
    requires Enabled(s, t, Step) && About(s.threads[t], Step, h) && h in s.services
    ensures Only(s, ApplyStep(s, t), t, h)
  {
  }

  lemma StillOnly(s: State, s1: State, s2: State, t: Tid, h: Handle)
    requires Only(s, s1, t, h) && Only(s1, s2, t, h)
    ensures Only(s, s2, t, h)
  {
  }

  /** One more step of t with h. */
  lemma GoWith(s: State, s1: State, w1: Owners, t: Tid, a: Action, h: Handle) returns (s2: State, w2: Owners)
    requires Can(s, t, s1) && Inv(s1, w1) && Enabled(s1, t, a)
    requires Only(s, s1, t, h) && About(s1.threads[t], a, h) && (h in s1.services || a == Create(h))
    ensures s2 == Apply(s1, t, a) && Can(s, t, s2) && Inv(s2, w2) && Only(s, s2, t, h)
  {
    s2, w2 := Go(s, s1, w1, t, a) by { hide *; }
    StepOnly(s1, t, a, h) by { hide *; }
    StillOnly(s, s1, s2, t, h) by { hide *; }
  }

  /** A registered service has a reference besides those of the threads that hold it. */
  lemma RegisteredCount(s: State, w: Owners, t: Tid, h: Handle)
    requires Inv(s, w) && t in s.threads && h in s.services && s.services[h].registered
    ensures s.services[h].ref >= 1 && !s.services[h].release && s.threads[t].dying != Some(h)
    ensures s.threads[t].ctx == Some(h) ==> s.services[h].ref >= 2
  {
    if s.threads[t].ctx == Some(h) {
      assert t in RefHolders(s, h);
      assert |RefHolders(s, h)| >= 1;
    }
  }

  lemma ShapeOf(s: State, w: Owners, t: Tid)
    requires Inv(s, w) && t in s.threads
    ensures Known(s, s.threads[t]) && Shape(s.threads[t])
  {
  }

  lemma LinkedNotHeld(s: State, w: Owners, t: Tid, h: Handle)
    requires Inv(s, w) && t in s.threads && h in s.global
    ensures h in s.services && !Holds(s.threads[t], h)
  {
    hide Threads, Refs, Messages;
    KeysOf(s.services, w);
  }

  /** The worker t has just taken a queue from the list. */
  ghost predicate AtGot(s: State, t: Tid, g: Handle) {
    t in s.threads && s.threads[t] == Thread(Got, Some(g), None, None, None)
  }

  /** h waits at place i of the list, its service being sv. */
  ghost predicate Waits(s: State, h: Handle, i: nat, sv: Service) {
    i < |s.global| && s.global[i] == h && h in s.services && s.services[h] == sv
  }

  /** Either h is what the worker has, or it waits one place further ahead. */
  ghost predicate Nearer(s: State, t: Tid, h: Handle, i: nat, sv: Service) {
    if i == 0 then AtGot(s, t, h) && h in s.services && s.services[h] == sv
    else exists g :: AtGot(s, t, g) && Waits(s, h, i - 1, sv)
  }

  /** The worker asks for the next queue. */
  lemma TakesNext(s: State, s1: State, w1: Owners, t: Tid, h: Handle, i: nat, sv: Service) returns (s2: State, w2: Owners)
    requires Can(s, t, s1) && Inv(s1, w1) && t in s1.threads && s1.threads[t] == Thread(Next, None, None, None, None)
    requires Waits(s1, h, i, sv)
    ensures Can(s, t, s2) && Inv(s2, w2) && Nearer(s2, t, h, i, sv)
  {
    hide Inv, Can;
    s2, w2 := Go(s, s1, w1, t, Step);
    assert AtGot(s2, t, s1.global[0]);
    assert i > 0 ==> Waits(s2, h, i - 1, sv);
  }

  /** A registered service without messages. */
  lemma PassesIdle(s: State, w: Owners, t: Tid, g: Handle, h: Handle, i: nat, sv: Service) returns (s': State, w': Owners)
    requires Inv(s, w) && AtGot(s, t, g) && g in s.services && s.services[g].registered && s.services[g].msgs == []
    requires Waits(s, h, i, sv) && g != h
    ensures Can(s, t, s') && Inv(s', w') && Nearer(s', t, h, i, sv)
  {
    hide Inv, Can, Nearer;
    CanStay(s, t);
    RegisteredCount(s, w, t, g);
    var s1, w1 := Go(s, s, w, t, Step);
    var s2, w2 := Go(s, s1, w1, t, Step);
    RegisteredCount(s2, w2, t, g);
    var s3, w3 := Go(s, s2, w2, t, Step);
    s', w' := TakesNext(s, s3, w3, t, h, i, sv);
  }

  /** A registered service with messages: exactly the oldest one goes to the callback. */
  lemma Dispatches(s: State, w: Owners, t: Tid, g: Handle) returns (s': State, w': Owners)
    requires Inv(s, w) && AtGot(s, t, g) && g in s.services && s.services[g].registered && s.services[g].msgs != []
    ensures Can(s, t, s') && Inv(s', w') && s'.global == s.global
    ensures t in s'.threads && s'.threads[t] == Thread(Callback, Some(g), None, Some(g), None)
    ensures var sv := s.services[g];
      s'.services == s.services[g := sv.(ref := sv.ref + 1, msgs := sv.msgs[1..], dispatched := sv.dispatched + sv.msgs[..1])]
  {
    hide Inv, Can;
    CanStay(s, t);
    var s1, w1 := Go(s, s, w, t, Step);
    s', w' := Go(s, s1, w1, t, Step);
    assert s.services[g].msgs[..1] == [s.services[g].msgs[0]];
  }

  /** When the callback has returned, the queue goes to the end of the list and the worker goes on with
      the queue at its head. */
  lemma GivesWay(s: State, s1: State, w1: Owners, t: Tid, g: Handle) returns (s2: State, w2: Owners)
    requires Can(s, t, s1) && Inv(s1, w1) && t in s1.threads && s1.threads[t] == Thread(Callback, Some(g), None, Some(g), None)
    requires g in s1.services && s1.global != []
    ensures Can(s, t, s2) && Inv(s2, w2) && s2.services == s1.services && s2.global == s1.global[1..] + [g]
    ensures t in s2.threads && s2.threads[t] == Thread(AfterBatch, Some(s1.global[0]), None, Some(g), None)
  {
    hide Inv, Can;
    var s3, w3 := Go(s, s1, w1, t, Again(false));
    ShapeOf(s3, w3, t);
    var s4, w4 := Go(s, s3, w3, t, Step);
    ShapeOf(s4, w4, t);
    s2, w2 := Go(s, s4, w4, t, Step);
  }

  /** So it passes on to the next queue. */
  lemma PassesBusy(s: State, w: Owners, t: Tid, g: Handle, h: Handle, i: nat, sv: Service) returns (s': State, w': Owners)
    requires Inv(s, w) && AtGot(s, t, g) && g in s.services && s.services[g].registered && s.services[g].msgs != []
    requires Waits(s, h, i, sv) && g != h
    ensures Can(s, t, s') && Inv(s', w') && Nearer(s', t, h, i, sv)
  {
    hide Inv, Can;
    var s1, w1 := Dispatches(s, w, t, g);
    var s2, w2 := GivesWay(s, s1, w1, t, g);
    RegisteredCount(s2, w2, t, g);
    ShapeOf(s2, w2, t);
    s', w' := Go(s, s2, w2, t, Step);
    assert AtGot(s', t, s.global[0]);
    assert i > 0 ==> Waits(s', h, i - 1, sv);
  }

  /** A retired service whose context is still alive: its queue goes back to the list. */
  lemma PassesRetired(s: State, w: Owners, t: Tid, g: Handle, h: Handle, i: nat, sv: Service) returns (s': State, w': Owners)
    requires Inv(s, w) && AtGot(s, t, g) && g in s.services && !s.services[g].registered && !s.services[g].release
    requires Waits(s, h, i, sv) && g != h
    ensures Can(s, t, s') && Inv(s', w') && Nearer(s', t, h, i, sv)
  {
    hide Inv, Can, Nearer;
    CanStay(s, t);
    var s1, w1 := Go(s, s, w, t, Step);
    var s2, w2 := Go(s, s1, w1, t, Step);
    s', w' := TakesNext(s, s2, w2, t, h, i, sv);
  }

  /** The queue is freed: what was waiting has been dropped, and what was pushed and dispatched stands. */
  ghost predicate Buried(sv: Service, sv': Service) {
    && sv'.freed && sv'.msgs == [] && sv'.dropped == sv.dropped + sv.msgs
    && sv'.dispatched == sv.dispatched && sv'.pushed == sv.pushed
  }

  /** The worker drops the messages of a dead service one by one, and frees its queue. */
  lemma {:induction false} Drains(s: State, s1: State, w1: Owners, t: Tid, g: Handle) returns (s2: State, w2: Owners)
    requires Can(s, t, s1) && Inv(s1, w1) && t in s1.threads && s1.threads[t] == Thread(Dropping(true), Some(g), None, None, None)
    requires g in s1.services
    ensures Can(s, t, s2) && Inv(s2, w2) && s2.global == s1.global && s2.services.Keys == s1.services.Keys
    ensures t in s2.threads && s2.threads[t] == Thread(Next, None, None, None, None)
    ensures forall h :: h in s1.services && h != g ==> s2.services[h] == s1.services[h]
    ensures Buried(s1.services[g], s2.services[g])
    decreases |s1.services[g].msgs|
  {
    hide Inv, Can;
    var msgs := s1.services[g].msgs;
    var s3, w3 := Go(s, s1, w1, t, Step);
    if msgs == [] {
      s2, w2 := Go(s, s3, w3, t, Step);
    } else {
      s2, w2 := Drains(s, s3, w3, t, g);
      assert [msgs[0]] + msgs[1..] == msgs;
    }
  }

  /** A dead service: its queue is freed. */
  lemma Frees(s: State, w: Owners, t: Tid, g: Handle) returns (s': State, w': Owners)
    requires Inv(s, w) && AtGot(s, t, g) && g in s.services && !s.services[g].registered && s.services[g].release
    ensures Can(s, t, s') && Inv(s', w') && s'.global == s.global && s'.services.Keys == s.services.Keys
    ensures t in s'.threads && s'.threads[t] == Thread(Next, None, None, None, None)
    ensures forall h :: h in s.services && h != g ==> s'.services[h] == s.services[h]
    ensures Buried(s.services[g], s'.services[g])
  {
    hide Inv, Can;
    CanStay(s, t);
    var s1, w1 := Go(s, s, w, t, Step);
    var s2, w2 := Go(s, s1, w1, t, Step);
    s', w' := Drains(s, s2, w2, t, g);
  }

  /** Whatever queue the worker has, it gets rid of it and h comes nearer. */
  lemma Passes(s: State, w: Owners, t: Tid, g: Handle, h: Handle, i: nat, sv: Service) returns (s': State, w': Owners)
    requires Inv(s, w) && AtGot(s, t, g) && Waits(s, h, i, sv)
    ensures Can(s, t, s') && Inv(s', w') && Nearer(s', t, h, i, sv)
  {
    hide Inv, Can, Nearer;
    LinkedNotHeld(s, w, t, h);
    ShapeOf(s, w, t);
    if s.services[g].registered {
      if s.services[g].msgs == [] {
        s', w' := PassesIdle(s, w, t, g, h, i, sv);
      } else {
        s', w' := PassesBusy(s, w, t, g, h, i, sv);
      }
    } else if s.services[g].release {
      var s1, w1 := Frees(s, w, t, g);
      s', w' := TakesNext(s, s1, w1, t, h, i, sv);
    } else {
      s', w' := PassesRetired(s, w, t, g, h, i, sv);
    }
  }

  /** The worker comes to a queue that waits in the list, its service being as it was. */
  lemma {:induction false} ComesTo(s: State, w: Owners, t: Tid, g: Handle, h: Handle, i: nat, sv: Service) returns (s': State, w': Owners)
    requires Inv(s, w) && AtGot(s, t, g) && Waits(s, h, i, sv)
    ensures Can(s, t, s') && Inv(s', w') && AtGot(s', t, h) && h in s'.services && s'.services[h] == sv
    decreases i
  {
    hide Inv, Can, AtGot, Waits;
    s', w' := Passes(s, w, t, g, h, i, sv);
    if i > 0 {
      var g' :| AtGot(s', t, g') && Waits(s', h, i - 1, sv);
      var s1 := s';
      s', w' := ComesTo(s1, w', t, g', h, i - 1, sv);
      CanGoOn(s, t, s1, s');
    }
  }

  /** An idle worker comes to any queue in the list. */
  lemma IdleComesTo(s: State, w: Owners, t: Tid, h: Handle) returns (s': State, w': Owners)
    requires Inv(s, w) && t in s.threads && s.threads[t] == IDLE && h in s.global && h in s.services
    ensures Can(s, t, s') && Inv(s', w') && AtGot(s', t, h) && h in s'.services && s'.services[h] == s.services[h]
  {
    hide Inv, Can;
    var i :| 0 <= i < |s.global| && s.global[i] == h;
    CanStay(s, t);
    var s1, w1 := Go(s, s, w, t, Poll);
    if i == 0 {
      s', w' := s1, w1;
    } else {
      s', w' := ComesTo(s1, w1, t, s.global[0], h, i - 1, s.services[h]);
      CanGoOn(s, t, s1, s');
    }
  }

  /** A worker in the dispatch loop hands every waiting message to the callback, in order. */
  lemma {:induction false} DispatchesAll(s: State, s1: State, w1: Owners, t: Tid, h: Handle) returns (s2: State, w2: Owners)
    requires Can(s, t, s1) && Inv(s1, w1) && t in s1.threads && s1.threads[t] == Thread(Loop, Some(h), None, Some(h), None)
    requires h in s1.services
    ensures Can(s, t, s2) && Inv(s2, w2) && t in s2.threads && s2.threads[t] == Thread(AfterEmpty, None, None, Some(h), None)
    ensures var sv := s1.services[h];
      h in s2.services && s2.services[h] == sv.(msgs := [], dispatched := sv.dispatched + sv.msgs, inGlobal := false)
    decreases |s1.services[h].msgs|
  {
    hide Inv, Can;
    var sv := s1.services[h];
    var s3, w3 := Go(s, s1, w1, t, Step);
    if sv.msgs == [] {
      s2, w2 := s3, w3;
    } else {
      var s4, w4 := Go(s, s3, w3, t, Again(true));
      s2, w2 := DispatchesAll(s, s4, w4, t, h);
      assert [sv.msgs[0]] + sv.msgs[1..] == sv.msgs;
    }
  }

  /** The worker finishes what it is marking before it looks at the queue it took. */
  lemma MarksFirst(s: State, w: Owners, t: Tid, h: Handle) returns (s': State, w': Owners)
    requires Inv(s, w) && t in s.threads && s.threads[t].pc == Got && s.threads[t].held == Some(h)
    requires h in s.services && s.services[h].registered
    ensures Can(s, t, s') && Inv(s', w') && AtGot(s', t, h) && h in s'.services && s'.services[h] == s.services[h]
  {
    hide Inv, Can;
    CanStay(s, t);
    ShapeOf(s, w, t);
    RegisteredCount(s, w, t, h);
    if s.threads[t].dying == None {
      s', w' := s, w;
    } else {
      s', w' := Go(s, s, w, t, MarkRelease);
    }
  }

  // ------------------------------------------------------------ from every state of every run

  /** The head of h's messages, and nothing else of h, has gone to a callback that t now makes. */
  ghost predicate Delivered(sv: Service, s': State, t: Tid, h: Handle) {
    && t in s'.threads && s'.threads[t] == Thread(Callback, Some(h), None, Some(h), None)
    && sv.msgs != [] && h in s'.services
    && s'.services[h] == sv.(ref := sv.ref + 1, msgs := sv.msgs[1..], dispatched := sv.dispatched + sv.msgs[..1])
  }

  /** A thread that took the queue of a registered service dispatches its oldest message. */
  lemma HeldIsDispatched(run: seq<State>, who: seq<Tid>, what: seq<Action>, k: nat, t: Tid, h: Handle) returns (s': State)
    requires IsRun(run, who, what) && k < |run| && t in run[k].threads
    requires run[k].threads[t].pc == Got && run[k].threads[t].held == Some(h)
    requires h in run[k].services && run[k].services[h].registered && run[k].services[h].msgs != []
    ensures Can(run[k], t, s') && Delivered(run[k].services[h], s', t, h)
  {
    hide IsRun, Inv, Can;
    var w := RunsKeep(run, who, what, k);
    var s1, w1 := MarksFirst(run[k], w, t, h);
    var s2, w2 := Dispatches(s1, w1, t, h);
    s' := s2;
    CanGoOn(run[k], t, s1, s');
  }

  /** An idle worker can dispatch the oldest message of any registered service in the list. */
  lemma LinkedIsDispatched(run: seq<State>, who: seq<Tid>, what: seq<Action>, k: nat, t: Tid, h: Handle) returns (s': State)
    requires IsRun(run, who, what) && k < |run| && t in run[k].threads && run[k].threads[t] == IDLE
    requires h in run[k].global && h in run[k].services && run[k].services[h].registered && run[k].services[h].msgs != []
    ensures Can(run[k], t, s') && Delivered(run[k].services[h], s', t, h)
  {
    hide IsRun, Inv, Can;
    var w := RunsKeep(run, who, what, k);
    var s1, w1 := IdleComesTo(run[k], w, t, h);
    var s2, w2 := Dispatches(s1, w1, t, h);
    s' := s2;
    CanGoOn(run[k], t, s1, s');
  }

  /** It can go on until nothing waits: then everything pushed has been dispatched. */
  lemma AllIsDispatched(run: seq<State>, who: seq<Tid>, what: seq<Action>, k: nat, t: Tid, h: Handle) returns (s': State)
    requires IsRun(run, who, what) && k < |run| && t in run[k].threads && run[k].threads[t] == IDLE
    requires h in run[k].global && h in run[k].services && run[k].services[h].registered
    ensures Can(run[k], t, s') && h in s'.services && h !in s'.global
    ensures var sv, sv' := run[k].services[h], s'.services[h];
      && sv' == sv.(msgs := [], dispatched := sv'.pushed, inGlobal := false)
      && sv'.pushed == sv.dispatched + sv.msgs
  {
    hide *;
    var w := RunsKeep(run, who, what, k);
    var s1, w1 := IdleComesTo(run[k], w, t, h);
    var s2, w2 := EmptiesQueue(s1, w1, t, h);
    s' := s2;
    CanGoOn(run[k], t, s1, s');
    AllAccounted(s', w2, h);
  }

  lemma EmptiesQueue(s: State, w: Owners, t: Tid, h: Handle) returns (s': State, w': Owners)
    requires Inv(s, w) && AtGot(s, t, h) && h in s.services && s.services[h].registered
    ensures Can(s, t, s') && Inv(s', w') && h in s'.services
    ensures var sv := s.services[h]; s'.services[h] == sv.(msgs := [], dispatched := sv.dispatched + sv.msgs, inGlobal := false)
  {
    hide Inv, Can;
    CanStay(s, t);
    var s1, w1 := Go(s, s, w, t, Step);
    var s2, w2 := DispatchesAll(s, s1, w1, t, h);
    RegisteredCount(s2, w2, t, h);
    ShapeOf(s2, w2, t);
    s', w' := Go(s, s2, w2, t, Step);
  }

  lemma AllAccounted(s: State, w: Owners, h: Handle)
    requires Inv(s, w) && h in s.services && s.services[h].registered && s.services[h].msgs == []
    ensures s.services[h].dispatched == s.services[h].pushed
    ensures !s.services[h].inGlobal ==> h !in s.global
  {
    hide Threads;
    assert !s.services[h].release;
    assert s.services[h].dispatched + [] + [] == s.services[h].dispatched;
  }

  /** A service is launched by one thread's steps: registered, in the list once, with the registry's
      reference only. */
  lemma Launches(run: seq<State>, who: seq<Tid>, what: seq<Action>, k: nat, t: Tid, h: Handle) returns (s': State)
    requires IsRun(run, who, what) && k < |run| && t in run[k].threads && run[k].threads[t] == IDLE && h !in run[k].services
    ensures Can(run[k], t, s') && Only(run[k], s', t, h) && s'.threads[t] == IDLE
    ensures s'.services[h] == Service(1, true, [], true, false, false, [], [], []) && s'.global == run[k].global + [h]
  {
    hide IsRun, Inv, Can, Only;
    var w := RunsKeep(run, who, what, k);
    var s := run[k];
    var s1, w1 := Creates(s, w, t, h);
    OnlyHas(s, s1, t, h);
    var s2, w2 := GoWith(s, s1, w1, t, InitDone(true), h);
    var s3, w3 := GoWith(s, s2, w2, t, Step, h);
    var s4, w4 := GoWith(s, s3, w3, t, Step, h);
    s' := s4;
    OnlyHas(s, s', t, h);
  }

  lemma OnlyHas(s: State, s': State, t: Tid, h: Handle)
    requires Only(s, s', t, h)
    ensures h in s'.services && (t in s.threads ==> t in s'.threads)
  {
  }

  lemma OnlySelf(s: State, t: Tid, h: Handle)
    requires h in s.services
    ensures Only(s, s, t, h)
  {
  }

  lemma Creates(s: State, w: Owners, t: Tid, h: Handle) returns (s': State, w': Owners)
    requires Inv(s, w) && t in s.threads && s.threads[t] == IDLE && h !in s.services
    ensures Can(s, t, s') && Inv(s', w') && Only(s, s', t, h) && s'.global == s.global
    ensures s'.threads[t] == Thread(Init, Some(h), None, Some(h), None)
    ensures s'.services[h] == Service(2, true, [], true, false, false, [], [], [])
  {
    hide Inv, Can;
    CanStay(s, t);
    s', w' := Go(s, s, w, t, Create(h));
  }

  /** A service whose init fails is freed by the same thread, and was never in the list. */
  lemma FailedLaunchFrees(run: seq<State>, who: seq<Tid>, what: seq<Action>, k: nat, t: Tid, h: Handle) returns (s': State)
    requires IsRun(run, who, what) && k < |run| && t in run[k].threads && run[k].threads[t] == IDLE && h !in run[k].services
    ensures Can(run[k], t, s') && Only(run[k], s', t, h) && s'.threads[t] == IDLE && s'.global == run[k].global
    ensures s'.services[h] == Service(0, false, [], false, true, true, [], [], [])
  {
    hide IsRun, Inv, Can, Only;
    var w := RunsKeep(run, who, what, k);
    var s := run[k];
    var s1, w1 := Creates(s, w, t, h);
    OnlyHas(s, s1, t, h);
    var s2, w2 := GoWith(s, s1, w1, t, InitDone(false), h);
    var s3, w3 := GoWith(s, s2, w2, t, Step, h);
    var s4, w4 := GoWith(s, s3, w3, t, Step, h);
    s' := GivesUp(s, s4, w4, t, h);
  }

  lemma GivesUp(s: State, s1: State, w1: Owners, t: Tid, h: Handle) returns (s': State)
    requires Can(s, t, s1) && Inv(s1, w1) && Only(s, s1, t, h) && t in s1.threads && h in s1.services
    requires s1.threads[t] == Thread(RetireRelease, Some(h), None, Some(h), None)
    requires s1.services[h] == Service(1, false, [], true, false, false, [], [], [])
    ensures Can(s, t, s') && Only(s, s', t, h) && t in s'.threads && s'.threads[t] == IDLE && s'.global == s1.global
    ensures h in s'.services && s'.services[h] == Service(0, false, [], false, true, true, [], [], [])
  {
    hide Inv, Can, Only;
    var s2, w2 := GoWith(s, s1, w1, t, Step, h);
    var s3, w3 := GoWith(s, s2, w2, t, MarkRelease, h);
    var s4, w4 := GoWith(s, s3, w3, t, Step, h);
    var s5, w5 := GoWith(s, s4, w4, t, Step, h);
    var s6, w6 := GoWith(s, s5, w5, t, Step, h);
    s' := s6;
  }

  /** A send to a registered service appends the message and leaves the queue scheduled. */
  lemma Sends(run: seq<State>, who: seq<Tid>, what: seq<Action>, k: nat, t: Tid, h: Handle, m: Message) returns (s': State)
    requires IsRun(run, who, what) && k < |run| && t in run[k].threads && run[k].threads[t] == IDLE
    requires h in run[k].services && run[k].services[h].registered
    ensures Can(run[k], t, s') && Only(run[k], s', t, h) && s'.threads[t] == IDLE
    ensures var sv := run[k].services[h];
      && s'.services[h] == sv.(msgs := sv.msgs + [m], pushed := sv.pushed + [m], inGlobal := true)
      && s'.global == run[k].global + (if sv.inGlobal then [] else [h])
  {
    hide IsRun, Inv, Can, Only;
    var w := RunsKeep(run, who, what, k);
    var s := run[k];
    CanStay(s, t);
    OnlySelf(s, t, h);
    var s1, w1 := GoWith(s, s, w, t, Grab(h), h);
    s' := Pushes(s, s1, w1, t, h, m);
    OnlyHas(s, s', t, h);
  }

  lemma Pushes(s: State, s1: State, w1: Owners, t: Tid, h: Handle, m: Message) returns (s': State)
    requires Can(s, t, s1) && Inv(s1, w1) && Only(s, s1, t, h) && t in s1.threads && h in s1.services && s1.services[h].registered
    requires s1.threads[t] == Thread(Send, None, None, Some(h), None)
    ensures Can(s, t, s') && Only(s, s', t, h) && t in s'.threads && s'.threads[t] == IDLE && h in s'.services
    ensures var sv := s1.services[h];
      && s'.services[h] == sv.(ref := sv.ref - 1, msgs := sv.msgs + [m], pushed := sv.pushed + [m], inGlobal := true)
      && s'.global == s1.global + (if sv.inGlobal then [] else [h])
  {
    hide Inv, Can, Only;
    var s2, w2 := GoWith(s, s1, w1, t, Push(m), h);
    RegisteredCount(s2, w2, t, h);
    var s3, w3 := GoWith(s, s2, w2, t, Step, h);
    s' := s3;
  }

  /** A service that no thread uses can be retired and freed; what it had not dispatched is dropped. */
  lemma RetiredIsFreed(run: seq<State>, who: seq<Tid>, what: seq<Action>, k: nat, t: Tid, h: Handle) returns (s': State)
    requires IsRun(run, who, what) && k < |run| && t in run[k].threads && run[k].threads[t] == IDLE
    requires h in run[k].services && run[k].services[h].registered && run[k].services[h].ref == 1 && !Held(run[k], h)
    ensures Can(run[k], t, s') && h in s'.services
    ensures Buried(run[k].services[h], s'.services[h]) && run[k].services[h].dropped == []
  {
    hide Can, Inv, Held, IsRun, AtGot, Enabled, Apply;
    var w := RunsKeep(run, who, what, k);
    var s1, w1 := Retires(run[k], w, t, h);
    var s2, w2 := IdleComesTo(s1, w1, t, h);
    CanGoOn(run[k], t, s1, s2);
    var s3, w3 := Frees(s2, w2, t, h);
    CanGoOn(run[k], t, s2, s3);
    s' := s3;
  }

  lemma Retires(s: State, w: Owners, t: Tid, h: Handle) returns (s': State, w': Owners)
    requires Inv(s, w) && t in s.threads && s.threads[t] == IDLE
    requires h in s.services && s.services[h].registered && s.services[h].ref == 1 && !Held(s, h)
    ensures Can(s, t, s') && Inv(s', w') && t in s'.threads && s'.threads[t] == IDLE && h in s'.global && h in s'.services
    ensures s'.services[h] == s.services[h].(ref := 0, registered := false, release := true)
    ensures s.services[h].dropped == []
  {
    hide Inv, Can, Held;
    Unheld(s, w, h);
    CanStay(s, t);
    var s1, w1 := Go(s, s, w, t, Scheduler.Action.Retire(h));
    var s2, w2 := Go(s, s1, w1, t, Step);
    s', w' := Go(s, s2, w2, t, MarkRelease);
  }

  lemma Unheld(s: State, w: Owners, h: Handle)
    requires Inv(s, w) && h in s.services && s.services[h].registered && !Held(s, h)
    ensures s.services[h].inGlobal <==> h in s.global
    ensures s.services[h].dropped == []
  {
    hide Threads;
    assert !s.services[h].release && !s.services[h].freed;
  }
}
