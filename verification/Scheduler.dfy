/** The service scheduler of skynet_mq.c, skynet_server.c and skynet_handle.c as a state
    machine: any number of threads create services, send to them, retire them and dispatch
    them.  Each lock-protected region, and each atomic reference-count operation, is one step;
    the steps of different threads interleave freely.

    A callback that itself sends, creates or retires is covered too: in the model it is another
    thread taking those steps while the dispatching thread stays in `Callback`. */
module Scheduler {
  type Handle = nat
  type Tid = nat

  datatype Message = Message(source: Handle, session: int, payload: seq<int>)

  datatype HandleOpt = None | Some(value: Handle)

  /** A skynet_context together with its message_queue.  `pushed`, `dispatched` and
      `dropped` record history. */
  datatype Service = Service(
    ref: int,               // ctx->ref
    registered: bool,       // the handle table still points to the context
    msgs: seq<Message>,     // the queue's content
    inGlobal: bool,         // q->in_global
    release: bool,          // q->release
    freed: bool,            // _release(q) has run
    pushed: seq<Message>,
    dispatched: seq<Message>,
    dropped: seq<Message>)

  /** Where a thread is; the comments name the function and the step it takes next. */
  datatype Pc =
    | Idle
    | Init                     // skynet_context_new: the module's init runs
    | InitOk                   //   init returned 0: skynet_context_release
    | PushNew                  //   skynet_globalmq_push(queue)
    | InitFail                 //   init failed: skynet_context_release
    | RetireOwn                //   skynet_handle_retire(handle)
    | RetireRelease            //   its skynet_context_release
    | MqRelease(worker: bool)  // skynet_mq_release, locked part
    | Dropping(worker: bool)   // _drop_queue: skynet_mq_pop
    | Free(worker: bool)       //   _release
    | Send                     // skynet_context_push: skynet_mq_push
    | Drop                     //   skynet_context_release, then return
    | Next                     // skynet_globalmq_pop for the next queue
    | Got                      // skynet_context_message_dispatch: skynet_handle_grab
    | Loop                     //   skynet_mq_pop
    | Callback                 //   dispatch_message
    | Tail                     //   skynet_globalmq_pop
    | Swap                     //   skynet_globalmq_push(q)
    | AfterBatch               //   skynet_context_release
    | AfterEmpty               //   skynet_context_release

  /** `held` (and `extra`) are queues the thread owns, `ctx` a context it holds a reference to,
      `dying` a context whose count it brought to zero and whose queue it must still mark. */
  datatype Thread = Thread(pc: Pc, held: HandleOpt, extra: HandleOpt, ctx: HandleOpt, dying: HandleOpt)

  const IDLE := Thread(Idle, None, None, None, None)

  datatype State = State(services: map<Handle, Service>, global: seq<Handle>, threads: map<Tid, Thread>)

  datatype Action =
    | Create(h: Handle)          // register a new context and create its queue
    | Grab(h: Handle)            // skynet_handle_grab on behalf of a sender
    | Retire(h: Handle)          // skynet_handle_retire, locked part
    | Poll                       // an idle worker asks for a queue
    | InitDone(ok: bool)
    | Push(m: Message)
    | Again(more: bool)          // the callback returned; more says whether i < n
    | Step                       // the only thing the thread can do next
    | MarkRelease                // delete_context: skynet_mq_mark_release

  function SetThread(s: State, t: Tid, th: Thread): State {
    s.(threads := s.threads[t := th])
  }

  function SetService(s: State, h: Handle, sv: Service): State {
    s.(services := s.services[h := sv])
  }

  function Link(s: State, h: Handle): State {
    s.(global := s.global + [h])
  }

  /** skynet_globalmq_pop: the thread holds the head of the global list, if there is one. */
  function Pop(s: State, t: Tid, th: Thread, found: Pc, empty: Pc): State {
    if s.global == [] then SetThread(s, t, th.(pc := empty))
    else SetThread(s.(global := s.global[1..]), t, th.(pc := found, held := Some(s.global[0])))
  }

  /** ATOM_DEC of the held context's count. */
  function Unref(s: State, t: Tid, th: Thread, pc: Pc): State
    requires th.ctx.Some? && th.ctx.value in s.services
  {
    var h := th.ctx.value;
    var sv := s.services[h];
    SetThread(SetService(s, h, sv.(ref := sv.ref - 1)), t,
              th.(pc := pc, ctx := None, dying := if sv.ref == 1 then Some(h) else None))
  }

  /** skynet_handle_retire's locked part: the registry's reference passes to the thread. */
  function Unregister(s: State, t: Tid, th: Thread, h: Handle, found: Pc, absent: Pc): State
    requires h in s.services
  {
    if s.services[h].registered
    then SetThread(SetService(s, h, s.services[h].(registered := false)), t, th.(pc := found, ctx := Some(h)))
    else SetThread(s, t, th.(pc := absent))
  }

  /** Everything a thread owns is known to the model. */
  ghost predicate Known(s: State, th: Thread) {
    && (th.held.Some? ==> th.held.value in s.services)
    && (th.extra.Some? ==> th.extra.value in s.services)
    && (th.ctx.Some? ==> th.ctx.value in s.services)
    && (th.dying.Some? ==> th.dying.value in s.services)
  }

  /** What a thread owns at each point of its program. */
  ghost predicate Shape(th: Thread) {
    && (th.extra.Some? <==> th.pc == Swap)
    && (th.pc.Dropping? || th.pc.Free? ==> th.dying.None?)
    && match th.pc {
         case Idle | Next => th.held.None? && th.ctx.None?
         case Init | InitOk | InitFail | RetireRelease | Loop | Callback | Tail | Swap => th.held.Some? && th.ctx == th.held
         case PushNew | RetireOwn | MqRelease(_) | Dropping(_) | Free(_) | Got => th.held.Some? && th.ctx.None?
         case Send | Drop | AfterEmpty => th.held.None? && th.ctx.Some?
         case AfterBatch => th.held.Some? && th.ctx.Some?
       }
  }

  ghost predicate Enabled(s: State, t: Tid, a: Action) {
    t in s.threads && Known(s, s.threads[t]) && Shape(s.threads[t]) &&
    var th := s.threads[t];
    if th.dying.Some? then a == MarkRelease
    else
      match a
      case Create(h) => th.pc == Idle && h !in s.services
      case Grab(h) => th.pc == Idle && h in s.services
      case Retire(h) => th.pc == Idle && h in s.services
      case Poll => th.pc == Idle
      case InitDone(_) => th.pc == Init
      case Push(_) => th.pc == Send
      case Again(_) => th.pc == Callback
      case Step => th.pc !in {Idle, Init, Send, Callback}
      case MarkRelease => false
  }

  /** skynet_mq_push. */
  function MqPush(s: State, h: Handle, m: Message): State
    requires h in s.services
  {
    var sv := s.services[h];
    var s1 := SetService(s, h, sv.(msgs := sv.msgs + [m], pushed := sv.pushed + [m], inGlobal := true));
    if sv.inGlobal then s1 else Link(s1, h)
  }

  function Taken(sv: Service, drop: bool): Service
    requires sv.msgs != []
  {
    var m := [sv.msgs[0]];
    if drop then sv.(msgs := sv.msgs[1..], dropped := sv.dropped + m) else sv.(msgs := sv.msgs[1..], dispatched := sv.dispatched + m)
  }

  /** skynet_mq_pop: takes a message, to be dropped or dispatched, or clears in_global. */
  function MqPop(s: State, h: Handle, drop: bool): State
    requires h in s.services
  {
    var sv := s.services[h];
    if sv.msgs == [] then SetService(s, h, sv.(inGlobal := false))
    else SetService(s, h, Taken(sv, drop))
  }

  /** skynet_mq_mark_release. */
  function MqMarkRelease(s: State, h: Handle): State
    requires h in s.services
  {
    var sv := s.services[h];
    var s1 := SetService(s, h, sv.(release := true));
    if sv.inGlobal then s1 else Link(s1, h)
  }

  function Apply(s: State, t: Tid, a: Action): State
    requires Enabled(s, t, a)
  {
    var th := s.threads[t];
    match a
    case Create(h) =>
      SetThread(SetService(s, h, Service(2, true, [], true, false, false, [], [], [])), t, th.(pc := Init, held := Some(h), ctx := Some(h)))
    case Grab(h) =>
      if s.services[h].registered
      then SetThread(SetService(s, h, s.services[h].(ref := s.services[h].ref + 1)), t, th.(pc := Send, ctx := Some(h)))
      else s
    case Retire(h) => Unregister(s, t, th, h, Drop, Idle)
    case Poll => Pop(s, t, th, Got, Idle)
    case InitDone(ok) => SetThread(s, t, th.(pc := if ok then InitOk else InitFail))
    case Push(m) => SetThread(MqPush(s, th.ctx.value, m), t, th.(pc := Drop))
    case Again(more) => SetThread(s, t, th.(pc := if more then Loop else Tail))
    case MarkRelease => SetThread(MqMarkRelease(s, th.dying.value), t, th.(dying := None))
    case Step => ApplyStep(s, t)
  }

  function ApplyStep(s: State, t: Tid): State
    requires Enabled(s, t, Step)
  {
    var th := s.threads[t];
    match th.pc
    case InitOk => Unref(s, t, th, PushNew)
    case PushNew => SetThread(Link(s, th.held.value), t, th.(pc := Idle, held := None))
    case InitFail => Unref(s, t, th, RetireOwn)
    case RetireOwn => Unregister(s, t, th, th.held.value, RetireRelease, MqRelease(false))
    case RetireRelease => Unref(s, t, th, MqRelease(false))
    case MqRelease(worker) =>
      if s.services[th.held.value].release then SetThread(s, t, th.(pc := Dropping(worker)))
      else SetThread(Link(s, th.held.value), t, th.(pc := if worker then Next else Idle, held := None))
    case Dropping(worker) =>
      var h := th.held.value;
      SetThread(MqPop(s, h, true), t, th.(pc := if s.services[h].msgs == [] then Free(worker) else th.pc))
    case Free(worker) =>
      var h := th.held.value;
      SetThread(SetService(s, h, s.services[h].(freed := true)), t, th.(pc := if worker then Next else Idle, held := None))
    case Drop => Unref(s, t, th, Idle)
    case Next => Pop(s, t, th, Got, Idle)
    case Got =>
      var h := th.held.value;
      if s.services[h].registered
      then SetThread(SetService(s, h, s.services[h].(ref := s.services[h].ref + 1)), t, th.(pc := Loop, ctx := Some(h)))
      else SetThread(s, t, th.(pc := MqRelease(true)))
    case Loop =>
      var h := th.held.value;
      if s.services[h].msgs == [] then SetThread(MqPop(s, h, false), t, th.(pc := AfterEmpty, held := None))
      else SetThread(MqPop(s, h, false), t, th.(pc := Callback))
    case Tail =>
      if s.global == [] then SetThread(s, t, th.(pc := AfterBatch))
      else SetThread(s.(global := s.global[1..]), t, th.(pc := Swap, extra := Some(s.global[0])))
    case Swap => SetThread(Link(s, th.held.value), t, th.(pc := AfterBatch, held := th.extra, extra := None))
    case AfterBatch => Unref(s, t, th, Got)
    case AfterEmpty => Unref(s, t, th, Next)
  }

  /** The reachable histories: any thread may take any enabled step at any time. */
  ghost predicate Initial(s: State) {
    s.services == map[] && s.global == [] && forall t :: t in s.threads ==> s.threads[t] == IDLE
  }

  ghost predicate IsRun(run: seq<State>, who: seq<Tid>, what: seq<Action>) {
    && |run| == |who| + 1 == |what| + 1
    && Initial(run[0])
    && forall i :: 0 <= i < |who| ==> Enabled(run[i], who[i], what[i]) && run[i + 1] == Apply(run[i], who[i], what[i])
  }

  // ---------------------------------------------------------------- what every step keeps

  ghost predicate Holds(th: Thread, h: Handle) {
    th.held == Some(h) || th.extra == Some(h)
  }

  ghost function RefHolders(s: State, h: Handle): set<Tid> {
    set t | t in s.threads && s.threads[t].ctx == Some(h)
  }

  ghost predicate Threads(s: State) {
    forall t :: t in s.threads ==> Known(s, s.threads[t]) && Shape(s.threads[t])
  }

  /** A context's count is its registration plus the threads that hold it. */
  ghost predicate Counted(s: State) {
    forall h :: h in s.services ==>
      && s.services[h].ref == |RefHolders(s, h)| + (if s.services[h].registered then 1 else 0)
      && (s.services[h].release ==> s.services[h].ref == 0)
  }

  /** A dead context's queue is marked once, by the one thread that brought the count to zero. */
  ghost predicate Doomed(s: State) {
    && (forall h :: h in s.services && s.services[h].ref == 0 && !s.services[h].release ==>
          exists t :: t in s.threads && s.threads[t].dying == Some(h))
    && (forall t :: t in s.threads && s.threads[t].dying.Some? && s.threads[t].dying.value in s.services ==>
          s.services[s.threads[t].dying.value].ref == 0 && !s.services[s.threads[t].dying.value].release)
    && (forall t, u :: t in s.threads && u in s.threads && s.threads[t].dying.Some? && s.threads[t].dying == s.threads[u].dying ==> t == u)
  }

  ghost predicate Refs(s: State) {
    Counted(s) && Doomed(s)
  }

  datatype Owner = Nobody | List | By(t: Tid)

  type Owners = map<Handle, Owner>

  ghost predicate Listed(global: seq<Handle>, w: Owners) {
    && (forall i, j :: 0 <= i < j < |global| ==> global[i] != global[j])
    && (forall h :: h in global <==> h in w && w[h] == List)
  }

  ghost predicate HeldBy(threads: map<Tid, Thread>, w: Owners) {
    && (forall t, h :: t in threads ==> (Holds(threads[t], h) <==> h in w && w[h] == By(t)))
    && (forall t :: t in threads && threads[t].extra.Some? ==> threads[t].extra != threads[t].held)
    && (forall h :: h in w && w[h].By? ==> w[h].t in threads)
  }

  ghost predicate Flagged(services: map<Handle, Service>, w: Owners) {
    && w.Keys == services.Keys
    && forall h :: h in w ==> (w[h] == Nobody <==> services[h].freed || (!services[h].inGlobal && !services[h].release))
  }

  /** w says who owns each queue: the global list (once), one thread, or nobody, and nobody
      only while the queue is neither scheduled nor marked for release, or once it is freed. */
  ghost predicate Owned(s: State, w: Owners) {
    Listed(s.global, w) && HeldBy(s.threads, w) && Flagged(s.services, w)
  }

  /** The messages pushed are those dispatched, then those dropped, then those waiting; and dropping
      begins only after the queue was marked for release. */
  ghost predicate Accounted(sv: Service) {
    sv.pushed == sv.dispatched + sv.dropped + sv.msgs && (sv.dropped != [] ==> sv.release)
  }

  lemma TakenAccounted(sv: Service, drop: bool)
    requires Accounted(sv) && sv.msgs != [] && sv.release == drop
    ensures Accounted(Taken(sv, drop))
  {
    assert sv.msgs == [sv.msgs[0]] + sv.msgs[1..];
  }

  /** No message is lost, repeated or reordered, and a queue is freed only when drained. */
  ghost predicate Messages(s: State) {
    && (forall h :: h in s.services ==>
          var sv := s.services[h];
          && Accounted(sv)
          && (!sv.inGlobal ==> sv.msgs == [])
          && (sv.freed ==> sv.release && sv.msgs == []))
    && (forall t :: t in s.threads && s.threads[t].held.Some? && s.threads[t].held.value in s.services ==>
          var sv := s.services[s.threads[t].held.value];
          && (s.threads[t].pc.Dropping? ==> sv.release)
          && (s.threads[t].pc.Free? ==> sv.release && !sv.inGlobal))
  }

  ghost predicate Inv(s: State, w: Owners) {
    Threads(s) && Refs(s) && Owned(s, w) && Messages(s)
  }

  // ------------------------------------------------------------ one step at a time

  lemma SizeChange(a: set<Tid>, b: set<Tid>, t: Tid)
    requires a - {t} == b - {t}
    ensures |b| == |a| + (if t in b then 1 else 0) - (if t in a then 1 else 0)
  {
    var rest := a - {t};
    if t in a { assert a == rest + {t}; } else { assert a == rest; }
    if t in b { assert b == rest + {t}; } else { assert b == rest; }
  }

  /** The owner of h becomes o; o is the list exactly if h was appended to it. */
  lemma ListChange(global: seq<Handle>, global': seq<Handle>, w: Owners, h: Handle, o: Owner)
    requires Listed(global, w) && h in w
    requires if o == List && w[h] != List then global' == global + [h]
             else if w[h] == List && o != List then |global| > 0 && global[0] == h && global' == global[1..]
             else global' == global
    ensures Listed(global', w[h := o])
  {
  }

  lemma HeldChange(threads: map<Tid, Thread>, threads': map<Tid, Thread>, w: Owners, t: Tid, h: Handle, o: Owner)
    requires HeldBy(threads, w) && h in w && t in threads && threads'.Keys == threads.Keys
    requires forall u :: u in threads && u != t ==> threads'[u].held == threads[u].held && threads'[u].extra == threads[u].extra
    requires o == w[h] || (w[h] in {By(t), List, Nobody} && o in {By(t), List, Nobody})
    requires forall g :: g != h ==> (Holds(threads'[t], g) <==> Holds(threads[t], g))
    requires Holds(threads'[t], h) <==> o == By(t)
    requires threads'[t].extra.Some? ==> threads'[t].extra != threads'[t].held
    ensures HeldBy(threads', w[h := o])
  {
  }

  lemma FlagChange(services: map<Handle, Service>, services': map<Handle, Service>, w: Owners, h: Handle, o: Owner)
    requires Flagged(services, w) && h in w && services'.Keys == services.Keys
    requires forall g :: g in services && g != h ==> SameQueue(services[g], services'[g])
    requires o == Nobody <==> services'[h].freed || (!services'[h].inGlobal && !services'[h].release)
    ensures Flagged(services', w[h := o])
  {
  }

  ghost predicate SameQueue(sv: Service, sv': Service) {
    sv'.freed == sv.freed && sv'.inGlobal == sv.inGlobal && sv'.release == sv.release
  }

  // ------------------------------------------------------------ every step keeps the invariant

  /** The state after a step at thread t and service h. */
  function Upd(s: State, t: Tid, th: Thread, h: Handle, sv: Service, global: seq<Handle>): State {
    State(s.services[h := sv], global, s.threads[t := th])
  }

  /** The ways a step changes references: none, take one, take over the registry's, drop one,
      mark the queue of a dead context. */
  ghost predicate RefOk(th: Thread, th': Thread, sv: Service, sv': Service, h: Handle) {
    || (th'.ctx == th.ctx && th'.dying == th.dying && sv'.registered == sv.registered && sv'.ref == sv.ref && sv'.release == sv.release)
    || (th.ctx.None? && th'.ctx == Some(h) && th.dying.None? && th'.dying.None?
        && sv.registered && sv'.registered && sv'.ref == sv.ref + 1 && sv'.release == sv.release)
    || (th.ctx.None? && th'.ctx == Some(h) && th.dying.None? && th'.dying.None?
        && sv.registered && !sv'.registered && sv'.ref == sv.ref && sv'.release == sv.release)
    || (th.ctx == Some(h) && th'.ctx.None? && th.dying.None? && th'.dying == (if sv.ref == 1 then Some(h) else None)
        && sv'.registered == sv.registered && sv'.ref == sv.ref - 1 && sv'.release == sv.release)
    || (th'.ctx == th.ctx && th.dying == Some(h) && th'.dying.None?
        && sv'.registered == sv.registered && sv'.ref == sv.ref && sv'.release)
  }

  /** The messages of one service move along its history; after release nothing reschedules it. */
  ghost predicate MessageOk(sv: Service, sv': Service, th': Thread, h: Handle) {
    && Accounted(sv')
    && (!sv'.inGlobal ==> sv'.msgs == [])
    && (sv'.freed ==> sv'.release && sv'.msgs == [])
    && (sv.release ==> sv'.release && (sv'.inGlobal ==> sv.inGlobal))
    && (th'.pc.Dropping? ==> th'.held == Some(h) && sv'.release)
    && (th'.pc.Free? ==> th'.held == Some(h) && sv'.release && !sv'.inGlobal)
  }

  /** How the owner of h's queue may change from w to o, and what that does to the thread, to the
      global list and to the queue's flags. */
  ghost predicate OwnerOk(th: Thread, th': Thread, sv': Service, g: seq<Handle>, g': seq<Handle>, t: Tid, h: Handle, w: Owner, o: Owner) {
    && (o == Nobody <==> sv'.freed || (!sv'.inGlobal && !sv'.release))
    && (|| (th'.held == th.held && th'.extra == th.extra && o == w && g' == g)
        || (th'.held == th.held && th'.extra == th.extra && w == Nobody && o == List && g' == g + [h])
        || (th.held == Some(h) && th'.held == th.extra && th'.extra.None? && o == List && g' == g + [h])
        || (th.held == Some(h) && th'.held == th.extra && th'.extra.None? && o == Nobody && g' == g)
        || (w == List && o == By(t) && |g| > 0 && g[0] == h && g' == g[1..] && th.extra.None?
            && if th.held.None? then th'.held == Some(h) && th'.extra.None? else th'.held == th.held && th'.extra == Some(h)))
  }

  lemma HoldersKept(s: State, t: Tid, th': Thread, h: Handle, sv': Service, g': seq<Handle>)
    requires t in s.threads && h in s.services && RefOk(s.threads[t], th', s.services[h], sv', h)
    ensures var s' := Upd(s, t, th', h, sv', g');
      && |RefHolders(s', h)| == |RefHolders(s, h)|
        + (if th'.ctx == Some(h) then 1 else 0) - (if s.threads[t].ctx == Some(h) then 1 else 0)
      && forall g :: g != h ==> RefHolders(s', g) == RefHolders(s, g)
  {
    var s' := Upd(s, t, th', h, sv', g');
    forall g | g != h ensures RefHolders(s', g) == RefHolders(s, g) { }
    assert RefHolders(s, h) - {t} == RefHolders(s', h) - {t};
    SizeChange(RefHolders(s, h), RefHolders(s', h), t);
  }

  lemma RefsKept(s: State, t: Tid, th': Thread, h: Handle, sv': Service, g': seq<Handle>)
    requires Refs(s) && t in s.threads && h in s.services && RefOk(s.threads[t], th', s.services[h], sv', h)
    ensures Refs(Upd(s, t, th', h, sv', g'))
  {
    assert Counted(Upd(s, t, th', h, sv', g')) by {
      hide Doomed;
      HoldersKept(s, t, th', h, sv', g');
      hide RefHolders;
    }
    assert s.services[h].registered || s.threads[t].ctx == Some(h) ==> s.services[h].ref >= 1 && !s.services[h].release by {
      if s.threads[t].ctx == Some(h) { assert t in RefHolders(s, h); }
    }
    hide Counted, RefHolders;
    DoomedKept(s, t, th', h, sv', g');
  }

  lemma DoomedKept(s: State, t: Tid, th': Thread, h: Handle, sv': Service, g': seq<Handle>)
    requires Doomed(s) && t in s.threads && h in s.services && RefOk(s.threads[t], th', s.services[h], sv', h)
    requires s.services[h].registered || s.threads[t].ctx == Some(h) ==> s.services[h].ref >= 1 && !s.services[h].release
    ensures Doomed(Upd(s, t, th', h, sv', g'))
  {
    var s' := Upd(s, t, th', h, sv', g');
    forall g | g in s'.services && s'.services[g].ref == 0 && !s'.services[g].release
      ensures exists u :: u in s'.threads && s'.threads[u].dying == Some(g)
    {
      if th'.dying == Some(g) {
        assert s'.threads[t].dying == Some(g);
      } else {
        assert s.services[g].ref == 0;
        var u :| u in s.threads && s.threads[u].dying == Some(g);
        assert s'.threads[u].dying == Some(g);
      }
    }
  }

  lemma MessagesKept(s: State, t: Tid, th': Thread, h: Handle, sv': Service, g': seq<Handle>)
    requires Messages(s) && t in s.threads && h in s.services && MessageOk(s.services[h], sv', th', h)
    ensures Messages(Upd(s, t, th', h, sv', g'))
  {
  }

  lemma ThreadsKept(s: State, t: Tid, th': Thread, h: Handle, sv': Service, g': seq<Handle>)
    requires Threads(s) && t in s.threads && h in s.services && Known(s, th') && Shape(th')
    ensures Threads(Upd(s, t, th', h, sv', g'))
  {
  }

  lemma OwnersKept(s: State, w: Owners, t: Tid, th': Thread, h: Handle, sv': Service, g': seq<Handle>, o: Owner)
    requires Owned(s, w) && t in s.threads && h in s.services
    requires OwnerOk(s.threads[t], th', sv', s.global, g', t, h, w[h], o)
    ensures Owned(Upd(s, t, th', h, sv', g'), w[h := o])
  {
    var th := s.threads[t];
    assert th.held == Some(h) ==> Holds(th, h);
    assert th.held.Some? && th.extra.Some? ==> th.held != th.extra;
    assert w[h] == List ==> !Holds(th, h);
    ListChange(s.global, g', w, h, o);
    HeldChange(s.threads, s.threads[t := th'], w, t, h, o);
    FlagChange(s.services, s.services[h := sv'], w, h, o);
  }

  /** Putting the parts together: a step at thread t and service h after which o owns h's queue. */
  lemma ChangeKeeps(s: State, w: Owners, t: Tid, th': Thread, h: Handle, sv': Service, g': seq<Handle>, o: Owner)
    requires Inv(s, w) && t in s.threads && h in s.services && Known(s, th') && Shape(th')
    requires RefOk(s.threads[t], th', s.services[h], sv', h)
    requires MessageOk(s.services[h], sv', th', h)
    requires OwnerOk(s.threads[t], th', sv', s.global, g', t, h, w[h], o)
    ensures Inv(Upd(s, t, th', h, sv', g'), w[h := o])
  {
    hide Refs, RefOk, Listed, HeldBy, Flagged, OwnerOk, Messages, MessageOk, Threads, Shape, Known;
    ThreadsKept(s, t, th', h, sv', g');
    RefsKept(s, t, th', h, sv', g');
    MessagesKept(s, t, th', h, sv', g');
    OwnersKept(s, w, t, th', h, sv', g', o);
  }

  /** A thread that holds a context keeps it alive, and its queue unmarked and unfreed. */
  lemma Alive(s: State, t: Tid, h: Handle)
    requires Refs(s) && Messages(s) && t in s.threads && h in s.services
    ensures s.threads[t].ctx == Some(h) ==> s.services[h].ref >= 1 && !s.services[h].release && !s.services[h].freed
    ensures s.threads[t].dying == Some(h) ==> s.services[h].ref == 0 && !s.services[h].release && !s.services[h].freed
  {
    if s.threads[t].ctx == Some(h) { assert t in RefHolders(s, h); }
  }

  /** What the invariant says about thread t and service h themselves. */
  lemma Local(s: State, w: Owners, t: Tid, h: Handle)
    requires Inv(s, w) && t in s.threads && h in s.services
    ensures var th, sv := s.threads[t], s.services[h];
      && h in w && Known(s, th) && Shape(th)
      && (w[h] == Nobody <==> sv.freed || (!sv.inGlobal && !sv.release))
      && (th.held == Some(h) ==> w[h] == By(t))
      && (th.ctx == Some(h) ==> sv.ref >= 1 && !sv.release && !sv.freed)
      && (th.dying == Some(h) ==> sv.ref == 0 && !sv.release && !sv.freed)
      && Accounted(sv)
      && (!sv.inGlobal ==> sv.msgs == [])
      && (sv.freed ==> sv.release && sv.msgs == [])
      && (th.held == Some(h) && th.pc.Dropping? ==> sv.release)
      && (th.held == Some(h) && th.pc.Free? ==> sv.release && !sv.inGlobal)
  {
    Alive(s, t, h);
    hide Refs, Shape;
    assert s.threads[t].held == Some(h) ==> Holds(s.threads[t], h);
  }

  lemma UnrefKeeps(s: State, w: Owners, t: Tid, pc: Pc)
    requires Inv(s, w) && t in s.threads && s.threads[t].ctx.Some? && s.threads[t].dying.None?
    requires s.threads[t].ctx.value in s.services
    requires !pc.Dropping? && !pc.Free? && Shape(s.threads[t].(pc := pc, ctx := None))
    ensures Inv(Unref(s, t, s.threads[t], pc), w)
  {
    hide Inv;
    var th := s.threads[t];
    var h := th.ctx.value;
    var sv := s.services[h];
    var th' := th.(pc := pc, ctx := None, dying := if sv.ref == 1 then Some(h) else None);
    assert Shape(th');
    hide Shape;
    Local(s, w, t, h);
    assert w[h := w[h]] == w;
    ChangeKeeps(s, w, t, th', h, sv.(ref := sv.ref - 1), s.global, w[h]);
  }

  lemma RefsPc(s: State, t: Tid, pc: Pc)
    requires Refs(s) && t in s.threads
    ensures Refs(SetThread(s, t, s.threads[t].(pc := pc)))
  {
    var s' := SetThread(s, t, s.threads[t].(pc := pc));
    forall h ensures RefHolders(s', h) == RefHolders(s, h) { }
    hide RefHolders;
    forall h | h in s'.services && s'.services[h].ref == 0 && !s'.services[h].release
      ensures exists u :: u in s'.threads && s'.threads[u].dying == Some(h)
    {
      var u :| u in s.threads && s.threads[u].dying == Some(h);
      assert s'.threads[u].dying == Some(h);
    }
  }

  lemma OwnedPc(s: State, w: Owners, t: Tid, pc: Pc)
    requires Owned(s, w) && t in s.threads
    ensures Owned(SetThread(s, t, s.threads[t].(pc := pc)), w)
  {
    hide Listed, Flagged;
    var th := s.threads[t];
    assert forall h :: Holds(th.(pc := pc), h) <==> Holds(th, h);
  }

  lemma MessagesPc(s: State, t: Tid, pc: Pc)
    requires Messages(s) && t in s.threads && !pc.Dropping? && !pc.Free?
    ensures Messages(SetThread(s, t, s.threads[t].(pc := pc)))
  {
  }

  lemma ThreadsPc(s: State, t: Tid, pc: Pc)
    requires Threads(s) && t in s.threads && Shape(s.threads[t].(pc := pc))
    ensures Threads(SetThread(s, t, s.threads[t].(pc := pc)))
  {
  }

  /** A step that touches no service: only thread t's program point changes. */
  lemma PcKeeps(s: State, w: Owners, t: Tid, pc: Pc)
    requires Inv(s, w) && t in s.threads && !pc.Dropping? && !pc.Free? && Shape(s.threads[t].(pc := pc))
    ensures Inv(SetThread(s, t, s.threads[t].(pc := pc)), w)
  {
    hide Threads, Refs, Owned, Messages, Shape;
    ThreadsPc(s, t, pc);
    RefsPc(s, t, pc);
    OwnedPc(s, w, t, pc);
    MessagesPc(s, t, pc);
  }

  lemma HeadListed(s: State, w: Owners)
    requires Inv(s, w) && s.global != []
    ensures s.global[0] in s.services && s.global[0] in w && w[s.global[0]] == List
  {
  }

  /** The thread takes the head of the global list. */
  lemma PopKeeps(s: State, w: Owners, t: Tid, th': Thread) returns (w': Owners)
    requires Inv(s, w) && t in s.threads && s.global != [] && Shape(th') && s.threads[t].extra.None?
    requires !th'.pc.Dropping? && !th'.pc.Free?
    requires if s.threads[t].held.None? then th' == s.threads[t].(pc := th'.pc, held := Some(s.global[0]))
             else th' == s.threads[t].(pc := th'.pc, extra := Some(s.global[0]))
    ensures Inv(SetThread(s.(global := s.global[1..]), t, th'), w')
  {
    hide Inv, Shape;
    var h := s.global[0];
    HeadListed(s, w);
    Local(s, w, t, h);
    ChangeKeeps(s, w, t, th', h, s.services[h], s.global[1..], By(t));
    assert s.services[h := s.services[h]] == s.services;
    w' := w[h := By(t)];
  }

  const NEWBORN := Service(2, true, [], true, false, false, [], [], [])

  lemma CountedNew(s: State, t: Tid, h: Handle, th': Thread)
    requires Threads(s) && Counted(s) && t in s.threads && h !in s.services
    requires s.threads[t].ctx.None? && th'.ctx == Some(h)
    ensures Counted(Upd(s, t, th', h, NEWBORN, s.global))
  {
    var s' := Upd(s, t, th', h, NEWBORN, s.global);
    hide Shape;
    assert RefHolders(s', h) == {t};
    forall g | g != h ensures RefHolders(s', g) == RefHolders(s, g) { }
    hide RefHolders;
  }

  lemma DoomedNew(s: State, t: Tid, h: Handle, th': Thread)
    requires Threads(s) && Doomed(s) && t in s.threads && h !in s.services && th'.dying == s.threads[t].dying
    ensures Doomed(Upd(s, t, th', h, NEWBORN, s.global))
  {
    var s' := Upd(s, t, th', h, NEWBORN, s.global);
    hide Shape;
    forall g | g in s'.services && s'.services[g].ref == 0 && !s'.services[g].release
      ensures exists u :: u in s'.threads && s'.threads[u].dying == Some(g)
    {
      var u :| u in s.threads && s.threads[u].dying == Some(g);
      assert s'.threads[u].dying == Some(g);
    }
  }

  lemma OwnedNew(s: State, w: Owners, t: Tid, h: Handle, th': Thread)
    requires Owned(s, w) && t in s.threads && h !in s.services
    requires s.threads[t].held.None? && s.threads[t].extra.None? && th'.held == Some(h) && th'.extra.None?
    ensures Owned(Upd(s, t, th', h, NEWBORN, s.global), w[h := By(t)])
  {
    hide Listed, HeldBy, Flagged;
    KeysOf(s.services, w);
    ListedNew(s.global, w, t, h);
    HeldNew(s.threads, w, t, h, th');
    FlaggedNew(s.services, w, t, h);
  }

  lemma KeysOf(services: map<Handle, Service>, w: Owners)
    requires Flagged(services, w)
    ensures w.Keys == services.Keys
  {
  }

  lemma ListedNew(global: seq<Handle>, w: Owners, t: Tid, h: Handle)
    requires Listed(global, w) && h !in w
    ensures Listed(global, w[h := By(t)])
  {
  }

  lemma HeldNew(threads: map<Tid, Thread>, w: Owners, t: Tid, h: Handle, th': Thread)
    requires HeldBy(threads, w) && t in threads && h !in w
    requires threads[t].held.None? && threads[t].extra.None? && th'.held == Some(h) && th'.extra.None?
    ensures HeldBy(threads[t := th'], w[h := By(t)])
  {
  }

  lemma FlaggedNew(services: map<Handle, Service>, w: Owners, t: Tid, h: Handle)
    requires Flagged(services, w) && h !in w
    ensures Flagged(services[h := NEWBORN], w[h := By(t)])
  {
  }

  lemma RestNew(s: State, t: Tid, h: Handle, th': Thread)
    requires Threads(s) && Messages(s) && t in s.threads && h !in s.services
    requires Shape(th') && !th'.pc.Dropping? && !th'.pc.Free? && Known(Upd(s, t, th', h, NEWBORN, s.global), th')
    ensures Threads(Upd(s, t, th', h, NEWBORN, s.global)) && Messages(Upd(s, t, th', h, NEWBORN, s.global))
  {
  }

  lemma CreateKeeps(s: State, w: Owners, t: Tid, h: Handle)
    requires Inv(s, w) && Enabled(s, t, Create(h))
    ensures Inv(Apply(s, t, Create(h)), w[h := By(t)])
  {
    hide Counted, Doomed, Messages, Threads, Owned;
    var th' := s.threads[t].(pc := Init, held := Some(h), ctx := Some(h));
    RestNew(s, t, h, th');
    CountedNew(s, t, h, th');
    DoomedNew(s, t, h, th');
    OwnedNew(s, w, t, h, th');
  }

  lemma MarkKeeps(s: State, w: Owners, t: Tid) returns (w': Owners)
    requires Inv(s, w) && Enabled(s, t, MarkRelease)
    ensures Inv(Apply(s, t, MarkRelease), w')
  {
    hide Inv;
    var th := s.threads[t];
    var h := th.dying.value;
    var sv := s.services[h];
    assert Shape(th.(dying := None));
    hide Shape;
    Local(s, w, t, h);
    var o := if sv.inGlobal then w[h] else List;
    ChangeKeeps(s, w, t, th.(dying := None), h, sv.(release := true), if sv.inGlobal then s.global else s.global + [h], o);
    w' := w[h := o];
  }

  lemma PushKeeps(s: State, w: Owners, t: Tid, m: Message) returns (w': Owners)
    requires Inv(s, w) && Enabled(s, t, Push(m))
    ensures Inv(Apply(s, t, Push(m)), w')
  {
    hide Inv;
    var th := s.threads[t];
    var h := th.ctx.value;
    var sv := s.services[h];
    assert Shape(th.(pc := Drop));
    hide Shape;
    Local(s, w, t, h);
    var o := if sv.inGlobal then w[h] else List;
    assert sv.dispatched + sv.dropped + (sv.msgs + [m]) == sv.pushed + [m];
    ChangeKeeps(s, w, t, th.(pc := Drop), h, sv.(msgs := sv.msgs + [m], pushed := sv.pushed + [m], inGlobal := true),
                if sv.inGlobal then s.global else s.global + [h], o);
    w' := w[h := o];
  }

  /** skynet_handle_grab succeeds. */
  lemma GrabKeeps(s: State, w: Owners, t: Tid, h: Handle, pc: Pc)
    requires Inv(s, w) && t in s.threads && h in s.services && s.services[h].registered
    requires s.threads[t].ctx.None? && s.threads[t].dying.None? && !pc.Dropping? && !pc.Free? && Shape(s.threads[t].(pc := pc, ctx := Some(h)))
    ensures Inv(SetThread(SetService(s, h, s.services[h].(ref := s.services[h].ref + 1)), t, s.threads[t].(pc := pc, ctx := Some(h))), w)
  {
    hide Inv, Shape;
    var sv := s.services[h];
    Local(s, w, t, h);
    assert w[h := w[h]] == w;
    ChangeKeeps(s, w, t, s.threads[t].(pc := pc, ctx := Some(h)), h, sv.(ref := sv.ref + 1), s.global, w[h]);
  }

  lemma UnregisterKeeps(s: State, w: Owners, t: Tid, h: Handle, found: Pc, absent: Pc)
    requires Inv(s, w) && t in s.threads && h in s.services && s.threads[t].ctx.None? && s.threads[t].dying.None?
    requires !found.Dropping? && !found.Free? && Shape(s.threads[t].(pc := found, ctx := Some(h)))
    requires !absent.Dropping? && !absent.Free? && Shape(s.threads[t].(pc := absent))
    ensures Inv(Unregister(s, t, s.threads[t], h, found, absent), w)
  {
    hide Inv, Shape;
    var sv := s.services[h];
    if sv.registered {
      Local(s, w, t, h);
      assert w[h := w[h]] == w;
      ChangeKeeps(s, w, t, s.threads[t].(pc := found, ctx := Some(h)), h, sv.(registered := false), s.global, w[h]);
    } else {
      PcKeeps(s, w, t, absent);
    }
  }

  /** The thread links the queue it holds. */
  lemma LinkKeeps(s: State, w: Owners, t: Tid, th': Thread) returns (w': Owners)
    requires Inv(s, w) && t in s.threads && s.threads[t].held.Some? && s.threads[t].held.value in s.services && Shape(th')
    requires !th'.pc.Dropping? && !th'.pc.Free? && th' == s.threads[t].(pc := th'.pc, held := s.threads[t].extra, extra := None)
    ensures Inv(SetThread(Link(s, s.threads[t].held.value), t, th'), w')
  {
    hide Inv, Shape;
    var h := s.threads[t].held.value;
    var sv := s.services[h];
    Local(s, w, t, h);
    ChangeKeeps(s, w, t, th', h, sv, s.global + [h], List);
    assert s.services[h := sv] == s.services;
    w' := w[h := List];
  }

  /** The thread changes the queue it holds. */
  lemma HeldKeeps(s: State, w: Owners, t: Tid, th': Thread, sv': Service, o: Owner)
    requires Inv(s, w) && t in s.threads && s.threads[t].held.Some? && s.threads[t].held.value in s.services
    requires Shape(th') && Known(s, th')
    requires var h := s.threads[t].held.value;
      && RefOk(s.threads[t], th', s.services[h], sv', h)
      && MessageOk(s.services[h], sv', th', h)
      && OwnerOk(s.threads[t], th', sv', s.global, s.global, t, h, By(t), o)
    ensures Inv(SetThread(SetService(s, s.threads[t].held.value, sv'), t, th'), w[s.threads[t].held.value := o])
  {
    hide Inv, Shape, RefOk, MessageOk, OwnerOk;
    var h := s.threads[t].held.value;
    Local(s, w, t, h);
    ChangeKeeps(s, w, t, th', h, sv', s.global, o);
  }

  lemma StepKeeps(s: State, w: Owners, t: Tid) returns (w': Owners)
    requires Inv(s, w) && Enabled(s, t, Step)
    ensures Inv(Apply(s, t, Step), w')
  {
    hide Inv;
    var th := s.threads[t];
    w' := w;
    match th.pc {
      case InitOk => UnrefKeeps(s, w, t, PushNew);
      case InitFail => UnrefKeeps(s, w, t, RetireOwn);
      case RetireRelease => UnrefKeeps(s, w, t, MqRelease(false));
      case Drop => UnrefKeeps(s, w, t, Idle);
      case AfterBatch => UnrefKeeps(s, w, t, Got);
      case AfterEmpty => UnrefKeeps(s, w, t, Next);
      case PushNew => w' := LinkKeeps(s, w, t, th.(pc := Idle, held := None));
      case RetireOwn => UnregisterKeeps(s, w, t, th.held.value, RetireRelease, MqRelease(false));
      case MqRelease(worker) =>
        if s.services[th.held.value].release {
          w' := ReleaseKeeps(s, w, t);
        } else {
          w' := LinkKeeps(s, w, t, th.(pc := if worker then Next else Idle, held := None));
        }
      case Dropping(_) => w' := ReleaseKeeps(s, w, t);
      case Free(_) => w' := ReleaseKeeps(s, w, t);
      case Next => if s.global == [] { PcKeeps(s, w, t, Idle); } else { w' := PopKeeps(s, w, t, th.(pc := Got, held := Some(s.global[0]))); }
      case Got =>
        if s.services[th.held.value].registered { GrabKeeps(s, w, t, th.held.value, Loop); } else { PcKeeps(s, w, t, MqRelease(true)); }
      case Loop => w' := LoopKeeps(s, w, t);
      case Tail => if s.global == [] { PcKeeps(s, w, t, AfterBatch); } else { w' := PopKeeps(s, w, t, th.(pc := Swap, extra := Some(s.global[0]))); }
      case Swap => w' := LinkKeeps(s, w, t, th.(pc := AfterBatch, held := th.extra, extra := None));
    }
  }

  /** skynet_mq_release on a marked queue: drop what is left, then free it. */
  lemma ReleaseKeeps(s: State, w: Owners, t: Tid) returns (w': Owners)
    requires Inv(s, w) && Enabled(s, t, Step)
    requires var pc := s.threads[t].pc;
      pc.Dropping? || pc.Free? || (pc.MqRelease? && s.services[s.threads[t].held.value].release)
    ensures Inv(Apply(s, t, Step), w')
  {
    hide Inv;
    var th := s.threads[t];
    var h := th.held.value;
    var sv := s.services[h];
    Local(s, w, t, h);
    var th', sv', o := th.(pc := Dropping(th.pc.worker)), sv, By(t);
    if th.pc.Dropping? {
      if sv.msgs == [] {
        th', sv' := th.(pc := Free(th.pc.worker)), sv.(inGlobal := false);
      } else {
        th', sv' := th, Taken(sv, true);
        TakenAccounted(sv, true);
      }
    } else if th.pc.Free? {
      th', sv', o := th.(pc := if th.pc.worker then Next else Idle, held := None), sv.(freed := true), Nobody;
    }
    HeldKeeps(s, w, t, th', sv', o);
    assert s.services[h := sv] == s.services;
    w' := w[h := o];
  }

  lemma LoopKeeps(s: State, w: Owners, t: Tid) returns (w': Owners)
    requires Inv(s, w) && Enabled(s, t, Step) && s.threads[t].pc == Loop
    ensures Inv(Apply(s, t, Step), w')
  {
    hide Inv;
    var th := s.threads[t];
    var h := th.held.value;
    var sv := s.services[h];
    Local(s, w, t, h);
    var th', sv', o := th.(pc := AfterEmpty, held := None), sv.(inGlobal := false), Nobody;
    if sv.msgs != [] {
      th', sv', o := th.(pc := Callback), Taken(sv, false), By(t);
      TakenAccounted(sv, false);
    }
    HeldKeeps(s, w, t, th', sv', o);
    w' := w[h := o];
  }

  lemma ActionKeeps(s: State, w: Owners, t: Tid, a: Action) returns (w': Owners)
    requires Inv(s, w) && Enabled(s, t, a)
    ensures Inv(Apply(s, t, a), w')
  {
    hide Inv;
    var th := s.threads[t];
    w' := w;
    match a {
      case Create(h) => CreateKeeps(s, w, t, h); w' := w[h := By(t)];
      case Grab(h) => if s.services[h].registered { GrabKeeps(s, w, t, h, Send); }
      case Retire(h) => UnregisterKeeps(s, w, t, h, Drop, Idle);
      case Poll => if s.global == [] { PcKeeps(s, w, t, Idle); } else { w' := PopKeeps(s, w, t, th.(pc := Got, held := Some(s.global[0]))); }
      case InitDone(ok) => PcKeeps(s, w, t, if ok then InitOk else InitFail);
      case Push(m) => w' := PushKeeps(s, w, t, m);
      case Again(more) => PcKeeps(s, w, t, if more then Loop else Tail);
      case Step => w' := StepKeeps(s, w, t);
      case MarkRelease => w' := MarkKeeps(s, w, t);
    }
  }

  // ------------------------------------------------------------ what every history promises

  lemma {:induction false} RunsKeep(run: seq<State>, who: seq<Tid>, what: seq<Action>, k: nat) returns (w: Owners)
    requires IsRun(run, who, what) && k < |run|
    ensures Inv(run[k], w)
  {
    if k == 0 {
      w := map[];
      assert Inv(run[0], w);
    } else {
      hide Inv;
      var v := RunsKeep(run, who, what, k - 1);
      w := ActionKeeps(run[k - 1], v, who[k - 1], what[k - 1]);
    }
  }

  ghost predicate Held(s: State, h: Handle) {
    exists t :: t in s.threads && Holds(s.threads[t], h)
  }

  /** A queue is linked at most once or held by at most one thread, never both; it is linked or
      held whenever it has messages or waits to be freed, and neither once it is freed. */
  ghost predicate OneOwner(s: State, h: Handle)
    requires h in s.services
  {
    var sv := s.services[h];
    && (forall i, j :: 0 <= i < |s.global| && 0 <= j < |s.global| && s.global[i] == s.global[j] == h ==> i == j)
    && (forall t, u :: t in s.threads && u in s.threads && Holds(s.threads[t], h) && Holds(s.threads[u], h) ==> t == u)
    && !(h in s.global && Held(s, h))
    && (!sv.freed && (sv.msgs != [] || sv.release) ==> h in s.global || Held(s, h))
    && (sv.freed ==> h !in s.global && !Held(s, h))
  }

  lemma OneOwnerNow(s: State, w: Owners, h: Handle)
    requires Owned(s, w) && Messages(s) && h in s.services
    ensures OneOwner(s, h)
  {
    if Held(s, h) {
      var t :| t in s.threads && Holds(s.threads[t], h);
      assert w[h] == By(t);
    }
    if w[h].By? {
      assert Holds(s.threads[w[h].t], h);
    }
  }

  /** Exclusivity and no lost wakeup, in every interleaving. */
  lemma DispatchedByOne(run: seq<State>, who: seq<Tid>, what: seq<Action>, k: nat, h: Handle)
    requires IsRun(run, who, what) && k < |run| && h in run[k].services
    ensures OneOwner(run[k], h)
  {
    var w := RunsKeep(run, who, what, k);
    hide IsRun, Threads, Refs, Owned, Messages, OneOwner;
    OneOwnerNow(run[k], w, h);
  }

  /** No message is lost, repeated or reordered: at every instant the messages dispatched, then those
      dropped, then those still in the queue are the messages pushed, in order.  Nothing is dropped as long
      as the service is registered, or anybody refers to it, and a queue is freed only after it was marked
      for release and every pushed message was taken out. */
  lemma FifoExactlyOnce(run: seq<State>, who: seq<Tid>, what: seq<Action>, k: nat, h: Handle)
    requires IsRun(run, who, what) && k < |run| && h in run[k].services
    ensures var sv := run[k].services[h];
      && sv.pushed == sv.dispatched + sv.dropped + sv.msgs
      && (sv.registered || sv.ref > 0 ==> sv.dropped == [])
      && (sv.freed ==> sv.release && sv.pushed == sv.dispatched + sv.dropped)
  {
    var w := RunsKeep(run, who, what, k);
    hide IsRun, Threads, Owned;
    var sv := run[k].services[h];
    assert sv.registered ==> sv.ref >= 1;
    if sv.freed { assert sv.dispatched + sv.dropped + [] == sv.dispatched + sv.dropped; }
  }

  /** The queue whose memory the thread's next step uses, and whether the step links it. */
  function Touches(s: State, t: Tid, a: Action): HandleOpt
    requires Enabled(s, t, a)
  {
    var th := s.threads[t];
    match a
    case Push(_) => th.ctx
    case MarkRelease => th.dying
    case Step => if th.pc.PushNew? || th.pc.MqRelease? || th.pc.Dropping? || th.pc.Free? || th.pc.Got? || th.pc.Loop? || th.pc.Swap? then th.held else None
    case _ => None
  }

  /** The queue the step uses has not been freed; a queue is linked only when it is not linked
      already (the assertion in skynet_globalmq_push), freed only when it is not linked (the one in
      _release), and marked only once (the one in skynet_mq_mark_release). */
  ghost predicate SafeStep(s: State, t: Tid, a: Action)
    requires Enabled(s, t, a)
  {
    var s', q := Apply(s, t, a), Touches(s, t, a);
    && (q.Some? ==> q.value in s.services && !s.services[q.value].freed)
    && (a == MarkRelease ==> !s.services[q.value].release)
    && (|s'.global| > |s.global| ==> q.Some? && s'.global == s.global + [q.value] && q.value !in s.global)
    && (a == Step && s.threads[t].pc.Free? ==> q.value !in s.global)
  }

  lemma SafeNow(s: State, w: Owners, t: Tid, a: Action)
    requires Inv(s, w) && Enabled(s, t, a)
    ensures SafeStep(s, t, a)
  {
    hide Inv;
    var q := Touches(s, t, a);
    if q.Some? {
      Local(s, w, t, q.value);
      NotLinked(s, w, q.value);
    }
  }

  /** Every step of every history is safe. */
  lemma StepsAreSafe(run: seq<State>, who: seq<Tid>, what: seq<Action>, k: nat)
    requires IsRun(run, who, what) && k < |who|
    ensures Enabled(run[k], who[k], what[k]) && SafeStep(run[k], who[k], what[k])
  {
    var w := RunsKeep(run, who, what, k);
    hide Inv, SafeStep, Enabled, Apply;
    SafeNow(run[k], w, who[k], what[k]);
  }

  lemma NotLinked(s: State, w: Owners, h: Handle)
    requires Inv(s, w) && h in s.services
    ensures h in s.global <==> w[h] == List
  {
  }

  /** No thread is ever stuck: whatever the others have done, each thread has a next step. */
  lemma NeverStuck(run: seq<State>, who: seq<Tid>, what: seq<Action>, k: nat, t: Tid) returns (a: Action)
    requires IsRun(run, who, what) && k < |run| && t in run[k].threads
    ensures Enabled(run[k], t, a)
  {
    var w := RunsKeep(run, who, what, k);
    hide IsRun, Threads, Refs, Owned, Messages;
    a := NextAction(run[k], t);
  }

  lemma NextAction(s: State, t: Tid) returns (a: Action)
    requires Threads(s) && t in s.threads
    ensures Enabled(s, t, a)
  {
    var th := s.threads[t];
    hide Threads;
    a := if th.dying.Some? then MarkRelease
         else match th.pc
           case Idle => Poll
           case Init => InitDone(true)
           case Send => Push(Message(0, 0, []))
           case Callback => Again(false)
           case _ => Step;
  }

  /** A queue is freed once: from then on its service never changes again. */
  lemma {:induction false} FreedForGood(run: seq<State>, who: seq<Tid>, what: seq<Action>, i: nat, j: nat, h: Handle)
    requires IsRun(run, who, what) && i <= j < |run| && h in run[i].services && run[i].services[h].freed
    ensures h in run[j].services && run[j].services[h] == run[i].services[h]
  {
    hide Inv, Apply, Enabled;
    if i < j {
      FreedForGood(run, who, what, i, j - 1, h);
      var w := RunsKeep(run, who, what, j - 1);
      FreedUntouched(run[j - 1], w, who[j - 1], what[j - 1], h);
    }
  }

  lemma FreedUntouched(s: State, w: Owners, t: Tid, a: Action, h: Handle)
    requires Inv(s, w) && Enabled(s, t, a) && h in s.services && s.services[h].freed
    ensures h in Apply(s, t, a).services && Apply(s, t, a).services[h] == s.services[h]
  {
    hide Inv;
    Local(s, w, t, h);
    DeadUnregistered(s, w, h);
  }

  lemma DeadUnregistered(s: State, w: Owners, h: Handle)
    requires Inv(s, w) && h in s.services && s.services[h].freed
    ensures !s.services[h].registered
  {
  }
}
