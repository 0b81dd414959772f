/** The hierarchical timing wheel of skynet_timer.c.

    A node lives in one of 256 "near" lists or in one of 4 x 64 "level" lists, chosen
    from its 32-bit expiry and the wheel's 32-bit clock.  `TimerSpec` is the plain
    meaning (a list of due times, fired in insertion order); `Wheel` is the placement
    arithmetic; the class `Timer` is the in-place wheel, proved to refine the plain meaning.
  */
module TimerSpec {
  datatype Event = Event(handle: nat, session: int)

  /** One timeout request: `id` is its rank among all requests, `due` its absolute tick. */
  datatype Entry = Entry(id: nat, due: nat, event: Event)

  /** A dispatched request and the absolute tick at which it was dispatched. */
  datatype Firing = Firing(entry: Entry, at: nat)

  /** The plain timer: an unbounded clock, what was requested, what waits, what fired. */
  datatype Spec = Spec(now: nat, added: seq<Entry>, pending: seq<Entry>, fired: seq<Firing>)

  const INIT := Spec(0, [], [], [])

  /** Those entries of `s` that are (`wanted`) or are not due at tick `t`, in order. */
  function Due(s: seq<Entry>, t: nat, wanted: bool): (r: seq<Entry>)
    ensures forall e :: e in r <==> e in s && (e.due == t) == wanted
  {
    if s == [] then []
    else
      var rest := Due(s[..|s| - 1], t, wanted);
      var last := s[|s| - 1];
      assert s == s[..|s| - 1] + [last];
      if (last.due == t) == wanted then rest + [last] else rest
  }

  function Fire(s: seq<Entry>, t: nat): (r: seq<Firing>) {
    seq(|s|, i requires 0 <= i < |s| => Firing(s[i], t))
  }

  /** The three lock-protected regions of the timer. */
  datatype Step =
    | Add(delay: nat, event: Event)   // timer_add
    | Take                            // link_clear of the due list, then its dispatch
    | Shift                           // timer_shift

  /** timer_add takes a positive C int; timer_shift runs only once the due list is empty. */
  ghost predicate Enabled(s: Spec, step: Step) {
    match step
    case Add(d, _) => 0 < d < 0x8000_0000
    case Take => true
    case Shift => forall e :: e in s.pending ==> e.due != s.now
  }

  function Apply(s: Spec, step: Step): Spec {
    match step
    case Add(d, ev) =>
      var e := Entry(|s.added|, s.now + d, ev);
      s.(added := s.added + [e], pending := s.pending + [e])
    case Take =>
      s.(pending := Due(s.pending, s.now, false), fired := s.fired + Fire(Due(s.pending, s.now, true), s.now))
    case Shift => s.(now := s.now + 1)
  }

  /** `run` is a history: every state follows its predecessor by an enabled step. */
  ghost predicate IsRun(run: seq<Spec>, steps: seq<Step>) {
    && |run| == |steps| + 1
    && run[0] == INIT
    && forall i :: 0 <= i < |steps| ==> Enabled(run[i], steps[i]) && run[i + 1] == Apply(run[i], steps[i])
  }

  ghost predicate Before(a: Entry, b: Entry) {
    a.due < b.due || (a.due == b.due && a.id < b.id)
  }

  ghost predicate ById(s: seq<Entry>) {
    forall i, j :: 0 <= i < j < |s| ==> s[i].id < s[j].id
  }

  /** Requests are numbered in order; what waits is a subsequence of them, none of it overdue. */
  ghost predicate Waits(s: Spec) {
    && (forall i :: 0 <= i < |s.added| ==> s.added[i].id == i)
    && ById(s.pending)
    && (forall e :: e in s.pending ==> s.now <= e.due < s.now + 0x8000_0000 && e in s.added)
  }

  /** Every firing is of a request that no longer waits, at its own due tick. */
  ghost predicate OnTime(s: Spec) {
    forall f :: f in s.fired ==> f.at == f.entry.due <= s.now && f.entry in s.added && f.entry !in s.pending
  }

  ghost predicate InOrder(s: Spec) {
    && (forall k, l :: 0 <= k < l < |s.fired| ==> Before(s.fired[k].entry, s.fired[l].entry))
    && (forall e, f :: e in s.pending && f in s.fired ==> Before(f.entry, e))
  }

  ghost predicate NoneLost(s: Spec) {
    forall e :: e in s.added && e !in s.pending ==> Firing(e, e.due) in s.fired
  }

  /** What every history keeps. */
  ghost predicate Sound(s: Spec) {
    Waits(s) && OnTime(s) && InOrder(s) && NoneLost(s)
  }

  lemma {:induction false} DueById(s: seq<Entry>, t: nat, wanted: bool)
    requires ById(s)
    ensures ById(Due(s, t, wanted))
  {
    if s != [] {
      DueById(s[..|s| - 1], t, wanted);
      var rest := Due(s[..|s| - 1], t, wanted);
      forall i | 0 <= i < |rest|
        ensures rest[i].id < s[|s| - 1].id
      {
        assert rest[i] in s[..|s| - 1];
      }
    }
  }

  lemma FireIn(s: seq<Entry>, t: nat, f: Firing)
    ensures f in Fire(s, t) <==> f.at == t && f.entry in s
  {
    if f.at == t && f.entry in s {
      var i :| 0 <= i < |s| && s[i] == f.entry;
      assert Fire(s, t)[i] == f;
    }
  }

  lemma TakeKeepsSound(s: Spec)
    requires Sound(s)
    ensures Sound(Apply(s, Take))
  {
    var s' := Apply(s, Take);
    var due := Due(s.pending, s.now, true);
    DueById(s.pending, s.now, false);
    DueById(s.pending, s.now, true);
    forall f: Firing
      ensures f in s'.fired <==> f in s.fired || (f.at == s.now && f.entry in due)
    {
      FireIn(due, s.now, f);
    }
    assert OnTime(s') && NoneLost(s');
    TakeKeepsOrder(s);
  }

  lemma TakeKeepsOrder(s: Spec)
    requires Sound(s) && ById(Due(s.pending, s.now, true))
    ensures InOrder(Apply(s, Take))
  {
    var s' := Apply(s, Take);
    var due := Due(s.pending, s.now, true);
    var n := |s.fired|;
    forall k, l | 0 <= k < l < |s'.fired|
      ensures Before(s'.fired[k].entry, s'.fired[l].entry)
    {
      if l >= n {
        assert due[l - n] in s.pending;
        if k < n { assert s.fired[k] in s.fired; }
      }
    }
    forall e, f | e in s'.pending && f in s'.fired
      ensures Before(f.entry, e)
    {
      FireIn(due, s.now, f);
    }
  }

  lemma AddKeepsSound(s: Spec, d: nat, ev: Event)
    requires Sound(s) && Enabled(s, Add(d, ev))
    ensures Sound(Apply(s, Add(d, ev)))
  {
  }

  lemma {:induction false} StepKeepsSound(s: Spec, step: Step)
    requires Sound(s) && Enabled(s, step)
    ensures Sound(Apply(s, step))
  {
    match step {
      case Add(d, ev) => AddKeepsSound(s, d, ev);
      case Take => TakeKeepsSound(s);
      case Shift =>
    }
  }

  lemma {:induction false} RunsAreSound(run: seq<Spec>, steps: seq<Step>, k: nat)
    requires IsRun(run, steps) && k < |run|
    ensures Sound(run[k])
  {
    if k > 0 {
      RunsAreSound(run, steps, k - 1);
      StepKeepsSound(run[k - 1], steps[k - 1]);
    }
  }

  /** The promise of the timer, for every history and every instant of it.  A request has fired
      exactly when it no longer waits; it fired once, at its own due tick; requests fire in order
      of due tick and, for equal ticks, in the order they were made; and at every instant at
      which nothing is due, the fired requests are exactly those whose tick has come. */
  lemma {:induction false} FiresOnceOnTimeInOrder(run: seq<Spec>, steps: seq<Step>, k: nat, i: nat)
    requires IsRun(run, steps) && k < |run| && i < |run[k].added|
    ensures var s := run[k]; var e := s.added[i];
      && (e !in s.pending <==> Firing(e, e.due) in s.fired)
      && (forall f :: f in s.fired && f.entry == e ==> f.at == e.due)
      && (forall f, g :: 0 <= f < g < |s.fired| ==> Before(s.fired[f].entry, s.fired[g].entry))
      && ((forall p :: p in s.pending ==> p.due != s.now) ==> (e !in s.pending <==> e.due <= s.now))
  {
    RunsAreSound(run, steps, k);
  }

  /** Requests are never forgotten or changed, and the clock never goes back. */
  lemma {:induction false} RequestsStay(run: seq<Spec>, steps: seq<Step>, i: nat, k: nat)
    requires IsRun(run, steps) && i <= k < |run|
    ensures run[i].added <= run[k].added && run[i].now <= run[k].now
  {
    if i < k {
      RequestsStay(run, steps, i, k - 1);
      assert run[k] == Apply(run[k - 1], steps[k - 1]);
    }
  }

  /** The firings of request number `id`: there is one exactly if `fires`, at tick `at` and with event `ev`. */
  ghost predicate FiresAt(fired: seq<Firing>, id: nat, fires: bool, at: nat, ev: Event) {
    && (fires <==> exists k :: 0 <= k < |fired| && fired[k].entry.id == id)
    && (forall k :: 0 <= k < |fired| && fired[k].entry.id == id ==> fired[k].at == at && fired[k].entry.event == ev)
    && (forall k, l :: 0 <= k < |fired| && 0 <= l < |fired| && fired[k].entry.id == id && fired[l].entry.id == id ==> k == l)
  }

  /** What the caller of timer_add is promised, in every history: the event it gave fires exactly once, the
      delay it gave after the tick of the call, and, whenever nothing is due, it has fired exactly if that
      many ticks have passed. */
  lemma EveryRequestFires(run: seq<Spec>, steps: seq<Step>, i: nat, k: nat)
    requires IsRun(run, steps) && i < |steps| && i < k < |run| && steps[i].Add?
    requires forall e :: e in run[k].pending ==> e.due != run[k].now
    ensures var tick := run[i].now + steps[i].delay;
      FiresAt(run[k].fired, |run[i].added|, run[k].now >= tick, tick, steps[i].event)
  {
    var id, tick := |run[i].added|, run[i].now + steps[i].delay;
    RequestsStay(run, steps, i + 1, k);
    RunsAreSound(run, steps, k);
    assert run[i + 1] == Apply(run[i], steps[i]);
    assert run[k].added[id] == run[i + 1].added[id];
    FiresOnceOnTimeInOrder(run, steps, k, id);
    FiringsOf(run[k], id);
    hide Sound, IsRun;
    var e := run[k].added[id];
    assert e.due == tick && e.event == steps[i].event;
  }

  lemma FiringsOf(s: Spec, id: nat)
    requires Sound(s) && id < |s.added| && forall e :: e in s.pending ==> e.due != s.now
    ensures var e := s.added[id]; FiresAt(s.fired, id, s.now >= e.due, e.due, e.event)
  {
    var e := s.added[id];
    assert e in s.added;
    forall k | 0 <= k < |s.fired| && s.fired[k].entry.id == id
      ensures s.fired[k] == Firing(e, e.due)
    {
      assert s.fired[k] in s.fired;
    }
    if s.now >= e.due {
      assert e !in s.pending;
      assert Firing(e, e.due) in s.fired;
      var k :| 0 <= k < |s.fired| && s.fired[k] == Firing(e, e.due);
      assert s.fired[k].entry.id == id;
    }
  }
}

/** Where a node belongs, as a function of its expiry and the clock, and how that changes
    when the clock advances by one (with 32-bit wrap-around). */
module Wheel {
  import opened Bits
  import opened Masks
  import opened TimerSpec
  import opened Words

  const WRAP := 0x1_0000_0000

  type Tick = x: nat | x < 0x1_0000_0000

  datatype Node = Node(expire: Tick, event: Event)

  datatype Loc = Near(idx: nat) | Level(level: nat, idx: nat)

  predicate IsLoc(l: Loc) {
    match l
    case Near(i) => i < 256
    case Level(v, i) => v < 4 && i < 64
  }

  /** The sizes of pages: 256 ticks, and 64 times as many on every level. */
  function Size(i: nat): (n: nat)
    requires i < 4
    ensures n > 0
  {
    if i == 0 then 0x100 else if i == 1 then 0x4000 else if i == 2 then 0x10_0000 else 0x400_0000
  }

  /** A word without the bits that number the ticks of a page: `w >> (8 + 6 * i)`. */
  function Page(w: Word, i: nat): Word {
    if i == 0 then Right8(w) else Right6(Page(w, i - 1))
  }

  lemma PagesAre(w: Word)
    ensures Page(w, 0) == Right8(w) && Page(w, 1) == Right6(Right8(w))
    ensures Page(w, 2) == Right6(Right6(Right8(w))) && Page(w, 3) == Right6(Right6(Right6(Right8(w))))
  {
    hide Right6, Right8;
  }

  lemma {:induction false} PageNumber(x: Tick, i: nat)
    requires i < 4
    ensures NumberOf(Page(WordOf(x), i)) == x / Size(i)
  {
    hide NumberOf, WordOf, Right6, Right8;
    if i == 0 {
      NumberBack(x);
      Shift8(WordOf(x));
    } else {
      PageNumber(x, i - 1);
      Shift6(Page(WordOf(x), i - 1));
    }
  }

  lemma AlikeOnPages(a: Word, b: Word)
    ensures Alike(a, b, 0x100) <==> Page(a, 0) == Page(b, 0)
    ensures Alike(a, b, 0x4000) <==> Page(a, 1) == Page(b, 1)
    ensures Alike(a, b, 0x10_0000) <==> Page(a, 2) == Page(b, 2)
    ensures Alike(a, b, 0x400_0000) <==> Page(a, 3) == Page(b, 3)
  {
    hide *;
    PagesAre(a);
    PagesAre(b);
    Alike8(a, b);
    Alike14(a, b);
    Alike20(a, b);
    Alike26(a, b);
  }

  /** The test of add_node, made on the words of two numbers, asks whether they lie in the same page. */
  lemma AlikeIsSamePage(e: Tick, c: Tick)
    ensures Alike(WordOf(e), WordOf(c), 0x100) <==> e / 0x100 == c / 0x100
    ensures Alike(WordOf(e), WordOf(c), 0x4000) <==> e / 0x4000 == c / 0x4000
    ensures Alike(WordOf(e), WordOf(c), 0x10_0000) <==> e / 0x10_0000 == c / 0x10_0000
    ensures Alike(WordOf(e), WordOf(c), 0x400_0000) <==> e / 0x400_0000 == c / 0x400_0000
  {
    hide NumberOf, WordOf, Page, Alike;
    var v, w := WordOf(e), WordOf(c);
    AlikeOnPages(v, w);
    forall i | 0 <= i < 4
      ensures Page(v, i) == Page(w, i) <==> e / Size(i) == c / Size(i)
    {
      PageNumber(e, i);
      PageNumber(c, i);
      NumbersDiffer(Page(v, i), Page(w, i));
    }
    assert Size(0) == 0x100 && Size(1) == 0x4000 && Size(2) == 0x10_0000 && Size(3) == 0x400_0000;
  }

  /** The index of a list on level i, and in the near wheel. */
  function LevelIndex(w: Word, i: nat): nat { NumberOf(And(Page(w, i), 63)) }

  function NearIndex(w: Word): nat { NumberOf(And(w, 0xff)) }

  lemma IndexIs(x: Tick, i: nat)
    requires i < 4
    ensures NearIndex(WordOf(x)) == x % 0x100 && LevelIndex(WordOf(x), i) == x / Size(i) % 64
  {
    hide WordOf, NumberOf, Low, And, Page;
    LowMasks();
    NumberBack(x);
    Masked(WordOf(x), 256, 255);
    PageNumber(x, i);
    Masked(Page(WordOf(x), i), 64, 63);
  }

  /** The masks of the loop in add_node; the last one has left the word. */
  function MaskOf(i: nat): Word {
    if i == 0 then 0x4000 else if i == 1 then 0x10_0000 else if i == 2 then 0x400_0000 else 0
  }

  lemma NextMask(i: nat)
    requires i < 3
    ensures MaskOf(i) << 6 == MaskOf(i + 1)
  {
  }

  /** The list add_node links a node of expiry `e` into when the clock shows `c`. */
  function Place(e: Tick, c: Tick): (l: Loc)
    ensures IsLoc(l)
  {
    if e / 0x100 == c / 0x100 then Near(e % 0x100)
    else if e / 0x4000 == c / 0x4000 then Level(0, e / 0x100 % 64)
    else if e / 0x10_0000 == c / 0x10_0000 then Level(1, e / 0x4000 % 64)
    else if e / 0x400_0000 == c / 0x400_0000 then Level(2, e / 0x10_0000 % 64)
    else Level(3, e / 0x400_0000)
  }

  function Rank(l: Loc): nat {
    if l.Near? then 0 else l.level + 1
  }

  datatype Cascade = NoCarry | Carry(loc: Loc)

  /** The list timer_shift redistributes when the clock becomes `ct`. */
  function CascadeAt(ct: Tick): (r: Cascade)
    ensures r.Carry? ==> IsLoc(r.loc) && r.loc.Level?
  {
    if ct == 0 then Carry(Level(3, 0))
    else if ct % 0x100 != 0 then NoCarry
    else if ct / 0x100 % 64 != 0 then Carry(Level(0, ct / 0x100 % 64))
    else if ct / 0x4000 % 64 != 0 then Carry(Level(1, ct / 0x4000 % 64))
    else if ct / 0x10_0000 % 64 != 0 then Carry(Level(2, ct / 0x10_0000 % 64))
    else Carry(Level(3, ct / 0x400_0000 % 64))
  }

  /** What a waiting node may do when the clock advances: exactly the nodes of the cascaded list
      move, all of them to lists of lower rank, and no other waiting node is in a lower rank. */
  ghost predicate Moves(before: Loc, after: Loc, c: Cascade) {
    match c
    case NoCarry => after == before
    case Carry(l) => if before == l then Rank(after) < Rank(l) else after == before && Rank(l) <= Rank(before)
  }

  /** A tick as page numbers: pages of 256 ticks, of 64 such pages, and so on. */
  datatype Pages = Pages(p0: nat, p1: nat, p2: nat, p3: nat)

  function PagesOf(x: nat): (p: Pages)
    ensures x / 0x4000 == p.p1 && x / 0x10_0000 == p.p2 && x / 0x400_0000 == p.p3
  {
    PagesFrom(x / 0x100)
  }

  function PlaceByPage(low: nat, q: Pages, c: Pages): Loc {
    if q.p0 == c.p0 then Near(low)
    else if q.p1 == c.p1 then Level(0, q.p0 % 64)
    else if q.p2 == c.p2 then Level(1, q.p1 % 64)
    else if q.p3 == c.p3 then Level(2, q.p2 % 64)
    else Level(3, q.p3)
  }

  /** Page number q against the page a the clock enters when it leaves page a - 1. */
  ghost predicate Enters(q: nat, q': nat, b: nat, b': nat, a: nat, a': nat) {
    && (a % 64 != 0 ==> a' == b' && a' <= q')
    && (a % 64 == 0 ==> a' == b' + 1 && a' <= q')
    && (q' == a' ==> (q % 64 == a % 64 <==> q == a))
    && (q == a ==> q' == a')
  }

  /** How the pages change from b to a when the clock leaves a page of 256 ticks. */
  ghost predicate Carries(q: Pages, b: Pages, a: Pages) {
    && a.p0 == b.p0 + 1 && a.p0 <= q.p0
    && Enters(q.p0, q.p1, b.p0, b.p1, a.p0, a.p1)
    && if a.p0 % 64 != 0 then a.p1 == b.p1 && a.p2 == b.p2 && a.p3 == b.p3 else
       && Enters(q.p1, q.p2, b.p1, b.p2, a.p1, a.p2)
       && if a.p1 % 64 != 0 then a.p2 == b.p2 && a.p3 == b.p3 else
          && Enters(q.p2, q.p3, b.p2, b.p3, a.p2, a.p3)
          && (a.p2 % 64 != 0 ==> a.p3 == b.p3)
  }

  function CarryLoc(a: Pages): Loc {
    if a.p0 % 64 != 0 then Level(0, a.p0 % 64)
    else if a.p1 % 64 != 0 then Level(1, a.p1 % 64)
    else if a.p2 % 64 != 0 then Level(2, a.p2 % 64)
    else Level(3, a.p3)
  }

  lemma CarriesPages(e: nat, t: nat)
    requires t < e && (t + 1) % 0x100 == 0
    ensures Carries(PagesOf(e), PagesOf(t), PagesOf(t + 1))
  {
    hide Enters;
    NextPage(t, 0x100);
    PageOrder(t + 1, e, 0x100);
    CarriesFrom(e / 0x100, t / 0x100);
  }

  /** The pages of a time, from the first of them. */
  function PagesFrom(p: nat): Pages { Pages(p, p / 64, p / 64 / 64, p / 64 / 64 / 64) }

  lemma CarriesFrom(q: nat, b: nat)
    requires b + 1 <= q
    ensures Carries(PagesFrom(q), PagesFrom(b), PagesFrom(b + 1))
  {
  }

  lemma NextPage(x: nat, size: nat)
    requires size == 64 || size == 0x100
    ensures (x + 1) / size == x / size + if (x + 1) % size == 0 then 1 else 0
  {
  }

  lemma PageOrder(x: nat, y: nat, size: nat)
    requires x <= y && (size == 64 || size == 0x100)
    ensures x / size <= y / size
  {
  }

  lemma CascadeIsByPage(ct: nat)
    requires 0 < ct < WRAP && ct % 0x100 == 0
    ensures CascadeAt(ct) == Carry(CarryLoc(PagesOf(ct)))
  {
  }

  lemma CarryMoves(low: nat, q: Pages, b: Pages, a: Pages)
    requires Carries(q, b, a)
    ensures Moves(PlaceByPage(low, q, b), PlaceByPage(low, q, a), Carry(CarryLoc(a)))
  {
  }

  lemma PlaceIsByPage(e: Tick, c: Tick)
    ensures Place(e, c) == PlaceByPage(e % 0x100, PagesOf(e), PagesOf(c))
  {
  }

  lemma SamePages(t: nat)
    requires (t + 1) % 0x100 != 0
    ensures PagesOf(t) == PagesOf(t + 1)
  {
  }

  lemma PlaceStepForward(e: nat, t: nat)
    requires t < e < WRAP
    ensures Moves(Place(e, t), Place(e, t + 1), CascadeAt(t + 1))
  {
    hide Place, PlaceByPage, PagesOf, CascadeAt, Rank, Carries;
    PlaceIsByPage(e, t);
    PlaceIsByPage(e, t + 1);
    if (t + 1) % 0x100 == 0 {
      CarriesPages(e, t);
      CascadeIsByPage(t + 1);
      CarryMoves(e % 0x100, PagesOf(e), PagesOf(t), PagesOf(t + 1));
    } else {
      SamePages(t);
      NoCascade(t + 1);
    }
  }

  lemma NoCascade(ct: Tick)
    requires ct % 0x100 != 0
    ensures CascadeAt(ct) == NoCarry
  {
  }

  lemma PlaceStepWrapped(e: Tick, t: Tick)
    requires t - e > 0x8000_0000
    ensures Moves(Place(e, t), Place(e, (t + 1) % WRAP), CascadeAt((t + 1) % WRAP))
  {
    if t + 1 == WRAP {
      assert (t + 1) % WRAP == 0;
    } else {
      assert (t + 1) % WRAP == t + 1;
      assert Place(e, t) == Place(e, t + 1) == Level(3, e / 0x400_0000);
    }
  }

  lemma PlaceStep(due: nat, now: nat)
    requires now < due < now + 0x8000_0000
    ensures Moves(Place(due % WRAP, now % WRAP), Place(due % WRAP, (now + 1) % WRAP), CascadeAt((now + 1) % WRAP))
  {
    hide Place, Moves, CascadeAt;
    var e, t := due % WRAP, now % WRAP;
    if due / WRAP == now / WRAP {
      assert t < e && (now + 1) % WRAP == t + 1;
      PlaceStepForward(e, t);
    } else {
      assert due / WRAP == now / WRAP + 1;
      assert (now + 1) % WRAP == (t + 1) % WRAP;
      PlaceStepWrapped(e, t);
    }
  }
}

/** The wheel itself, updated in place, as a refinement of `TimerSpec`. */
module TimerImpl {
  import opened Masks
  import opened TimerSpec
  import opened Wheel
  import opened Words
  import opened Bits

  /** The nodes of `s` that add_node would link into list `l` when the clock shows `c`, in order. */
  function At(s: seq<Node>, c: Tick, l: Loc): seq<Node> {
    if s == [] then []
    else
      var rest, last := At(s[..|s| - 1], c, l), s[|s| - 1];
      if Place(last.expire, c) == l then rest + [last] else rest
  }

  function Nodes(s: seq<Entry>): (r: seq<Node>)
    ensures |r| == |s|
  {
    if s == [] then [] else Nodes(s[..|s| - 1]) + [Node(s[|s| - 1].due % WRAP, s[|s| - 1].event)]
  }

  lemma {:induction false} NodesAt(s: seq<Entry>, k: nat)
    requires k < |s|
    ensures Nodes(s)[k] == Node(s[k].due % WRAP, s[k].event)
  {
    if k < |s| - 1 { NodesAt(s[..|s| - 1], k); }
  }

  /** The list dispatched is what was recorded as fired meanwhile, event by event. */
  ghost predicate Reports(list: seq<Node>, before: seq<Firing>, after: seq<Firing>) {
    && |after| == |before| + |list| && before <= after
    && forall k :: 0 <= k < |list| ==> list[k].event == after[|before| + k].entry.event
  }

  lemma ReportsBoth(l: seq<Node>, l': seq<Node>, a: seq<Firing>, b: seq<Firing>, c: seq<Firing>)
    requires Reports(l, a, b) && Reports(l', b, c)
    ensures Reports(l + l', a, c)
  {
  }

  lemma TakeReports(s: Spec)
    ensures Reports(Nodes(Due(s.pending, s.now, true)), s.fired, Apply(s, Take).fired)
  {
    var due := Due(s.pending, s.now, true);
    forall k | 0 <= k < |due|
      ensures Nodes(due)[k].event == Apply(s, Take).fired[|s.fired| + k].entry.event
    {
      NodesAt(due, k);
    }
  }

  /** timer_shift keeps every list equal to what add_node would have built at the new clock. */
  lemma {:induction false} Redistribute(p: seq<Node>, t: Tick, ct: Tick, l: Loc, loc: Loc)
    requires forall n :: n in p ==> Moves(Place(n.expire, t), Place(n.expire, ct), Carry(l))
    ensures At(p, ct, loc) == (if loc == l then [] else At(p, t, loc)) + At(At(p, t, l), ct, loc)
    ensures Rank(loc) >= Rank(l) ==> At(At(p, t, l), ct, loc) == []
    ensures Rank(loc) < Rank(l) ==> At(p, t, loc) == []
  {
    hide Place, At, Moves, Rank;
    if p == [] {
      AtNone(t, l);
      AtNone(t, loc);
      AtNone(ct, loc);
    } else {
      var rest, last := p[..|p| - 1], p[|p| - 1];
      assert last in p && p == rest + [last];
      Redistribute(rest, t, ct, l, loc);
      MovesMeans(Place(last.expire, t), Place(last.expire, ct), l);
      AtAppend(rest, last, t, l);
      AtAppend(rest, last, t, loc);
      AtAppend(rest, last, ct, loc);
      AtAppend(At(rest, t, l), last, ct, loc);
      var before, after := Place(last.expire, t), Place(last.expire, ct);
      Combine(before == l, before == loc, after == loc, loc == l, At(rest, ct, loc), At(rest, t, loc), At(At(rest, t, l), ct, loc), last);
    }
  }

  /** One more node: x, it was on the list that moves; y, on the list looked at; z, it is there now;
      same, the two lists are one. */
  lemma Combine(x: bool, y: bool, z: bool, same: bool, now: seq<Node>, a: seq<Node>, b: seq<Node>, last: Node)
    requires now == (if same then [] else a) + b && (x ==> y == same) && (x && same ==> !z)
    requires !x ==> z == y && (y ==> !same && b == [])
    ensures (if z then now + [last] else now)
         == (if same then [] else if y then a + [last] else a) + (if x && z then b + [last] else b)
  {
  }

  lemma MovesMeans(before: Loc, after: Loc, l: Loc)
    requires Moves(before, after, Carry(l))
    ensures if before == l then Rank(after) < Rank(l) else after == before && Rank(l) <= Rank(before)
  {
  }

  lemma AtNone(t: Tick, l: Loc)
    ensures At([], t, l) == []
  {
  }

  lemma {:induction false} NothingMoves(p: seq<Node>, t: Tick, ct: Tick, loc: Loc)
    requires forall n :: n in p ==> Place(n.expire, t) == Place(n.expire, ct)
    ensures At(p, ct, loc) == At(p, t, loc)
  {
    hide Place;
    if p != [] {
      assert p[|p| - 1] in p;
      NothingMoves(p[..|p| - 1], t, ct, loc);
    }
  }

  lemma {:induction false} NodeOf(s: seq<Entry>, n: Node)
    requires n in Nodes(s)
    ensures exists e :: e in s && n == Node(e.due % WRAP, e.event)
  {
    if n in Nodes(s[..|s| - 1]) {
      NodeOf(s[..|s| - 1], n);
    } else {
      assert s[|s| - 1] in s;
    }
  }

  lemma {:induction false} SplitList(s: seq<Entry>, now: nat, c: Tick, here: Loc, loc: Loc)
    requires forall e :: e in s ==> (Place(e.due % WRAP, c) == here <==> e.due == now)
    ensures At(Nodes(s), c, here) == Nodes(Due(s, now, true))
    ensures At(Nodes(Due(s, now, false)), c, loc) == if loc == here then [] else At(Nodes(s), c, loc)
  {
    if s != [] {
      var rest, last := s[..|s| - 1], s[|s| - 1];
      hide Place, At, Nodes, Due;
      assert s == rest + [last];
      var n := Node(last.due % WRAP, last.event);
      SplitList(rest, now, c, here, loc);
      DueAppend(rest, last, now, true);
      DueAppend(rest, last, now, false);
      NodesAppend(rest, last);
      NodesAppend(Due(rest, now, last.due == now), last);
      AtAppend(Nodes(rest), n, c, here);
      AtAppend(Nodes(rest), n, c, loc);
      AtAppend(Nodes(Due(rest, now, false)), n, c, loc);
    }
  }

  lemma AtAppend(s: seq<Node>, n: Node, c: Tick, l: Loc)
    ensures At(s + [n], c, l) == if Place(n.expire, c) == l then At(s, c, l) + [n] else At(s, c, l)
  {
  }

  /** Linking a node where add_node puts it keeps every list what it should be. */
  lemma AtMore(before: map<Loc, seq<Node>>, lists: map<Loc, seq<Node>>, s: seq<Node>, n: Node, c: Tick)
    requires Place(n.expire, c) in before && forall l :: l in before ==> before[l] == At(s, c, l)
    requires lists == before[Place(n.expire, c) := before[Place(n.expire, c)] + [n]]
    ensures forall l :: l in lists ==> lists[l] == At(s + [n], c, l)
  {
    hide At, Place;
    forall l | l in lists
      ensures lists[l] == At(s + [n], c, l)
    {
      AtAppend(s, n, c, l);
    }
  }

  lemma DueAppend(s: seq<Entry>, e: Entry, t: nat, wanted: bool)
    ensures Due(s + [e], t, wanted) == Due(s, t, wanted) + if (e.due == t) == wanted then [e] else []
  {
  }

  /** The list of the current tick holds exactly what is due; the other lists hold the rest. */
  lemma DueList(s: seq<Entry>, now: nat, loc: Loc)
    requires forall e :: e in s ==> now <= e.due < now + 0x8000_0000
    ensures At(Nodes(s), now % WRAP, Near(now % WRAP % 256)) == Nodes(Due(s, now, true))
    ensures At(Nodes(Due(s, now, false)), now % WRAP, loc) ==
      if loc == Near(now % WRAP % 256) then [] else At(Nodes(s), now % WRAP, loc)
  {
    hide Place;
    forall e | e in s ensures Place(e.due % WRAP, now % WRAP) == Near(now % WRAP % 256) <==> e.due == now {
      DueIsNear(e.due, now);
    }
    SplitList(s, now, now % WRAP, Near(now % WRAP % 256), loc);
  }

  lemma NodesAppend(s: seq<Entry>, e: Entry)
    ensures Nodes(s + [e]) == Nodes(s) + [Node(e.due % WRAP, e.event)]
  {
  }

  lemma DueIsNear(due: nat, now: nat)
    requires now <= due < now + 0x8000_0000
    ensures Place(due % WRAP, now % WRAP) == Near(now % WRAP % 256) <==> due == now
  {
  }

  lemma SoundWaits(s: Spec)
    requires Sound(s)
    ensures forall e :: e in s.pending ==> s.now <= e.due < s.now + 0x8000_0000
  {
  }

  /** The tests of add_node's loop pick out `Place`. */
  lemma PlaceCases(e: Tick, c: Tick)
    ensures e / 0x100 == c / 0x100 ==> Place(e, c) == Near(e % 0x100)
    ensures e / 0x100 != c / 0x100 ==>
      (Place(e, c) == if e / 0x4000 == c / 0x4000 then Level(0, e / 0x100 % 64)
       else if e / 0x10_0000 == c / 0x10_0000 then Level(1, e / 0x4000 % 64)
       else if e / 0x400_0000 == c / 0x400_0000 then Level(2, e / 0x10_0000 % 64)
       else Level(3, e / 0x400_0000 % 64))
  {
  }

  /** The list at `from` has been emptied and the nodes of s put where they belong at time c. */
  ghost predicate Spread(lists: map<Loc, seq<Node>>, before: map<Loc, seq<Node>>, from: Loc, s: seq<Node>, c: Tick) {
    && lists.Keys == before.Keys
    && forall l :: l in lists ==> lists[l] == (if l == from then [] else before[l]) + At(s, c, l)
  }

  lemma SpreadNone(before: map<Loc, seq<Node>>, from: Loc, c: Tick)
    requires from in before
    ensures Spread(before[from := []], before, from, [], c)
  {
  }

  /** Spreading the one list that changes puts every node where it belongs. */
  lemma Redistributed(lists: map<Loc, seq<Node>>, before: map<Loc, seq<Node>>, from: Loc, p: seq<Node>, t: Tick, ct: Tick)
    requires from in before && Spread(lists, before, from, before[from], ct)
    requires forall l :: l in before ==> before[l] == At(p, t, l)
    requires forall n :: n in p ==> Moves(Place(n.expire, t), Place(n.expire, ct), Carry(from))
    ensures forall l :: l in lists ==> lists[l] == At(p, ct, l)
  {
    hide Place, At, Moves;
    forall l | l in lists
      ensures lists[l] == At(p, ct, l)
    {
      Redistribute(p, t, ct, from, l);
    }
  }

  lemma Unmoved(lists: map<Loc, seq<Node>>, p: seq<Node>, t: Tick, ct: Tick)
    requires forall l :: l in lists ==> lists[l] == At(p, t, l)
    requires forall n :: n in p ==> Moves(Place(n.expire, t), Place(n.expire, ct), NoCarry)
    ensures forall l :: l in lists ==> lists[l] == At(p, ct, l)
  {
    hide Place, At;
    forall l | l in lists
      ensures lists[l] == At(p, ct, l)
    {
      NothingMoves(p, t, ct, l);
    }
  }

  lemma CascadeAtZero()
    ensures CascadeAt(0) == Carry(Level(3, 0))
  {
  }

  lemma SpreadOne(lists: map<Loc, seq<Node>>, before: map<Loc, seq<Node>>, from: Loc, s: seq<Node>, n: Node, c: Tick)
    requires Spread(lists, before, from, s, c) && Place(n.expire, c) in lists
    ensures var l := Place(n.expire, c); Spread(lists[l := lists[l] + [n]], before, from, s + [n], c)
  {
    hide Place, At;
    var p := Place(n.expire, c);
    var lists' := lists[p := lists[p] + [n]];
    forall l | l in lists'
      ensures lists'[l] == (if l == from then [] else before[l]) + At(s + [n], c, l)
    {
      AtAppend(s, n, c, l);
      var a := if l == from then [] else before[l];
      assert (a + At(s, c, l)) + [n] == a + (At(s, c, l) + [n]);
    }
  }

  class Timer {
    /** T->near[i] is lists[Near(i)] and T->t[v][i] is lists[Level(v, i)]. */
    var lists: map<Loc, seq<Node>>
    var time: Tick
    var current: nat
    var currentPoint: nat
    ghost var spec: Spec

    ghost predicate Shape()
      reads this`lists
    {
      forall l :: l in lists <==> IsLoc(l)
    }

    /** Every waiting node sits, in request order, where add_node would put it now. */
    ghost predicate Valid()
      reads this`lists, this`time, this`spec
    {
      && Shape()
      && Sound(spec)
      && time == spec.now % WRAP
      && forall l :: l in lists ==> lists[l] == At(Nodes(spec.pending), time, l)
    }

    constructor ()
      ensures Valid() && spec == INIT
    {
      lists := (map i | 0 <= i < 256 :: Near(i) := []) + (map v, i | 0 <= v < 4 && 0 <= i < 64 :: Level(v, i) := []);
      time, current, currentPoint := 0, 0, 0;
      spec := INIT;
    }

    /** The due list, T->near[T->time & 255]. */
    predicate Quiet()
      requires Near(time % 256) in lists
      reads this`lists, this`time
    {
      lists[Near(time % 256)] == []
    }

    method Link(l: Loc, n: Node)
      requires Shape() && IsLoc(l)
      modifies this`lists
      ensures lists == old(lists)[l := old(lists)[l] + [n]]
    {
      lists := lists[l := lists[l] + [n]];
    }

    /** add_node, with the tests and indices computed on 32-bit words. */
    method AddNode(n: Node)
      requires Shape()
      modifies this`lists
      ensures Shape()
      ensures lists == old(lists)[Place(n.expire, time) := old(lists)[Place(n.expire, time)] + [n]]
    {
      PlaceCases(n.expire, time);
      AlikeIsSamePage(n.expire, time);
      IndexIs(n.expire, 0);
      hide Place, WordOf, NearIndex, LevelIndex, Alike;
      var e, c := WordOf(n.expire), WordOf(time);
      if Alike(e, c, 0x100) {
        Link(Near(NearIndex(e)), n);
      } else {
        var i := FindLevel(e, c);
        assert MaskOf(0) == 0x4000 && MaskOf(1) == 0x10_0000 && MaskOf(2) == 0x400_0000;
        IndexIs(n.expire, i);
        Link(Level(i, LevelIndex(e, i)), n);
      }
    }

    /** The loop of add_node: the first level whose pages hold both words, or the last one. */
    static method FindLevel(e: Word, c: Word) returns (i: nat)
      ensures i < 4 && (i < 3 ==> Alike(e, c, MaskOf(i))) && forall k :: 0 <= k < i ==> !Alike(e, c, MaskOf(k))
    {
      hide Alike, MaskOf;
      var mask := MaskOf(0);
      for k := 0 to 3
        invariant mask == MaskOf(k) && forall l :: 0 <= l < k ==> !Alike(e, c, MaskOf(l))
      {
        if Alike(e, c, mask) {
          return k;
        }
        NextMask(k);
        mask := mask << 6;
      }
      i := 3;
    }

    method MoveList(from: Loc)
      requires Shape() && from.Level? && IsLoc(from)
      modifies this`lists
      ensures Shape() && Spread(lists, old(lists), from, old(lists)[from], time)
    {
      hide Place, At, IsLoc, Spread;
      var list := lists[from];
      lists := lists[from := []];
      SpreadNone(old(lists), from, time);
      assert list[..0] == [];
      for k := 0 to |list|
        invariant Shape() && Spread(lists, old(lists), from, list[..k], time)
      {
        SpreadOne(lists, old(lists), from, list[..k], list[k], time);
        AddNode(list[k]);
        assert list[..k + 1] == list[..k] + [list[k]];
      }
      assert list[..|list|] == list;
    }

    /** The loop of timer_shift that looks for the level a carry stops at. */
    static method FindCarry(ct: Tick) returns (carry: bool, i: nat, idx: nat)
      requires ct != 0
      ensures CascadeAt(ct) == if carry then Carry(Level(i, idx)) else NoCarry
    {
      var mask, rest := 0x100, ct / 0x100;
      i := 0;
      while ct % mask == 0 && rest % 64 == 0
        invariant 0 <= i <= 3 && mask == [0x100, 0x4000, 0x10_0000, 0x400_0000][i] && rest == ct / mask
        invariant i >= 1 ==> ct % 0x100 == 0 && ct / 0x100 % 64 == 0 && ct % 0x4000 == 0
        invariant i >= 2 ==> ct / 0x4000 % 64 == 0 && ct % 0x10_0000 == 0
        invariant i >= 3 ==> ct / 0x10_0000 % 64 == 0 && ct % 0x400_0000 == 0
        decreases 3 - i
      {
        mask, rest, i := mask * 64, rest / 64, i + 1;
      }
      carry, idx := ct % mask == 0, rest % 64;
    }

    /** The due list is empty only if nothing that waits is due. */
    lemma NoneDue()
      requires Valid() && Quiet()
      ensures forall e :: e in spec.pending ==> e.due != spec.now
    {
      DueList(spec.pending, spec.now, Near(0));
    }

    /** timer_shift: the clock advances and the list it runs into is redistributed. */
    method ShiftTime()
      requires Valid() && Quiet()
      modifies this`time, this`spec, this`lists
      ensures Valid() && Enabled(old(spec), Shift) && spec == Apply(old(spec), Shift)
    {
      hide Place, Sound, At, Nodes, Moves, CascadeAt;
      NoneDue();
      SoundWaits(spec);
      ghost var p, t := Nodes(spec.pending), time;
      ClockMoves(spec.pending, spec.now);
      StepKeepsSound(spec, Shift);
      spec := Apply(spec, Shift);
      time := (time + 1) % WRAP;
      assert time == spec.now % WRAP;
      Cascade(p, t);
    }

    /** The part of timer_shift that moves a list, once the clock is at its new time. */
    method Cascade(ghost p: seq<Node>, ghost t: Tick)
      requires Shape() && forall l :: l in lists ==> lists[l] == At(p, t, l)
      requires forall n :: n in p ==> Moves(Place(n.expire, t), Place(n.expire, time), CascadeAt(time))
      modifies this`lists
      ensures Shape() && forall l :: l in lists ==> lists[l] == At(p, time, l)
    {
      hide Place, At, Moves, Spread, CascadeAt;
      CascadeAtZero();
      var carry, i, idx := true, 3, 0;
      if time != 0 {
        carry, i, idx := FindCarry(time);
      }
      if carry {
        MoveList(Level(i, idx));
        Redistributed(lists, old(lists), Level(i, idx), p, t, time);
      } else {
        Unmoved(lists, p, t, time);
      }
    }

    method Add(d: nat, ev: Event)
      requires Valid() && 0 < d < 0x8000_0000
      modifies this`spec, this`lists
      ensures Valid() && spec == Apply(old(spec), TimerSpec.Add(d, ev)) && (old(Quiet()) ==> Quiet())
      ensures spec.now == old(spec).now && spec.fired == old(spec).fired
      ensures spec.added == old(spec).added + [Entry(|old(spec).added|, old(spec).now + d, ev)]
      ensures spec.pending == old(spec).pending + [Entry(|old(spec).added|, old(spec).now + d, ev)]
    {
      hide Place, Sound, At, Nodes, IsLoc;
      NotDueYet(d);
      ExpireIs(spec.now, d);
      ghost var e := Entry(|spec.added|, spec.now + d, ev);
      StepKeepsSound(spec, TimerSpec.Add(d, ev));
      NodesAppend(spec.pending, e);
      var n := Node((d + time) % WRAP, ev);
      AddNode(n);
      AtMore(old(lists), lists, Nodes(spec.pending), n, time);
      spec := Apply(spec, TimerSpec.Add(d, ev));
    }

    static lemma ExpireIs(now: nat, d: nat)
      ensures (d + now % WRAP) % WRAP == (now + d) % WRAP
    {
    }

    /** A new request is not due at once. */
    lemma NotDueYet(d: nat)
      requires 0 < d < 0x8000_0000
      ensures Place((d + time) % WRAP, time) != Near(time % 256)
    {
    }

    /** The locked part of timer_execute: unlink the due list, to be dispatched in order. */
    method TakeDue() returns (list: seq<Node>)
      requires Valid()
      modifies this`spec, this`lists
      ensures Valid() && Quiet() && spec == Apply(old(spec), Take)
      ensures list == Nodes(Due(old(spec).pending, spec.now, true))
    {
      hide Place, At, Nodes, Due, Sound, Fire;
      SoundWaits(spec);
      StepKeepsSound(spec, Take);
      forall l | l in lists
        ensures At(Nodes(Due(spec.pending, spec.now, false)), time, l) == if l == Near(time % 256) then [] else lists[l]
      {
        DueList(spec.pending, spec.now, l);
      }
      DueList(spec.pending, spec.now, Near(0));
      list := lists[Near(time % 256)];
      lists := lists[Near(time % 256) := []];
      spec := Apply(spec, Take);
    }

    method Execute() returns (dispatched: seq<Node>)
      requires Valid()
      modifies this`spec, this`lists
      ensures Valid() && Quiet()
      ensures spec == Apply(old(spec), Take) && dispatched == Nodes(Due(old(spec).pending, spec.now, true))
      ensures Reports(dispatched, old(spec).fired, spec.fired)
    {
      hide Place, At, Nodes, Due, Sound, Reports, Fire;
      dispatched := [];
      TakeReports(spec);
      if Quiet() {
        QuietTake();
      }
      while !Quiet()
        invariant Valid()
        invariant if Quiet() then spec == Apply(old(spec), Take) && dispatched == Nodes(Due(old(spec).pending, spec.now, true))
                  else spec == old(spec) && dispatched == []
        decreases !Quiet()
      {
        var list := TakeDue();
        dispatched := dispatched + list;
      }
    }

    lemma QuietTake()
      requires Valid() && Quiet()
      ensures Apply(spec, Take) == spec && Nodes(Due(spec.pending, spec.now, true)) == []
    {
      hide Place, At, Nodes, Due, Sound, Apply;
      NoneDue();
      TakeNothing(spec);
    }

    /** timer_update: one tick. */
    method Update() returns (dispatched: seq<Node>)
      requires Valid()
      modifies this`time, this`spec, this`lists
      ensures Valid() && Quiet()
      ensures Enabled(Apply(old(spec), Take), Shift)
      ensures spec == Apply(Apply(Apply(old(spec), Take), Shift), Take)
      ensures dispatched == Nodes(Due(old(spec).pending, old(spec).now, true)) +
                            Nodes(Due(Apply(old(spec), Take).pending, spec.now, true))
      ensures Reports(dispatched, old(spec).fired, spec.fired)
    {
      hide Place, At, Nodes, Due, Sound, Reports, Valid, Fire;
      dispatched := Execute();
      ghost var fired := spec.fired;
      ShiftTime();
      var more := Execute();
      ReportsBoth(dispatched, more, old(spec).fired, fired, spec.fired);
      dispatched := dispatched + more;
    }

    /** skynet_updatetime: one timer_update per elapsed centisecond, modulo 2^32 of them.  If there was
        one, everything due by now has fired. */
    method UpdateTime(cp: nat)
      requires Valid()
      modifies this
      ensures Valid() && currentPoint == cp && (old(Quiet()) || spec.now > old(spec).now ==> Quiet())
      ensures spec.now > old(spec).now ==> forall e :: e in spec.added ==> (Firing(e, e.due) in spec.fired <==> e.due <= spec.now)
      ensures spec.now == old(spec).now + if cp < old(currentPoint) then 0 else (cp - old(currentPoint)) % WRAP
      ensures current == old(current) + (spec.now - old(spec).now)
      ensures spec.added == old(spec).added
    {
      hide Sound, At, Nodes;
      if cp < currentPoint {
        currentPoint := cp;
      } else if cp != currentPoint {
        var diff := (cp - currentPoint) % WRAP;
        currentPoint := cp;
        current := current + diff;
        for i := 0 to diff
          invariant Valid() && (old(Quiet()) || i > 0 ==> Quiet())
          invariant spec.now == old(spec).now + i && spec.added == old(spec).added
          invariant currentPoint == cp && current == old(current) + diff
        {
          var _ := Update();
        }
        if diff > 0 {
          AllFired();
        }
      }
    }

    /** With nothing due, what has fired is what was due. */
    lemma AllFired()
      requires Valid() && Quiet()
      ensures forall e :: e in spec.added ==> (Firing(e, e.due) in spec.fired <==> e.due <= spec.now)
    {
      NoneDue();
      hide At, Nodes;
    }
  }

  lemma ClockMoves(pending: seq<Entry>, now: nat)
    requires forall e :: e in pending ==> now < e.due < now + 0x8000_0000
    ensures forall n :: n in Nodes(pending) ==>
      Moves(Place(n.expire, now % WRAP), Place(n.expire, (now + 1) % WRAP), CascadeAt((now + 1) % WRAP))
  {
    forall n | n in Nodes(pending)
      ensures Moves(Place(n.expire, now % WRAP), Place(n.expire, (now + 1) % WRAP), CascadeAt((now + 1) % WRAP))
    {
      NodeOf(pending, n);
      var e :| e in pending && n == Node(e.due % WRAP, e.event);
      PlaceStep(e.due, now);
    }
  }

  lemma {:induction false} NoneIsDue(s: seq<Entry>, t: nat)
    requires forall e :: e in s ==> e.due != t
    ensures Due(s, t, false) == s && Due(s, t, true) == []
  {
    if s != [] {
      assert s[|s| - 1] in s;
      NoneIsDue(s[..|s| - 1], t);
    }
  }

  lemma TakeNothing(s: Spec)
    requires forall e :: e in s.pending ==> e.due != s.now
    ensures Apply(s, Take) == s && Nodes(Due(s.pending, s.now, true)) == []
  {
    NoneIsDue(s.pending, s.now);
  }
}
