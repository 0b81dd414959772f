/** Sending packages over a TCP socket with a high and a low priority list (socket_server.c).

    What write(2) answers is a parameter: a finite list of outcomes, after which it would block. */
module SocketBuffer {
  import opened Collections

  type Bytes = seq<bv8>

  datatype Lane = High | Low

  datatype Package = Package(lane: Lane, data: Bytes)

  /** struct write_buffer: ptr is buffer + sent, sz is |data| - sent. */
  datatype WriteBuffer = WriteBuffer(pkg: Package, sent: nat) {
    ghost predicate Ok() { sent <= |pkg.data| }
  }

  datatype Outcome = Wrote(n: nat) | Interrupted | WouldBlock | Failed

  /** All the bytes of some packages. */
  ghost function Data(ps: seq<Package>): Bytes {
    if ps == [] then [] else Data(ps[..|ps| - 1]) + ps[|ps| - 1].data
  }

  ghost function Packages(l: seq<WriteBuffer>): seq<Package> {
    seq(|l|, k requires 0 <= k < |l| => l[k].pkg)
  }

  /** The bytes still queued in a list. */
  function Size(l: seq<WriteBuffer>): int {
    if l == [] then 0 else |l[0].pkg.data| - l[0].sent + Size(l[1..])
  }

  /** The part of the first package that is already on the wire. */
  ghost function Begun(l: seq<WriteBuffer>): Bytes {
    if l == [] || !l[0].Ok() then [] else l[0].pkg.data[..l[0].sent]
  }

  /** Only the first package of the list may be part-sent. */
  ghost predicate Sendable(l: seq<WriteBuffer>) {
    && (forall k :: 0 <= k < |l| ==> l[k].Ok())
    && (forall k :: 0 < k < |l| ==> l[k].sent == 0)
  }

  ghost predicate Untouched(l: seq<WriteBuffer>) {
    forall k :: 0 <= k < |l| ==> l[k].sent == 0
  }

  /** The packages of one lane, in order. */
  ghost function Only(ps: seq<Package>, lane: Lane): seq<Package> {
    if ps == [] then []
    else Only(ps[..|ps| - 1], lane) + if ps[|ps| - 1].lane == lane then [ps[|ps| - 1]] else []
  }

  lemma {:induction false} OnlyAppend(a: seq<Package>, b: seq<Package>, lane: Lane)
    ensures Only(a + b, lane) == Only(a, lane) + Only(b, lane)
  {
    if b == [] {
      assert a + b == a;
    } else {
      var n := |b| - 1;
      OnlyAppend(a, b[..n], lane);
      assert (a + b)[..|a + b| - 1] == a + b[..n];
    }
  }

  lemma {:induction false} DataAppend(a: seq<Package>, b: seq<Package>)
    ensures Data(a + b) == Data(a) + Data(b)
  {
    if b == [] {
      assert a + b == a;
      assert Data(a) + [] == Data(a);
    } else {
      var n := |b| - 1;
      DataAppend(a, b[..n]);
      DataLast(b);
      DataLast(a + b);
      hide Data;
      assert (a + b)[..|a + b| - 1] == a + b[..n];
      Assoc(Data(a), Data(b[..n]), b[n].data);
    }
  }

  lemma DataLast(ps: seq<Package>)
    requires ps != []
    ensures Data(ps) == Data(ps[..|ps| - 1]) + ps[|ps| - 1].data
  {
  }

  lemma {:induction false} SizeAppend(l: seq<WriteBuffer>, w: WriteBuffer)
    ensures Size(l + [w]) == Size(l) + |w.pkg.data| - w.sent
  {
    if l == [] {
      assert Size([w]) == |w.pkg.data| - w.sent + Size([]);
    } else {
      SizeAppend(l[1..], w);
      assert (l + [w])[1..] == l[1..] + [w];
    }
  }

  lemma DataOne(p: Package)
    ensures Data([p]) == p.data
  {
  }

  /** write(2) on `data`: how many bytes it takes, or why it takes none. */
  function Writes(size: nat, o: Outcome): Outcome {
    if o.Wrote? && o.n > size then Wrote(size) else o
  }

  /** From list to list' the bytes `wrote` went out and the packages `done` were completed. */
  ghost predicate Progress(list: seq<WriteBuffer>, list': seq<WriteBuffer>, wrote: Bytes, done: seq<Package>) {
    && Sendable(list') && Packages(list) == done + Packages(list')
    && Begun(list) + wrote == Data(done) + Begun(list')
    && Size(list') == Size(list) - |wrote|
  }

  lemma NoProgress(list: seq<WriteBuffer>)
    requires Sendable(list)
    ensures Progress(list, list, [], [])
  {
  }

  ghost function Advance(l: seq<WriteBuffer>, n: nat): seq<WriteBuffer>
    requires l != []
  {
    [l[0].(sent := l[0].sent + n)] + l[1..]
  }

  lemma Advances(l: seq<WriteBuffer>, n: nat)
    requires Sendable(l) && l != [] && l[0].sent + n <= |l[0].pkg.data|
    ensures var w, l' := l[0], Advance(l, n);
      && Sendable(l') && Packages(l') == Packages(l)
      && Begun(l') == Begun(l) + w.pkg.data[w.sent..w.sent + n] && Size(l') == Size(l) - n
  {
  }

  lemma PartSent(list: seq<WriteBuffer>, l: seq<WriteBuffer>, wrote: Bytes, done: seq<Package>, n: nat)
    requires Progress(list, l, wrote, done) && l != [] && l[0].sent + n <= |l[0].pkg.data|
    ensures Progress(list, Advance(l, n), wrote + l[0].pkg.data[l[0].sent..l[0].sent + n], done)
  {
    hide Sendable, Packages, Begun, Data, Size, Advance;
    Advances(l, n);
    var more := l[0].pkg.data[l[0].sent..l[0].sent + n];
    assert Begun(list) + (wrote + more) == (Begun(list) + wrote) + more == Data(done) + (Begun(l) + more);
  }

  /** The head of the list is complete. */
  lemma HeadDone(list: seq<WriteBuffer>, l: seq<WriteBuffer>, wrote: Bytes, done: seq<Package>)
    requires Progress(list, l, wrote, done) && l != [] && l[0].sent == |l[0].pkg.data|
    ensures Progress(list, l[1..], wrote, done + [l[0].pkg])
  {
  }

  /** write(2) takes every package of the list as a whole. */
  ghost predicate Generous(list: seq<WriteBuffer>, outcomes: seq<Outcome>) {
    |outcomes| >= |list| && forall k :: 0 <= k < |list| ==> outcomes[k].Wrote? && outcomes[k].n >= |list[k].pkg.data|
  }

  lemma GenerousSplit(a: seq<WriteBuffer>, b: seq<WriteBuffer>, outcomes: seq<Outcome>)
    requires Generous(a + b, outcomes)
    ensures Generous(a, outcomes) && |outcomes| >= |a| && Generous(b, outcomes[|a|..])
  {
    assert forall k :: 0 <= k < |a| ==> (a + b)[k] == a[k];
    assert forall k :: 0 <= k < |b| ==> (a + b)[|a| + k] == b[k] && outcomes[|a|..][k] == outcomes[|a| + k];
  }

  lemma GenerousHead(list: seq<WriteBuffer>, outcomes: seq<Outcome>)
    requires list != [] && Generous(list, outcomes)
    ensures outcomes != [] && outcomes[0].Wrote? && outcomes[0].n >= |list[0].pkg.data|
    ensures forall w :: Generous(([w] + list[1..])[1..], outcomes[1..])
  {
    forall w
      ensures Generous(([w] + list[1..])[1..], outcomes[1..])
    {
      assert ([w] + list[1..])[1..] == list[1..];
      assert forall k :: 0 <= k < |list| - 1 ==> list[1..][k] == list[k + 1] && outcomes[1..][k] == outcomes[k + 1];
    }
  }

  /** After such an answer send_list_tcp tries again or goes on with the next package. */
  predicate GoesOn(o: Outcome) { o.Interrupted? || o.Wrote? }

  /** How much of the first package of list' had been sent when send_list_tcp was called. */
  function AlreadySent(list: seq<WriteBuffer>, list': seq<WriteBuffer>): nat {
    if |list'| == |list| && list != [] then list[0].sent else 0
  }

  /** Why send_list_tcp stopped after `used` answers of write(2).  If it did not send everything, there were no
      more answers, or the last one was an error or a would-block, or it was a short write and the package now at
      the head has exactly that many more bytes sent. */
  ghost predicate Stops(list: seq<WriteBuffer>, list': seq<WriteBuffer>, outcomes: seq<Outcome>, used: nat, failed: bool) {
    && used <= |outcomes| && (forall k :: 0 <= k < used - 1 ==> GoesOn(outcomes[k])) && (list == [] ==> used == 0)
    && (failed <==> used > 0 && outcomes[used - 1].Failed?)
    && (list' != [] ==>
          var more := list'[0].sent - AlreadySent(list, list');
          || (more == 0 && used == |outcomes| && (used > 0 ==> GoesOn(outcomes[used - 1])))
          || (more == 0 && used > 0 && !GoesOn(outcomes[used - 1]))
          || (0 <= more < |list'[0].pkg.data| - AlreadySent(list, list') && used > 0 && outcomes[used - 1] == Wrote(more)))
  }

  /** So far every answer let send_list_tcp go on, and the package at the head is as it was. */
  ghost predicate Going(list: seq<WriteBuffer>, l: seq<WriteBuffer>, outcomes: seq<Outcome>, used: nat) {
    && used <= |outcomes| && |l| <= |list| && (list == [] ==> used == 0)
    && (forall k :: 0 <= k < used ==> GoesOn(outcomes[k]))
    && (l != [] ==> l[0].sent == AlreadySent(list, l))
  }

  lemma StopsWithout(list: seq<WriteBuffer>, l: seq<WriteBuffer>, outcomes: seq<Outcome>, used: nat)
    requires Going(list, l, outcomes, used) && (l == [] || used == |outcomes|)
    ensures Stops(list, l, outcomes, used, false)
  {
  }

  /** The next answer, for the package at the head of l. */
  lemma Answered(list: seq<WriteBuffer>, l: seq<WriteBuffer>, outcomes: seq<Outcome>, used: nat)
    requires Going(list, l, outcomes, used) && l != [] && used < |outcomes| && Sendable(l)
    ensures var o := outcomes[used];
      match o
      case Interrupted => Going(list, l, outcomes, used + 1)
      case WouldBlock => Stops(list, l, outcomes, used + 1, false)
      case Failed => Stops(list, l, outcomes, used + 1, true)
      case Wrote(n) =>
        if l[0].sent + n < |l[0].pkg.data| then Stops(list, Advance(l, n), outcomes, used + 1, false)
        else Going(list, l[1..], outcomes, used + 1)
  {
  }

  lemma Begins(list: seq<WriteBuffer>, outcomes: seq<Outcome>)
    requires Sendable(list)
    ensures Progress(list, list, [], []) && Going(list, list, outcomes, 0) && outcomes[0..] == outcomes
  {
    NoProgress(list);
  }

  lemma NotGenerous(l: seq<WriteBuffer>, outcomes: seq<Outcome>, used: nat)
    requires used <= |outcomes|
    ensures l != [] && used == |outcomes| ==> !Generous(l, outcomes[used..])
  {
  }

  /** What becomes of the list by one answer of write(2). */
  lemma OneAnswer(list: seq<WriteBuffer>, l: seq<WriteBuffer>, outcomes: seq<Outcome>, used: nat, wrote: Bytes, done: seq<Package>)
    requires Progress(list, l, wrote, done) && Going(list, l, outcomes, used) && l != [] && used < |outcomes|
    requires l[0].sent <= |l[0].pkg.data|
    ensures var tmp := l[0]; var o := Writes(|tmp.pkg.data| - tmp.sent, outcomes[used]);
      match o
      case Interrupted => Going(list, l, outcomes, used + 1)
      case WouldBlock => Stops(list, l, outcomes, used + 1, false)
      case Failed => Stops(list, l, outcomes, used + 1, true)
      case Wrote(n) =>
        && n <= |tmp.pkg.data| - tmp.sent
        && var wrote' := wrote + tmp.pkg.data[tmp.sent..tmp.sent + n];
          if tmp.sent + n != |tmp.pkg.data| then
            var l' := [tmp.(sent := tmp.sent + n)] + l[1..];
            Progress(list, l', wrote', done) && Stops(list, l', outcomes, used + 1, false)
          else
            Progress(list, l[1..], wrote', done + [tmp.pkg]) && Going(list, l[1..], outcomes, used + 1)
    ensures Generous(l, outcomes[used..]) ==>
      && Writes(|l[0].pkg.data| - l[0].sent, outcomes[used]) == Wrote(|l[0].pkg.data| - l[0].sent)
      && Generous(l[1..], outcomes[used + 1..])
  {
    hide Progress, Sendable, Packages, Begun, Size, Generous, Going, Stops, Data;
    ProgressSendable(list, l, wrote, done);
    Answered(list, l, outcomes, used);
    var tmp := l[0];
    var o := Writes(|tmp.pkg.data| - tmp.sent, outcomes[used]);
    if o.Wrote? {
      PartSent(list, l, wrote, done, o.n);
      var l' := [tmp.(sent := tmp.sent + o.n)] + l[1..];
      assert l'[1..] == l[1..];
      if tmp.sent + o.n == |tmp.pkg.data| {
        HeadDone(list, l', wrote + tmp.pkg.data[tmp.sent..tmp.sent + o.n], done);
      }
    }
    if Generous(l, outcomes[used..]) {
      GenerousHead(l, outcomes[used..]);
      assert ([tmp] + l[1..])[1..] == l[1..] && outcomes[used..][1..] == outcomes[used + 1..];
    }
  }

  lemma ProgressSendable(list: seq<WriteBuffer>, l: seq<WriteBuffer>, wrote: Bytes, done: seq<Package>)
    requires Progress(list, l, wrote, done)
    ensures Sendable(l)
  {
  }

  /** send_list_tcp. */
  method SendList(list: seq<WriteBuffer>, outcomes: seq<Outcome>)
    returns (list': seq<WriteBuffer>, failed: bool, rest: seq<Outcome>, ghost wrote: Bytes, ghost done: seq<Package>)
    requires Sendable(list)
    ensures Progress(list, list', wrote, done)
    ensures |list'| <= |list| && Packages(list') == Packages(list)[|list| - |list'|..]
    ensures |rest| <= |outcomes| && rest == outcomes[|outcomes| - |rest|..]
    ensures Stops(list, list', outcomes, |outcomes| - |rest|, failed)
    ensures Generous(list, outcomes) ==> list' == [] && !failed && |outcomes| >= |list| && rest == outcomes[|list|..]
  {
    hide *;
    Begins(list, outcomes);
    list', failed, wrote, done := list, false, [], [];
    var used := 0;
    while list' != [] && used < |outcomes|
      invariant used <= |outcomes| && Progress(list, list', wrote, done) && Going(list, list', outcomes, used)
      invariant Generous(list, outcomes) ==> Generous(list', outcomes[used..]) && used + |list'| == |list|
      decreases |list'|, |outcomes| - used
    {
      var tmp := list'[0];
      Remains(list, list', wrote, done);
      OneAnswer(list, list', outcomes, used, wrote, done);
      var o := Writes(|tmp.pkg.data| - tmp.sent, outcomes[used]);
      used := used + 1;
      rest := outcomes[used..];
      match o
      case Interrupted =>
      case WouldBlock => return;
      case Failed => return list', true, rest, wrote, done;
      case Wrote(n) =>
        wrote := wrote + tmp.pkg.data[tmp.sent..tmp.sent + n];
        if tmp.sent + n != |tmp.pkg.data| {
          list' := [tmp.(sent := tmp.sent + n)] + list'[1..];
          Remains(list, list', wrote, done);
          return;
        }
        list', done := list'[1..], done + [tmp.pkg];
    }
    rest := outcomes[used..];
    NotGenerous(list', outcomes, used);
    StopsWithout(list, list', outcomes, used);
    Remains(list, list', wrote, done);
  }

  /** What is left of a list are its last packages. */
  lemma Remains(list: seq<WriteBuffer>, l: seq<WriteBuffer>, wrote: Bytes, done: seq<Package>)
    requires Progress(list, l, wrote, done)
    ensures |l| <= |list| && Packages(l) == Packages(list)[|list| - |l|..]
    ensures l != [] ==> l[0].sent <= |l[0].pkg.data|
  {
  }

  lemma WhyFailed(list: seq<WriteBuffer>, list': seq<WriteBuffer>, outcomes: seq<Outcome>, used: nat, failed: bool)
    requires Stops(list, list', outcomes, used, failed)
    ensures failed ==> Failed in outcomes && list != []
  {
  }

  /** Of each lane, `all` has the same packages as `asked`, in the same order. */
  ghost predicate InOrder(all: seq<Package>, asked: seq<Package>) {
    Only(all, High) == Only(asked, High) && Only(all, Low) == Only(asked, Low)
  }

  /** The bytes on the wire are whole packages and at most the beginning of the next one. */
  ghost predicate Whole(wire: Bytes, log: seq<Package>, next: seq<Package>) {
    || wire == Data(log)
    || (next != [] && exists n :: 0 <= n <= |next[0].data| && wire == Data(log) + next[0].data[..n])
  }

  ghost predicate AllLow(l: seq<WriteBuffer>) {
    forall k :: 0 <= k < |l| ==> l[k].pkg.lane == Low
  }

  /** `log`: packages completely on the wire; `asked`: packages accepted. */
  ghost predicate Consistent(high: seq<WriteBuffer>, low: seq<WriteBuffer>, wire: Bytes, log: seq<Package>, asked: seq<Package>) {
    && Sendable(high) && Untouched(low) && AllLow(low)
    && wire == Data(log) + Begun(high)
    && InOrder(log + Packages(high) + Packages(low), asked)
  }

  lemma BegunIsWhole(l: seq<WriteBuffer>, more: seq<Package>, log: seq<Package>)
    requires Sendable(l)
    ensures Whole(Data(log) + Begun(l), log, Packages(l) + more)
  {
    if l == [] {
      assert Data(log) + Begun(l) == Data(log);
    } else {
      assert l[0].Ok();
      assert (Packages(l) + more)[0] == l[0].pkg;
    }
  }

  lemma SentHigh(high: seq<WriteBuffer>, high': seq<WriteBuffer>, low: seq<WriteBuffer>, wire: Bytes, log: seq<Package>,
                 asked: seq<Package>, wrote: Bytes, done: seq<Package>)
    requires Consistent(high, low, wire, log, asked) && Progress(high, high', wrote, done)
    ensures Consistent(high', low, wire + wrote, log + done, asked)
  {
    hide Sendable, Packages, Begun, Data, Size, Untouched, AllLow, InOrder;
    DataAppend(log, done);
    assert log + Packages(high) + Packages(low) == (log + done) + Packages(high') + Packages(low);
    assert (Data(log) + Begun(high)) + wrote == Data(log) + (Data(done) + Begun(high'));
    assert Data(log) + (Data(done) + Begun(high')) == (Data(log) + Data(done)) + Begun(high');
  }

  /** With an empty high list, the low list may be looked at as the high one, and back. */
  lemma LowAsHigh(low: seq<WriteBuffer>, wire: Bytes, log: seq<Package>, asked: seq<Package>)
    requires Consistent([], low, wire, log, asked)
    ensures Consistent(low, [], wire, log, asked)
  {
    assert Begun(low) == Begun([]) == [];
    assert log + Packages([]) + Packages(low) == log + Packages(low) + Packages([]);
  }

  lemma HighAsLow(low: seq<WriteBuffer>, wire: Bytes, log: seq<Package>, asked: seq<Package>)
    requires Consistent(low, [], wire, log, asked) && AllLow(low) && (low != [] ==> low[0].sent == 0)
    ensures Consistent([], low, wire, log, asked)
  {
    assert Begun(low) == Begun([]) == [];
    assert log + Packages([]) + Packages(low) == log + Packages(low) + Packages([]);
  }

  lemma PackagesAppend(l: seq<WriteBuffer>, m: seq<WriteBuffer>)
    ensures Packages(l + m) == Packages(l) + Packages(m)
  {
  }

  lemma NoPackages()
    ensures Packages([]) == []
  {
  }

  /** raise_uncomplete. */
  lemma HeadRaised(low: seq<WriteBuffer>, wire: Bytes, log: seq<Package>, asked: seq<Package>)
    requires Consistent(low, [], wire, log, asked) && AllLow(low) && low != []
    ensures Consistent(low[..1], low[1..], wire, log, asked)
  {
    hide InOrder, Packages, Data;
    assert low == low[..1] + low[1..];
    PackagesAppend(low[..1], low[1..]);
    NoPackages();
    Assoc(log, Packages(low[..1]), Packages(low[1..]));
    assert log + Packages(low) + Packages([]) == log + Packages(low);
    assert forall k :: 0 <= k < |low| - 1 ==> low[1..][k] == low[k + 1];
  }

  lemma LowsRemain(low: seq<WriteBuffer>, low': seq<WriteBuffer>, done: seq<Package>)
    requires AllLow(low) && Packages(low) == done + Packages(low')
    ensures AllLow(low')
  {
    forall k | 0 <= k < |low'|
      ensures low'[k].pkg.lane == Low
    {
      assert Packages(low)[|done| + k] == low'[k].pkg;
    }
  }

  lemma AppendsHigh(high: seq<WriteBuffer>, low: seq<WriteBuffer>, wire: Bytes, log: seq<Package>, asked: seq<Package>, p: Package, n: nat)
    requires Consistent(high, low, wire, log, asked) && n <= |p.data|
    requires (high == [] && low == []) || (n == 0 && p.lane == High)
    ensures Consistent(high + [WriteBuffer(p, n)], low, wire + p.data[..n], log, asked + [p])
  {
    LowsOnly(low);
    hide InOrder, Data, AllLow, Untouched, Packages, Begun, Sendable;
    BegunAppend(high, p, n);
    NoPackages();
    HighOrder(log, Packages(high), Packages(low), asked, p);
    Assoc(Data(log), Begun(high), p.data[..n]);
  }

  lemma HighOrder(log: seq<Package>, high: seq<Package>, low: seq<Package>, asked: seq<Package>, p: Package)
    requires InOrder(log + high + low, asked) && (forall k :: 0 <= k < |low| ==> low[k].lane == Low) && (p.lane == High || low == [])
    ensures InOrder(log + (high + [p]) + low, asked + [p])
  {
    hide Only;
    Assoc(log, high, [p]);
    OnlyInserted(log + high, p, low, asked, High);
    OnlyInserted(log + high, p, low, asked, Low);
  }

  lemma BegunAppend(high: seq<WriteBuffer>, p: Package, n: nat)
    requires Sendable(high) && n <= |p.data| && (high == [] || n == 0)
    ensures var high' := high + [WriteBuffer(p, n)];
      Sendable(high') && Begun(high') == Begun(high) + p.data[..n] && Packages(high') == Packages(high) + [p]
  {
  }

  lemma LowsOnly(low: seq<WriteBuffer>)
    requires AllLow(low)
    ensures forall k :: 0 <= k < |low| ==> Packages(low)[k].lane == Low
  {
  }

  lemma OnlyInserted(a: seq<Package>, p: Package, b: seq<Package>, asked: seq<Package>, lane: Lane)
    requires Only(a + b, lane) == Only(asked, lane)
    requires p.lane == lane ==> forall k :: 0 <= k < |b| ==> b[k].lane != lane
    ensures Only(a + [p] + b, lane) == Only(asked + [p], lane)
  {
    OnlyAppend(a, b, lane);
    OnlyAppend(a + [p], b, lane);
    OnlyAppend(a, [p], lane);
    OnlyAppend(asked, [p], lane);
    if p.lane == lane {
      OnlyNone(b, lane);
    } else {
      OnlyNone([p], lane);
    }
  }

  lemma {:induction false} OnlyNone(b: seq<Package>, lane: Lane)
    requires forall k :: 0 <= k < |b| ==> b[k].lane != lane
    ensures Only(b, lane) == []
  {
    if b != [] {
      OnlyNone(b[..|b| - 1], lane);
    }
  }

  lemma AppendsLow(high: seq<WriteBuffer>, low: seq<WriteBuffer>, wire: Bytes, log: seq<Package>, asked: seq<Package>, p: Package)
    requires Consistent(high, low, wire, log, asked) && p.lane == Low
    ensures Consistent(high, low + [WriteBuffer(p, 0)], wire, log, asked + [p])
  {
    var w := WriteBuffer(p, 0);
    assert Packages(low + [w]) == Packages(low) + [p];
    var all := log + Packages(high) + Packages(low);
    assert log + Packages(high) + Packages(low + [w]) == all + [p];
    OnlyAppend(all, [p], High);
    OnlyAppend(all, [p], Low);
    OnlyAppend(asked, [p], High);
    OnlyAppend(asked, [p], Low);
  }

  /** A package written at once. */
  lemma SentDirectly(wire: Bytes, log: seq<Package>, asked: seq<Package>, p: Package)
    requires Consistent([], [], wire, log, asked)
    ensures Consistent([], [], wire + p.data, log + [p], asked + [p])
  {
    DataAppend(log, [p]);
    DataOne(p);
    assert log + Packages([]) + Packages([]) == log;
    assert (log + [p]) + Packages([]) + Packages([]) == log + [p];
    OnlyAppend(log, [p], High);
    OnlyAppend(log, [p], Low);
    OnlyAppend(asked, [p], High);
    OnlyAppend(asked, [p], Low);
  }

  /** Per lane in order means, all in all, each package once. */
  lemma {:induction false} OnlyCounts(ps: seq<Package>)
    ensures multiset(ps) == multiset(Only(ps, High)) + multiset(Only(ps, Low))
  {
    hide Only;
    if ps == [] {
      OnlyNone(ps, High);
      OnlyNone(ps, Low);
    } else {
      var front, p := ps[..|ps| - 1], ps[|ps| - 1];
      OnlyCounts(front);
      OnlyStep(front, p);
      assert ps == front + [p];
      OneMore(front, p);
      OneMore(Only(front, p.lane), p);
    }
  }

  lemma OnlyStep(front: seq<Package>, p: Package)
    ensures var ps := front + [p];
      if p.lane == High then Only(ps, High) == Only(front, High) + [p] && Only(ps, Low) == Only(front, Low)
      else Only(ps, High) == Only(front, High) && Only(ps, Low) == Only(front, Low) + [p]
  {
  }

  lemma OneMore(ps: seq<Package>, p: Package)
    ensures multiset(ps + [p]) == multiset(ps) + multiset{p}
  {
  }

  lemma InOrderIsOnceEach(all: seq<Package>, asked: seq<Package>)
    requires InOrder(all, asked)
    ensures multiset(all) == multiset(asked)
  {
    OnlyCounts(all);
    OnlyCounts(asked);
  }

  // ------------------------------------------------------------ the socket

  datatype Status = Invalid | Connecting | Connected | HalfClose

  /** What remains true of a socket that was closed with `dropped` still queued. */
  ghost predicate Closed(wire: Bytes, log: seq<Package>, dropped: seq<Package>, asked: seq<Package>) {
    Whole(wire, log, dropped) && InOrder(log + dropped, asked)
  }

  lemma MayClose(high: seq<WriteBuffer>, low: seq<WriteBuffer>, wire: Bytes, log: seq<Package>, asked: seq<Package>)
    requires Consistent(high, low, wire, log, asked)
    ensures Closed(wire, log, Packages(high) + Packages(low), asked)
    ensures high == [] && low == [] ==> Packages(high) + Packages(low) == []
    ensures Sendable(high) && (high == [] ==> Sendable(low))
  {
    BegunIsWhole(high, Packages(low), log);
    Assoc(log, Packages(high), Packages(low));
  }

  lemma SizeHead(l: seq<WriteBuffer>)
    requires l != []
    ensures Size(l) == Size(l[..1]) + Size(l[1..])
  {
  }

  class Socket {
    var status: Status
    var high: seq<WriteBuffer>
    var low: seq<WriteBuffer>
    var wbSize: int
    var watching: bool             // write events are on
    ghost var wire: Bytes          // everything written to the socket
    ghost var log: seq<Package>    // the packages completely written, in order
    ghost var asked: seq<Package>  // the packages accepted for sending, in order
    ghost var dropped: seq<Package>

    ghost predicate Queued()
      reads this
    {
      Consistent(high, low, wire, log, asked) && wbSize == Size(high) + Size(low)
    }

    /** A socket with something to send, or to finish, has its write events on: nothing waits for ever. */
    ghost predicate Valid()
      reads this
    {
      if status == Invalid then Closed(wire, log, dropped, asked)
      else
        && Queued()
        && (status == Connecting || status == HalfClose || high != [] || low != [] ==> watching)
    }

    constructor (connected: bool)
      ensures Valid() && status == (if connected then Connected else Connecting) && wire == [] && log == [] && asked == []
    {
      status := if connected then Connected else Connecting;
      high, low, wbSize, watching := [], [], 0, !connected;
      wire, log, asked, dropped := [], [], [], [];
    }

    method ForceClose()
      requires Closed(wire, log, Packages(high) + Packages(low), asked)
      modifies this`status, this`high, this`low, this`wbSize, this`watching, this`dropped
      ensures status == Invalid && Valid() && dropped == old(Packages(high) + Packages(low)) && !watching
    {
      dropped := Packages(high) + Packages(low);
      status, high, low, wbSize, watching := Invalid, [], [], 0, false;
    }

    /** Step 1 of send_buffer. */
    method SendHigh(outcomes: seq<Outcome>) returns (failed: bool, rest: seq<Outcome>)
      requires Valid() && status != Invalid
      modifies this`high, this`wbSize, this`wire, this`log
      ensures Valid() && old(wire) <= wire && old(log) <= log && |high| <= old(|high|)
      ensures |rest| <= |outcomes| && rest == outcomes[|outcomes| - |rest|..] && (failed ==> Failed in outcomes && old(high) != [])
      ensures Generous(old(high), outcomes) ==> high == [] && !failed && |outcomes| >= old(|high|) && rest == outcomes[old(|high|)..]
    {
      hide *;
      Live();
      InQueue();
      MayClose(high, low, wire, log, asked);
      ghost var wrote, done;
      var high';
      high', failed, rest, wrote, done := SendList(high, outcomes);
      SentHigh(high, high', low, wire, log, asked, wrote, done);
      Shrinks(high, high', wrote, done);
      WhyFailed(high, high', outcomes, |outcomes| - |rest|, failed);
      wbSize := wbSize - (Size(high) - Size(high'));
      high, wire, log := high', wire + wrote, log + done;
      StaysLive();
    }

    lemma Live()
      requires Valid() && status != Invalid
      ensures Queued()
      ensures status == Connecting || status == HalfClose || high != [] || low != [] ==> watching
    {
    }

    lemma InQueue()
      ensures Queued() <==> Consistent(high, low, wire, log, asked) && wbSize == Size(high) + Size(low)
    {
    }

    lemma StaysLive()
      requires status != Invalid && (status == Connecting || status == HalfClose || high != [] || low != [] ==> watching)
      ensures Consistent(high, low, wire, log, asked) && wbSize == Size(high) + Size(low) ==> Valid()
      ensures Queued() ==> Valid()
    {
    }

    /** Steps 2 and 3: the low list, and raising a head sent in part. */
    method SendLow(outcomes: seq<Outcome>) returns (failed: bool)
      requires Valid() && status != Invalid && high == []
      modifies this`high, this`low, this`wbSize, this`wire, this`log
      ensures failed ==> Closed(wire, log, Packages(high) + Packages(low), asked) && Failed in outcomes
      ensures !failed ==> Valid()
      ensures old(wire) <= wire && old(log) <= log
      ensures Generous(old(low), outcomes) ==> high == [] && low == [] && !failed
    {
      hide *;
      Live();
      InQueue();
      LowAsHigh(low, wire, log, asked);
      MayClose(low, [], wire, log, asked);
      ghost var wrote, done;
      var low', rest;
      low', failed, rest, wrote, done := SendList(low, outcomes);
      SentHigh(low, low', [], wire, log, asked, wrote, done);
      Shrinks(low, low', wrote, done);
      WhyFailed(low, low', outcomes, |outcomes| - |rest|, failed);
      LowsStay(low, low', wire, log, asked, wrote, done);
      wbSize := wbSize - (Size(low) - Size(low'));
      low, wire, log := low', wire + wrote, log + done;
      NoSize();
      if failed {
        MayClose(low, [], wire, log, asked);
        NoPackages();
        assert Packages(low) + [] == [] + Packages(low);
      } else if low != [] && low[0].sent > 0 {
        HeadRaised(low, wire, log, asked);
        SizeHead(low);
        high, low := low[..1], low[1..];
        StaysLive();
      } else {
        HighAsLow(low, wire, log, asked);
        StaysLive();
      }
    }

    lemma LowHeadIsWhole()
      requires Valid() && status != Invalid
      ensures low != [] ==> low[0].sent == 0
    {
    }

    /** send_buffer.  The assertion of the source, that the head of the low list is not part-sent, is
        the `assert` at the start.  The write events go off when there is nothing left to send, even on a
        socket that is still connecting; the one caller that may do that closes such a socket. */
    method SendBuffer(outcomes: seq<Outcome>) returns (closed: bool, failed: bool)
      requires Valid() && status != Invalid
      modifies this
      ensures Valid() || (Queued() && status == Connecting && high == [] && low == [])
      ensures asked == old(asked) && old(wire) <= wire && old(log) <= log
      ensures closed <==> status == Invalid
      ensures !closed ==> !failed && status == old(status)
      ensures closed && !failed ==> old(status) == HalfClose && dropped == []
      ensures failed ==> Failed in outcomes
      ensures old(high) == [] && old(low) == [] ==> (closed <==> old(status) == HalfClose) && !watching
      ensures Generous(old(high) + old(low), outcomes) ==> !failed && (closed || (high == [] && low == []))
    {
      hide *;
      LowHeadIsWhole();
      assert low != [] ==> low[0].sent == 0;
      if Generous(high + low, outcomes) {
        GenerousSplit(high, low, outcomes);
      }
      var rest;
      failed, rest := SendHigh(outcomes);
      if failed {
        Live();
        InQueue();
        MayClose(high, low, wire, log, asked);
        ForceClose();
        return true, true;
      }
      if high == [] {
        if low != [] {
          failed := SendLow(rest);
          if failed {
            ForceClose();
            return true, true;
          }
        } else {
          closed := AllSent();
          return closed, false;
        }
      }
      return false, false;
    }

    /** Step 4 of send_buffer: the write events go off, and a half closed socket closes. */
    method AllSent() returns (closed: bool)
      requires Valid() && status != Invalid && high == [] && low == []
      modifies this`status, this`high, this`low, this`wbSize, this`watching, this`dropped
      ensures Valid() || (Queued() && status == Connecting && high == [] && low == [])
      ensures (closed <==> old(status) == HalfClose) && (closed <==> status == Invalid) && !watching
      ensures if closed then dropped == [] else status == old(status) && high == [] && low == []
    {
      hide *;
      Live();
      InQueue();
      MayClose(high, low, wire, log, asked);
      watching := false;
      InQueue();
      closed := status == HalfClose;
      if closed {
        ForceClose();
      } else if status != Connecting {
        StaysLive();
      }
    }

    /** report_connect. */
    method ReportConnect(error: bool)
      requires Valid() && status == Connecting
      modifies this
      ensures Valid() && status == (if error then Invalid else Connected) && wire == old(wire) && asked == old(asked)
      ensures !error ==> high == old(high) && low == old(low) && (watching <==> high != [] || low != [])
      ensures error ==> dropped == old(Packages(high) + Packages(low))
    {
      hide *;
      Live();
      InQueue();
      MayClose(high, low, wire, log, asked);
      if error {
        ForceClose();
      } else {
        status := Connected;
        if high == [] && low == [] {
          watching := false;
        }
        StaysLive();
      }
    }

    /** append_sendbuffer: to the high list, without the first n bytes, which were written at once. */
    method AppendHigh(p: Package, n: nat)
      requires Queued() && n <= |p.data|
      requires (high == [] && low == []) || (n == 0 && p.lane == High)
      modifies this`high, this`wbSize, this`wire, this`asked
      ensures Queued() && asked == old(asked) + [p] && wire == old(wire) + p.data[..n]
      ensures high == old(high) + [WriteBuffer(p, n)]
    {
      hide *;
      InQueue();
      AppendsHigh(high, low, wire, log, asked, p, n);
      SizeAppend(high, WriteBuffer(p, n));
      high, wbSize := high + [WriteBuffer(p, n)], wbSize + |p.data| - n;
      wire, asked := wire + p.data[..n], asked + [p];
      InQueue();
    }

    /** append_sendbuffer_low: to the low list, whether or not the lists are empty. */
    method AppendLow(p: Package)
      requires Queued() && p.lane == Low
      modifies this`low, this`wbSize, this`asked
      ensures Queued() && asked == old(asked) + [p] && low == old(low) + [WriteBuffer(p, 0)]
    {
      hide *;
      InQueue();
      AppendsLow(high, low, wire, log, asked, p);
      SizeAppend(low, WriteBuffer(p, 0));
      low, wbSize, asked := low + [WriteBuffer(p, 0)], wbSize + |p.data|, asked + [p];
      InQueue();
    }

    /** The direct write of send_socket took the whole package. */
    ghost method WrittenAtOnce(p: Package)
      requires Valid() && status != Invalid && high == [] && low == []
      modifies this`wire, this`log, this`asked
      ensures Valid() && asked == old(asked) + [p] && wire == old(wire) + p.data && log == old(log) + [p]
    {
      hide *;
      Live();
      InQueue();
      SentDirectly(wire, log, asked, p);
      wire, log, asked := wire + p.data, log + [p], asked + [p];
      StaysLive();
    }

    /** send_socket.  A package that finds a connected socket with both lists empty is written at once, and
        what is left of it goes to the high list whatever its lane.  Any other goes to the list of its lane. */
    method Send(p: Package, outcome: Outcome) returns (accepted: bool)
      requires Valid()
      modifies this
      ensures Valid() && asked == old(asked) + (if accepted then [p] else [])
      ensures var atOnce := old(status) == Connected && old(high) == [] && old(low) == [];
        && (accepted <==> (old(status) == Connected || old(status) == Connecting) && !(atOnce && outcome.Failed?))
        && (status == if old(status) == Connected && !accepted then Invalid else old(status))
        && (wire == old(wire) + if accepted && atOnce then Taken(p.data, outcome) else [])
      ensures accepted ==>
        var atOnce := old(status) == Connected && old(high) == [] && old(low) == [];
        var n := if atOnce then |Taken(p.data, outcome)| else 0;
        && (high == old(high) + if (if atOnce then n < |p.data| else p.lane == High) then [WriteBuffer(p, n)] else [])
        && (low == old(low) + if !atOnce && p.lane == Low then [WriteBuffer(p, 0)] else [])
    {
      hide *;
      accepted := false;
      if status == Invalid || status == HalfClose {
        assert asked == asked + [];
        return;
      }
      Within(p.data, outcome);
      Live();
      if high == [] && low == [] && status == Connected {
        var o := Writes(|p.data|, outcome);
        if o == Failed {
          Live();
          InQueue();
          MayClose(high, low, wire, log, asked);
          ForceClose();
          assert asked == asked + [];
          return;
        }
        var n := if o.Wrote? then o.n else 0;
        if n == |p.data| {
          WrittenAtOnce(p);
          return true;
        }
        AppendHigh(p, n);
        InQueue();
        watching := true;
        StaysLive();
      } else if p.lane == Low {
        AppendLow(p);
        StaysLive();
      } else {
        AppendHigh(p, 0);
        StaysLive();
      }
      accepted := true;
    }

    /** close_socket.  Without `shutdown` and without a write error, nothing accepted is dropped. */
    method Close(shutdown: bool, outcomes: seq<Outcome>) returns (closed: bool, failed: bool)
      requires Valid()
      modifies this
      ensures Valid() && asked == old(asked) && old(wire) <= wire
      ensures closed <==> status == Invalid
      ensures !closed ==> status == HalfClose && !shutdown && (high != [] || low != [])
      ensures old(status) != Invalid && closed && !shutdown && !failed ==> dropped == []
    {
      hide *;
      failed := false;
      if status == Invalid {
        return true, false;
      }
      if high != [] || low != [] {
        closed, failed := SendBuffer(outcomes);
        if closed {
          return;
        }
      }
      if Valid() {
        Live();
      }
      InQueue();
      MayClose(high, low, wire, log, asked);
      if shutdown || (high == [] && low == []) {
        ForceClose();
        closed := true;
      } else {
        status := HalfClose;
        StaysLive();
        closed := false;
      }
    }

  }

  lemma Shrinks(list: seq<WriteBuffer>, list': seq<WriteBuffer>, wrote: Bytes, done: seq<Package>)
    requires Progress(list, list', wrote, done)
    ensures Size(list') == Size(list) - |wrote|
  {
  }

  lemma LowsStay(low: seq<WriteBuffer>, low': seq<WriteBuffer>, wire: Bytes, log: seq<Package>, asked: seq<Package>, wrote: Bytes, done: seq<Package>)
    requires Consistent([], low, wire, log, asked) && Progress(low, low', wrote, done)
    ensures AllLow(low')
  {
    LowsRemain(low, low', done);
  }

  /** What one write takes of some data. */
  ghost function Taken(data: Bytes, o: Outcome): Bytes {
    if o.Wrote? then data[..if o.n > |data| then |data| else o.n] else []
  }

  lemma Within(data: Bytes, o: Outcome)
    ensures var w := Writes(|data|, o);
      if o.Wrote? then w.Wrote? && w.n <= |data| && Taken(data, o) == data[..w.n] else w == o && Taken(data, o) == []
    ensures data[..|data|] == data
  {
  }

  /** A socket closed with nothing dropped has sent every package accepted, once, in the order of its
      lane, and no other byte. */
  lemma NothingDropped(wire: Bytes, log: seq<Package>, asked: seq<Package>)
    requires Closed(wire, log, [], asked)
    ensures wire == Data(log) && InOrder(log, asked) && multiset(log) == multiset(asked)
  {
    assert log + [] == log;
    InOrderIsOnceEach(log, asked);
  }

  lemma NoSize()
    ensures Size([]) == 0
  {
  }
}
