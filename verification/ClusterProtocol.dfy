/** Epochs and failover elections of Redis Cluster (cluster.c) as a message-passing state machine.

    Nodes send messages that stay in the network for ever: a message may be delivered late, out of
    order, many times or never, except that a vote (FAILOVER_AUTH_ACK) is delivered at most once.
    What a node checks from its local view without touching epochs (is the candidate's master
    failing, did I vote for that master recently, are the claimed slots current) is the free choice
    `willing` of the delivery step. */
module ClusterProtocol {
  import opened Collections

  type Id = nat

  datatype Node = Node(
    currentEpoch: nat,
    lastVoteEpoch: nat,
    authEpoch: nat,         // failover_auth_epoch
    authCount: nat,         // failover_auth_count
    authSent: bool,         // failover_auth_sent
    master: bool,           // nodeIsMaster(myself)
    known: map<Id, nat>)    // configEpoch of every node in the node table, myself included

  datatype Body =
    | Header                            // FAIL, PUBLISH, MFSTART: only the header matters here
    | Ping(master: bool)                // PING, PONG, MEET; master: hdr->slaveof is empty
    | Request                           // FAILOVER_AUTH_REQUEST
    | Ack                               // FAILOVER_AUTH_ACK
    | Update(about: Id, epoch: nat)     // UPDATE

  datatype Msg = Msg(src: Id, dst: Id, currentEpoch: nat, configEpoch: nat, body: Body)

  /** `voters` are the masters serving slots, known to everybody; `won` records (candidate, epoch). */
  datatype State = State(nodes: map<Id, Node>, voters: set<Id>, net: set<Msg>, delivered: set<Msg>, won: set<(Id, nat)>)

  datatype Step =
    | Send(i: Id, j: Id, via: Id, body: Body)   // any message but a request or a vote
    | Deliver(m: Msg, willing: bool)
    | Learn(i: Id, j: Id)                       // a handshake adds j to i's node table
    | Bump(i: Id)                               // clusterBumpConfigEpochWithoutConsensus
    | Schedule(i: Id)                           // clusterHandleSlaveFailover: set up a new election
    | Start(i: Id, via: Id)                     //   ask for votes
    | Win(i: Id)                                //   quorum reached
    | Demote(i: Id)                             // a promoted node becomes a slave again

  function Max(a: nat, b: nat): nat { if a < b then b else a }

  function Quorum(s: State): nat { |s.voters| / 2 + 1 }

  /** The greatest epoch in a node's view. */
  ghost function MaxEpoch(n: Node): nat {
    if exists j :: IsMax(n, j) && n.known[j] > n.currentEpoch then var j :| IsMax(n, j); n.known[j] else n.currentEpoch
  }

  ghost predicate IsMax(n: Node, j: Id) {
    j in n.known && forall k :: k in n.known ==> n.known[k] <= n.known[j]
  }

  /** clusterGetMaxEpoch: the loop over the node table. */
  method GetMaxEpoch(n: Node) returns (max: nat)
    ensures max >= n.currentEpoch && forall j :: j in n.known ==> n.known[j] <= max
    ensures max == MaxEpoch(n)
  {
    max := 0;
    var todo := n.known.Keys;
    ghost var at := 0;
    while todo != {}
      invariant todo <= n.known.Keys
      invariant forall j :: j in n.known && j !in todo ==> n.known[j] <= max
      invariant max == 0 || (at in n.known && n.known[at] == max)
      decreases todo
    {
      var j :| j in todo;
      if n.known[j] > max {
        max := n.known[j];
        at := j;
      }
      todo := todo - {j};
    }
    if max < n.currentEpoch {
      max := n.currentEpoch;
    } else if max > n.currentEpoch {
      assert IsMax(n, at);
    }
  }

  /** The header part of clusterProcessPacket, for a known sender. */
  function Receive(n: Node, m: Msg): Node
    requires m.src in n.known
  {
    n.(currentEpoch := Max(n.currentEpoch, m.currentEpoch), known := n.known[m.src := Max(n.known[m.src], m.configEpoch)])
  }

  /** clusterHandleConfigEpochCollision, with the test of clusterProcessPacket before it. */
  function FixCollision(n: Node, me: Id, m: Msg): Node
    requires me in n.known && m.src in n.known && m.body.Ping?
  {
    if n.master && m.body.master && m.configEpoch == n.known[me] && n.known[m.src] == n.known[me] && m.src > me
    then n.(currentEpoch := n.currentEpoch + 1, known := n.known[me := n.currentEpoch + 1])
    else n
  }

  /** clusterSendFailoverAuthIfNeeded, once the header has been processed. */
  predicate Votes(n: Node, voter: bool, m: Msg, willing: bool) {
    voter && m.currentEpoch >= n.currentEpoch && n.lastVoteEpoch != n.currentEpoch && willing
  }

  function SetNode(s: State, i: Id, n: Node): State {
    s.(nodes := s.nodes[i := n])
  }

  ghost predicate Enabled(s: State, step: Step) {
    match step
    case Send(i, j, via, body) =>
      && i in s.nodes && via in s.nodes[i].known && (s.nodes[i].master ==> via == i)
      && (body.Header? || (body.Ping? && body.master == s.nodes[i].master)
          || (body.Update? && body.about in s.nodes[i].known && body.epoch == s.nodes[i].known[body.about]))
    case Deliver(m, _) =>
      m in s.net && m.dst in s.nodes && m.dst in s.nodes[m.dst].known && (m.body.Ack? ==> m !in s.delivered)
    case Learn(i, j) => i in s.nodes && j !in s.nodes[i].known
    case Bump(i) => i in s.nodes && i in s.nodes[i].known
    case Schedule(i) => i in s.nodes && !s.nodes[i].master
    case Start(i, via) => i in s.nodes && via in s.nodes[i].known && !s.nodes[i].master && !s.nodes[i].authSent
    case Win(i) =>
      i in s.nodes && i in s.nodes[i].known && !s.nodes[i].master && s.nodes[i].authSent && s.nodes[i].authCount >= Quorum(s)
    case Demote(i) => i in s.nodes && i !in s.voters
  }

  ghost function Apply(s: State, step: Step): State
    requires Enabled(s, step)
  {
    match step
    case Send(i, j, via, body) =>
      s.(net := s.net + {Msg(i, j, s.nodes[i].currentEpoch, s.nodes[i].known[via], body)})
    case Deliver(m, willing) => Process(s, m, willing)
    case Learn(i, j) => SetNode(s, i, s.nodes[i].(known := s.nodes[i].known[j := 0]))
    case Bump(i) =>
      var n := s.nodes[i];
      if n.known[i] == 0 || n.known[i] != MaxEpoch(n)
      then SetNode(s, i, n.(currentEpoch := n.currentEpoch + 1, known := n.known[i := n.currentEpoch + 1]))
      else s
    case Schedule(i) => SetNode(s, i, s.nodes[i].(authCount := 0, authSent := false))
    case Start(i, via) =>
      var n := s.nodes[i];
      var e := n.currentEpoch + 1;
      SetNode(s, i, n.(currentEpoch := e, authEpoch := e, authSent := true))
        .(net := s.net + set j | j in s.nodes :: Msg(i, j, e, n.known[via], Request))
    case Win(i) =>
      var n := s.nodes[i];
      SetNode(s, i, n.(known := n.known[i := Max(n.known[i], n.authEpoch)], master := true))
        .(won := s.won + {(i, n.authEpoch)})
    case Demote(i) => SetNode(s, i, s.nodes[i].(master := false))
  }

  /** clusterProcessPacket at m.dst. */
  ghost function Process(s: State, m: Msg, willing: bool): State
    requires m.dst in s.nodes && m.dst in s.nodes[m.dst].known
  {
    var me := m.dst;
    if m.src !in s.nodes[me].known then s.(delivered := s.delivered + {m})
    else
      var n := Receive(s.nodes[me], m);
      var s1 := SetNode(s, me, n).(delivered := s.delivered + {m});
      match m.body
      case Header => s1
      case Ping(_) => SetNode(s1, me, FixCollision(n, me, m))
      case Request =>
        if Votes(n, me in s.voters, m, willing)
        then SetNode(s1, me, n.(lastVoteEpoch := n.currentEpoch)).(net := s.net + {Msg(me, m.src, n.currentEpoch, n.known[me], Ack)})
        else s1
      case Ack =>
        if m.src in s.voters && m.currentEpoch >= n.authEpoch then SetNode(s1, me, n.(authCount := n.authCount + 1)) else s1
      case Update(about, epoch) =>
        if about in n.known && n.known[about] < epoch then SetNode(s1, me, n.(known := n.known[about := epoch], master := n.master || about == me)) else s1
  }

  ghost predicate NodeBound(n: Node) {
    && n.authEpoch <= n.currentEpoch && n.lastVoteEpoch <= n.currentEpoch
    && forall j :: j in n.known ==> n.known[j] <= n.currentEpoch
  }

  ghost predicate MsgBound(m: Msg) {
    m.configEpoch <= m.currentEpoch && (m.body.Update? ==> m.body.epoch <= m.currentEpoch)
  }

  /** Every epoch known anywhere, or in flight, is at most the current epoch that goes with it. */
  ghost predicate Bounded(s: State) {
    && (forall i :: i in s.nodes ==> NodeBound(s.nodes[i]))
    && (forall m :: m in s.net ==> MsgBound(m))
  }

  /** A cluster before any message is sent: arbitrary, consistent epochs and no election running. */
  ghost predicate Initial(s: State) {
    && s.net == {} && s.delivered == {} && s.won == {}
    && (forall v :: v in s.voters && v in s.nodes ==> s.nodes[v].master)
    && forall i :: i in s.nodes ==> NodeBound(s.nodes[i]) && s.nodes[i].authCount == 0 && !s.nodes[i].authSent
  }

  ghost predicate IsPath(run: seq<State>, steps: seq<Step>) {
    && |run| == |steps| + 1
    && forall k :: 0 <= k < |steps| ==> Enabled(run[k], steps[k]) && run[k + 1] == Apply(run[k], steps[k])
  }

  ghost predicate IsRun(run: seq<State>, steps: seq<Step>) {
    IsPath(run, steps) && Initial(run[0])
  }

  /** A packet changes its receiver only, and adds at most the receiver's vote to the network. */
  lemma ProcessFrame(s: State, m: Msg, willing: bool)
    requires m.dst in s.nodes && m.dst in s.nodes[m.dst].known
    ensures var s', me := Process(s, m, willing), m.dst;
      && s'.nodes == s.nodes[me := s'.nodes[me]] && s'.delivered == s.delivered + {m} && s'.voters == s.voters && s'.won == s.won
      && (s'.net == s.net || s'.net == s.net + {Msg(me, m.src, s'.nodes[me].currentEpoch, s'.nodes[me].known[me], Ack)})
  {
    assert s.nodes == s.nodes[m.dst := s.nodes[m.dst]];
  }

  lemma ProcessBounded(s: State, m: Msg, willing: bool)
    requires Bounded(s) && m in s.net && m.dst in s.nodes && m.dst in s.nodes[m.dst].known
    ensures Bounded(Process(s, m, willing))
  {
    hide NodeBound;
    ProcessFrame(s, m, willing);
    ReceiverBounded(s, m, willing);
    hide Process;
    OwnBound(Process(s, m, willing).nodes[m.dst], m.dst);
  }

  lemma OwnBound(n: Node, i: Id)
    requires NodeBound(n)
    ensures i in n.known ==> n.known[i] <= n.currentEpoch
  {
  }

  lemma ReceiverBounded(s: State, m: Msg, willing: bool)
    requires m.dst in s.nodes && m.dst in s.nodes[m.dst].known && NodeBound(s.nodes[m.dst]) && MsgBound(m)
    ensures NodeBound(Process(s, m, willing).nodes[m.dst]) && m.dst in Process(s, m, willing).nodes[m.dst].known
  {
    if m.src in s.nodes[m.dst].known {
      assert NodeBound(Receive(s.nodes[m.dst], m));
    }
  }

  lemma StepBounded(s: State, step: Step)
    requires Bounded(s) && Enabled(s, step)
    ensures Bounded(Apply(s, step))
  {
    var s' := Apply(s, step);
    match step {
      case Deliver(m, willing) => ProcessBounded(s, m, willing);
      case Send(i, j, via, body) => assert NodeBound(s.nodes[i]);
      case Learn(i, j) => assert NodeBound(s.nodes[i]) && NodeBound(s'.nodes[i]);
      case Bump(i) => assert NodeBound(s.nodes[i]) && NodeBound(s'.nodes[i]);
      case Schedule(i) => assert NodeBound(s.nodes[i]) && NodeBound(s'.nodes[i]);
      case Start(i, _) => assert NodeBound(s.nodes[i]) && NodeBound(s'.nodes[i]);
      case Win(i) => assert NodeBound(s.nodes[i]) && NodeBound(s'.nodes[i]);
      case Demote(i) => assert NodeBound(s.nodes[i]) && NodeBound(s'.nodes[i]);
    }
  }

  lemma {:induction false} RunsAreBounded(run: seq<State>, steps: seq<Step>, k: nat)
    requires IsRun(run, steps) && k < |run|
    ensures Bounded(run[k])
  {
    if k > 0 {
      RunsAreBounded(run, steps, k - 1);
      StepBounded(run[k - 1], steps[k - 1]);
    }
  }

  /** The epoch bound, for every node of every reachable state and every message in flight.  Hence
      clusterGetMaxEpoch returns the current epoch. */
  lemma EpochsAreBounded(run: seq<State>, steps: seq<Step>, k: nat, i: Id)
    requires IsRun(run, steps) && k < |run| && i in run[k].nodes
    ensures forall j :: j in run[k].nodes[i].known ==> run[k].nodes[i].known[j] <= run[k].nodes[i].currentEpoch
    ensures MaxEpoch(run[k].nodes[i]) == run[k].nodes[i].currentEpoch
    ensures forall m :: m in run[k].net ==> MsgBound(m)
  {
    RunsAreBounded(run, steps, k);
    hide IsRun;
    assert NodeBound(run[k].nodes[i]);
  }

  /** A node that gives itself a new epoch, by a bump or to resolve a collision, ends up strictly
      above every other epoch it knows, and above the one it had. */
  lemma FreshEpochIsGreatest(run: seq<State>, steps: seq<Step>, k: nat, i: Id)
    requires IsRun(run, steps) && k < |steps| && i in run[k].nodes && i in run[k].nodes[i].known
    requires steps[k] == Bump(i) || (steps[k].Deliver? && steps[k].m.dst == i && steps[k].m.src != i && steps[k].m.body.Ping?)
    ensures var n, n' := run[k].nodes[i], run[k + 1].nodes[i];
      n'.known[i] != n.known[i] ==>
        n'.known[i] > n.known[i] && n'.known[i] == n'.currentEpoch && forall j :: j in n'.known && j != i ==> n'.known[j] < n'.known[i]
  {
    RunsAreBounded(run, steps, k);
    assert NodeBound(run[k].nodes[i]);
    assert steps[k].Deliver? ==> MsgBound(steps[k].m);
  }

  /** Of two masters with the same epoch that hear each other, only the smaller-named one moves, and it
      does unless it believes the other to have a greater epoch than it has. */
  lemma SmallerNameMoves(a: Id, na: Node, b: Id, nb: Node)
    requires a < b && na.master && nb.master && {a, b} <= na.known.Keys && {a, b} <= nb.known.Keys
    requires NodeBound(na) && NodeBound(nb) && na.known[a] == nb.known[b]
    ensures var fromB := Msg(b, a, nb.currentEpoch, nb.known[b], Ping(true));
      var fromA := Msg(a, b, na.currentEpoch, na.known[a], Ping(true));
      var moved := FixCollision(Receive(na, fromB), a, fromB).known[a];
      && (if na.known[b] <= nb.known[b] then moved > Max(na.currentEpoch, nb.currentEpoch) else moved == na.known[a])
      && FixCollision(Receive(nb, fromA), b, fromA).known[b] == nb.known[b]
  {
  }

  /** What a node knows of epochs never goes back. */
  ghost predicate Grows(n: Node, n': Node) {
    && n'.currentEpoch >= n.currentEpoch && n'.lastVoteEpoch >= n.lastVoteEpoch
    && forall j :: j in n.known ==> j in n'.known && n'.known[j] >= n.known[j]
  }

  lemma GrowsOn(a: Node, b: Node, c: Node)
    requires Grows(a, b) && Grows(b, c)
    ensures Grows(a, c)
  {
  }

  lemma GrowsTo(n: Node, n': Node)
    requires n'.currentEpoch == n.currentEpoch && n'.lastVoteEpoch >= n.lastVoteEpoch && n'.known == n.known
    ensures Grows(n, n')
  {
  }

  lemma GrowsAt(n: Node, n': Node, j: Id, e: nat)
    requires n'.currentEpoch == n.currentEpoch && n'.lastVoteEpoch == n.lastVoteEpoch
    requires j in n.known && n.known[j] < e && n'.known == n.known[j := e]
    ensures Grows(n, n')
  {
  }

  lemma ReceiveGrows(n: Node, me: Id, m: Msg)
    requires m.src in n.known && me in n.known && NodeBound(n)
    ensures var n' := Receive(n, m);
      Grows(n, n') && n'.lastVoteEpoch <= n'.currentEpoch && (m.body.Ping? ==> Grows(n', FixCollision(n', me, m)))
  {
  }

  lemma ReceiverGrows(s: State, m: Msg, willing: bool)
    requires m.dst in s.nodes && m.dst in s.nodes[m.dst].known && NodeBound(s.nodes[m.dst])
    ensures Grows(s.nodes[m.dst], Process(s, m, willing).nodes[m.dst])
  {
    hide Grows, NodeBound, Receive, FixCollision, Votes;
    var n0, n' := s.nodes[m.dst], Process(s, m, willing).nodes[m.dst];
    if m.src !in n0.known {
      GrowsTo(n0, n');
    } else {
      ReceiveGrows(n0, m.dst, m);
      var n := Receive(n0, m);
      match m.body {
        case Ping(_) =>
        case Update(about, epoch) =>
          if about in n.known && n.known[about] < epoch { GrowsAt(n, n', about, epoch); } else { GrowsTo(n, n'); }
        case _ => GrowsTo(n, n');
      }
      GrowsOn(n0, n, n');
    }
  }

  lemma StepGrows(s: State, step: Step)
    requires Enabled(s, step) && forall i :: i in s.nodes ==> NodeBound(s.nodes[i])
    ensures var s' := Apply(s, step); s'.nodes.Keys == s.nodes.Keys && forall i :: i in s.nodes ==> Grows(s.nodes[i], s'.nodes[i])
  {
    if step.Deliver? {
      ProcessFrame(s, step.m, step.willing);
      ReceiverGrows(s, step.m, step.willing);
      hide Process, NodeBound;
    }
  }

  /** Along every history the epochs each node knows, votes in and lives in only grow. */
  lemma {:induction false} EpochsOnlyGrow(run: seq<State>, steps: seq<Step>, j: nat, k: nat, i: Id)
    requires IsRun(run, steps) && j <= k < |run| && i in run[j].nodes
    ensures i in run[k].nodes && Grows(run[j].nodes[i], run[k].nodes[i])
  {
    hide Enabled, Apply, NodeBound;
    if j < k {
      EpochsOnlyGrow(run, steps, j, k - 1, i);
      RunsAreBounded(run, steps, k - 1);
      StepGrows(run[k - 1], steps[k - 1]);
      hide IsRun, Grows, Initial;
      GrowsOn(run[j].nodes[i], run[k - 1].nodes[i], run[k].nodes[i]);
    }
  }

  /** A packet teaches its receiver the epochs it carries. */
  lemma PacketTeaches(s: State, m: Msg, willing: bool)
    requires m.dst in s.nodes && m.dst in s.nodes[m.dst].known && m.src in s.nodes[m.dst].known && NodeBound(s.nodes[m.dst]) && MsgBound(m)
    ensures var n' := Process(s, m, willing).nodes[m.dst];
      && n'.currentEpoch >= m.currentEpoch && m.src in n'.known && n'.known[m.src] >= m.configEpoch
      && (m.body.Update? && m.body.about in s.nodes[m.dst].known ==> m.body.about in n'.known && n'.known[m.body.about] >= m.body.epoch)
  {
  }

  /** Why a node's own configEpoch changes: a bump, a won election, an UPDATE about itself with a greater epoch, or
      a PING by which a master hears a master with its own epoch and a greater name (or its own packet). */
  lemma OwnEpochChanges(s: State, step: Step, i: Id)
    requires Enabled(s, step) && i in s.nodes && i in s.nodes[i].known
    ensures i in Apply(s, step).nodes && i in Apply(s, step).nodes[i].known
    ensures var n, n' := s.nodes[i], Apply(s, step).nodes[i];
      n'.known[i] == n.known[i] || step == Bump(i) || (step == Win(i) && n'.known[i] == n.authEpoch)
      || (step.Deliver? && step.m.dst == i && OwnEpochHeard(n, n', i, step.m))
  {
  }

  ghost predicate OwnEpochHeard(n: Node, n': Node, i: Id, m: Msg)
    requires i in n.known && i in n'.known
  {
    || (m.body.Update? && m.body.about == i && n'.known[i] == m.body.epoch > n.known[i])
    || (m.body == Ping(true) && n.master && m.configEpoch == n.known[i] && m.src > i && n'.known[i] == n'.currentEpoch)
    || (m.src == i && n'.known[i] == m.configEpoch > n.known[i])
  }

  /** A node becomes a master by winning or by an UPDATE about itself with a greater epoch, and always then. */
  lemma BecomesMaster(s: State, step: Step, i: Id)
    requires Enabled(s, step) && i in s.nodes && i in s.nodes[i].known
    ensures i in Apply(s, step).nodes && i in Apply(s, step).nodes[i].known
    ensures var n, n' := s.nodes[i], Apply(s, step).nodes[i];
      && (n'.master && !n.master ==> step == Win(i) || (step.Deliver? && step.m.dst == i && Promotes(n, n', i, step.m)))
      && (n.master && !n'.master ==> step == Demote(i))
      && (step.Deliver? && step.m.dst == i && Tells(n, i, step.m) ==> n'.master && Promotes(n, n', i, step.m))
  {
  }

  /** m is an UPDATE from another, known node about node i itself, with a greater epoch than i has. */
  ghost predicate Tells(n: Node, i: Id, m: Msg)
    requires i in n.known
  {
    m.src in n.known && m.src != i && m.body.Update? && m.body.about == i && n.known[i] < m.body.epoch
  }

  ghost predicate Promotes(n: Node, n': Node, i: Id, m: Msg)
    requires i in n.known && i in n'.known
  {
    m.body.Update? && m.body.about == i && n.known[i] < m.body.epoch == n'.known[i]
  }

  /** After a bump the node has an epoch that none it knows exceeds; it takes a new one exactly if it had
      none or not the current one. */
  lemma BumpExactly(s: State, i: Id)
    requires Enabled(s, Bump(i)) && NodeBound(s.nodes[i])
    ensures var n, n' := s.nodes[i], Apply(s, Bump(i)).nodes[i];
      && n'.known[i] > 0 && (forall j :: j in n'.known ==> n'.known[j] <= n'.known[i])
      && (n' == n <==> n.known[i] > 0 && n.known[i] == n.currentEpoch)
  {
  }

  /** Two masters with the same epoch part as soon as the smaller-named one hears the other. */
  lemma CollisionEnds(s: State, a: Id, b: Id) returns (s1: State, s2: State, m: Msg)
    requires {a, b} <= s.nodes.Keys && {a, b} <= s.nodes[a].known.Keys && {a, b} <= s.nodes[b].known.Keys && a < b
    requires s.nodes[a].master && s.nodes[b].master && s.nodes[a].known[a] == s.nodes[b].known[b] >= s.nodes[a].known[b]
    requires NodeBound(s.nodes[a]) && NodeBound(s.nodes[b])
    ensures Enabled(s, Send(b, a, b, Ping(true))) && s1 == Apply(s, Send(b, a, b, Ping(true)))
    ensures Enabled(s1, Deliver(m, false)) && s2 == Apply(s1, Deliver(m, false))
    ensures s2.nodes[a].known[a] > s2.nodes[b].known[b] && s2.nodes[b] == s.nodes[b]
  {
    s1 := Apply(s, Send(b, a, b, Ping(true)));
    m := Msg(b, a, s.nodes[b].currentEpoch, s.nodes[b].known[b], Ping(true));
    s2 := Apply(s1, Deliver(m, false));
  }

  // ------------------------------------------------------------ elections

  /** Votes are only granted by voters, one per voter and epoch, and only for an epoch in which
      the candidate asked. */
  ghost predicate VotesSound(s: State) {
    && (forall m :: m in s.net && m.body.Ack? ==>
          m.src in s.voters && m.src in s.nodes && m.currentEpoch <= s.nodes[m.src].lastVoteEpoch
          && m.dst in s.nodes && m.currentEpoch <= s.nodes[m.dst].authEpoch)
    && (forall m, q :: m in s.net && q in s.net && m.body.Ack? && q.body.Ack? && m.src == q.src && m.currentEpoch == q.currentEpoch ==> m == q)
    && (forall m :: m in s.net && m.body.Request? ==> m.src in s.nodes && m.currentEpoch <= s.nodes[m.src].authEpoch)
  }

  ghost function VotesFor(msgs: set<Msg>, c: Id, e: nat): set<Msg> {
    set m | m in msgs && m.body.Ack? && m.dst == c && m.currentEpoch == e
  }

  /** A candidate has counted no more votes than it received for its current election. */
  ghost predicate CountOk(delivered: set<Msg>, i: Id, n: Node) {
    n.authCount <= |VotesFor(delivered, i, n.authEpoch)| && (!n.authSent ==> n.authCount == 0)
  }

  ghost predicate CountsSound(s: State) {
    && s.delivered <= s.net
    && forall i :: i in s.nodes ==> CountOk(s.delivered, i, s.nodes[i])
  }

  ghost predicate WinsSound(s: State) {
    forall c, e :: (c, e) in s.won ==> 2 * |VotesFor(s.net, c, e)| > |s.voters|
  }

  /** The vote is received while its candidate still waits for votes, not after the candidate
      rescheduled its election. */
  ghost predicate Punctual(s: State, step: Step) {
    step.Deliver? && step.m.body.Ack? && step.m.dst in s.nodes ==> s.nodes[step.m.dst].authSent
  }

  /** Every step but a granted vote and a request leaves the votes alone. */
  lemma VotesKept(s: State, s': State)
    requires VotesSound(s) && s'.voters == s.voters && s'.nodes.Keys == s.nodes.Keys && s.net <= s'.net
    requires forall i :: i in s.nodes ==>
      s'.nodes[i].lastVoteEpoch >= s.nodes[i].lastVoteEpoch && s'.nodes[i].authEpoch >= s.nodes[i].authEpoch
    requires forall m :: m in s'.net && m !in s.net ==>
      !m.body.Ack? && (m.body.Request? ==> m.src in s.nodes && m.currentEpoch <= s'.nodes[m.src].authEpoch)
    ensures VotesSound(s')
  {
  }

  lemma VoteKept(s: State, s': State, me: Id, q: Msg)
    requires VotesSound(s) && s'.voters == s.voters && s'.nodes.Keys == s.nodes.Keys && s'.net == s.net + {q}
    requires forall i :: i in s.nodes ==>
      s'.nodes[i].lastVoteEpoch >= s.nodes[i].lastVoteEpoch && s'.nodes[i].authEpoch >= s.nodes[i].authEpoch
    requires q.body.Ack? && q.src in s.voters && q.src in s.nodes && q.dst in s.nodes
    requires s.nodes[q.src].lastVoteEpoch < q.currentEpoch <= s'.nodes[q.src].lastVoteEpoch
    requires q.currentEpoch <= s.nodes[q.dst].authEpoch
    ensures VotesSound(s')
  {
  }

  lemma ProcessKeepsVotes(s: State, m: Msg, willing: bool)
    requires VotesSound(s) && Bounded(s) && m in s.net && m.dst in s.nodes && m.dst in s.nodes[m.dst].known
    ensures VotesSound(Process(s, m, willing))
  {
    var me, s' := m.dst, Process(s, m, willing);
    assert NodeBound(s.nodes[me]);
    hide VotesSound, Bounded;
    if m.src in s.nodes[me].known && m.body.Request? && Votes(Receive(s.nodes[me], m), me in s.voters, m, willing) {
      var n := Receive(s.nodes[me], m);
      RequestSound(s, m);
      VoteKept(s, s', me, Msg(me, m.src, n.currentEpoch, n.known[me], Ack));
    } else {
      VotesKept(s, s');
    }
  }

  lemma RequestSound(s: State, m: Msg)
    requires VotesSound(s) && m in s.net && m.body.Request?
    ensures m.src in s.nodes && m.currentEpoch <= s.nodes[m.src].authEpoch
  {
  }

  lemma StepKeepsVotes(s: State, step: Step)
    requires VotesSound(s) && Bounded(s) && Enabled(s, step)
    ensures VotesSound(Apply(s, step))
  {
    if step.Deliver? {
      ProcessKeepsVotes(s, step.m, step.willing);
    } else {
      assert step.Start? ==> NodeBound(s.nodes[step.i]);
      hide VotesSound, Bounded;
      VotesKept(s, Apply(s, step));
    }
  }

  lemma MoreVotes(a: set<Msg>, b: set<Msg>, c: Id, e: nat)
    requires a <= b
    ensures VotesFor(a, c, e) <= VotesFor(b, c, e)
    ensures |VotesFor(a, c, e)| <= |VotesFor(b, c, e)|
  {
    Subset(VotesFor(a, c, e), VotesFor(b, c, e));
  }

  /** Counting one more vote after receiving it. */
  lemma CountOne(delivered: set<Msg>, m: Msg, e: nat)
    requires m !in delivered && m.body.Ack? && m.currentEpoch == e
    ensures |VotesFor(delivered + {m}, m.dst, e)| == |VotesFor(delivered, m.dst, e)| + 1
  {
    assert VotesFor(delivered + {m}, m.dst, e) == VotesFor(delivered, m.dst, e) + {m};
  }

  /** What a delivery does to the counting of votes. */
  lemma ProcessCounts(s: State, m: Msg, willing: bool)
    requires m.dst in s.nodes && m.dst in s.nodes[m.dst].known
    ensures var s' := Process(s, m, willing);
      && s'.nodes.Keys == s.nodes.Keys && s'.delivered == s.delivered + {m} && s.net <= s'.net
      && (forall i :: i in s.nodes ==>
            && s'.nodes[i].authEpoch == s.nodes[i].authEpoch && s'.nodes[i].authSent == s.nodes[i].authSent
            && s'.nodes[i].authCount == s.nodes[i].authCount +
                 if i == m.dst && m.body.Ack? && m.src in s.nodes[i].known && m.src in s.voters && m.currentEpoch >= s.nodes[i].authEpoch
                 then 1 else 0)
  {
    ProcessFrame(s, m, willing);
    ReceiverCounts(s, m, willing);
    hide Process;
  }

  lemma ReceiverCounts(s: State, m: Msg, willing: bool)
    requires m.dst in s.nodes && m.dst in s.nodes[m.dst].known
    ensures var n, n' := s.nodes[m.dst], Process(s, m, willing).nodes[m.dst];
      && n'.authEpoch == n.authEpoch && n'.authSent == n.authSent
      && n'.authCount == n.authCount +
           if m.body.Ack? && m.src in n.known && m.src in s.voters && m.currentEpoch >= n.authEpoch then 1 else 0
  {
  }

  lemma AckSound(s: State, m: Msg)
    requires VotesSound(s) && m in s.net && m.body.Ack? && m.dst in s.nodes
    ensures m.currentEpoch <= s.nodes[m.dst].authEpoch
  {
  }

  lemma CountStep(delivered: set<Msg>, m: Msg, i: Id, n: Node, n': Node)
    requires CountOk(delivered, i, n) && n'.authEpoch == n.authEpoch && n'.authSent == n.authSent
    requires n'.authCount == n.authCount
      || (n'.authCount == n.authCount + 1 && n.authSent && m !in delivered && m.body.Ack? && m.dst == i && m.currentEpoch == n.authEpoch)
    ensures CountOk(delivered + {m}, i, n')
  {
    MoreVotes(delivered, delivered + {m}, i, n.authEpoch);
    if n'.authCount != n.authCount {
      CountOne(delivered, m, n.authEpoch);
    }
  }

  lemma ProcessKeepsCounts(s: State, m: Msg, willing: bool)
    requires CountsSound(s) && VotesSound(s) && Enabled(s, Deliver(m, willing)) && Punctual(s, Deliver(m, willing))
    ensures CountsSound(Process(s, m, willing))
  {
    hide Process, VotesSound, CountOk;
    var s' := Process(s, m, willing);
    ProcessCounts(s, m, willing);
    if m.body.Ack? { AckSound(s, m); }
    forall i | i in s'.nodes ensures CountOk(s'.delivered, i, s'.nodes[i]) {
      CountStep(s.delivered, m, i, s.nodes[i], s'.nodes[i]);
    }
  }

  lemma StepKeepsCounts(s: State, step: Step)
    requires CountsSound(s) && VotesSound(s) && Enabled(s, step) && Punctual(s, step)
    ensures CountsSound(Apply(s, step))
  {
    if step.Deliver? {
      ProcessKeepsCounts(s, step.m, step.willing);
    } else {
      var s' := Apply(s, step);
      forall i | i in s'.nodes ensures CountOk(s'.delivered, i, s'.nodes[i]) {
        assert CountOk(s.delivered, i, s.nodes[i]);
        hide CountsSound, VotesSound, VotesFor;
      }
    }
  }

  lemma StepKeepsWins(s: State, step: Step)
    requires WinsSound(s) && CountsSound(s) && Enabled(s, step)
    ensures WinsSound(Apply(s, step))
  {
    var s' := Apply(s, step);
    assert s.net <= s'.net && s'.voters == s.voters by { hide WinsSound, CountsSound; }
    forall c, e | (c, e) in s'.won ensures 2 * |VotesFor(s'.net, c, e)| > |s'.voters| {
      if (c, e) in s.won {
        MoreVotes(s.net, s'.net, c, e);
      } else {
        assert step == Win(c) && e == s.nodes[c].authEpoch;
        MoreVotes(s.delivered, s'.net, c, e);
      }
    }
  }

  ghost predicate Fair(s: State) {
    Bounded(s) && VotesSound(s) && CountsSound(s) && WinsSound(s)
  }

  lemma {:induction false} RunsAreFair(run: seq<State>, steps: seq<Step>, k: nat)
    requires IsRun(run, steps) && k < |run|
    requires forall j :: 0 <= j < k ==> Punctual(run[j], steps[j])
    ensures Fair(run[k])
  {
    if k == 0 {
      forall i | i in run[0].nodes ensures CountOk(run[0].delivered, i, run[0].nodes[i]) { }
    } else {
      RunsAreFair(run, steps, k - 1);
      var s, step := run[k - 1], steps[k - 1];
      assert Punctual(s, step) && run[k] == Apply(s, step);
      hide Bounded, VotesSound, CountsSound, WinsSound, Enabled, Apply, Punctual;
      StepBounded(s, step);
      StepKeepsVotes(s, step);
      StepKeepsCounts(s, step);
      StepKeepsWins(s, step);
    }
  }

  /** Votes with distinct voters are no more than the voters. */
  lemma {:induction false} OneVoteEach(votes: set<Msg>, voters: set<Id>)
    requires forall m :: m in votes ==> m.src in voters
    requires forall m, q :: m in votes && q in votes && m.src == q.src ==> m == q
    ensures |votes| <= |voters|
  {
    if votes != {} {
      var m :| m in votes;
      OneVoteEach(votes - {m}, voters - {m.src});
    }
  }

  /** Election safety: in every history whose votes arrive in time, at most one candidate wins an
      epoch.  Two winners would have two majorities of the voters, hence a voter in common, which
      voted twice in one epoch. */
  lemma AtMostOneWinner(run: seq<State>, steps: seq<Step>, k: nat, a: Id, b: Id, e: nat)
    requires IsRun(run, steps) && k < |run|
    requires forall j :: 0 <= j < k ==> Punctual(run[j], steps[j])
    requires (a, e) in run[k].won && (b, e) in run[k].won
    ensures a == b
  {
    RunsAreFair(run, steps, k);
    hide IsRun, Bounded, CountsSound;
    var s := run[k];
    var va, vb := VotesFor(s.net, a, e), VotesFor(s.net, b, e);
    assert 2 * |va| > |s.voters| && 2 * |vb| > |s.voters|;
    VotesOf(s, a, b, e);
    hide Fair, VotesSound, WinsSound, VotesFor;
    if a != b {
      MajoritiesMeet(va, vb, s.voters);
    }
  }

  lemma VotesOf(s: State, a: Id, b: Id, e: nat)
    requires VotesSound(s)
    ensures var va, vb := VotesFor(s.net, a, e), VotesFor(s.net, b, e);
      && (a != b ==> va !! vb) && (forall m :: m in va + vb ==> m.src in s.voters)
      && (forall m, q :: m in va + vb && q in va + vb && m.src == q.src ==> m == q)
  {
  }

  /** Two majorities have a voter in common. */
  lemma MajoritiesMeet(va: set<Msg>, vb: set<Msg>, voters: set<Id>)
    requires forall m :: m in va + vb ==> m.src in voters
    requires forall m, q :: m in va + vb && q in va + vb && m.src == q.src ==> m == q
    requires 2 * |va| > |voters| && 2 * |vb| > |voters|
    ensures va * vb != {}
  {
    if va * vb == {} {
      assert |va + vb| == |va| + |vb|;
      OneVoteEach(va + vb, voters);
    }
  }

  /** Only starting an election changes its epoch, or makes a candidate wait for votes. */
  lemma AuthStep(s: State, step: Step, c: Id)
    requires Enabled(s, step) && c in s.nodes && !(step.Start? && step.i == c)
    ensures var n, n' := s.nodes[c], Apply(s, step).nodes[c]; n'.authEpoch == n.authEpoch && (n'.authSent ==> n.authSent)
  {
  }

  lemma StartStep(s: State, c: Id, via: Id)
    requires Enabled(s, Start(c, via)) && NodeBound(s.nodes[c])
    ensures var n, n' := s.nodes[c], Apply(s, Start(c, via)).nodes[c];
      && n'.authSent && n'.authEpoch == n'.currentEpoch
      && forall j :: j in n.known ==> n.known[j] < n'.authEpoch
  {
  }

  lemma SameNodes(s: State, step: Step)
    requires Enabled(s, step)
    ensures Apply(s, step).nodes.Keys == s.nodes.Keys
  {
  }

  /** A candidate that waits for votes has started that election, in an epoch above all it knew then. */
  lemma {:induction false} HasAsked(run: seq<State>, steps: seq<Step>, k: nat, c: Id) returns (i: nat)
    requires IsRun(run, steps) && k < |run| && c in run[k].nodes && run[k].nodes[c].authSent
    ensures i < k && steps[i].Start? && steps[i].i == c && c in run[i].nodes
    ensures forall j :: j in run[i].nodes[c].known ==> run[i].nodes[c].known[j] < run[k].nodes[c].authEpoch
  {
    assert k > 0;
    var s, step := run[k - 1], steps[k - 1];
    assert Enabled(s, step) && run[k] == Apply(s, step);
    RunsAreBounded(run, steps, k - 1);
    hide Initial, Apply;
    SameNodes(s, step);
    assert NodeBound(s.nodes[c]);
    if step.Start? && step.i == c {
      i := k - 1;
      StartStep(s, c, step.via);
    } else {
      hide Enabled;
      AuthStep(s, step, c);
      i := HasAsked(run, steps, k - 1, c);
    }
  }

  /** The winner of an election is a master with the epoch of that election at least, and hence with a
      greater one than any it knew when it asked for votes. */
  lemma WinnerOutranks(run: seq<State>, steps: seq<Step>, k: nat, c: Id) returns (i: nat)
    requires IsRun(run, steps) && k < |steps| && steps[k] == Win(c)
    ensures c in run[k].nodes && c in run[k + 1].nodes && c in run[k + 1].nodes[c].known
    ensures var e, n' := run[k].nodes[c].authEpoch, run[k + 1].nodes[c];
      && (c, e) in run[k + 1].won && n'.master && n'.known[c] >= e
      && i < k && steps[i].Start? && steps[i].i == c && c in run[i].nodes
      && forall j :: j in run[i].nodes[c].known ==> run[i].nodes[c].known[j] < n'.known[c]
  {
    assert Enabled(run[k], Win(c)) && run[k + 1] == Apply(run[k], Win(c));
    i := HasAsked(run, steps, k, c);
    hide IsRun, IsPath;
  }

  /** Whoever has won an epoch has that configEpoch or a later one ever since. */
  ghost predicate WinnersLead(s: State) {
    forall c, e :: (c, e) in s.won ==> c in s.nodes && c in s.nodes[c].known && s.nodes[c].known[c] >= e
  }

  lemma WonStep(s: State, step: Step)
    requires Enabled(s, step)
    ensures var s' := Apply(s, step);
      forall c, e :: (c, e) in s'.won && (c, e) !in s.won ==> c in s'.nodes && c in s'.nodes[c].known && s'.nodes[c].known[c] >= e
  {
  }

  lemma {:induction false} RunsLead(run: seq<State>, steps: seq<Step>, k: nat)
    requires IsRun(run, steps) && k < |run|
    ensures WinnersLead(run[k])
  {
    hide Enabled, Apply, Bounded, WinnersLead;
    if k > 0 {
      RunsLead(run, steps, k - 1);
      RunsAreBounded(run, steps, k - 1);
      LeadStep(run[k - 1], steps[k - 1]);
    } else {
      NobodyLeads(run[0]);
    }
  }

  lemma NobodyLeads(s: State)
    requires Initial(s)
    ensures WinnersLead(s)
  {
  }

  lemma LeadStep(s: State, step: Step)
    requires Enabled(s, step) && Bounded(s) && WinnersLead(s)
    ensures WinnersLead(Apply(s, step))
  {
    hide Enabled, Apply, NodeBound;
    var s' := Apply(s, step);
    WonStep(s, step);
    StepGrows(s, step);
    forall c, e | (c, e) in s'.won
      ensures c in s'.nodes && c in s'.nodes[c].known && s'.nodes[c].known[c] >= e
    {
      if (c, e) in s.won { assert Grows(s.nodes[c], s'.nodes[c]); }
    }
  }

  // ------------------------------------------------------------ why votes must arrive in time

  /** Everybody knows everybody. */
  ghost predicate Full(s: State) {
    forall i, j :: i in s.nodes && j in s.nodes ==> j in s.nodes[i].known
  }

  /** s' differs from s at node i only. */
  ghost predicate OnlyAt(s: State, s': State, i: Id) {
    && Full(s') && s'.nodes.Keys == s.nodes.Keys && s'.voters == s.voters && s.net <= s'.net
    && (forall j :: j in s.nodes && j != i ==> s'.nodes[j] == s.nodes[j])
  }

  ghost predicate Next(s: State, step: Step, s': State) {
    Enabled(s, step) && s' == Apply(s, step)
  }

  /** Candidate c, a slave of m, asks everybody for votes in the next epoch. */
  lemma Asks(s: State, c: Id, m: Id) returns (s': State, step: Step)
    requires Full(s) && {c, m} <= s.nodes.Keys && !s.nodes[c].master && !s.nodes[c].authSent
    ensures Next(s, step, s') && OnlyAt(s, s', c) && s'.delivered == s.delivered && s'.won == s.won
    ensures var e := s.nodes[c].currentEpoch + 1;
      && s'.nodes[c] == s.nodes[c].(currentEpoch := e, authEpoch := e, authSent := true)
      && forall v :: v in s.nodes ==> Msg(c, v, e, s.nodes[c].known[m], Request) in s'.net
  {
    step := Start(c, m);
    s' := Apply(s, step);
  }

  /** Voter v receives the request of c and grants it. */
  lemma Grants(s: State, rq: Msg) returns (s': State, step: Step, ack: Msg)
    requires Full(s) && {rq.src, rq.dst} <= s.nodes.Keys && rq.dst in s.voters && rq in s.net && rq.body == Request
    requires s.nodes[rq.dst].currentEpoch <= rq.currentEpoch && s.nodes[rq.dst].lastVoteEpoch < rq.currentEpoch
    ensures Next(s, step, s') && OnlyAt(s, s', rq.dst) && s'.delivered == s.delivered + {rq} && s'.won == s.won
    ensures s'.nodes[rq.dst].currentEpoch == s'.nodes[rq.dst].lastVoteEpoch == rq.currentEpoch
    ensures ack in s'.net && ack.src == rq.dst && ack.dst == rq.src && ack.currentEpoch == rq.currentEpoch && ack.body == Ack
  {
    step := Deliver(rq, true);
    s' := Apply(s, step);
    ack := Msg(rq.dst, rq.src, rq.currentEpoch, s'.nodes[rq.dst].known[rq.dst], Ack);
  }

  /** The candidate receives the vote and counts it. */
  lemma Counts(s: State, ack: Msg) returns (s': State, step: Step)
    requires Full(s) && {ack.src, ack.dst} <= s.nodes.Keys && ack.src in s.voters
    requires ack in s.net && ack !in s.delivered && ack.body == Ack
    requires s.nodes[ack.dst].authEpoch <= ack.currentEpoch <= s.nodes[ack.dst].currentEpoch
    ensures Next(s, step, s') && OnlyAt(s, s', ack.dst) && s'.delivered == s.delivered + {ack} && s'.won == s.won
    ensures var n, n' := s.nodes[ack.dst], s'.nodes[ack.dst]; n' == n.(authCount := n.authCount + 1, known := n'.known)
  {
    step := Deliver(ack, true);
    s' := Apply(s, step);
  }

  lemma Reschedules(s: State, c: Id) returns (s': State, step: Step)
    requires Full(s) && c in s.nodes && !s.nodes[c].master
    ensures Next(s, step, s') && OnlyAt(s, s', c) && s'.delivered == s.delivered && s'.won == s.won
    ensures s'.nodes[c] == s.nodes[c].(authCount := 0, authSent := false)
  {
    step := Schedule(c);
    s' := Apply(s, step);
  }

  lemma Wins(s: State, c: Id) returns (s': State, step: Step)
    requires Full(s) && c in s.nodes && !s.nodes[c].master && s.nodes[c].authSent && s.nodes[c].authCount >= Quorum(s)
    ensures Next(s, step, s') && OnlyAt(s, s', c) && s'.delivered == s.delivered
    ensures s'.won == s.won + {(c, s.nodes[c].authEpoch)}
  {
    step := Win(c);
    s' := Apply(s, step);
  }

  /** Some history leads from s to s'. */
  ghost predicate Reaches(s: State, s': State) {
    exists run, steps :: IsPath(run, steps) && run[0] == s && run[|run| - 1] == s'
  }

  lemma Stays(s: State)
    ensures Reaches(s, s)
  {
    assert IsPath([s], []);
  }

  lemma Goes(s: State, step: Step, s': State)
    requires Next(s, step, s')
    ensures Reaches(s, s')
  {
    hide Enabled, Apply;
    assert IsPath([s, s'], [step]);
  }

  lemma Through(s: State, s1: State, s2: State)
    requires Reaches(s, s1) && Reaches(s1, s2)
    ensures Reaches(s, s2)
  {
    hide Enabled, Apply;
    var run, steps :| IsPath(run, steps) && run[0] == s && run[|run| - 1] == s1;
    var run', steps' :| IsPath(run', steps') && run'[0] == s1 && run'[|run'| - 1] == s2;
    Joined(run, steps, run', steps');
  }

  lemma Joined(run: seq<State>, steps: seq<Step>, run': seq<State>, steps': seq<Step>)
    requires IsPath(run, steps) && IsPath(run', steps') && run[|run| - 1] == run'[0]
    ensures var r := run + run'[1..]; IsPath(r, steps + steps') && r[0] == run[0] && r[|r| - 1] == run'[|run'| - 1]
  {
    hide Enabled, Apply;
    var r, t := run + run'[1..], steps + steps';
    forall k | 0 <= k < |t|
      ensures Enabled(r[k], t[k]) && r[k + 1] == Apply(r[k], t[k])
    {
      if k >= |steps| {
        var k' := k - |steps|;
        assert Enabled(run'[k'], steps'[k']) && run'[k' + 1] == Apply(run'[k'], steps'[k']);
        assert r[k] == run'[k'] && r[k + 1] == run'[k' + 1] && t[k] == steps'[k'];
      } else {
        assert r[k] == run[k] && r[k + 1] == run[k + 1] && t[k] == steps[k];
      }
    }
  }

  /** s' can be reached from s, and only the nodes `who` have changed or received votes since. */
  ghost predicate Leads(s: State, s': State, who: set<Id>) {
    && Reaches(s, s') && Full(s') && s'.nodes.Keys == s.nodes.Keys && s'.voters == s.voters && s.net <= s'.net
    && (forall j :: j in s.nodes && j !in who ==> s'.nodes[j] == s.nodes[j])
    && (forall m :: m in s'.delivered && m !in s.delivered && m.body.Ack? ==> m.dst in who)
  }

  /** What i may say to j can be sent and delivered, and is learnt, once j knows i. */
  lemma Hears(s: State, i: Id, j: Id, via: Id, body: Body) returns (s': State)
    requires Bounded(s) && {i, j} <= s.nodes.Keys && {i, j} <= s.nodes[j].known.Keys
    requires via in s.nodes[i].known && (s.nodes[i].master ==> via == i)
    requires body == Ping(s.nodes[i].master) || (body.Update? && body.about in s.nodes[i].known && body.epoch == s.nodes[i].known[body.about])
    ensures Reaches(s, s') && j in s'.nodes && i in s'.nodes[j].known
    ensures var n, n' := s.nodes[i], s'.nodes[j];
      && n'.currentEpoch >= n.currentEpoch && n'.known[i] >= n.known[via]
      && (body.Update? && body.about in s.nodes[j].known ==> body.about in n'.known && n'.known[body.about] >= n.known[body.about])
  {
    var s1 := Apply(s, Send(i, j, via, body));
    var m := Msg(i, j, s.nodes[i].currentEpoch, s.nodes[i].known[via], body);
    s' := Apply(s1, Deliver(m, false));
    assert NodeBound(s.nodes[i]) && NodeBound(s.nodes[j]);
    PacketTeaches(s1, m, false);
    hide Reaches, Process;
    Goes(s, Send(i, j, via, body), s1);
    Goes(s1, Deliver(m, false), s');
    Through(s, s1, s');
  }

  /** News travels: a node can be introduced to any other, and then hears the epochs it has. */
  lemma NewsTravels(s: State, i: Id, j: Id, via: Id, body: Body) returns (s': State)
    requires Bounded(s) && {i, j} <= s.nodes.Keys && j in s.nodes[j].known
    requires via in s.nodes[i].known && (s.nodes[i].master ==> via == i)
    requires body == Ping(s.nodes[i].master) || (body.Update? && body.about in s.nodes[i].known && body.epoch == s.nodes[i].known[body.about])
    ensures Reaches(s, s') && j in s'.nodes && i in s'.nodes[j].known
    ensures var n, n' := s.nodes[i], s'.nodes[j];
      && n'.currentEpoch >= n.currentEpoch && n'.known[i] >= n.known[via]
      && (body.Update? && body.about in s.nodes[j].known ==> body.about in n'.known && n'.known[body.about] >= n.known[body.about])
  {
    hide Reaches, Bounded;
    if i in s.nodes[j].known {
      s' := Hears(s, i, j, via, body);
    } else {
      var s1 := Apply(s, Learn(j, i));
      StepBounded(s, Learn(j, i));
      Goes(s, Learn(j, i), s1);
      s' := Hears(s1, i, j, via, body);
      Through(s, s1, s');
    }
  }

  lemma LeadsNowhere(s: State, who: set<Id>)
    requires Full(s)
    ensures Leads(s, s, who)
  {
    Stays(s);
  }

  lemma LeadsOne(s: State, step: Step, s': State, i: Id)
    requires Next(s, step, s') && OnlyAt(s, s', i)
    requires forall m :: m in s'.delivered && m !in s.delivered && m.body.Ack? ==> m.dst == i
    ensures Leads(s, s', {i})
  {
    hide Next, Reaches;
    Goes(s, step, s');
  }

  lemma LeadsOn(s: State, s1: State, s2: State, who: set<Id>, who': set<Id>)
    requires Leads(s, s1, who) && Leads(s1, s2, who')
    ensures Leads(s, s2, who + who')
  {
    hide Reaches, Full;
    Through(s, s1, s2);
  }

  ghost predicate HasRequest(s: State, c: Id, v: Id, e: nat) {
    exists m :: m in s.net && m.src == c && m.dst == v && m.currentEpoch == e && m.body == Request
  }

  ghost predicate HasVote(s: State, v: Id, c: Id, e: nat) {
    exists m :: m in s.net && m.src == v && m.dst == c && m.currentEpoch == e && m.body == Ack
  }

  /** Voter v may still vote in epoch e. */
  ghost predicate Free(s: State, v: Id, e: nat) {
    v in s.nodes && v in s.voters && s.nodes[v].currentEpoch <= e && s.nodes[v].lastVoteEpoch < e
  }

  ghost predicate Voted(s: State, v: Id, e: nat) {
    v in s.nodes && s.nodes[v].currentEpoch == s.nodes[v].lastVoteEpoch == e
  }

  /** The voters of `todo` are asked by c and free to vote. */
  ghost predicate Asked(s: State, c: Id, e: nat, todo: set<Id>) {
    forall v :: v in todo ==> Free(s, v, e) && HasRequest(s, c, v, e)
  }

  ghost predicate Granted(s: State, c: Id, e: nat, done: set<Id>) {
    forall v :: v in done ==> Voted(s, v, e) && HasVote(s, v, c, e)
  }

  ghost predicate NoVoteReceived(s: State, s': State) {
    s'.won == s.won && forall m :: m in s'.delivered && m.body.Ack? ==> m in s.delivered
  }

  /** All voters of `todo` grant the request of c for epoch e. */
  lemma {:induction false} AllGrant(s: State, c: Id, e: nat, todo: set<Id>) returns (s': State)
    requires Full(s) && c in s.nodes && c !in todo && Asked(s, c, e, todo)
    ensures Leads(s, s', todo) && NoVoteReceived(s, s') && Granted(s', c, e, todo)
    decreases |todo|
  {
    hide Full, Free, HasRequest, HasVote, Voted, Leads, NoVoteReceived;
    if todo == {} {
      s' := s;
      LeadsNowhere(s, todo);
      NoneReceived(s);
    } else {
      var v :| v in todo;
      var s1 := OneGrants(s, c, v, e);
      var rest := todo - {v};
      StillAsked(s, s1, c, v, e, todo);
      KeepsNodes(s, s1, {v});
      s' := AllGrant(s1, c, e, rest);
      LeadsOn(s, s1, s', {v}, rest);
      assert {v} + rest == todo;
      VoteStays(s1, s', rest, c, v, e);
      NoneReceivedYet(s, s1, s');
    }
  }

  lemma NoneReceived(s: State)
    ensures NoVoteReceived(s, s)
  {
  }

  lemma NoneReceivedYet(s: State, s1: State, s2: State)
    requires NoVoteReceived(s, s1) && NoVoteReceived(s1, s2)
    ensures NoVoteReceived(s, s2)
  {
  }

  lemma StillAsked(s: State, s': State, c: Id, v: Id, e: nat, todo: set<Id>)
    requires Leads(s, s', {v}) && Asked(s, c, e, todo)
    ensures Asked(s', c, e, todo - {v})
  {
    hide Leads, Free, HasRequest;
    forall w | w in todo - {v}
      ensures Free(s', w, e) && HasRequest(s', c, w, e)
    {
      Unchanged(s, s', {v}, c, w, e);
    }
  }

  lemma OneGrants(s: State, c: Id, v: Id, e: nat) returns (s': State)
    requires Full(s) && c in s.nodes && c != v && Free(s, v, e) && HasRequest(s, c, v, e)
    ensures Leads(s, s', {v}) && NoVoteReceived(s, s')
    ensures Voted(s', v, e) && HasVote(s', v, c, e)
  {
    var rq :| rq in s.net && rq.src == c && rq.dst == v && rq.currentEpoch == e && rq.body == Request;
    hide Next, Full, OnlyAt, Leads;
    var step, ack;
    s', step, ack := Grants(s, rq);
    LeadsOne(s, step, s', v);
    KeepsNodes(s, s', {v});
  }

  lemma KeepsNodes(s: State, s': State, who: set<Id>)
    requires Leads(s, s', who)
    ensures Full(s') && s'.nodes.Keys == s.nodes.Keys && s'.voters == s.voters && s.net <= s'.net
    ensures forall j :: j in s.nodes && j !in who ==> s'.nodes[j] == s.nodes[j]
  {
    hide Reaches, Full;
  }

  lemma Unchanged(s: State, s': State, who: set<Id>, c: Id, w: Id, e: nat)
    requires Leads(s, s', who) && w !in who
    ensures Free(s, w, e) ==> Free(s', w, e)
    ensures HasRequest(s, c, w, e) ==> HasRequest(s', c, w, e)
  {
    hide Reaches, Full;
  }

  lemma VoteStays(s: State, s': State, who: set<Id>, c: Id, v: Id, e: nat)
    requires Leads(s, s', who) && v !in who
    ensures HasVote(s, v, c, e) ==> HasVote(s', v, c, e)
    ensures Voted(s, v, e) ==> Voted(s', v, e)
  {
    hide Reaches, Full;
  }

  /** No vote of `who` for c in epoch e has been received. */
  ghost predicate Unheard(s: State, who: set<Id>, c: Id, e: nat) {
    forall m :: m in s.delivered && m.body.Ack? && m.dst == c && m.src in who ==> m.currentEpoch != e
  }

  /** The candidate as far as elections go. */
  ghost predicate Is(s: State, c: Id, current: nat, auth: nat, count: nat, sent: bool) {
    && c in s.nodes && !s.nodes[c].master && s.nodes[c].currentEpoch == current && s.nodes[c].authEpoch == auth
    && s.nodes[c].authCount == count && s.nodes[c].authSent == sent
  }

  /** Candidate c receives and counts the votes of `todo`, whether or not it still waits for them. */
  lemma {:induction false} AllCounted(s: State, c: Id, e: nat, current: nat, count: nat, sent: bool, todo: set<Id>) returns (s': State)
    requires Full(s) && e <= current && Is(s, c, current, e, count, sent) && todo <= s.voters && todo <= s.nodes.Keys
    requires Unheard(s, todo, c, e) && forall v :: v in todo ==> HasVote(s, v, c, e)
    ensures Leads(s, s', {c}) && s'.won == s.won && Is(s', c, current, e, count + |todo|, sent)
    decreases |todo|
  {
    if todo == {} {
      s' := s;
      LeadsNowhere(s, {c});
    } else {
      var v :| v in todo;
      var s1 := OneCounted(s, c, v, e, current, count, sent, todo);
      var rest := todo - {v};
      hide Next, Full, HasVote, Unheard, Is;
      forall w | w in rest
        ensures HasVote(s1, w, c, e)
      {
        NetGrows(s, s1, w, c, e);
      }
      hide Leads;
      s' := AllCounted(s1, c, e, current, count + 1, sent, rest);
      LeadsOn(s, s1, s', {c}, {c});
      assert {c} + {c} == {c};
    }
  }

  lemma NetGrows(s: State, s': State, v: Id, c: Id, e: nat)
    requires s.net <= s'.net && HasVote(s, v, c, e)
    ensures HasVote(s', v, c, e)
  {
  }

  lemma OneCounted(s: State, c: Id, v: Id, e: nat, current: nat, count: nat, sent: bool, todo: set<Id>) returns (s': State)
    requires Full(s) && e <= current && Is(s, c, current, e, count, sent) && v in todo && v in s.voters && v in s.nodes
    requires Unheard(s, todo, c, e) && HasVote(s, v, c, e)
    ensures Leads(s, s', {c}) && s.net <= s'.net && Full(s') && s'.nodes.Keys == s.nodes.Keys && s'.voters == s.voters
    ensures s'.won == s.won && Is(s', c, current, e, count + 1, sent)
    ensures Unheard(s', todo - {v}, c, e)
  {
    var ack :| ack in s.net && ack.src == v && ack.dst == c && ack.currentEpoch == e && ack.body == Ack;
    hide Next, Full, OnlyAt, Leads;
    var step;
    s', step := Counts(s, ack);
    LeadsOne(s, step, s', c);
    KeepsNodes(s, s', {c});
  }

  /** c starts an election in epoch e. */
  lemma Elects(s: State, c: Id, m: Id, e: nat, auth: nat, count: nat) returns (s': State)
    requires Full(s) && m in s.nodes && Is(s, c, e, auth, count, false)
    ensures Leads(s, s', {c}) && NoVoteReceived(s, s')
    ensures Is(s', c, e + 1, e + 1, count, true) && forall v :: v in s.nodes ==> HasRequest(s', c, v, e + 1)
  {
    hide Full, OnlyAt, Leads, Next;
    var step;
    s', step := Asks(s, c, m);
    LeadsOne(s, step, s', c);
    KeepsNodes(s, s', {c});
  }

  /** A candidate with a quorum of votes, however it came by them, wins. */
  lemma Triumphs(s: State, c: Id, e: nat, count: nat) returns (s': State)
    requires Full(s) && Is(s, c, e, e, count, true) && count >= Quorum(s)
    ensures Leads(s, s', {c}) && s'.delivered == s.delivered && s'.won == s.won + {(c, e)}
  {
    hide Full, OnlyAt, Leads, Next;
    var step;
    s', step := Wins(s, c);
    LeadsOne(s, step, s', c);
  }

  /** A message without effect on elections but for the current epoch. */
  lemma Receives(s: State, m: Msg) returns (s': State)
    requires Full(s) && m in s.net && {m.src, m.dst} <= s.nodes.Keys && (m.body.Header? || m.body.Request?)
    ensures Leads(s, s', {m.dst}) && NoVoteReceived(s, s')
    ensures var n, n' := s.nodes[m.dst], s'.nodes[m.dst]; n' == n.(currentEpoch := Max(n.currentEpoch, m.currentEpoch), known := n'.known)
  {
    hide OnlyAt, Leads, Next;
    var step;
    s', step := Delivers(s, m);
    LeadsOne(s, step, s', m.dst);
  }

  lemma Delivers(s: State, m: Msg) returns (s': State, step: Step)
    requires Full(s) && m in s.net && {m.src, m.dst} <= s.nodes.Keys && (m.body.Header? || m.body.Request?)
    ensures Next(s, step, s') && OnlyAt(s, s', m.dst) && s'.delivered == s.delivered + {m} && s'.won == s.won
    ensures var n, n' := s.nodes[m.dst], s'.nodes[m.dst]; n' == n.(currentEpoch := Max(n.currentEpoch, m.currentEpoch), known := n'.known)
  {
    step := Deliver(m, false);
    s' := Apply(s, step);
  }

  lemma Greets(s: State, i: Id, j: Id) returns (s': State, m: Msg)
    requires Full(s) && {i, j} <= s.nodes.Keys
    ensures Leads(s, s', {}) && NoVoteReceived(s, s')
    ensures m in s'.net && m.src == i && m.dst == j && m.currentEpoch == s.nodes[i].currentEpoch && m.body == Header
  {
    var step := Send(i, j, i, Header);
    s' := Apply(s, step);
    m := Msg(i, j, s.nodes[i].currentEpoch, s.nodes[i].known[i], Header);
    assert Next(s, step, s');
    hide Next, Reaches;
    Goes(s, step, s');
  }

  lemma StepsDown(s: State, i: Id) returns (s': State)
    requires Full(s) && i in s.nodes && i !in s.voters
    ensures Leads(s, s', {i}) && NoVoteReceived(s, s') && i in s'.nodes && s'.nodes[i] == s.nodes[i].(master := false)
  {
    s' := Apply(s, Demote(i));
    assert Next(s, Demote(i), s');
    hide Next, Leads;
    LeadsOne(s, Demote(i), s', i);
  }

  lemma Restarts(s: State, c: Id, e: nat, auth: nat, count: nat, sent: bool) returns (s': State)
    requires Full(s) && Is(s, c, e, auth, count, sent)
    ensures Leads(s, s', {c}) && NoVoteReceived(s, s') && Is(s', c, e, auth, 0, false)
  {
    hide Full, OnlyAt, Leads, Next;
    var step;
    s', step := Reschedules(s, c);
    LeadsOne(s, step, s', c);
    KeepsNodes(s, s', {c});
  }

  /** A node with the greatest current epoch. */
  lemma {:induction false} Latest(s: State, who: set<Id>) returns (top: Id)
    requires who != {} && who <= s.nodes.Keys
    ensures top in who && forall i :: i in who ==> s.nodes[i].currentEpoch <= s.nodes[top].currentEpoch
    decreases |who|
  {
    top :| top in who;
    if who != {top} {
      var best := Latest(s, who - {top});
      if s.nodes[best].currentEpoch > s.nodes[top].currentEpoch {
        top := best;
      }
    }
  }

  /** The voters vs can vote in epoch e. */
  ghost predicate Open(s: State, vs: set<Id>, e: nat) {
    vs <= s.voters && vs <= s.nodes.Keys && forall v :: v in vs ==> Free(s, v, e)
  }

  lemma Elsewhere(s: State, s': State, who: set<Id>, vs: set<Id>, c: Id, e: nat)
    requires Leads(s, s', who) && c !in who
    ensures forall current, auth, count, sent :: Is(s, c, current, auth, count, sent) ==> Is(s', c, current, auth, count, sent)
    ensures Unheard(s, vs, c, e) ==> Unheard(s', vs, c, e)
    ensures who !! vs && Open(s, vs, e) ==> Open(s', vs, e)
  {
    hide Reaches, Full;
  }

  lemma StillUnheard(s: State, s': State, vs: set<Id>, c: Id, e: nat)
    requires NoVoteReceived(s, s') && Unheard(s, vs, c, e)
    ensures Unheard(s', vs, c, e)
  {
  }

  lemma AskedAll(s: State, vs: set<Id>, c: Id, e: nat)
    requires Open(s, vs, e) && forall v :: v in s.nodes ==> HasRequest(s, c, v, e)
    ensures Asked(s, c, e, vs)
  {
    hide HasRequest, Free;
  }

  lemma RequestsStay(s: State, s': State, who: set<Id>, c: Id, e: nat)
    requires Leads(s, s', who) && forall v :: v in s.nodes ==> HasRequest(s, c, v, e)
    ensures forall v :: v in s'.nodes ==> HasRequest(s', c, v, e)
  {
    hide Reaches, Full;
    forall v | v in s'.nodes
      ensures HasRequest(s', c, v, e)
    {
      var m :| m in s.net && m.src == c && m.dst == v && m.currentEpoch == e && m.body == Request;
      assert m in s'.net;
    }
  }

  /** c asks for votes in epoch e + 1 and the voters vs grant theirs; none has arrived yet. */
  lemma Polls(s: State, vs: set<Id>, c: Id, m: Id, e: nat, auth: nat, count: nat) returns (s': State)
    requires Full(s) && m in s.nodes && Is(s, c, e, auth, count, false) && c !in vs && Open(s, vs, e + 1)
    ensures Leads(s, s', {c} + vs) && NoVoteReceived(s, s') && Is(s', c, e + 1, e + 1, count, true)
    ensures Granted(s', c, e + 1, vs) && forall v :: v in s'.nodes ==> HasRequest(s', c, v, e + 1)
  {
    var s1 := Elects(s, c, m, e, auth, count);
    KeepsNodes(s, s1, {c});
    OpenStays(s, s1, vs, c, e + 1);
    AskedAll(s1, vs, c, e + 1);
    assert c in s1.nodes;
    hide Full, Leads, Is, Open, Asked, Granted, NoVoteReceived, HasRequest;
    s' := AllGrant(s1, c, e + 1, vs);
    Elsewhere(s1, s', vs, vs, c, 0);
    RequestsStay(s1, s', vs, c, e + 1);
    LeadsOn(s, s1, s', {c}, vs);
    NoneReceivedYet(s, s1, s');
  }

  lemma OpenStays(s: State, s': State, vs: set<Id>, c: Id, e: nat)
    requires Leads(s, s', {c}) && c !in vs && Open(s, vs, e)
    ensures Open(s', vs, e)
  {
    hide Reaches, Full;
  }

  lemma Shape(s: State, s': State, who: set<Id>)
    requires Leads(s, s', who)
    ensures Full(s') && s'.nodes.Keys == s.nodes.Keys && s'.voters == s.voters
  {
    hide Reaches, Full;
  }

  lemma OpenShape(s: State, vs: set<Id>, e: nat)
    requires Open(s, vs, e)
    ensures vs <= s.voters && vs <= s.nodes.Keys && (2 * |vs| > |s.voters| ==> |vs| >= Quorum(s))
  {
  }

  /** c asks for votes, the voters vs grant theirs, and c reschedules before they arrive.  The votes still
      count: the epoch recorded is that of the election just abandoned. */
  lemma LateVotes(s: State, vs: set<Id>, c: Id, m: Id, e: nat, auth: nat) returns (s': State)
    requires Full(s) && m in s.nodes && Is(s, c, e, auth, 0, false) && c !in vs && Open(s, vs, e + 1)
    requires Unheard(s, vs, c, e + 1)
    ensures Leads(s, s', {c} + vs) && s'.won == s.won && Is(s', c, e + 1, e + 1, |vs|, false)
    ensures Open(s', vs, e + 2) && forall v :: v in s'.nodes ==> HasRequest(s', c, v, e + 1)
  {
    hide *;
    var who := {c} + vs;
    var s1 := Polls(s, vs, c, m, e, auth, 0);
    Shape(s, s1, who);
    StillUnheard(s, s1, vs, c, e + 1);
    OpenNext(s, s1, who, vs, c, e + 1);
    WonStays(s, s1);
    s' := LateArrivals(s1, vs, c, e + 1);
    LeadsOn(s, s1, s', who, {c});
    assert who + {c} == who;
  }

  /** The second half: c reschedules with all votes still on their way, and then they arrive. */
  lemma LateArrivals(s: State, vs: set<Id>, c: Id, e: nat) returns (s': State)
    requires Full(s) && Is(s, c, e, e, 0, true) && c !in vs && Open(s, vs, e + 1) && Unheard(s, vs, c, e)
    requires Granted(s, c, e, vs) && forall v :: v in s.nodes ==> HasRequest(s, c, v, e)
    ensures Leads(s, s', {c}) && s'.won == s.won && Is(s', c, e, e, |vs|, false)
    ensures Open(s', vs, e + 1) && forall v :: v in s'.nodes ==> HasRequest(s', c, v, e)
  {
    hide *;
    var s1 := Restarts(s, c, e, e, 0, true);
    Shape(s, s1, {c});
    StillUnheard(s, s1, vs, c, e);
    WonStays(s, s1);
    GrantsStay(s, s1, vs, c, e);
    RequestsStay(s, s1, {c}, c, e);
    OpenStays(s, s1, vs, c, e + 1);
    OpenShape(s1, vs, e + 1);
    s' := CountsAll(s1, vs, c, e, false);
    Shape(s1, s', {c});
    RequestsStay(s1, s', {c}, c, e);
    OpenStays(s1, s', vs, c, e + 1);
    LeadsOn(s, s1, s', {c}, {c});
    assert {c} + {c} == {c};
  }

  lemma WonStays(s: State, s': State)
    requires NoVoteReceived(s, s')
    ensures s'.won == s.won
  {
  }

  lemma OpenNext(s: State, s': State, who: set<Id>, vs: set<Id>, c: Id, e: nat)
    requires Leads(s, s', who) && Open(s, vs, e) && Granted(s', c, e, vs)
    ensures Open(s', vs, e + 1)
  {
    hide Reaches, Full, HasVote;
  }

  lemma GrantsStay(s: State, s': State, vs: set<Id>, c: Id, e: nat)
    requires Leads(s, s', {c}) && c !in vs && Granted(s, c, e, vs)
    ensures Granted(s', c, e, vs)
  {
    KeepsNodes(s, s', {c});
    hide Leads, HasVote, Voted;
    forall v | v in vs
      ensures Voted(s', v, e) && HasVote(s', v, c, e)
    {
      VoteStays(s, s', {c}, c, v, e);
    }
  }

  /** The votes of vs arrive, in time or late. */
  lemma CountsAll(s: State, vs: set<Id>, c: Id, e: nat, sent: bool) returns (s': State)
    requires Full(s) && Is(s, c, e, e, 0, sent) && vs <= s.voters && vs <= s.nodes.Keys
    requires Unheard(s, vs, c, e) && Granted(s, c, e, vs)
    ensures Leads(s, s', {c}) && s'.won == s.won && Is(s', c, e, e, |vs|, sent)
  {
    hide Full, Leads, Is, Unheard, HasVote, Voted;
    s' := AllCounted(s, c, e, e, 0, sent, vs);
  }

  /** An election as it should be: the votes of any majority of the voters are enough. */
  lemma WinsInTime(s: State, vs: set<Id>, c: Id, m: Id, e: nat, auth: nat) returns (s': State)
    requires Full(s) && m in s.nodes && Is(s, c, e, auth, 0, false) && c !in vs && 2 * |vs| > |s.voters| && Open(s, vs, e + 1)
    requires Unheard(s, vs, c, e + 1)
    ensures Leads(s, s', {c} + vs) && s'.won == s.won + {(c, e + 1)}
  {
    hide *;
    var who := {c} + vs;
    var s1 := Polls(s, vs, c, m, e, auth, 0);
    Shape(s, s1, who);
    StillUnheard(s, s1, vs, c, e + 1);
    OpenNext(s, s1, who, vs, c, e + 1);
    OpenShape(s1, vs, e + 2);
    WonStays(s, s1);
    var s2 := CountsAll(s1, vs, c, e + 1, true);
    Shape(s1, s2, {c});
    SameQuorum(s1, s2);
    s' := Triumphs(s2, c, e + 1, |vs|);
    LeadsOn(s1, s2, s', {c}, {c});
    LeadsOn(s, s1, s', who, {c} + {c});
    assert who + ({c} + {c}) == who;
  }

  lemma SameQuorum(s: State, s': State)
    requires s'.voters == s.voters
    ensures Quorum(s') == Quorum(s)
  {
  }

  ghost predicate NoVotesYet(s: State) {
    s.won == {} && forall m :: m in s.delivered ==> !m.body.Ack?
  }

  lemma StillNone(s: State, s': State)
    requires NoVotesYet(s) && NoVoteReceived(s, s')
    ensures NoVotesYet(s')
  {
  }

  lemma NoneYet(s: State, vs: set<Id>, c: Id, e: nat)
    requires NoVotesYet(s)
    ensures Unheard(s, vs, c, e) && s.won == {}
  {
  }

  /** The current epochs are at most e, and nobody has voted in a later one. */
  ghost predicate AtMost(s: State, e: nat) {
    forall i :: i in s.nodes ==> s.nodes[i].currentEpoch <= e && s.nodes[i].lastVoteEpoch <= e
  }

  lemma AtMostOpens(s: State, vs: set<Id>, e: nat)
    requires AtMost(s, e) && vs <= s.voters && vs <= s.nodes.Keys
    ensures Open(s, vs, e + 1)
  {
  }

  lemma DownToSlave(s: State, c: Id, e: nat) returns (s': State)
    requires Full(s) && c in s.nodes && c !in s.voters && s.nodes[c].authCount == 0 && !s.nodes[c].authSent && AtMost(s, e) && NoVotesYet(s)
    ensures Leads(s, s', {c}) && AtMost(s', e) && NoVotesYet(s') && c in s'.nodes && s'.nodes[c].currentEpoch == s.nodes[c].currentEpoch
    ensures Is(s', c, s'.nodes[c].currentEpoch, s'.nodes[c].authEpoch, 0, false)
  {
    s' := StepsDown(s, c);
    KeepsNodes(s, s', {c});
    StillNone(s, s');
  }

  /** c learns the greatest current epoch. */
  lemma CatchesUp(s: State, c: Id, top: Id) returns (s': State)
    requires Full(s) && {c, top} <= s.nodes.Keys && AtMost(s, s.nodes[top].currentEpoch) && NoVotesYet(s)
    requires Is(s, c, s.nodes[c].currentEpoch, s.nodes[c].authEpoch, 0, false)
    ensures Leads(s, s', {c}) && AtMost(s', s.nodes[top].currentEpoch) && NoVotesYet(s')
    ensures c in s'.nodes && Is(s', c, s.nodes[top].currentEpoch, s'.nodes[c].authEpoch, 0, false)
  {
    var s1, m := Greets(s, top, c);
    KeepsNodes(s, s1, {});
    s' := Receives(s1, m);
    KeepsNodes(s1, s', {c});
    StillNone(s, s1);
    StillNone(s1, s');
    hide Leads;
    LeadsOn(s, s1, s', {}, {c});
    assert {} + {c} == {c};
  }

  lemma InitialEpochs(s: State, e: nat)
    requires Initial(s) && forall i :: i in s.nodes ==> s.nodes[i].currentEpoch <= e
    ensures AtMost(s, e) && NoVotesYet(s) && forall i :: i in s.nodes ==> s.nodes[i].authCount == 0 && !s.nodes[i].authSent
  {
  }

  /** c and d are slaves that run for nothing yet, c with an epoch e none is above. */
  ghost predicate Prepared(s: State, c: Id, d: Id, e: nat) {
    && Full(s) && {c, d} <= s.nodes.Keys - s.voters && s.voters <= s.nodes.Keys && c != d && AtMost(s, e) && NoVotesYet(s)
    && Is(s, c, e, s.nodes[c].authEpoch, 0, false)
    && Is(s, d, s.nodes[d].currentEpoch, s.nodes[d].authEpoch, 0, false)
  }

  lemma Prepares(s: State, c: Id, d: Id) returns (s': State, e: nat)
    requires Initial(s) && Full(s) && s.voters <= s.nodes.Keys && {c, d} <= s.nodes.Keys - s.voters && c != d
    ensures Leads(s, s', {c, d}) && Prepared(s', c, d, e)
  {
    hide Full, Leads, Is, AtMost, NoVotesYet, NodeBound;
    var top := Latest(s, s.nodes.Keys);
    e := s.nodes[top].currentEpoch;
    InitialEpochs(s, e);
    hide Initial;
    var s1 := DownToSlave(s, d, e);
    KeepsNodes(s, s1, {d});
    var s2 := DownToSlave(s1, c, e);
    KeepsNodes(s1, s2, {c});
    s' := CatchesUp(s2, c, top);
    KeepsNodes(s2, s', {c});
    Elsewhere(s1, s2, {c}, s.voters, d, 0);
    Elsewhere(s2, s', {c}, s.voters, d, 0);
    LeadsOn(s, s1, s2, {d}, {c});
    LeadsOn(s, s2, s', {d} + {c}, {c});
    assert {d} + {c} + {c} == {c, d};
  }

  lemma HearsOf(s: State, c: Id, d: Id, e: nat, current: nat, auth: nat) returns (s': State)
    requires Full(s) && HasRequest(s, c, d, e) && c in s.nodes && Is(s, d, current, auth, 0, false) && current <= e
    ensures Leads(s, s', {d}) && NoVoteReceived(s, s') && Is(s', d, e, auth, 0, false)
  {
    var rq :| rq in s.net && rq.src == c && rq.dst == d && rq.currentEpoch == e && rq.body == Request;
    hide Full, Leads, NoVoteReceived;
    s' := Receives(s, rq);
    Shape(s, s', {d});
  }

  /** d hears of the election of c, and then wins the next epoch properly. */
  lemma OtherWins(s: State, vs: set<Id>, c: Id, d: Id, m: Id, e: nat, current: nat, auth: nat) returns (s': State)
    requires Full(s) && m in s.nodes && HasRequest(s, c, d, e) && c in s.nodes
    requires Is(s, d, current, auth, 0, false) && current <= e && d !in vs && 2 * |vs| > |s.voters|
    requires Open(s, vs, e + 1) && Unheard(s, vs, d, e + 1) && s.won == {}
    ensures Leads(s, s', {d} + vs) && s'.won == {(d, e + 1)}
  {
    hide *;
    var s1 := HearsOf(s, c, d, e, current, auth);
    Shape(s, s1, {d});
    OpenStays(s, s1, vs, d, e + 1);
    StillUnheard(s, s1, vs, d, e + 1);
    WonStays(s, s1);
    s' := WinsInTime(s1, vs, d, m, e, auth);
    LeadsOn(s, s1, s', {d}, {d} + vs);
    assert {d} + ({d} + vs) == {d} + vs;
  }

  /** c runs with the votes it has, and wins. */
  lemma WinsWithLateVotes(s: State, c: Id, m: Id, e: nat, auth: nat, count: nat) returns (s': State)
    requires Full(s) && m in s.nodes && Is(s, c, e, auth, count, false) && count >= Quorum(s)
    ensures Leads(s, s', {c}) && s'.won == s.won + {(c, e + 1)}
  {
    hide *;
    var s1 := Elects(s, c, m, e, auth, count);
    Shape(s, s1, {c});
    SameQuorum(s, s1);
    WonStays(s, s1);
    s' := Triumphs(s1, c, e + 1, count);
    LeadsOn(s, s1, s', {c}, {c});
    assert {c} + {c} == {c};
  }

  /** Both candidates win epoch e + 2 once c has all votes of epoch e + 1 late. */
  lemma BothWin(s: State, c: Id, d: Id, m: Id, e: nat) returns (s': State)
    requires Prepared(s, c, d, e) && m in s.voters
    ensures Reaches(s, s') && {(c, e + 2), (d, e + 2)} <= s'.won
  {
    var auth, current, auth' := s.nodes[c].authEpoch, s.nodes[d].currentEpoch, s.nodes[d].authEpoch;
    assert current <= e;
    var vs := s.voters;
    var who := {c} + vs;
    AtMostOpens(s, vs, e);
    NoneYet(s, vs, c, e + 1);
    NoneYet(s, vs, d, e + 2);
    hide *;
    var s1 := LateVotes(s, vs, c, m, e, auth);
    Shape(s, s1, who);
    Elsewhere(s, s1, who, vs, d, e + 2);
    var s2 := OtherWins(s1, vs, c, d, m, e + 1, current, auth');
    Shape(s1, s2, {d} + vs);
    Elsewhere(s1, s2, {d} + vs, vs, c, 0);
    OpenShape(s1, vs, e + 2);
    SameQuorum(s1, s2);
    s' := WinsWithLateVotes(s2, c, m, e + 1, e + 1, |vs|);
    LeadsOn(s, s1, s2, who, {d} + vs);
    LeadsOn(s, s2, s', who + ({d} + vs), {c});
    LeadsReaches(s, s', who + ({d} + vs) + {c});
  }

  lemma LeadsReaches(s: State, s': State, who: set<Id>)
    requires Leads(s, s', who)
    ensures Reaches(s, s')
  {
  }

  /** Without the condition that votes arrive in time, any two nodes that are not voters can win the same
      epoch: all voters vote late for c in one epoch, then in time for d in the next, in which c wins with
      the votes it was given before. */
  lemma LateVotesElectTwo(s: State, c: Id, d: Id) returns (run: seq<State>, steps: seq<Step>, e: nat)
    requires Initial(s) && Full(s) && s.voters != {} && s.voters <= s.nodes.Keys
    requires {c, d} <= s.nodes.Keys - s.voters && c != d
    ensures IsRun(run, steps) && run[0] == s && {(c, e), (d, e)} <= run[|run| - 1].won
  {
    hide Enabled, Apply, Full;
    var s1, e1 := Prepares(s, c, d);
    LeadsReaches(s, s1, {c, d});
    var m :| m in s.voters;
    Shape(s, s1, {c, d});
    var s2 := BothWin(s1, c, d, m, e1);
    Through(s, s1, s2);
    e := e1 + 2;
    run, steps :| IsPath(run, steps) && run[0] == s && run[|run| - 1] == s2;
  }

  /** A master that serves slots and two slaves. */
  ghost function ThreeNodes(): State {
    var n := Node(0, 0, 0, 0, false, true, map[0 := 0, 1 := 0, 2 := 0]);
    State(map[0 := n, 1 := n.(master := false), 2 := n.(master := false)], {0}, {}, {}, {})
  }

  lemma ThreeNodesReady()
    ensures var s := ThreeNodes(); Initial(s) && Full(s) && s.voters == {0} && s.nodes.Keys == {0, 1, 2}
  {
  }

  lemma TwoWinnersOfThree() returns (run: seq<State>, steps: seq<Step>, e: nat)
    ensures IsRun(run, steps) && run[0] == ThreeNodes() && {(1, e), (2, e)} <= run[|run| - 1].won
  {
    hide *;
    ThreeNodesReady();
    run, steps, e := LateVotesElectTwo(ThreeNodes(), 1, 2);
    RunHasStates(run, steps);
  }

  lemma RunHasStates(run: seq<State>, steps: seq<Step>)
    requires IsRun(run, steps)
    ensures |run| > 0
  {
  }

  // ------------------------------------------------------------ exactly when elections are safe

  ghost predicate OneWinner(s: State) {
    forall a, b, e :: (a, e) in s.won && (b, e) in s.won ==> a == b
  }

  /** Voters stay masters, and masters do not run for election. */
  ghost predicate SlavesWin(s: State) {
    && (forall v :: v in s.voters && v in s.nodes ==> s.nodes[v].master)
    && (forall c, e :: (c, e) in s.won ==> c in s.nodes && c !in s.voters)
  }

  lemma StepSlavesWin(s: State, step: Step)
    requires SlavesWin(s) && Enabled(s, step)
    ensures var s' := Apply(s, step); SlavesWin(s') && s'.nodes.Keys == s.nodes.Keys && s'.voters == s.voters
  {
    if step.Deliver? {
      ProcessFrame(s, step.m, step.willing);
      assert s.nodes[step.m.dst].master ==> Process(s, step.m, step.willing).nodes[step.m.dst].master;
      hide Process;
    }
  }

  lemma {:induction false} OnlySlavesWin(run: seq<State>, steps: seq<Step>, k: nat)
    requires IsRun(run, steps) && k < |run|
    ensures SlavesWin(run[k]) && run[k].nodes.Keys == run[0].nodes.Keys && run[k].voters == run[0].voters
  {
    if k > 0 {
      OnlySlavesWin(run, steps, k - 1);
      StepSlavesWin(run[k - 1], steps[k - 1]);
    }
  }

  lemma OneOfAtMostOne(who: set<Id>, a: Id, b: Id)
    requires |who| <= 1 && a in who && b in who
    ensures a == b
  {
    if a != b {
      Subset({a, b}, who);
    }
  }

  lemma OneSlaveOneWinner(s: State, s': State)
    requires Initial(s) && Reaches(s, s') && |s.nodes.Keys - s.voters| <= 1
    ensures OneWinner(s')
  {
    hide Initial, Enabled, Apply;
    var run, steps :| IsPath(run, steps) && run[0] == s && run[|run| - 1] == s';
    OnlySlavesWin(run, steps, |run| - 1);
    forall a, b, e | (a, e) in s'.won && (b, e) in s'.won
      ensures a == b
    {
      OneOfAtMostOne(s.nodes.Keys - s.voters, a, b);
    }
  }

  lemma TwoOf(who: set<Id>) returns (a: Id, b: Id)
    requires |who| > 1
    ensures a in who && b in who && a != b
  {
    a :| a in who;
    var rest := who - {a};
    assert |rest| == |who| - 1;
    b :| b in rest;
  }

  /** Whatever the order and delay of messages there is at most one winner per epoch, exactly in clusters
      with at most one node that is not a voter. */
  lemma SafeExactly(s: State)
    requires Initial(s) && Full(s) && s.voters != {} && s.voters <= s.nodes.Keys
    ensures |s.nodes.Keys - s.voters| <= 1 <==> forall s' :: Reaches(s, s') ==> OneWinner(s')
  {
    hide Reaches, Full, Initial;
    if |s.nodes.Keys - s.voters| <= 1 {
      forall s' | Reaches(s, s')
        ensures OneWinner(s')
      {
        OneSlaveOneWinner(s, s');
      }
    } else {
      var c, d := TwoOf(s.nodes.Keys - s.voters);
      var run, steps, e := LateVotesElectTwo(s, c, d);
      var s' := run[|run| - 1];
      RunReaches(run, steps);
      assert (c, e) in s'.won && (d, e) in s'.won;
    }
  }

  lemma RunReaches(run: seq<State>, steps: seq<Step>)
    requires IsRun(run, steps)
    ensures Reaches(run[0], run[|run| - 1])
  {
    hide Enabled, Apply;
  }
}
