/** The hand-over from the old append only file to the rewritten one (aof.c), as a state machine of the
    server, the child that writes the snapshot, and the three pipes between them. */
module AofHandoff {
  import opened Collections
  import opened AofBuffer

  type Bytes = seq<Byte>

  datatype Mode = Off | Wait | On                                  // aof_state

  /** The child dumps the snapshot, asks the server to stop, reads the rest of the pipe once it was told
      that the server did, writes its file and exits. */
  datatype Child = Dumping | Asked | Told | Drained | Exited(ok: bool) | Gone

  /** `fed` is everything the commands executed since the fork appended, `snapshot` what the child dumps. */
  datatype State = State(
    snapshot: Bytes,
    fed: Bytes,
    mode: Mode,
    file: Bytes,       // the append only file in use
    aofBuf: Bytes,     // commands not yet written to it
    buf: Bytes,        // the rewrite buffer
    pipe: Bytes,       // sent to the child and not yet read
    stop: bool,        // aof_stop_sending_diff
    ask: bool,         // a '!' on its way to the server
    ack: bool,         // a '!' on its way to the child
    child: Child,
    diff: Bytes,       // aof_child_diff
    tmp: Bytes,        // the file the child leaves
    unread: Bytes,     // what the last read of the child left in the pipe
    switched: bool,
    upTo: nat)         // |fed| when the files were switched

  datatype Step =
    | Feed(cmd: Bytes)          // feedAppendOnlyFile
    | Flush(n: nat)             // flushAppendOnlyFile writes some of aof_buf
    | Send(n: nat)              // aofChildWriteDiffData
    | Read(n: nat)              // aofReadDiffFromParent, from time to time
    | Ask                       // the child writes '!'
    | Agree(delivered: bool)    // aofChildPipeReadable; its own '!' may get lost
    | Notice                    // the child reads '!'
    | FinalRead(n: nat, failed: bool)   // aofReadDiffFromParent, for the last time; it stops early only if read fails
    | Finish                    // the child appends the diff to its file and exits with success
    | Abort                     // the child fails or is killed, for instance after a timeout
    | Reap(written: bool)       // backgroundRewriteDoneHandler; `written`: open, append and rename worked

  ghost predicate Enabled(s: State, step: Step) {
    match step
    case Feed(_) => true
    case Flush(n) => s.mode == On && n <= |s.aofBuf|
    case Send(n) => !s.child.Gone? && !s.stop && n <= |s.buf|
    case Read(n) => s.child.Dumping? && n <= |s.pipe|
    case Ask => s.child.Dumping?
    case Agree(_) => s.ask
    case Notice => s.child.Asked? && s.ack
    case FinalRead(n, failed) => s.child.Told? && n <= |s.pipe| && (!failed ==> n == |s.pipe|)
    case Finish => s.child.Drained?
    case Abort => s.child.Dumping? || s.child.Asked? || s.child.Told? || s.child.Drained?
    case Reap(_) => s.child.Exited?
  }

  ghost function Apply(s: State, step: Step): State
    requires Enabled(s, step)
  {
    match step
    case Feed(cmd) =>
      s.(fed := s.fed + cmd,
         aofBuf := if s.mode == On then s.aofBuf + cmd else s.aofBuf,
         buf := if s.child.Gone? then s.buf else s.buf + cmd)
    case Flush(n) => s.(file := s.file + s.aofBuf[..n], aofBuf := s.aofBuf[n..])
    case Send(n) => s.(pipe := s.pipe + s.buf[..n], buf := s.buf[n..])
    case Read(n) => s.(diff := s.diff + s.pipe[..n], pipe := s.pipe[n..])
    case Ask => s.(child := Asked, ask := true)
    case Agree(delivered) => s.(ask := false, stop := true, ack := delivered)
    case Notice => s.(child := Told, ack := false)
    case FinalRead(n, _) => s.(child := Drained, diff := s.diff + s.pipe[..n], pipe := s.pipe[n..], unread := s.pipe[n..])
    case Finish => s.(child := Exited(true), tmp := s.snapshot + s.diff)
    case Abort => s.(child := Exited(false))
    case Reap(written) =>
      if s.child.ok && written then
        s.(child := Gone, buf := [], file := s.tmp + s.buf, aofBuf := [], switched := true, upTo := |s.fed|,
           mode := if s.mode == Wait then On else s.mode)
      else s.(child := Gone, buf := [])
  }

  /** Just after the fork; aof_buf is in use only while the log is on. */
  ghost predicate Initial(s: State) {
    && s.fed == [] && s.buf == [] && s.pipe == [] && s.diff == [] && !s.stop && !s.ask && !s.ack
    && s.child == Dumping && !s.switched && (s.mode != On ==> s.aofBuf == [])
  }

  ghost predicate IsRun(run: seq<State>, steps: seq<Step>) {
    && |run| == |steps| + 1 && Initial(run[0])
    && forall k :: 0 <= k < |steps| ==> Enabled(run[k], steps[k]) && run[k + 1] == Apply(run[k], steps[k])
  }

  /** The child has seen the answer of the server, which sends nothing any more. */
  predicate Silent(c: Child) { c.Told? || c.Drained? || c == Exited(true) }

  /** While the child lives, no byte is lost, repeated or out of order. */
  ghost predicate InTransit(s: State) {
    && (!s.child.Gone? ==> s.fed == s.diff + s.pipe + s.buf && !s.switched)
    && ((s.ack || Silent(s.child)) ==> s.stop)
    && (s.child.Drained? || s.child == Exited(true) ==> s.pipe == s.unread)
    && (s.child == Exited(true) ==> s.tmp == s.snapshot + s.diff)
    && (s.mode != On ==> s.aofBuf == [])
    && (s.child.Gone? ==> s.buf == [])
  }

  /** Until the switch the old log is complete. */
  ghost predicate OldLog(s: State, base: Bytes) {
    !s.switched && s.mode == On ==> s.file + s.aofBuf == base + s.fed
  }

  /** `log` holds the snapshot and the bytes of `fed` up to `end`, but for those left unread. */
  ghost predicate Logged(snapshot: Bytes, diff: Bytes, unread: Bytes, fed: Bytes, log: Bytes, upTo: nat, end: nat) {
    && |diff| + |unread| <= upTo <= end <= |fed|
    && fed[..|diff|] == diff && fed[|diff|..|diff| + |unread|] == unread
    && log == snapshot + diff + fed[|diff| + |unread|..end]
  }

  /** What the new log holds after the switch. */
  ghost predicate NewLog(s: State) {
    s.switched ==>
      Logged(s.snapshot, s.diff, s.unread, s.fed, s.file + s.aofBuf, s.upTo, if s.mode == On then |s.fed| else s.upTo)
  }

  /** Moving n bytes from one place to the next keeps the whole. */
  lemma Moves(a: Bytes, b: Bytes, n: nat)
    requires n <= |b|
    ensures (a + b[..n]) + b[n..] == a + b
  {
  }

  lemma StepInTransit(s: State, step: Step)
    requires Enabled(s, step) && InTransit(s)
    ensures InTransit(Apply(s, step))
  {
    match step
    case Feed(cmd) => Assoc(s.diff + s.pipe, s.buf, cmd);
    case Send(n) =>
      Moves(s.diff + s.pipe, s.buf, n);
      Assoc(s.diff, s.pipe, s.buf[..n]);
    case Read(n) => Moves(s.diff, s.pipe, n);
    case FinalRead(n, _) => Moves(s.diff, s.pipe, n);
    case _ =>
  }

  lemma StepOldLog(s: State, step: Step, base: Bytes)
    requires Enabled(s, step) && InTransit(s) && OldLog(s, base)
    ensures OldLog(Apply(s, step), base)
  {
    match step
    case Feed(cmd) =>
      Assoc(s.file, s.aofBuf, cmd);
      Assoc(base, s.fed, cmd);
    case Flush(n) => Moves(s.file, s.aofBuf, n);
    case _ =>
  }

  lemma SwitchNewLog(s: State)
    requires InTransit(s) && s.child == Exited(true)
    ensures NewLog(Apply(s, Reap(true)))
  {
  }

  lemma LoggedMore(snapshot: Bytes, diff: Bytes, unread: Bytes, fed: Bytes, log: Bytes, upTo: nat, end: nat, cmd: Bytes)
    requires Logged(snapshot, diff, unread, fed, log, upTo, end)
    ensures Logged(snapshot, diff, unread, fed + cmd, log, upTo, end)
    ensures end == |fed| ==> Logged(snapshot, diff, unread, fed + cmd, log + cmd, upTo, |fed + cmd|)
  {
  }

  lemma FeedNewLog(s: State, cmd: Bytes)
    requires NewLog(s) && s.switched
    ensures NewLog(Apply(s, Feed(cmd)))
  {
    hide Logged;
    Assoc(s.file, s.aofBuf, cmd);
    LoggedMore(s.snapshot, s.diff, s.unread, s.fed, s.file + s.aofBuf, s.upTo, if s.mode == On then |s.fed| else s.upTo, cmd);
  }

  lemma FlushNewLog(s: State, n: nat)
    requires NewLog(s) && n <= |s.aofBuf| && s.mode == On
    ensures NewLog(Apply(s, Flush(n)))
  {
    hide Logged;
    Moves(s.file, s.aofBuf, n);
  }

  /** Everything else is over before the switch, or leaves the log alone. */
  lemma OtherSteps(s: State, step: Step)
    requires Enabled(s, step) && InTransit(s) && !step.Feed? && !step.Flush? && !(step == Reap(true) && s.child.ok)
    ensures var s' := Apply(s, step);
      && s'.switched == s.switched
      && (s.switched ==>
            && s'.snapshot == s.snapshot && s'.diff == s.diff && s'.unread == s.unread && s'.fed == s.fed
            && s'.file == s.file && s'.aofBuf == s.aofBuf && s'.upTo == s.upTo && s'.mode == s.mode)
  {
  }

  lemma StepNewLog(s: State, step: Step)
    requires Enabled(s, step) && InTransit(s) && NewLog(s)
    ensures NewLog(Apply(s, step))
  {
    hide Logged, InTransit;
    if step.Feed? {
      if s.switched {
        FeedNewLog(s, step.cmd);
      }
    } else if step.Flush? {
      FlushNewLog(s, step.n);
    } else if step == Reap(true) && s.child.ok {
      SwitchNewLog(s);
    } else {
      hide Apply;
      OtherSteps(s, step);
    }
  }

  lemma {:induction false} RunsKeep(run: seq<State>, steps: seq<Step>, k: nat)
    requires IsRun(run, steps) && k < |run|
    ensures InTransit(run[k]) && OldLog(run[k], run[0].file + run[0].aofBuf) && NewLog(run[k])
    ensures run[k].snapshot == run[0].snapshot
  {
    var base := run[0].file + run[0].aofBuf;
    if k == 0 {
      Starts(run[0]);
    } else {
      hide InTransit, OldLog, NewLog, Apply, Enabled, Initial;
      RunsKeep(run, steps, k - 1);
      var s, step := run[k - 1], steps[k - 1];
      StepInTransit(s, step);
      StepOldLog(s, step, base);
      StepNewLog(s, step);
      SameSnapshot(s, step);
    }
  }

  lemma Starts(s: State)
    requires Initial(s)
    ensures InTransit(s) && OldLog(s, s.file + s.aofBuf) && NewLog(s)
  {
  }

  lemma SameSnapshot(s: State, step: Step)
    requires Enabled(s, step)
    ensures Apply(s, step).snapshot == s.snapshot
  {
  }

  ghost predicate Past(c: Child) { c.Drained? || c.Exited? || c.Gone? }

  lemma PastStep(s: State, step: Step)
    requires Enabled(s, step) && Past(s.child)
    ensures var s' := Apply(s, step); Past(s'.child) && s'.diff == s.diff && s'.unread == s.unread
  {
  }

  /** There is one last read, and what it took and left stays. */
  lemma {:induction false} AfterLastRead(run: seq<State>, steps: seq<Step>, j: nat, k: nat)
    requires IsRun(run, steps) && j < k < |run| && steps[j].FinalRead?
    ensures Past(run[k].child) && run[k].diff == run[j + 1].diff && run[k].unread == run[j].pipe[steps[j].n..]
  {
    assert Enabled(run[j], steps[j]) && run[j + 1] == Apply(run[j], steps[j]);
    if j + 1 < k {
      AfterLastRead(run, steps, j, k - 1);
      hide Apply, Enabled, Past;
      PastStep(run[k - 1], steps[k - 1]);
    }
  }

  /** Files are switched only after the last read. */
  ghost predicate Ready(s: State) { s.child.Drained? || s.child == Exited(true) || s.switched }

  lemma ReadyStep(s: State, step: Step)
    requires Enabled(s, step) && Ready(Apply(s, step))
    ensures Ready(s) || step.FinalRead?
  {
  }

  lemma {:induction false} ReadyAfterLastRead(run: seq<State>, steps: seq<Step>, k: nat) returns (j: nat)
    requires IsRun(run, steps) && k < |run| && Ready(run[k])
    ensures j < k && steps[j].FinalRead?
  {
    assert k > 0;
    assert Enabled(run[k - 1], steps[k - 1]) && run[k] == Apply(run[k - 1], steps[k - 1]);
    ReadyStep(run[k - 1], steps[k - 1]);
    if steps[k - 1].FinalRead? {
      j := k - 1;
    } else {
      j := ReadyAfterLastRead(run, steps, k - 1);
    }
  }

  lemma ModeStep(s: State, step: Step)
    requires Enabled(s, step) && InTransit(s)
    ensures var s' := Apply(s, step);
      && (s.switched ==> s'.switched && s'.mode == s.mode && s'.upTo == s.upTo && s.fed <= s'.fed)
      && (!s.switched && s'.switched ==> s'.mode == (if s.mode == Wait then On else s.mode) && s'.upTo == |s'.fed|)
      && (!s'.switched ==> s'.mode == s.mode)
  {
  }

  /** The log is on after the switch unless it was off at the fork; nothing else changes the mode. */
  lemma {:induction false} SwitchTurnsOn(run: seq<State>, steps: seq<Step>, k: nat)
    requires IsRun(run, steps) && k < |run|
    ensures run[k].switched && run[0].mode != Off ==> run[k].mode == On
    ensures !run[k].switched || run[0].mode == Off ==> run[k].mode == run[0].mode
  {
    if k > 0 {
      SwitchTurnsOn(run, steps, k - 1);
      RunsKeep(run, steps, k - 1);
      hide Apply, Enabled, InTransit, OldLog, NewLog;
      assert Enabled(run[k - 1], steps[k - 1]) && run[k] == Apply(run[k - 1], steps[k - 1]);
      ModeStep(run[k - 1], steps[k - 1]);
    }
  }

  /** `upTo` marks what had been fed when the files were switched. */
  lemma {:induction false} SwitchedAt(run: seq<State>, steps: seq<Step>, k: nat) returns (j: nat)
    requires IsRun(run, steps) && k < |run| && run[k].switched
    ensures j < k && !run[j].switched && run[j + 1].switched && run[k].upTo <= |run[k].fed| && run[j + 1].fed == run[k].fed[..run[k].upTo]
  {
    hide Apply, Enabled, InTransit, OldLog, NewLog;
    assert k > 0;
    RunsKeep(run, steps, k - 1);
    ModeStep(run[k - 1], steps[k - 1]);
    if run[k - 1].switched {
      j := SwitchedAt(run, steps, k - 1);
    } else {
      j := k - 1;
      assert run[k].fed == run[k].fed[..run[k].upTo];
    }
  }

  /** The log in use is the snapshot and all commands since the fork; for a log that was off at the fork,
      all commands up to the switch. */
  ghost predicate Complete(s: State, wasOff: bool) {
    && (!wasOff ==> s.file + s.aofBuf == s.snapshot + s.fed)
    && (wasOff ==> s.upTo <= |s.fed| && s.file + s.aofBuf == s.snapshot + s.fed[..s.upTo])
  }

  /** The new log is complete exactly if the last read took everything there was in the pipe.  It leaves
      bytes there only if read(2) fails although there are some. */
  lemma LosesWhatTheLastReadLeft(run: seq<State>, steps: seq<Step>, k: nat, j: nat)
    requires IsRun(run, steps) && k < |run| && run[k].switched && j < k && steps[j].FinalRead?
    ensures Complete(run[k], run[0].mode == Off) <==> steps[j].n == |run[j].pipe|
    ensures steps[j].n <= |run[j].pipe| && (!steps[j].failed ==> steps[j].n == |run[j].pipe|)
  {
    AfterLastRead(run, steps, j, k);
    RunsKeep(run, steps, k);
    SwitchTurnsOn(run, steps, k);
    assert Enabled(run[j], steps[j]);
    var s := run[k];
    Exact(s, if s.mode == On then |s.fed| else s.upTo);
  }

  lemma Exact(s: State, end: nat)
    requires |s.diff| + |s.unread| <= end <= |s.fed|
    requires s.fed[..|s.diff|] == s.diff && s.fed[|s.diff|..|s.diff| + |s.unread|] == s.unread
    ensures s.snapshot + s.diff + s.fed[|s.diff| + |s.unread|..end] == s.snapshot + s.fed[..end] <==> s.unread == []
    ensures s.fed[..|s.fed|] == s.fed
  {
  }

  ghost predicate LastReadWorks(steps: seq<Step>, k: nat)
    requires k <= |steps|
  {
    forall j :: 0 <= j < k && steps[j].FinalRead? ==> !steps[j].failed
  }

  /** Unless the last read of the child fails: until the rewritten file takes over, the log is the old one
      with every command since the fork; from then on it is the snapshot with every command since the
      fork.  Only a log that was off at the fork, and so logs nothing, has those up to the switch. */
  lemma NothingLostOrRepeated(run: seq<State>, steps: seq<Step>, k: nat)
    requires IsRun(run, steps) && k < |run| && LastReadWorks(steps, k)
    ensures var s := run[k];
      && (!s.switched && run[0].mode == On ==> s.file + s.aofBuf == run[0].file + run[0].aofBuf + s.fed)
      && (s.switched && run[0].mode != Off ==> s.mode == On && s.file + s.aofBuf == run[0].snapshot + s.fed)
      && (s.switched && run[0].mode == Off ==> s.upTo <= |s.fed| && s.file + s.aofBuf == run[0].snapshot + s.fed[..s.upTo])
  {
    RunsKeep(run, steps, k);
    SwitchTurnsOn(run, steps, k);
    if run[k].switched {
      var j := ReadyAfterLastRead(run, steps, k);
      hide IsRun;
      LosesWhatTheLastReadLeft(run, steps, k, j);
    }
  }

  /** A whole flush leaves nothing in memory: the file alone then holds everything. */
  lemma FlushedIsDurable(run: seq<State>, steps: seq<Step>, k: nat)
    requires IsRun(run, steps) && k < |steps| && LastReadWorks(steps, k)
    requires steps[k] == Flush(|run[k].aofBuf|)
    ensures run[k + 1].fed == run[k].fed
    ensures run[k + 1].file == (if run[k].switched then run[0].snapshot else run[0].file + run[0].aofBuf) + run[k].fed
  {
    assert Enabled(run[k], steps[k]) && run[k + 1] == Apply(run[k], steps[k]);
    SwitchTurnsOn(run, steps, k);
    hide IsRun;
    NothingLostOrRepeated(run, steps, k);
    assert run[k].aofBuf[..|run[k].aofBuf|] == run[k].aofBuf;
  }

  /** A child can fail until it has finished.  When it has, or when its file cannot be put in place, the old
      log stays in use as it was, and the rewrite buffer is released. */
  lemma FailedRewriteChangesNothing(run: seq<State>, steps: seq<Step>, k: nat, written: bool)
    requires IsRun(run, steps) && k < |run| && !run[k].child.Gone? && (run[k].child == Exited(true) ==> !written)
    ensures !run[k].switched
    ensures var s := if run[k].child.Exited? then run[k] else Apply(run[k], Abort);
      Enabled(s, Reap(written)) && Apply(s, Reap(written)) == run[k].(child := Gone, buf := [])
  {
    RunsKeep(run, steps, k);
  }

  ghost predicate Next(s: State, step: Step, s': State) { Enabled(s, step) && s' == Apply(s, step) }

  lemma SentAndTold(s: State, cmd: Bytes) returns (s1: State, s2: State, s3: State, s4: State, s5: State)
    requires Initial(s)
    ensures Next(s, Feed(cmd), s1) && Next(s1, Send(|cmd|), s2)
    ensures Next(s2, Ask, s3) && Next(s3, Agree(true), s4) && Next(s4, Notice, s5)
    ensures s5.child == Told && s5.pipe == cmd
  {
    s1 := Apply(s, Feed(cmd));
    assert s1.buf == cmd;
    s2 := Apply(s1, Send(|cmd|));
    s3 := Apply(s2, Ask);
    s4 := Apply(s3, Agree(true));
    s5 := Apply(s4, Notice);
  }

  lemma ReadAndSwitch(s: State, n: nat, failed: bool) returns (s1: State, s2: State, s3: State)
    requires s.child == Told && Enabled(s, FinalRead(n, failed))
    ensures Next(s, FinalRead(n, failed), s1) && Next(s1, Finish, s2) && Next(s2, Reap(true), s3)
    ensures s3.switched && s3.upTo == |s3.fed|
  {
    s1 := Apply(s, FinalRead(n, failed));
    s2 := Apply(s1, Finish);
    s3 := Apply(s2, Reap(true));
  }

  /** From every state after a fork, and for every command, there is a rewrite whose last read takes n bytes. */
  lemma Rewrites(s: State, cmd: Bytes, n: nat) returns (run: seq<State>, steps: seq<Step>)
    requires Initial(s) && n <= |cmd|
    ensures IsRun(run, steps) && run[0] == s && run[|steps|].switched && run[|steps|].fed == cmd
    ensures |steps| == 8 && steps[5] == FinalRead(n, n < |cmd|) && run[5].pipe == cmd && run[8].upTo == |cmd|
    ensures forall k :: 0 <= k < 8 && k != 5 ==> !steps[k].FinalRead?
  {
    hide Apply, Enabled, Initial;
    var s1, s2, s3, s4, s5 := SentAndTold(s, cmd);
    CanRead(s5, n, n < |cmd|);
    var s6, s7, s8 := ReadAndSwitch(s5, n, n < |cmd|);
    run := [s, s1, s2, s3, s4, s5, s6, s7, s8];
    steps := [Feed(cmd), Send(|cmd|), Ask, Agree(true), Notice, FinalRead(n, n < |cmd|), Finish, Reap(true)];
    FedOnce(run, steps, cmd);
  }

  lemma CanRead(s: State, n: nat, failed: bool)
    requires s.child == Told && n <= |s.pipe| && (!failed ==> n == |s.pipe|)
    ensures Enabled(s, FinalRead(n, failed))
  {
  }

  lemma SameFed(s: State, step: Step)
    requires Enabled(s, step) && !step.Feed?
    ensures Apply(s, step).fed == s.fed
  {
  }

  lemma FedOnce(run: seq<State>, steps: seq<Step>, cmd: Bytes)
    requires IsRun(run, steps) && |steps| == 8 && steps[0] == Feed(cmd) && forall k :: 1 <= k < 8 ==> !steps[k].Feed?
    ensures run[8].fed == cmd
  {
    assert Enabled(run[0], steps[0]) && run[1] == Apply(run[0], steps[0]);
    hide Apply, Enabled;
    for k := 1 to 8
      invariant run[k].fed == cmd
    {
      SameFed(run[k], steps[k]);
    }
  }

  /** A failed last read does lose commands: from every state after a fork, whatever the command. */
  lemma FailedReadLoses(s: State, cmd: Bytes) returns (run: seq<State>, steps: seq<Step>)
    requires Initial(s) && cmd != []
    ensures IsRun(run, steps) && run[0] == s && run[|steps|].switched && !Complete(run[|steps|], s.mode == Off)
  {
    hide Apply, Enabled, Initial, Complete;
    run, steps := Rewrites(s, cmd, 0);
    LosesWhatTheLastReadLeft(run, steps, 8, 5);
  }

  /** And there is a rewrite that ends with the whole log, which is on unless it was off before. */
  lemma RewriteSucceeds(s: State, cmd: Bytes) returns (run: seq<State>, steps: seq<Step>)
    requires Initial(s)
    ensures IsRun(run, steps) && run[0] == s && var s' := run[|steps|];
      s'.switched && s'.file + s'.aofBuf == s.snapshot + cmd && s'.mode == if s.mode == Off then Off else On
  {
    hide Apply, Enabled, Initial, Complete;
    run, steps := Rewrites(s, cmd, |cmd|);
    SwitchTurnsOn(run, steps, 8);
    NothingLostOrRepeated(run, steps, 8);
    assert cmd[..|cmd|] == cmd;
  }

  /** Once the child has seen the answer, nothing is written to the pipe any more. */
  lemma SilentAfterAck(run: seq<State>, steps: seq<Step>, k: nat)
    requires IsRun(run, steps) && k < |steps| && Silent(run[k].child)
    ensures !steps[k].Send? && |run[k + 1].pipe| <= |run[k].pipe|
  {
    RunsKeep(run, steps, k);
  }

  /** What aofReadDiffFromParent does to a pipe is a last read, and a failed one only if read(2) failed. */
  method ReadForTheLastTime(s: State, answer: nat -> int) returns (step: Step)
    requires s.child.Told?
    ensures Enabled(s, step) && step.FinalRead?
    ensures step.failed ==> exists k :: answer(k) <= 0
    ensures Apply(s, step).diff + Apply(s, step).pipe == s.diff + s.pipe
  {
    var got, rest := ReadDiff(s.pipe, answer);
    Moves(s.diff, s.pipe, |got|);
    step := FinalRead(|got|, rest != []);
  }
}
