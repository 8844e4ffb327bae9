// What pipewrite and piperead put into the pipe, take from it and return, in
// every run of the machine of PipeProtocol.
module PipeCalls {
  import opened Bytes
  import opened PipeRing
  import opened PipeProtocol

  // ---------- the process that holds the pipe ----------

  // A call that stops copying: it has all it asked for, or the pipe is empty;
  // with nothing got, no write end is left.
  predicate Stopped(s: State, n: nat, got: seq<Byte>) {
    (|got| == n || |s.written| == |s.read|) && (got == [] && n > 0 ==> |s.written| == |s.read| && !s.writeopen)
  }

  // What a pipewrite of buf may return after i bytes: the whole length, or -1
  // with the pipe full, if no read end is left or the process is killed.
  predicate WriteRet(s: State, killed: bool, buf: seq<Byte>, i: nat, ret: int) {
    || (ret == |buf| && i == |buf|)
    || (ret == -1 && i < |buf| && |s.written| == |s.read| + PIPESIZE && (!s.readopen || killed))
  }

  // What a piperead of n may return: the number of bytes, or -1 with the pipe
  // empty, a write end left and the process killed.
  predicate ReadRet(s: State, killed: bool, n: nat, got: seq<Byte>, ret: int) {
    || (ret == |got| && Stopped(s, n, got))
    || (ret == -1 && got == [] && |s.written| == |s.read| && s.writeopen && killed)
  }

  predicate AreLast(got: seq<Byte>, read: seq<Byte>) {
    |got| <= |read| && got == read[|read| - |got|..]
  }

  lemma LastMore(got: seq<Byte>, read: seq<Byte>, b: Byte)
    requires AreLast(got, read)
    ensures AreLast(got + [b], read + [b])
  {
  }

  // x holds the pipe: a reader's bytes are the last that were read.
  predicate Honest(s: State, x: Proc)
    requires x.Run?
  {
    match x.op
    case Writer(buf, i, _) => (
      match x.at
      case Wake(last) => last ==> i == |buf|
      case Waking(last) => last ==> i == |buf|
      case Leave(ret) => WriteRet(s, x.killed, buf, i, ret)
      case _ => true)
    case Reader(n, got) =>
      && AreLast(got, s.read)
      && (match x.at
          case Copy => got == [] ==> |s.written| > |s.read| || !s.writeopen
          case Wake(_) => Stopped(s, n, got)
          case Waking(_) => Stopped(s, n, got)
          case Leave(ret) => ReadRet(s, x.killed, n, got, ret)
          case _ => true)
    case Closer(writable) =>
      x.at.Wake? || x.at.Waking? || x.at.Leave? ==> if writable then !s.writeopen else !s.readopen
  }

  ghost predicate Faithful(s: State) {
    forall p | 0 <= p < |s.procs| && HoldsPipe(s.procs[p]) :: Honest(s, s.procs[p])
  }

  // ---------- what a step leaves alone ----------

  ghost predicate OneMoves(s: State, s': State, p: nat) {
    p < |s.procs| == |s'.procs| && s'.procs == s.procs[p := s'.procs[p]]
  }

  lemma WriterMoves(s: State, p: nat)
    requires p < |s.procs| && s.procs[p].Run? && s.ring.Valid() && s.procs[p].op.Writer?
    ensures OneMoves(s, TestStep(s, p), p)
  {
    hide ReaderWaits, Ring.Full, Ring.Empty, Ring.Put;
  }

  lemma TestMoves(s: State, p: nat)
    requires p < |s.procs| && s.procs[p].Run? && s.ring.Valid()
    ensures OneMoves(s, TestStep(s, p), p)
  {
    if s.procs[p].op.Writer? {
      WriterMoves(s, p);
      hide TestStep;
    } else {
      hide ReaderWaits, Ring.Full, Ring.Empty, Ring.Put;
    }
  }

  lemma CopyMoves(s: State, p: nat)
    requires p < |s.procs| && s.procs[p].Run? && s.procs[p].op.Reader? && s.ring.Valid()
    ensures OneMoves(s, CopyStep(s, p), p)
  {
    hide Ring.Full, Ring.Empty, Ring.Drop;
  }

  ghost predicate SamePipe(s: State, s': State) {
    s'.written == s.written && s'.read == s.read && s'.readopen == s.readopen && s'.writeopen == s.writeopen
  }

  predicate Copying(s: State, e: Event) {
    e.Step? && e.p < |s.procs| && s.procs[e.p].Run? && (s.procs[e.p].at.Test? || s.procs[e.p].at.Copy?)
  }

  predicate Rousing(s: State, e: Event) {
    e.Step? && e.p < |s.procs| && s.procs[e.p].Run? && s.procs[e.p].at.Waking?
  }

  // Only the loop tests and the copy loop touch the pipe.
  lemma PlainStep(s: State, e: Event)
    requires Enabled(s, e) && !Copying(s, e) && !Rousing(s, e)
    ensures OneMoves(s, Do(s, e), e.p) && SamePipe(s, Do(s, e))
  {
    if e.Step? {
      StageStep(s, e.p);
      hide Do;
    } else {
      hide TestStep, CopyStep, WakeAll, Ring.Full, Ring.Empty;
    }
  }

  function NextStage(at: Stage): Stage {
    match at
    case Enter => Test
    case Wake(last) => Waking(last)
    case Fall => Swap
    case Swap => Doze
    case Doze => Asleep
    case Ready => Tidy
    case _ => Enter
  }

  lemma StageStep(s: State, p: nat)
    requires Enabled(s, Step(p)) && !Copying(s, Step(p)) && !Rousing(s, Step(p))
    ensures OneMoves(s, Do(s, Step(p)), p) && SamePipe(s, Do(s, Step(p)))
    ensures var x := s.procs[p]; Do(s, Step(p)).procs[p] == if x.at.Leave? then Idle else x.(at := NextStage(x.at))
  {
    hide TestStep, CopyStep, WakeAll, Ring.Full, Ring.Empty, At;
    forall at { AtMoves(s, p, at); }
  }

  lemma AtMoves(s: State, p: nat, at: Stage)
    requires p < |s.procs| && s.procs[p].Run?
    ensures OneMoves(s, At(s, p, at), p) && SamePipe(s, At(s, p, at))
    ensures At(s, p, at).procs[p] == s.procs[p].(at := at)
  {
  }

  lemma RousingStep(s: State, e: Event)
    requires Enabled(s, e) && Rousing(s, e)
    ensures SamePipe(s, Do(s, e)) && |Do(s, e).procs| == |s.procs|
    ensures forall p | 0 <= p < |s.procs| && p != e.p ::
      Do(s, e).procs[p] == Roused(s.procs[p], WakesReaders(s.procs[e.p].op))
  {
    hide TestStep, CopyStep, Roused;
  }

  lemma CopyingStep(s: State, e: Event)
    requires Enabled(s, e) && Copying(s, e) && Sane(s.procs[e.p])
    ensures OneMoves(s, Do(s, e), e.p)
    ensures Do(s, e) == if s.procs[e.p].at.Test? then TestStep(s, e.p) else CopyStep(s, e.p)
  {
    if s.procs[e.p].at.Test? { TestMoves(s, e.p); } else { CopyMoves(s, e.p); }
    hide TestStep, CopyStep;
  }

  lemma SameCount(s: State, e: Event)
    requires Enabled(s, e) && Sane(s.procs[e.p])
    ensures |Do(s, e).procs| == |s.procs|
  {
    hide Do, Sane;
    if Copying(s, e) { CopyingStep(s, e); } else if Rousing(s, e) { RousingStep(s, e); } else { PlainStep(s, e); }
  }

  // A process that does not move finds the pipe as it was if it holds it.
  lemma StandsStill(s: State, e: Event, p: nat, s': State)
    requires Locks(s) && Enabled(s, e) && s' == Do(s, e) && p < |s.procs| == |s'.procs| && e.p != p
    requires Sane(s.procs[e.p]) && (HoldsPipe(s'.procs[p]) || HoldsPipe(s.procs[p]))
    ensures s'.procs[p] == s.procs[p] && SamePipe(s, s')
  {
    hide Enabled, Do, Sane;
    if Copying(s, e) { CopyingStep(s, e); } else if Rousing(s, e) { RousingStep(s, e); } else { PlainStep(s, e); }
    assert s'.procs[p] == s.procs[p];
    assert HoldsPipe(s.procs[p]) && !Copying(s, e);
  }

  // ---------- the holder itself moves ----------

  lemma WriterTestHonest(s: State, p: nat, s': State)
    requires p < |s.procs| == |s'.procs| && s.procs[p].Run? && s.procs[p].op.Writer?
    requires s.procs[p].op.i <= |s.procs[p].op.buf|
    requires Carries(s.ring, s.written, s.read) && s' == TestStep(s, p)
    ensures s'.procs[p].Run? && Honest(s', s'.procs[p])
  {
    TestsRight(s.ring, s.written, s.read);
    CarriesLength(s.ring, s.written, s.read);
    hide Carries, ReaderWaits, Ring.Full, Ring.Put;
  }

  lemma ReaderTestHonest(s: State, p: nat, s': State)
    requires p < |s.procs| == |s'.procs| && s.procs[p].Run? && s.procs[p].op.Reader? && s.procs[p].op.got == []
    requires Carries(s.ring, s.written, s.read) && s' == TestStep(s, p)
    ensures s'.procs[p].Run? && Honest(s', s'.procs[p])
  {
    TestsRight(s.ring, s.written, s.read);
    CarriesLength(s.ring, s.written, s.read);
    hide Carries, Ring.Empty;
  }

  lemma TestHonest(s: State, p: nat, s': State)
    requires p < |s.procs| == |s'.procs| && s.procs[p].Run? && s.procs[p].at.Test? && Sane(s.procs[p])
    requires Carries(s.ring, s.written, s.read) && s' == TestStep(s, p)
    ensures s'.procs[p].Run? && Honest(s', s'.procs[p])
  {
    if s.procs[p].op.Writer? {
      WriterTestHonest(s, p, s');
    } else if s.procs[p].op.Reader? {
      ReaderTestHonest(s, p, s');
    }
    hide Carries, Ring.Full, Ring.Empty;
  }

  lemma CopyHonest(s: State, p: nat, s': State)
    requires p < |s.procs| == |s'.procs| && s.procs[p].Run? && s.procs[p].at.Copy? && Sane(s.procs[p])
    requires Carries(s.ring, s.written, s.read) && s' == CopyStep(s, p) && Honest(s, s.procs[p])
    ensures s'.procs[p].Run? && Honest(s', s'.procs[p])
  {
    TestsRight(s.ring, s.written, s.read);
    CarriesLength(s.ring, s.written, s.read);
    LastMore(s.procs[p].op.got, s.read, s.ring.Front());
    hide Carries, Ring.Empty, Ring.Drop, Ring.Front, Sane, AreLast;
  }

  // Locks, wakeups and sleep.
  ghost predicate Passes(x: Proc, x': Proc)
    requires x.Run? && x'.Run?
  {
    && x'.killed == x.killed
    && x'.op == (if x.op.Writer? then x.op.(news := x'.op.Writer? && x'.op.news) else x.op)
    && match x.at
       case Enter => x'.at == Test
       case Wake(last) => x'.at == Waking(last)
       case Waking(last) => x'.at == if last then Leave(Result(x.op)) else Fall
       case Fall => x'.at == Swap
       case _ => !HoldsPipe(x')
  }

  lemma StepPasses(s: State, p: nat, s': State)
    requires Enabled(s, Step(p)) && s' == Do(s, Step(p)) && |s'.procs| == |s.procs|
    requires !Copying(s, Step(p)) && HoldsPipe(s'.procs[p])
    ensures Passes(s.procs[p], s'.procs[p])
  {
    if Rousing(s, Step(p)) {
      RousingPasses(s, p, s');
    } else {
      StageStep(s, p);
      hide Do;
    }
  }

  lemma RousingPasses(s: State, p: nat, s': State)
    requires Enabled(s, Step(p)) && s' == Do(s, Step(p)) && |s'.procs| == |s.procs| && Rousing(s, Step(p))
    ensures s'.procs[p].Run? && Passes(s.procs[p], s'.procs[p])
  {
    hide TestStep, CopyStep;
  }

  lemma PassesHonest(s: State, x: Proc, s': State, x': Proc)
    requires x.Run? && x'.Run? && Passes(x, x') && HoldsPipe(x') && Sane(x) && SamePipe(s, s')
    requires if HoldsPipe(x) then Honest(s, x) else x.op.Reader? ==> x.op.got == []
    ensures Honest(s', x')
  {
  }

  lemma OtherHonest(s: State, p: nat, s': State)
    requires Enabled(s, Step(p)) && s' == Do(s, Step(p)) && |s'.procs| == |s.procs|
    requires !Copying(s, Step(p)) && Sane(s.procs[p]) && HoldsPipe(s'.procs[p])
    requires HoldsPipe(s.procs[p]) ==> Honest(s, s.procs[p])
    ensures Honest(s', s'.procs[p])
  {
    StepPasses(s, p, s');
    hide Do;
    if Rousing(s, Step(p)) { RousingStep(s, Step(p)); } else { PlainStep(s, Step(p)); }
    assert !HoldsPipe(s.procs[p]) ==> s.procs[p].op.Reader? ==> s.procs[p].op.got == [];
    hide Honest, Passes, SamePipe, Enabled;
    PassesHonest(s, s.procs[p], s', s'.procs[p]);
  }

  // A call or a kill by process p itself.
  lemma CalledHonest(s: State, e: Event, s': State)
    requires Enabled(s, e) && !e.Step? && s' == Do(s, e) && |s'.procs| == |s.procs|
    requires HoldsPipe(s.procs[e.p]) ==> Honest(s, s.procs[e.p])
    ensures HoldsPipe(s'.procs[e.p]) ==> Honest(s', s'.procs[e.p])
  {
    hide Ring.Full, Ring.Empty;
  }

  lemma HonestFrame(s: State, s': State, x: Proc)
    requires x.Run? && Honest(s, x) && SamePipe(s, s')
    ensures Honest(s', x)
  {
  }

  lemma HolderHonest(s: State, e: Event, p: nat, s': State)
    requires Inv(s) && Faithful(s) && Enabled(s, e) && s' == Do(s, e) && p < |s'.procs| == |s.procs|
    requires HoldsPipe(s'.procs[p])
    ensures Honest(s', s'.procs[p])
  {
    assert Sane(s.procs[p]);
    hide Carries, Locks, SleepInv, Blocked, Do, Honest, SamePipe, Sane;
    if p != e.p {
      StandsStill(s, e, p, s');
      HonestFrame(s, s', s.procs[p]);
    } else if !e.Step? {
      CalledHonest(s, e, s');
    } else if Copying(s, e) {
      CopyingStep(s, e);
      if s.procs[p].at.Test? { TestHonest(s, p, s'); } else { CopyHonest(s, p, s'); }
    } else {
      OtherHonest(s, p, s');
    }
  }

  lemma FaithfulNext(s: State, e: Event)
    requires Inv(s) && Faithful(s) && Enabled(s, e)
    ensures Faithful(Do(s, e))
  {
    assert Sane(s.procs[e.p]);
    SameCount(s, e);
    hide Inv, Enabled, Do, Honest;
    forall p | 0 <= p < |s.procs| && HoldsPipe(Do(s, e).procs[p])
      ensures Honest(Do(s, e), Do(s, e).procs[p])
    {
      HolderHonest(s, e, p, Do(s, e));
    }
  }

  lemma {:induction false} RunFaithful(n: nat, es: seq<Event>, ss: seq<State>, i: nat)
    requires IsRun(n, es, ss) && i < |ss|
    ensures Faithful(ss[i])
  {
    hide Inv, Enabled, Do, Honest;
    if i > 0 {
      RunFaithful(n, es, ss, i - 1);
      RunKeeps(n, es, ss, i - 1);
      var e := es[i - 1];
      FaithfulNext(ss[i - 1], e);
    }
  }

  // ---------- what readers get ----------

  predicate Reading(x: Proc) { x.Run? && x.op.Reader? && HoldsPipe(x) }

  // The bytes that a returning piperead hands to its caller.
  function Handed(s: State, e: Event): seq<Byte> {
    if e.Step? && e.p < |s.procs| && Reading(s.procs[e.p]) && s.procs[e.p].at.Leave? then s.procs[e.p].op.got else []
  }

  // All pipereads up to moment i, in the order in which they return.
  function Delivered(es: seq<Event>, ss: seq<State>, i: nat): seq<Byte>
    requires i <= |es| < |ss|
  {
    if i == 0 then [] else Delivered(es, ss, i - 1) + Handed(ss[i - 1], es[i - 1])
  }

  // The bytes read are those delivered and those that the reader which holds the
  // pipe, if there is one, is about to deliver.
  ghost predicate InHand(s: State, d: seq<Byte>) {
    && (forall p | 0 <= p < |s.procs| && Reading(s.procs[p]) :: s.read == d + s.procs[p].op.got)
    && ((forall p | 0 <= p < |s.procs| :: !Reading(s.procs[p])) ==> s.read == d)
  }

  // What a step of a call does to the histories: a writer adds bytes of its
  // buffer, a reader gets what it takes.
  ghost predicate Moved(s: State, s': State, op: Op, op': Op) {
    match op
    case Writer(buf, i, _) =>
      && op'.Writer? && op'.buf == buf && i <= op'.i <= |buf|
      && s'.written == s.written + buf[i..op'.i] && s'.read == s.read
    case Reader(n, got) =>
      && op'.Reader? && op'.n == n && got <= op'.got
      && s'.written == s.written && s'.read == s.read + op'.got[|got|..]
    case Closer(_) => op' == op && s'.written == s.written && s'.read == s.read
  }

  lemma WriterMoved(s: State, p: nat, s': State)
    requires p < |s.procs| == |s'.procs| && s.procs[p].Run? && s.ring.Valid() && s' == TestStep(s, p)
    requires s.procs[p].op.Writer? && s.procs[p].op.i <= |s.procs[p].op.buf|
    ensures s'.procs[p].Run? && s'.read == s.read
    ensures var op, op' := s.procs[p].op, s'.procs[p].op;
      && op'.Writer? && op'.buf == op.buf
      && ((op'.i == op.i && s'.written == s.written)
          || (op'.i == op.i + 1 <= |op.buf| && s'.written == s.written + [op.buf[op.i]]))
  {
    hide ReaderWaits, Ring.Full, Ring.Empty, Ring.Put;
  }

  lemma PutMoved(s: State, s': State, op: Op, op': Op)
    requires op.Writer? && op'.Writer? && op'.buf == op.buf && op.i <= |op.buf| && s'.read == s.read
    requires
      || (op'.i == op.i && s'.written == s.written)
      || (op'.i == op.i + 1 <= |op.buf| && s'.written == s.written + [op.buf[op.i]])
    ensures Moved(s, s', op, op')
  {
  }

  lemma OtherMoved(s: State, p: nat, s': State)
    requires p < |s.procs| == |s'.procs| && s.procs[p].Run? && s.ring.Valid() && s' == TestStep(s, p)
    requires !s.procs[p].op.Writer?
    ensures s'.procs[p].Run? && s'.procs[p].op == s.procs[p].op && s'.written == s.written && s'.read == s.read
  {
    hide ReaderWaits, Ring.Full, Ring.Empty, Ring.Put;
  }

  lemma TestMoved(s: State, p: nat, s': State)
    requires p < |s.procs| == |s'.procs| && s.procs[p].Run? && s.ring.Valid() && s' == TestStep(s, p)
    requires s.procs[p].op.Writer? ==> s.procs[p].op.i <= |s.procs[p].op.buf|
    ensures s'.procs[p].Run? && Moved(s, s', s.procs[p].op, s'.procs[p].op)
  {
    hide TestStep;
    if s.procs[p].op.Writer? {
      WriterMoved(s, p, s');
      hide Moved;
      PutMoved(s, s', s.procs[p].op, s'.procs[p].op);
    } else {
      OtherMoved(s, p, s');
      hide Moved;
      SameMoved(s, s', s.procs[p].op, s'.procs[p].op);
    }
  }

  lemma CopyMoved(s: State, p: nat, s': State)
    requires p < |s.procs| == |s'.procs| && s.procs[p].Run? && s.procs[p].op.Reader? && s.ring.Valid()
    requires s' == CopyStep(s, p)
    ensures s'.procs[p].Run? && Moved(s, s', s.procs[p].op, s'.procs[p].op)
  {
    hide Ring.Full, Ring.Empty, Ring.Drop, Ring.Front;
  }

  lemma SameMoved(s: State, s': State, op: Op, op': Op)
    requires s'.written == s.written && s'.read == s.read && (op' == op || (op.Writer? && op'.Writer? && op' == op.(news := op'.news)))
    requires op.Writer? ==> op.i <= |op.buf|
    ensures Moved(s, s', op, op')
  {
  }

  lemma RousingOp(s: State, p: nat, s': State)
    requires Enabled(s, Step(p)) && s' == Do(s, Step(p)) && |s'.procs| == |s.procs| && Rousing(s, Step(p))
    ensures s'.procs[p].Run?
    ensures var op, op' := s.procs[p].op, s'.procs[p].op;
      op' == op || (op.Writer? && op'.Writer? && op' == op.(news := op'.news))
  {
    hide TestStep, CopyStep;
  }

  lemma StepMoved(s: State, p: nat, s': State)
    requires Enabled(s, Step(p)) && s' == Do(s, Step(p)) && |s'.procs| == |s.procs| && Sane(s.procs[p])
    ensures s'.procs[p].Run? <==> !s.procs[p].at.Leave?
    ensures if s'.procs[p].Run? then Moved(s, s', s.procs[p].op, s'.procs[p].op) else SamePipe(s, s')
  {
    assert s.procs[p].op.Writer? ==> s.procs[p].op.i <= |s.procs[p].op.buf|;
    assert s.procs[p].at.Copy? ==> s.procs[p].op.Reader?;
    if Copying(s, Step(p)) {
      CopyingStep(s, Step(p));
      hide Do, Sane, Moved;
      if s.procs[p].at.Test? { TestMoved(s, p, s'); } else { CopyMoved(s, p, s'); }
    } else if Rousing(s, Step(p)) {
      RousingStep(s, Step(p));
      RousingOp(s, p, s');
      hide Do, Sane, Moved;
      SameMoved(s, s', s.procs[p].op, s'.procs[p].op);
    } else {
      StageStep(s, p);
      hide Do, Sane, Moved;
      if s'.procs[p].Run? { SameMoved(s, s', s.procs[p].op, s'.procs[p].op); }
    }
  }

  // ---------- deliveries ----------

  // While no other process reads before or after.
  lemma OnlyReader(s: State, e: Event, s': State)
    requires Inv(s) && Enabled(s, e) && s' == Do(s, e) && |s'.procs| == |s.procs|
    requires HoldsPipe(s.procs[e.p]) || HoldsPipe(s'.procs[e.p])
    ensures forall q | 0 <= q < |s.procs| && q != e.p :: !Reading(s.procs[q]) && !Reading(s'.procs[q])
  {
    EventKeeps(s, e);
    assert Locks(s) && Locks(s') && Sane(s.procs[e.p]);
    hide Inv, Do, HoldsPipe, Enabled;
    forall q | 0 <= q < |s.procs| && q != e.p
      ensures !Reading(s.procs[q]) && !Reading(s'.procs[q])
    {
      if HoldsPipe(s.procs[q]) || HoldsPipe(s'.procs[q]) { StandsStill(s, e, q, s'); }
    }
  }

  // Process p, the only one that can hold the pipe, moves.
  lemma HandStep(s: State, p: nat, d: seq<Byte>, s': State)
    requires p < |s.procs| == |s'.procs| && s.procs[p].Run? && Sane(s.procs[p]) && InHand(s, d)
    requires s'.procs[p].Run? <==> !s.procs[p].at.Leave?
    requires if s'.procs[p].Run? then Moved(s, s', s.procs[p].op, s'.procs[p].op) else SamePipe(s, s')
    requires forall q | 0 <= q < |s.procs| && q != p :: !Reading(s.procs[q]) && !Reading(s'.procs[q])
    requires s'.procs[p].Run? ==> Sane(s'.procs[p])
    ensures InHand(s', d + Handed(s, Step(p)))
  {
    var x, x' := s.procs[p], s'.procs[p];
    assert !Reading(x) ==> s.read == d;
    assert x.Run? && x.op.Reader? && !HoldsPipe(x) ==> x.op.got == [];
    assert x'.Run? && x'.op.Reader? && !HoldsPipe(x') ==> x'.op.got == [];
    hide Sane, HoldsPipe;
  }

  // Others go on while nobody reads, or the reader stands still.
  lemma HandFrame(s: State, d: seq<Byte>, s': State)
    requires InHand(s, d) && |s.procs| == |s'.procs| && s'.read == s.read
    requires forall q | 0 <= q < |s.procs| && (Reading(s.procs[q]) || Reading(s'.procs[q])) ::
      Reading(s.procs[q]) && Reading(s'.procs[q]) && s'.procs[q].op == s.procs[q].op
    ensures InHand(s', d)
  {
  }

  lemma CallSame(s: State, e: Event, s': State)
    requires Enabled(s, e) && !e.Step? && s' == Do(s, e) && |s'.procs| == |s.procs|
    ensures !Reading(s.procs[e.p]) ==> !Reading(s'.procs[e.p])
    ensures Reading(s.procs[e.p]) ==> Reading(s'.procs[e.p]) && s'.procs[e.p].op == s.procs[e.p].op
  {
    hide Ring.Full, Ring.Empty;
  }

  lemma HandNext(s: State, e: Event, d: seq<Byte>, s': State)
    requires Inv(s) && Enabled(s, e) && s' == Do(s, e) && |s'.procs| == |s.procs| && InHand(s, d)
    ensures InHand(s', d + Handed(s, e))
  {
    EventKeeps(s, e);
    assert Locks(s) && Sane(s.procs[e.p]) && Sane(s'.procs[e.p]);
    if e.Step? && (HoldsPipe(s.procs[e.p]) || HoldsPipe(s'.procs[e.p])) {
      OnlyReader(s, e, s');
      hide Inv, Do, Sane, HoldsPipe, InHand, Reading, Moved;
      StepMoved(s, e.p, s');
      HandStep(s, e.p, d, s');
    } else {
      assert !Copying(s, e) && Handed(s, e) == [] && d + [] == d;
      hide Inv, Do, Sane, InHand;
      if Rousing(s, e) { RousingStep(s, e); } else { PlainStep(s, e); }
      if !e.Step? { CallSame(s, e, s'); }
      hide HoldsPipe, Enabled;
      forall q | 0 <= q < |s.procs| && q != e.p && (Reading(s.procs[q]) || Reading(s'.procs[q]))
        ensures s'.procs[q] == s.procs[q]
      {
        StandsStill(s, e, q, s');
      }
      HandFrame(s, d, s');
    }
  }

  lemma StartInHand(n: nat)
    ensures InHand(Init(n), [])
  {
  }

  // At every moment of every run, what has been read is what returning pipereads
  // have delivered, one after the other, and what the reader that holds the pipe
  // will deliver.
  lemma {:induction false} DeliveredInOrder(n: nat, es: seq<Event>, ss: seq<State>, i: nat)
    requires IsRun(n, es, ss) && i <= |es|
    ensures InHand(ss[i], Delivered(es, ss, i))
  {
    hide Inv, Enabled, Do, InHand, Init, Handed;
    if i == 0 {
      StartInHand(n);
    } else {
      var e := es[i - 1];
      DeliveredInOrder(n, es, ss, i - 1);
      RunKeeps(n, es, ss, i - 1);
      assert Sane(ss[i - 1].procs[e.p]) by { SaneAt(ss[i - 1], e); }
      SameCount(ss[i - 1], e);
      HandNext(ss[i - 1], e, Delivered(es, ss, i - 1), ss[i]);
    }
  }

  lemma SaneAt(s: State, e: Event)
    requires Inv(s) && Enabled(s, e)
    ensures e.p < |s.procs| && Sane(s.procs[e.p])
  {
  }

  // ---------- one call ----------

  // Event j is the last call of process p before moment i.
  ghost predicate CalledAt(es: seq<Event>, p: nat, j: nat, i: nat) {
    j < i <= |es| && es[j].Call? && es[j].p == p && forall k {:trigger es[k]} | j < k < i :: !(es[k].Call? && es[k].p == p)
  }

  function Gain(a: seq<Byte>, b: seq<Byte>): seq<Byte> { if |a| <= |b| then b[|a|..] else [] }

  // What the steps of process p put into the pipe from event j to moment i.
  function Added(es: seq<Event>, ss: seq<State>, p: nat, j: nat, i: nat): seq<Byte>
    requires i <= |es| < |ss|
  {
    if i <= j then []
    else Added(es, ss, p, j, i - 1) + if es[i - 1] == Step(p) then Gain(ss[i - 1].written, ss[i].written) else []
  }

  // What they take out.
  function Removed(es: seq<Event>, ss: seq<State>, p: nat, j: nat, i: nat): seq<Byte>
    requires i <= |es| < |ss|
  {
    if i <= j then []
    else Removed(es, ss, p, j, i - 1) + if es[i - 1] == Step(p) then Gain(ss[i - 1].read, ss[i].read) else []
  }

  // The state of a call of op: a writer has added the first i bytes of the
  // caller's buffer, a reader has got what it removed.
  ghost predicate Serves(op: Op, op': Op, added: seq<Byte>, removed: seq<Byte>) {
    match op
    case Writer(buf, _, _) =>
      op'.Writer? && op'.buf == buf && op'.i <= |buf| && added == buf[..op'.i] && removed == []
    case Reader(n, _) => op'.Reader? && op'.n == n && removed == op'.got && added == []
    case Closer(_) => op' == op && added == [] && removed == []
  }

  lemma ServesNext(op: Op, s: State, s': State, op1: Op, op2: Op, added: seq<Byte>, removed: seq<Byte>)
    requires Serves(op, op1, added, removed) && Moved(s, s', op1, op2)
    ensures Serves(op, op2, added + Gain(s.written, s'.written), removed + Gain(s.read, s'.read))
  {
  }

  lemma FirstServes(s: State, e: Event, s': State)
    requires Enabled(s, e) && e.Call? && s' == Do(s, e) && |s'.procs| == |s.procs|
    ensures s'.procs[e.p].Run? && Serves(e.op, s'.procs[e.p].op, [], [])
  {
  }

  // A process that goes on with its call.
  lemma SameCall(s: State, e: Event, p: nat, s': State)
    requires Enabled(s, e) && s' == Do(s, e) && p < |s'.procs| == |s.procs| && Sane(s.procs[e.p])
    requires e != Step(p) && !(e.Call? && e.p == p) && s'.procs[p].Run?
    ensures s.procs[p].Run? && s'.procs[p].op == s.procs[p].op
  {
    hide Do, Sane;
    if e.p == p {
      KilledOp(s, e, s');
    } else if Copying(s, e) {
      CopyingStep(s, e);
    } else if Rousing(s, e) {
      RousingStep(s, e);
    } else {
      PlainStep(s, e);
    }
  }

  lemma KilledOp(s: State, e: Event, s': State)
    requires Enabled(s, e) && e.Kill? && s' == Do(s, e) && |s'.procs| == |s.procs|
    ensures s.procs[e.p].Run? && s'.procs[e.p].Run? && s'.procs[e.p].op == s.procs[e.p].op
  {
  }

  // In every run, every process in a call: the call it is in, and what its steps
  // have put into the pipe and taken from it since.
  lemma {:induction false} Served(n: nat, es: seq<Event>, ss: seq<State>, i: nat, p: nat) returns (j: nat)
    requires IsRun(n, es, ss) && i <= |es| && p < |ss[i].procs| && ss[i].procs[p].Run?
    ensures CalledAt(es, p, j, i)
    ensures Serves(es[j].op, ss[i].procs[p].op, Added(es, ss, p, j + 1, i), Removed(es, ss, p, j + 1, i))
  {
    hide Inv, Do, Serves, Moved;
    assert i > 0;
    var e := es[i - 1];
    var s, s' := ss[i - 1], ss[i];
    RunKeeps(n, es, ss, i - 1);
    SaneAt(s, e);
    SameCount(s, e);
    if e.Call? && e.p == p {
      j := i - 1;
      FirstServes(s, e, s');
    } else if e == Step(p) {
      StepMoved(s, p, s');
      j := Served(n, es, ss, i - 1, p);
      ServesNext(es[j].op, s, s', s.procs[p].op, s'.procs[p].op, Added(es, ss, p, j + 1, i - 1),
                 Removed(es, ss, p, j + 1, i - 1));
    } else {
      SameCall(s, e, p, s');
      j := Served(n, es, ss, i - 1, p);
      assert Added(es, ss, p, j + 1, i) == Added(es, ss, p, j + 1, i - 1);
      assert Removed(es, ss, p, j + 1, i) == Removed(es, ss, p, j + 1, i - 1);
    }
  }

  // What a call returns, at every return of every run. A pipewrite returns the
  // length of its buffer, all of which is in the pipe's history, or -1 with the
  // pipe full, after a proper prefix of it, if the read end is closed or the
  // process killed. A piperead returns the number of bytes it took, which are the
  // last of the history of reads, when it has all it asked for or the pipe is
  // empty, and none only if the write end is closed; or -1 having taken none, if
  // the pipe is empty, its write end open and the process killed. A pipeclose has
  // closed its end.
  lemma Returned(n: nat, es: seq<Event>, ss: seq<State>, i: nat, p: nat) returns (j: nat)
    requires IsRun(n, es, ss) && i <= |es| && p < |ss[i].procs| && ss[i].procs[p].Run? && ss[i].procs[p].at.Leave?
    ensures CalledAt(es, p, j, i)
    ensures var s, x := ss[i], ss[i].procs[p];
      var added, removed := Added(es, ss, p, j + 1, i), Removed(es, ss, p, j + 1, i);
      match es[j].op
      case Writer(buf, _, _) =>
        || (x.at.ret == |buf| && added == buf)
        || (x.at.ret == -1 && added < buf && |s.written| == |s.read| + PIPESIZE && (!s.readopen || x.killed))
      case Reader(n, _) =>
        && AreLast(removed, s.read) && |removed| <= n
        && (|| (x.at.ret == |removed| && Stopped(s, n, removed))
            || (x.at.ret == -1 && removed == [] && |s.written| == |s.read| && s.writeopen && x.killed))
      case Closer(writable) => added == [] && removed == [] && if writable then !s.writeopen else !s.readopen
  {
    j := Served(n, es, ss, i, p);
    RunFaithful(n, es, ss, i);
    RunKeeps(n, es, ss, i);
    hide Added, Removed, Do, Enabled;
    assert Honest(ss[i], ss[i].procs[p]) && Sane(ss[i].procs[p]);
    hide Inv;
  }

  // ---------- the ends ----------

  // A step of pipeclose that clears writeopen or readopen.
  ghost predicate Closes(s: State, e: Event, writable: bool) {
    e.Step? && e.p < |s.procs| && s.procs[e.p].Run? && s.procs[e.p].at.Test? && s.procs[e.p].op == Closer(writable)
  }

  lemma TestEnds(s: State, p: nat)
    requires p < |s.procs| && s.procs[p].Run? && s.ring.Valid() && s.procs[p].at.Test?
    ensures TestStep(s, p).writeopen == (s.writeopen && !Closes(s, Step(p), true))
    ensures TestStep(s, p).readopen == (s.readopen && !Closes(s, Step(p), false))
  {
    hide ReaderWaits, Ring.Full, Ring.Empty, Ring.Put;
  }

  lemma EndsNext(s: State, e: Event)
    requires Enabled(s, e) && Sane(s.procs[e.p])
    ensures Do(s, e).writeopen == (s.writeopen && !Closes(s, e, true))
    ensures Do(s, e).readopen == (s.readopen && !Closes(s, e, false))
  {
    if Copying(s, e) {
      CopyingStep(s, e);
      hide Do, Sane, TestStep, CopyStep;
      if s.procs[e.p].at.Test? { TestEnds(s, e.p); } else { CopyEnds(s, e.p); }
    } else {
      hide Do, Sane;
      if Rousing(s, e) { RousingStep(s, e); } else { PlainStep(s, e); }
    }
  }

  lemma CopyEnds(s: State, p: nat)
    requires p < |s.procs| && s.procs[p].Run? && s.procs[p].op.Reader? && s.ring.Valid()
    ensures CopyStep(s, p).writeopen == s.writeopen && CopyStep(s, p).readopen == s.readopen
  {
    hide Ring.Empty, Ring.Drop, Ring.Front;
  }

  ghost predicate Closed(es: seq<Event>, ss: seq<State>, i: nat, writable: bool)
    requires i <= |es| < |ss|
  {
    exists j {:trigger es[j]} :: 0 <= j < i && Closes(ss[j], es[j], writable)
  }

  // In every run an end is open until, and only until, a pipeclose of that end.
  lemma {:induction false} EndsClosed(n: nat, es: seq<Event>, ss: seq<State>, i: nat)
    requires IsRun(n, es, ss) && i <= |es|
    ensures ss[i].writeopen <==> !Closed(es, ss, i, true)
    ensures ss[i].readopen <==> !Closed(es, ss, i, false)
  {
    if i > 0 {
      var e := es[i - 1];
      EndsClosed(n, es, ss, i - 1);
      RunKeeps(n, es, ss, i - 1);
      SaneAt(ss[i - 1], e);
      hide Inv, Do, Sane, Closes, Enabled;
      EndsNext(ss[i - 1], e);
    }
  }

  // ---------- kill ----------

  // From a test that ends in sleep until a wakeup or a kill of the sleeper.
  predicate WillSleep(x: Proc) { Sleeping(x) || BeforeSleep(x) }

  ghost predicate WillSleepAt(s: State, p: nat) { p < |s.procs| && WillSleep(s.procs[p]) }

  lemma WriterDecides(s: State, p: nat, s': State)
    requires p < |s.procs| == |s'.procs| && s.procs[p].Run? && s.ring.Valid() && s' == TestStep(s, p)
    requires s.procs[p].op.Writer?
    ensures s'.procs[p].Run? && s'.procs[p].killed == s.procs[p].killed
    ensures var at := s'.procs[p].at;
      at.Test? || at == Wake(true) || at.Leave? || (!s.procs[p].killed && at == Wake(false))
  {
    hide ReaderWaits, Ring.Full, Ring.Empty, Ring.Put;
  }

  lemma OtherDecides(s: State, p: nat, s': State)
    requires p < |s.procs| == |s'.procs| && s.procs[p].Run? && s.ring.Valid() && s' == TestStep(s, p)
    requires !s.procs[p].op.Writer?
    ensures s'.procs[p].Run? && s'.procs[p].killed == s.procs[p].killed
    ensures var at := s'.procs[p].at;
      at.Copy? || at == Wake(true) || at.Leave? || (!s.procs[p].killed && at.Fall?)
  {
    hide ReaderWaits, Ring.Full, Ring.Empty, Ring.Put;
  }

  lemma TestDecides(s: State, p: nat, s': State)
    requires p < |s.procs| == |s'.procs| && s.procs[p].Run? && s.ring.Valid() && s' == TestStep(s, p)
    requires WillSleep(s'.procs[p])
    ensures !s.procs[p].killed && s'.procs[p].Run? && !s'.procs[p].killed
  {
    hide TestStep;
    if s.procs[p].op.Writer? { WriterDecides(s, p, s'); } else { OtherDecides(s, p, s'); }
  }

  lemma CopyAwake(s: State, p: nat, s': State)
    requires p < |s.procs| == |s'.procs| && s.procs[p].Run? && s.procs[p].op.Reader? && s.ring.Valid()
    requires s' == CopyStep(s, p)
    ensures !WillSleep(s'.procs[p])
  {
    hide Ring.Empty, Ring.Drop, Ring.Front;
  }

  lemma RousingSleep(s: State, p: nat, s': State)
    requires Enabled(s, Step(p)) && s' == Do(s, Step(p)) && |s'.procs| == |s.procs| && Rousing(s, Step(p))
    requires Sane(s.procs[p])
    ensures s'.procs[p].Run? && s'.procs[p].killed == s.procs[p].killed && (WillSleep(s'.procs[p]) ==> WillSleep(s.procs[p]))
  {
    hide TestStep, CopyStep;
  }

  // Process p moves: it goes to sleep only from a test at which it is not killed.
  lemma StepSleep(s: State, p: nat, s': State)
    requires Enabled(s, Step(p)) && s' == Do(s, Step(p)) && |s'.procs| == |s.procs| && Sane(s.procs[p])
    requires WillSleep(s'.procs[p])
    ensures s'.procs[p].killed == s.procs[p].killed && (WillSleep(s.procs[p]) || !s.procs[p].killed)
  {
    assert s.procs[p].at.Copy? ==> s.procs[p].op.Reader?;
    if Copying(s, Step(p)) {
      CopyingStep(s, Step(p));
      hide Do, Sane;
      if s.procs[p].at.Test? { TestDecides(s, p, s'); } else { CopyAwake(s, p, s'); }
    } else if Rousing(s, Step(p)) {
      RousingSleep(s, p, s');
    } else {
      StageStep(s, p);
      hide Do;
    }
  }

  lemma KillSleep(s: State, p: nat, s': State)
    requires Enabled(s, Kill(p)) && s' == Do(s, Kill(p)) && |s'.procs| == |s.procs| && WillSleep(s'.procs[p])
    ensures WillSleep(s.procs[p]) && !s.procs[p].at.Asleep? && s'.procs[p].killed
  {
  }

  lemma CallAwake(s: State, e: Event, s': State)
    requires Enabled(s, e) && e.Call? && s' == Do(s, e) && |s'.procs| == |s.procs|
    ensures !WillSleep(s'.procs[e.p])
  {
  }

  lemma RousedAwake(x: Proc, readers: bool)
    requires WillSleep(Roused(x, readers))
    ensures Roused(x, readers) == x
  {
  }

  lemma OtherSleep(s: State, e: Event, p: nat, s': State)
    requires Enabled(s, e) && s' == Do(s, e) && p < |s.procs| == |s'.procs| && e.p != p
    requires Sane(s.procs[e.p]) && WillSleep(s'.procs[p])
    ensures s'.procs[p] == s.procs[p]
  {
    hide Enabled, Do, Sane, Roused;
    if Copying(s, e) {
      CopyingStep(s, e);
    } else if Rousing(s, e) {
      RousingStep(s, e);
      RousedAwake(s.procs[p], WakesReaders(s.procs[e.p].op));
    } else {
      PlainStep(s, e);
    }
  }

  lemma SleepNext(s: State, e: Event, p: nat, s': State)
    requires Inv(s) && Enabled(s, e) && s' == Do(s, e) && p < |s.procs| == |s'.procs| && WillSleep(s'.procs[p])
    ensures s.procs[p].Run?
    ensures e == Kill(p) ==> WillSleep(s.procs[p]) && s'.procs[p].killed
    ensures e != Kill(p) ==>
      s'.procs[p].killed == s.procs[p].killed && (WillSleep(s.procs[p]) || !s.procs[p].killed)
  {
    SaneAt(s, e);
    hide Inv, Do, Sane, WillSleep;
    if e.p != p {
      OtherSleep(s, e, p, s');
      WillSleepRuns(s.procs[p]);
    } else if e.Step? {
      StepSleep(s, p, s');
    } else if e.Kill? {
      KillSleep(s, p, s');
    } else {
      CallAwake(s, e, s');
    }
  }

  lemma WillSleepRuns(x: Proc)
    requires WillSleep(x)
    ensures x.Run? && (!Sleeping(x) ==> BeforeSleep(x))
  {
  }

  // Process p was killed after the test that put it to sleep and before it slept.
  ghost predicate KilledLate(es: seq<Event>, ss: seq<State>, p: nat, i: nat)
    requires i <= |es| < |ss|
  {
    exists j {:trigger es[j]} :: 0 <= j < i && es[j] == Kill(p) && forall k | j <= k <= i :: WillSleepAt(ss[k], p)
  }

  lemma LateNext(es: seq<Event>, ss: seq<State>, p: nat, i: nat)
    requires 0 < i <= |es| < |ss| && WillSleepAt(ss[i], p)
    ensures KilledLate(es, ss, p, i) <==>
      WillSleepAt(ss[i - 1], p) && (es[i - 1] == Kill(p) || KilledLate(es, ss, p, i - 1))
  {
    hide WillSleepAt;
    if WillSleepAt(ss[i - 1], p) && es[i - 1] == Kill(p) {
      assert forall k | i - 1 <= k <= i :: WillSleepAt(ss[k], p);
    }
  }

  // In every run: a process on its way to sleep, or asleep, is killed if and only
  // if the kill came after the test. No kill reaches it then until a wakeup.
  lemma {:induction false} KilledSleepers(n: nat, es: seq<Event>, ss: seq<State>, i: nat, p: nat)
    requires IsRun(n, es, ss) && i <= |es| && p < |ss[i].procs| && WillSleep(ss[i].procs[p])
    ensures ss[i].procs[p].killed <==> KilledLate(es, ss, p, i)
  {
    WillSleepRuns(ss[i].procs[p]);
    assert i > 0;
    var e := es[i - 1];
    RunKeeps(n, es, ss, i - 1);
    SaneAt(ss[i - 1], e);
    hide Inv, Do, Sane, WillSleep, KilledLate;
    SameCount(ss[i - 1], e);
    SleepNext(ss[i - 1], e, p, ss[i]);
    LateNext(es, ss, p, i);
    if WillSleepAt(ss[i - 1], p) {
      KilledSleepers(n, es, ss, i - 1, p);
    }
  }

  // And there are such runs: a killed reader sleeps on an empty pipe, with nobody
  // about to wake it.
  lemma KilledReaderSleeps() returns (s: State)
    ensures Reachable(2, s, true, false) && Quiet(s)
    ensures |s.procs| == 2 && AsleepOn(s.procs[0], true) && s.procs[0].killed && s.procs[1].Idle?
  {
    s := Init(2);
    ReachStart(2, true, false);
    for k := 0 to 3
      invariant Reachable(2, s, true, false) && FallingAsleep(s, k)
    {
      var e := if k == 0 then Call(0, Reader(1, [])) else Step(0);
      FallsAsleep(s, k);
      ReachNext(2, s, e, true, false);
      s := Do(s, e);
    }
    ReachNext(2, s, Kill(0), true, false);
    s := Do(s, Kill(0));
    hide Reachable, Do, Enabled;
    for k := 0 to 3
      invariant Reachable(2, s, true, false) && DozingOff(s, k)
    {
      DozesOff(s, k);
      ReachNext(2, s, Step(0), true, false);
      s := Do(s, Step(0));
    }
  }

  ghost predicate DozingOff(s: State, k: nat) {
    && k <= 3 && |s.procs| == 2 && s.procs[1].Idle? && s.readopen && s.ring.Valid()
    && s.procs[0] == Run(Reader(1, []), [Fall, Swap, Doze, Asleep][k], true)
    && s.pipeLock == (k < 2) && s.tableLock == (k == 1 || k == 2)
  }

  lemma DozesOff(s: State, k: nat)
    requires DozingOff(s, k) && k < 3
    ensures Enabled(s, Step(0)) && DozingOff(Do(s, Step(0)), k + 1)
  {
    hide TestStep, CopyStep, WakeAll, Ring.Full, Ring.Empty;
  }
}
