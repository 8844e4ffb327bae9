// pipewrite, piperead and pipeclose stepped through sleep and wakeup by any
// number of processes, over the pipe's lock and ptable.lock.
module PipeProtocol {
  import opened Bytes
  import opened PipeRing

  // What a process is doing to the pipe. news: it has put bytes in and not yet
  // called wakeup(&p->nread).
  datatype Op =
    | Writer(buf: seq<Byte>, i: nat, news: bool)
    | Reader(n: nat, got: seq<Byte>)
    | Closer(writable: bool)

  // Where it is. Stages from Test to Swap hold p->lock; Waking, Swap, Doze and
  // Tidy hold ptable.lock.
  datatype Stage =
    | Enter                   // about to acquire(&p->lock)
    | Test                    // at the loop test, or at the start of pipeclose
    | Copy                    // in piperead's copy loop
    | Wake(last: bool)        // about to call wakeup; last: the one before release
    | Waking(last: bool)      // in wakeup1
    | Fall                    // about to acquire(&ptable.lock) in sleep
    | Swap                    // about to release p->lock in sleep
    | Leave(ret: int)         // about to release p->lock and return ret
    | Doze                    // about to set chan and state = SLEEPING and call sched
    | Asleep                  // SLEEPING on &p->nwrite (writer) or &p->nread (reader)
    | Ready                   // RUNNABLE after a wakeup or a kill
    | Tidy                    // back from sched, about to release ptable.lock

  datatype Proc = Idle | Run(op: Op, at: Stage, killed: bool)

  datatype State = State(
    ring: Ring, readopen: bool, writeopen: bool,
    pipeLock: bool, tableLock: bool,       // held
    procs: seq<Proc>,
    written: seq<Byte>, read: seq<Byte>,   // history
    stranded: bool)                        // history: see Strands and Rescues

  datatype Event =
    | Call(p: nat, op: Op)
    | Kill(p: nat)
    | Step(p: nat)

  predicate HoldsPipe(x: Proc) {
    x.Run? && (x.at.Test? || x.at.Copy? || x.at.Wake? || x.at.Waking? || x.at.Fall? || x.at.Swap? || x.at.Leave?)
  }

  predicate HoldsTable(x: Proc) {
    x.Run? && (x.at.Waking? || x.at.Swap? || x.at.Doze? || x.at.Tidy?)
  }

  function Init(n: nat): State {
    State(Ring(seq(PIPESIZE, _ => 0), 0, 0), true, true, false, false, seq(n, _ => Idle), [], [], false)
  }

  // Between deciding to sleep and being roused.
  predicate Sleeping(x: Proc) {
    x.Run? && (x.at.Fall? || x.at.Swap? || x.at.Doze? || x.at.Asleep?)
  }

  predicate SleepingReader(x: Proc) {
    Sleeping(x) && x.op.Reader?
  }

  predicate ReaderWaits(s: State) {
    exists r :: 0 <= r < |s.procs| && SleepingReader(s.procs[r])
  }

  // ---------- the machine ----------

  predicate Enabled(s: State, e: Event) {
    && e.p < |s.procs| && s.ring.Valid()
    && var x := s.procs[e.p];
    if e.Call? then x.Idle? && Fresh(e.op)
    else if e.Kill? then x.Run? && !s.tableLock
    else x.Run? && match x.at {
      case Enter => !s.pipeLock
      case Wake(_) => !s.tableLock
      case Fall => !s.tableLock
      case Ready => !s.tableLock
      case Asleep => false
      case _ => true
    }
  }

  predicate Fresh(op: Op) {
    match op
    case Writer(_, i, news) => i == 0 && !news
    case Reader(_, got) => got == []
    case Closer(_) => true
  }

  function At(s: State, p: nat, at: Stage): State
    requires p < |s.procs| && s.procs[p].Run?
  {
    s.(procs := s.procs[p := s.procs[p].(at := at)])
  }

  function Doing(s: State, p: nat, op: Op, at: Stage): State
    requires p < |s.procs| && s.procs[p].Run?
  {
    s.(procs := s.procs[p := s.procs[p].(op := op, at := at)])
  }

  // wakeup1(chan): every process asleep on the channel becomes RUNNABLE.
  function WakeAll(procs: seq<Proc>, readers: bool): (r: seq<Proc>)
    ensures |r| == |procs|
    ensures forall i | 0 <= i < |procs| :: r[i] == Roused(procs[i], readers)
  {
    seq(|procs|, i requires 0 <= i < |procs| => Roused(procs[i], readers))
  }

  function Roused(x: Proc, readers: bool): Proc {
    if x.Run? && x.at.Asleep? && x.op.Reader? == readers then x.(at := Ready) else x
  }

  // The channel woken by an operation: writers and the write end's close wake
  // readers, readers and the read end's close wake writers.
  predicate WakesReaders(op: Op) {
    op.Writer? || (op.Closer? && op.writable)
  }

  // What a call that gets to its last wakeup returns; pipeclose returns nothing.
  function Result(op: Op): int {
    match op
    case Writer(buf, _, _) => |buf|
    case Reader(_, got) => |got|
    case Closer(_) => 0
  }

  // One step of the code between lock operations.
  function TestStep(s: State, p: nat): State
    requires p < |s.procs| && s.procs[p].Run? && s.ring.Valid()
  {
    var x := s.procs[p];
    match x.op
    case Writer(buf, i, news) =>
      if i >= |buf| then At(s, p, Wake(true))
      else if s.ring.Full() then
        if !s.readopen || x.killed then           // return -1
          At(s, p, Leave(-1)).(stranded := s.stranded || (news && ReaderWaits(s)))
        else At(s, p, Wake(false))
      else
        Doing(s, p, Writer(buf, i + 1, true), Test).(ring := s.ring.Put(buf[i]), written := s.written + [buf[i]])
    case Reader(n, got) =>
      if s.ring.Empty() && s.writeopen then
        if x.killed then At(s, p, Leave(-1)) else At(s, p, Fall)
      else At(s, p, Copy)
    case Closer(writable) =>
      var s' := At(s, p, Wake(true));
      if writable then s'.(writeopen := false) else s'.(readopen := false)
  }

  function CopyStep(s: State, p: nat): State
    requires p < |s.procs| && s.procs[p].Run? && s.procs[p].op.Reader? && s.ring.Valid()
  {
    var Reader(n, got) := s.procs[p].op;
    if |got| >= n || s.ring.Empty() then At(s, p, Wake(true))
    else
      var b := s.ring.Front();
      Doing(s, p, Reader(n, got + [b]), Copy).(
        ring := s.ring.Drop(), read := s.read + [b], stranded := s.stranded && !s.ring.Drop().Empty())
  }

  function Do(s: State, e: Event): State
    requires Enabled(s, e)
  {
    match e
    case Call(p, op) => s.(procs := s.procs[p := Run(op, Enter, false)])
    case Kill(p) =>
      var x := s.procs[p].(killed := true);
      s.(procs := s.procs[p := if x.at.Asleep? then x.(at := Ready) else x])
    case Step(p) =>
      var x := s.procs[p];
      match x.at
      case Enter => At(s, p, Test).(pipeLock := true)
      case Test => TestStep(s, p)
      case Copy => if x.op.Reader? then CopyStep(s, p) else At(s, p, Leave(0))
      case Wake(last) => At(s, p, Waking(last)).(tableLock := true)
      case Waking(last) =>
        var op' := if x.op.Writer? then x.op.(news := false) else x.op;
        var s' := s.(procs := WakeAll(s.procs, WakesReaders(x.op)), tableLock := false,
          stranded := s.stranded && !WakesReaders(x.op));
        Doing(s', p, op', if last then Leave(Result(x.op)) else Fall)
      case Fall => At(s, p, Swap).(tableLock := true)
      case Swap => At(s, p, Doze).(pipeLock := false)
      case Leave(_) => s.(procs := s.procs[p := Idle], pipeLock := false)
      case Doze => At(s, p, Asleep).(tableLock := false)
      case Asleep => s
      case Ready => At(s, p, Tidy).(tableLock := true)
      case Tidy => At(s, p, Enter).(tableLock := false)
  }

  // ---------- the invariant ----------

  // Each lock is held by one process, and the flag says whether it is.
  ghost predicate Locks(s: State) {
    && (forall i, j | 0 <= i < |s.procs| && 0 <= j < |s.procs| && HoldsPipe(s.procs[i]) && HoldsPipe(s.procs[j]) :: i == j)
    && (forall i, j | 0 <= i < |s.procs| && 0 <= j < |s.procs| && HoldsTable(s.procs[i]) && HoldsTable(s.procs[j]) :: i == j)
    && (s.pipeLock <==> exists i :: 0 <= i < |s.procs| && HoldsPipe(s.procs[i]))
    && (s.tableLock <==> exists i :: 0 <= i < |s.procs| && HoldsTable(s.procs[i]))
  }

  // x has news for readers (writers) and will call wakeup before it lets go of
  // the pipe.
  predicate WillWakeReaders(x: Proc) {
    x.Run? && match x.op
    case Writer(_, _, news) => news && (x.at.Test? || x.at.Wake? || x.at.Waking?)
    case Reader(_, _) => false
    case Closer(w) => w && (x.at.Wake? || x.at.Waking?)
  }

  predicate WillWakeWriters(x: Proc) {
    x.Run? && match x.op
    case Writer(_, _, _) => false
    case Reader(_, got) => got != [] && (x.at.Copy? || x.at.Wake? || x.at.Waking?)
    case Closer(w) => !w && (x.at.Wake? || x.at.Waking?)
  }

  // Stages an operation can be in.
  predicate Sane(x: Proc) {
    x.Run? ==> match x.op
    case Writer(buf, i, news) =>
      && !x.at.Copy? && i <= |buf|
      && (news ==> x.at.Test? || x.at.Wake? || x.at.Waking? || x.at.Leave?)
      && (news ==> i > 0)
    case Reader(n, got) =>
      && (x.at.Wake? ==> x.at.last) && (x.at.Waking? ==> x.at.last) && |got| <= n
      && (got != [] ==> x.at.Copy? || x.at.Wake? || x.at.Waking? || x.at.Leave?)
    case Closer(_) => x.at.Enter? || x.at.Test? || (x.at.Wake? && x.at.last) || (x.at.Waking? && x.at.last) || x.at.Leave?
  }

  predicate WillClose(x: Proc) {
    WillWakeReaders(x) && x.op.Closer?
  }

  // A reader asleep: a wakeup is due, or a write end is open and either there is
  // nothing to read or the reader is stranded.
  ghost predicate ReaderOk(s: State) {
    || (s.writeopen && (s.ring.Empty() || s.stranded))
    || exists w :: 0 <= w < |s.procs| && WillWakeReaders(s.procs[w])
  }

  ghost predicate EndOk(s: State) {
    s.writeopen || exists w :: 0 <= w < |s.procs| && WillClose(s.procs[w])
  }

  ghost predicate WriterOk(s: State) {
    (s.ring.Full() && s.readopen) || exists r :: 0 <= r < |s.procs| && WillWakeWriters(s.procs[r])
  }

  ghost predicate SleepInv(s: State) {
    && (ReaderWaits(s) ==> ReaderOk(s) && EndOk(s))
    && (forall i | 0 <= i < |s.procs| && Sleeping(s.procs[i]) && s.procs[i].op.Writer? :: WriterOk(s))
  }

  // A writer about to sleep found the ring full with a reader left, and holds
  // the pipe until it sleeps.
  ghost predicate Blocked(s: State) {
    forall i | 0 <= i < |s.procs| && BeforeSleep(s.procs[i]) :: s.ring.Full() && s.readopen
  }

  predicate BeforeSleep(x: Proc) {
    x.Run? && x.op.Writer? && ((x.at.Wake? && !x.at.last) || (x.at.Waking? && !x.at.last))
  }

  ghost predicate Inv(s: State) {
    && Carries(s.ring, s.written, s.read)
    && Locks(s) && SleepInv(s) && Blocked(s)
    && (s.stranded ==> !s.ring.Empty())
    && (forall i | 0 <= i < |s.procs| :: Sane(s.procs[i]))
  }

  // ---------- every step keeps it ----------

  // Process p moves; the lock flags follow what it acquires or releases.
  lemma LocksMove(s: State, s': State, p: nat)
    requires Locks(s) && p < |s.procs| == |s'.procs| && s'.procs == s.procs[p := s'.procs[p]]
    requires HoldsPipe(s'.procs[p]) && !HoldsPipe(s.procs[p]) ==> !s.pipeLock
    requires HoldsTable(s'.procs[p]) && !HoldsTable(s.procs[p]) ==> !s.tableLock
    requires s'.pipeLock == if HoldsPipe(s.procs[p]) == HoldsPipe(s'.procs[p]) then s.pipeLock else HoldsPipe(s'.procs[p])
    requires s'.tableLock == if HoldsTable(s.procs[p]) == HoldsTable(s'.procs[p]) then s.tableLock else HoldsTable(s'.procs[p])
    ensures Locks(s')
  {
    hide HoldsPipe, HoldsTable;
    var x, x' := s.procs[p], s'.procs[p];
    if HoldsPipe(x') { assert HoldsPipe(s'.procs[p]); }
    if HoldsTable(x') { assert HoldsTable(s'.procs[p]); }
    if i :| 0 <= i < |s.procs| && HoldsPipe(s.procs[i]) {
      if i != p { assert HoldsPipe(s'.procs[i]); }
    }
    if i :| 0 <= i < |s.procs| && HoldsTable(s.procs[i]) {
      if i != p { assert HoldsTable(s'.procs[i]); }
    }
  }

  // Process p moves without touching the pipe, keeps its promises of a wakeup,
  // and does not fall asleep anew unless the pipe is as a sleeper needs it.
  lemma SleepMove(s: State, s': State, p: nat)
    requires SleepInv(s) && p < |s.procs| == |s'.procs| && s'.procs == s.procs[p := s'.procs[p]]
    requires s'.ring == s.ring && s'.readopen == s.readopen && s'.writeopen == s.writeopen && (s.stranded ==> s'.stranded)
    requires WillWakeReaders(s.procs[p]) ==>
      WillWakeReaders(s'.procs[p]) || (s'.stranded && s'.writeopen) || !ReaderWaits(s)
    requires WillClose(s.procs[p]) ==> WillClose(s'.procs[p])
    requires WillWakeWriters(s.procs[p]) ==> WillWakeWriters(s'.procs[p])
    requires Sleeping(s'.procs[p]) ==>
      || (Sleeping(s.procs[p]) && s'.procs[p].op == s.procs[p].op)
      || (s'.procs[p].op.Reader? && s.ring.Empty() && s.writeopen)
      || (s'.procs[p].op.Writer? && s.ring.Full() && s.readopen)
    ensures SleepInv(s')
  {
    hide WillWakeReaders, WillWakeWriters, WillClose, Sleeping;
    if r :| 0 <= r < |s'.procs| && SleepingReader(s'.procs[r]) {
      if SleepingReader(s.procs[r]) {
        if !(s'.writeopen && (s'.ring.Empty() || s'.stranded)) {
          var w :| 0 <= w < |s.procs| && WillWakeReaders(s.procs[w]);
          assert WillWakeReaders(s'.procs[w]);
        }
        if !s'.writeopen {
          var w :| 0 <= w < |s.procs| && WillClose(s.procs[w]);
          assert WillClose(s'.procs[w]);
        }
      }
    }
    if WriterOk(s) && !(s.ring.Full() && s.readopen) {
      var r :| 0 <= r < |s.procs| && WillWakeWriters(s.procs[r]);
      assert WillWakeWriters(s'.procs[r]);
    }
  }

  // Process p changes the pipe and now owes a wakeup to the sleepers that the
  // change concerns; the others need what they needed before.
  lemma SleepPost(s: State, s': State, p: nat)
    requires SleepInv(s) && p < |s.procs| == |s'.procs| && s'.procs == s.procs[p := s'.procs[p]]
    requires !Sleeping(s'.procs[p])
    requires WillWakeReaders(s.procs[p]) ==> WillWakeReaders(s'.procs[p])
    requires WillWakeWriters(s.procs[p]) ==> WillWakeWriters(s'.procs[p])
    requires WillClose(s.procs[p]) ==> WillClose(s'.procs[p])
    requires WillWakeReaders(s'.procs[p]) ||
      (s.writeopen && (s.ring.Empty() || s.stranded) ==> s'.writeopen && (s'.ring.Empty() || s'.stranded))
    requires WillClose(s'.procs[p]) || (s.writeopen ==> s'.writeopen)
    requires WillWakeWriters(s'.procs[p]) || (s.ring.Full() && s.readopen ==> s'.ring.Full() && s'.readopen)
    ensures SleepInv(s')
  {
    hide WillWakeReaders, WillWakeWriters, WillClose, Sleeping;
    if ReaderWaits(s') {
      var r :| 0 <= r < |s'.procs| && SleepingReader(s'.procs[r]);
      assert SleepingReader(s.procs[r]);
    }
    if WillWakeReaders(s'.procs[p]) { assert ReaderOk(s'); }
    if WillClose(s'.procs[p]) { assert EndOk(s'); }
    if w :| 0 <= w < |s.procs| && WillClose(s.procs[w]) { assert WillClose(s'.procs[w]); }
    if WillWakeWriters(s'.procs[p]) { assert WriterOk(s'); }
    if w :| 0 <= w < |s.procs| && WillWakeReaders(s.procs[w]) { assert WillWakeReaders(s'.procs[w]); }
    if r :| 0 <= r < |s.procs| && WillWakeWriters(s.procs[r]) { assert WillWakeWriters(s'.procs[r]); }
  }

  // Process p, which holds the pipe, moves; nobody else is before its sleep.
  lemma BlockedMove(s: State, s': State, p: nat)
    requires Blocked(s) && Locks(s) && p < |s.procs| == |s'.procs| && s'.procs == s.procs[p := s'.procs[p]]
    requires HoldsPipe(s.procs[p]) || (s'.ring == s.ring && s'.readopen == s.readopen)
    requires BeforeSleep(s'.procs[p]) ==> s'.ring.Full() && s'.readopen
    ensures Blocked(s')
  {
    hide Ring.Full;
    assert forall i | 0 <= i < |s.procs| && BeforeSleep(s.procs[i]) :: HoldsPipe(s.procs[i]);
  }

  lemma WriterPutKeeps(s: State, p: nat)
    requires Inv(s) && Enabled(s, Step(p)) && s.procs[p].at.Test? && s.procs[p].op.Writer?
    requires s.procs[p].op.i < |s.procs[p].op.buf| && !s.ring.Full()
    ensures Inv(Do(s, Step(p)))
  {
    assert |s.read| <= |s.written|;
    hide Carries, Ring.Full, Ring.Empty, Ring.Put, SleepInv, Blocked, ReaderWaits;
    var s', x := Do(s, Step(p)), s.procs[p];
    LocksMove(s, s', p);
    BlockedMove(s, s', p);
    hide Locks;
    PutCarries(s.ring, s.written, s.read, x.op.buf[x.op.i]);
    TestsRight(s'.ring, s'.written, s'.read);
    SleepPost(s, s', p);
  }

  // While a writer holds the pipe and a reader sleeps, a write end is open.
  lemma WriterSeesEnd(s: State, p: nat)
    requires Locks(s) && SleepInv(s) && p < |s.procs| && HoldsPipe(s.procs[p]) && s.procs[p].op.Writer?
    ensures ReaderWaits(s) ==> s.writeopen
  {
  }

  lemma WriterTestKeeps(s: State, p: nat)
    requires Inv(s) && Enabled(s, Step(p)) && s.procs[p].at.Test? && s.procs[p].op.Writer?
    requires s.procs[p].op.i >= |s.procs[p].op.buf| || s.ring.Full()
    ensures Inv(Do(s, Step(p)))
  {
    WriterSeesEnd(s, p);
    TestsRight(s.ring, s.written, s.read);
    hide Carries, Ring.Full, Ring.Empty, Ring.Put, SleepInv, Blocked, ReaderWaits;
    var s' := Do(s, Step(p));
    LocksMove(s, s', p);
    BlockedMove(s, s', p);
    hide Locks;
    SleepMove(s, s', p);
  }

  lemma ReaderTestKeeps(s: State, p: nat)
    requires Inv(s) && Enabled(s, Step(p)) && s.procs[p].at.Test? && s.procs[p].op.Reader?
    ensures Inv(Do(s, Step(p)))
  {
    hide Carries, Ring.Full, Ring.Empty, SleepInv, Blocked;
    var s' := Do(s, Step(p));
    LocksMove(s, s', p);
    BlockedMove(s, s', p);
    hide Locks;
    SleepMove(s, s', p);
  }

  lemma CloserTestKeeps(s: State, p: nat)
    requires Inv(s) && Enabled(s, Step(p)) && s.procs[p].at.Test? && s.procs[p].op.Closer?
    ensures Inv(Do(s, Step(p)))
  {
    hide Carries, Ring.Full, Ring.Empty, SleepInv, Blocked;
    var s' := Do(s, Step(p));
    LocksMove(s, s', p);
    BlockedMove(s, s', p);
    hide Locks;
    SleepPost(s, s', p);
  }

  lemma CopyKeeps(s: State, p: nat)
    requires Inv(s) && Enabled(s, Step(p)) && s.procs[p].at.Copy?
    ensures Inv(Do(s, Step(p)))
  {
    hide Carries, Ring.Full, Ring.Empty, Ring.Drop, SleepInv, Blocked;
    var s', x := Do(s, Step(p)), s.procs[p];
    assert Sane(x) && x.op.Reader?;
    LocksMove(s, s', p);
    BlockedMove(s, s', p);
    hide Locks;
    if |x.op.got| < x.op.n && !s.ring.Empty() {
      GetCarries(s.ring, s.written, s.read);
      SleepPost(s, s', p);
    } else {
      SleepMove(s, s', p);
    }
  }

  // Rousing the sleepers of one channel: nobody is between Fall and Doze, for
  // p holds both locks.
  lemma WakingKeeps(s: State, p: nat)
    requires Inv(s) && Enabled(s, Step(p)) && s.procs[p].at.Waking?
    ensures Inv(Do(s, Step(p)))
  {
    hide Carries, Ring.Full, Ring.Empty;
    var s', x := Do(s, Step(p)), s.procs[p];
    var readers := WakesReaders(x.op);
    assert HoldsPipe(x) && HoldsTable(x) && Sane(x);
    forall i | 0 <= i < |s.procs| && i != p
      ensures !HoldsPipe(s.procs[i]) && !HoldsTable(s.procs[i])
      ensures s'.procs[i] == Roused(s.procs[i], readers)
    {
    }
    assert s.tableLock && s.pipeLock;
    assert HoldsPipe(s'.procs[p]) && !HoldsTable(s'.procs[p]);
    hide Locks, SleepInv;
    WakingSleep(s, s', p);
    WakingLocks(s, s', p);
  }

  lemma WakingLocks(s: State, s': State, p: nat)
    requires p < |s.procs| == |s'.procs| && s'.pipeLock && !s'.tableLock
    requires forall i | 0 <= i < |s.procs| && i != p :: !HoldsPipe(s'.procs[i]) && !HoldsTable(s'.procs[i])
    requires HoldsPipe(s'.procs[p]) && !HoldsTable(s'.procs[p])
    ensures Locks(s')
  {
  }

  lemma WakingSleep(s: State, s': State, p: nat)
    requires Inv(s) && p < |s.procs| == |s'.procs| && s.procs[p].Run? && s.procs[p].at.Waking?
    requires s'.ring == s.ring && s'.readopen == s.readopen && s'.writeopen == s.writeopen
    requires s'.stranded == (s.stranded && !WakesReaders(s.procs[p].op))
    requires forall i | 0 <= i < |s.procs| && i != p ::
      && s'.procs[i] == Roused(s.procs[i], WakesReaders(s.procs[p].op))
      && !HoldsPipe(s.procs[i]) && !HoldsTable(s.procs[i])
    requires Sleeping(s'.procs[p]) ==> s'.procs[p].op.Writer? && s.ring.Full() && s.readopen
    ensures SleepInv(s')
  {
    hide Carries, Ring.Full, Ring.Empty, Locks;
    var readers := WakesReaders(s.procs[p].op);
    forall i | 0 <= i < |s.procs| && i != p && Sleeping(s'.procs[i])
      ensures Sleeping(s.procs[i]) && s.procs[i].op == s'.procs[i].op && s.procs[i].op.Reader? != readers
    {
    }
  }

  // acquire, the start of wakeup, and release.
  lemma LockKeeps(s: State, p: nat)
    requires Inv(s) && Enabled(s, Step(p))
    requires var at := s.procs[p].at; at.Enter? || at.Wake? || at.Leave?
    ensures Inv(Do(s, Step(p)))
  {
    hide Carries, Ring.Full, Ring.Empty, SleepInv;
    var s' := Do(s, Step(p));
    LocksMove(s, s', p);
    hide Locks;
    SleepMove(s, s', p);
  }

  // The stages of sleep.
  lemma SleepKeeps(s: State, p: nat)
    requires Inv(s) && Enabled(s, Step(p))
    requires var at := s.procs[p].at; at.Fall? || at.Swap? || at.Doze? || at.Ready? || at.Tidy?
    ensures Inv(Do(s, Step(p)))
  {
    hide Carries, Ring.Full, Ring.Empty, SleepInv;
    var s' := Do(s, Step(p));
    LocksMove(s, s', p);
    hide Locks;
    SleepMove(s, s', p);
  }

  lemma CallKeeps(s: State, e: Event)
    requires Inv(s) && Enabled(s, e) && !e.Step?
    ensures Inv(Do(s, e))
  {
    hide Carries, Ring.Full, Ring.Empty, SleepInv;
    var s' := Do(s, e);
    LocksMove(s, s', e.p);
    hide Locks;
    SleepMove(s, s', e.p);
  }

  lemma EventKeeps(s: State, e: Event)
    requires Inv(s) && Enabled(s, e)
    ensures Inv(Do(s, e))
  {
    if !e.Step? {
      CallKeeps(s, e);
    } else if s.procs[e.p].at.Test? {
      var op := s.procs[e.p].op;
      if op.Writer? {
        if op.i < |op.buf| && !s.ring.Full() { WriterPutKeeps(s, e.p); } else { WriterTestKeeps(s, e.p); }
      } else if op.Reader? {
        ReaderTestKeeps(s, e.p);
      } else {
        CloserTestKeeps(s, e.p);
      }
    } else if s.procs[e.p].at.Copy? {
      CopyKeeps(s, e.p);
    } else if s.procs[e.p].at.Waking? {
      WakingKeeps(s, e.p);
    } else if s.procs[e.p].at.Enter? || s.procs[e.p].at.Wake? || s.procs[e.p].at.Leave? {
      LockKeeps(s, e.p);
    } else {
      SleepKeeps(s, e.p);
    }
  }

  // ---------- whole runs ----------

  ghost predicate IsRun(n: nat, es: seq<Event>, ss: seq<State>) {
    && |ss| == |es| + 1 && ss[0] == Init(n)
    && forall i {:trigger es[i]} | 0 <= i < |es| :: Enabled(ss[i], es[i]) && ss[i + 1] == Do(ss[i], es[i])
  }

  lemma {:induction false} RunKeeps(n: nat, es: seq<Event>, ss: seq<State>, i: nat)
    requires IsRun(n, es, ss) && i < |ss|
    ensures Inv(ss[i])
  {
    if i == 0 {
    } else {
      RunKeeps(n, es, ss, i - 1);
      var e := es[i - 1];
      EventKeeps(ss[i - 1], e);
      hide Inv, Enabled, Do;
    }
  }

  predicate AsleepOn(x: Proc, reader: bool) {
    x.Run? && x.at.Asleep? && (if reader then x.op.Reader? else x.op.Writer?)
  }

  // A step of pipewrite that returns -1 on a full ring with bytes it has put in
  // and not announced, while a reader sleeps.
  ghost predicate Strands(s: State, e: Event) {
    Enabled(s, e) && e.Step? && s.procs[e.p].at.Test? && Returns(s, s.procs[e.p]) && s.procs[e.p].op.news && ReaderWaits(s)
  }

  predicate Returns(s: State, x: Proc) {
    x.Run? && x.op.Writer? && x.op.i < |x.op.buf| && s.ring.Full() && (!s.readopen || x.killed)
  }

  // A step that wakes the readers, or empties the ring.
  ghost predicate Rescues(s: State, e: Event) {
    Enabled(s, e) && (
      || (e.Step? && s.procs[e.p].at.Waking? && WakesReaders(s.procs[e.p].op))
      || Do(s, e).ring.Empty())
  }

  // What a step does to the flag, given that it is off while the ring is empty.
  ghost predicate FlagRight(s: State, e: Event)
    requires Enabled(s, e)
  {
    Do(s, e).stranded <==> Strands(s, e) || (s.stranded && !Rescues(s, e))
  }

  lemma TestFlag(s: State, p: nat)
    requires Enabled(s, Step(p)) && s.procs[p].at.Test? && (s.ring.Full() ==> !s.ring.Empty())
    requires (s.stranded ==> !s.ring.Empty()) && (Do(s, Step(p)).stranded ==> !Do(s, Step(p)).ring.Empty())
    ensures FlagRight(s, Step(p))
  {
    hide ReaderWaits, Ring.Full, Ring.Empty, Ring.Put;
    var s' := TestStep(s, p);
  }

  lemma OtherFlag(s: State, e: Event)
    requires Enabled(s, e) && !(e.Step? && s.procs[e.p].at.Test?)
    requires e.Step? && s.procs[e.p].at.Copy? ==> s.procs[e.p].op.Reader?
    requires (s.stranded ==> !s.ring.Empty()) && (Do(s, e).stranded ==> !Do(s, e).ring.Empty())
    ensures FlagRight(s, e)
  {
    hide ReaderWaits, TestStep, WakeAll, Ring.Full, Ring.Empty, Ring.Drop;
  }

  lemma StrandedNext(s: State, e: Event)
    requires Inv(s) && Enabled(s, e)
    ensures FlagRight(s, e)
  {
    EventKeeps(s, e);
    assert Sane(s.procs[e.p]);
    TestsRight(s.ring, s.written, s.read);
    hide Ring.Full, Ring.Empty, Carries, Locks, SleepInv, Blocked, Do, FlagRight;
    if e.Step? && s.procs[e.p].at.Test? { TestFlag(s, e.p); } else { OtherFlag(s, e); }
  }

  // Some step stranded the readers and none has rescued them since.
  ghost predicate Stranded(es: seq<Event>, ss: seq<State>, i: nat)
    requires i <= |es| < |ss|
  {
    exists j :: 0 <= j < i && Strands(ss[j], es[j]) && forall k | j < k < i :: !Rescues(ss[k], es[k])
  }

  lemma StrandedStep(es: seq<Event>, ss: seq<State>, i: nat)
    requires 0 < i <= |es| < |ss|
    ensures Stranded(es, ss, i) <==>
      Strands(ss[i - 1], es[i - 1]) || (Stranded(es, ss, i - 1) && !Rescues(ss[i - 1], es[i - 1]))
  {
    hide Strands, Rescues;
  }

  lemma {:induction false} StrandedSince(n: nat, es: seq<Event>, ss: seq<State>, i: nat)
    requires IsRun(n, es, ss) && i <= |es|
    ensures ss[i].stranded <==> Stranded(es, ss, i)
  {
    hide Inv, Do, Enabled, Strands, Rescues;
    if i == 0 {
    } else {
      hide Stranded;
      var e := es[i - 1];
      StrandedSince(n, es, ss, i - 1);
      RunKeeps(n, es, ss, i - 1);
      StrandedNext(ss[i - 1], e);
      StrandedStep(es, ss, i);
    }
  }

  predicate Quiet(s: State) {
    !s.pipeLock && !s.tableLock
  }

  // At every moment of every run when neither lock is held: if a writer sleeps
  // the pipe is full and has a reader left; and if a reader sleeps the pipe is
  // empty and has a writer left, unless, and only unless, a pipewrite stranded
  // the readers and nothing has rescued them since.
  lemma NoLostWakeup(n: nat, es: seq<Event>, ss: seq<State>, i: nat, p: nat)
    requires IsRun(n, es, ss) && i <= |es| && p < |ss[i].procs|
    requires Quiet(ss[i])
    ensures AsleepOn(ss[i].procs[p], false) ==>
      |ss[i].written| == |ss[i].read| + PIPESIZE && ss[i].readopen
    ensures AsleepOn(ss[i].procs[p], true) ==>
      (ss[i].written == ss[i].read && ss[i].writeopen <==> !Stranded(es, ss, i))
  {
    StrandedSince(n, es, ss, i);
    RunKeeps(n, es, ss, i);
    var s := ss[i];
    QuietState(s, p);
  }

  lemma QuietState(s: State, p: nat)
    requires Inv(s) && p < |s.procs| && Quiet(s)
    ensures AsleepOn(s.procs[p], false) ==> |s.written| == |s.read| + PIPESIZE && s.readopen
    ensures AsleepOn(s.procs[p], true) ==> (s.written == s.read && s.writeopen <==> !s.stranded)
  {
    TestsRight(s.ring, s.written, s.read);
    assert forall j | 0 <= j < |s.procs| :: !HoldsPipe(s.procs[j]);
    assert forall j | 0 <= j < |s.procs| :: Sane(s.procs[j]) ==> !WillWakeReaders(s.procs[j]) && !WillWakeWriters(s.procs[j]);
  }

  // FIFO through any number of counter wraps: what piperead calls return is a
  // prefix of what pipewrite calls accepted, at most PIPESIZE bytes behind.
  lemma Fifo(n: nat, es: seq<Event>, ss: seq<State>, i: nat)
    requires IsRun(n, es, ss) && i < |ss|
    ensures ss[i].read <= ss[i].written && |ss[i].written| <= |ss[i].read| + PIPESIZE
  {
    RunKeeps(n, es, ss, i);
  }

  // ---------- which runs strand a reader ----------

  // A state reached by a run of the class: kills: processes may be killed;
  // closes: the read end may be closed.
  ghost predicate InClass(es: seq<Event>, ss: seq<State>, kills: bool, closes: bool)
    requires |es| < |ss|
  {
    forall j {:trigger es[j]} | 0 <= j < |es| :: (kills || !es[j].Kill?) && (closes || ss[j + 1].readopen)
  }

  ghost predicate Reachable(n: nat, s: State, kills: bool, closes: bool) {
    exists es, ss :: IsRun(n, es, ss) && InClass(es, ss, kills, closes) && ss[|es|] == s
  }

  lemma ClassNext(es: seq<Event>, ss: seq<State>, e: Event, s': State, kills: bool, closes: bool)
    requires |ss| == |es| + 1 && InClass(es, ss, kills, closes)
    requires (kills || !e.Kill?) && (closes || s'.readopen)
    ensures InClass(es + [e], ss + [s'], kills, closes)
  {
    var es', ss' := es + [e], ss + [s'];
    forall j {:trigger es'[j]} | 0 <= j < |es'|
      ensures (kills || !es'[j].Kill?) && (closes || ss'[j + 1].readopen)
    {
      if j < |es| { var x := es[j]; }
    }
  }

  lemma ReachNext(n: nat, s: State, e: Event, kills: bool, closes: bool)
    requires Reachable(n, s, kills, closes) && Enabled(s, e)
    requires (kills || !e.Kill?) && (closes || Do(s, e).readopen)
    ensures Reachable(n, Do(s, e), kills, closes)
  {
    hide Enabled, Do;
    var es, ss :| IsRun(n, es, ss) && InClass(es, ss, kills, closes) && ss[|es|] == s;
    var es', ss' := es + [e], ss + [Do(s, e)];
    forall i {:trigger es'[i]} | 0 <= i < |es'|
      ensures Enabled(ss'[i], es'[i]) && ss'[i + 1] == Do(ss'[i], es'[i])
    {
      if i < |es| { var x := es[i]; }
    }
    ClassNext(es, ss, e, Do(s, e), kills, closes);
    assert IsRun(n, es', ss') && InClass(es', ss', kills, closes) && ss'[|es'|] == Do(s, e);
  }

  lemma ReachableInv(n: nat, s: State, kills: bool, closes: bool)
    requires Reachable(n, s, kills, closes)
    ensures Inv(s)
  {
    var es, ss :| IsRun(n, es, ss) && InClass(es, ss, kills, closes) && ss[|es|] == s;
    RunKeeps(n, es, ss, |es|);
  }

  ghost predicate Calm(s: State) {
    forall p | 0 <= p < |s.procs| && s.procs[p].Run? :: !s.procs[p].killed
  }

  lemma CalmMove(s: State, s': State, p: nat)
    requires Calm(s) && p < |s.procs| == |s'.procs| && s'.procs == s.procs[p := s'.procs[p]]
    requires s'.procs[p].Run? ==> !s'.procs[p].killed
    ensures Calm(s')
  {
  }

  lemma TestCalm(s: State, p: nat)
    requires Calm(s) && Enabled(s, Step(p)) && s.procs[p].at.Test?
    ensures Calm(Do(s, Step(p)))
  {
    assert !s.procs[p].killed;
    hide Calm, Ring.Full, Ring.Empty, Ring.Put, ReaderWaits;
    CalmMove(s, TestStep(s, p), p);
  }

  lemma CopyCalm(s: State, p: nat)
    requires Calm(s) && Enabled(s, Step(p)) && s.procs[p].at.Copy?
    ensures Calm(Do(s, Step(p)))
  {
    hide Ring.Empty, Ring.Drop, TestStep;
  }

  lemma WakingCalm(s: State, p: nat)
    requires Calm(s) && Enabled(s, Step(p)) && s.procs[p].at.Waking?
    ensures Calm(Do(s, Step(p)))
  {
    hide CopyStep, TestStep;
  }

  lemma CallCalm(s: State, p: nat, op: Op)
    requires Calm(s) && Enabled(s, Call(p, op))
    ensures Calm(Do(s, Call(p, op)))
  {
  }

  lemma OtherCalm(s: State, p: nat)
    requires Calm(s) && Enabled(s, Step(p))
    requires var at := s.procs[p].at; !at.Test? && !at.Copy? && !at.Waking?
    ensures Calm(Do(s, Step(p)))
  {
    assert !s.procs[p].killed;
    hide Calm, CopyStep, TestStep, WakeAll, Ring.Full, Ring.Empty;
    CalmMove(s, Do(s, Step(p)), p);
  }

  // Nobody is killed, the read end is open and no reader is stranded.
  ghost predicate Unharmed(s: State) {
    s.readopen && !s.stranded && Calm(s)
  }

  lemma StepUnharmed(s: State, e: Event)
    requires Inv(s) && Unharmed(s) && Enabled(s, e) && !e.Kill? && Do(s, e).readopen
    ensures Unharmed(Do(s, e))
  {
    StrandedNext(s, e);
    hide Inv, Do, Rescues, Calm, ReaderWaits, Ring.Full;
    if e.Call? {
      CallCalm(s, e.p, e.op);
    } else if s.procs[e.p].at.Test? {
      TestCalm(s, e.p);
    } else if s.procs[e.p].at.Copy? {
      CopyCalm(s, e.p);
    } else if s.procs[e.p].at.Waking? {
      WakingCalm(s, e.p);
    } else {
      OtherCalm(s, e.p);
    }
  }

  lemma StartUnharmed(n: nat)
    ensures Unharmed(Init(n))
  {
  }

  lemma {:induction false} RunUnharmed(n: nat, es: seq<Event>, ss: seq<State>, i: nat)
    requires IsRun(n, es, ss) && InClass(es, ss, false, false) && i <= |es|
    ensures Unharmed(ss[i])
  {
    hide Enabled, Do, Unharmed, Init, Inv;
    if i > 0 {
      RunUnharmed(n, es, ss, i - 1);
      RunKeeps(n, es, ss, i - 1);
      var e := es[i - 1];
      StepUnharmed(ss[i - 1], e);
    } else {
      StartUnharmed(n);
    }
  }

  // A pipewrite that returns -1 on a full ring leaves every sleeping reader
  // asleep, with the ring full, the pipe unlocked and nobody about to wake it.
  lemma EarlyReturnStrands(s: State, p: nat, r: nat) returns (s': State)
    requires Inv(s) && Enabled(s, Step(p)) && s.procs[p].at.Test? && Returns(s, s.procs[p])
    requires r < |s.procs| && Sleeping(s.procs[r]) && s.procs[r].op.Reader?
    ensures Enabled(Do(s, Step(p)), Step(p)) && s' == Do(Do(s, Step(p)), Step(p))
    ensures s'.procs[p].Idle? && !s'.pipeLock && s'.stranded && |s'.written| == |s'.read| + PIPESIZE
    ensures s'.procs[r] == s.procs[r]
    ensures forall w | 0 <= w < |s'.procs| :: !WillWakeReaders(s'.procs[w])
  {
    var t := Do(s, Step(p));
    TestsRight(s.ring, s.written, s.read);
    EventKeeps(s, Step(p));
    EventKeeps(t, Step(p));
    s' := Do(t, Step(p));
    assert HoldsPipe(s.procs[p]);
    hide Ring.Full, Ring.Empty, Carries;
  }

  lemma ReachStart(n: nat, kills: bool, closes: bool)
    ensures Reachable(n, Init(n), kills, closes)
  {
    var none: seq<Event> := [];
    assert IsRun(n, none, [Init(n)]) && InClass(none, [Init(n)], kills, closes) && [Init(n)][|none|] == Init(n);
  }

  // k steps of a piperead by process 0 on an empty pipe.
  ghost predicate FallingAsleep(s: State, k: nat) {
    && k <= 6 && s.ring == Init(2).ring && |s.procs| == 2 && s.procs[1].Idle?
    && s.readopen && s.writeopen && s.read == [] == s.written
    && s.procs[0] == (if k == 0 then Idle else
      Run(Reader(1, []), [Enter, Test, Fall, Swap, Doze, Asleep][k - 1], false))
    && s.pipeLock == (k == 2 || k == 3 || k == 4) && s.tableLock == (k == 4 || k == 5)
  }

  lemma FallsAsleep(s: State, k: nat)
    requires FallingAsleep(s, k) && k < 6
    ensures var e := if k == 0 then Call(0, Reader(1, [])) else Step(0); Enabled(s, e) && FallingAsleep(Do(s, e), k + 1)
  {
    hide ReaderWaits, WakeAll, Ring.Full, Ring.Put, Ring.Drop;
  }

  // Process 0 calls piperead on an empty pipe and goes to sleep.
  lemma ReaderSleeps(kills: bool, closes: bool) returns (s: State)
    ensures Reachable(2, s, kills, closes) && Quiet(s)
    ensures |s.procs| == 2 && AsleepOn(s.procs[0], true) && s.procs[1].Idle?
    ensures s.readopen && s.writeopen && s.read == [] == s.written
  {
    s := Init(2);
    ReachStart(2, kills, closes);
    hide Reachable, Enabled, Do;
    for k := 0 to 6
      invariant Reachable(2, s, kills, closes) && FallingAsleep(s, k)
    {
      var e := if k == 0 then Call(0, Reader(1, [])) else Step(0);
      FallsAsleep(s, k);
      ReachNext(2, s, e, kills, closes);
      s := Do(s, e);
    }
  }

  // Process 1 closes the read end, which wakes no reader.
  lemma ReadEndCloses(s: State, kills: bool) returns (s': State)
    requires Reachable(2, s, kills, true) && Quiet(s) && |s.procs| == 2 && AsleepOn(s.procs[0], true)
    requires s.procs[1].Idle?
    requires s.ring.Valid()
    ensures Reachable(2, s', kills, true) && Quiet(s') && s'.procs == s.procs && !s'.readopen
    ensures s'.ring == s.ring && s'.writeopen == s.writeopen && s'.read == s.read && s'.written == s.written
  {
    hide Reachable, Ring.Empty;
    s' := s;
    var es := [Call(1, Closer(false)), Step(1), Step(1), Step(1), Step(1), Step(1)];
    for k := 0 to |es|
      invariant Reachable(2, s', kills, true) && s'.ring == s.ring && |s'.procs| == 2 && s'.procs[0] == s.procs[0]
      invariant s'.writeopen == s.writeopen && s'.read == s.read && s'.written == s.written
      invariant s'.procs[1] == if k == 0 || k == 6 then Idle else
        Run(Closer(false), [Enter, Test, Wake(true), Waking(true), Leave(0)][k - 1], false)
      invariant s'.pipeLock == (2 <= k <= 5) && s'.tableLock == (k == 4) && (k >= 3 ==> !s'.readopen)
    {
      ReachNext(2, s', es[k], kills, true);
      s' := Do(s', es[k]);
    }
  }

  // Process 1 fills the pipe and has one byte left to write.
  lemma WriterFills(s: State, kills: bool, closes: bool) returns (s': State)
    requires Reachable(2, s, kills, closes) && Quiet(s) && |s.procs| == 2 && s.procs[1].Idle?
    requires s.read == [] == s.written && (closes || s.readopen)
    ensures Reachable(2, s', kills, closes) && Inv(s') && |s'.procs| == 2 && s'.procs[0] == s.procs[0]
    ensures s'.procs[1].Run? && s'.procs[1].at.Test? && s'.procs[1].op.Writer?
    ensures s'.procs[1].op.i < |s'.procs[1].op.buf| && s'.procs[1].op.news && s'.ring.Full()
    ensures s'.readopen == s.readopen && s'.writeopen == s.writeopen && !s'.tableLock
  {
    var buf: seq<Byte> := seq(PIPESIZE + 1, _ => 0);
    ReachableInv(2, s, kills, closes);
    assert Carries(s.ring, s.written, s.read);
    hide Reachable, Inv;
    ReachNext(2, s, Call(1, Writer(buf, 0, false)), kills, closes);
    s' := Do(s, Call(1, Writer(buf, 0, false)));
    ReachNext(2, s', Step(1), kills, closes);
    s' := Do(s', Step(1));
    for k := 0 to PIPESIZE
      invariant Reachable(2, s', kills, closes) && |s'.procs| == 2 && s'.procs[0] == s.procs[0]
      invariant s'.procs[1] == Run(Writer(buf, k, k > 0), Test, false)
      invariant Carries(s'.ring, s'.written, s'.read) && s'.read == [] && |s'.written| == k
      invariant s'.readopen == s.readopen && s'.writeopen == s.writeopen && s'.pipeLock && !s'.tableLock
    {
      TestsRight(s'.ring, s'.written, s'.read);
      PutCarries(s'.ring, s'.written, s'.read, buf[k]);
      ReachNext(2, s', Step(1), kills, closes);
      s' := Do(s', Step(1));
    }
    TestsRight(s'.ring, s'.written, s'.read);
    ReachableInv(2, s', kills, closes);
  }

  // A reader sleeps, a writer fills the pipe and returns -1, because it was
  // killed or because the read end was closed before.
  lemma LostWakeup(kills: bool) returns (s: State)
    ensures Reachable(2, s, kills, !kills) && Quiet(s) && s.writeopen
    ensures |s.procs| == 2 && AsleepOn(s.procs[0], true) && s.procs[1].Idle?
    ensures |s.written| == |s.read| + PIPESIZE
  {
    s := ReaderSleeps(kills, !kills);
    ReachableInv(2, s, kills, !kills);
    hide Reachable;
    if !kills { s := ReadEndCloses(s, kills); }
    s := WriterFills(s, kills, !kills);
    if kills {
      ReachNext(2, s, Kill(1), kills, !kills);
      s := Do(s, Kill(1));
      ReachableInv(2, s, kills, !kills);
    }
    ReachNext(2, s, Step(1), kills, !kills);
    ReachNext(2, Do(s, Step(1)), Step(1), kills, !kills);
    s := EarlyReturnStrands(s, 1, 0);
  }

  // A reader that sleeps while both locks are free has nothing to read and a
  // writer left.
  ghost predicate ReadersRight(s: State) {
    Quiet(s) ==> forall p | 0 <= p < |s.procs| && AsleepOn(s.procs[p], true) :: s.written == s.read && s.writeopen
  }

  // That holds at every moment of every run if and only if nobody can be killed
  // and the read end stays open.
  lemma NeverLostIff(kills: bool, closes: bool)
    ensures (forall n, s :: Reachable(n, s, kills, closes) ==> ReadersRight(s)) <==> !kills && !closes
  {
    if kills || closes {
      var s := LostWakeup(kills);
      LostIn(s, kills, closes);
      assert AsleepOn(s.procs[0], true) && !ReadersRight(s);
    } else {
      forall n, s | Reachable(n, s, false, false) ensures ReadersRight(s) {
        var es, ss :| IsRun(n, es, ss) && InClass(es, ss, false, false) && ss[|es|] == s;
        RunUnharmed(n, es, ss, |es|);
        RunKeeps(n, es, ss, |es|);
        forall p | Quiet(s) && 0 <= p < |s.procs| && AsleepOn(s.procs[p], true)
          ensures s.written == s.read && s.writeopen
        {
          QuietState(s, p);
        }
      }
    }
  }

  // A wider class has every state of a narrower one.
  lemma LostIn(s: State, kills: bool, closes: bool)
    requires (kills || closes) && Reachable(2, s, kills, !kills)
    ensures Reachable(2, s, kills, closes)
  {
    var es, ss :| IsRun(2, es, ss) && InClass(es, ss, kills, !kills) && ss[|es|] == s;
    assert |es| < |ss|;
    hide IsRun;
    assert InClass(es, ss, kills, closes);
  }
}
