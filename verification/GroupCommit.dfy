// Every interleaving of file-system operations, group commits, crashes and
// recoveries over one log. One event is one critical section of log.c or one
// block write; a crash may come between any two.
module GroupCommit {
  import opened Bytes
  import opened BufferCache
  import opened LogSpec
  import opened RedoLog

  // One log_write: operation op gives block blockno new contents.
  datatype Update = Update(op: nat, blockno: Word32, data: Block)

  // An outstanding operation and the distinct blocks it has logged.
  datatype Op = Op(id: nat, blocks: set<Word32>)

  datatype Phase =
    | Running
    | Committing(base: seq<Block>, done: nat)     // block writes of commit done on base
    | Recovering(base: seq<Block>, done: nat)     // block writes of recover_from_log done on base
    | Panicked                                    // "too big a transaction"

  // History only: what became of an operation's updates.
  datatype Fate = Pending | InGroup(g: nat) | Lost

  datatype State = State(
    disk: seq<Block>,
    phase: Phase,
    cache: seq<Block>,             // block contents as processes see them
    lh: seq<Word32>,               // log.lh.block[..log.lh.n]
    active: seq<Op>,               // log.outstanding == |active|
    group: seq<Update>,            // history: updates not yet committed
    groups: seq<seq<Update>>,      // history: committed groups, in commit order
    issued: seq<seq<Update>>,      // history: all updates of each operation
    fate: seq<Fate>)               // history: the fate of each operation

  datatype Event =
    | Begin
    | LogWrite(i: nat, blockno: Word32, data: Block)
    | End(i: nat)
    | CommitWrite
    | CommitDone
    | Crash
    | RecoverWrite
    | RecoverDone

  // ---------- the machine ----------

  // The machine boots by recovering whatever is on the disk.
  function Init(d: seq<Block>): State {
    State(d, Recovering(d, 0), d, [], [], [], [], [], [])
  }

  function CommitList(lay: Layout, s: State): seq<Write>
    requires s.phase.Committing? && lay.Valid() && |s.phase.base| == lay.nblocks && |s.lh| <= LOGSIZE
    requires forall i | 0 <= i < |s.lh| :: s.lh[i] < |s.cache|
  {
    CommitWrites(lay, s.phase.base[lay.start], s.lh, Vals(s))
  }

  function Vals(s: State): (vals: seq<Block>)
    requires forall i | 0 <= i < |s.lh| :: s.lh[i] < |s.cache|
    ensures |vals| == |s.lh|
  {
    seq(|s.lh|, i requires 0 <= i < |s.lh| => s.cache[s.lh[i]])
  }

  // Types of the state; part of the invariant below.
  ghost predicate Typed(lay: Layout, s: State) {
    && lay.Valid() && |s.disk| == |s.cache| == lay.nblocks
    && GoodList(lay, s.lh)
    && (s.phase.Committing? ==> |s.phase.base| == lay.nblocks && s.phase.done <= |CommitList(lay, s)|)
    && (s.phase.Recovering? ==> GoodDisk(lay, s.phase.base) && s.phase.done <= |RecoverWrites(lay, s.phase.base)|)
    && |s.issued| == |s.fate|
    && forall i | 0 <= i < |s.active| :: s.active[i].id < |s.fate|
  }

  predicate TooBig(lay: Layout, s: State) {
    |s.lh| >= LOGSIZE || |s.lh| >= lay.size - 1
  }

  // limit bounds the distinct blocks that one operation logs.
  ghost predicate Enabled(lay: Layout, limit: nat, s: State, e: Event) {
    Typed(lay, s) &&
    match e
    case Begin => s.phase.Running? && |s.lh| + (|s.active| + 1) * MAXOPBLOCKS <= LOGSIZE
    case LogWrite(i, b, _) =>
      && (s.phase.Running? || s.phase.Committing?)      // log_write does not test committing
      && i < |s.active| && b < lay.nblocks && !lay.InLog(b)
      && |s.active[i].blocks + {b}| <= limit
    case End(i) => (s.phase.Running? || s.phase.Committing?) && i < |s.active|
    case CommitWrite => s.phase.Committing? && s.phase.done < |CommitList(lay, s)|
    case CommitDone => s.phase.Committing? && s.phase.done == |CommitList(lay, s)|
    case Crash => true
    case RecoverWrite => s.phase.Recovering? && s.phase.done < |RecoverWrites(lay, s.phase.base)|
    case RecoverDone => s.phase.Recovering? && s.phase.done == |RecoverWrites(lay, s.phase.base)|
  }

  ghost function Do(lay: Layout, limit: nat, s: State, e: Event): State
    requires Enabled(lay, limit, s, e)
  {
    match e
    case Begin =>
      s.(active := s.active + [Op(|s.fate|, {})], issued := s.issued + [[]], fate := s.fate + [Pending])
    case LogWrite(i, b, data) =>
      if TooBig(lay, s) then s.(phase := Panicked)
      else
        var op := s.active[i];
        var u := Update(op.id, b, data);
        s.(cache := s.cache[b := data],
           lh := Absorb(s.lh, b),
           active := s.active[i := Op(op.id, op.blocks + {b})],
           group := s.group + [u],
           issued := s.issued[op.id := s.issued[op.id] + [u]])
    case End(i) =>
      if s.phase.Committing? then s.(phase := Panicked)      // panic("log.committing")
      else
        var rest := s.active[..i] + s.active[i + 1..];
        s.(active := rest, phase := if rest == [] then Committing(s.disk, 0) else Running)
    case CommitWrite =>
      var w := CommitList(lay, s)[s.phase.done];
      CommitInRange(lay, s.phase.base[lay.start], s.lh, Vals(s));
      var s' := s.(disk := s.disk[w.blockno := w.data], phase := Committing(s.phase.base, s.phase.done + 1));
      if s.phase.done == |s.lh| then       // the header write
        s'.(group := [], groups := s.groups + [s.group], fate := Settle(s.fate, InGroup(|s.groups|)))
      else s'
    case CommitDone =>
      s.(phase := Running, lh := [])
    case Crash =>
      if GoodDisk(lay, s.disk) then
        s.(phase := Recovering(s.disk, 0), cache := s.disk, lh := [], active := [], group := [],
           fate := Settle(s.fate, Lost))
      else s.(phase := Panicked)      // read_head would overrun log.lh
    case RecoverWrite =>
      RecoverInRange(lay, s.phase.base);
      var w := RecoverWrites(lay, s.phase.base)[s.phase.done];
      s.(disk := s.disk[w.blockno := w.data], phase := Recovering(s.phase.base, s.phase.done + 1))
    case RecoverDone =>
      s.(phase := Running, cache := s.disk)
  }

  // Every pending operation meets the fate f.
  function Settle(fate: seq<Fate>, f: Fate): (r: seq<Fate>)
    ensures |r| == |fate|
    ensures forall i | 0 <= i < |r| :: r[i] == if fate[i].Pending? then f else fate[i]
  {
    seq(|fate|, i requires 0 <= i < |fate| => if fate[i].Pending? then f else fate[i])
  }

  ghost predicate IsRun(lay: Layout, limit: nat, d: seq<Block>, es: seq<Event>, ss: seq<State>) {
    && GoodDisk(lay, d) && |ss| == |es| + 1 && ss[0] == Init(d)
    && forall i {:trigger es[i]} | 0 <= i < |es| :: Enabled(lay, limit, ss[i], es[i]) && ss[i + 1] == Do(lay, limit, ss[i], es[i])
  }

  // ---------- what committed groups do to the home blocks ----------

  function ApplyUpdates(c: seq<Block>, us: seq<Update>): (r: seq<Block>)
    ensures |r| == |c|
  {
    if us == [] then c
    else
      var u := us[|us| - 1];
      var r := ApplyUpdates(c, us[..|us| - 1]);
      if u.blockno < |c| then r[u.blockno := u.data] else r
  }

  function ApplyGroups(c: seq<Block>, gs: seq<seq<Update>>): (r: seq<Block>)
    ensures |r| == |c|
  {
    if gs == [] then c else ApplyUpdates(ApplyGroups(c, gs[..|gs| - 1]), gs[|gs| - 1])
  }

  lemma {:induction false} ApplyUpdatesHome(lay: Layout, c: seq<Block>, e: seq<Block>, us: seq<Update>)
    requires SameHome(lay, c, e)
    ensures SameHome(lay, ApplyUpdates(c, us), ApplyUpdates(e, us))
  {
    if us != [] {
      ApplyUpdatesHome(lay, c, e, us[..|us| - 1]);
    }
  }

  // The home blocks that all committed groups, in order, make of disk image d.
  ghost function Durable(lay: Layout, d: seq<Block>, s: State): (r: seq<Block>)
    requires GoodDisk(lay, d)
    ensures |r| == lay.nblocks
  {
    ApplyGroups(Recovered(lay, d), s.groups)
  }

  // ---------- the data invariant ----------

  // Blocks that are not logged are the same in the cache and on the disk.
  ghost predicate Unlogged(lay: Layout, cache: seq<Block>, disk: seq<Block>, lh: seq<Word32>) {
    |cache| == |disk| && forall b | 0 <= b < |disk| && !lay.InLog(b) && b !in lh :: cache[b] == disk[b]
  }

  ghost predicate EmptyLog(lay: Layout, disk: seq<Block>) {
    GoodDisk(lay, disk) && Head(disk[lay.start]) == []
  }

  ghost predicate RunningInv(lay: Layout, durable: seq<Block>, s: State)
    requires s.phase.Running? && Typed(lay, s)
  {
    && EmptyLog(lay, s.disk) && SameHome(lay, s.disk, durable)
    && Unlogged(lay, s.cache, s.disk, s.lh)
    && SameHome(lay, s.cache, ApplyUpdates(durable, s.group))
    && (s.lh == [] ==> s.group == [])
  }

  ghost predicate CommittingInv(lay: Layout, durable: seq<Block>, s: State)
    requires s.phase.Committing? && Typed(lay, s)
  {
    && s.active == []
    && EmptyLog(lay, s.phase.base)
    && Unlogged(lay, s.cache, s.phase.base, s.lh)
    && s.disk == (if s.lh == [] then s.phase.base else CommitImage(lay, s.phase.base, s.lh, Vals(s), s.phase.done))
    && SameHome(lay, s.cache, ApplyUpdates(durable, s.group))
    && (s.phase.done <= |s.lh| ==> SameHome(lay, s.phase.base, durable))
    && (s.phase.done > |s.lh| || s.lh == [] ==> s.group == [])
  }

  ghost predicate RecoveringInv(lay: Layout, durable: seq<Block>, s: State)
    requires s.phase.Recovering? && Typed(lay, s)
  {
    && s.active == [] && s.lh == [] && s.group == []
    && s.disk == RecoverImage(lay, s.phase.base, s.phase.done)
    && SameHome(lay, Recovered(lay, s.phase.base), durable)
  }

  ghost predicate DiskInv(lay: Layout, durable: seq<Block>, s: State) {
    GoodDisk(lay, s.disk) && SameHome(lay, Recovered(lay, s.disk), durable)
  }

  ghost predicate DataInv(lay: Layout, d: seq<Block>, s: State) {
    && GoodDisk(lay, d) && Typed(lay, s)
    && var durable := Durable(lay, d, s);
    match s.phase
    case Running => RunningInv(lay, durable, s)
    case Committing(_, _) => CommittingInv(lay, durable, s)
    case Recovering(_, _) => RecoveringInv(lay, durable, s)
    case Panicked => DiskInv(lay, durable, s)
  }

  // What a commit installs is what processes see.
  lemma InstalledIsCache(lay: Layout, base: seq<Block>, cache: seq<Block>, lh: seq<Word32>, vals: seq<Block>)
    requires lay.Valid() && |base| == |cache| == lay.nblocks && GoodList(lay, lh) && |vals| == |lh|
    requires forall i | 0 <= i < |lh| :: vals[i] == cache[lh[i]]
    requires Unlogged(lay, cache, base, lh)
    ensures SameHome(lay, Installed(lay, base, lh, vals), cache)
  {
    InstalledAt(lay, base, lh, vals);
    forall b | 0 <= b < |base| && b in lh
      ensures Installed(lay, base, lh, vals)[b] == cache[b]
    {
      var i :| 0 <= i < |lh| && lh[i] == b;
    }
  }

  // In every phase the disk recovers to the committed groups.
  lemma DataSafe(lay: Layout, d: seq<Block>, s: State)
    requires DataInv(lay, d, s)
    ensures DiskInv(lay, Durable(lay, d, s), s)
  {
    hide ApplyWrites, EncodeHead, Word;
    match s.phase
    case Running =>
      EmptyHeadRecovered(lay, s.disk);
    case Committing(base, k) =>
      if s.lh == [] {
        EmptyHeadRecovered(lay, base);
      } else {
        CommitCrash(lay, base, s.lh, Vals(s), k);
        InstalledIsCache(lay, base, s.cache, s.lh, Vals(s));
      }
    case Recovering(base, k) =>
      RecoverCrash(lay, base, k);
    case Panicked =>
  }

  // ---------- every event keeps the data invariant ----------

  lemma LogWriteKeeps(lay: Layout, limit: nat, d: seq<Block>, s: State, e: Event)
    requires DataInv(lay, d, s) && e.LogWrite? && Enabled(lay, limit, s, e)
    ensures DataInv(lay, d, Do(lay, limit, s, e))
  {
    hide ApplyWrites, EncodeHead, Word, ApplyGroups;
    DataSafe(lay, d, s);
    var durable, us := Durable(lay, d, s), s.group;
    var u := Update(s.active[e.i].id, e.blockno, e.data);
    assert (us + [u])[..|us|] == us;
    assert s.phase.Running?;
    if !TooBig(lay, s) {
      AbsorbGood(lay, s.lh, e.blockno);
    }
  }

  lemma AbsorbGood(lay: Layout, bl: seq<Word32>, b: Word32)
    requires GoodList(lay, bl) && |bl| < LOGSIZE && |bl| < lay.size - 1 && b < lay.nblocks && !lay.InLog(b)
    ensures GoodList(lay, Absorb(bl, b)) && b in Absorb(bl, b)
    ensures forall c | c in bl :: c in Absorb(bl, b)
  {
    assert b !in bl ==> Absorb(bl, b)[|bl|] == b;
  }

  lemma EndKeeps(lay: Layout, limit: nat, d: seq<Block>, s: State, e: Event)
    requires DataInv(lay, d, s) && e.End? && Enabled(lay, limit, s, e)
    ensures DataInv(lay, d, Do(lay, limit, s, e))
  {
    hide ApplyWrites, EncodeHead, Word, ApplyGroups, Recovered;
    if s.lh != [] && |s.active| == 1 {
      CommitStart(lay, s.disk, s.lh, Vals(s));
    }
  }

  lemma CommitStart(lay: Layout, base: seq<Block>, lh: seq<Word32>, vals: seq<Block>)
    requires lay.Valid() && |base| == lay.nblocks && GoodList(lay, lh) && |vals| == |lh|
    ensures CommitImage(lay, base, lh, vals, 0) == base
  {
    assert CommitWrites(lay, base[lay.start], lh, vals)[..0] == [];
  }

  lemma CommitNext(lay: Layout, base: seq<Block>, lh: seq<Word32>, vals: seq<Block>, k: nat)
    requires lay.Valid() && |base| == lay.nblocks && GoodList(lay, lh) && |vals| == |lh|
    requires k < |CommitWrites(lay, base[lay.start], lh, vals)|
    ensures var w := CommitWrites(lay, base[lay.start], lh, vals)[k];
      && w.blockno < lay.nblocks
      && CommitImage(lay, base, lh, vals, k + 1) == CommitImage(lay, base, lh, vals, k)[w.blockno := w.data]
  {
    CommitInRange(lay, base[lay.start], lh, vals);
    ApplyStep(base, CommitWrites(lay, base[lay.start], lh, vals), k);
  }

  lemma ApplyStep(d: seq<Block>, ws: seq<Write>, k: nat)
    requires InRange(ws, |d|) && k < |ws|
    ensures ApplyWrites(d, ws[..k + 1]) == ApplyWrites(d, ws[..k])[ws[k].blockno := ws[k].data]
  {
    assert ws[..k + 1][..k] == ws[..k];
  }

  lemma CommitWriteKeeps(lay: Layout, limit: nat, d: seq<Block>, s: State)
    requires DataInv(lay, d, s) && Enabled(lay, limit, s, CommitWrite)
    ensures DataInv(lay, d, Do(lay, limit, s, CommitWrite))
  {
    hide ApplyWrites, EncodeHead, Word, Recovered, CommitImage;
    CommitNext(lay, s.phase.base, s.lh, Vals(s), s.phase.done);
    if s.phase.done == |s.lh| {
      assert (s.groups + [s.group])[..|s.groups|] == s.groups;
    }
  }

  lemma CommitDoneKeeps(lay: Layout, limit: nat, d: seq<Block>, s: State)
    requires DataInv(lay, d, s) && Enabled(lay, limit, s, CommitDone)
    ensures DataInv(lay, d, Do(lay, limit, s, CommitDone))
  {
    hide ApplyWrites, EncodeHead, Word, Recovered, ApplyGroups;
    if s.lh != [] {
      LogSpec.CommitDone(lay, s.phase.base, s.lh, Vals(s));
      InstalledIsCache(lay, s.phase.base, s.cache, s.lh, Vals(s));
    }
  }

  lemma RecoverWriteKeeps(lay: Layout, limit: nat, d: seq<Block>, s: State)
    requires DataInv(lay, d, s) && Enabled(lay, limit, s, RecoverWrite)
    ensures DataInv(lay, d, Do(lay, limit, s, RecoverWrite))
  {
    hide ApplyWrites, EncodeHead, Word, Recovered, ApplyGroups, GoodList;
    RecoverInRange(lay, s.phase.base);
    ApplyStep(s.phase.base, RecoverWrites(lay, s.phase.base), s.phase.done);
  }

  lemma RecoverDoneKeeps(lay: Layout, limit: nat, d: seq<Block>, s: State)
    requires DataInv(lay, d, s) && Enabled(lay, limit, s, RecoverDone)
    ensures DataInv(lay, d, Do(lay, limit, s, RecoverDone))
  {
    hide ApplyWrites, EncodeHead, Word, ApplyGroups, GoodList;
    RecoverCrash(lay, s.phase.base, s.phase.done);
  }

  lemma CrashKeeps(lay: Layout, limit: nat, d: seq<Block>, s: State)
    requires DataInv(lay, d, s) && Enabled(lay, limit, s, Crash)
    ensures DataInv(lay, d, Do(lay, limit, s, Crash))
    ensures Do(lay, limit, s, Crash).phase.Recovering?
  {
    hide ApplyWrites, EncodeHead, Word, Recovered, ApplyGroups;
    DataSafe(lay, d, s);
    RecoverStart(lay, s.disk);
  }

  lemma RecoverStart(lay: Layout, d: seq<Block>)
    requires GoodDisk(lay, d)
    ensures RecoverImage(lay, d, 0) == d
  {
    assert RecoverWrites(lay, d)[..0] == [];
  }

  lemma EventKeeps(lay: Layout, limit: nat, d: seq<Block>, s: State, e: Event)
    requires DataInv(lay, d, s) && Enabled(lay, limit, s, e)
    ensures DataInv(lay, d, Do(lay, limit, s, e))
  {
    match e
    case Begin => BeginKeeps(lay, limit, d, s);
    case LogWrite(_, _, _) => LogWriteKeeps(lay, limit, d, s, e);
    case End(_) => EndKeeps(lay, limit, d, s, e);
    case CommitWrite => CommitWriteKeeps(lay, limit, d, s);
    case CommitDone => CommitDoneKeeps(lay, limit, d, s);
    case Crash => CrashKeeps(lay, limit, d, s);
    case RecoverWrite => RecoverWriteKeeps(lay, limit, d, s);
    case RecoverDone => RecoverDoneKeeps(lay, limit, d, s);
  }

  lemma BeginKeeps(lay: Layout, limit: nat, d: seq<Block>, s: State)
    requires DataInv(lay, d, s) && Enabled(lay, limit, s, Begin)
    ensures DataInv(lay, d, Do(lay, limit, s, Begin))
  {
  }

  lemma InitKeeps(lay: Layout, d: seq<Block>)
    requires GoodDisk(lay, d)
    ensures DataInv(lay, d, Init(d))
  {
    hide ApplyWrites, Recovered;
    RecoverStart(lay, d);
  }

  lemma RunAt(lay: Layout, limit: nat, d: seq<Block>, es: seq<Event>, ss: seq<State>, i: nat)
    requires IsRun(lay, limit, d, es, ss) && i < |es|
    ensures Enabled(lay, limit, ss[i], es[i]) && ss[i + 1] == Do(lay, limit, ss[i], es[i])
  {
    hide Enabled, Do;
    var e := es[i];
  }

  lemma {:induction false} RunKeeps(lay: Layout, limit: nat, d: seq<Block>, es: seq<Event>, ss: seq<State>, i: nat)
    requires IsRun(lay, limit, d, es, ss) && i < |ss|
    ensures DataInv(lay, d, ss[i])
  {
    hide DataInv, Enabled, Do;
    if i == 0 {
      InitKeeps(lay, d);
    } else {
      RunKeeps(lay, limit, d, es, ss, i - 1);
      RunAt(lay, limit, d, es, ss, i - 1);
      EventKeeps(lay, limit, d, ss[i - 1], es[i - 1]);
    }
  }

  // Crash safety over whole runs. Whatever operations were interleaved and
  // wherever crashes fell, the disk at any moment recovers to the committed
  // groups applied in order, and commit runs with no operation outstanding.
  lemma CrashSafety(lay: Layout, limit: nat, d: seq<Block>, es: seq<Event>, ss: seq<State>, i: nat)
    requires IsRun(lay, limit, d, es, ss) && i < |ss|
    ensures GoodDisk(lay, ss[i].disk)
    ensures SameHome(lay, Recovered(lay, ss[i].disk), Durable(lay, d, ss[i]))
    ensures ss[i].phase.Committing? ==> ss[i].active == []
  {
    RunKeeps(lay, limit, d, es, ss, i);
    hide Recovered, Durable;
    DataSafe(lay, d, ss[i]);
  }

  // ---------- operations are atomic ----------

  function Filter(us: seq<Update>, op: nat): seq<Update> {
    if us == [] then []
    else if us[|us| - 1].op == op then Filter(us[..|us| - 1], op) + [us[|us| - 1]]
    else Filter(us[..|us| - 1], op)
  }

  // Where the updates of operation op are.
  ghost predicate Placed(s: State, op: nat)
    requires op < |s.fate| == |s.issued|
  {
    && Filter(s.group, op) == (if s.fate[op].Pending? then s.issued[op] else [])
    && (forall g | 0 <= g < |s.groups| ::
          Filter(s.groups[g], op) == if s.fate[op] == InGroup(g) then s.issued[op] else [])
    && (s.fate[op].InGroup? ==> s.fate[op].g < |s.groups|)
  }

  ghost predicate HistoryInv(s: State) {
    && |s.fate| == |s.issued|
    && (forall op: nat | op < |s.fate| :: Placed(s, op))
    && (forall i | 0 <= i < |s.active| :: s.active[i].id < |s.fate| && s.fate[s.active[i].id].Pending?)
    && (s.phase.Committing? ==> s.active == [])
    && (s.phase.Recovering? ==> s.active == [] && s.group == [] && forall op | 0 <= op < |s.fate| :: !s.fate[op].Pending?)
    && (forall i | 0 <= i < |s.group| :: s.group[i].op < |s.fate|)
    && (forall g, i | 0 <= g < |s.groups| && 0 <= i < |s.groups[g]| :: s.groups[g][i].op < |s.fate|)
  }

  lemma {:induction false} FilterNone(us: seq<Update>, op: nat)
    requires forall i | 0 <= i < |us| :: us[i].op != op
    ensures Filter(us, op) == []
  {
    if us != [] {
      FilterNone(us[..|us| - 1], op);
    }
  }

  lemma BeginHistory(lay: Layout, limit: nat, s: State)
    requires HistoryInv(s) && Enabled(lay, limit, s, Begin)
    ensures HistoryInv(Do(lay, limit, s, Begin))
  {
    hide Typed;
    var s', id := Do(lay, limit, s, Begin), |s.fate|;
    FilterNone(s.group, id);
    forall g | 0 <= g < |s.groups|
      ensures Filter(s.groups[g], id) == []
    {
      FilterNone(s.groups[g], id);
    }
    forall op: nat | op < |s'.fate|
      ensures Placed(s', op)
    {
      if op < id { assert Placed(s, op); }
    }
  }

  lemma LogWriteHistory(lay: Layout, limit: nat, s: State, e: Event)
    requires HistoryInv(s) && e.LogWrite? && Enabled(lay, limit, s, e)
    ensures HistoryInv(Do(lay, limit, s, e))
  {
    hide Typed;
    var s', u := Do(lay, limit, s, e), Update(s.active[e.i].id, e.blockno, e.data);
    assert (s.group + [u])[..|s.group|] == s.group;
    forall op: nat | op < |s'.fate|
      ensures Placed(s', op)
    {
      assert Placed(s, op);
    }
  }

  lemma CommitWriteHistory(lay: Layout, limit: nat, s: State)
    requires HistoryInv(s) && Enabled(lay, limit, s, CommitWrite)
    ensures HistoryInv(Do(lay, limit, s, CommitWrite))
  {
    hide Typed, CommitWrites;
    var s' := Do(lay, limit, s, CommitWrite);
    forall op: nat | op < |s'.fate|
      ensures Placed(s', op)
    {
      assert Placed(s, op);
    }
  }

  lemma OtherHistory(lay: Layout, limit: nat, s: State, e: Event)
    requires HistoryInv(s) && Enabled(lay, limit, s, e) && !e.Begin? && !e.LogWrite? && !e.CommitWrite?
    ensures HistoryInv(Do(lay, limit, s, e))
  {
    hide Typed, CommitWrites, RecoverWrites, GoodDisk, Filter;
    var s' := Do(lay, limit, s, e);
    forall op: nat | op < |s'.fate|
      ensures Placed(s', op)
    {
      assert Placed(s, op);
      FilterNone([], op);
    }
  }

  lemma {:induction false} RunHistory(lay: Layout, limit: nat, d: seq<Block>, es: seq<Event>, ss: seq<State>, i: nat)
    requires IsRun(lay, limit, d, es, ss) && i < |ss|
    ensures HistoryInv(ss[i])
  {
    if i > 0 {
      RunHistory(lay, limit, d, es, ss, i - 1);
      RunAt(lay, limit, d, es, ss, i - 1);
      var s, e := ss[i - 1], es[i - 1];
      hide HistoryInv, Enabled, Do, Typed;
      match e
      case Begin => BeginHistory(lay, limit, s);
      case LogWrite(_, _, _) => LogWriteHistory(lay, limit, s, e);
      case CommitWrite => CommitWriteHistory(lay, limit, s);
      case _ => OtherHistory(lay, limit, s, e);
    }
  }

  // Each operation is wholly in or wholly out of what CrashSafety recovers: it
  // has ended and one committed group holds all its updates in their order, or
  // no committed group holds any of them.
  lemma OperationAtomic(lay: Layout, limit: nat, d: seq<Block>, es: seq<Event>, ss: seq<State>, i: nat, op: nat)
    requires IsRun(lay, limit, d, es, ss) && i < |ss| && op < |ss[i].fate|
    ensures |ss[i].issued| == |ss[i].fate|
    ensures var s := ss[i];
      || (forall g | 0 <= g < |s.groups| :: Filter(s.groups[g], op) == [])
      || (&& (forall k | 0 <= k < |s.active| :: s.active[k].id != op)
          && exists g | 0 <= g < |s.groups| ::
               && Filter(s.groups[g], op) == s.issued[op]
               && forall h | 0 <= h < |s.groups| && h != g :: Filter(s.groups[h], op) == [])
  {
    RunHistory(lay, limit, d, es, ss, i);
    assert Placed(ss[i], op);
  }

  // ---------- committed operations stay ----------

  // Updates wait for the header write only: after it, and whenever no operation
  // is outstanding and no commit runs, none is left.
  ghost predicate GroupInv(s: State) {
    && (s.group != [] ==> s.lh != [])
    && (s.phase.Running? && s.active == [] ==> s.group == [])
    && (s.phase.Committing? && s.phase.done > |s.lh| ==> s.group == [])
  }

  lemma GroupKeeps(lay: Layout, limit: nat, s: State, e: Event)
    requires GroupInv(s) && HistoryInv(s) && Enabled(lay, limit, s, e)
    ensures GroupInv(Do(lay, limit, s, e))
  {
    hide Filter, RecoverWrites, GoodDisk, EncodeHead, Copies, Installs;
    if e.CommitDone? { assert s.lh != [] ==> |CommitList(lay, s)| == 2 * |s.lh| + 2; }
  }

  lemma {:induction false} RunGroup(lay: Layout, limit: nat, d: seq<Block>, es: seq<Event>, ss: seq<State>, i: nat)
    requires IsRun(lay, limit, d, es, ss) && i < |ss|
    ensures GroupInv(ss[i])
  {
    if i > 0 {
      RunGroup(lay, limit, d, es, ss, i - 1);
      RunHistory(lay, limit, d, es, ss, i - 1);
      RunAt(lay, limit, d, es, ss, i - 1);
      hide GroupInv, HistoryInv, Enabled, Do;
      GroupKeeps(lay, limit, ss[i - 1], es[i - 1]);
    }
  }

  // Fates are final, committed groups are kept in order, and an operation with
  // a final fate logs nothing more.
  ghost predicate Later(s: State, s': State) {
    && |s.issued| == |s.fate| <= |s'.fate| == |s'.issued| && s.groups <= s'.groups
    && forall op | 0 <= op < |s.fate| && !s.fate[op].Pending? ::
         s'.fate[op] == s.fate[op] && s'.issued[op] == s.issued[op]
  }

  lemma LaterStep(lay: Layout, limit: nat, s: State, e: Event)
    requires HistoryInv(s) && Enabled(lay, limit, s, e)
    ensures Later(s, Do(lay, limit, s, e))
  {
    hide Filter, RecoverWrites, GoodDisk, CommitWrites;
  }

  lemma {:induction false} RunLater(lay: Layout, limit: nat, d: seq<Block>, es: seq<Event>, ss: seq<State>, i: nat,
                                    j: nat)
    requires IsRun(lay, limit, d, es, ss) && i <= j < |ss|
    ensures Later(ss[i], ss[j])
  {
    hide Enabled, Do, Later;
    if i == j {
      RunHistory(lay, limit, d, es, ss, i);
      LaterSelf(ss[i]);
    } else {
      hide HistoryInv;
      RunLater(lay, limit, d, es, ss, i, j - 1);
      RunHistory(lay, limit, d, es, ss, j - 1);
      RunAt(lay, limit, d, es, ss, j - 1);
      LaterStep(lay, limit, ss[j - 1], es[j - 1]);
      LaterTrans(ss[i], ss[j - 1], ss[j]);
    }
  }

  lemma LaterSelf(s: State)
    requires HistoryInv(s)
    ensures Later(s, s)
  {
  }

  lemma LaterTrans(s: State, s': State, s'': State)
    requires Later(s, s') && Later(s', s'')
    ensures Later(s, s'')
  {
  }

  // A crash came while operation op was not yet committed.
  ghost predicate CrashedPending(es: seq<Event>, ss: seq<State>, i: nat, op: nat)
    requires i <= |es| <= |ss|
  {
    exists k :: 0 <= k < i && es[k].Crash? && op < |ss[k].fate| && ss[k].fate[op].Pending?
  }

  lemma {:induction false} LostByCrash(lay: Layout, limit: nat, d: seq<Block>, es: seq<Event>, ss: seq<State>,
                                       i: nat, op: nat)
    requires IsRun(lay, limit, d, es, ss) && i < |ss| && op < |ss[i].fate| && ss[i].fate[op].Lost?
    ensures CrashedPending(es, ss, i, op)
  {
    if i > 0 {
      RunAt(lay, limit, d, es, ss, i - 1);
      FateFrom(lay, limit, ss[i - 1], es[i - 1], op);
      hide Enabled, Do;
      if ss[i - 1].fate[op].Lost? {
        LostByCrash(lay, limit, d, es, ss, i - 1, op);
      }
    }
  }

  // New operations are pending.
  lemma FateFrom(lay: Layout, limit: nat, s: State, e: Event, op: nat)
    requires Enabled(lay, limit, s, e) && op < |Do(lay, limit, s, e).fate| && Do(lay, limit, s, e).fate[op].Lost?
    ensures op < |s.fate| && (s.fate[op].Lost? || (e.Crash? && s.fate[op].Pending?))
  {
    hide Typed, RecoverWrites, GoodDisk, CommitWrites;
  }

  // Durability. When no operation is outstanding and no commit runs, every
  // operation with updates is in a committed group, unless a crash came before
  // its commit; and there it stays, with all its updates, at every later moment
  // and through every later crash.
  lemma Durability(lay: Layout, limit: nat, d: seq<Block>, es: seq<Event>, ss: seq<State>, i: nat, j: nat, op: nat)
    requires IsRun(lay, limit, d, es, ss) && i <= j < |ss| && op < |ss[i].fate| == |ss[i].issued|
    requires ss[i].phase.Running? && ss[i].active == [] && ss[i].issued[op] != []
    requires !CrashedPending(es, ss, i, op)
    ensures exists g | 0 <= g < |ss[i].groups| <= |ss[j].groups| ::
      Filter(ss[j].groups[g], op) == ss[i].issued[op] && ss[j].groups[g] == ss[i].groups[g]
  {
    RunGroup(lay, limit, d, es, ss, i);
    RunHistory(lay, limit, d, es, ss, i);
    RunLater(lay, limit, d, es, ss, i, j);
    assert Placed(ss[i], op);
    if ss[i].fate[op].Lost? {
      LostByCrash(lay, limit, d, es, ss, i, op);
    }
    FilterNone([], op);
    assert ss[i].fate[op].InGroup?;
    var g := ss[i].fate[op].g;
    assert Filter(ss[i].groups[g], op) == ss[i].issued[op];
  }

  // ---------- log space ----------

  // Reserved but unused log slots, at cap slots per operation.
  ghost function Slack(active: seq<Op>, cap: nat): int {
    if active == [] then 0
    else Slack(active[..|active| - 1], cap) + cap - |active[|active| - 1].blocks|
  }

  lemma {:induction false} SlackSplit(a: seq<Op>, b: seq<Op>, cap: nat)
    ensures Slack(a + b, cap) == Slack(a, cap) + Slack(b, cap)
  {
    if b == [] {
      assert a + b == a;
    } else {
      assert (a + b)[..|a + b| - 1] == a + b[..|b| - 1];
      SlackSplit(a, b[..|b| - 1], cap);
    }
  }

  lemma SlackOne(op: Op, cap: nat)
    ensures Slack([op], cap) == cap - |op.blocks|
  {
    assert [op][..0] == [];
  }

  // Taking the i-th operation apart from the others.
  lemma SlackAt(active: seq<Op>, i: nat, op: Op, cap: nat)
    requires i < |active|
    ensures Slack(active, cap) == Slack(active[..i] + active[i + 1..], cap) + cap - |active[i].blocks|
    ensures Slack(active[i := op], cap) == Slack(active[..i] + active[i + 1..], cap) + cap - |op.blocks|
  {
    assert active == active[..i] + [active[i]] + active[i + 1..];
    assert active[i := op] == active[..i] + [op] + active[i + 1..];
    SlackSplit(active[..i], active[i + 1..], cap);
    SlackSplit(active[..i] + [active[i]], active[i + 1..], cap);
    SlackSplit(active[..i] + [op], active[i + 1..], cap);
    SlackSplit(active[..i], [active[i]], cap);
    SlackSplit(active[..i], [op], cap);
    SlackOne(active[i], cap);
    SlackOne(op, cap);
  }

  lemma {:induction false} SlackBounds(active: seq<Op>, cap: nat)
    requires forall i | 0 <= i < |active| :: |active[i].blocks| <= cap
    ensures 0 <= Slack(active, cap) <= cap * |active|
  {
    if active != [] {
      SlackBounds(active[..|active| - 1], cap);
    }
  }

  ghost predicate SpaceInv(cap: nat, s: State) {
    && (forall i | 0 <= i < |s.active| :: |s.active[i].blocks| <= cap && forall b | b in s.active[i].blocks :: b in s.lh)
    && |s.lh| + Slack(s.active, cap) <= 10 + 2 * cap
    && (s.phase.Running? && s.active == [] ==> s.lh == [])
    && (s.phase.Committing? || s.phase.Recovering? ==> s.active == [])
    && (s.phase.Recovering? ==> s.lh == [])
  }

  lemma BeginSpace(lay: Layout, limit: nat, cap: nat, s: State)
    requires SpaceInv(cap, s) && Enabled(lay, limit, s, Begin) && 9 <= cap <= MAXOPBLOCKS
    ensures SpaceInv(cap, Do(lay, limit, s, Begin))
  {
    hide Typed;
    SlackBounds(s.active, cap);
    SlackSplit(s.active, [Op(|s.fate|, {})], cap);
    SlackOne(Op(|s.fate|, {}), cap);
  }

  lemma LogWriteSpace(lay: Layout, limit: nat, cap: nat, s: State, e: Event)
    requires SpaceInv(cap, s) && e.LogWrite? && Enabled(lay, limit, s, e) && limit <= cap
    ensures SpaceInv(cap, Do(lay, limit, s, e))
  {
    hide Typed, Slack;
    if !TooBig(lay, s) {
      var op, b := s.active[e.i], e.blockno;
      SlackAt(s.active, e.i, Op(op.id, op.blocks + {b}), cap);
      assert op.blocks + {b} == if b in op.blocks then op.blocks else op.blocks + {b};
      var lh := Absorb(s.lh, b);
      assert b in lh by { if b !in s.lh { assert lh[|s.lh|] == b; } }
    }
  }

  lemma EndSpace(lay: Layout, limit: nat, cap: nat, s: State, e: Event)
    requires SpaceInv(cap, s) && e.End? && Enabled(lay, limit, s, e)
    ensures SpaceInv(cap, Do(lay, limit, s, e))
  {
    hide Typed, Slack;
    SlackAt(s.active, e.i, s.active[e.i], cap);
  }

  lemma {:induction false} RunSpace(lay: Layout, limit: nat, cap: nat, d: seq<Block>, es: seq<Event>, ss: seq<State>,
                                    i: nat)
    requires IsRun(lay, limit, d, es, ss) && i < |ss| && limit <= cap && 9 <= cap <= MAXOPBLOCKS
    ensures SpaceInv(cap, ss[i])
  {
    if i > 0 {
      RunSpace(lay, limit, cap, d, es, ss, i - 1);
      RunAt(lay, limit, d, es, ss, i - 1);
      var s, e := ss[i - 1], es[i - 1];
      hide Typed, CommitWrites, RecoverWrites, GoodDisk;
      match e
      case Begin => BeginSpace(lay, limit, cap, s);
      case LogWrite(_, _, _) => LogWriteSpace(lay, limit, cap, s, e);
      case End(_) => EndSpace(lay, limit, cap, s, e);
      case _ =>
    }
  }

  // The logged blocks plus the unused reservations of all outstanding
  // operations never exceed the log, and logged block numbers stay distinct.
  lemma Reservation(lay: Layout, limit: nat, d: seq<Block>, es: seq<Event>, ss: seq<State>, i: nat)
    requires IsRun(lay, limit, d, es, ss) && i < |ss| && limit <= MAXOPBLOCKS
    ensures |ss[i].lh| + Slack(ss[i].active, MAXOPBLOCKS) <= LOGSIZE
    ensures forall k | 0 <= k < |ss[i].active| :: |ss[i].active[k].blocks| <= MAXOPBLOCKS
    ensures Distinct(ss[i].lh)
  {
    RunSpace(lay, limit, MAXOPBLOCKS, d, es, ss, i);
    RunKeeps(lay, limit, d, es, ss, i);
  }

  lemma StepNoPanic(lay: Layout, limit: nat, s: State, e: Event)
    requires Enabled(lay, limit, s, e) && SpaceInv(9, s) && GoodDisk(lay, s.disk) && lay.size == LOGSIZE
    requires !s.phase.Panicked?
    ensures !Do(lay, limit, s, e).phase.Panicked?
  {
    hide Typed, CommitWrites, RecoverWrites, GoodDisk, Slack;
    SlackBounds(s.active, 9);
  }

  // Operations of at most MAXOPBLOCKS - 1 distinct blocks never panic the log.
  lemma {:induction false} NoPanic(lay: Layout, limit: nat, d: seq<Block>, es: seq<Event>, ss: seq<State>, i: nat)
    requires IsRun(lay, limit, d, es, ss) && i < |ss| && limit < MAXOPBLOCKS && lay.size == LOGSIZE
    ensures !ss[i].phase.Panicked?
  {
    if i > 0 {
      NoPanic(lay, limit, d, es, ss, i - 1);
      RunAt(lay, limit, d, es, ss, i - 1);
      RunSpace(lay, limit, 9, d, es, ss, i - 1);
      CrashSafety(lay, limit, d, es, ss, i - 1);
      hide IsRun, Enabled, Do, SpaceInv, GoodDisk;
      StepNoPanic(lay, limit, ss[i - 1], es[i - 1]);
    }
  }

  ghost predicate Reachable(lay: Layout, limit: nat, d: seq<Block>, s: State) {
    exists es, ss :: IsRun(lay, limit, d, es, ss) && ss[|es|] == s
  }

  lemma ReachNext(lay: Layout, limit: nat, d: seq<Block>, s: State, e: Event)
    requires Reachable(lay, limit, d, s) && Enabled(lay, limit, s, e)
    ensures Reachable(lay, limit, d, Do(lay, limit, s, e))
  {
    hide Enabled, Do;
    var es, ss :| IsRun(lay, limit, d, es, ss) && ss[|es|] == s;
    var es', ss' := es + [e], ss + [Do(lay, limit, s, e)];
    forall i | 0 <= i < |es'|
      ensures Enabled(lay, limit, ss'[i], es'[i]) && ss'[i + 1] == Do(lay, limit, ss'[i], es'[i])
    {
      if i < |es| { RunAt(lay, limit, d, es, ss, i); }
    }
    assert IsRun(lay, limit, d, es', ss') && ss'[|es'|] == Do(lay, limit, s, e);
  }

  // Boot: an idle machine is reachable from any recoverable image.
  lemma BootReachable(lay: Layout, limit: nat, d: seq<Block>) returns (s: State)
    requires GoodDisk(lay, d)
    ensures Reachable(lay, limit, d, s) && Typed(lay, s)
    ensures s.phase.Running? && s.lh == [] && s.active == []
  {
    s := Init(d);
    var none: seq<Event> := [];
    assert IsRun(lay, limit, d, none, [s]) && [s][|none|] == s;
    while s.phase.done < |RecoverWrites(lay, d)|
      invariant Reachable(lay, limit, d, s) && Typed(lay, s)
      invariant s.phase.Recovering? && s.phase.base == d && s.lh == [] && s.active == []
      decreases |RecoverWrites(lay, d)| - s.phase.done
    {
      ReachNext(lay, limit, d, s, RecoverWrite);
      s := Do(lay, limit, s, RecoverWrite);
    }
    ReachNext(lay, limit, d, s, RecoverDone);
    s := Do(lay, limit, s, RecoverDone);
  }

  // Three operations are admitted to an idle log: 0, 10 and 20 blocks plus ten
  // stay within LOGSIZE.
  lemma ThreeAdmitted(lay: Layout, limit: nat, d: seq<Block>) returns (s: State)
    requires GoodDisk(lay, d)
    ensures Reachable(lay, limit, d, s) && Typed(lay, s)
    ensures s.phase.Running? && s.lh == [] && |s.active| == 3 && forall j | 0 <= j < 3 :: s.active[j].blocks == {}
  {
    s := BootReachable(lay, limit, d);
    hide Reachable, GoodDisk, RecoverWrites, CommitList;
    for j := 0 to 3
      invariant Reachable(lay, limit, d, s) && Typed(lay, s)
      invariant s.phase.Running? && s.lh == [] && |s.active| == j && forall k | 0 <= k < j :: s.active[k].blocks == {}
    {
      ReachNext(lay, limit, d, s, Begin);
      s := Do(lay, limit, s, Begin);
    }
  }

  // n of the blocks after the log are logged, ten by each operation in turn.
  ghost predicate Filling(lay: Layout, s: State, n: nat) {
    && s.phase.Running? && |s.active| == 3 && |s.lh| == n
    && (forall k | 0 <= k < n :: s.lh[k] == lay.start + lay.size + k)
    && (forall j | 0 <= j < 3 :: |s.active[j].blocks| <= if 10 * j <= n then n - 10 * j else 0)
  }

  // At MAXOPBLOCKS distinct blocks per operation the panic is reachable: three
  // operations of ten blocks are admitted together, and the thirtieth log_write
  // finds log.lh.n at log.size - 1.
  lemma PanicReachable(lay: Layout, limit: nat, d: seq<Block>) returns (s: State)
    requires GoodDisk(lay, d) && limit >= MAXOPBLOCKS
    requires lay.size == LOGSIZE && lay.start + lay.size + LOGSIZE <= lay.nblocks
    ensures Reachable(lay, limit, d, s) && s.phase.Panicked?
  {
    s := ThreeAdmitted(lay, limit, d);
    hide Reachable, GoodDisk, RecoverWrites, CommitList;
    var zero := ZeroBlock();
    for n := 0 to LOGSIZE - 1
      invariant Reachable(lay, limit, d, s) && Typed(lay, s) && Filling(lay, s, n)
    {
      var e := LogWrite(n / 10, lay.start + lay.size + n, zero);
      ReachNext(lay, limit, d, s, e);
      s := Do(lay, limit, s, e);
    }
    var e := LogWrite(2, lay.start + lay.size + 29, zero);
    ReachNext(lay, limit, d, s, e);
    s := Do(lay, limit, s, e);
  }

  // The panic "too big a transaction" is unreachable exactly when operations
  // are held to MAXOPBLOCKS - 1 distinct blocks.
  lemma NoPanicIff(lay: Layout, limit: nat, d: seq<Block>)
    requires GoodDisk(lay, d)
    requires lay.size == LOGSIZE && lay.start + lay.size + LOGSIZE <= lay.nblocks
    ensures (forall s :: Reachable(lay, limit, d, s) ==> !s.phase.Panicked?) <==> limit <= MAXOPBLOCKS - 1
  {
    if limit <= MAXOPBLOCKS - 1 {
      forall s | Reachable(lay, limit, d, s)
        ensures !s.phase.Panicked?
      {
        var es, ss :| IsRun(lay, limit, d, es, ss) && ss[|es|] == s;
        NoPanic(lay, limit, d, es, ss, |es|);
      }
    } else {
      var s := PanicReachable(lay, limit, d);
    }
  }
}
