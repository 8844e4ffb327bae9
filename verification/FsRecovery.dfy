// fs.c over log.c: a file system whose operations keep ownership keeps it
// through every crash and recovery.
module FsRecovery {
  import opened Bytes
  import opened LogSpec
  import opened GroupCommit
  import opened FsLayout
  import FS = FsState

  // mkfs puts the log before the inodes.
  ghost predicate Fits(lay: Layout, sb: SuperBlock) {
    && lay.Valid() && sb.Valid() && sb.size == lay.nblocks
    && lay.start + lay.size <= sb.inodestart <= sb.bmapstart
  }

  // What iinit and ilock find on a disk: every inode as it is there.
  function OnDisk(sb: SuperBlock, blocks: seq<Block>): FS.Vol
    requires forall i: nat | i < sb.ninodes :: sb.IBlock(i) < |blocks|
  {
    FS.Vol(blocks, seq(sb.ninodes, i requires 0 <= i < sb.ninodes => FS.DiskInode(sb, blocks, i)))
  }

  ghost predicate SoundBy(sb: SuperBlock, blocks: seq<Block>, owner: FS.Owners)
    requires sb.Valid() && |blocks| == sb.size
  {
    FS.FsInv(sb, OnDisk(sb, blocks), owner, {}, {}) && FS.Backed(sb, OnDisk(sb, blocks))
  }

  // The file system's own invariant holds of what is on the disk.
  ghost predicate Sound(sb: SuperBlock, blocks: seq<Block>) {
    sb.Valid() && |blocks| == sb.size && exists owner :: SoundBy(sb, blocks, owner)
  }

  // The calls of Fs leave a sound disk, and can start from one.
  lemma SoundIs(sb: SuperBlock, v: FS.Vol, owner: FS.Owners)
    requires FS.FsInv(sb, v, owner, {}, {}) && FS.Backed(sb, v)
    ensures Sound(sb, v.blocks) && OnDisk(sb, v.blocks) == v
  {
    assert OnDisk(sb, v.blocks).inodes == v.inodes;
    assert SoundBy(sb, v.blocks, owner);
  }

  lemma HomeInode(lay: Layout, sb: SuperBlock, a: seq<Block>, b: seq<Block>, i: nat)
    requires Fits(lay, sb) && |a| == sb.size && SameHome(lay, a, b) && i < sb.ninodes
    ensures FS.DiskInode(sb, a, i) == FS.DiskInode(sb, b, i)
  {
    hide DecodeInode;
    assert sb.inodestart <= sb.IBlock(i);
  }

  lemma HomeSlot(lay: Layout, sb: SuperBlock, v: FS.Vol, w: FS.Vol, owner: FS.Owners, j: nat, t: nat)
    requires Fits(lay, sb) && FS.Typed(sb, v) && FS.Referenced(sb, v, owner, {}) && FS.Owned(sb, v, owner, {})
    requires SameHome(lay, v.blocks, w.blocks) && w.inodes == v.inodes && j < sb.ninodes && t < FS.NSLOTS
    ensures FS.Slot(w, j, t) == FS.Slot(v, j, t)
  {
    hide Word, FS.SlotIn, FS.Owned, FS.Referenced;
    if v.inodes[j].addrs[FS.IND] != 0 { FS.IndirectOwned(sb, v, owner, {}, j); }
    FS.SlotFrame(v.inodes[j], v.blocks, w.blocks, t);
  }

  lemma HomeInv(lay: Layout, sb: SuperBlock, v: FS.Vol, w: FS.Vol, owner: FS.Owners)
    requires Fits(lay, sb) && FS.FsInv(sb, v, owner, {}, {}) && FS.Backed(sb, v)
    requires SameHome(lay, v.blocks, w.blocks) && w.inodes == v.inodes
    ensures FS.FsInv(sb, w, owner, {}, {}) && FS.Backed(sb, w)
  {
    hide FS.Slot, FS.DiskInode, FS.Bit;
    forall j: nat, t: nat | j < sb.ninodes && t < FS.NSLOTS
      ensures FS.Slot(w, j, t) == FS.Slot(v, j, t)
    {
      HomeSlot(lay, sb, v, w, owner, j, t);
    }
    forall i: nat | i < sb.ninodes
      ensures FS.DiskInode(sb, v.blocks, i) == FS.DiskInode(sb, w.blocks, i)
    {
      HomeInode(lay, sb, v.blocks, w.blocks, i);
    }
    FS.BitmapFrame(sb, v.blocks, w.blocks, owner.Keys);
  }

  // Blocks of the log do not matter.
  lemma HomeSound(lay: Layout, sb: SuperBlock, a: seq<Block>, b: seq<Block>)
    requires Fits(lay, sb) && Sound(sb, a) && SameHome(lay, a, b)
    ensures Sound(sb, b)
  {
    var owner :| SoundBy(sb, a, owner);
    forall i: nat | i < sb.ninodes
      ensures FS.DiskInode(sb, a, i) == FS.DiskInode(sb, b, i)
    {
      HomeInode(lay, sb, a, b, i);
    }
    hide FS.DiskInode, FS.FsInv, FS.Backed;
    assert OnDisk(sb, a).inodes == OnDisk(sb, b).inodes;
    HomeInv(lay, sb, OnDisk(sb, a), OnDisk(sb, b), owner);
    assert SoundBy(sb, b, owner);
  }

  // Events k..m: operations from the moment none was outstanding until none is
  // again, without a crash.
  ghost predicate Batch(es: seq<Event>, ss: seq<State>, k: nat, m: nat)
    requires |ss| == |es| + 1
  {
    && k < m < |es| && es[k].Begin? && ss[k].active == [] && es[m].End? && ss[m + 1].active == []
    && forall j | k < j <= m :: Busy(es, ss, j)
  }

  ghost predicate Busy(es: seq<Event>, ss: seq<State>, j: nat)
    requires j < |es| < |ss|
  {
    ss[j].active != [] && !es[j].Crash?
  }

  // Operations that find a sound file system leave one when they have ended. With
  // one operation at a time that is what Fs proves of each call.
  ghost predicate BatchesKeep(sb: SuperBlock, es: seq<Event>, ss: seq<State>)
    requires |ss| == |es| + 1
  {
    forall k: nat, m: nat | Batch(es, ss, k, m) && Sound(sb, ss[k].cache) :: Sound(sb, ss[m].cache)
  }

  // A batch has begun on a sound file system.
  ghost predicate Begun(sb: SuperBlock, es: seq<Event>, ss: seq<State>, i: nat)
    requires i <= |es| < |ss|
  {
    exists k: nat :: k < i && es[k].Begin? && ss[k].active == [] && Sound(sb, ss[k].cache)
                     && forall j | k < j < i :: Busy(es, ss, j)
  }

  ghost predicate SoundInv(lay: Layout, sb: SuperBlock, d: seq<Block>, es: seq<Event>, ss: seq<State>, i: nat)
    requires i <= |es| < |ss| && GoodDisk(lay, d)
  {
    && Sound(sb, Durable(lay, d, ss[i]))
    && (ss[i].phase.Committing? ==> Sound(sb, ss[i].cache))
    && (ss[i].phase.Running? && ss[i].active != [] ==> Begun(sb, es, ss, i))
  }

  lemma QuietHome(lay: Layout, d: seq<Block>, s: State)
    requires DataInv(lay, d, s) && GroupInv(s) && s.phase.Running? && s.active == []
    ensures SameHome(lay, Durable(lay, d, s), s.cache)
  {
    hide Durable;
  }

  // After the header write.
  lemma CommittedHome(lay: Layout, d: seq<Block>, s: State)
    requires DataInv(lay, d, s) && s.phase.Committing? && s.group == []
    ensures SameHome(lay, s.cache, Durable(lay, d, s))
  {
    hide Durable;
  }

  lemma DurableSame(lay: Layout, d: seq<Block>, s: State, s': State)
    requires GoodDisk(lay, d) && s'.groups == s.groups
    ensures Durable(lay, d, s') == Durable(lay, d, s)
  {
  }

  // What one event does to the phase, the outstanding operations, the cache and
  // the committed groups.
  ghost predicate Moves(s: State, e: Event, s': State) {
    match e
    case Begin => s.phase.Running? && s'.phase.Running? && s'.active != [] && s'.groups == s.groups
    case LogWrite(_, _, _) =>
      && s'.groups == s.groups && s.active != []
      && (s'.phase.Panicked? || (s.phase.Running? && s'.phase.Running?))
    case End(_) =>
      && s'.groups == s.groups && s.active != [] && s'.cache == s.cache
      && (s'.phase.Panicked? || s.phase.Running?)
      && (s'.phase.Committing? ==> s'.active == [])
    case CommitWrite =>
      && s.phase.Committing? && s'.phase.Committing? && s'.cache == s.cache
      && (s'.groups == s.groups || s'.group == [])
    case CommitDone => s'.phase.Running? && s'.active == [] && s'.groups == s.groups
    case Crash => !s'.phase.Running? && !s'.phase.Committing? && s'.groups == s.groups
    case RecoverWrite => s'.phase.Recovering? && s'.groups == s.groups
    case RecoverDone => s'.phase.Running? && s'.active == [] && s'.groups == s.groups
  }

  lemma DoMoves(lay: Layout, limit: nat, d: seq<Block>, s: State, e: Event)
    requires Enabled(lay, limit, s, e) && HistoryInv(s)
    ensures Moves(s, e, Do(lay, limit, s, e))
  {
    hide Filter, Typed, CommitWrites, RecoverWrites, GoodDisk, Placed;
  }

  lemma BegunMore(sb: SuperBlock, es: seq<Event>, ss: seq<State>, i: nat)
    requires i < |es| < |ss| && Begun(sb, es, ss, i) && Busy(es, ss, i)
    ensures Begun(sb, es, ss, i + 1)
  {
    hide Sound, Busy;
  }

  lemma BegunEnds(sb: SuperBlock, es: seq<Event>, ss: seq<State>, i: nat)
    requires |ss| == |es| + 1 && i < |es| && Begun(sb, es, ss, i) && Busy(es, ss, i) && BatchesKeep(sb, es, ss)
    requires es[i].End? && ss[i + 1].active == []
    ensures Sound(sb, ss[i].cache)
  {
    hide Sound, Busy;
    var k: nat :| k < i && es[k].Begin? && ss[k].active == [] && Sound(sb, ss[k].cache)
                  && forall j | k < j < i :: Busy(es, ss, j);
    assert Batch(es, ss, k, i);
  }

  lemma StepSound(lay: Layout, sb: SuperBlock, d: seq<Block>, es: seq<Event>, ss: seq<State>, i: nat)
    requires Fits(lay, sb) && |ss| == |es| + 1 && i < |es| && GoodDisk(lay, d)
    requires Moves(ss[i], es[i], ss[i + 1])
    requires DataInv(lay, d, ss[i]) && DataInv(lay, d, ss[i + 1]) && GroupInv(ss[i])
    requires SoundInv(lay, sb, d, es, ss, i) && BatchesKeep(sb, es, ss)
    ensures SoundInv(lay, sb, d, es, ss, i + 1)
  {
    hide Durable, Sound, DataInv, GroupInv, Begun, BatchesKeep, GoodDisk;
    var s, s', e := ss[i], ss[i + 1], es[i];
    if s'.groups == s.groups { DurableSame(lay, d, s, s'); }
    if e.Begin? && s.active == [] {
      QuietHome(lay, d, s);
      HomeSound(lay, sb, Durable(lay, d, s), s.cache);
      BegunNow(sb, es, ss, i);
    } else if (e.Begin? || e.LogWrite? || e.End?) && s.phase.Running? {
      BegunMore(sb, es, ss, i);
      if e.End? && s'.active == [] { BegunEnds(sb, es, ss, i); }
    } else if e.CommitWrite? && s'.groups != s.groups {
      CommittedHome(lay, d, s');
      HomeSound(lay, sb, s'.cache, Durable(lay, d, s'));
    }
  }

  lemma BegunNow(sb: SuperBlock, es: seq<Event>, ss: seq<State>, i: nat)
    requires i < |es| < |ss| && es[i].Begin? && ss[i].active == [] && Sound(sb, ss[i].cache)
    ensures Begun(sb, es, ss, i + 1)
  {
    hide Sound;
  }

  lemma {:induction false} RunSound(lay: Layout, sb: SuperBlock, limit: nat, d: seq<Block>, es: seq<Event>,
                                    ss: seq<State>,
                                    i: nat)
    requires IsRun(lay, limit, d, es, ss) && i <= |es| && Fits(lay, sb)
    requires Sound(sb, Recovered(lay, d)) && BatchesKeep(sb, es, ss)
    ensures SoundInv(lay, sb, d, es, ss, i)
  {
    hide Enabled, Do, DataInv, HistoryInv, GroupInv, Moves, Recovered, Sound, BatchesKeep;
    if i == 0 {
      assert Durable(lay, d, ss[0]) == Recovered(lay, d);
    } else {
      hide SoundInv;
      RunSound(lay, sb, limit, d, es, ss, i - 1);
      RunKeeps(lay, limit, d, es, ss, i - 1);
      RunKeeps(lay, limit, d, es, ss, i);
      RunHistory(lay, limit, d, es, ss, i - 1);
      RunGroup(lay, limit, d, es, ss, i - 1);
      RunAt(lay, limit, d, es, ss, i - 1);
      DoMoves(lay, limit, d, ss[i - 1], es[i - 1]);
      StepSound(lay, sb, d, es, ss, i - 1);
    }
  }

  // If operations keep a sound file system sound, the disk recovers to a sound
  // one at every moment of every run, wherever crashes fell.
  lemma Survives(lay: Layout, sb: SuperBlock, limit: nat, d: seq<Block>, es: seq<Event>, ss: seq<State>, i: nat)
    requires IsRun(lay, limit, d, es, ss) && i <= |es| && Fits(lay, sb)
    requires Sound(sb, Recovered(lay, d)) && BatchesKeep(sb, es, ss)
    ensures GoodDisk(lay, ss[i].disk) && Sound(sb, Recovered(lay, ss[i].disk))
  {
    hide Recovered, Sound, BatchesKeep, Durable;
    RunSound(lay, sb, limit, d, es, ss, i);
    CrashSafety(lay, limit, d, es, ss, i);
    HomeSound(lay, sb, Durable(lay, d, ss[i]), Recovered(lay, ss[i].disk));
  }
}
