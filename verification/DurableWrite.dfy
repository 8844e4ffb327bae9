// One write system call through all layers: writei's updates reach the disk in
// one transaction of the log, over the buffer cache.
module DurableWrite {
  import opened Bytes
  import opened BufferCache
  import opened LogSpec
  import opened RedoLog
  import opened FsLayout
  import opened FileSystem
  import opened FsRecovery
  import FS = FsState

  // The file system sees what bread returns, and nothing is outstanding.
  ghost predicate Joined(fs: Fs, log: Log, held: set<nat>)
    reads fs, log, log.block, log.cache, log.cache.bufs
  {
    fs.Valid() && Shows(log, fs.sb, fs.blocks, held)
  }

  ghost predicate Shows(log: Log, sb: SuperBlock, blocks: seq<Block>, held: set<nat>)
    reads log, log.block, log.cache, log.cache.bufs
  {
    && log.Ready() && Fits(log.lay, sb) && MAXOPBLOCKS < log.lay.size
    && SameHome(log.lay, log.cache.Content(), blocks)
    && log.outstanding == 0 && !log.committing && log.n == 0 && log.changed == {}
    && log.HeldBy(held) && |held| + MAXOPBLOCKS < NBUF
  }

  // Boot and mount: recovery, then the inodes as they are on the disk. Whatever a
  // crash left, if it recovers to a sound file system, calls can go on.
  method Mount(image: seq<Block>, lay: Layout, sb: SuperBlock) returns (fs: Fs, log: Log)
    requires GoodDisk(lay, image) && Fits(lay, sb) && MAXOPBLOCKS < lay.size && Sound(sb, Recovered(lay, image))
    ensures fresh(fs) && fresh(log) && log.lay == lay && fs.sb == sb && Joined(fs, log, {})
    ensures SameHome(lay, fs.blocks, Recovered(lay, image))
  {
    hide Linked, LogicalAt, Unique, Coherent, Pinned, SettledBut, GoodList, Logical, Head, SameHome, ApplyWrites;
    hide FS.FsInv, FS.Backed, Recovered, Fits, RecoverImage, RecoverWrites;
    log := Boot(image, lay);
    ghost var d := log.cache.disk;
    HomeBack(lay, d, Recovered(lay, image));
    HomeSound(lay, sb, Recovered(lay, image), d);
    ghost var owner :| SoundBy(sb, d, owner);
    InodesThere(sb, d, owner);
    var v := OnDisk(sb, log.cache.disk);
    fs := new Fs(sb, v.blocks, v.inodes, owner);
    HomeSelf(lay, d);
  }

  lemma InodesThere(sb: SuperBlock, d: seq<Block>, owner: FS.Owners)
    requires sb.Valid() && |d| == sb.size && SoundBy(sb, d, owner)
    ensures forall i: nat | i < sb.ninodes :: sb.IBlock(i) < |d|
  {
  }

  lemma HomeSelf(lay: Layout, a: seq<Block>)
    ensures SameHome(lay, a, a)
  {
  }

  // Whatever prefix of the writes ws reached the disk d, recovery finds a sound
  // file system.
  ghost predicate CrashSound(lay: Layout, sb: SuperBlock, d: seq<Block>, ws: seq<Write>) {
    InRange(ws, |d|) && forall k | 0 <= k <= |ws| :: SoundAfter(lay, sb, ApplyWrites(d, ws[..k]))
  }

  ghost predicate SoundAfter(lay: Layout, sb: SuperBlock, img: seq<Block>) {
    GoodDisk(lay, img) && Sound(sb, Recovered(lay, img))
  }

  lemma PrefixSound(lay: Layout, sb: SuperBlock, d: seq<Block>, e: seq<Block>, ws: seq<Write>)
    requires Fits(lay, sb) && AllOrNothing(lay, d, e, ws) && Sound(sb, d) && Sound(sb, e)
    ensures CrashSound(lay, sb, d, ws)
  {
    hide Sound, Recovered, ApplyWrites, GoodDisk, Fits;
    forall k | 0 <= k <= |ws|
      ensures SoundAfter(lay, sb, ApplyWrites(d, ws[..k]))
    {
      var img := ApplyWrites(d, ws[..k]);
      assert Recovers(lay, img, d, e);
      if SameHome(lay, Recovered(lay, img), d) {
        HomeSound(lay, sb, d, Recovered(lay, img));
      } else {
        HomeSound(lay, sb, e, Recovered(lay, img));
      }
    }
  }

  // The logged blocks with their contents, each once.
  method Updates(blocks: seq<Block>, logged: set<nat>) returns (us: seq<Write>)
    requires forall b | b in logged :: b < |blocks|
    ensures |us| == |logged| && AreUpdates(blocks, logged, us)
  {
    us := [];
    var rest := logged;
    while rest != {}
      invariant rest <= logged && |us| == |logged| - |rest| && AreUpdates(blocks, logged - rest, us)
      decreases |rest|
    {
      var b :| b in rest;
      UpdatesMore(blocks, logged - rest, us, b);
      us := us + [Write(b, blocks[b])];
      assert logged - (rest - {b}) == logged - rest + {b};
      rest := rest - {b};
    }
    assert logged - {} == logged;
  }

  ghost predicate AreUpdates(blocks: seq<Block>, logged: set<nat>, us: seq<Write>) {
    && (forall k | 0 <= k < |us| :: us[k].blockno in logged && us[k].blockno < |blocks| && us[k].data == blocks[us[k].blockno])
    && (forall j, k | 0 <= j < k < |us| :: us[j].blockno != us[k].blockno)
    && (forall b | b in logged :: exists k :: 0 <= k < |us| && us[k].blockno == b)
  }

  lemma UpdatesMore(blocks: seq<Block>, s: set<nat>, us: seq<Write>, b: nat)
    requires AreUpdates(blocks, s, us) && b !in s && b < |blocks|
    ensures AreUpdates(blocks, s + {b}, us + [Write(b, blocks[b])])
  {
    var us' := us + [Write(b, blocks[b])];
    forall c | c in s + {b}
      ensures exists k :: 0 <= k < |us'| && us'[k].blockno == c
    {
      if c == b {
        assert us'[|us|].blockno == c;
      } else {
        var k :| 0 <= k < |us| && us[k].blockno == c;
        assert us'[k].blockno == c;
      }
    }
  }

  // Replaying the updates gives what the file system sees.
  lemma Replayed(lay: Layout, sb: SuperBlock, b0: seq<Block>, b1: seq<Block>, logged: set<nat>, us: seq<Write>,
                 c: seq<Block>)
    requires Fits(lay, sb) && |b0| == sb.size && Tracked(sb, b0, {}, b1, logged) && AreUpdates(b1, logged, us)
    requires SameHome(lay, c, b0)
    ensures InRange(us, lay.nblocks) && forall k | 0 <= k < |us| :: !lay.InLog(us[k].blockno)
    ensures SameHome(lay, ApplyWrites(c, us), b1)
  {
    ApplyAt(c, us);
    hide ApplyWrites;
    forall b | 0 <= b < |c| && !lay.InLog(b)
      ensures ApplyWrites(c, us)[b] == b1[b]
    {
      if k :| 0 <= k < |us| && us[k].blockno == b {
      }
    }
  }

  // From begin_op to end_op of a call that has changed the blocks b0 to those of
  // fs now. Afterwards the disk has them; and a crash after any of the block
  // writes recovers all of the call or nothing, and a sound file system.
  method Commit(fs: Fs, log: Log, ghost b0: seq<Block>, ghost held: set<nat>)
    requires fs.Valid() && Shows(log, fs.sb, b0, held) && Sound(fs.sb, b0)
    requires Tracked(fs.sb, b0, {}, fs.blocks, fs.logged) && |fs.logged| <= MAXOPBLOCKS
    modifies log, log.block, log.cache, log.cache.bufs
    ensures Joined(fs, log, held) && SameHome(log.lay, log.cache.disk, fs.blocks)
    ensures old(log.cache.writes) <= log.cache.writes
    ensures
      var ws := log.cache.writes[|old(log.cache.writes)|..];
      AllOrNothing(log.lay, old(log.cache.disk), log.cache.disk, ws)
      && CrashSound(log.lay, fs.sb, old(log.cache.disk), ws)
  {
    hide Linked, LogicalAt, Unique, Coherent, Pinned, SettledBut, GoodList, Logical, Head, SameHome, ApplyWrites;
    hide FS.FsInv, FS.Backed, Tracked, Fits, AllOrNothing, CrashSound, Sound, AreUpdates;
    ghost var lay, sb, d0 := log.lay, fs.sb, log.cache.disk;
    InvTyped(sb, fs.Now(), fs.owner, {});
    TrackedSize(sb, b0, fs.blocks, fs.logged);
    SoundIs(sb, fs.Now(), fs.owner);
    LoggedInRange(sb, b0, fs.blocks, fs.logged);
    var us := Updates(fs.blocks, fs.logged);
    Replayed(lay, sb, b0, fs.blocks, fs.logged, us, log.cache.Content());
    log.Transaction(us, held);
    HomeBack(lay, d0, b0);
    HomeSound(lay, sb, b0, d0);
    HomeThrough(lay, log.cache.Content(), ApplyWrites(d0, us), fs.blocks);
    HomeBack(lay, log.cache.Content(), fs.blocks);
    HomeSound(lay, sb, fs.blocks, log.cache.disk);
    PrefixSound(lay, sb, d0, log.cache.disk, log.cache.writes[|old(log.cache.writes)|..]);
  }

  // writei of up to one chunk of filewrite, as one transaction.
  method WriteDurably(fs: Fs, log: Log, i: nat, src: seq<Byte>, off: Word32, ghost held: set<nat>)
    returns (res: WriteResult)
    requires Joined(fs, log, held) && i < fs.sb.ninodes && fs.inodes[i].Type() != T_DEV && |src| <= CHUNK
    modifies fs, log, log.block, log.cache, log.cache.bufs
    ensures res.Rejected? <==>
      off > old(fs.inodes[i].size) || off + |src| >= TWO32 || off + |src| > MAXFILE * BSIZE
    ensures res.Rejected? ==> fs.Now() == old(fs.Now())
    ensures !res.Written? ==> log.cache.disk == old(log.cache.disk) && log.cache.writes == old(log.cache.writes)
    ensures res.OutOfBlocks? ==>
      fs.sb.Valid() && |fs.blocks| == fs.sb.size && forall b: nat | b < fs.sb.size :: FS.Bit(fs.sb, fs.blocks, b)
    ensures PastEnd(off, |src|) <= MAXFILE || res.Rejected?
    ensures !res.Rejected? ==>
      (res.OutOfBlocks? <==>
       Space(fs.sb, old(fs.owner)) < Needed(old(fs.Now()), i, off / BSIZE, PastEnd(off, |src|)))
    ensures !res.OutOfBlocks? ==> Joined(fs, log, held)
    ensures res.Written? ==> res.n == |src| && WroteFile(fs.sb, old(fs.Now()), fs.Now(), i, off, src)
    ensures res.Written? ==> SameHome(log.lay, log.cache.disk, fs.blocks)
    ensures res.Written? ==> old(log.cache.writes) <= log.cache.writes
    ensures res.Written? ==>
      var ws := log.cache.writes[|old(log.cache.writes)|..];
      AllOrNothing(log.lay, old(log.cache.disk), log.cache.disk, ws)
      && CrashSound(log.lay, fs.sb, old(log.cache.disk), ws)
  {
    hide FS.FsInv, FS.Backed, FS.Bit, WroteFile, Tracked, AllOrNothing, CrashSound, Sound, LogBound, SameHome;
    hide Filling, Needed, PastEnd, Space, Shows;
    ghost var b0 := fs.blocks;
    InvTyped(fs.sb, fs.Now(), fs.owner, {});
    SoundIs(fs.sb, fs.Now(), fs.owner);
    fs.logged := {};
    res := fs.WriteI(i, src, off);
    if res.Written? {
      ChunkBound(off, |src|, fs.sb.NBitmap());
      Commit(fs, log, b0, held);
    }
  }

  // itrunc, as one transaction. It has to fit: there are at most nine bitmap
  // blocks.
  method TruncDurably(fs: Fs, log: Log, i: nat, ghost held: set<nat>)
    requires Joined(fs, log, held) && i < fs.sb.ninodes && fs.sb.NBitmap() < MAXOPBLOCKS
    modifies fs, log, log.block, log.cache, log.cache.bufs
    ensures Joined(fs, log, held) && SameHome(log.lay, log.cache.disk, fs.blocks)
    ensures fs.inodes == old(fs.inodes)[i := old(fs.inodes)[i].(size := 0, addrs := seq(NDIRECT + 1, _ => 0))]
    ensures fs.owner == Others(old(fs.owner), i)
    ensures forall j: nat | j < fs.sb.ninodes && j != i ::
      FS.Content(fs.Now(), j) == FS.Content(old(fs.Now()), j)
    ensures old(log.cache.writes) <= log.cache.writes
    ensures
      var ws := log.cache.writes[|old(log.cache.writes)|..];
      AllOrNothing(log.lay, old(log.cache.disk), log.cache.disk, ws)
      && CrashSound(log.lay, fs.sb, old(log.cache.disk), ws)
  {
    hide FS.Referenced, FS.Owned, FS.BitmapIs, FS.Synced, FS.Bit, FS.Content, Tracked, AllOrNothing, CrashSound, Sound;
    hide SameHome, Shows;
    ghost var b0 := fs.blocks;
    SoundIs(fs.sb, fs.Now(), fs.owner);
    fs.logged := {};
    fs.ITrunc(i);
    assert fs.logged - {} == fs.logged;
    Commit(fs, log, b0, held);
  }

  lemma TrackedSize(sb: SuperBlock, b0: seq<Block>, b1: seq<Block>, logged: set<nat>)
    requires Tracked(sb, b0, {}, b1, logged)
    ensures |b1| == |b0|
  {
  }

  lemma LoggedInRange(sb: SuperBlock, b0: seq<Block>, b1: seq<Block>, logged: set<nat>)
    requires Tracked(sb, b0, {}, b1, logged)
    ensures forall b | b in logged :: b < |b1|
  {
  }

  lemma HomeBack(lay: Layout, a: seq<Block>, b: seq<Block>)
    requires SameHome(lay, a, b)
    ensures SameHome(lay, b, a)
  {
  }

  lemma HomeThrough(lay: Layout, a: seq<Block>, b: seq<Block>, c: seq<Block>)
    requires SameHome(lay, a, b) && SameHome(lay, b, c)
    ensures SameHome(lay, a, c)
  {
  }
}
