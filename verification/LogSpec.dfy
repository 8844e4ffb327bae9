// What the redo log of log.c writes, block by block, and what recovery makes
// of the disk that any prefix of those writes leaves behind.
module LogSpec {
  import opened Bytes
  import opened BufferCache

  const LOGSIZE: nat := 30

  // sb.logstart and sb.nlog; block start holds the header, start+1.. the log.
  datatype Layout = Layout(start: nat, size: nat, nblocks: nat) {
    predicate Valid() {
      0 < size && start + size <= nblocks <= TWO32
    }

    predicate InLog(b: nat) {
      start <= b < start + size
    }
  }

  // ---------- block writes ----------

  predicate InRange(ws: seq<Write>, n: nat) {
    forall i | 0 <= i < |ws| :: ws[i].blockno < n
  }

  function ApplyWrites(d: seq<Block>, ws: seq<Write>): (r: seq<Block>)
    requires InRange(ws, |d|)
    ensures |r| == |d|
  {
    if ws == [] then d
    else
      var last := ws[|ws| - 1];
      ApplyWrites(d, ws[..|ws| - 1])[last.blockno := last.data]
  }

  lemma {:induction false} ApplySplit(d: seq<Block>, us: seq<Write>, vs: seq<Write>)
    requires InRange(us, |d|) && InRange(vs, |d|)
    ensures InRange(us + vs, |d|)
    ensures ApplyWrites(d, us + vs) == ApplyWrites(ApplyWrites(d, us), vs)
  {
    if vs == [] {
      assert us + vs == us;
    } else {
      assert (us + vs)[..|us + vs| - 1] == us + vs[..|vs| - 1];
      ApplySplit(d, us, vs[..|vs| - 1]);
    }
  }

  ghost predicate Distinct<T(!new)>(s: seq<T>) {
    forall i, j | 0 <= i < |s| && 0 <= j < |s| && i != j :: s[i] != s[j]
  }

  // Writes to pairwise different blocks: each target gets its data, all other
  // blocks stay.
  lemma {:induction false} ApplyAt(d: seq<Block>, ws: seq<Write>)
    requires InRange(ws, |d|)
    requires forall i, j | 0 <= i < j < |ws| :: ws[i].blockno != ws[j].blockno
    ensures forall i | 0 <= i < |ws| :: ApplyWrites(d, ws)[ws[i].blockno] == ws[i].data
    ensures forall b | 0 <= b < |d| && (forall i | 0 <= i < |ws| :: ws[i].blockno != b) ::
      ApplyWrites(d, ws)[b] == d[b]
  {
    if ws != [] {
      ApplyAt(d, ws[..|ws| - 1]);
    }
  }

  // ---------- the log header ----------

  function EncodeBlocks(h: Block, bl: seq<Word32>): Block
    requires |bl| <= LOGSIZE
  {
    if bl == [] then h
    else SetWord(EncodeBlocks(h, bl[..|bl| - 1]), |bl|, bl[|bl| - 1])
  }

  // write_head on top of the header block h: entries beyond n keep old words.
  function EncodeHead(h: Block, bl: seq<Word32>): Block
    requires |bl| <= LOGSIZE
  {
    EncodeBlocks(SetWord(h, 0, |bl|), bl)
  }

  predicate HeadOk(h: Block) {
    Word(h, 0) <= LOGSIZE
  }

  // read_head.
  function Head(h: Block): (bl: seq<Word32>)
    requires HeadOk(h)
  {
    seq(Word(h, 0), i requires 0 <= i < Word(h, 0) => Word(h, 1 + i))
  }

  lemma {:induction false} WordOfEncodeBlocks(h: Block, bl: seq<Word32>, i: nat)
    requires |bl| <= LOGSIZE && i < WORDS
    ensures Word(EncodeBlocks(h, bl), i) == if 1 <= i <= |bl| then bl[i - 1] else Word(h, i)
  {
    hide Word, SetWord;
    if bl != [] {
      WordOfEncodeBlocks(h, bl[..|bl| - 1], i);
      WordOfSetWord(EncodeBlocks(h, bl[..|bl| - 1]), |bl|, bl[|bl| - 1], i);
    }
  }

  // The header block written for bl reads back as bl.
  lemma HeadOfEncode(h: Block, bl: seq<Word32>)
    requires |bl| <= LOGSIZE
    ensures HeadOk(EncodeHead(h, bl)) && Head(EncodeHead(h, bl)) == bl
  {
    hide Word, SetWord, EncodeBlocks;
    WordOfSetWord(h, 0, |bl|, 0);
    WordOfEncodeBlocks(SetWord(h, 0, |bl|), bl, 0);
    forall i | 0 <= i < |bl|
      ensures Word(EncodeHead(h, bl), 1 + i) == bl[i]
    {
      WordOfEncodeBlocks(SetWord(h, 0, |bl|), bl, 1 + i);
    }
  }

  // ---------- commit and recovery as lists of block writes ----------

  // A list of home blocks a transaction may log.
  ghost predicate GoodList(lay: Layout, bl: seq<Word32>) {
    && |bl| <= lay.size - 1 && |bl| <= LOGSIZE
    && Distinct(bl)
    && forall i | 0 <= i < |bl| :: bl[i] < lay.nblocks && !lay.InLog(bl[i])
  }

  // write_log.
  function Copies(lay: Layout, vals: seq<Block>): (ws: seq<Write>)
    ensures |ws| == |vals|
    ensures forall i | 0 <= i < |ws| :: ws[i] == Write(lay.start + 1 + i, vals[i])
  {
    seq(|vals|, i requires 0 <= i < |vals| => Write(lay.start + 1 + i, vals[i]))
  }

  // install_trans.
  function Installs(bl: seq<Word32>, vals: seq<Block>): (ws: seq<Write>)
    requires |bl| == |vals|
    ensures |ws| == |bl|
    ensures forall i | 0 <= i < |ws| :: ws[i] == Write(bl[i], vals[i])
  {
    seq(|bl|, i requires 0 <= i < |bl| => Write(bl[i], vals[i]))
  }

  // commit, for logged blocks bl with contents vals and header block h.
  function CommitWrites(lay: Layout, h: Block, bl: seq<Word32>, vals: seq<Block>): seq<Write>
    requires |bl| == |vals| <= LOGSIZE
  {
    if bl == [] then []
    else
      var h1 := EncodeHead(h, bl);
      Copies(lay, vals) + [Write(lay.start, h1)] + Installs(bl, vals) + [Write(lay.start, EncodeHead(h1, []))]
  }

  // A disk whose log header names a well-formed transaction.
  ghost predicate GoodDisk(lay: Layout, d: seq<Block>) {
    && lay.Valid() && |d| == lay.nblocks
    && HeadOk(d[lay.start]) && GoodList(lay, Head(d[lay.start]))
  }

  // The zeroed disk of mkfs has an empty log, so good disks exist.
  lemma ZeroDiskGood(lay: Layout)
    requires lay.Valid()
    ensures var d := seq(lay.nblocks, _ => ZeroBlock());
      GoodDisk(lay, d) && Head(d[lay.start]) == [] && Recovered(lay, d) == d
  {
    WordOfZeroBlock(0);
    EmptyHeadRecovered(lay, seq(lay.nblocks, _ => ZeroBlock()));
  }

  function LogVals(lay: Layout, d: seq<Block>, n: nat): seq<Block>
    requires lay.Valid() && |d| == lay.nblocks && n < lay.size
  {
    d[lay.start + 1..lay.start + 1 + n]
  }

  // recover_from_log.
  ghost function RecoverWrites(lay: Layout, d: seq<Block>): seq<Write>
    requires GoodDisk(lay, d)
  {
    var bl := Head(d[lay.start]);
    Installs(bl, LogVals(lay, d, |bl|)) + [Write(lay.start, EncodeHead(d[lay.start], []))]
  }

  // The image that a completed recovery of d would install.
  ghost function Recovered(lay: Layout, d: seq<Block>): seq<Block>
    requires GoodDisk(lay, d)
  {
    var bl := Head(d[lay.start]);
    ApplyWrites(d, Installs(bl, LogVals(lay, d, |bl|)))
  }

  ghost predicate SameHome(lay: Layout, d: seq<Block>, e: seq<Block>) {
    |d| == |e| && forall b | 0 <= b < |d| && !lay.InLog(b) :: d[b] == e[b]
  }

  lemma InstallsAt(d: seq<Block>, bl: seq<Word32>, vals: seq<Block>, k: nat)
    requires k <= |bl| == |vals| && Distinct(bl) && forall i | 0 <= i < |bl| :: bl[i] < |d|
    ensures InRange(Installs(bl, vals)[..k], |d|)
    ensures var r := ApplyWrites(d, Installs(bl, vals)[..k]);
      && (forall i | 0 <= i < k :: r[bl[i]] == vals[i])
      && (forall b | 0 <= b < |d| && b !in bl[..k] :: r[b] == d[b])
  {
    hide ApplyWrites, Distinct;
    var ws := Installs(bl, vals)[..k];
    forall i, j | 0 <= i < j < |ws|
      ensures ws[i].blockno != ws[j].blockno
    {
      DistinctAt(bl, i, j);
    }
    ApplyAt(d, ws);
    var r := ApplyWrites(d, ws);
    forall i | 0 <= i < k
      ensures r[bl[i]] == vals[i]
    {
      assert ws[i] == Write(bl[i], vals[i]);
    }
    forall b | 0 <= b < |d| && b !in bl[..k]
      ensures r[b] == d[b]
    {
      forall i | 0 <= i < |ws|
        ensures ws[i].blockno != b
      {
        assert ws[i].blockno == bl[..k][i];
      }
    }
  }

  lemma DistinctAt<T(!new)>(s: seq<T>, i: nat, j: nat)
    requires Distinct(s) && i < j < |s|
    ensures s[i] != s[j]
  {
  }

  // Installing the logged blocks over a partial installation of them gives
  // the full installation.
  lemma Reinstall(lay: Layout, d: seq<Block>, img: seq<Block>, bl: seq<Word32>, vals: seq<Block>, k: nat)
    requires lay.Valid() && |d| == lay.nblocks == |img| && GoodList(lay, bl) && |vals| == |bl| && k <= |bl|
    requires HeadOk(img[lay.start]) && Head(img[lay.start]) == bl && LogVals(lay, img, |bl|) == vals
    requires forall i | 0 <= i < k :: img[bl[i]] == vals[i]
    requires forall b | 0 <= b < |d| && !lay.InLog(b) && b !in bl[..k] :: img[b] == d[b]
    ensures GoodDisk(lay, img)
    ensures InRange(Installs(bl, vals), |d|)
    ensures SameHome(lay, Recovered(lay, img), ApplyWrites(d, Installs(bl, vals)))
  {
    var ws := Installs(bl, vals);
    assert ws[..|bl|] == ws && bl[..|bl|] == bl;
    InstallsAt(img, bl, vals, |bl|);
    InstallsAt(d, bl, vals, |bl|);
    var r, s := ApplyWrites(img, ws), ApplyWrites(d, ws);
    forall b | 0 <= b < |d| && !lay.InLog(b)
      ensures r[b] == s[b]
    {
      if b !in bl {
        assert b !in bl[..k];
      }
    }
  }

  // ---------- crash atomicity ----------

  // The image after the first k block writes of a commit.
  ghost function CommitImage(lay: Layout, d: seq<Block>, bl: seq<Word32>, vals: seq<Block>, k: nat): (r: seq<Block>)
    requires lay.Valid() && |d| == lay.nblocks && GoodList(lay, bl) && |vals| == |bl|
    requires k <= |CommitWrites(lay, d[lay.start], bl, vals)|
    ensures |r| == |d|
  {
    CommitInRange(lay, d[lay.start], bl, vals);
    ApplyWrites(d, CommitWrites(lay, d[lay.start], bl, vals)[..k])
  }

  // The home blocks after a committed transaction.
  ghost function Installed(lay: Layout, d: seq<Block>, bl: seq<Word32>, vals: seq<Block>): (r: seq<Block>)
    requires lay.Valid() && |d| == lay.nblocks && GoodList(lay, bl) && |vals| == |bl|
    ensures |r| == |d|
  {
    ApplyWrites(d, Installs(bl, vals))
  }

  lemma CommitInRange(lay: Layout, h: Block, bl: seq<Word32>, vals: seq<Block>)
    requires lay.Valid() && GoodList(lay, bl) && |vals| == |bl|
    ensures InRange(CommitWrites(lay, h, bl, vals), lay.nblocks)
  {
  }

  lemma CopiesAt(lay: Layout, d: seq<Block>, vals: seq<Block>, k: nat)
    requires lay.Valid() && |d| == lay.nblocks && |vals| < lay.size && k <= |vals|
    ensures InRange(Copies(lay, vals)[..k], |d|)
    ensures var r := ApplyWrites(d, Copies(lay, vals)[..k]);
      && (forall i | 0 <= i < k :: r[lay.start + 1 + i] == vals[i])
      && (forall b | 0 <= b < |d| && !(lay.start < b <= lay.start + k) :: r[b] == d[b])
  {
    hide ApplyWrites;
    var ws := Copies(lay, vals)[..k];
    ApplyAt(d, ws);
    var r := ApplyWrites(d, ws);
    forall i | 0 <= i < k
      ensures r[lay.start + 1 + i] == vals[i]
    {
      assert ws[i] == Write(lay.start + 1 + i, vals[i]);
    }
  }

  // Up to the header write the header and the home blocks are untouched.
  lemma CommitCrashCopying(lay: Layout, d: seq<Block>, bl: seq<Word32>, vals: seq<Block>, k: nat)
    requires lay.Valid() && |d| == lay.nblocks && GoodList(lay, bl) && k <= |vals| == |bl|
    requires HeadOk(d[lay.start]) && Head(d[lay.start]) == []
    requires bl != [] && k <= |CommitWrites(lay, d[lay.start], bl, vals)|
    ensures GoodDisk(lay, CommitImage(lay, d, bl, vals, k))
    ensures SameHome(lay, Recovered(lay, CommitImage(lay, d, bl, vals, k)), d)
  {
    hide Word, EncodeHead;
    var ws := CommitWrites(lay, d[lay.start], bl, vals);
    assert ws[..k] == Copies(lay, vals)[..k];
    CopiesAt(lay, d, vals, k);
    var img := CommitImage(lay, d, bl, vals, k);
    assert img[lay.start] == d[lay.start];
    assert Installs([], LogVals(lay, img, 0)) == [];
  }

  // Once the header names the transaction: what has been installed after j of
  // its blocks, block by block.
  lemma InstallingImage(lay: Layout, d: seq<Block>, bl: seq<Word32>, vals: seq<Block>, j: nat)
    requires lay.Valid() && |d| == lay.nblocks && GoodList(lay, bl) && j <= |vals| == |bl|
    requires bl != []
    ensures |bl| + 1 + j <= |CommitWrites(lay, d[lay.start], bl, vals)|
    ensures var img := CommitImage(lay, d, bl, vals, |bl| + 1 + j);
      && img[lay.start] == EncodeHead(d[lay.start], bl)
      && LogVals(lay, img, |bl|) == vals
      && (forall i | 0 <= i < j :: img[bl[i]] == vals[i])
      && (forall b | 0 <= b < |d| && !lay.InLog(b) && b !in bl[..j] :: img[b] == d[b])
  {
    hide Word, EncodeHead, ApplyWrites;
    var ws := CommitWrites(lay, d[lay.start], bl, vals);
    var h1 := EncodeHead(d[lay.start], bl);
    var copies, head := Copies(lay, vals), [Write(lay.start, h1)];
    assert copies[..|bl|] == copies;
    CopiesAt(lay, d, vals, |bl|);
    var e0 := ApplyWrites(d, copies);
    var e1 := e0[lay.start := h1];
    ApplySplit(d, copies, head);
    assert ApplyWrites(e0, head) == e1 by { ApplyOne(e0, head[0]); }
    InstallsAt(e1, bl, vals, j);
    ApplySplit(d, copies + head, Installs(bl, vals)[..j]);
    assert ws[..|bl| + 1 + j] == copies + head + Installs(bl, vals)[..j];
    var img := CommitImage(lay, d, bl, vals, |bl| + 1 + j);
    assert img == ApplyWrites(e1, Installs(bl, vals)[..j]);
    forall b | lay.start <= b < lay.start + lay.size
      ensures img[b] == e1[b]
    {
      assert b !in bl[..j];
    }
    assert LogVals(lay, img, |bl|) == vals;
  }

  lemma ApplyOne(d: seq<Block>, w: Write)
    requires w.blockno < |d|
    ensures ApplyWrites(d, [w]) == d[w.blockno := w.data]
  {
    assert [w][..0] == [];
  }

  lemma CommitCrashInstalling(lay: Layout, d: seq<Block>, bl: seq<Word32>, vals: seq<Block>, j: nat)
    requires lay.Valid() && |d| == lay.nblocks && GoodList(lay, bl) && j <= |vals| == |bl|
    requires bl != [] && |bl| + 1 + j <= |CommitWrites(lay, d[lay.start], bl, vals)|
    ensures var img := CommitImage(lay, d, bl, vals, |bl| + 1 + j);
      GoodDisk(lay, img) && SameHome(lay, Recovered(lay, img), Installed(lay, d, bl, vals))
  {
    hide Word, EncodeHead, ApplyWrites;
    InstallingImage(lay, d, bl, vals, j);
    HeadOfEncode(d[lay.start], bl);
    Reinstall(lay, d, CommitImage(lay, d, bl, vals, |bl| + 1 + j), bl, vals, j);
  }

  // The last write of a commit empties the header.
  lemma CommitLast(lay: Layout, d: seq<Block>, bl: seq<Word32>, vals: seq<Block>)
    requires lay.Valid() && |d| == lay.nblocks && GoodList(lay, bl) && |vals| == |bl| && bl != []
    ensures var ws := CommitWrites(lay, d[lay.start], bl, vals);
      && |ws| == 2 * |bl| + 2
      && CommitImage(lay, d, bl, vals, |ws|)
         == CommitImage(lay, d, bl, vals, 2 * |bl| + 1)[lay.start := EncodeHead(EncodeHead(d[lay.start], bl), [])]
  {
    hide Word, EncodeHead, ApplyWrites;
    var ws := CommitWrites(lay, d[lay.start], bl, vals);
    CommitInRange(lay, d[lay.start], bl, vals);
    var last := ws[2 * |bl| + 1];
    assert ws == ws[..2 * |bl| + 1] + [last] == ws[..|ws|];
    ApplySplit(d, ws[..2 * |bl| + 1], [last]);
    ApplyOne(CommitImage(lay, d, bl, vals, 2 * |bl| + 1), last);
  }

  // A finished commit leaves an empty log and the new home blocks in place.
  lemma CommitDone(lay: Layout, d: seq<Block>, bl: seq<Word32>, vals: seq<Block>)
    requires lay.Valid() && |d| == lay.nblocks && GoodList(lay, bl) && |vals| == |bl|
    requires bl != []
    ensures var img := CommitImage(lay, d, bl, vals, |CommitWrites(lay, d[lay.start], bl, vals)|);
      && GoodDisk(lay, img) && Head(img[lay.start]) == []
      && SameHome(lay, img, Installed(lay, d, bl, vals))
      && Recovered(lay, img) == img
  {
    hide Word, EncodeHead, ApplyWrites;
    var ws := CommitWrites(lay, d[lay.start], bl, vals);
    var n := |bl|;
    InstallingImage(lay, d, bl, vals, n);
    CommitLast(lay, d, bl, vals);
    hide CommitWrites, CommitImage, Recovered;
    var img := CommitImage(lay, d, bl, vals, |ws|);
    HeadOfEncode(EncodeHead(d[lay.start], bl), []);
    EmptyHeadRecovered(lay, img);
    assert Installs(bl, vals)[..n] == Installs(bl, vals) && bl[..n] == bl;
    InstallsAt(d, bl, vals, n);
  }

  lemma EmptyHeadRecovered(lay: Layout, d: seq<Block>)
    requires lay.Valid() && |d| == lay.nblocks && HeadOk(d[lay.start]) && Head(d[lay.start]) == []
    ensures GoodDisk(lay, d) && Recovered(lay, d) == d
  {
    assert Installs([], LogVals(lay, d, 0)) == [];
  }

  // A crash before, in or after a commit: recovery yields the old home blocks
  // up to the header write (write number |bl|), the new ones from there on.
  lemma CommitCrash(lay: Layout, d: seq<Block>, bl: seq<Word32>, vals: seq<Block>, k: nat)
    requires lay.Valid() && |d| == lay.nblocks && GoodList(lay, bl) && |vals| == |bl| > 0
    requires HeadOk(d[lay.start]) && Head(d[lay.start]) == []
    requires k <= |CommitWrites(lay, d[lay.start], bl, vals)|
    ensures GoodDisk(lay, CommitImage(lay, d, bl, vals, k))
    ensures SameHome(lay, Recovered(lay, CommitImage(lay, d, bl, vals, k)),
                     if k <= |bl| then d else Installed(lay, d, bl, vals))
  {
    if k <= |bl| {
      CommitCrashCopying(lay, d, bl, vals, k);
    } else if k <= 2 * |bl| + 1 {
      CommitCrashInstalling(lay, d, bl, vals, k - |bl| - 1);
    } else {
      CommitDone(lay, d, bl, vals);
    }
  }

  // The image after the first k block writes of a recovery of d.
  ghost function RecoverImage(lay: Layout, d: seq<Block>, k: nat): (r: seq<Block>)
    requires GoodDisk(lay, d) && k <= |RecoverWrites(lay, d)|
    ensures |r| == |d|
  {
    RecoverInRange(lay, d);
    ApplyWrites(d, RecoverWrites(lay, d)[..k])
  }

  lemma RecoverInRange(lay: Layout, d: seq<Block>)
    requires GoodDisk(lay, d)
    ensures InRange(RecoverWrites(lay, d), lay.nblocks)
  {
  }

  // A crash during recovery loses nothing; a finished recovery leaves an
  // empty log and the recovered home blocks in place.
  lemma RecoverCrash(lay: Layout, d: seq<Block>, k: nat)
    requires GoodDisk(lay, d) && k <= |RecoverWrites(lay, d)|
    ensures var img := RecoverImage(lay, d, k);
      && GoodDisk(lay, img) && SameHome(lay, Recovered(lay, img), Recovered(lay, d))
      && (k == |RecoverWrites(lay, d)| ==> Head(img[lay.start]) == [] && SameHome(lay, img, Recovered(lay, d)))
  {
    hide Word, EncodeHead, ApplyWrites;
    RecoverInRange(lay, d);
    var bl := Head(d[lay.start]);
    var n := |bl|;
    var vals := LogVals(lay, d, n);
    var ws := RecoverWrites(lay, d);
    var j := if k <= n then k else n;
    assert ws[..j] == Installs(bl, vals)[..j];
    InstallsAt(d, bl, vals, j);
    var prev := RecoverImage(lay, d, j);
    forall b | lay.start <= b < lay.start + lay.size
      ensures prev[b] == d[b]
    {
      assert b !in bl[..j];
    }
    assert LogVals(lay, prev, n) == vals;
    Reinstall(lay, d, prev, bl, vals, j);
    if k == n + 1 {
      var last := ws[n];
      assert ws == ws[..n] + [last] == ws[..k];
      ApplySplit(d, ws[..n], [last]);
      ApplyOne(prev, last);
      var img := RecoverImage(lay, d, k);
      assert img == prev[lay.start := last.data];
      HeadOfEncode(d[lay.start], []);
      EmptyHeadRecovered(lay, img);
      assert bl[..n] == bl && Installs(bl, vals)[..n] == Installs(bl, vals);
    }
  }

  // The image after recoveries that crash after ks[0], ks[1], ... writes.
  ghost function AfterCrashes(lay: Layout, d: seq<Block>, ks: seq<nat>): (r: seq<Block>)
    requires GoodDisk(lay, d)
    ensures GoodDisk(lay, r) && SameHome(lay, Recovered(lay, r), Recovered(lay, d))
  {
    if ks == [] then d
    else
      var e := AfterCrashes(lay, d, ks[..|ks| - 1]);
      var n, k := |RecoverWrites(lay, e)|, ks[|ks| - 1];
      var m := if k <= n then k else n;
      RecoverCrash(lay, e, m);
      RecoverImage(lay, e, m)
  }

  // Crash atomicity. Crash a commit after any k of its block writes, then
  // crash any number of recoveries at any of their writes: the first recovery
  // that finishes leaves exactly the old or exactly the new home blocks, and
  // which of them is decided by the header write alone.
  lemma CrashAtomic(lay: Layout, d: seq<Block>, bl: seq<Word32>, vals: seq<Block>, k: nat, ks: seq<nat>)
    requires lay.Valid() && |d| == lay.nblocks && GoodList(lay, bl) && |vals| == |bl| > 0
    requires HeadOk(d[lay.start]) && Head(d[lay.start]) == []
    requires k <= |CommitWrites(lay, d[lay.start], bl, vals)|
    ensures GoodDisk(lay, CommitImage(lay, d, bl, vals, k))
    ensures var img := AfterCrashes(lay, CommitImage(lay, d, bl, vals, k), ks);
      var end := RecoverImage(lay, img, |RecoverWrites(lay, img)|);
      && SameHome(lay, end, if k <= |bl| then d else Installed(lay, d, bl, vals))
      && HeadOk(end[lay.start]) && Head(end[lay.start]) == []
  {
    hide Word, EncodeHead, ApplyWrites, Recovered;
    CommitCrash(lay, d, bl, vals, k);
    var img := AfterCrashes(lay, CommitImage(lay, d, bl, vals, k), ks);
    RecoverCrash(lay, img, |RecoverWrites(lay, img)|);
  }

  // What the two outcomes are, block by block.
  lemma InstalledAt(lay: Layout, d: seq<Block>, bl: seq<Word32>, vals: seq<Block>)
    requires lay.Valid() && |d| == lay.nblocks && GoodList(lay, bl) && |vals| == |bl|
    ensures forall i | 0 <= i < |bl| :: Installed(lay, d, bl, vals)[bl[i]] == vals[i]
    ensures forall b | 0 <= b < |d| && b !in bl :: Installed(lay, d, bl, vals)[b] == d[b]
  {
    hide ApplyWrites;
    assert Installs(bl, vals)[..|bl|] == Installs(bl, vals) && bl[..|bl|] == bl;
    InstallsAt(d, bl, vals, |bl|);
  }
}
