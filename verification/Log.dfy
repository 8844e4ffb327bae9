// log.c over the buffer cache: the loops of write_log, install_trans and
// write_head perform exactly the block writes that LogSpec reasons about.
module RedoLog {
  import opened Common
  import opened Bytes
  import opened BufferCache
  import opened LogSpec

  // Every clean buffer agrees with the disk, except those of the blocks in m,
  // which a client has changed and not yet logged.
  ghost predicate SettledBut(bs: seq<Buf>, disk: seq<Block>, m: set<nat>)
    requires |bs| == NBUF + 1
  {
    forall i | 0 <= i < NBUF && bs[i].valid && !bs[i].dirty && bs[i].blockno !in m ::
      bs[i].blockno < |disk| && bs[i].data == disk[bs[i].blockno]
  }

  // All modifications are logged.
  ghost predicate Settled(bs: seq<Buf>, disk: seq<Block>)
    requires |bs| == NBUF + 1
  {
    SettledBut(bs, disk, {})
  }

  // Block b is cached, valid and dirty: bget never recycles its buffer.
  ghost predicate PinnedBlock(bs: seq<Buf>, b: nat)
    requires |bs| == NBUF + 1
  {
    exists i: nat :: i < NBUF && bs[i].dirty && Holds(bs, i, b)
  }

  // The dirty buffers are exactly the cached copies of the blocks in s.
  ghost predicate Pinned(bs: seq<Buf>, s: set<nat>)
    requires |bs| == NBUF + 1
  {
    && (forall i | 0 <= i < NBUF && bs[i].dirty :: bs[i].blockno in s)
    && (forall b {:trigger PinnedBlock(bs, b)} | b in s :: PinnedBlock(bs, b))
  }

  // Buffers free for recycling stay so, and holders keep what they hold.
  ghost predicate Undisturbed(bs: seq<Buf>, bs': seq<Buf>)
    requires |bs| == NBUF + 1 == |bs'|
  {
    forall i | 0 <= i < NBUF ::
      && (Recyclable(bs[i]) ==> Recyclable(bs'[i]))
      && bs'[i].refcnt == bs[i].refcnt
      && (bs[i].refcnt > 0 ==> bs'[i].dev == bs[i].dev && bs'[i].blockno == bs[i].blockno)
  }

  ghost predicate SomeFree(bs: seq<Buf>)
    requires |bs| == NBUF + 1
  {
    exists i: nat :: i < NBUF && Recyclable(bs[i])
  }

  ghost predicate TwoFree(bs: seq<Buf>)
    requires |bs| == NBUF + 1
  {
    exists i: nat, j: nat :: i < j < NBUF && Recyclable(bs[i]) && Recyclable(bs[j])
  }

  lemma CleanContent(bs: seq<Buf>, disk: seq<Block>, s: set<nat>, b: nat)
    requires |bs| == NBUF + 1 && Unique(bs) && Settled(bs, disk) && Pinned(bs, s) && b < |disk| && b !in s
    ensures LogicalAt(bs, disk, b) == disk[b]
  {
    if i: nat :| i < NBUF && Holds(bs, i, b) {
      assert !bs[i].dirty;
      LogicalAtHolder(bs, disk, i, b);
    }
  }

  // What a client does between commits keeps exactly the logged blocks pinned,
  // whatever it has changed and not yet logged. Acquiring a buffer for block p:
  // it is the pinned one just when p is logged.
  lemma AcquiredBut(bs: seq<Buf>, bs': seq<Buf>, disk: seq<Block>, s: set<nat>, m: set<nat>, b: nat, p: nat)
    requires |bs| == NBUF + 1 == |bs'| && Unique(bs) && Unique(bs')
    requires SettledBut(bs, disk, m) && Pinned(bs, s) && p < |disk|
    requires Acquired(bs, bs', b, p) && bs'[b].data == LogicalAt(bs, disk, p)
    ensures SettledBut(bs', disk, m) && Pinned(bs', s)
    ensures bs'[b].dirty <==> p in s
    ensures p in s ==> Holds(bs, b, p) && bs[b].dirty
  {
    if p in s {
      assert PinnedBlock(bs, p);
      var i: nat :| i < NBUF && bs[i].dirty && Holds(bs, i, p);
      assert Names(bs'[i], ROOTDEV, p) && i == b;
    } else if Holds(bs, b, p) {
      LogicalAtHolder(bs, disk, b, p);
    } else {
      NoHolder(bs, bs', disk, b, p);
    }
    forall c | c in s
      ensures PinnedBlock(bs', c)
    {
      assert PinnedBlock(bs, c);
      var i: nat :| i < NBUF && bs[i].dirty && Holds(bs, i, c);
      assert bs'[i].dirty && Holds(bs', i, c);
    }
  }

  lemma NoHolder(bs: seq<Buf>, bs': seq<Buf>, disk: seq<Block>, b: nat, p: nat)
    requires |bs| == NBUF + 1 == |bs'| && Unique(bs') && Acquired(bs, bs', b, p) && !Holds(bs, b, p) && p < |disk|
    ensures LogicalAt(bs, disk, p) == disk[p]
  {
    assert forall i: nat | i < NBUF && i != b :: bs'[i] == bs[i] && !Holds(bs', i, p);
  }

  // A store into the buffer of block bs[b].blockno.
  lemma StoredBut(bs: seq<Buf>, disk: seq<Block>, s: set<nat>, m: set<nat>, b: nat, data: Block)
    requires |bs| == NBUF + 1 && b < NBUF && bs[b].valid && SettledBut(bs, disk, m) && Pinned(bs, s)
    ensures var bs' := bs[b := bs[b].(data := data)];
      SettledBut(bs', disk, m + {bs[b].blockno}) && Pinned(bs', s)
  {
    var bs' := bs[b := bs[b].(data := data)];
    forall c | c in s
      ensures PinnedBlock(bs', c)
    {
      assert PinnedBlock(bs, c);
      var i: nat :| i < NBUF && bs[i].dirty && Holds(bs, i, c);
      assert bs'[i].dirty && Holds(bs', i, c);
    }
  }

  // log_write of it.
  lemma LoggedBut(bs: seq<Buf>, disk: seq<Block>, m: set<nat>, b: nat)
    requires |bs| == NBUF + 1 && b < NBUF && bs[b].valid && Unique(bs) && Coherent(bs, disk) && SettledBut(bs, disk, m)
    ensures SettledBut(bs[b := bs[b].(dirty := true)], disk, m - {bs[b].blockno})
  {
  }

  lemma ReleasedBut(bs: seq<Buf>, bs': seq<Buf>, disk: seq<Block>, s: set<nat>, m: set<nat>, b: nat)
    requires |bs| == NBUF + 1 && SettledBut(bs, disk, m) && Pinned(bs, s)
    requires b < NBUF && bs[b].refcnt >= 1 && Released(bs, bs', b)
    ensures |bs'| == NBUF + 1 && SettledBut(bs', disk, m) && Pinned(bs', s)
  {
    forall c | c in s
      ensures PinnedBlock(bs', c)
    {
      assert PinnedBlock(bs, c);
      var i: nat :| i < NBUF && bs[i].dirty && Holds(bs, i, c);
      assert bs'[i].dirty && Holds(bs', i, c);
    }
  }

  // Between commits, with all changes logged, as the commit's own reads find it.
  lemma AcquiredState(bs: seq<Buf>, bs': seq<Buf>, disk: seq<Block>, s: set<nat>, b: nat, p: nat)
    requires |bs| == NBUF + 1 == |bs'| && Unique(bs) && Unique(bs') && Settled(bs, disk) && Pinned(bs, s)
    requires p < |disk| && Acquired(bs, bs', b, p) && bs'[b].data == LogicalAt(bs, disk, p)
    ensures Settled(bs', disk) && Pinned(bs', s)
    ensures bs'[b].dirty <==> p in s
    ensures LogicalAt(bs', disk, p) == LogicalAt(bs, disk, p)
  {
    AcquiredBut(bs, bs', disk, s, {}, b, p);
    assert Holds(bs', b, p);
    LogicalAtHolder(bs', disk, b, p);
  }

  // bwrite of new data into buffer t.
  lemma WrittenState(bs: seq<Buf>, bs': seq<Buf>, disk: seq<Block>, s: set<nat>, t: nat, data: Block)
    requires |bs| == NBUF + 1 && Unique(bs) && Coherent(bs, disk) && Settled(bs, disk) && Pinned(bs, s)
    requires t < NBUF && bs[t].valid && bs[t].dev == ROOTDEV && bs[t].blockno < |disk|
    requires bs' == bs[t := bs[t].(data := data, dirty := false)]
    ensures Settled(bs', disk[bs[t].blockno := data]) && Pinned(bs', s - {bs[t].blockno})
  {
    forall c | c in s - {bs[t].blockno}
      ensures PinnedBlock(bs', c)
    {
      assert PinnedBlock(bs, c);
      var i: nat :| i < NBUF && bs[i].dirty && Holds(bs, i, c);
      assert bs'[i].dirty && Holds(bs', i, c);
    }
  }

  lemma ReleasedState(bs: seq<Buf>, bs': seq<Buf>, disk: seq<Block>, s: set<nat>, b: nat)
    requires |bs| == NBUF + 1 && Settled(bs, disk) && Pinned(bs, s)
    requires b < NBUF && bs[b].refcnt >= 1 && Released(bs, bs', b)
    ensures |bs'| == NBUF + 1 && Settled(bs', disk) && Pinned(bs', s)
  {
    ReleasedBut(bs, bs', disk, s, {}, b);
  }

  lemma ReleasedOther(bs: seq<Buf>, bs': seq<Buf>, b: nat, i: nat)
    requires |bs| == NBUF + 1 && b < NBUF && bs[b].refcnt >= 1 && Released(bs, bs', b)
    requires i < NBUF && i != b
    ensures bs'[i] == bs[i].(prev := bs'[i].prev, next := bs'[i].next)
  {
  }

  // Acquire p and q, write data to the target t of the two, release r then t.
  lemma Round(s0: seq<Buf>, s1: seq<Buf>, s2: seq<Buf>, s3: seq<Buf>, s4: seq<Buf>, s5: seq<Buf>,
              l: nat, d: nat, t: nat, r: nat, p: nat, q: nat, disk: seq<Block>, s: set<nat>, data: Block)
    requires |s0| == |s1| == |s2| == |s3| == |s4| == |s5| == NBUF + 1
    requires Unique(s0) && Unique(s1) && Unique(s2) && Coherent(s2, disk) && Settled(s0, disk) && Pinned(s0, s)
    requires p != q && p < |disk| && q < |disk|
    requires Acquired(s0, s1, l, p) && s1[l].data == Logical(s0, disk)[p]
    requires Acquired(s1, s2, d, q) && s2[d].data == Logical(s1, disk)[q]
    requires (t == l && r == d) || (t == d && r == l)
    requires s3 == s2[t := s2[t].(data := data, dirty := false)]
    requires s3[l].refcnt >= 1 && s3[d].refcnt >= 1
    requires Released(s3, s4, r) && s4[t].refcnt >= 1 && Released(s4, s5, t)
    ensures s2[t].blockno < |disk| && Settled(s5, disk[s2[t].blockno := data])
    ensures Pinned(s5, s - {s2[t].blockno}) && Undisturbed(s0, s5)
  {
    hide Undisturbed;
    AcquiredState(s0, s1, disk, s, l, p);
    AcquiredState(s1, s2, disk, s, d, q);
    WrittenState(s2, s3, disk, s, t, data);
    RoundUndisturbed(s0, s1, s2, s3, s4, s5, l, d, t, r, p, q, data);
    hide LogicalAt, Coherent, Unique, Acquired;
    ghost var disk', s' := disk[s2[t].blockno := data], s - {s2[t].blockno};
    ReleasedState(s3, s4, disk', s', r);
    ReleasedState(s4, s5, disk', s', t);
  }

  lemma RoundUndisturbed(s0: seq<Buf>, s1: seq<Buf>, s2: seq<Buf>, s3: seq<Buf>, s4: seq<Buf>, s5: seq<Buf>,
                         l: nat, d: nat, t: nat, r: nat, p: nat, q: nat, data: Block)
    requires |s0| == |s1| == |s2| == |s3| == |s4| == |s5| == NBUF + 1
    requires p != q && Acquired(s0, s1, l, p) && Acquired(s1, s2, d, q)
    requires (t == l && r == d) || (t == d && r == l)
    requires s3 == s2[t := s2[t].(data := data, dirty := false)]
    requires s3[l].refcnt >= 1 && s3[d].refcnt >= 1
    requires Released(s3, s4, r) && s4[t].refcnt >= 1 && Released(s4, s5, t)
    ensures Undisturbed(s0, s5)
  {
  }

  // The two buffers read in a round, and when they may be released.
  lemma RoundReads(s0: seq<Buf>, s1: seq<Buf>, s2: seq<Buf>, l: nat, d: nat, p: nat, q: nat,
                   disk: seq<Block>, s: set<nat>)
    requires |s0| == |s1| == |s2| == NBUF + 1
    requires Unique(s0) && Unique(s1) && Unique(s2) && Settled(s0, disk) && Pinned(s0, s)
    requires p != q && p < |disk| && q < |disk|
    requires Acquired(s0, s1, l, p) && s1[l].data == Logical(s0, disk)[p]
    requires Acquired(s1, s2, d, q) && s2[d].data == Logical(s1, disk)[q]
    ensures l != d && s2[l] == s1[l] && s2[l].refcnt >= 1 && s2[d].refcnt >= 1
    ensures s2[l].valid && s2[d].valid && s2[l].blockno == p && s2[d].blockno == q
    ensures s2[l].dirty <==> p in s
    ensures s2[d].dirty <==> q in s
    ensures p !in s ==> s2[l].data == disk[p]
    ensures q !in s ==> s2[d].data == disk[q]
  {
    AcquiredState(s0, s1, disk, s, l, p);
    AcquiredState(s1, s2, disk, s, d, q);
  }

  // A pinned block stays cached while another buffer is acquired.
  lemma PinnedNamed(bs: seq<Buf>, bs': seq<Buf>, s: set<nat>, b: nat, l: nat, p: nat)
    requires |bs| == NBUF + 1 && Pinned(bs, s) && b in s && Acquired(bs, bs', l, p) && p != b
    ensures exists i: nat :: i < NBUF && Names(bs'[i], ROOTDEV, b)
  {
    assert PinnedBlock(bs, b);
    var i: nat :| i < NBUF && bs[i].dirty && Holds(bs, i, b);
    assert Names(bs'[i], ROOTDEV, b);
  }

  // bget finds a buffer for block b after one for p was taken.
  lemma HomeBuffer(bs: seq<Buf>, bs': seq<Buf>, s: set<nat>, b: nat, l: nat, p: nat)
    requires |bs| == NBUF + 1 && Pinned(bs, s) && Acquired(bs, bs', l, p) && p != b
    requires if b in s then SomeFree(bs) else TwoFree(bs)
    ensures exists i: nat :: i < NBUF && (Names(bs'[i], ROOTDEV, b) || Recyclable(bs'[i]))
  {
    if b in s {
      PinnedNamed(bs, bs', s, b, l, p);
    } else {
      var i: nat, j: nat :| i < j < NBUF && Recyclable(bs[i]) && Recyclable(bs[j]);
      assert Recyclable(bs'[if i == l then j else i]);
    }
  }

  lemma LoggedHome(lay: Layout, bl: seq<Word32>, i: nat, s: set<nat>)
    requires lay.Valid() && GoodList(lay, bl) && i < |bl| && s == set j | 0 <= j < |bl| :: bl[j]
    ensures bl[i] < lay.nblocks && bl[i] in s && !lay.InLog(bl[i])
    ensures lay.start + i + 1 < lay.start + lay.size
    ensures forall b | lay.InLog(b) :: b !in s
  {
    assert bl[i] in s;
  }

  lemma StaysFree(bs: seq<Buf>, bs': seq<Buf>)
    requires |bs| == NBUF + 1 == |bs'| && Undisturbed(bs, bs')
    ensures SomeFree(bs) ==> SomeFree(bs')
    ensures TwoFree(bs) ==> TwoFree(bs')
  {
  }

  // Acquire block p outside s, and what a bwrite of its buffer leaves.
  lemma SingleState(s0: seq<Buf>, s1: seq<Buf>, disk: seq<Block>, s: set<nat>, b: nat, p: nat, data: Block)
    requires |s0| == |s1| == NBUF + 1 && p < |disk| && p !in s
    requires Unique(s0) && Unique(s1) && Coherent(s1, disk) && Settled(s0, disk) && Pinned(s0, s)
    requires Acquired(s0, s1, b, p) && s1[b].data == Logical(s0, disk)[p]
    ensures s1[b].refcnt >= 1 && !s1[b].dirty
    ensures var s2 := s1[b := s1[b].(data := data, dirty := false)];
      Settled(s2, disk[p := data]) && Pinned(s2, s)
  {
    AcquiredState(s0, s1, disk, s, b, p);
    WrittenState(s1, s1[b := s1[b].(data := data, dirty := false)], disk, s, b, data);
    assert s - {p} == s;
  }

  lemma SingleUndisturbed(s0: seq<Buf>, s1: seq<Buf>, s2: seq<Buf>, s3: seq<Buf>, b: nat, p: nat, data: Block)
    requires |s0| == |s1| == |s2| == NBUF + 1 && Acquired(s0, s1, b, p)
    requires s2 == s1[b := s1[b].(data := data, dirty := false)] && s2[b].refcnt >= 1 && Released(s2, s3, b)
    ensures |s3| == NBUF + 1 && Undisturbed(s0, s3)
  {
  }

  // What block writes act on: the disk, the content map that processes see, and
  // the history of block writes.
  datatype View = View(disk: seq<Block>, content: seq<Block>, writes: seq<Write>)

  ghost function Advance(v: View, ws: seq<Write>): (r: View)
    requires |v.content| == |v.disk| && InRange(ws, |v.disk|)
    ensures |r.content| == |r.disk| == |v.disk|
  {
    View(ApplyWrites(v.disk, ws), ApplyWrites(v.content, ws), v.writes + ws)
  }

  lemma AdvanceOne(v: View, w: Write)
    requires |v.content| == |v.disk| && w.blockno < |v.disk|
    ensures Advance(v, [w]) == View(v.disk[w.blockno := w.data], v.content[w.blockno := w.data], v.writes + [w])
  {
    ApplyOne(v.disk, w);
    ApplyOne(v.content, w);
  }

  lemma AdvanceThen(v: View, us: seq<Write>, vs: seq<Write>)
    requires |v.content| == |v.disk| && InRange(us, |v.disk|) && InRange(vs, |v.disk|)
    ensures InRange(us + vs, |v.disk|)
    ensures Advance(Advance(v, us), vs) == Advance(v, us + vs)
  {
    ApplySplit(v.disk, us, vs);
    ApplySplit(v.content, us, vs);
    assert v.writes + us + vs == v.writes + (us + vs);
  }

  lemma AdvanceNext(v: View, ws: seq<Write>, k: nat)
    requires |v.content| == |v.disk| && InRange(ws, |v.disk|) && k < |ws|
    ensures Advance(Advance(v, ws[..k]), [ws[k]]) == Advance(v, ws[..k + 1])
  {
    AdvanceThen(v, ws[..k], [ws[k]]);
    assert ws[..k] + [ws[k]] == ws[..k + 1];
  }

  lemma AdvanceNone(v: View, ws: seq<Write>)
    requires |v.content| == |v.disk| && InRange(ws, |v.disk|)
    ensures Advance(v, ws[..0]) == v && ws[..|ws|] == ws
  {
  }

  // The current contents of the logged blocks.
  ghost function LoggedContent(c: seq<Block>, bl: seq<Word32>): (vals: seq<Block>)
    requires forall i | 0 <= i < |bl| :: bl[i] < |c|
    ensures |vals| == |bl|
  {
    seq(|bl|, i requires 0 <= i < |bl| => c[bl[i]])
  }

  lemma CopiesKeepHome(lay: Layout, v: View, vals: seq<Block>, k: nat, bl: seq<Word32>)
    requires lay.Valid() && |v.content| == |v.disk| == lay.nblocks && GoodList(lay, bl) && |bl| == |vals|
    requires k < |vals|
    ensures InRange(Copies(lay, vals)[..k], |v.disk|)
    ensures Advance(v, Copies(lay, vals)[..k]).content[bl[k]] == v.content[bl[k]]
  {
    CopiesAt(lay, v.content, vals, k);
  }

  lemma InstallsKeepLog(lay: Layout, v: View, k: nat, bl: seq<Word32>)
    requires lay.Valid() && |v.content| == |v.disk| == lay.nblocks && GoodList(lay, bl) && k < |bl|
    ensures var ws := Installs(bl, LogVals(lay, v.content, |bl|));
      && InRange(ws, |v.disk|)
      && Advance(v, ws[..k]).content[lay.start + 1 + k] == v.content[lay.start + 1 + k]
  {
    InstallsAt(v.content, bl, LogVals(lay, v.content, |bl|), k);
  }

  // The four stages of a commit, from the view v.
  lemma CommitSteps(lay: Layout, v: View, bl: seq<Word32>)
    requires lay.Valid() && |v.content| == |v.disk| == lay.nblocks && GoodList(lay, bl) && bl != []
    ensures var vals := LoggedContent(v.content, bl);
      var h1 := EncodeHead(v.content[lay.start], bl);
      InRange(Copies(lay, vals), lay.nblocks) &&
      var v1 := Advance(v, Copies(lay, vals));
      var v2 := Advance(v1, [Write(lay.start, h1)]);
      && v1.content[lay.start] == v.content[lay.start]
      && LogVals(lay, v2.content, |bl|) == vals
      && InRange(Installs(bl, vals), lay.nblocks)
      && var v3 := Advance(v2, Installs(bl, vals));
      && v3.content[lay.start] == h1
      && InRange(CommitWrites(lay, v.content[lay.start], bl, vals), lay.nblocks)
      && Advance(v3, [Write(lay.start, EncodeHead(h1, []))])
         == Advance(v, CommitWrites(lay, v.content[lay.start], bl, vals))
  {
    hide EncodeHead, Head, Word, Advance, ApplyWrites;
    var vals := LoggedContent(v.content, bl);
    var n := |bl|;
    var h1 := EncodeHead(v.content[lay.start], bl);
    var a, b, c, d := Copies(lay, vals), [Write(lay.start, h1)], Installs(bl, vals), [Write(lay.start, EncodeHead(h1, []))];
    CommitInRange(lay, v.content[lay.start], bl, vals);
    AdvanceThen(v, a, b);
    AdvanceThen(v, a + b, c);
    AdvanceThen(v, a + b + c, d);
    CopiesContent(lay, v, vals);
    var v1 := Advance(v, a);
    AdvanceOne(v1, b[0]);
    var v2 := Advance(v1, b);
    assert LogVals(lay, v2.content, n) == vals;
    InstallsKeepHead(lay, v2, bl, vals);
  }

  lemma ReadState(s0: seq<Buf>, s1: seq<Buf>, disk: seq<Block>, b: nat, p: nat)
    requires |s0| == |s1| == NBUF + 1 && p < |disk|
    requires Unique(s0) && Unique(s1) && Settled(s0, disk) && Pinned(s0, {})
    requires Acquired(s0, s1, b, p) && s1[b].data == Logical(s0, disk)[p]
    ensures Settled(s1, disk) && Pinned(s1, {}) && s1[b].data == disk[p] && s1[b].refcnt >= 1 && !s1[b].dirty
  {
    AcquiredState(s0, s1, disk, {}, b, p);
    CleanContent(s0, disk, {}, p);
  }

  lemma ReadUndisturbed(s0: seq<Buf>, s1: seq<Buf>, s2: seq<Buf>, b: nat, p: nat)
    requires |s0| == |s1| == NBUF + 1 && Acquired(s0, s1, b, p) && s1[b].refcnt >= 1 && Released(s1, s2, b)
    ensures |s2| == NBUF + 1 && Undisturbed(s0, s2)
  {
  }

  lemma TwoIsSome(bs: seq<Buf>)
    requires |bs| == NBUF + 1 && TwoFree(bs)
    ensures SomeFree(bs)
  {
  }

  lemma RecoverSteps(lay: Layout, v: View)
    requires |v.content| == |v.disk| && GoodDisk(lay, v.disk) && v.content == v.disk
    ensures var bl := Head(v.disk[lay.start]);
      var vals := LogVals(lay, v.disk, |bl|);
      && InRange(Installs(bl, vals), lay.nblocks) && InRange(RecoverWrites(lay, v.disk), lay.nblocks)
      && var v1 := Advance(v, Installs(bl, vals));
      && v1.content[lay.start] == v.content[lay.start]
      && var e := Advance(v, RecoverWrites(lay, v.disk));
      && Advance(v1, [Write(lay.start, EncodeHead(v.disk[lay.start], []))]) == e
      && HeadOk(e.disk[lay.start]) && Head(e.disk[lay.start]) == []
      && SameHome(lay, e.disk, Recovered(lay, v.disk))
  {
    hide EncodeHead, Word, ApplyWrites;
    var bl := Head(v.disk[lay.start]);
    var vals := LogVals(lay, v.disk, |bl|);
    var ws := RecoverWrites(lay, v.disk);
    InstallsKeepHead(lay, v, bl, vals);
    RecoverInRange(lay, v.disk);
    AdvanceThen(v, Installs(bl, vals), [Write(lay.start, EncodeHead(v.disk[lay.start], []))]);
    RecoverCrash(lay, v.disk, |ws|);
    assert ws[..|ws|] == ws;
  }

  // The list of logged blocks after logging b: absorbed or appended.
  function Absorb(bl: seq<Word32>, b: Word32): seq<Word32> {
    if b in bl then bl else bl + [b]
  }

  lemma AbsorbState(lay: Layout, bl: seq<Word32>, bs: seq<Buf>, b: nat)
    requires lay.Valid() && GoodList(lay, bl) && |bl| < LOGSIZE && |bl| < lay.size - 1
    requires |bs| == NBUF + 1 && b < NBUF && bs[b].valid && bs[b].dev == ROOTDEV
    requires bs[b].blockno < lay.nblocks && !lay.InLog(bs[b].blockno)
    requires Pinned(bs, set i | 0 <= i < |bl| :: bl[i])
    ensures var bl' := Absorb(bl, bs[b].blockno);
      GoodList(lay, bl') && Pinned(bs[b := bs[b].(dirty := true)], set i | 0 <= i < |bl'| :: bl'[i])
  {
    var c, bl' := bs[b].blockno, Absorb(bl, bs[b].blockno);
    var s, s', bs' := set i | 0 <= i < |bl| :: bl[i], set i | 0 <= i < |bl'| :: bl'[i], bs[b := bs[b].(dirty := true)];
    assert bl'[if c in bl then IndexOf(bl, c) else |bl|] == c;
    forall x | x in s'
      ensures PinnedBlock(bs', x)
    {
      if x == c {
        assert bs'[b].dirty && Holds(bs', b, x);
      } else {
        assert x in s && PinnedBlock(bs, x);
        var i: nat :| i < NBUF && bs[i].dirty && Holds(bs, i, x);
        assert bs'[i].dirty && Holds(bs', i, x);
      }
    }
    forall x | x in s
      ensures x in s'
    {
      var i :| 0 <= i < |bl| && bl[i] == x;
      assert bl'[i] == x;
    }
  }

  ghost function IndexOf(bl: seq<Word32>, b: Word32): (i: nat)
    requires b in bl
    ensures i < |bl| && bl[i] == b
  {
    var i :| 0 <= i < |bl| && bl[i] == b;
    i
  }

  // A commit changes no content that a process sees, and clears the log.
  lemma CommitEnd(lay: Layout, v: View, bl: seq<Word32>)
    requires lay.Valid() && |v.content| == |v.disk| == lay.nblocks && GoodList(lay, bl) && bl != []
    requires HeadOk(v.disk[lay.start]) && Head(v.disk[lay.start]) == [] && v.content[lay.start] == v.disk[lay.start]
    ensures var ws := CommitWrites(lay, v.disk[lay.start], bl, LoggedContent(v.content, bl));
      InRange(ws, lay.nblocks)
      && var e := Advance(v, ws);
      && SameHome(lay, e.content, v.content)
      && HeadOk(e.disk[lay.start]) && Head(e.disk[lay.start]) == []
  {
    hide EncodeHead, Head, Word, ApplyWrites;
    var vals := LoggedContent(v.content, bl);
    var ws := CommitWrites(lay, v.disk[lay.start], bl, vals);
    CommitInRange(lay, v.disk[lay.start], bl, vals);
    assert ws[..|ws|] == ws;
    CommitDone(lay, v.disk, bl, vals);
    CommitDone(lay, v.content, bl, vals);
    InstalledAt(lay, v.content, bl, vals);
    forall b | 0 <= b < lay.nblocks && b in bl
      ensures Installed(lay, v.content, bl, vals)[b] == v.content[b]
    {
      var i :| 0 <= i < |bl| && bl[i] == b;
    }
  }

  lemma AllClean(bs: seq<Buf>, disk: seq<Block>)
    requires |bs| == NBUF + 1 && Unique(bs) && Settled(bs, disk) && Pinned(bs, {})
    ensures Logical(bs, disk) == disk
  {
    forall b | 0 <= b < |disk|
      ensures LogicalAt(bs, disk, b) == disk[b]
    {
      CleanContent(bs, disk, {}, b);
    }
  }

  lemma HeaderClean(lay: Layout, bs: seq<Buf>, disk: seq<Block>, bl: seq<Word32>, s: set<nat>)
    requires |bs| == NBUF + 1 && Unique(bs) && Settled(bs, disk) && Pinned(bs, s)
    requires lay.Valid() && GoodList(lay, bl) && s == (set i | 0 <= i < |bl| :: bl[i]) && |disk| == lay.nblocks
    ensures lay.start !in s && Logical(bs, disk)[lay.start] == disk[lay.start]
  {
    CleanContent(bs, disk, s, lay.start);
  }

  lemma CopiesContent(lay: Layout, v: View, vals: seq<Block>)
    requires lay.Valid() && |v.content| == |v.disk| == lay.nblocks && |vals| < lay.size
    ensures InRange(Copies(lay, vals), |v.disk|)
    ensures var c := Advance(v, Copies(lay, vals)).content;
      c[lay.start] == v.content[lay.start] && LogVals(lay, c, |vals|) == vals
  {
    assert Copies(lay, vals)[..|vals|] == Copies(lay, vals);
    CopiesAt(lay, v.content, vals, |vals|);
  }

  lemma InstallsKeepHead(lay: Layout, v: View, bl: seq<Word32>, vals: seq<Block>)
    requires lay.Valid() && |v.content| == |v.disk| == lay.nblocks && GoodList(lay, bl) && |vals| == |bl|
    ensures InRange(Installs(bl, vals), |v.disk|)
    ensures Advance(v, Installs(bl, vals)).content[lay.start] == v.content[lay.start]
  {
    assert Installs(bl, vals)[..|bl|] == Installs(bl, vals) && bl[..|bl|] == bl;
    InstallsAt(v.content, bl, vals, |bl|);
  }

  lemma UndisturbedSelf(bs: seq<Buf>)
    requires |bs| == NBUF + 1
    ensures Undisturbed(bs, bs)
  {
  }

  lemma UndisturbedTrans(a: seq<Buf>, b: seq<Buf>, c: seq<Buf>)
    requires |a| == |b| == |c| == NBUF + 1 && Undisturbed(a, b) && Undisturbed(b, c)
    ensures Undisturbed(a, c)
  {
  }

  function Total(adds: seq<nat>): nat {
    if adds == [] then 0 else adds[0] + Total(adds[1..])
  }

  // However many blocks the operations log, up to MAXOPBLOCKS each, all fit in a
  // log that holds n.
  ghost predicate RoomFor(n: nat, ops: nat) {
    forall adds: seq<nat> | |adds| == ops && (forall i | 0 <= i < ops :: adds[i] <= MAXOPBLOCKS) ::
      n + Total(adds) <= LOGSIZE
  }

  lemma {:induction false} TotalMost(adds: seq<nat>)
    requires forall i | 0 <= i < |adds| :: adds[i] <= MAXOPBLOCKS
    ensures Total(adds) <= |adds| * MAXOPBLOCKS
    ensures (forall i | 0 <= i < |adds| :: adds[i] == MAXOPBLOCKS) ==> Total(adds) == |adds| * MAXOPBLOCKS
  {
    if adds != [] { TotalMost(adds[1..]); }
  }

  // begin_op's test says exactly that.
  lemma RoomExact(n: nat, ops: nat)
    ensures RoomFor(n, ops) <==> n + ops * MAXOPBLOCKS <= LOGSIZE
  {
    var full: seq<nat> := seq(ops, _ => MAXOPBLOCKS);
    TotalMost(full);
    forall adds: seq<nat> | |adds| == ops && (forall i | 0 <= i < ops :: adds[i] <= MAXOPBLOCKS)
      ensures Total(adds) <= ops * MAXOPBLOCKS
    {
      TotalMost(adds);
    }
  }

  class Log {
    const cache: Cache
    const lay: Layout
    var outstanding: nat
    var committing: bool
    var n: nat                      // lh.n
    const block: array<Word32>      // lh.block
    ghost var changed: set<nat>     // blocks stored into and not yet logged

    ghost function Blocks(): set<nat>
      reads this`n, block
      requires n <= block.Length
    {
      set i | 0 <= i < n :: block[i]
    }

    lemma BlocksAre()
      requires n <= block.Length
      ensures Blocks() == set j | 0 <= j < |block[..n]| :: block[..n][j]
    {
    }

    ghost function Now(): (v: View)
      reads cache, cache.bufs
      requires cache.bufs.Length == NBUF + 1
      ensures |v.content| == |v.disk|
    {
      View(cache.disk, cache.Content(), cache.writes)
    }

    // The state between calls, except for which buffers are pinned.
    ghost predicate Shape()
      reads this, cache, cache.bufs, block
    {
      && block.Length == LOGSIZE && n <= LOGSIZE
      && lay.Valid() && |cache.disk| == lay.nblocks
      && cache.Valid()
      && GoodList(lay, block[..n])
    }

    // The state between calls: exactly the logged blocks are pinned.
    ghost predicate Valid()
      reads this, cache, cache.bufs, block
    {
      Shape() && Pinned(cache.bufs[..], Blocks())
    }

    // initlog, up to the call of recover_from_log.
    constructor (cache: Cache, lay: Layout)
      ensures this.cache == cache && this.lay == lay
      ensures outstanding == 0 && !committing && n == 0 && block.Length == LOGSIZE && fresh(block) && changed == {}
    {
      this.cache, this.lay := cache, lay;
      outstanding, committing, n, changed := 0, false, 0, {};
      block := new Word32[LOGSIZE](_ => 0);
    }

    // What both loops end with: memmove, bwrite, and the two brelse. s3 and s4
    // are the buffers after bwrite and after the first brelse.
    method CopyOver(from: nat, to: nat) returns (ghost s3: seq<Buf>, ghost s4: seq<Buf>)
      requires cache.Valid() && from < NBUF && to < NBUF && from != to
      requires cache.bufs[from].valid && cache.bufs[from].refcnt >= 1
      requires cache.bufs[to].valid && cache.bufs[to].refcnt >= 1
      requires cache.bufs[from].blockno != cache.bufs[to].blockno
      requires cache.bufs[from].blockno < |cache.disk| && cache.bufs[to].blockno < |cache.disk|
      requires !cache.bufs[from].dirty ==> cache.bufs[from].data == cache.disk[cache.bufs[from].blockno]
      modifies cache, cache.bufs
      ensures cache.Valid() && |s3| == |s4| == NBUF + 1
      ensures s3 == old(cache.bufs[..])[to := old(cache.bufs[to]).(data := old(cache.bufs[from]).data, dirty := false)]
      ensures Released(s3, s4, from) && s4[to].refcnt >= 1 && Released(s4, cache.bufs[..], to)
      ensures cache.disk == old(cache.disk)[old(cache.bufs[to]).blockno := old(cache.bufs[from]).data]
      ensures cache.writes == old(cache.writes) + [Write(old(cache.bufs[to]).blockno, old(cache.bufs[from]).data)]
      ensures cache.Content() == old(cache.Content())[old(cache.bufs[to]).blockno := old(cache.bufs[from]).data]
    {
      hide Linked, LogicalAt, Unique, Coherent, SameButLinks, Logical, Released;
      WriteOver(from, to);
      s3 := cache.bufs[..];
      cache.BRelse(from);
      s4 := cache.bufs[..];
      ReleasedOther(s3, s4, from, to);
      cache.BRelse(to);
    }

    // memmove and bwrite.
    method WriteOver(from: nat, to: nat)
      requires cache.Valid() && from < NBUF && to < NBUF && from != to
      requires cache.bufs[to].valid && cache.bufs[to].refcnt >= 1 && cache.bufs[to].blockno < |cache.disk|
      modifies cache, cache.bufs
      ensures cache.Valid() && cache.ring == old(cache.ring)
      ensures cache.bufs[..] ==
        old(cache.bufs[..])[to := old(cache.bufs[to]).(data := old(cache.bufs[from]).data, dirty := false)]
      ensures cache.disk == old(cache.disk)[old(cache.bufs[to]).blockno := old(cache.bufs[from]).data]
      ensures cache.writes == old(cache.writes) + [Write(old(cache.bufs[to]).blockno, old(cache.bufs[from]).data)]
      ensures cache.Content() == old(cache.Content())[old(cache.bufs[to]).blockno := old(cache.bufs[from]).data]
    {
      hide Linked, LogicalAt, Unique, Coherent, Logical;
      cache.Store(to, cache.bufs[from].data);
      cache.BWrite(to);
    }

    // Body of the write_log loop: copy a logged block from the cache to the log.
    method LogBlock(tail: nat)
      requires Valid() && Settled(cache.bufs[..], cache.disk) && SomeFree(cache.bufs[..]) && tail < n
      modifies cache, cache.bufs
      ensures Valid() && Settled(cache.bufs[..], cache.disk) && SomeFree(cache.bufs[..])
      ensures Undisturbed(old(cache.bufs[..]), cache.bufs[..])
      ensures var w := Write(lay.start + tail + 1, old(cache.Content())[block[tail]]);
        w.blockno < lay.nblocks && Now() == Advance(old(Now()), [w])
    {
      hide Linked, LogicalAt, Unique, Coherent, Undisturbed, Pinned, Settled, GoodList, SameButLinks, Logical, Advance;
      ghost var s, s0, disk := Blocks(), cache.bufs[..], cache.disk;
      ghost var p, q := lay.start + tail + 1, block[tail];
      LoggedHome(lay, block[..n], tail, s);
      var ok, to := cache.BRead(lay.start + tail + 1);
      ghost var s1 := cache.bufs[..];
      PinnedNamed(s0, s1, s, q, to, p);
      var from;
      ok, from := cache.BRead(block[tail]);
      ghost var s2 := cache.bufs[..];
      RoundReads(s0, s1, s2, to, from, p, q, disk, s);
      ghost var data := cache.bufs[from].data;
      ghost var s3, s4 := CopyOver(from, to);
      Round(s0, s1, s2, s3, s4, cache.bufs[..], to, from, to, from, p, q, disk, s, data);
      StaysFree(s0, cache.bufs[..]);
      assert s - {p} == s;
      AdvanceOne(old(Now()), Write(p, data));
    }

    // Body of the install_trans loop: copy a log block to its home. In a commit
    // the home block is pinned in the cache; in recovery nothing is.
    method InstallBlock(tail: nat, ghost s: set<nat>)
      requires Shape() && Pinned(cache.bufs[..], s) && Settled(cache.bufs[..], cache.disk) && tail < n
      requires s <= Blocks()
      requires if block[tail] in s then SomeFree(cache.bufs[..]) else TwoFree(cache.bufs[..])
      modifies cache, cache.bufs
      ensures Shape() && Pinned(cache.bufs[..], s - {block[tail]}) && Settled(cache.bufs[..], cache.disk)
      ensures Undisturbed(old(cache.bufs[..]), cache.bufs[..])
      ensures var w := Write(block[tail], old(cache.Content())[lay.start + tail + 1]);
        w.blockno < lay.nblocks && Now() == Advance(old(Now()), [w])
    {
      hide Linked, LogicalAt, Unique, Coherent, Undisturbed, Pinned, Settled, GoodList, SameButLinks, Logical, Advance;
      ghost var s0, disk := cache.bufs[..], cache.disk;
      ghost var p, q := lay.start + tail + 1, block[tail];
      LoggedHome(lay, block[..n], tail, Blocks());
      var ok, lbuf := cache.BRead(lay.start + tail + 1);
      ghost var s1 := cache.bufs[..];
      HomeBuffer(s0, s1, s, q, lbuf, p);
      var dbuf;
      ok, dbuf := cache.BRead(block[tail]);
      ghost var s2 := cache.bufs[..];
      RoundReads(s0, s1, s2, lbuf, dbuf, p, q, disk, s);
      ghost var data := cache.bufs[lbuf].data;
      ghost var s3, s4 := CopyOver(lbuf, dbuf);
      Round(s0, s1, s2, s3, s4, cache.bufs[..], lbuf, dbuf, dbuf, lbuf, p, q, disk, s, data);
      AdvanceOne(old(Now()), Write(q, data));
    }

    // write_head: overwrite the header block on disk.
    method WriteHead(ghost s: set<nat>)
      requires Shape() && Pinned(cache.bufs[..], s) && Settled(cache.bufs[..], cache.disk)
      requires SomeFree(cache.bufs[..]) && lay.start !in s
      modifies cache, cache.bufs
      ensures Shape() && Pinned(cache.bufs[..], s) && Settled(cache.bufs[..], cache.disk)
      ensures Undisturbed(old(cache.bufs[..]), cache.bufs[..])
      ensures var w := Write(lay.start, EncodeHead(old(cache.Content())[lay.start], block[..n]));
        w.blockno < lay.nblocks && Now() == Advance(old(Now()), [w])
    {
      hide Linked, LogicalAt, Unique, Coherent, Undisturbed, Pinned, Settled, GoodList, SameButLinks, Logical;
      hide Advance, Word, SetWord;
      ghost var s0, disk := cache.bufs[..], cache.disk;
      var ok, buf := cache.BRead(lay.start);
      ghost var s1 := cache.bufs[..];
      var hb := SetWord(cache.bufs[buf].data, 0, n);
      for i := 0 to n
        invariant hb == EncodeBlocks(SetWord(cache.bufs[buf].data, 0, n), block[..i])
      {
        assert block[..i + 1][..i] == block[..i];
        hb := SetWord(hb, i + 1, block[i]);
      }
      SingleState(s0, s1, disk, s, buf, lay.start, hb);
      cache.Store(buf, hb);
      cache.BWrite(buf);
      ghost var s2 := cache.bufs[..];
      assert s2 == s1[buf := s1[buf].(data := hb, dirty := false)];
      cache.BRelse(buf);
      ReleasedState(s2, cache.bufs[..], cache.disk, s, buf);
      SingleUndisturbed(s0, s1, s2, cache.bufs[..], buf, lay.start, hb);
      AdvanceOne(old(Now()), Write(lay.start, hb));
    }

    // write_log.
    method WriteLog()
      requires Valid() && Settled(cache.bufs[..], cache.disk) && SomeFree(cache.bufs[..])
      modifies cache, cache.bufs
      ensures Valid() && Settled(cache.bufs[..], cache.disk)
      ensures Undisturbed(old(cache.bufs[..]), cache.bufs[..])
      ensures var ws := Copies(lay, LoggedContent(old(cache.Content()), block[..n]));
        InRange(ws, lay.nblocks) && Now() == Advance(old(Now()), ws)
    {
      hide Linked, Logical, Unique, Coherent, Pinned, Settled, SameButLinks, Undisturbed, Advance;
      ghost var v0 := Now();
      ghost var vals := LoggedContent(v0.content, block[..n]);
      ghost var ws := Copies(lay, vals);
      UndisturbedSelf(cache.bufs[..]);
      AdvanceNone(v0, ws);
      for tail := 0 to n
        invariant Valid() && Settled(cache.bufs[..], cache.disk) && SomeFree(cache.bufs[..])
        invariant Undisturbed(old(cache.bufs[..]), cache.bufs[..])
        invariant Now() == Advance(v0, ws[..tail])
      {
        ghost var mid := cache.bufs[..];
        CopiesKeepHome(lay, v0, vals, tail, block[..n]);
        LogBlock(tail);
        UndisturbedTrans(old(cache.bufs[..]), mid, cache.bufs[..]);
        AdvanceNext(v0, ws, tail);
      }
    }

    ghost function Rest(pinned: bool, tail: nat): set<nat>
      reads this, block
      requires n <= block.Length
    {
      if pinned then set i | tail <= i < n :: block[i] else {}
    }

    // install_trans, in a commit (the home blocks are pinned) or in recovery.
    method InstallTrans(ghost pinned: bool)
      requires Shape() && Settled(cache.bufs[..], cache.disk)
      requires Pinned(cache.bufs[..], Rest(pinned, 0))
      requires if pinned then SomeFree(cache.bufs[..]) else TwoFree(cache.bufs[..])
      modifies cache, cache.bufs
      ensures Shape() && Pinned(cache.bufs[..], {}) && Settled(cache.bufs[..], cache.disk)
      ensures Undisturbed(old(cache.bufs[..]), cache.bufs[..])
      ensures var ws := Installs(block[..n], LogVals(lay, old(cache.Content()), n));
        InRange(ws, lay.nblocks) && Now() == Advance(old(Now()), ws)
    {
      hide Linked, Logical, Unique, Coherent, Pinned, Settled, SameButLinks, Undisturbed, Advance, TwoFree, SomeFree;
      ghost var v0 := Now();
      ghost var ws := Installs(block[..n], LogVals(lay, v0.content, n));
      UndisturbedSelf(cache.bufs[..]);
      AdvanceNone(v0, ws);
      for tail := 0 to n
        invariant Shape() && Settled(cache.bufs[..], cache.disk)
        invariant Pinned(cache.bufs[..], Rest(pinned, tail))
        invariant if pinned then SomeFree(cache.bufs[..]) else TwoFree(cache.bufs[..])
        invariant Undisturbed(old(cache.bufs[..]), cache.bufs[..])
        invariant Now() == Advance(v0, ws[..tail])
      {
        ghost var mid := cache.bufs[..];
        InstallsKeepLog(lay, v0, tail, block[..n]);
        RestNext(pinned, tail);
        InstallBlock(tail, Rest(pinned, tail));
        StaysFree(mid, cache.bufs[..]);
        UndisturbedTrans(old(cache.bufs[..]), mid, cache.bufs[..]);
        AdvanceNext(v0, ws, tail);
      }
      assert Rest(pinned, n) == {};
    }

    lemma RestNext(pinned: bool, tail: nat)
      requires n <= block.Length && tail < n && Distinct(block[..n])
      ensures Rest(pinned, tail) <= Blocks()
      ensures pinned <==> block[tail] in Rest(pinned, tail)
      ensures Rest(pinned, tail) - {block[tail]} == Rest(pinned, tail + 1)
    {
      assert forall i | 0 <= i < n :: block[i] == block[..n][i];
      assert pinned ==> block[tail] in Rest(pinned, tail);
    }

    // No committed transaction waits in the on-disk log.
    ghost predicate LogEmpty()
      reads this, cache
      requires lay.Valid() && |cache.disk| == lay.nblocks
    {
      HeadOk(cache.disk[lay.start]) && Head(cache.disk[lay.start]) == []
    }

    // commit. All modified buffers are logged; one buffer is free for the log
    // blocks (else bget panics).
    method Commit()
      requires Valid() && Settled(cache.bufs[..], cache.disk) && LogEmpty()
      requires committing           // so that begin_op waits meanwhile
      requires n > 0 ==> SomeFree(cache.bufs[..])
      modifies this`n, cache, cache.bufs
      ensures Valid() && n == 0 && Settled(cache.bufs[..], cache.disk) && LogEmpty()
      ensures Undisturbed(old(cache.bufs[..]), cache.bufs[..])
      ensures var bl := old(block[..n]);
        var ws := CommitWrites(lay, old(cache.disk[lay.start]), bl, LoggedContent(old(cache.Content()), bl));
        InRange(ws, lay.nblocks) && Now() == Advance(old(Now()), ws)
      ensures SameHome(lay, cache.Content(), old(cache.Content()))
      ensures cache.disk == cache.Content()
    {
      hide Linked, Logical, Unique, Coherent, Pinned, Settled, SameButLinks, Undisturbed, Advance, TwoFree;
      hide SomeFree, EncodeHead, Head, Word;
      ghost var bl, v0, s0 := block[..n], Now(), cache.bufs[..];
      HeaderClean(lay, s0, cache.disk, bl, Blocks());
      if n > 0 {
        CommitSteps(lay, v0, bl);
        WriteLog();
        ghost var s1 := cache.bufs[..];
        StaysFree(s0, s1);
        WriteHead(Blocks());
        ghost var s2 := cache.bufs[..];
        StaysFree(s1, s2);
        assert Rest(true, 0) == Blocks();
        InstallTrans(true);
        ghost var s3 := cache.bufs[..];
        StaysFree(s2, s3);
        n := 0;
        assert block[..n] == [];
        WriteHead({});
        UndisturbedTrans(s0, s1, s2);
        UndisturbedTrans(s0, s2, s3);
        UndisturbedTrans(s0, s3, cache.bufs[..]);
        CommitEnd(lay, v0, bl);
      } else {
        UndisturbedSelf(s0);
        AdvanceNone(v0, []);
      }
      assert Blocks() == {};
      AllClean(cache.bufs[..], cache.disk);
    }

    // read_head.
    method ReadHead()
      requires block.Length == LOGSIZE && cache.Valid() && lay.Valid() && |cache.disk| == lay.nblocks
      requires Settled(cache.bufs[..], cache.disk) && Pinned(cache.bufs[..], {}) && SomeFree(cache.bufs[..])
      requires GoodDisk(lay, cache.disk)
      modifies this`n, block, cache, cache.bufs
      ensures Shape() && HeadOk(cache.disk[lay.start]) && block[..n] == Head(cache.disk[lay.start])
      ensures Settled(cache.bufs[..], cache.disk) && Pinned(cache.bufs[..], {})
      ensures Undisturbed(old(cache.bufs[..]), cache.bufs[..])
      ensures Now() == old(Now())
    {
      hide Linked, LogicalAt, Unique, Coherent, Undisturbed, Pinned, Settled, GoodList, SameButLinks, Logical, Word;
      ghost var s0, disk := cache.bufs[..], cache.disk;
      var ok, buf := cache.BRead(lay.start);
      ghost var s1 := cache.bufs[..];
      ReadState(s0, s1, disk, buf, lay.start);
      var lh := cache.bufs[buf].data;
      n := Word(lh, 0);
      for i := 0 to n
        invariant cache.bufs[..] == s1 && cache.Valid() && cache.disk == disk
        invariant cache.Content() == old(cache.Content()) && cache.writes == old(cache.writes)
        invariant n == Word(lh, 0) <= LOGSIZE
        invariant forall j | 0 <= j < i :: block[j] == Word(lh, 1 + j)
      {
        block[i] := Word(lh, 1 + i);
      }
      assert block[..n] == Head(disk[lay.start]);
      cache.BRelse(buf);
      ReleasedState(s1, cache.bufs[..], disk, {}, buf);
      ReadUndisturbed(s0, s1, cache.bufs[..], buf, lay.start);
    }

    // recover_from_log, over a cache in which no buffer is dirty.
    method Recover()
      requires block.Length == LOGSIZE && cache.Valid() && lay.Valid() && |cache.disk| == lay.nblocks
      requires Settled(cache.bufs[..], cache.disk) && Pinned(cache.bufs[..], {}) && TwoFree(cache.bufs[..])
      requires GoodDisk(lay, cache.disk)
      modifies this`n, block, cache, cache.bufs
      ensures Valid() && n == 0 && Settled(cache.bufs[..], cache.disk) && LogEmpty()
      ensures Undisturbed(old(cache.bufs[..]), cache.bufs[..])
      ensures var ws := RecoverWrites(lay, old(cache.disk));
        InRange(ws, lay.nblocks) && Now() == Advance(old(Now()), ws)
      ensures cache.Content() == cache.disk && SameHome(lay, cache.disk, Recovered(lay, old(cache.disk)))
    {
      hide Linked, Logical, Unique, Coherent, Pinned, Settled, SameButLinks, Undisturbed, Advance, TwoFree;
      hide EncodeHead, Head, Word;
      ghost var v0, s0 := Now(), cache.bufs[..];
      TwoIsSome(s0);
      AllClean(s0, cache.disk);
      ReadHead();
      ghost var s1 := cache.bufs[..];
      StaysFree(s0, s1);
      InstallTrans(false);
      ghost var s2 := cache.bufs[..];
      StaysFree(s1, s2);
      RecoverSteps(lay, v0);
      n := 0;
      assert block[..n] == [];
      TwoIsSome(s2);
      WriteHead({});
      UndisturbedTrans(s0, s1, s2);
      UndisturbedTrans(s0, s2, cache.bufs[..]);
      assert Blocks() == {};
      AllClean(cache.bufs[..], cache.disk);
    }

    // The state clients see between calls: the logged blocks are pinned, what is
    // changed and not logged is known, and the on-disk log is empty.
    ghost predicate Ready()
      reads this, cache, cache.bufs, block
    {
      Valid() && SettledBut(cache.bufs[..], cache.disk, changed) && LogEmpty()
    }

    // bread by a client.
    method Read(blockno: Word32) returns (ok: bool, b: nat)
      requires Ready() && blockno < lay.nblocks
      modifies cache, cache.bufs
      ensures Ready() && Now() == old(Now())
      ensures ok <==> exists i: nat :: i < NBUF && (Names(old(cache.bufs[i]), ROOTDEV, blockno) || Recyclable(old(cache.bufs[i])))
      ensures !ok ==> cache.bufs[..] == old(cache.bufs[..])
      ensures ok ==> Acquired(old(cache.bufs[..]), cache.bufs[..], b, blockno)
      ensures ok ==> cache.bufs[b].data == old(cache.Content())[blockno]
      ensures ok ==> (cache.bufs[b].dirty <==> blockno in Blocks())
    {
      hide Linked, LogicalAt, Unique, Coherent, Pinned, SettledBut, GoodList, Head;
      ghost var bs := cache.bufs[..];
      ok, b := cache.BRead(blockno);
      if ok {
        AcquiredBut(bs, cache.bufs[..], cache.disk, Blocks(), changed, b, blockno);
      }
    }

    // A client stores into a buffer it holds.
    method Store(b: nat, data: Block)
      requires Ready() && b < NBUF && cache.bufs[b].valid && cache.bufs[b].refcnt >= 1
      modifies this`changed, cache.bufs
      ensures Ready() && changed == old(changed) + {cache.bufs[b].blockno}
      ensures cache.bufs[..] == old(cache.bufs[..])[b := old(cache.bufs[b]).(data := data)]
      ensures cache.Content() == old(cache.Content())[cache.bufs[b].blockno := data]
    {
      hide Linked, LogicalAt, Unique, Coherent, Pinned, SettledBut, GoodList, Logical, Head;
      StoredBut(cache.bufs[..], cache.disk, Blocks(), changed, b, data);
      cache.Store(b, data);
      changed := changed + {cache.bufs[b].blockno};
    }

    // brelse by a client that has logged what it stored.
    method Release(b: nat)
      requires Ready() && b < NBUF && cache.bufs[b].valid && cache.bufs[b].refcnt >= 1
      requires cache.bufs[b].blockno !in changed
      modifies cache, cache.bufs
      ensures Ready() && Now() == old(Now())
      ensures Released(old(cache.bufs[..]), cache.bufs[..], b)
    {
      hide Linked, LogicalAt, Unique, Coherent, Pinned, GoodList, Logical, Head;
      ghost var bs := cache.bufs[..];
      cache.BRelse(b);
      ReleasedBut(bs, cache.bufs[..], cache.disk, Blocks(), changed, b);
    }

    // log_write on a held buffer of a home block. ok is false exactly where the
    // kernel panics ("too big a transaction", "log_write outside of trans").
    method LogWrite(b: nat) returns (ok: bool)
      requires Ready()
      requires b < NBUF && cache.bufs[b].valid && cache.bufs[b].refcnt >= 1 && !lay.InLog(cache.bufs[b].blockno)
      modifies this`n, this`changed, block, cache.bufs
      ensures ok <==> old(n) < LOGSIZE && old(n) < lay.size - 1 && outstanding >= 1
      ensures Ready() && Now() == old(Now())
      ensures !ok ==> n == old(n) && block[..] == old(block[..]) && cache.bufs[..] == old(cache.bufs[..])
      ensures ok ==> block[..n] == Absorb(old(block[..n]), cache.bufs[b].blockno)
      ensures ok ==> cache.bufs[..] == old(cache.bufs[..])[b := old(cache.bufs[b]).(dirty := true)]
      ensures changed == if ok then old(changed) - {cache.bufs[b].blockno} else old(changed)
    {
      assert cache.bufs[b].dev == ROOTDEV && cache.bufs[b].blockno < lay.nblocks;
      hide Linked, Logical, Unique, Coherent, Pinned, SettledBut, GoodList, Absorb, Head;
      BlocksAre();
      if n >= LOGSIZE || n >= lay.size - 1 || outstanding < 1 {
        return false;
      }
      ghost var bl := block[..n];
      Record(cache.bufs[b].blockno);
      AbsorbState(lay, bl, cache.bufs[..], b);
      PinLogged(b);
      BlocksAre();
      ok := true;
    }

    // b->flags |= B_DIRTY: the buffer's changes are logged.
    method PinLogged(b: nat)
      requires cache.Valid() && SettledBut(cache.bufs[..], cache.disk, changed)
      requires b < NBUF && cache.bufs[b].valid && cache.bufs[b].refcnt >= 1
      modifies this`changed, cache.bufs
      ensures cache.Valid() && SettledBut(cache.bufs[..], cache.disk, changed)
      ensures changed == old(changed) - {cache.bufs[b].blockno}
      ensures cache.bufs[..] == old(cache.bufs[..])[b := old(cache.bufs[b]).(dirty := true)]
      ensures cache.Content() == old(cache.Content())
    {
      hide Linked, Logical, Unique, Coherent, SettledBut;
      LoggedBut(cache.bufs[..], cache.disk, changed, b);
      cache.Pin(b);
      changed := changed - {cache.bufs[b].blockno};
    }

    // The loop of log_write and the stores into lh.
    method Record(blockno: Word32)
      requires n < LOGSIZE == block.Length
      modifies this`n, block
      ensures n <= LOGSIZE && block[..n] == Absorb(old(block[..n]), blockno)
    {
      ghost var bl := block[..n];
      var i := 0;
      while i < n
        invariant 0 <= i <= n
        invariant forall j | 0 <= j < i :: block[j] != blockno
      {
        if block[i] == blockno {
          break;
        }
        i := i + 1;
      }
      block[i] := blockno;
      if i == n {
        n := n + 1;
      }
      assert block[..n] == Absorb(bl, blockno);
    }

    // One pass of the loop in begin_op, under log.lock: the operation is admitted
    // just when all that are admitted then may log MAXOPBLOCKS blocks each and
    // still fit the log.
    method TryBeginOp() returns (admitted: bool)
      requires Ready()
      modifies this`outstanding
      ensures Ready()
      ensures admitted <==> !committing && RoomFor(n, old(outstanding) + 1)
      ensures outstanding == old(outstanding) + if admitted then 1 else 0
    {
      hide RoomFor;
      RoomExact(n, outstanding + 1);
      if committing || n + (outstanding + 1) * MAXOPBLOCKS > LOGSIZE {
        return false;
      }
      outstanding := outstanding + 1;
      admitted := true;
    }

    // end_op: the last outstanding operation commits.
    method EndOp()
      requires Ready() && outstanding >= 1 && !committing     // else panic("log.committing")
      requires outstanding == 1 ==> changed == {}
      requires outstanding == 1 && n > 0 ==> SomeFree(cache.bufs[..])
      modifies this`outstanding, this`committing, this`n, cache, cache.bufs
      ensures Ready() && !committing && outstanding == old(outstanding) - 1
      ensures Undisturbed(old(cache.bufs[..]), cache.bufs[..])
      ensures outstanding == 0 ==>
        var bl := old(block[..n]);
        var ws := CommitWrites(lay, old(cache.disk[lay.start]), bl, LoggedContent(old(cache.Content()), bl));
        InRange(ws, lay.nblocks) && Now() == Advance(old(Now()), ws)
      ensures outstanding == 0 ==>
        n == 0 && cache.disk == cache.Content() && SameHome(lay, cache.Content(), old(cache.Content()))
      ensures outstanding > 0 ==> n == old(n) && block[..] == old(block[..]) && Now() == old(Now())
    {
      hide Linked, Logical, Unique, Coherent, Pinned, SettledBut, Undisturbed, Advance, Head, GoodList;
      UndisturbedSelf(cache.bufs[..]);
      var doCommit := false;
      outstanding := outstanding - 1;
      if outstanding == 0 {
        doCommit := true;
        committing := true;
      }
      if doCommit {
        Commit();
        committing := false;
      }
    }

    // Nobody holds a buffer outside held.
    ghost predicate HeldBy(held: set<nat>)
      reads cache, cache.bufs
      requires cache.bufs.Length == NBUF + 1
    {
      forall i | 0 <= i < NBUF && cache.bufs[i].refcnt > 0 :: i in held
    }

    // One update by a client: bread, a store, log_write, brelse.
    method Put(w: Write, ghost held: set<nat>) returns (ok: bool)
      requires Ready() && outstanding >= 1 && HeldBy(held) && |held| + n < NBUF
      requires w.blockno < lay.nblocks && !lay.InLog(w.blockno) && n < LOGSIZE && n < lay.size - 1
      modifies this`n, this`changed, block, cache, cache.bufs
      ensures Ready() && HeldBy(held) && changed == old(changed) - {w.blockno}
      ensures old(n) <= n <= old(n) + 1
      ensures Now() == old(Now()).(content := old(cache.Content())[w.blockno := w.data])
    {
      hide Linked, LogicalAt, Unique, Coherent, Pinned, SettledBut, GoodList, Logical, Head, Undisturbed;
      FreeToRead(held);
      var b;
      ok, b := Read(w.blockno);
      Store(b, w.data);
      ok := LogWrite(b);
      Release(b);
    }

    lemma FreeToRead(held: set<nat>)
      requires Valid() && HeldBy(held) && |held| + n < NBUF
      ensures SomeFree(cache.bufs[..])
    {
      var bl := block[..n];
      BlocksAre();
      hide Linked, Unique, Pinned, GoodList;
      BufferLeft(cache.bufs[..], held, bl);
    }

    // One file system operation while no other is outstanding, from begin_op to
    // end_op: its updates reach the disk, in order, and nothing else changes; and
    // a crash after any of its block writes recovers all of them or none.
    method Transaction(us: seq<Write>, ghost held: set<nat>)
      requires Ready() && outstanding == 0 && !committing && n == 0 && changed == {}
      requires |us| <= MAXOPBLOCKS && |us| < lay.size && HeldBy(held) && |held| + MAXOPBLOCKS < NBUF
      requires InRange(us, lay.nblocks) && forall k | 0 <= k < |us| :: !lay.InLog(us[k].blockno)
      modifies this, block, cache, cache.bufs
      ensures Ready() && outstanding == 0 && !committing && n == 0 && changed == {} && HeldBy(held)
      ensures cache.disk == cache.Content()
      ensures SameHome(lay, cache.Content(), ApplyWrites(old(cache.Content()), us))
      ensures old(cache.Content()) == old(cache.disk) && old(cache.writes) <= cache.writes
      ensures AllOrNothing(lay, old(cache.disk), cache.disk, cache.writes[|old(cache.writes)|..])
    {
      hide Linked, LogicalAt, Unique, Coherent, Pinned, SettledBut, GoodList, Logical, Head, RoomFor, SomeFree;
      hide Undisturbed;
      hide ApplyWrites, Advance, AllOrNothing;
      RoomExact(n, 1);
      ReadyClean();
      var admitted := TryBeginOp();
      ghost var c := cache.Content();
      ApplyNone(c, us);
      for k := 0 to |us|
        invariant Ready() && outstanding == 1 && !committing && changed == {} && n <= k && HeldBy(held)
        invariant cache.disk == old(cache.disk) && cache.writes == old(cache.writes)
        invariant cache.Content() == ApplyWrites(c, us[..k])
      {
        var ok := Put(us[k], held);
        ApplyNext(c, us, k);
      }
      FreeToRead(held);
      ghost var v, bl, bs := Now(), block[..n], cache.bufs[..];
      EndOp();
      HeldStill(bs, held);
      CommitAllOrNothing(lay, v, bl, Now());
    }

    lemma HeldStill(bs: seq<Buf>, held: set<nat>)
      requires cache.bufs.Length == NBUF + 1 == |bs| && Undisturbed(bs, cache.bufs[..])
      requires forall i | 0 <= i < NBUF && bs[i].refcnt > 0 :: i in held
      ensures HeldBy(held)
    {
    }

    lemma ReadyClean()
      requires Ready() && n == 0 && changed == {}
      ensures cache.Content() == cache.disk
    {
      assert Blocks() == {};
      AllClean(cache.bufs[..], cache.disk);
    }
  }

  // After any prefix of the block writes ws, recovery yields the home blocks of
  // d or those of e.
  ghost predicate AllOrNothing(lay: Layout, d: seq<Block>, e: seq<Block>, ws: seq<Write>) {
    InRange(ws, |d|) && forall k | 0 <= k <= |ws| :: Recovers(lay, ApplyWrites(d, ws[..k]), d, e)
  }

  ghost predicate Recovers(lay: Layout, img: seq<Block>, d: seq<Block>, e: seq<Block>) {
    GoodDisk(lay, img) && (SameHome(lay, Recovered(lay, img), d) || SameHome(lay, Recovered(lay, img), e))
  }

  lemma CommitAllOrNothing(lay: Layout, v: View, bl: seq<Word32>, v': View)
    requires lay.Valid() && |v.content| == |v.disk| == lay.nblocks && GoodList(lay, bl)
    requires HeadOk(v.disk[lay.start]) && Head(v.disk[lay.start]) == []
    requires var ws := CommitWrites(lay, v.disk[lay.start], bl, LoggedContent(v.content, bl));
      InRange(ws, lay.nblocks) && v' == Advance(v, ws)
    ensures v.writes <= v'.writes && AllOrNothing(lay, v.disk, v'.disk, v'.writes[|v.writes|..])
  {
    hide EncodeHead, Head, Word, ApplyWrites, Recovered;
    var vals := LoggedContent(v.content, bl);
    var ws := CommitWrites(lay, v.disk[lay.start], bl, vals);
    assert v'.writes[|v.writes|..] == ws && ws[..|ws|] == ws;
    if bl == [] {
      EmptyHeadRecovered(lay, v.disk);
      ApplyNone(v.disk, ws);
    } else {
      CommitDone(lay, v.disk, bl, vals);
    }
    forall k | 0 <= k <= |ws|
      ensures Recovers(lay, ApplyWrites(v.disk, ws[..k]), v.disk, v'.disk)
    {
      if bl != [] { CommitCrash(lay, v.disk, bl, vals, k); }
    }
  }

  lemma ApplyNone(d: seq<Block>, us: seq<Write>)
    requires InRange(us, |d|)
    ensures ApplyWrites(d, us[..0]) == d && us[..|us|] == us
  {
  }

  lemma ApplyNext(d: seq<Block>, us: seq<Write>, k: nat)
    requires InRange(us, |d|) && k < |us|
    ensures ApplyWrites(d, us[..k + 1]) == ApplyWrites(d, us[..k])[us[k].blockno := us[k].data]
  {
    assert us[..k + 1][..k] == us[..k];
  }

  // At most NBUF - 1 buffers held or logged leave one that bget can recycle, so
  // commit never panics with "bget: no buffers". log_write stops at
  // log.size - 1 = 29 = NBUF - 1 blocks.
  lemma BufferLeft(bs: seq<Buf>, held: set<nat>, bl: seq<Word32>)
    requires |bs| == NBUF + 1 && Unique(bs)
    requires Pinned(bs, set i | 0 <= i < |bl| :: bl[i])
    requires forall i | 0 <= i < NBUF && bs[i].dirty :: bs[i].dev == ROOTDEV
    requires forall i | 0 <= i < NBUF && bs[i].refcnt > 0 :: i in held
    requires |held| + |bl| < NBUF
    ensures SomeFree(bs)
  {
    var s: set<nat> := set i | 0 <= i < |bl| :: bl[i];
    DistinctCount(bl);
    var dirty: set<nat> := set i | 0 <= i < NBUF && bs[i].dirty;
    DirtyCount(bs, dirty, s);
    var all := Range(0, NBUF);
    if all <= held + dirty {
      SubsetCount(all, held + dirty);
      assert false;
    }
    var i :| i in all && i !in held + dirty;
    assert Recyclable(bs[i]);
  }

  lemma {:induction false} DistinctCount(bl: seq<Word32>)
    ensures |set i | 0 <= i < |bl| :: bl[i]| <= |bl|
  {
    var s := set i | 0 <= i < |bl| :: bl[i];
    if bl == [] {
      assert s == {};
    } else {
      var k := |bl| - 1;
      DistinctCount(bl[..k]);
      assert s == (set i | 0 <= i < |bl[..k]| :: bl[..k][i]) + {bl[k]};
    }
  }

  // Dirty buffers cache different blocks.
  lemma {:induction false} DirtyCount(bs: seq<Buf>, dirty: set<nat>, s: set<nat>)
    requires |bs| == NBUF + 1 && Unique(bs)
    requires forall i | i in dirty :: i < NBUF && bs[i].dev == ROOTDEV && bs[i].blockno in s
    ensures |dirty| <= |s|
    decreases |dirty|
  {
    if dirty != {} {
      var i :| i in dirty;
      DirtyCount(bs, dirty - {i}, s - {bs[i].blockno});
    }
  }

  // Boot: fresh cache, initlog, recovery of whatever image the crash left.
  method Boot(image: seq<Block>, lay: Layout) returns (log: Log)
    requires GoodDisk(lay, image)
    ensures fresh(log) && log.Ready() && log.lay == lay && log.n == 0 && log.outstanding == 0 && !log.committing
    ensures log.changed == {} && log.HeldBy({})
    ensures log.cache.writes == RecoverWrites(lay, image)
    ensures log.cache.disk == RecoverImage(lay, image, |RecoverWrites(lay, image)|)
    ensures log.cache.Content() == log.cache.disk && SameHome(lay, log.cache.disk, Recovered(lay, image))
  {
    hide Linked, LogicalAt, Coherent, Unique, SameHome, Head, EncodeHead, HeadOk, Installs;
    var cache := new Cache(image);
    log := new Log(cache, lay);
    assert Recyclable(cache.bufs[0]) && Recyclable(cache.bufs[1]);
    log.Recover();
    assert RecoverWrites(lay, image)[..|RecoverWrites(lay, image)|] == RecoverWrites(lay, image);
  }
}
