// The log of the WFS file system as a value: entries parsed from bytes, the
// newest version of an inode, directories and paths.
module WfsLog {
  import opened Bytes
  import opened Common

  const SB: nat := 8            // sizeof(struct wfs_sb)
  const INODE: nat := 44        // sizeof(struct wfs_inode)
  const DENTRY: nat := 40       // sizeof(struct wfs_dentry)
  const NAME: nat := 32         // MAX_FILE_NAME_LEN

  datatype Inode = Inode(number: Word32, deleted: Word32, mode: Word32, uid: Word32, gid: Word32, flags: Word32,
                         size: Word32, atime: Word32, mtime: Word32, ctime: Word32, links: Word32)

  datatype Entry = Entry(inode: Inode, data: seq<Byte>)

  // ---------- bytes ----------

  function Le32(w: Word32): (b: seq<Byte>)
    ensures |b| == 4
  {
    [w % 0x100, w / 0x100 % 0x100, w / 0x1_0000 % 0x100, w / 0x100_0000]
  }

  lemma ReadBack(s: seq<Byte>, p: nat, w: Word32)
    requires p + 4 <= |s| && s[p..p + 4] == Le32(w)
    ensures U32(s, p) == w
  {
    BytesOfWord(w);
    var b := s[p..p + 4];
    assert b[0] == s[p] && b[1] == s[p + 1] && b[2] == s[p + 2] && b[3] == s[p + 3];
  }

  function InodeAt(s: seq<Byte>, p: nat): Inode
    requires p + INODE <= |s|
  {
    Inode(U32(s, p), U32(s, p + 4), U32(s, p + 8), U32(s, p + 12), U32(s, p + 16), U32(s, p + 20),
          U32(s, p + 24), U32(s, p + 28), U32(s, p + 32), U32(s, p + 36), U32(s, p + 40))
  }

  // There is a whole entry at p, not reaching past end.
  predicate HasEntry(s: seq<Byte>, p: nat, end: nat) {
    p + INODE <= end <= |s| && p + INODE + U32(s, p + 24) <= end
  }

  function EntryAt(s: seq<Byte>, p: nat): (e: Entry)
    requires HasEntry(s, p, |s|)
    ensures |e.data| == e.inode.size
  {
    Entry(InodeAt(s, p), s[p + INODE..p + INODE + U32(s, p + 24)])
  }

  function Size(e: Entry): nat { INODE + |e.data| }

  // The entries of the bytes p..end, if they are whole entries that end
  // exactly there.
  function Parse(s: seq<Byte>, p: nat, end: nat): Option<seq<Entry>>
    decreases end - p
  {
    if p == end <= |s| then Some([])
    else if !HasEntry(s, p, end) then None
    else
      var e := EntryAt(s, p);
      var rest := Parse(s, p + Size(e), end);
      if rest.None? then None else Some([e] + rest.value)
  }

  lemma {:induction false} ParseSame(s: seq<Byte>, s': seq<Byte>, p: nat, end: nat)
    requires p <= end <= |s| && |s'| == |s| && s'[..end] == s[..end]
    ensures Parse(s', p, end) == Parse(s, p, end)
    decreases end - p
  {
    hide InodeAt, U32;
    if p < end {
      if p + INODE <= end {
        SameEntry(s, s', p, end);
        if HasEntry(s, p, end) {
          ParseSame(s, s', p + Size(EntryAt(s, p)), end);
        }
      }
    }
  }

  lemma SameEntry(s: seq<Byte>, s': seq<Byte>, p: nat, end: nat)
    requires p + INODE <= end <= |s| && |s'| == |s| && s'[..end] == s[..end]
    ensures HasEntry(s', p, end) <==> HasEntry(s, p, end)
    ensures HasEntry(s, p, end) ==> EntryAt(s', p) == EntryAt(s, p)
  {
    assert forall k | 0 <= k < end :: s'[k] == s'[..end][k] == s[k];
  }

  // Entries appended at the end.
  lemma {:induction false} ParseAppend(s: seq<Byte>, p: nat, mid: nat, end: nat)
    requires p <= mid <= end <= |s| && Parse(s, p, mid).Some? && Parse(s, mid, end).Some?
    ensures Parse(s, p, end) == Some(Parse(s, p, mid).value + Parse(s, mid, end).value)
    decreases mid - p
  {
    hide InodeAt, EntryAt, U32, Parse, HasEntry;
    if p == mid {
      ParseNone(s, p);
      assert [] + Parse(s, mid, end).value == Parse(s, mid, end).value;
    } else {
      ParseHead(s, p, mid);
      var e := EntryAt(s, p);
      ParseAppend(s, p + Size(e), mid, end);
      ParseCons(s, p, mid, end);
      var first, second := Parse(s, p + Size(e), mid).value, Parse(s, mid, end).value;
      assert [e] + (first + second) == [e] + first + second;
    }
  }

  lemma ParseNone(s: seq<Byte>, p: nat)
    requires p <= |s|
    ensures Parse(s, p, p) == Some([])
  {
  }

  lemma ParseHead(s: seq<Byte>, p: nat, end: nat)
    requires Parse(s, p, end).Some? && p != end
    ensures HasEntry(s, p, end) && HasEntry(s, p, |s|) && p + Size(EntryAt(s, p)) <= end
    ensures var r := Parse(s, p + Size(EntryAt(s, p)), end);
      r.Some? && Parse(s, p, end) == Some([EntryAt(s, p)] + r.value)
  {
    hide InodeAt, U32;
  }

  lemma ParseCons(s: seq<Byte>, p: nat, mid: nat, end: nat)
    requires HasEntry(s, p, mid) && mid <= end <= |s| && Parse(s, p + Size(EntryAt(s, p)), end).Some?
    ensures Parse(s, p, end) == Some([EntryAt(s, p)] + Parse(s, p + Size(EntryAt(s, p)), end).value)
  {
    hide InodeAt, U32;
  }

  lemma ParseOne(s: seq<Byte>, p: nat)
    requires HasEntry(s, p, |s|)
    ensures var end := p + Size(EntryAt(s, p)); Parse(s, p, end) == Some([EntryAt(s, p)])
  {
    var e := EntryAt(s, p);
    var end := p + Size(e);
    assert HasEntry(s, p, end);
    assert Parse(s, end, end) == Some([]);
    assert [e] + [] == [e];
  }

  // ---------- inodes ----------

  predicate Live(e: Entry, ino: nat) { e.inode.number == ino && e.inode.deleted == 0 }

  // The last entry of inode ino that is not deleted.
  function Newest(es: seq<Entry>, ino: nat): (r: Option<Entry>)
    ensures r.Some? ==> Live(r.value, ino) && r.value in es
  {
    if es == [] then None
    else if Live(es[|es| - 1], ino) then Some(es[|es| - 1])
    else Newest(es[..|es| - 1], ino)
  }

  lemma NewestMore(es: seq<Entry>, e: Entry, ino: nat)
    ensures Newest(es + [e], ino) == if Live(e, ino) then Some(e) else Newest(es, ino)
  {
    assert (es + [e])[..|es|] == es;
  }

  // The largest inode number in use.
  function MaxNumber(es: seq<Entry>): (m: nat)
    ensures forall e | e in es && e.inode.deleted == 0 :: e.inode.number <= m
    ensures m == 0 || exists e | e in es :: Live(e, m)
  {
    if es == [] then 0
    else
      var m, e := MaxNumber(es[..|es| - 1]), es[|es| - 1];
      assert es == es[..|es| - 1] + [e];
      assert e in es;
      assert e.inode.deleted == 0 ==> Live(e, e.inode.number);
      if e.inode.number > m && e.inode.deleted == 0 then e.inode.number else m
  }

  lemma MaxMore(es: seq<Entry>, e: Entry)
    ensures MaxNumber(es + [e]) == if e.inode.number > MaxNumber(es) && e.inode.deleted == 0 then e.inode.number else MaxNumber(es)
  {
    assert (es + [e])[..|es|] == es;
  }

  lemma MaxNone()
    ensures MaxNumber([]) == 0
  {
  }

  // ---------- directories ----------

  predicate IsDir(e: Entry) { e.inode.mode / 0x1000 % 0x10 == 4 }      // S_IFDIR

  datatype Dentry = Dentry(name: seq<Byte>, number: nat)

  predicate IsName(name: seq<Byte>) { |name| < NAME && 0 !in name }

  // Up to the first NUL.
  function CString(s: seq<Byte>): (r: seq<Byte>)
    ensures |r| <= |s| && r == s[..|r|] && 0 !in r && (|r| < |s| ==> s[|r|] == 0)
  {
    if s == [] || s[0] == 0 then [] else [s[0]] + CString(s[1..])
  }

  function DentryAt(data: seq<Byte>, j: nat): Dentry
    requires j + DENTRY <= |data|
  {
    Dentry(CString(data[j..j + NAME]), U32(data, j + 32) + 0x1_0000_0000 * U32(data, j + 36))
  }

  // Whole dentries with terminated names and 32-bit numbers.
  predicate DirOk(data: seq<Byte>)
  {
    data == [] ||
    (|data| >= DENTRY && |DentryAt(data, 0).name| < NAME && U32(data, 36) == 0 && DirOk(data[DENTRY..]))
  }

  function Dentries(data: seq<Byte>): seq<Dentry> {
    if |data| < DENTRY then [] else [DentryAt(data, 0)] + Dentries(data[DENTRY..])
  }

  // The number under the first dentry with that name.
  function Lookup(ds: seq<Dentry>, name: seq<Byte>): Option<nat> {
    if ds == [] then None
    else if ds[0].name == name then Some(ds[0].number)
    else Lookup(ds[1..], name)
  }

  lemma {:induction false} LookupMore(ds: seq<Dentry>, d: Dentry, name: seq<Byte>)
    ensures Lookup(ds + [d], name) ==
      if Lookup(ds, name).Some? then Lookup(ds, name) else if d.name == name then Some(d.number) else None
  {
    if ds == [] {
      assert ds + [d] == [d];
    } else {
      assert (ds + [d])[1..] == ds[1..] + [d];
      LookupMore(ds[1..], d, name);
    }
  }

  lemma {:induction false} DentriesMore(data: seq<Byte>, one: seq<Byte>)
    requires DirOk(data) && |one| == DENTRY && DirOk(one)
    ensures DirOk(data + one) && Dentries(data + one) == Dentries(data) + [DentryAt(one, 0)]
    decreases |data|
  {
    hide CString, U32;
    var all := data + one;
    if data == [] {
      assert all == one && one[DENTRY..] == [];
    } else {
      assert all[DENTRY..] == data[DENTRY..] + one;
      DentriesMore(data[DENTRY..], one);
      FirstDentry(data, all);
    }
  }

  lemma FirstDentry(data: seq<Byte>, all: seq<Byte>)
    requires |data| >= DENTRY && data <= all
    ensures DentryAt(all, 0) == DentryAt(data, 0) && U32(all, 36) == U32(data, 36)
  {
    assert all[0..NAME] == data[0..NAME];
    assert all[32] == data[32] && all[33] == data[33] && all[34] == data[34] && all[35] == data[35];
    assert all[36] == data[36] && all[37] == data[37] && all[38] == data[38] && all[39] == data[39];
  }

  // ---------- paths ----------

  function Walk(es: seq<Entry>, cur: Option<Entry>, path: seq<seq<Byte>>): Option<Entry>
    decreases |path|
  {
    if cur.None? || path == [] then cur
    else
      var n := Lookup(Dentries(cur.value.data), path[0]);
      if n.None? then None else Walk(es, Newest(es, n.value), path[1..])
  }

  // Only directories have names in them.
  predicate ThroughDirs(es: seq<Entry>, cur: Option<Entry>, path: seq<seq<Byte>>)
    decreases |path|
  {
    cur.None? || path == [] ||
    (IsDir(cur.value) &&
     var n := Lookup(Dentries(cur.value.data), path[0]);
     n.None? || ThroughDirs(es, Newest(es, n.value), path[1..]))
  }

  function Resolve(es: seq<Entry>, path: seq<seq<Byte>>): Option<Entry> { Walk(es, Newest(es, 0), path) }

  ghost predicate DirsOk(es: seq<Entry>) { forall e | e in es && IsDir(e) :: DirOk(e.data) }

  // As long as nothing is unlinked: no entry is deleted, every dentry names an
  // inode, and only directories have dentries.
  ghost predicate Linked(es: seq<Entry>) {
    && (forall e | e in es :: e.inode.deleted == 0)
    && (forall e, d | e in es && IsDir(e) && d in Dentries(e.data) :: Newest(es, d.number).Some?)
    && Newest(es, 0).Some?
  }

  // ---------- creating a name ----------

  // es2 is es after name was added to directory parent for the new inode num.
  ghost predicate Created(es: seq<Entry>, es2: seq<Entry>, parent: nat, name: seq<Byte>, num: nat) {
    && parent != num && Newest(es, num).None? && Newest(es2, num).Some? && Newest(es2, num).value.data == []
    && Newest(es, parent).Some? && Newest(es2, parent).Some?
    && (var p, p2 := Newest(es, parent).value, Newest(es2, parent).value;
        && IsDir(p) && IsDir(p2) && Lookup(Dentries(p.data), name).None?
        && Dentries(p2.data) == Dentries(p.data) + [Dentry(name, num)])
    && forall ino: nat | ino != parent && ino != num :: Newest(es2, ino) == Newest(es, ino)
  }

  // An unsigned long that fits 32 bits.
  function Le64(num: Word32): (b: seq<Byte>)
    ensures |b| == 8
  {
    Le32(num) + [0, 0, 0, 0]
  }

  // The versions that mknod and mkdir append.
  function ParentWith(p: Entry, one: seq<Byte>): Entry
    requires p.inode.size + DENTRY < 0x1_0000_0000
  {
    Entry(p.inode.(size := p.inode.size + DENTRY), p.data + one)
  }

  lemma NumberUsed(es: seq<Entry>, ino: nat)
    ensures Newest(es, ino).Some? ==> ino <= MaxNumber(es)
  {
    hide MaxNumber;
  }

  // A free number is larger than all numbers in use.
  lemma FreshNumber(es: seq<Entry>)
    ensures Newest(es, MaxNumber(es) + 1).None?
    ensures (forall e | e in es :: e.inode.deleted == 0) ==> forall e | e in es :: e.inode.number != MaxNumber(es) + 1
  {
    NumberUsed(es, MaxNumber(es) + 1);
  }

  lemma CreateNewest(es: seq<Entry>, p: Entry, one: seq<Byte>, f: Entry, parent: nat, name: seq<Byte>)
    requires Newest(es, parent) == Some(p) && IsDir(p) && DirOk(p.data) && p.inode.size == |p.data|
    requires |one| == DENTRY && DirOk(one) && DentryAt(one, 0) == Dentry(name, MaxNumber(es) + 1)
    requires p.inode.size + DENTRY < 0x1_0000_0000 && Live(f, MaxNumber(es) + 1) && f.data == []
    requires Lookup(Dentries(p.data), name).None?
    ensures Created(es, es + [ParentWith(p, one), f], parent, name, MaxNumber(es) + 1)
  {
    var p2 := ParentWith(p, one);
    hide Dentries, DirOk, DentryAt, Lookup, MaxNumber, Newest, IsDir, Created;
    FreshNumber(es);
    DentriesMore(p.data, one);
    CreateNumbers(es, p, f, parent);
    SameMode(p, p2);
    NewestTwo(es, p2, f);
    CreatedFrom(es, p, p2, f, parent, name, MaxNumber(es) + 1);
  }

  lemma CreatedFrom(es: seq<Entry>, p: Entry, p2: Entry, f: Entry, parent: nat, name: seq<Byte>, num: nat)
    requires Newest(es, parent) == Some(p) && IsDir(p) && IsDir(p2) && Newest(es, num).None? && f.data == []
    requires p2.inode.number == parent != num == f.inode.number
    requires Lookup(Dentries(p.data), name).None? && Dentries(p2.data) == Dentries(p.data) + [Dentry(name, num)]
    requires forall ino: nat :: Newest(es + [p2, f], ino) == NewestAfter(es, p2, f, ino)
    ensures Created(es, es + [p2, f], parent, name, num)
  {
    hide Dentries, Lookup, Newest, IsDir;
  }

  lemma SameMode(e: Entry, e2: Entry)
    requires e.inode.mode == e2.inode.mode
    ensures IsDir(e) == IsDir(e2)
  {
  }

  function NewestAfter(es: seq<Entry>, p: Entry, f: Entry, ino: nat): Option<Entry> {
    if ino == f.inode.number then Some(f) else if ino == p.inode.number then Some(p) else Newest(es, ino)
  }

  lemma NewestTwo(es: seq<Entry>, p: Entry, f: Entry)
    requires p.inode.deleted == 0 && f.inode.deleted == 0 && p.inode.number != f.inode.number
    ensures forall ino: nat :: Newest(es + [p, f], ino) == NewestAfter(es, p, f, ino)
  {
    assert es + [p, f] == es + [p] + [f];
    forall ino: nat
      ensures Newest(es + [p, f], ino) == NewestAfter(es, p, f, ino)
    {
      NewestMore(es, p, ino);
      NewestMore(es + [p], f, ino);
    }
  }

  // What a path leads to after a name was created: what it led to before, in
  // its newest version, or the new inode under its new name.
  ghost predicate SeesCreated(es: seq<Entry>, es2: seq<Entry>, parent: nat, name: seq<Byte>, num: nat,
                              cur: nat, path: seq<seq<Byte>>)
  {
    var r, r2 := Walk(es, Newest(es, cur), path), Walk(es2, Newest(es2, cur), path);
    if r.Some? then r2 == Newest(es2, r.value.inode.number)
    else r2 == if AtName(es, parent, name, cur, path) then Newest(es2, num) else None
  }

  ghost predicate AtName(es: seq<Entry>, parent: nat, name: seq<Byte>, cur: nat, path: seq<seq<Byte>>) {
    && path != [] && path[|path| - 1] == name
    && var r := Walk(es, Newest(es, cur), path[..|path| - 1]); r.Some? && r.value.inode.number == parent
  }

  lemma {:induction false} CreateWalk(es: seq<Entry>, es2: seq<Entry>, parent: nat, name: seq<Byte>, num: nat,
                                     cur: nat, path: seq<seq<Byte>>)
    requires Linked(es) && Created(es, es2, parent, name, num)
    requires Newest(es, cur).Some? && ThroughDirs(es, Newest(es, cur), path)
    ensures SeesCreated(es, es2, parent, name, num, cur, path)
    decreases |path|
  {
    if path != [] {
      hide Dentries, Newest, Lookup;
      var n := Lookup(Dentries(Newest(es, cur).value.data), path[0]);
      LinkedLookup(es, cur, path[0]);
      if n.Some? {
        CreatedLookup(es, es2, parent, name, num, cur, path[0]);
        WalkNext(es, cur, n.value, path);
        WalkNext(es2, cur, n.value, path);
        hide Walk, Linked, Created, AtName;
        CreateWalk(es, es2, parent, name, num, n.value, path[1..]);
        AtNameNext(es, parent, name, cur, n.value, path);
      } else {
        hide Created, Linked;
        AtNameHere(es, parent, name, cur, path);
        CreateHere(es, es2, parent, name, num, cur, path);
      }
    }
  }

  // Names that were there lead to the same inode as before.
  lemma CreatedLookup(es: seq<Entry>, es2: seq<Entry>, parent: nat, name: seq<Byte>, num: nat, cur: nat, x: seq<Byte>)
    requires Created(es, es2, parent, name, num) && Newest(es, cur).Some?
    requires Lookup(Dentries(Newest(es, cur).value.data), x).Some?
    ensures Newest(es2, cur).Some?
    ensures Lookup(Dentries(Newest(es2, cur).value.data), x) == Lookup(Dentries(Newest(es, cur).value.data), x)
    ensures Newest(es, cur).value.inode.number == parent ==> x != name
  {
    hide Dentries, Lookup;
    LookupMore(Dentries(Newest(es, cur).value.data), Dentry(name, num), x);
  }

  lemma WalkNext(es: seq<Entry>, cur: nat, n: nat, path: seq<seq<Byte>>)
    requires path != [] && Newest(es, cur).Some? && Lookup(Dentries(Newest(es, cur).value.data), path[0]) == Some(n)
    ensures Walk(es, Newest(es, cur), path) == Walk(es, Newest(es, n), path[1..])
  {
  }

  // Dentries of a directory name inodes that exist.
  lemma LinkedLookup(es: seq<Entry>, cur: nat, name: seq<Byte>)
    requires Linked(es) && Newest(es, cur).Some? && IsDir(Newest(es, cur).value)
    ensures var n := Lookup(Dentries(Newest(es, cur).value.data), name); n.Some? ==> Newest(es, n.value).Some?
  {
    LookupIn(Dentries(Newest(es, cur).value.data), name);
    hide Newest, Dentries, Lookup, IsDir;
  }

  lemma LookupIn(ds: seq<Dentry>, name: seq<Byte>)
    ensures Lookup(ds, name).Some? ==> exists d | d in ds :: d.number == Lookup(ds, name).value
  {
    if ds != [] && ds[0].name != name { LookupIn(ds[1..], name); }
  }

  lemma AtNameNext(es: seq<Entry>, parent: nat, name: seq<Byte>, cur: nat, n: nat, path: seq<seq<Byte>>)
    requires path != [] && Newest(es, cur).Some? && Lookup(Dentries(Newest(es, cur).value.data), path[0]) == Some(n)
    requires Newest(es, cur).value.inode.number == parent ==> path[0] != name
    ensures AtName(es, parent, name, cur, path) <==> AtName(es, parent, name, n, path[1..])
  {
    if |path| > 1 {
      assert path[1..][..|path| - 2] == path[..|path| - 1][1..];
    }
  }

  lemma AtNameHere(es: seq<Entry>, parent: nat, name: seq<Byte>, cur: nat, path: seq<seq<Byte>>)
    requires path != [] && Newest(es, cur).Some? && Lookup(Dentries(Newest(es, cur).value.data), path[0]).None?
    ensures AtName(es, parent, name, cur, path) <==> path == [name] && cur == parent
  {
  }

  lemma CreateHere(es: seq<Entry>, es2: seq<Entry>, parent: nat, name: seq<Byte>, num: nat, cur: nat,
                   path: seq<seq<Byte>>)
    requires Created(es, es2, parent, name, num) && path != [] && Newest(es, cur).Some?
    requires Lookup(Dentries(Newest(es, cur).value.data), path[0]).None?
    ensures Walk(es2, Newest(es2, cur), path) == if path == [name] && cur == parent then Newest(es2, num) else None
  {
    var ds := Dentries(Newest(es, cur).value.data);
    LookupMore(ds, Dentry(name, num), path[0]);
    if cur == parent && path[0] == name && |path| > 1 {
      assert Walk(es2, Newest(es2, num), path[1..]) == None;
    }
  }

  lemma CreateLinked(es: seq<Entry>, p: Entry, one: seq<Byte>, f: Entry, parent: nat)
    requires Linked(es) && DirsOk(es) && Newest(es, parent) == Some(p) && IsDir(p) && p.inode.size == |p.data|
    requires |one| == DENTRY && DirOk(one) && DentryAt(one, 0).number == f.inode.number
    requires p.inode.size + DENTRY < 0x1_0000_0000 && Live(f, MaxNumber(es) + 1) && f.data == []
    ensures Linked(es + [ParentWith(p, one), f]) && DirsOk(es + [ParentWith(p, one), f])
  {
    hide Dentries, DentryAt, MaxNumber, Newest;
    CreateNumbers(es, p, f, parent);
    DentriesMore(p.data, one);
    NoDentry();
    hide DirOk;
    AppendLinked(es, p, DentryAt(one, 0), ParentWith(p, one), f);
  }

  lemma NoDentry()
    ensures Dentries([]) == [] && DirOk([])
  {
  }

  lemma CreateNumbers(es: seq<Entry>, p: Entry, f: Entry, parent: nat)
    requires Newest(es, parent) == Some(p) && Live(f, MaxNumber(es) + 1)
    ensures p in es && p.inode.deleted == 0 && f.inode.deleted == 0 && p.inode.number != f.inode.number
  {
    NumberUsed(es, parent);
  }

  lemma AppendLinked(es: seq<Entry>, p: Entry, d: Dentry, p2: Entry, f: Entry)
    requires Linked(es) && DirsOk(es) && p in es && IsDir(p) && p2.inode.deleted == 0 && f.inode.deleted == 0
    requires p2.inode.number != f.inode.number && DirOk(p2.data) && DirOk(f.data)
    requires Dentries(p2.data) == Dentries(p.data) + [d] && Dentries(f.data) == [] && d.number == f.inode.number
    ensures Linked(es + [p2, f]) && DirsOk(es + [p2, f])
  {
    hide Dentries, DirOk, Newest;
    NewestTwo(es, p2, f);
    LinkedAfter(es, p, d, p2, f);
    assert forall e | e in es + [p2, f] :: e in es || e == p2 || e == f;
  }

  lemma LinkedAfter(es: seq<Entry>, p: Entry, d: Dentry, p2: Entry, f: Entry)
    requires Linked(es) && p in es && IsDir(p) && p2.inode.deleted == 0 && f.inode.deleted == 0
    requires Dentries(p2.data) == Dentries(p.data) + [d] && Dentries(f.data) == [] && d.number == f.inode.number
    requires forall ino: nat :: Newest(es + [p2, f], ino) == NewestAfter(es, p2, f, ino)
    ensures Linked(es + [p2, f])
  {
    hide Dentries, Newest, IsDir;
    var es2 := es + [p2, f];
    forall e, c | e in es2 && IsDir(e) && c in Dentries(e.data)
      ensures Newest(es2, c.number).Some?
    {
      var r := NewestAfter(es, p2, f, c.number);
      assert e in es || e == p2;
      if e == p2 { assert c in Dentries(p.data) || c == d; }
    }
  }

  // ---------- writing a file ----------

  ghost predicate Wrote(es: seq<Entry>, es2: seq<Entry>, e: Entry, e2: Entry) {
    && Newest(es, e.inode.number) == Some(e) && Newest(es2, e.inode.number) == Some(e2) && !IsDir(e) && !IsDir(e2)
    && forall ino: nat | ino != e.inode.number :: Newest(es2, ino) == Newest(es, ino)
  }

  // A write changes no path.
  lemma {:induction false} WriteWalk(es: seq<Entry>, es2: seq<Entry>, e: Entry, e2: Entry, cur: nat,
                                     path: seq<seq<Byte>>)
    requires Wrote(es, es2, e, e2) && ThroughDirs(es, Newest(es, cur), path)
    ensures var r := Walk(es, Newest(es, cur), path);
      Walk(es2, Newest(es2, cur), path) == if r.None? then None else Newest(es2, r.value.inode.number)
    decreases |path|
  {
    if path != [] && Newest(es, cur).Some? {
      var n := Lookup(Dentries(Newest(es, cur).value.data), path[0]);
      if n.Some? {
        WriteWalk(es, es2, e, e2, n.value, path[1..]);
      }
    }
  }

  lemma WriteNewest(es: seq<Entry>, e: Entry, e2: Entry)
    requires Newest(es, e.inode.number) == Some(e) && !IsDir(e)
    requires e2.inode == e.inode.(size := e2.inode.size, mtime := e2.inode.mtime)
    ensures Wrote(es, es + [e2], e, e2)
    ensures Linked(es) ==> Linked(es + [e2])
    ensures DirsOk(es) ==> DirsOk(es + [e2])
  {
    hide Newest, Dentries, DirOk;
    forall ino: nat
      ensures Newest(es + [e2], ino) == if ino == e.inode.number then Some(e2) else Newest(es, ino)
    {
      NewestMore(es, e2, ino);
    }
    assert forall x | x in es + [e2] :: x in es || x == e2;
  }

  // ---------- unlink ----------

  function Deleted(e: Entry): Entry { e.(inode := e.inode.(deleted := 1)) }

  // unlink marks the newest version alone: an older one comes back, unless
  // there is none.
  lemma UnlinkShows(es: seq<Entry>, k: nat, ino: nat)
    requires k < |es| && Live(es[k], ino) && forall j | k < j < |es| :: !Live(es[j], ino)
    ensures Newest(es[k := Deleted(es[k])], ino) == Newest(es[..k], ino)
    ensures Newest(es[k := Deleted(es[k])], ino).None? <==> forall j | 0 <= j < k :: !Live(es[j], ino)
  {
    var es2 := es[k := Deleted(es[k])];
    assert es2[..k] == es[..k];
    NewestTail(es2, k, ino);
    if Newest(es[..k], ino).None? {
      NewestNone(es[..k], ino);
    }
  }

  lemma {:induction false} NewestTail(es: seq<Entry>, k: nat, ino: nat)
    requires k <= |es| && forall j | k <= j < |es| :: !Live(es[j], ino)
    ensures Newest(es, ino) == Newest(es[..k], ino)
    decreases |es|
  {
    if k < |es| {
      NewestTail(es[..|es| - 1], k, ino);
      assert es[..|es| - 1][..k] == es[..k];
    } else {
      assert es[..k] == es;
    }
  }

  lemma {:induction false} NewestNone(es: seq<Entry>, ino: nat)
    ensures Newest(es, ino).None? <==> forall j | 0 <= j < |es| :: !Live(es[j], ino)
  {
    if es != [] {
      NewestNone(es[..|es| - 1], ino);
    }
  }

  // ---------- inode numbers over the life of a log ----------

  // The largest number ever handed out.
  function Highest(es: seq<Entry>): (h: nat)
    ensures forall e | e in es :: e.inode.number <= h
    ensures es != [] ==> exists e | e in es :: e.inode.number == h
  {
    if es == [] then 0
    else
      var h, e := Highest(es[..|es| - 1]), es[|es| - 1];
      assert es == es[..|es| - 1] + [e];
      assert e in es;
      if e.inode.number > h || |es| == 1 then e.inode.number else h
  }

  ghost predicate Occurs(es: seq<Entry>, n: nat) { exists e | e in es :: e.inode.number == n }

  ghost predicate InUse(es: seq<Entry>, n: nat) { exists e | e in es :: Live(e, n) }

  // No number was skipped, and the root is there.
  ghost predicate Contiguous(es: seq<Entry>) {
    (forall n: nat | n <= Highest(es) :: Occurs(es, n)) && InUse(es, 0)
  }

  ghost predicate Writes(es: seq<Entry>, es2: seq<Entry>) {
    exists e2 :: es2 == es + [e2] && InUse(es, e2.inode.number)
  }

  // mknod and mkdir.
  ghost predicate Creates(es: seq<Entry>, es2: seq<Entry>) {
    exists p2, f :: es2 == es + [p2, f] && InUse(es, p2.inode.number) && f.inode.number == MaxNumber(es) + 1
  }

  // Which entry is marked does not matter, if it is not the root's.
  ghost predicate Unlinks(es: seq<Entry>, es2: seq<Entry>) {
    exists k :: 0 <= k < |es| && es2 == es[k := Deleted(es[k])] && es[k].inode.number != 0
  }

  ghost predicate LogStep(es: seq<Entry>, es2: seq<Entry>) {
    Writes(es, es2) || Creates(es, es2) || Unlinks(es, es2)
  }

  // A log from mkfs on.
  ghost predicate LogRun(ess: seq<seq<Entry>>) {
    && |ess| > 0 && |ess[0]| == 1 && Live(ess[0][0], 0)
    && forall i | 0 <= i < |ess| - 1 :: LogStep(ess[i], ess[i + 1])
  }

  lemma AppendContiguous(es: seq<Entry>, e: Entry)
    requires Contiguous(es) && e.inode.number <= Highest(es) + 1
    ensures Contiguous(es + [e])
  {
    hide Highest;
    var es2 := es + [e];
    assert e in es2;
    forall n: nat | n <= Highest(es2)
      ensures Occurs(es2, n)
    {
      if n <= Highest(es) {
        assert Occurs(es, n);
        var x :| x in es && x.inode.number == n;
        assert x in es2;
      }
    }
    var r :| r in es && Live(r, 0);
    assert r in es2;
  }

  lemma UnlinkContiguous(es: seq<Entry>, k: nat)
    requires Contiguous(es) && k < |es| && es[k].inode.number != 0
    ensures Contiguous(es[k := Deleted(es[k])])
  {
    hide Highest;
    var es2 := es[k := Deleted(es[k])];
    forall n | Occurs(es, n) || Occurs(es2, n)
      ensures Occurs(es, n) && Occurs(es2, n)
    {
      if j :| 0 <= j < |es| && es[j].inode.number == n { assert es2[j] in es2; }
      if j :| 0 <= j < |es2| && es2[j].inode.number == n { assert es[j] in es; }
    }
    var r :| 0 <= r < |es| && Live(es[r], 0);
    assert es2[r] in es2;
  }

  lemma UsedBelow(es: seq<Entry>, n: nat)
    requires InUse(es, n)
    ensures n <= Highest(es)
  {
    hide Highest;
  }

  lemma WriteContiguous(es: seq<Entry>, es2: seq<Entry>)
    requires Contiguous(es) && Writes(es, es2)
    ensures Contiguous(es2)
  {
    var e2 :| es2 == es + [e2] && InUse(es, e2.inode.number);
    hide *;
    UsedBelow(es, e2.inode.number);
    AppendContiguous(es, e2);
  }

  lemma CreateContiguous(es: seq<Entry>, es2: seq<Entry>)
    requires Contiguous(es) && Creates(es, es2)
    ensures Contiguous(es2)
  {
    var p2, f :| es2 == es + [p2, f] && InUse(es, p2.inode.number) && f.inode.number == MaxNumber(es) + 1;
    hide *;
    UsedBelow(es, p2.inode.number);
    AppendContiguous(es, p2);
    MaxBelow(es, p2);
    AppendContiguous(es + [p2], f);
    assert es + [p2] + [f] == es2;
  }

  lemma StepContiguous(es: seq<Entry>, es2: seq<Entry>)
    requires Contiguous(es) && LogStep(es, es2)
    ensures Contiguous(es2)
  {
    if Writes(es, es2) {
      WriteContiguous(es, es2);
    } else if Creates(es, es2) {
      CreateContiguous(es, es2);
    } else {
      var k :| 0 <= k < |es| && es2 == es[k := Deleted(es[k])] && es[k].inode.number != 0;
      hide *;
      UnlinkContiguous(es, k);
    }
  }

  lemma {:induction false} RunContiguous(ess: seq<seq<Entry>>, i: nat)
    requires LogRun(ess) && i < |ess|
    ensures Contiguous(ess[i])
  {
    hide LogStep, MaxNumber;
    if i == 0 {
      assert ess[0][0] in ess[0];
    } else {
      hide Contiguous;
      RunContiguous(ess, i - 1);
      StepContiguous(ess[i - 1], ess[i]);
    }
  }

  lemma MaxBelow(es: seq<Entry>, e: Entry)
    ensures MaxNumber(es) <= Highest(es) <= Highest(es + [e])
  {
    hide MaxNumber;
    assert (es + [e])[..|es|] == es;
  }

  // Through all creates, writes and unlinks since mkfs: the number that the next
  // create takes is already in the log if and only if every entry with the
  // largest number ever handed out is deleted.
  lemma NumberReused(ess: seq<seq<Entry>>, i: nat)
    requires LogRun(ess) && i < |ess|
    ensures Occurs(ess[i], MaxNumber(ess[i]) + 1) <==> !InUse(ess[i], Highest(ess[i]))
  {
    RunContiguous(ess, i);
    hide LogRun, MaxNumber, Highest;
  }

  lemma SmallLog(root: Entry, f: Entry)
    requires Live(root, 0) && Live(f, 1)
    ensures MaxNumber([root]) == 0 && MaxNumber([root] + [root, Deleted(f)]) == 0
  {
    MaxNone();
    MaxMore([], root);
    MaxMore([root], root);
    MaxMore([root] + [root], Deleted(f));
    assert [] + [root] == [root];
    assert [root] + [root] + [Deleted(f)] == [root] + [root, Deleted(f)];
    hide MaxNumber;
  }

  // That happens: a file is made and unlinked, and its number is next.
  lemma NumberTaken() returns (ess: seq<seq<Entry>>)
    ensures LogRun(ess) && Occurs(ess[|ess| - 1], MaxNumber(ess[|ess| - 1]) + 1)
  {
    var root := Entry(Inode(0, 0, 0, 0, 0, 0, 0, 0, 0, 0, 0), []);
    var f := root.(inode := root.inode.(number := 1));
    var es0, es1, es2 := [root], [root] + [root, f], [root] + [root, Deleted(f)];
    SmallLog(root, f);
    hide MaxNumber, Deleted, Highest;
    assert root in es0;
    assert es1 == es0 + [root, f] && InUse(es0, root.inode.number) && f.inode.number == MaxNumber(es0) + 1;
    assert es1[2] == f && es2 == es1[2 := Deleted(es1[2])];
    assert Creates(es0, es1) && Unlinks(es1, es2);
    hide Creates, Unlinks, Writes;
    ess := [es0, es1, es2];
    assert es2[2] in es2;
  }
}
