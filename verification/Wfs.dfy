// The operations of mount.wfs.c on the bytes of the disk.
module Wfs {
  import opened Bytes
  import opened Common
  import opened WfsLog

  const ENOENT: int := 2
  const EEXIST: int := 17
  const S_IFDIR: nat := 0x4000
  const S_IFREG: nat := 0x8000

  // s2 is s but for the bytes lo..hi.
  predicate SameBut(s: seq<Byte>, s2: seq<Byte>, lo: nat, hi: nat) {
    lo <= hi <= |s| && |s2| == |s| && s2[..lo] == s[..lo] && s2[hi..] == s[hi..]
  }

  class FileSystem {
    const disk: array<Byte>
    var head: nat                  // sb->head
    ghost var es: seq<Entry>       // the log, oldest entry first

    // The bytes from the superblock to the head are whole entries that end at
    // the head.
    ghost predicate Valid()
      reads this, disk
    {
      && SB <= head <= disk.Length < 0x1_0000_0000
      && Parse(disk[..], SB, head) == Some(es) && DirsOk(es)
    }

    // init_wfs: an empty root directory.
    constructor Mkfs(d: array<Byte>, t: Word32)
      requires SB + INODE <= d.Length < 0x1_0000_0000
      modifies d
      ensures Valid() && disk == d && es == [Entry(Root(t), [])] && Linked(es)
      ensures var i := es[0].inode;
        && i.number == 0 && i.deleted == 0 && i.mode == S_IFDIR && i.uid == 0 && i.gid == 0 && i.flags == 0
        && i.size == 0 && i.atime == t && i.mtime == t && i.ctime == t && i.links == 1
    {
      disk, head, es := d, SB + INODE, [Entry(Root(t), [])];
      new;
      PutInode(SB, Root(t));
      Formatted(disk[..], t);
    }

    method Get32(p: nat) returns (w: Word32)
      requires p + 4 <= disk.Length
      ensures w == U32(disk[..], p)
    {
      w := disk[p] as int + 0x100 * disk[p + 1] as int + 0x1_0000 * disk[p + 2] as int + 0x100_0000 * disk[p + 3] as int;
    }

    // get_log_entry: the address of the newest entry of ino that is not
    // deleted, or 0.
    method GetLogEntry(ino: nat) returns (res: nat)
      requires Valid()
      ensures res == 0 <==> Newest(es, ino).None?
      ensures res != 0 ==> EntryIn(disk[..], head, res, Newest(es, ino).value)
    {
      hide InodeAt, U32, DirsOk, Parse, Newest, EntryIn, HasEntry, EntryAt;
      NewestNone([], ino);
      ParseStart(disk[..], head, es);
      res := 0;
      var log := SB;
      ghost var k := 0;
      while log < head
        invariant SB <= log <= head && k <= |es| && Parse(disk[..], log, head) == Some(es[k..])
        invariant res == 0 <==> Newest(es[..k], ino).None?
        invariant res != 0 ==> EntryIn(disk[..], head, res, Newest(es[..k], ino).value)
        decreases head - log
      {
        ParseStep(disk[..], log, head, es, k);
        var number := Get32(log);
        var deleted := Get32(log + 4);
        NewestMore(es[..k], es[k], ino);
        if number == ino && deleted == 0 {
          res := log;
        }
        var size := Get32(log + 24);
        log := log + INODE + size;
        k := k + 1;
      }
      ParseEnd(disk[..], log, es, k);
    }

    // Max_InodeNum
    method MaxInodeNum() returns (m: nat)
      requires Valid()
      ensures m == MaxNumber(es)
    {
      hide InodeAt, U32, DirsOk, Parse, HasEntry, EntryAt, EntryIn, MaxNumber;
      MaxNone();
      ParseStart(disk[..], head, es);
      m := 0;
      var log := SB;
      ghost var k := 0;
      while log < head
        invariant SB <= log <= head && k <= |es| && Parse(disk[..], log, head) == Some(es[k..])
        invariant m == MaxNumber(es[..k])
        decreases head - log
      {
        ParseStep(disk[..], log, head, es, k);
        var number := Get32(log);
        var deleted := Get32(log + 4);
        MaxMore(es[..k], es[k]);
        if number > m && deleted == 0 {
          m := number;
        }
        var size := Get32(log + 24);
        log := log + INODE + size;
        k := k + 1;
      }
      ParseEnd(disk[..], log, es, k);
    }

    // strcmp with a string of at most NAME bytes.
    method StrEq(name: seq<Byte>, p: nat) returns (same: bool)
      requires p + NAME <= disk.Length && IsName(name) && |NameIn(disk[..], p)| < NAME
      ensures same <==> NameIn(disk[..], p) == name
    {
      ghost var field := disk[..][p..p + NAME];
      ghost var str := CString(field);
      var i := 0;
      while i < |name| && disk[p + i] == name[i]
        invariant 0 <= i <= |name| && i <= |str| && str[..i] == name[..i]
      {
        assert field[i] == disk[p + i];
        i := i + 1;
      }
      assert field[i] == disk[p + i];
      same := i == |name| && disk[p + i] == 0;
    }

    // get_inode_number: the number that the directory at p has for name, or -1.
    method GetInodeNumber(name: seq<Byte>, p: nat) returns (n: int)
      requires DirAt(disk[..], p) && IsName(name)
      ensures n == NumberAt(disk[..], p, name)
    {
      hide U32, DirIn, NumberIn, NameIn, IsName;
      var size := Get32(p + 24);
      var cur, end := p + INODE, p + INODE + size;
      DirBounds(disk[..], cur, end);
      while cur < end
        invariant p + INODE <= cur <= end && DirIn(disk[..], cur, end)
        invariant NumberAt(disk[..], p, name) == Code(NumberIn(disk[..], cur, end, name))
        decreases end - cur
      {
        DentryIn(disk[..], cur, end, name);
        var same := StrEq(name, cur);
        if same {
          n := Get32(cur + 32);
          return;
        }
        cur := cur + DENTRY;
      }
      NoDentries(disk[..], cur, name);
      n := -1;
    }

    // path_to_log_entry, with the path split at the slashes: 0 if there is no
    // such path.
    method PathToLogEntry(path: seq<seq<Byte>>) returns (p: nat)
      requires Valid() && (forall k | 0 <= k < |path| :: IsName(path[k])) && ThroughDirs(es, Newest(es, 0), path)
      ensures p == 0 <==> Resolve(es, path).None?
      ensures p != 0 ==> EntryIn(disk[..], head, p, Resolve(es, path).value)
    {
      hide Dentries, Lookup, Newest, EntryIn, DirOk, IsDir, Parse, DirAt, NumberAt;
      p := GetLogEntry(0);
      ghost var cur := Newest(es, 0);
      var i := 0;
      assert path[0..] == path;
      while i < |path|
        invariant 0 <= i <= |path| && (p == 0 <==> cur.None?)
        invariant p != 0 ==> EntryIn(disk[..], head, p, cur.value) && cur.value in es
        invariant ThroughDirs(es, cur, path[i..]) && Walk(es, cur, path[i..]) == Resolve(es, path)
      {
        if p == 0 {
          return;
        }
        DirParts(disk[..], head, p, cur.value, path[i]);
        var n := GetInodeNumber(path[i], p);
        if n == -1 {
          return 0;
        }
        assert path[i..][1..] == path[i + 1..];
        cur := Newest(es, n);
        p := GetLogEntry(n);
        i := i + 1;
      }
    }

    // memcpy to bytes after the source.
    method MemCpy(dst: nat, src: nat, n: nat)
      requires src + n <= dst && dst + n <= disk.Length
      modifies disk
      ensures SameBut(old(disk[..]), disk[..], dst, dst + n)
      ensures disk[..][dst..dst + n] == old(disk[..])[src..src + n]
    {
      for i := 0 to n
        invariant forall j | 0 <= j < disk.Length ::
          disk[j] == if dst <= j < dst + i then old(disk[src + (j - dst)]) else old(disk[j])
      {
        disk[dst + i] := disk[src + i];
      }
    }

    // memcpy or strcpy from outside the disk.
    method PutBytes(p: nat, b: seq<Byte>)
      requires p + |b| <= disk.Length
      modifies disk
      ensures SameBut(old(disk[..]), disk[..], p, p + |b|) && disk[..][p..p + |b|] == b
    {
      for i := 0 to |b|
        invariant forall j | 0 <= j < disk.Length :: disk[j] == if p <= j < p + i then b[j - p] else old(disk[j])
      {
        disk[p + i] := b[i];
      }
    }

    // The stores into the fields of a new inode.
    method PutInode(p: nat, f: Inode)
      requires p + INODE <= disk.Length
      modifies disk
      ensures SameBut(old(disk[..]), disk[..], p, p + INODE) && InodeAt(disk[..], p) == f
    {
      PutBytes(p, WordBytes(Fields(f)));
      InodeRead(disk[..], p, f);
    }

    // What my_mknod and my_mkdir share: a new version of the parent with one
    // more dentry, and an empty inode.
    method AddNode(parent: seq<seq<Byte>>, name: seq<Byte>, mode: Word32, uid: Word32, t: Word32) returns (r: int)
      requires Valid() && (forall k | 0 <= k < |parent| :: IsName(parent[k])) && IsName(name)
      requires ThroughDirs(es, Newest(es, 0), parent) && Resolve(es, parent).Some? && IsDir(Resolve(es, parent).value)
      requires head + 2 * INODE + |Resolve(es, parent).value.data| + DENTRY <= disk.Length
      requires MaxNumber(es) + 1 < 0x1_0000_0000
      modifies this, disk
      ensures Valid() && disk[..][..old(head)] == old(disk[..])[..old(head)]
      ensures r == -EEXIST <==> Lookup(Dentries(old(Resolve(es, parent)).value.data), name).Some?
      ensures r == -EEXIST ==> es == old(es) && head == old(head)
      ensures r != -EEXIST ==> r == 0 && head == old(head) + 2 * INODE + |old(Resolve(es, parent)).value.data| + DENTRY
      ensures r == 0 ==> Created(old(es), es, old(Resolve(es, parent)).value.inode.number, name, MaxNumber(old(es)) + 1)
      ensures r == 0 ==>
        NodeAdded(old(es), es, old(Resolve(es, parent)).value, name, NewInode(MaxNumber(old(es)) + 1, mode, uid, t))
      ensures r == 0 ==>
        NewestAre(es, old(Resolve(es, parent)).value, name, MaxNumber(old(es)) + 1, mode, uid, t)
      ensures Linked(old(es)) ==> Linked(es)
    {
      hide Parse, HasEntry, EntryAt, EntryIn, InodeAt, U32, Le32, Dentries, DirOk, Lookup, Newest, MaxNumber, Resolve;
      hide ThroughDirs, IsDir, SameBut, DirAt, NumberAt, NodeAdded, Created, Linked, Le64, NewestAre;
      ResolveIn(es, parent);
      ghost var e := Resolve(es, parent).value;
      var p := PathToLogEntry(parent);
      var m := MaxInodeNum();
      DirParts(disk[..], head, p, e, name);
      var dup := GetInodeNumber(name, p);
      if dup != -1 {
        return -EEXIST;
      }
      var f := NewInode(m + 1, mode, uid, t);
      ghost var one := WriteNode(p, e, name, f);
      AddedKeeps(old(es), e, name, f, one);
      NodeCreated(old(es), es, e, name, f);
      NodeNewest(old(es), es, e, name, m + 1, mode, uid, t);
      r := 0;
    }

    // my_mknod
    method MyMknod(parent: seq<seq<Byte>>, name: seq<Byte>, perm: nat, uid: Word32, t: Word32) returns (r: int)
      requires Valid() && (forall k | 0 <= k < |parent| :: IsName(parent[k])) && IsName(name) && perm < 0x1000
      requires ThroughDirs(es, Newest(es, 0), parent) && Resolve(es, parent).Some? && IsDir(Resolve(es, parent).value)
      requires head + 2 * INODE + |Resolve(es, parent).value.data| + DENTRY <= disk.Length
      requires MaxNumber(es) + 1 < 0x1_0000_0000
      modifies this, disk
      ensures Valid() && disk[..][..old(head)] == old(disk[..])[..old(head)]
      ensures r == -EEXIST || r == 0
      ensures r == -EEXIST <==> Lookup(Dentries(old(Resolve(es, parent)).value.data), name).Some?
      ensures r == -EEXIST ==> es == old(es) && head == old(head)
      ensures r == 0 ==> Created(old(es), es, old(Resolve(es, parent)).value.inode.number, name, MaxNumber(old(es)) + 1)
      ensures r == 0 ==>
        NodeAdded(old(es), es, old(Resolve(es, parent)).value, name, NewInode(MaxNumber(old(es)) + 1, S_IFREG + perm, uid, t))
      ensures r == 0 ==>
        NewestAre(es, old(Resolve(es, parent)).value, name, MaxNumber(old(es)) + 1, S_IFREG + perm, uid, t)
      ensures r == 0 ==> !IsDir(Newest(es, MaxNumber(old(es)) + 1).value)
      ensures Linked(old(es)) ==> Linked(es)
    {
      hide Parse, Dentries, Lookup, Newest, MaxNumber, Resolve, ThroughDirs, IsDir, Created, Linked, NodeAdded;
      hide NewestAre;
      r := AddNode(parent, name, S_IFREG + perm, uid, t);
      if r == 0 {
        NodeMode(old(es), es, old(Resolve(es, parent)).value, name, NewInode(MaxNumber(old(es)) + 1, S_IFREG + perm, uid, t));
      }
    }

    // my_mkdir
    method MyMkdir(parent: seq<seq<Byte>>, name: seq<Byte>, perm: nat, uid: Word32, t: Word32) returns (r: int)
      requires Valid() && (forall k | 0 <= k < |parent| :: IsName(parent[k])) && IsName(name) && perm < 0x1000
      requires ThroughDirs(es, Newest(es, 0), parent) && Resolve(es, parent).Some? && IsDir(Resolve(es, parent).value)
      requires head + 2 * INODE + |Resolve(es, parent).value.data| + DENTRY <= disk.Length
      requires MaxNumber(es) + 1 < 0x1_0000_0000
      modifies this, disk
      ensures Valid() && disk[..][..old(head)] == old(disk[..])[..old(head)]
      ensures r == -EEXIST || r == 0
      ensures r == -EEXIST <==> Lookup(Dentries(old(Resolve(es, parent)).value.data), name).Some?
      ensures r == -EEXIST ==> es == old(es) && head == old(head)
      ensures r == 0 ==> Created(old(es), es, old(Resolve(es, parent)).value.inode.number, name, MaxNumber(old(es)) + 1)
      ensures r == 0 ==>
        NodeAdded(old(es), es, old(Resolve(es, parent)).value, name, NewInode(MaxNumber(old(es)) + 1, S_IFDIR + perm, uid, t))
      ensures r == 0 ==>
        NewestAre(es, old(Resolve(es, parent)).value, name, MaxNumber(old(es)) + 1, S_IFDIR + perm, uid, t)
      ensures r == 0 ==> IsDir(Newest(es, MaxNumber(old(es)) + 1).value)
      ensures Linked(old(es)) ==> Linked(es)
    {
      hide Parse, Dentries, Lookup, Newest, MaxNumber, Resolve, ThroughDirs, IsDir, Created, Linked, NodeAdded;
      hide NewestAre;
      r := AddNode(parent, name, S_IFDIR + perm, uid, t);
      if r == 0 {
        NodeMode(old(es), es, old(Resolve(es, parent)).value, name, NewInode(MaxNumber(old(es)) + 1, S_IFDIR + perm, uid, t));
      }
    }

    // The entry at p copied to the head, with room for end bytes of data.
    method CopyEntry(p: nat, ghost e: Entry, end: nat) returns (size: nat)
      requires EntryIn(disk[..], head, p, e) && disk.Length < 0x1_0000_0000
      requires head + INODE + Longer(|e.data|, end) <= disk.Length
      modifies disk
      ensures disk[..][..head] == old(disk[..])[..head] && size == Longer(|e.data|, end) < 0x1_0000_0000
      ensures InodeAt(disk[..], head) == e.inode.(size := size) && U32(disk[..], head + 24) == size
      ensures disk[..][head + INODE..head + INODE + |e.data|] == e.data
    {
      hide HasEntry, EntryAt, EntryIn, InodeAt, U32, Le32, SameBut;
      EntryParts(disk[..], head, p, e);
      size := Get32(p + 24);
      MemCpy(head, p, INODE + size);
      CopyDone(old(disk[..]), disk[..], head, p, size);
      if end > size {
        SetSize(size, end);
        size := end;
      }
    }

    // newLogEntry->inode.size = size, for the copy at the head.
    method SetSize(ghost n: nat, size: Word32)
      requires head + INODE + n <= disk.Length
      modifies disk
      ensures disk[..][..head] == old(disk[..])[..head]
      ensures InodeAt(disk[..], head) == InodeAt(old(disk[..]), head).(size := size) && U32(disk[..], head + 24) == size
      ensures disk[..][head + INODE..head + INODE + n] == old(disk[..])[head + INODE..head + INODE + n]
    {
      hide InodeAt, U32, Le32, SameBut;
      PutBytes(head + 24, Le32(size));
      SizeDone(old(disk[..]), disk[..], head, n, size);
    }

    // my_write: a new version of the file with buf at off, its other bytes as
    // they were. Bytes between the old end and off are whatever the disk holds.
    method MyWrite(path: seq<seq<Byte>>, buf: seq<Byte>, off: int, t: Word32) returns (r: int)
      requires Valid() && (forall k | 0 <= k < |path| :: IsName(path[k])) && ThroughDirs(es, Newest(es, 0), path)
      requires off >= 0 && Resolve(es, path).Some? ==>
        !IsDir(Resolve(es, path).value) && head + INODE + Longer(|Resolve(es, path).value.data|, off + |buf|) <= disk.Length
      modifies this, disk
      ensures Valid() && disk[..][..old(head)] == old(disk[..])[..old(head)]
      ensures off < 0 ==> r == 0 && es == old(es)
      ensures off >= 0 && old(Resolve(es, path)).None? ==> r == -ENOENT && es == old(es)
      ensures off >= 0 && old(Resolve(es, path)).Some? ==>
        r == |buf| && NewVersion(old(es), es, old(Resolve(es, path)).value, buf, off, t)
      ensures Linked(old(es)) ==> Linked(es)
    {
      hide Parse, HasEntry, EntryAt, EntryIn, InodeAt, U32, Le32, Dentries, DirOk, Lookup, Newest, Resolve;
      hide ThroughDirs, IsDir;
      hide SameBut, Linked, Wrote, Overwritten, DirsOk, Longer;
      if off < 0 {
        return 0;
      }
      var p := PathToLogEntry(path);
      if p == 0 {
        return -ENOENT;
      }
      ghost var e := Resolve(es, path).value;
      ResolveIn(es, path);
      var size := CopyEntry(p, e, off + |buf|);
      label S2:
      PutBytes(head + INODE + off, buf);
      label S3:
      PutBytes(head + 32, Le32(t));
      ghost var e2 := WriteDone(old(disk[..]), old@S2(disk[..]), old@S3(disk[..]), disk[..], head, es, e, size, buf, off, t);
      WriteNewest(es, e, e2);
      head := head + INODE + size;
      es := es + [e2];
      r := |buf|;
    }

    // The stores of AddNode.
    method WriteNode(p: nat, ghost e: Entry, name: seq<Byte>, f: Inode) returns (ghost one: seq<Byte>)
      requires Valid() && EntryIn(disk[..], head, p, e) && IsName(name) && f.size == 0
      requires head + 2 * INODE + |e.data| + DENTRY <= disk.Length
      modifies this, disk
      ensures disk[..][..old(head)] == old(disk[..])[..old(head)] && head == old(head) + 2 * INODE + |e.data| + DENTRY
      ensures |one| == DENTRY && DirOk(one) && DentryAt(one, 0) == Dentry(name, f.number)
      ensures e.inode.size == |e.data| && |e.data| + DENTRY < 0x1_0000_0000
      ensures es == old(es) + [ParentWith(e, one), Entry(f, [])] && Parse(disk[..], SB, head) == Some(es)
    {
      hide Parse, HasEntry, EntryAt, EntryIn, InodeAt, U32, DirOk, DentryAt, SameBut, DirsOk, ParentWith;
      EntryParts(disk[..], head, p, e);
      ghost var p2;
      one, p2 := WriteParent(p, e, name, f.number);
      label S4:
      var size := Get32(head + 24);
      PutInode(head + INODE + size, f);
      NewNode(old(disk[..]), old@S4(disk[..]), disk[..], head, es, p2, f);
      head := head + INODE + size + INODE;
      es := es + [p2, Entry(f, [])];
    }

    // The parent's entry at the head, copied and with one dentry more.
    method WriteParent(p: nat, ghost e: Entry, name: seq<Byte>, num: Word32)
      returns (ghost one: seq<Byte>, ghost p2: Entry)
      requires EntryIn(disk[..], head, p, e) && IsName(name) && disk.Length < 0x1_0000_0000
      requires head + INODE + |e.data| + DENTRY <= disk.Length
      modifies disk
      ensures disk[..][..head] == old(disk[..])[..head]
      ensures |one| == DENTRY && DirOk(one) && DentryAt(one, 0) == Dentry(name, num)
      ensures e.inode.size == |e.data| && |e.data| + DENTRY < 0x1_0000_0000 && p2 == ParentWith(e, one)
      ensures HasEntry(disk[..], head, head + Size(p2)) && EntryAt(disk[..], head) == p2
      ensures U32(disk[..], head + 24) == |p2.data| == |e.data| + DENTRY
    {
      hide HasEntry, EntryAt, EntryIn, InodeAt, U32, Le32, DirOk, DentryAt, SameBut;
      EntryParts(disk[..], head, p, e);
      var size := Get32(p + 24);
      MemCpy(head, p, INODE + size);
      label S1:
      one := PutDentry(head + INODE + size, name, num);
      label S3:
      PutBytes(head + 24, Le32(size + DENTRY));
      NewParent(old(disk[..]), old@S1(disk[..]), old@S3(disk[..]), disk[..], head, p, size, e, one);
      p2 := ParentWith(e, one);
    }

    // A dentry: its number, then strcpy of its name.
    method PutDentry(q: nat, name: seq<Byte>, num: Word32) returns (ghost one: seq<Byte>)
      requires q + DENTRY <= disk.Length && IsName(name)
      modifies disk
      ensures SameBut(old(disk[..]), disk[..], q, q + DENTRY)
      ensures one == disk[..][q..q + DENTRY] && DirOk(one) && DentryAt(one, 0) == Dentry(name, num)
    {
      hide DirOk, DentryAt, U32;
      PutBytes(q + NAME, Le64(num));
      label S2:
      PutBytes(q, name + [0]);
      one := NewDentry(old(disk[..]), old@S2(disk[..]), disk[..], q, name, num);
    }
  }

  function Root(t: Word32): Inode { Inode(0, 0, S_IFDIR, 0, 0, 0, 0, t, t, t, 1) }

  lemma Formatted(s: seq<Byte>, t: Word32)
    requires SB + INODE <= |s| && InodeAt(s, SB) == Root(t)
    ensures var es := [Entry(Root(t), [])]; Parse(s, SB, SB + INODE) == Some(es) && Linked(es) && DirsOk(es)
  {
    var e := Entry(Root(t), []);
    EntryMade(s, SB, Root(t), []);
    ParseOne(s, SB);
    hide U32, InodeAt;
    assert Live(e, 0) && Newest([e], 0) == Some(e);
    assert Dentries(e.data) == [];
  }

  function NewInode(number: Word32, mode: Word32, uid: Word32, t: Word32): Inode {
    Inode(number, 0, mode, uid, uid, 0, 0, t, t, t, 1)
  }

  // es2 is es with the entries of a new name in directory e.
  ghost predicate NodeAdded(es: seq<Entry>, es2: seq<Entry>, e: Entry, name: seq<Byte>, f: Inode) {
    exists one: seq<Byte> :: AddedWith(es, es2, e, name, f, one)
  }

  ghost predicate AddedWith(es: seq<Entry>, es2: seq<Entry>, e: Entry, name: seq<Byte>, f: Inode, one: seq<Byte>) {
    && |one| == DENTRY && DirOk(one) && DentryAt(one, 0) == Dentry(name, f.number)
    && e.inode.size + DENTRY < 0x1_0000_0000 && es2 == es + [ParentWith(e, one), Entry(f, [])]
  }

  function Longer(a: nat, b: nat): (c: nat)
    ensures c >= a && c >= b
  {
    if b > a then b else a
  }

  // es2 is es with a version of e that has buf at off.
  ghost predicate NewVersion(es: seq<Entry>, es2: seq<Entry>, e: Entry, buf: seq<Byte>, off: nat, t: Word32) {
    && |es2| == |es| + 1 && es2[..|es|] == es && Overwritten(e, es2[|es|], buf, off, t)
    && Wrote(es, es2, e, es2[|es|])
  }

  // e2 is e with buf at off.
  ghost predicate Overwritten(e: Entry, e2: Entry, buf: seq<Byte>, off: nat, t: Word32) {
    && |e2.data| == Longer(|e.data|, off + |buf|) < 0x1_0000_0000
    && e2.inode == e.inode.(size := |e2.data|, mtime := t)
    && forall k | 0 <= k < |e2.data| && (k < |e.data| || off <= k) ::
         e2.data[k] == if off <= k < off + |buf| then buf[k - off] else e.data[k]
  }

  lemma NodeCreated(es: seq<Entry>, es2: seq<Entry>, e: Entry, name: seq<Byte>, f: Inode)
    requires NodeAdded(es, es2, e, name, f) && Newest(es, e.inode.number) == Some(e) && IsDir(e) && e in es
    requires DirsOk(es) && e.inode.size == |e.data| && f.number == MaxNumber(es) + 1 && f.deleted == 0
    requires Lookup(Dentries(e.data), name).None?
    ensures Created(es, es2, e.inode.number, name, MaxNumber(es) + 1)
    ensures Linked(es) ==> Linked(es2)
  {
    var one :| AddedWith(es, es2, e, name, f, one);
    hide Newest, Dentries, DirOk, DentryAt, Lookup, MaxNumber, Linked, Created, IsDir;
    CreateNewest(es, e, one, Entry(f, []), e.inode.number, name);
    if Linked(es) {
      CreateLinked(es, e, one, Entry(f, []), e.inode.number);
    }
  }

  // The newest versions after my_mknod or my_mkdir: the new inode is empty, with
  // every field set; and the directory is e with one dentry more, its inode that
  // of e but for the size.
  ghost predicate NewestAre(es2: seq<Entry>, e: Entry, name: seq<Byte>, number: nat, mode: nat, uid: nat, t: nat) {
    && Newest(es2, number).Some? && Newest(es2, e.inode.number).Some?
    && var f, p := Newest(es2, number).value, Newest(es2, e.inode.number).value;
    && f.data == [] && f.inode.number == number && f.inode.deleted == 0 && f.inode.mode == mode
    && f.inode.uid == uid && f.inode.gid == uid && f.inode.flags == 0 && f.inode.size == 0
    && f.inode.atime == t && f.inode.mtime == t && f.inode.ctime == t && f.inode.links == 1
    && p.inode.size == e.inode.size + DENTRY && p.inode == e.inode.(size := p.inode.size)
    && |p.data| == p.inode.size && e.data <= p.data
    && Dentries(p.data) == Dentries(e.data) + [Dentry(name, number)]
  }

  lemma NodeNewest(es: seq<Entry>, es2: seq<Entry>, e: Entry, name: seq<Byte>, number: Word32, mode: Word32,
                   uid: Word32,
                   t: Word32)
    requires NodeAdded(es, es2, e, name, NewInode(number, mode, uid, t)) && Newest(es, e.inode.number) == Some(e)
    requires IsDir(e) && e in es && DirsOk(es) && e.inode.size == |e.data| && number == MaxNumber(es) + 1
    ensures NewestAre(es2, e, name, number, mode, uid, t)
  {
    var f := Entry(NewInode(number, mode, uid, t), []);
    var one :| AddedWith(es, es2, e, name, f.inode, one);
    var p2 := ParentWith(e, one);
    FreshNumber(es);
    DirOkOf(es, e);
    NewestDeleted(es, e.inode.number);
    hide Newest, Dentries, DirOk, DentryAt, MaxNumber, IsDir, DirsOk;
    DentriesMore(e.data, one);
    NewestTwo(es, p2, f);
  }

  lemma DirOkOf(es: seq<Entry>, e: Entry)
    requires DirsOk(es) && e in es && IsDir(e)
    ensures DirOk(e.data)
  {
  }

  lemma {:induction false} NewestDeleted(es: seq<Entry>, ino: nat)
    ensures Newest(es, ino).Some? ==> Newest(es, ino).value.inode.deleted == 0 && Newest(es, ino).value.inode.number == ino
  {
    if es != [] {
      NewestDeleted(es[..|es| - 1], ino);
    }
  }

  lemma NodeMode(es: seq<Entry>, es2: seq<Entry>, e: Entry, name: seq<Byte>, f: Inode)
    requires NodeAdded(es, es2, e, name, f) && f.deleted == 0
    ensures Newest(es2, f.number) == Some(Entry(f, [])) && IsDir(Entry(f, [])) == (f.mode / 0x1000 % 0x10 == 4)
  {
    var one :| AddedWith(es, es2, e, name, f, one);
    var p2 := ParentWith(e, one);
    assert es2 == es + [p2] + [Entry(f, [])];
    NewestMore(es + [p2], Entry(f, []), f.number);
  }

  // The rest of a path is resolved from entries of the log.
  lemma {:induction false} WalkIn(es: seq<Entry>, cur: nat, path: seq<seq<Byte>>)
    ensures var r := Walk(es, Newest(es, cur), path); r.Some? ==> r.value in es && Newest(es, r.value.inode.number) == r
    decreases |path|
  {
    if path != [] && Newest(es, cur).Some? {
      var n := Lookup(Dentries(Newest(es, cur).value.data), path[0]);
      if n.Some? { WalkIn(es, n.value, path[1..]); }
    }
  }

  lemma ResolveIn(es: seq<Entry>, path: seq<seq<Byte>>)
    ensures var r := Resolve(es, path); r.Some? ==> r.value in es && Newest(es, r.value.inode.number) == r
  {
    WalkIn(es, 0, path);
  }

  lemma Kept(s: seq<Byte>, s2: seq<Byte>, lo: nat, hi: nat, a: nat, b: nat)
    requires SameBut(s, s2, lo, hi) && a <= b <= |s| && (b <= lo || hi <= a)
    ensures |s2| == |s| && s2[a..b] == s[a..b]
  {
    if b <= lo {
      Slices(s, 0, lo, a, b);
      Slices(s2, 0, lo, a, b);
      assert s[0..lo] == s[..lo] && s2[0..lo] == s2[..lo];
    } else {
      Slices(s, hi, |s|, a - hi, b - hi);
      Slices(s2, hi, |s|, a - hi, b - hi);
      assert s[hi..|s|] == s[hi..] && s2[hi..|s|] == s2[hi..];
    }
  }

  lemma {:induction false} CStringOf(b: seq<Byte>, name: seq<Byte>)
    requires |name| < |b| && b[..|name|] == name && b[|name|] == 0 && 0 !in name
    ensures CString(b) == name
  {
    if name != [] {
      assert b[1..][..|name| - 1] == name[1..];
      assert b[0] == b[..|name|][0];
      CStringOf(b[1..], name[1..]);
    }
  }

  // A dentry made of a name and a number.
  lemma DentryMade(one: seq<Byte>, name: seq<Byte>, num: Word32)
    requires |one| == DENTRY && IsName(name) && one[..|name| + 1] == name + [0] && one[NAME..] == Le64(num)
    ensures DirOk(one) && DentryAt(one, 0) == Dentry(name, num)
  {
    var field := one[0..NAME];
    assert field[..|name|] == one[..|name| + 1][..|name|] == name;
    assert field[|name|] == one[..|name| + 1][|name|] == 0;
    CStringOf(field, name);
    assert one[32..36] == one[NAME..][..4] == Le32(num);
    ReadBack(one, 32, num);
    assert one[36..40] == one[NAME..][4..] == [0, 0, 0, 0] == Le32(0);
    ReadBack(one, 36, 0);
    assert one[DENTRY..] == [];
    hide U32, CString;
  }

  lemma NewDentry(s1: seq<Byte>, s2: seq<Byte>, s3: seq<Byte>, q: nat, name: seq<Byte>, num: Word32)
    returns (one: seq<Byte>)
    requires q + DENTRY <= |s1| && IsName(name)
    requires SameBut(s1, s2, q + NAME, q + NAME + |Le64(num)|) && s2[q + NAME..q + NAME + |Le64(num)|] == Le64(num)
    requires SameBut(s2, s3, q, q + |name + [0]|) && s3[q..q + |name + [0]|] == name + [0]
    ensures SameBut(s1, s3, q, q + DENTRY)
    ensures one == s3[q..q + DENTRY] && DirOk(one) && DentryAt(one, 0) == Dentry(name, num)
  {
    one := s3[q..q + DENTRY];
    Kept(s2, s3, q, q + |name + [0]|, q + NAME, q + DENTRY);
    Kept(s2, s3, q, q + |name + [0]|, q + DENTRY, |s1|);
    Kept(s1, s2, q + NAME, q + DENTRY, 0, q);
    assert one[NAME..] == s3[q + NAME..q + DENTRY];
    assert one[..|name| + 1] == s3[q..q + |name| + 1];
    DentryMade(one, name, num);
  }

  // The copy of the parent's entry, one dentry longer.
  lemma NewParent(s0: seq<Byte>, s1: seq<Byte>, s3: seq<Byte>, s4: seq<Byte>, h: nat, p: nat, n: nat, e: Entry,
                  one: seq<Byte>)
    requires EntryIn(s0, h, p, e) && |e.data| == n && n + DENTRY < 0x1_0000_0000 && h + INODE + n + DENTRY <= |s0|
    requires SameBut(s0, s1, h, h + (INODE + n)) && s1[h..h + (INODE + n)] == s0[p..p + (INODE + n)]
    requires SameBut(s1, s3, h + INODE + n, h + INODE + n + DENTRY) && one == s3[h + INODE + n..h + INODE + n + DENTRY]
    requires SameBut(s3, s4, h + 24, h + 24 + |Le32(n + DENTRY)|)
    requires s4[h + 24..h + 24 + |Le32(n + DENTRY)|] == Le32(n + DENTRY)
    ensures s4[..h] == s0[..h] && |s4| == |s0| && e.inode.size == n
    ensures HasEntry(s4, h, h + INODE + n + DENTRY) && EntryAt(s4, h) == ParentWith(e, one)
    ensures U32(s4, h + 24) == n + DENTRY
  {
    EntryParts(s0, h, p, e);
    hide EntryIn, HasEntry, EntryAt, InodeAt, U32, Le32;
    NewParentBytes(s0, s1, s3, s4, h, h + INODE + n);
    ReadBack(s4, h + 24, n + DENTRY);
    hide SameBut;
    NewParentEntry(s0, s3, s4, h, p, n, one);
  }

  lemma NewParentBytes(s0: seq<Byte>, s1: seq<Byte>, s3: seq<Byte>, s4: seq<Byte>, h: nat, q: nat)
    requires h + INODE <= q && q + DENTRY <= |s0|
    requires SameBut(s0, s1, h, q) && SameBut(s1, s3, q, q + DENTRY) && SameBut(s3, s4, h + 24, h + 28)
    ensures |s4| == |s3| == |s0| && s4[..h] == s0[..h] && s3[h..q] == s1[h..q]
    ensures s4[h..h + 24] == s3[h..h + 24] && s4[h + 28..q + DENTRY] == s3[h + 28..q + DENTRY]
  {
    KeptTwice(s0, s1, s3, h, q, q + DENTRY);
    Kept(s3, s4, h + 24, h + 28, h, h + 24);
    Kept(s3, s4, h + 24, h + 28, h + 28, q + DENTRY);
    Kept(s3, s4, h + 24, h + 28, 0, h);
    hide SameBut;
    assert s4[..h] == s4[0..h];
  }

  lemma NewParentEntry(s0: seq<Byte>, s3: seq<Byte>, s4: seq<Byte>, h: nat, p: nat, n: nat, one: seq<Byte>)
    requires |s4| == |s3| && h + INODE + n + DENTRY <= |s3| && p + INODE + n <= |s0| && n + DENTRY < 0x1_0000_0000
    requires s3[h..h + INODE + n] == s0[p..p + INODE + n] && one == s3[h + INODE + n..h + INODE + n + DENTRY]
    requires s4[h..h + 24] == s3[h..h + 24] && s4[h + 24..h + 28] == Le32(n + DENTRY)
    requires s4[h + 28..h + INODE + n + DENTRY] == s3[h + 28..h + INODE + n + DENTRY]
    ensures HasEntry(s4, h, h + INODE + n + DENTRY)
    ensures EntryAt(s4, h) == Entry(InodeAt(s0, p).(size := n + DENTRY), s0[p + INODE..p + INODE + n] + one)
  {
    hide HasEntry, EntryAt, InodeAt, U32, Le32;
    DataCopied(s0, s3, s4, p, h, n);
    InodeCopied(s0, s3, s4, p, h, n, n + DENTRY);
    EntryMade(s4, h, InodeAt(s0, p).(size := n + DENTRY), s0[p + INODE..p + INODE + n] + one);
  }

  lemma KeptTwice(s0: seq<Byte>, s1: seq<Byte>, s3: seq<Byte>, h: nat, q: nat, end: nat)
    requires SameBut(s0, s1, h, q) && SameBut(s1, s3, q, end)
    ensures s3[0..h] == s0[..h] && s3[h..q] == s1[h..q] && |s3| == |s0|
  {
    Kept(s0, s1, h, q, 0, h);
    Kept(s1, s3, q, end, 0, h);
    Kept(s1, s3, q, end, h, q);
    assert s0[..h] == s0[0..h];
  }

  lemma InodeCopied(s0: seq<Byte>, s3: seq<Byte>, s4: seq<Byte>, p: nat, h: nat, n: nat, w: Word32)
    requires p + INODE + n <= |s0| && h + INODE + n <= |s3| == |s4| && s3[h..h + INODE + n] == s0[p..p + INODE + n]
    requires s4[h..h + 24] == s3[h..h + 24] && s4[h + 24..h + 28] == Le32(w)
    requires s4[h + 28..h + INODE] == s3[h + 28..h + INODE]
    ensures InodeAt(s4, h) == InodeAt(s0, p).(size := w)
  {
    var a, b, c := s0[p..p + INODE], s4[h..h + INODE], s3[h..h + INODE + n];
    hide U32;
    assert a == s0[p..p + INODE + n][..INODE] == c[..INODE];
    Slices(s3, h, h + INODE + n, 0, 24);
    Slices(s3, h, h + INODE + n, 28, INODE);
    Slices(s4, h, h + INODE, 0, 24);
    Slices(s4, h, h + INODE, 28, INODE);
    assert a[0..24] == c[0..24] == b[0..24];
    assert a[28..INODE] == c[28..INODE] == b[28..INODE];
    WordsSame(a, b, 0, 24);
    WordsSame(a, b, 28, INODE);
    SliceInode(s0, p);
    SliceInode(s4, h);
    ReadBack(s4, h + 24, w);
    WordIn(s4, h, h + INODE, 24);
  }

  lemma WordsSame(a: seq<Byte>, b: seq<Byte>, lo: nat, hi: nat)
    requires lo <= hi <= |a| && hi <= |b| && a[lo..hi] == b[lo..hi]
    ensures forall i: nat | lo <= i <= hi - 4 :: U32(a, i) == U32(b, i)
  {
    forall i: nat | lo <= i <= hi - 4
      ensures U32(a, i) == U32(b, i)
    {
      WordIn(a, lo, hi, i - lo);
      WordIn(b, lo, hi, i - lo);
    }
  }

  lemma Slices(s: seq<Byte>, lo: nat, hi: nat, i: nat, j: nat)
    requires lo + j <= hi <= |s| && i <= j
    ensures s[lo..hi][i..j] == s[lo + i..lo + j]
  {
    var t := s[lo..hi];
    assert forall k | i <= k < j :: t[k] == s[lo + k];
    assert t[i..j] == s[lo + i..lo + j];
  }

  lemma CopyDone(s0: seq<Byte>, s1: seq<Byte>, h: nat, p: nat, n: nat)
    requires h + INODE + n <= |s0| && p + INODE + n <= h && SameBut(s0, s1, h, h + (INODE + n))
    requires s1[h..h + (INODE + n)] == s0[p..p + (INODE + n)] && U32(s0, p + 24) == n
    ensures |s1| == |s0| && s1[..h] == s0[..h] && InodeAt(s1, h) == InodeAt(s0, p) && U32(s1, h + 24) == n
    ensures s1[h + INODE..h + INODE + n] == s0[p + INODE..p + INODE + n]
  {
    CopyParts(s0, s1, h, p, n);
    SliceInode(s0, p);
    SliceInode(s1, h);
    hide U32, SameBut;
    assert InodeAt(s1, h).size == U32(s1, h + 24) && InodeAt(s0, p).size == U32(s0, p + 24);
  }

  lemma CopyParts(s0: seq<Byte>, s1: seq<Byte>, h: nat, p: nat, n: nat)
    requires h + INODE + n <= |s0| == |s1| && p + INODE + n <= h
    requires s1[h..h + (INODE + n)] == s0[p..p + (INODE + n)]
    ensures s1[h..h + INODE] == s0[p..p + INODE]
    ensures s1[h + INODE..h + INODE + n] == s0[p + INODE..p + INODE + n]
  {
    Slices(s1, h, h + (INODE + n), 0, INODE);
    Slices(s0, p, p + (INODE + n), 0, INODE);
    Slices(s1, h, h + (INODE + n), INODE, INODE + n);
    Slices(s0, p, p + (INODE + n), INODE, INODE + n);
  }

  lemma SizeDone(s1: seq<Byte>, s2: seq<Byte>, h: nat, n: nat, w: Word32)
    requires h + INODE + n <= |s1| && SameBut(s1, s2, h + 24, h + 24 + |Le32(w)|)
    requires s2[h + 24..h + 24 + |Le32(w)|] == Le32(w)
    ensures s2[..h] == s1[..h] && InodeAt(s2, h) == InodeAt(s1, h).(size := w) && U32(s2, h + 24) == w
    ensures s2[h + INODE..h + INODE + n] == s1[h + INODE..h + INODE + n]
  {
    Kept(s1, s2, h + 24, h + 28, 0, h);
    Kept(s1, s2, h + 24, h + 28, h, h + 24);
    Kept(s1, s2, h + 24, h + 28, h + 28, h + INODE);
    Kept(s1, s2, h + 24, h + 28, h + INODE, h + INODE + n);
    ReadBack(s2, h + 24, w);
    hide SameBut, U32, Le32;
    assert s1[..h] == s1[0..h] && s2[..h] == s2[0..h];
    InodeCopied(s1, s1, s2, h, h, 0, w);
  }

  lemma InodeStamped(s3: seq<Byte>, s4: seq<Byte>, h: nat, t: Word32)
    requires h + INODE <= |s3| && SameBut(s3, s4, h + 32, h + 36) && s4[h + 32..h + 36] == Le32(t)
    ensures InodeAt(s4, h) == InodeAt(s3, h).(mtime := t)
  {
    Kept(s3, s4, h + 32, h + 36, h, h + 32);
    Kept(s3, s4, h + 32, h + 36, h + 36, h + INODE);
    ReadBack(s4, h + 32, t);
    hide SameBut, U32, Le32;
    WordsSame(s3, s4, h, h + 32);
    WordsSame(s3, s4, h + 36, h + INODE);
  }

  lemma WriteDone(s0: seq<Byte>, s2: seq<Byte>, s3: seq<Byte>, s4: seq<Byte>, h: nat, es: seq<Entry>, e: Entry,
                  size: nat,
                  buf: seq<Byte>, off: nat, t: Word32)
    returns (e2: Entry)
    requires SB <= h <= |s0| == |s2| && s2[..h] == s0[..h] && Parse(s0, SB, h) == Some(es)
    requires size == Longer(|e.data|, off + |buf|) < 0x1_0000_0000 && h + INODE + size <= |s2|
    requires InodeAt(s2, h) == e.inode.(size := size) && s2[h + INODE..h + INODE + |e.data|] == e.data
    requires SameBut(s2, s3, h + INODE + off, h + INODE + off + |buf|)
    requires s3[h + INODE + off..h + INODE + off + |buf|] == buf
    requires SameBut(s3, s4, h + 32, h + 32 + |Le32(t)|) && s4[h + 32..h + 32 + |Le32(t)|] == Le32(t)
    ensures s4[..h] == s0[..h] && Parse(s4, SB, h + INODE + size) == Some(es + [e2])
    ensures Overwritten(e, e2, buf, off, t) && e2.inode == e.inode.(size := e2.inode.size, mtime := t)
  {
    hide Parse, U32, Le32;
    e2 := Entry(e.inode.(size := size, mtime := t), s4[h + INODE..h + INODE + size]);
    Kept(s2, s3, h + INODE + off, h + INODE + off + |buf|, 0, h);
    Kept(s2, s3, h + INODE + off, h + INODE + off + |buf|, h, h + INODE);
    Kept(s3, s4, h + 32, h + 36, 0, h);
    Kept(s3, s4, h + 32, h + 36, h + INODE, h + INODE + size);
    assert s4[..h] == s4[0..h] && s0[..h] == s2[..h] == s2[0..h];
    SliceInode(s2, h);
    SliceInode(s3, h);
    InodeStamped(s3, s4, h, t);
    DataWritten(s2, s3, h + INODE, e.data, buf, off, size);
    EntryMade(s4, h, e2.inode, e2.data);
    ParseSame(s0, s4, SB, h);
    ParseMore(s4, SB, h, h + INODE + size, es, e2);
  }

  lemma DataWritten(s2: seq<Byte>, s3: seq<Byte>, d: nat, data: seq<Byte>, buf: seq<Byte>, off: nat, size: nat)
    requires d + size <= |s2| && size == Longer(|data|, off + |buf|) && s2[d..d + |data|] == data
    requires SameBut(s2, s3, d + off, d + off + |buf|) && s3[d + off..d + off + |buf|] == buf
    ensures forall k | 0 <= k < size && (k < |data| || off <= k) ::
      s3[d..d + size][k] == if off <= k < off + |buf| then buf[k - off] else data[k]
  {
  }

  lemma SliceInode(s: seq<Byte>, p: nat)
    requires p + INODE <= |s|
    ensures InodeAt(s[p..p + INODE], 0) == InodeAt(s, p)
  {
    WordIn(s, p, p + INODE, 0);
    WordIn(s, p, p + INODE, 4);
    WordIn(s, p, p + INODE, 8);
    WordIn(s, p, p + INODE, 12);
    WordIn(s, p, p + INODE, 16);
    WordIn(s, p, p + INODE, 20);
    WordIn(s, p, p + INODE, 24);
    WordIn(s, p, p + INODE, 28);
    WordIn(s, p, p + INODE, 32);
    WordIn(s, p, p + INODE, 36);
    WordIn(s, p, p + INODE, 40);
    hide U32;
  }

  lemma DataCopied(s0: seq<Byte>, s3: seq<Byte>, s4: seq<Byte>, p: nat, h: nat, n: nat)
    requires p + INODE + n <= |s0| && h + INODE + n + DENTRY <= |s3| == |s4|
    requires s3[h..h + INODE + n] == s0[p..p + INODE + n]
    requires s4[h + 28..h + INODE + n + DENTRY] == s3[h + 28..h + INODE + n + DENTRY]
    ensures s4[h + INODE..h + INODE + n + DENTRY]
         == s0[p + INODE..p + INODE + n] + s3[h + INODE + n..h + INODE + n + DENTRY]
    ensures s4[h + 28..h + INODE] == s3[h + 28..h + INODE]
  {
    var c, d := s3[h..h + INODE + n], s4[h + 28..h + INODE + n + DENTRY];
    assert s0[p + INODE..p + INODE + n] == c[INODE..] == s3[h + INODE..h + INODE + n];
    assert s4[h + INODE..h + INODE + n + DENTRY] == d[16..];
    assert s4[h + 28..h + INODE] == d[..16];
  }

  lemma EntryMade(s: seq<Byte>, p: nat, i: Inode, data: seq<Byte>)
    requires p + INODE + |data| <= |s| && InodeAt(s, p) == i && i.size == |data|
    requires s[p + INODE..p + INODE + |data|] == data
    ensures HasEntry(s, p, p + INODE + |data|) && EntryAt(s, p) == Entry(i, data)
  {
    hide U32;
  }

  // Both new entries continue the log.
  lemma NewNode(s0: seq<Byte>, s4: seq<Byte>, s5: seq<Byte>, h: nat, es: seq<Entry>, p2: Entry, f: Inode)
    requires SB <= h <= |s0| == |s4| && s4[..h] == s0[..h] && Parse(s0, SB, h) == Some(es)
    requires f.size == 0 && h + Size(p2) + INODE <= |s4| && HasEntry(s4, h, h + Size(p2)) && EntryAt(s4, h) == p2
    requires SameBut(s4, s5, h + Size(p2), h + Size(p2) + INODE) && InodeAt(s5, h + Size(p2)) == f
    ensures s5[..h] == s0[..h]
    ensures Parse(s5, SB, h + Size(p2) + INODE) == Some(es + [p2, Entry(f, [])])
  {
    hide InodeAt, U32, Parse;
    var h1 := h + Size(p2);
    var end := h1 + INODE;
    assert s5[..h] == s5[..h1][..h] && s4[..h] == s4[..h1][..h];
    ParseSame(s0, s5, SB, h);
    SameEntry(s4, s5, h, h1);
    EntryMade(s5, h1, f, []);
    hide HasEntry, EntryAt;
    ParseMore(s5, SB, h, h1, es, p2);
    ParseMore(s5, SB, h1, end, es + [p2], Entry(f, []));
    assert es + [p2] + [Entry(f, [])] == es + [p2, Entry(f, [])];
  }

  lemma ParseMore(s: seq<Byte>, p: nat, h: nat, end: nat, es: seq<Entry>, e: Entry)
    requires p <= h && Parse(s, p, h) == Some(es) && HasEntry(s, h, end) && EntryAt(s, h) == e && end == h + Size(e)
    ensures Parse(s, p, end) == Some(es + [e])
  {
    hide InodeAt, U32, EntryAt;
    ParseOne(s, h);
    ParseAppend(s, p, h, end);
  }

  lemma AddedKeeps(es: seq<Entry>, e: Entry, name: seq<Byte>, f: Inode, one: seq<Byte>)
    requires DirsOk(es) && e in es && IsDir(e) && |one| == DENTRY && DirOk(one)
    requires DentryAt(one, 0) == Dentry(name, f.number)
    requires e.inode.size == |e.data| && e.inode.size + DENTRY < 0x1_0000_0000
    ensures DirsOk(es + [ParentWith(e, one), Entry(f, [])])
    ensures NodeAdded(es, es + [ParentWith(e, one), Entry(f, [])], e, name, f)
  {
    DentriesMore(e.data, one);
    assert AddedWith(es, es + [ParentWith(e, one), Entry(f, [])], e, name, f, one);
  }

  function Fields(f: Inode): (ws: seq<Word32>)
    ensures |ws| == 11
  {
    [f.number, f.deleted, f.mode, f.uid, f.gid, f.flags, f.size, f.atime, f.mtime, f.ctime, f.links]
  }

  function WordBytes(ws: seq<Word32>): (b: seq<Byte>)
    ensures |b| == 4 * |ws|
  {
    if ws == [] then [] else Le32(ws[0]) + WordBytes(ws[1..])
  }

  lemma {:induction false} WordRead(s: seq<Byte>, p: nat, ws: seq<Word32>, i: nat)
    requires i < |ws| && p + 4 * |ws| <= |s| && s[p..p + 4 * |ws|] == WordBytes(ws)
    ensures U32(s, p + 4 * i) == ws[i]
    decreases |ws|
  {
    var b := s[p..p + 4 * |ws|];
    if i == 0 {
      assert s[p..p + 4] == b[..4] == Le32(ws[0]);
      ReadBack(s, p, ws[0]);
    } else {
      assert s[p + 4..p + 4 + 4 * |ws[1..]|] == b[4..] == WordBytes(ws[1..]);
      WordRead(s, p + 4, ws[1..], i - 1);
    }
  }

  lemma InodeRead(s: seq<Byte>, p: nat, f: Inode)
    requires p + INODE <= |s| && s[p..p + INODE] == WordBytes(Fields(f))
    ensures InodeAt(s, p) == f
  {
    var ws := Fields(f);
    hide U32, WordBytes;
    forall i | 0 <= i < 11
      ensures U32(s, p + 4 * i) == ws[i]
    {
      WordRead(s, p, ws, i);
    }
    assert U32(s, p + 4 * 0) == ws[0] && U32(s, p + 4 * 1) == ws[1] && U32(s, p + 4 * 2) == ws[2]
        && U32(s, p + 4 * 3) == ws[3] && U32(s, p + 4 * 4) == ws[4] && U32(s, p + 4 * 5) == ws[5]
        && U32(s, p + 4 * 6) == ws[6] && U32(s, p + 4 * 7) == ws[7] && U32(s, p + 4 * 8) == ws[8]
        && U32(s, p + 4 * 9) == ws[9] && U32(s, p + 4 * 10) == ws[10];
  }

  // There is the entry e at p, below the head.
  predicate EntryIn(s: seq<Byte>, head: nat, p: nat, e: Entry) {
    head <= |s| && SB <= p && HasEntry(s, p, head) && EntryAt(s, p) == e
  }

  lemma ParseStart(s: seq<Byte>, head: nat, es: seq<Entry>)
    requires Parse(s, SB, head) == Some(es)
    ensures es[0..] == es && es[..0] == [] && Parse(s, SB, head) == Some(es[0..])
  {
  }

  lemma ParseStep(s: seq<Byte>, p: nat, end: nat, es: seq<Entry>, k: nat)
    requires SB <= p < end <= |s| && k <= |es| && Parse(s, p, end) == Some(es[k..])
    ensures k < |es| && es[..k + 1] == es[..k] + [es[k]] && EntryIn(s, end, p, es[k]) && p + Size(es[k]) <= end
    ensures p + INODE <= end
    ensures es[k].inode.number == U32(s, p) && es[k].inode.deleted == U32(s, p + 4) && |es[k].data| == U32(s, p + 24)
    ensures Parse(s, p + Size(es[k]), end) == Some(es[k + 1..])
  {
    FieldsOf(s, p);
    hide InodeAt, U32;
    var e := EntryAt(s, p);
    var rest := Parse(s, p + Size(e), end);
    assert es[k..] == [e] + rest.value;
    assert es[k..][1..] == es[k + 1..];
  }

  lemma ParseEnd(s: seq<Byte>, end: nat, es: seq<Entry>, k: nat)
    requires end <= |s| && k <= |es| && Parse(s, end, end) == Some(es[k..])
    ensures es[..k] == es
  {
    assert es == es[..k] + es[k..];
  }

  lemma FieldsOf(s: seq<Byte>, p: nat)
    requires HasEntry(s, p, |s|)
    ensures var e := EntryAt(s, p);
      e.inode.number == U32(s, p) && e.inode.deleted == U32(s, p + 4) && e.inode.size == U32(s, p + 24) == |e.data|
  {
    hide U32;
  }

  // The directory data at lo..hi, and a name field, read in place.
  predicate DirIn(s: seq<Byte>, lo: nat, hi: nat) { lo <= hi <= |s| && DirOk(s[lo..hi]) }

  function NumberIn(s: seq<Byte>, lo: nat, hi: nat, name: seq<Byte>): Option<nat>
    requires lo <= hi <= |s|
  {
    Lookup(Dentries(s[lo..hi]), name)
  }

  function NameIn(s: seq<Byte>, p: nat): seq<Byte>
    requires p + NAME <= |s|
  {
    CString(s[p..p + NAME])
  }

  lemma DirBounds(s: seq<Byte>, lo: nat, hi: nat)
    requires DirIn(s, lo, hi)
    ensures lo <= hi <= |s|
  {
  }

  predicate DirAt(s: seq<Byte>, p: nat) { p + INODE <= |s| && DirIn(s, p + INODE, p + INODE + U32(s, p + 24)) }

  function Code(r: Option<nat>): int { if r.None? then -1 else r.value }

  // What the directory at p has for name: a number, or -1.
  function NumberAt(s: seq<Byte>, p: nat, name: seq<Byte>): int
    requires DirAt(s, p)
  {
    Code(NumberIn(s, p + INODE, p + INODE + U32(s, p + 24), name))
  }

  lemma DirParts(s: seq<Byte>, head: nat, p: nat, e: Entry, name: seq<Byte>)
    requires EntryIn(s, head, p, e) && DirOk(e.data)
    ensures DirAt(s, p) && NumberAt(s, p, name) == Code(Lookup(Dentries(e.data), name))
  {
    EntryParts(s, head, p, e);
    hide EntryIn, DirOk, Dentries, Lookup, U32;
  }

  lemma DentryIn(s: seq<Byte>, lo: nat, hi: nat, name: seq<Byte>)
    requires lo < hi && DirIn(s, lo, hi)
    ensures lo + DENTRY <= hi <= |s| && DirIn(s, lo + DENTRY, hi) && |NameIn(s, lo)| < NAME
    ensures NumberIn(s, lo, hi, name) ==
      if NameIn(s, lo) == name then Some(U32(s, lo + 32) as nat) else NumberIn(s, lo + DENTRY, hi, name)
  {
    var data := s[lo..hi];
    assert data[0..NAME] == s[lo..lo + NAME];
    WordIn(s, lo, hi, 32);
    assert data[DENTRY..] == s[lo + DENTRY..hi];
    hide U32, CString;
  }

  lemma EntryParts(s: seq<Byte>, head: nat, p: nat, e: Entry)
    requires EntryIn(s, head, p, e)
    ensures SB <= p && p + INODE + |e.data| <= head <= |s| && U32(s, p + 24) == |e.data| == e.inode.size
    ensures e.data == s[p + INODE..p + INODE + |e.data|] && e.inode == InodeAt(s, p)
  {
    hide U32;
  }

  lemma NoDentries(s: seq<Byte>, p: nat, name: seq<Byte>)
    requires p <= |s|
    ensures NumberIn(s, p, p, name).None?
  {
    assert s[p..p] == [];
  }

  // A word of a slice is a word of the whole.
  lemma WordIn(s: seq<Byte>, lo: nat, hi: nat, i: nat)
    requires lo + i + 4 <= hi <= |s|
    ensures U32(s[lo..hi], i) == U32(s, lo + i)
  {
    var t := s[lo..hi];
    assert t[i] == s[lo + i] && t[i + 1] == s[lo + i + 1] && t[i + 2] == s[lo + i + 2] && t[i + 3] == s[lo + i + 3];
  }
}
