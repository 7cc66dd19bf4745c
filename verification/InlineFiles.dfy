/** TableFS regular files (src/fs/tablefs.cpp): small ones live inside the inode
    value, larger ones in a disk file of their own, and they move between the two.
    A file is meant to be one flat array of bytes either way. */
module InlineFiles {
  import opened Wrappers
  import opened Keys

  // ----- flat files -----

  function Max(a: nat, b: nat): nat
  {
    if a < b then b else a
  }

  function Min(a: nat, b: nat): nat
  {
    if a < b then a else b
  }

  function ByteAt(s: seq<Byte>, i: nat): Byte
  {
    if i < |s| then s[i] else 0
  }

  /** What a write of `buf` at `offset` should leave: holes are zero, and writing
      nothing changes nothing. */
  function Written(s: seq<Byte>, offset: nat, buf: seq<Byte>): seq<Byte>
  {
    var n := if buf == [] then |s| else Max(|s|, offset + |buf|);
    seq(n, (i: nat) => if offset <= i < offset + |buf| then buf[i - offset] else ByteAt(s, i))
  }

  /** What truncating to `n` bytes should leave. */
  function Resized(s: seq<Byte>, n: nat): (r: seq<Byte>)
    ensures |r| == n
  {
    seq(n, (i: nat) => ByteAt(s, i))
  }

  function ReadAt(s: seq<Byte>, offset: nat, n: nat): seq<Byte>
  {
    s[Min(offset, |s|)..Min(offset + n, |s|)]
  }

  // ----- std::string and the disk -----

  /** string::replace(offset, size, buf, size) after growing to `offset`, as UpdateIhandleValue does. */
  function Update(s: seq<Byte>, offset: nat, buf: seq<Byte>): seq<Byte>
  {
    var t := if offset > |s| then Resized(s, offset) else s;
    t[..offset] + buf + t[Min(offset + |buf|, |t|)..]
  }

  /** pwrite: writing nothing changes nothing, not even the length. */
  function Pwrite(s: seq<Byte>, offset: nat, buf: seq<Byte>): seq<Byte>
  {
    if buf == [] then s else Update(s, offset, buf)
  }

  lemma UpdateWrites(s: seq<Byte>, offset: nat, buf: seq<Byte>)
    ensures Pwrite(s, offset, buf) == Written(s, offset, buf)
    ensures buf != [] || offset <= |s| ==> Update(s, offset, buf) == Written(s, offset, buf)
    ensures |Update(s, offset, buf)| == Max(|s|, offset + |buf|)
  {
    if buf == [] && offset <= |s| {
      assert Update(s, offset, buf) == s;
    }
  }

  lemma UpdateInside(name: seq<Byte>, s: seq<Byte>, offset: nat, buf: seq<Byte>)
    ensures Update(name + s, |name| + offset, buf) == name + Update(s, offset, buf)
  {
    var whole, inner := name + s, Update(s, offset, buf);
    var t := if offset > |s| then Resized(s, offset) else s;
    var u := if |name| + offset > |whole| then Resized(whole, |name| + offset) else whole;
    assert u == name + t;
    assert u[..|name| + offset] == name + t[..offset];
    assert u[Min(|name| + offset + |buf|, |u|)..] == t[Min(offset + |buf|, |t|)..];
    assert Update(whole, |name| + offset, buf) == name + inner;
  }

  lemma ResizeInside(name: seq<Byte>, s: seq<Byte>, n: nat)
    ensures Resized(name + s, |name| + n) == name + Resized(s, n)
  {
  }

  type Path = (int, int)

  /** (int) inode_id: the low 32 bits, signed. */
  function AsInt(ino: nat): int
  {
    var low := ino % 0x1_0000_0000;
    if low < 0x8000_0000 then low else low - 0x1_0000_0000
  }

  /** GetDiskFilePath: a directory and a file number; >> floors, % truncates. */
  function DiskPath(ino: nat): Path
  {
    var n := AsInt(ino);
    (n / 16384, if n >= 0 then n % 16384 else -((-n) % 16384))
  }

  /** Two inodes share a disk file exactly when their low 32 bits agree. */
  lemma SharedPath(i: nat, j: nat)
    ensures DiskPath(i) == DiskPath(j) <==> i % 0x1_0000_0000 == j % 0x1_0000_0000
  {
    var m, n := AsInt(i), AsInt(j);
    if DiskPath(i) == DiskPath(j) {
      Whole(m);
      Whole(n);
    }
  }

  lemma Whole(n: int)
    ensures n >= 0 ==> n == n / 16384 * 16384 + n % 16384
    ensures n < 0 ==> n / 16384 * 16384 <= n < n / 16384 * 16384 + 16384 && n / 16384 < 0
    ensures n < 0 ==> n == n / 16384 * 16384 + (if (-n) % 16384 == 0 then 0 else 16384 - (-n) % 16384)
  {
  }

  // ----- inodes -----

  /** struct tfs_inode_header, without the times, the mode and the owner. */
  datatype Header = Header(ino: nat, size: nat, hasBlob: bool, namelen: nat)

  /** The value stored for a file: the header, and after it the name, a NUL and
      the inline data. */
  datatype InodeValue = InodeValue(header: Header, rest: seq<Byte>)

  type MetaKey = nat

  /** An open file: the cached value and the descriptor of the disk file. */
  datatype Session = Session(value: InodeValue, fd: Option<Path>)

  type Disk = map<Path, seq<Byte>>

  function DataStart(v: InodeValue): nat
  {
    v.header.namelen + 1
  }

  /** A blob exactly when the size is over the threshold, and then exactly `size` bytes of
      it; otherwise exactly `size` bytes inline. */
  ghost predicate InodeOk(v: InodeValue, disk: Disk, threshold: nat)
  {
    var path := DiskPath(v.header.ino);
    && |v.rest| == DataStart(v) + (if v.header.hasBlob then 0 else v.header.size)
    && (v.header.hasBlob <==> v.header.size > threshold) && (v.header.hasBlob <==> path in disk)
    && (path in disk ==> |disk[path]| == v.header.size)
  }

  function Content(v: InodeValue, disk: Disk): seq<Byte>
  {
    var path := DiskPath(v.header.ino);
    if v.header.hasBlob then if path in disk then disk[path] else []
    else if DataStart(v) <= |v.rest| then v.rest[DataStart(v)..] else []
  }

  /** All files at once: inode numbers are not shared, and every disk file is the
      blob of some file. */
  ghost predicate Files(inodes: map<MetaKey, InodeValue>, disk: Disk, threshold: nat, last: nat)
  {
    && last < 0x1_0000_0000
    && (forall k :: k in inodes ==> inodes[k].header.ino <= last && InodeOk(inodes[k], disk, threshold))
    && (forall k, l :: k in inodes && l in inodes && inodes[k].header.ino == inodes[l].header.ino ==> k == l)
    && (forall p :: p in disk ==> Owned(inodes, p))
  }

  ghost predicate Owned(inodes: map<MetaKey, InodeValue>, p: Path)
  {
    exists k :: k in inodes && DiskPath(inodes[k].header.ino) == p
  }

  ghost predicate OnlyPath(disk: Disk, after: Disk, path: Path)
  {
    forall p :: p != path ==> (p in disk <==> p in after) && (p in disk ==> after[p] == disk[p])
  }

  lemma OwnPath(inodes: map<MetaKey, InodeValue>, disk: Disk, threshold: nat, last: nat, k: MetaKey, l: MetaKey)
    requires Files(inodes, disk, threshold, last) && k in inodes && l in inodes && k != l
    ensures DiskPath(inodes[k].header.ino) != DiskPath(inodes[l].header.ino)
  {
    hide DiskPath;
    SharedPath(inodes[k].header.ino, inodes[l].header.ino);
  }

  /** A change to one file and its disk file leaves every other file alone. */
  lemma OneChanged(inodes: map<MetaKey, InodeValue>, disk: Disk, k: MetaKey, v: InodeValue, after: Disk, threshold: nat,
                   last: nat)
    requires Files(inodes, disk, threshold, last) && k in inodes && v.header.ino == inodes[k].header.ino
    requires InodeOk(v, after, threshold) && OnlyPath(disk, after, DiskPath(v.header.ino))
    ensures Files(inodes[k := v], after, threshold, last)
    ensures forall l :: l in inodes && l != k ==> Content(inodes[l], after) == Content(inodes[l], disk)
  {
    hide DiskPath;
    hide Files;
    hide InodeOk;
    hide Content;
    hide OnlyPath;
    hide Owned;
    OthersUnchanged(inodes, disk, k, v, after, threshold, last);
    StillOwned(inodes, disk, k, v, after, threshold, last);
    SameOwners(inodes, disk, k, v, after, threshold, last);
  }

  lemma SameOwners(inodes: map<MetaKey, InodeValue>, disk: Disk, k: MetaKey, v: InodeValue, after: Disk,
                   threshold: nat, last: nat)
    requires Files(inodes, disk, threshold, last) && k in inodes && v.header.ino == inodes[k].header.ino
    requires InodeOk(v, after, threshold)
    requires forall l :: l in inodes && l != k ==> InodeOk(inodes[l], after, threshold)
    requires forall p :: p in after ==> Owned(inodes[k := v], p)
    ensures Files(inodes[k := v], after, threshold, last)
  {
    hide InodeOk;
    hide Owned;
    var more := inodes[k := v];
    forall l | l in more
      ensures more[l].header.ino == inodes[l].header.ino && InodeOk(more[l], after, threshold)
    {
    }
  }

  lemma OthersUnchanged(inodes: map<MetaKey, InodeValue>, disk: Disk, k: MetaKey, v: InodeValue, after: Disk,
                        threshold: nat, last: nat)
    requires Files(inodes, disk, threshold, last) && k in inodes && v.header.ino == inodes[k].header.ino
    requires OnlyPath(disk, after, DiskPath(v.header.ino))
    ensures forall l :: l in inodes && l != k ==>
      InodeOk(inodes[l], after, threshold) && Content(inodes[l], after) == Content(inodes[l], disk)
  {
    hide DiskPath;
    forall l | l in inodes && l != k
      ensures InodeOk(inodes[l], after, threshold) && Content(inodes[l], after) == Content(inodes[l], disk)
    {
      OwnPath(inodes, disk, threshold, last, k, l);
    }
  }

  lemma StillOwned(inodes: map<MetaKey, InodeValue>, disk: Disk, k: MetaKey, v: InodeValue, after: Disk,
                   threshold: nat, last: nat)
    requires Files(inodes, disk, threshold, last) && k in inodes && v.header.ino == inodes[k].header.ino
    requires OnlyPath(disk, after, DiskPath(v.header.ino))
    ensures forall p :: p in after ==> Owned(inodes[k := v], p)
  {
    hide DiskPath;
    hide InodeOk;
    var more := inodes[k := v];
    forall p | p in after
      ensures Owned(more, p)
    {
      if p == DiskPath(v.header.ino) {
        assert more[k] == v;
      } else {
        var l :| l in inodes && DiskPath(inodes[l].header.ino) == p;
        assert l != k && more[l] == inodes[l];
      }
    }
  }

  /** A new file, empty and without a blob. */
  lemma OneAdded(inodes: map<MetaKey, InodeValue>, disk: Disk, k: MetaKey, v: InodeValue, threshold: nat, last: nat)
    requires Files(inodes, disk, threshold, last) && k !in inodes && last + 1 < 0x1_0000_0000
    requires v.header.ino == last + 1 && v.header.size == 0 && !v.header.hasBlob && |v.rest| == DataStart(v)
    ensures Files(inodes[k := v], disk, threshold, last + 1) && Content(v, disk) == []
  {
    hide DiskPath;
    var more := inodes[k := v];
    NewPath(inodes, disk, threshold, last, v.header.ino);
    assert InodeOk(v, disk, threshold);
    forall l | l in more
      ensures more[l].header.ino <= last + 1 && InodeOk(more[l], disk, threshold)
    {
    }
    hide InodeOk;
    forall p | p in disk
      ensures Owned(more, p)
    {
      var l :| l in inodes && DiskPath(inodes[l].header.ino) == p;
      assert l in more && more[l] == inodes[l];
    }
  }

  lemma NewPath(inodes: map<MetaKey, InodeValue>, disk: Disk, threshold: nat, last: nat, ino: nat)
    requires Files(inodes, disk, threshold, last) && last < ino < 0x1_0000_0000
    ensures DiskPath(ino) !in disk
  {
    hide DiskPath;
    hide InodeOk;
    forall p | p in disk
      ensures p != DiskPath(ino)
    {
      var l :| l in inodes && DiskPath(inodes[l].header.ino) == p;
      SharedPath(inodes[l].header.ino, ino);
    }
  }

  /** A file goes, and with it its blob if it has one. */
  lemma OneGone(inodes: map<MetaKey, InodeValue>, disk: Disk, k: MetaKey, after: Disk, threshold: nat, last: nat)
    requires Files(inodes, disk, threshold, last) && k in inodes
    requires OnlyPath(disk, after, DiskPath(inodes[k].header.ino)) && DiskPath(inodes[k].header.ino) !in after
    ensures Files(inodes - {k}, after, threshold, last)
    ensures forall l :: l in inodes && l != k ==> Content(inodes[l], after) == Content(inodes[l], disk)
  {
    hide DiskPath;
    forall l | l in inodes && l != k
      ensures InodeOk(inodes[l], after, threshold) && Content(inodes[l], after) == Content(inodes[l], disk)
    {
      OwnPath(inodes, disk, threshold, last, k, l);
    }
    forall p | p in after
      ensures Owned(inodes - {k}, p)
    {
      var l :| l in inodes && DiskPath(inodes[l].header.ino) == p;
      assert l in inodes - {k};
    }
  }

  // ----- what the operations do to one file -----

  function UpdateInlineData(v: InodeValue, offset: nat, buf: seq<Byte>): InodeValue
  {
    v.(rest := Update(v.rest, DataStart(v) + offset, buf))
  }

  function TruncateInlineData(v: InodeValue, n: nat): InodeValue
  {
    v.(rest := Resized(v.rest, DataStart(v) + n))
  }

  function DropInlineData(v: InodeValue): InodeValue
  {
    v.(rest := Resized(v.rest, DataStart(v)))
  }

  function GetInlineData(v: InodeValue, offset: nat, n: nat): seq<Byte>
  {
    var start := DataStart(v) + offset;
    if start < |v.rest| then v.rest[start..Min(start + n, |v.rest|)] else []
  }

  lemma InlineRead(v: InodeValue, disk: Disk, threshold: nat, offset: nat, n: nat)
    requires InodeOk(v, disk, threshold) && !v.header.hasBlob
    ensures GetInlineData(v, offset, n) == ReadAt(Content(v, disk), offset, n)
  {
    hide DiskPath;
  }

  lemma InlineWrite(v: InodeValue, disk: Disk, threshold: nat, offset: nat, buf: seq<Byte>)
    requires InodeOk(v, disk, threshold) && !v.header.hasBlob && offset + |buf| <= threshold
    ensures var u := UpdateInlineData(v, offset, buf);
      var w := u.(header := u.header.(size := Max(v.header.size, offset + |buf|)));
      && InodeOk(w, disk, threshold) && Content(w, disk) == Update(Content(v, disk), offset, buf)
      && SameName(v, w)
  {
    hide DiskPath;
    hide Update;
    hide Written;
    var name, data := v.rest[..DataStart(v)], v.rest[DataStart(v)..];
    assert v.rest == name + data;
    UpdateInside(name, data, offset, buf);
    UpdateWrites(data, offset, buf);
    assert (name + Update(data, offset, buf))[DataStart(v)..] == Update(data, offset, buf);
    assert (name + Update(data, offset, buf))[..DataStart(v)] == name;
  }

  lemma InlineTruncate(v: InodeValue, disk: Disk, threshold: nat, n: nat)
    requires InodeOk(v, disk, threshold) && !v.header.hasBlob && n <= threshold
    ensures var u := TruncateInlineData(v, n);
      var w := u.(header := u.header.(size := n));
      InodeOk(w, disk, threshold) && Content(w, disk) == Resized(Content(v, disk), n) && SameName(v, w)
  {
    hide DiskPath;
    var name, data := v.rest[..DataStart(v)], v.rest[DataStart(v)..];
    assert v.rest == name + data;
    ResizeInside(name, data, n);
    assert (name + Resized(data, n))[DataStart(v)..] == Resized(data, n);
    assert (name + Resized(data, n))[..DataStart(v)] == name;
  }

  /** The value of an inline file whose data has moved to disk. */
  lemma MovedOut(v: InodeValue, disk: Disk, threshold: nat)
    requires InodeOk(v, disk, threshold) && !v.header.hasBlob
    ensures |Content(v, disk)| == v.header.size && DataStart(v) + v.header.size == |v.rest|
    ensures v.rest[DataStart(v)..DataStart(v) + v.header.size] == Content(v, disk)
    ensures |DropInlineData(v).rest| == DataStart(v) && (v.header.size == 0 ==> |v.rest| == DataStart(v))
    ensures Pwrite([], 0, Content(v, disk)) == Content(v, disk) && DiskPath(v.header.ino) !in disk
  {
    hide DiskPath;
  }

  /** The name and its NUL are the same. */
  ghost predicate SameName(v: InodeValue, w: InodeValue)
  {
    && w.header.namelen == v.header.namelen && DataStart(v) <= |v.rest| && DataStart(v) <= |w.rest|
    && w.rest[..DataStart(v)] == v.rest[..DataStart(v)]
  }

  /** The effect of a write on one file: as it should be, except that a write of no
      bytes beyond the end goes wrong. */
  ghost predicate Wrote(v: InodeValue, disk: Disk, threshold: nat, offset: nat, buf: seq<Byte>, w: InodeValue,
                        after: Disk)
  {
    var s := Content(v, disk);
    && w.header.ino == v.header.ino && SameName(v, w) && OnlyPath(disk, after, DiskPath(v.header.ino))
    && (if buf != [] || offset <= |s| then InodeOk(w, after, threshold) && Content(w, after) == Written(s, offset, buf)
        else !InodeOk(w, after, threshold) || Content(w, after) != s)
  }

  lemma OneEntry(before: map<MetaKey, seq<Byte>>, now: map<MetaKey, seq<Byte>>, k: MetaKey, s: seq<Byte>)
    requires now.Keys == before.Keys && k in now && now[k] == s
    requires forall l :: l in before && l != k ==> now[l] == before[l]
    ensures now == before[k := s]
  {
  }

  lemma WroteName(v: InodeValue, disk: Disk, threshold: nat, offset: nat, buf: seq<Byte>, w: InodeValue, after: Disk)
    requires Wrote(v, disk, threshold, offset, buf, w, after)
    ensures SameName(v, w)
  {
  }

  lemma InlineWrote(v: InodeValue, disk: Disk, threshold: nat, offset: nat, buf: seq<Byte>)
    requires InodeOk(v, disk, threshold) && !v.header.hasBlob && offset + |buf| <= threshold
    ensures var u := UpdateInlineData(v, offset, buf);
      Wrote(v, disk, threshold, offset, buf, u.(header := u.header.(size := Max(v.header.size, offset + |buf|))), disk)
  {
    InlineWrite(v, disk, threshold, offset, buf);
    hide DiskPath;
    var s := Content(v, disk);
    UpdateWrites(s, offset, buf);
    assert |s| == v.header.size;
    hide Update;
    hide Content;
  }

  lemma BlobWrote(v: InodeValue, disk: Disk, threshold: nat, offset: nat, buf: seq<Byte>)
    requires InodeOk(v, disk, threshold) && v.header.hasBlob
    ensures var path := DiskPath(v.header.ino);
      var w := v.(header := v.header.(size := Max(v.header.size, offset + |buf|)));
      path in disk && Wrote(v, disk, threshold, offset, buf, w,
                            disk[path := Pwrite(disk[path], offset, buf)])
  {
    hide DiskPath;
    UpdateWrites(Content(v, disk), offset, buf);
    hide Update;
  }

  lemma MovedWrote(v: InodeValue, disk: Disk, threshold: nat, offset: nat, buf: seq<Byte>)
    requires InodeOk(v, disk, threshold) && !v.header.hasBlob && offset + |buf| > threshold
    ensures var path, s := DiskPath(v.header.ino), Content(v, disk);
      Wrote(v, disk, threshold, offset, buf,
            InodeValue(v.header.(size := offset + |buf|, hasBlob := true), v.rest[..DataStart(v)]),
            disk[path := Pwrite(s, offset, buf)])
  {
    hide DiskPath;
    UpdateWrites(Content(v, disk), offset, buf);
    hide Update;
  }

  lemma InodeAt(inodes: map<MetaKey, InodeValue>, disk: Disk, threshold: nat, last: nat, k: MetaKey)
    requires Files(inodes, disk, threshold, last) && k in inodes
    ensures InodeOk(inodes[k], disk, threshold) && |Content(inodes[k], disk)| == inodes[k].header.size
    ensures inodes[k].header.hasBlob ==>
      DiskPath(inodes[k].header.ino) in disk && disk[DiskPath(inodes[k].header.ino)] == Content(inodes[k], disk)
  {
    assert InodeOk(inodes[k], disk, threshold);
    hide DiskPath;
  }

  lemma WritesNothing(s: seq<Byte>, offset: nat)
    ensures Written(s, offset, []) == s
  {
  }

  /** The same among all files. */
  lemma FileWrote(inodes: map<MetaKey, InodeValue>, disk: Disk, k: MetaKey, w: InodeValue, after: Disk, threshold: nat,
                  last: nat,
                  offset: nat, buf: seq<Byte>)
    requires Files(inodes, disk, threshold, last) && k in inodes
    requires Wrote(inodes[k], disk, threshold, offset, buf, w, after)
    ensures var was := Content(inodes[k], disk);
      (Files(inodes[k := w], after, threshold, last) && Content(w, after) == Written(was, offset, buf)) <==>
        buf != [] || offset <= |was|
    ensures buf != [] || offset <= |Content(inodes[k], disk)| ==>
      forall l :: l in inodes && l != k ==> Content(inodes[l], after) == Content(inodes[l], disk)
  {
    hide DiskPath;
    hide Content;
    hide InodeOk;
    hide Written;
    hide OnlyPath;
    hide Files;
    var was := Content(inodes[k], disk);
    InodeAt(inodes, disk, threshold, last, k);
    if buf != [] || offset <= |was| {
      OneChanged(inodes, disk, k, w, after, threshold, last);
    } else {
      WritesNothing(was, offset);
      if Files(inodes[k := w], after, threshold, last) {
        InodeAt(inodes[k := w], after, threshold, last, k);
      }
    }
  }

  /** A blob cut down to an inline file. */
  lemma MovedIn(v: InodeValue, disk: Disk, after: Disk, threshold: nat, n: nat)
    requires InodeOk(v, disk, threshold) && v.header.hasBlob && n <= threshold
    requires after == disk - {DiskPath(v.header.ino)}
    ensures var u := UpdateInlineData(v, 0, ReadAt(Content(v, disk), 0, n));
      var w := u.(header := u.header.(size := n, hasBlob := false));
      InodeOk(w, after, threshold) && Content(w, after) == Resized(Content(v, disk), n) && SameName(v, w)
  {
    hide DiskPath;
    var cut := ReadAt(Content(v, disk), 0, n);
    assert cut == Resized(Content(v, disk), n);
    UpdateInside(v.rest, [], 0, cut);
    assert v.rest + [] == v.rest;
    assert Update([], 0, cut) == cut;
    assert (v.rest + cut)[DataStart(v)..] == cut;
  }

  ghost predicate Truncated(v: InodeValue, disk: Disk, threshold: nat, n: nat, w: InodeValue, after: Disk)
  {
    && w.header.ino == v.header.ino && SameName(v, w) && OnlyPath(disk, after, DiskPath(v.header.ino))
    && InodeOk(w, after, threshold) && Content(w, after) == Resized(Content(v, disk), n)
  }

  /** Each of the four ways truncates. */
  lemma TruncatedAll(v: InodeValue, disk: Disk, threshold: nat, n: nat)
    requires InodeOk(v, disk, threshold)
    ensures var path, h := DiskPath(v.header.ino), v.header.(size := n, hasBlob := n > threshold);
      if v.header.hasBlob then
        && path in disk
        && (n > threshold ==> Truncated(v, disk, threshold, n, v.(header := h), disk[path := Resized(disk[path], n)]))
        && (n <= threshold ==>
          Truncated(v, disk, threshold, n, UpdateInlineData(v, 0, ReadAt(disk[path], 0, n)).(header := h),
                    disk - {path}))
      else
        && (n > threshold ==>
          Truncated(v, disk, threshold, n, InodeValue(h, v.rest[..DataStart(v)]),
                    disk[path := Resized(Content(v, disk), n)]))
        && (n <= threshold ==> Truncated(v, disk, threshold, n, TruncateInlineData(v, n).(header := h), disk))
  {
    hide DiskPath;
    if v.header.hasBlob && n <= threshold {
      MovedIn(v, disk, disk - {DiskPath(v.header.ino)}, threshold, n);
      hide Update;
      hide Resized;
    } else if !v.header.hasBlob && n <= threshold {
      InlineTruncate(v, disk, threshold, n);
      hide Resized;
    }
  }

  ghost predicate SessionOk(s: Session)
  {
    s.fd.Some? ==> s.fd.value == DiskPath(s.value.header.ino) && s.value.header.hasBlob
  }

  /** The disk file that is open along with a file. */
  function Descriptor(v: InodeValue): Option<Path>
  {
    if v.header.hasBlob then Some(DiskPath(v.header.ino)) else None
  }

  /** open(path, flags | O_CREAT). */
  function Opened(disk: Disk, path: Path, truncate: bool): Disk
  {
    if path in disk && !truncate then disk else disk[path := []]
  }

  class TableFS {
    const threshold: nat
    var values: map<MetaKey, InodeValue>  // the metadata store
    var sessions: map<MetaKey, Session>   // open files; a file is open once at a time
    var disk: Disk
    var maxInode: nat

    constructor (threshold: nat)
      ensures Valid() && Contents() == map[] && sessions == map[] && this.threshold == threshold
    {
      this.threshold := threshold;
      values, sessions, disk, maxInode := map[], map[], map[], 0;
    }

    /** The current value of a file: an open one may be ahead of the store. */
    ghost function Inodes(): map<MetaKey, InodeValue>
      reads this
    {
      map k | k in values :: if k in sessions then sessions[k].value else values[k]
    }

    ghost function Contents(): map<MetaKey, seq<Byte>>
      reads this
    {
      map k | k in values :: Content(Inodes()[k], disk)
    }

    ghost predicate Valid()
      reads this
    {
      && sessions.Keys <= values.Keys && Files(Inodes(), disk, threshold, maxInode)
      && forall k :: k in sessions ==> SessionOk(sessions[k])
    }

    /** mknod: the caller has seen that there is no such name. */
    method MakeNode(key: MetaKey, name: seq<Byte>)
      requires Valid() && key !in values && maxInode + 1 < 0x1_0000_0000
      modifies this`values, this`maxInode
      ensures Valid() && Contents() == old(Contents())[key := []] && maxInode == old(maxInode) + 1
      ensures Inodes() == old(Inodes())[key := InodeValue(Header(maxInode, 0, false, |name|), name + [0])]
    {
      hide Files;
      hide Content;
      hide DiskPath;
      ghost var inodes := Inodes();
      maxInode := maxInode + 1;
      var v := InodeValue(Header(maxInode, 0, false, |name|), name + [0]);
      values := values[key := v];
      OneAdded(inodes, disk, key, v, threshold, maxInode - 1);
      assert Inodes() == inodes[key := v];
    }

    /** Open for reading and writing; fails when there is no such file. */
    method Open(key: MetaKey) returns (ok: bool)
      requires Valid() && key !in sessions
      modifies this`sessions, this`disk
      ensures Valid() && Contents() == old(Contents()) && (ok <==> key in values)
      ensures Inodes() == old(Inodes()) && disk == old(disk)
      ensures !ok ==> sessions == old(sessions)
      ensures ok ==> sessions == old(sessions)[key := Session(values[key], Descriptor(values[key]))]
    {
      hide Files;
      hide DiskPath;
      hide Content;
      hide InodeOk;
      ok := key in values;
      if ok {
        ghost var inodes := Inodes();
        InodeAt(inodes, disk, threshold, maxInode, key);
        var v, fd := values[key], None;
        if v.header.hasBlob {
          var path := OpenDiskFile(v, false);
          fd := Some(path);
        }
        sessions := sessions[key := Session(v, fd)];
        assert Inodes() == inodes;
      }
    }

    method OpenDiskFile(v: InodeValue, truncate: bool) returns (fd: Path)
      modifies this`disk
      ensures fd == DiskPath(v.header.ino) && disk == Opened(old(disk), fd, truncate)
    {
      fd := DiskPath(v.header.ino);
      if fd !in disk || truncate {
        disk := disk[fd := []];
      }
    }

    method Read(key: MetaKey, offset: nat, size: nat) returns (buf: seq<Byte>)
      requires Valid() && key in sessions
      modifies this`sessions, this`disk
      ensures Valid() && Contents() == old(Contents()) && Inodes() == old(Inodes()) && disk == old(disk)
      ensures var v := old(sessions)[key].value; sessions == old(sessions)[key := Session(v, Descriptor(v))]
      ensures buf == ReadAt(Contents()[key], offset, size)
    {
      hide Files;
      hide DiskPath;
      hide Content;
      hide InodeOk;
      ghost var inodes := Inodes();
      InodeAt(inodes, disk, threshold, maxInode, key);
      var v, fd := sessions[key].value, sessions[key].fd;
      if v.header.hasBlob {
        if fd.None? {
          var path := OpenDiskFile(v, false);
          fd := Some(path);
        }
        buf := ReadAt(disk[fd.value], offset, size);
      } else {
        InlineRead(v, disk, threshold, offset, size);
        buf := GetInlineData(v, offset, size);
      }
      hide ReadAt;
      sessions := sessions[key := Session(v, fd)];
      assert Inodes() == inodes;
    }

    /** Write, on one inode: into the blob, or by moving to a blob, or inline. */
    method WriteInode(v: InodeValue, fd: Option<Path>, offset: nat, buf: seq<Byte>)
      returns (ret: nat, w: InodeValue, newFd: Option<Path>)
      requires InodeOk(v, disk, threshold) && SessionOk(Session(v, fd))
      modifies this`disk
      ensures ret == |buf| && Wrote(v, old(disk), threshold, offset, buf, w, disk) && SessionOk(Session(w, newFd))
      ensures newFd == Descriptor(w)
    {
      var hasLargerSize, hasMigrated := v.header.size < offset + |buf|, false;
      w, newFd := v, fd;
      if v.header.hasBlob {
        BlobWrote(v, disk, threshold, offset, buf);
        hide DiskPath;
        hide Content;
        hide Wrote;
        hide Pwrite;
        if newFd.None? {
          var path := OpenDiskFile(v, false);
          newFd := Some(path);
        }
        disk := disk[newFd.value := Pwrite(disk[newFd.value], offset, buf)];
        ret := |buf|;
      } else if offset + |buf| > threshold {
        MovedWrote(v, disk, threshold, offset, buf);
        hide DiskPath;
        hide Content;
        hide Wrote;
        hide Pwrite;
        ghost var was := disk;
        w, newFd := MigrateToDiskFile(v, newFd, false);
        w := w.(header := w.header.(size := offset + |buf|, hasBlob := true));
        hasMigrated := true;
        disk := disk[newFd.value := Pwrite(disk[newFd.value], offset, buf)];
        assert disk == was[newFd.value := Pwrite(Content(v, was), offset, buf)];
        ret := |buf|;
      } else {
        InlineWrote(v, disk, threshold, offset, buf);
        hide DiskPath;
        hide Wrote;
        w := UpdateInlineData(v, offset, buf);
        ret := |buf|;
      }
      if hasLargerSize && !hasMigrated {
        w := w.(header := w.header.(size := offset + |buf|));
      }
    }

    /** Write: a full write of some bytes leaves the flat file a write should leave;
        a write of no bytes does only if it is not beyond the end. */
    method Write(key: MetaKey, offset: nat, buf: seq<Byte>) returns (ret: nat)
      requires Valid() && key in sessions
      modifies this`sessions, this`disk
      ensures ret == |buf| && key in sessions && sessions == old(sessions)[key := sessions[key]]
      ensures SameName(old(sessions)[key].value, sessions[key].value)
      ensures sessions[key].fd == Descriptor(sessions[key].value)
      ensures Valid() && Contents() == old(Contents())[key := Written(old(Contents())[key], offset, buf)]
        <==> buf != [] || offset <= |old(Contents())[key]|
    {
      hide Files;
      hide DiskPath;
      hide Content;
      hide InodeOk;
      hide Written;
      hide Wrote;
      hide SessionOk;
      ghost var inodes, before := Inodes(), Contents();
      assert before.Keys == inodes.Keys && forall k :: k in inodes ==> before[k] == Content(inodes[k], disk);
      InodeAt(inodes, disk, threshold, maxInode, key);
      var w, fd;
      ret, w, fd := WriteInode(sessions[key].value, sessions[key].fd, offset, buf);
      sessions := sessions[key := Session(w, fd)];
      assert Inodes() == inodes[key := w];
      WroteName(inodes[key], old(disk), threshold, offset, buf, w, disk);
      hide SameName;
      FileWrote(inodes, old(disk), key, w, disk, threshold, maxInode, offset, buf);
      ghost var now := Contents();
      assert now.Keys == before.Keys && forall k :: k in inodes ==> now[k] == Content(inodes[key := w][k], disk);
      if buf != [] || offset <= |before[key]| {
        OneEntry(before, now, key, Written(before[key], offset, buf));
      }
    }

    /** Truncate, on a file that is not open. */
    method Truncate(key: MetaKey, n: nat) returns (ok: bool)
      requires Valid() && key !in sessions
      modifies this`values, this`disk
      ensures Valid() && (ok <==> key in old(values)) && values.Keys == old(values).Keys
      ensures ok ==> values == old(values)[key := values[key]] && SameName(old(values)[key], values[key])
      ensures Contents() == (if ok then old(Contents())[key := Resized(old(Contents())[key], n)] else old(Contents()))
    {
      hide Files;
      hide DiskPath;
      hide Content;
      hide InodeOk;
      hide Resized;
      hide OnlyPath;
      hide SameName;
      ok := key in values;
      if ok {
        ghost var inodes := Inodes();
        InodeAt(inodes, disk, threshold, maxInode, key);
        ghost var before := Contents();
        assert before.Keys == inodes.Keys && forall k :: k in inodes ==> before[k] == Content(inodes[k], disk);
        var v := TruncateInode(values[key], n);
        values := values[key := v];
        assert Inodes() == inodes[key := v];
        OneChanged(inodes, old(disk), key, v, disk, threshold, maxInode);
        ghost var now := Contents();
        assert now.Keys == before.Keys && forall k :: k in inodes ==> now[k] == Content(inodes[key := v][k], disk);
        OneEntry(before, now, key, Resized(before[key], n));
      }
    }

    /** Truncate, on one inode: the disk file, or back inline, or out to disk, or inline. */
    method TruncateInode(v: InodeValue, n: nat) returns (w: InodeValue)
      requires InodeOk(v, disk, threshold)
      modifies this`disk
      ensures Truncated(v, old(disk), threshold, n, w, disk)
    {
      hide DiskPath;
      hide Truncated;
      hide Resized;
      hide Content;
      hide Update;
      hide OnlyPath;
      var path := DiskPath(v.header.ino);
      w := v;
      TruncatedAll(v, disk, threshold, n);
      if v.header.hasBlob {
        if n > threshold {
          disk := disk[path := Resized(disk[path], n)];
        } else {
          var buffer := ReadAt(disk[path], 0, n);
          disk := disk - {path};
          w := UpdateInlineData(w, 0, buffer);
        }
      } else if n > threshold {
        var fd;
        ghost var was := disk;
        w, fd := MigrateToDiskFile(w, None, true);
        disk := disk[fd.value := Resized(disk[fd.value], n)];
        assert disk == was[path := Resized(Content(v, was), n)];
      } else {
        w := TruncateInlineData(w, n);
      }
      if n != w.header.size {
        w := w.(header := w.header.(size := n, hasBlob := n > threshold));
      }
    }

    /** Release: what the session did goes to the store. */
    method Release(key: MetaKey)
      requires Valid() && key in sessions
      modifies this`values, this`sessions
      ensures Valid() && Contents() == old(Contents()) && sessions == old(sessions) - {key}
      ensures values == old(values)[key := old(sessions)[key].value]
    {
      hide Files;
      hide DiskPath;
      hide Content;
      hide InodeOk;
      ghost var inodes := Inodes();
      values := values[key := sessions[key].value];
      sessions := sessions - {key};
      assert Inodes() == inodes;
    }

    /** Unlink: the size alone says whether there is a blob to remove, and it is right. */
    method Unlink(key: MetaKey) returns (ok: bool)
      requires Valid() && key !in sessions
      modifies this`values, this`disk
      ensures Valid() && (ok <==> key in old(values))
      ensures Contents() == old(Contents()) - {key} && values == old(values) - {key}
      ensures ok ==> disk == old(disk) - {DiskPath(old(values)[key].header.ino)}
    {
      hide Files;
      hide DiskPath;
      hide Content;
      ok := key in values;
      if ok {
        ghost var inodes := Inodes();
        InodeAt(inodes, disk, threshold, maxInode, key);
        var v := values[key];
        var path := DiskPath(v.header.ino);
        if v.header.size > threshold {
          disk := disk - {path};
        }
        hide InodeOk;
        values := values - {key};
        OneGone(inodes, old(disk), key, disk, threshold, maxInode);
        assert Inodes() == inodes - {key};
      }
    }

    /** Give an inline file a disk file and move its bytes there. */
    method MigrateToDiskFile(v: InodeValue, fd: Option<Path>, truncate: bool)
      returns (w: InodeValue, newFd: Option<Path>)
      requires InodeOk(v, disk, threshold) && !v.header.hasBlob
      modifies this`disk
      ensures newFd == Some(DiskPath(v.header.ino))
      ensures disk == old(disk)[DiskPath(v.header.ino) := Content(v, old(disk))]
      ensures w == v.(rest := v.rest[..DataStart(v)])
    {
      hide DiskPath;
      hide Content;
      hide InodeOk;
      hide Pwrite;
      MovedOut(v, disk, threshold);
      var path := OpenDiskFile(v, truncate);
      w, newFd := v, Some(path);
      if v.header.size > 0 {
        disk := disk[path := Pwrite(disk[path], 0, v.rest[DataStart(v)..DataStart(v) + v.header.size])];
        w := DropInlineData(v);
      }
    }
  }
}
