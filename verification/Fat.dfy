/** read of kernel/fs/fatfs/fatfs_impl_omochaos.c: the walk along the cluster chain and the three
    copying steps. */
module Fat {
  import opened FatSpec

  /** bio_cache_read of one sector. */
  function SectorData(disk: Disk, s: int): (r: seq<int>)
    requires 0 <= s && SECTOR * s + SECTOR <= |disk|
    ensures |r| == SECTOR
  {
    disk[SECTOR * s..SECTOR * s + SECTOR]
  }

  /** get_next_clus_in_FAT: the entry is found in one cached sector of 128 words. */
  method GetNextClus(fs: Fs, disk: Disk, clus: int) returns (next: int)
    requires HasEntry(fs, disk, clus) && |disk| % SECTOR == 0
    ensures next == NextClus(fs, disk, clus)
    ensures forall x :: Stored(fs, disk, clus, x) ==> next == x % 0x1000_0000
  {
    forall x | Stored(fs, disk, clus, x)
      ensures NextClus(fs, disk, clus) == x % 0x1000_0000
    {
      EntryStored(fs, disk, clus, x);
    }
    var sector := clus / 128;
    var buf := SectorData(disk, fs.fatStart + sector);
    var entry := clus - 128 * sector;
    assert forall j :: 0 <= j < SECTOR ==> buf[j] == disk[SECTOR * (fs.fatStart + sector) + j];
    next := Word(buf, 4 * entry) % 0x1000_0000;
  }

  /** The loop that walks to the cluster of `offset`. */
  method Walk(fs: Fs, disk: Disk, start: int, offset: nat) returns (clus: int)
    requires fs.secPerClus > 0 && ChainOk(fs, disk, start, Locate(offset, ClusterBytes(fs)).k)
    requires offset + ClusterBytes(fs) < WORD32
    ensures clus == ClusAt(fs, disk, start, Locate(offset, ClusterBytes(fs)).k)
  {
    hide Wrap32, NextClus, ClusterOk;
    var b := ClusterBytes(fs);
    clus := start;
    var p := b;
    ghost var k: nat, left: nat := 0, offset;
    while p <= offset
      invariant left == offset - (p - b) && clus == ClusAt(fs, disk, start, k)
      invariant k + Locate(left, b).k == Locate(offset, b).k
      decreases left
    {
      assert ClusterOk(fs, disk, ClusAt(fs, disk, start, k));
      EntryOf(fs, disk, clus);
      clus := GetNextClus(fs, disk, clus);
      NoWrap(p + b);
      k, left, p := k + 1, left - b, Wrap32(p + b);
    }
  }

  /** Copies a piece of a sector to the buffer. */
  method CopyOut(buffer: array<int>, at: nat, data: seq<int>, from: nat, count: nat)
    requires at + count <= buffer.Length && from + count <= |data|
    modifies buffer
    ensures forall j :: 0 <= j < buffer.Length ==>
      buffer[j] == if at <= j < at + count then data[from + (j - at)] else old(buffer[j])
  {
    var j := 0;
    while j < count
      invariant 0 <= j <= count
      invariant forall i :: 0 <= i < buffer.Length ==>
        buffer[i] == if at <= i < at + j then data[from + (i - at)] else old(buffer[i])
    {
      buffer[at + j] := data[from + j];
      j := j + 1;
    }
  }

  /** The first `done` bytes of the request are in the buffer, and nothing behind them changed. */
  ghost predicate Copied(fs: Fs, disk: Disk, start: int, offset: nat, b: seq<int>, was: seq<int>, done: nat)
    requires fs.secPerClus > 0
  {
    && |b| == |was| && done <= |b|
    && (forall j :: 0 <= j < done ==> b[j] == CopiedByte(fs, disk, start, offset, offset + j))
    && (forall j :: done <= j < |b| ==> b[j] == was[j])
  }

  /** What follows the first, partial sector is copied from the right places. */
  predicate PastHead(offset: nat, done: nat) {
    offset % SECTOR == 0 || done >= SECTOR - offset % SECTOR
  }

  /** The step for an offset inside a sector. */
  method ReadHead(fs: Fs, disk: Disk, start: int, size: nat, buffer: array<int>, offset: nat, n: nat, clus: int)
    returns (s: nat)
    requires FileOk(fs, disk, start, size) && offset + n <= size && n <= buffer.Length && offset % SECTOR != 0
    requires clus == ClusAt(fs, disk, start, Locate(offset, ClusterBytes(fs)).k)
    modifies buffer
    ensures s <= n && Copied(fs, disk, start, offset, buffer[..], old(buffer[..]), s)
    ensures s <= SECTOR - offset % SECTOR && (s == n || s == SECTOR - offset % SECTOR)
  {
    hide Locate, ByteAt, CopiedByte, ClusAt;
    InLastCluster(fs, disk, start, size, offset);
    var from := offset % SECTOR;
    s := if SECTOR - from < n then SECTOR - from else n;
    var buf := SectorData(disk, Sector(fs, clus));
    CopyOut(buffer, 0, buf, from, s);
    forall j: nat | j < s
      ensures buffer[j] == CopiedByte(fs, disk, start, offset, offset + j)
    {
      HeadByte(fs, disk, start, offset, j);
      OnDisk(disk, Sector(fs, clus), from + j);
    }
  }

  /** Copies `count` bytes, at most a sector, from the place of byte `offset + done` of the file. */
  method CopyPart(fs: Fs, disk: Disk, start: int, size: nat, buffer: array<int>, offset: nat, done: nat, count: nat,
    clus: int, p: nat, ghost was: seq<int>)
    requires FileOk(fs, disk, start, size) && offset + done < size && count <= SECTOR && done + count <= buffer.Length
    requires Locate(offset + done, ClusterBytes(fs)).p == p && p % SECTOR == 0
    requires clus == ClusAt(fs, disk, start, Locate(offset + done, ClusterBytes(fs)).k)
    requires Copied(fs, disk, start, offset, buffer[..], was, done) && PastHead(offset, done)
    modifies buffer
    ensures Copied(fs, disk, start, offset, buffer[..], was, done + count) && PastHead(offset, done + count)
  {
    hide Locate, ByteAt, ClusAt;
    UpTo(fs, disk, start, size, offset + done);
    ghost var before := buffer[..];
    var sector := Sector(fs, clus) + p / SECTOR;
    var buf := SectorData(disk, sector);
    CopyOut(buffer, done, buf, 0, count);
    forall j | 0 <= j < done + count
      ensures buffer[j] == CopiedByte(fs, disk, start, offset, offset + j)
    {
      if j < done {
        assert buffer[j] == before[j];
      } else {
        SectorByte(fs, disk, start, offset, offset + done, j - done);
        OnDisk(disk, sector, j - done);
      }
    }
  }

  lemma OnDisk(disk: Disk, s: int, j: nat)
    requires 0 <= s && SECTOR * s + SECTOR <= |disk| && j < SECTOR
    ensures SectorData(disk, s)[j] == ByteAt(disk, SECTOR * s + j)
  {
  }

  /** The step to the next cluster when this one is used up. */
  method NextIfDone(fs: Fs, disk: Disk, start: int, size: nat, i: nat, clus: int, p: nat) returns (clus': int, p': nat)
    requires FileOk(fs, disk, start, size) && 0 < i < size && p <= ClusterBytes(fs)
    requires Locate(i, ClusterBytes(fs)) ==
      (if p < ClusterBytes(fs) then Place(Locate(i - 1, ClusterBytes(fs)).k, p)
      else Place(Locate(i - 1, ClusterBytes(fs)).k + 1, 0))
    requires clus == ClusAt(fs, disk, start, Locate(i - 1, ClusterBytes(fs)).k)
    ensures p' == Locate(i, ClusterBytes(fs)).p && clus' == ClusAt(fs, disk, start, Locate(i, ClusterBytes(fs)).k)
    ensures p' == p || p' == 0
  {
    hide Locate, ClusterOk;
    clus', p' := clus, p;
    if p == ClusterBytes(fs) {
      UpTo(fs, disk, start, size, i - 1);
      EntryOf(fs, disk, clus);
      clus' := GetNextClus(fs, disk, clus);
      p' := 0;
    }
  }

  lemma EntryOf(fs: Fs, disk: Disk, clus: int)
    requires ClusterOk(fs, disk, clus)
    ensures HasEntry(fs, disk, clus)
  {
  }

  /** A step of `j` bytes that ends in this cluster or at its end. */
  lemma Advance(i: nat, j: nat, b: int)
    requires b > 0 && j > 0 && Locate(i, b).p + j <= b
    ensures var at := Locate(i, b);
      Locate(i + j, b) == if at.p + j < b then Place(at.k, at.p + j) else Place(at.k + 1, 0)
    ensures Locate(i + j - 1, b).k == Locate(i, b).k
  {
    LocateOn(i, j, b);
    LocateOn(i, j - 1, b);
  }

  /** The loop over whole sectors and the last piece. */
  method ReadSectors(fs: Fs, disk: Disk, start: int, size: nat, buffer: array<int>, offset: nat, n: nat, done0: nat,
    clus0: int, p0: nat, ghost was: seq<int>)
    requires FileOk(fs, disk, start, size) && offset + n <= size && n <= buffer.Length && done0 < n
    requires Locate(offset + done0, ClusterBytes(fs)).p == p0 && p0 % SECTOR == 0
    requires clus0 == ClusAt(fs, disk, start, Locate(offset + done0, ClusterBytes(fs)).k)
    requires Copied(fs, disk, start, offset, buffer[..], was, done0) && PastHead(offset, done0)
    modifies buffer
    ensures Copied(fs, disk, start, offset, buffer[..], was, n)
  {
    hide Locate, ByteAt, CopiedByte, ClusAt, Copied, ClusterOk;
    var b := ClusterBytes(fs);
    var done, clus, p := done0, clus0, p0;
    while n - done > SECTOR
      invariant done < n && Locate(offset + done, b).p == p && p % SECTOR == 0
      invariant clus == ClusAt(fs, disk, start, Locate(offset + done, b).k)
      invariant Copied(fs, disk, start, offset, buffer[..], was, done) && PastHead(offset, done)
    {
      CopyPart(fs, disk, start, size, buffer, offset, done, SECTOR, clus, p, was);
      SectorFits(p, fs.secPerClus);
      Advance(offset + done, SECTOR, b);
      done, p := done + SECTOR, p + SECTOR;
      clus, p := NextIfDone(fs, disk, start, size, offset + done, clus, p);
    }
    CopyPart(fs, disk, start, size, buffer, offset, done, n - done, clus, p, was);
  }

  /** p_clus. */
  method InCluster(offset: nat, b: int) returns (p: nat)
    requires b > 0
    ensures p == Locate(offset, b).p
  {
    LocateMod(offset, b);
    p := offset % b;
  }

  /** read: it copies the part of the request that lies in the file and returns its length. */
  method Read(fs: Fs, disk: Disk, start: int, size: nat, buffer: array<int>, offset: nat, len: nat) returns (n: nat)
    requires FileOk(fs, disk, start, size) && |disk| % SECTOR == 0 && offset <= size && len <= buffer.Length
    requires offset + ClusterBytes(fs) < WORD32
    modifies buffer
    ensures n == Clamp(size, offset, len)
    ensures Copied(fs, disk, start, offset, buffer[..], old(buffer[..]), n)
    ensures ReadsRight(fs, offset, n) ==> forall j :: 0 <= j < n ==> buffer[j] == FileByte(fs, disk, start, offset + j)
  {
    hide Locate, ByteAt, CopiedByte, ClusAt, ClusterOk, ReadsRight;
    var b := ClusterBytes(fs);
    n := Clamp(size, offset, len);
    ghost var was := buffer[..];
    WalkOk(fs, disk, start, size, offset);
    var clus := Walk(fs, disk, start, offset);
    SectorOfCluster(fs, offset);
    var p := InCluster(offset, b);
    var done := 0;
    if p % SECTOR != 0 {
      done := ReadHead(fs, disk, start, size, buffer, offset, n, clus);
      SectorFits(p, fs.secPerClus);
      if 0 < done { Advance(offset, done, b); }
      p := p + done;
    }
    if done == n {
      CopiedIsFile(fs, disk, start, offset, buffer[..], was, n);
      return;
    }
    if done > 0 {
      clus, p := NextIfDone(fs, disk, start, size, offset + done, clus, p);
    }
    ReadSectors(fs, disk, start, size, buffer, offset, n, done, clus, p, was);
    CopiedIsFile(fs, disk, start, offset, buffer[..], was, n);
  }

  lemma CopiedIsFile(fs: Fs, disk: Disk, start: int, offset: nat, b: seq<int>, was: seq<int>, n: nat)
    requires fs.secPerClus > 0 && Copied(fs, disk, start, offset, b, was, n)
    ensures ReadsRight(fs, offset, n) ==> forall j :: 0 <= j < n ==> b[j] == FileByte(fs, disk, start, offset + j)
  {
    hide CopiedPlace, FilePlace, ReadsRight;
    if ReadsRight(fs, offset, n) {
      forall j | 0 <= j < n
        ensures b[j] == FileByte(fs, disk, start, offset + j)
      {
        GoodRead(fs, disk, start, offset, n, offset + j);
      }
    }
  }
}
