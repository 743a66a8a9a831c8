/** Files on a FAT32 volume as kernel/fs/fatfs/fatfs_impl_omochaos.c finds them: a chain of clusters
    in the allocation table, and the bytes those clusters hold. */
module FatSpec {
  const SECTOR := 512

  /** The fields of FAT32_FileSystem that reading uses; `firstData` is FirstDataClus, a sector number. */
  datatype Fs = Fs(secPerClus: int, fatStart: int, rootClus: int, firstData: int)

  type Disk = seq<int>

  function ClusterBytes(fs: Fs): int {
    SECTOR * fs.secPerClus
  }

  /** CLUS2SECTOR. */
  function Sector(fs: Fs, clus: int): int {
    fs.firstData + (clus - fs.rootClus) * fs.secPerClus
  }

  /** The first sector of a cluster by the section "FAT Data Structure" of the
      Microsoft FAT32 File System Specification 1.03. */
  function StandardSector(fs: Fs, clus: int): int {
    fs.firstData + (clus - 2) * fs.secPerClus
  }

  /** The macro agrees with the standard exactly on volumes whose root directory is in cluster 2. */
  lemma SectorIsStandard(fs: Fs, clus: int)
    requires fs.secPerClus > 0
    ensures Sector(fs, clus) == StandardSector(fs, clus) <==> fs.rootClus == 2
  {
    assert Sector(fs, clus) - StandardSector(fs, clus) == (2 - fs.rootClus) * fs.secPerClus;
  }

  /** A little-endian 32-bit word. */
  function Word(bytes: seq<int>, at: int): int
    requires 0 <= at && at + 4 <= |bytes|
  {
    bytes[at] + 0x100 * bytes[at + 1] + 0x1_0000 * bytes[at + 2] + 0x100_0000 * bytes[at + 3]
  }

  predicate HasEntry(fs: Fs, disk: Disk, clus: int) {
    0 <= fs.fatStart && 0 <= clus && SECTOR * fs.fatStart + 4 * clus + 4 <= |disk|
  }

  /** The table entry of a cluster: the low 28 bits of word number `clus` of the table. */
  function NextClus(fs: Fs, disk: Disk, clus: int): int {
    if HasEntry(fs, disk, clus) then Word(disk, SECTOR * fs.fatStart + 4 * clus) % 0x1000_0000 else 0
  }

  /** Cluster number `k` of the chain that begins at `start`. */
  function ClusAt(fs: Fs, disk: Disk, start: int, k: nat): int {
    if k == 0 then start else NextClus(fs, disk, ClusAt(fs, disk, start, k - 1))
  }

  // --------------------------------------------------------------------- tables as stored

  const WORD32 := 0x1_0000_0000

  /** The bytes of a number of 32 bits, the lowest one first. */
  function Encoded(x: int): seq<int> {
    [x % 0x100, x / 0x100 % 0x100, x / 0x1_0000 % 0x100, x / 0x100_0000 % 0x100]
  }

  /** The table holds the number `x` for the cluster. */
  predicate Stored(fs: Fs, disk: Disk, clus: int, x: int) {
    && HasEntry(fs, disk, clus) && 0 <= x < WORD32
    && var at := SECTOR * fs.fatStart + 4 * clus; disk[at..at + 4] == Encoded(x)
  }

  /** What is read back is its low 28 bits. */
  lemma EntryStored(fs: Fs, disk: Disk, clus: int, x: int)
    requires Stored(fs, disk, clus, x)
    ensures NextClus(fs, disk, clus) == x % 0x1000_0000
  {
    var at := SECTOR * fs.fatStart + 4 * clus;
    var e := disk[at..at + 4];
    assert disk[at] == e[0] && disk[at + 1] == e[1] && disk[at + 2] == e[2] && disk[at + 3] == e[3];
    Decoded(x);
  }

  lemma Decoded(x: int)
    requires 0 <= x < WORD32
    ensures var e := Encoded(x); e[0] + 0x100 * e[1] + 0x1_0000 * e[2] + 0x100_0000 * e[3] == x
  {
    var a := x / 0x100;
    var b := a / 0x100;
    var c := b / 0x100;
    assert x / 0x1_0000 == b && x / 0x100_0000 == c && c % 0x100 == c;
  }

  /** The chain found from the first cluster of a stored list is that list, whatever the four reserved
      bits of each entry hold. */
  lemma {:induction false} ChainStored(fs: Fs, disk: Disk, chain: seq<int>, high: seq<int>, k: nat)
    requires k < |chain| && |high| == |chain| && forall i :: 0 <= i < |chain| ==> 0 <= chain[i] < 0x1000_0000
    requires forall i :: 0 <= i < k ==> Stored(fs, disk, chain[i], 0x1000_0000 * high[i] + chain[i + 1])
    ensures ClusAt(fs, disk, chain[0], k) == chain[k]
  {
    if k > 0 {
      ChainStored(fs, disk, chain, high, k - 1);
      EntryStored(fs, disk, chain[k - 1], 0x1000_0000 * high[k - 1] + chain[k]);
      Reserved(high[k - 1], chain[k]);
    }
  }

  lemma Reserved(h: int, x: int)
    requires 0 <= x < 0x1000_0000
    ensures (0x1000_0000 * h + x) % 0x1000_0000 == x
  {
  }

  // -------------------------------------------------------------------------- good chains

  /** The cluster lies on the disk, and so does its table entry. */
  predicate ClusterOk(fs: Fs, disk: Disk, clus: int) {
    HasEntry(fs, disk, clus) && 0 <= Sector(fs, clus) && SECTOR * Sector(fs, clus) + ClusterBytes(fs) <= |disk|
  }

  /** The first `n` clusters of the chain are good. */
  ghost predicate ChainOk(fs: Fs, disk: Disk, start: int, n: int) {
    fs.secPerClus > 0 && |disk| % SECTOR == 0 && forall k: nat :: k < n ==>
      ClusterOk(fs, disk, ClusAt(fs, disk, start, k))
  }

  // ------------------------------------------------------------------------ positions

  /** Byte `i` of a file is byte `p` of its cluster `k`. */
  datatype Place = Place(k: nat, p: int)

  function Locate(i: nat, b: int): (r: Place)
    requires b > 0
    ensures 0 <= r.p < b
  {
    if i < b then Place(0, i) else var r := Locate(i - b, b); Place(r.k + 1, r.p)
  }

  /** The place is the quotient and the remainder. */
  lemma {:induction false} LocateQuotient(i: nat, b: int)
    requires b > 0
    ensures var at := Locate(i, b); i == b * at.k + at.p
  {
    if i >= b {
      LocateQuotient(i - b, b);
      var at := Locate(i - b, b);
      assert b * (at.k + 1) == b * at.k + b;
    }
  }

  lemma {:induction false} LocateMod(i: nat, b: int)
    requires b > 0
    ensures Locate(i, b).p == i % b
  {
    if i >= b {
      LocateMod(i - b, b);
      ModStep(i, b);
    }
  }

  lemma ModStep(i: nat, b: int)
    requires i >= b > 0
    ensures (i - b) % b == i % b
  {
    var q, r := i / b, (i - b) / b;
    assert i == b * q + i % b && i - b == b * r + (i - b) % b;
    var d := q - r - 1;
    assert b * d == (i - b) % b - i % b by { assert b * d == b * q - b * r - b; }
    Multiple(b, d);
  }

  lemma Multiple(b: int, d: int)
    requires b > 0
    ensures (d >= 1 ==> b * d >= b) && (d <= -1 ==> b * d <= -b)
  {
  }

  /** Moving on inside a cluster, or to the start of the next one. */
  lemma {:induction false} LocateOn(i: nat, j: nat, b: int)
    requires b > 0 && Locate(i, b).p + j <= b
    ensures var at := Locate(i, b);
      Locate(i + j, b) == if at.p + j < b then Place(at.k, at.p + j) else Place(at.k + 1, 0)
  {
    if i >= b { LocateOn(i - b, j, b); }
  }

  lemma {:induction false} LocateOrder(i: nat, j: nat, b: int)
    requires b > 0 && i <= j
    ensures Locate(i, b).k <= Locate(j, b).k
  {
    if i >= b { LocateOrder(i - b, j - b, b); }
  }

  // ---------------------------------------------------------------------------- files

  function ByteAt(disk: Disk, a: int): int {
    if 0 <= a < |disk| then disk[a] else 0
  }

  /** Where byte `i` of the file whose chain begins at `start` lies by the standard. */
  function FilePlace(fs: Fs, disk: Disk, start: int, i: nat): int
    requires fs.secPerClus > 0
  {
    var at := Locate(i, ClusterBytes(fs));
    SECTOR * StandardSector(fs, ClusAt(fs, disk, start, at.k)) + at.p
  }

  /** Where read takes byte `i` from when it starts at `offset`: up to the end of the sector it starts
      in it uses the first sector of the cluster instead of the right one. */
  function CopiedPlace(fs: Fs, disk: Disk, start: int, offset: nat, i: nat): int
    requires fs.secPerClus > 0
  {
    var at := Locate(i, ClusterBytes(fs));
    var head := offset % SECTOR != 0 && i < offset - offset % SECTOR + SECTOR;
    SECTOR * Sector(fs, ClusAt(fs, disk, start, at.k)) + if head then at.p % SECTOR else at.p
  }

  function FileByte(fs: Fs, disk: Disk, start: int, i: nat): int
    requires fs.secPerClus > 0
  {
    ByteAt(disk, FilePlace(fs, disk, start, i))
  }

  function CopiedByte(fs: Fs, disk: Disk, start: int, offset: nat, i: nat): int
    requires fs.secPerClus > 0
  {
    ByteAt(disk, CopiedPlace(fs, disk, start, offset, i))
  }

  /** The bytes of a file whose chain is stored in the table: byte `p` of cluster `k` of the list lies
      `p` bytes behind the first sector of that cluster. */
  lemma FileStored(fs: Fs, disk: Disk, chain: seq<int>, high: seq<int>, k: nat, p: nat)
    requires fs.secPerClus > 0 && p < ClusterBytes(fs)
    requires k < |chain| && |high| == |chain| && forall i :: 0 <= i < |chain| ==> 0 <= chain[i] < 0x1000_0000
    requires forall i :: 0 <= i < k ==> Stored(fs, disk, chain[i], 0x1000_0000 * high[i] + chain[i + 1])
    ensures ClusterBytes(fs) * k + p >= 0
    ensures FileByte(fs, disk, chain[0], ClusterBytes(fs) * k + p) ==
      ByteAt(disk, SECTOR * (fs.firstData + (chain[k] - 2) * fs.secPerClus) + p)
  {
    hide Locate, ByteAt, ClusAt, Stored;
    ChainStored(fs, disk, chain, high, k);
    Scaled(ClusterBytes(fs), 0, k);
    LocateAt(ClusterBytes(fs), k, p);
  }

  lemma {:induction false} LocateAt(b: int, k: nat, p: nat)
    requires p < b
    ensures b * k + p >= 0 && Locate(b * k + p, b) == Place(k, p)
  {
    if k > 0 {
      LocateAt(b, k - 1, p);
      assert b * k + p == b * (k - 1) + p + b;
    }
  }

  /** How much of the file a request for `len` bytes at `offset` covers. */
  function Clamp(size: nat, offset: nat, len: nat): (n: nat)
    requires offset <= size
    ensures offset + n <= size && n <= len && (n == len || offset + n == size)
  {
    if offset + len > size then size - offset else len
  }

  /** The chain is long enough for the file. */
  ghost predicate FileOk(fs: Fs, disk: Disk, start: int, size: nat) {
    fs.secPerClus > 0 && (size > 0 ==> ChainOk(fs, disk, start, Locate(size - 1, ClusterBytes(fs)).k + 1))
  }

  /** Where the copying is right: the root directory in cluster 2, and an offset at the start of a
      sector or in the first sector of its cluster; or nothing to copy. */
  predicate ReadsRight(fs: Fs, offset: nat, n: nat)
    requires fs.secPerClus > 0
  {
    n == 0 || (fs.rootClus == 2 && (offset % SECTOR == 0 || offset % ClusterBytes(fs) < SECTOR))
  }

  /** There every byte is taken from its place. */
  lemma GoodRead(fs: Fs, disk: Disk, start: int, offset: nat, n: nat, i: nat)
    requires fs.secPerClus > 0 && ReadsRight(fs, offset, n) && offset <= i < offset + n
    ensures CopiedPlace(fs, disk, start, offset, i) == FilePlace(fs, disk, start, i)
  {
    hide Locate, Sector, StandardSector;
    SectorIsStandard(fs, ClusAt(fs, disk, start, Locate(i, ClusterBytes(fs)).k));
    if offset % SECTOR != 0 && i < offset - offset % SECTOR + SECTOR {
      LocateMod(offset, ClusterBytes(fs));
      SectorOfCluster(fs, offset);
      SameSector(Locate(offset, ClusterBytes(fs)).p, i - offset, fs);
      LocateOn(offset, i - offset, ClusterBytes(fs));
    }
  }

  /** Anywhere else already the first byte is taken from another place. */
  lemma BadRead(fs: Fs, disk: Disk, start: int, offset: nat, n: nat)
    requires fs.secPerClus > 0 && !ReadsRight(fs, offset, n)
    ensures CopiedPlace(fs, disk, start, offset, offset) != FilePlace(fs, disk, start, offset)
  {
    var p, d := Locate(offset, ClusterBytes(fs)).p, 2 - fs.rootClus;
    LocateMod(offset, ClusterBytes(fs));
    SectorOfCluster(fs, offset);
    var clus := ClusAt(fs, disk, start, Locate(offset, ClusterBytes(fs)).k);
    assert Sector(fs, clus) - StandardSector(fs, clus) == d * fs.secPerClus;
    assert SECTOR * (d * fs.secPerClus) == ClusterBytes(fs) * d;
    Multiple(ClusterBytes(fs), d);
  }

  /** Clusters are whole sectors, so an offset has the same place in its sector either way. */
  lemma {:induction false} SectorOfCluster(fs: Fs, i: nat)
    requires fs.secPerClus > 0
    ensures Locate(i, ClusterBytes(fs)).p % SECTOR == i % SECTOR
  {
    var b := ClusterBytes(fs);
    if i >= b {
      SectorOfCluster(fs, i - b);
      WholeSectors(i - b, fs.secPerClus);
    }
  }

  lemma WholeSectors(i: nat, c: int)
    ensures (i + SECTOR * c) % SECTOR == i % SECTOR
  {
    var q, r := i / SECTOR, i % SECTOR;
    assert i + SECTOR * c == SECTOR * (q + c) + r;
  }

  /** The sector of a place ends inside the cluster. */
  lemma SectorFits(p: nat, c: int)
    requires p < SECTOR * c
    ensures p - p % SECTOR + SECTOR <= SECTOR * c
  {
    var q := p / SECTOR;
    assert p == SECTOR * q + p % SECTOR;
    assert q < c;
  }

  // ------------------------------------------------------------------ exactly when it is right

  predicate IsBytes(disk: Disk) {
    forall a :: 0 <= a < |disk| ==> 0 <= disk[a] < 0x100
  }

  /** A disk of bytes of the same size on which the first clusters of the file are the same. */
  ghost predicate Variant(fs: Fs, disk: Disk, disk': Disk, start: int, n: nat) {
    && |disk'| == |disk| && IsBytes(disk')
    && forall k: nat :: k <= n ==> ClusAt(fs, disk', start, k) == ClusAt(fs, disk, start, k)
  }

  ghost predicate AllRight(fs: Fs, disk: Disk, start: int, offset: nat, n: nat)
    requires fs.secPerClus > 0
  {
    forall i :: offset <= i < offset + n ==> CopiedByte(fs, disk, start, offset, i) == FileByte(fs, disk, start, i)
  }

  /** A read is right whatever the file holds exactly under the condition. */
  lemma ReadExact(fs: Fs, disk: Disk, start: int, offset: nat, n: nat)
    requires fs.secPerClus > 0 && IsBytes(disk) && DataApart(fs, disk, start, Locate(offset, ClusterBytes(fs)).k)
    ensures ReadsRight(fs, offset, n) <==>
      forall disk' :: Variant(fs, disk, disk', start, Locate(offset, ClusterBytes(fs)).k) ==>
        AllRight(fs, disk', start, offset, n)
  {
    hide ReadsRight, CopiedPlace, FilePlace, Locate, Variant;
    if ReadsRight(fs, offset, n) {
      forall disk' | Variant(fs, disk, disk', start, Locate(offset, ClusterBytes(fs)).k)
        ensures AllRight(fs, disk', start, offset, n)
      {
        forall i | offset <= i < offset + n
          ensures CopiedByte(fs, disk', start, offset, i) == FileByte(fs, disk', start, i)
        {
          GoodRead(fs, disk', start, offset, n, i);
        }
      }
    } else {
      var disk' := WrongByte(fs, disk, start, offset, n);
      Copies(fs, offset, n);
      assert !AllRight(fs, disk', start, offset, n);
    }
  }

  lemma Copies(fs: Fs, offset: nat, n: nat)
    requires fs.secPerClus > 0 && !ReadsRight(fs, offset, n)
    ensures n > 0
  {
  }

  /** Otherwise one byte of the disk can be changed so that the first byte copied is wrong. */
  lemma WrongByte(fs: Fs, disk: Disk, start: int, offset: nat, n: nat) returns (disk': Disk)
    requires fs.secPerClus > 0 && !ReadsRight(fs, offset, n) && IsBytes(disk)
    requires DataApart(fs, disk, start, Locate(offset, ClusterBytes(fs)).k)
    ensures Variant(fs, disk, disk', start, Locate(offset, ClusterBytes(fs)).k)
    ensures CopiedByte(fs, disk', start, offset, offset) != FileByte(fs, disk', start, offset)
  {
    hide ReadsRight;
    BadRead(fs, disk, start, offset, n);
    var k := Locate(offset, ClusterBytes(fs)).k;
    var from, right := CopiedPlace(fs, disk, start, offset, offset), FilePlace(fs, disk, start, offset);
    disk' := disk[right := (ByteAt(disk, from) + 1) % 0x100];
    SameChain(fs, disk, disk', start, k, right);
    assert CopiedPlace(fs, disk', start, offset, offset) == from && FilePlace(fs, disk', start, offset) == right;
  }

  /** By the standard the cluster is on the disk, behind the table entries of the chain up to it. */
  ghost predicate DataApart(fs: Fs, disk: Disk, start: int, n: nat) {
    var s := SECTOR * StandardSector(fs, ClusAt(fs, disk, start, n));
    && 0 <= s && s + ClusterBytes(fs) <= |disk|
    && forall k: nat :: k < n ==>
        HasEntry(fs, disk, ClusAt(fs, disk, start, k)) && EntryBelow(fs, ClusAt(fs, disk, start, k), s)
  }

  predicate EntryBelow(fs: Fs, clus: int, a: int) {
    SECTOR * fs.fatStart + 4 * clus + 4 <= a
  }

  lemma {:induction false} SameChain(fs: Fs, disk: Disk, disk': Disk, start: int, n: nat, a: int)
    requires 0 <= a < |disk| && |disk'| == |disk| && disk' == disk[a := disk'[a]]
    requires forall k: nat :: k < n ==>
      HasEntry(fs, disk, ClusAt(fs, disk, start, k)) && EntryBelow(fs, ClusAt(fs, disk, start, k), a)
    ensures forall k: nat :: k <= n ==> ClusAt(fs, disk', start, k) == ClusAt(fs, disk, start, k)
  {
    if n > 0 {
      SameChain(fs, disk, disk', start, n - 1, a);
      var c := ClusAt(fs, disk, start, n - 1);
      assert HasEntry(fs, disk, c) && EntryBelow(fs, c, a);
      assert NextClus(fs, disk', c) == NextClus(fs, disk, c);
      forall k: nat | k <= n
        ensures ClusAt(fs, disk', start, k) == ClusAt(fs, disk, start, k)
      {
        if k < n { assert k <= n - 1; }
      }
    }
  }

  // ------------------------------------------------------------------- sectors of a file

  /** The clusters up to the one that holds byte `i` of the file are good. */
  lemma UpTo(fs: Fs, disk: Disk, start: int, size: nat, i: nat)
    requires FileOk(fs, disk, start, size) && i < size
    ensures ChainOk(fs, disk, start, Locate(i, ClusterBytes(fs)).k + 1)
    ensures ClusterOk(fs, disk, ClusAt(fs, disk, start, Locate(i, ClusterBytes(fs)).k)) && |disk| % SECTOR == 0
  {
    LocateOrder(i, size - 1, ClusterBytes(fs));
  }

  /** So is the walk to any offset, even to the end of the file. */
  lemma WalkOk(fs: Fs, disk: Disk, start: int, size: nat, offset: nat)
    requires FileOk(fs, disk, start, size) && offset <= size && (size == 0 ==> |disk| % SECTOR == 0)
    ensures ChainOk(fs, disk, start, Locate(offset, ClusterBytes(fs)).k)
  {
    var b := ClusterBytes(fs);
    if size == 0 {
    } else {
      LocateOrder(if offset < size then offset else size - 1, size - 1, b);
      if offset == size { LocateOn(size - 1, 1, b); }
    }
  }

  lemma InLastCluster(fs: Fs, disk: Disk, start: int, size: nat, offset: nat)
    requires FileOk(fs, disk, start, size) && offset <= size && offset % SECTOR != 0
    ensures ClusterOk(fs, disk, ClusAt(fs, disk, start, Locate(offset, ClusterBytes(fs)).k)) && |disk| % SECTOR == 0
  {
    hide Locate, ClusterOk;
    if offset < size {
      UpTo(fs, disk, start, size, offset);
    } else {
      UpTo(fs, disk, start, size, offset - 1);
      SectorOfCluster(fs, offset);
      LocateOn(offset - 1, 1, ClusterBytes(fs));
    }
  }

  /** In the sector the read starts in. */
  lemma HeadByte(fs: Fs, disk: Disk, start: int, offset: nat, j: nat)
    requires fs.secPerClus > 0 && offset % SECTOR != 0 && j < SECTOR - offset % SECTOR
    ensures Locate(offset, ClusterBytes(fs)).p % SECTOR == offset % SECTOR
    ensures var at := Locate(offset, ClusterBytes(fs));
      CopiedByte(fs, disk, start, offset, offset + j) ==
        ByteAt(disk, SECTOR * Sector(fs, ClusAt(fs, disk, start, at.k)) + at.p % SECTOR + j)
  {
    hide Locate, ByteAt, Sector, ClusAt, ClusterBytes;
    var b := ClusterBytes(fs);
    SectorOfCluster(fs, offset);
    SameSector(Locate(offset, b).p, j, fs);
    LocateOn(offset, j, b);
  }

  /** A step that stays in the sector stays in the cluster. */
  lemma SameSector(p: nat, j: nat, fs: Fs)
    requires fs.secPerClus > 0 && p < ClusterBytes(fs) && p % SECTOR + j < SECTOR
    ensures p + j < ClusterBytes(fs) && (p + j) % SECTOR == p % SECTOR + j
  {
    SectorFits(p, fs.secPerClus);
  }

  /** In a later sector, which begins at byte `i` of the file. */
  lemma SectorByte(fs: Fs, disk: Disk, start: int, offset: nat, i: nat, j: nat)
    requires fs.secPerClus > 0 && Locate(i, ClusterBytes(fs)).p % SECTOR == 0 && j < SECTOR
    requires offset <= i && (offset % SECTOR == 0 || i >= offset - offset % SECTOR + SECTOR)
    ensures var at := Locate(i, ClusterBytes(fs));
      CopiedByte(fs, disk, start, offset, i + j) ==
        ByteAt(disk, SECTOR * (Sector(fs, ClusAt(fs, disk, start, at.k)) + at.p / SECTOR) + j)
  {
    hide Locate, ByteAt;
    SectorFits(Locate(i, ClusterBytes(fs)).p, fs.secPerClus);
    LocateOn(i, j, ClusterBytes(fs));
  }

  // --------------------------------------------------------- the 32-bit counter of the walk

  /** What a 32-bit variable holds. */
  function Wrap32(x: int): int {
    x % WORD32
  }

  lemma NoWrap(x: int)
    requires 0 <= x < WORD32
    ensures Wrap32(x) == x
  {
  }

  /** The counter after `q` clusters. */
  function Counter(b: int, q: nat): int {
    Wrap32(b * q)
  }

  /** The walk stops, with a counter that never wrapped, exactly when the cluster of `offset` ends
      below 4 GiB; a cluster size always divides 2^32. */
  lemma WalkEnds(b: int, m: int, offset: nat)
    requires b > 0 && b * m == WORD32 && offset < WORD32
    ensures offset + b < WORD32 <==> exists q: nat :: Counter(b, q) > offset
  {
    if offset + b < WORD32 {
      assert Counter(b, m - 1) == WORD32 - b by { LastMultiple(b, m); }
    } else {
      forall q: nat
        ensures Counter(b, q) <= offset
      {
        CounterBound(b, m, q);
      }
    }
  }

  lemma LastMultiple(b: int, m: int)
    requires b > 0 && b * m == WORD32
    ensures m >= 1 && Counter(b, m - 1) == WORD32 - b
  {
    assert b * (m - 1) == WORD32 - b;
    if m <= 0 { Negative(b, m); }
  }

  lemma Negative(b: int, m: int)
    requires b > 0 && m <= 0
    ensures b * m <= 0
  {
  }

  lemma CounterBound(b: int, m: int, q: nat)
    requires b > 0 && b * m == WORD32
    ensures Counter(b, q) <= WORD32 - b
  {
    LastMultiple(b, m);
    var t, r := q / m, q % m;
    assert q == m * t + r;
    assert b * q == WORD32 * t + b * r by { assert b * (m * t) == (b * m) * t; }
    Scaled(b, r, m - 1);
    Remainder(WORD32 * t + b * r, t, b * r);
  }

  lemma Scaled(b: int, r: int, m: int)
    requires b > 0 && 0 <= r <= m
    ensures 0 <= b * r <= b * m
  {
  }

  lemma Remainder(x: int, t: int, r: int)
    requires x == WORD32 * t + r && 0 <= r < WORD32
    ensures x % WORD32 == r
  {
  }
}
