/** Reading a file in filesystem/fat12.c: finding its directory entry, following its cluster
    chain through the 12-bit file allocation table, and copying sectors into the caller's
    buffer. */
module Fat12 {
  import opened Options
  import opened Words
  import opened Sequences

  const SECTOR := 512
  const PER_SECTOR := 16
  const NAME := 11
  const END_OF_CHAIN := 0xFF8
  const END_MARKER: Byte := 0
  const DELETED: Byte := 0xE5

  type Sector = s: seq<Byte> | |s| == SECTOR witness seq(SECTOR, _ => 0)

  /** The boot-sector fields the reader uses. */
  datatype Layout = Layout(reserved: nat, fats: nat, rootEntries: nat, sectorsPerFat: nat, sectorsPerCluster: nat)

  /** A disk; `stale` is what the buffer holds when a read beyond the disk leaves it alone. */
  datatype Disk = Disk(sectors: seq<Sector>, stale: Sector)

  function SectorAt(d: Disk, n: nat): Sector {
    if n < |d.sectors| then d.sectors[n] else d.stale
  }

  function RootSectors(b: Layout): nat {
    ToUint16((b.rootEntries * 32 + 512 - 1) / 512)
  }

  function RootStart(b: Layout): nat {
    ToUint16(b.reserved + b.fats * b.sectorsPerFat)
  }

  // ----- The root directory -----

  /** The number of the first entry of directory sector `sector`; a sector holds 16. */
  function FirstEntry(sector: nat): nat { 16 * sector }

  datatype Stamps = Stamps(createTime: nat, createDate: nat, accessDate: nat, writeTime: nat, writeDate: nat)

  datatype DirEntry = DirEntry(name: seq<Byte>, attr: Byte, stamps: Stamps, cluster: nat, size: nat)

  /** Entry `i` of a directory sector, little-endian fields decoded. */
  function EntryAt(s: Sector, i: nat): (e: DirEntry)
    requires i < PER_SECTOR
    ensures |e.name| == NAME
  {
    var o := 32 * i;
    var stamps := Stamps(Word16(s, o + 14), Word16(s, o + 16), Word16(s, o + 18), Word16(s, o + 22), Word16(s, o + 24));
    DirEntry(s[o..o + NAME], s[o + 11], stamps, Word16(s, o + 26), LittleEndian(s[o + 28..o + 32]))
  }

  function Word16(s: Sector, o: nat): nat
    requires o + 2 <= SECTOR
  {
    LittleEndian(s[o..o + 2])
  }

  function LittleEndian(bytes: seq<Byte>): nat {
    if bytes == [] then 0 else bytes[0] + 0x100 * LittleEndian(bytes[1..])
  }

  /** All entries of the root directory, in disk order. */
  function Directory(d: Disk, b: Layout): (dir: seq<DirEntry>)
    ensures |dir| == FirstEntry(RootSectors(b))
    ensures forall e :: e in dir ==> |e.name| == NAME
  {
    seq(FirstEntry(RootSectors(b)),
        k requires 0 <= k => EntryAt(SectorAt(d, RootStart(b) + k / 16), k % 16))
  }

  /** Character `j` of a C string, which ends in NUL. */
  function CharAt(f: seq<Byte>, j: nat): Byte {
    if j < |f| then f[j] else 0
  }

  /** `strncmp(name, f, 11) == 0`, from character `j` on. */
  predicate SameName(name: seq<Byte>, f: seq<Byte>, j: nat)
    requires |name| == NAME && j <= NAME
    decreases NAME - j
  {
    j == NAME || (name[j] == CharAt(f, j) && (name[j] == 0 || SameName(name, f, j + 1)))
  }

  /** The first live entry with that name before the end marker. */
  function Lookup(dir: seq<DirEntry>, f: seq<Byte>): Option<DirEntry>
    requires forall e :: e in dir ==> |e.name| == NAME
  {
    if dir == [] then None
    else
      var e := dir[0];
      assert e in dir;
      if e.name[0] == END_MARKER then None
      else if e.name[0] != DELETED && SameName(e.name, f, 0) then Some(e)
      else Lookup(dir[1..], f)
  }

  lemma DirectoryAt(d: Disk, b: Layout, sector: nat, i: nat)
    requires sector < RootSectors(b) && i < PER_SECTOR
    ensures Directory(d, b)[FirstEntry(sector) + i] == EntryAt(SectorAt(d, RootStart(b) + sector), i)
  {
    var k := FirstEntry(sector) + i;
    assert k / 16 == sector && k % 16 == i;
  }

  /** The 16 entries of `dir` from `base` on are those of `data`. */
  ghost predicate HoldsSector(dir: seq<DirEntry>, base: nat, data: Sector) {
    base + PER_SECTOR <= |dir| && forall i :: 0 <= i < PER_SECTOR ==> dir[base + i] == EntryAt(data, i)
  }

  lemma DirectoryHolds(d: Disk, b: Layout, sector: nat)
    requires sector < RootSectors(b)
    ensures HoldsSector(Directory(d, b), FirstEntry(sector), SectorAt(d, RootStart(b) + sector))
  {
    var dir, base, data := Directory(d, b), FirstEntry(sector), SectorAt(d, RootStart(b) + sector);
    forall i | 0 <= i < PER_SECTOR
      ensures dir[base + i] == EntryAt(data, i)
    {
      DirectoryAt(d, b, sector, i);
    }
  }

  /** The search loop of `fat12_read_file`. */
  method FindEntry(d: Disk, b: Layout, f: seq<Byte>) returns (found: Option<DirEntry>)
    ensures found == Lookup(Directory(d, b), f)
  {
    ghost var dir := Directory(d, b);
    assert dir[0..] == dir;
    for sector := 0 to RootSectors(b)
      invariant Lookup(dir, f) == Lookup(dir[FirstEntry(sector)..], f)
    {
      DirectoryHolds(d, b, sector);
      var done;
      done, found := SearchSector(SectorAt(d, RootStart(b) + sector), f, dir, FirstEntry(sector));
      if done {
        return;
      }
    }
    return None;
  }

  method SearchSector(data: Sector, f: seq<Byte>, ghost dir: seq<DirEntry>, ghost base: nat)
    returns (done: bool, found: Option<DirEntry>)
    requires HoldsSector(dir, base, data) && forall e :: e in dir ==> |e.name| == NAME
    ensures Lookup(dir[base..], f) == if done then found else Lookup(dir[base + PER_SECTOR..], f)
  {
    for i := 0 to PER_SECTOR
      invariant Lookup(dir[base..], f) == Lookup(dir[base + i..], f)
    {
      var e := EntryAt(data, i);
      assert dir[base + i..][0] == e && dir[base + i..][1..] == dir[base + i + 1..];
      if e.name[0] == END_MARKER {
        return true, None;
      }
      if e.name[0] != DELETED && SameName(e.name, f, 0) {
        return true, Some(e);
      }
    }
    return false, None;
  }

  // ----- The file allocation table -----

  function FatByte(d: Disk, b: Layout, k: nat): Byte {
    SectorAt(d, ToUint16(b.reserved + k / 512))[k % 512]
  }

  function FatBytes(d: Disk, b: Layout): nat -> Byte {
    k => FatByte(d, b, k)
  }

  /** Nibble `k` of a run of bytes, low nibble of each byte first. */
  function Nibble(bytes: nat -> Byte, k: nat): nat {
    if k % 2 == 0 then bytes(k / 2) % 16 else bytes(k / 2) / 16
  }

  /** Field `c` of a run of bytes as the FAT format defines it: the little-endian 12-bit field
      at bit 12 * c. */
  function Field(bytes: nat -> Byte, c: nat): nat {
    Nibble(bytes, 3 * c) + 16 * Nibble(bytes, 3 * c + 1) + 256 * Nibble(bytes, 3 * c + 2)
  }

  function FatField(d: Disk, b: Layout, c: nat): nat {
    Field(FatBytes(d, b), c)
  }

  /** Entry `c` as the reader decodes it from one sector; `beyond` is the byte that follows
      the sector buffer in memory.  The two halves have no bits in common, so `|` is `+`. */
  function NextCluster(d: Disk, b: Layout, beyond: Byte, c: nat): nat {
    var offset := c * 3 / 2;
    var data := SectorAt(d, ToUint16(b.reserved + offset / 512));
    var lo := data[offset % 512];
    var hi := if offset % 512 + 1 < 512 then data[offset % 512 + 1] else beyond;
    Decode(lo, hi, c)
  }

  function Decode(lo: Byte, hi: Byte, c: nat): nat {
    if c % 2 == 1 then lo / 16 + hi * 16 else lo + hi % 16 * 256
  }

  /** The two bytes of the entry lie in different sectors. */
  predicate Straddles(c: nat) {
    c * 3 / 2 % 512 == 512 - 1
  }

  lemma Nibbles(bytes: nat -> Byte, k: nat)
    ensures Nibble(bytes, 2 * k) == bytes(k) % 16 && Nibble(bytes, 2 * k + 1) == bytes(k) / 16
  {
  }

  lemma OddField(bytes: nat -> Byte, h: nat)
    ensures Field(bytes, 2 * h + 1) == Decode(bytes(3 * h + 1), bytes(3 * h + 2), 2 * h + 1)
  {
    Nibbles(bytes, 3 * h + 1);
    Nibbles(bytes, 3 * h + 2);
  }

  lemma EvenField(bytes: nat -> Byte, h: nat)
    ensures Field(bytes, 2 * h) == Decode(bytes(3 * h), bytes(3 * h + 1), 2 * h)
  {
    Nibbles(bytes, 3 * h);
    Nibbles(bytes, 3 * h + 1);
  }

  /** The reader's arithmetic on two bytes is the format's on nibbles. */
  lemma FieldIsDecoded(bytes: nat -> Byte, c: nat)
    ensures Field(bytes, c) == Decode(bytes(c * 3 / 2), bytes(c * 3 / 2 + 1), c)
  {
    var h := c / 2;
    if c % 2 == 1 {
      assert c == 2 * h + 1 && c * 3 / 2 == 3 * h + 1;
      OddField(bytes, h);
    } else {
      assert c == 2 * h && c * 3 / 2 == 3 * h;
      EvenField(bytes, h);
    }
  }

  lemma NextByte(d: Disk, b: Layout, o: nat)
    requires o % 512 != 511
    ensures FatByte(d, b, o + 1) == SectorAt(d, ToUint16(b.reserved + o / 512))[o % 512 + 1]
  {
    assert (o + 1) / 512 == o / 512 && (o + 1) % 512 == o % 512 + 1;
  }

  lemma BothBytesInSector(d: Disk, b: Layout, beyond: Byte, c: nat)
    requires !Straddles(c)
    ensures NextCluster(d, b, beyond, c) == Decode(FatByte(d, b, c * 3 / 2), FatByte(d, b, c * 3 / 2 + 1), c)
  {
    NextByte(d, b, c * 3 / 2);
  }

  lemma DecodesWithinSector(d: Disk, b: Layout, beyond: Byte, c: nat)
    requires !Straddles(c)
    ensures NextCluster(d, b, beyond, c) == FatField(d, b, c)
  {
    BothBytesInSector(d, b, beyond, c);
    FieldIsDecoded(FatBytes(d, b), c);
  }

  /** The reader decodes entry `c` correctly, whatever follows its buffer, exactly when the
      entry does not straddle two sectors. */
  lemma DecodesExactlyWithinSector(d: Disk, b: Layout, c: nat)
    ensures (forall beyond: Byte :: NextCluster(d, b, beyond, c) == FatField(d, b, c)) <==> !Straddles(c)
  {
    if Straddles(c) {
      assert NextCluster(d, b, 0, c) != NextCluster(d, b, 1, c);
    } else {
      forall beyond: Byte
        ensures NextCluster(d, b, beyond, c) == FatField(d, b, c)
      {
        DecodesWithinSector(d, b, beyond, c);
      }
    }
  }

  // ----- Cluster chains -----

  /** At most `n` clusters of the chain that starts at `c` and continues by `next`. */
  function Chain(next: nat -> nat, c: nat, n: nat): (cs: seq<nat>)
    ensures |cs| <= n
    decreases n
  {
    if n == 0 || c >= END_OF_CHAIN then [] else [c] + Chain(next, next(c), n - 1)
  }

  /** How the reader continues a chain, and how the format does. */
  function ReaderNext(d: Disk, b: Layout, beyond: Byte): nat -> nat {
    c => NextCluster(d, b, beyond, c)
  }

  function FormatNext(d: Disk, b: Layout): nat -> nat {
    c => FatField(d, b, c)
  }

  /** Where the sectors of a cluster begin. */
  function ClusterStart(b: Layout, c: nat): int {
    RootStart(b) + RootSectors(b) + (c - 2) * b.sectorsPerCluster
  }

  function ClusterSector(d: Disk, b: Layout, c: nat): Sector {
    SectorAt(d, ToUint16(ClusterStart(b, c)))
  }

  /** The first sector of each cluster, one after the other. */
  function ChainData(d: Disk, b: Layout, cs: seq<nat>): (data: seq<Byte>)
    ensures |data| == 512 * |cs|
  {
    if cs == [] then [] else ClusterSector(d, b, cs[0]) + ChainData(d, b, cs[1..])
  }

  function Min(a: int, b: int): int { if a < b then a else b }

  /** How many sectors `want` bytes fill. */
  function SectorsFor(want: int): nat {
    if want <= 0 then 0 else (want + 512 - 1) / 512
  }

  /** The copy loop of `fat12_read_file`; it ends even on a cyclic chain, because every round
      copies at least one byte. */
  method CopyChain(d: Disk, b: Layout, beyond: Byte, first: nat, want: int, buffer: array<Byte>) returns (n: nat)
    requires want <= buffer.Length
    modifies buffer
    ensures var data := ChainData(d, b, Chain(ReaderNext(d, b, beyond), first, SectorsFor(want)));
            && n == (if want <= 0 then 0 else Min(want, |data|))
            && buffer[..n] == data[..n]
            && buffer[n..] == old(buffer[n..])
  {
    ghost var next := ReaderNext(d, b, beyond);
    ghost var left := SectorsFor(want);
    ghost var data := ChainData(d, b, Chain(next, first, left));
    ghost var done, rest, was: seq<Byte> := [], data, buffer[..];
    var cluster: nat := first;
    n := 0;
    while cluster < END_OF_CHAIN && n < want
      invariant left == SectorsFor(want - |done|)
      invariant rest == ChainData(d, b, Chain(next, cluster, left)) && data == done + rest
      invariant n == if want <= 0 then 0 else Min(want, |done|)
      invariant n <= buffer.Length && buffer[..n] == done[..n]
      invariant buffer[n..] == was[n..]
      decreases want - n
    {
      var sector := ClusterSector(d, b, cluster);
      n := CopyPart(buffer, n, want, sector, done, was);
      cluster, left, done, rest := FollowChain(d, b, beyond, cluster, sector, left, done, rest, want);
    }
  }

  /** The step to the next cluster, and what it leaves to copy. */
  method FollowChain(d: Disk, b: Layout, beyond: Byte, c: nat, ghost sector: Sector, ghost left: nat,
                     ghost done: seq<Byte>, ghost rest: seq<Byte>, ghost want: int)
    returns (following: nat, ghost left': nat, ghost done': seq<Byte>, ghost rest': seq<Byte>)
    requires c < END_OF_CHAIN && sector == ClusterSector(d, b, c)
    requires |done| < want && left == SectorsFor(want - |done|)
    requires rest == ChainData(d, b, Chain(ReaderNext(d, b, beyond), c, left))
    ensures done' == done + sector && done' + rest' == done + rest
    ensures left' == SectorsFor(want - |done'|)
    ensures rest' == ChainData(d, b, Chain(ReaderNext(d, b, beyond), following, left'))
  {
    ghost var next := ReaderNext(d, b, beyond);
    following := NextCluster(d, b, beyond, c);
    assert following == next(c);
    ChainDataStep(d, b, next, c, left);
    left', done' := left - 1, done + sector;
    rest' := ChainData(d, b, Chain(next, following, left'));
    assert rest == sector + rest';
    Regroup(done, sector, rest');
  }

  /** Copies as much of one sector as is still wanted. */
  method CopyPart(buffer: array<Byte>, at: nat, want: nat, data: Sector, ghost done: seq<Byte>, ghost was: seq<Byte>)
    returns (n: nat)
    requires at < want <= buffer.Length == |was| && |done| == at
    requires buffer[..at] == done && buffer[at..] == was[at..]
    modifies buffer
    ensures n == Min(want, at + SECTOR)
    ensures buffer[..n] == (done + data)[..n] && buffer[n..] == was[n..]
  {
    var count := Min(SECTOR, want - at);
    CopyInto(buffer, at, data, count);
    n := at + count;
    assert buffer[..n] == buffer[..][..n] == done + data[..count];
    assert buffer[n..] == buffer[..][n..] == was[at..][count..];
  }

  lemma ChainDataStep(d: Disk, b: Layout, next: nat -> nat, c: nat, n: nat)
    requires n > 0 && c < END_OF_CHAIN
    ensures ChainData(d, b, Chain(next, c, n)) == ClusterSector(d, b, c) + ChainData(d, b, Chain(next, next(c), n - 1))
  {
    assert ([c] + Chain(next, next(c), n - 1))[1..] == Chain(next, next(c), n - 1);
  }

  method CopyInto(buffer: array<Byte>, at: nat, data: Sector, count: nat)
    requires count <= SECTOR && at + count <= buffer.Length
    modifies buffer
    ensures buffer[..] == old(buffer[..at]) + data[..count] + old(buffer[at + count..])
  {
    for j := 0 to count
      invariant buffer[..] == old(buffer[..at]) + data[..j] + old(buffer[at + j..])
    {
      buffer[at + j] := data[j];
    }
  }

  /** `fat12_read_file`. */
  method ReadFile(d: Disk, b: Layout, beyond: Byte, f: seq<Byte>, buffer: array<Byte>, size: int) returns (n: int)
    requires size <= buffer.Length
    modifies buffer
    ensures match Lookup(Directory(d, b), f)
            case None => n == -1 && buffer[..] == old(buffer[..])
            case Some(e) =>
              var want := Min(ToInt32(e.size), size);
              var data := ChainData(d, b, Chain(ReaderNext(d, b, beyond), e.cluster, SectorsFor(want)));
              && n == (if want <= 0 then 0 else Min(want, |data|))
              && buffer[..n] == data[..n]
              && buffer[n..] == old(buffer[n..])
  {
    var found := FindEntry(d, b, f);
    if found.None? {
      return -1;
    }
    var e := found.value;
    var want := Min(ToInt32(e.size), size);
    n := CopyChain(d, b, beyond, e.cluster, want, buffer);
  }
}
