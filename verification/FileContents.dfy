/** Whether the bytes that filesystem/fat12.c copies are those of the file. */
module FileContents {
  import opened Words
  import opened Fat12

  // ----- Reading sectors by number -----

  /** The contents of the numbered sectors, one after the other. */
  function Bytes(d: Disk, ns: seq<nat>): (data: seq<Byte>)
    ensures |data| == 512 * |ns|
  {
    if ns == [] then [] else SectorAt(d, ns[0]) + Bytes(d, ns[1..])
  }

  lemma {:induction false} ByteAt(d: Disk, ns: seq<nat>, j: nat, i: nat)
    requires j < |ns| && i < 512
    ensures Bytes(d, ns)[512 * j + i] == SectorAt(d, ns[j])[i]
  {
    if j > 0 {
      ByteAt(d, ns[1..], j - 1, i);
    }
  }

  lemma {:induction false} BytesPrefix(d: Disk, xs: seq<nat>, ys: seq<nat>)
    requires xs <= ys
    ensures Bytes(d, xs) <= Bytes(d, ys)
  {
    if xs != [] {
      BytesPrefix(d, xs[1..], ys[1..]);
    }
  }

  /** The first `want` bytes, or all if there are fewer. */
  function FirstBytes(data: seq<Byte>, want: nat): seq<Byte> {
    if want < |data| then data[..want] else data
  }

  lemma FirstBytesOfPrefix(near: seq<Byte>, far: seq<Byte>, want: nat)
    requires near <= far && (near == far || want <= |near|)
    ensures FirstBytes(near, want) == FirstBytes(far, want)
  {
  }

  predicate SectorNumbers(ns: seq<nat>) {
    forall j :: 0 <= j < |ns| ==> ns[j] < TWO_16
  }

  /** A disk on which sector `n` differs from every other. */
  function Marked(n: nat): Disk {
    Disk(seq(TWO_16, k => seq(SECTOR, i => if k == n then 1 else 0)), seq(SECTOR, i => 0))
  }

  predicate SameOn(d: Disk, xs: seq<nat>, ys: seq<nat>, want: nat) {
    FirstBytes(Bytes(d, xs), want) == FirstBytes(Bytes(d, ys), want)
  }

  /** As many bytes come back, from sectors of the same numbers. */
  predicate SameSectors(xs: seq<nat>, ys: seq<nat>, want: nat) {
    Min(want, 512 * |xs|) == Min(want, 512 * |ys|) &&
    forall j :: 0 <= j < |xs| && 512 * j < want ==> j < |ys| && xs[j] == ys[j]
  }

  lemma SameLength(d: Disk, xs: seq<nat>, ys: seq<nat>, want: nat)
    requires SameOn(d, xs, ys, want)
    ensures Min(want, 512 * |xs|) == Min(want, 512 * |ys|)
  {
    assert |FirstBytes(Bytes(d, xs), want)| == |FirstBytes(Bytes(d, ys), want)|;
  }

  /** The marked sector shows which one was read. */
  lemma MarkTells(xs: seq<nat>, ys: seq<nat>, want: nat, j: nat)
    requires SectorNumbers(xs) && SectorNumbers(ys)
    requires j < |xs| && 512 * j < want && SameOn(Marked(xs[j]), xs, ys, want)
    ensures j < |ys| && xs[j] == ys[j]
  {
    var d := Marked(xs[j]);
    SameLength(d, xs, ys, want);
    ByteAt(d, xs, j, 0);
    ByteAt(d, ys, j, 0);
    assert FirstBytes(Bytes(d, xs), want)[512 * j] == FirstBytes(Bytes(d, ys), want)[512 * j];
  }

  /** Reading the sectors `xs` gives the first `want` bytes of the sectors `ys` whatever the disk
      holds exactly when as many bytes come back and the numbers of the sectors touched agree. */
  lemma SameForEveryDisk(xs: seq<nat>, ys: seq<nat>, want: nat)
    requires SectorNumbers(xs) && SectorNumbers(ys)
    ensures (forall d: Disk :: SameOn(d, xs, ys, want)) <==> SameSectors(xs, ys, want)
  {
    if forall d: Disk :: SameOn(d, xs, ys, want) {
      SameLength(Marked(0), xs, ys, want);
      forall j | 0 <= j < |xs| && 512 * j < want
        ensures j < |ys| && xs[j] == ys[j]
      {
        MarkTells(xs, ys, want, j);
      }
    }
    if SameSectors(xs, ys, want) {
      forall d: Disk
        ensures SameOn(d, xs, ys, want)
      {
        SameNumbersSameBytes(d, xs, ys, want);
      }
    }
  }

  lemma SameNumbersSameBytes(d: Disk, xs: seq<nat>, ys: seq<nat>, want: nat)
    requires SameSectors(xs, ys, want)
    ensures SameOn(d, xs, ys, want)
  {
    var m := if SectorsFor(want) < |xs| then SectorsFor(want) else |xs|;
    assert xs[..m] == ys[..m];
    BytesPrefix(d, xs[..m], xs);
    BytesPrefix(d, ys[..m], ys);
    FirstBytesOfPrefix(Bytes(d, xs[..m]), Bytes(d, xs), want);
    FirstBytesOfPrefix(Bytes(d, ys[..m]), Bytes(d, ys), want);
  }

  // ----- Sectors read and sectors of the file -----

  /** The number of sector `i` of a cluster. */
  function SectorOf(b: Layout, c: nat, i: nat): (n: nat)
    ensures n < TWO_16
  {
    ToUint16(ClusterStart(b, c) + i)
  }

  /** The sectors the reader copies: the first of each cluster. */
  function ReaderSectors(b: Layout, cs: seq<nat>): (ns: seq<nat>)
    ensures |ns| == |cs| && SectorNumbers(ns)
  {
    seq<nat>(|cs|, j requires 0 <= j < |cs| => SectorOf(b, cs[j], 0))
  }

  /** The sectors of one cluster. */
  function ClusterSectors(b: Layout, c: nat): (ns: seq<nat>)
    ensures |ns| == b.sectorsPerCluster && SectorNumbers(ns)
  {
    seq<nat>(b.sectorsPerCluster, i requires 0 <= i => SectorOf(b, c, i))
  }

  /** The sectors of a file: all of every cluster. */
  function FileSectors(b: Layout, cs: seq<nat>): (ns: seq<nat>)
    ensures SectorNumbers(ns)
  {
    if cs == [] then [] else ClusterSectors(b, cs[0]) + FileSectors(b, cs[1..])
  }

  function FileData(d: Disk, b: Layout, cs: seq<nat>): seq<Byte> {
    Bytes(d, FileSectors(b, cs))
  }

  lemma {:induction false} ReaderReads(d: Disk, b: Layout, cs: seq<nat>)
    ensures ChainData(d, b, cs) == Bytes(d, ReaderSectors(b, cs))
  {
    if cs != [] {
      assert ReaderSectors(b, cs)[1..] == ReaderSectors(b, cs[1..]);
      ReaderReads(d, b, cs[1..]);
    }
  }

  /** The cluster sizes of the Microsoft FAT specification, section "BPB_SecPerClus". */
  predicate LegalClusterSize(n: nat) {
    n in {1, 2, 4, 8, 16, 32, 64, 128}
  }

  lemma {:induction false} OneSectorClusters(b: Layout, cs: seq<nat>)
    requires b.sectorsPerCluster == 1
    ensures FileSectors(b, cs) == ReaderSectors(b, cs)
  {
    if cs != [] {
      OneSectorClusters(b, cs[1..]);
      assert ReaderSectors(b, cs) == [ReaderSectors(b, cs)[0]] + ReaderSectors(b, cs[1..]);
    }
  }

  lemma FileStartsWithCluster(b: Layout, cs: seq<nat>)
    requires cs != []
    ensures ClusterSectors(b, cs[0]) <= FileSectors(b, cs)
  {
  }

  /** With an even cluster size all clusters begin at sectors of the same parity. */
  lemma StartsHaveSameParity(b: Layout, c: nat, c': nat, h: nat)
    requires b.sectorsPerCluster == 2 * h
    ensures SectorOf(b, c', 0) != SectorOf(b, c, 1)
  {
    var k := (c - 2) * h;
    var k' := (c' - 2) * h;
    assert (c - 2) * (2 * h) == 2 * k;
    assert (c' - 2) * (2 * h) == 2 * k';
    Parity(RootStart(b) + RootSectors(b), k, k');
  }

  lemma Parity(r: int, k: int, k': int)
    ensures ToUint16(r + 2 * k') != ToUint16(r + 2 * k + 1)
  {
    var x, y := r + 2 * k', r + 2 * k + 1;
    var z := k' - k - 0x8000 * (x / 0x1_0000 - y / 0x1_0000);
    assert ToUint16(x) - ToUint16(y) == 2 * z - 1;
  }

  lemma SameSectorsExactlyWhen(b: Layout, cs: seq<nat>, want: nat)
    requires LegalClusterSize(b.sectorsPerCluster) && cs != []
    ensures SameSectors(ReaderSectors(b, cs), FileSectors(b, cs), want) <==> b.sectorsPerCluster == 1 || want <= 512
  {
    var xs, ys := ReaderSectors(b, cs), FileSectors(b, cs);
    FileStartsWithCluster(b, cs);
    assert |ys| >= b.sectorsPerCluster && ys[0] == xs[0];
    if b.sectorsPerCluster == 1 {
      OneSectorClusters(b, cs);
    } else if |cs| > 1 {
      StartsHaveSameParity(b, cs[0], cs[1], b.sectorsPerCluster / 2);
      assert ys[1] == ClusterSectors(b, cs[0])[1] != xs[1];
    }
  }

  /** The reader returns the first `want` bytes of the file with these clusters. */
  predicate ReadsRight(d: Disk, b: Layout, cs: seq<nat>, want: nat) {
    FirstBytes(ChainData(d, b, cs), want) == FirstBytes(FileData(d, b, cs), want)
  }

  /** For a given layout and chain of clusters, the reader is right whatever the sectors hold
      exactly when clusters are one sector long or no more than one sector is wanted. */
  lemma RightForEveryDiskExactlyWhen(b: Layout, cs: seq<nat>, want: nat)
    requires LegalClusterSize(b.sectorsPerCluster) && cs != []
    ensures (forall d: Disk :: ReadsRight(d, b, cs, want)) <==> b.sectorsPerCluster == 1 || want <= 512
  {
    var xs, ys := ReaderSectors(b, cs), FileSectors(b, cs);
    forall d: Disk
      ensures ReadsRight(d, b, cs, want) <==> SameOn(d, xs, ys, want)
    {
      ReaderReads(d, b, cs);
    }
    SameForEveryDisk(xs, ys, want);
    SameSectorsExactlyWhen(b, cs, want);
    if d: Disk :| !ReadsRight(d, b, cs, want) {
      assert !SameOn(d, xs, ys, want);
    }
  }

  // ----- Following the chain -----

  lemma {:induction false} LongerChain(next: nat -> nat, c: nat, m: nat, n: nat)
    requires m <= n
    ensures Chain(next, c, m) <= Chain(next, c, n)
    ensures |Chain(next, c, m)| < m ==> Chain(next, c, m) == Chain(next, c, n)
    decreases m
  {
    if m > 0 && c < END_OF_CHAIN {
      LongerChain(next, next(c), m - 1, n - 1);
    }
  }

  /** Chains agree when the successors of all but the last cluster do. */
  lemma {:induction false} SameSuccessorsSameChain(f: nat -> nat, g: nat -> nat, c: nat, n: nat)
    requires n > 0 && forall x :: x in Chain(f, c, n - 1) ==> f(x) == g(x)
    ensures Chain(g, c, n) == Chain(f, c, n)
    decreases n
  {
    if n > 1 && c < END_OF_CHAIN {
      assert Chain(f, c, n - 1) == [c] + Chain(f, f(c), n - 2);
      SameSuccessorsSameChain(f, g, f(c), n - 1);
    }
  }

  /** The reader follows the chain that the table defines as far as no entry but the last
      straddles two sectors. */
  lemma ChainsAgree(d: Disk, b: Layout, beyond: Byte, c: nat, n: nat)
    requires n > 0 && forall x :: x in Chain(FormatNext(d, b), c, n - 1) ==> !Straddles(x)
    ensures Chain(ReaderNext(d, b, beyond), c, n) == Chain(FormatNext(d, b), c, n)
  {
    var f, g := FormatNext(d, b), ReaderNext(d, b, beyond);
    forall x | x in Chain(f, c, n - 1)
      ensures f(x) == g(x)
    {
      DecodesWithinSector(d, b, beyond, x);
    }
    SameSuccessorsSameChain(f, g, c, n);
  }

  lemma SectorsSuffice(want: nat, n: nat)
    ensures 512 * n >= want <==> SectorsFor(want) <= n
  {
  }

  lemma {:induction false} ChainDataPrefix(d: Disk, b: Layout, cs: seq<nat>, ds: seq<nat>)
    requires cs <= ds
    ensures ChainData(d, b, cs) <= ChainData(d, b, ds)
  {
    if cs != [] {
      ChainDataPrefix(d, b, cs[1..], ds[1..]);
    }
  }

  /** The table entries that must be followed to read `want` bytes. */
  function Links(want: nat): nat {
    if want == 0 then 0 else SectorsFor(want) - 1
  }

  /** The reader stops its chain where `want` bytes are reached, which loses nothing. */
  lemma ChainLongEnough(d: Disk, b: Layout, beyond: Byte, first: nat, want: nat, n: nat)
    requires 0 < want <= 512 * n
    requires forall x :: x in Chain(FormatNext(d, b), first, Links(want)) ==> !Straddles(x)
    ensures FirstBytes(ChainData(d, b, Chain(ReaderNext(d, b, beyond), first, SectorsFor(want))), want) ==
            FirstBytes(ChainData(d, b, Chain(FormatNext(d, b), first, n)), want)
  {
    var m := SectorsFor(want);
    var near, far := Chain(FormatNext(d, b), first, m), Chain(FormatNext(d, b), first, n);
    SectorsSuffice(want, n);
    LongerChain(FormatNext(d, b), first, m, n);
    ChainsAgree(d, b, beyond, first, m);
    ChainDataPrefix(d, b, near, far);
    FirstBytesOfPrefix(ChainData(d, b, near), ChainData(d, b, far), want);
  }

  /** The bytes copied are exactly the first `want` bytes of the file that the table describes,
      however far one follows its chain, when clusters are one sector long or no more than one
      sector is wanted, and none of the entries followed straddles two sectors. */
  lemma ReadIsPrefixOfFile(d: Disk, b: Layout, beyond: Byte, first: nat, want: nat, n: nat)
    requires LegalClusterSize(b.sectorsPerCluster) && (b.sectorsPerCluster == 1 || want <= 512)
    requires want <= 512 * n && forall x :: x in Chain(FormatNext(d, b), first, Links(want)) ==> !Straddles(x)
    ensures FirstBytes(ChainData(d, b, Chain(ReaderNext(d, b, beyond), first, SectorsFor(want))), want) ==
            FirstBytes(FileData(d, b, Chain(FormatNext(d, b), first, n)), want)
  {
    var far := Chain(FormatNext(d, b), first, n);
    if want > 0 {
      ChainLongEnough(d, b, beyond, first, want, n);
      if far != [] {
        RightForEveryDiskExactlyWhen(b, far, want);
        assert ReadsRight(d, b, far, want);
      }
    }
  }

  // ----- Disks that carry the chain -----

  /** The disk with the first byte of sector `n` changed. */
  function Changed(d: Disk, n: nat): (d': Disk)
    requires n < |d.sectors|
    ensures SectorAt(d', n)[0] != SectorAt(d, n)[0]
    ensures forall k: nat :: k != n ==> SectorAt(d', k) == SectorAt(d, k)
  {
    var s := d.sectors[n];
    d.(sectors := d.sectors[n := s[0 := if s[0] == 0 then 1 else 0]])
  }

  /** The second sector of the file is never read, so that changing it makes a right read wrong
      or finds it wrong already. */
  lemma OneOfTwoFails(d: Disk, b: Layout, cs: seq<nat>, want: nat)
    requires LegalClusterSize(b.sectorsPerCluster) && b.sectorsPerCluster > 1 && want > 512 && cs != []
    requires SectorOf(b, cs[0], 1) < |d.sectors|
    ensures !(ReadsRight(d, b, cs, want) && ReadsRight(Changed(d, SectorOf(b, cs[0], 1)), b, cs, want))
  {
    var n := SectorOf(b, cs[0], 1);
    SecondNumbers(b, cs);
    ReaderReads(d, b, cs);
    ReaderReads(Changed(d, n), b, cs);
    ChangeTells(d, n, ReaderSectors(b, cs), FileSectors(b, cs), want);
  }

  /** The second sector of the file is not the second sector read. */
  lemma SecondNumbers(b: Layout, cs: seq<nat>)
    requires LegalClusterSize(b.sectorsPerCluster) && b.sectorsPerCluster > 1 && cs != []
    ensures |FileSectors(b, cs)| >= 2 && FileSectors(b, cs)[1] == SectorOf(b, cs[0], 1)
    ensures |cs| > 1 ==> ReaderSectors(b, cs)[1] != SectorOf(b, cs[0], 1)
  {
    FileStartsWithCluster(b, cs);
    assert FileSectors(b, cs)[1] == ClusterSectors(b, cs[0])[1];
    if |cs| > 1 {
      StartsHaveSameParity(b, cs[0], cs[1], b.sectorsPerCluster / 2);
    }
  }

  lemma ChangeTells(d: Disk, n: nat, xs: seq<nat>, ys: seq<nat>, want: nat)
    requires n < |d.sectors| && want > 512 && |ys| >= 2 && ys[1] == n && (|xs| >= 2 ==> xs[1] != n)
    ensures !(SameOn(d, xs, ys, want) && SameOn(Changed(d, n), xs, ys, want))
  {
    if SameOn(d, xs, ys, want) && SameOn(Changed(d, n), xs, ys, want) {
      SecondSectorSame(d, xs, ys, want);
      SecondSectorSame(Changed(d, n), xs, ys, want);
    }
  }

  lemma SecondSectorSame(d: Disk, xs: seq<nat>, ys: seq<nat>, want: nat)
    requires SameOn(d, xs, ys, want) && want > 512 && |ys| >= 2
    ensures |xs| >= 2 && SectorAt(d, xs[1])[0] == SectorAt(d, ys[1])[0]
  {
    SameLength(d, xs, ys, want);
    ByteAt(d, xs, 1, 0);
    ByteAt(d, ys, 1, 0);
    assert FirstBytes(Bytes(d, xs), want)[512] == FirstBytes(Bytes(d, ys), want)[512];
  }

  /** Sector `n` holds no byte of the table entry of `c`. */
  predicate OutsideEntry(b: Layout, n: nat, c: nat) {
    n != ToUint16(b.reserved + c * 3 / 2 / 512) && n != ToUint16(b.reserved + (c * 3 / 2 + 1) / 512)
  }

  ghost predicate SameElsewhere(d: Disk, d': Disk, n: nat) {
    forall k: nat :: k != n ==> SectorAt(d', k) == SectorAt(d, k)
  }

  lemma SameEntry(d: Disk, d': Disk, b: Layout, n: nat, c: nat)
    requires OutsideEntry(b, n, c) && SameElsewhere(d, d', n)
    ensures FatField(d', b, c) == FatField(d, b, c)
  {
    FieldIsDecoded(FatBytes(d, b), c);
    FieldIsDecoded(FatBytes(d', b), c);
  }

  lemma {:induction false} SameLinksSameChain(f: nat -> nat, g: nat -> nat, c: nat, m: nat)
    requires forall i :: 0 <= i < |Chain(f, c, m)| ==> g(Chain(f, c, m)[i]) == f(Chain(f, c, m)[i])
    ensures Chain(g, c, m) == Chain(f, c, m)
    decreases m
  {
    if m > 0 && c < END_OF_CHAIN {
      var cs := Chain(f, c, m);
      assert cs[0] == c && cs[1..] == Chain(f, f(c), m - 1);
      assert forall i :: 0 <= i < |cs| - 1 ==> cs[1..][i] == cs[i + 1];
      SameLinksSameChain(f, g, f(c), m - 1);
    }
  }

  lemma SameTableSameChain(d: Disk, d': Disk, b: Layout, n: nat, first: nat, m: nat)
    requires SameElsewhere(d, d', n) && Outside(b, n, Chain(FormatNext(d, b), first, m))
    ensures Chain(FormatNext(d', b), first, m) == Chain(FormatNext(d, b), first, m)
  {
    var cs := Chain(FormatNext(d, b), first, m);
    forall i | 0 <= i < |cs|
      ensures FormatNext(d', b)(cs[i]) == FormatNext(d, b)(cs[i])
    {
      SameEntry(d, d', b, n, cs[i]);
    }
    SameLinksSameChain(FormatNext(d, b), FormatNext(d', b), first, m);
  }

  predicate Outside(b: Layout, n: nat, cs: seq<nat>) {
    forall i :: 0 <= i < |cs| ==> OutsideEntry(b, n, cs[i])
  }

  /** Any disk with larger clusters and a non-empty chain, whose table lies outside its data, is
      read wrong beyond 512 bytes, or one with the same table and directory is that differs from
      it in one byte. */
  lemma SomeDiskWithThisChainFails(d: Disk, b: Layout, first: nat, m: nat, want: nat) returns (d': Disk)
    requires LegalClusterSize(b.sectorsPerCluster) && b.sectorsPerCluster > 1 && want > 512
    requires m > 0 && first < END_OF_CHAIN && SectorOf(b, first, 1) < |d.sectors|
    requires Outside(b, SectorOf(b, first, 1), Chain(FormatNext(d, b), first, m))
    ensures SameElsewhere(d, d', SectorOf(b, first, 1))
    ensures Chain(FormatNext(d', b), first, m) == Chain(FormatNext(d, b), first, m)
    ensures !ReadsRight(d', b, Chain(FormatNext(d', b), first, m), want)
  {
    var cs := Chain(FormatNext(d, b), first, m);
    assert cs[0] == first;
    OneOfTwoFails(d, b, cs, want);
    d' := if ReadsRight(d, b, cs, want) then Changed(d, SectorOf(b, first, 1)) else d;
    SameTableSameChain(d, d', b, SectorOf(b, first, 1), first, m);
  }

  /** A floppy layout, but with two sectors per cluster. */
  const FLOPPY := Layout(1, 2, 224, 9, 2)

  /** A file of clusters 2 and 3, whose second sector is all ones. */
  function TwoClusters(): Disk {
    Disk(seq(2880, k => seq(SECTOR, i =>
           if k == 34 then 1
           else if k != 1 then 0
           else if i == 3 then 0x03 else if i == 4 then 0xF0 else if i == 5 then 0xFF else 0)),
         seq(SECTOR, _ => 0))
  }

  /** There the table gives the chain 2, 3, and more than 512 bytes are read wrong. */
  lemma TwoClustersReadWrong(n: nat, want: nat)
    requires n >= 2 && want > 512
    ensures Chain(FormatNext(TwoClusters(), FLOPPY), 2, n) == [2, 3]
    ensures !ReadsRight(TwoClusters(), FLOPPY, [2, 3], want)
  {
    var d, b := TwoClusters(), FLOPPY;
    TwoClustersTable();
    var next := FormatNext(d, b);
    assert Chain(next, 0xFFF, n - 2) == [];
    assert Chain(next, 3, n - 1) == [3] + Chain(next, 0xFFF, n - 2);
    assert Chain(next, 2, n) == [2] + Chain(next, 3, n - 1);
    var xs, ys := ReaderSectors(b, [2, 3]), FileSectors(b, [2, 3]);
    FileStartsWithCluster(b, [2, 3]);
    assert ys[1] == ClusterSectors(b, 2)[1] == 34 && xs[1] == 35;
    ReaderReads(d, b, [2, 3]);
    if SameOn(d, xs, ys, want) {
      SecondSectorSame(d, xs, ys, want);
    }
  }

  lemma TwoClustersTable()
    ensures FatField(TwoClusters(), FLOPPY, 2) == 3 && FatField(TwoClusters(), FLOPPY, 3) == 0xFFF
  {
    var bytes := FatBytes(TwoClusters(), FLOPPY);
    assert bytes(3) == 0x03 && bytes(4) == 0xF0 && bytes(5) == 0xFF;
    FieldIsDecoded(bytes, 2);
    FieldIsDecoded(bytes, 3);
  }
}
