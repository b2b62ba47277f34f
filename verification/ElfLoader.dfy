/** Mapping the PT_LOAD segments of an ELF file, after kernel/elf_loader.c. */
module ElfLoader {
  import opened Options
  import opened Words

  const TWO_64 := 0x1_0000_0000_0000_0000
  const PAGE_SIZE := 4096

  /** The fields of a program header that the loader reads. */
  datatype Phdr = Phdr(load: bool, vaddr: nat, memsz: nat, offset: nat, filesz: nat)

  /** The byte at each address. */
  type Memory = nat -> Byte

  /** Bytes the loader writes for a segment: a file part longer than the memory size is still
      copied whole. */
  function Extent(p: Phdr): nat {
    if p.filesz < p.memsz then p.memsz else p.filesz
  }

  predicate Covers(p: Phdr, bias: nat, a: nat) {
    p.load && p.vaddr + bias <= a < p.vaddr + bias + Extent(p)
  }

  /** What memory holds from the start of the file buffer on: the file, and whatever follows it. */
  type Image = nat -> Byte

  /** No segment runs past the end of the address space. */
  predicate Fits(h: seq<Phdr>, bias: nat) {
    forall k :: 0 <= k < |h| && h[k].load ==> h[k].vaddr + bias + Extent(h[k]) < TWO_64
  }

  // ----- The address range -----

  /** A sum of two 64-bit words. */
  function Wrap(x: nat): nat
    requires x < 2 * TWO_64
  {
    if x < TWO_64 then x else x - TWO_64
  }

  function PageDown(x: nat): (r: nat)
    ensures r <= x < r + PAGE_SIZE && r % 4096 == 0
  {
    x - x % 4096
  }

  function PageUp(x: nat): nat
    requires x < TWO_64
  {
    PageDown(Wrap(x + PAGE_SIZE - 1))
  }

  function Lowest(h: seq<Phdr>): (r: nat)
    requires Fits(h, 0)
    ensures r < TWO_64
    ensures forall k :: 0 <= k < |h| && h[k].load ==> r <= h[k].vaddr
  {
    if h == [] then TWO_64 - 1
    else
      var p, r := h[|h| - 1], Lowest(h[..|h| - 1]);
      if p.load && p.vaddr < r then p.vaddr else r
  }

  function Highest(h: seq<Phdr>): (r: nat)
    requires Fits(h, 0)
    ensures r < TWO_64
    ensures forall k :: 0 <= k < |h| && h[k].load ==> h[k].vaddr + h[k].memsz <= r
  {
    if h == [] then 0
    else
      var p, r := h[|h| - 1], Highest(h[..|h| - 1]);
      if p.load && p.vaddr + p.memsz > r then p.vaddr + p.memsz else r
  }

  function First(h: seq<Phdr>): nat
    requires Fits(h, 0)
  {
    PageDown(Lowest(h))
  }

  function Limit(h: seq<Phdr>): nat
    requires Fits(h, 0)
  {
    PageUp(Highest(h))
  }

  /** `total_memory`, an unsigned 64-bit difference. */
  function Total(h: seq<Phdr>): nat
    requires Fits(h, 0)
  {
    Wrap(Limit(h) + (TWO_64 - First(h)))
  }

  predicate InRange(h: seq<Phdr>) {
    Fits(h, 0) &&
    forall k :: 0 <= k < |h| && h[k].load ==> First(h) <= h[k].vaddr && h[k].vaddr + h[k].memsz <= Limit(h)
  }

  lemma {:induction false} LowestReached(h: seq<Phdr>) returns (k: nat)
    requires Fits(h, 0) && exists j :: 0 <= j < |h| && h[j].load
    ensures k < |h| && h[k].load && h[k].vaddr == Lowest(h)
  {
    var n := |h| - 1;
    if forall j :: 0 <= j < n ==> !h[j].load {
      NoBounds(h[..n]);
      k := n;
    } else if h[n].load && h[n].vaddr <= Lowest(h[..n]) {
      k := n;
    } else {
      var j :| 0 <= j < n && h[j].load;
      assert h[..n][j].load;
      k := LowestReached(h[..n]);
    }
  }

  lemma {:induction false} HighestReached(h: seq<Phdr>) returns (k: nat)
    requires Fits(h, 0) && exists j :: 0 <= j < |h| && h[j].load
    ensures k < |h| && h[k].load && h[k].vaddr + h[k].memsz == Highest(h)
  {
    var n := |h| - 1;
    if forall j :: 0 <= j < n ==> !h[j].load {
      NoBounds(h[..n]);
      k := n;
    } else if h[n].load && h[n].vaddr + h[n].memsz >= Highest(h[..n]) {
      k := n;
    } else {
      var j :| 0 <= j < n && h[j].load;
      assert h[..n][j].load;
      k := HighestReached(h[..n]);
    }
  }

  /** The page-rounded range holds every segment exactly when rounding its end up does not
      wrap; the range is then the tightest one of whole pages. */
  lemma RangeHoldsExactlyWhenNoWrap(h: seq<Phdr>)
    requires Fits(h, 0) && exists j :: 0 <= j < |h| && h[j].load
    ensures InRange(h) <==> Highest(h) + PAGE_SIZE <= TWO_64
    ensures InRange(h) ==> First(h) % 4096 == 0 && Limit(h) % 4096 == 0 && Total(h) == Limit(h) - First(h)
    ensures InRange(h) ==> exists k :: 0 <= k < |h| && h[k].load && h[k].vaddr < First(h) + PAGE_SIZE
    ensures InRange(h) ==> exists k :: 0 <= k < |h| && h[k].load && h[k].vaddr + h[k].memsz + PAGE_SIZE > Limit(h)
  {
    var i := LowestReached(h);
    var k := HighestReached(h);
    if Highest(h) + PAGE_SIZE > TWO_64 {
      RoundsToZero(Highest(h));
    }
  }

  lemma RoundsToZero(x: nat)
    requires x < TWO_64 < x + PAGE_SIZE
    ensures PageUp(x) == 0
  {
    assert Wrap(x + PAGE_SIZE - 1) < 4096;
  }

  /** A file with no PT_LOAD header is given one page. */
  lemma {:induction false} NothingToLoadTakesOnePage(h: seq<Phdr>)
    requires forall k :: 0 <= k < |h| ==> !h[k].load
    ensures Total(h) == PAGE_SIZE
  {
    NoBounds(h);
  }

  lemma {:induction false} NoBounds(h: seq<Phdr>)
    requires forall k :: 0 <= k < |h| ==> !h[k].load
    ensures Lowest(h) == TWO_64 - 1 && Highest(h) == 0
  {
    if h != [] {
      NoBounds(h[..|h| - 1]);
    }
  }

  // ----- The memory image -----

  /** `memcpy` from the file. */
  function Copy(m: Memory, base: nat, file: Image, offset: nat, n: nat): Memory
  {
    (a: nat) => if base <= a < base + n then file(offset + (a - base)) else m(a)
  }

  /** `memset` to zero. */
  function Zero(m: Memory, base: nat, n: nat): Memory {
    (a: nat) => if base <= a < base + n then 0 else m(a)
  }

  function Place(m: Memory, p: Phdr, file: Image, bias: nat): Memory
  {
    if !p.load then m
    else
      var base := p.vaddr + bias;
      var copied := if p.filesz > 0 then Copy(m, base, file, p.offset, p.filesz) else m;
      if p.filesz < p.memsz then Zero(copied, base + p.filesz, p.memsz - p.filesz) else copied
  }

  function Load(m: Memory, h: seq<Phdr>, file: Image, bias: nat): Memory
  {
    if h == [] then m
    else Place(Load(m, h[..|h| - 1], file, bias), h[|h| - 1], file, bias)
  }

  /** What the ELF specification wants at an address of a segment: its byte of the file, or
      zero past the file part. */
  function Wanted(p: Phdr, file: Image, bias: nat, a: nat): Byte
    requires Covers(p, bias, a)
  {
    var i := a - (p.vaddr + bias);
    if i < p.filesz then file(p.offset + i) else 0
  }

  /** The last header whose segment covers `a`, or -1. */
  function Winner(h: seq<Phdr>, bias: nat, a: nat): (k: int)
    ensures -1 <= k < |h|
    ensures k >= 0 ==> Covers(h[k], bias, a)
    ensures forall j :: k < j < |h| ==> !Covers(h[j], bias, a)
  {
    if h == [] then -1
    else if Covers(h[|h| - 1], bias, a) then |h| - 1
    else Winner(h[..|h| - 1], bias, a)
  }

  lemma PlaceByte(m: Memory, p: Phdr, file: Image, bias: nat, a: nat)
    ensures Place(m, p, file, bias)(a) == if Covers(p, bias, a) then Wanted(p, file, bias, a) else m(a)
  {
  }

  /** Every byte of memory after a load: the byte of the last segment that covers it, or what
      was there before. */
  lemma {:induction false} EveryByte(m: Memory, h: seq<Phdr>, file: Image, bias: nat, a: nat)
    ensures var k := Winner(h, bias, a);
            Load(m, h, file, bias)(a) == if k >= 0 then Wanted(h[k], file, bias, a) else m(a)
  {
    if h != [] {
      var n := |h| - 1;
      EveryByte(m, h[..n], file, bias, a);
      PlaceByte(Load(m, h[..n], file, bias), h[n], file, bias, a);
    }
  }

  /** Where two segments meet, they ask for the same byte. */
  ghost predicate Agree(h: seq<Phdr>, file: Image)
  {
    forall j, k, a :: 0 <= j < |h| && 0 <= k < |h| && Covers(h[j], 0, a) && Covers(h[k], 0, a) ==>
      Wanted(h[j], file, 0, a) == Wanted(h[k], file, 0, a)
  }

  predicate Disjoint(h: seq<Phdr>) {
    forall j, k :: 0 <= j < k < |h| && h[j].load && h[k].load ==>
      h[j].vaddr + Extent(h[j]) <= h[k].vaddr || h[k].vaddr + Extent(h[k]) <= h[j].vaddr
  }

  /** A segment reads back in full. */
  ghost predicate Intact(after: Memory, p: Phdr, file: Image, bias: nat)
  {
    forall a :: Covers(p, bias, a) ==> after(a) == Wanted(p, file, bias, a)
  }

  lemma WantedShifts(p: Phdr, file: Image, bias: nat, a: nat)
    requires Covers(p, 0, a)
    ensures Covers(p, bias, a + bias) && Wanted(p, file, bias, a + bias) == Wanted(p, file, 0, a)
  {
  }

  /** Every segment reads back in full exactly when overlapping segments agree. */
  lemma IntactExactlyWhenAgreeing(m: Memory, h: seq<Phdr>, file: Image, bias: nat)
    ensures (forall k :: 0 <= k < |h| ==> Intact(Load(m, h, file, bias), h[k], file, bias)) <==> Agree(h, file)
  {
    var after := Load(m, h, file, bias);
    if Agree(h, file) {
      forall k, a: nat | 0 <= k < |h| && Covers(h[k], bias, a)
        ensures after(a) == Wanted(h[k], file, bias, a)
      {
        EveryByte(m, h, file, bias, a);
        var w, b := Winner(h, bias, a), a - bias;
        assert Covers(h[w], 0, b) && Covers(h[k], 0, b);
        WantedShifts(h[w], file, bias, b);
        WantedShifts(h[k], file, bias, b);
      }
    }
    if forall k :: 0 <= k < |h| ==> Intact(after, h[k], file, bias) {
      forall j, k, a: nat | 0 <= j < |h| && 0 <= k < |h| && Covers(h[j], 0, a) && Covers(h[k], 0, a)
        ensures Wanted(h[j], file, 0, a) == Wanted(h[k], file, 0, a)
      {
        WantedShifts(h[j], file, bias, a);
        WantedShifts(h[k], file, bias, a);
      }
    }
  }

  /** So disjoint segments all do, wherever they are loaded. */
  lemma DisjointSegmentsIntact(m: Memory, h: seq<Phdr>, file: Image, bias: nat, k: nat)
    requires Disjoint(h) && k < |h|
    ensures Intact(Load(m, h, file, bias), h[k], file, bias)
  {
    assert Agree(h, file);
    IntactExactlyWhenAgreeing(m, h, file, bias);
  }

  lemma {:induction false} WinnerShifts(h: seq<Phdr>, bias: nat, a: nat)
    ensures Winner(h, bias, a + bias) == Winner(h, 0, a)
  {
    if h != [] {
      WinnerShifts(h[..|h| - 1], bias, a);
    }
  }

  /** Loading with a bias gives the unbiased image, moved: whatever the two memories held
      before, the same bytes are written, at addresses that differ by the bias. */
  lemma BiasShiftsImage(m: Memory, m': Memory, h: seq<Phdr>, file: Image, bias: nat, a: nat)
    ensures Winner(h, bias, a + bias) == Winner(h, 0, a)
    ensures Load(m', h, file, bias)(a + bias) ==
            if Winner(h, 0, a) >= 0 then Load(m, h, file, 0)(a) else m'(a + bias)
  {
    WinnerShifts(h, bias, a);
    EveryByte(m, h, file, 0, a);
    EveryByte(m', h, file, bias, a + bias);
    var k := Winner(h, 0, a);
    if k >= 0 {
      WantedShifts(h[k], file, bias, a);
    }
  }

  /** Nothing below the bias is touched. */
  lemma BelowBiasUntouched(m: Memory, h: seq<Phdr>, file: Image, bias: nat, a: nat)
    requires a < bias
    ensures Load(m, h, file, bias)(a) == m(a)
  {
    EveryByte(m, h, file, bias, a);
  }

  // ----- The loader -----

  /** The bias applied to the segments: a randomised one, cut to a page boundary, for a
      position-independent file; `current` when randomisation is off. */
  function Bias(pie: bool, aslr: Option<nat>, current: nat): nat {
    if !pie then 0 else if aslr.Some? then PageDown(aslr.value) else current
  }

  class Process {
    var memory: Memory
    var totalMemory: nat
    var isPie: bool
    var loadBias: nat

    /** `process_info` as `elf_load_executable` clears it. */
    constructor (m: Memory)
      ensures memory == m && totalMemory == 0 && !isPie && loadBias == 0
    {
      memory, totalMemory, isPie, loadBias := m, 0, false, 0;
    }

    method MapSegments(h: seq<Phdr>, file: Image, pie: bool, aslr: Option<nat>)
      requires Fits(h, 0) && Fits(h, Bias(pie, aslr, loadBias))
      modifies this
      ensures memory == Load(old(memory), h, file, Bias(pie, aslr, old(loadBias)))
      ensures totalMemory == Total(h) && isPie == pie
      ensures loadBias == if pie then Bias(pie, aslr, old(loadBias)) else old(loadBias)
    {
      var lowest, highest := Bounds(h);
      var lo := PageDown(lowest);
      var hi := PageUp(highest);
      totalMemory := Wrap(hi + (TWO_64 - lo));
      isPie := pie;
      if pie && aslr.Some? {
        loadBias := PageDown(aslr.value);
      }
      LoadSegments(h, file);
    }

    /** The first pass. */
    static method Bounds(h: seq<Phdr>) returns (lowest: nat, highest: nat)
      requires Fits(h, 0)
      ensures lowest == Lowest(h) && highest == Highest(h)
    {
      lowest, highest := TWO_64 - 1, 0;
      for i := 0 to |h|
        invariant Fits(h[..i], 0)
        invariant lowest == Lowest(h[..i]) && highest == Highest(h[..i])
      {
        assert h[..i + 1][..i] == h[..i];
        if h[i].load {
          if h[i].vaddr < lowest {
            lowest := h[i].vaddr;
          }
          var end := Wrap(h[i].vaddr + h[i].memsz);
          if end > highest {
            highest := end;
          }
        }
      }
      assert h[..|h|] == h;
    }

    /** The second pass. */
    method LoadSegments(h: seq<Phdr>, file: Image)
      requires Fits(h, if isPie then loadBias else 0)
      modifies this`memory
      ensures memory == Load(old(memory), h, file, if isPie then loadBias else 0)
    {
      ghost var bias := if isPie then loadBias else 0;
      for i := 0 to |h|
        invariant memory == Load(old(memory), h[..i], file, bias)
      {
        assert h[..i + 1][..i] == h[..i];
        if h[i].load {
          LoadSegment(h[i], file);
        }
      }
      assert h[..|h|] == h;
    }

    method LoadSegment(p: Phdr, file: Image)
      requires p.load
      requires p.vaddr + (if isPie then loadBias else 0) + Extent(p) < TWO_64
      modifies this`memory
      ensures memory == Place(old(memory), p, file, if isPie then loadBias else 0)
    {
      var base := p.vaddr;
      if isPie {
        base := Wrap(base + loadBias);
      }
      if p.filesz > 0 {
        memory := Copy(memory, base, file, p.offset, p.filesz);
      }
      if p.filesz < p.memsz {
        memory := Zero(memory, base + p.filesz, p.memsz - p.filesz);
      }
    }
  }
}
