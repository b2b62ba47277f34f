/** Listing the root directory and looking names up in it, in filesystem/fat12.c: when does a
    listed file exist? */
module DirectoryListing {
  import opened Options
  import opened Words
  import opened Sequences
  import opened Fat12
  import opened ShortNames

  const NOT_FOUND := -1
  const IO_ERROR := -4
  const INVALID_ARG := -5
  const SLASH: Byte := 0x2F

  predicate Named(dir: seq<DirEntry>) {
    forall k :: 0 <= k < |dir| ==> |dir[k].name| == NAME
  }

  predicate Live(e: DirEntry) {
    |e.name| == NAME && e.name[0] != END_MARKER && e.name[0] != DELETED
  }

  predicate Ends(e: DirEntry) {
    |e.name| == NAME && e.name[0] == END_MARKER
  }

  /** Root directory sectors that lie on the disk. */
  function ReadableSectors(d: Disk, b: Layout): (n: nat)
    ensures n <= RootSectors(b)
  {
    if RootStart(b) + RootSectors(b) <= |d.sectors| then RootSectors(b)
    else if RootStart(b) <= |d.sectors| then |d.sectors| - RootStart(b)
    else 0
  }

  function Readable(d: Disk, b: Layout): (dir: seq<DirEntry>)
    ensures Named(dir) && |dir| == FirstEntry(ReadableSectors(d, b))
  {
    var dir := Directory(d, b);
    assert forall k :: 0 <= k < |dir| ==> dir[k] in dir;
    dir[..FirstEntry(ReadableSectors(d, b))]
  }

  ghost predicate HoldsAt(dir: seq<DirEntry>, d: Disk, start: nat, s: nat) {
    HoldsSector(dir, FirstEntry(s), SectorAt(d, start + s))
  }

  lemma ReadableEntries(d: Disk, b: Layout)
    ensures forall s :: 0 <= s < ReadableSectors(d, b) ==> HoldsAt(Readable(d, b), d, RootStart(b), s)
  {
    forall s | 0 <= s < ReadableSectors(d, b)
      ensures HoldsAt(Readable(d, b), d, RootStart(b), s)
    {
      DirectoryHolds(d, b, s);
    }
  }

  // ----- Looking a name up -----

  datatype Outcome = Hit(entry: DirEntry) | End | Exhausted

  /** The first live entry with exactly this name, unless an end marker comes first. */
  function ScanFor(dir: seq<DirEntry>, name: ShortName): Outcome
    requires Named(dir)
  {
    if dir == [] then Exhausted
    else if dir[0].name[0] == END_MARKER then End
    else if dir[0].name[0] != DELETED && dir[0].name == name then Hit(dir[0])
    else ScanFor(dir[1..], name)
  }

  method SearchDirectory(d: Disk, b: Layout, name: ShortName) returns (r: Outcome)
    ensures r == ScanFor(Readable(d, b), name)
  {
    ReadableEntries(d, b);
    r := SearchSectors(d, RootStart(b), ReadableSectors(d, b), name, Readable(d, b));
  }

  method SearchSectors(d: Disk, start: nat, n: nat, name: ShortName, ghost dir: seq<DirEntry>) returns (r: Outcome)
    requires |dir| == FirstEntry(n) && Named(dir)
    requires forall s :: 0 <= s < n ==> HoldsAt(dir, d, start, s)
    ensures r == ScanFor(dir, name)
  {
    assert dir[0..] == dir;
    for sector := 0 to n
      invariant ScanFor(dir, name) == ScanFor(dir[FirstEntry(sector)..], name)
    {
      assert HoldsAt(dir, d, start, sector);
      r := SearchEntries(SectorAt(d, start + sector), name, dir, FirstEntry(sector));
      if !r.Exhausted? {
        return;
      }
    }
    return Exhausted;
  }

  method SearchEntries(data: Sector, name: ShortName, ghost dir: seq<DirEntry>, ghost base: nat) returns (r: Outcome)
    requires Named(dir) && HoldsSector(dir, base, data)
    ensures ScanFor(dir[base..], name) == if r.Exhausted? then ScanFor(dir[base + PER_SECTOR..], name) else r
  {
    for i := 0 to PER_SECTOR
      invariant ScanFor(dir[base..], name) == ScanFor(dir[base + i..], name)
    {
      var e := EntryAt(data, i);
      assert dir[base + i..][0] == e && dir[base + i..][1..] == dir[base + i + 1..];
      if e.name[0] == END_MARKER {
        return End;
      }
      if e.name[0] != DELETED && e.name == name {
        return Hit(e);
      }
    }
    return Exhausted;
  }

  /** Some sector of the root directory cannot be read. */
  predicate Broken(d: Disk, b: Layout) {
    ReadableSectors(d, b) < RootSectors(b)
  }

  /** What `fat12_get_file_size` and `fat12_file_exists` make of a search. */
  function SizeAnswer(o: Outcome, broken: bool): int {
    match o
    case Hit(e) => ToInt32(e.size)
    case End => NOT_FOUND
    case Exhausted => if broken then IO_ERROR else NOT_FOUND
  }

  function ExistsAnswer(o: Outcome, broken: bool): int {
    match o
    case Hit(_) => 1
    case End => 0
    case Exhausted => if broken then IO_ERROR else 0
  }

  method GetFileSize(d: Disk, b: Layout, f: seq<Byte>) returns (r: int)
    ensures r == SizeAnswer(ScanFor(Readable(d, b), Parse(f)), Broken(d, b))
  {
    var name := ParseName(f);
    var found := SearchDirectory(d, b, name);
    match found
    case Hit(e) => return ToInt32(e.size);
    case End => return NOT_FOUND;
    case Exhausted => return if ReadableSectors(d, b) < RootSectors(b) then IO_ERROR else NOT_FOUND;
  }

  method FileExists(d: Disk, b: Layout, f: seq<Byte>) returns (r: int)
    ensures r == ExistsAnswer(ScanFor(Readable(d, b), Parse(f)), Broken(d, b))
  {
    var name := ParseName(f);
    var found := SearchDirectory(d, b, name);
    match found
    case Hit(_) => return 1;
    case End => return 0;
    case Exhausted => return if ReadableSectors(d, b) < RootSectors(b) then IO_ERROR else 0;
  }

  // ----- Listing -----

  /** One file as the listing shows it. */
  datatype FileEntry = FileEntry(
    name: seq<Byte>, attr: Byte, size: nat, cluster: nat,
    createDate: nat, createTime: nat, accessDate: nat, modifiedDate: nat, modifiedTime: nat)

  function Listed(e: DirEntry): FileEntry
    requires |e.name| == NAME
  {
    FileEntry(Display(e.name), e.attr, e.size, e.cluster, e.stamps.createDate, e.stamps.createTime,
              e.stamps.accessDate, e.stamps.writeDate, e.stamps.writeTime)
  }

  /** What entries `i` to `end` of a sector add to a listing with room for `room` more: the
      live ones, up to the first end marker. */
  function SectorShown(dir: seq<DirEntry>, i: nat, end: nat, room: int): seq<FileEntry>
    requires Named(dir) && i <= end <= |dir|
    decreases end - i
  {
    if room <= 0 || i == end || dir[i].name[0] == END_MARKER then []
    else if dir[i].name[0] == DELETED then SectorShown(dir, i + 1, end, room)
    else [Listed(dir[i])] + SectorShown(dir, i + 1, end, room - 1)
  }

  function SectorPart(dir: seq<DirEntry>, sector: nat, room: int): seq<FileEntry>
    requires Named(dir) && FirstEntry(sector) + PER_SECTOR <= |dir|
  {
    SectorShown(dir, FirstEntry(sector), FirstEntry(sector) + PER_SECTOR, room)
  }

  /** What sectors `sector` to `n` add: an end marker stops its sector, not the listing. */
  function ListingShown(dir: seq<DirEntry>, sector: nat, n: nat, room: int): seq<FileEntry>
    requires Named(dir) && sector <= n && FirstEntry(n) <= |dir|
    decreases n - sector
  {
    if sector == n then []
    else
      var first := SectorPart(dir, sector, room);
      first + ListingShown(dir, sector + 1, n, room - |first|)
  }

  /** The paths that `fat12_list_directory` refuses: two characters or more, not from the root. */
  predicate Refused(path: Option<seq<Byte>>) {
    path.Some? && CharAt(path.value, 0) != 0 && CharAt(path.value, 0) != SLASH && CharAt(path.value, 1) != 0
  }

  /** `fat12_list_directory`: which files it shows, in order.  A missing path is NULL. */
  method ListDirectory(d: Disk, b: Layout, path: Option<seq<Byte>>, max: int) returns (code: int, shown: seq<FileEntry>)
    ensures Refused(path) ==> code == INVALID_ARG && shown == []
    ensures !Refused(path) ==>
              && shown == ListingShown(Readable(d, b), 0, ReadableSectors(d, b), max)
              && code == if |shown| < max && Broken(d, b) then IO_ERROR else |shown|
  {
    if path.Some? && CharAt(path.value, 0) != 0 && CharAt(path.value, 0) != SLASH && CharAt(path.value, 1) != 0 {
      return INVALID_ARG, [];
    }
    ReadableEntries(d, b);
    var full;
    full, shown := ListSectors(d, RootStart(b), RootSectors(b), ReadableSectors(d, b), max, Readable(d, b));
    code := if full then |shown| else IO_ERROR;
  }

  /** The outer loop over `total` sectors from `start` on, of which `n` lie on the disk. */
  method ListSectors(d: Disk, start: nat, total: nat, n: nat, max: int, ghost dir: seq<DirEntry>)
    returns (full: bool, shown: seq<FileEntry>)
    requires n <= total && |dir| == FirstEntry(n) && Named(dir)
    requires forall s :: 0 <= s < n ==> HoldsAt(dir, d, start, s)
    ensures shown == ListingShown(dir, 0, n, max)
    ensures full <==> |shown| >= max || n == total
  {
    ghost var all := ListingShown(dir, 0, n, max);
    ghost var rest := all;
    shown := [];
    var sector := 0;
    var left := max;
    while sector < total && left > 0
      invariant 0 <= sector <= n && left == max - |shown|
      invariant rest == ListingShown(dir, sector, n, left)
      invariant shown + rest == all
    {
      if sector == n {
        return false, shown;
      }
      sector, shown, left, rest := ListSector(d, start, sector, shown, left, rest, dir, n);
    }
    if left <= 0 {
      NoRoom(dir, sector, n, left);
    }
    full := true;
  }

  /** One round of the loop, with what it leaves to show. */
  method ListSector(d: Disk, start: nat, sector: nat, shown: seq<FileEntry>, left: int,
                    ghost rest: seq<FileEntry>, ghost dir: seq<DirEntry>, ghost n: nat)
    returns (next: nat, more: seq<FileEntry>, room: int, ghost later: seq<FileEntry>)
    requires Named(dir) && sector < n && |dir| == FirstEntry(n) && HoldsAt(dir, d, start, sector)
    requires rest == ListingShown(dir, sector, n, left)
    ensures next == sector + 1 && left - room == |more| - |shown|
    ensures later == ListingShown(dir, next, n, room)
    ensures more + later == shown + rest
  {
    var part := ListEntries(SectorAt(d, start + sector), left, dir, FirstEntry(sector));
    next, more, room := sector + 1, shown + part, left - |part|;
    later := ListingShown(dir, next, n, room);
    assert rest == part + later by {
      assert part == SectorPart(dir, sector, left);
    }
    Regroup(shown, part, later);
  }

  lemma {:induction false} NoRoom(dir: seq<DirEntry>, sector: nat, n: nat, room: int)
    requires Named(dir) && sector <= n && FirstEntry(n) <= |dir| && room <= 0
    ensures ListingShown(dir, sector, n, room) == []
    decreases n - sector
  {
    if sector < n {
      NoRoom(dir, sector + 1, n, room);
    }
  }

  /** The inner loop: what one sector adds. */
  method ListEntries(data: Sector, room: int, ghost dir: seq<DirEntry>, ghost base: nat) returns (shown: seq<FileEntry>)
    requires Named(dir) && HoldsSector(dir, base, data)
    ensures shown == SectorShown(dir, base, base + PER_SECTOR, room)
  {
    ghost var end := base + PER_SECTOR;
    shown := [];
    var i := 0;
    var left := room;
    while i < PER_SECTOR && left > 0
      invariant 0 <= i <= PER_SECTOR
      invariant shown + SectorShown(dir, base + i, end, left) == SectorShown(dir, base, end, room)
    {
      var e := EntryAt(data, i);
      assert e == dir[base + i];
      if e.name[0] == END_MARKER {
        break;
      }
      if e.name[0] != DELETED {
        var file := ListEntry(e);
        Regroup(shown, [file], SectorShown(dir, base + i + 1, end, left - 1));
        shown := shown + [file];
        left := left - 1;
      }
      i := i + 1;
    }
  }

  /** Filling in one entry of the listing. */
  method ListEntry(e: DirEntry) returns (file: FileEntry)
    requires |e.name| == NAME
    ensures file == Listed(e)
  {
    var name := ListName(e.name);
    var t := e.stamps;
    file := FileEntry(name, e.attr, e.size, e.cluster,
                      t.createDate, t.createTime, t.accessDate, t.writeDate, t.writeTime);
  }

  // ----- Listed files and lookups -----

  predicate UniqueNames(dir: seq<DirEntry>) {
    forall i, j :: 0 <= i < j < |dir| && Live(dir[i]) && Live(dir[j]) ==> dir[i].name != dir[j].name
  }

  predicate NothingLiveAfterEnd(dir: seq<DirEntry>) {
    forall i, j :: 0 <= i < j < |dir| && Ends(dir[i]) ==> !Live(dir[j])
  }

  lemma {:induction false} ScanFinds(dir: seq<DirEntry>, k: nat)
    requires Named(dir) && k < |dir| && Live(dir[k])
    requires forall j :: 0 <= j < k ==> !Ends(dir[j])
    requires forall j :: 0 <= j < k && Live(dir[j]) ==> dir[j].name != dir[k].name
    ensures ScanFor(dir, dir[k].name) == Hit(dir[k])
  {
    if k > 0 {
      assert !Ends(dir[0]);
      ScanFinds(dir[1..], k - 1);
    }
  }

  lemma {:induction false} ScanStops(dir: seq<DirEntry>, j: nat, name: ShortName)
    requires Named(dir) && j < |dir| && Ends(dir[j])
    requires forall i :: 0 <= i < j && Live(dir[i]) ==> dir[i].name != name
    ensures ScanFor(dir, name) == End
  {
    if j > 0 && !Ends(dir[0]) {
      ScanStops(dir[1..], j - 1, name);
    }
  }

  /** With unique names, a live canonical entry is found under its listed name exactly when no
      end marker precedes it. */
  lemma FoundExactlyWhenBeforeEnd(dir: seq<DirEntry>, k: nat)
    requires Named(dir) && UniqueNames(dir)
    requires k < |dir| && Live(dir[k]) && Canonical(dir[k].name)
    ensures ScanFor(dir, Parse(Display(dir[k].name))) == Hit(dir[k]) <==> forall j :: 0 <= j < k ==> !Ends(dir[j])
  {
    RoundTripExactlyWhenCanonical(dir[k].name);
    if j :| 0 <= j < k && Ends(dir[j]) {
      ScanStops(dir, j, dir[k].name);
    } else {
      ScanFinds(dir, k);
    }
  }

  lemma {:induction false} SectorShownWhere(dir: seq<DirEntry>, i: nat, end: nat, room: int, x: FileEntry)
    returns (k: nat)
    requires Named(dir) && i <= end <= |dir| && x in SectorShown(dir, i, end, room)
    ensures i <= k < end && Live(dir[k]) && x == Listed(dir[k])
    decreases end - i
  {
    if dir[i].name[0] != DELETED && x == Listed(dir[i]) {
      k := i;
    } else {
      k := SectorShownWhere(dir, i + 1, end, if dir[i].name[0] == DELETED then room else room - 1, x);
    }
  }

  lemma {:induction false} ShownWhere(dir: seq<DirEntry>, sector: nat, n: nat, room: int, x: FileEntry)
    returns (k: nat)
    requires Named(dir) && sector <= n && FirstEntry(n) <= |dir| && x in ListingShown(dir, sector, n, room)
    ensures k < |dir| && Live(dir[k]) && x == Listed(dir[k])
    decreases n - sector
  {
    var base := FirstEntry(sector);
    var end := base + PER_SECTOR;
    var first := SectorPart(dir, sector, room);
    if x in first {
      k := SectorShownWhere(dir, base, end, room, x);
    } else {
      k := ShownWhere(dir, sector + 1, n, room - |first|, x);
    }
  }

  predicate AllCanonical(dir: seq<DirEntry>) {
    forall j :: 0 <= j < |dir| && Live(dir[j]) ==> Canonical(dir[j].name)
  }

  /** In a directory with unique canonical names and nothing live after the end marker, every
      file that the listing shows is found again under the name it is shown with. */
  lemma EveryListedFileIsFound(dir: seq<DirEntry>, n: nat, max: int, x: FileEntry) returns (k: nat)
    requires Named(dir) && FirstEntry(n) <= |dir| && UniqueNames(dir) && NothingLiveAfterEnd(dir) && AllCanonical(dir)
    requires x in ListingShown(dir, 0, n, max)
    ensures k < |dir| && x == Listed(dir[k]) && ScanFor(dir, Parse(x.name)) == Hit(dir[k])
  {
    k := ShownWhere(dir, 0, n, max, x);
    FoundExactlyWhenBeforeEnd(dir, k);
  }

  /** There it exists, and its size is answered as listed exactly below 2^31 bytes; a listed
      size of 2^32 - 1 is answered like a missing file. */
  lemma ListedSizeExactlyBelow2G(dir: seq<DirEntry>, n: nat, max: int, x: FileEntry, broken: bool)
    requires Named(dir) && FirstEntry(n) <= |dir| && UniqueNames(dir) && NothingLiveAfterEnd(dir) && AllCanonical(dir)
    requires x in ListingShown(dir, 0, n, max)
    ensures ExistsAnswer(ScanFor(dir, Parse(x.name)), broken) == 1
    ensures SizeAnswer(ScanFor(dir, Parse(x.name)), broken) == x.size <==> x.size < TWO_31
    ensures x.size == TWO_32 - 1 ==> SizeAnswer(ScanFor(dir, Parse(x.name)), broken) == NOT_FOUND
  {
    var k := EveryListedFileIsFound(dir, n, max, x);
  }

  /** Without that last condition it fails: an end marker in the first sector hides from every
      lookup the live entry at the start of the second, which the listing still shows. */
  lemma ListedButNotFound(dir: seq<DirEntry>, max: int)
    requires Named(dir) && |dir| == FirstEntry(2) && UniqueNames(dir) && max > 0
    requires Ends(dir[0]) && Live(dir[PER_SECTOR]) && Canonical(dir[PER_SECTOR].name)
    ensures Listed(dir[PER_SECTOR]) in ListingShown(dir, 0, 2, max)
    ensures ScanFor(dir, Parse(Display(dir[PER_SECTOR].name))) == End
  {
    SectorHidden(dir, 0, 2, max);
    FirstIsShown(dir, 1, 2, max);
  }

  /** An end marker at the start of a sector hides that sector from the listing. */
  lemma SectorHidden(dir: seq<DirEntry>, sector: nat, n: nat, room: int)
    requires Named(dir) && sector < n && FirstEntry(n) <= |dir| && Ends(dir[FirstEntry(sector)])
    ensures ListingShown(dir, sector, n, room) == ListingShown(dir, sector + 1, n, room)
  {
    var rest := ListingShown(dir, sector + 1, n, room);
    assert SectorPart(dir, sector, room) == [];
    assert ListingShown(dir, sector, n, room) == [] + rest == rest;
  }

  lemma FirstIsShown(dir: seq<DirEntry>, sector: nat, n: nat, room: int)
    requires Named(dir) && sector < n && FirstEntry(n) <= |dir| && Live(dir[FirstEntry(sector)]) && room > 0
    ensures Listed(dir[FirstEntry(sector)]) in ListingShown(dir, sector, n, room)
  {
    assert SectorPart(dir, sector, room)[0] == Listed(dir[FirstEntry(sector)]);
  }

  // ----- Listed files and reading -----

  /** The base fills its eight bytes and the extension has at least two. */
  predicate Overlong(n: ShortName) {
    n[BASE - 1] != SPACE && n[BASE + 1] != SPACE
  }

  /** The first 11 characters of such a name as it is listed. */
  function Alias(n: ShortName): ShortName {
    n[..BASE] + [DOT] + n[BASE..NAME - 1]
  }

  lemma {:induction false} SameNameIs(m: ShortName, f: seq<Byte>, j: nat)
    requires j <= NAME && forall i :: 0 <= i < NAME ==> m[i] != 0
    ensures SameName(m, f, j) <==> forall i :: j <= i < NAME ==> m[i] == CharAt(f, i)
    decreases NAME - j
  {
    if j < NAME {
      SameNameIs(m, f, j + 1);
    }
  }

  lemma CanonicalBytes(m: ShortName)
    requires Canonical(m)
    ensures forall j :: 0 <= j < NAME ==> m[j] != 0
    ensures forall j :: 0 <= j < BASE ==> m[j] != DOT
  {
    assert forall j :: 0 <= j < BASE ==> m[j] == m[..BASE][j];
    assert forall j :: BASE <= j < NAME ==> m[j] == m[BASE..][j - BASE];
  }

  /** With a short base the dot, or the end, comes before the ninth character. */
  lemma ShortBaseListed(n: ShortName)
    requires Canonical(n) && n[BASE - 1] == SPACE
    ensures exists l :: 0 <= l < BASE && CharAt(Display(n), l) in {DOT, 0}
  {
    var base := Until(n[..BASE], {SPACE});
    assert n[..BASE][BASE - 1] == SPACE;
    assert CharAt(Display(n), |base|) in {DOT, 0};
  }

  lemma FullBaseListed(n: ShortName)
    requires Canonical(n) && n[BASE - 1] != SPACE
    ensures Display(n) == n[..BASE] + if n[BASE] != SPACE then [DOT] + Until(n[BASE..], {SPACE}) else []
  {
    var base := Until(n[..BASE], {SPACE, DOT, 0});
    assert n[..BASE][BASE - 1] != SPACE;
    assert base == n[..BASE];
    UntilIs(n[..BASE], {SPACE}, BASE);
  }

  lemma ShortExtensionListed(n: ShortName)
    requires Canonical(n) && n[BASE - 1] != SPACE && n[BASE + 1] == SPACE
    ensures CharAt(Display(n), NAME - 1) == 0
  {
    FullBaseListed(n);
    assert n[BASE..][1] == SPACE;
    assert |Until(n[BASE..], {SPACE})| <= 1;
  }

  lemma OverlongListed(n: ShortName)
    requires Canonical(n) && Overlong(n)
    ensures forall i :: 0 <= i < NAME ==> CharAt(Display(n), i) == Alias(n)[i]
  {
    FullBaseListed(n);
    var e := Until(n[BASE..], {SPACE});
    assert n[BASE..][1] == n[BASE + 1] && n[BASE..][0] == n[BASE];
    assert |Until(n[BASE..], {SPACE, 0})| >= 2;
    assert |e| >= 2 && e[0] == n[BASE] && e[1] == n[BASE + 1];
  }

  /** `fat12_read_file` compares raw bytes: the listed name of `n` matches the canonical name `m`
      exactly when it is overlong and `m` is what fits of it, dot included. */
  lemma ListedNameMatchesExactlyAlias(n: ShortName, m: ShortName)
    requires Canonical(n) && Canonical(m)
    ensures SameName(m, Display(n), 0) <==> Overlong(n) && m == Alias(n)
  {
    CanonicalBytes(m);
    SameNameIs(m, Display(n), 0);
    if n[BASE - 1] == SPACE {
      ShortBaseListed(n);
    } else if n[BASE + 1] == SPACE {
      ShortExtensionListed(n);
    } else {
      OverlongListed(n);
    }
  }

  /** So in a directory of canonical names, reading under a listed name finds what a lookup of
      its alias would hit, and nothing when the name is not overlong. */
  lemma {:induction false} ListedNameReadsAlias(dir: seq<DirEntry>, n: ShortName, x: DirEntry)
    requires Named(dir) && AllCanonical(dir) && Canonical(n)
    ensures forall e :: e in dir ==> |e.name| == NAME
    ensures Lookup(dir, Display(n)) == Some(x) <==> Overlong(n) && ScanFor(dir, Alias(n)) == Hit(x)
  {
    if dir != [] {
      var e := dir[0];
      if Live(e) {
        ListedNameMatchesExactlyAlias(n, e.name);
      }
      assert AllCanonical(dir[1..]) by {
        assert forall j :: 0 <= j < |dir[1..]| ==> dir[1..][j] == dir[j + 1];
      }
      ListedNameReadsAlias(dir[1..], n, x);
    }
  }

  lemma {:induction false} HitHasName(dir: seq<DirEntry>, name: ShortName)
    requires Named(dir) && ScanFor(dir, name).Hit?
    ensures ScanFor(dir, name).entry.name == name
  {
    if !(Live(dir[0]) && dir[0].name == name) {
      HitHasName(dir[1..], name);
    }
  }

  lemma AliasIsSelf(n: ShortName)
    ensures Overlong(n) && Alias(n) == n <==> n[BASE - 1] != SPACE && n[BASE..] == [DOT, DOT, DOT]
  {
    var a := Alias(n);
    assert a[BASE] == DOT && a[BASE + 1] == n[BASE] && a[BASE + 2] == n[BASE + 1];
    assert forall i :: 0 <= i < BASE ==> a[i] == n[i];
    assert n[BASE..] == [n[BASE], n[BASE + 1], n[BASE + 2]];
  }

  /** With unique names a file that can be found is read under its listed name exactly when its
      base is full and its extension is three dots. */
  lemma ReadsItselfExactlyWithThreeDots(dir: seq<DirEntry>, k: nat)
    requires Named(dir) && AllCanonical(dir) && UniqueNames(dir)
    requires k < |dir| && Live(dir[k]) && forall j :: 0 <= j < k ==> !Ends(dir[j])
    ensures forall e :: e in dir ==> |e.name| == NAME
    ensures Lookup(dir, Display(dir[k].name)) == Some(dir[k]) <==>
            dir[k].name[BASE - 1] != SPACE && dir[k].name[BASE..] == [DOT, DOT, DOT]
  {
    var n: ShortName := dir[k].name;
    ListedNameReadsAlias(dir, n, dir[k]);
    AliasIsSelf(n);
    ScanFinds(dir, k);
    if ScanFor(dir, Alias(n)) == Hit(dir[k]) {
      HitHasName(dir, Alias(n));
    }
  }

  /** A file whose name is the alias of another is read in its place. */
  lemma AliasIsReadInstead(dir: seq<DirEntry>, k: nat, n: ShortName)
    requires Named(dir) && AllCanonical(dir) && UniqueNames(dir) && Canonical(n) && Overlong(n)
    requires k < |dir| && Live(dir[k]) && dir[k].name == Alias(n) && forall j :: 0 <= j < k ==> !Ends(dir[j])
    ensures forall e :: e in dir ==> |e.name| == NAME
    ensures Lookup(dir, Display(n)) == Some(dir[k])
  {
    ScanFinds(dir, k);
    ListedNameReadsAlias(dir, n, dir[k]);
  }
}
