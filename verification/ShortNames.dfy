/** The 8.3 names of filesystem/fat12.c: how the directory listing shows them, how a path is
    turned back into one, and when a listed file can be looked up again. */
module ShortNames {
  import opened Words
  import opened Fat12

  const BASE := 8
  const EXT := 3
  const SPACE: Byte := 0x20
  const DOT: Byte := 0x2E

  type ShortName = n: seq<Byte> | |n| == NAME witness seq(NAME, _ => 0x20)

  // ----- Reference definitions -----

  /** The longest prefix without any of `stops`. */
  function Until(s: seq<Byte>, stops: set<Byte>): (r: seq<Byte>)
    ensures r <= s
    ensures forall k :: 0 <= k < |r| ==> s[k] !in stops
    ensures |r| < |s| ==> s[|r|] in stops
  {
    if s == [] || s[0] in stops then [] else [s[0]] + Until(s[1..], stops)
  }

  function Pad(s: seq<Byte>, n: nat): (r: seq<Byte>)
    requires |s| <= n
    ensures |r| == n && s <= r && forall k :: |s| <= k < n ==> r[k] == SPACE
  {
    s + seq(n - |s|, _ => SPACE)
  }

  function Clip(s: seq<Byte>, n: nat): (r: seq<Byte>)
    ensures |r| <= n && r <= s && (|s| <= n ==> r == s)
  {
    if |s| <= n then s else s[..n]
  }

  /** `NAME.EXT` as the listing shows it. */
  function Display(n: ShortName): seq<Byte> {
    Until(n[..BASE], {SPACE}) + if n[BASE] != SPACE then [DOT] + Until(n[BASE..], {SPACE}) else []
  }

  /** The 11-byte name a C string stands for; NUL ends the string. */
  function Parse(f: seq<Byte>): ShortName {
    Pad(Clip(Until(f, {0, DOT}), BASE), BASE) + Pad(Clip(Extension(f), EXT), EXT)
  }

  function Extension(f: seq<Byte>): seq<Byte> {
    var dot := |Until(f, {0, DOT})|;
    if CharAt(f, dot) == DOT then Until(f[dot + 1..], {0}) else []
  }

  /** Letters first, then padding; no dot in the base and no NUL. */
  predicate Canonical(n: ShortName) {
    && n[..BASE] == Pad(Until(n[..BASE], {SPACE, DOT, 0}), BASE)
    && n[BASE..] == Pad(Until(n[BASE..], {SPACE, 0}), EXT)
  }

  // ----- The round trip -----

  lemma {:induction false} UntilIs(s: seq<Byte>, stops: set<Byte>, k: nat)
    requires k <= |s| && (forall i :: 0 <= i < k ==> s[i] !in stops) && (k < |s| ==> s[k] in stops)
    ensures Until(s, stops) == s[..k]
  {
    if k > 0 {
      UntilIs(s[1..], stops, k - 1);
      assert s[..k] == [s[0]] + s[1..][..k - 1];
    }
  }

  /** A padded word reads back as the word. */
  lemma UntilPad(w: seq<Byte>, n: nat)
    requires |w| <= n && forall k :: 0 <= k < |w| ==> w[k] != SPACE
    ensures Until(Pad(w, n), {SPACE}) == w
  {
    UntilIs(Pad(w, n), {SPACE}, |w|);
  }

  function Shown(b: seq<Byte>, e: seq<Byte>): seq<Byte> {
    b + if e == [] then [] else [DOT] + e
  }

  lemma DisplayIsShown(n: ShortName)
    ensures Display(n) == Shown(Until(n[..BASE], {SPACE}), Until(n[BASE..], {SPACE}))
  {
    assert n[BASE..][0] == n[BASE];
  }

  lemma ParseShown(b: seq<Byte>, e: seq<Byte>)
    requires forall k :: 0 <= k < |b| ==> b[k] !in {0, DOT}
    requires forall k :: 0 <= k < |e| ==> e[k] != 0
    ensures Until(Shown(b, e), {0, DOT}) == b && Extension(Shown(b, e)) == e
  {
    var f := Shown(b, e);
    UntilIs(f, {0, DOT}, |b|);
    assert f[..|b|] == b;
    if e != [] {
      assert f[|b| + 1..] == e;
      UntilIs(e, {0}, |e|);
    }
  }

  lemma CanonicalRoundTrip(n: ShortName)
    requires Canonical(n)
    ensures Parse(Display(n)) == n
  {
    var b := Until(n[..BASE], {SPACE, DOT, 0});
    var e := Until(n[BASE..], {SPACE, 0});
    UntilPad(b, BASE);
    UntilPad(e, EXT);
    DisplayIsShown(n);
    ParseShown(b, e);
    assert n == n[..BASE] + n[BASE..];
  }

  lemma PaddedWordIsCanonical(s: seq<Byte>, w: seq<Byte>, stops: set<Byte>)
    requires |w| <= |s| && s == Pad(w, |s|) && SPACE in stops
    requires forall k :: 0 <= k < |w| ==> w[k] !in stops
    ensures s == Pad(Until(s, stops), |s|)
  {
    UntilIs(s, stops, |w|);
    assert s[..|w|] == w;
  }

  /** Parsing stops no later than the listed base ends. */
  lemma ParsedBase(n: ShortName)
    ensures var f := Display(n);
            Until(f, {0, DOT}) <= Until(n[..BASE], {SPACE})
  {
    var b := Until(n[..BASE], {SPACE});
    var f := Display(n);
    var base := Until(f, {0, DOT});
    assert b <= f && (|b| < |f| ==> f[|b|] == DOT);
    assert |base| <= |b|;
    assert base == f[..|base|] == b[..|base|];
  }

  lemma RoundTripBase(n: ShortName)
    requires Parse(Display(n)) == n
    ensures n[..BASE] == Pad(Until(n[..BASE], {SPACE, DOT, 0}), BASE)
    ensures Until(Display(n), {0, DOT}) == Until(n[..BASE], {SPACE})
  {
    var f := Display(n);
    var b := Until(n[..BASE], {SPACE});
    var base := Until(f, {0, DOT});
    ParsedBase(n);
    assert forall k :: 0 <= k < |base| ==> base[k] == f[k] && base[k] == b[k];
    assert n[..BASE] == Pad(base, BASE);
    PaddedWordIsCanonical(n[..BASE], base, {SPACE, DOT, 0});
    UntilPad(base, BASE);
  }

  lemma RoundTripExtension(n: ShortName)
    requires Parse(Display(n)) == n
    requires Until(Display(n), {0, DOT}) == Until(n[..BASE], {SPACE})
    ensures n[BASE..] == Pad(Until(n[BASE..], {SPACE, 0}), EXT)
  {
    var b, e := Until(n[..BASE], {SPACE}), Until(n[BASE..], {SPACE});
    var f := Display(n);
    var ext := Extension(f);
    DisplayIsShown(n);
    if e != [] {
      assert f[|b| + 1..] == e;
      assert ext == Until(e, {0});
      assert forall k :: 0 <= k < |ext| ==> ext[k] == e[k] == n[BASE..][k];
    } else {
      assert ext == [];
    }
    assert n[BASE..] == Pad(ext, EXT);
    PaddedWordIsCanonical(n[BASE..], ext, {SPACE, 0});
  }

  /** Converting a listed name back gives the same 11 bytes exactly when they are canonical. */
  lemma RoundTripExactlyWhenCanonical(n: ShortName)
    ensures Parse(Display(n)) == n <==> Canonical(n)
  {
    if Canonical(n) {
      CanonicalRoundTrip(n);
    }
    if Parse(Display(n)) == n {
      RoundTripBase(n);
      RoundTripExtension(n);
    }
  }

  // ----- The conversion loops -----

  /** The conversion at the head of `fat12_file_exists` and `fat12_get_file_size`. */
  method ParseName(f: seq<Byte>) returns (name: ShortName)
    ensures name == Parse(f)
  {
    var buffer := new Byte[NAME](_ => SPACE);
    var i := ParseBase(f, buffer);
    if CharAt(f, i) == DOT {
      ParseExtension(f[i + 1..], buffer);
    }
    name := buffer[..];
    assert name == name[..BASE] + name[BASE..];
  }

  /** Copies the base and returns the position of the dot or the end of the string. */
  method ParseBase(f: seq<Byte>, buffer: array<Byte>) returns (i: nat)
    requires buffer.Length == NAME && buffer[..] == Pad([], NAME)
    modifies buffer
    ensures i == |Until(f, {0, DOT})|
    ensures buffer[..] == Pad(Clip(Until(f, {0, DOT}), BASE), BASE) + Pad([], EXT)
  {
    i := 0;
    while CharAt(f, i) != 0 && CharAt(f, i) != DOT && i < BASE
      invariant i <= BASE && i <= |f|
      invariant forall k :: 0 <= k < i ==> f[k] !in {0, DOT}
      invariant buffer[..] == Pad(f[..i], NAME)
      decreases BASE - i
    {
      buffer[i] := CharAt(f, i);
      i := i + 1;
    }
    ghost var written := i;
    while CharAt(f, i) != 0 && CharAt(f, i) != DOT
      invariant written <= i <= |f|
      invariant forall k :: 0 <= k < i ==> f[k] !in {0, DOT}
      invariant written < i ==> written == BASE
      decreases |f| - i
    {
      i := i + 1;
    }
    UntilIs(f, {0, DOT}, i);
    assert f[..written] == Clip(f[..i], BASE);
  }

  method ParseExtension(rest: seq<Byte>, buffer: array<Byte>)
    requires buffer.Length == NAME && buffer[BASE..] == Pad([], EXT)
    modifies buffer
    ensures buffer[..] == old(buffer[..BASE]) + Pad(Clip(Until(rest, {0}), EXT), EXT)
  {
    var j := 0;
    while CharAt(rest, j) != 0 && j < EXT
      invariant j <= EXT && j <= |rest|
      invariant forall k :: 0 <= k < j ==> rest[k] != 0
      invariant buffer[..] == old(buffer[..BASE]) + Pad(rest[..j], EXT)
      decreases EXT - j
    {
      buffer[BASE + j] := CharAt(rest, j);
      j := j + 1;
    }
    ExtensionRead(rest, j);
  }

  /** Reading stops at NUL or after three characters. */
  lemma ExtensionRead(rest: seq<Byte>, j: nat)
    requires j <= EXT && j <= |rest| && forall k :: 0 <= k < j ==> rest[k] != 0
    requires j == EXT || CharAt(rest, j) == 0
    ensures rest[..j] == Clip(Until(rest, {0}), EXT)
  {
    var u := Until(rest, {0});
    if j < EXT {
      UntilIs(rest, {0}, j);
    } else {
      assert |u| >= j;
    }
  }

  /** The conversion inside `fat12_list_directory`. */
  method ListName(n: ShortName) returns (shown: seq<Byte>)
    ensures shown == Display(n)
  {
    shown := CopyUntilSpace(n[..BASE]);
    if n[BASE] != SPACE {
      var extension := CopyUntilSpace(n[BASE..]);
      shown := shown + [DOT] + extension;
    }
  }

  method CopyUntilSpace(field: seq<Byte>) returns (shown: seq<Byte>)
    ensures shown == Until(field, {SPACE})
  {
    shown := [];
    var j := 0;
    while j < |field| && field[j] != SPACE
      invariant j <= |field| && shown == field[..j] && forall k :: 0 <= k < j ==> field[k] != SPACE
    {
      shown := shown + [field[j]];
      j := j + 1;
    }
    UntilIs(field, {SPACE}, j);
  }
}
