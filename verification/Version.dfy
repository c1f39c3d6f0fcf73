/** Lenient release versions: reading the dotted numeric core, and the order on it. */
module Version {
  import opened Text

  const MAX_INT := 0x7fff_ffff_ffff_ffff

  predicate IsDot(c: char) { c == '.' }

  predicate EndsCore(c: char) { c == '-' || c == '+' || c == ' ' }

  /** At most n dot-separated pieces, the last one unsplit. */
  function Split(s: string, n: nat): (r: seq<string>)
    requires n >= 1
    ensures 1 <= |r| <= n
    decreases n
  {
    var head := TakeUntil(s, IsDot);
    if n == 1 || |head| == |s| then [s] else [head] + Split(s[|head| + 1..], n - 1)
  }

  /** strconv.Atoi on a digit string, with an error read as 0. */
  function Number(digits: string): nat
    requires Free(digits, NotDigit)
  {
    if Value(digits) > MAX_INT then 0 else Value(digits)
  }

  function Component(part: string): nat { Number(TakeUntil(part, NotDigit)) }

  function Pieces(s: string): (r: seq<string>)
    ensures 1 <= |r| <= 3
  {
    Split(TakeUntil(TrimPrefix(TrimPrefix(Trim(s), 'v'), 'V'), EndsCore), 3)
  }

  /** major, minor, patch; missing or unreadable components are 0. */
  datatype Core = Core(major: nat, minor: nat, patch: nat)

  function Parse(s: string): Core {
    var p := Pieces(s);
    Core(Component(p[0]), if |p| > 1 then Component(p[1]) else 0, if |p| > 2 then Component(p[2]) else 0)
  }

  method ParseVersion(s: string) returns (out: array<int>)
    ensures fresh(out) && out.Length == 3
    ensures out[..] == [Parse(s).major, Parse(s).minor, Parse(s).patch]
  {
    hide Pieces, TakeUntil, Number;
    out := new int[3](_ => 0);
    var parts := Pieces(s);
    for i := 0 to |parts|
      invariant forall k :: 0 <= k < 3 ==> out[k] == if k < i then Component(parts[k]) else 0
    {
      var part := parts[i];
      var j := 0;
      while j < |part| && IsDigit(part[j])
        invariant j <= |part| && Free(part[..j], NotDigit)
      {
        j := j + 1;
      }
      TakeUntilStops(part, j);
      out[i] := Number(part[..j]);
    }
  }

  lemma TakeUntilStops(s: string, j: nat)
    requires j <= |s| && Free(s[..j], NotDigit) && (j < |s| ==> NotDigit(s[j]))
    ensures TakeUntil(s, NotDigit) == s[..j]
  {
    assert s == s[..j] + s[j..];
    TakeUntilAppend(s[..j], s[j..], NotDigit);
  }

  ghost predicate Less(a: Core, b: Core) {
    || a.major < b.major
    || (a.major == b.major && a.minor < b.minor)
    || (a.major == b.major && a.minor == b.minor && a.patch < b.patch)
  }

  method CompareVersions(a: string, b: string) returns (r: int)
    ensures r == -1 || r == 0 || r == 1
    ensures r < 0 <==> Less(Parse(a), Parse(b))
    ensures r > 0 <==> Less(Parse(b), Parse(a))
  {
    hide Parse;
    var av := ParseVersion(a);
    var bv := ParseVersion(b);
    assert av[..][0] == av[0] && av[..][1] == av[1] && av[..][2] == av[2];
    assert bv[..][0] == bv[0] && bv[..][1] == bv[1] && bv[..][2] == bv[2];
    for i := 0 to 3
      invariant forall k :: 0 <= k < i ==> av[k] == bv[k]
    {
      if av[i] != bv[i] {
        return if av[i] < bv[i] then -1 else 1;
      }
    }
    return 0;
  }

  /** The release named `latest` is offered to a build named `current`. */
  ghost predicate IsNewer(latest: string, current: string) { Less(Parse(current), Parse(latest)) }

  method OffersUpdate(latest: string, current: string) returns (newer: bool)
    ensures newer <==> IsNewer(latest, current)
  {
    var r := CompareVersions(latest, current);
    return r > 0;
  }

  // ---- Printing and reading back ----

  function Print(c: Core): string {
    "v" + Dotted(Decimal(c.major), Decimal(c.minor), Decimal(c.patch))
  }

  ghost predicate Readable(c: Core) { c.major <= MAX_INT && c.minor <= MAX_INT && c.patch <= MAX_INT }

  ghost predicate IsSuffix(s: string) { s == "" || NotDigit(s[0]) }

  lemma SplitAtDot(d: string, rest: string, n: nat)
    requires Free(d, IsDot) && n > 1
    ensures Split(d + ("." + rest), n) == [d] + Split(rest, n - 1)
  {
    hide TakeUntil;
    TakeUntilAppend(d, "." + rest, IsDot);
    TakeNothing("." + rest, IsDot);
    var s := d + ("." + rest);
    assert TakeUntil(s, IsDot) == d + "" == d;
    assert s[|d| + 1..] == rest;
  }

  lemma DigitsAreNeither(s: string)
    requires Free(s, NotDigit)
    ensures Free(s, IsDot) && Free(s, EndsCore)
  {
    forall i | 0 <= i < |s| ensures !IsDot(s[i]) && !EndsCore(s[i]) { assert !NotDigit(s[i]); }
  }

  lemma ReadComponent(n: nat, rest: string)
    requires n <= MAX_INT && IsSuffix(rest)
    ensures Component(Decimal(n) + rest) == n
  {
    TakeUntilAppend(Decimal(n), rest, NotDigit);
    assert TakeUntil(rest, NotDigit) == "";
    ValueOfDecimal(n);
    assert Decimal(n) + "" == Decimal(n);
  }

  function Dotted(x: string, y: string, z: string): string { x + ("." + (y + ("." + z))) }

  /** Trimming keeps everything up to the last digit of the core and the prefix v goes. */
  lemma TrimPrinted(core: string, suffix: string) returns (right: string)
    requires core != "" && IsDigit(core[0]) && IsDigit(core[|core| - 1]) && IsSuffix(suffix)
    ensures TrimPrefix(TrimPrefix(Trim("v" + core + suffix), 'v'), 'V') == core + right
    ensures IsSuffix(right)
  {
    var s := "v" + core + suffix;
    right := TrimRight(suffix);
    TrimRightPrefix(suffix);
    assert s[0] == 'v' && TrimLeft(s) == s;
    TrimRightAppend("v" + core, suffix);
    assert Trim(s) == "v" + core + right;
    assert ("v" + core + right)[1..] == core + right;
  }

  lemma SplitDotted(x: string, y: string, z: string, tail: string)
    requires Free(x, NotDigit) && Free(y, NotDigit)
    ensures Split(Dotted(x, y, z) + tail, 3) == [x, y, z + tail]
  {
    DigitsAreNeither(x);
    DigitsAreNeither(y);
    assert Dotted(x, y, z) + tail == x + ("." + (y + ("." + (z + tail))));
    SplitAtDot(x, y + ("." + (z + tail)), 3);
    SplitAtDot(y, z + tail, 2);
  }

  lemma CutDotted(x: string, y: string, z: string, right: string)
    requires Free(x, NotDigit) && Free(y, NotDigit) && Free(z, NotDigit)
    ensures TakeUntil(Dotted(x, y, z) + right, EndsCore) == Dotted(x, y, z) + TakeUntil(right, EndsCore)
  {
    DigitsAreNeither(x);
    DigitsAreNeither(y);
    DigitsAreNeither(z);
    TakeUntilAppend(Dotted(x, y, z), right, EndsCore);
  }

  /** Reading undoes printing, whatever suffix follows, as long as it does not extend the last number. */
  lemma ParsePrinted(c: Core, suffix: string)
    requires Readable(c) && IsSuffix(suffix)
    ensures Parse(Print(c) + suffix) == c
  {
    hide Split, TakeUntil, Trim, TrimPrefix, Component, Decimal;
    var x, y, z := Decimal(c.major), Decimal(c.minor), Decimal(c.patch);
    assert Print(c) == "v" + Dotted(x, y, z);
    assert !NotDigit(x[0]) && !NotDigit(z[|z| - 1]);
    var right := TrimPrinted(Dotted(x, y, z), suffix);
    CutDotted(x, y, z, right);
    var tail := TakeUntil(right, EndsCore);
    SplitDotted(x, y, z, tail);
    assert Pieces(Print(c) + suffix) == [x, y, z + tail];
    assert x + "" == x && y + "" == y;
    ReadComponent(c.major, "");
    ReadComponent(c.minor, "");
    ReadComponent(c.patch, tail);
  }

  /** What a version may be introduced by: white space and at most one v and one V. */
  ghost predicate IsPrefix(p: string) { p == "" || p == "v" || p == "V" || p == "vV" }

  ghost predicate IsTail(s: string) { s == "" || EndsCore(s[0]) }

  lemma PiecesOf(lead: string, prefix: string, core: string, tail: string)
    requires AllSpace(lead) && IsPrefix(prefix) && IsTail(tail)
    requires core != "" && IsDigit(core[0]) && IsDigit(core[|core| - 1]) && Free(core, EndsCore)
    ensures Pieces(lead + (prefix + (core + tail))) == Split(core, 3)
  {
    hide Split, TakeUntil;
    var s := lead + (prefix + (core + tail));
    var right := TrimRight(tail);
    TrimRightPrefix(tail);
    TrimmedVersion(lead, prefix, core, tail);
    DropPrefix(prefix, core + right);
    assert (core + right)[0] == core[0];
    TakeUntilAppend(core, right, EndsCore);
    assert TakeUntil(right, EndsCore) == "" by { if right == "" { TakeAll(); } else { TakeNothing(right, EndsCore); } }
    assert core + "" == core;
  }

  lemma TakeAll()
    ensures TakeUntil("", EndsCore) == ""
  {}

  lemma TrimmedVersion(lead: string, prefix: string, core: string, tail: string)
    requires AllSpace(lead) && IsPrefix(prefix) && core != "" && IsDigit(core[0]) && IsDigit(core[|core| - 1])
    ensures Trim(lead + (prefix + (core + tail))) == prefix + (core + TrimRight(tail))
  {
    hide TrimLeft, TrimRight, AllSpace, IsSpace, IsPrefix;
    var body := prefix + core;
    BodyIsInk(prefix, core);
    assert prefix + (core + tail) == body + tail;
    TrimLeftDrops(lead, body + tail);
    InkStays(body, tail);
    TrimRightAppend(body, tail);
    assert body + TrimRight(tail) == prefix + (core + TrimRight(tail));
  }

  lemma BodyIsInk(prefix: string, core: string)
    requires IsPrefix(prefix) && core != "" && IsDigit(core[0]) && IsDigit(core[|core| - 1])
    ensures var body := prefix + core; body != "" && !IsSpace(body[0]) && !IsSpace(body[|body| - 1])
  {}

  lemma InkStays(body: string, tail: string)
    requires body != "" && !IsSpace(body[0])
    ensures TrimLeft(body + tail) == body + tail
  {
    assert (body + tail)[0] == body[0];
  }

  lemma DropPrefix(prefix: string, rest: string)
    requires IsPrefix(prefix) && rest != "" && IsDigit(rest[0])
    ensures TrimPrefix(TrimPrefix(prefix + rest, 'v'), 'V') == rest
  {
    assert "" + rest == rest && ("v" + rest)[1..] == rest && ("V" + rest)[1..] == rest;
    assert ("vV" + rest)[1..] == "V" + rest;
  }

  /** A release name may leave out parts and the v, and may be set in white space: what is missing is 0. */
  lemma ParseLenient(lead: string, prefix: string, x: nat, y: nat, z: nat, tail: string)
    requires AllSpace(lead) && IsPrefix(prefix) && IsTail(tail) && Readable(Core(x, y, z))
    ensures Parse(lead + (prefix + (Decimal(x) + tail))) == Core(x, 0, 0)
    ensures Parse(lead + (prefix + ((Decimal(x) + ("." + Decimal(y))) + tail))) == Core(x, y, 0)
    ensures Parse(lead + (prefix + (Dotted(Decimal(x), Decimal(y), Decimal(z)) + tail))) == Core(x, y, z)
  {
    hide Pieces, Split, Component, Decimal;
    var a, b, c := Decimal(x), Decimal(y), Decimal(z);
    var two, three := a + ("." + b), Dotted(a, b, c);
    assert !NotDigit(a[0]) && !NotDigit(a[|a| - 1]) && !NotDigit(b[|b| - 1]) && !NotDigit(c[|c| - 1]);
    DigitsAreNeither(a);
    DigitsAreNeither(b);
    DigitsAreNeither(c);
    PiecesOf(lead, prefix, a, tail);
    PiecesOf(lead, prefix, two, tail);
    PiecesOf(lead, prefix, three, tail);
    SplitWhole(a, 3);
    SplitAtDot(a, b, 3);
    SplitWhole(b, 2);
    assert three + "" == three && c + "" == c;
    SplitDotted(a, b, c, "");
    ReadComponent(x, "");
    ReadComponent(y, "");
    ReadComponent(z, "");
    assert a + "" == a && b + "" == b;
  }

  lemma SplitWhole(s: string, n: nat)
    requires Free(s, IsDot) && n >= 1
    ensures Split(s, n) == [s]
  {
    TakeUntilAppend(s, "", IsDot);
    assert s + "" == s && TakeUntil("", IsDot) == "";
  }

  /** A number too large to read counts as 0. */
  lemma OverflowIsZero(n: nat, rest: string)
    requires n > MAX_INT && IsSuffix(rest)
    ensures Component(Decimal(n) + rest) == 0
  {
    TakeUntilAppend(Decimal(n), rest, NotDigit);
    assert TakeUntil(rest, NotDigit) == "";
    ValueOfDecimal(n);
    assert Decimal(n) + "" == Decimal(n);
  }

  /** A name without a digit, such as "dev", is 0.0.0. */
  lemma ParseUnreadable(s: string)
    requires Free(s, IsDigit)
    ensures Parse(s) == Core(0, 0, 0)
  {
    hide Split, TakeUntil, Trim, TrimPrefix;
    var left, right := TrimSplits(s);
    var t := Trim(s);
    assert forall i :: 0 <= i < |t| ==> t[i] == s[|left| + i];
    assert Free(t, IsDigit);
    var u := TrimPrefix(TrimPrefix(t, 'v'), 'V');
    PrefixFree(t, 'v');
    PrefixFree(TrimPrefix(t, 'v'), 'V');
    var core := TakeUntil(u, EndsCore);
    assert Free(core, IsDigit);
    SplitFree(core, 3);
  }

  lemma PrefixFree(s: string, c: char)
    requires Free(s, IsDigit)
    ensures Free(TrimPrefix(s, c), IsDigit)
  {}

  lemma {:induction false} SplitFree(s: string, n: nat)
    requires Free(s, IsDigit) && n >= 1
    ensures forall i :: 0 <= i < |Split(s, n)| ==> Component(Split(s, n)[i]) == 0
    decreases n
  {
    hide TakeUntil;
    NoDigitsNoNumber(s);
    var head := TakeUntil(s, IsDot);
    assert Free(head, IsDigit);
    NoDigitsNoNumber(head);
    if n == 1 || |head| == |s| {
    } else {
      var rest := s[|head| + 1..];
      assert forall i :: 0 <= i < |rest| ==> rest[i] == s[|head| + 1 + i];
      SplitFree(rest, n - 1);
    }
  }

  lemma NoDigitsNoNumber(s: string)
    requires Free(s, IsDigit)
    ensures Component(s) == 0
  {
    assert TakeUntil(s, NotDigit) == "";
  }

  /** The number a core makes in any base its minor and patch are digits of. */
  function Rank(c: Core, base: nat): nat { (c.major * base + c.minor) * base + c.patch }

  /** The order on cores is that of those numbers: a later place never outweighs an earlier one. */
  lemma LessIsNumeric(a: Core, b: Core, base: nat)
    requires a.minor < base && a.patch < base && b.minor < base && b.patch < base
    ensures Less(a, b) <==> Rank(a, base) < Rank(b, base)
  {
    OnePlace(a.major, a.minor, b.major, b.minor, base);
    OnePlace(a.major * base + a.minor, a.patch, b.major * base + b.minor, b.patch, base);
  }

  lemma OnePlace(x: nat, y: nat, x': nat, y': nat, base: nat)
    requires y < base && y' < base
    ensures x * base + y < x' * base + y' <==> x < x' || (x == x' && y < y')
    ensures x * base + y == x' * base + y' <==> x == x' && y == y'
  {
    if x < x' {
      assert (x + 1) * base <= x' * base;
    } else if x' < x {
      assert (x' + 1) * base <= x * base;
    }
  }

  /**
   The order is a strict weak order on all strings whatever, and on release names it is the
   order of their three numbers: suffixes are ignored and no downgrade is ever offered.
   */
  lemma NewerIsStrictOrder(a: string, b: string, c: string)
    ensures !IsNewer(a, a)
    ensures IsNewer(a, b) ==> !IsNewer(b, a)
    ensures IsNewer(a, b) && IsNewer(b, c) ==> IsNewer(a, c)
    ensures IsNewer(a, c) ==> IsNewer(a, b) || IsNewer(b, c)
  {}

  lemma NewerByNumbers(a: Core, b: Core, suffixA: string, suffixB: string)
    requires Readable(a) && Readable(b) && IsSuffix(suffixA) && IsSuffix(suffixB)
    ensures IsNewer(Print(a) + suffixA, Print(b) + suffixB) <==> Less(b, a)
  {
    ParsePrinted(a, suffixA);
    ParsePrinted(b, suffixB);
  }
}
