/**
 The checksum listing of a release: the generator's loop and the reader's scan loop.
 Characters are code points; the reader's size limits count them, as they count bytes in
 an ASCII listing.
 */
module Checksums {
  import opened Wrappers
  import opened Text

  const MAX_BODY := 0x10_0000      // the reader looks at 1 MiB and no further
  const MAX_LINE := 0xffff         // the longest line the scanner returns

  datatype Entry = Entry(name: string, digest: string)

  datatype ReadError = LineTooLong | EmptyListing

  predicate IsNewline(c: char) { c == '\n' }

  function DropCR(line: string): string {
    if line != "" && line[|line| - 1] == '\r' then line[..|line| - 1] else line
  }

  /** Lines without their newlines; a text ending in a newline has no empty last line. */
  function Lines(s: string): seq<string> {
    if s == "" then []
    else
      var line := TakeUntil(s, IsNewline);
      if |line| == |s| then [line] else [line] + Lines(s[|line| + 1..])
  }

  lemma TrimLeftShortens(s: string)
    ensures |TrimLeft(s)| <= |s| && (TrimLeft(s) != "" ==> !IsSpace(TrimLeft(s)[0]))
  {}

  /** The maximal runs of non-space characters. */
  function Fields(s: string): seq<string>
    decreases |s|
  {
    TrimLeftShortens(s);
    var t := TrimLeft(s);
    if t == "" then []
    else
      var word := TakeUntil(t, IsSpace);
      [word] + Fields(t[|word|..])
  }

  function LowerChar(c: char): char {
    if 'A' <= c <= 'Z' then c - 'A' + 'a' else c
  }

  function Lower(s: string): (r: string)
    ensures |r| == |s|
    ensures forall i :: 0 <= i < |s| ==> r[i] == LowerChar(s[i])
  {
    if s == "" then "" else [LowerChar(s[0])] + Lower(s[1..])
  }

  /** What one line contributes: two fields are a digest and a name, anything else is skipped. */
  function EntryOf(line: string): Option<Entry> {
    var f := Fields(DropCR(line));
    if |f| == 2 then Some(Entry(TrimPrefix(f[1], '*'), Lower(f[0]))) else None
  }

  function Sums(lines: seq<string>): map<string, string> {
    if lines == [] then map[]
    else
      var m := Sums(lines[..|lines| - 1]);
      match EntryOf(lines[|lines| - 1])
      case None => m
      case Some(e) => m[e.name := e.digest]
  }

  /** Line i is the last one that names `name`, and gives this digest. */
  ghost predicate LastNaming(lines: seq<string>, i: nat, name: string, digest: string) {
    && i < |lines| && EntryOf(lines[i]) == Some(Entry(name, digest))
    && forall k :: i < k < |lines| && EntryOf(lines[k]).Some? ==> EntryOf(lines[k]).value.name != name
  }

  /** The table maps a name to a digest exactly if the last two-field line for the name says so. */
  lemma {:induction false} LastLineWins(lines: seq<string>, name: string, digest: string)
    ensures name in Sums(lines) && Sums(lines)[name] == digest
            <==> exists i: nat :: LastNaming(lines, i, name, digest)
  {
    hide EntryOf;
    if lines == [] {
    } else {
      var n := |lines| - 1;
      var front := lines[..n];
      LastLineWins(front, name, digest);
      var last := EntryOf(lines[n]);
      if last.Some? && last.value.name == name {
        assert LastNaming(lines, n, name, last.value.digest);
      } else {
        forall i: nat ensures LastNaming(lines, i, name, digest) <==> LastNaming(front, i, name, digest) {
          if LastNaming(front, i, name, digest) {
            assert forall k :: i < k < n ==> front[k] == lines[k];
          }
          if LastNaming(lines, i, name, digest) {
            assert i != n;
            assert forall k :: i < k < n ==> front[k] == lines[k];
          }
        }
      }
    }
  }

  ghost predicate Fits(lines: seq<string>) {
    forall i :: 0 <= i < |lines| ==> |lines[i]| <= MAX_LINE
  }

  function Window(body: string): string {
    if |body| <= MAX_BODY then body else body[..MAX_BODY]
  }

  ghost function Read(body: string): Result<map<string, string>, ReadError> {
    var lines := Lines(Window(body));
    if !Fits(lines) then Err(LineTooLong)
    else if Sums(lines) == map[] then Err(EmptyListing)
    else Ok(Sums(lines))
  }

  function AfterLine(s: string): string {
    var line := TakeUntil(s, IsNewline);
    if |line| == |s| then "" else s[|line| + 1..]
  }

  lemma LinesStep(s: string, done: seq<string>)
    requires s != ""
    ensures done + Lines(s) == done + [TakeUntil(s, IsNewline)] + Lines(AfterLine(s))
  {
    assert Lines("") == [];
  }

  lemma SumsStep(done: seq<string>, line: string)
    ensures Sums(done + [line]) == match EntryOf(line)
                                   case None => Sums(done)
                                   case Some(e) => Sums(done)[e.name := e.digest]
  {
    assert (done + [line])[..|done|] == done;
  }

  /** The scan loop over a downloaded listing. */
  method FetchChecksums(body: string) returns (r: Result<map<string, string>, ReadError>)
    ensures r == Read(body)
  {
    hide EntryOf, Lines, Sums, TakeUntil;
    var rest := Window(body);
    ghost var lines, done := Lines(rest), [];
    var sums: map<string, string> := map[];
    assert Sums([]) == map[] by { NoSums(); }
    while rest != ""
      invariant done + Lines(rest) == lines && Fits(done) && sums == Sums(done)
      decreases |rest|
    {
      var line := TakeUntil(rest, IsNewline);
      LinesStep(rest, done);
      if |line| > MAX_LINE {
        assert lines[|done|] == line;
        return Err(LineTooLong);
      }
      rest := AfterLine(rest);
      SumsStep(done, line);
      match EntryOf(line) {
        case Some(e) => sums := sums[e.name := e.digest];
        case None =>
      }
      done := done + [line];
    }
    NoSums();
    assert done + [] == lines == done;
    return if sums == map[] then Err(EmptyListing) else Ok(sums);
  }

  lemma NoSums()
    ensures Sums([]) == map[] && Lines("") == []
  {}

  // ---- Lines as people write them ----

  /** Words with white space before each. */
  function Spread(gaps: seq<string>, words: seq<string>): string
    requires |gaps| == |words|
  {
    if words == [] then "" else gaps[0] + (words[0] + Spread(gaps[1..], words[1..]))
  }

  ghost predicate IsWord(w: string) { w != "" && Free(w, IsSpace) }

  /** Splitting into fields finds exactly the words, however much white space is around them. */
  lemma {:induction false} FieldsOfWords(gaps: seq<string>, words: seq<string>, tail: string)
    requires |gaps| == |words| && AllSpace(tail)
    requires forall i :: 0 <= i < |words| ==> IsWord(words[i]) && AllSpace(gaps[i])
    requires forall i :: 0 < i < |words| ==> gaps[i] != ""
    ensures Fields(Spread(gaps, words) + tail) == words
    decreases |words|
  {
    hide TakeUntil;
    if words == [] {
      assert "" + tail == tail;
      TrimLeftDrops(tail, "");
      assert tail + "" == tail && TrimLeft("") == "";
    } else {
      var w, rest := words[0], Spread(gaps[1..], words[1..]) + tail;
      assert Spread(gaps, words) + tail == gaps[0] + (w + rest);
      TrimLeftDrops(gaps[0], w + rest);
      assert (w + rest)[0] == w[0] && !IsSpace(w[0]);
      assert TrimLeft(w + rest) == w + rest;
      assert rest == "" || IsSpace(rest[0]) by {
        if |words| > 1 { assert rest[0] == gaps[1][0]; } else { assert rest == tail; }
      }
      TakeWord(w, rest);
      assert (w + rest)[|w|..] == rest;
      FieldsOfWords(gaps[1..], words[1..], tail);
      assert words == [w] + words[1..];
    }
  }

  lemma DropCRKeepsSpace(s: string, tail: string)
    requires AllSpace(tail) && (s != "" ==> s[|s| - 1] != '\r')
    ensures exists tail' :: AllSpace(tail') && DropCR(s + tail) == s + tail'
  {
    if tail == "" {
      assert s + tail == s && DropCR(s + tail) == s + "";
    } else if tail[|tail| - 1] == '\r' {
      var tail' := tail[..|tail| - 1];
      assert DropCR(s + tail) == s + tail' && AllSpace(tail');
    } else {
      assert DropCR(s + tail) == s + tail;
    }
  }

  /**
   A digest and a name with any white space around and between them make an entry: the name
   without a leading star, the digest in small letters.
   */
  lemma ReadAnyLine(gap: string, digest: string, between: string, name: string, tail: string)
    requires AllSpace(gap) && AllSpace(between) && between != "" && AllSpace(tail) && IsWord(digest) && IsWord(name)
    ensures var e := EntryOf(gap + (digest + (between + (name + tail))));
            && e.Some? && e.value.name == (if name[0] == '*' then name[1..] else name)
            && |e.value.digest| == |digest|
            && forall i :: 0 <= i < |digest| ==>
                 e.value.digest[i] == if 'A' <= digest[i] <= 'Z' then digest[i] - 'A' + 'a' else digest[i]
  {
    hide Fields, DropCR;
    var s := gap + (digest + (between + name));
    assert s[|s| - 1] == name[|name| - 1] && !IsSpace(name[|name| - 1]);
    DropCRKeepsSpace(s, tail);
    var tail' :| AllSpace(tail') && DropCR(s + tail) == s + tail';
    assert s + tail == gap + (digest + (between + (name + tail)));
    var gaps, words := [gap, between], [digest, name];
    assert gaps[1..] == [between] && words[1..] == [name] && gaps[1..][1..] == [] && words[1..][1..] == [];
    assert Spread([], []) == "" && Spread([between], [name]) == between + (name + "");
    assert name + "" == name;
    assert Spread(gaps, words) == s;
    FieldsOfWords(gaps, words, tail');
  }

  /** A line of any other number of words is skipped. */
  lemma SkipsOtherLines(gaps: seq<string>, words: seq<string>)
    requires |gaps| == |words| && |words| != 2
    requires forall i :: 0 <= i < |words| ==> IsWord(words[i]) && AllSpace(gaps[i])
    requires forall i :: 0 < i < |words| ==> gaps[i] != ""
    requires var s := Spread(gaps, words); s != "" ==> s[|s| - 1] != '\r'
    ensures EntryOf(Spread(gaps, words)).None?
  {
    hide Fields;
    var s := Spread(gaps, words);
    assert s + "" == s;
    FieldsOfWords(gaps, words, "");
  }

  // ---- The generator, and its inverse ----

  function Line(e: Entry): string { e.digest + ("  " + e.name) }

  function Listing(es: seq<Entry>): string {
    if es == [] then "" else Line(es[0]) + ("\n" + Listing(es[1..]))
  }

  /** What the listing of some files says: each name with the digest of its contents. */
  function Entries(names: seq<string>, contents: map<string, seq<bv8>>, hexDigest: seq<bv8> -> string): (es: seq<Entry>)
    requires forall n :: n in names ==> n in contents
    ensures |es| == |names|
    ensures forall i :: 0 <= i < |es| ==> es[i] == Entry(names[i], hexDigest(contents[names[i]]))
  {
    seq(|names|, i requires 0 <= i < |names| => Entry(names[i], hexDigest(contents[names[i]])))
  }

  /** The listing a release server builds for its files, in the given order, unless one cannot be read. */
  method Generate(names: seq<string>, contents: map<string, seq<bv8>>, hexDigest: seq<bv8> -> string)
    returns (r: Result<string, string>)
    ensures r.Ok? <==> forall n :: n in names ==> n in contents
    ensures r.Ok? ==> r.value == Listing(Entries(names, contents, hexDigest))
    ensures r.Err? ==> exists i :: 0 <= i < |names| && names[i] == r.error && r.error !in contents
                                   && forall k :: 0 <= k < i ==> names[k] in contents
  {
    hide Line;
    var text := "";
    for i := 0 to |names|
      invariant forall k :: 0 <= k < i ==> names[k] in contents
      invariant text == Listing(Entries(names[..i], contents, hexDigest))
    {
      if names[i] !in contents { return Err(names[i]); }
      var sum := hexDigest(contents[names[i]]);
      ghost var es := Entries(names[..i], contents, hexDigest);
      ListingAppend(es, Entry(names[i], sum));
      assert Entries(names[..i + 1], contents, hexDigest) == es + [Entry(names[i], sum)];
      text := text + (sum + "  " + names[i] + "\n");
    }
    assert names[..|names|] == names;
    return Ok(text);
  }

  lemma {:induction false} ListingAppend(es: seq<Entry>, e: Entry)
    ensures Listing(es + [e]) == Listing(es) + (e.digest + "  " + e.name + "\n")
  {
    if es == [] {
      assert (es + [e])[1..] == [];
    } else {
      assert (es + [e])[1..] == es[1..] + [e];
      ListingAppend(es[1..], e);
    }
  }

  /** A name and digest the format can carry. */
  ghost predicate Plain(e: Entry) {
    && e.name != "" && Free(e.name, IsSpace) && e.name[0] != '*'
    && e.digest != "" && Free(e.digest, IsSpace) && Lower(e.digest) == e.digest
    && |Line(e)| <= MAX_LINE
  }

  /** Small letters, digits and dashes. */
  ghost predicate Lowercase(s: string) {
    forall i :: 0 <= i < |s| ==> s[i] == '-' || '0' <= s[i] <= '9' || 'a' <= s[i] <= 'z'
  }

  lemma PlainIfLowercase(e: Entry)
    requires e.name != "" && Lowercase(e.name) && e.digest != "" && Lowercase(e.digest) && |Line(e)| <= MAX_LINE
    ensures Plain(e)
  {}

  ghost predicate PlainListing(es: seq<Entry>) {
    && (forall i :: 0 <= i < |es| ==> Plain(es[i]))
    && (forall i, j :: 0 <= i < j < |es| ==> es[i].name != es[j].name)
  }

  lemma SpaceFreeIsOneLine(e: Entry)
    requires Plain(e)
    ensures Free(Line(e), IsNewline) && DropCR(Line(e)) == Line(e)
  {
    assert !IsSpace(e.name[|e.name| - 1]);
    forall i | 0 <= i < |Line(e)| ensures !IsNewline(Line(e)[i]) {
      if i < |e.digest| {
        assert !IsSpace(e.digest[i]);
      } else if i >= |e.digest| + 2 {
        assert !IsSpace(e.name[i - |e.digest| - 2]);
      }
    }
  }

  lemma TakeWord(w: string, rest: string)
    requires Free(w, IsSpace) && (rest == "" || IsSpace(rest[0]))
    ensures TakeUntil(w + rest, IsSpace) == w
  {
    TakeUntilAppend(w, rest, IsSpace);
    assert TakeUntil(rest, IsSpace) == "";
  }

  lemma ReadLine(e: Entry)
    requires Plain(e)
    ensures EntryOf(Line(e)) == Some(e)
  {
    hide TakeUntil;
    SpaceFreeIsOneLine(e);
    var line := Line(e);
    assert !IsSpace(e.digest[0]) && line[0] == e.digest[0];
    TakeWord(e.digest, "  " + e.name);
    assert line[|e.digest|..] == "  " + e.name;
    assert !IsSpace(e.name[0]);
    assert ("  " + e.name)[1..] == " " + e.name && (" " + e.name)[1..] == e.name;
    assert TrimLeft("  " + e.name) == TrimLeft(" " + e.name) == TrimLeft(e.name) == e.name;
    TakeWord(e.name, "");
    assert e.name + "" == e.name && e.name[|e.name|..] == "";
    assert Fields("") == [];
    assert Fields("  " + e.name) == [e.name];
    assert Fields(line) == [e.digest, e.name];
  }

  lemma FirstLine(line: string, rest: string)
    requires Free(line, IsNewline)
    ensures Lines(line + ("\n" + rest)) == [line] + Lines(rest)
  {
    hide TakeUntil;
    var s := line + ("\n" + rest);
    TakeUntilAppend(line, "\n" + rest, IsNewline);
    assert IsNewline(("\n" + rest)[0]);
    assert TakeUntil(s, IsNewline) == line;
    assert s[|line| + 1..] == rest;
  }

  lemma {:induction false} LinesOfListing(es: seq<Entry>)
    requires forall i :: 0 <= i < |es| ==> Plain(es[i])
    ensures |Lines(Listing(es))| == |es|
    ensures forall i :: 0 <= i < |es| ==> Lines(Listing(es))[i] == Line(es[i])
  {
    hide Lines, Line, Plain;
    if es == [] {
      NoSums();
    } else {
      SpaceFreeIsOneLine(es[0]);
      FirstLine(Line(es[0]), Listing(es[1..]));
      LinesOfListing(es[1..]);
    }
  }

  /** The reader undoes the generator: exactly the files listed, each with its digest. */
  lemma ReadGenerated(es: seq<Entry>)
    requires es != [] && PlainListing(es) && |Listing(es)| <= MAX_BODY
    ensures Read(Listing(es)).Ok?
    ensures var m := Read(Listing(es)).value;
            && (forall i :: 0 <= i < |es| ==> es[i].name in m && m[es[i].name] == es[i].digest)
            && (forall name :: name in m ==> exists i :: 0 <= i < |es| && es[i].name == name)
  {
    hide EntryOf, Lines, Sums, Listing, Line;
    var lines := Lines(Listing(es));
    LinesOfListing(es);
    forall i | 0 <= i < |es| ensures EntryOf(lines[i]) == Some(es[i]) { ReadLine(es[i]); }
    var m := Sums(lines);
    forall i | 0 <= i < |es| ensures es[i].name in m && m[es[i].name] == es[i].digest {
      LastLineWins(lines, es[i].name, es[i].digest);
      assert LastNaming(lines, i, es[i].name, es[i].digest);
    }
    assert es[0].name in m;
    forall name | name in m ensures exists i :: 0 <= i < |es| && es[i].name == name {
      LastLineWins(lines, name, m[name]);
      var i: nat :| LastNaming(lines, i, name, m[name]);
      assert es[i].name == name;
    }
  }
}
