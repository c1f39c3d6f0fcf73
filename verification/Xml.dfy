/**
 The recursive XML printer of the RESTCONF answers, with a reader that undoes it.
 A map is the sequence of its entries in whatever order the iteration happens to visit
 them, so a statement about every sequence is one about every key order.
 */
module Xml {
  import opened Text

  datatype Field = Field(key: string, val: Value)

  datatype Branch = Branch(fields: seq<Field>)

  datatype Item = SubTree(fields: seq<Field>) | Plain(text: string)

  /** A leaf printed with %v, a boolean, a map, a list of maps, or a list of anything. */
  datatype Value =
    | Leaf(text: string)
    | Flag(on: bool)
    | Tree(fields: seq<Field>)
    | Trees(trees: seq<Branch>)
    | Mixed(items: seq<Item>)

  /** What the document says: lists are flattened to repeated elements. */
  datatype Elem = Text(name: string, text: string) | Node(name: string, kids: seq<Elem>)

  function Elements(fs: seq<Field>): seq<Elem>
    decreases fs
  {
    if fs == [] then [] else ElementsOf(fs[0].key, fs[0].val) + Elements(fs[1..])
  }

  function ElementsOf(key: string, v: Value): seq<Elem>
    decreases v
  {
    match v
    case Leaf(text) => [Text(key, text)]
    case Flag(on) => [Text(key, if on then "true" else "false")]
    case Tree(fields) => [Node(key, Elements(fields))]
    case Trees(trees) => TreeElements(key, trees)
    case Mixed(items) => ItemElements(key, items)
  }

  function TreeElements(key: string, trees: seq<Branch>): seq<Elem>
    decreases trees
  {
    if trees == [] then [] else [Node(key, Elements(trees[0].fields))] + TreeElements(key, trees[1..])
  }

  function ItemElements(key: string, items: seq<Item>): seq<Elem>
    decreases items
  {
    if items == [] then [] else [ItemElement(key, items[0])] + ItemElements(key, items[1..])
  }

  function ItemElement(key: string, item: Item): Elem
    decreases item
  {
    match item
    case SubTree(fields) => Node(key, Elements(fields))
    case Plain(text) => Text(key, text)
  }

  // ---- Printing ----

  function Indent(n: nat): (s: string)
    ensures |s| == 2 * n && forall i :: 0 <= i < |s| ==> s[i] == ' '
  {
    if n == 0 then "" else "  " + Indent(n - 1)
  }

  function Open(name: string): string { "<" + name + ">" }

  function Close(name: string): string { "</" + name + ">" }

  function Render(es: seq<Elem>, indent: nat): string
    decreases es
  {
    if es == [] then "" else RenderOne(es[0], indent) + Render(es[1..], indent)
  }

  function RenderOne(e: Elem, indent: nat): string
    decreases e
  {
    match e
    case Text(name, text) => Indent(indent) + Open(name) + text + Close(name) + "\n"
    case Node(name, kids) =>
      Indent(indent) + Open(name) + "\n" + Render(kids, indent + 1) + Indent(indent) + Close(name) + "\n"
  }

  lemma {:induction false} RenderAppend(es: seq<Elem>, es': seq<Elem>, indent: nat)
    ensures Render(es + es', indent) == Render(es, indent) + Render(es', indent)
  {
    if es == [] {
      assert es + es' == es';
    } else {
      assert (es + es')[1..] == es[1..] + es';
      RenderAppend(es[1..], es', indent);
    }
  }

  class Builder {
    var text: string

    constructor ()
      ensures text == ""
    {
      text := "";
    }

    method Write(s: string)
      modifies this
      ensures text == old(text) + s
    {
      text := text + s;
    }
  }

  method WriteNode(sb: Builder, key: string, fields: seq<Field>, indent: nat)
    modifies sb
    ensures sb.text == old(sb.text) + RenderOne(Node(key, Elements(fields)), indent)
    decreases fields, 1
  {
    hide Indent, Open, Close, Elements;
    sb.Write(Indent(indent) + Open(key) + "\n");
    WriteXMLMap(sb, fields, indent + 1);
    sb.Write(Indent(indent) + Close(key) + "\n");
  }

  method WriteLeaf(sb: Builder, key: string, text: string, indent: nat)
    modifies sb
    ensures sb.text == old(sb.text) + RenderOne(Text(key, text), indent)
  {
    sb.Write(Indent(indent) + Open(key) + text + Close(key) + "\n");
  }

  /** The printer appends exactly the rendering of the flattened map. */
  method WriteXMLMap(sb: Builder, m: seq<Field>, indent: nat)
    modifies sb
    ensures sb.text == old(sb.text) + Render(Elements(m), indent)
    decreases m, 0
  {
    hide Render, Elements, ElementsOf;
    for i := 0 to |m|
      invariant sb.text + Render(Elements(m[i..]), indent) == old(sb.text) + Render(Elements(m), indent)
    {
      RenderField(m, i, indent);
      WriteField(sb, m[i], indent);
    }
    RenderNothing(indent);
    assert m[|m|..] == [];
    assert sb.text + "" == sb.text;
  }

  lemma RenderField(m: seq<Field>, i: nat, indent: nat)
    requires i < |m|
    ensures Render(Elements(m[i..]), indent)
            == Render(ElementsOf(m[i].key, m[i].val), indent) + Render(Elements(m[i + 1..]), indent)
  {
    hide Render, ElementsOf;
    assert m[i..][1..] == m[i + 1..];
    RenderAppend(ElementsOf(m[i].key, m[i].val), Elements(m[i + 1..]), indent);
  }

  lemma RenderNothing(indent: nat)
    ensures Render(Elements([]), indent) == ""
  {}

  method WriteField(sb: Builder, f: Field, indent: nat)
    modifies sb
    ensures sb.text == old(sb.text) + Render(ElementsOf(f.key, f.val), indent)
    decreases f
  {
    hide RenderOne, Elements;
    match f.val
    case Leaf(text) => WriteLeaf(sb, f.key, text, indent);
    case Flag(on) => WriteLeaf(sb, f.key, if on then "true" else "false", indent);
    case Tree(fields) => WriteNode(sb, f.key, fields, indent);
    case Trees(trees) => WriteTrees(sb, f.key, trees, indent);
    case Mixed(items) => WriteItems(sb, f.key, items, indent);
  }

  method WriteTrees(sb: Builder, key: string, trees: seq<Branch>, indent: nat)
    modifies sb
    ensures sb.text == old(sb.text) + Render(TreeElements(key, trees), indent)
    decreases trees
  {
    hide RenderOne, Elements;
    for i := 0 to |trees|
      invariant sb.text + Render(TreeElements(key, trees[i..]), indent)
                == old(sb.text) + Render(TreeElements(key, trees), indent)
    {
      WriteNode(sb, key, trees[i].fields, indent);
      assert trees[i..][1..] == trees[i + 1..];
    }
  }

  method WriteItems(sb: Builder, key: string, items: seq<Item>, indent: nat)
    modifies sb
    ensures sb.text == old(sb.text) + Render(ItemElements(key, items), indent)
    decreases items
  {
    hide RenderOne, Elements;
    for i := 0 to |items|
      invariant sb.text + Render(ItemElements(key, items[i..]), indent)
                == old(sb.text) + Render(ItemElements(key, items), indent)
    {
      match items[i] {
        case SubTree(fields) => WriteNode(sb, key, fields, indent);
        case Plain(text) => WriteLeaf(sb, key, text, indent);
      }
      assert items[i..][1..] == items[i + 1..];
    }
  }

  // ---- Reading back ----

  predicate IsBlank(c: char) { c == ' ' || c == '\n' }

  predicate IsLess(c: char) { c == '<' }

  predicate IsGreater(c: char) { c == '>' }

  function SkipBlank(s: string): (r: string)
    ensures |r| <= |s|
  {
    if s != "" && IsBlank(s[0]) then SkipBlank(s[1..]) else s
  }

  datatype Read = Read(elems: seq<Elem>, rest: string) | NotNested

  /** If s begins with the prefix, what follows it. */
  function After(s: string, prefix: string): (r: Read)
    ensures r.Read? <==> prefix <= s
    ensures r.Read? ==> s == prefix + r.rest
  {
    if prefix <= s then Read([], s[|prefix|..]) else NotNested
  }

  /**
   Reads a run of elements up to the end of the text or the next closing tag. An element
   whose content starts with a newline holds elements; any other holds text. Every closing
   tag must carry the name of the innermost open element (section 3.1 of XML 1.0).
   */
  function ReadElements(s: string): (r: Read)
    ensures r.Read? ==> |r.rest| <= |s|
    decreases |s|, 0
  {
    var t := SkipBlank(s);
    if t == "" || "</" <= t then Read([], t)
    else if t[0] != '<' then NotNested
    else
      var name := TakeUntil(t[1..], IsGreater);
      if |name| + 1 == |t| then NotNested else ReadBody(name, t[|name| + 2..])
  }

  /** The rest of an element whose opening tag has been read, and what follows it. */
  function ReadBody(name: string, body: string): (r: Read)
    ensures r.Read? ==> |r.rest| <= |body|
    decreases |body|, 1
  {
    var nested := body != "" && body[0] == '\n';
    var text := TakeUntil(body, IsLess);
    var inner := if nested then ReadElements(body) else Read([], body[|text|..]);
    if inner.NotNested? then NotNested
    else
      var closed := After(inner.rest, Close(name));
      if closed.NotNested? then NotNested
      else
        var more := ReadElements(closed.rest);
        if more.NotNested? then NotNested
        else Read([if nested then Node(name, inner.elems) else Text(name, text)] + more.elems, more.rest)
  }

  /** Names that are plain, and texts that cannot be mistaken for markup. */
  ghost predicate Clean(es: seq<Elem>)
    decreases es
  {
    es != [] ==> CleanOne(es[0]) && Clean(es[1..])
  }

  ghost predicate CleanOne(e: Elem)
    decreases e
  {
    && e.name != "" && e.name[0] != '/' && Free(e.name, IsGreater)
    && match e
       case Text(_, text) => Free(text, IsLess) && (text != "" ==> text[0] != '\n')
       case Node(_, kids) => Clean(kids)
  }

  lemma {:induction false} SkipIndent(n: nat, s: string)
    ensures SkipBlank(Indent(n) + s) == SkipBlank(s)
  {
    if n == 0 {
      assert Indent(n) + s == s;
    } else {
      assert (Indent(n) + s)[1..] == " " + (Indent(n - 1) + s);
      assert (" " + (Indent(n - 1) + s))[1..] == Indent(n - 1) + s;
      SkipIndent(n - 1, s);
    }
  }

  /** The text the rest of which is closed: nothing, or a closing tag after blanks. */
  ghost predicate EndsRun(tail: string) { SkipBlank(tail) == "" || "</" <= SkipBlank(tail) }

  lemma ReadOpen(name: string, indent: nat, body: string)
    requires name != "" && name[0] != '/' && Free(name, IsGreater)
    ensures ReadElements(Indent(indent) + (Open(name) + body)) == ReadBody(name, body)
  {
    hide ReadBody, TakeUntil, Indent, Open;
    var t := Open(name) + body;
    SkipIndent(indent, t);
    OpenTag(name, body);
    assert SkipBlank(t) == t && !("</" <= t);
  }

  /** An opening tag, taken apart. */
  lemma OpenTag(name: string, body: string)
    requires name != "" && Free(name, IsGreater)
    ensures var t := Open(name) + body;
            && |t| == |name| + 2 + |body| && t[0] == '<' && t[1] == name[0]
            && TakeUntil(t[1..], IsGreater) == name && t[|name| + 2..] == body
  {
    hide TakeUntil;
    var t := Open(name) + body;
    assert t[1..] == name + (">" + body);
    TakeUntilAppend(name, ">" + body, IsGreater);
    TakeNothing(">" + body, IsGreater);
  }

  lemma AfterPrefix(prefix: string, rest: string)
    ensures After(prefix + rest, prefix) == Read([], rest)
  {
    assert (prefix + rest)[|prefix|..] == rest;
  }

  lemma ReadText(name: string, text: string, tail: string)
    requires CleanOne(Text(name, text)) && ReadElements("\n" + tail).Read?
    ensures var more := ReadElements("\n" + tail);
            ReadBody(name, text + (Close(name) + ("\n" + tail))) == Read([Text(name, text)] + more.elems, more.rest)
  {
    hide TakeUntil, ReadElements;
    var end := Close(name) + ("\n" + tail);
    var body := text + end;
    assert IsLess(end[0]);
    TakeUntilAppend(text, end, IsLess);
    assert TakeUntil(body, IsLess) == text;
    assert body[|text|..] == end;
    assert body[0] != '\n';
    AfterPrefix(Close(name), "\n" + tail);
  }

  lemma ReadNode(name: string, kids: seq<Elem>, body: string, tail: string)
    requires body != "" && body[0] == '\n' && ReadElements("\n" + tail).Read?
    requires ReadElements(body) == Read(kids, Close(name) + ("\n" + tail))
    ensures var more := ReadElements("\n" + tail);
            ReadBody(name, body) == Read([Node(name, kids)] + more.elems, more.rest)
  {
    hide TakeUntil, ReadElements;
    AfterPrefix(Close(name), "\n" + tail);
  }

  lemma EndOfRun(indent: nat, tail: string)
    requires EndsRun(tail)
    ensures ReadElements("\n" + (Render([], indent) + tail)) == Read([], SkipBlank(tail))
  {
    assert Render([], indent) + tail == tail;
    NewlineFirst(tail);
  }

  lemma RenderStep(es: seq<Elem>, indent: nat, tail: string)
    requires es != []
    ensures Render(es, indent) + tail == RenderOne(es[0], indent) + (Render(es[1..], indent) + tail)
  {
    hide RenderOne;
  }

  /**
   The reader recovers the printed elements exactly, at any depth and indentation; in
   particular every element of the output is closed by its own name, in order.
   */
  lemma {:induction false} ReadRendered(es: seq<Elem>, indent: nat, tail: string)
    requires Clean(es) && EndsRun(tail)
    ensures ReadElements("\n" + (Render(es, indent) + tail)) == Read(es, SkipBlank(tail))
    decreases es
  {
    hide ReadElements, RenderOne, Render, EndsRun;
    if es == [] {
      EndOfRun(indent, tail);
    } else {
      ReadRendered(es[1..], indent, tail);
      ReadOne(es[0], indent, Render(es[1..], indent) + tail);
      RenderStep(es, indent, tail);
      assert [es[0]] + es[1..] == es;
    }
  }

  /** What follows the opening tag of a printed element. */
  function Body(e: Elem, indent: nat, tail: string): string {
    var close := Close(e.name) + ("\n" + tail);
    match e
    case Text(_, text) => text + close
    case Node(_, kids) => "\n" + (Render(kids, indent + 1) + (Indent(indent) + close))
  }

  lemma PrintedAsBody(e: Elem, indent: nat, tail: string)
    ensures RenderOne(e, indent) + tail == Indent(indent) + (Open(e.name) + Body(e, indent, tail))
  {
    hide Indent, Render, Open, Close;
  }

  lemma {:induction false} ReadOne(e: Elem, indent: nat, tail: string)
    requires CleanOne(e) && ReadElements("\n" + tail).Read?
    ensures var more := ReadElements("\n" + tail);
            ReadElements("\n" + (RenderOne(e, indent) + tail)) == Read([e] + more.elems, more.rest)
    decreases e
  {
    hide ReadBody, TakeUntil, Indent, RenderOne, Open;
    var body := Body(e, indent, tail);
    match e {
      case Text(name, text) => ReadText(name, text, tail);
      case Node(name, kids) =>
        var close := Close(name) + ("\n" + tail);
        assert close[0] == '<' && close[1] == '/';
        SkipIndent(indent, close);
        ReadRendered(kids, indent + 1, Indent(indent) + close);
        ReadNode(name, kids, body, tail);
    }
    ReadOpen(e.name, indent, body);
    PrintedAsBody(e, indent, tail);
    NewlineFirst(RenderOne(e, indent) + tail);
  }

  lemma NewlineFirst(s: string)
    ensures ReadElements("\n" + s) == ReadElements(s)
  {
    assert ("\n" + s)[1..] == s;
  }

  // ---- Whole documents ----

  /** The printer's output, read back, is the flattened map: nothing lost, every element closed. */
  lemma ReadPrinted(m: seq<Field>, indent: nat)
    requires Clean(Elements(m))
    ensures ReadElements(Render(Elements(m), indent)) == Read(Elements(m), "")
  {
    ReadRendered(Elements(m), indent, "");
    assert Render(Elements(m), indent) + "" == Render(Elements(m), indent);
    NewlineFirst(Render(Elements(m), indent));
  }

  ghost predicate DistinctKeys(m: seq<Field>) {
    forall i, j :: 0 <= i < j < |m| ==> m[i].key != m[j].key
  }

  function Named(es: seq<Elem>, key: string): (r: seq<Elem>)
    ensures forall e :: e in r <==> e in es && e.name == key
  {
    if es == [] then []
    else (if es[0].name == key then [es[0]] else []) + Named(es[1..], key)
  }

  lemma {:induction false} NamedAppend(es: seq<Elem>, es': seq<Elem>, key: string)
    ensures Named(es + es', key) == Named(es, key) + Named(es', key)
  {
    if es == [] {
      assert es + es' == es';
    } else {
      var all := es + es';
      assert all[0] == es[0] && all[1..] == es[1..] + es';
      NamedAppend(es[1..], es', key);
      var first := if es[0].name == key then [es[0]] else [];
      assert first + Named(es[1..], key) + Named(es', key) == first + (Named(es[1..], key) + Named(es', key));
    }
  }

  /** All elements of one entry carry its key. */
  lemma {:induction false} NamedUniform(es: seq<Elem>, name: string, key: string)
    requires forall i :: 0 <= i < |es| ==> es[i].name == name
    ensures Named(es, key) == if key == name then es else []
  {
    if es == [] {
    } else {
      assert es[0].name == name && es == [es[0]] + es[1..];
      NamedUniform(es[1..], name, key);
    }
  }

  lemma EntryUniform(f: Field)
    ensures forall i :: 0 <= i < |ElementsOf(f.key, f.val)| ==> ElementsOf(f.key, f.val)[i].name == f.key
  {
    match f.val
    case Trees(trees) => TreesUniform(f.key, trees);
    case Mixed(items) => ItemsUniform(f.key, items);
    case _ =>
  }

  lemma {:induction false} TreesUniform(key: string, trees: seq<Branch>)
    ensures |TreeElements(key, trees)| == |trees|
    ensures forall i :: 0 <= i < |trees| ==> TreeElements(key, trees)[i] == Node(key, Elements(trees[i].fields))
  {
    if trees == [] {
    } else {
      TreesUniform(key, trees[1..]);
    }
  }

  lemma {:induction false} ItemsUniform(key: string, items: seq<Item>)
    ensures |ItemElements(key, items)| == |items|
    ensures forall i :: 0 <= i < |items| ==> ItemElements(key, items)[i] == ItemElement(key, items[i])
  {
    if items == [] {
    } else {
      ItemsUniform(key, items[1..]);
    }
  }

  /**
   Key order is immaterial: whatever order the map was visited in, a reader finds under each
   key exactly that key's elements, a list's in list order.
   */
  lemma {:induction false} FieldRecovered(m: seq<Field>, k: nat)
    requires DistinctKeys(m) && k < |m|
    ensures Named(Elements(m), m[k].key) == ElementsOf(m[k].key, m[k].val)
  {
    hide ElementsOf, Named;
    var first, key := ElementsOf(m[0].key, m[0].val), m[k].key;
    NamedAppend(first, Elements(m[1..]), key);
    EntryUniform(m[0]);
    NamedUniform(first, m[0].key, key);
    if k == 0 {
      AbsentKey(m[1..], key);
    } else {
      FieldRecovered(m[1..], k - 1);
    }
  }

  lemma {:induction false} AbsentKey(m: seq<Field>, key: string)
    requires forall i :: 0 <= i < |m| ==> m[i].key != key
    ensures Named(Elements(m), key) == []
  {
    if m == [] {
    } else {
      var first := ElementsOf(m[0].key, m[0].val);
      NamedAppend(first, Elements(m[1..]), key);
      EntryUniform(m[0]);
      NamedUniform(first, m[0].key, key);
      AbsentKey(m[1..], key);
    }
  }

  function Keys(m: seq<Field>): set<string> { set i | 0 <= i < |m| :: m[i].key }

  /** Two visits of one map: the same keys, the same values, every map in them visited in any order. */
  ghost predicate SameMap(m: seq<Field>, m': seq<Field>)
    decreases m
  {
    && DistinctKeys(m) && DistinctKeys(m') && Keys(m) == Keys(m')
    && forall i, j :: 0 <= i < |m| && 0 <= j < |m'| && m[i].key == m'[j].key ==> SameValue(m[i].val, m'[j].val)
  }

  ghost predicate SameValue(v: Value, v': Value)
    decreases v
  {
    match v
    case Leaf(text) => v == v'
    case Flag(on) => v == v'
    case Tree(fields) => v'.Tree? && SameMap(fields, v'.fields)
    case Trees(trees) =>
      && v'.Trees? && |v'.trees| == |trees|
      && forall i :: 0 <= i < |trees| ==> SameMap(trees[i].fields, v'.trees[i].fields)
    case Mixed(items) =>
      && v'.Mixed? && |v'.items| == |items|
      && forall i :: 0 <= i < |items| ==> SameItem(items[i], v'.items[i])
  }

  ghost predicate SameItem(x: Item, x': Item)
    decreases x
  {
    match x
    case SubTree(fields) => x'.SubTree? && SameMap(fields, x'.fields)
    case Plain(text) => x == x'
  }

  /**
   The same document up to the order of differently named siblings: under each name there
   are the same elements in the same order, and so at every depth.
   */
  ghost predicate Alike(es: seq<Elem>, es': seq<Elem>)
    decreases es
  {
    forall name :: AlikeUnder(es, es', name)
  }

  ghost predicate AlikeUnder(es: seq<Elem>, es': seq<Elem>, name: string)
    decreases es, 0
  {
    var r, r' := Named(es, name), Named(es', name);
    |r| == |r'| && forall i :: 0 <= i < |r| ==> r[i] in es && AlikeOne(r[i], r'[i])
  }

  ghost predicate AlikeOne(e: Elem, e': Elem)
    decreases e
  {
    match e
    case Text(_, _) => e == e'
    case Node(name, kids) => e'.Node? && e'.name == name && Alike(kids, e'.kids)
  }

  /** The elements of one entry do not depend on the order its maps were visited in. */
  lemma {:induction false} EntryAlike(key: string, v: Value, v': Value)
    requires SameValue(v, v')
    ensures |ElementsOf(key, v)| == |ElementsOf(key, v')|
    ensures forall i :: 0 <= i < |ElementsOf(key, v)| ==> AlikeOne(ElementsOf(key, v)[i], ElementsOf(key, v')[i])
    decreases v
  {
    hide Elements, SameMap, Alike;
    match v
    case Tree(fields) => OrderImmaterial(fields, v'.fields);
    case Trees(trees) =>
      TreesUniform(key, trees);
      TreesUniform(key, v'.trees);
      forall i | 0 <= i < |trees| ensures AlikeOne(ElementsOf(key, v)[i], ElementsOf(key, v')[i]) {
        OrderImmaterial(trees[i].fields, v'.trees[i].fields);
      }
    case Mixed(items) =>
      ItemsUniform(key, items);
      ItemsUniform(key, v'.items);
      forall i | 0 <= i < |items| ensures AlikeOne(ElementsOf(key, v)[i], ElementsOf(key, v')[i]) {
        ItemAlike(key, items[i], v'.items[i]);
      }
    case _ =>
  }

  lemma {:induction false} ItemAlike(key: string, x: Item, x': Item)
    requires SameItem(x, x')
    ensures AlikeOne(ItemElement(key, x), ItemElement(key, x'))
    decreases x
  {
    hide Elements, SameMap, Alike;
    if x.SubTree? { OrderImmaterial(x.fields, x'.fields); }
  }

  /**
   Key order is immaterial at every depth: two visits of one map, each of its maps visited in
   any order of its own, print the same document up to the order of differently named siblings.
   */
  lemma {:induction false} OrderImmaterial(m: seq<Field>, m': seq<Field>)
    requires SameMap(m, m')
    ensures Alike(Elements(m), Elements(m'))
    decreases m
  {
    forall name ensures AlikeUnder(Elements(m), Elements(m'), name) { AlikeUnderKey(m, m', name); }
  }

  lemma {:induction false} AlikeUnderKey(m: seq<Field>, m': seq<Field>, key: string)
    requires SameMap(m, m')
    ensures AlikeUnder(Elements(m), Elements(m'), key)
    decreases m, 0
  {
    hide Elements, ElementsOf, SameValue, AlikeOne;
    assert key in Keys(m) <==> key in Keys(m');
    if key in Keys(m) {
      var i :| 0 <= i < |m| && m[i].key == key;
      var j :| 0 <= j < |m'| && m'[j].key == key;
      FieldRecovered(m, i);
      FieldRecovered(m', j);
      EntryAlike(key, m[i].val, m'[j].val);
    } else {
      AbsentKey(m, key);
      AbsentKey(m', key);
    }
  }

  /** A document like a clean one is clean. */
  lemma {:induction false} CleanAlike(es: seq<Elem>, es': seq<Elem>)
    requires Alike(es, es') && Clean(es)
    ensures Clean(es')
    decreases es
  {
    hide Alike, AlikeOne, CleanOne;
    forall k | 0 <= k < |es'| ensures CleanOne(es'[k]) {
      var r, r' := Named(es, es'[k].name), Named(es', es'[k].name);
      assert AlikeUnder(es, es', es'[k].name) by { AlikeAt(es, es', es'[k].name); }
      assert es'[k] in r';
      var i :| 0 <= i < |r'| && r'[i] == es'[k];
      CleanAt(es, r[i]);
      CleanOneAlike(r[i], r'[i]);
    }
    CleanAll(es');
  }

  lemma {:induction false} CleanOneAlike(e: Elem, e': Elem)
    requires AlikeOne(e, e') && CleanOne(e)
    ensures CleanOne(e')
    decreases e
  {
    hide Alike, Clean;
    if e.Node? { CleanAlike(e.kids, e'.kids); }
  }

  lemma AlikeAt(es: seq<Elem>, es': seq<Elem>, name: string)
    requires Alike(es, es')
    ensures AlikeUnder(es, es', name)
  {}

  lemma {:induction false} CleanAt(es: seq<Elem>, e: Elem)
    requires Clean(es) && e in es
    ensures CleanOne(e)
  {
    hide CleanOne;
    if e != es[0] { CleanAt(es[1..], e); }
  }

  lemma {:induction false} CleanAll(es: seq<Elem>)
    requires forall k :: 0 <= k < |es| ==> CleanOne(es[k])
    ensures Clean(es)
  {
    hide CleanOne;
    if es == [] {
    } else {
      CleanAll(es[1..]);
    }
  }

  /**
   So a reader recovers the map up to key order, whatever the order it was printed in: both
   printouts read back in full, as the same document up to the order of differently named
   siblings, at every depth.
   */
  lemma PrintoutsAlike(m: seq<Field>, m': seq<Field>, indent: nat)
    requires SameMap(m, m') && Clean(Elements(m))
    ensures var r, r' := ReadElements(Render(Elements(m), indent)), ReadElements(Render(Elements(m'), indent));
            && r.Read? && r'.Read? && r.rest == r'.rest == ""
            && r.elems == Elements(m) && Alike(r.elems, r'.elems)
  {
    hide Elements, ReadElements, Alike, SameMap;
    OrderImmaterial(m, m');
    CleanAlike(Elements(m), Elements(m'));
    ReadPrinted(m, indent);
    ReadPrinted(m', indent);
  }

  // ---- What a document says, told from the values ----

  /** The children say the map: under each key what its value asks for, and nothing under any other name. */
  ghost predicate SaysMap(m: seq<Field>, kids: seq<Elem>)
    decreases m
  {
    && (forall i :: 0 <= i < |m| ==> Says(m[i].val, Named(kids, m[i].key)))
    && (forall e :: e in kids ==> exists i :: 0 <= i < |m| && m[i].key == e.name)
  }

  /** What is found under a value's key says the value. */
  ghost predicate Says(v: Value, found: seq<Elem>)
    decreases v
  {
    match v
    case Leaf(text) => |found| == 1 && SaysText(text, found[0])
    case Flag(true) => |found| == 1 && SaysText("true", found[0])
    case Flag(false) => |found| == 1 && SaysText("false", found[0])
    case Tree(fields) => |found| == 1 && found[0].Node? && SaysMap(fields, found[0].kids)
    case Trees(trees) =>
      && |found| == |trees|
      && forall i :: 0 <= i < |trees| ==> found[i].Node? && SaysMap(trees[i].fields, found[i].kids)
    case Mixed(items) => |found| == |items| && forall i :: 0 <= i < |items| ==> SaysItem(items[i], found[i])
  }

  ghost predicate SaysItem(x: Item, e: Elem)
    decreases x
  {
    match x
    case SubTree(fields) => e.Node? && SaysMap(fields, e.kids)
    case Plain(text) => SaysText(text, e)
  }

  predicate SaysText(text: string, e: Elem) { e.Text? && e.text == text }

  /** A map as the program builds it: keys plain and once each, no text taken for markup, at every depth. */
  ghost predicate PlainMap(m: seq<Field>)
    decreases m
  {
    DistinctKeys(m) && forall i :: 0 <= i < |m| ==> PlainKey(m[i].key) && PlainValue(m[i].val)
  }

  ghost predicate PlainValue(v: Value)
    decreases v
  {
    match v
    case Leaf(text) => PlainText(text)
    case Flag(_) => true
    case Tree(fields) => PlainMap(fields)
    case Trees(trees) => forall i :: 0 <= i < |trees| ==> PlainMap(trees[i].fields)
    case Mixed(items) => forall i :: 0 <= i < |items| ==> PlainItem(items[i])
  }

  ghost predicate PlainItem(x: Item)
    decreases x
  {
    match x
    case SubTree(fields) => PlainMap(fields)
    case Plain(text) => PlainText(text)
  }

  ghost predicate PlainKey(key: string) { key != "" && key[0] != '/' && Free(key, IsGreater) }

  ghost predicate PlainText(text: string) { Free(text, IsLess) && (text != "" ==> text[0] != '\n') }

  lemma {:induction false} FlatMapSays(m: seq<Field>)
    requires PlainMap(m)
    ensures SaysMap(m, Elements(m))
    decreases m
  {
    hide Elements, ElementsOf, Says;
    forall i | 0 <= i < |m| ensures Says(m[i].val, Named(Elements(m), m[i].key)) {
      FieldRecovered(m, i);
      FlatValueSays(m[i].key, m[i].val);
    }
    NamesAreKeys(m);
  }

  lemma {:induction false} FlatValueSays(key: string, v: Value)
    requires PlainValue(v)
    ensures Says(v, ElementsOf(key, v))
    decreases v
  {
    hide Elements, SaysMap, PlainMap;
    match v
    case Tree(fields) => FlatMapSays(fields);
    case Trees(trees) =>
      TreesUniform(key, trees);
      forall i | 0 <= i < |trees| ensures SaysMap(trees[i].fields, Elements(trees[i].fields)) {
        FlatMapSays(trees[i].fields);
      }
    case Mixed(items) =>
      ItemsUniform(key, items);
      forall i | 0 <= i < |items| ensures SaysItem(items[i], ItemElement(key, items[i])) {
        FlatItemSays(key, items[i]);
      }
    case _ =>
  }

  lemma {:induction false} FlatItemSays(key: string, x: Item)
    requires PlainItem(x)
    ensures SaysItem(x, ItemElement(key, x))
    decreases x
  {
    hide Elements, SaysMap, PlainMap;
    if x.SubTree? { FlatMapSays(x.fields); }
  }

  lemma {:induction false} NamesAreKeys(m: seq<Field>)
    ensures forall e :: e in Elements(m) ==> exists i :: 0 <= i < |m| && m[i].key == e.name
  {
    hide ElementsOf;
    if m == [] {
    } else {
      var first, rest := ElementsOf(m[0].key, m[0].val), Elements(m[1..]);
      EntryUniform(m[0]);
      NamesAreKeys(m[1..]);
      forall e | e in Elements(m) ensures exists i :: 0 <= i < |m| && m[i].key == e.name {
        if e in rest {
          var i :| 0 <= i < |m[1..]| && m[1..][i].key == e.name;
          assert m[i + 1].key == e.name;
        } else {
          assert e in first && m[0].key == e.name;
        }
      }
    }
  }

  lemma {:induction false} PlainMapClean(m: seq<Field>)
    requires PlainMap(m)
    ensures Clean(Elements(m))
    decreases m, 0
  {
    PlainFieldsClean(m, |m|);
    assert m[..|m|] == m;
  }

  lemma {:induction false} PlainFieldsClean(m: seq<Field>, n: nat)
    requires PlainMap(m) && n <= |m|
    ensures Clean(Elements(m[|m| - n..]))
    decreases m, 0, n
  {
    hide ElementsOf, CleanOne, Named;
    if n == 0 {
      assert m[|m| - n..] == [];
    } else {
      var rest := m[|m| - n..];
      assert rest[0] == m[|m| - n] && rest[1..] == m[|m| - (n - 1)..];
      PlainValueClean(rest[0].key, rest[0].val);
      PlainFieldsClean(m, n - 1);
      CleanAppend(ElementsOf(rest[0].key, rest[0].val), Elements(rest[1..]));
    }
  }

  lemma {:induction false} CleanAppend(es: seq<Elem>, es': seq<Elem>)
    requires Clean(es) && Clean(es')
    ensures Clean(es + es')
  {
    hide CleanOne;
    if es == [] {
      assert es + es' == es';
    } else {
      assert (es + es')[0] == es[0] && (es + es')[1..] == es[1..] + es';
      CleanAppend(es[1..], es');
    }
  }

  lemma {:induction false} PlainValueClean(key: string, v: Value)
    requires PlainKey(key) && PlainValue(v)
    ensures Clean(ElementsOf(key, v))
    decreases v
  {
    hide Elements, PlainMap, Clean;
    var es := ElementsOf(key, v);
    match v {
      case Leaf(_) =>
      case Flag(_) =>
      case Tree(fields) => PlainMapClean(fields);
      case Trees(trees) =>
        TreesUniform(key, trees);
        forall i | 0 <= i < |trees| ensures CleanOne(es[i]) { PlainMapClean(trees[i].fields); }
      case Mixed(items) =>
        ItemsUniform(key, items);
        forall i | 0 <= i < |items| ensures CleanOne(es[i]) {
          if items[i].SubTree? { PlainMapClean(items[i].fields); }
        }
    }
    CleanAll(es);
  }

  /**
   What a reader of the printed text finds says the map: a leaf as its own text, true as
   "true" and false as "false", a map as one element whose children say it, and a list as one
   element for each item, in order, each saying its item, at every depth.
   */
  lemma PrintoutSays(m: seq<Field>, indent: nat)
    requires PlainMap(m)
    ensures var r := ReadElements(Render(Elements(m), indent));
            r.Read? && r.rest == "" && SaysMap(m, r.elems)
  {
    hide Elements, ReadElements, SaysMap, PlainMap, Clean;
    PlainMapClean(m);
    FlatMapSays(m);
    ReadPrinted(m, indent);
  }

  function RootOpen(root: string, ns: string): string { "<" + root + " xmlns=\"" + ns + "\">\n" }

  function Root(root: string, ns: string, fields: seq<Field>): string {
    RootOpen(root, ns) + Render(Elements(fields), 1) + (Close(root) + "\n")
  }

  function Roots(root: string, ns: string, trees: seq<Branch>): string {
    if trees == [] then ""
    else Root(root, ns, trees[0].fields) + Roots(root, ns, trees[1..])
  }

  /**
   The answer for the value found inside the outermost map: a list of maps gives one root
   element per item, a map gives one, and anything else an empty one.
   */
  method ToXML(inner: Value, root: string, ns: string) returns (text: string)
    ensures inner.Trees? ==> text == Roots(root, ns, inner.trees)
    ensures inner.Tree? ==> text == Root(root, ns, inner.fields)
    ensures !inner.Trees? && !inner.Tree? ==> text == Root(root, ns, [])
    ensures PlainRoot(root, ns) && PlainMaps(Maps(inner)) ==> RootsSay(text, root, ns, Maps(inner))
  {
    hide Root, RenderOne, ElementsOf, RootOpen, RootsSay, PlainMaps, PlainRoot;
    var sb := new Builder();
    match inner {
      case Trees(trees) =>
        for i := 0 to |trees|
          invariant sb.text + Roots(root, ns, trees[i..]) == Roots(root, ns, trees)
        {
          WriteRoot(sb, root, ns, trees[i].fields);
          assert trees[i..][1..] == trees[i + 1..];
        }
      case Tree(fields) => WriteRoot(sb, root, ns, fields);
      case _ => WriteRoot(sb, root, ns, []);
    }
    text := sb.text;
    OneRoot(root, ns, if inner.Tree? then inner.fields else []);
    if PlainRoot(root, ns) && PlainMaps(Maps(inner)) { RootsSayMaps(root, ns, Maps(inner)); }
  }

  method WriteRoot(sb: Builder, root: string, ns: string, fields: seq<Field>)
    modifies sb
    ensures sb.text == old(sb.text) + Root(root, ns, fields)
  {
    sb.Write(RootOpen(root, ns));
    WriteXMLMap(sb, fields, 1);
    sb.Write(Close(root) + "\n");
  }

  /** How it is laid out: a line for each tag of a map and for each leaf, two spaces for each level. */
  lemma Layout(root: string, ns: string, key: string, leaf: string, text: string)
    ensures Root(root, ns, [Field(key, Tree([Field(leaf, Leaf(text))]))])
            == ("<" + root + " xmlns=\"" + ns + "\">\n")
               + (("  <" + key + ">\n")
                  + (("    <" + leaf + ">" + text + "</" + leaf + ">\n") + ("  </" + key + ">\n")))
               + ("</" + root + ">\n")
  {
    hide Render, RenderOne, Elements;
    OneElement(Field(leaf, Leaf(text)));
    OneElement(Field(key, Tree([Field(leaf, Leaf(text))])));
    OneLine(Node(key, [Text(leaf, text)]), 1);
    LeafLine(leaf, text);
    TreeLines(key, Text(leaf, text));
    assert RootOpen(root, ns) == "<" + root + " xmlns=\"" + ns + "\">\n" && Close(root) + "\n" == "</" + root + ">\n";
  }

  lemma LeafLine(leaf: string, text: string)
    ensures RenderOne(Text(leaf, text), 2) == "    <" + leaf + ">" + text + "</" + leaf + ">\n"
  {
    assert Indent(0) == "" && Indent(1) == "  " && Indent(2) == "    ";
    assert "    " + ("<" + leaf + ">") == "    <" + leaf + ">";
    var front := "    <" + leaf + ">" + text;
    assert RenderOne(Text(leaf, text), 2) == front + ("</" + leaf + ">") + "\n" == front + "</" + leaf + ">\n";
  }

  lemma TreeLines(key: string, kid: Elem)
    ensures RenderOne(Node(key, [kid]), 1)
            == ("  <" + key + ">\n") + (RenderOne(kid, 2) + ("  </" + key + ">\n"))
  {
    hide Render;
    OneLine(kid, 2);
    assert Indent(0) == "" && Indent(1) == "  ";
    assert "  " + ("<" + key + ">") + "\n" == "  <" + key + ">\n";
    assert "  " + ("</" + key + ">") + "\n" == "  </" + key + ">\n";
  }

  lemma OneElement(f: Field)
    ensures Elements([f]) == ElementsOf(f.key, f.val)
  {
    hide ElementsOf;
    assert [f][1..] == [] && ElementsOf(f.key, f.val) + [] == ElementsOf(f.key, f.val);
  }

  lemma OneLine(e: Elem, indent: nat)
    ensures Render([e], indent) == RenderOne(e, indent)
  {
    hide RenderOne;
    assert [e][1..] == [] && RenderOne(e, indent) + "" == RenderOne(e, indent);
  }

  datatype Found = Found(root: string, ns: string, elems: seq<Elem>)

  /** Whether and how s begins with a root's opening tag: its name and namespace, and what follows. */
  datatype RootTag = RootTag(root: string, ns: string, rest: string) | NoRootTag

  predicate IsGap(c: char) { c == ' ' }

  predicate IsQuote(c: char) { c == '"' }

  function ReadRootTag(s: string): (r: RootTag)
    ensures r.RootTag? ==> |r.rest| < |s|
  {
    if s == "" || s[0] != '<' then NoRootTag
    else
      var root := TakeUntil(s[1..], IsGap);
      var attribute := After(s[|root| + 1..], " xmlns=\"");
      if attribute.NotNested? then NoRootTag
      else
        var ns := TakeUntil(attribute.rest, IsQuote);
        var end := After(attribute.rest[|ns|..], "\">\n");
        if end.NotNested? then NoRootTag else RootTag(root, ns, end.rest)
  }

  /** Reads a document of root elements, each with its namespace, into the elements of each. */
  function ReadRoots(s: string): (r: seq<Found>)
    decreases |s|
  {
    var start := ReadRootTag(s);
    if start.NoRootTag? then []
    else
      var inner := ReadElements(start.rest);
      if inner.NotNested? then []
      else
        var closed := After(inner.rest, Close(start.root) + "\n");
        if closed.NotNested? then [] else [Found(start.root, start.ns, inner.elems)] + ReadRoots(closed.rest)
  }

  ghost predicate PlainRoot(root: string, ns: string) { Free(root, IsGap) && Free(ns, IsQuote) }

  lemma ReadRootOpen(root: string, ns: string, rest: string)
    requires PlainRoot(root, ns)
    ensures ReadRootTag(RootOpen(root, ns) + rest) == RootTag(root, ns, rest)
  {
    hide TakeUntil;
    var end := "\">\n" + rest;
    var attribute := " xmlns=\"" + (ns + end);
    var s := RootOpen(root, ns) + rest;
    assert s == "<" + (root + attribute);
    assert s[1..] == root + attribute && s[|root| + 1..] == attribute;
    TakeUntilAppend(root, attribute, IsGap);
    TakeNothing(attribute, IsGap);
    AfterPrefix(" xmlns=\"", ns + end);
    TakeUntilAppend(ns, end, IsQuote);
    TakeNothing(end, IsQuote);
    assert (ns + end)[|ns|..] == end;
    AfterPrefix("\">\n", rest);
    assert root + "" == root && ns + "" == ns;
  }

  /** A top-level list of n maps reads back as n root elements, item by item. */
  lemma {:induction false} RootsRecovered(root: string, ns: string, trees: seq<Branch>)
    requires PlainRoot(root, ns) && forall i :: 0 <= i < |trees| ==> Clean(Elements(trees[i].fields))
    ensures |ReadRoots(Roots(root, ns, trees))| == |trees|
    ensures forall i :: 0 <= i < |trees| ==>
              ReadRoots(Roots(root, ns, trees))[i] == Found(root, ns, Elements(trees[i].fields))
  {
    hide RootOpen, ReadRootTag, Close, ReadElements, Render, Elements, Clean;
    var s := Roots(root, ns, trees);
    if trees == [] {
      assert ReadRootTag("") == NoRootTag by { NoTagInNothing(); }
    } else {
      var es, next := Elements(trees[0].fields), Roots(root, ns, trees[1..]);
      var tail := Close(root) + "\n" + next;
      assert s == RootOpen(root, ns) + (Render(es, 1) + tail);
      ReadRootOpen(root, ns, Render(es, 1) + tail);
      CloseEnds(root, "\n" + next);
      assert Close(root) + ("\n" + next) == tail;
      ReadRendered(es, 1, tail);
      NewlineFirst(Render(es, 1) + tail);
      AfterPrefix(Close(root) + "\n", next);
      RootsRecovered(root, ns, trees[1..]);
    }
  }

  lemma NoTagInNothing()
    ensures ReadRootTag("") == NoRootTag
  {}

  lemma CloseEnds(name: string, rest: string)
    ensures EndsRun(Close(name) + rest) && SkipBlank(Close(name) + rest) == Close(name) + rest
  {}

  /** The maps a value has a root element for. */
  function Maps(inner: Value): seq<Branch> {
    if inner.Trees? then inner.trees else if inner.Tree? then [Branch(inner.fields)] else [Branch([])]
  }

  /** The text reads back as one root for each map, in order, of that name and namespace, each saying its map. */
  ghost predicate RootsSay(text: string, root: string, ns: string, maps: seq<Branch>) {
    var found := ReadRoots(text);
    && |found| == |maps|
    && forall i :: 0 <= i < |maps| ==>
         found[i].root == root && found[i].ns == ns && SaysMap(maps[i].fields, found[i].elems)
  }

  ghost predicate PlainMaps(maps: seq<Branch>) { forall i :: 0 <= i < |maps| ==> PlainMap(maps[i].fields) }

  lemma RootsSayMaps(root: string, ns: string, maps: seq<Branch>)
    requires PlainRoot(root, ns) && PlainMaps(maps)
    ensures RootsSay(Roots(root, ns, maps), root, ns, maps)
  {
    hide Roots, ReadRoots, Elements, SaysMap, PlainMap, Clean;
    forall i | 0 <= i < |maps|
      ensures Clean(Elements(maps[i].fields)) && SaysMap(maps[i].fields, Elements(maps[i].fields))
    {
      PlainMapClean(maps[i].fields);
      FlatMapSays(maps[i].fields);
    }
    RootsRecovered(root, ns, maps);
  }

  lemma OneRoot(root: string, ns: string, fields: seq<Field>)
    ensures Roots(root, ns, [Branch(fields)]) == Root(root, ns, fields)
  {
    hide Root;
    assert [Branch(fields)][1..] == [];
    assert Root(root, ns, fields) + "" == Root(root, ns, fields);
  }
}
