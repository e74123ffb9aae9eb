/** The parser undoes the printer: of the trees that are meant to be printed exactly the sound ones come back, from
    the compact and from the indented string. */
module RoundTrips {
  import opened Wrappers
  import opened CStrings
  import opened Escape
  import opened Lexer
  import opened Nodes
  import opened Grammar
  import opened Documents
  import opened Elision
  import M = Misreadings
  import P = Printer
  import R = Reading

  // ---------------------------------------------------------------- which trees are meant

  ghost predicate GoodItem(e: Encoding, x: Item)
    decreases x
  {
    match x
    case Child(elem) => GoodElem(e, elem)
    case Text(text) => GoodText(e, text)
    case Clear(c) => GoodClear(e, c)
  }

  /** No two texts with nothing between them. */
  predicate Apart(items: seq<Item>) {
    forall k :: 0 < k < |items| ==> !(items[k].Text? && items[k - 1].Text?)
  }

  ghost predicate GoodItems(e: Encoding, items: seq<Item>)
    decreases items
  {
    Apart(items) && forall k :: 0 <= k < |items| ==> GoodItem(e, items[k])
  }

  /** Plain names, trimmed texts that do not touch, clear tags that end where they should. */
  ghost predicate GoodElem(e: Encoding, t: Elem)
    decreases t
  {
    && t.name.Some? && PlainName(e, t.name.value)
    && (forall k :: 0 <= k < |t.attributes| ==> GoodAttribute(e, t.attributes[k]))
    && GoodItems(e, t.items)
  }

  /** The elements that the tokenizer does not take for something else: one named `PRE` needs an attribute to hold
      items; a declaration needs an attribute, and it holds items only at the top. */
  predicate SoundElem(t: Elem, depth: nat)
    decreases t
  {
    && (if t.isDeclaration then t.attributes != [] && (depth >= 2 ==> t.items == [])
        else t.name == Some("PRE") && t.attributes == [] ==> t.items == [])
    && SoundItems(t.items, 0, depth + 1)
  }

  predicate SoundItem(x: Item, depth: nat)
    decreases x
  {
    x.Child? ==> SoundElem(x.elem, depth)
  }

  /** The items from number `k` on are sound. */
  predicate SoundItems(items: seq<Item>, k: nat, depth: nat)
    decreases items
  {
    forall i :: k <= i < |items| ==> SoundItem(items[i], depth)
  }

  /** Of the items at the top only the last is a declaration, which has no end of its own and takes in what comes behind
      it. */
  predicate Orderly(items: seq<Item>) {
    forall k :: 0 <= k < |items| - 1 && items[k].Child? ==> !items[k].elem.isDeclaration
  }

  // ---------------------------------------------------------------- the printed tree as a document

  /** What stands in front of the indentation of item `i`. */
  function Lead(i: nat, inner: int, lead: string): string {
    if inner < 0 then "" else if i == 0 then lead else "\n"
  }

  function Indent(x: Item, inner: int, childFormat: int): string {
    if inner < 0 then "" else P.Tabs(if x.Child? then childFormat else inner + 1)
  }

  function LayoutItem(x: Item, childFormat: int, gap: string): Part
    decreases x
  {
    match x
    case Child(elem) => Sub(gap, Layout(elem, childFormat))
    case Text(text) => Run(gap, text)
    case Clear(c) => Raw(gap, c)
  }

  function LayoutItems(items: seq<Item>, inner: int, childFormat: int, lead: string): (r: seq<Part>)
    ensures |r| == |items|
    decreases items
  {
    seq(|items|, i requires 0 <= i < |items| =>
      LayoutItem(items[i], childFormat, Lead(i, inner, lead) + Indent(items[i], inner, childFormat)))
  }

  function Layout(t: Elem, format: int): Doc
    decreases t
  {
    var inner := P.InnerFormat(t, format);
    Doc(if t.name.Some? then t.name.value else "", t.isDeclaration, t.attributes,
        LayoutItems(t.items, inner, P.ChildFormat(t, inner), "\n"),
        if t.isDeclaration || t.items == [] || inner < 0 then "" else "\n" + P.Tabs(inner),
        if t.isDeclaration then Omitted else if t.items == [] then Short else Full)
  }

  // ---------------------------------------------------------------- the same string

  lemma AttributeSame(e: Encoding, a: Attribute)
    requires a.name != ""
    ensures P.PrintAttribute(e, a) == WriteAttribute(e, a)
  {
    hide Encode;
  }

  lemma {:induction false} AttributesSame(e: Encoding, attributes: seq<Attribute>, k: nat)
    requires k <= |attributes| && forall i :: 0 <= i < |attributes| ==> attributes[i].name != ""
    ensures P.PrintAttributes(e, attributes, k) + WriteAttributes(e, attributes, k)
         == P.PrintAttributes(e, attributes, |attributes|)
    decreases |attributes| - k
  {
    hide P.PrintAttribute, WriteAttribute;
    if k < |attributes| {
      AttributesSame(e, attributes, k + 1);
      AttributeSame(e, attributes[k]);
      Assoc(P.PrintAttributes(e, attributes, k), P.PrintAttribute(e, attributes[k]),
            WriteAttributes(e, attributes, k + 1));
    }
  }

  /** The items from number `k` on, as printed. */
  function PrintFrom(e: Encoding, items: seq<Item>, k: nat, inner: int, childFormat: int): string
    requires k <= |items|
    decreases |items| - k
  {
    if k == |items| then ""
    else P.PrintItem(e, items[k], inner, childFormat) + PrintFrom(e, items, k + 1, inner, childFormat)
  }

  lemma {:induction false} PrintFromAll(e: Encoding, items: seq<Item>, k: nat, inner: int, childFormat: int)
    requires k <= |items|
    ensures P.PrintItems(e, items, k, inner, childFormat) + PrintFrom(e, items, k, inner, childFormat)
         == P.PrintItems(e, items, |items|, inner, childFormat)
    decreases |items| - k
  {
    hide P.PrintItem;
    if k < |items| {
      PrintFromAll(e, items, k + 1, inner, childFormat);
      Assoc(P.PrintItems(e, items, k, inner, childFormat), P.PrintItem(e, items[k], inner, childFormat),
            PrintFrom(e, items, k + 1, inner, childFormat));
    } else {
      hide P.PrintItems;
    }
  }

  /** The formats that the printer passes on to an item. */
  predicate Fitting(x: Item, inner: int, childFormat: int) {
    if inner < -1 then x.Text? else if inner == -1 then childFormat == -1 else childFormat >= 0
  }

  lemma TextSame(e: Encoding, text: string, inner: int, pre: string)
    requires GoodText(e, text)
    ensures var indent := if inner < 0 then "" else P.Tabs(inner + 1);
            pre + indent + Encode(e, text) + P.NewLine(inner >= 0) == pre + P.PrintText(e, text, inner)
  {
    hide Encode;
    var w := Encode(e, text);
    assert w != "" by {
      EncodedNotEmpty(e, text);
    }
    if inner >= 0 {
      hide P.Tabs;
      Assoc(P.Tabs(inner + 1), w, "\n");
      Assoc(pre, P.Tabs(inner + 1), w);
      Assoc(pre, P.Tabs(inner + 1) + w, "\n");
    }
  }

  lemma EncodedNotEmpty(e: Encoding, text: string)
    requires text != "" && text[0] != '\0'
    ensures Encode(e, text) != ""
  {
  }

  lemma ClearSame(c: ClearText, inner: int, pre: string)
    requires inner >= -1
    ensures var indent := if inner < 0 then "" else P.Tabs(inner + 1);
            pre + indent + WriteClear(c) + P.NewLine(inner >= 0) == pre + P.PrintClear(c, inner)
  {
    hide OpenTag, ClearClose, P.Tabs;
    var open, close := OpenTag(c.tag), ClearClose(c.tag, c.bracket);
    var indent := if inner < 0 then "" else P.Tabs(inner + 1);
    assert P.PrintClear(c, inner) == indent + open + c.text + close + P.NewLine(inner >= 0);
    assert indent + (open + c.text + close) == indent + open + c.text + close;
    Assoc(pre, indent, open + c.text + close);
    Assoc(pre, indent + (open + c.text + close), P.NewLine(inner >= 0));
  }

  lemma {:induction false} ItemSame(e: Encoding, x: Item, inner: int, childFormat: int, pre: string)
    requires GoodItem(e, x) && Fitting(x, inner, childFormat)
    ensures WritePart(e, LayoutItem(x, childFormat, pre + Indent(x, inner, childFormat))) + P.NewLine(inner >= 0)
         == pre + P.PrintItem(e, x, inner, childFormat)
    decreases x
  {
    hide GoodElem, Write, Encode, WriteClear, P.Print, P.PrintText, P.PrintClear, P.Tabs, Layout;
    match x {
      case Child(elem) =>
        ElemSame(e, elem, childFormat);
        var tabs, w, nl := P.Tabs(childFormat), Write(e, Layout(elem, childFormat)), P.NewLine(inner >= 0);
        assert Indent(x, inner, childFormat) == tabs;
        Assoc(pre, tabs, w);
        Assoc(pre, tabs + w, nl);
      case Text(text) => TextSame(e, text, inner, pre);
      case Clear(c) => ClearSame(c, inner, pre);
    }
  }

  ghost predicate AllFitting(items: seq<Item>, inner: int, childFormat: int) {
    forall i :: 0 <= i < |items| ==> Fitting(items[i], inner, childFormat)
  }

  lemma {:induction false} ItemsSame(e: Encoding, items: seq<Item>, k: nat, inner: int, childFormat: int,
                                     lead: string)
    requires k <= |items| && items != [] && GoodItems(e, items) && AllFitting(items, inner, childFormat)
    ensures WriteParts(e, LayoutItems(items, inner, childFormat, lead), k) + P.NewLine(inner >= 0)
         == Lead(k, inner, lead) + PrintFrom(e, items, k, inner, childFormat)
    decreases items, |items| - k
  {
    hide WritePart, P.PrintItem, LayoutItem, GoodItem, Fitting;
    if k < |items| {
      ItemsSame(e, items, k + 1, inner, childFormat, lead);
      assert GoodItem(e, items[k]) && Fitting(items[k], inner, childFormat);
      ItemSame(e, items[k], inner, childFormat, Lead(k, inner, lead));
      ItemsStep(e, items, k, inner, childFormat, lead);
    }
  }

  lemma ItemsStep(e: Encoding, items: seq<Item>, k: nat, inner: int, childFormat: int, lead: string)
    requires k < |items|
    requires var parts, nl := LayoutItems(items, inner, childFormat, lead), P.NewLine(inner >= 0);
             && WritePart(e, parts[k]) + nl == Lead(k, inner, lead) + P.PrintItem(e, items[k], inner, childFormat)
             && WriteParts(e, parts, k + 1) + nl
                 == Lead(k + 1, inner, lead) + PrintFrom(e, items, k + 1, inner, childFormat)
    ensures WriteParts(e, LayoutItems(items, inner, childFormat, lead), k) + P.NewLine(inner >= 0)
         == Lead(k, inner, lead) + PrintFrom(e, items, k, inner, childFormat)
  {
    hide WritePart, P.PrintItem, LayoutItems;
    var parts, nl := LayoutItems(items, inner, childFormat, lead), P.NewLine(inner >= 0);
    var part, rest, item, from := WritePart(e, parts[k]), WriteParts(e, parts, k + 1),
                                  P.PrintItem(e, items[k], inner, childFormat),
                                      PrintFrom(e, items, k + 1, inner, childFormat);
    Assoc(part, rest, nl);
    Assoc(part, nl, from);
    Assoc(Lead(k, inner, lead), item, from);
  }

  // ---------------------------------------------------------------- an element

  lemma StartSame(e: Encoding, t: Elem, format: int, inner: int)
    requires P.Named(t) && forall i :: 0 <= i < |t.attributes| ==> t.attributes[i].name != ""
    ensures P.PrintStart(e, t, format, inner)
         == P.Tabs(format) + (WriteOpen(Layout(t, format)) + t.name.value + WriteAttributes(e, t.attributes, 0))
            + P.PrintTagEnd(t, inner)
  {
    hide P.Tabs, WriteAttributes, P.PrintAttributes, LayoutItems, P.PrintTagEnd;
    AttributesSame(e, t.attributes, 0);
    NoAttributes(e, t.attributes);
    var tabs, name, atts := P.Tabs(format), t.name.value, WriteAttributes(e, t.attributes, 0);
    assert P.PrintAttributes(e, t.attributes, |t.attributes|) == atts;
    var open := if t.isDeclaration then "<?" else "<";
    assert tabs + "<" + (if t.isDeclaration then "?" else "") == tabs + open;
    assert tabs + open + name + atts == tabs + (open + name + atts);
  }

  lemma NoAttributes(e: Encoding, attributes: seq<Attribute>)
    ensures P.PrintAttributes(e, attributes, 0) == ""
  {
  }

  lemma ElemFits(t: Elem, format: int)
    requires format >= -1 && t.name.Some? && t.name.value != ""
    ensures var inner := P.InnerFormat(t, format);
            AllFitting(t.items, inner, P.ChildFormat(t, inner))
  {
  }

  /** The items in their lines, between the end of the start tag and the end tag. */
  lemma {:induction false} BodySame(e: Encoding, t: Elem, format: int)
    requires GoodElem(e, t) && format >= -1 && t.items != []
    ensures var inner := P.InnerFormat(t, format);
            var cf := P.ChildFormat(t, inner);
            WriteParts(e, LayoutItems(t.items, inner, cf, "\n"), 0) + P.NewLine(inner >= 0)
            == P.NewLine(inner >= 0) + P.PrintItems(e, t.items, |t.items|, inner, cf)
    decreases t, 0
  {
    hide PlainName, GoodAttribute, GoodItems, WriteParts, LayoutItems, P.PrintItems, AllFitting;
    var inner := P.InnerFormat(t, format);
    var cf := P.ChildFormat(t, inner);
    assert t.name.value != "" by {
      R.NotEmpty(e, t.name.value);
    }
    ElemFits(t, format);
    ItemsSame(e, t.items, 0, inner, cf, "\n");
    PrintFromAll(e, t.items, 0, inner, cf);
    P.ItemsNone(e, t.items, inner, cf);
  }

  lemma {:induction false} ElemSame(e: Encoding, t: Elem, format: int)
    requires GoodElem(e, t) && format >= -1
    ensures P.Print(e, t, format) == P.Tabs(format) + Write(e, Layout(t, format)) + P.NewLine(format != -1)
    decreases t, 1
  {
    hide PlainName, GoodItems, WriteParts, LayoutItems, P.PrintItems, P.PrintStart, P.Tabs, WriteAttributes;
    assert P.Named(t) by {
      R.NotEmpty(e, t.name.value);
    }
    assert forall i :: 0 <= i < |t.attributes| ==> t.attributes[i].name != "";
    StartSame(e, t, format, P.InnerFormat(t, format));
    if t.items != [] {
      BodySame(e, t, format);
      if t.isDeclaration {
        DeclarationSame(e, t, format);
      } else {
        FullSame(e, t, format);
      }
    } else {
      EmptySame(e, t, format);
    }
  }

  /** The start tag without its end. */
  function HeadOf(e: Encoding, t: Elem, format: int): string {
    WriteOpen(Layout(t, format)) + (if t.name.Some? then t.name.value else "") + WriteAttributes(e, t.attributes, 0)
  }

  lemma EmptySame(e: Encoding, t: Elem, format: int)
    requires format >= -1 && P.Named(t) && t.items == []
    requires P.PrintStart(e, t, format, format) == P.Tabs(format) + HeadOf(e, t, format) + P.PrintTagEnd(t, format)
    ensures P.Print(e, t, format) == P.Tabs(format) + Write(e, Layout(t, format)) + P.NewLine(format != -1)
  {
    hide P.PrintStart, P.Tabs, WriteAttributes, HeadOf;
    P.ItemsNone(e, t.items, format, P.ChildFormat(t, format));
    var tabs, head := P.Tabs(format), HeadOf(e, t, format);
    var close := if t.isDeclaration then "?>" else "/>";
    assert Write(e, Layout(t, format)) == head + close by {
      NoParts(e, t, format);
    }
    assert tabs + head + close == tabs + (head + close);
    assert tabs + head + (close + P.NewLine(format != -1)) == tabs + head + close + P.NewLine(format != -1);
  }

  lemma NoParts(e: Encoding, t: Elem, format: int)
    requires P.Named(t) && t.items == []
    ensures Write(e, Layout(t, format)) == HeadOf(e, t, format) + if t.isDeclaration then "?>" else "/>"
  {
    hide WriteAttributes;
    assert WriteParts(e, Layout(t, format).parts, 0) == "";
  }

  lemma DeclarationSame(e: Encoding, t: Elem, format: int)
    requires format >= -1 && P.Named(t) && t.isDeclaration
    requires P.PrintStart(e, t, format, format) == P.Tabs(format) + HeadOf(e, t, format) + P.PrintTagEnd(t, format)
    requires WriteParts(e, LayoutItems(t.items, format, format, "\n"), 0) + P.NewLine(format >= 0)
          == P.NewLine(format >= 0) + P.PrintItems(e, t.items, |t.items|, format, format)
    ensures P.Print(e, t, format) == P.Tabs(format) + Write(e, Layout(t, format)) + P.NewLine(format != -1)
  {
    hide P.PrintStart, P.PrintItems, P.Tabs, WriteAttributes, HeadOf, LayoutItems, WriteParts;
    var tabs, head, nl := P.Tabs(format), HeadOf(e, t, format), P.NewLine(format >= 0);
    var parts, items := WriteParts(e, LayoutItems(t.items, format, format, "\n"), 0),
        P.PrintItems(e, t.items, |t.items|, format, format);
    assert Write(e, Layout(t, format)) == head + "?>" + parts by {
      FullWrite(e, t, format);
    }
    DeclarationPrint(e, t, format);
    hide P.Print, Layout, Write;
    assert P.Print(e, t, format) == tabs + head + ("?>" + nl) + items + ("" + "");
    Pieces(tabs, head, "?>", nl, parts, items, "", "");
  }

  lemma DeclarationPrint(e: Encoding, t: Elem, format: int)
    requires format >= -1 && P.Named(t) && t.isDeclaration
    ensures P.Print(e, t, format)
         == P.PrintStart(e, t, format, format) + P.PrintItems(e, t.items, |t.items|, format, format)
    ensures P.PrintTagEnd(t, format) == "?>" + P.NewLine(format >= 0)
  {
    hide P.PrintStart, P.PrintItems;
  }

  lemma FullSame(e: Encoding, t: Elem, format: int)
    requires format >= -1 && P.Named(t) && !t.isDeclaration && t.items != []
    requires var inner := P.InnerFormat(t, format);
             P.PrintStart(e, t, format, inner) == P.Tabs(format) + HeadOf(e, t, format) + P.PrintTagEnd(t, inner)
    requires var inner := P.InnerFormat(t, format);
             var cf := P.ChildFormat(t, inner);
             WriteParts(e, LayoutItems(t.items, inner, cf, "\n"), 0) + P.NewLine(inner >= 0)
             == P.NewLine(inner >= 0) + P.PrintItems(e, t.items, |t.items|, inner, cf)
    ensures P.Print(e, t, format) == P.Tabs(format) + Write(e, Layout(t, format)) + P.NewLine(format != -1)
  {
    hide P.PrintStart, P.PrintItems, P.Tabs, WriteAttributes, HeadOf, LayoutItems, WriteParts, WriteEnd;
    var inner := P.InnerFormat(t, format);
    var cf := P.ChildFormat(t, inner);
    var tabs, head, nl := P.Tabs(format), HeadOf(e, t, format), P.NewLine(inner >= 0);
    var parts, items := WriteParts(e, LayoutItems(t.items, inner, cf, "\n"), 0),
        P.PrintItems(e, t.items, |t.items|, inner, cf);
    var back := if inner < 0 then "" else P.Tabs(inner);
    var last := P.NewLine(format != -1);
    FullWrite(e, t, format);
    assert P.Print(e, t, format) == tabs + head + (">" + nl) + items + (back + WriteEnd(t.name.value) + last) by {
      EndPrinted(t, inner);
    }
    Assoc(back, WriteEnd(t.name.value), last);
    Pieces(tabs, head, ">", nl, parts, items, back + WriteEnd(t.name.value), last);
    Assoc(nl, back, WriteEnd(t.name.value));
    Assoc(head + ">" + parts, nl + back, WriteEnd(t.name.value));
  }

  lemma EndPrinted(t: Elem, inner: int)
    requires P.Named(t) && !t.isDeclaration && t.items != []
    ensures P.PrintEnd(t, inner)
            == (if inner < 0 then "" else P.Tabs(inner)) + WriteEnd(t.name.value) + P.NewLine(inner != -1)
  {
    hide P.Tabs;
    var tabs, name := P.Tabs(inner), t.name.value;
    assert tabs + "</" + name + ">" == tabs + ("</" + name + ">");
  }

  lemma FullWrite(e: Encoding, t: Elem, format: int)
    requires P.Named(t) && (t.isDeclaration || t.items != [])
    ensures var inner := P.InnerFormat(t, format);
            var parts := LayoutItems(t.items, inner, P.ChildFormat(t, inner), "\n");
            Write(e, Layout(t, format))
            == if t.isDeclaration then HeadOf(e, t, format) + "?>" + WriteParts(e, parts, 0)
               else HeadOf(e, t, format) + ">" + WriteParts(e, parts, 0)
                    + (if inner < 0 then "" else "\n" + P.Tabs(inner)) + WriteEnd(t.name.value)
  {
    hide WriteParts, LayoutItems, WriteAttributes, P.Tabs, WriteEnd;
  }

  /** The line ends in front of the items move behind them. */
  lemma Pieces(tabs: string, head: string, close: string, nl: string, parts: string, items: string, end: string,
               last: string)
    requires parts + nl == nl + items
    ensures tabs + head + (close + nl) + items + (end + last) == tabs + (head + close + parts + (nl + end)) + last
  {
    Assoc(close, nl, items);
    Assoc(close, parts, nl);
    assert tabs + head + (close + nl) + items == tabs + head + (close + nl + items);
    assert close + nl + items == close + parts + nl;
    assert tabs + head + (close + parts + nl) + (end + last) == tabs + (head + close + parts + (nl + end)) + last;
  }

  // ---------------------------------------------------------------- the document is a good one

  lemma {:induction false} TabsBlank(n: int)
    ensures AllSpace(P.Tabs(n))
  {
    if n > 0 {
      TabsBlank(n - 1);
    }
  }

  lemma GapBlank(x: Item, i: nat, inner: int, childFormat: int, lead: string)
    requires AllSpace(lead)
    ensures AllSpace(Lead(i, inner, lead) + Indent(x, inner, childFormat))
  {
    hide P.Tabs;
    TabsBlank(if x.Child? then childFormat else inner + 1);
  }

  /** What a laid-out item has in common with its item. */
  ghost predicate SameShape(x: Item, p: Part) {
    AllSpace(p.gap) && (p.Run? <==> x.Text?) && (Open(p, 1) <==> x.Child? && x.elem.isDeclaration)
  }

  lemma ItemShape(x: Item, i: nat, inner: int, childFormat: int, lead: string)
    requires AllSpace(lead)
    ensures SameShape(x, LayoutItem(x, childFormat, Lead(i, inner, lead) + Indent(x, inner, childFormat)))
  {
    hide Indent, Lead, AllSpace;
    GapBlank(x, i, inner, childFormat, lead);
    if x.Child? {
      hide LayoutItems, P.InnerFormat, P.ChildFormat;
      var d := Layout(x.elem, childFormat);
      assert d.isDeclaration == x.elem.isDeclaration && (d.ending == Omitted <==> d.isDeclaration);
    }
  }

  lemma SeparatedLayout(items: seq<Item>, parts: seq<Part>)
    requires Apart(items) && |parts| == |items| && forall i :: 0 <= i < |items| ==> SameShape(items[i], parts[i])
    ensures Separated(parts)
  {
    hide AllSpace, Open;
    forall k | 0 <= k < |parts|
      ensures AllSpace(parts[k].gap) && (parts[k].Run? && k > 0 ==> !parts[k - 1].Run?)
    {
      assert SameShape(items[k], parts[k]);
      if k > 0 {
        assert SameShape(items[k - 1], parts[k - 1]);
      }
    }
  }

  lemma {:induction false} LayoutItemsFair(e: Encoding, items: seq<Item>, inner: int, childFormat: int,
                                           lead: string)
    requires GoodItems(e, items) && AllSpace(lead)
    ensures M.FairParts(e, LayoutItems(items, inner, childFormat, lead))
    decreases items, 0
  {
    hide M.FairPart, GoodElem, Apart, Open, AllSpace, Separated;
    var parts := LayoutItems(items, inner, childFormat, lead);
    forall k | 0 <= k < |items|
      ensures SameShape(items[k], parts[k]) && M.FairPart(e, parts[k])
    {
      hide SameShape, LayoutItem;
      ItemShape(items[k], k, inner, childFormat, lead);
      assert GoodItem(e, items[k]);
      LayoutItemFair(e, items[k], childFormat, Lead(k, inner, lead) + Indent(items[k], inner, childFormat));
    }
    SeparatedLayout(items, parts);
  }

  lemma LayoutOrdered(items: seq<Item>, inner: int, childFormat: int, lead: string)
    requires AllSpace(lead)
    ensures M.Ordered(LayoutItems(items, inner, childFormat, lead), 0, 1) <==> Orderly(items)
  {
    hide Open, AllSpace, LayoutItem;
    var parts := LayoutItems(items, inner, childFormat, lead);
    forall k | 0 <= k < |items| ensures Open(parts[k], 1) <==> items[k].Child? && items[k].elem.isDeclaration {
      ItemShape(items[k], k, inner, childFormat, lead);
    }
  }

  lemma {:induction false} LayoutItemFair(e: Encoding, x: Item, childFormat: int, gap: string)
    requires GoodItem(e, x)
    ensures M.FairPart(e, LayoutItem(x, childFormat, gap))
    decreases x
  {
    hide GoodElem, M.Fair, GoodText, GoodClear, Layout;
    if x.Child? {
      LayoutFair(e, x.elem, childFormat);
    }
  }

  lemma {:induction false} LayoutFair(e: Encoding, t: Elem, format: int)
    requires GoodElem(e, t)
    ensures M.Fair(e, Layout(t, format))
    decreases t, 1
  {
    hide GoodItems, M.FairParts, PlainName, GoodAttribute, LayoutItems, AllSpace;
    var inner := P.InnerFormat(t, format);
    var cf := P.ChildFormat(t, inner);
    var parts := LayoutItems(t.items, inner, cf, "\n");
    Blanks(inner);
    LayoutItemsFair(e, t.items, inner, cf, "\n");
    assert t.items == [] ==> parts == [];
  }

  // ---------------------------------------------------------------- how the text is indented

  function Indentation(n: nat): string {
    seq(n, _ => '\t')
  }

  /** A document on the lines of its own: every part begins a line, one tab deeper than its element, and so does the end
      tag, as deep as the start tag; elements inside a declaration stand as deep as it.  Only a text that is all there
      is in an element stays on its line. */
  predicate Indented(d: Doc, n: nat)
    decreases d
  {
    if !d.isDeclaration && |d.parts| == 1 && d.parts[0].Run? then d.parts[0].gap == "" && d.tail == ""
    else
      && (d.ending == Full ==> d.tail == "\n" + Indentation(n))
      && forall k :: 0 <= k < |d.parts| ==> IndentedPart(d.parts[k], n, d.isDeclaration)
  }

  predicate IndentedPart(p: Part, n: nat, inDeclaration: bool)
    decreases p
  {
    var depth := if p.Sub? && inDeclaration then n else n + 1;
    p.gap == "\n" + Indentation(depth) && (p.Sub? ==> Indented(p.doc, depth))
  }

  /** A document without any white space between its parts. */
  predicate Flat(d: Doc)
    decreases d
  {
    d.tail == "" && forall k :: 0 <= k < |d.parts| ==> FlatPart(d.parts[k])
  }

  predicate FlatPart(p: Part)
    decreases p
  {
    p.gap == "" && (p.Sub? ==> Flat(p.doc))
  }

  lemma {:induction false} TabsAre(n: nat)
    ensures P.Tabs(n) == Indentation(n)
  {
    if n > 0 {
      TabsAre(n - 1);
      assert "\t" + Indentation(n - 1) == Indentation(n);
    } else {
      assert Indentation(0) == "";
    }
  }

  /** The printed text, indented at depth `format`, and the compact one. */
  lemma {:induction false} LayoutIndented(e: Encoding, t: Elem, format: int)
    requires GoodElem(e, t) && format >= -1
    ensures format >= 0 ==> Indented(Layout(t, format), format) && P.Tabs(format) == Indentation(format)
    ensures format == -1 ==> Flat(Layout(t, format)) && P.Tabs(format) == ""
    decreases t
  {
    hide PlainName, GoodAttribute, Apart, GoodText, GoodClear, LayoutItem, P.Tabs, GoodElem, Lead, Indent, Indentation;
    GoodInside(e, t);
    var inner := P.InnerFormat(t, format);
    var cf, d := P.ChildFormat(t, inner), Layout(t, format);
    if format >= 0 {
      TabsAre(format);
    } else {
      assert P.Tabs(format) == "";
    }
    var parts := LayoutItems(t.items, inner, cf, "\n");
    assert d.parts == parts && d.isDeclaration == t.isDeclaration;
    forall k | 0 <= k < |t.items|
      ensures format == -1 ==> FlatPart(d.parts[k])
      ensures inner >= 0 ==> IndentedPart(d.parts[k], format, t.isDeclaration)
      ensures inner == -2 ==> d.parts[k].gap == ""
      ensures d.parts[k].Run? <==> t.items[k].Text?
    {
      var x := t.items[k];
      assert GoodItem(e, x);
      if x.Child? {
        LayoutIndented(e, x.elem, cf);
      }
      PartIndented(x, k, inner, cf, t.isDeclaration);
      assert parts[k] == LayoutItem(x, cf, Lead(k, inner, "\n") + Indent(x, inner, cf));
    }
    if inner == -2 {
      assert d.parts[0].Run? && d.parts[0].gap == "";
    } else if format >= 0 && |d.parts| == 1 {
      assert d.parts[0].Run? <==> t.items[0].Text?;
    }
  }

  lemma GoodInside(e: Encoding, t: Elem)
    requires GoodElem(e, t)
    ensures P.Named(t) && forall k :: 0 <= k < |t.items| ==> GoodItem(e, t.items[k])
  {
    hide GoodAttribute, Apart, GoodItem;
  }

  lemma PartIndented(x: Item, k: nat, inner: int, cf: int, inDeclaration: bool)
    requires inner >= -2 && (inner == -1 ==> cf == -1) && (inner == -2 ==> x.Text?)
    requires inner >= 0 ==> cf == if inDeclaration then inner else inner + 1
    requires x.Child? && inner == -1 ==> Flat(Layout(x.elem, cf))
    requires x.Child? && inner >= 0 ==> Indented(Layout(x.elem, cf), cf)
    ensures var p := LayoutItem(x, cf, Lead(k, inner, "\n") + Indent(x, inner, cf));
            && (inner == -1 ==> FlatPart(p))
            && (inner >= 0 ==> IndentedPart(p, inner, inDeclaration))
            && (inner == -2 ==> p.gap == "") && (p.Run? <==> x.Text?)
  {
    hide Indented, Flat, Layout, P.Tabs, Indentation;
    if inner >= 0 {
      TabsAre(if x.Child? then cf else inner + 1);
    }
  }

  // ---------------------------------------------------------------- sound trees are laid out as sound documents

  lemma {:induction false} LayoutSound(t: Elem, format: int, depth: nat)
    ensures M.Sound(Layout(t, format), depth) <==> SoundElem(t, depth)
    decreases t, |t.items| + 1
  {
    hide LayoutItems, P.InnerFormat, P.ChildFormat, P.Tabs, M.SoundParts, SoundItems;
    var inner := P.InnerFormat(t, format);
    LayoutItemsSound(t.items, 0, inner, P.ChildFormat(t, inner), depth + 1, "\n");
  }

  lemma {:induction false} LayoutItemsSound(items: seq<Item>, k: nat, inner: int, childFormat: int, depth: nat,
                                            lead: string)
    requires k <= |items|
    ensures M.SoundParts(LayoutItems(items, inner, childFormat, lead), k, depth) <==> SoundItems(items, k, depth)
    decreases items, |items| - k
  {
    hide Layout, M.Sound, SoundElem, Lead, Indent;
    if k < |items| {
      LayoutItemsSound(items, k + 1, inner, childFormat, depth, lead);
      match items[k] {
        case Child(elem) =>
          assert items[k] decreases to elem;
          LayoutSound(elem, childFormat, depth);
        case _ =>
      }
      assert SoundItems(items, k, depth) <==> SoundItem(items[k], depth) && SoundItems(items, k + 1, depth);
    }
  }

  lemma Blanks(inner: int)
    ensures AllSpace("") && AllSpace("\n") && AllSpace("\n" + P.Tabs(inner))
  {
    TabsBlank(inner);
    hide P.Tabs;
  }

  // ---------------------------------------------------------------- the document means the tree

  lemma {:induction false} LayoutErased(t: Elem, format: int)
    requires t.name.Some? && ItemsNamed(t.items)
    ensures Erase(Layout(t, format)) == Merge(t)
    decreases t
  {
    hide P.InnerFormat, P.ChildFormat, P.Tabs, LayoutItems, EraseTo;
    var inner := P.InnerFormat(t, format);
    LayoutItemsErased(t.items, |t.items|, inner, P.ChildFormat(t, inner), "\n");
  }

  /** Every element among the items, at any depth, has a name. */
  predicate ItemsNamed(items: seq<Item>)
    decreases items
  {
    forall k :: 0 <= k < |items| ==> ItemNamed(items[k])
  }

  predicate ItemNamed(x: Item)
    decreases x
  {
    x.Child? ==> x.elem.name.Some? && ItemsNamed(x.elem.items)
  }

  lemma {:induction false} LayoutItemsErased(items: seq<Item>, n: nat, inner: int, childFormat: int, lead: string)
    requires n <= |items| && ItemsNamed(items)
    ensures EraseTo(LayoutItems(items, inner, childFormat, lead), n) == MergeTo(items, n)
    decreases items, n
  {
    hide Erase, Layout, Lead, Indent, Merge, Join;
    if n > 0 {
      LayoutItemsErased(items, n - 1, inner, childFormat, lead);
      assert ItemNamed(items[n - 1]);
      match items[n - 1] {
        case Child(elem) =>
          assert items[n - 1] decreases to elem;
          LayoutErased(elem, childFormat);
        case _ =>
      }
    }
  }

  lemma {:induction false} GoodNamed(e: Encoding, items: seq<Item>)
    requires GoodItems(e, items)
    ensures ItemsNamed(items)
    decreases items
  {
    hide Apart, PlainName, GoodAttribute;
    forall k | 0 <= k < |items| ensures ItemNamed(items[k]) {
      assert GoodItem(e, items[k]);
      match items[k] {
        case Child(elem) =>
          assert items[k] decreases to elem;
          assert GoodElem(e, elem);
          GoodNamed(e, elem.items);
        case _ =>
      }
    }
  }

  lemma {:induction false} LayoutWhole(t: Elem, format: int)
    ensures !OmitsDoc(Layout(t, format))
    decreases t
  {
    hide P.InnerFormat, P.ChildFormat, P.Tabs, LayoutItems;
    var inner := P.InnerFormat(t, format);
    LayoutItemsWhole(t.items, 0, inner, P.ChildFormat(t, inner), "\n");
  }

  lemma {:induction false} LayoutItemsWhole(items: seq<Item>, k: nat, inner: int, childFormat: int, lead: string)
    requires k <= |items|
    ensures !Omits(LayoutItems(items, inner, childFormat, lead), k)
    decreases items, |items| - k
  {
    hide Layout, OmitsDoc, Lead, Indent;
    if k < |items| {
      LayoutItemsWhole(items, k + 1, inner, childFormat, lead);
      match items[k] {
        case Child(elem) =>
          assert items[k] decreases to elem;
          LayoutWhole(elem, childFormat);
        case _ =>
      }
    }
  }

  // ---------------------------------------------------------------- the round trips

  /** `parseString(createXMLString(t))`, compact (format -1), indented (format 0) or at any other depth of
      indentation: a sound tree comes back, whether or not the caller asks for the element by its name, with the
      comments between two texts elided; a tree that is not sound never does.  So exactly those trees come back as
      they were that are sound and hold no such comment. */
  lemma ParseUndoesPrint(e: Encoding, t: Elem, format: int, tag: string)
    requires GoodElem(e, t) && format >= -1 && (tag == "" || SameName(t.name.value, tag))
    ensures SoundElem(t, 1) ==> ParseString(e, P.Print(e, t, format), tag) == (Some(Merge(t)), ErrorNone)
    ensures ParseString(e, P.Print(e, t, format), "") == (Some(Merge(t)), ErrorNone) <==> SoundElem(t, 1)
    ensures ParseString(e, P.Print(e, t, format), "") == (Some(t), ErrorNone) <==> SoundElem(t, 1) && Settled(t)
  {
    hide GoodElem, P.Print, P.Tabs, Write, Layout, Good, M.Fair, M.Sound, SoundElem, ParseString, SameName, AllSpace,
         Erase, OmitsDoc, Merge, Settled;
    var d := Layout(t, format);
    MergeExactly(t);
    ElemSame(e, t, format);
    LayoutFair(e, t, format);
    LayoutSound(t, format, 1);
    LayoutWhole(t, format);
    TabsBlank(format);
    Blanks(0);
    ElemErased(e, t, format);
    TopSettled(e, P.Print(e, t, format), t);
    if SoundElem(t, 1) {
      M.FairGood(e, d, 1);
      R.ParseUndoesWrite(e, d, P.Tabs(format), P.NewLine(format != -1), tag);
      R.ParseUndoesWrite(e, d, P.Tabs(format), P.NewLine(format != -1), "");
    } else {
      M.DocumentMisread(e, d, P.Tabs(format), P.NewLine(format != -1));
    }
  }

  predicate ItemCalled(x: Item, tag: string) {
    x.Child? && HasName(x.elem, tag)
  }

  /** The first of the items from number `k` on that is an element of that name. */
  function FirstChild(items: seq<Item>, tag: string, k: nat): (r: Option<nat>)
    requires k <= |items|
    ensures r.Some? ==> k <= r.value < |items| && ItemCalled(items[r.value], tag)
                        && forall i :: k <= i < r.value ==> !ItemCalled(items[i], tag)
    ensures r.None? ==> forall i :: k <= i < |items| ==> !ItemCalled(items[i], tag)
    decreases |items| - k
  {
    if k == |items| then None else if ItemCalled(items[k], tag) then Some(k) else FirstChild(items, tag, k + 1)
  }

  /** A sound tree that is asked for another name than its own gives the first of its children of that name. */
  lemma PrintFinds(e: Encoding, t: Elem, format: int, tag: string)
    requires GoodElem(e, t) && SoundElem(t, 1) && format >= -1 && tag != "" && !SameName(t.name.value, tag)
    ensures var k := FirstChild(t.items, tag, 0);
            ParseString(e, P.Print(e, t, format), tag)
            == if k.None? then (None, ErrorFirstTagNotFound) else (Some(Merge(t.items[k.value].elem)), ErrorNone)
  {
    hide GoodElem, P.Print, P.Tabs, Write, Layout, Good, M.Fair, M.Sound, SoundElem, ParseString, SameName, AllSpace,
         Erase, OmitsDoc, Merge, R.FoundAmong;
    var d := Layout(t, format);
    ElemSame(e, t, format);
    LayoutFair(e, t, format);
    LayoutSound(t, format, 1);
    LayoutWhole(t, format);
    TabsBlank(format);
    Blanks(0);
    ElemErased(e, t, format);
    M.FairGood(e, d, 1);
    R.ParseFinds(e, d, P.Tabs(format), P.NewLine(format != -1), tag);
    FoundChild(e, t, format, tag);
  }

  lemma FoundChild(e: Encoding, t: Elem, format: int, tag: string)
    requires GoodElem(e, t)
    ensures var k := FirstChild(t.items, tag, 0);
            R.FoundAmong(Layout(t, format).parts, tag, ErrorNone)
            == if k.None? then (None, ErrorFirstTagNotFound) else (Some(Merge(t.items[k.value].elem)), ErrorNone)
  {
    hide GoodItems, PlainName, GoodAttribute, SameName, Erase, Merge, LayoutItem, Lead, Indent, P.InnerFormat,
         P.ChildFormat, ItemsNamed, FirstChild, R.FirstPart;
    var inner := P.InnerFormat(t, format);
    var cf := P.ChildFormat(t, inner);
    var parts := LayoutItems(t.items, inner, cf, "\n");
    GoodNamed(e, t.items);
    forall i | 0 <= i < |parts| ensures R.PartNamed(parts[i], tag) <==> ItemCalled(t.items[i], tag) {
      ChildCalled(t.items, i, cf, Lead(i, inner, "\n") + Indent(t.items[i], inner, cf), tag);
    }
    var k, j := FirstChild(t.items, tag, 0), R.FirstPart(parts, tag, 0);
    assert j.Some? ==> R.PartNamed(parts[j.value], tag) && ItemCalled(t.items[j.value], tag);
    assert k.Some? ==> ItemCalled(t.items[k.value], tag) && R.PartNamed(parts[k.value], tag);
    assert j == k;
    assert Layout(t, format).parts == parts;
    if k.Some? {
      ChildCalled(t.items, k.value, cf, Lead(k.value, inner, "\n") + Indent(t.items[k.value], inner, cf), tag);
      assert Erase(parts[j.value].doc) == Merge(t.items[k.value].elem);
      assert R.FoundAmong(parts, tag, ErrorNone) == (Some(Erase(parts[j.value].doc)), ErrorNone);
    } else {
      assert R.FoundAmong(parts, tag, ErrorNone) == (None, ErrorFirstTagNotFound);
    }
  }

  lemma ChildCalled(items: seq<Item>, i: nat, cf: int, gap: string, tag: string)
    requires ItemsNamed(items) && i < |items|
    ensures var p := LayoutItem(items[i], cf, gap);
            && (R.PartNamed(p, tag) <==> ItemCalled(items[i], tag))
            && (items[i].Child? ==> p.Sub? && Erase(p.doc) == Merge(items[i].elem))
  {
    hide SameName, Erase, Merge, LayoutItems, P.InnerFormat, P.ChildFormat, P.Tabs;
    assert ItemNamed(items[i]);
    if items[i].Child? {
      LayoutErased(items[i].elem, cf);
    }
  }

  lemma TopSettled(e: Encoding, s: string, t: Elem)
    ensures ParseString(e, s, "").0 == Some(t) ==> Settled(t)
  {
    hide ParseRoot, Elems, Named;
    ParserSettles(e, s);
    var root := ParseRoot(e, s).node;
    assert |root.items| == 1 ==> SettledItem(root.items[0]);
  }

  lemma ElemErased(e: Encoding, t: Elem, format: int)
    requires GoodElem(e, t)
    ensures Erase(Layout(t, format)) == Merge(t) && Layout(t, format).name == t.name.value
  {
    hide PlainName, GoodAttribute, GoodItems, Erase, Merge, LayoutItems, P.InnerFormat, P.ChildFormat, P.Tabs;
    GoodNamed(e, t.items);
    LayoutErased(t, format);
  }

  /** The same for the head of a document, with any list of items at the top: it comes back if the items are sound and
      no declaration stands before the last of them, and only then. */
  lemma HeadRoundTrip(e: Encoding, items: seq<Item>, format: int)
    requires GoodItems(e, items) && format >= -1
    ensures var head := Elem(None, false, [], items);
            var r := ParseRoot(e, P.Print(e, head, format));
            var comesBack := SoundItems(items, 0, 1) && Orderly(items);
            && (comesBack ==> r.st.error == ErrorNone)
            && (r.node == Merge(head) <==> comesBack)
            && (r.node == head <==> comesBack && Settled(head))
  {
    hide GoodItems, SoundItems, Orderly, ParseRoot, LayoutItems, WriteParts, GoodParts, M.FairParts, M.SoundParts,
         M.Ordered, EraseTo, MergeTo, Settled, Omits, AllSpace, P.PrintItems, PrintFrom;
    var head := Elem(None, false, [], items);
    var inner := P.InnerFormat(head, format);
    var parts := LayoutItems(items, inner, inner, "");
    Blanks(0);
    LayoutItemsFair(e, items, inner, inner, "");
    LayoutItemsSound(items, 0, inner, inner, 1, "");
    LayoutOrdered(items, inner, inner, "");
    GoodNamed(e, items);
    LayoutItemsErased(items, |items|, inner, inner, "");
    MergeExactly(head);
    LayoutItemsWhole(items, 0, inner, inner, "");
    assert P.Print(e, head, format) == P.PrintItems(e, items, |items|, inner, inner);
    HeadSame(e, items, format);
    ParserSettles(e, P.Print(e, head, format));
    if SoundItems(items, 0, 1) && Orderly(items) {
      M.FairGoodParts(e, parts, 1);
      R.DocumentReads(e, parts, P.NewLine(inner >= 0 && items != []));
    } else {
      M.PartsDiffer(e, parts, P.NewLine(inner >= 0 && items != []));
    }
  }

  lemma HeadSame(e: Encoding, items: seq<Item>, format: int)
    requires GoodItems(e, items) && format >= -1
    ensures var inner := P.InnerFormat(Elem(None, false, [], items), format);
            WriteParts(e, LayoutItems(items, inner, inner, ""), 0) + P.NewLine(inner >= 0 && items != [])
            == P.PrintItems(e, items, |items|, inner, inner)
  {
    hide GoodItems, P.PrintItem;
    var inner := P.InnerFormat(Elem(None, false, [], items), format);
    if items != [] {
      hide LayoutItems, WriteParts;
      assert AllFitting(items, inner, inner);
      ItemsSame(e, items, 0, inner, inner, "");
      PrintFromAll(e, items, 0, inner, inner);
      P.ItemsNone(e, items, inner, inner);
    }
  }

  // ---------------------------------------------------------------- trees that do not come back

  const PRE_TREE := Elem(Some("PRE"), false, [], [Text("x")])
  const BARE_TREE := Elem(Some("a"), true, [], [])
  const NESTED_TREE := Elem(Some("a"), false, [], [Child(DeclarationTree([Text("x")]))])
  const NOTE_TREE := Elem(Some("a"), false, [], [Text("x"), Clear(ClearText(Comment, "c", false)), Text("y")])

  /** `<PRE>x</PRE>`: the element is a tree that may be printed, but what is parsed is a clear tag. */
  lemma PreDoesNotReturn(e: Encoding, format: int)
    requires format >= -1
    ensures GoodElem(e, PRE_TREE) && Settled(PRE_TREE)
    ensures ParseString(e, P.Print(e, PRE_TREE, format), "") != (Some(PRE_TREE), ErrorNone)
  {
    WordGood(e, "PRE");
    LetterGood(e, 'x');
    hide P.Print, ParseString, PlainName, GoodText;
    assert GoodItem(e, PRE_TREE.items[0]);
    assert SettledItem(PRE_TREE.items[0]);
    ParseUndoesPrint(e, PRE_TREE, format, "");
  }

  /** `<?a?>`: the name that is parsed is `a?`. */
  lemma BareDoesNotReturn(e: Encoding, format: int)
    requires format >= -1
    ensures GoodElem(e, BARE_TREE) && Settled(BARE_TREE)
    ensures ParseString(e, P.Print(e, BARE_TREE, format), "") != (Some(BARE_TREE), ErrorNone)
  {
    WordGood(e, "a");
    hide P.Print, ParseString, PlainName;
    ParseUndoesPrint(e, BARE_TREE, format, "");
  }

  /** `<a><?b c?>x</a>`: the declaration that is parsed is over in front of its text. */
  lemma NestedDoesNotReturn(e: Encoding, format: int)
    requires format >= -1
    ensures GoodElem(e, NESTED_TREE) && Settled(NESTED_TREE)
    ensures ParseString(e, P.Print(e, NESTED_TREE, format), "") != (Some(NESTED_TREE), ErrorNone)
  {
    hide P.Print, ParseString, GoodElem, Settled;
    NestedGood(e);
    NestedUnsound();
    ParseUndoesPrint(e, NESTED_TREE, format, "");
  }

  lemma NestedUnsound()
    ensures !SoundElem(NESTED_TREE, 1) && Settled(NESTED_TREE)
  {
    var inner := NESTED_TREE.items[0].elem;
    assert SettledItem(inner.items[0]) && SettledItem(NESTED_TREE.items[0]);
    assert !SoundElem(inner, 2) && !SoundItem(NESTED_TREE.items[0], 2);
  }

  lemma NestedGood(e: Encoding)
    ensures GoodElem(e, NESTED_TREE)
  {
    WordGood(e, "a");
    hide PlainName;
    assert NESTED_TREE.items[0] == Child(DeclarationTree([Text("x")]));
    LetterGood(e, 'x');
    hide GoodText;
    assert GoodItem(e, Text("x"));
    DeclarationGood(e, [Text("x")]);
    hide GoodElem;
    assert GoodItem(e, NESTED_TREE.items[0]);
  }

  /** `<?b c?>`, with some items. */
  function DeclarationTree(items: seq<Item>): Elem {
    Elem(Some("b"), true, [Attribute("c", None)], items)
  }

  lemma DeclarationGood(e: Encoding, items: seq<Item>)
    requires GoodItems(e, items)
    ensures GoodElem(e, DeclarationTree(items))
  {
    WordGood(e, "b");
    WordGood(e, "c");
    hide PlainName, GoodItems;
    assert GoodAttribute(e, Attribute("c", None));
  }

  /** `<?b c?><a/>`: a head with a declaration in front of an element does not come back. */
  lemma HeadDoesNotReturn(e: Encoding, format: int)
    requires format >= -1
    ensures var items := [Child(DeclarationTree([])), Child(Elem(Some("a"), false, [], []))];
            && GoodItems(e, items) && SoundItems(items, 0, 1)
            && ParseRoot(e, P.Print(e, Elem(None, false, [], items), format)).node != Elem(None, false, [], items)
  {
    var items := [Child(DeclarationTree([])), Child(Elem(Some("a"), false, [], []))];
    HeadGood(e, items);
    assert items[0].Child? && items[0].elem.isDeclaration;
    hide GoodItems, SoundItems, P.Print, ParseRoot;
    HeadRoundTrip(e, items, format);
  }

  lemma HeadGood(e: Encoding, items: seq<Item>)
    requires items == [Child(DeclarationTree([])), Child(Elem(Some("a"), false, [], []))]
    ensures GoodItems(e, items) && SoundItems(items, 0, 1)
  {
    DeclarationGood(e, []);
    WordGood(e, "a");
    hide PlainName, GoodAttribute;
    assert GoodItem(e, items[0]) && GoodItem(e, items[1]);
    assert SoundItem(items[0], 1) && SoundItem(items[1], 1);
  }

  /** `<a>x<!--c-->y</a>`: a sound tree that comes back with one text in place of three items. */
  lemma NoteDoesNotReturn(e: Encoding, format: int)
    requires format >= -1
    ensures GoodElem(e, NOTE_TREE) && SoundElem(NOTE_TREE, 1)
    ensures ParseString(e, P.Print(e, NOTE_TREE, format), "")
         == (Some(Elem(Some("a"), false, [], [Text("xy")])), ErrorNone)
  {
    NoteGood(e);
    assert Merge(NOTE_TREE) == Elem(Some("a"), false, [], [Text("xy")]) by {
      NoteMerged();
    }
    hide P.Print, ParseString, GoodElem, Merge;
    assert SoundElem(NOTE_TREE, 1);
    ParseUndoesPrint(e, NOTE_TREE, format, "");
  }

  lemma NoteGood(e: Encoding)
    ensures GoodElem(e, NOTE_TREE)
  {
    WordGood(e, "a");
    LetterGood(e, 'x');
    LetterGood(e, 'y');
    NoteClear(e);
    hide PlainName, GoodText, GoodClear;
    var items := NOTE_TREE.items;
    assert GoodItem(e, items[0]) && GoodItem(e, items[1]) && GoodItem(e, items[2]);
  }

  lemma NoteClear(e: Encoding)
    ensures GoodClear(e, ClearText(Comment, "c", false))
  {
    AsciiSafe(e, "c");
    var w := "c" + "-->";
    assert !Has(w, 0, "-->") && Has(w, 1, "-->") by {
      assert w == "c-->" && w[0..3] == "c--" && w[1..4] == "-->";
    }
    assert Find(w, 1, "-->") == Some(1);
    assert Find(w, 0, "-->") == Some(1);
  }

  lemma NoteMerged()
    ensures MergeTo(NOTE_TREE.items, 3) == [Text("xy")]
  {
    var items := NOTE_TREE.items;
    assert MergeTo(items, 0) == [];
    assert MergeTo(items, 1) == [Text("x")];
    assert MergeTo(items, 2) == [Text("x"), items[1]];
    assert "x" + "y" == "xy";
  }

  lemma WordGood(e: Encoding, n: string)
    requires n != "" && forall i :: 0 <= i < |n| ==> 'A' <= n[i] <= 'Z' || 'a' <= n[i] <= 'z'
    ensures PlainName(e, n)
  {
    AsciiSafe(e, n);
  }

  lemma LetterGood(e: Encoding, c: char)
    requires 'a' <= c <= 'z'
    ensures GoodText(e, [c])
  {
    AsciiSafe(e, [c]);
  }

  // ---------------------------------------------------------------- both routines apply

  predicate Ascii(s: string) {
    forall i :: 0 <= i < |s| ==> '\0' < s[i] < 128 as char
  }

  lemma AsciiSafe(e: Encoding, s: string)
    requires Ascii(s)
    ensures Safe(e, s)
  {
  }

  lemma {:induction false} EncodeSafe(e: Encoding, v: string, k: nat)
    requires Safe(e, v) && k <= |v|
    ensures Safe(e, EncodeFrom(e, v, k)) && |EncodeFrom(e, v, k)| >= |v| - k
    decreases |v| - k
  {
    hide EncodeFrom, Piece;
    if k < |v| {
      EncodeUnfold(e, v, k);
      EncodeSafe(e, v, Advance(e, v, k));
      PieceSafe(e, v, k, EncodeFrom(e, v, Advance(e, v, k)));
    } else {
      EncodeDone(e, v);
    }
  }

  /** An entity is plain, and behind any other byte there are no fewer bytes than before. */
  lemma PieceSafe(e: Encoding, v: string, k: nat, rest: string)
    requires Safe(e, v) && k < |v| && Safe(e, rest) && |rest| >= |v| - Advance(e, v, k)
    ensures Safe(e, Piece(e, v, k) + rest) && |Piece(e, v, k) + rest| >= |v| - k
  {
    var w := Piece(e, v, k);
    if Special(v[k]) {
      AsciiSafe(e, w);
      SafeAppend(e, w, rest);
    } else {
      forall i | 0 <= i < |w + rest|
        ensures (w + rest)[i] != '\0' && i + CharLen(e, (w + rest)[i]) <= |w + rest|
      {
        if i < |w| {
          assert (w + rest)[i] == v[k + i];
        } else {
          assert (w + rest)[i] == rest[i - |w|];
        }
      }
    }
  }

  lemma {:induction false} TabsSafe(e: Encoding, n: int)
    ensures Safe(e, P.Tabs(n))
  {
    if n > 0 {
      TabsSafe(e, n - 1);
      AsciiSafe(e, "\t");
      SafeAppend(e, "\t", P.Tabs(n - 1));
    }
  }

  lemma AttributeSafe(e: Encoding, a: Attribute)
    requires GoodAttribute(e, a)
    ensures Safe(e, P.PrintAttribute(e, a))
  {
    hide Encode, EncodeFrom;
    AsciiSafe(e, "");
    AsciiSafe(e, " ");
    SafeAppend(e, " ", a.name);
    if a.value.Some? {
      EncodeSafe(e, a.value.value, 0);
      assert Encode(e, a.value.value) == EncodeFrom(e, a.value.value, 0) by {
        EncodeWhole(e, a.value.value);
      }
      hide Safe;
      AsciiSafe(e, "=\"");
      AsciiSafe(e, "\"");
      SafeAppend(e, "=\"", Encode(e, a.value.value));
      SafeAppend(e, "=\"" + Encode(e, a.value.value), "\"");
    }
    SafeAppend(e, " " + a.name, P.PrintValue(e, a.value));
  }

  lemma EncodeWhole(e: Encoding, v: string)
    ensures Encode(e, v) == EncodeFrom(e, v, 0)
  {
    hide EncodeFrom;
  }

  lemma {:induction false} AttributesSafe(e: Encoding, attributes: seq<Attribute>, n: nat)
    requires n <= |attributes| && forall k :: 0 <= k < |attributes| ==> GoodAttribute(e, attributes[k])
    ensures Safe(e, P.PrintAttributes(e, attributes, n))
  {
    hide Safe, P.PrintAttribute, GoodAttribute;
    if n > 0 {
      AttributesSafe(e, attributes, n - 1);
      AttributeSafe(e, attributes[n - 1]);
      SafeAppend(e, P.PrintAttributes(e, attributes, n - 1), P.PrintAttribute(e, attributes[n - 1]));
    } else {
      AsciiSafe(e, "");
    }
  }

  lemma StartSafe(e: Encoding, t: Elem, format: int, inner: int)
    requires P.Named(t) && Safe(e, t.name.value) && Safe(e, P.PrintAttributes(e, t.attributes, |t.attributes|))
    ensures Safe(e, P.PrintStart(e, t, format, inner))
  {
    hide P.PrintAttributes, P.Tabs, Safe;
    TabsSafe(e, format);
    var open, end := "<" + (if t.isDeclaration then "?" else ""), P.PrintTagEnd(t, inner);
    AsciiSafe(e, open);
    AsciiSafe(e, end);
    var tabs, name, atts := P.Tabs(format), t.name.value, P.PrintAttributes(e, t.attributes, |t.attributes|);
    SafeAppend(e, tabs, open);
    SafeAppend(e, tabs + open, name);
    SafeAppend(e, tabs + open + name, atts);
    SafeAppend(e, tabs + open + name + atts, end);
    Assoc(tabs, "<", if t.isDeclaration then "?" else "");
  }

  lemma EndSafe(e: Encoding, t: Elem, inner: int)
    requires P.Named(t) && Safe(e, t.name.value)
    ensures Safe(e, P.PrintEnd(t, inner))
  {
    hide P.Tabs, Safe;
    TabsSafe(e, inner);
    var tabs, name, last := P.Tabs(inner), t.name.value, ">" + P.NewLine(inner != -1);
    AsciiSafe(e, "");
    AsciiSafe(e, "/>" + P.NewLine(inner != -1));
    AsciiSafe(e, "</");
    AsciiSafe(e, last);
    SafeAppend(e, tabs, "</");
    SafeAppend(e, tabs + "</", name);
    SafeAppend(e, tabs + "</" + name, last);
    Assoc(tabs + "</" + name, ">", P.NewLine(inner != -1));
  }

  lemma LineSafe(e: Encoding, n: int, w: string, last: string)
    requires Safe(e, w) && Ascii(last)
    ensures Safe(e, P.Tabs(n) + w + last) && Safe(e, w + last)
  {
    hide P.Tabs;
    TabsSafe(e, n);
    AsciiSafe(e, last);
    SafeAppend(e, P.Tabs(n), w);
    SafeAppend(e, P.Tabs(n) + w, last);
    SafeAppend(e, w, last);
  }

  lemma TextSafe(e: Encoding, text: string, inner: int)
    requires GoodText(e, text)
    ensures Safe(e, P.PrintText(e, text, inner))
  {
    EncodeSafe(e, text, 0);
    EncodeWhole(e, text);
    hide Safe, Encode, EncodeFrom, P.Tabs;
    LineSafe(e, inner + 1, Encode(e, text), "\n");
  }

  lemma ClearSafe(e: Encoding, c: ClearText, inner: int)
    requires GoodClear(e, c)
    ensures Safe(e, P.PrintClear(c, inner))
  {
    hide Safe, P.Tabs, ClearEnd;
    var open, close, last := OpenTag(c.tag), ClearClose(c.tag, c.bracket), P.NewLine(inner != -1);
    AsciiSafe(e, open);
    AsciiSafe(e, close);
    SafeAppend(e, open, c.text);
    SafeAppend(e, open + c.text, close);
    var w := open + c.text + close;
    LineSafe(e, inner + 1, w, last);
    if inner != -1 {
      var tabs := P.Tabs(inner + 1);
      assert tabs + open + c.text + close + last == tabs + w + last by {
        Assoc(tabs, open, c.text);
        Assoc(tabs, open + c.text, close);
      }
    } else {
      assert "" + open == open;
    }
  }

  lemma {:induction false} PrintedItemSafe(e: Encoding, x: Item, inner: int, childFormat: int)
    requires GoodItem(e, x)
    ensures Safe(e, P.PrintItem(e, x, inner, childFormat)) && P.SafeItem(e, x)
    decreases x
  {
    hide Safe, P.PrintText, P.PrintClear, P.Print, GoodElem, P.SafeElem, ClearEnd;
    match x {
      case Child(elem) => PrintedSafe(e, elem, childFormat);
      case Text(text) => TextSafe(e, text, inner);
      case Clear(c) => ClearSafe(e, c, inner);
    }
  }

  lemma {:induction false} PrintedItemsSafe(e: Encoding, items: seq<Item>, n: nat, inner: int, childFormat: int)
    requires n <= |items| && forall k :: 0 <= k < |items| ==> GoodItem(e, items[k])
    ensures Safe(e, P.PrintItems(e, items, n, inner, childFormat)) && forall k :: 0 <= k < n ==> P.SafeItem(e, items[k])
    decreases items, n
  {
    hide Safe, P.PrintItem, GoodItem, P.SafeItem;
    if n > 0 {
      PrintedItemsSafe(e, items, n - 1, inner, childFormat);
      PrintedItemSafe(e, items[n - 1], inner, childFormat);
      SafeAppend(e, P.PrintItems(e, items, n - 1, inner, childFormat),
                 P.PrintItem(e, items[n - 1], inner, childFormat));
    } else {
      AsciiSafe(e, "");
    }
  }

  /** A good tree is one that the printing routine takes, and what it prints is a text that the parsing routine
      takes: the round trip goes through both routines as they run. */
  lemma {:induction false} PrintedSafe(e: Encoding, t: Elem, format: int)
    requires GoodElem(e, t)
    ensures P.SafeElem(e, t) && Safe(e, P.Print(e, t, format))
    decreases t
  {
    hide Safe, P.PrintStart, P.PrintEnd, P.PrintItems, P.SafeItem, P.InnerFormat, P.ChildFormat, GoodItem, Apart;
    var inner := P.InnerFormat(t, format);
    var cf := P.ChildFormat(t, inner);
    PrintedItemsSafe(e, t.items, |t.items|, inner, cf);
    AttributesSafe(e, t.attributes, |t.attributes|);
    StartSafe(e, t, format, inner);
    EndSafe(e, t, inner);
    var start, items := P.PrintStart(e, t, format, inner), P.PrintItems(e, t.items, |t.items|, inner, cf);
    SafeAppend(e, start, items);
    SafeAppend(e, start + items, P.PrintEnd(t, inner));
  }

}
