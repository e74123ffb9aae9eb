/** The printer of the XML library: one recursive routine that is run twice, first without a buffer to measure and
    then with a buffer of exactly the measured size to write.

    In places the two passes share their arithmetic, and in others the measuring pass has formulas of its own: for the
    start of a start tag, and for an end tag.  What both are held against is the printed text, `Print`; the methods
    that write state the text, and the methods that do both state its length as well.

    A start tag is written with a blank behind each attribute, and its end takes the place of the last blank. */
module Printer {
  import opened Wrappers
  import opened CStrings
  import opened Escape
  import opened Lexer
  import opened Nodes
  import opened Grammar

  // ---------------------------------------------------------------- what is printed

  /** `n` indentation characters. */
  function Tabs(n: int): (r: string)
    ensures |r| == if n <= 0 then 0 else n
  {
    if n <= 0 then "" else "\t" + Tabs(n - 1)
  }

  /** The format of the content: a single text is printed on the line of its element. */
  function InnerFormat(t: Elem, format: int): int {
    if format >= 0 && |t.items| == 1 && t.items[0].Text? && !t.isDeclaration then -2 else format
  }

  function ChildFormat(t: Elem, inner: int): int {
    if inner == -1 then -1 else if Named(t) && !t.isDeclaration then inner + 1 else inner
  }

  predicate Named(t: Elem) {
    t.name.Some? && t.name.value != ""
  }

  function NewLine(wanted: bool): string {
    if wanted then "\n" else ""
  }

  function PrintValue(e: Encoding, value: Option<string>): string {
    match value case None => "" case Some(v) => "=\"" + Encode(e, v) + "\""
  }

  /** An attribute and the blank that separates it from what comes before. */
  function PrintAttribute(e: Encoding, a: Attribute): string {
    if a.name == "" then "" else " " + a.name + PrintValue(e, a.value)
  }

  /** The first `n` attributes. */
  function PrintAttributes(e: Encoding, attributes: seq<Attribute>, n: nat): string
    requires n <= |attributes|
  {
    if n == 0 then "" else PrintAttributes(e, attributes, n - 1) + PrintAttribute(e, attributes[n - 1])
  }

  /** The end of the start tag, up to where the content begins. */
  function PrintTagEnd(t: Elem, inner: int): string {
    if t.isDeclaration then "?>" + NewLine(inner != -1)
    else if t.items != [] then ">" + NewLine(inner >= 0)
    else ""
  }

  function PrintStart(e: Encoding, t: Elem, format: int, inner: int): string {
    if !Named(t) then ""
    else Tabs(format) + "<" + (if t.isDeclaration then "?" else "") + t.name.value
         + PrintAttributes(e, t.attributes, |t.attributes|) + PrintTagEnd(t, inner)
  }

  function PrintEnd(t: Elem, inner: int): string {
    if !Named(t) || t.isDeclaration then ""
    else if t.items != [] then Tabs(inner) + "</" + t.name.value + ">" + NewLine(inner != -1)
    else "/>" + NewLine(inner != -1)
  }

  function PrintText(e: Encoding, text: string, inner: int): string {
    var w := Encode(e, text);
    if w == "" then "" else if inner >= 0 then Tabs(inner + 1) + w + "\n" else w
  }

  function PrintClear(c: ClearText, inner: int): string {
    (if inner != -1 then Tabs(inner + 1) else "") + OpenTag(c.tag) + c.text + ClearClose(c.tag, c.bracket)
        + NewLine(inner != -1)
  }

  function Print(e: Encoding, t: Elem, format: int): string
    decreases t
  {
    var inner := InnerFormat(t, format);
    PrintStart(e, t, format, inner) + PrintItems(e, t.items, |t.items|, inner, ChildFormat(t, inner))
        + PrintEnd(t, inner)
  }

  function PrintItem(e: Encoding, x: Item, inner: int, childFormat: int): string
    decreases x
  {
    match x
    case Child(elem) => Print(e, elem, childFormat)
    case Text(text) => PrintText(e, text, inner)
    case Clear(c) => PrintClear(c, inner)
  }

  /** The first `n` items. */
  function PrintItems(e: Encoding, items: seq<Item>, n: nat, inner: int, childFormat: int): string
    requires n <= |items|
    decreases items, n
  {
    if n == 0 then ""
        else PrintItems(e, items, n - 1, inner, childFormat) + PrintItem(e, items[n - 1], inner, childFormat)
  }

  /** Every text and every attribute value of the tree is a string that the library reads without leaving it. */
  ghost predicate SafeElem(e: Encoding, t: Elem)
    decreases t
  {
    && (forall i :: 0 <= i < |t.attributes| && t.attributes[i].value.Some? ==> Safe(e, t.attributes[i].value.value))
    && (forall i :: 0 <= i < |t.items| ==> SafeItem(e, t.items[i]))
  }

  ghost predicate SafeItem(e: Encoding, x: Item)
    decreases x
  {
    match x
    case Child(elem) => SafeElem(e, elem)
    case Text(text) => Safe(e, text)
    case Clear(_) => true
  }

  // ---------------------------------------------------------------- measuring and writing

  /** There is room for `piece` and a terminator. */
  predicate Room(marker: array?<char>, at: nat, piece: string) {
    marker != null ==> at + |piece| < marker.Length
  }

  method SetChar(dest: array<char>, at: nat, c: char)
    requires at < dest.Length
    modifies dest
    ensures dest[..at + 1] == old(dest[..at]) + [c]
  {
    dest[at] := c;
  }

  /** `charmemset` with the indentation character. */
  method CharMemSet(dest: array<char>, at: nat, l: nat)
    requires at + l <= dest.Length
    modifies dest
    ensures dest[..at + l] == old(dest[..at]) + Tabs(l)
  {
    var left, to := l, at;
    while left != 0
      invariant 0 <= left <= l && to == at + l - left
      invariant dest[..to] + Tabs(left) == old(dest[..at]) + Tabs(l)
    {
      assert dest[..to] + ("\t" + Tabs(left - 1)) == dest[..to] + ['\t'] + Tabs(left - 1);
      dest[to] := '\t';
      left, to := left - 1, to + 1;
    }
    assert dest[..to] + "" == dest[..to];
  }

  /** The end of a line, one character in either pass. */
  method PutNewLine(marker: array?<char>, at: nat, wanted: bool) returns (end: nat)
    requires Room(marker, at, NewLine(wanted))
    modifies marker
    ensures end == at + |NewLine(wanted)|
    ensures marker != null ==> marker[..end] == old(marker[..at]) + NewLine(wanted)
  {
    end := at;
    if wanted {
      if marker != null {
        SetChar(marker, at, '\n');
      }
      end := end + 1;
    }
  }

  /** What stands in front of the content, without the end of the start tag. */
  function PrintName(e: Encoding, t: Elem, format: int, n: nat): string
    requires Named(t) && n <= |t.attributes|
  {
    Tabs(format) + "<" + (if t.isDeclaration then "?" else "") + t.name.value + PrintAttributes(e, t.attributes, n)
  }

  lemma {:induction false} NameGrows(e: Encoding, t: Elem, format: int, n: nat)
    requires Named(t) && n <= |t.attributes|
    ensures |PrintName(e, t, format, n)| <= |PrintName(e, t, format, |t.attributes|)|
    decreases |t.attributes| - n
  {
    hide PrintAttribute;
    if n < |t.attributes| {
      NameGrows(e, t, format, n + 1);
    }
  }

  /** The part of the start tag in front of the attributes, with a blank behind it.  The measuring pass has a formula
      of its own. */
  method PutHead(e: Encoding, t: Elem, marker: array?<char>, at: nat, format: int) returns (end: nat)
    requires Named(t) && Room(marker, at, PrintName(e, t, format, 0) + " ")
    modifies marker
    ensures end == at + |PrintName(e, t, format, 0)| + 1
    ensures marker != null ==> marker[..end] == old(marker[..at]) + PrintName(e, t, format, 0) + " "
  {
    HeadPrinted(e, t, format);
    hide HeadText, PrintName;
    var cb := if format < 0 then 0 else format;
    var cbElement := |t.name.value|;
    if marker != null {
      end := WriteHead(t, marker, at, cb);
    } else {
      end := at + cbElement + 2 + cb;
      if t.isDeclaration {
        end := end + 1;
      }
    }
  }

  method WriteHead(t: Elem, marker: array<char>, at: nat, cb: nat) returns (end: nat)
    requires Named(t) && at + |HeadText(t, cb)| + 1 < marker.Length
    modifies marker
    ensures end == at + |HeadText(t, cb)| + 1 && marker[..end] == old(marker[..at]) + HeadText(t, cb) + " "
  {
    hide Tabs;
    end := WriteIndent(marker, at, cb);
    end := WriteOpen(marker, end, t.isDeclaration);
    StrCpy(marker, end, t.name.value);
    end := end + |t.name.value|;
    SetChar(marker, end, ' ');
    end := end + 1;
    HeadWritten(old(marker[..at]), Tabs(cb), if t.isDeclaration then "<?" else "<", t.name.value);
  }

  lemma HeadWritten(before: string, tabs: string, open: string, name: string)
    ensures before + tabs + open + name + " " == before + (tabs + open + name) + " "
  {
    Assoc(before, tabs, open);
    Assoc(before, tabs + open, name);
  }

  method WriteIndent(marker: array<char>, at: nat, cb: nat) returns (end: nat)
    requires at + cb <= marker.Length
    modifies marker
    ensures end == at + cb && marker[..end] == old(marker[..at]) + Tabs(cb)
  {
    TabsNone(0);
    hide Tabs;
    if cb != 0 {
      CharMemSet(marker, at, cb);
    }
    end := at + cb;
  }

  /** `<` or `<?`. */
  method WriteOpen(marker: array<char>, at: nat, isDeclaration: bool) returns (end: nat)
    requires at + 1 < marker.Length
    modifies marker
    ensures var open := if isDeclaration then "<?" else "<";
            end == at + |open| && marker[..end] == old(marker[..at]) + open
  {
    SetChar(marker, at, '<');
    end := at + 1;
    if isDeclaration {
      SetChar(marker, end, '?');
      end := end + 1;
    }
  }

  /** The start of a start tag behind `cb` indentation characters. */
  function HeadText(t: Elem, cb: nat): (r: string)
    requires Named(t)
    ensures |r| == cb + 1 + (if t.isDeclaration then 1 else 0) + |t.name.value|
  {
    Tabs(cb) + (if t.isDeclaration then "<?" else "<") + t.name.value
  }

  lemma TabsNone(n: int)
    ensures n <= 0 ==> Tabs(n) == ""
  {
  }

  lemma HeadPrinted(e: Encoding, t: Elem, format: int)
    requires Named(t)
    ensures PrintName(e, t, format, 0) == HeadText(t, if format < 0 then 0 else format)
  {
    TabsNone(format);
    hide Tabs;
    var tabs, name := Tabs(format), t.name.value;
    assert tabs + "<" + "?" == tabs + "<?" && tabs + "<" + "" == tabs + "<";
    assert PrintAttributes(e, t.attributes, 0) == "";
  }

  lemma NameNext(e: Encoding, t: Elem, format: int, i: nat)
    requires Named(t) && i < |t.attributes|
    ensures PrintName(e, t, format, i + 1) == PrintName(e, t, format, i) + PrintAttribute(e, t.attributes[i])
  {
    hide PrintAttribute;
    Assoc(Tabs(format) + "<" + (if t.isDeclaration then "?" else "") + t.name.value,
          PrintAttributes(e, t.attributes, i), PrintAttribute(e, t.attributes[i]));
  }

  /** The start tag with a blank at its end in place of `>` or `/>`. */
  method PutName(e: Encoding, t: Elem, marker: array?<char>, at: nat, format: int) returns (end: nat)
    requires Named(t) && SafeElem(e, t) && Room(marker, at, PrintName(e, t, format, |t.attributes|) + " ")
    modifies marker
    ensures end == at + |PrintName(e, t, format, |t.attributes|)| + 1
    ensures marker != null ==> marker[..end] == old(marker[..at]) + PrintName(e, t, format, |t.attributes|) + " "
  {
    hide PrintName, PrintAttribute, PrintAttributes;
    NameGrows(e, t, format, 0);
    end := PutHead(e, t, marker, at, format);
    ghost var before := if marker == null then "" else old(marker[..at]);
    var i := 0;
    while i < |t.attributes|
      invariant i <= |t.attributes|
      invariant end == at + |PrintName(e, t, format, i)| + 1
      invariant marker != null ==> end <= marker.Length && marker[..end] == before + PrintName(e, t, format, i) + " "
    {
      NameGrows(e, t, format, i + 1);
      NameNext(e, t, format, i);
      ghost var done, piece := PrintName(e, t, format, i), PrintAttribute(e, t.attributes[i]);
      Assoc(before, done, piece);
      end := PutAttribute(e, t.attributes[i], marker, end, before + done);
      i := i + 1;
    }
  }

  lemma LastBlank(marker: array?<char>, end: nat, w: string)
    requires marker != null ==> end <= marker.Length && marker[..end] == w + " "
    ensures marker != null ==> end > 0 && marker[end - 1] == ' ' && marker[..end - 1] == w
  {
    if marker != null {
      assert marker[..end][|w|] == ' ';
      assert marker[..end][..|w|] == w;
    }
  }

  /** An attribute and the blank behind it; `before` and a blank stand in front. */
  method PutAttribute(e: Encoding, a: Attribute, marker: array?<char>, at: nat, ghost before: string)
    returns (end: nat)
    requires (a.value.Some? ==> Safe(e, a.value.value)) && Room(marker, at, PrintAttribute(e, a))
    requires marker != null ==> marker[..at] == before + " "
    modifies marker
    ensures end == at + |PrintAttribute(e, a)|
    ensures marker != null ==> marker[..end] == before + PrintAttribute(e, a) + " "
  {
    end := at;
    AttributeText(e, a);
    hide PrintAttribute, PrintValue;
    if a.name != "" {
      ghost var pair := a.name + PrintValue(e, a.value);
      end := PutPair(e, a, marker, at);
      if marker != null {
        SetChar(marker, end, ' ');
        AttributeWritten(before, pair);
      }
      end := end + 1;
    } else {
      assert before + "" == before;
    }
  }

  /** A name and its value, if it has one. */
  method PutPair(e: Encoding, a: Attribute, marker: array?<char>, at: nat) returns (end: nat)
    requires (a.value.Some? ==> Safe(e, a.value.value)) && Room(marker, at, a.name + PrintValue(e, a.value))
    modifies marker
    ensures end == at + |a.name + PrintValue(e, a.value)|
    ensures marker != null ==> marker[..end] == old(marker[..at]) + (a.name + PrintValue(e, a.value))
  {
    hide Encode, EncodeFrom;
    var cb := |a.name|;
    if marker != null {
      StrCpy(marker, at, a.name);
    }
    end := at + cb;
    if a.value.Some? {
      hide PrintValue;
      end := PutValue(e, marker, end, a.value.value);
      if marker != null {
        Assoc(old(marker[..at]), a.name, PrintValue(e, a.value));
      }
    }
  }

  lemma AttributeText(e: Encoding, a: Attribute)
    ensures PrintAttribute(e, a) == if a.name == "" then "" else " " + (a.name + PrintValue(e, a.value))
  {
    hide Encode, EncodeFrom, PrintValue;
    Assoc(" ", a.name, PrintValue(e, a.value));
  }

  lemma AttributeWritten(before: string, pair: string)
    ensures before + " " + pair + " " == before + (" " + pair) + " "
  {
    Assoc(before, " ", pair);
  }

  method PutValue(e: Encoding, marker: array?<char>, at: nat, value: string) returns (end: nat)
    requires Safe(e, value) && Room(marker, at, PrintValue(e, Some(value)))
    modifies marker
    ensures end == at + |PrintValue(e, Some(value))|
    ensures marker != null ==> marker[..end] == old(marker[..at]) + PrintValue(e, Some(value))
  {
    hide Encode, EncodeFrom;
    var cb := LengthXMLString(e, value);
    if marker != null {
      SetChar(marker, at, '=');
      SetChar(marker, at + 1, '\"');
      WriteEncoded(e, marker, at + 2, value, cb);
      SetChar(marker, at + cb + 2, '\"');
      ValueWritten(old(marker[..at]), Encode(e, value));
    }
    end := at + cb + 3;
  }

  lemma ValueWritten(before: string, w: string)
    ensures before + ['='] + ['\"'] + w + ['\"'] == before + ("=\"" + w + "\"")
  {
    assert before + ['='] + ['\"'] == before + "=\"";
    Assoc(before, "=\"", w);
    Assoc(before, "=\"" + w, "\"");
  }

  /** `if (cb) toXMLUnSafe(marker + at, text)`. */
  method WriteEncoded(e: Encoding, marker: array<char>, at: nat, text: string, cb: nat)
    requires Safe(e, text) && cb == |Encode(e, text)| && at + cb < marker.Length
    modifies marker
    ensures marker[..at + cb] == old(marker[..at]) + Encode(e, text)
  {
    hide Encode, EncodeFrom;
    if cb > 0 {
      ToXMLUnSafe(e, marker, at, text);
    }
  }

  /** Formats below -1 are for single texts only. */
  predicate Indented(x: Item, inner: int, childFormat: int) {
    x.Text? || (inner >= -1 && childFormat >= -1)
  }

  /** The content: the items one after the other. */
  method PutItems(e: Encoding, t: Elem, marker: array?<char>, at: nat, inner: int, childFormat: int) returns (end: nat)
    requires SafeElem(e, t) && Room(marker, at, PrintItems(e, t.items, |t.items|, inner, childFormat))
    requires forall i :: 0 <= i < |t.items| ==> Indented(t.items[i], inner, childFormat)
    modifies marker
    ensures end == at + |PrintItems(e, t.items, |t.items|, inner, childFormat)|
    ensures marker != null ==>
            marker[..end] == old(marker[..at]) + PrintItems(e, t.items, |t.items|, inner, childFormat)
    decreases t, 0
  {
    hide PrintItems, PrintItem;
    end := at;
    ghost var before := if marker == null then "" else old(marker[..at]);
    ItemsNone(e, t.items, inner, childFormat);
    var i := 0;
    while i < |t.items|
      invariant i <= |t.items|
      invariant end == at + |PrintItems(e, t.items, i, inner, childFormat)|
      invariant marker != null ==>
                end <= marker.Length && marker[..end] == before + PrintItems(e, t.items, i, inner, childFormat)
    {
      ItemsNext(e, t.items, i, inner, childFormat);
      ItemsGrow(e, t.items, i + 1, inner, childFormat);
      Assoc(before, PrintItems(e, t.items, i, inner, childFormat), PrintItem(e, t.items[i], inner, childFormat));
      assert SafeItem(e, t.items[i]);
      assert t decreases to t.items[i];
      end := PutItem(e, t.items[i], marker, end, inner, childFormat);
      i := i + 1;
    }
  }

  method PutItem(e: Encoding, x: Item, marker: array?<char>, at: nat, inner: int, childFormat: int) returns (end: nat)
    requires SafeItem(e, x) && Room(marker, at, PrintItem(e, x, inner, childFormat))
    requires Indented(x, inner, childFormat)
    modifies marker
    ensures end == at + |PrintItem(e, x, inner, childFormat)|
    ensures marker != null ==> marker[..end] == old(marker[..at]) + PrintItem(e, x, inner, childFormat)
    decreases x, 0
  {
    ItemUnfold(e, x, inner, childFormat);
    hide PrintItem, Print, PrintText, PrintClear;
    match x {
      case Text(text) => end := PutText(e, text, marker, at, inner);
      case Clear(c) => end := PutClear(c, marker, at, inner);
      case Child(elem) => end := CreateXMLStringR(e, elem, marker, at, childFormat);
    }
  }

  lemma ItemUnfold(e: Encoding, x: Item, inner: int, childFormat: int)
    ensures x.Child? ==> PrintItem(e, x, inner, childFormat) == Print(e, x.elem, childFormat)
    ensures x.Text? ==> PrintItem(e, x, inner, childFormat) == PrintText(e, x.text, inner)
    ensures x.Clear? ==> PrintItem(e, x, inner, childFormat) == PrintClear(x.clear, inner)
  {
    hide Print, PrintText, PrintClear;
  }

  lemma ItemsNone(e: Encoding, items: seq<Item>, inner: int, childFormat: int)
    ensures PrintItems(e, items, 0, inner, childFormat) == ""
  {
  }

  lemma ItemsNext(e: Encoding, items: seq<Item>, i: nat, inner: int, childFormat: int)
    requires i < |items|
    ensures PrintItems(e, items, i + 1, inner, childFormat)
         == PrintItems(e, items, i, inner, childFormat) + PrintItem(e, items[i], inner, childFormat)
  {
    hide PrintItem;
  }

  lemma {:induction false} ItemsGrow(e: Encoding, items: seq<Item>, i: nat, inner: int, childFormat: int)
    requires i <= |items|
    ensures |PrintItems(e, items, i, inner, childFormat)| <= |PrintItems(e, items, |items|, inner, childFormat)|
    decreases |items| - i
  {
    hide PrintItems, PrintItem;
    if i < |items| {
      ItemsNext(e, items, i, inner, childFormat);
      ItemsGrow(e, items, i + 1, inner, childFormat);
    }
  }

  method PutText(e: Encoding, text: string, marker: array?<char>, at: nat, inner: int) returns (end: nat)
    requires Safe(e, text) && Room(marker, at, PrintText(e, text, inner))
    modifies marker
    ensures end == at + |PrintText(e, text, inner)|
    ensures marker != null ==> marker[..end] == old(marker[..at]) + PrintText(e, text, inner)
  {
    TextLine(e, text, inner);
    hide Encode, EncodeFrom, Tabs, PrintText;
    var cb := LengthXMLString(e, text);
    end := at;
    if cb > 0 {
      if inner >= 0 {
        if marker != null {
          CharMemSet(marker, at, inner + 1);
          ToXMLUnSafe(e, marker, at + inner + 1, text);
          SetChar(marker, at + inner + 1 + cb, '\n');
          LineWritten(old(marker[..at]), Tabs(inner + 1), Encode(e, text));
        }
        end := end + cb + inner + 2;
      } else {
        if marker != null {
          ToXMLUnSafe(e, marker, at, text);
        }
        end := end + cb;
      }
    }
  }

  lemma TextLine(e: Encoding, text: string, inner: int)
    ensures var w := Encode(e, text);
            PrintText(e, text, inner) == if w == "" then "" else if inner >= 0 then Tabs(inner + 1) + w + "\n" else w
  {
    hide Encode, EncodeFrom, Tabs;
  }

  lemma LineWritten(before: string, tabs: string, w: string)
    ensures before + tabs + w + ['\n'] == before + (tabs + w + "\n")
  {
    Assoc(before, tabs, w);
    Assoc(before, tabs + w, "\n");
  }

  method PutClear(c: ClearText, marker: array?<char>, at: nat, inner: int) returns (end: nat)
    requires inner >= -1 && Room(marker, at, PrintClear(c, inner))
    modifies marker
    ensures end == at + |PrintClear(c, inner)|
    ensures marker != null ==> marker[..end] == old(marker[..at]) + PrintClear(c, inner)
  {
    ClearLine(c, inner);
    hide PrintClear, OpenTag, ClearClose, Tabs, NewLine;
    ghost var before := if marker == null then "" else old(marker[..at]);
    var open, close := OpenTag(c.tag), ClearClose(c.tag, c.bracket);
    end := PutOpen(open, marker, at, inner);
    end := PutString(marker, end, c.text);
    end := PutString(marker, end, close);
    end := PutNewLine(marker, end, inner != -1);
    ClearWritten(before, if inner != -1 then Tabs(inner + 1) + open else open, c.text, close, NewLine(inner != -1));
  }

  lemma ClearLine(c: ClearText, inner: int)
    ensures var open, close := OpenTag(c.tag), ClearClose(c.tag, c.bracket);
            PrintClear(c, inner)
            == (if inner != -1 then Tabs(inner + 1) + open else open) + c.text + close + NewLine(inner != -1)
  {
    hide OpenTag, ClearClose, Tabs, NewLine;
    assert "" + OpenTag(c.tag) == OpenTag(c.tag);
  }

  lemma ClearWritten(before: string, open: string, text: string, close: string, nl: string)
    ensures before + open + text + close + nl == before + (open + text + close + nl)
  {
    Assoc(before, open, text);
    Assoc(before, open + text, close);
    Assoc(before, open + text + close, nl);
  }

  /** The opening string of a clear tag behind its indentation. */
  method PutOpen(open: string, marker: array?<char>, at: nat, inner: int) returns (end: nat)
    requires inner >= -1 && Room(marker, at, if inner != -1 then Tabs(inner + 1) + open else open)
    modifies marker
    ensures var w := if inner != -1 then Tabs(inner + 1) + open else open;
            end == at + |w| && (marker != null ==> marker[..end] == old(marker[..at]) + w)
  {
    hide Tabs;
    var cb := |open|;
    if inner != -1 {
      if marker != null {
        CharMemSet(marker, at, inner + 1);
        StrCpy(marker, at + inner + 1, open);
        Assoc(old(marker[..at]), Tabs(inner + 1), open);
      }
      end := at + cb + inner + 1;
    } else {
      if marker != null {
        StrCpy(marker, at, open);
      }
      end := at + cb;
    }
  }

  /** `strcpy(marker + at, text)`, if there is a marker and a text. */
  method PutString(marker: array?<char>, at: nat, text: string) returns (end: nat)
    requires Room(marker, at, text)
    modifies marker
    ensures end == at + |text|
    ensures marker != null ==> marker[..end] == old(marker[..at]) + text
  {
    var cb := |text|;
    end := at;
    if cb > 0 {
      if marker != null {
        StrCpy(marker, at, text);
      }
      end := end + cb;
    }
  }

  /** The start tag. */
  method PutStart(e: Encoding, t: Elem, marker: array?<char>, at: nat, format: int, inner: int) returns (end: nat)
    requires SafeElem(e, t) && Room(marker, at, PrintStart(e, t, format, inner) + PrintEnd(t, inner))
    modifies marker
    ensures end == at + |PrintStart(e, t, format, inner)|
    ensures marker != null ==> marker[..end] == old(marker[..at]) + PrintStart(e, t, format, inner)
  {
    end := at;
    if Named(t) {
      StartSplit(e, t, format, inner);
      hide PrintName, PrintAttributes, PrintTagEnd, PrintStart, PrintEnd;
      end := PutName(e, t, marker, at, format);
      ghost var head := if marker == null then "" else old(marker[..at]) + PrintName(e, t, format, |t.attributes|);
      LastBlank(marker, end, head);
      end := PutTagEnd(t, marker, end, inner);
      if marker != null {
        Assoc(old(marker[..at]), PrintName(e, t, format, |t.attributes|), PrintTagEnd(t, inner));
      }
    } else {
      hide PrintEnd;
    }
  }

  /** The end of the start tag takes the place of the blank at `at - 1`. */
  method PutTagEnd(t: Elem, marker: array?<char>, at: nat, inner: int) returns (end: nat)
    requires at > 0 && Room(marker, at - 1, PrintTagEnd(t, inner)) && (marker != null ==> at < marker.Length)
    modifies marker
    ensures end == at - 1 + |PrintTagEnd(t, inner)|
    ensures marker != null ==> marker[..end] == old(marker[..at - 1]) + PrintTagEnd(t, inner)
  {
    end := at;
    if t.isDeclaration {
      if marker != null {
        marker[end - 1] := '?';
        marker[end] := '>';
      }
      end := end + 1;
      end := PutNewLine(marker, end, inner != -1);
    } else if t.items != [] {
      if marker != null {
        marker[end - 1] := '>';
      }
      end := PutNewLine(marker, end, inner >= 0);
    } else {
      end := end - 1;
    }
  }

  lemma StartSplit(e: Encoding, t: Elem, format: int, inner: int)
    requires Named(t)
    ensures PrintStart(e, t, format, inner) == PrintName(e, t, format, |t.attributes|) + PrintTagEnd(t, inner)
  {
  }

  /** The end tag, or the end of a tag without content.  For the end tag the measuring pass has three formulas of its
      own. */
  method PutEnd(t: Elem, marker: array?<char>, at: nat, inner: int) returns (end: nat)
    requires Room(marker, at, PrintEnd(t, inner))
    modifies marker
    ensures end == at + |PrintEnd(t, inner)|
    ensures marker != null ==> marker[..end] == old(marker[..at]) + PrintEnd(t, inner)
  {
    end := at;
    if Named(t) && !t.isDeclaration {
      var cbElement := |t.name.value|;
      if t.items != [] {
        EndLine(t, inner);
        hide Tabs, PrintEnd;
        if marker != null {
          end := WriteEndTag(t.name.value, marker, at, inner);
        } else if inner >= 0 {
          end := end + cbElement + 4 + inner;
        } else if inner == -1 {
          end := end + cbElement + 3;
        } else {
          end := end + cbElement + 4;
        }
      } else {
        if marker != null {
          SetChar(marker, at, '/');
          SetChar(marker, at + 1, '>');
          if inner != -1 {
            SetChar(marker, at + 2, '\n');
          }
        }
        end := end + if inner == -1 then 2 else 3;
      }
    }
  }

  function EndTag(name: string, inner: int): (r: string)
    ensures |r| == |name| + (if inner == -1 then 3 else 4) + if inner >= 0 then inner else 0
  {
    Tabs(inner) + "</" + name + ">" + NewLine(inner != -1)
  }

  lemma EndLine(t: Elem, inner: int)
    requires Named(t) && !t.isDeclaration && t.items != []
    ensures PrintEnd(t, inner) == EndTag(t.name.value, inner)
  {
    hide Tabs;
  }

  method WriteEndTag(name: string, marker: array<char>, at: nat, inner: int) returns (end: nat)
    requires at + |EndTag(name, inner)| < marker.Length
    modifies marker
    ensures end == at + |EndTag(name, inner)| && marker[..end] == old(marker[..at]) + EndTag(name, inner)
  {
    TabsNone(inner);
    hide Tabs;
    end := at;
    if inner >= 0 {
      CharMemSet(marker, end, inner);
      end := end + inner;
    }
    SetChar(marker, end, '<');
    SetChar(marker, end + 1, '/');
    end := end + 2;
    StrCpy(marker, end, name);
    end := end + |name|;
    end := WriteLineEnd(marker, end, inner);
    EndWritten(old(marker[..at]), Tabs(inner), name, NewLine(inner != -1));
  }

  /** `>` and the end of the line. */
  method WriteLineEnd(marker: array<char>, at: nat, inner: int) returns (end: nat)
    requires at + |">" + NewLine(inner != -1)| <= marker.Length
    modifies marker
    ensures end == at + |">" + NewLine(inner != -1)|
    ensures marker[..end] == old(marker[..at]) + (">" + NewLine(inner != -1))
  {
    SetChar(marker, at, '>');
    if inner == -1 {
      end := at + 1;
    } else {
      SetChar(marker, at + 1, '\n');
      end := at + 2;
    }
  }

  lemma EndWritten(before: string, tabs: string, name: string, nl: string)
    ensures before + tabs + ['<'] + ['/'] + name + (">" + nl) == before + (tabs + "</" + name + ">" + nl)
    ensures before + "" == before
  {
    assert before + tabs + ['<'] + ['/'] == before + (tabs + "</");
    Assoc(before, tabs + "</", name);
    Assoc(before, tabs + "</" + name, ">" + nl);
    Assoc(tabs + "</" + name, ">", nl);
  }

  /** `CreateXMLStringR`: without a marker it measures, with a marker it writes what it has measured.  Its callers
      pass -1 for compact text, and the depth of the indentation otherwise. */
  method CreateXMLStringR(e: Encoding, t: Elem, marker: array?<char>, at: nat, format: int) returns (end: nat)
    requires SafeElem(e, t) && Room(marker, at, Print(e, t, format)) && format >= -1
    modifies marker
    ensures end == at + |Print(e, t, format)|
    ensures marker != null ==> marker[..end] == old(marker[..at]) + Print(e, t, format)
    decreases t, 1
  {
    hide PrintStart, PrintItems, PrintEnd;
    var inner := InnerFormat(t, format);
    var childFormat := ChildFormat(t, inner);
    end := PutStart(e, t, marker, at, format, inner);
    end := PutItems(e, t, marker, end, inner, childFormat);
    end := PutEnd(t, marker, end, inner);
  }

  /** `createXMLString`: the buffer has exactly the measured size, and the writing pass fills it. */
  method CreateXMLString(e: Encoding, t: Elem, formatted: int) returns (r: string)
    requires SafeElem(e, t)
    ensures r == Print(e, t, if formatted != 0 then 0 else -1)
  {
    hide Print;
    var format := if formatted != 0 then 0 else -1;
    var size := CreateXMLStringR(e, t, null, 0, format);
    var result := new char[size + 1];
    var written := CreateXMLStringR(e, t, result, 0, format);
    assert written == size;
    result[size] := '\0';
    r := result[..size];
  }
}
