/** Documents as they may be written: trees with white space between the parts, and with end tags left out. */
module Documents {
  import opened Wrappers
  import opened CStrings
  import opened Escape
  import opened Lexer
  import opened Nodes
  import opened Grammar

  /** How an element ends: `/>`, an end tag, or nothing at all. */
  datatype Ending = Short | Full | Omitted

  /** An element as written; `tail` is the white space before its end.  A declaration has no end of its own. */
  datatype Doc =
    Doc(name: string, isDeclaration: bool, attributes: seq<Attribute>, parts: seq<Part>, tail: string, ending: Ending)

  /** Something inside an element, behind the white space `gap`. */
  datatype Part = Sub(gap: string, doc: Doc) | Run(gap: string, text: string) | Raw(gap: string, clear: ClearText)

  // ---------------------------------------------------------------- the tree that is meant

  function Erase(d: Doc): Elem {
    Elem(Some(d.name), d.isDeclaration, d.attributes, EraseTo(d.parts, |d.parts|))
  }

  function ErasePart(p: Part): Item {
    match p
    case Sub(_, doc) => Child(Erase(doc))
    case Run(_, text) => Text(text)
    case Raw(_, clear) => Clear(clear)
  }

  /** The items of the first `n` parts, texts with only a comment between them made one. */
  function EraseTo(parts: seq<Part>, n: nat): seq<Item>
    requires n <= |parts|
    decreases parts, n
  {
    if n == 0 then [] else Join(EraseTo(parts, n - 1), ErasePart(parts[n - 1]))
  }

  /** One more item: a text behind a comment behind a text goes on with that text. */
  function Join(items: seq<Item>, x: Item): seq<Item> {
    if x.Text? then AddTextItem(items, x.text) else items + [x]
  }

  // ---------------------------------------------------------------- the text

  function WriteAttribute(e: Encoding, a: Attribute): string {
    " " + a.name + match a.value case None => "" case Some(v) => "=\"" + Encode(e, v) + "\""
  }

  function WriteAttributes(e: Encoding, attributes: seq<Attribute>, k: nat): string
    requires k <= |attributes|
    decreases |attributes| - k
  {
    if k == |attributes| then "" else WriteAttribute(e, attributes[k]) + WriteAttributes(e, attributes, k + 1)
  }

  /** The end of the start tag. */
  function TagClose(d: Doc): string {
    if d.isDeclaration then "?>" else if d.ending == Short then "/>" else ">"
  }

  function WriteOpen(d: Doc): string {
    if d.isDeclaration then "<?" else "<"
  }

  function WriteEnd(name: string): string {
    "</" + name + ">"
  }

  function Write(e: Encoding, d: Doc): string
    decreases d
  {
    WriteOpen(d) + d.name + WriteAttributes(e, d.attributes, 0) + TagClose(d)
    + WriteParts(e, d.parts, 0) + d.tail + if d.ending == Full then WriteEnd(d.name) else ""
  }

  function WriteClear(c: ClearText): string {
    OpenTag(c.tag) + c.text + ClearClose(c.tag, c.bracket)
  }

  function WritePart(e: Encoding, p: Part): string
    decreases p
  {
    p.gap + match p
            case Sub(_, doc) => Write(e, doc)
            case Run(_, text) => Encode(e, text)
            case Raw(_, clear) => WriteClear(clear)
  }

  /** The parts from number `k` on. */
  function WriteParts(e: Encoding, parts: seq<Part>, k: nat): string
    requires k <= |parts|
    decreases parts, |parts| - k
  {
    if k == |parts| then "" else WritePart(e, parts[k]) + WriteParts(e, parts, k + 1)
  }

  // ---------------------------------------------------------------- which documents are meant

  predicate PlainChar(c: char) {
    c != '\0' && !IsSpace(c) && c != '<' && c != '>' && c != '=' && c != '/'
  }

  ghost predicate PlainWord(e: Encoding, n: string) {
    n != "" && Safe(e, n) && (forall i :: 0 <= i < |n| ==> PlainChar(n[i])) && n[0] != '\'' && n[0] != '\"'
  }

  /** A name that the tokenizer cannot take for anything else. */
  ghost predicate PlainName(e: Encoding, n: string) {
    PlainWord(e, n) && n[0] != '?' && n[0] != '!'
  }

  ghost predicate GoodAttribute(e: Encoding, a: Attribute) {
    PlainWord(e, a.name) && (a.value.Some? ==> Safe(e, a.value.value))
  }

  ghost predicate GoodText(e: Encoding, t: string) {
    t != "" && Safe(e, t) && !IsSpace(t[0]) && !IsSpace(t[|t| - 1])
  }

  /** A non-empty clear tag whose text does not hold the string that closes it. */
  ghost predicate GoodClear(e: Encoding, c: ClearText) {
    c.text != "" && Safe(e, c.text)
        && ClearEnd(e, c.text + ClearClose(c.tag, c.bracket), 0, c.tag) == Some((|c.text|, c.bracket))
  }

  /** A part that is still open where its text ends. */
  predicate Open(p: Part, depth: nat) {
    p.Sub? && p.doc.ending == Omitted && (p.doc.isDeclaration ==> depth < 2)
  }

  /** No element that is still open at the end of the parts has the name `n`. */
  ghost predicate SpineAvoids(parts: seq<Part>, n: string) {
    parts != [] && parts[|parts| - 1].Sub? && parts[|parts| - 1].doc.ending == Omitted ==>
      var d := parts[|parts| - 1].doc;
      d.isDeclaration || (!SameName(d.name, n) && SpineAvoids(d.parts, n))
  }

  /** White space in the gaps, and no two texts with nothing between them. */
  ghost predicate Separated(parts: seq<Part>) {
    forall k :: 0 <= k < |parts| ==>
      && AllSpace(parts[k].gap)
      && (parts[k].Run? && k > 0 ==> !parts[k - 1].Run?)
  }

  /** The parts of an element, `depth` being the depth of its children: only the last may still be open. */
  ghost predicate GoodParts(e: Encoding, parts: seq<Part>, depth: nat) {
    && Separated(parts)
    && forall k :: 0 <= k < |parts| ==>
         && (match parts[k]
             case Sub(_, doc) => Good(e, doc, depth)
             case Run(_, text) => GoodText(e, text)
             case Raw(_, clear) => GoodClear(e, clear))
         && (Open(parts[k], depth) ==> k == |parts| - 1)
  }

  /** A document that the parser is meant to read as the tree it stands for. */
  ghost predicate Good(e: Encoding, d: Doc, depth: nat) {
    && PlainName(e, d.name)
    && (forall k :: 0 <= k < |d.attributes| ==> GoodAttribute(e, d.attributes[k]))
    && AllSpace(d.tail)
    && GoodParts(e, d.parts, depth + 1)
    && (d.ending == Short ==> d.parts == [] && d.tail == "")
    && (d.ending == Full ==> SpineAvoids(d.parts, d.name))
    && (d.isDeclaration ==> d.ending == Omitted && d.attributes != [] && (depth >= 2 ==> d.parts == [] && d.tail == ""))
    && (d.name == "PRE" && d.attributes == [] ==> d.ending == Short)
  }

  /** Some end tag is left out. */
  predicate Omits(parts: seq<Part>, k: nat)
    requires k <= |parts|
    decreases parts, |parts| - k
  {
    k < |parts| && ((parts[k].Sub? && OmitsDoc(parts[k].doc)) || Omits(parts, k + 1))
  }

  predicate OmitsDoc(d: Doc) {
    (d.ending == Omitted && !d.isDeclaration) || Omits(d.parts, 0)
  }
}
