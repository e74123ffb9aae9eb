/** The parser undoes the writer: reading a written document gives the tree it stands for, whatever white space
    stands between the parts and whichever inner end tags are left out. */
module Reading {
  import opened Wrappers
  import opened CStrings
  import opened Escape
  import opened Lexer
  import opened Nodes
  import opened Grammar
  import opened Documents
  import opened Lexemes
  import opened Tags
  import opened Contents
  import Order

  /** What is asked of the parts of an element at `depth` that end at `stop`. */
  ghost predicate Fits(e: Encoding, parts: seq<Part>, stop: Stop, node: Elem, depth: nat) {
    && GoodParts(e, parts, depth + 1)
    && (node.name.None? <==> depth == 0)
    && (node.name.Some? ==> PlainName(e, node.name.value))
    && (node.isDeclaration ==> depth == 1 && !stop.EndTag?)
    && (stop.EndTag? ==> depth > 0 && PlainName(e, stop.name) && SpineAvoids(parts, stop.name))
    && (stop.BadText? ==> EndsPlain(parts))
  }

  /** Nowhere at the open end of the parts is a text. */
  predicate EndsPlain(parts: seq<Part>) {
    parts != [] ==>
      var last := parts[|parts| - 1];
      !last.Run? && (last.Sub? && last.doc.ending == Omitted ==> EndsPlain(last.doc.parts))
  }

  /** The error behind parts in front of which it was `error`. */
  function ErrorBehind(omitted: bool, error: XMLError): XMLError {
    if omitted then ErrorMissingEndTag else error
  }

  /** The result of a level that has read all its parts and the stop at `z`.  An end tag that is not its own it
      passes on to its caller. */
  ghost predicate ReadTo(r: Parsed, parts: seq<Part>, k: nat, stop: Stop, z: nat, node: Elem, depth: nat,
                         error: XMLError)
    requires k <= |parts|
  {
    && r.node == node.(items := EraseTo(parts, |parts|))
    && match stop
       case EndTag(x) =>
         && r.ok && r.st.idx == z + |x| + 3 && r.st.text == Some(z + |x| + 3)
         && (if node.name.Some? && SameName(node.name.value, x)
             then r.st.cbEnd == 0 && r.st.error == ErrorBehind(Omits(parts, k), error)
             else r.st.cbEnd == |x| && r.st.endTag == z + 2 && r.st.error == ErrorMissingEndTag)
       case EndOfText =>
         !r.ok && r.st.error == ErrorBehind(Omits(parts, k) || (depth > 0 && !node.isDeclaration), error)
       case Broken(wrong) => !r.ok && r.st.error == wrong
       case BadText(wrong) => !r.ok && r.st.error == wrong
  }

  /** What is asked of the text. */
  ghost predicate Stands(e: Encoding, s: string, parts: seq<Part>, k: nat, st: State, items: seq<Item>, stop: Stop,
                         z: nat)
    requires k <= |parts|
  {
    && InText(s, st) && Ready(e, s, parts, k, st.idx, st, items)
    && Has(s, st.idx, WriteParts(e, parts, k))
    && Blank(s, st.idx + |WriteParts(e, parts, k)|, z) && StopsAt(e, s, z, stop)
  }

  lemma WriteSplit(e: Encoding, d: Doc)
    ensures Write(e, d)
            == Head(e, d) + (WriteParts(e, d.parts, 0) + (d.tail + if d.ending == Full then WriteEnd(d.name) else ""))
  {
    hide WriteParts, WriteAttributes, WriteEnd;
    var open, atts, close := WriteOpen(d), WriteAttributes(e, d.attributes, 0), TagClose(d);
    var body, end := WriteParts(e, d.parts, 0), if d.ending == Full then WriteEnd(d.name) else "";
    assert TagRest(e, d, 0) == atts + close;
    assert open + d.name + atts + close == open + (d.name + (atts + close));
    var head := Head(e, d);
    assert Write(e, d) == head + body + d.tail + end;
    Assoc(body, d.tail, end);
    Assoc(head, body, d.tail + end);
    Assoc(head + body, d.tail, end);
  }

  /** The text of a child behind its gap. */
  lemma SubPieces(e: Encoding, s: string, i: nat, p: Part)
    requires p.Sub? && Has(s, i, WritePart(e, p))
    ensures var d := p.doc;
            var h := i + |p.gap + Head(e, d)|;
            var b := h + |WriteParts(e, d.parts, 0)|;
            var end := if d.ending == Full then WriteEnd(d.name) else "";
            && Has(s, i, p.gap + Head(e, d)) && Has(s, h, WriteParts(e, d.parts, 0)) && Has(s, b, d.tail)
                && Has(s, b + |d.tail|, end)
            && i + |WritePart(e, p)| == b + |d.tail| + |end|
  {
    hide WriteParts, Write, Head, WriteEnd, Has;
    var d := p.doc;
    var head, body, end := Head(e, d), WriteParts(e, d.parts, 0), if d.ending == Full then WriteEnd(d.name) else "";
    WriteSplit(e, d);
    Assoc(p.gap, head, body + (d.tail + end));
    HasAppend(s, i, p.gap + head, body + (d.tail + end));
    HasAppend(s, i + |p.gap + head|, body, d.tail + end);
    HasAppend(s, i + |p.gap + head| + |body|, d.tail, end);
  }

  /** One part is taken off the text. */
  lemma PartPieces(e: Encoding, s: string, parts: seq<Part>, k: nat, i: nat)
    requires k < |parts| && Has(s, i, WriteParts(e, parts, k))
    ensures Has(s, i, WritePart(e, parts[k])) && Has(s, i + |WritePart(e, parts[k])|, WriteParts(e, parts, k + 1))
    ensures i + |WriteParts(e, parts, k)| == i + |WritePart(e, parts[k])| + |WriteParts(e, parts, k + 1)| <= |s|
  {
    hide WritePart;
    HasAppend(s, i, WritePart(e, parts[k]), WriteParts(e, parts, k + 1));
  }

  lemma PartGood(e: Encoding, parts: seq<Part>, k: nat, depth: nat)
    requires GoodParts(e, parts, depth) && k < |parts|
    ensures Separated(parts)
    ensures parts[k].Sub? ==> Good(e, parts[k].doc, depth) && GoodHead(e, parts[k].doc)
    ensures parts[k].Run? ==> GoodText(e, parts[k].text)
    ensures parts[k].Raw? ==> GoodClear(e, parts[k].clear)
    ensures Open(parts[k], depth) ==> k == |parts| - 1
  {
    if parts[k].Sub? {
      HeadGood(e, parts[k].doc, depth);
    }
  }

  lemma HeadGood(e: Encoding, d: Doc, depth: nat)
    requires Good(e, d, depth)
    ensures GoodHead(e, d)
  {
    hide GoodParts, SpineAvoids;
  }

  /** The element with its start tag read. */
  function Opening(d: Doc): Elem {
    Elem(Some(d.name), d.isDeclaration, d.attributes, [])
  }

  lemma OpeningErased(d: Doc)
    ensures Opening(d).(items := EraseTo(d.parts, |d.parts|)) == Erase(d)
  {
  }

  // ---------------------------------------------------------------- one part

  lemma RunCase(e: Encoding, s: string, parts: seq<Part>, k: nat, st: State, node: Elem, depth: nat, stop: Stop,
                z: nat, next: nat)
    requires k < |parts| && parts[k].Run? && Separated(parts) && GoodText(e, parts[k].text)
    requires Stands(e, s, parts, k, st, node.items, stop, z)
    requires next == st.idx + |WritePart(e, parts[k])|
    ensures Stands(e, s, parts, k + 1, st.(idx := next), node.items, stop, z)
    ensures ParseContent(e, s, st, node, depth) == ParseContent(e, s, st.(idx := next), node, depth)
  {
    hide Ready, WriteParts, WritePart, Separated, GoodText, ParseContent, Has, Blank, StopsAt;
    PartPieces(e, s, parts, k, st.idx);
    var next1, st1 := RunReads(e, s, parts, k, st.idx, st, node, depth);
    ReadyText(e, s, parts, k + 1, next, st1, node.items);
  }

  lemma RawCase(e: Encoding, s: string, parts: seq<Part>, k: nat, st: State, node: Elem, depth: nat, stop: Stop,
                z: nat, next: nat)
    requires k < |parts| && parts[k].Raw? && Separated(parts) && GoodClear(e, parts[k].clear)
    requires Stands(e, s, parts, k, st, node.items, stop, z)
    requires next == st.idx + |WritePart(e, parts[k])|
    ensures Stands(e, s, parts, k + 1, st.(idx := next, text := Some(next)), EraseTo(parts, k + 1), stop, z)
    ensures ParseContent(e, s, st, node, depth)
         == ParseContent(e, s, st.(idx := next, text := Some(next)), node.(items := EraseTo(parts, k + 1)), depth)
  {
    hide Ready, WriteParts, WritePart, Separated, GoodClear, ParseContent, Has, Blank, StopsAt, EraseTo;
    PartPieces(e, s, parts, k, st.idx);
    RawReads(e, s, parts, k, st, node, depth, next);
    ReadyText(e, s, parts, k, st.idx, st, node.items);
    ReadyFresh(e, s, parts, k + 1, st.(idx := next, text := Some(next)));
  }

  /** A child that is over where its text is. */
  ghost predicate ClosedChild(c: Parsed, d: Doc, next: nat, error: XMLError) {
    c.ok && c.node == Erase(d) && c.st.idx == next && c.st.text == Some(next) && c.st.cbEnd == 0
    && c.st.error == ErrorBehind(OmitsDoc(d), error)
  }

  /** The parser behind a closed child. */
  lemma ClosedCase(e: Encoding, s: string, parts: seq<Part>, k: nat, st: State, node: Elem, depth: nat, stop: Stop,
                   z: nat, next: nat, c: Parsed)
    requires k < |parts| && parts[k].Sub? && Stands(e, s, parts, k, st, node.items, stop, z) && InText(s, c.st)
    requires next == st.idx + |WritePart(e, parts[k])| && ClosedChild(c, parts[k].doc, next, st.error)
    ensures Stands(e, s, parts, k + 1, c.st, EraseTo(parts, k + 1), stop, z)
    ensures AfterChild(e, s, c, node.(items := EraseTo(parts, k) + [Child(c.node)]), depth)
         == ParseContent(e, s, c.st, node.(items := EraseTo(parts, k + 1)), depth)
  {
    hide Ready, WriteParts, WritePart, ParseContent, Has, Blank, StopsAt, EraseTo, Erase, OmitsDoc;
    PartPieces(e, s, parts, k, st.idx);
    EraseNext(parts, k);
    EraseSub(parts[k]);
    ReadyFresh(e, s, parts, k + 1, c.st);
  }

  lemma EraseSub(p: Part)
    requires p.Sub?
    ensures ErasePart(p) == Child(Erase(p.doc))
  {
  }

  /** The parser behind a child that was still open at the stop. */
  lemma OpenCase(e: Encoding, s: string, parts: seq<Part>, k: nat, node: Elem, depth: nat, stop: Stop, z: nat,
                 error: XMLError, c: Parsed)
    requires k + 1 == |parts| && Open(parts[k], depth + 1) && Fits(e, parts, stop, node, depth) && InText(s, c.st)
             && StopsAt(e, s, z, stop)
    requires ReadTo(c, parts[k].doc.parts, 0, stop, z, Opening(parts[k].doc), depth + 1, error)
    ensures ReadTo(AfterChild(e, s, c, node.(items := EraseTo(parts, k) + [Child(c.node)]), depth), parts, k, stop, z,
                   node, depth, error)
  {
    hide ParseContent, GoodParts, EraseTo, Erase, SpineAvoids, TagMatches, SameName, PlainName, Omits, StopsAt;
    var d := parts[k].doc;
    SpineOpen(e, parts, k, stop, node, depth);
    StopHas(e, s, z, stop);
    OpeningErased(d);
    EraseNext(parts, k);
    EraseSub(parts[k]);
    OmitsOpen(parts, k);
    if stop.EndTag? {
      EndName(e, s, z, stop.name, node.name.value);
      NotEmpty(e, stop.name);
    }
  }

  lemma SpineOpen(e: Encoding, parts: seq<Part>, k: nat, stop: Stop, node: Elem, depth: nat)
    requires k + 1 == |parts| && Open(parts[k], depth + 1) && Fits(e, parts, stop, node, depth)
    ensures stop.EndTag? ==> !parts[k].doc.isDeclaration && !SameName(parts[k].doc.name, stop.name)
  {
    hide GoodParts, SameName, PlainName;
  }

  lemma StopHas(e: Encoding, s: string, z: nat, stop: Stop)
    requires StopsAt(e, s, z, stop)
    ensures stop.EndTag? ==> Has(s, z, WriteEnd(stop.name))
  {
    hide Has, WriteEnd, BrokenAt, BadTextAt;
  }

  lemma NotEmpty(e: Encoding, n: string)
    requires PlainName(e, n)
    ensures n != ""
  {
  }

  lemma OmitsOpen(parts: seq<Part>, k: nat)
    requires k + 1 == |parts| && parts[k].Sub? && parts[k].doc.ending == Omitted
    ensures Omits(parts, k) <==> !parts[k].doc.isDeclaration || Omits(parts[k].doc.parts, 0)
  {
    assert !Omits(parts, k + 1);
  }

  lemma OmitsNext(parts: seq<Part>, k: nat)
    requires k < |parts|
    ensures Omits(parts, k) <==> (parts[k].Sub? && OmitsDoc(parts[k].doc)) || Omits(parts, k + 1)
  {
  }

  lemma FitsSeparated(e: Encoding, parts: seq<Part>, stop: Stop, node: Elem, depth: nat)
    requires Fits(e, parts, stop, node, depth)
    ensures Separated(parts)
  {
    hide Separated, SpineAvoids, PlainName;
  }

  /** All parts are read. */
  lemma StopReads(e: Encoding, s: string, parts: seq<Part>, st: State, node: Elem, depth: nat, stop: Stop, z: nat)
    requires Fits(e, parts, stop, node, depth) && Stands(e, s, parts, |parts|, st, node.items, stop, z)
    ensures ReadTo(ParseContent(e, s, st, node, depth), parts, |parts|, stop, z, node, depth, st.error)
  {
    hide ParseContent, Ready, EraseTo, GoodParts, Separated, SpineAvoids, TagMatches, SameName, PlainName, WriteEnd,
         WriteParts, Omits, Has, Blank;
    ReadyText(e, s, parts, |parts|, st.idx, st, node.items);
    NothingLeft(e, parts);
    FitsSeparated(e, parts, stop, node, depth);
    StopHas(e, s, z, stop);
    if stop.EndTag? {
      EndReads(e, s, parts, z, stop.name, st, node, depth);
      EndName(e, s, z, stop.name, node.name.value);
      NotEmpty(e, stop.name);
    } else if stop.BadText? {
      BadTextReads(e, s, parts, z, stop.error, st, node, depth);
    } else if stop.Broken? {
      BrokenReads(e, s, parts, z, stop.error, st, node, depth);
    } else {
      EndOfTextReads(e, s, parts, st, node, depth);
    }
  }

  lemma EndName(e: Encoding, s: string, z: nat, x: string, name: string)
    requires PlainName(e, x) && PlainName(e, name) && Has(s, z, WriteEnd(x))
    ensures TagMatches(Some(name), s, z + 2) <==> SameName(name, x)
  {
    hide PlainName, TagMatches, SameName;
    Assoc("</", x, ">");
    HasAppend(s, z, "</", x + ">");
    TagMatchesName(e, s, z + 2, x, name);
  }

  // ---------------------------------------------------------------- children

  /** Where the text of the content of a child begins. */
  function BodyAt(e: Encoding, st: State, p: Part): nat
    requires p.Sub?
  {
    st.idx + |p.gap + Head(e, p.doc)|
  }

  function InBody(st: State, h: nat): State {
    st.(idx := h, text := Some(h))
  }

  /** A child that its start tag closes. */
  lemma TagClosedChild(e: Encoding, s: string, st: State, p: Part, depth: nat, next: nat)
    requires p.Sub? && Good(e, p.doc, depth) && TagEnding(p.doc, depth) == Closed && st.cbEnd == 0
    requires Has(s, st.idx, WritePart(e, p)) && next == st.idx + |WritePart(e, p)|
    ensures BodyAt(e, st, p) == next <= |s| && ClosedChild(ChildOf(e, s, st, p.doc, depth, next), p.doc, next, st.error)
  {
    var d, h := p.doc, BodyAt(e, st, p);
    hide GoodParts, SpineAvoids, PlainName, GoodAttribute, Has, Head, WritePart;
    SubPieces(e, s, st.idx, p);
    HasWord(s, st.idx, WritePart(e, p));
    assert d.parts == [] && d.tail == "" && WriteParts(e, d.parts, 0) == "";
    assert h == next;
    assert EraseTo(d.parts, |d.parts|) == [];
    OpeningErased(d);
    assert !Omits(d.parts, 0) && !OmitsDoc(d);
  }

  /** In front of the first part of a child. */
  lemma BodyStands(e: Encoding, s: string, parts: seq<Part>, st: State, h: nat, stop: Stop, z: nat)
    requires st.cbEnd == 0 && Has(s, h, WriteParts(e, parts, 0)) && Blank(s, h + |WriteParts(e, parts, 0)|, z)
             && StopsAt(e, s, z, stop)
    ensures h <= |s| && Stands(e, s, parts, 0, InBody(st, h), [], stop, z)
  {
    hide Has, Blank, WriteParts, StopsAt, Ready;
    HasWord(s, h, WriteParts(e, parts, 0));
    ReadyFresh(e, s, parts, 0, InBody(st, h));
    assert EraseTo(parts, 0) == [];
  }

  /** The content of a child that its own end tag closes is what the main lemma asks for. */
  lemma FullFits(e: Encoding, d: Doc, depth: nat)
    requires Good(e, d, depth) && d.ending == Full && depth > 0
    ensures !d.isDeclaration && Fits(e, d.parts, EndTag(d.name), Opening(d), depth)
  {
    hide GoodParts, SpineAvoids, PlainName, GoodAttribute;
  }

  lemma FullStands(e: Encoding, s: string, st: State, p: Part, next: nat)
    requires p.Sub? && AllSpace(p.doc.tail) && p.doc.ending == Full && st.cbEnd == 0
    requires Has(s, st.idx, WritePart(e, p)) && next == st.idx + |WritePart(e, p)|
    ensures var d, h := p.doc, BodyAt(e, st, p);
            next >= |d.name| + 3 && h <= |s|
                && Stands(e, s, d.parts, 0, InBody(st, h), [], EndTag(d.name), next - |d.name| - 3)
  {
    hide AllSpace, Has, Head, WritePart, WriteParts, WriteEnd, Stands, Blank;
    var d, h := p.doc, BodyAt(e, st, p);
    SubPieces(e, s, st.idx, p);
    var b := h + |WriteParts(e, d.parts, 0)|;
    BlankGap(s, b, d.tail);
    EndLength(d.name);
    BodyStands(e, s, d.parts, st, h, EndTag(d.name), b + |d.tail|);
  }

  lemma TailBlank(e: Encoding, d: Doc, depth: nat)
    requires Good(e, d, depth)
    ensures AllSpace(d.tail)
  {
    hide GoodParts, SpineAvoids, PlainName, GoodAttribute;
  }

  lemma EndLength(name: string)
    ensures |WriteEnd(name)| == |name| + 3
  {
  }

  /** The content of a child that is still open at the stop of its parent. */
  lemma OpenFits(e: Encoding, parts: seq<Part>, k: nat, node: Elem, depth: nat, stop: Stop)
    requires k + 1 == |parts| && Open(parts[k], depth + 1) && Fits(e, parts, stop, node, depth)
    ensures var d := parts[k].doc; Good(e, d, depth + 1) && Fits(e, d.parts, stop, Opening(d), depth + 1)
  {
    var d := parts[k].doc;
    PartGood(e, parts, k, depth + 1);
    assert d.isDeclaration ==> !stop.EndTag?;
    assert stop.EndTag? ==> SpineAvoids(d.parts, stop.name);
    hide GoodParts, SpineAvoids, PlainName, GoodAttribute;
  }

  lemma OpenStands(e: Encoding, s: string, parts: seq<Part>, k: nat, st: State, items: seq<Item>, stop: Stop, z: nat)
    requires k + 1 == |parts| && parts[k].Sub? && parts[k].doc.ending == Omitted && AllSpace(parts[k].doc.tail)
    requires Stands(e, s, parts, k, st, items, stop, z)
    ensures var d, h := parts[k].doc, BodyAt(e, st, parts[k]);
            h <= |s| && Stands(e, s, d.parts, 0, InBody(st, h), [], stop, z)
  {
    hide AllSpace, Has, Head, WritePart, WriteParts, WriteEnd, StopsAt, Ready, Blank;
    var d, h := parts[k].doc, BodyAt(e, st, parts[k]);
    ReadyText(e, s, parts, k, st.idx, st, items);
    PartPieces(e, s, parts, k, st.idx);
    SubPieces(e, s, st.idx, parts[k]);
    NothingLeft(e, parts);
    var b := h + |WriteParts(e, d.parts, 0)|;
    BlankGap(s, b, d.tail);
    BlankJoin(s, b, b + |d.tail|, z);
    BodyStands(e, s, d.parts, st, h, stop, z);
  }

  lemma NothingLeft(e: Encoding, parts: seq<Part>)
    ensures WriteParts(e, parts, |parts|) == "" && !Omits(parts, |parts|)
  {
  }

  /** The end of the content of a child that its own end tag closes. */
  lemma FullClosed(c: Parsed, d: Doc, next: nat, depth: nat, error: XMLError)
    requires d.ending == Full && !d.isDeclaration && next >= |d.name| + 3
    requires ReadTo(c, d.parts, 0, EndTag(d.name), next - |d.name| - 3, Opening(d), depth, error)
    ensures ClosedChild(c, d, next, error)
  {
    OpeningErased(d);
    hide Omits, EraseTo;
  }

  lemma ChildOpens(e: Encoding, s: string, st: State, d: Doc, depth: nat, h: nat)
    requires h <= |s| && TagEnding(d, depth) == Opened
    ensures ChildOf(e, s, st, d, depth, h) == ParseContent(e, s, InBody(st, h), Opening(d), depth)
  {
    hide ParseContent;
  }

  // ---------------------------------------------------------------- the main lemma

  lemma ReadNext(r: Parsed, parts: seq<Part>, k: nat, omitted: bool, stop: Stop, z: nat, node: Elem, items: seq<Item>,
                 depth: nat, error: XMLError)
    requires k < |parts| && (Omits(parts, k) <==> omitted || Omits(parts, k + 1))
    requires ReadTo(r, parts, k + 1, stop, z, node.(items := items), depth, ErrorBehind(omitted, error))
    ensures ReadTo(r, parts, k, stop, z, node, depth, error)
  {
    hide Omits, EraseTo, SameName;
  }

  lemma FitsLater(e: Encoding, parts: seq<Part>, stop: Stop, node: Elem, items: seq<Item>, depth: nat)
    requires Fits(e, parts, stop, node, depth)
    ensures Fits(e, parts, stop, node.(items := items), depth) && GoodParts(e, parts, depth + 1)
  {
    hide GoodParts, PlainName, SpineAvoids;
  }

  /** From any part on, the parser reads the rest of the parts and the stop behind them. */
  lemma {:induction false} ContentReads(e: Encoding, s: string, parts: seq<Part>, k: nat, st: State, node: Elem,
                                        depth: nat, stop: Stop, z: nat)
    requires k <= |parts| && Fits(e, parts, stop, node, depth) && Stands(e, s, parts, k, st, node.items, stop, z)
    ensures ReadTo(ParseContent(e, s, st, node, depth), parts, k, stop, z, node, depth, st.error)
    decreases parts, |parts| - k
  {
    hide ParseContent, GoodParts, SpineAvoids, PlainName, EraseTo, Has, Blank, Ready, WriteParts, WritePart, StopsAt,
         AfterChild, ChildOf, SameName, Omits, OmitsDoc, Head, Write, ReadTo, Fits;
    if k == |parts| {
      StopReads(e, s, parts, st, node, depth, stop, z);
    } else {
      var next, items := st.idx + |WritePart(e, parts[k])|, EraseTo(parts, k + 1);
      var r := ParseContent(e, s, st, node, depth);
      OmitsNext(parts, k);
      FitsLater(e, parts, stop, node, items, depth);
      PartGood(e, parts, k, depth + 1);
      if parts[k].Run? {
        RunCase(e, s, parts, k, st, node, depth, stop, z, next);
        ContentReads(e, s, parts, k + 1, st.(idx := next), node, depth, stop, z);
        ReadNext(r, parts, k, false, stop, z, node, node.items, depth, st.error);
      } else if parts[k].Raw? {
        RawCase(e, s, parts, k, st, node, depth, stop, z, next);
        ContentReads(e, s, parts, k + 1, InBody(st, next), node.(items := items), depth, stop, z);
        ReadNext(r, parts, k, false, stop, z, node, items, depth, st.error);
      } else if Open(parts[k], depth + 1) {
        var c := OpenReads(e, s, parts, k, st, node, depth, stop, z);
        OpenCase(e, s, parts, k, node, depth, stop, z, st.error, c);
      } else {
        var c := ClosedReads(e, s, parts, k, st, node, depth, stop, z);
        ClosedCase(e, s, parts, k, st, node, depth, stop, z, next, c);
        ContentReads(e, s, parts, k + 1, c.st, node.(items := items), depth, stop, z);
        ReadNext(r, parts, k, OmitsDoc(parts[k].doc), stop, z, node, items, depth, st.error);
      }
    }
  }

  /** A child that is over where its text is, is read as the element it stands for. */
  lemma {:induction false} ClosedReads(e: Encoding, s: string, parts: seq<Part>, k: nat, st: State, node: Elem,
                                       depth: nat, stop: Stop, z: nat)
    returns (c: Parsed)
    requires k < |parts| && parts[k].Sub? && Separated(parts) && Stands(e, s, parts, k, st, node.items, stop, z)
    requires Good(e, parts[k].doc, depth + 1) && !Open(parts[k], depth + 1)
    ensures InText(s, c.st) && ClosedChild(c, parts[k].doc, st.idx + |WritePart(e, parts[k])|, st.error)
    ensures ParseContent(e, s, st, node, depth)
            == AfterChild(e, s, c, node.(items := EraseTo(parts, k) + [Child(c.node)]), depth)
    decreases parts, |parts| - k, 0
  {
    hide ParseContent, Separated, SpineAvoids, PlainName, EraseTo, Has, Blank, Ready, WriteParts, WritePart, StopsAt,
         AfterChild, ChildOf, SameName, Omits, OmitsDoc, Head, Write, Good, GoodHead, ReadTo, ClosedChild;
    var d, h := parts[k].doc, BodyAt(e, st, parts[k]);
    var next := st.idx + |WritePart(e, parts[k])|;
    HeadGood(e, d, depth + 1);
    ReadyText(e, s, parts, k, st.idx, st, node.items);
    PartPieces(e, s, parts, k, st.idx);
    SubPieces(e, s, st.idx, parts[k]);
    SubReads(e, s, parts, k, st, node, depth);
    c := ChildOf(e, s, st, d, depth + 1, h);
    if TagEnding(d, depth + 1) == Closed {
      TagClosedChild(e, s, st, parts[k], depth + 1, next);
    } else {
      ChildOpens(e, s, st, d, depth + 1, h);
      TailBlank(e, d, depth + 1);
      FullFits(e, d, depth + 1);
      FullStands(e, s, st, parts[k], next);
      ContentReads(e, s, d.parts, 0, InBody(st, h), Opening(d), depth + 1, EndTag(d.name), next - |d.name| - 3);
      FullClosed(c, d, next, depth + 1, st.error);
    }
  }

  /** The last child may still be open at the stop of its parent: then it reads on up to there. */
  lemma {:induction false} OpenReads(e: Encoding, s: string, parts: seq<Part>, k: nat, st: State, node: Elem,
                                     depth: nat, stop: Stop, z: nat)
    returns (c: Parsed)
    requires k < |parts| && parts[k].Sub? && Fits(e, parts, stop, node, depth)
             && Stands(e, s, parts, k, st, node.items, stop, z)
    requires Open(parts[k], depth + 1)
    ensures InText(s, c.st) && k + 1 == |parts|
    ensures ParseContent(e, s, st, node, depth)
            == AfterChild(e, s, c, node.(items := EraseTo(parts, k) + [Child(c.node)]), depth)
    ensures ReadTo(c, parts[k].doc.parts, 0, stop, z, Opening(parts[k].doc), depth + 1, st.error)
    decreases parts, |parts| - k, 0
  {
    hide ParseContent, GoodParts, SpineAvoids, PlainName, EraseTo, Has, Blank, Ready, WriteParts, WritePart, StopsAt,
         AfterChild, ChildOf, SameName, Omits, Head, Write, Good, GoodHead, ReadTo;
    var d, h := parts[k].doc, BodyAt(e, st, parts[k]);
    PartGood(e, parts, k, depth + 1);
    ReadyText(e, s, parts, k, st.idx, st, node.items);
    PartPieces(e, s, parts, k, st.idx);
    SubPieces(e, s, st.idx, parts[k]);
    SubReads(e, s, parts, k, st, node, depth);
    c := ChildOf(e, s, st, d, depth + 1, h);
    ChildOpens(e, s, st, d, depth + 1, h);
    TailBlank(e, d, depth + 1);
    OpenFits(e, parts, k, node, depth, stop);
    OpenStands(e, s, parts, k, st, node.items, stop, z);
    ContentReads(e, s, d.parts, 0, InBody(st, h), Opening(d), depth + 1, stop, z);
  }

  // ---------------------------------------------------------------- whole documents

  /** Reading a written document, with white space at its end, gives the parts it was written from; it is reported
      when some end tag was left out, and nothing else is. */
  lemma DocumentReads(e: Encoding, parts: seq<Part>, tail: string)
    requires GoodParts(e, parts, 1) && AllSpace(tail)
    ensures var r := ParseRoot(e, WriteParts(e, parts, 0) + tail);
            && r.node == Elem(None, false, [], EraseTo(parts, |parts|))
            && r.st.error == ErrorBehind(Omits(parts, 0), ErrorNone)
  {
    hide GoodParts, WriteParts, ParseContent, Omits, EraseTo, Stands, Has, Blank;
    var text := WriteParts(e, parts, 0);
    var s := text + tail;
    HasWhole(s);
    HasAppend(s, 0, text, tail);
    BlankGap(s, |text|, tail);
    BodyStands(e, s, parts, START, 0, EndOfText, |s|);
    ContentReads(e, s, parts, 0, START, Root(), 0, EndOfText, |s|);
  }

  lemma HasWhole(s: string)
    ensures Has(s, 0, s)
  {
    assert s[0..0 + |s|] == s;
  }

  /** A document with one element at its top: `parseString` gives the element back, with or without asking for it
      by its name. */
  lemma ParseUndoesWrite(e: Encoding, d: Doc, gap: string, tail: string, tag: string)
    requires Good(e, d, 1) && AllSpace(gap) && AllSpace(tail) && (tag == "" || SameName(d.name, tag))
    ensures ParseString(e, gap + Write(e, d) + tail, tag) == (Some(Erase(d)), ErrorBehind(OmitsDoc(d), ErrorNone))
  {
    hide Good, Write, ParseRoot, OmitsDoc, SameName, Named, Erase, AllSpace;
    var parts := [Sub(gap, d)];
    assert WriteParts(e, parts, 0) == gap + Write(e, d) by {
      assert WriteParts(e, parts, 1) == "";
      assert WritePart(e, parts[0]) + "" == gap + Write(e, d);
    }
    DocumentReads(e, parts, tail);
    OneErased(d, gap);
  }

  lemma OneErased(d: Doc, gap: string)
    ensures var parts := [Sub(gap, d)];
            EraseTo(parts, 1) == [Child(Erase(d))] && Elems(EraseTo(parts, 1)) == [Erase(d)]
                && Erase(d).name == Some(d.name)
    ensures Omits([Sub(gap, d)], 0) == OmitsDoc(d)
  {
    assert Erase(d).name == Some(d.name);
    hide Erase;
    EraseSub(Sub(gap, d));
    var items := EraseTo([Sub(gap, d)], 1);
    EraseNext([Sub(gap, d)], 0);
    assert items == [Child(Erase(d))];
    SelectSingle(items[0], Order.KindChild);
    assert !Omits([Sub(gap, d)], 1);
  }

  // ---------------------------------------------------------------- end tags that nobody claims

  lemma OpenBody(e: Encoding, d: Doc, x: string)
    requires Good(e, d, 1) && d.ending == Omitted && !d.isDeclaration && PlainName(e, x) && SpineAvoids(d.parts, x)
    ensures Fits(e, d.parts, EndTag(x), Opening(d), 1) && AllSpace(d.tail) && PlainName(e, d.name)
  {
    hide GoodParts, SpineAvoids, PlainName, GoodAttribute, AllSpace;
  }

  lemma OneSeparated(d: Doc, gap: string)
    requires AllSpace(gap)
    ensures Separated([Sub(gap, d)])
  {
    hide AllSpace;
  }

  lemma OneWritten(e: Encoding, d: Doc, gap: string)
    ensures WriteParts(e, [Sub(gap, d)], 0) == gap + Write(e, d)
  {
    hide Write;
    var parts := [Sub(gap, d)];
    assert WriteParts(e, parts, 1) == "";
    assert WritePart(e, parts[0]) + "" == gap + Write(e, d);
  }

  /** The head behind its first child, which has come to an end tag that is not its own. */
  lemma HeadUnmatched(e: Encoding, s: string, c: Parsed, node: Elem, d: Doc, x: string, z: nat)
    requires InText(s, c.st) && node.name.None? && x != "" && !SameName(d.name, x)
    requires ReadTo(c, d.parts, 0, EndTag(x), z, Opening(d), 1, ErrorNone)
    ensures var r := AfterChild(e, s, c, node, 0); r.st.error == ErrorUnmatchedEndTag && r.node == node
  {
    hide ParseContent, EraseTo, SameName, TagMatches;
  }

  /** An end tag that no open element claims, whatever stands behind it: nothing comes back, and the error says so. */
  lemma UnmatchedEnd(e: Encoding, d: Doc, gap: string, x: string, rest: string, tag: string)
    requires Good(e, d, 1) && AllSpace(gap) && d.ending == Omitted && !d.isDeclaration
    requires PlainName(e, x) && !SameName(d.name, x) && SpineAvoids(d.parts, x)
    ensures ParseString(e, gap + Write(e, d) + (WriteEnd(x) + rest), tag) == (None, ErrorUnmatchedEndTag)
  {
    hide ParseContent, Separated, SpineAvoids, PlainName, EraseTo, Has, Blank, Ready, WriteParts, WritePart, AfterChild,
         ChildOf, SameName, Omits, OmitsDoc, Head, Write, Good, GoodHead, ReadTo, Fits, AllSpace, TagEnding, WriteEnd;
    var parts, text := [Sub(gap, d)], gap + Write(e, d);
    var s, z := text + (WriteEnd(x) + rest), |text|;
    OneWritten(e, d, gap);
    OneSeparated(d, gap);
    HasWhole(s);
    HasAppend(s, 0, text, WriteEnd(x) + rest);
    HasAppend(s, z, WriteEnd(x), rest);
    BlankGap(s, z, "");
    NoSpace();
    BodyStands(e, s, parts, START, 0, EndTag(x), z);
    HeadGood(e, d, 1);
    OpenBody(e, d, x);
    NotEmpty(e, x);
    ReadyText(e, s, parts, 0, 0, START, []);
    PartPieces(e, s, parts, 0, 0);
    SubPieces(e, s, 0, parts[0]);
    SubReads(e, s, parts, 0, START, Root(), 0);
    var h := BodyAt(e, START, parts[0]);
    var c := ChildOf(e, s, START, d, 1, h);
    HowItEnds(d, 1);
    ChildOpens(e, s, START, d, 1, h);
    OpenStands(e, s, parts, 0, START, [], EndTag(x), z);
    ContentReads(e, s, d.parts, 0, InBody(START, h), Opening(d), 1, EndTag(x), z);
    HeadUnmatched(e, s, c, Root().(items := EraseTo(parts, 0) + [Child(c.node)]), d, x, z);
    ElemsAppend(EraseTo(parts, 0), Child(c.node));
    NotFound(e, s, tag);
  }

  lemma NoSpace()
    ensures AllSpace("")
  {
  }

  lemma NotFound(e: Encoding, s: string, tag: string)
    requires ParseRoot(e, s).st.error == ErrorUnmatchedEndTag && Elems(ParseRoot(e, s).node.items) != []
    ensures ParseString(e, s, tag) == (None, ErrorUnmatchedEndTag)
  {
    hide ParseRoot, Elems, Named;
  }

  // ---------------------------------------------------------------- something that is wrong

  /** Behind any parts of a document, with end tags left out or not, so at any depth in it, something that is wrong:
      nothing comes back, and the error tells what it was, whatever else stands in the text. */
  lemma WrongReported(e: Encoding, parts: seq<Part>, tail: string, rest: string, stop: Stop, tag: string)
    requires GoodParts(e, parts, 1) && AllSpace(tail) && exists k :: 0 <= k < |parts| && parts[k].Sub?
    requires stop.Broken? || (stop.BadText? && EndsPlain(parts))
    requires StopsAt(e, WriteParts(e, parts, 0) + (tail + rest), |WriteParts(e, parts, 0)| + |tail|, stop)
    ensures ParseString(e, WriteParts(e, parts, 0) + (tail + rest), tag) == (None, stop.error)
  {
    hide GoodParts, WriteParts, ParseContent, Omits, EraseTo, Stands, Has, Blank, StopsAt, AllSpace;
    var text := WriteParts(e, parts, 0);
    var s, z := text + (tail + rest), |text| + |tail|;
    HasWhole(s);
    HasAppend(s, 0, text, tail + rest);
    HasAppend(s, |text|, tail, rest);
    BlankGap(s, |text|, tail);
    BodyStands(e, s, parts, START, 0, stop, z);
    ContentReads(e, s, parts, 0, START, Root(), 0, stop, z);
    SomeElement(parts, |parts|);
    WrongErrors(e, s, z, stop);
    hide Elems, Named;
  }

  /** A `=` where the name of an attribute should be. */
  lemma UnexpectedEquals(e: Encoding, gap: string, name: string, rest: string, tag: string)
    requires AllSpace(gap) && PlainName(e, name)
    ensures ParseString(e, gap + (("<" + name) + ("=" + rest)), tag) == (None, ErrorUnexpectedToken)
  {
    hide ParseContent, AllSpace, NextToken, PlainName, ParseTag, Has, Blank;
    var s, j := gap + (("<" + name) + ("=" + rest)), |gap|;
    HasWhole(s);
    HasAppend(s, 0, gap, ("<" + name) + ("=" + rest));
    HasAppend(s, j, "<" + name, "=" + rest);
    HasAppend(s, j, "<", name);
    HasAppend(s, j + 1 + |name|, "=", rest);
    BlankGap(s, 0, gap);
    EqualsTokens(e, s, j, name);
    SkipBlank(e, s, 0, j);
    ReadyFresh(e, s, [], 0, START);
    NothingSeparated();
    FlushReady(e, s, [], 0, 0, j, START, [], j + 1);
    EqualsContent(e, s, j, name);
    hide Elems, Named;
  }

  lemma EqualsContent(e: Encoding, s: string, j: nat, name: string)
    requires j + 1 + |name| < |s| && NextToken(e, s, 0) == Token(TokenTagStart, j, 1, j + 1)
    requires NextToken(e, s, j + 1) == Token(TokenText, j + 1, |name|, j + 1 + |name|)
    requires NextToken(e, s, j + 1 + |name|).kind == TokenEquals && Has(s, j + 1, name)
    requires Flush(e, s, START.(idx := j + 1), [], j) == Flushed(START.(idx := j + 1, text := None), [], false)
    ensures ParseRoot(e, s).st.error == ErrorUnexpectedToken && Elems(ParseRoot(e, s).node.items) != []
  {
    hide ParseContent, NextToken, ParseElement, Flush, Elems;
    ContentChild(e, s, START, Root(), 0, []);
    var child := Elem(Some(name), false, [], []);
    var st := START.(idx := j + 1 + |name|, text := None);
    HasWord(s, j + 1, name);
    EqualsFails(e, s, st, child, 1);
    ElemsAppend([], Child(child));
  }

  lemma EqualsTokens(e: Encoding, s: string, j: nat, name: string)
    requires PlainName(e, name) && Has(s, j, "<") && Has(s, j + 1, name) && Has(s, j + 1 + |name|, "=")
    ensures j + 1 + |name| < |s| && NextToken(e, s, j) == Token(TokenTagStart, j, 1, j + 1)
    ensures NextToken(e, s, j + 1) == Token(TokenText, j + 1, |name|, j + 1 + |name|)
    ensures NextToken(e, s, j + 1 + |name|).kind == TokenEquals
  {
    hide ClearAt, Has, NextToken;
    HasAt(s, j, "<", 0);
    HasAt(s, j + 1, name, 0);
    HasAt(s, j + 1 + |name|, "=", 0);
    NoClearBefore(e, s, j, name);
    MarkupOpens(e, s, j);
    WordToken(e, s, j + 1, name);
    EqualsToken(e, s, j + 1 + |name|);
  }

  /** A name and a `=` behind `<` are no clear tag. */
  lemma NoClearBefore(e: Encoding, s: string, j: nat, name: string)
    requires PlainName(e, name) && Has(s, j, "<") && Has(s, j + 1, name) && Has(s, j + 1 + |name|, "=")
    ensures ClearAt(s, j) == None
  {
    hide ClearAt, PlainName;
    NameBegins(e, name);
    HasAt(s, j + 1, name, 0);
    forall k: ClearKind ensures !Has(s, j, OpenTag(k)) {
      if Has(s, j, OpenTag(k)) {
        HasAt(s, j, OpenTag(k), 1);
        assert k == Pre;
        NotPre(e, s, j, name);
      }
    }
  }

  lemma NameBegins(e: Encoding, name: string)
    requires PlainName(e, name)
    ensures name != "" && name[0] != '!'
  {
  }

  lemma NotPre(e: Encoding, s: string, j: nat, name: string)
    requires PlainName(e, name) && Has(s, j + 1, name) && Has(s, j + 1 + |name|, "=")
    ensures !Has(s, j, "<PRE>")
  {
    if Has(s, j, "<PRE>") {
      HasAt(s, j + 1 + |name|, "=", 0);
      if |name| > 3 {
        HasAt(s, j, "<PRE>", 4);
        HasAt(s, j + 1, name, 3);
      } else {
        HasAt(s, j, "<PRE>", 1 + |name|);
      }
    }
  }

  lemma EqualsFails(e: Encoding, s: string, st: State, node: Elem, depth: nat)
    requires InText(s, st) && NextToken(e, s, st.idx).kind == TokenEquals
    ensures var r := ParseElement(e, s, st, node, depth);
            !r.ok && r.st.error == ErrorUnexpectedToken && r.node == node
  {
    hide NextToken, ParseContent;
  }

  lemma NothingSeparated()
    ensures Separated([]) && EraseTo([], 0) == []
  {
  }

  lemma WrongErrors(e: Encoding, s: string, z: nat, stop: Stop)
    requires (stop.Broken? || stop.BadText?) && StopsAt(e, s, z, stop)
    ensures stop.error !in {ErrorNone, ErrorMissingEndTag, ErrorNoXMLTagFound}
  {
    hide NextToken, ClearEnd, Decode, TrimEnd, NextLess;
  }

  /** A clear tag of any kind that is not closed is wrong. */
  lemma UnclosedBroken(e: Encoding, s: string, z: nat, k: ClearKind)
    requires Has(s, z, OpenTag(k)) && ClearEnd(e, s, z + |OpenTag(k)|, k).None?
    ensures BrokenAt(e, s, z, ErrorUnmatchedEndClearTag)
  {
    hide ClearEnd, NextToken, OpenTag;
    BlankGap(s, z, "");
    ClearToken(e, s, z, z, k);
    OpenTagFirst(k);
    HasAt(s, z, OpenTag(k), 0);
  }

  lemma OpenTagFirst(k: ClearKind)
    ensures OpenTag(k) != "" && OpenTag(k)[0] == '<'
  {
  }

  /** And so are tags without a name. */
  lemma NamelessBroken(e: Encoding, s: string, z: nat)
    ensures Has(s, z, "<>") ==> BrokenAt(e, s, z, ErrorMissingTagName)
    ensures Has(s, z, "</>") ==> BrokenAt(e, s, z, ErrorMissingEndTagName)
  {
    if Has(s, z, "<>") {
      HasAt(s, z, "<>", 0);
      HasAt(s, z, "<>", 1);
      NoClearAt(s, z);
      MarkupOpens(e, s, z);
      CloseSign(e, s, z + 1);
    }
    if Has(s, z, "</>") {
      HasAt(s, z, "</>", 0);
      HasAt(s, z, "</>", 1);
      HasAt(s, z, "</>", 2);
      assert s[z..z + 2] == "</";
      EndTagToken(e, s, z);
      CloseSign(e, s, z + 2);
    }
  }

  lemma NoClearAt(s: string, z: nat)
    requires At(s, z + 1) == '>'
    ensures ClearAt(s, z) == None
  {
    hide ClearAt;
    forall k: ClearKind ensures !Has(s, z, OpenTag(k)) {
      if Has(s, z, OpenTag(k)) {
        HasAt(s, z, OpenTag(k), 1);
      }
    }
  }

  lemma CloseSign(e: Encoding, s: string, i: nat)
    requires At(s, i) == '>'
    ensures NextToken(e, s, i).kind == TokenCloseTag
  {
    hide ClearAt;
  }

  // ---------------------------------------------------------------- elements asked for by their name

  predicate PartNamed(p: Part, tag: string) {
    p.Sub? && SameName(p.doc.name, tag)
  }

  /** The first of the parts from number `k` on that is an element of that name. */
  function FirstPart(parts: seq<Part>, tag: string, k: nat): (r: Option<nat>)
    requires k <= |parts|
    ensures r.Some? ==> k <= r.value < |parts| && PartNamed(parts[r.value], tag)
                        && forall i :: k <= i < r.value ==> !PartNamed(parts[i], tag)
    ensures r.None? ==> forall i :: k <= i < |parts| ==> !PartNamed(parts[i], tag)
    decreases |parts| - k
  {
    if k == |parts| then None else if PartNamed(parts[k], tag) then Some(k) else FirstPart(parts, tag, k + 1)
  }

  /** The elements of that name that the first `n` parts stand for. */
  function NamedDocs(parts: seq<Part>, n: nat, tag: string): seq<Elem>
    requires n <= |parts|
  {
    if n == 0 then []
    else NamedDocs(parts, n - 1, tag) + if PartNamed(parts[n - 1], tag) then [Erase(parts[n - 1].doc)] else []
  }

  lemma ElemsAppend(items: seq<Item>, x: Item)
    ensures Elems(items + [x]) == Elems(items) + if x.Child? then [x.elem] else []
  {
    assert (items + [x])[..|items|] == items;
  }

  /** Texts make no difference to the children. */
  lemma ElemsJoin(items: seq<Item>, x: Item)
    ensures Elems(Join(items, x)) == Elems(items) + if x.Child? then [x.elem] else []
  {
    var n := |items|;
    if x.Text? && n >= 2 && items[n - 1].Clear? && items[n - 1].clear.tag == Comment && items[n - 2].Text? {
      var front := items[..n - 2];
      assert items == front + [items[n - 2]] + [items[n - 1]];
      ElemsAppend(front + [items[n - 2]], items[n - 1]);
      ElemsAppend(front, items[n - 2]);
      ElemsAppend(front, Text(items[n - 2].text + x.text));
    } else {
      ElemsAppend(items, x);
    }
  }

  lemma NamedAppend(c: seq<Elem>, t: Elem, tag: string)
    ensures Named(c + [t], tag) == Named(c, tag) + if HasName(t, tag) then [t] else []
  {
    hide Named;
    NamedLast(c + [t], tag);
    assert (c + [t])[..|c|] == c;
  }

  lemma {:induction false} PartsNamed(parts: seq<Part>, n: nat, tag: string)
    requires n <= |parts|
    ensures Named(Elems(EraseTo(parts, n)), tag) == NamedDocs(parts, n, tag)
    decreases n
  {
    hide Elems, Named, Join, SameName;
    if n > 0 {
      PartsNamed(parts, n - 1, tag);
      var items := EraseTo(parts, n - 1);
      ElemsJoin(items, ErasePart(parts[n - 1]));
      if parts[n - 1].Sub? {
        NamedAppend(Elems(items), Erase(parts[n - 1].doc), tag);
      } else {
        assert Elems(items) + [] == Elems(items) && NamedDocs(parts, n - 1, tag) + [] == NamedDocs(parts, n - 1, tag);
      }
    } else {
      NothingNamed(tag);
    }
  }

  lemma NothingNamed(tag: string)
    ensures Named(Elems([]), tag) == []
  {
  }

  lemma {:induction false} NamedBefore(parts: seq<Part>, n: nat, tag: string)
    requires n <= |parts| && forall i :: 0 <= i < n ==> !PartNamed(parts[i], tag)
    ensures NamedDocs(parts, n, tag) == []
    decreases n
  {
    hide PartNamed;
    if n > 0 {
      NamedBefore(parts, n - 1, tag);
    }
  }

  lemma {:induction false} NamedFrom(parts: seq<Part>, k: nat, n: nat, tag: string)
    requires k < n <= |parts| && PartNamed(parts[k], tag) && forall i :: 0 <= i < k ==> !PartNamed(parts[i], tag)
    ensures NamedDocs(parts, n, tag) != [] && NamedDocs(parts, n, tag)[0] == Erase(parts[k].doc)
    decreases n
  {
    hide Erase, SameName;
    if n == k + 1 {
      NamedBefore(parts, k, tag);
    } else {
      NamedFrom(parts, k, n - 1, tag);
    }
  }

  /** What is found among the parts. */
  function FoundAmong(parts: seq<Part>, tag: string, error: XMLError): (Option<Elem>, XMLError) {
    var k := FirstPart(parts, tag, 0);
    if k.None? then (None, ErrorFirstTagNotFound) else (Some(Erase(parts[k.value].doc)), error)
  }

  lemma FoundFirst(parts: seq<Part>, tag: string, error: XMLError)
    ensures var found := Named(Elems(EraseTo(parts, |parts|)), tag);
            FoundAmong(parts, tag, error)
            == if found == [] then (None, ErrorFirstTagNotFound) else (Some(found[0]), error)
  {
    hide Erase, SameName, Named, Elems, EraseTo, NamedDocs, PartNamed;
    PartsNamed(parts, |parts|, tag);
    var k := FirstPart(parts, tag, 0);
    if k.None? {
      NamedBefore(parts, |parts|, tag);
    } else {
      NamedFrom(parts, k.value, |parts|, tag);
    }
  }

  /** A document with one element at its top, asked for another name: the result is the first of the parts of that
      element that is an element of that name, and `FirstTagNotFound` exactly when there is none. */
  lemma ParseFinds(e: Encoding, d: Doc, gap: string, tail: string, tag: string)
    requires Good(e, d, 1) && AllSpace(gap) && AllSpace(tail) && tag != "" && !SameName(d.name, tag)
    ensures ParseString(e, gap + Write(e, d) + tail, tag)
         == FoundAmong(d.parts, tag, ErrorBehind(OmitsDoc(d), ErrorNone))
  {
    hide Good, Write, ParseRoot, OmitsDoc, SameName, Named, AllSpace, FoundAmong;
    FoundFirst(d.parts, tag, ErrorBehind(OmitsDoc(d), ErrorNone));
    var parts := [Sub(gap, d)];
    assert WriteParts(e, parts, 0) == gap + Write(e, d) by {
      assert WriteParts(e, parts, 1) == "";
      assert WritePart(e, parts[0]) + "" == gap + Write(e, d);
    }
    assert Erase(d).items == EraseTo(d.parts, |d.parts|);
    hide Erase, EraseTo;
    DocumentReads(e, parts, tail);
    OneErased(d, gap);
  }

  /** A document with several items at its top, asked for a name: the same among these. */
  lemma HeadFinds(e: Encoding, parts: seq<Part>, tail: string, tag: string)
    requires GoodParts(e, parts, 1) && AllSpace(tail) && tag != "" && exists k :: 0 <= k < |parts| && parts[k].Sub?
    requires var items := EraseTo(parts, |parts|); !(|items| == 1 && items[0].Child?)
    ensures ParseString(e, WriteParts(e, parts, 0) + tail, tag)
         == FoundAmong(parts, tag, ErrorBehind(Omits(parts, 0), ErrorNone))
  {
    hide GoodParts, WriteParts, ParseRoot, Omits, SameName, Named, AllSpace, EraseTo, FoundAmong;
    FoundFirst(parts, tag, ErrorBehind(Omits(parts, 0), ErrorNone));
    DocumentReads(e, parts, tail);
    SomeElement(parts, |parts|);
  }

  /** A document without any element: there is no tag in it, and without a name to look for the head comes back. */
  lemma HeadOnly(e: Encoding, parts: seq<Part>, tail: string, tag: string)
    requires GoodParts(e, parts, 1) && AllSpace(tail) && forall k :: 0 <= k < |parts| ==> !parts[k].Sub?
    ensures ParseString(e, WriteParts(e, parts, 0) + tail, tag)
         == if tag == "" then (Some(Root().(items := EraseTo(parts, |parts|))), ErrorNoXMLTagFound)
            else (None, ErrorFirstTagNotFound)
  {
    hide GoodParts, WriteParts, ParseRoot, Omits, SameName, AllSpace, EraseTo;
    DocumentReads(e, parts, tail);
    NoElement(parts, |parts|);
  }

  lemma {:induction false} NoElement(parts: seq<Part>, n: nat)
    requires n <= |parts| && forall k :: 0 <= k < |parts| ==> !parts[k].Sub?
    ensures Elems(EraseTo(parts, n)) == [] && forall i :: 0 <= i < |EraseTo(parts, n)| ==> !EraseTo(parts, n)[i].Child?
    decreases n
  {
    hide Elems;
    if n > 0 {
      NoElement(parts, n - 1);
      ElemsJoin(EraseTo(parts, n - 1), ErasePart(parts[n - 1]));
    } else {
      NothingElse();
    }
  }

  lemma NothingElse()
    ensures Elems([]) == []
  {
  }

  lemma {:induction false} SomeElement(parts: seq<Part>, n: nat)
    requires n <= |parts| && exists k :: 0 <= k < n && parts[k].Sub?
    ensures Elems(EraseTo(parts, n)) != []
    decreases n
  {
    hide Elems, Join, Erase;
    ElemsJoin(EraseTo(parts, n - 1), ErasePart(parts[n - 1]));
    if !parts[n - 1].Sub? {
      SomeElement(parts, n - 1);
    }
  }

  lemma {:induction false} NamedHave(c: seq<Elem>, tag: string)
    ensures forall i :: 0 <= i < |Named(c, tag)| ==> HasName(Named(c, tag)[i], tag)
  {
    hide HasName;
    if c != [] {
      NamedHave(c[1..], tag);
    }
  }

  /** Whatever the text: an element that comes back for a name has that name, regardless of case. */
  lemma FoundNamed(e: Encoding, s: string, tag: string)
    requires tag != "" && ParseString(e, s, tag).0.Some?
    ensures HasName(ParseString(e, s, tag).0.value, tag)
  {
    hide ParseRoot, Named, HasName;
    NamedHave(Elems(Top(ParseRoot(e, s).node).items), tag);
  }

  // ---------------------------------------------------------------- end tags left out

  /** The document with all its end tags. */
  function Complete(d: Doc): Doc {
    d.(parts := CompleteTo(d.parts, |d.parts|),
       ending := if d.ending == Omitted && !d.isDeclaration then Full else d.ending)
  }

  function CompletePart(p: Part): Part {
    match p
    case Sub(gap, doc) => Sub(gap, Complete(doc))
    case Run(_, _) => p
    case Raw(_, _) => p
  }

  function CompleteTo(parts: seq<Part>, n: nat): (r: seq<Part>)
    requires n <= |parts|
    ensures |r| == n
    decreases parts, n
  {
    seq(n, i requires 0 <= i < n => CompletePart(parts[i]))
  }

  lemma {:induction false} CompleteErased(d: Doc)
    ensures Erase(Complete(d)) == Erase(d)
    decreases d
  {
    CompleteErasedParts(d.parts, |d.parts|);
  }

  lemma {:induction false} CompleteErasedParts(parts: seq<Part>, n: nat)
    requires n <= |parts|
    ensures EraseTo(CompleteTo(parts, |parts|), n) == EraseTo(parts, n)
    decreases parts, n
  {
    hide Join;
    if n > 0 {
      CompleteErasedParts(parts, n - 1);
      if parts[n - 1].Sub? {
        CompleteErased(parts[n - 1].doc);
      }
    }
  }

  lemma {:induction false} CompleteWhole(d: Doc)
    ensures !OmitsDoc(Complete(d))
    decreases d
  {
    CompleteWholeParts(d.parts, 0);
  }

  lemma {:induction false} CompleteWholeParts(parts: seq<Part>, k: nat)
    requires k <= |parts|
    ensures !Omits(CompleteTo(parts, |parts|), k)
    decreases parts, |parts| - k
  {
    if k < |parts| {
      CompleteWholeParts(parts, k + 1);
      if parts[k].Sub? {
        CompleteWhole(parts[k].doc);
      }
    }
  }

  lemma CompleteLast(parts: seq<Part>, n: string)
    ensures SpineAvoids(CompleteTo(parts, |parts|), n)
  {
    var done := CompleteTo(parts, |parts|);
    if parts != [] && parts[|parts| - 1].Sub? {
      assert done[|parts| - 1] == CompletePart(parts[|parts| - 1]);
    }
  }

  lemma {:induction false} CompleteGood(e: Encoding, d: Doc, depth: nat)
    requires Good(e, d, depth)
    ensures Good(e, Complete(d), depth)
    decreases d
  {
    hide GoodParts, PlainName, GoodAttribute, SpineAvoids, CompleteTo;
    CompleteGoodParts(e, d.parts, depth + 1);
    CompleteLast(d.parts, d.name);
    assert d.parts == [] ==> CompleteTo(d.parts, 0) == [];
  }

  lemma {:induction false} CompleteGoodParts(e: Encoding, parts: seq<Part>, depth: nat)
    requires GoodParts(e, parts, depth)
    ensures GoodParts(e, CompleteTo(parts, |parts|), depth)
    decreases parts, |parts|
  {
    var done := CompleteTo(parts, |parts|);
    forall k | 0 <= k < |parts| ensures Completed(e, parts[k], done[k], depth) {
      assert done[k] == CompletePart(parts[k]);
      if parts[k].Sub? {
        assert Good(e, parts[k].doc, depth);
        CompleteGood(e, parts[k].doc, depth);
      }
    }
  }

  ghost predicate SameShape(p: Part, q: Part) {
    q.gap == p.gap && (q.Run? <==> p.Run?)
  }

  /** What completing does to a part. */
  ghost predicate Completed(e: Encoding, p: Part, q: Part, depth: nat) {
    SameShape(p, q)
        && (if p.Sub? then q.Sub? && Good(e, q.doc, depth) && (Open(q, depth) ==> Open(p, depth)) else q == p)
  }

  /** A document with inner end tags left out is read as the tree of the document with all of them; only the error
      tells them apart. */
  lemma MissingEndTags(e: Encoding, d: Doc, gap: string, tail: string)
    requires Good(e, d, 1) && AllSpace(gap) && AllSpace(tail)
    ensures var r := ParseString(e, gap + Write(e, d) + tail, "");
            var full := ParseString(e, gap + Write(e, Complete(d)) + tail, "");
            && r.0 == full.0 == Some(Erase(d))
            && full.1 == ErrorNone
            && (r.1 == ErrorMissingEndTag <==> OmitsDoc(d)) && (r.1 == ErrorNone <==> !OmitsDoc(d))
  {
    hide Good, Write, ParseString, OmitsDoc, Erase, Complete, AllSpace;
    CompleteGood(e, d, 1);
    CompleteErased(d);
    CompleteWhole(d);
    ParseUndoesWrite(e, d, gap, tail, "");
    ParseUndoesWrite(e, Complete(d), gap, tail, "");
  }
}
