/** The printed trees that the parser does not read back: one element anywhere in them that it takes for something
    else, or that takes in what follows it, and the tree that is read is another one. */
module Misreadings {
  import opened Wrappers
  import opened CStrings
  import opened Escape
  import opened Lexer
  import opened Nodes
  import opened Grammar
  import opened Documents
  import opened Elision
  import opened Lexemes
  import opened Tags
  import opened Contents
  import opened Reading

  // ---------------------------------------------------------------- which documents are sound

  /** What the printer makes of a tree: only declarations have no end of their own. */
  ghost predicate Fair(e: Encoding, d: Doc)
    decreases d
  {
    && PlainName(e, d.name)
    && (forall k :: 0 <= k < |d.attributes| ==> GoodAttribute(e, d.attributes[k]))
    && AllSpace(d.tail)
    && FairParts(e, d.parts)
    && (d.ending == Omitted <==> d.isDeclaration)
    && (d.ending == Short ==> d.parts == [])
    && (d.ending == Full ==> d.parts != [])
    && (d.ending != Full ==> d.tail == "")
  }

  ghost predicate FairPart(e: Encoding, p: Part)
    decreases p
  {
    match p
    case Sub(_, doc) => Fair(e, doc)
    case Run(_, text) => GoodText(e, text)
    case Raw(_, clear) => GoodClear(e, clear)
  }

  ghost predicate FairParts(e: Encoding, parts: seq<Part>)
    decreases parts
  {
    Separated(parts) && forall k :: 0 <= k < |parts| ==> FairPart(e, parts[k])
  }

  /** The element itself is read as what it is: one named `PRE` without attributes that holds something is taken for a
      clear tag, a declaration without attributes for one with another name, and below the second level a declaration
      holds nothing. */
  predicate SoundHead(d: Doc, depth: nat) {
    if d.isDeclaration then d.attributes != [] && (depth >= 2 ==> d.parts == [])
    else d.name == "PRE" && d.attributes == [] ==> d.parts == []
  }

  predicate Sound(d: Doc, depth: nat)
    decreases d
  {
    SoundHead(d, depth) && SoundParts(d.parts, 0, depth + 1)
  }

  predicate SoundPart(p: Part, depth: nat)
    decreases p
  {
    p.Sub? ==> Sound(p.doc, depth)
  }

  /** The parts from number `k` on are sound. */
  predicate SoundParts(parts: seq<Part>, k: nat, depth: nat)
    requires k <= |parts|
    decreases parts, |parts| - k
  {
    k < |parts| ==> SoundPart(parts[k], depth) && SoundParts(parts, k + 1, depth)
  }

  /** Of the parts from number `k` on only the last is still open where its text ends. */
  predicate Ordered(parts: seq<Part>, k: nat, depth: nat) {
    forall i :: k <= i < |parts| - 1 ==> !Open(parts[i], depth)
  }

  lemma FairAt(e: Encoding, parts: seq<Part>, k: nat)
    requires FairParts(e, parts) && k < |parts|
    ensures Separated(parts) && FairPart(e, parts[k])
  {
  }

  /** Below the top there is nothing that is still open. */
  lemma FairOrdered(e: Encoding, parts: seq<Part>, k: nat, depth: nat)
    requires FairParts(e, parts) && depth >= 2
    ensures Ordered(parts, k, depth)
  {
    forall i | k <= i < |parts| - 1 ensures !Open(parts[i], depth) {
      FairAt(e, parts, i);
      NeverOpen(e, parts[i], depth);
    }
  }

  lemma NeverOpen(e: Encoding, p: Part, depth: nat)
    requires FairPart(e, p) && depth >= 2
    ensures !Open(p, depth)
  {
    hide FairParts, PlainName, GoodAttribute, GoodText, GoodClear;
  }

  lemma {:induction false} SoundAt(parts: seq<Part>, k: nat, depth: nat, j: nat)
    requires k <= j < |parts| && SoundParts(parts, k, depth)
    ensures SoundPart(parts[j], depth)
    decreases |parts| - k
  {
    hide SoundPart;
    if k < j {
      SoundAt(parts, k + 1, depth, j);
    }
  }

  lemma FairSpine(e: Encoding, parts: seq<Part>, n: string)
    requires FairParts(e, parts)
    ensures SpineAvoids(parts, n)
  {
    if parts != [] {
      FairAt(e, parts, |parts| - 1);
      hide FairParts, AllSpace;
    }
  }

  /** The sound ones among the fair documents are the good ones. */
  lemma {:induction false} FairGood(e: Encoding, d: Doc, depth: nat)
    requires Fair(e, d) && Sound(d, depth) && depth > 0
    ensures Good(e, d, depth)
    decreases d
  {
    FairSpine(e, d.parts, d.name);
    FairOrdered(e, d.parts, 0, depth + 1);
    FairGoodParts(e, d.parts, depth + 1);
    hide FairParts, GoodParts, SoundParts, SpineAvoids, PlainName, GoodAttribute;
  }

  lemma {:induction false} FairGoodParts(e: Encoding, parts: seq<Part>, depth: nat)
    requires FairParts(e, parts) && SoundParts(parts, 0, depth) && Ordered(parts, 0, depth) && depth > 0
    ensures GoodParts(e, parts, depth)
    decreases parts
  {
    forall k | 0 <= k < |parts|
      ensures parts[k].Sub? ==> Good(e, parts[k].doc, depth)
      ensures parts[k].Run? ==> GoodText(e, parts[k].text)
      ensures parts[k].Raw? ==> GoodClear(e, parts[k].clear)
    {
      SoundAt(parts, 0, depth, k);
      FairAt(e, parts, k);
      if parts[k].Sub? {
        FairGood(e, parts[k].doc, depth);
      }
    }
    hide Fair, Good, GoodText, GoodClear, Separated, Open;
  }

  // ---------------------------------------------------------------- what stays where it is

  /** Item `j` is not a comment behind a text, which elision may take away. */
  predicate Firm(items: seq<Item>, j: nat) {
    j < |items| && (CommentItem(items[j]) && j > 0 ==> !items[j - 1].Text?)
  }

  /** The same item, or a text that may have gone on. */
  predicate Grown(x: Item, y: Item) {
    y == x || (x.Text? && y.Text? && |x.text| <= |y.text|)
  }

  /** Every firm item of `p` is still there in `q`. */
  ghost predicate Kept(p: seq<Item>, q: seq<Item>) {
    forall j :: 0 <= j < |p| && Firm(p, j) ==> Firm(q, j) && Grown(p[j], q[j])
  }

  lemma JoinKeeps(items: seq<Item>, x: Item)
    ensures Kept(items, Join(items, x))
  {
  }

  lemma JustKept(items: seq<Item>)
    ensures Kept(items, items)
  {
  }

  lemma AppendKeeps(items: seq<Item>, x: Item)
    ensures Kept(items, items + [x])
  {
  }

  lemma KeptThrough(p: seq<Item>, q: seq<Item>, r: seq<Item>)
    requires Kept(p, q) && Kept(q, r)
    ensures Kept(p, r)
  {
  }

  lemma FlushKeeps(e: Encoding, s: string, st: State, items: seq<Item>, pos: nat)
    requires pos <= |s| && (st.text.Some? ==> st.text.value <= pos)
    ensures Kept(items, Flush(e, s, st, items, pos).items)
  {
    hide Decode, TrimStart, TrimEnd, Kept, AddTextItem;
    JustKept(items);
    if st.text.Some? {
      var from := TrimStart(s, st.text.value, pos);
      if from < pos {
        var d := Decode(e, s, from, TrimEnd(s, from, pos) - from);
        if d.Ok? {
          JoinKeeps(items, Text(CString(d.text)));
        }
      }
    }
  }

  lemma AddClearKeeps(items: seq<Item>, k: ClearKind, text: string, bracket: bool)
    ensures Kept(items, AddClearItem(items, k, text, bracket))
  {
    hide Kept;
    JustKept(items);
    AppendKeeps(items, Clear(ClearText(k, text, bracket)));
  }

  /** Whatever follows, the parser leaves the items that it has read where they are, but for comments behind a text and
      for texts that go on. */
  lemma {:induction false} ContentKeeps(e: Encoding, s: string, st: State, node: Elem, depth: nat)
    requires InText(s, st)
    ensures Kept(node.items, ParseContent(e, s, st, node, depth).node.items)
    decreases |s| - st.idx, 0
  {
    hide AtEnd, NextToken, ParseChild, ParseEndTag, Flush, ClearEnd, ClearClose, AddClearItem, Kept;
    var t := NextToken(e, s, st.idx);
    var st1 := st.(idx := t.next);
    match t.kind {
      case TokenError => EndKeeps(e, s, st1, node, depth);
      case TokenTagStart => ChildKeeps(e, s, st1, node, depth, t);
      case TokenDeclaration => ChildKeeps(e, s, st1, node, depth, t);
      case TokenTagEnd => EndTagKeeps(e, s, st1, node, t);
      case TokenClear(k) =>
        FlushKeeps(e, s, st1, node.items, t.start);
        var f := Flush(e, s, st1, node.items, t.start);
        var end := ClearEnd(e, s, t.next, k);
        if !f.failed && end.Some? {
          var next := end.value.0 + |ClearClose(k, end.value.1)|;
          var text := s[t.next..end.value.0];
          AddClearKeeps(f.items, k, text, end.value.1);
          var node1 := node.(items := AddClearItem(f.items, k, text, end.value.1));
          var r := ParseContent(e, s, f.st.(idx := next, text := Some(next)), node1, depth);
          ContentKeeps(e, s, f.st.(idx := next, text := Some(next)), node1, depth);
          KeptThrough(node.items, f.items, node1.items);
          KeptThrough(node.items, node1.items, r.node.items);
        }
      case _ => ContentKeeps(e, s, st1, node, depth);
    }
  }

  lemma EndKeeps(e: Encoding, s: string, st: State, node: Elem, depth: nat)
    requires InText(s, st)
    ensures Kept(node.items, AtEnd(e, s, st, node, depth).node.items)
  {
    hide Flush, Kept;
    var st1 := if !node.isDeclaration && depth > 0 then st.(error := ErrorMissingEndTag, missing := st.idx) else st;
    FlushKeeps(e, s, st1, node.items, st.idx);
  }

  lemma EndTagKeeps(e: Encoding, s: string, st: State, node: Elem, t: Token)
    requires InText(s, st) && t.start <= st.idx && (st.text.Some? ==> st.text.value <= t.start)
    ensures Kept(node.items, ParseEndTag(e, s, st, node, t).node.items)
  {
    FlushKeeps(e, s, st, node.items, t.start);
    hide Flush, NextToken, TagMatches, Kept;
  }

  lemma {:induction false} ChildKeeps(e: Encoding, s: string, st: State, node: Elem, depth: nat, t: Token)
    requires InText(s, st) && t.start < st.idx && (st.text.Some? ==> st.text.value <= t.start)
    ensures Kept(node.items, ParseChild(e, s, st, node, depth, t).node.items)
    decreases |s| - st.idx, 3
  {
    hide NextToken, Flush, ParseElement, AfterChild, Kept;
    FlushKeeps(e, s, st, node.items, t.start);
    var f := Flush(e, s, st, node.items, t.start);
    var n := NextToken(e, s, st.idx);
    if !f.failed && n.kind == TokenText {
      var child := Elem(Some(s[n.start..n.start + n.len]), t.kind == TokenDeclaration, [], []);
      var c := ParseElement(e, s, f.st.(idx := n.next), child, depth + 1);
      var node1 := node.(items := f.items + [Child(c.node)]);
      AppendKeeps(f.items, Child(c.node));
      BehindKeeps(e, s, c, node1, depth);
      KeptThrough(node.items, f.items, node1.items);
      KeptThrough(node.items, node1.items, AfterChild(e, s, c, node1, depth).node.items);
    }
  }

  lemma {:induction false} BehindKeeps(e: Encoding, s: string, c: Parsed, node: Elem, depth: nat)
    requires InText(s, c.st)
    ensures Kept(node.items, AfterChild(e, s, c, node, depth).node.items)
    decreases |s| - c.st.idx, 1
  {
    hide ParseContent, TagMatches, Kept;
    JustKept(node.items);
    if c.ok && c.st.cbEnd == 0 {
      ContentKeeps(e, s, c.st, node, depth);
    }
  }

  /** An element keeps the name it was opened with. */
  lemma {:induction false} ContentNamed(e: Encoding, s: string, st: State, node: Elem, depth: nat)
    requires InText(s, st)
    ensures ParseContent(e, s, st, node, depth).node.name == node.name
    decreases |s| - st.idx, 0
  {
    hide NextToken, ParseChild, ParseEndTag, Flush, ClearEnd, ClearClose, AddClearItem;
    var t := NextToken(e, s, st.idx);
    var st1 := st.(idx := t.next);
    match t.kind {
      case TokenClear(k) =>
        var f := Flush(e, s, st1, node.items, t.start);
        var end := ClearEnd(e, s, t.next, k);
        if !f.failed && end.Some? {
          var next := end.value.0 + |ClearClose(k, end.value.1)|;
          ContentNamed(e, s, f.st.(idx := next, text := Some(next)),
                       node.(items := AddClearItem(f.items, k, s[t.next..end.value.0], end.value.1)), depth);
        }
      case TokenTagStart => ChildNamed(e, s, st1, node, depth, t);
      case TokenDeclaration => ChildNamed(e, s, st1, node, depth, t);
      case TokenError =>
      case TokenTagEnd => EndTagNamed(e, s, st1, node, t);
      case _ => ContentNamed(e, s, st1, node, depth);
    }
  }

  lemma EndTagNamed(e: Encoding, s: string, st: State, node: Elem, t: Token)
    requires InText(s, st) && t.start <= st.idx && (st.text.Some? ==> st.text.value <= t.start)
    ensures ParseEndTag(e, s, st, node, t).node.name == node.name
  {
    hide Flush, NextToken, TagMatches;
  }

  lemma {:induction false} ChildNamed(e: Encoding, s: string, st: State, node: Elem, depth: nat, t: Token)
    requires InText(s, st) && t.start < st.idx && (st.text.Some? ==> st.text.value <= t.start)
    ensures ParseChild(e, s, st, node, depth, t).node.name == node.name
    decreases |s| - st.idx, 1
  {
    hide NextToken, Flush, ParseElement, ParseContent, TagMatches;
    var f := Flush(e, s, st, node.items, t.start);
    var n := NextToken(e, s, st.idx);
    if !f.failed && n.kind == TokenText {
      var child := Elem(Some(s[n.start..n.start + n.len]), t.kind == TokenDeclaration, [], []);
      var c := ParseElement(e, s, f.st.(idx := n.next), child, depth + 1);
      if c.ok && c.st.cbEnd == 0 {
        ContentNamed(e, s, c.st, node.(items := f.items + [Child(c.node)]), depth);
      }
    }
  }

  lemma ElementNamed(e: Encoding, s: string, st: State, node: Elem, depth: nat)
    requires InText(s, st)
    ensures ParseElement(e, s, st, node, depth).node.name == node.name
  {
    hide ParseTag, ParseContent;
    var t := ParseTag(e, s, st, node, depth, WantName);
    if t.end == Opened {
      ContentNamed(e, s, t.st, t.node, depth);
    }
  }

  // ---------------------------------------------------------------- where a child stands in the tree

  /** A child has its place behind the items of the parts before it. */
  lemma {:induction false} ErasePlaces(parts: seq<Part>, k: nat, n: nat)
    requires k < n <= |parts| && parts[k].Sub?
    ensures var j := |EraseTo(parts, k)|;
            j < |EraseTo(parts, n)| && EraseTo(parts, n)[j] == Child(Erase(parts[k].doc))
    decreases n
  {
    hide EraseTo, Erase;
    var j := |EraseTo(parts, k)|;
    EraseNext(parts, n - 1);
    if k == n - 1 {
      EraseSub(parts[k]);
    } else {
      ErasePlaces(parts, k, n - 1);
      JoinKeeps(EraseTo(parts, n - 1), ErasePart(parts[n - 1]));
      assert Firm(EraseTo(parts, n - 1), j);
    }
  }

  lemma {:induction false} EraseSome(parts: seq<Part>, n: nat)
    requires 0 < n <= |parts|
    ensures EraseTo(parts, n) != []
  {
    hide ErasePart;
  }

  /** The place of child `k` is not taken by the element that was meant. */
  ghost predicate Missing(parts: seq<Part>, k: nat, items: seq<Item>)
    requires k < |parts| && parts[k].Sub?
  {
    var j := |EraseTo(parts, k)|;
    j < |items| ==> items[j] != Child(Erase(parts[k].doc))
  }

  lemma MissingDiffers(parts: seq<Part>, k: nat, items: seq<Item>)
    requires k < |parts| && parts[k].Sub? && Missing(parts, k, items)
    ensures items != EraseTo(parts, |parts|)
  {
    hide EraseTo, Erase;
    ErasePlaces(parts, k, |parts|);
  }

  /** Another item in its place stays there. */
  lemma WrongChild(e: Encoding, s: string, parts: seq<Part>, k: nat, node: Elem, depth: nat, c: Parsed)
    requires k < |parts| && parts[k].Sub? && InText(s, c.st) && c.node != Erase(parts[k].doc)
    ensures Missing(parts, k,
                    AfterChild(e, s, c, node.(items := EraseTo(parts, k) + [Child(c.node)]), depth).node.items)
  {
    hide EraseTo, Erase, AfterChild;
    var node1 := node.(items := EraseTo(parts, k) + [Child(c.node)]);
    BehindKeeps(e, s, c, node1, depth);
    assert Firm(node1.items, |EraseTo(parts, k)|);
  }

  // ---------------------------------------------------------------- elements that are taken for something else

  /** An element `PRE` without attributes is read as a clear tag. */
  lemma PreReads(e: Encoding, s: string, parts: seq<Part>, k: nat, st: State, node: Elem, depth: nat, z: nat)
    returns (end: nat)
    requires k < |parts| && parts[k].Sub? && Separated(parts) && InText(s, st)
    requires Ready(e, s, parts, k, st.idx, st, node.items) && Has(s, st.idx, parts[k].gap + "<PRE>")
    requires var i := st.idx + |parts[k].gap| + 5; !Has(s, i, "</PRE>") && i <= z && Has(s, z, "</PRE>")
    ensures var i := st.idx + |parts[k].gap| + 5;
            && i < end && end + 6 <= |s|
            && ParseContent(e, s, st, node, depth)
               == ParseContent(e, s, InBody(st, end + 6), node.(items := EraseTo(parts, k) + [PreItem(s, i, end)]),
                               depth)
  {
    hide NextToken, ParseContent, EraseTo, Erase, Flush, Ready, Separated, Has, Blank;
    var j := st.idx + |parts[k].gap|;
    HasAppend(s, st.idx, parts[k].gap, "<PRE>");
    GapOf(parts, k);
    BlankGap(s, st.idx, parts[k].gap);
    ClearToken(e, s, st.idx, j, Pre);
    HasWord(s, j, "<PRE>");
    HasWord(s, z, "</PRE>");
    FlushReady(e, s, parts, k, st.idx, j, st, node.items, j + 5);
    end := Find(s, j + 5, "</PRE>").value;
    ContentClear(e, s, st, node, depth, EraseTo(parts, k), Pre, (end, false));
    hide AddClearItem;
    NotEmptyAdded(EraseTo(parts, k), s, j + 5, end);
  }

  /** Where the end tag of an element `PRE` is. */
  lemma PrePieces(e: Encoding, s: string, i: nat, p: Part)
    requires p.Sub? && p.doc.name == "PRE" && p.doc.ending == Full && Head(e, p.doc) == "<PRE>"
             && Has(s, i, WritePart(e, p))
    ensures var next := i + |WritePart(e, p)|;
            i + |p.gap| + 5 <= next - 6 && Has(s, next - 6, "</PRE>") && Has(s, i, p.gap + "<PRE>")
  {
    hide WriteParts, WritePart, Head, Has;
    SubPieces(e, s, i, p);
    assert WriteEnd("PRE") == "</PRE>";
  }

  function PreItem(s: string, from: nat, end: nat): Item
    requires from < end <= |s|
  {
    Clear(ClearText(Pre, s[from..end], false))
  }

  lemma NotEmptyAdded(items: seq<Item>, s: string, from: nat, end: nat)
    requires from < end <= |s|
    ensures AddClearItem(items, Pre, s[from..end], false) == items + [PreItem(s, from, end)]
  {
  }

  lemma PreMissing(e: Encoding, s: string, parts: seq<Part>, k: nat, st: State, node: Elem, depth: nat, z: nat)
    requires k < |parts| && parts[k].Sub? && Separated(parts) && InText(s, st)
    requires Ready(e, s, parts, k, st.idx, st, node.items) && Has(s, st.idx, parts[k].gap + "<PRE>")
    requires var i := st.idx + |parts[k].gap| + 5; !Has(s, i, "</PRE>") && i <= z && Has(s, z, "</PRE>")
    ensures Missing(parts, k, ParseContent(e, s, st, node, depth).node.items)
  {
    hide ParseContent, EraseTo, Erase, Ready, Separated, Has;
    var end := PreReads(e, s, parts, k, st, node, depth, z);
    var node1 := node.(items := EraseTo(parts, k) + [PreItem(s, st.idx + |parts[k].gap| + 5, end)]);
    ContentKeeps(e, s, InBody(st, end + 6), node1, depth);
    assert Firm(node1.items, |EraseTo(parts, k)|);
  }

  /** The `?` at the end of a declaration without attributes goes to its name. */
  lemma BareReads(e: Encoding, s: string, parts: seq<Part>, k: nat, st: State, node: Elem, depth: nat)
    returns (c: Parsed)
    requires k < |parts| && parts[k].Sub? && Separated(parts) && InText(s, st) && PlainName(e, parts[k].doc.name)
    requires Ready(e, s, parts, k, st.idx, st, node.items)
    requires Has(s, st.idx, parts[k].gap + ("<?" + (parts[k].doc.name + "?") + ">"))
    ensures InText(s, c.st) && c.node.name == Some(parts[k].doc.name + "?")
    ensures ParseContent(e, s, st, node, depth)
         == AfterChild(e, s, c, node.(items := EraseTo(parts, k) + [Child(c.node)]), depth)
  {
    hide NextToken, ParseContent, ParseElement, AfterChild, EraseTo, Flush, Ready, Separated, Blank, PlainName,
         PlainWord, Has;
    var gap, word := parts[k].gap, parts[k].doc.name + "?";
    var j := st.idx + |gap|;
    HasAppend(s, st.idx, gap, "<?" + word + ">");
    GapOf(parts, k);
    BlankGap(s, st.idx, gap);
    BareTokens(e, s, j, parts[k].doc.name);
    SkipBlank(e, s, st.idx, j);
    FlushReady(e, s, parts, k, st.idx, j, st, node.items, j + 2);
    ContentChild(e, s, st, node, depth, EraseTo(parts, k));
    var n := NextToken(e, s, j + 2);
    var child := Elem(Some(s[n.start..n.start + n.len]), true, [], []);
    ElementNamed(e, s, st.(idx := n.next, text := None), child, depth + 1);
    c := ParseElement(e, s, st.(idx := n.next, text := None), child, depth + 1);
  }

  lemma BareMissing(e: Encoding, s: string, parts: seq<Part>, k: nat, st: State, node: Elem, depth: nat)
    requires k < |parts| && parts[k].Sub? && Separated(parts) && InText(s, st) && PlainName(e, parts[k].doc.name)
    requires Ready(e, s, parts, k, st.idx, st, node.items)
    requires Has(s, st.idx, parts[k].gap + ("<?" + (parts[k].doc.name + "?") + ">"))
    ensures Missing(parts, k, ParseContent(e, s, st, node, depth).node.items)
  {
    hide ParseContent, AfterChild, EraseTo, Ready, Separated, PlainName, Has, Missing;
    var c := BareReads(e, s, parts, k, st, node, depth);
    WrongChild(e, s, parts, k, node, depth, c);
  }

  lemma BareTokens(e: Encoding, s: string, j: nat, name: string)
    requires PlainName(e, name) && Has(s, j, "<?" + (name + "?") + ">")
    ensures j + 2 <= |s| && NextToken(e, s, j) == Token(TokenDeclaration, j, 2, j + 2)
    ensures var n := NextToken(e, s, j + 2);
            n.kind == TokenText && n.start == j + 2 && n.len == |name| + 1 && s[n.start..n.start + n.len] == name + "?"
  {
    hide PlainName, NextToken, ClearAt;
    var word := name + "?";
    HasAppend(s, j, "<?" + word, ">");
    HasAppend(s, j, "<?", word);
    HasAt(s, j, "<?", 0);
    HasAt(s, j, "<?", 1);
    SecondNoClear(s, j);
    MarkupOpens(e, s, j);
    HasAt(s, j + 2 + |word|, ">", 0);
    QuestionName(e, name);
    WordToken(e, s, j + 2, word);
    HasWord(s, j + 2, word);
  }

  lemma QuestionName(e: Encoding, name: string)
    requires PlainName(e, name)
    ensures PlainWord(e, name + "?")
  {
    QuestionWord(e);
    SafeAppend(e, name, "?");
  }

  // ---------------------------------------------------------------- what stands behind `<PRE>`

  /** The parts do not begin like an end tag. */
  lemma NoEndTag(e: Encoding, s: string, parts: seq<Part>, i: nat)
    requires parts != [] && FairParts(e, parts) && Has(s, i, WriteParts(e, parts, 0))
    ensures !Has(s, i, "</PRE>")
  {
    hide FairParts, WriteParts, WritePart, Has, AllSpace, Encode, FairPart;
    FairAt(e, parts, 0);
    PartPieces(e, s, parts, 0, i);
    GapOf(parts, 0);
    var gap := parts[0].gap;
    if gap != "" {
      GapFirst(e, s, i, parts[0]);
    } else {
      PartFirst(e, s, i, parts[0]);
    }
  }

  lemma GapFirst(e: Encoding, s: string, i: nat, p: Part)
    requires Has(s, i, WritePart(e, p)) && p.gap != "" && AllSpace(p.gap)
    ensures !Has(s, i, "</PRE>")
  {
    hide Encode, Write, WriteClear;
    HasAt(s, i, WritePart(e, p), 0);
    assert WritePart(e, p)[0] == p.gap[0];
    if Has(s, i, "</PRE>") {
      HasAt(s, i, "</PRE>", 0);
    }
  }

  lemma PartFirst(e: Encoding, s: string, i: nat, p: Part)
    requires Has(s, i, WritePart(e, p)) && p.gap == "" && FairPart(e, p)
    ensures !Has(s, i, "</PRE>")
  {
    hide Encode, Write, WriteClear, Fair, Has, GoodText, GoodClear;
    var w := match p
             case Sub(_, doc) => Write(e, doc)
             case Run(_, text) => Encode(e, text)
             case Raw(_, clear) => WriteClear(clear);
    assert WritePart(e, p) == w;
    if Has(s, i, "</PRE>") {
      HasAt(s, i, "</PRE>", 0);
      HasAt(s, i, "</PRE>", 1);
      match p {
        case Sub(_, doc) =>
          WriteFirst(e, doc);
          HasAt(s, i, w, 1);
        case Run(_, text) =>
          TextFirst(e, text);
          HasAt(s, i, w, 0);
        case Raw(_, clear) =>
          ClearFirst(clear);
          HasAt(s, i, w, 1);
      }
    }
  }

  lemma WriteFirst(e: Encoding, d: Doc)
    requires Fair(e, d)
    ensures |Write(e, d)| > 1 && Write(e, d)[1] != '/'
  {
    hide FairParts, GoodAttribute, WriteParts, WriteAttributes;
    WriteSplit(e, d);
    hide Write;
    assert Head(e, d)[1] != '/';
  }

  lemma TextFirst(e: Encoding, text: string)
    requires GoodText(e, text)
    ensures Encode(e, text) != "" && Encode(e, text)[0] != '<'
  {
    EncodedFirst(e, text);
    if Special(text[0]) {
      EntityAscii(text[0]);
    }
  }

  lemma ClearFirst(c: ClearText)
    ensures |WriteClear(c)| > 1 && WriteClear(c)[1] != '/'
  {
    assert OpenTag(c.tag)[1] != '/';
    hide OpenTag;
  }

  // ---------------------------------------------------------------- the main lemma

  /** A head that is not taken for anything else is a good one. */
  lemma FairHead(e: Encoding, d: Doc)
    requires Fair(e, d) && (d.isDeclaration ==> d.attributes != [])
    requires d.name == "PRE" && d.attributes == [] && !d.isDeclaration ==> d.parts == []
    ensures GoodHead(e, d) && AllSpace(d.tail)
  {
    hide FairParts, PlainName, GoodAttribute, AllSpace;
  }

  lemma BareHead(e: Encoding, d: Doc)
    requires Fair(e, d) && d.isDeclaration && d.attributes == []
    ensures PlainName(e, d.name) && Head(e, d) == "<?" + (d.name + "?") + ">"
  {
    hide FairParts, PlainName, AllSpace;
    assert TagRest(e, d, 0) == "?>";
    assert d.name + "?>" == d.name + "?" + ">";
    assert "<?" + (d.name + "?" + ">") == "<?" + (d.name + "?") + ">";
  }

  lemma PreHead(e: Encoding, d: Doc)
    requires Fair(e, d) && !d.isDeclaration && d.name == "PRE" && d.attributes == [] && d.parts != []
    ensures FairParts(e, d.parts) && Head(e, d) == "<PRE>" && d.ending == Full
  {
    hide FairParts, PlainName, AllSpace;
    assert TagRest(e, d, 0) == ">";
  }

  /** A declaration below the second level is read without its parts. */
  lemma ClosedEmpty(e: Encoding, s: string, st: State, d: Doc, depth: nat, h: nat)
    requires h <= |s| && Fair(e, d) && !Sound(d, depth) && TagEnding(d, depth) == Closed
    requires d.isDeclaration ==> d.attributes != []
    ensures ChildOf(e, s, st, d, depth, h).node != Erase(d)
  {
    hide FairParts, PlainName, GoodAttribute, AllSpace, EraseTo;
    assert d.parts != [];
    EraseSome(d.parts, |d.parts|);
    OpeningErased(d);
  }

  lemma OpenedUnsound(e: Encoding, d: Doc, depth: nat)
    requires Fair(e, d) && !Sound(d, depth) && TagEnding(d, depth) == Opened
    requires d.isDeclaration ==> d.attributes != []
    requires d.name == "PRE" && d.attributes == [] && !d.isDeclaration ==> d.parts == []
    ensures !SoundParts(d.parts, 0, depth + 1)
  {
    hide FairParts, SoundParts, PlainName, GoodAttribute, AllSpace;
  }

  lemma OpenedFair(e: Encoding, d: Doc, depth: nat)
    requires Fair(e, d) && TagEnding(d, depth) == Opened
    requires d.isDeclaration ==> d.attributes != []
    ensures FairParts(e, d.parts) && (d.ending == Full || (d.ending == Omitted && d.tail == "" && depth < 2))
  {
    hide FairParts, PlainName, GoodAttribute, AllSpace;
  }

  /** Some part from number `k` on is not sound, or is still open although it is not the last. */
  predicate Faulty(parts: seq<Part>, k: nat, depth: nat)
    requires k <= |parts|
  {
    !SoundParts(parts, k, depth) || !Ordered(parts, k, depth)
  }

  predicate FaultyPart(parts: seq<Part>, k: nat, depth: nat)
    requires k < |parts|
  {
    parts[k].Sub? && (!Sound(parts[k].doc, depth) || (Open(parts[k], depth) && k + 1 < |parts|))
  }

  lemma FaultyNext(parts: seq<Part>, k: nat, depth: nat)
    requires k <= |parts| && Faulty(parts, k, depth)
    ensures k < |parts| && (FaultyPart(parts, k, depth) || Faulty(parts, k + 1, depth))
  {
    hide Sound;
    if SoundParts(parts, k, depth) {
      var i :| k <= i < |parts| - 1 && Open(parts[i], depth);
      assert SoundParts(parts, k + 1, depth) && (i > k ==> !Ordered(parts, k + 1, depth));
    } else {
      assert k < |parts| && (!SoundPart(parts[k], depth) || !SoundParts(parts, k + 1, depth));
    }
  }

  /** From any part on: if one of the parts is faulty, the parser reads something else than these parts. */
  lemma {:induction false} PartsMisread(e: Encoding, s: string, parts: seq<Part>, k: nat, st: State, node: Elem,
                                        depth: nat, stop: Stop, z: nat)
    requires k <= |parts| && FairParts(e, parts) && Stands(e, s, parts, k, st, node.items, stop, z)
    requires Faulty(parts, k, depth + 1) && (depth == 0 ==> stop.EndOfText?)
    ensures ParseContent(e, s, st, node, depth).node.items != EraseTo(parts, |parts|)
    decreases if depth == 0 then 1 else 0, parts, |parts| - k
  {
    hide ParseContent, FairParts, EraseTo, Has, Blank, Ready, WriteParts, WritePart, StopsAt, GoodText, GoodClear,
         Sound, Separated, Faulty, Open;
    FaultyNext(parts, k, depth + 1);
    var next := st.idx + |WritePart(e, parts[k])|;
    FairAt(e, parts, k);
    if FaultyPart(parts, k, depth + 1) {
      ChildMisread(e, s, parts, k, st, node, depth, stop, z);
      MissingDiffers(parts, k, ParseContent(e, s, st, node, depth).node.items);
    } else if parts[k].Run? {
      RunCase(e, s, parts, k, st, node, depth, stop, z, next);
      PartsMisread(e, s, parts, k + 1, st.(idx := next), node, depth, stop, z);
    } else if parts[k].Raw? {
      RawCase(e, s, parts, k, st, node, depth, stop, z, next);
      PartsMisread(e, s, parts, k + 1, InBody(st, next), node.(items := EraseTo(parts, k + 1)), depth, stop, z);
    } else {
      FairGood(e, parts[k].doc, depth + 1);
      FaultyLeft(parts, k + 1, depth + 1);
      var c := ClosedReads(e, s, parts, k, st, node, depth, stop, z);
      ClosedCase(e, s, parts, k, st, node, depth, stop, z, next, c);
      PartsMisread(e, s, parts, k + 1, c.st, node.(items := EraseTo(parts, k + 1)), depth, stop, z);
    }
  }

  lemma FaultyLeft(parts: seq<Part>, k: nat, depth: nat)
    requires k <= |parts| && Faulty(parts, k, depth)
    ensures k < |parts|
  {
  }

  lemma FaultyOpened(d: Doc, parts: seq<Part>, k: nat, depth: nat)
    requires k < |parts| && parts[k].Sub? && parts[k].doc == d && FaultyPart(parts, k, depth)
    ensures TagEnding(d, depth) == Closed || d.ending == Full || k + 1 == |parts| ==> !Sound(d, depth)
    ensures !SoundParts(d.parts, 0, depth + 1) ==> Faulty(d.parts, 0, depth + 1)
  {
    hide Sound, SoundParts;
  }

  /** An element that is not sound is read as something else. */
  lemma {:induction false} ChildMisread(e: Encoding, s: string, parts: seq<Part>, k: nat, st: State, node: Elem,
                                        depth: nat, stop: Stop, z: nat)
    requires k < |parts| && parts[k].Sub? && FairParts(e, parts) && Stands(e, s, parts, k, st, node.items, stop, z)
    requires FaultyPart(parts, k, depth + 1) && (depth == 0 ==> stop.EndOfText?)
    ensures Missing(parts, k, ParseContent(e, s, st, node, depth).node.items)
    decreases if depth == 0 then 1 else 0, parts, |parts| - k, 0
  {
    hide ParseContent, FairParts, EraseTo, Has, Blank, Ready, WriteParts, WritePart, StopsAt, AfterChild, ChildOf,
         Erase, Missing, Separated, Fair, GoodHead, SoundParts, Head, AllSpace, TagEnding, Faulty, FaultyPart, Sound;
    var d, h := parts[k].doc, BodyAt(e, st, parts[k]);
    var next := st.idx + |WritePart(e, parts[k])|;
    FairAt(e, parts, k);
    ReadyText(e, s, parts, k, st.idx, st, node.items);
    PartPieces(e, s, parts, k, st.idx);
    SubPieces(e, s, st.idx, parts[k]);
    if d.isDeclaration && d.attributes == [] {
      BareHead(e, d);
      BareMissing(e, s, parts, k, st, node, depth);
    } else if !d.isDeclaration && d.name == "PRE" && d.attributes == [] && d.parts != [] {
      PreHead(e, d);
      NoEndTag(e, s, d.parts, h);
      PrePieces(e, s, st.idx, parts[k]);
      PreMissing(e, s, parts, k, st, node, depth, next - 6);
    } else {
      FairHead(e, d);
      SubReads(e, s, parts, k, st, node, depth);
      var c := ChildOf(e, s, st, d, depth + 1, h);
      HowItEnds(d, depth + 1);
      FaultyOpened(d, parts, k, depth + 1);
      if TagEnding(d, depth + 1) == Closed {
        ClosedEmpty(e, s, st, d, depth + 1, h);
      } else {
        ChildOpens(e, s, st, d, depth + 1, h);
        OpenedFair(e, d, depth + 1);
        if d.ending == Full {
          OpenedUnsound(e, d, depth + 1);
          EndLength(d.name);
          FullStands(e, s, st, parts[k], next);
          PartsMisread(e, s, d.parts, 0, InBody(st, h), Opening(d), depth + 1, EndTag(d.name), next - |d.name| - 3);
        } else if k + 1 == |parts| {
          OpenedUnsound(e, d, depth + 1);
          OpenStands(e, s, parts, k, st, node.items, stop, z);
          PartsMisread(e, s, d.parts, 0, InBody(st, h), Opening(d), depth + 1, stop, z);
        } else {
          var p, m, a := Continued(e, parts, k);
          ContinuedStands(e, s, parts, k, st, node.items, stop, z, p);
          PartsBeyond(e, s, p, 0, m, a, InBody(st, h), Opening(d), depth + 1, z);
        }
        OpeningErased(d);
      }
      WrongChild(e, s, parts, k, node, depth, c);
    }
  }

  // ---------------------------------------------------------------- a declaration that takes in what follows

  lemma {:induction false} WriteJoined(e: Encoding, p: seq<Part>, q: seq<Part>, i: nat)
    requires i <= |p|
    ensures WriteParts(e, p + q, i) == WriteParts(e, p, i) + WriteParts(e, q, 0)
    decreases |p| - i
  {
    hide WritePart;
    if i < |p| {
      WriteJoined(e, p, q, i + 1);
      Assoc(WritePart(e, p[i]), WriteParts(e, p, i + 1), WriteParts(e, q, 0));
    } else {
      WriteDropped(e, p + q, i, 0);
      assert (p + q)[i..] == q;
    }
  }

  lemma {:induction false} WriteDropped(e: Encoding, parts: seq<Part>, k: nat, i: nat)
    requires k + i <= |parts|
    ensures WriteParts(e, parts[k..], i) == WriteParts(e, parts, k + i)
    decreases |parts| - k - i
  {
    hide WritePart;
    if k + i < |parts| {
      WriteDropped(e, parts, k, i + 1);
    }
  }

  lemma {:induction false} EraseJoined(p: seq<Part>, q: seq<Part>, n: nat)
    requires n <= |p|
    ensures EraseTo(p + q, n) == EraseTo(p, n)
    decreases n
  {
    hide ErasePart, Join;
    if n > 0 {
      EraseJoined(p, q, n - 1);
    }
  }

  lemma FairJoined(e: Encoding, p: seq<Part>, q: seq<Part>)
    requires FairParts(e, p) && FairParts(e, q) && (p != [] && q != [] && p[|p| - 1].Run? ==> !q[0].Run?)
    ensures FairParts(e, p + q)
  {
    hide FairPart, AllSpace;
    var r := p + q;
    forall k | 0 <= k < |r|
      ensures AllSpace(r[k].gap) && (r[k].Run? && k > 0 ==> !r[k - 1].Run?) && FairPart(e, r[k])
    {
      if k < |p| {
        FairAt(e, p, k);
        assert r[k] == p[k] && (k > 0 ==> r[k - 1] == p[k - 1]);
      } else {
        FairAt(e, q, k - |p|);
        assert r[k] == q[k - |p|] && (k > |p| ==> r[k - 1] == q[k - |p| - 1]);
      }
    }
  }

  lemma FairSlice(e: Encoding, parts: seq<Part>, i: nat, j: nat)
    requires FairParts(e, parts) && i <= j <= |parts|
    ensures FairParts(e, parts[i..j])
  {
    hide FairPart, AllSpace;
    var r := parts[i..j];
    forall k | 0 <= k < |r|
      ensures AllSpace(r[k].gap) && (r[k].Run? && k > 0 ==> !r[k - 1].Run?) && FairPart(e, r[k])
    {
      FairAt(e, parts, i + k);
      assert r[k] == parts[i + k] && (k > 0 ==> r[k - 1] == parts[i + k - 1]);
    }
  }

  /** An encoded text goes on. */
  lemma {:induction false} EncodeJoined(e: Encoding, a: string, b: string, k: nat)
    requires Safe(e, a) && k <= |a|
    ensures EncodeFrom(e, a + b, k) == EncodeFrom(e, a, k) + EncodeFrom(e, b, 0)
    decreases |a| - k
  {
    hide EncodeFrom, Safe;
    if k < |a| {
      PieceJoined(e, a, b, k);
      EncodeUnfold(e, a, k);
      EncodeUnfold(e, a + b, k);
      EncodeJoined(e, a, b, Advance(e, a, k));
      Assoc(Piece(e, a, k), EncodeFrom(e, a, Advance(e, a, k)), EncodeFrom(e, b, 0));
    } else {
      EncodeDone(e, a);
      EncodeDropped(e, a, b, 0);
    }
  }

  lemma PieceJoined(e: Encoding, a: string, b: string, k: nat)
    requires Safe(e, a) && k < |a|
    ensures Advance(e, a + b, k) == Advance(e, a, k) <= |a| && Piece(e, a + b, k) == Piece(e, a, k)
  {
    assert (a + b)[k] == a[k];
    var n := Advance(e, a, k);
    assert (a + b)[k..n] == a[k..n];
  }

  lemma {:induction false} EncodeDropped(e: Encoding, a: string, b: string, k: nat)
    requires k <= |b|
    ensures EncodeFrom(e, a + b, |a| + k) == EncodeFrom(e, b, k)
    decreases |b| - k
  {
    hide EncodeFrom;
    if k < |b| {
      PieceDropped(e, a, b, k);
      EncodeUnfold(e, b, k);
      EncodeUnfold(e, a + b, |a| + k);
      EncodeDropped(e, a, b, Advance(e, b, k));
    } else {
      EncodeDone(e, b);
      EncodeDone(e, a + b);
    }
  }

  lemma PieceDropped(e: Encoding, a: string, b: string, k: nat)
    requires k < |b|
    ensures Advance(e, a + b, |a| + k) == |a| + Advance(e, b, k) && Piece(e, a + b, |a| + k) == Piece(e, b, k)
  {
    assert (a + b)[|a| + k] == b[k];
    var n := Advance(e, b, k);
    assert (a + b)[|a| + k..|a| + n] == b[k..n];
  }

  lemma {:induction false} EncodeBlank(e: Encoding, g: string, k: nat)
    requires AllSpace(g) && k <= |g|
    ensures Safe(e, g) && EncodeFrom(e, g, k) == g[k..]
    decreases |g| - k
  {
    if k < |g| {
      assert IsSpace(g[k]);
      EncodeBlank(e, g, k + 1);
      EncodeUnfold(e, g, k);
      assert Piece(e, g, k) == [g[k]];
    } else {
      EncodeDone(e, g);
    }
  }

  lemma EncodedJoined(e: Encoding, a: string, b: string)
    requires Safe(e, a)
    ensures Encode(e, a + b) == Encode(e, a) + Encode(e, b)
  {
    hide EncodeFrom, Safe;
    EncodeJoined(e, a, b, 0);
  }

  lemma EncodedBlank(e: Encoding, g: string)
    requires AllSpace(g)
    ensures Safe(e, g) && Encode(e, g) == g
  {
    hide EncodeFrom, Safe, AllSpace;
    EncodeBlank(e, g, 0);
    assert g[0..] == g;
  }

  /** Two texts with nothing but white space between them are one text. */
  lemma TextsJoined(e: Encoding, a: string, g: string, b: string)
    requires GoodText(e, a) && GoodText(e, b) && AllSpace(g)
    ensures GoodText(e, a + g + b) && Encode(e, a + g + b) == Encode(e, a) + (g + Encode(e, b))
  {
    hide Encode, Safe, AllSpace, IsSpace;
    EncodedBlank(e, g);
    SafeAppend(e, a, g);
    SafeAppend(e, a + g, b);
    EncodedJoined(e, a + g, b);
    EncodedJoined(e, a, g);
    Assoc(Encode(e, a), g, Encode(e, b));
  }

  /** What is meant in front of a part, with a shorter text for that part if it is one. */
  function UpTo(items: seq<Item>, a: string): seq<Item> {
    if a == "" then items else AddTextItem(items, a)
  }

  /** Part number `m` goes beyond `a`: it is not a text at all, or a longer one. */
  predicate Beyond(parts: seq<Part>, m: nat, a: string) {
    m < |parts| && (a != "" ==> parts[m].Run? && |a| < |parts[m].text|)
  }

  /** The parts that a declaration is read with: its own and those behind it, a text at its end made one with a text
      behind it. */
  lemma Continued(e: Encoding, parts: seq<Part>, k: nat) returns (p: seq<Part>, m: nat, a: string)
    requires k + 1 < |parts| && parts[k].Sub? && FairParts(e, parts) && FairParts(e, parts[k].doc.parts)
    ensures FairParts(e, p) && Beyond(p, m, a)
    ensures WriteParts(e, p, 0) == WriteParts(e, parts[k].doc.parts, 0) + WriteParts(e, parts, k + 1)
    ensures EraseTo(parts[k].doc.parts, |parts[k].doc.parts|) == UpTo(EraseTo(p, m), a)
  {
    hide FairParts, WriteParts, EraseTo, AddTextItem, GoodText, Separated;
    var own, rest := parts[k].doc.parts, parts[k + 1..];
    FairSlice(e, parts, k + 1, |parts|);
    assert parts[k + 1..|parts|] == rest;
    WriteDropped(e, parts, k + 1, 0);
    m := |own|;
    if m == 0 || !own[m - 1].Run? || !rest[0].Run? {
      p, a := own + rest, "";
      FairJoined(e, own, rest);
      WriteJoined(e, own, rest, 0);
      EraseJoined(own, rest, m);
    } else {
      m := m - 1;
      a := own[m].text;
      p := Merged(e, own, rest);
    }
  }

  lemma Merged(e: Encoding, own: seq<Part>, rest: seq<Part>) returns (p: seq<Part>)
    requires FairParts(e, own) && FairParts(e, rest) && own != [] && rest != []
    requires own[|own| - 1].Run? && rest[0].Run?
    ensures var m := |own| - 1;
            && FairParts(e, p) && Beyond(p, m, own[m].text)
            && WriteParts(e, p, 0) == WriteParts(e, own, 0) + WriteParts(e, rest, 0)
            && EraseTo(own, |own|) == UpTo(EraseTo(p, m), own[m].text)
  {
    hide FairParts, WriteParts, EraseTo, AddTextItem;
    var m := |own| - 1;
    var a, b := own[m], rest[0];
    FairAt(e, own, m);
    FairAt(e, rest, 0);
    var one := Run(a.gap, a.text + b.gap + b.text);
    var front, back := own[..m], rest[1..];
    p := front + ([one] + back);
    assert p[m] == one;
    FairMerged(e, own, rest, one);
    EraseJoined(front, [one] + back, m);
    EraseJoined(front, [a], m);
    assert front + [a] == own;
    EraseNext(own, m);
    WriteMerged(e, own, rest, one);
  }

  lemma FairMerged(e: Encoding, own: seq<Part>, rest: seq<Part>, one: Part)
    requires FairParts(e, own) && FairParts(e, rest) && own != [] && rest != []
    requires var a, b := own[|own| - 1], rest[0];
             a.Run? && b.Run? && one == Run(a.gap, a.text + b.gap + b.text)
    ensures FairParts(e, own[..|own| - 1] + ([one] + rest[1..]))
  {
    hide FairParts, FairPart, GoodText, AllSpace;
    var m := |own| - 1;
    FairAt(e, own, m);
    FairAt(e, rest, 0);
    FairOne(e, own[m], rest[0], one);
    FairSlice(e, own, 0, m);
    FairSlice(e, rest, 1, |rest|);
    assert own[0..m] == own[..m] && rest[1..|rest|] == rest[1..];
    NoTextBefore(own, m);
    NoTextBefore(rest, 1);
    FairJoined(e, [one], rest[1..]);
    FairJoined(e, own[..m], [one] + rest[1..]);
  }

  lemma FairOne(e: Encoding, a: Part, b: Part, one: Part)
    requires FairPart(e, a) && FairPart(e, b) && AllSpace(a.gap) && AllSpace(b.gap)
    requires a.Run? && b.Run? && one == Run(a.gap, a.text + b.gap + b.text)
    ensures FairParts(e, [one])
  {
    hide GoodText, AllSpace, FairPart, FairParts;
    RunFair(e, a);
    RunFair(e, b);
    TextsJoined(e, a.text, b.gap, b.text);
    RunFair(e, one);
    SingleFair(e, one);
  }

  lemma RunFair(e: Encoding, p: Part)
    requires p.Run?
    ensures FairPart(e, p) <==> GoodText(e, p.text)
  {
    hide GoodText;
  }

  lemma SingleFair(e: Encoding, p: Part)
    requires FairPart(e, p) && AllSpace(p.gap)
    ensures FairParts(e, [p])
  {
    hide FairPart, AllSpace;
  }

  /** In front of a text, and behind it, there is none. */
  lemma NoTextBefore(parts: seq<Part>, k: nat)
    requires Separated(parts)
    ensures 0 < k < |parts| ==> !(parts[k - 1].Run? && parts[k].Run?)
  {
  }

  lemma WriteMerged(e: Encoding, own: seq<Part>, rest: seq<Part>, one: Part)
    requires FairParts(e, own) && FairParts(e, rest) && own != [] && rest != []
    requires var a, b := own[|own| - 1], rest[0];
             a.Run? && b.Run? && one == Run(a.gap, a.text + b.gap + b.text)
    ensures WriteParts(e, own[..|own| - 1] + ([one] + rest[1..]), 0) == WriteParts(e, own, 0) + WriteParts(e, rest, 0)
  {
    hide FairParts, WriteParts, WritePart;
    var m := |own| - 1;
    var a, b, front, back := own[m], rest[0], own[..m], rest[1..];
    var w, v := WriteParts(e, front, 0), WriteParts(e, back, 0);
    WriteJoined(e, front, [one] + back, 0);
    WriteJoined(e, [one], back, 0);
    WriteJoined(e, front, [a], 0);
    WriteJoined(e, [b], back, 0);
    assert front + [a] == own && [b] + back == rest;
    WriteOne(e, one);
    WriteOne(e, a);
    WriteOne(e, b);
    FairAt(e, own, m);
    FairAt(e, rest, 0);
    RunJoined(e, a, b, one);
    Assoc(WritePart(e, a), WritePart(e, b), v);
    Assoc(w, WritePart(e, a), WritePart(e, b) + v);
  }

  lemma WriteOne(e: Encoding, p: Part)
    ensures WriteParts(e, [p], 0) == WritePart(e, p)
  {
    assert WriteParts(e, [p], 1) == "";
    hide WritePart;
    assert WritePart(e, p) + "" == WritePart(e, p);
  }

  lemma RunJoined(e: Encoding, a: Part, b: Part, one: Part)
    requires a.Run? && b.Run? && one == Run(a.gap, a.text + b.gap + b.text)
    requires GoodText(e, a.text) && GoodText(e, b.text) && AllSpace(b.gap)
    ensures WritePart(e, one) == WritePart(e, a) + WritePart(e, b)
  {
    hide Encode, GoodText, AllSpace;
    TextsJoined(e, a.text, b.gap, b.text);
    Assoc(a.gap, Encode(e, a.text), b.gap + Encode(e, b.text));
  }

  /** In front of the parts of a declaration that is not the last part. */
  lemma ContinuedStands(e: Encoding, s: string, parts: seq<Part>, k: nat, st: State, items: seq<Item>, stop: Stop,
                        z: nat, p: seq<Part>)
    requires k < |parts| && parts[k].Sub? && parts[k].doc.ending == Omitted && parts[k].doc.tail == ""
    requires Stands(e, s, parts, k, st, items, stop, z)
    requires WriteParts(e, p, 0) == WriteParts(e, parts[k].doc.parts, 0) + WriteParts(e, parts, k + 1)
    ensures var h := BodyAt(e, st, parts[k]); h <= |s| && Stands(e, s, p, 0, InBody(st, h), [], stop, z)
  {
    hide Has, Head, WritePart, WriteParts, WriteEnd, StopsAt, Ready, Blank;
    var d, h := parts[k].doc, BodyAt(e, st, parts[k]);
    ReadyText(e, s, parts, k, st.idx, st, items);
    PartPieces(e, s, parts, k, st.idx);
    SubPieces(e, s, st.idx, parts[k]);
    HasAppend(s, h, WriteParts(e, d.parts, 0), WriteParts(e, parts, k + 1));
    BodyStands(e, s, p, st, h, stop, z);
  }

  // ---------------------------------------------------------------- what stands beyond a part

  /** An item that elision has nothing to do with. */
  predicate Solid(x: Item) {
    !x.Text? && !CommentItem(x)
  }

  /** The items in front of a part, with a solid item behind them, are still there in `r`. */
  ghost predicate Adds(p: seq<Item>, r: seq<Item>) {
    exists x :: Solid(x) && Kept(p + [x], r)
  }

  lemma AddsKept(p: seq<Item>, x: Item, r: seq<Item>)
    requires Solid(x) && Kept(p + [x], r)
    ensures Adds(p, r)
  {
  }

  /** An element is read as a child, or as a clear tag, that stays in its place. */
  lemma SubAdds(e: Encoding, s: string, parts: seq<Part>, k: nat, st: State, node: Elem, depth: nat, stop: Stop, z: nat)
    requires k < |parts| && parts[k].Sub? && FairParts(e, parts) && Stands(e, s, parts, k, st, node.items, stop, z)
    ensures Adds(EraseTo(parts, k), ParseContent(e, s, st, node, depth).node.items)
  {
    hide ParseContent, FairParts, EraseTo, Has, Blank, Ready, WriteParts, WritePart, StopsAt, AfterChild, ChildOf,
         Erase, Separated, Fair, GoodHead, Head, AllSpace, Kept, Adds;
    var d, h := parts[k].doc, BodyAt(e, st, parts[k]);
    var next := st.idx + |WritePart(e, parts[k])|;
    var items, r := EraseTo(parts, k), ParseContent(e, s, st, node, depth).node.items;
    FairAt(e, parts, k);
    ReadyText(e, s, parts, k, st.idx, st, node.items);
    PartPieces(e, s, parts, k, st.idx);
    SubPieces(e, s, st.idx, parts[k]);
    if !d.isDeclaration && d.name == "PRE" && d.attributes == [] && d.parts != [] {
      PreHead(e, d);
      NoEndTag(e, s, d.parts, h);
      PrePieces(e, s, st.idx, parts[k]);
      var end := PreReads(e, s, parts, k, st, node, depth, next - 6);
      var x := PreItem(s, st.idx + |parts[k].gap| + 5, end);
      ContentKeeps(e, s, InBody(st, end + 6), node.(items := items + [x]), depth);
      AddsKept(items, x, r);
    } else {
      var c: Parsed;
      if d.isDeclaration && d.attributes == [] {
        BareHead(e, d);
        c := BareReads(e, s, parts, k, st, node, depth);
      } else {
        FairHead(e, d);
        SubReads(e, s, parts, k, st, node, depth);
        c := ChildOf(e, s, st, d, depth + 1, h);
      }
      BehindKeeps(e, s, c, node.(items := items + [Child(c.node)]), depth);
      AddsKept(items, Child(c.node), r);
    }
  }

  /** In front of a part that is no text, everything before it is added, and stays. */
  lemma StandsKept(e: Encoding, s: string, parts: seq<Part>, k: nat, st: State, node: Elem, depth: nat, z: nat)
    requires k <= |parts| && FairParts(e, parts) && Stands(e, s, parts, k, st, node.items, EndOfText, z)
    requires k < |parts| ==> !parts[k].Run?
    ensures Kept(EraseTo(parts, k), ParseContent(e, s, st, node, depth).node.items)
  {
    hide ParseContent, FairParts, EraseTo, Has, Blank, Ready, WriteParts, WritePart, Erase, Separated, Fair, GoodClear,
         Kept, Adds;
    var items, r := EraseTo(parts, k), ParseContent(e, s, st, node, depth).node.items;
    ReadyText(e, s, parts, k, st.idx, st, node.items);
    if k == |parts| {
      NothingLeft(e, parts);
      FairSeparated(e, parts);
      EndOfTextReads(e, s, parts, st, node, depth);
      JustKept(items);
    } else if parts[k].Raw? {
      FairAt(e, parts, k);
      var next := st.idx + |WritePart(e, parts[k])|;
      RawCase(e, s, parts, k, st, node, depth, EndOfText, z, next);
      var node1 := node.(items := EraseTo(parts, k + 1));
      EraseNext(parts, k);
      AppendKeeps(items, ErasePart(parts[k]));
      PartPieces(e, s, parts, k, st.idx);
      ContentKeeps(e, s, InBody(st, next), node1, depth);
      KeptThrough(items, node1.items, r);
    } else {
      SubAdds(e, s, parts, k, st, node, depth, EndOfText, z);
      AddsKeeps(items, r);
    }
  }

  lemma AddsKeeps(p: seq<Item>, r: seq<Item>)
    requires Adds(p, r)
    ensures Kept(p, r)
  {
    hide Kept;
    var x :| Solid(x) && Kept(p + [x], r);
    AppendKeeps(p, x);
    KeptThrough(p, p + [x], r);
  }

  lemma FairSeparated(e: Encoding, parts: seq<Part>)
    requires FairParts(e, parts)
    ensures Separated(parts)
  {
  }

  // ---- items that go beyond `items`

  lemma AddsDiffers(items: seq<Item>, r: seq<Item>)
    requires Adds(items, r)
    ensures r != items
  {
    var x :| Solid(x) && Kept(items + [x], r);
    assert Firm(items + [x], |items|);
  }

  /** A longer text goes beyond a shorter one, and any text beyond none. */
  lemma TextDiffers(items: seq<Item>, text: string, a: string, r: seq<Item>)
    requires Kept(AddTextItem(items, text), r) && |a| < |text|
    ensures r != UpTo(items, a)
  {
    var n, p := |items|, AddTextItem(items, text);
    if n >= 2 && CommentItem(items[n - 1]) && items[n - 2].Text? {
      assert Firm(p, n - 2);
    } else {
      assert Firm(p, n);
    }
  }

  lemma ClearDiffers(items: seq<Item>, x: Item, r: seq<Item>)
    requires x.Clear? && Kept(items + [x], r) && !(CommentItem(x) && items != [] && items[|items| - 1].Text?)
    ensures r != items
  {
    assert Firm(items + [x], |items|);
  }

  lemma TwoDiffer(items: seq<Item>, x: Item, y: Item, r: seq<Item>)
    requires x.Clear? && y.Clear? && Kept(items + [x] + [y], r)
    ensures r != items
  {
    assert Firm(items + [x] + [y], |items| + 1);
  }

  lemma ClearTextDiffers(items: seq<Item>, x: Item, text: string, r: seq<Item>)
    requires x.Clear? && Kept(AddTextItem(items + [x], text), r) && text != ""
    ensures r != items
  {
    var n, p := |items|, AddTextItem(items + [x], text);
    if CommentItem(x) && n > 0 && items[n - 1].Text? {
      assert Firm(p, n - 1);
    } else {
      assert Firm(p, n + 1);
    }
  }

  lemma ClearAddsDiffers(items: seq<Item>, x: Item, r: seq<Item>)
    requires Adds(items + [x], r)
    ensures r != items
  {
    var y :| Solid(y) && Kept(items + [x] + [y], r);
    assert Firm(items + [x] + [y], |items| + 1);
  }

  /** A text, and whatever is behind it. */
  lemma RunKept(e: Encoding, s: string, parts: seq<Part>, m: nat, st: State, node: Elem, depth: nat, z: nat)
    requires m < |parts| && parts[m].Run? && FairParts(e, parts)
    requires Stands(e, s, parts, m, st, node.items, EndOfText, z)
    ensures Kept(AddTextItem(EraseTo(parts, m), parts[m].text), ParseContent(e, s, st, node, depth).node.items)
    ensures parts[m].text != ""
  {
    FairAt(e, parts, m);
    assert m + 1 < |parts| ==> !parts[m + 1].Run?;
    hide ParseContent, FairParts, EraseTo, Has, Blank, Ready, WriteParts, WritePart, Separated, Kept, AddTextItem,
         Stands;
    var next := st.idx + |WritePart(e, parts[m])|;
    RunCase(e, s, parts, m, st, node, depth, EndOfText, z, next);
    StandsKept(e, s, parts, m + 1, st.(idx := next), node, depth, z);
    EraseNext(parts, m);
  }

  /** What is read from part `m` on goes beyond what stands in front of it. */
  lemma HereBeyond(e: Encoding, s: string, parts: seq<Part>, m: nat, a: string, st: State, node: Elem, depth: nat,
                   z: nat)
    requires Beyond(parts, m, a) && FairParts(e, parts) && Stands(e, s, parts, m, st, node.items, EndOfText, z)
    ensures ParseContent(e, s, st, node, depth).node.items != UpTo(EraseTo(parts, m), a)
  {
    hide ParseContent, FairParts, EraseTo, Stands, Kept, AddTextItem, Adds;
    StandsIn(e, s, parts, m, st, node.items, z);
    var items, r := EraseTo(parts, m), ParseContent(e, s, st, node, depth).node.items;
    if parts[m].Run? {
      RunKept(e, s, parts, m, st, node, depth, z);
      TextDiffers(items, parts[m].text, a, r);
    } else if parts[m].Sub? {
      SubAdds(e, s, parts, m, st, node, depth, EndOfText, z);
      AddsDiffers(items, r);
    } else {
      ClearBeyond(e, s, parts, m, st, node, depth, z);
    }
  }

  lemma ClearBeyond(e: Encoding, s: string, parts: seq<Part>, m: nat, st: State, node: Elem, depth: nat, z: nat)
    requires m < |parts| && parts[m].Raw? && FairParts(e, parts)
    requires Stands(e, s, parts, m, st, node.items, EndOfText, z)
    ensures ParseContent(e, s, st, node, depth).node.items != EraseTo(parts, m)
  {
    hide ParseContent, FairParts, EraseTo, Has, Blank, Ready, WriteParts, WritePart, Separated, GoodClear, Kept,
         AddTextItem, Adds, Stands;
    FairAt(e, parts, m);
    var next, items := st.idx + |WritePart(e, parts[m])|, EraseTo(parts, m);
    var st1, node1 := InBody(st, next), node.(items := EraseTo(parts, m + 1));
    var x := ErasePart(parts[m]);
    RawCase(e, s, parts, m, st, node, depth, EndOfText, z, next);
    EraseNext(parts, m);
    StandsIn(e, s, parts, m + 1, st1, node1.items, z);
    var r := ParseContent(e, s, st1, node1, depth).node.items;
    if m + 1 == |parts| {
      NothingLeft(e, parts);
      FairSeparated(e, parts);
      StandsOver(e, s, parts, st1, node1.items, z);
      EndOfTextReads(e, s, parts, st1, node1, depth);
    } else if parts[m + 1].Run? {
      RunKept(e, s, parts, m + 1, st1, node1, depth, z);
      ClearTextDiffers(items, x, parts[m + 1].text, r);
    } else if parts[m + 1].Sub? {
      SubAdds(e, s, parts, m + 1, st1, node1, depth, EndOfText, z);
      ClearAddsDiffers(items, x, r);
    } else {
      FairAt(e, parts, m + 1);
      var next2 := next + |WritePart(e, parts[m + 1])|;
      var st2, node2 := InBody(st1, next2), node.(items := EraseTo(parts, m + 2));
      RawCase(e, s, parts, m + 1, st1, node1, depth, EndOfText, z, next2);
      EraseNext(parts, m + 1);
      StandsIn(e, s, parts, m + 2, st2, node2.items, z);
      ContentKeeps(e, s, st2, node2, depth);
      TwoDiffer(items, x, ErasePart(parts[m + 1]), r);
    }
  }

  lemma StandsIn(e: Encoding, s: string, parts: seq<Part>, k: nat, st: State, items: seq<Item>, z: nat)
    requires k <= |parts| && Stands(e, s, parts, k, st, items, EndOfText, z)
    ensures InText(s, st)
  {
  }

  lemma StandsOver(e: Encoding, s: string, parts: seq<Part>, st: State, items: seq<Item>, z: nat)
    requires Stands(e, s, parts, |parts|, st, items, EndOfText, z)
    ensures Ready(e, s, parts, |parts|, st.idx, st, items) && Blank(s, st.idx, |s|)
  {
    hide Ready, Blank, Has;
    NothingLeft(e, parts);
  }

  lemma MissingUpTo(parts: seq<Part>, k: nat, m: nat, a: string, items: seq<Item>)
    requires k < m <= |parts| && parts[k].Sub? && Missing(parts, k, items)
    ensures items != UpTo(EraseTo(parts, m), a)
  {
    hide EraseTo, Erase;
    ErasePlaces(parts, k, m);
    JoinKeeps(EraseTo(parts, m), Text(a));
    assert Firm(EraseTo(parts, m), |EraseTo(parts, k)|);
  }

  /** From any part up to part `m` on: the parser reads something else than what stands in front of part `m`. */
  lemma {:induction false} PartsBeyond(e: Encoding, s: string, parts: seq<Part>, k: nat, m: nat, a: string, st: State,
                                       node: Elem, depth: nat, z: nat)
    requires k <= m && Beyond(parts, m, a) && FairParts(e, parts) && depth > 0
    requires Stands(e, s, parts, k, st, node.items, EndOfText, z)
    ensures ParseContent(e, s, st, node, depth).node.items != UpTo(EraseTo(parts, m), a)
    decreases 0, parts, |parts| - k, 1
  {
    hide ParseContent, FairParts, EraseTo, Has, Blank, Ready, WriteParts, WritePart, StopsAt, GoodText, GoodClear,
         Sound, Separated, Open, UpTo, Fair;
    if k == m {
      HereBeyond(e, s, parts, m, a, st, node, depth, z);
    } else {
      var next := st.idx + |WritePart(e, parts[k])|;
      FairAt(e, parts, k);
      NeverOpen(e, parts[k], depth + 1);
      if FaultyPart(parts, k, depth + 1) {
        ChildMisread(e, s, parts, k, st, node, depth, EndOfText, z);
        MissingUpTo(parts, k, m, a, ParseContent(e, s, st, node, depth).node.items);
      } else if parts[k].Run? {
        RunCase(e, s, parts, k, st, node, depth, EndOfText, z, next);
        PartsBeyond(e, s, parts, k + 1, m, a, st.(idx := next), node, depth, z);
      } else if parts[k].Raw? {
        RawCase(e, s, parts, k, st, node, depth, EndOfText, z, next);
        PartsBeyond(e, s, parts, k + 1, m, a, InBody(st, next), node.(items := EraseTo(parts, k + 1)), depth, z);
      } else {
        FairGood(e, parts[k].doc, depth + 1);
        var c := ClosedReads(e, s, parts, k, st, node, depth, EndOfText, z);
        ClosedCase(e, s, parts, k, st, node, depth, EndOfText, z, next, c);
        PartsBeyond(e, s, parts, k + 1, m, a, c.st, node.(items := EraseTo(parts, k + 1)), depth, z);
      }
    }
  }

  // ---------------------------------------------------------------- whole documents

  /** A document with a faulty part is read as something else. */
  lemma PartsDiffer(e: Encoding, parts: seq<Part>, tail: string)
    requires FairParts(e, parts) && AllSpace(tail) && Faulty(parts, 0, 1)
    ensures ParseRoot(e, WriteParts(e, parts, 0) + tail).node.items != EraseTo(parts, |parts|)
  {
    hide FairParts, Faulty, WriteParts, ParseContent, EraseTo, Stands, Has, Blank;
    var text := WriteParts(e, parts, 0);
    var s := text + tail;
    HasWhole(s);
    HasAppend(s, 0, text, tail);
    BlankGap(s, |text|, tail);
    BodyStands(e, s, parts, START, 0, EndOfText, |s|);
    PartsMisread(e, s, parts, 0, START, Root(), 0, EndOfText, |s|);
  }

  /** A document with one element at its top, somewhere in which is one that is not sound: `parseString` does not
      give the element back. */
  lemma DocumentMisread(e: Encoding, d: Doc, gap: string, tail: string)
    requires Fair(e, d) && !Sound(d, 1) && AllSpace(gap) && AllSpace(tail)
    ensures ParseString(e, gap + Write(e, d) + tail, "").0 != Some(Erase(d))
  {
    hide Fair, Sound, Write, OmitsDoc, SameName, Named, Erase, AllSpace, ParseContent;
    var parts := [Sub(gap, d)];
    assert WriteParts(e, parts, 0) == gap + Write(e, d) by {
      assert WriteParts(e, parts, 1) == "";
      assert WritePart(e, parts[0]) + "" == gap + Write(e, d);
    }
    assert !SoundParts(parts, 0, 1);
    PartsDiffer(e, parts, tail);
    OneErased(d, gap);
    ContentNamed(e, gap + Write(e, d) + tail, START, Root(), 0);
  }
}
