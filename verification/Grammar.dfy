/** What the recursive-descent parser of the XML library computes, as functions on the text.

    The functions follow the routine: one level of the recursion reads the start tag of an element and then its content
    up to the end tag, and calls the next level for each child.  What the levels tell each other is passed on as a
    `State`.  Each call moves the position of the tokenizer forward, so the recursion ends on every text.

    A level that comes to an end tag with another name than its own leaves it in the state, and the levels around it
    end one by one until one has that name.  This is how the parser recovers from end tags that are left out. */
module Grammar {
  import opened Wrappers
  import opened CStrings
  import opened Escape
  import opened Lexer
  import opened Nodes

  /** The state the levels of the recursion share: the position of the tokenizer, the start of the text run that
      is still to be added, the error, and the end tag that no level has claimed yet (`cbEnd` is its length). */
  datatype State = State(idx: nat, text: Option<nat>, error: XMLError, missing: nat, endTag: nat, cbEnd: nat)

  const START := State(0, Some(0), ErrorNone, 0, 0, 0)

  /** The result of a level: `ok` is false when there is nothing left to do for the caller either. */
  datatype Parsed = Parsed(st: State, node: Elem, ok: bool)

  predicate InText(s: string, st: State) {
    st.idx <= |s| && (st.text.Some? ==> st.text.value <= st.idx)
  }

  function ErrorOf(d: DecodeError): XMLError {
    match d case UnknownEntity => ErrorUnknownCharacterEntity case CodeAbove255 => ErrorCharacterCodeAbove255
  }

  // ---------------------------------------------------------------- text runs

  /** The start of the text run from `i` to `pos` without its leading white space. */
  function TrimStart(s: string, i: nat, pos: nat): (r: nat)
    requires i <= pos <= |s|
    ensures i <= r <= pos && (r < pos ==> !IsSpace(s[r])) && forall k :: i <= k < r ==> IsSpace(s[k])
    decreases pos - i
  {
    if i < pos && IsSpace(s[i]) then TrimStart(s, i + 1, pos) else i
  }

  /** The end of the text run from `i` to `pos` without its trailing white space; the first byte always stays. */
  function TrimEnd(s: string, i: nat, pos: nat): (r: nat)
    requires i < pos <= |s|
    ensures i < r <= pos && (i + 1 < r ==> !IsSpace(s[r - 1])) && forall k :: r <= k < pos ==> IsSpace(s[k])
  {
    if i + 1 < pos && IsSpace(s[pos - 1]) then TrimEnd(s, i, pos - 1) else pos
  }

  /** A new text after the items so far: a comment between two texts goes away and the texts become one. */
  function AddTextItem(items: seq<Item>, t: string): (r: seq<Item>) {
    var n := |items|;
    if n >= 2 && items[n - 1].Clear? && items[n - 1].clear.tag == Comment && items[n - 2].Text?
    then items[..n - 2] + [Text(items[n - 2].text + t)]
    else items + [Text(t)]
  }

  datatype Flushed = Flushed(st: State, items: seq<Item>, failed: bool)

  /** `maybeAddTxT`: the pending text run, up to `pos`, becomes a text of the node. */
  function Flush(e: Encoding, s: string, st: State, items: seq<Item>, pos: nat): (r: Flushed)
    requires pos <= |s| && (st.text.Some? ==> st.text.value <= pos)
    ensures r.st.idx == st.idx && (InText(s, st) ==> InText(s, r.st))
  {
    if st.text.None? then Flushed(st, items, false)
    else
      var from := TrimStart(s, st.text.value, pos);
      if from == pos then Flushed(st.(text := None), items, false)
      else
        var d := Decode(e, s, from, TrimEnd(s, from, pos) - from);
        if d.Err? then Flushed(st.(error := ErrorOf(d.error)), items, true)
        else Flushed(st.(text := None), AddTextItem(items, CString(d.text)), false)
  }

  // ---------------------------------------------------------------- clear tags

  /** Where the end of a `<!DOCTYPE` is, and whether it is `]>`: a `<` before the first `>` decides that. */
  function DocTypeEnd(e: Encoding, s: string, i: nat, from: nat): (r: Option<(nat, bool)>)
    requires from <= i <= |s|
    ensures r.Some? ==> from <= r.value.0 && r.value.0 + (if r.value.1 then 2 else 1) <= |s|
    decreases |s| - i
  {
    if At(s, i) == '\0' then None
    else if s[i] == '<' then
      var end := Find(s, from, "]>");
      if end.None? then None else Some((end.value, true))
    else if s[i] == '>' then Some((i, false))
    else DocTypeEnd(e, s, Advance(e, s, i), from)
  }

  /** Where the clear tag ends whose text begins at `i`, and whether the end is `]>`. */
  function ClearEnd(e: Encoding, s: string, i: nat, k: ClearKind): (r: Option<(nat, bool)>)
    requires i <= |s|
    ensures r.Some? ==> i <= r.value.0 && r.value.0 + |ClearClose(k, r.value.1)| <= |s|
  {
    if k == DocType then DocTypeEnd(e, s, i, i)
    else
      var end := Find(s, i, CloseTag(k));
      if end.None? then None else Some((end.value, false))
  }

  /** The closing string of a clear tag. */
  function ClearClose(k: ClearKind, bracket: bool): (r: string)
    ensures 1 <= |r| <= 6
  {
    if k == DocType && bracket then "]>" else CloseTag(k)
  }

  // ---------------------------------------------------------------- inside a tag

  /** Which part of an attribute comes next; the name read before stands at `start`. */
  datatype Want = WantName | WantEquals(start: nat, len: nat) | WantValue(start: nat, len: nat)

  datatype TagEnd = Opened | Closed | Failed

  datatype Tag = Tag(st: State, node: Elem, end: TagEnd)

  predicate WantOk(s: string, w: Want) {
    w.WantName? || (0 < w.len && w.start + w.len <= |s|)
  }

  /** The end of the text inside element `node`. */
  function AtEnd(e: Encoding, s: string, st: State, node: Elem, depth: nat): (r: Parsed)
    requires InText(s, st)
    ensures InText(s, r.st) && r.st.idx == st.idx && !r.ok
  {
    var st1 := if !node.isDeclaration && depth > 0 then st.(error := ErrorMissingEndTag, missing := st.idx) else st;
    var f := Flush(e, s, st1, node.items, st.idx);
    Parsed(f.st, node.(items := f.items), false)
  }

  function WithAttribute(node: Elem, name: string, value: Option<string>): Elem {
    node.(attributes := node.attributes + [Attribute(name, value)])
  }

  /** An attribute without a value, ended by `>` or `/>`: a declaration gives up the `?` at its end, and below the
      second level it ends there. */
  function LastName(s: string, st: State, node: Elem, depth: nat, start: nat, len: nat, short: bool): (r: Tag)
    requires 0 < len && start + len <= |s|
    ensures r.st == st && r.end != Failed
  {
    var mark := node.isDeclaration && s[start + len - 1] == '?';
    var n := if mark then len - 1 else len;
    var node1 := if n > 0 then WithAttribute(node, s[start..start + n], None) else node;
    Tag(st, node1, if short || (mark && depth >= 2) then Closed else Opened)
  }

  /** The value of an attribute: `Err` if it cannot be decoded. */
  function ValueOf(e: Encoding, s: string, node: Elem, t: Token): (r: Decoded)
    requires t.start + t.len <= |s| && t.kind in {TokenText, TokenQuotedText} && t.start < |s|
  {
    var n := if node.isDeclaration && t.len > 0 && s[t.start + t.len - 1] == '?' then t.len - 1 else t.len;
    if t.kind == TokenQuotedText then Decode(e, s, t.start + 1, n - 2) else Decode(e, s, t.start, n)
  }

  /** The rest of a start tag. */
  function ParseTag(e: Encoding, s: string, st: State, node: Elem, depth: nat, want: Want): (r: Tag)
    requires InText(s, st) && WantOk(s, want)
    ensures InText(s, r.st) && st.idx <= r.st.idx
    ensures r.node.name == node.name && (r.node.items == node.items || r.end == Failed)
    decreases |s| - st.idx
  {
    var t := NextToken(e, s, st.idx);
    var st1 := st.(idx := t.next);
    if t.kind == TokenError then
      var end := AtEnd(e, s, st1, node, depth);
      Tag(end.st, end.node, Failed)
    else match want
      case WantName =>
        if t.kind == TokenText then ParseTag(e, s, st1, node, depth, WantEquals(t.start, t.len))
        else if t.kind == TokenCloseTag then Tag(st1.(text := Some(t.next)), node, Opened)
        else if t.kind == TokenShortHandClose then Tag(st1.(text := Some(t.next)), node, Closed)
        else Tag(st1.(error := ErrorUnexpectedToken), node, Failed)
      case WantEquals(start, len) =>
        if t.kind == TokenText then
          ParseTag(e, s, st1, WithAttribute(node, s[start..start + len], None), depth, WantEquals(t.start, t.len))
        else if t.kind == TokenCloseTag || t.kind == TokenShortHandClose then
          LastName(s, st1.(text := Some(t.next)), node, depth, start, len, t.kind == TokenShortHandClose)
        else if t.kind == TokenEquals then ParseTag(e, s, st1, node, depth, WantValue(start, len))
        else Tag(st1.(error := ErrorUnexpectedToken), node, Failed)
      case WantValue(start, len) =>
        if t.kind == TokenText || t.kind == TokenQuotedText then
          var v := ValueOf(e, s, node, t);
          if v.Err? then Tag(st1.(error := ErrorOf(v.error)), node, Failed)
          else ParseTag(e, s, st1, WithAttribute(node, s[start..start + len], Some(CString(v.text))), depth, WantName)
        else Tag(st1.(error := ErrorUnexpectedToken), node, Failed)
  }

  // ---------------------------------------------------------------- between the tags

  /** `myTagCompare(name, s + i) == 0`. */
  predicate TagMatches(name: Option<string>, s: string, i: nat) {
    name.Some? && PrefixNoCase(s, i, name.value)
    && var c := At(s, i + |name.value|); IsSpace(c) || c == '/' || c == '<' || c == '>' || c == '='
  }

  /** An element behind its name: the rest of its start tag, then its content. */
  function ParseElement(e: Encoding, s: string, st: State, node: Elem, depth: nat): (r: Parsed)
    requires InText(s, st)
    ensures InText(s, r.st) && st.idx <= r.st.idx
    decreases |s| - st.idx, 2
  {
    AfterTag(e, s, ParseTag(e, s, st, node, depth, WantName), depth)
  }

  function AfterTag(e: Encoding, s: string, t: Tag, depth: nat): (r: Parsed)
    requires InText(s, t.st)
    ensures InText(s, r.st) && t.st.idx <= r.st.idx
    decreases |s| - t.st.idx, 1
  {
    if t.end == Opened then ParseContent(e, s, t.st, t.node, depth)
    else Parsed(t.st, t.node, t.end == Closed)
  }

  /** The content of an element up to the end tag that ends it. */
  function ParseContent(e: Encoding, s: string, st: State, node: Elem, depth: nat): (r: Parsed)
    requires InText(s, st)
    ensures InText(s, r.st) && st.idx <= r.st.idx
    decreases |s| - st.idx, 0
  {
    var t := NextToken(e, s, st.idx);
    var st1 := st.(idx := t.next);
    match t.kind
    case TokenError => AtEnd(e, s, st1, node, depth)
    case TokenTagStart => ParseChild(e, s, st1, node, depth, t)
    case TokenDeclaration => ParseChild(e, s, st1, node, depth, t)
    case TokenTagEnd => ParseEndTag(e, s, st1, node, t)
    case TokenClear(k) => 
      var f := Flush(e, s, st1, node.items, t.start);
      if f.failed then Parsed(f.st, node.(items := f.items), false)
      else
        var end := ClearEnd(e, s, t.next, k);
        if end.None? then Parsed(f.st.(error := ErrorUnmatchedEndClearTag), node.(items := f.items), false)
        else
          var next := end.value.0 + |ClearClose(k, end.value.1)|;
          ParseContent(e, s, f.st.(idx := next, text := Some(next)),
                       node.(items := AddClearItem(f.items, k, s[t.next..end.value.0], end.value.1)), depth)
    case _ => ParseContent(e, s, st1, node, depth)
  }

  /** An empty clear tag leaves no trace. */
  function AddClearItem(items: seq<Item>, k: ClearKind, text: string, bracket: bool): seq<Item> {
    if text == "" then items else items + [Clear(ClearText(k, text, bracket))]
  }

  /** Behind `<` or `<?`: a new child, and then the rest of the content unless the child says otherwise. */
  function ParseChild(e: Encoding, s: string, st: State, node: Elem, depth: nat, t: Token): (r: Parsed)
    requires InText(s, st) && t.start < st.idx && (st.text.Some? ==> st.text.value <= t.start)
    ensures InText(s, r.st) && st.idx <= r.st.idx
    decreases |s| - st.idx, 3
  {
    var f := Flush(e, s, st, node.items, t.start);
    if f.failed then Parsed(f.st, node.(items := f.items), false)
    else
      var n := NextToken(e, s, st.idx);
      if n.kind != TokenText then
        Parsed(f.st.(idx := n.next, error := ErrorMissingTagName), node.(items := f.items), false)
      else
        var child := Elem(Some(s[n.start..n.start + n.len]), t.kind == TokenDeclaration, [], []);
        var c := ParseElement(e, s, f.st.(idx := n.next), child, depth + 1);
        AfterChild(e, s, c, node.(items := f.items + [Child(c.node)]), depth)
  }

  /** Behind a child that has just been parsed and added. */
  function AfterChild(e: Encoding, s: string, c: Parsed, node: Elem, depth: nat): (r: Parsed)
    requires InText(s, c.st)
    ensures InText(s, r.st) && c.st.idx <= r.st.idx
    decreases |s| - c.st.idx, 1
  {
    if !c.ok then Parsed(c.st, node, false)
    else if c.st.cbEnd != 0 then
      if node.name.None? then Parsed(c.st.(error := ErrorUnmatchedEndTag), node, false)
      else if TagMatches(node.name, s, c.st.endTag) then Parsed(c.st.(cbEnd := 0), node, true)
      else Parsed(c.st, node, true)
    else ParseContent(e, s, c.st, node, depth)
  }

  /** Behind `</`: the end tag ends this element; if it has another name, the callers will look for its owner. */
  function ParseEndTag(e: Encoding, s: string, st: State, node: Elem, t: Token): (r: Parsed)
    requires InText(s, st) && t.start <= st.idx && (st.text.Some? ==> st.text.value <= t.start)
    ensures InText(s, r.st) && st.idx <= r.st.idx
  {
    var f := Flush(e, s, st, node.items, t.start);
    var node1 := node.(items := f.items);
    if f.failed then Parsed(f.st, node1, false)
    else
      var n := NextToken(e, s, st.idx);
      if n.kind != TokenText then Parsed(f.st.(idx := n.next, error := ErrorMissingEndTagName), node1, false)
      else
        var c := NextToken(e, s, n.next);
        if c.kind != TokenCloseTag then Parsed(f.st.(idx := c.next, error := ErrorMissingEndTagName), node1, false)
        else
          var st1 := f.st.(idx := c.next, text := Some(c.next));
          if TagMatches(node.name, s, n.start) then Parsed(st1, node1, true)
          else Parsed(st1.(error := ErrorMissingEndTag, missing := c.next, endTag := n.start, cbEnd := n.len), node1,
                      true)
  }

  // ---------------------------------------------------------------- documents

  function Root(): Elem {
    Elem(None, false, [], [])
  }

  /** The head of the document that is parsed from `s`. */
  function ParseRoot(e: Encoding, s: string): Parsed {
    ParseContent(e, s, START, Root(), 0)
  }

  /** The node that `parseString` looks at: the only child of the head, or the head. */
  function Top(root: Elem): Elem {
    if |root.items| == 1 && root.items[0].Child? then root.items[0].elem else root
  }

  /** `parseString(s, tag)`: the node, if any, and the error. */
  function ParseString(e: Encoding, s: string, tag: string): (Option<Elem>, XMLError) {
    var r := ParseRoot(e, s);
    var error := if Elems(r.node.items) == [] then ErrorNoXMLTagFound else r.st.error;
    if error !in {ErrorNone, ErrorMissingEndTag, ErrorNoXMLTagFound} then (None, error)
    else
      var top := Top(r.node);
      if tag == "" || HasName(top, tag) then (Some(top), error)
      else
        var found := Named(Elems(top.items), tag);
        if found == [] then (None, ErrorFirstTagNotFound) else (Some(found[0]), error)
  }
}
