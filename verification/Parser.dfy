/** The parser as it runs: one routine that calls itself for every child, moving the position of the tokenizer and
    filling the arrays of the node at hand.  It computes what the functions of `Grammar` say. */
module Parser {
  import opened Wrappers
  import opened CStrings
  import opened Escape
  import opened Lexer
  import opened Order
  import opened Nodes
  import opened Grammar

  ghost function StateOf(xml: Xml): State
    reads xml
  {
    State(xml.index, xml.textStart, xml.error, xml.missingEndTag, xml.endTag, xml.endTagLength)
  }

  // ---------------------------------------------------------------- text runs

  /** The order index of a list that ends with a text and a clear tag. */
  lemma LastTwo(c: seq<Item>)
    requires |c| >= 2
    ensures var o, n := Canon(Kinds(c)), |c| - 1;
            && |Elems(c)| + |Texts(c)| + |Clears(c)| == |c|
            && (o[n] % 4 == 3 <==> c[n].Clear?) && (o[n - 1] % 4 == 2 <==> c[n - 1].Text?)
            && (c[n].Clear? ==>
                  |Clears(c)| > 0 && o[n] / 4 == |Clears(c)| - 1 && Clears(c)[|Clears(c)| - 1] == c[n].clear)
            && (c[n - 1].Text? ==> |Texts(c)| > 0)
  {
    hide Select, Order.Count, Kinds, Elems, Texts, Clears, Order.Canon;
    ArraySum(c);
    LastClear(c);
    TextBefore(c, |c| - 2);
  }

  lemma ArraySum(c: seq<Item>)
    ensures |Elems(c)| + |Texts(c)| + |Clears(c)| == |c|
  {
    hide Select, Order.Count, Kinds, Elems, Texts, Clears;
    ArrayLengths(c);
    SelectLength(c, KindChild);
    SelectLength(c, KindText);
    SelectLength(c, KindClear);
    CountAll(Kinds(c));
  }

  lemma LastClear(c: seq<Item>)
    requires c != []
    ensures var e, n := Order.Canon(Kinds(c))[|c| - 1], |Clears(c)|;
            && (e % 4 == 3 <==> c[|c| - 1].Clear?)
            && (c[|c| - 1].Clear? ==> n > 0 && e / 4 == n - 1 && Clears(c)[n - 1] == c[|c| - 1].clear)
  {
    LastEntry(c);
    hide Select, Order.Count, Order.Canon;
  }

  lemma TextBefore(c: seq<Item>, p: nat)
    requires p < |c|
    ensures Order.Canon(Kinds(c))[p] % 4 == 2 <==> c[p].Text?
    ensures c[p].Text? ==> |Texts(c)| > 0
  {
    SelectAt(c, p);
    hide Select, Order.Count;
  }

  lemma {:induction false} CountAll(ks: seq<Kind>)
    ensures Order.Count(ks, KindChild) + Order.Count(ks, KindText) + Order.Count(ks, KindClear) == |ks|
  {
    if ks != [] {
      CountAll(ks[..|ks| - 1]);
    }
  }

  /** The last clear tag of its array stands at the end of the list. */
  lemma RemovedLast(before: seq<Item>, after: seq<Item>, p: nat)
    requires before != [] && before[|before| - 1].Clear?
    requires Removed(before, after, p, |Clears(before)| - 1, KindClear)
    ensures after == before[..|before| - 1]
  {
    var n := |before| - 1;
    LastEntry(before);
    assert Kinds(before)[n] == KindClear && Kinds(before)[p] == KindClear;
    assert Canon(Kinds(before))[p] == Canon(Kinds(before))[n];
    EntryUnique(Kinds(before), p, n);
  }

  /** The end of `maybeAddTxT`: the decoded text is added, or appended to the text in front of a comment. */
  method AddDecoded(d: XMLNode, decoded: string)
    requires d.Valid()
    modifies d`order, d`texts, d`clears, d`contents
    ensures d.Valid() && d.contents == AddTextItem(old(d.contents), decoded)
  {
    hide Select, Order.Count;
    d.Lengths();
    if |d.texts| > 0 && |d.clears| > 0 {
      var n := |d.children| + |d.texts| + |d.clears| - 1;
      assert n == |d.contents| - 1 by {
        CountAll(Kinds(d.contents));
      }
      assert n > 0 by {
        CountAll(Kinds(d.contents));
      }
      LastTwo(d.contents);
      if d.order[n] % 4 == 3 && d.order[n - 1] % 4 == 2 {
        var i := d.order[n] / 4;
        if d.clears[i].tag == Comment {
          ghost var before := d.contents;
          var p := d.DeleteClear(i);
          RemovedLast(before, d.contents, p);
          d.AppendToLastText(decoded);
          return;
        }
      }
    } else {
      NoElision(d.contents);
    }
    var _ := d.AddText(decoded, -1);
  }

  lemma NoElision(c: seq<Item>)
    requires |Texts(c)| == 0 || |Clears(c)| == 0
    ensures |c| >= 2 ==> !(c[|c| - 1].Clear? && c[|c| - 2].Text?)
  {
    if |c| >= 2 {
      LastTwo(c);
    }
  }

  method MaybeAddTxT(xml: Xml, d: XMLNode, tokenStart: nat) returns (failed: bool)
    requires xml.Valid() && d.Valid() && tokenStart <= |xml.input|
    requires xml.textStart.Some? ==> xml.textStart.value <= tokenStart
    modifies xml`textStart, xml`error, d`order, d`texts, d`clears, d`contents
    ensures d.Valid()
    ensures Flushed(StateOf(xml), d.contents, failed)
         == Flush(xml.enc, xml.input, old(StateOf(xml)), old(d.contents), tokenStart)
  {
    hide Decode, AddTextItem, TrimStart, TrimEnd, Kinds, Canon, Elems, Texts, Clears;
    if xml.textStart.None? {
      return false;
    }
    var textStart, length := Trim(xml.input, xml.textStart.value, tokenStart);
    if length == 0 {
      xml.textStart := None;
      return false;
    }
    var decoded := FromXMLString(xml.enc, xml.input, textStart, length);
    if decoded.Err? {
      xml.error := ErrorOf(decoded.error);
      return true;
    }
    xml.textStart := None;
    AddDecoded(d, CString(decoded.text));
    return false;
  }

  /** The two loops of `maybeAddTxT`: the text run without the white space around it. */
  method Trim(s: string, start: nat, tokenStart: nat) returns (textStart: nat, length: nat)
    requires start <= tokenStart <= |s|
    ensures textStart == TrimStart(s, start, tokenStart)
    ensures length == if textStart == tokenStart then 0 else TrimEnd(s, textStart, tokenStart) - textStart
    ensures length == 0 <==> textStart == tokenStart
  {
    textStart := start;
    while textStart != tokenStart && IsSpace(s[textStart])
      invariant textStart <= tokenStart
      invariant TrimStart(s, start, tokenStart) == TrimStart(s, textStart, tokenStart)
      decreases tokenStart - textStart
    {
      textStart := textStart + 1;
    }
    length := tokenStart - textStart;
    if length == 0 {
      return;
    }
    length := length - 1;
    while length > 0 && IsSpace(s[textStart + length])
      invariant 0 <= length && textStart + length < tokenStart
      invariant TrimEnd(s, textStart, tokenStart) == TrimEnd(s, textStart, textStart + length + 1)
    {
      length := length - 1;
    }
    length := length + 1;
  }

  // ---------------------------------------------------------------- clear tags

  /** The search for the end of a `<!DOCTYPE`. */
  method FindDocTypeEnd(xml: Xml) returns (r: Option<(nat, bool)>)
    requires xml.Valid()
    ensures r == DocTypeEnd(xml.enc, xml.input, xml.index, xml.index)
  {
    var position := xml.index;
    while At(xml.input, position) != '\0'
      invariant xml.index <= position <= |xml.input|
      invariant DocTypeEnd(xml.enc, xml.input, xml.index, xml.index)
                == DocTypeEnd(xml.enc, xml.input, position, xml.index)
      decreases |xml.input| - position
    {
      if xml.input[position] == '<' {
        var end := Find(xml.input, xml.index, "]>");
        return if end.Some? then Some((end.value, true)) else None;
      } else if xml.input[position] == '>' {
        return Some((position, false));
      }
      position := position + CharLen(xml.enc, xml.input[position]);
    }
    return None;
  }

  /** The search for the end of any clear tag. */
  method FindClearEnd(xml: Xml, k: ClearKind) returns (found: Option<(nat, bool)>)
    requires xml.Valid()
    ensures found == ClearEnd(xml.enc, xml.input, xml.index, k)
  {
    hide DocTypeEnd;
    if k == DocType {
      found := FindDocTypeEnd(xml);
    } else {
      var end := Find(xml.input, xml.index, CloseTag(k));
      found := if end.Some? then Some((end.value, false)) else None;
    }
  }

  /** What a clear tag whose text begins at `st.idx` does to the state and the items; `false` if its end is missing. */
  ghost function ClearRead(e: Encoding, s: string, st: State, items: seq<Item>, k: ClearKind)
    : (r: (State, seq<Item>, bool))
    requires st.idx <= |s|
    ensures st.idx <= r.0.idx <= |s|
  {
    var end := ClearEnd(e, s, st.idx, k);
    if end.None? then (st.(error := ErrorUnmatchedEndClearTag), items, false)
    else
      (st.(idx := end.value.0 + |ClearClose(k, end.value.1)|),
       AddClearItem(items, k, s[st.idx..end.value.0], end.value.1), true)
  }

  method ParseClearTag(xml: Xml, d: XMLNode, k: ClearKind) returns (failed: bool)
    requires xml.Valid() && d.Valid()
    modifies xml`index, xml`error, d`order, d`clears, d`contents
    ensures xml.Valid() && d.Valid()
    ensures (StateOf(xml), d.contents, !failed)
         == ClearRead(xml.enc, xml.input, old(StateOf(xml)), old(d.contents), k)
  {
    hide ClearEnd, CloseTag, ClearClose, Canon, Kinds, Elems, Texts, Clears;
    var input := xml.index;
    var found := FindClearEnd(xml, k);
    if found.None? {
      xml.error := ErrorUnmatchedEndClearTag;
      return true;
    }
    var (end, bracket) := found.value;
    xml.index := end + |ClearClose(k, bracket)|;
    AddRaw(d, k, xml.input[input..end], bracket);
    return false;
  }

  /** `addClear_priv` with no text, or with an empty one, adds nothing. */
  method AddRaw(d: XMLNode, k: ClearKind, text: string, bracket: bool)
    requires d.Valid()
    modifies d`order, d`clears, d`contents
    ensures d.Valid() && d.contents == AddClearItem(old(d.contents), k, text, bracket)
  {
    if |text| > 0 {
      var _ := d.AddClear(ClearText(k, text, bracket), -1);
    }
  }

  // ---------------------------------------------------------------- the end of the text

  method EndOfText(xml: Xml, d: XMLNode)
    requires xml.Valid() && d.Valid() && InText(xml.input, StateOf(xml))
    modifies xml`textStart, xml`error, xml`missingEndTag, d`order, d`texts, d`clears, d`contents
    ensures d.Valid()
    ensures Parsed(StateOf(xml), d.Value(), false)
         == AtEnd(xml.enc, xml.input, old(StateOf(xml)), old(d.Value()), d.depth)
  {
    hide Flush;
    if !d.isDeclaration && d.depth > 0 {
      xml.error := ErrorMissingEndTag;
      xml.missingEndTag := xml.index;
    }
    var _ := MaybeAddTxT(xml, d, xml.index);
  }

  // ---------------------------------------------------------------- inside a tag

  /** What one token does: the loop goes on, or the routine returns. */
  datatype Step = More(want: Want) | Return(end: TagEnd)

  /** The step has done its part of `whole`. */
  ghost predicate TagStep(xml: Xml, d: XMLNode, r: Step, whole: Tag)
    reads xml, d
  {
    && xml.Valid() && d.Valid()
    && match r
       case More(w) =>
         InText(xml.input, StateOf(xml)) && WantOk(xml.input, w)
         && ParseTag(xml.enc, xml.input, StateOf(xml), d.Value(), d.depth, w) == whole
       case Return(end) => Tag(StateOf(xml), d.Value(), end) == whole
  }

  /** `>` or `/>` behind an attribute without a value. */
  method EndWithName(xml: Xml, d: XMLNode, nameStart: nat, nameLength: nat, short: bool) returns (r: Step)
    requires xml.Valid() && d.Valid() && 0 < nameLength && nameStart + nameLength <= |xml.input|
    modifies d`attributes
    ensures d.Valid() && r.Return?
    ensures Tag(StateOf(xml), d.Value(), r.end)
         == LastName(xml.input, StateOf(xml), old(d.Value()), d.depth, nameStart, nameLength, short)
  {
    var length, end := nameLength, if short then Closed else Opened;
    if d.isDeclaration && xml.input[nameStart + length - 1] == '?' {
      length := length - 1;
      if d.depth >= 2 {
        end := Closed;
      }
    }
    if length > 0 {
      d.AddAttribute(xml.input[nameStart..nameStart + length], None);
    }
    return Return(end);
  }

  method ReadValue(xml: Xml, d: XMLNode, token: Token) returns (value: Decoded)
    requires xml.Valid() && token.kind in {TokenText, TokenQuotedText}
    requires token.start + token.len <= |xml.input| && token.start < |xml.input|
    ensures value == ValueOf(xml.enc, xml.input, d.Value(), token)
  {
    hide Decode, Canon, Kinds, Elems, Texts, Clears;
    var start, length: int := token.start, token.len;
    if d.isDeclaration && length > 0 && xml.input[start + length - 1] == '?' {
      length := length - 1;
    }
    if token.kind == TokenQuotedText {
      start, length := start + 1, length - 2;
    }
    value := FromXMLString(xml.enc, xml.input, start, length);
  }

  /** One token inside a tag, read from position `i`. */
  method InsideTag(xml: Xml, d: XMLNode, want: Want, token: Token, ghost i: nat) returns (r: Step)
    requires xml.Valid() && d.Valid() && WantOk(xml.input, want) && InText(xml.input, StateOf(xml).(idx := i))
    requires i <= |xml.input| && token == NextToken(xml.enc, xml.input, i) && xml.index == token.next
             && !token.kind.TokenError?
    modifies xml`textStart, xml`error, d`attributes
    ensures TagStep(xml, d, r,
                    ParseTag(xml.enc, xml.input, old(StateOf(xml)).(idx := i), old(d.Value()), d.depth, want))
  {
    hide NextToken, ValueOf, LastName, Canon, Kinds, Elems, Texts, Clears;
    if want.WantName? {
      if token.kind == TokenText {
        return More(WantEquals(token.start, token.len));
      } else if token.kind == TokenCloseTag || token.kind == TokenShortHandClose {
        xml.textStart := Some(xml.index);
        return Return(if token.kind == TokenCloseTag then Opened else Closed);
      }
    } else if want.WantEquals? {
      if token.kind == TokenText {
        d.AddAttribute(xml.input[want.start..want.start + want.len], None);
        return More(WantEquals(token.start, token.len));
      } else if token.kind == TokenCloseTag || token.kind == TokenShortHandClose {
        xml.textStart := Some(xml.index);
        r := EndWithName(xml, d, want.start, want.len, token.kind == TokenShortHandClose);
        return;
      } else if token.kind == TokenEquals {
        return More(WantValue(want.start, want.len));
      }
    } else if token.kind == TokenText || token.kind == TokenQuotedText {
      var value := ReadValue(xml, d, token);
      if value.Err? {
        xml.error := ErrorOf(value.error);
        return Return(Failed);
      }
      d.AddAttribute(xml.input[want.start..want.start + want.len], Some(CString(value.text)));
      return More(WantName);
    }
    xml.error := ErrorUnexpectedToken;
    return Return(Failed);
  }

  // ---------------------------------------------------------------- the routine

  /** What is left to do, inside a tag or outside. */
  ghost function Pending(e: Encoding, s: string, st: State, node: Elem, depth: nat, inside: bool, want: Want): Parsed
    requires InText(s, st) && WantOk(s, want)
  {
    if inside then AfterTag(e, s, ParseTag(e, s, st, node, depth, want), depth) else ParseContent(e, s, st, node, depth)
  }

  /** The routine has come this far towards `whole`: it goes on between tags, or it returns `ok`. */
  ghost predicate Reached(xml: Xml, d: XMLNode, more: bool, ok: bool, whole: Parsed)
    reads xml, d
  {
    && xml.Valid() && d.Valid()
    && if more then InText(xml.input, StateOf(xml))
        && ParseContent(xml.enc, xml.input, StateOf(xml), d.Value(), d.depth) == whole
       else Parsed(StateOf(xml), d.Value(), ok) == whole
  }

  /** A clear tag between tags, whose token has been read. */
  method ReadClear(xml: Xml, d: XMLNode, token: Token, ghost i: nat) returns (failed: bool)
    requires xml.Valid() && d.Valid() && i <= |xml.input| && InText(xml.input, StateOf(xml).(idx := i))
    requires token == NextToken(xml.enc, xml.input, i) && xml.index == token.next && token.kind.TokenClear?
    modifies xml`index, xml`textStart, xml`error, d`order, d`texts, d`clears, d`contents
    ensures Reached(xml, d, !failed, false,
                    ParseContent(xml.enc, xml.input, old(StateOf(xml)).(idx := i), old(d.Value()), d.depth))
    ensures xml.index >= old(xml.index)
  {
    hide Flush, ClearRead, ParseContent, NextToken, Kinds, Canon, Elems, Texts, Clears;
    ClearUnfold(xml.enc, xml.input, StateOf(xml).(idx := i), d.Value(), d.depth);
    failed := MaybeAddTxT(xml, d, token.start);
    if !failed {
      failed := ParseClearTag(xml, d, token.kind.clear);
      if !failed {
        xml.textStart := Some(xml.index);
      }
    }
  }

  /** The content parser at a clear tag. */
  lemma ClearUnfold(e: Encoding, s: string, st: State, node: Elem, depth: nat)
    requires InText(s, st) && NextToken(e, s, st.idx).kind.TokenClear?
    ensures var t := NextToken(e, s, st.idx);
            var f := Flush(e, s, st.(idx := t.next), node.items, t.start);
            var (st1, items, found) := ClearRead(e, s, f.st, f.items, t.kind.clear);
            && (f.failed ==> ParseContent(e, s, st, node, depth) == Parsed(f.st, node.(items := f.items), false))
            && (!f.failed && !found ==>
                  ParseContent(e, s, st, node, depth) == Parsed(st1, node.(items := items), false))
            && (!f.failed && found ==>
                  InText(s, st1.(text := Some(st1.idx)))
                  && ParseContent(e, s, st, node, depth)
                     == ParseContent(e, s, st1.(text := Some(st1.idx)), node.(items := items), depth))
  {
    hide Flush, ClearEnd, ClearClose, AddClearItem, NextToken, AtEnd, ParseChild, ParseEndTag;
  }

  /** An end tag whose `</` has been read. */
  method ReadEndTag(xml: Xml, d: XMLNode, token: Token) returns (ok: bool)
    requires xml.Valid() && d.Valid() && InText(xml.input, StateOf(xml)) && token.start <= xml.index
    requires xml.textStart.Some? ==> xml.textStart.value <= token.start
    modifies xml`index, xml`textStart, xml`error, xml`missingEndTag, xml`endTag, xml`endTagLength
    modifies d`order, d`texts, d`clears, d`contents
    ensures xml.Valid() && d.Valid()
    ensures Parsed(StateOf(xml), d.Value(), ok)
         == ParseEndTag(xml.enc, xml.input, old(StateOf(xml)), old(d.Value()), token)
  {
    hide Flush, NextToken, TagMatches;
    var failed := MaybeAddTxT(xml, d, token.start);
    if failed {
      return false;
    }
    var name := xml.GetNextToken();
    if name.kind != TokenText {
      xml.error := ErrorMissingEndTagName;
      return false;
    }
    var close := xml.GetNextToken();
    if close.kind != TokenCloseTag {
      xml.error := ErrorMissingEndTagName;
      return false;
    }
    xml.textStart := Some(xml.index);
    if !TagMatches(d.tagName, xml.input, name.start) {
      xml.error := ErrorMissingEndTag;
      xml.missingEndTag := xml.index;
      xml.endTag := name.start;
      xml.endTagLength := name.len;
    }
    return true;
  }

  /** A child behind its `<` or `<?`.  The child is added empty, it parses itself, and it stays where it was added. */
  method ReadChild(xml: Xml, d: XMLNode, token: Token) returns (more: bool, ok: bool)
    requires xml.Valid() && d.Valid() && InText(xml.input, StateOf(xml)) && token.start < xml.index && !xml.first
    requires xml.textStart.Some? ==> xml.textStart.value <= token.start
    modifies xml, d`order, d`texts, d`clears, d`children, d`contents
    ensures !xml.first && xml.index >= old(xml.index)
    ensures Reached(xml, d, more, ok, ParseChild(xml.enc, xml.input, old(StateOf(xml)), old(d.Value()), d.depth, token))
    decreases |xml.input| - xml.index, 0
  {
    hide Flush, NextToken, AfterChild, ParseElement, ParseContent, Elems, Texts, Clears, Canon, Kinds;
    var failed := MaybeAddTxT(xml, d, token.start);
    if failed {
      return false, false;
    }
    var name := xml.GetNextToken();
    if name.kind != TokenText {
      xml.error := ErrorMissingTagName;
      return false, false;
    }
    var parsed := NewChild(xml, d, xml.input[name.start..name.start + name.len], token.kind == TokenDeclaration);
    more, ok := BehindChild(xml, d, parsed);
  }

  /** A new child that is added empty and then parsed. */
  method NewChild(xml: Xml, d: XMLNode, name: string, isDeclaration: bool) returns (parsed: bool)
    requires xml.Valid() && d.Valid() && InText(xml.input, StateOf(xml)) && !xml.first
    modifies xml, d`order, d`children, d`contents
    ensures xml.Valid() && d.Valid() && !xml.first && xml.index >= old(xml.index)
    ensures var c := ParseElement(xml.enc, xml.input, old(StateOf(xml)), Elem(Some(name), isDeclaration, [], []),
                                  d.depth + 1);
            StateOf(xml) == c.st && parsed == c.ok && d.contents == old(d.contents) + [Child(c.node)]
    decreases |xml.input| - xml.index, 3
  {
    hide ParseElement, ParseContent, Select, Order.Count;
    ghost var items := d.contents;
    var _ := d.AddChild(Elem(Some(name), isDeclaration, [], []), -1);
    var newChild := new XMLNode(Some(name), isDeclaration, d.depth + 1);
    parsed := ParseXMLElement(xml, newChild);
    var elem := newChild.ToElem();
    d.SetLastChild(elem);
    assert d.contents == items + [Child(elem)];
  }

  /** What the caller of a child does when the child returns. */
  method BehindChild(xml: Xml, d: XMLNode, parsed: bool) returns (more: bool, ok: bool)
    requires xml.Valid() && d.Valid() && InText(xml.input, StateOf(xml))
    requires d.contents != [] && d.contents[|d.contents| - 1].Child?
    modifies xml`error, xml`endTagLength
    ensures Reached(xml, d, more, ok, AfterChild(xml.enc, xml.input,
              Parsed(old(StateOf(xml)), d.contents[|d.contents| - 1].elem, parsed), d.Value(), d.depth))
  {
    hide ParseContent, TagMatches;
    if !parsed {
      return false, false;
    }
    if xml.endTagLength != 0 {
      if d.tagName.None? {
        xml.error := ErrorUnmatchedEndTag;
        return false, false;
      }
      if TagMatches(d.tagName, xml.input, xml.endTag) {
        xml.endTagLength := 0;
      }
      return false, true;
    }
    return true, false;
  }

  /** One token between tags, read from position `i`. */
  method OutsideTag(xml: Xml, d: XMLNode, token: Token, ghost i: nat) returns (more: bool, ok: bool)
    requires xml.Valid() && d.Valid() && i <= |xml.input| && InText(xml.input, StateOf(xml).(idx := i)) && !xml.first
    requires token == NextToken(xml.enc, xml.input, i) && xml.index == token.next && !token.kind.TokenError?
    modifies xml, d`order, d`texts, d`clears, d`children, d`contents
    ensures !xml.first && xml.index >= old(xml.index)
    ensures Reached(xml, d, more, ok,
                    ParseContent(xml.enc, xml.input, old(StateOf(xml)).(idx := i), old(d.Value()), d.depth))
    decreases |xml.input| - xml.index, 1
  {
    hide Flush, ClearEnd, ClearClose, AddClearItem, NextToken, AtEnd, ParseChild, ParseEndTag;
    if token.kind == TokenTagStart || token.kind == TokenDeclaration {
      more, ok := ReadChild(xml, d, token);
    } else if token.kind == TokenTagEnd {
      ok := ReadEndTag(xml, d, token);
      more := false;
    } else if token.kind.TokenClear? {
      var failed := ReadClear(xml, d, token, i);
      more, ok := !failed, false;
    } else {
      more, ok := true, false;
    }
  }

  /** `ParseXMLElement`: the head of the document, on the first call, or an element behind its name. */
  method ParseXMLElement(xml: Xml, d: XMLNode) returns (ok: bool)
    requires xml.Valid() && d.Valid() && InText(xml.input, StateOf(xml))
    modifies xml, d
    ensures xml.Valid() && d.Valid() && !xml.first && xml.index >= old(xml.index)
    ensures Parsed(StateOf(xml), d.Value(), ok)
         == if old(xml.first) then ParseContent(xml.enc, xml.input, old(StateOf(xml)), old(d.Value()), d.depth)
            else ParseElement(xml.enc, xml.input, old(StateOf(xml)), old(d.Value()), d.depth)
    decreases |xml.input| - xml.index, 2
  {
    hide ParseContent, ParseTag, NextToken, AtEnd;
    ghost var e, s := xml.enc, xml.input;
    var inside, want := !xml.first, WantName;
    ghost var whole := Pending(e, s, StateOf(xml), d.Value(), d.depth, inside, want);
    xml.first := false;
    while true
      invariant xml.Valid() && d.Valid() && !xml.first && xml.index >= old(xml.index)
      invariant InText(s, StateOf(xml)) && WantOk(s, want)
      invariant Pending(e, s, StateOf(xml), d.Value(), d.depth, inside, want) == whole
      decreases |s| - xml.index
    {
      ghost var i, st, node := xml.index, StateOf(xml), d.Value();
      var token := xml.GetNextToken();
      if token.kind == TokenError {
        AtTheEnd(e, s, st, node, d.depth, inside, want);
        EndOfText(xml, d);
        return false;
      }
      if inside {
        var step := InsideTag(xml, d, want, token, i);
        match step {
          case More(w) => want := w;
          case Return(end) =>
            if end != Opened {
              return end == Closed;
            }
            inside := false;
        }
      } else {
        var more, result := OutsideTag(xml, d, token, i);
        if !more {
          return result;
        }
      }
    }
  }

  /** Where the text is over, inside a tag and outside come to the same. */
  lemma AtTheEnd(e: Encoding, s: string, st: State, node: Elem, depth: nat, inside: bool, want: Want)
    requires InText(s, st) && WantOk(s, want) && NextToken(e, s, st.idx).kind == TokenError
    ensures Pending(e, s, st, node, depth, inside, want)
         == AtEnd(e, s, st.(idx := NextToken(e, s, st.idx).next), node, depth)
  {
    hide NextToken, Flush, ParseChild, ParseEndTag, LastName, ValueOf;
  }

  /** `parseString`: the whole text, and then the node that is asked for. */
  method ParseString(e: Encoding, text: string, tag: string) returns (r: Option<Elem>, error: XMLError)
    requires Safe(e, text)
    ensures (r, error) == Grammar.ParseString(e, text, tag)
  {
    hide ParseContent, Select;
    var head := new XMLNode(None, false, 0);
    var xml := new Xml(e, text);
    var _ := ParseXMLElement(xml, head);
    error := xml.error;
    if |head.children| == 0 {
      error := ErrorNoXMLTagFound;
    }
    head.Lengths();
    var root := head.ToElem();
    var xnode := Top(root);
    if error != ErrorNone && error != ErrorMissingEndTag && error != ErrorNoXMLTagFound {
      return None, error;
    }
    if tag != "" && !HasName(xnode, tag) {
      var found := Named(Elems(xnode.items), tag);
      if found == [] {
        return None, ErrorFirstTagNotFound;
      }
      return Some(found[0]), error;
    }
    return Some(xnode), error;
  }
}
