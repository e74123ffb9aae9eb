/** The parser reads a written start tag back.

    The parser learns what an attribute is only from what comes behind its name: an equals sign announces a value, a
    further word or the end of the tag says that there is none.  So between two attributes it may still be waiting,
    and `Remembers` says what it knows by then.  The `?` that ends a declaration sticks to a last attribute without a
    value, and the parser takes it off again; `NameWord` is the word as the tokenizer reads it.

    `TagReads` is the result.  It goes through the attributes one by one: `ReadWord` and `ReadValue` take one turn of
    the parser each, and `TagCloses` takes the last one. */
module Tags {
  import opened Wrappers
  import opened CStrings
  import opened Escape
  import opened Lexer
  import opened Nodes
  import opened Grammar
  import opened Documents
  import opened Lexemes

  /** What the parser does inside a tag depends on the next token, not on the white space before it. */
  lemma TagSame(e: Encoding, s: string, st: State, i: nat, node: Elem, depth: nat, want: Want)
    requires InText(s, st) && i <= |s| && (st.text.Some? ==> st.text.value <= i) && WantOk(s, want)
    requires NextToken(e, s, st.idx) == NextToken(e, s, i)
    requires NextToken(e, s, i).kind != TokenError
    ensures ParseTag(e, s, st, node, depth, want) == ParseTag(e, s, st.(idx := i), node, depth, want)
  {
    hide TokenAt, ValueOf, LastName;
  }

  /** The node with the attribute that the parser has been waiting to complete. */
  function Waited(s: string, node: Elem, want: Want): Elem
    requires WantOk(s, want)
  {
    if want.WantEquals? then WithAttribute(node, s[want.start..want.start + want.len], None) else node
  }

  /** A turn of the parser inside a tag on a text token that is the name of a new attribute. */
  lemma TurnName(e: Encoding, s: string, st: State, node: Elem, depth: nat, want: Want)
    requires InText(s, st) && WantOk(s, want) && !want.WantValue? && NextToken(e, s, st.idx).kind == TokenText
    ensures var t := NextToken(e, s, st.idx);
            ParseTag(e, s, st, node, depth, want)
            == ParseTag(e, s, st.(idx := t.next), Waited(s, node, want), depth, WantEquals(t.start, t.len))
  {
    hide TokenAt, WithAttribute;
  }

  lemma TurnEquals(e: Encoding, s: string, st: State, node: Elem, depth: nat, want: Want)
    requires InText(s, st) && WantOk(s, want) && want.WantEquals? && NextToken(e, s, st.idx).kind == TokenEquals
    ensures ParseTag(e, s, st, node, depth, want)
         == ParseTag(e, s, st.(idx := NextToken(e, s, st.idx).next), node, depth, WantValue(want.start, want.len))
  {
    hide TokenAt;
  }

  lemma TurnValue(e: Encoding, s: string, st: State, node: Elem, depth: nat, want: Want, v: string)
    requires InText(s, st) && WantOk(s, want) && want.WantValue? && NextToken(e, s, st.idx).kind == TokenQuotedText
    requires ValueOf(e, s, node, NextToken(e, s, st.idx)) == Ok(v) && CString(v) == v
    ensures var name := s[want.start..want.start + want.len];
            ParseTag(e, s, st, node, depth, want)
            == ParseTag(e, s, st.(idx := NextToken(e, s, st.idx).next), WithAttribute(node, name, Some(v)), depth,
                        WantName)
  {
    hide TokenAt, WithAttribute, ValueOf, CString;
  }

  lemma TurnClose(e: Encoding, s: string, st: State, node: Elem, depth: nat, want: Want)
    requires InText(s, st) && WantOk(s, want) && !want.WantValue?
    requires NextToken(e, s, st.idx).kind in {TokenCloseTag, TokenShortHandClose}
    ensures var t := NextToken(e, s, st.idx);
            var st1 := st.(idx := t.next, text := Some(t.next));
            var short := t.kind == TokenShortHandClose;
            ParseTag(e, s, st, node, depth, want)
            == if want.WantName? then Tag(st1, node, if short then Closed else Opened)
               else LastName(s, st1, node, depth, want.start, want.len, short)
  {
    hide TokenAt, LastName;
  }

  /** The word the tokenizer reads for the name of attribute `k`: the `?` of a declaration sticks to a last
      attribute without a value. */
  function NameWord(d: Doc, k: nat): string
    requires k < |d.attributes|
  {
    d.attributes[k].name + if d.isDeclaration && k == |d.attributes| - 1 && d.attributes[k].value.None? then "?" else ""
  }

  /** The rest of the start tag once the first `k` attributes are read. */
  function TagRest(e: Encoding, d: Doc, k: nat): string
    requires k <= |d.attributes|
  {
    if k == |d.attributes| && k > 0 && d.isDeclaration && d.attributes[k - 1].value.None? then ">"
    else WriteAttributes(e, d.attributes, k) + TagClose(d)
  }

  /** What the parser remembers of the first `k` attributes: one without a value waits for what comes next. */
  ghost predicate Remembers(s: string, d: Doc, k: nat, want: Want, node: Elem) {
    k <= |d.attributes| && node.isDeclaration == d.isDeclaration
    && if k > 0 && d.attributes[k - 1].value.None?
       then want.WantEquals? && want.len == |NameWord(d, k - 1)| && Has(s, want.start, NameWord(d, k - 1))
            && node.attributes == d.attributes[..k - 1]
       else want.WantName? && node.attributes == d.attributes[..k]
  }

  ghost predicate GoodTag(e: Encoding, d: Doc) {
    && (forall k :: 0 <= k < |d.attributes| ==> GoodAttribute(e, d.attributes[k]))
    && (d.isDeclaration ==> d.ending == Omitted && d.attributes != [])
  }

  lemma NameWordPlain(e: Encoding, d: Doc, k: nat)
    requires GoodTag(e, d) && k < |d.attributes|
    ensures PlainWord(e, NameWord(d, k))
  {
    assert GoodAttribute(e, d.attributes[k]);
    var n := d.attributes[k].name;
    if NameWord(d, k) == n + "?" {
      SafeAppend(e, n, "?");
    } else {
      assert NameWord(d, k) == n;
    }
  }

  /** The rest of the start tag, cut behind the name of attribute `k`. */
  lemma TagRestSplit(e: Encoding, d: Doc, k: nat)
    requires k < |d.attributes|
    ensures var a := d.attributes[k];
            TagRest(e, d, k) == " " + NameWord(d, k)
              + (if a.value.None? then "" else "=" + ("\"" + Encode(e, a.value.value) + "\"")) + TagRest(e, d, k + 1)
  {
    var a := d.attributes[k];
    hide WriteAttributes, Encode, EncodeFrom, TagRest, NameWord, TagClose, WriteAttribute;
    TagRestUnfold(e, d, k);
    if a.value.Some? {
      ValuedWord(d, k);
      TagRestNext(e, d, k + 1);
      Assoc(WriteAttribute(e, a), WriteAttributes(e, d.attributes, k + 1), TagClose(d));
    } else {
      BareRest(e, d, k);
    }
  }

  lemma TagRestNext(e: Encoding, d: Doc, k: nat)
    requires 0 < k <= |d.attributes| && d.attributes[k - 1].value.Some?
    ensures TagRest(e, d, k) == WriteAttributes(e, d.attributes, k) + TagClose(d)
  {
    hide WriteAttributes, TagClose;
  }

  lemma BareRest(e: Encoding, d: Doc, k: nat)
    requires k < |d.attributes| && d.attributes[k].value.None?
    requires TagRest(e, d, k)
             == WriteAttribute(e, d.attributes[k]) + WriteAttributes(e, d.attributes, k + 1) + TagClose(d)
    requires k + 1 == |d.attributes| ==> WriteAttributes(e, d.attributes, k + 1) == ""
    ensures TagRest(e, d, k) == " " + NameWord(d, k) + "" + TagRest(e, d, k + 1)
  {
    hide WriteAttributes;
    var name, rest := d.attributes[k].name, WriteAttributes(e, d.attributes, k + 1);
    if d.isDeclaration && k + 1 == |d.attributes| {
      assert " " + name + "" + "" + "?>" == " " + (name + "?") + "" + ">";
    } else {
      assert name + "" == name;
      assert " " + name + "" + rest + TagClose(d) == " " + name + "" + (rest + TagClose(d));
    }
  }

  lemma TagRestUnfold(e: Encoding, d: Doc, k: nat)
    requires k < |d.attributes|
    ensures TagRest(e, d, k)
            == WriteAttribute(e, d.attributes[k]) + WriteAttributes(e, d.attributes, k + 1) + TagClose(d)
    ensures k + 1 == |d.attributes| ==> WriteAttributes(e, d.attributes, k + 1) == ""
  {
  }

  /** A name without a value is followed by something that ends a word. */
  lemma TagRestStops(e: Encoding, d: Doc, k: nat, s: string, i: nat)
    requires 0 < k <= |d.attributes| && d.attributes[k - 1].value.None? && Has(s, i, TagRest(e, d, k))
    ensures TextStop(s, i) && At(s, i) != '\0' && At(s, i) != '='
  {
    var rest := TagRest(e, d, k);
    if k < |d.attributes| {
      TagRestSplit(e, d, k);
      HasAt(s, i, rest, 0);
    } else {
      assert rest == if d.isDeclaration then ">" else TagClose(d) by {
        assert WriteAttributes(e, d.attributes, k) == "";
      }
      HasAt(s, i, rest, 0);
      if rest == "/>" {
        HasAt(s, i, rest, 1);
      }
    }
  }

  /** White space that the tokenizer has swallowed makes no difference. */
  lemma TagUnswallow(e: Encoding, s: string, st: State, i: nat, node: Elem, depth: nat, want: Want)
    requires InText(s, st) && Blank(s, st.idx, i) && WantOk(s, want)
    ensures ParseTag(e, s, st, node, depth, want) == ParseTag(e, s, st.(idx := i), node, depth, want)
  {
    SkipBlank(e, s, st.idx, i);
    if NextToken(e, s, i).kind != TokenError {
      TagSame(e, s, st, i, node, depth, want);
    } else {
      hide ValueOf, LastName, AtEnd, TokenAt;
    }
  }

  /** A word is the name of a new attribute; the one the parser has been waiting for has no value. */
  lemma ReadWord(e: Encoding, s: string, i: nat, word: string, want: Want, st: State, node: Elem, depth: nat)
    requires InText(s, st) && st.idx == i && WantOk(s, want) && !want.WantValue?
    requires Has(s, i, " " + word) && PlainWord(e, word) && TextStop(s, i + 1 + |word|) && At(s, i + 1 + |word|) != '\0'
    ensures Has(s, i + 1, word)
    ensures ParseTag(e, s, st, node, depth, want)
         == ParseTag(e, s, st.(idx := i + 1 + |word|), Waited(s, node, want), depth, WantEquals(i + 1, |word|))
  {
    WordTokens(e, s, i, word);
    hide TokenAt, ParseTag, WithAttribute, Waited, TextStop;
    TurnName(e, s, st, node, depth, want);
    TagUnswallow(e, s, st.(idx := i + 1 + |word|), NextToken(e, s, i).next, Waited(s, node, want), depth,
                 WantEquals(i + 1, |word|));
  }

  lemma WordTokens(e: Encoding, s: string, i: nat, word: string)
    requires Has(s, i, " " + word) && PlainWord(e, word) && TextStop(s, i + 1 + |word|) && At(s, i + 1 + |word|) != '\0'
    ensures Has(s, i + 1, word)
    ensures var t := NextToken(e, s, i);
            t.kind == TokenText && t.start == i + 1 && t.len == |word| && Blank(s, i + 1 + |word|, t.next)
  {
    HasAppend(s, i, " ", word);
    HasAt(s, i, " ", 0);
    hide TokenAt;
    SkipBlank(e, s, i, i + 1);
    WordToken(e, s, i + 1, word);
  }

  /** The value of the attribute the parser has been waiting for. */
  lemma ReadValue(e: Encoding, s: string, i: nat, v: string, want: Want, st: State, node: Elem, depth: nat)
    requires InText(s, st) && st.idx == i && WantOk(s, want) && want.WantEquals? && Safe(e, v)
    requires Has(s, i, "=" + ("\"" + Encode(e, v) + "\""))
    ensures var next := i + 3 + |Encode(e, v)|;
            var name := s[want.start..want.start + want.len];
            next <= |s| && ParseTag(e, s, st, node, depth, want)
                           == ParseTag(e, s, st.(idx := next), WithAttribute(node, name, Some(v)), depth, WantName)
  {
    hide NextToken, ValueOf, Encode, ParseTag, WithAttribute, CString;
    ValueTokens(e, s, i, v, node);
    TurnEquals(e, s, st, node, depth, want);
    TurnValue(e, s, st.(idx := i + 1), node, depth, WantValue(want.start, want.len), v);
  }

  lemma ValueTokens(e: Encoding, s: string, i: nat, v: string, node: Elem)
    requires Safe(e, v) && Has(s, i, "=" + ("\"" + Encode(e, v) + "\""))
    ensures i + 3 + |Encode(e, v)| <= |s|
    ensures NextToken(e, s, i) == Token(TokenEquals, i, 1, i + 1)
    ensures var t := NextToken(e, s, i + 1);
            t.kind == TokenQuotedText && t.next == i + 3 + |Encode(e, v)| && ValueOf(e, s, node, t) == Ok(v)
                && CString(v) == v
  {
    hide EncodeFrom, ValueOf, CString, QuoteEnd, TextToken;
    HasAppend(s, i, "=", "\"" + Encode(e, v) + "\"");
    HasAt(s, i, "=", 0);
    QuotedToken(e, s, i + 1, v);
    ReadQuoted(e, s, i + 1, v, node);
  }

  lemma ReadQuoted(e: Encoding, s: string, i: nat, v: string, node: Elem)
    requires Safe(e, v) && Has(s, i, "\"" + Encode(e, v) + "\"")
    ensures var t := Token(TokenQuotedText, i, |Encode(e, v)| + 2, i + |Encode(e, v)| + 2);
            t.next <= |s| && t.start < |s| && ValueOf(e, s, node, t) == Ok(v) && CString(v) == v
  {
    hide Encode, EncodeFrom, Decode;
    var w := Encode(e, v);
    HasAppend(s, i, "\"" + w, "\"");
    HasAppend(s, i, "\"", w);
    HasAt(s, i + 1 + |w|, "\"", 0);
    RoundTrip(e, v, s, i + 1);
    CStringSafe(e, v);
  }

  lemma CStringSafe(e: Encoding, v: string)
    requires Safe(e, v)
    ensures CString(v) == v
  {
    if |CString(v)| < |v| {
      assert false;
    }
  }

  /** How a written start tag leaves the element: a declaration below the second level is over. */
  function TagEnding(d: Doc, depth: nat): TagEnd {
    if d.ending == Short || (d.isDeclaration && depth >= 2) then Closed else Opened
  }

  lemma RemembersOk(e: Encoding, s: string, d: Doc, k: nat, want: Want, node: Elem)
    requires GoodTag(e, d) && Remembers(s, d, k, want, node)
    ensures WantOk(s, want) && !want.WantValue?
    ensures k < |d.attributes| ==> Waited(s, node, want) == node.(attributes := d.attributes[..k])
  {
    if want.WantEquals? {
      NameWordPlain(e, d, k - 1);
      if k < |d.attributes| {
        assert d.attributes[..k] == d.attributes[..k - 1] + [d.attributes[k - 1]];
        assert NameWord(d, k - 1) == d.attributes[k - 1].name + "" == d.attributes[k - 1].name;
        assert d.attributes[k - 1] == Attribute(d.attributes[k - 1].name, None);
      }
    }
  }

  lemma CloseToken(e: Encoding, s: string, i: nat, close: string)
    requires Has(s, i, close) && close in {">", "/>"}
    ensures NextToken(e, s, i)
            == Token(if close == ">" then TokenCloseTag else TokenShortHandClose, i, |close|, i + |close|)
  {
    HasAt(s, i, close, 0);
    HasAt(s, i, close, |close| - 1);
  }

  /** The end of the tag behind an attribute without a value. */
  lemma LastNameReads(e: Encoding, s: string, d: Doc, want: Want, st: State, node: Elem, depth: nat)
    requires GoodTag(e, d) && WantOk(s, want) && want.WantEquals? && Remembers(s, d, |d.attributes|, want, node)
    ensures LastName(s, st, node, depth, want.start, want.len, d.ending == Short)
         == Tag(st, node.(attributes := d.attributes), TagEnding(d, depth))
  {
    var n := |d.attributes|;
    var name, word := d.attributes[n - 1].name, NameWord(d, n - 1);
    assert PlainWord(e, name) && name != "" by { assert GoodAttribute(e, d.attributes[n - 1]); }
    HasAt(s, want.start, word, |word| - 1);
    assert d.attributes == d.attributes[..n - 1] + [Attribute(name, None)];
    if d.isDeclaration {
      assert word == name + "?";
      HasAppend(s, want.start, name, "?");
    } else {
      assert word == name + "" == name;
    }
  }

  lemma LastRest(e: Encoding, d: Doc)
    ensures var n := |d.attributes|;
            TagRest(e, d, n) == if n > 0 && d.isDeclaration && d.attributes[n - 1].value.None? then ">" else TagClose(d)
  {
    var n := |d.attributes|;
    assert WriteAttributes(e, d.attributes, n) == "" && "" + TagClose(d) == TagClose(d);
  }

  lemma TagCloses(e: Encoding, s: string, d: Doc, i: nat, want: Want, st: State, node: Elem, depth: nat)
    requires GoodTag(e, d) && InText(s, st) && st.idx == i && WantOk(s, want) && !want.WantValue?
    requires Has(s, i, TagRest(e, d, |d.attributes|)) && Remembers(s, d, |d.attributes|, want, node)
    ensures var end := i + |TagRest(e, d, |d.attributes|)|;
            ParseTag(e, s, st, node, depth, want)
            == Tag(st.(idx := end, text := Some(end)), node.(attributes := d.attributes), TagEnding(d, depth))
  {
    hide NextToken, ParseTag, LastName, Has, TagRest, GoodTag, Remembers, TagEnding;
    LastCase(e, s, d, want, node);
    HowItEnds(d, depth);
    if d.isDeclaration && want.WantName? {
      QuestionMark(e, s, i, st, node, depth);
    } else if want.WantName? {
      CloseToken(e, s, i, TagRest(e, d, |d.attributes|));
      TurnClose(e, s, st, node, depth, want);
    } else {
      NameCloses(e, s, d, i, want, st, node, depth);
    }
  }

  /** The same behind a name that still waits for what follows. */
  lemma NameCloses(e: Encoding, s: string, d: Doc, i: nat, want: Want, st: State, node: Elem, depth: nat)
    requires GoodTag(e, d) && InText(s, st) && st.idx == i && WantOk(s, want) && want.WantEquals?
    requires Has(s, i, TagRest(e, d, |d.attributes|)) && Remembers(s, d, |d.attributes|, want, node)
    ensures var end := i + |TagRest(e, d, |d.attributes|)|;
            ParseTag(e, s, st, node, depth, want)
            == Tag(st.(idx := end, text := Some(end)), node.(attributes := d.attributes), TagEnding(d, depth))
  {
    hide NextToken, ParseTag, LastName, Has, TagRest, GoodTag, Remembers, TagEnding;
    var rest := TagRest(e, d, |d.attributes|);
    LastCase(e, s, d, want, node);
    HowItEnds(d, depth);
    CloseToken(e, s, i, rest);
    TurnClose(e, s, st, node, depth, want);
    LastNameReads(e, s, d, want, st.(idx := i + |rest|, text := Some(i + |rest|)), node, depth);
  }

  /** What is left of the tag when all its attributes are read. */
  lemma LastCase(e: Encoding, s: string, d: Doc, want: Want, node: Elem)
    requires GoodTag(e, d) && Remembers(s, d, |d.attributes|, want, node) && !want.WantValue?
    ensures node.isDeclaration == d.isDeclaration
    ensures want.WantName? ==> node == node.(attributes := d.attributes)
    ensures TagRest(e, d, |d.attributes|)
         == if d.isDeclaration then (if want.WantName? then "?>" else ">") else if d.ending == Short then "/>" else ">"
    ensures d.isDeclaration ==> d.ending == Omitted
  {
    hide NameWord, Has, GoodAttribute, WriteAttributes;
    LastRest(e, d);
    hide TagRest;
    assert d.attributes[..|d.attributes|] == d.attributes;
  }

  lemma HowItEnds(d: Doc, depth: nat)
    ensures TagEnding(d, depth) == if d.ending == Short || (d.isDeclaration && depth >= 2) then Closed else Opened
  {
  }

  /** The end of a declaration behind an attribute with a value. */
  lemma QuestionMark(e: Encoding, s: string, i: nat, st: State, node: Elem, depth: nat)
    requires InText(s, st) && st.idx == i && node.isDeclaration && Has(s, i, "?>")
    ensures ParseTag(e, s, st, node, depth, WantName)
         == Tag(st.(idx := i + 2, text := Some(i + 2)), node, if depth >= 2 then Closed else Opened)
  {
    hide NextToken, ParseTag, LastName, Has;
    assert "?" + ">" == "?>";
    HasAppend(s, i, "?", ">");
    HasAt(s, i, "?", 0);
    HasAt(s, i + 1, ">", 0);
    QuestionWord(e);
    WordToken(e, s, i, "?");
    CloseToken(e, s, i + 1, ">");
    TurnName(e, s, st, node, depth, WantName);
    TurnClose(e, s, st.(idx := i + 1), node, depth, WantEquals(i, 1));
    LastQuestion(s, st.(idx := i + 2, text := Some(i + 2)), node, depth, i);
  }

  lemma QuestionWord(e: Encoding)
    ensures PlainWord(e, "?")
  {
  }

  lemma LastQuestion(s: string, st: State, node: Elem, depth: nat, i: nat)
    requires node.isDeclaration && i < |s| && s[i] == '?'
    ensures LastName(s, st, node, depth, i, 1, false) == Tag(st, node, if depth >= 2 then Closed else Opened)
  {
  }

  /** Attribute number `k` is read. */
  lemma ReadAttribute(e: Encoding, s: string, d: Doc, k: nat, i: nat, want: Want, st: State, node: Elem, depth: nat)
    returns (next: nat, want1: Want, node1: Elem)
    requires GoodTag(e, d) && InText(s, st) && st.idx == i && k < |d.attributes| && WantOk(s, want) && !want.WantValue?
    requires Has(s, i, TagRest(e, d, k)) && Remembers(s, d, k, want, node)
    requires Waited(s, node, want) == node.(attributes := d.attributes[..k])
    ensures i <= next <= |s| && Has(s, next, TagRest(e, d, k + 1)) && Remembers(s, d, k + 1, want1, node1)
    ensures next + |TagRest(e, d, k + 1)| == i + |TagRest(e, d, k)|
    ensures node1 == node.(attributes := node1.attributes)
    ensures WantOk(s, want1)
    ensures ParseTag(e, s, st, node, depth, want) == ParseTag(e, s, st.(idx := next), node1, depth, want1)
  {
    hide NextToken, ParseTag, TagRest, NameWord, Waited, TextStop, Encode, EncodeFrom, Remembers, Has, GoodAttribute,
         WithAttribute;
    var a, word, rest := d.attributes[k], NameWord(d, k), TagRest(e, d, k + 1);
    assert GoodAttribute(e, a);
    NameWordPlain(e, d, k);
    TagRestSplit(e, d, k);
    var j := i + 1 + |word|;
    var node0 := node.(attributes := d.attributes[..k]);
    RemembersDeclaration(s, d, k, want, node);
    if a.value.None? {
      BarePieces(e, s, i, d, k);
      TagRestStops(e, d, k + 1, s, j);
      ReadWord(e, s, i, word, want, st, node, depth);
      next, want1, node1 := j, WantEquals(i + 1, |word|), node0;
      RemembersBare(s, d, k, i + 1, node0);
    } else {
      var v := a.value.value;
      ValuedPieces(e, s, i, d, k);
      EqualsStops(s, j);
      ReadWord(e, s, i, word, want, st, node, depth);
      GoodValue(e, a);
      ReadValue(e, s, j, v, WantEquals(i + 1, |word|), st.(idx := j), node0, depth);
      ValuedWord(d, k);
      HasWord(s, i + 1, a.name);
      next, want1, node1 := j + 3 + |Encode(e, v)|, WantName, WithAttribute(node0, a.name, Some(v));
      RemembersValued(s, d, k, node0);
    }
  }

  lemma RemembersDeclaration(s: string, d: Doc, k: nat, want: Want, node: Elem)
    requires Remembers(s, d, k, want, node)
    ensures node.isDeclaration == d.isDeclaration
  {
    hide NameWord, Has;
  }

  lemma HasWord(s: string, i: nat, w: string)
    requires Has(s, i, w)
    ensures i + |w| <= |s| && s[i..i + |w|] == w
  {
  }

  lemma GoodValue(e: Encoding, a: Attribute)
    requires GoodAttribute(e, a) && a.value.Some?
    ensures Safe(e, a.value.value)
  {
    hide PlainWord, Safe;
  }

  lemma BarePieces(e: Encoding, s: string, i: nat, d: Doc, k: nat)
    requires k < |d.attributes| && d.attributes[k].value.None? && Has(s, i, TagRest(e, d, k))
    ensures var word := NameWord(d, k);
            && Has(s, i, " " + word) && Has(s, i + 1 + |word|, TagRest(e, d, k + 1))
            && i + |TagRest(e, d, k)| == i + 1 + |word| + |TagRest(e, d, k + 1)| <= |s|
  {
    hide TagRest, NameWord;
    var word := NameWord(d, k);
    TagRestSplit(e, d, k);
    assert " " + word + "" == " " + word;
    HasAppend(s, i, " " + word, TagRest(e, d, k + 1));
  }

  lemma ValuedPieces(e: Encoding, s: string, i: nat, d: Doc, k: nat)
    requires k < |d.attributes| && d.attributes[k].value.Some? && Has(s, i, TagRest(e, d, k))
    ensures var word, v := NameWord(d, k), Encode(e, d.attributes[k].value.value);
            var j := i + 1 + |word|;
            && Has(s, i, " " + word) && Has(s, j, "=" + ("\"" + v + "\"")) && At(s, j) == '='
            && Has(s, j + 3 + |v|, TagRest(e, d, k + 1))
            && i + |TagRest(e, d, k)| == j + 3 + |v| + |TagRest(e, d, k + 1)| <= |s|
  {
    hide TagRest, NameWord, Encode;
    var word := NameWord(d, k);
    var value := "=" + ("\"" + Encode(e, d.attributes[k].value.value) + "\"");
    TagRestSplit(e, d, k);
    HasAppend(s, i, " " + word + value, TagRest(e, d, k + 1));
    HasAppend(s, i, " " + word, value);
    HasAt(s, i + 1 + |word|, value, 0);
  }

  lemma RemembersBare(s: string, d: Doc, k: nat, i: nat, node: Elem)
    requires k < |d.attributes| && d.attributes[k].value.None? && Has(s, i, NameWord(d, k))
    requires node.isDeclaration == d.isDeclaration && node.attributes == d.attributes[..k]
    ensures Remembers(s, d, k + 1, WantEquals(i, |NameWord(d, k)|), node)
  {
    hide NameWord, Has;
    assert d.attributes[..k + 1][..k] == d.attributes[..k];
  }

  lemma RemembersValued(s: string, d: Doc, k: nat, node: Elem)
    requires k < |d.attributes| && d.attributes[k].value.Some?
    requires node.isDeclaration == d.isDeclaration && node.attributes == d.attributes[..k]
    ensures var a := d.attributes[k];
            var node1 := WithAttribute(node, a.name, a.value);
            Remembers(s, d, k + 1, WantName, node1) && node1 == node.(attributes := node1.attributes)
  {
    hide NameWord, Has;
    assert d.attributes[..k + 1] == d.attributes[..k] + [d.attributes[k]];
  }

  lemma EqualsStops(s: string, i: nat)
    requires At(s, i) == '='
    ensures TextStop(s, i)
  {
  }

  lemma ValuedWord(d: Doc, k: nat)
    requires k < |d.attributes| && d.attributes[k].value.Some?
    ensures NameWord(d, k) == d.attributes[k].name
  {
    assert d.attributes[k].name + "" == d.attributes[k].name;
  }

  /** The parser reads the rest of a written start tag: it gets all attributes, and stops behind the tag. */
  lemma {:induction false} TagReads(e: Encoding, s: string, d: Doc, k: nat, i: nat, want: Want, st: State, node: Elem,
                                    depth: nat)
    requires GoodTag(e, d) && InText(s, st) && st.idx == i && k <= |d.attributes|
    requires Has(s, i, TagRest(e, d, k)) && Remembers(s, d, k, want, node)
    ensures WantOk(s, want)
    ensures i + |TagRest(e, d, k)| <= |s|
    ensures var end := i + |TagRest(e, d, k)|;
            ParseTag(e, s, st, node, depth, want)
            == Tag(st.(idx := end, text := Some(end)), node.(attributes := d.attributes), TagEnding(d, depth))
    decreases |d.attributes| - k
  {
    hide NextToken, ParseTag, TagRest, NameWord, Waited, WithAttribute, TagEnding, GoodTag, Remembers;
    RemembersOk(e, s, d, k, want, node);
    if k == |d.attributes| {
      TagCloses(e, s, d, i, want, st, node, depth);
    } else {
      var next, want1, node1 := ReadAttribute(e, s, d, k, i, want, st, node, depth);
      TagReads(e, s, d, k + 1, next, want1, st.(idx := next), node1, depth);
    }
  }

  // ---------------------------------------------------------------- attributes as they may be written by hand

  /** The closing quote, which may be of either kind, is the first one of its kind. */
  lemma {:induction false} QuoteEndRaw(e: Encoding, s: string, i: nat, raw: string, k: nat, q: char)
    requires Safe(e, raw) && k <= |raw| && q !in raw && '<' !in raw && Has(s, i, raw + [q]) && q != '\0'
    ensures i + |raw| < |s| && QuoteEnd(e, s, i + k, q) == Some(i + |raw| + 1)
    decreases |raw| - k
  {
    HasAt(s, i, raw + [q], k);
    HasAt(s, i, raw + [q], |raw|);
    if k < |raw| {
      assert Advance(e, s, i + k) == i + Advance(e, raw, k);
      QuoteEndRaw(e, s, i, raw, Advance(e, raw, k), q);
    }
  }

  lemma RawToken(e: Encoding, s: string, i: nat, raw: string, q: char)
    requires Safe(e, raw) && (q == '\'' || q == '\"') && q !in raw && '<' !in raw && Has(s, i, [q] + (raw + [q]))
    ensures NextToken(e, s, i) == Token(TokenQuotedText, i, |raw| + 2, i + |raw| + 2)
    ensures Has(s, i + 1, raw) && i + |raw| + 2 <= |s| && s[i + |raw| + 1] == q
  {
    hide QuoteEnd;
    HasAppend(s, i, [q], raw + [q]);
    HasAppend(s, i + 1, raw, [q]);
    HasAt(s, i, [q], 0);
    HasAt(s, i + 1 + |raw|, [q], 0);
    QuoteEndRaw(e, s, i + 1, raw, 0, q);
  }

  lemma RawValue(e: Encoding, s: string, i: nat, raw: string, q: char, node: Elem)
    requires (q == '\'' || q == '\"') && i + |raw| + 2 <= |s| && s[i + |raw| + 1] == q
    ensures ValueOf(e, s, node, Token(TokenQuotedText, i, |raw| + 2, i + |raw| + 2)) == Decode(e, s, i + 1, |raw|)
  {
    hide Decode;
  }

  /** An attribute in any spelling: white space before and behind its name and before its value, and a value between
      quotes of either kind that does not hold such a quote, with any references in it.  The element gets the name with
      the decoded value, and the rest of the tag is read. */
  lemma AttributeReads(e: Encoding, s: string, st: State, node: Elem, depth: nat, i: nat, name: string, j: nat, k: nat,
                       q: char, raw: string)
    requires InText(s, st) && Blank(s, st.idx, i) && PlainWord(e, name) && Has(s, i, name)
    requires Blank(s, i + |name|, j) && At(s, j) == '=' && Blank(s, j + 1, k)
    requires Safe(e, raw) && (q == '\'' || q == '\"') && q !in raw && '<' !in raw && Has(s, k, [q] + (raw + [q]))
    requires var d := Decode(e, s, k + 1, |raw|); d.Ok? && CString(d.text) == d.text
    ensures k + |raw| + 2 <= |s|
    ensures ParseTag(e, s, st, node, depth, WantName)
         == ParseTag(e, s, st.(idx := k + |raw| + 2),
                     WithAttribute(node, name, Some(Decode(e, s, k + 1, |raw|).text)), depth, WantName)
  {
    hide NextToken, ParseTag, ValueOf, Decode, PlainWord, WithAttribute, TextStop, Safe, CString, Blank, Has;
    NameReads(e, s, st, node, depth, i, name, j);
    NameNotEmpty(e, name);
    SkipBlank(e, s, j + 1, k);
    RawToken(e, s, k, raw, q);
    RawValue(e, s, k, raw, q, node);
    HasWord(s, i, name);
    TurnValue(e, s, st.(idx := j + 1), node, depth, WantValue(i, |name|), Decode(e, s, k + 1, |raw|).text);
  }

  lemma NameReads(e: Encoding, s: string, st: State, node: Elem, depth: nat, i: nat, name: string, j: nat)
    requires InText(s, st) && Blank(s, st.idx, i) && PlainWord(e, name) && Has(s, i, name)
    requires Blank(s, i + |name|, j) && At(s, j) == '='
    ensures st.idx <= j < |s| && i + |name| <= |s|
    ensures ParseTag(e, s, st, node, depth, WantName)
         == ParseTag(e, s, st.(idx := j + 1), node, depth, WantValue(i, |name|))
  {
    hide NextToken, ParseTag, PlainWord, TextStop, Has;
    SkipBlank(e, s, st.idx, i);
    NameStops(s, i + |name|, j);
    WordToken(e, s, i, name);
    var next := NextToken(e, s, i).next;
    TurnName(e, s, st, node, depth, WantName);
    NameNotEmpty(e, name);
    SkipBlank(e, s, next, j);
    EqualsToken(e, s, j);
    TurnEquals(e, s, st.(idx := next), node, depth, WantEquals(i, |name|));
  }

  /** An unquoted value: no quote in front, no white space and none of `<`, `>` and `=` in it, and neither in it nor at
      its end a `/>`; one of these stands behind it. */
  ghost predicate Unquoted(e: Encoding, s: string, k: nat, n: nat) {
    0 < n && k + n <= |s| && Safe(e, s[k..k + n]) && s[k] != '\'' && s[k] != '\"'
    && (forall i :: k <= i < k + n ==> s[i] !in "<>=" && !IsSpace(s[i]) && !(s[i] == '/' && At(s, i + 1) == '>'))
    && (k + n == |s| || IsSpace(s[k + n]) || s[k + n] in "<>=" || (s[k + n] == '/' && At(s, k + n + 1) == '>'))
  }

  lemma {:induction false} UnquotedEnd(e: Encoding, s: string, k: nat, n: nat, i: nat)
    requires Unquoted(e, s, k, n) && i <= n
    ensures TextEnd(e, s, k + i) == k + n
    decreases n - i
  {
    if i < n {
      assert s[k..k + n][i] == s[k + i];
      assert !TextStop(s, k + i);
      assert Advance(e, s, k + i) == k + Advance(e, s[k..k + n], i);
      UnquotedEnd(e, s, k, n, Advance(e, s[k..k + n], i));
    }
  }

  /** The same for a value without quotes; a declaration gives up the `?` at its end. */
  lemma UnquotedReads(e: Encoding, s: string, st: State, node: Elem, depth: nat, i: nat, name: string, j: nat, k: nat,
                      n: nat)
    requires InText(s, st) && Blank(s, st.idx, i) && PlainWord(e, name) && Has(s, i, name)
    requires Blank(s, i + |name|, j) && At(s, j) == '=' && Blank(s, j + 1, k) && Unquoted(e, s, k, n)
    requires var m := if node.isDeclaration && s[k + n - 1] == '?' then n - 1 else n;
             var d := Decode(e, s, k, m); d.Ok? && CString(d.text) == d.text
    ensures var m := if node.isDeclaration && s[k + n - 1] == '?' then n - 1 else n;
            var next := if IsSpace(At(s, k + n)) then k + n + 1 else k + n;
            next <= |s|
            && ParseTag(e, s, st, node, depth, WantName)
               == ParseTag(e, s, st.(idx := next), WithAttribute(node, name, Some(Decode(e, s, k, m).text)), depth,
                           WantName)
  {
    hide ParseTag, ValueOf, Decode, PlainWord, WithAttribute, TextStop, Safe, CString, Has, Blank, NextToken, Unquoted;
    UnquotedToken(e, s, k, n);
    var m := if node.isDeclaration && s[k + n - 1] == '?' then n - 1 else n;
    NameReads(e, s, st, node, depth, i, name, j);
    NameNotEmpty(e, name);
    SkipBlank(e, s, j + 1, k);
    UnquotedValue(e, s, k, n, node);
    HasWord(s, i, name);
    var want := WantValue(i, |name|);
    UnquotedTurn(e, s, st.(idx := j + 1), node, depth, want, Decode(e, s, k, m).text);
  }

  lemma UnquotedToken(e: Encoding, s: string, k: nat, n: nat)
    requires Unquoted(e, s, k, n)
    ensures 0 < n && k + n <= |s|
    ensures NextToken(e, s, k) == Token(TokenText, k, n, if IsSpace(At(s, k + n)) then k + n + 1 else k + n)
  {
    assert s[k..k + n][0] == s[k];
    assert Advance(e, s, k) == k + Advance(e, s[k..k + n], 0);
    UnquotedEnd(e, s, k, n, Advance(e, s[k..k + n], 0));
  }

  lemma UnquotedValue(e: Encoding, s: string, k: nat, n: nat, node: Elem)
    requires 0 < n && k + n <= |s|
    ensures forall next :: ValueOf(e, s, node, Token(TokenText, k, n, next))
                           == Decode(e, s, k, if node.isDeclaration && s[k + n - 1] == '?' then n - 1 else n)
  {
    hide Decode;
  }

  lemma UnquotedTurn(e: Encoding, s: string, st: State, node: Elem, depth: nat, want: Want, v: string)
    requires InText(s, st) && WantOk(s, want) && want.WantValue? && NextToken(e, s, st.idx).kind == TokenText
    requires ValueOf(e, s, node, NextToken(e, s, st.idx)) == Ok(v) && CString(v) == v
    ensures var name := s[want.start..want.start + want.len];
            ParseTag(e, s, st, node, depth, want)
            == ParseTag(e, s, st.(idx := NextToken(e, s, st.idx).next), WithAttribute(node, name, Some(v)), depth,
                        WantName)
  {
    hide TokenAt, WithAttribute, ValueOf, CString;
  }

  lemma NameStops(s: string, i: nat, j: nat)
    requires Blank(s, i, j) && At(s, j) == '='
    ensures TextStop(s, i)
  {
  }

  lemma NameNotEmpty(e: Encoding, name: string)
    requires PlainWord(e, name)
    ensures name != ""
  {
  }

  lemma EqualsToken(e: Encoding, s: string, j: nat)
    requires At(s, j) == '='
    ensures j < |s| && NextToken(e, s, j) == Token(TokenEquals, j, 1, j + 1)
  {
  }
}
