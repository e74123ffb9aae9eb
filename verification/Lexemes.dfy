/** How the tokenizer reads the words, the quoted values and the text runs of a written document.

    A plain word is one token if something follows that ends it, and an escaped value between quotes is one token,
    since escaping leaves no quote in it.

    An escaped text can be any number of tokens.  But escaping leaves no `<` in it either, and between two tags the
    parser does nothing before the next `<`: `NextLess` is where that is, and `ContentSkips` says that the parser does
    not mind being moved there at once.  This holds for every text, whatever quotes stand in it, since a quoted text
    ends at a `<` at the latest. */
module Lexemes {
  import opened Wrappers
  import opened CStrings
  import opened Escape
  import opened Lexer
  import opened Nodes
  import opened Grammar
  import opened Documents

  // ---------------------------------------------------------------- white space

  /** From `i` to `j` there is nothing but white space. */
  ghost predicate Blank(s: string, i: nat, j: nat) {
    i <= j <= |s| && forall k :: i <= k < j ==> IsSpace(s[k])
  }

  lemma BlankGap(s: string, i: nat, gap: string)
    requires Has(s, i, gap) && AllSpace(gap)
    ensures Blank(s, i, i + |gap|)
  {
    forall k | i <= k < i + |gap| ensures IsSpace(s[k]) {
      HasAt(s, i, gap, k - i);
    }
  }

  lemma {:induction false} SkipBlank(e: Encoding, s: string, i: nat, j: nat)
    requires Blank(s, i, j)
    ensures SkipSpace(s, i) == SkipSpace(s, j)
    ensures NextToken(e, s, i) == NextToken(e, s, j)
    decreases j - i
  {
    if i < j {
      SkipBlank(e, s, i + 1, j);
    }
  }

  // ---------------------------------------------------------------- words

  lemma {:induction false} WordEnd(e: Encoding, s: string, i: nat, n: string, k: nat)
    requires Has(s, i, n) && k <= |n| && Safe(e, n) && forall x :: 0 <= x < |n| ==> PlainChar(n[x])
    requires TextStop(s, i + |n|)
    ensures TextEnd(e, s, i + k) == i + |n|
    decreases |n| - k
  {
    if k < |n| {
      HasAt(s, i, n, k);
      assert Advance(e, s, i + k) == i + Advance(e, n, k);
      WordEnd(e, s, i, n, Advance(e, n, k));
    }
  }

  /** A plain word in front of something that stops it is one text token. */
  lemma WordToken(e: Encoding, s: string, i: nat, n: string)
    requires Has(s, i, n) && PlainWord(e, n) && TextStop(s, i + |n|)
    ensures NextToken(e, s, i) == Token(TokenText, i, |n|, if IsSpace(At(s, i + |n|)) then i + |n| + 1 else i + |n|)
  {
    HasAt(s, i, n, 0);
    assert Advance(e, s, i) == i + Advance(e, n, 0);
    WordEnd(e, s, i, n, Advance(e, n, 0));
  }

  // ---------------------------------------------------------------- encoded text

  lemma EntityAscii(c: char)
    requires Special(c)
    ensures forall x :: 0 <= x < |Entity(c)| ==>
      '\0' < Entity(c)[x] < 128 as char && Entity(c)[x] != '\"' && Entity(c)[x] != '<' && !IsSpace(Entity(c)[x])
  {
  }

  /** One step of a walk through an encoded text: an entity byte or one whole character. */
  lemma EncodedStep(e: Encoding, s: string, i: nat, v: string, k: nat)
    requires Safe(e, v) && k < |v| && Has(s, i, Piece(e, v, k))
    ensures if Special(v[k]) then Piece(e, v, k) == Entity(v[k])
            else i < |s| && s[i] == v[k] && Advance(e, s, i) == i + |Piece(e, v, k)|
  {
    hide Entity;
    if !Special(v[k]) {
      HasAt(s, i, Piece(e, v, k), 0);
    }
  }

  /** The closing quote is not found inside an encoded text. */
  lemma {:induction false} QuoteEndEntity(e: Encoding, s: string, i: nat, w: string)
    requires Has(s, i, w) && forall x :: 0 <= x < |w| ==> '\0' < w[x] < 128 as char && w[x] != '\"' && w[x] != '<'
    ensures QuoteEnd(e, s, i, '\"') == QuoteEnd(e, s, i + |w|, '\"')
    decreases |w|
  {
    if w != "" {
      HasAt(s, i, w, 0);
      assert s[i + 1..i + 1 + |w[1..]|] == w[1..];
      QuoteEndEntity(e, s, i + 1, w[1..]);
    }
  }

  lemma {:induction false} QuoteEndEncoded(e: Encoding, s: string, i: nat, v: string, k: nat)
    requires Safe(e, v) && k <= |v| && Has(s, i, EncodeFrom(e, v, k))
    ensures QuoteEnd(e, s, i, '\"') == QuoteEnd(e, s, i + |EncodeFrom(e, v, k)|, '\"')
    decreases |v| - k
  {
    hide EncodeFrom, Piece, Entity, Advance;
    if k < |v| {
      var w, j := Piece(e, v, k), Advance(e, v, k);
      EncodeUnfold(e, v, k);
      HasAppend(s, i, w, EncodeFrom(e, v, j));
      EncodedStep(e, s, i, v, k);
      if Special(v[k]) {
        EntityAscii(v[k]);
        QuoteEndEntity(e, s, i, w);
      }
      QuoteEndEncoded(e, s, i + |w|, v, j);
    } else {
      EncodeDone(e, v);
    }
  }

  /** An encoded value between quotes is one token. */
  lemma QuotedToken(e: Encoding, s: string, i: nat, v: string)
    requires Safe(e, v) && Has(s, i, "\"" + Encode(e, v) + "\"")
    ensures NextToken(e, s, i) == Token(TokenQuotedText, i, |Encode(e, v)| + 2, i + |Encode(e, v)| + 2)
    ensures Has(s, i + 1, Encode(e, v))
  {
    hide EncodeFrom;
    var w := Encode(e, v);
    HasAppend(s, i, "\"" + w, "\"");
    HasAppend(s, i, "\"", w);
    HasAt(s, i, "\"", 0);
    HasAt(s, i + 1 + |w|, "\"", 0);
    QuoteEndEncoded(e, s, i + 1, v, 0);
  }

  // ---------------------------------------------------------------- the way to the next `<`

  /** The first `<` that a walk from `i` meets, or the end of the text. */
  function NextLess(e: Encoding, s: string, i: nat): (p: nat)
    requires i <= |s|
    ensures i <= p <= |s|
    decreases |s| - i
  {
    if At(s, i) == '\0' || s[i] == '<' then i else NextLess(e, s, Advance(e, s, i))
  }

  lemma {:induction false} LessEntity(e: Encoding, s: string, i: nat, w: string)
    requires Has(s, i, w) && forall x :: 0 <= x < |w| ==> '\0' < w[x] < 128 as char && w[x] != '<'
    ensures NextLess(e, s, i) == NextLess(e, s, i + |w|)
    decreases |w|
  {
    if w != "" {
      HasAt(s, i, w, 0);
      assert s[i + 1..i + 1 + |w[1..]|] == w[1..];
      LessEntity(e, s, i + 1, w[1..]);
    }
  }

  lemma {:induction false} LessEncoded(e: Encoding, s: string, i: nat, v: string, k: nat)
    requires Safe(e, v) && k <= |v| && Has(s, i, EncodeFrom(e, v, k))
    ensures NextLess(e, s, i) == NextLess(e, s, i + |EncodeFrom(e, v, k)|)
    decreases |v| - k
  {
    hide EncodeFrom, Piece, Entity, Advance;
    if k < |v| {
      var w, j := Piece(e, v, k), Advance(e, v, k);
      EncodeUnfold(e, v, k);
      HasAppend(s, i, w, EncodeFrom(e, v, j));
      EncodedStep(e, s, i, v, k);
      if Special(v[k]) {
        EntityAscii(v[k]);
        LessEntity(e, s, i, w);
      }
      LessEncoded(e, s, i + |w|, v, j);
    } else {
      EncodeDone(e, v);
    }
  }

  lemma {:induction false} LessBlank(e: Encoding, s: string, i: nat, j: nat)
    requires Blank(s, i, j)
    ensures NextLess(e, s, i) == NextLess(e, s, j)
    decreases j - i
  {
    if i < j {
      LessBlank(e, s, i + 1, j);
    }
  }

  lemma {:induction false} LessText(e: Encoding, s: string, i: nat)
    requires i <= |s|
    ensures NextLess(e, s, i) == NextLess(e, s, TextEnd(e, s, i))
    decreases |s| - i
  {
    if !TextStop(s, i) {
      LessText(e, s, Advance(e, s, i));
    }
  }

  lemma {:induction false} LessQuote(e: Encoding, s: string, i: nat, q: char)
    requires i <= |s| && (q == '\'' || q == '\"') && QuoteEnd(e, s, i, q).Some?
    ensures NextLess(e, s, i) == NextLess(e, s, QuoteEnd(e, s, i, q).value)
    decreases |s| - i
  {
    if s[i] != q {
      LessQuote(e, s, Advance(e, s, i), q);
    }
  }

  /** A token that is no markup ends before the next `<`. */
  lemma LessToken(e: Encoding, s: string, i: nat)
    requires i <= |s|
             && NextToken(e, s, i).kind in {TokenText, TokenQuotedText, TokenCloseTag, TokenEquals, TokenShortHandClose}
    ensures NextLess(e, s, i) == NextLess(e, s, NextToken(e, s, i).next)
  {
    hide NextLess;
    var p := SkipSpace(s, i);
    LessBlank(e, s, i, p);
    LessTokenAt(e, s, p);
  }

  lemma LessTokenAt(e: Encoding, s: string, p: nat)
    requires p <= |s|
             && TokenAt(e, s, p).kind in {TokenText, TokenQuotedText, TokenCloseTag, TokenEquals, TokenShortHandClose}
    ensures NextLess(e, s, p) == NextLess(e, s, TokenAt(e, s, p).next)
  {
    hide TextEnd, QuoteEnd, ClearAt;
    var t := TokenAt(e, s, p);
    assert s[p] != '<';
    if t.kind == TokenText {
      LessTextToken(e, s, p, Advance(e, s, p));
    } else if t.kind == TokenQuotedText {
      LessQuote(e, s, p + 1, s[p]);
    }
  }

  lemma LessTextToken(e: Encoding, s: string, p: nat, i: nat)
    requires p <= i <= |s|
    ensures NextLess(e, s, i) == NextLess(e, s, TextToken(e, s, p, i).next)
  {
    hide NextLess, TextEnd;
    LessText(e, s, i);
    LessBlank(e, s, TextEnd(e, s, i), TextToken(e, s, p, i).next);
  }

  /** What the content parser does depends on the next token, not on the white space before it. */
  lemma ContentSame(e: Encoding, s: string, st: State, i: nat, node: Elem, depth: nat)
    requires InText(s, st) && i <= |s| && (st.text.Some? ==> st.text.value <= i)
    requires NextToken(e, s, st.idx) == NextToken(e, s, i)
    ensures ParseContent(e, s, st, node, depth) == ParseContent(e, s, st.(idx := i), node, depth)
  {
    hide TokenAt, ParseChild, ParseEndTag, Flush, AtEnd, ClearEnd, AddClearItem;
  }

  lemma ContentIgnores(e: Encoding, s: string, st: State, node: Elem, depth: nat)
    requires InText(s, st)
    requires NextToken(e, s, st.idx).kind in {TokenText, TokenQuotedText, TokenCloseTag, TokenEquals,
                                              TokenShortHandClose}
    ensures ParseContent(e, s, st, node, depth)
            == ParseContent(e, s, st.(idx := NextToken(e, s, st.idx).next), node, depth)
  {
  }

  /** The content parser does not mind being moved forward to the next `<`. */
  lemma {:induction false} ContentSkips(e: Encoding, s: string, st: State, node: Elem, depth: nat)
    requires InText(s, st)
    ensures ParseContent(e, s, st, node, depth) == ParseContent(e, s, st.(idx := NextLess(e, s, st.idx)), node, depth)
    decreases |s| - st.idx
  {
    hide NextLess, TokenAt, ParseContent;
    var t := NextToken(e, s, st.idx);
    if t.kind in {TokenText, TokenQuotedText, TokenCloseTag, TokenEquals, TokenShortHandClose} {
      LessToken(e, s, st.idx);
      ContentIgnores(e, s, st, node, depth);
      ContentSkips(e, s, st.(idx := t.next), node, depth);
    } else {
      LessMarkup(e, s, st.idx);
      ContentSame(e, s, st, NextLess(e, s, st.idx), node, depth);
    }
  }

  lemma LessMarkup(e: Encoding, s: string, i: nat)
    requires i <= |s|
             && NextToken(e, s, i).kind !in {TokenText, TokenQuotedText, TokenCloseTag, TokenEquals,
                                             TokenShortHandClose}
    ensures NextLess(e, s, i) == NextToken(e, s, i).start
    ensures NextToken(e, s, NextLess(e, s, i)) == NextToken(e, s, i)
  {
    var p := SkipSpace(s, i);
    LessBlank(e, s, i, p);
  }
}
