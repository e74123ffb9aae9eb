/** The tokenizer of the XML library.  `NextToken` says what the next token is; the class `Xml` holds the
    state of a parse, and its method `GetNextToken` reads that token off the text. */
module Lexer {
  import opened Wrappers
  import opened CStrings

  /** The entries of the table of clear (unformatted) tags. */
  datatype ClearKind = CData | DocType | Comment | Pre

  function OpenTag(k: ClearKind): (r: string)
    ensures 4 <= |r| <= 9
  {
    match k
    case CData => "<![CDATA["
    case DocType => "<!DOCTYPE"
    case Comment => "<!--"
    case Pre => "<PRE>"
  }

  function CloseTag(k: ClearKind): (r: string)
    ensures 1 <= |r| <= 6
  {
    match k
    case CData => "]]>"
    case DocType => ">"
    case Comment => "-->"
    case Pre => "</PRE>"
  }

  /** How they look: the CDATA sections, declarations of document types and comments of sections 2.7, 2.8 and 2.5 of
      XML 1.0, and the library's own kind. */
  lemma ClearTags(k: ClearKind)
    ensures OpenTag(k) + "x" + CloseTag(k)
         == match k case CData => "<![CDATA[x]]>" case DocType => "<!DOCTYPEx>" case Comment => "<!--x-->"
                    case Pre => "<PRE>x</PRE>"
  {
  }

  datatype TokenKind =
    | TokenText | TokenQuotedText | TokenTagStart | TokenTagEnd | TokenCloseTag | TokenEquals
    | TokenDeclaration | TokenShortHandClose | TokenClear(clear: ClearKind) | TokenError

  /** A token of `len` bytes at `start`; the tokenizer goes on at `next`. */
  datatype Token = Token(kind: TokenKind, start: nat, len: nat, next: nat)

  datatype XMLError =
    | ErrorNone | ErrorMissingEndTag | ErrorNoXMLTagFound | ErrorMissingTagName | ErrorMissingEndTagName
    | ErrorUnmatchedEndTag | ErrorUnmatchedEndClearTag | ErrorUnexpectedToken | ErrorNoElements
    | ErrorFirstTagNotFound | ErrorUnknownCharacterEntity | ErrorCharacterCodeAbove255

  function SkipSpace(s: string, i: nat): (p: nat)
    requires i <= |s|
    ensures i <= p <= |s| && !IsSpace(At(s, p)) && forall k :: i <= k < p ==> IsSpace(s[k])
    decreases |s| - i
  {
    if IsSpace(At(s, i)) then SkipSpace(s, i + 1) else i
  }

  /** Where a quoted text ends whose opening quote `q` stands just before `i`. */
  function QuoteEnd(e: Encoding, s: string, i: nat, q: char): (r: Option<nat>)
    requires i <= |s|
    ensures r.Some? ==> i < r.value <= |s|
    decreases |s| - i
  {
    if At(s, i) == '\0' then None
    else if s[i] == q then Some(i + 1)
    else if s[i] == '<' then None
    else QuoteEnd(e, s, Advance(e, s, i), q)
  }

  /** Whether a text token ends before position `i`. */
  predicate TextStop(s: string, i: nat) {
    var c := At(s, i);
    c == '\0' || IsSpace(c) || c == '<' || c == '>' || c == '=' || (c == '/' && At(s, i + 1) == '>')
  }

  function TextEnd(e: Encoding, s: string, i: nat): (p: nat)
    requires i <= |s|
    ensures i <= p <= |s| && TextStop(s, p)
    decreases |s| - i
  {
    if TextStop(s, i) then i else TextEnd(e, s, Advance(e, s, i))
  }

  /** The text token at `p` whose first character ends at `i`: the tokenizer swallows one white space after it. */
  function TextToken(e: Encoding, s: string, p: nat, i: nat): Token
    requires p <= i <= |s|
  {
    var end := TextEnd(e, s, i);
    Token(TokenText, p, end - p, if IsSpace(At(s, end)) then end + 1 else end)
  }

  function ClearAt(s: string, p: nat): (r: Option<ClearKind>)
    ensures r.Some? <==> exists k :: Has(s, p, OpenTag(k))
    ensures r.Some? ==> Has(s, p, OpenTag(r.value))
  {
    if Has(s, p, OpenTag(CData)) then Some(CData)
    else if Has(s, p, OpenTag(DocType)) then Some(DocType)
    else if Has(s, p, OpenTag(Comment)) then Some(Comment)
    else if Has(s, p, OpenTag(Pre)) then Some(Pre)
    else
      assert forall k :: !Has(s, p, OpenTag(k));
      None
  }

  /** The token behind a `<` at `p`. */
  function MarkupToken(s: string, p: nat): (t: Token)
    requires At(s, p) == '<'
    ensures t.start == p < t.next <= |s| && p + t.len <= t.next
  {
    var clear := ClearAt(s, p);
    if clear.Some? then Token(TokenClear(clear.value), p, 0, p + |OpenTag(clear.value)|)
    else if At(s, p + 1) == '/' then Token(TokenTagEnd, p, 2, p + 2)
    else if At(s, p + 1) == '?' then Token(TokenDeclaration, p, 2, p + 2)
    else Token(TokenTagStart, p, 1, p + 1)
  }

  /** The token at `p`, where no white space stands. */
  function TokenAt(e: Encoding, s: string, p: nat): (t: Token)
    requires p <= |s|
    ensures t.start == p && p <= t.next <= |s| && p + t.len <= t.next
    ensures if At(s, p) == '\0' then t.kind == TokenError && t.next == p else t.kind != TokenError && p < t.next
    ensures t.kind == TokenText ==> 0 < t.len
  {
    var c := At(s, p);
    if c == '\0' then Token(TokenError, p, 0, p)
    else if c == '\'' || c == '\"' then
      var end := QuoteEnd(e, s, p + 1, c);
      if end.Some? then Token(TokenQuotedText, p, end.value - p, end.value) else TextToken(e, s, p, p + 1)
    else if c == '=' then Token(TokenEquals, p, 1, p + 1)
    else if c == '>' then Token(TokenCloseTag, p, 1, p + 1)
    else if c == '<' then MarkupToken(s, p)
    else if c == '/' && At(s, p + 1) == '>' then Token(TokenShortHandClose, p, 2, p + 2)
    else TextToken(e, s, p, Advance(e, s, p))
  }

  /** The next token from `i` on.  Unless the text is used up, the tokenizer moves forward, and it never moves
      behind the terminator. */
  function NextToken(e: Encoding, s: string, i: nat): (t: Token)
    requires i <= |s|
    ensures i <= t.start <= t.next <= |s| && t.start + t.len <= t.next
    ensures t.kind != TokenError ==> i < t.next && t.start < t.next
    ensures t.kind == TokenText ==> 0 < t.len
  {
    TokenAt(e, s, SkipSpace(s, i))
  }

  /** The state of a parse: the text, the position of the tokenizer, the start of the text run that has not been
      added to a node yet, and what the levels of the recursion tell each other. */
  class Xml {
    const enc: Encoding
    const input: string
    var index: nat
    var textStart: Option<nat>
    var error: XMLError
    var missingEndTag: nat
    var endTag: nat
    var endTagLength: nat
    var first: bool

    constructor (enc: Encoding, text: string)
      ensures this.enc == enc && input == text && index == 0 && textStart == Some(0)
      ensures error == ErrorNone && missingEndTag == 0 && endTag == 0 && endTagLength == 0 && first
    {
      this.enc, input, index, textStart := enc, text, 0, Some(0);
      error, missingEndTag, endTag, endTagLength, first := ErrorNone, 0, 0, 0, true;
    }

    /** On a safe text the position stays inside the text. */
    ghost predicate Valid()
      reads this
    {
      Safe(enc, input) && index <= |input|
    }

    method GetNextChar() returns (ch: char)
      requires Valid()
      modifies this`index
      ensures Valid() && ch == At(input, old(index))
      ensures index == if ch == '\0' then old(index) else Advance(enc, input, old(index))
    {
      ch := At(input, index);
      index := index + CharLen(enc, ch);
    }

    method GetNextToken() returns (t: Token)
      requires Valid()
      modifies this`index
      ensures Valid() && t == NextToken(enc, input, old(index)) && index == t.next
    {
      hide QuoteEnd, TextEnd, MarkupToken;
      var indexStart := index;
      var ch := GetNextChar();
      while IsSpace(ch)
        invariant Valid() && indexStart <= |input| && ch == At(input, indexStart)
        invariant index == if ch == '\0' then indexStart else Advance(enc, input, indexStart)
        invariant SkipSpace(input, old(index)) == SkipSpace(input, indexStart)
        decreases |input| - indexStart
      {
        indexStart := index;
        ch := GetNextChar();
      }
      if ch == '\0' {
        return Token(TokenError, indexStart, 0, index);
      }
      if ch == '\'' || ch == '\"' {
        var found := FindQuote(ch);
        if found {
          return Token(TokenQuotedText, indexStart, index - indexStart, index);
        }
        index := indexStart + 1;
      } else if ch == '=' {
        return Token(TokenEquals, indexStart, index - indexStart, index);
      } else if ch == '>' {
        return Token(TokenCloseTag, indexStart, index - indexStart, index);
      } else if ch == '<' {
        t := ReadMarkup(indexStart);
        return;
      } else if ch == '/' && At(input, index) == '>' {
        var _ := GetNextChar();
        return Token(TokenShortHandClose, indexStart, index - indexStart, index);
      }
      var swallowed := ReadText();
      var start := if swallowed then indexStart + 1 else indexStart;
      t := Token(TokenText, indexStart, index - start, index);
    }

    /** What stands behind a `<`. */
    method ReadMarkup(indexStart: nat) returns (t: Token)
      requires Valid() && At(input, indexStart) == '<' && index == indexStart + 1
      modifies this`index
      ensures Valid() && t == MarkupToken(input, indexStart) && index == t.next
    {
      var clear := ClearAt(input, indexStart);
      if clear.Some? {
        index := index + |OpenTag(clear.value)| - 1;
        return Token(TokenClear(clear.value), indexStart, 0, index);
      }
      var peek := At(input, index);
      if peek == '/' || peek == '?' {
        var _ := GetNextChar();
      }
      var kind := if peek == '/' then TokenTagEnd else if peek == '?' then TokenDeclaration else TokenTagStart;
      t := Token(kind, indexStart, index - indexStart, index);
    }

    /** The search for the closing quote. */
    method FindQuote(q: char) returns (found: bool)
      requires Valid() && (q == '\'' || q == '\"')
      modifies this`index
      ensures Valid()
      ensures var end := QuoteEnd(enc, input, old(index), q);
              found == end.Some? && (found ==> index == end.value)
    {
      while true
        invariant Valid() && QuoteEnd(enc, input, old(index), q) == QuoteEnd(enc, input, index, q)
        decreases |input| - index
      {
        var ch := GetNextChar();
        if ch == '\0' || (ch != q && ch == '<') {
          return false;
        }
        if ch == q {
          return true;
        }
      }
    }

    /** The rest of a text token; the result says whether a white space was swallowed behind it. */
    method ReadText() returns (swallowed: bool)
      requires Valid()
      modifies this`index
      ensures Valid()
      ensures var end := TextEnd(enc, input, old(index));
              swallowed == IsSpace(At(input, end)) && index == if swallowed then end + 1 else end
    {
      while true
        invariant Valid() && TextEnd(enc, input, old(index)) == TextEnd(enc, input, index)
        decreases |input| - index
      {
        var ch := GetNextChar();
        if ch == '\0' {
          return false;
        }
        if IsSpace(ch) {
          return true;
        } else if ch == '/' {
          if At(input, index) == '>' {
            index := index - 1;
            return false;
          }
        } else if ch == '<' || ch == '>' || ch == '=' {
          index := index - 1;
          return false;
        }
      }
    }
  }
}
