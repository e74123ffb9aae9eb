/** The parser reads the content of a written element back, one part at a time.

    A text is no token.  The tokenizer cuts it up in words and signs, the parser passes over all of them, and the text
    is added only when markup follows.  So in front of a part the text before it may still be pending;
    `Ready` says where the parser stands, and what it has added by then.

    There is one result for each kind of part: `RunReads` for a text, `RawReads` for a clear tag and `SubReads` for a
    child, which leaves the inside of the child open.  `EndReads` and `EndOfTextReads` are for what stands behind the
    last part. */
module Contents {
  import opened Wrappers
  import opened CStrings
  import opened Escape
  import opened Lexer
  import opened Nodes
  import opened Grammar
  import opened Documents
  import opened Lexemes
  import opened Tags

  // ---------------------------------------------------------------- text runs

  /** The ends of an encoded text are not white space if the ends of the text are not. */
  lemma {:induction false} EncodedLast(e: Encoding, v: string, k: nat)
    requires Safe(e, v) && k < |v| && !IsSpace(v[|v| - 1])
    ensures var w := EncodeFrom(e, v, k); w != "" && !IsSpace(w[|w| - 1])
    decreases |v| - k
  {
    var j := Advance(e, v, k);
    EncodeUnfold(e, v, k);
    if j < |v| {
      EncodedLast(e, v, j);
    } else {
      EncodeDone(e, v);
      if Special(v[k]) {
        EntityAscii(v[k]);
      }
    }
  }

  lemma EncodedFirst(e: Encoding, v: string)
    requires v != "" && !IsSpace(v[0])
    ensures var w := Encode(e, v); w != "" && !IsSpace(w[0])
  {
    EncodeUnfold(e, v, 0);
    if Special(v[0]) {
      EntityAscii(v[0]);
    }
  }

  lemma {:induction false} TrimStartIs(s: string, p: nat, a: nat, pos: nat)
    requires Blank(s, p, a) && a <= pos <= |s| && (a < pos ==> !IsSpace(s[a]))
    ensures TrimStart(s, p, pos) == a
    decreases a - p
  {
    if p < a {
      TrimStartIs(s, p + 1, a, pos);
    }
  }

  /** Between `p` and `i` stands the encoded `text`, at `a`, with nothing but white space around it. */
  ghost predicate PendingRun(e: Encoding, s: string, p: nat, a: nat, i: nat, text: string) {
    Blank(s, p, a) && Has(s, a, Encode(e, text)) && Blank(s, a + |Encode(e, text)|, i)
  }

  ghost predicate HasPendingRun(e: Encoding, s: string, p: nat, i: nat, text: string) {
    exists a: nat :: PendingRun(e, s, p, a, i, text)
  }

  lemma BlankJoin(s: string, i: nat, j: nat, k: nat)
    requires Blank(s, i, j) && Blank(s, j, k)
    ensures Blank(s, i, k)
  {
  }

  lemma FlushRun(e: Encoding, s: string, st: State, items: seq<Item>, p: nat, a: nat, i: nat, text: string)
    requires st.text == Some(p) && PendingRun(e, s, p, a, i, text) && GoodText(e, text)
    ensures Flush(e, s, st, items, i) == Flushed(st.(text := None), AddTextItem(items, text), false)
  {
    hide Encode, EncodeFrom, Decode, AddTextItem;
    var w := Encode(e, text);
    EncodedFirst(e, text);
    RunLast(e, text);
    HasAt(s, a, w, 0);
    HasAt(s, a, w, |w| - 1);
    TrimStartIs(s, p, a, i);
    RoundTrip(e, text, s, a);
    CStringSafe(e, text);
  }

  lemma RunLast(e: Encoding, text: string)
    requires GoodText(e, text)
    ensures Encode(e, text) != "" && !IsSpace(Encode(e, text)[|Encode(e, text)| - 1])
  {
    EncodedLast(e, text, 0);
  }

  // ---------------------------------------------------------------- where the parser stands

  /** The parser stands at `i`, in front of part `k`: the parts before have been added to the node, except that a
      text run directly before is still pending. */
  ghost predicate Ready(e: Encoding, s: string, parts: seq<Part>, k: nat, i: nat, st: State, items: seq<Item>) {
    k <= |parts| && i <= |s| && st.idx == i && st.text.Some? && st.text.value <= i && st.cbEnd == 0
    && if k > 0 && parts[k - 1].Run?
       then GoodText(e, parts[k - 1].text) && HasPendingRun(e, s, st.text.value, i, parts[k - 1].text)
           && items == EraseTo(parts, k - 1)
       else Blank(s, st.text.value, i) && items == EraseTo(parts, k)
  }

  lemma ReadyText(e: Encoding, s: string, parts: seq<Part>, k: nat, i: nat, st: State, items: seq<Item>)
    requires Ready(e, s, parts, k, i, st, items)
    ensures InText(s, st) && st.idx == i && st.text.Some? && st.cbEnd == 0
  {
  }

  lemma ReadyFresh(e: Encoding, s: string, parts: seq<Part>, k: nat, st: State)
    requires k <= |parts| && st.idx <= |s| && st.text == Some(st.idx) && st.cbEnd == 0 && (k > 0 ==> !parts[k - 1].Run?)
    ensures Ready(e, s, parts, k, st.idx, st, EraseTo(parts, k))
  {
  }

  lemma EraseNext(parts: seq<Part>, k: nat)
    requires k < |parts|
    ensures EraseTo(parts, k + 1) == Join(EraseTo(parts, k), ErasePart(parts[k]))
    ensures !parts[k].Run? ==> EraseTo(parts, k + 1) == EraseTo(parts, k) + [ErasePart(parts[k])]
    ensures parts[k].Run? ==> EraseTo(parts, k + 1) == AddTextItem(EraseTo(parts, k), parts[k].text)
  {
    hide AddTextItem, Erase;
  }

  /** Behind white space the pending text run is added, or joined with the text before a comment. */
  lemma FlushReady(e: Encoding, s: string, parts: seq<Part>, k: nat, i: nat, j: nat, st: State, items: seq<Item>,
                   idx: nat)
    requires Ready(e, s, parts, k, i, st, items) && Separated(parts) && Blank(s, i, j) && j <= idx <= |s|
    ensures Flush(e, s, st.(idx := idx), items, j) == Flushed(st.(idx := idx, text := None), EraseTo(parts, k), false)
  {
    var p := st.text.value;
    hide Flush, EraseTo, GoodText, Encode;
    if k > 0 && parts[k - 1].Run? {
      var text := parts[k - 1].text;
      var a: nat :| PendingRun(e, s, p, a, i, text);
      BlankJoin(s, a + |Encode(e, text)|, i, j);
      FlushRun(e, s, st.(idx := idx), items, p, a, j, text);
      EraseNext(parts, k - 1);
    } else {
      BlankJoin(s, p, i, j);
    }
  }

  // ---------------------------------------------------------------- single parts

  lemma ClearAtIs(s: string, i: nat, k: ClearKind)
    requires Has(s, i, OpenTag(k))
    ensures ClearAt(s, i) == Some(k)
  {
    hide ClearAt, Has, OpenTag;
    HasAt(s, i, OpenTag(k), 1);
    HasAt(s, i, OpenTag(k), 2);
    var r := ClearAt(s, i).value;
    HasAt(s, i, OpenTag(r), 1);
    HasAt(s, i, OpenTag(r), 2);
    OpenTagsDiffer(k, r);
  }

  lemma OpenTagsDiffer(k: ClearKind, r: ClearKind)
    requires OpenTag(k)[1] == OpenTag(r)[1] && OpenTag(k)[2] == OpenTag(r)[2]
    ensures k == r
  {
  }

  lemma SliceSlice<T>(s: seq<T>, i: nat, n: nat, m: nat, l: nat)
    requires i + n <= |s| && m + l <= n
    ensures s[i..i + n][m..m + l] == s[i + m..i + m + l]
  {
    var a, b := s[i..i + n][m..m + l], s[i + m..i + m + l];
    forall x | 0 <= x < l ensures a[x] == b[x] {
      assert s[i..i + n][m + x] == s[i + (m + x)];
    }
  }

  /** A window of `s` that shows `w` shows what `w` shows. */
  lemma HasShift(s: string, i: nat, w: string, m: nat, c: string)
    requires Has(s, i, w) && m + |c| <= |w|
    ensures Has(s, i + m, c) <==> Has(w, m, c)
  {
    SliceSlice(s, i, |w|, m, |c|);
  }

  lemma FindShift(s: string, i: nat, text: string, close: string)
    requires Has(s, i, text + close) && Find(text + close, 0, close) == Some(|text|)
    ensures Find(s, i, close) == Some(i + |text|)
  {
    var w := text + close;
    HasShift(s, i, w, |text|, close);
    var r := Find(s, i, close);
    if r.value < i + |text| {
      HasShift(s, i, w, r.value - i, close);
    }
  }

  lemma {:induction false} DocTypeEndShift(e: Encoding, s: string, i: nat, text: string, bracket: bool, m: nat)
    requires Safe(e, text) && m <= |text|
    requires var w := text + ClearClose(DocType, bracket);
             Has(s, i, w) && DocTypeEnd(e, w, m, 0) == Some((|text|, bracket))
    ensures i + m <= |s| && DocTypeEnd(e, s, i + m, i) == Some((i + |text|, bracket))
    decreases |text| - m
  {
    hide Find, Safe, Has, Advance;
    var close := ClearClose(DocType, bracket);
    var w := text + close;
    HasAt(s, i, w, m);
    HasWord(s, i, w);
    if w[m] == '<' {
      FindShift(s, i, text, "]>");
    } else if w[m] != '>' {
      assert m < |text|;
      AdvanceShift(e, s, i, text, close, m);
      DocTypeEndShift(e, s, i, text, bracket, Advance(e, text, m));
    }
  }

  lemma AdvanceShift(e: Encoding, s: string, i: nat, text: string, close: string, m: nat)
    requires Safe(e, text) && m < |text| && Has(s, i, text + close)
    ensures i + m < |s| && Advance(e, s, i + m) == i + Advance(e, text, m)
            && Advance(e, text + close, m) == Advance(e, text, m)
  {
    HasAt(s, i, text + close, m);
  }

  lemma ClearEndShift(e: Encoding, s: string, i: nat, c: ClearText)
    requires GoodClear(e, c) && Has(s, i, c.text + ClearClose(c.tag, c.bracket))
    ensures ClearEnd(e, s, i, c.tag) == Some((i + |c.text|, c.bracket))
  {
    hide Has, Find, DocTypeEnd, Safe, ClearEnd, GoodClear, CloseTag, ClearClose;
    var close := ClearClose(c.tag, c.bracket);
    HasWord(s, i, c.text + close);
    ClearEnds(e, c);
    ClearEndKinds(e, s, i, c.tag);
    if c.tag == DocType {
      DocTypeEndShift(e, s, i, c.text, c.bracket, 0);
    } else {
      FindShift(s, i, c.text, close);
    }
  }

  /** A good clear tag ends at its end when it stands alone. */
  lemma ClearEnds(e: Encoding, c: ClearText)
    requires GoodClear(e, c)
    ensures Safe(e, c.text)
    ensures var w := c.text + ClearClose(c.tag, c.bracket);
            c.tag == DocType ==> DocTypeEnd(e, w, 0, 0) == Some((|c.text|, c.bracket))
    ensures c.tag != DocType ==> !c.bracket && ClearClose(c.tag, c.bracket) == CloseTag(c.tag)
    ensures var close := ClearClose(c.tag, c.bracket);
            c.tag != DocType ==> Find(c.text + close, 0, close) == Some(|c.text|)
  {
    var close := ClearClose(c.tag, c.bracket);
    ClearEndKinds(e, c.text + close, 0, c.tag);
    hide Safe, Find, DocTypeEnd, ClearEnd;
  }

  lemma ClearEndKinds(e: Encoding, s: string, i: nat, k: ClearKind)
    requires i <= |s|
    ensures k == DocType ==> ClearEnd(e, s, i, k) == DocTypeEnd(e, s, i, i)
    ensures var end := Find(s, i, CloseTag(k));
            k != DocType ==> ClearEnd(e, s, i, k) == if end.None? then None else Some((end.value, false))
  {
    hide DocTypeEnd, Find;
  }

  /** A walk from `i` comes to `m` and meets neither `<` nor `>` before. */
  predicate Passes(e: Encoding, s: string, i: nat, m: nat)
    decreases m - i
  {
    i <= m <= |s| && (i < m ==> At(s, i) !in "<>\0" && Passes(e, s, Advance(e, s, i), m))
  }

  /** Where a `<!DOCTYPE` ends: at a `>`, unless a `<` comes before it; then at the first `]>` of all its text. */
  lemma {:induction false} DocTypeExactly(e: Encoding, s: string, i: nat, m: nat, from: nat)
    requires from <= i && Passes(e, s, i, m)
    ensures At(s, m) == '>' ==> DocTypeEnd(e, s, i, from) == Some((m, false))
    ensures At(s, m) == '<' ==>
      var end := Find(s, from, "]>"); DocTypeEnd(e, s, i, from) == if end.None? then None else Some((end.value, true))
    ensures At(s, m) == '\0' ==> DocTypeEnd(e, s, i, from) == None
    decreases m - i
  {
    hide Find;
    if i < m {
      DocTypeExactly(e, s, Advance(e, s, i), m, from);
    }
  }

  /** A written clear tag, for the tokenizer. */
  lemma ClearToken(e: Encoding, s: string, i: nat, j: nat, k: ClearKind)
    requires Blank(s, i, j) && Has(s, j, OpenTag(k))
    ensures NextToken(e, s, i) == Token(TokenClear(k), j, 0, j + |OpenTag(k)|)
  {
    SkipBlank(e, s, i, j);
    ClearAtIs(s, j, k);
    HasAt(s, j, OpenTag(k), 0);
  }

  /** The content parser reads a clear tag. */
  lemma ContentClear(e: Encoding, s: string, st: State, node: Elem, depth: nat, items: seq<Item>, k: ClearKind,
                     end: (nat, bool))
    requires InText(s, st) && NextToken(e, s, st.idx).kind == TokenClear(k)
    requires var t := NextToken(e, s, st.idx);
             && Flush(e, s, st.(idx := t.next), node.items, t.start)
                 == Flushed(st.(idx := t.next, text := None), items, false)
             && ClearEnd(e, s, t.next, k) == Some(end)
    ensures var t := NextToken(e, s, st.idx);
            var next := end.0 + |ClearClose(k, end.1)|;
            t.next <= end.0 && next <= |s|
            && ParseContent(e, s, st, node, depth)
               == ParseContent(e, s, st.(idx := next, text := Some(next)),
                               node.(items := AddClearItem(items, k, s[t.next..end.0], end.1)), depth)
  {
    hide TokenAt, ClearEnd, Flush, AddClearItem, ClearClose, AtEnd, ParseChild, ParseEndTag;
  }

  /** A written clear tag behind a gap: where its token, its text and its end are. */
  lemma ClearLexes(e: Encoding, s: string, i: nat, gap: string, c: ClearText)
    requires AllSpace(gap) && GoodClear(e, c) && Has(s, i, gap + WriteClear(c))
    ensures var j, k := i + |gap|, i + |gap| + |OpenTag(c.tag)|;
            && k + |c.text| + |ClearClose(c.tag, c.bracket)| == i + |gap + WriteClear(c)| <= |s|
            && Blank(s, i, j) && NextToken(e, s, i) == Token(TokenClear(c.tag), j, 0, k)
            && ClearEnd(e, s, k, c.tag) == Some((k + |c.text|, c.bracket)) && s[k..k + |c.text|] == c.text
  {
    hide OpenTag, ClearClose, NextToken, ClearEnd;
    var open, close := OpenTag(c.tag), ClearClose(c.tag, c.bracket);
    var j := i + |gap|;
    Assoc(open, c.text, close);
    HasAppend(s, i, gap, open + (c.text + close));
    HasAppend(s, j, open, c.text + close);
    HasAppend(s, j + |open|, c.text, close);
    BlankGap(s, i, gap);
    ClearToken(e, s, i, j, c.tag);
    ClearEndShift(e, s, j + |open|, c);
  }

  lemma GapOf(parts: seq<Part>, k: nat)
    requires Separated(parts) && k < |parts|
    ensures AllSpace(parts[k].gap)
  {
  }

  /** A clear tag of any kind without a text ends the text before it and leaves no trace. */
  lemma EmptyClearReads(e: Encoding, s: string, parts: seq<Part>, n: nat, st: State, node: Elem, depth: nat,
                        gap: string, k: ClearKind)
    requires n <= |parts| && Separated(parts) && InText(s, st) && Ready(e, s, parts, n, st.idx, st, node.items)
    requires AllSpace(gap) && Has(s, st.idx, gap + (OpenTag(k) + CloseTag(k)))
    ensures var next := st.idx + |gap| + |OpenTag(k)| + |CloseTag(k)|;
            next <= |s|
            && ParseContent(e, s, st, node, depth)
               == ParseContent(e, s, st.(idx := next, text := Some(next)), node.(items := EraseTo(parts, n)), depth)
  {
    hide NextToken, ParseContent, EraseTo, Flush, Ready, Separated, Has, Blank, OpenTag, CloseTag, ClearEnd, ClearClose;
    var j := st.idx + |gap|;
    var i := j + |OpenTag(k)|;
    HasAppend(s, st.idx, gap, OpenTag(k) + CloseTag(k));
    HasAppend(s, j, OpenTag(k), CloseTag(k));
    BlankGap(s, st.idx, gap);
    ClearToken(e, s, st.idx, j, k);
    FlushReady(e, s, parts, n, st.idx, j, st, node.items, i);
    EndsAtOnce(e, s, i, k);
    ContentClear(e, s, st, node, depth, EraseTo(parts, n), k, (i, false));
    assert s[i..i] == "";
  }

  lemma EndsAtOnce(e: Encoding, s: string, i: nat, k: ClearKind)
    requires Has(s, i, CloseTag(k))
    ensures i + |CloseTag(k)| <= |s| && ClearEnd(e, s, i, k) == Some((i, false)) && ClearClose(k, false) == CloseTag(k)
  {
    if k == DocType {
      HasAt(s, i, CloseTag(k), 0);
    }
  }

  /** A clear tag is read. */
  lemma RawReads(e: Encoding, s: string, parts: seq<Part>, k: nat, st: State, node: Elem, depth: nat, next: nat)
    requires k < |parts| && parts[k].Raw? && Separated(parts) && GoodClear(e, parts[k].clear) && InText(s, st)
    requires Ready(e, s, parts, k, st.idx, st, node.items) && Has(s, st.idx, WritePart(e, parts[k]))
    requires next == st.idx + |WritePart(e, parts[k])|
    ensures next <= |s|
    ensures ParseContent(e, s, st, node, depth)
         == ParseContent(e, s, st.(idx := next, text := Some(next)), node.(items := EraseTo(parts, k + 1)), depth)
  {
    hide OpenTag, ClearClose, NextToken, ParseContent, ClearEnd, EraseTo, Flush, WriteClear, GoodClear, Ready, Blank,
         Separated, Has;
    var gap, c := parts[k].gap, parts[k].clear;
    GapOf(parts, k);
    ClearLexes(e, s, st.idx, gap, c);
    var j := st.idx + |gap|;
    var m := j + |OpenTag(c.tag)|;
    FlushReady(e, s, parts, k, st.idx, j, st, node.items, m);
    ContentClear(e, s, st, node, depth, EraseTo(parts, k), c.tag, (m + |c.text|, c.bracket));
    EraseNext(parts, k);
    ClearNotEmpty(e, c);
  }

  lemma ClearNotEmpty(e: Encoding, c: ClearText)
    requires GoodClear(e, c)
    ensures c.text != ""
  {
  }

  /** A text run is passed over; it stays pending. */
  lemma RunReads(e: Encoding, s: string, parts: seq<Part>, k: nat, i: nat, st: State, node: Elem, depth: nat)
    returns (next: nat, st1: State)
    requires k < |parts| && parts[k].Run? && Separated(parts) && GoodText(e, parts[k].text)
    requires Ready(e, s, parts, k, i, st, node.items) && Has(s, i, WritePart(e, parts[k]))
    ensures next == i + |WritePart(e, parts[k])| && st1 == st.(idx := next)
    ensures Ready(e, s, parts, k + 1, next, st1, node.items)
    ensures ParseContent(e, s, st, node, depth) == ParseContent(e, s, st1, node, depth)
  {
    hide ParseContent, Encode, EncodeFrom, EraseTo, NextLess;
    var gap, text := parts[k].gap, parts[k].text;
    var j := i + |gap|;
    next := i + |WritePart(e, parts[k])|;
    st1 := st.(idx := next);
    HasAppend(s, i, gap, Encode(e, text));
    BlankGap(s, i, gap);
    BlankJoin(s, st.text.value, i, j);
    assert PendingRun(e, s, st.text.value, j, next, text);
    LessBlank(e, s, i, j);
    LessEncodedAll(e, s, j, text);
    ContentSkips(e, s, st, node, depth);
    ContentSkips(e, s, st1, node, depth);
  }

  lemma LessEncodedAll(e: Encoding, s: string, i: nat, text: string)
    requires Safe(e, text) && Has(s, i, Encode(e, text))
    ensures NextLess(e, s, i) == NextLess(e, s, i + |Encode(e, text)|)
  {
    LessEncoded(e, s, i, text, 0);
  }

  // ---------------------------------------------------------------- start tags

  /** The start tag of an element. */
  function Head(e: Encoding, d: Doc): string {
    WriteOpen(d) + (d.name + TagRest(e, d, 0))
  }

  /** An element that the tokenizer takes for an element. */
  ghost predicate GoodHead(e: Encoding, d: Doc) {
    GoodTag(e, d) && PlainName(e, d.name) && (d.name == "PRE" && d.attributes == [] ==> d.ending == Short)
  }

  /** Behind its name an element goes on with white space or the end of its start tag. */
  lemma HeadStops(e: Encoding, s: string, i: nat, d: Doc)
    requires GoodHead(e, d) && Has(s, i, TagRest(e, d, 0))
    ensures TextStop(s, i)
    ensures d.attributes != [] ==> At(s, i) == ' '
    ensures d.attributes == [] ==> Has(s, i, if d.ending == Short then "/>" else ">")
  {
    LastRest(e, d);
    hide TagRest, WriteAttributes, PlainName, GoodAttribute, Has;
    if d.attributes != [] {
      RestFirst(e, d);
      HasAt(s, i, TagRest(e, d, 0), 0);
    } else {
      var close := if d.ending == Short then "/>" else ">";
      HasAt(s, i, close, 0);
      HasAt(s, i, close, |close| - 1);
    }
  }

  lemma RestFirst(e: Encoding, d: Doc)
    requires d.attributes != []
    ensures TagRest(e, d, 0) != "" && TagRest(e, d, 0)[0] == ' '
  {
    hide TagRest, NameWord, Encode;
    TagRestSplit(e, d, 0);
  }

  /** The start tag is not one of the clear tags. */
  lemma NoClear(e: Encoding, s: string, i: nat, d: Doc)
    requires GoodHead(e, d) && !d.isDeclaration && Has(s, i, "<") && Has(s, i + 1, d.name)
             && Has(s, i + 1 + |d.name|, TagRest(e, d, 0))
    ensures ClearAt(s, i) == None
  {
    hide TagRest, ClearAt, TextStop, GoodAttribute;
    HasAt(s, i + 1, d.name, 0);
    HeadStops(e, s, i + 1 + |d.name|, d);
    NoPre(e, s, i, d);
    forall k: ClearKind ensures !Has(s, i, OpenTag(k)) {
      if k != Pre {
        NoBang(s, i, k);
      }
    }
  }

  lemma NoBang(s: string, i: nat, k: ClearKind)
    requires k != Pre && At(s, i + 1) != '!'
    ensures !Has(s, i, OpenTag(k))
  {
    if Has(s, i, OpenTag(k)) {
      HasAt(s, i, OpenTag(k), 1);
    }
  }

  /** A name behind the `<` of a `<PRE>` is that of the tag, or is cut off within it, or goes on with its `>`. */
  lemma PreLetters(s: string, i: nat, name: string)
    requires Has(s, i, "<PRE>") && Has(s, i + 1, name)
    ensures |name| > 3 ==> name[3] == '>'
    ensures |name| <= 3 ==> At(s, i + 1 + |name|) == "PRE>"[|name|]
    ensures |name| == 3 ==> name == "PRE"
  {
    HasAt(s, i, "<PRE>", 1);
    HasAt(s, i, "<PRE>", 2);
    HasAt(s, i, "<PRE>", 3);
    HasAt(s, i, "<PRE>", 4);
    if |name| > 3 {
      HasAt(s, i + 1, name, 3);
    } else if |name| == 3 {
      HasAt(s, i + 1, name, 0);
      HasAt(s, i + 1, name, 1);
      HasAt(s, i + 1, name, 2);
    }
  }

  lemma NoPre(e: Encoding, s: string, i: nat, d: Doc)
    requires GoodHead(e, d) && Has(s, i + 1, d.name)
    requires TextStop(s, i + 1 + |d.name|) && (d.attributes != [] ==> At(s, i + 1 + |d.name|) == ' ')
    requires d.attributes == [] ==> Has(s, i + 1 + |d.name|, if d.ending == Short then "/>" else ">")
    ensures !Has(s, i, OpenTag(Pre))
  {
    if d.attributes == [] {
      HasAt(s, i + 1 + |d.name|, if d.ending == Short then "/>" else ">", 0);
    }
    if Has(s, i, OpenTag(Pre)) {
      PreLetters(s, i, d.name);
    }
  }

  /** A written start tag behind a gap, piece by piece. */
  lemma HeadPieces(e: Encoding, s: string, i: nat, gap: string, d: Doc)
    requires Has(s, i, gap + Head(e, d))
    ensures var q := i + |gap| + |WriteOpen(d)|;
            && q + |d.name| + |TagRest(e, d, 0)| == i + |gap + Head(e, d)| <= |s|
            && Has(s, i, gap) && Has(s, i + |gap|, WriteOpen(d)) && Has(s, q, d.name)
                && Has(s, q + |d.name|, TagRest(e, d, 0))
  {
    hide TagRest, WriteOpen;
    var open, rest := WriteOpen(d), TagRest(e, d, 0);
    HasAppend(s, i, gap, open + (d.name + rest));
    HasAppend(s, i + |gap|, open, d.name + rest);
    HasAppend(s, i + |gap| + |open|, d.name, rest);
  }

  /** A written start tag behind a gap, for the tokenizer. */
  lemma StartLexes(e: Encoding, s: string, i: nat, gap: string, d: Doc)
    requires AllSpace(gap) && GoodHead(e, d) && Has(s, i, gap + Head(e, d))
    ensures var j := i + |gap|;
            var q := j + |WriteOpen(d)|;
            && Blank(s, i, j)
            && NextToken(e, s, i)
                == Token(if d.isDeclaration then TokenDeclaration else TokenTagStart, j, |WriteOpen(d)|, q)
            && q <= |s|
            && var n := NextToken(e, s, q);
               n.kind == TokenText && n.start == q && n.len == |d.name| && Blank(s, q + |d.name|, n.next)
  {
    hide TagRest, WriteOpen, NextToken, Head, Has, PlainName, GoodAttribute, TextStop, Blank, AllSpace;
    HeadPieces(e, s, i, gap, d);
    PlainHead(e, d);
    var j := i + |gap|;
    var q := j + |WriteOpen(d)|;
    BlankGap(s, i, gap);
    SkipBlank(e, s, i, j);
    HeadStops(e, s, q + |d.name|, d);
    StartToken(e, s, j, d);
    WordToken(e, s, q, d.name);
    Swallowed(s, q + |d.name|);
  }

  lemma Swallowed(s: string, i: nat)
    requires i <= |s|
    ensures Blank(s, i, if IsSpace(At(s, i)) then i + 1 else i)
  {
  }

  lemma PlainHead(e: Encoding, d: Doc)
    requires GoodHead(e, d)
    ensures PlainWord(e, d.name)
  {
    hide PlainWord, GoodAttribute;
  }

  lemma StartToken(e: Encoding, s: string, j: nat, d: Doc)
    requires GoodHead(e, d) && Has(s, j, WriteOpen(d)) && Has(s, j + |WriteOpen(d)|, d.name)
    requires Has(s, j + |WriteOpen(d)| + |d.name|, TagRest(e, d, 0))
    ensures NextToken(e, s, j)
            == Token(if d.isDeclaration then TokenDeclaration else TokenTagStart, j, |WriteOpen(d)|, j + |WriteOpen(d)|)
  {
    hide TagRest, ClearAt, Has, PlainName, GoodAttribute, NextToken;
    HasAt(s, j, WriteOpen(d), 0);
    if d.isDeclaration {
      HasAt(s, j, "<?", 1);
      SecondNoClear(s, j);
    } else {
      NameFirst(e, s, j + 1, d);
      NoClear(e, s, j, d);
    }
    MarkupOpens(e, s, j);
  }

  lemma MarkupOpens(e: Encoding, s: string, j: nat)
    requires At(s, j) == '<' && ClearAt(s, j) == None && At(s, j + 1) != '/'
    ensures NextToken(e, s, j) == if At(s, j + 1) == '?' then Token(TokenDeclaration, j, 2, j + 2)
            else Token(TokenTagStart, j, 1, j + 1)
  {
    hide ClearAt;
  }

  lemma NameFirst(e: Encoding, s: string, i: nat, d: Doc)
    requires GoodHead(e, d) && Has(s, i, d.name)
    ensures At(s, i) != '?' && At(s, i) != '/'
  {
    HasAt(s, i, d.name, 0);
  }

  lemma SecondNoClear(s: string, i: nat)
    requires At(s, i + 1) == '?' || At(s, i + 1) == '/'
    ensures ClearAt(s, i) == None
  {
    hide ClearAt, Has, OpenTag;
    forall k: ClearKind ensures !Has(s, i, OpenTag(k)) {
      SecondSign(k);
      if Has(s, i, OpenTag(k)) {
        HasAt(s, i, OpenTag(k), 1);
      }
    }
  }

  lemma SecondSign(k: ClearKind)
    ensures |OpenTag(k)| > 1 && (OpenTag(k)[1] == '!' || (OpenTag(k)[1] == 'P' && k == Pre))
  {
  }

  /** The content parser comes to a child. */
  lemma ContentChild(e: Encoding, s: string, st: State, node: Elem, depth: nat, items: seq<Item>)
    requires InText(s, st) && NextToken(e, s, st.idx).kind in {TokenTagStart, TokenDeclaration}
    requires var t := NextToken(e, s, st.idx);
             && Flush(e, s, st.(idx := t.next), node.items, t.start)
                 == Flushed(st.(idx := t.next, text := None), items, false)
             && NextToken(e, s, t.next).kind == TokenText
    ensures var t := NextToken(e, s, st.idx);
            var n := NextToken(e, s, t.next);
            var child := Elem(Some(s[n.start..n.start + n.len]), t.kind == TokenDeclaration, [], []);
            var c := ParseElement(e, s, st.(idx := n.next, text := None), child, depth + 1);
            ParseContent(e, s, st, node, depth) == AfterChild(e, s, c, node.(items := items + [Child(c.node)]), depth)
  {
    hide TokenAt, ClearEnd, Flush, AddClearItem, AtEnd, ParseElement, AfterChild, ParseEndTag;
  }

  /** What the parser makes of a child whose start tag ends at `end`. */
  function ChildOf(e: Encoding, s: string, st: State, d: Doc, depth: nat, end: nat): (c: Parsed)
    requires end <= |s|
    ensures InText(s, c.st)
  {
    var node := Elem(Some(d.name), d.isDeclaration, d.attributes, []);
    AfterTag(e, s, Tag(st.(idx := end, text := Some(end)), node, TagEnding(d, depth)), depth)
  }

  /** The start tag of a child is read. */
  lemma ElementReads(e: Encoding, s: string, d: Doc, i: nat, q: nat, st: State, depth: nat)
    requires GoodTag(e, d) && InText(s, st) && st.text.None? && st.idx == i && Blank(s, q, i)
             && Has(s, q, TagRest(e, d, 0))
    ensures q + |TagRest(e, d, 0)| <= |s|
    ensures ParseElement(e, s, st, Elem(Some(d.name), d.isDeclaration, [], []), depth)
         == ChildOf(e, s, st, d, depth, q + |TagRest(e, d, 0)|)
  {
    hide NextToken, ParseTag, TagRest, AfterTag;
    var node := Elem(Some(d.name), d.isDeclaration, [], []);
    assert d.attributes[..0] == [];
    TagUnswallow(e, s, st.(idx := q), i, node, depth, WantName);
    TagReads(e, s, d, 0, q, WantName, st.(idx := q), node, depth);
  }

  lemma SubReads(e: Encoding, s: string, parts: seq<Part>, k: nat, st: State, node: Elem, depth: nat)
    requires k < |parts| && parts[k].Sub? && Separated(parts) && GoodHead(e, parts[k].doc) && InText(s, st)
    requires Ready(e, s, parts, k, st.idx, st, node.items) && Has(s, st.idx, parts[k].gap + Head(e, parts[k].doc))
    ensures var end := st.idx + |parts[k].gap + Head(e, parts[k].doc)|;
            end <= |s|
            && var c := ChildOf(e, s, st, parts[k].doc, depth + 1, end);
               ParseContent(e, s, st, node, depth)
                   == AfterChild(e, s, c, node.(items := EraseTo(parts, k) + [Child(c.node)]), depth)
  {
    hide NextToken, ParseContent, EraseTo, Flush, Ready, Separated, ParseElement, AfterChild, ChildOf, TagRest, Head,
         Blank, GoodHead, WriteOpen, Has;
    var gap, d := parts[k].gap, parts[k].doc;
    GapOf(parts, k);
    HeadPieces(e, s, st.idx, gap, d);
    StartLexes(e, s, st.idx, gap, d);
    var t := NextToken(e, s, st.idx);
    FlushReady(e, s, parts, k, st.idx, t.start, st, node.items, t.next);
    ContentChild(e, s, st, node, depth, EraseTo(parts, k));
    SubElement(e, s, st, d, t.next, depth + 1);
    HasWord(s, t.next, d.name);
  }

  lemma SubElement(e: Encoding, s: string, st: State, d: Doc, q: nat, depth: nat)
    requires GoodHead(e, d) && q <= |s| && Has(s, q + |d.name|, TagRest(e, d, 0))
    requires var n := NextToken(e, s, q); Blank(s, q + |d.name|, n.next)
    ensures var end := q + |d.name| + |TagRest(e, d, 0)|;
            end <= |s| && ParseElement(e, s, st.(idx := NextToken(e, s, q).next, text := None),
                                       Elem(Some(d.name), d.isDeclaration, [], []), depth)
                          == ChildOf(e, s, st, d, depth, end)
  {
    hide NextToken, ParseElement, ChildOf, TagRest;
    var n := NextToken(e, s, q);
    ElementReads(e, s, d, n.next, q + |d.name|, st.(idx := n.next, text := None), depth);
    SameChild(e, s, st, d, depth, n.next, q + |d.name| + |TagRest(e, d, 0)|);
  }

  lemma SameChild(e: Encoding, s: string, st: State, d: Doc, depth: nat, i: nat, end: nat)
    requires end <= |s|
    ensures ChildOf(e, s, st.(idx := i, text := None), d, depth, end) == ChildOf(e, s, st, d, depth, end)
  {
    hide AfterTag;
  }

  // ---------------------------------------------------------------- the end of the parts

  /** What follows the parts: the end tag of this element or of one around it, the end of the text, or something that is
      wrong with a tag or with a text. */
  datatype Stop = EndTag(name: string) | EndOfText | Broken(error: XMLError) | BadText(error: XMLError)

  ghost predicate StopsAt(e: Encoding, s: string, z: nat, stop: Stop) {
    match stop
    case EndTag(x) => Has(s, z, WriteEnd(x))
    case EndOfText => z == |s|
    case Broken(error) => BrokenAt(e, s, z, error)
    case BadText(error) => BadTextAt(e, s, z, error)
  }

  /** A text up to the next `<` that cannot be decoded. */
  predicate BadTextAt(e: Encoding, s: string, z: nat, error: XMLError) {
    z < |s| && !IsSpace(s[z])
    && var y := NextLess(e, s, z);
       z < y && (y == |s| || s[y] == '<')
       && var d := Decode(e, s, z, TrimEnd(s, z, y) - z);
          d.Err? && error == if d.error == CodeAbove255 then ErrorCharacterCodeAbove255
                             else ErrorUnknownCharacterEntity
  }

  /** A clear tag that is not closed, a tag without a name, or an end tag without a name or without an end. */
  predicate BrokenAt(e: Encoding, s: string, z: nat, error: XMLError) {
    z < |s| && s[z] == '<'
    && var t := NextToken(e, s, z);
       t.start == z
       && match t.kind
          case TokenClear(k) => ClearEnd(e, s, t.next, k).None? && error == ErrorUnmatchedEndClearTag
          case TokenTagStart => NextToken(e, s, t.next).kind != TokenText && error == ErrorMissingTagName
          case TokenDeclaration => NextToken(e, s, t.next).kind != TokenText && error == ErrorMissingTagName
          case TokenTagEnd =>
            var n := NextToken(e, s, t.next);
            (n.kind != TokenText || NextToken(e, s, n.next).kind != TokenCloseTag) && error == ErrorMissingEndTagName
          case _ => false
  }

  /** For plain names the comparison of tags is the comparison of names, whatever ends the tag. */
  lemma TagMatchesAny(e: Encoding, s: string, i: nat, x: string, name: string)
    requires PlainName(e, x) && PlainName(e, name) && Has(s, i, x) && i + |x| < |s|
    requires IsSpace(s[i + |x|]) || s[i + |x|] in "/<>="
    ensures TagMatches(Some(name), s, i) <==> SameName(name, x)
  {
    forall k | 0 <= k < |x| ensures At(s, i + k) == x[k] {
      HasAt(s, i, x, k);
    }
    if |name| < |x| {
      assert PlainChar(At(s, i + |name|)) && !TagMatches(Some(name), s, i);
    }
    if TagMatches(Some(name), s, i) {
      if |x| < |name| {
        PrefixAt(s, i, name, |x|);
      }
      forall k | 0 <= k < |name| && k < |x| ensures Lower(name[k]) == Lower(x[k]) {
        PrefixAt(s, i, name, k);
      }
    }
    if SameName(name, x) {
      forall k | 0 <= k < |name| ensures Lower(At(s, i + k)) == Lower(name[k]) {
        assert At(s, i + k) == x[k];
      }
    }
  }

  lemma TagMatchesName(e: Encoding, s: string, i: nat, x: string, name: string)
    requires PlainName(e, x) && PlainName(e, name) && Has(s, i, x + ">")
    ensures TagMatches(Some(name), s, i) <==> SameName(name, x)
  {
    hide TagMatches, SameName, PlainName;
    HasAppend(s, i, x, ">");
    HasAt(s, i + |x|, ">", 0);
    TagMatchesAny(e, s, i, x, name);
  }

  lemma EndTagTokens(e: Encoding, s: string, i: nat, z: nat, x: string)
    requires PlainName(e, x) && Blank(s, i, z) && Has(s, z, WriteEnd(x))
    ensures z + |x| + 3 <= |s|
    ensures NextToken(e, s, i) == Token(TokenTagEnd, z, 2, z + 2)
    ensures NextToken(e, s, z + 2) == Token(TokenText, z + 2, |x|, z + 2 + |x|)
    ensures NextToken(e, s, z + 2 + |x|) == Token(TokenCloseTag, z + 2 + |x|, 1, z + 3 + |x|)
    ensures Has(s, z + 2, x + ">")
  {
    hide TokenAt, NextToken;
    Assoc("</", x, ">");
    HasAppend(s, z, "</", x + ">");
    HasAppend(s, z + 2, x, ">");
    HasAt(s, z + 2 + |x|, ">", 0);
    SkipBlank(e, s, i, z);
    EndTagToken(e, s, z);
    WordToken(e, s, z + 2, x);
    CloseToken(e, s, z + 2 + |x|, ">");
  }

  lemma EndTagToken(e: Encoding, s: string, z: nat)
    requires Has(s, z, "</")
    ensures NextToken(e, s, z) == Token(TokenTagEnd, z, 2, z + 2)
  {
    HasAt(s, z, "</", 0);
    HasAt(s, z, "</", 1);
    SecondNoClear(s, z);
    hide ClearAt;
  }

  /** The content parser comes to an end tag. */
  lemma ContentEnd(e: Encoding, s: string, st: State, node: Elem, depth: nat, items: seq<Item>, z: nat, x: string)
    requires InText(s, st) && z + |x| + 3 <= |s| && x != ""
    requires NextToken(e, s, st.idx) == Token(TokenTagEnd, z, 2, z + 2)
    requires NextToken(e, s, z + 2) == Token(TokenText, z + 2, |x|, z + 2 + |x|)
    requires NextToken(e, s, z + 2 + |x|) == Token(TokenCloseTag, z + 2 + |x|, 1, z + 3 + |x|)
    requires Flush(e, s, st.(idx := z + 2), node.items, z) == Flushed(st.(idx := z + 2, text := None), items, false)
    ensures var end := z + |x| + 3;
            var st1 := st.(idx := end, text := Some(end));
            ParseContent(e, s, st, node, depth)
            == Parsed(if TagMatches(node.name, s, z + 2) then st1
                      else st1.(error := ErrorMissingEndTag, missing := end, endTag := z + 2, cbEnd := |x|),
                      node.(items := items), true)
  {
    hide TokenAt, ClearEnd, Flush, AddClearItem, AtEnd, ParseChild, TagMatches;
  }

  /** All parts are read and an end tag follows. */
  lemma EndReads(e: Encoding, s: string, parts: seq<Part>, z: nat, x: string, st: State, node: Elem, depth: nat)
    requires Separated(parts) && InText(s, st) && Ready(e, s, parts, |parts|, st.idx, st, node.items)
    requires Blank(s, st.idx, z) && PlainName(e, x) && Has(s, z, WriteEnd(x))
    ensures z + |x| + 3 <= |s|
    ensures var end := z + |x| + 3;
            var st1 := st.(idx := end, text := Some(end));
            ParseContent(e, s, st, node, depth)
            == Parsed(if TagMatches(node.name, s, z + 2) then st1
                      else st1.(error := ErrorMissingEndTag, missing := end, endTag := z + 2, cbEnd := |x|),
                      node.(items := EraseTo(parts, |parts|)), true)
  {
    hide NextToken, ParseContent, EraseTo, Flush, Ready, Separated, TagMatches, Blank, WriteEnd, Has;
    EndTagTokens(e, s, st.idx, z, x);
    FlushReady(e, s, parts, |parts|, st.idx, z, st, node.items, z + 2);
    ContentEnd(e, s, st, node, depth, EraseTo(parts, |parts|), z, x);
  }

  lemma ContentOver(e: Encoding, s: string, st: State, node: Elem, depth: nat)
    requires InText(s, st) && Blank(s, st.idx, |s|)
    ensures ParseContent(e, s, st, node, depth) == AtEnd(e, s, st.(idx := |s|), node, depth)
  {
    SkipBlank(e, s, st.idx, |s|);
    hide Flush, ParseChild, ParseEndTag, ClearEnd, AddClearItem;
  }

  /** All parts are read and the text is over. */
  lemma EndOfTextReads(e: Encoding, s: string, parts: seq<Part>, st: State, node: Elem, depth: nat)
    requires Separated(parts) && InText(s, st) && Ready(e, s, parts, |parts|, st.idx, st, node.items)
    requires Blank(s, st.idx, |s|)
    ensures var r := ParseContent(e, s, st, node, depth);
            && !r.ok && r.node == node.(items := EraseTo(parts, |parts|))
            && r.st.error == if !node.isDeclaration && depth > 0 then ErrorMissingEndTag else st.error
  {
    hide EraseTo, Flush, Ready, Separated, Blank, ParseContent, NextToken;
    var st1 := st.(idx := |s|);
    ContentOver(e, s, st, node, depth);
    FlushReady(e, s, parts, |parts|, st.idx, |s|, st, node.items, |s|);
    FlushError(e, s, st1, node.items);
  }

  /** The error set before does not change what is added. */
  lemma FlushError(e: Encoding, s: string, st: State, items: seq<Item>)
    requires st.idx == |s| && InText(s, st) && !Flush(e, s, st, items, |s|).failed
    ensures var st1 := st.(error := ErrorMissingEndTag, missing := |s|);
            var f := Flush(e, s, st, items, |s|);
            Flush(e, s, st1, items, |s|) == Flushed(f.st.(error := ErrorMissingEndTag, missing := |s|), f.items, false)
  {
    hide Decode, AddTextItem, TrimStart, TrimEnd;
  }

  /** All parts are read and something is wrong. */
  lemma BrokenReads(e: Encoding, s: string, parts: seq<Part>, z: nat, error: XMLError, st: State, node: Elem,
                    depth: nat)
    requires Separated(parts) && InText(s, st) && Ready(e, s, parts, |parts|, st.idx, st, node.items)
    requires Blank(s, st.idx, z) && BrokenAt(e, s, z, error)
    ensures var r := ParseContent(e, s, st, node, depth);
            !r.ok && r.st.error == error && r.node == node.(items := EraseTo(parts, |parts|))
  {
    hide EraseTo, Flush, Ready, Separated, ParseContent, NextToken, ClearEnd;
    SkipBlank(e, s, st.idx, z);
    ReadyText(e, s, parts, |parts|, st.idx, st, node.items);
    var t := NextToken(e, s, z);
    FlushReady(e, s, parts, |parts|, st.idx, z, st, node.items, t.next);
    BrokenContent(e, s, st, node, depth, EraseTo(parts, |parts|), z, error);
  }

  lemma BrokenContent(e: Encoding, s: string, st: State, node: Elem, depth: nat, items: seq<Item>, z: nat,
                      error: XMLError)
    requires InText(s, st) && BrokenAt(e, s, z, error) && NextToken(e, s, st.idx) == NextToken(e, s, z)
    requires var t := NextToken(e, s, z);
             && t.start <= |s| && st.text.Some? && st.text.value <= t.start
             && Flush(e, s, st.(idx := t.next), node.items, t.start)
                == Flushed(st.(idx := t.next, text := None), items, false)
    ensures var r := ParseContent(e, s, st, node, depth);
            !r.ok && r.st.error == error && r.node == node.(items := items)
  {
    hide TokenAt, ClearEnd, Flush, AddClearItem, ClearClose, AtEnd, ParseElement, AfterChild, TagMatches;
  }

  /** All parts are read, the last being no text, and a text follows that cannot be decoded. */
  lemma BadTextReads(e: Encoding, s: string, parts: seq<Part>, z: nat, error: XMLError, st: State, node: Elem,
                     depth: nat)
    requires InText(s, st) && Ready(e, s, parts, |parts|, st.idx, st, node.items)
    requires parts != [] ==> !parts[|parts| - 1].Run?
    requires Blank(s, st.idx, z) && BadTextAt(e, s, z, error)
    ensures var r := ParseContent(e, s, st, node, depth);
            !r.ok && r.st.error == error && r.node == node.(items := EraseTo(parts, |parts|))
  {
    hide EraseTo, Flush, ParseContent, NextToken, Decode, TrimEnd, NextLess, GoodText, TrimStart;
    var y := NextLess(e, s, z);
    LessBlank(e, s, st.idx, z);
    ContentSkips(e, s, st, node, depth);
    BlankJoin(s, st.text.value, st.idx, z);
    TrimStartIs(s, st.text.value, z, y);
    hide Blank, Ready;
    BadContent(e, s, st.(idx := y), node, depth, z, error);
  }

  lemma BadFlush(e: Encoding, s: string, st: State, items: seq<Item>, pos: nat, z: nat, error: XMLError)
    requires st.text.Some? && st.text.value <= pos <= |s| && z < pos && TrimStart(s, st.text.value, pos) == z
    requires var d := Decode(e, s, z, TrimEnd(s, z, pos) - z); d.Err? && error == ErrorOf(d.error)
    ensures Flush(e, s, st, items, pos) == Flushed(st.(error := error), items, true)
  {
    hide Decode, TrimStart, TrimEnd, AddTextItem;
  }

  /** In front of markup or the end of the text, with a text pending that cannot be decoded. */
  lemma BadContent(e: Encoding, s: string, st: State, node: Elem, depth: nat, z: nat, error: XMLError)
    requires InText(s, st) && st.text.Some? && z < st.idx && (At(s, st.idx) == '<' || st.idx == |s|)
    requires TrimStart(s, st.text.value, st.idx) == z
    requires var d := Decode(e, s, z, TrimEnd(s, z, st.idx) - z); d.Err? && error == ErrorOf(d.error)
    ensures var r := ParseContent(e, s, st, node, depth); !r.ok && r.st.error == error && r.node == node
  {
    hide NextToken, Decode, TrimEnd, TrimStart, ParseContent, Flush;
    TokenThere(e, s, st.idx);
    var t := NextToken(e, s, st.idx);
    var st1 := st.(idx := t.next);
    BadFlush(e, s, st1, node.items, st.idx, z, error);
    if t.kind == TokenError {
      BadFlush(e, s, st1.(error := ErrorMissingEndTag, missing := st1.idx), node.items, st.idx, z, error);
    }
    FailedContent(e, s, st, node, depth, error);
  }

  /** The text that is pending in front of markup or the end of the text fails. */
  lemma FailedContent(e: Encoding, s: string, st: State, node: Elem, depth: nat, error: XMLError)
    requires InText(s, st) && st.text.Some?
    requires var t := NextToken(e, s, st.idx);
             var st1 := st.(idx := t.next);
             && t.start == st.idx
             && (t.kind in {TokenTagStart, TokenDeclaration, TokenTagEnd, TokenError} || t.kind.TokenClear?)
             && Flush(e, s, st1, node.items, st.idx) == Flushed(st1.(error := error), node.items, true)
             && (t.kind == TokenError ==>
                   && t.next == st.idx
                   && var st2 := st1.(error := ErrorMissingEndTag, missing := st.idx);
                      Flush(e, s, st2, node.items, st.idx) == Flushed(st2.(error := error), node.items, true))
    ensures var r := ParseContent(e, s, st, node, depth); !r.ok && r.st.error == error && r.node == node
  {
    hide TokenAt, ClearEnd, Flush, AddClearItem, ClearClose, ParseElement, AfterChild, TagMatches;
  }

  lemma TokenThere(e: Encoding, s: string, i: nat)
    requires i <= |s| && (At(s, i) == '<' || i == |s|)
    ensures var t := NextToken(e, s, i);
            && t.start == i
            && (i < |s| ==> t.kind in {TokenTagStart, TokenDeclaration, TokenTagEnd} || t.kind.TokenClear?)
            && (i == |s| ==> t.kind == TokenError && t.next == i)
  {
    hide ClearAt;
  }
}
