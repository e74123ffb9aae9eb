/** Comments between texts: the parser drops them, and it leaves exactly the trees alone that hold none. */
module Elision {
  import opened Wrappers
  import opened CStrings
  import opened Escape
  import opened Lexer
  import opened Nodes
  import opened Grammar
  import opened Documents

  predicate CommentItem(x: Item) {
    x.Clear? && x.clear.tag == Comment
  }

  /** No comment stands between two texts. */
  predicate Elided(items: seq<Item>) {
    forall k :: 1 < k < |items| ==> !(items[k].Text? && CommentItem(items[k - 1]) && items[k - 2].Text?)
  }

  /** Nowhere in the tree a comment stands between two texts. */
  predicate SettledItems(items: seq<Item>)
    decreases items
  {
    Elided(items) && forall k :: 0 <= k < |items| ==> SettledItem(items[k])
  }

  predicate SettledItem(x: Item)
    decreases x
  {
    x.Child? ==> SettledItems(x.elem.items)
  }

  predicate Settled(t: Elem) {
    SettledItems(t.items)
  }

  // ---------------------------------------------------------------- what elision makes of a tree

  /** The first `n` items after elision. */
  function MergeTo(items: seq<Item>, n: nat): seq<Item>
    requires n <= |items|
    decreases items, n
  {
    if n == 0 then [] else Join(MergeTo(items, n - 1), MergeItem(items[n - 1]))
  }

  function MergeItem(x: Item): Item
    decreases x
  {
    if x.Child? then Child(Merge(x.elem)) else x
  }

  function Merge(t: Elem): Elem
    decreases t
  {
    t.(items := MergeTo(t.items, |t.items|))
  }

  // ---------------------------------------------------------------- the parser builds settled trees only

  lemma JoinSettled(items: seq<Item>, x: Item)
    requires SettledItems(items) && SettledItem(x)
    ensures SettledItems(Join(items, x))
  {
    hide SettledItem;
    var r, n := Join(items, x), |items|;
    if x.Text? && n >= 2 && CommentItem(items[n - 1]) && items[n - 2].Text? {
      TextSettled(items[n - 2].text + x.text);
      forall k | 0 <= k < |r|
        ensures SettledItem(r[k])
        ensures k > 1 ==> !(r[k].Text? && CommentItem(r[k - 1]) && r[k - 2].Text?)
      {
        assert k < n - 2 ==> r[k] == items[k];
        assert k > 1 ==> r[k - 1] == items[k - 1] && r[k - 2] == items[k - 2];
        assert SettledItem(items[k]);
      }
    }
  }

  lemma TextSettled(text: string)
    ensures SettledItem(Text(text))
  {
  }

  lemma FlushSettled(e: Encoding, s: string, st: State, items: seq<Item>, pos: nat)
    requires pos <= |s| && (st.text.Some? ==> st.text.value <= pos) && SettledItems(items)
    ensures SettledItems(Flush(e, s, st, items, pos).items)
  {
    hide SettledItems, SettledItem, Decode, AddTextItem, TrimStart, TrimEnd;
    if st.text.Some? {
      var from := TrimStart(s, st.text.value, pos);
      if from < pos {
        var d := Decode(e, s, from, TrimEnd(s, from, pos) - from);
        if d.Ok? {
          TextSettled(CString(d.text));
          JoinSettled(items, Text(CString(d.text)));
        }
      }
    }
  }

  lemma ClearSettled(items: seq<Item>, k: ClearKind, text: string, bracket: bool)
    requires SettledItems(items)
    ensures SettledItems(AddClearItem(items, k, text, bracket))
  {
    var x := Clear(ClearText(k, text, bracket));
    JoinSettled(items, x);
  }

  lemma ChildSettled(items: seq<Item>, child: Elem)
    requires SettledItems(items) && Settled(child)
    ensures SettledItems(items + [Child(child)])
  {
    JoinSettled(items, Child(child));
  }

  lemma AtEndSettled(e: Encoding, s: string, st: State, node: Elem, depth: nat)
    requires InText(s, st) && Settled(node)
    ensures Settled(AtEnd(e, s, st, node, depth).node)
  {
    hide SettledItems, Flush;
    var st1 := if !node.isDeclaration && depth > 0 then st.(error := ErrorMissingEndTag, missing := st.idx) else st;
    FlushSettled(e, s, st1, node.items, st.idx);
  }

  lemma {:induction false} TagSettled(e: Encoding, s: string, st: State, node: Elem, depth: nat, want: Want)
    requires InText(s, st) && WantOk(s, want) && Settled(node)
    ensures Settled(ParseTag(e, s, st, node, depth, want).node)
    decreases |s| - st.idx
  {
    hide SettledItems, AtEnd, NextToken, ValueOf, LastName;
    var t := NextToken(e, s, st.idx);
    var st1 := st.(idx := t.next);
    if t.kind == TokenError {
      AtEndSettled(e, s, st1, node, depth);
    } else if want.WantName? {
      if t.kind == TokenText {
        TagSettled(e, s, st1, node, depth, WantEquals(t.start, t.len));
      }
    } else if want.WantEquals? {
      if t.kind == TokenText {
        TagSettled(e, s, st1, WithAttribute(node, s[want.start..want.start + want.len], None), depth,
                   WantEquals(t.start, t.len));
      } else if t.kind == TokenEquals {
        TagSettled(e, s, st1, node, depth, WantValue(want.start, want.len));
      }
    } else if t.kind == TokenText || t.kind == TokenQuotedText {
      var v := ValueOf(e, s, node, t);
      if v.Ok? {
        TagSettled(e, s, st1, WithAttribute(node, s[want.start..want.start + want.len], Some(CString(v.text))), depth,
                   WantName);
      }
    }
  }

  lemma EndTagSettled(e: Encoding, s: string, st: State, node: Elem, t: Token)
    requires InText(s, st) && t.start <= st.idx && (st.text.Some? ==> st.text.value <= t.start) && Settled(node)
    ensures Settled(ParseEndTag(e, s, st, node, t).node)
  {
    FlushSettled(e, s, st, node.items, t.start);
    hide SettledItems, Flush, NextToken, TagMatches;
  }

  lemma {:induction false} ElementSettled(e: Encoding, s: string, st: State, node: Elem, depth: nat)
    requires InText(s, st) && Settled(node)
    ensures Settled(ParseElement(e, s, st, node, depth).node)
    decreases |s| - st.idx, 2
  {
    hide SettledItems, ParseTag, ParseContent;
    TagSettled(e, s, st, node, depth, WantName);
    var t := ParseTag(e, s, st, node, depth, WantName);
    if t.end == Opened {
      ContentSettled(e, s, t.st, t.node, depth);
    }
  }

  lemma {:induction false} ContentSettled(e: Encoding, s: string, st: State, node: Elem, depth: nat)
    requires InText(s, st) && Settled(node)
    ensures Settled(ParseContent(e, s, st, node, depth).node)
    decreases |s| - st.idx, 0
  {
    hide SettledItems, AtEnd, NextToken, ParseChild, ParseEndTag, Flush, ClearEnd, ClearClose, AddClearItem;
    var t := NextToken(e, s, st.idx);
    var st1 := st.(idx := t.next);
    match t.kind {
      case TokenError => AtEndSettled(e, s, st1, node, depth);
      case TokenTagStart => SubSettled(e, s, st1, node, depth, t);
      case TokenDeclaration => SubSettled(e, s, st1, node, depth, t);
      case TokenTagEnd => EndTagSettled(e, s, st1, node, t);
      case TokenClear(k) =>
        FlushSettled(e, s, st1, node.items, t.start);
        var f := Flush(e, s, st1, node.items, t.start);
        var end := ClearEnd(e, s, t.next, k);
        if !f.failed && end.Some? {
          var next := end.value.0 + |ClearClose(k, end.value.1)|;
          ClearSettled(f.items, k, s[t.next..end.value.0], end.value.1);
          ContentSettled(e, s, f.st.(idx := next, text := Some(next)),
                         node.(items := AddClearItem(f.items, k, s[t.next..end.value.0], end.value.1)), depth);
        }
      case _ => ContentSettled(e, s, st1, node, depth);
    }
  }

  lemma {:induction false} SubSettled(e: Encoding, s: string, st: State, node: Elem, depth: nat, t: Token)
    requires InText(s, st) && t.start < st.idx && (st.text.Some? ==> st.text.value <= t.start) && Settled(node)
    ensures Settled(ParseChild(e, s, st, node, depth, t).node)
    decreases |s| - st.idx, 3
  {
    hide SettledItems, NextToken, Flush, ParseElement, AfterChild;
    FlushSettled(e, s, st, node.items, t.start);
    var f := Flush(e, s, st, node.items, t.start);
    var n := NextToken(e, s, st.idx);
    if !f.failed && n.kind == TokenText {
      var child := Elem(Some(s[n.start..n.start + n.len]), t.kind == TokenDeclaration, [], []);
      var c := ParseElement(e, s, f.st.(idx := n.next), child, depth + 1);
      assert Settled(child) by {
        NothingSettled();
      }
      ElementSettled(e, s, f.st.(idx := n.next), child, depth + 1);
      ChildSettled(f.items, c.node);
      BehindSettled(e, s, c, node.(items := f.items + [Child(c.node)]), depth);
    }
  }

  lemma NothingSettled()
    ensures SettledItems([])
  {
  }

  lemma {:induction false} BehindSettled(e: Encoding, s: string, c: Parsed, node: Elem, depth: nat)
    requires InText(s, c.st) && Settled(node)
    ensures Settled(AfterChild(e, s, c, node, depth).node)
    decreases |s| - c.st.idx, 1
  {
    hide SettledItems, ParseContent, TagMatches;
    if c.ok && c.st.cbEnd == 0 {
      ContentSettled(e, s, c.st, node, depth);
    }
  }

  /** Whatever the text: in every node of the tree that is parsed from it no comment stands between two texts. */
  lemma ParserSettles(e: Encoding, s: string)
    ensures Settled(ParseRoot(e, s).node)
  {
    hide SettledItems, ParseContent;
    NothingSettled();
    ContentSettled(e, s, START, Root(), 0);
  }

  // ---------------------------------------------------------------- which trees elision leaves alone

  lemma {:induction false} MergeShorter(items: seq<Item>, n: nat)
    requires n <= |items|
    ensures |MergeTo(items, n)| <= n
    decreases n
  {
    hide MergeItem;
    if n > 0 {
      MergeShorter(items, n - 1);
    }
  }

  lemma {:induction false} MergeKeeps(items: seq<Item>, n: nat)
    requires n <= |items| && SettledItems(items)
    ensures MergeTo(items, n) == items[..n]
    decreases items, n
  {
    if n > 0 {
      MergeKeeps(items, n - 1);
      assert SettledItem(items[n - 1]);
      match items[n - 1] {
        case Child(elem) =>
          assert items[n - 1] decreases to elem;
          MergeKeeps(elem.items, |elem.items|);
          assert elem.items[..|elem.items|] == elem.items;
        case _ =>
      }
      assert MergeItem(items[n - 1]) == items[n - 1];
      hide MergeItem, SettledItem;
    }
  }

  /** Once a comment has gone, the items stay fewer; so if they are as many, none has gone. */
  lemma {:induction false} NoneMerged(items: seq<Item>, n: nat)
    requires n <= |items| && |MergeTo(items, n)| == n
    ensures forall k :: 0 <= k < n ==> MergeTo(items, n)[k] == MergeItem(items[k])
    ensures Elided(MergeTo(items, n))
    decreases n
  {
    hide MergeItem;
    if n > 0 {
      MergeShorter(items, n - 1);
      var before, x := MergeTo(items, n - 1), MergeItem(items[n - 1]);
      assert MergeTo(items, n) == Join(before, x);
      NoneMerged(items, n - 1);
      assert MergeTo(items, n) == before + [x];
    }
  }

  lemma {:induction false} KeptSettled(items: seq<Item>)
    requires MergeTo(items, |items|) == items
    ensures SettledItems(items)
    decreases items
  {
    NoneMerged(items, |items|);
    forall k | 0 <= k < |items| ensures SettledItem(items[k]) {
      match items[k] {
        case Child(elem) =>
          assert items[k] decreases to elem;
          assert MergeItem(items[k]) == items[k];
          assert Merge(elem) == elem;
          KeptSettled(elem.items);
        case _ =>
      }
    }
  }

  /** Elision leaves exactly the settled trees alone. */
  lemma MergeExactly(t: Elem)
    ensures Merge(t) == t <==> Settled(t)
  {
    if Settled(t) {
      MergeKeeps(t.items, |t.items|);
      assert t.items[..|t.items|] == t.items;
    }
    if Merge(t) == t {
      KeptSettled(t.items);
    }
  }

  /** What it makes of any tree is settled. */
  lemma {:induction false} MergeSettles(items: seq<Item>, n: nat)
    requires n <= |items|
    ensures SettledItems(MergeTo(items, n))
    decreases items, n
  {
    if n > 0 {
      MergeSettles(items, n - 1);
      match items[n - 1] {
        case Child(elem) =>
          assert items[n - 1] decreases to elem;
          MergeSettles(elem.items, |elem.items|);
        case _ =>
      }
      assert SettledItem(MergeItem(items[n - 1]));
      hide SettledItem, MergeItem;
      JoinSettled(MergeTo(items, n - 1), MergeItem(items[n - 1]));
    }
  }
}
