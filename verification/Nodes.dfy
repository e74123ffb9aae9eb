/** The nodes of the tree.  `Elem` is the tree as a value; `XMLNode` is a node under construction, with its
    three arrays and its order index. */
module Nodes {
  import opened Wrappers
  import opened CStrings
  import opened Lexer
  import opened Order

  datatype Attribute = Attribute(name: string, value: Option<string>)

  /** A clear tag; `bracket` tells the two ends of a `<!DOCTYPE` apart: `]>` and `>`. */
  datatype ClearText = ClearText(tag: ClearKind, text: string, bracket: bool)

  datatype Item = Child(elem: Elem) | Text(text: string) | Clear(clear: ClearText)

  /** An element: the head of a document has no name. */
  datatype Elem = Elem(name: Option<string>, isDeclaration: bool, attributes: seq<Attribute>, items: seq<Item>)

  function KindOf(x: Item): Kind {
    match x case Child(_) => KindChild case Text(_) => KindText case Clear(_) => KindClear
  }

  function Kinds(c: seq<Item>): (ks: seq<Kind>)
    ensures |ks| == |c|
  {
    seq(|c|, i requires 0 <= i < |c| => KindOf(c[i]))
  }

  /** The items of kind `k`, in order. */
  function Select(c: seq<Item>, k: Kind): (r: seq<Item>)
    ensures forall i :: 0 <= i < |r| ==> KindOf(r[i]) == k
  {
    if c == [] then []
    else if KindOf(c[|c| - 1]) == k then Select(c[..|c| - 1], k) + [c[|c| - 1]]
    else Select(c[..|c| - 1], k)
  }

  lemma {:induction false} SelectConcat(a: seq<Item>, b: seq<Item>, k: Kind)
    ensures Select(a + b, k) == Select(a, k) + Select(b, k)
    decreases |b|
  {
    if b == [] {
      assert a + b == a;
    } else {
      assert (a + b)[..|a + b| - 1] == a + b[..|b| - 1];
      SelectConcat(a, b[..|b| - 1], k);
    }
  }

  lemma {:induction false} SelectLength(c: seq<Item>, k: Kind)
    ensures |Select(c, k)| == Count(Kinds(c), k)
  {
    if c != [] {
      assert Kinds(c)[..|c| - 1] == Kinds(c[..|c| - 1]);
      SelectLength(c[..|c| - 1], k);
    }
  }

  /** Item `p` is the item of its kind whose number is the count of the items of that kind before it. */
  lemma SelectAt(c: seq<Item>, p: nat)
    requires p < |c|
    ensures var k := KindOf(c[p]);
            var i := Count(Kinds(c)[..p], k);
            i < |Select(c, k)| && Select(c, k)[i] == c[p]
            && Select(c, k) == Select(c[..p], k) + [c[p]] + Select(c[p + 1..], k)
  {
    hide Select, Count, Kinds;
    var k := KindOf(c[p]);
    SplitAt(c, p);
    SelectConcat(c[..p], [c[p]] + c[p + 1..], k);
    SelectConcat([c[p]], c[p + 1..], k);
    SelectSingle(c[p], k);
    SelectLength(c[..p], k);
    KindsPrefix(c, p);
    Between(Select(c[..p], k), c[p], Select(c[p + 1..], k));
  }

  lemma Between(a: seq<Item>, x: Item, b: seq<Item>)
    ensures a + ([x] + b) == a + [x] + b && (a + [x] + b)[|a|] == x
  {
  }

  lemma SelectInsert(c: seq<Item>, p: nat, x: Item, k: Kind)
    requires p <= |c|
    ensures var i := Count(Kinds(c)[..p], k);
            i <= |Select(c, k)|
            && Select(InsertAt(c, p, x), k) == if KindOf(x) == k then InsertAt(Select(c, k), i, x) else Select(c, k)
  {
    assert c == c[..p] + c[p..];
    SelectConcat(c[..p], c[p..], k);
    SelectConcat(c[..p] + [x], c[p..], k);
    SelectConcat(c[..p], [x], k);
    assert [x][..0] == [];
    SelectLength(c[..p], k);
    assert Kinds(c)[..p] == Kinds(c[..p]);
  }

  /** A list around one of its items. */
  lemma SelectAround(a: seq<Item>, x: Item, b: seq<Item>, k: Kind)
    ensures Select(a + ([x] + b), k) == if KindOf(x) == k then Select(a, k) + ([x] + Select(b, k))
            else Select(a, k) + Select(b, k)
  {
    SelectConcat(a, [x] + b, k);
    SelectConcat([x], b, k);
    SelectSingle(x, k);
  }

  lemma SelectWithout(a: seq<Item>, x: Item, b: seq<Item>, k: Kind)
    ensures var i, s := |Select(a, k)|, Select(a + ([x] + b), k);
            i <= |s| && (KindOf(x) == k ==> i < |s|)
            && Select(a + b, k) == if KindOf(x) == k then RemoveAt(s, i) else s
  {
    SelectAround(a, x, b, k);
    SelectConcat(a, b, k);
    hide Select;
    var sa, sb := Select(a, k), Select(b, k);
    if KindOf(x) == k {
      assert (sa + ([x] + sb))[|sa| + 1..] == sb;
    }
  }

  lemma SelectRemove(c: seq<Item>, p: nat, k: Kind)
    requires p < |c|
    ensures var i := Count(Kinds(c)[..p], k);
            i <= |Select(c, k)| && (KindOf(c[p]) == k ==> i < |Select(c, k)|)
            && Select(RemoveAt(c, p), k) == if KindOf(c[p]) == k then RemoveAt(Select(c, k), i) else Select(c, k)
  {
    hide Select, Count, Kinds;
    SplitAt(c, p);
    SelectWithout(c[..p], c[p], c[p + 1..], k);
    SelectLength(c[..p], k);
    KindsPrefix(c, p);
  }

  lemma KindsPrefix(c: seq<Item>, p: nat)
    requires p <= |c|
    ensures Kinds(c)[..p] == Kinds(c[..p])
  {
  }

  lemma SplitAt<T>(s: seq<T>, p: nat)
    requires p < |s|
    ensures s == s[..p] + ([s[p]] + s[p + 1..])
  {
  }

  lemma SelectSingle(x: Item, k: Kind)
    ensures Select([x], k) == if KindOf(x) == k then [x] else []
  {
    assert [x][..0] == [];
  }

  function Elems(c: seq<Item>): seq<Elem> {
    seq(|Select(c, KindChild)|, i requires 0 <= i < |Select(c, KindChild)| => Select(c, KindChild)[i].elem)
  }

  function Texts(c: seq<Item>): seq<string> {
    seq(|Select(c, KindText)|, i requires 0 <= i < |Select(c, KindText)| => Select(c, KindText)[i].text)
  }

  function Clears(c: seq<Item>): seq<ClearText> {
    seq(|Select(c, KindClear)|, i requires 0 <= i < |Select(c, KindClear)| => Select(c, KindClear)[i].clear)
  }

  /** Where an item of kind `k` can be put without breaking the order index. */
  predicate Placeable(c: seq<Item>, pos: int, k: Kind) {
    pos < 0 || pos >= |c| - 1 || KindOf(c[pos]) == k
  }

  /** The list after an item has been put at position `pos`; -1, or a position behind the end, means at the end. */
  function Put(c: seq<Item>, pos: int, x: Item): seq<Item> {
    if 0 <= pos < |c| && KindOf(c[pos]) == KindOf(x) then InsertAt(c, pos, x) else c + [x]
  }

  /** The array index of the new item. */
  function PutIndex(c: seq<Item>, pos: int, k: Kind): nat {
    if 0 <= pos < |c| && KindOf(c[pos]) == k then Count(Kinds(c)[..pos], k) else Count(Kinds(c), k)
  }

  /** `addToOrder` keeps the index valid exactly where the item is placeable, and then it puts it where `Put` says. */
  lemma AddPuts(c: seq<Item>, pos: int, x: Item)
    ensures var k := KindOf(x);
            var r := AddToOrder(Canon(Kinds(c)), pos, Count(Kinds(c), k), k);
            && 0 <= r.1 <= Count(Kinds(c), k)
            && if Placeable(c, pos, k) then r == (Canon(Kinds(Put(c, pos, x))), PutIndex(c, pos, k))
               else !ValidOrder(r.0)
  {
    var ks, k := Kinds(c), KindOf(x);
    AddIndexBound(ks, pos, k);
    hide AddToOrder, Count;
    if pos < 0 || pos >= |c| {
      AddAppends(ks, pos, k);
      assert Kinds(c + [x]) == ks + [k];
    } else if ks[pos] == k {
      AddInserts(ks, pos, k);
      assert Kinds(InsertAt(c, pos, x)) == InsertAt(ks, pos, k);
    } else {
      AddExactly(ks, pos, k);
      if pos == |c| - 1 {
        AddBeforeLast(ks, k);
        assert Kinds(c + [x]) == ks + [k];
      }
    }
  }

  /** The arrays after `Put`: only the array of the item's kind changes. */
  lemma PutSelects(c: seq<Item>, pos: int, x: Item, k: Kind)
    ensures var i := PutIndex(c, pos, KindOf(x));
            i <= |Select(c, KindOf(x))|
            && Select(Put(c, pos, x), k) == if KindOf(x) == k then InsertAt(Select(c, k), i, x) else Select(c, k)
  {
    if 0 <= pos < |c| && KindOf(c[pos]) == KindOf(x) {
      SelectInsert(c, pos, x, k);
      SelectInsert(c, pos, x, KindOf(x));
    } else {
      assert c + [x] == InsertAt(c, |c|, x);
      assert Kinds(c)[..|c|] == Kinds(c);
      SelectInsert(c, |c|, x, k);
      SelectInsert(c, |c|, x, KindOf(x));
      SelectLength(c, KindOf(x));
    }
  }

  lemma PutArrays(c: seq<Item>, pos: int, x: Item)
    ensures var i, d := PutIndex(c, pos, KindOf(x)), Put(c, pos, x);
            match x
            case Child(elem) =>
              && i <= |Elems(c)| && Elems(d) == InsertAt(Elems(c), i, elem) && Texts(d) == Texts(c)
              && Clears(d) == Clears(c)
            case Text(text) =>
              && i <= |Texts(c)| && Texts(d) == InsertAt(Texts(c), i, text) && Elems(d) == Elems(c)
              && Clears(d) == Clears(c)
            case Clear(clear) =>
              && i <= |Clears(c)| && Clears(d) == InsertAt(Clears(c), i, clear) && Elems(d) == Elems(c)
              && Texts(d) == Texts(c)
  {
    PutSelects(c, pos, x, KindChild);
    PutSelects(c, pos, x, KindText);
    PutSelects(c, pos, x, KindClear);
    hide Select, Put, PutIndex;
  }

  /** The items without item number `i` of kind `k`, which stood at position `p`. */
  ghost predicate Removed(before: seq<Item>, after: seq<Item>, p: nat, i: nat, k: Kind) {
    p < |before| && KindOf(before[p]) == k && Count(Kinds(before)[..p], k) == i && after == RemoveAt(before, p)
  }

  lemma RemoveArrays(c: seq<Item>, p: nat)
    requires p < |c|
    ensures var i, d := Count(Kinds(c)[..p], KindOf(c[p])), RemoveAt(c, p);
            && Kinds(d) == RemoveAt(Kinds(c), p)
            && match c[p]
               case Child(_) =>
                 && i < |Elems(c)| && Elems(d) == RemoveAt(Elems(c), i) && Texts(d) == Texts(c)
                 && Clears(d) == Clears(c)
               case Text(_) =>
                 && i < |Texts(c)| && Texts(d) == RemoveAt(Texts(c), i) && Elems(d) == Elems(c)
                 && Clears(d) == Clears(c)
               case Clear(_) =>
                 && i < |Clears(c)| && Clears(d) == RemoveAt(Clears(c), i) && Elems(d) == Elems(c)
                 && Texts(d) == Texts(c)
  {
    hide Select, Count, Elems, Texts, Clears, RemoveAt, Kinds;
    SelectRemove(c, p, KindChild);
    SelectRemove(c, p, KindText);
    SelectRemove(c, p, KindClear);
    ArrayLengths(c);
    KindsRemove(c, p);
    ProjectRemove(c, RemoveAt(c, p), Count(Kinds(c)[..p], KindOf(c[p])));
  }

  lemma KindsRemove(c: seq<Item>, p: nat)
    requires p < |c|
    ensures Kinds(RemoveAt(c, p)) == RemoveAt(Kinds(c), p)
  {
  }

  lemma ArrayLengths(c: seq<Item>)
    ensures |Elems(c)| == |Select(c, KindChild)|
    ensures |Texts(c)| == |Select(c, KindText)|
    ensures |Clears(c)| == |Select(c, KindClear)|
  {
    hide Select;
  }

  /** What a removal from a selection, or none, does to the arrays. */
  lemma ProjectRemove(c: seq<Item>, d: seq<Item>, i: nat)
    ensures Select(d, KindChild) == Select(c, KindChild) ==> Elems(d) == Elems(c)
    ensures Select(d, KindText) == Select(c, KindText) ==> Texts(d) == Texts(c)
    ensures Select(d, KindClear) == Select(c, KindClear) ==> Clears(d) == Clears(c)
    ensures i < |Elems(c)| && Select(d, KindChild) == RemoveAt(Select(c, KindChild), i) ==>
            Elems(d) == RemoveAt(Elems(c), i)
    ensures i < |Texts(c)| && Select(d, KindText) == RemoveAt(Select(c, KindText), i) ==>
            Texts(d) == RemoveAt(Texts(c), i)
    ensures i < |Clears(c)| && Select(d, KindClear) == RemoveAt(Select(c, KindClear), i) ==>
            Clears(d) == RemoveAt(Clears(c), i)
  {
    hide Select;
  }

  /** The last item replaced by another of its kind. */
  lemma ReplaceLastSelects(c: seq<Item>, x: Item, k: Kind)
    requires c != [] && KindOf(x) == KindOf(c[|c| - 1])
    ensures var d, s := c[..|c| - 1] + [x], Select(c, k);
            && (KindOf(x) == k ==> s != [])
            && Select(d, k) == if KindOf(x) == k then s[..|s| - 1] + [x] else s
  {
    var n := |c| - 1;
    assert (c[..n] + [x])[..n] == c[..n];
    hide Count, Kinds;
  }

  lemma ReplaceLastArrays(c: seq<Item>, x: Item)
    requires c != [] && KindOf(x) == KindOf(c[|c| - 1])
    ensures var d := c[..|c| - 1] + [x];
            && Kinds(d) == Kinds(c)
            && (if x.Child? then Elems(c) != [] && Elems(d) == Elems(c)[..|Elems(c)| - 1] + [x.elem]
                else Elems(d) == Elems(c))
            && (if x.Text? then Texts(c) != [] && Texts(d) == Texts(c)[..|Texts(c)| - 1] + [x.text]
                else Texts(d) == Texts(c))
            && (x.Clear? || Clears(d) == Clears(c))
  {
    ReplaceLastSelects(c, x, KindChild);
    ReplaceLastSelects(c, x, KindText);
    ReplaceLastSelects(c, x, KindClear);
    hide Select;
  }

  /** The entry of the last item points to the last slot of its array. */
  lemma LastEntry(c: seq<Item>)
    requires c != []
    ensures var n, k := |c| - 1, KindOf(c[|c| - 1]);
            Canon(Kinds(c))[n] == Pack(|Select(c, k)| - 1, k) && |Select(c, k)| > 0
                && Select(c, k)[|Select(c, k)| - 1] == c[n]
  {
    var n, k := |c| - 1, KindOf(c[|c| - 1]);
    SelectAt(c, n);
    assert c[n + 1..] == [];
    SelectLength(c[..n], k);
    assert Kinds(c)[..n] == Kinds(c[..n]);
    assert |Select(c, k)| == |Select(c[..n], k)| + 1;
  }

  datatype Content = AttributeContent(attribute: Attribute) | ItemContent(item: Item)

  /** `stricmp(a, b) == 0`. */
  predicate SameName(a: string, b: string) {
    |a| == |b| && forall i :: 0 <= i < |a| ==> Lower(a[i]) == Lower(b[i])
  }

  /** A child always has a name (`addChild_priv` adds none without). */
  predicate HasName(t: Elem, name: string) {
    t.name.Some? && SameName(t.name.value, name)
  }

  /** The children of a name, in order. */
  function Named(c: seq<Elem>, name: string): (r: seq<Elem>)
    ensures |r| <= |c|
  {
    if c == [] then []
    else if HasName(c[0], name) then [c[0]] + Named(c[1..], name)
    else Named(c[1..], name)
  }

  lemma {:induction false} NamedLast(c: seq<Elem>, name: string)
    requires c != []
    ensures var n := |c| - 1;
            Named(c, name) == Named(c[..n], name) + if HasName(c[n], name) then [c[n]] else []
  {
    var n := |c| - 1;
    if n > 0 {
      NamedLast(c[1..], name);
      assert c[1..][..n - 1] == c[..n][1..];
    }
  }

  /** A node under construction.  `contents` is the list that the three arrays and the order index stand for. */
  class XMLNode {
    ghost var contents: seq<Item>

    const tagName: Option<string>
    const isDeclaration: bool
    const depth: nat
    var attributes: seq<Attribute>
    var children: seq<Elem>
    var texts: seq<string>
    var clears: seq<ClearText>
    var order: seq<int>

    ghost predicate Valid()
      reads this
    {
      && order == Canon(Kinds(contents))
      && children == Elems(contents)
      && texts == Texts(contents)
      && clears == Clears(contents)
    }

    constructor (name: Option<string>, declaration: bool, depth: nat)
      ensures tagName == name && isDeclaration == declaration && this.depth == depth
      ensures Valid() && contents == [] && attributes == []
    {
      tagName, isDeclaration, this.depth := name, declaration, depth;
      attributes, children, texts, clears, order := [], [], [], [], [];
      contents := [];
    }

    ghost function Value(): Elem
      reads this
    {
      Elem(tagName, isDeclaration, attributes, contents)
    }

    /** The lengths of the arrays are the counts of the items of each kind. */
    lemma Lengths()
      requires Valid()
      ensures |children| == Count(Kinds(contents), KindChild) && |texts| == Count(Kinds(contents), KindText)
      ensures |clears| == Count(Kinds(contents), KindClear) && |order| == |contents|
    {
      SelectLength(contents, KindChild);
      SelectLength(contents, KindText);
      SelectLength(contents, KindClear);
    }

    // -------------------------------------------------------------- the order index

    /** The search has no bound of its own: it stops because each item has its entry. */
    method FindPosition(index: int, k: Kind) returns (i: int)
      requires order == Canon(Kinds(contents)) && index < Count(Kinds(contents), k)
      ensures index < 0 ==> i == -1
      ensures index >= 0 ==> 0 <= i < |contents| && KindOf(contents[i]) == k && Count(Kinds(contents)[..i], k) == index
    {
      if index < 0 {
        return -1;
      }
      ghost var p := Position(Kinds(contents), k, index);
      i := 0;
      while order[i] != Pack(index, k)
        invariant 0 <= i <= p
        decreases p - i
      {
        i := i + 1;
      }
      EntryUnique(Kinds(contents), i, p);
    }

    method RemoveOrderElement(k: Kind, index: nat) returns (n: nat, ghost p: nat)
      requires order == Canon(Kinds(contents)) && index < Count(Kinds(contents), k)
      modifies `order
      ensures p < |contents| && KindOf(contents[p]) == k && Count(Kinds(contents)[..p], k) == index
      ensures order == Canon(RemoveAt(Kinds(contents), p)) && n == |order|
    {
      var i := FindPosition(index, k);
      p := i;
      n := |order| - 1;
      order := order[..i] + order[i + 1..];
      RenumberFrom(i, k, -1);
      RemoveRenumbers(Kinds(contents), p);
    }

    /** The loops that add 4 to the entries of a kind, or take it off, from position `p` on. */
    method RenumberFrom(p: nat, k: Kind, d: int)
      requires p <= |order|
      modifies `order
      ensures order == Renumber(old(order), p, k, d)
    {
      var i, n := p, |order|;
      while i < n
        invariant p <= i <= n && |order| == n
        invariant forall j :: 0 <= j < n ==>
          order[j] == if p <= j < i && IsKind(old(order)[j], k) then old(order)[j] + 4 * d else old(order)[j]
      {
        if IsKind(order[i], k) {
          order := order[i := order[i] + 4 * d];
        }
        i := i + 1;
      }
    }

    method AddToOrder(pos: int, nc: nat, k: Kind) returns (index: int)
      modifies `order
      ensures (order, index) == Order.AddToOrder(old(order), pos, nc, k)
    {
      var n := |order|;
      if pos < 0 || pos >= n {
        order := order + [Pack(nc, k)];
        return nc;
      }
      order := order[..pos + 1] + order[pos..];
      ghost var moved := order;
      var q := pos;
      while q < n && !IsKind(order[q], k)
        invariant pos <= q <= n && order == moved && |moved| == n + 1
        invariant NextOfKind(moved, pos, n, k) == NextOfKind(moved, q, n, k)
      {
        q := q + 1;
      }
      if q == n {
        order := order[n := Pack(nc, k)];
        return nc;
      }
      order := order[pos := order[q]];
      RenumberFrom(q + 1, k, 1);
      index := order[q] / 4;
    }

    // -------------------------------------------------------------- adding

    method AddChild(child: Elem, pos: int) returns (index: int)
      requires Valid()
      modifies `order, `children, `contents
      ensures if Placeable(old(contents), pos, KindChild)
              then Valid() && contents == Put(old(contents), pos, Child(child))
                   && 0 <= index <= |old(children)| && children == InsertAt(old(children), index, child)
              else !ValidOrder(order)
    {
      hide Order.AddToOrder, Count, Select;
      ghost var x := Child(child);
      Lengths();
      AddPuts(contents, pos, x);
      index := AddToOrder(pos, |children|, KindChild);
      PutArrays(contents, pos, x);
      children := children[..index] + [child] + children[index..];
      contents := Put(contents, pos, x);
    }

    method AddText(text: string, pos: int) returns (index: int)
      requires Valid()
      modifies `order, `texts, `contents
      ensures if Placeable(old(contents), pos, KindText)
              then Valid() && contents == Put(old(contents), pos, Text(text))
                   && 0 <= index <= |old(texts)| && texts == InsertAt(old(texts), index, text)
              else !ValidOrder(order)
    {
      hide Order.AddToOrder, Count, Select;
      ghost var x := Text(text);
      Lengths();
      AddPuts(contents, pos, x);
      index := AddToOrder(pos, |texts|, KindText);
      PutArrays(contents, pos, x);
      texts := texts[..index] + [text] + texts[index..];
      contents := Put(contents, pos, x);
    }

    method AddClear(clear: ClearText, pos: int) returns (index: int)
      requires Valid()
      modifies `order, `clears, `contents
      ensures if Placeable(old(contents), pos, KindClear)
              then Valid() && contents == Put(old(contents), pos, Clear(clear))
                   && 0 <= index <= |old(clears)| && clears == InsertAt(old(clears), index, clear)
              else !ValidOrder(order)
    {
      hide Order.AddToOrder, Count, Select;
      ghost var x := Clear(clear);
      Lengths();
      AddPuts(contents, pos, x);
      index := AddToOrder(pos, |clears|, KindClear);
      PutArrays(contents, pos, x);
      clears := clears[..index] + [clear] + clears[index..];
      contents := Put(contents, pos, x);
    }

    // -------------------------------------------------------------- changing the last item

    /** A child that was added empty is filled in. */
    method SetLastChild(elem: Elem)
      requires Valid() && contents != [] && contents[|contents| - 1].Child?
      modifies `children, `contents
      ensures Valid() && contents == old(contents)[..|old(contents)| - 1] + [Child(elem)]
    {
      ReplaceLastArrays(contents, Child(elem));
      hide Select, Kinds, Elems;
      children := children[|children| - 1 := elem];
      contents := contents[..|contents| - 1] + [Child(elem)];
    }

    /** `text` is appended to the text that the last entry of the order index points to. */
    method AppendToLastText(text: string)
      requires Valid() && contents != [] && contents[|contents| - 1].Text?
      modifies `texts, `contents
      ensures Valid()
              && contents == old(contents)[..|old(contents)| - 1] + [Text(old(contents[|contents| - 1].text) + text)]
    {
      ghost var last := contents[|contents| - 1].text;
      ReplaceLastArrays(contents, Text(last + text));
      LastEntry(contents);
      hide Select, Kinds;
      var i := order[|order| - 1] / 4;
      assert i == |texts| - 1 && texts[i] == last;
      hide Texts;
      texts := texts[i := texts[i] + text];
      contents := contents[..|contents| - 1] + [Text(last + text)];
    }

    method AddAttribute(name: string, value: Option<string>)
      modifies `attributes
      ensures attributes == old(attributes) + [Attribute(name, value)] && (old(Valid()) ==> Valid())
    {
      attributes := attributes + [Attribute(name, value)];
    }

    // -------------------------------------------------------------- deleting

    method DeleteText(i: int) returns (ghost p: nat)
      requires Valid()
      modifies `order, `texts, `contents
      ensures Valid()
      ensures if 0 <= i < |old(texts)| then Removed(old(contents), contents, p, i, KindText)
              else contents == old(contents)
    {
      p := 0;
      if i < 0 || i >= |texts| {
        return;
      }
      hide Count, Select, Elems, Texts, Clears, Kinds, Canon, RemoveAt;
      Lengths();
      texts := RemoveAt(texts, i);
      var _, q := RemoveOrderElement(KindText, i);
      RemoveArrays(contents, q);
      p, contents := q, RemoveAt(contents, q);
    }

    method DeleteClear(i: int) returns (ghost p: nat)
      requires Valid()
      modifies `order, `clears, `contents
      ensures Valid()
      ensures if 0 <= i < |old(clears)| then Removed(old(contents), contents, p, i, KindClear)
              else contents == old(contents)
    {
      p := 0;
      if i < 0 || i >= |clears| {
        return;
      }
      hide Count, Select, Elems, Texts, Clears, Kinds, Canon, RemoveAt;
      Lengths();
      clears := RemoveAt(clears, i);
      var _, q := RemoveOrderElement(KindClear, i);
      RemoveArrays(contents, q);
      p, contents := q, RemoveAt(contents, q);
    }

    /** `detachFromParent`: `nodes` are the children as objects, and the search for the node that leaves has no bound
        of its own. */
    method DetachFromParent(nodes: seq<object>, d: object) returns (n: nat, ghost i: nat, ghost p: nat)
      requires Valid() && |nodes| == |children| && d in nodes
      modifies `order, `children, `contents
      ensures i < |nodes| && nodes[i] == d && d !in nodes[..i]
      ensures Valid() && Removed(old(contents), contents, p, i, KindChild) && n == |contents|
    {
      hide Removed, Elems, Texts, Clears, Kinds, Canon;
      var j := 0;
      while nodes[j] != d
        invariant j < |nodes| && d !in nodes[..j]
        decreases |nodes| - j
      {
        assert nodes[..j + 1] == nodes[..j] + [nodes[j]];
        j := j + 1;
        assert nodes[..j] + nodes[j..] == nodes;
      }
      i := j;
      n, p := DetachChild(j);
    }

    /** Child number `i` leaves; the value returned is the new number of items, not the position the child had. */
    method DetachChild(i: nat) returns (n: nat, ghost p: nat)
      requires Valid() && i < |children|
      modifies `order, `children, `contents
      ensures Valid() && Removed(old(contents), contents, p, i, KindChild) && n == |contents|
    {
      hide Count, Select, Elems, Texts, Clears, Kinds, Canon, RemoveAt;
      Lengths();
      children := RemoveAt(children, i);
      n, p := RemoveOrderElement(KindChild, i);
      RemoveArrays(contents, p);
      contents := RemoveAt(contents, p);
    }

    // -------------------------------------------------------------- reading

    /** `enumContents`: the attributes first, then the items in the order of the text. */
    method EnumContents(i: nat) returns (r: Content)
      requires Valid() && i < |attributes| + |contents|
      ensures r == if i < |attributes| then AttributeContent(attributes[i]) else ItemContent(contents[i - |attributes|])
    {
      if i < |attributes| {
        return AttributeContent(attributes[i]);
      }
      var x := ItemAt(i - |attributes|);
      return ItemContent(x);
    }

    method ItemAt(i: nat) returns (x: Item)
      requires Valid() && i < |contents|
      ensures x == contents[i]
    {
      SelectAt(contents, i);
      hide Count, Select;
      var o := order[i];
      assert o == Pack(Count(Kinds(contents)[..i], KindOf(contents[i])), KindOf(contents[i]));
      if o % 4 == 0 {
        x := Child(children[o / 4]);
      } else if o % 4 == 2 {
        x := Text(texts[o / 4]);
      } else {
        x := Clear(clears[o / 4]);
      }
    }

    /** The finished tree. */
    method ToElem() returns (elem: Elem)
      requires Valid()
      ensures elem == Value()
    {
      var items := [];
      var i := 0;
      while i < |order|
        invariant i <= |order| == |contents| && items == contents[..i]
      {
        var x := ItemAt(i);
        items, i := items + [x], i + 1;
      }
      elem := Elem(tagName, isDeclaration, attributes, items);
    }

    // -------------------------------------------------------------- children by name

    method NChildNode(name: string) returns (n: nat)
      ensures n == |Named(children, name)|
    {
      n := 0;
      var i := 0;
      while i < |children|
        invariant i <= |children| && n + |Named(children[i..], name)| == |Named(children, name)|
      {
        assert children[i..][1..] == children[i + 1..];
        if HasName(children[i], name) {
          n := n + 1;
        }
        i := i + 1;
      }
    }

    /** The next child of that name from number `i` on, and the number to go on with. */
    method NextChild(name: string, i: nat) returns (r: Option<Elem>, next: nat)
      requires i <= |children|
      ensures var f := Named(children[i..], name);
              if f == [] then r == None && next == i
              else r == Some(f[0]) && i < next <= |children| && Named(children[next..], name) == f[1..]
    {
      var k := i;
      while k < |children|
        invariant i <= k <= |children| && Named(children[k..], name) == Named(children[i..], name)
      {
        assert children[k..][1..] == children[k + 1..];
        if HasName(children[k], name) {
          return Some(children[k]), k + 1;
        }
        k := k + 1;
      }
      return None, i;
    }

    /** `getChildNode(name, j)`: child number `j` among the children of that name, the last of them for negative `j`. */
    method GetChildNode(name: string, j: int) returns (r: Option<Elem>)
      ensures var f := Named(children, name);
              r == if 0 <= j < |f| then Some(f[j]) else if j < 0 && f != [] then Some(f[|f| - 1]) else None
    {
      assert children[0..] == children;
      if j >= 0 {
        var i: nat, left := 0, j;
        ghost var f := Named(children, name);
        while left > 0
          invariant 0 <= left <= j && i <= |children|
          invariant Named(children[i..], name) == if j - left <= |f| then f[j - left..] else []
        {
          var _, next := NextChild(name, i);
          i, left := next, left - 1;
        }
        var last, _ := NextChild(name, i);
        return last;
      }
      var i: nat := |children|;
      assert children[..i] == children;
      while i > 0
        invariant 0 <= i <= |children| && Named(children, name) == Named(children[..i], name)
      {
        i := i - 1;
        NamedLast(children[..i + 1], name);
        assert children[..i + 1][..i] == children[..i];
        if HasName(children[i], name) {
          return Some(children[i]);
        }
      }
      return None;
    }
  }
}
