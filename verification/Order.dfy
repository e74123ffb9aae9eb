/** The order index of a node: `pOrder` says how its arrays of children, texts and clear tags are interleaved.
    Entry `(index << 2) + kind` stands for the item number `index` of that kind. */
module Order {

  datatype Kind = KindChild | KindText | KindClear

  function Code(k: Kind): (c: nat)
    ensures c < 4 && c != 1
  {
    match k case KindChild => 0 case KindText => 2 case KindClear => 3
  }

  function Pack(index: nat, k: Kind): (o: int)
    ensures o / 4 == index && o % 4 == Code(k)
  {
    4 * index + Code(k)
  }

  predicate IsKind(o: int, k: Kind) {
    o % 4 == Code(k)
  }

  /** How many entries of `ks` are `k`. */
  function Count(ks: seq<Kind>, k: Kind): (n: nat)
    ensures n <= |ks|
  {
    if ks == [] then 0 else Count(ks[..|ks| - 1], k) + if ks[|ks| - 1] == k then 1 else 0
  }

  /** The index array of a list whose items have the kinds `ks`: the entries of each kind are numbered 0, 1, ... */
  function Canon(ks: seq<Kind>): (o: seq<int>)
    ensures |o| == |ks|
  {
    seq(|ks|, i requires 0 <= i < |ks| => Pack(Count(ks[..i], ks[i]), ks[i]))
  }

  /** An index array is valid when it is the index array of some list. */
  ghost predicate ValidOrder(o: seq<int>) {
    exists ks :: o == Canon(ks)
  }

  lemma {:induction false} CountConcat(a: seq<Kind>, b: seq<Kind>, k: Kind)
    ensures Count(a + b, k) == Count(a, k) + Count(b, k)
    decreases |b|
  {
    if b == [] {
      assert a + b == a;
    } else {
      assert (a + b)[..|a + b| - 1] == a + b[..|b| - 1];
      CountConcat(a, b[..|b| - 1], k);
    }
  }

  lemma CountSplit(ks: seq<Kind>, i: nat, j: nat, k: Kind)
    requires i <= j <= |ks|
    ensures Count(ks[..j], k) == Count(ks[..i], k) + Count(ks[i..j], k)
  {
    CountConcat(ks[..i], ks[i..j], k);
    assert ks[..j] == ks[..i] + ks[i..j];
  }

  lemma CountAt(ks: seq<Kind>, i: nat, k: Kind)
    requires i < |ks|
    ensures Count(ks[..i + 1], k) == Count(ks[..i], k) + if ks[i] == k then 1 else 0
  {
    assert ks[..i + 1][..i] == ks[..i];
  }

  // ---------------------------------------------------------------- looking up

  /** Each item of a list has exactly one entry in its index array. */
  lemma EntryUnique(ks: seq<Kind>, i: nat, j: nat)
    requires i < |ks| && j < |ks| && Canon(ks)[i] == Canon(ks)[j]
    ensures i == j
  {
    var k := ks[i];
    assert ks[j] == k;
    if i < j {
      CountAt(ks, i, k);
      CountSplit(ks, i + 1, j, k);
    } else if j < i {
      CountAt(ks, j, k);
      CountSplit(ks, j + 1, i, k);
    }
  }

  /** The position of item number `index` of kind `k`. */
  ghost function Position(ks: seq<Kind>, k: Kind, index: nat): (p: nat)
    requires index < Count(ks, k)
    ensures p < |ks| && ks[p] == k && Count(ks[..p], k) == index
  {
    var n := |ks| - 1;
    assert ks[..n + 1] == ks;
    if ks[n] == k && Count(ks[..n], k) == index then n
    else
      var p := Position(ks[..n], k, index);
      assert ks[..n][..p] == ks[..p];
      p
  }

  // ---------------------------------------------------------------- removing

  /** `o` with the entries of kind `k` from position `i` on renumbered by `d`. */
  function Renumber(o: seq<int>, i: nat, k: Kind, d: int): (r: seq<int>)
    ensures |r| == |o|
  {
    seq(|o|, j requires 0 <= j < |o| => if i <= j && IsKind(o[j], k) then o[j] + 4 * d else o[j])
  }

  function RemoveAt<T>(s: seq<T>, i: nat): seq<T>
    requires i < |s|
  {
    s[..i] + s[i + 1..]
  }

  function InsertAt<T>(s: seq<T>, i: nat, x: T): seq<T>
    requires i <= |s|
  {
    s[..i] + [x] + s[i..]
  }

  /** How many items of kind `c` precede position `j` once the item at `p` is gone. */
  lemma CountRemoved(ks: seq<Kind>, p: nat, j: nat, c: Kind)
    requires p < |ks| && j < |ks|
    ensures Count(RemoveAt(ks, p)[..j], c)
         == if j < p then Count(ks[..j], c) else Count(ks[..j + 1], c) - if ks[p] == c then 1 else 0
  {
    var ls := RemoveAt(ks, p);
    if j < p {
      assert ls[..j] == ks[..j];
    } else {
      assert ls[..j] == ks[..p] + ks[p + 1..j + 1];
      CountConcat(ks[..p], ks[p + 1..j + 1], c);
      CountAt(ks, p, c);
      CountSplit(ks, p + 1, j + 1, c);
    }
  }

  /** Removing an entry and renumbering the later ones of its kind gives the index array of the shorter list. */
  lemma RemoveRenumbers(ks: seq<Kind>, p: nat)
    requires p < |ks|
    ensures Renumber(RemoveAt(Canon(ks), p), p, ks[p], -1) == Canon(RemoveAt(ks, p))
  {
    hide Count;
    var o, ls := Canon(ks), RemoveAt(ks, p);
    forall j | 0 <= j < |ls| ensures Renumber(RemoveAt(o, p), p, ks[p], -1)[j] == Canon(ls)[j] {
      assert RemoveAt(o, p)[j] == if j < p then o[j] else o[j + 1];
      CountRemoved(ks, p, j, ls[j]);
    }
  }

  // ---------------------------------------------------------------- adding

  /** The first position from `q` on, and before `n`, whose entry has kind `k`; `n` if there is none. */
  function NextOfKind(o: seq<int>, q: nat, n: nat, k: Kind): (r: nat)
    requires q <= n <= |o|
    ensures q <= r <= n && (r < n ==> IsKind(o[r], k)) && forall j :: q <= j < r ==> !IsKind(o[j], k)
    decreases n - q
  {
    if q < n && !IsKind(o[q], k) then NextOfKind(o, q + 1, n, k) else q
  }

  /** What `addToOrder` makes of the index array, and the array index it gives to the new item, the `nc` items of
      kind `k` being there already. */
  function AddToOrder(o: seq<int>, pos: int, nc: nat, k: Kind): (r: (seq<int>, int)) {
    var n := |o|;
    if pos < 0 || pos >= n then (o + [Pack(nc, k)], nc)
    else
      var moved := o[..pos + 1] + o[pos..];
      var q := NextOfKind(moved, pos, n, k);
      if q == n then (moved[n := Pack(nc, k)], nc)
      else (Renumber(moved[pos := moved[q]], q + 1, k, 1), moved[q] / 4)
  }

  /** Appending: no position, or one behind the end. */
  lemma AddAppends(ks: seq<Kind>, pos: int, k: Kind)
    requires pos < 0 || pos >= |ks|
    ensures AddToOrder(Canon(ks), pos, Count(ks, k), k) == (Canon(ks + [k]), Count(ks, k))
  {
    var ls := ks + [k];
    forall j | 0 <= j < |ks| ensures Canon(ls)[j] == Canon(ks)[j] {
      assert ls[..j] == ks[..j];
    }
    assert ls[..|ks|] == ks;
    assert Canon(ls) == Canon(ks) + [Pack(Count(ks, k), k)];
  }

  /** How many items of kind `c` precede position `j` once an item of kind `k` has been put before position `p`. */
  lemma CountInserted(ks: seq<Kind>, p: nat, k: Kind, j: nat, c: Kind)
    requires p <= |ks| && j <= |ks| + 1
    ensures Count(InsertAt(ks, p, k)[..j], c)
         == if j <= p then Count(ks[..j], c) else Count(ks[..j - 1], c) + if k == c then 1 else 0
  {
    var ls := InsertAt(ks, p, k);
    if j <= p {
      assert ls[..j] == ks[..j];
    } else {
      assert ls[..j] == ks[..p] + ([k] + ks[p..j - 1]);
      CountConcat(ks[..p], [k] + ks[p..j - 1], c);
      CountConcat([k], ks[p..j - 1], c);
      CountSplit(ks, p, j - 1, c);
      assert [k][..0] == [];
    }
  }

  /** Inserting before an item of the same kind. */
  lemma AddInserts(ks: seq<Kind>, pos: nat, k: Kind)
    requires pos < |ks| && ks[pos] == k
    ensures AddToOrder(Canon(ks), pos, Count(ks, k), k) == (Canon(InsertAt(ks, pos, k)), Count(ks[..pos], k))
  {
    hide Count;
    var o, ls := Canon(ks), InsertAt(ks, pos, k);
    var moved := o[..pos + 1] + o[pos..];
    assert moved[pos := moved[pos]] == moved;
    var r := Renumber(moved, pos + 1, k, 1);
    forall j | 0 <= j < |ls| ensures r[j] == Canon(ls)[j] {
      CountInserted(ks, pos, k, j, ls[j]);
    }
    assert r == Canon(ls);
  }

  lemma EntryBound(ks: seq<Kind>, i: nat, k: Kind)
    requires i < |ks| && IsKind(Canon(ks)[i], k)
    ensures 0 <= Canon(ks)[i] / 4 <= Count(ks, k)
  {
    hide Count;
    assert Canon(ks)[i] == Pack(Count(ks[..i], ks[i]), ks[i]);
    CountSplit(ks, i, |ks|, k);
    assert ks[..|ks|] == ks;
  }

  /** The entry that `addToOrder` looks for, in the array with a gap at `pos`, is one of the old entries. */
  lemma MovedBound(ks: seq<Kind>, pos: nat, q: nat, k: Kind)
    requires pos < |ks| && pos <= q < |ks|
    ensures var moved := Canon(ks)[..pos + 1] + Canon(ks)[pos..];
            IsKind(moved[q], k) ==> 0 <= moved[q] / 4 <= Count(ks, k)
  {
    var i := if q == pos then pos else q - 1;
    if IsKind(Canon(ks)[i], k) {
      EntryBound(ks, i, k);
    }
  }

  /** The array index given to a new item never lies outside the array. */
  lemma AddIndexBound(ks: seq<Kind>, pos: int, k: Kind)
    ensures 0 <= AddToOrder(Canon(ks), pos, Count(ks, k), k).1 <= Count(ks, k)
  {
    if 0 <= pos < |ks| {
      var q := NextOfKind(Canon(ks)[..pos + 1] + Canon(ks)[pos..], pos, |ks|, k);
      if q < |ks| {
        hide Count, Canon, Renumber;
        MovedBound(ks, pos, q, k);
      }
    }
  }

  /** Asked to insert before a last item of another kind, the code appends. */
  lemma AddBeforeLast(ks: seq<Kind>, k: Kind)
    requires ks != [] && ks[|ks| - 1] != k
    ensures AddToOrder(Canon(ks), |ks| - 1, Count(ks, k), k) == (Canon(ks + [k]), Count(ks, k))
  {
    assert !IsKind(Canon(ks)[|ks| - 1], k);
    hide AddToOrder, Count, Canon;
    AppendsLast(Canon(ks), Count(ks, k), k);
    AddAppends(ks, -1, k);
  }

  lemma AppendsLast(o: seq<int>, nc: nat, k: Kind)
    requires o != [] && !IsKind(o[|o| - 1], k)
    ensures AddToOrder(o, |o| - 1, nc, k) == (o + [Pack(nc, k)], nc)
  {
    var n := |o|;
    var moved := o[..n] + o[n - 1..];
    assert !IsKind(moved[n - 1], k);
    assert NextOfKind(moved, n - 1, n, k) == n;
    assert moved[n := Pack(nc, k)] == o + [Pack(nc, k)];
  }

  /** Before an item of another kind the index array does not survive, except before the very last item, where
      the new item silently goes to the end instead: the position asked for is met exactly when the item there
      has the kind of the new one. */
  lemma AddExactly(ks: seq<Kind>, pos: nat, k: Kind)
    requires pos < |ks|
    ensures var r := AddToOrder(Canon(ks), pos, Count(ks, k), k).0;
            && (ValidOrder(r) <==> ks[pos] == k || pos == |ks| - 1)
            && (r == Canon(InsertAt(ks, pos, k)) <==> ks[pos] == k)
  {
    var o, nc := Canon(ks), Count(ks, k);
    if ks[pos] == k {
      AddInserts(ks, pos, k);
    } else if pos == |ks| - 1 {
      AddBeforeLast(ks, k);
      CanonInjectiveInsert(ks, pos, k);
    } else {
      assert !IsKind(o[pos], k);
      hide AddToOrder, Count;
      var i, j := AddDuplicates(o, pos, nc, k);
      DuplicateInvalid(AddToOrder(o, pos, nc, k).0, i, j);
    }
  }

  /** Two entries of the array are the same: the one at the position and its shifted copy, or the next one of the
      kind and the one put before it. */
  lemma AddDuplicates(o: seq<int>, pos: nat, nc: nat, k: Kind) returns (i: nat, j: nat)
    requires pos + 1 < |o| && !IsKind(o[pos], k)
    ensures var r := AddToOrder(o, pos, nc, k).0;
            i < j < |r| && r[i] == r[j]
  {
    var n := |o|;
    var moved := o[..pos + 1] + o[pos..];
    var q := NextOfKind(moved, pos, n, k);
    assert !IsKind(moved[pos], k);
    i, j := pos, if q == n then pos + 1 else q;
  }

  /** The input: a text put in front of a child that a text follows. */
  lemma IndexBreaks()
    ensures var ks := [KindChild, KindText];
            !ValidOrder(AddToOrder(Canon(ks), 0, Count(ks, KindText), KindText).0)
  {
    AddExactly([KindChild, KindText], 0, KindText);
  }

  lemma CanonInjectiveInsert(ks: seq<Kind>, pos: nat, k: Kind)
    requires pos < |ks| && ks[pos] != k
    ensures Canon(ks + [k]) != Canon(InsertAt(ks, pos, k))
  {
    assert Canon(ks + [k])[pos] % 4 == Code(ks[pos]);
    assert Canon(InsertAt(ks, pos, k))[pos] % 4 == Code(k);
  }

  lemma DuplicateInvalid(r: seq<int>, i: nat, j: nat)
    requires i < j < |r| && r[i] == r[j]
    ensures !ValidOrder(r)
  {
    forall ks | r == Canon(ks) ensures false {
      EntryUnique(ks, i, j);
    }
  }
}
