/** The escape codec of the XML library: predefined entities (section 4.6 of XML 1.0) out, entities and
    character references (section 4.1) in.  Both directions measure first and write afterwards. */
module Escape {
  import opened Wrappers
  import opened CStrings

  datatype DecodeError = UnknownEntity | CodeAbove255
  datatype Decoded = Ok(text: string) | Err(error: DecodeError)

  // ---------------------------------------------------------------- encoding

  /** The characters that have an entity. */
  predicate Special(c: char) {
    c == '&' || c == '<' || c == '>' || c == '\"' || c == '\''
  }

  function Entity(c: char): (r: string)
    requires Special(c)
    ensures 4 <= |r| <= 6
  {
    if c == '&' then "&amp;"
    else if c == '<' then "&lt;"
    else if c == '>' then "&gt;"
    else if c == '\"' then "&quot;"
    else "&apos;"
  }

  /** What the character at `i` becomes: its entity, or its own bytes. */
  function Piece(e: Encoding, s: string, i: nat): (r: string)
    requires i < |s|
    ensures r != ""
  {
    if Special(s[i]) then Entity(s[i]) else s[i..Advance(e, s, i)]
  }

  /** The escaped form of `s` from `i` on. */
  function EncodeFrom(e: Encoding, s: string, i: nat): (r: string)
    requires i <= |s|
    decreases |s| - i
  {
    if i == |s| then "" else Piece(e, s, i) + EncodeFrom(e, s, Advance(e, s, i))
  }

  function Encode(e: Encoding, s: string): string {
    EncodeFrom(e, s, 0)
  }

  lemma EncodeUnfold(e: Encoding, s: string, i: nat)
    requires i < |s|
    ensures EncodeFrom(e, s, i) == Piece(e, s, i) + EncodeFrom(e, s, Advance(e, s, i))
    ensures Special(s[i]) ==> Advance(e, s, i) == i + 1
  {
  }

  lemma EncodeDone(e: Encoding, s: string)
    ensures EncodeFrom(e, s, |s|) == ""
  {
  }

  /** The measuring pass. */
  method LengthXMLString(e: Encoding, source: string) returns (r: nat)
    requires Safe(e, source)
    ensures r == |Encode(e, source)|
  {
    r := 0;
    var i: nat := 0;
    ghost var rest := Encode(e, source);
    while i < |source|
      invariant i <= |source| && rest == EncodeFrom(e, source, i)
      invariant r + |rest| == |Encode(e, source)|
    {
      EncodeUnfold(e, source, i);
      ghost var next := Advance(e, source, i);
      rest := EncodeFrom(e, source, next);
      if Special(source[i]) {
        r := r + |Entity(source[i])|;
        i := i + 1;
      } else {
        var n := CharLen(e, source[i]);
        r := r + n;
        i := i + n;
      }
      assert i == next;
    }
  }

  lemma Assoc(a: string, b: string, c: string)
    ensures a + (b + c) == a + b + c
  {
  }

  lemma EncodeStep(e: Encoding, s: string, i: nat, n: nat, text: string, out: string) returns (rest: string)
    requires Safe(e, s) && i < |s| && n == CharLen(e, s[i]) && i + n <= |s|
    requires text == if Special(s[i]) then Entity(s[i]) else s[i..i + n]
    ensures rest == EncodeFrom(e, s, i + n)
    ensures out + EncodeFrom(e, s, i) == out + text + rest
  {
    EncodeUnfold(e, s, i);
    var next := Advance(e, s, i);
    assert next == i + n;
    rest := EncodeFrom(e, s, next);
    assert Piece(e, s, i) == text;
    Assoc(out, text, rest);
  }

  /** The writing pass: fills `dest` from `off` on and terminates the string. */
  method ToXMLUnSafe(e: Encoding, dest: array<char>, off: nat, source: string)
    requires Safe(e, source)
    requires off + |Encode(e, source)| < dest.Length
    modifies dest
    ensures dest[..off + |Encode(e, source)|] == old(dest[..off]) + Encode(e, source)
    ensures dest[off + |Encode(e, source)|] == '\0'
  {
    hide EncodeFrom, Piece, Entity;
    var i: nat, j: nat := 0, off;
    ghost var rest, out := Encode(e, source), dest[..off];
    ghost var goal := out + rest;
    while i < |source|
      invariant i <= |source| && rest == EncodeFrom(e, source, i)
      invariant j + |rest| == |goal| && |goal| < dest.Length && dest[..j] == out && out + rest == goal
    {
      var n, text := CharLen(e, source[i]), "";
      if Special(source[i]) {
        text := Entity(source[i]);
      } else {
        text := source[i..i + n];
      }
      rest := EncodeStep(e, source, i, n, text, out);
      StrCpy(dest, j, text);
      i, j, out := i + n, j + |text|, out + text;
    }
    EncodeDone(e, source);
    dest[j] := '\0';
  }

  /** `strcpy(dest + off, text)`, terminator included. */
  method StrCpy(dest: array<char>, off: nat, text: string)
    requires off + |text| < dest.Length
    modifies dest
    ensures dest[..off + |text|] == old(dest[..off]) + text
  {
    var k := 0;
    while k < |text|
      invariant k <= |text|
      invariant dest[..off + k] == old(dest[..off]) + text[..k]
    {
      dest[off + k] := text[k];
      assert text[..k + 1] == text[..k] + [text[k]];
      k := k + 1;
    }
    assert text[..k] == text;
    dest[off + k] := '\0';
  }

  // ---------------------------------------------------------------- decoding

  /** The entity at `i` that fits into `lo` bytes: the character it stands for and its length. */
  function EntityAt(s: string, i: nat, lo: int): (r: Option<(char, nat)>)
    ensures r.Some? ==> 4 <= r.value.1 <= 6 && r.value.1 <= lo && i + r.value.1 <= |s|
  {
    if lo >= 5 && PrefixNoCase(s, i, "&amp;") then Some(('&', 5))
    else if lo >= 4 && PrefixNoCase(s, i, "&lt;") then Some(('<', 4))
    else if lo >= 4 && PrefixNoCase(s, i, "&gt;") then Some(('>', 4))
    else if lo >= 6 && PrefixNoCase(s, i, "&quot;") then Some(('\"', 6))
    else if lo >= 6 && PrefixNoCase(s, i, "&apos;") then Some(('\'', 6))
    else None
  }

  /** At most one entity fits at a position, so the writing pass, which does not look at `lo`, finds the one
      that the counting pass found; and it never looks like a character reference. */
  lemma EntityUnique(s: string, i: nat, lo: int)
    requires EntityAt(s, i, lo).Some?
    ensures EntityAt(s, i, 6) == EntityAt(s, i, lo)
    ensures At(s, i) == '&' && At(s, i + 1) != '#'
  {
    if PrefixNoCase(s, i, "&amp;") {
      PrefixAt(s, i, "&amp;", 0);
      PrefixAt(s, i, "&amp;", 1);
      PrefixAt(s, i, "&amp;", 2);
    }
    if PrefixNoCase(s, i, "&lt;") {
      PrefixAt(s, i, "&lt;", 0);
      PrefixAt(s, i, "&lt;", 1);
    }
    if PrefixNoCase(s, i, "&gt;") {
      PrefixAt(s, i, "&gt;", 0);
      PrefixAt(s, i, "&gt;", 1);
    }
    if PrefixNoCase(s, i, "&quot;") {
      PrefixAt(s, i, "&quot;", 0);
      PrefixAt(s, i, "&quot;", 1);
    }
    if PrefixNoCase(s, i, "&apos;") {
      PrefixAt(s, i, "&apos;", 0);
      PrefixAt(s, i, "&apos;", 1);
      PrefixAt(s, i, "&apos;", 2);
    }
  }

  /** The counting pass looks for the `;` of a character reference: where it stops and what is left of `lo`. */
  function ReferenceEnd(s: string, k: nat, lo: int): (r: (nat, int))
    requires k <= |s|
    ensures k <= r.0 <= |s|
    ensures forall x :: k <= x < r.0 ==> At(s, x) != ';' && At(s, x) != '\0'
    decreases |s| - k
  {
    if At(s, k) == '\0' || At(s, k) == ';' then (k, lo)
    else if lo > 0 then ReferenceEnd(s, k + 1, lo - 1)
    else (k, lo - 1)
  }

  /** Where the digits of a character reference begin whose `&#` stands at `i`. */
  function DigitsAt(s: string, i: nat): (k: nat)
    requires At(s, i + 1) == '#'
    ensures i + 2 <= k <= i + 3 && k <= |s|
  {
    if At(s, i + 2) == 'X' || At(s, i + 2) == 'x' then i + 3 else i + 2
  }

  /** One unit of the counting pass: where the pass goes on, what is left of `lo`, how many bytes it has counted. */
  function CountUnit(e: Encoding, s: string, i: nat, lo: int): (r: Option<(nat, int, nat)>)
    requires i < |s|
    ensures r.Some? ==> i < r.value.0 <= |s| && 0 < r.value.2
  {
    if s[i] == '&' && lo > 2 && At(s, i + 1) == '#' then
      var k := DigitsAt(s, i);
      var end := ReferenceEnd(s, k, lo - (k - i));
      if At(s, end.0) != ';' then None else Some((end.0 + 1, end.1 - 1, 1))
    else if s[i] == '&' then
      var entity := EntityAt(s, i, lo);
      if entity.None? then None else Some((i + entity.value.1, lo - entity.value.1, 1))
    else
      var j := Advance(e, s, i);
      Some((j, lo - (j - i), j - i))
  }

  /** The counting pass over at most `lo` bytes from `i` on: how many bytes the decoded text has. */
  function Count(e: Encoding, s: string, i: nat, lo: int): (r: Option<nat>)
    requires i <= |s|
    decreases |s| - i
  {
    if lo <= 0 || At(s, i) == '\0' then Some(0)
    else
      var u := CountUnit(e, s, i, lo);
      if u.None? then None else Plus(u.value.2, Count(e, s, u.value.0, u.value.1))
  }

  function Plus(n: nat, r: Option<nat>): Option<nat> {
    if r.None? then None else Some(n + r.value)
  }

  /** The value of a character reference, digit by digit up to the `;`, after the digits read so far gave `j`:
      the value and the position of the `;`, or None on a wrong digit. */
  function ReferenceValue(s: string, k: nat, hex: bool, j: nat): (r: Option<(nat, nat)>)
    requires k <= |s|
    ensures r.Some? ==> k <= r.value.1 < |s| && s[r.value.1] == ';' && forall x :: k <= x < r.value.1 ==>
            At(s, x) != ';'
    decreases |s| - k
  {
    var c := At(s, k);
    if c == ';' then Some((j, k))
    else if '0' <= c <= '9' then ReferenceValue(s, k + 1, hex, (if hex then 16 else 10) * j + (c as int - '0' as int))
    else if hex && 'A' <= c <= 'F' then ReferenceValue(s, k + 1, hex, 16 * j + (c as int - 'A' as int) + 10)
    else if hex && 'a' <= c <= 'f' then ReferenceValue(s, k + 1, hex, 16 * j + (c as int - 'a' as int) + 10)
    else None
  }

  /** One unit of the writing pass: what it writes, and where it goes on. */
  function FillUnit(e: Encoding, s: string, i: nat): (r: (Decoded, nat))
    requires i <= |s|
    ensures i <= r.1 <= |s|
  {
    if At(s, i) == '&' && At(s, i + 1) == '#' then
      var k := DigitsAt(s, i);
      var v := ReferenceValue(s, k, k == i + 3, 0);
      if v.None? then (Err(UnknownEntity), i)
      else if v.value.0 > 255 then (Err(CodeAbove255), i)
      else (Ok([v.value.0 as char]), v.value.1 + 1)
    else if At(s, i) == '&' then
      var entity := EntityAt(s, i, 6);
      if entity.None? then (Ok(""), i) else (Ok([entity.value.0]), i + entity.value.1)
    else if i == |s| then (Ok(""), i)
    else (Ok(s[i..Advance(e, s, i)]), Advance(e, s, i))
  }

  function Prepend(t: string, r: Decoded): Decoded {
    if r.Err? then r else Ok(t + r.text)
  }

  /** The writing pass: decodes from `i` on until `ll` bytes are written. */
  function Fill(e: Encoding, s: string, i: nat, ll: int): (r: Decoded)
    requires i <= |s|
    decreases ll
  {
    if ll <= 0 then Ok("")
    else
      var u := FillUnit(e, s, i);
      if u.0.Err? then u.0
      else Prepend(u.0.text, Fill(e, s, u.1, if u.0.text == "" then ll - 1 else ll - |u.0.text|))
  }

  /** What `fromXMLString(s + i, lo)` gives back. */
  function Decode(e: Encoding, s: string, i: nat, lo: int): (r: Decoded)
    requires i <= |s|
  {
    var ll := Count(e, s, i, lo);
    if ll.None? then Err(UnknownEntity) else Fill(e, s, i, ll.value)
  }

  /** The two passes side by side: unless the writing pass stops with an error, it writes as many bytes as the
      counting pass has counted and goes on at the same place. */
  lemma UnitsAgree(e: Encoding, s: string, i: nat, lo: int)
    requires i < |s| && CountUnit(e, s, i, lo).Some?
    ensures var w := FillUnit(e, s, i);
            var c := CountUnit(e, s, i, lo).value;
            w.0.Ok? ==> w.1 == c.0 && |w.0.text| == c.2
  {
    if s[i] == '&' && lo > 2 && At(s, i + 1) == '#' {
      var k := DigitsAt(s, i);
      var end := ReferenceEnd(s, k, lo - (k - i));
      var v := ReferenceValue(s, k, k == i + 3, 0);
      if v.Some? {
        assert At(s, v.value.1) == At(s, end.0) == ';';
        assert v.value.1 == end.0;
      }
    } else if s[i] == '&' {
      EntityUnique(s, i, lo);
    }
  }

  lemma DecodeStep(e: Encoding, s: string, i: nat, lo: int)
    requires i < |s| && lo > 0 && s[i] != '\0' && CountUnit(e, s, i, lo).Some?
    requires FillUnit(e, s, i).0.Ok?
    ensures var c := CountUnit(e, s, i, lo).value;
            Count(e, s, c.0, c.1).Some? ==>
                Decode(e, s, i, lo) == Prepend(FillUnit(e, s, i).0.text, Decode(e, s, c.0, c.1))
  {
    UnitsAgree(e, s, i, lo);
  }

  /** The counting pass predicts exactly how many bytes the writing pass writes. */
  lemma {:induction false} CountPredictsFill(e: Encoding, s: string, i: nat, lo: int)
    requires i <= |s| && Decode(e, s, i, lo).Ok?
    ensures Count(e, s, i, lo) == Some(|Decode(e, s, i, lo).text|)
    decreases |s| - i
  {
    hide CountUnit, FillUnit;
    if lo > 0 && At(s, i) != '\0' {
      var u := CountUnit(e, s, i, lo).value;
      UnitsAgree(e, s, i, lo);
      DecodeStep(e, s, i, lo);
      CountPredictsFill(e, s, u.0, u.1);
    }
  }

  /** `fromXMLString`: the counting pass, then the writing pass into a buffer of the counted size. */
  method FromXMLString(e: Encoding, s: string, i: nat, lo: int) returns (r: Decoded)
    requires Safe(e, s) && i <= |s|
    ensures r == Decode(e, s, i, lo)
  {
    hide CountUnit;
    var ll: nat, p: nat, left := 0, i, lo;
    while left > 0 && At(s, p) != '\0'
      invariant p <= |s|
      invariant Count(e, s, i, lo) == Plus(ll, Count(e, s, p, left))
      decreases |s| - p
    {
      var unit := CountOne(e, s, p, left);
      if unit.None? {
        return Err(UnknownEntity);
      }
      p, left, ll := unit.value.0, unit.value.1, ll + unit.value.2;
    }
    r := FillBuffer(e, s, i, lo, ll);
  }

  /** The body of the counting loop. */
  method CountOne(e: Encoding, s: string, p: nat, lo: int) returns (unit: Option<(nat, int, nat)>)
    requires Safe(e, s) && p < |s|
    ensures unit == CountUnit(e, s, p, lo)
  {
    hide EntityAt, ReferenceEnd;
    if s[p] == '&' {
      if lo > 2 && At(s, p + 1) == '#' {
        var q, left := p + 2, lo - 2;
        if At(s, q) == 'X' || At(s, q) == 'x' {
          q, left := q + 1, left - 1;
        }
        q, left := SkipReference(s, q, left);
        unit := if At(s, q) != ';' then None else Some((q + 1, left - 1, 1));
      } else {
        var entity := EntityAt(s, p, lo);
        unit := if entity.None? then None else Some((p + entity.value.1, lo - entity.value.1, 1));
      }
    } else {
      var j := CharLen(e, s[p]);
      unit := Some((p + j, lo - j, j));
    }
  }

  /** The inner loop of the counting pass, over the digits of a character reference. */
  method SkipReference(s: string, k: nat, lo: int) returns (p: nat, left: int)
    requires k <= |s|
    ensures (p, left) == ReferenceEnd(s, k, lo)
  {
    p, left := k, lo;
    while At(s, p) != '\0' && At(s, p) != ';'
      invariant p <= |s| && ReferenceEnd(s, k, lo) == ReferenceEnd(s, p, left)
      decreases |s| - p
    {
      left := left - 1;
      if left < 0 {
        return;
      }
      p := p + 1;
    }
  }

  /** The writing pass.  No write leaves the buffer of `ll` bytes and a terminator. */
  method FillBuffer(e: Encoding, s: string, i: nat, lo: int, ll: nat) returns (r: Decoded)
    requires Safe(e, s) && i <= |s| && Count(e, s, i, lo) == Some(ll)
    ensures r == Fill(e, s, i, ll)
  {
    hide Fill, Count, FillUnit;
    var d := new char[ll + 1];
    var w: nat, p: nat := 0, i;
    ghost var left := lo;
    while w < ll
      invariant p <= |s| && w <= ll && Count(e, s, p, left) == Some(ll - w)
      invariant Fill(e, s, i, ll) == Prepend(d[..w], Fill(e, s, p, ll - w))
      decreases ll - w
    {
      left := FillStep(e, s, p, left, ll - w, d[..w]);
      var piece, q := FillOne(e, s, p);
      if piece.Err? {
        return piece;
      }
      StrCpy(d, w, piece.text);
      p, w := q, w + |piece.text|;
    }
    d[w] := '\0';
    FillDone(e, s, p);
    r := Ok(d[..w]);
  }

  lemma FillDone(e: Encoding, s: string, i: nat)
    requires i <= |s|
    ensures Fill(e, s, i, 0) == Ok("")
  {
  }

  /** One turn of the writing loop, `done` being what it has written before. */
  lemma FillStep(e: Encoding, s: string, p: nat, lo: int, rem: nat, done: string) returns (left: int)
    requires p <= |s| && Count(e, s, p, lo) == Some(rem) && rem > 0
    ensures p < |s|
    ensures var u := FillUnit(e, s, p);
            if u.0.Err? then Fill(e, s, p, rem) == u.0
            else 0 < |u.0.text| <= rem && Count(e, s, u.1, left) == Some(rem - |u.0.text|)
                 && Prepend(done, Fill(e, s, p, rem)) == Prepend(done + u.0.text, Fill(e, s, u.1, rem - |u.0.text|))
  {
    hide CountUnit, FillUnit;
    left := CountUnit(e, s, p, lo).value.1;
    UnitsAgree(e, s, p, lo);
    var u := FillUnit(e, s, p);
    if u.0.Ok? {
      var tail := Fill(e, s, u.1, rem - |u.0.text|);
      assert Fill(e, s, p, rem) == Prepend(u.0.text, tail);
      if tail.Ok? {
        Assoc(done, u.0.text, tail.text);
      }
    }
  }

  /** The body of the writing loop: what it writes and where it goes on. */
  method FillOne(e: Encoding, s: string, p: nat) returns (piece: Decoded, q: nat)
    requires Safe(e, s) && p < |s|
    ensures (piece, q) == FillUnit(e, s, p)
  {
    hide EntityAt, ReferenceValue;
    if s[p] == '&' {
      if At(s, p + 1) == '#' {
        var hex := At(s, p + 2) == 'X' || At(s, p + 2) == 'x';
        var v := ReadReference(s, DigitsAt(s, p), hex);
        if v.None? {
          return Err(UnknownEntity), p;
        }
        if v.value.0 > 255 {
          return Err(CodeAbove255), p;
        }
        return Ok([v.value.0 as char]), v.value.1 + 1;
      }
      var entity := EntityAt(s, p, 6);
      if entity.None? {
        return Ok(""), p;
      }
      return Ok([entity.value.0]), p + entity.value.1;
    }
    return Ok(s[p..p + CharLen(e, s[p])]), p + CharLen(e, s[p]);
  }

  /** The loops over the digits of a character reference. */
  method ReadReference(s: string, k: nat, hex: bool) returns (r: Option<(nat, nat)>)
    requires k <= |s|
    ensures r == ReferenceValue(s, k, hex, 0)
  {
    var p: nat, j: nat := k, 0;
    while At(s, p) != ';'
      invariant p <= |s| && ReferenceValue(s, k, hex, 0) == ReferenceValue(s, p, hex, j)
      decreases |s| - p
    {
      var c := At(s, p);
      if '0' <= c <= '9' {
        j := (if hex then 16 else 10) * j + (c as int - '0' as int);
      } else if hex && 'A' <= c <= 'F' {
        j := 16 * j + (c as int - 'A' as int) + 10;
      } else if hex && 'a' <= c <= 'f' {
        j := 16 * j + (c as int - 'a' as int) + 10;
      } else {
        return None;
      }
      p := p + 1;
    }
    return Some((j, p));
  }

  // ---------------------------------------------------------------- round trip

  /** One character of an encoded text is decoded to the character it came from. */
  lemma UnitRoundTrip(e: Encoding, v: string, k: nat, s: string, i: nat, lo: int)
    requires Safe(e, v) && k < |v| && Has(s, i, Piece(e, v, k)) && lo >= |Piece(e, v, k)|
    ensures var j := Advance(e, v, k);
            i < |s| && s[i] != '\0'
            && CountUnit(e, s, i, lo) == Some((i + |Piece(e, v, k)|, lo - |Piece(e, v, k)|, j - k))
            && FillUnit(e, s, i) == (Ok(v[k..j]), i + |Piece(e, v, k)|)
  {
    hide EntityAt, Entity, ReferenceEnd, ReferenceValue, CountUnit, FillUnit, PrefixNoCase;
    if Special(v[k]) {
      SpecialRoundTrip(v[k], s, i, lo, e);
      assert v[k..k + 1] == [v[k]];
    } else {
      PlainRoundTrip(e, v, k, s, i, lo);
    }
  }

  lemma SpecialRoundTrip(c: char, s: string, i: nat, lo: int, e: Encoding)
    requires Special(c) && Has(s, i, Entity(c)) && lo >= |Entity(c)|
    ensures i < |s| && s[i] != '\0'
    ensures CountUnit(e, s, i, lo) == Some((i + |Entity(c)|, lo - |Entity(c)|, 1))
    ensures FillUnit(e, s, i) == (Ok([c]), i + |Entity(c)|)
  {
    hide EntityAt, ReferenceEnd, ReferenceValue;
    var w := Entity(c);
    HasAt(s, i, w, 0);
    forall x | 0 <= x < |w| ensures At(s, i + x) == w[x] {
      HasAt(s, i, w, x);
    }
    assert PrefixNoCase(s, i, w);
    assert s[i] == '&';
    EntityRead(s, i, c, lo);
    hide Entity;
  }

  lemma PlainRoundTrip(e: Encoding, v: string, k: nat, s: string, i: nat, lo: int)
    requires Safe(e, v) && k < |v| && !Special(v[k]) && Has(s, i, v[k..Advance(e, v, k)])
    ensures i < |s| && s[i] != '\0'
    ensures var j := Advance(e, v, k);
            CountUnit(e, s, i, lo) == Some((i + (j - k), lo - (j - k), j - k))
                && FillUnit(e, s, i) == (Ok(v[k..j]), i + (j - k))
  {
    hide EntityAt, Entity, ReferenceEnd, ReferenceValue;
    var j := Advance(e, v, k);
    HasAt(s, i, v[k..j], 0);
    assert Advance(e, s, i) == i + (j - k);
    assert s[i..i + (j - k)] == v[k..j];
  }

  lemma EntityRead(s: string, i: nat, c: char, lo: int)
    requires Special(c) && PrefixNoCase(s, i, Entity(c)) && lo >= |Entity(c)|
    ensures EntityAt(s, i, lo) == EntityAt(s, i, 6) == Some((c, |Entity(c)|))
    ensures At(s, i + 1) != '#'
  {
    PrefixAt(s, i, Entity(c), 1);
    PrefixAt(s, i, Entity(c), 2);
    if EntityAt(s, i, lo).Some? {
      EntityUnique(s, i, lo);
    }
    if PrefixNoCase(s, i, "&amp;") {
      PrefixAt(s, i, "&amp;", 1);
      PrefixAt(s, i, "&amp;", 2);
    }
    if PrefixNoCase(s, i, "&lt;") {
      PrefixAt(s, i, "&lt;", 1);
    }
    if PrefixNoCase(s, i, "&gt;") {
      PrefixAt(s, i, "&gt;", 1);
    }
    if PrefixNoCase(s, i, "&quot;") {
      PrefixAt(s, i, "&quot;", 1);
    }
  }

  /** Wherever an encoded text stands, decoding it gives the text back. */
  lemma {:induction false} DecodeEncodeFrom(e: Encoding, v: string, k: nat, s: string, i: nat)
    requires Safe(e, v) && k <= |v| && Has(s, i, EncodeFrom(e, v, k))
    ensures Count(e, s, i, |EncodeFrom(e, v, k)|) == Some(|v| - k)
    ensures Decode(e, s, i, |EncodeFrom(e, v, k)|) == Ok(v[k..])
    decreases |v| - k
  {
    hide CountUnit, FillUnit, Piece, Advance;
    if k < |v| {
      var w, j := Piece(e, v, k), Advance(e, v, k);
      var rest := EncodeFrom(e, v, j);
      HasAppend(s, i, w, rest);
      UnitRoundTrip(e, v, k, s, i, |w + rest|);
      DecodeEncodeFrom(e, v, j, s, i + |w|);
      DecodeStep(e, s, i, |w + rest|);
      assert v[k..j] + v[j..] == v[k..];
    }
  }

  /** `fromXMLString` undoes `toXML`, whatever follows the encoded text. */
  lemma RoundTrip(e: Encoding, v: string, s: string, i: nat)
    requires Safe(e, v) && Has(s, i, Encode(e, v))
    ensures Decode(e, s, i, |Encode(e, v)|) == Ok(v)
  {
    DecodeEncodeFrom(e, v, 0, s, i);
    assert v[0..] == v;
  }
}
