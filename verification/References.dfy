/** Entities and character references: what an escaped text stands for, by the notation of numbers and by the names of
    section 4.6 of XML 1.0, and that the decoder reads it so. */
module References {
  import opened Wrappers
  import opened CStrings
  import opened Escape

  // ---------------------------------------------------------------- numerals and entities

  /** `c` is the digit of value `n`, in either case. */
  predicate DigitOf(c: char, n: nat)
    requires n < 16
  {
    c == "0123456789abcdef"[n] || c == "0123456789ABCDEF"[n]
  }

  predicate NoDigit(c: char, base: nat)
    requires base <= 16
  {
    forall n :: 0 <= n < base ==> !DigitOf(c, n)
  }

  /** `t` is the number `v` in positional notation, with any number of leading zeros. */
  predicate Spells(t: string, base: nat, v: nat)
    requires base == 10 || base == 16
    decreases |t|
  {
    if t == "" then v == 0 else DigitOf(t[|t| - 1], v % base) && Spells(t[..|t| - 1], base, v / base)
  }

  predicate SameLetters(name: string, lower: string) {
    |name| == |lower| && forall k :: 0 <= k < |name| ==> Lower(name[k]) == lower[k]
  }

  /** The predefined entities of section 4.6 of XML 1.0; the library takes them in any case. */
  predicate Predefined(name: string, c: char) {
    || (SameLetters(name, "amp") && c == '&')
    || (SameLetters(name, "lt") && c == '<')
    || (SameLetters(name, "gt") && c == '>')
    || (SameLetters(name, "quot") && c == '\"')
    || (SameLetters(name, "apos") && c == '\'')
  }

  /** What an escaped text is made of: characters of the encoding, entities and character references.  The value of a
      reference is missing if one of its characters is no digit. */
  datatype Unit =
    | Plain(text: string)
    | Named(name: string, c: char)
    | Coded(mark: string, digits: string, v: Option<nat>)

  function Base(mark: string): nat {
    if mark == "" then 10 else 16
  }

  predicate GoodUnit(e: Encoding, u: Unit) {
    match u
    case Plain(text) => text != "" && text[0] != '&' && '\0' !in text && |text| == CharLen(e, text[0])
    case Named(name, c) => Predefined(name, c)
    case Coded(mark, digits, v) =>
      && mark in ["", "x", "X"] && ';' !in digits && '\0' !in digits
      && (mark == "" && digits != "" ==> digits[0] != 'x' && digits[0] != 'X')
      && if v.Some? then Spells(digits, Base(mark), v.value)
         else exists i :: 0 <= i < |digits| && NoDigit(digits[i], Base(mark))
  }

  function WriteUnit(u: Unit): string {
    match u
    case Plain(text) => text
    case Named(name, _) => "&" + name + ";"
    case Coded(mark, digits, _) => "&#" + mark + (digits + ";")
  }

  function WriteUnits(units: seq<Unit>): string {
    if units == [] then "" else WriteUnit(units[0]) + WriteUnits(units[1..])
  }

  /** The bytes that a unit stands for, or the error that it is. */
  function Meaning(u: Unit): Decoded {
    match u
    case Plain(text) => Ok(text)
    case Named(_, c) => Ok([c])
    case Coded(_, _, v) =>
      if v.None? then Err(UnknownEntity) else if v.value > 255 then Err(CodeAbove255) else Ok([v.value as char])
  }

  /** The bytes that a text stands for, or its first error. */
  function Meanings(units: seq<Unit>): Decoded {
    if units == [] then Ok("")
    else if Meaning(units[0]).Err? then Meaning(units[0])
    else Prepend(Meaning(units[0]).text, Meanings(units[1..]))
  }

  // ---------------------------------------------------------------- what the decoder reads

  lemma DigitRead(s: string, k: nat, hex: bool, j: nat, n: nat)
    requires k < |s| && n < (if hex then 16 else 10) && DigitOf(s[k], n)
    ensures ReferenceValue(s, k, hex, j) == ReferenceValue(s, k + 1, hex, (if hex then 16 else 10) * j + n)
  {
  }

  lemma WrongDigit(s: string, k: nat, hex: bool, j: nat)
    requires k < |s| && s[k] != ';' && NoDigit(s[k], if hex then 16 else 10)
    ensures ReferenceValue(s, k, hex, j).None?
  {
    var c := s[k];
    if '0' <= c <= '9' {
      assert DigitOf(c, c as int - '0' as int);
    } else if hex && 'A' <= c <= 'F' {
      assert DigitOf(c, c as int - 'A' as int + 10);
    } else if hex && 'a' <= c <= 'f' {
      assert DigitOf(c, c as int - 'a' as int + 10);
    }
  }

  /** The digits of a numeral are read one by one. */
  lemma {:induction false} DigitsRead(s: string, k: nat, t: string, hex: bool, v: nat)
    requires k <= |s| && Has(s, k, t) && Spells(t, if hex then 16 else 10, v)
    ensures ReferenceValue(s, k, hex, 0) == ReferenceValue(s, k + |t|, hex, v)
    decreases |t|
  {
    hide ReferenceValue, DigitOf;
    if t != "" {
      var n, base := |t| - 1, if hex then 16 else 10;
      assert t == t[..n] + [t[n]];
      HasAppend(s, k, t[..n], [t[n]]);
      HasAt(s, k, t, n);
      DigitsRead(s, k, t[..n], hex, v / base);
      DigitRead(s, k + n, hex, v / base, v % base);
    }
  }

  /** A character that is no digit makes the reference unknown. */
  lemma {:induction false} NoDigitRead(s: string, k: nat, t: string, hex: bool, j: nat, i: nat)
    requires k <= |s| && Has(s, k, t) && ';' !in t && '\0' !in t && i < |t| && NoDigit(t[i], if hex then 16 else 10)
    ensures ReferenceValue(s, k, hex, j).None?
    decreases i
  {
    hide ReferenceValue, DigitOf, Has;
    var base := if hex then 16 else 10;
    HasAt(s, k, t, 0);
    if NoDigit(t[0], base) {
      WrongDigit(s, k, hex, j);
    } else {
      assert [t[0]] + t[1..] == t;
      HasAppend(s, k, [t[0]], t[1..]);
      var n :| 0 <= n < base && DigitOf(t[0], n);
      DigitRead(s, k, hex, j, n);
      NoDigitRead(s, k + 1, t[1..], hex, base * j + n, i - 1);
    }
  }

  lemma {:induction false} ReferenceEnds(s: string, k: nat, t: string, lo: int)
    requires k <= |s| && Has(s, k, t + ";") && ';' !in t && '\0' !in t && lo >= |t|
    ensures ReferenceEnd(s, k, lo) == (k + |t|, lo - |t|)
    decreases |t|
  {
    HasAt(s, k, t + ";", 0);
    if t != "" {
      assert [t[0]] + (t[1..] + ";") == t + ";";
      HasAppend(s, k, [t[0]], t[1..] + ";");
      ReferenceEnds(s, k + 1, t[1..], lo - 1);
    }
  }

  /** Where the pieces of a character reference are. */
  lemma CodedPieces(e: Encoding, u: Unit, s: string, i: nat)
    requires u.Coded? && GoodUnit(e, u) && Has(s, i, WriteUnit(u))
    ensures var k, n := i + 2 + |u.mark|, |u.digits|;
            && k + n < |s| && k + n + 1 == i + |WriteUnit(u)| && s[i] == '&' && s[i + 1] == '#' && s[k + n] == ';'
            && Has(s, k, u.digits) && Has(s, k, u.digits + ";") && DigitsAt(s, i) == k
  {
    hide Has, Spells, NoDigit;
    var t := u.digits;
    var k := i + 2 + |u.mark|;
    HasAppend(s, i, "&#" + u.mark, t + ";");
    HasAppend(s, i, "&#", u.mark);
    HasAppend(s, k, t, ";");
    HasAt(s, i, "&#", 0);
    HasAt(s, i, "&#", 1);
    HasAt(s, k, t + ";", 0);
    HasAt(s, k + |t|, ";", 0);
    if u.mark != "" {
      HasAt(s, i + 2, u.mark, 0);
    }
  }

  lemma CodedValue(e: Encoding, u: Unit, s: string, i: nat)
    requires u.Coded? && GoodUnit(e, u) && Has(s, i, WriteUnit(u))
    ensures var k := i + 2 + |u.mark|;
            var v := ReferenceValue(s, k, u.mark != "", 0);
            k <= |s| && if u.v.Some? then v == Some((u.v.value, k + |u.digits|)) else v == None
  {
    hide ReferenceValue, Spells, NoDigit, Has, WriteUnit;
    CodedPieces(e, u, s, i);
    var t, hex, k := u.digits, u.mark != "", i + 2 + |u.mark|;
    if u.v.Some? {
      DigitsRead(s, k, t, hex, u.v.value);
      ReferenceOver(s, k + |t|, hex, u.v.value);
    } else {
      var j :| 0 <= j < |t| && NoDigit(t[j], Base(u.mark));
      NoDigitRead(s, k, t, hex, 0, j);
    }
  }

  /** Both passes read a character reference. */
  lemma CodedRead(e: Encoding, u: Unit, s: string, i: nat, lo: int)
    requires u.Coded? && GoodUnit(e, u) && Has(s, i, WriteUnit(u)) && lo >= |WriteUnit(u)|
    ensures i < |s| && s[i] == '&'
    ensures CountUnit(e, s, i, lo) == Some((i + |WriteUnit(u)|, lo - |WriteUnit(u)|, 1))
    ensures FillUnit(e, s, i).0 == Meaning(u)
  {
    hide ReferenceValue, ReferenceEnd, Spells, NoDigit, DigitsAt, Has, WriteUnit;
    CodedPieces(e, u, s, i);
    CodedValue(e, u, s, i);
    var k := i + 2 + |u.mark|;
    assert ';' !in u.digits && '\0' !in u.digits;
    hide GoodUnit;
    ReferenceEnds(s, k, u.digits, lo - (k - i));
    hide EntityAt, Advance;
  }

  lemma ReferenceOver(s: string, k: nat, hex: bool, j: nat)
    requires k < |s| && s[k] == ';'
    ensures ReferenceValue(s, k, hex, j) == Some((j, k))
  {
  }

  /** Both passes read a predefined entity. */
  lemma NamedRead(e: Encoding, u: Unit, s: string, i: nat, lo: int)
    requires u.Named? && GoodUnit(e, u) && Has(s, i, WriteUnit(u)) && lo >= |WriteUnit(u)|
    ensures i < |s| && s[i] == '&'
    ensures CountUnit(e, s, i, lo) == Some((i + |WriteUnit(u)|, lo - |WriteUnit(u)|, 1))
    ensures FillUnit(e, s, i) == (Meaning(u), i + |WriteUnit(u)|)
  {
    hide EntityAt, ReferenceEnd, ReferenceValue;
    var w, t := WriteUnit(u), Entity(u.c);
    assert |w| == |t|;
    forall x | 0 <= x < |t| ensures Lower(At(s, i + x)) == Lower(t[x]) {
      HasAt(s, i, w, x);
      assert x == 0 || x == |t| - 1 || w[x] == u.name[x - 1];
    }
    HasAt(s, i, w, 0);
    assert PrefixNoCase(s, i, t);
    EntityRead(s, i, u.c, lo);
  }

  lemma PlainRead(e: Encoding, u: Unit, s: string, i: nat, lo: int)
    requires u.Plain? && GoodUnit(e, u) && Has(s, i, WriteUnit(u))
    ensures i < |s| && s[i] != '\0'
    ensures CountUnit(e, s, i, lo) == Some((i + |u.text|, lo - |u.text|, |u.text|))
    ensures FillUnit(e, s, i) == (Meaning(u), i + |u.text|)
  {
    hide EntityAt, ReferenceEnd, ReferenceValue;
    HasAt(s, i, u.text, 0);
    assert s[i..i + |u.text|] == u.text;
  }

  /** What `fromXMLString` makes of any text of characters, predefined entities and character references, wherever it
      stands: the bytes that these stand for.  The first reference with a value above 255, or with a character that is
      no digit of its base, is an error. */
  lemma {:induction false} UnitsDecode(e: Encoding, units: seq<Unit>, s: string, i: nat)
    requires (forall k :: 0 <= k < |units| ==> GoodUnit(e, units[k])) && Has(s, i, WriteUnits(units))
    ensures Count(e, s, i, |WriteUnits(units)|).Some? && (units != [] ==> Count(e, s, i, |WriteUnits(units)|).value > 0)
    ensures Decode(e, s, i, |WriteUnits(units)|) == Meanings(units)
    decreases |units|
  {
    hide CountUnit, FillUnit, GoodUnit, WriteUnit, Meaning, Has;
    HasIn(s, i, WriteUnits(units));
    if units != [] {
      var u, rest := units[0], WriteUnits(units[1..]);
      var w := WriteUnit(u);
      HasAppend(s, i, w, rest);
      UnitRead(e, u, s, i, |w + rest|);
      UnitsDecode(e, units[1..], s, i + |w|);
      if Meaning(u).Ok? {
        DecodeStep(e, s, i, |w + rest|);
      }
    }
  }

  /** One reference: the byte of its number, in decimal or hexadecimal digits of either case behind any number of zeros,
      or an error above 255. */
  lemma ReferenceDecodes(e: Encoding, mark: string, digits: string, v: nat)
    requires mark in ["", "x", "X"] && digits != "" && Spells(digits, Base(mark), v)
    ensures var s := "&#" + mark + (digits + ";");
            Decode(e, s, 0, |s|) == if v > 255 then Err(CodeAbove255) else Ok([v as char])
  {
    var u := Coded(mark, digits, Some(v));
    var s := WriteUnit(u);
    DigitsOnly(digits, Base(mark), v);
    assert GoodUnit(e, u);
    assert WriteUnits([u]) == s + "" == s;
    assert s[0..|s|] == s;
    hide Decode, Spells, GoodUnit;
    UnitsDecode(e, [u], s, 0);
    assert [u][1..] == [];
    assert Meanings([]) == Ok("") && (v <= 255 ==> [v as char] + "" == [v as char]);
  }

  lemma {:induction false} DigitsOnly(t: string, base: nat, v: nat)
    requires (base == 10 || base == 16) && Spells(t, base, v)
    ensures forall i :: 0 <= i < |t| ==> !NoDigit(t[i], base)
    ensures ';' !in t && '\0' !in t && 'x' !in t && 'X' !in t
    decreases |t|
  {
    if t != "" {
      var n := |t| - 1;
      DigitsOnly(t[..n], base, v / base);
      assert t == t[..n] + [t[n]];
      assert DigitOf(t[n], v % base);
    }
  }

  lemma HasIn(s: string, i: nat, w: string)
    requires Has(s, i, w)
    ensures i + |w| <= |s|
  {
  }

  lemma UnitRead(e: Encoding, u: Unit, s: string, i: nat, lo: int)
    requires GoodUnit(e, u) && Has(s, i, WriteUnit(u)) && lo >= |WriteUnit(u)|
    ensures WriteUnit(u) != "" && i < |s| && s[i] != '\0' && CountUnit(e, s, i, lo).Some?
    ensures var c := CountUnit(e, s, i, lo).value; c.0 == i + |WriteUnit(u)| && c.1 == lo - |WriteUnit(u)|
    ensures FillUnit(e, s, i).0 == Meaning(u)
  {
    hide CountUnit, FillUnit, Spells;
    match u {
      case Plain(_) => PlainRead(e, u, s, i, lo);
      case Named(_, _) => NamedRead(e, u, s, i, lo);
      case Coded(_, _, _) => CodedRead(e, u, s, i, lo);
    }
  }
}
