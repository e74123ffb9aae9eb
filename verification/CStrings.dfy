/** NUL-terminated byte strings as the XML library sees them.

    A string is the sequence of its bytes before the terminator, one `char` per byte.  Reading at or past the end
    yields NUL, which is what the terminator yields to the library.

    The library goes through a string character by character, and a table says how many bytes a character has by its
    first byte.  A first byte that announces more bytes than are left would take it behind the terminator; `Safe`
    strings have none, and the routines ask for such strings.  The functions that say what the routines compute are
    total: there a walk ends at the end of the string. */
module CStrings {
  import opened Wrappers

  /** The library's byte tables: one per setting of the global character encoding. */
  datatype Encoding = Utf8 | Legacy | ShiftJis | Gb2312 | GbkBig5

  /** How many bytes the character takes whose first byte is `c`; 0 only for the terminator. */
  function CharLen(e: Encoding, c: char): (n: nat)
    ensures c == '\0' <==> n == 0
    ensures '\0' < c < 128 as char ==> n == 1
    ensures n <= 4
  {
    var b := c as int;
    if b == 0 then 0
    else if b < 0x80 || b > 0xFF then 1
    else match e
      case Legacy => 1
      case Utf8 => if b < 0xC2 then 1 else if b < 0xE0 then 2 else if b < 0xF0 then 3 else if b < 0xF5 then 4 else 1
      case ShiftJis => if 0x81 <= b <= 0x9F || 0xE0 <= b <= 0xEF then 2 else 1
      case Gb2312 => if 0xA1 <= b <= 0xF7 then 2 else 1
      case GbkBig5 => if 0x81 <= b <= 0xFE then 2 else 1
  }

  function At(s: string, i: nat): (c: char) {
    if i < |s| then s[i] else '\0'
  }

  /** One step of a character-by-character walk: past the character at `i`, but never past the end. */
  function Advance(e: Encoding, s: string, i: nat): (j: nat)
    requires i < |s|
    ensures i < j <= |s|
    ensures '\0' < s[i] < 128 as char ==> j == i + 1
  {
    var n := CharLen(e, s[i]);
    if n == 0 then i + 1 else if i + n <= |s| then i + n else |s|
  }

  /** `s` holds no NUL, and no byte of `s` announces a character that would run over the end of `s`.
      On such strings the library never reads behind the terminator. */
  ghost predicate Safe(e: Encoding, s: string) {
    forall i :: 0 <= i < |s| ==> s[i] != '\0' && i + CharLen(e, s[i]) <= |s|
  }

  predicate IsSpace(c: char) {
    c == '\n' || c == ' ' || c == '\t' || c == '\r'
  }

  ghost predicate AllSpace(s: string) {
    forall i :: 0 <= i < |s| ==> IsSpace(s[i])
  }

  function Lower(c: char): (r: char) {
    if 'A' <= c <= 'Z' then (c as int + 32) as char else c
  }

  /** White space is that of section 2.3 of XML 1.0, and the comparison takes each letter for its lower-case form. */
  lemma Characters(c: char, k: nat)
    requires k < 26
    ensures IsSpace(c) <==> c as int in {0x20, 0x9, 0xD, 0xA}
    ensures Lower(('A' as int + k) as char) == ('a' as int + k) as char
    ensures Lower(Lower(c)) == Lower(c) && (Lower(c) != c ==> 'A' <= c <= 'Z')
  {
  }

  /** The comparison `strncasecmp(s + i, p, strlen(p)) == 0`. */
  predicate PrefixNoCase(s: string, i: nat, p: string)
    ensures PrefixNoCase(s, i, p) && p != "" && p[|p| - 1] != '\0' ==> i + |p| <= |s|
  {
    assert p != "" ==> At(s, i + (|p| - 1)) == At(s, i + |p| - 1);
    forall k :: 0 <= k < |p| ==> Lower(At(s, i + k)) == Lower(p[k])
  }

  lemma PrefixAt(s: string, i: nat, p: string, k: nat)
    requires PrefixNoCase(s, i, p) && k < |p|
    ensures Lower(At(s, i + k)) == Lower(p[k])
  {
  }

  /** `w` occurs in `s` at position `i`. */
  predicate Has(s: string, i: nat, w: string) {
    i + |w| <= |s| && s[i..i + |w|] == w
  }

  lemma HasAppend(s: string, i: nat, a: string, b: string)
    ensures Has(s, i, a + b) <==> Has(s, i, a) && Has(s, i + |a|, b)
  {
    var ab := a + b;
    if Has(s, i, ab) {
      assert s[i..i + |a|] == s[i..i + |ab|][..|a|] == a;
      assert s[i + |a|..i + |a| + |b|] == s[i..i + |ab|][|a|..] == b;
    }
    if Has(s, i, a) && Has(s, i + |a|, b) {
      assert s[i..i + |ab|] == s[i..i + |a|] + s[i + |a|..i + |a| + |b|];
    }
  }

  lemma HasAt(s: string, i: nat, w: string, k: nat)
    requires Has(s, i, w) && k < |w|
    ensures i + k < |s| && s[i + k] == At(s, i + k) == w[k]
  {
    assert s[i..i + |w|][k] == w[k];
  }

  lemma SafeAppend(e: Encoding, a: string, b: string)
    requires Safe(e, a) && Safe(e, b)
    ensures Safe(e, a + b)
  {
    forall i | 0 <= i < |a + b|
      ensures (a + b)[i] != '\0' && i + CharLen(e, (a + b)[i]) <= |a + b|
    {
      if |a| <= i {
        assert (a + b)[i] == b[i - |a|];
      }
    }
  }

  /** Where `strstr(s + i, p)` points to, if anywhere. */
  function Find(s: string, i: nat, p: string): (r: Option<nat>)
    requires i <= |s|
    ensures r.Some? ==> i <= r.value && Has(s, r.value, p) && forall k :: i <= k < r.value ==> !Has(s, k, p)
    ensures r.None? ==> forall k :: i <= k <= |s| ==> !Has(s, k, p)
    decreases |s| - i
  {
    if Has(s, i, p) then Some(i)
    else if i < |s| then Find(s, i + 1, p)
    else None
  }

  /** The C string stored in a buffer: everything before its first NUL. */
  function CString(t: string): (r: string)
    ensures |r| <= |t| && r == t[..|r|] && '\0' !in r
    ensures |r| < |t| ==> t[|r|] == '\0'
  {
    if t == "" || t[0] == '\0' then "" else [t[0]] + CString(t[1..])
  }
}
