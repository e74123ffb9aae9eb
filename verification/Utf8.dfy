/** Texts in UTF-8 (section 3 of RFC 3629) are texts that the library reads without leaving them. */
module Utf8 {
  import opened CStrings

  /** The numbers that stand for a character: not 0, which ends a string, and no surrogates. */
  predicate CodePoint(n: nat) {
    0 < n < 0xD800 || 0xE000 <= n < 0x11_0000
  }

  /** The bytes of a character. */
  function Bytes(n: nat): (r: string)
    requires CodePoint(n)
    ensures 0 < |r| <= 4
  {
    if n < 0x80 then [n as char]
    else if n < 0x800 then [(0xC0 + n / 64) as char, (0x80 + n % 64) as char]
    else if n < 0x1_0000 then [(0xE0 + n / 4096) as char, (0x80 + n / 64 % 64) as char, (0x80 + n % 64) as char]
    else [(0xF0 + n / 262144) as char, (0x80 + n / 4096 % 64) as char, (0x80 + n / 64 % 64) as char,
          (0x80 + n % 64) as char]
  }

  function Written(text: seq<nat>): string
    requires forall i :: 0 <= i < |text| ==> CodePoint(text[i])
  {
    if text == [] then "" else Bytes(text[0]) + Written(text[1..])
  }

  /** The table knows the length of a character by its first byte, and takes no other byte for the first of a longer
      one. */
  lemma FirstByte(n: nat)
    requires CodePoint(n)
    ensures CharLen(CStrings.Utf8, Bytes(n)[0]) == |Bytes(n)|
    ensures forall i :: 0 < i < |Bytes(n)| ==> CharLen(CStrings.Utf8, Bytes(n)[i]) == 1
  {
    if n < 0x80 {
    } else if n < 0x800 {
      assert 2 <= n / 64 < 32;
    } else if n < 0x1_0000 {
      assert n / 4096 < 16;
    } else {
      assert n / 262144 <= 4;
    }
  }

  lemma BytesSafe(n: nat)
    requires CodePoint(n)
    ensures Safe(CStrings.Utf8, Bytes(n))
  {
    FirstByte(n);
    hide Bytes, CharLen;
  }

  /** Every text in UTF-8 is safe, and a walk through it goes from character to character. */
  lemma {:induction false} WrittenSafe(text: seq<nat>)
    requires forall i :: 0 <= i < |text| ==> CodePoint(text[i])
    ensures Safe(CStrings.Utf8, Written(text))
    ensures text != [] ==> Written(text) != "" && Advance(CStrings.Utf8, Written(text), 0) == |Bytes(text[0])|
    decreases |text|
  {
    hide CodePoint, Bytes, CharLen, Safe;
    if text != [] {
      WrittenSafe(text[1..]);
      BytesSafe(text[0]);
      SafeAppend(CStrings.Utf8, Bytes(text[0]), Written(text[1..]));
      FirstByte(text[0]);
    } else {
      NothingSafe();
    }
  }

  lemma NothingSafe()
    ensures Safe(CStrings.Utf8, "")
  {
  }
}
