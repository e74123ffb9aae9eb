/** The base64 codec of the XML library (section 4 of RFC 4648), with its optional line wrapping. */
module Base64 {
  import opened Wrappers
  import opened CStrings
  import opened Escape

  type Byte = b: nat | b < 256

  const FILL := '='

  datatype Base64Error = NoError | IllegalCharacter | TruncatedData | BufferTooSmall | SizeNotMultipleOf4

  // ---------------------------------------------------------------- the tables

  /** `base64EncodeTable`. */
  function EncodeTable(v: nat): char
    requires v < 64
  {
    if v < 26 then ('A' as int + v) as char
    else if v < 52 then ('a' as int + v - 26) as char
    else if v < 62 then ('0' as int + v - 52) as char
    else if v == 62 then '+' else '/'
  }

  /** `base64DecodeTable`: a value below 64, or 96 for the fill character, 97 for white space, 98 for a character
      that does not belong there, and 99 for the end of the string. */
  function DecodeTable(c: char): (v: nat)
    ensures v < 64 || 96 <= v <= 99
  {
    if 'A' <= c <= 'Z' then c as int - 'A' as int
    else if 'a' <= c <= 'z' then c as int - 'a' as int + 26
    else if '0' <= c <= '9' then c as int - '0' as int + 52
    else if c == '+' then 62
    else if c == '/' then 63
    else if c == FILL then 96
    else if IsSpace(c) then 97
    else if c == '\0' then 99
    else 98
  }

  /** The alphabet of section 4 of RFC 4648 (its Table 1), eight characters in a row. */
  const ALPHABET := ["ABCDEFGH", "IJKLMNOP", "QRSTUVWX", "YZabcdef", "ghijklmn", "opqrstuv", "wxyz0123", "456789+/"]

  lemma Alphabet(v: nat)
    requires v < 64
    ensures |ALPHABET[v / 8]| == 8 && EncodeTable(v) == ALPHABET[v / 8][v % 8]
  {
  }

  /** The decoder knows the characters of the alphabet by their values, and the fill character, white space and the
      terminator apart from everything else. */
  lemma TablesFollow(v: nat, c: char)
    requires v < 64
    ensures DecodeTable(c) == v <==> c == EncodeTable(v)
    ensures DecodeTable(c) < 64 ==> c == EncodeTable(DecodeTable(c))
    ensures DecodeTable(c) == 98 ==> c != EncodeTable(v) && c != '=' && !IsSpace(c) && c != '\0'
  {
  }

  lemma TablesInverse(v: nat)
    requires v < 64
    ensures DecodeTable(EncodeTable(v)) == v
  {
  }

  // ---------------------------------------------------------------- what is encoded

  /** Three bytes as four characters. */
  function Group(b0: Byte, b1: Byte, b2: Byte): (r: string)
    ensures |r| == 4
  {
    var j := b0 * 65536 + b1 * 256 + b2;
    [EncodeTable(j / 262144), EncodeTable(j / 4096 % 64), EncodeTable(j / 64 % 64), EncodeTable(j % 64)]
  }

  /** The one or two bytes that are left. */
  function Rest(b: seq<Byte>): (r: string)
    requires |b| < 3
    ensures |r| == if b == [] then 0 else 4
  {
    if |b| == 1 then
      var j: int := b[0];
      [EncodeTable(j / 4), EncodeTable(j * 16 % 64), FILL, FILL]
    else if |b| == 2 then
      var b0: int, b1: int := b[0], b[1];
      var j := b0 * 256 + b1;
      [EncodeTable(j / 1024), EncodeTable(j / 16 % 64), EncodeTable(j * 4 % 64), FILL]
    else ""
  }

  /** A line ends behind every 18th complete group. */
  function Wrap(g: nat, formatted: bool): string {
    if formatted && g % 18 == 17 then "\n" else ""
  }

  /** The encoding of `b` from group number `g` on. */
  function EncodedFrom(b: seq<Byte>, g: nat, formatted: bool): string
    requires 3 * g <= |b|
    decreases |b| - 3 * g
  {
    if |b| - 3 * g >= 3
        then Group(b[3 * g], b[3 * g + 1], b[3 * g + 2]) + Wrap(g, formatted) + EncodedFrom(b, g + 1, formatted)
    else Rest(b[3 * g..])
  }

  function Encoded(b: seq<Byte>, formatted: bool): string {
    EncodedFrom(b, 0, formatted)
  }

  /** Integer division as in C, which rounds towards zero. */
  function CDiv(a: int, b: nat): int
    requires b > 0
  {
    if a < 0 then -(-a / b) else a / b
  }

  /** `encodeLength`: the characters and the terminator. */
  function EncodeLength(length: nat, formatted: bool): int {
    CDiv(length - 1, 3) * 4 + 4 + 1 + if formatted then length / 54 else 0
  }

  function Lines(s: string): nat {
    if s == "" then 0 else (if s[0] == '\n' then 1 else 0) + Lines(s[1..])
  }

  lemma {:induction false} LinesConcat(a: string, b: string)
    ensures Lines(a + b) == Lines(a) + Lines(b)
  {
    if a == "" {
      assert a + b == b;
    } else {
      assert (a + b)[1..] == a[1..] + b;
      LinesConcat(a[1..], b);
    }
  }

  lemma {:induction false} NoLines(w: string)
    requires '\n' !in w
    ensures Lines(w) == 0
  {
    if w != "" {
      NoLines(w[1..]);
    }
  }

  lemma GroupNoLines(b0: Byte, b1: Byte, b2: Byte, g: nat, formatted: bool)
    ensures Lines(Group(b0, b1, b2) + Wrap(g, formatted)) == |Wrap(g, formatted)|
  {
    var w, l := Group(b0, b1, b2), Wrap(g, formatted);
    forall i | 0 <= i < 4 ensures w[i] != '\n' {
    }
    NoLines(w);
    LinesConcat(w, l);
    assert Lines("\n") == 1 by {
      assert "\n"[1..] == "";
    }
  }

  lemma RestNoLines(b: seq<Byte>)
    requires |b| < 3
    ensures Lines(Rest(b)) == 0
  {
    NoLines(Rest(b));
  }

  lemma EncodedStep(b: seq<Byte>, g: nat, formatted: bool)
    requires 3 * g + 3 <= |b|
    ensures EncodedFrom(b, g, formatted)
         == Group(b[3 * g], b[3 * g + 1], b[3 * g + 2]) + Wrap(g, formatted) + EncodedFrom(b, g + 1, formatted)
  {
    hide Group, Wrap;
  }

  lemma EncodedLast(b: seq<Byte>, g: nat, formatted: bool)
    requires 3 * g <= |b| < 3 * g + 3
    ensures EncodedFrom(b, g, formatted) == Rest(b[3 * g..])
  {
    hide Rest;
  }

  lemma {:induction false} FromLength(b: seq<Byte>, g: nat, formatted: bool)
    requires 3 * g <= |b|
    ensures |EncodedFrom(b, g, formatted)|
         == (|b| - 3 * g + 2) / 3 * 4 + if formatted then |b| / 3 / 18 - g / 18 else 0
    ensures Lines(EncodedFrom(b, g, formatted)) == if formatted then |b| / 3 / 18 - g / 18 else 0
    decreases |b| - 3 * g
  {
    hide Group, Rest, EncodedFrom, Lines;
    if |b| - 3 * g >= 3 {
      FromLength(b, g + 1, formatted);
      EncodedStep(b, g, formatted);
      GroupNoLines(b[3 * g], b[3 * g + 1], b[3 * g + 2], g, formatted);
      var w := Group(b[3 * g], b[3 * g + 1], b[3 * g + 2]) + Wrap(g, formatted);
      LinesConcat(w, EncodedFrom(b, g + 1, formatted));
      assert (|b| - 3 * g + 2) / 3 == (|b| - 3 * (g + 1) + 2) / 3 + 1;
    } else {
      EncodedLast(b, g, formatted);
      RestNoLines(b[3 * g..]);
      assert |b| / 3 == g;
    }
  }

  /** The length is exact for every input but the empty one, and when wrapped there is one line end for every 18
      complete groups of three bytes. */
  lemma LengthExactly(b: seq<Byte>, formatted: bool)
    ensures |Encoded(b, formatted)| + 1 == EncodeLength(|b|, formatted) <==> b != []
    ensures b == [] ==> EncodeLength(|b|, formatted) == 5
    ensures Lines(Encoded(b, formatted)) == if formatted then |b| / 54 else 0
  {
    FromLength(b, 0, formatted);
    assert |b| / 3 / 18 == |b| / 54;
  }

  /** `encode`: the buffer has the computed length and the loop fills it. */
  method EncodeBuffer(input: seq<Byte>, formatted: bool) returns (buf: array<char>)
    ensures fresh(buf) && buf.Length == EncodeLength(|input|, formatted)
    ensures var w := Encoded(input, formatted);
            |w| < buf.Length && buf[..|w|] == w && buf[|w|] == '\0'
  {
    var n := EncodeLength(|input|, formatted);
    LengthExactly(input, formatted);
    hide EncodedFrom, Rest, EncodeLength;
    buf := new char[n];
    var groups := |input| / 3;
    var curr := PutGroups(buf, input, groups, formatted);
    EncodedLast(input, groups, formatted);
    PutRest(buf, curr, input[3 * groups..]);
  }

  /** The loop over the complete groups. */
  method PutGroups(buf: array<char>, input: seq<Byte>, groups: nat, formatted: bool) returns (curr: nat)
    requires 3 * groups <= |input| < 3 * groups + 3 && |Encoded(input, formatted)| <= buf.Length
    modifies buf
    ensures curr + |EncodedFrom(input, groups, formatted)| == |Encoded(input, formatted)|
    ensures buf[..curr] + EncodedFrom(input, groups, formatted) == Encoded(input, formatted)
  {
    hide EncodedFrom, Group, Wrap;
    ghost var whole := Encoded(input, formatted);
    curr := 0;
    var i: nat, k: int := 0, 17;
    assert buf[..0] == "";
    while i < groups
      invariant i <= groups && (formatted ==> k == 17 - i % 18)
      invariant curr + |EncodedFrom(input, i, formatted)| == |whole|
      invariant buf[..curr] + EncodedFrom(input, i, formatted) == whole
    {
      var b0, b1, b2 := input[3 * i], input[3 * i + 1], input[3 * i + 2];
      EncodedStep(input, i, formatted);
      Assoc(buf[..curr], Group(b0, b1, b2) + Wrap(i, formatted), EncodedFrom(input, i + 1, formatted));
      curr, k := PutLine(buf, curr, b0, b1, b2, k, formatted, i);
      i := i + 1;
    }
  }

  /** A complete group, and the end of the line when the countdown says so. */
  method PutLine(buf: array<char>, at: nat, b0: Byte, b1: Byte, b2: Byte, count: int, formatted: bool, ghost g: nat)
    returns (curr: nat, k: int)
    requires at + |Group(b0, b1, b2) + Wrap(g, formatted)| <= buf.Length && (formatted ==> count == 17 - g % 18)
    modifies buf
    ensures curr == at + |Group(b0, b1, b2) + Wrap(g, formatted)| && (formatted ==> k == 17 - (g + 1) % 18)
    ensures buf[..curr] == old(buf[..at]) + (Group(b0, b1, b2) + Wrap(g, formatted))
  {
    hide Group;
    curr, k := at, count;
    PutGroup(buf, curr, b0, b1, b2);
    curr := curr + 4;
    if formatted {
      if k == 0 {
        buf[curr] := '\n';
        curr := curr + 1;
        k := 18;
      }
      k := k - 1;
    }
  }

  method PutGroup(buf: array<char>, curr: nat, b0: Byte, b1: Byte, b2: Byte)
    requires curr + 4 <= buf.Length
    modifies buf
    ensures buf[..curr + 4] == old(buf[..curr]) + Group(b0, b1, b2)
  {
    var j := b0 * 65536 + b1 * 256 + b2;
    buf[curr] := EncodeTable(j / 262144);
    buf[curr + 1] := EncodeTable(j / 4096 % 64);
    buf[curr + 2] := EncodeTable(j / 64 % 64);
    buf[curr + 3] := EncodeTable(j % 64);
  }

  /** The bytes that are left, and the terminator. */
  method PutRest(buf: array<char>, curr: nat, b: seq<Byte>)
    requires |b| < 3 && curr + |Rest(b)| < buf.Length
    modifies buf
    ensures buf[..curr + |Rest(b)|] == old(buf[..curr]) + Rest(b) && buf[curr + |Rest(b)|] == '\0'
  {
    var end := curr;
    if |b| == 1 {
      var j: int := b[0];
      buf[curr], buf[curr + 1], buf[curr + 2], buf[curr + 3] := 
        EncodeTable(j / 4), EncodeTable(j * 16 % 64), FILL, FILL;
      end := curr + 4;
    } else if |b| == 2 {
      var b0: int, b1: int := b[0], b[1];
      var j := b0 * 256 + b1;
      buf[curr], buf[curr + 1], buf[curr + 2], buf[curr + 3] :=
        EncodeTable(j / 1024), EncodeTable(j / 16 % 64), EncodeTable(j * 4 % 64), FILL;
      end := curr + 4;
    }
    buf[end] := '\0';
  }

  // ---------------------------------------------------------------- the size of what is decoded

  /** The number of characters that count, the fill characters among them; nothing if one does not belong there. */
  function Counted(data: string): Option<nat> {
    if data == "" then Some(0)
    else
      var rest := Counted(data[1..]);
      if DecodeTable(data[0]) == 98 || rest.None? then None
      else Some(rest.value + if DecodeTable(data[0]) < 97 then 1 else 0)
  }

  /** The number of fill characters at the very end. */
  function Filled(data: string): (n: nat)
    ensures n <= |data|
  {
    if data != "" && data[|data| - 1] == FILL then Filled(data[..|data| - 1]) + 1 else 0
  }

  lemma {:induction false} FilledCounted(data: string)
    requires Counted(data).Some?
    ensures Filled(data) <= Counted(data).value
  {
    if data != "" && data[|data| - 1] == FILL {
      CountedConcat(data[..|data| - 1], [FILL]);
      assert data == data[..|data| - 1] + [FILL];
      FilledCounted(data[..|data| - 1]);
    }
  }

  lemma {:induction false} CountedConcat(a: string, b: string)
    ensures Counted(a + b) == if Counted(a).Some? && Counted(b).Some? then Some(Counted(a).value + Counted(b).value)
            else None
  {
    if a == "" {
      assert a + b == b;
    } else {
      assert (a + b)[1..] == a[1..] + b;
      CountedConcat(a[1..], b);
    }
  }

  /** `decodeSize`; the end of the string is looked at only if something counts. */
  function DecodeSize(data: string): (n: nat) {
    var c := Counted(data);
    if c.None? || c.value == 0 then 0
    else
      FilledCounted(data);
      (c.value - Filled(data)) * 3 / 4
  }

  /** The error that `decodeSize` reports. */
  function SizeError(data: string): Base64Error {
    if Counted(data).None? then IllegalCharacter
    else if Counted(data).value % 4 != 0 then SizeNotMultipleOf4 else NoError
  }

  /** Which data are reported, and how large they are taken to be: any character that does not belong there, and
      otherwise any number of characters, white space left out, that is no multiple of 4; and three bytes for each four
      characters, less one for each fill character at the very end. */
  lemma SizeExactly(data: string)
    ensures SizeError(data) == IllegalCharacter <==> exists i :: 0 <= i < |data| && DecodeTable(data[i]) == 98
    ensures SizeError(data) != IllegalCharacter ==>
              && (SizeError(data) == NoError <==> Visible(data) % 4 == 0)
              && DecodeSize(data) == if Visible(data) == 0 then 0 else (Visible(data) - Filled(data)) * 3 / 4
    ensures SizeError(data) == IllegalCharacter ==> DecodeSize(data) == 0
  {
    CountedVisible(data);
  }

  /** How many characters are no white space; a terminator inside is none either. */
  function Visible(data: string): nat {
    if data == "" then 0
    else Visible(data[..|data| - 1]) + if IsSpace(data[|data| - 1]) || data[|data| - 1] == '\0' then 0 else 1
  }

  lemma {:induction false} CountedVisible(data: string)
    ensures Counted(data).None? <==> exists i :: 0 <= i < |data| && DecodeTable(data[i]) == 98
    ensures Counted(data).Some? ==> Counted(data).value == Visible(data)
    decreases |data|
  {
    if data != "" {
      var n := |data| - 1;
      CountedVisible(data[..n]);
      assert data == data[..n] + [data[n]];
      CountedConcat(data[..n], [data[n]]);
      assert [data[n]][1..] == "";
      assert forall i :: 0 <= i < n ==> data[i] == data[..n][i];
    }
  }

  method ComputeSize(data: string) returns (r: nat, error: Base64Error)
    requires '\0' !in data
    ensures r == DecodeSize(data)
    ensures error == SizeError(data)
  {
    var size, i: nat := 0, 0;
    while i < |data|
      invariant i <= |data|
      invariant Counted(data) == if Counted(data[i..]).None? then None else Some(size + Counted(data[i..]).value)
    {
      var c := DecodeTable(data[i]);
      assert data[i..][1..] == data[i + 1..];
      if c < 97 {
        size := size + 1;
      } else if c == 98 {
        return 0, IllegalCharacter;
      }
      i := i + 1;
    }
    error := if size % 4 != 0 then SizeNotMultipleOf4 else NoError;
    if size == 0 {
      return 0, error;
    }
    FilledCounted(data);
    assert data[..i] == data;
    var left := size;
    while i > 0 && data[i - 1] == FILL
      invariant 0 <= i <= |data| && left + Filled(data) == size + Filled(data[..i])
    {
      assert data[..i][..i - 1] == data[..i - 1];
      i, left := i - 1, left - 1;
    }
    return left * 3 / 4, error;
  }

  // ---------------------------------------------------------------- decoding

  /** The next character that is not white space, as its code, and what follows it. */
  function Next(data: string): (r: (nat, string))
    ensures |r.1| <= |data| && (r.0 == 99 || |r.1| < |data|) && (r.0 < 64 || r.0 in {96, 98, 99})
  {
    if data == "" then (99, "")
    else if DecodeTable(data[0]) == 97 then Next(data[1..])
    else (DecodeTable(data[0]), data[1..])
  }

  /** The result code of `decode`, the bytes written, and the error. */
  datatype Output = Output(code: nat, bytes: seq<Byte>, error: Base64Error)

  /** What `decode` does with the rest of the data when `out` has been written and there is room for `len` bytes. */
  function DecodeFrom(data: string, out: seq<Byte>, len: nat): Output
    decreases |data|
  {
    var (c, w) := Next(data);
    if c == 98 then Output(0, out, IllegalCharacter)
    else if c == 99 then Output(2, out, NoError)
    else if c == 96 then (if |out| == len then Output(2, out, NoError) else Output(1, out, TruncatedData))
    else Second(c, w, out, len)
  }

  function Second(c: nat, data: string, out: seq<Byte>, len: nat): Output
    requires c < 64
    decreases |data|
  {
    var (d, w) := Next(data);
    if d == 98 then Output(0, out, IllegalCharacter)
    else if d == 99 || d == 96 then Output(1, out, TruncatedData)
    else if |out| == len then Output(0, out, BufferTooSmall)
    else Third(d, w, out + [c * 4 + d / 16], len)
  }

  function Third(d: nat, data: string, out: seq<Byte>, len: nat): Output
    requires d < 64
    decreases |data|
  {
    var (c, w) := Next(data);
    if c == 98 then Output(0, out, IllegalCharacter)
    else if c == 99 then Output(1, out, TruncatedData)
    else if |out| == len then (if c == 96 then Output(2, out, NoError) else Output(0, out, BufferTooSmall))
    else if c == 96 then Output(1, out, TruncatedData)
    else Fourth(c, w, out + [d % 16 * 16 + c / 4], len)
  }

  function Fourth(c: nat, data: string, out: seq<Byte>, len: nat): Output
    requires c < 64
    decreases |data|
  {
    var (d, w) := Next(data);
    if d == 98 then Output(0, out, IllegalCharacter)
    else if d == 99 then Output(1, out, TruncatedData)
    else if |out| == len then (if d == 96 then Output(2, out, NoError) else Output(0, out, BufferTooSmall))
    else if d == 96 then Output(1, out, TruncatedData)
    else DecodeFrom(w, out + [c % 4 * 64 + d], len)
  }

  // ---------------------------------------------------------------- what is decoded from any data

  /** The six-bit values at the beginning of the data, white space left out. */
  function Digits(data: string): seq<nat>
    decreases |data|
  {
    var (c, w) := Next(data);
    if c < 64 then [c] + Digits(w) else []
  }

  /** What ends them: 96 for a fill character, 98 for one that does not belong there, 99 for the end. */
  function Stop(data: string): nat
    decreases |data|
  {
    var (c, w) := Next(data);
    if c < 64 then Stop(w) else c
  }

  /** How many bytes are complete after `k` six-bit values; decoding writes one from the second value of a group on. */
  function Complete(k: nat): nat {
    k / 4 * 3 + if k % 4 == 0 then 0 else k % 4 - 1
  }

  /** Byte `n` of the values `v`. */
  function ByteAt(v: seq<nat>, n: nat): (b: Byte)
    requires n < Complete(|v|) && forall i :: 0 <= i < |v| ==> v[i] < 64
  {
    var g := n / 3 * 4;
    if n % 3 == 0 then v[g] * 4 + v[g + 1] / 16
    else if n % 3 == 1 then v[g + 1] % 16 * 16 + v[g + 2] / 4
    else v[g + 2] % 4 * 64 + v[g + 3]
  }

  function BytesOf(v: seq<nat>, n: nat): (b: seq<Byte>)
    requires n <= Complete(|v|) && forall i :: 0 <= i < |v| ==> v[i] < 64
    ensures |b| == n
  {
    seq(n, i requires 0 <= i < n => ByteAt(v, i))
  }

  /** What the values `v` with the stop `t` behind them give, written behind `out`.  More bytes than there is room for
      are an error; a character that does not belong there is one; and the end must come between two groups, or, with
      a fill character, where there is no room left and no single value either. */
  function Result(v: seq<nat>, t: nat, out: seq<Byte>, len: nat): Output
    requires |out| <= len && forall i :: 0 <= i < |v| ==> v[i] < 64
  {
    var w, room := Complete(|v|), len - |out|;
    if w > room then Output(0, out + BytesOf(v, room), BufferTooSmall)
    else
      var b := out + BytesOf(v, w);
      if t == 98 then Output(0, b, IllegalCharacter)
      else if (t == 99 && |v| % 4 == 0) || (t == 96 && |v| % 4 != 1 && w == room) then Output(2, b, NoError)
      else Output(1, b, TruncatedData)
  }

  lemma {:induction false} DigitsSmall(data: string)
    ensures forall i :: 0 <= i < |Digits(data)| ==> Digits(data)[i] < 64
    ensures Stop(data) in {96, 98, 99}
    decreases |data|
  {
    hide Next;
    var (c, w) := Next(data);
    if c < 64 {
      DigitsSmall(w);
    }
  }

  /** The first group of values, and the rest. */
  lemma ResultGroup(a: nat, b: nat, c: nat, d: nat, v: seq<nat>, t: nat, out: seq<Byte>, len: nat)
    requires a < 64 && b < 64 && c < 64 && d < 64 && |out| + 3 <= len && forall i :: 0 <= i < |v| ==> v[i] < 64
    ensures forall i :: 0 <= i < |[a, b, c, d] + v| ==> ([a, b, c, d] + v)[i] < 64
    ensures Result([a, b, c, d] + v, t, out, len)
         == Result(v, t, out + [a * 4 + b / 16] + [b % 16 * 16 + c / 4] + [c % 4 * 64 + d], len)
  {
    var all, room := [a, b, c, d] + v, len - |out|;
    var three: seq<Byte> := [a * 4 + b / 16, b % 16 * 16 + c / 4, c % 4 * 64 + d];
    assert Complete(|all|) == Complete(|v|) + 3;
    var n := if Complete(|all|) > room then room else Complete(|all|);
    BytesGroup(a, b, c, d, v, n);
    assert out + [a * 4 + b / 16] + [b % 16 * 16 + c / 4] + [c % 4 * 64 + d] + BytesOf(v, n - 3)
        == out + (three + BytesOf(v, n - 3));
  }

  lemma BytesGroup(a: nat, b: nat, c: nat, d: nat, v: seq<nat>, n: nat)
    requires a < 64 && b < 64 && c < 64 && d < 64 && forall i :: 0 <= i < |v| ==> v[i] < 64
    requires 3 <= n <= Complete(|v|) + 3
    ensures Complete(|[a, b, c, d] + v|) == Complete(|v|) + 3
    ensures forall i :: 0 <= i < |[a, b, c, d] + v| ==> ([a, b, c, d] + v)[i] < 64
    ensures BytesOf([a, b, c, d] + v, n)
         == [a * 4 + b / 16, b % 16 * 16 + c / 4, c % 4 * 64 + d] + BytesOf(v, n - 3)
  {
    var all := [a, b, c, d] + v;
    var x, y := BytesOf(all, n), [a * 4 + b / 16, b % 16 * 16 + c / 4, c % 4 * 64 + d] + BytesOf(v, n - 3);
    forall i | 0 <= i < n ensures x[i] == y[i] {
      if i >= 3 {
        assert i / 3 * 4 == (i - 3) / 3 * 4 + 4 && i % 3 == (i - 3) % 3;
        ByteLater(all, v, i);
      }
    }
  }

  lemma ByteLater(all: seq<nat>, v: seq<nat>, i: nat)
    requires |all| == |v| + 4 && all[4..] == v && 3 <= i < Complete(|all|)
    requires forall j :: 0 <= j < |all| ==> all[j] < 64
    ensures (forall j :: 0 <= j < |v| ==> v[j] < 64) && i - 3 < Complete(|v|) && ByteAt(all, i) == ByteAt(v, i - 3)
  {
    assert forall j :: 0 <= j < |v| ==> v[j] == all[j + 4];
    var g := (i - 3) / 3 * 4;
    assert i / 3 * 4 == g + 4 && i % 3 == (i - 3) % 3;
  }

  lemma {:induction false} FirstIs(data: string, out: seq<Byte>, len: nat)
    requires |out| <= len
    ensures forall i :: 0 <= i < |Digits(data)| ==> Digits(data)[i] < 64
    ensures DecodeFrom(data, out, len) == Result(Digits(data), Stop(data), out, len)
    decreases |data|
  {
    hide Next, Second;
    DigitsSmall(data);
    var (c, w) := Next(data);
    if c < 64 {
      SecondIs(c, w, out, len);
    } else {
      assert BytesOf([], 0) == [] && out + [] == out;
    }
  }

  lemma {:induction false} SecondIs(c: nat, data: string, out: seq<Byte>, len: nat)
    requires c < 64 && |out| <= len
    ensures forall i :: 0 <= i < |[c] + Digits(data)| ==> ([c] + Digits(data))[i] < 64
    ensures Second(c, data, out, len) == Result([c] + Digits(data), Stop(data), out, len)
    decreases |data|
  {
    hide Next, Third;
    DigitsSmall(data);
    var (d, w) := Next(data);
    if d < 64 {
      assert [c] + ([d] + Digits(w)) == [c, d] + Digits(w);
      if |out| < len {
        ThirdIs(c, d, w, out, len);
      } else {
        DigitsSmall(w);
        Overfull([c, d] + Digits(w), Stop(w), out, len);
      }
    } else {
      assert BytesOf([c], 0) == [] && out + [] == out && [c] + [] == [c];
    }
  }

  /** Where there is no room left for the next byte. */
  lemma Overfull(v: seq<nat>, t: nat, out: seq<Byte>, len: nat)
    requires |out| == len && |v| >= 2 && forall i :: 0 <= i < |v| ==> v[i] < 64
    ensures Result(v, t, out, len) == Output(0, out, BufferTooSmall)
  {
    assert BytesOf(v, 0) == [] && out + [] == out;
  }

  lemma {:induction false} ThirdIs(c: nat, d: nat, data: string, out: seq<Byte>, len: nat)
    requires c < 64 && d < 64 && |out| < len
    ensures forall i :: 0 <= i < |[c, d] + Digits(data)| ==> ([c, d] + Digits(data))[i] < 64
    ensures Third(d, data, out + [c * 4 + d / 16], len) == Result([c, d] + Digits(data), Stop(data), out, len)
    decreases |data|
  {
    hide Next, Fourth;
    DigitsSmall(data);
    var (x, w) := Next(data);
    if x < 64 {
      assert [c, d] + ([x] + Digits(w)) == [c, d, x] + Digits(w);
      DigitsSmall(w);
      if |out| + 1 < len {
        FourthIs(c, d, x, w, out, len);
      } else {
        assert BytesOf([c, d, x] + Digits(w), 1) == [c * 4 + d / 16];
      }
    } else {
      assert BytesOf([c, d], 1) == [c * 4 + d / 16] && [c, d] + [] == [c, d];
    }
  }

  lemma {:induction false} FourthIs(c: nat, d: nat, x: nat, data: string, out: seq<Byte>, len: nat)
    requires c < 64 && d < 64 && x < 64 && |out| + 1 < len
    ensures forall i :: 0 <= i < |[c, d, x] + Digits(data)| ==> ([c, d, x] + Digits(data))[i] < 64
    ensures Fourth(x, data, out + [c * 4 + d / 16] + [d % 16 * 16 + x / 4], len)
         == Result([c, d, x] + Digits(data), Stop(data), out, len)
    decreases |data|
  {
    hide Next, DecodeFrom;
    DigitsSmall(data);
    var (y, w) := Next(data);
    var two: seq<Byte> := [c * 4 + d / 16, d % 16 * 16 + x / 4];
    assert out + [c * 4 + d / 16] + [d % 16 * 16 + x / 4] == out + two;
    if y < 64 {
      assert [c, d, x] + ([y] + Digits(w)) == [c, d, x, y] + Digits(w);
      DigitsSmall(w);
      if |out| + 2 < len {
        FirstIs(w, out + [c * 4 + d / 16] + [d % 16 * 16 + x / 4] + [x % 4 * 64 + y], len);
        ResultGroup(c, d, x, y, Digits(w), Stop(w), out, len);
      } else {
        assert BytesOf([c, d, x, y] + Digits(w), 2) == two;
      }
    } else {
      assert BytesOf([c, d, x], 2) == two && [c, d, x] + [] == [c, d, x];
    }
  }

  /** What `decode` makes of any data, with any room: the bytes of its six-bit values as far as there is room, and which
      of the three results. */
  lemma DecodeExactly(data: string, len: nat)
    ensures forall i :: 0 <= i < |Digits(data)| ==> Digits(data)[i] < 64
    ensures DecodeFrom(data, [], len) == Result(Digits(data), Stop(data), [], len)
  {
    FirstIs(data, [], len);
  }

  /** `BASE64DECODE_READ_NEXT_CHAR`: the position may move behind the terminator, where it is not used again. */
  method ReadNextChar(data: string, at: nat) returns (c: nat, i: nat)
    requires at <= |data|
    ensures i <= |data| && (c, data[i..]) == Next(data[at..])
    ensures c != 99 ==> at < i
  {
    i := at;
    while i < |data| && DecodeTable(data[i]) == 97
      invariant at <= i <= |data| && Next(data[i..]) == Next(data[at..])
    {
      assert data[i..][1..] == data[i + 1..];
      i := i + 1;
    }
    if i == |data| {
      return 99, i;
    }
    assert data[i..][1..] == data[i + 1..];
    return DecodeTable(data[i]), i + 1;
  }

  /** `decode` into a buffer with room for `len` bytes. */
  method DecodeInto(data: string, buf: array<Byte>, len: nat) returns (code: nat, p: nat, error: Base64Error)
    requires len <= buf.Length
    modifies buf
    ensures p <= len && Output(code, buf[..p], error) == DecodeFrom(data, [], len)
  {
    hide Next;
    var i: nat := 0;
    p, error := 0, NoError;
    assert data[0..] == data && buf[..0] == [];
    while true
      invariant i <= |data| && p <= len && error == NoError
      invariant DecodeFrom(data[i..], buf[..p], len) == DecodeFrom(data, [], len)
      decreases |data| - i
    {
      var c, d: nat;
      c, i := ReadNextChar(data, i);
      if c == 98 {
        return 0, p, IllegalCharacter;
      }
      if c == 99 {
        return 2, p, NoError;
      }
      if c == 96 {
        if p == len {
          return 2, p, NoError;
        }
        return 1, p, TruncatedData;
      }
      var full;
      full, code, i, p, error := DecodeGroup(data, buf, len, i, p, c);
      if !full {
        return;
      }
    }
  }

  /** A group behind its first character: `more` tells whether three bytes were written. */
  method DecodeGroup(data: string, buf: array<Byte>, len: nat, at: nat, written: nat, first: nat)
    returns (more: bool, code: nat, i: nat, p: nat, error: Base64Error)
    requires at <= |data| && written <= len <= buf.Length && first < 64
    modifies buf
    ensures at <= i <= |data| && p <= len
    ensures var whole := Second(first, data[at..], old(buf[..written]), len);
            if more then error == NoError && DecodeFrom(data[i..], buf[..p], len) == whole
            else Output(code, buf[..p], error) == whole
  {
    hide Next, DecodeFrom;
    var c, d := first, 0;
    i, p, error, more, code := at, written, NoError, false, 0;
    ghost var out := buf[..p];
    d, i := ReadNextChar(data, i);
    if d == 98 {
      return false, 0, i, p, IllegalCharacter;
    }
    if d == 99 || d == 96 {
      return false, 1, i, p, TruncatedData;
    }
    if p == len {
      return false, 0, i, p, BufferTooSmall;
    }
    buf[p] := c * 4 + d / 16;
    p := p + 1;
    assert buf[..p] == out + [c * 4 + d / 16];
    more, code, i, p, error := DecodeHalf(data, buf, len, i, p, d);
  }

  /** A group behind its second character. */
  method DecodeHalf(data: string, buf: array<Byte>, len: nat, at: nat, written: nat, second: nat)
    returns (more: bool, code: nat, i: nat, p: nat, error: Base64Error)
    requires at <= |data| && written <= len <= buf.Length && second < 64
    modifies buf
    ensures at <= i <= |data| && p <= len
    ensures var whole := Third(second, data[at..], old(buf[..written]), len);
            if more then error == NoError && DecodeFrom(data[i..], buf[..p], len) == whole
            else Output(code, buf[..p], error) == whole
  {
    hide Next, DecodeFrom;
    var d, c := second, 0;
    i, p, error, more, code := at, written, NoError, false, 0;
    ghost var out := buf[..p];
    c, i := ReadNextChar(data, i);
    if c == 98 {
      return false, 0, i, p, IllegalCharacter;
    }
    if c == 99 {
      return false, 1, i, p, TruncatedData;
    }
    if p == len {
      if c == 96 {
        return false, 2, i, p, NoError;
      }
      return false, 0, i, p, BufferTooSmall;
    }
    if c == 96 {
      return false, 1, i, p, TruncatedData;
    }
    buf[p] := d % 16 * 16 + c / 4;
    p := p + 1;
    assert buf[..p] == out + [d % 16 * 16 + c / 4];
    ghost var out1 := buf[..p];
    d, i := ReadNextChar(data, i);
    if d == 98 {
      return false, 0, i, p, IllegalCharacter;
    }
    if d == 99 {
      return false, 1, i, p, TruncatedData;
    }
    if p == len {
      if d == 96 {
        return false, 2, i, p, NoError;
      }
      return false, 0, i, p, BufferTooSmall;
    }
    if d == 96 {
      return false, 1, i, p, TruncatedData;
    }
    buf[p] := c % 4 * 64 + d;
    p := p + 1;
    assert buf[..p] == out1 + [c % 4 * 64 + d];
    more := true;
  }

  /** `decode` with a buffer of its own; no buffer at all if there is nothing to decode or a character is illegal. */
  method DecodeBuffer(data: string) returns (r: Option<seq<Byte>>, error: Base64Error)
    requires '\0' !in data
    ensures var n := DecodeSize(data);
            if n == 0 then r == None && error == SizeError(data)
            else var o := DecodeFrom(data, [], n);
                 error == o.error && r == if o.code == 0 then None else Some(o.bytes)
  {
    var len;
    len, error := ComputeSize(data);
    if len == 0 {
      return None, error;
    }
    var buf := new Byte[len];
    var code, p;
    code, p, error := DecodeInto(data, buf, len);
    return if code == 0 then None else Some(buf[..p]), error;
  }

  // ---------------------------------------------------------------- the round trip

  lemma NextChar(c: char, rest: string)
    requires DecodeTable(c) != 97
    ensures Next([c] + rest) == (DecodeTable(c), rest)
  {
    assert ([c] + rest)[1..] == rest;
  }

  lemma NextValue(v: nat, rest: string)
    requires v < 64
    ensures Next([EncodeTable(v)] + rest) == (v, rest)
  {
    TablesInverse(v);
    NextChar(EncodeTable(v), rest);
  }

  /** The six-bit values of three bytes. */
  lemma GroupValues(b0: Byte, b1: Byte, b2: Byte)
    ensures var j := b0 * 65536 + b1 * 256 + b2;
            && j / 262144 == b0 / 4 && j / 4096 % 64 == b0 % 4 * 16 + b1 / 16
            && j / 64 % 64 == b1 % 16 * 4 + b2 / 64 && j % 64 == b2 % 64
  {
    var v0, v1, v2, v3 := b0 / 4, b0 % 4 * 16 + b1 / 16, b1 % 16 * 4 + b2 / 64, b2 % 64;
    assert b0 * 65536 + b1 * 256 + b2 == v0 * 262144 + v1 * 4096 + v2 * 64 + v3;
    SixBits(v0, v1, v2, v3);
  }

  lemma SixBits(v0: nat, v1: nat, v2: nat, v3: nat)
    requires v1 < 64 && v2 < 64 && v3 < 64
    ensures var j := v0 * 262144 + v1 * 4096 + v2 * 64 + v3;
            j / 262144 == v0 && j / 4096 % 64 == v1 && j / 64 % 64 == v2 && j % 64 == v3
  {
    var j := v0 * 262144 + v1 * 4096 + v2 * 64 + v3;
    assert j / 4096 == v0 * 64 + v1;
    assert j / 64 == (v0 * 64 + v1) * 64 + v2;
  }

  lemma PairValues(b0: Byte, b1: Byte)
    ensures var j := b0 * 256 + b1;
            j / 1024 == b0 / 4 && j / 16 % 64 == b0 % 4 * 16 + b1 / 16 && j * 4 % 64 == b1 % 16 * 4
  {
    var v0, v1, v2 := b0 / 4, b0 % 4 * 16 + b1 / 16, b1 % 16;
    assert b0 * 256 + b1 == v0 * 1024 + v1 * 16 + v2;
    TenBits(v0, v1, v2);
  }

  lemma TenBits(v0: nat, v1: nat, v2: nat)
    requires v1 < 64 && v2 < 16
    ensures var j := v0 * 1024 + v1 * 16 + v2;
            j / 1024 == v0 && j / 16 % 64 == v1 && j * 4 % 64 == v2 * 4
  {
    var j := v0 * 1024 + v1 * 16 + v2;
    assert j / 16 == v0 * 64 + v1;
    assert j * 4 == (v0 * 64 + v1) * 64 + v2 * 4;
  }

  lemma SingleValues(b0: Byte)
    ensures b0 * 16 % 64 == b0 % 4 * 16
  {
  }

  /** Six-bit values that were cut out of bytes give the bytes back. */
  lemma Reassembled(b0: Byte, b1: Byte, b2: Byte)
    ensures b0 / 4 * 4 + (b0 % 4 * 16 + b1 / 16) / 16 == b0
    ensures (b0 % 4 * 16 + b1 / 16) % 16 * 16 + (b1 % 16 * 4 + b2 / 64) / 4 == b1
    ensures (b1 % 16 * 4 + b2 / 64) % 4 * 64 + b2 % 64 == b2
  {
  }

  lemma GroupDecodes(b0: Byte, b1: Byte, b2: Byte, rest: string, out: seq<Byte>, len: nat)
    requires |out| + 3 <= len
    ensures DecodeFrom(Group(b0, b1, b2) + rest, out, len) == DecodeFrom(rest, out + [b0, b1, b2], len)
  {
    hide EncodeTable, Next, DecodeFrom;
    var v0, v1, v2, v3 := b0 / 4, b0 % 4 * 16 + b1 / 16, b1 % 16 * 4 + b2 / 64, b2 % 64;
    GroupValues(b0, b1, b2);
    Reassembled(b0, b1, b2);
    var w3 := [EncodeTable(v3)] + rest;
    var w2 := [EncodeTable(v2)] + w3;
    var w1 := [EncodeTable(v1)] + w2;
    assert Group(b0, b1, b2) + rest == [EncodeTable(v0)] + w1;
    hide Group;
    NextValue(v0, w1);
    NextValue(v1, w2);
    NextValue(v2, w3);
    NextValue(v3, rest);
    assert out + [b0] + [b1] + [b2] == out + [b0, b1, b2];
    ThreeBytes(v0, v1, v2, v3, [EncodeTable(v0)] + w1, w1, w2, w3, rest, out, len);
  }

  lemma ThreeBytes(v0: nat, v1: nat, v2: nat, v3: nat, w0: string, w1: string, w2: string, w3: string, w4: string,
                   out: seq<Byte>, len: nat)
    requires v0 < 64 && v1 < 64 && v2 < 64 && v3 < 64 && |out| + 3 <= len
    requires Next(w0) == (v0, w1) && Next(w1) == (v1, w2) && Next(w2) == (v2, w3) && Next(w3) == (v3, w4)
    ensures DecodeFrom(w0, out, len)
         == DecodeFrom(w4, out + [v0 * 4 + v1 / 16] + [v1 % 16 * 16 + v2 / 4] + [v2 % 4 * 64 + v3], len)
  {
    hide Next;
    hide DecodeFrom, Second, Third, Fourth;
    var out1 := out + [v0 * 4 + v1 / 16];
    var out2 := out1 + [v1 % 16 * 16 + v2 / 4];
    FirstSecond(w0, v0, w1, out, len);
    SecondThird(v0, w1, v1, w2, out, len);
    ThirdFourth(v1, w2, v2, w3, out1, len);
    FourthFirst(v2, w3, v3, w4, out2, len);
  }

  lemma WrapDecodes(g: nat, formatted: bool, rest: string, out: seq<Byte>, len: nat)
    ensures DecodeFrom(Wrap(g, formatted) + rest, out, len) == DecodeFrom(rest, out, len)
  {
    if Wrap(g, formatted) == "\n" {
      assert ("\n" + rest)[1..] == rest;
      assert Next("\n" + rest) == Next(rest);
    } else {
      assert "" + rest == rest;
    }
  }

  lemma RestDecodes(b: seq<Byte>, out: seq<Byte>)
    requires |b| < 3
    ensures DecodeFrom(Rest(b), out, |out| + |b|) == Output(2, out + b, NoError)
  {
    hide DecodeFrom, Rest;
    if |b| == 1 {
      OneDecodes(b[0], out);
      assert b == [b[0]];
    } else if |b| == 2 {
      TwoDecodes(b[0], b[1], out);
      assert b == [b[0], b[1]];
    } else {
      NothingDecodes(out);
      assert out + b == out && b == [];
    }
  }

  lemma NothingDecodes(out: seq<Byte>)
    ensures DecodeFrom(Rest([]), out, |out|) == Output(2, out, NoError)
  {
  }

  lemma OneDecodes(b0: Byte, out: seq<Byte>)
    ensures DecodeFrom(Rest([b0]), out, |out| + 1) == Output(2, out + [b0], NoError)
  {
    hide DecodeFrom, EncodeTable, Next;
    var v0, v1 := b0 / 4, b0 % 4 * 16;
    SingleValues(b0);
    Reassembled(b0, 0, 0);
    var w2 := [FILL, FILL];
    var w1 := [EncodeTable(v1)] + w2;
    assert Rest([b0]) == [EncodeTable(v0)] + w1;
    NextValue(v0, w1);
    NextValue(v1, w2);
    LastBytes(v0, v1, Rest([b0]), w1, w2, out);
  }

  lemma TwoDecodes(b0: Byte, b1: Byte, out: seq<Byte>)
    ensures DecodeFrom(Rest([b0, b1]), out, |out| + 2) == Output(2, out + [b0, b1], NoError)
  {
    hide DecodeFrom, EncodeTable, Next, Rest;
    var v0, v1, v2 := b0 / 4, b0 % 4 * 16 + b1 / 16, b1 % 16 * 4;
    RestPair(b0, b1);
    Reassembled(b0, b1, 0);
    var w3 := [FILL];
    var w2 := [EncodeTable(v2)] + w3;
    var w1 := [EncodeTable(v1)] + w2;
    assert Rest([b0, b1]) == [EncodeTable(v0)] + w1;
    NextValue(v0, w1);
    NextValue(v1, w2);
    NextValue(v2, w3);
    assert out + [b0] + [b1] == out + [b0, b1];
    LastPair(v0, v1, v2, Rest([b0, b1]), w1, w2, w3, out);
  }

  lemma RestPair(b0: Byte, b1: Byte)
    ensures Rest([b0, b1])
         == [EncodeTable(b0 / 4), EncodeTable(b0 % 4 * 16 + b1 / 16), EncodeTable(b1 % 16 * 4), FILL]
  {
    hide EncodeTable;
    PairValues(b0, b1);
  }

  lemma LastBytes(v0: nat, v1: nat, w0: string, w1: string, w2: string, out: seq<Byte>)
    requires v0 < 64 && v1 < 64 && w2 == [FILL, FILL] && Next(w0) == (v0, w1) && Next(w1) == (v1, w2)
    ensures DecodeFrom(w0, out, |out| + 1) == Output(2, out + [v0 * 4 + v1 / 16], NoError)
  {
    NextChar(FILL, [FILL]);
    assert [FILL] + [FILL] == w2;
    hide Next;
    assert DecodeFrom(w0, out, |out| + 1) == Second(v0, w1, out, |out| + 1);
    assert Second(v0, w1, out, |out| + 1) == Third(v1, w2, out + [v0 * 4 + v1 / 16], |out| + 1);
  }

  lemma SecondThird(v0: nat, w1: string, v1: nat, w2: string, out: seq<Byte>, len: nat)
    requires v0 < 64 && v1 < 64 && Next(w1) == (v1, w2) && |out| < len
    ensures Second(v0, w1, out, len) == Third(v1, w2, out + [v0 * 4 + v1 / 16], len)
  {
    hide Next, Third;
  }

  lemma ThirdFourth(v1: nat, w2: string, v2: nat, w3: string, out: seq<Byte>, len: nat)
    requires v1 < 64 && v2 < 64 && Next(w2) == (v2, w3) && |out| < len
    ensures Third(v1, w2, out, len) == Fourth(v2, w3, out + [v1 % 16 * 16 + v2 / 4], len)
  {
    hide Next, Fourth;
  }

  lemma FourthFirst(v2: nat, w3: string, v3: nat, w4: string, out: seq<Byte>, len: nat)
    requires v2 < 64 && v3 < 64 && Next(w3) == (v3, w4) && |out| < len
    ensures Fourth(v2, w3, out, len) == DecodeFrom(w4, out + [v2 % 4 * 64 + v3], len)
  {
    hide Next, DecodeFrom;
  }

  lemma FirstSecond(w0: string, v0: nat, w1: string, out: seq<Byte>, len: nat)
    requires Next(w0) == (v0, w1) && v0 < 64
    ensures DecodeFrom(w0, out, len) == Second(v0, w1, out, len)
  {
    hide Next, Second;
  }

  lemma LastPair(v0: nat, v1: nat, v2: nat, w0: string, w1: string, w2: string, w3: string, out: seq<Byte>)
    requires v0 < 64 && v1 < 64 && v2 < 64 && w3 == [FILL]
    requires Next(w0) == (v0, w1) && Next(w1) == (v1, w2) && Next(w2) == (v2, w3)
    ensures DecodeFrom(w0, out, |out| + 2) == Output(2, out + [v0 * 4 + v1 / 16] + [v1 % 16 * 16 + v2 / 4], NoError)
  {
    hide Next, DecodeFrom, Second, Third, Fourth;
    FillNext(w3);
    var len := |out| + 2;
    FirstSecond(w0, v0, w1, out, len);
    SecondThird(v0, w1, v1, w2, out, len);
    var out1: seq<Byte> := out + [v0 * 4 + v1 / 16];
    ThirdFourth(v1, w2, v2, w3, out1, len);
    var out2: seq<Byte> := out1 + [v1 % 16 * 16 + v2 / 4];
    FourthFull(v2, w3, out2, len);
  }

  lemma FillNext(w: string)
    requires w == [FILL]
    ensures Next(w).0 == 96
  {
    NextChar(FILL, "");
    assert [FILL] + "" == w;
  }

  /** A fill character where there is no room left is the end. */
  lemma FourthFull(v2: nat, w3: string, out: seq<Byte>, len: nat)
    requires v2 < 64 && Next(w3).0 == 96 && |out| == len
    ensures Fourth(v2, w3, out, len) == Output(2, out, NoError)
  {
    hide Next, DecodeFrom;
  }

  lemma {:induction false} EncodedDecodes(b: seq<Byte>, g: nat, formatted: bool)
    requires 3 * g <= |b|
    ensures DecodeFrom(EncodedFrom(b, g, formatted), b[..3 * g], |b|) == Output(2, b, NoError)
    decreases |b| - 3 * g
  {
    hide DecodeFrom, EncodedFrom, Group, Rest, Wrap;
    if |b| - 3 * g >= 3 {
      var b0, b1, b2 := b[3 * g], b[3 * g + 1], b[3 * g + 2];
      var w, l, rest := Group(b0, b1, b2), Wrap(g, formatted), EncodedFrom(b, g + 1, formatted);
      EncodedStep(b, g, formatted);
      Assoc(w, l, rest);
      GroupDecodes(b0, b1, b2, l + rest, b[..3 * g], |b|);
      WrapDecodes(g, formatted, rest, b[..3 * g] + [b0, b1, b2], |b|);
      assert b[..3 * g] + [b0, b1, b2] == b[..3 * (g + 1)];
      EncodedDecodes(b, g + 1, formatted);
    } else {
      EncodedLast(b, g, formatted);
      RestDecodes(b[3 * g..], b[..3 * g]);
      assert b[..3 * g] + b[3 * g..] == b;
    }
  }

  // ---------------------------------------------------------------- the computed size

  lemma {:induction false} FilledConcat(a: string, b: string)
    requires Filled(b) < |b|
    ensures Filled(a + b) == Filled(b)
  {
    if b[|b| - 1] == FILL {
      assert (a + b)[..|a + b| - 1] == a + b[..|b| - 1];
      FilledConcat(a, b[..|b| - 1]);
    }
  }

  lemma FourCounted(a: char, b: char, c: char, d: char)
    requires DecodeTable(a) < 97 && DecodeTable(b) < 97 && DecodeTable(c) < 97 && DecodeTable(d) < 97
    ensures Counted([a, b, c, d]) == Some(4)
  {
    CountedConcat([a], [b]);
    CountedConcat([a] + [b], [c]);
    CountedConcat([a] + [b] + [c], [d]);
    assert [a] + [b] + [c] + [d] == [a, b, c, d];
  }

  lemma GroupCounted(b0: Byte, b1: Byte, b2: Byte, g: nat, formatted: bool)
    ensures var w := Group(b0, b1, b2) + Wrap(g, formatted);
            Counted(w) == Some(4) && Filled(w) == 0
  {
    GroupValues(b0, b1, b2);
    var w := Group(b0, b1, b2);
    TablesInverse(b0 / 4);
    TablesInverse(b0 % 4 * 16 + b1 / 16);
    TablesInverse(b1 % 16 * 4 + b2 / 64);
    TablesInverse(b2 % 64);
    assert w == [w[0], w[1], w[2], w[3]];
    FourCounted(w[0], w[1], w[2], w[3]);
    CountedConcat(w, Wrap(g, formatted));
    assert Counted("\n") == Some(0) by {
      assert "\n"[1..] == "";
    }
    assert w[3] != FILL;
    if Wrap(g, formatted) == "" {
      assert w + "" == w;
    }
  }

  lemma RestCounted(b: seq<Byte>)
    requires 0 < |b| < 3
    ensures Counted(Rest(b)) == Some(4) && Filled(Rest(b)) == 3 - |b|
  {
    var b0: int := b[0];
    if |b| == 1 {
      TablesInverse(b0 / 4);
      TablesInverse(b0 * 16 % 64);
      FillCounted(EncodeTable(b0 / 4), EncodeTable(b0 * 16 % 64), FILL);
    } else {
      var b1: int := b[1];
      var j := b0 * 256 + b1;
      TablesInverse(j / 1024);
      TablesInverse(j / 16 % 64);
      TablesInverse(j * 4 % 64);
      FillCounted(EncodeTable(j / 1024), EncodeTable(j / 16 % 64), EncodeTable(j * 4 % 64));
    }
  }

  lemma FillCounted(a: char, b: char, c: char)
    requires DecodeTable(a) < 64 && DecodeTable(b) < 64 && (DecodeTable(c) < 64 || c == FILL)
    ensures Counted([a, b, c, FILL]) == Some(4) && Filled([a, b, c, FILL]) == if c == FILL then 2 else 1
  {
    FourCounted(a, b, c, FILL);
    hide Counted;
    assert [a, b, c, FILL][..3] == [a, b, c] && [a, b, c][..2] == [a, b];
    assert Filled([a, b]) == 0;
    assert Filled([a, b, c]) == if c == FILL then 1 else 0;
  }

  lemma {:induction false} EncodedCounted(b: seq<Byte>, g: nat, formatted: bool)
    requires 3 * g < |b|
    ensures var w, n := EncodedFrom(b, g, formatted), |b| - 3 * g;
            Counted(w) == Some((n + 2) / 3 * 4) && Filled(w) == (n + 2) / 3 * 3 - n && Filled(w) < |w|
    decreases |b| - 3 * g
  {
    hide EncodedFrom, Group, Rest, Wrap, Counted, Filled;
    if |b| - 3 * g >= 3 {
      var w, rest := Group(b[3 * g], b[3 * g + 1], b[3 * g + 2]) + Wrap(g, formatted), EncodedFrom(b, g + 1, formatted);
      EncodedStep(b, g, formatted);
      GroupCounted(b[3 * g], b[3 * g + 1], b[3 * g + 2], g, formatted);
      CountedConcat(w, rest);
      if |b| == 3 * (g + 1) {
        EncodedLast(b, g + 1, formatted);
        assert w + rest == w;
      } else {
        EncodedCounted(b, g + 1, formatted);
        FilledConcat(w, rest);
      }
    } else {
      EncodedLast(b, g, formatted);
      RestCounted(b[3 * g..]);
    }
  }

  /** Decoding what was encoded gives the bytes back, wrapped or not, into a buffer of exactly the computed size.
      Only the empty input is lost: for it the size is 0, and there is no buffer. */
  lemma DecodeUndoesEncode(b: seq<Byte>, formatted: bool)
    ensures DecodeSize(Encoded(b, formatted)) == |b|
    ensures b != [] ==> Counted(Encoded(b, formatted)).Some? && Counted(Encoded(b, formatted)).value % 4 == 0
    ensures DecodeFrom(Encoded(b, formatted), [], |b|) == Output(2, b, NoError)
  {
    hide DecodeFrom, EncodedFrom, Counted, Filled;
    EncodedDecodes(b, 0, formatted);
    assert b[..0] == [];
    if b != [] {
      EncodedCounted(b, 0, formatted);
    } else {
      EncodedLast(b, 0, formatted);
      NothingCounted();
    }
  }

  lemma NothingCounted()
    ensures DecodeSize("") == 0
  {
  }
}
