/**
 Base64 decoding (utils/src/utils.cpp, `decode_base64`) against an encoder that follows
 section 4 of RFC 4648. A byte is a character below 256.
 */
module Base64 {
  import opened Wrappers
  import Utils

  /** One entry of the decoding table: 64 marks a character outside the alphabet. */
  function Sextet(c: char): (v: nat)
    ensures v <= 64
  {
    if 'A' <= c <= 'Z' then c as int - 'A' as int
    else if 'a' <= c <= 'z' then c as int - 'a' as int + 26
    else if '0' <= c <= '9' then c as int - '0' as int + 52
    else if c == '+' then 62
    else if c == '/' then 63
    else 64
  }

  /** A padding character contributes zero bits. */
  function SextetOrZero(c: char): (v: nat)
    ensures v <= 64
  {
    if c == '=' then 0 else Sextet(c)
  }

  /** The four sextets of a quantum packed into one word. */
  function Packed(a: nat, b: nat, c: nat, d: nat): nat {
    a * 0x4_0000 + b * 0x1000 + c * 0x40 + d
  }

  /** One of the three low bytes of a word, the most significant first. */
  function WordByte(word: nat, r: nat): (v: nat)
    ensures v < 256
  {
    if r == 0 then word / 0x1_0000 % 256 else if r == 1 then word / 0x100 % 256 else word % 256
  }

  /** The word packed from quantum q of the input. */
  function QuantumWord(input: string, q: nat): nat
    requires 4 * q + 4 <= |input|
  {
    Packed(SextetOrZero(input[4 * q]), SextetOrZero(input[4 * q + 1]),
           SextetOrZero(input[4 * q + 2]), SextetOrZero(input[4 * q + 3]))
  }

  function OutputLength(input: string): (n: nat)
    requires input != "" && |input| % 4 == 0
    ensures n <= |input| / 4 * 3 <= n + 2
  {
    |input| / 4 * 3
    - (if input[|input| - 1] == '=' then 1 else 0)
    - (if input[|input| - 2] == '=' then 1 else 0)
  }

  /** Byte k of the packed words in order. */
  function DecodedByte(input: string, k: nat): (v: nat)
    requires |input| % 4 == 0 && k < |input| / 4 * 3
    ensures v < 256
  {
    WordByte(QuantumWord(input, k / 3), k % 3)
  }

  function Decoded(input: string): (r: Option<string>)
    requires input != ""
    ensures r.Some? <==> |input| % 4 == 0
  {
    if |input| % 4 != 0 then None
    else
      Some(seq(OutputLength(input), k requires 0 <= k < OutputLength(input) => DecodedByte(input, k) as char))
  }

  lemma ByteOfQuantum(input: string, q: nat)
    requires |input| % 4 == 0 && 4 * q < |input|
    ensures DecodedByte(input, 3 * q) == WordByte(QuantumWord(input, q), 0)
    ensures DecodedByte(input, 3 * q + 1) == WordByte(QuantumWord(input, q), 1)
    ensures DecodedByte(input, 3 * q + 2) == WordByte(QuantumWord(input, q), 2)
  {
    assert 3 * q / 3 == q && (3 * q + 1) / 3 == q && (3 * q + 2) / 3 == q;
  }

  /** A packed word fits std::uint32_t, even when a character is outside the alphabet. */
  lemma PackedFits(a: nat, b: nat, c: nat, d: nat)
    requires a <= 64 && b <= 64 && c <= 64 && d <= 64
    ensures Packed(a, b, c, d) < 0x1_0000_0000
  {
  }

  lemma OutputBounds(input: string) returns (quanta: nat)
    requires input != "" && |input| % 4 == 0
    ensures |input| == 4 * quanta && 3 * quanta - 2 <= OutputLength(input) <= 3 * quanta
    ensures |Decoded(input).value| == OutputLength(input)
  {
    quanta := |input| / 4;
  }

  /** What quantum q of the input contributes to the output text. */
  ghost predicate QuantumDecodes(input: string, output: string, q: nat)
    requires 4 * q + 4 <= |input|
  {
    var word := QuantumWord(input, q);
    && (3 * q < |output| ==> output[3 * q] == WordByte(word, 0) as char)
    && (3 * q + 1 < |output| ==> output[3 * q + 1] == WordByte(word, 1) as char)
    && (3 * q + 2 < |output| ==> output[3 * q + 2] == WordByte(word, 2) as char)
  }

  lemma DecodedQuantum(input: string, q: nat)
    requires input != "" && |input| % 4 == 0 && 4 * q < |input|
    ensures QuantumDecodes(input, Decoded(input).value, q)
  {
    hide WordByte, DecodedByte, QuantumWord;
    ByteOfQuantum(input, q);
  }

  /** The decoding loop; each index of the output is written once, in order. */
  method FillOutput(input: string, output: array<char>, ghost quanta: nat, ghost expected: string)
    requires |input| == 4 * quanta && |expected| == output.Length
    requires 3 * quanta - 2 <= output.Length <= 3 * quanta
    requires forall q: nat :: q < quanta ==> QuantumDecodes(input, expected, q)
    modifies output
    ensures output[..] == expected
  {
    hide WordByte, Packed, SextetOrZero;
    var i, j := 0, 0;
    ghost var q := 0;
    while i < |input|
      invariant 0 <= q <= quanta && i == 4 * q
      invariant j == if q < quanta then 3 * q else output.Length
      invariant forall k :: 0 <= k < j ==> output[k] == expected[k]
    {
      var a := SextetOrZero(input[i]);
      var b := SextetOrZero(input[i + 1]);
      var c := SextetOrZero(input[i + 2]);
      var d := SextetOrZero(input[i + 3]);
      i := i + 4;

      PackedFits(a, b, c, d);
      var triple := Packed(a, b, c, d);
      assert QuantumDecodes(input, expected, q);

      j := Put(output, j, WordByte(triple, 0));
      j := Put(output, j, WordByte(triple, 1));
      j := Put(output, j, WordByte(triple, 2));
      q := q + 1;
    }
  }

  /** Stores one byte unless the output is full. */
  method Put(output: array<char>, j: nat, byte: nat) returns (next: nat)
    requires j <= output.Length && byte < 256
    modifies output
    ensures next == if j < output.Length then j + 1 else j
    ensures forall k :: 0 <= k < output.Length ==> output[k] == if k == j then byte as char else old(output[k])
  {
    next := j;
    if j < output.Length {
      output[j] := byte as char;
      next := j + 1;
    }
  }

  /** The table is indexed by a signed char, so only ASCII input is defined; so is only non-empty input. */
  method DecodeBase64(input: string) returns (result: Option<string>)
    requires input != ""
    requires forall c :: c in input ==> c as int < 128
    ensures result == Decoded(input)
  {
    if |input| % 4 != 0 {
      return None;
    }
    var output := new char[OutputLength(input)];
    forall q: nat | 4 * q < |input| ensures QuantumDecodes(input, Decoded(input).value, q) {
      DecodedQuantum(input, q);
    }
    FillOutput(input, output, |input| / 4, Decoded(input).value);
    result := Some(output[..]);
  }

  // ---------------------------------------------------------------- RFC 4648

  predicate IsByteString(text: string) {
    forall c :: c in text ==> c as int < 256
  }

  /** The alphabet of section 4 (table 1). */
  function Letter(v: nat): (c: char)
    requires v < 64
    ensures Sextet(c) == v && c != '='
  {
    if v < 26 then ('A' as int + v) as char
    else if v < 52 then ('a' as int + v - 26) as char
    else if v < 62 then ('0' as int + v - 52) as char
    else if v == 62 then '+'
    else '/'
  }

  const DIGITS := "0123456789"

  /** The alphabet as table 1 lists it. */
  const ALPHABET := Utils.CAPITALS + Utils.SMALLS + DIGITS + "+/"

  lemma DigitAt(k: nat)
    requires k < 10
    ensures |DIGITS| == 10 && DIGITS[k] as int == '0' as int + k
  {
  }

  lemma LetterAt(v: nat)
    requires v < 64
    ensures |ALPHABET| == 64 && ALPHABET[v] == Letter(v)
  {
    hide Sextet;
    Utils.AlphabetAt(if v < 26 then v else if v < 52 then v - 26 else 0);
    DigitAt(if 52 <= v < 62 then v - 52 else 0);
  }

  /** The decoding table gives each letter of the alphabet its place, and 64 to every other character. */
  lemma TableIsAlphabet()
    ensures |ALPHABET| == 64
    ensures forall v :: 0 <= v < 64 ==> Sextet(ALPHABET[v]) == v
    ensures forall c :: c !in ALPHABET ==> Sextet(c) == 64
  {
    hide Letter;
    LetterAt(0);
    forall v | 0 <= v < 64 ensures ALPHABET[v] == Letter(v) && Sextet(ALPHABET[v]) == v {
      LetterAt(v);
    }
    forall c ensures c !in ALPHABET ==> Sextet(c) == 64 {
      if Sextet(c) < 64 {
        InAlphabet(c);
      }
    }
  }

  lemma InAlphabet(c: char)
    requires Sextet(c) < 64
    ensures c in ALPHABET
  {
    var v := Sextet(c);
    LetterAt(v);
    assert Letter(v) == c;
    assert ALPHABET[v] in ALPHABET;
  }

  /** Byte k of the text, with zero bits after its end. */
  function ByteOrZero(bytes: string, k: nat): (v: nat)
    requires IsByteString(bytes)
    ensures v < 256
  {
    if k < |bytes| then assert bytes[k] in bytes; bytes[k] as int else 0
  }

  /** Character r of quantum q of the encoding: six bits of a three-byte group, or padding. */
  function EncodedChar(bytes: string, q: nat, r: nat): (c: char)
    requires IsByteString(bytes)
  {
    var x, y, z := ByteOrZero(bytes, 3 * q), ByteOrZero(bytes, 3 * q + 1), ByteOrZero(bytes, 3 * q + 2);
    if r == 0 then Letter(x / 4)
    else if r == 1 then Letter(x % 4 * 16 + y / 16)
    else if r == 2 then if 3 * q + 1 < |bytes| then Letter(y % 16 * 4 + z / 64) else '='
    else if 3 * q + 2 < |bytes| then Letter(z % 64) else '='
  }

  /** One quantum for each three-byte group, the last of which may be short. */
  function Quanta(bytes: string): (n: nat)
    ensures 3 * n - 3 < |bytes| <= 3 * n
  {
    (|bytes| + 2) / 3
  }

  function Encoded(bytes: string): (text: string)
    requires IsByteString(bytes)
    ensures |text| == 4 * Quanta(bytes)
  {
    seq(4 * Quanta(bytes), k requires 0 <= k => EncodedChar(bytes, k / 4, k % 4))
  }

  lemma QuantumIndex(q: nat, r: nat)
    requires r < 4
    ensures (4 * q + r) / 4 == q && (4 * q + r) % 4 == r
  {
  }

  lemma QuantumOf(k: nat) returns (q: nat, r: nat)
    ensures k == 4 * q + r && r < 4
  {
    q, r := k / 4, k % 4;
  }

  lemma EncodedAt(bytes: string, q: nat)
    requires IsByteString(bytes) && q < Quanta(bytes)
    ensures Encoded(bytes)[4 * q] == EncodedChar(bytes, q, 0)
    ensures Encoded(bytes)[4 * q + 1] == EncodedChar(bytes, q, 1)
    ensures Encoded(bytes)[4 * q + 2] == EncodedChar(bytes, q, 2)
    ensures Encoded(bytes)[4 * q + 3] == EncodedChar(bytes, q, 3)
  {
    hide EncodedChar, Quanta;
    QuantumIndex(q, 0);
    QuantumIndex(q, 1);
    QuantumIndex(q, 2);
    QuantumIndex(q, 3);
  }

  lemma UnpackWord(x: nat, y: nat, z: nat)
    requires x < 256 && y < 256 && z < 256
    ensures Packed(x / 4, x % 4 * 16 + y / 16, y % 16 * 4 + z / 64, z % 64) == x * 0x1_0000 + y * 0x100 + z
  {
  }

  lemma SplitWord(x: nat, y: nat, z: nat)
    requires x < 256 && y < 256 && z < 256
    ensures var word := x * 0x1_0000 + y * 0x100 + z;
            WordByte(word, 0) == x && WordByte(word, 1) == y && WordByte(word, 2) == z
  {
  }

  /** The four characters of a group carry its three bytes, whatever of it is padding. */
  lemma GroupWord(bytes: string, q: nat)
    requires IsByteString(bytes) && q < Quanta(bytes)
    ensures var word := QuantumWord(Encoded(bytes), q);
            && WordByte(word, 0) == ByteOrZero(bytes, 3 * q)
            && WordByte(word, 1) == ByteOrZero(bytes, 3 * q + 1)
            && WordByte(word, 2) == ByteOrZero(bytes, 3 * q + 2)
  {
    hide Encoded, Sextet, Packed, WordByte;
    var x, y, z := ByteOrZero(bytes, 3 * q), ByteOrZero(bytes, 3 * q + 1), ByteOrZero(bytes, 3 * q + 2);
    EncodedAt(bytes, q);
    assert SextetOrZero(EncodedChar(bytes, q, 0)) == x / 4;
    assert SextetOrZero(EncodedChar(bytes, q, 1)) == x % 4 * 16 + y / 16;
    assert SextetOrZero(EncodedChar(bytes, q, 2)) == y % 16 * 4 + z / 64;
    assert SextetOrZero(EncodedChar(bytes, q, 3)) == z % 64;
    UnpackWord(x, y, z);
    SplitWord(x, y, z);
  }

  /** What each character of a quantum is, and which unused bits are zero. */
  lemma EncodedShape(bytes: string, q: nat)
    requires IsByteString(bytes) && 3 * q < |bytes|
    ensures Sextet(EncodedChar(bytes, q, 0)) < 64 && Sextet(EncodedChar(bytes, q, 1)) < 64
    ensures if 3 * q + 1 < |bytes| then Sextet(EncodedChar(bytes, q, 2)) < 64 && EncodedChar(bytes, q, 2) != '='
            else EncodedChar(bytes, q, 2) == '=' && Sextet(EncodedChar(bytes, q, 1)) % 16 == 0
    ensures if 3 * q + 2 < |bytes| then Sextet(EncodedChar(bytes, q, 3)) < 64 && EncodedChar(bytes, q, 3) != '='
            else EncodedChar(bytes, q, 3) == '='
    ensures 3 * q + 2 == |bytes| ==> Sextet(EncodedChar(bytes, q, 2)) % 4 == 0
  {
    hide Sextet, Letter;
  }

  lemma EncodingLength(bytes: string)
    requires IsByteString(bytes) && bytes != ""
    ensures OutputLength(Encoded(bytes)) == |bytes|
  {
    hide EncodedChar, Encoded, Quanta;
    var last := Quanta(bytes) - 1;
    EncodedAt(bytes, last);
    EncodedShape(bytes, last);
    assert |Encoded(bytes)| / 4 * 3 == 3 * last + 3;
  }

  lemma GroupOf(k: nat) returns (q: nat, r: nat)
    ensures k == 3 * q + r && r < 3
  {
    q, r := k / 3, k % 3;
  }

  lemma QuantaCover(bytes: string, k: nat)
    requires IsByteString(bytes) && k < |bytes|
    ensures k / 3 < Quanta(bytes) && |Encoded(bytes)| == 4 * Quanta(bytes)
    ensures |Encoded(bytes)| % 4 == 0 && |Encoded(bytes)| / 4 * 3 == 3 * Quanta(bytes) && k < 3 * Quanta(bytes)
  {
    hide EncodedChar;
  }

  lemma EncodedByte(bytes: string, k: nat)
    requires IsByteString(bytes) && k < |bytes|
    ensures |Encoded(bytes)| % 4 == 0 && k < |Encoded(bytes)| / 4 * 3
    ensures DecodedByte(Encoded(bytes), k) as char == bytes[k]
  {
    hide Encoded, EncodedChar, Quanta, DecodedByte, QuantumWord, WordByte, IsByteString;
    QuantaCover(bytes, k);
    var q, r := GroupOf(k);
    GroupWord(bytes, q);
    ByteOfQuantum(Encoded(bytes), q);
  }

  lemma DecodedAt(input: string, k: nat)
    requires input != "" && |input| % 4 == 0 && k < OutputLength(input)
    ensures Decoded(input).Some? && |Decoded(input).value| == OutputLength(input)
    ensures Decoded(input).value[k] == DecodedByte(input, k) as char
  {
    hide DecodedByte, OutputLength;
  }

  /** Decoding undoes encoding for every non-empty byte string. */
  lemma DecodeOfEncode(bytes: string)
    requires IsByteString(bytes) && bytes != ""
    ensures Decoded(Encoded(bytes)) == Some(bytes)
  {
    hide Encoded, Decoded, DecodedByte, OutputLength, Quanta, IsByteString;
    var text := Encoded(bytes);
    QuantaCover(bytes, 0);
    EncodingLength(bytes);
    DecodedAt(text, 0);
    forall k: nat | k < |bytes| ensures Decoded(text).value[k] == bytes[k] {
      EncodedByte(bytes, k);
      DecodedAt(text, k);
    }
    assert Decoded(text).value == bytes;
  }

  /** Whole quanta of alphabet characters, padding only at the end, unused bits zero (section 3.5). */
  ghost predicate Canonical(text: string) {
    var n := |text|;
    && n > 0 && n % 4 == 0
    && (forall k :: 0 <= k < n - 2 ==> Sextet(text[k]) < 64)
    && (Sextet(text[n - 2]) < 64 || (text[n - 2] == '=' && text[n - 1] == '='))
    && (Sextet(text[n - 1]) < 64 || text[n - 1] == '=')
    && (text[n - 2] == '=' ==> Sextet(text[n - 3]) % 16 == 0)
    && (text[n - 2] != '=' && text[n - 1] == '=' ==> Sextet(text[n - 2]) % 4 == 0)
  }

  lemma LetterOfSextet(c: char)
    requires Sextet(c) < 64
    ensures Letter(Sextet(c)) == c
  {
  }

  lemma EncodedInAlphabet(bytes: string, q: nat)
    requires IsByteString(bytes) && 3 * q < |bytes|
    ensures forall k :: 4 * q <= k < 4 * q + 4 && k < |Encoded(bytes)| - 2 ==> Sextet(Encoded(bytes)[k]) < 64
  {
    hide EncodedChar, Encoded, Sextet;
    EncodedAt(bytes, q);
    EncodedShape(bytes, q);
  }

  lemma EncodingIsCanonical(bytes: string)
    requires IsByteString(bytes) && bytes != ""
    ensures Canonical(Encoded(bytes))
  {
    hide IsByteString, EncodedChar, Encoded, Quanta, Sextet;
    var text, last := Encoded(bytes), Quanta(bytes) - 1;
    forall k | 0 <= k < |text| - 2 ensures Sextet(text[k]) < 64 {
      var q, r := QuantumOf(k);
      EncodedInAlphabet(bytes, q);
    }
    EncodedAt(bytes, last);
    EncodedShape(bytes, last);
  }

  /** The bytes of a packed word hold its sextets. */
  lemma RepackWord(a: nat, b: nat, c: nat, d: nat)
    requires a < 64 && b < 64 && c < 64 && d < 64
    ensures var word := Packed(a, b, c, d);
            && WordByte(word, 0) == 4 * a + b / 16
            && WordByte(word, 1) == b % 16 * 16 + c / 4
            && WordByte(word, 2) == c % 4 * 64 + d
  {
    var x, y, z := 4 * a + b / 16, b % 16 * 16 + c / 4, c % 4 * 64 + d;
    assert Packed(a, b, c, d) == x * 0x1_0000 + y * 0x100 + z;
    SplitWord(x, y, z);
  }

  lemma LettersOfQuantum(text: string, i: nat)
    requires i + 4 <= |text|
    ensures forall k :: i <= k < i + 4 && Sextet(text[k]) < 64 ==>
              text[k] != '=' && text[k] == Letter(SextetOrZero(text[k]))
  {
    forall k | i <= k < i + 4 && Sextet(text[k]) < 64 ensures text[k] == Letter(SextetOrZero(text[k])) {
      LetterOfSextet(text[k]);
    }
  }

  lemma CanonicalQuantum(text: string, q: nat)
    requires Canonical(text) && 4 * q < |text|
    ensures var a, b, c, d := SextetOrZero(text[4 * q]), SextetOrZero(text[4 * q + 1]),
                              SextetOrZero(text[4 * q + 2]), SextetOrZero(text[4 * q + 3]);
            && a < 64 && b < 64 && c < 64 && d < 64
            && 3 * q < OutputLength(text)
            && (3 * q + 1 >= OutputLength(text) ==> c == 0 && d == 0 && b % 16 == 0)
            && (3 * q + 2 >= OutputLength(text) ==> d == 0 && c % 4 == 0)
            && text[4 * q] == Letter(a) && text[4 * q + 1] == Letter(b)
            && text[4 * q + 2] == (if 3 * q + 1 < OutputLength(text) then Letter(c) else '=')
            && text[4 * q + 3] == (if 3 * q + 2 < OutputLength(text) then Letter(d) else '=')
  {
    hide Sextet, Letter;
    var n := |text| / 4;
    assert 4 * q + 4 == |text| || 4 * q + 4 < |text| - 2;
    LettersOfQuantum(text, 4 * q);
  }

  lemma DecodedIsByteString(text: string)
    requires text != "" && |text| % 4 == 0
    ensures IsByteString(Decoded(text).value)
  {
    var bytes := Decoded(text).value;
    assert forall k :: 0 <= k < |bytes| ==> bytes[k] == DecodedByte(text, k) as char;
  }

  lemma BytesOfQuantum(text: string, bytes: string, q: nat, a: nat, b: nat, c: nat, d: nat)
    requires text != "" && |text| % 4 == 0 && Decoded(text) == Some(bytes) && IsByteString(bytes)
    requires 4 * q < |text| && a < 64 && b < 64 && c < 64 && d < 64
    requires Packed(a, b, c, d) == QuantumWord(text, q)
    requires 3 * q < |bytes|
    requires 3 * q + 1 >= |bytes| ==> c == 0 && d == 0 && b % 16 == 0
    requires 3 * q + 2 >= |bytes| ==> d == 0 && c % 4 == 0
    ensures ByteOrZero(bytes, 3 * q) == 4 * a + b / 16
    ensures ByteOrZero(bytes, 3 * q + 1) == b % 16 * 16 + c / 4
    ensures ByteOrZero(bytes, 3 * q + 2) == c % 4 * 64 + d
  {
    hide WordByte, DecodedByte, Packed, QuantumWord;
    RepackWord(a, b, c, d);
    ByteOfQuantum(text, q);
    assert bytes[3 * q] == DecodedByte(text, 3 * q) as char;
    assert 3 * q + 1 < |bytes| ==> bytes[3 * q + 1] == DecodedByte(text, 3 * q + 1) as char;
    assert 3 * q + 2 < |bytes| ==> bytes[3 * q + 2] == DecodedByte(text, 3 * q + 2) as char;
  }

  lemma RegroupBytes(a: nat, b: nat, c: nat, d: nat)
    requires a < 64 && b < 64 && c < 64 && d < 64
    ensures var x, y, z := 4 * a + b / 16, b % 16 * 16 + c / 4, c % 4 * 64 + d;
            x / 4 == a && x % 4 * 16 + y / 16 == b && y % 16 * 4 + z / 64 == c && z % 64 == d
  {
    var b1, b0, c1, c0 := b / 16, b % 16, c / 4, c % 4;
    assert (4 * a + b1) / 4 == a && (4 * a + b1) % 4 == b1;
    assert (b0 * 16 + c1) / 16 == b0 && (b0 * 16 + c1) % 16 == c1;
    assert (c0 * 64 + d) / 64 == c0 && (c0 * 64 + d) % 64 == d;
  }

  lemma RegroupedChars(bytes: string, q: nat, a: nat, b: nat, c: nat, d: nat)
    requires IsByteString(bytes) && a < 64 && b < 64 && c < 64 && d < 64
    requires ByteOrZero(bytes, 3 * q) == 4 * a + b / 16
    requires ByteOrZero(bytes, 3 * q + 1) == b % 16 * 16 + c / 4
    requires ByteOrZero(bytes, 3 * q + 2) == c % 4 * 64 + d
    ensures EncodedChar(bytes, q, 0) == Letter(a) && EncodedChar(bytes, q, 1) == Letter(b)
    ensures EncodedChar(bytes, q, 2) == if 3 * q + 1 < |bytes| then Letter(c) else '='
    ensures EncodedChar(bytes, q, 3) == if 3 * q + 2 < |bytes| then Letter(d) else '='
  {
    hide ByteOrZero, Letter;
    RegroupBytes(a, b, c, d);
  }

  lemma EncodeOfDecodeAt(text: string, q: nat)
    requires Canonical(text) && 4 * q < |text|
    ensures IsByteString(Decoded(text).value)
    ensures var bytes := Decoded(text).value;
            && text[4 * q] == EncodedChar(bytes, q, 0) && text[4 * q + 1] == EncodedChar(bytes, q, 1)
            && text[4 * q + 2] == EncodedChar(bytes, q, 2) && text[4 * q + 3] == EncodedChar(bytes, q, 3)
  {
    var bytes := Decoded(text).value;
    var a, b, c, d := SextetOrZero(text[4 * q]), SextetOrZero(text[4 * q + 1]),
                      SextetOrZero(text[4 * q + 2]), SextetOrZero(text[4 * q + 3]);
    assert |bytes| == OutputLength(text);
    DecodedIsByteString(text);
    CanonicalQuantum(text, q);
    hide Canonical, OutputLength, Decoded, DecodedByte, WordByte;
    BytesOfQuantum(text, bytes, q, a, b, c, d);
    RegroupedChars(bytes, q, a, b, c, d);
  }

  lemma ReencodedLength(text: string)
    requires Canonical(text)
    ensures IsByteString(Decoded(text).value) && |Encoded(Decoded(text).value)| == |text|
  {
    hide DecodedByte, EncodedChar, Sextet;
    DecodedIsByteString(text);
    var quanta := OutputBounds(text);
    CanonicalQuantum(text, quanta - 1);
  }

  lemma EncodeOfCanonical(text: string)
    requires Canonical(text)
    ensures IsByteString(Decoded(text).value) && Encoded(Decoded(text).value) == text
  {
    hide Decoded, DecodedByte, Encoded, EncodedChar, IsByteString, Sextet, OutputLength;
    ReencodedLength(text);
    var bytes := Decoded(text).value;
    forall k | 0 <= k < |text| ensures Encoded(bytes)[k] == text[k] {
      var q, r := QuantumOf(k);
      EncodeOfDecodeAt(text, q);
      EncodedAt(bytes, q);
    }
  }

  /** Encoding undoes decoding exactly on the canonical encodings. */
  lemma EncodeOfDecodeIff(text: string)
    requires text != "" && |text| % 4 == 0
    ensures IsByteString(Decoded(text).value)
    ensures Encoded(Decoded(text).value) == text <==> Canonical(text)
  {
    var bytes := Decoded(text).value;
    DecodedIsByteString(text);
    if Canonical(text) {
      EncodeOfCanonical(text);
    }
    if Encoded(bytes) == text {
      EncodingIsCanonical(bytes);
    }
  }

  /** A text that decodes without being canonical: four of its bits are not zero, and encoding loses them. */
  lemma LooseTextDecodes()
    ensures !Canonical("QR==") && Decoded("QR==") == Some("A")
    ensures IsByteString("A") && Encoded("A") == "QQ=="
  {
    assert Sextet('Q') == 16 && Sextet('R') == 17;
    assert OutputLength("QR==") == 1;
    assert DecodedByte("QR==", 0) == 65;
    assert Decoded("QR==").value == "A";
    assert Letter(16) == 'Q';
    assert Encoded("A") == "QQ==";
  }
}
