/** Hex (RFC 4648 section 8) and base64 (RFC 4648 section 4) of the byte fields of a registry entry. */
module RegistryText {
  import opened Wrappers

  type byte = x: int | 0 <= x < 256

  function Zeros(n: nat): (z: seq<byte>)
    ensures |z| == n
  {
    seq(n, _ => 0)
  }

  /** `Buffer.alloc(len)` with `copy`: cut to `len` bytes, or filled up with zeros. */
  function Fit(b: seq<byte>, len: nat): (r: seq<byte>)
    ensures |r| == len
    ensures |b| == len ==> r == b
  {
    if |b| >= len then b[..len] else b + Zeros(len - |b|)
  }

  // ---------------------------------------------------------------- Hex

  type nibble = x: int | 0 <= x < 16

  function HexDigit(v: nibble): char {
    if v < 10 then '0' + v as char else 'a' + (v - 10) as char
  }

  /** Digits are read in either case. */
  function HexValue(c: char): Option<nibble> {
    if '0' <= c <= '9' then Some(c as int - '0' as int)
    else if 'a' <= c <= 'f' then Some(c as int - 'a' as int + 10)
    else if 'A' <= c <= 'F' then Some(c as int - 'A' as int + 10)
    else None
  }

  predicate LowerHex(s: string) {
    forall i :: 0 <= i < |s| ==> '0' <= s[i] <= '9' || 'a' <= s[i] <= 'f'
  }

  function HexFromBytes(b: seq<byte>): string {
    if b == [] then "" else [HexDigit(b[0] / 16), HexDigit(b[0] % 16)] + HexFromBytes(b[1..])
  }

  /** Decoding stops at the first pair that is not two digits. */
  function ReadHex(s: string): seq<byte> {
    if |s| < 2 then []
    else
      var hi, lo := HexValue(s[0]), HexValue(s[1]);
      if hi.None? || lo.None? then [] else [16 * hi.value + lo.value] + ReadHex(s[2..])
  }

  function BytesFromHex(s: string, len: nat): seq<byte> { Fit(ReadHex(s), len) }

  lemma HexDigitChar(v: nibble)
    ensures HexDigit(v) == "0123456789abcdef"[v]
  {
  }

  lemma HexValueOfDigit(v: nibble)
    ensures HexValue("0123456789abcdef"[v]) == Some(v) && HexValue("0123456789ABCDEF"[v]) == Some(v)
  {
  }

  lemma HexNothingElse(c: char)
    ensures HexValue(c).Some? ==> c in "0123456789abcdefABCDEF"
  {
    var s := "0123456789abcdefABCDEF";
    if HexValue(c).Some? {
      if '0' <= c <= '9' {
        assert s[c as int - '0' as int] == c;
      } else if 'a' <= c <= 'f' {
        assert s[c as int - 'a' as int + 10] == c;
      } else {
        assert s[c as int - 'A' as int + 16] == c;
      }
    }
  }

  lemma {:induction false} HexIsLower(b: seq<byte>)
    ensures LowerHex(HexFromBytes(b)) && |HexFromBytes(b)| == 2 * |b|
  {
    if b == [] {
    } else {
      HexIsLower(b[1..]);
    }
  }

  lemma PairReadsBack(c: char, d: char)
    requires LowerHex([c, d])
    ensures HexValue(c).Some? && HexValue(d).Some?
    ensures var b: byte := 16 * HexValue(c).value + HexValue(d).value;
            HexDigit(b / 16) == c && HexDigit(b % 16) == d
  {
    assert [c, d][0] == c && [c, d][1] == d;
    var hi: int, lo: int := HexValue(c).value, HexValue(d).value;
    assert (16 * hi + lo) / 16 == hi && (16 * hi + lo) % 16 == lo;
  }

  lemma {:induction false} LowerHexReadsBack(s: string)
    requires LowerHex(s) && |s| % 2 == 0
    ensures 2 * |ReadHex(s)| == |s| && HexFromBytes(ReadHex(s)) == s
  {
    hide HexValue, HexDigit;
    if s == "" {
    } else {
      LowerHexReadsBack(s[2..]);
      PairReadsBack(s[0], s[1]);
      assert ReadHex(s)[1..] == ReadHex(s[2..]);
      assert s == [s[0], s[1]] + s[2..];
    }
  }

  /** A hex field comes back unchanged exactly when it is lower-case hex of the full length. */
  lemma HexRoundTrip(s: string, len: nat)
    ensures HexFromBytes(BytesFromHex(s, len)) == s <==> LowerHex(s) && |s| == 2 * len
  {
    HexIsLower(BytesFromHex(s, len));
    if LowerHex(s) && |s| == 2 * len {
      LowerHexReadsBack(s);
    }
  }

  /** The digits in order of their values, in print and in capitals. */
  lemma HexAlphabet(v: nibble, c: char)
    ensures HexDigit(v) == "0123456789abcdef"[v]
    ensures HexValue("0123456789abcdef"[v]) == Some(v) && HexValue("0123456789ABCDEF"[v]) == Some(v)
    ensures HexValue(c).Some? ==> c in "0123456789abcdefABCDEF"
  {
    HexDigitChar(v);
    HexValueOfDigit(v);
    HexNothingElse(c);
  }

  /** Each byte is printed with its upper four bits first. */
  lemma {:induction false} HexAt(b: seq<byte>, i: nat)
    requires i < |b|
    ensures |HexFromBytes(b)| == 2 * |b|
    ensures HexFromBytes(b)[2 * i] == "0123456789abcdef"[b[i] / 16]
    ensures HexFromBytes(b)[2 * i + 1] == "0123456789abcdef"[b[i] % 16]
  {
    HexIsLower(b);
    if i == 0 {
      HexDigitChar(b[0] / 16);
      HexDigitChar(b[0] % 16);
    } else {
      HexAt(b[1..], i - 1);
    }
  }

  /** The characters `2 * i` and `2 * i + 1` are digits in either case. */
  predicate IsPair(s: string, i: nat) {
    2 * i + 1 < |s| && HexValue(s[2 * i]).Some? && HexValue(s[2 * i + 1]).Some?
  }

  lemma PairAfter(s: string, i: nat)
    requires |s| >= 2
    ensures IsPair(s, i + 1) <==> IsPair(s[2..], i)
  {
  }

  /** Reading takes the bytes of leading pairs of digits... */
  lemma {:induction false} HexReadAt(s: string, i: nat)
    requires i < |ReadHex(s)|
    ensures IsPair(s, i) && ReadHex(s)[i] == 16 * HexValue(s[2 * i]).value + HexValue(s[2 * i + 1]).value
  {
    if i == 0 {
    } else {
      HexReadAt(s[2..], i - 1);
      PairAfter(s, i - 1);
    }
  }

  /** ...and stops at the first pair that is none. */
  lemma {:induction false} HexReadStops(s: string)
    ensures !IsPair(s, |ReadHex(s)|)
  {
    if !IsPair(s, 0) {
    } else {
      HexReadStops(s[2..]);
      PairAfter(s, |ReadHex(s[2..])|);
    }
  }

  /** What is too long is cut, and what is too short ends in zeros. */
  lemma FitKeepsHead(b: seq<byte>, len: nat)
    ensures |b| >= len ==> Fit(b, len) == b[..len]
    ensures |b| < len ==> Fit(b, len)[..|b|] == b && forall i :: |b| <= i < len ==> Fit(b, len)[i] == 0
  {
  }

  // ---------------------------------------------------------------- Base64

  type sextet = x: int | 0 <= x < 64

  function Letter(v: sextet): char {
    if v < 26 then 'A' + v as char
    else if v < 52 then 'a' + (v - 26) as char
    else if v < 62 then '0' + (v - 52) as char
    else if v == 62 then '+'
    else '/'
  }

  /** The standard alphabet, and `-` and `_` of the URL-safe one. */
  function LetterValue(c: char): Option<sextet> {
    if 'A' <= c <= 'Z' then Some(c as int - 'A' as int)
    else if 'a' <= c <= 'z' then Some(c as int - 'a' as int + 26)
    else if '0' <= c <= '9' then Some(c as int - '0' as int + 52)
    else if c == '+' || c == '-' then Some(62)
    else if c == '/' || c == '_' then Some(63)
    else None
  }

  predicate Standard(c: char) { LetterValue(c).Some? && c != '-' && c != '_' }

  lemma LettersAreInverse(v: sextet, c: char)
    ensures Standard(Letter(v)) && LetterValue(Letter(v)) == Some(v)
    ensures Standard(c) ==> Letter(LetterValue(c).value) == c
  {
  }

  lemma CapitalLetter(v: sextet)
    requires v < 26
    ensures Letter(v) == "ABCDEFGHIJKLMNOPQRSTUVWXYZ"[v]
  {
  }

  lemma SmallLetter(v: sextet)
    requires 26 <= v < 52
    ensures Letter(v) == "abcdefghijklmnopqrstuvwxyz"[v - 26]
  {
  }

  /** The letters in order of their values; the URL-safe alphabet differs in the last two. */
  lemma Base64Alphabet(v: sextet)
    ensures v < 26 ==> Letter(v) == "ABCDEFGHIJKLMNOPQRSTUVWXYZ"[v]
    ensures 26 <= v < 52 ==> Letter(v) == "abcdefghijklmnopqrstuvwxyz"[v - 26]
    ensures 52 <= v ==> Letter(v) == "0123456789+/"[v - 52]
    ensures LetterValue(Letter(v)) == Some(v)
    ensures LetterValue('-') == Some(62) && LetterValue('_') == Some(63)
  {
    if v < 26 {
      CapitalLetter(v);
    } else if v < 52 {
      SmallLetter(v);
    }
  }

  function First(a: byte): sextet { a / 4 }
  function Second(a: byte, b: byte): sextet { a % 4 * 16 + b / 16 }
  function Third(b: byte, c: byte): sextet { b % 16 * 4 + c / 64 }
  function Fourth(c: byte): sextet { c % 64 }

  function Left(w: sextet, x: sextet): byte { w * 4 + x / 16 }
  function Middle(x: sextet, y: sextet): byte { x % 16 * 16 + y / 4 }
  function Right(y: sextet, z: sextet): byte { y % 4 * 64 + z }

  /** Three bytes make four sextets; a tail of one or two makes two or three. */
  function Sextets(b: seq<byte>): seq<sextet> {
    if b == [] then []
    else if |b| == 1 then [First(b[0]), Second(b[0], 0)]
    else if |b| == 2 then [First(b[0]), Second(b[0], b[1]), Third(b[1], 0)]
    else [First(b[0]), Second(b[0], b[1]), Third(b[1], b[2]), Fourth(b[2])] + Sextets(b[3..])
  }

  function FromSextets(x: seq<sextet>): seq<byte> {
    if |x| < 2 then []
    else if |x| == 2 then [Left(x[0], x[1])]
    else if |x| == 3 then [Left(x[0], x[1]), Middle(x[1], x[2])]
    else [Left(x[0], x[1]), Middle(x[1], x[2]), Right(x[2], x[3])] + FromSextets(x[4..])
  }

  lemma GroupReadsBack(w: sextet, x: sextet, y: sextet, z: sextet)
    ensures First(Left(w, x)) == w
    ensures Second(Left(w, x), Middle(x, y)) == x
    ensures Third(Middle(x, y), Right(y, z)) == y
    ensures Fourth(Right(y, z)) == z
    ensures x % 16 == 0 ==> Second(Left(w, x), 0) == x
    ensures y % 4 == 0 ==> Third(Middle(x, y), 0) == y
  {
  }

  /** Section 4: the sextets of a group, read as one number, are its three bytes. */
  lemma GroupIsOneNumber(a: byte, b: byte, c: byte)
    ensures 0x10000 * a + 0x100 * b + c
         == 0x40000 * First(a) + 0x1000 * Second(a, b) + 0x40 * Third(b, c) + Fourth(c)
  {
  }

  function Letters(x: seq<sextet>): (s: string)
    ensures |s| == |x|
  {
    if x == [] then "" else [Letter(x[0])] + Letters(x[1..])
  }

  function Padding(n: nat): string { if n % 3 == 0 then "" else if n % 3 == 1 then "==" else "=" }

  function Base64FromBytes(b: seq<byte>): string { Letters(Sextets(b)) + Padding(|b|) }

  /** Characters outside the alphabet are skipped, and reading stops at the padding. */
  function ReadLetters(s: string): seq<sextet> {
    if s == "" || s[0] == '=' then []
    else if LetterValue(s[0]).None? then ReadLetters(s[1..])
    else [LetterValue(s[0]).value] + ReadLetters(s[1..])
  }

  function BytesFromBase64(s: string, len: nat): seq<byte> { Fit(FromSextets(ReadLetters(s)), len) }

  /** How many letters, before padding, encode `len` bytes. */
  function LetterCount(len: nat): nat { (4 * len + 2) / 3 }

  /** The bits of the last letter that no byte needs. */
  function Spare(len: nat): nat { if len % 3 == 0 then 1 else if len % 3 == 1 then 16 else 4 }

  /** Section 3.5: letters, padding, and nothing in the spare bits. */
  predicate Canonical(s: string, len: nat) {
    var k := LetterCount(len);
    && |s| >= k && s[k..] == Padding(len)
    && (forall i :: 0 <= i < k ==> Standard(s[i]))
    && (k > 0 ==> LetterValue(s[k - 1]).value % Spare(len) == 0)
  }

  /** Section 10: groups of one, two and three bytes. */
  lemma TestVectors()
    ensures Base64FromBytes([102]) == "Zg=="
    ensures Base64FromBytes([102, 111]) == "Zm8="
    ensures Base64FromBytes([102, 111, 111]) == "Zm9v"
    ensures Base64FromBytes([102, 111, 111, 98]) == "Zm9vYg=="
  {
    assert [102, 111, 111, 98][3..] == [98];
  }

  /** Three more bytes make four more letters. */
  lemma Counts(len: nat)
    ensures LetterCount(len + 3) == LetterCount(len) + 4 && Spare(len + 3) == Spare(len)
    ensures LetterCount(0) == 0 && LetterCount(1) == 2 && LetterCount(2) == 3
  {
  }

  lemma {:induction false} SextetCount(b: seq<byte>)
    ensures |Sextets(b)| == LetterCount(|b|)
    ensures b != [] ==> Sextets(b)[LetterCount(|b|) - 1] % Spare(|b|) == 0
  {
    if |b| >= 3 {
      hide LetterCount, First, Second, Third, Fourth;
      Counts(|b| - 3);
      Counts(0);
      SextetCount(b[3..]);
      var x, rest := Sextets(b), Sextets(b[3..]);
      assert x[4..] == rest;
      assert |b| > 3 ==> rest != [] && x[|x| - 1] == rest[|rest| - 1];
    }
  }

  lemma {:induction false} LetterAt(x: seq<sextet>, i: nat)
    requires i < |x|
    ensures Letters(x)[i] == Letter(x[i])
  {
    if i == 0 {
    } else {
      LetterAt(x[1..], i - 1);
    }
  }

  /** What is printed is canonical. */
  lemma PrintedIsCanonical(b: seq<byte>)
    ensures Canonical(Base64FromBytes(b), |b|)
  {
    var x, s, k := Sextets(b), Base64FromBytes(b), LetterCount(|b|);
    SextetCount(b);
    forall i | 0 <= i < k
      ensures Standard(s[i]) && LetterValue(s[i]) == Some(x[i])
    {
      LetterAt(x, i);
      LettersAreInverse(x[i], 'A');
    }
  }

  /** Canonical text is read letter by letter. */
  lemma {:induction false} LettersReadBack(s: string, pad: string)
    requires forall i :: 0 <= i < |s| ==> Standard(s[i])
    requires pad == "" || pad[0] == '='
    ensures |ReadLetters(s + pad)| == |s| && Letters(ReadLetters(s + pad)) == s
    ensures s != "" ==> LetterValue(s[|s| - 1]) == Some(ReadLetters(s + pad)[|s| - 1])
  {
    if s == "" {
      assert s + pad == pad;
    } else {
      assert (s + pad)[1..] == s[1..] + pad;
      LettersReadBack(s[1..], pad);
      LettersAreInverse(0, s[0]);
    }
  }

  lemma StepReadsBack(x: seq<sextet>)
    requires |x| >= 4 && Sextets(FromSextets(x[4..])) == x[4..]
    ensures |FromSextets(x)| == 3 + |FromSextets(x[4..])| && Sextets(FromSextets(x)) == x
  {
    hide First, Second, Third, Fourth, Left, Middle, Right;
    GroupReadsBack(x[0], x[1], x[2], x[3]);
    assert FromSextets(x)[3..] == FromSextets(x[4..]);
    assert x == [x[0], x[1], x[2], x[3]] + x[4..];
  }

  lemma {:induction false} SextetsReadBack(x: seq<sextet>, len: nat)
    requires |x| == LetterCount(len)
    requires x != [] ==> x[|x| - 1] % Spare(len) == 0
    ensures |FromSextets(x)| == len && Sextets(FromSextets(x)) == x
  {
    hide First, Second, Third, Fourth, Left, Middle, Right, LetterCount;
    if len < 3 {
      Counts(0);
      if len > 0 {
        GroupReadsBack(x[0], x[1], if len == 1 then 0 else x[2], 0);
      }
    } else {
      hide Spare;
      Counts(len - 3);
      var rest := x[4..];
      assert rest != [] ==> rest[|rest| - 1] == x[|x| - 1];
      SextetsReadBack(rest, len - 3);
      StepReadsBack(x);
    }
  }

  /** A base64 field comes back unchanged exactly when it is the canonical text of that many bytes. */
  lemma Base64RoundTrip(s: string, len: nat)
    ensures Base64FromBytes(BytesFromBase64(s, len)) == s <==> Canonical(s, len)
  {
    PrintedIsCanonical(BytesFromBase64(s, len));
    if Canonical(s, len) {
      var k := LetterCount(len);
      assert s == s[..k] + Padding(len);
      LettersReadBack(s[..k], Padding(len));
      SextetsReadBack(ReadLetters(s), len);
    }
  }
}
