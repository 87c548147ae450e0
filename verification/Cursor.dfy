/** Decimal numerals, shared by cursors, event IDs and default agent IDs. */
module Numerals {
  predicate IsDigit(c: char) {
    '0' <= c <= '9'
  }

  function Digit(d: nat): char
    requires d < 10
  {
    '0' + d as char
  }

  function DigitValue(c: char): nat
    requires IsDigit(c)
  {
    (c - '0') as nat
  }

  /** `fmt.Sprintf("%d", n)`. */
  function Decimal(n: nat): (s: string)
    ensures s != "" && forall i :: 0 <= i < |s| ==> IsDigit(s[i])
  {
    if n < 10 then [Digit(n)] else Decimal(n / 10) + [Digit(n % 10)]
  }

  function Value(s: string): nat
    requires forall i :: 0 <= i < |s| ==> IsDigit(s[i])
  {
    if s == "" then 0 else 10 * Value(s[..|s| - 1]) + DigitValue(s[|s| - 1])
  }

  lemma {:induction false} DecimalReads(n: nat)
    ensures Value(Decimal(n)) == n
  {
    if n >= 10 {
      DecimalReads(n / 10);
      assert Decimal(n)[..|Decimal(n)| - 1] == Decimal(n / 10);
    } else {
      assert Decimal(n)[..0] == "";
    }
  }

  /** `fmt.Sprintf("%0*d", width, n)`. */
  function Padded(n: nat, width: nat): (s: string)
    ensures forall i :: 0 <= i < |s| ==> IsDigit(s[i])
  {
    Zeros(width - |Decimal(n)|) + Decimal(n)
  }

  function Zeros(k: int): string
    ensures forall i :: 0 <= i < |Zeros(k)| ==> Zeros(k)[i] == '0'
  {
    if k <= 0 then "" else "0" + Zeros(k - 1)
  }

  lemma {:induction false} ZerosAddNothing(k: int, s: string)
    requires forall i :: 0 <= i < |s| ==> IsDigit(s[i])
    ensures Value(Zeros(k) + s) == Value(s)
    decreases |s|, k
  {
    var z := Zeros(k) + s;
    if s != "" {
      assert z[..|z| - 1] == Zeros(k) + s[..|s| - 1];
      ZerosAddNothing(k, s[..|s| - 1]);
    } else if k > 0 {
      assert z == Zeros(k);
      assert z == Zeros(k - 1) + "0" by { ZerosCommute(k - 1); }
      assert z[..|z| - 1] == Zeros(k - 1) + "";
      ZerosAddNothing(k - 1, "");
    }
  }

  lemma {:induction false} ZerosCommute(k: int)
    ensures "0" + Zeros(k) == Zeros(k) + "0"
  {
    if k > 0 {
      ZerosCommute(k - 1);
    }
  }

  /** A numeral has no zero in front, unless it is zero itself. */
  lemma {:induction false} NoLeadingZero(n: nat)
    ensures if n == 0 then Decimal(n) == "0" else Decimal(n)[0] != '0'
  {
    if n >= 10 {
      NoLeadingZero(n / 10);
    }
  }

  function Pow10(k: nat): nat {
    if k == 0 then 1 else 10 * Pow10(k - 1)
  }

  /** Padding makes numerals equally wide as long as they fit. */
  lemma PaddedWidth(n: nat, width: nat)
    requires width >= 1 && n < Pow10(width)
    ensures |Padded(n, width)| == width
  {
    DecimalFits(n, width);
    ZerosLength(width - |Decimal(n)|);
  }

  lemma {:induction false} DecimalFits(n: nat, width: nat)
    requires width >= 1 && n < Pow10(width)
    ensures |Decimal(n)| <= width
  {
    if n >= 10 {
      assert width > 1 by { assert Pow10(1) == 10; }
      DecimalFits(n / 10, width - 1);
    }
  }

  lemma {:induction false} ZerosLength(k: nat)
    ensures |Zeros(k)| == k
  {
    if k > 0 {
      ZerosLength(k - 1);
    }
  }

  /** Zero padding loses nothing, so padded numerals are distinct. */
  lemma PaddedReads(n: nat, width: nat)
    ensures Value(Padded(n, width)) == n
  {
    ZerosAddNothing(width - |Decimal(n)|, Decimal(n));
    DecimalReads(n);
  }
}

/** Pagination cursors: the decimal sequence in unpadded URL-safe base64 (section 5 of RFC 4648,
    unpadded per section 3.2).  A string here is a sequence of bytes, each a character below 256. */
module Cursor {
  import opened Results
  import opened Numerals

  const UINT64_LIMIT := 0x1_0000_0000_0000_0000

  predicate IsBytes(s: string) {
    forall i :: 0 <= i < |s| ==> s[i] as int < 256
  }

  function Symbol(v: nat): char
    requires v < 64
  {
    if v < 26 then 'A' + v as char
    else if v < 52 then 'a' + (v - 26) as char
    else if v < 62 then '0' + (v - 52) as char
    else if v == 62 then '-' else '_'
  }

  function SymbolValue(c: char): (r: Option<nat>)
    ensures r.Some? ==> r.value < 64
  {
    if 'A' <= c <= 'Z' then Some((c - 'A') as nat)
    else if 'a' <= c <= 'z' then Some((c - 'a') as nat + 26)
    else if '0' <= c <= '9' then Some((c - '0') as nat + 52)
    else if c == '-' then Some(62)
    else if c == '_' then Some(63)
    else None
  }

  lemma SymbolReads(v: nat)
    requires v < 64
    ensures SymbolValue(Symbol(v)) == Some(v)
  {
  }

  // Three bytes as four sextets, and back.

  function Sextet1(x: nat): (p: nat)
    requires x < 256
    ensures p < 64
  {
    x / 4
  }

  function Sextet2(x: nat, y: nat): (q: nat)
    requires x < 256 && y < 256
    ensures q < 64
  {
    x % 4 * 16 + y / 16
  }

  function Sextet3(y: nat, z: nat): (u: nat)
    requires y < 256 && z < 256
    ensures u < 64
  {
    y % 16 * 4 + z / 64
  }

  function Sextet4(z: nat): (v: nat)
    ensures v < 64
  {
    z % 64
  }

  function Byte1(p: nat, q: nat): (x: char)
    requires p < 64 && q < 64
    ensures x as int < 256
  {
    (p * 4 + q / 16) as char
  }

  function Byte2(q: nat, u: nat): (y: char)
    requires q < 64 && u < 64
    ensures y as int < 256
  {
    (q % 16 * 16 + u / 4) as char
  }

  function Byte3(u: nat, v: nat): (z: char)
    requires u < 64 && v < 64
    ensures z as int < 256
  {
    (u % 4 * 64 + v) as char
  }

  lemma SextetsRead(x: char, y: char, z: char)
    requires x as int < 256 && y as int < 256 && z as int < 256
    ensures Byte1(Sextet1(x as int), Sextet2(x as int, y as int)) == x
    ensures Byte2(Sextet2(x as int, y as int), Sextet3(y as int, z as int)) == y
    ensures Byte3(Sextet3(y as int, z as int), Sextet4(z as int)) == z
  {
  }

  function EncodeBase64(b: string): string
    requires IsBytes(b)
  {
    if b == "" then ""
    else
      var x := b[0] as int;
      if |b| == 1 then [Symbol(Sextet1(x)), Symbol(Sextet2(x, 0))]
      else
        var y := b[1] as int;
        if |b| == 2 then [Symbol(Sextet1(x)), Symbol(Sextet2(x, y)), Symbol(Sextet3(y, 0))]
        else
          var z := b[2] as int;
          [Symbol(Sextet1(x)), Symbol(Sextet2(x, y)), Symbol(Sextet3(y, z)), Symbol(Sextet4(z))] + EncodeBase64(b[3..])
  }

  /** Decoding passes over CR and LF wherever they stand. */
  function DropNewlines(s: string): string {
    if s == "" then ""
    else (if s[0] == '\r' || s[0] == '\n' then "" else [s[0]]) + DropNewlines(s[1..])
  }

  function DecodeBase64(s: string): (r: Option<string>)
    ensures r.Some? ==> IsBytes(r.value)
  {
    if s == "" then Some("")
    else if |s| == 1 then None
    else
      match (SymbolValue(s[0]), SymbolValue(s[1]))
      case (Some(p), Some(q)) =>
        var x := Byte1(p, q);
        if |s| == 2 then Some([x])
        else (
          match SymbolValue(s[2])
          case None => None
          case Some(u) =>
            var y := Byte2(q, u);
            if |s| == 3 then Some([x, y])
            else (
              match (SymbolValue(s[3]), DecodeBase64(s[4..]))
              case (Some(v), Some(rest)) => Some([x, y, Byte3(u, v)] + rest)
              case _ => None))
      case _ => None
  }

  predicate IsScanSpace(c: char) {
    c == ' ' || c == '\t' || c == '\U{000B}' || c == '\U{000C}' || c == '\r'
  }

  function SkipSpace(s: string): string {
    if s != "" && IsScanSpace(s[0]) then SkipSpace(s[1..]) else s
  }

  function LeadingDigits(s: string): (d: string)
    ensures forall i :: 0 <= i < |d| ==> IsDigit(d[i])
  {
    if s != "" && IsDigit(s[0]) then [s[0]] + LeadingDigits(s[1..]) else ""
  }

  /** `Sscanf(s, "%d", &sequence)` into an unsigned 64-bit variable; text after the digits is ignored. */
  function ScanUint(s: string): Result<nat> {
    var digits := LeadingDigits(SkipSpace(s));
    if digits == "" || Value(digits) >= UINT64_LIMIT then Err(Validation) else Ok(Value(digits))
  }

  function EncodeCursor(sequence: nat): string {
    EncodeBase64(Decimal(sequence))
  }

  function DecodeCursor(cursor: string): Result<nat> {
    if cursor == "" then Ok(0)
    else
      match DecodeBase64(DropNewlines(cursor))
      case None => Err(Validation)
      case Some(raw) => ScanUint(raw)
  }

  lemma Base64Inverts(b: string)
    requires IsBytes(b)
    ensures DecodeBase64(DropNewlines(EncodeBase64(b))) == Some(b)
  {
    EncodingHasNoNewlines(b);
    Base64InvertsExactly(b);
  }

  lemma EncodingHasNoNewlines(b: string)
    requires IsBytes(b)
    ensures DropNewlines(EncodeBase64(b)) == EncodeBase64(b)
  {
    var e := EncodeBase64(b);
    forall i | 0 <= i < |e| ensures e[i] != '\r' && e[i] != '\n' {
      EncodingSymbol(b, i);
    }
    NothingToDrop(e);
  }

  lemma {:induction false} EncodingSymbol(b: string, i: nat)
    requires IsBytes(b) && i < |EncodeBase64(b)|
    ensures EncodeBase64(b)[i] >= '-'
  {
    if i >= 4 {
      EncodingSymbol(b[3..], i - 4);
    }
  }

  lemma {:induction false} NothingToDrop(s: string)
    requires forall i :: 0 <= i < |s| ==> s[i] != '\r' && s[i] != '\n'
    ensures DropNewlines(s) == s
  {
    if s != "" {
      NothingToDrop(s[1..]);
    }
  }

  /** Four symbols in front of what decodes stand for three bytes. */
  lemma GroupReads(p: nat, q: nat, u: nat, v: nat, tail: string, rest: string)
    requires p < 64 && q < 64 && u < 64 && v < 64 && DecodeBase64(tail) == Some(rest)
    ensures DecodeBase64([Symbol(p), Symbol(q), Symbol(u), Symbol(v)] + tail)
         == Some([Byte1(p, q), Byte2(q, u), Byte3(u, v)] + rest)
  {
    SymbolReads(p);
    SymbolReads(q);
    SymbolReads(u);
    SymbolReads(v);
    hide Symbol, SymbolValue, Byte1, Byte2, Byte3;
    var e := [Symbol(p), Symbol(q), Symbol(u), Symbol(v)] + tail;
    assert e[4..] == tail;
  }

  lemma EncodesGroup(b: string)
    requires IsBytes(b) && |b| >= 3
    ensures var x, y, z := b[0] as int, b[1] as int, b[2] as int;
            EncodeBase64(b) ==
            [Symbol(Sextet1(x)), Symbol(Sextet2(x, y)), Symbol(Sextet3(y, z)), Symbol(Sextet4(z))]
            + EncodeBase64(b[3..])
  {
    hide Symbol, Sextet1, Sextet2, Sextet3, Sextet4;
  }

  lemma FullGroup(b: string)
    requires IsBytes(b) && |b| >= 3
    requires DecodeBase64(EncodeBase64(b[3..])) == Some(b[3..])
    ensures DecodeBase64(EncodeBase64(b)) == Some(b)
  {
    hide Symbol, SymbolValue, DecodeBase64, EncodeBase64;
    hide Sextet1, Sextet2, Sextet3, Sextet4, Byte1, Byte2, Byte3;
    var x, y, z := b[0], b[1], b[2];
    EncodesGroup(b);
    SextetsRead(x, y, z);
    GroupReads(Sextet1(x as int), Sextet2(x as int, y as int), Sextet3(y as int, z as int), Sextet4(z as int),
               EncodeBase64(b[3..]), b[3..]);
    FirstThree(b);
  }

  lemma FirstThree(b: string)
    requires |b| >= 3
    ensures [b[0], b[1], b[2]] + b[3..] == b
  {
  }

  lemma {:induction false} Base64InvertsExactly(b: string)
    requires IsBytes(b)
    ensures DecodeBase64(EncodeBase64(b)) == Some(b)
  {
    hide Symbol, SymbolValue, Sextet1, Sextet2, Sextet3, Sextet4, Byte1, Byte2, Byte3;
    if |b| >= 3 {
      Base64InvertsExactly(b[3..]);
      FullGroup(b);
    } else if |b| == 2 {
      var x, y := b[0] as int, b[1] as int;
      SymbolReads(Sextet1(x));
      SymbolReads(Sextet2(x, y));
      SymbolReads(Sextet3(y, 0));
      SextetsRead(b[0], b[1], '\0');
      assert b == [b[0], b[1]];
    } else if |b| == 1 {
      var x := b[0] as int;
      SymbolReads(Sextet1(x));
      SymbolReads(Sextet2(x, 0));
      SextetsRead(b[0], '\0', '\0');
      assert b == [b[0]];
    }
  }

  /** A cursor reads back as the sequence it was made from exactly when that sequence fits in 64 bits. */
  lemma CursorRoundTrip(sequence: nat)
    ensures EncodeCursor(sequence) != ""
    ensures DecodeCursor(EncodeCursor(sequence)) == Ok(sequence) <==> sequence < UINT64_LIMIT
  {
    var digits := Decimal(sequence);
    Base64Inverts(digits);
    DigitsEnd(digits, "");
    assert digits + "" == digits;
    DecimalReads(sequence);
    assert SkipSpace(digits) == digits;
  }

  /** No cursor asks for everything. */
  lemma FromTheStart()
    ensures DecodeCursor("") == Ok(0)
  {
  }

  lemma DecodeErrors(cursor: string)
    ensures DecodeCursor(cursor).Err? ==> DecodeCursor(cursor) == Err(Validation)
  {
  }

  lemma {:induction false} BadSymbol(s: string, i: nat)
    requires i < |s| && SymbolValue(s[i]).None?
    ensures DecodeBase64(s).None?
  {
    hide SymbolValue;
    if i >= 4 {
      BadSymbol(s[4..], i - 4);
    }
  }

  lemma {:induction false} KeptByDropping(s: string, i: nat) returns (j: nat)
    requires i < |s| && s[i] != '\r' && s[i] != '\n'
    ensures j < |DropNewlines(s)| && DropNewlines(s)[j] == s[i]
  {
    var here := if s[0] == '\r' || s[0] == '\n' then 0 else 1;
    if i == 0 {
      j := 0;
    } else {
      var k := KeptByDropping(s[1..], i - 1);
      j := k + here;
    }
  }

  /** Exactly the strings of alphabet symbols decode whose length leaves no lone symbol at the end; every four
      symbols give three bytes. */
  lemma {:induction false} DecodesIff(s: string)
    ensures DecodeBase64(s).Some? <==> |s| % 4 != 1 && AllSymbols(s)
    ensures DecodeBase64(s).Some? ==> |DecodeBase64(s).value| == |s| * 6 / 8
  {
    hide SymbolValue, DecodeBase64;
    if |s| >= 4 {
      DecodesGroup(s);
      DecodesIff(s[4..]);
      assert s == s[..4] + s[4..];
    } else {
      DecodesShort(s);
    }
  }

  predicate AllSymbols(s: string) {
    forall i :: 0 <= i < |s| ==> SymbolValue(s[i]).Some?
  }

  lemma DecodesShort(s: string)
    requires |s| < 4
    ensures DecodeBase64(s).Some? <==> |s| != 1 && AllSymbols(s)
    ensures DecodeBase64(s).Some? ==> |DecodeBase64(s).value| == |s| * 6 / 8
  {
    hide SymbolValue, Byte1, Byte2, Byte3;
  }

  lemma DecodesGroup(s: string)
    requires |s| >= 4
    ensures DecodeBase64(s).Some? <==> AllSymbols(s[..4]) && DecodeBase64(s[4..]).Some?
    ensures DecodeBase64(s).Some? ==> |DecodeBase64(s).value| == 3 + |DecodeBase64(s[4..]).value|
  {
    hide SymbolValue, Byte1, Byte2, Byte3;
    assert AllSymbols(s[..4]) <==> SymbolValue(s[0]).Some? && SymbolValue(s[1]).Some? && SymbolValue(s[2]).Some?
                                   && SymbolValue(s[3]).Some? by {
      hide DecodeBase64;
      assert s[..4] == [s[0], s[1], s[2], s[3]];
    }
    hide AllSymbols;
  }

  /** A sequence is read after blanks and before anything that is no digit. */
  lemma {:induction false} ScanReads(blanks: string, digits: string, rest: string)
    requires forall i :: 0 <= i < |blanks| ==> blanks[i] in " \t\r"
    requires digits != "" && forall i :: 0 <= i < |digits| ==> IsDigit(digits[i])
    requires rest == "" || !IsDigit(rest[0])
    ensures ScanUint(blanks + digits + rest) ==
            if Value(digits) < 0x1_0000_0000_0000_0000 then Ok(Value(digits)) else Err(Validation)
  {
    var s := blanks + digits + rest;
    if blanks == "" {
      assert s == digits + rest;
      DigitsEnd(digits, rest);
    } else {
      assert s[1..] == blanks[1..] + digits + rest;
      ScanReads(blanks[1..], digits, rest);
    }
  }

  lemma {:induction false} DigitsEnd(digits: string, rest: string)
    requires forall i :: 0 <= i < |digits| ==> IsDigit(digits[i])
    requires rest == "" || !IsDigit(rest[0])
    ensures LeadingDigits(digits + rest) == digits
  {
    if digits != "" {
      DigitsEnd(digits[1..], rest);
      assert (digits + rest)[1..] == digits[1..] + rest;
    } else {
      assert digits + rest == rest;
    }
  }

  /** A cursor with a character outside the URL-safe alphabet is refused; only line ends are passed over. */
  lemma ForeignCharacterIsRefused(cursor: string, i: nat)
    requires i < |cursor| && cursor[i] != '\r' && cursor[i] != '\n'
    requires !('A' <= cursor[i] <= 'Z' || 'a' <= cursor[i] <= 'z' || '0' <= cursor[i] <= '9')
    requires cursor[i] != '-' && cursor[i] != '_'
    ensures DecodeCursor(cursor) == Err(Validation)
  {
    var j := KeptByDropping(cursor, i);
    BadSymbol(DropNewlines(cursor), j);
    hide DropNewlines, DecodeBase64;
  }

  /** The URL-safe alphabet, in the order of its values. */
  const ALPHABET: string := "ABCDEFGHIJKLMNOPQRSTUVWXYZ" + "abcdefghijklmnopqrstuvwxyz" + "0123456789" + "-_"

  /** The i-th six bits of a byte string followed by zeros. */
  function SixBits(b: string, i: nat): (v: nat)
    requires IsBytes(b)
    ensures v < 64
  {
    var first := 6 * i / 8;
    SixOf(ByteAt(b, first), ByteAt(b, first + 1), 6 * i % 8)
  }

  /** Six of the sixteen bits of two bytes, after so many. */
  function SixOf(x: nat, y: nat, after: nat): (v: nat)
    ensures v < 64
  {
    (match after case 0 => (x * 256 + y) / 1024 case 2 => (x * 256 + y) / 256
                 case 4 => (x * 256 + y) / 64 case _ => (x * 256 + y) / 16) % 64
  }

  function ByteAt(b: string, i: nat): nat
    requires IsBytes(b)
    ensures ByteAt(b, i) < 256
  {
    if i < |b| then b[i] as int else 0
  }

  lemma AlphabetSymbol(v: nat)
    requires v < 64
    ensures |ALPHABET| == 64 && Symbol(v) == ALPHABET[v]
  {
    var upper := "ABCDEFGHIJKLMNOPQRSTUVWXYZ";
    var lower := "abcdefghijklmnopqrstuvwxyz";
    var digits := "0123456789";
    assert v < 26 ==> ALPHABET[v] == upper[v];
    assert 26 <= v < 52 ==> ALPHABET[v] == lower[v - 26];
    assert 52 <= v < 62 ==> ALPHABET[v] == digits[v - 52];
    if v < 26 {
      assert upper[v] == 'A' + v as char;
    }
  }

  /** A string is encoded six bits at a time, in no more symbols than its bits need. */
  lemma {:induction false} EncodingIsSixBitsEach(b: string, i: nat)
    requires IsBytes(b)
    ensures |EncodeBase64(b)| == (8 * |b| + 5) / 6
    ensures i < |EncodeBase64(b)| ==> EncodeBase64(b)[i] == ALPHABET[SixBits(b, i)]
  {
    hide EncodeBase64, SixBits;
    FirstSymbols(b, i);
    if |b| >= 3 {
      LaterSymbols(b, i);
      EncodingIsSixBitsEach(b[3..], if i < 4 then 0 else i - 4);
      if i >= 4 {
        LaterBits(b, i);
      }
    }
  }

  lemma LaterSymbols(b: string, i: nat)
    requires IsBytes(b) && |b| >= 3
    ensures |EncodeBase64(b)| == |EncodeBase64(b[3..])| + 4
    ensures 4 <= i < |EncodeBase64(b)| ==> EncodeBase64(b)[i] == EncodeBase64(b[3..])[i - 4]
  {
    EncodesGroup(b);
    hide EncodeBase64, Symbol, Sextet1, Sextet2, Sextet3, Sextet4;
  }

  lemma FirstSymbols(b: string, i: nat)
    requires IsBytes(b)
    ensures |b| < 3 ==> |EncodeBase64(b)| == (8 * |b| + 5) / 6
    ensures i < 4 && i < |EncodeBase64(b)| ==> EncodeBase64(b)[i] == ALPHABET[SixBits(b, i)]
  {
    hide Symbol, SixBits, Sextet1, Sextet2, Sextet3, Sextet4;
    if i < 4 {
      AlphabetSymbol(SixBits(b, i));
      FirstBits(b, i);
    }
  }

  lemma LaterBits(b: string, i: nat)
    requires IsBytes(b) && |b| >= 3 && i >= 4
    ensures SixBits(b, i) == SixBits(b[3..], i - 4)
  {
    hide SixOf;
  }

  lemma FirstBits(b: string, i: nat)
    requires IsBytes(b) && i < 4
    ensures SixBits(b, i) == match i
                             case 0 => Sextet1(ByteAt(b, 0)) case 1 => Sextet2(ByteAt(b, 0), ByteAt(b, 1))
                             case 2 => Sextet3(ByteAt(b, 1), ByteAt(b, 2)) case _ => Sextet4(ByteAt(b, 2))
  {
    hide ByteAt, SixOf, Sextet1, Sextet2, Sextet3, Sextet4;
    var first := 6 * i / 8;
    SixOfPair(ByteAt(b, first), ByteAt(b, first + 1));
  }

  lemma SixOfPair(x: nat, y: nat)
    requires x < 256 && y < 256
    ensures SixOf(x, y, 0) == Sextet1(x) && SixOf(x, y, 6) == Sextet2(x, y)
    ensures SixOf(x, y, 4) == Sextet3(x, y) && SixOf(x, y, 2) == Sextet4(x)
  {
    OuterBits(x, y);
    MiddleBits(x, y);
  }

  lemma OuterBits(x: nat, y: nat)
    requires x < 256 && y < 256
    ensures (x * 256 + y) / 1024 % 64 == x / 4 && (x * 256 + y) / 256 % 64 == x % 64
  {
    var q, r := x / 4, x % 4;
    assert x == 4 * q + r;
    assert (x * 256 + y) / 1024 == q;
  }

  lemma MiddleBits(x: nat, y: nat)
    requires x < 256 && y < 256
    ensures (x * 256 + y) / 16 % 64 == x % 4 * 16 + y / 16
    ensures (x * 256 + y) / 64 % 64 == x % 16 * 4 + y / 64
  {
    var q, r := x / 4, x % 4;
    assert x == 4 * q + r;
    By16(64 * q + (r * 16 + y / 16), y % 16);
    By64(q, r * 16 + y / 16);
    var s, t := x / 16, x % 16;
    assert x == 16 * s + t;
    By64(64 * s + (t * 4 + y / 64), y % 64);
    By64(s, t * 4 + y / 64);
  }

  lemma By16(q: nat, r: nat)
    requires r < 16
    ensures (16 * q + r) / 16 == q
  {
  }

  lemma By64(q: nat, r: nat)
    requires r < 64
    ensures (64 * q + r) / 64 == q && (64 * q + r) % 64 == r
  {
  }
}
