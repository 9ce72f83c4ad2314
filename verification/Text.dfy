/**
 The pieces of Rust's text handling that the program's file formats and stamps
 go through: decimal and hexadecimal printing and parsing, lines and trimming.
 A string is a sequence of characters; every format here is ASCII.
 */
module Text {
  import opened Prelude

  // -- decimal -------------------------------------------------------------------

  predicate IsDigit(c: char) { '0' <= c <= '9' }

  predicate AllDigits(s: string) { forall i :: 0 <= i < |s| ==> IsDigit(s[i]) }

  function DigitChar(d: nat): char
    requires d < 10
  {
    '0' + (d as char)
  }

  function DigitValue(c: char): nat
    requires IsDigit(c)
  {
    (c as int) - ('0' as int)
  }

  /** Decimal without leading zeros. */
  function Decimal(n: nat): (s: string)
    ensures |s| > 0 && AllDigits(s)
  {
    if n < 10 then [DigitChar(n)] else Decimal(n / 10) + [DigitChar(n % 10)]
  }

  /** The number a digit string denotes. */
  function Value(s: string): nat
    requires AllDigits(s)
  {
    if s == [] then 0 else 10 * Value(s[..|s| - 1]) + DigitValue(s[|s| - 1])
  }

  /** A 64-bit number in decimal: an optional `+`, at least one digit, no overflow. */
  function ParseU64(s: string): Option<u64> {
    var d := if |s| > 1 && s[0] == '+' then s[1..] else s;
    if d != [] && AllDigits(d) && Value(d) < TWO_64 then Some(Value(d)) else None
  }

  lemma {:induction false} ValueOfDecimal(n: nat)
    ensures Value(Decimal(n)) == n
  {
    if n >= 10 {
      ValueOfDecimal(n / 10);
      var s := Decimal(n);
      assert s[..|s| - 1] == Decimal(n / 10);
    }
  }

  /** A printed number parses back, with or without a plus sign, unless it needs more than 64
      bits. */
  lemma ParseOfDecimal(n: nat)
    ensures ParseU64(Decimal(n)) == if n < 0x1_0000_0000_0000_0000 then Some(n) else None
    ensures ParseU64("+" + Decimal(n)) == ParseU64(Decimal(n))
  {
    ValueOfDecimal(n);
    var s := Decimal(n);
    assert IsDigit(s[0]);
    assert ("+" + s)[1..] == s;
  }

  /** What parses is digits after an optional plus sign. */
  lemma ParsesDigits(s: string)
    requires ParseU64(s).Some?
    ensures s != [] && (s[0] == '+' || '0' <= s[0] <= '9')
    ensures forall i :: 0 < i < |s| ==> '0' <= s[i] <= '9'
    ensures s != "+"
  {
    var d := if |s| > 1 && s[0] == '+' then s[1..] else s;
    forall i | 0 < i < |s| ensures IsDigit(s[i]) {
      if d != s { assert s[i] == d[i - 1]; } else { assert IsDigit(d[i]); }
    }
    if d == s { assert IsDigit(d[0]); }
  }

  // -- hexadecimal ---------------------------------------------------------------

  function HexDigitChar(d: nat): char
    requires d < 16
  {
    if d < 10 then DigitChar(d) else 'a' + ((d - 10) as char)
  }

  function HexDigitValue(c: char): Option<nat>
    ensures HexDigitValue(c).Some? ==> HexDigitValue(c).value < 16
  {
    if IsDigit(c) then Some(DigitValue(c))
    else if 'a' <= c <= 'f' then Some((c as int) - ('a' as int) + 10)
    else if 'A' <= c <= 'F' then Some((c as int) - ('A' as int) + 10)
    else None
  }

  /** A byte in hexadecimal, which may also start with a `+`. */
  function ParseHexPair(a: char, b: char): Option<u8> {
    match (HexDigitValue(a), HexDigitValue(b))
    case (Some(x), Some(y)) => Some(16 * x + y)
    case (None, Some(y)) => if a == '+' then Some(y) else None
    case _ => None
  }

  /** Two lower-case digits for each byte. */
  function Hex(bytes: seq<u8>): (s: string)
    ensures |s| == 2 * |bytes|
  {
    if bytes == [] then []
    else [HexDigitChar(bytes[0] / 16), HexDigitChar(bytes[0] % 16)] + Hex(bytes[1..])
  }

  function ParseHex(s: string): (r: Option<seq<u8>>)
    requires |s| % 2 == 0
    ensures r.Some? ==> |r.value| == |s| / 2
  {
    if s == [] then Some([])
    else match (ParseHexPair(s[0], s[1]), ParseHex(s[2..]))
      case (Some(b), Some(rest)) => Some([b] + rest)
      case _ => None
  }

  lemma HexDigitRoundTrip(d: nat)
    requires d < 16
    ensures HexDigitValue(HexDigitChar(d)) == Some(d)
  {
  }

  lemma {:induction false} ParseOfHex(bytes: seq<u8>)
    ensures ParseHex(Hex(bytes)) == Some(bytes)
  {
    if bytes != [] {
      ParseOfHex(bytes[1..]);
      HexDigitRoundTrip(bytes[0] / 16);
      HexDigitRoundTrip(bytes[0] % 16);
      var s := Hex(bytes);
      assert ParseHexPair(s[0], s[1]) == Some(bytes[0]);
      assert s[2..] == Hex(bytes[1..]);
      assert [bytes[0]] + bytes[1..] == bytes;
    }
  }

  predicate IsHexDigit(c: char, d: nat)
    requires d < 16
  {
    c == "0123456789abcdef"[d] || c == "0123456789ABCDEF"[d]
  }

  predicate IsHex(c: char) { c in "0123456789abcdefABCDEF" }

  lemma HexDigits(c: char)
    ensures HexDigitValue(c).Some? <==> IsHex(c)
    ensures HexDigitValue(c).Some? ==> IsHexDigit(c, HexDigitValue(c).value)
    ensures IsHex(c) ==> c != '+'
  {
  }

  lemma SixteenTimes(x: nat, y: nat)
    requires x < 16 && y < 16
    ensures (16 * x + y) / 16 == x && (16 * x + y) % 16 == y
  {
  }

  /** A pair of digits of either case parses to the byte it writes, a plus sign with a digit to
      the digit, and no other pair parses. */
  lemma HexPairs(a: char, b: char)
    ensures var r := ParseHexPair(a, b);
      if !IsHex(b) || !(IsHex(a) || a == '+') then r.None?
      else r.Some? && IsHexDigit(b, r.value % 16)
           && if a == '+' then r.value < 16 else IsHexDigit(a, r.value / 16)
  {
    HexDigits(a);
    HexDigits(b);
    hide HexDigitValue, IsHexDigit, IsHex;
    var x, y := HexDigitValue(a), HexDigitValue(b);
    if y.Some? { SixteenTimes(if x.Some? then x.value else 0, y.value); }
  }

  /** Printed bytes are lower-case hexadecimal digits. */
  lemma {:induction false} HexIsLowerCase(bytes: seq<u8>)
    ensures forall i :: 0 <= i < |Hex(bytes)| ==> Hex(bytes)[i] in "0123456789abcdef"
  {
    if bytes != [] {
      HexIsLowerCase(bytes[1..]);
      LowerCaseDigit(bytes[0] / 16);
      LowerCaseDigit(bytes[0] % 16);
      var s, rest := Hex(bytes), Hex(bytes[1..]);
      forall i | 0 <= i < |s| ensures s[i] in "0123456789abcdef" {
        if i >= 2 { assert s[i] == rest[i - 2]; }
      }
    }
  }

  lemma LowerCaseDigit(d: nat)
    requires d < 16
    ensures HexDigitChar(d) == "0123456789abcdef"[d]
  {
  }

  /** Lower-case digits that parse are the print of what they parse to. */
  lemma {:induction false} HexOfParse(s: string)
    requires |s| % 2 == 0 && ParseHex(s).Some? && forall i :: 0 <= i < |s| ==> s[i] in "0123456789abcdef"
    ensures Hex(ParseHex(s).value) == s
  {
    if s != [] {
      var b, rest := ParseHexPair(s[0], s[1]).value, ParseHex(s[2..]).value;
      forall i | 0 <= i < |s| - 2 ensures s[2..][i] in "0123456789abcdef" { assert s[2..][i] == s[i + 2]; }
      HexOfParse(s[2..]);
      DigitOfLowerCase(s[0]);
      DigitOfLowerCase(s[1]);
      hide HexDigitChar, HexDigitValue;
      assert b / 16 == HexDigitValue(s[0]).value && b % 16 == HexDigitValue(s[1]).value;
      assert ([b] + rest)[1..] == rest;
      assert s == [s[0], s[1]] + s[2..];
    }
  }

  lemma DigitOfLowerCase(c: char)
    requires c in "0123456789abcdef"
    ensures HexDigitValue(c).Some? && HexDigitChar(HexDigitValue(c).value) == c
  {
  }

  // -- lines and white space -----------------------------------------------------

  /** The Unicode White_Space property. */
  predicate IsSpace(c: char) {
    var u := c as int;
    || 0x09 <= u <= 0x0D || u == 0x20 || u == 0x85 || u == 0xA0 || u == 0x1680
    || 0x2000 <= u <= 0x200A || u == 0x2028 || u == 0x2029 || u == 0x202F || u == 0x205F
    || u == 0x3000
  }

  function TrimStart(s: string): string {
    if s != [] && IsSpace(s[0]) then TrimStart(s[1..]) else s
  }

  function TrimEnd(s: string): string {
    if s != [] && IsSpace(s[|s| - 1]) then TrimEnd(s[..|s| - 1]) else s
  }

  function Trim(s: string): string { TrimEnd(TrimStart(s)) }

  function Cut(s: string, c: char): (i: nat)
    ensures i <= |s| && c !in s[..i] && (i < |s| ==> s[i] == c)
  {
    if s == [] || s[0] == c then 0
    else
      var i := 1 + Cut(s[1..], c);
      assert s[..i] == [s[0]] + s[1..][..i - 1];
      i
  }

  /** The text between line feeds. Trimming takes care of a carriage return. */
  function Lines(s: string): seq<string>
    decreases |s|
  {
    var i := Cut(s, '\n');
    if i == |s| then [s] else [s[..i]] + Lines(s[i + 1..])
  }

  ghost predicate AllSpace(s: string) { forall i :: 0 <= i < |s| ==> IsSpace(s[i]) }

  lemma {:induction false} TrimStartMeans(s: string) returns (a: string)
    ensures s == a + TrimStart(s) && AllSpace(a) && (TrimStart(s) != [] ==> !IsSpace(TrimStart(s)[0]))
  {
    hide IsSpace;
    a := [];
    if s != [] && IsSpace(s[0]) {
      a := TrimStartMeans(s[1..]);
      a := [s[0]] + a;
      assert s == [s[0]] + s[1..];
    }
  }

  lemma {:induction false} TrimEndMeans(s: string) returns (b: string)
    ensures s == TrimEnd(s) + b && AllSpace(b) && (TrimEnd(s) != [] ==> !IsSpace(TrimEnd(s)[|TrimEnd(s)| - 1]))
    ensures TrimEnd(s) <= s
    decreases |s|
  {
    hide IsSpace;
    b := [];
    if s != [] && IsSpace(s[|s| - 1]) {
      var n := |s| - 1;
      b := TrimEndMeans(s[..n]);
      b := b + [s[n]];
      assert s == s[..n] + [s[n]];
    }
  }

  /** Trimming takes white space off both ends, and all of it. */
  lemma TrimMeans(s: string) returns (a: string, b: string)
    ensures s == a + Trim(s) + b && AllSpace(a) && AllSpace(b)
    ensures Trim(s) != [] ==> !IsSpace(Trim(s)[0]) && !IsSpace(Trim(s)[|Trim(s)| - 1])
    ensures forall c :: IsSpace(c) <==>
      || c in "\t\n\U{b}\U{c}\r \U{85}\U{a0}\U{1680}\U{2028}\U{2029}\U{202f}\U{205f}\U{3000}"
      || '\U{2000}' <= c <= '\U{200a}'
  {
    a := TrimStartMeans(s);
    b := TrimEndMeans(TrimStart(s));
    assert a + (Trim(s) + b) == a + Trim(s) + b;
  }

  function JoinedLines(ls: seq<string>): string
    requires ls != []
  {
    if |ls| == 1 then ls[0] else ls[0] + "\n" + JoinedLines(ls[1..])
  }

  /** Lines joined by line feeds are the text, and hold none themselves. */
  lemma {:induction false} LinesJoin(s: string)
    ensures Lines(s) != [] && JoinedLines(Lines(s)) == s
    ensures forall i :: 0 <= i < |Lines(s)| ==> '\n' !in Lines(s)[i]
    decreases |s|
  {
    var i := Cut(s, '\n');
    if i < |s| {
      LinesJoin(s[i + 1..]);
      hide Cut;
      assert Lines(s)[1..] == Lines(s[i + 1..]);
      assert s == s[..i] + "\n" + s[i + 1..];
    } else {
      assert s[..i] == s;
    }
  }

  /** The lines of a text, trimmed, without the empty ones. */
  function Fields(s: string): seq<string> { NonEmpty(Lines(s)) }

  function NonEmpty(lines: seq<string>): seq<string> {
    if lines == [] then []
    else
      var l := Trim(lines[0]);
      (if l == [] then [] else [l]) + NonEmpty(lines[1..])
  }

  function StripPrefix(s: string, prefix: string): Option<string> {
    if prefix <= s then Some(s[|prefix|..]) else None
  }

  /** A line that trimming keeps as it is. */
  predicate Tidy(line: string) {
    line != [] && '\n' !in line && !IsSpace(line[0]) && !IsSpace(line[|line| - 1])
  }

  lemma FieldsOfLine(line: string, rest: string)
    requires Tidy(line)
    ensures Fields(line + "\n" + rest) == [line] + Fields(rest)
  {
    var s := line + "\n" + rest;
    var i := Cut(s, '\n');
    assert s[|line|] == '\n' && s[..|line|] == line;
    assert s[i + 1..] == rest;
    assert Trim(line) == line;
    assert Lines(s)[1..] == Lines(rest);
  }
}
