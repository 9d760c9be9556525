/**
 * The subset of C `sscanf` the simulators use to read a trace line:
 * the conversions `%d`, `%c` and `%x`/`%lx` separated by white-space
 * directives.  Each scanner returns the value it converted and the rest of
 * the input, or None on a matching or input failure.
 */
module TraceScan {
  import opened Wrappers
  import opened CInt
  import opened TraceRecord

  /** C `isspace` in the "C" locale. */
  predicate IsSpace(c: char)
  {
    c == ' ' || c == '\t' || c == '\n' || c == '\r' || c as int == 11 || c as int == 12
  }

  predicate IsHexChar(c: char)
  {
    IsDecDigit(c) || 'a' <= c <= 'f' || 'A' <= c <= 'F'
  }

  function DecValueOf(c: char): nat
    requires IsDecDigit(c)
  {
    c as int - '0' as int
  }

  function HexValueOf(c: char): (d: nat)
    requires IsHexChar(c)
    ensures d < 16
  {
    if IsDecDigit(c) then c as int - '0' as int
    else if 'a' <= c <= 'f' then c as int - 'a' as int + 10
    else c as int - 'A' as int + 10
  }

  /** A white-space directive: skips any amount of white space, including none. */
  function SkipSpaces(s: string): (r: string)
    ensures |r| <= |s| && r == s[|s| - |r|..]
    ensures |r| > 0 ==> !IsSpace(r[0])
    ensures forall i :: 0 <= i < |s| - |r| ==> IsSpace(s[i])
  {
    if |s| > 0 && IsSpace(s[0]) then SkipSpaces(s[1..]) else s
  }

  /** Length of the longest prefix of decimal digits. */
  function DecRun(s: string): (n: nat)
    ensures n <= |s|
    ensures forall i :: 0 <= i < n ==> IsDecDigit(s[i])
    ensures n < |s| ==> !IsDecDigit(s[n])
  {
    if |s| > 0 && IsDecDigit(s[0]) then 1 + DecRun(s[1..]) else 0
  }

  /** Length of the longest prefix of hexadecimal digits (either case). */
  function HexRun(s: string): (n: nat)
    ensures n <= |s|
    ensures forall i :: 0 <= i < n ==> IsHexChar(s[i])
    ensures n < |s| ==> !IsHexChar(s[n])
  {
    if |s| > 0 && IsHexChar(s[0]) then 1 + HexRun(s[1..]) else 0
  }

  /** Value of a string of decimal digits, most significant first. */
  function DecValue(ds: string): nat
    requires forall i :: 0 <= i < |ds| ==> IsDecDigit(ds[i])
  {
    if |ds| == 0 then 0 else 10 * DecValue(ds[..|ds| - 1]) + DecValueOf(ds[|ds| - 1])
  }

  /** Value of a string of hexadecimal digits, most significant first. */
  function HexValue(ds: string): nat
    requires forall i :: 0 <= i < |ds| ==> IsHexChar(ds[i])
  {
    if |ds| == 0 then 0 else 16 * HexValue(ds[..|ds| - 1]) + HexValueOf(ds[|ds| - 1])
  }

  /** At least one decimal digit, read as far as the digits go. */
  function ScanDigits(u: string): Option<(nat, string)>
  {
    var n := DecRun(u);
    if n == 0 then None else Some((DecValue(u[..n]), u[n..]))
  }

  /** At least one hexadecimal digit, read as far as the digits go. */
  function ScanHexDigits(w: string): Option<(nat, string)>
  {
    var n := HexRun(w);
    if n == 0 then None else Some((HexValue(w[..n]), w[n..]))
  }

  /** An optional `0x`/`0X` prefix followed by hexadecimal digits. */
  function ScanHexBody(u: string): Option<(nat, string)>
  {
    if |u| >= 2 && u[0] == '0' && (u[1] == 'x' || u[1] == 'X') then ScanHexDigits(u[2..])
    else ScanHexDigits(u)
  }

  /** `%d`: white space, an optional sign, then at least one decimal digit. */
  function ScanDecimal(s: string): Option<(int, string)>
  {
    var t := SkipSpaces(s);
    if |t| > 0 && (t[0] == '-' || t[0] == '+') then
      match ScanDigits(t[1..])
      case None => None
      case Some((v, rest)) => Some((if t[0] == '-' then -(v as int) else v, rest))
    else
      match ScanDigits(t)
      case None => None
      case Some((v, rest)) => Some((v as int, rest))
  }

  /** `%c`: exactly one character, white space included. */
  function ScanChar(s: string): Option<(char, string)>
  {
    if |s| == 0 then None else Some((s[0], s[1..]))
  }

  /**
   * `%x` / `%lx`: white space, an optional sign, an optional `0x`/`0X`
   * prefix, then at least one hexadecimal digit.  A minus sign negates the
   * value modulo 2^64, as the conversion into an unsigned long does, once
   * the magnitude fits one; a negated magnitude beyond an unsigned long is
   * `ULONG_MAX`, as `strtoul` gives it.  A positive magnitude is kept as
   * scanned and saturated by the callers.
   */
  function ScanHex(s: string): Option<(int, string)>
  {
    var t := SkipSpaces(s);
    if |t| > 0 && (t[0] == '-' || t[0] == '+') then
      match ScanHexBody(t[1..])
      case None => None
      case Some((v, rest)) => Some((if t[0] == '-' then (if v > ULONG_MAX then ULONG_MAX else ToULong(-(v as int))) else v, rest))
    else
      match ScanHexBody(t)
      case None => None
      case Some((v, rest)) => Some((v as int, rest))
  }

  /**
   * The three conversions of an instruction line, `%d %c %x` (with `%lx` the
   * value is kept as an unsigned long).  Some only when all three items
   * were assigned, which is what the callers test with `== 3`.
   */
  function ScanInstruction(line: string): Option<(int, char, int)>
  {
    match ScanDecimal(line)
    case None => None
    case Some((p, rest1)) =>
      match ScanChar(SkipSpaces(rest1))
      case None => None
      case Some((c, rest2)) =>
        match ScanHex(SkipSpaces(rest2))
        case None => None
        case Some((a, _)) => Some((p, c, a))
  }

  // ---------------------------------------------------------------------
  // Round trip between the generators' line format and the scanner.
  // ---------------------------------------------------------------------

  lemma {:induction false} DecValueOfNatDecimal(v: nat)
    ensures DecValue(NatDecimal(v)) == v
    decreases v
  {
    if v >= 10 {
      var s := NatDecimal(v);
      assert s[..|s| - 1] == NatDecimal(v / 10);
      DecValueOfNatDecimal(v / 10);
    }
  }

  lemma {:induction false} HexValueOfNatHex(v: nat)
    ensures HexValue(NatHex(v)) == v
    decreases v
  {
    if v >= 16 {
      var s := NatHex(v);
      assert s[..|s| - 1] == NatHex(v / 16);
      HexValueOfNatHex(v / 16);
    }
  }

  /** Leading zeros do not change the value of a hexadecimal digit string. */
  lemma {:induction false} HexValueLeadingZeros(z: nat, ds: string)
    requires forall i :: 0 <= i < |ds| ==> IsHexChar(ds[i])
    ensures forall i :: 0 <= i < |Zeros(z) + ds| ==> IsHexChar((Zeros(z) + ds)[i])
    ensures HexValue(Zeros(z) + ds) == HexValue(ds)
    decreases |ds|
  {
    var s := Zeros(z) + ds;
    if |ds| == 0 {
      HexValueOfZeros(z);
      assert s == Zeros(z);
    } else {
      var ds' := ds[..|ds| - 1];
      HexValueLeadingZeros(z, ds');
      assert s[..|s| - 1] == Zeros(z) + ds';
    }
  }

  lemma {:induction false} HexValueOfZeros(z: nat)
    ensures HexValue(Zeros(z)) == 0
    decreases z
  {
    if z > 0 {
      assert Zeros(z)[..z - 1] == Zeros(z - 1);
      HexValueOfZeros(z - 1);
    }
  }

  lemma DecRunExact(ds: string, rest: string)
    requires forall i :: 0 <= i < |ds| ==> IsDecDigit(ds[i])
    requires |rest| > 0 && !IsDecDigit(rest[0])
    ensures DecRun(ds + rest) == |ds|
  {
    if |ds| > 0 {
      assert (ds + rest)[1..] == ds[1..] + rest;
      DecRunExact(ds[1..], rest);
    } else {
      assert ds + rest == rest;
    }
  }

  lemma HexRunExact(ds: string, rest: string)
    requires forall i :: 0 <= i < |ds| ==> IsHexChar(ds[i])
    requires |rest| > 0 && !IsHexChar(rest[0])
    ensures HexRun(ds + rest) == |ds|
  {
    if |ds| > 0 {
      assert (ds + rest)[1..] == ds[1..] + rest;
      HexRunExact(ds[1..], rest);
    } else {
      assert ds + rest == rest;
    }
  }

  lemma ScanDigitsOf(ds: string, rest: string)
    requires forall i :: 0 <= i < |ds| ==> IsDecDigit(ds[i])
    requires |ds| > 0 && |rest| > 0 && !IsDecDigit(rest[0])
    ensures ScanDigits(ds + rest) == Some((DecValue(ds), rest))
  {
    DecRunExact(ds, rest);
    assert (ds + rest)[..|ds|] == ds;
    assert (ds + rest)[|ds|..] == rest;
  }

  lemma ScanHexDigitsOf(ds: string, rest: string)
    requires forall i :: 0 <= i < |ds| ==> IsHexChar(ds[i])
    requires |ds| > 0 && |rest| > 0 && !IsHexChar(rest[0])
    ensures ScanHexDigits(ds + rest) == Some((HexValue(ds), rest))
  {
    HexRunExact(ds, rest);
    assert (ds + rest)[..|ds|] == ds;
    assert (ds + rest)[|ds|..] == rest;
  }

  lemma SkipNothing(s: string)
    requires |s| > 0 && !IsSpace(s[0])
    ensures SkipSpaces(s) == s
  {
  }

  lemma SkipOneSpace(c: char, s: string)
    requires IsSpace(c) && |s| > 0 && !IsSpace(s[0])
    ensures SkipSpaces([c] + s) == s
  {
    assert ([c] + s)[1..] == s;
  }

  /** `%d` on unsigned digits followed by a non-digit. */
  lemma ScanDecimalUnsigned(ds: string, rest: string)
    requires forall i :: 0 <= i < |ds| ==> IsDecDigit(ds[i])
    requires |ds| > 0 && |rest| > 0 && !IsDecDigit(rest[0])
    ensures ScanDecimal(ds + rest) == Some((DecValue(ds) as int, rest))
  {
    var s := ds + rest;
    assert s[0] == ds[0];
    SkipNothing(s);
    ScanDigitsOf(ds, rest);
  }

  /** `%d` on a minus sign, digits, then a non-digit. */
  lemma ScanDecimalNegative(ds: string, rest: string)
    requires forall i :: 0 <= i < |ds| ==> IsDecDigit(ds[i])
    requires |ds| > 0 && |rest| > 0 && !IsDecDigit(rest[0])
    ensures ScanDecimal("-" + (ds + rest)) == Some((-(DecValue(ds) as int), rest))
  {
    var s := "-" + (ds + rest);
    SkipNothing(s);
    assert s[1..] == ds + rest;
    ScanDigitsOf(ds, rest);
  }

  /** `%d` reads back Python's rendering of any integer, stopping at the separator. */
  lemma ScanDecimalOfDecimal(v: int, rest: string)
    requires |rest| > 0 && !IsDecDigit(rest[0])
    ensures ScanDecimal(Decimal(v) + rest) == Some((v, rest))
  {
    var ds := NatDecimal(if v < 0 then -v else v);
    DecValueOfNatDecimal(if v < 0 then -v else v);
    if v < 0 {
      ScanDecimalNegative(ds, rest);
      assert Decimal(v) + rest == "-" + (ds + rest);
    } else {
      ScanDecimalUnsigned(ds, rest);
    }
  }

  /** The 16-digit rendering of a non-negative address is all hexadecimal digits. */
  lemma Hex016Digits(a: int)
    requires 0 <= a
    ensures |Hex016(a)| >= 1
    ensures forall i :: 0 <= i < |Hex016(a)| ==> IsHexChar(Hex016(a)[i])
    ensures HexValue(Hex016(a)) == a
  {
    var h := NatHex(a);
    var z := if |h| < 16 then 16 - |h| else 0;
    assert Hex016(a) == Zeros(z) + h;
    HexValueLeadingZeros(z, h);
    HexValueOfNatHex(a);
  }

  /** `%x` reads back the 16-digit rendering of a non-negative address. */
  lemma ScanHexOfHex016(a: int, rest: string)
    requires 0 <= a && |rest| > 0 && !IsHexChar(rest[0])
    ensures ScanHex(Hex016(a) + rest) == Some((a, rest))
  {
    var ds := Hex016(a);
    Hex016Digits(a);
    ScanHexDigitsOf(ds, rest);
    var s := ds + rest;
    assert s[0] == ds[0];
    SkipNothing(s);
    assert !(|s| >= 2 && s[0] == '0' && (s[1] == 'x' || s[1] == 'X')) by {
      if |s| >= 2 && s[0] == '0' {
        assert IsHexChar(ds[1]);
        assert s[1] == ds[1];
      }
    }
  }

  /** The three conversions of an instruction line, one step at a time. */
  lemma ScanInstructionSteps(line: string, p: int, rest1: string, c: char, rest2: string,
                             a: int, rest3: string)
    requires ScanDecimal(line) == Some((p, rest1))
    requires ScanChar(SkipSpaces(rest1)) == Some((c, rest2))
    requires ScanHex(SkipSpaces(rest2)) == Some((a, rest3))
    ensures ScanInstruction(line) == Some((p, c, a))
  {
  }

  lemma ScanInstructionFailsAtHex(line: string, p: int, rest1: string, c: char, rest2: string)
    requires ScanDecimal(line) == Some((p, rest1))
    requires ScanChar(SkipSpaces(rest1)) == Some((c, rest2))
    requires ScanHex(SkipSpaces(rest2)).None?
    ensures ScanInstruction(line).None?
  {
  }

  /** `%d` on a written line: the processor, then the rest of the line after it. */
  lemma ScanLineProcessor(r: Record, sep: string)
    requires |sep| > 0 && !IsDecDigit(sep[0])
    ensures ScanDecimal(FormatLine(r, sep))
      == Some((r.proc, sep + ([OpChar(r.op)] + (sep + (Hex016(r.address) + "\n")))))
  {
    var rest1 := sep + ([OpChar(r.op)] + (sep + (Hex016(r.address) + "\n")));
    assert FormatLine(r, sep) == Decimal(r.proc) + rest1;
    ScanDecimalOfDecimal(r.proc, rest1);
  }

  /** ` %c` after one space reads the operation letter that follows it. */
  lemma ScanSpacedOp(op: Op, rest2: string)
    ensures ScanChar(SkipSpaces(SPACE_SEP + ([OpChar(op)] + rest2))) == Some((OpChar(op), rest2))
  {
    SkipOneSpace(' ', [OpChar(op)] + rest2);
  }

  /** ` %lx` after one space reads a 16-digit address up to the newline. */
  lemma ScanSpacedAddress(a: int)
    requires 0 <= a
    ensures ScanHex(SkipSpaces(SPACE_SEP + (Hex016(a) + "\n"))) == Some((a, "\n"))
  {
    var hexPart := Hex016(a) + "\n";
    Hex016Digits(a);
    assert hexPart[0] == Hex016(a)[0];
    SkipOneSpace(' ', hexPart);
    ScanHexOfHex016(a, "\n");
  }

  /**
   * A line in the 64-byte generators' format is read back by the
   * `%d %c %lx` scanner as the record's processor, operation letter and
   * address.
   */
  lemma SpaceLineRoundTrip(r: Record)
    requires 0 <= r.address
    ensures ScanInstruction(FormatLine(r, SPACE_SEP)) == Some((r.proc, OpChar(r.op), r.address))
  {
    var rest2 := SPACE_SEP + (Hex016(r.address) + "\n");
    var rest1 := SPACE_SEP + ([OpChar(r.op)] + rest2);
    ScanSpaceLineProcessor(r);
    ScanSpacedOp(r.op, rest2);
    ScanSpacedAddress(r.address);
    ScanInstructionSteps(FormatLine(r, SPACE_SEP), r.proc, rest1, OpChar(r.op), rest2, r.address, "\n");
  }

  lemma ScanSpaceLineProcessor(r: Record)
    ensures ScanDecimal(FormatLine(r, SPACE_SEP))
      == Some((r.proc, SPACE_SEP + ([OpChar(r.op)] + (SPACE_SEP + (Hex016(r.address) + "\n")))))
  {
    ScanLineProcessor(r, SPACE_SEP);
  }

  lemma ScanCommaLineProcessor(r: Record)
    ensures ScanDecimal(FormatLine(r, COMMA_SEP))
      == Some((r.proc, COMMA_SEP + ([OpChar(r.op)] + (COMMA_SEP + (Hex016(r.address) + "\n")))))
  {
    ScanLineProcessor(r, COMMA_SEP);
  }

  /** ` %c` right after the processor of a comma line reads the comma itself. */
  lemma ScanCommaAsOp(c: char, tail: string)
    ensures ScanChar(SkipSpaces(COMMA_SEP + ([c] + tail))) == Some((',', " " + ([c] + tail)))
  {
    var rest1 := COMMA_SEP + ([c] + tail);
    assert rest1 == "," + (" " + ([c] + tail));
    SkipNothing(rest1);
  }

  /** ` %lx` after the space of a comma line meets the operation letter. */
  lemma HexRejectsSpacedOpLetter(op: Op, tail: string)
    ensures ScanHex(SkipSpaces(" " + ([OpChar(op)] + tail))).None?
  {
    SkipOneSpace(' ', [OpChar(op)] + tail);
    HexRejectsOpLetter(op, tail);
  }

  lemma HexRejectsOpLetter(op: Op, tail: string)
    ensures ScanHex(SkipSpaces([OpChar(op)] + tail)).None?
  {
    var t := [OpChar(op)] + tail;
    SkipNothing(t);
    assert HexRun(t) == 0;
  }

  /**
   * A line in the 8-byte generators' comma-separated format is rejected by
   * the `%d %c %lx` scanner: `%c` consumes the comma and `%lx` then meets
   * the operation letter.
   */
  lemma CommaLineRejected(r: Record)
    ensures ScanInstruction(FormatLine(r, COMMA_SEP)).None?
  {
    var c := OpChar(r.op);
    var tail := COMMA_SEP + (Hex016(r.address) + "\n");
    var rest1 := COMMA_SEP + ([c] + tail);
    var rest2 := " " + ([c] + tail);
    ScanCommaLineProcessor(r);
    ScanCommaAsOp(c, tail);
    HexRejectsSpacedOpLetter(r.op, tail);
    ScanInstructionFailsAtHex(FormatLine(r, COMMA_SEP), r.proc, rest1, ',', rest2);
  }
}
