/**
 * Memory-access records produced by the trace generators and their textual
 * form: `<proc><sep><op><sep><address as 16 zero-padded lowercase hex digits>`
 * followed by a newline.  The 64-byte generators separate fields with one
 * space, the 8-byte generators with a comma and a space.
 */
module TraceRecord {

  datatype Op = R | W

  /** One access: which processor, read or write, and the address. */
  datatype Record = Record(proc: int, op: Op, address: int)

  const SPACE_SEP: string := " "
  const COMMA_SEP: string := ", "

  /** 16^k */
  function Pow16(k: nat): (r: nat)
    ensures r >= 1
  {
    if k == 0 then 1 else 16 * Pow16(k - 1)
  }

  function OpChar(op: Op): char
  {
    match op
    case R => 'R'
    case W => 'W'
  }

  predicate IsDecDigit(c: char)
  {
    '0' <= c <= '9'
  }

  predicate IsLowerHex(c: char)
  {
    '0' <= c <= '9' || 'a' <= c <= 'f'
  }

  function DecDigit(d: nat): (c: char)
    requires d < 10
    ensures IsDecDigit(c)
  {
    ('0' as int + d) as char
  }

  function HexDigit(d: nat): (c: char)
    requires d < 16
    ensures IsLowerHex(c)
  {
    if d < 10 then ('0' as int + d) as char else ('a' as int + d - 10) as char
  }

  /** Decimal digits of a natural number, most significant first, no leading zeros. */
  function NatDecimal(v: nat): (s: string)
    ensures |s| >= 1
    ensures forall i :: 0 <= i < |s| ==> IsDecDigit(s[i])
    decreases v
  {
    if v < 10 then [DecDigit(v)] else NatDecimal(v / 10) + [DecDigit(v % 10)]
  }

  /** Python's `str` of an integer. */
  function Decimal(v: int): string
  {
    if v < 0 then "-" + NatDecimal(-v) else NatDecimal(v)
  }

  /** Lowercase hexadecimal digits of a natural number, no leading zeros. */
  function NatHex(v: nat): (s: string)
    ensures |s| >= 1
    ensures forall i :: 0 <= i < |s| ==> IsLowerHex(s[i])
    decreases v
  {
    if v < 16 then [HexDigit(v)] else NatHex(v / 16) + [HexDigit(v % 16)]
  }

  /** `z` copies of the digit '0'. */
  function Zeros(z: nat): (r: string)
    ensures |r| == z
    ensures forall i :: 0 <= i < z ==> r[i] == '0'
  {
    seq(z, _ => '0')
  }

  /** Left-pads `s` with '0' up to `width` characters. */
  function ZeroPad(s: string, width: nat): (r: string)
    ensures |s| <= width ==> |r| == width
    ensures |s| > width ==> r == s
    ensures |r| >= |s| && r[|r| - |s|..] == s
    ensures forall i :: 0 <= i < |r| - |s| ==> r[i] == '0'
  {
    if |s| < width then Zeros(width - |s|) + s else s
  }

  /** Python's `f"{v:016x}"`: sign-aware zero padding to a total width of 16. */
  function Hex016(v: int): string
  {
    if v < 0 then "-" + ZeroPad(NatHex(-v), 15) else ZeroPad(NatHex(v), 16)
  }

  /** One line of a trace file. */
  function FormatLine(r: Record, sep: string): string
  {
    Decimal(r.proc) + sep + [OpChar(r.op)] + sep + Hex016(r.address) + "\n"
  }

  /** The trace with every address multiplied by `unit` (bytes per element). */
  function Scaled(trace: seq<Record>, unit: int): seq<Record>
  {
    seq(|trace|, i requires 0 <= i < |trace| => trace[i].(address := trace[i].address * unit))
  }

  lemma {:induction false} NatHexLength(v: nat, k: nat)
    requires 1 <= k && v < Pow16(k)
    ensures |NatHex(v)| <= k
    decreases v
  {
    if v >= 16 {
      assert k >= 2;
      assert v / 16 < Pow16(k - 1);
      NatHexLength(v / 16, k - 1);
    }
  }

  /** An address in [0, 2^64) is written as exactly 16 lowercase hexadecimal digits. */
  lemma Hex016Shape(v: int)
    requires 0 <= v < Pow16(16)
    ensures |Hex016(v)| == 16
    ensures forall i :: 0 <= i < 16 ==> IsLowerHex(Hex016(v)[i])
  {
    NatHexLength(v, 16);
    var h := NatHex(v);
    var r := Hex016(v);
    forall i | 0 <= i < 16
      ensures IsLowerHex(r[i])
    {
      if i >= 16 - |h| {
        assert r[i] == h[i - (16 - |h|)];
      }
    }
  }

  /**
   * `line` is `d`, `sep`, the character `c`, `sep`, `h` and a newline, each
   * at the position that follows from the lengths of the fields before it.
   */
  predicate HasFields(line: string, d: string, sep: string, c: char, h: string)
  {
    var p := |d|;
    && |line| == p + 2 * |sep| + |h| + 2
    && line[..p] == d
    && line[p..p + |sep|] == sep
    && line[p + |sep|] == c
    && line[p + |sep| + 1..p + 2 * |sep| + 1] == sep
    && line[p + 2 * |sep| + 1..p + 2 * |sep| + 1 + |h|] == h
    && line[|line| - 1] == '\n'
  }

  /**
   * A written line is the processor, the separator, the operation letter,
   * the separator and the 16-digit address, in that order, then a newline.
   */
  lemma FormatLineFields(r: Record, sep: string)
    requires 0 <= r.proc && 0 <= r.address < Pow16(16)
    ensures |Hex016(r.address)| == 16
    ensures HasFields(FormatLine(r, sep), NatDecimal(r.proc), sep, OpChar(r.op), Hex016(r.address))
  {
    Hex016Shape(r.address);
    LineSlices(FormatLine(r, sep), NatDecimal(r.proc), sep, OpChar(r.op), Hex016(r.address));
  }

  lemma LineSlices(line: string, d: string, sep: string, c: char, h: string)
    requires line == d + sep + [c] + sep + h + "\n"
    ensures HasFields(line, d, sep, c, h)
  {
  }

  lemma ScaledAppend(a: seq<Record>, b: seq<Record>, unit: int)
    ensures Scaled(a + b, unit) == Scaled(a, unit) + Scaled(b, unit)
  {
  }

  lemma ScaledSnoc(a: seq<Record>, x: Record, unit: int)
    ensures Scaled(a + [x], unit) == Scaled(a, unit) + [x.(address := x.address * unit)]
  {
    ScaledAppend(a, [x], unit);
  }
}
