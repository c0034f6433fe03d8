/**
 * The text formatting the audit engine relies on: strings.Join, the `%d`
 * and `%x` verbs, and the `%v` rendering of a column value.
 */
module Format {
  import opened Scalars

  /** strings.Join: the elements separated by `sep`. */
  function Join(xs: seq<string>, sep: string): string
  {
    if |xs| == 0 then ""
    else if |xs| == 1 then xs[0]
    else xs[0] + sep + Join(xs[1..], sep)
  }

  /**
   * A join is empty exactly when every element is empty and no separator
   * is written between two of them.
   */
  lemma {:induction false} JoinEmptyIff(xs: seq<string>, sep: string)
    ensures Join(xs, sep) == "" <==>
              (forall i :: 0 <= i < |xs| ==> xs[i] == "") && (|xs| <= 1 || sep == "")
  {
    if |xs| > 1 {
      var rest := xs[1..];
      JoinEmptyIff(rest, sep);
      assert forall i :: 1 <= i < |xs| ==> xs[i] == rest[i - 1];
      assert Join(xs, sep) == xs[0] + sep + Join(rest, sep);
      if Join(xs, sep) == "" {
        assert xs[0] == "" && sep == "" && Join(rest, sep) == "";
      }
    }
  }

  /** The character of a decimal digit. */
  function DigitChar(d: nat): (c: char)
    requires d < 10
    ensures '0' <= c <= '9'
  {
    ('0' as int + d) as char
  }

  predicate IsDigits(s: string)
  {
    forall i :: 0 <= i < |s| ==> '0' <= s[i] <= '9'
  }

  /** `%d` of a non-negative number: no leading zeros, at least one digit. */
  function NatDecimal(n: nat): (s: string)
    ensures |s| >= 1 && IsDigits(s)
    ensures n > 0 ==> s[0] != '0'
  {
    if n < 10 then [DigitChar(n)] else NatDecimal(n / 10) + [DigitChar(n % 10)]
  }

  /** `%d` (and `%v`) of an integer. */
  function Decimal(n: int): (s: string)
    ensures |s| >= 1
  {
    if n < 0 then "-" + NatDecimal(-n) else NatDecimal(n)
  }

  /** The value of a string of decimal digits: the inverse of NatDecimal. */
  function ParseNat(s: string): nat
    requires IsDigits(s)
  {
    if s == [] then 0 else ParseNat(s[..|s| - 1]) * 10 + (s[|s| - 1] as int - '0' as int)
  }

  /** The value of an optionally signed decimal: the inverse of Decimal. */
  function ParseDecimal(s: string): int
    requires |s| >= 1 && IsDigits(if s[0] == '-' then s[1..] else s)
  {
    if s[0] == '-' then -(ParseNat(s[1..]) as int) else ParseNat(s)
  }

  lemma {:induction false} NatDecimalRoundTrip(n: nat)
    ensures ParseNat(NatDecimal(n)) == n
  {
    if n >= 10 {
      NatDecimalRoundTrip(n / 10);
      var s := NatDecimal(n);
      assert s[..|s| - 1] == NatDecimal(n / 10);
    }
  }

  /** Every `%d` rendering reads back as the number it renders. */
  lemma DecimalRoundTrip(n: int)
    ensures var s := Decimal(n); |s| >= 1 && IsDigits(if s[0] == '-' then s[1..] else s)
    ensures ParseDecimal(Decimal(n)) == n
  {
    var s := Decimal(n);
    if n < 0 {
      assert s[1..] == NatDecimal(-n);
      NatDecimalRoundTrip(-n);
    } else {
      NatDecimalRoundTrip(n);
    }
  }

  /** One lower-case hexadecimal digit. */
  function HexDigit(n: nat): (c: char)
    requires n < 16
  {
    if n < 10 then ('0' as int + n) as char else ('a' as int + n - 10) as char
  }

  lemma HexDigitInjective(n: nat, m: nat)
    requires n < 16 && m < 16 && HexDigit(n) == HexDigit(m)
    ensures n == m
  {
  }

  /** `%x` of a byte sequence: two lower-case hex digits per byte. */
  function Hex(d: seq<bv8>): (s: string)
    ensures |s| == 2 * |d|
  {
    if d == [] then ""
    else [HexDigit(High(d[0])), HexDigit(Low(d[0]))] + Hex(d[1..])
  }

  /** The high and low nibble of a byte. */
  function High(x: bv8): (n: nat)
    ensures n < 16
  {
    x as nat / 16
  }

  function Low(x: bv8): (n: nat)
    ensures n < 16
  {
    x as nat % 16
  }

  lemma ByteFromNibbles(x: bv8, y: bv8)
    requires High(x) == High(y) && Low(x) == Low(y)
    ensures x == y
  {
    assert x as nat == 16 * (x as nat / 16) + x as nat % 16;
    assert y as nat == 16 * (y as nat / 16) + y as nat % 16;
  }

  /** Distinct byte sequences have distinct `%x` renderings. */
  lemma {:induction false} HexInjective(a: seq<bv8>, b: seq<bv8>)
    requires Hex(a) == Hex(b)
    ensures a == b
  {
    if a != [] {
      assert b != [];
      var x, y := a[0], b[0];
      var ta, tb := Hex(a[1..]), Hex(b[1..]);
      var ha := [HexDigit(High(x)), HexDigit(Low(x))] + ta;
      var hb := [HexDigit(High(y)), HexDigit(Low(y))] + tb;
      assert ha == Hex(a) && hb == Hex(b);
      assert ha[0] == hb[0] && ha[1] == hb[1];
      HexDigitInjective(High(x), High(y));
      HexDigitInjective(Low(x), Low(y));
      ByteFromNibbles(x, y);
      assert ha[2..] == ta && hb[2..] == tb;
      HexInjective(a[1..], b[1..]);
      assert a == [x] + a[1..] && b == [y] + b[1..];
    }
  }

  /**
   * `%v` of a column value. A byte slice prints as its bytes in decimal,
   * space separated, in brackets; nil prints as "<nil>".
   * Only the empty string renders as the empty string.
   */
  function FormatValue(v: Value): (s: string)
    ensures s == "" <==> v == Str("")
    ensures v == Nil ==> s == "<nil>"
  {
    match v
    case Str(t) => t
    case Bytes(b) => "[" + Join(seq(|b|, i requires 0 <= i < |b| => NatDecimal(b[i] as nat)), " ") + "]"
    case Int(n) => Decimal(n)
    case Bool(f) => if f then "true" else "false"
    case Nil => "<nil>"
  }
}
