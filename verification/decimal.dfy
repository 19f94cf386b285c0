/** Integer <-> text conversions as the two runtimes perform them: Rust's `{}` and
    JavaScript's template `${n}` render integers in decimal; JavaScript's one-argument
    `parseInt` reads them back. */
module Decimal {

  /** The decimal digit for `d < 10`. */
  function DigitChar(d: nat): char
    requires d < 10
  {
    "0123456789"[d]
  }

  /** Decimal rendering of a natural number, without leading zeros. */
  function NatToString(n: nat): (r: string)
    ensures |r| >= 1
    ensures forall i :: 0 <= i < |r| ==> IsDecimalDigit(r[i])
    ensures r[0] == '0' ==> n == 0 && r == "0"
  {
    if n < 10 then [DigitChar(n)]
    else NatToString(n / 10) + [DigitChar(n % 10)]
  }

  /** Decimal rendering of an integer: a `-` in front of a negative value. */
  function IntToString(i: int): (r: string)
    ensures |r| >= 1
    ensures forall k :: 0 <= k < |r| ==> r[k] != ','
    ensures i >= 0 ==> r == NatToString(i)
    ensures i < 0 ==> r == "-" + NatToString(-i)
  {
    if i < 0 then "-" + NatToString(-i) else NatToString(i)
  }

  predicate IsDecimalDigit(c: char) {
    '0' <= c <= '9'
  }

  /** The value of a digit character in any radix up to 16, if it is one. */
  function DigitValue(c: char): (r: int)
    ensures -1 <= r < 16
    ensures IsDecimalDigit(c) ==> r == c as int - '0' as int
  {
    if '0' <= c <= '9' then c as int - '0' as int
    else if 'a' <= c <= 'f' then c as int - 'a' as int + 10
    else if 'A' <= c <= 'F' then c as int - 'A' as int + 10
    else -1
  }

  predicate IsDigitIn(c: char, radix: nat) {
    0 <= DigitValue(c) < radix
  }

  /** Length of the longest prefix of `s` made of digits of `radix`. */
  function DigitRun(s: string, radix: nat): (k: nat)
    ensures k <= |s|
    ensures forall i :: 0 <= i < k ==> IsDigitIn(s[i], radix)
    ensures k < |s| ==> !IsDigitIn(s[k], radix)
  {
    if s == [] || !IsDigitIn(s[0], radix) then 0 else 1 + DigitRun(s[1..], radix)
  }

  /** Positional value of a digit string, most significant digit first. */
  function DigitsValue(ds: string, radix: nat): nat
    requires forall i :: 0 <= i < |ds| ==> IsDigitIn(ds[i], radix)
  {
    if ds == [] then 0
    else
      assert IsDigitIn(ds[|ds| - 1], radix);
      DigitsValue(ds[..|ds| - 1], radix) * radix + DigitValue(ds[|ds| - 1])
  }

  /** The characters JavaScript's `parseInt` skips before the number: the ASCII white space,
      no-break space, byte-order mark and the two Unicode line terminators. */
  predicate IsJsSpace(c: char) {
    c == ' ' || c == '\t' || c == '\n' || c == '\r' || c == '\U{B}' || c == '\U{C}'
    || c == '\U{A0}' || c == '\U{FEFF}' || c == '\U{2028}' || c == '\U{2029}'
  }

  function TrimStart(s: string): (r: string)
    ensures |r| <= |s| && r == s[|s| - |r|..]
    ensures r != [] ==> !IsJsSpace(r[0])
  {
    if s != [] && IsJsSpace(s[0]) then TrimStart(s[1..]) else s
  }

  /** JavaScript's `parseInt(s)` with no radix: skip leading white space, read an optional
      sign, read a `0x`/`0X` prefix as radix 16 (otherwise radix 10), then the longest run of
      digits. `None` stands for `NaN` (no digit at all). */
  function JsParseInt(s: string): (r: Option)
    ensures r.Some? <==> DigitRun(Unprefixed(Unsigned(TrimStart(s))), Radix(Unsigned(TrimStart(s)))) > 0
  {
    var t := TrimStart(s);
    var negative := t != [] && t[0] == '-';
    var u := Unsigned(t);
    var radix := Radix(u);
    var v := Unprefixed(u);
    var k := DigitRun(v, radix);
    if k == 0 then None
    else
      var magnitude: int := DigitsValue(v[..k], radix);
      Some(if negative then -magnitude else magnitude)
  }

  /** The text after an optional leading sign. */
  function Unsigned(t: string): string {
    if t != [] && (t[0] == '-' || t[0] == '+') then t[1..] else t
  }

  function Radix(u: string): nat {
    if |u| >= 2 && u[0] == '0' && (u[1] == 'x' || u[1] == 'X') then 16 else 10
  }

  function Unprefixed(u: string): string {
    if Radix(u) == 16 then u[2..] else u
  }

  datatype Option = None | Some(value: int)

  /** Reading back a rendered natural number gives the number. */
  lemma {:induction false} DigitsValueOfNatToString(n: nat)
    ensures DigitsValue(NatToString(n), 10) == n
  {
    var r := NatToString(n);
    if n < 10 {
      assert r[..0] == [];
    } else {
      DigitsValueOfNatToString(n / 10);
      assert r[..|r| - 1] == NatToString(n / 10);
    }
  }

  /** `parseInt` inverts the decimal rendering of every integer. */
  lemma ParseIntToString(i: int)
    ensures JsParseInt(IntToString(i)) == Some(i)
  {
    var s := IntToString(i);
    var m: nat := if i < 0 then -i else i;
    var digits := NatToString(m);
    assert TrimStart(s) == s by {
      assert !IsJsSpace(s[0]);
    }
    assert Unsigned(s) == digits;
    DigitsParse(m);
  }

  /** The digits of a rendered natural number are read as that number. */
  lemma DigitsParse(m: nat)
    ensures var digits := NatToString(m);
      Radix(digits) == 10 && Unprefixed(digits) == digits
      && DigitRun(digits, 10) == |digits| && DigitsValue(digits[..|digits|], 10) == m
  {
    var digits := NatToString(m);
    assert Radix(digits) == 10;
    DigitsAreRadix10(digits);
    DigitRunAll(digits, 10);
    assert digits[..|digits|] == digits;
    DigitsValueOfNatToString(m);
  }

  lemma DigitsAreRadix10(s: string)
    requires forall i :: 0 <= i < |s| ==> IsDecimalDigit(s[i])
    ensures forall i :: 0 <= i < |s| ==> IsDigitIn(s[i], 10)
  {
  }

  /** A string made only of digits is read in full. */
  lemma {:induction false} DigitRunAll(s: string, radix: nat)
    requires forall i :: 0 <= i < |s| ==> IsDigitIn(s[i], radix)
    ensures DigitRun(s, radix) == |s|
  {
    if s != [] {
      DigitRunAll(s[1..], radix);
    }
  }
}
