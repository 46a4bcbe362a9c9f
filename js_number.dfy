/** The integer behaviour of the JavaScript number operations the grid code relies on:
    `Math.floor(a / b)`, the remainder operator `%` (which truncates toward zero, unlike
    Dafny's Euclidean `%`), and the decimal text a template literal `${n}` produces. */
module JsNumber {

  /** `Math.floor(a / b)` for a positive integer divisor. */
  function FloorDiv(a: int, b: int): (q: int)
    requires b > 0
    ensures q * b <= a < q * b + b
  {
    a / b
  }

  /** JavaScript's `a % b` for a positive divisor: the remainder takes the sign of `a`. */
  function Rem(a: int, b: int): (r: int)
    requires b > 0
    ensures a >= 0 ==> 0 <= r < b
    ensures a < 0 ==> -b < r <= 0
    ensures a >= 0 ==> r == a % b
  {
    if a >= 0 then a % b else -((-a) % b)
  }

  predicate IsDigit(ch: char) {
    '0' <= ch <= '9'
  }

  predicate AllDigits(s: string) {
    forall i :: 0 <= i < |s| ==> IsDigit(s[i])
  }

  function DigitChar(d: nat): (ch: char)
    requires d < 10
    ensures IsDigit(ch)
  {
    "0123456789"[d]
  }

  /** The decimal text of a non-negative integer, as `${n}` renders it: no sign, no
      leading zeros. */
  function NatToString(n: nat): (s: string)
    ensures |s| >= 1 && AllDigits(s)
    ensures (|s| == 1) == (n < 10)
    ensures s[0] != '0' || n == 0
    decreases n
  {
    if n < 10 then [DigitChar(n)] else NatToString(n / 10) + [DigitChar(n % 10)]
  }

  lemma DigitCharInjective(a: nat, b: nat)
    requires a < 10 && b < 10
    ensures DigitChar(a) == DigitChar(b) ==> a == b
  {
  }

  /** Distinct numbers render as distinct texts. */
  lemma {:induction false} NatToStringInjective(a: nat, b: nat)
    ensures NatToString(a) == NatToString(b) ==> a == b
    decreases a
  {
    var sa, sb := NatToString(a), NatToString(b);
    if sa == sb && a >= 10 && b >= 10 {
      assert sa[..|sa| - 1] == NatToString(a / 10);
      assert sb[..|sb| - 1] == NatToString(b / 10);
      NatToStringInjective(a / 10, b / 10);
      DigitCharInjective(a % 10, b % 10);
      assert sa[|sa| - 1] == DigitChar(a % 10);
    } else if sa == sb && a < 10 && b < 10 {
      DigitCharInjective(a, b);
    }
  }

  /** The length of the run of digits a text starts with. */
  function DigitRunLength(s: string): (n: nat)
    ensures n <= |s|
  {
    if s == [] || !IsDigit(s[0]) then 0 else 1 + DigitRunLength(s[1..])
  }

  lemma {:induction false} DigitRunLengthOf(a: string, t: string)
    requires AllDigits(a) && t != [] && !IsDigit(t[0])
    ensures DigitRunLength(a + t) == |a|
  {
    if a == [] {
      assert a + t == t;
    } else {
      assert (a + t)[1..] == a[1..] + t;
      DigitRunLengthOf(a[1..], t);
    }
  }

  /** A text built as `prefix + digits + sep + rest` determines its digit run and its
      rest when `sep` starts with a non-digit: the template `x-${a}-y-${b}` is unambiguous. */
  lemma DigitRunDetermined(p: string, a: string, sep: string, x: string, a': string, x': string)
    requires AllDigits(a) && AllDigits(a')
    requires |sep| >= 1 && !IsDigit(sep[0])
    requires p + a + sep + x == p + a' + sep + x'
    ensures a == a' && x == x'
  {
    var t, t' := a + (sep + x), a' + (sep + x');
    assert p + a + sep + x == p + t;
    assert p + a' + sep + x' == p + t';
    assert t == (p + t)[|p|..] == (p + t')[|p|..] == t';
    DigitRunLengthOf(a, sep + x);
    DigitRunLengthOf(a', sep + x');
    assert a == t[..|a|] == t'[..|a'|] == a';
    assert sep + x == t[|a|..] == t'[|a'|..] == sep + x';
    assert x == (sep + x)[|sep|..] == (sep + x')[|sep|..] == x';
  }
}
