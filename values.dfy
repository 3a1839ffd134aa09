/** Cell values shared by the browser grid and the transformation service: the
    JSON values a sheet row or a service record holds, JavaScript truthiness,
    and the string a value turns into when it is used as an object key. */
module Values {

  datatype Option<+T> = None | Some(value: T)

  /** One cell. Numbers are integers here; `NaN` is what pandas puts in a
      record that lacked a column. */
  datatype Cell = Str(s: string) | Num(n: int) | Bool(b: bool) | Null | NaN

  /** A grid row or a service record: JavaScript object / Python dict. */
  type Row = map<string, Cell>

  /** JavaScript truthiness: "", 0, false, null and NaN are falsy. */
  predicate Truthy(c: Cell)
  {
    match c
    case Str(s) => s != ""
    case Num(n) => n != 0
    case Bool(b) => b
    case Null => false
    case NaN => false
  }

  predicate IsDigit(ch: char)
  {
    '0' <= ch <= '9'
  }

  function DigitChar(d: nat): char
    requires d < 10
  {
    ('0' as int + d) as char
  }

  /** Decimal spelling of a natural number, as JavaScript's String(n). */
  function Digits(n: nat): (r: string)
    ensures |r| >= 1
    ensures forall i :: 0 <= i < |r| ==> IsDigit(r[i])
    ensures n >= 10 ==> r[0] != '0'
  {
    if n < 10 then [DigitChar(n)] else Digits(n / 10) + [DigitChar(n % 10)]
  }

  /** The number a string of decimal digits denotes. */
  function DigitsValue(s: string): nat
    requires forall i :: 0 <= i < |s| ==> IsDigit(s[i])
  {
    if s == [] then 0 else DigitsValue(s[..|s| - 1]) * 10 + DigitValue(s[|s| - 1])
  }

  function DigitValue(ch: char): nat
    requires IsDigit(ch)
  {
    ch as int - '0' as int
  }

  lemma {:induction false} DigitsRoundTrip(n: nat)
    ensures DigitsValue(Digits(n)) == n
  {
    if n >= 10 {
      var d := Digits(n);
      assert d[..|d| - 1] == Digits(n / 10);
      DigitsRoundTrip(n / 10);
    }
  }

  /** Distinct numbers are spelled differently. */
  lemma DigitsInjective(m: nat, n: nat)
    requires m != n
    ensures Digits(m) != Digits(n)
  {
    DigitsRoundTrip(m);
    DigitsRoundTrip(n);
  }

  /** The property key a value turns into (`obj[value]` / template literal). */
  function KeyOf(c: Cell): string
  {
    match c
    case Str(s) => s
    case Num(n) => if n < 0 then "-" + Digits(-n) else Digits(n)
    case Bool(b) => if b then "true" else "false"
    case Null => "null"
    case NaN => "NaN"
  }
}
