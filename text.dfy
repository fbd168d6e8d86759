/** String helpers the core borrows from Go's standard library. */
module Text {

  /** Go's `unicode.ToLower` on one rune, for the runes whose lower case is ASCII: the ASCII capitals,
      LATIN CAPITAL LETTER I WITH DOT ABOVE (lower-cased to `i`) and KELVIN SIGN (lower-cased to `k`).
      Every other rune is left as it is. */
  function LowerRune(c: char): char {
    if 'A' <= c <= 'Z' then (c as int + 32) as char
    else if c == '\U{0130}' then 'i'
    else if c == '\U{212A}' then 'k'
    else c
  }

  predicate IsAsciiUpper(c: char) { 'A' <= c <= 'Z' }

  /** `strings.ToLower`: lower-cases rune by rune and keeps the length. */
  function ToLower(s: string): (r: string)
    ensures |r| == |s|
    ensures forall i :: 0 <= i < |s| ==> r[i] == LowerRune(s[i])
    ensures forall i :: 0 <= i < |r| ==> !IsAsciiUpper(r[i])
  {
    seq(|s|, i requires 0 <= i < |s| => LowerRune(s[i]))
  }

  lemma ToLowerIdempotent(s: string)
    ensures ToLower(ToLower(s)) == ToLower(s)
  {
  }

  /** Decimal digits of a natural number, as `fmt.Sprintf("%d", n)` prints it. */
  function DecimalString(n: nat): (r: string)
    ensures |r| >= 1
    ensures forall i :: 0 <= i < |r| ==> '0' <= r[i] <= '9'
  {
    var digit := ['0' + (n % 10) as char];
    assert '0' <= digit[0] <= '9';
    if n < 10 then digit else DecimalString(n / 10) + digit
  }
}
