/** String helpers with Ruby's meaning: `blank?`, `include?` and `Integer#to_s`. */
module Text {
  import opened Wrappers

  /** Characters Ruby's `blank?` treats as white space (the Unicode White_Space property). */
  predicate IsSpace(c: char) {
    c == ' ' || c == '\t' || c == '\n' || c == '\r' || c == '\U{B}' || c == '\U{C}'
    || c == '\U{85}' || c == '\U{A0}' || c == '\U{1680}' || ('\U{2000}' <= c <= '\U{200A}')
    || c == '\U{2028}' || c == '\U{2029}' || c == '\U{202F}' || c == '\U{205F}' || c == '\U{3000}'
  }

  /** `s.blank?` for a string that may be nil. */
  predicate Blank(s: Option<string>) {
    match s
    case None => true
    case Some(t) => forall i :: 0 <= i < |t| ==> IsSpace(t[i])
  }

  /** `s.present?`. */
  predicate Present(s: Option<string>) {
    !Blank(s)
  }

  /** The text `"#{s}"` interpolates: nil becomes the empty string. */
  function Interp(s: Option<string>): string {
    s.GetOr("")
  }

  /** `s.include?(w)`: `w` occurs in `s` at some position. */
  predicate Contains(s: string, w: string) {
    exists i | 0 <= i <= |s| - |w| :: OccursAt(s, w, i)
  }

  /** `w` occurs in `s` starting at position `i`. */
  predicate OccursAt(s: string, w: string, i: int) {
    0 <= i <= |s| - |w| && s[i..i + |w|] == w
  }

  /** The decimal digit for `d`. */
  function Digit(d: nat): (c: char)
    requires d < 10
    ensures '0' <= c <= '9'
  {
    "0123456789"[d]
  }

  /** `n.to_s` for a non-negative integer. */
  function NatToString(n: nat): (r: string)
    ensures |r| >= 1
    ensures forall i :: 0 <= i < |r| ==> '0' <= r[i] <= '9'
    decreases n
  {
    if n < 10 then [Digit(n)] else NatToString(n / 10) + [Digit(n % 10)]
  }

  lemma DigitInjective(a: nat, b: nat)
    requires a < 10 && b < 10 && Digit(a) == Digit(b)
    ensures a == b
  {
  }

  /** Distinct numbers print differently. */
  lemma {:induction false} NatToStringInjective(n: nat, m: nat)
    requires NatToString(n) == NatToString(m)
    ensures n == m
    decreases n
  {
    var a, b := NatToString(n), NatToString(m);
    if n < 10 && m < 10 {
      DigitInjective(n, m);
    } else if n >= 10 && m >= 10 {
      assert a[|a| - 1] == Digit(n % 10) && b[|b| - 1] == Digit(m % 10);
      DigitInjective(n % 10, m % 10);
      assert NatToString(n / 10) == a[..|a| - 1] == b[..|b| - 1] == NatToString(m / 10);
      NatToStringInjective(n / 10, m / 10);
    }
  }

  /** Concatenation regrouped; the solver does not find this on its own inside larger goals. */
  lemma Associative<T>(a: seq<T>, b: seq<T>, c: seq<T>)
    ensures a + (b + c) == a + b + c
  {
  }
}
