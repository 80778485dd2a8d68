/** String operations of the source language: stripping, lower case, lines. */
module Text {
  import opened Prelude

  /** Characters that the source's strip() removes. */
  predicate IsSpace(c: char) {
    || '\t' <= c <= '\r'
    || '\U{001C}' <= c <= ' '
    || c == '\U{0085}' || c == '\U{00A0}' || c == '\U{1680}'
    || '\U{2000}' <= c <= '\U{200A}'
    || c == '\U{2028}' || c == '\U{2029}' || c == '\U{202F}' || c == '\U{205F}' || c == '\U{3000}'
  }

  /** Characters at which splitlines() breaks a text. */
  predicate IsLineBreak(c: char) {
    || '\n' <= c <= '\r'
    || '\U{001C}' <= c <= '\U{001E}'
    || c == '\U{0085}' || c == '\U{2028}' || c == '\U{2029}'
  }

  function TrimLeft(s: string, drop: char -> bool): string {
    if s != [] && drop(s[0]) then TrimLeft(s[1..], drop) else s
  }

  function TrimRight(s: string, drop: char -> bool): string {
    if s != [] && drop(s[|s| - 1]) then TrimRight(s[..|s| - 1], drop) else s
  }

  function Trim(s: string, drop: char -> bool): string {
    TrimRight(TrimLeft(s, drop), drop)
  }

  function Strip(s: string): string {
    Trim(s, IsSpace)
  }

  /** Nothing to drop at either end. */
  predicate Bare(s: string, drop: char -> bool) {
    s == [] || (!drop(s[0]) && !drop(s[|s| - 1]))
  }

  predicate Trimmed(s: string) {
    Bare(s, IsSpace)
  }

  predicate Blank(s: string) {
    Strip(s) == []
  }

  lemma {:induction false} TrimLeftSpec(s: string, drop: char -> bool)
    ensures var t := TrimLeft(s, drop);
            && |t| <= |s| && t == s[|s| - |t|..]
            && (t == [] || !drop(t[0]))
            && forall i :: 0 <= i < |s| - |t| ==> drop(s[i])
  {
    if s != [] && drop(s[0]) {
      var rest, t := s[1..], TrimLeft(s[1..], drop);
      TrimLeftSpec(rest, drop);
      assert rest[|rest| - |t|..] == s[|s| - |t|..];
      assert forall i :: 1 <= i < |s| ==> s[i] == rest[i - 1];
    }
  }

  lemma {:induction false} TrimRightSpec(s: string, drop: char -> bool)
    ensures var t := TrimRight(s, drop);
            && |t| <= |s| && t == s[..|t|]
            && (t == [] || !drop(t[|t| - 1]))
            && forall i :: |t| <= i < |s| ==> drop(s[i])
  {
    if s != [] && drop(s[|s| - 1]) { TrimRightSpec(s[..|s| - 1], drop); }
  }

  lemma TrimIsBare(s: string, drop: char -> bool)
    ensures Bare(Trim(s, drop), drop)
    ensures Bare(s, drop) ==> Trim(s, drop) == s
  {
    TrimLeftSpec(s, drop);
    TrimRightSpec(TrimLeft(s, drop), drop);
  }

  lemma StripTrimmed(s: string)
    ensures Trimmed(Strip(s))
    ensures Strip(s) == s <==> Trimmed(s)
  {
    TrimIsBare(s, IsSpace);
  }

  /** ASCII lower case; other characters are left alone. */
  function Lower(s: string): (r: string)
    ensures |r| == |s|
  {
    if s == [] then []
    else [if 'A' <= s[0] <= 'Z' then ((s[0] as int) + 32) as char else s[0]] + Lower(s[1..])
  }

  function Digit(n: nat): char
    requires n < 10
  {
    ((n + 48) as char)
  }

  /** Decimal digits of a number. */
  function Decimal(n: nat): (s: string)
    ensures s != [] && forall i :: 0 <= i < |s| ==> '0' <= s[i] <= '9'
  {
    if n < 10 then [Digit(n)] else Decimal(n / 10) + [Digit(n % 10)]
  }

  lemma {:induction false} DecimalInjective(m: nat, n: nat)
    requires Decimal(m) == Decimal(n)
    ensures m == n
  {
    if m >= 10 && n >= 10 {
      var p, q := Decimal(m / 10), Decimal(n / 10);
      assert Decimal(m) == p + [Digit(m % 10)] && Decimal(n) == q + [Digit(n % 10)];
      assert (p + [Digit(m % 10)])[..|p|] == p && (q + [Digit(n % 10)])[..|q|] == q;
      assert (p + [Digit(m % 10)])[|p|] == Digit(m % 10) && (q + [Digit(n % 10)])[|q|] == Digit(n % 10);
      DecimalInjective(m / 10, n / 10);
    }
  }

  /** At most `k` digits below 10 to the k. */
  function PowerOfTen(k: nat): nat {
    if k == 0 then 1 else 10 * PowerOfTen(k - 1)
  }

  lemma {:induction false} DecimalLength(n: nat, k: nat)
    requires k >= 1 && n < PowerOfTen(k)
    ensures |Decimal(n)| <= k
  {
    if n >= 10 {
      assert k >= 2;
      DecimalLength(n / 10, k - 1);
    }
  }

  /** The parts of a text between separators; a text without any is one part. */
  function SplitOn(s: string, sep: char): (parts: seq<string>)
    ensures parts != []
  {
    if s == "" then [""]
    else
      var rest := SplitOn(s[1..], sep);
      if s[0] == sep then [""] + rest else [[s[0]] + rest[0]] + rest[1..]
  }

  function Join(lines: seq<string>, sep: string): string {
    if lines == [] then "" else if |lines| == 1 then lines[0] else lines[0] + sep + Join(lines[1..], sep)
  }
}
