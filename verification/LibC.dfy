/** itoa and strlen of libc.c. */
module LibC {

  function Digit(d: int): char
    requires 0 <= d < 10
  {
    '0' + d as char
  }

  /** The decimal digits of a positive number; none for zero. */
  function Digits(a: nat): string {
    if a == 0 then "" else Digits(a / 10) + [Digit(a % 10)]
  }

  /** The text itoa produces; it knows no negative numbers. */
  function Text(a: int): string {
    if a < 0 then "" else if a == 0 then "0" else Digits(a)
  }

  function Reversed(s: string): (r: string)
    ensures |r| == |s|
  {
    seq(|s|, i requires 0 <= i < |s| => s[|s| - 1 - i])
  }

  lemma ReversedSnoc(s: string, c: char)
    ensures Reversed(s + [c]) == [c] + Reversed(s)
  {
  }

  method Itoa(a: int, b: array<char>)
    requires b.Length > |Text(a)|
    modifies b
    ensures b[..|Text(a)|] == Text(a) && b[|Text(a)|] == '\0'
    ensures b[|Text(a)| + 1..] == old(b[|Text(a)| + 1..])
    ensures a < 0 ==> b[0] == '\0' && b[1..] == old(b[1..])
  {
    if a == 0 {
      b[0], b[1] := '0', '\0';
      return;
    }
    var i := WriteDigits(a, b);
    ReversePrefix(b, i);
    b[i] := '\0';
  }

  /** The first loop: the digits, last one first. */
  method WriteDigits(a: int, b: array<char>) returns (i: nat)
    requires a != 0 && b.Length > |Text(a)|
    modifies b
    ensures i == |Text(a)| && Reversed(b[..i]) == Text(a)
    ensures forall j :: i <= j < b.Length ==> b[j] == old(b[j])
  {
    i := 0;
    var rest := a;
    while rest > 0
      invariant i <= b.Length
      invariant a > 0 ==> rest >= 0 && Digits(a) == Digits(rest) + Reversed(b[..i])
      invariant a < 0 ==> rest == a && i == 0
      invariant forall j :: i <= j < b.Length ==> b[j] == old(b[j])
      decreases rest
    {
      assert Digits(rest) != "" && i < |Digits(a)|;
      ghost var before := b[..i];
      b[i] := Digit(rest % 10);
      assert b[..i + 1] == before + [Digit(rest % 10)];
      ReversedSnoc(before, Digit(rest % 10));
      rest := rest / 10;
      i := i + 1;
    }
  }

  /** The second loop: reverses the first n characters in place. */
  method ReversePrefix(b: array<char>, n: nat)
    requires n <= b.Length
    modifies b
    ensures b[..n] == Reversed(old(b[..n]))
    ensures forall j :: n <= j < b.Length ==> b[j] == old(b[j])
  {
    var i1 := 0;
    while i1 < n / 2
      invariant i1 <= n / 2
      invariant forall j :: 0 <= j < i1 ==> b[j] == old(b[n - 1 - j]) && b[n - 1 - j] == old(b[j])
      invariant forall j :: i1 <= j < n - i1 ==> b[j] == old(b[j])
      invariant forall j :: n <= j < b.Length ==> b[j] == old(b[j])
    {
      var c := b[i1];
      b[i1] := b[n - i1 - 1];
      b[n - i1 - 1] := c;
      i1 := i1 + 1;
    }
    forall j | 0 <= j < n ensures b[j] == old(b[n - 1 - j]) {
      if j >= n / 2 && n - 1 - j < n / 2 {
        assert b[n - 1 - (n - 1 - j)] == old(b[n - 1 - j]);
      }
    }
  }

  method Strlen(a: array<char>) returns (i: nat)
    requires exists k :: 0 <= k < a.Length && a[k] == '\0'
    ensures i < a.Length && a[i] == '\0' && '\0' !in a[..i]
  {
    ghost var k :| 0 <= k < a.Length && a[k] == '\0';
    i := 0;
    while a[i] != '\0'
      invariant i <= k && '\0' !in a[..i]
      decreases k - i
    {
      i := i + 1;
    }
  }

  // ---- the text ---------------------------------------------------------

  function Parse(s: string): int {
    if s == "" then 0 else 10 * Parse(s[..|s| - 1]) + (s[|s| - 1] as int - '0' as int)
  }

  lemma {:induction false} DigitsParse(a: nat)
    ensures Parse(Digits(a)) == a
  {
    if a > 0 {
      DigitsParse(a / 10);
      assert Digits(a)[..|Digits(a)| - 1] == Digits(a / 10);
    }
  }

  lemma {:induction false} DigitsAreDigits(a: nat)
    ensures forall j :: 0 <= j < |Digits(a)| ==> '0' <= Digits(a)[j] <= '9'
  {
    if a > 0 {
      DigitsAreDigits(a / 10);
    }
  }

  lemma {:induction false} NoLeadingZero(a: nat)
    requires a > 0
    ensures Digits(a) != "" && Digits(a)[0] != '0'
  {
    if a / 10 > 0 {
      NoLeadingZero(a / 10);
      assert Digits(a)[0] == Digits(a / 10)[0];
    }
  }

  function Pow10(k: nat): nat {
    if k == 0 then 1 else 10 * Pow10(k - 1)
  }

  lemma {:induction false} DigitsLength(a: nat, k: nat)
    ensures |Digits(a)| <= k <==> a < Pow10(k)
    decreases k
  {
    if a > 0 && k > 0 {
      DigitsLength(a / 10, k - 1);
    } else if a > 0 {
      NoLeadingZero(a);
    } else {
      PowPositive(k);
    }
  }

  lemma {:induction false} PowPositive(k: nat)
    ensures Pow10(k) > 0
  {
    if k > 0 {
      PowPositive(k - 1);
    }
  }

  /** Every non-negative int fits eleven characters with its terminator, reads back as itself,
      and has no leading zero but for 0. */
  lemma TextReadsBack(a: int)
    requires 0 <= a < 0x8000_0000
    ensures Parse(Text(a)) == a && 1 <= |Text(a)| <= 10
    ensures (forall j :: 0 <= j < |Text(a)| ==> '0' <= Text(a)[j] <= '9') && (a != 0 ==> Text(a)[0] != '0')
  {
    DigitsParse(a);
    DigitsAreDigits(a);
    assert Pow10(10) == 10_000_000_000;
    DigitsLength(a, 10);
    if a == 0 {
      assert Text(0)[..0] == "";
    } else {
      NoLeadingZero(a);
    }
  }

  /** itoa, then strlen: the number of digits. */
  method DigitCount(a: int) returns (n: nat)
    requires 0 <= a < 0x8000_0000
    ensures n == |Text(a)|
  {
    TextReadsBack(a);
    var b := new char[11](_ => ' ');
    Itoa(a, b);
    forall j | 0 <= j < |Text(a)| ensures b[j] != '\0' {
      assert b[..|Text(a)|][j] == Text(a)[j];
    }
    n := Strlen(b);
    assert forall j :: 0 <= j < n ==> b[j] == b[..n][j];
  }
}
