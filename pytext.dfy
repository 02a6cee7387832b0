/** The few Python built-ins the plugin relies on, written out: `str(int)`,
    the slice `s[:n]`, substring test `a in b` and the truthiness of a string. */
module PyText {

  /** Decimal digits, most significant first, as Python's `str` prints a
      non-negative integer; read back as a decimal numeral they give `n` (`NatToStrValue`). */
  function NatToStr(n: nat): (s: string)
    ensures |s| >= 1
    ensures forall i :: 0 <= i < |s| ==> '0' <= s[i] <= '9'
    ensures (n < 10) == (|s| == 1)
  {
    if n < 10 then [Digit(n)] else NatToStr(n / 10) + [Digit(n % 10)]
  }

  /** The number a string of decimal digits denotes, most significant
      digit first. */
  function DecimalValue(s: string): int
  {
    if s == [] then 0
    else DecimalValue(s[..|s| - 1]) * 10 + (s[|s| - 1] as int - '0' as int)
  }

  /** The ASCII digit for `d`. */
  function Digit(d: nat): (c: char)
    requires d < 10
    ensures '0' <= c <= '9' && c as int - '0' as int == d
  {
    ('0' as int + d) as char
  }

  /** Python's `str(i)` for an integer. */
  function IntToStr(i: int): string
  {
    if i < 0 then "-" + NatToStr(-i) else NatToStr(i)
  }

  /** Read back as a decimal numeral, `str(n)` gives `n`. */
  lemma {:induction false} NatToStrValue(n: nat)
    ensures DecimalValue(NatToStr(n)) == n
  {
    if n >= 10 {
      var s := NatToStr(n);
      assert s[..|s| - 1] == NatToStr(n / 10);
      NatToStrValue(n / 10);
    }
  }

  /** No leading zero: `str(n)` starts with `0` only for `n == 0`. */
  lemma {:induction false} NoLeadingZero(n: nat)
    ensures NatToStr(n)[0] == '0' ==> n == 0
  {
    if n >= 10 {
      NoLeadingZero(n / 10);
      assert NatToStr(n)[0] == NatToStr(n / 10)[0];
    }
  }

  /** The decimal numeral determines the number it prints. */
  lemma NatToStrInjective(a: nat, b: nat)
    requires NatToStr(a) == NatToStr(b)
    ensures a == b
  {
    NatToStrValue(a);
    NatToStrValue(b);
  }

  /** Distinct subject ids print as distinct strings, so the `bgm`
      identifier determines the subject id. */
  lemma IntToStrInjective(a: int, b: int)
    requires IntToStr(a) == IntToStr(b)
    ensures a == b
  {
    SignMark(a);
    SignMark(b);
    if a < 0 {
      assert IntToStr(a)[1..] == NatToStr(-a);
      assert IntToStr(b)[1..] == NatToStr(-b);
      NatToStrInjective(-a, -b);
    } else {
      NatToStrInjective(a, b);
    }
  }

  /** Only negative numbers print with a leading minus sign. */
  lemma SignMark(i: int)
    ensures |IntToStr(i)| >= 1 && (IntToStr(i)[0] == '-' <==> i < 0)
  {
    if i >= 0 {
      assert '0' <= NatToStr(i)[0];
    }
  }

  /** Python's `s[:n]`: a negative bound counts from the end. */
  function SliceTo<T>(s: seq<T>, n: int): (r: seq<T>)
    ensures |r| <= |s| && r == s[..|r|]
    ensures n >= 0 ==> |r| == if n <= |s| then n else |s|
    ensures n < 0 ==> |r| == if |s| + n >= 0 then |s| + n else 0
  {
    if n >= 0 then (if n <= |s| then s[..n] else s)
    else (if |s| + n >= 0 then s[..|s| + n] else [])
  }

  predicate StartsWith(s: string, prefix: string)
  {
    |prefix| <= |s| && s[..|prefix|] == prefix
  }

  /** Python's `needle in hay` on strings. */
  predicate Contains(hay: string, needle: string)
    decreases |hay|
  {
    StartsWith(hay, needle) || (|hay| > 0 && Contains(hay[1..], needle))
  }

  /** Truthiness of a Python string: non-empty. */
  predicate Truthy(s: string)
  {
    s != ""
  }
}
