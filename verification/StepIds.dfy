/** Numerals as JavaScript prints them, and the step ids built from them. */
module Numerals {

  const DIGITS := "0123456789abcdef"

  lemma Division(n: nat, base: nat)
    requires base >= 2
    ensures 0 <= n / base && 0 <= n % base < base && n == n / base * base + n % base
    ensures n >= base ==> n / base < n
  {
  }

  function Digit(d: nat, base: nat): (c: char)
    requires d < base <= 16
    ensures c in DIGITS[..base] && c == DIGITS[d]
  {
    assert DIGITS[d] == DIGITS[..base][d];
    DIGITS[d]
  }

  /** Number.prototype.toString(base) on a non-negative integer. */
  function Print(n: nat, base: nat): (s: string)
    requires 2 <= base <= 16
    ensures |s| >= 1
    ensures forall i :: 0 <= i < |s| ==> s[i] in DIGITS[..base]
  {
    if n < base then [Digit(n, base)]
    else
      Division(n, base);
      Print(n / base, base) + [Digit(n % base, base)]
  }

  function DigitValue(c: char): (d: nat)
    ensures d < 16
    ensures c in DIGITS ==> DIGITS[d] == c
  {
    if '0' <= c <= '9' then c as nat - '0' as nat
    else if 'a' <= c <= 'f' then c as nat - 'a' as nat + 10
    else 0
  }

  /** The number a numeral stands for. */
  function Parse(s: string, base: nat): nat {
    if s == "" then 0 else Parse(s[..|s| - 1], base) * base + DigitValue(s[|s| - 1])
  }

  lemma {:induction false} ParsePrint(n: nat, base: nat)
    requires 2 <= base <= 16
    ensures Parse(Print(n, base), base) == n
  {
    if n < base {
      DigitRoundTrip(n);
      assert Print(n, base)[..0] == "";
    } else {
      var q, d := n / base, n % base;
      Division(n, base);
      ParsePrint(q, base);
      ParseDigit(Print(q, base), d, base);
    }
  }

  lemma ParseDigit(s: string, d: nat, base: nat)
    requires d < base <= 16
    ensures Parse(s + [Digit(d, base)], base) == Parse(s, base) * base + d
  {
    DigitRoundTrip(d);
    ParseSnoc(s, Digit(d, base), base);
  }

  lemma DigitRoundTrip(d: nat)
    requires d < 16
    ensures DigitValue(DIGITS[d]) == d
  {
  }

  lemma ParseSnoc(s: string, c: char, base: nat)
    ensures Parse(s + [c], base) == Parse(s, base) * base + DigitValue(c)
  {
    assert (s + [c])[..|s|] == s;
  }

  // ----- padStart(width, '0') -----

  function Zeros(n: nat): (s: string)
    ensures |s| == n
    ensures forall c :: c in s ==> c == '0'
  {
    if n == 0 then "" else "0" + Zeros(n - 1)
  }

  function Pad(s: string, width: nat): string {
    if |s| >= width then s else Zeros(width - |s|) + s
  }

  function Power(base: nat, n: nat): nat {
    if n == 0 then 1 else base * Power(base, n - 1)
  }

  lemma DivisionBelow(n: nat, base: nat, bound: nat)
    requires base >= 2 && n < base * bound
    ensures n / base < bound
  {
    Division(n, base);
    MultiplyMonotone(bound, n / base, base);
  }

  lemma MultiplyMonotone(a: nat, b: nat, c: nat)
    ensures a <= b ==> a * c <= b * c
  {
  }

  lemma {:induction false} PrintLength(n: nat, base: nat, width: nat)
    requires 2 <= base <= 16 && 1 <= width && n < Power(base, width)
    ensures |Print(n, base)| <= width
  {
    assert Power(base, 0) == 1 && Power(base, 1) == base;
    if n >= base {
      Division(n, base);
      DivisionBelow(n, base, Power(base, width - 1));
      PrintLength(n / base, base, width - 1);
    }
  }

  lemma {:induction false} ParseZeros(n: nat, s: string, base: nat)
    ensures Parse(Zeros(n) + s, base) == Parse(s, base)
    decreases n + |s|
  {
    if s != "" {
      ParseZeros(n, s[..|s| - 1], base);
      assert (Zeros(n) + s)[..|Zeros(n) + s| - 1] == Zeros(n) + s[..|s| - 1];
    } else if n > 0 {
      assert Zeros(n) + s == Zeros(n);
      ZerosSnoc(n - 1);
      ParseSnoc(Zeros(n - 1), '0', base);
      ParseZeros(n - 1, "", base);
      assert Zeros(n - 1) + "" == Zeros(n - 1);
    }
  }

  lemma {:induction false} ZerosSnoc(n: nat)
    ensures Zeros(n + 1) == Zeros(n) + ['0']
  {
    if n > 0 {
      ZerosSnoc(n - 1);
    }
  }

  /** A padded numeral still parses to its number and has exactly the padded width when it fits. */
  lemma PadRoundTrip(n: nat, base: nat, width: nat)
    requires 2 <= base <= 16 && 1 <= width && n < Power(base, width)
    ensures |Pad(Print(n, base), width)| == width
    ensures Parse(Pad(Print(n, base), width), base) == n
  {
    PrintLength(n, base, width);
    ParsePrint(n, base);
    PadParses(Print(n, base), base, width);
  }

  lemma PadParses(s: string, base: nat, width: nat)
    requires |s| <= width
    ensures |Pad(s, width)| == width && Parse(Pad(s, width), base) == Parse(s, base)
  {
    if |s| < width {
      ParseZeros(width - |s|, s, base);
    }
  }

  /** The last digit of a padded numeral comes off like the last digit of the number. */
  lemma PadSnoc(n: nat, q: nat, d: nat, base: nat, width: nat)
    requires 2 <= base <= 16 && width >= 2 && d < base && n / base == q && n % base == d
    ensures Pad(Print(n, base), width) == Pad(Print(q, base), width - 1) + [DIGITS[d]]
  {
    if n < base {
      QuotientZero(n, base);
      ZerosSnoc(width - 2);
      assert Print(0, base) == ['0'];
      assert Pad(['0'], width - 1) == Zeros(width - 1);
    } else {
      PadLonger(Print(q, base), DIGITS[d], width);
    }
  }

  lemma PadLonger(s: string, c: char, width: nat)
    requires width >= 2
    ensures Pad(s + [c], width) == Pad(s, width - 1) + [c]
  {
    assert forall n: nat :: Zeros(n) + (s + [c]) == Zeros(n) + s + [c];
  }

  lemma QuotientZero(n: nat, base: nat)
    requires base >= 2 && n < base
    ensures n / base == 0 && n % base == n
  {
  }

  lemma PrintInjective(m: nat, n: nat, base: nat)
    requires 2 <= base <= 16
    requires Print(m, base) == Print(n, base)
    ensures m == n
  {
    ParsePrint(m, base);
    ParsePrint(n, base);
  }

  /** Two texts joined by a separator that the right parts avoid are equal only part by part. */
  lemma SplitAtLast(a: string, b: string, c: string, d: string, sep: char)
    requires a + [sep] + b == c + [sep] + d
    requires sep !in b && sep !in d
    ensures a == c && b == d
  {
    var s, t := a + [sep] + b, c + [sep] + d;
    assert s[|a|] == sep && t[|c|] == sep;
    assert forall i :: |a| < i < |s| ==> s[i] == b[i - |a| - 1];
    assert forall i :: |c| < i < |t| ==> t[i] == d[i - |c| - 1];
    assert |a| == |c|;
    assert a == s[..|a|] && c == t[..|c|];
    assert b == s[|a| + 1..] && d == t[|c| + 1..];
  }

  /** The mirror image: a separator that the left parts avoid. */
  lemma SplitAtFirst(a: string, b: string, c: string, d: string, sep: char)
    requires a + [sep] + b == c + [sep] + d
    requires sep !in a && sep !in c
    ensures a == c && b == d
  {
    var s, t := a + [sep] + b, c + [sep] + d;
    assert s[|a|] == sep && t[|c|] == sep;
    assert forall i :: 0 <= i < |a| ==> s[i] == a[i];
    assert forall i :: 0 <= i < |c| ==> t[i] == c[i];
    assert |a| == |c|;
    assert a == s[..|a|] && c == t[..|c|];
    assert b == s[|a| + 1..] && d == t[|c| + 1..];
  }
}

module StepIds {
  import opened Numerals

  /** The id of the call number `sequence` (from 0) of a step called `name`. */
  function StepIdFor(name: string, sequence: nat): string {
    if sequence == 0 then name else name + "#" + Print(sequence + 1, 10)
  }

  /** Calls `(name, sequence)` and `(other, again)` whose ids clash although they are different calls. */
  predicate Clash(name: string, sequence: nat, other: string, again: nat) {
    sequence == 0 && again > 0 && name == other + "#" + Print(again + 1, 10)
  }

  lemma SuffixesAgree(name: string, m: nat, other: string, n: nat)
    requires name + "#" + Print(m, 10) == other + "#" + Print(n, 10)
    ensures name == other && m == n
  {
    assert '#' !in DIGITS[..10];
    SplitAtLast(name, Print(m, 10), other, Print(n, 10), '#');
    PrintInjective(m, n, 10);
  }

  /** Exactly when two calls get one step id: they are the same call, or one of the names spells the other's suffix. */
  lemma StepIdCollision(name: string, sequence: nat, other: string, again: nat)
    ensures StepIdFor(name, sequence) == StepIdFor(other, again) <==>
            (name == other && sequence == again)
            || Clash(name, sequence, other, again) || Clash(other, again, name, sequence)
  {
    var p, q := Print(sequence + 1, 10), Print(again + 1, 10);
    if sequence > 0 && again > 0 {
      if name + "#" + p == other + "#" + q {
        SuffixesAgree(name, sequence + 1, other, again + 1);
      }
    } else if sequence == 0 && again == 0 {
    } else {
      assert name != name + "#" + p by { assert |name + "#" + p| > |name|; }
      assert other != other + "#" + q by { assert |other + "#" + q| > |other|; }
    }
  }

  /** Names without `#` never clash, so then the id determines the call. */
  lemma PlainNamesNeverClash(name: string, sequence: nat, other: string, again: nat)
    requires '#' !in name && '#' !in other
    ensures StepIdFor(name, sequence) == StepIdFor(other, again) <==> name == other && sequence == again
  {
    StepIdCollision(name, sequence, other, again);
    assert '#' in other + "#" + Print(again + 1, 10);
    assert '#' in name + "#" + Print(sequence + 1, 10);
  }

  lemma OnlyOnePrintsAsOne(n: nat)
    ensures Print(n, 10) == "1" ==> n == 1
  {
    ParsePrint(n, 10);
    assert "1"[..0] == "" && Parse("1", 10) == 1;
  }

  /** The suffix `#1` never occurs: the first call has no suffix and later ones count from 2. */
  lemma NoSuffixOne(name: string, sequence: nat)
    ensures StepIdFor(name, sequence) != name + "#1"
  {
    var p := Print(sequence + 1, 10);
    OnlyOnePrintsAsOne(sequence + 1);
    assert '#' !in DIGITS[..10];
    if sequence == 0 {
      assert |name + "#1"| > |name|;
    } else if StepIdFor(name, sequence) == name + "#1" {
      assert name + "#" + p == name + ['#'] + p && name + "#1" == name + ['#'] + "1";
      SplitAtLast(name, p, name, "1", '#');
    }
  }

  /** A name that spells a suffix really does share its id with another call. */
  lemma HashNamesCanClash()
    ensures StepIdFor("send#2", 0) == StepIdFor("send", 1)
  {
    assert Print(2, 10) == "2";
  }
}
