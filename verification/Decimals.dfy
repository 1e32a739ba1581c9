/** Decimal numbers as text: what `%u` prints and what the tokenizers read back. */
module Decimals {

  predicate IsDigit(c: char) {
    '0' <= c <= '9'
  }

  predicate IsSpace(c: char) {
    c == ' ' || '\t' <= c <= '\r'
  }

  function DigitOf(n: nat): char
    requires n < 10
  {
    (n as char) + '0'
  }

  function ValueOf(c: char): (v: nat)
    requires IsDigit(c)
    ensures v < 10
  {
    (c as int) - ('0' as int)
  }

  /** `%u`. */
  function Dec(n: nat): (s: string)
    ensures s != []
    ensures forall i :: 0 <= i < |s| ==> IsDigit(s[i])
  {
    if n < 10 then [DigitOf(n)] else Dec(n / 10) + [DigitOf(n % 10)]
  }

  /** Reading digits from the left into a 32-bit unsigned variable, which wraps around. */
  function Read(acc: nat, s: string): nat
    requires forall i :: 0 <= i < |s| ==> IsDigit(s[i])
    decreases |s|
  {
    if s == [] then acc else Read((acc * 10 + ValueOf(s[0])) % 0x1_0000_0000, s[1..])
  }

  lemma {:induction false} ReadSnoc(acc: nat, s: string, c: char)
    requires (forall i :: 0 <= i < |s| ==> IsDigit(s[i])) && IsDigit(c)
    ensures Read(acc, s + [c]) == (Read(acc, s) * 10 + ValueOf(c)) % 0x1_0000_0000
    decreases |s|
  {
    if s == [] {
      assert (s + [c])[1..] == [];
    } else {
      assert (s + [c])[0] == s[0] && (s + [c])[1..] == s[1..] + [c];
      ReadSnoc((acc * 10 + ValueOf(s[0])) % 0x1_0000_0000, s[1..], c);
    }
  }

  /** Every 32-bit number is read back from its decimals. */
  lemma {:induction false} ReadDec(n: nat)
    requires n < 0x1_0000_0000
    ensures Read(0, Dec(n)) == n
  {
    if n < 10 {
      assert Dec(n)[1..] == [];
    } else {
      var q, d := n / 10, n % 10;
      ReadDec(q);
      ReadSnoc(0, Dec(q), DigitOf(d));
      assert Dec(n) == Dec(q) + [DigitOf(d)];
      hide Read, Dec;
      assert q * 10 + d == n;
    }
  }

  lemma {:induction false} DecLength(n: nat, k: nat, bound: nat)
    requires n < bound && k > 0 && bound == Pow10(k)
    ensures |Dec(n)| <= k
    decreases k
  {
    if n >= 10 {
      DecLength(n / 10, k - 1, Pow10(k - 1));
    }
  }

  function Pow10(k: nat): nat {
    if k == 0 then 1 else 10 * Pow10(k - 1)
  }

  lemma DecLengths(n: nat)
    ensures n < 0x1_0000_0000 ==> |Dec(n)| <= 10
    ensures n < 100_000 ==> |Dec(n)| <= 5
    ensures n >= 10_000 ==> |Dec(n)| >= 5
    ensures n < 10_000 ==> |Dec(n)| <= 4
  {
    assert Pow10(4) == 10_000 && Pow10(5) == 100_000;
    assert Pow10(10) == 10_000_000_000 by {
      assert Pow10(6) == 1_000_000 && Pow10(7) == 10_000_000 && Pow10(8) == 100_000_000 && Pow10(9) == 1_000_000_000;
    }
    if n < 10_000 {
      DecLength(n, 4, 10_000);
    } else {
      assert |Dec(n / 10)| >= 4 by {
        assert |Dec(n / 100)| >= 3 by {
          assert |Dec(n / 1000)| >= 2;
        }
      }
    }
    if n < 100_000 {
      DecLength(n, 5, 100_000);
    }
    if n < 0x1_0000_0000 {
      DecLength(n, 10, 10_000_000_000);
    }
  }

  /** Decimal figures, the last one at the end. */
  lemma {:induction false} DecMeans(n: nat)
    ensures n < 10 ==> Dec(n) == ["0123456789"[n]]
    ensures n >= 10 ==> Dec(n) == Dec(n / 10) + ["0123456789"[n % 10]]
  {
    FigureMeans(n % 10);
  }

  lemma {:induction false} FigureMeans(n: nat)
    requires n < 10
    ensures DigitOf(n) == "0123456789"[n]
  {
  }
}
