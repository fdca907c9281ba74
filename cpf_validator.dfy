/**
 * The CPF (Cadastro de Pessoas Fisicas) checksum rule.
 *
 * A CPF is eleven decimal digits; the last two are check digits computed from
 * the ones before them. The validator first drops every character that is not
 * an ASCII digit, rejects anything that is not eleven digits long or that
 * repeats a single digit, and then recomputes both check digits.
 *
 * The rule is stated here once as a specification (IsValidCpf, built on
 * WithCheckDigits), and the validator's own loops (ValidateCpf) are proved to
 * compute it.
 */
module CpfValidator {

  /** An ASCII decimal digit, the class `\d` matches. */
  predicate IsDigit(c: char) {
    '0' <= c <= '9'
  }

  predicate AllDigits(s: string) {
    forall i | 0 <= i < |s| :: IsDigit(s[i])
  }

  /** The numeric value of a digit character (what parseInt gives for it). */
  function DigitValue(c: char): (v: nat)
    requires IsDigit(c)
    ensures v <= 9
  {
    c as int - '0' as int
  }

  /** The digit character of a value 0..9. */
  function DigitChar(v: nat): (c: char)
    requires v <= 9
    ensures IsDigit(c) && DigitValue(c) == v
  {
    ('0' as int + v) as char
  }

  lemma DigitCharOfValue(c: char)
    requires IsDigit(c)
    ensures DigitChar(DigitValue(c)) == c
  {
  }

  /** The input with every character that is not an ASCII digit removed. */
  function Strip(s: string): (r: string)
    ensures AllDigits(r)
    ensures |r| <= |s|
  {
    if s == [] then []
    else (if IsDigit(s[0]) then [s[0]] else []) + Strip(s[1..])
  }

  /** The effect of the pattern `^(\d)\1+$`: at least two characters, all one digit. */
  function AllSameDigit(d: string): (same: bool)
    ensures same ==> AllDigits(d)
  {
    |d| >= 2 && IsDigit(d[0]) && forall i | 0 <= i < |d| :: d[i] == d[0]
  }

  /** Sum of DigitValue(d[i]) * (top - i) over the first n positions i of d. */
  function Weighted(d: string, n: nat, top: int): (sum: int)
    requires AllDigits(d) && n <= |d| && top >= n
    ensures sum >= 0
  {
    if n == 0 then 0 else Weighted(d, n - 1, top) + DigitValue(d[n - 1]) * (top - (n - 1))
  }

  /** Sum of the weights top, top - 1, ..., top - n + 1. */
  function WeightTotal(n: nat, top: int): int {
    if n == 0 then 0 else WeightTotal(n - 1, top) + (top - (n - 1))
  }

  /**
   * The check digit of a weighted sum: 11 minus the remainder modulo 11,
   * where 10 and 11 both become 0. Apart from that collapse, it is the digit
   * that makes the sum plus the digit a multiple of 11.
   */
  function CheckDigitOf(sum: nat): (v: nat)
    ensures v <= 9
    ensures sum % 11 <= 1 ==> v == 0
    ensures sum % 11 > 1 ==> (sum + v) % 11 == 0
  {
    var r := 11 - sum % 11;
    if r >= 10 then 0 else r
  }

  /** The check digit of the first n digits of d, weighting them n + 1 down to 2. */
  function CheckDigit(d: string, n: nat): (v: nat)
    requires AllDigits(d) && n <= |d|
    ensures v <= 9
    ensures Weighted(d, n, n + 1) % 11 <= 1 ==> v == 0
    ensures Weighted(d, n, n + 1) % 11 > 1 ==> (Weighted(d, n, n + 1) + v) % 11 == 0
  {
    CheckDigitOf(Weighted(d, n, n + 1))
  }

  /**
   * Eleven digits where digit 9 is the check digit of digits 0..8 (weights
   * 10 - i) and digit 10 the check digit of digits 0..9 (weights 11 - i).
   */
  function PassesChecksums(d: string): (passes: bool)
    ensures passes ==> |d| == 11 && AllDigits(d)
    ensures passes ==> (Weighted(d, 9, 10) + DigitValue(d[9])) % 11 <= 1
    ensures passes ==> (Weighted(d, 10, 11) + DigitValue(d[10])) % 11 <= 1
  {
    && |d| == 11 && AllDigits(d)
    && DigitValue(d[9]) == CheckDigit(d, 9)
    && DigitValue(d[10]) == CheckDigit(d, 10)
  }

  /**
   * The CPF rule on an arbitrary input string. Equivalently: the digits of a
   * valid input are eleven, not all the same, and are their first nine digits
   * followed by those digits' two check digits.
   */
  function IsValidCpf(input: string): (valid: bool)
    ensures valid ==> |input| >= 11
    ensures valid <==> var d := Strip(input);
      |d| == 11 && !AllSameDigit(d) && d == WithCheckDigits(d[..9])
  {
    var d := Strip(input);
    if |d| == 11 then
      ChecksumsIffCompletion(d);
      !AllSameDigit(d) && PassesChecksums(d)
    else
      false
  }

  /**
   * The validator as the handler calls it: normalise, reject on length or a
   * repeated digit, then accumulate the two weighted sums in loops and compare
   * each verifier with its digit, stopping at the first mismatch.
   */
  method ValidateCpf(input: string) returns (valid: bool)
    ensures valid == IsValidCpf(input)
  {
    var cpf := Strip(input);
    if |cpf| != 11 || AllSameDigit(cpf) {
      return false;
    }

    var sum := 0;
    for i := 0 to 9
      invariant sum == Weighted(cpf, i, 10)
    {
      sum := sum + DigitValue(cpf[i]) * (10 - i);
    }
    var firstVerifier := 11 - sum % 11;
    if firstVerifier >= 10 {
      firstVerifier := 0;
    }
    if firstVerifier != DigitValue(cpf[9]) {
      return false;
    }

    sum := 0;
    for i := 0 to 10
      invariant sum == Weighted(cpf, i, 11)
    {
      sum := sum + DigitValue(cpf[i]) * (11 - i);
    }
    var secondVerifier := 11 - sum % 11;
    if secondVerifier >= 10 {
      secondVerifier := 0;
    }
    valid := secondVerifier == DigitValue(cpf[10]);
  }

  // ---------------------------------------------------------------------
  // Weighted sums

  /** A weighted sum over the first n digits sees only those digits. */
  lemma {:induction false} WeightedPrefix(d: string, m: nat, n: nat, top: int)
    requires AllDigits(d) && n <= m <= |d| && top >= n
    ensures AllDigits(d[..m])
    ensures Weighted(d[..m], n, top) == Weighted(d, n, top)
  {
    if n > 0 {
      WeightedPrefix(d, m, n - 1, top);
      assert d[..m][n - 1] == d[n - 1];
    }
  }

  /** Every digit is at most 9, so a weighted sum is at most 9 times its weights. */
  lemma {:induction false} WeightedBound(d: string, n: nat, top: int)
    requires AllDigits(d) && n <= |d| && top >= n
    ensures Weighted(d, n, top) <= 9 * WeightTotal(n, top)
  {
    if n > 0 {
      WeightedBound(d, n - 1, top);
      var v, w := DigitValue(d[n - 1]), top - (n - 1);
      MulAtMostNine(v, w);
      assert Weighted(d, n, top) == Weighted(d, n - 1, top) + v * w;
      assert WeightTotal(n, top) == WeightTotal(n - 1, top) + w;
    }
  }

  lemma MulAtMostNine(v: int, w: int)
    requires 0 <= v <= 9 && w >= 0
    ensures v * w <= 9 * w
  {
  }

  /** Bounds of the two sums the validator accumulates: 9 * 54 and 9 * 65. */
  lemma SumBounds(d: string)
    requires |d| == 11 && AllDigits(d)
    ensures Weighted(d, 9, 10) <= 486
    ensures Weighted(d, 10, 11) <= 585
  {
    WeightedBound(d, 9, 10);
    WeightedBound(d, 10, 11);
    assert WeightTotal(9, 10) == 54;
    assert WeightTotal(10, 11) == 65;
  }

  // ---------------------------------------------------------------------
  // Normalisation

  /** Stripping distributes over concatenation. */
  lemma {:induction false} StripAppend(a: string, b: string)
    ensures Strip(a + b) == Strip(a) + Strip(b)
  {
    if a != [] {
      var head := if IsDigit(a[0]) then [a[0]] else [];
      assert (a + b)[0] == a[0];
      assert (a + b)[1..] == a[1..] + b;
      StripAppend(a[1..], b);
      calc {
        Strip(a + b);
        head + Strip(a[1..] + b);
        head + (Strip(a[1..]) + Strip(b));
        (head + Strip(a[1..])) + Strip(b);
        Strip(a) + Strip(b);
      }
    } else {
      assert a + b == b;
    }
  }

  /** A string of digits is its own normal form. */
  lemma {:induction false} StripDigits(d: string)
    requires AllDigits(d)
    ensures Strip(d) == d
  {
    if d != [] {
      StripDigits(d[1..]);
    }
  }

  /** A character that is not a digit normalises to nothing. */
  lemma StripNonDigit(c: char)
    requires !IsDigit(c)
    ensures Strip([c]) == []
  {
  }

  /** Validity depends only on the digits: removing a non-digit changes nothing. */
  lemma NonDigitIgnored(a: string, c: char, b: string)
    requires !IsDigit(c)
    ensures IsValidCpf(a + [c] + b) == IsValidCpf(a + b)
  {
    StripAppend(a + [c], b);
    StripAppend(a, [c]);
    StripAppend(a, b);
    StripNonDigit(c);
    assert Strip(a + [c] + b) == Strip(a + b);
  }

  /** Validating the normalised input gives the same answer. */
  lemma ValidOnDigitsOnly(input: string)
    ensures IsValidCpf(Strip(input)) == IsValidCpf(input)
  {
    StripDigits(Strip(input));
  }

  // ---------------------------------------------------------------------
  // Characterisation

  /** A base number followed by its first check digit and then its second. */
  function WithCheckDigits(base: string): (d: string)
    requires AllDigits(base)
    ensures |d| == |base| + 2 && AllDigits(d) && d[..|base|] == base
  {
    var withFirst := base + [DigitChar(CheckDigit(base, |base|))];
    assert withFirst[..|base|] == base;
    withFirst + [DigitChar(CheckDigit(withFirst, |withFirst|))]
  }

  /**
   * The checksums accept exactly the completions: eleven digits pass both
   * checksums if and only if they are their first nine digits followed by
   * those digits' two check digits.
   */
  lemma ChecksumsIffCompletion(d: string)
    requires |d| == 11 && AllDigits(d)
    ensures PassesChecksums(d) <==> d == WithCheckDigits(d[..9])
  {
    var base := d[..9];
    var withFirst := base + [DigitChar(CheckDigit(base, 9))];
    var w := withFirst + [DigitChar(CheckDigit(withFirst, 10))];
    assert w == WithCheckDigits(base);
    WeightedPrefix(d, 9, 9, 10);
    assert Weighted(base, 9, 10) == Weighted(d, 9, 10);
    DigitCharOfValue(d[9]);
    DigitCharOfValue(d[10]);
    if PassesChecksums(d) {
      assert withFirst == d[..10];
      WeightedPrefix(d, 10, 10, 11);
      assert forall i | 0 <= i < 11 :: d[i] == w[i];
      assert d == w;
    }
    if d == w {
      assert withFirst == d[..10];
      WeightedPrefix(d, 10, 10, 11);
    }
  }

  /** The weighted sum over a run of copies of one digit. */
  lemma {:induction false} WeightedRepeat(c: char, m: nat, n: nat, top: int)
    requires IsDigit(c) && n <= m && top >= n
    ensures AllDigits(seq(m, _ => c))
    ensures Weighted(seq(m, _ => c), n, top) == DigitValue(c) * WeightTotal(n, top)
  {
    if n > 0 {
      WeightedRepeat(c, m, n - 1, top);
      var k, w := DigitValue(c), top - (n - 1);
      assert seq(m, _ => c)[n - 1] == c;
      assert k * WeightTotal(n, top) == k * WeightTotal(n - 1, top) + k * w by {
        assert WeightTotal(n, top) == WeightTotal(n - 1, top) + w;
      }
    }
  }

  /** 54 and 65 are both -1 modulo 11, so a repeated digit is its own check digit. */
  lemma RepeatCheckDigit(k: nat)
    requires k <= 9
    ensures CheckDigitOf(k * 54) == k && CheckDigitOf(k * 65) == k
  {
  }

  /**
   * Every run of eleven equal digits passes both checksums; it is only the
   * explicit repeated-digit test that rejects 00000000000 .. 99999999999.
   */
  lemma RepeatedDigitsPassChecksums(c: char)
    requires IsDigit(c)
    ensures PassesChecksums(seq(11, _ => c))
    ensures !IsValidCpf(seq(11, _ => c))
  {
    var d := seq(11, _ => c);
    WeightedRepeat(c, 11, 9, 10);
    WeightedRepeat(c, 11, 10, 11);
    assert WeightTotal(9, 10) == 54;
    assert WeightTotal(10, 11) == 65;
    RepeatCheckDigit(DigitValue(c));
    StripDigits(d);
  }

  /**
   * Appending the two check digits to nine digits gives a valid CPF exactly
   * when the nine digits are not all the same.
   */
  lemma CompletionValid(base: string)
    requires |base| == 9 && AllDigits(base)
    ensures IsValidCpf(WithCheckDigits(base)) <==> !AllSameDigit(base)
  {
    var d := WithCheckDigits(base);
    StripDigits(d);
    ChecksumsIffCompletion(d);
    assert d[..9] == base;
    if AllSameDigit(base) {
      var r := seq(11, _ => base[0]);
      RepeatedDigitsPassChecksums(base[0]);
      ChecksumsIffCompletion(r);
      assert r[..9] == base;
      assert d == r;
    }
  }

  // ---------------------------------------------------------------------
  // Worked examples

  /** For 52998224725 the first sum is 295, whose check digit 2 is digit 9. */
  lemma ValidExampleFirstSum()
    ensures AllDigits("52998224725") && Weighted("52998224725", 9, 10) == 295
  {
  }

  /** For 52998224725 the second sum is 347, whose check digit 5 is digit 10. */
  lemma ValidExampleSecondSum()
    ensures AllDigits("52998224725") && Weighted("52998224725", 10, 11) == 347
  {
  }

  /** Both check digits of 52998224725 match. */
  lemma ValidExampleChecksums()
    ensures AllDigits("52998224725")
    ensures CheckDigit("52998224725", 9) == DigitValue("52998224725"[9])
    ensures CheckDigit("52998224725", 10) == DigitValue("52998224725"[10])
  {
    ValidExampleFirstSum();
    ValidExampleSecondSum();
  }

  lemma ValidExample()
    ensures IsValidCpf("52998224725")
  {
    var d := "52998224725";
    ValidExampleChecksums();
    StripDigits(d);
    assert d[1] != d[0];
  }

  /** The punctuated form of the same number is judged the same way. */
  lemma FormattedExample()
    ensures IsValidCpf("529.982.247-25") == IsValidCpf("52998224725")
  {
    NonDigitIgnored("529", '.', "982.247-25");
    assert "529" + ['.'] + "982.247-25" == "529.982.247-25";
    assert "529" + "982.247-25" == "529982.247-25";
    NonDigitIgnored("529982", '.', "247-25");
    assert "529982" + ['.'] + "247-25" == "529982.247-25";
    assert "529982" + "247-25" == "529982247-25";
    NonDigitIgnored("529982247", '-', "25");
    assert "529982247" + ['-'] + "25" == "529982247-25";
    assert "529982247" + "25" == "52998224725";
  }

  /** For 12345678900 the first sum is 210, whose check digit 0 is digit 9. */
  lemma InvalidExampleFirstSum()
    ensures AllDigits("12345678900") && Weighted("12345678900", 9, 10) == 210
  {
  }

  /** For 12345678900 the second sum is 255, whose check digit 9 is not digit 10. */
  lemma InvalidExampleSecondSum()
    ensures AllDigits("12345678900") && Weighted("12345678900", 10, 11) == 255
  {
  }

  /** The first check digit of 12345678900 matches; the second does not. */
  lemma InvalidExampleChecksums()
    ensures AllDigits("12345678900")
    ensures CheckDigit("12345678900", 9) == DigitValue("12345678900"[9])
    ensures CheckDigit("12345678900", 10) != DigitValue("12345678900"[10])
  {
    InvalidExampleFirstSum();
    InvalidExampleSecondSum();
  }

  lemma InvalidExample()
    ensures !IsValidCpf("12345678900")
  {
    InvalidExampleChecksums();
    StripDigits("12345678900");
  }
}
