/** The GB 11643-1999 identity-card number: 17 digits and an ISO 7064 MOD 11-2 check character. */
module IdCard {

  const WEIGHTS: seq<int> := [7, 9, 10, 5, 8, 4, 2, 1, 6, 3, 7, 9, 10, 5, 8, 4, 2]
  const CHECKS := "10X98765432"

  predicate IsDigit(c: char) {
    '0' <= c <= '9'
  }

  /** 17 ASCII digits and a final digit or X in either case. */
  predicate Shape(s: string) {
    && |s| == 18
    && (forall i :: 0 <= i < 17 ==> IsDigit(s[i]))
    && (IsDigit(s[17]) || s[17] == 'X' || s[17] == 'x')
  }

  /** The value a character stands for; X is ten in either case. */
  function CharValue(c: char): int {
    if IsDigit(c) then c as int - '0' as int else 10
  }

  /** 2^k * d, by doubling. */
  function Times2(k: nat, d: int): int {
    if k == 0 then d else 2 * Times2(k - 1, d)
  }

  /** Sum of 2^(17-i) * value over the first n positions i. */
  function WeightedSum(s: string, n: nat): int
    requires n <= |s| && n <= 18
  {
    if n == 0 then 0 else WeightedSum(s, n - 1) + Times2(18 - n, CharValue(s[n - 1]))
  }

  /** The standard's definition of a valid number. */
  predicate Valid(s: string) {
    Shape(s) && WeightedSum(s, 18) % 11 == 1
  }

  function Upper(c: char): char {
    if c == 'x' then 'X' else c
  }

  method IsValidIdcard(s: string) returns (ok: bool)
    ensures ok == Valid(s)
  {
    if !Shape(s) {
      return false;
    }
    var sum := 0;
    for i := 0 to 17
      invariant sum % 11 == WeightedSum(s, i) % 11
    {
      SumStep(s, i, sum);
      sum := sum + (s[i] as int - '0' as int) * WEIGHTS[i];
    }
    SumComplete(s, sum);
    ok := CHECKS[sum % 11] == Upper(s[17]);
  }

  lemma SumStep(s: string, i: nat, sum: int)
    requires Shape(s) && i < 17 && sum % 11 == WeightedSum(s, i) % 11
    ensures (sum + (s[i] as int - '0' as int) * WEIGHTS[i]) % 11 == WeightedSum(s, i + 1) % 11
  {
    WeightTable(17 - i, CharValue(s[i]));
    AddResidues(sum, WeightedSum(s, i), CharValue(s[i]) * WEIGHTS[i], Times2(17 - i, CharValue(s[i])));
  }

  lemma SumComplete(s: string, sum: int)
    requires Shape(s) && sum % 11 == WeightedSum(s, 17) % 11
    ensures CHECKS[sum % 11] == Upper(s[17]) <==> WeightedSum(s, 18) % 11 == 1
  {
    CheckCharacter(sum % 11, s[17]);
    AddResidues(sum % 11, WeightedSum(s, 17), CharValue(s[17]), CharValue(s[17]));
    assert WeightedSum(s, 18) == WeightedSum(s, 17) + Times2(0, CharValue(s[17]));
  }

  lemma AddResidues(a: int, b: int, c: int, d: int)
    requires a % 11 == b % 11 && c % 11 == d % 11
    ensures (a + c) % 11 == (b + d) % 11
  {
  }

  /** The table of check characters completes the sum to one. */
  lemma CheckCharacter(r: int, c: char)
    requires 0 <= r < 11 && (IsDigit(c) || c == 'X' || c == 'x')
    ensures CHECKS[r] == Upper(c) <==> (r + CharValue(c)) % 11 == 1
  {
  }

  function Residue(k: nat): int
    requires k < 18
  {
    [1, 2, 4, 8, 5, 10, 9, 7, 3, 6, 1, 2, 4, 8, 5, 10, 9, 7][k]
  }

  /** Doubling keeps to the residues 1, 2, 4, 8, 5, 10, 9, 7, 3, 6 and round again. */
  lemma {:induction false} ResidueOfPower(k: nat, d: int)
    requires k < 18
    ensures (Times2(k, d) - Residue(k) * d) % 11 == 0
  {
    if k > 0 {
      ResidueOfPower(k - 1, d);
      ResidueStep(k, d, Times2(k - 1, d));
    }
  }

  lemma ResidueStep(k: nat, d: int, x: int)
    requires 0 < k < 18
    requires (x - Residue(k - 1) * d) % 11 == 0
    ensures (2 * x - Residue(k) * d) % 11 == 0
  {
    var q := (x - Residue(k - 1) * d) / 11;
    var carry := if 2 * Residue(k - 1) == Residue(k) then 0 else 1;
    assert 2 * Residue(k - 1) == Residue(k) + 11 * carry;
    var r, s := Residue(k - 1), Residue(k);
    assert (2 * r) * d == (s + 11 * carry) * d == s * d + 11 * (carry * d);
    assert 2 * x - s * d == 11 * (2 * q + carry * d);
  }

  /** The weights of the table are the powers of two modulo 11, highest first. */
  lemma WeightTable(k: nat, d: int)
    requires 1 <= k <= 17
    ensures (d * WEIGHTS[17 - k]) % 11 == Times2(k, d) % 11
  {
    ResidueOfPower(k, d);
    assert WEIGHTS[17 - k] == Residue(k);
    SameResidue(Times2(k, d), Residue(k) * d);
  }

  lemma SameResidue(a: int, b: int)
    requires (a - b) % 11 == 0
    ensures a % 11 == b % 11
  {
  }

  // ---------- error detection ----------

  lemma {:induction false} Times2Linear(k: nat, a: int, b: int)
    ensures Times2(k, a - b) == Times2(k, a) - Times2(k, b)
  {
    if k > 0 {
      Times2Linear(k - 1, a, b);
    }
  }

  lemma {:induction false} Times2Adds(j: nat, k: nat, d: int)
    ensures Times2(j + k, d) == Times2(j, Times2(k, d))
  {
    if j > 0 {
      Times2Adds(j - 1, k, d);
    }
  }

  /** Eleven is prime to two, so no weight can hide a change that is not a multiple of 11. */
  lemma {:induction false} WeightIsInvertible(k: nat, d: int)
    requires Times2(k, d) % 11 == 0
    ensures d % 11 == 0
  {
    if k > 0 {
      var x := Times2(k - 1, d);
      var q := (2 * x) / 11;
      assert x == 11 * (6 * q - x);
      WeightIsInvertible(k - 1, d);
    }
  }

  lemma {:induction false} SumUnchanged(s: string, t: string, n: nat)
    requires |s| == |t| == 18 && n <= 18
    requires forall k :: 0 <= k < n ==> t[k] == s[k]
    ensures WeightedSum(t, n) == WeightedSum(s, n)
  {
    if n > 0 {
      SumUnchanged(s, t, n - 1);
    }
  }

  lemma {:induction false} SumChangedAt(s: string, t: string, i: nat, n: nat)
    requires |s| == |t| == 18 && i < n <= 18
    requires forall k :: 0 <= k < n && k != i ==> t[k] == s[k]
    ensures WeightedSum(t, n) - WeightedSum(s, n) == Times2(17 - i, CharValue(t[i]) - CharValue(s[i]))
  {
    if n == i + 1 {
      SumUnchanged(s, t, i);
      Times2Linear(17 - i, CharValue(t[i]), CharValue(s[i]));
    } else {
      SumChangedAt(s, t, i, n - 1);
    }
  }

  /** Changing the value of any one character of a valid number makes it invalid. */
  lemma SingleErrorDetected(s: string, i: nat, c: char)
    requires Valid(s) && i < 18
    requires CharValue(c) != CharValue(s[i])
    ensures !Valid(s[i := c])
  {
    var t := s[i := c];
    var d := CharValue(c) - CharValue(s[i]);
    assert -10 <= d <= 10 && d % 11 != 0;
    SumChangedAt(s, t, i, 18);
    DifferenceOfSums(WeightedSum(t, 18), WeightedSum(s, 18));
    if Times2(17 - i, d) % 11 == 0 {
      WeightIsInvertible(17 - i, d);
    }
  }

  lemma DifferenceOfSums(a: int, b: int)
    ensures (a - b) % 11 == 0 <==> a % 11 == b % 11
  {
  }

  function Swapped(s: string, i: nat, j: nat): string
    requires i < j < |s|
  {
    s[i := s[j]][j := s[i]]
  }

  lemma SwapChange(s: string, i: nat, j: nat)
    requires |s| == 18 && i < j < 18
    ensures var d := CharValue(s[j]) - CharValue(s[i]);
            WeightedSum(Swapped(s, i, j), 18) - WeightedSum(s, 18) == Times2(17 - j, Times2(j - i, d) - d)
  {
    var d := CharValue(s[j]) - CharValue(s[i]);
    var mid := s[i := s[j]];
    var t := Swapped(s, i, j);
    assert mid[i] == s[j] && mid[j] == s[j] && t[j] == s[i];
    assert WeightedSum(mid, 18) - WeightedSum(s, 18) == Times2(17 - i, d) by {
      SumChangedAt(s, mid, i, 18);
    }
    assert WeightedSum(t, 18) - WeightedSum(mid, 18) == Times2(17 - j, -d) by {
      SumChangedAt(mid, t, j, 18);
    }
    OppositeChanges(17 - j, j - i, d);
  }

  lemma OppositeChanges(k: nat, m: nat, d: int)
    ensures Times2(k + m, d) + Times2(k, -d) == Times2(k, Times2(m, d) - d)
  {
    Times2Linear(k, 0, d);
    Times2Linear(k, 0, 0);
    Times2Adds(k, m, d);
    Times2Linear(k, Times2(m, d), d);
  }

  /** Below 18 only ten doublings bring a small number back to itself modulo 11. */
  lemma DoublingsReturn(m: nat, d: int)
    requires 0 < m < 18 && -10 <= d <= 10 && d != 0
    ensures (Times2(m, d) - d) % 11 == 0 <==> m == 10
  {
    ResidueOfPower(m, d);
    var r := Residue(m);
    assert 1 <= r <= 10 && (r == 1 <==> m == 10);
    ShiftResidue(Times2(m, d), r * d, d);
    assert (r * d - d) % 11 == 0 <==> r == 1 by {
      NoZeroDivisors(r, d);
    }
  }

  lemma ShiftResidue(a: int, b: int, d: int)
    requires (a - b) % 11 == 0
    ensures (a - d) % 11 == 0 <==> (b - d) % 11 == 0
  {
  }

  lemma NoZeroDivisors(r: int, d: int)
    requires 1 <= r <= 10 && -10 <= d <= 10 && d != 0
    ensures (r * d - d) % 11 == 0 <==> r == 1
  {
    var e := r - 1;
    assert r * d - d == e * d;
    if e == 0 {} else if e == 1 {} else if e == 2 {} else if e == 3 {} else if e == 4 {}
    else if e == 5 {} else if e == 6 {} else if e == 7 {} else if e == 8 {} else {}
  }

  lemma SwapKeepsShape(s: string, i: nat, j: nat)
    requires Shape(s) && i < j < 18
    ensures Shape(Swapped(s, i, j)) <==> (j == 17 ==> IsDigit(s[17]))
  {
    assert Swapped(s, i, j)[i] == s[j] && Swapped(s, i, j)[j] == s[i];
  }

  /** Swapping two characters of different value goes unnoticed exactly when they stand ten
      places apart (equal weights) and no final X moves among the digits. In particular every
      swap of neighbours is caught. */
  lemma TranspositionDetected(s: string, i: nat, j: nat)
    requires Valid(s) && i < j < 18 && CharValue(s[i]) != CharValue(s[j])
    ensures Valid(Swapped(s, i, j)) <==> j - i == 10 && (j == 17 ==> IsDigit(s[17]))
  {
    var d := CharValue(s[j]) - CharValue(s[i]);
    var e := Times2(j - i, d) - d;
    assert -10 <= d <= 10;
    SwapKeepsShape(s, i, j);
    SwapChange(s, i, j);
    DoublingsReturn(j - i, d);
    DifferenceOfSums(WeightedSum(Swapped(s, i, j), 18), WeightedSum(s, 18));
    if Times2(17 - j, e) % 11 == 0 {
      WeightIsInvertible(17 - j, e);
    }
    if e % 11 == 0 {
      MultipleStays(17 - j, e);
    }
  }

  const EXAMPLE := "11010519491231002X"

  /** The loop's running sum over the example, one digit at a time. */
  const RUNNING: seq<int> := [0, 7, 16, 16, 21, 21, 41, 43, 52, 76, 103, 110, 128, 158, 163, 163, 163, 167]

  lemma RunningStep(n: nat)
    requires n < 17
    ensures IsDigit(EXAMPLE[n]) && RUNNING[n + 1] == RUNNING[n] + (EXAMPLE[n] as int - '0' as int) * WEIGHTS[n]
  {
  }

  lemma ExampleShape()
    ensures Shape(EXAMPLE)
  {
    forall n | 0 <= n < 17 ensures IsDigit(EXAMPLE[n]) {
      RunningStep(n);
    }
  }

  lemma {:induction false} ExampleSum(n: nat)
    requires n <= 17 && Shape(EXAMPLE)
    ensures RUNNING[n] % 11 == WeightedSum(EXAMPLE, n) % 11
  {
    if n > 0 {
      ExampleSum(n - 1);
      SumStep(EXAMPLE, n - 1, RUNNING[n - 1]);
      RunningStep(n - 1);
    }
  }

  /** A valid number whose second and twelfth digits differ and can be swapped unnoticed. */
  lemma UnnoticedSwap()
    ensures Valid(EXAMPLE) && CharValue(EXAMPLE[1]) != CharValue(EXAMPLE[11]) && Valid(Swapped(EXAMPLE, 1, 11))
  {
    ExampleShape();
    ExampleSum(17);
    SumComplete(EXAMPLE, RUNNING[17]);
    RunningStep(1);
    RunningStep(11);
    TranspositionDetected(EXAMPLE, 1, 11);
  }

  // ---------- which numbers there are ----------

  /** A valid number is 17 ASCII digits and one character more. */
  lemma ValidShape(s: string)
    requires Valid(s)
    ensures |s| == 18 && forall i :: 0 <= i < 17 ==> '0' <= s[i] <= '9'
  {
  }

  /** Any 17 digits are completed by exactly one check character: v as a digit, or X for ten, in
      either case. */
  lemma {:induction false} CheckCharacterUnique(d: string) returns (v: nat)
    requires |d| == 17 && forall i :: 0 <= i < 17 ==> '0' <= d[i] <= '9'
    ensures v <= 10
    ensures forall c :: Valid(d + [c]) <==> if v == 10 then c == 'X' || c == 'x' else c == "0123456789"[v]
  {
    var sum := WeightedSum(d, 17);
    v := (1 - sum) % 11;
    forall c ensures Valid(d + [c]) <==> if v == 10 then c == 'X' || c == 'x' else c == "0123456789"[v] {
      LastCharacter(d, c);
      if '0' <= c <= '9' || c == 'X' || c == 'x' {
        CompletesSum(sum, v, CharValue(c));
        DigitOf(v, c);
      }
    }
  }

  lemma {:induction false} LastCharacter(d: string, c: char)
    requires |d| == 17 && forall i :: 0 <= i < 17 ==> '0' <= d[i] <= '9'
    ensures Shape(d + [c]) <==> '0' <= c <= '9' || c == 'X' || c == 'x'
    ensures WeightedSum(d + [c], 18) == WeightedSum(d, 17) + CharValue(c)
  {
    PrefixSum(d, c, 17);
    assert (d + [c])[17] == c;
  }

  lemma {:induction false} PrefixSum(d: string, c: char, n: nat)
    requires |d| == 17 && n <= 17
    ensures WeightedSum(d + [c], n) == WeightedSum(d, n)
  {
    if n > 0 {
      PrefixSum(d, c, n - 1);
      assert (d + [c])[n - 1] == d[n - 1];
    }
  }

  lemma CompletesSum(sum: int, v: int, value: int)
    requires v == (1 - sum) % 11 && 0 <= value <= 10
    ensures (sum + value) % 11 == 1 <==> value == v
  {
  }

  lemma DigitOf(v: nat, c: char)
    requires v <= 10 && ('0' <= c <= '9' || c == 'X' || c == 'x')
    ensures CharValue(c) == v <==> if v == 10 then c == 'X' || c == 'x' else c == "0123456789"[v]
  {
  }

  lemma {:induction false} MultipleStays(k: nat, d: int)
    requires d % 11 == 0
    ensures Times2(k, d) % 11 == 0
  {
    if k > 0 {
      MultipleStays(k - 1, d);
      var x := Times2(k - 1, d);
      assert 2 * x == 11 * (2 * (x / 11));
    }
  }
}
