/**
 * Roman numerals (`to_roman`): a greedy conversion over the thirteen
 * values M CM D CD C XC L XL X IX V IV I, used for the tanka ordinals.
 */
module Roman {
  import Lib

  /** Entry i of `val`. */
  function Value(i: nat): nat
    requires i < 13
  {
    match i
    case 0 => 1000 case 1 => 900 case 2 => 500 case 3 => 400 case 4 => 100
    case 5 => 90 case 6 => 50 case 7 => 40 case 8 => 10 case 9 => 9
    case 10 => 5 case 11 => 4 case _ => 1
  }

  /** Entry i of `syms`. */
  function Symbol(i: nat): string
    requires i < 13
  {
    match i
    case 0 => "M" case 1 => "CM" case 2 => "D" case 3 => "CD" case 4 => "C"
    case 5 => "XC" case 6 => "L" case 7 => "XL" case 8 => "X" case 9 => "IX"
    case 10 => "V" case 11 => "IV" case _ => "I"
  }

  /**
   * The numeral the greedy scan writes for n from table entry i on: the
   * symbol of entry i while its value fits, then the next entry.
   */
  function Greedy(n: nat, i: nat): string
    requires i <= 13
    decreases n, 13 - i
  {
    if n == 0 || i == 13 then ""
    else if Value(i) <= n then Symbol(i) + Greedy(n - Value(i), i)
    else Greedy(n, i + 1)
  }

  /** The numeral of n; the empty string for n <= 0, where the loop does not run. */
  function RomanNumeral(n: int): string
  {
    if n <= 0 then "" else Greedy(n, 0)
  }

  /** The value of one numeral letter; 0 for any other character. */
  function CharValue(c: char): nat
  {
    match c
    case 'I' => 1
    case 'V' => 5
    case 'X' => 10
    case 'L' => 50
    case 'C' => 100
    case 'D' => 500
    case 'M' => 1000
    case _ => 0
  }

  /**
   * The usual reading of a numeral: a letter followed by a larger one
   * counts as their difference, any other letter counts as its value.
   */
  function RomanValue(s: string): int
  {
    if s == [] then 0
    else if |s| >= 2 && CharValue(s[0]) < CharValue(s[1]) then CharValue(s[1]) - CharValue(s[0]) + RomanValue(s[2..])
    else CharValue(s[0]) + RomanValue(s[1..])
  }

  predicate IsNumeralLetter(c: char)
  {
    c in "IVXLCDM"
  }

  /**
   * Table facts: values strictly decrease; a one-letter symbol is its value;
   * a two-letter symbol is a smaller letter before a larger one, at most the
   * value; no symbol begins with a letter worth more than its value.
   */
  lemma TableEntry(i: nat)
    requires i < 13
    ensures Value(i) >= 1 && (i + 1 < 13 ==> Value(i + 1) < Value(i))
    ensures 1 <= |Symbol(i)| <= 2
    ensures CharValue(Symbol(i)[0]) <= Value(i)
    ensures |Symbol(i)| == 1 ==> CharValue(Symbol(i)[0]) == Value(i)
    ensures |Symbol(i)| == 2 ==>
      CharValue(Symbol(i)[0]) < CharValue(Symbol(i)[1]) &&
      CharValue(Symbol(i)[1]) - CharValue(Symbol(i)[0]) == Value(i)
    ensures forall m :: 0 <= m < |Symbol(i)| ==> IsNumeralLetter(Symbol(i)[m])
  {
  }

  lemma ValuesDescend(i: nat)
    requires i < 13
    ensures Value(i) >= 1 && (i > 0 ==> Value(i) < Value(i - 1))
  {
  }

  /** Values decrease along the table. */
  lemma ValuesDecrease(i: nat, j: nat)
    requires i <= j < 13
    ensures Value(j) <= Value(i)
    decreases j - i
  {
    if i < j {
      TableEntry(j - 1);
      ValuesDecrease(i, j - 1);
    }
  }

  /** The greedy numeral from entry i opens with a letter worth at most Value(i). */
  lemma {:induction false} GreedyFirst(n: nat, i: nat)
    requires i < 13
    ensures Greedy(n, i) != [] ==> CharValue(Greedy(n, i)[0]) <= Value(i)
    decreases n, 13 - i
  {
    if n == 0 {
    } else if Value(i) <= n {
      TableEntry(i);
    } else if i + 1 < 13 {
      GreedyFirst(n, i + 1);
      TableEntry(i);
    }
  }

  /** The usual reading of the greedy numeral from entry i is n. */
  lemma {:induction false} GreedyValue(n: nat, i: nat)
    requires i <= 13
    requires i == 13 ==> n == 0
    ensures RomanValue(Greedy(n, i)) == n
    decreases n, 13 - i
  {
    if n == 0 {
    } else if Value(i) <= n {
      var rest := Greedy(n - Value(i), i);
      var s := Symbol(i) + rest;
      GreedyValue(n - Value(i), i);
      TableEntry(i);
      GreedyFirst(n - Value(i), i);
      if |Symbol(i)| == 1 {
        assert s[1..] == rest;
      } else {
        assert s[2..] == rest;
      }
    } else {
      if i == 12 {
        TableEntry(i);
        assert false;
      }
      GreedyValue(n, i + 1);
    }
  }

  /** Reading back the numeral of n >= 1 gives n, so distinct ordinals get distinct numerals. */
  lemma RoundTrip(n: int)
    requires n >= 1
    ensures RomanValue(RomanNumeral(n)) == n
  {
    GreedyValue(n, 0);
  }

  /** Numerals are made of the letters I V X L C D M only. */
  lemma {:induction false} GreedyLetters(n: nat, i: nat)
    requires i <= 13
    ensures forall m :: 0 <= m < |Greedy(n, i)| ==> IsNumeralLetter(Greedy(n, i)[m])
    decreases n, 13 - i
  {
    if n == 0 || i == 13 {
    } else if Value(i) <= n {
      TableEntry(i);
      GreedyLetters(n - Value(i), i);
    } else {
      GreedyLetters(n, i + 1);
    }
  }

  /** The value of entry i fits: the scan emits its symbol and stays at i. */
  lemma GreedyEmit(n: nat, i: nat)
    requires i < 13 && 0 < Value(i) <= n
    ensures Greedy(n, i) == Symbol(i) + Greedy(n - Value(i), i)
  {
  }

  /** The value of entry i does not fit: the scan moves to entry i + 1. */
  lemma GreedySkip(n: nat, i: nat)
    requires i < 13 && n < Value(i)
    ensures Greedy(n, i) == Greedy(n, i + 1)
  {
  }

  /** 4 is IV; 0 and below have no numeral. */
  lemma SmallExamples()
    ensures RomanNumeral(0) == "" && RomanNumeral(4) == "IV"
  {
    assert Greedy(4, 0) == Greedy(4, 1) == Greedy(4, 2) == Greedy(4, 3) == Greedy(4, 4) == Greedy(4, 5);
    assert Greedy(4, 5) == Greedy(4, 6) == Greedy(4, 7) == Greedy(4, 8) == Greedy(4, 9);
    assert Greedy(4, 9) == Greedy(4, 10) == Greedy(4, 11) == "IV";
  }

  /** 1994 is MCMXCIV. */
  lemma YearExample()
    ensures RomanNumeral(1994) == "MCMXCIV"
  {
    SmallExamples();
    assert Greedy(94, 1) == Greedy(94, 2) == Greedy(94, 3) == Greedy(94, 4) == Greedy(94, 5) == "XC" + Greedy(4, 5);
    assert Greedy(994, 0) == Greedy(994, 1) == "CM" + Greedy(94, 1);
    assert Greedy(1994, 0) == "M" + Greedy(994, 0);
  }

  /** 1 is I, 2 is II and 9 is IX. */
  lemma UnitExamples()
    ensures RomanNumeral(1) == "I" && RomanNumeral(2) == "II" && RomanNumeral(9) == "IX"
  {
    assert Greedy(1, 0) == Greedy(1, 1) == Greedy(1, 2) == Greedy(1, 3) == Greedy(1, 4) == Greedy(1, 5) == Greedy(1, 6);
    assert Greedy(1, 6) == Greedy(1, 7) == Greedy(1, 8) == Greedy(1, 9) == Greedy(1, 10) == Greedy(1, 11) == Greedy(1, 12);
    assert Greedy(1, 12) == "I" + Greedy(0, 12) == "I";
    assert Greedy(2, 0) == Greedy(2, 1) == Greedy(2, 2) == Greedy(2, 3) == Greedy(2, 4) == Greedy(2, 5) == Greedy(2, 6);
    assert Greedy(2, 6) == Greedy(2, 7) == Greedy(2, 8) == Greedy(2, 9) == Greedy(2, 10) == Greedy(2, 11) == Greedy(2, 12);
    assert Greedy(2, 12) == "I" + Greedy(1, 12) == "II";
    assert Greedy(9, 0) == Greedy(9, 1) == Greedy(9, 2) == Greedy(9, 3) == Greedy(9, 4) == Greedy(9, 5) == Greedy(9, 6);
    assert Greedy(9, 6) == Greedy(9, 7) == Greedy(9, 8) == Greedy(9, 9) == "IX" + Greedy(0, 9) == "IX";
  }

  /** 40 is XL, 90 is XC, 400 is CD and 900 is CM. */
  lemma SubtractiveExamples()
    ensures RomanNumeral(40) == "XL" && RomanNumeral(90) == "XC"
    ensures RomanNumeral(400) == "CD" && RomanNumeral(900) == "CM"
  {
    assert Greedy(40, 0) == Greedy(40, 1) == Greedy(40, 2) == Greedy(40, 3) == Greedy(40, 4) == Greedy(40, 5);
    assert Greedy(40, 5) == Greedy(40, 6) == Greedy(40, 7) == "XL" + Greedy(0, 7) == "XL";
    assert Greedy(90, 0) == Greedy(90, 1) == Greedy(90, 2) == Greedy(90, 3) == Greedy(90, 4) == Greedy(90, 5);
    assert Greedy(90, 5) == "XC" + Greedy(0, 5) == "XC";
    assert Greedy(400, 0) == Greedy(400, 1) == Greedy(400, 2) == Greedy(400, 3) == "CD" + Greedy(0, 3) == "CD";
    assert Greedy(900, 0) == Greedy(900, 1) == "CM" + Greedy(0, 1) == "CM";
  }

  /** 2024 is MMXXIV. */
  lemma RecentYearExample()
    ensures RomanNumeral(2024) == "MMXXIV"
  {
    SmallExamples();
    assert Greedy(14, 8) == "X" + Greedy(4, 8);
    assert Greedy(4, 8) == Greedy(4, 9) == Greedy(4, 10) == Greedy(4, 11) == "IV";
    assert Greedy(24, 0) == Greedy(24, 1) == Greedy(24, 2) == Greedy(24, 3) == Greedy(24, 4) == Greedy(24, 5);
    assert Greedy(24, 5) == Greedy(24, 6) == Greedy(24, 7) == Greedy(24, 8) == "X" + Greedy(14, 8);
    assert Greedy(2024, 0) == "M" + Greedy(1024, 0) == "M" + ("M" + Greedy(24, 0));
  }

  /** k copies of s. */
  function Repeat(s: string, k: nat): string
  {
    if k == 0 then "" else s + Repeat(s, k - 1)
  }

  lemma {:induction false} RepeatSnoc(s: string, k: nat)
    ensures Repeat(s, k + 1) == Repeat(s, k) + s
  {
    if k > 0 {
      RepeatSnoc(s, k - 1);
      Lib.AppendAssoc(s, Repeat(s, k - 1), s);
    }
  }

  /** The greedy scan at entry i writes `n // val[i]` copies of its symbol and goes on with the remainder. */
  lemma {:induction false} GreedyRepeat(n: nat, i: nat)
    requires i < 13
    ensures Value(i) >= 1
    ensures Greedy(n, i) == Repeat(Symbol(i), n / Value(i)) + Greedy(n % Value(i), i)
    decreases n
  {
    ValuesDescend(i);
    var val, sym := Value(i), Symbol(i);
    if n < val {
      Lib.DivUnique(n, val, 0, n);
    } else {
      var q, r := n / val, n % val;
      GreedyRepeat(n - val, i);
      Lib.DivStep(n, val);
      assert (n - val) / val == q - 1 && (n - val) % val == r;
      GreedyEmit(n, i);
      assert Greedy(n, i) == sym + (Repeat(sym, q - 1) + Greedy(r, i));
      Lib.AppendAssoc(sym, Repeat(sym, q - 1), Greedy(r, i));
    }
  }

  /**
   * The inner loop of `to_roman`: append `sym` `n // val` times and take
   * `val` off n each time, which leaves the remainder.
   */
  method EmitRepeated(roman: string, n: nat, val: nat, sym: string) returns (roman': string, n': nat)
    requires val >= 1
    ensures roman' == roman + Repeat(sym, n / val)
    ensures n' == n % val
  {
    var reps := n / val;
    ghost var r0 := n % val;
    Lib.DivBasics(n, val);
    roman', n' := roman, n;
    for j := 0 to reps
      invariant n' == (reps - j) * val + r0
      invariant roman' == roman + Repeat(sym, j)
    {
      Lib.MulAtLeast(reps - j, val);
      Lib.MulSucc(reps - j - 1, val);
      RepeatSnoc(sym, j);
      Lib.AppendAssoc(roman, Repeat(sym, j), sym);
      roman' := roman' + sym;
      n' := n' - val;
    }
  }

  /** One pass of the outer loop keeps what remains to be written: the repeated symbol, then the scan from entry i + 1. */
  lemma EntryDone(roman: string, n: nat, i: nat, target: string)
    requires i < 13 && roman + Greedy(n, i) == target
    ensures Value(i) >= 1 && n % Value(i) < Value(i)
    ensures roman + Repeat(Symbol(i), n / Value(i)) + Greedy(n % Value(i), i + 1) == target
  {
    var val, sym := Value(i), Symbol(i);
    GreedyRepeat(n, i);
    Lib.AppendAssoc(roman, Repeat(sym, n / val), Greedy(n % val, i));
    if n % val > 0 {
      GreedySkip(n % val, i);
    }
  }

  /** `to_roman`: walks the table while n > 0, emitting each entry's symbol as often as it fits. */
  method ToRoman(n0: int) returns (roman: string)
    ensures roman == RomanNumeral(n0)
    ensures n0 >= 1 ==> RomanValue(roman) == n0
    ensures forall m :: 0 <= m < |roman| ==> IsNumeralLetter(roman[m])
  {
    roman := "";
    var n := n0;
    var i := 0;
    ghost var target := RomanNumeral(n0);
    while n > 0
      invariant 0 <= i <= 13
      invariant n0 <= 0 ==> n == n0 && roman == ""
      invariant n0 > 0 ==> n >= 0 && roman + Greedy(n, i) == target
      invariant n > 0 && i > 0 ==> n < Value(i - 1)
      decreases 13 - i
    {
      if i == 13 {
        assert false;
      }
      EntryDone(roman, n, i, target);
      roman, n := EmitRepeated(roman, n, Value(i), Symbol(i));
      i := i + 1;
    }
    if n0 >= 1 {
      RoundTrip(n0);
      GreedyLetters(n0, 0);
    }
  }
}
