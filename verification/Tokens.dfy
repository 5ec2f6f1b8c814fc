// The tokenizer-free token estimate (context/src/tokens.rs:125-161).
module Tokens {
  // A character, by its code point.
  type Char = nat

  // Letters, digits and blanks are counted by runs, the rest one by one.
  datatype Class = Letter | Digit | Blank | Return | Wide | Other

  function ClassOf(c: Char): Class {
    if 65 <= c <= 90 || 97 <= c <= 122 then Letter
    else if 48 <= c <= 57 then Digit
    else if c == 32 || c == 9 then Blank
    else if c == 13 then Return
    else if c >= 0x1_F000 then Wide
    else Other
  }

  predicate Runs(k: Class) { k == Letter || k == Digit || k == Blank }

  // How many portions of `b` it takes to cover `a`.
  function DivCeil(a: nat, b: nat): nat
    requires b > 0
    decreases a
  {
    if a == 0 then 0 else 1 + DivCeil(if a <= b then 0 else a - b, b)
  }

  // It is the quotient rounded up.
  lemma {:induction false} DivCeilRoundsUp(a: nat, b: nat)
    requires b > 0
    ensures a <= b * DivCeil(a, b) < a + b
    decreases a
  {
    if a > 0 {
      var less := if a <= b then 0 else a - b;
      DivCeilRoundsUp(less, b);
      assert b * DivCeil(a, b) == b + b * DivCeil(less, b);
    }
  }

  // What a run of `n` characters of one class costs.
  function Cost(k: Class, n: nat): nat {
    match k
    case Letter => DivCeil(n, 5)
    case Digit => DivCeil(n, 3)
    case Blank => if n <= 1 then 0 else DivCeil(n, 4)
    case Return => 0
    case Wide => 2 * n
    case Other => n
  }

  // How many characters from `i` on are of class `k`.
  function Span(text: seq<Char>, i: nat, k: Class): (n: nat)
    requires i <= |text|
    ensures i + n <= |text|
    decreases |text| - i
  {
    if i < |text| && ClassOf(text[i]) == k then 1 + Span(text, i + 1, k) else 0
  }

  // A span is maximal: all of it is of class `k`, and it stops only at the end
  // or before another class.
  lemma {:induction false} SpanIsMaximal(text: seq<Char>, i: nat, k: Class)
    requires i <= |text|
    ensures forall j :: i <= j < i + Span(text, i, k) ==> ClassOf(text[j]) == k
    ensures i + Span(text, i, k) < |text| ==> ClassOf(text[i + Span(text, i, k)]) != k
    decreases |text| - i
  {
    if i < |text| && ClassOf(text[i]) == k {
      SpanIsMaximal(text, i + 1, k);
    }
  }

  // The length of the run that starts at `i`.
  function RunLength(text: seq<Char>, i: nat): (n: nat)
    requires i < |text|
    ensures 0 < n <= |text| - i
  {
    if Runs(ClassOf(text[i])) then Span(text, i, ClassOf(text[i])) else 1
  }

  // The cost of a text: that of its maximal runs, one after another.
  function EstimateFrom(text: seq<Char>, i: nat): nat
    requires i <= |text|
    decreases |text| - i
  {
    if i == |text| then 0
    else Cost(ClassOf(text[i]), RunLength(text, i)) + EstimateFrom(text, i + RunLength(text, i))
  }

  // ---------------------------------------------------------------- the operation

  // Skip the characters of one class (tokens.rs:151-161).
  method TakeRun(text: seq<Char>, start: nat, k: Class) returns (n: nat)
    requires start <= |text|
    ensures n == Span(text, start, k)
  {
    n := 0;
    while start + n < |text| && ClassOf(text[start + n]) == k
      invariant start + n <= |text|
      invariant n + Span(text, start + n, k) == Span(text, start, k)
    {
      n := n + 1;
    }
  }

  method Estimate(text: seq<Char>) returns (tokens: nat)
    ensures tokens == EstimateFrom(text, 0)
  {
    tokens := 0;
    var i := 0;
    while i < |text|
      invariant i <= |text| && tokens + EstimateFrom(text, i) == EstimateFrom(text, 0)
    {
      var cost, n := EstimateRun(text, i);
      tokens := tokens + cost;
      i := i + n;
    }
  }

  // One turn of the loop (tokens.rs:128-146): what it adds, how far it moves.
  method EstimateRun(text: seq<Char>, start: nat) returns (cost: nat, n: nat)
    requires start < |text|
    ensures n == RunLength(text, start) && cost == Cost(ClassOf(text[start]), n)
  {
    var c := text[start];
    cost, n := 0, 1;
    if ClassOf(c) == Letter {
      var more := TakeRun(text, start + 1, Letter);
      n := 1 + more;
      cost := DivCeil(n, 5);
    } else if ClassOf(c) == Digit {
      var more := TakeRun(text, start + 1, Digit);
      n := 1 + more;
      cost := DivCeil(n, 3);
    } else if c == 32 || c == 9 {
      var more := TakeRun(text, start + 1, Blank);
      n := 1 + more;
      if n > 1 {
        cost := DivCeil(n, 4);
      }
    } else if c == 13 {
      // Counted with the newline it precedes.
    } else if c >= 0x1_F000 {
      cost := 2;
    } else {
      cost := 1;
    }
  }

  // ---------------------------------------------------------------- near-additivity

  // Only the text from `i` on matters.
  lemma {:induction false} SpanShift(pre: seq<Char>, text: seq<Char>, i: nat, k: Class)
    requires i <= |text|
    ensures Span(pre + text, |pre| + i, k) == Span(text, i, k)
    decreases |text| - i
  {
    if i < |text| {
      assert (pre + text)[|pre| + i] == text[i];
      SpanShift(pre, text, i + 1, k);
    }
  }

  lemma {:induction false} EstimateShift(pre: seq<Char>, text: seq<Char>, i: nat)
    requires i <= |text|
    ensures EstimateFrom(pre + text, |pre| + i) == EstimateFrom(text, i)
    decreases |text| - i
  {
    if i < |text| {
      assert (pre + text)[|pre| + i] == text[i];
      SpanShift(pre, text, i, ClassOf(text[i]));
      EstimateShift(pre, text, i + RunLength(text, i));
    }
  }

  // A span of `a` that stops before its end is the same in `a + b`; one that
  // reaches the end goes on into `b`.
  lemma {:induction false} SpanAppend(a: seq<Char>, b: seq<Char>, i: nat, k: Class)
    requires i <= |a|
    ensures var n := Span(a, i, k); Span(a + b, i, k) == if i + n < |a| then n else n + Span(b, 0, k)
    decreases |a| - i
  {
    if i < |a| {
      SpanAppend(a, b, i + 1, k);
    } else {
      assert a + b == a + b[0..];
      SpanShift(a, b, 0, k);
    }
  }

  lemma {:induction false} DivCeilGrows(a: nat, more: nat, b: nat)
    requires b > 0 && more <= b
    ensures DivCeil(a, b) <= DivCeil(a + more, b) <= DivCeil(a, b) + 1
    decreases a
  {
    if a > b {
      DivCeilGrows(a - b, more, b);
    }
  }

  lemma {:induction false} DivCeilCut(m: nat, n: nat, b: nat)
    requires b > 0
    ensures DivCeil(m, b) + DivCeil(n, b) - 1 <= DivCeil(m + n, b) <= DivCeil(m, b) + DivCeil(n, b)
    decreases m
  {
    if m > b {
      DivCeilCut(m - b, n, b);
    } else if m > 0 {
      DivCeilGrows(n, m, b);
    }
  }

  // Cutting a run in two changes its cost by at most one, either way.
  lemma CutCost(k: Class, m: nat, n: nat)
    requires Runs(k)
    ensures -1 <= Cost(k, m + n) - Cost(k, m) - Cost(k, n) <= 1
  {
    match k
    case Letter => DivCeilCut(m, n, 5);
    case Digit => DivCeilCut(m, n, 3);
    case Blank =>
      DivCeilCut(m, n, 4);
      if m == 1 {
        DivCeilGrows(n, 1, 4);
      }
      if n == 1 {
        DivCeilGrows(m, 1, 4);
      }
  }

  lemma OneRun(text: seq<Char>, i: nat, k: Class, n: nat, end: nat)
    requires i < |text| && ClassOf(text[i]) == k && RunLength(text, i) == n && end == i + n
    ensures EstimateFrom(text, i) == Cost(k, n) + EstimateFrom(text, end)
  {
  }

  // How the run at `i` continues into `b`.
  lemma RunAppend(a: seq<Char>, b: seq<Char>, i: nat)
    requires i < |a|
    ensures ClassOf((a + b)[i]) == ClassOf(a[i])
    ensures var k, n := ClassOf(a[i]), RunLength(a, i);
            RunLength(a + b, i) == if Runs(k) && i + n == |a| then n + Span(b, 0, k) else n
  {
    assert (a + b)[i] == a[i];
    SpanAppend(a, b, i, ClassOf(a[i]));
  }

  lemma {:induction false} AdditiveFrom(a: seq<Char>, b: seq<Char>, i: nat)
    requires i <= |a|
    ensures -1 <= EstimateFrom(a + b, i) - EstimateFrom(a, i) - EstimateFrom(b, 0) <= 1
    decreases |a| - i
  {
    if i == |a| {
      EstimateShift(a, b, 0);
    } else if i + RunLength(a, i) < |a| || !Runs(ClassOf(a[i])) {
      var k, n := ClassOf(a[i]), RunLength(a, i);
      RunAppend(a, b, i);
      OneRun(a, i, k, n, i + n);
      OneRun(a + b, i, k, n, i + n);
      AdditiveFrom(a, b, i + n);
    } else {
      LastRun(a, b, i);
    }
  }

  lemma LeadingSpan(b: seq<Char>, k: Class)
    requires Runs(k)
    ensures EstimateFrom(b, 0) == Cost(k, Span(b, 0, k)) + EstimateFrom(b, Span(b, 0, k))
  {
    if Span(b, 0, k) > 0 {
      OneRun(b, 0, k, Span(b, 0, k), Span(b, 0, k));
    }
  }

  // The last run of `a` goes on into `b`.
  lemma JoinedRun(a: seq<Char>, b: seq<Char>, i: nat, k: Class, m: nat, n: nat)
    requires i < |a| && k == ClassOf(a[i]) && Runs(k) && m == RunLength(a, i) && i + m == |a| && n == Span(b, 0, k)
    ensures EstimateFrom(a + b, i) == Cost(k, m + n) + EstimateFrom(b, n)
  {
    RunAppend(a, b, i);
    OneRun(a + b, i, k, m + n, |a| + n);
    EstimateShift(a, b, n);
  }

  // Joining it costs at most one more or less.
  lemma LastRun(a: seq<Char>, b: seq<Char>, i: nat)
    requires i < |a| && Runs(ClassOf(a[i])) && i + RunLength(a, i) == |a|
    ensures -1 <= EstimateFrom(a + b, i) - EstimateFrom(a, i) - EstimateFrom(b, 0) <= 1
  {
    var k, m := ClassOf(a[i]), RunLength(a, i);
    JoinedRun(a, b, i, k, m, Span(b, 0, k));
    OneRun(a, i, k, m, |a|);
    LeadingSpan(b, k);
    CutCost(k, m, Span(b, 0, k));
  }

  // For all texts, estimating them together or apart differs by at most one.
  lemma NearlyAdditive(a: seq<Char>, b: seq<Char>)
    ensures -1 <= EstimateFrom(a + b, 0) - EstimateFrom(a, 0) - EstimateFrom(b, 0) <= 1
  {
    AdditiveFrom(a, b, 0);
  }

  // Both ends of that range are reached.
  lemma NearlyAdditiveIsTight()
    ensures EstimateFrom([32] + [32], 0) == EstimateFrom([32], 0) + EstimateFrom([32], 0) + 1
    ensures EstimateFrom([97] + [97], 0) == EstimateFrom([97], 0) + EstimateFrom([97], 0) - 1
  {
    assert [32] + [32] == [32, 32] && [97] + [97] == [97, 97];
    assert Span([32, 32], 0, Blank) == 1 + Span([32, 32], 1, Blank) == 2 + Span([32, 32], 2, Blank);
    assert Span([97, 97], 0, Letter) == 1 + Span([97, 97], 1, Letter) == 2 + Span([97, 97], 2, Letter);
  }

  // ---------------------------------------------------------------- what runs cost

  ghost predicate AllIn(text: seq<Char>, k: Class) { forall i :: 0 <= i < |text| ==> ClassOf(text[i]) == k }

  lemma {:induction false} WholeSpan(text: seq<Char>, i: nat, k: Class)
    requires i <= |text| && AllIn(text, k)
    ensures Span(text, i, k) == |text| - i
    decreases |text| - i
  {
    if i < |text| {
      WholeSpan(text, i + 1, k);
    }
  }

  // A word of n letters costs a fifth, a number of n digits a third, and more
  // than one blank a quarter of n, each rounded up; one blank costs nothing.
  lemma RunsCost(text: seq<Char>)
    requires text != []
    ensures (forall i :: 0 <= i < |text| ==> 65 <= text[i] <= 90 || 97 <= text[i] <= 122) ==>
              |text| <= 5 * EstimateFrom(text, 0) < |text| + 5
    ensures (forall i :: 0 <= i < |text| ==> 48 <= text[i] <= 57) ==>
              |text| <= 3 * EstimateFrom(text, 0) < |text| + 3
    ensures (forall i :: 0 <= i < |text| ==> text[i] == 32 || text[i] == 9) ==>
              if |text| == 1 then EstimateFrom(text, 0) == 0 else |text| <= 4 * EstimateFrom(text, 0) < |text| + 4
  {
    var n, k := |text|, ClassOf(text[0]);
    DivCeilRoundsUp(n, 5);
    DivCeilRoundsUp(n, 3);
    DivCeilRoundsUp(n, 4);
    if AllIn(text, k) {
      WholeSpan(text, 0, k);
      assert EstimateFrom(text, n) == 0;
    }
  }

  // Any other character counts by itself: a carriage return not at all, one
  // from U+1F000 on twice, the rest once.
  lemma SingleCost(c: Char, text: seq<Char>)
    requires !(65 <= c <= 90 || 97 <= c <= 122 || 48 <= c <= 57 || c == 32 || c == 9)
    ensures EstimateFrom([c] + text, 0)
         == (if c == 13 then 0 else if c >= 0x1_F000 then 2 else 1) + EstimateFrom(text, 0)
  {
    EstimateShift([c], text, 0);
  }
}
