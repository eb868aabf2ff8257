/** src/bin/14.rs: the recipe scoreboard. Two elves stand on scores of an append-only list of
    digits; each round appends the decimal digits of the sum of their scores and moves each
    elf forward by one plus its score, wrapping around. `solve` reads ten scores after an
    offset; `solve2` looks for the first place a number's digits appear. */
module ChocolateCharts {
  import opened Options
  import opened Text

  predicate AllDigitValues(q: seq<nat>)
  {
    forall k :: 0 <= k < |q| ==> q[k] < 10
  }

  /** The scoreboard with the positions of the two elves. */
  datatype Board = Board(scores: seq<nat>, p1: nat, p2: nat)

  predicate Valid(b: Board)
  {
    2 <= |b.scores| && AllDigitValues(b.scores) && b.p1 < |b.scores| && b.p2 < |b.scores|
  }

  /** The value of a list of digits read in base 10, most significant first. */
  function Decimal(ds: seq<nat>): nat
  {
    if ds == [] then 0 else Decimal(ds[..|ds| - 1]) * 10 + ds[|ds| - 1]
  }

  /** The scores a round pushes for a sum of two digit scores. */
  function NewRecipes(sum: nat): seq<nat>
    requires sum < 19
  {
    if sum >= 10 then [1, sum % 10] else [sum]
  }

  /** The pushed scores are the shortest decimal numeral of the sum: digits, no leading zero,
      reading back as the sum. */
  lemma NewRecipesAreDigitsOfSum(sum: nat)
    requires sum < 19
    ensures AllDigitValues(NewRecipes(sum)) && Decimal(NewRecipes(sum)) == sum
    ensures NewRecipes(sum)[0] != 0 || sum == 0
  {
    var ds := NewRecipes(sum);
    if sum >= 10 {
      assert ds[..1] == [1];
      assert Decimal([1]) == 1 by {
        assert [1][..0] == [];
      }
    } else {
      assert ds[..0] == [];
    }
  }

  /** One round of the loop body of `solve` and `solve2`: push the digits of the sum of the two
      current scores, then move each elf forward by one plus its score modulo the new length.
      The new board is again valid. */
  function Step(b: Board): (r: Board)
    requires Valid(b)
    ensures Valid(r)
  {
    var sum := b.scores[b.p1] + b.scores[b.p2];
    NewRecipesAreDigitsOfSum(sum);
    var q := b.scores + NewRecipes(sum);
    assert q[..|b.scores|] == b.scores;
    Board(q, (b.p1 + 1 + q[b.p1]) % |q|, (b.p2 + 1 + q[b.p2]) % |q|)
  }

  /** The scoreboard is append-only: a round adds one or two scores and changes none. */
  lemma StepExtends(b: Board)
    requires Valid(b)
    ensures |b.scores| < |Step(b).scores| <= |b.scores| + 2
    ensures Step(b).scores[..|b.scores|] == b.scores
  {
    assert Step(b).scores[..|b.scores|] == b.scores;
  }

  /** What a round appends reads back as the sum of the two scores the elves stood on. */
  lemma StepAppendsSum(b: Board)
    requires Valid(b)
    ensures Decimal(Step(b).scores[|b.scores|..]) == b.scores[b.p1] + b.scores[b.p2]
  {
    var sum := b.scores[b.p1] + b.scores[b.p2];
    NewRecipesAreDigitsOfSum(sum);
    assert Step(b).scores[|b.scores|..] == NewRecipes(sum);
  }

  /** The board both parts start from: the given scores, elves on the first two. */
  function Initial(start: seq<nat>): Board
  {
    Board(start, 0, 1)
  }

  /** The board when the `while` loop of `solve` stops: the first one with at least `target`
      scores. It extends `b`, and it overshoots `target` by at most one score. */
  function GrowUntil(b: Board, target: nat): (r: Board)
    requires Valid(b)
    ensures Valid(r) && |r.scores| >= target
    ensures |r.scores| >= |b.scores| && r.scores[..|b.scores|] == b.scores
    ensures |b.scores| < target ==> |r.scores| <= target + 1
    decreases target - |b.scores|
  {
    if |b.scores| >= target then b
    else
      StepExtends(b);
      var r := GrowUntil(Step(b), target);
      assert r.scores[..|b.scores|] == r.scores[..|Step(b).scores|][..|b.scores|];
      r
  }

  /** The loop body shared by `solve` and `solve2`, pushing onto the scoreboard in place. */
  lemma GrowUntilStep(b: Board, target: nat)
    requires Valid(b) && |b.scores| < target
    ensures Valid(Step(b)) && GrowUntil(b, target) == GrowUntil(Step(b), target)
  {
  }

  method Round(queue: seq<nat>, p1: nat, p2: nat) returns (queue': seq<nat>, p1': nat, p2': nat)
    requires Valid(Board(queue, p1, p2))
    ensures Board(queue', p1', p2') == Step(Board(queue, p1, p2))
  {
    var newRecipe := queue[p1] + queue[p2];
    queue' := queue;
    if newRecipe >= 10 {
      queue' := queue' + [1];
      queue' := queue' + [newRecipe % 10];
    } else {
      queue' := queue' + [newRecipe];
    }
    p1' := (p1 + 1 + queue'[p1]) % |queue'|;
    p2' := (p2 + 1 + queue'[p2]) % |queue'|;
  }

  /** Each score printed with `to_string` and the pieces joined: one digit per score. */
  function ShowScores(q: seq<nat>): (r: String)
    requires AllDigitValues(q)
    ensures |r| == |q|
    ensures forall k :: 0 <= k < |q| ==> IsDigit(r[k]) && DigitValue(r[k]) == q[k]
  {
    if q == [] then [] else ShowNat(q[0]) + ShowScores(q[1..])
  }

  /** `solve`: grow the board until it holds `offset + 10` scores, then read the ten scores
      after the first `offset` as a string of digits. */
  method Solve(offset: nat, start: seq<nat>) returns (answer: String)
    requires |start| >= 2 && AllDigitValues(start)
    ensures |answer| == 10
    ensures forall k :: 0 <= k < 10 ==>
              IsDigit(answer[k])
              && DigitValue(answer[k]) == GrowUntil(Initial(start), offset + 10).scores[offset + k]
  {
    var queue := start;
    var p1: nat := 0;
    var p2: nat := 1;
    while |queue| < offset + 10
      invariant Valid(Board(queue, p1, p2))
      invariant GrowUntil(Board(queue, p1, p2), offset + 10) == GrowUntil(Initial(start), offset + 10)
      decreases offset + 10 - |queue|
    {
      GrowUntilStep(Board(queue, p1, p2), offset + 10);
      queue, p1, p2 := Round(queue, p1, p2);
    }
    assert GrowUntil(Board(queue, p1, p2), offset + 10) == Board(queue, p1, p2);
    answer := ShowScores(queue[offset..offset + 10]);
  }

  // ---------------------------------------------------------------------------
  // The pattern search of `solve2`

  function Pow10(e: nat): (p: nat)
    ensures p >= 1
  {
    if e == 0 then 1 else 10 * Pow10(e - 1)
  }

  /** The sum of the first `i` terms `q[s + i'] * 10^(len - i' - 1)` of the pattern expression. */
  function PartialPattern(q: seq<nat>, s: nat, len: nat, i: nat): nat
    requires i <= len && s + len <= |q|
  {
    if i == 0 then 0 else PartialPattern(q, s, len, i - 1) + q[s + i - 1] * Pow10(len - i)
  }

  /** The number the `len` scores from index `s` spell, computed as `solve2` does. */
  function Pattern(q: seq<nat>, s: nat, len: nat): nat
    requires s + len <= |q|
  {
    PartialPattern(q, s, len, len)
  }

  lemma {:induction false} PartialPatternIsDecimal(q: seq<nat>, s: nat, len: nat, i: nat)
    requires i <= len && s + len <= |q|
    ensures PartialPattern(q, s, len, i) == Decimal(q[s..s + i]) * Pow10(len - i)
  {
    if i > 0 {
      PartialPatternIsDecimal(q, s, len, i - 1);
      assert q[s..s + i][..i - 1] == q[s..s + i - 1];
      var d := Decimal(q[s..s + i - 1]);
      var x := q[s + i - 1];
      var p := Pow10(len - i);
      assert Pow10(len - i + 1) == 10 * p;
      assert PartialPattern(q, s, len, i) == d * (10 * p) + x * p;
      assert Decimal(q[s..s + i]) == d * 10 + x;
      ShiftDigit(d, x, p);
    }
  }

  lemma ShiftDigit(d: nat, x: nat, p: nat)
    ensures d * (10 * p) + x * p == (d * 10 + x) * p
  {
  }

  /** The pattern of a window is the window read as a decimal number. */
  lemma PatternIsDecimal(q: seq<nat>, s: nat, len: nat)
    requires s + len <= |q|
    ensures Pattern(q, s, len) == Decimal(q[s..s + len])
  {
    PartialPatternIsDecimal(q, s, len, len);
  }

  lemma {:induction false} PartialPatternOfPrefix(q: seq<nat>, q': seq<nat>, s: nat, len: nat, i: nat)
    requires |q| <= |q'| && q'[..|q|] == q && s + len <= |q| && i <= len
    ensures PartialPattern(q', s, len, i) == PartialPattern(q, s, len, i)
  {
    if i > 0 {
      PartialPatternOfPrefix(q, q', s, len, i - 1);
      assert q'[s + i - 1] == q'[..|q|][s + i - 1];
    }
  }

  /** A window lying inside a prefix has the same pattern on any extension of it. */
  lemma PatternOfPrefix(q: seq<nat>, q': seq<nat>, s: nat, len: nat)
    requires |q| <= |q'| && q'[..|q|] == q && s + len <= |q|
    ensures Pattern(q', s, len) == Pattern(q, s, len)
  {
    PartialPatternOfPrefix(q, q', s, len, len);
  }

  /** `max(0, queue.len() - len_of_input)`: the end of the start indices tested in a round. */
  function TestedBound(q: seq<nat>, len: nat): nat
  {
    if |q| >= len then |q| - len else 0
  }

  /** The `for` loop of `solve2`: the first start index in `lo..hi` whose pattern is `input`. */
  function FirstMatch(q: seq<nat>, lo: nat, hi: nat, len: nat, input: nat): (r: Option<nat>)
    requires lo >= hi || hi + len <= |q|
    ensures r.Some? ==> lo <= r.value < hi && Pattern(q, r.value, len) == input
    ensures r.Some? ==> forall s :: lo <= s < r.value ==> Pattern(q, s, len) != input
    ensures r.None? ==> forall s :: lo <= s < hi ==> Pattern(q, s, len) != input
    decreases hi - lo
  {
    if lo >= hi then None
    else if Pattern(q, lo, len) == input then Some(lo)
    else FirstMatch(q, lo + 1, hi, len, input)
  }

  /** The endless `loop` of `solve2`, cut after `fuel` rounds: each round steps the board, then
      tests the start indices from the previous bound up to the new one. */
  function Search(b: Board, tested: nat, len: nat, input: nat, fuel: nat): Option<nat>
    requires Valid(b)
    decreases fuel
  {
    if fuel == 0 then None
    else
      var b' := Step(b);
      var hi := TestedBound(b'.scores, len);
      match FirstMatch(b'.scores, tested, hi, len, input)
      case Some(s) => Some(s)
      case None => Search(b', hi, len, input, fuel - 1)
  }

  /** The board after `n` rounds. */
  function StepN(b: Board, n: nat): (r: Board)
    requires Valid(b)
    ensures Valid(r)
    ensures |r.scores| >= |b.scores| && r.scores[..|b.scores|] == b.scores
    decreases n
  {
    if n == 0 then b
    else
      StepExtends(b);
      var r := StepN(Step(b), n - 1);
      assert r.scores[..|b.scores|] == r.scores[..|Step(b).scores|][..|b.scores|];
      r
  }

  /** The window of `len` scores from `t` lies inside `q`. */
  predicate WindowFits(q: seq<nat>, t: nat, len: nat)
  {
    t + len <= |q|
  }

  /** No window starting before `s` spells `input`. */
  predicate NoMatchBefore(q: seq<nat>, s: nat, len: nat, input: nat)
  {
    forall t :: 0 <= t < s ==> WindowFits(q, t, len) && Pattern(q, t, len) != input
  }

  /** A round keeps the windows already tested, and the new bound is not below the old one. */
  lemma StepKeepsTested(b: Board, tested: nat, len: nat, input: nat)
    requires Valid(b) && NoMatchBefore(b.scores, tested, len, input)
    ensures tested <= TestedBound(Step(b).scores, len)
    ensures NoMatchBefore(Step(b).scores, tested, len, input)
  {
    var b' := Step(b);
    StepExtends(b);
    if tested > 0 {
      assert WindowFits(b.scores, tested - 1, len);
    }
    forall t | 0 <= t < tested
      ensures WindowFits(b'.scores, t, len) && Pattern(b'.scores, t, len) != input
    {
      PatternOfPrefix(b.scores, b'.scores, t, len);
    }
  }

  lemma StepNSucc(b: Board, n: nat)
    requires Valid(b)
    ensures StepN(b, n + 1) == StepN(Step(b), n)
  {
  }

  /** Every start index is tested once, in increasing order, so an index `solve2` returns is
      the first one whose window spells `input` on the grown board. */
  lemma {:induction false} SearchFindsFirst(b: Board, tested: nat, len: nat, input: nat, fuel: nat, s: nat)
    requires Valid(b) && NoMatchBefore(b.scores, tested, len, input)
    requires Search(b, tested, len, input, fuel) == Some(s)
    ensures exists n: nat :: s + len <= |StepN(b, n).scores| && Pattern(StepN(b, n).scores, s, len) == input
                             && NoMatchBefore(StepN(b, n).scores, s, len, input)
    decreases fuel
  {
    var b' := Step(b);
    var hi := TestedBound(b'.scores, len);
    StepKeepsTested(b, tested, len, input);
    var m := FirstMatch(b'.scores, tested, hi, len, input);
    SearchRound(b, b', tested, hi, m, len, input, fuel);
    if m.Some? {
      StepNSucc(b, 0);
      assert StepN(b, 1) == b';
      assert s + len <= |StepN(b, 1).scores| && Pattern(StepN(b, 1).scores, s, len) == input
             && NoMatchBefore(StepN(b, 1).scores, s, len, input);
    } else {
      assert NoMatchBefore(b'.scores, hi, len, input);
      SearchFindsFirst(b', hi, len, input, fuel - 1, s);
      var n: nat :| s + len <= |StepN(b', n).scores| && Pattern(StepN(b', n).scores, s, len) == input
                    && NoMatchBefore(StepN(b', n).scores, s, len, input);
      StepNSucc(b, n);
      assert s + len <= |StepN(b, n + 1).scores| && Pattern(StepN(b, n + 1).scores, s, len) == input
             && NoMatchBefore(StepN(b, n + 1).scores, s, len, input);
    }
  }

  /** Conversely, a window that spells `input` on the board after `n` rounds and has not been
      tested yet is found within `n + 1` rounds: `Search` then returns it or an earlier index. */
  lemma {:induction false} SearchFindsPresent(b: Board, tested: nat, len: nat, input: nat, n: nat, s: nat)
    requires Valid(b) && tested <= s
    requires s + len <= |StepN(b, n).scores| && Pattern(StepN(b, n).scores, s, len) == input
    ensures Search(b, tested, len, input, n + 1).Some?
    ensures Search(b, tested, len, input, n + 1).value <= s
    decreases n
  {
    var b' := Step(b);
    var hi := TestedBound(b'.scores, len);
    var m := FirstMatch(b'.scores, tested, hi, len, input);
    SearchRound(b, b', tested, hi, m, len, input, n + 1);
    if n == 0 {
      FitsIsTestedNextRound(b, s, len);
    }
    if s < hi {
      PresentAfterOneRound(b, n, s, len, input);
    } else if m.None? {
      PresentInLaterRound(b, n, s, len);
      SearchFindsPresent(b', hi, len, input, n - 1, s);
    }
  }

  /** After `n > 0` rounds, a window of `b` is the same window of `Step(b)` after `n - 1` rounds. */
  lemma PresentInLaterRound(b: Board, n: nat, s: nat, len: nat)
    requires Valid(b) && n > 0
    requires s + len <= |StepN(b, n).scores|
    ensures s + len <= |StepN(Step(b), n - 1).scores|
    ensures Pattern(StepN(Step(b), n - 1).scores, s, len) == Pattern(StepN(b, n).scores, s, len)
  {
    StepNSucc(b, n - 1);
  }

  /** A window that fits on the board is tested in the next round. */
  lemma FitsIsTestedNextRound(b: Board, s: nat, len: nat)
    requires Valid(b) && s + len <= |b.scores|
    ensures s < TestedBound(Step(b).scores, len)
  {
    StepExtends(b);
  }

  /** A window tested in the next round already holds the scores it holds after `n` rounds. */
  lemma PresentAfterOneRound(b: Board, n: nat, s: nat, len: nat, input: nat)
    requires Valid(b) && s < TestedBound(Step(b).scores, len)
    requires s + len <= |StepN(b, n).scores| && Pattern(StepN(b, n).scores, s, len) == input
    ensures Pattern(Step(b).scores, s, len) == input
  {
    StepExtends(b);
    if n == 0 {
      PatternOfPrefix(b.scores, Step(b).scores, s, len);
    } else {
      StepNSucc(b, n - 1);
      PatternOfPrefix(Step(b).scores, StepN(Step(b), n - 1).scores, s, len);
    }
  }

  /** One round of `Search`, unfolded. */
  lemma SearchRound(b: Board, b': Board, tested: nat, hi: nat, m: Option<nat>, len: nat, input: nat, fuel: nat)
    requires Valid(b) && fuel > 0 && b' == Step(b) && hi == TestedBound(b'.scores, len)
    requires m == FirstMatch(b'.scores, tested, hi, len, input)
    ensures Valid(b')
    ensures m.Some? ==> Search(b, tested, len, input, fuel) == m
    ensures m.None? ==> Search(b, tested, len, input, fuel) == Search(b', hi, len, input, fuel - 1)
  {
  }

  /** The `for` loop of `solve2` over the start indices `lo..hi`. */
  method TestStarts(q: seq<nat>, lo: nat, hi: nat, len: nat, input: nat) returns (r: Option<nat>)
    requires lo >= hi || hi + len <= |q|
    ensures r == FirstMatch(q, lo, hi, len, input)
  {
    var s := lo;
    while s < hi
      invariant lo <= s
      invariant FirstMatch(q, s, hi, len, input) == FirstMatch(q, lo, hi, len, input)
    {
      var pattern := Pattern(q, s, len);
      if pattern == input {
        return Some(s);
      }
      s := s + 1;
    }
    return None;
  }

  /** `solve2`: the window length is the number of digits of `input`. The loop is cut after
      `fuel` rounds, `None` then. */
  method Solve2(input: nat, start: seq<nat>, fuel: nat) returns (r: Option<nat>)
    requires |start| >= 2 && AllDigitValues(start)
    ensures r == Search(Initial(start), 0, |ShowNat(input)|, input, fuel)
  {
    var len := |ShowNat(input)|;
    var queue := start;
    var p1: nat := 0;
    var p2: nat := 1;
    var indexTested: nat := 0;
    var left: nat := fuel;
    ghost var b := Initial(start);
    ghost var answer := Search(b, 0, len, input, fuel);
    while left > 0
      invariant b == Board(queue, p1, p2) && Valid(b)
      invariant Search(b, indexTested, len, input, left) == answer
    {
      queue, p1, p2 := Round(queue, p1, p2);
      var hi := TestedBound(queue, len);
      var found := TestStarts(queue, indexTested, hi, len, input);
      SearchRound(b, Board(queue, p1, p2), indexTested, hi, found, len, input, left);
      b := Board(queue, p1, p2);
      if found.Some? {
        return found;
      }
      indexTested := hi;
      left := left - 1;
    }
    return None;
  }

  // ---------------------------------------------------------------------------
  // The window length

  /** The last digit of a digit list is its value modulo 10, the rest its value divided by 10. */
  lemma DecimalLast(ds: seq<nat>)
    requires ds != [] && ds[|ds| - 1] < 10
    ensures Decimal(ds) % 10 == ds[|ds| - 1]
    ensures Decimal(ds) / 10 == Decimal(ds[..|ds| - 1])
  {
    var d := Decimal(ds[..|ds| - 1]);
    assert Decimal(ds) == d * 10 + ds[|ds| - 1];
  }

  /** Two digit lists of the same length spelling the same number are equal. */
  lemma {:induction false} DecimalInjective(a: seq<nat>, b: seq<nat>)
    requires |a| == |b| && AllDigitValues(a) && AllDigitValues(b) && Decimal(a) == Decimal(b)
    ensures a == b
  {
    if a != [] {
      var n := |a| - 1;
      DecimalLast(a);
      DecimalLast(b);
      DecimalInjective(a[..n], b[..n]);
      assert a == a[..n] + [a[n]] && b == b[..n] + [b[n]];
    }
  }

  /** A window holding the digits of a list spells the list's value. */
  lemma PatternOfDigits(q: seq<nat>, s: nat, ds: seq<nat>)
    requires s + |ds| <= |q| && q[s..s + |ds|] == ds
    ensures Pattern(q, s, |ds|) == Decimal(ds)
  {
    PatternIsDecimal(q, s, |ds|);
  }

  /** A window of digits spelling the value of a digit list of its length holds that list. */
  lemma DigitsOfPattern(q: seq<nat>, s: nat, ds: seq<nat>)
    requires AllDigitValues(q) && AllDigitValues(ds) && s + |ds| <= |q|
    requires Pattern(q, s, |ds|) == Decimal(ds)
    ensures q[s..s + |ds|] == ds
  {
    PatternIsDecimal(q, s, |ds|);
    WindowOfDigits(q, s, s + |ds|);
    DecimalInjective(q[s..s + |ds|], ds);
  }

  /** With the window as long as a digit list, a pattern equals the list's value exactly when
      the window holds those very digits: a search for the value is a search for the list. */
  lemma PatternMatchesDigits(q: seq<nat>, s: nat, ds: seq<nat>)
    requires AllDigitValues(q) && AllDigitValues(ds) && s + |ds| <= |q|
    ensures Pattern(q, s, |ds|) == Decimal(ds) <==> q[s..s + |ds|] == ds
  {
    if q[s..s + |ds|] == ds {
      PatternOfDigits(q, s, ds);
    }
    if Pattern(q, s, |ds|) == Decimal(ds) {
      DigitsOfPattern(q, s, ds);
    }
  }

  lemma WindowOfDigits(q: seq<nat>, s: nat, e: nat)
    requires AllDigitValues(q) && s <= e <= |q|
    ensures AllDigitValues(q[s..e])
  {
    forall k | 0 <= k < e - s ensures q[s..e][k] < 10 {
      assert q[s..e][k] == q[s + k];
    }
  }

  /** The scores from index `t` on begin with the digits `ds`. */
  predicate DigitsAt(q: seq<nat>, t: nat, ds: seq<nat>)
  {
    t + |ds| <= |q| && q[t..t + |ds|] == ds
  }

  /** The digits of a numeral as score values. */
  function DigitValues(text: String): (ds: seq<nat>)
    requires AllDigits(text)
    ensures |ds| == |text| && AllDigitValues(ds)
  {
    seq(|text|, k requires 0 <= k < |text| => DigitValue(text[k]))
  }

  lemma {:induction false} DecimalOfDigitValues(text: String)
    requires AllDigits(text)
    ensures Decimal(DigitValues(text)) == DigitsValue(text)
  {
    if text != [] {
      var n := |text| - 1;
      DecimalOfDigitValues(text[..n]);
      assert DigitValues(text)[..n] == DigitValues(text[..n]);
    }
  }

  /** `part_two`: `solve2` on the puzzle input parsed as `u32`, so with a window as long as
      the number's shortest numeral. */
  function PartTwo(text: String, fuel: nat): Option<nat>
  {
    match ParseNat(text)
    case None => None
    case Some(n) => Search(Initial([3, 7]), 0, |ShowNat(n)|, n, fuel)
  }

  /** The digits searched for as they are written: the window is as long as the puzzle input
      itself, so leading zeros stay part of the pattern. */
  function PartTwoDigits(text: String, fuel: nat): (r: Option<nat>)
    requires |text| > 0 && AllDigits(text)
  {
    Search(Initial([3, 7]), 0, |text|, DigitsValue(text), fuel)
  }

  /** The digits `ds` appear from index `s` on, and from no earlier index. */
  predicate FirstDigitsAt(q: seq<nat>, s: nat, ds: seq<nat>)
  {
    DigitsAt(q, s, ds) && forall t :: 0 <= t < s ==> !DigitsAt(q, t, ds)
  }

  /** On a board of digits, the first window spelling a numeral's value, with the window as
      long as the numeral, is the first place its digits appear. */
  lemma FirstPatternIsFirstDigits(q: seq<nat>, s: nat, text: String)
    requires AllDigitValues(q) && |text| > 0 && AllDigits(text) && s + |text| <= |q|
    requires Pattern(q, s, |text|) == DigitsValue(text) && NoMatchBefore(q, s, |text|, DigitsValue(text))
    ensures FirstDigitsAt(q, s, DigitValues(text))
  {
    var ds := DigitValues(text);
    DecimalOfDigitValues(text);
    PatternMatchesDigits(q, s, ds);
    forall t | 0 <= t < s
      ensures !DigitsAt(q, t, ds)
    {
      PatternMatchesDigits(q, t, ds);
    }
  }

  /** What `PartTwoDigits` returns is the first index where the input's digits appear on the
      scoreboard, read digit by digit. */
  lemma PartTwoDigitsFindsDigits(text: String, fuel: nat, s: nat)
    requires |text| > 0 && AllDigits(text) && PartTwoDigits(text, fuel) == Some(s)
    ensures exists n: nat :: FirstDigitsAt(StepN(Initial([3, 7]), n).scores, s, DigitValues(text))
  {
    var b := Initial([3, 7]);
    var len := |text|;
    var input := DigitsValue(text);
    SearchFindsFirst(b, 0, len, input, fuel, s);
    var n: nat :| s + len <= |StepN(b, n).scores| && Pattern(StepN(b, n).scores, s, len) == input
                  && NoMatchBefore(StepN(b, n).scores, s, len, input);
    FirstPatternIsFirstDigits(StepN(b, n).scores, s, text);
  }

  /** Once the input's digits are on the board after `n` rounds, `n + 1` rounds of fuel are
      enough: `PartTwoDigits` then returns that index or an earlier one. */
  lemma PartTwoDigitsFindsPresent(text: String, n: nat, s: nat)
    requires |text| > 0 && AllDigits(text)
    requires DigitsAt(StepN(Initial([3, 7]), n).scores, s, DigitValues(text))
    ensures PartTwoDigits(text, n + 1).Some? && PartTwoDigits(text, n + 1).value <= s
  {
    var q := StepN(Initial([3, 7]), n).scores;
    DecimalOfDigitValues(text);
    PatternMatchesDigits(q, s, DigitValues(text));
    SearchFindsPresent(Initial([3, 7]), 0, |text|, DigitsValue(text), n, s);
  }

  // ---------------------------------------------------------------------------
  // The first seven rounds from the puzzle's starting scores 3 and 7

  // The puzzle's first seven rounds from 3, 7, one lemma each: steps of the worked examples
  // PartTwoDropsLeadingZero and PartTwoDigitsKeepsLeadingZero below.

  lemma StandardRound1()
    ensures Step(Board([3, 7], 0, 1)) == Board([3, 7, 1, 0], 0, 1)
  {
  }

  lemma StandardRound2()
    ensures Step(Board([3, 7, 1, 0], 0, 1)) == Board([3, 7, 1, 0, 1, 0], 4, 3)
  {
  }

  lemma StandardRound3()
    ensures Step(Board([3, 7, 1, 0, 1, 0], 4, 3)) == Board([3, 7, 1, 0, 1, 0, 1], 6, 4)
  {
  }

  lemma StandardRound4()
    ensures Step(Board([3, 7, 1, 0, 1, 0, 1], 6, 4)) == Board([3, 7, 1, 0, 1, 0, 1, 2], 0, 6)
  {
  }

  lemma StandardRound5()
    ensures Step(Board([3, 7, 1, 0, 1, 0, 1, 2], 0, 6)) == Board([3, 7, 1, 0, 1, 0, 1, 2, 4], 4, 8)
  {
  }

  lemma StandardRound6()
    ensures Step(Board([3, 7, 1, 0, 1, 0, 1, 2, 4], 4, 8)) == Board([3, 7, 1, 0, 1, 0, 1, 2, 4, 5], 6, 3)
  {
  }

  lemma StandardRound7()
    ensures Step(Board([3, 7, 1, 0, 1, 0, 1, 2, 4, 5], 6, 3)) == Board([3, 7, 1, 0, 1, 0, 1, 2, 4, 5, 1], 8, 4)
  {
  }

  lemma PatternOfFour(q: seq<nat>, s: nat)
    requires s + 4 <= |q|
    ensures Pattern(q, s, 4) == 1000 * q[s] + 100 * q[s + 1] + 10 * q[s + 2] + q[s + 3]
  {
    assert Pow10(0) == 1 && Pow10(1) == 10 && Pow10(2) == 100 && Pow10(3) == 1000;
    assert PartialPattern(q, s, 4, 1) == q[s] * 1000;
    assert PartialPattern(q, s, 4, 2) == q[s] * 1000 + q[s + 1] * 100;
    assert PartialPattern(q, s, 4, 3) == q[s] * 1000 + q[s + 1] * 100 + q[s + 2] * 10;
  }

  lemma PatternOfFive(q: seq<nat>, s: nat)
    requires s + 5 <= |q|
    ensures Pattern(q, s, 5) == 10000 * q[s] + 1000 * q[s + 1] + 100 * q[s + 2] + 10 * q[s + 3] + q[s + 4]
  {
    assert Pow10(0) == 1 && Pow10(1) == 10 && Pow10(2) == 100 && Pow10(3) == 1000 && Pow10(4) == 10000;
    assert PartialPattern(q, s, 5, 1) == q[s] * 10000;
    assert PartialPattern(q, s, 5, 2) == q[s] * 10000 + q[s + 1] * 1000;
    assert PartialPattern(q, s, 5, 3) == q[s] * 10000 + q[s + 1] * 1000 + q[s + 2] * 100;
    assert PartialPattern(q, s, 5, 4) == q[s] * 10000 + q[s + 1] * 1000 + q[s + 2] * 100 + q[s + 3] * 10;
  }

  lemma DigitsOf01245()
    ensures AllDigits("01245") && DigitsValue("01245") == 1245
  {
    assert "01245"[..4] == "0124";
    assert "0124"[..3] == "012";
    assert "012"[..2] == "01";
    assert "01"[..1] == "0";
  }

  /** The last three rounds of the search for 1245 in four-digit windows. */
  lemma DropsLeadingZeroTail()
    ensures Search(Board([3, 7, 1, 0, 1, 0, 1, 2], 0, 6), 4, 4, 1245, 3) == Some(6)
  {
    var b4 := Board([3, 7, 1, 0, 1, 0, 1, 2], 0, 6);
    var b5 := Board([3, 7, 1, 0, 1, 0, 1, 2, 4], 4, 8);
    var b6 := Board([3, 7, 1, 0, 1, 0, 1, 2, 4, 5], 6, 3);
    var b7 := Board([3, 7, 1, 0, 1, 0, 1, 2, 4, 5, 1], 8, 4);
    StandardRound5(); StandardRound6(); StandardRound7();
    PatternOfFour(b5.scores, 4);
    assert FirstMatch(b5.scores, 4, 5, 4, 1245) == None;
    SearchRound(b4, b5, 4, 5, None, 4, 1245, 3);
    PatternOfFour(b6.scores, 5);
    assert FirstMatch(b6.scores, 5, 6, 4, 1245) == None;
    SearchRound(b5, b6, 5, 6, None, 4, 1245, 2);
    PatternOfFour(b7.scores, 6);
    assert FirstMatch(b7.scores, 6, 7, 4, 1245) == Some(6);
    SearchRound(b6, b7, 6, 7, Some(6), 4, 1245, 1);
  }

  /** With the puzzle input `01245`, `part_two` searches four-digit windows for 1245 and
      answers 6, where the digits 0, 1, 2, 4, 5 first appear at index 5. */
  lemma PartTwoDropsLeadingZero()
    ensures PartTwo("01245", 7) == Some(6)
  {
    var b0 := Board([3, 7], 0, 1);
    var b1 := Board([3, 7, 1, 0], 0, 1);
    var b2 := Board([3, 7, 1, 0, 1, 0], 4, 3);
    var b3 := Board([3, 7, 1, 0, 1, 0, 1], 6, 4);
    var b4 := Board([3, 7, 1, 0, 1, 0, 1, 2], 0, 6);
    StandardRound1(); StandardRound2(); StandardRound3(); StandardRound4();
    DigitsOf01245();
    assert ParseNat("01245") == Some(1245);
    assert |ShowNat(1245)| == 4;
    assert FirstMatch(b1.scores, 0, 0, 4, 1245) == None;
    SearchRound(b0, b1, 0, 0, None, 4, 1245, 7);
    PatternOfFour(b2.scores, 0);
    PatternOfFour(b2.scores, 1);
    assert FirstMatch(b2.scores, 0, 2, 4, 1245) == None;
    SearchRound(b1, b2, 0, 2, None, 4, 1245, 6);
    PatternOfFour(b3.scores, 2);
    assert FirstMatch(b3.scores, 2, 3, 4, 1245) == None;
    SearchRound(b2, b3, 2, 3, None, 4, 1245, 5);
    PatternOfFour(b4.scores, 3);
    assert FirstMatch(b4.scores, 3, 4, 4, 1245) == None;
    SearchRound(b3, b4, 3, 4, None, 4, 1245, 4);
    DropsLeadingZeroTail();
  }

  /** The last three rounds of the search for 1245 in five-digit windows. */
  lemma KeepsLeadingZeroTail()
    ensures Search(Board([3, 7, 1, 0, 1, 0, 1, 2], 0, 6), 3, 5, 1245, 3) == Some(5)
  {
    var b4 := Board([3, 7, 1, 0, 1, 0, 1, 2], 0, 6);
    var b5 := Board([3, 7, 1, 0, 1, 0, 1, 2, 4], 4, 8);
    var b6 := Board([3, 7, 1, 0, 1, 0, 1, 2, 4, 5], 6, 3);
    var b7 := Board([3, 7, 1, 0, 1, 0, 1, 2, 4, 5, 1], 8, 4);
    StandardRound5(); StandardRound6(); StandardRound7();
    PatternOfFive(b5.scores, 3);
    assert FirstMatch(b5.scores, 3, 4, 5, 1245) == None;
    SearchRound(b4, b5, 3, 4, None, 5, 1245, 3);
    PatternOfFive(b6.scores, 4);
    assert FirstMatch(b6.scores, 4, 5, 5, 1245) == None;
    SearchRound(b5, b6, 4, 5, None, 5, 1245, 2);
    PatternOfFive(b7.scores, 5);
    assert FirstMatch(b7.scores, 5, 6, 5, 1245) == Some(5);
    SearchRound(b6, b7, 5, 6, Some(5), 5, 1245, 1);
  }

  /** Searching for the digits as written, five of them here, answers 5. */
  lemma PartTwoDigitsKeepsLeadingZero()
    ensures PartTwoDigits("01245", 7) == Some(5)
  {
    var b0 := Board([3, 7], 0, 1);
    var b1 := Board([3, 7, 1, 0], 0, 1);
    var b2 := Board([3, 7, 1, 0, 1, 0], 4, 3);
    var b3 := Board([3, 7, 1, 0, 1, 0, 1], 6, 4);
    var b4 := Board([3, 7, 1, 0, 1, 0, 1, 2], 0, 6);
    StandardRound1(); StandardRound2(); StandardRound3(); StandardRound4();
    DigitsOf01245();
    assert FirstMatch(b1.scores, 0, 0, 5, 1245) == None;
    SearchRound(b0, b1, 0, 0, None, 5, 1245, 7);
    PatternOfFive(b2.scores, 0);
    assert FirstMatch(b2.scores, 0, 1, 5, 1245) == None;
    SearchRound(b1, b2, 0, 1, None, 5, 1245, 6);
    PatternOfFive(b3.scores, 1);
    assert FirstMatch(b3.scores, 1, 2, 5, 1245) == None;
    SearchRound(b2, b3, 1, 2, None, 5, 1245, 5);
    PatternOfFive(b4.scores, 2);
    assert FirstMatch(b4.scores, 2, 3, 5, 1245) == None;
    SearchRound(b3, b4, 2, 3, None, 5, 1245, 4);
    KeepsLeadingZeroTail();
  }
}
