/** src/bin/12.rs: a one-dimensional row of pots. A generation is the set of indices of the
    pots holding a plant; each pot of the next generation is decided by the first rule whose
    five-pot pattern equals the pot's neighbourhood. `simulate` runs the generations and stops
    early once the growth of the index sum looks stable, extrapolating it to the last one. */
module SubterraneanSustainability {
  import opened Options
  import opened Text

  // ---------------------------------------------------------------------------
  // Finite sets of pot indices

  lemma SomeElement(s: set<int>)
    requires s != {}
    ensures exists y :: y in s
  {
    if forall y :: y !in s {
      assert false;
    }
  }

  lemma {:induction false} MinExists(s: set<int>)
    requires s != {}
    ensures exists m :: m in s && forall x :: x in s ==> m <= x
    decreases |s|
  {
    SomeElement(s);
    var y :| y in s;
    var rest := s - {y};
    if rest != {} {
      MinExists(rest);
      var m :| m in rest && forall x :: x in rest ==> m <= x;
      var least := if y < m then y else m;
      forall x | x in s ensures least <= x {
        if x != y {
          assert x in rest;
        }
      }
      assert least in s;
    } else {
      assert s == {y};
      assert forall x :: x in s ==> y <= x;
    }
  }

  lemma {:induction false} MaxExists(s: set<int>)
    requires s != {}
    ensures exists m :: m in s && forall x :: x in s ==> x <= m
    decreases |s|
  {
    SomeElement(s);
    var y :| y in s;
    var rest := s - {y};
    if rest != {} {
      MaxExists(rest);
      var m :| m in rest && forall x :: x in rest ==> x <= m;
      var greatest := if y > m then y else m;
      forall x | x in s ensures x <= greatest {
        if x != y {
          assert x in rest;
        }
      }
      assert greatest in s;
    } else {
      assert s == {y};
      assert forall x :: x in s ==> x <= y;
    }
  }

  /** `current_state.iter().min().unwrap()` on a non-empty set. */
  function SetMin(s: set<int>): (m: int)
    requires s != {}
    ensures m in s && forall x :: x in s ==> m <= x
  {
    MinExists(s);
    var m :| m in s && forall x :: x in s ==> m <= x;
    m
  }

  /** `current_state.iter().max().unwrap()` on a non-empty set. */
  function SetMax(s: set<int>): (m: int)
    requires s != {}
    ensures m in s && forall x :: x in s ==> x <= m
  {
    MaxExists(s);
    var m :| m in s && forall x :: x in s ==> x <= m;
    m
  }

  /** `iter().sum()`: the sum of the indices, taken here smallest first. */
  function SetSum(s: set<int>): int
    decreases |s|
  {
    if s == {} then 0 else var m := SetMin(s); m + SetSum(s - {m})
  }

  /** The generation moved `d` pots to the right, built from its least index up. */
  function Shift(s: set<int>, d: int): set<int>
    decreases |s|
  {
    if s == {} then {} else {SetMin(s) + d} + Shift(s - {SetMin(s)}, d)
  }

  lemma {:induction false} ShiftMember(s: set<int>, d: int, x: int)
    ensures x in Shift(s, d) <==> x - d in s
    decreases |s|
  {
    if s != {} {
      var m := SetMin(s);
      ShiftMember(s - {m}, d, x);
      assert x - d == m <==> x == m + d;
    }
  }

  lemma ShiftRemove(s: set<int>, d: int, m: int)
    ensures Shift(s, d) - {m + d} == Shift(s - {m}, d)
  {
    forall x ensures x in Shift(s, d) - {m + d} <==> x in Shift(s - {m}, d) {
      ShiftMember(s, d, x);
      ShiftMember(s - {m}, d, x);
      assert x - d == m <==> x == m + d;
    }
  }

  lemma ShiftShiftAt(s: set<int>, t: set<int>, d: int, e: int, x: int)
    requires t == Shift(s, d)
    ensures x in Shift(t, e) <==> x in Shift(s, d + e)
  {
    ShiftMember(t, e, x);
    ShiftMember(s, d, x - e);
    ShiftMember(s, d + e, x);
    assert x - e - d == x - (d + e);
  }

  lemma ShiftShift(s: set<int>, d: int, e: int)
    ensures Shift(Shift(s, d), e) == Shift(s, d + e)
  {
    var t := Shift(s, d);
    forall x ensures x in Shift(t, e) <==> x in Shift(s, d + e) {
      ShiftShiftAt(s, t, d, e, x);
    }
  }

  lemma ShiftZero(s: set<int>)
    ensures Shift(s, 0) == s
  {
    forall x ensures x in Shift(s, 0) <==> x in s {
      ShiftMember(s, 0, x);
      assert x - 0 == x;
    }
  }

  /** The least and the greatest index move with the generation. */
  lemma ShiftBounds(s: set<int>, d: int)
    requires s != {}
    ensures Shift(s, d) != {}
    ensures SetMin(Shift(s, d)) == SetMin(s) + d && SetMax(Shift(s, d)) == SetMax(s) + d
  {
    var t := Shift(s, d);
    ShiftMember(s, d, SetMin(s) + d);
    ShiftMember(s, d, SetMax(s) + d);
    assert SetMin(s) + d in t && SetMax(s) + d in t;
    ShiftMember(s, d, SetMin(t));
    ShiftMember(s, d, SetMax(t));
    assert SetMin(s) <= SetMin(t) - d && SetMax(t) - d <= SetMax(s);
  }

  lemma MulSucc(a: int, n: nat)
    ensures (n + 1) * a == a + n * a && a * (n + 1) == a * n + a
  {
  }

  /** Moving the pots keeps their number and adds `d` to every index. */
  lemma {:induction false} SetSumShift(s: set<int>, d: int)
    ensures |Shift(s, d)| == |s|
    ensures SetSum(Shift(s, d)) == SetSum(s) + d * |s|
    decreases |s|
  {
    if s != {} {
      var m := SetMin(s);
      SetSumShift(s - {m}, d);
      SetSumShiftStep(s, d, m);
    }
  }

  lemma SetSumShiftStep(s: set<int>, d: int, m: int)
    requires s != {} && m == SetMin(s)
    requires |Shift(s - {m}, d)| == |s - {m}|
    requires SetSum(Shift(s - {m}, d)) == SetSum(s - {m}) + d * |s - {m}|
    ensures |Shift(s, d)| == |s|
    ensures SetSum(Shift(s, d)) == SetSum(s) + d * |s|
  {
    var rest := s - {m};
    var t := Shift(s, d);
    ShiftBounds(s, d);
    ShiftRemove(s, d, m);
    ShiftMember(s, d, m + d);
    assert m + d in t;
    assert |t| == |Shift(rest, d)| + 1;
    MulSucc(d, |rest|);
  }

  // ---------------------------------------------------------------------------
  // One generation

  /** A rule `LLCRR => N`: the five-pot pattern and whether the pot gets a plant. */
  datatype Rule = Rule(pattern: seq<bool>, output: bool)

  /** `situation`: whether each of the pots `p - 2 ..= p + 2` holds a plant. */
  function Window(s: set<int>, p: int): (w: seq<bool>)
    ensures |w| == 5 && forall i :: 0 <= i < 5 ==> (w[i] <==> p - 2 + i in s)
  {
    [p - 2 in s, p - 1 in s, p in s, p + 1 in s, p + 2 in s]
  }

  /** `instructions.iter().find(..)`: the first rule from index `from` on whose pattern is `w`. */
  function FindRule(rules: seq<Rule>, from: nat, w: seq<bool>): (r: Option<nat>)
    ensures r.Some? ==> from <= r.value < |rules| && rules[r.value].pattern == w
    ensures r.Some? ==> forall j :: from <= j < r.value ==> rules[j].pattern != w
    ensures r.None? ==> forall j :: from <= j < |rules| ==> rules[j].pattern != w
    decreases |rules| - from
  {
    if from >= |rules| then None
    else if rules[from].pattern == w then Some(from)
    else FindRule(rules, from + 1, w)
  }

  /** Whether pot `p` holds a plant in the next generation: the first matching rule says so;
      a pot no rule matches stays empty. */
  predicate Grows(s: set<int>, rules: seq<Rule>, p: int)
  {
    var found := FindRule(rules, 0, Window(s, p));
    found.Some? && rules[found.value].output
  }

  /** The pots among `lo..=hi` that grow, collected from the left as the loop visits them. */
  function GrownUpTo(s: set<int>, rules: seq<Rule>, lo: int, hi: int): set<int>
    decreases hi - lo
  {
    if hi < lo then {}
    else GrownUpTo(s, rules, lo, hi - 1) + (if Grows(s, rules, hi) then {hi} else {})
  }

  lemma {:induction false} GrownUpToMember(s: set<int>, rules: seq<Rule>, lo: int, hi: int, q: int)
    ensures q in GrownUpTo(s, rules, lo, hi) <==> lo <= q <= hi && Grows(s, rules, q)
    decreases hi - lo
  {
    if hi >= lo {
      GrownUpToMember(s, rules, lo, hi - 1, q);
    }
  }

  /** The next generation: the pots of `min - 2 ..= max + 2` that grow. */
  function Next(s: set<int>, rules: seq<Rule>): set<int>
    requires s != {}
  {
    GrownUpTo(s, rules, SetMin(s) - 2, SetMax(s) + 2)
  }

  /** A pot is in the next generation exactly when it is a candidate and the first rule whose
      pattern is its window fills it. */
  lemma NextMembers(s: set<int>, rules: seq<Rule>, p: int)
    requires s != {}
    ensures p in Next(s, rules) <==> SetMin(s) - 2 <= p <= SetMax(s) + 2 && Grows(s, rules, p)
  {
    GrownUpToMember(s, rules, SetMin(s) - 2, SetMax(s) + 2, p);
  }

  /** The body of the `for k` loop up to `new_state`: one pass over the candidate pots, inserting
      the pots a rule fills and removing the pots a rule empties. */
  method NextGeneration(current: set<int>, rules: seq<Rule>) returns (next: set<int>)
    requires current != {}
    ensures next == Next(current, rules)
  {
    next := {};
    var lo := SetMin(current) - 2;
    var hi := SetMax(current) + 2;
    var p := lo;
    while p <= hi
      invariant lo <= p <= hi + 1
      invariant next == GrownUpTo(current, rules, lo, p - 1)
    {
      var situation := Window(current, p);
      var found := FindRule(rules, 0, situation);
      if found.Some? {
        if rules[found.value].output {
          next := next + {p};
        } else {
          GrownUpToMember(current, rules, lo, p - 1, p);
          next := next - {p};
        }
      }
      p := p + 1;
    }
  }

  /** Outside `min - 2 ..= max + 2` every window is empty. */
  lemma EmptyWindowOutside(s: set<int>, p: int)
    requires s != {} && (p < SetMin(s) - 2 || p > SetMax(s) + 2)
    ensures Window(s, p) == [false, false, false, false, false]
  {
  }

  /** Unless a rule plants a pot with an empty neighbourhood, the bounded loop computes the rule
      for every pot of the infinite row. */
  lemma NextIsWholeRow(s: set<int>, rules: seq<Rule>)
    requires s != {} && !Grows({}, rules, 0)
    ensures forall p :: p in Next(s, rules) <==> Grows(s, rules, p)
  {
    forall p ensures p in Next(s, rules) <==> Grows(s, rules, p) {
      NextMembers(s, rules, p);
      if !(SetMin(s) - 2 <= p <= SetMax(s) + 2) {
        EmptyWindowOutside(s, p);
        assert Window({}, 0) == Window(s, p);
      }
    }
  }

  lemma WindowShift(s: set<int>, d: int, p: int)
    ensures Window(Shift(s, d), p + d) == Window(s, p)
  {
    ShiftMember(s, d, p + d - 2);
    ShiftMember(s, d, p + d - 1);
    ShiftMember(s, d, p + d);
    ShiftMember(s, d, p + d + 1);
    ShiftMember(s, d, p + d + 2);
  }

  lemma NextShiftAt(s: set<int>, t: set<int>, rules: seq<Rule>, d: int, q: int)
    requires s != {} && t != {}
    requires SetMin(t) == SetMin(s) + d && SetMax(t) == SetMax(s) + d
    requires Window(t, q) == Window(s, q - d)
    ensures q in Next(t, rules) <==> q - d in Next(s, rules)
  {
    NextMembers(t, rules, q);
    NextMembers(s, rules, q - d);
  }

  /** The rules do not depend on where the pots are: a moved generation evolves into the moved
      next generation. */
  lemma NextShift(s: set<int>, rules: seq<Rule>, d: int)
    requires s != {}
    ensures Shift(s, d) != {} && Next(Shift(s, d), rules) == Shift(Next(s, rules), d)
  {
    var t := Shift(s, d);
    var n := Next(s, rules);
    ShiftBounds(s, d);
    forall q ensures q in Next(t, rules) <==> q in Shift(n, d) {
      ShiftMember(n, d, q);
      WindowShift(s, d, q - d);
      assert q - d + d == q;
      NextShiftAt(s, t, rules, d, q);
    }
  }

  // ---------------------------------------------------------------------------
  // The run

  /** The generation after `n` steps; `None` when a generation before it is empty, where the
      Rust code panics on `min().unwrap()`. */
  function Generation(s: set<int>, rules: seq<Rule>, n: nat): Option<set<int>>
    decreases n
  {
    if n == 0 then Some(s) else if s == {} then None else Generation(Next(s, rules), rules, n - 1)
  }

  /** `new_score_growth_rate`: how much one generation adds to the sum of the indices. */
  function Growth(s: set<int>, rules: seq<Rule>): int
    requires s != {}
  {
    SetSum(Next(s, rules)) - SetSum(s)
  }

  /** The early return: the sum so far plus `growth` for each of the `remaining` generations. */
  function Extrapolate(sum: int, growth: int, remaining: nat): int
  {
    sum + growth * remaining
  }

  lemma ExtrapolateNone(sum: int, growth: int)
    ensures Extrapolate(sum, growth, 0) == sum
  {
  }

  lemma ExtrapolateStep(sum: int, growth: int, remaining: nat)
    ensures Extrapolate(sum + growth, growth, remaining) == Extrapolate(sum, growth, remaining + 1)
  {
  }

  /** The `for k in 0..cycle` loop from generation `k` on, with the growth `previous` of the last
      step if there is one. A step whose growth equals it returns the sum extrapolated with that
      growth to the last generation. `None` is the panic on an empty generation. */
  function Run(s: set<int>, previous: Option<int>, rules: seq<Rule>, k: nat, cycle: nat): Option<int>
    decreases cycle - k
  {
    if k >= cycle then Some(SetSum(s))
    else if s == {} then None
    else if previous == Some(Growth(s, rules)) then
      Some(Extrapolate(SetSum(Next(s, rules)), Growth(s, rules), cycle - k - 1))
    else Run(Next(s, rules), Some(Growth(s, rules)), rules, k + 1, cycle)
  }

  /** `simulate` as written: the previous growth starts as the sum of the initial indices. */
  method Simulate(initial: set<int>, rules: seq<Rule>, cycle: nat) returns (r: Option<int>)
    ensures r == Run(initial, Some(SetSum(initial)), rules, 0, cycle)
  {
    var current := initial;
    var previous := SetSum(initial);
    var k: nat := 0;
    while k < cycle
      invariant k <= cycle
      invariant Run(current, Some(previous), rules, k, cycle) == Run(initial, Some(SetSum(initial)), rules, 0, cycle)
    {
      if current == {} {
        return None;
      }
      var next := NextGeneration(current, rules);
      var growth := SetSum(next) - SetSum(current);
      if growth == previous {
        return Some(Extrapolate(SetSum(next), growth, cycle - k - 1));
      }
      previous := growth;
      current := next;
      k := k + 1;
    }
    return Some(SetSum(current));
  }

  /** `simulate` with the evidently intended start: no growth has been seen before the first
      generation, so the shortcut needs two consecutive equal growths. */
  function SimulateCorrected(initial: set<int>, rules: seq<Rule>, cycle: nat): Option<int>
  {
    Run(initial, None, rules, 0, cycle)
  }

  /** No two consecutive growths among the next `n` generations are equal (the first one is
      compared with `previous`), and none of those generations starts empty. */
  ghost predicate NeverStable(s: set<int>, previous: Option<int>, rules: seq<Rule>, n: nat)
    decreases n
  {
    n == 0 || (s != {} && previous != Some(Growth(s, rules))
               && NeverStable(Next(s, rules), Some(Growth(s, rules)), rules, n - 1))
  }

  /** Without the shortcut the run returns the exact sum of the last generation. */
  lemma {:induction false} RunExact(s: set<int>, previous: Option<int>, rules: seq<Rule>, k: nat, cycle: nat)
    requires k <= cycle && NeverStable(s, previous, rules, cycle - k)
    ensures Generation(s, rules, cycle - k).Some?
    ensures Run(s, previous, rules, k, cycle) == Some(SetSum(Generation(s, rules, cycle - k).value))
    decreases cycle - k
  {
    if k < cycle {
      RunExact(Next(s, rules), Some(Growth(s, rules)), rules, k + 1, cycle);
    }
  }

  /** The corrected run is exact whenever the growth never repeats. */
  lemma SimulateCorrectedExact(initial: set<int>, rules: seq<Rule>, cycle: nat)
    requires NeverStable(initial, None, rules, cycle)
    ensures Generation(initial, rules, cycle).Some?
    ensures SimulateCorrected(initial, rules, cycle) == Some(SetSum(Generation(initial, rules, cycle).value))
  {
    RunExact(initial, None, rules, 0, cycle);
  }

  lemma GliderNext(s: set<int>, rules: seq<Rule>, d: int)
    requires s != {} && Next(s, rules) == Shift(s, d)
    ensures Shift(s, d) != {} && Next(Shift(s, d), rules) == Shift(Shift(s, d), d)
  {
    NextShift(s, rules, d);
  }

  /** A glider, a generation that reappears moved by `d`, stays one and keeps moving by `d`. */
  lemma {:induction false} GliderGenerations(s: set<int>, rules: seq<Rule>, d: int, n: nat)
    requires s != {} && Next(s, rules) == Shift(s, d)
    ensures Generation(s, rules, n) == Some(Shift(s, n * d))
    decreases n
  {
    if n > 0 {
      GliderNext(s, rules, d);
      GliderGenerations(Shift(s, d), rules, d, n - 1);
      ShiftShift(s, d, (n - 1) * d);
      MulSucc(d, n - 1);
    } else {
      ShiftZero(s);
    }
  }

  /** A glider's growth is `d` for each plant, and its number of plants never changes. */
  lemma GliderGrowth(s: set<int>, rules: seq<Rule>, d: int)
    requires s != {} && Next(s, rules) == Shift(s, d)
    ensures Growth(s, rules) == d * |s| && |Next(s, rules)| == |s|
  {
    SetSumShift(s, d);
  }

  /** One step of the run that does not return early. */
  lemma RunContinues(s: set<int>, previous: Option<int>, rules: seq<Rule>, k: nat, cycle: nat)
    requires k < cycle && s != {} && previous != Some(Growth(s, rules))
    ensures Run(s, previous, rules, k, cycle) == Run(Next(s, rules), Some(Growth(s, rules)), rules, k + 1, cycle)
  {
  }

  /** One step of the run that returns early. */
  lemma RunStops(s: set<int>, previous: Option<int>, rules: seq<Rule>, k: nat, cycle: nat)
    requires k < cycle && s != {} && previous == Some(Growth(s, rules))
    ensures Run(s, previous, rules, k, cycle) == Some(Extrapolate(SetSum(Next(s, rules)), Growth(s, rules), cycle - k - 1))
  {
  }

  /** A glider keeps its growth from one generation to the next. */
  lemma GliderGrowthStays(s: set<int>, rules: seq<Rule>, d: int)
    requires s != {} && Next(s, rules) == Shift(s, d)
    ensures Next(s, rules) != {} && Next(Next(s, rules), rules) == Shift(Next(s, rules), d)
    ensures Growth(Next(s, rules), rules) == Growth(s, rules)
  {
    GliderNext(s, rules, d);
    GliderGrowth(s, rules, d);
    GliderGrowth(Next(s, rules), rules, d);
  }

  /** On a glider the run returns the current sum extrapolated with the glider's growth, whatever
      growth was seen before. */
  lemma {:induction false} GliderRun(s: set<int>, previous: Option<int>, rules: seq<Rule>, d: int, k: nat, cycle: nat)
    requires s != {} && Next(s, rules) == Shift(s, d) && k <= cycle
    ensures Run(s, previous, rules, k, cycle) == Some(Extrapolate(SetSum(s), Growth(s, rules), cycle - k))
    decreases cycle - k
  {
    var g := Growth(s, rules);
    if k < cycle {
      var next := Next(s, rules);
      ExtrapolateStep(SetSum(s), g, cycle - k - 1);
      if previous == Some(g) {
        RunStops(s, previous, rules, k, cycle);
      } else {
        RunContinues(s, previous, rules, k, cycle);
        GliderGrowthStays(s, rules, d);
        GliderRun(next, Some(g), rules, d, k + 1, cycle);
      }
    } else {
      ExtrapolateNone(SetSum(s), g);
    }
  }

  /** So on a glider the shortcut is exact: the run returns the sum of the last generation. */
  lemma GliderShortcutIsExact(s: set<int>, previous: Option<int>, rules: seq<Rule>, d: int, cycle: nat)
    requires s != {} && Next(s, rules) == Shift(s, d)
    ensures Generation(s, rules, cycle) == Some(Shift(s, cycle * d))
    ensures Run(s, previous, rules, 0, cycle) == Some(SetSum(Generation(s, rules, cycle).value))
  {
    GliderRun(s, previous, rules, d, 0, cycle);
    GliderGrowth(s, rules, d);
    GliderGenerations(s, rules, d, cycle);
    SetSumShift(s, cycle * d);
    ExtrapolateGlider(SetSum(s), d, |s|, cycle);
  }

  lemma ExtrapolateGlider(sum: int, d: int, n: nat, c: nat)
    ensures Extrapolate(sum, d * n, c) == sum + c * d * n
  {
    assert d * n * c == c * d * n;
  }

  // ---------------------------------------------------------------------------
  // The shortcut taken too early

  /** A lone plant splits into plants two pots to its left and two pots to its right. */
  const SplitRules: seq<Rule> :=
    [Rule([false, false, false, false, true], true), Rule([true, false, false, false, false], true)]

  /** Under these rules a pot grows exactly when one of the pots two away is its only neighbour
      holding a plant. */
  lemma SplitRulesGrow(s: set<int>, p: int)
    ensures Grows(s, SplitRules, p) <==>
      (p - 1 !in s && p !in s && p + 1 !in s && ((p - 2 in s && p + 2 !in s) || (p - 2 !in s && p + 2 in s)))
  {
    var w := Window(s, p);
    assert FindRule(SplitRules, 2, w) == None;
  }

  lemma PairBounds(a: int, b: int)
    requires a < b
    ensures SetMin({a, b}) == a && SetMax({a, b}) == b
  {
  }

  lemma SplitFirst()
    ensures Next({1}, SplitRules) == {-1, 3}
  {
    assert SetMin({1}) == 1 && SetMax({1}) == 1;
    forall p ensures p in Next({1}, SplitRules) <==> p in {-1, 3} {
      NextMembers({1}, SplitRules, p);
      SplitRulesGrow({1}, p);
    }
  }

  lemma SplitSecondAt(p: int)
    ensures Grows({-1, 3}, SplitRules, p) <==> p == -3 || p == 5
  {
    SplitRulesGrow({-1, 3}, p);
  }

  lemma SplitSecond()
    ensures Next({-1, 3}, SplitRules) == {-3, 5}
  {
    PairBounds(-1, 3);
    forall p ensures p in Next({-1, 3}, SplitRules) <==> p in {-3, 5} {
      NextMembers({-1, 3}, SplitRules, p);
      SplitSecondAt(p);
    }
  }

  lemma SumOfPair(a: int, b: int)
    requires a < b
    ensures SetSum({a, b}) == a + b
  {
    assert SetMin({a, b}) == a;
    assert {a, b} - {a} == {b};
    assert SetMin({b}) == b;
    assert {b} - {b} == {};
    assert SetSum({b}) == b;
  }

  /** From one plant the growth of the first generation, 1, equals the initial sum, 1, so the
      run as written extrapolates to 3 although the second generation {-3, 5} sums to 2. */
  lemma SimulateStopsEarly()
    ensures Run({1}, Some(SetSum({1})), SplitRules, 0, 2) == Some(3)
    ensures Generation({1}, SplitRules, 2) == Some({-3, 5}) && SetSum({-3, 5}) == 2
  {
    assert SetMin({1}) == 1 && {1} - {1} == {};
    SplitFirst();
    SplitSecond();
    SumOfPair(-1, 3);
    SumOfPair(-3, 5);
    assert Growth({1}, SplitRules) == 1;
  }

  /** The corrected run gives the exact sum on the same input. */
  lemma SimulateCorrectedOnSplit()
    ensures SimulateCorrected({1}, SplitRules, 2) == Some(2)
  {
    assert SetMin({1}) == 1 && {1} - {1} == {};
    SplitFirst();
    SplitSecond();
    SumOfPair(-1, 3);
    SumOfPair(-3, 5);
    assert Growth({1}, SplitRules) == 1;
    assert Growth({-1, 3}, SplitRules) == 0;
    assert NeverStable({-3, 5}, Some(0), SplitRules, 0);
    assert NeverStable({1}, None, SplitRules, 2);
    SimulateCorrectedExact({1}, SplitRules, 2);
  }

  // ---------------------------------------------------------------------------
  // Parsing

  function Glyphs(pattern: seq<bool>): (s: String)
    ensures |s| == |pattern| && forall i :: 0 <= i < |s| ==> s[i] == (if pattern[i] then '#' else '.')
  {
    if pattern == [] then [] else Glyphs(pattern[..|pattern| - 1]) + [if pattern[|pattern| - 1] then '#' else '.']
  }

  /** `chars().map(|char| char == '#')`: which characters are plants. */
  function Plants(s: String): (p: seq<bool>)
    ensures |p| == |s| && forall i :: 0 <= i < |s| ==> (p[i] <==> s[i] == '#')
  {
    if s == [] then [] else Plants(s[..|s| - 1]) + [s[|s| - 1] == '#']
  }

  /** `parse_line`: the trimmed line split at ` => `; the pattern's `#` are plants and the rule
      fills the pot when its right-hand side is exactly `#`. `None` where `args[1]` panics. */
  function ParseLine(line: String): (r: Option<Rule>)
    ensures var args := Split(Trim(line), " => ");
      && (r.Some? <==> |args| >= 2)
      && (r.Some? ==> r.value == Rule(Plants(Trim(args[0])), args[1] == "#"))
  {
    var args := Split(Trim(line), " => ");
    if |args| < 2 then None
    else
      var lhs := Trim(args[0]);
      Some(Rule(Plants(lhs), args[1] == "#"))
  }

  /** Reading the glyphs back gives the pattern. */
  lemma GlyphsBack(pattern: seq<bool>)
    ensures Plants(Glyphs(pattern)) == pattern
  {
    var p := Plants(Glyphs(pattern));
    assert forall i :: 0 <= i < |p| ==> p[i] == pattern[i];
  }

  lemma SplitRuleLine(g: String, rhs: String)
    requires Avoids(g, ' ') && |rhs| == 1 && rhs[0] != ' '
    ensures Split(g + " => " + rhs, " => ") == [g, rhs]
  {
    SplitAfter(g, " => ", rhs);
    SplitAvoiding(rhs, " => ");
  }

  lemma TrimRuleLine(g: String, rhs: String)
    requires |g| > 0 && !IsWhitespace(g[0]) && |rhs| == 1 && !IsWhitespace(rhs[0])
    ensures Trim(g + " => " + rhs) == g + " => " + rhs
  {
    var line := g + " => " + rhs;
    assert line[0] == g[0] && line[|line| - 1] == rhs[0];
    TrimClean(line);
  }

  lemma GlyphsClean(pattern: seq<bool>)
    requires |pattern| > 0
    ensures var g := Glyphs(pattern); Avoids(g, ' ') && !IsWhitespace(g[0]) && !IsWhitespace(g[|g| - 1])
  {
  }

  /** A pattern text without blanks followed by ` => ` and one glyph parses into its rule. */
  lemma ParseRuleLine(g: String, rhs: String)
    requires |g| > 0 && Avoids(g, ' ') && !IsWhitespace(g[0]) && !IsWhitespace(g[|g| - 1])
    requires |rhs| == 1 && !IsWhitespace(rhs[0])
    ensures ParseLine(g + " => " + rhs) == Some(Rule(Plants(g), rhs == "#"))
  {
    TrimRuleLine(g, rhs);
    SplitRuleLine(g, rhs);
    TrimClean(g);
  }

  /** A rule printed as `pattern => #` or `pattern => .` parses back to itself. */
  lemma ParseShowRule(r: Rule)
    requires |r.pattern| > 0
    ensures ParseLine(Glyphs(r.pattern) + " => " + (if r.output then "#" else ".")) == Some(r)
  {
    GlyphsClean(r.pattern);
    GlyphsBack(r.pattern);
    if r.output {
      ParseRuleLine(Glyphs(r.pattern), "#");
    } else {
      ParseRuleLine(Glyphs(r.pattern), ".");
    }
  }

  /** The initial state: the indices of the `#` characters after `initial state: `. */
  function InitialPots(s: String): (pots: set<int>)
    ensures forall i :: i in pots <==> 0 <= i < |s| && s[i] == '#'
  {
    set i | 0 <= i < |s| && s[i] == '#'
  }
}
