/** src/bin/16.rs: a machine with four registers and sixteen opcodes, the filter that lists
    the opcodes a before/after sample admits, the deduction of which opcode each opcode
    number stands for, and the left fold that runs a program from zeroed registers. */
module ChronalClassification {
  import opened Options
  import opened Text

  datatype Opcode =
    | Addr | Addi | Mulr | Muli | Banr | Bani | Borr | Bori
    | Setr | Seti | Gtir | Gtri | Gtrr | Eqir | Eqri | Eqrr

  /** `Opcode::iterator`: every opcode once, in declaration order. */
  const AllOpcodes: seq<Opcode> :=
    [Addr, Addi, Mulr, Muli, Banr, Bani, Borr, Bori, Setr, Seti, Gtir, Gtri, Gtrr, Eqir, Eqri, Eqrr]

  /** The declaration index of an opcode. */
  function Ordinal(op: Opcode): nat
  {
    match op
    case Addr => 0  case Addi => 1  case Mulr => 2  case Muli => 3
    case Banr => 4  case Bani => 5  case Borr => 6  case Bori => 7
    case Setr => 8  case Seti => 9  case Gtir => 10 case Gtri => 11
    case Gtrr => 12 case Eqir => 13 case Eqri => 14 case Eqrr => 15
  }

  /** The enumeration lists each opcode exactly once, at its declaration index. */
  lemma AllOpcodesEnumerates()
    ensures |AllOpcodes| == 16
    ensures forall i :: 0 <= i < 16 ==> Ordinal(AllOpcodes[i]) == i
    ensures forall op: Opcode :: op in AllOpcodes && AllOpcodes[Ordinal(op)] == op
  {
    forall op: Opcode ensures op in AllOpcodes && AllOpcodes[Ordinal(op)] == op {
      match op
      case Addr => case Addi => case Mulr => case Muli =>
      case Banr => case Bani => case Borr => case Bori =>
      case Setr => case Seti => case Gtir => case Gtri =>
      case Gtrr => case Eqir => case Eqri => case Eqrr =>
    }
  }

  /** `Opcode::from_usize`: the `i`-th opcode of the enumeration; it panics for `i >= 16`. */
  function FromUsize(i: nat): (op: Opcode)
    requires i < 16
    ensures Ordinal(op) == i
  {
    AllOpcodesEnumerates();
    AllOpcodes[i]
  }

  /** Register contents, and also the four numbers of an encoded instruction (`[usize; 4]`). */
  type Quad = s: seq<nat> | |s| == 4 witness [0, 0, 0, 0]

  datatype Instruction = Instruction(opcodeNum: nat, inputA: nat, inputB: nat, output: nat)

  /** `Instruction::new`: the four numbers of an encoded instruction, in order. */
  function NewInstruction(w: Quad): (inst: Instruction)
    ensures [inst.opcodeNum, inst.inputA, inst.inputB, inst.output] == w
  {
    Instruction(w[0], w[1], w[2], w[3])
  }

  // ---------------------------------------------------------------------------
  // Bitwise operations on unbounded naturals

  /** `a & b`, bit by bit from the least significant end. */
  function BitAnd(a: nat, b: nat): (r: nat)
    ensures r <= a && r <= b
    decreases a
  {
    if a == 0 || b == 0 then 0
    else 2 * BitAnd(a / 2, b / 2) + (if a % 2 == 1 && b % 2 == 1 then 1 else 0)
  }

  /** `a | b`, bit by bit from the least significant end. */
  function BitOr(a: nat, b: nat): (r: nat)
    ensures a <= r && b <= r && r <= a + b
    decreases a + b
  {
    if a == 0 then b
    else if b == 0 then a
    else 2 * BitOr(a / 2, b / 2) + (if a % 2 == 1 || b % 2 == 1 then 1 else 0)
  }

  /** The two operations split the sum of their operands: `(a & b) + (a | b) == a + b`. */
  lemma {:induction false} BitAndPlusBitOr(a: nat, b: nat)
    ensures BitAnd(a, b) + BitOr(a, b) == a + b
    decreases a
  {
    if a != 0 && b != 0 {
      BitAndPlusBitOr(a / 2, b / 2);
    }
  }

  lemma {:induction false} BitAndCommutes(a: nat, b: nat)
    ensures BitAnd(a, b) == BitAnd(b, a)
    decreases a
  {
    if a != 0 && b != 0 {
      BitAndCommutes(a / 2, b / 2);
    }
  }

  lemma {:induction false} BitOrCommutes(a: nat, b: nat)
    ensures BitOr(a, b) == BitOr(b, a)
    decreases a + b
  {
    if a != 0 && b != 0 {
      BitOrCommutes(a / 2, b / 2);
    }
  }

  // ---------------------------------------------------------------------------
  // One instruction

  /** Opcodes whose first operand names a register (all but `seti`, `gtir` and `eqir`). */
  predicate ReadsRegisterA(op: Opcode)
  {
    !(op == Seti || op == Gtir || op == Eqir)
  }

  /** Opcodes whose second operand names a register. */
  predicate ReadsRegisterB(op: Opcode)
  {
    op == Addr || op == Mulr || op == Banr || op == Borr || op == Gtir || op == Gtrr || op == Eqir || op == Eqrr
  }

  predicate IsComparison(op: Opcode)
  {
    op == Gtir || op == Gtri || op == Gtrr || op == Eqir || op == Eqri || op == Eqrr
  }

  /** Every register index `run_instruction` uses with `op` is in bounds, so the indexing cannot panic. */
  predicate IndicesInRange(inst: Instruction, op: Opcode)
  {
    && inst.output < 4
    && (ReadsRegisterA(op) ==> inst.inputA < 4)
    && (ReadsRegisterB(op) ==> inst.inputB < 4)
  }

  /** All three operands are register indices, which makes every opcode safe to run. */
  predicate WellFormed(inst: Instruction)
  {
    inst.inputA < 4 && inst.inputB < 4 && inst.output < 4
  }

  function AsNat(b: bool): nat { if b then 1 else 0 }

  /** The value an opcode computes before it is stored in the output register. */
  function Compute(inst: Instruction, regs: Quad, op: Opcode): nat
    requires IndicesInRange(inst, op)
  {
    var a, b := inst.inputA, inst.inputB;
    match op
    case Addr => regs[a] + regs[b]
    case Addi => regs[a] + b
    case Mulr => regs[a] * regs[b]
    case Muli => regs[a] * b
    case Banr => BitAnd(regs[a], regs[b])
    case Bani => BitAnd(regs[a], b)
    case Borr => BitOr(regs[a], regs[b])
    case Bori => BitOr(regs[a], b)
    case Setr => regs[a]
    case Seti => a
    case Gtir => AsNat(a > regs[b])
    case Gtri => AsNat(regs[a] > b)
    case Gtrr => AsNat(regs[a] > regs[b])
    case Eqir => AsNat(a == regs[b])
    case Eqri => AsNat(regs[a] == b)
    case Eqrr => AsNat(regs[a] == regs[b])
  }

  /** `Instruction::run_instruction`: a copy of the registers with the output register overwritten. */
  function Run(inst: Instruction, regs: Quad, op: Opcode): (r: Quad)
    requires IndicesInRange(inst, op)
    ensures forall i :: 0 <= i < 4 && i != inst.output ==> r[i] == regs[i]
    ensures IsComparison(op) ==> r[inst.output] == 0 || r[inst.output] == 1
    ensures op == Seti ==> r[inst.output] == inst.inputA
    ensures op == Setr ==> r[inst.output] == regs[inst.inputA]
    ensures op == Banr ==> r[inst.output] <= regs[inst.inputA] && r[inst.output] <= regs[inst.inputB]
    ensures op == Borr ==> regs[inst.inputA] <= r[inst.output] && regs[inst.inputB] <= r[inst.output]
  {
    regs[inst.output := Compute(inst, regs, op)]
  }

  /** The register-register forms of the symmetric operations do not depend on operand order. */
  lemma SymmetricOpcodes(inst: Instruction, regs: Quad, op: Opcode)
    requires op == Addr || op == Mulr || op == Banr || op == Borr || op == Eqrr
    requires WellFormed(inst)
    ensures Run(inst, regs, op) == Run(inst.(inputA := inst.inputB, inputB := inst.inputA), regs, op)
  {
    var x, y := regs[inst.inputA], regs[inst.inputB];
    if op == Banr {
      BitAndCommutes(x, y);
    } else if op == Borr {
      BitOrCommutes(x, y);
    } else if op == Mulr {
      assert x * y == y * x;
    }
  }

  // ---------------------------------------------------------------------------
  // Samples

  datatype Sample = Sample(before: Quad, inst: Instruction, after: Quad)

  /** The sample's instruction, executed as `op`, turns its `before` registers into its `after` registers. */
  predicate Matches(s: Sample, op: Opcode)
    requires WellFormed(s.inst)
  {
    Run(s.inst, s.before, op) == s.after
  }

  /** Opcodes listed in strictly increasing declaration order (so without repetition). */
  predicate InOrder(ops: seq<Opcode>)
  {
    forall i, j :: 0 <= i < j < |ops| ==> Ordinal(ops[i]) < Ordinal(ops[j])
  }

  /** Keeping some of the earlier opcodes and then the last one keeps the order. */
  lemma InOrderAppend(init: seq<Opcode>, r: seq<Opcode>, last: Opcode)
    requires InOrder(init + [last]) && InOrder(r) && forall op :: op in r ==> op in init
    ensures InOrder(init) && InOrder(r + [last])
  {
    var ops := init + [last];
    assert forall i :: 0 <= i < |init| ==> ops[i] == init[i];
    forall i | 0 <= i < |r| ensures Ordinal(r[i]) < Ordinal(last) {
      assert r[i] in init;
      var j :| 0 <= j < |init| && init[j] == r[i];
      assert ops[j] == r[i] && ops[|init|] == last;
    }
  }

  /** The fold of `get_all_valid_opcode` over the opcodes `ops`: those that match, in the order met. */
  function MatchingAmong(s: Sample, ops: seq<Opcode>): (r: seq<Opcode>)
    requires WellFormed(s.inst)
    ensures forall op :: op in r <==> op in ops && Matches(s, op)
    ensures InOrder(ops) ==> InOrder(r)
  {
    if ops == [] then []
    else
      var init, last := ops[..|ops| - 1], ops[|ops| - 1];
      assert ops == init + [last];
      var r := MatchingAmong(s, init);
      if Matches(s, last) then
        assert InOrder(ops) ==> InOrder(r + [last]) by {
          if InOrder(ops) {
            InOrderAppend(init, r, last);
          }
        }
        r + [last]
      else
        assert InOrder(ops) ==> InOrder(r) by {
          if InOrder(ops) {
            InOrderAppend(init, [], last);
          }
        }
        r
  }

  /** `get_all_valid_opcode`: exactly the opcodes consistent with the sample, in enumeration order. */
  function ValidOpcodes(s: Sample): (r: seq<Opcode>)
    requires WellFormed(s.inst)
    ensures forall op :: op in r <==> Matches(s, op)
    ensures InOrder(r)
  {
    AllOpcodesEnumerates();
    MatchingAmong(s, AllOpcodes)
  }

  predicate Ambiguous(s: Sample)
    requires WellFormed(s.inst)
  {
    |ValidOpcodes(s)| >= 3
  }

  predicate AllWellFormed(samples: seq<Sample>)
  {
    forall i :: 0 <= i < |samples| ==> WellFormed(samples[i].inst)
  }

  /** `Iterator::sum` over naturals, adding from the left. */
  function Sum(xs: seq<nat>): nat
  {
    if xs == [] then 0 else Sum(xs[..|xs| - 1]) + xs[|xs| - 1]
  }

  /** A sum of zeros and ones counts the positions holding a one. */
  lemma {:induction false} SumOfIndicators(xs: seq<nat>)
    requires forall i :: 0 <= i < |xs| ==> xs[i] <= 1
    ensures Sum(xs) == |set i | 0 <= i < |xs| && xs[i] == 1|
    ensures Sum(xs) <= |xs|
  {
    if xs != [] {
      var n := |xs|;
      var init := xs[..n - 1];
      SumOfIndicators(init);
      var before := set i | 0 <= i < n - 1 && init[i] == 1;
      var after := set i | 0 <= i < n && xs[i] == 1;
      assert before == set i | 0 <= i < n - 1 && xs[i] == 1;
      if xs[n - 1] == 1 {
        assert after == before + {n - 1};
      } else {
        assert after == before;
      }
    }
  }

  /** `part_one`: each sample mapped to 1 if it admits at least three opcodes and to 0
      otherwise, then summed; the result is the number of ambiguous samples. */
  function CountAmbiguous(samples: seq<Sample>): (n: nat)
    requires AllWellFormed(samples)
    ensures n == |set i | 0 <= i < |samples| && Ambiguous(samples[i])|
    ensures n <= |samples|
  {
    var flags := seq(|samples|, i requires 0 <= i < |samples| => AsNat(Ambiguous(samples[i])));
    SumOfIndicators(flags);
    assert forall i :: 0 <= i < |samples| ==> (flags[i] == 1 <==> Ambiguous(samples[i]));
    assert (set i | 0 <= i < |flags| && flags[i] == 1) == set i | 0 <= i < |samples| && Ambiguous(samples[i]);
    Sum(flags)
  }

  // ---------------------------------------------------------------------------
  // Deducing the opcode numbers

  /** `op` agrees with every sample in `samples` that carries opcode number `k`. */
  predicate ConsistentWith(samples: seq<Sample>, k: nat, op: Opcode)
    requires AllWellFormed(samples)
  {
    forall i :: 0 <= i < |samples| && samples[i].inst.opcodeNum == k ==> Matches(samples[i], op)
  }

  /** The opcodes that agree with every sample carrying number `k`: the first-phase candidates. */
  function Consistent(samples: seq<Sample>, k: nat): set<Opcode>
    requires AllWellFormed(samples)
  {
    set op | op in AllOpcodes && ConsistentWith(samples, k, op)
  }

  /** Taking one more sample into account intersects the candidates of its opcode number
      with the opcodes that sample admits, and leaves the other numbers alone. */
  lemma ConsistentStep(samples: seq<Sample>, i: nat, k: nat)
    requires i < |samples| && AllWellFormed(samples)
    ensures Consistent(samples[..i + 1], k) ==
      if samples[i].inst.opcodeNum == k
      then Consistent(samples[..i], k) * set op | op in ValidOpcodes(samples[i])
      else Consistent(samples[..i], k)
  {
    var pre, post := samples[..i], samples[..i + 1];
    assert forall j :: 0 <= j < i ==> post[j] == pre[j];
    assert post[i] == samples[i];
    forall op ensures ConsistentWith(post, k, op) <==>
      ConsistentWith(pre, k, op) && (samples[i].inst.opcodeNum == k ==> Matches(samples[i], op))
    {
    }
  }

  /** `opcode_found`: the union of the candidate sets that are singletons. */
  function Found(c: seq<set<Opcode>>): set<Opcode>
  {
    if c == [] then {}
    else
      var last := c[|c| - 1];
      Found(c[..|c| - 1]) + (if |last| == 1 then last else {})
  }

  /** An opcode is found exactly when some candidate set is that opcode alone. */
  lemma {:induction false} FoundMembers(c: seq<set<Opcode>>)
    ensures forall op :: op in Found(c) <==> exists k :: 0 <= k < |c| && |c[k]| == 1 && op in c[k]
  {
    if c != [] {
      var init := c[..|c| - 1];
      FoundMembers(init);
      assert forall k :: 0 <= k < |init| ==> init[k] == c[k];
    }
  }

  /** One round of the `while` loop's map: each non-singleton set loses the opcodes already found. */
  function Eliminate(c: seq<set<Opcode>>, found: set<Opcode>): (r: seq<set<Opcode>>)
    ensures |r| == |c|
    ensures forall k :: 0 <= k < |c| ==> r[k] <= c[k]
    ensures forall k :: 0 <= k < |c| && |c[k]| == 1 ==> r[k] == c[k]
    ensures forall k :: 0 <= k < |c| && |c[k]| != 1 ==> r[k] !! found
    ensures forall k :: 0 <= k < |c| && |c[k]| != 1 ==> r[k] == c[k] - found
  {
    seq(|c|, k requires 0 <= k < |c| => if |c[k]| != 1 then c[k] - found else c[k])
  }

  function TotalSize(c: seq<set<Opcode>>): nat
  {
    if c == [] then 0 else TotalSize(c[..|c| - 1]) + |c[|c| - 1]|
  }

  /** Shrinking sets shrink the total, strictly unless nothing changed. */
  lemma {:induction false} TotalSizeShrinks(c: seq<set<Opcode>>, d: seq<set<Opcode>>)
    requires |d| == |c|
    requires forall k :: 0 <= k < |c| ==> d[k] <= c[k]
    ensures TotalSize(d) <= TotalSize(c)
    ensures d != c ==> TotalSize(d) < TotalSize(c)
  {
    if c != [] {
      var n := |c|;
      TotalSizeShrinks(c[..n - 1], d[..n - 1]);
      if d[n - 1] != c[n - 1] {
        var x :| x in c[n - 1] - d[n - 1];
        assert |c[n - 1]| == |d[n - 1]| + |c[n - 1] - d[n - 1]|;
      } else if d != c {
        assert d[..n - 1] != c[..n - 1] by {
          assert d == d[..n - 1] + [d[n - 1]];
          assert c == c[..n - 1] + [c[n - 1]];
        }
      }
    }
  }

  function SingletonCount(c: seq<set<Opcode>>): nat
  {
    if c == [] then 0 else SingletonCount(c[..|c| - 1]) + (if |c[|c| - 1]| == 1 then 1 else 0)
  }

  lemma {:induction false} SingletonCountBound(c: seq<set<Opcode>>)
    ensures SingletonCount(c) <= |c|
    ensures SingletonCount(c) == |c| ==> forall k :: 0 <= k < |c| ==> |c[k]| == 1
  {
    if c != [] {
      SingletonCountBound(c[..|c| - 1]);
    }
  }

  lemma SingletonFound(c: seq<set<Opcode>>, k: nat)
    requires k < |c| && |c[k]| == 1
    ensures c[k] <= Found(c)
  {
    FoundMembers(c);
  }

  /** At most one opcode is found per singleton set. */
  lemma {:induction false} FoundAtMostSingletons(c: seq<set<Opcode>>)
    ensures |Found(c)| <= SingletonCount(c)
  {
    if c != [] {
      var n := |c|;
      var init, last := c[..n - 1], c[n - 1];
      var extra := if |last| == 1 then last else {};
      FoundAtMostSingletons(init);
      assert Found(c) == Found(init) + extra;
      assert |Found(init) + extra| + |Found(init) * extra| == |Found(init)| + |extra|;
    }
  }

  /** All `|c|` opcodes are found only if no two sets are equal. */
  lemma {:induction false} FoundAllDistinct(c: seq<set<Opcode>>)
    ensures |Found(c)| >= |c| ==> forall i, j :: 0 <= i < j < |c| ==> c[i] != c[j]
  {
    if c != [] && |Found(c)| >= |c| {
      var n := |c|;
      var init, last := c[..n - 1], c[n - 1];
      AllFoundLast(c);
      AllFoundSingletons(init);
      FoundAllDistinct(init);
      FoundLastIsNew(init, last);
      assert c == init + [last];
      DistinctExtend(init, last);
    }
  }

  /** All `|c|` found makes every set a singleton. */
  lemma AllFoundSingletons(c: seq<set<Opcode>>)
    requires |Found(c)| >= |c|
    ensures forall k :: 0 <= k < |c| ==> |c[k]| == 1
  {
    FoundAtMostSingletons(c);
    SingletonCountBound(c);
  }

  lemma DistinctExtend(init: seq<set<Opcode>>, last: set<Opcode>)
    requires forall i, j :: 0 <= i < j < |init| ==> init[i] != init[j]
    requires forall i :: 0 <= i < |init| ==> init[i] != last
    ensures forall i, j :: 0 <= i < j < |init| + 1 ==> (init + [last])[i] != (init + [last])[j]
  {
  }

  /** When all `|c|` opcodes are found, the last set is a singleton whose opcode is new, and the
      sets before it have all theirs found too. */
  lemma AllFoundLast(c: seq<set<Opcode>>)
    requires c != [] && |Found(c)| >= |c|
    ensures |c[|c| - 1]| == 1 && Found(c[..|c| - 1]) !! c[|c| - 1]
    ensures |Found(c[..|c| - 1])| >= |c| - 1
  {
    var n := |c|;
    var init, last := c[..n - 1], c[n - 1];
    var extra := if |last| == 1 then last else {};
    var old_ := Found(init);
    FoundAtMostSingletons(init);
    SingletonCountBound(init);
    assert Found(c) == old_ + extra;
    assert |old_ + extra| + |old_ * extra| == |old_| + |extra|;
    assert |last| == 1 && |old_| == n - 1 && old_ * extra == {};
    forall x | x in last ensures x !in old_ {
      assert x !in old_ * extra;
    }
  }

  /** At most one opcode is found per singleton set; all `|c|` are found only if every set is a
      singleton and no two sets are equal, which makes the final table a bijection. */
  lemma FoundBound(c: seq<set<Opcode>>)
    ensures |Found(c)| <= SingletonCount(c)
    ensures |Found(c)| >= |c| ==> forall k :: 0 <= k < |c| ==> |c[k]| == 1
    ensures |Found(c)| >= |c| ==> forall i, j :: 0 <= i < j < |c| ==> c[i] != c[j]
  {
    FoundAtMostSingletons(c);
    SingletonCountBound(c);
    FoundAllDistinct(c);
  }

  /** The step of `FoundBound` for the last set: a new singleton differs from the earlier ones. */
  lemma FoundLastIsNew(init: seq<set<Opcode>>, last: set<Opcode>)
    requires |last| == 1 && Found(init) !! last
    requires forall k :: 0 <= k < |init| ==> |init[k]| == 1
    ensures forall i :: 0 <= i < |init| ==> init[i] != last
  {
    forall i | 0 <= i < |init| ensures init[i] != last {
      SingletonFound(init, i);
      var x :| x in last;
      assert x !in Found(init);
      assert x !in init[i];
    }
  }

  /** Candidate sets on which the `while` loop never ends: fewer than sixteen opcodes are found,
      and a round of elimination gives the same sets back, so `opcode_found` and the loop
      condition do not change either. */
  predicate Stuck(c: seq<set<Opcode>>)
  {
    |Found(c)| < 16 && Round(c) == c
  }

  /** `n` applications of `f`, starting from `x`. */
  function Iterate<T>(f: T -> T, x: T, n: nat): T
  {
    if n == 0 then x else f(Iterate(f, x, n - 1))
  }

  /** Iterating a step that preserves a property preserves it. */
  lemma {:induction false} IteratePreserves<T>(f: T -> T, p: T -> bool, x: T, n: nat)
    requires p(x) && forall y :: p(y) ==> p(f(y))
    ensures p(Iterate(f, x, n))
  {
    if n > 0 {
      IteratePreserves(f, p, x, n - 1);
    }
  }

  /** Iterating a step that only grows a measured set only grows it. */
  lemma {:induction false} IterateGrows<T, U>(f: T -> T, g: T -> set<U>, x: T, m: nat, n: nat)
    requires forall y :: g(y) <= g(f(y))
    requires m <= n
    ensures g(Iterate(f, x, m)) <= g(Iterate(f, x, n))
    decreases n - m
  {
    if m < n {
      IterateGrows(f, g, x, m, n - 1);
      assert g(Iterate(f, x, n - 1)) <= g(f(Iterate(f, x, n - 1)));
    }
  }

  /** A fixpoint of `f` stays put. */
  lemma {:induction false} IterateFixpoint<T>(f: T -> T, x: T, n: nat, m: nat)
    requires f(Iterate(f, x, n)) == Iterate(f, x, n) && n <= m
    ensures Iterate(f, x, m) == Iterate(f, x, n)
    decreases m - n
  {
    if n < m {
      IterateFixpoint(f, x, n, m - 1);
    }
  }

  /** One pass of the `while` body: eliminate the opcodes found so far. */
  function Round(c: seq<set<Opcode>>): (r: seq<set<Opcode>>)
    ensures |r| == |c|
  {
    Eliminate(c, Found(c))
  }

  /** The candidate sets after `n` passes of the `while` body. */
  function Rounds(c: seq<set<Opcode>>, n: nat): (r: seq<set<Opcode>>)
    ensures |r| == |c|
  {
    RoundsLength(c, n);
    Iterate(Round, c, n)
  }

  /** Rounds keep the number of candidate sets. */
  lemma RoundsLength(c: seq<set<Opcode>>, n: nat)
    ensures |Iterate(Round, c, n)| == |c|
  {
    IteratePreserves(Round, (y: seq<set<Opcode>>) => |y| == |c|, c, n);
  }

  /** A round keeps every singleton, so every opcode found stays found. */
  lemma RoundKeepsFound(c: seq<set<Opcode>>)
    ensures Found(c) <= Found(Round(c))
  {
    FoundMembers(c);
    FoundMembers(Round(c));
  }

  /** Rounds only add found opcodes: fewer than sixteen after `n` rounds means fewer before. */
  lemma FoundGrows(c: seq<set<Opcode>>, m: nat, n: nat)
    requires m <= n
    ensures Found(Rounds(c, m)) <= Found(Rounds(c, n))
    ensures |Found(Rounds(c, m))| <= |Found(Rounds(c, n))|
  {
    forall y ensures Found(y) <= Found(Round(y)) {
      RoundKeepsFound(y);
    }
    IterateGrows(Round, Found, c, m, n);
    SubsetSize(Found(Rounds(c, m)), Found(Rounds(c, n)));
  }

  lemma SubsetSize(a: set<Opcode>, b: set<Opcode>)
    requires a <= b
    ensures |a| <= |b|
  {
    assert b == a + (b - a);
  }

  /** Once the sets are stuck, every later round gives them back unchanged. */
  lemma StuckStays(c: seq<set<Opcode>>, n: nat, m: nat)
    requires Stuck(Rounds(c, n)) && n <= m
    ensures Rounds(c, m) == Rounds(c, n)
  {
    IterateFixpoint(Round, c, n, m);
  }

  /** Once sixteen opcodes are found every set is a singleton, which a round keeps: the sets, and
      so the table, are the same whichever later round the loop stops at. */
  lemma DoneStays(c: seq<set<Opcode>>, n: nat, m: nat)
    requires |c| == 16 && |Found(Rounds(c, n))| >= 16 && n <= m
    ensures Rounds(c, m) == Rounds(c, n)
  {
    var done := Rounds(c, n);
    FoundBound(done);
    assert Round(done) == done;
    IterateFixpoint(Round, c, n, m);
  }

  /** Stuck after some round means that no round ever finds all sixteen opcodes: the Rust
      `while` loop never exits. */
  lemma StuckNeverDone(c: seq<set<Opcode>>, n: nat, m: nat)
    requires Stuck(Rounds(c, n))
    ensures |Found(Rounds(c, m))| < 16
  {
    if m <= n {
      FoundGrows(c, m, n);
    } else {
      StuckStays(c, n, m);
    }
  }

  /** `compute_conversion_table`. `None` stands for the case where a round of the `while` loop
      changes no candidate set while fewer than sixteen opcodes are found: the Rust loop then
      repeats the same round forever. */
  method ComputeConversionTable(samples: seq<Sample>) returns (table: Option<seq<Opcode>>)
    requires forall i :: 0 <= i < |samples| ==> WellFormed(samples[i].inst) && samples[i].inst.opcodeNum < 16
    ensures table.Some? ==> |table.value| == 16
    ensures table.Some? ==> forall i, j :: 0 <= i < j < 16 ==> table.value[i] != table.value[j]
    ensures table.Some? ==> forall k, i :: 0 <= k < 16 && 0 <= i < |samples| && samples[i].inst.opcodeNum == k
                              ==> Matches(samples[i], table.value[k])
    ensures table.Some? ==> exists n: nat :: |Found(Rounds(FirstCandidates(samples), n))| >= 16
                              && forall k :: 0 <= k < 16 ==> Rounds(FirstCandidates(samples), n)[k] == {table.value[k]}
    ensures table.None? ==> exists n: nat :: Stuck(Rounds(FirstCandidates(samples), n))
  {
    var firstGuess := FirstGuess(samples);
    var final := EliminateFound(firstGuess);
    if final.None? {
      return None;
    }
    var result := PickSingletons(final.value);
    ghost var n: nat :| final.value == Rounds(firstGuess, n);
    forall k, i | 0 <= k < 16 && 0 <= i < |samples| && samples[i].inst.opcodeNum == k
      ensures Matches(samples[i], result[k])
    {
      assert result[k] in firstGuess[k];
    }
    table := Some(result);
  }

  /** The candidate sets the `for` loop over the samples leaves: `Consistent` for each number. */
  function FirstCandidates(samples: seq<Sample>): (c: seq<set<Opcode>>)
    requires AllWellFormed(samples)
    ensures |c| == 16
  {
    seq(16, k requires 0 <= k < 16 => Consistent(samples, k))
  }

  /** The first guess from the samples: for each number the opcodes every sample with that number admits. */
  method FirstGuess(samples: seq<Sample>) returns (candidates: seq<set<Opcode>>)
    requires forall i :: 0 <= i < |samples| ==> WellFormed(samples[i].inst) && samples[i].inst.opcodeNum < 16
    ensures |candidates| == 16 && forall k :: 0 <= k < 16 ==> candidates[k] == Consistent(samples, k)
    ensures candidates == FirstCandidates(samples)
  {
    AllOpcodesEnumerates();
    var all := set op | op in AllOpcodes;
    candidates := seq(16, _ => all);
    for i := 0 to |samples|
      invariant |candidates| == 16
      invariant forall k :: 0 <= k < 16 ==> candidates[k] == Consistent(samples[..i], k)
    {
      var s := samples[i];
      var matching := set op | op in ValidOpcodes(s);
      var k := s.inst.opcodeNum;
      forall k' | 0 <= k' < 16
        ensures Consistent(samples[..i + 1], k') == if k' == k then candidates[k] * matching else candidates[k']
      {
        ConsistentStep(samples, i, k');
      }
      candidates := candidates[k := candidates[k] * matching];
    }
    assert samples[..|samples|] == samples;
  }

  /** The `while` loop: eliminate the opcodes already found until sixteen are found, or `None`
      when a round changes nothing. */
  method EliminateFound(first: seq<set<Opcode>>) returns (final: Option<seq<set<Opcode>>>)
    requires |first| == 16
    ensures final.Some? ==> |final.value| == 16 && |Found(final.value)| >= 16
    ensures final.Some? ==> forall k :: 0 <= k < 16 ==> final.value[k] <= first[k]
    ensures final.Some? ==> exists n: nat :: final.value == Rounds(first, n)
    ensures final.None? ==> exists n: nat :: Stuck(Rounds(first, n))
  {
    var candidates := first;
    var found := Found(candidates);
    ghost var n := 0;
    while |found| < 16
      invariant |candidates| == 16
      invariant forall k :: 0 <= k < 16 ==> candidates[k] <= first[k]
      invariant found == Found(candidates)
      invariant candidates == Rounds(first, n)
      decreases TotalSize(candidates)
    {
      var next := Eliminate(candidates, found);
      if next == candidates {
        assert Stuck(Rounds(first, n));
        return None;
      }
      TotalSizeShrinks(candidates, next);
      candidates := next;
      found := Found(candidates);
      n := n + 1;
    }
    final := Some(candidates);
  }

  /** The final `map`: the element of each candidate set, once all sixteen are found. */
  method PickSingletons(c: seq<set<Opcode>>) returns (result: seq<Opcode>)
    requires |c| == 16 && |Found(c)| >= 16
    ensures |result| == 16 && forall k :: 0 <= k < 16 ==> c[k] == {result[k]}
    ensures forall i, j :: 0 <= i < j < 16 ==> result[i] != result[j]
  {
    FoundBound(c);
    result := [];
    for k := 0 to 16
      invariant |result| == k
      invariant forall j :: 0 <= j < k ==> c[j] == {result[j]}
    {
      var op :| op in c[k];
      SingletonIs(c[k], op);
      result := result + [op];
    }
    forall i, j | 0 <= i < j < 16 ensures result[i] != result[j] {
      assert c[i] != c[j];
    }
  }

  lemma SingletonIs(s: set<Opcode>, x: Opcode)
    requires |s| == 1 && x in s
    ensures s == {x}
  {
    assert {x} <= s;
    assert |s - {x}| == 0;
  }

  // ---------------------------------------------------------------------------
  // Running a program

  /** Every instruction's number has a table entry and its register indices suit that opcode. */
  predicate Executable(program: seq<Quad>, table: seq<Opcode>)
  {
    forall i :: 0 <= i < |program| ==>
      program[i][0] < |table| && IndicesInRange(NewInstruction(program[i]), table[program[i][0]])
  }

  /** The fold of `compute_instructions` from the registers `regs`. A register that no
      instruction names as its output keeps its value. */
  function Execute(regs: Quad, program: seq<Quad>, table: seq<Opcode>): (r: Quad)
    requires Executable(program, table)
    ensures forall j :: 0 <= j < 4 && (forall i :: 0 <= i < |program| ==> program[i][3] != j) ==> r[j] == regs[j]
    decreases |program|
  {
    if program == [] then regs
    else
      var w := program[0];
      assert forall i :: 0 <= i < |program| - 1 ==> program[1..][i] == program[i + 1];
      Execute(Run(NewInstruction(w), regs, table[w[0]]), program[1..], table)
  }

  lemma ExecutableAppend(p: seq<Quad>, q: seq<Quad>, table: seq<Opcode>)
    requires Executable(p, table) && Executable(q, table)
    ensures Executable(p + q, table)
  {
    assert forall i :: 0 <= i < |p + q| ==> (p + q)[i] == if i < |p| then p[i] else q[i - |p|];
  }

  /** Running a program in two parts is running it once. */
  lemma {:induction false} ExecuteAppend(regs: Quad, p: seq<Quad>, q: seq<Quad>, table: seq<Opcode>)
    requires Executable(p, table) && Executable(q, table)
    ensures Executable(p + q, table)
    ensures Execute(regs, p + q, table) == Execute(Execute(regs, p, table), q, table)
    decreases |p|
  {
    ExecutableAppend(p, q, table);
    if p == [] {
      assert p + q == q;
    } else {
      var w := p[0];
      var regs' := Run(NewInstruction(w), regs, table[w[0]]);
      var p' := p[1..];
      assert (p + q)[0] == w;
      assert (p + q)[1..] == p' + q;
      assert Executable(p', table) by {
        assert forall i :: 0 <= i < |p'| ==> p'[i] == p[i + 1];
      }
      ExecuteAppend(regs', p', q, table);
      assert Execute(regs, p + q, table) == Execute(regs', p' + q, table);
      assert Execute(regs, p, table) == Execute(regs', p', table);
    }
  }

  /** `compute_instructions`: the program run from `[0, 0, 0, 0]`. */
  function ComputeInstructions(program: seq<Quad>, table: seq<Opcode>): (r: Quad)
    requires Executable(program, table)
    ensures forall j :: 0 <= j < 4 && (forall i :: 0 <= i < |program| ==> program[i][3] != j) ==> r[j] == 0
  {
    Execute([0, 0, 0, 0], program, table)
  }

  // ---------------------------------------------------------------------------
  // Parsing a line of numbers

  /** Every field parsed as a number, or `None` if one of them is not a number. */
  function ParseAll(fields: seq<String>): (r: Option<seq<nat>>)
    ensures r.Some? ==> |r.value| == |fields|
    ensures r.Some? <==> forall i :: 0 <= i < |fields| ==> ParseNat(fields[i]).Some?
    ensures r.Some? ==> forall i :: 0 <= i < |fields| ==> r.value[i] == ParseNat(fields[i]).value
  {
    if fields == [] then Some([])
    else
      var init, last := fields[..|fields| - 1], fields[|fields| - 1];
      assert forall i :: 0 <= i < |init| ==> init[i] == fields[i];
      match (ParseAll(init), ParseNat(last))
      case (Some(ns), Some(n)) => Some(ns + [n])
      case _ => None
  }

  /** `parse_line`: strip the `Before: [` / `After:  [` prefix, the closing brackets and the
      commas, split on single spaces and read the first four numbers. `None` where Rust panics:
      a field that is not a number, or fewer than four fields. */
  function ParseLine(line: String): (r: Option<Quad>)
    ensures var fields := Split(Strip(line), " ");
      && (r.None? <==> |fields| < 4 || exists i :: 0 <= i < |fields| && ParseNat(fields[i]).None?)
      && (r.Some? ==> |fields| >= 4 && forall i :: 0 <= i < 4 ==> r.value[i] == ParseNat(fields[i]).value)
  {
    var text := Strip(line);
    FirstFour(text)
  }

  /** The first four space-separated numbers of the stripped text; `None` when there are fewer
      than four fields or some field, not only one of the first four, is not a number. */
  function FirstFour(text: String): (r: Option<Quad>)
    ensures var fields := Split(text, " ");
      r.None? <==> |fields| < 4 || exists i :: 0 <= i < |fields| && ParseNat(fields[i]).None?
    ensures var fields := Split(text, " ");
      r.Some? ==> |fields| >= 4 && forall i :: 0 <= i < 4 ==> r.value[i] == ParseNat(fields[i]).value
  {
    var numbers := ParseAll(Split(text, " "));
    if numbers.Some? && |numbers.value| >= 4 then Some(numbers.value[..4]) else None
  }

  /** The text `parse_line` splits: the line without its prefix, closing brackets and commas. */
  function Strip(line: String): String
  {
    var unprefixed := TrimStartMatches(TrimStartMatches(line, "Before: ["), "After:  [");
    Remove(TrimEndMatches(unprefixed, ']'), ',')
  }

  lemma ParseStripped(line: String, q: Quad)
    requires Strip(line) == ShowQuad(q, " ")
    ensures ParseLine(line) == Some(q)
  {
    FirstFourShown(q);
  }

  lemma FirstFourShown(q: Quad)
    ensures FirstFour(ShowQuad(q, " ")) == Some(q)
  {
    ParseFields(q);
    assert q[..4] == q;
  }

  /** The four numbers printed with a separator, as the input writes them. */
  function ShowQuad(q: Quad, sep: String): String
  {
    Join(Numerals(q), sep)
  }

  function Numerals(q: Quad): seq<String>
  {
    [ShowNat(q[0]), ShowNat(q[1]), ShowNat(q[2]), ShowNat(q[3])]
  }

  lemma {:induction false} RemoveCommas(parts: seq<String>)
    requires |parts| >= 1
    requires forall k :: 0 <= k < |parts| ==> AllDigits(parts[k])
    ensures Remove(Join(parts, ", "), ',') == Join(parts, " ")
  {
    var a := parts[0];
    assert Avoids(a, ',');
    if |parts| > 1 {
      var tail := parts[1..];
      assert forall k :: 0 <= k < |tail| ==> AllDigits(tail[k]);
      RemoveCommas(tail);
      var rest := Join(tail, ", ");
      assert Join(parts, ", ") == a + ", " + rest;
      assert Join(parts, " ") == a + " " + Join(tail, " ");
      RemoveAppend(a + ", ", rest, ',');
      RemoveAppend(a, ", ", ',');
      RemoveCommaSpace();
    } else {
      assert Join(parts, ", ") == a == Join(parts, " ");
    }
  }

  lemma RemoveCommaSpace()
    ensures Remove(", ", ',') == " "
  {
    assert ", "[1..] == " ";
    assert Remove(" ", ',') == " ";
  }

  /** Numerals joined by any separator start and end with a digit and contain no comma
      unless the separator does. */
  lemma {:induction false} JoinedNumerals(parts: seq<String>, sep: String)
    requires |parts| >= 1 && forall k :: 0 <= k < |parts| ==> |parts[k]| > 0 && AllDigits(parts[k])
    ensures var t := Join(parts, sep); |t| > 0 && IsDigit(t[0]) && IsDigit(t[|t| - 1])
    ensures Avoids(sep, ',') ==> Avoids(Join(parts, sep), ',')
  {
    if |parts| > 1 {
      JoinedNumerals(parts[1..], sep);
    }
  }

  /** The bare `a b c d` text splits and parses back to the four numbers. */
  lemma ParseFields(q: Quad)
    ensures ParseAll(Split(ShowQuad(q, " "), " ")) == Some(q)
  {
    var parts := Numerals(q);
    assert " "[0] == ' ';
    forall k | 0 <= k < 4 ensures Avoids(parts[k], ' ') {
    }
    SplitJoin(parts, " ");
    ParseNumerals(q);
  }

  /** The four numerals parse back to the four numbers. */
  lemma ParseNumerals(q: Quad)
    ensures ParseAll(Numerals(q)) == Some(q)
  {
    var parts := Numerals(q);
    forall k | 0 <= k < 4 ensures ParseNat(parts[k]) == Some(q[k]) {
      ParseShowNat(q[k]);
    }
    var r := ParseAll(parts);
    assert r.Some? && |r.value| == 4;
    assert forall i :: 0 <= i < 4 ==> r.value[i] == q[i];
    assert r.value == q;
  }

  /** An instruction line such as `9 2 1 2` parses to its four numbers. */
  lemma ParseInstructionLine(q: Quad)
    ensures ParseLine(ShowQuad(q, " ")) == Some(q)
  {
    var text := ShowQuad(q, " ");
    JoinedNumerals(Numerals(q), " ");
    TrimStartMatchesNone(text, "Before: [");
    TrimStartMatchesNone(text, "After:  [");
    TrimEndMatchesOnce(text, ']');
    assert Strip(text) == text;
    ParseStripped(text, q);
  }

  /** A sample's `Before: [a, b, c, d]` line parses to its four numbers. */
  lemma ParseBeforeLine(q: Quad)
    ensures ParseLine("Before: [" + ShowQuad(q, ", ") + "]") == Some(q)
  {
    var numbers := ShowQuad(q, ", ");
    JoinedNumerals(Numerals(q), ", ");
    var inner := numbers + "]";
    var line := "Before: [" + inner;
    assert "Before: [" + numbers + "]" == line;
    TrimStartMatchesOnce("Before: [", inner);
    TrimStartMatchesNone(inner, "After:  [");
    TrimEndMatchesOnce(numbers, ']');
    RemoveCommas(Numerals(q));
    assert Strip(line) == ShowQuad(q, " ");
    ParseStripped(line, q);
  }

  /** A sample's `After:  [a, b, c, d]` line parses to its four numbers. */
  lemma ParseAfterLine(q: Quad)
    ensures ParseLine("After:  [" + ShowQuad(q, ", ") + "]") == Some(q)
  {
    var numbers := ShowQuad(q, ", ");
    JoinedNumerals(Numerals(q), ", ");
    var inner := numbers + "]";
    var line := "After:  [" + inner;
    assert "After:  [" + numbers + "]" == line;
    TrimStartMatchesNone(line, "Before: [");
    TrimStartMatchesOnce("After:  [", inner);
    TrimEndMatchesOnce(numbers, ']');
    RemoveCommas(Numerals(q));
    assert Strip(line) == ShowQuad(q, " ");
    ParseStripped(line, q);
  }
}
