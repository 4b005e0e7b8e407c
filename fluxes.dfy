/**
 * What one explicit-Euler step does to the cells, stated on valuations.
 *
 * A box's step reads every process argument from one valuation (the state before the
 * box steps), sums the signed flux results per target attribute and then adds that sum
 * times the step length to each attribute. A round steps the boxes one after another,
 * each from the valuation the previous boxes left behind; a model step is a round
 * followed by the step counter and time update.
 */
module Fluxes {
  import opened Util
  import opened Cells

  /** A registered flux rule: name (the label), target attribute, rate function, argument cells, sign. */
  datatype Process = Process(name: string, target: string, func: seq<real> -> real, args: seq<Cell>, sign: string)

  /** The spellings treated as a negative flux; any other sign string counts as positive. */
  predicate IsNegative(sign: string)
  {
    sign == "-" || sign == "minus" || sign == "negative"
  }

  /** A flux result with its sign applied. */
  function Signed(sign: string, d: real): real
  {
    if IsNegative(sign) then d * -1.0 else d
  }

  /**
   * `x` multiplied by the step length `h`. Kept as a named function so that proofs about
   * cells treat the product as one term instead of searching nonlinear arithmetic.
   */
  function Scaled(x: real, h: real): real
  {
    x * h
  }

  /** Every argument cell of every process is among `w`. */
  ghost predicate ArgsIn(ps: seq<Process>, w: set<Cell>)
  {
    forall i, j :: 0 <= i < |ps| && 0 <= j < |ps[i].args| ==> ps[i].args[j] in w
  }

  /**
   * The values a process reads from its argument cells, in argument order. A cell the
   * valuation does not describe reads as 0.0; `Fits` below rules that case out for boxes.
   */
  function ArgValues(args: seq<Cell>, val: Valuation): seq<real>
  {
    seq(|args|, j requires 0 <= j < |args| => if args[j] in val then val[args[j]] else 0.0)
  }

  /** What process `p` contributes to the delta of attribute `t`. */
  function Term(p: Process, t: string, val: Valuation): real
  {
    if p.target == t then Signed(p.sign, p.func(ArgValues(p.args, val))) else 0.0
  }

  /** The delta accumulated for attribute `t` after running processes `ps` in order. */
  function TargetSum(ps: seq<Process>, t: string, val: Valuation): real
  {
    if ps == [] then 0.0
    else TargetSum(ps[..|ps| - 1], t, val) + Term(ps[|ps| - 1], t, val)
  }

  /** The delta of every attribute in `keys` after running processes `ps` in order. */
  ghost function Accumulated(ps: seq<Process>, keys: set<string>, val: Valuation): map<string, real>
  {
    map k | k in keys :: TargetSum(ps, k, val)
  }

  /** Running one more process adds its signed result to its target's entry and to no other. */
  lemma AccumulateOne(ps: seq<Process>, i: nat, keys: set<string>, val: Valuation)
    requires i < |ps| && ps[i].target in keys
    ensures Accumulated(ps[..i + 1], keys, val) ==
            Accumulated(ps[..i], keys, val)[ps[i].target :=
              Accumulated(ps[..i], keys, val)[ps[i].target] + Signed(ps[i].sign, ps[i].func(ArgValues(ps[i].args, val)))]
  {
    assert ps[..i + 1][..i] == ps[..i];
  }

  /** The target attribute of each process, in registration order. */
  function Targets(ps: seq<Process>): (ts: seq<string>)
    ensures |ts| == |ps|
    ensures forall i :: 0 <= i < |ps| ==> ts[i] == ps[i].target
  {
    seq(|ps|, i requires 0 <= i < |ps| => ps[i].target)
  }

  /** The parts of a box that a step depends on: attribute order, attribute cells, processes. */
  datatype BoxView = BoxView(keys: seq<string>, attr: map<string, Cell>, procs: seq<Process>)

  /** The cells the processes read. */
  ghost function ArgCells(ps: seq<Process>): set<Cell>
  {
    set i, j | 0 <= i < |ps| && 0 <= j < |ps[i].args| :: ps[i].args[j]
  }

  /** A box whose cells and argument cells are all described by a valuation over `w`. */
  ghost predicate Fits(b: BoxView, w: set<Cell>)
  {
    Distinct(b.keys) && (forall k :: k in b.attr <==> k in b.keys) &&
    Injective(b.attr) && b.attr.Values <= w && ArgsIn(b.procs, w)
  }

  /** Every process of the box targets one of its attributes (otherwise the step raises). */
  ghost predicate TargetsKnown(b: BoxView)
  {
    FirstOutside(Targets(b.procs), b.attr.Keys) == |b.procs|
  }

  /** The attribute name bound to cell `c` (unique when the attribute map is injective). */
  ghost function KeyOf(m: map<string, Cell>, c: Cell): (k: string)
    requires c in m.Values
    ensures k in m && m[k] == c
  {
    var k :| k in m && m[k] == c; k
  }

  /**
   * Adds, for each attribute name in `ks` taken in order, its delta summed over `base` and
   * scaled by `h` to the attribute's cell as it stands in `val` at that point.
   */
  ghost function Applied(b: BoxView, h: real, base: Valuation, ks: seq<string>, val: Valuation): (r: Valuation)
    ensures r.Keys == val.Keys
  {
    if ks == [] then val
    else
      var r := Applied(b, h, base, ks[..|ks| - 1], val);
      var k := ks[|ks| - 1];
      if k in b.attr && b.attr[k] in r then r[b.attr[k] := r[b.attr[k]] + Scaled(TargetSum(b.procs, k, base), h)]
      else r
  }

  /**
   * One box's step from valuation `val`: every process reads `val`, and each attribute,
   * in attribute order, gains its accumulated delta times `h`.
   */
  ghost function BoxStep(b: BoxView, h: real, val: Valuation): (r: Valuation)
    ensures r.Keys == val.Keys
  {
    Applied(b, h, val, b.keys, val)
  }

  // ---------------------------------------------------------------------------
  // Properties of a single box's step

  lemma {:induction false} TargetSumAppend(a: seq<Process>, b: seq<Process>, t: string, val: Valuation)
    ensures TargetSum(a + b, t, val) == TargetSum(a, t, val) + TargetSum(b, t, val)
    decreases |b|
  {
    if b == [] {
      assert a + b == a;
    } else {
      var b' := b[..|b| - 1];
      assert (a + b)[..|a + b| - 1] == a + b';
      TargetSumAppend(a, b', t, val);
    }
  }

  /** `qs` lists the processes of `ps` in another order: `qs[i]` is `ps[f[i]]`, `f` a bijection. */
  ghost predicate IsReordering(ps: seq<Process>, qs: seq<Process>, f: seq<nat>)
  {
    |f| == |qs| == |ps| &&
    (forall i :: 0 <= i < |f| ==> f[i] < |ps| && qs[i] == ps[f[i]]) &&
    (forall i, j :: 0 <= i < j < |f| ==> f[i] != f[j])
  }

  /** Taking process `m` out of the list takes exactly its term out of every sum. */
  lemma TargetSumRemove(ps: seq<Process>, m: nat, t: string, val: Valuation)
    requires m < |ps|
    ensures TargetSum(ps, t, val) == TargetSum(ps[..m] + ps[m + 1..], t, val) + Term(ps[m], t, val)
  {
    assert ps == ps[..m] + [ps[m]] + ps[m + 1..];
    TargetSumAppend(ps[..m], ps[m + 1..], t, val);
    TargetSumAppend(ps[..m], [ps[m]], t, val);
    TargetSumAppend(ps[..m] + [ps[m]], ps[m + 1..], t, val);
    assert [ps[m]][..0] == [];
  }

  /** Dropping the last process of `qs` and its source position in `ps` leaves a reordering. */
  lemma ReorderingDropLast(ps: seq<Process>, qs: seq<Process>, f: seq<nat>) returns (f': seq<nat>)
    requires IsReordering(ps, qs, f) && qs != []
    ensures f[|qs| - 1] < |ps|
    ensures IsReordering(ps[..f[|qs| - 1]] + ps[f[|qs| - 1] + 1..], qs[..|qs| - 1], f')
  {
    var n := |qs|;
    var m := f[n - 1];
    var ps' := ps[..m] + ps[m + 1..];
    f' := seq(n - 1, i requires 0 <= i < n - 1 => if f[i] < m then f[i] else f[i] - 1);
    forall i | 0 <= i < n - 1
      ensures f'[i] < |ps'| && qs[..n - 1][i] == ps'[f'[i]]
    {
      assert f[i] != f[n - 1];
    }
  }

  /** The accumulated delta does not depend on the order in which processes were registered. */
  lemma {:induction false} TargetSumReorder(ps: seq<Process>, qs: seq<Process>, f: seq<nat>, t: string, val: Valuation)
    requires IsReordering(ps, qs, f)
    ensures TargetSum(qs, t, val) == TargetSum(ps, t, val)
    decreases |qs|
  {
    if qs != [] {
      var m := f[|qs| - 1];
      var f' := ReorderingDropLast(ps, qs, f);
      TargetSumReorder(ps[..m] + ps[m + 1..], qs[..|qs| - 1], f', t, val);
      TargetSumRemove(ps, m, t, val);
    }
  }

  /** Reordering a box's processes leaves the result of its step unchanged. */
  lemma ReorderedBoxStep(b: BoxView, qs: seq<Process>, f: seq<nat>, h: real, val: Valuation)
    requires Fits(b, val.Keys) && IsReordering(b.procs, qs, f)
    ensures Fits(b.(procs := qs), val.Keys)
    ensures BoxStep(b.(procs := qs), h, val) == BoxStep(b, h, val)
  {
    var b' := b.(procs := qs);
    forall i, j | 0 <= i < |qs| && 0 <= j < |qs[i].args| ensures qs[i].args[j] in val.Keys {
      assert qs[i] == b.procs[f[i]];
    }
    forall c | c in val ensures BoxStep(b', h, val)[c] == BoxStep(b, h, val)[c] {
      BoxStepEffect(b, h, val, c);
      BoxStepEffect(b', h, val, c);
      if c in b.attr.Values {
        var k := KeyOf(b.attr, c);
        TargetSumReorder(b.procs, qs, f, k, val);
      }
    }
  }

  lemma {:induction false} TargetSumUntargeted(ps: seq<Process>, t: string, val: Valuation)
    requires forall i :: 0 <= i < |ps| ==> ps[i].target != t
    ensures TargetSum(ps, t, val) == 0.0
  {
    if ps != [] {
      TargetSumUntargeted(ps[..|ps| - 1], t, val);
    }
  }

  /**
   * The step adds each attribute's accumulated delta scaled by `h` exactly once;
   * cells that are not attributes of the box keep their values.
   */
  lemma BoxStepEffect(b: BoxView, h: real, val: Valuation, c: Cell)
    requires Fits(b, val.Keys) && c in val
    ensures c !in b.attr.Values ==> BoxStep(b, h, val)[c] == val[c]
    ensures forall k :: k in b.attr && b.attr[k] == c ==>
              BoxStep(b, h, val)[c] == val[c] + Scaled(TargetSum(b.procs, k, val), h)
  {
    AppliedAt(b, h, val, b.keys, val, c);
    forall k | k in b.attr && b.attr[k] == c
      ensures BoxStep(b, h, val)[c] == val[c] + Scaled(TargetSum(b.procs, k, val), h)
    {
      var i :| 0 <= i < |b.keys| && b.keys[i] == k;
    }
  }

  /** Applying the updates of distinct names: a cell moves once, by the delta of its own name. */
  lemma {:induction false} AppliedAt(b: BoxView, h: real, base: Valuation, ks: seq<string>, val: Valuation, c: Cell)
    requires Injective(b.attr) && Distinct(ks) && c in val
    ensures (forall i :: 0 <= i < |ks| && ks[i] in b.attr ==> b.attr[ks[i]] != c) ==>
              Applied(b, h, base, ks, val)[c] == val[c]
    ensures forall i :: 0 <= i < |ks| && ks[i] in b.attr && b.attr[ks[i]] == c ==>
              Applied(b, h, base, ks, val)[c] == val[c] + Scaled(TargetSum(b.procs, ks[i], base), h)
  {
    if ks != [] {
      var n := |ks| - 1;
      var ks' := ks[..n];
      assert Distinct(ks');
      AppliedAt(b, h, base, ks', val, c);
      var k := ks[n];
      if k in b.attr && b.attr[k] == c {
        forall i | 0 <= i < n && ks'[i] in b.attr ensures b.attr[ks'[i]] != c {
          assert ks[i] != ks[n];
        }
      }
    }
  }

  /** A valuation that moves exactly as `BoxStep` says, cell by cell, is the box's step. */
  lemma BoxStepFrom(b: BoxView, h: real, val: Valuation, after: Valuation)
    requires Fits(b, val.Keys) && after.Keys == val.Keys
    requires forall c :: c in val && c !in b.attr.Values ==> after[c] == val[c]
    requires forall k :: k in b.attr ==> after[b.attr[k]] == val[b.attr[k]] + Scaled(TargetSum(b.procs, k, val), h)
    ensures after == BoxStep(b, h, val)
  {
    forall c | c in val ensures after[c] == BoxStep(b, h, val)[c] {
      BoxStepEffect(b, h, val, c);
      if c in b.attr.Values {
        var k := KeyOf(b.attr, c);
      }
    }
  }

  /** Attribute `k` gains exactly its accumulated delta times `h`. */
  lemma AttributeStep(b: BoxView, h: real, val: Valuation, k: string)
    requires Fits(b, val.Keys) && k in b.attr
    ensures BoxStep(b, h, val)[b.attr[k]] == val[b.attr[k]] + Scaled(TargetSum(b.procs, k, val), h)
  {
    BoxStepEffect(b, h, val, b.attr[k]);
  }

  /** An attribute that no process targets is left as it was. */
  lemma UntargetedUnchanged(b: BoxView, k: string, h: real, val: Valuation)
    requires Fits(b, val.Keys) && k in b.attr
    requires forall i :: 0 <= i < |b.procs| ==> b.procs[i].target != k
    ensures BoxStep(b, h, val)[b.attr[k]] == val[b.attr[k]]
  {
    TargetSumUntargeted(b.procs, k, val);
    BoxStepEffect(b, h, val, b.attr[k]);
  }

  /** One process of rate `rate` on attribute `k`: the attribute moves by exactly `rate * h`, signed. */
  lemma SingleProcessStep(b: BoxView, k: string, rate: real, h: real, val: Valuation)
    requires Fits(b, val.Keys) && k in b.attr && |b.procs| == 1 && b.procs[0].target == k
    requires b.procs[0].func(ArgValues(b.procs[0].args, val)) == rate
    ensures BoxStep(b, h, val)[b.attr[k]] == val[b.attr[k]] + Scaled(Signed(b.procs[0].sign, rate), h)
  {
    assert b.procs[..0] == [];
    assert TargetSum(b.procs, k, val) == Signed(b.procs[0].sign, rate);
    BoxStepEffect(b, h, val, b.attr[k]);
  }

  // ---------------------------------------------------------------------------
  // Rounds over several boxes, and whole model steps

  /** Every box fits the valuation's cells. */
  ghost predicate AllFit(bs: seq<BoxView>, w: set<Cell>)
  {
    forall i :: 0 <= i < |bs| ==> Fits(bs[i], w)
  }

  /** Distinct boxes own distinct cells. */
  ghost predicate Disjoint(bs: seq<BoxView>)
  {
    forall i, j :: 0 <= i < j < |bs| ==> bs[i].attr.Values !! bs[j].attr.Values
  }

  /** The boxes step one at a time, in order: box `i` reads what boxes `0..i-1` left behind. */
  ghost function Round(bs: seq<BoxView>, h: real, val: Valuation): (r: Valuation)
    ensures r.Keys == val.Keys
  {
    if bs == [] then val
    else BoxStep(bs[|bs| - 1], h, Round(bs[..|bs| - 1], h, val))
  }

  /** Index of the first box that has a process with an unknown target, or `|bs|`. */
  ghost function FirstStuck(bs: seq<BoxView>): (n: nat)
    ensures n <= |bs|
    ensures forall i :: 0 <= i < n ==> TargetsKnown(bs[i])
    ensures n < |bs| ==> !TargetsKnown(bs[n])
  {
    if bs == [] then 0
    else if !TargetsKnown(bs[0]) then 0
    else 1 + FirstStuck(bs[1..])
  }

  /** The driver's view of a model: its boxes in insertion order, step length, step and time cells. */
  datatype Layout = Layout(boxes: seq<BoxView>, h: real, step: Cell, time: Cell)

  ghost predicate WellFormed(l: Layout, w: set<Cell>)
  {
    l.step in w && l.time in w && l.step != l.time &&
    AllFit(l.boxes, w) && Disjoint(l.boxes) &&
    (forall i :: 0 <= i < |l.boxes| ==> l.step !in l.boxes[i].attr.Values && l.time !in l.boxes[i].attr.Values)
  }

  /** The end of a model step: `step := step + 1`, then `time := step * h`. */
  ghost function Counted(l: Layout, val: Valuation): (r: Valuation)
    requires l.step in val && l.time in val
    ensures r.Keys == val.Keys
  {
    var s := val[l.step] + 1.0;
    val[l.step := s][l.time := Scaled(s, l.h)]
  }

  /** One model step: a round, then the counters. */
  ghost function ModelStep(l: Layout, val: Valuation): (r: Valuation)
    requires l.step in val && l.time in val
    ensures r.Keys == val.Keys
  {
    Counted(l, Round(l.boxes, l.h, val))
  }

  /** The valuation after `n` model steps. */
  ghost function Iterate(n: nat, l: Layout, val: Valuation): (r: Valuation)
    requires l.step in val && l.time in val
    ensures r.Keys == val.Keys
  {
    if n == 0 then val else ModelStep(l, Iterate(n - 1, l, val))
  }

  /** A round leaves alone every cell that no box owns. */
  lemma {:induction false} RoundOutside(bs: seq<BoxView>, h: real, val: Valuation, c: Cell)
    requires AllFit(bs, val.Keys) && c in val
    requires forall i :: 0 <= i < |bs| ==> c !in bs[i].attr.Values
    ensures Round(bs, h, val)[c] == val[c]
  {
    if bs != [] {
      var n := |bs| - 1;
      RoundOutside(bs[..n], h, val, c);
      BoxStepEffect(bs[n], h, Round(bs[..n], h, val), c);
    }
  }

  /** Once box `i` has stepped, the boxes after it leave its cells alone. */
  lemma {:induction false} RoundKeepsEarlier(bs: seq<BoxView>, h: real, val: Valuation, i: nat, j: nat, c: Cell)
    requires AllFit(bs, val.Keys) && Disjoint(bs)
    requires i < j <= |bs| && c in bs[i].attr.Values
    ensures Round(bs[..j], h, val)[c] == BoxStep(bs[i], h, Round(bs[..i], h, val))[c]
    decreases j
  {
    RoundPrefix(bs, h, val, j);
    if j > i + 1 {
      RoundKeepsEarlier(bs, h, val, i, j - 1, c);
      assert c !in bs[j - 1].attr.Values;
      assert Fits(bs[j - 1], Round(bs[..j - 1], h, val).Keys);
      BoxStepEffect(bs[j - 1], h, Round(bs[..j - 1], h, val), c);
    }
  }

  /** The round over the first `j` boxes is the round over the first `j - 1`, then box `j - 1`. */
  lemma RoundPrefix(bs: seq<BoxView>, h: real, val: Valuation, j: nat)
    requires 0 < j <= |bs|
    ensures Round(bs[..j], h, val) == BoxStep(bs[j - 1], h, Round(bs[..j - 1], h, val))
  {
    assert bs[..j][..j - 1] == bs[..j - 1];
  }


  /**
   * Cross-box reads: when box `j` steps, a cell of an earlier box `i` already holds the
   * value box `i`'s own step gave it in this round, not the value from before the round.
   */
  lemma CrossBoxRead(bs: seq<BoxView>, h: real, val: Valuation, i: nat, j: nat, c: Cell)
    requires AllFit(bs, val.Keys) && Disjoint(bs)
    requires i < j < |bs| && c in bs[i].attr.Values
    ensures Round(bs[..j + 1], h, val) == BoxStep(bs[j], h, Round(bs[..j], h, val))
    ensures Round(bs[..j], h, val)[c] == BoxStep(bs[i], h, Round(bs[..i], h, val))[c]
  {
    assert bs[..j + 1][..j] == bs[..j];
    RoundKeepsEarlier(bs, h, val, i, j, c);
  }

  /** One model step advances the step cell by one and sets time to the new step times `h`. */
  lemma CounterStep(l: Layout, val: Valuation)
    requires WellFormed(l, val.Keys)
    ensures ModelStep(l, val)[l.step] == val[l.step] + 1.0
    ensures ModelStep(l, val)[l.time] == Scaled(val[l.step] + 1.0, l.h)
  {
    RoundOutside(l.boxes, l.h, val, l.step);
  }

  /** After `n` model steps the step cell has advanced by exactly `n`. */
  lemma {:induction false} StepCount(n: nat, l: Layout, val: Valuation)
    requires WellFormed(l, val.Keys)
    ensures Iterate(n, l, val)[l.step] == val[l.step] + n as real
  {
    if n > 0 {
      StepCount(n - 1, l, val);
      CounterStep(l, Iterate(n - 1, l, val));
    }
  }


  /** Time is recomputed from the counter, never accumulated: after `n >= 1` steps it is `(s0 + n) * h`. */
  lemma TimeRecomputed(n: nat, l: Layout, val: Valuation)
    requires WellFormed(l, val.Keys) && n >= 1
    ensures Iterate(n, l, val)[l.time] == (val[l.step] + n as real) * l.h
    ensures Iterate(n, l, val)[l.time] == Scaled(Iterate(n, l, val)[l.step], l.h)
  {
    var prev := Iterate(n - 1, l, val);
    CounterStep(l, prev);
    StepCount(n, l, val);
    assert Iterate(n, l, val)[l.time] == Scaled(prev[l.step] + 1.0, l.h);
  }

  /**
   * A lone box with one constant outflow `rate` on attribute `k`: each model step lowers
   * the attribute by exactly `rate * h`.
   */
  lemma SoleOutflowStep(l: Layout, k: string, rate: real, val: Valuation)
    requires WellFormed(l, val.Keys) && |l.boxes| == 1
    requires k in l.boxes[0].attr && |l.boxes[0].procs| == 1
    requires l.boxes[0].procs[0].target == k && IsNegative(l.boxes[0].procs[0].sign)
    requires forall xs :: l.boxes[0].procs[0].func(xs) == rate
    ensures ModelStep(l, val)[l.boxes[0].attr[k]] == val[l.boxes[0].attr[k]] - Scaled(rate, l.h)
  {
    var b := l.boxes[0];
    var c := b.attr[k];
    assert l.boxes[..0] == [];
    assert Round(l.boxes[..0], l.h, val) == val;
    SingleProcessStep(b, k, rate, l.h, val);
    assert c != l.step && c != l.time;
  }
}
