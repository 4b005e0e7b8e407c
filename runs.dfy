/**
 * What `do_step` and `run` do, stated on values: recording the registered values into the
 * output series, one model step with the ways it can raise, the run loop, and the history
 * a run leaves behind.
 */
module Runs {
  import opened Util
  import opened Cells
  import opened Fluxes

  /** Why a model step raised. */
  datatype StepError =
    | MissingSeries(key: string)     // a name registered after the series were created (KeyError)
    | NoBoxes                        // no box was ever added (AttributeError on None)
    | UnknownTarget(boxName: string) // a process of this box targets a name the box lacks (KeyError)

  /** The series of every registered name, as `do_step` builds them. */
  type Series = map<string, seq<real>>

  /** The value registered under name `k`, read from a valuation (0.0 for a cell it does not describe). */
  ghost function Reading(reg: map<string, Cell>, val: Valuation, k: string): real
    requires k in reg
  {
    if reg[k] in val then val[reg[k]] else 0.0
  }

  /** The value registered under each name, read from a valuation. */
  ghost function Observe(reg: map<string, Cell>, val: Valuation): (r: map<string, real>)
    ensures r.Keys == reg.Keys
  {
    map k | k in reg :: Reading(reg, val, k)
  }

  /** An empty series for every name in `ks`: what the first `do_step` creates. */
  function NewSeries(ks: seq<string>): (out: Series)
    ensures forall k :: k in out <==> k in ks
    ensures forall k :: k in out ==> out[k] == []
  {
    map k | k in ks :: []
  }

  /** The series a step appends to: the existing ones, or empty ones for `keys` when there are none yet. */
  function Base(out: Option<Series>, keys: seq<string>): Series
  {
    if out.Some? then out.value else NewSeries(keys)
  }

  /** Each name in `ks`, in order, gets its value in `vals` appended to its series. */
  ghost function Recorded(out: Series, ks: seq<string>, vals: map<string, real>): (r: Series)
    requires forall k :: k in ks ==> k in out && k in vals
    ensures forall k :: k in r <==> k in out
    decreases |ks|
  {
    if ks == [] then out
    else
      var rest := Recorded(out, ks[..|ks| - 1], vals);
      var k := ks[|ks| - 1];
      rest[k := rest[k] + [vals[k]]]
  }

  /** Recording one more name appends its value to its series. */
  lemma RecordedNext(out: Series, ks: seq<string>, vals: map<string, real>, i: nat)
    requires i < |ks|
    requires forall k :: k in ks[..i + 1] ==> k in out && k in vals
    ensures Recorded(out, ks[..i + 1], vals) ==
            Recorded(out, ks[..i], vals)[ks[i] := Recorded(out, ks[..i], vals)[ks[i]] + [vals[ks[i]]]]
  {
    assert ks[..i + 1][..i] == ks[..i];
  }

  /** With distinct names, each recorded series gains exactly its own value and every other series is kept. */
  lemma {:induction false} RecordedAt(out: Series, ks: seq<string>, vals: map<string, real>, k: string)
    requires (forall k :: k in ks ==> k in out && k in vals) && Distinct(ks) && k in out
    ensures Recorded(out, ks, vals)[k] == if k in ks then out[k] + [vals[k]] else out[k]
    decreases |ks|
  {
    if ks != [] {
      var init := ks[..|ks| - 1];
      assert Distinct(init);
      RecordedAt(out, init, vals, k);
      if k == ks[|ks| - 1] {
        assert k !in init;
      } else {
        assert k in ks <==> k in init;
      }
    }
  }

  /**
   * The recording half of `do_step` for names `keys` holding `vals`: the series are `out`,
   * or fresh empty ones when there are none yet; each name, in order, gets its value
   * appended, up to the first name without a series, which raises.
   */
  ghost function Recording(out: Option<Series>, keys: seq<string>, vals: map<string, real>): (Series, Outcome<StepError>)
    requires forall k :: k in keys ==> k in vals
  {
    var base := Base(out, keys);
    var m := FirstOutside(keys, base.Keys);
    (Recorded(base, keys[..m], vals), if m == |keys| then Pass else Fail(MissingSeries(keys[m])))
  }

  /** The loop of `do_step` that creates the series on the first step: an empty one per name. */
  method EmptySeries(ks: seq<string>) returns (m: Series)
    ensures m == NewSeries(ks)
  {
    m := map[];
    var i := 0;
    while i < |ks|
      invariant 0 <= i <= |ks|
      invariant m == NewSeries(ks[..i])
    {
      m := m[ks[i] := []];
      assert ks[..i + 1] == ks[..i] + [ks[i]];
      i := i + 1;
    }
    assert ks[..|ks|] == ks;
  }

  /**
   * The append loop of `do_step`: each name of `ks`, in order, gets its value appended to its
   * series, up to the first name without a series; `n` names were recorded.
   */
  method AppendValues(base: Series, ks: seq<string>, vals: map<string, real>) returns (o: Series, n: nat)
    requires forall k :: k in ks ==> k in vals
    ensures n == FirstOutside(ks, base.Keys)
    ensures o == Recorded(base, ks[..n], vals)
  {
    o := base;
    n := 0;
    while n < |ks| && ks[n] in o
      invariant 0 <= n <= |ks|
      invariant forall j :: 0 <= j < n ==> ks[j] in base
      invariant o == Recorded(base, ks[..n], vals)
    {
      var k := ks[n];
      o := o[k := o[k] + [vals[k]]];
      RecordedNext(base, ks, vals, n);
      n := n + 1;
    }
  }

  /**
   * The recording half of `do_step`: an empty series for every name of `ks` when there are
   * none yet, then each name, in order, gets its value appended, up to the first name
   * without a series, which raises.
   */
  method RecordValues(out: Option<Series>, ks: seq<string>, vals: map<string, real>) returns (o: Series, r: Outcome<StepError>)
    requires forall k :: k in ks ==> k in vals
    ensures (o, r) == Recording(out, ks, vals)
  {
    var base: Series;
    if out == None {
      base := EmptySeries(ks);
    } else {
      base := out.value;
    }
    var n;
    o, n := AppendValues(base, ks, vals);
    r := if n == |ks| then Pass else Fail(MissingSeries(ks[n]));
  }

  /**
   * The box half of a model step from valuation `val`: with no boxes it raises; otherwise
   * the boxes step in order up to the first box with an unknown target, which raises; only
   * a full round moves the step counter and the time.
   */
  ghost function Advanced(labels: seq<string>, l: Layout, val: Valuation): (r: (Valuation, Outcome<StepError>))
    requires l.step in val && l.time in val && |labels| == |l.boxes|
    ensures r.0.Keys == val.Keys
    ensures r.1.Pass? ==> r.0 == ModelStep(l, val)
  {
    if labels == [] then (val, Fail(NoBoxes))
    else
      var n := FirstStuck(l.boxes);
      if n < |l.boxes| then (Round(l.boxes[..n], l.h, val), Fail(UnknownTarget(labels[n])))
      else (ModelStep(l, val), Pass)
  }

  /** The round over all boxes, written as the round over the first `|bs|` of them. */
  lemma RoundAll(bs: seq<BoxView>, h: real, val: Valuation)
    ensures Round(bs[..|bs|], h, val) == Round(bs, h, val)
  {
    assert bs[..|bs|] == bs;
  }

  /**
   * One `do_step` of a model with registered names `keys` bound as `reg`, boxes labelled
   * `labels` laid out as `l`, from valuation `val`: the series, the valuation and the
   * outcome afterwards. The values are recorded first, then the boxes and the counters
   * advance unless the recording raised.
   */
  ghost function Stepped(out: Option<Series>, keys: seq<string>, reg: map<string, Cell>, labels: seq<string>,
                         l: Layout, val: Valuation): (r: (Series, Valuation, Outcome<StepError>))
    requires forall k :: k in keys ==> k in reg
    requires l.step in val && l.time in val && |labels| == |l.boxes|
    ensures r.1.Keys == val.Keys
    ensures r.2.Pass? ==> r.1 == ModelStep(l, val)
  {
    var (o, rec) := Recording(out, keys, Observe(reg, val));
    if rec.Fail? then (o, val, rec)
    else
      var a := Advanced(labels, l, val);
      (o, a.0, a.1)
  }

  /**
   * A model step is its recording followed, when that passes, by the advance of the boxes
   * and counters from the same values.
   */
  lemma SteppedBy(out: Option<Series>, keys: seq<string>, reg: map<string, Cell>, labels: seq<string>,
                  l: Layout, val: Valuation, o: Series, rec: Outcome<StepError>, v: Valuation, e: Outcome<StepError>)
    requires forall k :: k in keys ==> k in reg
    requires l.step in val && l.time in val && |labels| == |l.boxes|
    requires (o, rec) == Recording(out, keys, Observe(reg, val))
    requires rec.Fail? ==> v == val && e == rec
    requires rec.Pass? ==> (v, e) == Advanced(labels, l, val)
    ensures (o, v, e) == Stepped(out, keys, reg, labels, l, val)
  {
  }

  /** How many times the loop of `run` turns from step counter `s` when it stops at `n`. */
  function Turns(s: real, n: int): (t: nat)
    decreases n - s.Floor
  {
    if s >= n as real then 0 else 1 + Turns(s + 1.0, n)
  }

  /**
   * `run`: model steps while the step counter is below `n`; the first step that raises
   * ends the run with its error, otherwise the run returns the series (none when the
   * loop never turned). `t` bounds the number of turns; the loop itself turns
   * `Turns(val[l.step], n)` times (`RanStep`), which is what `run` is given.
   */
  ghost function Ran(out: Option<Series>, keys: seq<string>, reg: map<string, Cell>, labels: seq<string>,
                     l: Layout, n: int, val: Valuation, t: nat): (r: (Option<Series>, Valuation, Result<Option<Series>, StepError>))
    requires forall k :: k in keys ==> k in reg
    requires l.step in val && l.time in val && |labels| == |l.boxes|
    decreases t
  {
    if t == 0 || val[l.step] >= n as real then (out, val, Success(out))
    else
      var s := Stepped(out, keys, reg, labels, l, val);
      if s.2.Fail? then (Some(s.0), s.1, Failure(s.2.error))
      else Ran(Some(s.0), keys, reg, labels, l, n, s.1, t - 1)
  }

  /**
   * The values name `k` holds just before each of `t` successive model steps from `val`:
   * what a run appends to the series of `k`.
   */
  ghost function Column(reg: map<string, Cell>, l: Layout, val: Valuation, k: string, t: nat): (c: seq<real>)
    requires k in reg && l.step in val && l.time in val
    ensures |c| == t
    decreases t
  {
    if t == 0 then [] else [Reading(reg, val, k)] + Column(reg, l, ModelStep(l, val), k, t - 1)
  }

  // ---------------------------------------------------------------------------
  // Properties of a step and of a run

  /**
   * The series are created on the first step only, with exactly the names registered then;
   * on a later step a name without a series raises, after the names before it were recorded.
   */
  lemma RecordingEffect(out: Option<Series>, keys: seq<string>, vals: map<string, real>)
    requires Distinct(keys) && forall k :: k in keys ==> k in vals
    ensures out.None? ==> Recording(out, keys, vals).0.Keys == set k | k in keys
    ensures out.Some? ==> Recording(out, keys, vals).0.Keys == out.value.Keys
    ensures Recording(out, keys, vals).1.Pass? <==> out.None? || forall k :: k in keys ==> k in out.value
    ensures forall i :: 0 <= i < |keys| && Recording(out, keys, vals).1 == Fail(MissingSeries(keys[i])) ==>
              out.Some? && keys[i] !in out.value && forall j :: 0 <= j < i ==> keys[j] in out.value
    ensures Recording(out, keys, vals).1.Pass? ==>
              forall k :: k in keys ==>
                Recording(out, keys, vals).0[k] == (if out.Some? then out.value[k] else []) + [vals[k]]
  {
    var base := if out.Some? then out.value else NewSeries(keys);
    var m := FirstOutside(keys, base.Keys);
    if m == |keys| {
      assert keys[..m] == keys;
      forall k | k in keys
        ensures Recording(out, keys, vals).0[k] == base[k] + [vals[k]]
      {
        RecordedAt(base, keys, vals, k);
      }
    }
    forall i | 0 <= i < |keys| && Recording(out, keys, vals).1 == Fail(MissingSeries(keys[i]))
      ensures out.Some? && keys[i] !in out.value && forall j :: 0 <= j < i ==> keys[j] in out.value
    {
      assert m < |keys| && keys[m] == keys[i];
      SameIndex(keys, i, m);
    }
  }

  /** Appending a value and then a column is appending the column with the value in front. */
  lemma AppendFront(a: seq<real>, x: real, c: seq<real>)
    ensures a + ([x] + c) == (a + [x]) + c
  {
  }

  /** In a sequence of distinct names, equal elements sit at the same index. */
  lemma SameIndex(xs: seq<string>, i: nat, j: nat)
    requires Distinct(xs) && i < |xs| && j < |xs| && xs[i] == xs[j]
    ensures i == j
  {
  }

  /**
   * The first step of a run passes: there are boxes, every process targets an attribute of
   * its own box, and every name has a series unless there are no series yet.
   */
  ghost predicate Clean(out: Option<Series>, keys: seq<string>, labels: seq<string>, l: Layout)
  {
    labels != [] && FirstStuck(l.boxes) == |l.boxes| && (out.Some? ==> forall k :: k in keys ==> k in out.value)
  }

  /** A step passes exactly when `Clean` holds; it then records every name and makes a model step. */
  lemma SteppedClean(out: Option<Series>, keys: seq<string>, reg: map<string, Cell>, labels: seq<string>,
                     l: Layout, val: Valuation)
    requires Distinct(keys) && forall k :: k in keys ==> k in reg
    requires l.step in val && l.time in val && |labels| == |l.boxes|
    ensures Stepped(out, keys, reg, labels, l, val).2.Pass? <==> Clean(out, keys, labels, l)
    ensures Clean(out, keys, labels, l) ==>
              (forall k :: k in keys ==> k in Base(out, keys)) &&
              Stepped(out, keys, reg, labels, l, val).0 == Recorded(Base(out, keys), keys, Observe(reg, val)) &&
              Stepped(out, keys, reg, labels, l, val).1 == ModelStep(l, val)
  {
    RecordingEffect(out, keys, Observe(reg, val));
    assert keys[..|keys|] == keys;
  }

  /** Running `t + 1` steps is running one step and then `t` more. */
  lemma {:induction false} IterateShift(t: nat, l: Layout, val: Valuation)
    requires l.step in val && l.time in val
    ensures Iterate(t, l, ModelStep(l, val)) == Iterate(t + 1, l, val)
  {
    if t > 0 {
      IterateShift(t - 1, l, val);
    }
  }

  /**
   * A run whose first step passes never raises: it returns the series it ends with.
   */
  lemma {:induction false} RanClean(out: Option<Series>, keys: seq<string>, reg: map<string, Cell>, labels: seq<string>,
                                    l: Layout, n: int, val: Valuation, t: nat)
    requires Distinct(keys) && forall k :: k in keys ==> k in reg
    requires WellFormed(l, val.Keys) && |labels| == |l.boxes| && t == Turns(val[l.step], n)
    requires Clean(out, keys, labels, l)
    ensures forall k :: k in keys ==> k in Base(out, keys)
    ensures Ran(out, keys, reg, labels, l, n, val, t).2 == Success(Ran(out, keys, reg, labels, l, n, val, t).0)
    decreases t
  {
    if t == 0 {
      assert Ran(out, keys, reg, labels, l, n, val, t).2 == Success(out);
    } else {
      RanStep(out, keys, reg, labels, l, n, val, t);
      var o := Recorded(Base(out, keys), keys, Observe(reg, val));
      RanClean(Some(o), keys, reg, labels, l, n, ModelStep(l, val), t - 1);
    }
  }

  /** A clean run of `t` turns leaves the cells as `t` model steps do. */
  lemma {:induction false} RanIterate(out: Option<Series>, keys: seq<string>, reg: map<string, Cell>, labels: seq<string>,
                                      l: Layout, n: int, val: Valuation, t: nat)
    requires Distinct(keys) && forall k :: k in keys ==> k in reg
    requires WellFormed(l, val.Keys) && |labels| == |l.boxes| && t == Turns(val[l.step], n)
    requires Clean(out, keys, labels, l)
    ensures Ran(out, keys, reg, labels, l, n, val, t).1 == Iterate(t, l, val)
    decreases t
  {
    if t > 0 {
      RanStep(out, keys, reg, labels, l, n, val, t);
      var o := Recorded(Base(out, keys), keys, Observe(reg, val));
      var v := ModelStep(l, val);
      RanIterate(Some(o), keys, reg, labels, l, n, v, t - 1);
      if t > 1 {
        IterateShift(t - 1, l, val);
      }
    }
  }

  /** After a clean run of at least one step there are series, under the names they had (or got) at its start. */
  lemma {:induction false} RanNames(out: Option<Series>, keys: seq<string>, reg: map<string, Cell>, labels: seq<string>,
                                    l: Layout, n: int, val: Valuation, t: nat)
    requires Distinct(keys) && forall k :: k in keys ==> k in reg
    requires WellFormed(l, val.Keys) && |labels| == |l.boxes| && t == Turns(val[l.step], n)
    requires Clean(out, keys, labels, l) && t > 0
    ensures Ran(out, keys, reg, labels, l, n, val, t).0.Some?
    ensures Ran(out, keys, reg, labels, l, n, val, t).0.value.Keys == Base(out, keys).Keys
    decreases t
  {
    RanStep(out, keys, reg, labels, l, n, val, t);
    var o := Recorded(Base(out, keys), keys, Observe(reg, val));
    var v := ModelStep(l, val);
    if t == 1 {
      assert Ran(Some(o), keys, reg, labels, l, n, v, 0).0 == Some(o);
    } else {
      RanNames(Some(o), keys, reg, labels, l, n, v, t - 1);
      assert Base(Some(o), keys) == o;
    }
  }

  /** Each name's series gains, over a clean run of `t` steps, the values it held before each step. */
  lemma {:induction false} RanSeries(out: Option<Series>, keys: seq<string>, reg: map<string, Cell>, labels: seq<string>,
                                     l: Layout, n: int, val: Valuation, t: nat, k: string)
    requires Distinct(keys) && forall k :: k in keys ==> k in reg
    requires WellFormed(l, val.Keys) && |labels| == |l.boxes| && t == Turns(val[l.step], n)
    requires Clean(out, keys, labels, l) && k in keys && t > 0
    ensures k in Base(out, keys)
    ensures Ran(out, keys, reg, labels, l, n, val, t).0.Some?
    ensures k in Ran(out, keys, reg, labels, l, n, val, t).0.value
    ensures Ran(out, keys, reg, labels, l, n, val, t).0.value[k] == Base(out, keys)[k] + Column(reg, l, val, k, t)
    decreases t
  {
    RanStep(out, keys, reg, labels, l, n, val, t);
    var base := Base(out, keys);
    var o := Recorded(base, keys, Observe(reg, val));
    var v := ModelStep(l, val);
    var x := Reading(reg, val, k);
    RecordedAt(base, keys, Observe(reg, val), k);
    assert o[k] == base[k] + [x];
    var c := Column(reg, l, v, k, t - 1);
    assert Column(reg, l, val, k, t) == [x] + c;
    if t == 1 {
      assert Ran(Some(o), keys, reg, labels, l, n, v, 0) == (Some(o), v, Success(Some(o)));
      assert c == [];
    } else {
      RanSeries(Some(o), keys, reg, labels, l, n, v, t - 1, k);
      assert Base(Some(o), keys) == o;
    }
    AppendFront(base[k], x, c);
  }

  /**
   * One turn of the loop of `run` from a clean state: the counter is below the bound, one
   * turn fewer remains, and the run goes on from the recorded series and the model step.
   */
  lemma RanStep(out: Option<Series>, keys: seq<string>, reg: map<string, Cell>, labels: seq<string>,
                l: Layout, n: int, val: Valuation, t: nat)
    requires Distinct(keys) && forall k :: k in keys ==> k in reg
    requires WellFormed(l, val.Keys) && |labels| == |l.boxes| && t == Turns(val[l.step], n) && t > 0
    requires Clean(out, keys, labels, l)
    ensures val[l.step] < n as real
    ensures forall k :: k in keys ==> k in Base(out, keys)
    ensures var o := Recorded(Base(out, keys), keys, Observe(reg, val));
            var v := ModelStep(l, val);
            WellFormed(l, v.Keys) && v[l.step] == val[l.step] + 1.0 && t - 1 == Turns(v[l.step], n) &&
            Clean(Some(o), keys, labels, l) &&
            Ran(out, keys, reg, labels, l, n, val, t) == Ran(Some(o), keys, reg, labels, l, n, v, t - 1)
  {
    TurnsStep(val[l.step], n);
    CounterStep(l, val);
    SteppedClean(out, keys, reg, labels, l, val);
  }

  /**
   * One turn of the loop of `run`, below the bound: a step that raises ends the run with
   * its series, its valuation and its error; a step that passes advances the counter by one
   * and leaves the rest of the run to the loop from there.
   */
  lemma RanTurn(out: Option<Series>, keys: seq<string>, reg: map<string, Cell>, labels: seq<string>,
                l: Layout, n: int, val: Valuation)
    requires forall k :: k in keys ==> k in reg
    requires WellFormed(l, val.Keys) && |labels| == |l.boxes| && val[l.step] < n as real
    ensures var s := Stepped(out, keys, reg, labels, l, val);
            var t := Turns(val[l.step], n);
            (s.2.Fail? ==> Ran(out, keys, reg, labels, l, n, val, t) == (Some(s.0), s.1, Failure(s.2.error))) &&
            (s.2.Pass? ==> s.1[l.step] == val[l.step] + 1.0 && Turns(s.1[l.step], n) == t - 1 &&
                           Ran(out, keys, reg, labels, l, n, val, t) == Ran(Some(s.0), keys, reg, labels, l, n, s.1, t - 1))
  {
    TurnsStep(val[l.step], n);
    CounterStep(l, val);
  }

  /**
   * The loop of `run` after one turn from `val` below the bound, where the step returned
   * series `o`, valuation `v` and outcome `e`: a raise ends the run there, a pass leaves
   * the same run to go on from `v`, one turn fewer.
   */
  lemma RanAfter(out: Option<Series>, keys: seq<string>, reg: map<string, Cell>, labels: seq<string>,
                 l: Layout, n: int, val: Valuation, o: Series, v: Valuation, e: Outcome<StepError>,
                 result: (Option<Series>, Valuation, Result<Option<Series>, StepError>))
    requires forall k :: k in keys ==> k in reg
    requires WellFormed(l, val.Keys) && |labels| == |l.boxes| && val[l.step] < n as real
    requires Ran(out, keys, reg, labels, l, n, val, Turns(val[l.step], n)) == result
    requires (o, v, e) == Stepped(out, keys, reg, labels, l, val)
    ensures e.Fail? ==> (Some(o), v, Failure(e.error)) == result
    ensures e.Pass? ==> l.step in v && l.time in v &&
                        Turns(v[l.step], n) < Turns(val[l.step], n) &&
                        Ran(Some(o), keys, reg, labels, l, n, v, Turns(v[l.step], n)) == result
  {
    RanTurn(out, keys, reg, labels, l, n, val);
  }

  /** At or above the bound the loop of `run` does not turn: the run returns the series as they are. */
  lemma RanDone(out: Option<Series>, keys: seq<string>, reg: map<string, Cell>, labels: seq<string>,
                l: Layout, n: int, val: Valuation)
    requires forall k :: k in keys ==> k in reg
    requires l.step in val && l.time in val && |labels| == |l.boxes| && val[l.step] >= n as real
    ensures Ran(out, keys, reg, labels, l, n, val, Turns(val[l.step], n)) == (out, val, Success(out))
  {
    TurnsStep(val[l.step], n);
  }

  /** Below the bound the loop turns once more than it does from the next counter value; at or above it, never. */
  lemma TurnsStep(s: real, n: int)
    ensures s < n as real ==> Turns(s, n) == 1 + Turns(s + 1.0, n)
    ensures s >= n as real <==> Turns(s, n) == 0
  {
  }

  /** A run that raises does so on its first step, with that step's series and valuation. */
  lemma RanFailsFirst(out: Option<Series>, keys: seq<string>, reg: map<string, Cell>, labels: seq<string>,
                      l: Layout, n: int, val: Valuation, t: nat)
    requires Distinct(keys) && forall k :: k in keys ==> k in reg
    requires WellFormed(l, val.Keys) && |labels| == |l.boxes| && t == Turns(val[l.step], n)
    requires Ran(out, keys, reg, labels, l, n, val, t).2.Failure?
    ensures val[l.step] < n as real && !Clean(out, keys, labels, l)
    ensures var s := Stepped(out, keys, reg, labels, l, val);
            s.2.Fail? && Ran(out, keys, reg, labels, l, n, val, t) == (Some(s.0), s.1, Failure(s.2.error))
  {
    TurnsStep(val[l.step], n);
    SteppedClean(out, keys, reg, labels, l, val);
    if Clean(out, keys, labels, l) {
      RanClean(out, keys, reg, labels, l, n, val, t);
    }
  }

  /** From a whole step counter `s`, the loop turns `n - s` times when `s < n`, and never otherwise. */
  lemma {:induction false} TurnsFrom(s: int, n: int)
    ensures Turns(s as real, n) == if s < n then n - s else 0
    decreases n - s
  {
    if s < n {
      TurnsFrom(s + 1, n);
    }
  }

  /** The column of the step counter counts up by one from its value at the start. */
  lemma {:induction false} StepColumn(reg: map<string, Cell>, l: Layout, val: Valuation, k: string, t: nat, j: nat)
    requires k in reg && reg[k] == l.step && WellFormed(l, val.Keys) && j < t
    ensures Column(reg, l, val, k, t)[j] == val[l.step] + j as real
    decreases j
  {
    if j > 0 {
      var v := ModelStep(l, val);
      CounterStep(l, val);
      StepColumn(reg, l, v, k, t - 1, j - 1);
      assert Column(reg, l, val, k, t)[j] == Column(reg, l, v, k, t - 1)[j - 1];
    }
  }

  /** Past its first entry, the column of the time is the step counter's column times `h`. */
  lemma {:induction false} TimeColumn(reg: map<string, Cell>, l: Layout, val: Valuation, k: string, t: nat, j: nat)
    requires k in reg && reg[k] == l.time && WellFormed(l, val.Keys) && 0 < j < t
    ensures Column(reg, l, val, k, t)[j] == Scaled(val[l.step] + j as real, l.h)
    decreases j
  {
    var v := ModelStep(l, val);
    CounterStep(l, val);
    assert Column(reg, l, val, k, t)[j] == Column(reg, l, v, k, t - 1)[j - 1];
    if j > 1 {
      TimeColumn(reg, l, v, k, t - 1, j - 1);
      assert v[l.step] + (j - 1) as real == val[l.step] + j as real;
    }
  }

  /** A fresh model, with the step counter at zero, asked for `n <= 0` steps makes none and returns no series. */
  lemma FreshRunIdle(keys: seq<string>, reg: map<string, Cell>, labels: seq<string>, l: Layout, n: int, val: Valuation)
    requires (forall k :: k in keys ==> k in reg) && |labels| == |l.boxes|
    requires l.step in val && l.time in val && val[l.step] == 0.0 && n <= 0
    ensures Turns(val[l.step], n) == 0
    ensures Ran(None, keys, reg, labels, l, n, val, 0) == (None, val, Success(None))
  {
    TurnsFrom(0, n);
    assert (0 as real) == 0.0;
  }

  /**
   * A fresh model, with the step counter at zero and no series, whose first step passes,
   * asked for `n > 0` steps: the loop turns `n` times, the run returns the series, the cells
   * are as after `n` model steps, the counter stands at `n`, and there is a series for every
   * registered name.
   */
  lemma FreshRun(keys: seq<string>, reg: map<string, Cell>, labels: seq<string>, l: Layout, n: int, val: Valuation)
    requires Distinct(keys) && (forall k :: k in keys ==> k in reg)
    requires WellFormed(l, val.Keys) && |labels| == |l.boxes|
    requires val[l.step] == 0.0 && n > 0
    requires Clean(None, keys, labels, l)
    ensures Turns(val[l.step], n) == n
    ensures var r := Ran(None, keys, reg, labels, l, n, val, n);
            r.2 == Success(r.0) && r.1 == Iterate(n, l, val) && r.1[l.step] == n as real &&
            r.0.Some? && r.0.value.Keys == (set k | k in keys)
  {
    TurnsFrom(0, n);
    assert (0 as real) == 0.0;
    RanClean(None, keys, reg, labels, l, n, val, n);
    RanIterate(None, keys, reg, labels, l, n, val, n);
    RanNames(None, keys, reg, labels, l, n, val, n);
    StepCount(n, l, val);
  }

  /**
   * The series of that run: `n` values for every name, the step series `0, 1, ..., n - 1`
   * and the time series `0, h, ..., (n - 1) * h` (one entry per step, the values before it).
   */
  lemma FreshSeries(keys: seq<string>, reg: map<string, Cell>, labels: seq<string>, l: Layout, n: int, val: Valuation)
    requires Distinct(keys) && (forall k :: k in keys ==> k in reg)
    requires "step" in keys && "time" in keys && reg["step"] == l.step && reg["time"] == l.time
    requires WellFormed(l, val.Keys) && |labels| == |l.boxes|
    requires val[l.step] == 0.0 && val[l.time] == 0.0 && n > 0
    requires Clean(None, keys, labels, l)
    ensures var r := Ran(None, keys, reg, labels, l, n, val, n);
            r.0.Some? && (forall k :: k in keys ==> k in r.0.value && |r.0.value[k]| == n) &&
            (forall j :: 0 <= j < n ==> r.0.value["step"][j] == j as real && r.0.value["time"][j] == Scaled(j as real, l.h))
  {
    TurnsFrom(0, n);
    assert (0 as real) == 0.0;
    var r := Ran(None, keys, reg, labels, l, n, val, n);
    forall k | k in keys
      ensures r.0.Some? && k in r.0.value && |r.0.value[k]| == n
    {
      RanSeries(None, keys, reg, labels, l, n, val, n, k);
    }
    RanSeries(None, keys, reg, labels, l, n, val, n, "step");
    RanSeries(None, keys, reg, labels, l, n, val, n, "time");
    var steps := Column(reg, l, val, "step", n);
    var times := Column(reg, l, val, "time", n);
    assert r.0.value["step"] == [] + steps == steps;
    assert r.0.value["time"] == [] + times == times;
    forall j | 0 <= j < n
      ensures steps[j] == j as real && times[j] == Scaled(j as real, l.h)
    {
      StepColumn(reg, l, val, "step", n, j);
      if j > 0 {
        TimeColumn(reg, l, val, "time", n, j);
      } else {
        assert times[0] == val[l.time];
      }
    }
  }

  /** Once a run has returned, running again makes no step and returns the same series. */
  lemma RunAgainIdle(out: Option<Series>, keys: seq<string>, reg: map<string, Cell>, labels: seq<string>,
                     l: Layout, n: int, val: Valuation, t: nat)
    requires Distinct(keys) && forall k :: k in keys ==> k in reg
    requires WellFormed(l, val.Keys) && |labels| == |l.boxes| && t == Turns(val[l.step], n)
    requires Ran(out, keys, reg, labels, l, n, val, t).2.Success?
    ensures var r := Ran(out, keys, reg, labels, l, n, val, t);
            l.step in r.1 && l.time in r.1 && Turns(r.1[l.step], n) == 0 &&
            Ran(r.0, keys, reg, labels, l, n, r.1, 0) == (r.0, r.1, Success(r.0))
  {
    RanEnds(out, keys, reg, labels, l, n, val, t);
    var r := Ran(out, keys, reg, labels, l, n, val, t);
    TurnsStep(r.1[l.step], n);
  }

  /** A run that returns leaves the step counter at or above `n`. */
  lemma {:induction false} RanEnds(out: Option<Series>, keys: seq<string>, reg: map<string, Cell>, labels: seq<string>,
                                   l: Layout, n: int, val: Valuation, t: nat)
    requires Distinct(keys) && forall k :: k in keys ==> k in reg
    requires WellFormed(l, val.Keys) && |labels| == |l.boxes| && t == Turns(val[l.step], n)
    requires Ran(out, keys, reg, labels, l, n, val, t).2.Success?
    ensures l.step in Ran(out, keys, reg, labels, l, n, val, t).1 && l.time in Ran(out, keys, reg, labels, l, n, val, t).1
    ensures Ran(out, keys, reg, labels, l, n, val, t).1[l.step] >= n as real
    decreases t
  {
    TurnsStep(val[l.step], n);
    if t == 0 {
      assert Ran(out, keys, reg, labels, l, n, val, t).1 == val;
    } else {
      SteppedClean(out, keys, reg, labels, l, val);
      assert Clean(out, keys, labels, l);
      RanStep(out, keys, reg, labels, l, n, val, t);
      var o := Recorded(Base(out, keys), keys, Observe(reg, val));
      var v := ModelStep(l, val);
      RanEnds(Some(o), keys, reg, labels, l, n, v, t - 1);
    }
  }
}
