/** A compartment of named cells, its processes and its per-step delta accumulator. */
module Boxes {
  import opened Util
  import opened Cells
  import opened Fluxes

  datatype BoxError = UnknownAttribute(key: string) | DuplicateProcessLabel(name: string)

  /** The attribute names of an initial attribute table, in order. */
  function Names(attributes: seq<(string, real)>): (ns: seq<string>)
    ensures |ns| == |attributes|
    ensures forall i :: 0 <= i < |attributes| ==> ns[i] == attributes[i].0
  {
    seq(|attributes|, i requires 0 <= i < |attributes| => attributes[i].0)
  }

  /** A zero for every name. */
  ghost function Zeros(keys: seq<string>): map<string, real>
  {
    map k | k in keys :: 0.0
  }

  /** Reads the current value of every argument cell, in order (the values a flux function is called with). */
  method ReadArgs(args: seq<Cell>) returns (vals: seq<real>)
    ensures |vals| == |args|
    ensures forall j :: 0 <= j < |args| ==> vals[j] == args[j].v
  {
    vals := [];
    var i := 0;
    while i < |args|
      invariant 0 <= i <= |args|
      invariant |vals| == i
      invariant forall j :: 0 <= j < i ==> vals[j] == args[j].v
    {
      vals := vals + [args[i].v];
      i := i + 1;
    }
  }

  /**
   * Calls a process's flux function on the current values of its argument cells and
   * negates the result for a negative sign: the process's contribution to its target.
   */
  method Evaluate(p: Process, ghost val: Valuation) returns (d: real)
    requires forall j :: 0 <= j < |p.args| ==> p.args[j] in val && p.args[j].v == val[p.args[j]]
    ensures d == Signed(p.sign, p.func(ArgValues(p.args, val)))
  {
    var vals := ReadArgs(p.args);
    assert vals == ArgValues(p.args, val);
    d := p.func(vals);
    if IsNegative(p.sign) {
      d := d * -1.0;
    }
  }

  /** A table binding every attribute name to a fresh cell holding its initial value. */
  method NewCells(attributes: seq<(string, real)>) returns (m: map<string, Cell>)
    requires Distinct(Names(attributes))
    ensures forall k :: k in m <==> k in Names(attributes)
    ensures Injective(m)
    ensures forall i :: 0 <= i < |attributes| ==> m[attributes[i].0].v == attributes[i].1
    ensures forall k :: k in m ==> fresh(m[k])
  {
    m := map[];
    var i := 0;
    while i < |attributes|
      invariant 0 <= i <= |attributes|
      invariant forall k :: k in m <==> exists j :: 0 <= j < i && attributes[j].0 == k
      invariant Injective(m)
      invariant forall j :: 0 <= j < i ==> m[attributes[j].0].v == attributes[j].1
      invariant forall k :: k in m ==> fresh(m[k])
    {
      var c := new Cell(attributes[i].1);
      assert forall j :: 0 <= j < i ==> attributes[j].0 != attributes[i].0 by {
        assert forall j :: 0 <= j < i ==> Names(attributes)[j] != Names(attributes)[i];
      }
      m := m[attributes[i].0 := c];
      i := i + 1;
    }
  }

  /**
   * The loop of `run_processes`: evaluates each process in order and adds its signed result
   * to the entry of its target, stopping at the first target `acc` has no entry for.
   * Every process reads the cells as `val` describes them; only `acc` changes.
   */
  method RunAll(acc: Delta, ps: seq<Process>, ghost keys: set<string>, ghost val: Valuation) returns (ok: bool)
    requires acc.acc.Keys == keys
    requires forall i, j :: 0 <= i < |ps| && 0 <= j < |ps[i].args| ==> ps[i].args[j] in val && ps[i].args[j].v == val[ps[i].args[j]]
    requires acc.acc == Accumulated([], keys, val)
    modifies acc
    ensures ok == (FirstOutside(Targets(ps), keys) == |ps|)
    ensures acc.acc == Accumulated(ps[..FirstOutside(Targets(ps), keys)], keys, val)
  {
    ghost var ts := Targets(ps);
    var i := 0;
    ok := true;
    assert ps[..0] == [];
    while ok && i < |ps|
      invariant 0 <= i <= |ps|
      invariant forall j :: 0 <= j < i ==> ts[j] in keys
      invariant !ok ==> i < |ps| && ts[i] !in keys
      invariant acc.acc == Accumulated(ps[..i], keys, val)
    {
      var p := ps[i];
      var d := Evaluate(p, val);
      ok := acc.Add(p.target, d);
      if ok {
        AccumulateOne(ps, i, keys, val);
        i := i + 1;
      }
    }
    FirstOutsideIs(ts, keys, i);
    if ok {
      assert ps[..i] == ps;
    }
  }

  /** The transient per-step accumulator: one value per attribute, and the step length. */
  class Delta {
    const keys: seq<string>
    const scale: real
    var acc: map<string, real>

    /** A fresh accumulator holding 0.0 for every attribute of the box. */
    constructor (keys: seq<string>, h: real)
      ensures this.keys == keys && scale == h
      ensures acc.Keys == (set k | k in keys) && forall k :: k in acc ==> acc[k] == 0.0
    {
      this.keys := keys;
      scale := h;
      var m: map<string, real> := map[];
      var i := 0;
      while i < |keys|
        invariant 0 <= i <= |keys|
        invariant m.Keys == set k | k in keys[..i]
        invariant forall k :: k in m ==> m[k] == 0.0
      {
        assert keys[..i + 1] == keys[..i] + [keys[i]];
        m := m[keys[i] := 0.0];
        i := i + 1;
      }
      assert keys[..|keys|] == keys;
      acc := m;
    }

    /** Adds `x` to the entry for `key`; refuses a name it does not hold (the attribute lookup raises KeyError). */
    method Add(key: string, x: real) returns (ok: bool)
      modifies this
      ensures ok == (key in old(acc))
      ensures acc == if ok then old(acc)[key := old(acc)[key] + x] else old(acc)
    {
      ok := key in acc;
      if ok {
        acc := acc[key := acc[key] + x];
      }
    }
  }

  class Box {
    /** Attribute names, in the order of the initial table. */
    const keys: seq<string>
    /** Each attribute's own cell; the table never changes after construction, only the cells do. */
    const attr: map<string, Cell>
    /** Registered processes, in registration order. */
    var procs: seq<Process>
    /** The accumulator of the most recent step, if any. */
    var delta: Delta?

    /** The attribute table: names distinct, one cell per name, no cell shared by two names. */
    ghost predicate Valid()
    {
      Distinct(keys) && (forall k :: k in attr <==> k in keys) && Injective(attr)
    }

    /** No two processes share a label. */
    ghost predicate Labelled()
      reads this`procs
    {
      forall i, j :: 0 <= i < j < |procs| ==> procs[i].name != procs[j].name
    }

    ghost function View(): BoxView
      reads this`procs
    {
      BoxView(keys, attr, procs)
    }

    /** Every initial value gets its own fresh cell. */
    constructor (attributes: seq<(string, real)>)
      requires Distinct(Names(attributes))
      ensures Valid() && Labelled() && keys == Names(attributes) && procs == [] && delta == null
      ensures forall i :: 0 <= i < |attributes| ==> attr[attributes[i].0].v == attributes[i].1
      ensures forall k :: k in attr ==> fresh(attr[k])
    {
      var m := NewCells(attributes);
      keys := Names(attributes);
      attr := m;
      procs := [];
      delta := null;
    }

    /** The value of attribute `key`; `None` where the dict lookup raises KeyError. */
    function Get(key: string): (r: Option<real>)
      reads attr.Values
      ensures r.None? <==> key !in attr
      ensures r.Some? ==> r.value == attr[key].v
    {
      if key in attr then Some(attr[key].v) else None
    }

    /** Overwrites attribute `key` in place. */
    method Set(key: string, x: real) returns (r: Outcome<BoxError>)
      requires Valid()
      modifies attr.Values`v
      ensures r == if key in attr then Pass else Fail(UnknownAttribute(key))
      ensures r.Pass? ==> Get(key) == Some(x)
      ensures forall k :: k in attr && k != key ==> attr[k].v == old(attr[k].v)
    {
      if key in attr {
        attr[key].v := x;
        r := Pass;
      } else {
        r := Fail(UnknownAttribute(key));
      }
    }

    /** Adds `x` to attribute `key` in place. */
    method Add(key: string, x: real) returns (r: Outcome<BoxError>)
      requires Valid()
      modifies attr.Values`v
      ensures r == if key in attr then Pass else Fail(UnknownAttribute(key))
      ensures r.Pass? ==> attr[key].v == old(attr[key].v) + x
      ensures forall k :: k in attr && k != key ==> attr[k].v == old(attr[k].v)
    {
      if key in attr {
        attr[key].v := attr[key].v + x;
        r := Pass;
      } else {
        r := Fail(UnknownAttribute(key));
      }
    }

    /** Subtracts `x` from attribute `key` in place. */
    method Sub(key: string, x: real) returns (r: Outcome<BoxError>)
      requires Valid()
      modifies attr.Values`v
      ensures r == if key in attr then Pass else Fail(UnknownAttribute(key))
      ensures r.Pass? ==> attr[key].v == old(attr[key].v) - x
      ensures forall k :: k in attr && k != key ==> attr[k].v == old(attr[k].v)
    {
      if key in attr {
        attr[key].v := attr[key].v - x;
        r := Pass;
      } else {
        r := Fail(UnknownAttribute(key));
      }
    }

    /**
     * Registers a process under a new label. A label already in use is refused and the
     * table is left alone; identical function, target and arguments under another label
     * are accepted.
     */
    method AddProcess(name: string, target: string, func: seq<real> -> real, args: seq<Cell>, sign: string)
      returns (r: Outcome<BoxError>)
      modifies this`procs
      ensures Labelled() <==> old(Labelled())
      ensures r.Fail? <==> exists i :: 0 <= i < |old(procs)| && old(procs)[i].name == name
      ensures r.Fail? ==> r.error == DuplicateProcessLabel(name) && procs == old(procs)
      ensures r.Pass? ==> procs == old(procs) + [Process(name, target, func, args, sign)]
    {
      if exists i :: 0 <= i < |procs| && procs[i].name == name {
        r := Fail(DuplicateProcessLabel(name));
      } else {
        ghost var ps := procs;
        procs := procs + [Process(name, target, func, args, sign)];
        assert forall i :: 0 <= i < |ps| ==> procs[i] == ps[i];
        r := Pass;
      }
    }

    /** Replaces the accumulator by a fresh one holding zero for every attribute. */
    method ResetDeltas(h: real)
      requires Valid()
      modifies this`delta
      ensures delta != null && fresh(delta)
      ensures delta.keys == keys && delta.scale == h && delta.acc == Zeros(keys)
    {
      delta := new Delta(keys, h);
    }

    /**
     * Runs every process in registration order, adding its signed result into the
     * accumulator; only the accumulator changes. Stops at the first process whose target
     * is not an attribute (the KeyError of `delta.add`), with the sums of the processes before it.
     */
    method RunProcesses(ghost w: set<Cell>) returns (ok: bool)
      requires Valid() && Fits(View(), w)
      requires delta != null && delta.acc == Zeros(keys)
      modifies delta
      ensures ok == TargetsKnown(View())
      ensures delta.acc == Accumulated(procs[..FirstOutside(Targets(procs), attr.Keys)], attr.Keys, Snap(w))
    {
      assert Accumulated([], attr.Keys, Snap(w)) == Zeros(keys);
      ok := RunAll(delta, procs, attr.Keys, Snap(w));
    }

    /** Adds each accumulated value times the step length to its attribute, once. */
    method ApplyDelta()
      requires Valid() && delta != null && delta.keys == keys && delta.acc.Keys == attr.Keys
      modifies attr.Values`v
      ensures forall k :: k in attr ==> attr[k].v == old(attr[k].v) + Scaled(delta.acc[k], delta.scale)
    {
      var i := 0;
      while i < |delta.keys|
        invariant 0 <= i <= |keys|
        invariant forall j :: 0 <= j < i ==> attr[keys[j]].v == old(attr[keys[j]].v) + Scaled(delta.acc[keys[j]], delta.scale)
        invariant forall j :: i <= j < |keys| ==> attr[keys[j]].v == old(attr[keys[j]].v)
      {
        var key := delta.keys[i];
        var d := Scaled(delta.acc[key], delta.scale);
        attr[key].v := attr[key].v + d;
        i := i + 1;
      }
    }

    /**
     * One explicit-Euler step of this box: every attribute becomes its old value plus its
     * accumulated delta times `h`, all flux functions reading the state from before the step.
     * With a process whose target is unknown the step raises and no attribute changes.
     */
    method DoStep(h: real, ghost w: set<Cell>) returns (ok: bool)
      requires Valid() && Fits(View(), w)
      modifies this`delta, attr.Values`v
      ensures ok == TargetsKnown(View())
      ensures ok ==> Snap(w) == BoxStep(View(), h, old(Snap(w)))
      ensures !ok ==> Snap(w) == old(Snap(w))
    {
      ghost var before := Snap(w);
      ghost var view := View();
      ResetDeltas(h);
      ok := RunProcesses(w);
      if ok {
        assert procs[..|procs|] == procs;
        assert delta.acc == Accumulated(procs, attr.Keys, before) && delta.scale == h;
        ApplyDelta();
        ghost var after := Snap(w);
        forall k | k in attr
          ensures after[attr[k]] == before[attr[k]] + Scaled(TargetSum(procs, k, before), h)
        {
        }
        BoxStepFrom(view, h, before, after);
      }
    }
  }

  /** `FirstOutside` is the index of the first element outside `k`, whichever way it is found. */
  lemma {:induction false} FirstOutsideIs(xs: seq<string>, k: set<string>, n: nat)
    requires n <= |xs| && (forall j :: 0 <= j < n ==> xs[j] in k) && (n < |xs| ==> xs[n] !in k)
    ensures FirstOutside(xs, k) == n
  {
    if n > 0 {
      FirstOutsideIs(xs[1..], k, n - 1);
    }
  }
}
