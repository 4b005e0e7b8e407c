/**
 * The model driver: one registry, the step and time cells, the boxes in insertion order,
 * and the recorded history of every registered value.
 */
module Driver {
  import opened Util
  import opened Cells
  import opened Fluxes
  import opened Registries
  import opened Boxes
  import opened Runs

  /** Why `add_box` stopped part-way: the composite name it could not register. */
  datatype SetupError = KeyTaken(key: string)

  /** The registry name of attribute `key` of box `boxName`. */
  function Composite(boxName: string, key: string): string
  {
    boxName + "_" + key
  }

  /** The registry names of a box's attributes, in attribute order. */
  function Composites(boxName: string, ks: seq<string>): (cs: seq<string>)
    ensures |cs| == |ks|
    ensures forall i :: 0 <= i < |ks| ==> cs[i] == Composite(boxName, ks[i])
  {
    seq(|ks|, i requires 0 <= i < |ks| => Composite(boxName, ks[i]))
  }

  /** A composite name always contains the separator, so it never takes the place of `step` or `time`. */
  lemma CompositeNotReserved(boxName: string, key: string)
    ensures Composite(boxName, key) != "step" && Composite(boxName, key) != "time"
  {
    var s := Composite(boxName, key);
    assert s[|boxName|] == '_';
    if |boxName| < 4 {
      assert "step"[|boxName|] != '_' && "time"[|boxName|] != '_';
    }
  }

  /** Within one box, distinct attribute names give distinct composite names. */
  lemma CompositeInjective(boxName: string, k1: string, k2: string)
    requires k1 != k2
    ensures Composite(boxName, k1) != Composite(boxName, k2)
  {
    var n := |boxName| + 1;
    assert Composite(boxName, k1)[n..] == k1;
    assert Composite(boxName, k2)[n..] == k2;
  }

  /** Across boxes they need not: the separator may also occur inside a box label or an attribute name. */
  lemma CompositeAmbiguous()
    ensures Composite("a_b", "c") == Composite("a", "b_c")
  {
  }

  /** `FirstIn` is the index of the first element inside `k`, whichever way it is found. */
  lemma {:induction false} FirstInIs(xs: seq<string>, k: set<string>, n: nat)
    requires n <= |xs| && (forall j :: 0 <= j < n ==> xs[j] !in k) && (n < |xs| ==> xs[n] in k)
    ensures FirstIn(xs, k) == n
  {
    if n > 0 {
      FirstInIs(xs[1..], k, n - 1);
    }
  }

  /** The cells a sequence of boxes owns or reads. */
  ghost function Footprint(bs: seq<BoxView>): set<Cell>
  {
    if bs == [] then {}
    else Footprint(bs[..|bs| - 1]) + bs[|bs| - 1].attr.Values + ArgCells(bs[|bs| - 1].procs)
  }

  lemma {:induction false} FootprintCovers(bs: seq<BoxView>, i: nat)
    requires i < |bs|
    ensures bs[i].attr.Values <= Footprint(bs)
    ensures ArgCells(bs[i].procs) <= Footprint(bs)
  {
    if i < |bs| - 1 {
      FootprintCovers(bs[..|bs| - 1], i);
    }
  }

  lemma ArgCellsIn(ps: seq<Process>, w: set<Cell>)
    requires ArgCells(ps) <= w
    ensures ArgsIn(ps, w)
  {
    forall i, j | 0 <= i < |ps| && 0 <= j < |ps[i].args|
      ensures ps[i].args[j] in w
    {
      assert ps[i].args[j] in ArgCells(ps);
    }
  }

  /** The cells of attributes `ks`, in that order. */
  function CellsOf(attr: map<string, Cell>, ks: seq<string>): (cs: seq<Cell>)
    requires forall k :: k in ks ==> k in attr
    ensures |cs| == |ks| && forall j :: 0 <= j < |ks| ==> cs[j] == attr[ks[j]]
  {
    seq(|ks|, j requires 0 <= j < |ks| => attr[ks[j]])
  }

  /**
   * No element repeats an earlier one. For names this is `Distinct` (see `UnrepeatedDistinct`);
   * the registration loop consumes this form, which speaks of one position at a time.
   */
  ghost predicate Unrepeated<T>(xs: seq<T>)
  {
    forall j :: 0 <= j < |xs| ==> xs[j] !in xs[..j]
  }

  lemma UnrepeatedDistinct(xs: seq<string>)
    ensures Unrepeated(xs) <==> Distinct(xs)
  {
    if Unrepeated(xs) {
      forall i, j | 0 <= i < j < |xs|
        ensures xs[i] != xs[j]
      {
        assert xs[..j][i] == xs[i];
      }
    }
    if Distinct(xs) {
      forall j | 0 <= j < |xs|
        ensures xs[j] !in xs[..j]
      {
        assert forall i :: 0 <= i < j ==> xs[..j][i] == xs[i];
      }
    }
  }

  /** Distinct attribute names give distinct registry names. */
  lemma CompositesDistinct(boxName: string, ks: seq<string>)
    requires Distinct(ks)
    ensures Unrepeated(Composites(boxName, ks))
  {
    var cs := Composites(boxName, ks);
    forall i, j | 0 <= i < j < |ks|
      ensures cs[i] != cs[j]
    {
      CompositeInjective(boxName, ks[i], ks[j]);
    }
    UnrepeatedDistinct(cs);
  }

  /** Distinct attribute names of an injective table give distinct cells. */
  lemma CellsDistinct(attr: map<string, Cell>, ks: seq<string>)
    requires Distinct(ks) && Injective(attr) && forall k :: k in ks ==> k in attr
    ensures Unrepeated(CellsOf(attr, ks))
  {
    var cs := CellsOf(attr, ks);
    forall j | 0 <= j < |cs|
      ensures cs[j] !in cs[..j]
    {
      forall i | 0 <= i < j
        ensures cs[..j][i] != cs[j]
      {
        assert ks[i] != ks[j];
      }
    }
  }

  /** In a sequence without repeats, the elements after position `i` differ from the one at `i`. */
  lemma LaterDiffer<T>(xs: seq<T>, i: nat)
    requires Unrepeated(xs) && i < |xs|
    ensures forall j :: i < j < |xs| ==> xs[j] != xs[i]
  {
    forall j | i < j < |xs|
      ensures xs[j] != xs[i]
    {
      assert xs[..j][i] == xs[i];
    }
  }

  /** `m` with `ks[j]` bound to `cs[j]` for each `j` in order. */
  ghost function Bind(m: map<string, Cell>, ks: seq<string>, cs: seq<Cell>): map<string, Cell>
    requires |ks| == |cs|
  {
    if ks == [] then m
    else Bind(m, ks[..|ks| - 1], cs[..|cs| - 1])[ks[|ks| - 1] := cs[|cs| - 1]]
  }

  /** What `Bind` leaves and what it adds, for distinct names. */
  lemma {:induction false} BindAt(m: map<string, Cell>, ks: seq<string>, cs: seq<Cell>)
    requires |ks| == |cs| && Unrepeated(ks)
    ensures forall k :: k in Bind(m, ks, cs) <==> k in m || k in ks
    ensures forall k :: k in m && k !in ks ==> Bind(m, ks, cs)[k] == m[k]
    ensures forall j :: 0 <= j < |ks| ==> Bind(m, ks, cs)[ks[j]] == cs[j]
  {
    if ks != [] {
      var n := |ks| - 1;
      var ks', cs' := ks[..n], cs[..n];
      forall j | 0 <= j < n
        ensures ks'[j] !in ks'[..j]
      {
        assert ks'[j] == ks[j] && ks'[..j] == ks[..j];
      }
      BindAt(m, ks', cs');
      assert ks == ks' + [ks[n]];
      forall j | 0 <= j < n
        ensures Bind(m, ks, cs)[ks[j]] == cs[j]
      {
        assert ks'[j] == ks[j] && cs'[j] == cs[j] && ks[..n][j] != ks[n];
      }
    }
  }

  /** Binding one more name is one more map update. */
  lemma BindNext(m: map<string, Cell>, ks: seq<string>, cs: seq<Cell>, i: nat)
    requires i < |ks| == |cs|
    ensures Bind(m, ks[..i + 1], cs[..i + 1]) == Bind(m, ks[..i], cs[..i])[ks[i] := cs[i]]
  {
    assert ks[..i + 1][..i] == ks[..i] && cs[..i + 1][..i] == cs[..i];
  }

  /** Binding a name adds at most its cell to the bound cells. */
  lemma BoundValues(m: map<string, Cell>, k: string, c: Cell)
    ensures m[k := c].Values <= m.Values + {c}
  {
  }

  /** A registry holding only `step` and `time`, each bound to its own new cell at zero. */
  method NewCounters() returns (reg: Registry, sc: Cell, tc: Cell)
    ensures fresh(reg) && fresh(sc) && fresh(tc)
    ensures reg.Valid() && reg.keys == ["step", "time"] && reg.reg == map["step" := sc, "time" := tc]
    ensures sc.v == 0.0 && tc.v == 0.0
  {
    reg := new Registry();
    sc := new Cell(0.0);
    tc := new Cell(0.0);
    var r1 := reg.Register("step", sc);
    var r2 := reg.Register("time", tc);
  }

  /** The state of the registration loop after registering the first `i` names. */
  ghost predicate Registering(registry: Registry, ks: seq<string>, cs: seq<Cell>, i: nat,
                              keys0: seq<string>, reg0: map<string, Cell>)
    reads registry
  {
    i <= |ks| == |cs| && registry.Valid() &&
    (forall j :: 0 <= j < i ==> ks[j] !in reg0) &&
    registry.keys == keys0 + ks[..i] && registry.reg == Bind(reg0, ks[..i], cs[..i]) &&
    forall j :: i <= j < |cs| ==> cs[j] !in registry.reg.Values
  }

  /** One turn of the registration loop. */
  method RegisterNext(registry: Registry, ks: seq<string>, cs: seq<Cell>, i: nat,
                      ghost keys0: seq<string>, ghost reg0: map<string, Cell>) returns (r: Outcome<RegistryError>)
    requires Registering(registry, ks, cs, i, keys0, reg0) && i < |ks|
    requires ks[i] !in ks[..i] && (forall k :: k in reg0 <==> k in keys0)
    requires forall j :: i < j < |cs| ==> cs[j] != cs[i]
    modifies registry
    ensures r.Pass? ==> Registering(registry, ks, cs, i + 1, keys0, reg0)
    ensures r.Fail? ==> r == Fail(DuplicateKey) && ks[i] in reg0 && Registering(registry, ks, cs, i, keys0, reg0)
  {
    ghost var before := registry.reg;
    r := registry.Register(ks[i], cs[i]);
    if r.Pass? {
      BindNext(reg0, ks, cs, i);
      assert keys0 + ks[..i + 1] == keys0 + ks[..i] + [ks[i]];
      BoundValues(before, ks[i], cs[i]);
    }
  }

  /**
   * The registration loop of `add_box`: registers `ks[j]` for `cs[j]` in order and stops
   * at the first name already taken, leaving the earlier ones registered. The cells are
   * distinct and new to the registry, so the identity check never refuses one.
   */
  method RegisterAll(registry: Registry, ks: seq<string>, cs: seq<Cell>) returns (n: nat, r: Outcome<RegistryError>)
    requires registry.Valid() && |ks| == |cs| && Unrepeated(ks) && Unrepeated(cs)
    requires forall j :: 0 <= j < |cs| ==> cs[j] !in registry.reg.Values
    modifies registry
    ensures registry.Valid()
    ensures n == FirstIn(ks, old(registry.reg).Keys)
    ensures registry.keys == old(registry.keys) + ks[..n]
    ensures registry.reg == Bind(old(registry.reg), ks[..n], cs[..n])
    ensures forall k :: k in old(registry.reg) ==> registry.reg[k] == old(registry.reg[k])
    ensures forall j :: 0 <= j < n ==> registry.reg[ks[j]] == cs[j]
    ensures r == if n == |ks| then Pass else Fail(DuplicateKey)
  {
    ghost var reg0 := registry.reg;
    ghost var keys0 := registry.keys;
    assert ks[..0] == [] && cs[..0] == [];
    n := 0;
    r := Pass;
    while n < |ks|
      invariant Registering(registry, ks, cs, n, keys0, reg0)
      invariant r == Pass
    {
      LaterDiffer(cs, n);
      r := RegisterNext(registry, ks, cs, n, keys0, reg0);
      if r.Fail? {
        break;
      }
      n := n + 1;
    }
    BoundPrefix(reg0, ks, cs, n);
  }

  /**
   * Where the registration loop stops and what it leaves bound, when it bound the first `n`
   * names and then stopped at the end or at a name already bound.
   */
  lemma BoundPrefix(reg0: map<string, Cell>, ks: seq<string>, cs: seq<Cell>, n: nat)
    requires n <= |ks| == |cs| && Unrepeated(ks)
    requires (forall j :: 0 <= j < n ==> ks[j] !in reg0) && (n < |ks| ==> ks[n] in reg0)
    ensures n == FirstIn(ks, reg0.Keys)
    ensures forall k :: k in reg0 ==> k in Bind(reg0, ks[..n], cs[..n]) && Bind(reg0, ks[..n], cs[..n])[k] == reg0[k]
    ensures forall j :: 0 <= j < n ==> ks[j] in Bind(reg0, ks[..n], cs[..n]) && Bind(reg0, ks[..n], cs[..n])[ks[j]] == cs[j]
  {
    FirstInIs(ks, reg0.Keys, n);
    var ks', cs' := ks[..n], cs[..n];
    forall j | 0 <= j < n
      ensures ks'[j] !in ks'[..j]
    {
      assert ks'[j] == ks[j] && ks'[..j] == ks[..j];
    }
    BindAt(reg0, ks', cs');
    forall j | 0 <= j < n
      ensures ks[j] in Bind(reg0, ks', cs') && Bind(reg0, ks', cs')[ks[j]] == cs[j]
    {
      assert ks'[j] == ks[j] && cs'[j] == cs[j];
    }
  }

  /**
   * The registry `add_box` leaves behind, and its outcome, for a box labelled `boxName` with
   * attribute names `keys` and cells `cells`, starting from names `keys0` bound as `reg0`:
   * the composite names up to the first one already taken are appended and bound to their
   * cells; the first taken name, if any, is the error.
   */
  ghost function Registration(boxName: string, keys: seq<string>, cells: seq<Cell>,
                              keys0: seq<string>, reg0: map<string, Cell>): (seq<string>, map<string, Cell>, Outcome<SetupError>)
    requires |keys| == |cells|
  {
    var cs := Composites(boxName, keys);
    var m := FirstIn(cs, reg0.Keys);
    (keys0 + cs[..m], Bind(reg0, cs[..m], cells[..m]), if m == |cs| then Pass else Fail(KeyTaken(cs[m])))
  }

  /**
   * What a registration keeps and adds: every name bound before stays bound to its cell, and
   * when it passes, every composite name of the box is bound to its attribute's own cell.
   */
  lemma RegistrationBinds(boxName: string, keys: seq<string>, cells: seq<Cell>,
                          keys0: seq<string>, reg0: map<string, Cell>)
    requires |keys| == |cells| && Distinct(keys)
    ensures var (_, reg, r) := Registration(boxName, keys, cells, keys0, reg0);
            (forall k :: k in reg0 ==> k in reg && reg[k] == reg0[k]) &&
            (r.Pass? ==> forall j :: 0 <= j < |keys| ==>
               Composite(boxName, keys[j]) in reg && reg[Composite(boxName, keys[j])] == cells[j])
  {
    var cs := Composites(boxName, keys);
    CompositesDistinct(boxName, keys);
    BoundPrefix(reg0, cs, cells, FirstIn(cs, reg0.Keys));
  }

  /** A box with an unknown target at or before the first stuck one is the first stuck one. */
  lemma StuckAt(bs: seq<BoxView>, i: nat)
    requires i < |bs| && i <= FirstStuck(bs) && !TargetsKnown(bs[i])
    ensures FirstStuck(bs) == i
  {
  }

  /** A box with known targets at or before the first stuck one lies before it. */
  lemma StuckAfter(bs: seq<BoxView>, i: nat)
    requires i < |bs| && i <= FirstStuck(bs) && TargetsKnown(bs[i])
    ensures i + 1 <= FirstStuck(bs)
  {
  }

  /** The registry's current values are what its cells hold in any snapshot covering them. */
  lemma Observed(registry: Registry, w: set<Cell>)
    requires registry.reg.Values <= w
    ensures registry.Values() == Observe(registry.reg, Snap(w))
  {
  }

  /** The step-relevant parts of boxes `bxs`, in order. */
  ghost function ViewsOf(bxs: seq<Box>): (vs: seq<BoxView>)
    reads bxs`procs
    ensures |vs| == |bxs| && forall i :: 0 <= i < |bxs| ==> vs[i] == bxs[i].View()
  {
    if bxs == [] then [] else ViewsOf(bxs[..|bxs| - 1]) + [bxs[|bxs| - 1].View()]
  }

  /**
   * The box loop of `do_step`: each box in turn makes its own step, reading what the boxes
   * before it left behind; a box with an unknown target raises and the boxes after it do
   * not step. `n` boxes stepped in full, and `n` is where the first stuck box sits.
   */
  method StepEach(bxs: seq<Box>, h: real, ghost w: set<Cell>, ghost vs: seq<BoxView>) returns (n: nat)
    requires vs == ViewsOf(bxs)
    requires forall i :: 0 <= i < |bxs| ==> bxs[i].Valid() && Fits(vs[i], w)
    modifies bxs`delta, w`v
    ensures n == FirstStuck(vs)
    ensures Snap(w) == Round(vs[..n], h, old(Snap(w)))
  {
    ghost var v0 := Snap(w);
    n := 0;
    while n < |bxs|
      invariant n <= |bxs| && n <= FirstStuck(vs)
      invariant Snap(w) == Round(vs[..n], h, v0)
    {
      var ok := bxs[n].DoStep(h, w);
      if !ok {
        StuckAt(vs, n);
        return;
      }
      StuckAfter(vs, n);
      RoundPrefix(vs, h, v0, n + 1);
      n := n + 1;
    }
  }

  class BoxModel {
    /** The step length `h`. */
    const stepLength: real
    /** The loop of `run` goes on while the step counter is below this. */
    const nStepsEnd: int
    const registry: Registry
    /** The cells registered as `step` and `time`. */
    const stepCell: Cell
    const timeCell: Cell
    /** Box labels in the order the box dict iterates them (first insertion of each label). */
    var labels: seq<string>
    var boxes: map<string, Box>
    /** One series per registered name, created by the first model step. */
    var output: Option<map<string, seq<real>>>

    ghost predicate Valid()
      reads this`output, this`labels, this`boxes, registry
    {
      Bound() && Laid()
    }

    /**
     * The registry is consistent, `step` and `time` are its cells, and every series has a
     * registered name; once created, the series are never an empty dict (`step` has one).
     */
    ghost predicate Bound()
      reads this`output, registry
    {
      registry.Valid() &&
      "step" in registry.reg && registry.reg["step"] == stepCell &&
      "time" in registry.reg && registry.reg["time"] == timeCell &&
      (output.Some? ==> "step" in output.value && output.value.Keys <= registry.reg.Keys)
    }

    /** Labels are distinct, each box is consistent and owns cells no other box, `step` or `time` owns. */
    ghost predicate Laid()
      reads this`labels, this`boxes
    {
      Distinct(labels) && (forall l :: l in boxes <==> l in labels) &&
      (forall l :: l in boxes ==> boxes[l].Valid()) &&
      (forall l1, l2 :: l1 in boxes && l2 in boxes && l1 != l2 ==>
         boxes[l1] != boxes[l2] && boxes[l1].attr.Values !! boxes[l2].attr.Values) &&
      (forall l :: l in boxes ==> stepCell !in boxes[l].attr.Values && timeCell !in boxes[l].attr.Values)
    }

    /** The boxes under labels `ls`, in that order, as the step semantics sees them. */
    ghost function Views(ls: seq<string>): (bs: seq<BoxView>)
      reads this`boxes, boxes.Values`procs
      ensures |bs| == |ls|
      ensures forall i :: 0 <= i < |ls| && ls[i] in boxes ==> bs[i] == boxes[ls[i]].View()
    {
      if ls == [] then []
      else
        var l := ls[|ls| - 1];
        Views(ls[..|ls| - 1]) + [if l in boxes then boxes[l].View() else BoxView([], map[], [])]
    }

    ghost function Shape(): Layout
      reads this`labels, this`boxes, boxes.Values`procs
    {
      Layout(Views(labels), stepLength, stepCell, timeCell)
    }

    /** Every cell a model step reads or writes. */
    ghost function World(): set<Cell>
      reads this`labels, this`boxes, registry`reg, boxes.Values`procs
    {
      registry.reg.Values + {stepCell, timeCell} + Footprint(Shape().boxes)
    }

    /** The layout of laid-out boxes is determined by what each box holds. */
    lemma ShapeOf(l: Layout)
      requires Laid() && l.h == stepLength && l.step == stepCell && l.time == timeCell && |l.boxes| == |labels|
      requires forall i :: 0 <= i < |labels| ==> boxes[labels[i]].View() == l.boxes[i]
      ensures Shape() == l
    {
      assert Views(labels) == l.boxes;
    }

    /** The invariant gives the step semantics everything it needs. */
    lemma ValidWellFormed()
      requires Valid()
      ensures WellFormed(Shape(), World())
      ensures registry.reg.Values <= World()
      ensures forall l :: l in boxes ==> boxes[l].attr.Values <= World() && Fits(boxes[l].View(), World())
    {
      var bs := Shape().boxes;
      var w := World();
      forall i | 0 <= i < |bs|
        ensures Fits(bs[i], w)
        ensures stepCell !in bs[i].attr.Values && timeCell !in bs[i].attr.Values
      {
        FootprintCovers(bs, i);
        ArgCellsIn(bs[i].procs, w);
      }
      forall l | l in boxes
        ensures boxes[l].attr.Values <= w && Fits(boxes[l].View(), w)
      {
        var i :| 0 <= i < |labels| && labels[i] == l;
        assert bs[i] == boxes[l].View();
      }
      forall i, j | 0 <= i < j < |bs|
        ensures bs[i].attr.Values !! bs[j].attr.Values
      {
        assert labels[i] != labels[j];
      }
    }

    /** The pair form `BoxModel(step=(n, h))`: `step` and `time` registered at 0. */
    constructor (n: int, h: real)
      ensures Valid()
      ensures nStepsEnd == n && stepLength == h
      ensures registry.keys == ["step", "time"] && stepCell.v == 0.0 && timeCell.v == 0.0
      ensures labels == [] && boxes == map[] && output == None
      ensures fresh(registry) && fresh(stepCell) && fresh(timeCell)
    {
      var reg, sc, tc := NewCounters();
      nStepsEnd := n;
      stepLength := h;
      registry := reg;
      stepCell := sc;
      timeCell := tc;
      labels := [];
      boxes := map[];
      output := None;
    }

    /**
     * Creates a box with a fresh cell per attribute and stores it under `name`, replacing any
     * box of that name (which keeps its place in the iteration order). Then registers each
     * attribute's own cell as `name_key`, in attribute order, stopping at the first name
     * already taken; the names registered before it stay registered.
     */
    method AddBox(name: string, attributes: seq<(string, real)>) returns (r: Outcome<SetupError>, ghost b: Box)
      requires Valid() && Distinct(Names(attributes))
      modifies this`labels, this`boxes, registry
      ensures Valid()
      ensures fresh(b) && b.Valid() && b.keys == Names(attributes) && b.procs == []
      ensures forall k :: k in b.attr ==> fresh(b.attr[k])
      ensures forall i :: 0 <= i < |attributes| ==> b.attr[attributes[i].0].v == attributes[i].1
      ensures boxes == old(boxes)[name := b]
      ensures labels == if name in old(labels) then old(labels) else old(labels) + [name]
      ensures (registry.keys, registry.reg, r) == Registration(name, b.keys, CellsOf(b.attr, b.keys), old(registry.keys), old(registry.reg))
      ensures r.Pass? ==> forall k :: k in b.attr ==> Composite(name, k) in registry.reg && registry.reg[Composite(name, k)] == b.attr[k]
    {
      var box := StoreNewBox(name, attributes);
      ghost var keys0, reg0 := registry.keys, registry.reg;
      r := RegisterBox(name, box);
      b := box;
      RegistrationBinds(name, b.keys, CellsOf(b.attr, b.keys), keys0, reg0);
    }

    /** The first half of `add_box`: a new box with its own fresh cells, stored under `name`. */
    method StoreNewBox(name: string, attributes: seq<(string, real)>) returns (b: Box)
      requires Valid() && Distinct(Names(attributes))
      modifies this`labels, this`boxes
      ensures Valid()
      ensures fresh(b) && b.Valid() && b.keys == Names(attributes) && b.procs == []
      ensures forall k :: k in b.attr ==> fresh(b.attr[k])
      ensures forall i :: 0 <= i < |attributes| ==> b.attr[attributes[i].0].v == attributes[i].1
      ensures forall k :: k in b.attr ==> b.attr[k] !in registry.reg.Values
      ensures boxes == old(boxes)[name := b]
      ensures labels == if name in old(labels) then old(labels) else old(labels) + [name]
    {
      b := new Box(attributes);
      forall l | l in boxes
        ensures boxes[l] != b && boxes[l].attr.Values !! b.attr.Values
      {
      }
      PutBox(name, b);
    }

    /**
     * The registration half of `add_box` for the box just stored under `name`: binds each
     * `name_key` to the attribute's cell, in attribute order, up to the first name taken.
     */
    method RegisterBox(name: string, b: Box) returns (r: Outcome<SetupError>)
      requires Bound() && b.Valid()
      requires forall k :: k in b.attr ==> b.attr[k] !in registry.reg.Values
      modifies registry
      ensures Bound()
      ensures (registry.keys, registry.reg, r) == Registration(name, b.keys, CellsOf(b.attr, b.keys), old(registry.keys), old(registry.reg))
    {
      var cs := Composites(name, b.keys);
      var cells := CellsOf(b.attr, b.keys);
      CompositesDistinct(name, b.keys);
      CellsDistinct(b.attr, b.keys);
      var m, res := RegisterAll(registry, cs, cells);
      r := if res.Pass? then Pass else Fail(KeyTaken(cs[m]));
    }

    /** Stores `b` under `name`: a new label goes last, a known one keeps its place. */
    method PutBox(name: string, b: Box)
      requires Valid() && b.Valid()
      requires forall l :: l in boxes ==> boxes[l] != b && boxes[l].attr.Values !! b.attr.Values
      requires stepCell !in b.attr.Values && timeCell !in b.attr.Values
      modifies this`labels, this`boxes
      ensures Valid()
      ensures boxes == old(boxes)[name := b]
      ensures labels == if name in old(labels) then old(labels) else old(labels) + [name]
    {
      boxes := boxes[name := b];
      if name !in labels {
        labels := labels + [name];
      }
    }

    /**
     * The recording half of `do_step`: creates an empty series per registered name when there
     * are none yet, then appends each name's current value in registration order; a name
     * without a series raises, leaving the appends before it in place.
     */
    method Record() returns (r: Outcome<StepError>)
      requires Bound()
      modifies this`output
      ensures Bound() && output.Some?
      ensures (output.value, r) == Recording(old(output), registry.keys, old(registry.Values()))
    {
      var o;
      o, r := RecordValues(output, registry.Keys(), registry.Values());
      output := Some(o);
    }

    /** The current step counter: the value registered as `step`. */
    function GetStep(): (r: real)
      reads this`output, registry, registry.reg.Values
      requires Bound()
      ensures registry.Get("step") == Some(r)
    {
      stepCell.v
    }

    /** The step counter is what a snapshot holding its cell says. */
    lemma SnapStep(w: set<Cell>)
      requires Bound() && stepCell in w
      ensures GetStep() == Snap(w)[stepCell]
    {
    }

    /** The current time: the value registered as `time`. */
    function GetTime(): (r: real)
      reads this`output, registry, registry.reg.Values
      requires Bound()
      ensures registry.Get("time") == Some(r)
    {
      timeCell.v
    }

    /** Advances the step counter by one, in place: the registry sees the new value. */
    method IncrementStep(ghost w: set<Cell>)
      requires Bound() && stepCell in w
      modifies stepCell`v
      ensures registry.Get("step") == Some(old(GetStep()) + 1.0)
      ensures Snap(w) == old(Snap(w))[stepCell := old(Snap(w))[stepCell] + 1.0]
    {
      stepCell.v := stepCell.v + 1.0;
    }

    /** Recomputes the time as the step counter times the step length, in place. */
    method UpdateTime(ghost w: set<Cell>)
      requires Bound() && stepCell in w && timeCell in w
      modifies timeCell`v
      ensures registry.Get("time") == Some(Scaled(GetStep(), stepLength))
      ensures Snap(w) == old(Snap(w))[timeCell := Scaled(old(Snap(w))[stepCell], stepLength)]
    {
      registry.Injectivity();
      timeCell.v := Scaled(stepCell.v, stepLength);
    }

    /** The cell registered under `name`, shared: reading it reads the registry entry. */
    function Ref(name: string): (r: Option<Cell>)
      reads this`output, registry, registry.reg.Values
      requires Bound()
      ensures r.None? <==> name !in registry.reg
      ensures r.Some? ==> r.value == registry.reg[name] && registry.Get(name) == Some(r.value.v)
    {
      registry.GetRef(name)
    }

    /** The box stored under `name`; `None` where the dict lookup raises KeyError. */
    function GetBox(name: string): (r: Option<Box>)
      reads this`labels, this`boxes
      requires Laid()
      ensures r.None? <==> name !in labels
      ensures r.Some? ==> r.value == boxes[name] && r.value.Valid()
    {
      if name in boxes then Some(boxes[name]) else None
    }

    /** The boxes in iteration order: what `self.boxes.values()` yields. */
    function Listed(): (bxs: seq<Box>)
      reads this`labels, this`boxes
      requires Laid()
      ensures |bxs| == |labels| && forall i :: 0 <= i < |labels| ==> bxs[i] == boxes[labels[i]]
    {
      var ls, m := labels, boxes;
      seq(|ls|, i requires 0 <= i < |ls| => m[ls[i]])
    }

    /** The listed boxes are the boxes of the layout, each fitting the model's cells. */
    lemma ListedFits()
      requires Valid()
      ensures Prepared(Listed(), World(), Shape()) && Ready(Listed(), World(), Shape())
      ensures forall i :: 0 <= i < |labels| ==> Listed()[i] in boxes.Values
    {
      ValidWellFormed();
      var bxs := Listed();
      assert ViewsOf(bxs) == Shape().boxes;
    }

    /**
     * What a model step over the boxes `bxs` needs of the heap: they are the boxes of
     * layout `l`, one per label, and `w` holds every registered cell.
     */
    ghost predicate Prepared(bxs: seq<Box>, w: set<Cell>, l: Layout)
      reads this`labels, registry`reg, bxs`procs
    {
      |bxs| == |labels| && |l.boxes| == |bxs| && registry.reg.Values <= w &&
      forall i :: 0 <= i < |bxs| ==> bxs[i].procs == l.boxes[i].procs
    }

    /**
     * The rest of what a model step needs: `w` holds every cell the boxes and the counters
     * use, and `l` steps with the model's counters and step length.
     */
    ghost predicate Ready(bxs: seq<Box>, w: set<Cell>, l: Layout)
    {
      WellFormed(l, w) && l.step == stepCell && l.time == timeCell && l.h == stepLength &&
      forall i :: 0 <= i < |bxs| && i < |l.boxes| ==>
        bxs[i].Valid() && bxs[i].keys == l.boxes[i].keys && bxs[i].attr == l.boxes[i].attr
    }

    /** Boxes prepared and ready for layout `l` are the boxes of `l`. */
    lemma ViewsAre(bxs: seq<Box>, w: set<Cell>, l: Layout)
      requires Prepared(bxs, w, l) && Ready(bxs, w, l)
      ensures ViewsOf(bxs) == l.boxes
    {
    }

    /** The end of `do_step`: the step counter advances, then the time is recomputed from it. */
    method Tick(ghost w: set<Cell>, ghost l: Layout)
      requires Bound() && stepCell in w && timeCell in w
      requires l.step == stepCell && l.time == timeCell && l.h == stepLength
      modifies w`v
      ensures Snap(w) == Counted(l, old(Snap(w)))
    {
      IncrementStep(w);
      UpdateTime(w);
    }

    /**
     * The box loop of `do_step` and the counters after it: each box, in iteration order,
     * makes its own step, reading what the boxes before it left behind; then the step
     * counter advances and the time is recomputed. With no boxes it raises; a box with an
     * unknown target raises, the boxes after it do not step and the counters stay.
     */
    method Advance(bxs: seq<Box>, ghost w: set<Cell>, ghost l: Layout) returns (r: Outcome<StepError>)
      requires Bound() && Prepared(bxs, w, l) && Ready(bxs, w, l)
      modifies bxs`delta, w`v
      ensures (Snap(w), r) == Advanced(labels, l, old(Snap(w)))
      ensures forall i :: 0 <= i < |bxs| ==> bxs[i].procs == old(bxs[i].procs)
    {
      if bxs == [] {
        return Fail(NoBoxes);
      }
      ghost var v0 := Snap(w);
      ViewsAre(bxs, w, l);
      var n := StepEach(bxs, stepLength, w, l.boxes);
      if n < |bxs| {
        return Fail(UnknownTarget(labels[n]));
      }
      RoundAll(l.boxes, l.h, v0);
      Tick(w, l);
      r := Pass;
    }

    /**
     * One model step over the listed boxes `bxs`: records every registered value, lets every
     * box step, then advances the step counter and recomputes the time. Whatever raises ends
     * the step there; the values recorded before it stay recorded.
     */
    method Step(bxs: seq<Box>, ghost w: set<Cell>, ghost l: Layout) returns (r: Outcome<StepError>)
      requires Bound() && Prepared(bxs, w, l) && Ready(bxs, w, l)
      modifies this`output, bxs`delta, w`v
      ensures Bound() && output.Some? && forall i :: 0 <= i < |bxs| ==> bxs[i].procs == old(bxs[i].procs)
      ensures (output.value, Snap(w), r) == Stepped(old(output), registry.keys, registry.reg, labels, l, old(Snap(w)))
    {
      ghost var v0 := Snap(w);
      Observed(registry, w);
      r := Record();
      ghost var rec := r;
      if r.Pass? {
        r := Advance(bxs, w, l);
      }
      SteppedBy(old(output), registry.keys, registry.reg, labels, l, v0, output.value, rec, Snap(w), r);
    }

    /** `do_step`: one model step over the boxes in iteration order. */
    method DoStep(ghost w: set<Cell>, ghost l: Layout) returns (r: Outcome<StepError>)
      requires Valid() && w == World() && l == Shape()
      modifies this`output, boxes.Values`delta, w`v
      ensures Valid() && output.Some? && w == World() && l == Shape()
      ensures (output.value, Snap(w), r) == Stepped(old(output), registry.keys, registry.reg, labels, l, old(Snap(w)))
    {
      var bxs := Listed();
      ListedFits();
      r := Step(bxs, w, l);
      ShapeOf(l);
    }

    /**
     * One turn of the loop of `run`, below the bound: a model step. `result` is what the run
     * from here returns: a step that raises ends the run with it, a step that passes leaves
     * it to the next turn.
     */
    method Turn(ghost w: set<Cell>, ghost l: Layout,
                ghost result: (Option<Series>, Valuation, Result<Option<Series>, StepError>)) returns (e: Outcome<StepError>)
      requires Valid() && w == World() && l == Shape() && GetStep() < nStepsEnd as real
      requires Ran(output, registry.keys, registry.reg, labels, l, nStepsEnd, Snap(w), Turns(Snap(w)[stepCell], nStepsEnd)) == result
      modifies this`output, boxes.Values`delta, w`v
      ensures Valid() && w == World() && l == Shape()
      ensures e.Fail? ==> (output, Snap(w), Failure(e.error)) == result
      ensures e.Pass? ==> Turns(Snap(w)[stepCell], nStepsEnd) < Turns(old(Snap(w))[stepCell], nStepsEnd) &&
                          Ran(output, registry.keys, registry.reg, labels, l, nStepsEnd, Snap(w), Turns(Snap(w)[stepCell], nStepsEnd)) == result
    {
      ghost var v, o := Snap(w), output;
      ValidWellFormed();
      SnapStep(w);
      assert v.Keys == w;
      e := DoStep(w, l);
      RanAfter(o, registry.keys, registry.reg, labels, l, nStepsEnd, v, output.value, Snap(w), e, result);
    }

    /**
     * Model steps while the step counter is below the end; returns the series (none when
     * no step was taken), or the error of the first step that raises.
     */
    method Run(ghost w: set<Cell>) returns (r: Result<Option<Series>, StepError>)
      requires Valid() && w == World()
      modifies this`output, boxes.Values`delta, w`v
      ensures Valid()
      ensures (output, Snap(w), r) ==
              Ran(old(output), registry.keys, registry.reg, labels, Shape(), nStepsEnd, old(Snap(w)), Turns(old(GetStep()), nStepsEnd))
    {
      ghost var l := Shape();
      ghost var result := Ran(output, registry.keys, registry.reg, labels, l, nStepsEnd, Snap(w), Turns(Snap(w)[stepCell], nStepsEnd));
      while GetStep() < nStepsEnd as real
        invariant Valid() && w == World() && l == Shape()
        invariant Ran(output, registry.keys, registry.reg, labels, l, nStepsEnd, Snap(w), Turns(Snap(w)[stepCell], nStepsEnd)) == result
        decreases Turns(Snap(w)[stepCell], nStepsEnd)
      {
        SnapStep(w);
        var e := Turn(w, l, result);
        if e.Fail? {
          return Failure(e.error);
        }
      }
      SnapStep(w);
      RanDone(output, registry.keys, registry.reg, labels, l, nStepsEnd, Snap(w));
      r := Success(output);
    }
  }
}
