# boxmodel in Dafny

A verified model of `boxmodel.py`, a small explicit-Euler simulator for compartment
("box") models. Each box holds named attributes. Each attribute lives in its own
mutable cell (the one-element list of `BasicBox.__init__`). Processes registered on a
box compute fluxes from argument cells, which may belong to other boxes, and add them
to a target attribute. A `BoxModel` owns a `Registry` that binds names to cells by
reference: `step`, `time` and `<box>_<attribute>` for every attribute. `do_step`
records every registered value into the output series, then steps every box in
insertion order, then advances the step counter and recomputes the time. `run`
repeats `do_step` until the counter reaches the end.

The model keeps that shape:

- `Cells.Cell` is the shared mutable cell. Aliasing is object identity: the registry
  and the boxes hold the same `Cell` objects.
- `Registries.Registry`, `Boxes.Delta`, `Boxes.Box` and `Driver.BoxModel` are classes
  whose methods update their fields and the cells in place. The loops of the program
  (`register` calls in `add_box`, `run_processes`, `apply_delta`, the two loops of
  `do_step`, the loop of `run`) are `while` loops with invariants.
- The meaning of a step is stated on values in `Fluxes` and `Runs`. A valuation
  (`map<Cell, real>`) describes the cells. `BoxStep` is one box's step, `Round` is the
  boxes stepping in order, `ModelStep`/`Iterate` add the counters, `Recording` is the
  history update, and `Stepped`/`Ran` are a whole `do_step`/`run` with every way they
  can raise. Each method is proved to leave the heap exactly as these functions say,
  and the properties of the program are lemmas about the functions.

Python exceptions become results: `Outcome` (`Pass | Fail(error)`), `Result` and
`Option`, with one error datatype per layer. The effects that happen before the raise
stay visible, as in the program: registrations made before a taken name, series
appended before a missing one, and boxes stepped before a stuck one.

In `Registry.register` the two error messages are swapped. A taken key reports the
variable's id, and a taken cell reports the key. The model only distinguishes the two
cases (`DuplicateKey`, `DuplicateIdentity`), in the program's order: key first.

## Model

| member | source | states |
|---|---|---|
| Registries.Registry.constructor | boxmodel.py:9-10 | a new registry is empty and consistent |
| Registries.Registry.CheckId | boxmodel.py:15-16 | a cell counts as registered iff some name is bound to that very cell (identity, not value) |
| Registries.Registry.Register | boxmodel.py:18-25 | a taken name fails with DuplicateKey; otherwise a cell that is already bound fails with DuplicateIdentity; it passes iff neither, and then appends exactly one binding; a failure changes nothing; the invariant (unique names, no cell under two names) is kept |
| Registries.Registry.KeysDistinct | boxmodel.py:18-25 | under the invariant `register` keeps, no name is registered twice |
| Registries.Registry.Injectivity | boxmodel.py:18-25 | under the same invariant, no cell is bound under two names |
| Registries.Registry.Get | boxmodel.py:27-28 | a missing name gives None (KeyError); otherwise the current value of the bound cell |
| Registries.Registry.GetRef | boxmodel.py:29-30 | a missing name gives None; otherwise exactly the bound cell (the same object), which CheckId recognises |
| Registries.Registry.Set | boxmodel.py:32-33 | succeeds iff the name is bound; `get` then returns the new value; no other registered cell changes |
| Registries.Registry.Keys | boxmodel.py:35-37 | exactly the registered names, each once |
| Boxes.NewCells | boxmodel.py:49-58 | one fresh cell per attribute name holding its initial value, no cell shared by two names |
| Boxes.Box.constructor | boxmodel.py:49-58 | attribute order is the table's order; every attribute has its own fresh cell with its initial value; no processes yet |
| Boxes.Box.Get | boxmodel.py:66-67 | an unknown attribute gives None (KeyError); otherwise the value in its cell |
| Boxes.Box.Set | boxmodel.py:69-70 | an unknown attribute fails; otherwise `get` returns the new value and no other attribute changes |
| Boxes.Box.Add | boxmodel.py:72-73 | an unknown attribute fails; otherwise the attribute grows by `x` and no other attribute changes |
| Boxes.Box.Sub | boxmodel.py:75-78 | an unknown attribute fails; otherwise the attribute shrinks by `x` and no other attribute changes |
| Boxes.Delta.constructor | boxmodel.py:88-92 | one zero entry for each attribute of the box, and the step length as the scaling factor |
| Boxes.Delta.Add | boxmodel.py:72-73 | adding to a name the accumulator lacks fails and changes nothing; otherwise only that entry grows by `x` |
| Boxes.Box.AddProcess | boxmodel.py:110-119 | fails iff a process with that label exists, and then changes nothing; otherwise appends exactly the given process (identical set-ups under another label are accepted); labels stay unique iff they were |
| Boxes.ReadArgs | boxmodel.py:126-128 | the argument values are the current values of the argument cells, in order |
| Boxes.Evaluate | boxmodel.py:124-131 | a process contributes its flux function on the argument values, negated exactly for the signs `-`, `minus` and `negative` |
| Boxes.RunAll | boxmodel.py:122-132 | the accumulator holds, per attribute, the sum of the contributions of the processes targeting it; it fails iff some process targets an unknown name, and then it holds the sums of the processes before the first such one |
| Boxes.Box.RunProcesses | boxmodel.py:121-132 | with a fresh accumulator, passes iff every target is an attribute; the accumulator then holds the per-attribute sums, all read from the state before the step |
| Boxes.Box.ResetDeltas | boxmodel.py:139-140 | the box gets a new accumulator with a zero for each attribute and the given step length |
| Boxes.Box.ApplyDelta | boxmodel.py:142-145 | every attribute grows by its accumulated value times the step length, once |
| Boxes.Box.DoStep | boxmodel.py:134-137 | passes iff every process targets an attribute of the box; then the cells are exactly `BoxStep` of the old cells; otherwise no cell changes |
| Fluxes.TargetSumReorder | boxmodel.py:121-132 | the sum accumulated for an attribute does not depend on the order of the processes |
| Fluxes.ReorderedBoxStep | boxmodel.py:121-145 | reordering a box's processes does not change its step |
| Fluxes.BoxStepEffect | boxmodel.py:134-145 | a step adds to each attribute its accumulated sum times `h`, once, and leaves every cell that is not an attribute of the box alone |
| Fluxes.AttributeStep | boxmodel.py:134-145 | attribute `k` moves by exactly its accumulated sum times `h` |
| Fluxes.UntargetedUnchanged | boxmodel.py:121-145 | an attribute that no process targets keeps its value |
| Fluxes.SingleProcessStep | boxmodel.py:121-145 | a lone process of rate `r` moves its target by exactly the signed `r` times `h` (scaling applied once) |
| Fluxes.RoundOutside | boxmodel.py:217-218 | the box loop changes no cell that no box owns |
| Fluxes.CrossBoxRead | boxmodel.py:217-218 | when a later box steps, a cell of an earlier box already holds the value that box's own step gave it in this round |
| Fluxes.CounterStep | boxmodel.py:198-203 | one model step advances the step counter by one and sets the time to the new counter times `h` |
| Fluxes.StepCount | boxmodel.py:198-199 | after `n` model steps the counter has advanced by exactly `n` |
| Fluxes.TimeRecomputed | boxmodel.py:202-203 | after `n >= 1` steps the time is the counter times `h`, recomputed and never accumulated |
| Fluxes.SoleOutflowStep | boxmodel.py:121-145 | one box with one constant outflow `rate`: every model step lowers the attribute by exactly `rate * h` |
| Runs.EmptySeries | boxmodel.py:208-210 | an empty series for every registered name |
| Runs.AppendValues | boxmodel.py:213-214 | appends each name's value in registration order, up to the first name without a series |
| Runs.RecordValues | boxmodel.py:206-214 | the series are created only when there are none yet; the recording is exactly `Recording` |
| Runs.RecordingEffect | boxmodel.py:206-214 | on the first step the series are exactly the names registered then; later, the recording passes iff every registered name has a series, and it then appends exactly each name's current value; a failure names the first name without a series, with all earlier names recorded |
| Runs.SteppedClean | boxmodel.py:205-220 | a step passes iff there are boxes, every target is known and every name has a series; it then records every name and makes one model step |
| Runs.RanClean | boxmodel.py:222-225 | a run whose first step passes never raises |
| Runs.RanIterate | boxmodel.py:222-225 | a clean run of `t` turns leaves the cells as `t` model steps do |
| Runs.RanSeries | boxmodel.py:213-225 | over a clean run each name's series gains exactly the values it held before each step |
| Runs.RanFailsFirst | boxmodel.py:222-225 | a run that raises does so on its first step, with that step's series and cells |
| Runs.TurnsFrom | boxmodel.py:223 | from a whole counter `s`, the loop turns `n - s` times when `s < n`, and never otherwise |
| Runs.StepColumn | boxmodel.py:198-214 | the recorded step series counts up by one |
| Runs.TimeColumn | boxmodel.py:202-214 | past its first entry, the recorded time series is the step series times `h` |
| Runs.FreshRunIdle | boxmodel.py:222-225 | a fresh model asked for `n <= 0` steps makes none and returns no series (None) |
| Runs.FreshRun | boxmodel.py:222-225 | a fresh clean model asked for `n > 0` steps turns `n` times, returns the series, leaves the cells as `n` model steps do with the counter at `n`, and has a series for every registered name |
| Runs.FreshSeries | boxmodel.py:205-225 | that run records `n` values per name, `step[i] == i` and `time[i] == i * h` |
| Runs.RunAgainIdle | boxmodel.py:222-225 | once a run has returned, a second run makes no step and returns the same series |
| Runs.RanEnds | boxmodel.py:223 | a run that returns leaves the step counter at or above the end |
| Driver.CompositeNotReserved | boxmodel.py:177 | a composite name `<box>_<attribute>` is never `step` or `time` |
| Driver.CompositeInjective | boxmodel.py:177 | within one box, distinct attributes get distinct registry names |
| Driver.CompositeAmbiguous | boxmodel.py:177 | across boxes they may collide: `a_b`+`c` and `a`+`b_c` give the same name |
| Driver.RegisterAll | boxmodel.py:176-177 | registers the names in order up to the first one already taken, binding each to its cell; earlier bindings are kept; fails iff a name was taken |
| Driver.RegistrationBinds | boxmodel.py:171-177 | registration keeps every earlier binding, and when it passes every composite name is bound to that attribute's own cell |
| Driver.BoxModel.constructor | boxmodel.py:158-169 | pair form: end and step length stored; `step` and `time` registered, in that order, to new cells at zero; no boxes, no series |
| Driver.BoxModel.AddBox | boxmodel.py:171-178 | stores a new box with fresh cells under the label (a known label is overwritten and keeps its place); registers `<label>_<key>` for each attribute in order, up to the first taken name; on success every composite name is bound to that very attribute cell; the model invariant is kept |
| Driver.BoxModel.GetStep | boxmodel.py:196-197 | the value registered as `step` |
| Driver.BoxModel.GetTime | boxmodel.py:200-201 | the value registered as `time` |
| Driver.BoxModel.IncrementStep | boxmodel.py:198-199 | the counter grows by one, in place, so the registry sees it; no other cell changes |
| Driver.BoxModel.UpdateTime | boxmodel.py:202-203 | the time becomes the counter times the step length, in place; no other cell changes |
| Driver.BoxModel.Ref | boxmodel.py:186-187 | a missing name gives None; otherwise the registered cell itself, whose value is what the registry reads |
| Driver.BoxModel.GetBox | boxmodel.py:188-189 | an unknown label gives None (KeyError); otherwise the stored box |
| Driver.StepEach | boxmodel.py:217-218 | boxes step in order, each reading what the earlier ones left; stops at the first box with an unknown target; the cells are the round over the boxes that stepped |
| Driver.BoxModel.Record | boxmodel.py:206-214 | the series and the outcome are `Recording` of the registered names and their current values |
| Driver.BoxModel.Advance | boxmodel.py:216-220 | with no boxes it raises and nothing changes; otherwise the cells and outcome are `Advanced` (a full round plus the counters, or a partial round and the stuck box's label) |
| Driver.BoxModel.DoStep | boxmodel.py:205-220 | the series, the cells and the outcome are exactly `Stepped` of the old ones; the model invariant is kept |
| Driver.BoxModel.Run | boxmodel.py:222-225 | the series, the cells and the result are exactly `Ran` from the old state, for the number of turns the loop makes |

## Left out

- Floating point: IEEE double arithmetic is modelled as exact `real` arithmetic, so rounding is not modelled.
- Driver.BoxModel.GetStep: the step counter is a `real` cell, like every other cell; the program keeps an int in `[0]` (boxmodel.py:166), so `output['step']` holds ints there. From a fresh model the counter stays whole (`Runs.TurnsFrom`, `Runs.FreshSeries`).
- Driver.BoxModel.constructor: `n_steps_end` is an `int` and `step_length` a `real`; the program accepts any Python values there.
- Driver.BoxModel.constructor: only the pair form `BoxModel(step=(n, h))` is modelled. The other branch (boxmodel.py:163) tests an undefined name `timestep` and raises NameError.
- Default arguments are not modelled: `sign='+'` of `add_process` (boxmodel.py:110) and `step_length=1` of `Box.do_step` (boxmodel.py:134). Every call passes them.
- Flux functions are total `seq<real> -> real`, so an exception raised inside `func(*args)` (boxmodel.py:130) is not modelled. An argument "name" is an argument cell: `args.append(*a)` unpacks its one element, which is the cell's value.
- AttributeError and KeyError are not told apart: each is a case of the layer's error datatype (`RegistryError`, `BoxError`, `SetupError`, `StepError`).
- Boxes.Delta.constructor: the program sets `scaling_factor` inside the attribute loop, so it stays None for a box with no attributes. The model always stores the step length. For such a box `apply_delta` iterates over nothing, so no cell differs.
- Not modelled: `plot` (plotting), `check_setup` (it reads an attribute `n_steps` that is never set), `set_box`, `__str__`, `Delta.scale`, `Delta.get_delta`, `Registry.check_key`/`values`/`items`/`identities`, `Box.list_processes`, the per-box `process_registry` (created and never used) and the empty `hashlist` that `add_box` returns.
- Runs.FreshSeries: history length follows the code. Every series holds `N` entries after a fresh run of `N` steps: each step records the values from before it (boxmodel.py:213-214, 223-224), and the state after the last step is never recorded. It is not `N + 1`.
- Fluxes.CrossBoxRead: within a round, cross-box reads follow the code. A process of a later box reads an earlier box's cell as that box's step left it in this round (boxmodel.py:217-218), not as it stood when the round began.
- Driver.BoxModel.Run: `run` is modelled as the program has it. Each turn is a full `do_step` that lists the boxes again. `Turns` counts the turns of the loop from a counter value; each turn that passes raises the counter by exactly one.
- Driver.BoxModel.AddBox: re-adding a label replaces the box, but the registry keeps the names registered for the old box. A composite name the old box registered is then taken, so registration stops at the first such name with `KeyTaken`, and the old cells stay registered. The model states this; it does not repair it.
- Driver.CompositeAmbiguous: composite names can collide across boxes whose labels or attribute names contain `_`. `add_box` then stops at `KeyTaken`, as the program does.
- Boxes.Box.AddProcess: the uniqueness of labels (`Labelled`) is stated as preserved (iff), not as part of the box invariant. The model invariant does not need it: a step never looks up a process by its label.
- Driver.BoxModel.AddBox: the attribute table is a sequence of pairs with distinct names (a Python dict has distinct keys by construction); attribute values are `real`.
- Concurrency and I/O: none in the program; `plt.show` is left out with `plot`.
