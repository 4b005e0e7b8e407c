/** The name-to-cell directory that keeps names unique and never binds one cell twice. */
module Registries {
  import opened Util
  import opened Cells

  datatype RegistryError = DuplicateKey | DuplicateIdentity

  class Registry {
    /** Registered names in registration order (the dict's insertion order). */
    var keys: seq<string>
    /** The cell each name refers to; the registry references cells, it never copies them. */
    var reg: map<string, Cell>
    /** The position of each name in `keys`: one position per name, so no name occurs twice. */
    ghost var pos: map<string, nat>
    /** The name each bound cell is bound under: one name per cell, so no cell is bound twice. */
    ghost var owner: map<Cell, string>

    ghost predicate Valid()
      reads this
    {
      (forall k :: k in reg <==> k in keys) &&
      (forall i :: 0 <= i < |keys| ==> keys[i] in pos && pos[keys[i]] == i) &&
      (forall k :: k in reg ==> reg[k] in owner && owner[reg[k]] == k)
    }

    /** Every name is registered once. */
    lemma KeysDistinct()
      requires Valid()
      ensures Distinct(keys)
    {
      forall i, j | 0 <= i < j < |keys|
        ensures keys[i] != keys[j]
      {
        assert pos[keys[i]] == i && pos[keys[j]] == j;
      }
    }

    /** No cell is bound under two names. */
    lemma Injectivity()
      requires Valid()
      ensures Injective(reg)
    {
      forall k1, k2 | k1 in reg && k2 in reg && k1 != k2
        ensures reg[k1] != reg[k2]
      {
        assert owner[reg[k1]] == k1 && owner[reg[k2]] == k2;
      }
    }

    constructor ()
      ensures Valid() && keys == [] && reg == map[]
    {
      keys := [];
      reg := map[];
      pos := map[];
      owner := map[];
    }

    /** Is some name bound to this very cell? Identity, not equality of values, decides. */
    predicate CheckId(c: Cell)
      reads this
      ensures CheckId(c) <==> exists k :: k in reg && reg[k] == c
    {
      c in reg.Values
    }

    /**
     * Binds `key` to `c`. A name already present is refused first; then a cell already
     * bound under some name; otherwise exactly one binding is appended.
     */
    method Register(key: string, c: Cell) returns (r: Outcome<RegistryError>)
      requires Valid()
      modifies this
      ensures Valid()
      ensures key in old(reg) ==> r == Fail(DuplicateKey)
      ensures key !in old(reg) && c in old(reg.Values) ==> r == Fail(DuplicateIdentity)
      ensures r.Pass? <==> key !in old(reg) && c !in old(reg.Values)
      ensures r.Fail? ==> keys == old(keys) && reg == old(reg)
      ensures r.Pass? ==> keys == old(keys) + [key] && reg == old(reg)[key := c]
    {
      if key in reg {
        r := Fail(DuplicateKey);
      } else if CheckId(c) {
        r := Fail(DuplicateIdentity);
      } else {
        pos := pos[key := |keys|];
        owner := owner[c := key];
        keys := keys + [key];
        reg := reg[key := c];
        r := Pass;
      }
    }

    /** The current value of the cell bound to `key`; `None` where the dict lookup raises KeyError. */
    function Get(key: string): (r: Option<real>)
      reads this, reg.Values`v
      ensures r.None? <==> key !in reg
      ensures r.Some? ==> r.value == reg[key].v
    {
      if key in reg then Some(reg[key].v) else None
    }

    /** The bound cell itself, shared and mutable. */
    function GetRef(key: string): (r: Option<Cell>)
      reads this
      ensures r.None? <==> key !in reg
      ensures r.Some? ==> key in reg && r.value == reg[key] && CheckId(r.value)
    {
      if key in reg then Some(reg[key]) else None
    }

    /** Overwrites the bound cell's value in place; no binding changes, no other cell changes. */
    method Set(key: string, x: real) returns (ok: bool)
      requires Valid()
      modifies reg.Values`v
      ensures ok == (key in reg)
      ensures ok ==> Get(key) == Some(x)
      ensures forall k :: k in reg && k != key ==> reg[k].v == old(reg[k].v)
    {
      ok := key in reg;
      if ok {
        reg[key].v := x;
      }
    }

    /** The registered names, each once, in registration order. */
    function Keys(): (r: seq<string>)
      reads this
      requires Valid()
      ensures forall k :: k in r <==> k in reg
      ensures forall i :: 0 <= i < |r| ==> r[i] !in r[..i]
    {
      keys
    }

    /** The current value of every registered name. */
    function Values(): map<string, real>
      reads this, reg.Values`v
    {
      map k | k in reg :: reg[k].v
    }
  }
}
