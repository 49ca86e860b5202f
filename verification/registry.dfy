/** The strategy's registry of generated meshes, keyed by tile id.

    Generating a tile records its mesh only when the tile has no entry yet;
    unregistering a tile removes its entry. Stitching looks neighbours up
    here. */
module Registry {
  import opened Wrappers

  /** Insert-if-absent: a tile that already has an entry keeps it, a new tile
      gets v. */
  function Register<K(==), V>(reg: map<K, V>, k: K, v: V): (r: map<K, V>)
    ensures r.Keys == reg.Keys + {k}
    ensures forall key :: key in reg ==> r[key] == reg[key]
    ensures k !in reg ==> r[k] == v
  {
    if k in reg then reg else reg[k := v]
  }

  /** Removes the tile's entry, if any; every other entry stays. */
  function Unregister<K(==), V>(reg: map<K, V>, k: K): (r: map<K, V>)
    ensures r.Keys == reg.Keys - {k}
    ensures forall key :: key in r ==> r[key] == reg[key]
  {
    reg - {k}
  }

  /** The dictionary's try-get: the entry for k, or nothing. */
  function Lookup<K(==), V>(reg: map<K, V>, k: K): (r: Option<V>)
    ensures r.Some? <==> k in reg
    ensures r.Some? ==> r.value == reg[k]
  {
    if k in reg then Some(reg[k]) else None
  }

  /** Registering a tile a second time changes nothing, whatever mesh is
      offered: the first registration wins. */
  lemma RegisterIdempotent<K, V>(reg: map<K, V>, k: K, v: V, w: V)
    ensures Register(Register(reg, k, v), k, w) == Register(reg, k, v)
    ensures Lookup(Register(Register(reg, k, v), k, w), k) == Lookup(Register(reg, k, v), k)
  {
  }

  /** Unregistering a tile that was just registered for the first time
      restores the registry. */
  lemma UnregisterUndoesRegister<K, V>(reg: map<K, V>, k: K, v: V)
    requires k !in reg
    ensures Unregister(Register(reg, k, v), k) == reg
  {
  }

  /** After an unregister, registering the tile again records the new mesh. */
  lemma ReRegisterTakesNewEntry<K, V>(reg: map<K, V>, k: K, v: V)
    ensures Lookup(Register(Unregister(reg, k), k, v), k) == Some(v)
  {
  }

  /** Register and unregister on one tile leave every other tile's lookup
      alone. */
  lemma OtherTilesUnaffected<K, V>(reg: map<K, V>, k: K, v: V, other: K)
    requires other != k
    ensures Lookup(Register(reg, k, v), other) == Lookup(reg, other)
    ensures Lookup(Unregister(reg, k), other) == Lookup(reg, other)
  {
  }
}
