/**
 The metadata add/drop toggle: given the hash of an attribute identifier and a
 flag, add the column for that attribute (computing it from the tensors) or
 drop it. The per-attribute computation `T::calculate` is not part of this
 model; it is a parameter.
 */
module AttributeUtil {
  import opened Geometry
  import opened MetaData

  /** `T::calculate(tensors, metaData)`: the column attribute `t` would hold. */
  type Calculator = (Attribute, seq<Mat3>, Table) -> Column

  /**
   `AddRemoveMetaData<N>::operator()<T>(id, add)` for the attribute `t`, on the
   field's metadata table `md` and tensors `tensors`.
   */
  function AddRemove(t: Attribute, calculate: Calculator, tensors: seq<Mat3>, md: Table,
                     id: nat, add: bool): (r: Table)
    // an id of another attribute leaves the table alone
    ensures id != IdentifierHash(t) ==> r == md
    // a matching id makes the presence of column t follow the flag
    ensures id == IdentifierHash(t) ==> (t in r <==> add)
    // whatever happens, no other column is touched
    ensures forall a :: a != t ==> (a in r <==> a in md)
    ensures forall a :: a != t && a in r ==> r[a] == md[a]
    // a column already present is never recomputed
    ensures t in md && t in r ==> r[t] == md[t]
    // a column that is added holds what the calculation yields on the old table
    ensures t !in md && t in r ==> r[t] == calculate(t, tensors, md)
  {
    if id == IdentifierHash(t) then
      if t in md then
        if !add then md - {t} else md
      else
        if add then md[t := calculate(t, tensors, md)] else md
    else
      md
  }

  /** Repeating a toggle with the same id and flag changes nothing further. */
  lemma AddRemoveIdempotent(t: Attribute, calculate: Calculator, tensors: seq<Mat3>, md: Table,
                            id: nat, add: bool)
    ensures var once := AddRemove(t, calculate, tensors, md, id, add);
            AddRemove(t, calculate, tensors, once, id, add) == once
  {
    var once := AddRemove(t, calculate, tensors, md, id, add);
    var twice := AddRemove(t, calculate, tensors, once, id, add);
    if id == IdentifierHash(t) {
      assert t in once <==> add;
      assert twice == once;
    }
  }

  /** Dropping and re-adding a column that was computed from the same table
      restores the table. */
  lemma DropThenAddRestores(t: Attribute, calculate: Calculator, tensors: seq<Mat3>, md: Table)
    requires t in md && md[t] == calculate(t, tensors, md - {t})
    ensures var dropped := AddRemove(t, calculate, tensors, md, IdentifierHash(t), false);
            AddRemove(t, calculate, tensors, dropped, IdentifierHash(t), true) == md
  {
    var dropped := AddRemove(t, calculate, tensors, md, IdentifierHash(t), false);
    assert dropped == md - {t};
    var restored := AddRemove(t, calculate, tensors, dropped, IdentifierHash(t), true);
    assert restored.Keys == md.Keys;
  }

  /** A toggle addressed to one attribute never touches another attribute's column,
      because distinct identifiers hash apart. */
  lemma OtherAttributeUnaffected(t: Attribute, u: Attribute, calculate: Calculator,
                                 tensors: seq<Mat3>, md: Table, add: bool)
    requires u != t
    ensures AddRemove(t, calculate, tensors, md, IdentifierHash(u), add) == md
  {
    HashInjective(t, u);
  }
}
