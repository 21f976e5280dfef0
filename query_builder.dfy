/** The part of the generated query builder that chooses the columns of a
    query: the `fields` and `fieldsWithout` methods, which set the column
    list, and the select list that the generated `execute` method writes. */
module QueryBuilder {
  import opened Seqs
  import opened Text
  import opened Elements

  /** One constant of the generated column enumeration: its text and
      whether it names a primitive column. */
  datatype Column = Column(name: string, primitive: bool)

  function NotIn(cs: seq<Column>): Column -> bool
  {
    (c: Column) => c !in cs
  }

  /** `ArrayList.removeAll`: every occurrence of every listed column goes,
      the rest keep their order. */
  function RemoveAll(xs: seq<Column>, cs: seq<Column>): (r: seq<Column>)
    ensures |r| <= |xs|
    ensures forall c :: c in r <==> c in xs && c !in cs
  {
    FilterMembers(xs, NotIn(cs));
    Filter(xs, NotIn(cs))
  }

  function IsPrimitive(): Column -> bool
  {
    (c: Column) => c.primitive
  }

  /** The columns of `cs` the select list names, in order. */
  function PrimitiveColumns(cs: seq<Column>): seq<Column>
  {
    Filter(cs, IsPrimitive())
  }

  /** The select list names a column of the list exactly when it is primitive. */
  lemma {:induction false} PrimitiveColumnsMembers(cs: seq<Column>)
    ensures forall c :: c in PrimitiveColumns(cs) <==> c in cs && c.primitive
  {
    FilterMembers(cs, IsPrimitive());
  }

  function Qualify(tableName: string, column: string): string
  {
    tableName + "." + column
  }

  function QualifiedName(tableName: string): Column -> string
  {
    (c: Column) => Qualify(tableName, c.name)
  }

  /** What the loop over the chosen columns appends. */
  function QualifiedTail(tableName: string, cs: seq<Column>): string
  {
    if cs == [] then ""
    else
      var c := cs[|cs| - 1];
      QualifiedTail(tableName, cs[..|cs| - 1]) + (if c.primitive then ", " + Qualify(tableName, c.name) else "")
  }

  /** The select list of `execute`, up to and including the `from` clause. */
  function SelectClause(tableName: string, idName: string, fields: Option<seq<Column>>): string
  {
    "select distinct "
      + (match fields
         case None => tableName + ".* "
         case Some(cs) => Qualify(tableName, idName) + QualifiedTail(tableName, cs))
      + " from " + tableName + " "
  }

  lemma {:induction false} QualifiedTailSnoc(tableName: string, cs: seq<Column>, c: Column)
    ensures QualifiedTail(tableName, cs + [c])
            == QualifiedTail(tableName, cs) + (if c.primitive then ", " + Qualify(tableName, c.name) else "")
  {
    assert (cs + [c])[..|cs|] == cs;
  }

  lemma {:induction false} QualifiedNamesSnoc(tableName: string, first: string, cs: seq<Column>, c: Column)
    requires c.primitive
    ensures JoinWith(", ", [first] + Map(PrimitiveColumns(cs + [c]), QualifiedName(tableName)))
            == JoinWith(", ", [first] + Map(PrimitiveColumns(cs), QualifiedName(tableName))) + (", " + Qualify(tableName, c.name))
  {
    var prim := PrimitiveColumns(cs);
    assert IsPrimitive()(c);
    FilterSnoc(cs, c, IsPrimitive());
    ConsMapSnoc(first, prim, c, QualifiedName(tableName));
    JoinWithSnoc(", ", [first] + Map(prim, QualifiedName(tableName)), Qualify(tableName, c.name));
  }

  lemma {:induction false} QualifiedTailIsJoin(tableName: string, first: string, cs: seq<Column>)
    ensures first + QualifiedTail(tableName, cs)
            == JoinWith(", ", [first] + Map(PrimitiveColumns(cs), QualifiedName(tableName)))
  {
    if cs != [] {
      var init, c := cs[..|cs| - 1], cs[|cs| - 1];
      assert cs == init + [c];
      var names := [first] + Map(PrimitiveColumns(init), QualifiedName(tableName));
      var piece := if c.primitive then ", " + Qualify(tableName, c.name) else "";
      calc {
        first + QualifiedTail(tableName, cs);
        { QualifiedTailSnoc(tableName, init, c); }
        first + (QualifiedTail(tableName, init) + piece);
        (first + QualifiedTail(tableName, init)) + piece;
        { QualifiedTailIsJoin(tableName, first, init); }
        JoinWith(", ", names) + piece;
      }
      if c.primitive {
        QualifiedNamesSnoc(tableName, first, init, c);
      } else {
        FilterSnoc(init, c, IsPrimitive());
        assert !IsPrimitive()(c);
        assert PrimitiveColumns(cs) == PrimitiveColumns(init) + [] == PrimitiveColumns(init);
      }
    }
  }

  /** With a column list, the select list names the id column and then the
      primitive columns of the list, in list order, each qualified by the
      table name and separated by ", "; without one it selects every column. */
  lemma SelectClauseColumns(tableName: string, idName: string, fields: Option<seq<Column>>)
    ensures SelectClause(tableName, idName, fields)
            == "select distinct "
               + (match fields
                  case None => tableName + ".* "
                  case Some(cs) =>
                    JoinWith(", ", [Qualify(tableName, idName)] + Map(PrimitiveColumns(cs), QualifiedName(tableName))))
               + " from " + tableName + " "
  {
    if fields.Some? {
      QualifiedTailIsJoin(tableName, Qualify(tableName, idName), fields.value);
    }
  }

  /** The generated query builder, reduced to its column list. */
  class GeneratedQueryBuilder {
    const tableName: string
    const idName: string          // Constants.FIELD_ID
    const values: seq<Column>     // the column enumeration's values(), in declaration order
    var fields: Option<seq<Column>>

    constructor (tableName: string, idName: string, values: seq<Column>)
      ensures this.tableName == tableName && this.idName == idName && this.values == values
      ensures fields == None
    {
      this.tableName := tableName;
      this.idName := idName;
      this.values := values;
      fields := None;
    }

    /** `fields(columns...)`: query exactly these columns. */
    method Fields(columns: seq<Column>)
      modifies this
      ensures fields == Some(columns)
    {
      fields := Some(columns);
    }

    /** `fieldsWithout(columns...)`: query every column except these. */
    method FieldsWithout(columns: seq<Column>)
      modifies this
      ensures fields == Some(RemoveAll(values, columns))
    {
      fields := Some(RemoveAll(values, columns));
    }

    /** The select list the generated `execute` writes before its where clause. */
    method SelectList() returns (s: string)
      ensures s == SelectClause(tableName, idName, fields)
    {
      s := "select distinct ";
      if fields.None? {
        s := s + (tableName + ".* ");
      } else {
        var cs := fields.value;
        s := s + (tableName + "." + idName);
        ghost var head := s;
        var i := 0;
        while i < |cs|
          invariant 0 <= i <= |cs|
          invariant s == head + QualifiedTail(tableName, cs[..i])
        {
          var c := cs[i];
          assert cs[..i + 1][..i] == cs[..i];
          if c.primitive {
            s := s + (", " + (tableName + "." + c.name));
          }
          i := i + 1;
        }
        assert cs[..|cs|] == cs;
      }
      s := s + (" from " + tableName + " ");
    }
  }
}
