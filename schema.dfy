/** The table schema the generator derives for a model: the column list of
    the main table (`generateTableCreate`) and the `create table` statements
    for the main table and its join tables (`generateCreationString`). */
module Schema {
  import opened Seqs
  import opened Text
  import opened Elements

  // ---------------------------------------------------------------------
  // Column list of the main table
  // ---------------------------------------------------------------------

  function NotIdField(fieldId: Option<Field>): Field -> bool
  {
    (f: Field) => !IsIdField(f, fieldId)
  }

  function NotNamedId(env: Env): Field -> bool
  {
    (f: Field) => f.name != env.fieldIdName
  }

  /** The primitive fields other than the id element itself: the list the
      filter loop builds. */
  function Candidates(fields: seq<Field>, fieldId: Option<Field>): seq<Field>
  {
    Filter(fields, NotIdField(fieldId))
  }

  /** The fields that actually receive a column definition. */
  function Columns(env: Env, fields: seq<Field>, fieldId: Option<Field>): (r: seq<Field>)
    ensures forall f :: f in r <==> f in fields && !IsIdField(f, fieldId) && f.name != env.fieldIdName
  {
    FilterMembers(fields, NotIdField(fieldId));
    FilterMembers(Candidates(fields, fieldId), NotNamedId(env));
    Filter(Candidates(fields, fieldId), NotNamedId(env))
  }

  /** The definition written for one column: name, one space, SQL type. */
  function ColumnDef(env: Env, f: Field): string
  {
    f.name + " " + env.fieldTableType(f)
  }

  function ColumnDefOf(env: Env): Field -> string
  {
    (f: Field) => ColumnDef(env, f)
  }

  function ColumnDefs(env: Env, fs: seq<Field>): seq<string>
  {
    Map(fs, ColumnDefOf(env))
  }

  /** What the index loop appends for `elements[i]`: nothing for a field named
      like the id column, otherwise its definition, followed by a separator
      whenever `i` is not the last index of `elements`. */
  function Piece(env: Env, elements: seq<Field>, i: nat): string
    requires i < |elements|
  {
    if elements[i].name == env.fieldIdName then ""
    else ColumnDef(env, elements[i]) + (if i < |elements| - 1 then ", " else "")
  }

  /** The text appended after the first `n` rounds of the index loop. */
  function Emitted(env: Env, elements: seq<Field>, n: nat): string
    requires n <= |elements|
  {
    if n == 0 then "" else Emitted(env, elements, n - 1) + Piece(env, elements, n - 1)
  }

  /** The result of `generateTableCreate`. */
  function TableCreate(env: Env, fields: seq<Field>, fieldId: Option<Field>): string
  {
    var elements := Candidates(fields, fieldId);
    Emitted(env, elements, |elements|)
  }

  /** A kept field adds its own definition to the definitions of the prefix. */
  lemma {:induction false} DefsOfKeptSnoc(env: Env, xs: seq<Field>, n: nat)
    requires n < |xs| && xs[n].name != env.fieldIdName
    ensures ColumnDefs(env, Filter(xs[..n + 1], NotNamedId(env)))
            == ColumnDefs(env, Filter(xs[..n], NotNamedId(env))) + [ColumnDef(env, xs[n])]
  {
    assert NotNamedId(env)(xs[n]);
    FilterPrefix(xs, n, NotNamedId(env));
    MapSnoc(Filter(xs[..n], NotNamedId(env)), xs[n], ColumnDefOf(env));
  }

  /** A field named like the id column adds nothing to the kept fields of the prefix. */
  lemma {:induction false} DefsOfSkippedSnoc(env: Env, xs: seq<Field>, n: nat)
    requires n < |xs| && xs[n].name == env.fieldIdName
    ensures Filter(xs[..n + 1], NotNamedId(env)) == Filter(xs[..n], NotNamedId(env))
  {
    assert !NotNamedId(env)(xs[n]);
    FilterPrefix(xs, n, NotNamedId(env));
    assert Filter(xs[..n], NotNamedId(env)) + [] == Filter(xs[..n], NotNamedId(env));
  }

  /** Before the last candidate, every column written so far carries its separator. */
  lemma {:induction false} EmittedBeforeLast(env: Env, elements: seq<Field>, n: nat)
    requires n < |elements|
    ensures Emitted(env, elements, n) == Terminated(", ", ColumnDefs(env, Filter(elements[..n], NotNamedId(env))))
  {
    if n == 0 {
      assert elements[..0] == [];
    } else {
      EmittedBeforeLast(env, elements, n - 1);
      var defs := ColumnDefs(env, Filter(elements[..n - 1], NotNamedId(env)));
      if elements[n - 1].name != env.fieldIdName {
        var d := ColumnDef(env, elements[n - 1]);
        assert Piece(env, elements, n - 1) == d + ", ";
        DefsOfKeptSnoc(env, elements, n - 1);
        TerminatedSnoc(", ", defs, d);
      } else {
        assert Piece(env, elements, n - 1) == "";
        DefsOfSkippedSnoc(env, elements, n - 1);
      }
    }
  }

  /** The whole index loop, when the last element is skipped for its name. */
  lemma {:induction false} EmittedLastSkipped(env: Env, elements: seq<Field>)
    requires |elements| > 0 && elements[|elements| - 1].name == env.fieldIdName
    ensures var defs := ColumnDefs(env, Filter(elements, NotNamedId(env)));
            Emitted(env, elements, |elements|) == JoinWith(", ", defs) + (if |defs| > 0 then ", " else "")
  {
    var n := |elements|;
    EmittedBeforeLast(env, elements, n - 1);
    var defs := ColumnDefs(env, Filter(elements[..n - 1], NotNamedId(env)));
    DefsOfSkippedSnoc(env, elements, n - 1);
    assert elements[..n] == elements;
    assert Piece(env, elements, n - 1) == "";
    assert Emitted(env, elements, n) == Terminated(", ", defs);
    if |defs| > 0 {
      TerminatedIsJoinThenSep(", ", defs);
    }
  }

  lemma {:induction false} EmittedLastStep(env: Env, elements: seq<Field>)
    requires |elements| > 0 && elements[|elements| - 1].name != env.fieldIdName
    ensures Emitted(env, elements, |elements|)
            == Emitted(env, elements, |elements| - 1) + ColumnDef(env, elements[|elements| - 1])
  {
    var n := |elements|;
    assert Piece(env, elements, n - 1) == ColumnDef(env, elements[n - 1]) + "";
  }

  /** The whole index loop, when the last element is written. */
  lemma {:induction false} EmittedLastWritten(env: Env, elements: seq<Field>)
    requires |elements| > 0 && elements[|elements| - 1].name != env.fieldIdName
    ensures Emitted(env, elements, |elements|) == JoinWith(", ", ColumnDefs(env, Filter(elements, NotNamedId(env))))
  {
    var n := |elements|;
    var defs := ColumnDefs(env, Filter(elements[..n - 1], NotNamedId(env)));
    var d := ColumnDef(env, elements[n - 1]);
    assert elements[..n] == elements;
    calc {
      Emitted(env, elements, n);
      { EmittedLastStep(env, elements); }
      Emitted(env, elements, n - 1) + d;
      { EmittedBeforeLast(env, elements, n - 1); }
      Terminated(", ", defs) + d;
      { TerminatedThenLast(", ", defs, d); }
      JoinWith(", ", defs + [d]);
      { DefsOfKeptSnoc(env, elements, n - 1); }
      JoinWith(", ", ColumnDefs(env, Filter(elements[..n], NotNamedId(env))));
    }
  }

  /** The exact text of `generateTableCreate`: the column definitions, in
      order, joined by ", ", plus one trailing ", " exactly when some column
      was written and the last candidate was skipped for being named like the
      id column. */
  lemma {:induction false} TableCreateClosedForm(env: Env, fields: seq<Field>, fieldId: Option<Field>)
    ensures var cands := Candidates(fields, fieldId);
            var defs := ColumnDefs(env, Columns(env, fields, fieldId));
            TableCreate(env, fields, fieldId)
              == JoinWith(", ", defs)
                 + (if |defs| > 0 && cands[|cands| - 1].name == env.fieldIdName then ", " else "")
  {
    var cands := Candidates(fields, fieldId);
    if |cands| == 0 {
      assert Columns(env, fields, fieldId) == [];
    } else if cands[|cands| - 1].name == env.fieldIdName {
      EmittedLastSkipped(env, cands);
    } else {
      EmittedLastWritten(env, cands);
    }
  }

  /** When no candidate is named like the id column, the column list is the
      definitions joined by ", " with no leading or trailing separator. */
  lemma {:induction false} TableCreateIsJoin(env: Env, fields: seq<Field>, fieldId: Option<Field>)
    requires forall f :: f in fields && !IsIdField(f, fieldId) ==> f.name != env.fieldIdName
    ensures TableCreate(env, fields, fieldId) == JoinWith(", ", ColumnDefs(env, Columns(env, fields, fieldId)))
  {
    TableCreateClosedForm(env, fields, fieldId);
    var cands := Candidates(fields, fieldId);
    if |cands| > 0 {
      FilterMembers(fields, NotIdField(fieldId));
      assert cands[|cands| - 1] in cands;
    }
  }

  /** The columns follow the declaration order of the fields: the columns of
      a concatenation are the columns of each part, one after the other. */
  lemma {:induction false} ColumnsKeepDeclarationOrder(env: Env, a: seq<Field>, b: seq<Field>, fieldId: Option<Field>)
    ensures Columns(env, a + b, fieldId) == Columns(env, a, fieldId) + Columns(env, b, fieldId)
  {
    FilterAppend(a, b, NotIdField(fieldId));
    FilterAppend(Candidates(a, fieldId), Candidates(b, fieldId), NotNamedId(env));
  }

  /** A field named like the id column that is not the id element, declared
      last, leaves a trailing separator behind the previous column. */
  lemma {:induction false} TrailingSeparatorExample(env: Env)
    requires env.fieldIdName != "name"
    ensures TableCreate(env, [Field(1, "name"), Field(2, env.fieldIdName)], None)
            == "name " + env.fieldTableType(Field(1, "name")) + ", "
  {
    var a, b := Field(1, "name"), Field(2, env.fieldIdName);
    var fs := [a, b];
    FilterSnoc([a], b, NotIdField(None));
    FilterSnoc([], a, NotIdField(None));
    assert [] + [a] == [a] && [a] + [b] == fs;
    assert Candidates(fs, None) == fs;
    EmittedLastSkipped(env, fs);
    FilterSnoc([a], b, NotNamedId(env));
    FilterSnoc([], a, NotNamedId(env));
    assert Filter(fs, NotNamedId(env)) == [a];
    assert ColumnDefs(env, [a]) == [ColumnDef(env, a)];
  }

  // ---------------------------------------------------------------------
  // The creation string
  // ---------------------------------------------------------------------

  /** The join table for a non-primitive field. */
  function JoinTableName(env: Env, tableName: string, v: Field): string
  {
    tableName + "_" + env.tableNameOf(v)
  }

  function JoinTableNames(env: Env, tableName: string, vs: seq<Field>): set<string>
  {
    set v | v in vs :: JoinTableName(env, tableName, v)
  }

  /** The fields whose join table has not been named by an earlier field:
      those for which the loop emits a statement. */
  function NewJoinTables(env: Env, tableName: string, vs: seq<Field>): seq<Field>
  {
    if vs == [] then []
    else
      var init, v := vs[..|vs| - 1], vs[|vs| - 1];
      NewJoinTables(env, tableName, init)
        + (if JoinTableName(env, tableName, v) in JoinTableNames(env, tableName, init) then [] else [v])
  }

  function MainStatement(tableName: string, columns: string): string
  {
    "create table " + tableName + " (_id integer primary key autoincrement, " + columns + ")"
  }

  function JoinStatement(env: Env, tableName: string, modelKey: string, v: Field): string
  {
    "create table " + JoinTableName(env, tableName, v)
      + " ( _id integer primary key autoincrement, "
      + modelKey + " integer, "
      + env.keyNameOf(v) + " integer, "
      + env.fieldNameColumn + " text )"
  }

  function QuotedJoinStatement(env: Env, tableName: string, modelKey: string): Field -> string
  {
    (v: Field) => Quoted(JoinStatement(env, tableName, modelKey, v))
  }

  /** The quoted statements of the creation string, in the order written. */
  function CreationStatements(env: Env, tableName: string, modelName: string, fields: seq<Field>,
                              fieldId: Option<Field>, others: seq<Field>): seq<string>
  {
    [Quoted(MainStatement(tableName, TableCreate(env, fields, fieldId)))]
      + Map(NewJoinTables(env, tableName, others), QuotedJoinStatement(env, tableName, env.keyNameOfName(modelName)))
  }

  /** The result of `generateCreationString`. */
  function CreationString(env: Env, tableName: string, modelName: string, fields: seq<Field>,
                          fieldId: Option<Field>, others: seq<Field>): string
  {
    JoinWith(",\n", CreationStatements(env, tableName, modelName, fields, fieldId, others))
  }

  /** The statements text after the loop has seen the fields `vs`. */
  function StatementsText(env: Env, tableName: string, modelKey: string, main: string, vs: seq<Field>): string
  {
    JoinWith(",\n", [main] + Map(NewJoinTables(env, tableName, vs), QuotedJoinStatement(env, tableName, modelKey)))
  }

  /** A field whose join table was already created adds no statement. */
  lemma {:induction false} StatementsTextSeen(env: Env, tableName: string, modelKey: string, main: string,
                                               vs: seq<Field>, v: Field)
    requires JoinTableName(env, tableName, v) in JoinTableNames(env, tableName, vs)
    ensures StatementsText(env, tableName, modelKey, main, vs + [v])
            == StatementsText(env, tableName, modelKey, main, vs)
  {
    NewJoinTablesSnoc(env, tableName, vs, v);
    assert NewJoinTables(env, tableName, vs + [v]) == NewJoinTables(env, tableName, vs) + [];
    assert NewJoinTables(env, tableName, vs) + [] == NewJoinTables(env, tableName, vs);
  }

  /** A field with a new join table adds its quoted statement after a ",\n". */
  lemma {:induction false} StatementsTextUnseen(env: Env, tableName: string, modelKey: string, main: string,
                                                 vs: seq<Field>, v: Field)
    requires JoinTableName(env, tableName, v) !in JoinTableNames(env, tableName, vs)
    ensures StatementsText(env, tableName, modelKey, main, vs + [v])
            == StatementsText(env, tableName, modelKey, main, vs) + (",\n" + Quoted(JoinStatement(env, tableName, modelKey, v)))
  {
    var st := QuotedJoinStatement(env, tableName, modelKey);
    var nt := NewJoinTables(env, tableName, vs);
    NewJoinTablesSnoc(env, tableName, vs, v);
    assert NewJoinTables(env, tableName, vs + [v]) == nt + [v];
    ConsMapSnoc(main, nt, v, st);
    JoinWithSnoc(",\n", [main] + Map(nt, st), st(v));
  }

  /** One more field adds one more statement exactly when its join table is new. */
  lemma {:induction false} StatementsTextSnoc(env: Env, tableName: string, modelKey: string, main: string,
                                               vs: seq<Field>, v: Field)
    ensures StatementsText(env, tableName, modelKey, main, vs + [v])
            == StatementsText(env, tableName, modelKey, main, vs)
               + (if JoinTableName(env, tableName, v) in JoinTableNames(env, tableName, vs) then ""
                  else ",\n" + Quoted(JoinStatement(env, tableName, modelKey, v)))
  {
    if JoinTableName(env, tableName, v) in JoinTableNames(env, tableName, vs) {
      StatementsTextSeen(env, tableName, modelKey, main, vs, v);
    } else {
      StatementsTextUnseen(env, tableName, modelKey, main, vs, v);
    }
  }

  lemma {:induction false} JoinTableNamesSnoc(env: Env, tableName: string, vs: seq<Field>, v: Field)
    ensures JoinTableNames(env, tableName, vs + [v])
            == JoinTableNames(env, tableName, vs) + {JoinTableName(env, tableName, v)}
  {
  }

  lemma {:induction false} NewJoinTablesSnoc(env: Env, tableName: string, vs: seq<Field>, v: Field)
    ensures NewJoinTables(env, tableName, vs + [v])
            == NewJoinTables(env, tableName, vs)
               + (if JoinTableName(env, tableName, v) in JoinTableNames(env, tableName, vs) then [] else [v])
  {
    assert (vs + [v])[..|vs|] == vs;
  }

  /** Every join table named by some field gets a statement, and no other. */
  lemma {:induction false} NewJoinTablesCover(env: Env, tableName: string, vs: seq<Field>)
    ensures JoinTableNames(env, tableName, NewJoinTables(env, tableName, vs)) == JoinTableNames(env, tableName, vs)
  {
    if vs != [] {
      var init, v := vs[..|vs| - 1], vs[|vs| - 1];
      assert vs == init + [v];
      NewJoinTablesCover(env, tableName, init);
      JoinTableNamesSnoc(env, tableName, init, v);
      var nt := NewJoinTables(env, tableName, init);
      JoinTableNamesSnoc(env, tableName, nt, v);
    }
  }

  /** No two of the fields name the same join table. */
  predicate DistinctTables(env: Env, tableName: string, nt: seq<Field>)
  {
    forall i, j :: 0 <= i < j < |nt| ==> JoinTableName(env, tableName, nt[i]) != JoinTableName(env, tableName, nt[j])
  }

  /** No join table is created twice. */
  lemma {:induction false} NewJoinTablesDistinct(env: Env, tableName: string, vs: seq<Field>)
    ensures DistinctTables(env, tableName, NewJoinTables(env, tableName, vs))
  {
    if vs != [] {
      var init, v := vs[..|vs| - 1], vs[|vs| - 1];
      NewJoinTablesDistinct(env, tableName, init);
      var prev := NewJoinTables(env, tableName, init);
      if JoinTableName(env, tableName, v) !in JoinTableNames(env, tableName, init) {
        NewJoinTablesCover(env, tableName, init);
        var nt := prev + [v];
        assert NewJoinTables(env, tableName, vs) == nt;
        forall i, j | 0 <= i < j < |nt|
          ensures JoinTableName(env, tableName, nt[i]) != JoinTableName(env, tableName, nt[j])
        {
          if j == |prev| {
            assert nt[i] in prev;
            assert JoinTableName(env, tableName, nt[i]) in JoinTableNames(env, tableName, prev);
          } else {
            assert nt[i] == prev[i] && nt[j] == prev[j];
          }
        }
      } else {
        assert NewJoinTables(env, tableName, vs) == prev + [] == prev;
      }
    }
  }

  /** One statement per distinct join table name. */
  lemma {:induction false} NewJoinTablesCount(env: Env, tableName: string, vs: seq<Field>)
    ensures |NewJoinTables(env, tableName, vs)| == |JoinTableNames(env, tableName, vs)|
  {
    if vs != [] {
      var init, v := vs[..|vs| - 1], vs[|vs| - 1];
      var prev := NewJoinTables(env, tableName, init);
      var name := JoinTableName(env, tableName, v);
      assert vs == init + [v];
      NewJoinTablesCount(env, tableName, init);
      JoinTableNamesSnoc(env, tableName, init, v);
      if name in JoinTableNames(env, tableName, init) {
        assert NewJoinTables(env, tableName, vs) == prev + [] == prev;
        assert JoinTableNames(env, tableName, vs) == JoinTableNames(env, tableName, init);
      } else {
        assert NewJoinTables(env, tableName, vs) == prev + [v];
        assert JoinTableNames(env, tableName, vs) == JoinTableNames(env, tableName, init) + {name};
      }
    }
  }

  /** Whether no field before index `j` names the same join table as `vs[j]`. */
  predicate IsFirstOccurrence(env: Env, tableName: string, vs: seq<Field>, j: nat)
    requires j < |vs|
  {
    forall i :: 0 <= i < j ==> JoinTableName(env, tableName, vs[i]) != JoinTableName(env, tableName, vs[j])
  }

  lemma {:induction false} FirstOccurrenceInPrefix(env: Env, tableName: string, vs: seq<Field>, n: nat, j: nat)
    requires j < n <= |vs|
    requires IsFirstOccurrence(env, tableName, vs[..n], j)
    ensures IsFirstOccurrence(env, tableName, vs, j)
  {
    forall i | 0 <= i < j
      ensures JoinTableName(env, tableName, vs[i]) != JoinTableName(env, tableName, vs[j])
    {
      assert vs[..n][i] == vs[i] && vs[..n][j] == vs[j];
    }
  }

  /** Each join statement is built from the first field naming its table:
      the `k`-th statement's field sits at an index `j` of `vs` that no
      earlier field with the same join table precedes. */
  lemma {:induction false} NewJoinTablesFirstOccurrence(env: Env, tableName: string, vs: seq<Field>, k: nat)
      returns (j: nat)
    requires k < |NewJoinTables(env, tableName, vs)|
    ensures j < |vs| && vs[j] == NewJoinTables(env, tableName, vs)[k]
    ensures IsFirstOccurrence(env, tableName, vs, j)
  {
    assert vs != [];
    var n := |vs| - 1;
    var init, v := vs[..n], vs[n];
    var prev := NewJoinTables(env, tableName, init);
    var isNew := JoinTableName(env, tableName, v) !in JoinTableNames(env, tableName, init);
    assert NewJoinTables(env, tableName, vs) == prev + (if isNew then [v] else []);
    if k < |prev| {
      j := NewJoinTablesFirstOccurrence(env, tableName, init, k);
      FirstOccurrenceInPrefix(env, tableName, vs, n, j);
    } else {
      j := n;
      forall i | 0 <= i < n
        ensures JoinTableName(env, tableName, vs[i]) != JoinTableName(env, tableName, vs[n])
      {
        assert vs[i] == init[i];
      }
    }
  }

  /** Statements appear in first-occurrence order: the statements for a
      prefix of the fields come first, unchanged. */
  lemma {:induction false} NewJoinTablesPrefix(env: Env, tableName: string, a: seq<Field>, b: seq<Field>)
    ensures NewJoinTables(env, tableName, a) <= NewJoinTables(env, tableName, a + b)
    decreases |b|
  {
    if b == [] {
      assert a + b == a;
    } else {
      var init, v := b[..|b| - 1], b[|b| - 1];
      NewJoinTablesPrefix(env, tableName, a, init);
      assert a + b == (a + init) + [v];
      NewJoinTablesSnoc(env, tableName, a + init, v);
    }
  }

  /** The creation string holds one quoted main statement, first, and then
      one quoted statement per distinct join table name, each built from the
      first field that names it. */
  lemma {:induction false} CreationStatementsShape(env: Env, tableName: string, modelName: string, fields: seq<Field>,
                                fieldId: Option<Field>, others: seq<Field>)
    ensures var st := CreationStatements(env, tableName, modelName, fields, fieldId, others);
            var nt := NewJoinTables(env, tableName, others);
            && |st| == 1 + |JoinTableNames(env, tableName, others)|
            && st[0] == Quoted(MainStatement(tableName, TableCreate(env, fields, fieldId)))
            && forall k :: 0 <= k < |nt| ==>
                 st[k + 1] == Quoted(JoinStatement(env, tableName, env.keyNameOfName(modelName), nt[k]))
  {
    NewJoinTablesCount(env, tableName, others);
  }

  /** The creation string always opens with the quoted main statement. */
  lemma {:induction false} CreationStringStartsWithMain(env: Env, tableName: string, modelName: string, fields: seq<Field>,
                                                        fieldId: Option<Field>, others: seq<Field>)
    ensures Quoted(MainStatement(tableName, TableCreate(env, fields, fieldId)))
            <= CreationString(env, tableName, modelName, fields, fieldId, others)
  {
    JoinWithStartsWithFirst(",\n", CreationStatements(env, tableName, modelName, fields, fieldId, others));
  }
}
