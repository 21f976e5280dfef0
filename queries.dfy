/** The selector and join methods the generator adds to the query builder
    (`generateQueryMethods`): how many there are, in which order, and what
    each is named after. */
module Queries {
  import opened Seqs
  import opened Elements
  import Schema

  datatype SelectorKind = FieldSelector | CollectionSelector

  /** One generated query-builder method, reduced to its name and to what
      it is built from. */
  datatype QueryMethod =
    | Selector(kind: SelectorKind, name: string, selectorClass: string, numeric: bool)
      // `numeric`: the selector type is also parameterised by the field's unboxed class
    | JoinQuery(name: string, tableName: string, joinTable: string, modelKey: string,
                fieldKey: string, fieldTable: string, fieldObject: string)

  /** The selector class that takes the unboxed field class as a second type argument. */
  function NumberSelector(env: Env, kind: SelectorKind): string
  {
    if kind == FieldSelector then env.numberSelector else env.listNumberSelector
  }

  function HasSelector(env: Env): Field -> bool
  {
    (f: Field) => env.selectorNameOf(f).Some?
  }

  /** The fields for which a selector class exists. */
  function Selectable(env: Env, fs: seq<Field>): seq<Field>
  {
    Filter(fs, HasSelector(env))
  }

  /** The methods added by one selector loop over `fs`. */
  function Selectors(env: Env, kind: SelectorKind, fs: seq<Field>): seq<QueryMethod>
  {
    if fs == [] then []
    else
      var f := fs[|fs| - 1];
      Selectors(env, kind, fs[..|fs| - 1])
        + match env.selectorNameOf(f)
          case None => []
          case Some(c) => [Selector(kind, f.name, c, c == NumberSelector(env, kind))]
  }

  function JoinQueryFor(env: Env, tableName: string, modelName: string): Field -> QueryMethod
  {
    (v: Field) =>
      JoinQuery(v.name, tableName, env.tableNameOfName(modelName) + "_" + env.tableNameOf(v),
                env.keyNameOfName(modelName), env.keyNameOf(v), env.tableNameOf(v), env.objectNameOf(v))
  }

  /** The result of `generateQueryMethods`. */
  function QueryMethods(env: Env, tableName: string, modelName: string,
                        fields: seq<Field>, collections: seq<Field>, others: seq<Field>): seq<QueryMethod>
  {
    Selectors(env, FieldSelector, fields)
      + Selectors(env, CollectionSelector, collections)
      + Map(others, JoinQueryFor(env, tableName, modelName))
  }

  /** A selector loop adds exactly one method per field with a selector
      class, in field order, named after the field and using its selector. */
  lemma {:induction false} SelectorsMatchSelectable(env: Env, kind: SelectorKind, fs: seq<Field>)
    ensures var ms, sel := Selectors(env, kind, fs), Selectable(env, fs);
            && |ms| == |sel|
            && forall k :: 0 <= k < |ms| ==>
                 && ms[k].Selector? && ms[k].kind == kind && ms[k].name == sel[k].name
                 && env.selectorNameOf(sel[k]) == Some(ms[k].selectorClass)
                 && ms[k].numeric == (ms[k].selectorClass == NumberSelector(env, kind))
  {
    if fs != [] {
      var init, f := fs[..|fs| - 1], fs[|fs| - 1];
      SelectorsMatchSelectable(env, kind, init);
      assert fs == init + [f];
      FilterSnoc(init, f, HasSelector(env));
    }
  }

  /** The methods come in three blocks: the primitive-field selectors, the
      collection selectors, then one join query per non-primitive field,
      whose join table is the model's table name, "_" and the field's table
      name. */
  lemma QueryMethodsLayout(env: Env, tableName: string, modelName: string,
                           fields: seq<Field>, collections: seq<Field>, others: seq<Field>)
    ensures var ms := QueryMethods(env, tableName, modelName, fields, collections, others);
            var p, c := |Selectable(env, fields)|, |Selectable(env, collections)|;
            && |ms| == p + c + |others|
            && (forall k :: 0 <= k < p ==>
                  ms[k].Selector? && ms[k].kind == FieldSelector && ms[k].name == Selectable(env, fields)[k].name)
            && (forall k :: p <= k < p + c ==>
                  ms[k].Selector? && ms[k].kind == CollectionSelector && ms[k].name == Selectable(env, collections)[k - p].name)
            && (forall j :: 0 <= j < |others| ==>
                  && ms[p + c + j].JoinQuery?
                  && ms[p + c + j].name == others[j].name
                  && ms[p + c + j].tableName == tableName
                  && ms[p + c + j].joinTable == env.tableNameOfName(modelName) + "_" + env.tableNameOf(others[j]))
  {
    SelectorsMatchSelectable(env, FieldSelector, fields);
    SelectorsMatchSelectable(env, CollectionSelector, collections);
  }

  lemma {:induction false} SelectorsAreSelectors(env: Env, kind: SelectorKind, fs: seq<Field>)
    ensures forall m :: m in Selectors(env, kind, fs) ==> m.Selector?
  {
    SelectorsMatchSelectable(env, kind, fs);
  }

  function JoinTablesOf(ms: seq<QueryMethod>): set<string>
  {
    set m | m in ms && m.JoinQuery? :: m.joinTable
  }

  lemma {:induction false} JoinTablesOfJoins(env: Env, tableName: string, modelName: string, others: seq<Field>)
    requires env.tableNameOfName(modelName) == tableName
    ensures JoinTablesOf(Map(others, JoinQueryFor(env, tableName, modelName))) == Schema.JoinTableNames(env, tableName, others)
  {
    var joins := Map(others, JoinQueryFor(env, tableName, modelName));
    forall t | t in JoinTablesOf(joins) ensures t in Schema.JoinTableNames(env, tableName, others) {
      var m :| m in joins && m.JoinQuery? && m.joinTable == t;
      var i :| 0 <= i < |joins| && joins[i] == m;
      assert others[i] in others;
    }
    forall t | t in Schema.JoinTableNames(env, tableName, others) ensures t in JoinTablesOf(joins) {
      var v :| v in others && Schema.JoinTableName(env, tableName, v) == t;
      var j :| 0 <= j < |others| && others[j] == v;
      assert joins[j] in joins;
    }
  }

  /** When the model's name maps to the same table name as the model class
      itself, the join queries refer exactly to the join tables that the
      creation string creates. */
  lemma {:induction false} JoinQueriesUseCreatedTables(env: Env, tableName: string, modelName: string,
                                    fields: seq<Field>, collections: seq<Field>, others: seq<Field>)
    requires env.tableNameOfName(modelName) == tableName
    ensures JoinTablesOf(QueryMethods(env, tableName, modelName, fields, collections, others))
            == Schema.JoinTableNames(env, tableName, Schema.NewJoinTables(env, tableName, others))
  {
    var a, b := Selectors(env, FieldSelector, fields), Selectors(env, CollectionSelector, collections);
    var joins := Map(others, JoinQueryFor(env, tableName, modelName));
    SelectorsAreSelectors(env, FieldSelector, fields);
    SelectorsAreSelectors(env, CollectionSelector, collections);
    JoinTablesOfJoins(env, tableName, modelName, others);
    Schema.NewJoinTablesCover(env, tableName, others);
    assert JoinTablesOf(a + b + joins) == JoinTablesOf(joins);
  }
}
