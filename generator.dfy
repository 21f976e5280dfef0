/** The generator object built for one annotated model class, and the three
    routines of it that derive the schema and the query methods. */
module Generator {
  import opened Seqs
  import opened Text
  import opened Elements
  import opened Schema
  import opened Queries

  class ModelORMGenerator {
    /** The answers of `ProcessUtils` and the values of `Constants`; static
        in the generator's own code, fixed here for the object's lifetime. */
    const env: Env

    var modelName: string
    var tableName: string                 // TABLE_NAME
    var fieldId: Option<Field>
    var fields: seq<Field>                // primitive fields, in declaration order
    var otherClassFields: seq<Field>      // non-primitive class fields
    var collections: seq<Field>           // collections of primitive values

    constructor (element: ModelElement, env: Env)
      ensures this.env == env
      ensures modelName == element.objectName && tableName == element.tableName
      ensures fields == element.primitiveFields
      ensures otherClassFields == element.nonPrimitiveClassFields
      ensures collections == element.collectionsOfPrimitiveFields
      ensures fieldId == element.idField
    {
      this.env := env;
      modelName := element.objectName;
      tableName := element.tableName;
      fields := element.primitiveFields;
      otherClassFields := element.nonPrimitiveClassFields;
      collections := element.collectionsOfPrimitiveFields;
      fieldId := element.idField;
    }

    /** The column list of the main table. */
    method GenerateTableCreate() returns (s: string)
      ensures s == TableCreate(env, fields, fieldId)
    {
      var elements: seq<Field> := [];
      var i := 0;
      while i < |fields|
        invariant 0 <= i <= |fields|
        invariant elements == Candidates(fields[..i], fieldId)
      {
        var v := fields[i];
        assert fields[..i + 1] == fields[..i] + [v];
        FilterSnoc(fields[..i], v, NotIdField(fieldId));
        if !IsIdField(v, fieldId) {
          elements := elements + [v];
        }
        i := i + 1;
      }
      assert fields[..|fields|] == fields;

      s := "";
      var j := 0;
      while j < |elements|
        invariant 0 <= j <= |elements|
        invariant s == Emitted(env, elements, j)
      {
        var e := elements[j];
        if env.fieldIdName != e.name {
          s := s + e.name + " " + env.fieldTableType(e);
          if j < |elements| - 1 {
            s := s + ", ";
          }
        }
        j := j + 1;
      }
    }

    /** The quoted `create table` statements of the main table and of each
        distinct join table, separated by ",\n". */
    method GenerateCreationString() returns (s: string)
      ensures s == CreationString(env, tableName, modelName, fields, fieldId, otherClassFields)
    {
      var columns := GenerateTableCreate();
      s := "\"" + "create table " + tableName + " (_id integer primary key autoincrement, " + columns + ")" + "\"";
      ghost var main := s;
      ghost var modelKey := env.keyNameOfName(modelName);
      assert main == Quoted(MainStatement(tableName, TableCreate(env, fields, fieldId)));

      var addedTables: set<string> := {};
      var i := 0;
      while i < |otherClassFields|
        invariant 0 <= i <= |otherClassFields|
        invariant addedTables == JoinTableNames(env, tableName, otherClassFields[..i])
        invariant s == StatementsText(env, tableName, modelKey, main, otherClassFields[..i])
      {
        var v := otherClassFields[i];
        assert otherClassFields[..i + 1] == otherClassFields[..i] + [v];
        StatementsTextSnoc(env, tableName, modelKey, main, otherClassFields[..i], v);
        JoinTableNamesSnoc(env, tableName, otherClassFields[..i], v);
        var table := tableName + "_" + env.tableNameOf(v);
        if table !in addedTables {
          var statement := "create table " + table + " ( _id integer primary key autoincrement, "
                           + env.keyNameOfName(modelName) + " integer, "
                           + env.keyNameOf(v) + " integer, "
                           + env.fieldNameColumn + " text )";
          assert statement == JoinStatement(env, tableName, modelKey, v);
          var quoted := "\"" + statement + "\"";
          s := s + (",\n" + quoted);
          addedTables := addedTables + {table};
        }
        i := i + 1;
      }
      assert otherClassFields[..|otherClassFields|] == otherClassFields;
    }

    /** The selector and join methods of the query builder. */
    method GenerateQueryMethods() returns (methodSpecs: seq<QueryMethod>)
      ensures methodSpecs == QueryMethods(env, tableName, modelName, fields, collections, otherClassFields)
    {
      methodSpecs := [];
      var i := 0;
      while i < |fields|
        invariant 0 <= i <= |fields|
        invariant methodSpecs == Selectors(env, FieldSelector, fields[..i])
      {
        var v := fields[i];
        assert fields[..i + 1][..i] == fields[..i];
        var className := env.selectorNameOf(v);
        if className.Some? {
          var numeric := className.value == env.numberSelector;
          methodSpecs := methodSpecs + [Selector(FieldSelector, v.name, className.value, numeric)];
        }
        i := i + 1;
      }
      assert fields[..|fields|] == fields;

      ghost var fieldSelectors := methodSpecs;
      i := 0;
      while i < |collections|
        invariant 0 <= i <= |collections|
        invariant methodSpecs == fieldSelectors + Selectors(env, CollectionSelector, collections[..i])
      {
        var v := collections[i];
        assert collections[..i + 1][..i] == collections[..i];
        var className := env.selectorNameOf(v);
        if className.Some? {
          var numeric := className.value == env.listNumberSelector;
          methodSpecs := methodSpecs + [Selector(CollectionSelector, v.name, className.value, numeric)];
        }
        i := i + 1;
      }
      assert collections[..|collections|] == collections;

      ghost var selectors := methodSpecs;
      ghost var join := JoinQueryFor(env, tableName, modelName);
      i := 0;
      while i < |otherClassFields|
        invariant 0 <= i <= |otherClassFields|
        invariant methodSpecs == selectors + Map(otherClassFields[..i], join)
      {
        var v := otherClassFields[i];
        assert otherClassFields[..i + 1] == otherClassFields[..i] + [v];
        MapSnoc(otherClassFields[..i], v, join);
        var joinTable := env.tableNameOfName(modelName) + "_" + env.tableNameOf(v);
        methodSpecs := methodSpecs + [JoinQuery(v.name, tableName, joinTable, env.keyNameOfName(modelName),
                                                env.keyNameOf(v), env.tableNameOf(v), env.objectNameOf(v))];
        i := i + 1;
      }
      assert otherClassFields[..|otherClassFields|] == otherClassFields;
    }
  }
}
