# Freezer's model generator, schema derivation

This project is a Dafny model of the schema-deriving part of Freezer's
annotation processor. For each annotated model class, the processor builds a
`ModelORMGenerator`. That object turns the class's field lists into:

- the column list of the model's table (`generateTableCreate`);
- the quoted SQL `create table` statements of the model table and of its join
  tables (`generateCreationString`);
- the selector and join methods of the generated query builder
  (`generateQueryMethods`, modelled as their count, order and naming).

The select list that the generated query builder's `execute` method writes is
modelled too, along with the `fields` and `fieldsWithout` methods that choose
its columns.

The modules:

- `Seqs` and `Text` hold generic sequence filtering and mapping, and string
  joining.
- `Elements` holds the field and model descriptions. It also holds `Env`, the
  answers of `ProcessUtils` and the values of `Constants`, which the model
  takes as parameters.
- `Schema` holds the specification functions of the column list and the
  creation string, and the lemmas about them.
- `Queries` holds the specification of the generated query methods.
- `Generator` holds the `ModelORMGenerator` class. Its constructor copies the
  element's lists into fields, and its three loop methods are each proved equal
  to their specification function.
- `QueryBuilder` holds the column selection of the generated query builder, as
  a class whose `fields` variable the two methods reassign.

Two behaviours of the source are reproduced exactly as written:

- If the last field left after removing the id element is skipped for being
  named like the id column (`Constants.FIELD_ID`), and some column was written
  before it, the column list ends in a trailing `", "`. If no column was
  written before it, the list is empty and has no separator.
- If there are no columns at all, the main statement reads
  `autoincrement, )`.

Element identity (`variableElement != fieldId`, a reference comparison) is
modelled by the `tag` of a `Field`. Two fields with equal names but different
tags are different elements.

## Model

| member | source | states |
|---|---|---|
| Generator.ModelORMGenerator.constructor | freezer-compiler/src/main/java/fr/xebia/android/freezer/generator/ModelORMGenerator.java:54-72 | the model name, table name, id field and the three field lists are the ones `ProcessUtils` derives from the element |
| Generator.ModelORMGenerator.GenerateTableCreate | freezer-compiler/src/main/java/fr/xebia/android/freezer/generator/ModelORMGenerator.java:773-797 | the filter loop and the index loop build exactly the column list `Schema.TableCreate`, whose meaning the Schema lemmas below give |
| Generator.ModelORMGenerator.GenerateCreationString | freezer-compiler/src/main/java/fr/xebia/android/freezer/generator/ModelORMGenerator.java:727-750 | the text built while `addedTables` grows is the quoted main statement followed by one quoted join statement per new join table; `addedTables` is always the set of join tables of the fields seen so far |
| Generator.ModelORMGenerator.GenerateQueryMethods | freezer-compiler/src/main/java/fr/xebia/android/freezer/generator/ModelORMGenerator.java:667-725 | the three loops produce exactly `Queries.QueryMethods`: the field selectors, then the collection selectors, then one join query per other-class field |
| Schema.Columns | freezer-compiler/src/main/java/fr/xebia/android/freezer/generator/ModelORMGenerator.java:777-786 | a field gets a column if and only if it is one of the primitive fields, is not the id element, and is not named like the id column |
| Schema.ColumnsKeepDeclarationOrder | freezer-compiler/src/main/java/fr/xebia/android/freezer/generator/ModelORMGenerator.java:777-786 | the columns keep the declaration order: the columns of `a + b` are the columns of `a` followed by those of `b` |
| Schema.TableCreateClosedForm | freezer-compiler/src/main/java/fr/xebia/android/freezer/generator/ModelORMGenerator.java:784-795 | the column list is `name type` for each column in order, joined by ", ", plus a trailing ", " exactly when some column was written and the last candidate was skipped for its name |
| Schema.TableCreateIsJoin | freezer-compiler/src/main/java/fr/xebia/android/freezer/generator/ModelORMGenerator.java:784-795 | when no non-id field is named like the id column, the column list is the column definitions joined by ", ", with no leading or trailing separator |
| Schema.TrailingSeparatorExample | freezer-compiler/src/main/java/fr/xebia/android/freezer/generator/ModelORMGenerator.java:784-795 | a field `name` followed by a non-id field named like the id column yields `name <type>, `, with the separator left behind |
| Schema.EmittedBeforeLast | freezer-compiler/src/main/java/fr/xebia/android/freezer/generator/ModelORMGenerator.java:784-795 | before the last candidate, every written column is followed by ", " |
| Schema.EmittedLastSkipped | freezer-compiler/src/main/java/fr/xebia/android/freezer/generator/ModelORMGenerator.java:784-795 | when the last candidate is skipped, the text is the joined definitions plus ", " if any was written |
| Schema.EmittedLastWritten | freezer-compiler/src/main/java/fr/xebia/android/freezer/generator/ModelORMGenerator.java:784-795 | when the last candidate is written, the text is exactly the joined definitions |
| Schema.CreationStatementsShape | freezer-compiler/src/main/java/fr/xebia/android/freezer/generator/ModelORMGenerator.java:727-747 | there are 1 + (number of distinct join table names) statements; the first is the quoted main statement over the column list; statement k+1 is the quoted join statement of the k-th new join table, with the model key, the field key and `FIELD_NAME text` columns |
| Schema.CreationStringStartsWithMain | freezer-compiler/src/main/java/fr/xebia/android/freezer/generator/ModelORMGenerator.java:729 | the creation string always starts with the quoted main statement |
| Schema.StatementsTextSeen | freezer-compiler/src/main/java/fr/xebia/android/freezer/generator/ModelORMGenerator.java:733-735 | a field whose join table was already added leaves the text unchanged |
| Schema.StatementsTextUnseen | freezer-compiler/src/main/java/fr/xebia/android/freezer/generator/ModelORMGenerator.java:733-747 | a field with a new join table appends ",\n" and its quoted join statement |
| Schema.StatementsTextSnoc | freezer-compiler/src/main/java/fr/xebia/android/freezer/generator/ModelORMGenerator.java:733-747 | one step of the loop: the text grows by a join statement exactly when the field's join table is not yet in the set |
| Schema.JoinTableNamesSnoc | freezer-compiler/src/main/java/fr/xebia/android/freezer/generator/ModelORMGenerator.java:734-746 | after one more field, the set of added tables has gained exactly that field's join table name |
| Schema.NewJoinTablesSnoc | freezer-compiler/src/main/java/fr/xebia/android/freezer/generator/ModelORMGenerator.java:734-746 | a field is kept as a join-table source exactly when its table name was not produced by an earlier field |
| Schema.NewJoinTablesCover | freezer-compiler/src/main/java/fr/xebia/android/freezer/generator/ModelORMGenerator.java:731-747 | every join table name of the other-class fields is produced by some kept field, and the kept fields produce no other name |
| Schema.NewJoinTablesDistinct | freezer-compiler/src/main/java/fr/xebia/android/freezer/generator/ModelORMGenerator.java:731-747 | no join table name is created twice |
| Schema.NewJoinTablesCount | freezer-compiler/src/main/java/fr/xebia/android/freezer/generator/ModelORMGenerator.java:731-747 | the number of join statements is the number of distinct join table names |
| Schema.NewJoinTablesFirstOccurrence | freezer-compiler/src/main/java/fr/xebia/android/freezer/generator/ModelORMGenerator.java:731-747 | each join statement comes from the first other-class field producing its table name |
| Schema.NewJoinTablesPrefix | freezer-compiler/src/main/java/fr/xebia/android/freezer/generator/ModelORMGenerator.java:731-747 | the join statements keep first-occurrence order: more fields only append statements |
| Queries.SelectorsMatchSelectable | freezer-compiler/src/main/java/fr/xebia/android/freezer/generator/ModelORMGenerator.java:670-709 | a selector loop adds one method per field with a selector class, in field order, named after the field, with that selector class, and parameterised by the unboxed class exactly when the class is the (list) number selector |
| Queries.SelectorsAreSelectors | freezer-compiler/src/main/java/fr/xebia/android/freezer/generator/ModelORMGenerator.java:670-709 | the selector loops add only selector methods |
| Queries.QueryMethodsLayout | freezer-compiler/src/main/java/fr/xebia/android/freezer/generator/ModelORMGenerator.java:670-722 | the count is (selectable fields) + (selectable collections) + (other-class fields), in three blocks in that order, each named after its field; each join query uses the table name and the join table `getTableName(modelName)_getTableName(field)` |
| Queries.JoinTablesOfJoins | freezer-compiler/src/main/java/fr/xebia/android/freezer/generator/ModelORMGenerator.java:711-722 | when the model name maps to the model's table name, the join queries name exactly the join tables of the other-class fields |
| Queries.JoinQueriesUseCreatedTables | freezer-compiler/src/main/java/fr/xebia/android/freezer/generator/ModelORMGenerator.java:711-747 | when the model name maps to the model's table name, the join tables the query methods use are exactly those the creation string creates |
| QueryBuilder.RemoveAll | freezer-compiler/src/main/java/fr/xebia/android/freezer/generator/ModelORMGenerator.java:296-297 | the columns left after `removeAll` are exactly the enumeration values not listed, and there are no more of them than values |
| QueryBuilder.PrimitiveColumnsMembers | freezer-compiler/src/main/java/fr/xebia/android/freezer/generator/ModelORMGenerator.java:320-325 | the select list names a chosen column exactly when it is primitive |
| QueryBuilder.SelectClauseColumns | freezer-compiler/src/main/java/fr/xebia/android/freezer/generator/ModelORMGenerator.java:315-328 | without a column list the select list is `select distinct T.* `; with one it is `T._id` and each primitive column as `T.<name>`, in list order, joined by ", "; both are followed by ` from T ` |
| QueryBuilder.GeneratedQueryBuilder.constructor | freezer-compiler/src/main/java/fr/xebia/android/freezer/generator/ModelORMGenerator.java:91-93 | a new query builder has no column list |
| QueryBuilder.GeneratedQueryBuilder.Fields | freezer-compiler/src/main/java/fr/xebia/android/freezer/generator/ModelORMGenerator.java:280-289 | `fields(...)` sets the column list to exactly the given columns, in order |
| QueryBuilder.GeneratedQueryBuilder.FieldsWithout | freezer-compiler/src/main/java/fr/xebia/android/freezer/generator/ModelORMGenerator.java:291-300 | `fieldsWithout(...)` sets the column list to the enumeration values minus the given columns |
| QueryBuilder.GeneratedQueryBuilder.SelectList | freezer-compiler/src/main/java/fr/xebia/android/freezer/generator/ModelORMGenerator.java:310-328 | the loop of `execute` writes exactly `SelectClause` for the current column list |

## Left out

- Generating Java code with JavaPoet in `generate()` is not modelled. This covers the DAO's CRUD method bodies, the asynchronous and Rx wrappers, the aggregate methods, and the `or` and `field` methods of the query builder (`field` only returns `this`). Only the text-deriving logic above is modelled.
- `ProcessUtils.*` and `Constants.*` are outside this model. Their answers enter as the fields of `Elements.Env`: `getTableName`, `getKeyName`, `getObjectName`, `getFieldTableType`, `getSelectorName`, `FIELD_ID`, `FIELD_NAME` and the two number-selector class names.
- `getTableName(String)` and `getTableName(Element)` are kept as two separate functions of `Env`. They are related only by the shared precondition of `Queries.JoinTablesOfJoins` and `Queries.JoinQueriesUseCreatedTables`, namely that the model name maps to the model's own table name.
- The selector class comparison `className == Constants.queryBuilder_NumberSelectorClassName` is a reference comparison in the source. Here it is string equality on the class name.
- The selector return types and their type arguments (`getUnboxedClass`, `getFieldQueryBuilderClass`) are reduced to the `numeric` flag and the names a method is built from.
- The rest of the generated `execute` is not modelled: `constructQuery()`, the query arguments, the cursor and the logging.
- The enumeration column text is modelled as the column's name, with `isPrimitive()` as a flag.
- The getters `getDao` and `getQueryBuilder` only return stored values and are not modelled.
- `generateDropString` is commented out in the source and is not modelled.
- Java's `StringBuilder`, `ArrayList` and `HashSet` become strings, sequences and sets that the methods reassign. In-place mutation and aliasing of these objects are not captured.
