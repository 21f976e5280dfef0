/** What the annotation processor knows about the annotated model class and
    its fields. The helper class `ProcessUtils` and the class `Constants` are
    not part of this model: their answers are the fields of `Env`, arbitrary
    but fixed. */
module Elements {

  datatype Option<T> = None | Some(value: T)

  /** One field of the model class (a `VariableElement`). `tag` stands for the
      identity of the element object: two fields are the same element exactly
      when their tags agree, whatever their names. */
  datatype Field = Field(tag: nat, name: string)

  /** The answers of `ProcessUtils` and the values of `Constants`. */
  datatype Env = Env(
    fieldTableType: Field -> string,          // ProcessUtils.getFieldTableType(field)
    tableNameOf: Field -> string,             // ProcessUtils.getTableName(field)
    keyNameOf: Field -> string,               // ProcessUtils.getKeyName(field)
    objectNameOf: Field -> string,            // ProcessUtils.getObjectName(field)
    selectorNameOf: Field -> Option<string>,  // ProcessUtils.getSelectorName(field); None stands for null
    tableNameOfName: string -> string,        // ProcessUtils.getTableName(String)
    keyNameOfName: string -> string,          // ProcessUtils.getKeyName(String)
    fieldIdName: string,                      // Constants.FIELD_ID
    fieldNameColumn: string,                  // Constants.FIELD_NAME
    numberSelector: string,                   // Constants.queryBuilder_NumberSelectorClassName
    listNumberSelector: string)               // Constants.queryBuilder_ListNumberSelectorClassName

  /** What `ProcessUtils` reports about the annotated class element itself. */
  datatype ModelElement = ModelElement(
    objectName: string,                       // getObjectName(element)
    tableName: string,                        // getTableName(element)
    primitiveFields: seq<Field>,              // getPrimitiveFields(element)
    nonPrimitiveClassFields: seq<Field>,      // getNonPrimitiveClassFields(element)
    collectionsOfPrimitiveFields: seq<Field>, // getCollectionsOfPrimitiveFields(element)
    idField: Option<Field>)                   // getIdField(element); None stands for null

  /** Reference identity with the (possibly null) id field. */
  predicate IsIdField(f: Field, fieldId: Option<Field>)
  {
    fieldId.Some? && fieldId.value.tag == f.tag
  }
}
