/**
 * The entities the custom-field query builder works on: catalog rows, the
 * field records built from them, predicate tuples and their values, the
 * join entries of the FROM side, and the library routines the builder calls
 * but whose code is not part of this model.
 */
module CustomTypes {
  import opened Wrappers
  import opened PhpArray

  /**
   * One row of the catalog query over the custom-field and custom-group
   * tables (already fetched).  `groupExtends` is the custom group's `extends`
   * column, which the source looks up per row; None stands for NULL.
   */
  datatype CatalogRow = CatalogRow(
    id: nat,
    displayLabel: string,
    dataType: string,
    htmlType: string,
    isSearchRange: bool,
    optionGroupId: Option<nat>,
    groupExtends: Option<string>,
    columnName: string,
    tableName: string,
    dateFormat: string,
    timeFormat: string)

  /**
   * The `data_type` values the query builder tells apart; any other
   * catalog value is kept by its name.
   */
  datatype DataType =
    | String | Int | Float | Money | Memo | Date | Boolean
    | StateProvince | Country | Link | File | ContactReference
    | OtherType(name: string)

  /** The catalog's spelling of a data type. */
  function TypeName(t: DataType): string {
    match t
    case String => "String"
    case Int => "Int"
    case Float => "Float"
    case Money => "Money"
    case Memo => "Memo"
    case Date => "Date"
    case Boolean => "Boolean"
    case StateProvince => "StateProvince"
    case Country => "Country"
    case Link => "Link"
    case File => "File"
    case ContactReference => "ContactReference"
    case OtherType(name) => name
  }

  /** The data type a catalog value names; every value keeps its spelling. */
  function ParseDataType(s: string): (t: DataType)
    ensures TypeName(t) == s
    ensures t.OtherType? <==> s !in KnownTypeNames
  {
    if s == "String" then String
    else if s == "Int" then Int
    else if s == "Float" then Float
    else if s == "Money" then Money
    else if s == "Memo" then Memo
    else if s == "Date" then Date
    else if s == "Boolean" then Boolean
    else if s == "StateProvince" then StateProvince
    else if s == "Country" then Country
    else if s == "Link" then Link
    else if s == "File" then File
    else if s == "ContactReference" then ContactReference
    else OtherType(s)
  }

  const KnownTypeNames: set<string> := {"String", "Int", "Float", "Money", "Memo", "Date", "Boolean",
    "StateProvince", "Country", "Link", "File", "ContactReference"}

  /** A named data type is parsed back from its spelling. */
  lemma ParseTypeName(t: DataType)
    requires t.OtherType? ==> t.name !in KnownTypeNames
    ensures ParseDataType(TypeName(t)) == t
  {
  }

  /** An entry of `_fields`: `hostTable` is its 'extends' host table, or None (NULL). */
  datatype FieldSpec = FieldSpec(
    id: nat,
    displayLabel: string,
    hostTable: Option<string>,
    dataType: DataType,
    htmlType: string,
    isSearchRange: bool,
    columnName: string,
    tableName: string,
    optionGroupId: Option<nat>)

  /** `_options[id]['attributes']`; the date keys exist only for Select Date widgets. */
  datatype Attributes = Attributes(
    displayLabel: string,
    dataType: string,
    htmlType: string,
    dateFormat: Option<string>,
    timeFormat: Option<string>)

  /**
   * An entry of `_options`: its attributes, and the option group whose
   * (value, label) pairs the source would load into the entry, if any.
   */
  datatype OptionEntry = OptionEntry(attributes: Attributes, optionGroup: Option<nat>)

  datatype Catalog = Catalog(fields: OMap<nat, FieldSpec>, options: OMap<nat, OptionEntry>)

  /**
   * The value of a predicate: a scalar, a list of values, or a range record
   * whose `from`/`to` keys are None when they are not set.
   */
  datatype Value = Scalar(text: string) | List(items: seq<string>) | Range(from: Option<string>, to: Option<string>)
  {
    /** `is_array($value)` */
    predicate IsArray() {
      !Scalar?
    }
  }

  /** `(name, op, value, grouping, wildcard)` */
  datatype Tuple = Tuple(name: string, op: string, value: Value, grouping: int, wildcard: bool)

  /**
   * A `_tables` entry: a JOIN fragment, or the integer 1 that the planner
   * stores for a host table without a location-specific join.
   */
  datatype TableJoin = JoinSql(sql: string) | JoinPlaceholder

  /**
   * Library routines whose code is not part of this model, as uninterpreted
   * functions.  `buildClause(column, op, value, type)` takes None for an
   * omitted argument; an integer argument is passed as its decimal text.
   */
  datatype Helpers = Helpers(
    buildClause: (string, string, Option<Value>, Option<string>) -> string,
    escapeString: string -> string,
    typeEscape: (string, string) -> string,
    isSerialized: FieldSpec -> bool,
    searchOptions: string -> map<string, string>,
    displayValue: (Value, nat) -> string,
    sortName: Value -> string,
    mbLower: string -> string,
    cleanMoney: string -> string,
    processDate: string -> string,
    customFormat: string -> string,
    isNumeric: string -> bool)
}
