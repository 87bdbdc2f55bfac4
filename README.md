# CustomQuery: a Dafny model of CiviCRM's custom-field search builder

`CRM_Core_BAO_CustomQuery` turns a search on custom fields into the three
SQL fragments the contact search splices into its query:

- the SELECT list, with the row id of each custom-value table and the value column of each field;
- the LEFT JOIN block that reaches each custom-value table from the entity it extends;
- the WHERE fragment: an OR of bucket clauses, each an AND of the conditions of one grouping.

Beside each condition it keeps an English description (the "qill") in the
same grouping.

The builder is an object whose methods fill its ordered maps in place. The
model keeps that form:

- `CustomQueryBuilder.CustomQuery` is a class whose fields are those maps.
- `Select` and `Where` are methods with the source's loops. Each is proved against a specification function that folds over the same input.
- `SearchRange`, `AddTuple`, `AddTyped`, `AddDate` and `Query` are straight-line methods. Each is proved to leave the state a specification function gives.
- The loops inside single operations are methods too: the catalog fetch (`LoadCatalog`), the multi-value element loop (`MultiValueClause`), the Money range cleaning (`CleanMoney`) and the WHERE assembly (`ComposeWhere`).
- The rest of the model proves its properties on those functions.

Two orders follow from PHP's arrays:

- `select()` visits the fields in the order in which the catalog query returned them (lines 180-200).
- The WHERE groupings appear in the order of their first use (lines 376 and 566-570), not sorted by grouping id.

PHP's ordered arrays are `PhpArray.OMap`: keys in insertion order and a map.
Assigning an existing key keeps its position. `PhpString` holds the PHP
string built-ins the class relies on:

- `implode` and `explode`, with a round trip between them;
- `trim`;
- ASCII `strtolower`;
- the PHP 5 `(int)` cast.

Modules, in dependency order:

- `CustomTypes`: the catalog row, field record, data types, predicate tuples and values, and the `Helpers` record of external functions.
- `CustomCatalog`: the host-table map and the constructor's catalog load, including the corrupt-field error.
- `SelectPlan`: what one field adds to the SELECT list and to the two join maps, and the `select()` loop as a fold.
- `WhereCompile`: what one predicate tuple adds to its grouping. This covers the multi-value branch, the switch on the data type, and `searchRange()`.
- `WhereBuckets`: appending to a grouping's bucket, and the assembly of the WHERE fragment.
- `CustomQueryBuilder`: the `where()` loop as a fold, and the class with its methods.

The external calls are fields of the `Helpers` datatype. These are the
SQL clause builder, the escapers, the option lookup, `isSerialized`, the date
parser and formatter, `cleanMoney`, and the contact sort-name lookup. The
model states its properties for every possible behaviour of these calls.
`ts()` is the identity.

## Model

| member | source | states |
|---|---|---|
| CustomCatalog.ResolveExtends | CRM/Core/BAO/CustomQuery.php:182-189 | A group extending an entry of the map gets that host table. A contact subtype gets the contact table. Any other value keeps the table the previous row left. |
| CustomCatalog.ClassifyRow | CRM/Core/BAO/CustomQuery.php:190-227 | A row fails exactly when an option widget that is not a ContactReference has no option group and is not Boolean; the failure carries the fatal message with the field's label. Otherwise it yields the field record and the options-cache attributes. The option group is kept exactly for option widgets that have one. A date format and a time format are present exactly for "Select Date", and are then the row's own. |
| CustomCatalog.ClassifyFetched | CRM/Core/BAO/CustomQuery.php:180-227 | One pass of the fetch loop's body computes exactly what `ClassifyRow` states. The host table carries over from earlier rows unless this row's `extends` names a known entity or a contact subtype. The pass yields the field record and cache entry, or the fatal error. |
| CustomCatalog.Store | CRM/Core/BAO/CustomQuery.php:190-209 | Storing a row puts its field and its cache entry under the row's id, and keeps every other stored field and cache entry. The catalog stays well formed: every field is under its own id, and both maps have the same keys. |
| CustomCatalog.LoadFrom | CRM/Core/BAO/CustomQuery.php:180-253 | The fetch loop fails exactly when some fetched row is corrupt. Otherwise it leaves a well-formed catalog with every field stored under its own id. |
| CustomCatalog.LoadStoresEveryRow | CRM/Core/BAO/CustomQuery.php:180-200 | After a successful load, every fetched row's id is a field of the catalog. |
| CustomCatalog.LoadAddsOnlyRows | CRM/Core/BAO/CustomQuery.php:180-200 | A load keeps the fields it started with and adds only ids of fetched rows. |
| CustomCatalog.LoadFetchOrder | CRM/Core/BAO/CustomQuery.php:180-200 | A successful load of rows with distinct new ids appends their fields in fetch order, after the fields already stored. |
| CustomCatalog.LoadKeepsOthers | CRM/Core/BAO/CustomQuery.php:180-209 | A load leaves the field and cache entry of an id it does not fetch as they were. |
| CustomCatalog.LoadStoresRecords | CRM/Core/BAO/CustomQuery.php:180-227 | After a successful load of rows with distinct ids, each row's id holds exactly the field record and cache entry `ClassifyRow` gives for that row. The host table used is the one `$extendsTable` holds when the loop reaches the row, as the earlier rows left it (`HostAt`). |
| CustomCatalog.LoadReportsFirstCorrupt | CRM/Core/BAO/CustomQuery.php:211-222 | The error is the message naming the first corrupt row. |
| CustomCatalog.LoadCatalog | CRM/Core/BAO/CustomQuery.php:159-253 | Empty `_ids` yield the empty catalog without a fetch. Otherwise the loop's result is `LoadFrom` of the fetched rows, and it fails exactly when a row is corrupt. For rows with distinct ids, the fields are in fetch order, and each row's id holds the record and cache entry the row is classified as, with the host table carried over from the rows before it. |
| CustomTypes.ParseDataType | CRM/Core/BAO/CustomQuery.php:194 | The stored data type prints back as the catalog's string. It is one of the switch's types exactly when that string is one of their names. |
| CustomTypes.ParseTypeName | CRM/Core/BAO/CustomQuery.php:194 | Parsing a type's name gives the type back. |
| SelectPlan.ProjectionKeysDiffer | CRM/Core/BAO/CustomQuery.php:268-273 | The `<table>_id` key and the `custom_<id>` key of a field never collide. |
| SelectPlan.Projections | CRM/Core/BAO/CustomQuery.php:268-273 | Both projections are stored with their SQL text, and both elements are set to 1. Existing SELECT keys keep their order. The join maps are untouched. |
| SelectPlan.JoinTableCases | CRM/Core/BAO/CustomQuery.php:276-290 | The case table of `JoinTable`: the planner stops exactly for the group table, a missing host, or a host outside the map. The contact table joins as `contact_a`. Any other host joins under its own name. |
| SelectPlan.CustomJoin | CRM/Core/BAO/CustomQuery.php:292-309 | The custom-value table's final join goes through the alias. It is copied to the filtering joins exactly when the field has predicates. SELECT, elements and panes are unchanged. |
| SelectPlan.Joins | CRM/Core/BAO/CustomQuery.php:292-316 | The contents of both join maps after one field. The custom-field pane opens exactly for a contact-root field in a contact search. |
| SelectPlan.JoinsThroughAlias | CRM/Core/BAO/CustomQuery.php:292-309 | The custom-value table joins `` `alias`.id ``. It is a filtering join exactly when the field has predicates or already was one. |
| SelectPlan.LocationSpecificJoins | CRM/Core/BAO/CustomQuery.php:300-313 | A location-specific field on a non-contact host joins through `<type>-address`. The address join, tied to the location type id, is stored under that alias in both join maps. |
| SelectPlan.PlainHostPlaceholder | CRM/Core/BAO/CustomQuery.php:298-313 | Without a location, a non-contact host's entry in both join maps is the integer 1. It renders as "1" in the JOIN block. |
| SelectPlan.ContactRootJoin | CRM/Core/BAO/CustomQuery.php:311-316 | A contact-root field stores only its own table's join. It opens the custom-field pane exactly in a contact search. |
| SelectPlan.PlanField | CRM/Core/BAO/CustomQuery.php:267-318 | One iteration keeps every map of the plan a well-formed ordered array. What it adds is stated by `PlanFieldEffect`. |
| SelectPlan.PlanFieldEffect | CRM/Core/BAO/CustomQuery.php:267-318 | One iteration adds both projections. It adds the field's joins unless the loop stops there, in which case no join map changes. |
| SelectPlan.PlanFrom | CRM/Core/BAO/CustomQuery.php:267-318 | The loop keeps every map of the plan a well-formed ordered array. What it covers and where it stops are stated by `PlanCoversPrefix` and `PlanStopsAtUnjoinable`. |
| SelectPlan.PlanFromGrows | CRM/Core/BAO/CustomQuery.php:267-318 | `select()` never removes a SELECT entry or a join. |
| SelectPlan.PlanCoversPrefix | CRM/Core/BAO/CustomQuery.php:267-318 | Every field up to the first unjoinable one is projected. Every joinable one among them has its table in `_tables`. |
| SelectPlan.PlanStopsAtUnjoinable | CRM/Core/BAO/CustomQuery.php:276-290 | Fields after the first unjoinable field contribute nothing, not even projections. |
| SelectPlan.GroupFieldEndsPlan | CRM/Core/BAO/CustomQuery.php:276-278 | A group field ends the whole `select()`. |
| WhereBuckets.AppendAll | CRM/Core/BAO/CustomQuery.php:376-377 | Appending conditions extends only that grouping's bucket. A new grouping goes at the end of the key order. Appending nothing changes nothing. |
| WhereBuckets.AppendAllTwice | CRM/Core/BAO/CustomQuery.php:515-520 | Two appends to one bucket equal one append of both, in order. |
| WhereBuckets.AppendKeepsAligned | CRM/Core/BAO/CustomQuery.php:376-377 | Appending a condition and a description to the same grouping keeps `_where` and `_qill` aligned. |
| WhereBuckets.ClausesEmpty | CRM/Core/BAO/CustomQuery.php:566-571 | No clause is produced exactly when every bucket is empty. |
| WhereBuckets.ClausesOfFullBuckets | CRM/Core/BAO/CustomQuery.php:566-571 | With no empty bucket, there is one clause per bucket, each ` ( a AND b ) `. |
| WhereBuckets.WhereString | CRM/Core/BAO/CustomQuery.php:563-575 | The WHERE fragment is NULL exactly when no bucket holds a condition. |
| WhereBuckets.AlignedWhereString | CRM/Core/BAO/CustomQuery.php:563-575 | For aligned buckets, the fragment is NULL exactly when there are no buckets. Otherwise it ORs one clause per bucket. |
| WhereBuckets.ComposeWhere | CRM/Core/BAO/CustomQuery.php:563-575 | The assembly loop builds exactly the fragment `WhereString` states. |
| WhereCompile.Autocomplete | CRM/Core/BAO/CustomQuery.php:347-349 | Only an Autocomplete-Select String field searched with "=" changes its value. A string becomes the non-empty list of comma-free pieces whose comma join is the original string, so "" becomes the list [""]. An array becomes "", as `explode` gives NULL. |
| WhereCompile.MultiSql | CRM/Core/BAO/CustomQuery.php:362-374 | A serialized column gets one LIKE per escaped element. Any other column gets a single IN condition. |
| WhereCompile.SerialEntryWraps | CRM/Core/BAO/CustomQuery.php:367 | Each LIKE pattern has the value separator on both sides of the escaped element. |
| WhereCompile.WildcardIgnoredUnlessSerialized | CRM/Core/BAO/CustomQuery.php:354-374 | A non-serialized column gives the same condition and description whatever the wildcard flag is. The condition is ` ( col IN ('a','b') ) ` over the escaped elements. |
| WhereCompile.SerializedHonoursWildcard | CRM/Core/BAO/CustomQuery.php:353-378 | A serialized column gets one LIKE condition per element. They are joined by " OR " under the wildcard and by " AND " otherwise, and the description uses OR or AND to match. |
| WhereCompile.MultiValueClause | CRM/Core/BAO/CustomQuery.php:352-378 | The element loop builds exactly the condition and description `MultiValue` states. |
| WhereCompile.MultiValueAddsOne | CRM/Core/BAO/CustomQuery.php:352-378 | An array value of a non-range field adds exactly one condition and one description, whatever its data type. |
| WhereCompile.RangeOutput | CRM/Core/BAO/CustomQuery.php:591-620 | One condition per range end present, and one description exactly when there is a condition. |
| WhereCompile.RangeOutputShape | CRM/Core/BAO/CustomQuery.php:594-619 | The ">=" condition comes first and the "<=" condition last. Each compares the column with the escaped end, quoted only for a String field. |
| WhereCompile.RangeOfNonRangeIsEmpty | CRM/Core/BAO/CustomQuery.php:594-619 | A value without `from` and `to` adds nothing. |
| WhereCompile.BooleanCoerce | CRM/Core/BAO/CustomQuery.php:432-437 | A value is true exactly when it is "yes" in any letter case or its integer value is 1. An array is true exactly when it has elements. |
| WhereCompile.BooleanIgnoresCase | CRM/Core/BAO/CustomQuery.php:432-437 | Boolean coercion of any string equals that of its lower-cased form. |
| WhereCompile.BooleanTuple | CRM/Core/BAO/CustomQuery.php:432-442 | A scalar Boolean search compares the column with the integer 1 or 0, typed Integer. It is described as Yes or No accordingly. |
| WhereCompile.StringWildcardIsLike | CRM/Core/BAO/CustomQuery.php:389-412 | A wildcard String search is a LIKE on "%value%", the value trimmed, escaped and lower-cased. |
| WhereCompile.DateOutput | CRM/Core/BAO/CustomQuery.php:481-523 | A single date adds one condition when it parses or the operator is a null test, and nothing otherwise. A range adds one condition per end that parses. Conditions and descriptions always match in number. |
| WhereCompile.DateYearExpands | CRM/Core/BAO/CustomQuery.php:484-497 | A single four-digit number is searched, through the clause builder, as the parsed date of January 1st of that year. Its description is the formatted date. |
| WhereCompile.DateUnparsedSkipped | CRM/Core/BAO/CustomQuery.php:484-488 | A single date the parser rejects adds nothing unless the operator is a null test. |
| WhereCompile.DateRangeConditions | CRM/Core/BAO/CustomQuery.php:498-522 | Each condition of a date range compares the column with a parsed end. The lower end comes first with ">=" and the upper end last with "<=", each with its matching description. |
| WhereCompile.DateRangeYearFrom | CRM/Core/BAO/CustomQuery.php:500-516 | A four-digit lower end is searched as ">=" January 1st of that year. |
| WhereCompile.FileOp | CRM/Core/BAO/CustomQuery.php:531-541 | IS EMPTY is searched as IS NULL and IS NOT EMPTY as IS NOT NULL. IS NULL and IS NOT NULL are kept. |
| WhereCompile.FileOutput | CRM/Core/BAO/CustomQuery.php:531-545 | A File field adds a condition exactly for one of the four null tests. That condition is the clause builder's value-less test with the mapped operator, and its description is "label op ". |
| WhereCompile.FileIgnoresOtherOps | CRM/Core/BAO/CustomQuery.php:531-545 | A scalar File search with any other operator adds nothing. |
| WhereCompile.CleanMoney | CRM/Core/BAO/CustomQuery.php:462-465 | The loop cleans every element of a Money range and keeps its shape. |
| WhereCompile.StringExactIsLowered | CRM/Core/BAO/CustomQuery.php:400-412 | A String search without the wildcard keeps its operator. It compares with the trimmed, lower-cased value, escaped as a String, and is described by the display value. |
| WhereCompile.MoneyScalarCleaned | CRM/Core/BAO/CustomQuery.php:468-472 | A single Money value is cleaned, then compared as a Float and described cleaned. |
| WhereCompile.MoneyRangeCleaned | CRM/Core/BAO/CustomQuery.php:461-466 | A Money range field searches the range of its cleaned ends. |
| WhereCompile.PlaceIsIntEscaped | CRM/Core/BAO/CustomQuery.php:525-529 | A state or country is compared with its value escaped as an Int, without the clause builder, and described by its display value. |
| WhereCompile.ContactReferenceSortName | CRM/Core/BAO/CustomQuery.php:416-420 | A contact reference is compared as a String. It is described by the contact's sort name, or by nothing when the value is empty. |
| WhereCompile.Escaped | CRM/Core/BAO/CustomQuery.php:381-384 | A string value becomes its trimmed, escaped text. An array value is passed on unchanged. |
| WhereCompile.Typed | CRM/Core/BAO/CustomQuery.php:385-546 | The data-type switch adds a condition exactly when it adds a description. |
| WhereCompile.ScalarTuple | CRM/Core/BAO/CustomQuery.php:380-384 | A single value that is not an Autocomplete-Select "=" search reaches the type switch trimmed and escaped. |
| WhereCompile.CompileTuple | CRM/Core/BAO/CustomQuery.php:340-546 | A whole tuple adds a condition exactly when it adds a description. |
| CustomQueryBuilder.WhereTuples | CRM/Core/BAO/CustomQuery.php:339-547 | The tuples of one field keep both bucket maps well-formed ordered arrays. Alignment and emptiness are stated by `WhereTuplesAligned` and `WhereTuplesEmpty`. |
| CustomQueryBuilder.WhereFrom | CRM/Core/BAO/CustomQuery.php:327-549 | The `where()` loop keeps both bucket maps well-formed ordered arrays. Alignment and emptiness are stated by `WhereFromAligned` and `WhereFromEmpty`. |
| CustomQueryBuilder.WhereTuplesAligned | CRM/Core/BAO/CustomQuery.php:339-547 | The tuples of one field keep `_where` and `_qill` aligned. |
| CustomQueryBuilder.WhereFromAligned | CRM/Core/BAO/CustomQuery.php:327-549 | `where()` keeps the two bucket maps with the same groupings, in the same order, with no empty bucket. |
| CustomQueryBuilder.WhereTuplesEmpty | CRM/Core/BAO/CustomQuery.php:339-547 | A field's tuples leave `_where` empty exactly when it was empty and no tuple adds a condition. |
| CustomQueryBuilder.WhereFromEmpty | CRM/Core/BAO/CustomQuery.php:327-549 | `where()` leaves `_where` empty exactly when it was empty and no compiled field adds a condition. |
| CustomQueryBuilder.WhereNullIffSilent | CRM/Core/BAO/CustomQuery.php:558-575 | Starting from a fresh builder, the WHERE fragment is NULL exactly when no field that `where()` compiles adds a condition. Otherwise there is one clause per grouping. |
| CustomQueryBuilder.CustomQuery.constructor | CRM/Core/BAO/CustomQuery.php:144-157 | Stores the ids, location fields, contact-search flag and catalog; every generated map starts empty. |
| CustomQueryBuilder.CustomQuery.Select | CRM/Core/BAO/CustomQuery.php:262-319 | The loop over `_fields` leaves the maps as `PlanFrom` states, stopping at the first unjoinable field. |
| CustomQueryBuilder.CustomQuery.SelectField | CRM/Core/BAO/CustomQuery.php:267-318 | One iteration applies `PlanField` and reports whether the loop goes on. |
| CustomQueryBuilder.CustomQuery.JoinField | CRM/Core/BAO/CustomQuery.php:292-316 | The join statements leave the maps as `Joins` states. |
| CustomQueryBuilder.CustomQuery.Push | CRM/Core/BAO/CustomQuery.php:410-411 | One condition and one description are appended to the same grouping. |
| CustomQueryBuilder.CustomQuery.SearchRange | CRM/Core/BAO/CustomQuery.php:591-620 | Appends what `RangeOutput` states to the grouping. |
| CustomQueryBuilder.CustomQuery.AddTuple | CRM/Core/BAO/CustomQuery.php:340-546 | Appends what `CompileTuple` states for the tuple to its grouping. |
| CustomQueryBuilder.CustomQuery.AddTyped | CRM/Core/BAO/CustomQuery.php:385-546 | The switch appends what `Typed` states. |
| CustomQueryBuilder.CustomQuery.AddDate | CRM/Core/BAO/CustomQuery.php:481-523 | The Date case appends what `DateOutput` states. |
| CustomQueryBuilder.CustomQuery.Where | CRM/Core/BAO/CustomQuery.php:327-549 | The nested loops leave the buckets as `WhereFrom` states, over `_ids` in order. |
| CustomQueryBuilder.CustomQuery.Query | CRM/Core/BAO/CustomQuery.php:558-581 | Runs both passes, then returns the ` , `-joined SELECT list, the space-joined rendered joins and the WHERE fragment. It preserves bucket alignment. |

## Left out

- The SQL behind the catalog. Fetching field rows, the group's `extends` value and the subtype list are inputs to `LoadCatalog`, in fetch order. The active and id filters of the catalog query are not modelled.
- Loading the option values of an option group, the rounding of Int and Float option keys, and the `customFieldOptions` hook. They fill the options cache, which `where()` reads back only through `getDisplayValue` (line 386). The model folds that cache into the `displayValue` helper.
- `ts()` is the identity. The localized "Yes" test of the Boolean case therefore coincides with "yes".
- The external helpers are given as functions. Their own behaviour is not part of this model: the clause builder, both escapers, `isSerialized`, the option lookup, the display value, the contact sort-name lookup, `mb_strtolower`, `cleanMoney`, date parsing and formatting, and `is_numeric`.
- The contact query's static pane table is a field of the builder (`openedPanes`). The model does not capture that it is shared with every other query.
- `Value.List` gives an array the keys 0 to n-1. Lines 362-364 build the description's separators from the keys themselves. An array with other keys, such as one keyed by option value, gets different separators in PHP. The model covers list-keyed arrays and the `from`/`to` record only.
- `WhereCompile.DateOutput` and the StateProvince and Country cases of `WhereCompile.Typed` pass an array value to `processDate` (lines 486 and 495) and to the Int escape (line 527) as its text "Array". PHP passes the array itself. The model therefore assumes that these helpers answer for any array as they answer for the string "Array".
- `PhpString.IntVal` does not saturate at the platform's integer limit.
- `PhpString.Lower` folds ASCII letters only.
- A PHP notice on a field id missing from `_ids` in `select()` is not modelled. The lookup is taken as an empty (falsy) predicate list.
