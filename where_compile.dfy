/**
 * What `where()` and `searchRange()` make of one predicate tuple of one
 * field: the SQL conditions it adds to its grouping's bucket of `_where`
 * and the human-readable descriptions it adds to the same bucket of
 * `_qill`.  A branch adds a condition exactly when it adds a description,
 * which is what keeps the two bucket maps in step.
 */
module WhereCompile {
  import opened Wrappers
  import opened PhpString
  import opened CustomTypes

  /** The separator of serialized multi-value columns (the library's VALUE_SEPARATOR, byte 1). */
  const ValueSeparator: char := '\U{1}'

  /** The operators a File field is searched with; no other operator adds anything. */
  const NullOps: set<string> := {"IS NULL", "IS NOT NULL", "IS EMPTY", "IS NOT EMPTY"}

  /** `"$value"` interpolated into a string: an array prints as "Array". */
  function Text(v: Value): string {
    if v.Scalar? then v.text else "Array"
  }

  /** The elements `foreach` visits in an array value, in order. */
  function Elements(v: Value): seq<string> {
    match v
    case Scalar(_) => []
    case List(items) => items
    case Range(from, to) => (if from.Some? then [from.value] else []) + (if to.Some? then [to.value] else [])
  }

  /** PHP's truth test on a value: a string other than "" and "0", or a non-empty array. */
  predicate ValueTruthy(v: Value) {
    if v.Scalar? then Truthy(v.text) else |Elements(v)| > 0
  }

  /** `isset($value['from'])` with its value; only a range record has the key. */
  function FromOf(v: Value): Option<string> {
    if v.Range? then v.from else None
  }

  function ToOf(v: Value): Option<string> {
    if v.Range? then v.to else None
  }

  /** The column a field's conditions test. */
  function Column(f: FieldSpec): string {
    f.tableName + "." + f.columnName
  }

  /**
   * Lines 347-349: an Autocomplete-Select string field searched with "="
   * sends a comma-separated string, which is split into a list; `explode`
   * on an array yields NULL, which the later trim turns into "".
   */
  function Autocomplete(f: FieldSpec, op: string, v: Value): (r: Value)
    ensures !(f.dataType.String? && f.htmlType == "Autocomplete-Select" && op == "=") ==> r == v
    ensures f.dataType.String? && f.htmlType == "Autocomplete-Select" && op == "=" && v.Scalar? ==>
      r.List? && |r.items| > 0 && Join([','], r.items) == v.text && forall k :: 0 <= k < |r.items| ==> ',' !in r.items[k]
    ensures f.dataType.String? && f.htmlType == "Autocomplete-Select" && op == "=" && !v.Scalar? ==> r == Scalar("")
  {
    if f.dataType.String? && f.htmlType == "Autocomplete-Select" && op == "=" then
      if v.Scalar? then
        JoinSplit(v.text, ',');
        List(Split(v.text, ','))
      else Scalar("")
    else v
  }

  /** Lines 352-353: the multi-value branch takes every array value of a field that is not a range field. */
  predicate IsMultiValue(f: FieldSpec, v: Value) {
    v.IsArray() && !f.isSearchRange
  }

  /** The label of an option value, or "" when the value has none. */
  function Lookup(options: map<string, string>, value: string): string {
    if value in options then options[value] else ""
  }

  /** `$qillValue` of a list: "a", "a OR b", "a, b OR c", ... */
  function QillList(labels: seq<string>, conj: string): string {
    if |labels| == 0 then ""
    else if |labels| == 1 then labels[0]
    else Join(", ", labels[..|labels| - 1]) + " " + conj + " " + labels[|labels| - 1]
  }

  /**
   * `$qillValue` of a range record: its keys are not numbers, so every
   * element gets the separator in front, and the same separator.
   */
  function KeyedQill(labels: seq<string>, sep: string): string {
    if |labels| == 0 then "" else KeyedQill(labels[..|labels| - 1], sep) + sep + labels[|labels| - 1]
  }

  /** The separator of a range record's description. */
  function KeyedSep(count: nat, conj: string): string {
    if count > 1 then ", " else " " + conj + " "
  }

  /** The condition on one element of a serialized column. */
  function SerialEntry(column: string, escaped: string): string {
    "( " + column + " like '%" + [ValueSeparator] + escaped + [ValueSeparator] + "%' ) "
  }

  function Quote(s: string): string {
    "'" + s + "'"
  }

  /** What the loop of lines 362-372 leaves in `$value[k]`. */
  function Processed(env: Helpers, serialized: bool, item: string): string {
    if serialized then env.escapeString(item) else Quote(env.escapeString(item))
  }

  /** Line 355: only a serialized column honours the tuple's wildcard flag; any other is matched with OR. */
  function EffectiveWildcard(env: Helpers, f: FieldSpec, wildcard: bool): bool {
    if env.isSerialized(f) then wildcard else true
  }

  /** The option labels of the elements, "" for a value without one. */
  function Labels(options: map<string, string>, items: seq<string>): (r: seq<string>)
    ensures |r| == |items| && forall k :: 0 <= k < |items| ==> r[k] == Lookup(options, items[k])
  {
    seq(|items|, k requires 0 <= k < |items| => Lookup(options, items[k]))
  }

  /** `$qillValue` of the multi-value branch. */
  function MultiQill(labels: seq<string>, conj: string, keyed: bool): string {
    if keyed then KeyedQill(labels, KeyedSep(|labels|, conj)) else QillList(labels, conj)
  }

  /**
   * `$sqlValue` of the multi-value branch: one LIKE per element of a
   * serialized column, one IN list of the quoted escaped elements otherwise.
   */
  function MultiSql(env: Helpers, f: FieldSpec, items: seq<string>): (r: seq<string>)
    ensures env.isSerialized(f) ==> |r| == |items| && forall k :: 0 <= k < |items| ==> r[k] == SerialEntry(Column(f), env.escapeString(items[k]))
    ensures !env.isSerialized(f) ==> |r| == 1
  {
    if env.isSerialized(f) then seq(|items|, k requires 0 <= k < |items| => SerialEntry(Column(f), env.escapeString(items[k])))
    else [Column(f) + " IN (" + Join(",", seq(|items|, k requires 0 <= k < |items| => Processed(env, false, items[k]))) + ")"]
  }

  /**
   * Lines 353-379: one condition and one description for an array value
   * of a non-range field, the conditions on the elements joined by OR
   * under the wildcard and by AND otherwise.
   */
  function MultiValue(env: Helpers, f: FieldSpec, name: string, op: string, v: Value, wildcard: bool): (r: (string, string)) {
    var conj := if EffectiveWildcard(env, f, wildcard) then "OR" else "AND";
    (" ( " + Join(if EffectiveWildcard(env, f, wildcard) then " OR " else " AND ", MultiSql(env, f, Elements(v))) + " ) ",
     f.displayLabel + " " + op + " " + MultiQill(Labels(env.searchOptions(name), Elements(v)), conj, v.Range?))
  }

  /**
   * Line 367: the condition on an element of a serialized column matches
   * the escaped element only when the value separator stands on both sides
   * of it, so that one option value never matches inside another.
   */
  lemma SerialEntryWraps(column: string, escaped: string)
    ensures var s := SerialEntry(column, escaped);
            var k := |column| + 10;
            k + |escaped| + 2 <= |s| &&
            s[k - 1] == '%' && s[k] == ValueSeparator && s[k + 1 .. k + 1 + |escaped|] == escaped &&
            s[k + 1 + |escaped|] == ValueSeparator && s[k + 2 + |escaped|] == '%'
  {
    var s := SerialEntry(column, escaped);
    var head := "( " + column + " like '%";
    assert |head| == |column| + 10;
    assert s == head + ([ValueSeparator] + escaped + [ValueSeparator] + "%' ) ");
  }

  /**
   * Line 355: a column that is not serialized is always matched with IN and
   * described with OR, whatever the tuple's wildcard flag says.
   */
  lemma WildcardIgnoredUnlessSerialized(env: Helpers, f: FieldSpec, name: string, op: string, v: Value)
    requires !env.isSerialized(f)
    ensures MultiValue(env, f, name, op, v, false) == MultiValue(env, f, name, op, v, true)
    ensures var items := Elements(v);
            MultiValue(env, f, name, op, v, false).0
              == " ( " + Column(f) + " IN (" + Join(",", seq(|items|, k requires 0 <= k < |items| => Quote(env.escapeString(items[k])))) + ")" + " ) "
  {
    InListOfQuoted(env, f, Elements(v));
  }

  /**
   * Lines 354-360 and 367: a serialized column keeps the tuple's wildcard
   * flag, so its per-element LIKE conditions are joined by OR under the
   * wildcard and by AND otherwise, and the description uses the same word.
   */
  lemma SerializedHonoursWildcard(env: Helpers, f: FieldSpec, name: string, op: string, v: Value, wildcard: bool)
    requires env.isSerialized(f)
    ensures var items := Elements(v);
            MultiValue(env, f, name, op, v, wildcard).0
              == " ( " + Join(if wildcard then " OR " else " AND ",
                   seq(|items|, k requires 0 <= k < |items| => SerialEntry(Column(f), env.escapeString(items[k])))) + " ) "
    ensures MultiValue(env, f, name, op, v, wildcard).1
      == f.displayLabel + " " + op + " " + MultiQill(Labels(env.searchOptions(name), Elements(v)), if wildcard then "OR" else "AND", v.Range?)
    ensures |MultiSql(env, f, Elements(v))| == |Elements(v)|
  {
    var items := Elements(v);
    assert MultiSql(env, f, items) == seq(|items|, k requires 0 <= k < |items| => SerialEntry(Column(f), env.escapeString(items[k])));
  }

  /** The single IN condition of a column that is not serialized, on the quoted escaped elements. */
  lemma InListOfQuoted(env: Helpers, f: FieldSpec, items: seq<string>)
    requires !env.isSerialized(f)
    ensures Join(" OR ", MultiSql(env, f, items))
      == Column(f) + " IN (" + Join(",", seq(|items|, k requires 0 <= k < |items| => Quote(env.escapeString(items[k])))) + ")"
  {
    QuotedElements(env, items);
    var inList := Column(f) + " IN (" + Join(",", seq(|items|, k requires 0 <= k < |items| => Processed(env, false, items[k]))) + ")";
    assert MultiSql(env, f, items) == [inList];
  }

  lemma QuotedElements(env: Helpers, items: seq<string>)
    ensures seq(|items|, k requires 0 <= k < |items| => Processed(env, false, items[k]))
         == seq(|items|, k requires 0 <= k < |items| => Quote(env.escapeString(items[k])))
  {
  }

  /** The description of the first `i` of `n` list elements: commas only, so far. */
  lemma QillListStep(labels: seq<string>, conj: string, i: nat)
    requires i < |labels|
    ensures var sep := if |labels| > 1 + i then ", " else " " + conj + " ";
      var next := Join(", ", labels[..i]) + (if i > 0 then sep else "") + labels[i];
      if i + 1 < |labels| then next == Join(", ", labels[..i + 1]) else next == QillList(labels, conj)
  {
    if i > 0 {
      JoinSnoc(", ", labels[..i], labels[i]);
      assert labels[..i] + [labels[i]] == labels[..i + 1];
    }
    if i + 1 == |labels| {
      assert labels[..|labels| - 1] == labels[..i];
    }
  }

  /** The separator the loop puts before element `num` of `n`. */
  function LoopSep(keyed: bool, n: nat, num: nat, conj: string): string {
    if keyed then KeyedSep(n, conj) else if n > 1 + num then ", " else " " + conj + " "
  }

  /** The description the loop has built after `num` elements. */
  ghost predicate QillSoFar(labels: seq<string>, conj: string, keyed: bool, num: nat, q: string)
    requires num <= |labels|
  {
    if keyed then q == KeyedQill(labels[..num], KeyedSep(|labels|, conj))
    else if num < |labels| then q == Join(", ", labels[..num])
    else q == QillList(labels, conj)
  }

  /** One more element: the separator (none before a list's first) and its label. */
  lemma QillAdvance(labels: seq<string>, conj: string, keyed: bool, num: nat, q: string)
    requires num < |labels| && QillSoFar(labels, conj, keyed, num, q)
    ensures QillSoFar(labels, conj, keyed, num + 1,
      q + (if keyed || num > 0 then LoopSep(keyed, |labels|, num, conj) else "") + labels[num])
  {
    if keyed {
      assert labels[..num + 1][..num] == labels[..num];
    } else {
      QillListStep(labels, conj, num);
    }
  }

  /** After the last element the description is the one `MultiValue` states. */
  lemma QillDone(labels: seq<string>, conj: string, keyed: bool, q: string)
    requires QillSoFar(labels, conj, keyed, |labels|, q)
    ensures q == MultiQill(labels, conj, keyed)
  {
    assert labels[..|labels|] == labels;
  }

  /** The loop has rewritten the first `num` elements in place and left the rest alone. */
  ghost predicate ElementsDone(env: Helpers, serialized: bool, items: seq<string>, values: seq<string>, num: nat) {
    |values| == |items| && num <= |items|
    && (forall k :: 0 <= k < num ==> values[k] == Processed(env, serialized, items[k]))
    && (forall k :: num <= k < |items| ==> values[k] == items[k])
  }

  /** Rewriting element `num` in place extends the rewritten prefix by one. */
  lemma ElementsAdvance(env: Helpers, serialized: bool, items: seq<string>, values: seq<string>, num: nat)
    requires num < |items| && ElementsDone(env, serialized, items, values, num)
    ensures values[num] == items[num]
    ensures ElementsDone(env, serialized, items, values[num := Processed(env, serialized, items[num])], num + 1)
  {
  }

  /** The quoted escaped elements make up the IN list `MultiSql` states. */
  lemma InListDone(env: Helpers, f: FieldSpec, items: seq<string>, values: seq<string>)
    requires !env.isSerialized(f) && ElementsDone(env, false, items, values, |items|)
    ensures [Column(f) + " IN (" + Join(",", values) + ")"] == MultiSql(env, f, items)
  {
    assert values == seq(|items|, k requires 0 <= k < |items| => Processed(env, false, items[k]));
  }

  /** The LIKE conditions on the elements are the ones `MultiSql` states. */
  lemma SerialDone(env: Helpers, f: FieldSpec, items: seq<string>, sqlValue: seq<string>)
    requires env.isSerialized(f) && |sqlValue| == |items|
    requires forall k :: 0 <= k < |items| ==> sqlValue[k] == SerialEntry(Column(f), env.escapeString(items[k]))
    ensures sqlValue == MultiSql(env, f, items)
  {
  }

  /**
   * The loop of lines 362-378, proved to build the condition and the
   * description `MultiValue` states.
   */
  method MultiValueClause(env: Helpers, f: FieldSpec, name: string, op: string, v: Value, wildcard: bool)
    returns (whereEntry: string, qillEntry: string)
    ensures (whereEntry, qillEntry) == MultiValue(env, f, name, op, v, wildcard)
  {
    var serialized := env.isSerialized(f);
    var wildcard' := if serialized then wildcard else true;
    var options := env.searchOptions(name);
    var values := Elements(v);
    var n := |values|;
    ghost var items := values;
    ghost var labels := Labels(options, items);
    var conj := if wildcard' then "OR" else "AND";
    var qillValue := "";
    var sqlValue: seq<string> := [];
    var num := 0;
    assert labels[..0] == [];
    while num < n
      invariant 0 <= num <= n && |items| == n
      invariant ElementsDone(env, serialized, items, values, num)
      invariant |sqlValue| == (if serialized then num else 0)
      invariant forall k :: 0 <= k < |sqlValue| ==> sqlValue[k] == SerialEntry(Column(f), env.escapeString(items[k]))
      invariant QillSoFar(labels, conj, v.Range?, num, qillValue)
    {
      var sep := if v.Range? then KeyedSep(n, conj) else (if n > 1 + num then ", " else " " + conj + " ");
      QillAdvance(labels, conj, v.Range?, num, qillValue);
      qillValue := qillValue + (if v.Range? || num > 0 then sep else "") + Lookup(options, values[num]);
      ElementsAdvance(env, serialized, items, values, num);
      var escaped := env.escapeString(values[num]);
      if serialized {
        sqlValue := sqlValue + [SerialEntry(Column(f), escaped)];
        values := values[num := escaped];
      } else {
        values := values[num := Quote(escaped)];
      }
      num := num + 1;
    }
    if !serialized {
      InListDone(env, f, items, values);
      sqlValue := [Column(f) + " IN (" + Join(",", values) + ")"];
    } else {
      SerialDone(env, f, items, sqlValue);
    }
    QillDone(labels, conj, v.Range?, qillValue);
    assert MultiValue(env, f, name, op, v, wildcard) == (" ( " + Join(if wildcard' then " OR " else " AND ", MultiSql(env, f, items)) + " ) ",
      f.displayLabel + " " + op + " " + MultiQill(labels, conj, v.Range?));
    whereEntry := " ( " + Join(if wildcard' then " OR " else " AND ", sqlValue) + " ) ";
    qillEntry := f.displayLabel + " " + op + " " + qillValue;
  }

  /**
   * `searchRange()`, lines 591-620: a ">=" condition when the range has a
   * lower end and a "<=" condition when it has an upper end, the escaped
   * end quoted only for a String field; one description covering both ends,
   * and none when the range has neither.
   */
  function RangeOutput(env: Helpers, column: string, displayLabel: string, dataType: string, v: Value): (r: (seq<string>, seq<string>))
    ensures |r.0| == (if FromOf(v).Some? then 1 else 0) + (if ToOf(v).Some? then 1 else 0)
    ensures |r.1| == (if |r.0| > 0 then 1 else 0)
  {
    var from, to := FromOf(v), ToOf(v);
    var bound := (s: string) => if dataType == "String" then Quote(env.typeEscape(s, dataType)) else env.typeEscape(s, dataType);
    var ws := (if from.Some? then [column + " >= " + bound(from.value)] else [])
            + (if to.Some? then [column + " <= " + bound(to.value)] else []);
    var parts := (if from.Some? then ["greater than or equal to " + Quote(from.value)] else [])
               + (if to.Some? then ["less than or equal to " + Quote(to.value)] else []);
    (ws, if parts != [] then [displayLabel + " - " + Join(" and ", parts)] else [])
  }

  /** A range's conditions: one per end it has, and a description exactly when there is one. */
  lemma RangeOutputShape(env: Helpers, column: string, displayLabel: string, dataType: string, v: Value)
    ensures var r := RangeOutput(env, column, displayLabel, dataType, v);
      && |r.0| == (if FromOf(v).Some? then 1 else 0) + (if ToOf(v).Some? then 1 else 0)
      && |r.1| == (if |r.0| > 0 then 1 else 0)
      && (FromOf(v).Some? ==> r.0[0] == column + " >= " + (if dataType == "String" then Quote(env.typeEscape(FromOf(v).value, dataType)) else env.typeEscape(FromOf(v).value, dataType)))
      && (ToOf(v).Some? ==> r.0[|r.0| - 1] == column + " <= " + (if dataType == "String" then Quote(env.typeEscape(ToOf(v).value, dataType)) else env.typeEscape(ToOf(v).value, dataType)))
  {
  }

  /** A value that is not a range record matches no range condition. */
  lemma RangeOfNonRangeIsEmpty(env: Helpers, column: string, displayLabel: string, dataType: string, v: Value)
    requires !v.Range?
    ensures RangeOutput(env, column, displayLabel, dataType, v) == ([], [])
  {
  }

  /**
   * Lines 432-439: "yes" in any letter case is true, and otherwise the
   * string's integer value must be exactly 1; an array counts as its
   * `(int)` cast, 1 when it has elements.
   */
  function BooleanCoerce(v: Value): (b: nat)
    ensures b == 0 || b == 1
    ensures v.Scalar? ==> (b == 1 <==> Lower(v.text) == "yes" || IntVal(v.text) == 1)
    ensures !v.Scalar? ==> (b == 1 <==> |Elements(v)| > 0)
  {
    if v.Scalar? then
      if Lower(v.text) == "yes" then 1
      else if IntVal(v.text) == 1 then 1
      else 0
    else if |Elements(v)| > 0 then 1 else 0
  }

  /** Boolean coercion ignores letter case: "YES", "Yes" and "yes" all search for true, "1X" like "1x". */
  lemma BooleanIgnoresCase(s: string)
    ensures BooleanCoerce(Scalar(s)) == BooleanCoerce(Scalar(Lower(s)))
  {
    LowerIdempotent(s);
    IntValLower(s);
  }

  /** A four-digit number is taken as a year: lines 491-493 and 500-506. */
  function YearFix(env: Helpers, s: string): string {
    if env.isNumeric(s) && |s| == 4 then "01-01-" + s else s
  }

  /** An end of a date range, NULL (here "") when the range lacks it. */
  function EndText(e: Option<string>): string {
    if e.Some? then e.value else ""
  }

  predicate EndTruthy(e: Option<string>) {
    e.Some? && Truthy(e.value)
  }

  /**
   * Lines 481-523: a single date (not a range with a usable end) is
   * searched when it parses or the operator is a null test; a range adds
   * one condition per end that parses, and nothing when neither does.
   */
  function DateOutput(env: Helpers, column: string, displayLabel: string, op: string, v: Value): (r: (seq<string>, seq<string>))
    ensures |r.0| == |r.1|
    ensures !EndTruthy(FromOf(v)) && !EndTruthy(ToOf(v)) ==>
      (|r.0| == 0 <==> !Truthy(env.processDate(Text(v))) && op !in NullOps)
    ensures EndTruthy(FromOf(v)) || EndTruthy(ToOf(v)) ==>
      |r.0| == (if Truthy(env.processDate(YearFix(env, EndText(FromOf(v))))) then 1 else 0)
             + (if Truthy(env.processDate(YearFix(env, EndText(ToOf(v))))) then 1 else 0)
  {
    var from, to := FromOf(v), ToOf(v);
    if !EndTruthy(from) && !EndTruthy(to) then
      if !Truthy(env.processDate(Text(v))) && op !in NullOps then ([], [])
      else
        var date := env.processDate(if v.Scalar? then YearFix(env, v.text) else Text(v));
        ([env.buildClause(column, op, Some(Scalar(date)), Some("String"))], [displayLabel + " " + op + " " + env.customFormat(date)])
    else
      var fromDate := env.processDate(YearFix(env, EndText(from)));
      var toDate := env.processDate(YearFix(env, EndText(to)));
      if !Truthy(fromDate) && !Truthy(toDate) then ([], [])
      else
        ((if Truthy(fromDate) then [column + " >= " + fromDate] else []) + (if Truthy(toDate) then [column + " <= " + toDate] else []),
         (if Truthy(fromDate) then [displayLabel + " >= " + env.customFormat(fromDate)] else [])
         + (if Truthy(toDate) then [displayLabel + " <= " + env.customFormat(toDate)] else []))
  }

  /** Lines 531-544: "IS EMPTY" is searched as "IS NULL" and "IS NOT EMPTY" as "IS NOT NULL". */
  function FileOp(op: string): (r: string)
    ensures op == "IS EMPTY" ==> r == "IS NULL"
    ensures op == "IS NOT EMPTY" ==> r == "IS NOT NULL"
    ensures op == "IS NULL" || op == "IS NOT NULL" ==> r == op
  {
    if op == "IS EMPTY" then "IS NULL" else if op == "IS NOT EMPTY" then "IS NOT NULL" else op
  }

  /** A File field is searched only for being set or not; any other operator adds nothing. */
  function FileOutput(env: Helpers, column: string, displayLabel: string, op: string): (r: (seq<string>, seq<string>))
    ensures |r.0| == |r.1| && (|r.0| > 0 <==> op in NullOps)
    ensures op in NullOps ==> r.0 == [env.buildClause(column, FileOp(op), None, None)]
    ensures op in NullOps ==> r.1 == [displayLabel + " " + FileOp(op) + " "]
  {
    if op in NullOps then ([env.buildClause(column, FileOp(op), None, None)], [displayLabel + " " + FileOp(op) + " "])
    else ([], [])
  }

  /** Lines 462-465: each element of a Money range is cleaned before the range is built. */
  function MapValue(g: string -> string, v: Value): (r: Value)
    ensures r.IsArray() == v.IsArray()
    ensures v.Range? ==> r.Range? && (r.from.Some? <==> v.from.Some?) && (r.to.Some? <==> v.to.Some?)
  {
    match v
    case Scalar(s) => Scalar(g(s))
    case List(items) => List(seq(|items|, k requires 0 <= k < |items| => g(items[k])))
    case Range(from, to) =>
      Range(if from.Some? then Some(g(from.value)) else None, if to.Some? then Some(g(to.value)) else None)
  }

  /** The loop of lines 462-465, proved to clean each element as `MapValue` states. */
  method CleanMoney(env: Helpers, value: Value) returns (r: Value)
    requires value.IsArray()
    ensures r == MapValue(env.cleanMoney, value)
  {
    match value
    case List(items) =>
      var cleaned := items;
      var k := 0;
      while k < |cleaned|
        invariant 0 <= k <= |cleaned| && |cleaned| == |items|
        invariant forall j :: 0 <= j < k ==> cleaned[j] == env.cleanMoney(items[j])
        invariant forall j :: k <= j < |items| ==> cleaned[j] == items[j]
      {
        cleaned := cleaned[k := env.cleanMoney(cleaned[k])];
        k := k + 1;
      }
      assert cleaned == seq(|items|, j requires 0 <= j < |items| => env.cleanMoney(items[j]));
      r := List(cleaned);
    case Range(from, to) =>
      var from', to' := from, to;
      if from.Some? {
        from' := Some(env.cleanMoney(from.value));
      }
      if to.Some? {
        to' := Some(env.cleanMoney(to.value));
      }
      r := Range(from', to');
  }

  /** Line 383: a string value is trimmed and escaped; arrays are left alone. */
  function Escaped(env: Helpers, v: Value): (r: Value)
    ensures r.Scalar? <==> v.Scalar?
    ensures v.Scalar? ==> r.text == env.escapeString(Trim(v.text))
    ensures !v.Scalar? ==> r == v
  {
    if v.Scalar? then Scalar(env.escapeString(Trim(v.text))) else v
  }

  /** A description: the field's label, the operator and the value's text. */
  function Described(f: FieldSpec, op: string, text: string): string {
    f.displayLabel + " " + op + " " + text
  }

  /**
   * Lines 385-546: the switch on the field's data type, for a value that
   * did not take the multi-value branch (already escaped when a string).
   * A range field with an array value goes to `searchRange()` (a Money
   * range cleaned first); a String search with the wildcard becomes a LIKE
   * on the lower-cased value between "%" signs; a data type the switch does
   * not list adds nothing.
   */
  function Typed(env: Helpers, f: FieldSpec, id: nat, op: string, v: Value, wildcard: bool): (r: (seq<string>, seq<string>))
    ensures |r.0| > 0 <==> |r.1| > 0
  {
    var column := Column(f);
    var range := f.isSearchRange && v.IsArray();
    match f.dataType
    case String =>
      if range then RangeOutput(env, column, f.displayLabel, TypeName(f.dataType), v)
      else
        var val := env.typeEscape(env.mbLower(Trim(Text(v))), "String");
        var val' := if wildcard then "%" + env.mbLower(env.escapeString(val)) + "%" else val;
        var op' := if wildcard then "LIKE" else op;
        ([env.buildClause(column, op', Some(Scalar(val')), Some("String"))], [Described(f, op', env.displayValue(v, id))])
    case ContactReference =>
      ([env.buildClause(column, op, Some(v), Some("String"))], [Described(f, op, if ValueTruthy(v) then env.sortName(v) else "")])
    case Int =>
      if range then RangeOutput(env, column, f.displayLabel, TypeName(f.dataType), v)
      else ([env.buildClause(column, op, Some(v), Some("Integer"))], [Described(f, op, Text(v))])
    case Boolean =>
      var b := BooleanCoerce(v);
      ([env.buildClause(column, op, Some(Scalar(if b == 1 then "1" else "0")), Some("Integer"))], [Described(f, op, if b == 1 then "Yes" else "No")])
    case Link =>
      ([env.buildClause(column, op, Some(v), Some("String"))], [Described(f, op, Text(v))])
    case Float =>
      if range then RangeOutput(env, column, f.displayLabel, TypeName(f.dataType), v)
      else ([env.buildClause(column, op, Some(v), Some("Float"))], [Described(f, op, Text(v))])
    case Money =>
      if range then RangeOutput(env, column, f.displayLabel, TypeName(f.dataType), MapValue(env.cleanMoney, v))
      else
        var money := env.cleanMoney(Text(v));
        ([env.buildClause(column, op, Some(Scalar(money)), Some("Float"))], [Described(f, op, money)])
    case Memo =>
      ([env.buildClause(column, op, Some(v), Some("String"))], [Described(f, op, Text(v))])
    case Date =>
      DateOutput(env, column, f.displayLabel, op, v)
    case StateProvince =>
      ([column + " " + op + " " + env.typeEscape(Text(v), "Int")], [Described(f, op, env.displayValue(v, id))])
    case Country =>
      ([column + " " + op + " " + env.typeEscape(Text(v), "Int")], [Described(f, op, env.displayValue(v, id))])
    case File =>
      FileOutput(env, column, f.displayLabel, op)
    case OtherType(_) =>
      ([], [])
  }

  /**
   * The whole of one tuple, lines 340-546.  It adds a condition exactly
   * when it adds a description, which keeps `_where` and `_qill` in step.
   */
  function CompileTuple(env: Helpers, f: FieldSpec, id: nat, t: Tuple): (r: (seq<string>, seq<string>))
    ensures |r.0| > 0 <==> |r.1| > 0
  {
    var v := Autocomplete(f, t.op, t.value);
    if IsMultiValue(f, v) then
      var entry := MultiValue(env, f, t.name, t.op, v, t.wildcard);
      ([entry.0], [entry.1])
    else Typed(env, f, id, t.op, Escaped(env, v), t.wildcard)
  }

  /**
   * An array value of a field that is not a range field always adds
   * exactly one condition and one description, whatever its data type.
   */
  lemma MultiValueAddsOne(env: Helpers, f: FieldSpec, id: nat, t: Tuple)
    requires IsMultiValue(f, Autocomplete(f, t.op, t.value))
    ensures |CompileTuple(env, f, id, t).0| == 1 && |CompileTuple(env, f, id, t).1| == 1
  {
  }

  /** A single value that `Autocomplete` leaves alone goes to the type switch trimmed and escaped. */
  lemma ScalarTuple(env: Helpers, f: FieldSpec, id: nat, t: Tuple)
    requires t.value.Scalar? && !(f.dataType.String? && f.htmlType == "Autocomplete-Select" && t.op == "=")
    ensures CompileTuple(env, f, id, t) == Typed(env, f, id, t.op, Scalar(env.escapeString(Trim(t.value.text))), t.wildcard)
  {
    assert Autocomplete(f, t.op, t.value) == t.value;
  }

  /** A File field searched with an operator other than the four null tests adds nothing. */
  lemma FileIgnoresOtherOps(env: Helpers, f: FieldSpec, id: nat, t: Tuple)
    requires f.dataType.File? && t.op !in NullOps && t.value.Scalar?
    ensures CompileTuple(env, f, id, t) == ([], [])
  {
    ScalarTuple(env, f, id, t);
    var esc := Scalar(env.escapeString(Trim(t.value.text)));
    assert Typed(env, f, id, t.op, esc, t.wildcard) == FileOutput(env, Column(f), f.displayLabel, t.op);
  }

  /**
   * A Boolean field searched with a single value compares the column with
   * the integer `BooleanCoerce` gives the trimmed escaped value (1 or 0), and
   * describes the search as Yes or No accordingly.
   */
  lemma BooleanTuple(env: Helpers, f: FieldSpec, id: nat, t: Tuple)
    requires f.dataType.Boolean? && t.value.Scalar?
    ensures var b := BooleanCoerce(Scalar(env.escapeString(Trim(t.value.text))));
      CompileTuple(env, f, id, t) ==
        ([env.buildClause(Column(f), t.op, Some(Scalar(if b == 1 then "1" else "0")), Some("Integer"))],
         [Described(f, t.op, if b == 1 then "Yes" else "No")])
  {
    ScalarTuple(env, f, id, t);
    BooleanTyped(env, f, id, t.op, env.escapeString(Trim(t.value.text)), t.wildcard);
  }

  lemma BooleanTyped(env: Helpers, f: FieldSpec, id: nat, op: string, esc: string, wildcard: bool)
    requires f.dataType.Boolean?
    ensures var b := BooleanCoerce(Scalar(esc));
      Typed(env, f, id, op, Scalar(esc), wildcard) ==
        ([env.buildClause(Column(f), op, Some(Scalar(if b == 1 then "1" else "0")), Some("Integer"))],
         [Described(f, op, if b == 1 then "Yes" else "No")])
  {
    var b := BooleanCoerce(Scalar(esc));
    var column := Column(f);
    if b == 1 {
      assert Typed(env, f, id, op, Scalar(esc), wildcard) ==
        ([env.buildClause(column, op, Some(Scalar("1")), Some("Integer"))], [Described(f, op, "Yes")]);
    } else {
      assert Typed(env, f, id, op, Scalar(esc), wildcard) ==
        ([env.buildClause(column, op, Some(Scalar("0")), Some("Integer"))], [Described(f, op, "No")]);
    }
  }

  /** A wildcard string search is always a LIKE on "%value%". */
  lemma StringWildcardIsLike(env: Helpers, f: FieldSpec, id: nat, t: Tuple)
    requires f.dataType.String? && t.wildcard && t.value.Scalar? && !(f.htmlType == "Autocomplete-Select" && t.op == "=")
    ensures var val := env.typeEscape(env.mbLower(Trim(env.escapeString(Trim(t.value.text)))), "String");
      CompileTuple(env, f, id, t).0 == [env.buildClause(Column(f), "LIKE", Some(Scalar("%" + env.mbLower(env.escapeString(val)) + "%")), Some("String"))]
  {
    ScalarTuple(env, f, id, t);
  }

  /**
   * Lines 400-412 without the wildcard: the operator is kept and the value
   * is trimmed, lower-cased and escaped as a String.
   */
  lemma StringExactIsLowered(env: Helpers, f: FieldSpec, id: nat, t: Tuple)
    requires f.dataType.String? && !t.wildcard && t.value.Scalar? && !(f.htmlType == "Autocomplete-Select" && t.op == "=")
    ensures var esc := env.escapeString(Trim(t.value.text));
      CompileTuple(env, f, id, t) ==
        ([env.buildClause(Column(f), t.op, Some(Scalar(env.typeEscape(env.mbLower(Trim(esc)), "String"))), Some("String"))],
         [Described(f, t.op, env.displayValue(Scalar(esc), id))])
  {
    ScalarTuple(env, f, id, t);
  }

  /** Lines 468-472: a single Money value is cleaned and compared as a Float, and described cleaned. */
  lemma MoneyScalarCleaned(env: Helpers, f: FieldSpec, id: nat, t: Tuple)
    requires f.dataType.Money? && t.value.Scalar?
    ensures var money := env.cleanMoney(env.escapeString(Trim(t.value.text)));
      CompileTuple(env, f, id, t) ==
        ([env.buildClause(Column(f), t.op, Some(Scalar(money)), Some("Float"))], [Described(f, t.op, money)])
  {
    ScalarTuple(env, f, id, t);
  }

  /** Lines 461-466: a Money range field searches the range of the cleaned ends. */
  lemma MoneyRangeCleaned(env: Helpers, f: FieldSpec, id: nat, t: Tuple)
    requires f.dataType.Money? && f.isSearchRange && t.value.Range?
    ensures CompileTuple(env, f, id, t) ==
      RangeOutput(env, Column(f), f.displayLabel, "Money", Range(if t.value.from.Some? then Some(env.cleanMoney(t.value.from.value)) else None,
            if t.value.to.Some? then Some(env.cleanMoney(t.value.to.value)) else None))
  {
  }

  /**
   * Lines 525-529: a state or country is compared with its value escaped as
   * an Int, without the clause builder, and described by its display value.
   */
  lemma PlaceIsIntEscaped(env: Helpers, f: FieldSpec, id: nat, t: Tuple)
    requires (f.dataType.StateProvince? || f.dataType.Country?) && t.value.Scalar?
    ensures var esc := env.escapeString(Trim(t.value.text));
      CompileTuple(env, f, id, t) ==
        ([Column(f) + " " + t.op + " " + env.typeEscape(esc, "Int")], [Described(f, t.op, env.displayValue(Scalar(esc), id))])
  {
    ScalarTuple(env, f, id, t);
    var esc := env.escapeString(Trim(t.value.text));
    assert Typed(env, f, id, t.op, Scalar(esc), t.wildcard) ==
      ([Column(f) + " " + t.op + " " + env.typeEscape(esc, "Int")], [Described(f, t.op, env.displayValue(Scalar(esc), id))]);
  }

  /**
   * Lines 416-420: a contact reference is compared as a String and described
   * by the referenced contact's sort name, or by nothing for an empty value.
   */
  lemma ContactReferenceSortName(env: Helpers, f: FieldSpec, id: nat, t: Tuple)
    requires f.dataType.ContactReference? && t.value.Scalar?
    ensures var esc := env.escapeString(Trim(t.value.text));
      CompileTuple(env, f, id, t) ==
        ([env.buildClause(Column(f), t.op, Some(Scalar(esc)), Some("String"))],
         [Described(f, t.op, if Truthy(esc) then env.sortName(Scalar(esc)) else "")])
  {
    ScalarTuple(env, f, id, t);
  }

  /**
   * Lines 484-497: a single four-digit number that the date parser accepts,
   * or any value under a null test, is searched as January 1st of that year.
   */
  lemma DateYearExpands(env: Helpers, column: string, displayLabel: string, op: string, year: string)
    requires env.isNumeric(year) && |year| == 4
    requires Truthy(env.processDate(year)) || op in NullOps
    ensures var date := env.processDate("01-01-" + year);
      DateOutput(env, column, displayLabel, op, Scalar(year)) ==
        ([env.buildClause(column, op, Some(Scalar(date)), Some("String"))], [displayLabel + " " + op + " " + env.customFormat(date)])
  {
  }

  /** Lines 484-487: a single date the parser rejects is skipped unless the operator is a null test. */
  lemma DateUnparsedSkipped(env: Helpers, column: string, displayLabel: string, op: string, v: Value)
    requires !v.Range? && !Truthy(env.processDate(Text(v))) && op !in NullOps
    ensures DateOutput(env, column, displayLabel, op, v) == ([], [])
  {
  }

  /**
   * Lines 498-522: a date range compares the column with each end that
   * parses, ">=" for the lower end first and "<=" for the upper end last,
   * a four-digit end being taken as January 1st of that year.
   */
  lemma DateRangeConditions(env: Helpers, column: string, displayLabel: string, op: string, from: Option<string>, to: Option<string>)
    requires EndTruthy(from) || EndTruthy(to)
    ensures var r := DateOutput(env, column, displayLabel, op, Range(from, to));
      var fromDate := env.processDate(YearFix(env, EndText(from)));
      var toDate := env.processDate(YearFix(env, EndText(to)));
      && (Truthy(fromDate) ==> r.0[0] == column + " >= " + fromDate && r.1[0] == displayLabel + " >= " + env.customFormat(fromDate))
      && (Truthy(toDate) ==> r.0[|r.0| - 1] == column + " <= " + toDate && r.1[|r.1| - 1] == displayLabel + " <= " + env.customFormat(toDate))
      && (forall k :: 0 <= k < |r.0| ==> r.0[k] in {column + " >= " + fromDate, column + " <= " + toDate})
  {
  }

  /** Lines 500-502: a four-digit lower end of a date range is searched from January 1st of that year. */
  lemma DateRangeYearFrom(env: Helpers, column: string, displayLabel: string, op: string, year: string, to: Option<string>)
    requires env.isNumeric(year) && |year| == 4 && Truthy(year)
    requires Truthy(env.processDate("01-01-" + year))
    ensures DateOutput(env, column, displayLabel, op, Range(Some(year), to)).0[0] == column + " >= " + env.processDate("01-01-" + year)
  {
  }
}
