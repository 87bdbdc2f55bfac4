/**
 * The query builder object: the maps `select()`, `where()` and
 * `searchRange()` fill in place, and `query()`, which runs the first two and
 * assembles the SELECT list, the JOIN block and the WHERE fragment.
 * Each method is proved against the specification functions of SelectPlan,
 * WhereCompile and WhereBuckets, or against the folds below.
 */
module CustomQueryBuilder {
  import opened Wrappers
  import opened PhpArray
  import opened PhpString
  import opened CustomTypes
  import opened CustomCatalog
  import opened SelectPlan
  import opened WhereBuckets
  import opened WhereCompile

  /** `_where` and `_qill` together. */
  datatype Buckets = Buckets(where: OMap<int, seq<string>>, qill: OMap<int, seq<string>>)

  ghost predicate BucketsValid(b: Buckets) {
    Valid(b.where) && Valid(b.qill)
  }

  /** What one tuple adds: its conditions and its descriptions, both to bucket `g`. */
  function AddEntries(b: Buckets, g: int, out: (seq<string>, seq<string>)): (r: Buckets)
    requires BucketsValid(b)
    ensures BucketsValid(r)
  {
    Buckets(AppendAll(b.where, g, out.0), AppendAll(b.qill, g, out.1))
  }

  /** The inner loop of `where()` over the tuples of one field, in order. */
  function WhereTuples(b: Buckets, env: Helpers, f: FieldSpec, id: nat, ts: seq<Tuple>): (r: Buckets)
    requires BucketsValid(b)
    ensures BucketsValid(r)
    decreases |ts|
  {
    if |ts| == 0 then b
    else WhereTuples(AddEntries(b, ts[0].grouping, CompileTuple(env, f, id, ts[0])), env, f, id, ts[1..])
  }

  /** Line 331-335: a field is compiled when the catalog knows it and its predicate list is not empty. */
  predicate Compiled(fields: OMap<nat, FieldSpec>, ids: OMap<nat, seq<Tuple>>, id: nat) {
    id in fields.vals && Filtered(ids, id)
  }

  /** The outer loop of `where()` over the remaining ids `keys` of `_ids`. */
  function WhereFrom(b: Buckets, env: Helpers, fields: OMap<nat, FieldSpec>, ids: OMap<nat, seq<Tuple>>, keys: seq<nat>): (r: Buckets)
    requires BucketsValid(b)
    ensures BucketsValid(r)
    decreases |keys|
  {
    if |keys| == 0 then b
    else
      var id := keys[0];
      var next := if Compiled(fields, ids, id) then WhereTuples(b, env, fields.vals[id], id, ids.vals[id]) else b;
      WhereFrom(next, env, fields, ids, keys[1..])
  }

  /**
   * Since every tuple adds a condition exactly when it adds a description,
   * the compiled buckets stay aligned: `_where` and `_qill` have the same
   * buckets in the same order and none is empty.
   */
  lemma {:induction false} WhereTuplesAligned(b: Buckets, env: Helpers, f: FieldSpec, id: nat, ts: seq<Tuple>)
    requires Aligned(b.where, b.qill)
    ensures var r := WhereTuples(b, env, f, id, ts); Aligned(r.where, r.qill)
    decreases |ts|
  {
    if |ts| > 0 {
      var out := CompileTuple(env, f, id, ts[0]);
      AppendKeepsAligned(b.where, b.qill, ts[0].grouping, out.0, out.1);
      WhereTuplesAligned(AddEntries(b, ts[0].grouping, out), env, f, id, ts[1..]);
    }
  }

  lemma {:induction false} WhereFromAligned(b: Buckets, env: Helpers, fields: OMap<nat, FieldSpec>, ids: OMap<nat, seq<Tuple>>, keys: seq<nat>)
    requires Aligned(b.where, b.qill)
    ensures var r := WhereFrom(b, env, fields, ids, keys); Aligned(r.where, r.qill)
    decreases |keys|
  {
    if |keys| > 0 {
      var id := keys[0];
      if Compiled(fields, ids, id) {
        WhereTuplesAligned(b, env, fields.vals[id], id, ids.vals[id]);
      }
      var next := if Compiled(fields, ids, id) then WhereTuples(b, env, fields.vals[id], id, ids.vals[id]) else b;
      WhereFromAligned(next, env, fields, ids, keys[1..]);
    }
  }

  /** No tuple of `ts` adds a condition. */
  ghost predicate Silent(env: Helpers, f: FieldSpec, id: nat, ts: seq<Tuple>) {
    forall k :: 0 <= k < |ts| ==> CompileTuple(env, f, id, ts[k]).0 == []
  }

  /** `_where` gains a bucket exactly when some tuple adds a condition. */
  lemma {:induction false} WhereTuplesEmpty(b: Buckets, env: Helpers, f: FieldSpec, id: nat, ts: seq<Tuple>)
    requires BucketsValid(b)
    ensures WhereTuples(b, env, f, id, ts).where.keys == [] <==> b.where.keys == [] && Silent(env, f, id, ts)
    decreases |ts|
  {
    if |ts| > 0 {
      var next := AddEntries(b, ts[0].grouping, CompileTuple(env, f, id, ts[0]));
      WhereTuplesEmpty(next, env, f, id, ts[1..]);
      assert next.where.keys == [] <==> b.where.keys == [] && CompileTuple(env, f, id, ts[0]).0 == [];
      assert Silent(env, f, id, ts) <==> CompileTuple(env, f, id, ts[0]).0 == [] && Silent(env, f, id, ts[1..]) by {
        assert forall k :: 0 < k < |ts| ==> ts[k] == ts[1..][k - 1];
      }
    }
  }

  /** No field among `keys` that `where()` compiles has a tuple that adds a condition. */
  ghost predicate AllSilent(env: Helpers, fields: OMap<nat, FieldSpec>, ids: OMap<nat, seq<Tuple>>, keys: seq<nat>) {
    forall k :: 0 <= k < |keys| && Compiled(fields, ids, keys[k]) ==>
      Silent(env, fields.vals[keys[k]], keys[k], ids.vals[keys[k]])
  }

  lemma {:induction false} WhereFromEmpty(b: Buckets, env: Helpers, fields: OMap<nat, FieldSpec>, ids: OMap<nat, seq<Tuple>>, keys: seq<nat>)
    requires BucketsValid(b)
    ensures WhereFrom(b, env, fields, ids, keys).where.keys == [] <==> b.where.keys == [] && AllSilent(env, fields, ids, keys)
    decreases |keys|
  {
    if |keys| > 0 {
      var id := keys[0];
      if Compiled(fields, ids, id) {
        WhereTuplesEmpty(b, env, fields.vals[id], id, ids.vals[id]);
      }
      var next := if Compiled(fields, ids, id) then WhereTuples(b, env, fields.vals[id], id, ids.vals[id]) else b;
      WhereFromEmpty(next, env, fields, ids, keys[1..]);
      assert forall k :: 0 < k < |keys| ==> keys[k] == keys[1..][k - 1];
      assert forall k :: 0 <= k < |keys| - 1 ==> keys[1..][k] == keys[k + 1];
    }
  }

  /**
   * From empty buckets, the WHERE fragment `query()` returns is NULL exactly
   * when no tuple of a field that `where()` compiles adds a condition;
   * otherwise it ORs one AND-clause per bucket.
   */
  lemma WhereNullIffSilent(env: Helpers, fields: OMap<nat, FieldSpec>, ids: OMap<nat, seq<Tuple>>)
    ensures var r := WhereFrom(Buckets(Empty(), Empty()), env, fields, ids, ids.keys);
      && (WhereString(Values(r.where)).None? <==> AllSilent(env, fields, ids, ids.keys))
      && |Clauses(Values(r.where))| == |r.where.keys|
  {
    var b := Buckets(Empty(), Empty());
    EmptyAligned();
    WhereFromAligned(b, env, fields, ids, ids.keys);
    WhereFromEmpty(b, env, fields, ids, ids.keys);
    var r := WhereFrom(b, env, fields, ids, ids.keys);
    AlignedWhereString(r.where, r.qill);
  }

  /** The rendered JOIN entries of `_tables`, as `implode` prints them. */
  function Rendered(js: seq<TableJoin>): (r: seq<string>)
    ensures |r| == |js| && forall k :: 0 <= k < |js| ==> r[k] == RenderJoin(js[k])
  {
    seq(|js|, k requires 0 <= k < |js| => RenderJoin(js[k]))
  }

  /** Two appends to one bucket are one append of both. */
  lemma AddEntriesTwice(b: Buckets, g: int, first: (seq<string>, seq<string>), second: (seq<string>, seq<string>))
    requires BucketsValid(b)
    ensures AddEntries(AddEntries(b, g, first), g, second) == AddEntries(b, g, (first.0 + second.0, first.1 + second.1))
  {
    AppendAllTwice(b.where, g, first.0, second.0);
    AppendAllTwice(b.qill, g, first.1, second.1);
  }

  class CustomQuery {
    /** `_ids`: the predicate list of each requested field, NULL and empty alike as []. */
    const ids: OMap<nat, seq<Tuple>>
    /** `_locationSpecificCustomFields`: (location type name, location type id). */
    const locations: map<nat, (string, string)>
    const contactSearch: bool
    /** `_fields` and `_options`, as the constructor's catalog load left them. */
    const fields: OMap<nat, FieldSpec>
    const options: OMap<nat, OptionEntry>

    var select: OMap<string, string>
    var element: OMap<string, int>
    var tables: OMap<string, TableJoin>
    var whereTables: OMap<string, TableJoin>
    var where: OMap<int, seq<string>>
    var qill: OMap<int, seq<string>>
    /** The contact query's "Custom Fields" pane flag, which line 315 sets. */
    var openedPanes: bool

    ghost predicate Valid()
      reads this
    {
      PlanValid(CurrentPlan()) && PhpArray.Valid(where) && PhpArray.Valid(qill)
      && CatalogValid(Catalog(fields, options)) && PhpArray.Valid(ids)
    }

    /** The maps `select()` writes. */
    ghost function CurrentPlan(): Plan
      reads this
    {
      Plan(select, element, tables, whereTables, openedPanes)
    }

    /** The maps `where()` writes. */
    ghost function CurrentBuckets(): Buckets
      reads this
    {
      Buckets(where, qill)
    }

    /**
     * Lines 144-157 and the stores of the catalog loop: a builder with empty
     * maps over an already loaded catalog (see `CustomCatalog.LoadCatalog`).
     */
    constructor (ids: OMap<nat, seq<Tuple>>, contactSearch: bool, locations: map<nat, (string, string)>, catalog: Catalog)
      requires PhpArray.Valid(ids) && CatalogValid(catalog)
      ensures Valid()
      ensures this.ids == ids && this.contactSearch == contactSearch && this.locations == locations
      ensures fields == catalog.fields && options == catalog.options
      ensures CurrentPlan() == Plan(Empty(), Empty(), Empty(), Empty(), false)
      ensures where == Empty() && qill == Empty()
    {
      this.ids := ids;
      this.locations := locations;
      this.contactSearch := contactSearch;
      this.fields := catalog.fields;
      this.options := catalog.options;
      select := Empty();
      element := Empty();
      tables := Empty();
      whereTables := Empty();
      where := Empty();
      qill := Empty();
      openedPanes := false;
    }

    /**
     * `select()`, lines 262-319: the loop over `_fields` in catalog order,
     * proved to leave the maps as `PlanFrom` states; the buckets are untouched.
     * The loop ends at the first field `SelectField` cannot join.
     */
    method Select()
      requires Valid()
      modifies this`select, this`element, this`tables, this`whereTables, this`openedPanes
      ensures Valid()
      ensures CurrentPlan() == PlanFrom(old(CurrentPlan()), Values(fields), ids, locations, contactSearch)
    {
      ghost var fs := Values(fields);
      if fields.keys == [] {
        return;
      }
      var i := 0;
      while i < |fields.keys|
        invariant 0 <= i <= |fields.keys|
        invariant Valid()
        invariant PlanFrom(CurrentPlan(), fs[i..], ids, locations, contactSearch)
               == PlanFrom(old(CurrentPlan()), fs, ids, locations, contactSearch)
      {
        ghost var before := CurrentPlan();
        var id := fields.keys[i];
        assert fs[i..][0] == fields.vals[id] && fs[i..][1..] == fs[i + 1..];
        assert fields.vals[id].id == id;
        var joined := SelectField(id);
        PlanStep(before, fs[i..], ids, locations, contactSearch, CurrentPlan());
        if !joined {
          return;
        }
        i := i + 1;
      }
      assert fs[i..] == [];
    }

    /**
     * One iteration of `select()`, lines 268-317, for the field stored under
     * `id`: `joined` is false where the source returns from `select()`.
     */
    method SelectField(id: nat) returns (joined: bool)
      requires PlanValid(CurrentPlan()) && id in fields.vals && fields.vals[id].id == id
      modifies this`select, this`element, this`tables, this`whereTables, this`openedPanes
      ensures PlanValid(CurrentPlan())
      ensures joined == Joinable(fields.vals[id])
      ensures CurrentPlan() == PlanField(old(CurrentPlan()), fields.vals[id], ids, locations, contactSearch)
    {
      var field := fields.vals[id];
      var name := field.tableName;
      var fieldName := "custom_" + NatToString(field.id);
      select := Put(select, name + "_id", name + ".id as " + name + "_id");
      element := Put(element, name + "_id", 1);
      select := Put(select, fieldName, field.tableName + "." + field.columnName + " as " + fieldName);
      element := Put(element, fieldName, 1);
      assert CurrentPlan() == Projections(old(CurrentPlan()), field);
      var joinTable: string;
      JoinTableCases(field.hostTable);
      if field.hostTable == Some("civicrm_group") {
        return false;
      } else if field.hostTable == Some("civicrm_contact") {
        joinTable := "contact_a";
      } else if field.hostTable == Some("civicrm_contribution") {
        joinTable := field.hostTable.value;
      } else if field.hostTable.Some? && field.hostTable.value in ExtendsMap.Values {
        joinTable := field.hostTable.value;
      } else {
        return false;
      }
      assert JoinTable(field.hostTable) == Some(joinTable);
      JoinField(id, name, joinTable);
      joined := true;
    }

    /**
     * Lines 292-316: the custom-value table's join, the location alias, and
     * the entries of the host table's join or the contact pane flag.
     */
    method JoinField(id: nat, name: string, joinTable: string)
      requires PlanValid(CurrentPlan())
      modifies this`tables, this`whereTables, this`openedPanes
      ensures PlanValid(CurrentPlan())
      ensures CurrentPlan() == Joins(old(CurrentPlan()), name, joinTable, Filtered(ids, id), Location(locations, id), contactSearch)
    {
      tables := Put(tables, name, JoinSql(PlainJoin(name, joinTable)));
      if Filtered(ids, id) {
        whereTables := Put(whereTables, name, tables.vals[name]);
      }
      var joinClause := JoinPlaceholder;
      var joinTableAlias := joinTable;
      if id in locations {
        var (locationType, locationTypeId) := locations[id];
        joinTableAlias := LocationAlias(locationType);
        joinClause := JoinSql(LocationJoin(joinTable, locationType, locationTypeId));
      }
      tables := Put(tables, name, JoinSql(AliasedJoin(name, joinTableAlias)));
      if Filtered(ids, id) {
        whereTables := Put(whereTables, name, tables.vals[name]);
      }
      assert CurrentPlan() == CustomJoin(old(CurrentPlan()), name, joinTable, JoinAlias(joinTable, Location(locations, id)), Filtered(ids, id));
      if joinTable != "contact_a" {
        tables := Put(tables, joinTableAlias, joinClause);
        whereTables := Put(whereTables, joinTableAlias, joinClause);
      } else if contactSearch {
        openedPanes := true;
      }
    }

    /** `$this->_where[$grouping][] = $w; $this->_qill[$grouping][] = $q;` */
    method Push(g: int, w: string, q: string)
      requires BucketsValid(CurrentBuckets())
      modifies this`where, this`qill
      ensures BucketsValid(CurrentBuckets())
      ensures CurrentBuckets() == AddEntries(old(CurrentBuckets()), g, ([w], [q]))
    {
      where := AppendAll(where, g, [w]);
      qill := AppendAll(qill, g, [q]);
    }

    /**
     * `searchRange()`, lines 591-620: proved to add the conditions and the
     * description `RangeOutput` states to bucket `grouping`.
     */
    method SearchRange(env: Helpers, displayLabel: string, dataType: string, fieldName: string, value: Value, grouping: int)
      requires BucketsValid(CurrentBuckets())
      modifies this`where, this`qill
      ensures BucketsValid(CurrentBuckets())
      ensures CurrentBuckets() == AddEntries(old(CurrentBuckets()), grouping, RangeOutput(env, fieldName, displayLabel, dataType, value))
    {
      var qillParts: seq<string> := [];
      ghost var expected := RangeOutput(env, fieldName, displayLabel, dataType, value);
      ghost var ws: seq<string> := [];
      if FromOf(value).Some? {
        var val := env.typeEscape(FromOf(value).value, dataType);
        var entry := if dataType == "String" then fieldName + " >= " + Quote(val) else fieldName + " >= " + val;
        AppendAllTwice(old(where), grouping, ws, [entry]);
        where := AppendAll(where, grouping, [entry]);
        ws := ws + [entry];
        qillParts := qillParts + ["greater than or equal to " + Quote(FromOf(value).value)];
      }
      if ToOf(value).Some? {
        var val := env.typeEscape(ToOf(value).value, dataType);
        var entry := if dataType == "String" then fieldName + " <= " + Quote(val) else fieldName + " <= " + val;
        AppendAllTwice(old(where), grouping, ws, [entry]);
        where := AppendAll(where, grouping, [entry]);
        ws := ws + [entry];
        qillParts := qillParts + ["less than or equal to " + Quote(ToOf(value).value)];
      }
      assert ws == expected.0;
      if qillParts != [] {
        qill := AppendAll(qill, grouping, [displayLabel + " - " + Join(" and ", qillParts)]);
      }
    }

    /**
     * The body of `where()`'s inner loop, lines 340-546, for one tuple of
     * the field stored under `id`: proved to add what `CompileTuple` states.
     */
    method AddTuple(env: Helpers, id: nat, t: Tuple)
      requires BucketsValid(CurrentBuckets()) && id in fields.vals
      modifies this`where, this`qill
      ensures BucketsValid(CurrentBuckets())
      ensures CurrentBuckets() == AddEntries(old(CurrentBuckets()), t.grouping, CompileTuple(env, fields.vals[id], id, t))
    {
      var field := fields.vals[id];
      var value := t.value;
      if field.dataType.String? && field.htmlType == "Autocomplete-Select" && t.op == "=" {
        value := if value.Scalar? then List(Split(value.text, ',')) else Scalar("");
      }
      assert value == Autocomplete(field, t.op, t.value);
      if value.IsArray() && !field.isSearchRange {
        var whereEntry, qillEntry := MultiValueClause(env, field, t.name, t.op, value, t.wildcard);
        Push(t.grouping, whereEntry, qillEntry);
        return;
      }
      if !value.IsArray() {
        value := Scalar(env.escapeString(Trim(value.text)));
      }
      AddTyped(env, id, t.op, value, t.grouping, t.wildcard);
    }

    /**
     * The switch on the data type, lines 386-546, for a value that did not
     * take the multi-value branch: proved to add what `Typed` states.
     */
    method AddTyped(env: Helpers, id: nat, op: string, value: Value, grouping: int, wildcard: bool)
      requires BucketsValid(CurrentBuckets()) && id in fields.vals
      modifies this`where, this`qill
      ensures BucketsValid(CurrentBuckets())
      ensures CurrentBuckets() == AddEntries(old(CurrentBuckets()), grouping, Typed(env, fields.vals[id], id, op, value, wildcard))
    {
      var field := fields.vals[id];
      var fieldName := Column(field);
      var qillValue := env.displayValue(value, id);
      var range := field.isSearchRange && value.IsArray();
      match field.dataType
      case String =>
        if range {
          SearchRange(env, field.displayLabel, TypeName(field.dataType), fieldName, value, grouping);
        } else {
          var val := env.typeEscape(env.mbLower(Trim(Text(value))), "String");
          var op' := op;
          if wildcard {
            val := env.mbLower(env.escapeString(val));
            val := "%" + val + "%";
            op' := "LIKE";
          }
          Push(grouping, env.buildClause(fieldName, op', Some(Scalar(val)), Some("String")), field.displayLabel + " " + op' + " " + qillValue);
        }
      case ContactReference =>
        var sortName := if ValueTruthy(value) then env.sortName(value) else "";
        Push(grouping, env.buildClause(fieldName, op, Some(value), Some("String")), field.displayLabel + " " + op + " " + sortName);
      case Int =>
        if range {
          SearchRange(env, field.displayLabel, TypeName(field.dataType), fieldName, value, grouping);
        } else {
          Push(grouping, env.buildClause(fieldName, op, Some(value), Some("Integer")), field.displayLabel + " " + op + " " + Text(value));
        }
      case Boolean =>
        // `ts('Yes')` is the identity, so the localized test is the same "yes" test.
        var b: int;
        if value.Scalar? && Lower(value.text) == "yes" {
          b := 1;
        } else {
          b := if value.Scalar? then IntVal(value.text) else if |Elements(value)| > 0 then 1 else 0;
        }
        b := if b == 1 then 1 else 0;
        Push(grouping, env.buildClause(fieldName, op, Some(Scalar(if b == 1 then "1" else "0")), Some("Integer")),
          field.displayLabel + " " + op + " " + (if b == 1 then "Yes" else "No"));
      case Link =>
        Push(grouping, env.buildClause(fieldName, op, Some(value), Some("String")), field.displayLabel + " " + op + " " + Text(value));
      case Float =>
        if range {
          SearchRange(env, field.displayLabel, TypeName(field.dataType), fieldName, value, grouping);
        } else {
          Push(grouping, env.buildClause(fieldName, op, Some(value), Some("Float")), field.displayLabel + " " + op + " " + Text(value));
        }
      case Money =>
        if range {
          var cleaned := CleanMoney(env, value);
          SearchRange(env, field.displayLabel, TypeName(field.dataType), fieldName, cleaned, grouping);
        } else {
          var money := env.cleanMoney(Text(value));
          Push(grouping, env.buildClause(fieldName, op, Some(Scalar(money)), Some("Float")), field.displayLabel + " " + op + " " + money);
        }
      case Memo =>
        Push(grouping, env.buildClause(fieldName, op, Some(value), Some("String")), field.displayLabel + " " + op + " " + Text(value));
      case Date =>
        AddDate(env, field, op, value, grouping);
      case StateProvince =>
        Push(grouping, fieldName + " " + op + " " + env.typeEscape(Text(value), "Int"), field.displayLabel + " " + op + " " + qillValue);
      case Country =>
        Push(grouping, fieldName + " " + op + " " + env.typeEscape(Text(value), "Int"), field.displayLabel + " " + op + " " + qillValue);
      case File =>
        if op == "IS NULL" || op == "IS NOT NULL" || op == "IS EMPTY" || op == "IS NOT EMPTY" {
          var op' := op;
          if op == "IS EMPTY" {
            op' := "IS NULL";
          } else if op == "IS NOT EMPTY" {
            op' := "IS NOT NULL";
          }
          Push(grouping, env.buildClause(fieldName, op', None, None), field.displayLabel + " " + op' + " ");
        }
      case OtherType(_) =>
    }

    /** The Date case, lines 481-523: proved to add what `DateOutput` states. */
    method AddDate(env: Helpers, field: FieldSpec, op: string, value: Value, grouping: int)
      requires BucketsValid(CurrentBuckets())
      modifies this`where, this`qill
      ensures BucketsValid(CurrentBuckets())
      ensures CurrentBuckets() == AddEntries(old(CurrentBuckets()), grouping, DateOutput(env, Column(field), field.displayLabel, op, value))
    {
      var fieldName := Column(field);
      var fromValue, toValue := FromOf(value), ToOf(value);
      if !EndTruthy(fromValue) && !EndTruthy(toValue) {
        if !Truthy(env.processDate(Text(value))) && op !in NullOps {
          return;
        }
        var text := Text(value);
        if value.Scalar? && env.isNumeric(text) && |text| == 4 {
          text := "01-01-" + text;
        }
        var date := env.processDate(text);
        Push(grouping, env.buildClause(fieldName, op, Some(Scalar(date)), Some("String")), field.displayLabel + " " + op + " " + env.customFormat(date));
      } else {
        var from, to := EndText(fromValue), EndText(toValue);
        if env.isNumeric(from) && |from| == 4 {
          from := "01-01-" + from;
        }
        if env.isNumeric(to) && |to| == 4 {
          to := "01-01-" + to;
        }
        var fromDate, toDate := env.processDate(from), env.processDate(to);
        if !Truthy(fromDate) && !Truthy(toDate) {
          return;
        }
        ghost var start := CurrentBuckets();
        assert start == old(CurrentBuckets());
        ghost var expected := DateOutput(env, Column(field), field.displayLabel, op, value);
        assert from == YearFix(env, EndText(fromValue)) && to == YearFix(env, EndText(toValue));
        ghost var first: (seq<string>, seq<string>) := ([], []);
        if Truthy(fromDate) {
          var whereEntry, qillEntry := fieldName + " >= " + fromDate, field.displayLabel + " >= " + env.customFormat(fromDate);
          Push(grouping, whereEntry, qillEntry);
          first := ([whereEntry], [qillEntry]);
        }
        assert CurrentBuckets() == AddEntries(start, grouping, first);
        if Truthy(toDate) {
          var whereEntry, qillEntry := fieldName + " <= " + toDate, field.displayLabel + " <= " + env.customFormat(toDate);
          Push(grouping, whereEntry, qillEntry);
          AddEntriesTwice(start, grouping, first, ([whereEntry], [qillEntry]));
          assert expected == (first.0 + [whereEntry], first.1 + [qillEntry]);
        } else {
          assert first.0 + [] == first.0 && first.1 + [] == first.1;
          assert expected == first;
        }
      }
    }

    /**
     * `where()`, lines 327-549: the loop over `_ids` and, for each field the
     * catalog knows and that has predicates, over its tuples in order.
     */
    method Where(env: Helpers)
      requires BucketsValid(CurrentBuckets()) && PhpArray.Valid(ids)
      modifies this`where, this`qill
      ensures BucketsValid(CurrentBuckets())
      ensures CurrentBuckets() == WhereFrom(old(CurrentBuckets()), env, fields, ids, ids.keys)
    {
      var i := 0;
      while i < |ids.keys|
        invariant 0 <= i <= |ids.keys|
        invariant BucketsValid(CurrentBuckets())
        invariant WhereFrom(CurrentBuckets(), env, fields, ids, ids.keys[i..])
               == WhereFrom(old(CurrentBuckets()), env, fields, ids, ids.keys)
      {
        var id := ids.keys[i];
        assert ids.keys[i..][0] == id && ids.keys[i..][1..] == ids.keys[i + 1..];
        var values := ids.vals[id];
        if id !in fields.vals || values == [] {
          i := i + 1;
          continue;
        }
        ghost var before := CurrentBuckets();
        var j := 0;
        while j < |values|
          invariant 0 <= j <= |values|
          invariant BucketsValid(CurrentBuckets())
          invariant WhereTuples(CurrentBuckets(), env, fields.vals[id], id, values[j..])
                 == WhereTuples(before, env, fields.vals[id], id, values)
        {
          assert values[j..][0] == values[j] && values[j..][1..] == values[j + 1..];
          AddTuple(env, id, values[j]);
          j := j + 1;
        }
        assert values[j..] == [];
        i := i + 1;
      }
      assert ids.keys[i..] == [];
    }

    /**
     * `query()`, lines 558-581: runs `select()` and `where()`, then returns
     * the SELECT entries joined by " , ", the JOIN entries joined by " ",
     * both in insertion order, and the WHERE fragment of the buckets.
     */
    method Query(env: Helpers) returns (selectList: string, joins: string, whereStr: Option<string>)
      requires Valid()
      modifies this`select, this`element, this`tables, this`whereTables, this`openedPanes, this`where, this`qill
      ensures Valid()
      ensures CurrentPlan() == PlanFrom(old(CurrentPlan()), Values(fields), ids, locations, contactSearch)
      ensures CurrentBuckets() == WhereFrom(old(CurrentBuckets()), env, fields, ids, ids.keys)
      ensures selectList == Join(" , ", Values(select))
      ensures joins == Join(" ", Rendered(Values(tables)))
      ensures whereStr == WhereString(Values(where))
      ensures Aligned(old(where), old(qill)) ==> Aligned(where, qill)
    {
      Select();
      Where(env);
      if Aligned(old(where), old(qill)) {
        WhereFromAligned(old(CurrentBuckets()), env, fields, ids, ids.keys);
      }
      whereStr := ComposeWhere(where);
      selectList := Join(" , ", Values(select));
      joins := Join(" ", Rendered(Values(tables)));
    }
  }
}
