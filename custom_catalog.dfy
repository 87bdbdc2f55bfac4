/**
 * The constructor's metadata step: from the fetched catalog rows, build
 * `_fields` and the attribute part of `_options`, resolving each custom
 * group's `extends` to its host table and deciding whether the field's
 * option group is needed.  An option widget without an option group is a
 * corrupt field and stops the request with a fatal error.
 */
module CustomCatalog {
  import opened Wrappers
  import opened PhpArray
  import opened CustomTypes

  /** `$extendsMap`: entity class to host table. */
  const ExtendsMap: map<string, string> := map[
    "Contact" := "civicrm_contact",
    "Individual" := "civicrm_contact",
    "Household" := "civicrm_contact",
    "Organization" := "civicrm_contact",
    "Contribution" := "civicrm_contribution",
    "ContributionRecur" := "civicrm_contribution_recur",
    "Membership" := "civicrm_membership",
    "Participant" := "civicrm_participant",
    "Group" := "civicrm_group",
    "Relationship" := "civicrm_relationship",
    "Event" := "civicrm_event",
    "Case" := "civicrm_case",
    "Activity" := "civicrm_activity",
    "Pledge" := "civicrm_pledge",
    "Grant" := "civicrm_grant",
    "Address" := "civicrm_address",
    "Campaign" := "civicrm_campaign",
    "Survey" := "civicrm_survey"]

  /** The widgets whose values come from an option group. */
  const OptionWidgets: set<string> :=
    {"CheckBox", "Radio", "Select", "Multi-Select", "AdvMulti-Select", "Autocomplete-Select"}

  /** PHP's truth test on `option_group_id`: NULL and 0 are unset. */
  predicate GroupSet(g: Option<nat>) {
    g.Some? && g.value != 0
  }

  /**
   * The host table of a row.  A contact subtype folds to the contact table.
   * Any other value leaves `$extendsTable` as the previous row left it,
   * since the PHP variable outlives the loop iteration.
   */
  function ResolveExtends(groupExtends: Option<string>, subTypes: set<string>, previous: Option<string>): (r: Option<string>)
    ensures groupExtends.Some? && groupExtends.value in ExtendsMap ==> r == Some(ExtendsMap[groupExtends.value])
    ensures groupExtends.Some? && groupExtends.value !in ExtendsMap && groupExtends.value in subTypes ==> r == Some("civicrm_contact")
    ensures (groupExtends.None? || (groupExtends.value !in ExtendsMap && groupExtends.value !in subTypes)) ==> r == previous
  {
    if groupExtends.Some? && groupExtends.value in ExtendsMap then Some(ExtendsMap[groupExtends.value])
    else if groupExtends.Some? && groupExtends.value in subTypes then Some(ExtendsMap["Contact"])
    else previous
  }

  /** The catalog-corruption condition of the constructor. */
  predicate IsCorrupt(row: CatalogRow) {
    row.htmlType in OptionWidgets && row.dataType != "ContactReference"
    && !GroupSet(row.optionGroupId) && row.dataType != "Boolean"
  }

  /** The fatal message, with the field's label in place of %1. */
  function CorruptMessage(displayLabel: string): string {
    "The custom field " + displayLabel + " is corrupt. Please delete and re-build the field"
  }

  /**
   * One loop iteration of the constructor over a fetched row: the field
   * record, its options-cache entry, or the fatal error.
   */
  function ClassifyRow(row: CatalogRow, subTypes: set<string>, previous: Option<string>): (r: Result<(FieldSpec, OptionEntry), string>)
    ensures r.Failure? <==> IsCorrupt(row)
    ensures r.Failure? ==> r.error == CorruptMessage(row.displayLabel)
    ensures r.Success? ==> r.value.0 == FieldSpec(row.id, row.displayLabel, ResolveExtends(row.groupExtends, subTypes, previous),
      ParseDataType(row.dataType), row.htmlType, row.isSearchRange, row.columnName, row.tableName, row.optionGroupId)
    ensures r.Success? ==> (r.value.1.optionGroup.Some? <==>
      row.htmlType in OptionWidgets && row.dataType != "ContactReference" && GroupSet(row.optionGroupId))
    ensures r.Success? && r.value.1.optionGroup.Some? ==> r.value.1.optionGroup == row.optionGroupId
    ensures r.Success? ==> (r.value.1.attributes.displayLabel == row.displayLabel
      && r.value.1.attributes.dataType == row.dataType && r.value.1.attributes.htmlType == row.htmlType)
    ensures r.Success? ==> (r.value.1.attributes.dateFormat.Some? <==> row.htmlType == "Select Date")
    ensures r.Success? ==> (r.value.1.attributes.timeFormat.Some? <==> row.htmlType == "Select Date")
    ensures r.Success? && row.htmlType == "Select Date" ==>
      r.value.1.attributes.dateFormat == Some(row.dateFormat) && r.value.1.attributes.timeFormat == Some(row.timeFormat)
  {
    var field := FieldSpec(row.id, row.displayLabel, ResolveExtends(row.groupExtends, subTypes, previous),
      ParseDataType(row.dataType), row.htmlType, row.isSearchRange, row.columnName, row.tableName, row.optionGroupId);
    var attributes := Attributes(row.displayLabel, row.dataType, row.htmlType, None, None);
    if row.htmlType in OptionWidgets && row.dataType != "ContactReference" then
      if GroupSet(row.optionGroupId) then Success((field, OptionEntry(attributes, row.optionGroupId)))
      else if row.dataType != "Boolean" then Failure(CorruptMessage(row.displayLabel))
      else Success((field, OptionEntry(attributes, None)))
    else if row.htmlType == "Select Date" then
      Success((field, OptionEntry(attributes.(dateFormat := Some(row.dateFormat), timeFormat := Some(row.timeFormat)), None)))
    else Success((field, OptionEntry(attributes, None)))
  }

  /** Both maps are well formed and every field is stored under its own id. */
  ghost predicate CatalogValid(c: Catalog) {
    Valid(c.fields) && Valid(c.options)
    && (forall id :: id in c.fields.vals ==> c.fields.vals[id].id == id)
    && c.fields.vals.Keys == c.options.vals.Keys
  }

  function EmptyCatalog(): (c: Catalog)
    ensures CatalogValid(c) && c.fields.keys == []
  {
    Catalog(Empty(), Empty())
  }

  /**
   * Storing one classified row: its field record under `_fields[id]` and its
   * options-cache entry under the same id.
   */
  function Store(c: Catalog, row: CatalogRow, entry: (FieldSpec, OptionEntry)): (r: Catalog)
    requires CatalogValid(c) && entry.0.id == row.id
    ensures CatalogValid(r)
    ensures row.id in r.fields.vals && r.fields.vals[row.id] == entry.0 && r.options.vals[row.id] == entry.1
    ensures forall id :: id in c.fields.vals && id != row.id ==> id in r.fields.vals && r.fields.vals[id] == c.fields.vals[id]
    ensures forall id :: id in c.options.vals && id != row.id ==> id in r.options.vals && r.options.vals[id] == c.options.vals[id]
  {
    Catalog(Put(c.fields, row.id, entry.0), Put(c.options, row.id, entry.1))
  }

  /**
   * The rest of the fetch loop from catalog `c`, with `previous` the value
   * `$extendsTable` holds: the first corrupt row aborts the whole load.
   */
  function LoadFrom(c: Catalog, previous: Option<string>, rows: seq<CatalogRow>, subTypes: set<string>): (r: Result<Catalog, string>)
    requires CatalogValid(c)
    ensures r.Failure? <==> exists k {:trigger IsCorrupt(rows[k])} :: 0 <= k < |rows| && IsCorrupt(rows[k])
    ensures r.Success? ==> CatalogValid(r.value)
    decreases |rows|
  {
    if |rows| == 0 then Success(c)
    else
      match ClassifyRow(rows[0], subTypes, previous)
      case Failure(e) => Failure(e)
      case Success(entry) =>
        var next := Store(c, rows[0], entry);
        var r := LoadFrom(next, entry.0.hostTable, rows[1..], subTypes);
        assert forall k :: 0 < k < |rows| ==> rows[k] == rows[1..][k - 1];
        r
  }

  /** One step of the fetch loop over a row that is not corrupt. */
  lemma LoadStep(c: Catalog, previous: Option<string>, rows: seq<CatalogRow>, subTypes: set<string>, entry: (FieldSpec, OptionEntry))
    requires CatalogValid(c) && |rows| > 0 && ClassifyRow(rows[0], subTypes, previous) == Success(entry)
    ensures LoadFrom(c, previous, rows, subTypes) == LoadFrom(Store(c, rows[0], entry), entry.0.hostTable, rows[1..], subTypes)
  {
  }

  /** The ids of the fetched rows. */
  ghost function RowIds(rows: seq<CatalogRow>): set<nat> {
    set k | 0 <= k < |rows| :: rows[k].id
  }

  /** A successful load stores a field under the id of every fetched row. */
  lemma {:induction false} LoadStoresEveryRow(c: Catalog, previous: Option<string>, rows: seq<CatalogRow>, subTypes: set<string>)
    requires CatalogValid(c)
    requires LoadFrom(c, previous, rows, subTypes).Success?
    ensures forall k :: 0 <= k < |rows| ==> rows[k].id in LoadFrom(c, previous, rows, subTypes).value.fields.vals
    decreases |rows|
  {
    if |rows| > 0 {
      var entry := ClassifyRow(rows[0], subTypes, previous).value;
      var next := Store(c, rows[0], entry);
      assert LoadFrom(c, previous, rows, subTypes) == LoadFrom(next, entry.0.hostTable, rows[1..], subTypes);
      LoadStoresEveryRow(next, entry.0.hostTable, rows[1..], subTypes);
      LoadAddsOnlyRows(next, entry.0.hostTable, rows[1..], subTypes);
      var f := LoadFrom(c, previous, rows, subTypes).value.fields;
      forall k | 0 <= k < |rows| ensures rows[k].id in f.vals {
        if k > 0 {
          assert rows[k] == rows[1..][k - 1];
        }
      }
    }
  }

  /** A successful load adds fields only for fetched rows and drops none. */
  lemma {:induction false} LoadAddsOnlyRows(c: Catalog, previous: Option<string>, rows: seq<CatalogRow>, subTypes: set<string>)
    requires CatalogValid(c)
    requires LoadFrom(c, previous, rows, subTypes).Success?
    ensures c.fields.vals.Keys <= LoadFrom(c, previous, rows, subTypes).value.fields.vals.Keys
    ensures LoadFrom(c, previous, rows, subTypes).value.fields.vals.Keys <= c.fields.vals.Keys + RowIds(rows)
    decreases |rows|
  {
    if |rows| > 0 {
      var entry := ClassifyRow(rows[0], subTypes, previous).value;
      var next := Store(c, rows[0], entry);
      assert LoadFrom(c, previous, rows, subTypes) == LoadFrom(next, entry.0.hostTable, rows[1..], subTypes);
      LoadAddsOnlyRows(next, entry.0.hostTable, rows[1..], subTypes);
      RowIdsCons(rows);
    }
  }

  /** The ids of the fetched rows, in fetch order. */
  function RowIdSeq(rows: seq<CatalogRow>): (r: seq<nat>)
    ensures |r| == |rows| && forall k :: 0 <= k < |rows| ==> r[k] == rows[k].id
  {
    seq(|rows|, k requires 0 <= k < |rows| => rows[k].id)
  }

  /** No two fetched rows share an id, as the catalog query selects fields by primary key. */
  predicate DistinctIds(rows: seq<CatalogRow>) {
    forall j, k :: 0 <= j < k < |rows| ==> rows[j].id != rows[k].id
  }

  /**
   * A successful load of rows with new, distinct ids appends their fields
   * in fetch order, which is the order in which `select()` visits them.
   */
  lemma {:induction false} LoadFetchOrder(c: Catalog, previous: Option<string>, rows: seq<CatalogRow>, subTypes: set<string>)
    requires CatalogValid(c)
    requires LoadFrom(c, previous, rows, subTypes).Success?
    requires DistinctIds(rows)
    requires forall k :: 0 <= k < |rows| ==> rows[k].id !in c.fields.vals
    ensures LoadFrom(c, previous, rows, subTypes).value.fields.keys == c.fields.keys + RowIdSeq(rows)
    decreases |rows|
  {
    if |rows| > 0 {
      var entry := ClassifyRow(rows[0], subTypes, previous).value;
      var next := Store(c, rows[0], entry);
      assert LoadFrom(c, previous, rows, subTypes) == LoadFrom(next, entry.0.hostTable, rows[1..], subTypes);
      assert next.fields.keys == c.fields.keys + [rows[0].id];
      DistinctTail(rows, c.fields.vals.Keys);
      assert forall k :: 0 <= k < |rows[1..]| ==> rows[1..][k].id !in next.fields.vals;
      LoadFetchOrder(next, entry.0.hostTable, rows[1..], subTypes);
      RowIdSeqCons(rows);
      AppendThenRest(c.fields.keys, rows[0].id, RowIdSeq(rows[1..]));
    }
  }

  lemma RowIdSeqCons(rows: seq<CatalogRow>)
    requires |rows| > 0
    ensures RowIdSeq(rows) == [rows[0].id] + RowIdSeq(rows[1..])
  {
    assert RowIdSeq(rows) == [rows[0].id] + RowIdSeq(rows[1..]);
  }

  lemma AppendThenRest(keys: seq<nat>, first: nat, rest: seq<nat>)
    ensures keys + [first] + rest == keys + ([first] + rest)
  {
  }

  /** The rows after the first keep distinct ids, none of them the first row's. */
  lemma DistinctTail(rows: seq<CatalogRow>, used: set<nat>)
    requires |rows| > 0 && DistinctIds(rows)
    requires forall k :: 0 <= k < |rows| ==> rows[k].id !in used
    ensures DistinctIds(rows[1..])
    ensures forall k :: 0 <= k < |rows[1..]| ==> rows[1..][k].id !in used && rows[1..][k].id != rows[0].id
  {
    assert forall k :: 0 <= k < |rows[1..]| ==> rows[1..][k] == rows[k + 1];
  }

  lemma RowIdsCons(rows: seq<CatalogRow>)
    requires |rows| > 0
    ensures RowIds(rows) == {rows[0].id} + RowIds(rows[1..])
  {
    assert forall k :: 0 < k < |rows| ==> rows[k] == rows[1..][k - 1];
    assert forall k :: 0 <= k < |rows| - 1 ==> rows[1..][k] == rows[k + 1];
  }

  /**
   * The value `$extendsTable` holds when the loop reaches `rows[k]`: the
   * groups of the rows before it have each resolved it in turn, starting
   * from `previous`.
   */
  function HostAt(previous: Option<string>, rows: seq<CatalogRow>, subTypes: set<string>, k: nat): Option<string>
    requires k <= |rows|
    decreases k
  {
    if k == 0 then previous
    else HostAt(ResolveExtends(rows[0].groupExtends, subTypes, previous), rows[1..], subTypes, k - 1)
  }

  /** `_fields[row.id]` and `_options[row.id]` hold the record the row was classified as. */
  predicate StoredAs(c: Catalog, row: CatalogRow, classified: Result<(FieldSpec, OptionEntry), string>) {
    classified.Success? && row.id in c.fields.vals && row.id in c.options.vals
    && c.fields.vals[row.id] == classified.value.0 && c.options.vals[row.id] == classified.value.1
  }

  lemma TailAvoids(rows: seq<CatalogRow>, id: nat)
    requires |rows| > 0 && forall k :: 0 <= k < |rows| ==> rows[k].id != id
    ensures forall k :: 0 <= k < |rows[1..]| ==> rows[1..][k].id != id
  {
    assert forall k :: 0 <= k < |rows[1..]| ==> rows[1..][k] == rows[k + 1];
  }

  /** A load leaves alone the entries of ids it does not fetch. */
  lemma {:induction false} LoadKeepsOthers(c: Catalog, previous: Option<string>, rows: seq<CatalogRow>, subTypes: set<string>, id: nat)
    requires CatalogValid(c)
    requires LoadFrom(c, previous, rows, subTypes).Success?
    requires id in c.fields.vals
    requires forall k :: 0 <= k < |rows| ==> rows[k].id != id
    ensures var r := LoadFrom(c, previous, rows, subTypes).value;
            id in r.fields.vals && id in r.options.vals
            && r.fields.vals[id] == c.fields.vals[id] && r.options.vals[id] == c.options.vals[id]
    decreases |rows|
  {
    if |rows| > 0 {
      var entry := ClassifyRow(rows[0], subTypes, previous).value;
      LoadStep(c, previous, rows, subTypes, entry);
      var next := Store(c, rows[0], entry);
      assert rows[0].id != id;
      TailAvoids(rows, id);
      LoadKeepsOthers(next, entry.0.hostTable, rows[1..], subTypes, id);
    }
  }

  /**
   * What a successful load stores: for each fetched row, the field record
   * and options-cache entry the row is classified as, with `$extendsTable`
   * as the rows before it left it.
   */
  lemma {:induction false} LoadStoresRecords(c: Catalog, previous: Option<string>, rows: seq<CatalogRow>, subTypes: set<string>)
    requires CatalogValid(c)
    requires LoadFrom(c, previous, rows, subTypes).Success?
    requires DistinctIds(rows)
    ensures forall k :: 0 <= k < |rows| ==>
      StoredAs(LoadFrom(c, previous, rows, subTypes).value, rows[k], ClassifyRow(rows[k], subTypes, HostAt(previous, rows, subTypes, k)))
    decreases |rows|
  {
    if |rows| > 0 {
      var entry := ClassifyRow(rows[0], subTypes, previous).value;
      var next := Store(c, rows[0], entry);
      var host := entry.0.hostTable;
      assert host == ResolveExtends(rows[0].groupExtends, subTypes, previous);
      var r := LoadFrom(c, previous, rows, subTypes);
      assert r == LoadFrom(next, host, rows[1..], subTypes);
      DistinctTail(rows, {});
      LoadStoresRecords(next, host, rows[1..], subTypes);
      LoadKeepsOthers(next, host, rows[1..], subTypes, rows[0].id);
      forall k | 0 <= k < |rows|
        ensures StoredAs(r.value, rows[k], ClassifyRow(rows[k], subTypes, HostAt(previous, rows, subTypes, k)))
      {
        if k > 0 {
          assert rows[k] == rows[1..][k - 1];
          assert HostAt(previous, rows, subTypes, k) == HostAt(host, rows[1..], subTypes, k - 1);
        }
      }
    }
  }

  /** The first corrupt row names the fatal message. */
  lemma {:induction false} LoadReportsFirstCorrupt(c: Catalog, previous: Option<string>, rows: seq<CatalogRow>, subTypes: set<string>, k: nat)
    requires CatalogValid(c)
    requires k < |rows| && IsCorrupt(rows[k])
    requires forall j :: 0 <= j < k ==> !IsCorrupt(rows[j])
    ensures LoadFrom(c, previous, rows, subTypes) == Failure(CorruptMessage(rows[k].displayLabel))
    decreases k
  {
    if k > 0 {
      var entry := ClassifyRow(rows[0], subTypes, previous).value;
      var next := Store(c, rows[0], entry);
      LoadReportsFirstCorrupt(next, entry.0.hostTable, rows[1..], subTypes, k - 1);
    }
  }

  /**
   * The body of the constructor's fetch loop for one row, with `extendsTable`
   * the host table the previous rows left behind.
   */
  method ClassifyFetched(row: CatalogRow, subTypes: set<string>, extendsTable: Option<string>) returns (r: Result<(FieldSpec, OptionEntry), string>)
    ensures r == ClassifyRow(row, subTypes, extendsTable)
  {
    var hostTable := extendsTable;
    if row.groupExtends.Some? && row.groupExtends.value in ExtendsMap {
      hostTable := Some(ExtendsMap[row.groupExtends.value]);
    } else if row.groupExtends.Some? && row.groupExtends.value in subTypes {
      hostTable := Some(ExtendsMap["Contact"]);
    }
    assert hostTable == ResolveExtends(row.groupExtends, subTypes, extendsTable);
    var field := FieldSpec(row.id, row.displayLabel, hostTable, ParseDataType(row.dataType), row.htmlType,
      row.isSearchRange, row.columnName, row.tableName, row.optionGroupId);
    var attributes := Attributes(row.displayLabel, row.dataType, row.htmlType, None, None);
    var optionGroupId: Option<nat> := None;
    if row.htmlType in OptionWidgets && row.dataType != "ContactReference" {
      if GroupSet(row.optionGroupId) {
        optionGroupId := row.optionGroupId;
      } else if row.dataType != "Boolean" {
        return Failure(CorruptMessage(row.displayLabel));
      }
    } else if row.htmlType == "Select Date" {
      attributes := attributes.(dateFormat := Some(row.dateFormat), timeFormat := Some(row.timeFormat));
    }
    r := Success((field, OptionEntry(attributes, optionGroupId)));
  }

  /**
   * The constructor's catalog load: nothing is fetched when `_ids` is empty;
   * otherwise every fetched row is classified in order until one is corrupt.
   */
  method LoadCatalog<T>(ids: OMap<nat, T>, rows: seq<CatalogRow>, subTypes: set<string>) returns (r: Result<Catalog, string>)
    ensures ids.keys == [] ==> r == Success(EmptyCatalog())
    ensures ids.keys != [] ==> r == LoadFrom(EmptyCatalog(), None, rows, subTypes)
    ensures ids.keys != [] ==> (r.Failure? <==> exists k {:trigger IsCorrupt(rows[k])} :: 0 <= k < |rows| && IsCorrupt(rows[k]))
    ensures ids.keys != [] && r.Success? && DistinctIds(rows) ==> r.value.fields.keys == RowIdSeq(rows)
    ensures ids.keys != [] && r.Success? && DistinctIds(rows) ==>
      forall k :: 0 <= k < |rows| ==> StoredAs(r.value, rows[k], ClassifyRow(rows[k], subTypes, HostAt(None, rows, subTypes, k)))
  {
    if ids.keys == [] {
      return Success(EmptyCatalog());
    }
    var c := EmptyCatalog();
    var extendsTable: Option<string> := None;
    var i := 0;
    while i < |rows|
      invariant 0 <= i <= |rows|
      invariant CatalogValid(c)
      invariant LoadFrom(c, extendsTable, rows[i..], subTypes) == LoadFrom(EmptyCatalog(), None, rows, subTypes)
    {
      var row := rows[i];
      assert rows[i..][0] == row && rows[i..][1..] == rows[i + 1..];
      var classified := ClassifyFetched(row, subTypes, extendsTable);
      if classified.Failure? {
        return Failure(classified.error);
      }
      LoadStep(c, extendsTable, rows[i..], subTypes, classified.value);
      c := Store(c, row, classified.value);
      extendsTable := classified.value.0.hostTable;
      i := i + 1;
    }
    assert rows[i..] == [];
    r := Success(c);
    if DistinctIds(rows) {
      LoadFetchOrder(EmptyCatalog(), None, rows, subTypes);
      LoadStoresRecords(EmptyCatalog(), None, rows, subTypes);
    }
  }
}
