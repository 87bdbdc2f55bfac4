/**
 * What `select()` does to the builder's maps, as functions of the old maps:
 * per field, two projections, then (unless the field cannot be joined) the
 * LEFT JOIN from the host table to the custom-value table, the alias join of
 * a location-specific field, and the integer placeholder of a host table
 * joined elsewhere.  A field that cannot be joined ends the whole loop.
 */
module SelectPlan {
  import opened Wrappers
  import opened PhpArray
  import opened PhpString
  import opened CustomTypes
  import opened CustomCatalog

  /** The maps `select()` writes, and the contact-search UI signal. */
  datatype Plan = Plan(
    select: OMap<string, string>,
    element: OMap<string, int>,
    tables: OMap<string, TableJoin>,
    whereTables: OMap<string, TableJoin>,
    openedPanes: bool)

  ghost predicate PlanValid(p: Plan) {
    Valid(p.select) && Valid(p.element) && Valid(p.tables) && Valid(p.whereTables)
  }

  /** The text a `_tables` entry contributes to `implode`: the integer 1 prints as "1". */
  function RenderJoin(j: TableJoin): string {
    match j
    case JoinSql(sql) => sql
    case JoinPlaceholder => "1"
  }

  function IdKey(table: string): string {
    table + "_id"
  }

  function IdProjection(table: string): string {
    table + ".id as " + table + "_id"
  }

  function ColumnKey(f: FieldSpec): string {
    "custom_" + NatToString(f.id)
  }

  function ColumnProjection(f: FieldSpec): string {
    f.tableName + "." + f.columnName + " as " + ColumnKey(f)
  }

  /** The join of line 292, before the alias is known. */
  function PlainJoin(table: string, joinTable: string): string {
    "\nLEFT JOIN " + table + " ON " + table + ".entity_id = " + joinTable + ".id"
  }

  /** The join of line 307, through the (quoted) alias of the host table. */
  function AliasedJoin(table: string, alias: string): string {
    "\nLEFT JOIN " + table + " ON " + table + ".entity_id = `" + alias + "`.id"
  }

  function LocationAlias(locationType: string): string {
    locationType + "-address"
  }

  /** The address join of a location-specific field (line 305). */
  function LocationJoin(joinTable: string, locationType: string, locationTypeId: string): string {
    "\nLEFT JOIN " + joinTable + " `" + LocationAlias(locationType) + "` ON (`" + LocationAlias(locationType)
    + "`.contact_id = contact_a.id AND `" + LocationAlias(locationType) + "`.location_type_id = " + locationTypeId + ")"
  }

  /** The two projection keys of a field never collide: one ends in "d", the other in a digit. */
  lemma ProjectionKeysDiffer(f: FieldSpec)
    ensures IdKey(f.tableName) != ColumnKey(f)
  {
    var a, b := IdKey(f.tableName), ColumnKey(f);
    assert a[|a| - 1] == 'd';
    assert b[|b| - 1] == NatToString(f.id)[|NatToString(f.id)| - 1];
  }

  /** Lines 268-273: the row id and the value column of the field's table. */
  function Projections(p: Plan, f: FieldSpec): (r: Plan)
    requires PlanValid(p)
    ensures PlanValid(r)
    ensures r.select.vals == p.select.vals[IdKey(f.tableName) := IdProjection(f.tableName)][ColumnKey(f) := ColumnProjection(f)]
    ensures r.select.vals[IdKey(f.tableName)] == IdProjection(f.tableName)
    ensures r.select.vals[ColumnKey(f)] == ColumnProjection(f)
    ensures r.element.vals == p.element.vals[IdKey(f.tableName) := 1][ColumnKey(f) := 1]
    ensures |p.select.keys| <= |r.select.keys| && r.select.keys[..|p.select.keys|] == p.select.keys
    ensures r.tables == p.tables && r.whereTables == p.whereTables && r.openedPanes == p.openedPanes
  {
    ProjectionKeysDiffer(f);
    var name := f.tableName;
    var select := Put(Put(p.select, IdKey(name), IdProjection(name)), ColumnKey(f), ColumnProjection(f));
    var element := Put(Put(p.element, IdKey(name), 1), ColumnKey(f), 1);
    p.(select := select, element := element)
  }

  /** The host tables of the map, as a set (`in_array` over its values). */
  lemma KnownHosts()
    ensures "civicrm_contact" in ExtendsMap.Values && "civicrm_contribution" in ExtendsMap.Values
    ensures "civicrm_group" in ExtendsMap.Values && "contact_a" !in ExtendsMap.Values
  {
    assert ExtendsMap["Contact"] == "civicrm_contact";
    assert ExtendsMap["Contribution"] == "civicrm_contribution";
    assert ExtendsMap["Group"] == "civicrm_group";
  }

  /**
   * Lines 276-290: the table the custom-value table joins to, or None when the
   * planner returns (a group field, or a host table outside the map).
   */
  function JoinTable(hostTable: Option<string>): Option<string> {
    if hostTable == Some("civicrm_group") then None
    else if hostTable == Some("civicrm_contact") then Some("contact_a")
    else if hostTable == Some("civicrm_contribution") then hostTable
    else if hostTable.Some? && hostTable.value in ExtendsMap.Values then hostTable
    else None
  }

  /**
   * The planner goes on exactly for a host table in the map other than the
   * group table; the contact table is joined as the query's root alias and
   * every other host table under its own name.
   */
  lemma JoinTableCases(hostTable: Option<string>)
    ensures JoinTable(hostTable).None? <==> hostTable == Some("civicrm_group") || hostTable.None? || hostTable.value !in ExtendsMap.Values
    ensures JoinTable(hostTable) == Some("contact_a") <==> hostTable == Some("civicrm_contact")
    ensures JoinTable(hostTable).Some? && JoinTable(hostTable) != Some("contact_a") ==> JoinTable(hostTable) == hostTable
  {
    KnownHosts();
  }

  /** The alias the custom-value join goes through. */
  function JoinAlias(joinTable: string, location: Option<(string, string)>): string {
    if location.Some? then LocationAlias(location.value.0) else joinTable
  }

  /** What line 312 stores under the alias: the address join, or the integer 1. */
  function AliasEntry(joinTable: string, location: Option<(string, string)>): TableJoin {
    if location.Some? then JoinSql(LocationJoin(joinTable, location.value.0, location.value.1)) else JoinPlaceholder
  }

  /**
   * Lines 292-309: the custom-value table's join, written first against the
   * join table and then overwritten with the one through the alias, and
   * copied to the filtering joins when the field has predicates.
   */
  function CustomJoin(p: Plan, table: string, joinTable: string, alias: string, filtered: bool): (r: Plan)
    requires PlanValid(p)
    ensures PlanValid(r)
    ensures r.tables.vals == p.tables.vals[table := JoinSql(AliasedJoin(table, alias))]
    ensures r.whereTables.vals == if filtered then p.whereTables.vals[table := JoinSql(AliasedJoin(table, alias))] else p.whereTables.vals
    ensures r.select == p.select && r.element == p.element && r.openedPanes == p.openedPanes
    ensures |p.tables.keys| <= |r.tables.keys| && r.tables.keys[..|p.tables.keys|] == p.tables.keys
  {
    var tables := Put(p.tables, table, JoinSql(PlainJoin(table, joinTable)));
    var whereTables := if filtered then Put(p.whereTables, table, tables.vals[table]) else p.whereTables;
    var tables' := Put(tables, table, JoinSql(AliasedJoin(table, alias)));
    var whereTables' := if filtered then Put(whereTables, table, tables'.vals[table]) else whereTables;
    p.(tables := tables', whereTables := whereTables')
  }

  /**
   * Lines 292-316 for a field stored in `table`, joined to `joinTable`;
   * `filtered` is the truth value of the field's predicate list.  A host
   * other than the contact root gets the alias entry in both join maps; the
   * contact root instead opens the custom-field pane of a contact search.
   */
  function Joins(p: Plan, table: string, joinTable: string, filtered: bool, location: Option<(string, string)>, contactSearch: bool): (r: Plan)
    requires PlanValid(p)
    ensures PlanValid(r)
    ensures r.select == p.select && r.element == p.element
    ensures var alias := JoinAlias(joinTable, location);
      var custom := p.tables.vals[table := JoinSql(AliasedJoin(table, alias))];
      r.tables.vals == if joinTable != "contact_a" then custom[alias := AliasEntry(joinTable, location)] else custom
    ensures var alias := JoinAlias(joinTable, location);
      var custom := if filtered then p.whereTables.vals[table := JoinSql(AliasedJoin(table, alias))] else p.whereTables.vals;
      r.whereTables.vals == if joinTable != "contact_a" then custom[alias := AliasEntry(joinTable, location)] else custom
    ensures |p.tables.keys| <= |r.tables.keys| && r.tables.keys[..|p.tables.keys|] == p.tables.keys
    ensures r.openedPanes == (p.openedPanes || (joinTable == "contact_a" && contactSearch))
  {
    var alias := JoinAlias(joinTable, location);
    var q := CustomJoin(p, table, joinTable, alias, filtered);
    if joinTable != "contact_a" then
      var clause := AliasEntry(joinTable, location);
      var t := Put(q.tables, alias, clause);
      assert t.keys[..|p.tables.keys|] == q.tables.keys[..|p.tables.keys|];
      q.(tables := t, whereTables := Put(q.whereTables, alias, clause))
    else
      q.(openedPanes := if contactSearch then true else p.openedPanes)
  }

  /**
   * When the custom-value table is not its own alias, its join goes through
   * the alias, and it is among the filtering joins exactly when the field has
   * predicates (or it already was).
   */
  lemma JoinsThroughAlias(p: Plan, table: string, joinTable: string, filtered: bool, location: Option<(string, string)>, contactSearch: bool)
    requires PlanValid(p) && table != JoinAlias(joinTable, location)
    ensures var r := Joins(p, table, joinTable, filtered, location, contactSearch);
      r.tables.vals[table] == JoinSql(AliasedJoin(table, JoinAlias(joinTable, location)))
      && (table in r.whereTables.vals <==> filtered || table in p.whereTables.vals)
      && (filtered ==> r.whereTables.vals[table] == r.tables.vals[table])
  {
  }

  /**
   * A location-specific field on a host other than the contact root: its
   * custom-value join goes through `<type>-address`, and the address join,
   * tied to the contact root and to the location type id, is stored under
   * the alias in both join maps.
   */
  lemma LocationSpecificJoins(p: Plan, table: string, joinTable: string, filtered: bool, locationType: string, locationTypeId: string, contactSearch: bool)
    requires PlanValid(p) && joinTable != "contact_a" && table != LocationAlias(locationType)
    ensures var r := Joins(p, table, joinTable, filtered, Some((locationType, locationTypeId)), contactSearch);
      && r.tables.vals[table] == JoinSql(AliasedJoin(table, LocationAlias(locationType)))
      && r.tables.vals[LocationAlias(locationType)] == JoinSql(LocationJoin(joinTable, locationType, locationTypeId))
      && r.whereTables.vals[LocationAlias(locationType)] == r.tables.vals[LocationAlias(locationType)]
      && r.openedPanes == p.openedPanes
  {
  }

  /**
   * A field on a host other than the contact root without a location: the
   * host table's entry in both join maps is the integer placeholder 1, and
   * the custom-value join goes to the host table itself.
   */
  lemma PlainHostPlaceholder(p: Plan, table: string, joinTable: string, filtered: bool, contactSearch: bool)
    requires PlanValid(p) && joinTable != "contact_a" && table != joinTable
    ensures var r := Joins(p, table, joinTable, filtered, None, contactSearch);
      && r.tables.vals[joinTable] == JoinPlaceholder
      && r.whereTables.vals[joinTable] == JoinPlaceholder
      && RenderJoin(r.tables.vals[joinTable]) == "1"
      && r.tables.vals[table] == JoinSql(AliasedJoin(table, joinTable))
  {
  }

  /**
   * A field on the contact root joins through `contact_a`, stores no host
   * entry, and opens the custom-field pane exactly in a contact search.
   */
  lemma ContactRootJoin(p: Plan, table: string, filtered: bool, contactSearch: bool)
    requires PlanValid(p) && !p.openedPanes
    ensures var r := Joins(p, table, "contact_a", filtered, None, contactSearch);
      && r.tables.vals.Keys == p.tables.vals.Keys + {table}
      && r.tables.vals[table] == JoinSql(AliasedJoin(table, "contact_a"))
      && r.openedPanes == contactSearch
  {
  }

  /** `$this->_ids[$id]` is truthy: the field has a non-empty predicate list. */
  predicate Filtered(ids: OMap<nat, seq<Tuple>>, id: nat) {
    id in ids.vals && ids.vals[id] != []
  }

  /** `isset($this->_locationSpecificCustomFields[$id])` and its pair. */
  function Location(locations: map<nat, (string, string)>, id: nat): Option<(string, string)> {
    if id in locations then Some(locations[id]) else None
  }

  /** The loop goes on past `f`: its host table can be joined. */
  predicate Joinable(f: FieldSpec) {
    JoinTable(f.hostTable).Some?
  }

  /**
   * One iteration of the `select()` loop for the field `f`, stored under its
   * own id: the projections are added before the join is decided, and the
   * joins only when the field is joinable.
   */
  function PlanField(p: Plan, f: FieldSpec, ids: OMap<nat, seq<Tuple>>, locations: map<nat, (string, string)>, contactSearch: bool): (r: Plan)
    requires PlanValid(p)
    ensures PlanValid(r)
  {
    var q := Projections(p, f);
    var joinTable := JoinTable(f.hostTable);
    if joinTable.None? then q
    else Joins(q, f.tableName, joinTable.value, Filtered(ids, f.id), Location(locations, f.id), contactSearch)
  }

  /**
   * What one iteration leaves behind: both projections, and the field's
   * join unless the loop stops here, in which case no join map changes.
   */
  lemma PlanFieldEffect(p: Plan, f: FieldSpec, ids: OMap<nat, seq<Tuple>>, locations: map<nat, (string, string)>, contactSearch: bool)
    requires PlanValid(p)
    ensures var r := PlanField(p, f, ids, locations, contactSearch);
      && r.select.vals == p.select.vals[IdKey(f.tableName) := IdProjection(f.tableName)][ColumnKey(f) := ColumnProjection(f)]
      && r.element.vals == p.element.vals[IdKey(f.tableName) := 1][ColumnKey(f) := 1]
      && (Joinable(f) ==> f.tableName in r.tables.vals)
      && (!Joinable(f) ==> r.tables == p.tables && r.whereTables == p.whereTables && r.openedPanes == p.openedPanes)
      && p.tables.vals.Keys <= r.tables.vals.Keys
  {
  }

  /**
   * The rest of the `select()` loop over the fields `fs`, in catalog order:
   * stops, with nothing more added, after the first field that cannot be joined.
   */
  function PlanFrom(p: Plan, fs: seq<FieldSpec>, ids: OMap<nat, seq<Tuple>>, locations: map<nat, (string, string)>, contactSearch: bool): (r: Plan)
    requires PlanValid(p)
    ensures PlanValid(r)
    decreases |fs|
  {
    if |fs| == 0 then p
    else
      var q := PlanField(p, fs[0], ids, locations, contactSearch);
      if Joinable(fs[0]) then PlanFrom(q, fs[1..], ids, locations, contactSearch) else q
  }

  /** One step of the `select()` loop: the next field, then the rest unless it ends the loop. */
  lemma PlanStep(p: Plan, fs: seq<FieldSpec>, ids: OMap<nat, seq<Tuple>>, locations: map<nat, (string, string)>, contactSearch: bool, q: Plan)
    requires PlanValid(p) && |fs| > 0 && q == PlanField(p, fs[0], ids, locations, contactSearch)
    ensures PlanValid(q)
    ensures PlanFrom(p, fs, ids, locations, contactSearch) == if Joinable(fs[0]) then PlanFrom(q, fs[1..], ids, locations, contactSearch) else q
  {
  }

  /** Entries are only ever added or overwritten, never removed. */
  lemma {:induction false} PlanFromGrows(p: Plan, fs: seq<FieldSpec>, ids: OMap<nat, seq<Tuple>>, locations: map<nat, (string, string)>, contactSearch: bool)
    requires PlanValid(p)
    ensures var r := PlanFrom(p, fs, ids, locations, contactSearch);
      p.select.vals.Keys <= r.select.vals.Keys && p.tables.vals.Keys <= r.tables.vals.Keys
    decreases |fs|
  {
    if |fs| > 0 {
      PlanFieldEffect(p, fs[0], ids, locations, contactSearch);
      if Joinable(fs[0]) {
        PlanFromGrows(PlanField(p, fs[0], ids, locations, contactSearch), fs[1..], ids, locations, contactSearch);
      }
    }
  }

  /**
   * Every field up to and including the first one that cannot be joined is
   * projected, and every joinable one among them has its table joined.
   */
  lemma {:induction false} PlanCoversPrefix(p: Plan, fs: seq<FieldSpec>, ids: OMap<nat, seq<Tuple>>, locations: map<nat, (string, string)>, contactSearch: bool, i: nat)
    requires PlanValid(p) && i < |fs|
    requires forall k :: 0 <= k < i ==> Joinable(fs[k])
    ensures var r := PlanFrom(p, fs, ids, locations, contactSearch);
      ColumnKey(fs[i]) in r.select.vals
      && IdKey(fs[i].tableName) in r.select.vals
      && (Joinable(fs[i]) ==> fs[i].tableName in r.tables.vals)
    decreases i
  {
    var q := PlanField(p, fs[0], ids, locations, contactSearch);
    if i == 0 {
      PlanFieldEffect(p, fs[0], ids, locations, contactSearch);
      if Joinable(fs[0]) {
        PlanFromGrows(q, fs[1..], ids, locations, contactSearch);
      }
    } else {
      assert Joinable(fs[0]);
      assert fs[1..][i - 1] == fs[i];
      assert forall k :: 0 <= k < i - 1 ==> fs[1..][k] == fs[k + 1];
      PlanCoversPrefix(q, fs[1..], ids, locations, contactSearch, i - 1);
    }
  }

  /**
   * A field that cannot be joined (a group field, say) ends the loop: the
   * fields after it contribute nothing, not even their projections.
   */
  lemma {:induction false} PlanStopsAtUnjoinable(p: Plan, fs: seq<FieldSpec>, ids: OMap<nat, seq<Tuple>>, locations: map<nat, (string, string)>, contactSearch: bool, j: nat)
    requires PlanValid(p)
    requires j < |fs| && !Joinable(fs[j])
    ensures PlanFrom(p, fs, ids, locations, contactSearch) == PlanFrom(p, fs[..j + 1], ids, locations, contactSearch)
    decreases j
  {
    var prefix := fs[..j + 1];
    assert prefix[0] == fs[0];
    if j > 0 && Joinable(fs[0]) {
      assert prefix[1..] == fs[1..][..j];
      assert fs[1..][j - 1] == fs[j];
      PlanStopsAtUnjoinable(PlanField(p, fs[0], ids, locations, contactSearch), fs[1..], ids, locations, contactSearch, j - 1);
    }
  }

  /** A group field in particular: the planner's early return of line 277. */
  lemma GroupFieldEndsPlan(p: Plan, fs: seq<FieldSpec>, ids: OMap<nat, seq<Tuple>>, locations: map<nat, (string, string)>, contactSearch: bool, j: nat)
    requires PlanValid(p)
    requires j < |fs| && fs[j].hostTable == Some("civicrm_group")
    ensures PlanFrom(p, fs, ids, locations, contactSearch) == PlanFrom(p, fs[..j + 1], ids, locations, contactSearch)
  {
    JoinTableCases(fs[j].hostTable);
    PlanStopsAtUnjoinable(p, fs, ids, locations, contactSearch, j);
  }
}
