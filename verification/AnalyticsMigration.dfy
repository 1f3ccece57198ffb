/** The analytics value migration (apps/analytics/src/services/analytics-migration.service.ts). */
module AnalyticsMigration {
  import opened Wrappers
  import opened Sequences
  import opened Jsons

  datatype Category = Guilds | Market | Contracts | OtherCategory(name: string)

  datatype MetricType =
    | TopByMembers | TopByAchievements | TopByVolume | TopByAuctions
    | TopByQuantity | TopByOpenInterest | PriceVolatility | OtherMetric(name: string)

  datatype Row = Row(id: nat, category: Category, metricType: MetricType, value: Json)

  // ----- first pass

  /** ARRAY_METRIC_TYPES */
  predicate IsListed(m: MetricType) {
    !m.OtherMetric?
  }

  predicate IsContractType(m: MetricType) {
    m == TopByQuantity || m == TopByOpenInterest || m == PriceVolatility
  }

  predicate IsBare(m: MetricType, value: Json) {
    IsContractType(m) && value.Obj? && "itemId" in value.fields
  }

  predicate NeedsMigration(r: Row) {
    r.value.Arr? || IsBare(r.metricType, r.value)
  }

  /** typeof record === 'object', null excluded. */
  predicate IsRecord(record: Json) {
    record.Obj? || record.Arr?
  }

  /** The property the record is stored under; None when normalizeArray skips it. */
  function KeyOf(category: Category, m: MetricType, record: Json): Option<string> {
    if !IsRecord(record) then None
    else if category == Guilds then
      var guid := Field(record, "guid");
      if Truthy(guid) then Some(Text(guid)) else None
    else if m == TopByVolume || m == TopByAuctions || IsContractType(m) || category == Market || category == Contracts then
      var id := Field(record, "itemId");
      if id == Null || Text(id) == "" then None else Some(Text(id))
    else None
  }

  function Keyed(category: Category, m: MetricType, records: seq<Json>): map<string, Json> {
    if records == [] then map[]
    else
      var n := |records| - 1;
      var keyed := Keyed(category, m, records[..n]);
      var key := KeyOf(category, m, records[n]);
      if key.Some? then keyed[key.value := records[n]] else keyed
  }

  function Normalize(r: Row): Option<Json> {
    if r.value.Arr? then Some(Obj(Keyed(r.category, r.metricType, r.value.items)))
    else if IsBare(r.metricType, r.value) && Field(r.value, "itemId") != Null then
      Some(Obj(map[Text(Field(r.value, "itemId")) := r.value]))
    else None
  }

  predicate Updated1(r: Row) {
    IsListed(r.metricType) && Normalize(r).Some?
  }

  function Pass1(r: Row): Row {
    if Updated1(r) then r.(value := Normalize(r).value) else r
  }

  // ----- second pass

  predicate IsTopType(m: MetricType) {
    m == TopByQuantity || m == TopByOpenInterest
  }

  predicate Legacy(f: map<string, Json>, sum: string, max: string) {
    sum in f && max !in f
  }

  function RenameField(f: map<string, Json>, sum: string, max: string, min: string): map<string, Json> {
    if Legacy(f, sum, max) then f[max := f[sum]][min := f[sum]] - {sum} else f
  }

  function Rename(f: map<string, Json>): map<string, Json> {
    RenameField(RenameField(f, "quantity", "maxQuantity", "minQuantity"),
                "openInterest", "maxOpenInterest", "minOpenInterest")
  }

  predicate Renamable(f: map<string, Json>) {
    Legacy(f, "quantity", "maxQuantity") || Legacy(f, "openInterest", "maxOpenInterest")
  }

  /** The value after its collected records have been renamed in place. */
  function Renamed(value: Json): Json {
    if !value.Obj? then value
    else if "itemId" in value.fields then Obj(Rename(value.fields))
    else Obj(map k | k in value.fields :: RenamedEntry(value.fields[k]))
  }

  function RenamedEntry(entry: Json): Json {
    if entry.Obj? then Obj(Rename(entry.fields)) else entry
  }

  predicate RenamableEntry(entry: Json) {
    entry.Obj? && Renamable(entry.fields)
  }

  predicate AnyRenamable(value: Json) {
    value.Obj? &&
    if "itemId" in value.fields then Renamable(value.fields)
    else exists k :: k in value.fields && RenamableEntry(value.fields[k])
  }

  predicate Updated2(r: Row) {
    IsTopType(r.metricType) && AnyRenamable(r.value)
  }

  function Pass2(r: Row): Row {
    if IsTopType(r.metricType) then r.(value := Renamed(r.value)) else r
  }

  function Migrated(r: Row): Row {
    Pass2(Pass1(r))
  }

  // ----- counters

  type Counts = map<MetricType, nat>

  function Count(c: Counts, m: MetricType): nat {
    if m in c then c[m] else 0
  }

  function Bump(c: Counts, m: MetricType): Counts {
    c[m := Count(c, m) + 1]
  }

  /** The sum of the counters of the listed metric types. */
  function Total(c: Counts): nat {
    Count(c, TopByMembers) + Count(c, TopByAchievements) + Count(c, TopByVolume) + Count(c, TopByAuctions)
    + Count(c, TopByQuantity) + Count(c, TopByOpenInterest) + Count(c, PriceVolatility)
  }

  /** How many rows of type m an update touches. */
  function Touched(rows: seq<Row>, touches: Row -> bool, m: MetricType): nat {
    if rows == [] then 0
    else
      var n := |rows| - 1;
      Touched(rows[..n], touches, m) + if touches(rows[n]) && rows[n].metricType == m then 1 else 0
  }

  function TouchedInAll(rows: seq<Row>, touches: Row -> bool): nat {
    if rows == [] then 0
    else
      var n := |rows| - 1;
      TouchedInAll(rows[..n], touches) + if touches(rows[n]) then 1 else 0
  }

  ghost predicate CountsOf(c: Counts, total: nat, rows: seq<Row>, touches: Row -> bool) {
    && total == TouchedInAll(rows, touches) == Total(c)
    && forall m :: Count(c, m) == Touched(rows, touches, m)
  }

  lemma CountStep(c: Counts, total: nat, rows: seq<Row>, n: nat, touches: Row -> bool)
    requires n < |rows| && CountsOf(c, total, rows[..n], touches)
    requires touches(rows[n]) ==> IsListed(rows[n].metricType)
    ensures touches(rows[n]) ==> CountsOf(Bump(c, rows[n].metricType), total + 1, rows[..n + 1], touches)
    ensures !touches(rows[n]) ==> CountsOf(c, total, rows[..n + 1], touches)
  {
    assert rows[..n + 1][..n] == rows[..n];
    var m := rows[n].metricType;
    assert forall k :: Count(Bump(c, m), k) == if k == m then Count(c, k) + 1 else Count(c, k);
    if touches(rows[n]) {
      BumpTotal(c, m);
    }
  }

  lemma BumpTotal(c: Counts, m: MetricType)
    requires IsListed(m)
    ensures Total(Bump(c, m)) == Total(c) + 1
  {
    match m
    case TopByMembers =>
    case TopByAchievements =>
    case TopByVolume =>
    case TopByAuctions =>
    case TopByQuantity =>
    case TopByOpenInterest =>
    case PriceVolatility =>
    case OtherMetric(_) =>
  }

  lemma NamesDiffer()
    ensures "quantity" != "openInterest" && "quantity" != "maxOpenInterest" && "quantity" != "minOpenInterest"
    ensures "maxQuantity" != "openInterest" && "maxQuantity" != "maxOpenInterest" && "maxQuantity" != "minOpenInterest"
    ensures "minQuantity" != "openInterest" && "minQuantity" != "maxOpenInterest" && "minQuantity" != "minOpenInterest"
    ensures "quantity" != "maxQuantity" && "quantity" != "minQuantity"
    ensures "openInterest" != "maxOpenInterest" && "openInterest" != "minOpenInterest"
    ensures "itemId" !in {"quantity", "maxQuantity", "minQuantity", "openInterest", "maxOpenInterest", "minOpenInterest"}
  {
  }

  // ----- the table

  /** A record renamed in place. */
  method RenameTopMetricFields(record: map<string, Json>) returns (r: map<string, Json>, changed: bool)
    ensures r == Rename(record) && changed == Renamable(record)
  {
    NamesDiffer();
    r, changed := record, false;
    if "quantity" in r && "maxQuantity" !in r {
      var sum := r["quantity"];
      r := r["maxQuantity" := sum];
      r := r["minQuantity" := sum];
      r := r - {"quantity"};
      changed := true;
    }
    if "openInterest" in r && "maxOpenInterest" !in r {
      var sum := r["openInterest"];
      r := r["maxOpenInterest" := sum];
      r := r["minOpenInterest" := sum];
      r := r - {"openInterest"};
      changed := true;
    }
  }

  /** Collecting the records of a value and renaming each of them in place. */
  method RenameRecords(value: Json) returns (v: Json, changed: bool)
    ensures v == Renamed(value) && changed == AnyRenamable(value)
  {
    if !value.Obj? {
      return value, false;
    }
    if "itemId" in value.fields {
      var record;
      record, changed := RenameTopMetricFields(value.fields);
      return Obj(record), changed;
    }
    var fields;
    fields, changed := RenameEntries(value.fields);
    v := Obj(fields);
  }

  /** Every entry that is an object is renamed in place. */
  method RenameEntries(entries: map<string, Json>) returns (fields: map<string, Json>, changed: bool)
    ensures fields == map k | k in entries :: RenamedEntry(entries[k])
    ensures changed <==> exists k :: k in entries && RenamableEntry(entries[k])
  {
    hide Rename, Renamable;
    fields := entries;
    var rest := fields.Keys;
    changed := false;
    while rest != {}
      invariant rest <= entries.Keys && fields.Keys == entries.Keys
      invariant forall k :: k in fields ==> fields[k] == if k in rest then entries[k] else RenamedEntry(entries[k])
      invariant changed <==> exists k :: k in entries && k !in rest && RenamableEntry(entries[k])
      decreases rest
    {
      var k :| k in rest;
      rest := rest - {k};
      if fields[k].Obj? {
        var record, hit := RenameTopMetricFields(fields[k].fields);
        fields := fields[k := Obj(record)];
        if hit { changed := true; }
      }
    }
  }

  method NormalizeArray(category: Category, m: MetricType, records: seq<Json>) returns (keyed: map<string, Json>)
    ensures keyed == Keyed(category, m, records)
  {
    keyed := map[];
    for i := 0 to |records|
      invariant keyed == Keyed(category, m, records[..i])
    {
      assert records[..i + 1][..i] == records[..i];
      var key := KeyOf(category, m, records[i]);
      if key.Some? {
        keyed := keyed[key.value := records[i]];
      }
    }
    assert records[..|records|] == records;
  }

  /** The counters of the second pass are added to those of the first, one metric type at a time. */
  method AddCounts(first: Counts, second: Counts) returns (both: Counts)
    ensures forall m :: Count(both, m) == Count(first, m) + Count(second, m)
  {
    both := first;
    var rest := second.Keys;
    while rest != {}
      invariant rest <= second.Keys
      invariant forall m :: Count(both, m) == Count(first, m) + if m in rest then 0 else Count(second, m)
      decreases rest
    {
      var m :| m in rest;
      both := both[m := Count(both, m) + second[m]];
      rest := rest - {m};
    }
  }

  lemma TotalsAdd(first: Counts, second: Counts, both: Counts)
    requires forall m :: Count(both, m) == Count(first, m) + Count(second, m)
    ensures Total(both) == Total(first) + Total(second)
  {
    hide Count;
  }

  lemma BothPasses(rows: seq<Row>)
    ensures Map(Pass2, Map(Pass1, rows)) == Map(Migrated, rows)
  {
    hide Pass1, Pass2, Map;
  }

  class AnalyticsTable {
    var rows: seq<Row>

    constructor (rows: seq<Row>)
      ensures this.rows == rows
    {
      this.rows := rows;
    }

    /** The first pass, row by row. */
    method NormalizeRows() returns (migratedRows: nat, byMetricType: Counts)
      modifies this
      ensures rows == Map(Pass1, old(rows))
      ensures CountsOf(byMetricType, migratedRows, old(rows), Updated1)
    {
      hide Keyed, CountsOf, Bump, Pass1, IsListed, IsContractType;
      ghost var before := rows;
      NothingCounted(Updated1);
      migratedRows, byMetricType := 0, map[];
      for i := 0 to |rows|
        invariant |rows| == |before|
        invariant forall j :: 0 <= j < |rows| ==> rows[j] == if j < i then Pass1(before[j]) else before[j]
        invariant CountsOf(byMetricType, migratedRows, before[..i], Updated1)
      {
        assert rows[i] == before[i];
        var row := rows[i];
        CountStep(byMetricType, migratedRows, before, i, Updated1);
        Pass1Row(row);
        if IsListed(row.metricType) && NeedsMigration(row) {
          var normalized: Option<Json> := None;
          if row.value.Arr? {
            var keyed := NormalizeArray(row.category, row.metricType, row.value.items);
            normalized := Some(Obj(keyed));
          } else if Field(row.value, "itemId") != Null {
            normalized := Some(Obj(map[Text(Field(row.value, "itemId")) := row.value]));
          }
          if normalized.Some? {
            rows := rows[i := row.(value := normalized.value)];
            migratedRows := migratedRows + 1;
            byMetricType := Bump(byMetricType, row.metricType);
          }
        }
      }
      assert before[..|before|] == before;
    }

    /** The second pass. */
    method MigrateContractTopMetricFields() returns (migratedRows: nat, byMetricType: Counts)
      modifies this
      ensures rows == Map(Pass2, old(rows))
      ensures CountsOf(byMetricType, migratedRows, old(rows), Updated2)
    {
      hide CountsOf, Bump, Renamed, AnyRenamable;
      ghost var before := rows;
      NothingCounted(Updated2);
      migratedRows, byMetricType := 0, map[];
      for i := 0 to |rows|
        invariant |rows| == |before|
        invariant forall j :: 0 <= j < |rows| ==> rows[j] == if j < i then Pass2(before[j]) else before[j]
        invariant CountsOf(byMetricType, migratedRows, before[..i], Updated2)
      {
        var row := rows[i];
        CountStep(byMetricType, migratedRows, before, i, Updated2);
        if IsTopType(row.metricType) {
          var value, changed := RenameRecords(row.value);
          if changed {
            rows := rows[i := row.(value := value)];
            migratedRows := migratedRows + 1;
            byMetricType := Bump(byMetricType, row.metricType);
          } else {
            NothingRenamed(row.value);
          }
        }
      }
      assert before[..|before|] == before;
    }

    /** Both passes; the counters of the second are added to those of the first. */
    method Migrate() returns (migratedRows: nat, byMetricType: Counts)
      modifies this
      ensures rows == Map(Migrated, old(rows))
      ensures migratedRows == Total(byMetricType)
      ensures migratedRows == TouchedInAll(old(rows), Updated1) + TouchedInAll(Map(Pass1, old(rows)), Updated2)
      ensures forall m :: Count(byMetricType, m)
                       == Touched(old(rows), Updated1, m) + Touched(Map(Pass1, old(rows)), Updated2, m)
    {
      hide Pass1, Pass2, Updated1, Updated2, Touched, TouchedInAll, Count, Map;
      ghost var before := rows;
      var first, byFirst := NormalizeRows();
      var second, bySecond := MigrateContractTopMetricFields();
      migratedRows := first + second;
      byMetricType := AddCounts(byFirst, bySecond);
      TotalsAdd(byFirst, bySecond, byMetricType);
      BothPasses(before);
    }
  }

  lemma NothingCounted(touches: Row -> bool)
    ensures CountsOf(map[], 0, [], touches)
  {
  }

  lemma Pass1Row(r: Row)
    ensures Pass1(r) == if Updated1(r) then r.(value := Normalize(r).value) else r
  {
  }

  lemma NothingRenamed(value: Json)
    requires !AnyRenamable(value)
    ensures Renamed(value) == value
  {
  }

  // ----- what the passes keep

  /** An array becomes an object that holds, under each key, the last record with that key, and nothing else. */
  lemma {:induction false} KeyedLastWins(category: Category, m: MetricType, records: seq<Json>, k: string)
    ensures k !in Keyed(category, m, records) ==>
              forall i :: 0 <= i < |records| ==> KeyOf(category, m, records[i]) != Some(k)
    ensures k in Keyed(category, m, records) ==>
              exists i: nat :: i < |records| && IsLastWithKey(category, m, records, k, i)
                               && Keyed(category, m, records)[k] == records[i]
  {
    hide KeyOf, Keyed, IsLastWithKey;
    if records == [] {
      NothingKeyed(category, m);
    } else {
      var n := |records| - 1;
      var before := records[..n];
      KeyedLastWins(category, m, before, k);
      KeyedStep(category, m, records, k);
      if KeyOf(category, m, records[n]) == Some(k) {
        LastIsLast(category, m, records, k);
      } else if k in Keyed(category, m, before) {
        var i: nat :| i < n && IsLastWithKey(category, m, before, k, i) && Keyed(category, m, before)[k] == before[i];
        StaysLast(category, m, records, k, i);
      } else {
        forall i | 0 <= i < |records| ensures KeyOf(category, m, records[i]) != Some(k) {
          if i < n { assert records[i] == before[i]; }
        }
      }
    }
  }

  lemma NothingKeyed(category: Category, m: MetricType)
    ensures Keyed(category, m, []) == map[]
  {
  }

  /** One more record. */
  lemma KeyedStep(category: Category, m: MetricType, records: seq<Json>, k: string)
    requires records != []
    ensures var (before, last) := (records[..|records| - 1], records[|records| - 1]);
            if KeyOf(category, m, last) == Some(k) then
              k in Keyed(category, m, records) && Keyed(category, m, records)[k] == last
            else
              && (k in Keyed(category, m, records) <==> k in Keyed(category, m, before))
              && (k in Keyed(category, m, records) ==> Keyed(category, m, records)[k] == Keyed(category, m, before)[k])
  {
    hide KeyOf;
  }

  lemma LastIsLast(category: Category, m: MetricType, records: seq<Json>, k: string)
    requires records != [] && KeyOf(category, m, records[|records| - 1]) == Some(k)
    ensures IsLastWithKey(category, m, records, k, |records| - 1)
  {
    hide KeyOf;
  }

  lemma StaysLast(category: Category, m: MetricType, records: seq<Json>, k: string, i: nat)
    requires records != [] && KeyOf(category, m, records[|records| - 1]) != Some(k)
    requires IsLastWithKey(category, m, records[..|records| - 1], k, i)
    ensures IsLastWithKey(category, m, records, k, i) && records[i] == records[..|records| - 1][i]
  {
    hide KeyOf;
    var n := |records| - 1;
    assert forall j :: 0 <= j < n ==> records[..n][j] == records[j];
  }

  /** Record i has key k and no later record has. */
  ghost predicate IsLastWithKey(category: Category, m: MetricType, records: seq<Json>, k: string, i: nat) {
    && i < |records| && KeyOf(category, m, records[i]) == Some(k)
    && forall j :: i < j < |records| ==> KeyOf(category, m, records[j]) != Some(k)
  }

  // ----- the keys, without the code that computes them

  /** The record has the field, and JavaScript prints its value, which is not null, as s. */
  ghost predicate Named(record: Json, field: string, s: string) {
    record.Obj? && field in record.fields &&
    match record.fields[field]
    case Null => false
    case Bool(b) => s == if b then "true" else "false"
    case Num(text) => s == text
    case Str(text) => s == text
    case Arr(items) => s == Join(items)
    case Obj(_) => s == "[object Object]"
  }

  /** A guild record counts unless its guid is false, 0 or empty. */
  ghost predicate GuildNamed(record: Json, s: string) {
    Named(record, "guid", s) && record.fields["guid"] !in {Bool(false), Num("0"), Str("")}
  }

  /** The key under which a record of an array is stored, if any. */
  ghost predicate GivesKey(category: Category, m: MetricType, record: Json, s: string) {
    if category == Guilds then GuildNamed(record, s)
    else
      && (m in {TopByVolume, TopByAuctions, TopByQuantity, TopByOpenInterest, PriceVolatility}
          || category in {Market, Contracts})
      && Named(record, "itemId", s) && s != ""
  }

  lemma KeyExactly(category: Category, m: MetricType, record: Json, s: string)
    ensures KeyOf(category, m, record) == Some(s) <==> GivesKey(category, m, record, s)
  {
    hide Join;
  }

  /** Record i gives the key s and no later record does. */
  ghost predicate LastGiving(category: Category, m: MetricType, records: seq<Json>, s: string, i: nat) {
    && i < |records| && GivesKey(category, m, records[i], s)
    && forall j :: i < j < |records| ==> !GivesKey(category, m, records[j], s)
  }

  lemma LastSame(category: Category, m: MetricType, records: seq<Json>, s: string, i: nat)
    ensures IsLastWithKey(category, m, records, s, i) <==> LastGiving(category, m, records, s, i)
  {
    hide KeyOf, GivesKey;
    forall j | 0 <= j < |records|
      ensures KeyOf(category, m, records[j]) == Some(s) <==> GivesKey(category, m, records[j], s)
    {
      KeyExactly(category, m, records[j], s);
    }
  }

  lemma LastUnique(category: Category, m: MetricType, records: seq<Json>, s: string, i: nat, j: nat)
    requires LastGiving(category, m, records, s, i) && LastGiving(category, m, records, s, j)
    ensures i == j
  {
    hide GivesKey;
  }

  /** An array becomes the object whose keys are those its records give, each holding the last record that gives it. */
  lemma KeyedExactly(category: Category, m: MetricType, records: seq<Json>, s: string)
    ensures s in Keyed(category, m, records)
       <==> exists i :: 0 <= i < |records| && GivesKey(category, m, records[i], s)
    ensures forall i: nat :: LastGiving(category, m, records, s, i) ==>
              i < |records| && s in Keyed(category, m, records) && Keyed(category, m, records)[s] == records[i]
  {
    hide Keyed, KeyOf, GivesKey, IsLastWithKey, LastGiving;
    KeyedLastWins(category, m, records, s);
    forall i | 0 <= i < |records|
      ensures KeyOf(category, m, records[i]) == Some(s) <==> GivesKey(category, m, records[i], s)
    {
      KeyExactly(category, m, records[i], s);
    }
    if s in Keyed(category, m, records) {
      var k: nat :| k < |records| && IsLastWithKey(category, m, records, s, k)
                    && Keyed(category, m, records)[s] == records[k];
      LastSame(category, m, records, s, k);
      LastGives(category, m, records, s, k);
      forall i: nat | LastGiving(category, m, records, s, i)
        ensures i < |records| && Keyed(category, m, records)[s] == records[i]
      {
        LastUnique(category, m, records, s, i, k);
      }
    } else {
      forall i: nat ensures !LastGiving(category, m, records, s, i) {
        NoneGives(category, m, records, s, i);
      }
    }
  }

  lemma LastGives(category: Category, m: MetricType, records: seq<Json>, s: string, i: nat)
    requires LastGiving(category, m, records, s, i)
    ensures i < |records| && GivesKey(category, m, records[i], s)
  {
  }

  lemma NoneGives(category: Category, m: MetricType, records: seq<Json>, s: string, i: nat)
    requires forall j :: 0 <= j < |records| ==> !GivesKey(category, m, records[j], s)
    ensures !LastGiving(category, m, records, s, i)
  {
  }

  /** The first pass, row by row: arrays of the seven listed types are keyed, bare contract records are wrapped. */
  lemma Pass1Exactly(r: Row, s: string)
    ensures Pass1(r).id == r.id && Pass1(r).category == r.category && Pass1(r).metricType == r.metricType
    ensures r.value.Arr? && r.metricType in LISTED ==>
              && Pass1(r).value.Obj?
              && (s in Pass1(r).value.fields <==>
                    exists i :: 0 <= i < |r.value.items| && GivesKey(r.category, r.metricType, r.value.items[i], s))
              && forall i: nat :: LastGiving(r.category, r.metricType, r.value.items, s, i) ==>
                   i < |r.value.items| && s in Pass1(r).value.fields && Pass1(r).value.fields[s] == r.value.items[i]
    ensures r.metricType in {TopByQuantity, TopByOpenInterest, PriceVolatility} && Named(r.value, "itemId", s) ==>
              Pass1(r).value == Obj(map[s := r.value])
    ensures !r.value.Arr? && !BareWithId(r) ==> Pass1(r) == r
    ensures r.metricType !in LISTED ==> Pass1(r) == r
  {
    hide Keyed, KeyOf, GivesKey, LastGiving, Join;
    if r.value.Arr? {
      KeyedExactly(r.category, r.metricType, r.value.items, s);
    }
  }

  /** A contract row that holds a single record with an item id. */
  ghost predicate BareWithId(r: Row) {
    && r.metricType in {TopByQuantity, TopByOpenInterest, PriceVolatility}
    && r.value.Obj? && "itemId" in r.value.fields && r.value.fields["itemId"] != Null
  }

  /** The metric types whose values were once arrays. */
  const LISTED: set<MetricType> := {
    TopByMembers, TopByAchievements, TopByVolume, TopByAuctions, TopByQuantity, TopByOpenInterest, PriceVolatility
  }

  /** The second pass: in rows of two types the bare record, or else every record of the object, is renamed. */
  lemma Pass2Exactly(r: Row, s: string)
    ensures Pass2(r).id == r.id && Pass2(r).category == r.category && Pass2(r).metricType == r.metricType
    ensures r.metricType !in {TopByQuantity, TopByOpenInterest} || !r.value.Obj? ==> Pass2(r) == r
    ensures r.metricType in {TopByQuantity, TopByOpenInterest} && r.value.Obj? ==>
              && Pass2(r).value.Obj?
              && ("itemId" in r.value.fields ==> Pass2(r).value.fields == Rename(r.value.fields))
              && ("itemId" !in r.value.fields ==>
                    && (s in Pass2(r).value.fields <==> s in r.value.fields)
                    && (s in r.value.fields && r.value.fields[s].Obj? ==>
                          Pass2(r).value.fields[s] == Obj(Rename(r.value.fields[s].fields)))
                    && (s in r.value.fields && !r.value.fields[s].Obj? ==>
                          Pass2(r).value.fields[s] == r.value.fields[s]))
  {
    hide Rename;
  }

  /** A renamed field moves its value to both new names and touches nothing else. */
  lemma RenameCarriesValue(f: map<string, Json>)
    ensures Legacy(f, "quantity", "maxQuantity") ==>
              && "quantity" !in Rename(f) && "maxQuantity" in Rename(f) && "minQuantity" in Rename(f)
              && Rename(f)["maxQuantity"] == Rename(f)["minQuantity"] == f["quantity"]
    ensures Legacy(f, "openInterest", "maxOpenInterest") ==>
              && "openInterest" !in Rename(f) && "maxOpenInterest" in Rename(f) && "minOpenInterest" in Rename(f)
              && Rename(f)["maxOpenInterest"] == Rename(f)["minOpenInterest"] == f["openInterest"]
    ensures forall k :: k !in {"quantity", "maxQuantity", "minQuantity", "openInterest", "maxOpenInterest", "minOpenInterest"}
              ==> (k in Rename(f) <==> k in f) && (k in f ==> Rename(f)[k] == f[k])
    ensures !Renamable(f) ==> Rename(f) == f
  {
  }

  lemma RenamedSettles(value: Json)
    ensures !AnyRenamable(Renamed(value))
    ensures value.Obj? <==> Renamed(value).Obj?
    ensures value.Arr? <==> Renamed(value).Arr?
    ensures value.Obj? ==> ("itemId" in value.fields <==> "itemId" in Renamed(value).fields)
    ensures value.Obj? ==> (Field(value, "itemId") == Null <==> Field(Renamed(value), "itemId") == Null)
  {
  }

  // ----- idempotence

  /** A second run would update this row. */
  predicate TouchedAgain(r: Row) {
    Updated1(r) || Updated2(Pass1(r))
  }

  /** A contract row one of whose records is stored under the very key "itemId". */
  predicate YieldsItemIdKey(r: Row) {
    IsContractType(r.metricType) &&
    if r.value.Arr? then
      exists i :: 0 <= i < |r.value.items| && KeyOf(r.category, r.metricType, r.value.items[i]) == Some("itemId")
    else
      IsBare(r.metricType, r.value) && Field(r.value, "itemId") != Null && Text(Field(r.value, "itemId")) == "itemId"
  }

  /** After the first pass a contract row is bare with an id exactly when such a key was produced. */
  lemma FirstPassShape(r: Row)
    requires IsListed(r.metricType)
    ensures !Pass1(r).value.Arr?
    ensures IsBare(r.metricType, Pass1(r).value) && Field(Pass1(r).value, "itemId") != Null <==> YieldsItemIdKey(r)
  {
    if r.value.Arr? {
      KeyedLastWins(r.category, r.metricType, r.value.items, "itemId");
      KeyedAreObjects(r.category, r.metricType, r.value.items);
    }
  }

  /** Only objects have a key, so only objects are stored. */
  lemma {:induction false} KeyedAreObjects(category: Category, m: MetricType, records: seq<Json>)
    ensures forall k :: k in Keyed(category, m, records) ==> Keyed(category, m, records)[k].Obj?
  {
    if records != [] {
      KeyedAreObjects(category, m, records[..|records| - 1]);
      KeyNeedsObject(category, m, records[|records| - 1]);
    }
  }

  lemma KeyNeedsObject(category: Category, m: MetricType, record: Json)
    ensures KeyOf(category, m, record).Some? ==> record.Obj?
  {
  }

  /** A second run leaves a row alone exactly when the first did not store a record under "itemId". */
  lemma SecondRunQuiet(r: Row)
    ensures TouchedAgain(Migrated(r)) <==> IsListed(r.metricType) && YieldsItemIdKey(r)
  {
    var v := Pass1(r).value;
    RenamedSettles(v);
    if IsListed(r.metricType) {
      FirstPassShape(r);
      var w := Migrated(r);
      assert Updated1(w) <==> YieldsItemIdKey(r);
      if !Updated1(w) {
        assert Pass1(w) == w;
      }
    }
  }

  lemma {:induction false} NoneTouched(rows: seq<Row>, touches: Row -> bool)
    ensures TouchedInAll(rows, touches) == 0 <==> forall i :: 0 <= i < |rows| ==> !touches(rows[i])
  {
    if rows != [] {
      var n := |rows| - 1;
      NoneTouched(rows[..n], touches);
      assert forall i :: 0 <= i < n ==> rows[..n][i] == rows[i];
    }
  }

  /** The whole table: the second run updates nothing if and only if no contract row yields that key. */
  lemma MigrateIdempotent(rows: seq<Row>)
    ensures var again := Map(Migrated, rows);
            TouchedInAll(again, Updated1) == 0 && TouchedInAll(Map(Pass1, again), Updated2) == 0
            <==> forall i :: 0 <= i < |rows| ==> !(IsListed(rows[i].metricType) && YieldsItemIdKey(rows[i]))
  {
    hide Migrated, Pass1, Updated1, Updated2, YieldsItemIdKey, Map, IsListed;
    var again := Map(Migrated, rows);
    var after := Map(Pass1, again);
    NoneTouched(again, Updated1);
    NoneTouched(after, Updated2);
    forall i | 0 <= i < |rows|
      ensures Updated1(again[i]) || Updated2(after[i]) <==> IsListed(rows[i].metricType) && YieldsItemIdKey(rows[i])
    {
      SecondRunQuiet(rows[i]);
    }
  }

  /** All ids are numbers, and guild records do not sit in contract rows. */
  predicate NumericIds(r: Row) {
    IsContractType(r.metricType) ==>
      if r.value.Arr? then
        && r.category != Guilds
        && forall i :: 0 <= i < |r.value.items| ==> HasNumericId(r.value.items[i])
      else HasNumericId(r.value)
  }

  predicate HasNumericId(record: Json) {
    Field(record, "itemId") == Null || Field(record, "itemId").Num?
  }

  /** Numeric ids never give the key "itemId". */
  lemma NumericIdsOrdinary(r: Row)
    requires NumericIds(r)
    ensures !YieldsItemIdKey(r)
  {
    hide Normalize, Keyed, Join;
    assert "itemId"[0] == 'i';
    if IsContractType(r.metricType) && r.value.Arr? {
      forall i | 0 <= i < |r.value.items|
        ensures KeyOf(r.category, r.metricType, r.value.items[i]) != Some("itemId")
      {
        assert HasNumericId(r.value.items[i]);
      }
    }
  }

  /** With numeric ids everywhere a second run of the migration updates nothing. */
  lemma NumericIdsQuiet(rows: seq<Row>)
    requires forall i :: 0 <= i < |rows| ==> NumericIds(rows[i])
    ensures var again := Map(Migrated, rows);
            TouchedInAll(again, Updated1) == 0 && TouchedInAll(Map(Pass1, again), Updated2) == 0
  {
    hide Migrated, Pass1, Updated1, Updated2, YieldsItemIdKey, NumericIds, Map, TouchedInAll;
    forall i | 0 <= i < |rows| ensures !YieldsItemIdKey(rows[i]) {
      NumericIdsOrdinary(rows[i]);
    }
    MigrateIdempotent(rows);
  }

  /** Without them it need not be: a record whose id is the word itemId is wrapped once more by the second run. */
  lemma ItemIdWordIsWrappedAgain()
    ensures var r := Row(0, Contracts, PriceVolatility, Obj(map["itemId" := Str("itemId")]));
            TouchedAgain(Migrated(r)) && Migrated(Migrated(r)) != Migrated(r)
  {
  }

  // ----- the third run

  /** What the first pass stores under "itemId" is an object, when the row yields that key. */
  lemma StoredUnderItemId(r: Row)
    requires IsListed(r.metricType) && YieldsItemIdKey(r)
    ensures Field(Pass1(r).value, "itemId").Obj?
  {
    hide Keyed, KeyOf, Join;
    FirstPassShape(r);
    if r.value.Arr? {
      KeyedAreObjects(r.category, r.metricType, r.value.items);
    }
  }

  /** The second pass leaves the entry "itemId" of a bare record alone. */
  lemma RenamedKeepsId(value: Json)
    ensures value.Obj? && "itemId" in value.fields ==> Field(Renamed(value), "itemId") == Field(value, "itemId")
  {
    NamesDiffer();
    if value.Obj? {
      RenameCarriesValue(value.fields);
    }
  }

  lemma ObjectText(j: Json)
    requires j.Obj?
    ensures Text(j) != "itemId"
  {
    assert "itemId"[0] != "[object Object]"[0];
  }

  /** After one run no row yields the key "itemId". */
  lemma MigratedYieldsNone(r: Row)
    requires IsListed(r.metricType)
    ensures !YieldsItemIdKey(Migrated(r))
  {
    hide Normalize, Renamed, Pass1, Keyed, Join, Text, KeyOf;
    var v := Pass1(r).value;
    FirstPassShape(r);
    Pass1Keeps(r);
    RenamedSettles(v);
    RenamedKeepsId(v);
    if YieldsItemIdKey(r) {
      StoredUnderItemId(r);
      ObjectText(Field(v, "itemId"));
    }
  }

  lemma Pass1Keeps(r: Row)
    ensures Pass1(r).metricType == r.metricType && Pass1(r).category == r.category && Pass1(r).id == r.id
  {
  }

  /** A row that a run does not touch is not changed by it either. */
  lemma UntouchedStays(r: Row)
    requires !TouchedAgain(r)
    ensures Migrated(r) == r
  {
    hide Normalize, Renamed, AnyRenamable;
    NothingLeftToRename(r.value);
  }

  lemma NothingLeftToRename(value: Json)
    ensures !AnyRenamable(value) ==> Renamed(value) == value
  {
    if !AnyRenamable(value) {
      NothingRenamed(value);
    }
  }

  /** Whatever a row held, two runs settle it: the third neither counts it as an update nor changes it. */
  lemma ThirdRunQuiet(r: Row)
    ensures !TouchedAgain(Migrated(Migrated(r)))
    ensures Migrated(Migrated(Migrated(r))) == Migrated(Migrated(r))
  {
    hide Migrated, TouchedAgain, YieldsItemIdKey;
    var once := Migrated(r);
    MigratedKeepsType(r);
    if IsListed(r.metricType) {
      MigratedYieldsNone(r);
    }
    SecondRunQuiet(once);
    UntouchedStays(Migrated(once));
  }

  lemma MigratedKeepsType(r: Row)
    ensures Migrated(r).metricType == r.metricType
  {
    hide Normalize, Renamed;
  }

  /** For every table the third run updates nothing and leaves every row as it is. */
  lemma MigrateSettles(rows: seq<Row>)
    ensures var twice := Map(Migrated, Map(Migrated, rows));
            && TouchedInAll(twice, Updated1) == 0 && TouchedInAll(Map(Pass1, twice), Updated2) == 0
            && Map(Migrated, twice) == twice
  {
    hide Migrated, Pass1, Updated1, Updated2, YieldsItemIdKey, Map, TouchedInAll, IsListed;
    var once := Map(Migrated, rows);
    forall i | 0 <= i < |rows| ensures !(IsListed(once[i].metricType) && YieldsItemIdKey(once[i])) {
      MigratedKeepsType(rows[i]);
      if IsListed(rows[i].metricType) {
        MigratedYieldsNone(rows[i]);
      }
    }
    MigrateIdempotent(once);
    var twice := Map(Migrated, once);
    forall i | 0 <= i < |rows| ensures Map(Migrated, twice)[i] == twice[i] {
      ThirdRunQuiet(rows[i]);
    }
  }
}
