/** The fixed field schema: query field names, their CSV columns, and which fields are ordered. */
module Schema {

  /** One ledger row as read from the CSV file: column name to cell text. */
  type Entry = map<string, string>

  /** Query field name to CSV column name. */
  const FieldMapping: map<string, string> := map[
    "id" := "Id",
    "date" := "日期",
    "major_component" := "主分類",
    "minor_component" := "子分類",
    "amount" := "該幣別金額",
    "description" := "帳務說明",
    "label" := "標籤"
  ]

  /** The fields on which `<`, `>`, `<=` and `>=` are allowed. */
  const ComparableFields: set<string> := {"id", "date", "amount"}

  const IdColumn: string := "Id"
  const AmountColumn: string := "該幣別金額"

  /** The row carries every column of the schema, as the CSV reader produces them. */
  predicate HasColumns(e: Entry)
  {
    forall f :: f in FieldMapping ==> FieldMapping[f] in e
  }

  predicate WellFormed(rows: seq<Entry>)
  {
    forall e :: e in rows ==> HasColumns(e)
  }

  lemma WellFormedSuffix(rows: seq<Entry>, i: nat)
    requires WellFormed(rows) && i <= |rows|
    ensures WellFormed(rows[i..])
  {
    forall e | e in rows[i..] ensures HasColumns(e) {
      var k :| 0 <= k < |rows[i..]| && rows[i..][k] == e;
      assert rows[i + k] == e;
    }
  }

  lemma WellFormedColumns(rows: seq<Entry>, e: Entry)
    requires WellFormed(rows) && e in rows
    ensures IdColumn in e && AmountColumn in e
  {
    assert FieldMapping["id"] == IdColumn;
    assert FieldMapping["amount"] == AmountColumn;
  }
}
