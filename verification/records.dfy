/** Turning one search record into a flat row of the works report. */
module Records {
  import opened Results
  import opened Numerals
  import opened Json

  /** Two phrases whose co-occurrence is counted. */
  datatype FormulaPair = FormulaPair(left: string, right: string)

  /** One row of the works report. The identifier, title, doi and venue keep
      whatever JSON value the record held (a null doi stays null); the year is
      the text `str()` gives. */
  datatype WorkRow = WorkRow(
    pairLeft: string,
    pairRight: string,
    workId: Value,
    title: Value,
    year: Text,
    doi: Value,
    venue: Value)

  predicate Carries(row: WorkRow, pair: FormulaPair) {
    row.pairLeft == pair.left && row.pairRight == pair.right
  }

  predicate AllCarry(rows: seq<WorkRow>, pair: FormulaPair) {
    forall k :: 0 <= k < |rows| ==> Carries(rows[k], pair)
  }

  /** `(v or {}).get(...)` raises exactly when `v` is truthy but not a dict. */
  predicate Blocks(v: Value) {
    Truthy(v) && !v.Obj?
  }

  /** `(v or {}).get(key)`. */
  function Into(v: Value, key: string): Value
    requires !Blocks(v)
  {
    GetOr(Or(v, Obj(map[])).fields, key, Null)
  }

  function Location(item: Value): Value
    requires item.Obj?
  {
    GetOr(item.fields, "primary_location", Null)
  }

  /** The record can be turned into a row without an exception: it is a dict,
      and neither `primary_location` nor its `source` is a truthy non-dict. */
  predicate Extractable(item: Value) {
    && item.Obj?
    && !Blocks(Location(item))
    && !Blocks(Into(Location(item), "source"))
  }

  /** The value at `primary_location.source.display_name` when both levels
      are dicts holding the next key. */
  function VenuePath(item: Value): Option<Value> {
    if item.Obj? && "primary_location" in item.fields then
      var location := item.fields["primary_location"];
      if location.Obj? && "source" in location.fields then
        var source := location.fields["source"];
        if source.Obj? && "display_name" in source.fields then Some(source.fields["display_name"])
        else None
      else None
    else None
  }

  /** `item.get(key, "")`. */
  function Field(item: Value, key: string): Value
    requires item.Obj?
  {
    GetOr(item.fields, key, Str(""))
  }

  function ExtractRow(pair: FormulaPair, item: Value): (r: Option<WorkRow>)
    ensures r.Some? <==> Extractable(item)
    ensures r.Some? ==> Carries(r.value, pair)
    ensures r.Some? ==>
      && ("id" in item.fields ==> r.value.workId == item.fields["id"])
      && ("id" !in item.fields ==> r.value.workId == Str(""))
      && ("display_name" in item.fields ==> r.value.title == item.fields["display_name"])
      && ("display_name" !in item.fields ==> r.value.title == Str(""))
      && ("doi" in item.fields ==> r.value.doi == item.fields["doi"])
      && ("doi" !in item.fields ==> r.value.doi == Str(""))
    ensures r.Some? ==>
      && ("publication_year" !in item.fields ==> r.value.year == Literal(""))
      && ("publication_year" in item.fields ==> r.value.year == ToText(item.fields["publication_year"]))
      && ("publication_year" in item.fields && item.fields["publication_year"] == Null ==>
            r.value.year == Literal("None"))
      && (forall n :: "publication_year" in item.fields && item.fields["publication_year"] == Int(n) ==>
            r.value.year == Literal(IntToString(n)))
    ensures r.Some? ==>
      r.value.venue == (if VenuePath(item).Some? && Truthy(VenuePath(item).value) then VenuePath(item).value else Str(""))
    ensures r.Some? ==>
      && ("primary_location" !in item.fields || item.fields["primary_location"] == Null ==> r.value.venue == Str(""))
      && (VenuePath(item) == Some(Null) || VenuePath(item) == Some(Str("")) ==> r.value.venue == Str(""))
      && (forall s :: VenuePath(item) == Some(Str(s)) && s != "" ==> r.value.venue == Str(s))
  {
    if !Extractable(item) then None
    else
      var source := Into(Into(Location(item), "source"), "display_name");
      Some(WorkRow(
        pair.left,
        pair.right,
        Field(item, "id"),
        Field(item, "display_name"),
        ToText(Field(item, "publication_year")),
        Field(item, "doi"),
        Or(source, Str(""))))
  }

  /** All rows of a page, one per record in record order; the page is
      rejected as a whole if any record raises. */
  function ExtractAll(pair: FormulaPair, items: seq<Value>): (r: Option<seq<WorkRow>>)
    ensures r.Some? <==> forall i :: 0 <= i < |items| ==> Extractable(items[i])
    ensures r.Some? ==> |r.value| == |items|
    ensures r.Some? ==> forall i :: 0 <= i < |items| ==> r.value[i] == ExtractRow(pair, items[i]).value
  {
    if |items| == 0 then Some([])
    else
      match ExtractRow(pair, items[0])
      case None => None
      case Some(row) =>
        match ExtractAll(pair, items[1..])
        case None => None
        case Some(rest) =>
          assert forall i :: 0 < i < |items| ==> items[i] == items[1..][i - 1];
          Some([row] + rest)
  }
}
