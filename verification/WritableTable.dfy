/** The example writable table: rows by primary key, with an index from row id to primary key. */
module WritableTable {
  import opened Text

  datatype Row = Row(rowid: string, text: string, integer: string)

  /** The decoded value list of a request. */
  datatype Values = Malformed | Values(text: string, integer: string)

  datatype Status = Success | Failure | Constraint

  function PrimaryKey(text: string, integer: string): string {
    text + integer
  }

  type Data = map<string, Row>
  type RowIds = map<string, string>

  /** The two maps are inverse to each other, and every row is stored under its own primary key. */
  ghost predicate Consistent(data: Data, ids: RowIds) {
    && (forall pk :: pk in data ==>
          && data[pk].rowid in ids && ids[data[pk].rowid] == pk
          && PrimaryKey(data[pk].text, data[pk].integer) == pk)
    && (forall id :: id in ids ==> ids[id] in data && data[ids[id]].rowid == id)
  }

  /** The table as a user sees it: rows by row id. */
  ghost function Rows(data: Data, ids: RowIds): map<string, Row>
    requires Consistent(data, ids)
  {
    map id | id in ids :: data[ids[id]]
  }

  /** The primary key is taken by a row other than `except`. */
  ghost predicate Taken(rows: map<string, Row>, pk: string, except: Option<string>) {
    exists id :: id in rows && Some(id) != except && PrimaryKey(rows[id].text, rows[id].integer) == pk
  }

  lemma TakenIsFound(data: Data, ids: RowIds, pk: string, except: Option<string>)
    requires Consistent(data, ids)
    ensures Taken(Rows(data, ids), pk, except) <==> pk in data && Some(data[pk].rowid) != except
  {
    if pk in data && Some(data[pk].rowid) != except {
      assert data[pk].rowid in Rows(data, ids);
    }
  }

  /** Saving keeps the maps inverse exactly when the row id was not in use. */
  lemma SaveConsistent(data: Data, ids: RowIds, row: Row, pk: string)
    requires Consistent(data, ids) && pk !in data && pk == PrimaryKey(row.text, row.integer)
    ensures Consistent(data[pk := row], if row.rowid in ids then ids else ids[row.rowid := pk]) <==> row.rowid !in ids
    ensures row.rowid !in ids ==>
              Rows(data[pk := row], ids[row.rowid := pk]) == Rows(data, ids)[row.rowid := row]
  {
    if row.rowid in ids {
      assert data[pk := row][pk].rowid == row.rowid && ids[row.rowid] != pk;
    }
  }

  /** A second row under the row id of the first one: the maps are no longer inverse. */
  lemma UsedRowIdBreaksTable()
    ensures var first, second := Row("7", "a", "1"), Row("7", "b", "2");
            && Consistent(map["a1" := first], map["7" := "a1"])
            && !Consistent(map["a1" := first]["b2" := second], map["7" := "a1"])
  {
    var first, second := Row("7", "a", "1"), Row("7", "b", "2");
    assert "b2"[0] != "a1"[0];
    SaveConsistent(map["a1" := first], map["7" := "a1"], second, "b2");
  }

  lemma EraseConsistent(data: Data, ids: RowIds, id: string)
    requires Consistent(data, ids) && id in ids
    ensures Consistent(data - {ids[id]}, ids - {id})
    ensures Rows(data - {ids[id]}, ids - {id}) == Rows(data, ids) - {id}
  {
  }

  class Table {
    var data: Data
    var ids: RowIds

    ghost predicate Valid()
      reads this
    {
      Consistent(data, ids)
    }

    ghost function Contents(): map<string, Row>
      requires Valid()
      reads this
    {
      Rows(data, ids)
    }

    constructor ()
      ensures Valid() && Contents() == map[]
    {
      data, ids := map[], map[];
    }

    /** `isPrimaryKeyUnique`; an empty row id stands for none. */
    method IsPrimaryKeyUnique(pk: string, ignored: string) returns (unique: bool)
      requires Valid()
      ensures unique <==> !Taken(Contents(), pk, if ignored == "" then None else Some(ignored))
    {
      TakenIsFound(data, ids, pk, if ignored == "" then None else Some(ignored));
      if pk !in data {
        return true;
      }
      if ignored == "" {
        return false;
      }
      return data[pk].rowid == ignored;
    }

    /** `saveRow`: both maps ignore an insertion under a key they already have. */
    method SaveRow(row: Row, pk: string)
      modifies this
      ensures data == if pk in old(data) then old(data) else old(data)[pk := row]
      ensures ids == if row.rowid in old(ids) then old(ids) else old(ids)[row.rowid := pk]
    {
      if pk !in data {
        data := data[pk := row];
      }
      if row.rowid !in ids {
        ids := ids[row.rowid := pk];
      }
    }

    /** INSERT with the row id that was generated or given, None when the given one is no number. */
    method Insert(values: Values, rowid: Option<string>) returns (status: Status)
      requires Valid()
      modifies this
      ensures status == (
                if values.Malformed? then Failure
                else if values.text == "" || old(Taken(Contents(), PrimaryKey(values.text, values.integer), None)) then Constraint
                else if rowid.None? then Failure else Success)
      ensures status != Success ==> data == old(data) && ids == old(ids)
      ensures status == Success ==> (Valid() <==> rowid.value !in old(Contents()))
      ensures status == Success && rowid.value !in old(Contents()) ==>
                Contents() == old(Contents())[rowid.value := Row(rowid.value, values.text, values.integer)]
    {
      if values.Malformed? {
        return Failure;
      }
      if values.text == "" {
        return Constraint;
      }
      var pk := PrimaryKey(values.text, values.integer);
      var unique := IsPrimaryKeyUnique(pk, "");
      if !unique {
        return Constraint;
      }
      if rowid.None? {
        return Failure;
      }
      var row := Row(rowid.value, values.text, values.integer);
      TakenIsFound(data, ids, pk, None);
      SaveConsistent(data, ids, row, pk);
      SaveRow(row, pk);
      return Success;
    }

    method Delete(id: string) returns (status: Status)
      requires Valid()
      modifies this
      ensures Valid()
      ensures status == if id in old(Contents()) then Success else Failure
      ensures Contents() == old(Contents()) - {id}
    {
      if id !in ids {
        return Failure;
      }
      var pk := ids[id];
      EraseConsistent(data, ids, id);
      data, ids := data - {pk}, ids - {id};
      return Success;
    }

    /** UPDATE; the new row id is the old one unless the request names another. */
    method Update(id: string, values: Values, newId: Option<string>) returns (status: Status)
      requires Valid()
      modifies this
      ensures status == (
                if id !in old(Contents()) || values.Malformed? then Failure
                else if values.text == "" ||
                        old(Taken(Contents(), PrimaryKey(values.text, values.integer), if id == "" then None else Some(id)))
                then Constraint else Success)
      ensures status != Success ==> data == old(data) && ids == old(ids)
      ensures status == Success ==> (Valid() <==> newId.GetOr(id) !in old(Contents()) - {id})
      ensures status == Success && newId.GetOr(id) !in old(Contents()) - {id} ==>
                Contents() == (old(Contents()) - {id})[newId.GetOr(id) := Row(newId.GetOr(id), values.text, values.integer)]
    {
      if id !in ids {
        return Failure;
      }
      if values.Malformed? {
        return Failure;
      }
      if values.text == "" {
        return Constraint;
      }
      var pk := PrimaryKey(values.text, values.integer);
      var unique := IsPrimaryKeyUnique(pk, id);
      if !unique {
        return Constraint;
      }
      TakenIsFound(data, ids, pk, if id == "" then None else Some(id));
      var row := Row(newId.GetOr(id), values.text, values.integer);
      EraseConsistent(data, ids, id);
      data, ids := data - {ids[id]}, ids - {id};
      SaveConsistent(data, ids, row, pk);
      SaveRow(row, pk);
      return Success;
    }
  }

  /** Two different rows with one primary key: text and number are joined without a separator. */
  lemma PrimaryKeysCollide()
    ensures PrimaryKey("a", "11") == PrimaryKey("a1", "1")
  {
  }

  /** Under one text, two rows collide exactly when their numbers agree, and under one number when their texts do. */
  lemma PrimaryKeyKeepsParts(a: string, b: string, x: string, y: string)
    ensures PrimaryKey(a, x) == PrimaryKey(a, y) <==> x == y
    ensures PrimaryKey(a, x) == PrimaryKey(b, x) <==> a == b
  {
    var ax, ay, bx := PrimaryKey(a, x), PrimaryKey(a, y), PrimaryKey(b, x);
    assert ax[|a|..] == x && ay[|a|..] == y;
    if ax == bx {
      assert |a| == |b| && ax[..|a|] == a && bx[..|b|] == b;
    }
  }
}
