/** Model instances: a raw record with the editing and prepared state around it. */
module Models {
  import opened Sequences
  import opened Results
  import opened RawRecords
  import opened ChangeTracking

  datatype PreparedState =
    | Unprepared
    | PreparedCreate
    | PreparedUpdate
    | PreparedMarkAsDeleted
    | PreparedDestroyPermanently

  type Edits = seq<(string, Value)>

  predicate KnownColumns(edits: Edits, columns: Columns) {
    forall i :: 0 <= i < |edits| ==> edits[i].0 in columns
  }

  /** The columns set while a record is built, marked as changed one after the other. */
  function MarkAll(raw: RawRecord, names: seq<string>): RawRecord {
    if names == [] then raw else SetColumnChange(MarkAll(raw, names[..|names| - 1]), Last(names))
  }

  function SetAll(raw: RawRecord, columns: Columns, edits: Edits): RawRecord
    requires KnownColumns(edits, columns)
  {
    if edits == [] then raw
    else
      var before := SetAll(raw, columns, edits[..|edits| - 1]);
      var (column, value) := Last(edits);
      before.(fields := before.fields[column := Sanitize(value, columns[column])])
  }

  function EditedNames(edits: Edits): seq<string> {
    seq(|edits|, i requires 0 <= i < |edits| => edits[i].0)
  }

  /** What edits make of a raw record that has the columns. */
  ghost function Edited(raw: RawRecord, columns: Columns, edits: Edits): RawRecord {
    if HasFields(raw, columns) && KnownColumns(edits, columns) then EditAll(raw, columns, edits) else raw
  }

  class Model {
    const table: string
    const columns: Columns
    var raw: RawRecord
    var isEditing: bool
    var preparedState: PreparedState
    var columnsSetOnCreate: Option<seq<string>>

    constructor (table: string, columns: Columns, raw: RawRecord)
      ensures this.table == table && this.columns == columns && this.raw == raw
      ensures preparedState == Unprepared && !isEditing && columnsSetOnCreate == None
    {
      this.table, this.columns, this.raw := table, columns, raw;
      isEditing, preparedState, columnsSetOnCreate := false, Unprepared, None;
    }

    /** As constructed: no change is prepared, and none can be made. */
    predicate IsUntouched()
      reads this`preparedState, this`isEditing
    {
      preparedState == Unprepared && !isEditing
    }

    /** `_setRaw` */
    method SetRaw(column: string, value: Value) returns (ok: bool)
      requires column in columns && HasFields(raw, columns)
      modifies this`raw, this`columnsSetOnCreate
      ensures ok <==> old(isEditing && raw.status != Disposable && raw.status != Deleted)
      ensures !ok ==> raw == old(raw) && columnsSetOnCreate == old(columnsSetOnCreate)
      ensures ok && preparedState != PreparedCreate ==> raw == Edit(old(raw), columns, column, value)
      ensures ok && preparedState != PreparedCreate ==>
                var after := Sanitize(value, columns[column]);
                if after == old(raw).fields[column] then raw == old(raw)
                else raw == RawRecord(old(raw).id, if old(raw).status == Created then Created else Updated,
                                      AddToRawSet(old(raw).changed, column), old(raw).fields[column := after])
      ensures ok && preparedState == PreparedCreate ==>
                raw == old(raw).(fields := old(raw).fields[column := Sanitize(value, columns[column])])
      ensures columnsSetOnCreate == if ok && preparedState == PreparedCreate && old(columnsSetOnCreate).Some?
                                    then Some(old(columnsSetOnCreate).value + [column]) else old(columnsSetOnCreate)
    {
      if raw.status == Disposable || !isEditing || raw.status == Deleted {
        return false;
      }
      var valueBefore := raw.fields[column];
      assert raw.fields[column := valueBefore] == raw.fields;
      raw := raw.(fields := raw.fields[column := Sanitize(value, columns[column])]);
      if preparedState == PreparedCreate {
        if columnsSetOnCreate.Some? {
          columnsSetOnCreate := Some(columnsSetOnCreate.value + [column]);
        }
      } else if valueBefore != raw.fields[column] {
        raw := SetColumnChange(raw, column);
      }
      ok := true;
    }

    predicate CanUpdate()
      reads this
    {
      preparedState == Unprepared && raw.status != Disposable
    }

    /** `prepareUpdate`; `edits` are the assignments that the updater makes, and `throws` tells whether it
        throws after them (as does one that turns out to be asynchronous). Then they stay, and so does the
        editing state. */
    method PrepareUpdate(edits: Edits, throws: bool) returns (ok: bool)
      requires ValidColumns(columns) && HasFields(raw, columns) && KnownColumns(edits, columns)
      modifies this
      ensures ok <==> old(CanUpdate()) && (old(raw).status == Deleted ==> edits == []) && !throws
      ensures raw == if old(CanUpdate() && raw.status != Deleted) then EditAll(old(raw), columns, edits) else old(raw)
      ensures raw == old(raw) || Tracks(old(raw), raw, columns)
      ensures old(CanUpdate() && raw.status != Deleted) ==> EditedExactly(old(raw), raw, columns, edits)
      ensures preparedState == if ok then PreparedUpdate else old(preparedState)
      ensures isEditing == if old(CanUpdate()) then !ok else old(isEditing)
    {
      if preparedState != Unprepared || raw.status == Disposable {
        return false;
      }
      isEditing := true;
      ok := RunUpdater(edits);
      EditsAreTracked(old(raw), columns, edits);
      EditsAreExact(old(raw), columns, edits);
      if !ok || throws {
        return false;
      }
      isEditing := false;
      preparedState := PreparedUpdate;
    }

    /** The assignments of an updater, of which only the first can be refused. */
    method RunUpdater(edits: Edits) returns (ok: bool)
      requires ValidColumns(columns) && HasFields(raw, columns) && KnownColumns(edits, columns)
      requires isEditing && preparedState == Unprepared && raw.status != Disposable
      modifies this`raw, this`columnsSetOnCreate
      ensures ok <==> (old(raw).status == Deleted ==> edits == [])
      ensures raw == if old(raw).status == Deleted then old(raw) else EditAll(old(raw), columns, edits)
    {
      for i := 0 to |edits|
        invariant HasFields(raw, columns)
        invariant raw == EditAll(old(raw), columns, edits[..i])
        invariant raw.status in {old(raw).status, EditedStatus(old(raw).status)}
        invariant old(raw).status == Deleted ==> i == 0
      {
        assert edits[..i + 1][..i] == edits[..i];
        var accepted := SetRaw(edits[i].0, edits[i].1);
        if !accepted {
          return false;
        }
      }
      assert edits[..|edits|] == edits;
      ok := true;
    }

    method PrepareMarkAsDeleted() returns (ok: bool)
      modifies this`raw, this`preparedState
      ensures ok <==> old(preparedState) == Unprepared && old(raw).status != Disposable
      ensures raw == if ok then old(raw).(status := Deleted) else old(raw)
      ensures preparedState == if ok then PreparedMarkAsDeleted else old(preparedState)
    {
      if preparedState != Unprepared || raw.status == Disposable {
        return false;
      }
      raw, preparedState := raw.(status := Deleted), PreparedMarkAsDeleted;
      ok := true;
    }

    method PrepareDestroyPermanently() returns (ok: bool)
      modifies this`raw, this`preparedState
      ensures ok <==> old(preparedState) == Unprepared && old(raw).status != Disposable
      ensures raw == if ok then old(raw).(status := Deleted) else old(raw)
      ensures preparedState == if ok then PreparedDestroyPermanently else old(preparedState)
    {
      if preparedState != Unprepared || raw.status == Disposable {
        return false;
      }
      raw, preparedState := raw.(status := Deleted), PreparedDestroyPermanently;
      ok := true;
    }

    /** The body of `_prepareCreate`, on the instance made from `sanitizedRaw`: the columns that the
        builder sets are marked as changed once it is done, if the record is still a created one. */
    method BuildNew(edits: Edits)
      requires ValidColumns(columns) && HasFields(raw, columns) && KnownColumns(edits, columns)
      requires raw.status == Created
      modifies this
      ensures preparedState == PreparedCreate && !isEditing && columnsSetOnCreate == None
      ensures raw == MarkAll(SetAll(old(raw), columns, edits), EditedNames(edits))
    {
      preparedState, isEditing, columnsSetOnCreate := PreparedCreate, true, Some([]);
      RunBuilder(edits);
      var names := columnsSetOnCreate.value;
      columnsSetOnCreate, isEditing := None, false;
      MarkColumns(names);
    }

    method RunBuilder(edits: Edits)
      requires HasFields(raw, columns) && KnownColumns(edits, columns)
      requires preparedState == PreparedCreate && isEditing && columnsSetOnCreate == Some([]) && raw.status == Created
      modifies this`raw, this`columnsSetOnCreate
      ensures raw == SetAll(old(raw), columns, edits) && columnsSetOnCreate == Some(EditedNames(edits))
    {
      assert EditedNames(edits[..0]) == [];
      for i := 0 to |edits|
        invariant HasFields(raw, columns)
        invariant raw == SetAll(old(raw), columns, edits[..i]) && raw.status == Created
        invariant columnsSetOnCreate == Some(EditedNames(edits[..i]))
      {
        assert edits[..i + 1][..i] == edits[..i];
        assert EditedNames(edits[..i + 1]) == EditedNames(edits[..i]) + [edits[i].0];
        var _ := SetRaw(edits[i].0, edits[i].1);
      }
      assert edits[..|edits|] == edits;
    }

    method MarkColumns(names: seq<string>)
      modifies this`raw
      ensures raw == MarkAll(old(raw), names)
    {
      for i := 0 to |names|
        invariant raw == MarkAll(old(raw), names[..i])
      {
        assert names[..i + 1][..i] == names[..i];
        raw := SetColumnChange(raw, names[i]);
      }
      assert names[..|names|] == names;
    }
  }

  /** A created record stays one while its columns are marked, and lists each column that was set. */
  lemma {:induction false} BuiltRecordListsItsColumns(raw: RawRecord, names: seq<string>)
    requires raw.status == Created
    requires forall name :: name in names ==> name != "" && ',' !in name
    ensures MarkAll(raw, names).status == Created && MarkAll(raw, names).fields == raw.fields
    ensures forall name :: name in Names(MarkAll(raw, names).changed) <==> name in Names(raw.changed) || name in names
  {
    if names == [] {
    } else {
      var front := names[..|names| - 1];
      assert names == front + [Last(names)];
      assert forall name :: name in names <==> name in front || name == Last(names);
      assert Last(names) in names;
      BuiltRecordListsItsColumns(raw, front);
      AddedColumn(MarkAll(raw, front).changed, Last(names));
    }
  }
}
