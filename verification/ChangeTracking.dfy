/** The comma-joined set of changed columns, and the edits that add to it. */
module ChangeTracking {
  import opened Sequences
  import opened RawRecords

  // ---- Comma-joined text ----

  /** `text.split(',')` */
  function Split(text: string): (parts: seq<string>)
    ensures parts != []
    ensures forall p :: p in parts ==> ',' !in p
  {
    if text == "" then [""]
    else
      var rest := Split(text[1..]);
      if text[0] == ',' then [""] + rest else [[text[0]] + rest[0]] + rest[1..]
  }

  /** `parts.join(',')` */
  function Join(parts: seq<string>): string {
    if parts == [] then "" else if |parts| == 1 then parts[0] else parts[0] + "," + Join(parts[1..])
  }

  /** The names that the text of a set lists: none for the empty text. */
  function Names(text: string): seq<string> {
    if text == "" then [] else Split(text)
  }

  lemma {:induction false} SplitPart(part: string, rest: string)
    requires ',' !in part
    ensures Split(part) == [part]
    ensures Split(part + "," + rest) == [part] + Split(rest)
  {
    if part == "" {
      assert part + "," + rest == "," + rest;
      assert ("," + rest)[1..] == rest;
    } else {
      var text := part + "," + rest;
      assert text[1..] == part[1..] + "," + rest;
      SplitPart(part[1..], rest);
      assert [part[0]] + part[1..] == part;
    }
  }

  /** Splitting what was joined gives the parts back. */
  lemma {:induction false} SplitJoin(parts: seq<string>)
    requires parts != [] && forall p :: p in parts ==> ',' !in p
    ensures Split(Join(parts)) == parts
  {
    if |parts| == 1 {
      SplitPart(parts[0], "");
    } else {
      SplitJoin(parts[1..]);
      SplitPart(parts[0], Join(parts[1..]));
    }
  }

  lemma {:induction false} JoinIsEmpty(parts: seq<string>)
    ensures Join(parts) == "" <==> parts == [] || parts == [""]
  {
  }

  /** `addToRawSet` */
  function AddToRawSet(rawSet: string, value: string): string {
    Join(Unique(Names(rawSet) + [value]))
  }

  /** The text lists exactly the old names and the new one, each once, if and only if the new name has
      no comma and the set is not left with the empty name alone. */
  lemma AddedNames(rawSet: string, value: string)
    ensures Names(AddToRawSet(rawSet, value)) == Unique(Names(rawSet) + [value])
            <==> ',' !in value && Unique(Names(rawSet) + [value]) != [""]
  {
    var parts := Unique(Names(rawSet) + [value]);
    var text := AddToRawSet(rawSet, value);
    assert value in Names(rawSet) + [value];
    JoinIsEmpty(parts);
    if ',' in value {
      assert forall p :: p in Names(text) ==> ',' !in p;
      assert value in parts && value !in Names(text);
    } else if parts != [""] {
      assert forall p :: p in parts ==> ',' !in p;
      SplitJoin(parts);
    }
  }

  /** For the names that columns can have. */
  lemma AddedColumn(rawSet: string, column: string)
    requires column != "" && ',' !in column
    ensures Names(AddToRawSet(rawSet, column)) == Unique(Names(rawSet) + [column])
    ensures NoDuplicates(Names(AddToRawSet(rawSet, column)))
    ensures forall name :: name in Names(AddToRawSet(rawSet, column)) <==> name in Names(rawSet) || name == column
  {
    var parts := Unique(Names(rawSet) + [column]);
    assert column in parts;
    AddedNames(rawSet, column);
    UniqueNoDuplicates(Names(rawSet) + [column]);
  }

  /** Adding again changes nothing. */
  lemma AddedTwice(rawSet: string, column: string)
    requires column != "" && ',' !in column
    ensures AddToRawSet(AddToRawSet(rawSet, column), column) == AddToRawSet(rawSet, column)
  {
    var once := Unique(Names(rawSet) + [column]);
    AddedColumn(rawSet, column);
    assert (once + [column])[..|once|] == once;
    UniqueIdempotent(once);
  }

  // ---- Editing ----

  type Columns = map<string, Column>

  predicate ValidColumns(columns: Columns) {
    forall name :: name in columns ==> name != "" && ',' !in name && columns[name].name == name
  }

  predicate HasFields(raw: RawRecord, columns: Columns) {
    forall name :: name in columns ==> name in raw.fields
  }

  function SetColumnChange(raw: RawRecord, column: string): RawRecord {
    raw.(changed := AddToRawSet(raw.changed, column),
         status := if raw.status == Created then Created else Updated)
  }

  /** `Model._setRaw` on a record that is being updated. */
  function Edit(raw: RawRecord, columns: Columns, column: string, value: Value): RawRecord
    requires column in columns && column in raw.fields
  {
    var after := raw.(fields := raw.fields[column := Sanitize(value, columns[column])]);
    if after.fields[column] != raw.fields[column] then SetColumnChange(after, column) else after
  }

  function EditAll(raw: RawRecord, columns: Columns, edits: seq<(string, Value)>): (r: RawRecord)
    requires HasFields(raw, columns)
    requires forall i :: 0 <= i < |edits| ==> edits[i].0 in columns
    ensures HasFields(r, columns)
  {
    if edits == [] then raw
    else Edit(EditAll(raw, columns, edits[..|edits| - 1]), columns, Last(edits).0, Last(edits).1)
  }

  function EditedStatus(loaded: Status): Status {
    if loaded == Created then Created else Updated
  }

  /** What holds between a record as it was loaded and as it is after some edits. */
  ghost predicate Tracks(loaded: RawRecord, now: RawRecord, columns: Columns) {
    && HasFields(now, columns) && HasFields(loaded, columns)
    && now.id == loaded.id
    && now.fields.Keys == loaded.fields.Keys
    && (forall name :: name in loaded.fields && now.fields[name] != loaded.fields[name] ==> name in Names(now.changed))
    && (forall name :: name in Names(loaded.changed) ==> name in Names(now.changed))
    && (forall name :: name in Names(now.changed) ==> name in Names(loaded.changed) || name in columns)
    && (now == loaded || (NoDuplicates(Names(now.changed)) && now.status == EditedStatus(loaded.status)))
  }

  lemma EditTracks(loaded: RawRecord, now: RawRecord, columns: Columns, column: string, value: Value)
    requires ValidColumns(columns) && column in columns && Tracks(loaded, now, columns)
    ensures Tracks(loaded, Edit(now, columns, column, value), columns)
  {
    var after := Edit(now, columns, column, value);
    if Sanitize(value, columns[column]) == now.fields[column] {
      assert after.fields == now.fields;
      assert after == now;
    } else {
      AddedColumn(now.changed, column);
    }
  }

  /** After any run of edits every column whose value differs from its value at load is listed, the list
      only grows and has no duplicates, and the record counts as updated unless it was created. */
  lemma {:induction false} EditsAreTracked(loaded: RawRecord, columns: Columns, edits: seq<(string, Value)>)
    requires ValidColumns(columns) && HasFields(loaded, columns)
    requires forall i :: 0 <= i < |edits| ==> edits[i].0 in columns
    ensures Tracks(loaded, EditAll(loaded, columns, edits), columns)
  {
    if edits == [] {
    } else {
      var before := edits[..|edits| - 1];
      EditsAreTracked(loaded, columns, before);
      EditTracks(loaded, EditAll(loaded, columns, before), columns, Last(edits).0, Last(edits).1);
    }
  }

  // ---- Exactly what edits change ----

  /** The value of a column after the edits: that of the last one that assigns it, sanitized. */
  function Assigned(raw: RawRecord, columns: Columns, edits: seq<(string, Value)>, name: string): Value
    requires name in columns && name in raw.fields
  {
    if edits == [] then raw.fields[name]
    else if Last(edits).0 == name then Sanitize(Last(edits).1, columns[name])
    else Assigned(raw, columns, edits[..|edits| - 1], name)
  }

  /** Edit `k` gives its column another value than it has by then. */
  predicate ChangesAt(raw: RawRecord, columns: Columns, edits: seq<(string, Value)>, k: int)
    requires HasFields(raw, columns) && forall i :: 0 <= i < |edits| ==> edits[i].0 in columns
  {
    0 <= k < |edits|
    && Sanitize(edits[k].1, columns[edits[k].0]) != Assigned(raw, columns, edits[..k], edits[k].0)
  }

  predicate ChangesColumn(raw: RawRecord, columns: Columns, edits: seq<(string, Value)>, name: string)
    requires HasFields(raw, columns) && forall i :: 0 <= i < |edits| ==> edits[i].0 in columns
  {
    exists k :: 0 <= k < |edits| && edits[k].0 == name && ChangesAt(raw, columns, edits, k)
  }

  /** Any edit more changes its own column if and only if it changes its value. */
  lemma ChangesSnoc(raw: RawRecord, columns: Columns, edits: seq<(string, Value)>, name: string)
    requires HasFields(raw, columns) && forall i :: 0 <= i < |edits| ==> edits[i].0 in columns
    requires edits != []
    ensures var front, n := edits[..|edits| - 1], |edits| - 1;
            ChangesColumn(raw, columns, edits, name)
            <==> ChangesColumn(raw, columns, front, name) || (edits[n].0 == name && ChangesAt(raw, columns, edits, n))
  {
    var front := edits[..|edits| - 1];
    forall k | 0 <= k < |front|
      ensures front[k] == edits[k] && (ChangesAt(raw, columns, front, k) <==> ChangesAt(raw, columns, edits, k))
    {
      assert front[..k] == edits[..k];
    }
    if ChangesColumn(raw, columns, front, name) {
      var k :| 0 <= k < |front| && front[k].0 == name && ChangesAt(raw, columns, front, k);
      assert edits[k].0 == name && ChangesAt(raw, columns, edits, k);
    }
  }

  /** Every column has the value that was assigned to it last. */
  lemma {:induction false} EditsAssign(raw: RawRecord, columns: Columns, edits: seq<(string, Value)>, name: string)
    requires HasFields(raw, columns) && forall i :: 0 <= i < |edits| ==> edits[i].0 in columns
    requires name in columns
    ensures EditAll(raw, columns, edits).fields[name] == Assigned(raw, columns, edits, name)
  {
    if edits == [] {
    } else {
      EditsAssign(raw, columns, edits[..|edits| - 1], name);
    }
  }

  /** A column is listed after a run of edits if and only if it was listed before, or some edit of the run
      changed its value. */
  lemma {:induction false} ListedIffChanged(raw: RawRecord, columns: Columns, edits: seq<(string, Value)>, name: string)
    requires ValidColumns(columns) && HasFields(raw, columns)
    requires forall i :: 0 <= i < |edits| ==> edits[i].0 in columns
    ensures name in Names(EditAll(raw, columns, edits).changed)
            <==> name in Names(raw.changed) || ChangesColumn(raw, columns, edits, name)
  {
    if edits == [] {
    } else {
      var front, last := edits[..|edits| - 1], Last(edits);
      ListedIffChanged(raw, columns, front, name);
      ChangesSnoc(raw, columns, edits, name);
      EditsAssign(raw, columns, front, last.0);
      AddedColumn(EditAll(raw, columns, front).changed, last.0);
    }
  }

  /** A run of edits of which none changes a value leaves the record as it was, status included; any other
      makes it an updated one, unless it is yet to be created. */
  lemma {:induction false} UpdatedIffChanged(raw: RawRecord, columns: Columns, edits: seq<(string, Value)>)
    requires HasFields(raw, columns) && forall i :: 0 <= i < |edits| ==> edits[i].0 in columns
    ensures var after := EditAll(raw, columns, edits);
            && after.id == raw.id
            && if forall k :: 0 <= k < |edits| ==> !ChangesAt(raw, columns, edits, k) then after == raw
               else after.status == if raw.status == Created then Created else Updated
  {
    if edits == [] {
    } else {
      var front, n := edits[..|edits| - 1], |edits| - 1;
      UpdatedIffChanged(raw, columns, front);
      EditsAssign(raw, columns, front, edits[n].0);
      forall k | 0 <= k < n
        ensures ChangesAt(raw, columns, front, k) <==> ChangesAt(raw, columns, edits, k)
      {
        assert front[..k] == edits[..k] && front[k] == edits[k];
      }
      if !ChangesAt(raw, columns, edits, n) {
        var before := EditAll(raw, columns, front);
        assert before.fields[edits[n].0 := Assigned(raw, columns, front, edits[n].0)] == before.fields;
      }
    }
  }

  lemma {:induction false} OtherFieldsStay(raw: RawRecord, columns: Columns, edits: seq<(string, Value)>)
    requires HasFields(raw, columns) && forall i :: 0 <= i < |edits| ==> edits[i].0 in columns
    ensures var after := EditAll(raw, columns, edits);
            && after.fields.Keys == raw.fields.Keys
            && forall key :: key in raw.fields && key !in columns ==> after.fields[key] == raw.fields[key]
  {
    if edits == [] {
    } else {
      OtherFieldsStay(raw, columns, edits[..|edits| - 1]);
    }
  }

  /** What a run of edits makes of a record: the columns hold what was assigned last, exactly those are listed
      besides that were given another value, and if none was the record is as before. */
  ghost predicate EditedExactly(before: RawRecord, after: RawRecord, columns: Columns, edits: seq<(string, Value)>)
    requires HasFields(before, columns) && forall i :: 0 <= i < |edits| ==> edits[i].0 in columns
  {
    && after.id == before.id && after.fields.Keys == before.fields.Keys
    && (forall key :: key in before.fields ==>
          after.fields[key] == if key in columns then Assigned(before, columns, edits, key) else before.fields[key])
    && (forall name :: name in Names(after.changed) <==>
          name in Names(before.changed) || ChangesColumn(before, columns, edits, name))
    && (if forall k :: 0 <= k < |edits| ==> !ChangesAt(before, columns, edits, k) then after == before
        else after.status == if before.status == Created then Created else Updated)
  }

  lemma EditsAreExact(raw: RawRecord, columns: Columns, edits: seq<(string, Value)>)
    requires ValidColumns(columns) && HasFields(raw, columns)
    requires forall i :: 0 <= i < |edits| ==> edits[i].0 in columns
    ensures EditedExactly(raw, EditAll(raw, columns, edits), columns, edits)
  {
    OtherFieldsStay(raw, columns, edits);
    UpdatedIffChanged(raw, columns, edits);
    forall name
      ensures name in columns ==> EditAll(raw, columns, edits).fields[name] == Assigned(raw, columns, edits, name)
      ensures name in Names(EditAll(raw, columns, edits).changed)
              <==> name in Names(raw.changed) || ChangesColumn(raw, columns, edits, name)
    {
      ListedIffChanged(raw, columns, edits, name);
      if name in columns {
        EditsAssign(raw, columns, edits, name);
      }
    }
  }
}
