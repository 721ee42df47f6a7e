/** `preprocessData` (tensorflow.js): three passes over the records, each
    updating every record object in place. A record that occurs twice in the
    array is updated twice; each pass is idempotent, so that ends in the same
    state as one update. */
module Preprocess {
  import opened Rows
  import opened Features

  /** First `forEach`: parse each record's date field. */
  method ParseDates(host: Host, data: seq<Record>)
    modifies data
    ensures forall r :: r in data ==> r.entries == ParseDateField(host, old(r.entries))
  {
    var i := 0;
    while i < |data|
      invariant 0 <= i <= |data|
      invariant forall r :: r in data ==>
        r.entries == if r in data[..i] then ParseDateField(host, old(r.entries)) else old(r.entries)
    {
      var row := data[i];
      if row in data[..i] {
        ParseDateFieldIdempotent(host, old(row.entries));
      }
      row.entries := ParseDateField(host, row.entries);
      assert data[..i + 1] == data[..i] + [row];
      i := i + 1;
    }
    assert data[..i] == data;
  }

  /** Second `forEach`: assign the eleven derived fields of each record. */
  method AddAllFeatures(host: Host, data: seq<Record>)
    modifies data
    ensures forall r :: r in data ==> r.entries == AddFeatures(host, old(r.entries))
  {
    var i := 0;
    while i < |data|
      invariant 0 <= i <= |data|
      invariant forall r :: r in data ==>
        r.entries == if r in data[..i] then AddFeatures(host, old(r.entries)) else old(r.entries)
    {
      var row := data[i];
      if row in data[..i] {
        AddFeaturesIdempotent(host, old(row.entries));
      }
      row.entries := AddFeatures(host, row.entries);
      assert data[..i + 1] == data[..i] + [row];
      i := i + 1;
    }
    assert data[..i] == data;
  }

  /** The inner `for (let key in row)` loop: rewrite each NaN number to 0. */
  method ReplaceNaNs(row: Record)
    modifies row
    ensures row.entries == ZeroNaN(old(row.entries))
  {
    var i := 0;
    while i < |row.entries|
      invariant 0 <= i <= |row.entries| == |old(row.entries)|
      invariant forall j :: 0 <= j < i ==> row.entries[j] == ZeroNaN(old(row.entries))[j]
      invariant forall j :: i <= j < |row.entries| ==> row.entries[j] == old(row.entries)[j]
    {
      var e := row.entries[i];
      if IsNaNCoerced(e.value) && TypeOf(e.value) == "number" {
        row.entries := row.entries[i := Entry(e.key, Num(0))];
      }
      i := i + 1;
    }
  }

  /** Third `forEach`: the NaN replacement on every record. */
  method ReplaceAllNaNs(data: seq<Record>)
    modifies data
    ensures forall r :: r in data ==> r.entries == ZeroNaN(old(r.entries))
  {
    var i := 0;
    while i < |data|
      invariant 0 <= i <= |data|
      invariant forall r :: r in data ==>
        r.entries == if r in data[..i] then ZeroNaN(old(r.entries)) else old(r.entries)
    {
      var row := data[i];
      if row in data[..i] {
        ZeroNaNShape(old(row.entries));
      }
      ReplaceNaNs(row);
      assert data[..i + 1] == data[..i] + [row];
      i := i + 1;
    }
    assert data[..i] == data;
  }

  /** `preprocessData`: returns the same array, every record of which now
      holds `PreprocessRow` of its old fields. */
  method PreprocessData(host: Host, data: seq<Record>) returns (result: seq<Record>)
    modifies data
    ensures result == data
    ensures forall r :: r in data ==> r.entries == PreprocessRow(host, old(r.entries))
  {
    ParseDates(host, data);
    label Parsed:
    AddAllFeatures(host, data);
    label Featured:
    ReplaceAllNaNs(data);
    assert forall r :: r in data ==> old@Parsed(r.entries) == ParseDateField(host, old(r.entries));
    assert forall r :: r in data ==> old@Featured(r.entries) == AddFeatures(host, old@Parsed(r.entries));
    result := data;
  }
}
