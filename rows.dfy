/** Records as the pipeline sees them after CSV parsing: a JavaScript object
    whose own keys, in insertion order, map to loosely typed values. */
module Rows {

  /** The column names the pipeline refers to (`DATE_COL`, `TARGET_COL`). */
  const DateCol := "sales_date"
  const TargetCol := "volume"

  /** moment's 0-based month index (`month()`), day of month (`date()`) and
      0-based weekday, Sunday first (`day()`). */
  type Month0 = m: int | 0 <= m < 12
  type DayOfMonth = d: int | 1 <= d <= 31 witness 1
  type Weekday = w: int | 0 <= w < 7

  /** The values a field can hold. Numbers are kept integral; `NaN` is the one
      non-number of type "number" the pipeline cares about. `Date` is a valid
      moment at local midnight of that day, `InvalidDate` an invalid moment. */
  datatype Value =
    | Num(n: int)
    | NaN
    | Str(s: string)
    | Bool(b: bool)
    | Null
    | Undefined
    | Date(year: int, month0: Month0, day: DayOfMonth, weekday: Weekday)
    | InvalidDate

  predicate IsMoment(v: Value) {
    v.Date? || v.InvalidDate?
  }

  /** JavaScript truthiness (`v ? a : b`); moments are objects, hence truthy. */
  predicate Truthy(v: Value) {
    match v
    case Num(n) => n != 0
    case NaN => false
    case Str(s) => s != ""
    case Bool(b) => b
    case Null => false
    case Undefined => false
    case Date(_, _, _, _) => true
    case InvalidDate => true
  }

  /** JavaScript `typeof v`. */
  function TypeOf(v: Value): string {
    match v
    case Num(_) => "number"
    case NaN => "number"
    case Str(_) => "string"
    case Bool(_) => "boolean"
    case Undefined => "undefined"
    case _ => "object"
  }

  /** JavaScript's global `isNaN(v)`, which first converts `v` to a number:
      `undefined`, an invalid moment and a string that is not numeric text
      convert to NaN; `null`, booleans and valid moments do not. */
  predicate IsNaNCoerced(v: Value) {
    match v
    case Num(_) => false
    case NaN => true
    case Str(s) => !NumericText(Trim(s))
    case Bool(_) => false
    case Null => false
    case Undefined => true
    case Date(_, _, _, _) => false
    case InvalidDate => true
  }

  predicate IsSpace(c: char) {
    c == ' ' || c == '\t' || c == '\n' || c == '\r'
  }

  /** The text `Number(s)` reads: `s` without leading and trailing white space. */
  function Trim(s: string): (t: string)
    ensures |t| <= |s|
    decreases |s|
  {
    if |s| > 0 && IsSpace(s[0]) then Trim(s[1..])
    else if |s| > 0 && IsSpace(s[|s| - 1]) then Trim(s[..|s| - 1])
    else s
  }

  predicate IsDigit(c: char) {
    '0' <= c <= '9'
  }

  /** Trimmed text that `Number` reads as a number: empty (which reads as 0),
      `Infinity`, or a signed decimal numeral with at most one point and at
      least one digit. */
  predicate NumericText(t: string) {
    var u := if |t| > 0 && (t[0] == '+' || t[0] == '-') then t[1..] else t;
    || |t| == 0
    || u == "Infinity"
    || (&& |u| > 0
        && (forall i :: 0 <= i < |u| ==> IsDigit(u[i]) || u[i] == '.')
        && (exists i :: 0 <= i < |u| && IsDigit(u[i]))
        && (forall i, j :: 0 <= i < j < |u| && u[i] == '.' ==> u[j] != '.'))
  }

  /** `isNaN` on a few values: a word and `undefined` convert to NaN,
      padded digits, the empty string and `null` do not. */
  lemma IsNaNExamples()
    ensures IsNaNCoerced(Str("abc")) && IsNaNCoerced(Undefined) && IsNaNCoerced(InvalidDate)
    ensures !IsNaNCoerced(Str(" 12 ")) && !IsNaNCoerced(Str("")) && !IsNaNCoerced(Null)
  {
    assert " 12 "[0] == ' ' && " 12 "[1..] == "12 ";
    assert "12 "[0] == '1' && "12 "[2] == ' ' && "12 "[..2] == "12";
    assert "12"[0] == '1' && "12"[1] == '2';
    assert Trim(" 12 ") == Trim("12 ") == Trim("12") == "12";
    assert IsDigit("12"[0]) && IsDigit("12"[1]);
    assert forall i :: 0 <= i < |"12"| ==> IsDigit("12"[i]);
    assert NumericText("12");
    assert "abc"[0] == 'a' && "abc"[2] == 'c';
    assert Trim("abc") == "abc";
    assert !(IsDigit("abc"[0]) || "abc"[0] == '.') && |"abc"| != |"Infinity"|;
    var t := "abc";
    assert !(|t| > 0 && (t[0] == '+' || t[0] == '-'));
    assert t != "Infinity";
    assert !(forall i :: 0 <= i < |t| ==> IsDigit(t[i]) || t[i] == '.');
    assert !NumericText(t);
  }

  datatype Entry = Entry(key: string, value: Value)

  /** An object's own properties in `Object.keys` order. */
  type Row = seq<Entry>

  function Keys(row: Row): seq<string> {
    seq(|row|, i requires 0 <= i < |row| => row[i].key)
  }

  predicate DistinctKeys(row: Row) {
    forall i, j :: 0 <= i < j < |row| ==> row[i].key != row[j].key
  }

  predicate Distinct(ks: seq<string>) {
    forall i, j :: 0 <= i < j < |ks| ==> ks[i] != ks[j]
  }

  /** `row[k]`: the value of key `k`, or `undefined` when there is none. */
  function Get(row: Row, k: string): Value {
    if |row| == 0 then Undefined
    else if row[0].key == k then row[0].value
    else Get(row[1..], k)
  }

  /** `row[k] = v`: an existing key keeps its place, a new key goes last. */
  function Set(row: Row, k: string, v: Value): Row {
    if |row| == 0 then [Entry(k, v)]
    else if row[0].key == k then [Entry(k, v)] + row[1..]
    else [row[0]] + Set(row[1..], k, v)
  }

  /** The assignments `row[k] = v` for each entry of `fields`, in order. */
  function SetAll(row: Row, fields: Row): Row
    decreases |fields|
  {
    if |fields| == 0 then row
    else SetAll(Set(row, fields[0].key, fields[0].value), fields[1..])
  }

  /** The key order that results from assigning the keys `ks2`, in order, to
      an object whose keys are `ks`. */
  function MergeKeys(ks: seq<string>, ks2: seq<string>): seq<string>
    decreases |ks2|
  {
    if |ks2| == 0 then ks
    else MergeKeys(if ks2[0] in ks then ks else ks + [ks2[0]], ks2[1..])
  }

  /** A parsed CSV record; the pipeline updates its fields in place and hands
      the same object from stage to stage. */
  class Record {
    var entries: Row

    constructor(e: Row)
      ensures entries == e
    {
      entries := e;
    }
  }

  lemma KeysTail(row: Row)
    requires |row| > 0
    ensures Keys(row) == [row[0].key] + Keys(row[1..])
  {
  }

  lemma {:induction false} GetAbsent(row: Row, k: string)
    requires k !in Keys(row)
    ensures Get(row, k) == Undefined
  {
    if |row| > 0 {
      KeysTail(row);
      GetAbsent(row[1..], k);
    }
  }

  lemma {:induction false} GetAt(row: Row, i: int)
    requires DistinctKeys(row) && 0 <= i < |row|
    ensures Get(row, row[i].key) == row[i].value
  {
    if i > 0 {
      GetAt(row[1..], i - 1);
    }
  }

  lemma {:induction false} GetSetSame(row: Row, k: string, v: Value)
    ensures Get(Set(row, k, v), k) == v
  {
    if |row| > 0 && row[0].key != k {
      GetSetSame(row[1..], k, v);
    }
  }

  lemma {:induction false} GetSetOther(row: Row, k: string, v: Value, k2: string)
    requires k2 != k
    ensures Get(Set(row, k, v), k2) == Get(row, k2)
  {
    if |row| > 0 && row[0].key != k {
      GetSetOther(row[1..], k, v, k2);
    }
  }

  lemma {:induction false} KeysOfSet(row: Row, k: string, v: Value)
    ensures Keys(Set(row, k, v)) == if k in Keys(row) then Keys(row) else Keys(row) + [k]
  {
    if |row| > 0 {
      KeysTail(row);
      var s := Set(row, k, v);
      KeysTail(s);
      if row[0].key == k {
        assert s[1..] == row[1..];
      } else {
        assert s[1..] == Set(row[1..], k, v);
        KeysOfSet(row[1..], k, v);
      }
    }
  }

  lemma {:induction false} SetUnchanged(row: Row, k: string)
    requires k in Keys(row)
    ensures Set(row, k, Get(row, k)) == row
  {
    KeysTail(row);
    if row[0].key != k {
      SetUnchanged(row[1..], k);
    }
  }

  lemma {:induction false} GetSetAll(row: Row, fields: Row, k: string)
    requires DistinctKeys(fields)
    ensures Get(SetAll(row, fields), k) == if k in Keys(fields) then Get(fields, k) else Get(row, k)
    decreases |fields|
  {
    if |fields| > 0 {
      var f := fields[0];
      var rest := fields[1..];
      KeysTail(fields);
      GetSetAll(Set(row, f.key, f.value), rest, k);
      if k in Keys(rest) {
        var j :| 0 <= j < |rest| && rest[j].key == k;
        assert fields[j + 1].key == k;
      } else if k == f.key {
        GetSetSame(row, k, f.value);
      } else {
        GetSetOther(row, f.key, f.value, k);
      }
    }
  }

  lemma {:induction false} KeysOfSetAll(row: Row, fields: Row)
    ensures Keys(SetAll(row, fields)) == MergeKeys(Keys(row), Keys(fields))
    decreases |fields|
  {
    if |fields| > 0 {
      var f := fields[0];
      KeysTail(fields);
      KeysOfSet(row, f.key, f.value);
      KeysOfSetAll(Set(row, f.key, f.value), fields[1..]);
    }
  }

  lemma {:induction false} SetAllUnchanged(row: Row, fields: Row)
    requires forall i :: 0 <= i < |fields| ==> fields[i].key in Keys(row) && Get(row, fields[i].key) == fields[i].value
    ensures SetAll(row, fields) == row
    decreases |fields|
  {
    if |fields| > 0 {
      SetUnchanged(row, fields[0].key);
      SetAllUnchanged(row, fields[1..]);
    }
  }

  /** Assigning the same fields a second time changes nothing. */
  lemma SetAllIdempotent(row: Row, fields: Row)
    requires DistinctKeys(fields)
    ensures SetAll(SetAll(row, fields), fields) == SetAll(row, fields)
  {
    var r := SetAll(row, fields);
    KeysOfSetAll(row, fields);
    forall i | 0 <= i < |fields|
      ensures fields[i].key in Keys(r) && Get(r, fields[i].key) == fields[i].value
    {
      assert Keys(fields)[i] == fields[i].key;
      MergeKeysContains(Keys(row), Keys(fields), fields[i].key);
      GetSetAll(row, fields, fields[i].key);
      GetAt(fields, i);
    }
    SetAllUnchanged(r, fields);
  }

  lemma {:induction false} MergeKeysContains(ks: seq<string>, ks2: seq<string>, k: string)
    ensures k in MergeKeys(ks, ks2) <==> k in ks || k in ks2
    decreases |ks2|
  {
    if |ks2| > 0 {
      assert ks2 == [ks2[0]] + ks2[1..];
      MergeKeysContains(if ks2[0] in ks then ks else ks + [ks2[0]], ks2[1..], k);
    }
  }

  /** Assignment never moves a key that is already there. */
  lemma {:induction false} MergeKeysPrefix(ks: seq<string>, ks2: seq<string>)
    ensures |ks| <= |MergeKeys(ks, ks2)| && MergeKeys(ks, ks2)[..|ks|] == ks
    decreases |ks2|
  {
    if |ks2| > 0 {
      var next := if ks2[0] in ks then ks else ks + [ks2[0]];
      MergeKeysPrefix(next, ks2[1..]);
      assert next[..|ks|] == ks;
    }
  }

  /** Assignment adds a key only when it is missing, so an object's keys
      stay distinct. */
  lemma {:induction false} MergeKeysDistinct(ks: seq<string>, ks2: seq<string>)
    requires Distinct(ks)
    ensures Distinct(MergeKeys(ks, ks2))
    decreases |ks2|
  {
    if |ks2| > 0 {
      var next := if ks2[0] in ks then ks else ks + [ks2[0]];
      assert Distinct(next);
      MergeKeysDistinct(next, ks2[1..]);
    }
  }
}
