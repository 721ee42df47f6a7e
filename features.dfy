/** Feature derivation for one record: the body of each of the three passes
    of `preprocessData` (tensorflow.js), as functions on a row's entries. */
module Features {
  import opened Rows

  /** The eleven fields the second pass assigns, in the order it assigns them. */
  const DerivedNames: seq<string> := [
    "day", "month", "quarter", "black_friday_month", "is_dec_holiday",
    "start_of_year", "discount_per", "promo_length", "is_weekend",
    "is_after_payday", "start_of_month"]

  type MomentValue = v: Value | IsMoment(v) witness InvalidDate

  /** The two library behaviours the derivation relies on and this model does
      not reimplement: `moment(v, 'YYYY-MM-DD')` for a value that is not
      already a moment, and JavaScript's floating-point `a / b`. */
  datatype Host = Host(parseMoment: Value -> MomentValue, divide: (Value, Value) -> NumOrNaN)

  /** What JavaScript's `/` yields: always a number, NaN at worst. */
  type NumOrNaN = v: Value | v.Num? || v.NaN? witness NaN

  /** `moment(v, 'YYYY-MM-DD')`: a moment passed in is cloned unchanged. */
  function ParseDate(host: Host, v: Value): (m: Value)
    ensures IsMoment(m)
    ensures IsMoment(v) ==> m == v
  {
    if IsMoment(v) then v else host.parseMoment(v)
  }

  /** First pass: `row[DATE_COL] = moment(row[DATE_COL], 'YYYY-MM-DD')`. */
  function ParseDateField(host: Host, row: Row): Row {
    Set(row, DateCol, ParseDate(host, Get(row, DateCol)))
  }

  // moment's getters: an invalid moment answers NaN to each of them.
  function DateOfMonth(m: Value): Value {
    if m.Date? then Num(m.day) else NaN
  }

  function MonthIndex(m: Value): Value {
    if m.Date? then Num(m.month0) else NaN
  }

  function WeekdayIndex(m: Value): Value {
    if m.Date? then Num(m.weekday) else NaN
  }

  /** `quarter()`, which moment computes as ceil((month() + 1) / 3). */
  function Quarter(m: Value): Value {
    if m.Date? then Num((m.month0 + 1 + 2) / 3) else NaN
  }

  /** `v + 1` on what a getter returns (a number or NaN). */
  function PlusOne(v: Value): Value {
    if v.Num? then Num(v.n + 1) else NaN
  }

  /** `v === n` for a number literal `n`. */
  predicate StrictEquals(v: Value, n: int) {
    v == Num(n)
  }

  /** `v >= n` for a number literal `n`; every comparison with NaN is false. */
  predicate AtLeast(v: Value, n: int) {
    v.Num? && v.n >= n
  }

  /** `cond ? 1 : 0`. */
  function Flag(b: bool): Value {
    Num(if b then 1 else 0)
  }

  /** The values the second pass assigns to the derived names. The flags
      read `row['month']` right after it is assigned, so they test the month
      value computed here; the raw covariates are read from fields that no
      earlier assignment touches. */
  function DerivedFields(host: Host, row: Row): Row {
    var date := Get(row, DateCol);
    var month := PlusOne(MonthIndex(date));
    [ Entry("day", DateOfMonth(date)),
      Entry("month", month),
      Entry("quarter", Quarter(date)),
      Entry("black_friday_month", Flag(StrictEquals(month, 11))),
      Entry("is_dec_holiday", Flag(StrictEquals(month, 12) || StrictEquals(month, 11))),
      Entry("start_of_year", Flag(StrictEquals(month, 1))),
      Entry("discount_per", host.divide(Get(row, "rel_promo_price"), Get(row, "rsp"))),
      Entry("promo_length", Flag(Truthy(Get(row, "is_promo")))),
      Entry("is_weekend", Flag(AtLeast(WeekdayIndex(date), 5))),
      Entry("is_after_payday", Flag(AtLeast(DateOfMonth(date), 25))),
      Entry("start_of_month", Flag(StrictEquals(DateOfMonth(date), 1))) ]
  }

  /** Second pass: the eleven assignments. */
  function AddFeatures(host: Host, row: Row): Row {
    SetAll(row, DerivedFields(host, row))
  }

  /** Third pass, per field: `if (isNaN(v) && typeof v === 'number') v = 0`.
      Strings, `undefined` and invalid moments also satisfy `isNaN`, but their
      `typeof` is not "number", so only NaN itself is rewritten. */
  function ZeroNaNValue(v: Value): (r: Value)
    ensures r != NaN
    ensures v != NaN ==> r == v
    ensures v == NaN ==> r == Num(0)
  {
    if IsNaNCoerced(v) && TypeOf(v) == "number" then Num(0) else v
  }

  function ZeroNaN(row: Row): Row {
    seq(|row|, i requires 0 <= i < |row| => Entry(row[i].key, ZeroNaNValue(row[i].value)))
  }

  /** What `preprocessData` does to one record. */
  function PreprocessRow(host: Host, row: Row): Row {
    ZeroNaN(AddFeatures(host, ParseDateField(host, row)))
  }

  // ---------------------------------------------------------------------
  // Facts about the derived entry list and the individual passes.

  lemma DerivedNamesDistinct()
    ensures forall i, j :: 0 <= i < j < |DerivedNames| ==> DerivedNames[i] != DerivedNames[j]
    ensures DateCol !in DerivedNames
  {
  }

  lemma DerivedFieldsShape(host: Host, row: Row)
    ensures Keys(DerivedFields(host, row)) == DerivedNames
    ensures DistinctKeys(DerivedFields(host, row))
  {
    DerivedNamesDistinct();
  }

  lemma DerivedAt(host: Host, row: Row, i: int)
    requires 0 <= i < |DerivedNames|
    ensures Get(DerivedFields(host, row), DerivedNames[i]) == DerivedFields(host, row)[i].value
  {
    DerivedFieldsShape(host, row);
    GetAt(DerivedFields(host, row), i);
  }

  lemma {:induction false} GetZeroNaN(row: Row, k: string)
    ensures Get(ZeroNaN(row), k) == ZeroNaNValue(Get(row, k))
  {
    if |row| > 0 {
      assert ZeroNaN(row)[1..] == ZeroNaN(row[1..]);
      GetZeroNaN(row[1..], k);
    }
  }

  /** NaN to 0 leaves keys and their order alone and is idempotent. */
  lemma ZeroNaNShape(row: Row)
    ensures Keys(ZeroNaN(row)) == Keys(row)
    ensures ZeroNaN(ZeroNaN(row)) == ZeroNaN(row)
  {
  }

  /** The first pass reads the other fields through unchanged. */
  lemma ParseDateFieldGet(host: Host, row: Row, k: string)
    ensures Get(ParseDateField(host, row), k) ==
            if k == DateCol then ParseDate(host, Get(row, DateCol)) else Get(row, k)
  {
    if k == DateCol {
      GetSetSame(row, DateCol, ParseDate(host, Get(row, DateCol)));
    } else {
      GetSetOther(row, DateCol, ParseDate(host, Get(row, DateCol)), k);
    }
  }

  /** Re-running the first pass on a record changes nothing. */
  lemma ParseDateFieldIdempotent(host: Host, row: Row)
    ensures ParseDateField(host, ParseDateField(host, row)) == ParseDateField(host, row)
  {
    var r := ParseDateField(host, row);
    ParseDateFieldGet(host, row, DateCol);
    KeysOfSet(row, DateCol, ParseDate(host, Get(row, DateCol)));
    assert Keys(r)[|Keys(r)| - 1] == DateCol || DateCol in Keys(row);
    assert DateCol in Keys(r);
    SetUnchanged(r, DateCol);
  }

  /** The second pass reads only fields it does not assign, so running it
      again assigns the same values to the same keys and changes nothing. */
  lemma AddFeaturesIdempotent(host: Host, row: Row)
    ensures AddFeatures(host, AddFeatures(host, row)) == AddFeatures(host, row)
  {
    var fs := DerivedFields(host, row);
    var r := AddFeatures(host, row);
    DerivedFieldsShape(host, row);
    GetSetAll(row, fs, DateCol);
    GetSetAll(row, fs, "rel_promo_price");
    GetSetAll(row, fs, "rsp");
    GetSetAll(row, fs, "is_promo");
    assert DerivedFields(host, r) == fs;
    SetAllIdempotent(row, fs);
  }

  // ---------------------------------------------------------------------
  // What a preprocessed record holds.

  /** Every field of a preprocessed record: the parsed date, a derived value
      with NaN replaced by 0, or the field's old value with NaN replaced by 0. */
  lemma PreprocessGet(host: Host, row: Row, k: string)
    ensures Get(PreprocessRow(host, row), k) ==
            if k == DateCol then ParseDate(host, Get(row, DateCol))
            else if k in DerivedNames then ZeroNaNValue(Get(DerivedFields(host, ParseDateField(host, row)), k))
            else ZeroNaNValue(Get(row, k))
  {
    var r1 := ParseDateField(host, row);
    var fs := DerivedFields(host, r1);
    DerivedFieldsShape(host, r1);
    DerivedNamesDistinct();
    GetZeroNaN(AddFeatures(host, r1), k);
    GetSetAll(r1, fs, k);
    ParseDateFieldGet(host, row, k);
  }

  /** The derived fields, read through the first pass. */
  lemma DerivedInputs(host: Host, row: Row)
    ensures var fs := DerivedFields(host, ParseDateField(host, row));
            var date := ParseDate(host, Get(row, DateCol));
            var month := PlusOne(MonthIndex(date));
            && Get(fs, "day") == DateOfMonth(date)
            && Get(fs, "month") == month
            && Get(fs, "quarter") == Quarter(date)
            && Get(fs, "black_friday_month") == Flag(StrictEquals(month, 11))
            && Get(fs, "is_dec_holiday") == Flag(StrictEquals(month, 12) || StrictEquals(month, 11))
            && Get(fs, "start_of_year") == Flag(StrictEquals(month, 1))
            && Get(fs, "discount_per") == host.divide(Get(row, "rel_promo_price"), Get(row, "rsp"))
            && Get(fs, "promo_length") == Flag(Truthy(Get(row, "is_promo")))
            && Get(fs, "is_weekend") == Flag(AtLeast(WeekdayIndex(date), 5))
            && Get(fs, "is_after_payday") == Flag(AtLeast(DateOfMonth(date), 25))
            && Get(fs, "start_of_month") == Flag(StrictEquals(DateOfMonth(date), 1))
  {
    var r1 := ParseDateField(host, row);
    ParseDateFieldGet(host, row, DateCol);
    ParseDateFieldGet(host, row, "rel_promo_price");
    ParseDateFieldGet(host, row, "rsp");
    ParseDateFieldGet(host, row, "is_promo");
    DerivedAt(host, r1, 0);
    DerivedAt(host, r1, 1);
    DerivedAt(host, r1, 2);
    DerivedAt(host, r1, 3);
    DerivedAt(host, r1, 4);
    DerivedAt(host, r1, 5);
    DerivedAt(host, r1, 6);
    DerivedAt(host, r1, 7);
    DerivedAt(host, r1, 8);
    DerivedAt(host, r1, 9);
    DerivedAt(host, r1, 10);
  }

  /** The month-based flags follow the stored `month` exactly, and `month`
      is moment's 0-based month plus one for a valid date (0 otherwise). */
  lemma MonthFlagsFollowMonth(host: Host, row: Row)
    ensures var r := PreprocessRow(host, row);
            var date := ParseDate(host, Get(row, DateCol));
            var month := Get(r, "month");
            && month == (if date.Date? then Num(date.month0 + 1) else Num(0))
            && (date.Date? ==> 1 <= month.n <= 12)
            && Get(r, "black_friday_month") == Flag(month == Num(11))
            && Get(r, "is_dec_holiday") == Flag(month == Num(11) || month == Num(12))
            && Get(r, "start_of_year") == Flag(month == Num(1))
  {
    DerivedNamesDistinct();
    DerivedInputs(host, row);
    PreprocessGet(host, row, "month");
    PreprocessGet(host, row, "black_friday_month");
    PreprocessGet(host, row, "is_dec_holiday");
    PreprocessGet(host, row, "start_of_year");
  }

  /** `quarter` is 1..4 and holds the (1-based) month for a valid date. */
  lemma QuarterFollowsMonth(host: Host, row: Row)
    ensures var r := PreprocessRow(host, row);
            var date := ParseDate(host, Get(row, DateCol));
            var q := Get(r, "quarter");
            && q.Num?
            && (date.Date? ==> 1 <= q.n <= 4 && 3 * q.n - 2 <= date.month0 + 1 <= 3 * q.n)
            && (!date.Date? ==> q == Num(0))
  {
    DerivedNamesDistinct();
    DerivedInputs(host, row);
    MonthFlagsFollowMonth(host, row);
    PreprocessGet(host, row, "quarter");
  }

  /** `day` is the day of month (0 for an invalid date); the payday and
      start-of-month flags follow it, and `is_weekend` follows the weekday
      index as written: Friday (5) and Saturday (6) count, Sunday (0) not. */
  lemma DayFlagsFollowDay(host: Host, row: Row)
    ensures var r := PreprocessRow(host, row);
            var date := ParseDate(host, Get(row, DateCol));
            var day := Get(r, "day");
            && day == (if date.Date? then Num(date.day) else Num(0))
            && Get(r, "is_after_payday") == Flag(day.n >= 25)
            && Get(r, "start_of_month") == Flag(day == Num(1))
            && Get(r, "is_weekend") == Flag(date.Date? && date.weekday >= 5)
  {
    DerivedNamesDistinct();
    DerivedInputs(host, row);
    PreprocessGet(host, row, "day");
    PreprocessGet(host, row, "is_after_payday");
    PreprocessGet(host, row, "start_of_month");
    PreprocessGet(host, row, "is_weekend");
  }

  /** Every derived field holds a number after preprocessing: never NaN,
      `undefined` or any other kind of value. */
  lemma DerivedNumeric(host: Host, row: Row)
    ensures var r := PreprocessRow(host, row);
            forall k :: k in DerivedNames ==> Get(r, k).Num?
  {
    MonthFlagsFollowMonth(host, row);
    QuarterFollowsMonth(host, row);
    DayFlagsFollowDay(host, row);
    FlagsAreBits(host, row);
    PromoFields(host, row);
  }

  /** `promo_length` is 1 exactly when `is_promo` was truthy, and
      `discount_per` is the library quotient with NaN replaced by 0. */
  lemma PromoFields(host: Host, row: Row)
    ensures var r := PreprocessRow(host, row);
            && Get(r, "promo_length") == Flag(Truthy(Get(row, "is_promo")))
            && Get(r, "discount_per") == ZeroNaNValue(host.divide(Get(row, "rel_promo_price"), Get(row, "rsp")))
            && Get(r, "discount_per") != NaN
  {
    DerivedNamesDistinct();
    DerivedInputs(host, row);
    PreprocessGet(host, row, "promo_length");
    PreprocessGet(host, row, "discount_per");
  }

  /** The seven 0/1 flags (every derived field but `day`, `month`,
      `quarter` and `discount_per`) hold 0 or 1. */
  lemma FlagsAreBits(host: Host, row: Row)
    ensures var r := PreprocessRow(host, row);
            forall k :: k in ["black_friday_month", "is_dec_holiday", "start_of_year", "promo_length",
                              "is_weekend", "is_after_payday", "start_of_month"] ==>
              Get(r, k) == Num(0) || Get(r, k) == Num(1)
  {
    MonthFlagsFollowMonth(host, row);
    DayFlagsFollowDay(host, row);
    PromoFields(host, row);
  }

  /** After the third pass no field of the record is NaN. */
  lemma NoNaNAfterPreprocess(host: Host, row: Row)
    ensures forall i :: 0 <= i < |PreprocessRow(host, row)| ==> PreprocessRow(host, row)[i].value != NaN
  {
  }

  /** A field that is neither the date nor a derived name keeps its value,
      except that NaN becomes 0; the date field holds the parsed moment. */
  lemma OtherFieldsKept(host: Host, row: Row, k: string)
    requires k != DateCol && k !in DerivedNames
    ensures Get(PreprocessRow(host, row), k) == ZeroNaNValue(Get(row, k))
    ensures Get(row, k) != NaN ==> Get(PreprocessRow(host, row), k) == Get(row, k)
  {
    PreprocessGet(host, row, k);
  }

  lemma DateFieldParsed(host: Host, row: Row)
    ensures Get(PreprocessRow(host, row), DateCol) == ParseDate(host, Get(row, DateCol))
    ensures IsMoment(Get(PreprocessRow(host, row), DateCol))
  {
    DerivedNamesDistinct();
    PreprocessGet(host, row, DateCol);
  }

  /** The keys of a preprocessed record: the old keys in their old order,
      then `sales_date` if it was missing, then each derived name that was
      missing, in assignment order. They depend on the old keys alone. */
  lemma PreprocessKeys(host: Host, row: Row)
    ensures Keys(PreprocessRow(host, row)) == MergeKeys(MergeKeys(Keys(row), [DateCol]), DerivedNames)
  {
    var r1 := ParseDateField(host, row);
    var fs := DerivedFields(host, r1);
    KeysOfSet(row, DateCol, ParseDate(host, Get(row, DateCol)));
    assert MergeKeys(Keys(row), [DateCol]) == MergeKeys(if DateCol in Keys(row) then Keys(row) else Keys(row) + [DateCol], []);
    DerivedFieldsShape(host, r1);
    KeysOfSetAll(r1, fs);
    ZeroNaNShape(AddFeatures(host, r1));
  }

  /** Preprocessing only ever adds a key that is missing, so a record whose
      keys were distinct still has distinct keys afterwards. */
  lemma PreprocessDistinct(host: Host, row: Row)
    requires DistinctKeys(row)
    ensures DistinctKeys(PreprocessRow(host, row))
  {
    var r := PreprocessRow(host, row);
    assert Distinct(Keys(row));
    MergeKeysDistinct(Keys(row), [DateCol]);
    MergeKeysDistinct(MergeKeys(Keys(row), [DateCol]), DerivedNames);
    PreprocessKeys(host, row);
    assert Distinct(Keys(r));
    forall i, j | 0 <= i < j < |r|
      ensures r[i].key != r[j].key
    {
      assert Keys(r)[i] == r[i].key && Keys(r)[j] == r[j].key;
    }
  }

  lemma {:induction false} MergeExtends(ks: seq<string>, ks2: seq<string>, ks3: seq<string>)
    ensures var m := MergeKeys(MergeKeys(ks, ks2), ks3);
            && |ks| <= |m| && m[..|ks|] == ks
            && forall k :: k in ks2 || k in ks3 ==> k in m
  {
    var m1 := MergeKeys(ks, ks2);
    var m := MergeKeys(m1, ks3);
    MergeKeysPrefix(ks, ks2);
    MergeKeysPrefix(m1, ks3);
    assert m[..|ks|] == m[..|m1|][..|ks|];
    forall k | k in ks2 || k in ks3
      ensures k in m
    {
      MergeKeysContains(ks, ks2, k);
      MergeKeysContains(m1, ks3, k);
    }
  }

  /** Preprocessing keeps a record's fields in place and adds the date and
      all eleven derived names. */
  lemma PreprocessExtends(host: Host, row: Row)
    ensures var ks := Keys(PreprocessRow(host, row));
            && |row| <= |ks| && ks[..|row|] == Keys(row)
            && DateCol in ks
            && forall k :: k in DerivedNames ==> k in ks
  {
    PreprocessKeys(host, row);
    MergeExtends(Keys(row), [DateCol], DerivedNames);
  }

  /** Running the whole preprocessing a second time leaves `sales_date` and
      the calendar fields unchanged. */
  lemma ReprocessCalendarStable(host: Host, row: Row, r: Row)
    requires r == PreprocessRow(host, row)
    ensures var r2 := PreprocessRow(host, r);
            && Get(r2, DateCol) == Get(r, DateCol)
            && Get(r2, "day") == Get(r, "day") && Get(r2, "month") == Get(r, "month")
            && Get(r2, "quarter") == Get(r, "quarter")
            && Get(r2, "black_friday_month") == Get(r, "black_friday_month")
            && Get(r2, "is_dec_holiday") == Get(r, "is_dec_holiday")
            && Get(r2, "start_of_year") == Get(r, "start_of_year")
            && Get(r2, "is_weekend") == Get(r, "is_weekend")
            && Get(r2, "is_after_payday") == Get(r, "is_after_payday")
            && Get(r2, "start_of_month") == Get(r, "start_of_month")
  {
    DateFieldParsed(host, row);
    DateFieldParsed(host, r);
    MonthFlagsFollowMonth(host, row);
    MonthFlagsFollowMonth(host, r);
    QuarterFollowsMonth(host, row);
    QuarterFollowsMonth(host, r);
    DayFlagsFollowDay(host, row);
    DayFlagsFollowDay(host, r);
  }

  /** A second run also keeps `promo_length`. */
  lemma ReprocessPromoStable(host: Host, row: Row, r: Row)
    requires r == PreprocessRow(host, row)
    ensures Get(PreprocessRow(host, r), "promo_length") == Get(r, "promo_length")
  {
    DerivedNamesDistinct();
    PromoFields(host, row);
    PromoFields(host, r);
    OtherFieldsKept(host, row, "is_promo");
    assert Truthy(ZeroNaNValue(Get(row, "is_promo"))) == Truthy(Get(row, "is_promo"));
  }

  /** A second run keeps `discount_per` when neither covariate was NaN. A NaN
      covariate became 0 in the first run, so the second run divides other
      values: for that field preprocessing need not be idempotent. */
  lemma {:induction false} ReprocessDiscountStable(host: Host, row: Row, r: Row)
    requires r == PreprocessRow(host, row)
    requires Get(row, "rel_promo_price") != NaN && Get(row, "rsp") != NaN
    ensures Get(PreprocessRow(host, r), "discount_per") == Get(r, "discount_per")
  {
    DerivedNamesDistinct();
    OtherFieldsKept(host, row, "rel_promo_price");
    OtherFieldsKept(host, row, "rsp");
    DiscountFromCovariates(host, r, row);
  }

  /** `discount_per` depends on the two covariates alone. */
  lemma DiscountFromCovariates(host: Host, a: Row, b: Row)
    requires Get(a, "rel_promo_price") == Get(b, "rel_promo_price") && Get(a, "rsp") == Get(b, "rsp")
    ensures Get(PreprocessRow(host, a), "discount_per") == Get(PreprocessRow(host, b), "discount_per")
  {
    PromoFields(host, a);
    PromoFields(host, b);
  }

  /** Two dates worked through the derivation (2024-11-15 is a Friday,
      2024-01-01 a Monday). As written, the Friday counts as a weekend day. */
  lemma CalendarExamples(host: Host, row: Row)
    ensures ParseDate(host, Get(row, DateCol)) == Date(2024, 10, 15, 5) ==>
              var r := PreprocessRow(host, row);
              && Get(r, "month") == Num(11) && Get(r, "quarter") == Num(4)
              && Get(r, "black_friday_month") == Num(1) && Get(r, "is_dec_holiday") == Num(1)
              && Get(r, "start_of_year") == Num(0) && Get(r, "start_of_month") == Num(0)
              && Get(r, "is_after_payday") == Num(0) && Get(r, "is_weekend") == Num(1)
    ensures ParseDate(host, Get(row, DateCol)) == Date(2024, 0, 1, 1) ==>
              var r := PreprocessRow(host, row);
              && Get(r, "month") == Num(1) && Get(r, "quarter") == Num(1)
              && Get(r, "start_of_year") == Num(1) && Get(r, "start_of_month") == Num(1)
              && Get(r, "black_friday_month") == Num(0) && Get(r, "is_dec_holiday") == Num(0)
              && Get(r, "is_weekend") == Num(0)
  {
    MonthFlagsFollowMonth(host, row);
    QuarterFollowsMonth(host, row);
    DayFlagsFollowDay(host, row);
  }
}
