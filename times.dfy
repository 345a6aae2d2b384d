/**
 transform_times, process_timesheets_column and adjust_checkout_times: the
 timesheets frame is updated in place, first by filling missing checkouts
 and then missing checkins from ordered condition/choice rules, then by
 moving overnight checkouts to the next day and adding the time_diff and
 hours_diff columns.
 */
module Times {
  import opened Wrappers
  import opened Punches

  const Noon: Duration := 12 * Hour
  const NineAm: Duration := 9 * Hour
  const SixPm: Duration := 18 * Hour
  const NextDayEightAm: Duration := Day + 8 * Hour
  const Midnight: Duration := 0

  datatype Column = Checkin | Checkout

  /** One (conditions, choices) pair of process_timesheets_column: a boolean
      mask per condition, each with the duration chosen where it holds. */
  datatype ConditionChoices = ConditionChoices(conditions: seq<seq<bool>>, choices: seq<Duration>)

  /** np.select needs as many choices as conditions, each mask one per row. */
  predicate Fits(cc: ConditionChoices, n: nat) {
    |cc.conditions| == |cc.choices| &&
    forall c :: 0 <= c < |cc.conditions| ==> |cc.conditions[c]| == n
  }

  predicate AllFit(ccs: seq<ConditionChoices>, n: nat) {
    forall k :: 0 <= k < |ccs| ==> Fits(ccs[k], n)
  }

  /** The first of conditions[..n] that holds at row i. */
  function FirstMatch(conditions: seq<seq<bool>>, i: nat, n: nat): (r: Option<int>)
    requires n <= |conditions|
    requires forall c :: 0 <= c < |conditions| ==> i < |conditions[c]|
    ensures r.Some? ==> 0 <= r.value < n && conditions[r.value][i]
    ensures forall c :: 0 <= c < n && conditions[c][i] ==> r.Some? && r.value <= c
  {
    if n == 0 then None
    else
      var r := FirstMatch(conditions, i, n - 1);
      if r.Some? then r
      else if conditions[n - 1][i] then Some(n - 1)
      else None
  }

  /** No condition before the c-th holds at row i. */
  predicate NoneBefore(cc: ConditionChoices, i: nat, c: nat)
    requires c <= |cc.conditions|
    requires forall d :: 0 <= d < |cc.conditions| ==> i < |cc.conditions[d]|
  {
    forall d :: 0 <= d < c ==> !cc.conditions[d][i]
  }

  /** np.select(conditions, choices, default): per row, the choice of the
      first condition that holds, or the default where none does. */
  function Select(cc: ConditionChoices, default: seq<Option<Duration>>): (r: seq<Option<Duration>>)
    requires Fits(cc, |default|)
    ensures |r| == |default|
    ensures forall i :: 0 <= i < |r| && NoneBefore(cc, i, |cc.conditions|) ==> r[i] == default[i]
    ensures forall i, c :: 0 <= i < |r| && 0 <= c < |cc.conditions| && cc.conditions[c][i] && NoneBefore(cc, i, c) ==>
      r[i] == Some(cc.choices[c])
  {
    seq(|default|, i requires 0 <= i < |default| =>
      var m := FirstMatch(cc.conditions, i, |cc.conditions|);
      if m.Some? then Some(cc.choices[m.value]) else default[i])
  }

  /** The column after np.select has been applied once per pair, in order. */
  function ApplyConditionChoices(values: seq<Option<Duration>>, ccs: seq<ConditionChoices>): (r: seq<Option<Duration>>)
    requires AllFit(ccs, |values|)
    ensures |r| == |values|
  {
    if |ccs| == 0 then values
    else Select(ccs[|ccs| - 1], ApplyConditionChoices(values, ccs[..|ccs| - 1]))
  }

  function ColumnOf(rows: seq<Punch>, column: Column): (v: seq<Option<Duration>>)
    ensures |v| == |rows|
  {
    seq(|rows|, i requires 0 <= i < |rows| =>
      if column == Checkin then rows[i].checkin else rows[i].checkout)
  }

  function WithColumn(rows: seq<Punch>, column: Column, values: seq<Option<Duration>>): (r: seq<Punch>)
    requires |values| == |rows|
    ensures |r| == |rows|
  {
    seq(|rows|, i requires 0 <= i < |rows| =>
      if column == Checkin then rows[i].(checkin := values[i]) else rows[i].(checkout := values[i]))
  }

  lemma ColumnOfWithColumn(rows: seq<Punch>, column: Column, values: seq<Option<Duration>>)
    requires |values| == |rows|
    ensures ColumnOf(WithColumn(rows, column, values), column) == values
  {
  }

  lemma WithColumnTwice(rows: seq<Punch>, column: Column, v: seq<Option<Duration>>, w: seq<Option<Duration>>)
    requires |v| == |rows| && |w| == |rows|
    ensures WithColumn(WithColumn(rows, column, v), column, w) == WithColumn(rows, column, w)
  {
  }

  // ----- The rule table of transform_times, as a per-row reference -----

  /** Missing checkout: 18:00 after a checkin up to noon, 1 day 08:00 after a
      later one; unchanged when present or when checkin is missing too. */
  function FillCheckout(p: Punch): Punch {
    if p.checkout.None? && p.checkin.Some? then
      p.(checkout := Some(if p.checkin.value <= Noon then SixPm else NextDayEightAm))
    else p
  }

  /** Missing checkin: 00:00 before a checkout up to 09:00, 09:00 before a
      later one; unchanged when present or when checkout is missing too. */
  function FillCheckin(p: Punch): Punch {
    if p.checkin.None? && p.checkout.Some? then
      p.(checkin := Some(if p.checkout.value <= NineAm then Midnight else NineAm))
    else p
  }

  /** Checkout is filled first; the checkin rule reads the filled checkout. */
  function FillPunch(p: Punch): Punch {
    FillCheckin(FillCheckout(p))
  }

  function FillCheckouts(rows: seq<Punch>): (r: seq<Punch>)
    ensures |r| == |rows|
  {
    seq(|rows|, i requires 0 <= i < |rows| => FillCheckout(rows[i]))
  }

  function FillCheckins(rows: seq<Punch>): (r: seq<Punch>)
    ensures |r| == |rows|
  {
    seq(|rows|, i requires 0 <= i < |rows| => FillCheckin(rows[i]))
  }

  function FillTimes(rows: seq<Punch>): (r: seq<Punch>)
    ensures |r| == |rows|
  {
    seq(|rows|, i requires 0 <= i < |rows| => FillPunch(rows[i]))
  }

  /** checkout_condition_choices, built from the frame before checkout is processed. */
  function CheckoutConditionChoices(rows: seq<Punch>): (ccs: seq<ConditionChoices>)
    ensures AllFit(ccs, |rows|)
  {
    [ConditionChoices(
      [seq(|rows|, i requires 0 <= i < |rows| =>
         rows[i].checkout.None? && rows[i].checkin.Some? && rows[i].checkin.value <= Noon),
       seq(|rows|, i requires 0 <= i < |rows| =>
         rows[i].checkout.None? && rows[i].checkin.Some? && rows[i].checkin.value > Noon)],
      [SixPm, NextDayEightAm])]
  }

  /** checkin_condition_choices, built from the frame after checkout is processed. */
  function CheckinConditionChoices(rows: seq<Punch>): (ccs: seq<ConditionChoices>)
    ensures AllFit(ccs, |rows|)
  {
    [ConditionChoices(
      [seq(|rows|, i requires 0 <= i < |rows| =>
         rows[i].checkin.None? && rows[i].checkout.Some? && rows[i].checkout.value <= NineAm),
       seq(|rows|, i requires 0 <= i < |rows| =>
         rows[i].checkin.None? && rows[i].checkout.Some? && rows[i].checkout.value > NineAm)],
      [Midnight, NineAm])]
  }

  /** Running the checkout rules through np.select fills exactly as the table says. */
  lemma CheckoutRulesMatchTable(rows: seq<Punch>)
    ensures WithColumn(rows, Checkout,
              ApplyConditionChoices(ColumnOf(rows, Checkout), CheckoutConditionChoices(rows)))
            == FillCheckouts(rows)
  {
    var ccs := CheckoutConditionChoices(rows);
    assert ccs[..0] == [];
    var filled := ApplyConditionChoices(ColumnOf(rows, Checkout), ccs);
    assert ApplyConditionChoices(ColumnOf(rows, Checkout), ccs[..0]) == ColumnOf(rows, Checkout);
    assert filled == Select(ccs[0], ColumnOf(rows, Checkout));
    forall i | 0 <= i < |rows|
      ensures filled[i] == FillCheckout(rows[i]).checkout
    {
      var p := rows[i];
      if p.checkout.None? && p.checkin.Some? && p.checkin.value <= Noon {
        assert ccs[0].conditions[0][i] && NoneBefore(ccs[0], i, 0);
      } else if p.checkout.None? && p.checkin.Some? {
        assert ccs[0].conditions[1][i] && NoneBefore(ccs[0], i, 1);
      } else {
        assert NoneBefore(ccs[0], i, 2);
      }
    }
  }

  /** Running the checkin rules through np.select fills exactly as the table says. */
  lemma CheckinRulesMatchTable(rows: seq<Punch>)
    ensures WithColumn(rows, Checkin,
              ApplyConditionChoices(ColumnOf(rows, Checkin), CheckinConditionChoices(rows)))
            == FillCheckins(rows)
  {
    var ccs := CheckinConditionChoices(rows);
    assert ccs[..0] == [];
    var filled := ApplyConditionChoices(ColumnOf(rows, Checkin), ccs);
    assert ApplyConditionChoices(ColumnOf(rows, Checkin), ccs[..0]) == ColumnOf(rows, Checkin);
    assert filled == Select(ccs[0], ColumnOf(rows, Checkin));
    forall i | 0 <= i < |rows|
      ensures filled[i] == FillCheckin(rows[i]).checkin
    {
      var p := rows[i];
      if p.checkin.None? && p.checkout.Some? && p.checkout.value <= NineAm {
        assert ccs[0].conditions[0][i] && NoneBefore(ccs[0], i, 0);
      } else if p.checkin.None? && p.checkout.Some? {
        assert ccs[0].conditions[1][i] && NoneBefore(ccs[0], i, 1);
      } else {
        assert NoneBefore(ccs[0], i, 2);
      }
    }
  }

  /** The fill rules on the times that bracket their thresholds: a missing
      checkout after a 10:00 checkin is 18:00 and after a 14:00 checkin is
      08:00 of the next day; a missing checkin before an 08:30 checkout is
      00:00 and before a 17:00 checkout is 09:00. */
  lemma FillExamples(p: Punch)
    ensures p.checkout.None? && p.checkin == Some(10 * Hour) ==> FillPunch(p).checkout == Some(18 * Hour)
    ensures p.checkout.None? && p.checkin == Some(14 * Hour) ==> FillPunch(p).checkout == Some(Day + 8 * Hour)
    ensures p.checkin.None? && p.checkout == Some(8 * Hour + 1800) ==> FillPunch(p).checkin == Some(0)
    ensures p.checkin.None? && p.checkout == Some(17 * Hour) ==> FillPunch(p).checkin == Some(9 * Hour)
  {
  }

  /** After filling, a punch has both times unless it had neither. */
  lemma FillLeavesBothOrNeither(p: Punch)
    ensures (FillPunch(p).checkin.Some? && FillPunch(p).checkout.Some?) <==> (p.checkin.Some? || p.checkout.Some?)
    ensures FillPunch(p).checkin.None? <==> (p.checkin.None? && p.checkout.None?)
    ensures FillPunch(p).checkout.None? <==> (p.checkin.None? && p.checkout.None?)
    ensures p.checkin.Some? ==> FillPunch(p).checkin == p.checkin
    ensures p.checkout.Some? ==> FillPunch(p).checkout == p.checkout
    ensures FillPunch(p).timesheetId == p.timesheetId && FillPunch(p).employeeId == p.employeeId && FillPunch(p).date == p.date
  {
  }

  // ----- adjust_checkout_times -----

  /** The mask of line 154: both times present and checkin later than checkout,
      on whole durations. */
  predicate Overnight(p: Punch) {
    p.checkin.Some? && p.checkout.Some? && p.checkin.value > p.checkout.value
  }

  function AddDay(d: Option<Duration>): Option<Duration> {
    if d.Some? then Some(d.value + Day) else None
  }

  /** The per-row reference: one day added to an overnight checkout. */
  function AdjustPunch(p: Punch): Punch {
    if Overnight(p) then p.(checkout := Some(p.checkout.value + Day)) else p
  }

  function AdjustCheckouts(rows: seq<Punch>): (r: seq<Punch>)
    ensures |r| == |rows|
  {
    seq(|rows|, i requires 0 <= i < |rows| => AdjustPunch(rows[i]))
  }

  /** time_diff: checkout - checkin, missing when either is. */
  function TimeDiff(p: Punch): Option<Duration> {
    if p.checkin.Some? && p.checkout.Some? then Some(p.checkout.value - p.checkin.value) else None
  }

  /** hours_diff: time_diff.dt.total_seconds() / 3600. */
  function TotalHours(d: Option<Duration>): Option<real> {
    if d.Some? then Some(d.value as real / 3600.0) else None
  }

  function CountTrue(mask: seq<bool>): (c: nat)
    ensures c == 0 <==> forall i :: 0 <= i < |mask| ==> !mask[i]
  {
    if |mask| == 0 then 0 else CountTrue(mask[..|mask| - 1]) + (if mask[|mask| - 1] then 1 else 0)
  }

  /** A row of the frame once time_diff and hours_diff have been added. */
  datatype ShiftRow = ShiftRow(punch: Punch, timeDiff: Option<Duration>, hoursDiff: Option<real>)

  function ShiftOf(p: Punch): ShiftRow {
    ShiftRow(p, TimeDiff(p), TotalHours(TimeDiff(p)))
  }

  /** The three time stages applied to a table: fill, then adjust, then the
      derived columns. */
  function NormalizedShifts(rows: seq<Punch>): (r: seq<ShiftRow>)
    ensures |r| == |rows|
  {
    seq(|rows|, i requires 0 <= i < |rows| => ShiftOf(AdjustPunch(FillPunch(rows[i]))))
  }

  /** The timesheets DataFrame that transform_times and adjust_checkout_times
      change in place. timeDiff and hoursDiff are empty until
      AdjustCheckoutTimes adds those columns. */
  class Timesheets {
    var rows: seq<Punch>
    var timeDiff: seq<Option<Duration>>
    var hoursDiff: seq<Option<real>>

    constructor (rows: seq<Punch>)
      ensures this.rows == rows && timeDiff == [] && hoursDiff == []
    {
      this.rows := rows;
      timeDiff := [];
      hoursDiff := [];
    }

    predicate HasShiftColumns()
      reads this
    {
      |timeDiff| == |rows| && |hoursDiff| == |rows|
    }

    function ShiftRows(): (r: seq<ShiftRow>)
      reads this
      requires HasShiftColumns()
      ensures |r| == |rows|
    {
      var punches, diffs, hours := rows, timeDiff, hoursDiff;
      seq(|punches|, i requires 0 <= i < |punches| => ShiftRow(punches[i], diffs[i], hours[i]))
    }

    /** process_timesheets_column: the column is replaced by np.select once per
        (conditions, choices) pair, each time with the current column as default. */
    method ProcessTimesheetsColumn(column: Column, conditionChoices: seq<ConditionChoices>)
      requires AllFit(conditionChoices, |rows|)
      modifies this
      ensures rows == WithColumn(old(rows), column,
                ApplyConditionChoices(ColumnOf(old(rows), column), conditionChoices))
      ensures timeDiff == old(timeDiff) && hoursDiff == old(hoursDiff)
    {
      var k := 0;
      while k < |conditionChoices|
        invariant 0 <= k <= |conditionChoices|
        invariant |rows| == |old(rows)|
        invariant rows == WithColumn(old(rows), column,
                    ApplyConditionChoices(ColumnOf(old(rows), column), conditionChoices[..k]))
        invariant timeDiff == old(timeDiff) && hoursDiff == old(hoursDiff)
      {
        ghost var before := ApplyConditionChoices(ColumnOf(old(rows), column), conditionChoices[..k]);
        ColumnOfWithColumn(old(rows), column, before);
        var selected := Select(conditionChoices[k], ColumnOf(rows, column));
        WithColumnTwice(old(rows), column, before, selected);
        rows := WithColumn(rows, column, selected);
        assert conditionChoices[..k + 1][..k] == conditionChoices[..k];
        k := k + 1;
      }
      assert conditionChoices[..k] == conditionChoices;
    }

    /** transform_times: checkout is processed before the checkin rules are
        built, so they see the filled checkout. */
    method TransformTimes()
      modifies this
      ensures rows == FillTimes(old(rows))
      ensures timeDiff == old(timeDiff) && hoursDiff == old(hoursDiff)
    {
      var checkoutConditionChoices := CheckoutConditionChoices(rows);
      CheckoutRulesMatchTable(rows);
      ProcessTimesheetsColumn(Checkout, checkoutConditionChoices);
      var checkinConditionChoices := CheckinConditionChoices(rows);
      CheckinRulesMatchTable(rows);
      ProcessTimesheetsColumn(Checkin, checkinConditionChoices);
    }

    /** adjust_checkout_times: one day is added to checkout on the rows of the
        mask, then time_diff and hours_diff are derived. */
    method AdjustCheckoutTimes()
      modifies this
      ensures rows == AdjustCheckouts(old(rows))
      ensures HasShiftColumns()
      ensures forall i :: 0 <= i < |rows| ==>
        timeDiff[i] == TimeDiff(rows[i]) && hoursDiff[i] == TotalHours(timeDiff[i])
    {
      var current := rows;
      var mask := seq(|current|, i requires 0 <= i < |current| => Overnight(current[i]));
      var adjustmentCount := CountTrue(mask);
      if adjustmentCount > 0 {
        rows := seq(|current|, i requires 0 <= i < |current| =>
          if mask[i] then current[i].(checkout := AddDay(current[i].checkout)) else current[i]);
      } else {
        forall i | 0 <= i < |current| ensures AdjustPunch(current[i]) == current[i] {
          assert !mask[i];
        }
      }
      assert rows == AdjustCheckouts(current);
      var adjusted := rows;
      var diffs := seq(|adjusted|, i requires 0 <= i < |adjusted| => TimeDiff(adjusted[i]));
      timeDiff := diffs;
      hoursDiff := seq(|diffs|, i requires 0 <= i < |diffs| => TotalHours(diffs[i]));
    }
  }

  // ----- What the adjustment promises -----

  /** Exactly one day is added, once, and only to an overnight row. */
  lemma AdjustAddsOneDay(p: Punch)
    ensures Overnight(p) ==> AdjustPunch(p).checkout == Some(p.checkout.value + Day)
    ensures !Overnight(p) ==> AdjustPunch(p) == p
    ensures AdjustPunch(p).checkin == p.checkin
  {
  }

  /** Within-day times: after the adjustment checkout is not before checkin,
      hours_diff is not negative and a second adjustment changes nothing. */
  lemma AdjustedHoursNonNegative(p: Punch)
    requires p.checkin.Some? && p.checkout.Some?
    requires 0 <= p.checkin.value < Day && 0 <= p.checkout.value
    ensures TotalHours(TimeDiff(AdjustPunch(p))).Some?
    ensures TotalHours(TimeDiff(AdjustPunch(p))).value >= 0.0
    ensures AdjustPunch(AdjustPunch(p)) == AdjustPunch(p)
  {
  }

  /** A 22:00 to 06:00 shift is an 8.0 hour shift. */
  lemma OvernightShiftExample(p: Punch)
    requires p.checkin == Some(22 * Hour) && p.checkout == Some(6 * Hour)
    ensures TotalHours(TimeDiff(AdjustPunch(p))) == Some(8.0)
  {
  }

  /** The normalised table: every punch with some time has both times and a
      non-negative hours_diff, provided the raw times are times of day; a punch
      with neither time keeps neither and has no hours. */
  lemma NormalizedShiftsWellFormed(rows: seq<Punch>, i: int)
    requires 0 <= i < |rows|
    requires rows[i].checkin.Some? ==> 0 <= rows[i].checkin.value < Day
    requires rows[i].checkout.Some? ==> 0 <= rows[i].checkout.value
    ensures var s := NormalizedShifts(rows)[i];
      (s.hoursDiff.Some? <==> (rows[i].checkin.Some? || rows[i].checkout.Some?)) &&
      (s.hoursDiff.Some? ==> s.hoursDiff.value >= 0.0 && s.punch.checkin.Some? && s.punch.checkout.Some? &&
                             s.punch.checkin.value <= s.punch.checkout.value)
  {
    var p := rows[i];
    FillLeavesBothOrNeither(p);
    var q := FillPunch(p);
    if q.checkin.Some? && q.checkout.Some? {
      assert 0 <= q.checkin.value < Day && 0 <= q.checkout.value;
      AdjustedHoursNonNegative(q);
    }
  }
}
