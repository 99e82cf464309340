/** The working-hours editor (src/features/doctors/components/working-hours-field.tsx).
    Every edit builds a new list of rows and hands it to `onChange`; nothing is
    changed in place. */
module WorkingHoursField {
  import opened Common
  import opened DoctorTypes

  /** `Partial<WorkingHour>`: the fields present overwrite the row's. */
  datatype Patch = Patch(day: Option<DayOfWeek>, start: Option<string>, end: Option<string>)

  const MaxRows := 7
  const DefaultStart := "09:00"
  const DefaultEnd := "17:00"

  function UsedDays(rows: seq<WorkingHour>): set<DayOfWeek> {
    set i | 0 <= i < |rows| :: rows[i].day
  }

  predicate DistinctDays(rows: seq<WorkingHour>) {
    forall i, j :: 0 <= i < j < |rows| ==> rows[i].day != rows[j].day
  }

  /** The position of a day in the editor's week. */
  function DayIndex(d: DayOfWeek): (k: nat)
    ensures k < |DaysOfWeek| && DaysOfWeek[k] == d
  {
    match d
    case MON => 0 case TUE => 1 case WED => 2 case THU => 3
    case FRI => 4 case SAT => 5 case SUN => 6
  }

  /** `days.find(d => !used.has(d))`: the first day of `days` outside `used`. */
  function FindUnused(days: seq<DayOfWeek>, used: set<DayOfWeek>): (r: Option<DayOfWeek>)
    ensures r.None? <==> forall k :: 0 <= k < |days| ==> days[k] in used
    ensures r.Some? ==> exists k :: 0 <= k < |days| && days[k] == r.value && r.value !in used
                                    && forall j :: 0 <= j < k ==> days[j] in used
  {
    if days == [] then None
    else if days[0] !in used then Some(days[0])
    else
      var r := FindUnused(days[1..], used);
      if r.Some? then
        var k :| 0 <= k < |days[1..]| && days[1..][k] == r.value && r.value !in used
                  && forall j :: 0 <= j < k ==> days[1..][j] in used;
        assert days[k + 1] == r.value;
        r
      else r
  }

  /** `getNextAvailableDay`: the first day of the week no row uses, or MON when
      every day is taken. */
  function NextAvailableDay(existing: seq<WorkingHour>): (d: DayOfWeek)
    ensures d !in UsedDays(existing) ==> forall k :: 0 <= k < DayIndex(d) ==> DaysOfWeek[k] in UsedDays(existing)
    ensures d in UsedDays(existing) ==> d == MON && forall e: DayOfWeek :: e in UsedDays(existing)
  {
    var r := FindUnused(DaysOfWeek, UsedDays(existing));
    if r.Some? then
      var k :| 0 <= k < |DaysOfWeek| && DaysOfWeek[k] == r.value && r.value !in UsedDays(existing)
                && forall j :: 0 <= j < k ==> DaysOfWeek[j] in UsedDays(existing);
      assert DayIndex(r.value) == k;
      r.value
    else
      forall e: DayOfWeek ensures e in UsedDays(existing) {
        assert DaysOfWeek[DayIndex(e)] == e;
      }
      MON
  }

  /** At most as many days are in use as there are rows. */
  lemma {:induction false} UsedDaysBound(rows: seq<WorkingHour>)
    ensures |UsedDays(rows)| <= |rows|
    ensures DistinctDays(rows) ==> |UsedDays(rows)| == |rows|
  {
    if rows != [] {
      var init := rows[..|rows| - 1];
      var last := rows[|rows| - 1];
      UsedDaysBound(init);
      assert UsedDays(rows) == UsedDays(init) + {last.day} by {
        forall d | d in UsedDays(rows) ensures d in UsedDays(init) + {last.day} {
          var i :| 0 <= i < |rows| && rows[i].day == d;
          if i < |rows| - 1 { assert init[i] == rows[i]; }
        }
      }
      if DistinctDays(rows) {
        assert DistinctDays(init);
        assert last.day !in UsedDays(init);
      }
    }
  }

  /** With fewer than seven rows some day is free, whether or not the rows repeat days. */
  lemma FreeDayExists(rows: seq<WorkingHour>)
    requires |rows| < MaxRows
    ensures NextAvailableDay(rows) !in UsedDays(rows)
  {
    UsedDaysBound(rows);
    if NextAvailableDay(rows) in UsedDays(rows) {
      var all: set<DayOfWeek> := {MON, TUE, WED, THU, FRI, SAT, SUN};
      assert all <= UsedDays(rows);
      assert |all| == 7;
      SubsetCard(all, UsedDays(rows));
      assert false;
    }
  }

  lemma SubsetCard<T>(a: set<T>, b: set<T>)
    requires a <= b
    ensures |a| <= |b|
  {
    assert b == a + (b - a);
  }

  /** Distinct days fit in one week. */
  lemma DistinctAtMostSeven(rows: seq<WorkingHour>)
    requires DistinctDays(rows)
    ensures |rows| <= MaxRows
  {
    UsedDaysBound(rows);
    var all: set<DayOfWeek> := {MON, TUE, WED, THU, FRI, SAT, SUN};
    assert UsedDays(rows) <= all by {
      forall d | d in UsedDays(rows) ensures d in all { match d case _ => }
    }
    SubsetCard(UsedDays(rows), all);
  }

  /** `addRow`: a no-op at seven rows or more; otherwise one new row on the next
      free day from 09:00 to 17:00, after the existing rows, which are kept in order. */
  function AddRow(rows: seq<WorkingHour>): (r: seq<WorkingHour>)
    ensures |rows| >= MaxRows ==> r == rows
    ensures |rows| < MaxRows ==> && |r| == |rows| + 1 && r[..|rows|] == rows
                                 && r[|rows|].start == DefaultStart && r[|rows|].end == DefaultEnd
                                 && r[|rows|].day == NextAvailableDay(rows)
                                 && r[|rows|].day !in UsedDays(rows)
  {
    if |rows| >= MaxRows then rows
    else
      FreeDayExists(rows);
      rows + [WorkingHour(NextAvailableDay(rows), DefaultStart, DefaultEnd)]
  }

  /** `removeRow(index)`, i.e. `value.filter((_, i) => i !== index)` scanning from
      position 0: drops exactly row `index`; any other index changes nothing. */
  function RemoveRow(rows: seq<WorkingHour>, index: int): (r: seq<WorkingHour>)
    ensures 0 <= index < |rows| ==> r == rows[..index] + rows[index + 1..]
    ensures !(0 <= index < |rows|) ==> r == rows
  {
    if rows == [] then []
    else
      var rest := RemoveRow(rows[1..], index - 1);
      if index == 0 then rest
      else
        assert 1 <= index < |rows| ==> rows[1..][..index - 1] == rows[1..index];
        [rows[0]] + rest
  }

  /** `{ ...row, ...patch }` */
  function ApplyPatch(row: WorkingHour, patch: Patch): (r: WorkingHour)
    ensures r.day == (if patch.day.Some? then patch.day.value else row.day)
    ensures r.start == (if patch.start.Some? then patch.start.value else row.start)
    ensures r.end == (if patch.end.Some? then patch.end.value else row.end)
  {
    WorkingHour(
      match patch.day case Some(d) => d case None => row.day,
      match patch.start case Some(s) => s case None => row.start,
      match patch.end case Some(e) => e case None => row.end)
  }

  /** `updateRow(index, patch)`: same length, row `index` patched, every other row as it was. */
  function UpdateRow(rows: seq<WorkingHour>, index: int, patch: Patch): (r: seq<WorkingHour>)
    ensures |r| == |rows|
    ensures forall k :: 0 <= k < |rows| && k != index ==> r[k] == rows[k]
    ensures 0 <= index < |rows| ==> r[index] == ApplyPatch(rows[index], patch)
  {
    seq(|rows|, k requires 0 <= k < |rows| => if k == index then ApplyPatch(rows[k], patch) else rows[k])
  }

  /** The day select of row `index` disables a day some row uses, unless it is the
      row's own day. */
  predicate OptionDisabled(rows: seq<WorkingHour>, index: int, d: DayOfWeek)
    requires 0 <= index < |rows|
  {
    d in UsedDays(rows) && d != rows[index].day
  }

  /** With distinct days, the select of row `index` leaves a day enabled exactly
      when no other row uses it. */
  lemma OptionEnabledIffFree(rows: seq<WorkingHour>, index: int, d: DayOfWeek)
    requires DistinctDays(rows)
    requires 0 <= index < |rows|
    ensures !OptionDisabled(rows, index, d) <==> forall j :: 0 <= j < |rows| && j != index ==> rows[j].day != d
  {
    if forall j :: 0 <= j < |rows| && j != index ==> rows[j].day != d {
      if d in UsedDays(rows) {
        var i :| 0 <= i < |rows| && rows[i].day == d;
        assert i == index;
      }
    } else {
      var j :| 0 <= j < |rows| && j != index && rows[j].day == d;
      assert d in UsedDays(rows);
    }
  }

  /** The "Add Day" button is shown while there are fewer than seven rows. */
  predicate AddDayShown(rows: seq<WorkingHour>) {
    |rows| < MaxRows
  }

  /** The button is shown exactly when pressing it would change the list. */
  lemma AddDayShownIffAddChanges(rows: seq<WorkingHour>)
    ensures AddDayShown(rows) <==> AddRow(rows) != rows
  {
    if AddDayShown(rows) { assert |AddRow(rows)| != |rows|; }
  }

  lemma AddRowKeepsDistinct(rows: seq<WorkingHour>)
    requires DistinctDays(rows)
    ensures DistinctDays(AddRow(rows))
  {
    if |rows| < MaxRows {
      var r := AddRow(rows);
      forall i, j | 0 <= i < j < |r| ensures r[i].day != r[j].day {
        if j == |rows| { assert r[i] == rows[i]; }
        else { assert r[i] == rows[i] && r[j] == rows[j]; }
      }
    }
  }

  lemma RemoveRowKeepsDistinct(rows: seq<WorkingHour>, index: int)
    requires DistinctDays(rows)
    ensures DistinctDays(RemoveRow(rows, index))
  {
    if 0 <= index < |rows| {
      var r := RemoveRow(rows, index);
      forall i, j | 0 <= i < j < |r| ensures r[i].day != r[j].day {
        var i' := if i < index then i else i + 1;
        var j' := if j < index then j else j + 1;
        assert r[i] == rows[i'] && r[j] == rows[j'];
      }
    }
  }

  /** A day chosen from a select that disables the other rows' days keeps the days distinct. */
  lemma UpdateRowKeepsDistinct(rows: seq<WorkingHour>, index: int, patch: Patch)
    requires DistinctDays(rows)
    requires 0 <= index < |rows| && patch.day.Some? ==> !OptionDisabled(rows, index, patch.day.value)
    ensures DistinctDays(UpdateRow(rows, index, patch))
  {
    var r := UpdateRow(rows, index, patch);
    forall i, j | 0 <= i < j < |r| ensures r[i].day != r[j].day {
      if i == index && patch.day.Some? {
        assert rows[j].day in UsedDays(rows);
      } else if j == index && patch.day.Some? {
        assert rows[i].day in UsedDays(rows);
      }
    }
  }

  /** One user action in the editor. */
  datatype EditorAction = AddDay | RemoveDay(index: int) | UpdateDay(index: int, patch: Patch)

  function Apply(rows: seq<WorkingHour>, a: EditorAction): seq<WorkingHour> {
    match a
    case AddDay => AddRow(rows)
    case RemoveDay(i) => RemoveRow(rows, i)
    case UpdateDay(i, p) => UpdateRow(rows, i, p)
  }

  /** What the rendered controls let the user do: a day is picked only among the
      options the select leaves enabled. */
  predicate Offered(rows: seq<WorkingHour>, a: EditorAction) {
    (a.UpdateDay? && 0 <= a.index < |rows| && a.patch.day.Some?) ==>
      !OptionDisabled(rows, a.index, a.patch.day.value)
  }

  function Replay(rows: seq<WorkingHour>, actions: seq<EditorAction>): seq<WorkingHour>
    decreases |actions|
  {
    if actions == [] then rows else Replay(Apply(rows, actions[0]), actions[1..])
  }

  predicate AllOffered(rows: seq<WorkingHour>, actions: seq<EditorAction>)
    decreases |actions|
  {
    actions == [] || (Offered(rows, actions[0]) && AllOffered(Apply(rows, actions[0]), actions[1..]))
  }

  /** Any sequence of edits made through the editor keeps every day-of-week at most
      once, and so never more than seven rows. */
  lemma {:induction false} EditorKeepsDaysDistinct(rows: seq<WorkingHour>, actions: seq<EditorAction>)
    requires DistinctDays(rows)
    requires AllOffered(rows, actions)
    ensures DistinctDays(Replay(rows, actions))
    ensures |Replay(rows, actions)| <= MaxRows
    decreases |actions|
  {
    if actions == [] {
      DistinctAtMostSeven(rows);
    } else {
      var next := Apply(rows, actions[0]);
      match actions[0] {
        case AddDay => AddRowKeepsDistinct(rows);
        case RemoveDay(i) => RemoveRowKeepsDistinct(rows, i);
        case UpdateDay(i, p) => UpdateRowKeepsDistinct(rows, i, p);
      }
      EditorKeepsDaysDistinct(next, actions[1..]);
    }
  }
}
