/** The derived values of `components/dashboard/RoutinePieChart.tsx`: the `formatSeconds`
    tooltip text and the `{name, completed, remaining}` rows the bar chart is drawn from. */
module RoutineChart {
  import opened Wrappers
  import opened JsText
  import TimeConverter

  // ---------------------------------------------------------------- formatSeconds

  /** `formatSeconds`: `Math.floor(seconds / 3600)` hours, shown only when they are not 0, then
      `Math.floor((seconds % 3600) / 60)` minutes, with JavaScript's truncating `%`. */
  function FormatSeconds(seconds: int): string
  {
    var h := seconds / 3600;
    var m := JsRem(seconds, 3600) / 60;
    (if h != 0 then IntToString(h) + "h " else "") + IntToString(m) + "m"
  }

  /** For a non-negative count the text is the minutes, 0 to 59, after the hours when there are
      any: an `h` appears exactly when `n / 3600` is not 0, and the text always ends in minutes. */
  lemma FormatSecondsShape(n: nat)
    ensures FormatSeconds(n) == (if n / 3600 != 0 then NatToString(n / 3600) + "h " else "")
                                + NatToString((n % 3600) / 60) + "m"
    ensures 0 <= (n % 3600) / 60 <= 59
    ensures 'h' in FormatSeconds(n) <==> n / 3600 != 0
    ensures FormatSeconds(n)[|FormatSeconds(n)| - 1] == 'm'
  {
    var hs, ms := NatToString(n / 3600), NatToString((n % 3600) / 60);
    assert 'h' !in ms;
    if n / 3600 != 0 {
      var s := hs + "h " + ms + "m";
      assert s[|hs|] == 'h';
    } else {
      assert FormatSeconds(n) == ms + "m";
      assert 'h' !in "m";
    }
  }

  /** With at least an hour (or less than minus one hour) `formatSeconds` writes what
      `formatToHrsMins` writes. */
  lemma FormatSecondsWithHours(n: int)
    requires n / 3600 != 0
    ensures FormatSeconds(n) == TimeConverter.FormatToHrsMins(n)
  {
    assert IntToString(n / 3600) + "h " + IntToString(JsRem(n, 3600) / 60) + "m"
        == (IntToString(n / 3600) + "h ") + IntToString(JsRem(n, 3600) / 60) + "m";
  }

  /** Round trip with the duration parser: reading back the tooltip text gives the count
      rounded down to a whole minute. */
  lemma FormatSecondsThenParse(n: nat)
    ensures TimeConverter.DurationSeconds(FormatSeconds(n)) == n - n % 60
  {
    if n / 3600 != 0 {
      FormatSecondsWithHours(n);
      TimeConverter.FormatThenParse(n);
    } else {
      var m := (n % 3600) / 60;
      var ms := NatToString(m);
      FormatSecondsShape(n);
      assert FormatSeconds(n) == ms + [] + ['m'] + [];
      TimeConverter.UnitWordSeconds(ms, [], 'm', []);
      TimeConverter.NoDigitsIsZero([]);
      NatToStringValue(m);
      assert n == n % 3600;
      assert n - n % 60 == m * 60;
    }
  }

  // ---------------------------------------------------------------- chart rows

  /** A routine as the chart receives it. */
  datatype Routine = Routine(id: string, name: string, originalDurationSeconds: int, remainingSeconds: int)

  /** One bar of the chart. */
  datatype Bar = Bar(name: string, completed: int, remaining: int)

  /** The row for one routine: `completed` is `Math.max(original - remaining, 0)`, `remaining`
      is passed through. */
  function BarOf(r: Routine): (b: Bar)
    ensures b.name == r.name && b.remaining == r.remainingSeconds
    ensures b.completed >= 0 && b.completed >= r.originalDurationSeconds - r.remainingSeconds
    ensures b.completed == 0 || b.completed == r.originalDurationSeconds - r.remainingSeconds
    ensures r.remainingSeconds <= r.originalDurationSeconds ==> b.completed + b.remaining == r.originalDurationSeconds
    ensures r.remainingSeconds > r.originalDurationSeconds ==> b.completed == 0
  {
    var done := r.originalDurationSeconds - r.remainingSeconds;
    Bar(r.name, if done > 0 then done else 0, r.remainingSeconds)
  }

  /** `routines?.map(...)`: no list gives no data; otherwise one row per routine, in order. */
  function ChartData(routines: Option<seq<Routine>>): (r: Option<seq<Bar>>)
    ensures r.Some? <==> routines.Some?
    ensures r.Some? ==> |r.value| == |routines.value|
    ensures r.Some? ==> forall i :: 0 <= i < |r.value| ==> r.value[i] == BarOf(routines.value[i])
  {
    match routines
    case None => None
    case Some(rs) => Some(Bars(rs))
  }

  function Bars(rs: seq<Routine>): (bs: seq<Bar>)
    ensures |bs| == |rs|
    ensures forall i :: 0 <= i < |rs| ==> bs[i] == BarOf(rs[i])
  {
    if rs == [] then [] else [BarOf(rs[0])] + Bars(rs[1..])
  }

  function SumOriginal(rs: seq<Routine>): int
  {
    if rs == [] then 0 else rs[0].originalDurationSeconds + SumOriginal(rs[1..])
  }

  function SumBars(bs: seq<Bar>): int
  {
    if bs == [] then 0 else bs[0].completed + bs[0].remaining + SumBars(bs[1..])
  }

  /** When no routine has more remaining than it started with, the stacked bars add up to the
      total of the original durations. */
  lemma {:induction false} BarsAddUp(rs: seq<Routine>)
    requires forall i :: 0 <= i < |rs| ==> rs[i].remainingSeconds <= rs[i].originalDurationSeconds
    ensures SumBars(Bars(rs)) == SumOriginal(rs)
  {
    if rs != [] {
      BarsAddUp(rs[1..]);
      assert Bars(rs)[1..] == Bars(rs[1..]);
    }
  }
}
