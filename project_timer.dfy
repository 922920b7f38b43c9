/** The time tracker of `components/dashboard/project-timer.tsx`: a project is chosen, Start asks
    the server to start tracking and records the start time, a one-second tick recomputes the
    elapsed seconds, and Stop (which needs a work title) asks the server to stop and resets the
    clock. The clock reads `mm:ss`. */
module ProjectTimer {
  import opened Wrappers
  import opened JsText
  import Seqs

  // ---------------------------------------------------------------- the clock text

  /** `formatTime`: `Math.floor(seconds / 60)` and `seconds % 60` (JavaScript's truncating `%`),
      each padded to two digits with `"0"`, joined by `":"`. */
  function FormatClock(seconds: int): string
  {
    PadStart(IntToString(seconds / 60), 2, '0') + ":" + PadStart(IntToString(JsRem(seconds, 60)), 2, '0')
  }

  /** Reads `mm:ss` back: at least two digits of minutes, `":"`, then exactly two digits of
      seconds below 60. */
  function ReadClock(t: string): (r: Option<nat>)
    ensures r.Some? ==> |t| >= 5 && t[|t| - 3] == ':'
  {
    if |t| >= 5 && t[|t| - 3] == ':' then ReadParts(t[..|t| - 3], t[|t| - 2..]) else None
  }

  /** The value of the minutes and seconds parts of a clock text. */
  function ReadParts(mm: string, ss: string): Option<nat>
  {
    if AllDigits(mm) && AllDigits(ss) && DigitsValue(ss) < 60
    then Some(DigitsValue(mm) * 60 + DigitsValue(ss))
    else None
  }

  /** For a non-negative count the clock is the whole minutes, at least two digits and with no
      upper bound, then `":"`, then the leftover seconds as exactly two digits, 00 to 59; each
      part is digits whose value is the count it shows. */
  lemma FormatClockShape(n: nat)
    ensures FormatClock(n) == PadStart(NatToString(n / 60), 2, '0') + ":" + PadStart(NatToString(n % 60), 2, '0')
    ensures |PadStart(NatToString(n / 60), 2, '0')| >= 2 && |PadStart(NatToString(n % 60), 2, '0')| == 2
    ensures AllDigits(PadStart(NatToString(n / 60), 2, '0')) && DigitsValue(PadStart(NatToString(n / 60), 2, '0')) == n / 60
    ensures AllDigits(PadStart(NatToString(n % 60), 2, '0')) && DigitsValue(PadStart(NatToString(n % 60), 2, '0')) == n % 60
  {
    ClockOfCount(n, n / 60, n % 60);
    PaddedPart(n / 60);
    PaddedPart(n % 60);
  }

  /** For a non-negative count both parts are rendered as natural numbers. */
  lemma ClockOfCount(n: nat, q: nat, r: nat)
    requires q == n / 60 && r == n % 60
    ensures FormatClock(n) == PadStart(NatToString(q), 2, '0') + ":" + PadStart(NatToString(r), 2, '0')
  {
    assert JsRem(n, 60) == r;
    assert IntToString(q) == NatToString(q);
    assert IntToString(r) == NatToString(r);
  }

  /** A count padded to two digits with zeros: digits, at least two of them (exactly two below
      100), whose value is the count. */
  lemma PaddedPart(x: nat)
    ensures AllDigits(PadStart(NatToString(x), 2, '0')) && DigitsValue(PadStart(NatToString(x), 2, '0')) == x
    ensures |PadStart(NatToString(x), 2, '0')| >= 2
    ensures x < 100 ==> |PadStart(NatToString(x), 2, '0')| == 2
  {
    PadStartZerosValue(NatToString(x), 2);
    NatToStringValue(x);
    if x < 100 {
      ShortNumber(x);
    }
  }

  /** A number below 100 is written with at most two digits. */
  lemma ShortNumber(x: nat)
    requires x < 100
    ensures |NatToString(x)| <= 2
  {
    if x >= 10 {
      assert NatToString(x) == NatToString(x / 10) + [DigitChar(x % 10)];
    }
  }

  /** Round trip: reading the clock gives back the count it shows. */
  lemma ReadFormatClock(n: nat)
    ensures ReadClock(FormatClock(n)) == Some(n)
  {
    FormatClockParts(n);
    var mm: string, ss: string :| ClockText(FormatClock(n), mm, ss, n);
    ReadClockText(FormatClock(n), mm, ss, n);
  }

  /** Any clock text for `n` reads back as `n`. */
  lemma ReadClockText(t: string, mm: string, ss: string, n: nat)
    requires ClockText(t, mm, ss, n)
    ensures ReadClock(t) == Some(n)
  {
    ReadClockParts(mm, ss);
  }

  /** `t` is the clock text `mm:ss` for `n` seconds, `mm` of at least two digits and `ss` of two,
      below 60. */
  predicate ClockText(t: string, mm: string, ss: string, n: nat)
  {
    t == mm + ":" + ss && AllDigits(mm) && |mm| >= 2 && AllDigits(ss) && |ss| == 2
    && DigitsValue(ss) < 60 && DigitsValue(mm) * 60 + DigitsValue(ss) == n
  }

  /** The clock of a non-negative count is such a text. */
  lemma FormatClockParts(n: nat)
    ensures exists mm: string, ss: string :: ClockText(FormatClock(n), mm, ss, n)
  {
    FormatClockShape(n);
    var mm, ss := PadStart(NatToString(n / 60), 2, '0'), PadStart(NatToString(n % 60), 2, '0');
    assert (n / 60) * 60 + n % 60 == n;
    assert ClockText(FormatClock(n), mm, ss, n);
  }

  /** Minutes, `":"` and two characters of seconds are read part by part. */
  lemma ReadClockParts(mm: string, ss: string)
    requires |mm| >= 2 && |ss| == 2
    ensures ReadClock(mm + ":" + ss) == ReadParts(mm, ss)
  {
    Seqs.AroundElement(mm, ':', ss);
    ReadClockAt(mm + ":" + ss, mm, ss);
  }

  lemma ReadClockAt(t: string, mm: string, ss: string)
    requires |t| >= 5 && t[|t| - 3] == ':' && t[..|t| - 3] == mm && t[|t| - 2..] == ss
    ensures ReadClock(t) == ReadParts(mm, ss)
  {
  }

  /** The tick: `Math.floor((now - startTime) / 1000)`, whole seconds since the start. */
  function ElapsedSeconds(start: int, now: int): (e: int)
    ensures e * 1000 <= now - start < e * 1000 + 1000
    ensures now >= start ==> e >= 0
  {
    (now - start) / 1000
  }

  // ---------------------------------------------------------------- the component

  /** `!value` for the selected project: `null` and `""` are falsy. */
  predicate Chosen(p: Option<string>)
  {
    p.Some? && p.value != ""
  }

  /** `if (startTime)`: `null` and `0` are falsy. */
  predicate Started(t: Option<int>)
  {
    t.Some? && t.value != 0
  }

  /** The state of the tracker. Each handler is split at its `await`: the handler itself runs
      the checks and sets `loading`, and its continuation receives the server's answer. An
      `alert` is returned as its message. */
  class Tracker {
    var selectedProject: Option<string>
    var title: string
    var startTime: Option<int>
    var elapsed: int
    var loading: bool

    constructor ()
      ensures selectedProject == None && title == "" && startTime == None && elapsed == 0 && !loading
    {
      selectedProject := None;
      title := "";
      startTime := None;
      elapsed := 0;
      loading := false;
    }

    /** The Start button is enabled only while no request is pending and the clock is stopped. */
    predicate StartEnabled()
      reads this
    {
      !loading && startTime == None
    }

    /** The Stop button is enabled only while no request is pending and the clock is running. */
    predicate StopEnabled()
      reads this
    {
      !loading && startTime != None
    }

    /** The project select's `onValueChange`. */
    method SelectProject(id: string)
      modifies this`selectedProject
      ensures selectedProject == Some(id)
    {
      selectedProject := Some(id);
    }

    /** The title input's `onChange`. */
    method SetTitle(value: string)
      modifies this`title
      ensures title == value
    {
      title := value;
    }

    /** One firing of the interval, at time `now`; the interval only runs while the start time
        is set and not 0. */
    method Tick(now: int)
      modifies this`elapsed
      ensures Started(startTime) ==> elapsed == ElapsedSeconds(startTime.value, now)
      ensures !Started(startTime) ==> elapsed == old(elapsed)
    {
      if startTime.Some? && startTime.value != 0 {
        elapsed := (now - startTime.value) / 1000;
      }
    }

    /** `handleStart` up to its request: without a project it alerts and changes nothing;
        otherwise the request is pending. */
    method HandleStart() returns (alert: Option<string>)
      modifies this`loading
      ensures alert == if Chosen(selectedProject) then None else Some("Select a project first")
      ensures alert.Some? ==> loading == old(loading)
      ensures alert.None? ==> loading
    {
      if !(selectedProject.Some? && selectedProject.value != "") {
        return Some("Select a project first");
      }
      loading := true;
      alert := None;
    }

    /** The rest of `handleStart`, given whether the server accepted and the time `now`: on
        success the clock starts at `now` from 0. */
    method FinishStart(success: bool, now: int)
      modifies this`loading, this`startTime, this`elapsed
      ensures !loading
      ensures success ==> startTime == Some(now) && elapsed == 0
      ensures !success ==> startTime == old(startTime) && elapsed == old(elapsed)
    {
      loading := false;
      if success {
        startTime := Some(now);
        elapsed := 0;
      }
    }

    /** `handleStop` up to its request: without a project, or with a blank title, it alerts
        (the project is checked first) and changes nothing; otherwise the request is pending. */
    method HandleStop() returns (alert: Option<string>)
      modifies this`loading
      ensures alert == if !Chosen(selectedProject) then Some("Select a project first")
                       else if Trim(title) == "" then Some("Enter a title first")
                       else None
      ensures alert.Some? ==> loading == old(loading)
      ensures alert.None? ==> loading
    {
      if !(selectedProject.Some? && selectedProject.value != "") {
        return Some("Select a project first");
      }
      if Trim(title) == "" {
        return Some("Enter a title first");
      }
      loading := true;
      alert := None;
    }

    /** The rest of `handleStop`: on success the clock is stopped and reset and the title is
        cleared. */
    method FinishStop(success: bool)
      modifies this`loading, this`startTime, this`elapsed, this`title
      ensures !loading
      ensures success ==> startTime == None && elapsed == 0 && title == ""
      ensures !success ==> startTime == old(startTime) && elapsed == old(elapsed) && title == old(title)
    {
      loading := false;
      if success {
        startTime := None;
        elapsed := 0;
        title := "";
      }
    }
  }

  /** Start and Stop are never enabled together, and while a request is pending neither is. */
  lemma ButtonsExclusive(t: Tracker)
    ensures !(t.StartEnabled() && t.StopEnabled())
    ensures t.loading ==> !t.StartEnabled() && !t.StopEnabled()
  {
  }
}
