/** The duration toolkit of `utils/timeCoverter.ts`.

    `parseDurationToSeconds` runs the global, case-insensitive regular expression
    `(\d+)\s*(h|hr|hrs|hour|hours|m|min|mins|minute|minutes|s|sec|secs|second|seconds)?`
    over free text and adds up every match in seconds; when the sum is 0 it falls back to
    `parseInt(text) * 60`. `formatToHrsMins` renders seconds as `"<h>h <m>m"`.

    The regular expression is modelled by `NextMatch`: what `exec` finds when it resumes at
    `lastIndex` (the expression has no look-behind, so only the text from `lastIndex` on
    matters). `Tokens` lists the two capture groups of every match, and `DurationSeconds`
    is the value the function returns. */
module TimeConverter {
  import opened Wrappers
  import opened JsText
  import Seqs

  // ---------------------------------------------------------------- units

  /** The alternatives of the unit group, hour, minute and second words in the order the
      regular expression tries them. */
  const HourWords: seq<string> := ["h", "hr", "hrs", "hour", "hours"]
  const MinuteWords: seq<string> := ["m", "min", "mins", "minute", "minutes"]
  const SecondWords: seq<string> := ["s", "sec", "secs", "second", "seconds"]
  const UnitAlternatives: seq<string> := HourWords + MinuteWords + SecondWords

  /** Alternative `alt` (written in lower case) matches at the start of `rest` under the `i` flag. */
  predicate MatchesIgnoringCase(alt: string, rest: string)
  {
    |alt| <= |rest| && forall k :: 0 <= k < |alt| ==> Lower(rest[k]) == alt[k]
  }

  /** The text the optional unit group captures at the start of `rest`: the first alternative,
      in order, that matches, as it is written in the input; `None` when the group is skipped. */
  function CaptureUnit(alts: seq<string>, rest: string): (r: Option<string>)
    ensures r.Some? ==> |r.value| <= |rest| && r.value == rest[..|r.value|]
  {
    if alts == [] then None
    else if MatchesIgnoringCase(alts[0], rest) then Some(rest[..|alts[0]|])
    else CaptureUnit(alts[1..], rest)
  }

  /** The letters that start a unit, in either case. */
  predicate IsUnitLetter(c: char)
  {
    Lower(c) == 'h' || Lower(c) == 'm' || Lower(c) == 's'
  }

  /** What the unit group captures at the start of `rest`: its first character when that is a
      unit letter, and nothing otherwise. `CaptureIsOneLetter` proves this is what the ordered
      alternation `CaptureUnit(UnitAlternatives, rest)` captures. */
  function OneLetterCapture(rest: string): Option<string>
  {
    if rest != [] && IsUnitLetter(rest[0]) then Some(rest[..1]) else None
  }

  /** The `switch` on the lower-cased unit: the hour words count 3600 seconds, the minute
      words 60, the second words and anything else 1. */
  function UnitSeconds(unit: string): nat
  {
    match unit
    case "h" | "hr" | "hrs" | "hour" | "hours" => 3600
    case "m" | "min" | "mins" | "minute" | "minutes" => 60
    case _ => 1
  }

  /** What a one-letter unit counts, decided by the letter alone. */
  function LetterSeconds(c: char): nat
  {
    if Lower(c) == 'h' then 3600 else if Lower(c) == 'm' then 60 else 1
  }

  // ---------------------------------------------------------------- matches

  /** A run of decimal digits: what the first capture group holds. */
  type Digits = s: string | AllDigits(s) witness ""

  /** The two capture groups of one match: the number and the unit text, if any. */
  datatype Token = Token(number: Digits, unit: Option<string>)

  /** A match and the distance from the position the search resumed at to its end. */
  datatype Found = Found(token: Token, consumed: nat)

  /** The match that starts at the first character of `rest`, a digit: all the digits, then all
      the white space, then the unit group (through `OneLetterCapture`, which is the ordered
      alternation by `CaptureIsOneLetter`). */
  function MatchAt(rest: string): (f: Found)
    requires rest != [] && IsDigit(rest[0])
    ensures 0 < f.consumed <= |rest|
  {
    var k := DigitRun(rest);
    var sp := SpaceRun(rest[k..]);
    var unit := OneLetterCapture(rest[k + sp..]);
    Found(Token(rest[..k], unit), k + sp + (if unit.Some? then |unit.value| else 0))
  }

  /** `regex.exec` resuming at the start of `rest`: the first digit starts the match. */
  function NextMatch(rest: string): (r: Option<Found>)
    ensures r.Some? ==> 0 < r.value.consumed <= |rest|
  {
    if rest == [] then None
    else if !IsDigit(rest[0]) then Shift(NextMatch(rest[1..]), 1)
    else Some(MatchAt(rest))
  }

  /** The same search result seen from `n` characters earlier. */
  function Shift(r: Option<Found>, n: nat): (q: Option<Found>)
    ensures q.Some? <==> r.Some?
    ensures q.Some? ==> q.value.token == r.value.token && q.value.consumed == r.value.consumed + n
  {
    match r
    case None => None
    case Some(f) => Some(f.(consumed := f.consumed + n))
  }

  /** The matches the `while` loop visits, in order. */
  function Tokens(s: string): seq<Token>
    decreases |s|
  {
    match NextMatch(s)
    case None => []
    case Some(f) => [f.token] + Tokens(s[f.consumed..])
  }

  /** What one match adds to the total: `parseInt(match[1])` times the unit's seconds; a missing
      unit reads as `"s"`. */
  function TokenSeconds(t: Token): nat
  {
    DigitsValue(t.number) * UnitSeconds(match t.unit case None => "s" case Some(u) => LowerString(u))
  }

  function TotalSeconds(ts: seq<Token>): nat
  {
    if ts == [] then 0 else TokenSeconds(ts[0]) + TotalSeconds(ts[1..])
  }

  /** The value `parseDurationToSeconds(s)` returns. */
  function DurationSeconds(s: string): int
  {
    var total := TotalSeconds(Tokens(s));
    if total == 0 then
      match ParseIntDecimal(s)
      case Some(n) => n * 60
      case None => total
    else total
  }

  /** `parseDurationToSeconds`: the loop over the matches, then the minutes fallback. */
  method ParseDurationToSeconds(duration: string) returns (totalSeconds: int)
    ensures totalSeconds == DurationSeconds(duration)
    ensures totalSeconds >= 0
  {
    totalSeconds := SumMatches(duration);
    FallbackIsZero(duration);
    if totalSeconds == 0 {
      var onlyNum := ParseIntDecimal(duration);
      if onlyNum.Some? {
        totalSeconds := onlyNum.value * 60;
      }
    }
  }

  /** The `while ((match = regex.exec(duration)) !== null)` loop: every match adds
      `parseInt(match[1])` times the seconds of its unit. */
  method SumMatches(duration: string) returns (totalSeconds: nat)
    ensures totalSeconds == TotalSeconds(Tokens(duration))
  {
    totalSeconds := 0;
    var lastIndex := 0;
    var match_ := NextMatch(duration[lastIndex..]);
    while match_.Some?
      invariant 0 <= lastIndex <= |duration|
      invariant match_ == NextMatch(duration[lastIndex..])
      invariant totalSeconds + TotalSeconds(Tokens(duration[lastIndex..])) == TotalSeconds(Tokens(duration))
      decreases |duration| - lastIndex
    {
      var f := match_.value;
      var value := DigitsValue(f.token.number);
      var unit := if f.token.unit.Some? then LowerString(f.token.unit.value) else "s";
      MatchStep(duration, lastIndex, f);
      totalSeconds := totalSeconds + value * UnitSeconds(unit);
      lastIndex := lastIndex + f.consumed;
      match_ := NextMatch(duration[lastIndex..]);
    }
    TokensNone(duration[lastIndex..]);
    assert duration[0..] == duration;
  }

  /** When no match is worth anything, the minutes fallback reads 0 (or nothing). */
  lemma FallbackIsZero(s: string)
    ensures TotalSeconds(Tokens(s)) == 0 && ParseIntDecimal(s).Some? ==> ParseIntDecimal(s).value == 0
  {
    LeadingIntegerBound(s);
  }

  /** One turn of the loop: the match found at `i` is worth its tokens' seconds and the search
      goes on after it. */
  lemma MatchStep(s: string, i: nat, f: Found)
    requires i <= |s| && NextMatch(s[i..]) == Some(f)
    ensures i + f.consumed <= |s|
    ensures TotalSeconds(Tokens(s[i..])) == TokenSeconds(f.token) + TotalSeconds(Tokens(s[i + f.consumed..]))
  {
    TokensStep(s[i..], f);
    assert s[i..][f.consumed..] == s[i + f.consumed..];
    assert ([f.token] + Tokens(s[i + f.consumed..]))[1..] == Tokens(s[i + f.consumed..]);
  }

  // ---------------------------------------------------------------- formatting

  /** `formatToHrsMins`: `Math.floor(seconds / 3600)` hours and
      `Math.floor((seconds % 3600) / 60)` minutes, with JavaScript's truncating `%`. */
  function FormatToHrsMins(seconds: int): string
  {
    IntToString(seconds / 3600) + "h " + IntToString(JsRem(seconds, 3600) / 60) + "m"
  }

  /** For a non-negative count the hours are `n / 3600` and the minutes, 0 to 59, are what is
      left over in whole minutes; the leftover seconds are dropped. */
  lemma FormatToHrsMinsParts(n: nat)
    ensures FormatToHrsMins(n) == NatToString(n / 3600) + "h " + NatToString((n % 3600) / 60) + "m"
    ensures 0 <= (n % 3600) / 60 <= 59
    ensures (n / 3600) * 3600 + ((n % 3600) / 60) * 60 == n - n % 60
  {
    HoursMinutesSplit(n);
  }

  /** Whole hours plus whole minutes of the remainder is the count rounded down to a minute. */
  lemma HoursMinutesSplit(n: nat)
    ensures (n / 3600) * 3600 + ((n % 3600) / 60) * 60 == n - n % 60
  {
    var h, r := n / 3600, n % 3600;
    var m, s := r / 60, r % 60;
    assert n == h * 3600 + r;
    assert r == m * 60 + s;
    assert n == (h * 60 + m) * 60 + s;
    assert n % 60 == s;
  }

  // ---------------------------------------------------------------- how matching behaves

  /** Alternatives that all fail are skipped. */
  lemma {:induction false} SkipFailing(g: seq<string>, rest_alts: seq<string>, rest: string)
    requires forall a :: a in g ==> !MatchesIgnoringCase(a, rest)
    ensures CaptureUnit(g + rest_alts, rest) == CaptureUnit(rest_alts, rest)
  {
    if g == [] {
      assert g + rest_alts == rest_alts;
    } else {
      assert g[0] in g;
      assert (g + rest_alts)[0] == g[0];
      assert (g + rest_alts)[1..] == g[1..] + rest_alts;
      assert forall a :: a in g[1..] ==> a in g;
      SkipFailing(g[1..], rest_alts, rest);
    }
  }

  /** A group of alternatives that all start with `c`, the first of them `c` alone, captures
      exactly the first character when it is `c` in either case, and is skipped otherwise. */
  lemma UnitGroup(g: seq<string>, c: char, rest_alts: seq<string>, rest: string)
    requires g != [] && g[0] == [c]
    requires forall a :: a in g ==> |a| >= 1 && a[0] == c
    ensures CaptureUnit(g + rest_alts, rest)
         == if rest != [] && Lower(rest[0]) == c then Some(rest[..1]) else CaptureUnit(rest_alts, rest)
  {
    if rest != [] && Lower(rest[0]) == c {
      assert (g + rest_alts)[0] == [c];
    } else {
      SkipFailing(g, rest_alts, rest);
    }
  }

  /** Because the alternation is ordered and `h`, `m` and `s` come first in their groups, the
      unit group only ever captures one letter: `hours` is read as `h`, `mins` as `m`. */
  lemma CaptureIsOneLetter(rest: string)
    ensures CaptureUnit(UnitAlternatives, rest) == OneLetterCapture(rest)
  {
    WordsStartWith(HourWords, 'h');
    WordsStartWith(MinuteWords, 'm');
    WordsStartWith(SecondWords, 's');
    ThreeGroups(HourWords, MinuteWords, SecondWords, rest);
  }

  /** Three groups of words, starting with `h`, `m` and `s` in that order, capture the first
      letter when it is a unit letter. */
  lemma ThreeGroups(hs: seq<string>, ms: seq<string>, ss: seq<string>, rest: string)
    requires hs != [] && hs[0] == "h" && forall a :: a in hs ==> |a| >= 1 && a[0] == 'h'
    requires ms != [] && ms[0] == "m" && forall a :: a in ms ==> |a| >= 1 && a[0] == 'm'
    requires ss != [] && ss[0] == "s" && forall a :: a in ss ==> |a| >= 1 && a[0] == 's'
    ensures CaptureUnit(hs + ms + ss, rest) == OneLetterCapture(rest)
  {
    assert hs + ms + ss == hs + (ms + ss);
    UnitGroup(hs, 'h', ms + ss, rest);
    UnitGroup(ms, 'm', ss, rest);
    assert ss == ss + [];
    UnitGroup(ss, 's', [], rest);
  }

  /** Each group of unit words starts with its one-letter word, and every word in it starts
      with that letter. */
  lemma WordsStartWith(g: seq<string>, c: char)
    requires (g == HourWords && c == 'h') || (g == MinuteWords && c == 'm') || (g == SecondWords && c == 's')
    ensures g != [] && g[0] == [c]
    ensures forall a :: a in g ==> |a| >= 1 && a[0] == c
  {
  }

  /** The seconds a one-letter unit counts are fixed by its letter, in either case. */
  lemma LetterUnitSeconds(number: Digits, c: char)
    requires IsUnitLetter(c)
    ensures TokenSeconds(Token(number, Some([c]))) == DigitsValue(number) * LetterSeconds(c)
  {
    assert LowerString([c]) == [Lower(c)];
  }

  /** The shape of a match whose unit group is a letter after the digits and white space. */
  lemma MatchAtUnit(ds: string, sp: string, c: char, rest: string)
    requires ds != [] && AllDigits(ds) && AllSpaces(sp) && IsUnitLetter(c)
    ensures ds + sp + [c] + rest != [] && IsDigit((ds + sp + [c] + rest)[0])
    ensures MatchAt(ds + sp + [c] + rest) == Found(Token(ds, Some([c])), |ds| + |sp| + 1)
  {
    UnitParts(ds, sp, c, rest);
  }

  /** Where the digits, the white space and the unit letter of `ds + sp + [c] + rest` lie. */
  lemma UnitParts(ds: string, sp: string, c: char, rest: string)
    requires ds != [] && AllDigits(ds) && AllSpaces(sp) && IsUnitLetter(c)
    ensures var s := ds + sp + [c] + rest;
      s[0] == ds[0] && DigitRun(s) == |ds| && s[..|ds|] == ds && SpaceRun(s[|ds|..]) == |sp|
      && |ds| + |sp| < |s| && OneLetterCapture(s[|ds| + |sp|..]) == Some([c])
  {
    var s := ds + sp + [c] + rest;
    Seqs.FourParts(ds, sp, c, rest);
    assert s[0] == ds[0];
    assert DigitRun(s) == |ds| by {
      DigitRunStops(ds, sp + ([c] + rest));
    }
    assert SpaceRun(s[|ds|..]) == |sp| by {
      SpaceRunStops(sp, [c] + rest);
    }
    assert OneLetterCapture([c] + rest) == Some([c]) by {
      assert ([c] + rest)[..1] == [c];
    }
  }

  /** A run of digits ends where the first non-digit is. */
  lemma {:induction false} DigitRunStops(ds: string, rest: string)
    requires AllDigits(ds)
    requires rest == [] || !IsDigit(rest[0])
    ensures DigitRun(ds + rest) == |ds|
  {
    if ds == [] {
      assert ds + rest == rest;
    } else {
      assert (ds + rest)[1..] == ds[1..] + rest;
      DigitRunStops(ds[1..], rest);
    }
  }

  /** A run of white space ends where the first other character is. */
  lemma {:induction false} SpaceRunStops(sp: string, rest: string)
    requires AllSpaces(sp)
    requires rest == [] || !IsSpace(rest[0])
    ensures SpaceRun(sp + rest) == |sp|
  {
    if sp == [] {
      assert sp + rest == rest;
    } else {
      assert (sp + rest)[1..] == sp[1..] + rest;
      SpaceRunStops(sp[1..], rest);
    }
  }

  /** A character that is not a digit is skipped by the search. */
  lemma SkipNonDigit(c: char, s: string)
    requires !IsDigit(c)
    ensures Tokens([c] + s) == Tokens(s)
  {
    assert ([c] + s)[1..] == s;
    match NextMatch(s)
    case None =>
    case Some(f) =>
      assert ([c] + s)[f.consumed + 1..] == s[f.consumed..];
  }

  /** Text without a digit. */
  predicate NoDigit(p: string)
  {
    forall k :: 0 <= k < |p| ==> !IsDigit(p[k])
  }

  /** Text without digits in front of `s` adds no match. */
  lemma {:induction false} SkipNoDigits(p: string, s: string)
    requires NoDigit(p)
    ensures Tokens(p + s) == Tokens(s)
  {
    if p == [] {
      assert p + s == s;
    } else {
      assert p + s == [p[0]] + (p[1..] + s);
      SkipNonDigit(p[0], p[1..] + s);
      SkipNoDigits(p[1..], s);
    }
  }

  /** Digits, optional white space, then a unit letter make one match, whatever follows. */
  lemma TokensUnit(ds: string, sp: string, c: char, rest: string)
    requires ds != [] && AllDigits(ds) && AllSpaces(sp) && IsUnitLetter(c)
    ensures Tokens(ds + sp + [c] + rest) == [Token(ds, Some([c]))] + Tokens(rest)
  {
    var s := ds + sp + [c] + rest;
    MatchAtUnit(ds, sp, c, rest);
    assert s[|ds| + |sp| + 1..] == rest;
  }

  /** A bare number makes one match with no unit. */
  lemma TokensBare(ds: string)
    requires ds != [] && AllDigits(ds)
    ensures Tokens(ds) == [Token(ds, None)]
  {
    DigitRunStops(ds, []);
    assert ds + [] == ds;
    assert ds[|ds|..] == [];
    assert ds[..|ds|] == ds;
    assert MatchAt(ds) == Found(Token(ds, None), |ds|);
  }

  // ---------------------------------------------------------------- tokens of joined text

  /** Text that cannot run on into what follows it: it is empty or ends in neither a digit
      nor white space (so no number and no gap before a unit is left open at its end). */
  predicate Closed(s: string)
  {
    s == [] || (!IsDigit(s[|s| - 1]) && !IsSpace(s[|s| - 1]))
  }

  /** A closed text followed by more text: the match the search finds first lies inside the
      closed text when there is one there, else the search moves on to what follows. */
  lemma {:induction false} NextMatchAppend(a: string, b: string)
    requires Closed(a)
    ensures NextMatch(a).Some? ==> NextMatch(a + b) == NextMatch(a)
    ensures NextMatch(a).None? ==> NextMatch(a + b) == Shift(NextMatch(b), |a|)
  {
    if a == [] {
      assert a + b == b;
    } else if !IsDigit(a[0]) {
      assert (a + b)[0] == a[0];
      assert (a + b)[1..] == a[1..] + b;
      ClosedSuffix(a, 1);
      NextMatchAppend(a[1..], b);
    } else {
      MatchAtAppend(a, b);
    }
  }

  /** A match that starts in a closed text ends in it, and is the same with text appended. */
  lemma MatchAtAppend(a: string, b: string)
    requires Closed(a) && a != [] && IsDigit(a[0])
    ensures MatchAt(a + b) == MatchAt(a)
  {
    RunsAppend(a, b);
    var k := DigitRun(a);
    var sp := SpaceRun(a[k..]);
    CaptureAppend(a[k + sp..], b);
  }

  /** In a closed text that starts with a digit, the digits and the white space after them
      end inside the text, at the same places once more text is appended. */
  lemma RunsAppend(a: string, b: string)
    requires Closed(a) && a != [] && IsDigit(a[0])
    ensures DigitRun(a) + SpaceRun(a[DigitRun(a)..]) < |a|
    ensures DigitRun(a + b) == DigitRun(a) && (a + b)[..DigitRun(a)] == a[..DigitRun(a)]
    ensures SpaceRun((a + b)[DigitRun(a)..]) == SpaceRun(a[DigitRun(a)..])
    ensures (a + b)[DigitRun(a) + SpaceRun(a[DigitRun(a)..])..] == a[DigitRun(a) + SpaceRun(a[DigitRun(a)..])..] + b
  {
    var k := DigitRun(a);
    assert k < |a|;
    assert DigitRun(a + b) == k by {
      DigitRunAppend(a, b);
    }
    Seqs.SliceAppend(a, b, k);
    var sp := SpaceRun(a[k..]);
    assert k + sp < |a| by {
      assert a[k..][|a| - k - 1] == a[|a| - 1];
    }
    assert SpaceRun(a[k..] + b) == sp by {
      SpaceRunAppend(a[k..], b);
    }
    Seqs.SliceAppend(a, b, k + sp);
  }

  /** The unit group looks at one character only, so text appended after a non-empty rest
      does not change what it captures. */
  lemma CaptureAppend(x: string, b: string)
    requires x != []
    ensures OneLetterCapture(x + b) == OneLetterCapture(x)
  {
    assert (x + b)[0] == x[0];
    assert (x + b)[..1] == x[..1];
  }

  /** A run of digits that stops inside `a` stops at the same place in `a + b`. */
  lemma {:induction false} DigitRunAppend(a: string, b: string)
    requires DigitRun(a) < |a|
    ensures DigitRun(a + b) == DigitRun(a)
  {
    assert (a + b)[0] == a[0];
    if IsDigit(a[0]) {
      assert (a + b)[1..] == a[1..] + b;
      DigitRunAppend(a[1..], b);
    }
  }

  /** A run of white space that stops inside `a` stops at the same place in `a + b`. */
  lemma {:induction false} SpaceRunAppend(a: string, b: string)
    requires SpaceRun(a) < |a|
    ensures SpaceRun(a + b) == SpaceRun(a)
  {
    assert (a + b)[0] == a[0];
    if IsSpace(a[0]) {
      assert (a + b)[1..] == a[1..] + b;
      SpaceRunAppend(a[1..], b);
    }
  }

  /** The matches of a closed text followed by more text are the matches of each part. */
  lemma {:induction false} TokensAppend(a: string, b: string)
    requires Closed(a)
    ensures Tokens(a + b) == Tokens(a) + Tokens(b)
    decreases |a|
  {
    if NextMatch(a).None? {
      TokensAppendNoMatch(a, b);
    } else {
      var f := NextMatch(a).value;
      ClosedSuffix(a, f.consumed);
      TokensAppend(a[f.consumed..], b);
      TokensAppendStep(a, b, f);
    }
  }

  /** `TokensAppend` when the closed text holds no match. */
  lemma TokensAppendNoMatch(a: string, b: string)
    requires Closed(a) && NextMatch(a).None?
    ensures Tokens(a + b) == Tokens(a) + Tokens(b)
  {
    TokensNone(a);
    NextMatchAppend(a, b);
    TokensAfterNoMatch(a, b);
    assert [] + Tokens(b) == Tokens(b);
  }

  /** `TokensAppend` when the closed text holds a match, given the property for what follows
      that match. */
  lemma TokensAppendStep(a: string, b: string, f: Found)
    requires Closed(a) && NextMatch(a) == Some(f)
    requires Tokens(a[f.consumed..] + b) == Tokens(a[f.consumed..]) + Tokens(b)
    ensures Tokens(a + b) == Tokens(a) + Tokens(b)
  {
    TokensStep(a, f);
    TokensStepAppend(a, b, f);
    Seqs.ConsAppend(Tokens(a), Tokens(a + b), Tokens(a[f.consumed..]), Tokens(a[f.consumed..] + b), Tokens(b), f.token);
  }

  /** The first match of a closed text is also the first match once text is appended. */
  lemma TokensStepAppend(a: string, b: string, f: Found)
    requires Closed(a) && NextMatch(a) == Some(f)
    ensures Tokens(a + b) == [f.token] + Tokens(a[f.consumed..] + b)
  {
    NextMatchAppend(a, b);
    TokensStep(a + b, f);
    Seqs.SliceAppend(a, b, f.consumed);
  }

  /** Text with no match in it contributes nothing before the matches of what follows. */
  lemma TokensAfterNoMatch(a: string, b: string)
    requires NextMatch(a).None?
    requires NextMatch(a + b) == Shift(NextMatch(b), |a|)
    ensures Tokens(a + b) == Tokens(b)
  {
    var mb := NextMatch(b);
    if mb.Some? {
      var f := mb.value;
      var g := f.(consumed := f.consumed + |a|);
      assert (a + b)[g.consumed..] == b[f.consumed..];
      TokensStep(a + b, g);
      TokensStep(b, f);
    } else {
      TokensNone(b);
      TokensNone(a + b);
    }
  }

  /** One step of the loop: the match found, then the matches after it. */
  lemma TokensStep(s: string, f: Found)
    requires NextMatch(s) == Some(f)
    ensures Tokens(s) == [f.token] + Tokens(s[f.consumed..])
  {
  }

  /** No match, no tokens. */
  lemma TokensNone(s: string)
    requires NextMatch(s).None?
    ensures Tokens(s) == []
  {
  }

  /** What is left of a closed text after a match is closed. */
  lemma ClosedSuffix(a: string, c: nat)
    requires Closed(a) && c <= |a|
    ensures Closed(a[c..])
  {
    if c < |a| {
      assert a[c..][|a| - c - 1] == a[|a| - 1];
    }
  }

  lemma {:induction false} TotalSecondsAppend(x: seq<Token>, y: seq<Token>)
    ensures TotalSeconds(x + y) == TotalSeconds(x) + TotalSeconds(y)
  {
    if x == [] {
      assert x + y == y;
    } else {
      assert (x + y)[1..] == x[1..] + y;
      TotalSecondsAppend(x[1..], y);
    }
  }

  // ---------------------------------------------------------------- the properties

  /** The minutes fallback never changes the result: when every match is worth 0, the leading
      integer `parseInt` reads is 0 (or there is none). So the result is the plain sum of the
      matches, and it is never negative. */
  lemma DurationIsTokenSum(s: string)
    ensures DurationSeconds(s) == TotalSeconds(Tokens(s))
    ensures DurationSeconds(s) >= 0
  {
    FallbackIsZero(s);
  }

  /** The integer `parseInt` reads at the front is at most, in size, what the matches are worth:
      its digits are the number of the first match. */
  lemma LeadingIntegerBound(s: string)
    ensures ParseIntDecimal(s).Some? ==> -(TotalSeconds(Tokens(s)) as int) <= ParseIntDecimal(s).value <= TotalSeconds(Tokens(s))
  {
    var u := AfterSign(TrimStart(s));
    if DigitRun(u) > 0 {
      var p := SpaceAndSignPrefix(s);
      SkipNoDigits(p, u);
      FirstMatchBound(u);
    }
  }

  /** What `parseInt` skips before its digits, white space and a sign, holds no digit. */
  lemma SpaceAndSignPrefix(s: string) returns (p: string)
    ensures s == p + AfterSign(TrimStart(s))
    ensures NoDigit(p)
  {
    var t := TrimStart(s);
    OuterPrefix(s, t, AfterSign(t));
    p := s[..|s| - |AfterSign(t)|];
  }

  /** White space then at most one sign, in front of `u`, holds no digit. */
  lemma OuterPrefix(s: string, t: string, u: string)
    requires |t| <= |s| && t == s[|s| - |t|..] && AllSpaces(s[..|s| - |t|])
    requires u == t || (t != [] && (t[0] == '-' || t[0] == '+') && u == t[1..])
    ensures |u| <= |s| && s == s[..|s| - |u|] + u
    ensures NoDigit(s[..|s| - |u|])
  {
    var p := s[..|s| - |u|];
    assert s == p + u;
    forall j | 0 <= j < |p| ensures !IsDigit(p[j]) {
      if j < |s| - |t| {
        assert p[j] == s[..|s| - |t|][j];
      } else {
        assert p[j] == t[0];
      }
    }
  }

  /** A text that starts with a digit is worth at least the value of its leading digits. */
  lemma FirstMatchBound(u: string)
    requires u != [] && IsDigit(u[0])
    ensures TotalSeconds(Tokens(u)) >= DigitsValue(u[..DigitRun(u)])
  {
    var f := MatchAt(u);
    assert Tokens(u) == [f.token] + Tokens(u[f.consumed..]);
    assert f.token.number == u[..DigitRun(u)];
    assert TotalSeconds(Tokens(u)) >= TokenSeconds(f.token);
  }

  /** A number with no unit counts as seconds. */
  lemma BareNumberIsSeconds(n: nat)
    ensures DurationSeconds(NatToString(n)) == n
  {
    TokensBare(NatToString(n));
    NatToStringValue(n);
    DurationIsTokenSum(NatToString(n));
  }

  /** Text without a digit is worth 0. */
  lemma NoDigitsIsZero(s: string)
    requires NoDigit(s)
    ensures DurationSeconds(s) == 0
  {
    SkipNoDigits(s, []);
    assert s + [] == s;
    DurationIsTokenSum(s);
  }

  /** A number followed (after optional white space) by a unit word counts the seconds of the
      word's first letter, whatever the rest of the word is. */
  lemma UnitWordSeconds(ds: string, sp: string, c: char, rest: string)
    requires ds != [] && AllDigits(ds) && AllSpaces(sp) && IsUnitLetter(c)
    ensures DurationSeconds(ds + sp + [c] + rest) == DigitsValue(ds) * LetterSeconds(c) + DurationSeconds(rest)
  {
    UnitWordTokens(ds, sp, c, rest);
    DurationIsTokenSum(ds + sp + [c] + rest);
    DurationIsTokenSum(rest);
  }

  /** The sum of the matches after a number and a unit letter. */
  lemma UnitWordTokens(ds: string, sp: string, c: char, rest: string)
    requires ds != [] && AllDigits(ds) && AllSpaces(sp) && IsUnitLetter(c)
    ensures TotalSeconds(Tokens(ds + sp + [c] + rest)) == DigitsValue(ds) * LetterSeconds(c) + TotalSeconds(Tokens(rest))
  {
    TokensUnit(ds, sp, c, rest);
    LetterUnitSeconds(ds, c);
  }

  /** Matches add up regardless of their order: two closed pieces joined by a space in either
      order are worth the same, namely the sum of the pieces. */
  lemma OrderIndependent(a: string, b: string)
    requires Closed(a) && Closed(b)
    ensures DurationSeconds(a + " " + b) == DurationSeconds(a) + DurationSeconds(b)
    ensures DurationSeconds(a + " " + b) == DurationSeconds(b + " " + a)
  {
    JoinedWithSpace(a, b);
    JoinedWithSpace(b, a);
    DurationIsTokenSum(a + " " + b);
    DurationIsTokenSum(b + " " + a);
    DurationIsTokenSum(a);
    DurationIsTokenSum(b);
  }

  /** Two pieces joined by a space: the matches of the first, then those of the second. */
  lemma JoinedWithSpace(a: string, b: string)
    requires Closed(a)
    ensures TotalSeconds(Tokens(a + " " + b)) == TotalSeconds(Tokens(a)) + TotalSeconds(Tokens(b))
  {
    assert a + " " + b == a + ([' '] + b);
    TokensAppend(a, [' '] + b);
    SkipNonDigit(' ', b);
    TotalSecondsAppend(Tokens(a), Tokens(b));
  }

  /** Same text up to ASCII case, at every position. */
  predicate CaseEquivalent(s: string, t: string)
  {
    |s| == |t| && forall k :: 0 <= k < |s| ==> Lower(s[k]) == Lower(t[k])
  }

  /** The first match is worth the same, and ends at the same place, in texts that differ
      only in case. */
  lemma MatchAtIgnoresCase(s: string, t: string)
    requires CaseEquivalent(s, t) && s != [] && IsDigit(s[0]) && IsDigit(t[0])
    ensures MatchAt(s).consumed == MatchAt(t).consumed
    ensures TokenSeconds(MatchAt(s).token) == TokenSeconds(MatchAt(t).token)
  {
    var k := DigitRun(s);
    var sp := SpaceRun(s[k..]);
    RunsIgnoreCase(s, t, k, sp);
    CaptureIgnoresCase(s[k + sp..], t[k + sp..]);
    TokenSecondsSame(MatchAt(s).token, MatchAt(t).token);
  }

  /** The digits and the white space after them are the same runs in texts that differ only in
      case, and what follows them still differs only in case. */
  lemma RunsIgnoreCase(s: string, t: string, k: nat, sp: nat)
    requires CaseEquivalent(s, t) && k == DigitRun(s) && sp == SpaceRun(s[k..])
    ensures k == DigitRun(t) && s[..k] == t[..k] && sp == SpaceRun(t[k..])
    ensures k + sp <= |s| && CaseEquivalent(s[k + sp..], t[k + sp..])
  {
    DigitRunIgnoresCase(s, t);
    DigitsIgnoreCase(s, t, k);
    SuffixCaseEquivalent(s, t, k);
    SpaceRunIgnoresCase(s[k..], t[k..]);
    SuffixCaseEquivalent(s, t, k + sp);
  }

  /** Two matches with the same number and units of the same lower case are worth the same. */
  lemma TokenSecondsSame(a: Token, b: Token)
    requires a.number == b.number && a.unit.Some? == b.unit.Some?
    requires a.unit.Some? ==> LowerString(a.unit.value) == LowerString(b.unit.value)
    ensures TokenSeconds(a) == TokenSeconds(b)
  {
  }

  /** Digits are the same in texts that differ only in case. */
  lemma DigitsIgnoreCase(s: string, t: string, k: nat)
    requires CaseEquivalent(s, t) && k <= |s| && AllDigits(s[..k])
    ensures s[..k] == t[..k]
  {
    forall j | 0 <= j < k ensures s[j] == t[j] {
      assert IsDigit(s[..k][j]);
      SameLowerSameKind(s[j], t[j]);
    }
  }

  /** The unit group captures text of the same length and the same lower case in texts that
      differ only in case. */
  lemma CaptureIgnoresCase(x: string, y: string)
    requires CaseEquivalent(x, y)
    ensures OneLetterCapture(x).Some? == OneLetterCapture(y).Some?
    ensures OneLetterCapture(x).Some? ==>
              |OneLetterCapture(x).value| == |OneLetterCapture(y).value|
              && LowerString(OneLetterCapture(x).value) == LowerString(OneLetterCapture(y).value)
  {
    if x != [] {
      if IsUnitLetter(x[0]) {
        assert x[..1] == [x[0]] && y[..1] == [y[0]];
        assert LowerString([x[0]]) == [Lower(x[0])];
        assert LowerString([y[0]]) == [Lower(y[0])];
      }
    }
  }

  lemma {:induction false} DigitRunIgnoresCase(s: string, t: string)
    requires CaseEquivalent(s, t)
    ensures DigitRun(s) == DigitRun(t)
  {
    if s != [] {
      SameLowerSameKind(s[0], t[0]);
      if IsDigit(s[0]) {
        assert CaseEquivalent(s[1..], t[1..]) by {
          forall j | 0 <= j < |s| - 1 ensures Lower(s[1..][j]) == Lower(t[1..][j]) {
            assert s[1..][j] == s[j + 1] && t[1..][j] == t[j + 1];
          }
        }
        DigitRunIgnoresCase(s[1..], t[1..]);
      }
    }
  }

  lemma {:induction false} SpaceRunIgnoresCase(s: string, t: string)
    requires CaseEquivalent(s, t)
    ensures SpaceRun(s) == SpaceRun(t)
  {
    if s != [] {
      SameLowerSameKind(s[0], t[0]);
      if IsSpace(s[0]) {
        assert CaseEquivalent(s[1..], t[1..]) by {
          forall j | 0 <= j < |s| - 1 ensures Lower(s[1..][j]) == Lower(t[1..][j]) {
            assert s[1..][j] == s[j + 1] && t[1..][j] == t[j + 1];
          }
        }
        SpaceRunIgnoresCase(s[1..], t[1..]);
      }
    }
  }

  /** Case-equivalent suffixes of case-equivalent texts. */
  lemma SuffixCaseEquivalent(s: string, t: string, c: nat)
    requires CaseEquivalent(s, t) && c <= |s|
    ensures CaseEquivalent(s[c..], t[c..])
  {
    forall j | 0 <= j < |s| - c ensures Lower(s[c..][j]) == Lower(t[c..][j]) {
      assert s[c..][j] == s[c + j] && t[c..][j] == t[c + j];
    }
  }

  /** Unit matching ignores case: texts that differ only in the case of their letters are
      worth the same, so `"2H"` is worth what `"2h"` is. */
  lemma {:induction false} IgnoresCase(s: string, t: string)
    requires CaseEquivalent(s, t)
    ensures TotalSeconds(Tokens(s)) == TotalSeconds(Tokens(t))
    ensures DurationSeconds(s) == DurationSeconds(t)
    decreases |s|
  {
    if s != [] {
      SameLowerSameKind(s[0], t[0]);
      SuffixCaseEquivalent(s, t, 1);
      if !IsDigit(s[0]) {
        assert s == [s[0]] + s[1..] && t == [t[0]] + t[1..];
        SkipNonDigit(s[0], s[1..]);
        SkipNonDigit(t[0], t[1..]);
        IgnoresCase(s[1..], t[1..]);
      } else {
        MatchAtIgnoresCase(s, t);
        var c := MatchAt(s).consumed;
        SuffixCaseEquivalent(s, t, c);
        IgnoresCase(s[c..], t[c..]);
      }
    }
    DurationIsTokenSum(s);
    DurationIsTokenSum(t);
  }

  /** Round trip: reading back what `formatToHrsMins` wrote gives the count rounded down to a
      whole minute; only the leftover seconds are lost. */
  lemma FormatThenParse(n: nat)
    ensures DurationSeconds(FormatToHrsMins(n)) == n - n % 60
  {
    FormatToHrsMinsParts(n);
    var hs, ms := NatToString(n / 3600), NatToString((n % 3600) / 60);
    HoursThenMinutes(hs, ms);
    DurationIsTokenSum(FormatToHrsMins(n));
    NatToStringValue(n / 3600);
    NatToStringValue((n % 3600) / 60);
  }

  /** `"<digits>h <digits>m"` is worth its hours and its minutes. */
  lemma HoursThenMinutes(hs: string, ms: string)
    requires hs != [] && AllDigits(hs) && ms != [] && AllDigits(ms)
    ensures TotalSeconds(Tokens(hs + "h " + ms + "m")) == DigitsValue(hs) * 3600 + DigitsValue(ms) * 60
  {
    var a, b := hs + [] + ['h'] + [], ms + [] + ['m'] + [];
    assert hs + "h " + ms + "m" == a + " " + b;
    NumberAndLetter(hs, 'h');
    NumberAndLetter(ms, 'm');
    JoinedWithSpace(a, b);
  }

  /** A number directly followed by a unit letter is closed and worth the number in that unit. */
  lemma NumberAndLetter(ds: string, c: char)
    requires ds != [] && AllDigits(ds) && IsUnitLetter(c)
    ensures Closed(ds + [] + [c] + [])
    ensures TotalSeconds(Tokens(ds + [] + [c] + [])) == DigitsValue(ds) * LetterSeconds(c)
  {
    UnitWordTokens(ds, [], c, []);
    assert TotalSeconds(Tokens([])) == 0;
  }

  /** `"45"` is 45 seconds. */
  lemma ExampleBare()
    ensures DurationSeconds("45") == 45
  {
    BareNumberIsSeconds(45);
    assert NatToString(45) == "45";
  }
}
