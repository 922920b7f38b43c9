/** The JavaScript string built-ins the application relies on, restricted to what it uses:
    the white-space class shared by `\s`, `String.prototype.trim` and `parseInt`,
    decimal rendering of integers (template literals, `toString`), `padStart`,
    `Array.prototype.join` with its inverse `split`, a radix-10 `parseInt`, and the
    `value || "default"` idiom. */
module JsText {
  import opened Wrappers

  predicate IsDigit(c: char)
  {
    '0' <= c <= '9'
  }

  /** The characters ECMAScript counts as WhiteSpace or LineTerminator. */
  predicate IsSpace(c: char)
  {
    var n := c as int;
    n == 0x09 || n == 0x0A || n == 0x0B || n == 0x0C || n == 0x0D || n == 0x20 || n == 0xA0
    || n == 0x1680 || (0x2000 <= n <= 0x200A) || n == 0x2028 || n == 0x2029 || n == 0x202F
    || n == 0x205F || n == 0x3000 || n == 0xFEFF
  }

  predicate AllDigits(s: string)
  {
    forall k :: 0 <= k < |s| ==> IsDigit(s[k])
  }

  predicate AllSpaces(s: string)
  {
    forall k :: 0 <= k < |s| ==> IsSpace(s[k])
  }

  /** ASCII lower case; every other character is left as it is. */
  function Lower(c: char): char
  {
    if 'A' <= c <= 'Z' then (c as int + 32) as char else c
  }

  /** `toLowerCase` on text that is ASCII (the only text it is applied to here). */
  function LowerString(s: string): (r: string)
    ensures |r| == |s|
    ensures forall k :: 0 <= k < |s| ==> r[k] == Lower(s[k])
  {
    seq(|s|, k requires 0 <= k < |s| => Lower(s[k]))
  }

  /** Characters that differ only in ASCII case are the same kind of character. */
  lemma SameLowerSameKind(x: char, y: char)
    requires Lower(x) == Lower(y)
    ensures IsDigit(x) <==> IsDigit(y)
    ensures IsSpace(x) <==> IsSpace(y)
    ensures IsDigit(x) ==> x == y
  {
  }

  // ---------------------------------------------------------------- trim

  /** Drops the leading white space. */
  function TrimStart(s: string): (r: string)
    ensures |r| <= |s| && r == s[|s| - |r|..]
    ensures AllSpaces(s[..|s| - |r|])
    ensures r != [] ==> !IsSpace(r[0])
  {
    if s != [] && IsSpace(s[0]) then TrimStart(s[1..]) else s
  }

  /** Text with no white space at either end. */
  predicate IsTrimmed(s: string)
  {
    s == [] || (!IsSpace(s[0]) && !IsSpace(s[|s| - 1]))
  }

  /** `String.prototype.trim`: white space is dropped from the front, then from the back; the
      result has none at either end, and it is empty exactly when `s` is white space only. */
  function Trim(s: string): (r: string)
    ensures |r| <= |s|
    ensures r == [] <==> AllSpaces(s)
    ensures IsTrimmed(r)
    decreases |s|
  {
    if s != [] && IsSpace(s[0]) then Trim(s[1..])
    else if s != [] && IsSpace(s[|s| - 1]) then Trim(s[..|s| - 1])
    else s
  }

  /** `r` is the part of `s` from `i` on, with only white space before and after it. */
  predicate TrimmedFrom(s: string, r: string, i: int)
  {
    0 <= i <= |s| - |r| && r == s[i..i + |r|] && AllSpaces(s[..i]) && AllSpaces(s[i + |r|..])
  }

  /** Trimming removes white space and nothing else, and only at the two ends. */
  lemma {:induction false} TrimRemovesOuterSpace(s: string)
    ensures exists i :: TrimmedFrom(s, Trim(s), i)
    decreases |s|
  {
    var r := Trim(s);
    if s != [] && IsSpace(s[0]) {
      TrimRemovesOuterSpace(s[1..]);
      var i :| TrimmedFrom(s[1..], r, i);
      TrimmedFromFront(s, r, i);
    } else if s != [] && IsSpace(s[|s| - 1]) {
      TrimRemovesOuterSpace(s[..|s| - 1]);
      var i :| TrimmedFrom(s[..|s| - 1], r, i);
      TrimmedFromBack(s, r, i);
    } else {
      assert TrimmedFrom(s, r, 0);
    }
  }

  /** One more white space in front moves the kept part one place on. */
  lemma TrimmedFromFront(s: string, r: string, i: int)
    requires s != [] && IsSpace(s[0]) && TrimmedFrom(s[1..], r, i)
    ensures TrimmedFrom(s, r, i + 1)
  {
    var t := s[1..];
    assert s[i + 1..i + 1 + |r|] == t[i..i + |r|];
    assert s[..i + 1] == [s[0]] + t[..i];
    assert s[i + 1 + |r|..] == t[i + |r|..];
  }

  /** One more white space at the back leaves the kept part where it is. */
  lemma TrimmedFromBack(s: string, r: string, i: int)
    requires s != [] && IsSpace(s[|s| - 1]) && TrimmedFrom(s[..|s| - 1], r, i)
    ensures TrimmedFrom(s, r, i)
  {
    var t := s[..|s| - 1];
    assert s[i..i + |r|] == t[i..i + |r|];
    assert s[..i] == t[..i];
    assert s[i + |r|..] == t[i + |r|..] + [s[|s| - 1]];
  }

  /** Trimming text that was already trimmed changes nothing. */
  lemma TrimmedUnchanged(s: string)
    requires IsTrimmed(s)
    ensures Trim(s) == s
  {
  }

  /** Trimming twice is trimming once. */
  lemma TrimIdempotent(s: string)
    ensures Trim(Trim(s)) == Trim(s)
  {
    TrimmedUnchanged(Trim(s));
  }

  // ---------------------------------------------------------------- integers as text

  function DigitChar(d: nat): (c: char)
    requires d < 10
    ensures IsDigit(c) && DigitValue(c) == d
  {
    ('0' as int + d) as char
  }

  function DigitValue(c: char): nat
    requires IsDigit(c)
  {
    c as int - '0' as int
  }

  /** The decimal value of a run of digits, as `parseInt` reads it. */
  function DigitsValue(s: string): nat
    requires AllDigits(s)
  {
    if s == [] then 0 else DigitsValue(s[..|s| - 1]) * 10 + DigitValue(s[|s| - 1])
  }

  /** How JavaScript renders a non-negative integer: decimal digits, no leading zero. */
  function NatToString(n: nat): (r: string)
    ensures r != [] && AllDigits(r)
    ensures |r| == 1 || r[0] != '0'
  {
    if n < 10 then [DigitChar(n)] else NatToString(n / 10) + [DigitChar(n % 10)]
  }

  /** How JavaScript renders an integer, with a minus sign when it is negative. */
  function IntToString(i: int): (r: string)
    ensures i >= 0 ==> r == NatToString(i)
    ensures i < 0 ==> r == "-" + NatToString(-i)
  {
    if i < 0 then "-" + NatToString(-i) else NatToString(i)
  }

  /** Reading back the digits of a rendered number gives the number. */
  lemma {:induction false} NatToStringValue(n: nat)
    ensures DigitsValue(NatToString(n)) == n
  {
    if n >= 10 {
      var s := NatToString(n);
      assert s == NatToString(n / 10) + [DigitChar(n % 10)];
      assert s[..|s| - 1] == NatToString(n / 10);
      NatToStringValue(n / 10);
    }
  }

  /** Leading zeros do not change the value of a run of digits. */
  lemma {:induction false} LeadingZerosValue(z: string, s: string)
    requires forall k :: 0 <= k < |z| ==> z[k] == '0'
    requires AllDigits(s)
    ensures AllDigits(z + s)
    ensures DigitsValue(z + s) == DigitsValue(s)
    decreases |s|
  {
    var t := z + s;
    assert forall k :: 0 <= k < |t| ==> IsDigit(t[k]) by {
      forall k | 0 <= k < |t| ensures IsDigit(t[k]) {
        if k < |z| { assert t[k] == z[k]; } else { assert t[k] == s[k - |z|]; }
      }
    }
    if s == [] {
      assert t == z;
      ZerosValue(z);
    } else {
      assert t[..|t| - 1] == z + s[..|s| - 1];
      LeadingZerosValue(z, s[..|s| - 1]);
    }
  }

  /** A run of zeros is worth zero. */
  lemma {:induction false} ZerosValue(z: string)
    requires forall k :: 0 <= k < |z| ==> z[k] == '0'
    ensures AllDigits(z) && DigitsValue(z) == 0
  {
    if z != [] {
      ZerosValue(z[..|z| - 1]);
    }
  }

  /** The length of the run of digits at the start of `s`. */
  function DigitRun(s: string): (k: nat)
    ensures k <= |s| && AllDigits(s[..k])
    ensures k < |s| ==> !IsDigit(s[k])
  {
    if s != [] && IsDigit(s[0]) then
      var k := 1 + DigitRun(s[1..]);
      assert forall j :: 1 <= j < k ==> s[..k][j] == s[1..][..k - 1][j - 1];
      k
    else 0
  }

  /** The length of the run of white space at the start of `s`. */
  function SpaceRun(s: string): (k: nat)
    ensures k <= |s| && AllSpaces(s[..k])
    ensures k < |s| ==> !IsSpace(s[k])
  {
    if s != [] && IsSpace(s[0]) then
      var k := 1 + SpaceRun(s[1..]);
      assert forall j :: 1 <= j < k ==> s[..k][j] == s[1..][..k - 1][j - 1];
      k
    else 0
  }

  /** JavaScript's `a % b` for a positive `b`: the remainder takes the sign of `a`
      (Dafny's `%` is never negative). `Math.floor(x / b)` for a positive `b` is Dafny's `x / b`. */
  function JsRem(a: int, b: int): (r: int)
    requires b > 0
    ensures a >= 0 ==> r == a % b
    ensures a < 0 ==> -b < r <= 0
    ensures a == (if a >= 0 then a / b else -((-a) / b)) * b + r
  {
    if a >= 0 then a % b else -((-a) % b)
  }

  /** `parseInt(s)` read in radix 10: leading white space is skipped, then an optional sign,
      then the longest run of decimal digits; `None` stands for `NaN` (no digit there). */
  function ParseIntDecimal(s: string): Option<int>
  {
    var t := TrimStart(s);
    var u := AfterSign(t);
    var k := DigitRun(u);
    if k == 0 then None
    else
      var v: int := DigitsValue(u[..k]);
      Some(if t[0] == '-' then -v else v)
  }

  /** What follows one optional `-` or `+` at the front. */
  function AfterSign(t: string): string
  {
    if t != [] && (t[0] == '-' || t[0] == '+') then t[1..] else t
  }

  /** `parseInt` reads back every integer JavaScript renders. */
  lemma ParseIntRendered(i: int)
    ensures ParseIntDecimal(IntToString(i)) == Some(i)
  {
    var n: nat := if i < 0 then -i else i;
    var ds := NatToString(n);
    var sign := if i < 0 then "-" else "";
    assert IntToString(i) == sign + ds;
    NatToStringValue(n);
    ParseIntSignedDigits(sign, ds);
  }

  /** An optional minus sign and then only digits read as their value, with that sign. */
  lemma ParseIntSignedDigits(sign: string, ds: string)
    requires sign == "" || sign == "-"
    requires ds != [] && AllDigits(ds)
    ensures ParseIntDecimal(sign + ds) == Some(if sign == "-" then -(DigitsValue(ds) as int) else DigitsValue(ds))
  {
    if sign == "-" {
      assert sign + ds == ['-'] + ds;
      ParseIntNegativeDigits(ds);
    } else {
      assert sign + ds == ds;
      ParseIntDigits(ds);
    }
  }

  /** Only digits read as their value. */
  lemma ParseIntDigits(ds: string)
    requires ds != [] && AllDigits(ds)
    ensures ParseIntDecimal(ds) == Some(DigitsValue(ds) as int)
  {
    assert TrimStart(ds) == ds;
    assert AfterSign(ds) == ds;
    DigitRunWhole(ds);
    assert ds[..|ds|] == ds;
    ParseIntUnsigned(ds, |ds|);
  }

  /** Text that starts with its `k` leading digits reads as their value. */
  lemma ParseIntUnsigned(u: string, k: nat)
    requires TrimStart(u) == u && AfterSign(u) == u && 0 < k == DigitRun(u)
    ensures ParseIntDecimal(u) == Some(DigitsValue(u[..k]) as int)
  {
  }

  /** A minus sign and then only digits read as the negated value. */
  lemma ParseIntNegativeDigits(ds: string)
    requires ds != [] && AllDigits(ds)
    ensures ParseIntDecimal(['-'] + ds) == Some(-(DigitsValue(ds) as int))
  {
    var s := ['-'] + ds;
    assert TrimStart(s) == s;
    assert s[1..] == ds;
    DigitRunWhole(ds);
    assert ds[..|ds|] == ds;
  }

  /** A text made of digits is one run of digits. */
  lemma {:induction false} DigitRunWhole(ds: string)
    requires AllDigits(ds)
    ensures DigitRun(ds) == |ds|
  {
    if ds != [] {
      DigitRunWhole(ds[1..]);
    }
  }

  /** `start.padStart(width, fill)` with a one-character filler. */
  function PadStart(s: string, width: nat, fill: char): (r: string)
    ensures |r| == if |s| >= width then |s| else width
    ensures r[|r| - |s|..] == s
    ensures forall k :: 0 <= k < |r| - |s| ==> r[k] == fill
  {
    if |s| >= width then s else seq(width - |s|, _ => fill) + s
  }

  /** Padding digits with zeros keeps them digits and keeps their value. */
  lemma PadStartZerosValue(s: string, width: nat)
    requires AllDigits(s)
    ensures AllDigits(PadStart(s, width, '0'))
    ensures DigitsValue(PadStart(s, width, '0')) == DigitsValue(s)
  {
    var r := PadStart(s, width, '0');
    var z := r[..|r| - |s|];
    assert r == z + s;
    LeadingZerosValue(z, s);
  }

  // ---------------------------------------------------------------- lists of strings

  /** `parts.join(sep)`. */
  function Join(parts: seq<string>, sep: string): string
  {
    if |parts| == 0 then ""
    else if |parts| == 1 then parts[0]
    else parts[0] + sep + Join(parts[1..], sep)
  }

  /** `s.split(sep)` for a one-character separator: never empty. */
  function Split(s: string, sep: char): (r: seq<string>)
    ensures |r| >= 1
  {
    if s == [] then [""]
    else
      var rest := Split(s[1..], sep);
      if s[0] == sep then [""] + rest else [[s[0]] + rest[0]] + rest[1..]
  }

  /** Splitting text that holds no separator gives the text back as the only part. */
  lemma {:induction false} SplitNone(t: string, sep: char)
    requires sep !in t
    ensures Split(t, sep) == [t]
  {
    if t != [] {
      assert sep !in t[1..];
      SplitNone(t[1..], sep);
      assert [t[0]] + t[1..] == t;
    }
  }

  /** A separator after a part free of separators ends exactly that part. */
  lemma {:induction false} SplitFirst(t: string, sep: char, rest: string)
    requires sep !in t
    ensures Split(t + [sep] + rest, sep) == [t] + Split(rest, sep)
  {
    var s := t + [sep] + rest;
    if t == [] {
      assert s == [sep] + rest;
      assert s[1..] == rest;
    } else {
      assert s[0] == t[0];
      assert s[1..] == t[1..] + [sep] + rest;
      assert sep !in t[1..];
      SplitFirst(t[1..], sep, rest);
      assert [t[0]] + t[1..] == t;
    }
  }

  /** `split` undoes `join` when no part contains the separator (and there is a part). */
  lemma {:induction false} SplitJoin(parts: seq<string>, sep: char)
    requires |parts| >= 1
    requires forall i :: 0 <= i < |parts| ==> sep !in parts[i]
    ensures Split(Join(parts, [sep]), sep) == parts
  {
    if |parts| == 1 {
      SplitNone(parts[0], sep);
    } else {
      SplitJoin(parts[1..], sep);
      SplitFirst(parts[0], sep, Join(parts[1..], [sep]));
      assert [parts[0]] + parts[1..] == parts;
    }
  }

  // ---------------------------------------------------------------- defaults

  /** `value || fallback` for an optional string: `undefined`, `null` and `""` all fall back. */
  function OrElse(value: Option<string>, fallback: string): (r: string)
    ensures value.Some? && value.value != "" ==> r == value.value
    ensures value.None? || value.value == "" ==> r == fallback
  {
    if value.Some? && value.value != "" then value.value else fallback
  }
}
