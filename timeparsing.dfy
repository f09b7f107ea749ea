/** parse_schedule_time (main.py:215-236) and the part of CPython's datetime.strptime it relies on.

    strptime turns each directive into a regular expression and matches it at the start of the
    string: %H is `2[0-3]|[0-1]\d|\d`, %M is `[0-5]\d|\d`, %S is `6[0-1]|[0-5]\d|\d` and %f is
    `[0-9]{1,6}`. The first match the backtracking regex engine finds is kept; if it does not reach
    the end of the string strptime raises ValueError ("unconverted data remains"); otherwise the
    fields go to the time constructor, which raises ValueError for seconds 60 and 61. */
module TimeParsing {
  import opened Wrappers
  import opened Text
  import opened Clock

  /** The formats of main.py:227, tried in this order. */
  datatype Format = HourMinuteSecondFraction | HourMinuteSecond | HourMinute

  const Formats: seq<Format> := [HourMinuteSecondFraction, HourMinuteSecond, HourMinute]

  datatype Directive = Hour | Minute | Second | Fraction

  datatype Item = Field(d: Directive) | Lit(c: char)

  /** "%H:%M:%S.%f", "%H:%M:%S" and "%H:%M" as sequences of directives and literal characters. */
  function Pattern(f: Format): seq<Item> {
    match f
    case HourMinuteSecondFraction =>
      [Field(Hour), Lit(':'), Field(Minute), Lit(':'), Field(Second), Lit('.'), Field(Fraction)]
    case HourMinuteSecond => [Field(Hour), Lit(':'), Field(Minute), Lit(':'), Field(Second)]
    case HourMinute => [Field(Hour), Lit(':'), Field(Minute)]
  }

  /** A way a directive's regex can match at a position: the field's value and where it stops. */
  datatype Capture = Capture(value: nat, end: nat)

  /** The alternative `[lo0-hi0][lo1-hi1]` at position i. */
  function TwoDigits(s: string, i: nat, lo0: char, hi0: char, lo1: char, hi1: char): seq<Capture> {
    if i + 2 <= |s| && IsDigit(s[i]) && IsDigit(s[i + 1]) && lo0 <= s[i] <= hi0 && lo1 <= s[i + 1] <= hi1
    then [Capture(10 * DigitValue(s[i]) + DigitValue(s[i + 1]), i + 2)]
    else []
  }

  /** The alternative `\d` at position i. */
  function OneDigit(s: string, i: nat): seq<Capture> {
    if i < |s| && IsDigit(s[i]) then [Capture(DigitValue(s[i]), i + 1)] else []
  }

  /** How many ASCII digits follow position i. */
  function DigitRun(s: string, i: nat): (n: nat)
    requires i <= |s|
    ensures i + n <= |s|
    ensures forall k :: i <= k < i + n ==> IsDigit(s[k])
    ensures i + n < |s| ==> !IsDigit(s[i + n])
    decreases |s| - i
  {
    if i < |s| && IsDigit(s[i]) then 1 + DigitRun(s, i + 1) else 0
  }

  /** The microseconds that %f reads: the digits right-padded with zeros to six places. */
  function Microseconds(x: string): (us: nat)
    requires AllDigits(x) && |x| <= 6
    ensures us < 1000000
  {
    AllDigitsAppend(x, Zeros(6 - |x|));
    DigitsValueBound(x + Zeros(6 - |x|));
    DigitsValue(x + Zeros(6 - |x|))
  }

  /** `[0-9]{1,6}` is greedy: it tries n digits first, then n - 1, down to one; the digits are
      right-padded with zeros to six places, so they count microseconds. */
  function FractionCaptures(s: string, i: nat, n: nat): seq<Capture>
    requires n <= 6 && i + n <= |s|
    requires forall k :: i <= k < i + n ==> IsDigit(s[k])
  {
    if n == 0 then []
    else [Capture(Microseconds(s[i..i + n]), i + n)] + FractionCaptures(s, i, n - 1)
  }

  function Min(a: nat, b: nat): nat {
    if a <= b then a else b
  }

  /** Every way the directive's regex matches at position i, in the order the engine tries them. */
  function Captures(d: Directive, s: string, i: nat): seq<Capture>
    requires i <= |s|
  {
    match d
    case Hour => TwoDigits(s, i, '2', '2', '0', '3') + TwoDigits(s, i, '0', '1', '0', '9') + OneDigit(s, i)
    case Minute => TwoDigits(s, i, '0', '5', '0', '9') + OneDigit(s, i)
    case Second => TwoDigits(s, i, '6', '6', '0', '1') + TwoDigits(s, i, '0', '5', '0', '9') + OneDigit(s, i)
    case Fraction => FractionCaptures(s, i, Min(6, DigitRun(s, i)))
  }

  /** The captured fields and the position where the match stopped. */
  datatype Match = Match(values: seq<nat>, end: nat)

  predicate EndsWithin(cs: seq<Capture>, s: string) {
    forall k :: 0 <= k < |cs| ==> cs[k].end <= |s|
  }

  /** The first match of the pattern at position i, found by backtracking as `re.match` does. */
  function MatchItems(items: seq<Item>, s: string, i: nat): Option<Match>
    requires i <= |s|
    decreases |items|, 1, 0
  {
    if items == [] then Some(Match([], i))
    else
      match items[0]
      case Lit(c) => if i < |s| && s[i] == c then MatchItems(items[1..], s, i + 1) else None
      case Field(d) =>
        CapturesWithin(d, s, i);
        TryCaptures(Captures(d, s, i), items[1..], s)
  }

  /** Tries the captures in order; the first one after which the rest of the pattern matches wins. */
  function TryCaptures(cs: seq<Capture>, rest: seq<Item>, s: string): Option<Match>
    requires EndsWithin(cs, s)
    decreases |rest| + 1, 0, |cs|
  {
    if cs == [] then None
    else
      match MatchItems(rest, s, cs[0].end)
      case Some(m) => Some(Match([cs[0].value] + m.values, m.end))
      case None => TryCaptures(cs[1..], rest, s)
  }

  /** The match's fields when it covers the whole string, and nothing otherwise. */
  function FullMatch(items: seq<Item>, s: string, i: nat): Option<seq<nat>>
    requires i <= |s|
  {
    match MatchItems(items, s, i)
    case None => None
    case Some(m) => if m.end == |s| then Some(m.values) else None
  }

  /** `time(hour, minute, second, microsecond)`, absent fields being 0; None where it raises. */
  function TimeFromFields(vs: seq<nat>): Option<Time> {
    if |vs| < 2 then None
    else
      var t := TimeOfDay(vs[0], vs[1], if |vs| > 2 then vs[2] else 0, if |vs| > 3 then vs[3] else 0);
      if ValidTime(t) then Some(t) else None
  }

  /** `datetime.strptime(s, fmt).time()`, with None standing for the ValueError. */
  function StrpTime(f: Format, s: string): Option<Time> {
    match FullMatch(Pattern(f), s, 0)
    case None => None
    case Some(vs) => TimeFromFields(vs)
  }

  /** The loop of main.py:228-232: the first format that parses wins. */
  function FirstParse(fs: seq<Format>, s: string): Option<Time> {
    if fs == [] then None
    else
      match StrpTime(fs[0], s)
      case Some(t) => Some(t)
      case None => FirstParse(fs[1..], s)
  }

  /** What the schedule editor hands to parse_schedule_time: a time, a string, or anything else. */
  datatype TimeInput = TimeValue(t: Time) | TimeString(s: string) | OtherValue

  /** The returned time (None for Python's None) and whether st.warning was shown. */
  datatype ParsedTime = ParsedTime(time: Option<Time>, warned: bool)

  /** main.py:215-236. A warning is shown exactly when a string fails every format. */
  function ParseScheduleTime(v: TimeInput): (r: ParsedTime)
    ensures r.warned <==> v.TimeString? && r.time.None?
    ensures v.TimeString? ==> r.time == FirstParse(Formats, v.s)
    ensures v.TimeValue? ==> r.time == Some(v.t)
    ensures v.OtherValue? ==> r.time == None
  {
    match v
    case TimeValue(t) => ParsedTime(Some(t), false)
    case OtherValue => ParsedTime(None, false)
    case TimeString(s) =>
      match FirstParse(Formats, s)
      case Some(t) => ParsedTime(Some(t), false)
      case None => ParsedTime(None, true)
  }

  // ----- the regex captures, declaratively -----

  /** The most digits a directive takes, the largest value its regex admits, and what it yields. */
  function Width(d: Directive): nat {
    if d == Fraction then 6 else 2
  }

  predicate Admits(d: Directive, v: nat) {
    match d
    case Hour => v <= 23
    case Minute => v <= 59
    case Second => v <= 61
    case Fraction => true
  }

  function FieldValue(d: Directive, x: string): nat
    requires AllDigits(x) && |x| <= 6
  {
    if d == Fraction then Microseconds(x) else DigitsValue(x)
  }

  /** Captures that stop after position i and at most at r, each earlier one stopping later. */
  predicate WellShaped(cs: seq<Capture>, i: nat, r: nat) {
    && (forall k :: 0 <= k < |cs| ==> i < cs[k].end <= r)
    && (forall k, l :: 0 <= k < l < |cs| ==> cs[k].end > cs[l].end)
  }

  lemma WellShapedRest(cs: seq<Capture>, i: nat, r: nat)
    requires cs != [] && WellShaped(cs, i, r)
    ensures WellShaped(cs[1..], i, r)
  {
    forall k, l | 0 <= k < l < |cs| - 1 ensures cs[1..][k].end > cs[1..][l].end {
      assert cs[1..][k] == cs[k + 1] && cs[1..][l] == cs[l + 1];
    }
  }

  lemma FractionCapturesShape(s: string, i: nat, n: nat)
    requires n <= 6 && i + n <= |s|
    requires forall k :: i <= k < i + n ==> IsDigit(s[k])
    ensures var cs := FractionCaptures(s, i, n);
      && |cs| == n
      && forall k :: 0 <= k < n ==>
           (cs[k].end == i + n - k && cs[k].value == FieldValue(Fraction, s[i..i + n - k]))
  {
  }

  lemma DigitRunAtLeast(s: string, i: nat)
    requires i <= |s|
    ensures i < |s| && IsDigit(s[i]) ==> DigitRun(s, i) >= 1
    ensures i + 1 < |s| && IsDigit(s[i]) && IsDigit(s[i + 1]) ==> DigitRun(s, i) >= 2
  {
  }

  /** At most one two-digit alternative, then the one-digit alternative. */
  lemma ShortCapturesShape(two: seq<Capture>, s: string, i: nat)
    requires i <= |s|
    requires two == [] || (|two| == 1 && two[0].end == i + 2 && i + 1 < |s| && IsDigit(s[i]) && IsDigit(s[i + 1]))
    ensures WellShaped(two + OneDigit(s, i), i, i + DigitRun(s, i))
  {
    DigitRunAtLeast(s, i);
  }

  /** %H and %S: the two two-digit alternatives exclude each other by their first digit. */
  lemma TwoAlternativesShape(d: Directive, s: string, i: nat)
    requires i <= |s| && (d == Hour || d == Second)
    ensures WellShaped(Captures(d, s, i), i, i + DigitRun(s, i))
  {
    var a, b := if d == Hour then TwoDigits(s, i, '2', '2', '0', '3') else TwoDigits(s, i, '6', '6', '0', '1'),
                if d == Hour then TwoDigits(s, i, '0', '1', '0', '9') else TwoDigits(s, i, '0', '5', '0', '9');
    assert Captures(d, s, i) == a + b + OneDigit(s, i);
    if a == [] {
      assert a + b == b;
      ShortCapturesShape(b, s, i);
    } else {
      assert b == [] && a + b == a;
      ShortCapturesShape(a, s, i);
    }
  }

  /** Every capture stops inside the run of digits at i, and later alternatives stop earlier. */
  lemma CapturesShape(d: Directive, s: string, i: nat)
    requires i <= |s|
    ensures WellShaped(Captures(d, s, i), i, i + DigitRun(s, i))
  {
    match d
    case Hour => TwoAlternativesShape(d, s, i);
    case Second => TwoAlternativesShape(d, s, i);
    case Minute => ShortCapturesShape(TwoDigits(s, i, '0', '5', '0', '9'), s, i);
    case Fraction => FractionCapturesShape(s, i, Min(6, DigitRun(s, i)));
  }

  lemma CapturesWithin(d: Directive, s: string, i: nat)
    requires i <= |s|
    ensures EndsWithin(Captures(d, s, i), s)
  {
    CapturesShape(d, s, i);
  }

  lemma DigitRunAllDigits(s: string, i: nat)
    requires i <= |s|
    ensures AllDigits(s[i..i + DigitRun(s, i)])
  {
    var x := s[i..i + DigitRun(s, i)];
    forall k | 0 <= k < |x| ensures IsDigit(x[k]) {
      assert x[k] == s[i + k];
    }
  }

  /** A numeral read as one field: its value when the directive admits it (at most Width(d)
      digits, within range), none otherwise. */
  function ReadNumeral(d: Directive, x: string): Option<nat>
    requires AllDigits(x)
  {
    if 1 <= |x| <= Width(d) && Admits(d, DigitsValue(x)) then Some(FieldValue(d, x)) else None
  }

  /** The whole run of digits at i read as one field. */
  function ReadField(d: Directive, s: string, i: nat): Option<nat>
    requires i <= |s|
  {
    DigitRunAllDigits(s, i);
    ReadNumeral(d, s[i..i + DigitRun(s, i)])
  }

  /** The value of the first capture, when it stops exactly where the digits stop: the only
      capture a non-digit after the field lets the whole match go on with. */
  function FirstCapture(d: Directive, s: string, i: nat): Option<nat>
    requires i <= |s|
  {
    var cs := Captures(d, s, i);
    if cs != [] && cs[0].end == i + DigitRun(s, i) then Some(cs[0].value) else None
  }

  /** A capture covers the whole run of digits exactly when the run is a numeral the regex admits. */
  lemma FirstCaptureReadsField(d: Directive, s: string, i: nat)
    requires i <= |s|
    ensures FirstCapture(d, s, i) == ReadField(d, s, i)
  {
    var n := DigitRun(s, i);
    if d == Fraction {
      FractionFirstCapture(s, i);
    } else if n == 0 {
      ReadNoDigit(d, s, i);
    } else if n == 1 {
      ReadOneDigit(d, s, i);
    } else if n == 2 {
      ReadTwoDigits(d, s, i);
    } else {
      ReadLongRun(d, s, i);
    }
  }

  lemma FractionFirstCapture(s: string, i: nat)
    requires i <= |s|
    ensures FirstCapture(Fraction, s, i) == ReadField(Fraction, s, i)
  {
    var n := DigitRun(s, i);
    FractionCapturesShape(s, i, Min(6, n));
    var cs := Captures(Fraction, s, i);
    assert cs == FractionCaptures(s, i, Min(6, n));
    assert ReadField(Fraction, s, i) == ReadNumeral(Fraction, s[i..i + n]);
    if 1 <= n <= 6 {
      assert cs[0].end == i + n && cs[0].value == FieldValue(Fraction, s[i..i + n]);
    }
  }

  lemma ReadNoDigit(d: Directive, s: string, i: nat)
    requires i <= |s| && d != Fraction && DigitRun(s, i) == 0
    ensures FirstCapture(d, s, i) == ReadField(d, s, i) == None
  {
    assert Captures(d, s, i) == [];
    assert ReadField(d, s, i) == ReadNumeral(d, s[i..i]);
  }

  lemma ReadOneDigit(d: Directive, s: string, i: nat)
    requires i <= |s| && d != Fraction && DigitRun(s, i) == 1
    ensures FirstCapture(d, s, i) == ReadField(d, s, i) == Some(DigitValue(s[i]))
  {
    OneDigitCapture(d, s, i);
    OneDigitField(d, s, i);
  }

  lemma OneDigitCapture(d: Directive, s: string, i: nat)
    requires i <= |s| && d != Fraction && DigitRun(s, i) == 1
    ensures IsDigit(s[i]) && FirstCapture(d, s, i) == Some(DigitValue(s[i]))
  {
    assert IsDigit(s[i]);
    assert i + 1 < |s| ==> !IsDigit(s[i + 1]);
    OnlyOneDigit(d, s, i);
  }

  lemma OneDigitField(d: Directive, s: string, i: nat)
    requires i < |s| && IsDigit(s[i]) && d != Fraction && DigitRun(s, i) == 1
    ensures ReadField(d, s, i) == Some(DigitValue(s[i]))
  {
    DigitsValueOfOne(s[i]);
    assert s[i..i + 1] == [s[i]];
    assert ReadField(d, s, i) == ReadNumeral(d, [s[i]]);
  }

  /** Without a second digit no two-digit alternative matches. */
  lemma OnlyOneDigit(d: Directive, s: string, i: nat)
    requires i < |s| && d != Fraction && !(i + 1 < |s| && IsDigit(s[i + 1]))
    ensures Captures(d, s, i) == OneDigit(s, i)
  {
    match d
    case Hour =>
      assert TwoDigits(s, i, '2', '2', '0', '3') == [] && TwoDigits(s, i, '0', '1', '0', '9') == [];
    case Minute =>
      assert TwoDigits(s, i, '0', '5', '0', '9') == [];
    case Second =>
      assert TwoDigits(s, i, '6', '6', '0', '1') == [] && TwoDigits(s, i, '0', '5', '0', '9') == [];
  }

  lemma ReadTwoDigits(d: Directive, s: string, i: nat)
    requires i <= |s| && d != Fraction && DigitRun(s, i) == 2
    ensures var v := 10 * DigitValue(s[i]) + DigitValue(s[i + 1]);
      FirstCapture(d, s, i) == ReadField(d, s, i) == if Admits(d, v) then Some(v) else None
  {
    assert IsDigit(s[i]) && IsDigit(s[i + 1]);
    var x := s[i..i + 2];
    assert x[..1] == [s[i]] && x[..1][..0] == [];
    assert DigitsValue(x[..1]) == DigitValue(s[i]);
    assert ReadField(d, s, i) == ReadNumeral(d, x);
  }

  lemma ReadLongRun(d: Directive, s: string, i: nat)
    requires i <= |s| && d != Fraction && DigitRun(s, i) > 2
    ensures FirstCapture(d, s, i) == ReadField(d, s, i) == None
  {
    var cs := Captures(d, s, i);
    assert forall k :: 0 <= k < |cs| ==> cs[k].end <= i + 2;
    assert ReadField(d, s, i) == ReadNumeral(d, s[i..i + DigitRun(s, i)]);
  }

  // ----- the first match, read deterministically -----

  /** The pattern read without backtracking: each field takes the whole run of digits before it. */
  function Scan(items: seq<Item>, s: string, i: nat): Option<seq<nat>>
    requires i <= |s|
    decreases |items|
  {
    if items == [] then (if i == |s| then Some([]) else None)
    else
      match items[0]
      case Lit(c) => if i < |s| && s[i] == c then Scan(items[1..], s, i + 1) else None
      case Field(d) =>
        match ReadField(d, s, i)
        case None => None
        case Some(v) =>
          match Scan(items[1..], s, i + DigitRun(s, i))
          case None => None
          case Some(vs) => Some([v] + vs)
  }

  /** Every field but the last is followed by a literal that is not a digit. */
  predicate Separated(items: seq<Item>) {
    forall k :: 0 <= k < |items| - 1 && items[k].Field? ==> items[k + 1].Lit? && !IsDigit(items[k + 1].c)
  }

  lemma SeparatedRest(items: seq<Item>)
    requires items != [] && Separated(items)
    ensures Separated(items[1..])
  {
    forall k | 0 <= k < |items[1..]| - 1 && items[1..][k].Field?
      ensures items[1..][k + 1].Lit? && !IsDigit(items[1..][k + 1].c)
    {
      assert items[1..][k] == items[k + 1] && items[1..][k + 1] == items[k + 2];
    }
  }

  function PrependValue(v: nat, m: Option<Match>): Option<Match> {
    match m
    case None => None
    case Some(m) => Some(Match([v] + m.values, m.end))
  }

  /** Before a non-digit literal only the capture that takes the whole run of digits can succeed. */
  lemma {:induction false} TryCapturesBeforeLiteral(cs: seq<Capture>, rest: seq<Item>, s: string, i: nat, r: nat)
    requires rest != [] && rest[0].Lit? && !IsDigit(rest[0].c)
    requires i <= r <= |s| && forall k :: i <= k < r ==> IsDigit(s[k])
    requires WellShaped(cs, i, r)
    ensures EndsWithin(cs, s)
    ensures TryCaptures(cs, rest, s)
         == if cs != [] && cs[0].end == r then PrependValue(cs[0].value, MatchItems(rest, s, r)) else None
  {
    if cs != [] {
      WellShapedRest(cs, i, r);
      TryCapturesBeforeLiteral(cs[1..], rest, s, i, r);
      if cs[0].end < r {
        assert IsDigit(s[cs[0].end]);
        assert MatchItems(rest, s, cs[0].end) == None;
      }
    }
  }

  function PrependValues(v: nat, o: Option<seq<nat>>): Option<seq<nat>> {
    match o
    case None => None
    case Some(vs) => Some([v] + vs)
  }

  /** A field at the end of the pattern matches the whole rest exactly when its first capture
      covers it. */
  lemma LastFieldFullMatch(d: Directive, s: string, i: nat)
    requires i <= |s|
    ensures FullMatch([Field(d)], s, i)
         == match FirstCapture(d, s, i)
            case None => None
            case Some(v) => if i + DigitRun(s, i) == |s| then Some([v]) else None
  {
    var cs := Captures(d, s, i);
    var r := i + DigitRun(s, i);
    CapturesShape(d, s, i);
    var items := [Field(d)];
    assert items[1..] == [];
    if cs != [] {
      assert MatchItems([], s, cs[0].end) == Some(Match([], cs[0].end));
      assert TryCaptures(cs, [], s) == Some(Match([cs[0].value] + [], cs[0].end));
      assert MatchItems(items, s, i) == TryCaptures(cs, items[1..], s);
      assert [cs[0].value] + [] == [cs[0].value];
      assert cs[0].end == |s| ==> r == |s|;
    } else {
      assert MatchItems(items, s, i) == TryCaptures(cs, items[1..], s) == None;
    }
  }

  /** A field followed by a non-digit literal contributes the value of the whole run of digits. */
  lemma FieldBeforeLiteral(d: Directive, rest: seq<Item>, s: string, i: nat)
    requires i <= |s| && rest != [] && rest[0].Lit? && !IsDigit(rest[0].c)
    ensures FullMatch([Field(d)] + rest, s, i)
         == match FirstCapture(d, s, i)
            case None => None
            case Some(v) => PrependValues(v, FullMatch(rest, s, i + DigitRun(s, i)))
  {
    var cs := Captures(d, s, i);
    var r := i + DigitRun(s, i);
    CapturesShape(d, s, i);
    assert ([Field(d)] + rest)[1..] == rest;
    TryCapturesBeforeLiteral(cs, rest, s, i, r);
  }

  /** A field's value in front of what the rest of the pattern gives. */
  function AfterField(field: Option<nat>, rest: Option<seq<nat>>): Option<seq<nat>> {
    if field.None? then None else PrependValues(field.value, rest)
  }

  /** A literal first: both readings consume it or both fail. */
  lemma LiteralStep(items: seq<Item>, s: string, i: nat)
    requires i <= |s| && items != [] && items[0].Lit?
    ensures var ok := i < |s| && s[i] == items[0].c;
      && FullMatch(items, s, i) == (if ok then FullMatch(items[1..], s, i + 1) else None)
      && Scan(items, s, i) == (if ok then Scan(items[1..], s, i + 1) else None)
  {
  }

  /** A field as the whole pattern: both readings take the digits to the end of the string. */
  lemma LastFieldIsScan(d: Directive, s: string, i: nat)
    requires i <= |s|
    ensures FullMatch([Field(d)], s, i) == Scan([Field(d)], s, i)
  {
    LastFieldFullMatch(d, s, i);
    FirstCaptureReadsField(d, s, i);
    assert [Field(d)][1..] == [];
    if ReadField(d, s, i).Some? {
      assert Scan([], s, i + DigitRun(s, i)) == if i + DigitRun(s, i) == |s| then Some([]) else None;
      assert [ReadField(d, s, i).value] + [] == [ReadField(d, s, i).value];
    }
  }

  /** A field before a non-digit literal: both readings take the whole run of digits. */
  lemma FieldStep(items: seq<Item>, s: string, i: nat)
    requires i <= |s| && |items| > 1 && items[0].Field? && items[1].Lit? && !IsDigit(items[1].c)
    ensures var r := i + DigitRun(s, i);
      && FullMatch(items, s, i) == AfterField(ReadField(items[0].d, s, i), FullMatch(items[1..], s, r))
      && Scan(items, s, i) == AfterField(ReadField(items[0].d, s, i), Scan(items[1..], s, r))
  {
    assert items == [Field(items[0].d)] + items[1..];
    FieldBeforeLiteral(items[0].d, items[1..], s, i);
    FirstCaptureReadsField(items[0].d, s, i);
  }

  /** With its fields separated by non-digits, the backtracking match that covers the whole
      string is the deterministic reading. */
  lemma {:induction false} FullMatchIsScan(items: seq<Item>, s: string, i: nat)
    requires i <= |s| && Separated(items)
    ensures FullMatch(items, s, i) == Scan(items, s, i)
    decreases |items|
  {
    if items != [] {
      SeparatedRest(items);
      if items[0].Lit? {
        LiteralStep(items, s, i);
        if i < |s| {
          FullMatchIsScan(items[1..], s, i + 1);
        }
      } else if |items| == 1 {
        assert items == [Field(items[0].d)];
        LastFieldIsScan(items[0].d, s, i);
      } else {
        FieldStep(items, s, i);
        FullMatchIsScan(items[1..], s, i + DigitRun(s, i));
      }
    }
  }

  lemma StrpTimeIsScan(f: Format, s: string)
    ensures StrpTime(f, s) == match Scan(Pattern(f), s, 0)
                              case None => None
                              case Some(vs) => TimeFromFields(vs)
  {
    FullMatchIsScan(Pattern(f), s, 0);
  }

  // ----- the three formats, declaratively -----

  /** One or two ASCII digits whose value is at most `max`: what %H (max 23) and %M (max 59)
      accept, and %S once the time constructor has rejected 60 and 61. */
  predicate Numeral(x: string, max: nat) {
    1 <= |x| <= 2 && AllDigits(x) && DigitsValue(x) <= max
  }

  /** One to six ASCII digits: what %f accepts. */
  predicate FractionNumeral(x: string) {
    1 <= |x| <= 6 && AllDigits(x)
  }


  ghost predicate IsHourMinuteText(s: string) {
    exists hs, ms :: Numeral(hs, 23) && Numeral(ms, 59) && s == hs + ":" + ms
  }

  ghost predicate IsHourMinuteSecondText(s: string) {
    exists hs, ms, ss :: Numeral(hs, 23) && Numeral(ms, 59) && Numeral(ss, 59) && s == hs + ":" + ms + ":" + ss
  }

  ghost predicate IsFractionText(s: string) {
    exists hs, ms, ss, fs :: Numeral(hs, 23) && Numeral(ms, 59) && Numeral(ss, 59) && FractionNumeral(fs)
                          && s == hs + ":" + ms + ":" + ss + "." + fs
  }

  /** The run of digits at i is exactly the numeral `x` when something other than a digit follows it. */
  lemma {:induction false} DigitRunOfNumeral(s: string, i: nat, x: string)
    requires i + |x| <= |s| && s[i..i + |x|] == x && AllDigits(x)
    requires i + |x| == |s| || !IsDigit(s[i + |x|])
    ensures DigitRun(s, i) == |x|
    decreases |x|
  {
    if x != [] {
      assert s[i + 1..i + 1 + |x[1..]|] == x[1..];
      DigitRunOfNumeral(s, i + 1, x[1..]);
    }
  }

  // Scan looks only at the text from its position on.

  lemma {:induction false} DigitRunSuffix(s: string, i: nat, k: nat)
    requires i + k <= |s|
    ensures DigitRun(s, i + k) == DigitRun(s[i..], k)
    decreases |s| - i - k
  {
    if i + k < |s| {
      assert s[i..][k] == s[i + k];
      DigitRunSuffix(s, i, k + 1);
    }
  }

  lemma ReadFieldSuffix(d: Directive, s: string, i: nat)
    requires i <= |s|
    ensures DigitRun(s, i) == DigitRun(s[i..], 0)
    ensures ReadField(d, s, i) == ReadField(d, s[i..], 0)
  {
    DigitRunSuffix(s, i, 0);
    var n := DigitRun(s, i);
    var t := s[i..];
    assert t[0..n] == s[i..i + n];
    assert ReadField(d, s, i) == ReadNumeral(d, s[i..i + n]);
    assert ReadField(d, t, 0) == ReadNumeral(d, t[0..n]);
  }

  lemma {:induction false} ScanSuffix(items: seq<Item>, s: string, i: nat)
    requires i <= |s|
    ensures Scan(items, s, i) == Scan(items, s[i..], 0)
    decreases |items|
  {
    if items != [] {
      var t := s[i..];
      match items[0]
      case Lit(c) =>
        if i < |s| {
          ScanSuffix(items[1..], s, i + 1);
          ScanSuffix(items[1..], t, 1);
          assert t[1..] == s[i + 1..];
        }
      case Field(d) =>
        ReadFieldSuffix(d, s, i);
        var n := DigitRun(s, i);
        ScanSuffix(items[1..], s, i + n);
        ScanSuffix(items[1..], t, n);
        assert t[n..] == s[i + n..];
    }
  }

  // Reading the formats piece by piece, on the text that remains.

  /** A numeral followed by a literal that is not a digit, forwards. */
  lemma ScanFieldThenLit(d: Directive, c: char, rest: seq<Item>, x: string, t: string)
    requires AllDigits(x) && 1 <= |x| <= Width(d) && Admits(d, DigitsValue(x)) && !IsDigit(c)
    ensures Scan([Field(d), Lit(c)] + rest, x + [c] + t, 0) == PrependValues(FieldValue(d, x), Scan(rest, t, 0))
  {
    var s := x + [c] + t;
    var items := [Field(d), Lit(c)] + rest;
    assert s[0..|x|] == x && s[|x|] == c && s[|x| + 1..] == t;
    DigitRunOfNumeral(s, 0, x);
    assert items[0] == Field(d) && items[1..][0] == Lit(c) && items[1..][1..] == rest;
    ScanSuffix(rest, s, |x| + 1);
  }

  /** A numeral followed by a literal that is not a digit, backwards: a successful scan splits the text. */
  lemma ScanFieldThenLitSplits(d: Directive, c: char, rest: seq<Item>, s: string) returns (x: string, t: string)
    requires Scan([Field(d), Lit(c)] + rest, s, 0).Some?
    ensures s == x + [c] + t
    ensures AllDigits(x) && 1 <= |x| <= Width(d) && Admits(d, DigitsValue(x)) && Scan(rest, t, 0).Some?
  {
    var items := [Field(d), Lit(c)] + rest;
    assert items[0] == Field(d) && items[1..][0] == Lit(c) && items[1..][1..] == rest;
    var n := DigitRun(s, 0);
    assert Scan(items[1..], s, n).Some?;
    x, t := s[..n], s[n + 1..];
    ScanSuffix(rest, s, n + 1);
    assert s == x + [c] + t;
  }

  /** The numeral that ends the text, forwards. */
  lemma ScanLastField(d: Directive, x: string)
    requires AllDigits(x) && 1 <= |x| <= Width(d) && Admits(d, DigitsValue(x))
    ensures Scan([Field(d)], x, 0) == Some([FieldValue(d, x)])
  {
    DigitRunOfNumeral(x, 0, x);
    assert x[0..|x|] == x;
    assert [Field(d)][1..] == [];
    assert [FieldValue(d, x)] + [] == [FieldValue(d, x)];
  }

  /** The numeral that ends the text, backwards. */
  lemma ScanLastFieldSplits(d: Directive, s: string)
    requires Scan([Field(d)], s, 0).Some?
    ensures AllDigits(s) && 1 <= |s| <= Width(d) && Admits(d, DigitsValue(s))
  {
    var n := DigitRun(s, 0);
    assert [Field(d)][1..] == [];
    assert n == |s|;
    assert s[0..n] == s;
  }

  function MinuteSecond(): seq<Item> {
    [Field(Minute), Lit(':')] + [Field(Second)]
  }

  function MinuteSecondFraction(): seq<Item> {
    [Field(Minute), Lit(':')] + ([Field(Second), Lit('.')] + [Field(Fraction)])
  }

  lemma PatternPieces()
    ensures Pattern(HourMinute) == [Field(Hour), Lit(':')] + [Field(Minute)]
    ensures Pattern(HourMinuteSecond) == [Field(Hour), Lit(':')] + MinuteSecond()
    ensures Pattern(HourMinuteSecondFraction) == [Field(Hour), Lit(':')] + MinuteSecondFraction()
  {
  }

  lemma PrependToOne(a: nat, b: nat)
    ensures [a] + [b] == [a, b]
  {
  }

  lemma PrependToTwo(a: nat, b: nat, c: nat)
    ensures [a] + [b, c] == [a, b, c]
  {
  }

  lemma PrependToThree(a: nat, b: nat, c: nat, d: nat)
    ensures [a] + [b, c, d] == [a, b, c, d]
  {
  }

  /** "H:M" with its pieces bracketed from the right. */
  lemma BracketHourMinute(hs: string, ms: string)
    ensures hs + ":" + ms == hs + [':'] + ms
  {
  }

  lemma BracketHourMinuteSecond(hs: string, ms: string, ss: string)
    ensures hs + ":" + ms + ":" + ss == hs + [':'] + (ms + [':'] + ss)
  {
  }

  lemma BracketFraction(hs: string, ms: string, ss: string, fs: string)
    ensures hs + ":" + ms + ":" + ss + "." + fs == hs + [':'] + (ms + [':'] + (ss + ['.'] + fs))
  {
  }

  /** "H:M" parses with %H:%M to H hours and M minutes. */
  lemma StrpTimeHourMinute(hs: string, ms: string)
    requires Numeral(hs, 23) && Numeral(ms, 59)
    ensures StrpTime(HourMinute, hs + ":" + ms) == Some(TimeOfDay(DigitsValue(hs), DigitsValue(ms), 0, 0))
  {
    BracketHourMinute(hs, ms);
    PatternPieces();
    StrpTimeIsScan(HourMinute, hs + ":" + ms);
    ScanFieldThenLit(Hour, ':', [Field(Minute)], hs, ms);
    ScanLastField(Minute, ms);
  }

  /** %H:%M accepts nothing but "H:M" numerals. */
  lemma StrpTimeHourMinuteOnly(s: string)
    requires StrpTime(HourMinute, s).Some?
    ensures IsHourMinuteText(s)
  {
    PatternPieces();
    StrpTimeIsScan(HourMinute, s);
    var hs, ms := ScanFieldThenLitSplits(Hour, ':', [Field(Minute)], s);
    ScanLastFieldSplits(Minute, ms);
    BracketHourMinute(hs, ms);
    assert Numeral(hs, 23) && Numeral(ms, 59);
  }

  lemma ScanHourMinuteSecond(hs: string, ms: string, ss: string)
    requires Numeral(hs, 23) && Numeral(ms, 59) && Numeral(ss, 61)
    ensures Scan(Pattern(HourMinuteSecond), hs + ":" + ms + ":" + ss, 0)
         == Some([DigitsValue(hs), DigitsValue(ms), DigitsValue(ss)])
  {
    BracketHourMinuteSecond(hs, ms, ss);
    PatternPieces();
    ScanFieldThenLit(Hour, ':', MinuteSecond(), hs, ms + [':'] + ss);
    ScanFieldThenLit(Minute, ':', [Field(Second)], ms, ss);
    ScanLastField(Second, ss);
    PrependToOne(DigitsValue(ms), DigitsValue(ss));
    PrependToTwo(DigitsValue(hs), DigitsValue(ms), DigitsValue(ss));
  }

  /** "H:M:S" parses with %H:%M:%S; the regex admits seconds 60 and 61 and the time constructor
      then rejects them. */
  lemma StrpTimeHourMinuteSecond(hs: string, ms: string, ss: string)
    requires Numeral(hs, 23) && Numeral(ms, 59) && Numeral(ss, 61)
    ensures StrpTime(HourMinuteSecond, hs + ":" + ms + ":" + ss)
         == if DigitsValue(ss) <= 59
            then Some(TimeOfDay(DigitsValue(hs), DigitsValue(ms), DigitsValue(ss), 0))
            else None
  {
    StrpTimeIsScan(HourMinuteSecond, hs + ":" + ms + ":" + ss);
    ScanHourMinuteSecond(hs, ms, ss);
  }

  /** %H:%M:%S accepts nothing but "H:M:S" numerals with at most 59 seconds. */
  lemma StrpTimeHourMinuteSecondOnly(s: string)
    requires StrpTime(HourMinuteSecond, s).Some?
    ensures IsHourMinuteSecondText(s)
  {
    PatternPieces();
    StrpTimeIsScan(HourMinuteSecond, s);
    var hs, t := ScanFieldThenLitSplits(Hour, ':', MinuteSecond(), s);
    var ms, ss := ScanFieldThenLitSplits(Minute, ':', [Field(Second)], t);
    ScanLastFieldSplits(Second, ss);
    BracketHourMinuteSecond(hs, ms, ss);
    ScanHourMinuteSecond(hs, ms, ss);
    assert Numeral(hs, 23) && Numeral(ms, 59) && Numeral(ss, 59);
  }

  lemma ScanSecondFraction(ss: string, fs: string)
    requires Numeral(ss, 61) && FractionNumeral(fs)
    ensures Scan([Field(Second), Lit('.')] + [Field(Fraction)], ss + ['.'] + fs, 0)
         == Some([DigitsValue(ss), Microseconds(fs)])
  {
    ScanFieldThenLit(Second, '.', [Field(Fraction)], ss, fs);
    ScanLastField(Fraction, fs);
    PrependToOne(DigitsValue(ss), Microseconds(fs));
  }

  lemma ScanMinuteSecondFraction(ms: string, ss: string, fs: string)
    requires Numeral(ms, 59) && Numeral(ss, 61) && FractionNumeral(fs)
    ensures Scan(MinuteSecondFraction(), ms + [':'] + (ss + ['.'] + fs), 0)
         == Some([DigitsValue(ms), DigitsValue(ss), Microseconds(fs)])
  {
    ScanFieldThenLit(Minute, ':', [Field(Second), Lit('.')] + [Field(Fraction)], ms, ss + ['.'] + fs);
    ScanSecondFraction(ss, fs);
    PrependToTwo(DigitsValue(ms), DigitsValue(ss), Microseconds(fs));
  }

  lemma ScanFraction(hs: string, ms: string, ss: string, fs: string)
    requires Numeral(hs, 23) && Numeral(ms, 59) && Numeral(ss, 61) && FractionNumeral(fs)
    ensures Scan(Pattern(HourMinuteSecondFraction), hs + ":" + ms + ":" + ss + "." + fs, 0)
         == Some([DigitsValue(hs), DigitsValue(ms), DigitsValue(ss), Microseconds(fs)])
  {
    BracketFraction(hs, ms, ss, fs);
    PatternPieces();
    ScanFieldThenLit(Hour, ':', MinuteSecondFraction(), hs, ms + [':'] + (ss + ['.'] + fs));
    ScanMinuteSecondFraction(ms, ss, fs);
    PrependToThree(DigitsValue(hs), DigitsValue(ms), DigitsValue(ss), Microseconds(fs));
  }

  /** "H:M:S.F" parses with %H:%M:%S.%f, F being microseconds right-padded to six digits. */
  lemma StrpTimeFraction(hs: string, ms: string, ss: string, fs: string)
    requires Numeral(hs, 23) && Numeral(ms, 59) && Numeral(ss, 61) && FractionNumeral(fs)
    ensures StrpTime(HourMinuteSecondFraction, hs + ":" + ms + ":" + ss + "." + fs)
         == if DigitsValue(ss) <= 59
            then Some(TimeOfDay(DigitsValue(hs), DigitsValue(ms), DigitsValue(ss), Microseconds(fs)))
            else None
  {
    StrpTimeIsScan(HourMinuteSecondFraction, hs + ":" + ms + ":" + ss + "." + fs);
    ScanFraction(hs, ms, ss, fs);
  }

  /** %H:%M:%S.%f accepts nothing but "H:M:S.F" numerals with at most 59 seconds. */
  lemma StrpTimeFractionOnly(s: string)
    requires StrpTime(HourMinuteSecondFraction, s).Some?
    ensures IsFractionText(s)
  {
    PatternPieces();
    StrpTimeIsScan(HourMinuteSecondFraction, s);
    var hs, t := ScanFieldThenLitSplits(Hour, ':', MinuteSecondFraction(), s);
    var ms, u := ScanFieldThenLitSplits(Minute, ':', [Field(Second), Lit('.')] + [Field(Fraction)], t);
    var ss, fs := ScanFieldThenLitSplits(Second, '.', [Field(Fraction)], u);
    ScanLastFieldSplits(Fraction, fs);
    BracketFraction(hs, ms, ss, fs);
    ScanFraction(hs, ms, ss, fs);
    assert Numeral(hs, 23) && Numeral(ms, 59) && Numeral(ss, 59) && FractionNumeral(fs);
  }



  // ----- parse_schedule_time on strings -----

  lemma OccurrencesAround(a: string, sep: string, b: string, c: char)
    ensures Occurrences(a + sep + b, c) == Occurrences(a, c) + Occurrences(sep, c) + Occurrences(b, c)
  {
    OccurrencesAppend(a, sep, c);
    OccurrencesAppend(a + sep, b, c);
  }

  lemma HourMinuteCounts(hs: string, ms: string)
    requires AllDigits(hs) && AllDigits(ms)
    ensures Occurrences(hs + ":" + ms, ':') == 1 && Occurrences(hs + ":" + ms, '.') == 0
  {
    OccurrencesAround(hs, ":", ms, ':');
    OccurrencesAround(hs, ":", ms, '.');
    NoOccurrencesInDigits(hs, ':');
    NoOccurrencesInDigits(ms, ':');
    NoOccurrencesInDigits(hs, '.');
    NoOccurrencesInDigits(ms, '.');
  }

  /** Appending a separator and digits to a text adds that separator once. */
  lemma SeparatorThenDigits(w: string, sep: char, x: string)
    requires AllDigits(x) && (sep == ':' || sep == '.')
    ensures Occurrences(w + [sep] + x, ':') == Occurrences(w, ':') + (if sep == ':' then 1 else 0)
    ensures Occurrences(w + [sep] + x, '.') == Occurrences(w, '.') + (if sep == '.' then 1 else 0)
  {
    OccurrencesAround(w, [sep], x, ':');
    OccurrencesAround(w, [sep], x, '.');
    NoOccurrencesInDigits(x, ':');
    NoOccurrencesInDigits(x, '.');
    assert [sep][1..] == [];
  }

  lemma HourMinuteTextCounts(s: string)
    requires IsHourMinuteText(s)
    ensures Occurrences(s, ':') == 1 && Occurrences(s, '.') == 0
  {
    var hs, ms :| Numeral(hs, 23) && Numeral(ms, 59) && s == hs + ":" + ms;
    HourMinuteCounts(hs, ms);
  }

  lemma HourMinuteSecondTextCounts(s: string)
    requires IsHourMinuteSecondText(s)
    ensures Occurrences(s, ':') == 2 && Occurrences(s, '.') == 0
  {
    var hs, ms, ss :| Numeral(hs, 23) && Numeral(ms, 59) && Numeral(ss, 59) && s == hs + ":" + ms + ":" + ss;
    HourMinuteCounts(hs, ms);
    SeparatorThenDigits(hs + ":" + ms, ':', ss);
  }

  lemma FractionTextCounts(s: string)
    requires IsFractionText(s)
    ensures Occurrences(s, ':') == 2 && Occurrences(s, '.') == 1
  {
    var hs, ms, ss, fs :| Numeral(hs, 23) && Numeral(ms, 59) && Numeral(ss, 59) && FractionNumeral(fs)
                       && s == hs + ":" + ms + ":" + ss + "." + fs;
    HourMinuteCounts(hs, ms);
    SeparatorThenDigits(hs + ":" + ms, ':', ss);
    SeparatorThenDigits(hs + ":" + ms + ":" + ss, '.', fs);
  }

  /** Each format accepts exactly its own shape of text. */
  lemma StrpTimeAccepts(s: string)
    ensures StrpTime(HourMinuteSecondFraction, s).Some? <==> IsFractionText(s)
    ensures StrpTime(HourMinuteSecond, s).Some? <==> IsHourMinuteSecondText(s)
    ensures StrpTime(HourMinute, s).Some? <==> IsHourMinuteText(s)
  {
    if StrpTime(HourMinuteSecondFraction, s).Some? {
      StrpTimeFractionOnly(s);
    }
    if IsFractionText(s) {
      var hs, ms, ss, fs :| Numeral(hs, 23) && Numeral(ms, 59) && Numeral(ss, 59) && FractionNumeral(fs)
                         && s == hs + ":" + ms + ":" + ss + "." + fs;
      StrpTimeFraction(hs, ms, ss, fs);
    }
    if StrpTime(HourMinuteSecond, s).Some? {
      StrpTimeHourMinuteSecondOnly(s);
    }
    if IsHourMinuteSecondText(s) {
      var hs, ms, ss :| Numeral(hs, 23) && Numeral(ms, 59) && Numeral(ss, 59) && s == hs + ":" + ms + ":" + ss;
      StrpTimeHourMinuteSecond(hs, ms, ss);
    }
    if StrpTime(HourMinute, s).Some? {
      StrpTimeHourMinuteOnly(s);
    }
    if IsHourMinuteText(s) {
      var hs, ms :| Numeral(hs, 23) && Numeral(ms, 59) && s == hs + ":" + ms;
      StrpTimeHourMinute(hs, ms);
    }
  }

  /** The loop over the formats, unrolled. */
  lemma FirstParseFormats(s: string)
    ensures FirstParse(Formats, s)
         == if StrpTime(HourMinuteSecondFraction, s).Some? then StrpTime(HourMinuteSecondFraction, s)
            else if StrpTime(HourMinuteSecond, s).Some? then StrpTime(HourMinuteSecond, s)
            else StrpTime(HourMinute, s)
  {
    assert Formats[1..] == [HourMinuteSecond, HourMinute];
    assert Formats[1..][1..] == [HourMinute] && [HourMinute][1..] == [];
    assert FirstParse([HourMinute], s) == StrpTime(HourMinute, s);
    assert FirstParse([HourMinuteSecond, HourMinute], s)
        == if StrpTime(HourMinuteSecond, s).Some? then StrpTime(HourMinuteSecond, s) else StrpTime(HourMinute, s);
  }

  /** The warning is shown exactly for the strings that have none of the three shapes. */
  lemma ParseWarnsIffUnrecognised(s: string)
    ensures ParseScheduleTime(TimeString(s)).warned
        <==> !IsFractionText(s) && !IsHourMinuteSecondText(s) && !IsHourMinuteText(s)
  {
    StrpTimeAccepts(s);
    FirstParseFormats(s);
  }

  /** "H:M" gives H hours and M minutes; the two longer formats fail on it first. */
  lemma ParseHourMinuteText(hs: string, ms: string)
    requires Numeral(hs, 23) && Numeral(ms, 59)
    ensures ParseScheduleTime(TimeString(hs + ":" + ms))
         == ParsedTime(Some(TimeOfDay(DigitsValue(hs), DigitsValue(ms), 0, 0)), false)
    ensures StrpTime(HourMinuteSecondFraction, hs + ":" + ms).None?
    ensures StrpTime(HourMinuteSecond, hs + ":" + ms).None?
  {
    var s := hs + ":" + ms;
    assert IsHourMinuteText(s);
    HourMinuteTextCounts(s);
    if StrpTime(HourMinuteSecondFraction, s).Some? {
      StrpTimeFractionOnly(s);
      FractionTextCounts(s);
    }
    if StrpTime(HourMinuteSecond, s).Some? {
      StrpTimeHourMinuteSecondOnly(s);
      HourMinuteSecondTextCounts(s);
    }
    StrpTimeHourMinute(hs, ms);
    FirstParseFormats(s);
  }

  /** "H:M:S" gives H hours, M minutes and S seconds. */
  lemma ParseHourMinuteSecondText(hs: string, ms: string, ss: string)
    requires Numeral(hs, 23) && Numeral(ms, 59) && Numeral(ss, 59)
    ensures ParseScheduleTime(TimeString(hs + ":" + ms + ":" + ss))
         == ParsedTime(Some(TimeOfDay(DigitsValue(hs), DigitsValue(ms), DigitsValue(ss), 0)), false)
  {
    var s := hs + ":" + ms + ":" + ss;
    assert IsHourMinuteSecondText(s);
    HourMinuteSecondTextCounts(s);
    if StrpTime(HourMinuteSecondFraction, s).Some? {
      StrpTimeFractionOnly(s);
      FractionTextCounts(s);
    }
    StrpTimeHourMinuteSecond(hs, ms, ss);
    FirstParseFormats(s);
  }

  /** "H:M:S.F" gives the time with F as microseconds, right-padded to six digits. */
  lemma ParseFractionText(hs: string, ms: string, ss: string, fs: string)
    requires Numeral(hs, 23) && Numeral(ms, 59) && Numeral(ss, 59) && FractionNumeral(fs)
    ensures ParseScheduleTime(TimeString(hs + ":" + ms + ":" + ss + "." + fs))
         == ParsedTime(Some(TimeOfDay(DigitsValue(hs), DigitsValue(ms), DigitsValue(ss), Microseconds(fs))), false)
  {
    StrpTimeFraction(hs, ms, ss, fs);
    FirstParseFormats(hs + ":" + ms + ":" + ss + "." + fs);
  }

  /** Seconds 60 and 61 get past the regex of %S but not the time constructor: a warning. */
  lemma ParseLeapSecondText(hs: string, ms: string, ss: string)
    requires Numeral(hs, 23) && Numeral(ms, 59) && Numeral(ss, 61) && DigitsValue(ss) >= 60
    ensures ParseScheduleTime(TimeString(hs + ":" + ms + ":" + ss)) == ParsedTime(None, true)
  {
    var s := hs + ":" + ms + ":" + ss;
    StrpTimeHourMinuteSecond(hs, ms, ss);
    HourMinuteCounts(hs, ms);
    SeparatorThenDigits(hs + ":" + ms, ':', ss);
    if StrpTime(HourMinuteSecondFraction, s).Some? {
      StrpTimeFractionOnly(s);
      FractionTextCounts(s);
    }
    if StrpTime(HourMinute, s).Some? {
      StrpTimeHourMinuteOnly(s);
      HourMinuteTextCounts(s);
    }
    FirstParseFormats(s);
  }

  /** A time the app stored with strftime("%H:%M") parses back, without a warning, to the same
      hour and minute. */
  lemma ParseFormattedTime(t: Time)
    ensures ParseScheduleTime(TimeString(FormatHourMinute(t)))
         == ParsedTime(Some(TimeOfDay(t.hour, t.minute, 0, 0)), false)
  {
    var hs, ms := Padded(t.hour, 2), Padded(t.minute, 2);
    PaddedValue(t.hour, 2);
    PaddedValue(t.minute, 2);
    ParseHourMinuteText(hs, ms);
  }

  /** "123" as %f reads it: right-padded to "123000". */
  lemma MicrosecondsOf123()
    ensures Microseconds("123") == 123000
  {
    assert "123"[..2] == "12" && "12"[..1] == "1" && "1"[..0] == "";
    assert DigitsValue("123") == 123;
    DigitsValueZeros("123", 3);
    assert Pow10(3) == 1000;
  }

  lemma DigitsOfExample()
    ensures DigitsValue("14") == 14 && DigitsValue("30") == 30 && DigitsValue("45") == 45
    ensures Numeral("14", 23) && Numeral("30", 59) && Numeral("45", 59) && FractionNumeral("123")
    ensures "14" + ":" + "30" + ":" + "45" + "." + "123" == "14:30:45.123"
  {
    assert "14"[..1] == "1" && "30"[..1] == "3" && "45"[..1] == "4";
  }

  /** The example of the microsecond format: "14:30:45.123" is 14:30:45.123000. */
  lemma ParseFractionExample()
    ensures ParseScheduleTime(TimeString("14:30:45.123")) == ParsedTime(Some(TimeOfDay(14, 30, 45, 123000)), false)
  {
    DigitsOfExample();
    MicrosecondsOf123();
    ParseFractionText("14", "30", "45", "123");
  }

  /** A string of no known shape comes back as None with a warning. */
  lemma ParseUnrecognisedExample()
    ensures ParseScheduleTime(TimeString("not-a-time")) == ParsedTime(None, true)
  {
    var s := "not-a-time";
    assert Occurrences(s, ':') == 0;
    if IsFractionText(s) { FractionTextCounts(s); }
    if IsHourMinuteSecondText(s) { HourMinuteSecondTextCounts(s); }
    if IsHourMinuteText(s) { HourMinuteTextCounts(s); }
    ParseWarnsIffUnrecognised(s);
  }
}
