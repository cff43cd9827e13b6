/**
 * The `/… from <h> to <h>` slash command of `src/functions/slash-command/command/from.cmd.ts`:
 * two case-insensitive patterns, a 12-hour one (`from 9am to 5pm`) tried before a 24-hour one
 * (`from 9 to 17`), the hours they give, the reply, and the STORE_SCHEDULE job it enqueues.
 */
module FromCmd {
  import opened Wrappers
  import opened JsText
  import opened TimeUtil

  /** The length of the run of `\s` characters at the start of `s`. */
  function SpaceRun(s: string): (n: nat)
    ensures n <= |s| && (n < |s| ==> !IsSpace(s[n]))
    ensures forall i :: 0 <= i < n ==> IsSpace(s[i])
  {
    if s != [] && IsSpace(s[0]) then 1 + SpaceRun(s[1..]) else 0
  }

  /** The length of the run of non-`\s` characters at the start of `s`. */
  function WordRun(s: string): (n: nat)
    ensures n <= |s| && (n < |s| ==> IsSpace(s[n]))
    ensures forall i :: 0 <= i < n ==> !IsSpace(s[i])
  {
    if s != [] && !IsSpace(s[0]) then 1 + WordRun(s[1..]) else 0
  }

  /**
   * The frame both patterns share, `^from\s+(X)\s+to\s+(Y)$` with the `i` flag: the two words
   * in the places of X and Y. The hour alternatives contain no `\s`, so X is the whole word
   * after the spaces and Y is all that follows the last run of spaces.
   */
  function ScheduleWords(text: string): (r: Option<(string, string)>)
  {
    if |text| < 4 || !EqualsIgnoreCase(text[..4], "from") then None else AfterFrom(text[4..])
  }

  /** `\s+(X)…` after "from". */
  function AfterFrom(r1: string): Option<(string, string)>
  {
    var n1 := SpaceRun(r1);
    if n1 == 0 then None else FirstWord(r1[n1..])
  }

  /** X is the word up to the next `\s`. */
  function FirstWord(r2: string): Option<(string, string)>
  {
    var k := WordRun(r2);
    AfterFirstWord(r2[..k], r2[k..])
  }

  /** `\s+to…` after X. */
  function AfterFirstWord(a: string, r3: string): Option<(string, string)>
  {
    var n2 := SpaceRun(r3);
    if n2 == 0 then None else AtTo(a, r3[n2..])
  }

  function AtTo(a: string, r4: string): Option<(string, string)>
  {
    if |r4| < 2 || !EqualsIgnoreCase(r4[..2], "to") then None else AfterTo(a, r4[2..])
  }

  /** `\s+(Y)$` after "to": Y is all that follows the spaces. */
  function AfterTo(a: string, r5: string): Option<(string, string)>
  {
    var n3 := SpaceRun(r5);
    if n3 == 0 then None else Some((a, r5[n3..]))
  }

  datatype Form = TwelveHour | TwentyFourHour

  predicate IsAmPm(s: string) { EqualsIgnoreCase(s, "am") || EqualsIgnoreCase(s, "pm") }

  /** `([1-9]|1[0-2])[ap]m`: an hour 1..12 without a leading zero, then am or pm in any case. */
  predicate Is12hToken(w: string)
  {
    (|w| == 3 && '1' <= w[0] <= '9' && IsAmPm(w[1..]))
    || (|w| == 4 && w[0] == '1' && '0' <= w[1] <= '2' && IsAmPm(w[2..]))
  }

  /** `[1-9]|1[0-9]|2[0-4]`: an hour 1..24 without a leading zero. */
  predicate Is24hToken(w: string)
  {
    (|w| == 1 && '1' <= w[0] <= '9')
    || (|w| == 2 && w[0] == '1' && IsDigit(w[1]))
    || (|w| == 2 && w[0] == '2' && '0' <= w[1] <= '4')
  }

  predicate IsHourToken(form: Form, w: string)
  {
    if form == TwelveHour then Is12hToken(w) else Is24hToken(w)
  }

  /** `text.match(SCHEDULE_STRING_REGEXP_12H)` or `…_24H`: the two captured hour groups. */
  function MatchSchedule(text: string, form: Form): (r: Option<(string, string)>)
    ensures r.Some? ==> IsHourToken(form, r.value.0) && IsHourToken(form, r.value.1)
  {
    var words := ScheduleWords(text);
    if words.Some? && IsHourToken(form, words.value.0) && IsHourToken(form, words.value.1) then words else None
  }

  /** The leading decimal digits of `s`. */
  function LeadingDigits(s: string): (r: string)
    ensures AllDigits(r) && |r| <= |s| && r == s[..|r|]
    ensures |r| < |s| ==> !IsDigit(s[|r|])
  {
    if s != [] && IsDigit(s[0]) then [s[0]] + LeadingDigits(s[1..]) else []
  }

  /** `parseInt(s, 10)` of a string that starts with a digit: the value of its leading digits. */
  function ParseInt(s: string): nat
  {
    DigitsValue(LeadingDigits(s))
  }

  /** `/pm$/i`. */
  predicate EndsWithPm(s: string)
  {
    |s| >= 2 && EqualsIgnoreCase(s[|s| - 2..], "pm")
  }

  /** The hour a 12-hour group stands for: `parseInt` of it, plus 12 when it ends in pm. */
  function Hour24Of12h(group: string): int
  {
    var s := Trim(group);
    if EndsWithPm(s) then ParseInt(s) + 12 else ParseInt(s)
  }

  /** The hours the command reads from its text, 12-hour form first; `None` is "Invalid input". */
  function ParseSchedule(text: string): Option<(int, int)>
  {
    HoursOf(MatchSchedule(text, TwelveHour), MatchSchedule(text, TwentyFourHour))
  }

  /** The hours given the two patterns' captures, the 12-hour one taking precedence. */
  function HoursOf(m12: Option<(string, string)>, m24: Option<(string, string)>): Option<(int, int)>
  {
    if m12.Some? then Some((Hour24Of12h(m12.value.0), Hour24Of12h(m12.value.1)))
    else if m24.Some? then Some((ParseInt(Trim(m24.value.0)), ParseInt(Trim(m24.value.1))))
    else None
  }

  /** The job payload sent to the jobs queue. */
  datatype Job = StoreSchedule(responseUrl: string, userId: string, fromHour24: int, toHour24: int)

  const InvalidInput: string := "Invalid input"

  /** The reply's four lines, joined with newlines. */
  function ReceivedLines(fromHour24: int, toHour24: int): seq<string>
  {
    LinesOf(StringifyNormalizedTime(fromHour24), StringifyNormalizedTime(toHour24))
  }

  /** The four lines, given the (24-hour, 12-hour) texts of both hours. */
  function LinesOf(from: (string, string), to: (string, string)): seq<string>
  {
    [ "Received schedule:",
      " • Set status to `away` at " + from.1 + " / " + from.0,
      " • Clear `away` status at " + to.1 + " / " + to.0,
      "Storing schedule ..." ]
  }

  function ReceivedReply(fromHour24: int, toHour24: int): string
  {
    Join(ReceivedLines(fromHour24, toHour24), '\n')
  }

  /** The statements that turn one 12-hour group into an hour: trim, `parseInt`, plus 12 on pm. */
  method ConvertTwelveHour(group: string) returns (hour24: int)
    ensures hour24 == Hour24Of12h(group)
  {
    var input := Trim(group);
    hour24 := ParseInt(input);
    if EndsWithPm(input) {
      hour24 := hour24 + 12;
    }
  }

  /**
   * `command(logger, cmd)`: the reply text and the jobs enqueued. A failed enqueue is only
   * logged, so it changes neither.
   */
  method Command(text: string, responseUrl: string, userId: string) returns (reply: string, jobs: seq<Job>)
    ensures ParseSchedule(text).None? ==> reply == InvalidInput && jobs == []
    ensures ParseSchedule(text).Some? ==>
      var hours := ParseSchedule(text).value;
      jobs == [StoreSchedule(responseUrl, userId, hours.0, hours.1)] && reply == ReceivedReply(hours.0, hours.1)
  {
    var matches12h := MatchSchedule(text, TwelveHour);
    var matches24h := MatchSchedule(text, TwentyFourHour);
    var fromHour24: Option<int> := None;
    var toHour24: Option<int> := None;
    if matches12h.Some? {
      var f := ConvertTwelveHour(matches12h.value.0);
      var t := ConvertTwelveHour(matches12h.value.1);
      fromHour24, toHour24 := Some(f), Some(t);
    } else if matches24h.Some? {
      fromHour24 := Some(ParseInt(Trim(matches24h.value.0)));
      toHour24 := Some(ParseInt(Trim(matches24h.value.1)));
    }
    assert ParseSchedule(text) == HoursOf(matches12h, matches24h);
    if fromHour24.Some? && toHour24.Some? {
      jobs := [StoreSchedule(responseUrl, userId, fromHour24.value, toHour24.value)];
      reply := ReceivedReply(fromHour24.value, toHour24.value);
    } else {
      jobs := [];
      reply := InvalidInput;
    }
  }

  // ---------------------------------------------------------------------------------------
  // The frame of both patterns

  predicate AllSpace(s: string) { forall i :: 0 <= i < |s| ==> IsSpace(s[i]) }

  /**
   * The pieces `f + s1 + a + s2 + o + s3 + b` of a text that `^from\s+(X)\s+to\s+(Y)$` splits
   * with X = a and Y = b: "from" and "to" in any case, three non-empty runs of `\s`, a word
   * without `\s` in the first place and, in the second, anything not starting with `\s`.
   */
  predicate Layout(f: string, s1: string, a: string, s2: string, o: string, s3: string, b: string)
  {
    EqualsIgnoreCase(f, "from") && EqualsIgnoreCase(o, "to")
    && |s1| >= 1 && AllSpace(s1) && |s2| >= 1 && AllSpace(s2) && |s3| >= 1 && AllSpace(s3)
    && |a| >= 1 && NoSpace(a) && (b == [] || !IsSpace(b[0]))
  }

  lemma {:induction false} SpaceRunOf(s: string, rest: string)
    requires AllSpace(s) && (rest == [] || !IsSpace(rest[0]))
    ensures SpaceRun(s + rest) == |s|
  {
    if s != [] {
      assert (s + rest)[1..] == s[1..] + rest;
      SpaceRunOf(s[1..], rest);
    } else {
      assert s + rest == rest;
    }
  }

  lemma {:induction false} WordRunOf(s: string, rest: string)
    requires NoSpace(s) && (rest == [] || IsSpace(rest[0]))
    ensures WordRun(s + rest) == |s|
  {
    if s != [] {
      assert (s + rest)[1..] == s[1..] + rest;
      WordRunOf(s[1..], rest);
    } else {
      assert s + rest == rest;
    }
  }

  /** The text of the layout, assembled from its pieces. */
  function LaidOut(f: string, s1: string, a: string, s2: string, o: string, s3: string, b: string): string
  {
    f + (s1 + (a + (s2 + (o + (s3 + b)))))
  }

  lemma AfterToOf(a: string, s3: string, b: string)
    requires |s3| >= 1 && AllSpace(s3) && (b == [] || !IsSpace(b[0]))
    ensures AfterTo(a, s3 + b) == Some((a, b))
  {
    SpaceRunOf(s3, b);
    assert (s3 + b)[|s3|..] == b;
  }

  lemma AtToOf(a: string, o: string, rest: string)
    requires EqualsIgnoreCase(o, "to")
    ensures AtTo(a, o + rest) == AfterTo(a, rest)
  {
    assert (o + rest)[..2] == o;
    assert (o + rest)[2..] == rest;
  }

  lemma AfterFirstWordOf(a: string, s2: string, rest: string)
    requires |s2| >= 1 && AllSpace(s2) && rest != [] && !IsSpace(rest[0])
    ensures AfterFirstWord(a, s2 + rest) == AtTo(a, rest)
  {
    SpaceRunOf(s2, rest);
    assert (s2 + rest)[|s2|..] == rest;
  }

  lemma FirstWordOf(a: string, rest: string)
    requires |a| >= 1 && NoSpace(a) && (rest == [] || IsSpace(rest[0]))
    ensures FirstWord(a + rest) == AfterFirstWord(a, rest)
  {
    WordRunOf(a, rest);
    assert (a + rest)[..|a|] == a;
    assert (a + rest)[|a|..] == rest;
  }

  lemma AfterFromOf(s1: string, rest: string)
    requires |s1| >= 1 && AllSpace(s1) && rest != [] && !IsSpace(rest[0])
    ensures AfterFrom(s1 + rest) == FirstWord(rest)
  {
    SpaceRunOf(s1, rest);
    assert (s1 + rest)[|s1|..] == rest;
  }

  lemma ScheduleWordsOfFrom(f: string, rest: string)
    requires EqualsIgnoreCase(f, "from")
    ensures ScheduleWords(f + rest) == AfterFrom(rest)
  {
    assert (f + rest)[..4] == f;
    assert (f + rest)[4..] == rest;
  }

  /** Every text of the layout is split into its two words. */
  lemma ScheduleWordsOfLayout(f: string, s1: string, a: string, s2: string, o: string, s3: string, b: string)
    requires Layout(f, s1, a, s2, o, s3, b)
    ensures ScheduleWords(LaidOut(f, s1, a, s2, o, s3, b)) == Some((a, b))
  {
    var t5 := s3 + b;
    var t4 := o + t5;
    var t3 := s2 + t4;
    var t2 := a + t3;
    var t1 := s1 + t2;
    AfterToOf(a, s3, b);
    AtToOf(a, o, t5);
    assert t4[0] == o[0] && ToLowerAscii(o[0]) == 't';
    AfterFirstWordOf(a, s2, t4);
    assert t3[0] == s2[0];
    FirstWordOf(a, t3);
    assert t2[0] == a[0];
    AfterFromOf(s1, t2);
    ScheduleWordsOfFrom(f, t1);
  }

  /** Conversely, every text split into two words has the layout, with those words in it. */
  lemma ScheduleWordsLayout(text: string)
    returns (f: string, s1: string, a: string, s2: string, o: string, s3: string, b: string)
    requires ScheduleWords(text).Some?
    ensures ScheduleWords(text) == Some((a, b))
    ensures Layout(f, s1, a, s2, o, s3, b) && text == LaidOut(f, s1, a, s2, o, s3, b)
  {
    f := text[..4];
    var r1 := text[4..];
    assert text == f + r1;
    assert EqualsIgnoreCase(f, "from");
    assert ScheduleWords(text) == AfterFrom(r1);
    s1, a, s2, o, s3, b := AfterFromLayout(r1);
  }

  lemma AfterFromLayout(r1: string) returns (s1: string, a: string, s2: string, o: string, s3: string, b: string)
    requires AfterFrom(r1).Some?
    ensures AfterFrom(r1) == Some((a, b))
    ensures r1 == s1 + (a + (s2 + (o + (s3 + b))))
    ensures |s1| >= 1 && AllSpace(s1) && |a| >= 1 && NoSpace(a)
    ensures EqualsIgnoreCase(o, "to") && |s2| >= 1 && AllSpace(s2) && |s3| >= 1 && AllSpace(s3)
    ensures b == [] || !IsSpace(b[0])
  {
    var n1 := SpaceRun(r1);
    s1 := r1[..n1];
    var r2 := r1[n1..];
    assert r1 == s1 + r2;
    assert AfterFrom(r1) == FirstWord(r2);
    a, s2, o, s3, b := FirstWordLayout(r2);
  }

  lemma FirstWordLayout(r2: string) returns (a: string, s2: string, o: string, s3: string, b: string)
    requires FirstWord(r2).Some? && (r2 == [] || !IsSpace(r2[0]))
    ensures FirstWord(r2) == Some((a, b))
    ensures |a| >= 1 && NoSpace(a) && r2 == a + (s2 + (o + (s3 + b)))
    ensures EqualsIgnoreCase(o, "to") && |s2| >= 1 && AllSpace(s2) && |s3| >= 1 && AllSpace(s3)
    ensures b == [] || !IsSpace(b[0])
  {
    var k := WordRun(r2);
    var r3;
    a, r3 := r2[..k], r2[k..];
    assert r2 == a + r3;
    assert FirstWord(r2) == AfterFirstWord(a, r3);
    s2, o, s3, b := AfterFirstWordLayout(a, r3);
  }

  lemma AfterFirstWordLayout(a: string, r3: string) returns (s2: string, o: string, s3: string, b: string)
    requires AfterFirstWord(a, r3).Some?
    ensures AfterFirstWord(a, r3) == Some((a, b))
    ensures r3 == s2 + (o + (s3 + b))
    ensures EqualsIgnoreCase(o, "to") && |s2| >= 1 && AllSpace(s2) && |s3| >= 1 && AllSpace(s3)
    ensures b == [] || !IsSpace(b[0])
  {
    var n2 := SpaceRun(r3);
    s2 := r3[..n2];
    var r4 := r3[n2..];
    assert r3 == s2 + r4;
    assert AfterFirstWord(a, r3) == AtTo(a, r4);
    o := r4[..2];
    var r5 := r4[2..];
    assert r4 == o + r5;
    assert AtTo(a, r4) == AfterTo(a, r5);
    var n3 := SpaceRun(r5);
    s3, b := r5[..n3], r5[n3..];
    assert r5 == s3 + b;
  }

  /** A form matches a text of the layout exactly when both words are hour tokens of that form. */
  lemma MatchScheduleOfLayout(form: Form, f: string, s1: string, a: string, s2: string, o: string, s3: string, b: string)
    requires Layout(f, s1, a, s2, o, s3, b)
    ensures MatchSchedule(LaidOut(f, s1, a, s2, o, s3, b), form)
      == if IsHourToken(form, a) && IsHourToken(form, b) then Some((a, b)) else None
  {
    ScheduleWordsOfLayout(f, s1, a, s2, o, s3, b);
  }

  // ---------------------------------------------------------------------------------------
  // The hour tokens

  lemma NoSpaceOfDigits(s: string)
    requires AllDigits(s)
    ensures NoSpace(s)
  {
    forall i | 0 <= i < |s| ensures !IsSpace(s[i]) {
      assert IsDigit(s[i]);
    }
  }

  lemma NatToStringTwoDigits(n: nat)
    requires 10 <= n < 100
    ensures NatToString(n) == [DigitChar(n / 10), DigitChar(n % 10)]
  {
  }

  lemma NatToStringLong(n: nat)
    requires n >= 100
    ensures |NatToString(n)| >= 3
  {
    assert |NatToString(n / 10)| >= 2;
  }

  /** The 24-hour alternatives are exactly the decimal numerals of 1..24: 0 and 25 and up fail. */
  lemma Is24hTokenOfNumber(n: nat)
    ensures Is24hToken(NatToString(n)) <==> 1 <= n <= 24
  {
    if n < 10 {
      assert NatToString(n) == [DigitChar(n)];
    } else if n < 100 {
      NatToStringTwoDigits(n);
    } else {
      NatToStringLong(n);
    }
  }

  /** `parseInt` reads the whole of a string of digits followed by a non-digit or nothing. */
  lemma {:induction false} LeadingDigitsOf(d: string, rest: string)
    requires AllDigits(d) && (rest == [] || !IsDigit(rest[0]))
    ensures LeadingDigits(d + rest) == d
  {
    if d == [] {
      assert d + rest == rest;
    } else {
      assert (d + rest)[1..] == d[1..] + rest;
      LeadingDigitsOf(d[1..], rest);
      assert [d[0]] + d[1..] == d;
    }
  }

  /** A numeral of one non-zero digit. */
  lemma OneDigitNumeral(w: string)
    requires |w| == 1 && '1' <= w[0] <= '9'
    ensures AllDigits(w) && NatToString(DigitsValue(w)) == w && 1 <= DigitsValue(w) <= 9
  {
    assert w[..0] == [];
    assert NatToString(DigitValue(w[0])) == [DigitChar(DigitValue(w[0]))];
  }

  /** A numeral of two digits without a leading zero. */
  lemma TwoDigitNumeral(w: string)
    requires |w| == 2 && '1' <= w[0] <= '9' && IsDigit(w[1])
    ensures AllDigits(w) && NatToString(DigitsValue(w)) == w
    ensures DigitsValue(w) == 10 * DigitValue(w[0]) + DigitValue(w[1])
  {
    TwoDigitsValue(w);
    NatToStringTwoDigits(DigitsValue(w));
  }

  /** A 24-hour token is the numeral of the hour that `parseInt` reads from it, one of 1..24. */
  lemma Is24hTokenValue(w: string)
    requires Is24hToken(w)
    ensures Trim(w) == w && 1 <= ParseInt(w) <= 24 && NatToString(ParseInt(w)) == w
  {
    if |w| == 1 {
      OneDigitNumeral(w);
    } else {
      TwoDigitNumeral(w);
    }
    NoSpaceOfDigits(w);
    TrimNoSpace(w);
    LeadingDigitsOf(w, []);
    assert w + [] == w;
  }

  lemma AmPmShape(s: string)
    requires IsAmPm(s)
    ensures |s| == 2 && !IsDigit(s[0]) && NoSpace(s)
  {
    assert ToLowerAscii(s[0]) == 'a' || ToLowerAscii(s[0]) == 'p';
    assert ToLowerAscii(s[1]) == 'm';
  }

  lemma NoSpaceConcat(a: string, b: string)
    requires NoSpace(a) && NoSpace(b)
    ensures NoSpace(a + b)
  {
    forall i | 0 <= i < |a + b| ensures !IsSpace((a + b)[i]) {
      if i >= |a| {
        assert (a + b)[i] == b[i - |a|];
      }
    }
  }

  /**
   * A 12-hour token is the numeral of an hour 1..12 followed by am or pm, and `parseInt` reads
   * that hour from it.
   */
  lemma Is12hTokenValue(w: string)
    requires Is12hToken(w)
    ensures Trim(w) == w
    ensures var d := w[..|w| - 2];
      AllDigits(d) && IsAmPm(w[|w| - 2..]) && ParseInt(w) == DigitsValue(d)
      && 1 <= DigitsValue(d) <= 12 && NatToString(DigitsValue(d)) == d
  {
    var d, suffix := w[..|w| - 2], w[|w| - 2..];
    assert w == d + suffix;
    if |w| == 3 {
      assert suffix == w[1..];
      OneDigitNumeral(d);
    } else {
      assert suffix == w[2..];
      TwoDigitNumeral(d);
    }
    AmPmShape(suffix);
    LeadingDigitsOf(d, suffix);
    NoSpaceOfDigits(d);
    NoSpaceConcat(d, suffix);
    TrimNoSpace(w);
  }

  /** Every hour numeral 1..12 followed by am or pm, in any case, is a 12-hour token. */
  lemma Is12hTokenOfNumber(n: nat, suffix: string)
    requires 1 <= n <= 12 && IsAmPm(suffix)
    ensures Is12hToken(NatToString(n) + suffix)
  {
    AmPmShape(suffix);
    var w := NatToString(n) + suffix;
    if n < 10 {
      assert NatToString(n) == [DigitChar(n)];
      assert w[1..] == suffix;
    } else {
      NatToStringTwoDigits(n);
      assert w[2..] == suffix;
    }
  }

  /** No text is a token of both forms: 12-hour tokens are 3 or 4 long, 24-hour ones 1 or 2. */
  lemma FormsExclusive(text: string)
    ensures !(MatchSchedule(text, TwelveHour).Some? && MatchSchedule(text, TwentyFourHour).Some?)
  {
  }

  /** pm adds 12 to the hour and am keeps it, so a 12-hour group gives an hour in 1..24. */
  lemma Hour24Of12hValue(w: string)
    requires Is12hToken(w)
    ensures 1 <= ParseInt(w) <= 12
    ensures EqualsIgnoreCase(w[|w| - 2..], "pm") ==> Hour24Of12h(w) == ParseInt(w) + 12
    ensures !EqualsIgnoreCase(w[|w| - 2..], "pm") ==> Hour24Of12h(w) == ParseInt(w)
    ensures 1 <= Hour24Of12h(w) <= 24
  {
    Is12hTokenValue(w);
  }

  /** Every accepted text gives both hours in 1..24. */
  lemma ParseScheduleHours(text: string)
    ensures ParseSchedule(text).Some? ==>
      1 <= ParseSchedule(text).value.0 <= 24 && 1 <= ParseSchedule(text).value.1 <= 24
  {
    HoursOfRange(MatchSchedule(text, TwelveHour), MatchSchedule(text, TwentyFourHour));
  }

  lemma HoursOfRange(m12: Option<(string, string)>, m24: Option<(string, string)>)
    requires m12.Some? ==> Is12hToken(m12.value.0) && Is12hToken(m12.value.1)
    requires m24.Some? ==> Is24hToken(m24.value.0) && Is24hToken(m24.value.1)
    ensures HoursOf(m12, m24).Some? ==>
      1 <= HoursOf(m12, m24).value.0 <= 24 && 1 <= HoursOf(m12, m24).value.1 <= 24
  {
    if m12.Some? {
      Hour24Of12hValue(m12.value.0);
      Hour24Of12hValue(m12.value.1);
    } else if m24.Some? {
      Is24hTokenValue(m24.value.0);
      Is24hTokenValue(m24.value.1);
    }
  }

  /** The 12-hour examples: 5pm is 17, 12pm is 24, 12am is 12, 9AM is 9. */
  lemma Hour24Of12hExamples()
    ensures Hour24Of12h("5pm") == 17 && Hour24Of12h("12pm") == 24
    ensures Hour24Of12h("12am") == 12 && Hour24Of12h("9AM") == 9
  {
    FivePm();
    TwelvePm();
    TwelveAm();
    NineAm();
  }

  lemma FivePm()
    ensures Hour24Of12h("5pm") == 17
  {
    Is12hTokenValue("5pm");
    assert "5pm"[..1] == "5";
  }

  lemma TwelvePm()
    ensures Hour24Of12h("12pm") == 24
  {
    Is12hTokenValue("12pm");
    assert "12pm"[..2] == "12";
    TwoDigitNumeral("12");
  }

  lemma TwelveAm()
    ensures Hour24Of12h("12am") == 12
  {
    Is12hTokenValue("12am");
    assert "12am"[..2] == "12";
    TwoDigitNumeral("12");
  }

  lemma NineAm()
    ensures Hour24Of12h("9AM") == 9
  {
    Is12hTokenValue("9AM");
    assert "9AM"[..1] == "9";
  }

  // ---------------------------------------------------------------------------------------
  // The reply

  lemma NoNewline24(s: string)
    requires |s| == 5 && AllDigits(s[..2]) && s[2..] == ":00"
    ensures '\n' !in s
  {
    forall i | 0 <= i < |s| ensures s[i] != '\n' {
      if i < 2 { assert s[i] == s[..2][i]; } else { assert s[i] == s[2..][i - 2]; }
    }
  }

  lemma NoNewline12(s: string)
    requires |s| == 7 && AllDigits(s[..2]) && s[2..5] == ":00" && (s[5..] == "am" || s[5..] == "pm")
    ensures '\n' !in s
  {
    forall i | 0 <= i < |s| ensures s[i] != '\n' {
      if i < 2 { assert s[i] == s[..2][i]; }
      else if i < 5 { assert s[i] == s[2..5][i - 2]; }
      else { assert s[i] == s[5..][i - 5]; }
    }
  }

  lemma StringifyNoNewline(hour24: int)
    requires 0 <= hour24 < 100
    ensures '\n' !in StringifyNormalizedTime(hour24).0 && '\n' !in StringifyNormalizedTime(hour24).1
  {
    Stringify24Hour(hour24);
    Stringify12Hour(hour24);
    NoNewline24(StringifyNormalizedTime(hour24).0);
    NoNewline12(StringifyNormalizedTime(hour24).1);
  }

  lemma LinesOfNoNewline(from: (string, string), to: (string, string))
    requires '\n' !in from.0 && '\n' !in from.1 && '\n' !in to.0 && '\n' !in to.1
    ensures |LinesOf(from, to)| == 4
    ensures forall k :: 0 <= k < |LinesOf(from, to)| ==> '\n' !in LinesOf(from, to)[k]
  {
  }

  /**
   * The reply is four lines: it splits back at its newlines into "Received schedule:", the
   * away line, the clear line and "Storing schedule ...".
   */
  lemma ReceivedReplyLines(fromHour24: int, toHour24: int)
    requires 0 <= fromHour24 < 100 && 0 <= toHour24 < 100
    ensures Split(ReceivedReply(fromHour24, toHour24), '\n') == ReceivedLines(fromHour24, toHour24)
    ensures |ReceivedLines(fromHour24, toHour24)| == 4
  {
    StringifyNoNewline(fromHour24);
    StringifyNoNewline(toHour24);
    LinesOfNoNewline(StringifyNormalizedTime(fromHour24), StringifyNormalizedTime(toHour24));
    SplitJoin(ReceivedLines(fromHour24, toHour24), '\n');
  }

  /**
   * The 12-hour form is tried first: when it matches, its groups give the hours; the 24-hour
   * groups are read only when it does not, and no match of either is invalid input.
   */
  lemma ParseScheduleOfMatches(text: string)
    ensures var m12 := MatchSchedule(text, TwelveHour);
      m12.Some? ==> ParseSchedule(text) == Some((Hour24Of12h(m12.value.0), Hour24Of12h(m12.value.1)))
    ensures var (m12, m24) := (MatchSchedule(text, TwelveHour), MatchSchedule(text, TwentyFourHour));
      m12.None? && m24.Some? ==> ParseSchedule(text) == Some((ParseInt(m24.value.0), ParseInt(m24.value.1)))
    ensures var (m12, m24) := (MatchSchedule(text, TwelveHour), MatchSchedule(text, TwentyFourHour));
      m12.None? && m24.None? ==> ParseSchedule(text).None?
  {
    HoursOfMatches(MatchSchedule(text, TwelveHour), MatchSchedule(text, TwentyFourHour));
  }

  lemma HoursOfMatches(m12: Option<(string, string)>, m24: Option<(string, string)>)
    requires m24.Some? ==> Is24hToken(m24.value.0) && Is24hToken(m24.value.1)
    ensures m12.Some? ==> HoursOf(m12, m24) == Some((Hour24Of12h(m12.value.0), Hour24Of12h(m12.value.1)))
    ensures m12.None? && m24.Some? ==> HoursOf(m12, m24) == Some((ParseInt(m24.value.0), ParseInt(m24.value.1)))
    ensures m12.None? && m24.None? ==> HoursOf(m12, m24).None?
  {
    if m24.Some? {
      Is24hTokenValue(m24.value.0);
      Is24hTokenValue(m24.value.1);
    }
  }

  /** The 12-hour form on a concrete command. */
  lemma TwelveHourCommandExample()
    ensures ParseSchedule("from 9am to 5pm") == Some((9, 17))
  {
    assert "from 9am to 5pm" == LaidOut("from", " ", "9am", " ", "to", " ", "5pm");
    assert Layout("from", " ", "9am", " ", "to", " ", "5pm");
    assert Is12hToken("9am") by { assert "9am"[1..] == "am"; }
    assert Is12hToken("5pm") by { assert "5pm"[1..] == "pm"; }
    MatchScheduleOfLayout(TwelveHour, "from", " ", "9am", " ", "to", " ", "5pm");
    assert MatchSchedule("from 9am to 5pm", TwelveHour) == Some(("9am", "5pm"));
    ParseScheduleOfMatches("from 9am to 5pm");
    FivePm();
    NineAmLower();
  }

  lemma NineAmLower()
    ensures Hour24Of12h("9am") == 9
  {
    Is12hTokenValue("9am");
    assert "9am"[..1] == "9";
  }

  /** The 24-hour form on a concrete command, which the 12-hour form rejects. */
  lemma TwentyFourHourCommandExample()
    ensures ParseSchedule("from 9 to 17") == Some((9, 17))
  {
    assert "from 9 to 17" == LaidOut("from", " ", "9", " ", "to", " ", "17");
    assert Layout("from", " ", "9", " ", "to", " ", "17");
    MatchScheduleOfLayout(TwelveHour, "from", " ", "9", " ", "to", " ", "17");
    MatchScheduleOfLayout(TwentyFourHour, "from", " ", "9", " ", "to", " ", "17");
    assert MatchSchedule("from 9 to 17", TwelveHour) == None;
    assert MatchSchedule("from 9 to 17", TwentyFourHour) == Some(("9", "17"));
    ParseScheduleOfMatches("from 9 to 17");
    ParseIntExamples();
  }

  lemma ParseIntExamples()
    ensures ParseInt("9") == 9 && ParseInt("17") == 17
  {
    LeadingDigitsOf("9", []);
    assert "9" + [] == "9";
    LeadingDigitsOf("17", []);
    assert "17" + [] == "17";
    TwoDigitNumeral("17");
  }

  /** Hour 0 is outside both forms, so the command is invalid input. */
  lemma RejectedCommandExample()
    ensures ParseSchedule("from 0 to 17") == None
  {
    assert "from 0 to 17" == LaidOut("from", " ", "0", " ", "to", " ", "17");
    assert Layout("from", " ", "0", " ", "to", " ", "17");
    MatchScheduleOfLayout(TwelveHour, "from", " ", "0", " ", "to", " ", "17");
    MatchScheduleOfLayout(TwentyFourHour, "from", " ", "0", " ", "to", " ", "17");
  }
}
