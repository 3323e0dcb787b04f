/** The line parser: a total map from a text line to exactly one command.
    The anchored regular expressions of the Rust parser are written out as
    prefix and suffix tests on the trimmed line. */
module Parser {
  import opened Wrappers
  import opened Text
  import opened Commands

  const FETCH_LITERAL := "fetch appointments"
  const COMMIT_LITERAL := "commit encounter"
  const ATTEND_PREFIX := "attend appointment "
  const SECTION_NAMES: seq<string> := ["complaint", "physical exam", "diagnostic hypothesis"]
  const ACTION_KEYWORDS: seq<string> := ["prescribe", "request", "referral"]

  /** `^attend appointment (\d+)$` followed by `parse::<usize>()`. */
  function MatchAttend(t: string): (r: Option<Usize>)
    ensures r.Some? ==> StartsWith(t, ATTEND_PREFIX) && |t| > |ATTEND_PREFIX|
  {
    if StartsWith(t, ATTEND_PREFIX) then
      var digits := t[|ATTEND_PREFIX|..];
      if digits != [] && AllDigits(digits) && DecimalValue(digits) <= USIZE_MAX
      then Some(DecimalValue(digits))
      else None
    else None
  }

  /** `^<keyword> "(.+)"$`: the payload is everything between the quote
      after the keyword and a closing quote that ends the line; it is not
      empty and, as `.` does not match a newline, holds no newline. */
  function MatchQuoted(t: string, keyword: string): (r: Option<string>)
    ensures r.Some? ==> r.value != [] && NoNewline(r.value)
    ensures r.Some? ==> StartsWith(t, keyword + " \"") && t[|t| - 1] == '"'
  {
    var open := keyword + " \"";
    if |t| > |open| + 1 && StartsWith(t, open) && t[|t| - 1] == '"'
       && NoNewline(t[|open|..|t| - 1])
    then Some(t[|open|..|t| - 1])
    else None
  }

  /** `^register (complaint|physical exam|diagnostic hypothesis) "(.+)"$`,
      alternatives tried in order. */
  function MatchRegister(t: string): (r: Option<(string, string)>)
    ensures r.Some? ==> r.value.0 in SECTION_NAMES && r.value.1 != [] && NoNewline(r.value.1)
  {
    match MatchQuoted(t, "register complaint")
    case Some(d) => Some(("complaint", d))
    case None =>
      match MatchQuoted(t, "register physical exam")
      case Some(d) => Some(("physical exam", d))
      case None =>
        match MatchQuoted(t, "register diagnostic hypothesis")
        case Some(d) => Some(("diagnostic hypothesis", d))
        case None => None
  }

  /** `parse`: recognition runs on the trimmed line. */
  function Parse(input: string): (c: Command)
    ensures c.Unknown? ==> c.text == Trim(input)
  {
    Recognise(Trim(input))
  }

  /** The rules in priority order, on a line that is already trimmed;
      the first that matches wins. */
  function Recognise(t: string): (c: Command)
    ensures c.Unknown? ==> c.text == t
    ensures c.FetchAppointments? <==> t == FETCH_LITERAL
    ensures c.CommitEncounter? <==> t == COMMIT_LITERAL
  {
    if t == FETCH_LITERAL then FetchAppointments
    else if t == COMMIT_LITERAL then CommitEncounter
    else if MatchAttend(t).Some? then AttendAppointment(MatchAttend(t).value)
    else if MatchRegister(t).Some? then RegisterSection(MatchRegister(t).value.0, MatchRegister(t).value.1)
    else if MatchQuoted(t, "prescribe").Some? then Prescribe(MatchQuoted(t, "prescribe").value)
    else if MatchQuoted(t, "request").Some? then Request(MatchQuoted(t, "request").value)
    else if MatchQuoted(t, "referral").Some? then Referral(MatchQuoted(t, "referral").value)
    else Unknown(t)
  }

  // ---------------------------------------------------------------------
  // The quoting rule, stated by concatenation

  /** A line that is keyword, space, quote, payload, quote is recognised
      with exactly that payload. */
  lemma MatchQuotedOf(keyword: string, details: string)
    requires details != [] && NoNewline(details)
    ensures MatchQuoted(keyword + " \"" + details + "\"", keyword) == Some(details)
  {
    var open := keyword + " \"";
    var t := open + details + "\"";
    assert t[..|open|] == open;
    assert t[|open|..|t| - 1] == details;
  }

  /** Whatever the quoting rule accepts has that shape. */
  lemma MatchQuotedShape(t: string, keyword: string)
    requires MatchQuoted(t, keyword).Some?
    ensures var d := MatchQuoted(t, keyword).value;
      d != [] && NoNewline(d) && t == keyword + " \"" + d + "\""
  {
    var open := keyword + " \"";
    assert t == t[..|open|] + t[|open|..|t| - 1] + [t[|t| - 1]];
  }

  /** A line that disagrees with the keyword and the opening quote
      somewhere inside them is not recognised by that keyword's rule. */
  lemma MatchQuotedMismatch(t: string, keyword: string, i: nat)
    requires i < |keyword| + 2 && i < |t| && t[i] != (keyword + " \"")[i]
    ensures MatchQuoted(t, keyword) == None
  {
    var open := keyword + " \"";
    if |open| <= |t| {
      assert t[..|open|][i] == t[i] != open[i];
    }
  }

  lemma MatchAttendMismatch(t: string, i: nat)
    requires i < |ATTEND_PREFIX| && i < |t| && t[i] != ATTEND_PREFIX[i]
    ensures MatchAttend(t) == None
  {
    if |ATTEND_PREFIX| <= |t| {
      assert t[..|ATTEND_PREFIX|][i] == t[i] != ATTEND_PREFIX[i];
    }
  }

  lemma MatchRegisterMismatch(t: string, i: nat)
    requires i < 9 && i < |t| && t[i] != "register "[i]
    ensures MatchRegister(t) == None
  {
    MatchQuotedMismatch(t, "register complaint", i);
    MatchQuotedMismatch(t, "register physical exam", i);
    MatchQuotedMismatch(t, "register diagnostic hypothesis", i);
  }

  // ---------------------------------------------------------------------
  // Properties of Parse

  /** Matching starts from the trimmed line, so surrounding whitespace
      never changes the command. */
  lemma ParseIgnoresSurroundingWhitespace(s: string)
    ensures Parse(s) == Parse(Trim(s))
  {
    TrimIdempotent(s);
  }

  /** The two literals, and only they, give the payload-free commands. */
  lemma ParseLiterals(s: string)
    ensures Parse(s) == FetchAppointments <==> Trim(s) == FETCH_LITERAL
    ensures Parse(s) == CommitEncounter <==> Trim(s) == COMMIT_LITERAL
  {
  }

  /** `attend appointment <d>` gives the number when `d` is a non-empty run
      of digits whose value fits in `usize`, and otherwise falls through to
      `Unknown` of the trimmed line. */
  lemma ParseAttend(s: string, d: string)
    requires Trim(s) == ATTEND_PREFIX + d
    ensures if d != [] && AllDigits(d) && DecimalValue(d) <= USIZE_MAX
            then Parse(s) == AttendAppointment(DecimalValue(d))
            else Parse(s) == Unknown(Trim(s))
  {
    var t := Trim(s);
    assert t[..|ATTEND_PREFIX|] == ATTEND_PREFIX;
    assert t[|ATTEND_PREFIX|..] == d;
    assert t[0] == 'a';
    MatchRegisterMismatch(t, 0);
    MatchQuotedMismatch(t, "prescribe", 0);
    MatchQuotedMismatch(t, "request", 0);
    MatchQuotedMismatch(t, "referral", 0);
  }

  /** Every number that fits in `usize`, written in decimal, is recognised. */
  lemma ParseAttendNumber(s: string, n: Usize)
    requires Trim(s) == ATTEND_PREFIX + NatToDecimal(n)
    ensures Parse(s) == AttendAppointment(n)
  {
    DecimalRoundTrip(n);
    ParseAttend(s, NatToDecimal(n));
  }

  /** An `AttendAppointment` only comes from `attend appointment <digits>`. */
  lemma ParseAttendShape(s: string)
    requires Parse(s).AttendAppointment?
    ensures var t := Trim(s);
      var d := t[|ATTEND_PREFIX|..];
      |t| > |ATTEND_PREFIX| && t == ATTEND_PREFIX + d && AllDigits(d)
      && DecimalValue(d) == Parse(s).number
  {
    var t := Trim(s);
    assert t == t[..|ATTEND_PREFIX|] + t[|ATTEND_PREFIX|..];
  }

  /** The section rule recognises each of the three names with its details. */
  lemma MatchRegisterOf(section: string, details: string)
    requires section in SECTION_NAMES
    requires details != [] && NoNewline(details)
    ensures MatchRegister("register " + section + " \"" + details + "\"") == Some((section, details))
  {
    var t := "register " + section + " \"" + details + "\"";
    if section == "complaint" {
      MatchRegisterFirst(t, details);
    } else if section == "physical exam" {
      MatchRegisterSecond(t, details);
    } else {
      MatchRegisterThird(t, details);
    }
  }

  lemma MatchRegisterFirst(t: string, details: string)
    requires details != [] && NoNewline(details)
    requires t == "register " + "complaint" + " \"" + details + "\""
    ensures MatchRegister(t) == Some(("complaint", details))
  {
    MatchQuotedOf("register complaint", details);
  }

  lemma MatchRegisterSecond(t: string, details: string)
    requires details != [] && NoNewline(details)
    requires t == "register " + "physical exam" + " \"" + details + "\""
    ensures MatchRegister(t) == Some(("physical exam", details))
  {
    assert t[9] == 'p';
    NotComplaint(t);
    MatchQuotedOf("register physical exam", details);
  }

  lemma MatchRegisterThird(t: string, details: string)
    requires details != [] && NoNewline(details)
    requires t == "register " + "diagnostic hypothesis" + " \"" + details + "\""
    ensures MatchRegister(t) == Some(("diagnostic hypothesis", details))
  {
    ThirdFacts(t, details);
    NotComplaint(t);
    NotPhysicalExam(t);
    MatchRegisterByThird(t, details);
  }

  lemma ThirdFacts(t: string, details: string)
    requires details != [] && NoNewline(details)
    requires t == "register " + "diagnostic hypothesis" + " \"" + details + "\""
    ensures |t| > 9 && t[9] == 'd'
    ensures MatchQuoted(t, "register diagnostic hypothesis") == Some(details)
  {
    MatchQuotedOf("register diagnostic hypothesis", details);
  }

  lemma MatchRegisterByThird(t: string, details: string)
    requires MatchQuoted(t, "register complaint") == None
    requires MatchQuoted(t, "register physical exam") == None
    requires MatchQuoted(t, "register diagnostic hypothesis") == Some(details)
    ensures MatchRegister(t) == Some(("diagnostic hypothesis", details))
  {
  }

  lemma NotComplaint(t: string)
    requires |t| > 9 && t[9] != 'c'
    ensures MatchQuoted(t, "register complaint") == None
  {
    MatchQuotedMismatch(t, "register complaint", 9);
  }

  lemma NotPhysicalExam(t: string)
    requires |t| > 9 && t[9] != 'p'
    ensures MatchQuoted(t, "register physical exam") == None
  {
    MatchQuotedMismatch(t, "register physical exam", 9);
  }

  /** Whatever the section rule accepts names a section and has the shape. */
  lemma MatchRegisterShape(t: string)
    requires MatchRegister(t).Some?
    ensures var (section, details) := MatchRegister(t).value;
      section in SECTION_NAMES && details != [] && NoNewline(details)
      && t == "register " + section + " \"" + details + "\""
  {
    var section := MatchRegister(t).value.0;
    var keyword := "register " + section;
    if MatchQuoted(t, "register complaint").Some? {
      assert keyword == "register complaint";
    } else if MatchQuoted(t, "register physical exam").Some? {
      assert keyword == "register physical exam";
    } else {
      assert keyword == "register diagnostic hypothesis";
    }
    MatchQuotedShape(t, keyword);
    assert t == keyword + " \"" + MatchRegister(t).value.1 + "\"";
  }

  /** `register <section> "<details>"` with one of the three section names
      gives exactly that section and those details; the details may contain
      quotes. */
  lemma ParseRegister(s: string, section: string, details: string)
    requires section in SECTION_NAMES
    requires details != [] && NoNewline(details)
    requires Trim(s) == "register " + section + " \"" + details + "\""
    ensures Parse(s) == RegisterSection(section, details)
  {
    var t := Trim(s);
    MatchRegisterOf(section, details);
    assert t[0] == 'r';
    MatchAttendMismatch(t, 0);
    assert t != FETCH_LITERAL && t != COMMIT_LITERAL;
  }

  /** A `RegisterSection` always names one of the three sections and comes
      from a line of that shape. */
  lemma ParseRegisterShape(s: string)
    requires Parse(s).RegisterSection?
    ensures var c := Parse(s);
      c.section in SECTION_NAMES && c.details != [] && NoNewline(c.details)
      && Trim(s) == "register " + c.section + " \"" + c.details + "\""
  {
    var t := Trim(s);
    assert MatchRegister(t).Some?;
    MatchRegisterShape(t);
  }

  /** The command an action keyword stands for. */
  function ActionCommand(keyword: string, details: string): Command
  {
    if keyword == "prescribe" then Prescribe(details)
    else if keyword == "request" then Request(details)
    else Referral(details)
  }

  /** `prescribe "<x>"`, `request "<x>"` and `referral "<x>"`, with exactly
      one space before the opening quote, give the matching action. */
  lemma ParseAction(s: string, keyword: string, details: string)
    requires keyword in ACTION_KEYWORDS
    requires details != [] && NoNewline(details)
    requires Trim(s) == keyword + " \"" + details + "\""
    ensures Parse(s) == ActionCommand(keyword, details)
  {
    var t := Trim(s);
    MatchQuotedOf(keyword, details);
    assert t[0] == keyword[0] && t[2] == keyword[2];
    MatchAttendMismatch(t, 0);
    if keyword == "prescribe" {
      MatchRegisterMismatch(t, 0);
    } else {
      MatchRegisterMismatch(t, 2);
      MatchQuotedMismatch(t, "prescribe", 0);
      if keyword == "referral" {
        MatchQuotedMismatch(t, "request", 2);
      }
    }
  }

  /** The three action commands only come from lines of that shape. */
  lemma ParseActionShape(s: string)
    requires Parse(s).Prescribe? || Parse(s).Request? || Parse(s).Referral?
    ensures var c := Parse(s);
      var keyword := if c.Prescribe? then "prescribe" else if c.Request? then "request" else "referral";
      var details := if c.Prescribe? then c.medication else if c.Request? then c.exam else c.specialty;
      details != [] && NoNewline(details) && Trim(s) == keyword + " \"" + details + "\""
  {
    var t := Trim(s);
    var c := Parse(s);
    if c.Prescribe? {
      MatchQuotedShape(t, "prescribe");
    } else if c.Request? {
      MatchQuotedShape(t, "request");
    } else {
      MatchQuotedShape(t, "referral");
    }
  }

  /** The fallback keeps the line unchanged apart from trimming. */
  lemma ParseUnknown(s: string)
    requires Parse(s).Unknown?
    ensures Parse(s).text == Trim(s)
  {
  }

  // ---------------------------------------------------------------------
  // Worked cases of the grammar

  lemma ExampleFetchWithSpaces()
    ensures Parse("  fetch appointments ") == FetchAppointments
  {
    assert TrimStart("  fetch appointments ") == "fetch appointments ";
    assert Trim("  fetch appointments ") == FETCH_LITERAL;
  }

  lemma ExampleAttendThree()
    ensures Parse("attend appointment 3") == AttendAppointment(3)
  {
    var s := "attend appointment 3";
    TrimOfTrimmed(s);
    assert s == ATTEND_PREFIX + "3";
    ParseAttend(s, "3");
  }

  lemma ExampleAttendNotANumber()
    ensures Parse("attend appointment abc") == Unknown("attend appointment abc")
  {
    var s := "attend appointment abc";
    TrimOfTrimmed(s);
    assert s == ATTEND_PREFIX + "abc";
    assert !IsDigit(s[19]);
    ParseAttend(s, "abc");
  }

  lemma ExampleRegisterComplaint()
    ensures Parse("register complaint \"headache\"") == RegisterSection("complaint", "headache")
  {
    var s := "register complaint \"headache\"";
    TrimOfTrimmed(s);
    assert s == "register " + "complaint" + " \"" + "headache" + "\"";
    ParseRegister(s, "complaint", "headache");
  }

  /** Quotes inside the payload are kept. */
  lemma ExamplePrescribeWithQuotes()
    ensures Parse("prescribe \"say \"ah\"\"") == Prescribe("say \"ah\"")
  {
    var s := "prescribe \"say \"ah\"\"";
    TrimOfTrimmed(s);
    assert s == "prescribe" + " \"" + "say \"ah\"" + "\"";
    ParseAction(s, "prescribe", "say \"ah\"");
  }

  /** Two spaces before the quote are not accepted. */
  lemma ExamplePrescribeTwoSpaces()
    ensures Parse("prescribe  \"x\"") == Unknown("prescribe  \"x\"")
  {
    var t := "prescribe  \"x\"";
    TrimOfTrimmed(t);
    MatchAttendMismatch(t, 0);
    MatchRegisterMismatch(t, 0);
    MatchQuotedMismatch(t, "prescribe", 10);
    MatchQuotedMismatch(t, "request", 0);
    MatchQuotedMismatch(t, "referral", 0);
  }

  lemma ExampleAttendOne()
    ensures Parse("attend appointment 1") == AttendAppointment(1)
  {
    var s := "attend appointment 1";
    TrimOfTrimmed(s);
    assert s == ATTEND_PREFIX + "1";
    ParseAttend(s, "1");
  }

  lemma ExampleRegisterFatigue()
    ensures Parse("register complaint \"fatigue\"") == RegisterSection("complaint", "fatigue")
  {
    var s := "register complaint \"fatigue\"";
    TrimOfTrimmed(s);
    assert s == "register " + "complaint" + " \"" + "fatigue" + "\"";
    ParseRegister(s, "complaint", "fatigue");
  }

  lemma ExamplePrescribeVitaminD()
    ensures Parse("prescribe \"vitamin D\"") == Prescribe("vitamin D")
  {
    var s := "prescribe \"vitamin D\"";
    TrimOfTrimmed(s);
    assert s == "prescribe" + " \"" + "vitamin D" + "\"";
    ParseAction(s, "prescribe", "vitamin D");
  }

  lemma ExampleCommit()
    ensures Parse("commit encounter") == CommitEncounter
  {
    TrimOfTrimmed("commit encounter");
  }
}
