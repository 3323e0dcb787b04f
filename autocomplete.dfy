/** Tab completion and inline hints for the command line: prefix filtering
    over two constant tables. */
module Autocomplete {
  import opened Wrappers
  import opened Text

  /** Every command the completer offers, in the order it offers them. */
  const COMMANDS: seq<string> := [
    "fetch appointments",
    "attend appointment",
    "register complaint",
    "register physical exam",
    "register diagnostic hypothesis",
    "prescribe",
    "request",
    "referral",
    "commit encounter",
    "exit"
  ]

  /** The sections a `register` command can name, in table order. */
  const SECTIONS: seq<string> := ["complaint", "physical exam", "diagnostic hypothesis"]

  const REGISTER := "register "
  const ATTEND := "attend appointment "

  /** A completion candidate: what the menu shows and what replaces the
      text between the start offset and the cursor. */
  datatype Pair = Pair(display: string, replacement: string)

  function Same(s: string): Pair
  {
    Pair(s, s)
  }

  function Pairs(xs: seq<string>): (r: seq<Pair>)
    ensures |r| == |xs| && forall i :: 0 <= i < |xs| ==> r[i] == Same(xs[i])
  {
    seq(|xs|, i requires 0 <= i < |xs| => Same(xs[i]))
  }

  function Displays(ps: seq<Pair>): (r: seq<string>)
    ensures |r| == |ps| && forall i :: 0 <= i < |ps| ==> r[i] == ps[i].display
  {
    seq(|ps|, i requires 0 <= i < |ps| => ps[i].display)
  }

  /** `format!("register {}", section)` for every section. */
  function Registered(sections: seq<string>): (r: seq<string>)
    ensures |r| == |sections| && forall i :: 0 <= i < |sections| ==> r[i] == REGISTER + sections[i]
  {
    seq(|sections|, i requires 0 <= i < |sections| => REGISTER + sections[i])
  }

  /** `r` is `t` with some elements dropped and the rest kept in order. */
  predicate SubsequenceOf(r: seq<string>, t: seq<string>)
    decreases |t|
  {
    if |r| == 0 then true
    else if |t| == 0 then false
    else (r[0] == t[0] && SubsequenceOf(r[1..], t[1..])) || SubsequenceOf(r, t[1..])
  }

  predicate Distinct(t: seq<string>)
  {
    forall i, j :: 0 <= i < j < |t| ==> t[i] != t[j]
  }

  /** The entries of `table` that start with `prefix`, in table order. */
  function Filter(table: seq<string>, prefix: string): (r: seq<string>)
    ensures forall x :: x in r <==> x in table && StartsWith(x, prefix)
    ensures SubsequenceOf(r, table)
  {
    if |table| == 0 then []
    else
      var rest := Filter(table[1..], prefix);
      if StartsWith(table[0], prefix) then [table[0]] + rest else rest
  }

  lemma {:induction false} SubsequenceMembers(r: seq<string>, t: seq<string>)
    requires SubsequenceOf(r, t)
    ensures forall x :: x in r ==> x in t
    decreases |t|
  {
    if |r| > 0 {
      if r[0] == t[0] && SubsequenceOf(r[1..], t[1..]) {
        SubsequenceMembers(r[1..], t[1..]);
        assert r == [r[0]] + r[1..];
      } else {
        SubsequenceMembers(r, t[1..]);
      }
    }
  }

  /** On a table without repeats, "the matching entries in table order"
      pins the result down: any such sequence is `Filter`'s. */
  lemma {:induction false} FilterCharacterised(table: seq<string>, prefix: string, r: seq<string>)
    requires Distinct(table)
    requires SubsequenceOf(r, table)
    requires forall x :: x in r <==> x in table && StartsWith(x, prefix)
    ensures r == Filter(table, prefix)
    decreases |table|
  {
    if |table| == 0 {
    } else if |r| == 0 {
      forall i | 0 <= i < |table|
        ensures !StartsWith(table[i], prefix)
      {
        assert table[i] in table;
      }
      FilterSkipAll(table, prefix, |table|);
    } else {
      var a, t := table[0], table[1..];
      assert Distinct(t);
      assert a !in t;
      if r[0] == a && SubsequenceOf(r[1..], t) {
        SubsequenceMembers(r[1..], t);
        assert r == [r[0]] + r[1..];
        forall x
          ensures x in r[1..] <==> x in t && StartsWith(x, prefix)
        {
          if x in t && StartsWith(x, prefix) {
            assert x in r && x != a;
          }
        }
        FilterCharacterised(t, prefix, r[1..]);
        assert r[0] in r;
      } else {
        SubsequenceMembers(r, t);
        assert !StartsWith(a, prefix);
        forall x
          ensures x in r <==> x in t && StartsWith(x, prefix)
        {
          if x in t {
            assert x in table;
          }
        }
        FilterCharacterised(t, prefix, r);
      }
    }
  }

  /** The text before the cursor, lowercased, which is all completion looks at. */
  function Typed(line: string, pos: nat): string
    requires pos <= |line|
  {
    Lower(line[..pos])
  }

  /** The completer on the lowered text before the cursor, with the start
      offset it reports for `register` candidates as a parameter. */
  function Suggest(typed: string, registerStart: nat): (r: (nat, seq<Pair>))
    requires registerStart <= |REGISTER|
    ensures r.0 == 0 || (r.0 == registerStart && StartsWith(typed, REGISTER))
    ensures forall c :: c in r.1 ==> c.display == c.replacement
    ensures forall c :: c in r.1 ==> c.replacement in COMMANDS || c.replacement in Registered(SECTIONS)
  {
    if |typed| == 0 then
      (0, Pairs(COMMANDS))
    else if StartsWith(typed, REGISTER) then
      if |typed| <= |REGISTER| then
        (registerStart, Pairs(Registered(SECTIONS)))
      else
        var sectionStart := StripRepeated(typed, REGISTER);
        var candidates := Pairs(Registered(Filter(SECTIONS, sectionStart)));
        if |candidates| != 0 then (registerStart, candidates) else (0, [])
    else if StartsWith(typed, ATTEND) then
      (0, [])
    else
      var candidates := Pairs(Filter(COMMANDS, typed));
      if |candidates| != 0 then (0, candidates) else (0, [])
  }

  /** `complete(line, pos)`: the start offset of the text to replace and the
      candidates. `line[..pos]` is out of range, and panics, past the end. */
  function Complete(line: string, pos: nat): (r: (nat, seq<Pair>))
    requires pos <= |line|
    ensures r.0 <= pos
    ensures r.0 == 0 || r.0 == |REGISTER|
    ensures forall c :: c in r.1 ==> c.display == c.replacement
  {
    Suggest(Typed(line, pos), |REGISTER|)
  }

  /** An empty prefix offers every command, in table order, from offset 0. */
  lemma CompleteEmpty(line: string)
    ensures Complete(line, 0) == (0, Pairs(COMMANDS))
    ensures Displays(Complete(line, 0).1) == COMMANDS
  {
  }

  /** Exactly "register " offers the three sections, in order, at offset 9. */
  lemma CompleteRegisterOnly(line: string, pos: nat)
    requires pos <= |line| && Typed(line, pos) == REGISTER
    ensures Complete(line, pos).0 == 9
    ensures Displays(Complete(line, pos).1)
         == ["register complaint", "register physical exam", "register diagnostic hypothesis"]
  {
    var r := Complete(line, pos);
    assert |Typed(line, pos)| == 9;
    assert r == (9, Pairs(Registered(SECTIONS)));
    assert Displays(r.1) == Registered(SECTIONS);
    RegisteredSections();
  }

  lemma RegisteredSections()
    ensures Registered(SECTIONS) == ["register complaint", "register physical exam", "register diagnostic hypothesis"]
  {
    assert REGISTER + SECTIONS[0] == "register complaint";
    assert REGISTER + SECTIONS[1] == "register physical exam";
    assert REGISTER + SECTIONS[2] == "register diagnostic hypothesis";
  }

  /** "register <partial>": the candidates are the sections starting with
      what remains after stripping every leading "register ", in order;
      with none the result is empty at offset 0. */
  lemma CompleteRegisterPartial(line: string, pos: nat)
    requires pos <= |line|
    requires StartsWith(Typed(line, pos), REGISTER) && |Typed(line, pos)| > |REGISTER|
    ensures var rest := StripRepeated(Typed(line, pos), REGISTER);
            var r := Complete(line, pos);
            && (forall s :: Same(REGISTER + s) in r.1 <==> s in SECTIONS && StartsWith(s, rest))
            && (forall c :: c in r.1 ==> exists s :: s in SECTIONS && c == Same(REGISTER + s))
            && SubsequenceOf(Displays(r.1), Registered(SECTIONS))
            && (r.1 != [] ==> r.0 == 9)
            && (r.1 == [] ==> r.0 == 0)
  {
    var rest := StripRepeated(Typed(line, pos), REGISTER);
    var matching := Filter(SECTIONS, rest);
    var r := Complete(line, pos);
    assert r.1 == Pairs(Registered(matching));
    forall s
      ensures Same(REGISTER + s) in r.1 <==> s in SECTIONS && StartsWith(s, rest)
    {
      if Same(REGISTER + s) in r.1 {
        var i :| 0 <= i < |r.1| && r.1[i] == Same(REGISTER + s);
        assert REGISTER + s == REGISTER + matching[i];
        assert s == (REGISTER + s)[|REGISTER|..] == (REGISTER + matching[i])[|REGISTER|..];
        assert s in matching;
      }
      if s in SECTIONS && StartsWith(s, rest) {
        var i :| 0 <= i < |matching| && matching[i] == s;
        assert r.1[i] == Same(REGISTER + s);
      }
    }
    forall c | c in r.1
      ensures exists s :: s in SECTIONS && c == Same(REGISTER + s)
    {
      var i :| 0 <= i < |r.1| && r.1[i] == c;
      assert matching[i] in matching;
    }
    assert Displays(r.1) == Registered(matching);
    RegisteredKeepsOrder(matching, SECTIONS);
  }

  lemma {:induction false} RegisteredKeepsOrder(r: seq<string>, t: seq<string>)
    requires SubsequenceOf(r, t)
    ensures SubsequenceOf(Registered(r), Registered(t))
    decreases |t|
  {
    if |r| > 0 {
      assert Registered(r)[1..] == Registered(r[1..]);
      assert Registered(t)[1..] == Registered(t[1..]);
      if r[0] == t[0] && SubsequenceOf(r[1..], t[1..]) {
        RegisteredKeepsOrder(r[1..], t[1..]);
      } else {
        RegisteredKeepsOrder(r, t[1..]);
      }
    }
  }

  /** Nothing is offered once "attend appointment " has been typed. */
  lemma CompleteAttend(line: string, pos: nat)
    requires pos <= |line| && StartsWith(Typed(line, pos), ATTEND)
    ensures Complete(line, pos) == (0, [])
  {
    var typed := Typed(line, pos);
    assert typed[0] == ATTEND[0] != REGISTER[0];
    assert !StartsWith(typed, REGISTER);
  }

  /** Any other prefix: the commands that start with it, in table order,
      from offset 0. */
  lemma CompleteCommands(line: string, pos: nat)
    requires pos <= |line|
    requires |Typed(line, pos)| > 0
    requires !StartsWith(Typed(line, pos), REGISTER) && !StartsWith(Typed(line, pos), ATTEND)
    ensures var r := Complete(line, pos);
            && r.0 == 0
            && (forall c :: c in r.1 <==> c.display in COMMANDS && StartsWith(c.display, Typed(line, pos))
                                          && c.replacement == c.display)
            && SubsequenceOf(Displays(r.1), COMMANDS)
  {
    var typed := Typed(line, pos);
    var matching := Filter(COMMANDS, typed);
    var r := Complete(line, pos);
    assert r.1 == Pairs(matching);
    assert Displays(r.1) == matching;
    forall c
      ensures c in r.1 <==> c.display in COMMANDS && StartsWith(c.display, typed) && c.replacement == c.display
    {
      if c in r.1 {
        var i :| 0 <= i < |r.1| && r.1[i] == c;
        assert matching[i] in matching;
      }
      if c.display in COMMANDS && StartsWith(c.display, typed) && c.replacement == c.display {
        var i :| 0 <= i < |matching| && matching[i] == c.display;
        assert r.1[i] == c;
      }
    }
  }

  lemma CommandsDistinct()
    ensures Distinct(COMMANDS)
  {
  }

  /** The general branch agrees with any other reading of "the matching
      commands in table order". */
  lemma CompleteCommandsUnique(line: string, pos: nat, expected: seq<string>)
    requires pos <= |line|
    requires |Typed(line, pos)| > 0
    requires !StartsWith(Typed(line, pos), REGISTER) && !StartsWith(Typed(line, pos), ATTEND)
    requires SubsequenceOf(expected, COMMANDS)
    requires forall x :: x in expected <==> x in COMMANDS && StartsWith(x, Typed(line, pos))
    ensures Complete(line, pos) == (0, Pairs(expected))
  {
    CommandsDistinct();
    FilterCharacterised(COMMANDS, Typed(line, pos), expected);
  }

  /** Completion is case-insensitive: the typed text is lowered first. */
  lemma ExampleUpperCase()
    ensures Complete("COMMIT", 6) == (0, [Same("commit encounter")])
  {
    assert Typed("COMMIT", 6) == "commit";
    FilterCommandsCommit();
    FirstCharMismatch("commit", REGISTER);
    FirstCharMismatch("commit", ATTEND);
    assert Suggest("commit", 9) == (0, Pairs(["commit encounter"]));
    assert Pairs(["commit encounter"]) == [Same("commit encounter")];
    assert Complete("COMMIT", 6) == Suggest("commit", 9);
  }

  lemma FilterCommandsCommit()
    ensures Filter(COMMANDS, "commit") == ["commit encounter"]
  {
    var p := "commit";
    assert Filter(COMMANDS[9..], p) == [] by {
      assert COMMANDS[9..][1..] == [];
      assert !StartsWith(COMMANDS[9], p);
    }
    assert Filter(COMMANDS[8..], p) == [COMMANDS[8]] by {
      assert COMMANDS[8..][1..] == COMMANDS[9..];
      assert StartsWith(COMMANDS[8], p);
    }
    forall i | 0 <= i < 8
      ensures !StartsWith(COMMANDS[i], p)
    {
      FirstCharMismatch(COMMANDS[i], p);
    }
    FilterSkipAll(COMMANDS, p, 8);
  }

  lemma FirstCharMismatch(s: string, prefix: string)
    requires |s| > 0 && |prefix| > 0 && s[0] != prefix[0]
    ensures !StartsWith(s, prefix)
  {
    if |prefix| <= |s| {
      assert s[..|prefix|][0] != prefix[0];
    }
  }

  /** When none of the first `k` entries match, filtering starts at `k`. */
  lemma {:induction false} FilterSkipAll(table: seq<string>, prefix: string, k: nat)
    requires k <= |table|
    requires forall i :: 0 <= i < k ==> !StartsWith(table[i], prefix)
    ensures Filter(table, prefix) == Filter(table[k..], prefix)
    decreases k
  {
    if k > 0 {
      FilterSkipAll(table[1..], prefix, k - 1);
      assert table[1..][k - 1..] == table[k..];
    }
  }

  /** rustyline's edit after a candidate is chosen: the text from `start` to
      the cursor is replaced by the candidate's replacement. */
  function ApplyCompletion(line: string, pos: nat, start: nat, replacement: string): (r: string)
    requires start <= pos <= |line|
    ensures |r| == start + |replacement| + (|line| - pos)
    ensures r[..start] == line[..start] && r[start..] == replacement + line[pos..]
  {
    line[..start] + replacement + line[pos..]
  }

  /** As written, a `register` candidate carries the whole command but is
      placed at offset 9, so accepting it repeats the word. */
  lemma CompleteDoublesRegisterWord()
    ensures Complete("register comp", 13) == (9, [Same("register complaint")])
    ensures ApplyCompletion("register comp", 13, 9, "register complaint") == "register register complaint"
    ensures "register register complaint" !in COMMANDS
  {
    CompleteRegisterComp();
    ApplyRegisterComp();
  }

  lemma CompleteRegisterComp()
    ensures Complete("register comp", 13) == (9, [Same("register complaint")])
  {
    var typed := Typed("register comp", 13);
    assert typed == "register comp";
    assert StartsWith(typed, REGISTER);
    RegisterCompRemainder();
    FilterSectionsComp();
    RegisteredComplaint();
    assert Pairs(["register complaint"]) == [Same("register complaint")];
    assert Suggest("register comp", 9) == (9, [Same("register complaint")]);
    assert Complete("register comp", 13) == Suggest("register comp", 9);
  }

  lemma ApplyRegisterComp()
    ensures ApplyCompletion("register comp", 13, 9, "register complaint") == "register register complaint"
    ensures "register register complaint" !in COMMANDS
  {
    assert "register comp"[..9] + "register complaint" + "register comp"[13..] == "register register complaint";
  }

  lemma RegisteredComplaint()
    ensures Registered(["complaint"]) == ["register complaint"]
  {
    assert REGISTER + "complaint" == "register complaint";
  }

  lemma RegisterCompRemainder()
    ensures StripRepeated("register comp", REGISTER) == "comp"
  {
    assert StartsWith("register comp", REGISTER);
    assert "register comp"[|REGISTER|..] == "comp";
    FirstCharMismatch("comp", REGISTER);
  }

  lemma FilterSectionsComp()
    ensures Filter(SECTIONS, "comp") == ["complaint"]
  {
    FirstCharMismatch(SECTIONS[1], "comp");
    FirstCharMismatch(SECTIONS[2], "comp");
    assert Filter(SECTIONS[2..], "comp") == [] by {
      assert SECTIONS[2..][1..] == [];
    }
    assert Filter(SECTIONS[1..], "comp") == [] by {
      assert SECTIONS[1..][1..] == SECTIONS[2..];
    }
    assert StartsWith(SECTIONS[0], "comp");
  }

  /** The completer with `register` candidates placed at offset 0, so that
      the whole typed command is replaced. */
  function CompleteCorrected(line: string, pos: nat): (r: (nat, seq<Pair>))
    requires pos <= |line|
    ensures r.0 == 0
    ensures forall c :: c in r.1 ==> c.display == c.replacement
  {
    Suggest(Typed(line, pos), 0)
  }

  /** Corrected: accepting any candidate leaves a whole table entry before
      the cursor, followed by what was after it. */
  lemma CorrectedCompletesToEntry(line: string, pos: nat)
    requires pos <= |line|
    ensures forall c :: c in CompleteCorrected(line, pos).1 ==>
              var after := ApplyCompletion(line, pos, 0, c.replacement);
              && after == c.replacement + line[pos..]
              && (c.replacement in COMMANDS || c.replacement in Registered(SECTIONS))
  {
  }

  /** The corrected completer offers the same candidates as written. */
  lemma CorrectedSameCandidates(line: string, pos: nat)
    requires pos <= |line|
    ensures CompleteCorrected(line, pos).1 == Complete(line, pos).1
  {
  }

  lemma ExampleCorrectedRegister()
    ensures CompleteCorrected("register comp", 13) == (0, [Same("register complaint")])
    ensures ApplyCompletion("register comp", 13, 0, "register complaint") == "register complaint"
  {
    CompleteDoublesRegisterWord();
    CorrectedSameCandidates("register comp", 13);
  }

  /** The hint shown after the cursor, keyed on the whole line. */
  function Hint(line: string): (r: Option<string>)
    ensures r.Some? <==> line in ["fetch", "commit", "register ", "attend "]
  {
    if line == "fetch" then Some(" appointments")
    else if line == "commit" then Some(" encounter")
    else if line == "register " then Some("complaint|physical exam|diagnostic hypothesis")
    else if line == "attend " then Some("appointment <number>")
    else None
  }

  function Join(xs: seq<string>, sep: string): string
  {
    if |xs| == 0 then "" else if |xs| == 1 then xs[0] else xs[0] + sep + Join(xs[1..], sep)
  }

  /** Each hint completes its line: to a whole command for "fetch" and
      "commit", and to the numbered attend command. */
  lemma HintCompletesLine(line: string)
    requires Hint(line).Some?
    ensures line in ["fetch", "commit"] ==> line + Hint(line).value in COMMANDS
    ensures line == "attend " ==> StartsWith(line + Hint(line).value, COMMANDS[1])
  {
    if line == "fetch" {
      assert line + Hint(line).value == COMMANDS[0];
    } else if line == "commit" {
      assert line + Hint(line).value == COMMANDS[8];
    } else if line == "attend " {
      assert (line + Hint(line).value)[..|COMMANDS[1]|] == COMMANDS[1];
    }
  }

  /** The "register " hint lists the sections, in order, separated by '|'. */
  lemma HintListsSections()
    ensures Hint("register ") == Some(Join(SECTIONS, "|"))
  {
    JoinSections();
  }

  lemma JoinSections()
    ensures Join(SECTIONS, "|") == "complaint|physical exam|diagnostic hypothesis"
  {
    JoinLastSections();
    assert Join(SECTIONS, "|") == SECTIONS[0] + "|" + Join(SECTIONS[1..], "|");
    assert "complaint" + "|" + "physical exam|diagnostic hypothesis" == "complaint|physical exam|diagnostic hypothesis";
  }

  lemma JoinLastSections()
    ensures Join(SECTIONS[1..], "|") == "physical exam|diagnostic hypothesis"
  {
    assert SECTIONS[1..][1..] == ["diagnostic hypothesis"];
    assert Join(SECTIONS[1..], "|") == "physical exam" + "|" + "diagnostic hypothesis";
  }
}
