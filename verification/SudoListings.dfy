/** Whole sudo listings: one entry that sets its option, and one that inherits it, with the answers they get. */
module SudoListings {
  import opened Bytes
  import opened Paths
  import opened SudoPolicy
  import opened SudoParser
  import opened SudoMeaning
  import O = SudoOptions
  import S = SerialFrame

  /** An absolute path of letters, digits, dots, underscores and hyphens, below some directory and not ending in a slash. */
  predicate PlainTarget(t: bytes) {
    && |t| >= 2 && t[0] == 47 && t[|t| - 1] != 47 && Parent(t) != Some([])
    && forall i :: 0 <= i < |t| ==>
         t[i] == 47 || 48 <= t[i] <= 57 || 65 <= t[i] <= 90 || 97 <= t[i] <= 122 || t[i] == 45 || t[i] == 46 || t[i] == 95
  }

  predicate IsOption(o: bytes) {
    o == Ascii("!authenticate") || o == Ascii("authenticate")
  }

  // ---- lines ----

  lemma {:induction false} TrimmedAlready(s: bytes)
    requires s != [] && !S.IsSpace(s[0]) && !S.IsSpace(s[|s| - 1])
    ensures TrimSpace(s) == s && TrimSpace([32] + s) == s
  {
    assert TrimRight(s) == s && TrimLeft(s) == s;
    assert ([32] + s)[1..] == s;
  }

  /** A line that neither starts nor ends with white space and holds no line break. */
  predicate Tidy(line: bytes) {
    line != [] && !S.IsSpace(line[0]) && !S.IsSpace(line[|line| - 1]) && 10 !in line
  }

  lemma LinesOfJoin(lines: seq<bytes>)
    requires |lines| >= 1 && forall i :: 0 <= i < |lines| ==> Tidy(lines[i])
    ensures Lines(Join(lines, 10)) == lines
  {
    hide Split, Join, TrimSpace;
    assert forall i :: 0 <= i < |lines| ==> Tidy(lines[i]) && 10 !in lines[i];
    SplitJoin(lines, 10);
    forall i | 0 <= i < |lines| ensures TrimSpace(lines[i]) == lines[i] { TrimmedAlready(lines[i]); }
  }

  /** The keywords begin with different letters. */
  lemma Keywords()
    ensures Ascii("Sudoers entry:") == ENTRY && |ENTRY| == 14 && ENTRY[0] == 83
    ensures Ascii("Options: ") == OPTIONS + [32] && |OPTIONS| == 8 && OPTIONS[0] == 79
    ensures Ascii("Commands:") == COMMANDS && |COMMANDS| == 9 && COMMANDS[0] == 67
    ensures Tidy(ENTRY) && Tidy(COMMANDS)
  {
    assert Ascii("Sudoers entry:")[13] == 58;
  }

  lemma NotAHeader(line: bytes)
    requires line != [] && line[0] != 83
    ensures !IsHeader(line)
  {
    hide ENTRY, TrimSpace;
    Keywords();
  }

  lemma OptionText(o: bytes)
    requires IsOption(o)
    ensures OrdinaryWord(o) && Tidy(o) && Authentication(o) == Some(Some(o == Ascii("!authenticate")))
  {
    OptionBytes();
    OneToken(o);
    TextsDiffer();
    var v := [o];
    LastAuthExactly(v);
    assert LastSays(v, 0, o);
  }

  lemma OptionBytes()
    ensures OrdinaryWord(Ascii("!authenticate")) && OrdinaryWord(Ascii("authenticate"))
    ensures Tidy(Ascii("!authenticate")) && Tidy(Ascii("authenticate"))
  {
    NegatedBytes();
    PlainBytes();
  }

  lemma NegatedBytes()
    ensures OrdinaryWord(Ascii("!authenticate")) && Tidy(Ascii("!authenticate"))
  {
  }

  lemma PlainBytes()
    ensures OrdinaryWord(Ascii("authenticate")) && Tidy(Ascii("authenticate"))
  {
  }

  /** The line that sets an option. */
  lemma OptionLine(o: bytes)
    requires IsOption(o)
    ensures var line := Ascii("Options: ") + o;
      && Tidy(line) && line[0] == 79 && HasPrefix(line, OPTIONS) && TrimSpace(line[|OPTIONS|..]) == o
      && OptionSetting(line) == Some(o == Ascii("!authenticate"))
  {
    hide Ascii, Authentication, TrimSpace;
    Keywords();
    OptionText(o);
    OptionSpaces();
    var line := Ascii("Options: ") + o;
    assert line == OPTIONS + ([32] + o);
    assert line[..|OPTIONS|] == OPTIONS && line[|OPTIONS|..] == [32] + o;
    TrimmedAlready(o);
  }

  lemma OptionSpaces()
    ensures 10 !in OPTIONS && !S.IsSpace(79)
  {
  }

  lemma CommandLine(t: bytes)
    requires PlainTarget(t)
    ensures Tidy(t) && t[0] == 47 && 44 !in t && CommandMatch(t, t) == Answer(true) && Lists(t, t)
  {
    OneWord(t);
    AllIsNoPath();
    PatternBytes(t);
    hide Ascii, ALL, S.Words, HasPattern;
    assert !HasPattern(t);
  }

  lemma OneWord(t: bytes)
    requires PlainTarget(t)
    ensures S.Words(t, []) == [t]
  {
    hide Ascii;
    assert S.NoSpaces(t);
    S.WordRun(t, [], []);
    var empty: bytes := [];
    assert t + empty == t && empty + t == t;
  }

  // ---- an entry that sets its option ----

  function OwnOption(o: bytes, t: bytes): seq<bytes> {
    [Ascii("Sudoers entry:"), Ascii("Options: ") + o, Ascii("Commands:"), t]
  }

  /** What the parser makes of these lines. */
  ghost predicate Reads(lines: seq<bytes>, t: bytes, noAuth: bool) {
    && DefaultsOk(lines) && EntriesOk(lines) && CommandsReadable(lines, t)
    && ((exists h, c :: Grants(lines, h, c, t)) <==> noAuth)
  }

  lemma OwnShape(o: bytes, t: bytes)
    requires IsOption(o) && PlainTarget(t)
    ensures var l := OwnOption(o, t);
      && (forall i :: 0 <= i < 4 ==> Tidy(l[i]))
      && IsHeader(l[0]) && !IsHeader(l[1]) && !IsHeader(l[2]) && !IsHeader(l[3])
      && OptionSetting(l[1]) == Some(o == Ascii("!authenticate")) && OptionSetting(l[2]).None? && OptionSetting(l[3]).None?
      && l[2] == COMMANDS && l[1] != COMMANDS && l[3] != COMMANDS
      && HasPrefix(l[1], OPTIONS) && !HasPrefix(l[3], OPTIONS) && !HasPrefix(l[2], OPTIONS)
      && Authentication(TrimSpace(l[1][|OPTIONS|..])).Some?
  {
    hide Ascii, ENTRY, OPTIONS, COMMANDS, Authentication, TrimSpace, PlainTarget;
    Keywords();
    OptionLine(o);
    OptionText(o);
    CommandLine(t);
    var l := OwnOption(o, t);
    NotAHeader(l[1]);
    NotAHeader(l[2]);
    NotAHeader(l[3]);
  }

  lemma OwnEnds(o: bytes, t: bytes)
    requires IsOption(o) && PlainTarget(t)
    ensures var l := OwnOption(o, t);
      && |l| == 4 && HeaderFrom(l, 0) == 0 && EndOf(l, 0) == 4 && !InheritedBy(l) && DefaultsOk(l)
      && !Started(l, 0, 1) && !Started(l, 0, 2) && Started(l, 0, 3) && Started(l, 0, 4)
  {
    hide IsHeader, Tidy, OptionSetting, HasPrefix, Authentication, TrimSpace, COMMANDS, OPTIONS;
    OwnShape(o, t);
    var l := OwnOption(o, t);
    assert HeaderFrom(l, 4) == 4 && HeaderFrom(l, 3) == 4 && HeaderFrom(l, 2) == 4 && HeaderFrom(l, 1) == 4;
  }

  lemma OwnEntry(o: bytes, t: bytes)
    requires IsOption(o) && PlainTarget(t)
    ensures var l := OwnOption(o, t);
      && EntryOk(l, 0, 4)
      && (forall c: nat :: CommandOf(l, 0, 4, c) <==> c == 3)
      && (NoAuthentication(l, 0, 4, false) <==> o == Ascii("!authenticate"))
  {
    hide IsHeader, Tidy, OptionSetting, HasPrefix, Authentication, TrimSpace, COMMANDS, OPTIONS, OwnOption, Started, Ascii;
    OwnShape(o, t);
    OwnEnds(o, t);
    CommandLine(t);
    var l := OwnOption(o, t);
    assert l[3] == t && l[1] != [] && l[2] != [] by { OwnLast(o, t); }
    assert CommandsIn(l, 0, 4) == CommandsIn(l, 0, 3) + [l[3]];
    forall i | 0 < i < 4 ensures LineOk(l, 0, i) { }
    forall c: nat ensures CommandOf(l, 0, 4, c) <==> c == 3 { assert c == 1 || c == 2 || c == 3 || c == 0 || c >= 4; }
    if o == Ascii("!authenticate") {
      assert NoneSets(l, 1, 4);
      assert LastSets(l, 0, 4, true);
    } else {
      forall k | 0 < k < 4 ensures OptionSetting(l[k]) != Some(true) { }
    }
  }

  lemma OwnLast(o: bytes, t: bytes)
    requires IsOption(o)
    ensures var l := OwnOption(o, t); l[3] == t && l[1] != [] && l[2] != []
  {
    hide Ascii;
    Keywords();
    OptionLine(o);
  }

  /** All headers of the lines are one, and its entry is given. */
  lemma OneEntryReads(l: seq<bytes>, h: nat, c: nat, t: bytes, noAuth: bool)
    requires PlainTarget(t) && h < c < |l| && l[c] == t && DefaultsOk(l)
    requires IsHeader(l[h]) && (forall i :: 0 <= i < |l| && i != h ==> !IsHeader(l[i]))
    requires EndOf(l, h) == |l| && EntryOk(l, h, |l|) && forall k: nat :: CommandOf(l, h, |l|, k) <==> k == c
    requires NoAuthentication(l, h, |l|, InheritedBy(l)) <==> noAuth
    ensures Reads(l, t, noAuth)
  {
    hide IsHeader, EntryOk, NoAuthentication, Lists, CommandMatch, InheritedBy, EndOf, CommandOf;
    CommandLine(t);
    if noAuth {
      assert Unauthenticated(l, h, c);
      assert Grants(l, h, c, t);
    }
  }

  lemma OwnReads(o: bytes, t: bytes)
    requires IsOption(o) && PlainTarget(t)
    ensures Reads(OwnOption(o, t), t, o == Ascii("!authenticate"))
  {
    hide IsHeader, EntryOk, NoAuthentication, InheritedBy, EndOf, CommandOf, OwnOption, Tidy, OptionSetting, HasPrefix, Ascii,
         Authentication, DefaultsOk, Reads;
    OwnShape(o, t);
    OwnEnds(o, t);
    OwnEntry(o, t);
    OwnLast(o, t);
    OneEntryReads(OwnOption(o, t), 0, 3, t, o == Ascii("!authenticate"));
  }

  method Judge(lines: seq<bytes>, t: bytes, ghost noAuth: bool) returns (r: Verdict)
    requires PlainTarget(t) && |lines| >= 1 && (forall i :: 0 <= i < |lines| ==> Tidy(lines[i])) && Reads(lines, t, noAuth)
    ensures r == Answer(noAuth)
  {
    hide Tidy, DefaultsOk, EntriesOk, CommandsReadable, Grants, Lines;
    LinesOfJoin(lines);
    r := ParsePasswordlessRule(Join(lines, 10), t);
  }

  /** An entry with its own option answers passwordless exactly for !authenticate. */
  method JudgeOwnOption(o: bytes, t: bytes) returns (r: Verdict)
    requires IsOption(o) && PlainTarget(t)
    ensures r == Answer(o == Ascii("!authenticate"))
  {
    hide Tidy, Reads, PlainTarget, Ascii;
    OwnShape(o, t);
    OwnReads(o, t);
    r := Judge(OwnOption(o, t), t, o == Ascii("!authenticate"));
  }

  // ---- an entry that inherits its option ----

  function Inheriting(o: bytes, t: bytes): seq<bytes> {
    [Ascii("Matching Defaults entries for u:"), o, Ascii("User u:"), Ascii("Sudoers entry:"), Ascii("Commands:"), t]
  }

  lemma {:induction false} ContainsByte(s: bytes, w: bytes, i: nat)
    requires Contains(s, w) && i < |w|
    ensures w[i] in s
    decreases |s|
  {
    if HasPrefix(s, w) {
      assert s[i] == s[..|w|][i] == w[i];
    } else {
      ContainsByte(s[1..], w, i);
    }
  }

  /** Neither option speaks of an exempt group, for want of the letter x. */
  lemma NoExemption(o: bytes)
    requires IsOption(o)
    ensures !ExemptProblem(o)
  {
    hide TrimSpace;
    OptionText(o);
    ExemptLetter();
    assert 44 !in o && 120 !in o by { OptionLetters(); }
    assert Split(o, 44) == [o];
    TrimmedAlready(o);
    if Contains(o, EXEMPT) { ContainsByte(o, EXEMPT, 1); }
  }

  lemma ExemptLetter()
    ensures |EXEMPT| == 12 && EXEMPT[1] == 120
  {
  }

  lemma OptionLetters()
    ensures 44 !in Ascii("!authenticate") && 120 !in Ascii("!authenticate")
    ensures 44 !in Ascii("authenticate") && 120 !in Ascii("authenticate")
  {
  }

  lemma DefaultLines()
    ensures var d, u := Ascii("Matching Defaults entries for u:"), Ascii("User u:");
      && Tidy(d) && Tidy(u) && d[0] == 77 && u[0] == 85
      && HasPrefix(d, MATCHING) && HasPrefix(u, USER)
    ensures |MATCHING| > 0 && MATCHING[0] == 77 && |SPECIFIC| > 0 && SPECIFIC[0] == 82 && |USER| > 0 && USER[0] == 85
  {
    MatchingLine();
    UserLine();
    SpecificStart();
  }

  lemma SpecificStart()
    ensures |SPECIFIC| == 40 && SPECIFIC[0] == 82
  {
    assert Ascii("Runas and ")[0] == 82;
  }

  lemma MatchingLine()
    ensures var d := Ascii("Matching Defaults entries for u:");
      Tidy(d) && d[0] == 77 && HasPrefix(d, MATCHING) && MATCHING[0] == 77
  {
    var d := Ascii("Matching Defaults entries for u:");
    assert |d| == 32 && d[31] == 58;
    assert d[..30] == MATCHING;
  }

  lemma UserLine()
    ensures var u := Ascii("User u:"); Tidy(u) && u[0] == 85 && HasPrefix(u, USER) && USER[0] == 85
  {
    var u := Ascii("User u:");
    assert u[..5] == USER;
  }

  lemma InheritingShape(o: bytes, t: bytes)
    requires IsOption(o) && PlainTarget(t)
    ensures var l := Inheriting(o, t);
      && (forall i :: 0 <= i < 6 ==> Tidy(l[i]))
      && IsHeader(l[3]) && (forall i :: 0 <= i < 6 && i != 3 ==> !IsHeader(l[i]))
      && l[4] == COMMANDS && l[5] == t && l[5] != COMMANDS && OptionSetting(l[4]).None? && OptionSetting(l[5]).None?
      && !HasPrefix(l[4], OPTIONS) && !HasPrefix(l[5], OPTIONS)
  {
    hide Ascii, ENTRY, OPTIONS, COMMANDS, MATCHING, SPECIFIC, USER, Authentication, TrimSpace, PlainTarget, Tidy;
    Keywords();
    DefaultLines();
    OptionText(o);
    OptionStart(o);
    CommandLine(t);
    var l := Inheriting(o, t);
    forall i | 0 <= i < 6 && i != 3 ensures !IsHeader(l[i]) { NotAHeader(l[i]); }
  }

  lemma OptionStart(o: bytes)
    requires IsOption(o)
    ensures o != [] && (o[0] == 33 || o[0] == 97)
  {
  }

  lemma InheritingDefaults(o: bytes, t: bytes)
    requires IsOption(o) && PlainTarget(t)
    ensures var l := Inheriting(o, t);
      HeaderFrom(l, 0) == 3 && DefaultsOk(l) && (InheritedBy(l) <==> o == Ascii("!authenticate"))
  {
    hide Ascii, ENTRY, OPTIONS, COMMANDS, MATCHING, SPECIFIC, USER, Authentication, TrimSpace, PlainTarget, Tidy,
         IsHeader, ExemptProblem;
    InheritingShape(o, t);
    DefaultLines();
    OptionText(o);
    OptionStart(o);
    NoExemption(o);
    var l := Inheriting(o, t);
    assert HeaderFrom(l, 3) == 3 && HeaderFrom(l, 2) == 3 && HeaderFrom(l, 1) == 3;
    assert SectionAt(l, 0) == Outside && SectionAt(l, 1) == MatchingDefaults && SectionAt(l, 2) == MatchingDefaults;
    assert !IsDefault(l, 0) && IsDefault(l, 1) && !IsDefault(l, 2);
    assert Inherited(l, 1) == false;
    assert Inherited(l, 2) == (o == Ascii("!authenticate"));
    assert Inherited(l, 3) == Inherited(l, 2);
  }

  lemma InheritingEntry(o: bytes, t: bytes)
    requires IsOption(o) && PlainTarget(t)
    ensures var l := Inheriting(o, t);
      && EndOf(l, 3) == 6 && EntryOk(l, 3, 6)
      && (forall c: nat :: CommandOf(l, 3, 6, c) <==> c == 5)
      && (forall b :: NoAuthentication(l, 3, 6, b) <==> b)
  {
    hide IsHeader, Tidy, OptionSetting, HasPrefix, Authentication, TrimSpace, COMMANDS, OPTIONS, Ascii;
    InheritingShape(o, t);
    CommandLine(t);
    var l := Inheriting(o, t);
    assert HeaderFrom(l, 6) == 6 && HeaderFrom(l, 5) == 6 && HeaderFrom(l, 4) == 6;
    assert !Started(l, 3, 4) && Started(l, 3, 5) && Started(l, 3, 6);
    assert CommandsIn(l, 3, 6) == CommandsIn(l, 3, 5) + [l[5]];
    forall i | 3 < i < 6 ensures LineOk(l, 3, i) { }
    forall c: nat ensures CommandOf(l, 3, 6, c) <==> c == 5 { }
    assert NoneSets(l, 3, 6);
  }

  lemma InheritingReads(o: bytes, t: bytes)
    requires IsOption(o) && PlainTarget(t)
    ensures Reads(Inheriting(o, t), t, o == Ascii("!authenticate"))
  {
    hide IsHeader, EntryOk, NoAuthentication, InheritedBy, EndOf, CommandOf, Inheriting, Tidy, OptionSetting, HasPrefix, Ascii,
         Authentication, DefaultsOk, Reads;
    InheritingShape(o, t);
    InheritingDefaults(o, t);
    InheritingEntry(o, t);
    assert |Inheriting(o, t)| == 6 by { InheritingSize(o, t); }
    OneEntryReads(Inheriting(o, t), 3, 5, t, o == Ascii("!authenticate"));
  }

  lemma InheritingSize(o: bytes, t: bytes)
    ensures |Inheriting(o, t)| == 6
  {
  }

  /** An entry without an option answers as the matching defaults say. */
  method JudgeInherited(o: bytes, t: bytes) returns (r: Verdict)
    requires IsOption(o) && PlainTarget(t)
    ensures r == Answer(o == Ascii("!authenticate"))
  {
    hide Tidy, Reads, PlainTarget, Ascii;
    InheritingShape(o, t);
    InheritingReads(o, t);
    r := Judge(Inheriting(o, t), t, o == Ascii("!authenticate"));
  }

  // ---- defaults that are refused ----

  lemma HeadingLines(user: bytes)
    ensures var m := Ascii("Matching Defaults entries for ") + user; m[0] == 77 && HasPrefix(m, MATCHING)
    ensures var d := Ascii("Runas and ") + Ascii("Command-specific defaults for ") + user; d[0] == 82 && HasPrefix(d, SPECIFIC)
  {
    DefaultLines();
    hide Ascii;
  }

  /** For any user, command-specific defaults about authentication are refused, and so is an exempt group. */
  lemma DefaultsRefused(user: bytes, o: bytes, rest: seq<bytes>)
    requires IsOption(o)
    ensures !DefaultsOk([Ascii("Runas and ") + Ascii("Command-specific defaults for ") + user, o] + rest)
    ensures !DefaultsOk([Ascii("Matching Defaults entries for ") + user, Ascii("exempt_group=admin")] + rest)
  {
    SpecificRefused(user, o, rest);
    ExemptRefused(user, rest);
  }

  lemma SpecificRefused(user: bytes, o: bytes, rest: seq<bytes>)
    requires IsOption(o)
    ensures !DefaultsOk([Ascii("Runas and ") + Ascii("Command-specific defaults for ") + user, o] + rest)
  {
    hide Ascii, ENTRY, MATCHING, SPECIFIC, USER, Authentication, TrimSpace, IsHeader, ExemptProblem;
    var l := [Ascii("Runas and ") + Ascii("Command-specific defaults for ") + user, o] + rest;
    HeadingLines(user);
    DefaultLines();
    OptionText(o);
    OptionStart(o);
    NotAHeader(l[0]);
    NotAHeader(l[1]);
    assert HeaderFrom(l, 0) >= 2;
    assert SectionAt(l, 0) == Outside && SectionAt(l, 1) == SpecificDefaults;
    assert IsDefault(l, 1) && !DefaultOk(l, 1);
  }

  lemma ExemptRefused(user: bytes, rest: seq<bytes>)
    ensures !DefaultsOk([Ascii("Matching Defaults entries for ") + user, Ascii("exempt_group=admin")] + rest)
  {
    hide Ascii, ENTRY, MATCHING, SPECIFIC, USER, Authentication, TrimSpace, IsHeader, ExemptProblem;
    var l := [Ascii("Matching Defaults entries for ") + user, Ascii("exempt_group=admin")] + rest;
    HeadingLines(user);
    DefaultLines();
    ExemptText();
    NotAHeader(l[0]);
    NotAHeader(l[1]);
    assert HeaderFrom(l, 0) >= 2;
    assert SectionAt(l, 0) == Outside && SectionAt(l, 1) == MatchingDefaults;
    assert IsDefault(l, 1) && !DefaultOk(l, 1);
  }

  lemma ExemptText()
    ensures var x := Ascii("exempt_group=admin"); x != [] && x[0] == 101 && ExemptProblem(x)
  {
    hide TrimSpace;
    var x := Ascii("exempt_group=admin");
    assert |x| == 18 && x[0] == 101 && x[17] == 110;
    assert 44 !in x;
    assert Split(x, 44) == [x];
    TrimmedAlready(x);
    assert x[..12] == EXEMPT;
    assert |NOT_EXEMPT| == 13;
    assert Contains(x, EXEMPT);
    assert [x][0] == x;
  }
}
