/**
 The verbose sudo listing: which entries it has, what authentication they inherit or set, and which commands they grant.
 */
module SudoPolicy {
  import opened Bytes
  import opened Paths
  import S = SerialFrame
  import O = SudoOptions

  const LF: byte := 10
  const ENTRY: bytes := Ascii("Sudoers entry:")
  const OPTIONS: bytes := Ascii("Options:")
  const COMMANDS: bytes := Ascii("Commands:")
  const MATCHING: bytes := Ascii("Matching Defaults entries for ")
  const SPECIFIC: bytes := Ascii("Runas and ") + Ascii("Command-specific defaults for ")
  const USER: bytes := Ascii("User ")
  const ALL: bytes := Ascii("ALL")
  const NO_AUTH: bytes := Ascii("!authenticate")
  const AUTH: bytes := Ascii("authenticate")
  const EXEMPT: bytes := Ascii("exempt_group")
  const NOT_EXEMPT: bytes := Ascii("!exempt_group")

  datatype Verdict = Problem | Answer(passwordless: bool)

  // ---- text helpers ----

  function TrimLeft(s: bytes): bytes {
    if s != [] && S.IsSpace(s[0]) then TrimLeft(s[1..]) else s
  }

  function TrimRight(s: bytes): bytes {
    if s != [] && S.IsSpace(s[|s| - 1]) then TrimRight(s[..|s| - 1]) else s
  }

  function TrimSpace(s: bytes): bytes {
    TrimRight(TrimLeft(s))
  }

  function Lines(output: bytes): seq<bytes> {
    var parts := Split(output, LF);
    seq(|parts|, i requires 0 <= i < |parts| => TrimSpace(parts[i]))
  }

  predicate Contains(s: bytes, word: bytes) {
    HasPrefix(s, word) || (s != [] && Contains(s[1..], word))
  }

  predicate IsHeader(line: bytes) {
    || line == ENTRY
    || (HasPrefix(line, ENTRY) && |line| > |ENTRY| &&
        (line[|ENTRY|] == 32 || line[|ENTRY|] == 9) && TrimSpace(line[|ENTRY|..]) != [])
  }

  // ---- options ----

  /** The last authentication token decides. */
  function LastAuth(tokens: seq<bytes>): Option<bool> {
    if tokens == [] then None
    else if tokens[|tokens| - 1] == NO_AUTH then Some(true)
    else if tokens[|tokens| - 1] == AUTH then Some(false)
    else LastAuth(tokens[..|tokens| - 1])
  }

  /** None: malformed. Some(None): silent about authentication. Some(Some(b)): b says that none is needed. */
  function Authentication(text: bytes): Option<Option<bool>> {
    var tokens := O.Tokens(text);
    if tokens.None? then None else Some(LastAuth(tokens.value))
  }

  method ReadAuthentication(text: bytes) returns (r: Option<Option<bool>>)
    ensures r == Authentication(text)
  {
    var tokens := O.ScanTokens(text);
    if tokens.None? { return None; }
    var auth: Option<bool> := None;
    var i := 0;
    while i < |tokens.value|
      invariant i <= |tokens.value| && auth == LastAuth(tokens.value[..i])
    {
      var option := tokens.value[i];
      assert tokens.value[..i + 1][..i] == tokens.value[..i];
      if option == NO_AUTH {
        auth := Some(true);
      } else if option == AUTH {
        auth := Some(false);
      }
      i := i + 1;
    }
    assert tokens.value[..i] == tokens.value;
    return Some(auth);
  }

  // ---- defaults ----

  datatype Section = Outside | MatchingDefaults | SpecificDefaults

  predicate IsMarker(line: bytes) {
    HasPrefix(line, MATCHING) || HasPrefix(line, SPECIFIC)
  }

  /** The section in force at line i. */
  function SectionAt(lines: seq<bytes>, i: nat): Section
    requires i <= |lines|
  {
    if i == 0 then Outside
    else
      var line := lines[i - 1];
      if HasPrefix(line, MATCHING) then MatchingDefaults
      else if HasPrefix(line, SPECIFIC) then SpecificDefaults
      else if HasPrefix(line, USER) then Outside
      else SectionAt(lines, i - 1)
  }

  /** The first header at or after line i, or the end. */
  function HeaderFrom(lines: seq<bytes>, i: nat): (e: nat)
    requires i <= |lines|
    ensures i <= e <= |lines|
    ensures e < |lines| ==> IsHeader(lines[e])
    ensures forall j :: i <= j < e ==> !IsHeader(lines[j])
    decreases |lines| - i
  {
    if i == |lines| || IsHeader(lines[i]) then i else HeaderFrom(lines, i + 1)
  }

  /** Line i carries default options. */
  predicate IsDefault(lines: seq<bytes>, i: nat)
    requires i < |lines|
  {
    !IsMarker(lines[i]) && SectionAt(lines, i) != Outside && lines[i] != [] && !HasPrefix(lines[i], USER)
  }

  predicate ExemptProblem(line: bytes) {
    var options := Split(line, 44);
    exists i :: 0 <= i < |options| && Contains(TrimSpace(options[i]), EXEMPT) && TrimSpace(options[i]) != NOT_EXEMPT
  }

  predicate DefaultOk(lines: seq<bytes>, i: nat)
    requires i < |lines|
  {
    IsDefault(lines, i) ==>
      && Authentication(lines[i]).Some?
      && (SectionAt(lines, i).SpecificDefaults? ==> Authentication(lines[i]).value.None?)
      && !ExemptProblem(lines[i])
  }

  predicate DefaultSets(lines: seq<bytes>, i: nat, b: bool)
    requires i < |lines|
  {
    IsDefault(lines, i) && Authentication(lines[i]) == Some(Some(b))
  }

  /** The last default before the first entry decides; without one, authentication is needed. */
  function Inherited(lines: seq<bytes>, n: nat): bool
    requires n <= |lines|
  {
    if n == 0 then false
    else if DefaultSets(lines, n - 1, true) then true
    else if DefaultSets(lines, n - 1, false) then false
    else Inherited(lines, n - 1)
  }

  lemma {:induction false} InheritedMeaning(lines: seq<bytes>, n: nat)
    requires n <= |lines|
    ensures Inherited(lines, n) <==>
            exists k :: 0 <= k < n && DefaultSets(lines, k, true) && forall j :: k < j < n ==> !DefaultSets(lines, j, false)
  {
    hide IsDefault, Authentication;
    if n > 0 {
      InheritedMeaning(lines, n - 1);
      if k :| 0 <= k < n - 1 && DefaultSets(lines, k, true) && forall j :: k < j < n - 1 ==> !DefaultSets(lines, j, false) {
        assert !DefaultSets(lines, n - 1, false) ==> forall j :: k < j < n ==> !DefaultSets(lines, j, false);
      }
    }
  }

  method ReadDefaults(lines: seq<bytes>) returns (r: Option<bool>)
    ensures r.Some? <==> forall i :: 0 <= i < HeaderFrom(lines, 0) ==> DefaultOk(lines, i)
    ensures r.Some? ==> r.value == Inherited(lines, HeaderFrom(lines, 0))
  {
    hide IsHeader, Authentication, ExemptProblem, HasPrefix;
    ghost var stop := HeaderFrom(lines, 0);
    var section, inherited := Outside, false;
    var i := 0;
    while i < |lines| && !IsHeader(lines[i])
      invariant i <= stop
      invariant section == SectionAt(lines, i) && inherited == Inherited(lines, i)
      invariant forall j :: 0 <= j < i ==> DefaultOk(lines, j)
      decreases |lines| - i
    {
      var line := lines[i];
      if HasPrefix(line, MATCHING) {
        section := MatchingDefaults;
      } else if HasPrefix(line, SPECIFIC) {
        section := SpecificDefaults;
      } else if section == Outside || line == [] {
      } else if HasPrefix(line, USER) {
        section := Outside;
      } else {
        var auth := ReadAuthentication(line);
        if auth.None? || (auth.value.Some? && section.SpecificDefaults?) || ExemptProblem(line) {
          assert !DefaultOk(lines, i);
          return None;
        }
        if auth.value.Some? { inherited := auth.value.value; }
      }
      SectionStep(lines, i);
      i := i + 1;
    }
    return Some(inherited);
  }

  lemma SectionStep(lines: seq<bytes>, i: nat)
    requires i < |lines|
    ensures lines[i] == [] ==> !IsMarker(lines[i]) && !HasPrefix(lines[i], USER)
  {
    MarkersNonEmpty();
  }

  lemma MarkersNonEmpty()
    ensures |MATCHING| > 0 && |SPECIFIC| > 0 && |USER| > 0
  {
  }

  // ---- commands ----

  predicate ContainsAny(s: bytes, chars: bytes) {
    exists i :: 0 <= i < |s| && s[i] in chars
  }

  /** The directory part of a clean path. */
  function Dir(path: bytes): bytes {
    if Parent(path).None? then [DOT] else if Parent(path).value == [] then [SLASH] else Parent(path).value
  }

  function CommandMatch(line: bytes, target: bytes): Verdict {
    var words := S.Words(line, []);
    if words == [] then Problem
    else if exists i :: 1 <= i < |words| && ContainsAny(words[i], Ascii("'\\\"")) then Problem
    else
      var command := words[0];
      if command == ALL then (if |words| != 1 then Problem else Answer(true))
      else if !HasPrefix(command, [SLASH]) then Problem
      else if ContainsAny(command, Ascii("*?[]!^$\\")) then Problem
      else if command == target then Answer(true)
      else if command[|command| - 1] == SLASH then
        (if |words| != 1 then Problem else Answer(Dir(target) == command[..|command| - 1]))
      else Answer(false)
  }

  /** command names the directory that holds target. */
  predicate DirectoryOf(command: bytes, target: bytes) {
    command != [] && command[|command| - 1] == SLASH && HasPrefix(target, command) && SLASH !in target[|command|..]
  }

  /** A command line grants target: everything, the program itself with any arguments, or its directory. */
  predicate Lists(line: bytes, target: bytes) {
    var words := S.Words(line, []);
    words != [] && (words == [ALL] || words[0] == target || (|words| == 1 && DirectoryOf(words[0], target)))
  }

  lemma InDirectory(p: bytes, target: bytes)
    requires DirectoryOf(p + [SLASH], target)
    ensures Parent(target) == Some(p)
  {
    var base := target[|p| + 1..];
    assert target == p + [SLASH] + base;
    ParentOfChild(p, base);
  }

  lemma ItsDirectory(p: bytes, target: bytes)
    requires Parent(target) == Some(p)
    ensures DirectoryOf(p + [SLASH], target)
  {
    assert target[..|p| + 1] == p + [SLASH];
  }

  lemma DirectoryMeaning(command: bytes, target: bytes)
    requires command != [] && command[0] == SLASH && command[|command| - 1] == SLASH && Parent(target) != Some([])
    ensures Dir(target) == command[..|command| - 1] <==> DirectoryOf(command, target)
  {
    hide Parent, DirectoryOf;
    var p := command[..|command| - 1];
    assert command == p + [SLASH];
    assert p != [DOT];
    if DirectoryOf(command, target) { InDirectory(p, target); }
    if Parent(target) == Some(p) { ItsDirectory(p, target); }
  }

  /** Whatever the matcher answers is right, unless the target lies directly in the root directory. */
  lemma MatchMeaning(line: bytes, target: bytes)
    requires Parent(target) != Some([]) && CommandMatch(line, target).Answer?
    ensures CommandMatch(line, target).passwordless <==> Lists(line, target)
  {
    hide ContainsAny, ALL, S.Words;
    var words := S.Words(line, []);
    var command := words[0];
    AllIsNoPath();
    if command != ALL && command != target && command[|command| - 1] == SLASH {
      DirectoryMeaning(command, target);
    }
  }

  lemma AllIsNoPath()
    ensures |ALL| == 3 && ALL[0] != SLASH && ALL[2] != SLASH
  {
  }

  /** A program directly in the root directory is missed when its directory is listed. */
  lemma RootDirectoryMissed(base: bytes)
    requires base != [] && SLASH !in base
    ensures CommandMatch([SLASH], [SLASH] + base) == Answer(false) && Lists([SLASH], [SLASH] + base)
  {
    var target := [SLASH] + base;
    assert target == [] + [SLASH] + base;
    ParentOfChild([], base);
    S.WordRun([SLASH], [], []);
    assert S.Words([SLASH], []) == [[SLASH]] by { assert [SLASH][1..] == []; }
    AllIsNoPath();
    assert target[1..] == base;
    SlashPlain();
  }

  lemma SlashPlain()
    ensures !ContainsAny([SLASH], Ascii("*?[]!^$\\"))
  {
  }

  /** So the matcher is right about every line exactly for targets outside the root directory. */
  lemma MatcherExactly(target: bytes)
    requires HasPrefix(target, [SLASH]) && |target| > 1
    ensures (forall line :: CommandMatch(line, target).Answer? ==>
               (CommandMatch(line, target).passwordless <==> Lists(line, target)))
       <==> Parent(target) != Some([])
  {
    if Parent(target) == Some([]) {
      var base := target[1..];
      assert target == [SLASH] + base;
      RootDirectoryMissed(base);
    } else {
      forall line | CommandMatch(line, target).Answer? ensures CommandMatch(line, target).passwordless <==> Lists(line, target) {
        MatchMeaning(line, target);
      }
    }
  }
}
