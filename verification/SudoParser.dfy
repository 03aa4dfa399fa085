/** The parser of the verbose sudo listing, and its agreement with a declarative reading of the entries. */
module SudoParser {
  import opened Bytes
  import opened Paths
  import opened SudoPolicy

  datatype Stanza = Stanza(noAuth: bool, commands: seq<bytes>)

  // ---- the declarative reading ----

  /** What an entry line sets about authentication, if it is an option line that does. */
  function OptionSetting(line: bytes): Option<bool> {
    if !HasPrefix(line, OPTIONS) then None
    else
      var auth := Authentication(TrimSpace(line[|OPTIONS|..]));
      if auth.None? then None else auth.value
  }

  /** Lines after h and before e set b last. */
  predicate LastSets(lines: seq<bytes>, h: nat, e: nat, b: bool) {
    exists k :: h < k < e <= |lines| && OptionSetting(lines[k]) == Some(b) && NoneSets(lines, k, e)
  }

  predicate NoneSets(lines: seq<bytes>, h: nat, e: nat) {
    forall j :: h < j < e && j < |lines| ==> OptionSetting(lines[j]).None?
  }

  /** The effective option of the entry at h: the last one set in it, or the inherited one. */
  predicate NoAuthentication(lines: seq<bytes>, h: nat, e: nat, inherited: bool) {
    LastSets(lines, h, e, true) || (inherited && NoneSets(lines, h, e))
  }

  predicate Started(lines: seq<bytes>, h: nat, k: nat) {
    exists j :: h < j < k && j < |lines| && lines[j] == COMMANDS
  }

  /** Line c is a command of the entry at h, which ends before e. */
  predicate CommandOf(lines: seq<bytes>, h: nat, e: nat, c: nat) {
    h < c < e <= |lines| && Started(lines, h, c) && lines[c] != []
  }

  function EndOf(lines: seq<bytes>, h: nat): nat
    requires h < |lines|
  {
    HeaderFrom(lines, h + 1)
  }

  function InheritedBy(lines: seq<bytes>): bool {
    Inherited(lines, HeaderFrom(lines, 0))
  }

  /** The entry at h needs no authentication and its command at line c covers target. */
  predicate Grants(lines: seq<bytes>, h: nat, c: nat, target: bytes) {
    Unauthenticated(lines, h, c) && Lists(lines[c], target)
  }

  // ---- well-formed entries ----

  /** Line i may stand in the entry at h. */
  predicate LineOk(lines: seq<bytes>, h: nat, i: nat)
    requires i < |lines|
  {
    var line, started := lines[i], Started(lines, h, i);
    || line == []
    || (if HasPrefix(line, OPTIONS) then !started && Authentication(TrimSpace(line[|OPTIONS|..])).Some?
        else if line == COMMANDS then !started
        else if started then 44 !in line
        else 58 in line)
  }

  /** The lines of the entry at h up to line e are in order. */
  predicate LinesOk(lines: seq<bytes>, h: nat, e: nat) {
    forall i :: h < i < e && i < |lines| ==> LineOk(lines, h, i)
  }

  /** The entry at h ends before e with at least one command. */
  predicate EntryOk(lines: seq<bytes>, h: nat, e: nat) {
    h < e <= |lines| && LinesOk(lines, h, e) && Started(lines, h, e) && CommandsIn(lines, h, e) != []
  }

  /** There is an entry, and every entry is in order. */
  ghost predicate EntriesOk(lines: seq<bytes>) {
    && (exists h :: 0 <= h < |lines| && IsHeader(lines[h]))
    && (forall h :: 0 <= h < |lines| && IsHeader(lines[h]) ==> EntryOk(lines, h, EndOf(lines, h)))
  }

  ghost predicate DefaultsOk(lines: seq<bytes>) {
    forall i :: 0 <= i < HeaderFrom(lines, 0) ==> DefaultOk(lines, i)
  }

  /** Line c is a command of the entry at h, which needs no authentication. */
  predicate Unauthenticated(lines: seq<bytes>, h: nat, c: nat) {
    && h < |lines| && IsHeader(lines[h]) && CommandOf(lines, h, EndOf(lines, h), c)
    && NoAuthentication(lines, h, EndOf(lines, h), InheritedBy(lines))
  }

  /** Every command of an entry without authentication is one the matcher understands. */
  ghost predicate CommandsReadable(lines: seq<bytes>, target: bytes) {
    forall h: nat, c: nat :: Unauthenticated(lines, h, c) ==> CommandMatch(lines[c], target).Answer?
  }

  // ---- the reading as it accumulates ----

  function Effective(lines: seq<bytes>, h: nat, k: nat, inherited: bool): bool
    requires h < k <= |lines|
  {
    if k == h + 1 then inherited
    else if OptionSetting(lines[k - 1]).Some? then OptionSetting(lines[k - 1]).value
    else Effective(lines, h, k - 1, inherited)
  }

  function CommandsIn(lines: seq<bytes>, h: nat, k: nat): seq<bytes>
    requires h < k <= |lines|
  {
    if k == h + 1 then []
    else CommandsIn(lines, h, k - 1) + if lines[k - 1] != [] && Started(lines, h, k - 1) then [lines[k - 1]] else []
  }

  lemma {:induction false} EffectiveMeaning(lines: seq<bytes>, h: nat, k: nat, inherited: bool)
    requires h < k <= |lines|
    ensures Effective(lines, h, k, inherited) <==> NoAuthentication(lines, h, k, inherited)
  {
    hide OptionSetting;
    if k > h + 1 {
      EffectiveMeaning(lines, h, k - 1, inherited);
      var last := OptionSetting(lines[k - 1]);
      if last.Some? {
        assert NoneSets(lines, k - 1, k);
        assert LastSets(lines, h, k, last.value);
        if b :| b != last.value && LastSets(lines, h, k, b) {
          var j :| h < j < k && OptionSetting(lines[j]) == Some(b) && NoneSets(lines, j, k);
        }
      } else {
        SilentLine(lines, h, k);
      }
    }
  }

  lemma SilentLine(lines: seq<bytes>, h: nat, k: nat)
    requires h + 1 < k <= |lines| && OptionSetting(lines[k - 1]).None?
    ensures NoneSets(lines, h, k) <==> NoneSets(lines, h, k - 1)
    ensures LastSets(lines, h, k, true) <==> LastSets(lines, h, k - 1, true)
  {
    hide OptionSetting;
    forall j | h < j < k - 1 ensures NoneSets(lines, j, k) <==> NoneSets(lines, j, k - 1) { }
    if LastSets(lines, h, k, true) {
      var j :| h < j < k && OptionSetting(lines[j]) == Some(true) && NoneSets(lines, j, k);
      assert j < k - 1;
    }
    if LastSets(lines, h, k - 1, true) {
      var j :| h < j < k - 1 && OptionSetting(lines[j]) == Some(true) && NoneSets(lines, j, k - 1);
      assert NoneSets(lines, j, k);
    }
  }

  lemma {:induction false} CommandsMeaning(lines: seq<bytes>, h: nat, k: nat, line: bytes)
    requires h < k <= |lines|
    ensures line in CommandsIn(lines, h, k) <==> exists c: nat :: CommandOf(lines, h, k, c) && lines[c] == line
  {
    hide Started;
    if k > h + 1 {
      CommandsMeaning(lines, h, k - 1, line);
      forall c: nat ensures CommandOf(lines, h, k, c) <==>
        CommandOf(lines, h, k - 1, c) || (c == k - 1 && lines[c] != [] && Started(lines, h, c)) { }
      if c: nat :| CommandOf(lines, h, k - 1, c) && lines[c] == line {
        assert CommandOf(lines, h, k, c);
      }
      if lines[k - 1] != [] && Started(lines, h, k - 1) {
        assert CommandOf(lines, h, k, k - 1);
      }
    }
  }

  // ---- the parser ----

  function StanzaAt(lines: seq<bytes>, h: nat, k: nat, inherited: bool): Stanza
    requires h < k <= |lines|
  {
    Stanza(Effective(lines, h, k, inherited), CommandsIn(lines, h, k))
  }

  /** One line inside an entry that is neither blank nor a header. */
  method AbsorbLine(line: bytes, stanza: Stanza, started: bool, ghost lines: seq<bytes>, ghost h: nat, ghost i: nat,
        ghost inherited: bool)
    returns (ok: bool, stanza': Stanza, started': bool)
    requires h < i < |lines| && line == lines[i] && line != []
    requires stanza == StanzaAt(lines, h, i, inherited) && started == Started(lines, h, i)
    ensures ok <==> LineOk(lines, h, i)
    ensures ok ==> stanza' == StanzaAt(lines, h, i + 1, inherited) && started' == Started(lines, h, i + 1)
  {
    hide Authentication, HasPrefix, OPTIONS, COMMANDS, TrimSpace;
    stanza', started' := stanza, started;
    StartedStep(lines, h, i);
    KeywordsDiffer(line);
    if HasPrefix(line, OPTIONS) {
      PrefixLength(line, OPTIONS);
      if started { return false, stanza, started; }
      var auth := ReadAuthentication(TrimSpace(line[|OPTIONS|..]));
      if auth.None? { return false, stanza, started; }
      if auth.value.Some? { stanza' := stanza.(noAuth := auth.value.value); }
    } else if line == COMMANDS {
      if started { return false, stanza, started; }
      started' := true;
    } else if started {
      if 44 in line { return false, stanza, started; }
      stanza' := stanza.(commands := stanza.commands + [line]);
    } else if 58 !in line {
      return false, stanza, started;
    }
    ok := true;
    assert stanza'.commands == CommandsIn(lines, h, i + 1);
  }

  lemma PrefixLength(s: bytes, prefix: bytes)
    requires HasPrefix(s, prefix)
    ensures |prefix| <= |s|
  {
  }

  lemma KeywordsDiffer(line: bytes)
    ensures HasPrefix(line, OPTIONS) ==> line != COMMANDS
  {
    if HasPrefix(line, OPTIONS) {
      assert line[0] == OPTIONS[0];
      assert OPTIONS[0] == 79 && COMMANDS[0] == 67;
    }
  }

  lemma StartedStep(lines: seq<bytes>, h: nat, i: nat)
    requires h < i < |lines|
    ensures Started(lines, h, i + 1) <==> Started(lines, h, i) || lines[i] == COMMANDS
  {
    hide COMMANDS;
  }

  /** The entry at h is complete, and stanza is what it says. */
  predicate Complete(lines: seq<bytes>, h: nat, stanza: Stanza, inherited: bool) {
    && h < |lines| && IsHeader(lines[h]) && EntryOk(lines, h, EndOf(lines, h))
    && stanza == StanzaAt(lines, h, EndOf(lines, h), inherited)
  }

  ghost predicate IsEntry(lines: seq<bytes>, stanza: Stanza, inherited: bool) {
    exists h: nat :: Complete(lines, h, stanza, inherited)
  }

  ghost predicate IsCollected(lines: seq<bytes>, h: nat, stanzas: seq<Stanza>, inherited: bool) {
    exists k :: 0 <= k < |stanzas| && Complete(lines, h, stanzas[k], inherited)
  }

  /** The entry at h is open at line i. */
  predicate Open(lines: seq<bytes>, h: nat, i: nat, stanza: Stanza, started: bool, inherited: bool) {
    && h < i <= |lines| && IsHeader(lines[h])
    && (forall j :: h < j < i ==> !IsHeader(lines[j]))
    && LinesOk(lines, h, i)
    && stanza == StanzaAt(lines, h, i, inherited) && started == Started(lines, h, i)
  }

  lemma OpenBecomesComplete(lines: seq<bytes>, h: nat, i: nat, stanza: Stanza, started: bool, inherited: bool)
    requires Open(lines, h, i, stanza, started, inherited) && (i == |lines| || IsHeader(lines[i]))
    ensures EndOf(lines, h) == i
    ensures started && stanza.commands != [] ==> Complete(lines, h, stanza, inherited)
    ensures !started || stanza.commands == [] ==> !EntriesOk(lines)
  {
    hide IsHeader, Started, LineOk;
    assert EndOf(lines, h) == i;
    assert EntriesOk(lines) ==> EntryOk(lines, h, i);
  }

  /** A line out of order spoils its entry. */
  lemma BadLine(lines: seq<bytes>, h: nat, i: nat)
    requires h < i < |lines| && IsHeader(lines[h]) && (forall j :: h < j <= i ==>
        !IsHeader(lines[j])) && !LineOk(lines, h, i)
    ensures !EntriesOk(lines)
  {
    hide IsHeader, LineOk;
    assert i < EndOf(lines, h);
    assert EntriesOk(lines) ==> EntryOk(lines, h, EndOf(lines, h));
  }

  lemma BlankLine(lines: seq<bytes>, h: nat, i: nat, stanza: Stanza, started: bool, inherited: bool)
    requires i < |lines| && lines[i] == [] && Open(lines, h, i, stanza, started, inherited) && !IsHeader(lines[i])
    ensures Open(lines, h, i + 1, stanza, started, inherited)
  {
    hide IsHeader, Authentication, TrimSpace;
    EmptyIsNoKeyword();
    StartedStep(lines, h, i);
    assert LineOk(lines, h, i);
    assert CommandsIn(lines, h, i + 1) == CommandsIn(lines, h, i);
  }

  lemma EmptyIsNoKeyword()
    ensures !HasPrefix([], OPTIONS) && COMMANDS != [] && !IsHeader([])
  {
  }

  lemma NewEntry(lines: seq<bytes>, i: nat, inherited: bool)
    requires i < |lines| && IsHeader(lines[i])
    ensures Open(lines, i, i + 1, Stanza(inherited, []), false, inherited)
  {
    hide IsHeader;
  }

  ghost predicate Collected(lines: seq<bytes>, i: nat, heads: seq<nat>, stanzas: seq<Stanza>, inherited: bool) {
    && i <= |lines| && |heads| == |stanzas|
    && (forall k :: 0 <= k < |heads| ==> Complete(lines, heads[k], stanzas[k], inherited))
  }

  /** Every header before line i is collected or is the open entry's. */
  ghost predicate AllHeads(lines: seq<bytes>, i: nat, heads: seq<nat>, open: Option<nat>) {
    forall j :: 0 <= j < i <= |lines| && IsHeader(lines[j]) ==> j in heads || open == Some(j)
  }

  method CollectStanzas(lines: seq<bytes>, inherited: bool) returns (ok: bool, stanzas: seq<Stanza>,
        ghost heads: seq<nat>)
    ensures ok <==> EntriesOk(lines)
    ensures ok ==> forall k :: 0 <= k < |stanzas| ==> IsEntry(lines, stanzas[k], inherited)
    ensures ok ==> forall h :: 0 <= h < |lines| && IsHeader(lines[h]) ==> IsCollected(lines, h, stanzas, inherited)
    ensures ok ==> Collected(lines, |lines|, heads, stanzas, inherited) && AllHeads(lines, |lines|, heads, None)
  {
    hide IsHeader, StanzaAt, Started, Complete, Open, EntriesOk, LineOk, IsEntry, IsCollected;
    stanzas, heads := [], [];
    var current: Option<Stanza>, started := None, false;
    ghost var h: nat := 0;
    var i := 0;
    while i < |lines|
      invariant i <= |lines| && Collected(lines, i, heads, stanzas, inherited)
      invariant current.Some? ==> Open(lines, h, i, current.value, started, inherited)
      invariant AllHeads(lines, i, heads, if current.Some? then Some(h) else None)
    {
      var line := lines[i];
      EmptyIsNoKeyword();
      if line == [] {
        if current.Some? { BlankLine(lines, h, i, current.value, started, inherited); }
      } else if IsHeader(line) {
        if current.Some? {
          OpenBecomesComplete(lines, h, i, current.value, started, inherited);
          if !started || current.value.commands == [] { return false, stanzas, heads; }
          stanzas, heads := stanzas + [current.value], heads + [h];
        }
        NewEntry(lines, i, inherited);
        current, started, h := Some(Stanza(inherited, [])), false, i;
      } else if current.Some? {
        OpenFacts(lines, h, i, current.value, started, inherited);
        var good, stanza, started' := AbsorbLine(line, current.value, started, lines, h, i, inherited);
        if !good {
          BadLine(lines, h, i);
          return false, stanzas, heads;
        }
        OpenNext(lines, h, i, stanza, started', inherited);
        current, started := Some(stanza), started';
      }
      i := i + 1;
    }
    if current.Some? {
      OpenBecomesComplete(lines, h, i, current.value, started, inherited);
      if !started || current.value.commands == [] { return false, stanzas, heads; }
      stanzas, heads := stanzas + [current.value], heads + [h];
    }
    ok := stanzas != [];
    CollectedMeaning(lines, heads, stanzas, inherited);
  }

  lemma CompleteFacts(lines: seq<bytes>, h: nat, stanza: Stanza, inherited: bool)
    requires Complete(lines, h, stanza, inherited)
    ensures h < |lines| && IsHeader(lines[h]) && EntryOk(lines, h, EndOf(lines, h))
  {
  }

  lemma CollectedMeaning(lines: seq<bytes>, heads: seq<nat>, stanzas: seq<Stanza>, inherited: bool)
    requires Collected(lines, |lines|, heads, stanzas, inherited) && AllHeads(lines, |lines|, heads, None)
    ensures stanzas != [] <==> EntriesOk(lines)
    ensures forall k :: 0 <= k < |stanzas| ==> IsEntry(lines, stanzas[k], inherited)
    ensures forall h :: 0 <= h < |lines| && IsHeader(lines[h]) ==> IsCollected(lines, h, stanzas, inherited)
  {
    hide IsHeader, EntryOk, StanzaAt, Complete;
    forall k | 0 <= k < |stanzas| ensures IsEntry(lines, stanzas[k], inherited) {
      assert Complete(lines, heads[k], stanzas[k], inherited);
    }
    forall h | 0 <= h < |lines| && IsHeader(lines[h])
      ensures IsCollected(lines, h, stanzas, inherited) && EntryOk(lines, h, EndOf(lines, h))
    {
      assert h in heads;
      var k :| 0 <= k < |heads| && heads[k] == h;
      assert Complete(lines, heads[k], stanzas[k], inherited);
      CompleteFacts(lines, h, stanzas[k], inherited);
    }
    if stanzas != [] { CompleteFacts(lines, heads[0], stanzas[0], inherited); }
  }

  lemma OpenFacts(lines: seq<bytes>, h: nat, i: nat, stanza: Stanza, started: bool, inherited: bool)
    requires Open(lines, h, i, stanza, started, inherited)
    ensures h < i <= |lines| && stanza == StanzaAt(lines, h, i, inherited) && started == Started(lines, h, i)
    ensures IsHeader(lines[h]) && LinesOk(lines, h, i) && forall j :: h < j < i ==> !IsHeader(lines[j])
  {
  }

  lemma OpenNext(lines: seq<bytes>, h: nat, i: nat, stanza: Stanza, started: bool, inherited: bool)
    requires h < i < |lines| && stanza == StanzaAt(lines, h, i + 1, inherited) && started == Started(lines, h, i + 1)
    requires IsHeader(lines[h]) && (forall j :: h < j < i ==> !IsHeader(lines[j])) && !IsHeader(lines[i])
    requires LinesOk(lines, h, i) && LineOk(lines, h, i)
    ensures Open(lines, h, i + 1, stanza, started, inherited)
  {
  }

  /** Some stanza without authentication has a matching command. */
  predicate Hit(stanzas: seq<Stanza>, k: nat, c: nat, target: bytes) {
    && k < |stanzas| && stanzas[k].noAuth && c < |stanzas[k].commands|
    && CommandMatch(stanzas[k].commands[c], target) == Answer(true)
  }

  /** Some stanza without authentication has a command that cannot be judged. */
  predicate Unreadable(stanzas: seq<Stanza>, k: nat, c: nat, target: bytes) {
    k < |stanzas| && stanzas[k].noAuth && c < |stanzas[k].commands| && CommandMatch(stanzas[k].commands[c], target).Problem?
  }

  predicate Clear(stanza: Stanza, target: bytes, n: nat) {
    stanza.noAuth ==>
      forall c :: 0 <= c < n && c < |stanza.commands| ==> CommandMatch(stanza.commands[c], target) == Answer(false)
  }

  method MatchStanzas(stanzas: seq<Stanza>, target: bytes) returns (r: Verdict)
    ensures r == Answer(true) ==> exists k, c :: Hit(stanzas, k, c, target)
    ensures r == Answer(false) ==> forall k :: 0 <= k < |stanzas| ==> Clear(stanzas[k], target, |stanzas[k].commands|)
    ensures r.Problem? ==> exists k, c :: Unreadable(stanzas, k, c, target)
  {
    hide CommandMatch;
    var k := 0;
    while k < |stanzas|
      invariant k <= |stanzas|
      invariant forall j :: 0 <= j < k ==> Clear(stanzas[j], target, |stanzas[j].commands|)
    {
      if stanzas[k].noAuth {
        var c := 0;
        while c < |stanzas[k].commands|
          invariant c <= |stanzas[k].commands| && Clear(stanzas[k], target, c)
        {
          var m := CommandMatch(stanzas[k].commands[c], target);
          if m.Problem? {
            assert Unreadable(stanzas, k, c, target);
            return Problem;
          }
          if m.passwordless {
            assert Hit(stanzas, k, c, target);
            return Answer(true);
          }
          c := c + 1;
        }
      }
      k := k + 1;
    }
    return Answer(false);
  }

  lemma HitGrants(lines: seq<bytes>, heads: seq<nat>, stanzas: seq<Stanza>, target: bytes, k: nat, c: nat)
    requires Collected(lines, |lines|, heads, stanzas, InheritedBy(lines)) && Hit(stanzas, k, c, target)
    requires Parent(target) != Some([])
    ensures exists h, c :: Grants(lines, h, c, target)
  {
    hide IsHeader, CommandMatch, Effective, CommandsIn, Started, NoAuthentication, Lists, InheritedBy;
    var h := heads[k];
    assert Complete(lines, h, stanzas[k], InheritedBy(lines));
    var e := EndOf(lines, h);
    EffectiveMeaning(lines, h, e, InheritedBy(lines));
    CommandsMeaning(lines, h, e, stanzas[k].commands[c]);
    var l: nat :| CommandOf(lines, h, e, l) && lines[l] == stanzas[k].commands[c];
    MatchMeaning(lines[l], target);
    assert Grants(lines, h, l, target);
  }

  lemma ClearGrantsNothing(lines: seq<bytes>, heads: seq<nat>, stanzas: seq<Stanza>, target: bytes, h: nat, c: nat)
    requires Collected(lines, |lines|, heads, stanzas, InheritedBy(lines)) && AllHeads(lines, |lines|, heads, None)
    requires forall k :: 0 <= k < |stanzas| ==> Clear(stanzas[k], target, |stanzas[k].commands|)
    requires Parent(target) != Some([])
    ensures !Grants(lines, h, c, target)
  {
    hide IsHeader, CommandMatch, Effective, CommandsIn, Started, NoAuthentication, Lists, InheritedBy;
    if Grants(lines, h, c, target) {
      assert h in heads;
      var k :| 0 <= k < |heads| && heads[k] == h;
      assert Complete(lines, h, stanzas[k], InheritedBy(lines));
      var e := EndOf(lines, h);
      EffectiveMeaning(lines, h, e, InheritedBy(lines));
      CommandsMeaning(lines, h, e, lines[c]);
      var x :| 0 <= x < |stanzas[k].commands| && stanzas[k].commands[x] == lines[c];
      MatchMeaning(lines[c], target);
    }
  }

  /**
   parseVerboseSudoPasswordlessRule: true only if some entry that needs no authentication grants the
   target, false only if none does; everything else is a problem.
   */
  method ParsePasswordlessRule(output: bytes, target: bytes) returns (r: Verdict)
    ensures Parent(target) != Some([]) && r == Answer(true) ==> exists h, c :: Grants(Lines(output), h, c, target)
    ensures Parent(target) != Some([]) && r == Answer(false) ==> forall h, c :: !Grants(Lines(output), h, c, target)
    ensures r.Answer? ==> DefaultsOk(Lines(output)) && EntriesOk(Lines(output))
    ensures DefaultsOk(Lines(output)) && EntriesOk(Lines(output)) && CommandsReadable(Lines(output), target) ==>
        r.Answer?
  {
    hide IsHeader, CommandMatch, Lines, Inherited, Grants, HeaderFrom, EntriesOk, CommandsReadable, DefaultOk;
    var lines := Lines(output);
    var inherited := ReadDefaults(lines);
    if inherited.None? { return Problem; }
    var ok, stanzas, heads := CollectStanzas(lines, inherited.value);
    if !ok { return Problem; }
    r := MatchStanzas(stanzas, target);
    if r.Problem? {
      ghost var k, c :| Unreadable(stanzas, k, c, target);
      UnreadableMeaning(lines, heads, stanzas, target, k, c);
    }
    if Parent(target) != Some([]) {
      if r == Answer(true) {
        ghost var k, c :| Hit(stanzas, k, c, target);
        HitGrants(lines, heads, stanzas, target, k, c);
      } else if r == Answer(false) {
        forall h, c ensures !Grants(lines, h, c, target) { ClearGrantsNothing(lines, heads, stanzas, target, h, c); }
      }
    }
  }

  lemma UnreadableMeaning(lines: seq<bytes>, heads: seq<nat>, stanzas: seq<Stanza>, target: bytes, k: nat, c: nat)
    requires Collected(lines, |lines|, heads, stanzas, InheritedBy(lines)) && Unreadable(stanzas, k, c, target)
    ensures !CommandsReadable(lines, target)
  {
    hide IsHeader, CommandMatch, Effective, CommandsIn, Started, NoAuthentication, InheritedBy, EntryOk;
    var h := heads[k];
    assert Complete(lines, h, stanzas[k], InheritedBy(lines));
    var e := EndOf(lines, h);
    EffectiveMeaning(lines, h, e, InheritedBy(lines));
    CommandsMeaning(lines, h, e, stanzas[k].commands[c]);
    var l: nat :| CommandOf(lines, h, e, l) && lines[l] == stanzas[k].commands[c];
    assert Unauthenticated(lines, h, l);
  }
}
