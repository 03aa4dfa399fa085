/** The verbose sudo listing said in its own text: what options, commands and whole listings mean byte by byte. */
module SudoMeaning {
  import opened Bytes
  import opened Paths
  import opened SudoPolicy
  import opened SudoParser
  import O = SudoOptions
  import S = SerialFrame

  // ---- tokens ----

  /** Not a tab, space, comma, quote or backslash. */
  predicate Ordinary(c: byte) {
    c != 9 && c != 32 && c != 34 && c != 39 && c != 44 && c != 92
  }

  predicate OrdinaryWord(w: bytes) {
    w != [] && forall i :: 0 <= i < |w| ==> Ordinary(w[i])
  }

  function Plainly(w: bytes): seq<O.Piece> {
    seq(|w|, i requires 0 <= i < |w| => O.Plain(w[i]))
  }

  lemma {:induction false} PlainlyWritten(w: bytes)
    ensures O.WritePieces(Plainly(w)) == w && O.Value(Plainly(w)) == w
    decreases |w|
  {
    if w != [] {
      PlainlyWritten(w[1..]);
      assert Plainly(w)[1..] == Plainly(w[1..]);
      assert w == [w[0]] + w[1..];
    }
  }

  function Bared(w: bytes): seq<O.Stretch> {
    [O.Bare(Plainly(w))]
  }

  lemma BaredWritten(w: bytes)
    ensures O.WriteToken(Bared(w)) == w && O.TokenValue(Bared(w)) == w
  {
    PlainlyWritten(w);
    var empty: bytes := [];
    assert Bared(w)[1..] == [] && w + empty == w;
  }

  lemma BaredLegal(w: bytes)
    requires OrdinaryWord(w)
    ensures forall i :: 0 <= i < |Bared(w)| ==> O.LegalStretch(Bared(w)[i])
  {
    forall i | 0 <= i < |w| ensures O.LegalPiece(O.Plain(w[i]), None) { assert Ordinary(w[i]); }
  }

  /** Ordinary words are cut at commas, spaces and tabs. */
  lemma TwoTokens(a: bytes, c: byte, b: bytes)
    requires OrdinaryWord(a) && OrdinaryWord(b) && (c == 44 || c == 32 || c == 9)
    ensures O.Tokens(a + [c] + b) == Some([a, b])
  {
    hide Bared, O.WriteToken, O.TokenValue, O.LegalStretch, O.Tokens;
    var ws := [O.Written(Bared(a), c)];
    BaredWritten(a);
    BaredWritten(b);
    BaredLegal(a);
    BaredLegal(b);
    SeparatorIs(c);
    assert O.Legal(ws[0]);
    O.TokensInvertWriting(ws, Bared(b));
    assert ws[1..] == [];
    assert O.WriteAll([], Bared(b)) == b && O.Values([], Bared(b)) == [b];
    assert O.WriteAll(ws, Bared(b)) == a + [c] + b;
    assert O.Values(ws, Bared(b)) == [a] + [b] == [a, b];
  }

  lemma SeparatorIs(c: byte)
    requires c == 44 || c == 32 || c == 9
    ensures O.IsSeparator(c)
  {
  }

  lemma OneToken(w: bytes)
    requires OrdinaryWord(w)
    ensures O.Tokens(w) == Some([w])
  {
    BaredWritten(w);
    BaredLegal(w);
    O.TokensInvertWriting([], Bared(w));
  }

  lemma OneStretch(x: O.Stretch)
    requires O.LegalStretch(x) && O.Value(x.pieces) != []
    ensures O.Tokens(O.WriteStretch(x)) == Some([O.Value(x.pieces)])
  {
    var xs := [x];
    var empty: bytes := [];
    assert xs[1..] == [] && O.WriteToken([]) == [] && O.TokenValue([]) == [];
    assert O.WriteToken(xs) == O.WriteStretch(x) + empty == O.WriteStretch(x);
    assert O.TokenValue(xs) == O.Value(x.pieces) + empty == O.Value(x.pieces);
    O.TokensInvertWriting([], xs);
  }

  /** Within quotes of either kind separators belong to the token. */
  lemma QuotedToken(w: bytes, q: byte)
    requires w != [] && (q == 34 || q == 39) && q !in w && 92 !in w
    ensures O.Tokens([q] + w + [q]) == Some([w])
  {
    PlainlyWritten(w);
    OneStretch(O.Quoted(q, Plainly(w)));
  }

  /** A backslash takes any byte as it is. */
  lemma EscapedToken(c: byte)
    ensures O.Tokens([92, c]) == Some([[c]])
  {
    var pieces := [O.Escaped(c)];
    assert pieces[1..] == [] && O.WritePieces([]) == [] && O.Value([]) == [];
    assert O.WritePieces(pieces) == [92, c] && O.Value(pieces) == [c];
    OneStretch(O.Bare(pieces));
  }

  // ---- authentication ----

  /** Token k is the given text, and no later token speaks of authentication. */
  predicate LastSays(v: seq<bytes>, k: int, text: bytes) {
    && 0 <= k < |v| && v[k] == text
    && forall j :: k < j < |v| ==> v[j] != Ascii("!authenticate") && v[j] != Ascii("authenticate")
  }

  predicate Silent(v: seq<bytes>) {
    forall j :: 0 <= j < |v| ==> v[j] != Ascii("!authenticate") && v[j] != Ascii("authenticate")
  }

  lemma TextsDiffer()
    ensures Ascii("!authenticate") != Ascii("authenticate")
  {
    assert |Ascii("!authenticate")| != |Ascii("authenticate")|;
  }

  lemma {:induction false} LastAuthExactly(v: seq<bytes>)
    ensures LastAuth(v) == Some(true) <==> exists k :: LastSays(v, k, Ascii("!authenticate"))
    ensures LastAuth(v) == Some(false) <==> exists k :: LastSays(v, k, Ascii("authenticate"))
    ensures LastAuth(v) == None <==> Silent(v)
    decreases |v|
  {
    hide Ascii;
    TextsDiffer();
    if v != [] {
      var init, n := v[..|v| - 1], |v| - 1;
      LastAuthExactly(init);
      if v[n] == Ascii("!authenticate") {
        assert LastSays(v, n, Ascii("!authenticate"));
      } else if v[n] == Ascii("authenticate") {
        assert LastSays(v, n, Ascii("authenticate"));
      } else {
        forall k, text ensures LastSays(v, k, text) && k < n <==> LastSays(init, k, text) { Shorter(v, k, text); }
      }
      forall k, text | LastSays(v, k, text) && (text == Ascii("!authenticate") || text == Ascii("authenticate"))
        ensures (v[n] == Ascii("!authenticate") || v[n] == Ascii("authenticate")) ==> k == n { }
    }
  }

  lemma Shorter(v: seq<bytes>, k: int, text: bytes)
    requires v != [] && v[|v| - 1] != Ascii("!authenticate") && v[|v| - 1] != Ascii("authenticate")
    ensures LastSays(v, k, text) && k < |v| - 1 <==> LastSays(v[..|v| - 1], k, text)
  {
    hide Ascii;
  }

  /** However the options are quoted, escaped and separated, the last authentication token decides, and only its text. */
  lemma AuthenticationExactly(ws: seq<O.Written>, last: seq<O.Stretch>)
    requires forall i :: 0 <= i < |ws| ==> O.Legal(ws[i])
    requires forall i :: 0 <= i < |last| ==> O.LegalStretch(last[i])
    ensures var v := O.Values(ws, last); var a := Authentication(O.WriteAll(ws, last));
      && (a == Some(Some(true)) <==> exists k :: LastSays(v, k, Ascii("!authenticate")))
      && (a == Some(Some(false)) <==> exists k :: LastSays(v, k, Ascii("authenticate")))
      && (a == Some(None) <==> Silent(v))
      && a.Some?
  {
    hide Ascii, LastSays, Silent, LastAuth, O.Legal, O.LegalStretch;
    O.TokensInvertWriting(ws, last);
    LastAuthExactly(O.Values(ws, last));
  }

  // ---- lines ----

  predicate BlankByte(c: byte) {
    c == 32 || c == 9 || c == 10 || c == 11 || c == 12 || c == 13
  }

  predicate Blank(s: bytes) {
    forall i :: 0 <= i < |s| ==> BlankByte(s[i])
  }

  lemma {:induction false} TrimLeftBlank(a: bytes, t: bytes)
    requires Blank(a) && (t == [] || !BlankByte(t[0]))
    ensures TrimLeft(a + t) == t
    decreases |a|
  {
    if a == [] {
      assert a + t == t;
    } else {
      assert BlankByte(a[0]);
      assert (a + t)[1..] == a[1..] + t;
      TrimLeftBlank(a[1..], t);
    }
  }

  lemma {:induction false} TrimRightBlank(t: bytes, b: bytes)
    requires Blank(b) && (t == [] || !BlankByte(t[|t| - 1]))
    ensures TrimRight(t + b) == t
    decreases |b|
  {
    if b == [] {
      assert t + b == t;
    } else {
      assert BlankByte(b[|b| - 1]);
      assert (t + b)[..|t + b| - 1] == t + b[..|b| - 1];
      TrimRightBlank(t, b[..|b| - 1]);
    }
  }

  /** Trimming drops white space at both ends and nothing else. */
  lemma TrimExactly(a: bytes, t: bytes, b: bytes)
    requires Blank(a) && Blank(b) && (t == [] || (!BlankByte(t[0]) && !BlankByte(t[|t| - 1])))
    ensures TrimSpace(a + t + b) == t
  {
    hide TrimLeft, TrimRight;
    if t == [] {
      assert a + t + b == a + b + t;
      TrimLeftBlank(a + b, t);
      TrimRightBlank(t, []);
      assert t + [] == t;
    } else {
      assert a + t + b == a + (t + b);
      TrimLeftBlank(a, t + b);
      TrimRightBlank(t, b);
    }
  }

  lemma {:induction false} TrimsToNothing(s: bytes)
    ensures TrimSpace(s) == [] <==> Blank(s)
    decreases |s|
  {
    if s == [] {
    } else if BlankByte(s[0]) {
      TrimsToNothing(s[1..]);
      assert s == [s[0]] + s[1..];
    } else {
      TrimRightKeeps(s);
    }
  }

  lemma {:induction false} TrimRightKeeps(s: bytes)
    requires s != [] && !BlankByte(s[0])
    ensures TrimRight(s) != []
    decreases |s|
  {
    if BlankByte(s[|s| - 1]) { TrimRightKeeps(s[..|s| - 1]); }
  }

  /** An entry starts at its heading, alone or followed by a space or tab and some name. */
  lemma HeaderExactly(line: bytes)
    ensures IsHeader(line) <==>
            line == Ascii("Sudoers entry:") ||
            (HasPrefix(line, Ascii("Sudoers entry:")) && |line| > 14 && (line[14] == 32 || line[14] == 9) && !Blank(line[14..]))
  {
    assert |ENTRY| == 14;
    hide Ascii, TrimSpace;
    if |line| > 14 { TrimsToNothing(line[14..]); }
  }

  // ---- defaults ----

  lemma {:induction false} ContainsExactly(s: bytes, word: bytes)
    ensures Contains(s, word) <==> exists i :: OccursAt(s, word, i)
    decreases |s|
  {
    if HasPrefix(s, word) {
      assert OccursAt(s, word, 0);
    } else if s != [] {
      ContainsExactly(s[1..], word);
      forall i: int | 0 <= i ensures OccursAt(s[1..], word, i) <==> OccursAt(s, word, i + 1) { OccursLater(s, word, i); }
      forall i | OccursAt(s, word, i) ensures i > 0 && OccursAt(s[1..], word, i - 1) { OccursLater(s, word, i - 1); }
    }
  }

  predicate OccursAt(s: bytes, word: bytes, i: int) {
    0 <= i <= |s| - |word| && s[i..i + |word|] == word
  }

  lemma OccursLater(s: bytes, word: bytes, i: int)
    requires s != []
    ensures i >= 0 ==> (OccursAt(s[1..], word, i) <==> OccursAt(s, word, i + 1))
  {
    if 0 <= i <= |s| - 1 - |word| { assert s[1..][i..i + |word|] == s[i + 1..i + 1 + |word|]; }
  }

  /** The option speaks of an exempt group, other than by turning it off. */
  ghost predicate Exempts(option: bytes) {
    option != Ascii("!exempt_group") && exists i :: OccursAt(option, Ascii("exempt_group"), i)
  }

  /** A default is refused exactly if one of its comma-separated options exempts a group. */
  lemma ExemptExactly(line: bytes)
    ensures ExemptProblem(line) <==> exists i :: 0 <= i < |Split(line, 44)| && Exempts(TrimSpace(Split(line, 44)[i]))
  {
    var options := Split(line, 44);
    forall i | 0 <= i < |options|
      ensures Exempts(TrimSpace(options[i])) <==> Contains(TrimSpace(options[i]), EXEMPT) && TrimSpace(options[i]) != NOT_EXEMPT
    {
      ExemptsExactly(TrimSpace(options[i]));
    }
    if i :| 0 <= i < |options| && Exempts(TrimSpace(options[i])) {
      assert Contains(TrimSpace(options[i]), EXEMPT) && TrimSpace(options[i]) != NOT_EXEMPT;
    }
  }

  lemma ExemptsExactly(option: bytes)
    ensures Exempts(option) <==> Contains(option, EXEMPT) && option != NOT_EXEMPT
  {
    hide Ascii, Contains;
    ContainsExactly(option, EXEMPT);
  }

  predicate StartsMatching(line: bytes) {
    HasPrefix(line, Ascii("Matching Defaults entries for "))
  }

  predicate StartsSpecific(line: bytes) {
    HasPrefix(line, Ascii("Runas and ") + Ascii("Command-specific defaults for "))
  }

  predicate StartsUser(line: bytes) {
    HasPrefix(line, Ascii("User "))
  }

  predicate Turns(line: bytes) {
    StartsMatching(line) || StartsSpecific(line) || StartsUser(line)
  }

  /** The last line before i that turns to another section. */
  predicate LastTurn(lines: seq<bytes>, i: nat, k: int) {
    0 <= k < i <= |lines| && Turns(lines[k]) && forall j :: k < j < i ==> !Turns(lines[j])
  }

  /** Each section lasts from its own heading to the next one. */
  lemma {:induction false} SectionExactly(lines: seq<bytes>, i: nat)
    requires i <= |lines|
    ensures SectionAt(lines, i).MatchingDefaults? <==> exists k :: LastTurn(lines, i, k) && StartsMatching(lines[k])
    ensures SectionAt(lines, i).SpecificDefaults? <==>
            exists k :: LastTurn(lines, i, k) && !StartsMatching(lines[k]) && StartsSpecific(lines[k])
  {
    hide Ascii, HasPrefix, StartsMatching, StartsSpecific, StartsUser;
    SameHeadings();
    if i > 0 {
      SectionExactly(lines, i - 1);
      if Turns(lines[i - 1]) {
        assert LastTurn(lines, i, i - 1);
      } else {
        forall k ensures LastTurn(lines, i, k) <==> LastTurn(lines, i - 1, k) { }
      }
      assert forall k :: LastTurn(lines, i, k) && Turns(lines[i - 1]) ==> k == i - 1;
    }
  }

  lemma SameHeadings()
    ensures forall line: bytes :: StartsMatching(line) <==> HasPrefix(line, MATCHING)
    ensures forall line: bytes :: StartsSpecific(line) <==> HasPrefix(line, SPECIFIC)
    ensures forall line: bytes :: StartsUser(line) <==> HasPrefix(line, USER)
  {
    hide Ascii;
  }

  /** The defaults are the other non-empty lines of the two sections. */
  lemma DefaultExactly(lines: seq<bytes>, i: nat)
    requires i < |lines|
    ensures IsDefault(lines, i) <==>
            lines[i] != [] && !Turns(lines[i]) && SectionAt(lines, i) in {MatchingDefaults, SpecificDefaults}
  {
    hide Ascii, HasPrefix, StartsMatching, StartsSpecific, StartsUser;
    SameHeadings();
  }

  // ---- entries ----

  /** One line of an entry; started: the heading of its commands came before. */
  predicate LegalLine(line: bytes, started: bool) {
    || line == []
    || if HasPrefix(line, Ascii("Options:")) then !started && O.Tokens(TrimSpace(line[8..])).Some?
       else if line == Ascii("Commands:") then !started
       else if started then 44 !in line
       else 58 in line
  }

  predicate HeadingBefore(lines: seq<bytes>, h: nat, k: nat) {
    exists j :: h < j < k && j < |lines| && lines[j] == Ascii("Commands:")
  }

  /** A heading of commands and a command after it. */
  predicate CommandAt(lines: seq<bytes>, h: nat, e: nat, c: nat) {
    h < c < e <= |lines| && HeadingBefore(lines, h, c) && lines[c] != []
  }

  /**
   An entry is read exactly if every line has its place: options that can be cut into tokens and one heading, both
   before the commands, other lines before it with a colon, and at least one command, all without a comma.
   */
  lemma EntryOkExactly(lines: seq<bytes>, h: nat, e: nat)
    ensures EntryOk(lines, h, e) <==>
            && h < e <= |lines|
            && (forall i :: h < i < e ==> LegalLine(lines[i], HeadingBefore(lines, h, i)))
            && exists c: nat :: CommandAt(lines, h, e, c)
  {
    assert |OPTIONS| == 8;
    hide Ascii, TrimSpace, HasPrefix;
    SameHeading(lines, h);
    if h < e <= |lines| {
      forall i | h < i < e ensures LineOk(lines, h, i) <==> LegalLine(lines[i], HeadingBefore(lines, h, i)) { }
      hide LineOk, LegalLine;
      SomeCommand(lines, h, e);
    }
  }

  lemma SameHeading(lines: seq<bytes>, h: nat)
    ensures forall k: nat :: HeadingBefore(lines, h, k) <==> Started(lines, h, k)
  {
    hide Ascii;
  }

  lemma {:induction false} SomeCommand(lines: seq<bytes>, h: nat, e: nat)
    requires h < e <= |lines|
    ensures CommandsIn(lines, h, e) != [] <==> exists c: nat :: CommandAt(lines, h, e, c)
    decreases e
  {
    hide Ascii, Started, HeadingBefore;
    SameHeading(lines, h);
    if e > h + 1 {
      var d := e - 1;
      SomeCommand(lines, h, d);
      if c: nat :| CommandAt(lines, h, d, c) {
        assert CommandAt(lines, h, e, c);
      }
      if lines[e - 1] != [] && Started(lines, h, e - 1) {
        assert CommandAt(lines, h, e, e - 1);
      }
      if c: nat :| CommandAt(lines, h, e, c) {
        assert c < e - 1 ==> CommandAt(lines, h, e - 1, c);
      }
    }
  }

  // ---- commands ----

  /** Some byte of s is among those of the pattern language. */
  predicate HasPattern(s: bytes) {
    exists i :: 0 <= i < |s| &&
      (s[i] == 42 || s[i] == 63 || s[i] == 91 || s[i] == 93 || s[i] == 33 || s[i] == 94 || s[i] == 36 || s[i] == 92)
  }

  predicate HasQuoting(s: bytes) {
    exists i :: 0 <= i < |s| && (s[i] == 39 || s[i] == 92 || s[i] == 34)
  }

  lemma PatternBytes(s: bytes)
    ensures ContainsAny(s, Ascii("*?[]!^$\\")) <==> HasPattern(s)
    ensures ContainsAny(s, Ascii("'\\\"")) <==> HasQuoting(s)
  {
    assert Ascii("*?[]!^$\\") == [42, 63, 91, 93, 33, 94, 36, 92];
    assert Ascii("'\\\"") == [39, 92, 34];
  }

  /**
   Exactly these command lines are not judged: quoted arguments, ALL with arguments, relative names, patterns,
   directories with arguments.
   */
  lemma MatchProblemExactly(line: bytes, target: bytes)
    ensures var words := S.Words(line, []);
      CommandMatch(line, target).Problem? <==>
      || words == []
      || (exists i :: 1 <= i < |words| && HasQuoting(words[i]))
      || (words[0] == Ascii("ALL") && |words| > 1)
      || (words[0] != Ascii("ALL") &&
          (words[0] == [] || words[0][0] != 47 || HasPattern(words[0]) ||
           (words[0] != target && words[0][|words[0]| - 1] == 47 && |words| > 1)))
  {
    hide Ascii, ContainsAny, HasQuoting, HasPattern, S.Words;
    var words := S.Words(line, []);
    forall i | 0 <= i < |words|
      ensures ContainsAny(words[i], Ascii("*?[]!^$\\")) <==> HasPattern(words[i])
      ensures ContainsAny(words[i], Ascii("'\\\"")) <==> HasQuoting(words[i])
    {
      PatternBytes(words[i]);
    }
  }

  /** A command line grants everything, the program with any arguments, or the directory the program lies in. */
  lemma ListsExactly(line: bytes, target: bytes)
    ensures var words := S.Words(line, []);
      Lists(line, target) <==>
      || words == [Ascii("ALL")]
      || (words != [] && words[0] == target)
      || (|words| == 1 && words[0] != [] && words[0][|words[0]| - 1] == 47 &&
          exists base: bytes :: 47 !in base && target == words[0] + base)
  {
    hide Ascii, S.Words;
    var words := S.Words(line, []);
    if words != [] {
      var d := words[0];
      if DirectoryOf(d, target) {
        assert target == d + target[|d|..];
      }
      if base: bytes :| 47 !in base && target == d + base {
        assert target[|d|..] == base && target[..|d|] == d;
      }
    }
  }
}
