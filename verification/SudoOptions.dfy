/** The option tokenizer of the verbose sudo listing, and that it undoes quoting and escaping. */
module SudoOptions {
  import opened Bytes

  const BACKSLASH: byte := 92
  const SINGLE: byte := 39
  const DOUBLE: byte := 34
  const COMMA: byte := 44
  const SPACE: byte := 32
  const TAB: byte := 9

  predicate IsQuote(c: byte) {
    c == SINGLE || c == DOUBLE
  }

  predicate IsSeparator(c: byte) {
    c == COMMA || c == SPACE || c == TAB
  }

  /** Where the scanner stands: inside which quote, and whether the next byte is escaped. */
  datatype Scan = Scan(quote: Option<byte>, escaped: bool)

  const START: Scan := Scan(None, false)

  function Emit(token: bytes): seq<bytes> {
    if token == [] then [] else [token]
  }

  /** The tokens of s for a scanner in state sc with an unfinished token. */
  function TokensFrom(s: bytes, sc: Scan, token: bytes): Option<seq<bytes>>
    decreases |s|
  {
    if s == [] then
      if sc.escaped || sc.quote.Some? then None else Some(Emit(token))
    else
      var c, rest := s[0], s[1..];
      if sc.escaped then TokensFrom(rest, sc.(escaped := false), token + [c])
      else if c == BACKSLASH then TokensFrom(rest, sc.(escaped := true), token)
      else if sc.quote.Some? then
        if c == sc.quote.value then TokensFrom(rest, Scan(None, false), token) else TokensFrom(rest, sc, token + [c])
      else if IsQuote(c) then TokensFrom(rest, Scan(Some(c), false), token)
      else if IsSeparator(c) then Prepend(Emit(token), TokensFrom(rest, START, []))
      else TokensFrom(rest, sc, token + [c])
  }

  function Tokens(s: bytes): Option<seq<bytes>> {
    TokensFrom(s, START, [])
  }

  function Prepend(done: seq<bytes>, more: Option<seq<bytes>>): Option<seq<bytes>> {
    if more.None? then None else Some(done + more.value)
  }

  /** sudoOptionTokens as it runs. */
  method ScanTokens(s: bytes) returns (r: Option<seq<bytes>>)
    ensures r == Tokens(s)
  {
    var tokens: seq<bytes>, token: bytes, sc := [], [], START;
    var i := 0;
    assert s[0..] == s;
    PrependNothing(TokensFrom(s, START, []));
    while i < |s|
      invariant i <= |s|
      invariant Tokens(s) == Prepend(tokens, TokensFrom(s[i..], sc, token))
    {
      var c := s[i];
      assert s[i..][0] == c && s[i..][1..] == s[i + 1..];
      if sc.escaped {
        token, sc := token + [c], sc.(escaped := false);
      } else if c == BACKSLASH {
        sc := sc.(escaped := true);
      } else if sc.quote.Some? {
        if c == sc.quote.value { sc := START; } else { token := token + [c]; }
      } else if IsQuote(c) {
        sc := Scan(Some(c), false);
      } else if IsSeparator(c) {
        PrependTwice(tokens, Emit(token), TokensFrom(s[i + 1..], START, []));
        ghost var before := tokens;
        if |token| > 0 { tokens := tokens + [token]; }
        assert tokens == before + Emit(token);
        token, sc := [], START;
      } else {
        token := token + [c];
      }
      i := i + 1;
    }
    assert s[i..] == [];
    if sc.escaped || sc.quote.Some? { return None; }
    ghost var before := tokens;
    if |token| > 0 { tokens := tokens + [token]; }
    assert tokens == before + Emit(token);
    return Some(tokens);
  }

  lemma PrependNothing(more: Option<seq<bytes>>)
    ensures Prepend([], more) == more
  {
    if more.Some? {
      var nothing: seq<bytes> := [];
      assert nothing + more.value == more.value;
    }
  }

  lemma PrependTwice(a: seq<bytes>, b: seq<bytes>, more: Option<seq<bytes>>)
    ensures Prepend(a, Prepend(b, more)) == Prepend(a + b, more)
  {
    if more.Some? { assert a + (b + more.value) == a + b + more.value; }
  }

  // ---- ways to write a token ----

  /** A byte as it may be written: plainly, or after a backslash. */
  datatype Piece = Plain(c: byte) | Escaped(c: byte)

  /** A stretch of a token: bare pieces, or pieces between two equal quotes. */
  datatype Stretch = Bare(pieces: seq<Piece>) | Quoted(quote: byte, pieces: seq<Piece>)

  predicate LegalPiece(p: Piece, quote: Option<byte>) {
    p.Escaped? || (p.c != BACKSLASH && if quote.Some? then p.c != quote.value else !IsQuote(p.c) && !IsSeparator(p.c))
  }

  predicate LegalStretch(x: Stretch) {
    match x
    case Bare(pieces) => forall i :: 0 <= i < |pieces| ==> LegalPiece(pieces[i], None)
    case Quoted(quote, pieces) => IsQuote(quote) && forall i :: 0 <= i < |pieces| ==> LegalPiece(pieces[i], Some(quote))
  }

  function WritePieces(pieces: seq<Piece>): bytes {
    if pieces == [] then []
    else (if pieces[0].Plain? then [pieces[0].c] else [BACKSLASH, pieces[0].c]) + WritePieces(pieces[1..])
  }

  function Value(pieces: seq<Piece>): bytes {
    if pieces == [] then [] else [pieces[0].c] + Value(pieces[1..])
  }

  function WriteStretch(x: Stretch): bytes {
    match x
    case Bare(pieces) => WritePieces(pieces)
    case Quoted(quote, pieces) => [quote] + WritePieces(pieces) + [quote]
  }

  function WriteToken(xs: seq<Stretch>): bytes {
    if xs == [] then [] else WriteStretch(xs[0]) + WriteToken(xs[1..])
  }

  function TokenValue(xs: seq<Stretch>): bytes {
    if xs == [] then [] else Value(xs[0].pieces) + TokenValue(xs[1..])
  }

  /** Tokens with a separator after each; a separator run longer than one byte comes from empty tokens. */
  datatype Written = Written(stretches: seq<Stretch>, separator: byte)

  predicate Legal(w: Written) {
    IsSeparator(w.separator) && forall i :: 0 <= i < |w.stretches| ==> LegalStretch(w.stretches[i])
  }

  function WriteAll(ws: seq<Written>, last: seq<Stretch>): bytes {
    if ws == [] then WriteToken(last) else WriteToken(ws[0].stretches) + [ws[0].separator] + WriteAll(ws[1..], last)
  }

  function Values(ws: seq<Written>, last: seq<Stretch>): seq<bytes> {
    if ws == [] then Emit(TokenValue(last)) else Emit(TokenValue(ws[0].stretches)) + Values(ws[1..], last)
  }

  lemma {:induction false} ReadPieces(pieces: seq<Piece>, rest: bytes, quote: Option<byte>, token: bytes)
    requires forall i :: 0 <= i < |pieces| ==> LegalPiece(pieces[i], quote)
    ensures TokensFrom(WritePieces(pieces) + rest, Scan(quote, false), token) ==
            TokensFrom(rest, Scan(quote, false), token + Value(pieces))
    decreases |pieces|
  {
    hide TokensFrom, LegalPiece;
    if pieces == [] {
      assert WritePieces(pieces) + rest == rest && token + Value(pieces) == token;
    } else {
      var p, more := pieces[0], WritePieces(pieces[1..]) + rest;
      assert LegalPiece(p, quote);
      ReadPieces(pieces[1..], rest, quote, token + [p.c]);
      assert token + [p.c] + Value(pieces[1..]) == token + Value(pieces);
      ReadPiece(p, more, quote, token);
      if p.Plain? {
        assert WritePieces(pieces) + rest == [p.c] + more;
      } else {
        assert WritePieces(pieces) + rest == [BACKSLASH, p.c] + more;
      }
    }
  }

  lemma ReadPiece(p: Piece, more: bytes, quote: Option<byte>, token: bytes)
    requires LegalPiece(p, quote)
    ensures TokensFrom((if p.Plain? then [p.c] else [BACKSLASH, p.c]) + more, Scan(quote, false), token) ==
            TokensFrom(more, Scan(quote, false), token + [p.c])
  {
    if p.Plain? {
      assert ([p.c] + more)[1..] == more;
    } else {
      var s := [BACKSLASH, p.c] + more;
      assert s[1..] == [p.c] + more && s[1..][1..] == more;
    }
  }

  lemma ReadStretch(x: Stretch, rest: bytes, token: bytes)
    requires LegalStretch(x)
    ensures TokensFrom(WriteStretch(x) + rest, START, token) == TokensFrom(rest, START, token + Value(x.pieces))
  {
    match x
    case Bare(pieces) => ReadPieces(pieces, rest, None, token);
    case Quoted(quote, pieces) =>
      var s := WriteStretch(x) + rest;
      assert s[0] == quote && s[1..] == WritePieces(pieces) + ([quote] + rest);
      ReadPieces(pieces, [quote] + rest, Some(quote), token);
      assert ([quote] + rest)[1..] == rest;
  }

  lemma {:induction false} ReadToken(xs: seq<Stretch>, rest: bytes, token: bytes)
    requires forall i :: 0 <= i < |xs| ==> LegalStretch(xs[i])
    ensures TokensFrom(WriteToken(xs) + rest, START, token) == TokensFrom(rest, START, token + TokenValue(xs))
    decreases |xs|
  {
    if xs == [] {
      assert WriteToken(xs) + rest == rest && token + TokenValue(xs) == token;
    } else {
      var more := WriteToken(xs[1..]) + rest;
      assert WriteToken(xs) + rest == WriteStretch(xs[0]) + more;
      ReadStretch(xs[0], more, token);
      ReadToken(xs[1..], rest, token + Value(xs[0].pieces));
      assert token + Value(xs[0].pieces) + TokenValue(xs[1..]) == token + TokenValue(xs);
    }
  }

  /** However its non-empty tokens are quoted, escaped and separated, a text is cut into exactly those tokens. */
  lemma {:induction false} TokensInvertWriting(ws: seq<Written>, last: seq<Stretch>)
    requires forall i :: 0 <= i < |ws| ==> Legal(ws[i])
    requires forall i :: 0 <= i < |last| ==> LegalStretch(last[i])
    ensures Tokens(WriteAll(ws, last)) == Some(Values(ws, last))
  {
    hide TokensFrom, IsSeparator, LegalStretch, TokenValue, WriteToken, Prepend;
    var empty: bytes := [];
    if ws == [] {
      ReadEnd(TokenValue(last));
      ReadToken(last, [], []);
      assert WriteToken(last) + empty == WriteToken(last) && empty + TokenValue(last) == TokenValue(last);
    } else {
      var w, more := ws[0], WriteAll(ws[1..], last);
      assert Legal(w);
      TokensInvertWriting(ws[1..], last);
      assert WriteAll(ws, last) == WriteToken(w.stretches) + ([w.separator] + more);
      ReadToken(w.stretches, [w.separator] + more, []);
      assert empty + TokenValue(w.stretches) == TokenValue(w.stretches);
      ReadSeparator(w.separator, more, TokenValue(w.stretches));
      PrependSome(Emit(TokenValue(w.stretches)), Values(ws[1..], last));
    }
  }

  lemma ReadEnd(token: bytes)
    ensures TokensFrom([], START, token) == Some(Emit(token))
  {
  }

  lemma ReadSeparator(separator: byte, more: bytes, token: bytes)
    requires IsSeparator(separator)
    ensures TokensFrom([separator] + more, START, token) == Prepend(Emit(token), TokensFrom(more, START, []))
  {
    assert ([separator] + more)[1..] == more;
  }

  lemma PrependSome(a: seq<bytes>, b: seq<bytes>)
    ensures Prepend(a, Some(b)) == Some(a + b)
  {
  }

  // ---- every text that is cut at all was written so ----

  /** s is a legal writing of these tokens. */
  predicate Writes(ws: seq<Written>, last: seq<Stretch>, s: bytes) {
    && (forall i :: 0 <= i < |ws| ==> Legal(ws[i]))
    && (forall i :: 0 <= i < |last| ==> LegalStretch(last[i]))
    && WriteAll(ws, last) == s
  }

  /** One more stretch in front of the first token. */
  lemma Attach(x: Stretch, ws: seq<Written>, last: seq<Stretch>, s: bytes) returns (vs: seq<Written>, end: seq<Stretch>)
    requires LegalStretch(x) && Writes(ws, last, s)
    ensures Writes(vs, end, WriteStretch(x) + s)
  {
    if ws == [] {
      vs, end := [], [x] + last;
      assert end[1..] == last;
    } else {
      var w := ws[0].(stretches := [x] + ws[0].stretches);
      vs, end := [w] + ws[1..], last;
      assert Legal(ws[0]);
      assert forall i :: 0 <= i < |ws[1..]| ==> ws[1..][i] == ws[i + 1];
      AttachedText(x, ws[0], ws[1..], last);
      assert vs[1..] == ws[1..];
    }
  }

  lemma AttachedText(x: Stretch, w: Written, ws: seq<Written>, last: seq<Stretch>)
    ensures WriteToken([x] + w.stretches) == WriteStretch(x) + WriteToken(w.stretches)
    ensures WriteToken([x] + w.stretches) + [w.separator] + WriteAll(ws, last) ==
            WriteStretch(x) + (WriteToken(w.stretches) + [w.separator] + WriteAll(ws, last))
  {
    assert ([x] + w.stretches)[1..] == w.stretches;
  }

  /** One more empty token and its separator. */
  lemma Separate(c: byte, ws: seq<Written>, last: seq<Stretch>, s: bytes) returns (vs: seq<Written>)
    requires IsSeparator(c) && Writes(ws, last, s)
    ensures Writes(vs, last, [c] + s)
  {
    var empty: bytes := [];
    vs := [Written([], c)] + ws;
    assert vs[1..] == ws && empty + [c] == [c];
    assert Legal(vs[0]);
  }

  /** The pieces up to the closing quote. */
  lemma {:induction false} InQuote(s: bytes, quote: byte, token: bytes) returns (pieces: seq<Piece>, rest: bytes, more: bytes)
    requires TokensFrom(s, Scan(Some(quote), false), token).Some?
    ensures forall i :: 0 <= i < |pieces| ==> LegalPiece(pieces[i], Some(quote))
    ensures s == WritePieces(pieces) + ([quote] + rest) && TokensFrom(rest, START, more).Some?
    decreases |s|
  {
    var c, after := s[0], s[1..];
    assert s == [c] + after;
    if c == BACKSLASH {
      assert after != [] && s == [c, after[0]] + after[1..];
      pieces, rest, more := InQuote(after[1..], quote, token + [after[0]]);
      PiecesAfter(Escaped(after[0]), pieces, [quote] + rest);
      pieces := [Escaped(after[0])] + pieces;
    } else if c == quote {
      pieces, rest, more := [], after, token;
      assert WritePieces(pieces) + ([quote] + rest) == [quote] + rest;
    } else {
      pieces, rest, more := InQuote(after, quote, token + [c]);
      PiecesAfter(Plain(c), pieces, [quote] + rest);
      pieces := [Plain(c)] + pieces;
    }
  }

  lemma PiecesAfter(p: Piece, pieces: seq<Piece>, rest: bytes)
    ensures WritePieces([p] + pieces) + rest ==
            (if p.Plain? then [p.c] else [BACKSLASH, p.c]) + (WritePieces(pieces) + rest)
  {
    assert ([p] + pieces)[1..] == pieces;
  }

  lemma OnePiece(p: Piece)
    ensures WriteStretch(Bare([p])) == if p.Plain? then [p.c] else [BACKSLASH, p.c]
  {
    PiecesAfter(p, [], []);
    var empty: bytes := [];
    assert [p] + [] == [p] && WritePieces([p]) + empty == WritePieces([p]);
  }

  lemma {:induction false} ReadAsWritten(s: bytes, token: bytes) returns (ws: seq<Written>, last: seq<Stretch>)
    requires TokensFrom(s, START, token).Some?
    ensures Writes(ws, last, s)
    decreases |s|
  {
    if s == [] { return [], []; }
    var c, rest := s[0], s[1..];
    assert s == [c] + rest;
    if c == BACKSLASH {
      assert rest != [] && s == [c, rest[0]] + rest[1..];
      ws, last := ReadAsWritten(rest[1..], token + [rest[0]]);
      OnePiece(Escaped(rest[0]));
      ws, last := Attach(Bare([Escaped(rest[0])]), ws, last, rest[1..]);
    } else if IsQuote(c) {
      var pieces, after, more := InQuote(rest, c, token);
      assert |after| < |s|;
      ws, last := ReadAsWritten(after, more);
      assert s == [c] + WritePieces(pieces) + [c] + after;
      ws, last := Attach(Quoted(c, pieces), ws, last, after);
    } else if IsSeparator(c) {
      ws, last := ReadAsWritten(rest, []);
      ws := Separate(c, ws, last, rest);
    } else {
      ws, last := ReadAsWritten(rest, token + [c]);
      OnePiece(Plain(c));
      ws, last := Attach(Bare([Plain(c)]), ws, last, rest);
    }
  }

  /** A text is cut into tokens exactly if it is a legal writing of some; an open quote or a lone backslash is not. */
  lemma TokensExactly(s: bytes)
    ensures Tokens(s).Some? <==> exists ws, last :: Writes(ws, last, s)
    ensures forall ws, last :: Writes(ws, last, s) ==> Tokens(s) == Some(Values(ws, last))
  {
    hide TokensFrom, LegalStretch, WriteAll, Legal, Values;
    forall ws, last | Writes(ws, last, s) ensures Tokens(s) == Some(Values(ws, last)) {
      TokensInvertWriting(ws, last);
    }
    if Tokens(s).Some? {
      var ws, last := ReadAsWritten(s, []);
    }
  }
}
