/** Guest bootstrap encodings: SSH public keys, length-prefixed strings and the serial end line. */
module SerialFrame {
  import opened Bytes
  import opened Paths
  import opened Base64

  const SPACE: byte := 32
  const MAX_RESPONSE: nat := 0x1_0000
  const MAX_NONCE: nat := 128
  const KEY_TYPE: bytes := Ascii("ssh-ed25519")
  const END_MARK: bytes := Ascii("BOXWARDEN-END")
  const WIDTH: nat := 0x1_0000_0000

  // ---- length-prefixed strings (section 5 of RFC 4251) ----

  datatype ReadString = Refused | Got(value: bytes, rest: bytes)

  function WireString(s: bytes): bytes {
    EncodeBE(|s|, 4) + s
  }

  /** The end index computed in 32-bit arithmetic. */
  function EndIndex(length: nat): nat {
    (4 + length) % WIDTH
  }

  /** The code's length check, whose right side is also truncated to 32 bits. */
  predicate LengthAdmitted(n: nat, length: nat)
    requires n >= 4
  {
    length <= (n - 4) % WIDTH
  }

  /** Both slices stay in bounds for every admitted length. */
  ghost predicate SlicesSafe(n: nat)
    requires n >= 4
  {
    forall length: nat :: length < WIDTH && LengthAdmitted(n, length) ==> 4 <= EndIndex(length) <= n
  }

  /** The lengths of input for which no slice is out of range. */
  predicate SafeInput(n: nat) {
    n < WIDTH || n % WIDTH >= 4
  }

  /** No slice is out of range exactly when the input is not one of the few lengths at a multiple of four gigabytes. */
  lemma SlicesSafeExactly(n: nat)
    requires n >= 4
    ensures SlicesSafe(n) <==> SafeInput(n)
  {
    if n % WIDTH < 4 && n >= WIDTH {
      var length: nat := WIDTH - 4;
      WrapBelow(n);
      assert LengthAdmitted(n, length) && EndIndex(length) == 0;
    } else {
      NoWrap(n);
    }
  }

  lemma WrapBelow(n: nat)
    requires n >= WIDTH && n % WIDTH < 4
    ensures (n - 4) % WIDTH == WIDTH + n % WIDTH - 4
  {
    var q := n / WIDTH;
    assert n - 4 == (q - 1) * WIDTH + (WIDTH + n % WIDTH - 4);
    ModOf(q - 1, WIDTH + n % WIDTH - 4);
  }

  lemma NoWrap(n: nat)
    requires n >= 4 && (n % WIDTH >= 4 || n < WIDTH)
    ensures (n - 4) % WIDTH < WIDTH - 4 && (n - 4) % WIDTH <= n - 4
  {
    var q := n / WIDTH;
    assert n - 4 == q * WIDTH + (n % WIDTH - 4);
    ModOf(q, n % WIDTH - 4);
  }

  lemma ModOf(q: nat, r: nat)
    requires r < WIDTH
    ensures (q * WIDTH + r) % WIDTH == r
  {
  }

  /**
   Defined wherever the code does not fail on a slice; for any input below 4 GiB the length is compared with what is
   there.
   */
  function ReadWireString(input: bytes): (r: ReadString)
    requires SafeInput(|input|)
    ensures r.Got? <==> |input| >= 4 && DecodeBE(input[..4]) <= (|input| - 4) % WIDTH
    ensures r.Got? && |input| < WIDTH ==> DecodeBE(input[..4]) <= |input| - 4
    ensures r.Got? ==> input == WireString(r.value) + r.rest
  {
    if |input| < 4 then Refused
    else
      Widths();
      var length := DecodeBE(input[..4]);
      NoWrap(|input|);
      if !LengthAdmitted(|input|, length) then Refused
      else
        assert EndIndex(length) == 4 + length;
        EncodeDecodeBE(input[..4]);
        assert input == input[..4] + input[4..EndIndex(length)] + input[EndIndex(length)..];
        Got(input[4..EndIndex(length)], input[EndIndex(length)..])
  }

  lemma ReadWritten(s: bytes, rest: bytes)
    requires |WireString(s) + rest| < WIDTH
    ensures ReadWireString(WireString(s) + rest) == Got(s, rest)
  {
    Widths();
    DecodeEncodeBE(|s|, 4);
    var input := WireString(s) + rest;
    assert input[..4] == EncodeBE(|s|, 4);
    assert input[4..4 + |s|] == s && input[4 + |s|..] == rest;
  }

  // ---- public keys (section 4 of RFC 8709) ----

  predicate IsSpace(c: byte) {
    c == SPACE || 9 <= c <= 13
  }

  /** The words of a text, cut at runs of white space. */
  function Words(s: bytes, word: bytes): seq<bytes>
    decreases s
  {
    if s == [] then (if word == [] then [] else [word])
    else if IsSpace(s[0]) then (if word == [] then [] else [word]) + Words(s[1..], [])
    else Words(s[1..], word + [s[0]])
  }

  function KeyBlob(key: bytes): bytes {
    WireString(KEY_TYPE) + WireString(key)
  }

  predicate ValidKeyWords(words: seq<bytes>) {
    && |words| == 2 && words[0] == KEY_TYPE && Canonical(words[1])
    && var raw := Decode(words[1]).value;
       && SafeInput(|raw|)
       && var kind := ReadWireString(raw);
          && kind.Got? && kind.value == KEY_TYPE
          && SafeInput(|kind.rest|)
          && var key := ReadWireString(kind.rest);
             && key.Got? && |key.value| == 32 && key.rest == []
  }

  predicate ValidPublicKey(value: bytes) {
    ValidKeyWords(Words(value, []))
  }

  lemma BlobLength(key: bytes)
    requires |key| == 32
    ensures |KeyBlob(key)| == 51
  {
  }

  /** Exactly one blob, and one base64 text for it, is accepted per 32-byte key. */
  lemma KeyWordsExactly(words: seq<bytes>)
    ensures ValidKeyWords(words) <==> exists key: bytes :: |key| == 32 && words == [KEY_TYPE, Encode(KeyBlob(key))]
  {
    hide Decode, Encode, KEY_TYPE;
    if ValidKeyWords(words) {
      var raw := Decode(words[1]).value;
      var kind := ReadWireString(raw);
      var key := ReadWireString(kind.rest);
      assert raw == WireString(KEY_TYPE) + (WireString(key.value) + []);
      assert raw == KeyBlob(key.value);
      assert words == [KEY_TYPE, Encode(KeyBlob(key.value))];
    }
    if key: bytes :| |key| == 32 && words == [KEY_TYPE, Encode(KeyBlob(key))] {
      CanonicalExactly(words[1]);
      TypeLength();
      assert KeyBlob(key) == WireString(KEY_TYPE) + WireString(key);
      ReadWritten(KEY_TYPE, WireString(key));
      assert WireString(key) == WireString(key) + [];
      ReadWritten(key, []);
    }
  }

  lemma TypeLength()
    ensures |KEY_TYPE| == 11
  {
  }

  predicate NoSpaces(w: bytes) {
    forall i :: 0 <= i < |w| ==> !IsSpace(w[i])
  }

  lemma {:induction false} WordRun(w: bytes, rest: bytes, word: bytes)
    requires NoSpaces(w)
    ensures Words(w + rest, word) == Words(rest, word + w)
    decreases |w|
  {
    if w == [] {
      assert w + rest == rest && word + w == word;
    } else {
      WordRun(w[1..], rest, word + [w[0]]);
      assert (w + rest)[1..] == w[1..] + rest;
      assert word + [w[0]] + w[1..] == word + w;
    }
  }

  lemma TwoWords(a: bytes, b: bytes)
    requires a != [] && b != [] && NoSpaces(a) && NoSpaces(b)
    ensures Words(a + [SPACE] + b, []) == [a, b]
  {
    var empty: bytes := [];
    assert a + [SPACE] + b == a + ([SPACE] + b);
    WordRun(a, [SPACE] + b, []);
    assert empty + a == a && ([SPACE] + b)[1..] == b;
    WordRun(b, [], []);
    assert b + empty == b && empty + b == b;
  }

  lemma CleanNoSpaces(text: bytes)
    requires Clean(text)
    ensures NoSpaces(text)
  {
  }

  lemma TypeNoSpaces()
    ensures NoSpaces(KEY_TYPE)
  {
  }

  /** White space is one of six bytes, and the first one ends a word. */
  lemma WordEnds(a: bytes, c: byte, rest: bytes)
    requires a != [] && (forall i :: 0 <= i < |a| ==> a[i] !in {9, 10, 11, 12, 13, 32}) && c in {9, 10, 11, 12, 13, 32}
    ensures Words(a + [c] + rest, []) == [a] + Words(rest, [])
  {
    var empty: bytes := [];
    assert a + [c] + rest == a + ([c] + rest);
    WordRun(a, [c] + rest, []);
    assert empty + a == a && ([c] + rest)[1..] == rest;
  }

  /** The accepted blob: the type and the key, each after its length. */
  lemma BlobBytes(key: bytes)
    requires |key| == 32
    ensures KeyBlob(key) == [0, 0, 0, 11] + Ascii("ssh-ed25519") + [0, 0, 0, 32] + key
  {
    hide Ascii;
    TypeLength();
    FourBytes(11);
    FourBytes(32);
  }

  lemma FourBytes(n: nat)
    requires n < 256
    ensures EncodeBE(n, 4) == [0, 0, 0, n]
  {
    assert EncodeBE(0, 1) == [0] && EncodeBE(0, 2) == [0, 0] && EncodeBE(0, 3) == [0, 0, 0];
  }

  /** The usual one-line form of every 32-byte key is valid. */
  lemma KeyLineValid(key: bytes)
    requires |key| == 32
    ensures ValidPublicKey(KEY_TYPE + [SPACE] + Encode(KeyBlob(key)))
  {
    hide Encode, KEY_TYPE, Clean, NoSpaces, ValidKeyWords;
    var text := Encode(KeyBlob(key));
    EncodedClean(KeyBlob(key));
    CleanNoSpaces(text);
    TypeNoSpaces();
    TypeLength();
    BlobLength(key);
    TwoWords(KEY_TYPE, text);
    KeyWordsExactly([KEY_TYPE, text]);
  }

  lemma KeyFromBlob(a: bytes, b: bytes)
    requires |a| == 32 && |b| == 32 && KeyBlob(a) == KeyBlob(b)
    ensures a == b
  {
    assert KeyBlob(a)[|WireString(KEY_TYPE)| + 4..] == a;
    assert KeyBlob(b)[|WireString(KEY_TYPE)| + 4..] == b;
  }

  /** Equal texts mean equal keys, so the accepted key is determined by its text. */
  lemma KeyUnique(a: bytes, b: bytes)
    requires |a| == 32 && |b| == 32 && Encode(KeyBlob(a)) == Encode(KeyBlob(b))
    ensures a == b
  {
    hide KeyBlob, Encode, Decode;
    DecodeEncode(KeyBlob(a));
    DecodeEncode(KeyBlob(b));
    KeyFromBlob(a, b);
  }

  // ---- the serial end line ----

  predicate TokenByte(c: byte) {
    SafeByte(c) || c == 58
  }

  predicate ValidNonce(n: bytes) {
    1 <= |n| <= MAX_NONCE && forall i :: 0 <= i < |n| ==> TokenByte(n[i])
  }

  predicate ValidSession(id: bytes) {
    |id| == 36 && forall i :: 0 <= i < |id| ==> TokenByte(id[i])
  }

  /** A nonce: up to 128 letters, digits, dots, colons, hyphens and underscores. */
  lemma ValidNonceExactly(n: bytes)
    ensures ValidNonce(n) <==>
            1 <= |n| <= 128 &&
            forall i :: 0 <= i < |n| ==>
              97 <= n[i] <= 122 || 65 <= n[i] <= 90 || 48 <= n[i] <= 57 || n[i] in {45, 46, 58, 95}
  {
  }

  datatype Request = Request(nonce: bytes, session: bytes)

  /**
   What the guest reports: the digests of the files it installed, the effective sshd settings, and everything
   that is compared with the request on both sides (version, generation, association, fingerprint, principal, host key).
   */
  datatype SerialResult<R> = SerialResult(binding: R, digests: map<bytes, bytes>, sshd: map<bytes, bytes>)

  const INSTALLED: set<bytes> :=
    {Ascii("trusted-user-ca.pub"), Ascii("authorized_principals/boxwarden"), Ascii("management-binding.json")}

  const SSHD: map<bytes, bytes> := map[
    Ascii("trustedusercakeys") := Ascii("/etc/ssh/boxwarden/active/trusted-user-ca.pub"),
    Ascii("authorizedprincipalsfile") := Ascii("/etc/ssh/boxwarden/active/authorized_principals/%u"),
    Ascii("authorizedkeysfile") := Ascii(".ssh/authorized_keys"),
    Ascii("permituserenvironment") := Ascii("no"),
    Ascii("permituserrc") := Ascii("no"),
    Ascii("passwordauthentication") := Ascii("no"),
    Ascii("kbdinteractiveauthentication") := Ascii("no"),
    Ascii("permitrootlogin") := Ascii("no"),
    Ascii("x11forwarding") := Ascii("no"),
    Ascii("allowagentforwarding") := Ascii("no"),
    Ascii("allowtcpforwarding") := Ascii("no"),
    Ascii("allowstreamlocalforwarding") := Ascii("no"),
    Ascii("gatewayports") := Ascii("no"),
    Ascii("permittunnel") := Ascii("no")]

  /** The settings that must be off. */
  const LOCKED: set<bytes> := {
    Ascii("permituserenvironment"), Ascii("permituserrc"), Ascii("passwordauthentication"),
    Ascii("kbdinteractiveauthentication"), Ascii("permitrootlogin"), Ascii("x11forwarding"), Ascii("allowagentforwarding"),
    Ascii("allowtcpforwarding"), Ascii("allowstreamlocalforwarding"), Ascii("gatewayports"), Ascii("permittunnel")}

  const FILES: set<bytes> :=
    {Ascii("trustedusercakeys"), Ascii("authorizedprincipalsfile"), Ascii("authorizedkeysfile")}

  /**
   The checks made only on decoding: exactly the required files with their digests, and exactly the required settings.
   */
  predicate Exact<R>(result: SerialResult<R>) {
    && result.digests.Keys == INSTALLED
    && (forall k :: k in result.digests ==> HexDigest(result.digests[k]))
    && result.sshd == SSHD
  }

  /** The JSON text of a result, what is read back from one, and the comparison with the request. */
  datatype Codec<!R> = Codec(
    marshal: SerialResult<R> -> bytes, unmarshal: bytes -> Option<SerialResult<R>>, matches: R -> bool)

  function EndLine(request: Request, payload: bytes): bytes {
    Join([END_MARK, request.nonce, request.session, Encode(payload)], SPACE)
  }

  function EncodeSerialFrame<R>(codec: Codec<R>, request: Request, result: SerialResult<R>): Option<bytes> {
    if !codec.matches(result.binding) || |codec.marshal(result)| > MAX_RESPONSE then None
    else Some(EndLine(request, codec.marshal(result)))
  }

  function MaxLine(): nat {
    14 + MAX_NONCE + 1 + 36 + 1 + (MAX_RESPONSE + 2) / 3 * 4 + 1
  }

  /** Only these files and these settings of the guest's sshd are ever accepted. */
  lemma AcceptedSettings<R>(codec: Codec<R>, request: Request, line: bytes)
    requires DecodeSerialEndLine(codec, request, line).Some?
    ensures var r := DecodeSerialEndLine(codec, request, line).value;
      && codec.matches(r.binding)
      && r.digests.Keys ==
         {Ascii("trusted-user-ca.pub"), Ascii("authorized_principals/boxwarden"), Ascii("management-binding.json")}
      && (forall k :: k in r.digests ==>
            |r.digests[k]| == 64 && forall i :: 0 <= i < 64 ==> 48 <= r.digests[k][i] <= 57 || 97 <= r.digests[k][i] <= 102)
      && r.sshd.Keys == LOCKED + FILES
      && (forall k :: k in LOCKED ==> r.sshd[k] == Ascii("no"))
      && r.sshd[Ascii("trustedusercakeys")] == Ascii("/etc/ssh/boxwarden/active/trusted-user-ca.pub")
      && r.sshd[Ascii("authorizedprincipalsfile")] == Ascii("/etc/ssh/boxwarden/active/authorized_principals/%u")
      && r.sshd[Ascii("authorizedkeysfile")] == Ascii(".ssh/authorized_keys")
  {
    FilesListed();
    SettingsListed();
    hide Ascii, Payload, SSHD, LOCKED, FILES;
  }

  lemma SettingsListed()
    ensures SSHD.Keys == LOCKED + FILES && forall k :: k in LOCKED ==> SSHD[k] == Ascii("no")
  {
    FilesListed();
    hide Ascii;
  }

  lemma FilesListed()
    ensures FILES <= SSHD.Keys
    ensures SSHD[Ascii("trustedusercakeys")] == Ascii("/etc/ssh/boxwarden/active/trusted-user-ca.pub")
    ensures SSHD[Ascii("authorizedprincipalsfile")] == Ascii("/etc/ssh/boxwarden/active/authorized_principals/%u")
    ensures SSHD[Ascii("authorizedkeysfile")] == Ascii(".ssh/authorized_keys")
  {
    DistinctNames();
    hide Ascii;
  }

  /** The one file setting whose name is as long as that of another setting. */
  lemma DistinctNames()
    ensures Ascii("authorizedkeysfile") != Ascii("allowtcpforwarding")
  {
    assert Ascii("authorizedkeysfile")[1] == 117 && Ascii("allowtcpforwarding")[1] == 108;
  }

  /** One carriage return at the end is dropped. */
  function TrimReturn(line: bytes): bytes {
    if line != [] && line[|line| - 1] == CR then line[..|line| - 1] else line
  }

  /** The payload of an acceptable line. */
  function Payload(request: Request, line: bytes): Option<bytes> {
    if |line| > MaxLine() then None
    else
      var text := TrimReturn(line);
      if CR in text || LF in text then None
      else
        var fields := Split(text, SPACE);
        if |fields| != 4 || fields[0] != END_MARK || fields[1] != request.nonce || fields[2] != request.session then None
        else
          var length := DecodedLength(fields[3]);
          if length.None? || length.value > MAX_RESPONSE || !Canonical(fields[3]) then None
          else if |Decode(fields[3]).value| > MAX_RESPONSE then None
          else Decode(fields[3])
  }

  function DecodeSerialEndLine<R>(codec: Codec<R>, request: Request, line: bytes): Option<SerialResult<R>> {
    var payload := Payload(request, line);
    if payload.None? then None
    else
      var result := codec.unmarshal(payload.value);
      if result.None? || !Exact(result.value) || !codec.matches(result.value.binding) then None else result
  }

  predicate Breakless(s: bytes) {
    SPACE !in s && CR !in s && LF !in s
  }

  lemma {:induction false} JoinBreaks(parts: seq<bytes>)
    requires |parts| >= 1 && forall i :: 0 <= i < |parts| ==> Breakless(parts[i])
    ensures CR !in Join(parts, SPACE) && LF !in Join(parts, SPACE)
  {
    assert Breakless(parts[0]);
    if |parts| > 1 {
      JoinBreaks(parts[1..]);
    }
  }

  lemma LineFields(request: Request, payload: bytes)
    requires ValidNonce(request.nonce) && ValidSession(request.session)
    ensures var fields := [END_MARK, request.nonce, request.session, Encode(payload)];
      && Split(EndLine(request, payload), SPACE) == fields
      && CR !in EndLine(request, payload) && LF !in EndLine(request, payload)
  {
    hide Split, Join, Encode;
    var fields := [END_MARK, request.nonce, request.session, Encode(payload)];
    EncodedClean(payload);
    CleanHasNoBreaks(Encode(payload));
    MarkBreakless();
    assert Breakless(fields[0]) && Breakless(fields[1]) && Breakless(fields[2]) && Breakless(fields[3]);
    JoinBreaks(fields);
    SplitJoin(fields, SPACE);
  }

  lemma MarkBreakless()
    ensures Breakless(END_MARK) && |END_MARK| == 13
  {
  }

  /** The line byte by byte: the mark, the nonce, the session and the payload's base64 text, one space between them. */
  lemma LineBytes(request: Request, payload: bytes)
    ensures EndLine(request, payload) ==
            Ascii("BOXWARDEN-END") + [32] + request.nonce + [32] + request.session + [32] + Encode(payload)
  {
    hide Encode, Ascii;
    var fields := [END_MARK, request.nonce, request.session, Encode(payload)];
    assert fields[1..][1..] == fields[2..] && fields[2..][1..] == fields[3..];
    assert Join(fields[3..], SPACE) == Encode(payload);
    assert Join(fields[2..], SPACE) == request.session + [32] + Encode(payload);
    assert Join(fields[1..], SPACE) == request.nonce + [32] + Join(fields[2..], SPACE);
  }

  lemma LineLength(request: Request, payload: bytes)
    ensures |EndLine(request, payload)| == 13 + |request.nonce| + |request.session| + |Encode(payload)| + 3
  {
    var fields := [END_MARK, request.nonce, request.session, Encode(payload)];
    MarkBreakless();
    hide Encode, END_MARK;
    JoinLength(fields, SPACE);
    assert fields[1..][1..] == fields[2..] && fields[2..][1..] == fields[3..] && fields[3..] == [Encode(payload)];
    assert SumLengths(fields[3..]) == |Encode(payload)|;
    assert SumLengths(fields[2..]) == |request.session| + |Encode(payload)|;
    assert SumLengths(fields[1..]) == |request.nonce| + |request.session| + |Encode(payload)|;
  }

  /** Every end line, with or without its carriage return, fits the reader's bound. */
  lemma LineFits(request: Request, payload: bytes)
    requires ValidNonce(request.nonce) && ValidSession(request.session) && |payload| <= MAX_RESPONSE
    ensures |EndLine(request, payload)| + 1 <= MaxLine()
  {
    hide Encode, EndLine;
    LineLength(request, payload);
    assert (|payload| + 2) / 3 <= (MAX_RESPONSE + 2) / 3;
  }

  lemma TrimLine(line: bytes)
    requires CR !in line
    ensures TrimReturn(line) == line && TrimReturn(line + [CR]) == line
  {
    assert (line + [CR])[..|line|] == line;
  }

  lemma PayloadOfLine(request: Request, payload: bytes, line: bytes)
    requires ValidNonce(request.nonce) && ValidSession(request.session) && 0 < |payload| <= MAX_RESPONSE
    requires line == EndLine(request, payload) || line == EndLine(request, payload) + [CR]
    ensures Payload(request, line) == Some(payload)
  {
    hide Encode, EndLine, Split, Decode, DecodedLength;
    LineFields(request, payload);
    LineFits(request, payload);
    TrimLine(EndLine(request, payload));
    DecodedLengthExact(payload);
    CanonicalExactly(Encode(payload));
  }

  /**
   A frame the encoder produced fits the line bound and, also after the terminal added a carriage return, is decoded
   to the same result exactly if its digests and settings are the required ones, which the encoder does not check.
   */
  lemma FrameRoundTrip<R>(codec: Codec<R>, request: Request, result: SerialResult<R>)
    requires ValidNonce(request.nonce) && ValidSession(request.session)
    requires codec.marshal(result) != [] && codec.unmarshal(codec.marshal(result)) == Some(result)
    ensures EncodeSerialFrame(codec, request, result).Some? <==>
            codec.matches(result.binding) && |codec.marshal(result)| <= 0x1_0000
    ensures EncodeSerialFrame(codec, request, result).Some? ==>
      var line := EncodeSerialFrame(codec, request, result).value;
      && |line| + 1 <= MaxLine()
      && DecodeSerialEndLine(codec, request, line) == (if Exact(result) then Some(result) else None)
      && DecodeSerialEndLine(codec, request, line + [CR]) == (if Exact(result) then Some(result) else None)
  {
    hide EndLine, Payload, MaxLine, Exact;
    if EncodeSerialFrame(codec, request, result).Some? {
      var line := EncodeSerialFrame(codec, request, result).value;
      LineFits(request, codec.marshal(result));
      PayloadOfLine(request, codec.marshal(result), line);
      PayloadOfLine(request, codec.marshal(result), line + [CR]);
    }
  }

  /** Conversely an accepted line is the canonical line of its payload, up to that carriage return. */
  lemma AcceptedLineCanonical(request: Request, line: bytes)
    requires Payload(request, line).Some?
    ensures var payload := Payload(request, line).value;
      && 0 < |payload| <= 0x1_0000
      && (line == EndLine(request, payload) || line == EndLine(request, payload) + [CR])
  {
    hide Encode, Split, Decode, Join;
    var text := TrimReturn(line);
    var fields := Split(text, SPACE);
    JoinSplit(text, SPACE);
    assert fields == [fields[0], fields[1], fields[2], fields[3]];
    CanonicalExactly(fields[3]);
    EmptyText();
    assert line == text || line == text + [CR];
  }

  lemma EmptyText()
    ensures Encode([]) == []
  {
  }
}
