/**
 The cpio newc entries appended to an inspector initrd: the writer, a reader as
 the kernel's initramfs buffer format defines it, and the check of a packed image.
 */
module Cpio {
  import opened Bytes
  import opened Paths

  const HEADER: nat := 110
  const FIELDS: nat := 13
  const LIMIT: nat := 0x1_0000_0000

  datatype Entry = Entry(name: bytes, data: bytes, inode: nat, mode: nat)

  const TRAILER_NAME: bytes := Ascii("TRAILER!!!")
  const MAGIC: bytes := Ascii("070701")

  // ---- fixed-width hexadecimal ----

  function DigitValue(c: byte): Option<nat> {
    if 48 <= c <= 57 then Some(c - 48)
    else if 97 <= c <= 102 then Some(c - 87)
    else if 65 <= c <= 70 then Some(c - 55)
    else None
  }

  function Pow16(n: nat): (r: nat)
    ensures r > 0
  {
    if n == 0 then 1 else 16 * Pow16(n - 1)
  }

  /** n in lower-case hexadecimal, padded with zeros to width digits. */
  function HexText(n: nat, width: nat): (r: bytes)
    ensures |r| == width
  {
    if width == 0 then [] else HexText(n / 16, width - 1) + [HexDigit(n % 16)]
  }

  function HexValue(s: bytes): Option<nat> {
    if s == [] then Some(0)
    else
      var high, low := HexValue(s[..|s| - 1]), DigitValue(s[|s| - 1]);
      if high.None? || low.None? then None else Some(16 * high.value + low.value)
  }

  lemma {:induction false} HexRoundTrip(n: nat, width: nat)
    requires n < Pow16(width)
    ensures HexValue(HexText(n, width)) == Some(n)
  {
    if width > 0 {
      HexRoundTrip(n / 16, width - 1);
      var r := HexText(n, width);
      assert r[..width - 1] == HexText(n / 16, width - 1);
    }
  }

  lemma EightDigits()
    ensures Pow16(8) == LIMIT
  {
    assert Pow16(4) == 0x1_0000;
  }

  // ---- the writer ----

  /** Zero bytes up to the next multiple of four. */
  function Padding(n: nat): (r: bytes)
    ensures (n + |r|) % 4 == 0 && |r| < 4
  {
    var k := (4 - n % 4) % 4;
    seq(k, _ => 0)
  }

  function Fields(e: Entry): (r: seq<nat>)
    ensures |r| == FIELDS
  {
    [e.inode, e.mode, 0, 0, 1, 0, |e.data|, 0, 0, 0, 0, |e.name| + 1, 0]
  }

  function FieldText(fields: seq<nat>): (r: bytes)
    ensures |r| == 8 * |fields|
  {
    if fields == [] then [] else FieldText(fields[..|fields| - 1]) + HexText(fields[|fields| - 1], 8)
  }

  function Header(e: Entry): (r: bytes)
    ensures |r| == HEADER
  {
    MAGIC + FieldText(Fields(e))
  }

  function NamePart(e: Entry): bytes {
    e.name + [0] + Padding(HEADER + |e.name| + 1)
  }

  function DataPart(e: Entry): bytes {
    e.data + Padding(|e.data|)
  }

  function EncodeEntry(e: Entry): (r: bytes)
    ensures |r| % 4 == 0 && |r| >= HEADER
  {
    Header(e) + NamePart(e) + DataPart(e)
  }

  method WriteEntry(output: bytes, e: Entry) returns (r: bytes)
    ensures r == output + EncodeEntry(e)
  {
    hide Fields, HexText, MAGIC, Padding;
    var fields := Fields(e);
    var header := MAGIC;
    var k := 0;
    while k < |fields|
      invariant k <= |fields| && header == MAGIC + FieldText(fields[..k])
    {
      assert fields[..k + 1][..k] == fields[..k];
      header := header + HexText(fields[k], 8);
      k := k + 1;
    }
    assert fields[..k] == fields;
    r := output + header;
    r := r + e.name + [0] + Padding(HEADER + |e.name| + 1);
    r := r + e.data + Padding(|e.data|);
    Regroup(output, Header(e), e.name, [0], Padding(HEADER + |e.name| + 1), e.data, Padding(|e.data|));
  }

  lemma Regroup(o: bytes, h: bytes, n: bytes, z: bytes, p: bytes, d: bytes, q: bytes)
    ensures o + h + n + z + p + d + q == o + (h + (n + z + p) + (d + q))
  {
  }

  function EncodeEntries(entries: seq<Entry>): (r: bytes)
    ensures |r| % 4 == 0
  {
    if entries == [] then []
    else
      var head, rest := EncodeEntry(entries[0]), EncodeEntries(entries[1..]);
      MultiplesOfFour(|head|, |rest|);
      head + rest
  }

  lemma MultiplesOfFour(m: nat, n: nat)
    requires m % 4 == 0 && n % 4 == 0
    ensures (m + n) % 4 == 0
  {
  }

  const TRAILER: Entry := Entry(TRAILER_NAME, [], 3, 0)

  // ---- the reader ----

  /** Field k of a header. */
  function Field(header: bytes, k: nat): Option<nat>
    requires |header| == HEADER && k < FIELDS
  {
    HexValue(header[6 + 8 * k..6 + 8 * (k + 1)])
  }

  function Aligned(n: nat): (r: nat)
    ensures n <= r < n + 4 && r % 4 == 0
  {
    n + (4 - n % 4) % 4
  }

  datatype Read = Bad | Got(entry: Entry, rest: bytes)

  /** One entry and what follows it, both starting on a four-byte boundary. */
  function ReadEntry(input: bytes): (r: Read)
    ensures r.Got? ==> |r.rest| < |input|
  {
    if |input| < HEADER || input[..6] != MAGIC then Bad
    else
      var header := input[..HEADER];
      var inode, mode, size, nameSize := Field(header, 0), Field(header, 1), Field(header, 6), Field(header, 11);
      if inode.None? || mode.None? || size.None? || nameSize.None? || nameSize.value == 0 then Bad
      else
        var nameEnd := HEADER + nameSize.value;
        var dataStart := Aligned(nameEnd);
        var dataEnd := dataStart + size.value;
        if Aligned(dataEnd) > |input| || input[nameEnd - 1] != 0 then Bad
        else
          Got(Entry(input[HEADER..nameEnd - 1], input[dataStart..dataEnd], inode.value, mode.value), input[Aligned(dataEnd)..])
  }

  /** The entries up to the trailer, and what follows the trailer. */
  function ReadArchive(input: bytes): Option<(seq<Entry>, bytes)>
    decreases |input|
  {
    var r := ReadEntry(input);
    if r.Bad? then None
    else if r.entry.name == TRAILER_NAME then Some(([], r.rest))
    else
      var more := ReadArchive(r.rest);
      if more.None? then None else Some(([r.entry] + more.value.0, more.value.1))
  }

  predicate Writable(e: Entry) {
    e.inode < LIMIT && e.mode < LIMIT && |e.data| < LIMIT && |e.name| + 1 < LIMIT
  }

  // ---- the reader inverts the writer ----

  lemma {:induction false} FieldTextAt(fields: seq<nat>, k: nat)
    requires k < |fields|
    ensures FieldText(fields)[8 * k..8 * (k + 1)] == HexText(fields[k], 8)
  {
    var init := fields[..|fields| - 1];
    if k < |init| {
      FieldTextAt(init, k);
      assert FieldText(fields)[8 * k..8 * (k + 1)] == FieldText(init)[8 * k..8 * (k + 1)];
    }
  }

  lemma AfterMagic(s: bytes, i: nat, j: nat)
    requires i <= j <= |s|
    ensures |MAGIC| == 6 && (MAGIC + s)[6 + i..6 + j] == s[i..j]
  {
  }

  lemma HeaderField(e: Entry, k: nat)
    requires k < FIELDS && Fields(e)[k] < LIMIT
    ensures Field(Header(e), k) == Some(Fields(e)[k])
  {
    FieldTextAt(Fields(e), k);
    EightDigits();
    HexRoundTrip(Fields(e)[k], 8);
    hide FieldText, HexText, HexValue, Fields;
    AfterMagic(FieldText(Fields(e)), 8 * k, 8 * (k + 1));
  }

  /** All thirteen fields as they are read back, and the magic before them. */
  lemma HeaderFields(e: Entry, k: nat)
    requires Writable(e) && k < 13
    ensures Header(e)[..6] == [48, 55, 48, 55, 48, 49]
    ensures Field(Header(e), k) == Some([e.inode, e.mode, 0, 0, 1, 0, |e.data|, 0, 0, 0, 0, |e.name| + 1, 0][k])
  {
    assert Fields(e) == [e.inode, e.mode, 0, 0, 1, 0, |e.data|, 0, 0, 0, 0, |e.name| + 1, 0];
    assert MAGIC == [48, 55, 48, 55, 48, 49];
    hide Header, Fields;
    MagicFirst(e);
    HeaderField(e, k);
  }

  /** The digits are lower case. */
  lemma {:induction false} HexTextDigits(n: nat, width: nat, k: nat)
    requires k < width
    ensures HexText(n, width)[k] == Ascii("0123456789abcdef")[n / Pow16(width - 1 - k) % 16]
  {
    if k < width - 1 {
      HexTextDigits(n / 16, width - 1, k);
      DivideTwice(n, Pow16(width - 2 - k));
    } else {
      DigitText(n % 16);
    }
  }

  lemma DivideTwice(n: nat, d: nat)
    requires d > 0
    ensures n / 16 / d == n / (16 * d)
  {
    var q, r := n / 16 / d, n / 16 % d;
    var s := n % 16;
    assert n / 16 == q * d + r && n == 16 * (q * d + r) + s;
    assert n == q * (16 * d) + (16 * r + s) && 16 * r + s < 16 * d;
    DivideUnique(n, 16 * d, q, 16 * r + s);
  }

  lemma DivideUnique(n: nat, d: nat, q: nat, r: nat)
    requires d > 0 && n == q * d + r && r < d
    ensures n / d == q
  {
    Grows(n / d, q, d);
    Grows(q, n / d, d);
  }

  lemma {:induction false} Grows(p: nat, q: nat, d: nat)
    ensures p < q ==> p * d + d <= q * d
    decreases q
  {
    if p < q {
      Grows(p, q - 1, d);
      assert q * d == (q - 1) * d + d;
    }
  }

  lemma DigitText(v: nat)
    requires v < 16
    ensures HexDigit(v) == Ascii("0123456789abcdef")[v]
  {
    var text := Ascii("0123456789abcdef");
    assert |text| == 16;
  }

  predicate Zeros(s: bytes) {
    forall i :: 0 <= i < |s| ==> s[i] == 0
  }

  /**
   Where everything lies: the name after the header, at least one zero byte up to a boundary of four, the data, and
   zero bytes up to the next boundary.
   */
  lemma EntryLayout(e: Entry)
    ensures var r := EncodeEntry(e);
      var start := (110 + |e.name| + 1 + 3) / 4 * 4;
      && |r| == (start + |e.data| + 3) / 4 * 4
      && r[..110] == Header(e) && r[110..110 + |e.name|] == e.name && Zeros(r[110 + |e.name|..start])
      && r[start..start + |e.data|] == e.data && Zeros(r[start + |e.data|..])
  {
    var p, q := Padding(HEADER + |e.name| + 1), Padding(|e.data|);
    var start := (110 + |e.name| + 1 + 3) / 4 * 4;
    assert Zeros(p) && Zeros(q);
    PaddedLength(HEADER + |e.name| + 1);
    PaddedLength(|e.data|);
    assert (start + |e.data| + 3) / 4 * 4 == start + (|e.data| + 3) / 4 * 4;
    hide Header, EncodeEntry, Padding;
    EntryParts(e);
    LayoutSlices(Header(e), e.name, p, e.data, q);
  }

  lemma PaddedLength(n: nat)
    ensures n + |Padding(n)| == (n + 3) / 4 * 4
  {
  }

  lemma LayoutSlices(h: bytes, n: bytes, p: bytes, d: bytes, q: bytes)
    ensures var s := h + (n + [0] + p) + (d + q); var a := |h| + |n| + 1; var b := a + |p| + |d|;
      && |s| == b + |q| && s[..|h|] == h && s[|h|..a - 1] == n && s[a - 1..a + |p|] == [0] + p
      && s[a + |p|..b] == d && s[b..] == q
  {
  }

  /** What the reader yields once the header fields are known. */
  lemma ReadWith(input: bytes, inode: nat, mode: nat, size: nat, nameSize: nat)
    requires |input| >= HEADER && input[..6] == MAGIC && nameSize > 0
    requires Field(input[..HEADER], 0) == Some(inode) && Field(input[..HEADER], 1) == Some(mode)
    requires Field(input[..HEADER], 6) == Some(size) && Field(input[..HEADER], 11) == Some(nameSize)
    requires Aligned(Aligned(HEADER + nameSize) + size) <= |input| && input[HEADER + nameSize - 1] == 0
    ensures var start := Aligned(HEADER + nameSize);
      var e := Entry(input[HEADER..HEADER + nameSize - 1], input[start..start + size], inode, mode);
      ReadEntry(input) == Got(e, input[Aligned(start + size)..])
  {
    hide Field, MAGIC, Aligned;
  }

  /** Where the parts of a written entry lie. */
  predicate LiesIn(input: bytes, e: Entry, rest: bytes, start: nat, end: nat) {
    var nameEnd := HEADER + |e.name| + 1;
    && nameEnd <= start && start + |e.data| <= end <= |input|
    && input[..HEADER] == Header(e) && input[HEADER..nameEnd - 1] == e.name && input[nameEnd - 1] == 0
    && input[start..start + |e.data|] == e.data && input[end..] == rest
  }

  lemma EntryLies(e: Entry, rest: bytes, start: nat, end: nat)
    requires start == HEADER + |e.name| + 1 + |Padding(HEADER + |e.name| + 1)|
    requires end == start + |e.data| + |Padding(|e.data|)|
    ensures LiesIn(EncodeEntry(e) + rest, e, rest, start, end)
  {
    EntryParts(e);
    hide Header, EncodeEntry, Padding;
    Slices(Header(e), e.name, Padding(HEADER + |e.name| + 1), e.data, Padding(|e.data|), rest);
  }

  lemma ReadWritten(e: Entry, rest: bytes)
    requires Writable(e)
    ensures ReadEntry(EncodeEntry(e) + rest) == Got(e, rest)
  {
    var input := EncodeEntry(e) + rest;
    var nameEnd := HEADER + |e.name| + 1;
    var start := Aligned(nameEnd);
    var end := Aligned(start + |e.data|);
    PaddingLength(nameEnd);
    PaddingAfter(start, |e.data|);
    hide Aligned, Padding, EncodeEntry, LiesIn, Header, Field, ReadEntry, MAGIC;
    EntryLies(e, rest, start, end);
    HeaderField(e, 0);
    HeaderField(e, 1);
    HeaderField(e, 6);
    HeaderField(e, 11);
    MagicFirst(e);
    ReadLying(input, e, rest, start, end);
  }

  lemma ReadLying(input: bytes, e: Entry, rest: bytes, start: nat, end: nat)
    requires LiesIn(input, e, rest, start, end) && Header(e)[..6] == MAGIC
    requires start == Aligned(HEADER + |e.name| + 1) && end == Aligned(start + |e.data|)
    requires Field(Header(e), 0) == Some(e.inode) && Field(Header(e), 1) == Some(e.mode)
    requires Field(Header(e), 6) == Some(|e.data|) && Field(Header(e), 11) == Some(|e.name| + 1)
    ensures ReadEntry(input) == Got(e, rest)
  {
    hide Header, Field, MAGIC, ReadEntry, Aligned;
    assert input[..6] == input[..HEADER][..6];
    ReadWith(input, e.inode, e.mode, |e.data|, |e.name| + 1);
  }

  lemma EntryParts(e: Entry)
    ensures EncodeEntry(e) == Header(e) + (e.name + [0] + Padding(HEADER + |e.name| + 1)) + (e.data + Padding(|e.data|))
  {
    hide Header, Padding;
  }

  lemma PaddingLength(n: nat)
    ensures |Padding(n)| == Aligned(n) - n
  {
  }

  lemma PaddingAfter(start: nat, size: nat)
    requires start % 4 == 0
    ensures |Padding(size)| == Aligned(start + size) - (start + size)
  {
    assert (start + size) % 4 == size % 4;
  }

  lemma Slices(h: bytes, n: bytes, p: bytes, d: bytes, q: bytes, rest: bytes)
    ensures var s := h + (n + [0] + p) + (d + q) + rest; var a := |h| + |n| + 1; var b := a + |p| + |d|;
      && |s| == b + |q| + |rest|
      && s[..|h|] == h && s[|h|..a - 1] == n && s[a - 1] == 0 && s[a + |p|..b] == d && s[b + |q|..] == rest
  {
  }

  lemma MagicFirst(e: Entry)
    ensures Header(e)[..6] == MAGIC
  {
  }

  /** A newc reader recovers exactly the written entries. */
  lemma {:induction false} ReadArchiveWritten(entries: seq<Entry>, rest: bytes)
    requires forall i :: 0 <= i < |entries| ==> Writable(entries[i]) && entries[i].name != TRAILER_NAME
    ensures ReadArchive(EncodeEntries(entries) + EncodeEntry(TRAILER) + rest) == Some((entries, rest))
  {
    hide EncodeEntry, ReadEntry;
    var input := EncodeEntries(entries) + EncodeEntry(TRAILER) + rest;
    if entries == [] {
      assert input == EncodeEntry(TRAILER) + rest;
      ReadWritten(TRAILER, rest);
    } else {
      var tail := EncodeEntries(entries[1..]) + EncodeEntry(TRAILER) + rest;
      assert input == EncodeEntry(entries[0]) + tail;
      ReadWritten(entries[0], tail);
      ReadArchiveWritten(entries[1..], rest);
      assert entries == [entries[0]] + entries[1..];
    }
  }

  // ---- the packed initrd ----

  function ProbeEntry(probe: bytes): Entry {
    Entry(Ascii("alpha-probe"), probe, 1, 0x81ed)
  }

  function RequestEntry(request: bytes): Entry {
    Entry(Ascii("alpha-export-request.json"), request, 2, 0x8100)
  }

  /** What may follow a base of the given length. */
  function Appended(size: nat, probe: bytes, request: bytes): bytes {
    Padding(size) + (EncodeEntries([ProbeEntry(probe), RequestEntry(request)]) + EncodeEntry(TRAILER))
  }

  /** The check on a packed image; listed says whether the manifest has digests for both files. */
  method InspectInitrd(hash: Hash, base: bytes, image: bytes, probe: bytes, request: bytes, listed: bool)
    returns (ok: bool)
    ensures ok <==>
      (listed && |image| > |base| && hash(image[..|base|]) == hash(base) && image[|base|..] == Appended(|base|, probe, request))
  {
    if |image| <= |base| || hash(base) != hash(image[..|base|]) { return false; }
    var expected := Padding(|base|);
    expected := WriteEntry(expected, ProbeEntry(probe));
    expected := WriteEntry(expected, RequestEntry(request));
    expected := WriteEntry(expected, TRAILER);
    AppendedParts(|base|, probe, request);
    if |expected| != |image| - |base| || image[|base|..] != expected { return false; }
    return listed;
  }

  lemma AppendedParts(size: nat, probe: bytes, request: bytes)
    ensures Appended(size, probe, request) ==
            Padding(size) + EncodeEntry(ProbeEntry(probe)) + EncodeEntry(RequestEntry(request)) + EncodeEntry(TRAILER)
  {
    hide EncodeEntry, ProbeEntry, RequestEntry;
    var entries := [ProbeEntry(probe), RequestEntry(request)];
    assert entries[1..] == [RequestEntry(request)] && entries[1..][1..] == [];
    assert EncodeEntries(entries[1..][1..]) == [];
    assert EncodeEntries(entries[1..]) == EncodeEntry(RequestEntry(request));
    assert EncodeEntries(entries) == EncodeEntry(ProbeEntry(probe)) + EncodeEntry(RequestEntry(request));
  }

  /** An accepted image: base, padding, probe, request, trailer, up to a digest collision in the base. */
  ghost predicate Accepted(hash: Hash, base: bytes, image: bytes, probe: bytes, request: bytes) {
    |image| > |base| && hash(image[..|base|]) == hash(base) && image[|base|..] == Appended(|base|, probe, request)
  }

  lemma AcceptedUnique(hash: Hash, base: bytes, image: bytes, probe: bytes, request: bytes)
    requires Accepted(hash, base, image, probe, request)
    ensures image == base + Appended(|base|, probe, request) ||
            (image[..|base|] != base && hash(image[..|base|]) == hash(base))
  {
    hide Appended;
    assert image == image[..|base|] + image[|base|..];
  }

  /** The appended part starts on a boundary, and a reader finds the probe, the request and nothing else. */
  lemma AcceptedReads(hash: Hash, base: bytes, image: bytes, probe: bytes, request: bytes)
    requires Accepted(hash, base, image, probe, request) && |probe| < LIMIT && |request| < LIMIT
    ensures Aligned(|base|) <= |image|
    ensures ReadArchive(image[Aligned(|base|)..]) == Some(([ProbeEntry(probe), RequestEntry(request)], []))
  {
    hide EncodeEntry, ReadArchive, EncodeEntries, Writable;
    var entries := [ProbeEntry(probe), RequestEntry(request)];
    var archive := EncodeEntries(entries) + EncodeEntry(TRAILER);
    assert image[|base|..] == Padding(|base|) + archive;
    assert |Padding(|base|)| == Aligned(|base|) - |base|;
    assert image[Aligned(|base|)..] == image[|base|..][|Padding(|base|)|..] == archive;
    assert archive == EncodeEntries(entries) + EncodeEntry(TRAILER) + [];
    PackedWritable(probe, request);
    ReadArchiveWritten(entries, []);
  }

  /** The two entries that are packed: an executable probe and a read-only request. */
  lemma PackedEntries(probe: bytes, request: bytes)
    ensures ProbeEntry(probe) == Entry(Ascii("alpha-probe"), probe, 1, 8 * 0x1000 + 7 * 64 + 5 * 8 + 5)
    ensures RequestEntry(request) == Entry(Ascii("alpha-export-request.json"), request, 2, 8 * 0x1000 + 4 * 64)
    ensures TRAILER == Entry(Ascii("TRAILER!!!"), [], 3, 0)
  {
  }

  lemma PackedWritable(probe: bytes, request: bytes)
    requires |probe| < LIMIT && |request| < LIMIT
    ensures Writable(ProbeEntry(probe)) && ProbeEntry(probe).name != TRAILER_NAME
    ensures Writable(RequestEntry(request)) && RequestEntry(request).name != TRAILER_NAME
  {
  }
}
