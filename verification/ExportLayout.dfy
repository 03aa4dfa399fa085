/** The export format byte by byte, and the options and streams it belongs to. */
module ExportLayout {
  import opened Bytes
  import opened Paths
  import opened ExportWire
  import opened ExportReceiver
  import opened ExportTheory

  // ---- big-endian numbers ----

  lemma DecodeSnoc(s: bytes, b: byte)
    ensures DecodeBE(s + [b]) == 256 * DecodeBE(s) + b
  {
    assert (s + [b])[..|s|] == s;
  }

  function Two(a: nat, b: nat): nat {
    256 * a + b
  }

  function Four(a: nat, b: nat, c: nat, d: nat): nat {
    0x100_0000 * a + 0x1_0000 * b + 256 * c + d
  }

  lemma TwoBytes(s: bytes)
    requires |s| == 2
    ensures DecodeBE(s) == Two(s[0], s[1])
  {
    DecodeSnoc([], s[0]);
    DecodeSnoc([s[0]], s[1]);
    assert s == [s[0]] + [s[1]] && [] + [s[0]] == [s[0]];
  }

  lemma FourBytes(s: bytes)
    requires |s| == 4
    ensures DecodeBE(s) == Four(s[0], s[1], s[2], s[3])
  {
    hide DecodeBE;
    TwoBytes(s[..2]);
    DecodeSnoc(s[..2], s[2]);
    DecodeSnoc(s[..2] + [s[2]], s[3]);
    assert s == s[..2] + [s[2]] + [s[3]];
  }

  lemma EightBytes(s: bytes)
    requires |s| == 8
    ensures DecodeBE(s) == 0x1_0000_0000 * DecodeBE(s[..4]) + DecodeBE(s[4..])
  {
    hide DecodeBE;
    var t := s[..4];
    FourBytes(s[4..]);
    DecodeSnoc(t, s[4]);
    DecodeSnoc(t + [s[4]], s[5]);
    DecodeSnoc(t + [s[4]] + [s[5]], s[6]);
    DecodeSnoc(t + [s[4]] + [s[5]] + [s[6]], s[7]);
    assert s == t + [s[4]] + [s[5]] + [s[6]] + [s[7]];
  }

  // ---- records ----

  /** The 47 bytes of a record header: kind, path length, chunk length, declared size, digest. */
  lemma RecordLayout(r: Record)
    requires Fits(r)
    ensures var raw := EncodeRecord(r);
      && raw[0] == r.kind
      && Two(raw[1], raw[2]) == r.pathLen
      && Four(raw[3], raw[4], raw[5], raw[6]) == r.chunkLen
      && 0x1_0000_0000 * Four(raw[7], raw[8], raw[9], raw[10]) + Four(raw[11], raw[12], raw[13], raw[14]) == r.declared
      && raw[15..] == r.digest
  {
    var raw := EncodeRecord(r);
    DecodeEncodeRecord(r);
    var path, chunk, size := raw[1..3], raw[3..7], raw[7..15];
    assert DecodeRecord(raw).pathLen == DecodeBE(path);
    assert DecodeRecord(raw).chunkLen == DecodeBE(chunk);
    assert DecodeRecord(raw).declared == DecodeBE(size);
    hide DecodeBE, EncodeBE;
    TwoBytes(path);
    FourBytes(chunk);
    EightBytes(size);
    FourBytes(size[..4]);
    FourBytes(size[4..]);
    assert raw[15..] == raw[15..47];
  }

  /** The stream opens with its magic and version. */
  lemma HeaderLayout(tx: bytes)
    ensures StreamHeader(tx) == [66, 87, 69, 88, 0, 1] + tx
  {
    assert Ascii("BWEX") == [66, 87, 69, 88];
  }

  /** Directories are records of kind 1 and files of kind 2, followed by their path. */
  lemma ObjectLayout(hash: Hash, name: bytes, chunks: seq<bytes>, tail: bytes)
    ensures EmitItem(hash, DirItem(name), tail) == EncodeRecord(Record(1, |name|, 0, 0, ZERO_DIGEST)) + name + tail
    ensures var data := Concat(chunks);
      EmitItem(hash, FileItem(name, chunks), tail) ==
      EncodeRecord(Record(2, |name|, 0, |data|, ZERO_DIGEST)) + name + EmitChunks(chunks, EmitEnd(hash, data, tail))
  {
    hide EncodeRecord, Concat, EmitChunks, EmitEnd;
    var data := Concat(chunks);
    Regroup(EncodeRecord(Record(1, |name|, 0, 0, ZERO_DIGEST)), name, tail);
    Regroup(EncodeRecord(Record(2, |name|, 0, |data|, ZERO_DIGEST)), name, EmitChunks(chunks, EmitEnd(hash, data, tail)));
  }

  lemma Regroup(a: bytes, b: bytes, c: bytes)
    ensures a + (b + ([] + c)) == a + b + c && a + ([] + (b + c)) == a + b + c
  {
  }

  /** Chunks are records of kind 3, a file ends with kind 4 and its digest, the stream with kind 5 and its total. */
  lemma ContentLayout(hash: Hash, data: bytes, chunks: seq<bytes>, tail: bytes, total: nat)
    ensures chunks != [] ==>
      var first := EncodeRecord(Record(3, 0, |chunks[0]|, 0, ZERO_DIGEST)) + chunks[0];
      EmitChunks(chunks, tail) == first + EmitChunks(chunks[1..], tail)
    ensures EmitChunks([], tail) == tail
    ensures EmitEnd(hash, data, tail) == EncodeRecord(Record(4, 0, 0, 0, hash(data))) + tail
    ensures EmitTerminal(total) == EncodeRecord(Record(5, 0, 0, total, ZERO_DIGEST))
  {
    hide EncodeRecord;
    var empty: bytes := [];
    Regroup(EncodeRecord(Record(4, 0, 0, 0, hash(data))), [], tail);
    Regroup(EncodeRecord(Record(5, 0, 0, total, ZERO_DIGEST)), [], []);
    if chunks != [] {
      Regroup(EncodeRecord(Record(3, 0, |chunks[0]|, 0, ZERO_DIGEST)), chunks[0], EmitChunks(chunks[1..], tail));
    }
  }

  // ---- options ----

  /** The host policies a transfer may have. */
  predicate SoundOptions(o: Options) {
    && |o.tx| == 16 && (exists i :: 0 <= i < 16 && o.tx[i] != 0)
    && 1 <= o.maxChunk as int <= 0x10_0000
    && o.maxFile as int >= 1 && o.maxTotal as int >= 1 && o.maxFiles as int >= 1 && o.maxDirs as int >= 1 && o.minFree as int >= 1
    && |o.selected| <= 1024
    && (forall i :: 0 <= i < |o.selected| ==> SafePath(o.selected[i]))
    && (forall i, j :: 0 <= i < j < |o.selected| ==> !SameButCase(o.selected[i], o.selected[j]))
  }

  lemma ZeroTransaction(tx: bytes)
    requires |tx| == 16
    ensures tx == seq(16, _ => 0) <==> forall i :: 0 <= i < 16 ==> tx[i] == 0
  {
    var zeros: bytes := seq(16, _ => 0);
    if forall i :: 0 <= i < 16 ==> tx[i] == 0 { assert tx == zeros; }
  }

  lemma ValidOptionsExactly(o: Options)
    ensures ValidOptions(o) <==> SoundOptions(o)
  {
    hide ValidPath, SafePath, Lower, SameButCase;
    if |o.tx| == 16 { ZeroTransaction(o.tx); }
    forall i | 0 <= i < |o.selected| ensures ValidPath(o.selected[i]) <==> SafePath(o.selected[i]) {
      ValidPathExactly(o.selected[i]);
    }
    forall i, j | 0 <= i < j < |o.selected|
      ensures Lower(o.selected[i]) == Lower(o.selected[j]) <==> SameButCase(o.selected[i], o.selected[j])
    {
      LowerExactly(o.selected[i], o.selected[j]);
    }
  }

  lemma ProblemsElsewhere(hash: Hash, o: Options, st: State, cur: Option<Active>, rec: Record, name: bytes)
    ensures HeaderProblem(o, rec) != Some(InvalidOptions)
    ensures BodyProblem(hash, o, st, cur, rec, name) != Some(InvalidOptions)
  {
    hide ValidPath, AdmitSelected, SelectedPresent, Lower;
  }

  lemma {:induction false} NoLateOptions(hash: Hash, o: Options, st: State, cur: Option<Active>, input: bytes)
    ensures Run(hash, o, st, cur, input) != Refused(InvalidOptions)
    decreases |input|
  {
    if |input| >= RECORD_SIZE {
      hide HeaderProblem, BodyProblem, DecodeRecord;
      var rec, after := DecodeRecord(input[..RECORD_SIZE]), input[RECORD_SIZE..];
      ProblemsElsewhere(hash, o, st, cur, rec, []);
      assert Run(hash, o, st, cur, input) == RunRecord(hash, o, st, cur, rec, after);
      if HeaderProblem(o, rec).None? && |after| >= rec.pathLen {
        var name, rest := after[..rec.pathLen], after[rec.pathLen..];
        ProblemsElsewhere(hash, o, st, cur, rec, name);
        assert RunRecord(hash, o, st, cur, rec, after) == RunBody(hash, o, st, cur, rec, name, rest);
        if BodyProblem(hash, o, st, cur, rec, name).None? {
          if rec.kind == DIRECTORY {
            NoLateOptions(hash, o, AddDirectory(st, name), None, rest);
          } else if rec.kind == FILE {
            NoLateOptions(hash, o, BeginFile(st, name), Some(Active(name, rec.declared, [])), rest);
          } else if rec.kind == CHUNK && |rest| >= rec.chunkLen {
            var g := Grow(st, cur.value, rest[..rec.chunkLen]);
            NoLateOptions(hash, o, g.0, Some(g.1), rest[rec.chunkLen..]);
          } else if rec.kind == FILE_END {
            NoLateOptions(hash, o, EndFile(st, cur.value.name, cur.value.data), None, rest);
          }
        }
      }
    }
  }

  /** Whatever the stream, the options are what is refused exactly if they are not sound. */
  lemma OptionsRefusedExactly(hash: Hash, o: Options, stream: bytes)
    ensures Verdict(hash, o, stream) == Refused(InvalidOptions) <==> !SoundOptions(o)
  {
    hide Run, SoundOptions, ValidOptions;
    ValidOptionsExactly(o);
    if |stream| >= HEADER_SIZE { NoLateOptions(hash, o, INITIAL, None, stream[HEADER_SIZE..]); }
  }
}
