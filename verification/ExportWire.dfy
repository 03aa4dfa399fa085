/**
 The BWEX version 1 wire form: a 22-byte stream header, then records with a
 47-byte fixed header followed by path bytes and chunk bytes.
 */
module ExportWire {
  import opened Bytes
  import opened Paths

  const HEADER_SIZE: nat := 22
  const RECORD_SIZE: nat := 47

  const DIRECTORY: byte := 1
  const FILE: byte := 2
  const CHUNK: byte := 3
  const FILE_END: byte := 4
  const TERMINAL: byte := 5

  datatype Record = Record(kind: byte, pathLen: nat, chunkLen: nat, declared: nat, digest: digest)

  predicate Fits(r: Record) {
    && r.pathLen < 0x1_0000
    && r.chunkLen < 0x1_0000_0000
    && r.declared < 0x1_0000_0000_0000_0000
  }

  function EncodeRecord(r: Record): (raw: bytes)
    ensures |raw| == RECORD_SIZE
  {
    [r.kind] + EncodeBE(r.pathLen, 2) + EncodeBE(r.chunkLen, 4) + EncodeBE(r.declared, 8) + r.digest
  }

  function DecodeRecord(raw: bytes): (r: Record)
    requires |raw| == RECORD_SIZE
    ensures Fits(r)
  {
    Widths();
    Record(raw[0], DecodeBE(raw[1..3]), DecodeBE(raw[3..7]), DecodeBE(raw[7..15]), raw[15..47])
  }

  lemma DecodeEncodeRecord(r: Record)
    requires Fits(r)
    ensures DecodeRecord(EncodeRecord(r)) == r
  {
    Widths();
    DecodeEncodeBE(r.pathLen, 2);
    DecodeEncodeBE(r.chunkLen, 4);
    DecodeEncodeBE(r.declared, 8);
    var raw := EncodeRecord(r);
    assert raw[1..3] == EncodeBE(r.pathLen, 2);
    assert raw[3..7] == EncodeBE(r.chunkLen, 4);
    assert raw[7..15] == EncodeBE(r.declared, 8);
    assert raw[15..47] == r.digest;
  }

  lemma EncodeDecodeRecord(raw: bytes)
    requires |raw| == RECORD_SIZE
    ensures EncodeRecord(DecodeRecord(raw)) == raw
  {
    EncodeDecodeBE(raw[1..3]);
    EncodeDecodeBE(raw[3..7]);
    EncodeDecodeBE(raw[7..15]);
    assert raw == [raw[0]] + raw[1..3] + raw[3..7] + raw[7..15] + raw[15..47];
  }

  function StreamHeader(tx: bytes): bytes {
    Ascii("BWEX") + [0, 1] + tx
  }

  /** One exported object: a directory, or a file with the chunks that carry its bytes. */
  datatype Item = DirItem(name: bytes) | FileItem(name: bytes, chunks: seq<bytes>)

  function Concat(chunks: seq<bytes>): bytes {
    if chunks == [] then [] else chunks[0] + Concat(chunks[1..])
  }

  function TotalBytes(items: seq<Item>): nat {
    if items == [] then 0
    else (if items[0].FileItem? then |Concat(items[0].chunks)| else 0) + TotalBytes(items[1..])
  }

  /** A record, its path and its payload, followed by the rest of the stream. */
  function Emit(rec: Record, name: bytes, payload: bytes, tail: bytes): bytes
  {
    EncodeRecord(rec) + (name + (payload + tail))
  }

  function EmitChunks(chunks: seq<bytes>, tail: bytes): bytes {
    if chunks == [] then tail
    else Emit(Record(CHUNK, 0, |chunks[0]|, 0, ZERO_DIGEST), [], chunks[0], EmitChunks(chunks[1..], tail))
  }

  function EmitEnd(hash: Hash, data: bytes, tail: bytes): bytes {
    Emit(Record(FILE_END, 0, 0, 0, hash(data)), [], [], tail)
  }

  function EmitItem(hash: Hash, item: Item, tail: bytes): bytes {
    match item
    case DirItem(name) => Emit(Record(DIRECTORY, |name|, 0, 0, ZERO_DIGEST), name, [], tail)
    case FileItem(name, chunks) =>
      var data := Concat(chunks);
      Emit(Record(FILE, |name|, 0, |data|, ZERO_DIGEST), name, [], EmitChunks(chunks, EmitEnd(hash, data, tail)))
  }

  function EmitTerminal(total: nat): bytes {
    Emit(Record(TERMINAL, 0, 0, total, ZERO_DIGEST), [], [], [])
  }

  function EmitItems(hash: Hash, items: seq<Item>, tail: bytes): bytes {
    if items == [] then tail else EmitItem(hash, items[0], EmitItems(hash, items[1..], tail))
  }

  /** The whole stream that carries items under transaction tx. */
  function EncodeStream(hash: Hash, tx: bytes, items: seq<Item>): bytes {
    StreamHeader(tx) + EmitItems(hash, items, EmitTerminal(TotalBytes(items)))
  }
}
