/** The bounded JSON event stream of project commands, with room kept for one final error. */
module ProjectEvents {
  import opened Bytes
  import opened Paths

  const LIMIT: nat := 0x80_0000
  const RESERVE: nat := 0x1_0000
  const CHUNK: nat := 4096

  datatype Kind = Progress | Result | Error

  /** A JSON string escaper: at most six bytes for each byte. */
  type Escaper = bytes -> bytes

  ghost predicate Bounded(escape: Escaper) {
    forall m :: |escape(m)| <= 6 * |m|
  }

  function KindText(kind: Kind): (r: bytes)
    ensures |r| <= 8
  {
    match kind
    case Progress => Ascii("progress")
    case Result => Ascii("result")
    case Error => Ascii("error")
  }

  /** One event and its newline; data is JSON already. */
  function EventText(escape: Escaper, kind: Kind, operation: bytes, message: bytes, data: bytes): bytes {
    Ascii("{\"version\":1,\"type\":\"") + KindText(kind) + Ascii("\",\"operation\":\"") + escape(operation) + [34]
    + (if message == [] then [] else Ascii(",\"message\":\"") + escape(message) + [34])
    + (if data == [] then [] else Ascii(",\"data\":") + data)
    + [125, 10]
  }

  function Truncated(kind: Kind, message: bytes): bytes {
    if kind.Error? && |message| > CHUNK then message[..CHUNK] else message
  }

  /** The reserve always holds a truncated error event without data. */
  lemma ErrorFitsReserve(escape: Escaper, operation: bytes, message: bytes)
    requires Bounded(escape) && |operation| <= CHUNK
    ensures |EventText(escape, Error, operation, Truncated(Error, message), [])| <= RESERVE
  {
    assert |escape(operation)| <= 6 * |operation|;
    assert |escape(Truncated(Error, message))| <= 6 * |Truncated(Error, message)|;
  }

  /** The event's bytes, with a message and without data. */
  lemma EventBytes(escape: Escaper, operation: bytes, message: bytes)
    requires message != []
    ensures var head, tail := Ascii("{\"version\":1,\"type\":\""), EventTail(escape, operation, message);
      && EventText(escape, Progress, operation, message, []) == head + Ascii("progress") + tail
      && EventText(escape, Result, operation, message, []) == head + Ascii("result") + tail
      && EventText(escape, Error, operation, message, []) == head + Ascii("error") + tail
  {
    hide Ascii;
    assert KindText(Progress) == Ascii("progress") && KindText(Result) == Ascii("result") && KindText(Error) == Ascii("error");
    hide KindText, EventTail;
    NamedEvent(escape, Progress, operation, message);
    NamedEvent(escape, Result, operation, message);
    NamedEvent(escape, Error, operation, message);
  }

  /** What follows the name of the kind. */
  function EventTail(escape: Escaper, operation: bytes, message: bytes): bytes {
    Ascii("\",\"operation\":\"") + escape(operation) + Ascii("\",\"message\":\"") + escape(message) + [34, 125, 10]
  }

  lemma NamedEvent(escape: Escaper, kind: Kind, operation: bytes, message: bytes)
    requires message != []
    ensures EventText(escape, kind, operation, message, []) ==
            Ascii("{\"version\":1,\"type\":\"") + KindText(kind) + EventTail(escape, operation, message)
  {
    AsciiConcat("\"", ",\"message\":\"");
    assert "\"" + ",\"message\":\"" == "\",\"message\":\"" && Ascii("\"") == [34];
    hide Ascii, KindText;
    Regroup(Ascii("{\"version\":1,\"type\":\"") + KindText(kind), Ascii("\",\"operation\":\""), escape(operation),
            Ascii(",\"message\":\""), escape(message));
  }

  lemma Regroup(a: bytes, o: bytes, n: bytes, m: bytes, t: bytes)
    ensures a + o + n + [34] + (m + t + [34]) + [] + [125, 10] == a + (o + n + ([34] + m) + t + [34, 125, 10])
  {
  }

  datatype Failure = Full | SinkFailed | NotEncoded

  class Events {
    const operation: bytes
    const escape: Escaper
    /** What the underlying writer does with its n-th call: how many bytes it takes and whether it fails. */
    const sink: (nat, nat) -> (nat, bool)
    var calls: nat
    var written: nat
    var failure: Option<Failure>
    ghost var sent: seq<(Kind, bytes)>
    ghost var errors: nat

    constructor (operation: bytes, escape: Escaper, sink: (nat, nat) -> (nat, bool))
      requires forall k: nat, n: nat :: sink(k, n).0 <= n
      ensures Valid() && sent == [] && errors == 0 && failure.None?
      ensures this.operation == operation && this.escape == escape
    {
      this.operation, this.escape, this.sink := operation, escape, sink;
      calls, written, failure, sent, errors := 0, 0, None, [], 0;
    }

    ghost predicate Valid()
      reads this
    {
      && (forall k: nat, n: nat :: sink(k, n).0 <= n)
      && written <= LIMIT && failure != Some(NotEncoded)
      && (errors == 0 ==> written <= LIMIT - RESERVE)
    }

    /**
     An event is sent whole, or the failure says why not; the first error event is never refused for lack of room.
     encodes: its data has a JSON form.
     */
    method Emit(kind: Kind, message: bytes, data: bytes, encodes: bool) returns (r: Option<Failure>)
      requires Valid()
      modifies this
      ensures Valid()
      ensures !kind.Error? && old(failure).Some? ==> r == old(failure) && unchanged(this)
      ensures r.None? ==> sent == old(sent) + [(kind, Truncated(kind, message))]
      ensures r.None? && kind.Error? ==>
                |sent[|old(sent)|].1| <= 4096 && HasPrefix(message, sent[|old(sent)|].1) &&
                (|sent[|old(sent)|].1| == |message| || |sent[|old(sent)|].1| == 4096)
      ensures r.None? && !kind.Error? ==> sent[|old(sent)|].1 == message
      ensures r.None? ==> failure == old(failure)
      ensures r.None? ==> written == old(written) + |EventText(escape, kind, operation, Truncated(kind, message), data)|
      ensures r.Some? ==> sent == old(sent) && (failure.Some? || r == Some(NotEncoded))
      ensures r == Some(NotEncoded) ==> !encodes && unchanged(this)
      ensures encodes && (kind.Error? || old(failure).None?) ==>
        (r == Some(Full) <==>
         |EventText(escape, kind, operation, Truncated(kind, message), data)| >
         (if kind.Error? then 0x80_0000 else 0x7f_0000) - old(written))
      ensures encodes && (kind.Error? || old(failure).None?) && r != Some(Full) ==>
        var n := |EventText(escape, kind, operation, Truncated(kind, message), data)|;
        r.None? <==> sink(old(calls), n) == (n, false)
      ensures errors == old(errors) + if kind.Error? && encodes then 1 else 0
      ensures kind.Error? && encodes && old(errors) == 0 && Bounded(escape) && |operation| <= CHUNK && data == [] ==>
                r != Some(Full)
    {
      if !kind.Error? && failure.Some? { return failure; }
      if !encodes { return Some(NotEncoded); }
      var text := Truncated(kind, message);
      var raw := EventText(escape, kind, operation, text, data);
      if kind.Error? {
        if Bounded(escape) && |operation| <= CHUNK && data == [] { ErrorFitsReserve(escape, operation, message); }
        errors := errors + 1;
      }
      var limit := if kind.Error? then LIMIT else LIMIT - RESERVE;
      if |raw| > limit - written {
        failure := Some(Full);
        return failure;
      }
      var (n, failed) := sink(calls, |raw|);
      calls, written := calls + 1, written + n;
      if failed || n != |raw| {
        failure := Some(SinkFailed);
        return failure;
      }
      sent := sent + [(kind, text)];
      r := None;
    }

    /** Write: the bytes are sent in order as progress events of at most 4096 bytes, or the failure is reported. */
    method Write(p: bytes) returns (r: Option<Failure>)
      requires Valid()
      modifies this
      ensures Valid() && errors == old(errors)
      ensures |sent| >= |old(sent)| && sent[..|old(sent)|] == old(sent)
      ensures ProgressOnly(sent[|old(sent)|..])
      ensures r.None? ==> Text(sent[|old(sent)|..]) == p
      ensures r.Some? ==> HasPrefix(p, Text(sent[|old(sent)|..]))
    {
      hide EventText, KindText, Text, ProgressOnly;
      ghost var start := |sent|;
      NothingSent();
      assert sent[start..] == [] && p[..0] == [];
      var i := 0;
      while i < |p|
        invariant i <= |p| && Valid() && errors == old(errors)
        invariant start <= |sent| && sent[..start] == old(sent)
        invariant ProgressOnly(sent[start..]) && Text(sent[start..]) == p[..i]
      {
        var n := if |p| - i > CHUNK then CHUNK else |p| - i;
        ghost var before := sent;
        r := Emit(Progress, p[i..i + n], [], true);
        if r.Some? {
          PrefixOf(p, i);
          return;
        }
        assert sent[start..] == before[start..] + [(Progress, p[i..i + n])];
        ProgressSnoc(before[start..], p[i..i + n]);
        TextSnoc(before[start..], p[i..i + n]);
        assert p[..i + n] == p[..i] + p[i..i + n];
        i := i + n;
      }
      assert p[..i] == p;
      r := None;
    }
  }

  predicate ProgressOnly(events: seq<(Kind, bytes)>) {
    forall i :: 0 <= i < |events| ==> events[i].0.Progress? && |events[i].1| <= CHUNK
  }

  function Text(events: seq<(Kind, bytes)>): bytes {
    if events == [] then [] else Text(events[..|events| - 1]) + events[|events| - 1].1
  }

  lemma NothingSent()
    ensures ProgressOnly([]) && Text([]) == []
  {
  }

  lemma PrefixOf(p: bytes, i: nat)
    requires i <= |p|
    ensures HasPrefix(p, p[..i])
  {
  }

  lemma ProgressSnoc(events: seq<(Kind, bytes)>, m: bytes)
    requires ProgressOnly(events) && |m| <= CHUNK
    ensures ProgressOnly(events + [(Progress, m)])
  {
  }

  lemma TextSnoc(events: seq<(Kind, bytes)>, m: bytes)
    ensures Text(events + [(Progress, m)]) == Text(events) + m
  {
    assert (events + [(Progress, m)])[..|events|] == events;
  }
}
