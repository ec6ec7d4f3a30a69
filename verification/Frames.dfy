/**
 Length-prefixed frames on byte streams. A reader is the bytes still to come and whether an I/O
 error or end of file follows them; a writer is the bytes accepted so far and how many more are
 accepted before writing fails.
 */
module Frames {
  import opened Bytes
  import opened Protocol

  // ---------------------------------------------------------------- reading

  /** What `read_frame` answers, and the bytes it leaves unread. */
  datatype Reading = Reading(outcome: Outcome<Option<Message>>, rest: seq<byte>)

  function EndOfInput<T>(broken: bool, truncated: string): Outcome<T> {
    if broken then Failure(Io) else Invalid(truncated)
  }

  function ReadFrame(input: seq<byte>, broken: bool): (r: Reading)
    ensures |r.rest| <= |input|
    ensures r.outcome.Success? && r.outcome.value.Some? ==> |r.rest| < |input| && WellFormed(r.outcome.value.value)
  {
    if input == [] then Reading(if broken then Failure(Io) else Success(None), [])
    else if |input| < 4 then Reading(EndOfInput(broken, "truncated frame header"), [])
    else
      var length := FromBigEndian(input[..4]);
      if length == 0 || length > MAX_FRAME_BYTES then
        Reading(Invalid("frame length is outside bounds"), input[4..])
      else if |input| < 4 + length then Reading(EndOfInput(broken, "truncated frame body"), [])
      else
        var rest := input[4 + length..];
        match FromWire(input[4..4 + length])
        case Success(m) => Reading(Success(Some(m)), rest)
        case Failure(error) => Reading(Failure(error), rest)
  }

  // ---------------------------------------------------------------- writing

  /** The bytes `write_frame` hands to the writer. */
  function Frame(m: Message): Outcome<seq<byte>>
    requires WellFormed(m)
  {
    var body :- ToWire(m);
    if |body| >= U32_LIMIT then Invalid("frame length overflow")
    else if |body| == 0 || |body| > MAX_FRAME_BYTES then Invalid("frame length is outside bounds")
    else Success(BigEndian(|body|, 4) + body)
  }

  datatype Sink = Sink(output: seq<byte>, room: Option<nat>)

  /** `write_all`: all of the bytes, or as many as there is room for and then an error. */
  function Put(sink: Sink, bytes: seq<byte>): (r: (Sink, bool)) {
    match sink.room
    case None => (Sink(sink.output + bytes, None), true)
    case Some(n) =>
      if |bytes| <= n then (Sink(sink.output + bytes, Some(n - |bytes|)), true)
      else (Sink(sink.output + bytes[..n], Some(0)), false)
  }

  function PutFrame(sink: Sink, m: Message): (r: (Sink, Outcome<()>))
    requires WellFormed(m)
    ensures sink.room == None ==> r.0.room == None
  {
    match Frame(m)
    case Failure(error) => (sink, Failure(error))
    case Success(frame) =>
      var (after, ok) := Put(sink, frame);
      (after, if ok then Success(()) else Failure(Io))
  }

  /** The header and the body are written one after the other, which is writing the frame. */
  lemma PutInTwo(sink: Sink, head: seq<byte>, body: seq<byte>)
    requires body != []
    ensures Put(sink, head + body) ==
            if Put(sink, head).1 then Put(Put(sink, head).0, body) else Put(sink, head)
  {
    match sink.room
    case None => assert sink.output + (head + body) == sink.output + head + body;
    case Some(n) =>
      assert sink.output + (head + body) == sink.output + head + body;
      if n < |head| {
        assert (head + body)[..n] == head[..n];
      } else if n < |head| + |body| {
        assert (head + body)[..n] == head + body[..n - |head|];
        assert sink.output + (head + body[..n - |head|]) == sink.output + head + body[..n - |head|];
      }
  }

  // ---------------------------------------------------------------- streams as objects

  class ByteReader {
    var data: seq<byte>
    const broken: bool

    constructor (data: seq<byte>, broken: bool)
      ensures this.data == data && this.broken == broken
    {
      this.data, this.broken := data, broken;
    }

    /** `Read::read_exact`: exactly `n` bytes, or everything that was left and an error. */
    method ReadExact(n: nat, truncated: string) returns (r: Outcome<seq<byte>>)
      modifies this
      ensures if n <= |old(data)| then r == Success(old(data)[..n]) && data == old(data)[n..]
              else r == EndOfInput(broken, truncated) && data == []
    {
      if n <= |data| {
        r := Success(data[..n]);
        data := data[n..];
      } else {
        r := EndOfInput(broken, truncated);
        data := [];
      }
    }

    method NextFrame() returns (r: Outcome<Option<Message>>)
      modifies this
      ensures Reading(r, data) == ReadFrame(old(data), broken)
      ensures r.Success? && r.value.Some? ==> WellFormed(r.value.value)
    {
      hide FromWire;
      if data == [] {
        return if broken then Failure(Io) else Success(None);
      }
      var header := ReadExact(4, "truncated frame header");
      if header.Failure? {
        return Failure(header.error);
      }
      var length := FromBigEndian(header.value);
      if length == 0 || length > MAX_FRAME_BYTES {
        return Invalid("frame length is outside bounds");
      }
      var body := ReadExact(length, "truncated frame body");
      if body.Failure? {
        return Failure(body.error);
      }
      assert body.Success? ==> body.value == old(data)[4..4 + length];
      var m := FromWire(body.value);
      r := if m.Success? then Success(Some(m.value)) else Failure(m.error);
    }
  }

  class ByteWriter {
    var output: seq<byte>
    var room: Option<nat>

    constructor (room: Option<nat>)
      ensures output == [] && this.room == room
    {
      output := [];
      this.room := room;
    }

    function State(): Sink
      reads this
    {
      Sink(output, room)
    }

    method WriteAll(bytes: seq<byte>) returns (ok: bool)
      modifies this
      ensures (State(), ok) == Put(old(State()), bytes)
    {
      match room
      case None =>
        output := output + bytes;
        ok := true;
      case Some(n) =>
        ok := |bytes| <= n;
        if ok {
          output, room := output + bytes, Some(n - |bytes|);
        } else {
          output, room := output + bytes[..n], Some(0);
        }
    }

    method WriteFrame(m: Message) returns (r: Outcome<()>)
      requires WellFormed(m)
      modifies this
      ensures (State(), r) == PutFrame(old(State()), m)
    {
      hide ToWire, NewMessage, BigEndian, Put;
      var body := ToWire(m);
      if body.Failure? {
        return Failure(body.error);
      }
      if |body.value| >= U32_LIMIT {
        return Invalid("frame length overflow");
      }
      if |body.value| == 0 || |body.value| > MAX_FRAME_BYTES {
        return Invalid("frame length is outside bounds");
      }
      PutInTwo(State(), BigEndian(|body.value|, 4), body.value);
      var ok := WriteAll(BigEndian(|body.value|, 4));
      if ok {
        ok := WriteAll(body.value);
      }
      r := if ok then Success(()) else Failure(Io);
    }
  }
}
