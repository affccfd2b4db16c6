/** Line framing of protocol messages (chat/src/utils.rs): `send_json` writes a
    message as one JSON text followed by a newline; `receive` splits the incoming
    bytes into lines and decodes each line on its own.

    serde_json is not part of this model. A `Codec` stands for its `to_string`
    and `from_str` at one message type, and `Lawful` states the two facts of
    serde_json the framing relies on. */
module Framing {
  import opened Wrappers

  /** `ChatError`, the boxed error of a `ChatResult`: a failure of the
      connection, or a failure of serde_json. */
  datatype ChatError = Io(detail: string) | Json(detail: string)

  /** serde_json at one message type `M`: `ser` is `to_string`, `de` is `from_str`. */
  datatype Codec<!M> = Codec(ser: M -> Result<string, string>, de: string -> Result<M, string>)

  /** `s` can stand as one line of a stream: it has no newline, and it does not
      end in a carriage return (which `lines()` would drop before a newline). */
  predicate OneLine(s: string) {
    '\n' !in s && (s == [] || s[|s| - 1] != '\r')
  }

  /** The two facts of serde_json the framing relies on: a serialised message is
      one line (JSON escapes control characters inside strings), and it
      deserialises back to the message. */
  ghost predicate Lawful<M(!new)>(c: Codec<M>) {
    forall m :: c.ser(m).Ok? ==> OneLine(c.ser(m).value) && c.de(c.ser(m).value) == Ok(m)
  }

  // ---------------------------------------------------------------------------
  // Sending

  /** The bytes `send_json` writes for `packet`: its JSON text and one newline. */
  function Frame<M>(c: Codec<M>, packet: M): Result<string, ChatError> {
    match c.ser(packet)
    case Ok(json) => Ok(json + "\n")
    case Err(e) => Err(Json(e))
  }

  /** The bytes a connection carries after `send_json` succeeded for each of `ms` in turn. */
  function Transcript<M>(c: Codec<M>, ms: seq<M>): string
    requires forall i :: 0 <= i < |ms| ==> c.ser(ms[i]).Ok?
  {
    if ms == [] then [] else Frame(c, ms[0]).value + Transcript(c, ms[1..])
  }

  /** The write half of a connection: what has been written so far, and the
      I/O failure, if any, that the connection reports on a write. */
  class Sink {
    var written: string
    var fault: Option<string>

    constructor (fault: Option<string>)
      ensures written == [] && this.fault == fault
    {
      written := [];
      this.fault := fault;
    }

    /** `write_all`: all of `bytes`, or the connection's failure and nothing. */
    method WriteAll(bytes: string) returns (r: Result<(), ChatError>)
      modifies this`written
      ensures fault.None? ==> r == Ok(()) && written == old(written) + bytes
      ensures fault.Some? ==> r == Err(Io(fault.value)) && written == old(written)
    {
      match fault
      case None =>
        written := written + bytes;
        r := Ok(());
      case Some(e) =>
        r := Err(Io(e));
    }
  }

  /** `send_json`: serialise `packet`, push one newline, write the buffer to `leaving`. */
  method SendJson<M>(leaving: Sink, c: Codec<M>, packet: M) returns (r: Result<(), ChatError>)
    modifies leaving`written
    ensures c.ser(packet).Err? ==> r == Err(Json(c.ser(packet).error)) && leaving.written == old(leaving.written)
    ensures c.ser(packet).Ok? && leaving.fault.None? ==>
              r == Ok(()) && leaving.written == old(leaving.written) + c.ser(packet).value + "\n"
    ensures c.ser(packet).Ok? && leaving.fault.Some? ==>
              r == Err(Io(leaving.fault.value)) && leaving.written == old(leaving.written)
    ensures r.Ok? <==> Frame(c, packet).Ok? && leaving.fault.None?
    ensures r.Ok? ==> leaving.written == old(leaving.written) + Frame(c, packet).value
  {
    var json: string;
    match c.ser(packet) {
      case Err(e) =>
        return Err(Json(e));
      case Ok(s) =>
        json := s;
    }
    json := json + ['\n'];
    r := leaving.WriteAll(json);
  }

  // ---------------------------------------------------------------------------
  // Receiving

  /** The index of the first newline in `s` at or after `i`, or `|s|`. */
  function NextNewline(s: string, i: nat): (k: nat)
    requires i <= |s|
    ensures i <= k <= |s|
    ensures forall j :: i <= j < k ==> s[j] != '\n'
    ensures k == |s| || s[k] == '\n'
    decreases |s| - i
  {
    if i < |s| && s[i] != '\n' then NextNewline(s, i + 1) else i
  }

  /** A line read up to a newline, without the newline and a carriage return before it. */
  function StripCr(line: string): string {
    if line != [] && line[|line| - 1] == '\r' then line[..|line| - 1] else line
  }

  /** `lines()` on a stream that delivers `data`: the text between newlines, each
      without its newline or the "\r\n" that ends it; a last line without a newline
      counts, and the empty stream has no lines. */
  function Lines(data: string): (r: seq<string>)
    ensures forall i :: 0 <= i < |r| ==> '\n' !in r[i]
    ensures |r| <= |data|
    decreases |data|
  {
    if data == [] then []
    else
      var k := NextNewline(data, 0);
      if k == |data| then [data]
      else
        assert forall j :: 0 <= j < k ==> data[..k][j] == data[j];
        [StripCr(data[..k])] + Lines(data[k + 1..])
  }

  /** The closure `receive` maps over the line stream: a line-read error, or a line
      that does not decode, is an `Err` item. */
  function DecodeLine<M>(c: Codec<M>, line: Result<string, string>): Result<M, ChatError> {
    match line
    case Err(e) => Err(Io(e))
    case Ok(li) =>
      match c.de(li)
      case Ok(msg) => Ok(msg)
      case Err(e) => Err(Json(e))
  }

  /** `receive`: one item per line read, in order; an `Err` item does not end the stream. */
  function Receive<M>(c: Codec<M>, incoming: seq<Result<string, string>>): (r: seq<Result<M, ChatError>>)
    ensures |r| == |incoming|
    ensures forall i :: 0 <= i < |r| ==> r[i] == DecodeLine(c, incoming[i])
  {
    if incoming == [] then [] else [DecodeLine(c, incoming[0])] + Receive(c, incoming[1..])
  }

  /** The line stream of a connection that delivers `data` without an I/O failure. */
  function ReadLines(data: string): seq<Result<string, string>> {
    var ls := Lines(data);
    seq(|ls|, i requires 0 <= i < |ls| => Ok(ls[i]))
  }

  // ---------------------------------------------------------------------------
  // The framing laws

  /** A read without failure of a line and its newline yields that line, then the
      lines of what follows. */
  lemma ReadLinesOfFrame(s: string, rest: string)
    requires OneLine(s)
    ensures ReadLines(s + "\n" + rest) == [Ok(s)] + ReadLines(rest)
  {
    LinesOfFrame(s, rest);
  }

  /** A line followed by a newline is read back as that line, before the lines of what follows. */
  lemma LinesOfFrame(s: string, rest: string)
    requires OneLine(s)
    ensures Lines(s + "\n" + rest) == [s] + Lines(rest)
  {
    var data := s + "\n" + rest;
    var k := NextNewline(data, 0);
    assert forall j :: 0 <= j < |s| ==> data[j] == s[j];
    assert data[|s|] == '\n';
    assert data[..k] == s;
    assert data[k + 1..] == rest;
  }

  /** The bytes of successive `send_json` calls split back into the JSON texts, in order. */
  lemma {:induction false} LinesOfTranscript<M(!new)>(c: Codec<M>, ms: seq<M>)
    requires Lawful(c)
    requires forall i :: 0 <= i < |ms| ==> c.ser(ms[i]).Ok?
    ensures |Lines(Transcript(c, ms))| == |ms|
    ensures forall i :: 0 <= i < |ms| ==> Lines(Transcript(c, ms))[i] == c.ser(ms[i]).value
  {
    if ms != [] {
      var json := c.ser(ms[0]).value;
      LinesOfTranscript(c, ms[1..]);
      LinesOfFrame(json, Transcript(c, ms[1..]));
      assert Transcript(c, ms) == json + "\n" + Transcript(c, ms[1..]);
    }
  }

  /** Round trip: receiving the bytes of successive `send_json` calls yields exactly
      the messages sent, each decoded, in order. */
  lemma ReceiveTranscript<M(!new)>(c: Codec<M>, ms: seq<M>)
    requires Lawful(c)
    requires forall i :: 0 <= i < |ms| ==> c.ser(ms[i]).Ok?
    ensures |Receive(c, ReadLines(Transcript(c, ms)))| == |ms|
    ensures forall i :: 0 <= i < |ms| ==> Receive(c, ReadLines(Transcript(c, ms)))[i] == Ok(ms[i])
  {
    LinesOfTranscript(c, ms);
  }

  /** The two-message case of the round trip. */
  lemma ReceiveTwo<M(!new)>(c: Codec<M>, m1: M, m2: M)
    requires Lawful(c)
    requires c.ser(m1).Ok? && c.ser(m2).Ok?
    ensures Receive(c, ReadLines(Frame(c, m1).value + Frame(c, m2).value)) == [Ok(m1), Ok(m2)]
  {
    var ms := [m1, m2];
    ReceiveTranscript(c, ms);
    assert Transcript(c, ms[1..][1..]) == [];
    assert Transcript(c, ms) == Frame(c, m1).value + Frame(c, m2).value;
  }

  lemma LinesOfOne(j: string)
    requires OneLine(j)
    ensures Lines(j + "\n") == [j]
  {
  }

  /** The lines of three framed texts. */
  lemma LinesOfThree(j1: string, j2: string, j3: string)
    requires OneLine(j1) && OneLine(j2) && OneLine(j3)
    ensures Lines(j1 + "\n" + (j2 + "\n" + (j3 + "\n"))) == [j1, j2, j3]
  {
    LinesOfOne(j3);
    LinesOfFrame(j2, j3 + "\n");
    LinesOfFrame(j1, j2 + "\n" + (j3 + "\n"));
  }

  /** A malformed middle line is one `Err` item between the two messages around it. */
  lemma ReceiveMalformedMiddle<M(!new)>(c: Codec<M>, m1: M, bad: string, m3: M)
    requires Lawful(c)
    requires c.ser(m1).Ok? && c.ser(m3).Ok?
    requires OneLine(bad) && c.de(bad).Err?
    ensures Receive(c, ReadLines(Frame(c, m1).value + bad + "\n" + Frame(c, m3).value))
         == [Ok(m1), Err(Json(c.de(bad).error)), Ok(m3)]
  {
    var j1, j3 := c.ser(m1).value, c.ser(m3).value;
    var f1, f3 := Frame(c, m1).value, Frame(c, m3).value;
    var data := f1 + bad + "\n" + f3;
    assert data == f1 + (bad + ("\n" + f3));
    assert bad + "\n" + f3 == bad + ("\n" + f3);
    assert data == j1 + "\n" + (bad + "\n" + (j3 + "\n"));
    LinesOfThree(j1, bad, j3);
    var rs := Receive(c, ReadLines(data));
    assert |rs| == 3;
    assert rs[0] == DecodeLine(c, Ok(j1)) == Ok(m1);
    assert rs[1] == DecodeLine(c, Ok(bad)) == Err(Json(c.de(bad).error));
    assert rs[2] == DecodeLine(c, Ok(j3)) == Ok(m3);
  }

  /** An `Err` item does not stop the stream: the items of a concatenation of
      line streams are the items of each. */
  lemma ReceiveAppend<M>(c: Codec<M>, xs: seq<Result<string, string>>, ys: seq<Result<string, string>>)
    ensures Receive(c, xs + ys) == Receive(c, xs) + Receive(c, ys)
  {
  }
}
