/** The daemon client of `src/stt/client.py`: liveness check, send-and-collect, and the transcription helper. */
module Client {
  import opened Wrappers
  import opened Utf8
  import opened Text
  import opened Wire

  /** Why `daemon_send` raised instead of returning text. */
  datatype ClientError =
    | ConnectFailed     // connect raised: no socket file, or nobody listening
    | UndecodableReply  // the collected bytes are not valid UTF-8

  /** `daemon_running()`: true exactly when the daemon answered the probe with `pong`; connection errors are never raised. */
  function DaemonRunning(probe: Probe): (running: bool)
    ensures running <==> probe == Answered(Encode("pong"))
    ensures probe.Missing? || probe.Refused? || probe.OtherOsError? ==> !running
  {
    assert Encode("pong") == PONG by { EncodeAscii("pong"); }
    match probe
    case Answered(resp) => resp == PONG
    case _ => false
  }

  /**
   * The bytes `daemon_send` collects: chunk after chunk, in the order they
   * arrive, until the first empty chunk (the daemon closed the connection)
   * or a timeout. Running out of outcomes counts as the connection closing.
   */
  function Received(recvs: seq<Recv>): seq<byte>
  {
    if recvs == [] then []
    else match recvs[0]
      case TimedOut => []
      case Chunk(data) => if data == [] then [] else data + Received(recvs[1..])
  }

  /** What `daemon_send` returns or raises once it is connected and has collected `bytes`. */
  function DecodeReply(bytes: seq<byte>): (r: Result<string, ClientError>)
    ensures r.Success? <==> Decode(bytes).Some?
    ensures r.Success? ==> Encode(r.value) == bytes
    ensures r.Failure? ==> r.error == UndecodableReply
  {
    match Decode(bytes)
    case None => Failure(UndecodableReply)
    case Some(text) =>
      EncodeDecode(bytes);
      Success(text)
  }

  /**
   * `daemon_send(command)`: `connected` says whether connect succeeded,
   * `recvs` are the outcomes of the successive `recv(4096)` calls.
   * Returns the bytes sent to the daemon and the reply (or the error raised).
   */
  method DaemonSend(command: string, connected: bool, recvs: seq<Recv>)
    returns (sent: seq<byte>, reply: Result<string, ClientError>)
    ensures sent == (if connected then Encode(command) else [])
    ensures !connected ==> reply == Failure(ConnectFailed)
    ensures connected ==> reply == DecodeReply(Received(recvs))
  {
    if !connected {
      return [], Failure(ConnectFailed);
    }
    sent := Encode(command);
    var chunks: seq<seq<byte>> := [];
    var i := 0;
    while i < |recvs|
      invariant 0 <= i <= |recvs|
      invariant Flatten(chunks) + Received(recvs[i..]) == Received(recvs)
    {
      match recvs[i]
      case TimedOut =>
        assert recvs[i..][0] == TimedOut;
        assert Received(recvs[i..]) == [];
        break;
      case Chunk(data) =>
        assert recvs[i..][0] == Chunk(data);
        if data == [] {
          assert Received(recvs[i..]) == [];
          break;
        }
        assert recvs[i..][1..] == recvs[i + 1..];
        FlattenSnoc(chunks, data);
        chunks := chunks + [data];
      i := i + 1;
    }
    assert i == |recvs| ==> recvs[i..] == [];
    assert Flatten(chunks) == Received(recvs);
    reply := DecodeReply(Flatten(chunks));
  }

  /** The `recv` outcomes of a peer that sends `pieces` (none empty), in order. */
  function Deliveries(pieces: seq<seq<byte>>): (recvs: seq<Recv>)
    ensures |recvs| == |pieces|
  {
    seq(|pieces|, k requires 0 <= k < |pieces| => Chunk(pieces[k]))
  }

  /** The bytes received are the concatenation of everything delivered before the end of the stream, in order. */
  lemma {:induction false} ReceivedDeliveries(pieces: seq<seq<byte>>, tail: seq<Recv>)
    requires forall k :: 0 <= k < |pieces| ==> pieces[k] != []
    ensures Received(Deliveries(pieces) + tail) == Flatten(pieces) + Received(tail)
    decreases |pieces|
  {
    if pieces != [] {
      var recvs := Deliveries(pieces) + tail;
      assert recvs[0] == Chunk(pieces[0]);
      assert recvs[1..] == Deliveries(pieces[1..]) + tail;
      ReceivedDeliveries(pieces[1..], tail);
      assert pieces == [pieces[0]] + pieces[1..];
      FlattenCons(pieces[0], pieces[1..]);
    } else {
      assert Deliveries(pieces) + tail == tail;
    }
  }

  /** How a stream of deliveries can end: the peer closes, the read times out, or nothing more is observed. */
  predicate EndsStream(tail: seq<Recv>) {
    tail == [] || tail[0] == TimedOut || tail[0] == Chunk([])
  }

  /**
   * A peer that sends back the UTF-8 bytes of `text`, split into any
   * non-empty pieces, and then closes or goes quiet, makes `daemon_send`
   * return exactly `text`: the echo round trip.
   */
  lemma EchoRoundTrip(text: string, pieces: seq<seq<byte>>, tail: seq<Recv>)
    requires forall k :: 0 <= k < |pieces| ==> pieces[k] != []
    requires Flatten(pieces) == Encode(text)
    requires EndsStream(tail)
    ensures DecodeReply(Received(Deliveries(pieces) + tail)) == Success(text)
  {
    ReceivedDeliveries(pieces, tail);
    assert Received(tail) == [];
    var bytes := Received(Deliveries(pieces) + tail);
    assert bytes == Encode(text);
    DecodeEncode(text);
  }

  /** A timeout ends the reply: whatever arrived before it is kept and nothing after it is read. */
  lemma TimeoutKeepsPartial(pieces: seq<seq<byte>>, after: seq<Recv>)
    requires forall k :: 0 <= k < |pieces| ==> pieces[k] != []
    ensures Received(Deliveries(pieces) + [TimedOut] + after) == Flatten(pieces)
  {
    assert Deliveries(pieces) + [TimedOut] + after == Deliveries(pieces) + ([TimedOut] + after);
    ReceivedDeliveries(pieces, [TimedOut] + after);
  }

  /** The command `save_and_transcribe` sends for a temporary WAV file. */
  function TranscribeCommand(path: string): string
  {
    "transcribe " + path
  }

  /** The filter in `save_and_transcribe`: a reply starting with `ERROR:` becomes the empty transcript, anything else passes unchanged. */
  function TextOfReply(reply: string): (text: string)
    ensures !StartsWith(text, "ERROR:")
    ensures text == reply <==> !StartsWith(reply, "ERROR:")
    ensures text != reply ==> text == ""
  {
    if StartsWith(reply, "ERROR:") then "" else reply
  }

  /**
   * `save_and_transcribe(audio, rate)` after the audio has been written to
   * the temporary file `tmp`: send `transcribe <tmp>` and filter the reply.
   * Errors raised by `daemon_send` propagate.
   */
  method SaveAndTranscribe(tmp: string, connected: bool, recvs: seq<Recv>)
    returns (sent: seq<byte>, text: Result<string, ClientError>)
    ensures sent == (if connected then Encode(TranscribeCommand(tmp)) else [])
    ensures text.Success? ==> !StartsWith(text.value, "ERROR:")
    ensures text.Failure? <==> !connected || Decode(Received(recvs)).None?
    ensures text.Success? ==> text.value == TextOfReply(DecodeReply(Received(recvs)).value)
  {
    var reply;
    sent, reply := DaemonSend(TranscribeCommand(tmp), connected, recvs);
    match reply
    case Failure(e) =>
      text := Failure(e);
    case Success(t) =>
      text := Success(TextOfReply(t));
  }
}
