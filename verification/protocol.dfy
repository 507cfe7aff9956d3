/**
 * The client and the daemon together: what a command sent by
 * `daemon_send` becomes on the daemon's side, and what the caller gets back.
 */
module Protocol {
  import opened Wrappers
  import opened Utf8
  import opened Text
  import opened Wire
  import Client
  import Daemon

  /** A command that fits in one `recv(4096)` reaches the daemon's dispatch exactly as the client wrote it, once stripped. */
  lemma CommandArrives(command: string)
    requires |Encode(command)| <= Daemon.RECV_SIZE
    ensures Daemon.ReceivedCommand(Encode(command)) == Some(Daemon.ParseCommand(Strip(command)))
  {
    DecodeEncode(command);
  }

  /** A command with no whitespace at either end is dispatched exactly as the client wrote it. */
  lemma UnpaddedArrives(command: string)
    requires |Encode(command)| <= Daemon.RECV_SIZE
    requires command != [] && !IsSpace(command[0]) && !IsSpace(command[|command| - 1])
    ensures Daemon.ReceivedCommand(Encode(command)) == Some(Daemon.ParseCommand(command))
  {
    CommandArrives(command);
    StripUnpadded(command);
  }

  /** A live daemon answers the client's liveness probe, so `daemon_running()` is true, and the daemon keeps serving. */
  lemma PingIsAnswered(be: Daemon.Backend)
    ensures Daemon.HandleClient(Encode("ping"), be) == Daemon.Handled(Some(Encode("pong")), true)
    ensures Client.DaemonRunning(Answered(Daemon.HandleClient(Encode("ping"), be).reply.value))
  {
    EncodeAscii("ping");
    UnpaddedArrives("ping");
  }

  /** `shutdown` is answered with `ok` and is the last connection the daemon serves. */
  lemma ShutdownIsLast(conns: seq<seq<byte>>, be: Daemon.Backend)
    requires conns != [] && conns[0] == Encode("shutdown")
    ensures Daemon.ServeReplies(conns, be) == [Some(Encode("ok"))]
  {
    ShutdownHandled(be);
    var hs := Daemon.Outcomes(conns, Daemon.Handler(be));
    Daemon.OutcomeAt(conns, Daemon.Handler(be), 0);
    assert hs[0] == Daemon.Handled(Some(Encode("ok")), false);
  }

  lemma ShutdownHandled(be: Daemon.Backend)
    ensures Daemon.HandleClient(Encode("shutdown"), be) == Daemon.Handled(Some(Encode("ok")), false)
  {
    ShutdownArrives();
  }

  lemma ShutdownArrives()
    ensures Daemon.ReceivedCommand(Encode("shutdown")) == Some(Daemon.Shutdown)
  {
    EncodeAscii("shutdown");
    UnpaddedArrives("shutdown");
  }

  /** The daemon refuses to start exactly when the client's check would report a running daemon on the existing socket. */
  lemma DuplicateCheckAgreesWithClient(probe: Probe)
    ensures Daemon.StaleSocketRule(true, probe) == Daemon.AbortDuplicate <==> Client.DaemonRunning(probe)
  {
    EncodeAscii("pong");
  }

  /** A path that `save_and_transcribe` sends is the path the daemon transcribes, provided it does not end in whitespace and the command fits in one read. */
  lemma TranscribeCommandParsed(path: string)
    requires path != [] && !IsSpace(path[|path| - 1])
    requires |Encode(Client.TranscribeCommand(path))| <= Daemon.RECV_SIZE
    ensures Daemon.ReceivedCommand(Encode(Client.TranscribeCommand(path))) == Some(Daemon.Transcribe(path))
  {
    var command := Client.TranscribeCommand(path);
    assert command[0] == 't';
    assert command[|command| - 1] == path[|path| - 1];
    UnpaddedArrives(command);
    Daemon.ParseTranscribe(path);
  }

  /**
   * End to end: whatever chunks the daemon's reply arrives in, the caller
   * of `save_and_transcribe` gets the transcript, and a failed
   * transcription reaches it as the empty text.
   */
  lemma TranscriptionReachesCaller(path: string, be: Daemon.Backend, pieces: seq<seq<byte>>, tail: seq<Recv>)
    requires path != [] && !IsSpace(path[|path| - 1])
    requires |Encode(Client.TranscribeCommand(path))| <= Daemon.RECV_SIZE
    requires forall k :: 0 <= k < |pieces| ==> pieces[k] != []
    requires Client.EndsStream(tail)
    requires Some(Flatten(pieces)) == Daemon.HandleClient(Encode(Client.TranscribeCommand(path)), be).reply
    ensures var r := Daemon.TranscribeFile(be, path);
      var reply := Client.DecodeReply(Client.Received(Client.Deliveries(pieces) + tail));
      && reply == Success(if r.Success? then r.value else "ERROR: " + r.error)
      && Client.TextOfReply(reply.value) == if r.Success? then Client.TextOfReply(r.value) else ""
  {
    TranscribeCommandParsed(path);
    var r := Daemon.TranscribeFile(be, path);
    var text := if r.Success? then r.value else "ERROR: " + r.error;
    Client.EchoRoundTrip(text, pieces, tail);
    if r.Failure? {
      assert StartsWith(text, "ERROR:") by {
        assert text[..|"ERROR:"|] == "ERROR:";
      }
    }
  }

  /**
   * The single `recv(4096)` truncates long commands: a `transcribe`
   * command whose UTF-8 form is longer than 4096 bytes never reaches the
   * model with its path intact.
   */
  lemma LongCommandIsCut(path: string)
    requires |Encode(Client.TranscribeCommand(path))| > Daemon.RECV_SIZE
    ensures Daemon.ReceivedCommand(Encode(Client.TranscribeCommand(path))) != Some(Daemon.Transcribe(path))
  {
    var got := Daemon.FirstRecv(Encode(Client.TranscribeCommand(path)));
    if Decode(got).Some? {
      var text := Decode(got).value;
      EncodeDecode(got);
      StripShortensEncoding(text);
      assert Strip(text) != Client.TranscribeCommand(path);
    }
  }

  /** Stripping never lengthens the UTF-8 form of a text. */
  lemma StripShortensEncoding(text: string)
    ensures |Encode(Strip(text))| <= |Encode(text)|
  {
    var k := LeadingSpaces(text);
    var stripped := Strip(text);
    assert text == text[..k] + stripped + text[k + |stripped|..];
    EncodeAppend(text[..k] + stripped, text[k + |stripped|..]);
    EncodeAppend(text[..k], stripped);
  }

  /** A reply sent in one piece and followed by the daemon closing the connection is returned as it was sent. */
  lemma OneChunkReply(text: string)
    requires text != []
    ensures Client.DecodeReply(Client.Received(Client.Deliveries([Encode(text)]) + [Chunk([])])) == Success(text)
  {
    var bytes := Encode(text);
    assert Flatten([bytes]) == Flatten([]) + bytes;
    Client.EchoRoundTrip(text, [bytes], [Chunk([])]);
  }

  /**
   * The server of the client test: it takes one `recv(4096)`, decodes it and
   * answers `"echo:"` followed by the text (None: the decode raises and
   * nothing is sent).
   */
  function EchoServer(sent: seq<byte>): (answer: Option<seq<byte>>)
    ensures answer.Some? <==> Decode(Daemon.FirstRecv(sent)).Some?
    ensures answer.Some? ==> Decode(answer.value) == Some("echo:" + Decode(Daemon.FirstRecv(sent)).value)
  {
    match Decode(Daemon.FirstRecv(sent))
    case None => None
    case Some(data) =>
      DecodeEncode("echo:" + data);
      Some(Encode("echo:" + data))
  }

  /** A text that fits in one `recv(4096)` comes back from the echoing server with the `echo:` prefix. */
  lemma EchoExchange(text: string)
    requires |Encode(text)| <= Daemon.RECV_SIZE
    ensures EchoServer(Encode(text)) == Some(Encode("echo:" + text))
  {
    DecodeEncode(text);
  }

  /**
   * `daemon_send(text)` against the echoing server: the client sends the
   * UTF-8 text, the server answers in one chunk and closes, and the call
   * returns the text with the `echo:` prefix.
   */
  method EchoCall(text: string) returns (sent: seq<byte>, reply: Result<string, Client.ClientError>)
    requires |Encode(text)| <= Daemon.RECV_SIZE
    ensures sent == Encode(text)
    ensures EchoServer(sent) == Some(Encode("echo:" + text))
    ensures reply == Success("echo:" + text)
  {
    EchoExchange(text);
    var answer := EchoServer(Encode(text)).value;
    sent, reply := Client.DaemonSend(text, true, [Chunk(answer), Chunk([])]);
    OneChunkReply("echo:" + text);
    assert Client.Deliveries([answer]) + [Chunk([])] == [Chunk(answer), Chunk([])];
  }

  /** An ASCII text of at most 4096 characters fits in one `recv(4096)`. */
  lemma AsciiFitsOneRead(text: string)
    requires forall i :: 0 <= i < |text| ==> text[i] as int < 0x80
    requires |text| <= Daemon.RECV_SIZE
    ensures |Encode(text)| <= Daemon.RECV_SIZE
  {
    EncodeAscii(text);
  }

  /** The client test against the echoing server: `daemon_send("hello world")` returns `"echo:hello world"`. */
  method EchoServerExample() returns (sent: seq<byte>, reply: Result<string, Client.ClientError>)
    ensures sent == Encode("hello world")
    ensures reply == Success("echo:" + "hello world")
  {
    AsciiFitsOneRead("hello world");
    sent, reply := EchoCall("hello world");
  }
}
