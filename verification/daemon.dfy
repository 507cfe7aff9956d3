/**
 * The transcription daemon of `src/stt/daemon.py`: post-processing around
 * the speech model, the one-command-per-connection protocol, the accept
 * loop, stale-socket recovery at startup and cleanup at exit.
 */
module Daemon {
  import opened Wrappers
  import opened Utf8
  import opened Text
  import opened Wire

  /** Sample rate the speech model requires. */
  const WHISPER_RATE: int := 16000
  /** `WHISPER_RATE * 0.3`: audio with fewer samples is not worth transcribing. */
  const MIN_TRANSCRIBE_SAMPLES: int := 4800
  /** The daemon reads a command with a single `recv(4096)`. */
  const RECV_SIZE: nat := 4096
  const SOCKET_PATH: string := "~/.local/state/stt.sock"
  const PID_PATH: string := "~/.local/state/stt-daemon.pid"

  /** One multi-channel sample frame: one value per channel, at least one channel. */
  type Row = r: seq<real> | |r| > 0 witness [0.0]

  /** What `soundfile.read` returns: a 1-D array for mono files, a 2-D array (frames by channels) otherwise. */
  datatype Samples = Mono(samples: seq<real>) | MultiChannel(rows: seq<Row>)

  datatype SoundFile = SoundFile(data: Samples, rate: int)

  /**
   * The collaborators whose code is not part of this model: reading an
   * audio file, resampling, and running the speech model (which yields the
   * text of each recognised segment). A Failure carries the message of the
   * exception raised.
   */
  datatype Backend = Backend(
    read: string -> Result<SoundFile, string>,
    resample: (seq<real>, int, int) -> seq<real>,
    infer: seq<real> -> Result<seq<string>, string>)

  /** `audio[:, 0]` for multi-channel input: only the first channel is kept. */
  function FirstChannel(data: Samples): (audio: seq<real>)
    ensures data.Mono? ==> audio == data.samples
    ensures data.MultiChannel? ==> |audio| == |data.rows|
    ensures data.MultiChannel? ==> forall i :: 0 <= i < |audio| ==> audio[i] == data.rows[i][0]
  {
    match data
    case Mono(samples) => samples
    case MultiChannel(rows) => seq(|rows|, i requires 0 <= i < |rows| => rows[i][0])
  }

  /** The mono audio at the model's rate that `transcribe_file` hands to the model. */
  function PreparedAudio(be: Backend, file: SoundFile): seq<real>
  {
    var mono := FirstChannel(file.data);
    if file.rate != WHISPER_RATE then be.resample(mono, file.rate, WHISPER_RATE) else mono
  }

  /** `" ".join(seg.text.strip() for seg in segments)`. */
  function Transcript(segments: seq<string>): (text: string)
  {
    Join(seq(|segments|, i requires 0 <= i < |segments| => Strip(segments[i])))
  }

  /** `transcribe_file(model, path)`: the transcript, or the message of the exception it raises. */
  function TranscribeFile(be: Backend, path: string): (r: Result<string, string>)
    ensures be.read(path).Failure? ==> r == Failure(be.read(path).error)
    ensures be.read(path).Success? && |PreparedAudio(be, be.read(path).value)| < MIN_TRANSCRIBE_SAMPLES ==> r == Success("")
    ensures r.Success? && r.value != "" ==>
      be.read(path).Success? && |PreparedAudio(be, be.read(path).value)| >= MIN_TRANSCRIBE_SAMPLES
      && be.infer(PreparedAudio(be, be.read(path).value)).Success?
    ensures be.read(path).Success? && |PreparedAudio(be, be.read(path).value)| >= MIN_TRANSCRIBE_SAMPLES ==>
      r == (match be.infer(PreparedAudio(be, be.read(path).value))
            case Success(segments) => Success(Transcript(segments))
            case Failure(e) => Failure(e))
  {
    match be.read(path)
    case Failure(e) => Failure(e)
    case Success(file) =>
      var audio := PreparedAudio(be, file);
      if |audio| < MIN_TRANSCRIBE_SAMPLES then Success("")
      else match be.infer(audio)
        case Failure(e) => Failure(e)
        case Success(segments) => Success(Transcript(segments))
  }

  /** The segment texts are stripped and joined with single spaces: no segment that strips to text leaves whitespace at the ends. */
  lemma TranscriptUnpadded(segments: seq<string>)
    requires forall i :: 0 <= i < |segments| ==> Strip(segments[i]) != []
    ensures Transcript(segments) == [] <==> segments == []
    ensures Strip(Transcript(segments)) == Transcript(segments)
  {
    var parts := seq(|segments|, i requires 0 <= i < |segments| => Strip(segments[i]));
    JoinUnpadded(parts);
    StripUnpadded(Join(parts));
  }

  /**
   * A segment that strips to nothing still takes its place in the join, so
   * the transcript then starts with a space: the transcript is not stripped
   * again.
   */
  lemma TranscriptKeepsBlankSegment(blank: string, segment: string)
    requires Strip(blank) == [] && Strip(segment) != []
    ensures Transcript([blank, segment]) == " " + Strip(segment)
    ensures Strip(Transcript([blank, segment])) != Transcript([blank, segment])
  {
    var parts := [Strip(blank), Strip(segment)];
    assert seq(2, i requires 0 <= i < 2 => Strip([blank, segment][i])) == parts;
    assert parts[..1] == [[]];
    assert Join(parts[..1]) == [];
    var t := " " + Strip(segment);
    assert Join(parts) == [] + " " + Strip(segment) == t;
    assert Transcript([blank, segment]) == t;
    assert IsSpace(t[0]);
  }

  /** A command after `strip()`. */
  datatype Command = Blank | Ping | Shutdown | Transcribe(path: string) | Unknown

  /** The dispatch on the stripped command text in `handle_client`. */
  function ParseCommand(data: string): (cmd: Command)
    ensures cmd == Blank <==> data == ""
    ensures cmd == Ping <==> data == "ping"
    ensures cmd == Shutdown <==> data == "shutdown"
    ensures cmd.Transcribe? <==> StartsWith(data, "transcribe ")
    ensures cmd.Transcribe? ==> data == "transcribe " + cmd.path
  {
    if data == "" then Blank
    else if data == "ping" then Ping
    else if data == "shutdown" then Shutdown
    else if StartsWith(data, "transcribe ") then Transcribe(data[|"transcribe "|..])
    else Unknown
  }

  /** What one `recv(4096)` delivers of the bytes the client sent. */
  function FirstRecv(sent: seq<byte>): (got: seq<byte>)
    ensures |got| <= RECV_SIZE
    ensures |sent| <= RECV_SIZE ==> got == sent
    ensures got == sent[..|got|]
  {
    if |sent| <= RECV_SIZE then sent else sent[..RECV_SIZE]
  }

  /** The command the daemon sees, or None when the received bytes are not valid UTF-8 (the decode raises). */
  function ReceivedCommand(sent: seq<byte>): (r: Option<Command>)
    ensures r.None? <==> Decode(FirstRecv(sent)).None?
    ensures r.Some? ==> r.value == ParseCommand(Strip(Decode(FirstRecv(sent)).value))
    ensures |sent| <= RECV_SIZE && Decode(sent).Some? ==> r == Some(ParseCommand(Strip(Decode(sent).value)))
  {
    match Decode(FirstRecv(sent))
    case None => None
    case Some(text) => Some(ParseCommand(Strip(text)))
  }

  /** The outcome of `handle_client`: the one reply sent, if any, and whether the daemon keeps serving. */
  datatype Handled = Handled(reply: Option<seq<byte>>, keepRunning: bool)

  function ErrorReply(message: string): seq<byte>
  {
    Encode("ERROR: " + message)
  }

  /** The reply and the keep-running flag `handle_client` produces for a received command (None: the bytes did not decode). */
  function HandleCommand(received: Option<Command>, be: Backend): (h: Handled)
    ensures !h.keepRunning <==> received == Some(Shutdown)
    ensures h.reply.None? <==> received == None || received == Some(Blank)
    ensures received == Some(Ping) ==> h.reply == Some(Encode("pong"))
    ensures received == Some(Shutdown) ==> h.reply == Some(Encode("ok"))
    ensures received == Some(Unknown) ==> h.reply == Some(Encode("ERROR: unknown command"))
    ensures received.Some? && received.value.Transcribe? ==>
      var r := TranscribeFile(be, received.value.path);
      h.reply == Some(if r.Success? then Encode(r.value) else ErrorReply(r.error))
  {
    match received
    case None => Handled(None, true)
    case Some(cmd) =>
      match cmd
      case Blank => Handled(None, true)
      case Ping => Handled(Some(Encode("pong")), true)
      case Shutdown => Handled(Some(Encode("ok")), false)
      case Transcribe(path) =>
        (match TranscribeFile(be, path)
         case Success(text) => Handled(Some(Encode(text)), true)
         case Failure(e) => Handled(Some(ErrorReply(e)), true))
      case Unknown => Handled(Some(Encode("ERROR: unknown command")), true)
  }

  /** `handle_client(conn, model)` for a client that sent `sent`: every connection gets at most one reply and is closed. */
  function HandleClient(sent: seq<byte>, be: Backend): (h: Handled)
    ensures !h.keepRunning <==> ReceivedCommand(sent) == Some(Shutdown)
    ensures h.reply.None? <==> Decode(FirstRecv(sent)).None? || Strip(Decode(FirstRecv(sent)).value) == ""
  {
    HandleCommand(ReceivedCommand(sent), be)
  }

  /** A path the daemon extracts is never empty and never ends in whitespace, because the command was stripped first. */
  lemma TranscribePathShape(sent: seq<byte>)
    requires ReceivedCommand(sent).Some? && ReceivedCommand(sent).value.Transcribe?
    ensures var p := ReceivedCommand(sent).value.path; p != [] && !IsSpace(p[|p| - 1])
  {
    var text := Decode(FirstRecv(sent)).value;
    var data := Strip(text);
    var p := ReceivedCommand(sent).value.path;
    assert data == "transcribe " + p;
    if p != [] {
      assert data[|data| - 1] == p[|p| - 1];
    }
  }

  /** `handle_client` with the model loaded in `be`, as the accept loop calls it. */
  function Handler(be: Backend): seq<byte> -> Handled
  {
    sent => HandleClient(sent, be)
  }

  /** What `handle` decides for each connection in `conns`, in order. */
  function Outcomes(conns: seq<seq<byte>>, handle: seq<byte> -> Handled): (hs: seq<Handled>)
    ensures |hs| == |conns|
  {
    seq(|conns|, i requires 0 <= i < |conns| => handle(conns[i]))
  }

  lemma OutcomeAt(conns: seq<seq<byte>>, handle: seq<byte> -> Handled, i: nat)
    requires i < |conns|
    ensures Outcomes(conns, handle)[i] == handle(conns[i])
  {
  }

  /** The replies sent for a run of handler outcomes: served in order until one says to stop. */
  function Replies(hs: seq<Handled>): seq<Option<seq<byte>>>
  {
    if hs == [] then []
    else [hs[0].reply] + if hs[0].keepRunning then Replies(hs[1..]) else []
  }

  /** The replies of the accept loop in `main`, one per accepted connection. */
  function ServeReplies(conns: seq<seq<byte>>, be: Backend): seq<Option<seq<byte>>>
  {
    Replies(Outcomes(conns, Handler(be)))
  }

  /** Serving stops exactly after the first outcome that says to stop, and every earlier outcome's reply is sent in order. */
  lemma {:induction false} RepliesStopAtFirstStop(hs: seq<Handled>)
    ensures var n := |Replies(hs)|;
      && n <= |hs|
      && (forall i :: 0 <= i < n ==> Replies(hs)[i] == hs[i].reply)
      && (forall i :: 0 <= i < n - 1 ==> hs[i].keepRunning)
      && (n < |hs| ==> n > 0 && !hs[n - 1].keepRunning)
    decreases |hs|
  {
    if hs != [] && hs[0].keepRunning {
      RepliesStopAtFirstStop(hs[1..]);
      var rest := Replies(hs[1..]);
      assert Replies(hs) == [hs[0].reply] + rest;
      assert forall i :: 1 <= i < |Replies(hs)| ==> Replies(hs)[i] == rest[i - 1] && hs[1..][i - 1] == hs[i];
    }
  }

  /**
   * The accept loop stops exactly after the first connection whose handler
   * says to stop (`shutdown`): every earlier connection was answered, in
   * order, and kept the daemon running, and no later one is accepted.
   */
  lemma ServeStopsAtShutdown(conns: seq<seq<byte>>, handle: seq<byte> -> Handled)
    ensures var replies := Replies(Outcomes(conns, handle));
      var n := |replies|;
      && n <= |conns|
      && (forall i :: 0 <= i < n ==> replies[i] == handle(conns[i]).reply)
      && (forall i :: 0 <= i < n - 1 ==> handle(conns[i]).keepRunning)
      && (n < |conns| ==> n > 0 && !handle(conns[n - 1]).keepRunning)
  {
    var hs := Outcomes(conns, handle);
    RepliesStopAtFirstStop(hs);
    forall i | 0 <= i < |conns|
      ensures hs[i] == handle(conns[i])
    {
      OutcomeAt(conns, handle, i);
    }
  }

  /**
   * The accept loop of `main`: `conns` holds what each accepted client sent,
   * in arrival order, and `handle` is the per-connection handler. Returns the
   * reply sent on each connection served and whether a handler asked to stop.
   */
  method Serve(conns: seq<seq<byte>>, handle: seq<byte> -> Handled) returns (replies: seq<Option<seq<byte>>>, stopped: bool)
    ensures replies == Replies(Outcomes(conns, handle))
    ensures stopped <==> 0 < |replies| <= |conns| && !handle(conns[|replies| - 1]).keepRunning
  {
    ghost var hs := Outcomes(conns, handle);
    RepliesStopAtFirstStop(hs);
    replies, stopped := [], false;
    var i := 0;
    while i < |conns|
      invariant 0 <= i <= |conns| && i <= |Replies(hs)|
      invariant replies == Replies(hs)[..i]
      invariant forall k :: 0 <= k < i ==> hs[k].keepRunning
    {
      var h := handle(conns[i]);
      OutcomeAt(conns, handle, i);
      replies := replies + [h.reply];
      if !h.keepRunning {
        stopped := true;
        break;
      }
      i := i + 1;
    }
    if stopped {
      OutcomeAt(conns, handle, i);
    } else if i > 0 {
      OutcomeAt(conns, handle, i - 1);
    }
  }

  /** A `transcribe` command always dispatches to transcription of the rest of the line. */
  lemma ParseTranscribe(path: string)
    ensures ParseCommand("transcribe " + path) == Transcribe(path)
  {
    var data := "transcribe " + path;
    assert data[..|"transcribe "|] == "transcribe ";
    assert data[|"transcribe "|..] == path;
  }

  /** What the daemon does with an existing socket path before loading the model. */
  datatype StartupAction =
    | Proceed         // leave the path alone and go on
    | RemoveStale     // unlink the path: nobody is listening on it
    | AbortDuplicate  // another daemon answered: exit with status 1
    | Crash           // an unexpected OSError escapes from `main`
    | UnlinkFails     // the path vanished before the connect, so the unlink raises FileNotFoundError

  /** The stale-socket rule at the start of `main`. */
  function StaleSocketRule(socketExists: bool, probe: Probe): (a: StartupAction)
    ensures a == AbortDuplicate <==> socketExists && probe == Answered(PONG)
    ensures a == RemoveStale <==> socketExists && probe.Refused?
    ensures a == UnlinkFails <==> socketExists && probe.Missing?
    ensures a == Crash <==> socketExists && probe.OtherOsError?
    ensures !socketExists ==> a == Proceed
  {
    if !socketExists then Proceed
    else match probe
      case Answered(resp) => if resp == PONG then AbortDuplicate else Proceed
      case Missing => UnlinkFails
      case Refused => RemoveStale
      case OtherOsError => Crash
  }

  /** `cleanup()`: both the socket and the PID file are gone afterwards; no other path is touched. */
  function Cleanup(files: set<string>): (left: set<string>)
    ensures SOCKET_PATH !in left && PID_PATH !in left
    ensures left <= files
    ensures forall p :: p in files && p != SOCKET_PATH && p != PID_PATH ==> p in left
  {
    files - {SOCKET_PATH, PID_PATH}
  }

  /** How the daemon process ends: its exit status, the paths that exist afterwards and the replies it sent. */
  datatype Exit = Exit(status: int, files: set<string>, replies: seq<Option<seq<byte>>>)

  /**
   * `main()` after argument parsing. `files` are the paths that exist at
   * startup, `probe` the outcome of pinging an existing socket, `loaded`
   * whether the model loaded, `conns` the clients accepted before a
   * termination signal (which runs the same cleanup as `shutdown`).
   */
  method DaemonMain(files: set<string>, probe: Probe, loaded: bool, be: Backend, conns: seq<seq<byte>>)
    returns (exit: Exit)
    ensures exit.status == 0 <==> loaded && (SOCKET_PATH !in files || probe.Refused?)
    ensures exit.status == 0 ==> exit.files == files - {SOCKET_PATH, PID_PATH}
    ensures exit.status == 0 ==> exit.replies == ServeReplies(conns, be)
    ensures exit.status != 0 ==> exit.status == 1 && exit.replies == []
    ensures exit.status != 0 ==>
      exit.files == (if SOCKET_PATH in files && (probe.Refused? || probe.Missing?) then files - {SOCKET_PATH} else files)
    ensures SOCKET_PATH in files && probe == Answered(PONG) ==> exit == Exit(1, files, [])
    ensures SOCKET_PATH in files && probe.Missing? ==> exit == Exit(1, files - {SOCKET_PATH}, [])
  {
    var fs := files;
    match StaleSocketRule(SOCKET_PATH in fs, probe) {
      case AbortDuplicate =>
        return Exit(1, fs, []);
      case Crash =>
        return Exit(1, fs, []);
      case UnlinkFails =>
        return Exit(1, fs - {SOCKET_PATH}, []);
      case RemoveStale =>
        fs := fs - {SOCKET_PATH};
      case Proceed =>
    }
    if !loaded {
      return Exit(1, fs, []);
    }
    if SOCKET_PATH in fs {
      // bind() fails: the address is still in use
      return Exit(1, fs, []);
    }
    fs := fs + {SOCKET_PATH, PID_PATH};
    var replies, _ := Serve(conns, Handler(be));
    return Exit(0, Cleanup(fs), replies);
  }
}
