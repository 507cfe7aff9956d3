# stt core, modelled in Dafny

This project models the core of the `stt` speech-to-text tool, in three parts.

- **Client** (`src/stt/client.py`). The liveness probe `daemon_running` sends `ping` and expects `pong`. `daemon_send` writes a command, collects the reply chunk by chunk until the daemon closes the connection or the read times out, and decodes the reply as UTF-8. `save_and_transcribe` sends `transcribe <tmp>` and turns an `ERROR:` reply into the empty text.
- **Daemon** (`src/stt/daemon.py`). The daemon answers one command per connection: `ping`, `shutdown`, `transcribe <path>`, or anything else. `transcribe_file` keeps the first channel, resamples to 16 kHz, skips audio shorter than 4800 samples, and joins the stripped segment texts with spaces. `main` has three further parts:
  - the stale-socket rule at startup;
  - the accept loop, which stops after `shutdown`;
  - `cleanup`, which removes the socket and PID files.
- **Continuous mode** (`src/stt/audio.py`). `resolve_device` maps an index, a name fragment or nothing to a device index. The voice-activity loop of `continuous_mode` works frame by frame:
  - a frame whose RMS is above 0.01 is speech;
  - quiet frames after speech are buffered and counted;
  - the 15th quiet frame flushes the buffer;
  - an interrupt flushes whatever is left.

  `flush_buffer` hands on only audio of at least half a second. Only a non-empty transcript reaches `on_segment`.

## How the model is organised

| file | module | contents |
|---|---|---|
| `wrappers.dfy` | `Wrappers` | `Option` and `Result` |
| `utf8.dfy` | `Utf8` | bytes, and strict UTF-8 as Python's `encode`/`decode` do it, with both round trips |
| `text.dfy` | `Text` | Python's `isspace`, `strip`, `startswith`, `" ".join`, `in` and (ASCII) `lower` |
| `wire.dfy` | `Wire` | what a socket call returns (probe outcome, `recv` outcome), `b"".join` |
| `client.dfy` | `Client` | `daemon_running`, `daemon_send` (a loop over `recv` outcomes), `save_and_transcribe` |
| `daemon.dfy` | `Daemon` | the two parts below |
| `audio.dfy` | `Audio` | the three parts below |
| `protocol.dfy` | `Protocol` | client and daemon together: what a command becomes on the other side and what comes back |

`daemon.dfy` holds:
- `transcribe_file` and `handle_client` as functions;
- the accept loop and `main` as methods.

`audio.dfy` holds:
- `resolve_device` as a method with a loop;
- the loop state of `continuous_mode` as the class `Segmenter`, whose fields are updated in place;
- a step function `Step` with its folded form `Feed`, which specify that state.

Sockets are not modelled: each socket call becomes the value it returns. Code that cannot be seen appears as function-valued parameters:
- the sound-file reader, the resampler and the speech model, gathered in `Daemon.Backend`;
- the daemon's answer to a segment in continuous mode (`reply`).

Properties proved include:
- the client's command reaches the daemon's dispatch stripped of surrounding whitespace, for any command that fits in one 4096-byte read, and exactly as written when it has no whitespace at its ends;
- a command longer than that never reaches the model with its path intact (`Protocol.LongCommandIsCut`);
- whatever pieces a reply arrives in, the client decodes exactly the text the daemon encoded;
- the accept loop answers connections in order and stops right after the first `shutdown`;
- `daemon_running` and the daemon's own duplicate check agree on every probe outcome;
- a quiet–speech–quiet utterance yields exactly one segment: the speech plus the first 15 quiet frames, provided it is long enough;
- the `Segmenter` class keeps the loop invariant, and `ContinuousMode` computes exactly the segments and texts of the step function;
- nothing shorter than the minimum is transcribed, and `on_segment` never sees an empty or `ERROR:` text.

Three behaviours of the code are kept as written:
- `daemon_send` raises when it cannot connect, and `save_and_transcribe` does not catch it. The model returns `Failure(ConnectFailed)`; it does not treat the daemon as "not running".
- `daemon_running` sets no timeout on its socket. The probe outcome is an input here.
- When the socket path exists but the connect raises FileNotFoundError (the path vanished in between), the handler's `os.unlink` raises FileNotFoundError too. The daemon then exits with status 1 without binding (`Daemon.StaleSocketRule` gives `UnlinkFails`).

## Model

| member | source | states |
|---|---|---|
| Utf8.EncodeChar | src/stt/client.py:29 | a character encodes to 1 to 4 bytes, and to exactly one byte iff it is ASCII |
| Utf8.DecodeEncode | src/stt/daemon.py:49 | decoding the UTF-8 encoding of any string gives that string back |
| Utf8.EncodeDecode | src/stt/client.py:40 | a byte string that decodes is the encoding of what it decodes to |
| Text.Strip | src/stt/daemon.py:49 | the result has no whitespace at either end, is a contiguous slice of the input starting after its leading whitespace, and keeps every non-whitespace character |
| Text.StripIdempotent | src/stt/daemon.py:49 | stripping twice is stripping once |
| Text.JoinUnpadded | src/stt/daemon.py:43 | joining non-empty, unpadded parts with spaces gives an unpadded string, empty iff there are no parts |
| Text.JoinLength | src/stt/daemon.py:43 | the joined length is the sum of the part lengths plus one separator between neighbours |
| Text.Lower | src/stt/audio.py:31 | lower-casing keeps the length, leaves no ASCII capital, and changes only ASCII capitals, each by +32 |
| Text.UpperCaseNeverContained | src/stt/audio.py:31 | a device query containing an ASCII capital never matches a lower-cased device name |
| Client.DaemonRunning | src/stt/client.py:13-22 | true iff the probe was answered with exactly the bytes of `pong`; a missing socket, a refused connection or any other OS error gives false |
| Client.DecodeReply | src/stt/client.py:40 | the reply succeeds iff the bytes are valid UTF-8, re-encodes to those bytes, and fails only with an undecodable-reply error |
| Client.DaemonSend | src/stt/client.py:25-40 | sends the UTF-8 command iff connected; a failed connect raises; otherwise the reply is the decoding of all chunks up to the first empty chunk or timeout |
| Client.ReceivedDeliveries | src/stt/client.py:30-38 | the bytes collected from non-empty deliveries are their concatenation in order, followed by whatever follows |
| Client.EchoRoundTrip | src/stt/client.py:25-40 | a peer that sends back the encoding of a text, in any non-empty pieces, then closes or goes quiet, makes `daemon_send` return exactly that text |
| Client.TimeoutKeepsPartial | src/stt/client.py:37-38 | a timeout ends the reply: what arrived before it is kept and nothing after it is read |
| Client.TextOfReply | src/stt/client.py:53-56 | the result never starts with `ERROR:`, equals the reply iff the reply does not start with `ERROR:`, and is otherwise empty |
| Client.SaveAndTranscribe | src/stt/client.py:43-58 | sends `transcribe <tmp>`; fails iff not connected or the reply does not decode; otherwise returns the filtered reply, never an `ERROR:` text |
| Daemon.FirstChannel | src/stt/daemon.py:36-37 | mono audio is kept; multi-channel audio becomes its first channel, one sample per frame |
| Daemon.TranscribeFile | src/stt/daemon.py:34-43 | a read failure is passed on; audio under 4800 samples at 16 kHz gives the empty text; audio at least that long gives the stripped segment texts joined by spaces, or the model's failure; a non-empty transcript means the audio was long enough and inference succeeded |
| Daemon.TranscriptKeepsBlankSegment | src/stt/daemon.py:42-43 | a segment that strips to nothing still takes a place in the join, so the transcript then starts with a space and is not itself stripped |
| Daemon.TranscriptUnpadded | src/stt/daemon.py:43 | when every segment strips to some text, the transcript is empty iff there are no segments and has no whitespace at its ends |
| Daemon.ParseCommand | src/stt/daemon.py:50-70 | each command (blank, `ping`, `shutdown`, `transcribe ` prefix, anything else) is recognised iff the text has that form; a transcribe path is the rest of the line |
| Daemon.ParseTranscribe | src/stt/daemon.py:59-60 | `transcribe <p>` always dispatches to transcription of `p` |
| Daemon.FirstRecv | src/stt/daemon.py:49 | one read delivers at most 4096 bytes, all of a short message, and always a prefix of what was sent |
| Daemon.ReceivedCommand | src/stt/daemon.py:49 | no command iff the first read is not valid UTF-8; otherwise the parsed, stripped text; a message of at most 4096 bytes is parsed whole |
| Daemon.HandleCommand | src/stt/daemon.py:46-75 | the daemon stops iff the command is `shutdown`; no reply is sent iff the bytes do not decode or the command is blank; `ping`→`pong`, `shutdown`→`ok`, unknown→`ERROR: unknown command`, transcribe→the transcript or `ERROR: <message>` |
| Daemon.HandleClient | src/stt/daemon.py:46-75 | for the bytes a client sent: the daemon stops iff they arrive as `shutdown`; no reply iff they do not decode or strip to nothing |
| Daemon.TranscribePathShape | src/stt/daemon.py:49-60 | a path the daemon extracts is never empty and never ends in whitespace |
| Daemon.RepliesStopAtFirstStop | src/stt/daemon.py:128-133 | handler outcomes are answered in order; every one but the last kept running, and fewer replies than outcomes means the last one stopped |
| Daemon.ServeStopsAtShutdown | src/stt/daemon.py:128-135 | the accept loop answers each connection with its handler's reply in order, and stops exactly after the first handler that says to stop |
| Daemon.Serve | src/stt/daemon.py:128-133 | the loop's replies are those of the outcome sequence, and it reports stopping iff the last connection served asked to stop |
| Daemon.StaleSocketRule | src/stt/daemon.py:99-111 | an existing socket answered with `pong` aborts startup; a refused connection removes the stale socket; a FileNotFoundError on connect makes the unlink fail; any other OS error escapes; with no socket nothing is done |
| Daemon.Cleanup | src/stt/daemon.py:78-85 | afterwards the socket and PID files are gone and no other path is touched |
| Daemon.DaemonMain | src/stt/daemon.py:99-135 | exit status 0 iff the model loads and the socket path is free or refuses connections; then the replies are those of the accept loop and the socket and PID files are removed; a live daemon makes it exit 1, leaving everything unchanged; a socket path that vanishes before the connect makes it exit 1; on any failed start nothing is bound and no PID file is written, and the paths are those at startup less a socket removed as stale or found vanished |
| Audio.ResolveDevice | src/stt/audio.py:25-33 | an index is returned as is; a name gives the first device whose lower-cased name contains it and that can record; no match, or no argument, gives the default input |
| Audio.TestDeviceLookups | tests/test_audio.py:10-31 | on the test device table, `pulse` first matches device 2, `usb` device 1, and `hda` does not match the output-only device 0 |
| Audio.ContinuousConfig | src/stt/audio.py:154-157 | threshold 0.01, 15 quiet frames, and half the native rate (rounded down) as the minimum segment |
| Audio.FlushOf | src/stt/audio.py:181-189 | an empty buffer hands on nothing; audio is handed on iff it has at least the minimum number of samples, and it is then all buffered samples in order |
| Audio.Step | src/stt/audio.py:195-205 | a speech frame is buffered and resets the quiet count; a quiet frame while idle is dropped; a quiet frame after speech is buffered and counted, and the one that reaches the limit ends the segment, returning to idle and handing on the flush of the buffer with that frame; audio is handed on only at such an end, as all buffered samples and at least the minimum |
| Audio.Feed | src/stt/audio.py:191-205 | no more segments than frames, and every segment handed on has at least the minimum number of samples |
| Audio.StepKeepsInv | src/stt/audio.py:192-205 | one loop iteration keeps the segmentation invariant |
| Audio.FeedKeepsInv | src/stt/audio.py:191-205 | the invariant holds after any sequence of frames |
| Audio.FeedAppend | src/stt/audio.py:191-205 | running two sequences of frames one after the other is running their concatenation |
| Audio.QuietWhileIdle | src/stt/audio.py:199 | quiet frames before any speech are dropped |
| Audio.FeedSpeech | src/stt/audio.py:195-198 | speech frames are all buffered in order and reset the quiet counter |
| Audio.FeedQuietBelowLimit | src/stt/audio.py:199-202 | fewer than 15 quiet frames after speech are buffered and counted |
| Audio.QuietReachesLimit | src/stt/audio.py:199-205 | the 15th quiet frame after speech flushes the buffer, including that frame, and returns to idle |
| Audio.SpeechAfterQuiet | src/stt/audio.py:195-199 | leading quiet frames are dropped and the speech after them is buffered |
| Audio.SilenceEndsSegment | src/stt/audio.py:199-205 | enough quiet after speech ends the segment, and later quiet frames are dropped |
| Audio.UtteranceYieldsOneSegment | src/stt/audio.py:191-205 | quiet, then speech, then at least 15 quiet frames yields exactly one segment (speech plus 15 quiet frames), if long enough, and ends idle |
| Audio.DeliveredAreTranscripts | src/stt/audio.py:186-188 | `on_segment` receives at most one text per segment, never an empty or `ERROR:` text |
| Audio.Segmenter.constructor | src/stt/audio.py:159-161 | the loop starts idle: empty buffer, counter 0, no speech |
| Audio.Segmenter.Flush | src/stt/audio.py:181-189 | hands on what `FlushOf` says and empties the buffer |
| Audio.Segmenter.Observe | src/stt/audio.py:192-205 | updates the fields in place exactly as one step of the loop does, case by case, and keeps the invariant |
| Audio.Deliver | src/stt/audio.py:185-188 | a handed-on segment is recorded, and its text is passed on exactly when it is not empty |
| Audio.ContinuousMode | src/stt/audio.py:191-207 | the segments handed on are exactly those of the step function over the frames, followed by the flush on interrupt, and the texts are their non-empty transcripts |
| Protocol.CommandArrives | src/stt/daemon.py:49 | a command that fits in one read reaches the dispatch as the client wrote it, stripped |
| Protocol.UnpaddedArrives | src/stt/daemon.py:49 | a command with no whitespace at either end is dispatched exactly as written |
| Protocol.PingIsAnswered | src/stt/daemon.py:53-54 | `ping` is answered with `pong`, the daemon keeps running, and the client's liveness check is then true |
| Protocol.ShutdownHandled | src/stt/daemon.py:55-58 | `shutdown` is answered with `ok` and stops the daemon |
| Protocol.ShutdownIsLast | src/stt/daemon.py:128-133 | a first connection sending `shutdown` is the only one served |
| Protocol.DuplicateCheckAgreesWithClient | src/stt/daemon.py:100-109 | the daemon refuses to start on an existing socket iff the client would report a running daemon for the same probe |
| Protocol.TranscribeCommandParsed | src/stt/client.py:52 | the client's `transcribe <tmp>` makes the daemon transcribe exactly `tmp`, when the path does not end in whitespace and the command fits in one read |
| Protocol.TranscriptionReachesCaller | src/stt/client.py:52-56 | end to end: the caller gets the transcript, and a failed transcription reaches it as the empty text |
| Protocol.LongCommandIsCut | src/stt/daemon.py:49 | a `transcribe` command longer than 4096 bytes in UTF-8 never reaches the model with its path intact |
| Protocol.OneChunkReply | src/stt/client.py:30-40 | a non-empty reply sent in one piece and followed by a close is returned as sent |
| Protocol.EchoServer | tests/test_client.py:72-74 | the test server answers iff its one read decodes, and its answer decodes to `echo:` followed by the text read |
| Protocol.EchoExchange | tests/test_client.py:72-74 | a text that fits in one read comes back from the test server with the `echo:` prefix |
| Protocol.EchoCall | tests/test_client.py:63-91 | `daemon_send(text)` against the test server sends the text's UTF-8 bytes, the server's answer to exactly those bytes is the `echo:` text, and the call returns it |
| Protocol.EchoServerExample | tests/test_client.py:90-91 | `daemon_send("hello world")` sends `hello world` and returns `echo:hello world` |

## Left out

- Audio device I/O, the input stream, its callback thread and the queue between them are left out. Frames arrive as a sequence, each with its RMS energy already computed; floating-point RMS is not modelled.
- Ctrl+C is modelled only between frames. The sequence of frames ends, then the final flush runs. Stopping and closing the stream is not modelled.
- `record_until_stop`, `record_to_file`, `record_to_file_cli`, `list_devices` and `get_device_rate` are left out; they are device I/O outside the core. `continuous_mode` takes the native rate as a number.
- Audio.ContinuousMode: `reply` gives the daemon's answer for each segment. The model does not cover exceptions from `save_and_transcribe` inside the loop: a failing `sf.write`, a daemon that cannot be reached, or an undecodable reply.
- Text.Lower: Python's `str.lower` is modelled for ASCII capitals only; other Unicode case mappings are not.
- Daemon.TranscribeFile: the resampler's `float32` rounding is not modelled. Reading, resampling and the speech model are opaque functions; only `soundfile.read` and the model may fail. A failing resampler is not modelled.
- `load_model` (the choice of compute type and the model itself) is left out. Whether loading succeeds is an input of `DaemonMain`.
- Daemon.FirstRecv: a `recv(4096)` that returns fewer bytes than were sent and are available is not modelled. Such a short read can happen on a stream socket; the model delivers the first 4096 bytes, or all of a shorter message.
- Daemon.HandleCommand: a failing `sendall` is not modelled. Its exception is logged, the connection closed, and the daemon keeps running, as with an undecodable command.
- Client.DaemonSend: an OS error other than a timeout during `recv` is not modelled, nor is a failing `sendall`.
- The daemon's exit on a signal (SIGTERM, SIGINT) is modelled as the end of the accepted connections, followed by `cleanup`; signal delivery in the middle of a connection is not modelled.
- Daemon.DaemonMain: the directory creation, the PID file's content (the process id) and logging are not modelled. The paths are the literal `~/...` strings, without home-directory expansion.
- `cli.py`, `toggle.py`, `typing.py`, `transcribe.py`, `log.py` and the rest of `config.py` are not part of this model. The constants of `config.py` that the core uses appear as constants.
