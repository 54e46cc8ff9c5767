# tinySA Ultra serial client — a Dafny model

`src/tinySA_python.py` is a host-side Python client for the tinySA Ultra
spectrum analyser. The device runs a line-oriented shell on a serial port. The
client writes one command line (`name`, or `name value`, then `\r\n`). It then
reads until the shell's prompt `ch>` comes back, keeps the bytes up to the
first `>`, and strips the echoed command line and the prompt from them.

This project models that client in Dafny, in five modules:

- `Bytes` (bytes.dfy): bytes on the wire, UTF-8 encoding of the command
  strings, and Python's `find`/`index` on byte strings.
- `Framing` (framing.dfy): the specification of `getSerialReturn`.
  - The port is a finite script of chunks, one per `read(in_waiting)`. An
    empty chunk is a poll that found nothing waiting.
  - `Flatten` is the stream those chunks make up.
  - `PromptRead` is the number of chunks the loop consumes.
  - `Frame` is the stream through its first `>`.
- `Normalize` (normalize.dfy): `cleanReturn`.
- `Commands` (commands.dfy): what every command method decides before any
  I/O. It either sends one wire line, returns a sentinel, or raises.
  - The argument checks are rows of one descriptor table, read by a generic
    `Validate`.
  - Each command has a function whose contract spells out exactly which
    arguments it accepts.
- `Client` (client.dfy): the client object, `class TinySA`.
  - It has two fields: `written`, the log of every `ser.write`, and `chunks`,
    what the port still has to deliver.
  - `GetSerialReturn` is the read loop, proved against `Framing`.
  - `TinySASerial`, `SdList`, `Reset`, `Query` and the 22 argument-taking
    command methods are proved to do exactly this:
    - on acceptance, one write of the right bytes and one read cycle (for
      `dac` and `vbat_offset`, of the corrected line; see Findings);
    - on rejection, nothing at all.

Three behaviours of the code are easy to misread:

- The comment at src/tinySA_python.py:62 says the rest of the stream is left
  in the buffer. But `buffer` is local to `getSerialReturn`, so the bytes after
  the frame are discarded on return (`Client.PipelinedReplyDropped`).
- A rejected argument returns `b''` (`b'ERROR'` for `agc`; `setIF` and `if1`
  raise on a non-integer), so for most commands a rejection cannot be told
  apart from an empty reply.
- Every frame is cut at its first `>` byte (src/tinySA_python.py:61). A binary
  reply, such as the 320x240 two-byte pixels of `capture`, is therefore
  truncated just after the first pixel byte equal to 0x3E; when the two bytes
  before it are `ch`, `cleanReturn` also cuts the last four bytes
  (`Client.GtInPayloadCutsReply`).

## Model

| member | source | states |
|---|---|---|
| Bytes.Utf8Char | src/tinySA_python.py:41 | Encoding one character gives 1 to 4 bytes, and it gives a single byte equal to the character code exactly when the code is below 0x80. |
| Bytes.Utf8 | src/tinySA_python.py:41 | `bytes(writebyte, 'utf-8')` writes at least one and at most four bytes per character; Utf8OfAscii gives the exact bytes of an ASCII line. |
| Bytes.Utf8OfAscii | src/tinySA_python.py:41 | an ASCII command string is written as one byte per character, each byte its character code |
| Bytes.FindFrom | src/tinySA_python.py:78 | the search from a start index returns the first occurrence at or after it, or -1 when there is none |
| Bytes.Find | src/tinySA_python.py:78 | `find` returns the first index where the pattern occurs (no earlier occurrence), and -1 exactly when it occurs nowhere |
| Bytes.FindByte | src/tinySA_python.py:61 | `index(b'>')` fails exactly when no `>` is present; otherwise it is the position of the first `>` |
| Bytes.FindInPrefix | src/tinySA_python.py:57-63 | appending more bytes to a buffer cannot move an occurrence already in it |
| Bytes.EndsWith | src/tinySA_python.py:83 | `data.endswith(pat)` holds exactly when pat is no longer than data and each of data's last bytes equals the matching byte of pat. |
| Framing.FlattenSplit | src/tinySA_python.py:57 | the bytes of the first k chunks followed by the bytes of the rest are the whole stream |
| Framing.FlattenStep | src/tinySA_python.py:57 | each read appends its chunk to the buffer |
| Framing.Flatten | src/tinySA_python.py:57 | the bytes the `buffer +=` reads accumulate; it has no ensures of its own, and FlattenStep and FlattenSplit carry its contract. |
| Framing.ThreeChunks | src/tinySA_python.py:57 | three reads a, b, c put a, then a + b, then a + b + c in the buffer |
| Framing.HasPrompt | src/tinySA_python.py:63 | `buffer.index(b'ch>')` does not raise: the read loop's exit test; it has no ensures of its own, and PromptRead, NoGtNoPrompt and PromptHasGt carry its contract. |
| Framing.PromptHasGt | src/tinySA_python.py:61-63 | once `index(b'ch>')` succeeds, `index(b'>')` does too |
| Framing.NoGtNoPrompt | src/tinySA_python.py:61-65 | a buffer without `>` holds no prompt, so the loop keeps reading |
| Framing.Frame | src/tinySA_python.py:61 | the frame is a non-empty prefix of the stream that ends with `>` and has no earlier `>` |
| Framing.FrameOfPrefix | src/tinySA_python.py:61 | bytes arriving after the first `>` do not change the frame |
| Framing.PromptReadFrom | src/tinySA_python.py:55-66 | searching from chunk k on finds the fewest chunks whose bytes hold `ch>` |
| Framing.PromptRead | src/tinySA_python.py:55-66 | the loop stops after the fewest chunks whose bytes hold `ch>`; no shorter prefix holds it |
| Framing.PromptReadIsFirst | src/tinySA_python.py:55-66 | any n with the prompt in the first n chunks and in no shorter prefix is PromptRead, and then the whole stream holds the prompt |
| Framing.ChunkingIrrelevant | src/tinySA_python.py:55-73 | the frame of the bytes read when the prompt first appears is the frame of the whole stream, whatever the chunking |
| Framing.FrameFound | src/tinySA_python.py:55-66 | when the prompt first appears after n chunks, n is PromptRead and the frame of those n chunks is the frame of the whole stream |
| Framing.FirstChunkHoldsPrompt | src/tinySA_python.py:55-66 | when the first read already holds `ch>`, the loop stops after that one read. |
| Framing.BareGtEndsFrame | src/tinySA_python.py:61-66 | a `>` outside `ch>` ends the frame but not the reading: b"ab>" then b"xch>" gives b"ab>" after two reads |
| Normalize.DropEcho | src/tinySA_python.py:78-81 | with a `\r\n`, the result is what follows the first `\r\n`; without one, the data is untouched |
| Normalize.DropPrompt | src/tinySA_python.py:83-85 | a body ending in `ch>` loses exactly its last four bytes (the prompt and the byte before it), or becomes empty when it is only the prompt; any other body is untouched |
| Normalize.Clean | src/tinySA_python.py:75-86 | the cleaned reply is never longer than the data |
| Normalize.CleanIsSlice | src/tinySA_python.py:75-86 | the cleaned reply is one contiguous slice of the data |
| Normalize.CleanUnframed | src/tinySA_python.py:78-86 | data with no `\r\n` and no trailing `ch>` comes back unchanged |
| Normalize.CleanIdempotent | src/tinySA_python.py:75-86 | corollary of CleanUnframed: a cleaned reply with no line break and no trailing prompt is a fixed point of cleaning. |
| Normalize.FindAfterEcho | src/tinySA_python.py:78 | after an echo without line break, the first `\r\n` is the one that ends the echo |
| Normalize.CleanAfterEcho | src/tinySA_python.py:78-86 | after an echo without line break, cleaning `echo\r\nbody` gives what the prompt cut alone makes of body |
| Normalize.NoCrNoLineBreak | src/tinySA_python.py:78 | bytes without a carriage return contain no `\r\n` |
| Normalize.CleanReply | src/tinySA_python.py:75-86 | `echo\r\npayload\r\nch>` cleans to the payload plus the `\r` of its last line break |
| Normalize.CleanEmptyReply | src/tinySA_python.py:83-85 | `echo\r\nch>` cleans to nothing, because the four-byte cut reaches past the prompt |
| Normalize.VersionExample | src/tinySA_python.py:75-86 | b"version\r\n1.2.3\r\nch>" cleans to b"1.2.3\r" |
| Commands.NatToString | src/tinySA_python.py:110 | `str` of a natural number is a non-empty run of decimal digits with no leading zero |
| Commands.IntToString | src/tinySA_python.py:110 | `str(i)` is non-empty and starts with `-` exactly when i is negative; IntToStringParses proves `int(str(i)) == i`. |
| Commands.Format | src/tinySA_python.py:110 | `name + ' ' + str(val) + '\r\n'`, the line of every accepting branch with an argument; it has no ensures of its own, and FormatParts and WireDeterminesArg carry its contract. |
| Commands.Bare | src/tinySA_python.py:97 | the fixed `name\r\n` line of a command sent without argument (also :219, :254, :910); it has no ensures of its own, and FormatParts proves it differs from every formatted line. |
| Commands.Show | src/tinySA_python.py:110 | `str(val)` of an argument; it has no ensures of its own, and IntToStringParses and WireDeterminesArg carry its contract. |
| Commands.ParseNatToString | src/tinySA_python.py:110 | reading the digits of a natural number back gives that number |
| Commands.IntToStringParses | src/tinySA_python.py:110 | `int(str(i)) == i` for every integer, negative ones included |
| Commands.NegativeParses | src/tinySA_python.py:110 | the negative case of the round trip: `int("-" + str(n)) == -n` for n > 0. |
| Commands.IntToStringAscii | src/tinySA_python.py:110 | the decimal form of an integer is ASCII |
| Commands.IntLineBytes | src/tinySA_python.py:41 | a line `name <integer>\r\n` with an ASCII name goes on the wire as one byte per character, each byte the character's code. |
| Commands.WireDeterminesArg | src/tinySA_python.py:41 | for a table row whose words do not read as numbers, the argument can be read back from every line the row sends |
| Commands.FormatParts | src/tinySA_python.py:110 | in `name + ' ' + text + '\r\n'`, the name, the text and the line break sit where a reader expects them, and the line differs from the bare command |
| Commands.TableWellFormed | src/tinySA_python.py:107-109 | no accepted word ("auto", "on", "off") of any command reads as an integer |
| Commands.Validate | src/tinySA_python.py:107-114 | the check-then-format step shared by the 22 argument-taking methods: an integer is sent exactly when the row's range holds it, a string exactly when it is one of the row's words, None exactly when the row sends bare; a rejection returns the row's sentinel; only a strict row raises, and only for a non-integer. |
| Commands.Agc | src/tinySA_python.py:101-115 | sends `agc <v>` exactly for "auto" and 0..7; anything else returns b'ERROR' |
| Commands.Attenuate | src/tinySA_python.py:117-131 | sends exactly for "auto" and 0..30 (31 is out, despite the "0-31" comment); otherwise returns b'' |
| Commands.AttenuateScenarios | src/tinySA_python.py:117-131 | 15 is sent as "attenuate 15\r\n"; 31 and 99 are rejected |
| Commands.Caloutput | src/tinySA_python.py:157-171 | sends exactly for "off" and 1, 2, 3, 4, 10, 15, 30 |
| Commands.Dac | src/tinySA_python.py:212-228 | None sends bare `dac`; 0..4095 sends `dac <value>` (corrected); any other argument is rejected |
| Commands.Data | src/tinySA_python.py:230-245 | sends exactly for 0, 1, 2 |
| Commands.Deviceid | src/tinySA_python.py:247-263 | None sends bare `deviceid`; every integer is sent; a string is rejected |
| Commands.ExtGain | src/tinySA_python.py:273-286 | sends exactly for integers -100..100 |
| Commands.Freq | src/tinySA_python.py:298-315 | sends exactly for integers 100000..5300000000 |
| Commands.SetIF | src/tinySA_python.py:363-376 | an integer is sent (as `if`) exactly when it is 0 or in 433000000..435000000, and rejected otherwise; a non-integer raises |
| Commands.If1 | src/tinySA_python.py:378-390 | an integer is sent exactly when it is 0 or in 975000000..979000000, and rejected otherwise; a non-integer raises |
| Commands.Levelchange | src/tinySA_python.py:429-443 | sends exactly for -70..70 |
| Commands.Load | src/tinySA_python.py:469-483 | sends exactly for presets 0..4 |
| Commands.Lna | src/tinySA_python.py:485-499 | sends exactly for "on" and "off" |
| Commands.Lna2 | src/tinySA_python.py:501-515 | sends exactly for "auto" and 0..7 |
| Commands.Output | src/tinySA_python.py:561-575 | sends exactly for "on" and "off" |
| Commands.Rbw | src/tinySA_python.py:586-602 | sends exactly for "auto" and integers 3000..600000 |
| Commands.Recall | src/tinySA_python.py:604-618 | sends exactly for presets 0..4 |
| Commands.Refresh | src/tinySA_python.py:620-634 | sends exactly for "on" and "off" |
| Commands.Save | src/tinySA_python.py:672-686 | sends exactly for presets 0..4 |
| Commands.Selftest | src/tinySA_python.py:745-762 | sends exactly for tests 0..9 |
| Commands.Spur | src/tinySA_python.py:764-778 | sends exactly for "on" and "off" |
| Commands.VbatOffset | src/tinySA_python.py:903-919 | None sends bare `vbat_offset`; 0..4095 sends `vbat_offset <value>` (corrected); any other argument is rejected |
| Commands.DacAsWritten | src/tinySA_python.py:222 | as written, every accepted value sends "dac <built-in function id>"; every other argument behaves as in Dac |
| Commands.DacAsWrittenLosesValue | src/tinySA_python.py:222 | as written, all accepted values send the same line and no value can be read back from it; the corrected line gives the value back |
| Commands.VbatOffsetAsWritten | src/tinySA_python.py:913 | as written, every accepted value sends "vbat_offset <built-in function id>"; every other argument behaves as in VbatOffset |
| Commands.VbatOffsetAsWrittenLosesValue | src/tinySA_python.py:913 | as written, all accepted values send the same line and no value can be read back from it; the corrected line gives the value back |
| Commands.QueryWire | src/tinySA_python.py:183-193 | the fixed line each command without argument writes, `clearconfig 1234\r\n` or `name\r\n`; it has no ensures of its own, and Client.TinySA.Query carries its contract. |
| Client.Exchange | src/tinySA_python.py:42-43 | one read-and-clean cycle: it returns a payload exactly when the stream holds `ch>`, and then leaves a strict suffix of the chunks unread; otherwise it stalls and the chunks are used up. ExchangeOfReply gives the payload of a well-formed reply. |
| Client.ExchangeOfReply | src/tinySA_python.py:38-48 | when the stream starts with `echo\r\npayload\r\nch>` (no `>` before the prompt), the call returns the payload plus `\r`, however the stream is chunked |
| Client.ExchangeOfEmptyReply | src/tinySA_python.py:38-48 | when the stream starts with `echo\r\nch>`, the call returns an empty bytearray |
| Client.FrameIsWhole | src/tinySA_python.py:61 | a stream whose only `>` is its last byte is returned whole |
| Client.ReplyOverThreeReads | src/tinySA_python.py:50-73 | a reply cut into three reads, inside the echo and inside the payload, returns the same payload as when read whole and consumes all three reads |
| Client.ThreeReadsStream | src/tinySA_python.py:55-66 | the first two of those reads hold no `ch>`, so the loop reads all three |
| Client.VersionOverThreeReads | src/tinySA_python.py:921-928 | the `version` reply split over three reads (b"vers", b"ion\r\n1.2", b".3\r\nch>") gives b"1.2.3\r" and consumes all three |
| Client.SingleEmptyReply | src/tinySA_python.py:38-48 | an empty reply read in one chunk returns b'' and leaves no chunk behind |
| Client.SingleReply | src/tinySA_python.py:38-48 | a reply read in one chunk returns its payload plus `\r` and leaves no chunk behind |
| Client.StatusExample | src/tinySA_python.py:780-787 | b"status\r\nResumed\r\nch>" returns b"Resumed\r", the documented example |
| Client.GtInPayloadCutsReply | src/tinySA_python.py:55-86 | for any chunking, a payload whose first `>` follows the bytes `pre` returns `pre` and that `>` (less the four-byte cut when they end in `ch>`), at most one byte more than `pre`: nothing after the first `>` reaches the caller |
| Client.CaptureExample | src/tinySA_python.py:173-181 | a `capture` reply whose pixels are 00 3E 00 00 returns only b"\x00>" |
| Client.PipelinedReplyDropped | src/tinySA_python.py:54-73 | when one read brings a first reply followed by more bytes, the returned reply is that of the first alone, and the next call starts at the chunks after that read, whatever they are: the extra bytes never reach a later call. |
| Client.AttenuateScenario | src/tinySA_python.py:117-131 | on a port that will answer with an empty reply, `attenuate(99)` leaves log and port alone and returns b''; `attenuate(15)` is performed exactly when "attenuate 15\r\n" is written once and the reply is consumed, returning b''. |
| Client.TinySA.constructor | src/tinySA_python.py:17-24 | a new client has written nothing; its port will deliver the given script |
| Client.TinySA.GetSerialReturn | src/tinySA_python.py:50-73 | if the script ever holds `ch>`: returns the stream through its first `>` and consumes exactly PromptRead chunks; otherwise it returns nothing (the source would wait forever) |
| Client.TinySA.TinySASerial | src/tinySA_python.py:38-48 | appends the UTF-8 bytes of the command to the log, then reads one frame and returns it cleaned |
| Client.Performed | src/tinySA_python.py:107-114 | what a command method does to the port: on Send one write of the line's UTF-8 bytes and one Exchange, on Reject or Raise log and port unchanged with the sentinel or the raise; it has no ensures of its own, and every Client.TinySA command method ensures it. |
| Client.TinySA.Run | src/tinySA_python.py:41-48 | on acceptance, exactly one write of the decided line and one read cycle; on rejection or raise, log and port unchanged |
| Client.TinySA.SdList | src/tinySA_python.py:727-735 | writes b'sd_list\r\n' directly, then reads and cleans one frame |
| Client.TinySA.Query | src/tinySA_python.py:183-193 | each command without argument writes its fixed line (`clearconfig 1234\r\n` for clearconfig, `name\r\n` for the others), then reads and cleans one frame |
| Client.TinySA.Reset | src/tinySA_python.py:654-661 | writes `reset\r\n` and reads one frame, but returns None |
| Client.TinySA.NotImplemented | src/tinySA_python.py:133-141 | the unimplemented commands touch neither log nor port and return None |
| Client.TinySA.Agc | src/tinySA_python.py:101-115 | one write and one read cycle exactly when Commands.Agc accepts; otherwise b'ERROR' and no I/O |
| Client.TinySA.Attenuate | src/tinySA_python.py:117-131 | one write and one read cycle exactly when Commands.Attenuate accepts; otherwise b'' and no I/O |
| Client.TinySA.Caloutput | src/tinySA_python.py:157-171 | the same, for Commands.Caloutput |
| Client.TinySA.Dac | src/tinySA_python.py:212-228 | the same, for the corrected Commands.Dac |
| Client.TinySA.Data | src/tinySA_python.py:230-245 | the same, for Commands.Data |
| Client.TinySA.Deviceid | src/tinySA_python.py:247-263 | the same, for Commands.Deviceid |
| Client.TinySA.ExtGain | src/tinySA_python.py:273-286 | the same, for Commands.ExtGain |
| Client.TinySA.Freq | src/tinySA_python.py:298-315 | the same, for Commands.Freq |
| Client.TinySA.SetIF | src/tinySA_python.py:363-376 | the same, for Commands.SetIF; a raise leaves log and port unchanged |
| Client.TinySA.If1 | src/tinySA_python.py:378-390 | the same, for Commands.If1 |
| Client.TinySA.Levelchange | src/tinySA_python.py:429-443 | the same, for Commands.Levelchange |
| Client.TinySA.Load | src/tinySA_python.py:469-483 | the same, for Commands.Load |
| Client.TinySA.Lna | src/tinySA_python.py:485-499 | the same, for Commands.Lna |
| Client.TinySA.Lna2 | src/tinySA_python.py:501-515 | the same, for Commands.Lna2 |
| Client.TinySA.Output | src/tinySA_python.py:561-575 | the same, for Commands.Output |
| Client.TinySA.Rbw | src/tinySA_python.py:586-602 | the same, for Commands.Rbw |
| Client.TinySA.Recall | src/tinySA_python.py:604-618 | the same, for Commands.Recall |
| Client.TinySA.Refresh | src/tinySA_python.py:620-634 | the same, for Commands.Refresh |
| Client.TinySA.Save | src/tinySA_python.py:672-686 | the same, for Commands.Save |
| Client.TinySA.Selftest | src/tinySA_python.py:745-762 | the same, for Commands.Selftest |
| Client.TinySA.Spur | src/tinySA_python.py:764-778 | the same, for Commands.Spur |
| Client.TinySA.VbatOffset | src/tinySA_python.py:903-919 | the same, for the corrected Commands.VbatOffset |

The commands without an argument that `Client.TinySA.Query` covers are
`actual_freq`, `capture`, `clearconfig`, `freq_corr`, `frequencies`, `help`,
`info`, `nf`, `pause`, `release`, `repeat`, `resume`, `saveconfig`, `status`,
`threads`, `touchcal`, `touchtest`, `usart_cfg`, `vbat`, `version` and `wait`
(src/tinySA_python.py:93-99, 173-193, 317-353, 392-408, 552-559, 577-584,
636-652, 663-670, 688-695, 780-787, 811-825, 837-853, 885-901, 921-937).

`Client.TinySA.NotImplemented` covers the methods that only print a notice and
return None: `bulk`, `calc`, `color`, `correction`, `direct`, `fill`, `hop`,
`level`, `leveloffset`, `line`, `marker`, `mode`, `modulation`, `scan`,
`scanraw`, `sd_delete`, `sd_read`, `sweep`, `sweeptime`, `touch`, `trace`,
`trigger`, `ultra` and `zero`.

## Left out

- Serial port lifecycle: `connect`, `disconnect`, the pyserial object, its
  timeout and the `in_waiting` polling are not modelled. The port is the
  written log plus a finite chunk script.
- The unbounded `while True` read loop: when no `ch>` ever arrives, the source
  polls forever. With a finite script, the model returns `Stalled` (from
  `GetSerialReturn`, None) once the script is used up.
- The `except Exception` branch of the read loop: only `index` can raise
  inside that `try`, and it raises ValueError, so the branch is unreachable.
- `print` output, including `printBool` of `tinySASerial`, error messages, the
  "set to" echoes and the self-test banner. None of it reaches the returned
  data.
- numpy: membership in `np.arange(a, b)` is modelled as the integer range
  a..b-1.
- Python's dynamic typing is limited to `Arg = Int | Str | NoArg`. Not modelled:
  floats such as `3.0` or `434e6` passing range checks, `True` being equal to
  1, and arguments of other types.
  - A string given to `setIF` or `if1` makes the range comparison raise
    TypeError. This is modelled as `Raise`.
  - For other commands, a string outside the word list is rejected by the
    `isinstance` test or the membership test, as in the source.
- Default argument values (for example `val='auto'` of `agc`): callers of the
  model pass the argument explicitly.
- What the payloads mean (trace data, screen captures, the binary formats of
  `bulk` and `scanraw`): replies are opaque bytes.
- The `__main__` smoke test at the end of the file.
- Client.TinySA.Query: the per-command line is stated through
  `Commands.QueryWire`, a lookup of the 21 fixed lines. No separate property is
  proved about that lookup.
- Client.TinySA.Dac: an accepted value writes the corrected line `dac <value>\r\n`, not the line the source writes at src/tinySA_python.py:222; Commands.DacAsWritten models the line as written (see Findings).
- Client.TinySA.VbatOffset: an accepted value writes the corrected line `vbat_offset <value>\r\n`, not the line the source writes at src/tinySA_python.py:913; Commands.VbatOffsetAsWritten models the line as written (see Findings).
- Commands.Deviceid: every integer is accepted and formatted, while CPython 3.11 and later (and the 3.7-3.10 security releases) raise ValueError in `str(id)` (src/tinySA_python.py:257) for an integer of more than 4300 digits; that interpreter limit is configurable and is not modelled.
- Client.TinySA.Deviceid: follows Commands.Deviceid, so it writes `deviceid <digits>` for an integer of more than 4300 digits, where such an interpreter raises before writing.
- Commands.Rbw: the check accepts 3000..600000, while the usage comment
  (src/tinySA_python.py:588-589) speaks of 3..600 kHz and the error message
  (src/tinySA_python.py:600) of 0..600 kHz. The model follows the code.
  Which unit the device expects is not part of this model, so no finding is
  claimed.

## Findings

| source | as written | input that shows it | evidently intended | confidence | as-written member | corrected member |
|---|---|---|---|---|---|---|
| src/tinySA_python.py:222 | the setter branch of `dac` formats `str(id)`, the builtin function `id`, so it writes `dac <built-in function id>\r\n` | `dac(1)` and `dac(2)` write the same line, which names no value | `'dac ' + str(val) + '\r\n'` | not executed | Commands.DacAsWrittenLosesValue | Commands.Dac |
| src/tinySA_python.py:913 | the setter branch of `vbat_offset` formats `str(id)`, so it writes `vbat_offset <built-in function id>\r\n` | `vbat_offset(100)` and `vbat_offset(200)` write the same line | `'vbat_offset ' + str(val) + '\r\n'` | not executed | Commands.VbatOffsetAsWrittenLosesValue | Commands.VbatOffset |
