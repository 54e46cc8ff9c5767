// The TinySA client object. Its serial port is reduced to two things: the
// log of everything written to it, and a finite script of the chunks it will
// deliver, one per `read(in_waiting)` (an empty chunk is a poll that found
// nothing waiting).

module Client {
  import opened Wrappers
  import opened Bytes
  import opened Framing
  import opened Normalize
  import Commands

  /** What a method of the client returns. */
  datatype Reply =
    | Payload(data: seq<Byte>)  // a bytearray
    | Nothing                   // None
    | Stalled                   // the script ended before a prompt; the source keeps polling forever
    | Raised                    // a TypeError escapes

  /** One request/reply cycle on a script: the cleaned reply and the chunks
      left unread. Bytes of the last chunk read that follow the frame are not
      among them. */
  function Exchange(script: seq<seq<Byte>>): (r: (Reply, seq<seq<Byte>>))
    ensures r.0.Payload? <==> HasPrompt(Flatten(script))
    ensures r.0.Payload? || r.0 == Stalled
    ensures r.0.Payload? ==> |r.1| < |script| && r.1 == script[|script| - |r.1|..]
    ensures r.0 == Stalled ==> r.1 == []
  {
    if HasPrompt(Flatten(script)) then
      PromptHasGt(Flatten(script));
      (Payload(Clean(Frame(Flatten(script)))), script[PromptRead(script)..])
    else
      (Stalled, [])
  }

  /** What a command method did, from the log and script before (w0, c0) and
      after (w1, c1): exactly one write and one read cycle for an accepted
      argument, nothing at all otherwise. */
  predicate Performed(d: Commands.Decision, w0: seq<seq<Byte>>, c0: seq<seq<Byte>>,
                      w1: seq<seq<Byte>>, c1: seq<seq<Byte>>, r: Reply)
  {
    match d
    case Send(wire) => w1 == w0 + [Utf8(wire)] && (r, c1) == Exchange(c0)
    case Reject(sentinel) => w1 == w0 && c1 == c0 && r == Payload(sentinel)
    case Raise => w1 == w0 && c1 == c0 && r == Raised
  }

  /** If the stream starts with a well-formed reply `echo\r\n<payload>\r\nch>`
      (no '>' before the prompt), the exchange returns the payload with its
      trailing carriage return, however the stream is chunked. */
  lemma {:induction false} ExchangeOfReply(script: seq<seq<Byte>>, echo: seq<Byte>, payload: seq<Byte>, tail: seq<Byte>)
    requires Flatten(script) == echo + CRLF + payload + CRLF + PROMPT + tail
    requires GT !in echo && GT !in payload && Find(echo, CRLF) == -1
    ensures HasPrompt(Flatten(script)) && Exchange(script).0 == Payload(payload + [CR])
  {
    var f := echo + CRLF + payload + CRLF + PROMPT;
    var s := Flatten(script);
    assert s == f + tail;
    assert f[|f| - 1] == GT;
    assert f[..|f| - 1] == echo + CRLF + payload + CRLF + PROMPT[..2];
    FrameIsWhole(f);
    FrameOfPrefix(f, tail);
    assert s[|f| - 3..|f|] == PROMPT;
    assert OccursAt(s, PROMPT, |f| - 3);
    CleanReply(echo, payload);
  }

  /** A reply with nothing to say, `echo\r\nch>`, comes back empty. */
  lemma {:induction false} ExchangeOfEmptyReply(script: seq<seq<Byte>>, echo: seq<Byte>, tail: seq<Byte>)
    requires Flatten(script) == echo + CRLF + PROMPT + tail
    requires GT !in echo && Find(echo, CRLF) == -1
    ensures Exchange(script).0 == Payload([])
  {
    var f := echo + CRLF + PROMPT;
    var s := Flatten(script);
    assert s == f + tail;
    assert f[|f| - 1] == GT;
    assert f[..|f| - 1] == echo + CRLF + PROMPT[..2];
    FrameIsWhole(f);
    FrameOfPrefix(f, tail);
    assert s[|f| - 3..|f|] == PROMPT;
    assert OccursAt(s, PROMPT, |f| - 3);
    CleanEmptyReply(echo);
  }

  /** A stream whose only '>' is its last byte is one whole frame. */
  lemma FrameIsWhole(f: seq<Byte>)
    requires |f| >= 1 && f[|f| - 1] == GT && GT !in f[..|f| - 1]
    ensures GT in f && Frame(f) == f
  {
    FindByte(f, GT);
  }

  /** A reply cut into three reads, inside the echo and inside the payload,
      returns what it returns when read whole and uses up all three chunks:
      the loop goes on past the first two reads because neither holds `ch>`. */
  lemma {:induction false} ReplyOverThreeReads(echo: seq<Byte>, payload: seq<Byte>, i: nat, j: nat)
    requires i <= |echo| && j <= |payload|
    requires GT !in echo && GT !in payload && Find(echo, CRLF) == -1
    ensures Exchange([echo[..i], echo[i..] + CRLF + payload[..j], payload[j..] + CRLF + PROMPT])
            == (Payload(payload + [CR]), [])
  {
    var script := [echo[..i], echo[i..] + CRLF + payload[..j], payload[j..] + CRLF + PROMPT];
    ThreeReadsStream(echo, payload, i, j);
    ExchangeOfReply(script, echo, payload, []);
    PromptReadIsFirst(script, 3);
    assert Exchange(script).1 == script[3..] == [];
  }

  /** The stream of those three reads, and the reads before the last one,
      which hold no '>'. */
  lemma ThreeReadsStream(echo: seq<Byte>, payload: seq<Byte>, i: nat, j: nat)
    requires i <= |echo| && j <= |payload|
    requires GT !in echo && GT !in payload
    ensures var script := [echo[..i], echo[i..] + CRLF + payload[..j], payload[j..] + CRLF + PROMPT];
      Flatten(script) == echo + CRLF + payload + CRLF + PROMPT + []
      && script[..3] == script
      && forall k :: 0 <= k < 3 ==> !HasPrompt(Flatten(script[..k]))
  {
    var a, b, c := echo[..i], echo[i..] + CRLF + payload[..j], payload[j..] + CRLF + PROMPT;
    var script := [a, b, c];
    ThreeChunks(a, b, c);
    assert echo[..i] + echo[i..] == echo && payload[..j] + payload[j..] == payload;
    assert a + b == echo + CRLF + payload[..j];
    assert script[..0] == [] && script[..3] == script;
    NoGtNoPrompt(a);
    NoGtNoPrompt(a + b);
  }

  /** The `version` exchange, with the reply split over three reads:
      b"vers", b"ion\r\n1.2", b".3\r\nch>" give b"1.2.3\r". */
  lemma VersionOverThreeReads()
    ensures var echo: seq<Byte> := [0x76, 0x65, 0x72, 0x73, 0x69, 0x6F, 0x6E];
            var payload: seq<Byte> := [0x31, 0x2E, 0x32, 0x2E, 0x33];
            Exchange([echo[..4], echo[4..] + CRLF + payload[..3], payload[3..] + CRLF + PROMPT])
            == (Payload(payload + [CR]), [])
  {
    var echo: seq<Byte> := [0x76, 0x65, 0x72, 0x73, 0x69, 0x6F, 0x6E];
    var payload: seq<Byte> := [0x31, 0x2E, 0x32, 0x2E, 0x33];
    NoCrNoLineBreak(echo);
    ReplyOverThreeReads(echo, payload, 4, 3);
  }

  /** A reply read whole in one chunk leaves nothing behind. */
  lemma SingleEmptyReply(echo: seq<Byte>)
    requires GT !in echo && Find(echo, CRLF) == -1
    ensures Exchange([echo + CRLF + PROMPT]) == (Payload([]), [])
  {
    var reply := echo + CRLF + PROMPT;
    assert [reply][..1] == [reply] && [reply][..0] == [];
    FlattenStep([reply], 1);
    assert Flatten([reply]) == echo + CRLF + PROMPT + [];
    ExchangeOfEmptyReply([reply], echo, []);
    PromptReadIsFirst([reply], 1);
    assert Exchange([reply]).1 == [reply][1..] == [];
  }

  /** The same for a reply that carries a payload. */
  lemma SingleReply(echo: seq<Byte>, payload: seq<Byte>)
    requires GT !in echo && GT !in payload && Find(echo, CRLF) == -1
    ensures Exchange([echo + CRLF + payload + CRLF + PROMPT]) == (Payload(payload + [CR]), [])
  {
    var reply := echo + CRLF + payload + CRLF + PROMPT;
    assert [reply][..1] == [reply] && [reply][..0] == [];
    FlattenStep([reply], 1);
    assert Flatten([reply]) == echo + CRLF + payload + CRLF + PROMPT + [];
    ExchangeOfReply([reply], echo, payload, []);
    PromptReadIsFirst([reply], 1);
    assert Exchange([reply]).1 == [reply][1..] == [];
  }

  /** `status` answered in one read by b"status\r\nResumed\r\nch>" returns
      b"Resumed\r", the example return the method documents. */
  lemma StatusExample()
    ensures var echo: seq<Byte> := [0x73, 0x74, 0x61, 0x74, 0x75, 0x73];
            var resumed: seq<Byte> := [0x52, 0x65, 0x73, 0x75, 0x6D, 0x65, 0x64];
            Exchange([echo + CRLF + resumed + CRLF + PROMPT]) == (Payload(resumed + [CR]), [])
  {
    var echo: seq<Byte> := [0x73, 0x74, 0x61, 0x74, 0x75, 0x73];
    var resumed: seq<Byte> := [0x52, 0x65, 0x73, 0x75, 0x6D, 0x65, 0x64];
    NoCrNoLineBreak(echo);
    SingleReply(echo, resumed);
  }

  /** A payload that holds a '>' byte is cut just after it: the frame ends at
      the first '>', so nothing that follows it reaches the caller, whatever
      the chunking. Binary replies such as the pixels of `capture` are
      truncated this way. */
  lemma {:induction false} GtInPayloadCutsReply(script: seq<seq<Byte>>, echo: seq<Byte>, pre: seq<Byte>, rest: seq<Byte>)
    requires Flatten(script) == echo + CRLF + pre + [GT] + rest
    requires HasPrompt(Flatten(script))
    requires GT !in echo && GT !in pre && Find(echo, CRLF) == -1
    ensures Exchange(script).0 == Payload(DropPrompt(pre + [GT]))
    ensures |Exchange(script).0.data| <= |pre| + 1
  {
    var f := echo + CRLF + (pre + [GT]);
    var s := Flatten(script);
    assert s == f + rest;
    assert GT in f && Frame(f) == f by {
      assert f[..|f| - 1] == echo + CRLF + pre;
      FrameIsWhole(f);
    }
    FrameOfPrefix(f, rest);
    var body := DropPrompt(pre + [GT]);
    assert Clean(Frame(s)) == body by {
      CleanAfterEcho(echo, pre + [GT]);
    }
    assert Exchange(script).0 == Payload(body);
  }

  /** A `capture` reply whose second pixel byte is 0x3E, read in one chunk:
      b"capture\r\n" then the pixels 00 3E 00 00 and "\r\nch>" gives only
      b"\x00>". */
  lemma CaptureExample()
    ensures var echo: seq<Byte> := [0x63, 0x61, 0x70, 0x74, 0x75, 0x72, 0x65];
            var pixels: seq<Byte> := [0x00, GT, 0x00, 0x00];
            Exchange([echo + CRLF + pixels + CRLF + PROMPT]).0 == Payload([0x00, GT])
  {
    var echo: seq<Byte> := [0x63, 0x61, 0x70, 0x74, 0x75, 0x72, 0x65];
    var pixels: seq<Byte> := [0x00, GT, 0x00, 0x00];
    var reply := echo + CRLF + pixels + CRLF + PROMPT;
    var script: seq<seq<Byte>> := [reply];
    assert Flatten(script) == reply by {
      assert script[..1] == script && script[..0] == [];
      FlattenStep(script, 1);
    }
    var pre: seq<Byte> := [0x00];
    assert Exchange(script).0 == Payload(DropPrompt(pre + [GT])) by {
      CaptureReplyShape(echo, pixels);
      GtInPayloadCutsReply(script, echo, pre, [0x00, 0x00] + CRLF + PROMPT);
    }
    assert DropPrompt(pre + [GT]) == [0x00, GT] by {
      assert pre + [GT] == [0x00, GT];
      assert !EndsWith(pre + [GT], PROMPT);
    }
  }

  /** The byte-level facts CaptureExample needs about its reply. */
  lemma CaptureReplyShape(echo: seq<Byte>, pixels: seq<Byte>)
    requires echo == [0x63, 0x61, 0x70, 0x74, 0x75, 0x72, 0x65]
    requires pixels == [0x00, GT, 0x00, 0x00]
    ensures var reply := echo + CRLF + pixels + CRLF + PROMPT;
            HasPrompt(reply)
            && reply == echo + CRLF + [0x00] + [GT] + ([0x00, 0x00] + CRLF + PROMPT)
            && GT !in echo && Find(echo, CRLF) == -1
  {
    var reply := echo + CRLF + pixels + CRLF + PROMPT;
    assert reply[|reply| - 3..] == PROMPT;
    assert OccursAt(reply, PROMPT, |reply| - 3);
    NoCrNoLineBreak(echo);
  }

  /** Two replies that arrive in one read: the reply returned is decided by
      the first alone, the second is dropped with the rest of the buffer, and
      the next call starts at the chunks after that read, whatever they are. */
  lemma {:induction false} PipelinedReplyDropped(first: seq<Byte>, second: seq<Byte>, rest: seq<seq<Byte>>)
    requires HasPrompt(first)
    ensures Exchange([first + second] + rest).0 == Exchange([first]).0
    ensures Exchange([first + second] + rest).1 == rest
  {
    var script := [first + second] + rest;
    assert script[0] == first + second && script[1..] == rest && [first][1..] == [];
    FindInPrefix(first, second, PROMPT);
    FirstChunkHoldsPrompt(script);
    FirstChunkHoldsPrompt([first]);
    assert Flatten([]) == [];
    PromptHasGt(first);
    assert Flatten(script) == first + (second + Flatten(rest));
    FrameOfPrefix(first, second + Flatten(rest));
    assert Flatten([first]) == first;
    assert Frame(Flatten(script)) == Frame(Flatten([first]));
    assert Exchange(script).0 == Payload(Clean(Frame(Flatten([first])))) == Exchange([first]).0;
  }

  class TinySA {
    /** Every `ser.write`, in order, as bytes. */
    var written: seq<seq<Byte>>
    /** The chunks still to be read from the port. */
    var chunks: seq<seq<Byte>>

    /** A client whose port is open and will deliver `script`. */
    constructor (script: seq<seq<Byte>>)
      ensures written == [] && chunks == script
    {
      written := [];
      chunks := script;
    }

    /** `getSerialReturn`: read until the buffer holds "ch>", return the
        buffer through its first '>'. */
    method GetSerialReturn() returns (frame: Option<seq<Byte>>)
      modifies this`chunks
      ensures HasPrompt(Flatten(old(chunks))) ==>
        GT in Flatten(old(chunks)) && frame == Some(Frame(Flatten(old(chunks))))
        && chunks == old(chunks)[PromptRead(old(chunks))..]
      ensures !HasPrompt(Flatten(old(chunks))) ==> frame == None && chunks == []
    {
      ghost var script := chunks;
      ghost var n := 0;
      var buffer: seq<Byte> := [];
      var complete: seq<Byte>;
      while chunks != []
        invariant 0 <= n <= |script| && chunks == script[n..]
        invariant buffer == Flatten(script[..n])
        invariant forall j :: 0 <= j <= n ==> !HasPrompt(Flatten(script[..j]))
        decreases |chunks|
      {
        // `in_waiting` is the size of the next chunk; `read` returns it
        var chunk := chunks[0];
        chunks := chunks[1..];
        n := n + 1;
        FlattenStep(script, n);
        if |chunk| > 0 {
          buffer := buffer + chunk;
          var gt := Find(buffer, [GT]);
          if gt == -1 {
            // `buffer.index(b'>')` raises ValueError: keep reading
            FindByte(buffer, GT);
            NoGtNoPrompt(buffer);
            continue;
          }
          complete := buffer[..gt + 1];
          var at := Find(buffer, PROMPT);
          if at == -1 {
            // `buffer.index(b'ch>')` raises ValueError: keep reading
            continue;
          }
          buffer := buffer[at + 1..];  // a local: dropped on return
          FrameFound(script, n);
          assert complete == Frame(Flatten(script[..n]));
          return Some(complete);
        }
      }
      assert script[..n] == script;
      return None;
    }

    /** `tinySASerial`: write the command, read one frame, clean it. */
    method TinySASerial(writebyte: string) returns (r: Reply)
      modifies this
      ensures written == old(written) + [Utf8(writebyte)]
      ensures (r, chunks) == Exchange(old(chunks))
    {
      written := written + [Utf8(writebyte)];
      var frame := GetSerialReturn();
      if frame.None? {
        return Stalled;
      }
      r := Payload(Clean(frame.value));
    }

    /** The common shape of the command methods: on acceptance send and
        read, otherwise return the rejection without touching the port. */
    method Run(d: Commands.Decision) returns (r: Reply)
      modifies this
      ensures Performed(d, old(written), old(chunks), written, chunks, r)
    {
      match d
      case Send(wire) => r := TinySASerial(wire);
      case Reject(sentinel) => r := Payload(sentinel);
      case Raise => r := Raised;
    }

    /** `sd_list`: writes b'sd_list\r\n' itself, then reads and cleans as
        `tinySASerial` does. */
    method SdList() returns (r: Reply)
      modifies this
      ensures written == old(written) + [Utf8("sd_list\r\n")]
      ensures (r, chunks) == Exchange(old(chunks))
    {
      written := written + [Utf8("sd_list\r\n")];
      var frame := GetSerialReturn();
      if frame.None? {
        return Stalled;
      }
      r := Payload(Clean(frame.value));
    }

    /** The commands without argument: one fixed line, one read cycle. */
    method Query(q: Commands.Query) returns (r: Reply)
      modifies this
      ensures written == old(written) + [Utf8(Commands.QueryWire(q))]
      ensures (r, chunks) == Exchange(old(chunks))
    {
      r := TinySASerial(Commands.QueryWire(q));
    }

    /** `reset`: sends "reset\r\n" and reads the reply, but returns None. */
    method Reset() returns (r: Reply)
      modifies this
      ensures written == old(written) + [Utf8("reset\r\n")]
      ensures chunks == Exchange(old(chunks)).1
      ensures r == if Exchange(old(chunks)).0 == Stalled then Stalled else Nothing
    {
      var reply := TinySASerial("reset\r\n");
      r := if reply == Stalled then Stalled else Nothing;
    }

    /** The methods not implemented yet: no I/O, None. */
    method NotImplemented(s: Commands.Stub) returns (r: Reply)
      ensures r == Nothing
    {
      r := Nothing;
    }

    method Agc(v: Commands.Arg) returns (r: Reply)
      modifies this
      ensures Performed(Commands.Agc(v), old(written), old(chunks), written, chunks, r)
    {
      r := Run(Commands.Agc(v));
    }

    method Attenuate(v: Commands.Arg) returns (r: Reply)
      modifies this
      ensures Performed(Commands.Attenuate(v), old(written), old(chunks), written, chunks, r)
    {
      r := Run(Commands.Attenuate(v));
    }

    method Caloutput(v: Commands.Arg) returns (r: Reply)
      modifies this
      ensures Performed(Commands.Caloutput(v), old(written), old(chunks), written, chunks, r)
    {
      r := Run(Commands.Caloutput(v));
    }

    method Dac(v: Commands.Arg) returns (r: Reply)
      modifies this
      ensures Performed(Commands.Dac(v), old(written), old(chunks), written, chunks, r)
    {
      r := Run(Commands.Dac(v));
    }

    method Data(v: Commands.Arg) returns (r: Reply)
      modifies this
      ensures Performed(Commands.Data(v), old(written), old(chunks), written, chunks, r)
    {
      r := Run(Commands.Data(v));
    }

    method Deviceid(v: Commands.Arg) returns (r: Reply)
      modifies this
      ensures Performed(Commands.Deviceid(v), old(written), old(chunks), written, chunks, r)
    {
      r := Run(Commands.Deviceid(v));
    }

    method ExtGain(v: Commands.Arg) returns (r: Reply)
      modifies this
      ensures Performed(Commands.ExtGain(v), old(written), old(chunks), written, chunks, r)
    {
      r := Run(Commands.ExtGain(v));
    }

    method Freq(v: Commands.Arg) returns (r: Reply)
      modifies this
      ensures Performed(Commands.Freq(v), old(written), old(chunks), written, chunks, r)
    {
      r := Run(Commands.Freq(v));
    }

    method SetIF(v: Commands.Arg) returns (r: Reply)
      modifies this
      ensures Performed(Commands.SetIF(v), old(written), old(chunks), written, chunks, r)
    {
      r := Run(Commands.SetIF(v));
    }

    method If1(v: Commands.Arg) returns (r: Reply)
      modifies this
      ensures Performed(Commands.If1(v), old(written), old(chunks), written, chunks, r)
    {
      r := Run(Commands.If1(v));
    }

    method Levelchange(v: Commands.Arg) returns (r: Reply)
      modifies this
      ensures Performed(Commands.Levelchange(v), old(written), old(chunks), written, chunks, r)
    {
      r := Run(Commands.Levelchange(v));
    }

    method Load(v: Commands.Arg) returns (r: Reply)
      modifies this
      ensures Performed(Commands.Load(v), old(written), old(chunks), written, chunks, r)
    {
      r := Run(Commands.Load(v));
    }

    method Lna(v: Commands.Arg) returns (r: Reply)
      modifies this
      ensures Performed(Commands.Lna(v), old(written), old(chunks), written, chunks, r)
    {
      r := Run(Commands.Lna(v));
    }

    method Lna2(v: Commands.Arg) returns (r: Reply)
      modifies this
      ensures Performed(Commands.Lna2(v), old(written), old(chunks), written, chunks, r)
    {
      r := Run(Commands.Lna2(v));
    }

    method Output(v: Commands.Arg) returns (r: Reply)
      modifies this
      ensures Performed(Commands.Output(v), old(written), old(chunks), written, chunks, r)
    {
      r := Run(Commands.Output(v));
    }

    method Rbw(v: Commands.Arg) returns (r: Reply)
      modifies this
      ensures Performed(Commands.Rbw(v), old(written), old(chunks), written, chunks, r)
    {
      r := Run(Commands.Rbw(v));
    }

    method Recall(v: Commands.Arg) returns (r: Reply)
      modifies this
      ensures Performed(Commands.Recall(v), old(written), old(chunks), written, chunks, r)
    {
      r := Run(Commands.Recall(v));
    }

    method Refresh(v: Commands.Arg) returns (r: Reply)
      modifies this
      ensures Performed(Commands.Refresh(v), old(written), old(chunks), written, chunks, r)
    {
      r := Run(Commands.Refresh(v));
    }

    method Save(v: Commands.Arg) returns (r: Reply)
      modifies this
      ensures Performed(Commands.Save(v), old(written), old(chunks), written, chunks, r)
    {
      r := Run(Commands.Save(v));
    }

    method Selftest(v: Commands.Arg) returns (r: Reply)
      modifies this
      ensures Performed(Commands.Selftest(v), old(written), old(chunks), written, chunks, r)
    {
      r := Run(Commands.Selftest(v));
    }

    method Spur(v: Commands.Arg) returns (r: Reply)
      modifies this
      ensures Performed(Commands.Spur(v), old(written), old(chunks), written, chunks, r)
    {
      r := Run(Commands.Spur(v));
    }

    method VbatOffset(v: Commands.Arg) returns (r: Reply)
      modifies this
      ensures Performed(Commands.VbatOffset(v), old(written), old(chunks), written, chunks, r)
    {
      r := Run(Commands.VbatOffset(v));
    }
  }

  /** A caller's view of `attenuate` on a port that will answer with an
      empty reply: 99 leaves log and port alone and returns b''; 15 is
      performed exactly when one line "attenuate 15\r\n" is written and the
      reply is consumed, returning b''. */
  lemma AttenuateScenario(w: seq<seq<Byte>>, echo: seq<Byte>, w1: seq<seq<Byte>>, c1: seq<seq<Byte>>, r: Reply)
    requires GT !in echo && Find(echo, CRLF) == -1
    ensures Performed(Commands.Attenuate(Commands.Int(99)), w, [echo + CRLF + PROMPT],
                      w, [echo + CRLF + PROMPT], Payload([]))
    ensures Performed(Commands.Attenuate(Commands.Int(15)), w, [echo + CRLF + PROMPT], w1, c1, r)
            <==> w1 == w + [Utf8("attenuate 15\r\n")] && c1 == [] && r == Payload([])
  {
    Commands.AttenuateScenarios();
    SingleEmptyReply(echo);
  }
}
