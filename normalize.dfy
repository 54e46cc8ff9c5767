// `cleanReturn`: the device echoes the command line and ends every reply with
// its prompt; the client cuts both off and returns the bytes in between.

module Normalize {
  import opened Bytes

  /** Everything up to and including the first "\r\n" (the echoed command)
      is removed; without a "\r\n" the data is left as it is. */
  function DropEcho(data: seq<Byte>): (r: seq<Byte>)
    ensures Find(data, CRLF) == -1 ==> r == data
    ensures Find(data, CRLF) != -1 ==> data == data[..Find(data, CRLF)] + CRLF + r
  {
    var k := Find(data, CRLF);
    if k != -1 then data[k + 2..] else data
  }

  /** A body ending in "ch>" loses its last FOUR bytes, the prompt and the
      byte before it (Python's `data[:-4]`, empty when only the prompt is
      left); any other body is left as it is. */
  function DropPrompt(body: seq<Byte>): (r: seq<Byte>)
    ensures !EndsWith(body, PROMPT) ==> r == body
    ensures EndsWith(body, PROMPT) && |body| == |PROMPT| ==> r == []
    ensures EndsWith(body, PROMPT) && |body| > |PROMPT| ==> body == r + [body[|body| - 4]] + PROMPT
  {
    if !EndsWith(body, PROMPT) then body
    else if |body| < 4 then []
    else
      var r := body[..|body| - 4];
      assert body == r + [body[|body| - 4]] + body[|body| - 3..];
      r
  }

  /** `cleanReturn(data)`. */
  function Clean(data: seq<Byte>): (r: seq<Byte>)
    ensures |r| <= |data|
  {
    DropPrompt(DropEcho(data))
  }

  /** The payload is one contiguous run of the reply's bytes. */
  lemma CleanIsSlice(data: seq<Byte>)
    ensures exists i, j :: 0 <= i <= j <= |data| && Clean(data) == data[i..j]
  {
    var k := Find(data, CRLF);
    var i := if k != -1 then k + 2 else 0;
    var body := data[i..];
    assert DropEcho(data) == body;
    if !EndsWith(body, PROMPT) {
      assert Clean(data) == data[i..|data|];
    } else if |body| < 4 {
      assert Clean(data) == data[i..i];
    } else {
      assert Clean(data) == body[..|body| - 4] == data[i..|data| - 4];
    }
  }

  /** Data with no "\r\n" and no trailing prompt comes back unchanged; in
      particular cleaning a payload of that kind a second time changes nothing. */
  lemma CleanUnframed(data: seq<Byte>)
    requires Find(data, CRLF) == -1 && !EndsWith(data, PROMPT)
    ensures Clean(data) == data
  {
  }

  /** Corollary of CleanUnframed: a cleaned reply with no line break and no
      trailing prompt is a fixed point of Clean. */
  lemma CleanIdempotent(data: seq<Byte>)
    requires Find(Clean(data), CRLF) == -1 && !EndsWith(Clean(data), PROMPT)
    ensures Clean(Clean(data)) == Clean(data)
  {
    CleanUnframed(Clean(data));
  }

  /** After an echo without a line break, the first "\r\n" is the one that
      ends the echo. */
  lemma FindAfterEcho(echo: seq<Byte>, rest: seq<Byte>)
    requires Find(echo, CRLF) == -1
    ensures Find(echo + CRLF + rest, CRLF) == |echo|
  {
    var s := echo + CRLF + rest;
    assert s[|echo|..|echo| + 2] == CRLF;
    assert OccursAt(s, CRLF, |echo|);
    forall j | 0 <= j < |echo|
      ensures !OccursAt(s, CRLF, j)
    {
      if j + 2 <= |echo| {
        assert s[j..j + 2] == echo[j..j + 2];
        assert !OccursAt(echo, CRLF, j);
      } else {
        assert s[j + 1] == CR;
        assert s[j..j + 2][1] == CR;
      }
    }
  }

  /** After an echo without a line break, only the prompt cut is left to
      apply to what follows the echo's "\r\n". */
  lemma CleanAfterEcho(echo: seq<Byte>, body: seq<Byte>)
    requires Find(echo, CRLF) == -1
    ensures Clean(echo + CRLF + body) == DropPrompt(body)
  {
    FindAfterEcho(echo, body);
  }

  /** A line without a carriage return holds no "\r\n". */
  lemma NoCrNoLineBreak(s: seq<Byte>)
    requires CR !in s
    ensures Find(s, CRLF) == -1
  {
    forall j | 0 <= j && j + 2 <= |s|
      ensures !OccursAt(s, CRLF, j)
    {
      assert s[j..j + 2][0] == s[j] != CR;
    }
  }

  /** The reply to a command with an answer, `echo\r\n<payload>\r\nch>`,
      cleans to the payload followed by the carriage return of its last
      line break. */
  lemma {:induction false} CleanReply(echo: seq<Byte>, payload: seq<Byte>)
    requires Find(echo, CRLF) == -1
    ensures Clean(echo + CRLF + payload + CRLF + PROMPT) == payload + [CR]
  {
    var rest := payload + CRLF + PROMPT;
    assert echo + CRLF + payload + CRLF + PROMPT == echo + CRLF + rest;
    assert DropEcho(echo + CRLF + rest) == rest by {
      FindAfterEcho(echo, rest);
    }
    assert DropPrompt(rest) == payload + [CR] by {
      assert rest[|rest| - 3..] == PROMPT;
      assert rest[..|rest| - 4] == payload + [CR];
    }
  }

  /** The reply to a command without an answer, `echo\r\nch>`, cleans to
      nothing: the four-byte cut runs past the start of "ch>". */
  lemma {:induction false} CleanEmptyReply(echo: seq<Byte>)
    requires Find(echo, CRLF) == -1
    ensures Clean(echo + CRLF + PROMPT) == []
  {
    FindAfterEcho(echo, PROMPT);
    assert DropEcho(echo + CRLF + PROMPT) == PROMPT;
  }

  /** The reply to `version`: b"version\r\n1.2.3\r\nch>" cleans to b"1.2.3\r". */
  lemma VersionExample()
    ensures var echo: seq<Byte> := [0x76, 0x65, 0x72, 0x73, 0x69, 0x6F, 0x6E];
            var payload: seq<Byte> := [0x31, 0x2E, 0x32, 0x2E, 0x33];
            Clean(echo + CRLF + payload + CRLF + PROMPT) == [0x31, 0x2E, 0x32, 0x2E, 0x33, CR]
  {
    var echo: seq<Byte> := [0x76, 0x65, 0x72, 0x73, 0x69, 0x6F, 0x6E];
    NoCrNoLineBreak(echo);
    CleanReply(echo, [0x31, 0x2E, 0x32, 0x2E, 0x33]);
  }
}
