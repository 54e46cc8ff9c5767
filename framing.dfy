// What `getSerialReturn` extracts from the byte stream the tinySA sends back:
// the stream is cut after its first '>' once the prompt "ch>" has arrived.
// A scripted port delivers the stream as a finite list of chunks, one per
// `read(in_waiting)`; these functions specify the loop that consumes them.

module Framing {
  import opened Bytes

  /** The chunks of a script, one after the other (what `buffer += ...`
      accumulates). Built from the right, as the loop builds it. */
  function Flatten(cs: seq<seq<Byte>>): seq<Byte>
  {
    if cs == [] then [] else Flatten(cs[..|cs| - 1]) + cs[|cs| - 1]
  }

  /** The stream read from the first k chunks is a prefix of the whole stream. */
  lemma {:induction false} FlattenSplit(cs: seq<seq<Byte>>, k: nat)
    requires k <= |cs|
    ensures Flatten(cs) == Flatten(cs[..k]) + Flatten(cs[k..])
    decreases |cs|
  {
    if k < |cs| {
      var n := |cs| - 1;
      FlattenSplit(cs[..n], k);
      assert cs[..n][..k] == cs[..k];
      assert cs[k..][..|cs[k..]| - 1] == cs[..n][k..];
    } else {
      assert cs[..k] == cs;
    }
  }

  /** Reading one more chunk appends it to the stream read so far. */
  lemma FlattenStep(cs: seq<seq<Byte>>, n: nat)
    requires 1 <= n <= |cs|
    ensures Flatten(cs[..n]) == Flatten(cs[..n - 1]) + cs[n - 1]
  {
    assert cs[..n][..n - 1] == cs[..n - 1];
  }

  /** A reply that arrives in three reads. */
  lemma ThreeChunks(a: seq<Byte>, b: seq<Byte>, c: seq<Byte>)
    ensures Flatten([a, b, c][..1]) == a
    ensures Flatten([a, b, c][..2]) == a + b
    ensures Flatten([a, b, c]) == a + b + c
  {
    var cs := [a, b, c];
    assert cs[..0] == [] && cs[..3] == cs;
    FlattenStep(cs, 1);
    FlattenStep(cs, 2);
    FlattenStep(cs, 3);
  }

  /** `buffer.index(b'ch>')` does not raise. */
  predicate HasPrompt(s: seq<Byte>)
  {
    Find(s, PROMPT) != -1
  }

  /** A stream that holds the prompt holds a '>'. */
  lemma PromptHasGt(s: seq<Byte>)
    requires HasPrompt(s)
    ensures GT in s
  {
    var k := Find(s, PROMPT);
    assert s[k..k + 3] == PROMPT;
    assert s[k + 2] == GT;
  }

  /** A buffer without '>' holds no prompt. */
  lemma NoGtNoPrompt(s: seq<Byte>)
    requires GT !in s
    ensures !HasPrompt(s)
  {
    if HasPrompt(s) {
      PromptHasGt(s);
    }
  }

  /** `buffer[:buffer.index(b'>') + 1]`: the frame the read loop returns. */
  function Frame(s: seq<Byte>): (f: seq<Byte>)
    requires GT in s
    ensures 1 <= |f| <= |s| && f == s[..|f|]
    ensures f[|f| - 1] == GT && GT !in f[..|f| - 1]
  {
    FindByte(s, GT);
    s[..Find(s, [GT]) + 1]
  }

  /** The frame is decided by the bytes up to the first '>': any stream that
      starts with those bytes yields the same frame. */
  lemma FrameOfPrefix(s: seq<Byte>, t: seq<Byte>)
    requires GT in s
    ensures GT in s + t && Frame(s + t) == Frame(s)
  {
    FindByte(s, GT);
    FindInPrefix(s, t, [GT]);
  }

  function PromptReadFrom(cs: seq<seq<Byte>>, k: nat): (n: nat)
    requires k <= |cs| && HasPrompt(Flatten(cs))
    requires forall j :: 0 <= j < k ==> !HasPrompt(Flatten(cs[..j]))
    ensures k <= n <= |cs|
    ensures HasPrompt(Flatten(cs[..n]))
    ensures forall j :: 0 <= j < n ==> !HasPrompt(Flatten(cs[..j]))
    decreases |cs| - k
  {
    if HasPrompt(Flatten(cs[..k])) then k
    else assert cs[..|cs|] == cs; PromptReadFrom(cs, k + 1)
  }

  /** How many chunks the read loop takes: the fewest whose concatenation
      holds "ch>" (the loop runs until `index(b'ch>')` stops raising). */
  function PromptRead(cs: seq<seq<Byte>>): (n: nat)
    requires HasPrompt(Flatten(cs))
    ensures 1 <= n <= |cs|
    ensures HasPrompt(Flatten(cs[..n]))
    ensures forall j :: 0 <= j < n ==> !HasPrompt(Flatten(cs[..j]))
  {
    var n := PromptReadFrom(cs, 0);
    assert cs[..0] == [];
    n
  }

  /** PromptRead is characterised by its two properties: the first n chunks
      hold the prompt and no shorter prefix does. */
  lemma {:induction false} PromptReadIsFirst(cs: seq<seq<Byte>>, n: nat)
    requires n <= |cs| && HasPrompt(Flatten(cs[..n]))
    requires forall j :: 0 <= j < n ==> !HasPrompt(Flatten(cs[..j]))
    ensures HasPrompt(Flatten(cs)) && PromptRead(cs) == n
  {
    FlattenSplit(cs, n);
    FindInPrefix(Flatten(cs[..n]), Flatten(cs[n..]), PROMPT);
  }

  /** When the first chunk already holds the prompt, the loop reads only it. */
  lemma FirstChunkHoldsPrompt(cs: seq<seq<Byte>>)
    requires cs != [] && HasPrompt(cs[0])
    ensures Flatten(cs) == cs[0] + Flatten(cs[1..])
    ensures HasPrompt(Flatten(cs)) && PromptRead(cs) == 1
  {
    assert cs[..0] == [] && cs[..1][..0] == [];
    FlattenStep(cs, 1);
    assert Flatten(cs[..1]) == cs[0];
    FlattenSplit(cs, 1);
    PromptReadIsFirst(cs, 1);
  }

  /** However the stream is cut into chunks, the frame read when the prompt
      first shows up is the whole stream's prefix through its first '>'. */
  lemma ChunkingIrrelevant(cs: seq<seq<Byte>>)
    requires HasPrompt(Flatten(cs))
    ensures GT in Flatten(cs[..PromptRead(cs)]) && GT in Flatten(cs)
    ensures Frame(Flatten(cs[..PromptRead(cs)])) == Frame(Flatten(cs))
  {
    var n := PromptRead(cs);
    PromptHasGt(Flatten(cs[..n]));
    FlattenSplit(cs, n);
    FrameOfPrefix(Flatten(cs[..n]), Flatten(cs[n..]));
  }

  /** When the prompt first shows up after n chunks, the loop has read
      PromptRead chunks and its frame is the whole stream's. */
  lemma FrameFound(cs: seq<seq<Byte>>, n: nat)
    requires n <= |cs| && HasPrompt(Flatten(cs[..n]))
    requires forall j :: 0 <= j < n ==> !HasPrompt(Flatten(cs[..j]))
    ensures HasPrompt(Flatten(cs)) && PromptRead(cs) == n
    ensures GT in Flatten(cs[..n]) && GT in Flatten(cs)
    ensures Frame(Flatten(cs[..n])) == Frame(Flatten(cs))
  {
    PromptReadIsFirst(cs, n);
    ChunkingIrrelevant(cs);
  }

  /** A bare '>' ends the frame but not the reading: with b"ab>" and then
      b"xch>" arriving, both reads happen and the frame is b"ab>". */
  lemma BareGtEndsFrame()
    ensures var cs := [[0x61, 0x62, GT], [0x78, 0x63, 0x68, GT]];
      HasPrompt(Flatten(cs)) && PromptRead(cs) == 2 && Frame(Flatten(cs)) == [0x61, 0x62, GT]
  {
    var a: seq<Byte> := [0x61, 0x62, GT];
    var b: seq<Byte> := [0x78, 0x63, 0x68, GT];
    var cs := [a, b];
    assert cs[..0] == [] && cs[..1] == [a] && cs[..2] == cs;
    assert Flatten([a]) == a by { assert [a][..0] == []; }
    assert Flatten(cs) == a + b by { assert cs[..1] == [a]; }
    assert OccursAt(a + b, PROMPT, 4) by { assert (a + b)[4..7] == PROMPT; }
    FindByte(a + b, GT);
    assert (a + b)[2] == GT;
    assert GT !in (a + b)[..2];
  }
}
