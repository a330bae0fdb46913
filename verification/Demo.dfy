/** A small concrete setting for examples: two-byte lines, plain "encryption", and a digest that spells the text. */
module Demo {
  import opened Basics
  import opened Chunker
  import opened Convergence
  import opened Hashing
  import opened Lines
  import opened Records
  import opened Server
  import opened Syncer
  import opened Tables
  import opened Vault

  const DEMO_HASHER := Hasher(
    [], (s: HashState, b: byte) => s + [b],
    (s: HashState) =>
      seq(DIGEST_LENGTH, i requires i >= 0 => if i < |s| && 97 <= s[i] <= 122 then s[i] as char else '0'))

  /** The first record of session "s". */
  const DEMO_META := Record([], SessionMeta, None, None, None, Some(MetaView("s", "", [], [], [], [], None)))

  function DemoLink(d: Decoder): Link {
    Link(
      Env(DEMO_HASHER, d,
          Cipher((to: Recipient, plain: Bytes) => plain, (own: Identity, body: Bytes) => Some(body)),
          (text: Bytes) => text, (id: string) => true),
      map["key" := "identity"],
      Client("device", "key", "recipient"),
      (q: ChunkRequest) => Heard)
  }

  lemma DemoWorks(d: Decoder)
    requires Coherent(d)
    ensures Working(DemoLink(d))
  {
    hide Coherent;
    forall s: HashState
      ensures |DEMO_HASHER.digest(s)| == DIGEST_LENGTH && ToLower(DEMO_HASHER.digest(s)) == DEMO_HASHER.digest(s)
    {
      var t := DEMO_HASHER.digest(s);
      assert forall i :: 0 <= i < |t| ==> LowerChar(t[i]) == t[i];
      assert ToLower(t) == t;
    }
  }

  lemma TwoByteLine(line: Bytes)
    requires |line| == 2 && line[0] != NEWLINE && line[1] == NEWLINE
    ensures IsLine(line) && LinesOf(line) == [line] && GoodChunk(line)
  {
    assert line[1..] == [NEWLINE];
    assert IndexByte(line, NEWLINE) == 1;
    assert FirstLine(line) == line && line[2..] == [];
  }

  lemma {:induction false} DemoState(text: Bytes, before: HashState)
    ensures Extend(DEMO_HASHER, before, text) == before + text
    decreases text
  {
    if text == [] {
      ConcatUnit(before);
    } else {
      DemoState(text[1..], before + [text[0]]);
      assert before + [text[0]] + text[1..] == before + text;
    }
  }
}
