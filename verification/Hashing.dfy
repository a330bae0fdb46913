/** SHA-256 as a streaming hash: a left fold over bytes whose step and digest are not interpreted. */
module Hashing {
  import opened Basics

  type HashState = seq<byte>

  datatype Hasher = Hasher(init: HashState, step: (HashState, byte) -> HashState, digest: HashState -> string)

  /** Writing `data` to a hasher in state `s`. */
  function Extend(h: Hasher, s: HashState, data: Bytes): HashState
    decreases data
  {
    if data == [] then s else Extend(h, h.step(s, data[0]), data[1..])
  }

  /** Hashing in pieces is hashing the whole: what makes a stored state resumable. */
  lemma {:induction false} ExtendConcat(h: Hasher, s: HashState, a: Bytes, b: Bytes)
    ensures Extend(h, Extend(h, s, a), b) == Extend(h, s, a + b)
    decreases a
  {
    if a == [] {
      assert a + b == b;
    } else {
      ExtendConcat(h, h.step(s, a[0]), a[1..], b);
      assert (a + b)[1..] == a[1..] + b;
    }
  }

  function StateOf(h: Hasher, data: Bytes): HashState {
    Extend(h, h.init, data)
  }

  /** The hexadecimal digest of `data`. */
  function Sha(h: Hasher, data: Bytes): string {
    h.digest(StateOf(h, data))
  }

  function LowerChar(c: char): char {
    if 'A' <= c <= 'Z' then c - 'A' + 'a' else c
  }

  /** ASCII lower case, which is all that hexadecimal digests and header names need. */
  function ToLower(s: string): (r: string)
    ensures |r| == |s|
    ensures forall i :: 0 <= i < |s| ==> r[i] == LowerChar(s[i])
  {
    if s == [] then [] else [LowerChar(s[0])] + ToLower(s[1..])
  }

  predicate EqualFold(a: string, b: string) {
    ToLower(a) == ToLower(b)
  }

  const DIGEST_LENGTH: nat := 64

  /** Digests are 64 lower-case hexadecimal characters. */
  ghost predicate HexDigests(h: Hasher) {
    forall s: HashState :: |h.digest(s)| == DIGEST_LENGTH && ToLower(h.digest(s)) == h.digest(s)
  }
}
