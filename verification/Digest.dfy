/** Content digests: an incremental hash over an uninterpreted byte step. */
module Digest {
  import opened Basics
  import opened Validation

  /** A hash given by its initial state, its step over one byte, and its hexadecimal rendering. */
  datatype HashFunction = HashFunction(init: int, step: (int, byte) -> int, hex: int -> string)

  /** A hash whose rendering is 64 lower-case hexadecimal digits, as SHA-256's is. */
  type Hash = h: HashFunction | forall s :: |h.hex(s)| == 64 && IsLowerHex(h.hex(s))
    witness HashFunction(0, (s, b) => s, s => seq(64, _ => '0'))

  function Absorb(h: Hash, state: int, data: seq<byte>): int
    decreases |data|
  {
    if data == [] then state else Absorb(h, h.step(state, data[0]), data[1..])
  }

  lemma {:induction false} AbsorbConcat(h: Hash, state: int, a: seq<byte>, b: seq<byte>)
    ensures Absorb(h, state, a + b) == Absorb(h, Absorb(h, state, a), b)
    decreases |a|
  {
    if a == [] {
      assert a + b == b;
    } else {
      AbsorbConcat(h, h.step(state, a[0]), a[1..], b);
      assert (a + b)[1..] == a[1..] + b;
    }
  }

  function Render(h: Hash, state: int): (d: string)
    ensures IsDigest(d)
  {
    var d := DIGEST_PREFIX + h.hex(state);
    assert d[..7] == DIGEST_PREFIX && d[7..] == h.hex(state);
    d
  }

  /** The digest of a byte string taken in one piece. */
  function DigestOf(h: Hash, data: seq<byte>): (d: string)
    ensures IsDigest(d)
  {
    Render(h, Absorb(h, h.init, data))
  }

  /** A digest is `sha256:` and the rendered state after the bytes, one step each, in order. */
  lemma DigestSays(h: Hash, data: seq<byte>, last: byte)
    ensures DigestOf(h, data) == "sha256:" + h.hex(Absorb(h, h.init, data))
    ensures Absorb(h, h.init, []) == h.init
    ensures Absorb(h, h.init, data + [last]) == h.step(Absorb(h, h.init, data), last)
  {
    AbsorbConcat(h, h.init, data, [last]);
  }

  datatype ContentIdentity = ContentIdentity(digest: string, byteLength: nat)

  function IdentityOf(h: Hash, data: seq<byte>): ContentIdentity {
    ContentIdentity(DigestOf(h, data), |data|)
  }

  datatype AccumulatorError = Finalized | DigestMismatch

  /** `Sha256Accumulator`: never retains what it was fed; `fed` is for reasoning only. */
  class Accumulator {
    const h: Hash
    var state: int
    var length: nat
    var finished: bool
    ghost var fed: seq<byte>

    ghost predicate Valid()
      reads this
    {
      state == Absorb(h, h.init, fed) && length == |fed|
    }

    constructor (h: Hash)
      ensures Valid() && this.h == h && fed == [] && !finished
    {
      this.h := h;
      state := h.init;
      length := 0;
      finished := false;
      fed := [];
    }

    method Update(chunk: seq<byte>) returns (r: Option<AccumulatorError>)
      requires Valid()
      modifies this
      ensures Valid() && finished == old(finished)
      ensures r == if old(finished) then Some(Finalized) else None
      ensures fed == if old(finished) then old(fed) else old(fed) + chunk
    {
      if finished {
        return Some(Finalized);
      }
      AbsorbConcat(h, h.init, fed, chunk);
      state := Absorb(h, state, chunk);
      length := length + |chunk|;
      fed := fed + chunk;
      return None;
    }

    /** Usable once, even when the digest turns out not to match. */
    method Finish(expectedDigest: Option<string>) returns (r: Result<ContentIdentity, AccumulatorError>)
      requires Valid()
      modifies this
      ensures Valid() && finished && fed == old(fed)
      ensures r == if old(finished) then Failure(Finalized)
                   else if expectedDigest.Some? && expectedDigest.value != DigestOf(h, fed) then Failure(DigestMismatch)
                   else Success(IdentityOf(h, fed))
    {
      if finished {
        return Failure(Finalized);
      }
      finished := true;
      var identity := ContentIdentity(Render(h, state), length);
      if expectedDigest.Some? && identity.digest != expectedDigest.value {
        return Failure(DigestMismatch);
      }
      return Success(identity);
    }
  }

  // ---- Independence of the split ----

  function Flatten(chunks: seq<seq<byte>>): seq<byte> {
    if chunks == [] then [] else chunks[0] + Flatten(chunks[1..])
  }

  function AbsorbAll(h: Hash, state: int, chunks: seq<seq<byte>>): int
    decreases |chunks|
  {
    if chunks == [] then state else AbsorbAll(h, Absorb(h, state, chunks[0]), chunks[1..])
  }

  lemma {:induction false} AbsorbAllIsAbsorb(h: Hash, state: int, chunks: seq<seq<byte>>)
    ensures AbsorbAll(h, state, chunks) == Absorb(h, state, Flatten(chunks))
    decreases |chunks|
  {
    if chunks != [] {
      AbsorbAllIsAbsorb(h, Absorb(h, state, chunks[0]), chunks[1..]);
      AbsorbConcat(h, state, chunks[0], Flatten(chunks[1..]));
    }
  }

  /** Two ways of splitting the same bytes give the same digest. */
  lemma SplitDoesNotMatter(h: Hash, a: seq<seq<byte>>, b: seq<seq<byte>>)
    requires Flatten(a) == Flatten(b)
    ensures Render(h, AbsorbAll(h, h.init, a)) == Render(h, AbsorbAll(h, h.init, b)) == DigestOf(h, Flatten(a))
  {
    AbsorbAllIsAbsorb(h, h.init, a);
    AbsorbAllIsAbsorb(h, h.init, b);
  }
}
