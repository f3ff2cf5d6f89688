/**
 * The Fiat–Shamir transcript: a Keccak-256 hasher that absorbs bytes and,
 * on request, finalizes, resets, re-absorbs its own digest and turns that
 * digest into a field element.  Keccak-256 itself is a parameter, `hash`,
 * so every property below holds for any hash function.
 */
module Transcripts {
  import opened Field
  import opened Encoding

  type Digest = s: Bytes | |s| == 32 witness seq(32, _ => 0)

  /** The hasher's state: the hash function and the bytes absorbed since its last reset. */
  datatype Sponge = Sponge(hash: Bytes -> Digest, buffer: Bytes)

  /** `Keccak256::new()`. */
  function Fresh(hash: Bytes -> Digest): (s: Sponge)
    ensures s.hash == hash && s.buffer == []
  {
    Sponge(hash, [])
  }

  /** The state after `absorb(data)`. */
  function Absorbed(s: Sponge, data: Bytes): (r: Sponge)
    ensures r.hash == s.hash && r.buffer == s.buffer + data
  {
    s.(buffer := s.buffer + data)
  }

  /** The digest `finalize_reset` returns. */
  function Digested(s: Sponge): Digest
  {
    s.hash(s.buffer)
  }

  /**
   * The challenge `random_challenge_as_field_element` returns and the state
   * it leaves: the hasher is reset and has absorbed exactly the digest.
   */
  function Challenged(s: Sponge): (r: (Fe, Sponge))
    ensures r.1.hash == s.hash && r.1.buffer == Digested(s)
    ensures r.0 == FromLeBytesModOrder(Digested(s))
  {
    (FromLeBytesModOrder(Digested(s)), Sponge(s.hash, Digested(s)))
  }

  /** The element `squeeze` returns (it does not change the state). */
  function Squeezed(s: Sponge): Fe
  {
    FromBeBytesModOrder(Digested(s))
  }

  /**
   * Two transcripts that absorbed the same bytes since the same state
   * produce the same challenge: the determinism the verifier relies on to
   * re-derive the prover's challenges.
   */
  lemma ChallengeDeterministic(s: Sponge, t: Sponge, data: Bytes)
    requires s.hash == t.hash && s.buffer == t.buffer
    ensures Challenged(Absorbed(s, data)) == Challenged(Absorbed(t, data))
  {
  }

  /** A challenge depends only on the bytes absorbed since the previous challenge. */
  lemma ChallengeForgetsHistory(s: Sponge, data: Bytes)
    ensures Challenged(Absorbed(Challenged(s).1, data)).0
         == FromLeBytesModOrder(s.hash(s.hash(s.buffer) + data))
  {
  }

  class Transcript {
    var hasher: Sponge

    /** `Transcript::new()` (gkr) or `Transcript::new(Keccak256::new())` (fiat_shamir). */
    constructor (hash: Bytes -> Digest)
      ensures hasher == Fresh(hash)
    {
      hasher := Fresh(hash);
    }

    method Absorb(data: Bytes)
      modifies this
      ensures hasher == Absorbed(old(hasher), data)
    {
      hasher := hasher.(buffer := hasher.buffer + data);
    }

    function Squeeze(): Fe
      reads this
    {
      Squeezed(hasher)
    }

    /** `sample_random_challenge`: finalize, reset, re-absorb the digest. */
    method SampleRandomChallenge() returns (d: Digest)
      modifies this
      ensures d == Digested(old(hasher))
      ensures hasher == Challenged(old(hasher)).1
    {
      d := hasher.hash(hasher.buffer);
      hasher := Sponge(hasher.hash, d);
    }

    method RandomChallengeAsFieldElement() returns (c: Fe)
      modifies this
      ensures (c, hasher) == Challenged(old(hasher))
    {
      var d := SampleRandomChallenge();
      c := FromLeBytesModOrder(d);
    }
  }
}
