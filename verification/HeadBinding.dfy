/** The head digest of a whole stream determines the stream. */
module HeadBinding {
  import opened Basics
  import opened ByteCodec
  import opened Envelope
  import opened AnchorStream
  import opened VerdictTheorems

  /** The envelope an anchor's digest is taken of. */
  function EnvelopeOf(streamId: Bytes, a: ComputedAnchor): Bytes {
    Layout(EnvelopeFields(ENVELOPE_VERSION, streamId, a.seqNo, a.ciphertextDigest,
                          if a.prevEnvelopeDigest.Some? then a.prevEnvelopeDigest.value else []))
  }

  /** Two different envelopes, one of each stream, with the same digest. */
  ghost predicate Collide(keccak: Hash, s: Bytes, xs: seq<ComputedAnchor>, t: Bytes, ys: seq<ComputedAnchor>) {
    exists i, j :: 0 <= i < |xs| && 0 <= j < |ys| && CollideAt(keccak, s, xs[i], t, ys[j])
  }

  ghost predicate CollideAt(keccak: Hash, s: Bytes, x: ComputedAnchor, t: Bytes, y: ComputedAnchor) {
    EnvelopeOf(s, x) != EnvelopeOf(t, y) && keccak(EnvelopeOf(s, x)) == keccak(EnvelopeOf(t, y))
  }

  /** Equal row digests are a collision or come from equal stream, position, ciphertext digest and link. */
  lemma {:induction false} RowDigestBinds(keccak: Hash, s: Bytes, xs: seq<ComputedAnchor>, i: nat,
                                          t: Bytes, ys: seq<ComputedAnchor>, j: nat)
    requires Complete(keccak, s, xs) && Complete(keccak, t, ys) && i < |xs| && j < |ys|
    requires xs[i].envelopeDigest == ys[j].envelopeDigest && !CollideAt(keccak, s, xs[i], t, ys[j])
    ensures s == t && i == j && AnchorRow()(xs[i]) == AnchorRow()(ys[j])
  {
    CompleteLinks(keccak, s, xs, i);
    CompleteLinks(keccak, t, ys, j);
    assert xs[i].seqNo == i && ys[j].seqNo == j;
    var f := EnvelopeFields(ENVELOPE_VERSION, s, i, xs[i].ciphertextDigest, xs[i].prevEnvelopeDigest.value);
    var g := EnvelopeFields(ENVELOPE_VERSION, t, j, ys[j].ciphertextDigest, ys[j].prevEnvelopeDigest.value);
    assert EncodeEnvelope(f) == Ok(Layout(f)) && EncodeEnvelope(g) == Ok(Layout(g));
    LayoutInjective(f, g);
  }

  /** Equal digests at positions `i` and `j`: same stream, same position, and equal rows all the way down. */
  lemma {:induction false} DigestBindsBelow(keccak: Hash, s: Bytes, xs: seq<ComputedAnchor>, i: nat,
                                            t: Bytes, ys: seq<ComputedAnchor>, j: nat)
    requires Complete(keccak, s, xs) && Complete(keccak, t, ys) && i < |xs| && j < |ys|
    requires xs[i].envelopeDigest == ys[j].envelopeDigest && !Collide(keccak, s, xs, t, ys)
    ensures s == t && i == j
    ensures forall k :: 0 <= k <= i ==> AnchorRow()(xs[k]) == AnchorRow()(ys[k])
  {
    RowDigestBinds(keccak, s, xs, i, t, ys, j);
    if i > 0 {
      CompleteLinks(keccak, s, xs, i);
      CompleteLinks(keccak, t, ys, j);
      DigestBindsBelow(keccak, s, xs, i - 1, t, ys, j - 1);
    }
  }

  /** Two whole streams with the same head digest are the same stream (same id, same length, same rows throughout),
      unless two of their envelopes are a collision of the hash. */
  lemma {:induction false} HeadBindsStream(keccak: Hash, s: Bytes, xs: seq<ComputedAnchor>,
                                           t: Bytes, ys: seq<ComputedAnchor>)
    requires Complete(keccak, s, xs) && Complete(keccak, t, ys) && xs != [] && ys != []
    requires xs[|xs| - 1].envelopeDigest == ys[|ys| - 1].envelopeDigest
    ensures Collide(keccak, s, xs, t, ys) || (s == t && Map(AnchorRow(), xs) == Map(AnchorRow(), ys))
  {
    if !Collide(keccak, s, xs, t, ys) { DigestBindsBelow(keccak, s, xs, |xs| - 1, t, ys, |ys| - 1); }
  }
}
