/** The Noise session below the framing, kept abstract: message k of a direction is sealed
    and opened under counter k (section 5.1 of The Noise Protocol Framework, revision 34). */
module Session {
  import opened Wrappers
  import opened Bytes
  import opened Frames

  /** One direction of a session. Both functions take the message counter; `None` is an
      encryption or decryption error. */
  datatype Cipher = Cipher(
    seal: (nat, bytes) -> Option<bytes>,
    open: (nat, bytes) -> Option<bytes>)
  {
    /** A ciphertext is never empty, exceeds its plaintext by at most the room the framing
        leaves for key material, and opens to its plaintext under its own counter. */
    ghost predicate Sound() {
      forall k: nat, p :: seal(k, p).Some? ==>
        && 1 <= |seal(k, p).value| <= |p| + EXTRA_ENCRYPT_SPACE
        && open(k, seal(k, p).value) == Some(p)
    }

    /** Integrity of ciphertexts in one run, as far as the receiver got: a frame it read only
        opens if it is one of the sealed ones, no matter which. What the cipher does with frames
        the receiver never saw, or seals later, is left open. */
    ghost predicate Unforged(sealed: seq<bytes>, read: seq<bytes>) {
      forall k | 0 <= k < |read| && open(k, read[k]).Some? :: read[k] in sealed
    }

    /** A ciphertext sealed under one counter does not open under another one that the receiver
        got to. */
    ghost predicate Bound(sealed: seq<bytes>, n: nat) {
      forall j, k | 0 <= j < |sealed| && 0 <= k < n && open(k, sealed[j]).Some? :: j == k
    }
  }

  /** `snow::HandshakeState` or `snow::TransportState`, as far as the framing sees it. */
  datatype Session = Session(outgoing: Cipher, incoming: Cipher, sent: nat, received: nat)

  /** Ciphertexts `cs` are, in order, messages k, k+1, ... with plaintexts `ps`. */
  ghost predicate Opens(cipher: Cipher, k: nat, cs: seq<bytes>, ps: seq<bytes>) {
    && |cs| == |ps|
    && forall i | 0 <= i < |cs| :: cipher.open(k + i, cs[i]) == Some(ps[i])
  }

  /** Reference receiver: opens frames with consecutive counters up to the first failure. */
  function OpenAll(cipher: Cipher, k: nat, cs: seq<bytes>): (ps: seq<bytes>)
    ensures |ps| <= |cs|
    decreases |cs|
  {
    if cs == [] then []
    else
      match cipher.open(k, cs[0])
      case None => []
      case Some(p) => [p] + OpenAll(cipher, k + 1, cs[1..])
  }

  lemma {:induction false} OpenAllOpens(cipher: Cipher, k: nat, cs: seq<bytes>, ps: seq<bytes>)
    requires Opens(cipher, k, cs, ps)
    ensures OpenAll(cipher, k, cs) == ps
    decreases |cs|
  {
    if cs == [] {
    } else {
      assert cipher.open(k + 0, cs[0]) == Some(ps[0]);
      forall i | 0 <= i < |cs[1..]| ensures cipher.open(k + 1 + i, cs[1..][i]) == Some(ps[1..][i]) {
        assert cipher.open(k + (i + 1), cs[i + 1]) == Some(ps[i + 1]);
      }
      OpenAllOpens(cipher, k + 1, cs[1..], ps[1..]);
    }
  }

  lemma {:induction false} OpenAllAppend(cipher: Cipher, k: nat, a: seq<bytes>, b: seq<bytes>)
    requires |OpenAll(cipher, k, a)| == |a|
    ensures OpenAll(cipher, k, a + b) == OpenAll(cipher, k, a) + OpenAll(cipher, k + |a|, b)
    decreases |a|
  {
    if a == [] {
      assert a + b == b;
    } else {
      assert (a + b)[0] == a[0] && (a + b)[1..] == a[1..] + b;
      OpenAllAppend(cipher, k + 1, a[1..], b);
    }
  }

  lemma OpensAppend(cipher: Cipher, k: nat, cs: seq<bytes>, ps: seq<bytes>, c: bytes, p: bytes)
    requires Opens(cipher, k, cs, ps)
    requires cipher.open(k + |cs|, c) == Some(p)
    ensures Opens(cipher, k, cs + [c], ps + [p])
  {
  }

  lemma OpensSuffix(cipher: Cipher, k: nat, cs: seq<bytes>, ps: seq<bytes>, n: nat)
    requires Opens(cipher, k, cs, ps) && n <= |cs|
    ensures Opens(cipher, k + n, cs[n..], ps[n..])
  {
    forall i | 0 <= i < |cs[n..]| ensures cipher.open(k + n + i, cs[n..][i]) == Some(ps[n..][i]) {
      assert cipher.open(k + (n + i), cs[n + i]) == Some(ps[n + i]);
    }
  }

  /** Whatever frames the wire delivers, unless one of them is forged, only a prefix of the
      sender's frames and plaintexts can come out: a replayed, reordered or skipped frame
      stops the receiver, because its counter is another one. */
  lemma UnforgedPrefix(cipher: Cipher, sealed: seq<bytes>, plain: seq<bytes>, cs: seq<bytes>, ps: seq<bytes>)
    requires Opens(cipher, 0, sealed, plain) && Opens(cipher, 0, cs, ps)
    requires cipher.Unforged(sealed, cs) && cipher.Bound(sealed, |cs|)
    ensures cs <= sealed && ps <= plain
  {
    forall i | 0 <= i < |cs| ensures i < |sealed| && cs[i] == sealed[i] && ps[i] == plain[i] {
      assert cipher.open(0 + i, cs[i]) == Some(ps[i]);
      var j :| 0 <= j < |sealed| && sealed[j] == cs[i];
      assert j == i;
      assert cipher.open(0 + i, sealed[i]) == Some(plain[i]);
    }
    assert cs != [] ==> cs[|cs| - 1] == cs[|cs| - 1] && |cs| - 1 < |sealed|;
  }
}
