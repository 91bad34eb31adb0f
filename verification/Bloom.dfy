/** The older public filter format: a Bloom filter per block, its positions taken from a hash. */
module Bloom {
  import opened Bytes
  import opened BitStream
  import opened Chain

  /** SHA-256 of the block's seed, the counter and the script, as a number: left uninterpreted. */
  type PositionHash = (BlockHash, nat, Script) -> nat

  /** Bit `p`, least significant first within its byte. */
  predicate BitAt(bytes: seq<byte>, p: nat)
    requires p < 8 * |bytes|
  {
    bytes[p / 8] / Pow2(p % 8) % 2 == 1
  }

  /** The byte with bit `k` set. */
  function WithBit(b: byte, k: nat): (r: byte)
    requires k < 8
  {
    Pow2Eight();
    BinaryValue(Binary(b, 8)[7 - k := 1])
  }

  lemma WithBitExact(b: byte, k: nat, j: nat)
    requires k < 8 && j < 8
    ensures WithBit(b, k) / Pow2(j) % 2 == if j == k then 1 else b / Pow2(j) % 2
  {
    hide Binary, BinaryValue, Pow2;
    Pow2Eight();
    var bits := Binary(b, 8)[7 - k := 1];
    BinaryOfValue(bits);
    BinaryIndex(WithBit(b, k), 8, 7 - j);
    BinaryIndex(b, 8, 7 - j);
  }

  lemma SetBitExact(bytes: seq<byte>, p: nat, q: nat)
    requires p < 8 * |bytes| && q < 8 * |bytes|
    ensures BitAt(bytes[p / 8 := WithBit(bytes[p / 8], p % 8)], q) <==> q == p || BitAt(bytes, q)
  {
    hide WithBit, Pow2;
    if q / 8 == p / 8 {
      WithBitExact(bytes[p / 8], p % 8, q % 8);
    }
  }

  function Spot(position: PositionHash, hash: BlockHash, i: nat, script: Script, bytes: nat): (p: nat)
    requires bytes > 0
    ensures p < 8 * bytes
  {
    position(hash, i, script) % (8 * bytes)
  }

  /** Some of the scripts hashes to the bit. */
  ghost predicate Marked(position: PositionHash, hash: BlockHash, scripts: seq<Script>, hashes: nat, bytes: nat, p: nat)
    requires bytes > 0
  {
    exists k, i :: 0 <= k < |scripts| && 0 <= i < hashes && Spot(position, hash, i, scripts[k], bytes) == p
  }

  /** A filter whose set bits are exactly the ones its scripts hash to. */
  ghost predicate Filters(position: PositionHash, hash: BlockHash, scripts: seq<Script>, hashes: nat, bytes: seq<byte>) {
    bytes != [] && forall p :: 0 <= p < 8 * |bytes| ==> (BitAt(bytes, p) <==> Marked(position, hash, scripts, hashes, |bytes|, p))
  }

  /** The bit was marked by an earlier script, or by the first `n` hashes of script `k`. */
  ghost predicate MarkedSoFar(position: PositionHash, hash: BlockHash, scripts: seq<Script>, hashes: nat, bytes: nat, k: nat, n: nat, p: nat)
    requires bytes > 0 && k <= |scripts|
  {
    || Marked(position, hash, scripts[..k], hashes, bytes, p)
    || (k < |scripts| && exists i :: 0 <= i < n && Spot(position, hash, i, scripts[k], bytes) == p)
  }

  lemma MarkedNext(position: PositionHash, hash: BlockHash, scripts: seq<Script>, hashes: nat, bytes: nat, k: nat, p: nat)
    requires bytes > 0 && k < |scripts|
    ensures MarkedSoFar(position, hash, scripts, hashes, bytes, k, hashes, p)
      <==> Marked(position, hash, scripts[..k + 1], hashes, bytes, p)
  {
    hide Spot;
    if Marked(position, hash, scripts[..k + 1], hashes, bytes, p) {
      var j, i :| 0 <= j < k + 1 && 0 <= i < hashes && Spot(position, hash, i, scripts[..k + 1][j], bytes) == p;
      if j < k {
        assert scripts[..k][j] == scripts[..k + 1][j];
      }
    }
    if Marked(position, hash, scripts[..k], hashes, bytes, p) {
      var j, i :| 0 <= j < k && 0 <= i < hashes && Spot(position, hash, i, scripts[..k][j], bytes) == p;
      assert scripts[..k + 1][j] == scripts[..k][j];
    } else if MarkedSoFar(position, hash, scripts, hashes, bytes, k, hashes, p) {
      var i :| 0 <= i < hashes && Spot(position, hash, i, scripts[k], bytes) == p;
      assert scripts[..k + 1][k] == scripts[k];
    }
  }

  /** Sets every bit of one script. */
  method MarkScript(position: PositionHash, hash: BlockHash, script: Script, hashes: nat, bits: array<byte>)
    requires bits.Length > 0
    modifies bits
    ensures forall p :: 0 <= p < 8 * bits.Length ==>
      (BitAt(bits[..], p) <==> old(BitAt(bits[..], p)) || exists i :: 0 <= i < hashes && Spot(position, hash, i, script, bits.Length) == p)
  {
    hide BitAt, Spot, WithBit;
    for n := 0 to hashes
      invariant forall p :: 0 <= p < 8 * bits.Length ==>
        (BitAt(bits[..], p) <==> old(BitAt(bits[..], p)) || exists i :: 0 <= i < n && Spot(position, hash, i, script, bits.Length) == p)
    {
      var spot := Spot(position, hash, n, script, bits.Length);
      ghost var before := bits[..];
      bits[spot / 8] := WithBit(bits[spot / 8], spot % 8);
      assert bits[..] == before[spot / 8 := WithBit(before[spot / 8], spot % 8)];
      forall p | 0 <= p < 8 * bits.Length
        ensures BitAt(bits[..], p) <==> p == spot || BitAt(before, p)
      {
        SetBitExact(before, spot, p);
      }
    }
  }

  /** Sets every bit of every script in a zeroed buffer. */
  method MakeFilter(position: PositionHash, hash: BlockHash, scripts: seq<Script>, hashes: nat, size: nat) returns (bytes: seq<byte>)
    requires size > 0
    ensures |bytes| == size && Filters(position, hash, scripts, hashes, bytes)
  {
    hide Spot, BitAt, Marked;
    var bits := new byte[size](_ => 0);
    NoneMarked(position, hash, scripts, hashes, bits[..]);
    for k := 0 to |scripts|
      invariant forall p :: 0 <= p < 8 * size ==> (BitAt(bits[..], p) <==> Marked(position, hash, scripts[..k], hashes, size, p))
    {
      MarkScript(position, hash, scripts[k], hashes, bits);
      forall p: nat | p < 8 * size
        ensures BitAt(bits[..], p) <==> Marked(position, hash, scripts[..k + 1], hashes, size, p)
      {
        MarkedNext(position, hash, scripts, hashes, size, k, p);
      }
    }
    assert scripts[..|scripts|] == scripts;
    return bits[..];
  }

  lemma NoneMarked(position: PositionHash, hash: BlockHash, scripts: seq<Script>, hashes: nat, bytes: seq<byte>)
    requires bytes != [] && forall i :: 0 <= i < |bytes| ==> bytes[i] == 0
    ensures forall p :: 0 <= p < 8 * |bytes| ==> (BitAt(bytes, p) <==> Marked(position, hash, scripts[..0], hashes, |bytes|, p))
  {
    hide Pow2;
    forall p | 0 <= p < 8 * |bytes|
      ensures !BitAt(bytes, p)
    {
      assert 0 / Pow2(p % 8) == 0;
    }
  }

  /** Every bit of the script is set. */
  predicate Contains(position: PositionHash, hash: BlockHash, hashes: nat, bytes: seq<byte>, script: Script)
    requires bytes != []
  {
    forall i | 0 <= i < hashes :: BitAt(bytes, Spot(position, hash, i, script, |bytes|))
  }

  /** A script matches exactly when each of its bits is one that some script of the block hashes to. */
  lemma ContainsExactly(position: PositionHash, hash: BlockHash, scripts: seq<Script>, hashes: nat, bytes: seq<byte>, script: Script)
    requires Filters(position, hash, scripts, hashes, bytes)
    ensures Contains(position, hash, hashes, bytes, script)
      <==> forall i | 0 <= i < hashes :: Marked(position, hash, scripts, hashes, |bytes|, Spot(position, hash, i, script, |bytes|))
  {
    hide Spot, BitAt, Marked;
  }

  /** A script matches exactly when, for each of its hashes, the bit at the hash modulo the bit count is set, counted from the low end of each byte. */
  lemma ContainsMeans(position: PositionHash, hash: BlockHash, hashes: nat, bytes: seq<byte>, script: Script)
    requires bytes != []
    ensures Contains(position, hash, hashes, bytes, script)
      <==> (forall i: nat | i < hashes ::
              var p := position(hash, i, script) % (8 * |bytes|);
              bytes[p / 8] / Pow2(p % 8) % 2 == 1)
  {
    hide Pow2;
    forall i: nat | i < hashes
      ensures Spot(position, hash, i, script, |bytes|) == position(hash, i, script) % (8 * |bytes|)
    {
    }
  }

  /** So every script of the block matches. */
  lemma BloomFindsAll(position: PositionHash, hash: BlockHash, scripts: seq<Script>, hashes: nat, bytes: seq<byte>, script: Script)
    requires Filters(position, hash, scripts, hashes, bytes) && script in scripts
    ensures Contains(position, hash, hashes, bytes, script)
  {
    hide Spot, BitAt;
    var k :| 0 <= k < |scripts| && scripts[k] == script;
    ContainsExactly(position, hash, scripts, hashes, bytes, script);
    assert forall i | 0 <= i < hashes :: Spot(position, hash, i, scripts[k], |bytes|) == Spot(position, hash, i, script, |bytes|);
  }
}
