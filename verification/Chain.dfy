/** Block identities and transparent scripts. */
module Chain {
  import opened Bytes

  const HASH_BYTES: nat := 32

  /** A block hash in internal byte order. */
  type BlockHash = s: seq<byte> | |s| == HASH_BYTES witness Zeros(HASH_BYTES)

  type Script = seq<byte>

  const OP_RETURN: byte := 0x6a

  /** A script is a filter element unless it is empty or starts with OP_RETURN. */
  predicate IsFilterElement(script: Script) {
    script != [] && script[0] != OP_RETURN
  }

  /** SipHash-2-4 keyed by a block hash: left uninterpreted. */
  type KeyedHash = (BlockHash, Script) -> u64
}
