/** Entities shared by the transaction pool, the state transition and the chains. */
module Types {

  datatype Option<+T> = None | Some(value: T)

  datatype Address = Address(id: nat)

  type Byte = b: int | 0 <= b < 256

  const MAX_UINT64: nat := 0xFFFF_FFFF_FFFF_FFFF

  type Uint64 = n: int | 0 <= n <= MAX_UINT64

  /** An account nonce; the last 64-bit value is never used, so that incrementing cannot wrap. */
  type Nonce = n: int | 0 <= n < MAX_UINT64

  const TYPE_ACT_CLAIM: nat := 1
  const TYPE_ACT_VERIFY: nat := 2

  const FREE_HEIGHT: nat := 1000

  /** A signed transaction. `from` is what sender recovery yields; `sigOk` says whether recovery succeeds. */
  datatype Tx = Tx(
    from: Address, sigOk: bool, nonce: Nonce, gasPrice: nat, gas: Uint64,
    to: Option<Address>, value: int, data: seq<Byte>, actType: nat, size: nat)
  {
    function Cost(): int {
      gasPrice * gas + value
    }

    /** Claims and verifications are free up to lamp height FREE_HEIGHT. */
    predicate IsFreeAct(lampHeight: nat) {
      lampHeight <= FREE_HEIGHT && IsClaimOrVerify()
    }

    predicate IsClaimOrVerify() {
      actType == TYPE_ACT_CLAIM || actType == TYPE_ACT_VERIFY
    }

    function Hash(): Hash {
      HashOf(this)
    }
  }

  /** A collision-free hash: the constructor applied to what is hashed. */
  datatype Hash = HashOf(tx: Tx)
}
