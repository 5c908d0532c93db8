/** Intrinsic gas of a transaction. */
module Gas {
  import opened Types

  const TX_GAS: nat := 21000
  const TX_GAS_CONTRACT_CREATION: nat := 53000
  const TX_DATA_NON_ZERO_GAS: nat := 68
  const TX_DATA_ZERO_GAS: nat := 4

  function NonZeroBytes(data: seq<Byte>): nat {
    if data == [] then 0
    else NonZeroBytes(data[..|data| - 1]) + if data[|data| - 1] != 0 then 1 else 0
  }

  /** The exact charge, before any 64-bit limit. */
  function Charge(data: seq<Byte>, creation: bool): int {
    var nz := NonZeroBytes(data);
    (if creation then TX_GAS_CONTRACT_CREATION else TX_GAS)
    + nz * TX_DATA_NON_ZERO_GAS + (|data| - nz) * TX_DATA_ZERO_GAS
  }

  /** The charge, unless it does not fit 64 bits. */
  function IntrinsicGasOf(data: seq<Byte>, creation: bool): Option<nat> {
    NonZeroAtMost(data);
    if Charge(data, creation) <= MAX_UINT64 then Some(Charge(data, creation)) else None
  }

  lemma {:induction false} NonZeroAtMost(data: seq<Byte>)
    ensures NonZeroBytes(data) <= |data|
  {
    if data != [] {
      NonZeroAtMost(data[..|data| - 1]);
    }
  }

  /** The step-by-step computation with its overflow tests yields exactly the charge, or fails exactly beyond 64 bits. */
  method IntrinsicGas(data: seq<Byte>, contractCreation: bool) returns (r: Option<nat>)
    ensures r == IntrinsicGasOf(data, contractCreation)
  {
    var gas: nat := if contractCreation then TX_GAS_CONTRACT_CREATION else TX_GAS;
    NonZeroAtMost(data);
    if |data| > 0 {
      var nz: nat := 0;
      for i := 0 to |data|
        invariant nz == NonZeroBytes(data[..i])
      {
        assert data[..i + 1][..i] == data[..i];
        if data[i] != 0 {
          nz := nz + 1;
        }
      }
      assert data[..|data|] == data;
      if (MAX_UINT64 - gas) / TX_DATA_NON_ZERO_GAS < nz {
        return None;
      }
      gas := gas + nz * TX_DATA_NON_ZERO_GAS;
      var z := |data| - nz;
      if (MAX_UINT64 - gas) / TX_DATA_ZERO_GAS < z {
        return None;
      }
      gas := gas + z * TX_DATA_ZERO_GAS;
    }
    return Some(gas);
  }

  lemma {:induction false} NonZeroCounts(data: seq<Byte>)
    ensures NonZeroBytes(data) == |data| - multiset(data)[0]
    decreases |data|
  {
    if data != [] {
      var init, last := data[..|data| - 1], data[|data| - 1];
      assert data == init + [last];
      NonZeroCounts(init);
    }
  }

  /** The charge in units of gas: 21000, or 53000 for a creation, 68 for each byte, and 64 less for each zero. */
  lemma ChargeIs(data: seq<Byte>, creation: bool)
    ensures Charge(data, creation) == (if creation then 53000 else 21000) + 68 * |data| - 64 * multiset(data)[0]
  {
    NonZeroCounts(data);
  }
}
