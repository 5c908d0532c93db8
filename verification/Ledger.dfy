/** Account balances and their total. */
module Ledger {
  import opened Types

  type Balances = map<Address, int>

  function Get(m: Balances, a: Address): int {
    if a in m then m[a] else 0
  }

  function Plus(m: Balances, a: Address, x: int): Balances {
    m[a := Get(m, a) + x]
  }

  ghost function Sum(m: Balances): int {
    if m == map[] then 0 else
      var a :| a in m;
      m[a] + Sum(m - {a})
  }

  lemma {:induction false} SumWithout(m: Balances, a: Address)
    requires a in m
    ensures Sum(m) == m[a] + Sum(m - {a})
    decreases m.Keys
  {
    var b :| b in m && Sum(m) == m[b] + Sum(m - {b});
    if a != b {
      assert (m - {b}).Keys == m.Keys - {b};
      assert (m - {a}).Keys == m.Keys - {a};
      SumWithout(m - {b}, a);
      SumWithout(m - {a}, b);
      assert m - {a} - {b} == m - {b} - {a};
    }
  }

  /** Crediting (or debiting) an account changes the total by as much. */
  lemma SumPlus(m: Balances, a: Address, x: int)
    ensures Sum(Plus(m, a, x)) == Sum(m) + x
  {
    SumWithout(Plus(m, a, x), a);
    assert Plus(m, a, x) - {a} == m - {a};
    if a in m {
      SumWithout(m, a);
    } else {
      assert m - {a} == m;
    }
  }

  /** Nobody owes anything. */
  ghost predicate Solvent(m: Balances) {
    forall a | a in m :: m[a] >= 0
  }

  /** Sufficient funds are demanded of senders in the node's own shard only. */
  predicate CanTransfer(m: Balances, home: Address -> bool, sender: Address, amount: int) {
    home(sender) ==> Get(m, sender) >= amount
  }

  /** Senders and recipients are debited and credited only if they are in the node's own shard. */
  function Transferred(m: Balances, home: Address -> bool, sender: Address, recipient: Address, amount: int): Balances {
    var debited := if home(sender) then Plus(m, sender, -amount) else m;
    if home(recipient) then Plus(debited, recipient, amount) else debited
  }

  /** What a transfer adds to the total of the node's own shard. */
  function Inflow(home: Address -> bool, sender: Address, recipient: Address, amount: int): int {
    (if home(recipient) then amount else 0) - if home(sender) then amount else 0
  }

  lemma TransferInflow(m: Balances, home: Address -> bool, sender: Address, recipient: Address, amount: int)
    ensures Sum(Transferred(m, home, sender, recipient, amount)) == Sum(m) + Inflow(home, sender, recipient, amount)
    ensures Solvent(m) && amount >= 0 && CanTransfer(m, home, sender, amount) ==>
      Solvent(Transferred(m, home, sender, recipient, amount))
  {
    var debited := if home(sender) then Plus(m, sender, -amount) else m;
    SumPlus(m, sender, -amount);
    SumPlus(debited, recipient, amount);
  }

  /** What one account's balance changes by: the sender's falls and the recipient's rises, if they are in this shard. */
  lemma TransferMoves(m: Balances, home: Address -> bool, sender: Address, recipient: Address, amount: int, a: Address)
    ensures Get(Transferred(m, home, sender, recipient, amount), a) ==
      Get(m, a) - (if a == sender && home(a) then amount else 0) + (if a == recipient && home(a) then amount else 0)
    ensures sender == recipient ==> Get(Transferred(m, home, sender, recipient, amount), a) == Get(m, a)
    ensures a != sender && a != recipient ==> Get(Transferred(m, home, sender, recipient, amount), a) == Get(m, a)
  {
  }
}
