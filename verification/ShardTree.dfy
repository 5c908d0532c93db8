/** The tree of shards: level by level each shard splits in two, and addresses follow. */
module ShardTrees {
  import opened Types

  const ADDRESS_LENGTH: nat := 20

  /** Shard numbers up to this many bits fit the signed 16-bit results of the lookups. */
  const MAX_BITS: nat := 15

  function Pow2(n: nat): (r: nat)
    ensures r >= 1
  {
    if n == 0 then 1 else 2 * Pow2(n - 1)
  }

  /** The `k`-th lowest bit. */
  function Bit(n: nat, k: nat): nat {
    if k == 0 then n % 2 else Bit(n / 2, k - 1)
  }

  /** The lowest `bits` bits in reverse order. */
  function Reversal(bits: nat, n: nat): nat {
    if bits == 0 then 0 else (if n % 2 == 0 then 0 else Pow2(bits - 1)) + Reversal(bits - 1, n / 2)
  }

  lemma {:induction false} ReversalSmall(bits: nat, n: nat)
    ensures Reversal(bits, n) < Pow2(bits)
    decreases bits
  {
    if bits > 0 {
      ReversalSmall(bits - 1, n / 2);
    }
  }

  /** What is left of `n` below `2 * t` without the bit worth `t`. */
  function WithoutHigh(n: nat, t: nat): nat {
    if n < t then n else n - t
  }

  function High(n: nat, t: nat): nat {
    if n < t then 0 else 1
  }

  /** The reversal seen from the other end: the highest bit becomes the lowest. */
  lemma {:induction false} ReversalHigh(bits: nat, n: nat)
    requires bits > 0 && n < Pow2(bits)
    ensures WithoutHigh(n, Pow2(bits - 1)) < Pow2(bits - 1)
    ensures Reversal(bits, n) == 2 * Reversal(bits - 1, WithoutHigh(n, Pow2(bits - 1))) + High(n, Pow2(bits - 1))
    decreases bits
  {
    if bits > 1 {
      var u := Pow2(bits - 2);
      ReversalHigh(bits - 1, n / 2);
      assert WithoutHigh(n, 2 * u) / 2 == WithoutHigh(n / 2, u) && WithoutHigh(n, 2 * u) % 2 == n % 2;
    }
  }

  /** Below twice a modulus the remainder is what is left without the high bit. */
  lemma RemainderBelow(n: nat, t: nat)
    requires t > 0 && n < 2 * t
    ensures n % t == WithoutHigh(n, t)
  {
  }

  /** Reversing twice changes nothing, so every level is a permutation. */
  lemma {:induction false} ReversalTwice(bits: nat, n: nat)
    requires n < Pow2(bits)
    ensures Reversal(bits, Reversal(bits, n)) == n
    decreases bits
  {
    if bits > 0 {
      ReversalHigh(bits, n);
      ReversalTwice(bits - 1, WithoutHigh(n, Pow2(bits - 1)));
    }
  }

  /** Bit for bit, the reversal has what is mirrored. */
  lemma {:induction false} ReversalMirrors(bits: nat, n: nat, k: nat)
    requires k < bits && n < Pow2(bits)
    ensures Bit(Reversal(bits, n), k) == Bit(n, bits - 1 - k)
    decreases bits
  {
    ReversalHigh(bits, n);
    if k == 0 {
      HighBit(bits, n);
    } else {
      ReversalMirrors(bits - 1, WithoutHigh(n, Pow2(bits - 1)), k - 1);
      LowBits(bits, n, bits - 1 - k);
    }
  }

  lemma {:induction false} HighBit(bits: nat, n: nat)
    requires bits > 0 && n < Pow2(bits)
    ensures Bit(n, bits - 1) == High(n, Pow2(bits - 1))
    decreases bits
  {
    if bits > 1 {
      HighBit(bits - 1, n / 2);
    }
  }

  lemma {:induction false} LowBits(bits: nat, n: nat, k: nat)
    requires bits > 0 && n < Pow2(bits) && k < bits - 1
    ensures Bit(WithoutHigh(n, Pow2(bits - 1)), k) == Bit(n, k)
    decreases bits
  {
    if k > 0 {
      var u := Pow2(bits - 2);
      assert WithoutHigh(n, 2 * u) / 2 == WithoutHigh(n / 2, u);
      LowBits(bits - 1, n / 2, k - 1);
    }
  }

  lemma {:induction false} Pow2Grows(i: nat, j: nat)
    ensures i < j <==> Pow2(i) < Pow2(j)
    ensures i == j <==> Pow2(i) == Pow2(j)
  {
    if i < j {
      Pow2Less(i, j);
    } else if j < i {
      Pow2Less(j, i);
    }
  }

  lemma {:induction false} Pow2Less(i: nat, j: nat)
    requires i < j
    ensures Pow2(i) < Pow2(j)
    decreases j
  {
    if i < j - 1 {
      Pow2Less(i, j - 1);
    }
  }

  /** Shard numbers of up to 15 bits fit a signed 16-bit integer. */
  lemma FitsInt16(i: nat)
    requires i <= MAX_BITS
    ensures Pow2(i) <= 0x8000
  {
    assert Pow2(5) == 32;
    assert Pow2(10) == 32 * Pow2(5);
    assert Pow2(15) == 32 * Pow2(10);
    Pow2Grows(i, MAX_BITS);
  }

  /** The parent of a shard among twice as many. */
  function ParentOf(s: nat, total: nat): nat
    requires total > 1
  {
    s % (total / 2)
  }

  function BrotherOf(s: nat, total: nat): int {
    if s < total / 2 then s + total / 2 else s - total / 2
  }

  /** The brother is another shard with the same parent, whose brother is this shard. */
  lemma BrotherIsInvolution(s: nat, total: nat)
    requires total > 1 && total % 2 == 0 && s < total
    ensures 0 <= BrotherOf(s, total) < total && BrotherOf(s, total) != s
    ensures ParentOf(BrotherOf(s, total), total) == ParentOf(s, total)
    ensures BrotherOf(BrotherOf(s, total), total) == s
  {
    RemainderBelow(s, total / 2);
    RemainderBelow(BrotherOf(s, total), total / 2);
  }

  /** The shard of a real shard number among so many. */
  function Sharding2(realShard: nat, total: nat): nat
    requires total > 0
  {
    realShard % total
  }

  /** An address's shard among `total` is the parent of its shard among twice as many. */
  lemma ShardRefines(realShard: nat, total: nat)
    requires total > 0
    ensures Sharding2(realShard, total) == ParentOf(Sharding2(realShard, 2 * total), 2 * total)
  {
    hide *;
    var double := 2 * total;
    var s := Sharding2(realShard, double);
    var q := ShardQuotient(realShard, double);
    RemainderBelow(s, total);
    RemainderTwice(realShard, total, double, q, s);
    ParentIsRemainder(realShard, s, total);
  }

  lemma ShardQuotient(realShard: nat, total: nat) returns (q: nat)
    requires total > 0
    ensures realShard == total * q + Sharding2(realShard, total) && Sharding2(realShard, total) < total
  {
    q := realShard / total;
  }

  lemma ParentIsRemainder(realShard: nat, s: nat, total: nat)
    requires total > 0
    ensures ParentOf(s, 2 * total) == s % total && Sharding2(realShard, total) == realShard % total
  {
  }

  lemma RemainderTwice(x: nat, t: nat, double: nat, q: nat, r: nat)
    requires t > 0 && double == 2 * t && r < double && x == double * q + r
    ensures x % t == WithoutHigh(r, t)
  {
    Regroup(t, q);
    Distribute(t, 2 * q, High(r, t));
    ModUnique(x, t, 2 * q + High(r, t), WithoutHigh(r, t));
  }

  lemma Regroup(t: nat, q: nat)
    ensures (2 * t) * q == t * (2 * q)
  {
  }

  lemma Distribute(t: int, a: int, b: int)
    ensures t * (a + b) == t * a + t * b
  {
  }

  lemma SmallMultiple(t: int, d: int)
    requires t > 0 && -t < t * d < t
    ensures d == 0
  {
  }

  lemma ModUnique(x: nat, t: nat, q: nat, r: nat)
    requires t > 0 && r < t && x == t * q + r
    ensures x % t == r
  {
    var q', r' := x / t, x % t;
    assert x == t * q' + r';
    var d: int := q' - q;
    Distribute(t, q, d);
    SmallMultiple(t, d);
  }

  /** The real shard of an address: the parities of its last bytes, last byte first. */
  method RealSharding(address: seq<Byte>, bits: nat) returns (id: nat)
    requires |address| == ADDRESS_LENGTH && bits <= MAX_BITS
    ensures id < Pow2(bits)
    ensures forall k | 0 <= k < bits :: Bit(id, k) == address[ADDRESS_LENGTH - 1 - k] % 2
  {
    id := 0;
    for i := 0 to bits
      invariant id < Pow2(i)
      invariant forall k | 0 <= k < i :: Bit(id, k) == address[ADDRESS_LENGTH - 1 - k] % 2
    {
      var c := address[ADDRESS_LENGTH - 1 - i];
      SetHighBit(id, i);
      if c % 2 == 0 {
        continue;
      }
      id := id + Pow2(i);
    }
  }

  lemma {:induction false} SetHighBit(n: nat, i: nat)
    requires n < Pow2(i)
    ensures Bit(n, i) == 0 && Bit(n + Pow2(i), i) == 1
    ensures forall k | 0 <= k < i :: Bit(n + Pow2(i), k) == Bit(n, k)
    decreases i
  {
    if i > 0 {
      var t := Pow2(i - 1);
      SetHighBit(n / 2, i - 1);
      assert (n + 2 * t) / 2 == n / 2 + t;
      forall k | 0 <= k < i
        ensures Bit(n + Pow2(i), k) == Bit(n, k)
      {
        if k > 0 {
          assert Bit(n / 2 + t, k - 1) == Bit(n / 2, k - 1);
        }
      }
    }
  }

  /** Half the position of a shard is the position of its parent. */
  lemma HalfReversal(i: nat, s: nat)
    requires 0 < i && s < Pow2(i)
    ensures Reversal(i, s) / 2 < Pow2(i - 1)
    ensures Reversal(i - 1, Reversal(i, s) / 2) == ParentOf(s, Pow2(i))
  {
    var t := Pow2(i - 1);
    var low := WithoutHigh(s, t);
    ReversalHigh(i, s);
    ReversalSmall(i - 1, low);
    ReversalTwice(i - 1, low);
    RemainderBelow(s, t);
    assert Reversal(i, s) / 2 == Reversal(i - 1, low);
  }

  /** The shards among 2^i in bit-reversed order. */
  ghost predicate IsLevel(level: seq<nat>, i: nat) {
    |level| == Pow2(i) && forall j | 0 <= j < Pow2(i) :: level[j] == Reversal(i, j)
  }

  /** Each entry of the level above appears twice, once with the new bit set. */
  method FillLevel(i: nat, above: seq<nat>) returns (level: seq<nat>)
    requires i > 0 ==> IsLevel(above, i - 1)
    ensures IsLevel(level, i)
  {
    var count := Pow2(i);
    var entries := new nat[count];
    if i == 0 {
      entries[0] := 0;
    } else {
      for j := 0 to count
        invariant forall k | 0 <= k < j :: entries[k] == Reversal(i, k)
      {
        if j % 2 == 0 {
          entries[j] := above[j / 2];
        } else {
          entries[j] := above[j / 2] + count / 2;
        }
      }
    }
    level := entries[..];
  }

  class ShardTree {
    const bits: nat
    var shardingIndex: seq<seq<nat>>

    /** Level `i` lists the shards among 2^i in bit-reversed order. */
    ghost predicate Valid()
      reads this
    {
      && bits <= MAX_BITS && |shardingIndex| == bits + 1
      && forall i | 0 <= i <= bits :: IsLevel(shardingIndex[i], i)
    }

    /** Fills the table level by level. */
    constructor (bits: nat)
      requires bits <= MAX_BITS
      ensures Valid() && this.bits == bits
    {
      this.bits := bits;
      shardingIndex := [];
      new;
      for i := 0 to bits + 1
        invariant this.bits == bits && |shardingIndex| == i
        invariant forall k | 0 <= k < i :: IsLevel(shardingIndex[k], k)
      {
        var level := FillLevel(i, if i == 0 then [] else shardingIndex[i - 1]);
        shardingIndex := shardingIndex + [level];
      }
    }

    /** Which level has so many shards, if any. */
    ghost function LevelOf(total: nat): Option<nat>
      reads this
      requires Valid()
    {
      if exists i :: 0 <= i <= bits && Pow2(i) == total then
        var i: nat :| i <= bits && Pow2(i) == total;
        Some(i)
      else None
    }

    lemma LevelUnique(i: nat, total: nat)
      requires Valid() && i <= bits && Pow2(i) == total
      ensures LevelOf(total) == Some(i)
    {
      var k := LevelOf(total).value;
      Pow2Grows(i, k);
    }

    /** The position of a shard on its level is its reversal. */
    lemma PositionOf(i: nat, s: nat, j: nat)
      requires Valid() && i <= bits && j < Pow2(i)
      ensures shardingIndex[i][j] == s <==> s < Pow2(i) && j == Reversal(i, s)
    {
      ReversalTwice(i, j);
      ReversalSmall(i, j);
      if s < Pow2(i) {
        ReversalTwice(i, s);
      }
    }

    lemma ParentEntry(i: nat, s: nat)
      requires Valid() && 0 < i <= bits && s < Pow2(i)
      ensures Reversal(i, s) / 2 < Pow2(i - 1)
      ensures shardingIndex[i - 1][Reversal(i, s) / 2] == ParentOf(s, Pow2(i))
    {
      HalfReversal(i, s);
      assert IsLevel(shardingIndex[i - 1], i - 1);
    }

    lemma ChildEntries(i: nat, s: nat)
      requires Valid() && i < bits && s < Pow2(i)
      ensures 2 * Reversal(i, s) + 1 < Pow2(i + 1) && s + Pow2(i) < Pow2(i + 1)
      ensures shardingIndex[i + 1][2 * Reversal(i, s)] == s && shardingIndex[i + 1][2 * Reversal(i, s) + 1] == s + Pow2(i)
    {
      ReversalSmall(i, s);
      ReversalTwice(i, s);
      var j := Reversal(i, s);
      assert (2 * j) / 2 == j && (2 * j) % 2 == 0 && (2 * j + 1) / 2 == j && (2 * j + 1) % 2 == 1;
    }

    /** The parent of a shard, or -1 if there is no such shard or it is the root. */
    method GetParentSharding(currentShard: nat, totalShard: nat) returns (r: int)
      requires Valid()
      ensures r == if LevelOf(totalShard).Some? && totalShard > 1 && currentShard < totalShard
                   then ParentOf(currentShard, totalShard) else -1
      ensures r < 0x8000
    {
      hide Reversal;
      for i := 0 to bits + 1
        invariant forall k | 0 <= k < i :: Pow2(k) != totalShard || currentShard >= totalShard
      {
        if |shardingIndex[i]| != totalShard {
          continue;
        }
        LevelUnique(i, totalShard);
        Pow2Grows(0, i);
        if i == 0 {
          return -1;
        }
        for j := 0 to totalShard
          invariant forall k | 0 <= k < j :: shardingIndex[i][k] != currentShard
        {
          PositionOf(i, currentShard, j);
          if shardingIndex[i][j] != currentShard {
            continue;
          }
          ParentEntry(i, currentShard);
          FitsInt16(i);
          return shardingIndex[i - 1][j / 2];
        }
        if currentShard < totalShard {
          ReversalSmall(i, currentShard);
          PositionOf(i, currentShard, Reversal(i, currentShard));
        }
      }
      return -1;
    }

    /** The two children of a shard, or -1 twice if there is no such shard or it is a leaf. */
    method GetChildSharding(currentShard: nat, totalShard: nat) returns (left: int, right: int)
      requires Valid()
      ensures LevelOf(totalShard).Some? && LevelOf(totalShard).value < bits && currentShard < totalShard ==>
        left == currentShard && right == currentShard + totalShard
      ensures !(LevelOf(totalShard).Some? && LevelOf(totalShard).value < bits && currentShard < totalShard) ==>
        left == right == -1
      ensures left < 0x8000 && right < 0x8000
    {
      for i := 0 to bits + 1
        invariant forall k | 0 <= k < i :: Pow2(k) != totalShard || currentShard >= totalShard
      {
        if |shardingIndex[i]| != totalShard {
          continue;
        }
        LevelUnique(i, totalShard);
        if i == bits {
          return -1, -1;
        }
        for j := 0 to totalShard
          invariant forall k | 0 <= k < j :: shardingIndex[i][k] != currentShard
        {
          PositionOf(i, currentShard, j);
          if shardingIndex[i][j] != currentShard {
            continue;
          }
          ChildEntries(i, currentShard);
          FitsInt16(i + 1);
          return shardingIndex[i + 1][j * 2], shardingIndex[i + 1][j * 2 + 1];
        }
        if currentShard < totalShard {
          ReversalSmall(i, currentShard);
          PositionOf(i, currentShard, Reversal(i, currentShard));
        }
      }
      return -1, -1;
    }

    /** The other child of a shard's parent, or -1 if it has no parent. */
    method GetBrotherSharding(currentShard: nat, totalShard: nat) returns (r: int)
      requires Valid()
      ensures r == if LevelOf(totalShard).Some? && totalShard > 1 && currentShard < totalShard
                   then BrotherOf(currentShard, totalShard) else -1
    {
      var s := GetParentSharding(currentShard, totalShard);
      if s == -1 {
        return s;
      }
      var i := LevelOf(totalShard).value;
      Pow2Grows(i, 0);
      LevelUnique(i - 1, totalShard / 2);
      RemainderBelow(currentShard, totalShard / 2);
      var left, right := GetChildSharding(s, totalShard / 2);
      if left == -1 || right == -1 {
        return -1;
      }
      if currentShard == left {
        return right;
      } else if currentShard == right {
        return left;
      } else {
        return -1;
      }
    }
  }
}
