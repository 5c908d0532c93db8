/** Object data striped over fixed-size slices: writing and reading across slice borders. */
module Slices {
  import opened Types
  import opened Seqs

  const SLICE_SIZE: nat := 1024 * 1024
  const TWO32: nat := 0x1_0000_0000
  const TWO64: nat := 0x1_0000_0000_0000_0000

  datatype WriteResult = Written(count: nat) | BadWrite | NoSpace | WriteCrashed
  datatype ReadResult = Data(bytes: seq<Byte>) | BadRead | OutOfRange | LackOfData | NoCapacity | ReadCrashed

  type Store = map<nat, seq<Byte>>

  /** Distinct slices, all stored and full-sized. */
  ghost predicate WellStored(slices: Store, infos: seq<nat>) {
    && Distinct(infos) && |infos| < TWO32
    && forall id | id in infos :: id in slices && |slices[id]| == SLICE_SIZE
  }

  /** The object as one flat array of bytes. */
  ghost function Flat(slices: Store, infos: seq<nat>): (f: seq<Byte>)
    requires forall id | id in infos :: id in slices && |slices[id]| == SLICE_SIZE
    ensures |f| == |infos| * SLICE_SIZE
  {
    if infos == [] then []
    else
      assert forall id | id in infos[..|infos| - 1] :: id in infos;
      Flat(slices, infos[..|infos| - 1]) + slices[infos[|infos| - 1]]
  }

  /** `d` put over `f` at `at`. */
  function Spliced(f: seq<Byte>, at: nat, d: seq<Byte>): (r: seq<Byte>)
    requires at + |d| <= |f|
    ensures |r| == |f|
  {
    f[..at] + d + f[at + |d|..]
  }

  lemma SpliceMore(f: seq<Byte>, at: nat, d: seq<Byte>, e: seq<Byte>)
    requires at + |d| + |e| <= |f|
    ensures Spliced(Spliced(f, at, d), at + |d|, e) == Spliced(f, at, d + e)
  {
  }

  /** A splice shows exactly there and nowhere else. */
  lemma SpliceShows(f: seq<Byte>, at: nat, d: seq<Byte>, i: nat)
    requires at + |d| <= |f| && i < |f|
    ensures Spliced(f, at, d)[i] == if at <= i < at + |d| then d[i - at] else f[i]
    ensures Spliced(f, at, d)[at..at + |d|] == d
  {
  }

  lemma {:induction false} FlatWithout(slices: Store, infos: seq<nat>, id: nat, bytes: seq<Byte>)
    requires forall x | x in infos :: x in slices && |slices[x]| == SLICE_SIZE
    requires id !in infos
    ensures Flat(slices[id := bytes], infos) == Flat(slices, infos)
    decreases |infos|
  {
    if infos != [] {
      FlatWithout(slices, infos[..|infos| - 1], id, bytes);
    }
  }

  /** Writing into one slice splices the flat array at the slice's place. */
  lemma {:induction false} PieceWritten(slices: Store, infos: seq<nat>, i: nat, o: nat, d: seq<Byte>)
    requires WellStored(slices, infos) && i < |infos| && o + |d| <= SLICE_SIZE
    ensures infos[i] in infos && infos[i] in slices && |slices[infos[i]]| == SLICE_SIZE
    ensures var now := slices[infos[i] := Spliced(slices[infos[i]], o, d)];
      WellStored(now, infos) && i * SLICE_SIZE + o + |d| <= |infos| * SLICE_SIZE
      && Flat(now, infos) == Spliced(Flat(slices, infos), i * SLICE_SIZE + o, d)
    decreases |infos|
  {
    hide Spliced, Flat, WellStored;
    var n := |infos| - 1;
    var init := infos[..n];
    FlatSplits(slices, infos);
    var f := Flat(slices, init);
    var now := slices[infos[i] := Spliced(slices[infos[i]], o, d)];
    StillStored(slices, infos, infos[i], Spliced(slices[infos[i]], o, d));
    FlatSplits(now, infos);
    if i == n {
      FlatWithout(slices, init, infos[n], Spliced(slices[infos[n]], o, d));
      SpliceRight(f, slices[infos[n]], o, d);
    } else {
      assert init[i] == infos[i] && infos[i] != infos[n];
      PieceWritten(slices, init, i, o, d);
      SpliceLeft(f, slices[infos[n]], i * SLICE_SIZE + o, d);
    }
  }

  lemma StillStored(slices: Store, infos: seq<nat>, id: nat, bytes: seq<Byte>)
    requires WellStored(slices, infos) && |bytes| == SLICE_SIZE
    ensures WellStored(slices[id := bytes], infos)
  {
  }

  lemma FlatSplits(slices: Store, infos: seq<nat>)
    requires WellStored(slices, infos) && infos != []
    ensures var n := |infos| - 1;
      && WellStored(slices, infos[..n]) && (forall i | 0 <= i <= n :: infos[i] in slices && |slices[infos[i]]| == SLICE_SIZE)
      && infos[n] !in infos[..n] && (forall i | 0 <= i < n :: infos[i] != infos[n])
      && (forall id | id in infos[..n] :: id in slices && |slices[id]| == SLICE_SIZE)
      && (forall id | id in infos :: id in slices && |slices[id]| == SLICE_SIZE)
      && Flat(slices, infos) == Flat(slices, infos[..n]) + slices[infos[n]]
  {
  }

  lemma SpliceRight(f: seq<Byte>, g: seq<Byte>, o: nat, d: seq<Byte>)
    requires o + |d| <= |g|
    ensures Spliced(f + g, |f| + o, d) == f + Spliced(g, o, d)
  {
  }

  lemma SpliceLeft(f: seq<Byte>, g: seq<Byte>, at: nat, d: seq<Byte>)
    requires at + |d| <= |f|
    ensures Spliced(f + g, at, d) == Spliced(f, at, d) + g
  {
  }

  lemma {:induction false} PieceRead(slices: Store, infos: seq<nat>, i: nat, o: nat, len: nat)
    requires WellStored(slices, infos) && i < |infos| && o + len <= SLICE_SIZE
    ensures infos[i] in infos && i * SLICE_SIZE + o + len <= |infos| * SLICE_SIZE
    ensures slices[infos[i]][o..o + len] == Flat(slices, infos)[i * SLICE_SIZE + o..i * SLICE_SIZE + o + len]
    decreases |infos|
  {
    var n := |infos| - 1;
    var init := infos[..n];
    assert infos[i] in infos && infos[n] in infos;
    var f := Flat(slices, init);
    if i < n {
      assert Distinct(init);
      PieceRead(slices, init, i, o, len);
      assert init[i] == infos[i];
    }
  }

  /** The flat array once the first `total` bytes of `data` have been written from `base` on. */
  ghost predicate WrittenUpTo(slices: Store, infos: seq<nat>, was: seq<Byte>, base: nat, data: seq<Byte>, total: nat) {
    && WellStored(slices, infos) && |was| == |infos| * SLICE_SIZE
    && total <= |data| && base + total <= |was|
    && Flat(slices, infos) == Spliced(was, base, data[..total])
  }

  /** Writing the next piece into its slice. */
  lemma NextPiece(slices: Store, infos: seq<nat>, was: seq<Byte>, base: nat, data: seq<Byte>, total: nat, len: nat,
                  i: nat, o: nat)
    requires WrittenUpTo(slices, infos, was, base, data, total) && total + len <= |data|
    requires i < |infos| && o + len <= SLICE_SIZE && i * SLICE_SIZE + o == base + total
    ensures infos[i] in slices && |slices[infos[i]]| == SLICE_SIZE
    ensures WrittenUpTo(slices[infos[i] := Spliced(slices[infos[i]], o, data[total..total + len])], infos, was, base,
        data, total + len)
  {
    hide Flat, Spliced;
    PieceWritten(slices, infos, i, o, data[total..total + len]);
    SpliceMore(was, base, data[..total], data[total..total + len]);
    assert data[..total] + data[total..total + len] == data[..total + len];
  }

  lemma NothingWritten(slices: Store, infos: seq<nat>, base: nat, data: seq<Byte>)
    requires WellStored(slices, infos) && base <= |infos| * SLICE_SIZE
    ensures WrittenUpTo(slices, infos, Flat(slices, infos), base, data, 0)
  {
  }

  /** The part of the interval of `len` bytes from `start` on that lies in slice `i`. */
  function PartFrom(start: nat, i: nat): nat {
    if start < i * SLICE_SIZE then i * SLICE_SIZE else start
  }

  function PartTo(start: nat, len: nat, i: nat): nat {
    if start + len < (i + 1) * SLICE_SIZE then start + len else (i + 1) * SLICE_SIZE
  }

  /** What slice `i` contributes to an interval of the flat array. */
  ghost predicate IsPart(bytes: seq<Byte>, flat: seq<Byte>, start: nat, len: nat, i: nat) {
    && PartFrom(start, i) <= PartTo(start, len, i) <= |flat|
    && bytes == flat[PartFrom(start, i)..PartTo(start, len, i)]
  }

  lemma NextPart(slices: Store, infos: seq<nat>, start: nat, len: nat, i: nat, o: nat, n: nat)
    requires WellStored(slices, infos) && i < |infos| && o + n <= SLICE_SIZE
    requires i * SLICE_SIZE + o == PartFrom(start, i) && i * SLICE_SIZE + o + n == PartTo(start, len, i)
    ensures infos[i] in slices && |slices[infos[i]]| == SLICE_SIZE && |Flat(slices, infos)| == |infos| * SLICE_SIZE
    ensures IsPart(slices[infos[i]][o..o + n], Flat(slices, infos), start, len, i)
  {
    hide Flat;
    PieceRead(slices, infos, i, o, n);
  }

  /** All parts that lie in slices from `begin` up to, but without, `end`. */
  ghost predicate PartsFetched(buffers: map<nat, seq<Byte>>, infos: seq<nat>, flat: seq<Byte>, start: nat, len: nat,
                               begin: nat, end: nat) {
    end <= |infos| && forall i | begin <= i < end :: infos[i] in buffers && IsPart(buffers[infos[i]], flat, start, len, i)
  }

  /** Cutting an offset's slice index to 32 bits takes whole multiples of 2^52 away. */
  lemma CutWhole(offset: nat)
    ensures ((offset / SLICE_SIZE) % TWO32) * SLICE_SIZE + offset % SLICE_SIZE == offset % (SLICE_SIZE * TWO32)
    ensures offset == (offset / (SLICE_SIZE * TWO32)) * (SLICE_SIZE * TWO32) + offset % (SLICE_SIZE * TWO32)
  {
  }

  lemma BelowTwo64(offset: Uint64, len: nat)
    ensures offset + len >= TWO64 ==> offset % (SLICE_SIZE * TWO32) + len >= SLICE_SIZE * TWO32
  {
  }

  /** The index of the slice that holds the byte before `sum`, on 32 bits. */
  function LastIndex(sum: nat): nat {
    var end := (sum / SLICE_SIZE) % TWO32;
    if end * SLICE_SIZE != sum then end else if end == 0 then TWO32 - 1 else end - 1
  }

  lemma SmallQuotient(x: nat)
    requires x < SLICE_SIZE * TWO32
    ensures x / SLICE_SIZE < TWO32 && x == (x / SLICE_SIZE) * SLICE_SIZE + x % SLICE_SIZE && x % SLICE_SIZE < SLICE_SIZE
  {
  }

  lemma QuotientOfSum(k: nat, x: nat)
    ensures (k * (SLICE_SIZE * TWO32) + x) / SLICE_SIZE == k * TWO32 + x / SLICE_SIZE
  {
  }

  lemma RemainderOfSum(k: nat, q: nat)
    requires q < TWO32
    ensures (k * TWO32 + q) % TWO32 == q
  {
  }

  lemma LastIndexIs(k: nat, x: nat)
    requires 0 < x < SLICE_SIZE * TWO32
    ensures LastIndex(k * (SLICE_SIZE * TWO32) + x) == x / SLICE_SIZE - if x % SLICE_SIZE == 0 && k == 0 then 1 else 0
  {
    SmallQuotient(x);
    QuotientOfSum(k, x);
    RemainderOfSum(k, x / SLICE_SIZE);
  }

  /** Keyed by distinct slices, a fetched part is not overwritten by another. */
  lemma MorePartsFetched(buffers: map<nat, seq<Byte>>, infos: seq<nat>, flat: seq<Byte>, start: nat, len: nat,
                         begin: nat, i: nat, bytes: seq<Byte>)
    requires PartsFetched(buffers, infos, flat, start, len, begin, i) && begin <= i < |infos| && Distinct(infos)
    requires IsPart(bytes, flat, start, len, i)
    ensures PartsFetched(buffers[infos[i] := bytes], infos, flat, start, len, begin, i + 1)
  {
  }

  lemma PartsJoin(flat: seq<Byte>, start: nat, len: nat, i: nat, bytes: seq<Byte>)
    requires IsPart(bytes, flat, start, len, i) && start <= PartFrom(start, i)
    ensures flat[start..PartFrom(start, i)] + bytes == flat[start..PartTo(start, len, i)]
  {
  }

  class SliceClient {
    const infos: seq<nat>
    var slices: Store
    var offset: Uint64

    ghost predicate Valid()
      reads this
    {
      WellStored(slices, infos)
    }

    ghost function Contents(): seq<Byte>
      requires Valid()
      reads this
    {
      Flat(slices, infos)
    }

    constructor (infos: seq<nat>, slices: Store)
      requires WellStored(slices, infos)
      ensures Valid() && this.infos == infos && this.slices == slices && offset == 0
    {
      this.infos, this.slices, offset := infos, slices, 0;
    }

    method Seek(to: Uint64)
      modifies this`offset
      ensures offset == to
    {
      offset := to;
    }

    /**
      Index of and offset in the first slice, and index of the last. Sums are cut to 64 bits and indices to 32, so that
      the index before 0 is the greatest one.
     */
    function Range(len: nat): (nat, nat, nat)
      reads this`offset
    {
      ((offset / SLICE_SIZE) % TWO32, offset % SLICE_SIZE, LastIndex((offset + len) % TWO64))
    }

    /** Where an operation really starts, because the first index is cut. */
    function Base(): nat
      reads this`offset
    {
      ((offset / SLICE_SIZE) % TWO32) * SLICE_SIZE + offset % SLICE_SIZE
    }

    lemma RangeStarts(len: nat)
      ensures Range(len).0 * SLICE_SIZE + Range(len).1 == Base() && Range(len).1 < SLICE_SIZE
    {
    }

    /** An operation starts at the offset exactly if that is below 2^52. */
    lemma BaseIsOffsetIff()
      ensures Base() == offset <==> offset < SLICE_SIZE * TWO32
    {
      CutWhole(offset);
    }

    lemma RangeAtTwo52(len: nat)
      requires offset == SLICE_SIZE * TWO32 && 0 < len < SLICE_SIZE
      ensures Base() == 0 && Range(len) == (0, 0, 0)
    {
      hide LastIndex;
      LastIndexIs(1, len);
    }

    /** An interval whose end passes 2^64 never lies within the object. */
    lemma WrappedIsOutside(len: nat)
      requires |infos| < TWO32 && offset + len >= TWO64
      ensures Base() + len > |infos| * SLICE_SIZE
    {
      CutWhole(offset);
      BelowTwo64(offset, len);
    }

    /** As long as nothing is cut off, the last index is in bounds exactly if the interval is. */
    lemma RangeInBounds(len: nat)
      requires 0 < len && offset + len < SLICE_SIZE * TWO32
      ensures Base() == offset
      ensures var (begin, o, end) := Range(len);
        && 0 <= end && end * SLICE_SIZE < offset + len <= (end + 1) * SLICE_SIZE
        && (end < |infos| <==> offset + len <= |infos| * SLICE_SIZE)
    {
      hide LastIndex;
      BaseIsOffsetIff();
      LastIndexIs(0, offset + len);
      SmallQuotient(offset + len);
    }

    /**
      The last index of an interval that lies within the object from its base on. If something was cut off, an interval
      that ends where a slice ends gets one index too many.
     */
    lemma RangeEnds(len: nat)
      requires 0 < len && |infos| < TWO32 && Base() + len <= |infos| * SLICE_SIZE
      ensures var end := Range(len).2;
        && end == (Base() + len) / SLICE_SIZE
                  - (if (Base() + len) % SLICE_SIZE == 0 && offset < SLICE_SIZE * TWO32 then 1 else 0)
        && Range(len).0 <= end
    {
      hide LastIndex;
      CutWhole(offset);
      BelowTwo64(offset, len);
      LastIndexIs(offset / (SLICE_SIZE * TWO32), Base() + len);
      SmallQuotient(Base() + len);
    }

    /** Writes at the offset, slice by slice. Lengths are cut to 32 bits. */
    method WriteSlices(data: seq<Byte>) returns (r: WriteResult)
      requires Valid()
      modifies this`slices
      ensures var wlen := |data| % TWO32;
        r == if wlen == 0 then BadWrite else if Range(wlen).2 >= |infos| then NoSpace
             else if Base() + wlen > |infos| * SLICE_SIZE then WriteCrashed else Written(wlen)
      ensures var wlen := |data| % TWO32;
        0 < wlen && offset + wlen >= TWO64 ==> r == if Range(wlen).2 >= |infos| then NoSpace else WriteCrashed
      ensures var wlen := |data| % TWO32;
        0 < wlen && offset + wlen < SLICE_SIZE * TWO32 ==>
          Base() == offset && r == if offset + wlen <= |infos| * SLICE_SIZE then Written(wlen) else NoSpace
      ensures r.Written? ==>
        && Valid() && r.count == |data| % TWO32 && Base() + r.count <= |old(Contents())|
        && Contents() == Spliced(old(Contents()), Base(), data[..r.count])
      ensures r.BadWrite? || r.NoSpace? ==> slices == old(slices)
    {
      hide WellStored, Flat, Spliced, WrittenUpTo, Range, Base;
      var wlen := |data| % TWO32;
      if wlen == 0 {
        return BadWrite;
      }
      var (begin, o, end) := Range(wlen);
      RangeStarts(wlen);
      StoredFewer(slices, infos);
      if offset + wlen >= TWO64 {
        WrappedIsOutside(wlen);
      }
      ghost var direct := offset + wlen < SLICE_SIZE * TWO32;
      if direct {
        RangeInBounds(wlen);
      }
      if end >= |infos| {
        return NoSpace;
      }
      var ok := WritePieces(data, wlen, begin, o);
      return if ok then Written(wlen) else WriteCrashed;
    }

    /** Writes piece by piece; runs out of slices exactly if the interval does not lie within the object. */
    method WritePieces(data: seq<Byte>, wlen: nat, begin: nat, o: nat) returns (ok: bool)
      requires Valid() && 0 < wlen <= |data| && o < SLICE_SIZE
      modifies this`slices
      ensures ok <==> begin * SLICE_SIZE + o + wlen <= |infos| * SLICE_SIZE
      ensures ok ==>
        && Valid() && begin * SLICE_SIZE + o + wlen <= |old(Contents())|
        && Contents() == Spliced(old(Contents()), begin * SLICE_SIZE + o, data[..wlen])
    {
      hide WellStored, Flat, Spliced, WrittenUpTo;
      ghost var was, start := Contents(), begin * SLICE_SIZE + o;
      StoredFewer(slices, infos);
      if begin >= |infos| {
        return false;
      }
      NothingWritten(slices, infos, start, data);
      var total: nat, left: nat, curId: nat, curOffset: nat := 0, wlen, begin, o;
      while true
        invariant WrittenUpTo(slices, infos, was, start, data, total)
        invariant total < wlen && left == wlen - total && curOffset < SLICE_SIZE
        invariant curId * SLICE_SIZE + curOffset == start + total
        decreases wlen - total
      {
        if left > SLICE_SIZE - curOffset {
          left := SLICE_SIZE - curOffset;
        }
        if curId >= |infos| {
          return false;
        }
        NextPiece(slices, infos, was, start, data, total, left, curId, curOffset);
        slices := slices[infos[curId] := Spliced(slices[infos[curId]], curOffset, data[total..total + left])];
        total := total + left;
        if total == wlen {
          break;
        }
        curId := curId + 1;
        curOffset := 0;
        left := wlen - total;
      }
      AllWritten(slices, infos, was, start, data, wlen);
      return true;
    }

    /** Fetches the pieces of an interval, one per slice, keyed by slice. */
    method Fetch(rlen: nat, begin: nat, o: nat) returns (r: Option<map<nat, seq<Byte>>>, ghost last: nat)
      requires Valid() && rlen > 0 && o < SLICE_SIZE
      ensures r.None? ==> begin * SLICE_SIZE + o + rlen > |infos| * SLICE_SIZE
      ensures r.Some? ==>
        && begin <= last && last * SLICE_SIZE < begin * SLICE_SIZE + o + rlen <= (last + 1) * SLICE_SIZE
        && PartsFetched(r.value, infos, Contents(), begin * SLICE_SIZE + o, rlen, begin, last + 1)
        && forall i | last < i < |infos| :: infos[i] !in r.value
      ensures r.Some? ==> begin * SLICE_SIZE + o + rlen <= |infos| * SLICE_SIZE
    {
      hide WellStored, Flat, IsPart, PartsFetched;
      StoredDistinct(slices, infos);
      var buffers: map<nat, seq<Byte>> := map[];
      ghost var start := begin * SLICE_SIZE + o;
      var total: nat, left: nat, curId: nat, curOffset: nat := 0, rlen, begin, o;
      last := 0;
      if begin >= |infos| {
        return None, last;
      }
      NothingFetched(infos, Contents(), start, rlen, begin);
      while true
        invariant total < rlen && left == rlen - total && curOffset < SLICE_SIZE && begin <= curId
        invariant curId * SLICE_SIZE + curOffset == start + total == PartFrom(start, curId)
        invariant PartsFetched(buffers, infos, Contents(), start, rlen, begin, curId)
        invariant forall i | curId <= i < |infos| :: infos[i] !in buffers
        decreases rlen - total
      {
        var curLen := left;
        if curLen > SLICE_SIZE - curOffset {
          curLen := SLICE_SIZE - curOffset;
        }
        if curId >= |infos| {
          return None, last;
        }
        NextPart(slices, infos, start, rlen, curId, curOffset, curLen);
        var bytes := slices[infos[curId]][curOffset..curOffset + curLen];
        MorePartsFetched(buffers, infos, Contents(), start, rlen, begin, curId, bytes);
        buffers := buffers[infos[curId] := bytes];
        total := total + curLen;
        if total == rlen {
          break;
        }
        curId := curId + 1;
        curOffset := 0;
        left := rlen - total;
      }
      return Some(buffers), curId;
    }

    /** Reads as many bytes as the buffer has from the offset on, and puts the pieces together in slice order. */
    method ReadSlices(capacity: nat) returns (r: ReadResult)
      requires Valid()
      ensures var rlen := capacity % TWO32;
        if rlen == 0 then r == BadRead
        else if Range(rlen).2 >= |infos| then r == OutOfRange
        else if Base() + rlen > |infos| * SLICE_SIZE then r == ReadCrashed
        else if offset >= SLICE_SIZE * TWO32 && (Base() + rlen) % SLICE_SIZE == 0 then r == LackOfData
        else Base() + rlen <= |Contents()| && r == Data(Contents()[Base()..Base() + rlen])
      ensures var rlen := capacity % TWO32;
        0 < rlen && offset + rlen >= TWO64 ==> r == if Range(rlen).2 >= |infos| then OutOfRange else ReadCrashed
      ensures var rlen := capacity % TWO32;
        0 < rlen && offset + rlen < SLICE_SIZE * TWO32 ==>
          if offset + rlen <= |infos| * SLICE_SIZE
          then offset + rlen <= |Contents()| && r == Data(Contents()[offset..offset + rlen]) else r == OutOfRange
    {
      hide WellStored, Flat, PartsFetched, IsPart, Range, Base;
      var rlen := capacity % TWO32;
      if rlen == 0 {
        return BadRead;
      }
      var (begin, o, end) := Range(rlen);
      RangeStarts(rlen);
      StoredFewer(slices, infos);
      if offset + rlen >= TWO64 {
        WrappedIsOutside(rlen);
      }
      if offset + rlen < SLICE_SIZE * TWO32 {
        RangeInBounds(rlen);
      }
      if end >= |infos| {
        return OutOfRange;
      }
      var fetched;
      ghost var last;
      fetched, last := Fetch(rlen, begin, o);
      if fetched.None? {
        return ReadCrashed;
      }
      RangeEnds(rlen);
      LastIs(Base() + rlen, last);
      var buff := Assemble(fetched.value, begin, end, Base(), rlen, last);
      if buff.None? {
        return LackOfData;
      }
      if capacity < |buff.value| {
        return NoCapacity;
      }
      return Data(buff.value);
    }

    /** Puts fetched parts together from the first slice to the last; fails if asked for one slice too many. */
    method Assemble(buffers: map<nat, seq<Byte>>, begin: nat, end: int, ghost start: nat, ghost len: nat, ghost last: nat)
      returns (r: Option<seq<Byte>>)
      requires Valid() && begin <= last <= end <= last + 1 && end < |infos|
      requires PartsFetched(buffers, infos, Contents(), start, len, begin, last + 1)
      requires forall i | last < i < |infos| :: infos[i] !in buffers
      requires begin * SLICE_SIZE <= start < (begin + 1) * SLICE_SIZE
      requires last * SLICE_SIZE < start + len <= (last + 1) * SLICE_SIZE
      ensures if end > last then r == None
              else start + len <= |Contents()| && r == Some(Contents()[start..start + len])
    {
      hide WellStored, Flat, PartsFetched, IsPart, PartFrom, PartTo;
      PartBounds(start, len, begin, last);
      var buff: seq<Byte> := [];
      var i: int := begin;
      PartIn(buffers, infos, Contents(), start, len, begin, last + 1, begin);
      assert Contents()[start..start] == [];
      while i <= end
        invariant begin <= i <= last + 1
        invariant i <= last ==> start <= PartFrom(start, i) <= |Contents()| && buff == Contents()[start..PartFrom(start, i)]
        invariant i > last ==> start + len <= |Contents()| && buff == Contents()[start..start + len]
      {
        if i <= last {
          PartIn(buffers, infos, Contents(), start, len, begin, last + 1, i);
          PartsJoin(Contents(), start, len, i, buffers[infos[i]]);
        }
        if infos[i] !in buffers {
          return None;
        }
        buff := buff + buffers[infos[i]];
        i := i + 1;
      }
      return Some(buff);
    }
  }

  lemma LastIs(end: nat, last: nat)
    requires last * SLICE_SIZE < end <= (last + 1) * SLICE_SIZE
    ensures last == end / SLICE_SIZE - if end % SLICE_SIZE == 0 then 1 else 0
  {
  }

  lemma AllWritten(slices: Store, infos: seq<nat>, was: seq<Byte>, base: nat, data: seq<Byte>, total: nat)
    requires WrittenUpTo(slices, infos, was, base, data, total)
    ensures WellStored(slices, infos) && |was| == |infos| * SLICE_SIZE && total <= |data| && base + total <= |was|
    ensures Flat(slices, infos) == Spliced(was, base, data[..total])
  {
  }

  lemma StoredDistinct(slices: Store, infos: seq<nat>)
    requires WellStored(slices, infos)
    ensures Distinct(infos) && |Flat(slices, infos)| == |infos| * SLICE_SIZE
  {
  }

  lemma NothingFetched(infos: seq<nat>, flat: seq<Byte>, start: nat, len: nat, begin: nat)
    requires begin <= |infos|
    ensures PartsFetched(map[], infos, flat, start, len, begin, begin)
  {
  }

  /** The parts of an interval that reaches from slice `begin` to slice `end` meet without a gap. */
  lemma PartBounds(start: nat, len: nat, begin: nat, end: int)
    ensures begin * SLICE_SIZE <= start < (begin + 1) * SLICE_SIZE ==> PartFrom(start, begin) == start
    ensures 0 <= end && end * SLICE_SIZE < start + len <= (end + 1) * SLICE_SIZE ==>
      && PartTo(start, len, end) == start + len
      && forall i | begin <= i < end && start < (begin + 1) * SLICE_SIZE :: PartTo(start, len, i) == PartFrom(start, i + 1)
  {
  }

  lemma PartIn(buffers: map<nat, seq<Byte>>, infos: seq<nat>, flat: seq<Byte>, start: nat, len: nat, begin: nat,
               end: nat, i: nat)
    requires PartsFetched(buffers, infos, flat, start, len, begin, end) && begin <= i < end
    ensures i < |infos| && infos[i] in buffers && IsPart(buffers[infos[i]], flat, start, len, i)
    ensures PartFrom(start, i) <= PartTo(start, len, i) <= |flat|
  {
  }

  /** Beyond 2^32 slices the position wraps: seeking there and writing overwrites the object's beginning. */
  method SeekBeyondWraps(client: SliceClient, data: seq<Byte>) returns (r: WriteResult)
    requires client.Valid() && |client.infos| > 0 && 0 < |data| < SLICE_SIZE
    modifies client
    ensures client.offset == SLICE_SIZE * TWO32
    ensures r == Written(|data|) && client.Valid() && client.Contents() == Spliced(old(client.Contents()), 0, data)
  {
    hide SliceClient.Base, SliceClient.Range, WellStored, Flat, Spliced;
    client.Seek(SLICE_SIZE * TWO32);
    client.RangeAtTwo52(|data|);
    StoredFewer(client.slices, client.infos);
    r := client.WriteSlices(data);
    assert data[..|data|] == data;
  }

  /** What was written is what is read back, at the same offset. */
  method WriteThenRead(client: SliceClient, data: seq<Byte>) returns (r: ReadResult)
    requires client.Valid() && 0 < |data| < TWO32 && client.offset + |data| <= |client.infos| * SLICE_SIZE
    modifies client`slices
    ensures client.Valid() && r == Data(data)
  {
    hide WellStored, Flat, Spliced, SliceClient.Base, SliceClient.Range;
    ghost var was := client.Contents();
    StoredFewer(client.slices, client.infos);
    var written := client.WriteSlices(data);
    assert data[..|data|] == data;
    SpliceShows(was, client.offset, data, client.offset);
    r := client.ReadSlices(|data|);
  }

  lemma StoredFewer(slices: Store, infos: seq<nat>)
    requires WellStored(slices, infos)
    ensures |infos| < TWO32 && |Flat(slices, infos)| == |infos| * SLICE_SIZE
  {
  }
}
