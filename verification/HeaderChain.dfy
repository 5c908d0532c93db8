/** The header chain: fork choice by total difficulty, the canonical number index, rewinding, and the caches. */
module HeaderChains {
  import opened Types
  import opened Blocks

  datatype ChainOp = Write(header: Block, coin: bool) | Rewind(number: nat)

  datatype WriteStatus = UnknownAncestor | Crashed | Side | Canon

  /** Every stored header but genesis follows its parent, and difficulties and numbers are recorded for exactly these. */
  ghost predicate SoundStore(genesis: Block, headers: set<Block>, tds: map<Block, nat>, numbers: map<BlockHash, nat>) {
    && genesis in headers && genesis.number == 0 && genesis.parent == NoHash
    && (forall h | h in headers :: h == genesis || Follows(h))
    && tds.Keys == headers && (forall h | h in headers :: tds[h] == TotalDifficulty(h))
    && (forall x :: x in numbers <==> x.Of? && x.block in headers)
    && forall x | x in numbers :: numbers[x] == x.block.number
  }

  /** The number index maps exactly [0, head.number], to a parent-linked chain of stored headers from genesis to head. */
  ghost predicate Chained(canonical: map<nat, BlockHash>, headers: set<Block>, genesis: Block, head: Block) {
    && (forall n: nat :: n in canonical <==> n <= head.number)
    && canonical[0] == Of(genesis) && canonical[head.number] == Of(head)
    && (forall n | n in canonical :: canonical[n].Of? && canonical[n].block in headers && canonical[n].block.number == n)
    && forall n: nat | 0 < n <= head.number :: canonical[n].block.parent == canonical[n - 1]
  }

  ghost predicate Addressed(headerCache: map<BlockHash, Block>) {
    forall x | x in headerCache :: x == Of(headerCache[x])
  }

  /** Cached entries are what the database would answer. */
  ghost predicate CachesAgree(headers: set<Block>, tds: map<Block, nat>, numbers: map<BlockHash, nat>,
                              headerCache: map<BlockHash, Block>, tdCache: map<BlockHash, nat>,
                              numberCache: map<BlockHash, nat>) {
    && (forall x | x in headerCache :: headerCache[x] in headers)
    && (forall x | x in tdCache :: x.Of? && x.block in tds && tdCache[x] == tds[x.block])
    && forall x | x in numberCache :: x in numbers && numberCache[x] == numbers[x]
  }

  /** No stored header is heavier than the head. */
  ghost predicate Heaviest(headers: set<Block>, head: Block) {
    forall h | h in headers :: TotalDifficulty(h) <= TotalDifficulty(head)
  }

  ghost predicate AllRooted(headers: set<Block>, genesis: Block) {
    forall h | h in headers :: Rooted(headers, genesis, h)
  }

  /** The cache after an insertion, which may evict anything but the new entry. */
  method CacheAdd<K(==), V>(cache: map<K, V>, k: K, v: V) returns (r: map<K, V>)
    ensures k in r && r[k] == v && forall x | x in r && x != k :: x in cache && r[x] == cache[x]
  {
    var evicted: set<K> :| evicted <= cache.Keys;
    r := (cache - evicted)[k := v];
  }

  /** What writing a header comes to. */
  ghost function Outcome(genesis: Block, headers: set<Block>, head: Block, header: Block, coin: bool): WriteStatus {
    if !(header.parent.Of? && header.parent.block in headers) then UnknownAncestor
    else if TotalDifficulty(header) > TotalDifficulty(head) || (TotalDifficulty(header) == TotalDifficulty(head)
        && coin) then
      if Rooted(headers, genesis, header.parent.block) then Canon else Crashed
    else Side
  }

  lemma OutcomeIs(genesis: Block, headers: set<Block>, head: Block, header: Block, coin: bool)
    ensures !(header.parent.Of? && header.parent.block in headers) ==>
        Outcome(genesis, headers, head, header, coin) == UnknownAncestor
    ensures header.parent.Of? && header.parent.block in headers ==>
      var td, local := header.difficulty + TotalDifficulty(header.parent.block), TotalDifficulty(head);
      && td == TotalDifficulty(header)
      && Outcome(genesis, headers, head, header, coin) ==
           (if td > local || (td == local
               && coin) then if Rooted(headers, genesis, header.parent.block) then Canon else Crashed
            else Side)
      && (Heaviest(headers, head) ==> Heaviest(headers + {header}, if td > local || (td == local
          && coin) then header else head))
  {
  }

  lemma {:induction false} CanonicalIsRooted(canonical: map<nat, BlockHash>, headers: set<Block>, genesis: Block,
                                             head: Block, n: nat)
    requires Chained(canonical, headers, genesis, head) && n <= head.number
    ensures Rooted(headers, genesis, canonical[n].block)
    decreases n
  {
    if n > 0 {
      CanonicalIsRooted(canonical, headers, genesis, head, n - 1);
    }
  }

  /** While the index is rerouted: right of `y` it already follows `header`'s branch, up to `y` it is the old one. */
  ghost predicate Rerouting(canonical: map<nat, BlockHash>, was: map<nat, BlockHash>, headers: set<Block>,
                            header: Block, y: BlockHash, n: nat) {
    && n < header.number && y.Of? && y.block.number == n
    && (forall k: nat | k <= n :: (k in canonical <==> k in was) && (k in canonical ==> canonical[k] == was[k]))
    && (forall k: nat | n < k < header.number ::
          k in canonical && canonical[k].Of? && canonical[k].block in headers && canonical[k].block.number == k)
    && (forall k | k in canonical :: k < header.number || k == header.number)
    && (forall k: nat | n + 1 < k < header.number :: canonical[k].block.parent == canonical[k - 1])
    && if n + 1 == header.number then header.parent == y
       else canonical[n + 1].block.parent == y && canonical[header.number - 1] == header.parent
  }

  /** The index once the numbers above the new head are gone. */
  ghost predicate CutOff(cut: map<nat, BlockHash>, was: map<nat, BlockHash>, number: nat) {
    && (forall k: nat :: k in cut <==> k in was && k <= number)
    && forall k | k in cut :: cut[k] == was[k]
  }

  /** Writing a header whose parent is known keeps everything rooted. */
  lemma RootedWrite(headers: set<Block>, header: Block, genesis: Block)
    requires header.parent.Of? && header.parent.block in headers
    ensures AllRooted(headers, genesis) ==> AllRooted(headers + {header}, genesis) && Rooted(headers, genesis, header.parent.block)
  {
    if AllRooted(headers, genesis) {
      assert Rooted(headers, genesis, header.parent.block);
      forall h | h in headers
        ensures Rooted(headers + {header}, genesis, h)
      {
        assert Rooted(headers, genesis, h);
        RootedInMore(headers, headers + {header}, genesis, h);
      }
    }
  }

  /** The index holds exactly the head and its ancestors. */
  lemma {:induction false} CanonicalIsAncestry(canonical: map<nat, BlockHash>, headers: set<Block>, genesis: Block,
                                               head: Block,
                                               b: Block, n: nat)
    requires Chained(canonical, headers, genesis, head) && genesis.parent == NoHash && n <= head.number
        && canonical[n] == Of(b)
    ensures forall a :: IsAncestor(a, b) <==> a.number <= n && canonical[a.number] == Of(a)
    decreases n
  {
    if n > 0 {
      assert canonical[n].block.parent == canonical[n - 1];
      CanonicalIsAncestry(canonical, headers, genesis, head, b.parent.block, n - 1);
    }
    forall a
      ensures IsAncestor(a, b) <==> a.number <= n && canonical[a.number] == Of(a)
    {
    }
  }

  lemma HeadStored(canonical: map<nat, BlockHash>, headers: set<Block>, genesis: Block, head: Block)
    requires Chained(canonical, headers, genesis, head)
    ensures head in headers && head.number in canonical && canonical[head.number] == Of(head)
    ensures forall k: nat :: k in canonical <==> k <= head.number
  {
  }

  lemma ChainedInMore(canonical: map<nat, BlockHash>, headers: set<Block>, more: set<Block>, genesis: Block, head: Block)
    requires Chained(canonical, headers, genesis, head) && headers <= more
    ensures Chained(canonical, more, genesis, head)
  {
  }

  lemma NothingCached(headers: set<Block>, tds: map<Block, nat>, numbers: map<BlockHash, nat>)
    ensures Addressed(map[]) && CachesAgree(headers, tds, numbers, map[], map[], map[])
  {
  }

  lemma RerouteStarts(was: map<nat, BlockHash>, cut: map<nat, BlockHash>, headers: set<Block>, genesis: Block,
                      head: Block, header: Block)
    requires Chained(was, headers, genesis, head) && CutOff(cut, was, header.number) && Follows(header)
    ensures Rerouting(cut, cut, headers, header, header.parent, header.number - 1)
  {
  }

  /** At the seam the next ancestor is not genesis, which is canonical, so it follows its parent. */
  lemma SeamFollows(was: map<nat, BlockHash>, canonical: map<nat, BlockHash>, cut: map<nat, BlockHash>,
                    headers: set<Block>,
                    genesis: Block, head: Block, tds: map<Block, nat>, numbers: map<BlockHash, nat>,
                    header: Block, y: BlockHash, n: nat)
    requires Chained(was, headers, genesis, head) && CutOff(cut, was, header.number)
    requires SoundStore(genesis, headers, tds, numbers)
    requires Rerouting(canonical, cut, headers, header, y, n) && y.block in headers
    requires n !in canonical || canonical[n] != y
    ensures Follows(y.block) && n > 0
    ensures Rooted(headers, genesis, y.block) <==> Rooted(headers, genesis, y.block.parent.block)
  {
  }

  /** Writing one more ancestor that is not canonical moves the seam down to its parent. */
  lemma RerouteStep(canonical: map<nat, BlockHash>, cut: map<nat, BlockHash>, headers: set<Block>,
                    header: Block, y: BlockHash, n: nat)
    requires Rerouting(canonical, cut, headers, header, y, n) && y.block in headers && Follows(y.block) && n > 0
    ensures Rerouting(canonical[n := y], cut, headers, header, y.block.parent, n - 1)
  {
  }

  /** Once the seam meets the old index the whole is the new head's chain. */
  lemma RerouteEnds(was: map<nat, BlockHash>, canonical: map<nat, BlockHash>, cut: map<nat, BlockHash>,
                    headers: set<Block>,
                    genesis: Block, head: Block, header: Block, y: BlockHash, n: nat)
    requires Chained(was, headers, genesis, head) && CutOff(cut, was, header.number) && header in headers
    requires Rerouting(canonical, cut, headers, header, y, n) && n in canonical && canonical[n] == y
    ensures Rooted(headers, genesis, y.block)
    ensures Chained(canonical[header.number := Of(header)], headers, genesis, header)
  {
    CanonicalIsRooted(was, headers, genesis, head, n);
    var c := canonical[header.number := Of(header)];
    forall k: nat | k <= header.number
      ensures k in c
    {
      assert k <= n ==> k in was;
    }
    forall k: nat | 0 < k <= header.number
      ensures c[k].Of? && c[k].block.parent == c[k - 1]
    {
      if k <= n {
        assert c[k] == was[k] && c[k - 1] == was[k - 1];
      }
    }
  }

  ghost function CanonicalAbove(canonical: map<nat, BlockHash>, n: nat): set<Block> {
    set k: nat | k in canonical && k > n && canonical[k].Of? :: canonical[k].block
  }

  lemma NothingAbove(canonical: map<nat, BlockHash>, headers: set<Block>, genesis: Block, head: Block)
    requires Chained(canonical, headers, genesis, head)
    ensures CanonicalAbove(canonical, head.number) == {} && headers - CanonicalAbove(canonical, head.number) == headers
  {
  }

  /** Deleting the topmost canonical header leaves a sound store that holds its parent. */
  lemma TopDeleted(was: map<nat, BlockHash>, had: set<Block>, headers: set<Block>, tds: map<Block, nat>,
                   numbers: map<BlockHash, nat>,
               genesis: Block, head: Block, h: Block)
    requires Chained(was, had, genesis, head) && 0 < h.number <= head.number && was[h.number] == Of(h)
    requires headers == had - CanonicalAbove(was, h.number) && SoundStore(genesis, headers, tds, numbers)
    ensures SoundStore(genesis, headers - {h}, tds - {h}, numbers - {Of(h)})
    ensures h.parent.Of? && h.parent.block.number == h.number - 1 && h.parent == was[h.number - 1]
    ensures h.parent.block in headers - {h}
    ensures headers - {h} == had - CanonicalAbove(was, h.number - 1)
  {
  }

  /** What is left of the index is the new head's chain, and all of it is still stored. */
  lemma RewoundIndex(was: map<nat, BlockHash>, cut: map<nat, BlockHash>, had: set<Block>, headers: set<Block>,
                     genesis: Block, top: Block, head: Block)
    requires Chained(was, had, genesis, top) && head.number <= top.number && was[head.number] == Of(head)
    requires headers == had - CanonicalAbove(was, head.number) && CutOff(cut, was, head.number)
    ensures Chained(cut, headers, genesis, head)
  {
  }

  // ---------------------------------------------------------------------------------------------
  // Runs of writes and rewinds

  /** The headers a chain stores, its head, and the number index. */
  datatype Branch = Branch(headers: set<Block>, head: Block, canonical: map<nat, BlockHash>)

  /**
    A header whose parent is not stored is not taken. Another one is stored, and becomes the head if it is heavier than
    the head, or as heavy and the coin says so; otherwise the index stays as it is.
   */
  ghost predicate Wrote(c: Branch, d: Branch, header: Block, coin: bool) {
    if header.parent.Of? && header.parent.block in c.headers then
      var td, local := TotalDifficulty(header), TotalDifficulty(c.head);
      && d.headers == c.headers + {header}
      && (td > local || (td == local && coin) ==> d.head == header)
      && (td < local || (td == local && !coin) ==> d.head == c.head && d.canonical == c.canonical)
    else d == c
  }

  /** The canonical header of a lower number becomes the head again, and all canonical headers above it are deleted. */
  ghost predicate Rewound(c: Branch, d: Branch, number: nat) {
    var top := if number < c.head.number then number else c.head.number;
    && top in c.canonical && Of(d.head) == c.canonical[top] && CutOff(d.canonical, c.canonical, top)
    && d.headers == c.headers - CanonicalAbove(c.canonical, top)
  }

  ghost predicate Did(op: ChainOp, c: Branch, d: Branch) {
    match op
    case Write(header, coin) => Wrote(c, d, header, coin)
    case Rewind(number) => Rewound(c, d, number)
  }

  ghost predicate Trail(trail: seq<Branch>, ops: seq<ChainOp>) {
    |trail| == |ops| + 1 && forall i | 0 <= i < |ops| :: Did(ops[i], trail[i], trail[i + 1])
  }

  /** The one way to crash: a header takes over whose ancestors are not all stored. */
  ghost predicate Crashes(genesis: Block, op: ChainOp, c: Branch) {
    && op.Write? && op.header.parent.Of? && op.header.parent.block in c.headers
    && (TotalDifficulty(op.header) > TotalDifficulty(c.head)
        || (TotalDifficulty(op.header) == TotalDifficulty(c.head) && op.coin))
    && !Rooted(c.headers, genesis, op.header.parent.block)
  }

  lemma OutcomeCrashes(genesis: Block, c: Branch, header: Block, coin: bool)
    ensures Outcome(genesis, c.headers, c.head, header, coin) == Crashed <==> Crashes(genesis, Write(header, coin), c)
  {
    hide TotalDifficulty, Rooted;
  }

  lemma TrailStarts(c: Branch)
    ensures Trail([c], [])
  {
  }

  lemma TrailNext(trail: seq<Branch>, ops: seq<ChainOp>, i: nat, d: Branch)
    requires i < |ops| && Trail(trail, ops[..i]) && Did(ops[i], trail[i], d)
    ensures Trail(trail + [d], ops[..i + 1])
  {
    hide Did;
    var more := trail + [d];
    forall k | 0 <= k < i + 1
      ensures Did(ops[..i + 1][k], more[k], more[k + 1])
    {
      if k < i {
        assert Did(ops[..i][k], trail[k], trail[k + 1]);
      }
    }
  }

  lemma OutcomeWrites(genesis: Block, c: Branch, d: Branch, header: Block, coin: bool)
    requires var status := Outcome(genesis, c.headers, c.head, header, coin);
      && !status.Crashed? && d.headers == (if status.UnknownAncestor? then c.headers else c.headers + {header})
      && d.head == (if status.Canon? then header else c.head) && (!status.Canon? ==> d.canonical == c.canonical)
    ensures Wrote(c, d, header, coin)
  {
    hide TotalDifficulty;
  }

  /** Between rewinds no header is lost, and one whose parent is there when it is written is there from then on. */
  lemma {:induction false} WritesStore(trail: seq<Branch>, ops: seq<ChainOp>, i: nat, j: nat)
    requires Trail(trail, ops) && i <= j <= |ops| && forall k | i <= k < j :: ops[k].Write?
    ensures trail[i].headers <= trail[j].headers
    ensures i < j && ops[i].header.parent.Of? && ops[i].header.parent.block in trail[i].headers ==>
      ops[i].header in trail[j].headers
    decreases j - i
  {
    hide TotalDifficulty;
    if i < j {
      WritesStore(trail, ops, i, j - 1);
      assert Did(ops[j - 1], trail[j - 1], trail[j]);
    }
  }

  /** A rewind takes nothing that was not canonical. */
  lemma SideSurvives(c: Branch, d: Branch, number: nat, h: Block)
    requires Rewound(c, d, number) && h in c.headers && (h.number !in c.canonical || c.canonical[h.number] != Of(h))
    requires forall n | n in c.canonical :: c.canonical[n].Of? && c.canonical[n].block.number == n
    ensures h in d.headers
  {
  }

  class HeaderChain {
    const genesis: Block

    var headers: set<Block>
    var tds: map<Block, nat>
    var numbers: map<BlockHash, nat>
    var canonical: map<nat, BlockHash>
    var headHeaderHash: BlockHash

    var currentHeader: Block
    var currentHeaderHash: BlockHash

    var headerCache: map<BlockHash, Block>
    var tdCache: map<BlockHash, nat>
    var numberCache: map<BlockHash, nat>

    ghost predicate Agreeing()
      reads this
    {
      && SoundStore(genesis, headers, tds, numbers)
      && Addressed(headerCache)
      && CachesAgree(headers, tds, numbers, headerCache, tdCache, numberCache)
    }

    ghost predicate Valid()
      reads this
    {
      && Agreeing()
      && Chained(canonical, headers, genesis, currentHeader)
      && currentHeaderHash == headHeaderHash == Of(currentHeader)
    }

    ghost function Now(): Branch
      reads this`headers, this`currentHeader, this`canonical
    {
      Branch(headers, currentHeader, canonical)
    }

    constructor (genesis: Block)
      requires genesis.number == 0 && genesis.parent == NoHash
      ensures Valid() && this.genesis == currentHeader == genesis && headers == {genesis}
      ensures Heaviest(headers, currentHeader) && AllRooted(headers, genesis)
    {
      this.genesis := genesis;
      headers, tds, numbers := {genesis}, map[genesis := genesis.difficulty], map[Of(genesis) := 0];
      canonical, headHeaderHash := map[0 := Of(genesis)], Of(genesis);
      currentHeader, currentHeaderHash := genesis, Of(genesis);
      headerCache, tdCache, numberCache := map[], map[], map[];
    }

    /** The number stored for a hash, through the cache. */
    method GetBlockNumber(hash: BlockHash) returns (number: nat)
      requires Valid()
      modifies this`numberCache
      ensures Valid()
      ensures number == if hash in numbers then numbers[hash] else MAX_UINT64
    {
      if hash in numberCache {
        return numberCache[hash];
      }
      number := if hash in numbers then numbers[hash] else MAX_UINT64;
      if number != MAX_UINT64 {
        numberCache := CacheAdd(numberCache, hash, number);
      }
    }

    /** The total difficulty stored for a hash, through the cache, which ignores the number. */
    method GetTd(hash: BlockHash, number: nat) returns (td: Option<nat>)
      requires Agreeing()
      modifies this`tdCache
      ensures Agreeing()
      ensures td.Some? ==> hash.Of? && hash.block in headers && td.value == TotalDifficulty(hash.block)
      ensures hash.Of? && hash.block in headers && hash.block.number == number ==> td.Some?
    {
      if hash in tdCache {
        return Some(tdCache[hash]);
      }
      if !(hash.Of? && hash.block in tds && hash.block.number == number) {
        return None;
      }
      td := Some(tds[hash.block]);
      tdCache := CacheAdd(tdCache, hash, td.value);
    }

    /** The header stored for a hash, through the cache, which ignores the number. */
    method GetHeader(hash: BlockHash, number: nat) returns (header: Option<Block>)
      requires Addressed(headerCache)
      modifies this`headerCache
      ensures Addressed(headerCache)
      ensures header.Some? ==> hash == Of(header.value)
      ensures hash.Of? && hash.block in headers && hash.block.number == number ==> header == Some(hash.block)
      ensures old(Agreeing()) ==> Agreeing() && (header.Some? ==> header.value in headers)
    {
      if hash in headerCache {
        return Some(headerCache[hash]);
      }
      header := Lookup(headers, hash, number);
      if header.Some? {
        headerCache := CacheAdd(headerCache, hash, header.value);
      }
    }

    /** The canonical header of a number. */
    method GetHeaderByNumber(number: nat) returns (header: Option<Block>)
      requires Valid()
      modifies this`headerCache
      ensures Valid()
      ensures number <= currentHeader.number ==>
        header.Some? && Of(header.value) == canonical[number] && header.value.number == number
      ensures number > currentHeader.number ==> header.None?
    {
      if number !in canonical {
        return None;
      }
      header := GetHeader(canonical[number], number);
    }

    /** Stores a header and its total difficulty. */
    method Store(header: Block, td: nat)
      requires Agreeing() && Follows(header) && header.parent.block in headers && td == TotalDifficulty(header)
      modifies this`headers, this`tds, this`numbers, this`tdCache
      ensures Agreeing() && headers == old(headers) + {header}
    {
      tds := tds[header := td];
      tdCache := CacheAdd(tdCache, Of(header), td);
      headers := headers + {header};
      numbers := numbers[Of(header) := header.number];
    }

    /** Removes the canonical numbers above `number`. */
    method CutIndex(number: nat)
      requires Chained(canonical, headers, genesis, currentHeader)
      modifies this`canonical
      ensures CutOff(canonical, old(canonical), number)
    {
      var i := number + 1;
      while i in canonical
        invariant i > number
        invariant forall k: nat :: k in canonical <==> k in old(canonical) && (k <= number || k >= i)
        invariant forall k | k in canonical :: canonical[k] == old(canonical)[k]
        decreases currentHeader.number + 1 - i
      {
        canonical := canonical - {i};
        i := i + 1;
      }
    }

    /** Overwrites the number index with the header's branch; without a stored ancestor it has to give up. */
    method Reroute(header: Block) returns (ok: bool)
      requires Agreeing() && Chained(canonical, headers, genesis, currentHeader)
      requires header in headers && Follows(header) && header.parent.block in headers
      modifies this`canonical, this`headerCache
      ensures Agreeing()
      ensures ok <==> Rooted(headers, genesis, header.parent.block)
      ensures ok ==> Chained(canonical, headers, genesis, header)
    {
      hide SoundStore, CachesAgree, Chained, Rerouting;
      ghost var was := canonical;
      CutIndex(header.number);
      ghost var cut := canonical;
      var headHash := header.parent;
      var headNumber: nat := header.number - 1;
      RerouteStarts(was, cut, headers, genesis, currentHeader, header);
      var headHeader := GetHeader(headHash, headNumber);
      while headNumber !in canonical || canonical[headNumber] != headHash
        invariant Agreeing() && Rerouting(canonical, cut, headers, header, headHash, headNumber)
        invariant headHash.Of? && headHash.block.number == headNumber
        invariant headHeader == if headHash.block in headers then Some(headHash.block) else None
        invariant Rooted(headers, genesis, header.parent.block) <==> Rooted(headers, genesis, headHash.block)
        decreases headNumber
      {
        if headHeader.None? {
          canonical := canonical[headNumber := headHash];
          return false;
        }
        SeamFollows(was, canonical, cut, headers, genesis, currentHeader, tds, numbers, header, headHash, headNumber);
        RerouteStep(canonical, cut, headers, header, headHash, headNumber);
        canonical := canonical[headNumber := headHash];
        headHash := headHeader.value.parent;
        headNumber := Pred(headHeader.value.number);
        headHeader := GetHeader(headHash, headNumber);
      }
      RerouteEnds(was, canonical, cut, headers, genesis, currentHeader, header, headHash, headNumber);
      canonical := canonical[header.number := Of(header)];
      return true;
    }

    /** Caches a stored header and its number. */
    method Remember(header: Block)
      requires Agreeing() && header in headers
      modifies this`headerCache, this`numberCache
      ensures Agreeing()
    {
      headerCache := CacheAdd(headerCache, Of(header), header);
      numberCache := CacheAdd(numberCache, Of(header), header.number);
    }

    /** Stores a header whose parent is known,
        and makes it the head if it is heavier (or as heavy and the coin says so). */
    method WriteHeader(header: Block, coin: bool) returns (status: WriteStatus)
      requires Valid() && (header.parent.Of? ==> Follows(header))
      modifies this
      ensures status == Outcome(genesis, old(headers), old(currentHeader), header, coin)
      ensures !status.Crashed? ==> Wrote(old(Now()), Now(), header, coin)
      ensures Agreeing() && headers == if status.UnknownAncestor? then old(headers) else old(headers) + {header}
      ensures !status.Crashed? ==> Valid() && currentHeader == if status.Canon? then header else old(currentHeader)
      ensures !status.Crashed? && !status.Canon? ==> canonical == old(canonical)
      ensures old(AllRooted(headers, genesis)) ==> !status.Crashed? && AllRooted(headers, genesis)
      ensures old(Heaviest(headers, currentHeader)) && !status.Crashed? ==> Heaviest(headers, currentHeader)
    {
      hide Wrote, SoundStore, CachesAgree, Chained, AllRooted, Addressed, Heaviest, Outcome, Rooted, TotalDifficulty;
      ghost var before := Now();
      OutcomeIs(genesis, headers, currentHeader, header, coin);
      var ptd := GetTd(header.parent, Pred(header.number));
      if ptd.None? {
        OutcomeWrites(genesis, before, Now(), header, coin);
        return UnknownAncestor;
      }
      HeadStored(canonical, headers, genesis, currentHeader);
      var localTd := GetTd(currentHeaderHash, currentHeader.number);
      var externTd := header.difficulty + ptd.value;
      ghost var was := headers;
      Store(header, externTd);
      ChainedInMore(canonical, was, headers, genesis, currentHeader);
      RootedUnlessAbove(was, header, genesis, header.parent.block);
      RootedWrite(was, header, genesis);
      if localTd.Some? && (externTd > localTd.value || (externTd == localTd.value && coin)) {
        var ok := Reroute(header);
        if !ok {
          return Crashed;
        }
        headHeaderHash := Of(header);
        currentHeaderHash, currentHeader := Of(header), header;
        status := Canon;
      } else {
        status := Side;
      }
      Remember(header);
      OutcomeWrites(genesis, before, Now(), header, coin);
    }

    /** Rewinds to an earlier number: what was canonical above it is deleted, and all caches are emptied. */
    method SetHead(head: nat)
      requires Valid()
      modifies this
      ensures Valid()
      ensures var top := if head < old(currentHeader).number then head else old(currentHeader).number;
        && top in old(canonical) && Of(currentHeader) == old(canonical)[top]
        && CutOff(canonical, old(canonical), top)
        && headers == old(headers) - CanonicalAbove(old(canonical), top)
      ensures headerCache == map[] && tdCache == map[] && numberCache == map[]
    {
      hide CutOff, SoundStore, Chained, CachesAgree, CanonicalAbove, Addressed;
      ghost var was, had := canonical, headers;
      var height := currentHeader.number;
      var cur := Some(currentHeader);
      NothingAbove(canonical, headers, genesis, currentHeader);
      HeadStored(canonical, headers, genesis, currentHeader);
      while cur.Some? && cur.value.number > head
        invariant cur.Some? && cur.value.number <= height && (cur.value.number >= head || cur.value.number == height)
        invariant canonical == was && currentHeader == old(currentHeader)
        invariant cur.value.number in was && was[cur.value.number] == Of(cur.value)
        invariant headers == had - CanonicalAbove(was, cur.value.number) && SoundStore(genesis, headers, tds, numbers)
        invariant Addressed(headerCache)
        decreases cur.value.number
      {
        var h := cur.value;
        TopDeleted(was, had, headers, tds, numbers, genesis, currentHeader, h);
        headers := headers - {h};
        numbers := numbers - {Of(h)};
        tds := tds - {h};
        cur := GetHeader(h.parent, Pred(h.number));
      }
      currentHeader := cur.value;
      RollBack(head, height);
      RewoundIndex(was, canonical, had, headers, genesis, old(currentHeader), currentHeader);
      headerCache, tdCache, numberCache := map[], map[], map[];
      NothingCached(headers, tds, numbers);
      currentHeaderHash := Of(currentHeader);
      headHeaderHash := currentHeaderHash;
    }

    /** Deletes the canonical numbers from `height` down to `head + 1`. */
    method RollBack(head: nat, height: nat)
      requires forall k: nat :: k in canonical <==> k <= height
      modifies this`canonical
      ensures CutOff(canonical, old(canonical), if head < height then head else height)
    {
      var i := height;
      while i > head
        invariant i <= height && (i >= head || i == height) && CutOff(canonical, old(canonical), i)
      {
        canonical := canonical - {i};
        i := i - 1;
      }
    }

    /**
      Any run keeps the index a gap-free chain and the caches in agreement, and `trail` tells what each write and each
      rewind did, unless a header takes over whose ancestors are not all stored, which crashes the chain; a run of writes
      alone never crashes and keeps the head the heaviest of all headers written.
     */
    method Run(ops: seq<ChainOp>) returns (crashed: bool, ghost trail: seq<Branch>)
      requires Valid() && forall op | op in ops && op.Write? :: op.header.parent.Of? ==> Follows(op.header)
      modifies this
      ensures !crashed ==> Valid() && Trail(trail, ops) && trail[0] == old(Now()) && trail[|ops|] == Now()
      ensures crashed ==> 1 <= |trail| <= |ops| && Trail(trail, ops[..|trail| - 1]) && trail[0] == old(Now())
                          && Crashes(genesis, ops[|trail| - 1], trail[|trail| - 1])
      ensures (forall op | op in ops :: op.Write?) && old(AllRooted(headers, genesis)) && old(Heaviest(headers, currentHeader)) ==>
        !crashed && AllRooted(headers, genesis) && Heaviest(headers, currentHeader)
    {
      hide SoundStore, CachesAgree, Chained, AllRooted, Heaviest, CutOff, Outcome, Trail, Wrote, Crashes;
      trail := [Now()];
      TrailStarts(Now());
      for i := 0 to |ops|
        invariant Valid() && |trail| == i + 1 && trail[0] == old(Now()) && trail[i] == Now() && Trail(trail, ops[..i])
        invariant (forall op | op in ops :: op.Write?) && old(AllRooted(headers, genesis)) && old(Heaviest(headers, currentHeader)) ==>
          AllRooted(headers, genesis) && Heaviest(headers, currentHeader)
      {
        var op := ops[i];
        assert op in ops;
        match op {
          case Write(header, coin) =>
            OutcomeCrashes(genesis, Now(), header, coin);
            var status := WriteHeader(header, coin);
            if status.Crashed? {
              return true, trail;
            }
          case Rewind(number) =>
            SetHead(number);
        }
        TrailNext(trail, ops, i, Now());
        trail := trail + [Now()];
      }
      assert ops[..|ops|] == ops;
      return false, trail;
    }
  }

  /** Two blocks on genesis, a sibling of the second that is no heavier, and a child of that sibling. */
  ghost predicate Fork(g: Block, a: Block, b: Block, side: Block, child: Block) {
    && g.parent == NoHash && g.number == 0
    && a.parent == Of(g) && b.parent == side.parent == Of(a) && child.parent == Of(side)
    && a.number == 1 && b.number == side.number == 2 && child.number == 3
    && b != side && a.difficulty > 0 && b.difficulty > 0 && child.difficulty > 0 && side.difficulty <= b.difficulty
  }

  lemma ForkOutcomes(g: Block, a: Block, b: Block, side: Block, child: Block)
    requires Fork(g, a, b, side, child)
    ensures Follows(a) && Follows(b) && Follows(side) && Follows(child)
    ensures Outcome(g, {g}, g, a, false) == Canon && Outcome(g, {g, a}, a, b, false) == Canon
    ensures Outcome(g, {g, a, b}, b, side, false) == Side
    ensures Outcome(g, {g, side}, g, child, false) == Crashed
  {
    assert Rooted({g}, g, g) && Rooted({g, a}, g, g) && Rooted({g, a}, g, a);
    assert TotalDifficulty(b) == b.difficulty + TotalDifficulty(a);
    assert TotalDifficulty(side) == side.difficulty + TotalDifficulty(a);
    assert a !in {g, side} && !Rooted({g, side}, g, a) && !Rooted({g, side}, g, side);
    assert TotalDifficulty(a) == a.difficulty + TotalDifficulty(g);
    assert TotalDifficulty(child) == child.difficulty + TotalDifficulty(side);
  }

  /** Rewinding to genesis deletes the head's chain but not the sibling. */
  lemma SiblingStays(canonical: map<nat, BlockHash>, g: Block, a: Block, b: Block, side: Block, child: Block)
    requires Fork(g, a, b, side, child) && Chained(canonical, {g, a, b, side}, g, b)
    ensures {g, a, b, side} - CanonicalAbove(canonical, 0) == {g, side} && canonical[0] == Of(g)
  {
    assert 1 in canonical && 2 in canonical && canonical[2].block.parent == canonical[1];
    assert a in CanonicalAbove(canonical, 0) && b in CanonicalAbove(canonical, 0);
    assert forall k: nat | k in canonical && k > 0 :: k == 1 || k == 2;
    assert CanonicalAbove(canonical, 0) == {a, b};
  }

  /** On every such fork, rewinding to genesis and then extending the sibling's branch crashes the chain. */
  method RewindThenCrash(g: Block, a: Block, b: Block, side: Block, child: Block) returns (status: WriteStatus)
    requires Fork(g, a, b, side, child)
    ensures status == Crashed
  {
    hide *;
    ForkOutcomes(g, a, b, side, child);
    GenesisOf(g, a, b, side, child);
    var chain := new HeaderChain(g);
    status := chain.WriteHeader(a, false);
    assert chain.headers == {g, a};
    status := chain.WriteHeader(b, false);
    assert chain.headers == {g, a, b};
    status := chain.WriteHeader(side, false);
    assert chain.headers == {g, a, b, side};
    ValidChained(chain);
    SiblingStays(chain.canonical, g, a, b, side, child);
    chain.SetHead(0);
    status := chain.WriteHeader(child, false);
  }

  /** There are such forks. */
  lemma SomeFork() returns (g: Block, a: Block, b: Block, side: Block, child: Block)
    ensures Fork(g, a, b, side, child)
  {
    g := Block(NoHash, 0, 1, [], 0);
    a := Block(Of(g), 1, 1, [], 0);
    b := Block(Of(a), 2, 1, [], 0);
    side := Block(Of(a), 2, 1, [], 1);
    child := Block(Of(side), 3, 1, [], 0);
  }

  lemma GenesisOf(g: Block, a: Block, b: Block, side: Block, child: Block)
    requires Fork(g, a, b, side, child)
    ensures g.parent == NoHash && g.number == 0 && b.number == 2
  {
  }

  lemma ValidChained(chain: HeaderChain)
    requires chain.Valid()
    ensures Chained(chain.canonical, chain.headers, chain.genesis, chain.currentHeader)
  {
  }
}
