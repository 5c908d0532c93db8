/** The chain indexer: sections are processed without the lock while head notifications come in between. */
module ChainIndexers {
  import opened Types
  import opened Blocks

  /** `high` is reached from `low` by `k` parent links. */
  predicate Links(low: BlockHash, high: BlockHash, k: nat) {
    if k == 0 then low == high else high.Of? && Links(low, high.block.parent, k - 1)
  }

  lemma {:induction false} LinksTrans(a: BlockHash, b: BlockHash, c: BlockHash, j: nat, k: nat)
    requires Links(a, b, j) && Links(b, c, k)
    ensures Links(a, c, j + k)
    decreases k
  {
    if k > 0 {
      LinksTrans(a, b, c.block.parent, j, k - 1);
    }
  }

  /** What the update loop is doing; it holds the lock only between these phases. */
  datatype Phase =
    | Idle
    | Resetting(section: nat, oldHead: BlockHash)
    | Processing(section: nat, oldHead: BlockHash, number: nat, lastHead: BlockHash)
    | Processed(section: nat, oldHead: BlockHash, newHead: BlockHash)
    | Failed

  /**
    What may happen next: another chain becoming canonical, a head notification, an update tick, the backend resetting
    or committing (or failing to), the next number being read off the chain that is canonical at that moment, or the
    update loop taking the lock again.
   */
  datatype Step =
    | Switch(canonical: map<nat, Block>)
    | Head(head: nat, reorg: bool)
    | Tick
    | Reset(ok: bool)
    | Read
    | Commit(ok: bool)
    | Conclude

  /** The first number of a section, and the first one after it. */
  function StartOf(section: nat, size: nat): nat {
    section * size
  }

  function EndOf(section: nat, size: nat): nat {
    (section + 1) * size
  }

  /** What a section's chain starts from. */
  function HeadBefore(heads: map<nat, BlockHash>, section: nat): BlockHash {
    if section > 0 && section - 1 in heads then heads[section - 1] else NoHash
  }

  /** Heads are recorded for exactly the stored sections, each reached from the previous one over a section of links. */
  ghost predicate HeadsLinked(heads: map<nat, BlockHash>, stored: nat, size: nat) {
    && (forall s: nat :: s in heads <==> s < stored)
    && forall s: nat | s < stored ::
         heads[s].Of? && heads[s].block.number + 1 == EndOf(s, size) && Links(HeadBefore(heads, s), heads[s], size)
  }

  /** The section in progress is the next one, or a later one if a reorganization took sections away meanwhile. */
  ghost predicate InProgress(phase: Phase, heads: map<nat, BlockHash>, stored: nat, size: nat) {
    match phase
    case Idle => true
    case Failed => true
    case Resetting(section, oldHead) => Started(section, oldHead, heads, stored)
    case Processing(section, oldHead, number, lastHead) =>
      && Started(section, oldHead, heads, stored)
      && StartOf(section, size) <= number <= EndOf(section, size)
      && Links(oldHead, lastHead, number - StartOf(section, size))
      && (number > StartOf(section, size) ==> lastHead.Of? && lastHead.block.number + 1 == number)
    case Processed(section, oldHead, newHead) =>
      && Started(section, oldHead, heads, stored)
      && newHead.Of? && newHead.block.number + 1 == EndOf(section, size) && Links(oldHead, newHead, size)
  }

  ghost predicate Started(section: nat, oldHead: BlockHash, heads: map<nat, BlockHash>, stored: nat) {
    && stored <= section < MAX_UINT64
    && (if section == 0 then oldHead == NoHash else oldHead.Of?)
    && (stored == section ==> oldHead == HeadBefore(heads, section))
  }

  /** Headers are stored under their numbers. */
  ghost predicate WellNumbered(canonical: map<nat, Block>) {
    forall n | n in canonical :: canonical[n].number == n
  }

  predicate Canonical(chain: map<nat, Block>, h: BlockHash) {
    h.Of? && h.block.number in chain && chain[h.block.number] == h.block
  }

  predicate SameAt(was: map<nat, Block>, now: map<nat, Block>, n: nat) {
    n in was && n in now && now[n] == was[n]
  }

  /** Numbers whose canonical block is no longer what it was. */
  function Changed(was: map<nat, Block>, now: map<nat, Block>): set<nat> {
    set n | n in was && !SameAt(was, now, n)
  }

  /** What was read last is an entry of the chain `seen`. */
  ghost predicate LastRead(phase: Phase, seen: map<nat, Block>, size: nat) {
    match phase
    case Processing(section, _, number, lastHead) =>
      number > StartOf(section, size) ==> number - 1 in seen && lastHead == Of(seen[number - 1])
    case Processed(section, _, newHead) =>
      size > 0 && EndOf(section, size) - 1 in seen && newHead == Of(seen[EndOf(section, size) - 1])
    case _ => true
  }

  /** Every recorded head is canonical, or its number is among the excused ones. */
  ghost predicate CanonicalBut(heads: map<nat, BlockHash>, chain: map<nat, Block>, excused: set<nat>) {
    forall s | s in heads :: Canonical(chain, heads[s]) || (heads[s].Of? && heads[s].block.number in excused)
  }

  predicate InWork(phase: Phase) {
    phase.Resetting? || phase.Processing? || phase.Processed?
  }

  // ---------------------------------------------------------------------------------------------
  // What each step does

  /** The indexer between two steps, and the chain that is canonical then. */
  datatype Instant = Instant(stored: nat, known: nat, heads: map<nat, BlockHash>, phase: Phase, chain: map<nat, Block>)

  /** How an indexer was set up: the length of sections, and by how many blocks they have to be confirmed. */
  datatype Setup = Setup(size: nat, confirms: nat)

  /** A reorganization takes back the sections that do not end at or below its block; progress makes sections known
      that end at least `confirms` blocks before the head. */
  ghost predicate Notified(c: Setup, head: nat, reorg: bool, m: Instant, n: Instant) {
    && n.phase == m.phase && n.chain == m.chain
    && (reorg ==>
          && (forall s: nat :: s < n.known <==> s < m.known && EndOf(s, c.size) <= head)
          && (forall s: nat :: s < n.stored <==> s < m.stored && EndOf(s, c.size) <= head)
          && n.heads == map s | s in m.heads && s < n.stored :: m.heads[s])
    && (!reorg ==>
          && n.stored == m.stored && n.heads == m.heads
          && forall s: nat :: s < n.known <==> s < m.known || EndOf(s, c.size) + c.confirms <= head + 1)
  }

  /** The next number of the section is read, and has to continue what was read before. */
  ghost predicate ReadNext(c: Setup, m: Instant, n: Instant) {
    if m.phase.Processing? && m.phase.number < EndOf(m.phase.section, c.size) then
      var number := m.phase.number;
      n == m.(phase := if number in m.chain && m.chain[number].parent == m.phase.lastHead
                       then m.phase.(number := number + 1, lastHead := Of(m.chain[number])) else Failed)
    else n == m
  }

  /** A processed section is recorded if it is still the next one; otherwise, or after a failure, nothing more is known. */
  ghost predicate Concluded(m: Instant, n: Instant) {
    match m.phase
    case Processed(section, _, newHead) =>
      n == if m.stored == section then m.(stored := section + 1, heads := m.heads[section := newHead], phase := Idle)
           else m.(known := m.stored, phase := Idle)
    case Failed => n == m.(known := m.stored, phase := Idle)
    case _ => n == m
  }

  ghost predicate Did(c: Setup, step: Step, m: Instant, n: Instant) {
    match step
    case Switch(next) => n == m.(chain := next)
    case Head(head, reorg) => Notified(c, head, reorg, m, n)
    case Tick =>
      n == if m.phase.Idle? && m.known > m.stored
           then m.(phase := Resetting(m.stored, if m.stored > 0 && m.stored - 1 in m.heads then m.heads[m.stored - 1]
                                                else NoHash))
           else m
    case Reset(ok) =>
      n == if !m.phase.Resetting? then m
           else if ok then m.(phase := Processing(m.phase.section, m.phase.oldHead, StartOf(m.phase.section, c.size),
                                                  m.phase.oldHead))
           else m.(stored := 0, heads := map[], phase := Failed)
    case Read => ReadNext(c, m, n)
    case Commit(ok) =>
      n == if m.phase.Processing? && m.phase.number == EndOf(m.phase.section, c.size)
           then m.(phase := if ok then Processed(m.phase.section, m.phase.oldHead, m.phase.lastHead) else Failed)
           else m
    case Conclude => Concluded(m, n)
  }

  ghost predicate Trail(c: Setup, steps: seq<Step>, trail: seq<Instant>) {
    |trail| == |steps| + 1 && forall i | 0 <= i < |steps| :: Did(c, steps[i], trail[i], trail[i + 1])
  }

  lemma TrailStarts(c: Setup, m: Instant)
    ensures Trail(c, [], [m])
  {
  }

  lemma TrailNext(c: Setup, steps: seq<Step>, trail: seq<Instant>, i: nat, n: Instant)
    requires i < |steps| && Trail(c, steps[..i], trail) && Did(c, steps[i], trail[i], n)
    ensures Trail(c, steps[..i + 1], trail + [n])
  {
    hide Did;
    forall k | 0 <= k < i + 1
      ensures Did(c, steps[..i + 1][k], (trail + [n])[k], (trail + [n])[k + 1])
    {
      if k < i {
        assert Did(c, steps[..i][k], trail[k], trail[k + 1]);
      }
    }
  }

  /** Whole sections up to a number. */
  lemma SectionsUpTo(s: nat, size: nat, number: nat)
    requires size > 0
    ensures s < number / size <==> EndOf(s, size) <= number
  {
    var q := number / size;
    assert q * size <= number < (q + 1) * size;
    if s < q {
      EndBelow(s, size, number);
    } else {
      assert (q + 1) * size <= (s + 1) * size;
    }
  }

  lemma HeadNotified(c: Setup, head: nat, reorg: bool, m: Instant, n: Instant)
    requires c.size > 0 && n.phase == m.phase && n.chain == m.chain
    requires reorg ==>
      && n.stored == (if head / c.size < m.stored then head / c.size else m.stored)
      && n.known == (if head / c.size < m.known then head / c.size else m.known)
      && n.heads == map s | s in m.heads && s < n.stored :: m.heads[s]
    requires !reorg ==> n.stored == m.stored && n.heads == m.heads
    requires !reorg && head >= c.confirms ==>
      var sections := (head + 1 - c.confirms) / c.size; n.known == if sections > m.known then sections else m.known
    requires !reorg && head < c.confirms ==> n.known == m.known
    ensures Notified(c, head, reorg, m, n)
  {
    hide EndOf;
    forall s: nat
      ensures EndOf(s, c.size) <= head <==> s < head / c.size
      ensures EndOf(s, c.size) + c.confirms <= head + 1 <==> head >= c.confirms && s < (head + 1 - c.confirms) / c.size
    {
      SectionsUpTo(s, c.size, head);
      ConfirmedUpTo(s, c.size, c.confirms, head);
    }
  }

  lemma ConfirmedUpTo(s: nat, size: nat, confirms: nat, head: nat)
    requires size > 0
    ensures EndOf(s, size) + confirms <= head + 1 <==> head >= confirms && s < (head + 1 - confirms) / size
  {
    if head >= confirms {
      SectionsUpTo(s, size, head + 1 - confirms);
    } else {
      SectionLength(s, size);
    }
  }

  /** The update loop goes through one section without being disturbed. */
  ghost predicate Undisturbed(steps: seq<Step>, size: nat) {
    && |steps| == size + 4 && steps[0] == Tick && steps[1] == Reset(true)
    && (forall i | 2 <= i < size + 2 :: steps[i] == Read)
    && steps[size + 2] == Commit(true) && steps[size + 3] == Conclude
  }

  /** The chain's section `s` continues what the indexer has stored, block by block. */
  ghost predicate Continues(chain: map<nat, Block>, m: Instant, size: nat) {
    && (forall n: nat | StartOf(m.stored, size) <= n < EndOf(m.stored, size) ::
          n in chain && (n > StartOf(m.stored, size) ==> n - 1 in chain && chain[n].parent == Of(chain[n - 1])))
    && (size > 0 && StartOf(m.stored, size) in chain ==>
          chain[StartOf(m.stored, size)].parent == HeadBefore(m.heads, m.stored))
  }

  lemma {:induction false} ReadsOn(c: Setup, steps: seq<Step>, trail: seq<Instant>, k: nat)
    requires c.size > 0 && Trail(c, steps, trail) && Undisturbed(steps, c.size) && k <= c.size
    requires trail[0].phase == Idle && trail[0].known > trail[0].stored && Continues(trail[0].chain, trail[0], c.size)
    ensures var m, section, start := trail[0], trail[0].stored, StartOf(trail[0].stored, c.size);
      && (k > 0 ==> start + k - 1 in m.chain)
      && trail[k + 2] == m.(phase := Processing(section, HeadBefore(m.heads, section), start + k,
                                                if k == 0 then HeadBefore(m.heads, section) else Of(m.chain[start + k - 1])))
    decreases k
  {
    var m := trail[0];
    SectionLength(m.stored, c.size);
    if k == 0 {
      assert Did(c, steps[0], trail[0], trail[1]) && Did(c, steps[1], trail[1], trail[2]);
    } else {
      ReadsOn(c, steps, trail, k - 1);
      assert steps[k + 1] == Read && Did(c, steps[k + 1], trail[k + 1], trail[k + 2]);
    }
  }

  /** A section that continues what is stored is recorded, with its last block as head, if nothing comes in between. */
  lemma SectionRecorded(c: Setup, steps: seq<Step>, trail: seq<Instant>)
    requires c.size > 0 && Trail(c, steps, trail) && Undisturbed(steps, c.size)
    requires trail[0].phase == Idle && trail[0].known > trail[0].stored && Continues(trail[0].chain, trail[0], c.size)
    ensures var m, n := trail[0], trail[c.size + 4];
      && EndOf(m.stored, c.size) - 1 in m.chain
      && n.stored == m.stored + 1 && n.heads == m.heads[m.stored := Of(m.chain[EndOf(m.stored, c.size) - 1])]
      && n.known == m.known && n.phase == Idle && n.chain == m.chain
  {
    SectionLength(trail[0].stored, c.size);
    ReadsOn(c, steps, trail, c.size);
    assert Did(c, steps[c.size + 2], trail[c.size + 2], trail[c.size + 3]);
    assert Did(c, steps[c.size + 3], trail[c.size + 3], trail[c.size + 4]);
  }

  class ChainIndexer {
    const sectionSize: nat
    const confirmsReq: nat

    var storedSections: nat
    var knownSections: nat
    var heads: map<nat, BlockHash>
    var phase: Phase

    ghost predicate Valid()
      reads this
    {
      && sectionSize > 0 && storedSections <= MAX_UINT64 && knownSections <= MAX_UINT64
      && HeadsLinked(heads, storedSections, sectionSize)
      && InProgress(phase, heads, storedSections, sectionSize)
    }

    ghost function At(chain: map<nat, Block>): Instant
      reads this`storedSections, this`knownSections, this`heads, this`phase
    {
      Instant(storedSections, knownSections, heads, phase, chain)
    }

    function Fixed(): Setup {
      Setup(sectionSize, confirmsReq)
    }

    /** No more sections are stored than known. */
    ghost predicate WithinKnown()
      reads this`storedSections, this`knownSections
    {
      storedSections <= knownSections
    }

    /** The section about to be recorded is no longer among the known ones. */
    ghost predicate Overtaking()
      reads this`storedSections, this`knownSections, this`phase
    {
      phase.Processed? && storedSections == phase.section == knownSections
    }

    /** The section in progress is still a known one, unless a reorganization took sections below it away. */
    ghost predicate Ahead()
      reads this`storedSections, this`knownSections, this`phase
    {
      InWork(phase) && storedSections == phase.section ==> knownSections > phase.section
    }

    constructor (sectionSize: nat, confirmsReq: nat)
      requires sectionSize > 0
      ensures Valid() && storedSections == knownSections == 0 && phase == Idle && WithinKnown() && Ahead()
      ensures this.sectionSize == sectionSize && this.confirmsReq == confirmsReq
    {
      this.sectionSize, this.confirmsReq := sectionSize, confirmsReq;
      storedSections, knownSections, heads, phase := 0, 0, map[], Idle;
    }

    /** The recorded head of a section; section numbers wrap on 64 bits. */
    method SectionHead(section: nat) returns (hash: BlockHash)
      ensures hash == if section in heads then heads[section] else NoHash
    {
      hash := if section in heads then heads[section] else NoHash;
    }

    /** Sets how many sections are valid and forgets the heads of those above. */
    method SetValidSections(sections: nat)
      requires forall s: nat :: s in heads ==> s < storedSections || s < sections
      modifies this`storedSections, this`heads
      ensures storedSections == sections
      ensures heads == map s | s in old(heads) && s < sections :: old(heads)[s]
    {
      while storedSections > sections
        invariant storedSections <= old(storedSections)
        invariant heads == map s | s in old(heads) && (s < storedSections || s < sections) :: old(heads)[s]
      {
        storedSections := storedSections - 1;
        heads := heads - {storedSections};
      }
      storedSections := sections;
    }

    /** A new head: a reorganization takes back what is above it, progress may make more sections known. */
    method NewHead(head: nat, reorg: bool)
      requires Valid() && head < MAX_UINT64
      modifies this`storedSections, this`knownSections, this`heads
      ensures Valid()
      ensures var changed := head / sectionSize;
        reorg ==> storedSections == (if changed < old(storedSections) then changed else old(storedSections))
                  && knownSections == (if changed < old(knownSections) then changed else old(knownSections))
      ensures reorg ==> heads == map s | s in old(heads) && s < storedSections :: old(heads)[s]
      ensures !reorg ==> storedSections == old(storedSections) && heads == old(heads)
                         && knownSections >= old(knownSections)
      ensures !reorg && head >= confirmsReq ==>
        var sections := (head + 1 - confirmsReq) / sectionSize;
        knownSections == if sections > old(knownSections) then sections else old(knownSections)
      ensures !reorg && head < confirmsReq ==> knownSections == old(knownSections)
      ensures old(WithinKnown()) ==> WithinKnown()
      ensures !reorg && old(Ahead()) ==> Ahead()
    {
      hide HeadsLinked, InProgress;
      HeadsBelow(heads, storedSections, sectionSize);
      QuotientSmall(head, sectionSize);
      if reorg {
        var changed := head / sectionSize;
        if changed < knownSections {
          knownSections := changed;
        }
        ghost var was, had := heads, storedSections;
        if changed < storedSections {
          SetValidSections(changed);
          FewerSections(was, heads, had, storedSections, sectionSize, phase);
        } else {
          assert heads == map s | s in heads && s < storedSections :: heads[s];
        }
        return;
      }
      if head >= confirmsReq {
        var sections := (head + 1 - confirmsReq) / sectionSize;
        QuotientSmall(head + 1 - confirmsReq, sectionSize);
        if sections > knownSections {
          knownSections := sections;
        }
      }
    }

    /** The update loop looks for a section to process and lets go of the lock. */
    method Begin()
      requires Valid()
      modifies this`phase
      ensures Valid()
      ensures phase == if old(phase).Idle? && knownSections > storedSections
                       then Resetting(storedSections, HeadBefore(heads, storedSections)) else old(phase)
      ensures old(WithinKnown()) ==> WithinKnown()
      ensures old(Ahead()) ==> Ahead()
    {
      if phase.Idle? && knownSections > storedSections {
        var oldHead := NoHash;
        if storedSections > 0 {
          oldHead := SectionHead(storedSections - 1);
        }
        phase := Resetting(storedSections, oldHead);
      }
    }

    /** The backend is reset for the section; if that fails all sections are given up. */
    method BackendReset(ok: bool)
      requires Valid()
      modifies this`phase, this`storedSections, this`heads
      ensures Valid()
      ensures old(phase).Resetting? && !ok ==> phase == Failed && storedSections == 0 && heads == map[]
      ensures old(phase).Resetting? && ok ==>
        phase == Processing(old(phase).section, old(phase).oldHead, StartOf(old(phase).section, sectionSize),
            old(phase).oldHead)
      ensures !old(phase).Resetting? ==> phase == old(phase)
      ensures !(old(phase).Resetting? && !ok) ==> storedSections == old(storedSections) && heads == old(heads)
      ensures old(WithinKnown()) ==> WithinKnown()
      ensures old(Ahead()) ==> Ahead()
    {
      if phase.Resetting? {
        if !ok {
          SetValidSections(0);
          assert heads == map[];
          phase := Failed;
        } else {
          phase := Processing(phase.section, phase.oldHead, StartOf(phase.section, sectionSize), phase.oldHead);
        }
      }
    }

    /** The next number of the section is looked up and must continue the chain read so far. */
    method ProcessNext(canonical: map<nat, Block>)
      requires Valid() && WellNumbered(canonical)
      modifies this`phase
      ensures Valid()
      ensures old(phase).Processing? && old(phase).number < EndOf(old(phase).section, sectionSize) ==>
        var n := old(phase).number;
        phase == if n in canonical && canonical[n].parent == old(phase).lastHead
                 then old(phase).(number := n + 1, lastHead := Of(canonical[n])) else Failed
      ensures !(old(phase).Processing? && old(phase).number < EndOf(old(phase).section, sectionSize)) ==>
          phase == old(phase)
      ensures old(WithinKnown()) ==> WithinKnown()
      ensures old(Ahead()) ==> Ahead()
    {
      if phase.Processing? && phase.number < EndOf(phase.section, sectionSize) {
        if phase.number !in canonical || canonical[phase.number].parent != phase.lastHead {
          phase := Failed;
        } else {
          phase := Processing(phase.section, phase.oldHead, phase.number + 1, Of(canonical[phase.number]));
        }
      }
    }

    /** Once the whole section was read the backend commits it. */
    method BackendCommit(ok: bool)
      requires Valid()
      modifies this`phase
      ensures Valid()
      ensures phase == if old(phase).Processing? && old(phase).number == EndOf(old(phase).section, sectionSize)
                       then if ok then Processed(old(phase).section, old(phase).oldHead, old(phase).lastHead) else Failed
                       else old(phase)
      ensures old(WithinKnown()) ==> WithinKnown()
      ensures old(Ahead()) ==> Ahead()
    {
      if phase.Processing? && phase.number == EndOf(phase.section, sectionSize) {
        SectionLength(phase.section, sectionSize);
        phase := if ok then Processed(phase.section, phase.oldHead, phase.lastHead) else Failed;
      }
    }

    /** With the lock again: the section is recorded if the head before it is still the one it was started from. */
    method Finish()
      requires Valid()
      modifies this`phase, this`storedSections, this`knownSections, this`heads
      ensures Valid()
      ensures old(phase).Processed? || old(phase).Failed? ==> phase == Idle
      ensures !(old(phase).Processed? || old(phase).Failed?) ==>
        phase == old(phase) && storedSections == old(storedSections) && knownSections == old(knownSections)
            && heads == old(heads)
      ensures old(phase).Processed? && old(storedSections) == old(phase).section ==>
        && storedSections == old(phase).section + 1 && knownSections == old(knownSections)
        && heads == old(heads)[old(phase).section := old(phase).newHead]
      ensures old(phase).Failed? || (old(phase).Processed? && old(storedSections) != old(phase).section) ==>
        knownSections == storedSections == old(storedSections) && heads == old(heads)
      ensures old(WithinKnown()) ==> (WithinKnown() <==> !old(Overtaking()))
      ensures old(Ahead()) ==> Ahead() && !old(Overtaking())
    {
      hide HeadsLinked, InProgress, Links, EndOf;
      HeadsBelow(heads, storedSections, sectionSize);
      if phase.Processed? {
        HeadTells(phase, heads, storedSections, sectionSize);
        var head := SectionHead(Pred(phase.section));
        if phase.oldHead == head {
          OneMoreSection(heads, storedSections, sectionSize, phase.newHead);
          heads := heads[phase.section := phase.newHead];
          ghost var recorded := heads;
          SetValidSections(phase.section + 1);
          assert heads == recorded;
        } else {
          knownSections := storedSections;
        }
        phase := Idle;
        IdleInProgress(heads, storedSections, sectionSize);
      } else if phase.Failed? {
        knownSections := storedSections;
        phase := Idle;
        IdleInProgress(heads, storedSections, sectionSize);
      }
    }

    /** The section about to be recorded ends in a block that is no longer the one that was read. */
    ghost predicate Late(seen: map<nat, Block>, chain: map<nat, Block>)
      requires sectionSize > 0
      reads this`storedSections, this`phase
    {
      phase.Processed? && storedSections == phase.section && !SameAt(seen, chain, EndOf(phase.section, sectionSize) - 1)
    }

    /** The section about to be recorded has a head that is not canonical. */
    ghost predicate Straying(chain: map<nat, Block>)
      reads this`storedSections, this`phase
    {
      phase.Processed? && storedSections == phase.section && !Canonical(chain, phase.newHead)
    }

    /** A section's head is not canonical exactly if its number was given to another block since it was read. */
    lemma StrayingIffLate(seen: map<nat, Block>, chain: map<nat, Block>)
      requires Valid() && WellNumbered(seen) && LastRead(phase, seen, sectionSize)
      ensures Straying(chain) <==> Late(seen, chain)
      ensures chain == seen ==> !Late(seen, chain)
      ensures phase.Processed? ==>
        phase.newHead.Of? && phase.newHead.block.number == EndOf(phase.section, sectionSize) - 1 >= 0
    {
    }

    /** A step other than another chain becoming canonical. */
    method Take(step: Step, chain: map<nat, Block>, ghost seen: map<nat, Block>) returns (ghost seen': map<nat, Block>)
      requires Valid() && (step.Head? ==> step.head < MAX_UINT64) && WellNumbered(chain) && !step.Switch?
      requires WellNumbered(seen) && LastRead(phase, seen, sectionSize)
      modifies this
      ensures Valid() && WellNumbered(seen') && LastRead(phase, seen', sectionSize)
      ensures seen' == chain || seen' == seen
      ensures Did(Fixed(), step, old(At(chain)), At(chain))
      ensures forall s | s in heads ::
                || (s in old(heads) && heads[s] == old(heads)[s])
                || (step.Conclude? && old(phase).Processed? && old(storedSections) == old(phase).section == s
                    && heads[s] == old(phase).newHead)
      ensures step.Head? && step.reorg ==> forall s | s in heads :: heads[s].Of? && heads[s].block.number < step.head
      ensures old(WithinKnown()) ==> (WithinKnown() <==> !(step.Conclude? && old(Overtaking())))
      ensures old(Ahead()) && !(step.Head? && step.reorg) ==> Ahead() && !(step.Conclude? && old(Overtaking()))
    {
      hide HeadsLinked, InProgress;
      seen' := seen;
      match step {
        case Head(head, reorg) =>
          ghost var m := At(chain);
          NewHead(head, reorg);
          HeadNotified(Fixed(), head, reorg, m, At(chain));
          if reorg {
            HeadsUpTo(heads, storedSections, sectionSize, head);
          }
        case Tick => Begin();
        case Reset(ok) =>
          BackendReset(ok);
        case Read =>
          if phase.Processing? && phase.number < EndOf(phase.section, sectionSize) {
            seen' := chain;
          }
          ProcessNext(chain);
        case Commit(ok) =>
          ghost var was := phase;
          if was.Processing? {
            SectionLength(was.section, sectionSize);
          }
          BackendCommit(ok);
        case Conclude => Finish();
      }
    }

    /**
      Any interleaving of steps, of which `trail` tells what each did, keeps the recorded heads linked and none above the
      stored sections. Stored sections stay within the known ones throughout (`within`) exactly if no section was recorded
      while it was overtaking the known ones (`overtook`), which takes a reorganization.

      A section's head was not canonical when it was recorded (`strayed`) exactly if its last number had been given to
      another block since it was read (`late`). All recorded heads are canonical on the chain of the end, but for those,
      and for numbers that changed since the indexer was last notified of a reorganization at or below them (`owed`).
     */
    method Run(steps: seq<Step>, start: map<nat, Block>)
      returns (ghost within: bool, ghost overtook: bool, chain: map<nat, Block>, ghost owed: set<nat>,
               ghost strayed: set<nat>, ghost late: set<nat>, ghost trail: seq<Instant>)
      requires Valid() && WellNumbered(start) && LastRead(phase, start, sectionSize)
      requires forall step | step in steps :: (step.Head? ==> step.head < MAX_UINT64) && (step.Switch? ==>
          WellNumbered(step.canonical))
      modifies this
      ensures Valid()
      ensures Trail(Fixed(), steps, trail) && trail[0] == old(At(start)) && trail[|steps|] == At(chain)
      ensures old(WithinKnown()) ==> (within <==> !overtook) && (within ==> WithinKnown())
      ensures old(WithinKnown()) && old(Ahead()) && (forall step | step in steps :: !(step.Head? && step.reorg)) ==> within
      ensures strayed == late && WellNumbered(chain)
      ensures old(CanonicalBut(heads, start, {})) ==> CanonicalBut(heads, chain, owed + late)
      ensures (forall step | step in steps :: !step.Switch?) ==> owed == late == {} && chain == start
    {
      hide EndOf, Late, Overtaking, Ahead, Trail, Did, HeadsLinked, InProgress, LastRead, CanonicalBut, WellNumbered,
        Changed, Canonical, SameAt;
      within, overtook := WithinKnown(), false;
      owed, strayed, late := {}, {}, {};
      ghost var seen := start;
      chain := start;
      ghost var inOrder := CanonicalBut(heads, start, {});
      assert owed + late == {};
      trail := [At(start)];
      TrailStarts(Fixed(), At(start));
      for i := 0 to |steps|
        invariant Valid() && WellNumbered(chain) && WellNumbered(seen) && LastRead(phase, seen, sectionSize)
        invariant |trail| == i + 1 && trail[0] == old(At(start)) && trail[i] == At(chain) && Trail(Fixed(), steps[..i], trail)
        invariant old(WithinKnown()) ==> (within <==> !overtook) && (within ==> WithinKnown())
        invariant old(WithinKnown()) && old(Ahead()) && (forall step | step in steps :: !(step.Head? && step.reorg)) ==>
          within && Ahead()
        invariant strayed == late && (inOrder ==> CanonicalBut(heads, chain, owed + late))
        invariant (forall step | step in steps :: !step.Switch?) ==> owed == late == {} && chain == start == seen
      {
        var step := steps[i];
        assert step in steps;
        if step.Switch? {
          SwitchExcuses(heads, chain, step.canonical, owed, late);
          owed := owed + Changed(chain, step.canonical);
          chain := step.canonical;
          SwitchDone(Fixed(), step, trail[i], At(chain));
        } else {
          if step.Conclude? && Overtaking() {
            overtook := true;
          }
          StrayingIffLate(seen, chain);
          ghost var was, owing, lateBefore := heads, owed, late;
          ghost var recorded := if step.Conclude? && phase.Processed? && storedSections == phase.section
                                then Some(phase.newHead) else None;
          if step.Conclude? && Straying(chain) {
            strayed := strayed + {phase.newHead.block.number};
          }
          if step.Conclude? && Late(seen, chain) {
            late := late + {EndOf(phase.section, sectionSize) - 1};
          }
          seen := Take(step, chain, seen);
          if step.Head? && step.reorg {
            owed := set n | n in owed && n < step.head;
          }
          if inOrder {
            StillCanonical(was, heads, chain, owing, owed, lateBefore, late, recorded);
          }
          within := within && WithinKnown();
        }
        TrailNext(Fixed(), steps, trail, i, At(chain));
        trail := trail + [At(chain)];
      }
      assert steps[..|steps|] == steps;
    }
  }

  lemma SwitchDone(c: Setup, step: Step, m: Instant, n: Instant)
    requires step.Switch? && n == m.(chain := step.canonical)
    ensures Did(c, step, m, n)
  {
  }

  lemma SwitchExcuses(heads: map<nat, BlockHash>, chain: map<nat, Block>, next: map<nat, Block>, owed: set<nat>,
                      late: set<nat>)
    ensures CanonicalBut(heads, chain, owed + late) ==> CanonicalBut(heads, next, owed + Changed(chain, next) + late)
  {
  }

  /** What stays recorded needs no new excuse, and what is newly recorded is canonical or late. */
  lemma StillCanonical(was: map<nat, BlockHash>, now: map<nat, BlockHash>, chain: map<nat, Block>, owed: set<nat>,
                       owed': set<nat>, late: set<nat>, late': set<nat>, recorded: Option<BlockHash>)
    requires CanonicalBut(was, chain, owed + late) && late <= late'
    requires forall s | s in now :: (s in was && now[s] == was[s]) || recorded == Some(now[s])
    requires recorded.Some? && !Canonical(chain, recorded.value) ==>
      recorded.value.Of? && recorded.value.block.number in late'
    requires forall s | s in now && now[s].Of? && now[s].block.number in owed :: now[s].block.number in owed'
    ensures CanonicalBut(now, chain, owed' + late')
  {
  }

  /** Below a section's start there are only earlier sections' heads. */
  lemma HeadsUpTo(heads: map<nat, BlockHash>, stored: nat, size: nat, head: nat)
    requires size > 0 && HeadsLinked(heads, stored, size) && stored <= head / size
    ensures forall s | s in heads :: heads[s].Of? && heads[s].block.number < head
  {
    forall s | s in heads
      ensures heads[s].Of? && heads[s].block.number < head
    {
      EndBelow(s, size, head);
    }
  }

  lemma EndBelow(s: nat, size: nat, head: nat)
    requires size > 0 && s < head / size
    ensures EndOf(s, size) <= head
  {
    var q := head / size;
    assert q * size <= head;
    assert (s + 1) * size <= q * size;
  }

  lemma QuotientSmall(a: nat, b: nat)
    requires b > 0
    ensures 0 <= a / b <= a
  {
    var q := a / b;
    assert q * b <= a;
    SectionLength(q, b - 1);
    assert q * b == q * (b - 1) + q;
  }

  lemma SectionLength(section: nat, size: nat)
    ensures EndOf(section, size) == StartOf(section, size) + size && StartOf(section, size) >= 0
  {
  }

  lemma FewerSections(was: map<nat, BlockHash>, now: map<nat, BlockHash>, had: nat, stored: nat, size: nat, phase: Phase)
    requires HeadsLinked(was, had, size) && stored < had && InProgress(phase, was, had, size)
    requires now == map s | s in was && s < stored :: was[s]
    ensures HeadsLinked(now, stored, size) && InProgress(phase, now, stored, size)
  {
  }

  lemma HeadsBelow(heads: map<nat, BlockHash>, stored: nat, size: nat)
    requires HeadsLinked(heads, stored, size)
    ensures forall s: nat :: s in heads <==> s < stored
  {
  }

  /** The head before a processed section is the one it was started from exactly if the section is still the next one. */
  lemma HeadTells(phase: Phase, heads: map<nat, BlockHash>, stored: nat, size: nat)
    requires HeadsLinked(heads, stored, size) && InProgress(phase, heads, stored, size) && phase.Processed?
    ensures phase.section < MAX_UINT64
    ensures var before := Pred(phase.section);
      phase.oldHead == (if before in heads then heads[before] else NoHash) <==> stored == phase.section
    ensures phase.newHead.Of? && phase.newHead.block.number + 1 == EndOf(phase.section, size)
    ensures stored == phase.section ==> Links(HeadBefore(heads, stored), phase.newHead, size)
  {
    hide Links, EndOf;
  }

  /** Nothing is in progress while idle. */
  lemma IdleInProgress(heads: map<nat, BlockHash>, stored: nat, size: nat)
    ensures InProgress(Idle, heads, stored, size)
  {
  }

  lemma OneMoreSection(heads: map<nat, BlockHash>, stored: nat, size: nat, newHead: BlockHash)
    requires HeadsLinked(heads, stored, size) && newHead.Of? && newHead.block.number + 1 == EndOf(stored, size)
    requires Links(HeadBefore(heads, stored), newHead, size)
    ensures HeadsLinked(heads[stored := newHead], stored + 1, size)
  {
    hide Links, EndOf, HeadBefore;
    var more := heads[stored := newHead];
    forall s: nat | s < stored + 1
      ensures more[s].Of? && more[s].block.number + 1 == EndOf(s, size) && Links(HeadBefore(more, s), more[s], size)
    {
      BeforeSame(heads, stored, newHead, s);
    }
  }

  lemma BeforeSame(heads: map<nat, BlockHash>, stored: nat, newHead: BlockHash, s: nat)
    requires s <= stored
    ensures HeadBefore(heads[stored := newHead], s) == HeadBefore(heads, s)
  {
  }

  /** How many blocks so many sections have. */
  function SectionsLength(sections: nat, size: nat): nat {
    if sections == 0 then 0 else SectionsLength(sections - 1, size) + size
  }

  lemma LinkedToPrevious(heads: map<nat, BlockHash>, stored: nat, size: nat, t: nat)
    requires HeadsLinked(heads, stored, size) && 0 < t < stored
    ensures t in heads && t - 1 in heads && Links(heads[t - 1], heads[t], size)
  {
  }

  lemma StoredHead(heads: map<nat, BlockHash>, stored: nat, size: nat, t: nat)
    requires HeadsLinked(heads, stored, size) && t < stored
    ensures t in heads && Links(heads[t], heads[t], 0)
  {
  }

  /** All recorded section heads lie on one chain. */
  lemma {:induction false} OneChain(heads: map<nat, BlockHash>, stored: nat, size: nat, s: nat, t: nat)
    requires HeadsLinked(heads, stored, size) && s <= t < stored
    ensures s in heads && t in heads && Links(heads[s], heads[t], SectionsLength(t - s, size))
    decreases t
  {
    hide HeadsLinked, Links;
    StoredHead(heads, stored, size, t);
    if s < t {
      LinkedToPrevious(heads, stored, size, t);
      OneChain(heads, stored, size, s, t - 1);
      LinksTrans(heads[s], heads[t - 1], heads[t], SectionsLength(t - 1 - s, size), size);
    }
  }

  /** Every block is the child of the one below it, down to genesis. */
  ghost predicate ChainLinked(chain: map<nat, Block>) {
    && WellNumbered(chain)
    && forall n | n in chain ::
         if n == 0 then chain[n].parent == NoHash else n - 1 in chain && chain[n].parent == Of(chain[n - 1])
  }

  lemma {:induction false} AncestorsCanonical(chain: map<nat, Block>, low: BlockHash, high: BlockHash, k: nat)
    requires ChainLinked(chain) && Canonical(chain, high) && Links(low, high, k) && low.Of?
    ensures Canonical(chain, low)
    decreases k
  {
    if k > 0 {
      var n := high.block.number;
      assert n > 0 && high.block.parent == Of(chain[n - 1]) && chain[n - 1].number == n - 1;
      AncestorsCanonical(chain, low, high.block.parent, k - 1);
    }
  }

  /** The recorded heads are canonical, all of them, exactly if the newest one is. */
  lemma AllCanonicalIff(heads: map<nat, BlockHash>, stored: nat, size: nat, chain: map<nat, Block>)
    requires HeadsLinked(heads, stored, size) && stored > 0 && ChainLinked(chain)
    ensures stored - 1 in heads
    ensures CanonicalBut(heads, chain, {}) <==> Canonical(chain, heads[stored - 1])
  {
    hide Canonical, Links;
    StoredHead(heads, stored, size, stored - 1);
    if Canonical(chain, heads[stored - 1]) {
      forall s | s in heads
        ensures Canonical(chain, heads[s])
      {
        OneChain(heads, stored, size, s, stored - 1);
        AncestorsCanonical(chain, heads[s], heads[stored - 1], SectionsLength(stored - 1 - s, size));
      }
    }
  }

  /** The blocks of one section, from number 0 on, each the parent of the next. */
  ghost predicate FirstSection(section: seq<Block>, size: nat) {
    && |section| == size > 0
    && forall i | 0 <= i < size :: section[i].number == i && section[i].parent == BlockBefore(section, i)
  }

  function BlockBefore(section: seq<Block>, i: nat): BlockHash
    requires i <= |section|
  {
    if i == 0 then NoHash else Of(section[i - 1])
  }

  /** A reorganization during processing can leave more sections stored than known, with an abandoned block as head. */
  method ReorgWhileProcessing(section: seq<Block>) returns (indexer: ChainIndexer)
    requires FirstSection(section, |section|) && |section| < MAX_UINT64
    ensures indexer.Valid() && indexer.storedSections == 1 && indexer.knownSections == 0
    ensures 0 in indexer.heads && indexer.heads[0] == Of(section[|section| - 1])
  {
    hide HeadsLinked, InProgress, Links, StartOf, EndOf, FirstSection;
    SomeSection(section);
    OneSection(|section|);
    indexer := new ChainIndexer(|section|, 0);
    indexer.NewHead(|section| - 1, false);
    indexer.Begin();
    indexer.BackendReset(true);
    for i := 0 to |section|
      invariant indexer.Valid() && indexer.storedSections == 0 && indexer.sectionSize == |section|
      invariant indexer.phase == Processing(0, NoHash, i, if i == 0 then NoHash else Of(section[i - 1]))
    {
      var canonical: map<nat, Block> := map[i := section[i]];
      BlockOfSection(section, i);
      assert i < EndOf(0, indexer.sectionSize);
      indexer.ProcessNext(canonical);
      assert section[i + 1 - 1] == canonical[i];
    }
    indexer.NewHead(0, true);
    indexer.BackendCommit(true);
    indexer.Finish();
  }

  lemma SomeSection(section: seq<Block>)
    requires FirstSection(section, |section|)
    ensures |section| > 0
  {
  }

  lemma BlockOfSection(section: seq<Block>, i: nat)
    requires FirstSection(section, |section|) && i < |section|
    ensures section[i].number == i && section[i].parent == if i == 0 then NoHash else Of(section[i - 1])
  {
  }

  lemma OneSection(size: nat)
    requires size > 0
    ensures size / size == 1 && 0 / size == 0 && EndOf(0, size) == size && StartOf(0, size) == 0
  {
  }
}
