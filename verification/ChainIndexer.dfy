/**
 The section indexer.  It indexes the canonical chain in sections of equal size, processing a section with its
 lock released while the chain may be reorganised and stored sections may be rolled back.  Before it starts on a
 section it compares only the newest stored section head with the chain.
 */
module ChainIndexers {
  import opened Options
  import opened Ancestry
  import opened HeaderChains

  /** Following `k` parent links from the stored header `to` leads, over stored headers only, to `from`. */
  ghost predicate Chained(hs: Headers, from: Hash, to: Hash, k: nat)
    decreases k
  {
    if k == 0 then from == to else to in hs && Chained(hs, from, hs[to].parent, k - 1)
  }

  /** The hash of the last block before section `i`, as the section heads have it. */
  ghost function Before(heads: map<nat, Hash>, i: nat): Hash {
    if i > 0 && i - 1 in heads then heads[i - 1] else EMPTY_HASH
  }

  /** Section `i` ends at its head, which is `size` blocks after the head of the section before. */
  ghost predicate Linked(hs: Headers, heads: map<nat, Hash>, i: nat, size: nat) {
    && i in heads && heads[i] in hs && hs[heads[i]].number + 1 == (i + 1) * size
    && (i > 0 ==> i - 1 in heads) && Chained(hs, Before(heads, i), heads[i], size)
  }

  /**
   The stored section heads: nothing beyond the count, a newest one, and links above the checkpoint, which may be empty.
   */
  ghost predicate SectionsOk(hs: Headers, heads: map<nat, Hash>, stored: nat, checkpoint: nat, size: nat) {
    && EMPTY_HASH !in hs
    && (forall i :: i in heads ==> i < stored)
    && (stored > 0 ==> stored - 1 in heads)
    && (forall i :: checkpoint <= i < stored ==> Linked(hs, heads, i, size))
  }

  /** From `base` on, the index is gapless and linked by parent hashes. */
  ghost predicate IndexOk(hs: Headers, canonical: map<nat, Hash>, base: nat) {
    && (forall n :: n in canonical ==> canonical[n] in hs && hs[canonical[n]].number == n)
    && (forall n :: n in canonical && n > base ==> n - 1 in canonical && hs[canonical[n]].parent == canonical[n - 1])
  }

  lemma {:induction false} ChainedIsStable(hs: Headers, hs': Headers, from: Hash, to: Hash, k: nat)
    requires Chained(hs, from, to, k) && forall h :: h in hs ==> h in hs' && hs'[h] == hs[h]
    ensures Chained(hs', from, to, k)
    decreases k
  {
    if k > 0 {
      ChainedIsStable(hs, hs', from, hs[to].parent, k - 1);
    }
  }

  /** Following parent links along the canonical chain stays on it. */
  lemma {:induction false} ChainedOnIndex(hs: Headers, canonical: map<nat, Hash>, base: nat, from: Hash, n: nat, k: nat)
    requires IndexOk(hs, canonical, base) && n in canonical && Chained(hs, from, canonical[n], k) && base + k <= n
    ensures n - k in canonical && canonical[n - k] == from
    decreases k
  {
    if k > 0 {
      assert n - 1 in canonical;
      ChainedOnIndex(hs, canonical, base, from, n - 1, k - 1);
    }
  }

  lemma Times(i: nat, size: nat)
    requires size > 0
    ensures (i + 1) * size == i * size + size && i * size >= i && (i + 1) * size > i
  {
  }

  /** Division gives the greatest number of whole sections. */
  lemma MostSections(blocks: nat, size: nat)
    requires size > 0
    ensures (blocks / size) * size <= blocks
    ensures forall k: nat :: k * size <= blocks ==> k <= blocks / size
  {
    forall k: nat | k * size <= blocks
      ensures k <= blocks / size
    {
      if k > blocks / size {
        TimesMonotone(blocks / size + 1, k, size);
        Times(blocks / size, size);
      }
    }
  }

  lemma NoSections(head: nat, confirms: nat, size: nat)
    requires size > 0
    ensures head < confirms ==> forall k: nat :: k * size + confirms <= head + 1 ==> k == 0
  {
    forall k: nat | head < confirms && k * size + confirms <= head + 1
      ensures k == 0
    {
      if k > 0 {
        TimesMonotone(1, k, size);
      }
    }
  }

  lemma {:induction false} TimesMonotone(i: nat, j: nat, size: nat)
    requires i <= j
    ensures i * size <= j * size
  {
    assert j * size == i * size + (j - i) * size;
  }

  /** If the newest section head above the checkpoint is canonical, all of them are. */
  lemma {:induction false} NewestDecides(hs: Headers, canonical: map<nat, Hash>, base: nat, heads: map<nat, Hash>,
                                         stored: nat, checkpoint: nat, size: nat, i: nat)
    requires SectionsOk(hs, heads, stored, checkpoint, size) && size > 0 && checkpoint <= i < stored
    requires IndexOk(hs, canonical, base) && base < (checkpoint + 1) * size
    requires OnChain(canonical, heads, stored - 1, size)
    ensures OnChain(canonical, heads, i, size)
    decreases stored - i
  {
    if i < stored - 1 {
      NewestDecides(hs, canonical, base, heads, stored, checkpoint, size, i + 1);
      assert Linked(hs, heads, i + 1, size) && Linked(hs, heads, i, size);
      Times(i + 1, size);
      Times(i, size);
      TimesMonotone(checkpoint + 1, i + 1, size);
      ChainedOnIndex(hs, canonical, base, heads[i], (i + 2) * size - 1, size);
    }
  }

  /** The head of section `i` is the canonical block at the end of the section. */
  ghost predicate OnChain(canonical: map<nat, Hash>, heads: map<nat, Hash>, i: nat, size: nat) {
    i in heads && (i + 1) * size > 0 && ReadCanonical(canonical, (i + 1) * size - 1) == heads[i]
  }

  /**
   A section being processed: from `oldHead`, the headers before `number` have been read, the last of them `lastHead`.
   */
  datatype Job = Running(section: nat, oldHead: Hash, lastHead: Hash, number: nat) | Failed(section: nat, oldHead: Hash)

  ghost predicate JobOk(hs: Headers, heads: map<nat, Hash>, checkpoint: nat, job: Job, size: nat) {
    && (job.section == 0 ==> job.oldHead == EMPTY_HASH)
    && (job.Running? && job.section > 0 && job.oldHead == EMPTY_HASH ==>
       job.section <= checkpoint && job.section - 1 in heads)
    && (job.Running? ==>
          && job.section * size <= job.number <= (job.section + 1) * size
          && Chained(hs, job.oldHead, job.lastHead, job.number - job.section * size)
          && (job.number > job.section * size ==> job.lastHead in hs && hs[job.lastHead].number + 1 == job.number))
  }

  /** What a change of the chain may do: store more headers, and re-route the canonical index. */
  ghost predicate Grows(hs: Headers, hs': Headers) {
    && EMPTY_HASH !in hs' && (forall h :: h in hs ==> h in hs' && hs'[h] == hs[h])
    && (forall h :: h in hs' ==> hs'[h].hash == h)
  }

  /** The hash before block `n` on the chain, which is empty for the genesis. */
  function LastBefore(canonical: map<nat, Hash>, n: nat): Hash {
    if n == 0 then EMPTY_HASH else ReadCanonical(canonical, n - 1)
  }

  /** The chain has the blocks from one number up to another, each a child of the one before. */
  ghost predicate StandsFrom(hs: Headers, canonical: map<nat, Hash>, from: nat, to: nat) {
    forall n :: from <= n < to ==>
      && n in canonical && canonical[n] in hs && hs[canonical[n]].number == n
      && hs[canonical[n]].parent == LastBefore(canonical, n)
  }

  lemma StandsLater(hs: Headers, canonical: map<nat, Hash>, from: nat, later: nat, to: nat)
    requires StandsFrom(hs, canonical, from, to) && from <= later
    ensures StandsFrom(hs, canonical, later, to)
  {
  }

  function Min(a: nat, b: nat): nat {
    if a < b then a else b
  }

  function Max(a: nat, b: nat): nat {
    if a < b then b else a
  }

  /** What can happen to an indexer, in any order; events that do not apply in the current state are skipped. */
  datatype Event =
    | Chain(headers: Headers, canonical: map<nat, Hash>)
    | Head(head: nat, reorg: bool)
    | Checkpoint(section: nat, shead: Hash)
    | Begin
    | RefuseSection
    | Process(accepted: bool)
    | RefuseCommit
    | End
    | Verify

  /** The new database still has all headers of the old one. */
  method StillThere(hs: Headers, hs': Headers) returns (grows: bool)
    ensures grows <==> Grows(hs, hs')
  {
    grows := EMPTY_HASH !in hs' && (forall h :: h in hs ==> h in hs' && hs'[h] == hs[h])
      && (forall h :: h in hs' ==> hs'[h].hash == h);
  }

  class ChainIndexer {
    const sectionSize: nat
    const confirmsReq: nat
    var storedSections: nat
    var knownSections: nat
    var cascadedHead: int
    var checkpointSections: nat
    var checkpointHead: Hash
    var heads: map<nat, Hash>      // section heads in the index database
    var job: Option<Job>           // the section the update loop is processing, if any
    var headers: Headers           // chain database, changed by others
    var canonical: map<nat, Hash>  // chain database, changed by others

    ghost predicate Valid()
      reads this
    {
      && sectionSize > 0 && (forall h :: h in headers ==> headers[h].hash == h)
      && SectionsOk(headers, heads, storedSections, checkpointSections, sectionSize)
      && (job.Some? ==> JobOk(headers, heads, checkpointSections, job.value, sectionSize))
    }

    function SectionHead(section: nat): Hash
      reads this
    {
      if section in heads then heads[section] else EMPTY_HASH
    }

    constructor (sectionSize: nat, confirmsReq: nat, headers: Headers, canonical: map<nat, Hash>)
      requires sectionSize > 0 && EMPTY_HASH !in headers && forall h :: h in headers ==> headers[h].hash == h
      ensures Valid() && storedSections == 0 && job == None
    {
      this.sectionSize, this.confirmsReq, this.headers, this.canonical := sectionSize, confirmsReq, headers, canonical;
      storedSections, knownSections, cascadedHead, checkpointSections, checkpointHead := 0, 0, 0, 0, EMPTY_HASH;
      heads, job := map[], None;
    }

    /** The chain stores headers and may be reorganised at any time. */
    method ChainChanges(headers': Headers, canonical': map<nat, Hash>)
      requires Valid() && Grows(headers, headers')
      modifies `headers, `canonical
      ensures Valid() && headers == headers' && canonical == canonical'
    {
      GrowthKeepsSections(headers, headers', heads, storedSections, checkpointSections, sectionSize);
      if job.Some? && job.value.Running? {
        ChainedIsStable(headers, headers', job.value.oldHead, job.value.lastHead,
                        job.value.number - job.value.section * sectionSize);
      }
      headers, canonical := headers', canonical';
    }

    /** Sets the number of valid sections, removing the heads of sections beyond it. */
    method SetValidSections(sections: nat)
      requires forall i :: i in heads ==> i < storedSections || i < sections
      modifies `heads, `storedSections
      ensures storedSections == sections
      ensures forall i :: i in heads <==> i in old(heads) && i < sections
      ensures forall i :: i in heads ==> heads[i] == old(heads)[i]
    {
      while storedSections > sections
        invariant forall i :: i in heads <==> i in old(heads) && (i < storedSections || i < sections)
        invariant forall i :: i in heads ==> heads[i] == old(heads)[i]
        decreases storedSections
      {
        storedSections := storedSections - 1;
        heads := heads - {storedSections};
      }
      storedSections := sections;
    }

    /** Takes a trusted section head from outside, unless the local index is already there. */
    method AddCheckpoint(section: nat, shead: Hash)
      requires Valid()
      modifies `heads, `storedSections, `checkpointSections, `checkpointHead
      ensures Valid()
      ensures
        if old(checkpointSections) > section || section < old(storedSections)
        then heads == old(heads) && storedSections == old(storedSections)
             && checkpointSections == old(checkpointSections)
        else storedSections == checkpointSections == section + 1 && checkpointHead == shead
             && SectionHead(section) == shead
    {
      if checkpointSections >= section + 1 || section < storedSections {
        return;
      }
      checkpointSections, checkpointHead := section + 1, shead;
      heads := heads[section := shead];
      SetValidSections(section + 1);
    }

    /** Rolls back sections until the newest one is canonical; then all those above the checkpoint are. */
    method VerifyLastHead(ghost base: nat)
      requires Valid()
      modifies `heads, `storedSections
      ensures Valid() && storedSections <= old(storedSections)
      ensures forall i :: i in heads <==> i in old(heads) && i < storedSections
      ensures forall i :: i in heads ==> heads[i] == old(heads)[i]
      ensures storedSections > checkpointSections ==> OnChain(canonical, heads, storedSections - 1, sectionSize)
      ensures forall i :: storedSections <= i < old(storedSections) ==> !OnChain(canonical, old(heads), i, sectionSize)
      ensures IndexOk(headers, canonical, base) && base < (checkpointSections + 1) * sectionSize ==>
                forall i :: checkpointSections <= i < storedSections ==> OnChain(canonical, heads, i, sectionSize)
      ensures storedSections < old(storedSections) ==> storedSections >= checkpointSections
    {
      while storedSections > 0 && storedSections > checkpointSections
        invariant Valid() && storedSections <= old(storedSections)
        invariant forall i :: i in heads <==> i in old(heads) && i < storedSections
        invariant forall i :: i in heads ==> heads[i] == old(heads)[i]
        invariant forall i :: storedSections <= i < old(storedSections) ==>
                    !OnChain(canonical, old(heads), i, sectionSize)
        invariant storedSections < old(storedSections) ==> storedSections >= checkpointSections
        decreases storedSections
      {
        Times(storedSections - 1, sectionSize);
        assert Linked(headers, heads, storedSections - 1, sectionSize);
        if SectionHead(storedSections - 1) == ReadCanonical(canonical, storedSections * sectionSize - 1) {
          assert OnChain(canonical, heads, storedSections - 1, sectionSize);
          if IndexOk(headers, canonical, base) && base < (checkpointSections + 1) * sectionSize {
            forall i | checkpointSections <= i < storedSections ensures OnChain(canonical, heads, i, sectionSize) {
              NewestDecides(headers, canonical, base, heads, storedSections, checkpointSections, sectionSize, i);
            }
          }
          return;
        }
        GiveUp(storedSections - 1);
      }
    }

    /** Removes the sections from `stored` on, which is not below the checkpoint. */
    method GiveUp(stored: nat)
      requires Valid() && checkpointSections <= stored < storedSections
      modifies `heads, `storedSections
      ensures Valid() && storedSections == stored
      ensures forall i :: i in heads <==> i in old(heads) && i < stored
      ensures forall i :: i in heads ==> heads[i] == old(heads)[i]
    {
      SetValidSections(stored);
      RollbackKeepsSections(headers, old(heads), old(storedSections), checkpointSections, sectionSize, stored, heads);
    }

    /** A new chain head, or the point a reorganisation went back to.  Returns what children are told, if anything. */
    method NewHead(head: nat, reorg: bool) returns (told: Option<(int, bool)>)
      requires Valid()
      modifies `knownSections, `storedSections, `heads, `cascadedHead
      ensures Valid() && (forall i :: i in heads ==> i in old(heads) && heads[i] == old(heads)[i])
      ensures reorg ==> storedSections == Min(old(storedSections), Max((head + 1) / sectionSize, checkpointSections))
      ensures reorg ==>
                knownSections ==
                  Min(old(knownSections), if (head + 1) / sectionSize < checkpointSections then 0
                    else (head + 1) / sectionSize)
      ensures reorg ==>
                var end := (if (head + 1) / sectionSize < checkpointSections then 0
                  else (head + 1) / sectionSize) * sectionSize;
                if end < old(cascadedHead) then cascadedHead == end && told == Some((end, true))
                else cascadedHead == old(cascadedHead) && told == None
      ensures !reorg ==>
                && heads == old(heads) && storedSections == old(storedSections) && cascadedHead == old(cascadedHead)
                && told == None
      ensures !reorg ==> knownSections >= old(knownSections)
      ensures !reorg && knownSections != old(knownSections) ==>
                knownSections >= checkpointSections && knownSections * sectionSize + confirmsReq <= head + 1
      ensures !reorg && old(knownSections) < checkpointSections <= knownSections ==>
                ReadCanonical(canonical, checkpointSections * sectionSize - 1) == checkpointHead
      ensures !reorg && (|| old(knownSections) >= checkpointSections
                         || ReadCanonical(canonical, checkpointSections * sectionSize - 1) == checkpointHead) ==>
                forall k :: k >= checkpointSections && k * sectionSize + confirmsReq <= head + 1 ==> knownSections >= k
    {
      hide SectionsOk, JobOk;
      told := None;
      if reorg {
        var known := (head + 1) / sectionSize;
        var stored := known;
        if known < checkpointSections {
          known := 0;
        }
        if stored < checkpointSections {
          stored := checkpointSections;
        }
        if known < knownSections {
          knownSections := known;
        }
        if stored < storedSections {
          GiveUp(stored);
        }
        if known * sectionSize < cascadedHead {
          cascadedHead := known * sectionSize;
          told := Some((cascadedHead, true));
        }
        return;
      }
      Confirm(head);
    }

    /** A new head may confirm more sections; when that passes the checkpoint, the chain must have its head. */
    method Confirm(head: nat)
      requires sectionSize > 0
      modifies `knownSections
      ensures knownSections >= old(knownSections)
      ensures knownSections != old(knownSections) ==>
                knownSections >= checkpointSections && knownSections * sectionSize + confirmsReq <= head + 1
      ensures old(knownSections) < checkpointSections <= knownSections ==>
                ReadCanonical(canonical, checkpointSections * sectionSize - 1) == checkpointHead
      ensures (|| old(knownSections) >= checkpointSections
               || ReadCanonical(canonical, checkpointSections * sectionSize - 1) == checkpointHead) ==>
                forall k :: k >= checkpointSections && k * sectionSize + confirmsReq <= head + 1 ==> knownSections >= k
    {
      Times(checkpointSections, sectionSize);
      if head >= confirmsReq {
        var sections := (head + 1 - confirmsReq) / sectionSize;
        if sections < checkpointSections {
          sections := 0;
        }
        if sections > knownSections {
          if knownSections < checkpointSections {
            if ReadCanonical(canonical, checkpointSections * sectionSize - 1) != checkpointHead {
              return;
            }
          }
          knownSections := sections;
        }
        MostSections(head + 1 - confirmsReq, sectionSize);
      }
      NoSections(head, confirmsReq, sectionSize);
    }

    /** The update loop picks the next section, if there is one, and releases the lock. */
    method BeginUpdate(ghost base: nat)
      requires Valid() && job == None
      modifies `heads, `storedSections, `job
      ensures Valid()
      ensures job.Some? <==> old(knownSections) > old(storedSections)
      ensures job == None ==> heads == old(heads) && storedSections == old(storedSections)
      ensures storedSections <= old(storedSections)
      ensures storedSections < old(storedSections) ==> storedSections >= checkpointSections
      ensures forall i :: i in heads <==> i in old(heads) && i < storedSections
      ensures forall i :: i in heads ==> heads[i] == old(heads)[i]
      ensures forall i :: storedSections <= i < old(storedSections) ==> !OnChain(canonical, old(heads), i, sectionSize)
      ensures job.Some? && storedSections > checkpointSections ==>
                OnChain(canonical, heads, storedSections - 1, sectionSize)
      ensures job.Some? ==>
                var before := if storedSections > 0 then SectionHead(storedSections - 1) else EMPTY_HASH;
                job == Some(Running(storedSections, before, before, storedSections * sectionSize))
      ensures IndexOk(headers, canonical, base) && base < (checkpointSections + 1) * sectionSize && job.Some? ==>
                forall i :: checkpointSections <= i < storedSections ==> OnChain(canonical, heads, i, sectionSize)
    {
      if knownSections > storedSections {
        VerifyLastHead(base);
        var oldHead := if storedSections > 0 then SectionHead(storedSections - 1) else EMPTY_HASH;
        Times(storedSections, sectionSize);
        assert storedSections > checkpointSections ==> Linked(headers, heads, storedSections - 1, sectionSize);
        job := Some(Running(storedSections, oldHead, oldHead, storedSections * sectionSize));
      }
    }

    /** The backend refuses to start on a section; without holding the lock, all sections are given up. */
    method ResetFails()
      requires Valid() && job.Some? && job.value.Running?
      modifies `heads, `storedSections, `job
      ensures Valid() && storedSections == 0 && heads == map[]
      ensures job == Some(Failed(old(job).value.section, old(job).value.oldHead))
    {
      SetValidSections(0);
      job := Some(Failed(job.value.section, job.value.oldHead));
    }

    /** Reads one header of the section, against whatever the canonical chain is at that moment. */
    method ProcessHeader(accepted: bool)
      requires Valid() && job.Some? && job.value.Running? && job.value.number < (job.value.section + 1) * sectionSize
      modifies `job
      ensures Valid()
      ensures
        var j := old(job).value;
        var header := ReadHeader(headers, ReadCanonical(canonical, j.number), j.number);
        if header.Some? && header.value.parent == j.lastHead && accepted
        then job == Some(j.(lastHead := ReadCanonical(canonical, j.number), number := j.number + 1))
        else job == Some(Failed(j.section, j.oldHead))
    {
      var j := job.value;
      var hash := ReadCanonical(canonical, j.number);
      var header := ReadHeader(headers, hash, j.number);
      if hash == EMPTY_HASH || header == None || header.value.parent != j.lastHead || !accepted {
        job := Some(Failed(j.section, j.oldHead));
        return;
      }
      assert Chained(headers, j.oldHead, hash, j.number + 1 - j.section * sectionSize);
      job := Some(j.(lastHead := header.value.hash, number := j.number + 1));
    }

    /** The backend fails to commit the section. */
    method CommitFails()
      requires Valid() && job.Some?
      modifies `job
      ensures Valid() && job == Some(Failed(old(job).value.section, old(job).value.oldHead))
    {
      job := Some(Failed(job.value.section, job.value.oldHead));
    }

    /** The section in work has been read successfully, and the section before it is still stored as it was. */
    predicate StartsFromStored()
      reads this
    {
      && job.Some? && job.value.Running?
      && (job.value.section == 0 || job.value.oldHead == SectionHead(job.value.section - 1))
    }

    /**
     The update loop has the lock again.  If processing succeeded and the section before is still the one it
     started from, the section is stored; else the newest sections are checked again.
     */
    method EndUpdate(ghost base: nat) returns (told: Option<(int, bool)>)
      requires Valid() && job.Some?
      requires job.value.Running? ==> job.value.number == (job.value.section + 1) * sectionSize
      modifies `heads, `storedSections, `knownSections, `cascadedHead, `job
      ensures Valid() && job == None
      ensures told.Some? <==> old(StartsFromStored())
      ensures told.Some? ==>
                && storedSections == old(job).value.section + 1 && knownSections == old(knownSections)
                && heads.Keys == (set i | i in old(heads) && i < storedSections) + {storedSections - 1}
                && heads[storedSections - 1] == old(job).value.lastHead
                && (forall i :: i in heads && i < storedSections - 1 ==> heads[i] == old(heads)[i])
                && cascadedHead == storedSections * sectionSize - 1 && told.value == (cascadedHead, false)
      ensures told == None ==>
                && knownSections == storedSections <= old(storedSections) && cascadedHead == old(cascadedHead)
                && (forall i :: i in heads <==> i in old(heads) && i < storedSections)
                && (forall i :: i in heads ==> heads[i] == old(heads)[i])
                && (storedSections > checkpointSections ==> OnChain(canonical, heads, storedSections - 1, sectionSize))
    {
      var j := job.value;
      job := None;
      if j.Running? && (j.section == 0 || j.oldHead == SectionHead(j.section - 1)) {
        Times(j.section, sectionSize);
        ghost var heads0, stored0 := heads, storedSections;
        heads := heads[j.section := j.lastHead];
        SetValidSections(j.section + 1);
        CompletionKeepsSections(headers, heads0, stored0, checkpointSections, sectionSize, j, heads);
        cascadedHead := storedSections * sectionSize - 1;
        told := Some((cascadedHead, false));
      } else {
        VerifyLastHead(base);
        knownSections := storedSections;
        told := None;
      }
    }

    // ----- a chain that stands still -----

    /** The section that the chain must agree with: the newest one, or that of the checkpoint if it is lower. */
    function Anchor(): nat
      reads `storedSections, `checkpointSections
    {
      Min(storedSections, checkpointSections)
    }

    ghost predicate Anchored()
      reads `storedSections, `checkpointSections, `heads, `canonical
    {
      Anchor() > 0 ==> OnChain(canonical, heads, Anchor() - 1, sectionSize)
    }

    /** Starts on the next section; whatever was stored and is not canonical has gone before. */
    method StartSection()
      requires Valid() && job == None && knownSections > storedSections && Anchored()
      modifies `heads, `storedSections, `job
      ensures Valid() && Anchored() && Anchor() == old(Anchor()) && storedSections <= old(storedSections)
      ensures old(NewestOnChain()) ==> storedSections == old(storedSections)
      ensures NewestOnChain()
      ensures
        var last := LastBefore(canonical, storedSections * sectionSize);
        job == Some(Running(storedSections, last, last, storedSections * sectionSize))
    {
      BeginUpdate(0);
      Times(storedSections, sectionSize);
      if storedSections > 0 {
        Times(storedSections - 1, sectionSize);
      }
    }

    /** The newest stored section is canonical. */
    ghost predicate NewestOnChain()
      reads `storedSections, `heads, `canonical
    {
      storedSections > 0 ==> OnChain(canonical, heads, storedSections - 1, sectionSize)
    }

    /** Reads all headers of the section. */
    method ReadSection(ghost to: nat)
      requires Valid() && job.Some? && job.value.Running? && job.value.number == job.value.section * sectionSize
      requires job.value.oldHead == job.value.lastHead == LastBefore(canonical, job.value.number)
      requires StandsFrom(headers, canonical, job.value.number, to) && (job.value.section + 1) * sectionSize <= to
      modifies `job
      ensures Valid()
      ensures
        var section, end := old(job).value.section, (old(job).value.section + 1) * sectionSize;
        job == Some(Running(section, old(job).value.oldHead, LastBefore(canonical, end), end))
    {
      hide SectionsOk;
      ghost var j := job.value;
      Times(j.section, sectionSize);
      while job.value.number < (job.value.section + 1) * sectionSize
        invariant Valid() && job.Some? && job.value.Running? && job.value.section == j.section
        invariant j.number <= job.value.number <= (j.section + 1) * sectionSize
        invariant job.value.oldHead == j.oldHead && job.value.lastHead == LastBefore(canonical, job.value.number)
        decreases (j.section + 1) * sectionSize - job.value.number
      {
        ProcessHeader(true);
      }
    }

    /** On a chain that stands still, the next section is stored. */
    method IndexSection(ghost to: nat)
      requires Valid() && job == None && knownSections > storedSections && Anchored()
      requires StandsFrom(headers, canonical, Anchor() * sectionSize, to) && knownSections * sectionSize <= to
      modifies `heads, `storedSections, `knownSections, `cascadedHead, `job
      ensures Valid() && job == None && knownSections == old(knownSections) >= storedSections > 0
      ensures Anchored() && Anchor() >= old(Anchor()) && NewestOnChain()
      ensures old(NewestOnChain()) ==> storedSections == old(storedSections) + 1
    {
      hide Valid, Anchored, NewestOnChain, StandsFrom;
      SizeIsPositive();
      StartSection();
      TimesMonotone(Anchor(), storedSections, sectionSize);
      TimesMonotone(storedSections + 1, knownSections, sectionSize);
      StandsLater(headers, canonical, Anchor() * sectionSize, storedSections * sectionSize, to);
      ReadSection(to);
      StoreSection();
    }

    lemma SizeIsPositive()
      requires Valid()
      ensures sectionSize > 0
    {
    }

    /** Stores the section that has been read from the newest one on. */
    method StoreSection()
      requires Valid() && Anchored() && NewestOnChain() && job.Some?
      requires
        var start, end := storedSections * sectionSize, (storedSections + 1) * sectionSize;
        job == Some(Running(storedSections, LastBefore(canonical, start), LastBefore(canonical, end), end))
      modifies `heads, `storedSections, `knownSections, `cascadedHead, `job
      ensures Valid() && job == None && knownSections == old(knownSections)
      ensures Anchored() && Anchor() >= old(Anchor()) && NewestOnChain() && storedSections == old(storedSections) + 1
    {
      hide SectionsOk, JobOk;
      Times(storedSections, sectionSize);
      if storedSections > 0 {
        Times(storedSections - 1, sectionSize);
      }
      var told := EndUpdate(0);
    }

    /** On a chain that stands still, an indexer can be led to store every known section. */
    method CatchUp(ghost to: nat)
      requires Valid() && job == None && Anchored()
      requires StandsFrom(headers, canonical, Anchor() * sectionSize, to) && knownSections * sectionSize <= to
      modifies `heads, `storedSections, `knownSections, `cascadedHead, `job
      ensures Valid() && job == None && knownSections == old(knownSections) <= storedSections
      ensures old(knownSections) > old(storedSections) ==> storedSections == knownSections && NewestOnChain()
    {
      hide Valid, Anchored, NewestOnChain, StandsFrom;
      if knownSections <= storedSections {
        return;
      }
      IndexSection(to);
      while knownSections > storedSections
        invariant Valid() && job == None && Anchored() && NewestOnChain()
        invariant knownSections == old(knownSections) >= storedSections && Anchor() >= old(Anchor())
        decreases knownSections - storedSections
      {
        TimesMonotone(old(Anchor()), Anchor(), sectionSize);
        StandsLater(headers, canonical, old(Anchor()) * sectionSize, Anchor() * sectionSize, to);
        IndexSection(to);
      }
    }

    /** A new head of a chain that stands still leads to all sections that it confirms. */
    method Follow(head: nat)
      requires Valid() && job == None && Anchored()
      requires || knownSections >= checkpointSections
               || ReadCanonical(canonical, checkpointSections * sectionSize - 1) == checkpointHead
      requires StandsFrom(headers, canonical, Anchor() * sectionSize, Max(head + 1, knownSections * sectionSize))
      modifies `heads, `storedSections, `knownSections, `cascadedHead, `job
      ensures Valid() && job == None
      ensures forall k :: k >= checkpointSections && k * sectionSize + confirmsReq <= head + 1 ==> storedSections >= k
    {
      hide SectionsOk, JobOk, StandsFrom, OnChain;
      ghost var known, to := knownSections, Max(head + 1, knownSections * sectionSize);
      var told := NewHead(head, false);
      assert knownSections == known || knownSections * sectionSize <= head + 1;
      CatchUp(to);
    }

    /** One event; those that cannot happen now are passed over. */
    method Handle(event: Event)
      requires Valid()
      modifies this
      ensures Valid()
      ensures event.Chain? && Grows(old(headers), event.headers) ==>
                headers == event.headers && canonical == event.canonical
      ensures event.Head? && event.reorg ==> knownSections <= (event.head + 1) / sectionSize
      ensures event.Head? && !event.reorg && old(knownSections) >= checkpointSections ==>
                forall k :: k >= checkpointSections && k * sectionSize + confirmsReq <= event.head + 1 ==>
                              knownSections >= k
      ensures event.Checkpoint? && event.section >= old(checkpointSections) && event.section >= old(storedSections) ==>
                storedSections == checkpointSections == event.section + 1 && checkpointHead == event.shead
      ensures event.Begin? && old(job) == None ==> (job.Some? <==> old(knownSections) > old(storedSections))
      ensures event.RefuseSection? && old(Reading()) ==> job.Some? && job.value.Failed? && storedSections == 0
      ensures event.Process? && old(Reading()) && old(job).value.number < (old(job).value.section + 1) * sectionSize ==>
                job.Some? && (job.value.Running? ==> job.value.number == old(job).value.number + 1 && event.accepted)
      ensures event.RefuseCommit? && old(job).Some? ==> job.Some? && job.value.Failed?
      ensures event.End? && old(job).Some?
              && (old(job).value.Failed? || old(job).value.number == (old(job).value.section + 1) * sectionSize) ==>
                job == None && (old(StartsFromStored()) ==> storedSections == old(job).value.section + 1)
      ensures event.Verify? && storedSections > checkpointSections ==>
                OnChain(canonical, heads, storedSections - 1, sectionSize)
    {
      hide SectionsOk, JobOk, Grows, OnChain;
      match event {
        case Chain(headers', canonical') =>
          var grows := StillThere(headers, headers');
          if grows {
            ChainChanges(headers', canonical');
          }
        case Head(head, reorg) => var _ := NewHead(head, reorg);
        case Checkpoint(section, shead) => AddCheckpoint(section, shead);
        case Begin => if job == None { BeginUpdate(0); }
        case RefuseSection => if Reading() { ResetFails(); }
        case Process(accepted) =>
          if Reading() && job.value.number < (job.value.section + 1) * sectionSize {
            ProcessHeader(accepted);
          }
        case RefuseCommit => if job.Some? { CommitFails(); }
        case End =>
          if job.Some? && (job.value.Failed? || job.value.number == (job.value.section + 1) * sectionSize) {
            var _ := EndUpdate(0);
          }
        case Verify => VerifyLastHead(0);
      }
    }

    /** A section is in work. */
    predicate Reading()
      reads `job
    {
      job.Some? && job.value.Running?
    }

    /**
     Any interleaving of chain changes, head events, checkpoints and steps of the update loop keeps the section heads
     linked.
     */
    method Run(events: seq<Event>)
      requires Valid()
      modifies this
      ensures Valid()
      ensures events != [] && events[|events| - 1].Verify? && storedSections > checkpointSections ==>
                OnChain(canonical, heads, storedSections - 1, sectionSize)
    {
      hide SectionsOk, JobOk, OnChain;
      for k := 0 to |events|
        invariant Valid()
        invariant k > 0 && events[k - 1].Verify? && storedSections > checkpointSections ==>
                    OnChain(canonical, heads, storedSections - 1, sectionSize)
      {
        Handle(events[k]);
      }
    }
  }

  lemma GrowthKeepsSections(hs: Headers, hs': Headers, heads: map<nat, Hash>, stored: nat, checkpoint: nat, size: nat)
    requires SectionsOk(hs, heads, stored, checkpoint, size) && Grows(hs, hs')
    ensures SectionsOk(hs', heads, stored, checkpoint, size)
  {
    forall i | checkpoint <= i < stored ensures Linked(hs', heads, i, size) {
      assert Linked(hs, heads, i, size);
      ChainedIsStable(hs, hs', Before(heads, i), heads[i], size);
    }
  }

  /** Removing the newest sections keeps the others linked. */
  lemma RollbackKeepsSections(hs: Headers, heads: map<nat, Hash>, stored: nat, checkpoint: nat, size: nat,
                              sections: nat, heads': map<nat, Hash>)
    requires SectionsOk(hs, heads, stored, checkpoint, size) && checkpoint <= sections < stored
    requires forall i :: i in heads' <==> i in heads && i < sections
    requires forall i :: i in heads' ==> heads'[i] == heads[i]
    ensures SectionsOk(hs, heads', sections, checkpoint, size)
  {
    assert Linked(hs, heads, sections, size);
    forall i | checkpoint <= i < sections ensures Linked(hs, heads', i, size) {
      assert Linked(hs, heads, i, size);
    }
  }

  /** Storing a section that was processed from the head of the section before keeps the sections linked. */
  lemma CompletionKeepsSections(hs: Headers, heads: map<nat, Hash>, stored: nat, checkpoint: nat, size: nat, job: Job,
                                heads': map<nat, Hash>)
    requires SectionsOk(hs, heads, stored, checkpoint, size) && size > 0
    requires job.Running? && JobOk(hs, heads, checkpoint, job, size) && job.number == (job.section + 1) * size
    requires job.section > 0 ==> job.section - 1 in heads && heads[job.section - 1] == job.oldHead
    requires forall i :: i in heads' <==> (i in heads || i == job.section) && i <= job.section
    requires forall i :: i in heads' ==> heads'[i] == if i == job.section then job.lastHead else heads[i]
    ensures SectionsOk(hs, heads', job.section + 1, checkpoint, size)
  {
    Times(job.section, size);
    forall i | checkpoint <= i < job.section + 1 ensures Linked(hs, heads', i, size) {
      if i < job.section {
        assert Linked(hs, heads, i, size);
        assert Before(heads', i) == Before(heads, i);
      } else {
        assert Before(heads', i) == job.oldHead;
      }
    }
  }
}
