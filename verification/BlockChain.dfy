/**
 The block chain: fork choice between blocks, the rewriting of the canonical index and of the transaction
 lookup during a reorganisation.
 */
module BlockChains {
  import opened Options
  import opened Ancestry
  import opened HeaderChains

  type TxId = nat
  type Bodies = map<Hash, seq<TxId>>

  /** `chain` are the stored blocks from `top` down to, but without, `b`. */
  ghost predicate Descends(hs: Headers, top: Header, chain: seq<Header>, b: Header) {
    && b.hash in hs && hs[b.hash] == b && b.hash == Ancestor(hs, top.hash, |chain|) && b.number + |chain| == top.number
    && (forall i :: 0 <= i < |chain| ==>
          chain[i].hash in hs && hs[chain[i].hash] == chain[i] && chain[i].hash == Ancestor(hs, top.hash, i)
            && chain[i].number == top.number - i)
  }

  lemma DescendStep(hs: Headers, top: Header, chain: seq<Header>, b: Header, next: Header)
    requires EMPTY_HASH !in hs && Descends(hs, top, chain, b) && ReadHeader(hs, b.parent, b.number - 1) == Some(next)
    requires next.hash == b.parent
    ensures Descends(hs, top, chain + [b], next)
  {
    AncestorsCompose(hs, top.hash, |chain|, 1);
    assert Ancestor(hs, b.hash, 1) == Ancestor(hs, hs[b.hash].parent, 0);
  }

  /** Two branches and the block they fork from; `newChain` starts with the new head, `oldChain` with the old one. */
  datatype Fork = Fork(common: Header, oldChain: seq<Header>, newChain: seq<Header>, deleted: seq<TxId>)

  /** The transactions of the blocks in `chain`. */
  ghost predicate Contains(bodies: Bodies, chain: seq<Header>, tx: TxId) {
    exists i :: 0 <= i < |chain| && chain[i].hash in bodies && tx in bodies[chain[i].hash]
  }

  lemma ContainsMore(bodies: Bodies, chain: seq<Header>, b: Header, tx: TxId)
    ensures Contains(bodies, chain + [b], tx) <==>
              Contains(bodies, chain, tx) || (b.hash in bodies && tx in bodies[b.hash])
  {
    var more := chain + [b];
    if Contains(bodies, more, tx) {
      var i :| 0 <= i < |more| && more[i].hash in bodies && tx in bodies[more[i].hash];
      assert i < |chain| ==> chain[i] == more[i];
    }
    if Contains(bodies, chain, tx) {
      var i :| 0 <= i < |chain| && chain[i].hash in bodies && tx in bodies[chain[i].hash];
      assert more[i] == chain[i];
    }
    assert more[|chain|] == b;
  }

  /** Where the branch from `newTop` leaves the branch to `oldTop`. */
  ghost predicate ForksFrom(hs: Headers, bodies: Bodies, oldTop: Header, newTop: Header, f: Fork) {
    && Descends(hs, oldTop, f.oldChain, f.common) && Descends(hs, newTop, f.newChain, f.common)
    && OffPath(hs, oldTop, f.newChain)
    && (forall tx :: tx in f.deleted <==> Contains(bodies, f.oldChain, tx))
  }

  /** Databases that are keyed by the hashes of what they store. */
  ghost predicate KeyedByHash(hs: Headers, bodies: Bodies) {
    EMPTY_HASH !in hs && bodies.Keys == hs.Keys && forall h :: h in hs ==> hs[h].hash == h
  }

  ghost predicate Stored(hs: Headers, b: Header) {
    b.hash in hs && hs[b.hash] == b
  }

  /** Follows parent links from `top` down to a block with the given number, collecting blocks and transactions. */
  method WalkDown(hs: Headers, bodies: Bodies, top: Header, number: nat, ghost g: Hash)
    returns (chain: seq<Header>, deleted: seq<TxId>, block: Option<Header>)
    requires KeyedByHash(hs, bodies) && Stored(hs, top) && number <= top.number
    ensures block.Some? ==> Descends(hs, top, chain, block.value) && block.value.number == number
    ensures forall tx :: tx in deleted <==> Contains(bodies, chain, tx)
    ensures block == None ==> !Rooted(hs, g)
  {
    chain, deleted, block := [], [], Some(top);
    assert Ancestor(hs, top.hash, 0) == top.hash;
    while block.Some? && block.value.number != number
      invariant block.Some? ==> Descends(hs, top, chain, block.value) && block.value.number >= number
      invariant forall tx :: tx in deleted <==> Contains(bodies, chain, tx)
      invariant block == None ==> !Rooted(hs, g)
      decreases block.Some?, if block.Some? then block.value.number else 0
    {
      var b := block.value;
      forall tx ensures tx in deleted + bodies[b.hash] <==> Contains(bodies, chain + [b], tx) {
        ContainsMore(bodies, chain, b, tx);
      }
      deleted := deleted + bodies[b.hash];
      block := ReadHeader(hs, b.parent, b.number - 1);
      ParentIsStored(hs, g, b);
      if block.Some? {
        DescendStep(hs, top, chain, b, block.value);
      }
      chain := chain + [b];
    }
  }

  lemma ParentIsStored(hs: Headers, g: Hash, b: Header)
    requires Stored(hs, b) && b.number > 0
    ensures Rooted(hs, g) ==> ReadHeader(hs, b.parent, b.number - 1).Some?
  {
    if Rooted(hs, g) {
      assert Sound(hs, g, b.hash);
    }
  }

  /** Two branches of the same height, walked back together until they meet. */
  method WalkBoth(hs: Headers, bodies: Bodies, oldTop: Header, newTop: Header, old0: Header, new0: Header,
                  oldChain0: seq<Header>, newChain0: seq<Header>, deleted0: seq<TxId>, ghost g: Hash)
    returns (fork: Option<Fork>)
    requires KeyedByHash(hs, bodies) && old0.number == new0.number
    requires Descends(hs, oldTop, oldChain0, old0) && Descends(hs, newTop, newChain0, new0)
    requires forall tx :: tx in deleted0 <==> Contains(bodies, oldChain0, tx)
    requires forall i :: 0 <= i < |newChain0| ==> newChain0[i].number > oldTop.number
    ensures fork.Some? ==> ForksFrom(hs, bodies, oldTop, newTop, fork.value)
    ensures fork == None ==> !Rooted(hs, g)
  {
    var oldBlock, newBlock, oldChain, newChain, deleted := old0, new0, oldChain0, newChain0, deleted0;
    while oldBlock.hash != newBlock.hash
      invariant oldBlock.number == newBlock.number
      invariant Descends(hs, oldTop, oldChain, oldBlock) && Descends(hs, newTop, newChain, newBlock)
      invariant forall tx :: tx in deleted <==> Contains(bodies, oldChain, tx)
      invariant OffPath(hs, oldTop, newChain)
      decreases oldBlock.number
    {
      forall tx ensures tx in deleted + bodies[oldBlock.hash] <==> Contains(bodies, oldChain + [oldBlock], tx) {
        ContainsMore(bodies, oldChain, oldBlock, tx);
      }
      assert OffPath(hs, oldTop, newChain + [newBlock]);
      deleted := deleted + bodies[oldBlock.hash];
      SameHeightMeet(hs, g, oldBlock, newBlock);
      var oldNext := ReadHeader(hs, oldBlock.parent, oldBlock.number - 1);
      if oldNext == None {
        return None;
      }
      var newNext := ReadHeader(hs, newBlock.parent, newBlock.number - 1);
      if newNext == None {
        return None;
      }
      DescendStep(hs, oldTop, oldChain, oldBlock, oldNext.value);
      DescendStep(hs, newTop, newChain, newBlock, newNext.value);
      oldChain, newChain := oldChain + [oldBlock], newChain + [newBlock];
      oldBlock, newBlock := oldNext.value, newNext.value;
    }
    return Some(Fork(oldBlock, oldChain, newChain, deleted));
  }

  /** No block of `chain` is on the path to `oldTop`. */
  ghost predicate OffPath(hs: Headers, oldTop: Header, chain: seq<Header>) {
    forall i :: 0 <= i < |chain| && chain[i].number <= oldTop.number ==>
      chain[i].hash != Ancestor(hs, oldTop.hash, oldTop.number - chain[i].number)
  }

  /** In a rooted database, different blocks of the same height have parents. */
  lemma SameHeightMeet(hs: Headers, g: Hash, a: Header, b: Header)
    requires Stored(hs, a) && Stored(hs, b) && a.number == b.number && a.hash != b.hash
    ensures Rooted(hs, g) ==>
              ReadHeader(hs, a.parent, a.number - 1).Some? && ReadHeader(hs, b.parent, b.number - 1).Some?
  {
    if Rooted(hs, g) {
      assert Sound(hs, g, a.hash) && Sound(hs, g, b.hash);
    }
  }

  /** Where the branch to `newTop` leaves the branch to `oldTop`; fails if a block is missing on the way. */
  method FindFork(hs: Headers, bodies: Bodies, oldTop: Header, newTop: Header, ghost g: Hash)
    returns (fork: Option<Fork>)
    requires KeyedByHash(hs, bodies) && Stored(hs, oldTop) && Stored(hs, newTop)
    ensures fork.Some? ==> ForksFrom(hs, bodies, oldTop, newTop, fork.value)
    ensures fork == None ==> !Rooted(hs, g)
  {
    hide KeyedByHash;
    var oldChain, newChain, deleted, oldBlock, newBlock := [], [], [], Some(oldTop), Some(newTop);
    assert Ancestor(hs, oldTop.hash, 0) == oldTop.hash && Ancestor(hs, newTop.hash, 0) == newTop.hash;
    if oldTop.number > newTop.number {
      oldChain, deleted, oldBlock := WalkDown(hs, bodies, oldTop, newTop.number, g);
    } else {
      var ignored;
      newChain, ignored, newBlock := WalkDown(hs, bodies, newTop, oldTop.number, g);
    }
    if oldBlock == None || newBlock == None {
      return None;
    }
    fork := WalkBoth(hs, bodies, oldTop, newTop, oldBlock.value, newBlock.value, oldChain, newChain, deleted, g);
  }

  // ----- the indexes a head implies -----

  /** Transaction `tx` is in the block with number `n` on the path to `head`. */
  ghost predicate InBlock(hs: Headers, bodies: Bodies, head: Hash, tx: TxId, n: nat) {
    head in hs && n <= hs[head].number && At(hs, head, n) in bodies && tx in bodies[At(hs, head, n)]
  }

  /** Transaction `tx` is in a block with a number above `lo` and up to `hi` on the path to `head`. */
  ghost predicate InBranch(hs: Headers, bodies: Bodies, head: Hash, tx: TxId, lo: nat, hi: nat) {
    exists n: nat :: lo < n <= hi && InBlock(hs, bodies, head, tx, n)
  }

  /** The lookup is exactly the transactions on the path to `head`, each with the number of its block. */
  ghost predicate LooksUp(hs: Headers, bodies: Bodies, lookup: map<TxId, nat>, head: Hash) {
    && (forall tx, n :: InBlock(hs, bodies, head, tx, n) ==> tx in lookup && lookup[tx] == n)
    && (forall tx :: tx in lookup ==> InBlock(hs, bodies, head, tx, lookup[tx]))
  }

  /** No transaction occurs in two blocks of the path to `head`. */
  ghost predicate Once(hs: Headers, bodies: Bodies, head: Hash) {
    forall tx, n, m :: InBlock(hs, bodies, head, tx, n) && InBlock(hs, bodies, head, tx, m) ==> n == m
  }

  /** Up to the number of `head`, the index is the path to `head`. */
  ghost predicate IndexesUpTo(hs: Headers, canonical: map<nat, Hash>, head: Hash) {
    head in hs && forall n: nat :: n <= hs[head].number ==> n in canonical && canonical[n] == At(hs, head, n)
  }

  /** `c` is `c0` with the numbers above `lo` and up to `hi` rewritten to the path of `head`. */
  ghost predicate Rewritten(hs: Headers, head: Hash, lo: nat, hi: nat, c0: map<nat, Hash>, c: map<nat, Hash>) {
    && (forall n: nat :: n in c <==> n in c0 || lo < n <= hi)
    && (forall n: nat :: n in c ==> c[n] == if lo < n <= hi then At(hs, head, n) else c0[n])
  }

  /** `l` is `l0` with the transactions in blocks above `lo` and up to `hi` relabeled to the path of `head`. */
  ghost predicate Relabeled(hs: Headers, bodies: Bodies, head: Hash, lo: nat, hi: nat, l0: map<TxId, nat>,
                            l: map<TxId, nat>) {
    && (forall tx, n :: lo < n <= hi && InBlock(hs, bodies, head, tx, n) ==> tx in l && l[tx] == n)
    && (forall tx :: !InBranch(hs, bodies, head, tx, lo, hi) ==>
          (tx in l <==> tx in l0) && (tx in l ==> l[tx] == l0[tx]))
  }

  function Labels(txs: seq<TxId>, n: nat): map<TxId, nat> {
    map tx | tx in txs :: n
  }

  lemma NoLabels(l: map<TxId, nat>, n: nat)
    ensures l + Labels([], n) == l
  {
  }

  lemma LabelStep(l: map<TxId, nat>, txs: seq<TxId>, i: nat, n: nat)
    requires i < |txs|
    ensures (l + Labels(txs[..i], n))[txs[i] := n] == l + Labels(txs[..i + 1], n)
  {
    assert txs[..i + 1] == txs[..i] + [txs[i]];
  }

  /** Writing the next block of a branch extends what is rewritten and relabeled. */
  lemma RelabelStep(hs: Headers, bodies: Bodies, head: Hash, lo: nat, hi: nat, l0: map<TxId, nat>, l: map<TxId, nat>,
                    b: Header)
    requires Once(hs, bodies, head) && Relabeled(hs, bodies, head, lo, hi, l0, l)
    requires head in hs && lo <= hi < hs[head].number && b.hash == At(hs, head, hi + 1) && b.hash in bodies
    ensures Relabeled(hs, bodies, head, lo, hi + 1, l0, l + Labels(bodies[b.hash], hi + 1))
  {
    hide Once;
    var l' := l + Labels(bodies[b.hash], hi + 1);
    forall tx, n: nat | lo < n <= hi + 1 && InBlock(hs, bodies, head, tx, n) ensures tx in l' && l'[tx] == n {
      if n <= hi && tx in bodies[b.hash] {
        SameBlock(hs, bodies, head, tx, n, hi + 1);
      }
    }
    forall tx | !InBranch(hs, bodies, head, tx, lo, hi + 1)
      ensures (tx in l' <==> tx in l0) && (tx in l' ==> l'[tx] == l0[tx])
    {
      assert !InBlock(hs, bodies, head, tx, hi + 1);
      assert !InBranch(hs, bodies, head, tx, lo, hi);
    }
  }

  lemma SameBlock(hs: Headers, bodies: Bodies, head: Hash, tx: TxId, n: nat, m: nat)
    requires Once(hs, bodies, head) && InBlock(hs, bodies, head, tx, n) && InBlock(hs, bodies, head, tx, m)
    ensures n == m
  {
  }

  /** `common` is on both paths. */
  ghost predicate Joins(hs: Headers, g: Hash, oldHead: Hash, newHead: Hash, common: nat) {
    && Rooted(hs, g) && oldHead in hs && newHead in hs && common <= hs[oldHead].number && common <= hs[newHead].number
    && At(hs, oldHead, common) == At(hs, newHead, common)
  }

  lemma JoinedBelow(hs: Headers, g: Hash, oldHead: Hash, newHead: Hash, common: nat, n: nat)
    requires Joins(hs, g, oldHead, newHead, common) && n <= common
    ensures At(hs, oldHead, n) == At(hs, newHead, n)
  {
    AtOfAncestor(hs, g, oldHead, common, n);
    AtOfAncestor(hs, g, newHead, common, n);
  }

  /**
     After the abandoned branch is unlabeled and the new one labeled, the lookup is that of the new head:
     `added` are the transactions labeled before the unlabeling, the new head's own come last.
   */
  lemma LookupSwitches(hs: Headers, bodies: Bodies, g: Hash, oldHead: Hash, newHead: Hash, common: nat, hi: nat,
                       l0: map<TxId, nat>, l1: map<TxId, nat>, dead: set<TxId>)
    requires Joins(hs, g, oldHead, newHead, common) && common <= hi <= hs[newHead].number <= hi + 1 && newHead in bodies
    requires LooksUp(hs, bodies, l0, oldHead) && Once(hs, bodies, newHead)
    requires Relabeled(hs, bodies, newHead, common, hi, l0, l1)
    requires forall tx :: tx in dead <==>
               && InBranch(hs, bodies, oldHead, tx, common, hs[oldHead].number)
               && !InBranch(hs, bodies, newHead, tx, common, hi)
    ensures LooksUp(hs, bodies, (l1 - dead) + Labels(bodies[newHead], hs[newHead].number), newHead)
  {
    var top := hs[newHead].number;
    var l := (l1 - dead) + Labels(bodies[newHead], top);
    AtIsStored(hs, g, newHead, top);
    forall tx, n: nat | InBlock(hs, bodies, newHead, tx, n) ensures tx in l && l[tx] == n {
      if n < top && InBlock(hs, bodies, newHead, tx, top) {
        SameBlock(hs, bodies, newHead, tx, n, top);
      }
      if n <= common {
        JoinedBelow(hs, g, oldHead, newHead, common, n);
        StillLabeled(hs, bodies, oldHead, newHead, common, hi, l0, tx, n);
      }
    }
    forall tx | tx in l ensures InBlock(hs, bodies, newHead, tx, l[tx]) {
      if !InBlock(hs, bodies, newHead, tx, top) {
        LabeledBefore(hs, bodies, g, oldHead, newHead, common, hi, l0, l1, dead, tx);
      }
    }
  }

  /** A transaction below the fork is neither unlabeled nor relabeled. */
  lemma StillLabeled(hs: Headers, bodies: Bodies, oldHead: Hash, newHead: Hash, common: nat, hi: nat,
                     l0: map<TxId, nat>, tx: TxId, n: nat)
    requires LooksUp(hs, bodies, l0, oldHead) && Once(hs, bodies, newHead)
    requires InBlock(hs, bodies, newHead, tx, n) && InBlock(hs, bodies, oldHead, tx, n) && n <= common && oldHead in hs
    ensures tx in l0 && l0[tx] == n
    ensures !InBranch(hs, bodies, oldHead, tx, common, hs[oldHead].number)
    ensures !InBranch(hs, bodies, newHead, tx, common, hi)
  {
  }

  lemma LabeledBefore(hs: Headers, bodies: Bodies, g: Hash, oldHead: Hash, newHead: Hash, common: nat, hi: nat,
                      l0: map<TxId, nat>, l1: map<TxId, nat>, dead: set<TxId>, tx: TxId)
    requires Joins(hs, g, oldHead, newHead, common) && common <= hi <= hs[newHead].number
    requires LooksUp(hs, bodies, l0, oldHead) && Relabeled(hs, bodies, newHead, common, hi, l0, l1)
    requires forall tx :: tx in dead <==>
               && InBranch(hs, bodies, oldHead, tx, common, hs[oldHead].number)
               && !InBranch(hs, bodies, newHead, tx, common, hi)
    requires tx in l1 && tx !in dead
    ensures InBlock(hs, bodies, newHead, tx, l1[tx])
  {
    if InBranch(hs, bodies, newHead, tx, common, hi) {
      var n: nat :| common < n <= hi && InBlock(hs, bodies, newHead, tx, n);
    } else {
      var n := l0[tx];
      assert InBlock(hs, bodies, oldHead, tx, n);
      assert n <= common;
      JoinedBelow(hs, g, oldHead, newHead, common, n);
    }
  }

  /** Deleting a run of numbers above `from`, which ends at the first number without an entry. */
  ghost predicate Trimmed(c0: map<nat, Hash>, c: map<nat, Hash>, from: nat, stop: nat) {
    && from < stop && stop !in c0 && (forall n: nat :: from < n < stop ==> n in c0)
    && (forall n: nat :: n in c <==> n in c0 && !(from < n < stop)) && (forall n: nat :: n in c ==> c[n] == c0[n])
  }

  /** After a reorganisation and the new head, the index below the new head is its path. */
  lemma IndexSwitches(hs: Headers, g: Hash, oldHead: Hash, newHead: Hash, common: nat, hi: nat,
                      c0: map<nat, Hash>, c1: map<nat, Hash>, c2: map<nat, Hash>, from: nat, stop: nat)
    requires Joins(hs, g, oldHead, newHead, common) && common <= hi <= hs[newHead].number <= hi + 1
    requires IndexesUpTo(hs, c0, oldHead) && Rewritten(hs, newHead, common, hi, c0, c1) && Trimmed(c1, c2, from, stop)
    requires from >= hi
    ensures IndexesUpTo(hs, c2[hs[newHead].number := newHead], newHead)
  {
    var c := c2[hs[newHead].number := newHead];
    AtIsStored(hs, g, newHead, hs[newHead].number);
    forall n: nat | n <= hs[newHead].number ensures n in c && c[n] == At(hs, newHead, n) {
      if n <= common {
        JoinedBelow(hs, g, oldHead, newHead, common, n);
      }
    }
  }

  /** No number is missing below one that has an entry. */
  ghost predicate DownClosed(c: map<nat, Hash>) {
    forall n: nat, m: nat :: n in c && m <= n ==> m in c
  }

  /** Deleting the run above `from` deletes everything above it. */
  lemma TrimmedAll(c0: map<nat, Hash>, c: map<nat, Hash>, from: nat, stop: nat)
    requires DownClosed(c0) && Trimmed(c0, c, from, stop)
    ensures forall n: nat :: n in c <==> n in c0 && n <= from
  {
  }

  /**
     Whatever was above the old head, the index becomes exactly the path to the new head if and only if at least
     one block was rewritten before the new head or the new head is not lower than the old one.
   */
  lemma IndexIsExact(hs: Headers, g: Hash, oldHead: Hash, newHead: Hash, common: nat, hi: nat,
                     c0: map<nat, Hash>, c1: map<nat, Hash>, c2: map<nat, Hash>, from: nat, stop: nat)
    requires Joins(hs, g, oldHead, newHead, common) && common <= hi <= hs[newHead].number <= hi + 1
    requires IndexesUpTo(hs, c0, oldHead) && DownClosed(c0) && Rewritten(hs, newHead, common, hi, c0, c1)
    requires Trimmed(c1, c2, from, stop)
    requires from == if hi > common then hi else hs[oldHead].number
    requires hi > common ==> hs[newHead].number == hi + 1
    ensures c2[hs[newHead].number := newHead] == Path(hs, newHead) <==>
              hi > common || hs[newHead].number >= hs[oldHead].number
    ensures DownClosed(c2[hs[newHead].number := newHead])
  {
    var c, top, was := c2[hs[newHead].number := newHead], hs[newHead].number, hs[oldHead].number;
    PathKeys(hs, newHead);
    assert DownClosed(c1);
    TrimmedAll(c1, c2, from, stop);
    assert forall n: nat :: n in c <==> n <= top || (n <= was && hi == common);
    IndexSwitches(hs, g, oldHead, newHead, common, hi, c0, c1, c2, from, stop);
    if hi > common || top >= was {
      assert c == Path(hs, newHead);
    } else {
      assert was in c && was !in Path(hs, newHead);
    }
  }

  // ----- the chain -----

  /** What every step keeps, whatever the fork choice: the indexes are those of the current block. */
  ghost predicate CoreOk(hs: Headers, bodies: Bodies, canonical: map<nat, Hash>, lookup: map<TxId, nat>, g: Hash,
                         head: Hash) {
    && Rooted(hs, g) && KeyedByHash(hs, bodies) && head in hs
    && (forall h :: h in hs ==> Once(hs, bodies, h))
    && (forall n :: n in canonical ==> canonical[n] != EMPTY_HASH)
    && DownClosed(canonical) && IndexesUpTo(hs, canonical, head) && LooksUp(hs, bodies, lookup, head)
  }

  /**
   A fork as numbers: both paths have the common block, and only blocks off the old path come after it on the new one.
   */
  lemma ForkJoins(hs: Headers, bodies: Bodies, g: Hash, oldTop: Header, newTop: Header, f: Fork)
    requires Rooted(hs, g) && Stored(hs, oldTop) && Stored(hs, newTop) && ForksFrom(hs, bodies, oldTop, newTop, f)
    ensures Joins(hs, g, oldTop.hash, newTop.hash, f.common.number) && |f.newChain| == newTop.number - f.common.number
    ensures forall i :: 0 <= i < |f.newChain| ==> f.newChain[i].hash == At(hs, newTop.hash, newTop.number - i)
  {
  }

  /** The collected transactions are those of the abandoned branch. */
  lemma DeletedBranch(hs: Headers, bodies: Bodies, g: Hash, oldTop: Header, newTop: Header, f: Fork, tx: TxId)
    requires Rooted(hs, g) && Stored(hs, oldTop) && Stored(hs, newTop) && ForksFrom(hs, bodies, oldTop, newTop, f)
    ensures tx in f.deleted <==> InBranch(hs, bodies, oldTop.hash, tx, f.common.number, oldTop.number)
  {
    if Contains(bodies, f.oldChain, tx) {
      var i :| 0 <= i < |f.oldChain| && f.oldChain[i].hash in bodies && tx in bodies[f.oldChain[i].hash];
      assert InBlock(hs, bodies, oldTop.hash, tx, oldTop.number - i);
    }
    if InBranch(hs, bodies, oldTop.hash, tx, f.common.number, oldTop.number) {
      var n: nat :| f.common.number < n <= oldTop.number && InBlock(hs, bodies, oldTop.hash, tx, n);
      assert f.oldChain[oldTop.number - n].hash == At(hs, oldTop.hash, n);
    }
  }

  /**
   Whether more than one block is new can be told from the parent of the new head, if that is lower than the old one.
   */
  lemma BranchLength(hs: Headers, bodies: Bodies, g: Hash, oldTop: Header, newTop: Header, f: Fork)
    requires Rooted(hs, g) && Stored(hs, oldTop) && Stored(hs, newTop) && ForksFrom(hs, bodies, oldTop, newTop, f)
    ensures |f.newChain| > 1 || newTop.number >= oldTop.number <==>
            newTop.number >= oldTop.number
              || (newTop.number > 0 && At(hs, oldTop.hash, newTop.number - 1) != newTop.parent)
  {
    ForkJoins(hs, bodies, g, oldTop, newTop, f);
    if newTop.number < oldTop.number && newTop.number > 0 {
      AtIsLinked(hs, g, newTop.hash, newTop.number);
      AtIsStored(hs, g, newTop.hash, newTop.number);
      if |f.newChain| > 1 {
        assert f.newChain[1].hash == newTop.parent;
      } else {
        JoinedBelow(hs, g, oldTop.hash, newTop.hash, f.common.number, newTop.number - 1);
      }
    }
  }

  class BlockChain {
    const genesis: Header
    var headers: Headers
    var bodies: Bodies
    var td: map<Hash, int>
    var canonical: map<nat, Hash>
    var lookup: map<TxId, nat>
    var current: Header

    ghost predicate Core()
      reads this
    {
      && CoreOk(headers, bodies, canonical, lookup, genesis.hash, current.hash) && Stored(headers, genesis)
      && Stored(headers, current)
    }

    /**
     In addition, total difficulties are sums over the ancestors, and no stored block is better than the current one.
     */
    ghost predicate Valid()
      reads this
    {
      Core() && Summed(headers, td) && Best(headers, td, current.hash)
    }

    constructor (genesis: Header, txs: seq<TxId>)
      requires genesis.hash != EMPTY_HASH && genesis.parent == EMPTY_HASH && genesis.number == 0
      ensures Valid() && this.genesis == genesis && current == genesis
      ensures headers == map[genesis.hash := genesis] && bodies == map[genesis.hash := txs]
      ensures canonical == map[0 := genesis.hash]
    {
      this.genesis := genesis;
      headers, bodies := map[genesis.hash := genesis], map[genesis.hash := txs];
      td, canonical := map[genesis.hash := genesis.difficulty], map[0 := genesis.hash];
      lookup, current := Labels(txs, 0), genesis;
      GenesisIsCore(genesis, txs);
    }

    /** Makes a block the head: its number in the index, its transactions in the lookup. */
    method WriteHeadBlock(block: Header)
      requires block.hash in bodies
      modifies `canonical, `lookup, `current
      ensures canonical == old(canonical)[block.number := block.hash] && current == block
      ensures lookup == old(lookup) + Labels(bodies[block.hash], block.number)
    {
      hide Labels;
      canonical := canonical[block.number := block.hash];
      var txs := bodies[block.hash];
      NoLabels(lookup, block.number);
      for i := 0 to |txs|
        invariant lookup == old(lookup) + Labels(txs[..i], block.number)
        invariant canonical == old(canonical)[block.number := block.hash]
      {
        LabelStep(old(lookup), txs, i, block.number);
        lookup := lookup[txs[i] := block.number];
      }
      assert txs[..|txs|] == txs;
      current := block;
    }

    /** Deletes the canonical numbers above `from` until there is none. */
    method DeleteCanonicalAbove(from: nat) returns (ghost stop: nat)
      requires forall n :: n in canonical ==> canonical[n] != EMPTY_HASH
      modifies `canonical
      ensures Trimmed(old(canonical), canonical, from, stop)
    {
      var i := from + 1;
      var batch := canonical;
      while ReadCanonical(canonical, i) != EMPTY_HASH
        invariant from < i && (forall n: nat :: from < n < i ==> n in canonical) && canonical == old(canonical)
        invariant forall n: nat :: n in batch <==> n in canonical && !(from < n < i)
        invariant forall n: nat :: n in batch ==> batch[n] == canonical[n]
        decreases batch.Keys
      {
        assert i in batch;
        batch := batch - {i};
        i := i + 1;
      }
      canonical := batch;
      stop := i;
    }

    /** Inserts the new branch, oldest block first, except for the new head; returns the transactions inserted. */
    method InsertBranch(f: Fork, newTop: Header, ghost hi: nat) returns (added: set<TxId>)
      requires Core() && Stored(headers, newTop) && ForksFrom(headers, bodies, current, newTop, f)
      requires hi == if |f.newChain| > 1 then newTop.number - 1 else f.common.number
      modifies `canonical, `lookup, `current
      ensures Rewritten(headers, newTop.hash, f.common.number, hi, old(canonical), canonical)
      ensures Relabeled(headers, bodies, newTop.hash, f.common.number, hi, old(lookup), lookup)
      ensures forall tx :: tx in added <==> InBranch(headers, bodies, newTop.hash, tx, f.common.number, hi)
      ensures forall n :: n in canonical ==> canonical[n] != EMPTY_HASH
      ensures current == if |f.newChain| > 1 then f.newChain[1] else old(current)
    {
      hide Rewritten, Relabeled, InBranch, ForksFrom, Once;
      ForkJoins(headers, bodies, genesis.hash, current, newTop, f);
      ForkBlocks(headers, bodies, current, newTop, f);
      ghost var common := f.common.number;
      NothingInserted(headers, bodies, newTop.hash, common, canonical, lookup);
      added := {};
      var i := |f.newChain| - 1;
      while i >= 1
        invariant 0 <= i < |f.newChain| || i == |f.newChain| - 1
        invariant Rewritten(headers, newTop.hash, common, newTop.number - i - 1, old(canonical), canonical)
        invariant Relabeled(headers, bodies, newTop.hash, common, newTop.number - i - 1, old(lookup), lookup)
        invariant forall tx :: tx in added <==>
                    InBranch(headers, bodies, newTop.hash, tx, common, newTop.number - i - 1)
        invariant forall n :: n in canonical ==> canonical[n] != EMPTY_HASH
        invariant current == if i < |f.newChain| - 1 then f.newChain[i + 1] else old(current)
      {
        var b := f.newChain[i];
        RelabelStep(headers, bodies, newTop.hash, common, newTop.number - i - 1, old(lookup), lookup, b);
        RewriteStep(headers, newTop.hash, common, newTop.number - i - 1, old(canonical), canonical);
        BranchStep(headers, bodies, newTop.hash, common, newTop.number - i - 1, b);
        WriteHeadBlock(b);
        added := added + set tx | tx in bodies[b.hash];
        i := i - 1;
      }
    }

    /**
     Replaces the current branch by the one to `newTop`, except for `newTop` itself.  As all ancestors are stored,
     the common ancestor is always found.
     */
    method Reorg(newTop: Header)
      returns (ghost hi: nat, ghost common: nat, ghost c1: map<nat, Hash>, ghost from: nat, ghost stop: nat)
      requires Core() && Stored(headers, newTop)
      modifies `canonical, `lookup, `current
      ensures Joins(headers, genesis.hash, old(current).hash, newTop.hash, common)
      ensures common <= hi <= newTop.number <= hi + 1 && (hi > common ==> newTop.number == hi + 1)
      ensures Rewritten(headers, newTop.hash, common, hi, old(canonical), c1) && Trimmed(c1, canonical, from, stop)
      ensures from == if hi > common then hi else old(current).number
      ensures hi > common || newTop.number >= old(current).number <==>
              newTop.number >= old(current).number
              || (newTop.number > 0 && At(headers, old(current).hash, newTop.number - 1) != newTop.parent)
      ensures LooksUp(headers, bodies, lookup + Labels(bodies[newTop.hash], newTop.number), newTop.hash)
      ensures forall n :: n in canonical ==> canonical[n] != EMPTY_HASH
    {
      hide Rewritten, Relabeled, InBranch, Once, Trimmed, LooksUp;
      var fork := FindFork(headers, bodies, current, newTop, genesis.hash);
      var f := fork.value;
      ForkJoins(headers, bodies, genesis.hash, current, newTop, f);
      BranchLength(headers, bodies, genesis.hash, current, newTop, f);
      common := f.common.number;
      hi := if |f.newChain| > 1 then newTop.number - 1 else f.common.number;
      var added := InsertBranch(f, newTop, hi);
      c1 := canonical;
      var dead := set tx | tx in f.deleted && tx !in added;
      forall tx ensures tx in dead <==>
          && InBranch(headers, bodies, old(current).hash, tx, common, old(current).number)
          && !InBranch(headers, bodies, newTop.hash, tx, common, hi)
      {
        DeletedBranch(headers, bodies, genesis.hash, old(current), newTop, f, tx);
      }
      LookupSwitches(headers, bodies, genesis.hash, old(current).hash, newTop.hash, common, hi, old(lookup), lookup,
                     dead);
      lookup := lookup - dead;
      from := current.number;
      stop := DeleteCanonicalAbove(current.number);
    }

    /**
     Makes a stored block the head, after a reorganisation if it does not extend the current one.  A block on top of
     the current one leaves nothing above it if and only if there was nothing; any other block if and only if it is
     not lower than the old head or its parent was not canonical, whatever was there before.
     */
    method AdoptHead(block: Header)
      requires Core() && Stored(headers, block)
      modifies `canonical, `lookup, `current
      ensures Core() && current == block
      ensures canonical == Path(headers, block.hash) <==> LeavesNothing(old(canonical), old(current), block)
    {
      hide Once, LooksUp, IndexesUpTo, Rewritten, Trimmed, Path, DownClosed;
      if block.parent != current.hash {
        ghost var hi, common, c1, from, stop := Reorg(block);
        IndexSwitches(headers, genesis.hash, old(current).hash, block.hash, common, hi, old(canonical), c1, canonical,
                      from, stop);
        IndexIsExact(headers, genesis.hash, old(current).hash, block.hash, common, hi, old(canonical), c1, canonical,
                     from, stop);
        IndexReads(headers, old(canonical), old(current).hash);
      } else {
        Extends(headers, bodies, genesis.hash, canonical, lookup, current.hash, block);
      }
      WriteHeadBlock(block);
    }

    /**
     Stores a block with known parent, and makes it the head if it is better than the current block; `tie` decides
     between blocks of equal difficulty and number.
     */
    method WriteBlockWithState(block: Header, txs: seq<TxId>, tie: bool) returns (status: WriteStatus)
      requires Valid() && block.hash != EMPTY_HASH
      requires block.hash in headers ==> headers[block.hash] == block && bodies[block.hash] == txs
      requires forall tx, n :: tx in txs && InBlock(headers, bodies, block.parent, tx, n) ==> block.hash in headers
      modifies this
      ensures Valid()
      ensures status == UnknownAncestor <==> ReadHeader(old(headers), block.parent, block.number - 1).None?
      ensures status == UnknownAncestor ==> headers == old(headers) && bodies == old(bodies) && current == old(current)
      ensures status != UnknownAncestor ==>
                headers == old(headers)[block.hash := block] && bodies == old(bodies)[block.hash := txs]
      ensures status != UnknownAncestor ==>
                var extern, local := td[block.hash], td[old(current).hash];
                && (extern > local ==> status == Canonical)
                && (extern < local ==> status == Side)
                && (extern == local && block.number < old(current).number ==> status == Canonical)
                && (extern == local && block.number > old(current).number ==> status == Side)
                && (extern == local && block.number == old(current).number ==> (status == Canonical <==> tie))
      ensures current == if status == Canonical then block else old(current)
      ensures status != Canonical ==> canonical == old(canonical) && lookup == old(lookup)
      ensures status == Canonical ==>
                (canonical == Path(headers, current.hash) <==> LeavesNothing(old(canonical), old(current), block))
      ensures status != Canonical ==> Path(headers, current.hash) == Path(old(headers), old(current).hash)
    {
      hide Best, Summed, CoreOk, Path;
      var parent := ReadHeader(headers, block.parent, block.number - 1);
      CoreHas(headers, bodies, canonical, lookup, genesis.hash, current.hash);
      if parent == None {
        return UnknownAncestor;
      }
      TdKeys(headers, td);
      var localTd := td[current.hash];
      var externTd := block.difficulty + td[block.parent];
      StoreKeepsSums(headers, td, genesis.hash, block);
      SameTd(headers, td, block);
      ChoiceIsBest(headers, td, current.hash, block, externTd, tie);
      StoreKeepsCore(headers, bodies, canonical, lookup, genesis.hash, current.hash, block, txs);
      StoreKeepsPath(headers, headers[block.hash := block], genesis.hash, current.hash);
      headers, bodies, td := headers[block.hash := block], bodies[block.hash := txs], td[block.hash := externTd];
      if Takes(externTd, localTd, block.number, current.number, tie) {
        AdoptHead(block);
        status := Canonical;
      } else {
        status := Side;
      }
    }
  }

  /** Whether making `block` the head leaves no entry above it, told from the index and the head before. */
  predicate LeavesNothing(canonical: map<nat, Hash>, head: Header, block: Header) {
    if block.parent == head.hash then block.number + 1 !in canonical
    else block.number >= head.number || (block.number > 0 && ReadCanonical(canonical, block.number - 1) != block.parent)
  }

  lemma IndexReads(hs: Headers, c0: map<nat, Hash>, head: Hash)
    requires IndexesUpTo(hs, c0, head)
    ensures forall n: nat :: n <= hs[head].number ==> ReadCanonical(c0, n) == At(hs, head, n)
  {
  }

  /** A block on top of the current one extends both indexes. */
  lemma Extends(hs: Headers, bodies: Bodies, g: Hash, c: map<nat, Hash>, l: map<TxId, nat>, head: Hash, block: Header)
    requires CoreOk(hs, bodies, c, l, g, head) && Stored(hs, block) && block.parent == head
    ensures block.number == hs[head].number + 1
    ensures IndexesUpTo(hs, c[block.number := block.hash], block.hash)
    ensures LooksUp(hs, bodies, l + Labels(bodies[block.hash], block.number), block.hash)
    ensures c[block.number := block.hash] == Path(hs, block.hash) <==> block.number + 1 !in c
    ensures DownClosed(c[block.number := block.hash])
  {
    ExtendsExactly(hs, g, c, head, block);
    hide DownClosed, Path;
    assert Sound(hs, g, block.hash);
    AtIsStored(hs, g, block.hash, block.number);
    forall n: nat | n < block.number ensures At(hs, block.hash, n) == At(hs, head, n) {
      AtOfParent(hs, g, block.hash, n);
    }
    assert Once(hs, bodies, block.hash);
    var l' := l + Labels(bodies[block.hash], block.number);
    forall tx, n: nat | InBlock(hs, bodies, block.hash, tx, n) ensures tx in l' && l'[tx] == n {
      assert tx in bodies[block.hash] ==> InBlock(hs, bodies, block.hash, tx, block.number);
      if n < block.number {
        assert InBlock(hs, bodies, head, tx, n);
      }
    }
    forall tx | tx in l' ensures InBlock(hs, bodies, block.hash, tx, l'[tx]) {
      if tx !in bodies[block.hash] {
        assert InBlock(hs, bodies, head, tx, l[tx]);
      }
    }
  }

  lemma ExtendsExactly(hs: Headers, g: Hash, c: map<nat, Hash>, head: Hash, block: Header)
    requires Rooted(hs, g) && Stored(hs, block) && block.parent == head && head in hs && IndexesUpTo(hs, c, head)
    requires DownClosed(c)
    ensures c[block.number := block.hash] == Path(hs, block.hash) <==> block.number + 1 !in c
    ensures DownClosed(c[block.number := block.hash])
  {
    var c', n := c[block.number := block.hash], block.number;
    assert Sound(hs, g, block.hash);
    AtIsStored(hs, g, block.hash, n);
    PathKeys(hs, block.hash);
    forall k: nat | k < n
      ensures k in c && c[k] == At(hs, block.hash, k)
    {
      AtOfParent(hs, g, block.hash, k);
    }
    if n + 1 !in c {
      assert forall k: nat :: k in c' <==> k <= n;
      assert c' == Path(hs, block.hash);
    } else {
      assert n + 1 in c' && n + 1 !in Path(hs, block.hash);
    }
  }

  lemma CoreHas(hs: Headers, bodies: Bodies, c: map<nat, Hash>, l: map<TxId, nat>, g: Hash, head: Hash)
    requires CoreOk(hs, bodies, c, l, g, head)
    ensures Rooted(hs, g) && bodies.Keys == hs.Keys && head in hs
  {
  }

  lemma StoreKeepsCore(hs: Headers, bodies: Bodies, c: map<nat, Hash>, l: map<TxId, nat>, g: Hash, head: Hash,
                       block: Header, txs: seq<TxId>)
    requires CoreOk(hs, bodies, c, l, g, head) && block.hash != EMPTY_HASH
    requires block.hash in hs ==> hs[block.hash] == block && bodies[block.hash] == txs
    requires block.number > 0 && block.parent in hs && hs[block.parent].number == block.number - 1
    requires forall tx, n :: tx in txs && InBlock(hs, bodies, block.parent, tx, n) ==> block.hash in hs
    ensures CoreOk(hs[block.hash := block], bodies[block.hash := txs], c, l, g, head)
  {
    var hs', bodies' := hs[block.hash := block], bodies[block.hash := txs];
    StoreKeepsRooted(hs, g, block);
    if block.hash in hs {
      assert hs' == hs && bodies' == bodies;
    } else {
      forall h, tx, n | h in hs ensures InBlock(hs', bodies', h, tx, n) <==> InBlock(hs, bodies, h, tx, n) {
        InBlockIsStable(hs, hs', bodies, bodies', g, h, tx, n);
      }
      assert forall h :: h in hs ==> Once(hs', bodies', h);
      NewIsOnce(hs', bodies', g, block, txs);
      forall n: nat | n <= hs[head].number ensures At(hs', head, n) == At(hs, head, n) {
        AtIsStable(hs, hs', g, head, n);
      }
    }
  }

  lemma InBlockIsStable(hs: Headers, hs': Headers, bodies: Bodies, bodies': Bodies, g: Hash, h: Hash, tx: TxId, n: nat)
    requires Rooted(hs, g) && h in hs && bodies.Keys == hs.Keys
    requires forall x :: x in hs ==> x in hs' && hs'[x] == hs[x] && x in bodies' && bodies'[x] == bodies[x]
    ensures InBlock(hs', bodies', h, tx, n) <==> InBlock(hs, bodies, h, tx, n)
  {
    if n <= hs[h].number {
      AtIsStable(hs, hs', g, h, n);
      AtIsStored(hs, g, h, n);
    }
  }

  lemma NewIsOnce(hs: Headers, bodies: Bodies, g: Hash, block: Header, txs: seq<TxId>)
    requires Rooted(hs, g) && Stored(hs, block) && block.number > 0 && block.hash in bodies && bodies[block.hash] == txs
    requires block.parent in hs && Once(hs, bodies, block.parent)
    requires forall tx, n :: tx in txs ==> !InBlock(hs, bodies, block.parent, tx, n)
    ensures Once(hs, bodies, block.hash)
  {
    AtIsStored(hs, g, block.hash, block.number);
    assert Sound(hs, g, block.hash);
    forall n: nat | n < block.number ensures At(hs, block.hash, n) == At(hs, block.parent, n) {
      AtOfParent(hs, g, block.hash, n);
    }
    forall tx, n: nat, m: nat | InBlock(hs, bodies, block.hash, tx, n) && InBlock(hs, bodies, block.hash, tx, m)
      ensures n == m
    {
      if n < block.number {
        assert InBlock(hs, bodies, block.parent, tx, n);
      }
      if m < block.number {
        assert InBlock(hs, bodies, block.parent, tx, m);
      }
    }
  }

  lemma GenesisIsCore(genesis: Header, txs: seq<TxId>)
    requires genesis.hash != EMPTY_HASH && genesis.parent == EMPTY_HASH && genesis.number == 0
    ensures CoreOk(map[genesis.hash := genesis], map[genesis.hash := txs], map[0 := genesis.hash], Labels(txs, 0),
              genesis.hash, genesis.hash)
  {
    var hs: Headers, bodies: Bodies := map[genesis.hash := genesis], map[genesis.hash := txs];
    forall h | h in hs ensures Sound(hs, genesis.hash, h) {
    }
    assert At(hs, genesis.hash, 0) == genesis.hash;
    forall tx, n ensures InBlock(hs, bodies, genesis.hash, tx, n) <==> n == 0 && tx in txs {
    }
  }

  // ----- a stale entry -----

  /** A block at number 1 that outweighs the two blocks on the other branch leaves the entry of number 2 behind. */
  method StaleEntryExample() returns (chain: BlockChain)
    ensures chain.Valid() && chain.current == Header(4, 1, 1, 10)
    ensures chain.canonical != Path(chain.headers, chain.current.hash)
  {
    hide CoreOk, Best, Path, Summed;
    var g, a1, a2, b1 := Header(1, EMPTY_HASH, 0, 1), Header(2, 1, 1, 1), Header(3, 2, 2, 1), Header(4, 1, 1, 10);
    chain := new BlockChain(g, []);
    var s1 := chain.WriteBlockWithState(a1, [], false);
    Weighs(chain.headers, chain.td, a1, g);
    assert s1 == Canonical;
    ExtendedPath(chain.headers, a1);
    assert chain.canonical == Path(chain.headers, 2) && 3 !in chain.canonical;
    var s2 := chain.WriteBlockWithState(a2, [], false);
    Weighs(chain.headers, chain.td, a2, a1);
    assert s2 == Canonical;
    assert chain.canonical == Path(chain.headers, 3);
    CanonicalAt(chain.headers, g, a1, a2);
    var s3 := chain.WriteBlockWithState(b1, [], false);
    Weighs(chain.headers, chain.td, a2, a1);
    Weighs(chain.headers, chain.td, a1, g);
    Weighs(chain.headers, chain.td, b1, g);
    assert s3 == Canonical;
  }

  lemma ExtendedPath(hs: Headers, h: Header)
    requires h.hash in hs && hs[h.hash] == h
    ensures forall n: nat :: n in Path(hs, h.hash) <==> n <= h.number
  {
  }

  lemma Weighs(hs: Headers, td: map<Hash, int>, b: Header, parent: Header)
    requires Summed(hs, td) && b.hash in hs && hs[b.hash] == b && parent.hash in hs && hs[parent.hash] == parent
    requires b.parent == parent.hash && b.number == parent.number + 1
    ensures td[b.hash] == td[parent.hash] + b.difficulty
  {
  }

  lemma CanonicalAt(hs: Headers, g: Header, a1: Header, a2: Header)
    requires a2.hash in hs && hs[a2.hash] == a2 && a2.number == 2 && a2.parent == a1.hash && a1.hash in hs
    requires hs[a1.hash] == a1 && a1.parent == g.hash
    ensures ReadCanonical(Path(hs, a2.hash), 0) == g.hash
  {
    assert Ancestor(hs, a2.hash, 2) == Ancestor(hs, a1.hash, 1) == Ancestor(hs, g.hash, 0);
  }

  /** All blocks there may ever be: a tree in which no transaction occurs twice on a branch. */
  ghost predicate BlockTree(hs: Headers, bodies: Bodies, g: Hash) {
    Rooted(hs, g) && KeyedByHash(hs, bodies) && forall h :: h in hs ==> Once(hs, bodies, h)
  }

  /** The blocks stored so far are blocks of the tree. */
  ghost predicate PartOf(hs: Headers, bodies: Bodies, tree: Headers, treeBodies: Bodies) {
    forall h :: h in hs ==>
      h in tree && hs[h] == tree[h] && h in bodies && h in treeBodies && bodies[h] == treeBodies[h]
  }

  /** The transactions of a block of the tree are not in its stored ancestors. */
  lemma FreshTransactions(hs: Headers, bodies: Bodies, tree: Headers, treeBodies: Bodies, g: Hash, b: Header)
    requires BlockTree(tree, treeBodies, g) && Stored(tree, b) && Rooted(hs, g) && bodies.Keys == hs.Keys
    requires PartOf(hs, bodies, tree, treeBodies)
    ensures forall tx, n :: tx in treeBodies[b.hash] && InBlock(hs, bodies, b.parent, tx, n) ==> b.hash in hs
  {
    assert Sound(tree, g, b.hash);
    AtIsStored(tree, g, b.hash, b.number);
    forall tx, n: nat | tx in treeBodies[b.hash] && b.number > 0 && b.parent in hs
      ensures !InBlock(hs, bodies, b.parent, tx, n)
    {
      InBlockIsStable(hs, tree, bodies, treeBodies, g, b.parent, tx, n);
      AlsoInChild(tree, treeBodies, g, b, tx, n);
      assert InBlock(tree, treeBodies, b.hash, tx, b.number);
    }
  }

  lemma AlsoInChild(hs: Headers, bodies: Bodies, g: Hash, b: Header, tx: TxId, n: nat)
    requires Rooted(hs, g) && Stored(hs, b) && b.number > 0
    ensures InBlock(hs, bodies, b.parent, tx, n) ==> InBlock(hs, bodies, b.hash, tx, n) && n < b.number
  {
    assert Sound(hs, g, b.hash);
    if InBlock(hs, bodies, b.parent, tx, n) {
      AtOfParent(hs, g, b.hash, n);
    }
  }

  /**
   Any sequence of blocks, in any order and with any luck, keeps the indexes those of the head, and the head the best
   block.
   */
  method WriteBlocks(chain: BlockChain, blocks: seq<Header>, ties: seq<bool>, tree: Headers, treeBodies: Bodies)
    requires chain.Valid() && BlockTree(tree, treeBodies, chain.genesis.hash)
    requires PartOf(chain.headers, chain.bodies, tree, treeBodies)
    requires |ties| == |blocks| && forall i :: 0 <= i < |blocks| ==> Stored(tree, blocks[i])
    modifies chain
    ensures chain.Valid() && PartOf(chain.headers, chain.bodies, tree, treeBodies)
    ensures forall h :: h in chain.headers ==>
              && chain.td[h] <= chain.td[chain.current.hash]
              && (chain.td[h] == chain.td[chain.current.hash] ==> chain.headers[h].number >= chain.current.number)
  {
    hide Summed, Best, IndexesUpTo, LooksUp, Once;
    for i := 0 to |blocks|
      invariant chain.Valid() && PartOf(chain.headers, chain.bodies, tree, treeBodies)
    {
      var b := blocks[i];
      FreshTransactions(chain.headers, chain.bodies, tree, treeBodies, chain.genesis.hash, b);
      var status := chain.WriteBlockWithState(b, treeBodies[b.hash], ties[i]);
    }
    HeadIsBest(chain);
  }

  lemma HeadIsBest(chain: BlockChain)
    requires chain.Valid()
    ensures chain.td.Keys == chain.headers.Keys
    ensures forall h :: h in chain.headers ==>
              && chain.td[h] <= chain.td[chain.current.hash]
              && (chain.td[h] == chain.td[chain.current.hash] ==> chain.headers[h].number >= chain.current.number)
  {
    hide CoreOk;
    BestMeans(chain.headers, chain.td, chain.current.hash);
  }

  lemma ForkBlocks(hs: Headers, bodies: Bodies, oldTop: Header, newTop: Header, f: Fork)
    requires ForksFrom(hs, bodies, oldTop, newTop, f)
    ensures forall i :: 0 <= i < |f.newChain| ==> f.newChain[i].hash in hs && f.newChain[i].number == newTop.number - i
  {
  }

  lemma NothingInserted(hs: Headers, bodies: Bodies, head: Hash, lo: nat, c: map<nat, Hash>, l: map<TxId, nat>)
    ensures Rewritten(hs, head, lo, lo, c, c) && Relabeled(hs, bodies, head, lo, lo, l, l)
    ensures forall tx :: !InBranch(hs, bodies, head, tx, lo, lo)
  {
  }

  lemma RewriteStep(hs: Headers, head: Hash, lo: nat, hi: nat, c0: map<nat, Hash>, c: map<nat, Hash>)
    requires Rewritten(hs, head, lo, hi, c0, c) && lo <= hi
    ensures Rewritten(hs, head, lo, hi + 1, c0, c[hi + 1 := At(hs, head, hi + 1)])
  {
  }

  lemma BranchStep(hs: Headers, bodies: Bodies, head: Hash, lo: nat, hi: nat, b: Header)
    requires head in hs && lo <= hi < hs[head].number && b.hash == At(hs, head, hi + 1) && b.hash in bodies
    ensures forall tx :: InBranch(hs, bodies, head, tx, lo, hi + 1) <==>
              InBranch(hs, bodies, head, tx, lo, hi) || tx in bodies[b.hash]
  {
    forall tx | InBranch(hs, bodies, head, tx, lo, hi) ensures InBranch(hs, bodies, head, tx, lo, hi + 1) {
      var n: nat :| lo < n <= hi && InBlock(hs, bodies, head, tx, n);
    }
    forall tx | tx in bodies[b.hash] ensures InBranch(hs, bodies, head, tx, lo, hi + 1) {
      assert InBlock(hs, bodies, head, tx, hi + 1);
    }
  }
}
