/**
 The header chain: a database of headers with total difficulties, the canonical number-to-hash index, and a
 current header chosen by total difficulty.
 */
module HeaderChains {
  import opened Options
  import opened Ancestry

  datatype WriteStatus = Canonical | Side | UnknownAncestor

  /** Total difficulty first; of equal ones, the lower number; of equally high ones, a coin decides. */
  predicate Takes(externTd: int, localTd: int, number: nat, head: nat, coin: bool) {
    externTd > localTd || (externTd == localTd && (number < head || (number == head && coin)))
  }

  /** A head with total difficulty `td` and number `n` is at least as good as another header. */
  predicate AtLeastAsGood(td: int, n: nat, otherTd: int, otherN: nat) {
    td > otherTd || (td == otherTd && n <= otherN)
  }

  /** The stored total difficulties are the sums over all ancestors. */
  ghost predicate Summed(hs: Headers, td: map<Hash, int>) {
    td.Keys == hs.Keys && forall h :: h in hs ==> td[h] == SumDifficulty(hs, h, hs[h].number)
  }

  /** No stored header is better than `head`. */
  ghost predicate Best(hs: Headers, td: map<Hash, int>, head: Hash) {
    head in hs && head in td && forall h :: h in hs && h in td ==>
      AtLeastAsGood(td[head], hs[head].number, td[h], hs[h].number)
  }

  ghost predicate ChainOk(hs: Headers, td: map<Hash, int>, canonical: map<nat, Hash>, genesis: Hash, head: Hash) {
    Rooted(hs, genesis) && head in hs && Summed(hs, td) && canonical == Path(hs, head) && Best(hs, td, head)
  }

  /**
   The canonical index is a gapless, parent-linked chain of stored headers from the genesis to the head, and nothing
   else.
   */
  lemma IndexIsLinked(hs: Headers, td: map<Hash, int>, canonical: map<nat, Hash>, genesis: Hash, head: Hash)
    requires ChainOk(hs, td, canonical, genesis, head)
    ensures forall n: nat :: n in canonical <==> n <= hs[head].number
    ensures canonical[hs[head].number] == head && canonical[0] == genesis
    ensures forall n :: n in canonical ==> canonical[n] in hs && hs[canonical[n]].number == n
    ensures forall n :: n in canonical && n > 0 ==> n - 1 in canonical && hs[canonical[n]].parent == canonical[n - 1]
  {
    AtIsStored(hs, genesis, head, hs[head].number);
    AtIsStored(hs, genesis, head, 0);
    forall n | n in canonical ensures canonical[n] in hs && hs[canonical[n]].number == n {
      AtIsStored(hs, genesis, head, n);
    }
    forall n | n in canonical && n > 0 ensures n - 1 in canonical && hs[canonical[n]].parent == canonical[n - 1] {
      AtIsLinked(hs, genesis, head, n);
    }
  }

  function ReadCanonical(canonical: map<nat, Hash>, n: nat): Hash {
    if n in canonical then canonical[n] else EMPTY_HASH
  }

  /** Reading a header needs its hash and its number. */
  function ReadHeader(hs: Headers, hash: Hash, n: int): Option<Header> {
    if hash in hs && hs[hash].number == n then Some(hs[hash]) else None
  }

  /** A new header with a stored parent keeps the database rooted. */
  lemma StoreKeepsRooted(hs: Headers, g: Hash, header: Header)
    requires Rooted(hs, g) && header.hash != EMPTY_HASH && (header.hash in hs ==> hs[header.hash] == header)
    requires header.number > 0 && header.parent in hs && hs[header.parent].number == header.number - 1
    ensures Rooted(hs[header.hash := header], g)
  {
    var hs' := hs[header.hash := header];
    assert Sound(hs, g, g);
    forall h | h in hs' ensures Sound(hs', g, h) {
      if h in hs {
        assert Sound(hs, g, h);
      }
    }
  }

  lemma StoreKeepsSums(hs: Headers, td: map<Hash, int>, g: Hash, header: Header)
    requires Rooted(hs, g) && Summed(hs, td) && (header.hash in hs ==> hs[header.hash] == header)
    requires header.number > 0 && header.parent in hs && hs[header.parent].number == header.number - 1
    ensures Summed(hs[header.hash := header], td[header.hash := td[header.parent] + header.difficulty])
  {
    var hs' := hs[header.hash := header];
    forall h | h in hs ensures SumDifficulty(hs', h, hs[h].number) == SumDifficulty(hs, h, hs[h].number) {
      SumIsStable(hs, hs', g, h, hs[h].number);
    }
    assert SumDifficulty(hs', header.hash, header.number) ==
           header.difficulty + SumDifficulty(hs', header.parent, header.number - 1);
  }

  /** Fork choice keeps the head best among all stored headers. */
  lemma ChoiceIsBest(hs: Headers, td: map<Hash, int>, head: Hash, header: Header, externTd: int, coin: bool)
    requires Best(hs, td, head)
    requires header.hash in hs ==> hs[header.hash] == header && td.Keys == hs.Keys && td[header.hash] == externTd
    ensures
      var hs', td' := hs[header.hash := header], td[header.hash := externTd];
      Best(hs', td', if Takes(externTd, td[head], header.number, hs[head].number, coin) then header.hash else head)
  {
  }

  /** All these headers are stored and none is heavier than the head. */
  ghost predicate NothingNew(hs: Headers, td: map<Hash, int>, chain: seq<Header>, head: Header) {
    && head.hash in td
    && forall i :: 0 <= i < |chain| ==>
         chain[i].hash in hs && hs[chain[i].hash] == chain[i] && chain[i].hash in td
         && td[chain[i].hash] <= td[head.hash]
  }

  /** No stored header has a higher total difficulty, nor the same with a lower number. */
  lemma BestMeans(hs: Headers, td: map<Hash, int>, head: Hash)
    requires Best(hs, td, head) && td.Keys == hs.Keys
    ensures forall h :: h in hs ==> td[h] <= td[head] && (td[h] == td[head] ==> hs[h].number >= hs[head].number)
  {
  }

  class HeaderChain {
    const genesis: Header
    var headers: Headers
    var td: map<Hash, int>
    var canonical: map<nat, Hash>
    var current: Header

    ghost predicate Valid()
      reads this
    {
      && ChainOk(headers, td, canonical, genesis.hash, current.hash)
      && headers[genesis.hash] == genesis && headers[current.hash] == current
    }

    constructor (genesis: Header)
      requires genesis.hash != EMPTY_HASH && genesis.parent == EMPTY_HASH && genesis.number == 0
      ensures Valid() && this.genesis == genesis && current == genesis && headers == map[genesis.hash := genesis]
    {
      this.genesis := genesis;
      headers, td := map[genesis.hash := genesis], map[genesis.hash := genesis.difficulty];
      canonical, current := map[0 := genesis.hash], genesis;
      var hs := map[genesis.hash := genesis];
      forall h | h in hs ensures Sound(hs, genesis.hash, h) {
      }
    }

    /** Stores a header whose parent is known, and re-routes the canonical index to it if it is better than the head. */
    method WriteHeader(header: Header, coin: bool) returns (status: WriteStatus)
      requires Valid() && header.hash != EMPTY_HASH && (header.hash in headers ==> headers[header.hash] == header)
      modifies this
      ensures Valid()
      ensures status == UnknownAncestor <==> ReadHeader(old(headers), header.parent, header.number - 1).None?
      ensures status == UnknownAncestor ==> headers == old(headers) && current == old(current)
      ensures status != UnknownAncestor ==> headers == old(headers)[header.hash := header]
      ensures status != UnknownAncestor ==>
                var extern, local := td[header.hash], td[old(current).hash];
                && (extern > local ==> status == Canonical)
                && (extern < local ==> status == Side)
                && (extern == local && header.number < old(current).number ==> status == Canonical)
                && (extern == local && header.number > old(current).number ==> status == Side)
                && (extern == local && header.number == old(current).number ==> (status == Canonical <==> coin))
      ensures current == if status == Canonical then header else old(current)
    {
      hide Best, Summed, Path;
      var parent := ReadHeader(headers, header.parent, header.number - 1);
      if parent == None {
        return UnknownAncestor;
      }
      TdKeys(headers, td);
      var localTd := td[current.hash];
      var externTd := header.difficulty + td[header.parent];
      StoreKeepsRooted(headers, genesis.hash, header);
      StoreKeepsSums(headers, td, genesis.hash, header);
      SameTd(headers, td, header);
      ChoiceIsBest(headers, td, current.hash, header, externTd, coin);
      ghost var hs := headers;
      headers, td := headers[header.hash := header], td[header.hash := externTd];
      StoreKeepsPath(hs, headers, genesis.hash, current.hash);
      if Takes(externTd, localTd, header.number, current.number, coin) {
        canonical := Reroute(header);
        current := header;
        status := Canonical;
      } else {
        status := Side;
      }
    }

    /**
     Any sequence of headers, in any order and with any luck, keeps the chain sound and its head the best of all stored.
     */
    method WriteHeaders(chain: seq<Header>, coins: seq<bool>)
      requires Valid() && Identified(headers, chain) && |coins| == |chain|
      modifies this
      ensures Valid() && forall h :: h in old(headers) ==> h in headers && headers[h] == old(headers)[h]
      ensures forall h :: h in headers ==>
                td[h] <= td[current.hash] && (td[h] == td[current.hash] ==> headers[h].number >= current.number)
    {
      for i := 0 to |chain|
        invariant Valid() && Identified(headers, chain)
        invariant forall h :: h in old(headers) ==> h in headers && headers[h] == old(headers)[h]
      {
        hide ChainOk;
        var status := WriteHeader(chain[i], coins[i]);
      }
      BestMeans(headers, td, current.hash);
    }

    /**
     Imports a batch of headers, skipping known ones that cannot become the head; stops at one without a known parent.
     */
    method InsertHeaderChain(chain: seq<Header>, coins: seq<bool>) returns (failed: Option<nat>)
      requires Valid() && Identified(headers, chain) && |coins| == |chain|
      modifies this
      ensures Valid()
      ensures failed == None ==>
                forall i :: 0 <= i < |chain| ==> chain[i].hash in headers && headers[chain[i].hash] == chain[i]
      ensures failed.Some? ==> failed.value < |chain|
      ensures failed.Some? ==> ReadHeader(headers, chain[failed.value].parent, chain[failed.value].number - 1).None?
      ensures old(NothingNew(headers, td, chain, current)) ==>
                failed == None && headers == old(headers) && td == old(td) && current == old(current)
    {
      for i := 0 to |chain|
        invariant Valid() && Identified(headers, chain)
        invariant old(NothingNew(headers, td, chain, current)) ==>
                    headers == old(headers) && td == old(td) && current == old(current)
        invariant forall k :: 0 <= k < i ==> chain[k].hash in headers && headers[chain[k].hash] == chain[k]
      {
        hide Best, Path, Rooted, SumDifficulty;
        var known := ReadHeader(headers, chain[i].hash, chain[i].number);
        if known == None || td[chain[i].hash] > td[current.hash] {
          var status := WriteHeader(chain[i], coins[i]);
          if status == UnknownAncestor {
            return Some(i);
          }
        }
      }
      return None;
    }

    /**
     The ancestor of a block `ancestor` generations back, found by jumping through the canonical index; at most
     `maxNonCanonical` headers are looked at one by one before.  Returns the empty hash if that does not suffice.
     */
    method GetAncestor(hash: Hash, number: nat, ancestor: nat, maxNonCanonical: nat)
      returns (h: Hash, n: nat, left: nat)
      requires Valid()
      ensures hash != EMPTY_HASH && h != EMPTY_HASH ==>
                ancestor <= number && h == Ancestor(headers, hash, ancestor) && n == number - ancestor
      ensures ancestor > number ==> h == EMPTY_HASH
      ensures hash in headers && headers[hash].number == number && ancestor <= number ==>
                (h != EMPTY_HASH <==>
                  ancestor == 1 || InReach(headers, canonical, hash, number, ancestor, maxNonCanonical))
      ensures left <= maxNonCanonical && (ancestor == 1 || ancestor > number ==> left == maxNonCanonical)
      ensures hash in headers && headers[hash].number == number && ancestor <= number && ancestor != 1 ==>
                StopsAfter(headers, canonical, hash, number, ancestor, maxNonCanonical - left, left)
    {
      left := maxNonCanonical;
      if ancestor > number {
        return EMPTY_HASH, 0, left;
      }
      if ancestor == 1 {
        var header := ReadHeader(headers, hash, number);
        if header.Some? {
          OneStep(headers, genesis.hash, hash);
          return header.value.parent, number - 1, left;
        }
        return EMPTY_HASH, 0, left;
      }
      h, n, left := Walk(hash, number, ancestor, maxNonCanonical);
    }

    method Walk(hash: Hash, number: nat, ancestor: nat, maxNonCanonical: nat) returns (h: Hash, n: nat, left: nat)
      requires Valid() && ancestor <= number
      ensures hash != EMPTY_HASH && h != EMPTY_HASH ==> h == Ancestor(headers, hash, ancestor) && n == number - ancestor
      ensures hash in headers && headers[hash].number == number ==>
                (h != EMPTY_HASH <==> InReach(headers, canonical, hash, number, ancestor, maxNonCanonical))
      ensures left <= maxNonCanonical
      ensures hash in headers && headers[hash].number == number ==>
                StopsAfter(headers, canonical, hash, number, ancestor, maxNonCanonical - left, left)
      decreases ancestor
    {
      hide ChainOk, Ancestor;
      h, n, left := hash, number, maxNonCanonical;
      var todo := ancestor;
      ghost var j := 0;
      NoStep(headers, hash);
      while todo != 0
        invariant j == ancestor - todo == number - n == maxNonCanonical - left && 0 <= j
        invariant h == Ancestor(headers, hash, j)
        invariant j > 0 ==> hash in headers && headers[hash].number == number
        invariant forall i :: 0 <= i < j ==> ReadCanonical(canonical, number - i) != Ancestor(headers, hash, i)
        decreases todo
      {
        StepIsStored(headers, td, canonical, genesis.hash, current.hash, hash, number, j);
        if ReadCanonical(canonical, n) == h {
          JumpIsRight(headers, td, canonical, genesis.hash, current.hash, hash, number, j, todo);
          return ReadCanonical(canonical, n - todo), n - todo, left;
        }
        if left == 0 {
          return EMPTY_HASH, 0, left;
        }
        left := left - 1;
        todo := todo - 1;
        var header := ReadHeader(headers, h, n);
        if header == None {
          return EMPTY_HASH, 0, left;
        }
        h, n := header.value.parent, n - 1;
        j := j + 1;
      }
      StepIsStored(headers, td, canonical, genesis.hash, current.hash, hash, number, j);
    }

    /** The canonical index for `header` as head, computed from the index for the current head by batched changes. */
    method Reroute(header: Header) returns (marker: map<nat, Hash>)
      requires Rooted(headers, genesis.hash) && current.hash in headers && headers[current.hash] == current
      requires canonical == Path(headers, current.hash)
      requires header.hash in headers && headers[header.hash] == header && header.number > 0
      ensures marker == Path(headers, header.hash)
    {
      marker := DeleteAbove(header.number);
      marker := OverwriteStale(header, marker);
      marker := marker[header.number := header.hash];
    }

    /** Deletes any canonical number assignments above the new head. */
    method DeleteAbove(number: nat) returns (marker: map<nat, Hash>)
      requires Rooted(headers, genesis.hash) && current.hash in headers && canonical == Path(headers, current.hash)
      ensures forall n :: n in marker <==> n in canonical && n <= number
      ensures forall n :: n in marker ==> marker[n] == canonical[n]
    {
      hide Path;
      marker := canonical;
      var i := number + 1;
      while ReadCanonical(canonical, i) != EMPTY_HASH
        invariant number < i
        invariant forall n :: n in marker <==> n in canonical && !(number < n < i)
        invariant forall n :: n in marker ==> marker[n] == canonical[n]
        decreases headers[current.hash].number + 1 - i
      {
        SomethingThere(headers, current.hash, i);
        marker := marker - {i};
        i := i + 1;
      }
      NothingAbove(headers, genesis.hash, current.hash, i);
      PathKeys(headers, current.hash);
    }

    /** Overwrites any stale canonical number assignments below the new head. */
    method OverwriteStale(header: Header, batch: map<nat, Hash>) returns (marker: map<nat, Hash>)
      requires Rooted(headers, genesis.hash) && current.hash in headers && canonical == Path(headers, current.hash)
      requires header.hash in headers && headers[header.hash] == header && header.number > 0
      requires forall n :: n in batch <==> n in canonical && n <= header.number
      requires forall n :: n in batch ==> batch[n] == canonical[n]
      ensures marker[header.number := header.hash] == Path(headers, header.hash)
    {
      hide Path;
      marker := batch;
      AtIsStored(headers, genesis.hash, header.hash, header.number);
      AtIsLinked(headers, genesis.hash, header.hash, header.number);
      AtIsStored(headers, genesis.hash, header.hash, header.number - 1);
      var headHash, headNumber := header.parent, header.number - 1;
      while ReadCanonical(canonical, headNumber) != headHash
        invariant 0 <= headNumber < header.number && headHash in headers && headers[headHash].number == headNumber
        invariant headHash == At(headers, header.hash, headNumber)
        invariant Overwritten(headers, header.hash, canonical, headNumber, marker)
        decreases headNumber
      {
        OverwriteStep(headers, genesis.hash, header.hash, current.hash, headNumber);
        marker := marker[headNumber := headHash];
        headHash, headNumber := headers[headHash].parent, headNumber - 1;
      }
      OverwrittenAll(headers, genesis.hash, header.hash, current.hash, headNumber, marker);
    }
  }

  /** Hashes identify headers, also among those that are not stored yet. */
  ghost predicate Identified(hs: Headers, chain: seq<Header>) {
    && (forall i :: 0 <= i < |chain| ==>
          chain[i].hash != EMPTY_HASH && (chain[i].hash in hs ==> hs[chain[i].hash] == chain[i]))
    && (forall i, j :: 0 <= i < |chain| && 0 <= j < |chain| && chain[i].hash == chain[j].hash ==> chain[i] == chain[j])
  }

  /**
   Following parent links from a block, at most `most` of them, leads to the wanted ancestor or onto the canonical
   chain.
   */
  ghost predicate InReach(hs: Headers, canonical: map<nat, Hash>, hash: Hash, number: nat, ancestor: nat, most: nat) {
    exists j: nat :: j <= most && j <= ancestor && j <= number &&
      (j == ancestor || ReadCanonical(canonical, number - j) == Ancestor(hs, hash, j))
  }

  /** The walk stops at the first canonical block, at the wanted ancestor, or when no more headers may be looked at. */
  ghost predicate StopsAfter(hs: Headers, canonical: map<nat, Hash>, hash: Hash, number: nat, ancestor: nat, steps: nat,
                             left: nat) {
    && steps <= ancestor <= number
    && (forall i: nat :: i < steps ==> ReadCanonical(canonical, number - i) != Ancestor(hs, hash, i))
    && (steps == ancestor || left == 0 || ReadCanonical(canonical, number - steps) == Ancestor(hs, hash, steps))
  }

  lemma OneStep(hs: Headers, g: Hash, hash: Hash)
    requires Rooted(hs, g) && hash in hs
    ensures Ancestor(hs, hash, 1) == hs[hash].parent
    ensures hs[hash].number > 0 ==> hs[hash].parent != EMPTY_HASH
  {
    assert Sound(hs, g, hash);
    assert Ancestor(hs, hash, 1) == Ancestor(hs, hs[hash].parent, 0);
  }

  lemma NoStep(hs: Headers, hash: Hash)
    ensures Ancestor(hs, hash, 0) == hash
  {
  }

  /** A block reached by parent links from a stored one is stored, and so is the next one. */
  lemma StepIsStored(hs: Headers, td: map<Hash, int>, canonical: map<nat, Hash>, g: Hash, head: Hash, hash: Hash,
                     number: nat, j: nat)
    requires ChainOk(hs, td, canonical, g, head) && j <= number
    ensures EMPTY_HASH !in hs
    ensures hash in hs && hs[hash].number == number ==>
              && Ancestor(hs, hash, j) in hs && hs[Ancestor(hs, hash, j)].number == number - j
              && hs[Ancestor(hs, hash, j)].parent == Ancestor(hs, hash, j + 1)
  {
    if hash in hs && hs[hash].number == number {
      AncestorIsStored(hs, g, hash, j);
      AncestorsCompose(hs, hash, j, 1);
      OneStep(hs, g, Ancestor(hs, hash, j));
    }
  }

  /** Jumping through the canonical index from a canonical block lands on its true ancestor. */
  lemma JumpIsRight(hs: Headers, td: map<Hash, int>, canonical: map<nat, Hash>, g: Hash, head: Hash, hash: Hash,
                    number: nat, j: nat, todo: nat)
    requires ChainOk(hs, td, canonical, g, head) && j + todo <= number
    requires j > 0 ==> hash in hs && hs[hash].number == number
    requires ReadCanonical(canonical, number - j) == Ancestor(hs, hash, j)
    ensures hash != EMPTY_HASH ==>
              var a := ReadCanonical(canonical, number - j - todo);
              a != EMPTY_HASH && a == Ancestor(hs, hash, j + todo)
  {
    if hash != EMPTY_HASH {
      var h, n := Ancestor(hs, hash, j), number - j;
      if j > 0 {
        AncestorIsStored(hs, g, hash, j);
      }
      assert n in canonical && h == At(hs, head, n);
      AtIsStored(hs, g, head, n);
      AtOfAncestor(hs, g, head, n, n - todo);
      AtIsStored(hs, g, head, n - todo);
      AncestorsCompose(hs, hash, j, todo);
    }
  }

  lemma SomethingThere(hs: Headers, head: Hash, i: nat)
    requires head in hs && ReadCanonical(Path(hs, head), i) != EMPTY_HASH
    ensures i <= hs[head].number
  {
  }

  lemma PathKeys(hs: Headers, head: Hash)
    requires head in hs
    ensures forall n: nat :: n in Path(hs, head) <==> n <= hs[head].number
  {
  }

  lemma TdKeys(hs: Headers, td: map<Hash, int>)
    requires Summed(hs, td)
    ensures td.Keys == hs.Keys
  {
  }

  /** Storing a known header again computes the total difficulty it already has. */
  lemma SameTd(hs: Headers, td: map<Hash, int>, header: Header)
    requires Summed(hs, td) && header.number > 0 && header.parent in hs && hs[header.parent].number == header.number - 1
    ensures header.hash in hs && hs[header.hash] == header ==> td[header.hash] == header.difficulty + td[header.parent]
  {
  }

  lemma StoreKeepsPath(hs: Headers, hs': Headers, g: Hash, head: Hash)
    requires Rooted(hs, g) && head in hs
    requires forall x :: x in hs ==> x in hs' && hs'[x] == hs[x]
    ensures Path(hs', head) == Path(hs, head)
  {
    forall n: nat | n <= hs[head].number ensures At(hs', head, n) == At(hs, head, n) {
      AtIsStable(hs, hs', g, head, n);
    }
  }

  /** Where the index has no entry, the head is below. */
  lemma NothingAbove(hs: Headers, g: Hash, head: Hash, i: nat)
    requires Rooted(hs, g) && head in hs && ReadCanonical(Path(hs, head), i) == EMPTY_HASH
    ensures i > hs[head].number
  {
    if i <= hs[head].number {
      AtIsStored(hs, g, head, i);
    }
  }

  /** State of re-routing: below the new head `h`, the numbers above `n` have been overwritten with its ancestors. */
  ghost predicate Overwritten(hs: Headers, h: Hash, canonical: map<nat, Hash>, n: nat, marker: map<nat, Hash>)
    requires h in hs
  {
    && (forall m :: m in marker <==> (m in canonical && m <= hs[h].number) || n < m < hs[h].number)
    && (forall m :: m in marker ==> marker[m] == if n < m < hs[h].number then At(hs, h, m) else canonical[m])
  }

  lemma OverwriteStep(hs: Headers, g: Hash, h: Hash, head: Hash, n: nat)
    requires Rooted(hs, g) && h in hs && head in hs && n < hs[h].number
    requires ReadCanonical(Path(hs, head), n) != At(hs, h, n)
    ensures n > 0 && At(hs, h, n) in hs && At(hs, h, n - 1) == hs[At(hs, h, n)].parent
    ensures At(hs, h, n - 1) in hs && hs[At(hs, h, n - 1)].number == n - 1
  {
    AtIsStored(hs, g, h, 0);
    AtIsStored(hs, g, head, 0);
    AtIsLinked(hs, g, h, n);
    AtIsStored(hs, g, h, n - 1);
  }

  /** Once an ancestor of the new head is canonical, all numbers below are right already. */
  lemma OverwrittenAll(hs: Headers, g: Hash, h: Hash, head: Hash, n: nat, marker: map<nat, Hash>)
    requires Rooted(hs, g) && h in hs && head in hs && n < hs[h].number
    requires ReadCanonical(Path(hs, head), n) == At(hs, h, n)
    requires Overwritten(hs, h, Path(hs, head), n, marker)
    ensures marker[hs[h].number := h] == Path(hs, h)
  {
    AtIsStored(hs, g, h, n);
    assert n <= hs[head].number;
    forall m: nat | m <= n ensures At(hs, head, m) == At(hs, h, m) {
      AtOfAncestor(hs, g, h, n, m);
      AtOfAncestor(hs, g, head, n, m);
    }
  }
}
