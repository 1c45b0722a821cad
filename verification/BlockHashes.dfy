/**
 The BLOCKHASH lookup of the virtual machine: hashes of the ancestors of a block by number, with a cache that
 grows along the parent links.
 */
module BlockHashes {
  import opened Options
  import opened Ancestry
  import opened HeaderChains

  /** What an uncached walk from the parent of `ref` answers for number `n`. */
  ghost function WalkedHash(hs: Headers, ref: Header, n: nat): Hash {
    if n < ref.number then Ancestor(hs, ref.parent, ref.number - 1 - n) else EMPTY_HASH
  }

  /** `cache` lists the ancestors of `ref`, the parent first. */
  ghost predicate Follows(hs: Headers, ref: Header, cache: seq<Hash>) {
    forall i :: 0 <= i < |cache| ==> cache[i] == Ancestor(hs, ref.parent, i)
  }

  /** The parent of `ref` has, if it is stored at all, the number below. */
  ghost predicate Fits(hs: Headers, ref: Header) {
    ref.number > 0 && (ref.parent in hs ==> hs[ref.parent].number == ref.number - 1)
  }

  /** What the header at the end of the cache is and what comes after it. */
  lemma CacheEnd(hs: Headers, g: Hash, ref: Header, k: nat)
    requires Rooted(hs, g) && Fits(hs, ref) && k <= ref.number
    ensures Ancestor(hs, ref.parent, k) in hs ==>
              && k < ref.number && hs[Ancestor(hs, ref.parent, k)].number == ref.number - 1 - k
              && hs[Ancestor(hs, ref.parent, k)].parent == Ancestor(hs, ref.parent, k + 1)
    ensures Ancestor(hs, ref.parent, k) !in hs ==> forall m: nat :: m > k ==> Ancestor(hs, ref.parent, m) == EMPTY_HASH
  {
    var h := Ancestor(hs, ref.parent, k);
    if ref.parent in hs {
      if k < ref.number {
        AncestorIsStored(hs, g, ref.parent, k);
      } else {
        BeyondGenesis(hs, g, ref.parent);
      }
    }
    if h in hs {
      AncestorsCompose(hs, ref.parent, k, 1);
      OneStep(hs, g, h);
    } else {
      forall m: nat | m > k ensures Ancestor(hs, ref.parent, m) == EMPTY_HASH {
        AncestorsCompose(hs, ref.parent, k, m - k);
      }
    }
  }

  /** One step past the genesis there is nothing. */
  lemma BeyondGenesis(hs: Headers, g: Hash, h: Hash)
    requires Rooted(hs, g) && h in hs
    ensures Ancestor(hs, h, hs[h].number + 1) == EMPTY_HASH
  {
    AncestorIsStored(hs, g, h, hs[h].number);
    assert Sound(hs, g, Ancestor(hs, h, hs[h].number));
    AncestorsCompose(hs, h, hs[h].number, 1);
    OneStep(hs, g, g);
  }

  class HashFn {
    const ref: Header
    const headers: Headers
    ghost const genesis: Hash
    var cache: seq<Hash>

    ghost predicate Valid()
      reads this
    {
      Rooted(headers, genesis) && Fits(headers, ref) && Follows(headers, ref, cache) && |cache| <= ref.number + 1
    }

    constructor (ref: Header, headers: Headers, ghost genesis: Hash)
      requires Rooted(headers, genesis) && Fits(headers, ref)
      ensures Valid() && this.ref == ref && this.headers == headers && cache == []
    {
      this.ref, this.headers, this.genesis, cache := ref, headers, genesis, [];
    }

    /** The hash of the ancestor with number `n`, whatever was asked before. */
    method Get(n: nat) returns (hash: Hash)
      requires Valid()
      modifies this
      ensures Valid() && hash == WalkedHash(headers, ref, n)
    {
      hide Rooted, Fits, Ancestor;
      if |cache| == 0 {
        FirstOfCache(headers, ref);
        cache := [ref.parent];
      }
      if n < ref.number && ref.number - n - 1 < |cache| {
        return cache[ref.number - n - 1];
      }
      var lastHash := cache[|cache| - 1];
      var lastNumber: int := ref.number - |cache|;
      while true
        invariant Valid() && 0 < |cache| && lastHash == cache[|cache| - 1] && lastNumber == ref.number - |cache|
        invariant n < ref.number ==> |cache| <= ref.number - n - 1
        decreases ref.number + 1 - |cache|
      {
        CacheEnd(headers, genesis, ref, |cache| - 1);
        var header := ReadHeader(headers, lastHash, lastNumber);
        if header == None {
          break;
        }
        cache := cache + [header.value.parent];
        lastHash, lastNumber := header.value.parent, header.value.number - 1;
        if n == lastNumber {
          return lastHash;
        }
      }
      return EMPTY_HASH;
    }
  }

  lemma FirstOfCache(hs: Headers, ref: Header)
    ensures Follows(hs, ref, [ref.parent])
  {
  }

  /** Any sequence of queries is answered as by uncached walks. */
  method Queries(f: HashFn, ns: seq<nat>) returns (hashes: seq<Hash>)
    requires f.Valid()
    modifies f
    ensures f.Valid() && |hashes| == |ns|
    ensures forall i :: 0 <= i < |ns| ==> hashes[i] == WalkedHash(f.headers, f.ref, ns[i])
  {
    hide WalkedHash;
    hashes := [];
    for i := 0 to |ns|
      invariant f.Valid() && |hashes| == i
      invariant forall k :: 0 <= k < i ==> hashes[k] == WalkedHash(f.headers, f.ref, ns[k])
    {
      var h := f.Get(ns[i]);
      hashes := hashes + [h];
    }
  }
}
