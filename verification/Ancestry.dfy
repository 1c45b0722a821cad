/**
 Headers linked by parent hashes, and the naive walk along these links that everything faster is measured by.
 */
module Ancestry {

  /** Hashes identify headers; the empty hash stands for "none" wherever the database is read. */
  type Hash = nat
  const EMPTY_HASH: Hash := 0

  datatype Header = Header(hash: Hash, parent: Hash, number: nat, difficulty: int)

  type Headers = map<Hash, Header>

  /** A stored header has its hash as key, and, unless it is the genesis, a stored parent with the number below. */
  ghost predicate Sound(hs: Headers, genesis: Hash, h: Hash) {
    && h in hs && hs[h].hash == h && (hs[h].number == 0 <==> h == genesis)
    && (h != genesis ==> hs[h].parent in hs && hs[hs[h].parent].number + 1 == hs[h].number)
  }

  /** The header database is sound and starts at the genesis. */
  ghost predicate Rooted(hs: Headers, genesis: Hash) {
    && EMPTY_HASH !in hs && genesis in hs && hs[genesis].parent == EMPTY_HASH
    && forall h {:trigger Sound(hs, genesis, h)} :: h in hs ==> Sound(hs, genesis, h)
  }

  /** The k-th ancestor of `h` by walking parent links; empty if a header is missing on the way. */
  ghost function Ancestor(hs: Headers, h: Hash, k: nat): Hash
    decreases k
  {
    if k == 0 then h else if h in hs then Ancestor(hs, hs[h].parent, k - 1) else EMPTY_HASH
  }

  /** The difficulties of `h` and of its first `k` ancestors, added up. */
  ghost function SumDifficulty(hs: Headers, h: Hash, k: nat): int
    decreases k
  {
    if h !in hs then 0 else hs[h].difficulty + if k == 0 then 0 else SumDifficulty(hs, hs[h].parent, k - 1)
  }

  /** The ancestor of `h` at number `n`. */
  ghost function At(hs: Headers, h: Hash, n: nat): Hash {
    if h in hs && n <= hs[h].number then Ancestor(hs, h, hs[h].number - n) else EMPTY_HASH
  }

  /** What the canonical index should be for head `h`: number to hash along the ancestors. */
  ghost function Path(hs: Headers, h: Hash): map<nat, Hash> {
    if h in hs then map n: nat | 0 <= n <= hs[h].number :: At(hs, h, n) else map[]
  }

  lemma {:induction false} AncestorIsStored(hs: Headers, g: Hash, h: Hash, k: nat)
    requires Rooted(hs, g) && h in hs && k <= hs[h].number
    ensures Ancestor(hs, h, k) in hs && hs[Ancestor(hs, h, k)].number == hs[h].number - k
    decreases k
  {
    assert Sound(hs, g, h);
    if k > 0 {
      AncestorIsStored(hs, g, hs[h].parent, k - 1);
    }
  }

  /** Walking j and then k steps is walking j + k steps. */
  lemma {:induction false} AncestorsCompose(hs: Headers, h: Hash, j: nat, k: nat)
    requires EMPTY_HASH !in hs
    ensures Ancestor(hs, Ancestor(hs, h, j), k) == Ancestor(hs, h, j + k)
    decreases j
  {
    if j > 0 {
      if h in hs {
        AncestorsCompose(hs, hs[h].parent, j - 1, k);
      } else {
        EmptyStaysEmpty(hs, k);
      }
    }
  }

  lemma EmptyStaysEmpty(hs: Headers, k: nat)
    requires EMPTY_HASH !in hs
    ensures Ancestor(hs, EMPTY_HASH, k) == EMPTY_HASH
  {
  }

  /** Storing more headers does not change the ancestors of the stored ones. */
  lemma {:induction false} AncestorIsStable(hs: Headers, hs': Headers, g: Hash, h: Hash, k: nat)
    requires Rooted(hs, g) && h in hs && k <= hs[h].number
    requires forall x :: x in hs ==> x in hs' && hs'[x] == hs[x]
    ensures Ancestor(hs', h, k) == Ancestor(hs, h, k)
    decreases k
  {
    assert Sound(hs, g, h);
    if k > 0 {
      AncestorIsStable(hs, hs', g, hs[h].parent, k - 1);
    }
  }

  lemma {:induction false} SumIsStable(hs: Headers, hs': Headers, g: Hash, h: Hash, k: nat)
    requires Rooted(hs, g) && h in hs && k <= hs[h].number
    requires forall x :: x in hs ==> x in hs' && hs'[x] == hs[x]
    ensures SumDifficulty(hs', h, k) == SumDifficulty(hs, h, k)
    decreases k
  {
    assert Sound(hs, g, h);
    if k > 0 {
      SumIsStable(hs, hs', g, hs[h].parent, k - 1);
    }
  }

  lemma AtIsStored(hs: Headers, g: Hash, h: Hash, n: nat)
    requires Rooted(hs, g) && h in hs && n <= hs[h].number
    ensures At(hs, h, n) in hs && hs[At(hs, h, n)].number == n
    ensures n == hs[h].number ==> At(hs, h, n) == h
    ensures n == 0 ==> At(hs, h, n) == g
  {
    AncestorIsStored(hs, g, h, hs[h].number - n);
    assert Sound(hs, g, At(hs, h, n));
  }

  /** Neighbours on a path are linked by parent hashes. */
  lemma AtIsLinked(hs: Headers, g: Hash, h: Hash, n: nat)
    requires Rooted(hs, g) && h in hs && 0 < n <= hs[h].number
    ensures At(hs, h, n) in hs && hs[At(hs, h, n)].parent == At(hs, h, n - 1)
  {
    AtIsStored(hs, g, h, n);
    AncestorsCompose(hs, h, hs[h].number - n, 1);
    assert Ancestor(hs, At(hs, h, n), 1) == Ancestor(hs, hs[At(hs, h, n)].parent, 0);
  }

  /** The path of an ancestor is the lower part of the path. */
  lemma AtOfAncestor(hs: Headers, g: Hash, h: Hash, n: nat, m: nat)
    requires Rooted(hs, g) && h in hs && m <= n <= hs[h].number
    ensures At(hs, At(hs, h, n), m) == At(hs, h, m)
  {
    AtIsStored(hs, g, h, n);
    AncestorsCompose(hs, h, hs[h].number - n, n - m);
  }

  /** Below a header, its path is the path of its parent. */
  lemma AtOfParent(hs: Headers, g: Hash, h: Hash, m: nat)
    requires Rooted(hs, g) && h in hs && m < hs[h].number
    ensures At(hs, h, m) == At(hs, hs[h].parent, m)
  {
    assert Sound(hs, g, h);
  }

  /** The path is stable when more headers are stored. */
  lemma AtIsStable(hs: Headers, hs': Headers, g: Hash, h: Hash, n: nat)
    requires Rooted(hs, g) && h in hs && n <= hs[h].number
    requires forall x :: x in hs ==> x in hs' && hs'[x] == hs[x]
    ensures At(hs', h, n) == At(hs, h, n)
  {
    AncestorIsStable(hs, hs', g, h, hs[h].number - n);
  }
}
