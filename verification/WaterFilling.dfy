/**
 Water-filling: cutting all of the longest lists down to one common level.
 */
module WaterFilling {
  import opened Totals
  import opened Transactions
  import opened TxPoolSpec

  type Lengths = map<Address, nat>

  /** The accounts in `s` are cut to `level`; the others keep their length. */
  ghost function Fill(lens: Lengths, s: set<Address>, level: nat): Lengths {
    map a | a in lens :: if a in s && lens[a] > level then level else lens[a]
  }

  /** Of the accounts in `s`, those in `reached` are above or at `level`, and the others below it. */
  ghost predicate Reaches(lens: Lengths, s: set<Address>, reached: seq<Address>, level: nat) {
    && (forall i, j :: 0 <= i < j < |reached| ==> reached[i] != reached[j])
    && (forall a :: a in reached ==> a in s && a in lens && lens[a] >= level)
    && (forall a :: a in s && a in lens && a !in reached ==> lens[a] < level)
  }

  /** The accounts in `cut` are one lower than level `c`. */
  ghost function Shaved(lens: Lengths, cut: seq<Address>, c: nat): Lengths {
    map a | a in lens :: if a in cut && c > 0 then c - 1 else lens[a]
  }

  /** Taking one off every account that reaches the level lowers the level by one. */
  lemma ShaveLowersLevel(lens: Lengths, s: set<Address>, reached: seq<Address>, level: nat)
    requires level > 0 && Reaches(lens, s, reached, level)
    ensures Shaved(Fill(lens, s, level), reached, level) == Fill(lens, s, level - 1)
  {
  }

  /** A level that no account in `s` exceeds cuts nothing. */
  lemma FillAbove(lens: Lengths, s: set<Address>, level: nat)
    requires forall a :: a in s && a in lens ==> lens[a] <= level
    ensures Fill(lens, s, level) == lens
  {
  }

  lemma {:induction false} BelowTotal(lens: Lengths, a: Address)
    requires a in lens
    ensures lens[a] <= Total(lens)
  {
    TotalWithout(lens, a);
  }

  lemma TotalOfFill(lens: Lengths, s: set<Address>, level: nat, a: Address)
    requires a in lens
    ensures Total(Fill(lens, s, level)) ==
            (if a in s && lens[a] > level then level else lens[a]) + Total(Fill(lens - {a}, s - {a}, level))
  {
    TotalWithout(Fill(lens, s, level), a);
    assert Fill(lens, s, level) - {a} == Fill(lens - {a}, s - {a}, level);
  }

  /** The accounts in `s` that a level cuts. */
  ghost function Above(lens: Lengths, s: set<Address>, level: nat): set<Address> {
    set a | a in s && a in lens && lens[a] > level
  }

  lemma AboveWithout(lens: Lengths, s: set<Address>, level: nat, a: Address)
    requires a in lens
    ensures |Above(lens, s, level)| == |Above(lens - {a}, s - {a}, level)| + if a in s && lens[a] > level then 1 else 0
  {
    var rest := Above(lens - {a}, s - {a}, level);
    assert Above(lens, s, level) == rest + if a in s && lens[a] > level then {a} else {};
  }

  /** Raising the level by one adds one for each account that is cut. */
  lemma {:induction false} FillRises(lens: Lengths, s: set<Address>, level: nat)
    ensures Total(Fill(lens, s, level + 1)) == Total(Fill(lens, s, level)) + |Above(lens, s, level)|
    decreases |lens|
  {
    if lens == map[] {
      assert Fill(lens, s, level) == map[] && Fill(lens, s, level + 1) == map[] && Above(lens, s, level) == {};
    } else {
      hide Fill, Total, Above;
      var a :| a in lens;
      TotalOfFill(lens, s, level, a);
      TotalOfFill(lens, s, level + 1, a);
      AboveWithout(lens, s, level, a);
      FillRises(lens - {a}, s - {a}, level);
    }
  }

  /** If one level more would exceed `limit`, the cut falls short of it by fewer than the accounts that are cut. */
  lemma ShortByFewerThanCut(lens: Lengths, s: set<Address>, level: nat, limit: nat)
    requires Total(Fill(lens, s, level + 1)) > limit
    ensures Total(Fill(lens, s, level)) + |Above(lens, s, level)| > limit
  {
    FillRises(lens, s, level);
  }

  /**
   `now` is `lens` cut to level `c`, which is not below `atLeast`; if anything was cut, one level more exceeds `limit`.
   */
  ghost predicate Leveled(lens: Lengths, s: set<Address>, now: Lengths, c: nat, atLeast: nat, limit: nat) {
    now == Fill(lens, s, c) && c >= atLeast && (now != lens ==> Total(Fill(lens, s, c + 1)) > limit)
  }

  /** The accounts of `s` are split into `offenders`, all at level `c`, and `spammers`, none of them above it. */
  ghost predicate Round(lens: Lengths, s: set<Address>, offenders: seq<Address>, spammers: set<Address>, c: nat) {
    && s <= lens.Keys && spammers <= s
    && (forall i, j :: 0 <= i < j < |offenders| ==> offenders[i] != offenders[j])
    && (forall a :: a in s <==> a in offenders || a in spammers)
    && (forall a :: a in offenders ==> a !in spammers && lens[a] >= c)
    && (forall a :: a in spammers ==> lens[a] <= c)
  }

  /** One pass over the accounts at the current level lowers the level by one. */
  lemma PassLowersLevel(lens: Lengths, s: set<Address>, now: Lengths, c: nat, atLeast: nat, limit: nat,
                        accounts: seq<Address>, floor: nat)
    requires Leveled(lens, s, now, c, atLeast, limit) && atLeast <= floor < c && Total(now) > limit
    requires AboveOthers(lens, s, accounts, c, floor)
    ensures Leveled(lens, s, Shaved(now, accounts, c), c - 1, atLeast, limit)
    ensures AboveOthers(lens, s, accounts, c - 1, floor)
    ensures forall i :: 0 <= i < |accounts| ==> accounts[i] in now && now[accounts[i]] == c
  {
    assert Reaches(lens, s, accounts, c);
    forall i | 0 <= i < |accounts| ensures accounts[i] in now && now[accounts[i]] == c {
      assert accounts[i] in accounts;
    }
    ShaveLowersLevel(lens, s, accounts, c);
  }

  /** The given accounts of `s` are at least at `c`, all others at most at `floor`. */
  ghost predicate AboveOthers(lens: Lengths, s: set<Address>, accounts: seq<Address>, c: nat, floor: nat) {
    && s <= lens.Keys
    && (forall i, j :: 0 <= i < j < |accounts| ==> accounts[i] != accounts[j])
    && (forall a :: a in accounts ==> a in s && lens[a] >= c)
    && (forall a :: a in s && a !in accounts ==> lens[a] <= floor)
  }

  /** Taking the longest of the spammers as the next offender. */
  lemma NextOffender(lens: Lengths, s: set<Address>, offenders: seq<Address>, spammers: set<Address>, c: nat,
                     o: Address)
    requires Round(lens, s, offenders, spammers, c) && o in spammers && forall a :: a in spammers ==> lens[a] <= lens[o]
    ensures lens[o] <= c && AboveOthers(lens, s, offenders, c, lens[o])
    ensures Round(lens, s, offenders + [o], spammers - {o}, lens[o])
    ensures offenders == [] ==> Fill(lens, s, c) == Fill(lens, s, lens[o])
  {
    if offenders == [] {
      FillAbove(lens, s, c);
      FillAbove(lens, s, lens[o]);
    }
  }

  method SumLengths(lens: Lengths) returns (total: nat)
    ensures total == Total(lens)
  {
    total := 0;
    var todo := lens;
    while todo != map[]
      invariant todo.Keys <= lens.Keys && (forall a :: a in todo ==> todo[a] == lens[a])
      invariant total + Total(todo) == Total(lens)
      decreases |todo|
    {
      var a :| a in todo;
      TotalWithout(todo, a);
      total := total + todo[a];
      todo := todo - {a};
    }
  }

  /** Pop of a priority queue in which every account has its length as priority. */
  method PopLongest(lens: Lengths, queue: set<Address>) returns (longest: Address)
    requires queue != {} && queue <= lens.Keys
    ensures longest in queue && forall a :: a in queue ==> lens[a] <= lens[longest]
  {
    longest :| longest in queue;
    var todo := queue;
    while todo != {}
      invariant todo <= queue && longest in queue && forall a :: a in queue && a !in todo ==> lens[a] <= lens[longest]
      decreases |todo|
    {
      var a :| a in todo;
      if lens[a] > lens[longest] {
        longest := a;
      }
      todo := todo - {a};
    }
  }
}
