/** The reconciler's view of the chain: sequences of rule entries, and the three operations it uses. */
module Rules {
  import opened Tables

  ghost function Elements<T>(s: seq<T>): set<T> {
    set x | x in s
  }

  /** sliceDifference: the elements of `a`, in order and with repetitions, that do not occur in `b`. */
  function Difference(a: seq<RuleEntry>, b: seq<RuleEntry>): seq<RuleEntry> {
    if a == [] then []
    else if a[0] in b then Difference(a[1..], b)
    else [a[0]] + Difference(a[1..], b)
  }

  /** iptables.AppendUnique: append unless an equal rule is there already. */
  function AppendUnique<T(==)>(chain: seq<T>, r: T): seq<T> {
    if r in chain then chain else chain + [r]
  }

  /** iptables.Delete: remove the first matching rule. */
  function DeleteFirst<T(==)>(chain: seq<T>, r: T): seq<T>
    requires r in chain
  {
    if chain[0] == r then chain[1..] else [chain[0]] + DeleteFirst(chain[1..], r)
  }

  /** Set and multiplicity of a difference: exactly the occurrences in `a` of what is not in `b`. */
  lemma {:induction false} DifferenceCounts(a: seq<RuleEntry>, b: seq<RuleEntry>, r: RuleEntry)
    ensures r in Difference(a, b) <==> r in a && r !in b
    ensures multiset(Difference(a, b))[r] == if r in b then 0 else multiset(a)[r]
  {
    if a == [] {
    } else {
      DifferenceCounts(a[1..], b, r);
      assert a == [a[0]] + a[1..];
    }
  }

  lemma {:induction false} DeleteFirstRemovesOne<T>(chain: seq<T>, r: T)
    requires r in chain
    ensures multiset(DeleteFirst(chain, r)) == multiset(chain) - multiset{r}
  {
    assert chain == [chain[0]] + chain[1..];
    if chain[0] == r {
    } else {
      DeleteFirstRemovesOne(chain[1..], r);
    }
  }

  lemma DifferenceElements(a: seq<RuleEntry>, b: seq<RuleEntry>)
    ensures Elements(Difference(a, b)) == Elements(a) - Elements(b)
  {
    forall r ensures r in Difference(a, b) <==> r in a && r !in b {
      DifferenceCounts(a, b, r);
    }
  }

  /** The chain holds every desired rule that is not still waiting in `add`. */
  ghost predicate Supplied(chain: seq<RuleEntry>, desired: seq<RuleEntry>, add: seq<RuleEntry>) {
    && (forall r :: r in desired ==> r in chain || r in add)
    && (forall r :: r in add ==> r in desired)
  }

  /** Every undesired occurrence in the chain is still waiting in `remove`. */
  ghost predicate Condemned(chain: seq<RuleEntry>, desired: seq<RuleEntry>, remove: seq<RuleEntry>) {
    && (forall r :: r in remove ==> r !in desired)
    && (forall r :: r in chain && r !in desired ==> multiset(chain)[r] <= multiset(remove)[r])
  }

  lemma DiffStartsPhases(existing: seq<RuleEntry>, desired: seq<RuleEntry>)
    ensures Supplied(existing, desired, Difference(desired, existing))
    ensures Condemned(existing, desired, Difference(existing, desired))
  {
    forall r ensures r in Difference(desired, existing) <==> r in desired && r !in existing {
      DifferenceCounts(desired, existing, r);
    }
    forall r ensures r in Difference(existing, desired) <==> r in existing && r !in desired
      ensures multiset(Difference(existing, desired))[r] == if r in desired then 0 else multiset(existing)[r]
    {
      DifferenceCounts(existing, desired, r);
    }
  }

  /** An AppendUnique that adds the next rule, or finds it present, keeps both phases' invariants. */
  lemma AppendKeepsPhases(chain: seq<RuleEntry>, desired: seq<RuleEntry>, add: seq<RuleEntry>,
                          remove: seq<RuleEntry>, chain': seq<RuleEntry>)
    requires add != []
    requires chain' == chain + [add[0]] || (chain' == chain && add[0] in chain)
    requires Supplied(chain, desired, add) && Condemned(chain, desired, remove)
    ensures Supplied(chain', desired, add[1..]) && Condemned(chain', desired, remove)
  {
    assert add == [add[0]] + add[1..];
    forall r | r in chain' && r !in desired ensures multiset(chain')[r] <= multiset(remove)[r] {
      assert r in chain;
    }
  }

  /** A Delete that takes out one occurrence of the next rule keeps both phases' invariants. */
  lemma DeleteKeepsPhases(chain: seq<RuleEntry>, desired: seq<RuleEntry>, remove: seq<RuleEntry>,
                          chain': seq<RuleEntry>)
    requires remove != [] && multiset(chain') == multiset(chain) - multiset{remove[0]}
    requires Supplied(chain, desired, []) && Condemned(chain, desired, remove)
    ensures Supplied(chain', desired, []) && Condemned(chain', desired, remove[1..])
  {
    assert remove == [remove[0]] + remove[1..];
    forall r | r in desired ensures r in chain' {
      assert r in chain && r !in remove;
      assert r in multiset(chain);
      assert r in multiset(chain');
    }
    forall r | r in chain' && r !in desired ensures multiset(chain')[r] <= multiset(remove[1..])[r] {
      assert r in multiset(chain') && r in multiset(chain);
    }
  }

  lemma PhasesEnd(chain: seq<RuleEntry>, desired: seq<RuleEntry>)
    requires Supplied(chain, desired, []) && Condemned(chain, desired, [])
    ensures Elements(chain) == Elements(desired)
  {
    forall r | r in chain ensures r in desired {
      assert multiset(chain)[r] > 0;
    }
  }
}
