/** The reconcile of the firewall, call by call, is the consumer loop of the server model. */
module Reconciler {
  import opened Tables
  import opened Rules
  import opened RuleText
  import opened Firewall
  import opened Server

  /** The chain after an AppendUnique of each entry in turn. */
  ghost function Appended(chain: seq<RuleEntry>, es: seq<RuleEntry>): seq<RuleEntry> {
    if es == [] then chain else AppendUnique(Appended(chain, es[..|es| - 1]), es[|es| - 1])
  }

  /** The chain after a Delete of each entry in turn, where it is present. */
  ghost function Deleted(chain: seq<RuleEntry>, es: seq<RuleEntry>): seq<RuleEntry> {
    if es == [] then chain
    else
      var before, e := Deleted(chain, es[..|es| - 1]), es[|es| - 1];
      if e in before then DeleteFirst(before, e) else before
  }

  /** On a chain of our own rules, adding to the kernel's chain is adding to the entries it reads as. */
  lemma {:induction false} AddedRefines(c: Codec, rules: seq<KernelRule>, es: seq<RuleEntry>)
    requires Lawful(c) && Ours(c, rules) && Readable(c, rules) && forall e :: e in es ==> c.good(e)
    ensures var after := Added(c, rules, es);
            Ours(c, after) && Readable(c, after) && Entries(c, after) == Appended(Entries(c, rules), es)
  {
    if es == [] {
    } else {
      AddedRefines(c, rules, es[..|es| - 1]);
      AppendRefines(c, Added(c, rules, es[..|es| - 1]), es[|es| - 1]);
    }
  }

  /** And so is deleting. */
  lemma {:induction false} RemovedRefines(c: Codec, rules: seq<KernelRule>, es: seq<RuleEntry>)
    requires Lawful(c) && Ours(c, rules) && Readable(c, rules) && forall e :: e in es ==> c.good(e)
    ensures var after := Removed(c, rules, es);
            Ours(c, after) && Readable(c, after) && Entries(c, after) == Deleted(Entries(c, rules), es)
  {
    if es == [] {
    } else {
      var before, e := Removed(c, rules, es[..|es| - 1]), es[|es| - 1];
      RemovedRefines(c, rules, es[..|es| - 1]);
      FoundIffRead(c, before, e);
      if e in Entries(c, before) {
        var k := Rule(c, e).value;
        var at := FirstIndex(before, k);
        DeleteFirstAt(before, k, at);
        assert k !in before[..at];
        DeleteRefines(c, before, e, at);
      }
    }
  }

  lemma FoundIffRead(c: Codec, rules: seq<KernelRule>, e: RuleEntry)
    requires Lawful(c) && Ours(c, rules) && Readable(c, rules) && c.good(e)
    ensures Rule(c, e).Some? && (Rule(c, e).value in rules <==> e in Entries(c, rules))
  {
    EntriesElements(c, rules, e);
  }

  ghost predicate StepOf<S(!new)>(next: (S, S) -> bool, ss: seq<S>, i: nat)
    requires i + 1 < |ss|
  {
    next(ss[i], ss[i + 1])
  }

  ghost predicate Path<S(!new)>(next: (S, S) -> bool, ss: seq<S>, s: S, s': S) {
    && ss != [] && ss[0] == s && ss[|ss| - 1] == s'
    && forall i :: 0 <= i < |ss| - 1 ==> StepOf(next, ss, i)
  }

  /** From `s` to `s'` in any number of steps. */
  ghost predicate Leads<S(!new)>(next: (S, S) -> bool, s: S, s': S) {
    exists ss :: Path(next, ss, s, s')
  }

  lemma NoStep<S(!new)>(next: (S, S) -> bool, s: S)
    ensures Leads(next, s, s)
  {
    assert Path(next, [s], s, s);
  }

  lemma OneMore<S(!new)>(next: (S, S) -> bool, s: S, s1: S, s': S)
    requires Leads(next, s, s1) && next(s1, s')
    ensures Leads(next, s, s')
  {
    var ss :| Path(next, ss, s, s1);
    var tt := ss + [s'];
    forall i | 0 <= i < |tt| - 1 ensures StepOf(next, tt, i) {
      assert i < |ss| - 1 ==> StepOf(next, ss, i);
    }
    assert Path(next, tt, s, s');
  }

  lemma LeadsJoin<S(!new)>(next: (S, S) -> bool, s: S, s1: S, s': S)
    requires Leads(next, s, s1) && Leads(next, s1, s')
    ensures Leads(next, s, s')
  {
    var ss :| Path(next, ss, s, s1);
    var tt :| Path(next, tt, s1, s');
    var all := ss + tt[1..];
    forall i | 0 <= i < |all| - 1 ensures StepOf(next, all, i) {
      assert i < |ss| - 1 ==> StepOf(next, ss, i);
      assert i >= |ss| - 1 ==> StepOf(next, tt, i - (|ss| - 1));
    }
    assert Path(next, all, s, s');
  }

  /** The consumer makes one change to the chain, or ends a phase. */
  ghost const Changes: (State, State) -> bool := (s, s') => ConsumerNext(s, ChangeChain, s')

  /** The consumer that has begun at `s` to add, `n` additions later. */
  ghost function AfterAdding(s: State, n: nat): State
    requires s.consumer.Adding? && n <= |s.consumer.add|
  {
    var x := s.consumer;
    s.(chain := Appended(s.chain, x.add[..n]), consumer := Adding(x.desired, x.add[n..], x.remove))
  }

  /** The consumer that has begun at `s` to remove, `n` deletions later. */
  ghost function AfterRemoving(s: State, n: nat): State
    requires s.consumer.Removing? && n <= |s.consumer.remove|
  {
    var x := s.consumer;
    s.(chain := Deleted(s.chain, x.remove[..n]), consumer := Removing(x.desired, x.remove[n..]))
  }

  lemma AddingSteps(s: State, n: nat)
    requires s.consumer.Adding? && n < |s.consumer.add|
    ensures Changes(AfterAdding(s, n), AfterAdding(s, n + 1))
  {
    var add := s.consumer.add;
    assert add[..n + 1][..n] == add[..n] && add[n..][1..] == add[n + 1..];
  }

  lemma {:induction false} AddingRuns(s: State, n: nat)
    requires s.consumer.Adding? && n <= |s.consumer.add|
    ensures Leads(Changes, s, AfterAdding(s, n))
  {
    if n == 0 {
      assert s.consumer.add[0..] == s.consumer.add;
      NoStep(Changes, s);
    } else {
      AddingRuns(s, n - 1);
      AddingSteps(s, n - 1);
      OneMore(Changes, s, AfterAdding(s, n - 1), AfterAdding(s, n));
    }
  }

  lemma RemovingSteps(s: State, n: nat)
    requires s.consumer.Removing? && n < |s.consumer.remove|
    requires s.consumer.remove[n] in Deleted(s.chain, s.consumer.remove[..n])
    ensures Changes(AfterRemoving(s, n), AfterRemoving(s, n + 1))
  {
    var remove := s.consumer.remove;
    assert remove[..n + 1][..n] == remove[..n] && remove[n..][1..] == remove[n + 1..];
  }

  lemma {:induction false} RemovingRuns(s: State, n: nat)
    requires s.consumer.Removing? && n <= |s.consumer.remove|
    requires forall i :: 0 <= i < n ==> s.consumer.remove[i] in Deleted(s.chain, s.consumer.remove[..i])
    ensures Leads(Changes, s, AfterRemoving(s, n))
  {
    if n == 0 {
      assert s.consumer.remove[0..] == s.consumer.remove;
      NoStep(Changes, s);
    } else {
      RemovingRuns(s, n - 1);
      RemovingSteps(s, n - 1);
      OneMore(Changes, s, AfterRemoving(s, n - 1), AfterRemoving(s, n));
    }
  }

  /** Each of the first `n` deletions finds its entry. */
  lemma DeletionsFind(c: Codec, rules: seq<KernelRule>, es: seq<RuleEntry>, n: nat, i: nat)
    requires Lawful(c) && Ours(c, rules) && Readable(c, rules) && forall e :: e in es ==> c.good(e)
    requires i < n <= |es| && Deletable(c, rules, es[..n])
    ensures es[i] in Deleted(Entries(c, rules), es[..i])
  {
    assert es[..n][..i + 1] == es[..i + 1] && es[..n][..i] == es[..i];
    DeletablePrefix(c, rules, es[..n], i + 1);
    DeletablePrefix(c, rules, es[..n], i);
    assert es[i] in es;
    RemovedMore(c, rules, es, i);
    RemovedRefines(c, rules, es[..i]);
    FoundIffRead(c, Removed(c, rules, es[..i]), es[i]);
  }

  /** Where the consumer, reading the chain at `s`, stands after `m` additions and `n` deletions. */
  ghost function StandsAt(s: State, m: nat, n: nat): Consumer
    requires s.consumer.Reading?
  {
    var add, remove := Difference(s.consumer.desired, s.chain), Difference(s.chain, s.consumer.desired);
    if m < |add| then Adding(s.consumer.desired, add[m..], remove)
    else if n <= |remove| then Removing(s.consumer.desired, remove[n..])
    else Idle(false)
  }

  ghost function Began(s: State): State
    requires s.consumer.Reading?
  {
    var desired := s.consumer.desired;
    s.(consumer := Adding(desired, Difference(desired, s.chain), Difference(s.chain, desired)))
  }

  lemma AdditionsRun(c: Codec, rules: seq<KernelRule>, s: State, m: nat)
    requires Lawful(c) && Ours(c, rules) && Readable(c, rules) && s.chain == Entries(c, rules)
    requires s.consumer.Adding? && m <= |s.consumer.add| && forall i :: 0 <= i < m ==> c.good(s.consumer.add[i])
    ensures var after := Added(c, rules, s.consumer.add[..m]);
            && Ours(c, after) && Readable(c, after)
            && AfterAdding(s, m).chain == Entries(c, after) && Leads(Changes, s, AfterAdding(s, m))
  {
    AddedRefines(c, rules, s.consumer.add[..m]);
    AddingRuns(s, m);
  }

  lemma RemovalsRun(c: Codec, rules: seq<KernelRule>, s: State, n: nat)
    requires Lawful(c) && Ours(c, rules) && Readable(c, rules) && s.chain == Entries(c, rules)
    requires s.consumer.Removing? && forall e :: e in s.consumer.remove ==> c.good(e)
    requires n <= |s.consumer.remove| && Deletable(c, rules, s.consumer.remove[..n])
    ensures var after := Removed(c, rules, s.consumer.remove[..n]);
            && Readable(c, after)
            && AfterRemoving(s, n).chain == Entries(c, after) && Leads(Changes, s, AfterRemoving(s, n))
  {
    var remove := s.consumer.remove;
    forall i | 0 <= i < n ensures remove[i] in Deleted(s.chain, remove[..i]) {
      DeletionsFind(c, rules, remove, n, i);
    }
    RemovingRuns(s, n);
    RemovedRefines(c, rules, remove[..n]);
  }

  lemma AdditionsEnd(s: State)
    requires s.consumer.Adding? && s.consumer.add == []
    ensures Changes(s, s.(consumer := Removing(s.consumer.desired, s.consumer.remove)))
  {
  }

  lemma RemovalsEnd(s: State)
    requires s.consumer.Removing? && s.consumer.remove == []
    ensures Changes(s, s.(consumer := Idle(true)))
  {
  }

  lemma ReadingBegins(s: State)
    requires s.consumer.Reading?
    ensures ConsumerNext(s, ReadChain, Began(s))
  {
  }

  lemma BothPhasesRun(c: Codec, rules: seq<KernelRule>, s: State, n: nat)
    requires Lawful(c) && Ours(c, rules) && Readable(c, rules) && s.chain == Entries(c, rules) && s.consumer.Adding?
    requires forall e :: e in s.consumer.add || e in s.consumer.remove ==> c.good(e)
    requires n <= |s.consumer.remove| && Deletable(c, Added(c, rules, s.consumer.add), s.consumer.remove[..n])
    ensures var x, after := s.consumer, Removed(c, Added(c, rules, s.consumer.add), s.consumer.remove[..n]);
            && Readable(c, after)
            && Leads(Changes, s,
                     s.(chain := Entries(c, after), consumer := Removing(x.desired, x.remove[n..])))
  {
    var x := s.consumer;
    assert x.add[..|x.add|] == x.add && x.add[|x.add|..] == [];
    AdditionsRun(c, rules, s, |x.add|);
    var s2 := AfterAdding(s, |x.add|);
    var s3 := s2.(consumer := Removing(x.desired, x.remove));
    AdditionsEnd(s2);
    RemovalsRun(c, Added(c, rules, x.add), s3, n);
    OneMore(Changes, s, s2, s3);
    LeadsJoin(Changes, s, s3, AfterRemoving(s3, n));
  }

  /** Over a chain of our own rules, what Chain.Reconcile has done to the kernel's chain, wherever it
      stops, the consumer does to the entries, from the moment it reads the chain; and where the
      reconcile is complete the consumer is one step from Idle(true). */
  lemma ReconcileIsRun(c: Codec, rules: seq<KernelRule>, desired: seq<RuleEntry>, m: nat, n: nat,
                       after: seq<KernelRule>, s: State)
    requires Lawful(c) && Ours(c, rules) && Readable(c, rules) && AllAcceptable(c, desired)
    requires Progress(c, rules, desired, m, n, after)
    requires s.consumer == Reading(desired) && s.chain == Entries(c, rules)
    ensures Readable(c, after) && ConsumerNext(s, ReadChain, Began(s))
    ensures var s' := s.(chain := Entries(c, after), consumer := StandsAt(s, m, n));
            && Leads(Changes, Began(s), s')
            && (Complete(c, rules, desired, m, n) ==> Changes(s', s'.(consumer := Idle(true))))
  {
    var s1, add, remove := Began(s), Began(s).consumer.add, Began(s).consumer.remove;
    ReadingBegins(s);
    GoodDifferences(c, rules, desired, m);
    if m < |add| {
      assert remove[..n] == [];
      AdditionsRun(c, rules, s1, m);
    } else {
      assert add[..m] == add;
      BothPhasesRun(c, rules, s1, n);
      if n == |remove| {
        RemovalsEnd(s.(chain := Entries(c, after), consumer := StandsAt(s, m, n)));
      }
    }
  }

  // ---------- The consumer can always finish ----------

  /** Every rule still to be removed is there, as often as it is listed. */
  ghost predicate Ready(s: State) {
    && (s.consumer.Adding? ==> multiset(s.consumer.remove) <= multiset(s.chain))
    && (s.consumer.Removing? ==> multiset(s.consumer.remove) <= multiset(s.chain))
  }

  /** Where a consumer that has read the chain gets when none of its calls fails. */
  ghost predicate Finishes(s: State, s': State) {
    Leads(Changes, s, s') && s' == s.(chain := s'.chain, consumer := Idle(true))
  }

  lemma StepThenFinish(s: State, s1: State, s': State)
    requires Changes(s, s1) && Finishes(s1, s') && s1 == s.(chain := s1.chain, consumer := s1.consumer)
    ensures Finishes(s, s')
  {
    NoStep(Changes, s);
    OneMore(Changes, s, s, s1);
    LeadsJoin(Changes, s, s1, s');
  }

  lemma {:induction false} RemovingFinishes(s: State) returns (s': State)
    requires s.consumer.Removing? && Ready(s)
    requires PhaseInv(s)
    ensures Finishes(s, s') && Elements(s'.chain) == Elements(s.consumer.desired)
    decreases |s.consumer.remove|
  {
    var x := s.consumer;
    if x.remove == [] {
      s' := s.(consumer := Idle(true));
      NoStep(Changes, s);
      RemovalsEnd(s);
      OneMore(Changes, s, s, s');
      PhasesEnd(s.chain, x.desired);
    } else {
      var s1 := RemovingAdvances(s);
      s' := RemovingFinishes(s1);
      StepThenFinish(s, s1, s');
    }
  }

  lemma RemovingAdvances(s: State) returns (s1: State)
    requires s.consumer.Removing? && Ready(s) && PhaseInv(s) && s.consumer.remove != []
    ensures Changes(s, s1) && s1 == s.(chain := s1.chain, consumer := s1.consumer)
    ensures s1.consumer == Removing(s.consumer.desired, s.consumer.remove[1..]) && Ready(s1) && PhaseInv(s1)
  {
    var x := s.consumer;
    assert x.remove == [x.remove[0]] + x.remove[1..];
    assert x.remove[0] in multiset(x.remove) && x.remove[0] in multiset(s.chain);
    s1 := s.(chain := DeleteFirst(s.chain, x.remove[0]), consumer := Removing(x.desired, x.remove[1..]));
    DeleteFirstRemovesOne(s.chain, x.remove[0]);
    DeleteKeepsPhases(s.chain, x.desired, x.remove, s1.chain);
  }

  lemma {:induction false} AddingFinishes(s: State) returns (s': State)
    requires s.consumer.Adding? && Ready(s) && PhaseInv(s)
    ensures Finishes(s, s') && Elements(s'.chain) == Elements(s.consumer.desired)
    decreases |s.consumer.add|
  {
    var x := s.consumer;
    if x.add == [] {
      var s1 := s.(consumer := Removing(x.desired, x.remove));
      AdditionsEnd(s);
      s' := RemovingFinishes(s1);
      StepThenFinish(s, s1, s');
    } else {
      var s1 := AddingAdvances(s);
      s' := AddingFinishes(s1);
      StepThenFinish(s, s1, s');
    }
  }

  lemma AddingAdvances(s: State) returns (s1: State)
    requires s.consumer.Adding? && Ready(s) && PhaseInv(s) && s.consumer.add != []
    ensures Changes(s, s1) && s1 == s.(chain := s1.chain, consumer := s1.consumer)
    ensures s1.consumer == Adding(s.consumer.desired, s.consumer.add[1..], s.consumer.remove)
    ensures Ready(s1) && PhaseInv(s1)
  {
    var x := s.consumer;
    s1 := s.(chain := AppendUnique(s.chain, x.add[0]), consumer := Adding(x.desired, x.add[1..], x.remove));
    AppendKeepsPhases(s.chain, x.desired, x.add, x.remove, s1.chain);
  }

  /** A trigger is never in vain: from any idle state with one queued, whatever the chain holds, the
      consumer can take it, list, read, and change the chain until it is what the tables ask for. */
  lemma TriggerCanReconcile(s: State, keys: seq<AddressKey>) returns (listing: State, reading: State, s': State)
    requires s.consumer.Idle? && s.st.queue > 0 && Enumerates(keys, s.st.addresses)
    ensures ConsumerNext(s, Take, listing) && ConsumerNext(listing, ListAddresses(keys), reading)
    ensures reading.consumer.Reading? && ConsumerNext(reading, ReadChain, Began(reading))
    ensures Leads(Changes, Began(reading), s')
    ensures s'.consumer == Idle(true) && Elements(s'.chain) == Wanted(s'.st)
    ensures s' == s.(st := s.st.(queue := s.st.queue - 1, silent := {}), chain := s'.chain, consumer := Idle(true))
  {
    var desired := JoinRules(s.st.instances, keys);
    listing := s.(st := s.st.(queue := s.st.queue - 1), consumer := Server.Listing);
    reading := listing.(st := listing.st.(silent := {}), consumer := Reading(desired));
    JoinIsWanted(s.st, keys);
    assert Wanted(reading.st) == Wanted(s.st);
    ReadingBegins(reading);
    DiffStartsPhases(s.chain, desired);
    DifferenceIsThere(s.chain, desired);
    s' := AddingFinishes(Began(reading));
  }

  lemma DifferenceIsThere(a: seq<RuleEntry>, b: seq<RuleEntry>)
    ensures multiset(Difference(a, b)) <= multiset(a)
  {
    forall r ensures multiset(Difference(a, b))[r] <= multiset(a)[r] {
      DifferenceCounts(a, b, r);
    }
  }

  lemma GoodDifferences(c: Codec, rules: seq<KernelRule>, desired: seq<RuleEntry>, m: nat)
    requires Lawful(c) && Readable(c, rules) && AllAcceptable(c, desired)
    requires m <= |Difference(desired, Entries(c, rules))|
    requires forall i :: 0 <= i < m ==> Rule(c, Difference(desired, Entries(c, rules))[i]).Some?
    ensures forall i :: 0 <= i < m ==> c.good(Difference(desired, Entries(c, rules))[i])
    ensures forall e :: e in Difference(Entries(c, rules), desired) ==> c.good(e)
  {
    var existing := Entries(c, rules);
    DiffIsGood(c, rules, existing, desired);
    forall i | 0 <= i < m ensures c.good(Difference(desired, existing)[i]) {
      assert Difference(desired, existing)[i] in desired && Acceptable(c, Difference(desired, existing)[i]);
    }
  }
}
