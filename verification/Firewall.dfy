/** The DRAUPNIR-WHITELIST chain and the reconcile that brings it in line with the tables. Every
    iptables call may fail. The text layer enters through a `Codec`; `IptablesIsLawful` supplies it. */
module Firewall {
  import opened Options
  import opened Tables
  import opened Rules
  import opened RuleText

  /** How entries are written as rule specifications, what those install, and how rules read back. */
  datatype Codec = Codec(
    build: RuleEntry -> seq<string>,
    interpret: seq<string> -> Option<KernelRule>,
    read: KernelRule -> Option<RuleEntry>,
    good: RuleEntry -> bool)

  /** The rule an entry's specification installs, unless iptables rejects it. */
  function Rule(c: Codec, e: RuleEntry): Option<KernelRule> {
    c.interpret(c.build(e))
  }

  /** Good entries survive the round trip, only good entries are ever read, and no two entries
      install the same rule. */
  ghost predicate Lawful(c: Codec) {
    && (forall e :: c.good(e) ==> Rule(c, e).Some? && c.read(Rule(c, e).value) == Some(e))
    && (forall k :: c.read(k).Some? ==> c.good(c.read(k).value))
    && (forall e, f :: Rule(c, e).Some? && Rule(c, e) == Rule(c, f) ==> e == f)
  }

  /** iptables rejects the entry, as it does one whose address is not IPv4, or it can be listed back. */
  ghost predicate Acceptable(c: Codec, e: RuleEntry) {
    Rule(c, e).Some? ==> c.good(e)
  }

  const IPTABLES := Codec(BuildRuleSpec, Interpret, ReadRule, Representable)

  lemma IptablesIsLawful()
    ensures Lawful(IPTABLES)
  {
    forall e | Representable(e)
      ensures Interpret(BuildRuleSpec(e)).Some? && ReadRule(Interpret(BuildRuleSpec(e)).value) == Some(e)
    {
      ParsedIsCanonical(e.ip);
      RuleRoundTrip(ParseQuad(e.ip).value, e.port, e.email);
    }
    forall e, f | Rule(IPTABLES, e).Some? && Rule(IPTABLES, e) == Rule(IPTABLES, f) ensures e == f {
      SpecIsInjective(e, f);
    }
    forall k | ReadRule(k).Some? ensures Representable(ReadRule(k).value) {
      ReadIsRepresentable(k);
    }
  }

  ghost predicate AllAcceptable(c: Codec, es: seq<RuleEntry>) {
    forall e :: e in es ==> Acceptable(c, e)
  }

  /** For iptables that leaves out one thing only: an IPv4 rule whose email is empty or spans lines. */
  lemma IptablesAcceptable(e: RuleEntry)
    ensures Acceptable(IPTABLES, e) <==> ParseQuad(e.ip).None? || e.port > 65535 || GoodEmail(e.email)
  {
    SpecInstallsIff(e);
  }

  ghost predicate Readable(c: Codec, rules: seq<KernelRule>) {
    forall k :: k in rules ==> c.read(k).Some?
  }

  /** The whole chain reads as `es`, in order. */
  ghost predicate Reads(c: Codec, rules: seq<KernelRule>, es: seq<RuleEntry>) {
    && |es| == |rules|
    && (forall i :: 0 <= i < |rules| ==> c.read(rules[i]) == Some(es[i]))
  }

  /** What a readable chain reads as. */
  ghost function Entries(c: Codec, rules: seq<KernelRule>): (es: seq<RuleEntry>)
    requires Readable(c, rules)
    ensures Reads(c, rules, es)
  {
    if rules == [] then [] else [c.read(rules[0]).value] + Entries(c, rules[1..])
  }

  lemma ReadsIsEntries(c: Codec, rules: seq<KernelRule>, es: seq<RuleEntry>)
    requires Reads(c, rules, es)
    ensures Readable(c, rules) && Entries(c, rules) == es
  {
    var read := Entries(c, rules);
    forall i | 0 <= i < |es| ensures read[i] == es[i] {
      assert Some(read[i]) == c.read(rules[i]) == Some(es[i]);
    }
  }

  /** Every rule of the chain is the one its own reading would install: nobody else's rules are in it. */
  ghost predicate Ours(c: Codec, rules: seq<KernelRule>) {
    forall k :: k in rules ==> c.read(k).Some? && Rule(c, c.read(k).value) == Some(k)
  }

  /** What an AppendUnique of a good entry does to the reading. */
  lemma AppendReads(c: Codec, rules: seq<KernelRule>, es: seq<RuleEntry>, e: RuleEntry)
    requires Lawful(c) && Reads(c, rules, es) && c.good(e)
    ensures Rule(c, e).Some?
    ensures var k := Rule(c, e).value; Reads(c, rules + [k], es + [e]) && (k in rules ==> e in es)
  {
    var k := Rule(c, e).value;
    if k in rules {
      var i :| 0 <= i < |rules| && rules[i] == k;
      assert es[i] == e;
    }
  }

  lemma AppendKeepsOurs(c: Codec, rules: seq<KernelRule>, e: RuleEntry)
    requires Lawful(c) && c.good(e) && Ours(c, rules)
    ensures Ours(c, Rules.AppendUnique(rules, Rule(c, e).value))
  {
  }

  /** A chain of good entries, each installed through its own specification, reads back in order. */
  lemma ChainReadsBack(c: Codec, rules: seq<KernelRule>, es: seq<RuleEntry>)
    requires Lawful(c) && |rules| == |es|
    requires forall i :: 0 <= i < |es| ==> c.good(es[i]) && Rule(c, es[i]) == Some(rules[i])
    ensures Readable(c, rules) && Entries(c, rules) == es
  {
    ReadsIsEntries(c, rules, es);
  }

  /** sliceDifference. */
  method SliceDifference(a: seq<RuleEntry>, b: seq<RuleEntry>) returns (elements: seq<RuleEntry>)
    ensures elements == Difference(a, b)
  {
    elements := [];
    for i := 0 to |a|
      invariant elements + Difference(a[i..], b) == Difference(a, b)
    {
      var found := false;
      for j := 0 to |b|
        invariant !found && a[i] !in b[..j]
      {
        if a[i] == b[j] {
          found := true;
          break;
        }
      }
      assert a[i..][1..] == a[i + 1..];
      if !found {
        elements := elements + [a[i]];
      }
    }
  }

  lemma RemoveAtMultiset<T>(s: seq<T>, i: nat)
    requires i < |s|
    ensures multiset(s[..i] + s[i + 1..]) == multiset(s) - multiset{s[i]}
  {
    assert s == s[..i] + [s[i]] + s[i + 1..];
  }

  /** The rules on which `now` and `desired` differ. */
  ghost function SymmetricDifference(now: seq<RuleEntry>, desired: seq<RuleEntry>): set<RuleEntry> {
    (Elements(now) - Elements(desired)) + (Elements(desired) - Elements(now))
  }

  /** `now` lies between the intersection and the union of `existing` and `desired`. */
  ghost predicate Between(existing: seq<RuleEntry>, desired: seq<RuleEntry>, now: seq<RuleEntry>) {
    && (forall r :: r in existing && r in desired ==> r in now)
    && (forall r :: r in now ==> r in existing || r in desired)
  }

  lemma BetweenNeverWorse(existing: seq<RuleEntry>, desired: seq<RuleEntry>, now: seq<RuleEntry>)
    requires Between(existing, desired, now)
    ensures SymmetricDifference(now, desired) <= SymmetricDifference(existing, desired)
  {
  }

  lemma NonEmptyElements(s: seq<RuleEntry>)
    ensures s != [] ==> Elements(s) != {}
  {
    if s != [] {
      assert s[0] in Elements(s);
    }
  }

  /** What a Delete at position `at` does to the reading. */
  lemma DeleteReads(c: Codec, rules: seq<KernelRule>, es: seq<RuleEntry>, at: nat)
    requires Reads(c, rules, es) && at < |rules|
    ensures Reads(c, rules[..at] + rules[at + 1..], es[..at] + es[at + 1..])
  {
  }

  lemma DeleteKeepsOurs(c: Codec, rules: seq<KernelRule>, at: nat)
    requires Ours(c, rules) && at < |rules|
    ensures Ours(c, rules[..at] + rules[at + 1..])
  {
  }

  /** In a chain of our own rules, an entry that is read is also found by its specification. */
  lemma OursFinds(c: Codec, rules: seq<KernelRule>, es: seq<RuleEntry>, e: RuleEntry)
    requires Reads(c, rules, es) && Ours(c, rules) && e in es
    ensures Rule(c, e).Some? && Rule(c, e).value in rules
  {
    var i :| 0 <= i < |es| && es[i] == e;
    assert rules[i] in rules;
  }

  /** A chain of our own rules behaves, read as entries, as the server model's chain does: appending. */
  lemma AppendRefines(c: Codec, rules: seq<KernelRule>, e: RuleEntry)
    requires Lawful(c) && Ours(c, rules) && Readable(c, rules) && c.good(e)
    ensures Rule(c, e).Some?
    ensures var k := Rule(c, e).value;
            var rules' := if k in rules then rules else rules + [k];
            Ours(c, rules') && Readable(c, rules') && Entries(c, rules') == AppendUnique(Entries(c, rules), e)
  {
    var es, k := Entries(c, rules), Rule(c, e).value;
    AppendReads(c, rules, es, e);
    AppendKeepsOurs(c, rules, e);
    if k !in rules {
      if e in es {
        OursFinds(c, rules, es, e);
        assert false;
      }
      ReadsIsEntries(c, rules + [k], es + [e]);
    }
  }

  /** And deleting: the first rule equal to the entry's own is the first that reads as the entry. */
  lemma DeleteRefines(c: Codec, rules: seq<KernelRule>, e: RuleEntry, at: nat)
    requires Lawful(c) && Ours(c, rules) && Readable(c, rules) && c.good(e) && at < |rules|
    requires Rule(c, e) == Some(rules[at]) && rules[at] !in rules[..at]
    ensures var rules' := rules[..at] + rules[at + 1..];
            && Ours(c, rules') && Readable(c, rules')
            && e in Entries(c, rules) && Entries(c, rules') == DeleteFirst(Entries(c, rules), e)
  {
    var es := Entries(c, rules);
    DeleteReads(c, rules, es, at);
    DeleteKeepsOurs(c, rules, at);
    ReadsIsEntries(c, rules[..at] + rules[at + 1..], es[..at] + es[at + 1..]);
    assert es[at] == e;
    forall j | 0 <= j < at ensures es[j] != e {
      assert rules[j] in rules && rules[j] in rules[..at];
    }
    DeleteFirstAt(es, e, at);
  }

  lemma {:induction false} DeleteFirstAt<T>(es: seq<T>, e: T, at: nat)
    requires at < |es| && es[at] == e && forall j :: 0 <= j < at ==> es[j] != e
    ensures DeleteFirst(es, e) == es[..at] + es[at + 1..]
  {
    if at == 0 {
    } else {
      assert es[1..][at - 1] == e;
      DeleteFirstAt(es[1..], e, at - 1);
      assert [es[0]] + es[1..][..at - 1] == es[..at] && es[1..][at..] == es[at + 1..];
    }
  }

  /** Between two of its calls, entry by entry: the chain reads as `now`, lies between `existing` and
      `desired`, and what is left to do is left in `add` and `remove`. */
  ghost predicate Phase(c: Codec, rules: seq<KernelRule>, existing: seq<RuleEntry>, desired: seq<RuleEntry>,
                        now: seq<RuleEntry>, add: seq<RuleEntry>, remove: seq<RuleEntry>) {
    && Reads(c, rules, now) && Between(existing, desired, now)
    && Supplied(now, desired, add) && Condemned(now, desired, remove)
  }

  /** One successful AppendUnique in the adding phase. */
  lemma AddStep(existing: seq<RuleEntry>, desired: seq<RuleEntry>, add: seq<RuleEntry>, remove: seq<RuleEntry>,
                now: seq<RuleEntry>, after: seq<RuleEntry>)
    requires add != [] && (after == now + [add[0]] || (after == now && add[0] in now))
    requires Supplied(now, desired, add) && Condemned(now, desired, remove) && Between(existing, desired, now)
    ensures Supplied(after, desired, add[1..]) && Condemned(after, desired, remove)
    ensures Between(existing, desired, after)
  {
    AppendKeepsPhases(now, desired, add, remove, after);
  }

  /** One successful Delete in the removing phase. */
  lemma RemoveStep(existing: seq<RuleEntry>, desired: seq<RuleEntry>, remove: seq<RuleEntry>,
                   now: seq<RuleEntry>, at: nat, after: seq<RuleEntry>)
    requires remove != [] && at < |now| && now[at] == remove[0] && after == now[..at] + now[at + 1..]
    requires Supplied(now, desired, []) && Condemned(now, desired, remove) && Between(existing, desired, now)
    ensures Supplied(after, desired, []) && Condemned(after, desired, remove[1..])
    ensures Between(existing, desired, after)
  {
    assert remove == [remove[0]] + remove[1..];
    RemoveAtMultiset(now, at);
    DeleteKeepsPhases(now, desired, remove, after);
    forall r | r in after ensures r in now {
    }
  }

  ghost function AfterAdd(c: Codec, rules: seq<KernelRule>, now: seq<RuleEntry>, e: RuleEntry): seq<RuleEntry> {
    if Rule(c, e).Some? && Rule(c, e).value in rules then now else now + [e]
  }

  lemma PhaseAdds(c: Codec, rules: seq<KernelRule>, existing: seq<RuleEntry>, desired: seq<RuleEntry>,
                  now: seq<RuleEntry>, add: seq<RuleEntry>, remove: seq<RuleEntry>)
    requires Lawful(c) && add != [] && c.good(add[0]) && Phase(c, rules, existing, desired, now, add, remove)
    ensures Rule(c, add[0]).Some?
    ensures Phase(c, AppendUnique(rules, Rule(c, add[0]).value), existing, desired, AfterAdd(c, rules, now, add[0]),
                  add[1..], remove)
  {
    AppendReads(c, rules, now, add[0]);
    AddStep(existing, desired, add, remove, now, AfterAdd(c, rules, now, add[0]));
  }

  lemma PhaseRemoves(c: Codec, rules: seq<KernelRule>, existing: seq<RuleEntry>, desired: seq<RuleEntry>,
                     now: seq<RuleEntry>, remove: seq<RuleEntry>) returns (after: seq<RuleEntry>)
    requires Lawful(c) && remove != [] && c.good(remove[0]) && Phase(c, rules, existing, desired, now, [], remove)
    requires Rule(c, remove[0]).Some? && Rule(c, remove[0]).value in rules
    ensures Phase(c, DeleteFirst(rules, Rule(c, remove[0]).value), existing, desired, after, [], remove[1..])
  {
    var at := FirstIndex(rules, Rule(c, remove[0]).value);
    DeleteFirstAt(rules, rules[at], at);
    after := now[..at] + now[at + 1..];
    DeleteReads(c, rules, now, at);
    RemoveStep(existing, desired, remove, now, at, after);
  }

  function FirstIndex<T(==)>(s: seq<T>, x: T): (at: nat)
    requires x in s
    ensures at < |s| && s[at] == x && forall j :: 0 <= j < at ==> s[j] != x
  {
    if s[0] == x then 0 else 1 + FirstIndex(s[1..], x)
  }

  // ---------- The two loops, rule by rule ----------

  /** The chain after an AppendUnique of each entry in turn. */
  ghost function Added(c: Codec, rules: seq<KernelRule>, es: seq<RuleEntry>): seq<KernelRule> {
    if es == [] then rules
    else
      var before, k := Added(c, rules, es[..|es| - 1]), Rule(c, es[|es| - 1]);
      if k.Some? then AppendUnique(before, k.value) else before
  }

  /** The chain after a Delete of each entry in turn, where its rule is present. */
  ghost function Removed(c: Codec, rules: seq<KernelRule>, es: seq<RuleEntry>): seq<KernelRule> {
    if es == [] then rules
    else
      var before, k := Removed(c, rules, es[..|es| - 1]), Rule(c, es[|es| - 1]);
      if k.Some? && k.value in before then DeleteFirst(before, k.value) else before
  }

  ghost predicate InstalledBy(c: Codec, es: seq<RuleEntry>, k: KernelRule) {
    exists e :: e in es && Rule(c, e) == Some(k)
  }

  lemma {:induction false} AddedFacts(c: Codec, rules: seq<KernelRule>, es: seq<RuleEntry>, k: KernelRule)
    ensures k in Added(c, rules, es) <==> k in rules || InstalledBy(c, es, k)
    ensures !InstalledBy(c, es, k) ==> multiset(Added(c, rules, es))[k] == multiset(rules)[k]
  {
    if es == [] {
    } else {
      var init, last := es[..|es| - 1], es[|es| - 1];
      AddedFacts(c, rules, init, k);
      assert es == init + [last];
      assert InstalledBy(c, es, k) <==> InstalledBy(c, init, k) || Rule(c, last) == Some(k);
    }
  }

  lemma LastCounts<T>(s: seq<T>, x: T)
    requires s != []
    ensures multiset(s)[x] == multiset(s[..|s| - 1])[x] + if s[|s| - 1] == x then 1 else 0
  {
    assert s == s[..|s| - 1] + [s[|s| - 1]];
  }

  lemma DeleteFirstCounts(rules: seq<KernelRule>, k: KernelRule, x: KernelRule)
    requires k in rules
    ensures multiset(DeleteFirst(rules, k))[x] + (if x == k then 1 else 0) == multiset(rules)[x]
  {
    DeleteFirstRemovesOne(rules, k);
    assert k in multiset(rules);
  }

  /** Each entry's rule is in the chain at least as often as the entry is to be deleted. */
  ghost predicate Deletable(c: Codec, rules: seq<KernelRule>, es: seq<RuleEntry>) {
    forall e :: e in es ==> Rule(c, e).Some? && multiset(es)[e] <= multiset(rules)[Rule(c, e).value]
  }

  lemma DeletableInit(c: Codec, rules: seq<KernelRule>, es: seq<RuleEntry>)
    requires es != [] && Deletable(c, rules, es)
    ensures Deletable(c, rules, es[..|es| - 1])
  {
    assert es == es[..|es| - 1] + [es[|es| - 1]];
  }

  lemma {:induction false} RemovedCounts(c: Codec, rules: seq<KernelRule>, es: seq<RuleEntry>, e: RuleEntry)
    requires Lawful(c) && Deletable(c, rules, es) && Rule(c, e).Some?
    ensures var k := Rule(c, e).value; multiset(Removed(c, rules, es))[k] + multiset(es)[e] == multiset(rules)[k]
  {
    if es == [] {
    } else {
      var init, last := es[..|es| - 1], es[|es| - 1];
      var before, k := Removed(c, rules, init), Rule(c, last);
      assert last in es;
      DeletableInit(c, rules, es);
      RemovedCounts(c, rules, init, e);
      RemovedCounts(c, rules, init, last);
      LastCounts(es, e);
      LastCounts(es, last);
      assert k.value in multiset(before);
      DeleteFirstCounts(before, k.value, Rule(c, e).value);
    }
  }

  lemma {:induction false} RemovedFacts(c: Codec, rules: seq<KernelRule>, es: seq<RuleEntry>, k: KernelRule)
    ensures k in Removed(c, rules, es) ==> k in rules
    ensures k in rules && !InstalledBy(c, es, k) ==> k in Removed(c, rules, es)
  {
    if es == [] {
    } else {
      var init, last := es[..|es| - 1], es[|es| - 1];
      var before := Removed(c, rules, init);
      RemovedFacts(c, rules, init, k);
      assert es == init + [last];
      assert InstalledBy(c, es, k) <==> InstalledBy(c, init, k) || Rule(c, last) == Some(k);
      if Rule(c, last).Some? && Rule(c, last).value in before {
        DeleteFirstRemovesOne(before, Rule(c, last).value);
        assert k in Removed(c, rules, es) <==> k in multiset(Removed(c, rules, es));
      }
    }
  }

  lemma {:induction false} DeletablePrefix(c: Codec, rules: seq<KernelRule>, es: seq<RuleEntry>, n: nat)
    requires n <= |es| && Deletable(c, rules, es)
    ensures Deletable(c, rules, es[..n])
    decreases |es|
  {
    if n == |es| {
      assert es[..n] == es;
    } else {
      DeletableInit(c, rules, es);
      assert es[..|es| - 1][..n] == es[..n];
      DeletablePrefix(c, rules, es[..|es| - 1], n);
    }
  }

  /** One more Delete finds its rule exactly if one more deletion was possible at all. */
  lemma RemovedMore(c: Codec, rules: seq<KernelRule>, es: seq<RuleEntry>, n: nat)
    requires Lawful(c) && n < |es| && Rule(c, es[n]).Some? && Deletable(c, rules, es[..n])
    ensures var k, before := Rule(c, es[n]).value, Removed(c, rules, es[..n]);
            && (k in before <==> Deletable(c, rules, es[..n + 1]))
            && (k in before ==> Removed(c, rules, es[..n + 1]) == DeleteFirst(before, k))
  {
    var init, last := es[..n], es[n];
    assert es[..n + 1] == init + [last] && es[..n + 1][..n] == init;
    RemovedCounts(c, rules, init, last);
    assert last in es[..n + 1];
  }

  /** No rule but its own reads as the entry. */
  ghost predicate OnlyOwn(c: Codec, rules: seq<KernelRule>, e: RuleEntry) {
    forall k :: k in rules && c.read(k) == Some(e) ==> Rule(c, e) == Some(k)
  }

  /** An entry is read at least as often as its own rule occurs, and as often exactly if no other
      rule reads as it. */
  lemma {:induction false} CountReads(c: Codec, rules: seq<KernelRule>, es: seq<RuleEntry>, e: RuleEntry)
    requires Lawful(c) && Reads(c, rules, es) && c.good(e)
    ensures multiset(rules)[Rule(c, e).value] <= multiset(es)[e]
    ensures multiset(rules)[Rule(c, e).value] == multiset(es)[e] <==> OnlyOwn(c, rules, e)
  {
    if es == [] {
    } else {
      var last := rules[|rules| - 1];
      CountReads(c, rules[..|rules| - 1], es[..|es| - 1], e);
      LastCounts(es, e);
      LastCounts(rules, Rule(c, e).value);
      assert c.read(last) == Some(es[|es| - 1]);
      OnlyOwnLast(c, rules, e);
    }
  }

  lemma OnlyOwnLast(c: Codec, rules: seq<KernelRule>, e: RuleEntry)
    requires rules != []
    ensures var last := rules[|rules| - 1];
            OnlyOwn(c, rules, e) <==>
            OnlyOwn(c, rules[..|rules| - 1], e) && (c.read(last) == Some(e) ==> Rule(c, e) == Some(last))
  {
    assert rules == rules[..|rules| - 1] + [rules[|rules| - 1]];
  }

  /** After `n` additions, entry by entry. */
  lemma {:induction false} AddedPhase(c: Codec, rules: seq<KernelRule>,
                                      existing: seq<RuleEntry>, desired: seq<RuleEntry>,
                                      add: seq<RuleEntry>, remove: seq<RuleEntry>, n: nat)
    returns (now: seq<RuleEntry>)
    requires Lawful(c) && Phase(c, rules, existing, desired, existing, add, remove)
    requires n <= |add| && forall i :: 0 <= i < n ==> c.good(add[i])
    ensures Phase(c, Added(c, rules, add[..n]), existing, desired, now, add[n..], remove)
    ensures Ours(c, rules) ==> Ours(c, Added(c, rules, add[..n]))
  {
    if n == 0 {
      now := existing;
    } else {
      var before := Added(c, rules, add[..n - 1]);
      now := AddedPhase(c, rules, existing, desired, add, remove, n - 1);
      assert add[..n][..n - 1] == add[..n - 1];
      assert add[n - 1..][1..] == add[n..];
      PhaseAdds(c, before, existing, desired, now, add[n - 1..], remove);
      now := AfterAdd(c, before, now, add[n - 1]);
      if Ours(c, rules) {
        AppendKeepsOurs(c, before, add[n - 1]);
      }
    }
  }

  /** After `n` deletions, entry by entry. */
  lemma {:induction false} RemovedPhase(c: Codec, rules: seq<KernelRule>,
                                        existing: seq<RuleEntry>, desired: seq<RuleEntry>,
                                        start: seq<RuleEntry>, remove: seq<RuleEntry>, n: nat)
    returns (now: seq<RuleEntry>)
    requires Lawful(c) && Phase(c, rules, existing, desired, start, [], remove)
    requires n <= |remove| && Deletable(c, rules, remove[..n]) && forall e :: e in remove ==> c.good(e)
    ensures Phase(c, Removed(c, rules, remove[..n]), existing, desired, now, [], remove[n..])
  {
    if n == 0 {
      now := start;
    } else {
      DeletablePrefix(c, rules, remove[..n], n - 1);
      assert remove[..n][..n - 1] == remove[..n - 1];
      now := RemovedPhase(c, rules, existing, desired, start, remove, n - 1);
      RemovedMore(c, rules, remove, n - 1);
      assert !Deletable(c, rules, remove[..n]) || Rule(c, remove[n - 1]).value in Removed(c, rules, remove[..n - 1]);
      assert remove[n - 1..][1..] == remove[n..];
      now := PhaseRemoves(c, Removed(c, rules, remove[..n - 1]), existing, desired, now, remove[n - 1..]);
    }
  }

  // ---------- One reconcile, rule by rule ----------

  /** Every rule that reads as an entry the tables do not ask for is that entry's own rule. */
  ghost predicate Orderly(c: Codec, rules: seq<KernelRule>, desired: seq<RuleEntry>)
    requires Readable(c, rules)
  {
    forall k :: k in rules ==> c.read(k).value in desired || Rule(c, c.read(k).value) == Some(k)
  }

  /** The reconcile has made its first `m` additions and, once all are made, its first `n` deletions. */
  ghost predicate Progress(c: Codec, rules: seq<KernelRule>, desired: seq<RuleEntry>, m: nat, n: nat,
                           after: seq<KernelRule>)
    requires Readable(c, rules)
  {
    var existing := Entries(c, rules);
    var add, remove := Difference(desired, existing), Difference(existing, desired);
    && m <= |add| && n <= |remove| && (n > 0 ==> m == |add|)
    && (forall i :: 0 <= i < m ==> Rule(c, add[i]).Some?)
    && Deletable(c, Added(c, rules, add[..m]), remove[..n])
    && after == Removed(c, Added(c, rules, add[..m]), remove[..n])
  }

  /** The reconcile has made all its additions and deletions. */
  ghost predicate Complete(c: Codec, rules: seq<KernelRule>, desired: seq<RuleEntry>, m: nat, n: nat)
    requires Readable(c, rules)
  {
    m == |Difference(desired, Entries(c, rules))| && n == |Difference(Entries(c, rules), desired)|
  }

  lemma EntriesElements(c: Codec, rules: seq<KernelRule>, e: RuleEntry)
    requires Readable(c, rules)
    ensures e in Entries(c, rules) <==> exists k :: k in rules && c.read(k) == Some(e)
  {
    var es := Entries(c, rules);
    if e in es {
      var i :| 0 <= i < |es| && es[i] == e;
      assert rules[i] in rules;
    }
    if k :| k in rules && c.read(k) == Some(e) {
      var i :| 0 <= i < |rules| && rules[i] == k;
      assert es[i] == e;
    }
  }

  /** No deletion of an undesired entry can hit the rule of a desired one. */
  lemma DifferencesDisjoint(c: Codec, desired: seq<RuleEntry>, existing: seq<RuleEntry>, k: KernelRule)
    requires Lawful(c)
    ensures !(InstalledBy(c, Difference(existing, desired), k) && InstalledBy(c, desired, k))
    ensures InstalledBy(c, Difference(desired, existing), k) ==> InstalledBy(c, desired, k)
  {
    forall e ensures e in Difference(existing, desired) <==> e in existing && e !in desired
      ensures e in Difference(desired, existing) <==> e in desired && e !in existing
    {
      DifferenceCounts(existing, desired, e);
      DifferenceCounts(desired, existing, e);
    }
  }

  /** Wherever it stops: what is in the chain was in it or is a desired entry's rule; and what is
      gone was the own rule of an entry the tables do not ask for. */
  ghost predicate Bounded(c: Codec, rules: seq<KernelRule>, desired: seq<RuleEntry>, after: seq<KernelRule>)
    requires Readable(c, rules)
  {
    && (forall k :: k in after ==> k in rules || InstalledBy(c, desired, k))
    && (forall k :: k in rules && k !in after ==>
          c.read(k).value !in desired && Rule(c, c.read(k).value) == Some(k))
  }

  lemma ProgressIsBounded(c: Codec, rules: seq<KernelRule>, desired: seq<RuleEntry>, m: nat, n: nat,
                          after: seq<KernelRule>)
    requires Lawful(c) && Readable(c, rules) && Progress(c, rules, desired, m, n, after)
    ensures Bounded(c, rules, desired, after)
  {
    var existing := Entries(c, rules);
    var add, remove := Difference(desired, existing), Difference(existing, desired);
    forall k
      ensures k in after ==> k in rules || InstalledBy(c, desired, k)
      ensures k in rules && k !in after ==> c.read(k).value !in desired && Rule(c, c.read(k).value) == Some(k)
    {
      AddedFacts(c, rules, add[..m], k);
      RemovedFacts(c, Added(c, rules, add[..m]), remove[..n], k);
      DifferencesDisjoint(c, desired, existing, k);
      if InstalledBy(c, remove[..n], k) {
        RemovalIsOwn(c, rules, desired, n, k);
      }
    }
  }

  lemma RemovalIsOwn(c: Codec, rules: seq<KernelRule>, desired: seq<RuleEntry>, n: nat, k: KernelRule)
    requires Lawful(c) && Readable(c, rules)
    requires n <= |Difference(Entries(c, rules), desired)|
    requires InstalledBy(c, Difference(Entries(c, rules), desired)[..n], k)
    ensures c.read(k).Some? && c.read(k).value !in desired && Rule(c, c.read(k).value) == Some(k)
  {
    var existing := Entries(c, rules);
    var e :| e in Difference(existing, desired)[..n] && Rule(c, e) == Some(k);
    DifferenceCounts(existing, desired, e);
    EntriesElements(c, rules, e);
  }

  /** All deletions find their rules exactly if the chain is orderly. */
  lemma DeletableIffOrderly(c: Codec, rules: seq<KernelRule>, desired: seq<RuleEntry>)
    requires Lawful(c) && Readable(c, rules)
    ensures var existing := Entries(c, rules);
            Deletable(c, Added(c, rules, Difference(desired, existing)), Difference(existing, desired)) <==>
            Orderly(c, rules, desired)
  {
    var existing := Entries(c, rules);
    var remove := Difference(existing, desired);
    forall e | e in remove ensures DeletableOne(c, rules, desired, e) <==> OnlyOwn(c, rules, e) {
      UndesiredCounts(c, rules, desired, e);
      CountReads(c, rules, existing, e);
    }
    OrderlyIffOwn(c, rules, desired);
    assert forall e :: e in remove ==> c.good(e) by {
      forall e | e in remove ensures c.good(e) {
        UndesiredCounts(c, rules, desired, e);
      }
    }
  }

  ghost predicate DeletableOne(c: Codec, rules: seq<KernelRule>, desired: seq<RuleEntry>, e: RuleEntry)
    requires Readable(c, rules)
  {
    var existing := Entries(c, rules);
    && Rule(c, e).Some?
    && multiset(Difference(existing, desired))[e] <=
       multiset(Added(c, rules, Difference(desired, existing)))[Rule(c, e).value]
  }

  lemma OrderlyIffOwn(c: Codec, rules: seq<KernelRule>, desired: seq<RuleEntry>)
    requires Readable(c, rules)
    ensures Orderly(c, rules, desired) <==>
            forall e :: e in Difference(Entries(c, rules), desired) ==> OnlyOwn(c, rules, e)
  {
    forall e ensures e in Difference(Entries(c, rules), desired) <==>
                     e !in desired && exists k :: k in rules && c.read(k) == Some(e)
    {
      EntriesElements(c, rules, e);
      DifferenceCounts(Entries(c, rules), desired, e);
    }
    if !Orderly(c, rules, desired) {
      var k :| k in rules && c.read(k).value !in desired && Rule(c, c.read(k).value) != Some(k);
      assert !OnlyOwn(c, rules, c.read(k).value);
    }
  }

  lemma UndesiredCounts(c: Codec, rules: seq<KernelRule>, desired: seq<RuleEntry>, e: RuleEntry)
    requires Lawful(c) && Readable(c, rules) && e in Difference(Entries(c, rules), desired)
    ensures c.good(e) && e in Entries(c, rules) && e !in desired
    ensures var existing := Entries(c, rules);
            && multiset(Difference(existing, desired))[e] == multiset(existing)[e]
            && multiset(Added(c, rules, Difference(desired, existing)))[Rule(c, e).value] ==
               multiset(rules)[Rule(c, e).value]
  {
    var existing := Entries(c, rules);
    DifferenceCounts(existing, desired, e);
    EntriesElements(c, rules, e);
    var k := Rule(c, e).value;
    AddedFacts(c, rules, Difference(desired, existing), k);
    DifferencesDisjoint(c, desired, existing, k);
  }

  /** What a complete reconcile leaves: the rules that read as desired entries, and the own rules of
      the desired entries that no rule read as. */
  ghost predicate Expected(c: Codec, rules: seq<KernelRule>, desired: seq<RuleEntry>, k: KernelRule)
    requires Readable(c, rules)
  {
    || (k in rules && c.read(k).value in desired)
    || InstalledBy(c, Difference(desired, Entries(c, rules)), k)
  }

  ghost predicate AsExpected(c: Codec, rules: seq<KernelRule>, desired: seq<RuleEntry>, after: seq<KernelRule>)
    requires Readable(c, rules)
  {
    forall k :: k in after <==> Expected(c, rules, desired, k)
  }

  lemma CompleteIsExpected(c: Codec, rules: seq<KernelRule>, desired: seq<RuleEntry>, k: KernelRule)
    requires Lawful(c) && Readable(c, rules) && Orderly(c, rules, desired)
    ensures var existing := Entries(c, rules);
            k in Removed(c, Added(c, rules, Difference(desired, existing)), Difference(existing, desired)) <==>
            Expected(c, rules, desired, k)
  {
    var existing := Entries(c, rules);
    var add, remove := Difference(desired, existing), Difference(existing, desired);
    AddedFacts(c, rules, add, k);
    RemovedFacts(c, Added(c, rules, add), remove, k);
    DifferencesDisjoint(c, desired, existing, k);
    if k in rules && c.read(k).value !in desired {
      UndesiredIsRemoved(c, rules, desired, k);
    } else if InstalledBy(c, remove, k) {
      assert remove[..|remove|] == remove;
      RemovalIsOwn(c, rules, desired, |remove|, k);
    }
  }

  lemma UndesiredIsRemoved(c: Codec, rules: seq<KernelRule>, desired: seq<RuleEntry>, k: KernelRule)
    requires Lawful(c) && Readable(c, rules) && Orderly(c, rules, desired)
    requires k in rules && c.read(k).value !in desired
    ensures var existing := Entries(c, rules);
            && !InstalledBy(c, Difference(desired, existing), k)
            && k !in Removed(c, Added(c, rules, Difference(desired, existing)), Difference(existing, desired))
  {
    var existing, e := Entries(c, rules), c.read(k).value;
    var remove, added := Difference(existing, desired), Added(c, rules, Difference(desired, existing));
    EntriesElements(c, rules, e);
    DifferenceCounts(existing, desired, e);
    assert InstalledBy(c, remove, k);
    DifferencesDisjoint(c, desired, existing, k);
    DeletableIffOrderly(c, rules, desired);
    OrderlyIffOwn(c, rules, desired);
    UndesiredCounts(c, rules, desired, e);
    CountReads(c, rules, existing, e);
    RemovedCounts(c, added, remove, e);
    assert k !in multiset(Removed(c, added, remove));
  }

  lemma {:induction false} AddedNothing(c: Codec, rules: seq<KernelRule>, es: seq<RuleEntry>)
    requires forall e :: e in es && Rule(c, e).Some? ==> Rule(c, e).value in rules
    ensures Added(c, rules, es) == rules
  {
    if es == [] {
    } else {
      AddedNothing(c, rules, es[..|es| - 1]);
    }
  }

  lemma {:induction false} RemovedNothing(c: Codec, rules: seq<KernelRule>, es: seq<RuleEntry>)
    requires forall e :: e in es && Rule(c, e).Some? ==> Rule(c, e).value !in rules
    ensures Removed(c, rules, es) == rules
  {
    if es == [] {
    } else {
      RemovedNothing(c, rules, es[..|es| - 1]);
    }
  }

  /** After a complete reconcile of `rules` into `between`, another has nothing to add or delete. */
  lemma SecondDoesNothing(c: Codec, rules: seq<KernelRule>, desired: seq<RuleEntry>, between: seq<KernelRule>,
                          m: nat, n: nat, after: seq<KernelRule>)
    requires Lawful(c) && Readable(c, rules) && Readable(c, between)
    requires AsExpected(c, rules, desired, between)
    requires Progress(c, between, desired, m, n, after)
    ensures after == between
  {
    var existing, now := Entries(c, rules), Entries(c, between);
    var add, remove := Difference(desired, now), Difference(now, desired);
    forall e | e in add[..m] && Rule(c, e).Some? ensures Rule(c, e).value in between {
      assert e in add;
      DifferenceCounts(desired, now, e);
      DifferenceCounts(desired, existing, e);
      EntriesElements(c, rules, e);
      EntriesElements(c, between, e);
    }
    AddedNothing(c, between, add[..m]);
    forall e | e in remove[..n] && Rule(c, e).Some? ensures Rule(c, e).value !in between {
      assert e in remove;
      var k := Rule(c, e).value;
      DifferenceCounts(now, desired, e);
      EntriesElements(c, between, e);
      DifferencesDisjoint(c, desired, existing, k);
      DifferencesDisjoint(c, desired, now, k);
    }
    RemovedNothing(c, between, remove[..n]);
  }

  /** One desired entry that iptables rejects, as it does an IPv6 address, keeps every deletion from
      happening: additions come first, and the reconcile never gets past that one. */
  lemma RejectedEntryBlocks(c: Codec, rules: seq<KernelRule>, desired: seq<RuleEntry>, m: nat, n: nat,
                            after: seq<KernelRule>, e: RuleEntry)
    requires Lawful(c) && Readable(c, rules) && Progress(c, rules, desired, m, n, after)
    requires e in desired && Rule(c, e).None?
    ensures n == 0 && !Complete(c, rules, desired, m, n) && forall k :: k in rules ==> k in after
  {
    var existing := Entries(c, rules);
    var add := Difference(desired, existing);
    EntriesElements(c, rules, e);
    DifferenceCounts(desired, existing, e);
    var i :| 0 <= i < |add| && add[i] == e;
    forall k | k in rules ensures k in after {
      AddedFacts(c, rules, add[..m], k);
    }
  }

  /** Once the rule of an entry that cannot be listed back is in the chain, a reconcile can succeed
      only if that rule reads, and reads as another entry the tables ask for. */
  lemma BadRuleBlocks(c: Codec, rules: seq<KernelRule>, desired: seq<RuleEntry>, e: RuleEntry, k: KernelRule)
    requires Lawful(c) && !c.good(e) && Rule(c, e) == Some(k) && k in rules
    ensures Readable(c, rules) && Orderly(c, rules, desired) ==>
              c.read(k).Some? && c.read(k).value != e && c.read(k).value in desired
  {
  }

  /** For iptables: with the rule of a bad email in the chain, every reconcile fails unless another
      email hides in it and the tables ask for that entry. */
  lemma BadEmailBlocks(rules: seq<KernelRule>, desired: seq<RuleEntry>, q: Address, port: nat, email: string)
    requires port < 65536 && !GoodEmail(email) && Accept(q, port, "user: " + email) in rules
    ensures Rule(IPTABLES, RuleEntry(Show(q), port, email)) == Some(Accept(q, port, "user: " + email))
    ensures Readable(IPTABLES, rules) && Orderly(IPTABLES, rules, desired) ==>
              Hidden(email).Some? && RuleEntry(Show(q), port, Hidden(email).value) in desired
  {
    RuleRoundTrip(q, port, email);
    BadEmailReads(q, port, email);
    IptablesIsLawful();
    BadRuleBlocks(IPTABLES, rules, desired, RuleEntry(Show(q), port, email), Accept(q, port, "user: " + email));
  }

  /** Nothing is in the way of a reconcile: iptables takes every addition, no call fails, and every
      rule to delete is there. */
  ghost predicate Unobstructed(c: Codec, rules: seq<KernelRule>, desired: seq<RuleEntry>,
                               addFails: nat -> bool, removeFails: nat -> bool)
    requires Readable(c, rules)
  {
    var add, remove := Difference(desired, Entries(c, rules)), Difference(Entries(c, rules), desired);
    && (forall i :: 0 <= i < |add| ==> !addFails(i) && Rule(c, add[i]).Some?)
    && (forall i :: 0 <= i < |remove| ==> !removeFails(i))
    && Orderly(c, rules, desired)
  }

  /** What the chain `after` a reconcile of `rules` has to do with the old chain and the tables. */
  ghost predicate Reconciled(c: Codec, rules: seq<KernelRule>, desired: seq<RuleEntry>,
                             after: seq<KernelRule>, ok: bool)
    requires Readable(c, rules)
  {
    // wherever it stops, the chain is bounded by the old one and the tables
    && Bounded(c, rules, desired, after)
    // success leaves exactly the rules that read as desired, and the missing ones
    && (ok ==> AsExpected(c, rules, desired, after))
    // if all the tables ask for can be listed back, the same holds entry by entry
    && (AllAcceptable(c, desired) ==>
          EntriesBounded(c, rules, desired, after, ok) && (Ours(c, rules) ==> Ours(c, after)))
    // and when the chain already is what the tables ask for, nothing is touched
    && (Elements(Entries(c, rules)) == Elements(desired) ==> after == rules)
  }

  /** Wherever it stops, the chain still reads, lies between the old one and the tables, and is no
      further from the tables; and success means it is exactly what they ask for. */
  ghost predicate EntriesBounded(c: Codec, rules: seq<KernelRule>, desired: seq<RuleEntry>,
                                 after: seq<KernelRule>, ok: bool)
    requires Readable(c, rules)
  {
    && Readable(c, after)
    && Between(Entries(c, rules), desired, Entries(c, after))
    && SymmetricDifference(Entries(c, after), desired) <= SymmetricDifference(Entries(c, rules), desired)
    && (ok ==> Elements(Entries(c, after)) == Elements(desired))
  }

  lemma PhaseBounds(c: Codec, rules: seq<KernelRule>, desired: seq<RuleEntry>, after: seq<KernelRule>, ok: bool,
                    now: seq<RuleEntry>, add: seq<RuleEntry>, remove: seq<RuleEntry>)
    requires Readable(c, rules) && Phase(c, after, Entries(c, rules), desired, now, add, remove)
    requires ok ==> add == [] && remove == []
    ensures EntriesBounded(c, rules, desired, after, ok)
  {
    ReadsIsEntries(c, after, now);
    BetweenNeverWorse(Entries(c, rules), desired, now);
    if ok {
      PhasesEnd(now, desired);
    }
  }

  lemma ProgressBoundsEntries(c: Codec, rules: seq<KernelRule>, desired: seq<RuleEntry>, m: nat, n: nat,
                              after: seq<KernelRule>, ok: bool)
    requires Lawful(c) && Readable(c, rules) && Progress(c, rules, desired, m, n, after)
    requires ok ==> Complete(c, rules, desired, m, n)
    requires AllAcceptable(c, desired)
    ensures EntriesBounded(c, rules, desired, after, ok) && (Ours(c, rules) ==> Ours(c, after))
  {
    var existing := Entries(c, rules);
    var add, remove := Difference(desired, existing), Difference(existing, desired);
    var now := ProgressAdds(c, rules, desired, m);
    DiffIsGood(c, rules, existing, desired);
    var left;
    now, left := ProgressRemoves(c, Added(c, rules, add[..m]), existing, desired, now, add[m..], remove, n);
    PhaseBounds(c, rules, desired, after, ok, now, add[m..], left);
    RemovedKeepsOurs(c, Added(c, rules, add[..m]), remove[..n]);
  }

  lemma ProgressRemoves(c: Codec, added: seq<KernelRule>, existing: seq<RuleEntry>, desired: seq<RuleEntry>,
                        start: seq<RuleEntry>, add: seq<RuleEntry>, remove: seq<RuleEntry>, n: nat)
    returns (now: seq<RuleEntry>, left: seq<RuleEntry>)
    requires Lawful(c) && Phase(c, added, existing, desired, start, add, remove)
    requires n <= |remove| && (n > 0 ==> add == []) && Deletable(c, added, remove[..n])
    requires forall e :: e in remove ==> c.good(e)
    ensures Phase(c, Removed(c, added, remove[..n]), existing, desired, now, add, left)
    ensures n == |remove| ==> left == []
  {
    if n == 0 {
      assert remove[..n] == [];
      now, left := start, remove;
    } else {
      now := RemovedPhase(c, added, existing, desired, start, remove, n);
      left := remove[n..];
    }
  }

  lemma ProgressAdds(c: Codec, rules: seq<KernelRule>, desired: seq<RuleEntry>, m: nat) returns (now: seq<RuleEntry>)
    requires Lawful(c) && Readable(c, rules) && AllAcceptable(c, desired)
    requires m <= |Difference(desired, Entries(c, rules))|
    requires forall i :: 0 <= i < m ==> Rule(c, Difference(desired, Entries(c, rules))[i]).Some?
    ensures var existing := Entries(c, rules);
            var add, remove := Difference(desired, existing), Difference(existing, desired);
            && Phase(c, Added(c, rules, add[..m]), existing, desired, now, add[m..], remove)
            && (Ours(c, rules) ==> Ours(c, Added(c, rules, add[..m])))
  {
    var existing := Entries(c, rules);
    var add := Difference(desired, existing);
    DiffIsGood(c, rules, existing, desired);
    forall i | 0 <= i < m ensures c.good(add[i]) {
      assert add[i] in add && Acceptable(c, add[i]);
    }
    now := AddedPhase(c, rules, existing, desired, add, Difference(existing, desired), m);
  }

  lemma RemovedKeepsOurs(c: Codec, rules: seq<KernelRule>, es: seq<RuleEntry>)
    ensures Ours(c, rules) ==> Ours(c, Removed(c, rules, es))
  {
    forall k | k in Removed(c, rules, es) ensures k in rules {
      RemovedFacts(c, rules, es, k);
    }
  }

  lemma ProgressReconciles(c: Codec, rules: seq<KernelRule>, desired: seq<RuleEntry>, m: nat, n: nat,
                           after: seq<KernelRule>, ok: bool)
    requires Lawful(c) && Readable(c, rules) && Progress(c, rules, desired, m, n, after)
    requires ok ==> Complete(c, rules, desired, m, n)
    ensures Reconciled(c, rules, desired, after, ok)
  {
    var existing := Entries(c, rules);
    var add, remove := Difference(desired, existing), Difference(existing, desired);
    ProgressIsBounded(c, rules, desired, m, n, after);
    if ok {
      assert add[..m] == add && remove[..n] == remove;
      DeletableIffOrderly(c, rules, desired);
      forall k ensures k in after <==> Expected(c, rules, desired, k) {
        CompleteIsExpected(c, rules, desired, k);
      }
    }
    if AllAcceptable(c, desired) {
      ProgressBoundsEntries(c, rules, desired, m, n, after, ok);
    }
    DiffIsGood(c, rules, existing, desired);
  }

  /** Nothing is in the way over a chain of our own rules, with good entries and no call failing. */
  lemma OursUnobstructed(c: Codec, rules: seq<KernelRule>, desired: seq<RuleEntry>,
                         addFails: nat -> bool, removeFails: nat -> bool)
    requires Lawful(c) && Ours(c, rules) && Readable(c, rules) && forall e :: e in desired ==> c.good(e)
    requires (forall i :: !addFails(i)) && (forall i :: !removeFails(i))
    ensures Unobstructed(c, rules, desired, addFails, removeFails)
  {
    DiffIsGood(c, rules, Entries(c, rules), desired);
  }

  /** Of the calls adding `add`, the first `m` succeeded, and the next one, if any, failed. */
  ghost predicate AddsStop(c: Codec, add: seq<RuleEntry>, fails: nat -> bool, m: nat) {
    && m <= |add| && (forall i :: 0 <= i < m ==> !fails(i) && Rule(c, add[i]).Some?)
    && (m < |add| ==> fails(m) || Rule(c, add[m]).None?)
  }

  /** Of the calls removing `remove`, the first `n` succeed. */
  ghost predicate RemovesRun(c: Codec, rules: seq<KernelRule>, remove: seq<RuleEntry>, fails: nat -> bool, n: nat) {
    n <= |remove| && Deletable(c, rules, remove[..n]) && (forall i :: 0 <= i < n ==> !fails(i))
  }

  lemma NextRemove(c: Codec, rules: seq<KernelRule>, remove: seq<RuleEntry>, fails: nat -> bool, n: nat)
    requires Lawful(c) && RemovesRun(c, rules, remove, fails, n) && n < |remove| && Rule(c, remove[n]).Some?
    ensures var k, before := Rule(c, remove[n]).value, Removed(c, rules, remove[..n]);
            if k in before && !fails(n)
            then
              && RemovesRun(c, rules, remove, fails, n + 1)
              && Removed(c, rules, remove[..n + 1]) == DeleteFirst(before, k)
            else RemovesStop(c, rules, remove, fails, n)
  {
    RemovedMore(c, rules, remove, n);
  }

  /** And the next one, if any, failed. */
  ghost predicate RemovesStop(c: Codec, rules: seq<KernelRule>, remove: seq<RuleEntry>, fails: nat -> bool, n: nat) {
    && RemovesRun(c, rules, remove, fails, n)
    && (n < |remove| ==>
          fails(n) || Rule(c, remove[n]).None? || Rule(c, remove[n]).value !in Removed(c, rules, remove[..n]))
  }

  lemma RemovesComplete(c: Codec, rules: seq<KernelRule>, remove: seq<RuleEntry>, fails: nat -> bool, n: nat)
    requires Lawful(c) && RemovesStop(c, rules, remove, fails, n)
    requires forall e :: e in remove ==> Rule(c, e).Some?
    ensures n == |remove| <==> (forall i :: 0 <= i < |remove| ==> !fails(i)) && Deletable(c, rules, remove)
  {
    if n == |remove| {
      assert remove[..n] == remove;
    } else if Deletable(c, rules, remove) && !fails(n) {
      assert remove[n] in remove;
      RemovedMore(c, rules, remove, n);
      DeletablePrefix(c, rules, remove, n + 1);
    }
  }

  /** Putting the two loops together. */
  lemma ReconcileEnds(c: Codec, rules: seq<KernelRule>, existing: seq<RuleEntry>, desired: seq<RuleEntry>,
                      addFails: nat -> bool, removeFails: nat -> bool, m: nat, n: nat)
    requires Lawful(c) && Reads(c, rules, existing)
    requires var add, remove := Difference(desired, existing), Difference(existing, desired);
             && AddsStop(c, add, addFails, m)
             && if m < |add| then n == 0 else RemovesStop(c, Added(c, rules, add), remove, removeFails, n)
    ensures Readable(c, rules)
    ensures var add, remove := Difference(desired, existing), Difference(existing, desired);
            var ok, after := m == |add| && n == |remove|, Removed(c, Added(c, rules, add[..m]), remove[..n]);
            && Progress(c, rules, desired, m, n, after) && Reconciled(c, rules, desired, after, ok)
            && (ok <==> Unobstructed(c, rules, desired, addFails, removeFails))
  {
    ReadsIsEntries(c, rules, existing);
    var add, remove := Difference(desired, existing), Difference(existing, desired);
    var ok, after := m == |add| && n == |remove|, Removed(c, Added(c, rules, add[..m]), remove[..n]);
    assert m == |add| ==> add[..m] == add;
    ReconcileProgresses(c, rules, desired, removeFails, m, n, after);
    ReconcileVerdict(c, rules, desired, addFails, removeFails, m, n);
    ProgressReconciles(c, rules, desired, m, n, after, ok);
  }

  lemma ReconcileProgresses(c: Codec, rules: seq<KernelRule>, desired: seq<RuleEntry>, removeFails: nat -> bool,
                            m: nat, n: nat, after: seq<KernelRule>)
    requires Readable(c, rules)
    requires var existing := Entries(c, rules);
             var add, remove := Difference(desired, existing), Difference(existing, desired);
             && m <= |add| && (forall i :: 0 <= i < m ==> Rule(c, add[i]).Some?)
             && n <= |remove| && after == Removed(c, Added(c, rules, add[..m]), remove[..n])
             && if m < |add| then n == 0 else RemovesStop(c, Added(c, rules, add[..m]), remove, removeFails, n)
    ensures Progress(c, rules, desired, m, n, after)
  {
  }

  lemma ReconcileVerdict(c: Codec, rules: seq<KernelRule>, desired: seq<RuleEntry>,
                         addFails: nat -> bool, removeFails: nat -> bool, m: nat, n: nat)
    requires Lawful(c) && Readable(c, rules)
    requires var existing := Entries(c, rules);
             var add, remove := Difference(desired, existing), Difference(existing, desired);
             && AddsStop(c, add, addFails, m)
             && (m == |add| ==> RemovesStop(c, Added(c, rules, add), remove, removeFails, n))
    ensures m == |Difference(desired, Entries(c, rules))| && n == |Difference(Entries(c, rules), desired)| <==>
            Unobstructed(c, rules, desired, addFails, removeFails)
  {
    var existing := Entries(c, rules);
    var add, remove := Difference(desired, existing), Difference(existing, desired);
    DiffIsGood(c, rules, existing, desired);
    DeletableIffOrderly(c, rules, desired);
    if m == |add| {
      RemovesComplete(c, Added(c, rules, add), remove, removeFails, n);
    }
  }

  /** Nothing is in the way when there is nothing to do. */
  lemma EqualIsUnobstructed(c: Codec, rules: seq<KernelRule>, desired: seq<RuleEntry>,
                            addFails: nat -> bool, removeFails: nat -> bool)
    requires Lawful(c) && Readable(c, rules) && Elements(Entries(c, rules)) == Elements(desired)
    ensures Unobstructed(c, rules, desired, addFails, removeFails)
  {
    DiffIsGood(c, rules, Entries(c, rules), desired);
    forall k | k in rules ensures c.read(k).value in desired {
      EntriesElements(c, rules, c.read(k).value);
      assert c.read(k).value in Elements(Entries(c, rules));
    }
  }

  class Chain {
    const codec: Codec
    var rules: seq<KernelRule>

    constructor (codec: Codec, initial: seq<KernelRule>)
      ensures this.codec == codec && rules == initial
    {
      this.codec := codec;
      rules := initial;
    }

    /** iptables -C then -A: append the rule unless an equal one is there. */
    method AppendUnique(spec: seq<string>, fault: bool) returns (ok: bool)
      modifies this
      ensures ok <==> !fault && codec.interpret(spec).Some?
      ensures rules == if ok && codec.interpret(spec).value !in old(rules)
                       then old(rules) + [codec.interpret(spec).value] else old(rules)
    {
      var rule := codec.interpret(spec);
      ok := !fault && rule.Some?;
      if ok && rule.value !in rules {
        rules := rules + [rule.value];
      }
    }

    /** iptables -D: remove the first equal rule; an error if there is none. */
    method Delete(spec: seq<string>, fault: bool) returns (ok: bool)
      modifies this
      ensures ok <==> !fault && codec.interpret(spec).Some? && codec.interpret(spec).value in old(rules)
      ensures rules == if ok then DeleteFirst(old(rules), codec.interpret(spec).value) else old(rules)
    {
      var rule := codec.interpret(spec);
      if fault || rule.None? {
        return false;
      }
      for i := 0 to |rules|
        invariant rules == old(rules) && rule.value !in rules[..i]
      {
        if rules[i] == rule.value {
          forall j | 0 <= j < i ensures rules[j] != rule.value {
            assert rules[j] in rules[..i];
          }
          DeleteFirstAt(rules, rule.value, i);
          rules := rules[..i] + rules[i + 1..];
          return true;
        }
      }
      return false;
    }

    /** retrieveExistingRules: one rule that does not parse is an error for the whole chain. */
    method Retrieve(fault: bool) returns (r: Option<seq<RuleEntry>>)
      ensures r.Some? <==> !fault && Readable(codec, rules)
      ensures r.Some? ==> Reads(codec, rules, r.value)
    {
      if fault {
        return None;
      }
      var existing := [];
      for i := 0 to |rules|
        invariant Reads(codec, rules[..i], existing)
      {
        var entry := codec.read(rules[i]);
        if entry.None? {
          return None;
        }
        existing := existing + [entry.value];
      }
      assert rules[..|rules|] == rules;
      return Some(existing);
    }

    /** The adding loop of reconcile. */
    method AddAll(add: seq<RuleEntry>, fails: nat -> bool) returns (ok: bool, ghost done: nat)
      modifies this
      ensures AddsStop(codec, add, fails, done) && rules == Added(codec, old(rules), add[..done])
      ensures ok <==> done == |add|
    {
      done := 0;
      for i := 0 to |add|
        invariant done == i && rules == Added(codec, old(rules), add[..i])
        invariant forall j :: 0 <= j < i ==> !fails(j) && Rule(codec, add[j]).Some?
      {
        assert add[..i + 1][..i] == add[..i];
        ok := AppendUnique(codec.build(add[i]), fails(i));
        if !ok {
          return false, done;
        }
        done := i + 1;
      }
      return true, done;
    }

    /** The removing loop of reconcile. */
    method RemoveAll(remove: seq<RuleEntry>, fails: nat -> bool) returns (ok: bool, ghost done: nat)
      requires Lawful(codec) && forall e :: e in remove ==> Rule(codec, e).Some?
      modifies this
      ensures RemovesStop(codec, old(rules), remove, fails, done) && rules == Removed(codec, old(rules), remove[..done])
      ensures ok <==> done == |remove|
    {
      done := 0;
      for i := 0 to |remove|
        invariant done == i && rules == Removed(codec, old(rules), remove[..i])
        invariant RemovesRun(codec, old(rules), remove, fails, i)
      {
        assert remove[i] in remove;
        NextRemove(codec, old(rules), remove, fails, i);
        ok := Delete(codec.build(remove[i]), fails(i));
        if !ok {
          return false, done;
        }
        done := i + 1;
      }
      return true, done;
    }

    /** One reconcile. `whitelist` is the answer of WhitelistedAddressStore.List as rule entries;
        `statsFail` and the two fault functions say which iptables calls fail. */
    method Reconcile(whitelist: Option<seq<RuleEntry>>,
                     statsFail: bool, addFails: nat -> bool, removeFails: nat -> bool)
      returns (ok: bool, ghost added: nat, ghost removed: nat)
      requires Lawful(codec)
      modifies this
      // a table that cannot be listed, or one rule that cannot be parsed, stops it before any change
      ensures whitelist.None? || statsFail || !Readable(codec, old(rules)) ==> !ok && rules == old(rules)
      // otherwise it adds and then removes differences, in order, and succeeds exactly if nothing is in the way
      ensures whitelist.Some? && !statsFail && Readable(codec, old(rules)) ==>
        && Progress(codec, old(rules), whitelist.value, added, removed, rules)
        && (ok <==> Unobstructed(codec, old(rules), whitelist.value, addFails, removeFails))
        && Reconciled(codec, old(rules), whitelist.value, rules, ok)
    {
      added, removed := 0, 0;
      if whitelist.None? {
        return false, 0, 0;
      }
      var read := Retrieve(statsFail);
      if read.None? {
        return false, 0, 0;
      }
      var existing, desired := read.value, whitelist.value;
      var remove := SliceDifference(existing, desired);
      var add := SliceDifference(desired, existing);
      DiffIsGood(codec, rules, existing, desired);
      ok, added := AddAll(add, addFails);
      assert add[..|add|] == add;
      if ok {
        ok, removed := RemoveAll(remove, removeFails);
      }
      ReconcileEnds(codec, old(rules), existing, desired, addFails, removeFails, added, removed);
    }

    /** Two reconciles over the same table, each with its own faults: from `old(rules)` to `between`, and
        on to `rules`. After one that succeeded, the other changes nothing, whichever of its calls fail. */
    method ReconcileTwice(whitelist: seq<RuleEntry>,
                          statsFail: bool, addFails: nat -> bool, removeFails: nat -> bool,
                          statsFail': bool, addFails': nat -> bool, removeFails': nat -> bool)
      returns (ok: bool, ok': bool, ghost between: seq<KernelRule>,
               ghost m: nat, ghost n: nat, ghost m': nat, ghost n': nat)
      requires Lawful(codec)
      modifies this
      // the first
      ensures statsFail || !Readable(codec, old(rules)) ==> !ok && between == old(rules)
      ensures !statsFail && Readable(codec, old(rules)) ==>
        && Progress(codec, old(rules), whitelist, m, n, between)
        && (ok <==> Unobstructed(codec, old(rules), whitelist, addFails, removeFails))
        && Reconciled(codec, old(rules), whitelist, between, ok)
      // the second
      ensures statsFail' || !Readable(codec, between) ==> !ok' && rules == between
      ensures !statsFail' && Readable(codec, between) ==>
        && Progress(codec, between, whitelist, m', n', rules)
        && (ok' <==> Unobstructed(codec, between, whitelist, addFails', removeFails'))
        && Reconciled(codec, between, whitelist, rules, ok')
      // together
      ensures ok ==> rules == between
      ensures ok && AllAcceptable(codec, whitelist) ==> (ok' <==> !statsFail')
    {
      ok, m, n := Reconcile(Some(whitelist), statsFail, addFails, removeFails);
      between := rules;
      ok', m', n' := Reconcile(Some(whitelist), statsFail', addFails', removeFails');
      if ok && Readable(codec, between) && !statsFail' {
        SecondDoesNothing(codec, old(rules), whitelist, between, m', n', rules);
      }
      if ok && AllAcceptable(codec, whitelist) {
        EqualIsUnobstructed(codec, between, whitelist, addFails', removeFails');
      }
    }
  }

  /** The two differences start the phases, and hold only entries of the right kind. */
  lemma DiffIsGood(c: Codec, rules: seq<KernelRule>, existing: seq<RuleEntry>, desired: seq<RuleEntry>)
    requires Lawful(c) && Reads(c, rules, existing)
    ensures var add, remove := Difference(desired, existing), Difference(existing, desired);
            && Phase(c, rules, existing, desired, existing, add, remove)
            && (forall e :: e in add ==> e in desired) && (forall e :: e in remove ==> c.good(e))
            && (Elements(existing) == Elements(desired) ==> add == [] && remove == [])
  {
    DiffStartsPhases(existing, desired);
    DifferenceElements(existing, desired);
    DifferenceElements(desired, existing);
    var add, remove := Difference(desired, existing), Difference(existing, desired);
    forall e | e in add ensures e in desired {
      assert e in Elements(add);
    }
    forall e | e in remove ensures c.good(e) {
      assert e in Elements(remove);
      var i :| 0 <= i < |existing| && existing[i] == e;
      assert c.read(rules[i]) == Some(e);
    }
    NonEmptyElements(add);
    NonEmptyElements(remove);
  }
}
