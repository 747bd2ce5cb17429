/** The whole server as a transition system: any number of request threads and cleaner sweeps,
    the reconcile timer, the single reconcile consumer, and process restarts, interleaved at
    every store, executor, iptables or channel operation. */
module Server {
  import opened Tables
  import opened Handlers
  import opened Assertions
  import opened Rules

  /** Where the consumer loop stands; `ok` is whether the last reconcile returned nil. */
  datatype Consumer =
    | Idle(ok: bool)
    | Listing
    | Reading(desired: seq<RuleEntry>)
    | Adding(desired: seq<RuleEntry>, add: seq<RuleEntry>, remove: seq<RuleEntry>)
    | Removing(desired: seq<RuleEntry>, remove: seq<RuleEntry>)

  datatype State = State(st: Store, threads: map<nat, Pc>, consumer: Consumer, chain: seq<RuleEntry>)

  datatype Action =
    | Arrive(t: nat, pc: Pc)
    | Call(t: nat, o: Outcome)
    | Tick                                   // the timer sends a trigger
    | Take                                   // the consumer receives a trigger
    | ListAddresses(keys: seq<AddressKey>)   // in created_at order
    | ReadChain
    | ChangeChain                            // next AppendUnique or Delete, or the end of a phase
    | GiveUp                                 // the consumer's current call fails
    | Restart

  /** The join behind WhitelistedAddressStore.List, row by row. */
  function JoinRules(instances: map<nat, Instance>, keys: seq<AddressKey>): seq<RuleEntry> {
    if keys == [] then []
    else if keys[0].instance in instances
    then [RuleFor(instances, keys[0])] + JoinRules(instances, keys[1..])
    else JoinRules(instances, keys[1..])
  }

  /** `keys` lists the set `all`, each element once. */
  ghost predicate Enumerates(keys: seq<AddressKey>, all: set<AddressKey>) {
    && (forall i, j :: 0 <= i < j < |keys| ==> keys[i] != keys[j])
    && (forall k :: k in keys <==> k in all)
  }

  ghost predicate ConsumerNext(s: State, a: Action, s': State) {
    match s.consumer
    case Idle(_) =>
      a.Take? && s.st.queue > 0 && s' == s.(st := s.st.(queue := s.st.queue - 1), consumer := Listing)
    case Listing =>
      || (a.ListAddresses? && Enumerates(a.keys, s.st.addresses)
          && s' == s.(st := s.st.(silent := {}), consumer := Reading(JoinRules(s.st.instances, a.keys))))
      || (a.GiveUp? && s' == s.(consumer := Idle(false)))
    case Reading(desired) =>
      || (a.ReadChain?
          && s' == s.(consumer := Adding(desired, Difference(desired, s.chain), Difference(s.chain, desired))))
      || (a.GiveUp? && s' == s.(consumer := Idle(false)))
    case Adding(desired, add, remove) =>
      || (a.ChangeChain?
          && s' == if add == [] then s.(consumer := Removing(desired, remove))
                   else s.(chain := AppendUnique(s.chain, add[0]), consumer := Adding(desired, add[1..], remove)))
      || (a.GiveUp? && s' == s.(consumer := Idle(false)))
    case Removing(desired, remove) =>
      || (a.ChangeChain? && (remove == [] || remove[0] in s.chain)
          && s' == if remove == [] then s.(consumer := Idle(true))
                   else s.(chain := DeleteFirst(s.chain, remove[0]), consumer := Removing(desired, remove[1..])))
      || (a.GiveUp? && s' == s.(consumer := Idle(false)))
  }

  ghost predicate Moves(s: State, t: nat, m: Move, s': State) {
    m.Move? && s' == s.(st := Apply(s.st, t, m.effect), threads := s.threads[t := m.pc])
  }

  ghost predicate CallNext(c: Config, s: State, t: nat, o: Outcome, s': State) {
    t in s.threads && Moves(s, t, Advance(c, s.st, s.threads[t], o), s')
  }

  ghost predicate Next(c: Config, s: State, a: Action, s': State) {
    match a
    case Arrive(t, pc) => t !in s.threads && IsEntry(pc) && s' == s.(threads := s.threads[t := pc])
    case Call(t, o) => CallNext(c, s, t, o, s')
    case Tick => s.st.queue < QUEUE_CAPACITY && s' == s.(st := s.st.(queue := s.st.queue + 1))
    case Restart =>
      s' == s.(st := s.st.(queue := 0, building := map[]), threads := map[], consumer := Idle(false))
    case _ => ConsumerNext(s, a, s')
  }

  /** A server process has just started over consistent tables; the chain may hold anything. */
  ghost predicate Boot(c: Config, s: State) {
    && StoreInv(c, s.st) && s.st.queue == 0 && s.st.building == map[]
    && s.threads == map[] && s.consumer == Idle(false)
  }

  ghost predicate StepAt(c: Config, ss: seq<State>, acts: seq<Action>, k: nat)
    requires |ss| == |acts| + 1 && k < |acts|
  {
    Next(c, ss[k], acts[k], ss[k + 1])
  }

  /** `ss` are the states and `acts` the actions of one run. */
  ghost predicate Run(c: Config, ss: seq<State>, acts: seq<Action>) {
    && |ss| == |acts| + 1
    && Boot(c, ss[0])
    && (forall k :: 0 <= k < |acts| ==> StepAt(c, ss, acts, k))
  }

  ghost predicate ThreadsHold(c: Config, s: State) {
    forall t :: t in s.threads ==> Holds(c, s.st, t, s.threads[t])
  }

  /** Nothing is queued and no handler sits between its store write and its trigger. */
  ghost predicate Quiet(s: State) {
    && s.st.queue == 0
    && (forall t :: t in s.threads ==> !s.threads[t].Trigger?)
  }

  /** `rules` are those the tables ask for, and those whose rows went silently. */
  ghost predicate Agrees(st: Store, rules: set<RuleEntry>) {
    rules == Wanted(st) + st.silent
  }

  ghost predicate PhaseInv(s: State) {
    match s.consumer
    case Adding(desired, add, remove) =>
      Supplied(s.chain, desired, add) && Condemned(s.chain, desired, remove)
    case Removing(desired, remove) =>
      Supplied(s.chain, desired, []) && Condemned(s.chain, desired, remove)
    case _ => true
  }

  ghost predicate Synced(s: State) {
    match s.consumer
    case Idle(ok) => ok ==> Agrees(s.st, Elements(s.chain))
    case Listing => true
    case _ => Agrees(s.st, Elements(s.consumer.desired))
  }

  ghost predicate Inv(c: Config, s: State) {
    StoreInv(c, s.st) && ThreadsHold(c, s) && PhaseInv(s) && (Quiet(s) ==> Synced(s))
  }

  lemma {:induction false} JoinElements(instances: map<nat, Instance>, keys: seq<AddressKey>, r: RuleEntry)
    ensures r in JoinRules(instances, keys) <==>
            exists k :: k in keys && k.instance in instances && RuleFor(instances, k) == r
  {
    if keys == [] {
    } else {
      JoinElements(instances, keys[1..], r);
      assert keys == [keys[0]] + keys[1..];
    }
  }

  lemma JoinIsWanted(st: Store, keys: seq<AddressKey>)
    requires Enumerates(keys, st.addresses)
    ensures Elements(JoinRules(st.instances, keys)) == Wanted(st)
  {
    forall r ensures r in JoinRules(st.instances, keys) <==> r in Wanted(st) {
      JoinElements(st.instances, keys, r);
    }
  }

  /** Only the two writes that are followed by a trigger can make a synced whitelist stale. */
  lemma EffectKeepsAgreement(c: Config, st: Store, t: nat, e: Effect, rules: set<RuleEntry>)
    requires StoreInv(c, st) && Justified(c, st, t, e)
    requires !e.UpsertAddress? && !(e.DeleteInstance? && e.agent.ByOwner?)
    requires Agrees(st, rules)
    ensures Agrees(Apply(st, t, e), rules)
  {
    var st' := Apply(st, t, e);
    if e.DeleteInstance? {
      RemovalKeepsAgreement(st, e.id, e.agent, rules);
    } else {
      assert st'.addresses == st.addresses && st'.silent == st.silent;
      assert forall k :: k in st.addresses ==>
        k.instance in st'.instances && RuleFor(st'.instances, k) == RuleFor(st.instances, k);
      assert Wanted(st') == Wanted(st);
    }
  }

  lemma RemovalKeepsAgreement(st: Store, id: nat, agent: Deleter, rules: set<RuleEntry>)
    requires !agent.ByOwner? && Agrees(st, rules)
    ensures Agrees(RemoveInstance(st, id, agent), rules)
  {
    var st' := RemoveInstance(st, id, agent);
    assert Wanted(st) == Wanted(st') + RulesOfInstance(st, id) by {
      forall r | r in Wanted(st) ensures r in Wanted(st') + RulesOfInstance(st, id) {
        var k :| k in st.addresses && k.instance in st.instances && RuleFor(st.instances, k) == r;
        assert k.instance != id ==>
          k in st'.addresses && k.instance in st'.instances && RuleFor(st'.instances, k) == r;
      }
    }
  }

  lemma TriggerDiscipline(c: Config, st: Store, pc: Pc, o: Outcome)
    requires Advance(c, st, pc, o).Move?
    ensures var m := Advance(c, st, pc, o);
            && (pc.Trigger? ==> m.effect.Enqueue?)
            && (m.effect.UpsertAddress? || (m.effect.DeleteInstance? && m.effect.agent.ByOwner?) ==> m.pc.Trigger?)
  {
    CallIsShaped(c, st, pc, o);
  }

  lemma MoveKeepsSynced(c: Config, s: State, t: nat, o: Outcome, m: Move, s': State)
    requires Inv(c, s) && t in s.threads && Moves(s, t, m, s') && Quiet(s')
    requires Sound(c, s.st, t, m) && Shaped(s.st, s.threads[t], o, m)
    ensures Synced(s')
  {
    assert s'.threads[t] == m.pc;
    forall u | u in s.threads ensures !s.threads[u].Trigger? {
      assert u != t ==> s'.threads[u] == s.threads[u];
    }
    assert Quiet(s) && Synced(s);
    match s.consumer
    case Idle(ok) =>
      if ok { EffectKeepsAgreement(c, s.st, t, m.effect, Elements(s.chain)); }
    case Listing =>
    case _ =>
      EffectKeepsAgreement(c, s.st, t, m.effect, Elements(s.consumer.desired));
  }

  lemma MoveKeepsInv(c: Config, s: State, t: nat, o: Outcome, m: Move, s': State)
    requires Inv(c, s) && t in s.threads && Moves(s, t, m, s')
    requires Sound(c, s.st, t, m) && Shaped(s.st, s.threads[t], o, m)
    ensures Inv(c, s')
  {
    EffectKeepsStore(c, s.st, t, m.effect);
    forall u | u in s'.threads ensures Holds(c, s'.st, u, s'.threads[u]) {
      if u != t {
        EffectKeepsOthers(c, s.st, t, m.effect, u, s.threads[u]);
      }
    }
    if Quiet(s') {
      MoveKeepsSynced(c, s, t, o, m, s');
    }
  }

  lemma CallKeepsInv(c: Config, s: State, t: nat, o: Outcome, s': State)
    requires Inv(c, s) && CallNext(c, s, t, o, s')
    ensures Inv(c, s')
  {
    CallIsSound(c, s.st, t, s.threads[t], o);
    CallIsShaped(c, s.st, s.threads[t], o);
    MoveKeepsInv(c, s, t, o, Advance(c, s.st, s.threads[t], o), s');
  }

  lemma ListKeepsInv(c: Config, s: State, a: Action, s': State)
    requires Inv(c, s) && ConsumerNext(s, a, s') && (s.consumer.Idle? || s.consumer.Listing?)
    ensures Inv(c, s')
  {
    if a.ListAddresses? {
      JoinIsWanted(s.st, a.keys);
    }
  }

  lemma ReadKeepsInv(c: Config, s: State, a: Action, s': State)
    requires Inv(c, s) && ConsumerNext(s, a, s') && s.consumer.Reading?
    ensures Inv(c, s')
  {
    DiffStartsPhases(s.chain, s.consumer.desired);
  }

  lemma AddKeepsInv(c: Config, s: State, a: Action, s': State)
    requires Inv(c, s) && ConsumerNext(s, a, s') && s.consumer.Adding?
    ensures Inv(c, s')
  {
    var x := s.consumer;
    if a.ChangeChain? && x.add != [] {
      AppendKeepsPhases(s.chain, x.desired, x.add, x.remove, s'.chain);
    }
  }

  lemma RemoveKeepsInv(c: Config, s: State, a: Action, s': State)
    requires Inv(c, s) && ConsumerNext(s, a, s') && s.consumer.Removing?
    ensures Inv(c, s')
  {
    var x := s.consumer;
    if a.ChangeChain? && x.remove == [] {
      PhasesEnd(s.chain, x.desired);
    } else if a.ChangeChain? {
      DeleteFirstRemovesOne(s.chain, x.remove[0]);
      DeleteKeepsPhases(s.chain, x.desired, x.remove, s'.chain);
    }
  }

  lemma ConsumerKeepsInv(c: Config, s: State, a: Action, s': State)
    requires Inv(c, s) && ConsumerNext(s, a, s')
    ensures Inv(c, s')
  {
    match s.consumer
    case Idle(_) => ListKeepsInv(c, s, a, s');
    case Listing => ListKeepsInv(c, s, a, s');
    case Reading(_) => ReadKeepsInv(c, s, a, s');
    case Adding(_, _, _) => AddKeepsInv(c, s, a, s');
    case Removing(_, _) => RemoveKeepsInv(c, s, a, s');
  }

  lemma ArriveKeepsInv(c: Config, s: State, t: nat, pc: Pc, s': State)
    requires Inv(c, s) && t !in s.threads && IsEntry(pc) && s' == s.(threads := s.threads[t := pc])
    ensures Inv(c, s')
  {
    assert forall u :: u in s.threads ==> s'.threads[u] == s.threads[u];
  }

  lemma RestartKeepsInv(c: Config, s: State, s': State)
    requires Inv(c, s)
    requires s' == s.(st := s.st.(queue := 0, building := map[]), threads := map[], consumer := Idle(false))
    ensures Inv(c, s')
  {
  }

  lemma StepKeepsInv(c: Config, s: State, a: Action, s': State)
    requires Inv(c, s) && Next(c, s, a, s')
    ensures Inv(c, s')
  {
    if a.Call? {
      CallKeepsInv(c, s, a.t, a.o, s');
    } else if a.Arrive? {
      ArriveKeepsInv(c, s, a.t, a.pc, s');
    } else if a.Restart? {
      RestartKeepsInv(c, s, s');
    } else if a.Tick? {
      assert !Quiet(s');
    } else {
      ConsumerKeepsInv(c, s, a, s');
    }
  }

  /** Every state of every run satisfies the invariant. */
  lemma {:induction false} RunKeepsInv(c: Config, ss: seq<State>, acts: seq<Action>, k: nat)
    requires Run(c, ss, acts) && k < |ss|
    ensures Inv(c, ss[k])
  {
    if k == 0 {
    } else {
      RunKeepsInv(c, ss, acts, k - 1);
      assert StepAt(c, ss, acts, k - 1);
      StepKeepsInv(c, ss[k - 1], acts[k - 1], ss[k]);
    }
  }

  /** What holds at first, and is lost exactly by bad steps, has held throughout if and only if no
      step was bad. */
  lemma {:induction false} LostByBadSteps(holds: nat -> bool, bad: nat -> bool, k: nat)
    requires holds(0)
    requires forall j :: 0 <= j < k && holds(j) ==> (holds(j + 1) <==> !bad(j))
    ensures (forall m :: 0 <= m <= k ==> holds(m)) <==> (forall j :: 0 <= j < k ==> !bad(j))
  {
    if k == 0 {
    } else {
      LostByBadSteps(holds, bad, k - 1);
      assert holds(k - 1) ==> (holds(k) <==> !bad(k - 1));
    }
  }

  /** The effect of the action on the tables and the disk, if it is a call. */
  ghost function EffectOf(c: Config, s: State, a: Action): Effect {
    if a.Call? && a.t in s.threads then
      var m := Advance(c, s.st, s.threads[a.t], a.o);
      if m.Move? then m.effect else Nothing
    else Nothing
  }

  /** `st'` is `st` but for the queue, and for what a List or a restart forgets. */
  ghost predicate SameTables(a: Action, st: Store, st': Store) {
    st' == st.(queue := st'.queue, building := st'.building,
               silent := if a.ListAddresses? then {} else st.silent)
  }

  /** Only calls change the tables and the disk, each by its effect, and each justified. */
  lemma StepActs(c: Config, s: State, a: Action, s': State) returns (t: nat, e: Effect)
    requires Inv(c, s) && Next(c, s, a, s')
    ensures e == EffectOf(c, s, a) && Justified(c, s.st, t, e) && SameTables(a, Apply(s.st, t, e), s'.st)
    ensures a.Call? ==> a.t == t && s'.st == Apply(s.st, t, e)
  {
    if a.Call? {
      t, e := a.t, EffectOf(c, s, a);
      CallIsSound(c, s.st, t, s.threads[t], a.o);
    } else {
      t, e := 0, Nothing;
    }
  }

  /** What the calling thread stood at, and what it went on to, fit the effect. */
  lemma CallShape(c: Config, s: State, a: Action, s': State) returns (m: Move)
    requires a.Call? && Next(c, s, a, s')
    ensures a.t in s.threads && Shaped(s.st, s.threads[a.t], a.o, m) && Moves(s, a.t, m, s')
    ensures m.effect == EffectOf(c, s, a)
  {
    m := Advance(c, s.st, s.threads[a.t], a.o);
    CallIsShaped(c, s.st, s.threads[a.t], a.o);
  }
}
