/** Runs on which the stronger properties fail, one for each condition the theorems carry. */
module Races {
  import opened Tables
  import opened Handlers
  import opened Rules
  import opened Server
  import opened Theorems
  import opened Ports

  const C := Config(6432, 7432)
  const ALICE := Who("alice@example.com", "a-token", "192.0.2.1")
  const BOB := Who("bob@example.com", "b-token", "192.0.2.2")

  /** One ready image with its snapshot, no instance, an idle server. */
  const START := State(
    Store(map[1 := true], 2, map[], 1, {}, {1}, {}, 0, map[], {}, {}, {}),
    map[], Idle(false), [])

  ghost predicate Reaches(c: Config, s0: State, s: State) {
    exists ss, acts :: Run(c, ss, acts) && ss[0] == s0 && ss[|ss| - 1] == s
  }

  lemma Begin(c: Config, s0: State)
    requires Boot(c, s0)
    ensures Reaches(c, s0, s0)
  {
    assert Run(c, [s0], []);
  }

  lemma Extend(c: Config, s0: State, s: State, a: Action, s': State)
    requires Reaches(c, s0, s) && Next(c, s, a, s')
    ensures Reaches(c, s0, s')
  {
    var ss, acts :| Run(c, ss, acts) && ss[0] == s0 && ss[|ss| - 1] == s;
    var ss', acts' := ss + [s'], acts + [a];
    forall k | 0 <= k < |acts'| ensures StepAt(c, ss', acts', k) {
      assert k < |acts| ==> StepAt(c, ss, acts, k);
      assert ss'[k] == ss[k];
    }
    assert Run(c, ss', acts');
  }

  /** Thread `t` moves from `pc`, where it stands, to `pc'`. */
  lemma Move1(s0: State, s: State, t: nat, o: Outcome, st': Store, pc': Pc)
    requires Reaches(C, s0, s) && t in s.threads
    requires var m := Advance(C, s.st, s.threads[t], o);
             m.Move? && m.pc == pc' && Apply(s.st, t, m.effect) == st'
    ensures Reaches(C, s0, s.(st := st', threads := s.threads[t := pc']))
  {
    Extend(C, s0, s, Call(t, o), s.(st := st', threads := s.threads[t := pc']));
  }

  lemma ArriveToCreate(s0: State, s: State, t: nat, who: Who)
    requires Reaches(C, s0, s) && t !in s.threads && 1 in s.st.images && s.st.images[1]
    ensures Reaches(C, s0, s.(threads := s.threads[t := CreatePort(1, who, 0)]))
  {
    var s1 := s.(threads := s.threads[t := CreateLookup(1, who)]);
    Extend(C, s0, s, Arrive(t, CreateLookup(1, who)), s1);
    Move1(s0, s1, t, Done, s.st, CreatePort(1, who, 0));
    assert s1.threads[t := CreatePort(1, who, 0)] == s.threads[t := CreatePort(1, who, 0)];
  }

  /** A create request of `who` is given `port` and is about to insert its row. */
  lemma ChoosePort(s0: State, s: State, t: nat, who: Who, port: nat)
    requires Reaches(C, s0, s) && t !in s.threads && 1 in s.st.images && s.st.images[1]
    requires C.minPort <= port < C.maxPort && !PortTaken(s.st.instances, port)
    ensures Reaches(C, s0, s.(threads := s.threads[t := CreateInsert(1, who, port)]))
  {
    ArriveToCreate(s0, s, t, who);
    var s2 := s.(threads := s.threads[t := CreatePort(1, who, 0)]);
    ReachableIsInterval(C, port);
    Move1(s0, s2, t, Drew(port), s.st, CreateInsert(1, who, port));
    assert s2.threads[t := CreateInsert(1, who, port)] == s.threads[t := CreateInsert(1, who, port)];
  }

  /** Both creates have been given port 7000. */
  const CONTENDING := START.(threads := map[1 := CreateInsert(1, ALICE, 7000), 2 := CreateInsert(1, BOB, 7000)])

  lemma ReachContending()
    ensures Reaches(C, START, CONTENDING)
  {
    Begin(C, START);
    ChoosePort(START, START, 1, ALICE, 7000);
    ChoosePort(START, START.(threads := START.threads[1 := CreateInsert(1, ALICE, 7000)]), 2, BOB, 7000);
    assert START.threads[1 := CreateInsert(1, ALICE, 7000)][2 := CreateInsert(1, BOB, 7000)] == CONTENDING.threads;
  }

  /** The row insert of a create that has chosen its port. */
  function Inserted(s: State, t: nat, id: nat): State
    requires t in s.threads && s.threads[t].CreateInsert?
  {
    var pc := s.threads[t];
    s.(st := Apply(s.st, t, InsertInstance(id, Instance(pc.image, pc.port, pc.who.email, pc.who.token), pc.who.ip)),
       threads := s.threads[t := CreateVolume(id, pc.image, pc.who)])
  }

  lemma InsertRow(s0: State, s: State, t: nat, id: nat)
    requires Reaches(C, s0, s) && t in s.threads && s.threads[t].CreateInsert?
    requires s.threads[t].image in s.st.images && id >= s.st.nextInstance
    ensures Reaches(C, s0, Inserted(s, t, id))
  {
    Extend(C, s0, s, Call(t, NewRow(id)), Inserted(s, t, id));
  }

  /** Two creates that overlap between choosing a port and inserting the row can end up sharing
      one: the table has no uniqueness on port. */
  lemma OverlappingCreatesCanSharePort() returns (s: State)
    ensures Reaches(C, START, s) && PortsDistinct(START.st) && !PortsDistinct(s.st)
  {
    ReachContending();
    InsertRow(START, CONTENDING, 1, 1);
    var s1 := Inserted(CONTENDING, 1, 1);
    InsertRow(START, s1, 2, 2);
    s := Inserted(s1, 2, 2);
    assert 1 in s.st.instances && 2 in s.st.instances;
    assert s.st.instances[1].port == s.st.instances[2].port;
  }

  /** Alice's create has inserted row 1 and is about to make its disk. */
  const BUILDING := Inserted(START.(threads := START.threads[1 := CreateInsert(1, ALICE, 7000)]), 1, 1)

  lemma ReachBuilding()
    ensures Reaches(C, START, BUILDING)
  {
    Begin(C, START);
    ChoosePort(START, START, 1, ALICE, 7000);
    InsertRow(START, START.(threads := START.threads[1 := CreateInsert(1, ALICE, 7000)]), 1, 1);
  }

  lemma PurgeArrives(s0: State, s: State)
    requires Reaches(C, s0, s) && 2 !in s.threads && 1 in s.st.images
    ensures Reaches(C, s0, s.(threads := s.threads[2 := PurgeList(1)]))
  {
    var s1 := s.(threads := s.threads[2 := PurgeLookup(1, true)]);
    Extend(C, s0, s, Arrive(2, PurgeLookup(1, true)), s1);
    Move1(s0, s1, 2, Done, s.st, PurgeList(1));
    assert s1.threads[2 := PurgeList(1)] == s.threads[2 := PurgeList(1)];
  }

  lemma PurgeUpToRow(s0: State, s: State)
    requires Reaches(C, s0, s) && 2 !in s.threads && 1 in s.st.images
    requires s.st.instances.Keys == {1} && s.st.instances[1].image == 1
    ensures Reaches(C, s0, s.(threads := s.threads[2 := PurgeRow(1, [1])]))
  {
    PurgeArrives(s0, s);
    var s2 := s.(threads := s.threads[2 := PurgeList(1)]);
    assert OfImage(s.st.instances, [1], 1) == [1] + OfImage(s.st.instances, [], 1);
    assert ListingPrefix(s.st.instances, [1]);
    Move1(s0, s2, 2, Rows([1]), s.st, PurgeRow(1, [1]));
    assert s2.threads[2 := PurgeRow(1, [1])] == s.threads[2 := PurgeRow(1, [1])];
  }

  lemma PurgeOneRow(s0: State, s: State)
    requires Reaches(C, s0, s) && 2 in s.threads && s.threads[2] == PurgeRow(1, [1])
    ensures Reaches(C, s0, s.(st := Apply(s.st, 2, DeleteInstance(1, ByImageDestroy)),
                              threads := s.threads[2 := PurgeVolume(1, 1, [])]))
  {
    Move1(s0, s, 2, Done, Apply(s.st, 2, DeleteInstance(1, ByImageDestroy)), PurgeVolume(1, 1, []));
  }

  lemma BuildVolume(s0: State, s: State, t: nat)
    requires Reaches(C, s0, s) && t in s.threads && s.threads[t].CreateVolume?
    requires s.threads[t].image in s.st.snapshots
    ensures var pc := s.threads[t];
            Reaches(C, s0, s.(st := Apply(s.st, t, FinishBuild(pc.id, true)),
                              threads := s.threads[t := CreateCredentials(pc.id, pc.who)]))
  {
    var pc := s.threads[t];
    Move1(s0, s, t, Done, Apply(s.st, t, FinishBuild(pc.id, true)), CreateCredentials(pc.id, pc.who));
  }

  /** Thread `t` answers and is done, having changed nothing. */
  lemma AnswerAndEnd(s0: State, s: State, t: nat, reply: Reply)
    requires Reaches(C, s0, s) && t in s.threads
    requires Advance(C, s.st, s.threads[t], Failed) == Move(Finished(reply), Nothing)
    ensures Reaches(C, s0, s.(threads := s.threads[t := Finished(reply)]))
  {
    Move1(s0, s, t, Failed, s.st, Finished(reply));
  }

  ghost predicate AllFinished(s: State) {
    forall t :: t in s.threads ==> s.threads[t].Finished?
  }

  /** The destroy has deleted row 1, found no disk to delete, and answered 500; the create goes on. */
  const OVERTAKEN := BUILDING.(st := Apply(BUILDING.st, 2, DeleteInstance(1, ByImageDestroy)),
                               threads := BUILDING.threads[2 := Finished(Status(500))])

  lemma ReachOvertaken()
    ensures Reaches(C, START, OVERTAKEN)
  {
    ReachBuilding();
    PurgeUpToRow(START, BUILDING);
    var s := BUILDING.(threads := BUILDING.threads[2 := PurgeRow(1, [1])]);
    PurgeOneRow(START, s);
    s := s.(st := OVERTAKEN.st, threads := s.threads[2 := PurgeVolume(1, 1, [])]);
    AnswerAndEnd(START, s, 2, Status(500));
    assert s.threads[2 := Finished(Status(500))] == OVERTAKEN.threads;
  }

  /** An upload-user image destroy that overtakes a create between its row insert and its disk
      creation leaves an on-disk instance without a row, with no request left that would delete it:
      the row goes first on that path only. */
  lemma ImageDestroyCanOrphanVolume() returns (s: State)
    ensures Reaches(C, START, s) && START.st.purged == {}
    ensures 1 in s.st.volumes && 1 !in s.st.instances && AllFinished(s)
  {
    ReachOvertaken();
    BuildVolume(START, OVERTAKEN, 1);
    s := OVERTAKEN.(st := Apply(OVERTAKEN.st, 1, FinishBuild(1, true)),
                    threads := OVERTAKEN.threads[1 := CreateCredentials(1, ALICE)]);
    AnswerAndEnd(START, s, 1, Status(500));
    s := s.(threads := s.threads[1 := Finished(Status(500))]);
  }

  /** A create whose disk creation fails leaves a stranded row. */
  lemma FailedCreateStrands() returns (s: State)
    ensures Reaches(C, START, s) && AllFinished(s) && Stranded(s, 1)
  {
    ReachBuilding();
    Move1(START, BUILDING, 1, Failed, Apply(BUILDING.st, 1, FinishBuild(1, false)), Finished(Status(500)));
    s := BUILDING.(st := Apply(BUILDING.st, 1, FinishBuild(1, false)),
                   threads := BUILDING.threads[1 := Finished(Status(500))]);
  }

  const KEY := AddressKey(ALICE.ip, 1)
  const RULE := RuleEntry(ALICE.ip, 7000, ALICE.email)

  /** Alice has an instance on disk, her address is whitelisted, and her rule is in the chain. */
  const SERVING := State(
    Store(map[1 := true], 2, map[1 := Instance(1, 7000, ALICE.email, ALICE.token)], 2, {KEY}, {1}, {1},
          0, map[], {}, {}, {Visit(1, ALICE.email, ALICE.ip)}),
    map[], Idle(false), [RULE])

  const SYNCED := SERVING.(consumer := Idle(true))

  lemma ReachReading()
    ensures Reaches(C, SERVING, SERVING.(consumer := Reading([RULE])))
  {
    ReachableIsInterval(C, 7000);
    Begin(C, SERVING);
    var s := SERVING.(st := SERVING.st.(queue := 1));
    Extend(C, SERVING, SERVING, Tick, s);
    var s1 := SERVING.(consumer := Server.Listing);
    Extend(C, SERVING, s, Take, s1);
    var keys, s2 := [KEY], SERVING.(consumer := Reading([RULE]));
    assert JoinRules(SERVING.st.instances, keys) == [RuleFor(SERVING.st.instances, keys[0])] == [RULE];
    assert Enumerates(keys, SERVING.st.addresses);
    assert ConsumerNext(s1, ListAddresses(keys), s2);
    Extend(C, SERVING, s1, ListAddresses(keys), s2);
  }

  lemma ReachSynced()
    ensures Reaches(C, SERVING, SYNCED)
  {
    ReachReading();
    assert Difference([RULE], [RULE]) == [];
    var s3 := SERVING.(consumer := Adding([RULE], [], []));
    Extend(C, SERVING, SERVING.(consumer := Reading([RULE])), ReadChain, s3);
    var s4 := SERVING.(consumer := Removing([RULE], []));
    Extend(C, SERVING, s3, ChangeChain, s4);
    Extend(C, SERVING, s4, ChangeChain, SYNCED);
  }

  lemma SweepUpToNext()
    ensures Reaches(C, SERVING, SYNCED.(threads := map[1 := SweepNext([1])]))
  {
    ReachSynced();
    var s := SYNCED.(threads := map[1 := SweepList]);
    Extend(C, SERVING, SYNCED, Arrive(1, SweepList), s);
    assert WithToken(s.st.instances, [1]) == [1] + WithToken(s.st.instances, []);
    assert Tables.Listing(s.st.instances, [1]);
    Move1(SERVING, s, 1, Rows([1]), s.st, SweepNext([1]));
    assert s.threads[1 := SweepNext([1])] == map[1 := SweepNext([1])];
  }

  lemma SweepUpToVolume()
    ensures Reaches(C, SERVING, SYNCED.(threads := map[1 := SweepVolume(1, [])]))
  {
    SweepUpToNext();
    var s1 := SYNCED.(threads := map[1 := SweepNext([1])]);
    Move1(SERVING, s1, 1, Rejected, s1.st, SweepVolume(1, []));
    assert s1.threads[1 := SweepVolume(1, [])] == map[1 := SweepVolume(1, [])];
  }

  lemma SweepUpToRow()
    ensures Reaches(C, SERVING, SYNCED.(st := Apply(SYNCED.st, 1, DropVolume(1)), threads := map[1 := SweepRow(1, [])]))
  {
    SweepUpToVolume();
    var s := SYNCED.(threads := map[1 := SweepVolume(1, [])]);
    Move1(SERVING, s, 1, Done, Apply(s.st, 1, DropVolume(1)), SweepRow(1, []));
    assert s.threads[1 := SweepRow(1, [])] == map[1 := SweepRow(1, [])];
  }

  /** A cleaner sweep sends no trigger: the quiet chain can keep a rule whose row is gone. */
  lemma SweepCanLeaveStaleRule() returns (s: State)
    ensures Reaches(C, SERVING, s) && Quiet(s) && s.consumer == Idle(true)
    ensures RULE in s.chain && Wanted(s.st) == {}
  {
    SweepUpToRow();
    s := SYNCED.(st := Apply(SYNCED.st, 1, DropVolume(1)), threads := map[1 := SweepRow(1, [])]);
    var st2 := Apply(s.st, 1, DeleteInstance(1, ByCleaner));
    Move1(SERVING, s, 1, Done, st2, SweepNext([]));
    s := s.(st := st2, threads := s.threads[1 := SweepNext([])]);
  }
}
