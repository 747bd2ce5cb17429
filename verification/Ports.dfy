/** The port allocator: the bounded random search, and what it gives over whole runs. */
module Ports {
  import opened Options
  import opened Tables
  import opened Handlers
  import opened Assertions
  import opened Server

  datatype PortResult =
    | Found(port: nat)
    | Exhausted   // 99 draws, all taken
    | ListError
    | Panic       // rand.Intn(0)

  /** maxPort - minPort in uint16 arithmetic. */
  function Span(c: Config): nat {
    (c.maxPort - c.minPort) % 65536
  }

  /** The port drawn for one answer of the random source, in uint16 arithmetic. */
  function Draw(c: Config, random: nat): nat
    requires Span(c) > 0
  {
    (c.minPort + random % Span(c)) % 65536
  }

  lemma DrawIsReachable(c: Config, random: nat)
    requires Span(c) > 0 && c.minPort < 65536
    ensures PortReachable(c, Draw(c, random))
  {
    var k := random % Span(c);
    OffsetIsReachable(c.minPort, Span(c), k);
  }

  lemma OffsetIsReachable(low: nat, span: nat, k: nat)
    requires low < 65536 && k < span < 65536
    ensures ((low + k) % 65536 - low) % 65536 == k
  {
    assert (low + k) % 65536 == if low + k < 65536 then low + k else low + k - 65536;
  }

  lemma OffsetReaches(low: nat, port: nat)
    requires low < 65536 && port < 65536
    ensures (low + (port - low) % 65536) % 65536 == port
  {
    assert (port - low) % 65536 == if low <= port then port - low else port - low + 65536;
  }

  /** The draws reach exactly the cyclic interval [minPort, maxPort) modulo 65536. */
  lemma DrawsAreReachable(c: Config, port: nat)
    requires Span(c) > 0 && c.minPort < 65536
    ensures PortReachable(c, port) <==> exists random: nat :: Draw(c, random) == port
  {
    if PortReachable(c, port) {
      var random := (port - c.minPort) % 65536;
      SmallRemainder(random, Span(c));
      OffsetReaches(c.minPort, port);
      assert Draw(c, random) == port;
    }
    if random: nat :| Draw(c, random) == port {
      DrawIsReachable(c, random);
    }
  }

  lemma SmallRemainder(x: nat, n: nat)
    requires x < n
    ensures x % n == x
  {
  }

  lemma ReachableIsInterval(c: Config, port: nat)
    requires c.minPort < 65536 && c.maxPort < 65536
    ensures PortReachable(c, port) <==>
            port < 65536 && if c.minPort <= c.maxPort then c.minPort <= port < c.maxPort
                            else c.minPort <= port || port < c.maxPort
  {
  }

  method Contains(ports: seq<nat>, port: nat) returns (found: bool)
    ensures found <==> port in ports
  {
    for i := 0 to |ports|
      invariant port !in ports[..i]
    {
      if ports[i] == port {
        return true;
      }
    }
    return false;
  }

  /** What a search that drew `draws` times and ended with `r` has met. */
  ghost predicate Searched(c: Config, random: nat -> nat, lists: nat -> Option<seq<nat>>, r: PortResult, draws: nat) {
    && draws <= 99
    && (r.Panic? <==> c.minPort == c.maxPort) && (r.Panic? ==> draws == 0)
    // every draw but the last hit a taken port
    && (!r.Panic? ==>
          && Span(c) > 0
          && forall k :: 0 <= k < (if r.Exhausted? then draws else draws - 1) ==>
               lists(k).Some? && Draw(c, random(k)) in lists(k).value)
    && (r.Exhausted? ==> draws == 99)
    && (r.ListError? ==> draws > 0 && lists(draws - 1).None?)
    && (r.Found? ==>
          && draws > 0 && Span(c) > 0 && r.port == Draw(c, random(draws - 1)) && PortReachable(c, r.port)
          && lists(draws - 1).Some? && r.port !in lists(draws - 1).value)
  }

  /** generateRandomFreePort: `random(k)` and `lists(k)` are the k-th answers of the random source
      and of InstanceStore.List (the ports listed, or an error). */
  method FindFreePort(c: Config, random: nat -> nat, lists: nat -> Option<seq<nat>>)
    returns (r: PortResult, draws: nat)
    requires c.minPort < 65536 && c.maxPort < 65536
    ensures Searched(c, random, lists, r, draws)
    // when every port of the interval is always taken, there is no result
    ensures (forall k: nat, p: nat :: PortReachable(c, p) && lists(k).Some? ==> p in lists(k).value) ==> !r.Found?
  {
    draws := 0;
    var attempts := 0;
    while true
      invariant draws == attempts <= 99
      invariant draws > 0 ==> Span(c) > 0
      invariant forall k :: 0 <= k < draws ==> lists(k).Some? && Draw(c, random(k)) in lists(k).value
      decreases 99 - attempts
    {
      attempts := attempts + 1;
      if attempts >= MAX_ATTEMPTS {
        return Exhausted, draws;
      }
      if Span(c) == 0 {
        return Panic, draws;
      }
      var port := Draw(c, random(draws));
      DrawIsReachable(c, random(draws));
      draws := draws + 1;
      var listed := lists(draws - 1);
      if listed.None? {
        return ListError, draws;
      }
      var taken := Contains(listed.value, port);
      if !taken {
        return Found(port), draws;
      }
    }
  }

  /** The create's k-th draw hits a taken port, and it draws again. */
  ghost predicate Redraws(c: Config, st: Store, image: nat, who: Who, k: nat, port: nat) {
    Advance(c, st, CreatePort(image, who, k), Drew(port)) == Move(CreatePort(image, who, k + 1), Nothing)
  }

  /** The create, having drawn `draws` times, ends its search with `r`. */
  ghost predicate EndsSearch(c: Config, tables: nat -> Store, image: nat, who: Who, draws: nat, r: PortResult) {
    match r
    case Found(port) =>
      draws > 0 && Advance(c, tables(draws - 1), CreatePort(image, who, draws - 1), Drew(port)) ==
                   Move(CreateInsert(image, who, port), Nothing)
    case ListError =>
      draws > 0 && Advance(c, tables(draws - 1), CreatePort(image, who, draws - 1), Failed) == Answer(500)
    case Exhausted => Advance(c, tables(draws), CreatePort(image, who, draws), Failed) == Answer(500)
    case Panic => Advance(c, tables(draws), CreatePort(image, who, draws), Done) == Move(Finished(Panicked), Nothing)
  }

  /** The search is the create's thread at CreatePort, draw by draw, whatever the tables become in
      between: `tables(k)` are those of the k-th List. */
  lemma SearchIsRun(c: Config, random: nat -> nat, lists: nat -> Option<seq<nat>>, r: PortResult, draws: nat,
                    tables: nat -> Store, image: nat, who: Who)
    requires c.minPort < 65536 && c.maxPort < 65536 && Searched(c, random, lists, r, draws)
    requires forall k, p :: 0 <= k < draws && lists(k).Some? ==>
               (p in lists(k).value <==> PortTaken(tables(k).instances, p))
    ensures forall k :: 0 <= k < draws && (r.Exhausted? || k < draws - 1) ==>
              Span(c) > 0 && Redraws(c, tables(k), image, who, k, Draw(c, random(k)))
    ensures EndsSearch(c, tables, image, who, draws, r)
  {
    forall k | 0 <= k < draws && (r.Exhausted? || k < draws - 1)
      ensures Span(c) > 0 && Redraws(c, tables(k), image, who, k, Draw(c, random(k)))
    {
      assert lists(k).Some? && Draw(c, random(k)) in lists(k).value;
      DrawIsReachable(c, random(k));
    }
  }

  // ---------- Over whole runs ----------

  ghost predicate PortsDistinct(st: Store) {
    forall i, j :: i in st.instances && j in st.instances && st.instances[i].port == st.instances[j].port ==> i == j
  }

  /** The step inserts the row of a create whose port is that of a live row. */
  ghost predicate InsertsTaken(c: Config, s: State, a: Action) {
    var e := EffectOf(c, s, a);
    e.InsertInstance? && PortTaken(s.st.instances, e.row.port)
  }

  lemma EffectOnPorts(c: Config, st: Store, t: nat, e: Effect)
    requires StoreInv(c, st) && Justified(c, st, t, e) && PortsDistinct(st)
    ensures PortsDistinct(Apply(st, t, e)) <==> !(e.InsertInstance? && PortTaken(st.instances, e.row.port))
  {
    var st' := Apply(st, t, e);
    if e.InsertInstance? && PortTaken(st.instances, e.row.port) {
      var i :| i in st.instances && st.instances[i].port == e.row.port;
      assert i in st'.instances && e.id in st'.instances && i != e.id;
    } else {
      forall i, j | i in st'.instances && j in st'.instances && st'.instances[i].port == st'.instances[j].port
        ensures i == j
      {
        assert i in st.instances || (e.InsertInstance? && i == e.id);
        assert j in st.instances || (e.InsertInstance? && j == e.id);
      }
    }
  }

  /** Rows are never updated and their ids never reused. */
  lemma {:induction false} RowIsKept(c: Config, ss: seq<State>, acts: seq<Action>, j: nat, k: nat, i: nat)
    requires Run(c, ss, acts) && j <= k < |ss| && i < ss[j].st.nextInstance
    ensures i < ss[k].st.nextInstance
    ensures i in ss[k].st.instances ==> i in ss[j].st.instances && ss[k].st.instances[i] == ss[j].st.instances[i]
  {
    if j == k {
    } else {
      RowIsKept(c, ss, acts, j, k - 1, i);
      RunKeepsInv(c, ss, acts, k - 1);
      assert StepAt(c, ss, acts, k - 1);
      var t, e := StepActs(c, ss[k - 1], acts[k - 1], ss[k]);
    }
  }

  /** Step `j` inserts row `i` as `row`. */
  ghost predicate InsertsRow(c: Config, s: State, a: Action, i: nat, row: Instance) {
    var e := EffectOf(c, s, a);
    e.InsertInstance? && e.id == i && e.row == row
  }

  lemma {:induction false} NewRowWasInserted(c: Config, ss: seq<State>, acts: seq<Action>, f: nat, k: nat, i: nat)
    requires Run(c, ss, acts) && f <= k < |ss| && i !in ss[f].st.instances && i in ss[k].st.instances
    ensures exists j :: f <= j < k && InsertsRow(c, ss[j], acts[j], i, ss[k].st.instances[i])
  {
    var s, a := ss[k - 1], acts[k - 1];
    RunKeepsInv(c, ss, acts, k - 1);
    assert StepAt(c, ss, acts, k - 1);
    var t, e := StepActs(c, s, a, ss[k]);
    if i in s.st.instances {
      NewRowWasInserted(c, ss, acts, f, k - 1, i);
    } else {
      assert InsertsRow(c, s, a, i, ss[k].st.instances[i]);
    }
  }

  /** Thread `t` chose its port at step `f`, found it free, and has been about to insert its row since. */
  ghost predicate ChosenAt(ss: seq<State>, acts: seq<Action>, t: nat, pc: Pc, f: nat, k: nat)
    requires |ss| == |acts| + 1 && k < |ss|
  {
    && f < k && pc.CreateInsert? && acts[f].Call? && acts[f].t == t
    && t in ss[f].threads && ss[f].threads[t].CreatePort?
    && ss[f + 1].st == ss[f].st && !PortTaken(ss[f].st.instances, pc.port)
    && (forall m :: f < m <= k ==> t in ss[m].threads && ss[m].threads[t] == pc)
  }

  lemma StepChooses(c: Config, s: State, a: Action, s': State, t: nat)
    requires Next(c, s, a, s') && t in s'.threads && s'.threads[t].CreateInsert?
    requires !(t in s.threads && s.threads[t] == s'.threads[t])
    ensures a.Call? && a.t == t && t in s.threads && s.threads[t].CreatePort?
    ensures s'.st == s.st && !PortTaken(s.st.instances, s'.threads[t].port)
  {
    if a.Call? {
      var m := CallShape(c, s, a, s');
    }
  }

  lemma {:induction false} InsertFollowsChoice(c: Config, ss: seq<State>, acts: seq<Action>, k: nat, t: nat)
    requires Run(c, ss, acts) && k < |ss| && t in ss[k].threads && ss[k].threads[t].CreateInsert?
    ensures exists f: nat :: ChosenAt(ss, acts, t, ss[k].threads[t], f, k)
  {
    var s, pc := ss[k - 1], ss[k].threads[t];
    assert StepAt(c, ss, acts, k - 1);
    if t in s.threads && s.threads[t] == pc {
      InsertFollowsChoice(c, ss, acts, k - 1, t);
      var f: nat :| ChosenAt(ss, acts, t, pc, f, k - 1);
      assert ChosenAt(ss, acts, t, pc, f, k);
    } else {
      StepChooses(c, s, acts[k - 1], ss[k], t);
      assert ChosenAt(ss, acts, t, pc, k - 1, k);
    }
  }

  /** At step `j` another create inserted row `i` with the port that thread `t` chose before and
      still has to insert at `k`, and that row is live. */
  ghost predicate OvertakenBy(c: Config, ss: seq<State>, acts: seq<Action>, t: nat, k: nat, f: nat, j: nat, i: nat)
    requires |ss| == |acts| + 1 && k < |ss|
  {
    && t in ss[k].threads && ChosenAt(ss, acts, t, ss[k].threads[t], f, k)
    && f < j < k && acts[j].Call? && acts[j].t != t
    && i in ss[k].st.instances && ss[k].st.instances[i].port == ss[k].threads[t].port
    && InsertsRow(c, ss[j], acts[j], i, ss[k].st.instances[i])
  }

  /** Step `k` inserts the row of a create that has been overtaken: since it chose its port, another
      create has inserted a row with that port, which is still live. */
  ghost predicate Overtaken(c: Config, ss: seq<State>, acts: seq<Action>, k: nat)
    requires |ss| == |acts| + 1 && k < |acts|
  {
    && acts[k].Call? && EffectOf(c, ss[k], acts[k]).InsertInstance?
    && exists f: nat, j: nat, i: nat :: OvertakenBy(c, ss, acts, acts[k].t, k, f, j, i)
  }

  lemma InsertStep(c: Config, ss: seq<State>, acts: seq<Action>, k: nat)
    requires Run(c, ss, acts) && k < |acts| && EffectOf(c, ss[k], acts[k]).InsertInstance?
    ensures acts[k].Call? && acts[k].t in ss[k].threads && ss[k].threads[acts[k].t].CreateInsert?
    ensures EffectOf(c, ss[k], acts[k]).row.port == ss[k].threads[acts[k].t].port
    ensures acts[k].t in ss[k + 1].threads && !ss[k + 1].threads[acts[k].t].CreateInsert?
  {
    assert StepAt(c, ss, acts, k);
    var m := CallShape(c, ss[k], acts[k], ss[k + 1]);
  }

  /** The port of a row to be inserted is taken exactly if the create has been overtaken. */
  lemma TakenMeansOvertaken(c: Config, ss: seq<State>, acts: seq<Action>, k: nat)
    requires Run(c, ss, acts) && k < |acts|
    ensures InsertsTaken(c, ss[k], acts[k]) <==> Overtaken(c, ss, acts, k)
  {
    if EffectOf(c, ss[k], acts[k]).InsertInstance? {
      InsertStep(c, ss, acts, k);
      var t, port := acts[k].t, ss[k].threads[acts[k].t].port;
      if PortTaken(ss[k].st.instances, port) {
        var i :| i in ss[k].st.instances && ss[k].st.instances[i].port == port;
        TakenWasInserted(c, ss, acts, k, i);
      }
    }
  }

  lemma TakenWasInserted(c: Config, ss: seq<State>, acts: seq<Action>, k: nat, i: nat)
    requires Run(c, ss, acts) && k < |acts| && acts[k].Call?
    requires var t := acts[k].t; t in ss[k].threads && ss[k].threads[t].CreateInsert?
                                 && i in ss[k].st.instances && ss[k].st.instances[i].port == ss[k].threads[t].port
    ensures exists f: nat, j: nat :: OvertakenBy(c, ss, acts, acts[k].t, k, f, j, i)
  {
    var t := acts[k].t;
    InsertFollowsChoice(c, ss, acts, k, t);
    var f: nat :| ChosenAt(ss, acts, t, ss[k].threads[t], f, k);
    if i in ss[f].st.instances {
      RunKeepsInv(c, ss, acts, f);
      RowIsKept(c, ss, acts, f, k, i);
      assert false;
    }
    NewRowWasInserted(c, ss, acts, f + 1, k, i);
    var j :| f + 1 <= j < k && InsertsRow(c, ss[j], acts[j], i, ss[k].st.instances[i]);
    InsertStep(c, ss, acts, j);
    assert OvertakenBy(c, ss, acts, t, k, f, j, i);
  }

  lemma StepOnPorts(c: Config, ss: seq<State>, acts: seq<Action>, k: nat)
    requires Run(c, ss, acts) && k < |acts| && PortsDistinct(ss[k].st)
    ensures PortsDistinct(ss[k + 1].st) <==> !Overtaken(c, ss, acts, k)
  {
    RunKeepsInv(c, ss, acts, k);
    assert StepAt(c, ss, acts, k);
    var t, e := StepActs(c, ss[k], acts[k], ss[k + 1]);
    EffectOnPorts(c, ss[k].st, t, e);
    TakenMeansOvertaken(c, ss, acts, k);
  }

  /** Live instances have had pairwise distinct ports throughout, up to state `k`, if and only if no
      create inserted its row after being overtaken. */
  lemma PortsDistinctIff(c: Config, ss: seq<State>, acts: seq<Action>, k: nat)
    requires Run(c, ss, acts) && k < |ss| && PortsDistinct(ss[0].st)
    ensures (forall m :: 0 <= m <= k ==> PortsDistinct(ss[m].st)) <==>
            (forall j :: 0 <= j < k ==> !Overtaken(c, ss, acts, j))
  {
    var holds := (m: nat) => m < |ss| && PortsDistinct(ss[m].st);
    var bad := (j: nat) => j < |acts| && Overtaken(c, ss, acts, j);
    forall j | 0 <= j < k && holds(j) ensures holds(j + 1) <==> !bad(j) {
      StepOnPorts(c, ss, acts, j);
    }
    LostByBadSteps(holds, bad, k);
    assert forall m :: 0 <= m <= k ==> (holds(m) <==> PortsDistinct(ss[m].st));
    assert forall j :: 0 <= j < k ==> (bad(j) <==> Overtaken(c, ss, acts, j));
  }

  /** No two creates between choosing a port and inserting the row have chosen the same port:
      in particular when no two creates are in that window at once. */
  ghost predicate Uncontended(s: State) {
    forall t, u ::
      && t in s.threads && s.threads[t].CreateInsert?
      && u in s.threads && s.threads[u].CreateInsert?
      && s.threads[t].port == s.threads[u].port
      ==> t == u
  }

  lemma InsertersContend(c: Config, ss: seq<State>, acts: seq<Action>, t: nat, k: nat, f: nat, j: nat, i: nat)
    requires Run(c, ss, acts) && k < |acts| && OvertakenBy(c, ss, acts, t, k, f, j, i)
    ensures !Uncontended(ss[j])
  {
    InsertStep(c, ss, acts, j);
    var u := acts[j].t;
    assert t in ss[j].threads && ss[j].threads[t] == ss[k].threads[t];
    assert u in ss[j].threads && ss[j].threads[u].port == ss[k].st.instances[i].port;
  }

  /** A simpler condition that is enough. */
  lemma UncontendedNotOvertaken(c: Config, ss: seq<State>, acts: seq<Action>, k: nat)
    requires Run(c, ss, acts) && k < |acts|
    requires forall j :: 0 <= j < k ==> Uncontended(ss[j])
    ensures !Overtaken(c, ss, acts, k)
  {
    if Overtaken(c, ss, acts, k) {
      var t := acts[k].t;
      var f: nat, j: nat, i: nat :| OvertakenBy(c, ss, acts, t, k, f, j, i);
      InsertersContend(c, ss, acts, t, k, f, j, i);
    }
  }

  lemma {:induction false} DistinctPortsCount(ids: set<nat>, instances: map<nat, Instance>, lo: nat, hi: nat)
    requires ids <= instances.Keys && lo <= hi
    requires forall i :: i in ids ==> lo <= instances[i].port < hi
    requires forall i, j :: i in ids && j in ids && instances[i].port == instances[j].port ==> i == j
    ensures |ids| <= hi - lo
    decreases hi - lo
  {
    if ids == {} {
    } else {
      var some :| some in ids;
      assert lo <= instances[some].port < hi;
      if i :| i in ids && instances[i].port == hi - 1 {
        DistinctPortsCount(ids - {i}, instances, lo, hi - 1);
      } else {
        DistinctPortsCount(ids, instances, lo, hi - 1);
      }
    }
  }

  /** When no create inserts its row after being overtaken, live instances have pairwise distinct
      ports in [minPort, maxPort), so there are never more than maxPort - minPort of them. */
  lemma LivePortsDistinct(c: Config, ss: seq<State>, acts: seq<Action>, k: nat)
    requires c.minPort < c.maxPort < 65536
    requires Run(c, ss, acts) && k < |ss|
    requires forall j :: 0 <= j < k ==> !Overtaken(c, ss, acts, j)
    requires PortsDistinct(ss[0].st)
    ensures forall i :: i in ss[k].st.instances ==> c.minPort <= ss[k].st.instances[i].port < c.maxPort
    ensures PortsDistinct(ss[k].st)
    ensures |ss[k].st.instances| <= c.maxPort - c.minPort
  {
    PortsDistinctIff(c, ss, acts, k);
    RunKeepsInv(c, ss, acts, k);
    var instances := ss[k].st.instances;
    forall i | i in instances ensures c.minPort <= instances[i].port < c.maxPort {
      ReachableIsInterval(c, instances[i].port);
    }
    assert |instances.Keys| == |instances|;
    DistinctPortsCount(instances.Keys, instances, c.minPort, c.maxPort);
  }
}
