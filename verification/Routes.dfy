/** What each request has done when it answers: for every route, the effects its calls have had so
    far, in order, at each place it can stand and with each reply it can give. */
module Routes {
  import opened Tables
  import opened Handlers
  import opened Server

  /** The history `h` after one more call. */
  function Longer(h: seq<Effect>, e: Effect): seq<Effect> {
    if e.Nothing? then h else h + [e]
  }

  // ---------- Route by route ----------

  // POST /images: 201 means a row and nothing else.
  predicate ToldUpload(pc: Pc, h: seq<Effect>) {
    match pc
    case ImageInsert => h == []
    case ImageSubvolume(i) => h == [InsertImage(i)]
    case Finished(r) =>
      || (h == [] && r == Status(500))
      || (|h| == 1 && h[0].InsertImage? && (r == Status(201) || r == Status(500)))
    case _ => false
  }

  // POST /images/{i}/done: 200 means finalised and marked, in this order, or nothing to do.
  predicate ToldDone(i: nat, pc: Pc, h: seq<Effect>) {
    match pc
    case DoneLookup(j) => j == i && h == []
    case DoneFinalise(j) => j == i && h == []
    case DoneMark(j) => j == i && h == [TakeSnapshot(i)]
    case Finished(r) =>
      || (h == [] && (r == Status(200) || r == Status(404) || r == Status(500)))
      || (h == [TakeSnapshot(i)] && r == Status(500))
      || (h == [TakeSnapshot(i), SetReady(i)] && r == Status(200))
    case _ => false
  }

  /** Pairs of a row deletion and the deletion of that instance's disk. */
  predicate Purged(h: seq<Effect>)
    decreases |h|
  {
    h == [] || (h[|h| - 1].DropVolume? && PurgedRow(h[..|h| - 1], h[|h| - 1].id))
  }

  /** And then the deletion of row `x`. */
  predicate PurgedRow(h: seq<Effect>, x: nat)
    decreases |h|
  {
    h != [] && h[|h| - 1] == DeleteInstance(x, ByImageDestroy) && Purged(h[..|h| - 1])
  }

  /** The instances purged before the image is touched: none, unless the upload user asks. */
  predicate Cleared(upload: bool, h: seq<Effect>) {
    if upload then Purged(h) else h == []
  }

  /** And then the image row deleted. */
  predicate RowGone(i: nat, upload: bool, h: seq<Effect>) {
    h != [] && h[|h| - 1] == DeleteImage(i) && Cleared(upload, h[..|h| - 1])
  }

  /** And then its snapshot. */
  predicate AllGone(i: nat, upload: bool, h: seq<Effect>) {
    h != [] && h[|h| - 1] == DropSnapshot(i) && RowGone(i, upload, h[..|h| - 1])
  }

  // DELETE /images/{i}: only the upload user's request touches instances; 204 means that the image
  // row went, and then its snapshot, after the instances.
  predicate ToldPurge(i: nat, upload: bool, pc: Pc, h: seq<Effect>) {
    match pc
    case PurgeLookup(j, u) => j == i && u == upload && h == []
    case PurgeList(j) => upload && j == i && h == []
    case PurgeRow(j, _) => upload && j == i && Purged(h)
    case PurgeVolume(j, x, _) => upload && j == i && PurgedRow(h, x)
    case ImageDelete(j) => j == i && Cleared(upload, h)
    case ImageWipe(j) => j == i && RowGone(i, upload, h)
    case ImageDestroyed(j) => j == i && AllGone(i, upload, h)
    case Finished(r) =>
      || (h == [] && r == Status(404))
      || (Cleared(upload, h) && (r == Status(422) || r == NoStatus || r == Status(500)))
      || (upload && h != [] && h[|h| - 1].DeleteInstance? && PurgedRow(h, h[|h| - 1].id) && r == Status(500))
      || (RowGone(i, upload, h) && r == Status(500))
      || (AllGone(i, upload, h) && r == Status(500))
    case _ => false
  }

  /** The effect inserts a row for `who` on image `i`. */
  predicate InsertsFor(e: Effect, i: nat, who: Who) {
    && e.InsertInstance? && e.ip == who.ip
    && e.row.image == i && e.row.email == who.email && e.row.token == who.token
  }

  /** Row `id` for `who` on image `i`, and then its disk. */
  predicate Built(h: seq<Effect>, id: nat, i: nat, who: Who) {
    |h| == 2 && InsertsFor(h[0], i, who) && h[0].id == id && h[1] == FinishBuild(id, true)
  }

  /** And then the caller's address. */
  predicate BuiltAndListed(h: seq<Effect>, i: nat, who: Who) {
    |h| == 3 && h[0].InsertInstance? && Built(h[..2], h[0].id, i, who) && h[2] == UpsertAddress(who.ip, h[0].id)
  }

  // POST /instances: 201 means the row, the disk, the caller's address and the trigger, in this order.
  predicate ToldCreate(i: nat, who: Who, pc: Pc, h: seq<Effect>) {
    match pc
    case CreateLookup(j, w) => j == i && w == who && h == []
    case CreatePort(j, w, attempts) => j == i && w == who && h == [] && attempts < 100
    case CreateInsert(j, w, _) => j == i && w == who && h == []
    case CreateVolume(id, j, w) => j == i && w == who && |h| == 1 && InsertsFor(h[0], i, who) && h[0].id == id
    case CreateCredentials(id, w) => w == who && Built(h, id, i, who)
    case AddressInsert(id, w, code) => w == who && code == 201 && Built(h, id, i, who)
    case Trigger(code) => code == 201 && BuiltAndListed(h, i, who)
    case Finished(r) =>
      || (h == [] && (r == Status(404) || r == Status(422) || r == Status(500) || r == NoStatus || r == Panicked))
      || (|h| == 2 && InsertsFor(h[0], i, who) && h[1].FinishBuild? && h[1].id == h[0].id && r == Status(500))
      || (|h| == 4 && BuiltAndListed(h[..3], i, who) && h[3] == Enqueue && r == Status(201))
    case _ => false
  }

  // GET /instances/{id}: 200 means the caller's address and the trigger, in this order.
  predicate ToldGet(id: nat, who: Who, pc: Pc, h: seq<Effect>) {
    var visit := RecordVisit(Visit(id, who.email, who.ip));
    match pc
    case GetLookup(j, w) => j == id && w == who && h == []
    case GetCredentials(j, w) => j == id && w == who && h == [visit]
    case AddressInsert(j, w, code) => j == id && w == who && code == 200 && h == [visit]
    case Trigger(code) => code == 200 && h == [visit, UpsertAddress(who.ip, id)]
    case Finished(r) =>
      || (h == [] && r == Status(404))
      || (h == [visit] && r == Status(500))
      || (h == [visit, UpsertAddress(who.ip, id), Enqueue] && r == Status(200))
    case _ => false
  }

  // DELETE /instances/{id}: 204 means the disk, the row and the trigger, in this order.
  predicate ToldDelete(id: nat, email: string, pc: Pc, h: seq<Effect>) {
    match pc
    case DestroyLookup(j, e) => j == id && e == email && h == []
    case DestroyVolume(j, e) => j == id && e == email && h == []
    case DestroyRow(j, e) => j == id && e == email && h == [DropVolume(id)]
    case Trigger(code) => code == 204 && h == [DropVolume(id), DeleteInstance(id, ByOwner)]
    case Finished(r) =>
      || (h == [] && (r == Status(404) || r == Status(500)))
      || (h == [DropVolume(id)] && r == Status(500))
      || (h == [DropVolume(id), DeleteInstance(id, ByOwner), Enqueue] && r == Status(204))
    case _ => false
  }

  /** Disk deletions, some followed by the deletion of that instance's row. */
  predicate Swept(h: seq<Effect>)
    decreases |h|
  {
    || h == []
    || (h[|h| - 1].DropVolume? && Swept(h[..|h| - 1]))
    || (h[|h| - 1].DeleteInstance? && h[|h| - 1].agent.ByCleaner? && SweptDisk(h[..|h| - 1], h[|h| - 1].id))
  }

  /** Ending with the deletion of disk `x`. */
  predicate SweptDisk(h: seq<Effect>, x: nat)
    decreases |h|
  {
    h != [] && h[|h| - 1] == DropVolume(x) && Swept(h[..|h| - 1])
  }

  // One sweep.
  predicate ToldSweep(pc: Pc, h: seq<Effect>) {
    match pc
    case SweepList => h == []
    case SweepNext(_) => Swept(h)
    case SweepVolume(_, _) => Swept(h)
    case SweepRow(id, _) => SweptDisk(h, id)
    case Finished(r) => r == NoStatus && Swept(h)
    case _ => false
  }

  /** A request that arrived as `entry` and stands at `pc` has had the effects `h`. */
  predicate Told(entry: Pc, pc: Pc, h: seq<Effect>) {
    match entry
    case ImageInsert => ToldUpload(pc, h)
    case DoneLookup(i) => ToldDone(i, pc, h)
    case PurgeLookup(i, upload) => ToldPurge(i, upload, pc, h)
    case CreateLookup(i, who) => ToldCreate(i, who, pc, h)
    case GetLookup(id, who) => ToldGet(id, who, pc, h)
    case DestroyLookup(id, email) => ToldDelete(id, email, pc, h)
    case SweepList => ToldSweep(pc, h)
    case _ => false
  }

  // ---------- One call ----------

  lemma UploadTold(st: Store, pc: Pc, o: Outcome, h: seq<Effect>, m: Move)
    requires ToldUpload(pc, h) && m == AdvanceImage(st, pc, o) && m.Move?
    ensures ToldUpload(m.pc, Longer(h, m.effect))
  {
  }

  lemma DoneTold(st: Store, i: nat, pc: Pc, o: Outcome, h: seq<Effect>, m: Move)
    requires ToldDone(i, pc, h) && m == AdvanceImage(st, pc, o) && m.Move?
    ensures ToldDone(i, m.pc, Longer(h, m.effect))
  {
  }

  lemma LastOf(h: seq<Effect>, e: Effect)
    ensures (h + [e])[..|h|] == h && (h + [e])[|h|] == e
  {
  }

  lemma PurgeTold(st: Store, i: nat, upload: bool, pc: Pc, o: Outcome, h: seq<Effect>, m: Move)
    requires ToldPurge(i, upload, pc, h) && m == AdvancePurge(st, pc, o) && m.Move?
    ensures ToldPurge(i, upload, m.pc, Longer(h, m.effect))
  {
    match pc
    case PurgeLookup(_, _) =>
    case PurgeList(_) =>
    case PurgeRow(_, _) => PurgeRowTold(st, i, pc, o, h, m);
    case PurgeVolume(_, _, _) => PurgeVolumeTold(st, i, pc, o, h, m);
    case ImageDelete(_) => ImageDeleteTold(st, i, upload, pc, o, h, m);
    case ImageWipe(_) => ImageWipeTold(st, i, upload, pc, o, h, m);
  }

  lemma PurgeRowTold(st: Store, i: nat, pc: Pc, o: Outcome, h: seq<Effect>, m: Move)
    requires pc.PurgeRow? && pc.image == i && Purged(h) && m == AdvancePurge(st, pc, o) && m.Move?
    ensures ToldPurge(i, true, m.pc, Longer(h, m.effect))
  {
    LastOf(h, m.effect);
  }

  lemma PurgeVolumeTold(st: Store, i: nat, pc: Pc, o: Outcome, h: seq<Effect>, m: Move)
    requires pc.PurgeVolume? && pc.image == i && PurgedRow(h, pc.victim) && m == AdvancePurge(st, pc, o) && m.Move?
    ensures ToldPurge(i, true, m.pc, Longer(h, m.effect))
  {
    LastOf(h, m.effect);
  }

  lemma ImageDeleteTold(st: Store, i: nat, upload: bool, pc: Pc, o: Outcome, h: seq<Effect>, m: Move)
    requires pc == ImageDelete(i) && Cleared(upload, h) && m == AdvancePurge(st, pc, o) && m.Move?
    ensures ToldPurge(i, upload, m.pc, Longer(h, m.effect))
  {
    LastOf(h, m.effect);
  }

  lemma ImageWipeTold(st: Store, i: nat, upload: bool, pc: Pc, o: Outcome, h: seq<Effect>, m: Move)
    requires pc == ImageWipe(i) && RowGone(i, upload, h) && m == AdvancePurge(st, pc, o) && m.Move?
    ensures ToldPurge(i, upload, m.pc, Longer(h, m.effect))
  {
    LastOf(h, m.effect);
  }

  lemma CreateTold(c: Config, st: Store, i: nat, who: Who, pc: Pc, o: Outcome, h: seq<Effect>, m: Move)
    requires ToldCreate(i, who, pc, h) && m == AdvanceCreate(c, st, pc, o) && m.Move?
    ensures ToldCreate(i, who, m.pc, Longer(h, m.effect))
  {
  }

  lemma CreateTailTold(st: Store, i: nat, who: Who, pc: Pc, o: Outcome, h: seq<Effect>, m: Move)
    requires ToldCreate(i, who, pc, h) && m == AdvanceInstance(st, pc, o) && m.Move?
    ensures ToldCreate(i, who, m.pc, Longer(h, m.effect))
  {
    LastOf(h, m.effect);
  }

  lemma GetTold(st: Store, id: nat, who: Who, pc: Pc, o: Outcome, h: seq<Effect>, m: Move)
    requires ToldGet(id, who, pc, h) && m == AdvanceInstance(st, pc, o) && m.Move?
    ensures ToldGet(id, who, m.pc, Longer(h, m.effect))
  {
  }

  lemma DeleteTold(st: Store, id: nat, email: string, pc: Pc, o: Outcome, h: seq<Effect>, m: Move)
    requires ToldDelete(id, email, pc, h) && m == AdvanceInstance(st, pc, o) && m.Move?
    ensures ToldDelete(id, email, m.pc, Longer(h, m.effect))
  {
  }

  lemma SweepTold(st: Store, pc: Pc, o: Outcome, h: seq<Effect>, m: Move)
    requires ToldSweep(pc, h) && m == AdvanceSweep(st, pc, o) && m.Move?
    ensures ToldSweep(m.pc, Longer(h, m.effect))
  {
    LastOf(h, m.effect);
  }

  lemma CallTold(c: Config, st: Store, entry: Pc, pc: Pc, o: Outcome, h: seq<Effect>)
    requires Told(entry, pc, h) && Advance(c, st, pc, o).Move?
    ensures var m := Advance(c, st, pc, o); Told(entry, m.pc, Longer(h, m.effect))
  {
    var m := Advance(c, st, pc, o);
    match entry
    case ImageInsert => UploadTold(st, pc, o, h, m);
    case DoneLookup(i) => DoneTold(st, i, pc, o, h, m);
    case PurgeLookup(i, upload) => PurgeTold(st, i, upload, pc, o, h, m);
    case CreateLookup(i, who) =>
      if IsCreate(pc) {
        CreateTold(c, st, i, who, pc, o, h, m);
      } else {
        CreateTailTold(st, i, who, pc, o, h, m);
      }
    case GetLookup(id, who) => GetTold(st, id, who, pc, o, h, m);
    case DestroyLookup(id, email) => DeleteTold(st, id, email, pc, o, h, m);
    case SweepList => SweepTold(st, pc, o, h, m);
  }

  // ---------- Failing calls ----------

  predicate Success(pc: Pc) {
    || pc.ImageDestroyed?
    || (pc.Finished? && (pc.reply == Status(200) || pc.reply == Status(201) || pc.reply == Status(204)))
  }

  /** After a failing call a request ends with an error, and a sweep goes on to the next instance. */
  predicate GivesUp(pc: Pc, m: Move) {
    match pc
    case SweepNext(todo) =>
      (todo == [] && m == Move(Finished(NoStatus), Nothing)) || (todo != [] && m == Move(SweepNext(todo[1..]), Nothing))
    case SweepVolume(_, todo) => m.Move? && m.pc == SweepNext(todo)
    case SweepRow(_, todo) => m.Move? && m.pc == SweepNext(todo)
    case _ => m.Move? && m.pc.Finished? && !Success(m.pc)
  }

  /** A call that failed outright has changed nothing, and one that failed after changing the disk has
      only done that. */
  predicate ChangesLittle(o: Outcome, e: Effect) {
    if o.Failed? then e.Nothing? || (e.FinishBuild? && !e.made)
    else e.TakeSnapshot? || e.DropVolume? || e.DropSnapshot? || (e.FinishBuild? && e.made) || e.Nothing?
  }

  lemma FailedImageCall(st: Store, pc: Pc, o: Outcome)
    requires (o.Failed? || o.HalfDone?) && AdvanceImage(st, pc, o).Move?
    ensures GivesUp(pc, AdvanceImage(st, pc, o)) && ChangesLittle(o, AdvanceImage(st, pc, o).effect)
  {
  }

  lemma FailedPurgeCall(st: Store, pc: Pc, o: Outcome)
    requires (o.Failed? || o.HalfDone?) && AdvancePurge(st, pc, o).Move?
    ensures GivesUp(pc, AdvancePurge(st, pc, o)) && ChangesLittle(o, AdvancePurge(st, pc, o).effect)
  {
  }

  lemma FailedCreateCall(c: Config, st: Store, pc: Pc, o: Outcome)
    requires (o.Failed? || o.HalfDone?) && AdvanceCreate(c, st, pc, o).Move?
    ensures GivesUp(pc, AdvanceCreate(c, st, pc, o)) && ChangesLittle(o, AdvanceCreate(c, st, pc, o).effect)
  {
  }

  lemma FailedSweepCall(st: Store, pc: Pc, o: Outcome)
    requires (o.Failed? || o.HalfDone?) && AdvanceSweep(st, pc, o).Move?
    ensures GivesUp(pc, AdvanceSweep(st, pc, o)) && ChangesLittle(o, AdvanceSweep(st, pc, o).effect)
  {
  }

  lemma FailedInstanceCall(st: Store, pc: Pc, o: Outcome)
    requires (o.Failed? || o.HalfDone?) && AdvanceInstance(st, pc, o).Move?
    ensures GivesUp(pc, AdvanceInstance(st, pc, o)) && ChangesLittle(o, AdvanceInstance(st, pc, o).effect)
  {
  }

  /** No failing call is taken for a success, by any handler. */
  lemma FailureEnds(c: Config, st: Store, pc: Pc, o: Outcome)
    requires (o.Failed? || o.HalfDone?) && Advance(c, st, pc, o).Move?
    ensures var m := Advance(c, st, pc, o); GivesUp(pc, m) && ChangesLittle(o, m.effect)
  {
    if IsImage(pc) {
      FailedImageCall(st, pc, o);
    } else if IsPurge(pc) {
      FailedPurgeCall(st, pc, o);
    } else if IsCreate(pc) {
      FailedCreateCall(c, st, pc, o);
    } else if IsSweep(pc) {
      FailedSweepCall(st, pc, o);
    } else {
      FailedInstanceCall(st, pc, o);
    }
  }

  /** Which calls can fail: all but the List that an image destroy ignores, the trigger, and the end of
      the purge loop, which is no call. */
  predicate MayFail(pc: Pc) {
    match pc
    case Finished(_) => false
    case ImageDestroyed(_) => false
    case PurgeList(_) => false
    case PurgeRow(_, todo) => todo != []
    case Trigger(_) => false
    case _ => true
  }

  /** Those that can fail after they have changed the disk. */
  predicate MayFailLate(st: Store, pc: Pc) {
    || pc.DoneFinalise? || pc.PurgeVolume? || pc.ImageWipe? || pc.DestroyVolume? || pc.SweepVolume?
    || (pc.CreateVolume? && pc.image in st.snapshots) || (pc.SweepNext? && pc.todo == [])
  }

  lemma EveryCallMayFail(c: Config, st: Store, pc: Pc)
    ensures Advance(c, st, pc, Failed).Move? <==> MayFail(pc)
    ensures Advance(c, st, pc, HalfDone).Move? <==> MayFailLate(st, pc)
  {
  }

  /** The server promises nothing about its surroundings: any request may arrive on an unused thread, the
      process may restart, and whatever the consumer does may fail. */
  lemma AnythingMayHappen(c: Config, s: State, t: nat, image: nat, id: nat, upload: bool, email: string, who: Who)
    requires t !in s.threads
    ensures forall pc :: pc in {ImageInsert, DoneLookup(image), PurgeLookup(image, upload), CreateLookup(image, who),
                                GetLookup(id, who), DestroyLookup(id, email), SweepList} ==>
              Next(c, s, Arrive(t, pc), s.(threads := s.threads[t := pc]))
    ensures Next(c, s, Restart,
                 s.(st := s.st.(queue := 0, building := map[]), threads := map[], consumer := Idle(false)))
    ensures !s.consumer.Idle? ==> Next(c, s, GiveUp, s.(consumer := Idle(false)))
  {
  }

  lemma {:induction false} WithTokenElements(instances: map<nat, Instance>, ids: seq<nat>, x: nat)
    ensures x in WithToken(instances, ids) <==> x in ids && x in instances && instances[x].token != ""
  {
    if ids == [] {
    } else {
      WithTokenElements(instances, ids[1..], x);
      assert ids == [ids[0]] + ids[1..];
    }
  }

  /** A sweep begins with all the instances that have a refresh token, and no other. */
  lemma SweepListsAll(c: Config, st: Store, o: Outcome, x: nat)
    requires var m := Advance(c, st, SweepList, o); m.Move? && m.pc.SweepNext?
    ensures x in Advance(c, st, SweepList, o).pc.todo <==> x in st.instances && st.instances[x].token != ""
  {
    WithTokenElements(st.instances, o.ids, x);
  }

  // ---------- Over whole runs ----------

  /** Step `a` is the arrival of the request that thread `t` is still serving, or has answered, at state `k`. */
  ghost predicate Serving(ss: seq<State>, acts: seq<Action>, t: nat, a: nat, k: nat)
    requires |ss| == |acts| + 1 && k < |ss|
  {
    && a < k && acts[a].Arrive? && acts[a].t == t
    && forall m :: a < m <= k ==> t in ss[m].threads
  }

  lemma StepKeepsThread(c: Config, s: State, a: Action, s': State, t: nat)
    requires Next(c, s, a, s') && t in s'.threads
    ensures t !in s.threads ==> a == Arrive(t, s'.threads[t]) && IsEntry(s'.threads[t])
    ensures t in s.threads && !(a.Call? && a.t == t) ==> s'.threads[t] == s.threads[t]
    ensures t in s.threads ==> !(a.Arrive? && a.t == t)
  {
  }

  lemma {:induction false} ServedSinceArrival(c: Config, ss: seq<State>, acts: seq<Action>, t: nat, k: nat)
    requires Run(c, ss, acts) && k < |ss| && t in ss[k].threads
    ensures exists a: nat :: Serving(ss, acts, t, a, k)
  {
    assert StepAt(c, ss, acts, k - 1);
    StepKeepsThread(c, ss[k - 1], acts[k - 1], ss[k], t);
    if t !in ss[k - 1].threads {
      assert Serving(ss, acts, t, k - 1, k);
    } else {
      ServedSinceArrival(c, ss, acts, t, k - 1);
      var a: nat :| Serving(ss, acts, t, a, k - 1);
      assert Serving(ss, acts, t, a, k);
    }
  }

  /** The effects of the calls of thread `t` after step `a` and before state `k`, in order. */
  ghost function Trail(c: Config, ss: seq<State>, acts: seq<Action>, t: nat, a: nat, k: nat): seq<Effect>
    requires |ss| == |acts| + 1 && k < |ss|
  {
    if k <= a + 1 then []
    else if acts[k - 1].Call? && acts[k - 1].t == t
    then Longer(Trail(c, ss, acts, t, a, k - 1), EffectOf(c, ss[k - 1], acts[k - 1]))
    else Trail(c, ss, acts, t, a, k - 1)
  }

  lemma StepTold(c: Config, s: State, a: Action, s': State, t: nat, entry: Pc, h: seq<Effect>)
    requires Next(c, s, a, s') && a.Call? && a.t == t && t in s.threads && Told(entry, s.threads[t], h)
    ensures t in s'.threads && Told(entry, s'.threads[t], Longer(h, EffectOf(c, s, a)))
  {
    CallTold(c, s.st, entry, s.threads[t], a.o, h);
  }

  /** In every run, what a request has done so far is what its route says for the place where it
      stands, or for the reply it has given. */
  lemma {:induction false} RequestTold(c: Config, ss: seq<State>, acts: seq<Action>, t: nat, a: nat, k: nat)
    requires Run(c, ss, acts) && k < |ss| && Serving(ss, acts, t, a, k)
    ensures Told(acts[a].pc, ss[k].threads[t], Trail(c, ss, acts, t, a, k))
  {
    if k == a + 1 {
      assert StepAt(c, ss, acts, a);
      EntryTold(acts[a].pc);
    } else {
      RequestTold(c, ss, acts, t, a, k - 1);
      TrailTold(c, ss, acts, t, a, k, acts[a].pc);
    }
  }

  lemma EntryTold(pc: Pc)
    requires IsEntry(pc)
    ensures Told(pc, pc, [])
  {
  }

  lemma TrailTold(c: Config, ss: seq<State>, acts: seq<Action>, t: nat, a: nat, k: nat, entry: Pc)
    requires Run(c, ss, acts) && a + 1 < k < |ss| && t in ss[k - 1].threads && t in ss[k].threads
    requires Told(entry, ss[k - 1].threads[t], Trail(c, ss, acts, t, a, k - 1))
    ensures Told(entry, ss[k].threads[t], Trail(c, ss, acts, t, a, k))
  {
    assert StepAt(c, ss, acts, k - 1);
    if acts[k - 1].Call? && acts[k - 1].t == t {
      StepTold(c, ss[k - 1], acts[k - 1], ss[k], t, entry, Trail(c, ss, acts, t, a, k - 1));
    } else {
      StepKeepsThread(c, ss[k - 1], acts[k - 1], ss[k], t);
    }
  }

  /** Every effect of the request's calls is in its trail. */
  lemma {:induction false} TrailHasEffects(c: Config, ss: seq<State>, acts: seq<Action>, t: nat, a: nat, k: nat, m: nat)
    requires |ss| == |acts| + 1 && a < m < k < |ss| && acts[m].Call? && acts[m].t == t
    ensures EffectOf(c, ss[m], acts[m]).Nothing? || EffectOf(c, ss[m], acts[m]) in Trail(c, ss, acts, t, a, k)
  {
    if m == k - 1 {
    } else {
      TrailHasEffects(c, ss, acts, t, a, k - 1, m);
    }
  }

  /** A create that answered 201 has inserted its caller's row, made the disk, recorded the caller's
      address for that row, and sent a trigger, in this order and nothing else. */
  lemma CreatedIsWhitelisted(c: Config, ss: seq<State>, acts: seq<Action>, t: nat, a: nat, k: nat, i: nat, who: Who)
    requires Run(c, ss, acts) && k < |ss| && Serving(ss, acts, t, a, k)
    requires acts[a].pc == CreateLookup(i, who) && ss[k].threads[t] == Finished(Status(201))
    ensures exists id: nat, port: nat ::
              Trail(c, ss, acts, t, a, k) ==
              [InsertInstance(id, Instance(i, port, who.email, who.token), who.ip), FinishBuild(id, true),
               UpsertAddress(who.ip, id), Enqueue]
  {
    RequestTold(c, ss, acts, t, a, k);
    var h := Trail(c, ss, acts, t, a, k);
    var id, port := h[0].id, h[0].row.port;
    assert h[..3][..2] == [h[0], h[1]] && h[..3][2] == h[2];
    assert h == [InsertInstance(id, Instance(i, port, who.email, who.token), who.ip), FinishBuild(id, true),
                 UpsertAddress(who.ip, id), Enqueue];
  }

  /** A get that answered 200 has recorded the owner's address and sent a trigger. */
  lemma ShownIsWhitelisted(c: Config, ss: seq<State>, acts: seq<Action>, t: nat, a: nat, k: nat, id: nat, who: Who)
    requires Run(c, ss, acts) && k < |ss| && Serving(ss, acts, t, a, k)
    requires acts[a].pc == GetLookup(id, who) && ss[k].threads[t] == Finished(Status(200))
    ensures Trail(c, ss, acts, t, a, k) ==
            [RecordVisit(Visit(id, who.email, who.ip)), UpsertAddress(who.ip, id), Enqueue]
  {
    RequestTold(c, ss, acts, t, a, k);
  }

  /** A DELETE on an instance that answered 204 has deleted the disk, then the row, and then sent a trigger. */
  lemma DeletedIsTriggered(c: Config, ss: seq<State>, acts: seq<Action>, t: nat, a: nat, k: nat, id: nat, email: string)
    requires Run(c, ss, acts) && k < |ss| && Serving(ss, acts, t, a, k)
    requires acts[a].pc == DestroyLookup(id, email) && ss[k].threads[t] == Finished(Status(204))
    ensures Trail(c, ss, acts, t, a, k) == [DropVolume(id), DeleteInstance(id, ByOwner), Enqueue]
  {
    RequestTold(c, ss, acts, t, a, k);
  }

  /** An image destroy by anybody but the upload user deletes no instance row and no instance disk. */
  lemma OthersSpareInstances(c: Config, ss: seq<State>, acts: seq<Action>, t: nat, a: nat, k: nat, i: nat, m: nat)
    requires Run(c, ss, acts) && k < |ss| && Serving(ss, acts, t, a, k) && acts[a].pc == PurgeLookup(i, false)
    requires a < m < k && acts[m].Call? && acts[m].t == t
    ensures EffectOf(c, ss[m], acts[m]) in {Nothing, DeleteImage(i), DropSnapshot(i)}
  {
    RequestTold(c, ss, acts, t, a, k);
    TrailHasEffects(c, ss, acts, t, a, k, m);
    OthersTrail(i, ss[k].threads[t], Trail(c, ss, acts, t, a, k), EffectOf(c, ss[m], acts[m]));
  }

  lemma OthersTrail(i: nat, pc: Pc, h: seq<Effect>, e: Effect)
    requires Told(PurgeLookup(i, false), pc, h)
    ensures e in h ==> e == DeleteImage(i) || e == DropSnapshot(i)
  {
    match pc
    case ImageWipe(_) => RowGoneOnly(i, h);
    case ImageDestroyed(_) => RowGoneOnly(i, h[..|h| - 1]);
    case Finished(_) =>
      if RowGone(i, false, h) {
        RowGoneOnly(i, h);
      } else if AllGone(i, false, h) {
        RowGoneOnly(i, h[..|h| - 1]);
      }
    case _ =>
  }

  lemma RowGoneOnly(i: nat, h: seq<Effect>)
    requires RowGone(i, false, h)
    ensures h == [DeleteImage(i)]
  {
  }

  /** A sweep that is about to delete a disk has found that instance's token revoked: it stood there
      with the instance next, its lookup was answered with invalid_grant, and it went on to the disk. */
  ghost predicate FoundRevoked(ss: seq<State>, acts: seq<Action>, t: nat, id: nat, todo: seq<nat>, f: nat, k: nat)
    requires |ss| == |acts| + 1 && k < |ss|
  {
    && f < k && acts[f] == Call(t, Rejected)
    && t in ss[f].threads && ss[f].threads[t] == SweepNext([id] + todo)
    && forall m :: f < m <= k ==> t in ss[m].threads && ss[m].threads[t] == SweepVolume(id, todo)
  }

  lemma SweepFinds(c: Config, s: State, a: Action, s': State, t: nat, id: nat, todo: seq<nat>)
    requires Next(c, s, a, s') && t in s'.threads && s'.threads[t] == SweepVolume(id, todo)
    requires !(t in s.threads && s.threads[t] == SweepVolume(id, todo))
    ensures a == Call(t, Rejected) && t in s.threads && s.threads[t] == SweepNext([id] + todo)
  {
    StepKeepsThread(c, s, a, s', t);
    if a.Call? {
      var m := CallShape(c, s, a, s');
    }
  }

  /** The cleaner deletes nothing whose token it has not just found revoked: a failed lookup spares the
      instance, as a valid token does. */
  lemma {:induction false} OnlyRevokedAreSwept(c: Config, ss: seq<State>, acts: seq<Action>, t: nat, k: nat)
    requires Run(c, ss, acts) && k < |ss| && t in ss[k].threads && ss[k].threads[t].SweepVolume?
    ensures exists f: nat :: FoundRevoked(ss, acts, t, ss[k].threads[t].id, ss[k].threads[t].todo, f, k)
  {
    var pc := ss[k].threads[t];
    assert StepAt(c, ss, acts, k - 1);
    if t in ss[k - 1].threads && ss[k - 1].threads[t] == pc {
      OnlyRevokedAreSwept(c, ss, acts, t, k - 1);
      var f: nat :| FoundRevoked(ss, acts, t, pc.id, pc.todo, f, k - 1);
      assert FoundRevoked(ss, acts, t, pc.id, pc.todo, f, k);
    } else {
      SweepFinds(c, ss[k - 1], acts[k - 1], ss[k], t, pc.id, pc.todo);
      assert FoundRevoked(ss, acts, t, pc.id, pc.todo, k - 1, k);
    }
  }

  /** Whoever deletes instance rows as part of an image destroy is the upload user. */
  lemma OnlyUploadPurges(c: Config, ss: seq<State>, acts: seq<Action>, k: nat)
    requires Run(c, ss, acts) && k < |acts|
    requires var e := EffectOf(c, ss[k], acts[k]); e.DeleteInstance? && e.agent.ByImageDestroy?
    ensures exists i: nat, a: nat :: AskedByUpload(ss, acts, acts[k].t, i, a, k)
  {
    var t := acts[k].t;
    assert StepAt(c, ss, acts, k);
    var m := CallShape(c, ss[k], acts[k], ss[k + 1]);
    ServedSinceArrival(c, ss, acts, t, k);
    var a: nat :| Serving(ss, acts, t, a, k);
    RequestTold(c, ss, acts, t, a, k);
    assert acts[a].pc.PurgeLookup?;
    assert AskedByUpload(ss, acts, t, acts[a].pc.image, a, k);
  }

  /** The request that thread `t` is serving is the upload user's DELETE on image `i`. */
  ghost predicate AskedByUpload(ss: seq<State>, acts: seq<Action>, t: nat, i: nat, a: nat, k: nat)
    requires |ss| == |acts| + 1 && k < |ss|
  {
    Serving(ss, acts, t, a, k) && acts[a].pc == PurgeLookup(i, true)
  }
}
