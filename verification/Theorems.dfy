/** What every run of the server keeps: no lost whitelist update, consistent images, instances
    and disk, one readiness transition per image, and the origin of every rule. */
module Theorems {
  import opened Tables
  import opened Handlers
  import opened Assertions
  import opened Rules
  import opened Server
  import opened Routes

  // ---------- The whitelist ----------

  /** No lost update: once quiet after a successful reconcile, the chain holds the rules the tables
      ask for and those whose rows were deleted without a trigger since the last List, and no other. */
  lemma NoLostUpdate(c: Config, ss: seq<State>, acts: seq<Action>, k: nat)
    requires Run(c, ss, acts) && k < |ss|
    requires Quiet(ss[k]) && ss[k].consumer == Idle(true)
    ensures Elements(ss[k].chain) == Wanted(ss[k].st) + ss[k].st.silent
  {
    RunKeepsInv(c, ss, acts, k);
  }

  /** The step deletes, with no trigger to follow, an instance row from which rule `r` was wanted. */
  ghost predicate DropsRule(c: Config, s: State, a: Action, r: RuleEntry) {
    var e := EffectOf(c, s, a);
    e.DeleteInstance? && !e.agent.ByOwner? && r in RulesOfInstance(s.st, e.id)
  }

  /** Step `l` is the last List before state `k`. */
  ghost predicate LastList(acts: seq<Action>, l: nat, k: nat) {
    l < k <= |acts| && acts[l].ListAddresses? && forall j :: l < j < k ==> !acts[j].ListAddresses?
  }

  ghost predicate DroppedSince(c: Config, ss: seq<State>, acts: seq<Action>, l: nat, k: nat, r: RuleEntry)
    requires |ss| == |acts| + 1 && k < |ss|
  {
    exists j :: l < j < k && DropsRule(c, ss[j], acts[j], r)
  }

  lemma StepDrops(c: Config, s: State, a: Action, s': State, r: RuleEntry)
    requires Inv(c, s) && Next(c, s, a, s') && !a.ListAddresses?
    ensures r in s'.st.silent <==> r in s.st.silent || DropsRule(c, s, a, r)
  {
    var t, e := StepActs(c, s, a, s');
    EffectDrops(s.st, t, e, r);
  }

  lemma EffectDrops(st: Store, t: nat, e: Effect, r: RuleEntry)
    ensures r in Apply(st, t, e).silent <==>
            r in st.silent || (e.DeleteInstance? && !e.agent.ByOwner? && r in RulesOfInstance(st, e.id))
  {
  }

  lemma {:induction false} SilentMeansDropped(c: Config, ss: seq<State>, acts: seq<Action>, l: nat, k: nat,
                                              r: RuleEntry)
    requires Run(c, ss, acts) && k < |ss| && LastList(acts, l, k)
    ensures r in ss[k].st.silent <==> DroppedSince(c, ss, acts, l, k, r)
  {
    assert StepAt(c, ss, acts, k - 1);
    if k == l + 1 {
      assert ss[k].st.silent == {};
    } else {
      SilentMeansDropped(c, ss, acts, l, k - 1, r);
      RunKeepsInv(c, ss, acts, k - 1);
      StepDrops(c, ss[k - 1], acts[k - 1], ss[k], r);
      assert DropsRule(c, ss[k - 1], acts[k - 1], r) ==> DroppedSince(c, ss, acts, l, k, r);
    }
  }

  /** A consumer past its List, or idle after a success, has listed before. */
  lemma {:induction false} ListedBefore(c: Config, ss: seq<State>, acts: seq<Action>, k: nat)
    requires Run(c, ss, acts) && k < |ss|
    requires !ss[k].consumer.Listing? && ss[k].consumer != Idle(false)
    ensures exists l: nat :: LastList(acts, l, k)
  {
    assert StepAt(c, ss, acts, k - 1);
    if acts[k - 1].ListAddresses? {
      assert LastList(acts, k - 1, k);
    } else {
      ConsumerWasBusy(c, ss[k - 1], acts[k - 1], ss[k]);
      ListedBefore(c, ss, acts, k - 1);
      var l: nat :| LastList(acts, l, k - 1);
      assert LastList(acts, l, k);
    }
  }

  lemma ConsumerWasBusy(c: Config, s: State, a: Action, s': State)
    requires Next(c, s, a, s') && !a.ListAddresses?
    requires !s'.consumer.Listing? && s'.consumer != Idle(false)
    ensures !s.consumer.Listing? && s.consumer != Idle(false)
  {
  }

  /** The quiet chain is exactly what the tables ask for if and only if every rule of every row
      deleted without a trigger since the last List is wanted again. */
  lemma QuietChainIsExact(c: Config, ss: seq<State>, acts: seq<Action>, k: nat)
    requires Run(c, ss, acts) && k < |ss|
    requires Quiet(ss[k]) && ss[k].consumer == Idle(true)
    ensures exists l: nat :: LastList(acts, l, k)
    ensures forall l: nat :: LastList(acts, l, k) ==>
              (Elements(ss[k].chain) == Wanted(ss[k].st) <==>
               forall r :: DroppedSince(c, ss, acts, l, k, r) ==> r in Wanted(ss[k].st))
  {
    NoLostUpdate(c, ss, acts, k);
    ListedBefore(c, ss, acts, k);
    forall l: nat, r | LastList(acts, l, k)
      ensures r in ss[k].st.silent <==> DroppedSince(c, ss, acts, l, k, r)
    {
      SilentMeansDropped(c, ss, acts, l, k, r);
    }
  }

  // ---------- Images, instances and disk ----------

  lemma TablesAndDiskConsistent(c: Config, ss: seq<State>, acts: seq<Action>, k: nat, i: nat)
    requires Run(c, ss, acts) && k < |ss|
    ensures var st := ss[k].st;
            && (i in st.instances ==> st.instances[i].image in st.images && st.images[st.instances[i].image]
                                      && st.instances[i].image in st.snapshots)
            && (i in st.images && st.images[i] ==> i in st.snapshots)
  {
    RunKeepsInv(c, ss, acts, k);
  }

  /** The step is an image destroy deleting instance row `i`. */
  ghost predicate PurgesRow(c: Config, s: State, a: Action, i: nat) {
    && a.Call? && a.t in s.threads && s.threads[a.t].PurgeRow? && i in s.st.instances
    && EffectOf(c, s, a) == DeleteInstance(i, ByImageDestroy)
  }

  lemma StepPurges(c: Config, s: State, a: Action, s': State, i: nat)
    requires Inv(c, s) && Next(c, s, a, s') && i in s'.st.purged && i !in s.st.purged
    ensures PurgesRow(c, s, a, i)
  {
    var t, e := StepActs(c, s, a, s');
    if a.Call? {
      var m := CallShape(c, s, a, s');
    }
  }

  lemma {:induction false} PurgedWasPurged(c: Config, ss: seq<State>, acts: seq<Action>, k: nat, i: nat)
    requires Run(c, ss, acts) && k < |ss|
    requires i in ss[k].st.purged && i !in ss[0].st.purged
    ensures exists j :: 0 <= j < k && PurgesRow(c, ss[j], acts[j], i)
  {
    var s, a := ss[k - 1], acts[k - 1];
    if i in s.st.purged {
      PurgedWasPurged(c, ss, acts, k - 1, i);
    } else {
      assert StepAt(c, ss, acts, k - 1);
      RunKeepsInv(c, ss, acts, k - 1);
      StepPurges(c, s, a, ss[k], i);
    }
  }

  /** Step `j` deletes instance row `i`, in serving the upload user's DELETE on an image. */
  ghost predicate PurgedByUpload(c: Config, ss: seq<State>, acts: seq<Action>, j: nat, i: nat)
    requires |ss| == |acts| + 1 && j < |acts|
  {
    && PurgesRow(c, ss[j], acts[j], i)
    && exists image: nat, a: nat :: AskedByUpload(ss, acts, acts[j].t, image, a, j)
  }

  /** An on-disk instance without a row lost its row to an upload-user image destroy: in a run
      without those, every on-disk instance has a row, whatever fails and however calls race. */
  lemma OrphanVolumeWasPurged(c: Config, ss: seq<State>, acts: seq<Action>, k: nat, i: nat)
    requires Run(c, ss, acts) && k < |ss| && ss[0].st.purged == {}
    requires i in ss[k].st.volumes && i !in ss[k].st.instances
    ensures exists j: nat :: j < k && PurgedByUpload(c, ss, acts, j, i)
  {
    RunKeepsInv(c, ss, acts, k);
    PurgedWasPurged(c, ss, acts, k, i);
    var j :| 0 <= j < k && PurgesRow(c, ss[j], acts[j], i);
    OnlyUploadPurges(c, ss, acts, j);
    assert PurgedByUpload(c, ss, acts, j, i);
  }

  /** Instance `i` is not on disk without a row. */
  ghost predicate VolumeHasRow(st: Store, i: nat) {
    i in st.volumes ==> i in st.instances
  }

  /** The step is an image destroy that deletes the row of an instance that is on disk, or a
      create that makes the disk of an instance whose row is gone. */
  ghost predicate Orphans(c: Config, s: State, a: Action, i: nat) {
    var e := EffectOf(c, s, a);
    || (e == DeleteInstance(i, ByImageDestroy) && i in s.st.instances && i in s.st.volumes)
    || (e == FinishBuild(i, true) && i !in s.st.instances)
  }

  lemma EffectOrphans(c: Config, st: Store, t: nat, e: Effect, i: nat)
    requires StoreInv(c, st) && Justified(c, st, t, e) && VolumeHasRow(st, i)
    ensures VolumeHasRow(Apply(st, t, e), i) <==>
            !((e == DeleteInstance(i, ByImageDestroy) && i in st.instances && i in st.volumes)
              || (e == FinishBuild(i, true) && i !in st.instances))
  {
  }

  lemma StepOrphans(c: Config, ss: seq<State>, acts: seq<Action>, k: nat, i: nat)
    requires Run(c, ss, acts) && k < |acts| && VolumeHasRow(ss[k].st, i)
    ensures VolumeHasRow(ss[k + 1].st, i) <==> !Orphans(c, ss[k], acts[k], i)
  {
    RunKeepsInv(c, ss, acts, k);
    assert StepAt(c, ss, acts, k);
    var t, e := StepActs(c, ss[k], acts[k], ss[k + 1]);
    EffectOrphans(c, ss[k].st, t, e, i);
  }

  /** Up to state `k`, instance `i` has never been on disk without a row exactly if no image destroy
      deleted its row while it was on disk and no create made its disk after its row had gone. */
  lemma NoOrphanIff(c: Config, ss: seq<State>, acts: seq<Action>, k: nat, i: nat)
    requires Run(c, ss, acts) && k < |ss| && VolumeHasRow(ss[0].st, i)
    ensures (forall m :: 0 <= m <= k ==> VolumeHasRow(ss[m].st, i)) <==>
            (forall j :: 0 <= j < k ==> !Orphans(c, ss[j], acts[j], i))
  {
    var holds := (m: nat) => m < |ss| && VolumeHasRow(ss[m].st, i);
    var bad := (j: nat) => j < |acts| && Orphans(c, ss[j], acts[j], i);
    forall j | 0 <= j < k && holds(j) ensures holds(j + 1) <==> !bad(j) {
      StepOrphans(c, ss, acts, j, i);
    }
    LostByBadSteps(holds, bad, k);
    assert forall m :: 0 <= m <= k ==> (holds(m) <==> VolumeHasRow(ss[m].st, i));
    assert forall j :: 0 <= j < k ==> (bad(j) <==> Orphans(c, ss[j], acts[j], i));
  }

  /** Instance `i` is on disk without a row. */
  ghost predicate Orphaned(st: Store, i: nat) {
    i in st.volumes && i !in st.instances
  }

  lemma EffectOnOrphan(c: Config, st: Store, t: nat, e: Effect, i: nat)
    requires StoreInv(c, st) && Justified(c, st, t, e)
    ensures Orphaned(Apply(st, t, e), i) <==>
            || (e == DeleteInstance(i, ByImageDestroy) && i in st.instances && i in st.volumes)
            || (e == FinishBuild(i, true) && i !in st.instances)
            || (Orphaned(st, i) && e != DropVolume(i))
  {
  }

  /** Step `j` orphaned the disk of instance `i`, and no step has deleted that disk since. */
  ghost predicate OrphanedSince(c: Config, ss: seq<State>, acts: seq<Action>, j: nat, k: nat, i: nat)
    requires |ss| == |acts| + 1 && k < |ss|
  {
    && j < k && Orphans(c, ss[j], acts[j], i)
    && forall m :: j < m < k ==> EffectOf(c, ss[m], acts[m]) != DropVolume(i)
  }

  lemma OrphanStep(c: Config, ss: seq<State>, acts: seq<Action>, k: nat, i: nat)
    requires Run(c, ss, acts) && k < |acts|
    ensures Orphaned(ss[k + 1].st, i) <==>
            Orphans(c, ss[k], acts[k], i) || (Orphaned(ss[k].st, i) && EffectOf(c, ss[k], acts[k]) != DropVolume(i))
  {
    RunKeepsInv(c, ss, acts, k);
    assert StepAt(c, ss, acts, k);
    var t, e := StepActs(c, ss[k], acts[k], ss[k + 1]);
    EffectOnOrphan(c, ss[k].st, t, e, i);
  }

  /** At state `k`, instance `i` is on disk without a row if and only if some step orphaned its disk and
      no step since, such as the next one of an image destroy, has deleted it. */
  lemma {:induction false} OrphanedIff(c: Config, ss: seq<State>, acts: seq<Action>, k: nat, i: nat)
    requires Run(c, ss, acts) && k < |ss| && VolumeHasRow(ss[0].st, i)
    ensures Orphaned(ss[k].st, i) <==> exists j: nat :: OrphanedSince(c, ss, acts, j, k, i)
  {
    if k == 0 {
    } else {
      OrphanedIff(c, ss, acts, k - 1, i);
      OrphanStep(c, ss, acts, k - 1, i);
      if Orphans(c, ss[k - 1], acts[k - 1], i) {
        assert OrphanedSince(c, ss, acts, k - 1, k, i);
      } else if Orphaned(ss[k].st, i) {
        var j: nat :| OrphanedSince(c, ss, acts, j, k - 1, i);
        assert OrphanedSince(c, ss, acts, j, k, i);
      } else if j: nat :| OrphanedSince(c, ss, acts, j, k, i) {
        assert OrphanedSince(c, ss, acts, j, k - 1, i);
      }
    }
  }

  // ---------- Rows without a disk ----------

  /** Instance `i` has a row and no disk, no create that could still make the disk, and no thread that
      has deleted the disk and is about to delete the row. */
  ghost predicate Stranded(s: State, i: nat) {
    && i in s.st.instances && i !in s.st.volumes && i !in s.st.building
    && forall t :: t in s.threads ==> !AboutToDelete(s.threads[t], i)
  }

  predicate AboutToDelete(pc: Pc, i: nat) {
    (pc.DestroyRow? || pc.SweepRow?) && pc.id == i
  }

  lemma StrandedStep(c: Config, s: State, a: Action, s': State, i: nat)
    requires Inv(c, s) && Next(c, s, a, s') && Stranded(s, i)
    ensures if PurgesRow(c, s, a, i) then i !in s'.st.instances else Stranded(s', i)
  {
    var t, e := StepActs(c, s, a, s');
    if a.Call? {
      var m := CallShape(c, s, a, s');
      StrandedMove(c, s, a.t, a.o, m, s', i);
    } else {
      assert forall u :: u in s'.threads && u in s.threads ==> s'.threads[u] == s.threads[u];
    }
  }

  lemma StrandedMove(c: Config, s: State, t: nat, o: Outcome, m: Move, s': State, i: nat)
    requires t in s.threads && Moves(s, t, m, s') && Stranded(s, i)
    requires StoreInv(c, s.st) && Shaped(s.st, s.threads[t], o, m) && Justified(c, s.st, t, m.effect)
    ensures if m.effect == DeleteInstance(i, ByImageDestroy) then i !in s'.st.instances else Stranded(s', i)
  {
    assert forall u :: u in s'.threads && u != t ==> s'.threads[u] == s.threads[u];
  }

  /** A row that is stranded is beyond DELETE and the cleaner for good: both want to delete its disk
      first. It goes if and only if an image destroy deletes it. */
  lemma {:induction false} StrandedStays(c: Config, ss: seq<State>, acts: seq<Action>, j: nat, k: nat, i: nat)
    requires Run(c, ss, acts) && j <= k < |ss| && Stranded(ss[j], i)
    ensures i < ss[k].st.nextInstance && (i in ss[k].st.instances ==> Stranded(ss[k], i))
    ensures i in ss[k].st.instances <==> forall m :: j <= m < k ==> !PurgesRow(c, ss[m], acts[m], i)
  {
    if j == k {
      RunKeepsInv(c, ss, acts, j);
    } else {
      StrandedStays(c, ss, acts, j, k - 1, i);
      StrandedAt(c, ss, acts, k - 1, i);
    }
  }

  lemma StrandedAt(c: Config, ss: seq<State>, acts: seq<Action>, k: nat, i: nat)
    requires Run(c, ss, acts) && k < |acts| && i < ss[k].st.nextInstance
    ensures i < ss[k + 1].st.nextInstance
    ensures i !in ss[k].st.instances ==> i !in ss[k + 1].st.instances
    ensures Stranded(ss[k], i) ==>
              if PurgesRow(c, ss[k], acts[k], i) then i !in ss[k + 1].st.instances else Stranded(ss[k + 1], i)
  {
    RunKeepsInv(c, ss, acts, k);
    assert StepAt(c, ss, acts, k);
    if Stranded(ss[k], i) {
      StrandedStep(c, ss[k], acts[k], ss[k + 1], i);
    }
    var t, e := StepActs(c, ss[k], acts[k], ss[k + 1]);
  }

  // ---------- Who may delete an instance ----------

  /** A DELETE on an instance only ever reaches its disk or its row if it is the upload user's or the owner's. */
  lemma OnlyEntitledDestroy(c: Config, ss: seq<State>, acts: seq<Action>, k: nat, t: nat)
    requires Run(c, ss, acts) && k < |ss| && t in ss[k].threads
    requires ss[k].threads[t].DestroyVolume? || ss[k].threads[t].DestroyRow?
    ensures var st, pc := ss[k].st, ss[k].threads[t];
            pc.id in st.instances ==> pc.email == UPLOAD_USER || pc.email == st.instances[pc.id].email
  {
    RunKeepsInv(c, ss, acts, k);
    assert Holds(c, ss[k].st, t, ss[k].threads[t]);
  }

  /** An instance's disk is only ever made from a snapshot that is on disk at that moment, by the create
      that inserted its row. */
  lemma DisksComeFromSnapshots(c: Config, ss: seq<State>, acts: seq<Action>, k: nat, id: nat)
    requires Run(c, ss, acts) && k < |acts| && EffectOf(c, ss[k], acts[k]) == FinishBuild(id, true)
    ensures acts[k].Call? && acts[k].t in ss[k].threads
    ensures var pc := ss[k].threads[acts[k].t];
            pc.CreateVolume? && pc.id == id && pc.image in ss[k].st.snapshots
  {
    assert StepAt(c, ss, acts, k);
    var m := CallShape(c, ss[k], acts[k], ss[k + 1]);
  }

  // ---------- Image life cycle ----------

  lemma {:induction false} GoneStaysGone(c: Config, ss: seq<State>, acts: seq<Action>, j: nat, k: nat, i: nat)
    requires Run(c, ss, acts) && j <= k < |ss| && ImageGone(ss[j].st, i)
    ensures ImageGone(ss[k].st, i)
  {
    if j == k {
    } else {
      GoneStaysGone(c, ss, acts, j, k - 1, i);
      StepKeepsGone(c, ss, acts, k - 1, i);
    }
  }

  lemma EffectKeepsGone(c: Config, st: Store, t: nat, e: Effect, i: nat)
    requires StoreInv(c, st) && Justified(c, st, t, e)
    ensures ImageGone(st, i) ==> ImageGone(Apply(st, t, e), i)
    ensures ReadyOrGone(st, i) ==> ReadyOrGone(Apply(st, t, e), i)
  {
  }

  lemma StepKeepsGone(c: Config, ss: seq<State>, acts: seq<Action>, k: nat, i: nat)
    requires Run(c, ss, acts) && k < |acts|
    ensures ImageGone(ss[k].st, i) ==> ImageGone(ss[k + 1].st, i)
    ensures ReadyOrGone(ss[k].st, i) ==> ReadyOrGone(ss[k + 1].st, i)
  {
    var s, a := ss[k], acts[k];
    RunKeepsInv(c, ss, acts, k);
    assert StepAt(c, ss, acts, k);
    var t, e := StepActs(c, s, a, ss[k + 1]);
    EffectKeepsGone(c, s.st, t, e, i);
  }

  /** A 204 for destroying image `i` means no instance row of it is left, then or ever after. */
  lemma DestroyedImageHasNoInstances(c: Config, ss: seq<State>, acts: seq<Action>, j: nat, k: nat, t: nat, i: nat)
    requires Run(c, ss, acts) && j <= k < |ss|
    requires t in ss[j].threads && ss[j].threads[t] == ImageDestroyed(i)
    ensures i !in ss[k].st.images && !ImageInUse(ss[k].st.instances, i)
  {
    RunKeepsInv(c, ss, acts, j);
    assert Holds(c, ss[j].st, t, ss[j].threads[t]);
    GoneStaysGone(c, ss, acts, j, k, i);
    RunKeepsInv(c, ss, acts, k);
  }

  /** Readiness is final: from then on the row is ready or gone, and its id is never handed out again. */
  lemma {:induction false} ReadyIsFinal(c: Config, ss: seq<State>, acts: seq<Action>, j: nat, k: nat, i: nat)
    requires Run(c, ss, acts) && j <= k < |ss|
    requires i in ss[j].st.images && ss[j].st.images[i]
    ensures i < ss[k].st.nextImage && (i in ss[k].st.images ==> ss[k].st.images[i])
  {
    RunKeepsInv(c, ss, acts, j);
    if j == k {
    } else {
      ReadyIsFinal(c, ss, acts, j, k - 1, i);
      StepKeepsGone(c, ss, acts, k - 1, i);
    }
  }

  /** The step is a Done request whose MarkAsReady succeeds on image `i`. */
  ghost predicate Marks(c: Config, s: State, a: Action, i: nat) {
    a.Call? && a.t in s.threads && s.threads[a.t] == DoneMark(i) && EffectOf(c, s, a) == SetReady(i)
  }

  /** The step is a Done request of thread `t` whose FinaliseImage succeeds on image `i`. */
  ghost predicate Finalises(s: State, a: Action, t: nat, i: nat) {
    a == Call(t, Done) && t in s.threads && s.threads[t] == DoneFinalise(i)
  }

  lemma StepMarks(c: Config, ss: seq<State>, acts: seq<Action>, k: nat, i: nat)
    requires Run(c, ss, acts) && k < |acts| && Marks(c, ss[k], acts[k], i)
    ensures i in ss[k].st.images && !ss[k].st.images[i]
    ensures i in ss[k + 1].st.images && ss[k + 1].st.images[i]
  {
    RunKeepsInv(c, ss, acts, k);
    assert StepAt(c, ss, acts, k);
    var t, e := StepActs(c, ss[k], acts[k], ss[k + 1]);
  }

  /** However many Done requests overlap, MarkAsReady succeeds at most once per image. */
  lemma MarkedAtMostOnce(c: Config, ss: seq<State>, acts: seq<Action>, j: nat, k: nat, i: nat)
    requires Run(c, ss, acts) && j < |acts| && k < |acts|
    requires Marks(c, ss[j], acts[j], i) && Marks(c, ss[k], acts[k], i)
    ensures j == k
  {
    StepMarks(c, ss, acts, j, i);
    StepMarks(c, ss, acts, k, i);
    if j < k {
      ReadyIsFinal(c, ss, acts, j + 1, k, i);
    } else if k < j {
      ReadyIsFinal(c, ss, acts, k + 1, j, i);
    }
  }

  lemma StepFinalises(c: Config, s: State, a: Action, s': State, t: nat, i: nat)
    requires Next(c, s, a, s') && t in s'.threads && s'.threads[t] == DoneMark(i)
    requires !(t in s.threads && s.threads[t] == DoneMark(i))
    ensures Finalises(s, a, t, i)
  {
    if a.Call? {
      var m := CallShape(c, s, a, s');
    }
  }

  /** Thread `t` finalised image `i` at step `f` and has been about to mark it since. */
  ghost predicate FinalisedAt(c: Config, ss: seq<State>, acts: seq<Action>, t: nat, i: nat, f: nat, k: nat)
    requires Run(c, ss, acts) && k < |ss|
  {
    && f < k && Finalises(ss[f], acts[f], t, i)
    && (forall j :: f < j <= k ==> t in ss[j].threads && ss[j].threads[t] == DoneMark(i))
  }

  /** A request about to mark an image as ready has itself finalised that image. */
  lemma {:induction false} MarkFollowsFinalise(c: Config, ss: seq<State>, acts: seq<Action>, k: nat, t: nat, i: nat)
    requires Run(c, ss, acts) && k < |ss|
    requires t in ss[k].threads && ss[k].threads[t] == DoneMark(i)
    ensures exists f: nat :: FinalisedAt(c, ss, acts, t, i, f, k)
  {
    var s, a := ss[k - 1], acts[k - 1];
    if t in s.threads && s.threads[t] == DoneMark(i) {
      MarkFollowsFinalise(c, ss, acts, k - 1, t, i);
      var f: nat :| FinalisedAt(c, ss, acts, t, i, f, k - 1);
      assert FinalisedAt(c, ss, acts, t, i, f, k);
    } else {
      assert StepAt(c, ss, acts, k - 1);
      StepFinalises(c, s, a, ss[k], t, i);
      assert FinalisedAt(c, ss, acts, t, i, k - 1, k);
    }
  }

  lemma StepAnswers(c: Config, ss: seq<State>, acts: seq<Action>, k: nat, t: nat, i: nat)
    requires Run(c, ss, acts) && k < |acts| && acts[k].Call? && acts[k].t == t
    requires t in ss[k].threads && (ss[k].threads[t] == DoneLookup(i) || ss[k].threads[t] == DoneMark(i))
    requires t in ss[k + 1].threads && ss[k + 1].threads[t] == Finished(Status(200))
    ensures ReadyOrGone(ss[k + 1].st, i)
  {
    RunKeepsInv(c, ss, acts, k);
    assert StepAt(c, ss, acts, k);
    AnswersReady(c, ss[k].st, ss[k].threads[t], acts[k].o, i);
  }

  lemma AnswersReady(c: Config, st: Store, pc: Pc, o: Outcome, i: nat)
    requires StoreInv(c, st) && (pc == DoneLookup(i) || pc == DoneMark(i))
    requires var m := Advance(c, st, pc, o); m.Move? && m.pc == Finished(Status(200))
    ensures forall t: nat :: ReadyOrGone(Apply(st, t, Advance(c, st, pc, o).effect), i)
  {
  }

  /** A Done request that answered 200 means that the image is ready, or gone again. */
  lemma {:induction false} DoneMeansReady(c: Config, ss: seq<State>, acts: seq<Action>, t: nat, a: nat, k: nat, i: nat)
    requires Run(c, ss, acts) && k < |ss| && Serving(ss, acts, t, a, k)
    requires acts[a].pc == DoneLookup(i) && ss[k].threads[t] == Finished(Status(200))
    ensures ReadyOrGone(ss[k].st, i)
  {
    assert StepAt(c, ss, acts, k - 1);
    StepKeepsThread(c, ss[k - 1], acts[k - 1], ss[k], t);
    RequestTold(c, ss, acts, t, a, k - 1);
    if ss[k - 1].threads[t] == ss[k].threads[t] {
      DoneMeansReady(c, ss, acts, t, a, k - 1, i);
      StepKeepsGone(c, ss, acts, k - 1, i);
    } else {
      RequestTold(c, ss, acts, t, a, k);
      StepAnswers(c, ss, acts, k - 1, t, i);
    }
  }

  // ---------- Where a whitelist rule comes from ----------

  /** The step is a create or get request by `v.email`, from `v.ip`, that owns or makes the instance. */
  ghost predicate Requests(c: Config, s: State, a: Action, v: Visit) {
    && a.Call? && a.t in s.threads
    && var pc, e := s.threads[a.t], EffectOf(c, s, a);
       || (pc.CreateInsert? && e.InsertInstance? && v == Visit(e.id, pc.who.email, pc.who.ip))
       || (pc.GetLookup? && e == RecordVisit(v) && v == Visit(pc.id, pc.who.email, pc.who.ip)
           && pc.id in s.st.instances && s.st.instances[pc.id].email == pc.who.email)
  }

  lemma StepVisits(c: Config, s: State, a: Action, s': State, v: Visit)
    requires Inv(c, s) && Next(c, s, a, s') && v in s'.st.visits && v !in s.st.visits
    ensures Requests(c, s, a, v)
  {
    var t, e := StepActs(c, s, a, s');
    if a.Call? {
      var m := CallShape(c, s, a, s');
    }
  }

  lemma {:induction false} VisitHasRequest(c: Config, ss: seq<State>, acts: seq<Action>, k: nat, v: Visit)
    requires Run(c, ss, acts) && k < |ss|
    requires v in ss[k].st.visits && v !in ss[0].st.visits
    ensures exists j :: 0 <= j < k && Requests(c, ss[j], acts[j], v)
  {
    var s, a := ss[k - 1], acts[k - 1];
    if v in s.st.visits {
      VisitHasRequest(c, ss, acts, k - 1, v);
    } else {
      assert StepAt(c, ss, acts, k - 1);
      RunKeepsInv(c, ss, acts, k - 1);
      StepVisits(c, s, a, ss[k], v);
    }
  }

  /** The consumer's desired rules are the join it listed at step `l`. */
  ghost predicate ListedAt(ss: seq<State>, acts: seq<Action>, l: nat, k: nat)
    requires |ss| == |acts| + 1 && k < |ss|
  {
    && l < k && acts[l].ListAddresses? && Enumerates(acts[l].keys, ss[l].st.addresses)
    && (ss[k].consumer.Reading? || ss[k].consumer.Adding? || ss[k].consumer.Removing?)
    && ss[k].consumer.desired == JoinRules(ss[l].st.instances, acts[l].keys)
  }

  lemma {:induction false} DesiredWasListed(c: Config, ss: seq<State>, acts: seq<Action>, k: nat)
    requires Run(c, ss, acts) && k < |ss|
    requires ss[k].consumer.Reading? || ss[k].consumer.Adding? || ss[k].consumer.Removing?
    ensures exists l: nat :: ListedAt(ss, acts, l, k)
  {
    var s, a := ss[k - 1], acts[k - 1];
    assert StepAt(c, ss, acts, k - 1);
    if s.consumer.Listing? && a.ListAddresses? {
      assert ListedAt(ss, acts, k - 1, k);
    } else {
      DesiredWasListed(c, ss, acts, k - 1);
      var l: nat :| ListedAt(ss, acts, l, k - 1);
      assert ListedAt(ss, acts, l, k);
    }
  }

  /** At step `l` the tables were listed with instance `id` live, carrying the rule's port and
      owner; and a request by that owner from that address had already been made by then. */
  ghost predicate Provenance(c: Config, ss: seq<State>, acts: seq<Action>, r: RuleEntry, l: nat, id: nat)
    requires |ss| == |acts| + 1
  {
    && l < |acts| && acts[l].ListAddresses?
    && id in ss[l].st.instances
    && ss[l].st.instances[id].port == r.port && ss[l].st.instances[id].email == r.email
    && (|| Visit(id, r.email, r.ip) in ss[0].st.visits
        || exists j :: 0 <= j < l && Requests(c, ss[j], acts[j], Visit(id, r.email, r.ip)))
  }

  /** Every rule a reconcile is about to add has a provenance. */
  lemma AddedRuleHasProvenance(c: Config, ss: seq<State>, acts: seq<Action>, k: nat, r: RuleEntry)
    requires Run(c, ss, acts) && k < |ss|
    requires ss[k].consumer.Adding? && r in ss[k].consumer.add
    ensures exists l: nat, id: nat :: l < k && Provenance(c, ss, acts, r, l, id)
  {
    RunKeepsInv(c, ss, acts, k);
    DesiredWasListed(c, ss, acts, k);
    var l: nat :| ListedAt(ss, acts, l, k);
    var st := ss[l].st;
    JoinElements(st.instances, acts[l].keys, r);
    var key :| key in acts[l].keys && key.instance in st.instances && RuleFor(st.instances, key) == r;
    RunKeepsInv(c, ss, acts, l);
    assert key in st.addresses;
    var v := Visit(key.instance, r.email, r.ip);
    if v !in ss[0].st.visits {
      VisitHasRequest(c, ss, acts, l, v);
    }
    assert Provenance(c, ss, acts, r, l, key.instance);
  }
}
