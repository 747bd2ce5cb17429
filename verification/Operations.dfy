/** Two operations run on their own, loop by loop: the upload user's image destroy, and one sweep
    of the cleaner. Every store and executor call may fail. Each method is proved against a
    specification function, and that function is shown to be a run of the corresponding handler. */
module Operations {
  import opened Options
  import opened Tables
  import opened Handlers
  import opened Assertions

  /** How an executor call ends: success, failure, or failure after the subvolume was already gone. */
  datatype Disk = Works | Breaks | BreaksLate

  // ---------- Refresh tokens ----------

  /** LookupAccessToken: an email, or an error. */
  datatype LookupAnswer = Known(email: string) | LookupError(message: string)

  /** The three results of IsRefreshTokenValid. */
  datatype Validity = Validity(valid: bool, failure: Option<string>, reason: Option<string>)

  /** strings.Contains. */
  predicate HasSubstring(s: string, sub: string)
    requires sub != []
  {
    |sub| <= |s| && (s[..|sub|] == sub || HasSubstring(s[1..], sub))
  }

  ghost predicate OccursAt(s: string, sub: string, i: nat) {
    i + |sub| <= |s| && s[i..i + |sub|] == sub
  }

  /** `sub` stands somewhere in `s`. */
  ghost predicate Occurs(s: string, sub: string) {
    exists i: nat :: OccursAt(s, sub, i)
  }

  lemma {:induction false} SubstringOccurs(s: string, sub: string)
    requires sub != []
    ensures HasSubstring(s, sub) <==> Occurs(s, sub)
  {
    if |s| < |sub| {
    } else {
      SubstringOccurs(s[1..], sub);
      OccursFurther(s, sub);
    }
  }

  lemma OccursFurther(s: string, sub: string)
    requires 0 < |sub| <= |s|
    ensures Occurs(s, sub) <==> s[..|sub|] == sub || Occurs(s[1..], sub)
  {
    assert s[0..0 + |sub|] == s[..|sub|];
    if s[..|sub|] == sub {
      assert OccursAt(s, sub, 0);
    } else if Occurs(s, sub) {
      var i: nat :| OccursAt(s, sub, i);
      OccursShifted(s, sub, i - 1);
    } else if Occurs(s[1..], sub) {
      var i: nat :| OccursAt(s[1..], sub, i);
      OccursShifted(s, sub, i);
    }
  }

  lemma OccursShifted(s: string, sub: string, i: nat)
    requires s != []
    ensures OccursAt(s, sub, i + 1) <==> OccursAt(s[1..], sub, i)
  {
    if i + 1 + |sub| <= |s| {
      assert s[1..][i..i + |sub|] == s[i + 1..i + 1 + |sub|];
    }
  }

  /** A refresh token is reported invalid exactly if its lookup fails with a message in which
      invalid_grant stands anywhere, and that message is the reason; any other failure leaves it
      undetermined. */
  lemma InvalidGrantDecides(a: LookupAnswer)
    ensures var v := IsRefreshTokenValid(a);
            match a
            case Known(_) => v == Validity(true, None, None)
            case LookupError(message) =>
              v == if Occurs(message, "invalid_grant") then Validity(false, None, Some(message))
                   else Validity(false, Some(message), None)
    ensures Revoked(a) <==> IsRefreshTokenValid(a).reason.Some?
  {
    if a.LookupError? {
      SubstringOccurs(a.message, "invalid_grant");
    }
  }

  predicate Revoked(a: LookupAnswer): (r: bool)
    ensures r <==> a.LookupError? && Occurs(a.message, "invalid_grant")
  {
    if a.LookupError? then
      SubstringOccurs(a.message, "invalid_grant");
      HasSubstring(a.message, "invalid_grant")
    else false
  }

  /** Exactly one of: valid, undetermined because of a failure, or invalid for a reason. */
  function IsRefreshTokenValid(a: LookupAnswer): (v: Validity)
    ensures v.valid <==> v.failure.None? && v.reason.None?
    ensures !(v.failure.Some? && v.reason.Some?)
    ensures v.reason.Some? <==> a.LookupError? && Occurs(a.message, "invalid_grant")
    ensures v.valid <==> a.Known?
  {
    if a.LookupError? then
      SubstringOccurs(a.message, "invalid_grant");
      if HasSubstring(a.message, "invalid_grant") then Validity(false, None, Some(a.message))
      else Validity(false, Some(a.message), None)
    else Validity(true, None, None)
  }

  // ---------- Runs of one handler ----------

  /** Thread `t`, alone, goes from `pc` to `pc'` through calls answered with `os`. */
  ghost predicate Drives(c: Config, t: nat, st: Store, pc: Pc, os: seq<Outcome>, st': Store, pc': Pc)
    decreases |os|
  {
    if os == [] then st' == st && pc' == pc
    else
      var m := Advance(c, st, pc, os[0]);
      m.Move? && Drives(c, t, Apply(st, t, m.effect), m.pc, os[1..], st', pc')
  }

  /** The handler can take `st` at `pc` to `st'` at `pc'` with nobody interfering. */
  ghost predicate Solo(c: Config, t: nat, st: Store, pc: Pc, st': Store, pc': Pc) {
    exists os :: Drives(c, t, st, pc, os, st', pc')
  }

  lemma SoloDone(c: Config, t: nat, st: Store, pc: Pc)
    ensures Solo(c, t, st, pc, st, pc)
  {
    assert Drives(c, t, st, pc, [], st, pc);
  }

  lemma SoloStep(c: Config, t: nat, st: Store, pc: Pc, o: Outcome, st1: Store, pc1: Pc, st': Store, pc': Pc)
    requires var m := Advance(c, st, pc, o); m.Move? && m.pc == pc1 && Apply(st, t, m.effect) == st1
    requires Solo(c, t, st1, pc1, st', pc')
    ensures Solo(c, t, st, pc, st', pc')
  {
    var os :| Drives(c, t, st1, pc1, os, st', pc');
    assert ([o] + os)[1..] == os;
    assert Drives(c, t, st, pc, [o] + os, st', pc');
  }

  lemma SoloLast(c: Config, t: nat, st: Store, pc: Pc, o: Outcome, st': Store, pc': Pc)
    requires var m := Advance(c, st, pc, o); m.Move? && m.pc == pc' && Apply(st, t, m.effect) == st'
    ensures Solo(c, t, st, pc, st', pc')
  {
    SoloDone(c, t, st', pc');
    SoloStep(c, t, st, pc, o, st', pc', st', pc');
  }

  // ---------- Destroying an image: specification ----------

  ghost function RowsOf(instances: map<nat, Instance>, image: nat): set<nat> {
    set x | x in instances && instances[x].image == image
  }

  /** Which calls of one image destroy fail. `listed` cuts the List short at that id. */
  datatype Faults = Faults(
    lookup: bool,
    listed: nat,
    row: nat -> bool,
    disk: nat -> Disk,
    image: bool,
    wipe: Disk)

  /** Executor.DestroyInstance on the disk. */
  function DropDisk(st: Store, x: nat, disk: Disk): Store {
    if disk.Breaks? then st else st.(volumes := st.volumes - {x})
  }

  /** The loop over the image's listed instances: each row goes before its disk. */
  function PurgeLoop(st: Store, todo: seq<nat>, f: Faults): (Store, bool)
    decreases |todo|
  {
    if todo == [] then (st, true)
    else if f.row(todo[0]) then (st, false)
    else
      var st1 := DropDisk(RemoveInstance(st, todo[0], ByImageDestroy), todo[0], f.disk(todo[0]));
      if f.disk(todo[0]).Works? && todo[0] in st.volumes then PurgeLoop(st1, todo[1..], f) else (st1, false)
  }

  /** The whole handler, given the ids its List returned. */
  function Destroyed(st: Store, i: nat, ids: seq<nat>, f: Faults): (Store, Reply) {
    if f.lookup || i !in st.images then (st, Status(404))
    else
      var (st1, ok) := PurgeLoop(st, OfImage(st.instances, ids, i), f);
      if !ok then (st1, Status(500))
      else if f.image then (st1, NoStatus)
      else if ImageInUse(st1.instances, i) then (st1, Status(422))
      else
        var st2 := st1.(images := st1.images - {i});
        (if f.wipe.Breaks? then st2 else st2.(snapshots := st2.snapshots - {i}),
         if f.wipe.Works? then Status(204) else Status(500))
  }

  /** From `st` to `st'` nothing went but rows and disks of the instances in `gone`. */
  ghost predicate OnlyLost(st: Store, st': Store, gone: set<nat>) {
    && (forall x :: x in st'.instances ==> x in st.instances && st'.instances[x] == st.instances[x])
    && (forall x :: x in st.instances && x !in gone ==> x in st'.instances)
    && st'.volumes <= st.volumes
    && (forall x :: x in st.volumes && x !in gone ==> x in st'.volumes)
  }

  lemma OnlyLostGrows(st: Store, st': Store, gone: set<nat>, more: set<nat>)
    requires OnlyLost(st, st', gone) && gone <= more
    ensures OnlyLost(st, st', more)
  {
  }

  ghost predicate SameImages(st: Store, st': Store) {
    st'.images == st.images && st'.snapshots == st.snapshots
  }

  lemma {:induction false} PurgeLoopLoses(st: Store, todo: seq<nat>, f: Faults)
    ensures OnlyLost(st, PurgeLoop(st, todo, f).0, set x | x in todo)
    ensures SameImages(st, PurgeLoop(st, todo, f).0)
    decreases |todo|
  {
    if todo == [] || f.row(todo[0]) {
    } else {
      var st1 := DropDisk(RemoveInstance(st, todo[0], ByImageDestroy), todo[0], f.disk(todo[0]));
      if f.disk(todo[0]).Works? && todo[0] in st.volumes {
        PurgeLoopLoses(st1, todo[1..], f);
      }
    }
  }

  lemma {:induction false} PurgeLoopSweeps(st: Store, todo: seq<nat>, f: Faults)
    ensures PurgeLoop(st, todo, f).1 ==>
              forall x :: x in todo ==>
                x !in PurgeLoop(st, todo, f).0.instances && x !in PurgeLoop(st, todo, f).0.volumes
    decreases |todo|
  {
    if todo == [] || !PurgeLoop(st, todo, f).1 {
    } else {
      var st1 := DropDisk(RemoveInstance(st, todo[0], ByImageDestroy), todo[0], f.disk(todo[0]));
      PurgeLoopSweeps(st1, todo[1..], f);
      PurgeLoopLoses(st1, todo[1..], f);
    }
  }

  lemma PurgeLoopProgresses(st: Store, todo: seq<nat>, f: Faults)
    requires todo != [] && !f.row(todo[0])
    ensures todo[0] !in PurgeLoop(st, todo, f).0.instances
  {
    var st1 := DropDisk(RemoveInstance(st, todo[0], ByImageDestroy), todo[0], f.disk(todo[0]));
    PurgeLoopLoses(st1, todo[1..], f);
  }

  lemma {:induction false} PurgeLoopSucceeds(st: Store, todo: seq<nat>, f: Faults)
    requires Ascending(todo)
    requires forall x :: x in todo ==> x in st.volumes && !f.row(x) && f.disk(x).Works?
    ensures PurgeLoop(st, todo, f).1
    decreases |todo|
  {
    if todo == [] {
    } else {
      var st1 := DropDisk(RemoveInstance(st, todo[0], ByImageDestroy), todo[0], f.disk(todo[0]));
      PurgeLoopSucceeds(st1, todo[1..], f);
    }
  }

  ghost predicate Ascending(s: seq<nat>) {
    forall k, l :: 0 <= k < l < |s| ==> s[k] < s[l]
  }

  lemma {:induction false} OfImageElements(instances: map<nat, Instance>, ids: seq<nat>, i: nat)
    requires Ascending(ids)
    ensures forall x :: x in OfImage(instances, ids, i) <==> x in ids && x in RowsOf(instances, i)
    ensures Ascending(OfImage(instances, ids, i))
  {
    if ids == [] {
    } else {
      var r, rest := OfImage(instances, ids, i), OfImage(instances, ids[1..], i);
      OfImageElements(instances, ids[1..], i);
      assert r == if ids[0] in RowsOf(instances, i) then [ids[0]] + rest else rest;
      assert ids == [ids[0]] + ids[1..];
      forall k | 0 <= k < |rest| ensures ids[0] < rest[k] {
        assert rest[k] in rest && rest[k] in ids[1..];
      }
      assert Ascending(r);
    }
  }

  /** An image destroy loses rows and disks of that image's instances, and no other. */
  lemma DestroyLosesOnlyItsOwn(st: Store, i: nat, ids: seq<nat>, f: Faults)
    requires ListingPrefix(st.instances, ids)
    ensures OnlyLost(st, Destroyed(st, i, ids, f).0, RowsOf(st.instances, i))
  {
    if f.lookup || i !in st.images {
    } else {
      var todo := OfImage(st.instances, ids, i);
      OfImageElements(st.instances, ids, i);
      PurgeLoopLoses(st, todo, f);
      DestroyedAfterLoop(st, i, ids, f);
      OnlyLostGrows(st, Destroyed(st, i, ids, f).0, (set x | x in todo), RowsOf(st.instances, i));
    }
  }

  /** After its loop a destroy changes neither instance rows nor instance disks. */
  lemma DestroyedAfterLoop(st: Store, i: nat, ids: seq<nat>, f: Faults)
    requires !f.lookup && i in st.images
    ensures var st1, st' := PurgeLoop(st, OfImage(st.instances, ids, i), f).0, Destroyed(st, i, ids, f).0;
            st'.instances == st1.instances && st'.volumes == st1.volumes
  {
  }

  /** And it leaves every other image's row and snapshot alone. */
  lemma DestroySparesImages(st: Store, i: nat, ids: seq<nat>, f: Faults, j: nat)
    requires j != i
    ensures var st' := Destroyed(st, i, ids, f).0;
            && (j in st'.images <==> j in st.images) && (j in st.images ==> st'.images[j] == st.images[j])
            && (j in st'.snapshots <==> j in st.snapshots)
  {
    PurgeLoopLoses(st, OfImage(st.instances, ids, i), f);
  }

  /** 204 means that no instance row of the image is left, even if the List was cut short, and no
      disk of an instance it had. */
  lemma DestroyedMeansGone(st: Store, i: nat, ids: seq<nat>, f: Faults)
    requires ListingPrefix(st.instances, ids)
    requires Destroyed(st, i, ids, f).1 == Status(204)
    ensures var st' := Destroyed(st, i, ids, f).0;
            && i in st.images && i !in st'.images
            && RowsOf(st'.instances, i) == {} && RowsOf(st.instances, i) !! st'.volumes
  {
    var todo := OfImage(st.instances, ids, i);
    OfImageElements(st.instances, ids, i);
    PurgeLoopLoses(st, todo, f);
    PurgeLoopSweeps(st, todo, f);
    var st' := Destroyed(st, i, ids, f).0;
    assert RowsOf(st'.instances, i) == {};
    forall x | x in RowsOf(st.instances, i) ensures x in todo {
      assert x !in RowsOf(st'.instances, i);
    }
  }

  /** With working store calls, an attempt that is not answered 204 has made progress. */
  lemma DestroyProgresses(st: Store, i: nat, ids: seq<nat>, f: Faults)
    requires Listing(st.instances, ids) && i in st.images
    requires !f.lookup && !f.image && forall x :: !f.row(x)
    requires Destroyed(st, i, ids, f).1 != Status(204)
    ensures var st' := Destroyed(st, i, ids, f).0;
            i !in st'.images || RowsOf(st'.instances, i) < RowsOf(st.instances, i)
  {
    var todo := OfImage(st.instances, ids, i);
    OfImageElements(st.instances, ids, i);
    if todo == [] {
      NothingToPurge(st, i, ids, f);
    } else {
      PurgeLoopLoses(st, todo, f);
      PurgeLoopProgresses(st, todo, f);
      DestroyedAfterLoop(st, i, ids, f);
      assert todo[0] in todo && todo[0] in RowsOf(st.instances, i);
    }
  }

  /** An image without instances loses its row. */
  lemma NothingToPurge(st: Store, i: nat, ids: seq<nat>, f: Faults)
    requires Listing(st.instances, ids) && i in st.images && !f.lookup && !f.image
    requires OfImage(st.instances, ids, i) == []
    ensures i !in Destroyed(st, i, ids, f).0.images
  {
    OfImageElements(st.instances, ids, i);
    forall k | k in st.instances ensures st.instances[k].image != i {
      assert k in ids && k !in OfImage(st.instances, ids, i);
    }
  }

  /** When nothing fails and every instance has its disk, the answer is 204. */
  lemma DestroySucceeds(st: Store, i: nat, ids: seq<nat>, f: Faults)
    requires Listing(st.instances, ids) && i in st.images && RowsOf(st.instances, i) <= st.volumes
    requires !f.lookup && !f.image && f.wipe.Works? && forall x :: !f.row(x) && f.disk(x).Works?
    ensures Destroyed(st, i, ids, f).1 == Status(204)
  {
    var todo := OfImage(st.instances, ids, i);
    OfImageElements(st.instances, ids, i);
    PurgeLoopSucceeds(st, todo, f);
    PurgeLoopSweeps(st, todo, f);
    PurgeLoopLoses(st, todo, f);
  }

  // ---------- Destroying an image: a run of the handler ----------

  lemma {:induction false} PurgeLoopIsRun(c: Config, t: nat, st: Store, i: nat, todo: seq<nat>, f: Faults)
    ensures var (st', ok) := PurgeLoop(st, todo, f);
            Solo(c, t, st, PurgeRow(i, todo), st', if ok then PurgeRow(i, []) else Finished(Status(500)))
    decreases |todo|
  {
    var (st', ok) := PurgeLoop(st, todo, f);
    var end := if ok then PurgeRow(i, []) else Finished(Status(500));
    if todo == [] {
      SoloDone(c, t, st, PurgeRow(i, todo));
    } else if f.row(todo[0]) {
      SoloLast(c, t, st, PurgeRow(i, todo), Failed, st, end);
    } else {
      var x, rest := todo[0], todo[1..];
      var st0 := RemoveInstance(st, x, ByImageDestroy);
      if f.disk(x).Works? && x in st.volumes {
        PurgeLoopIsRun(c, t, DropDisk(st0, x, Works), i, rest, f);
        PurgeVolumeWorks(c, t, st0, i, x, rest, st', end);
      } else {
        PurgeVolumeFails(c, t, st0, i, x, rest, f.disk(x));
      }
      SoloStep(c, t, st, PurgeRow(i, todo), Done, st0, PurgeVolume(i, x, rest), st', end);
    }
  }

  lemma PurgeVolumeWorks(c: Config, t: nat, st: Store, i: nat, x: nat, rest: seq<nat>, st': Store, end: Pc)
    requires x in st.volumes && Solo(c, t, DropDisk(st, x, Works), PurgeRow(i, rest), st', end)
    ensures Solo(c, t, st, PurgeVolume(i, x, rest), st', end)
  {
    SoloStep(c, t, st, PurgeVolume(i, x, rest), Done, DropDisk(st, x, Works), PurgeRow(i, rest), st', end);
  }

  lemma PurgeVolumeFails(c: Config, t: nat, st: Store, i: nat, x: nat, rest: seq<nat>, disk: Disk)
    requires !(disk.Works? && x in st.volumes)
    ensures Solo(c, t, st, PurgeVolume(i, x, rest), DropDisk(st, x, disk), Finished(Status(500)))
  {
    var o := if disk.BreaksLate? then HalfDone else Failed;
    assert x !in st.volumes ==> st.volumes - {x} == st.volumes;
    SoloLast(c, t, st, PurgeVolume(i, x, rest), o, DropDisk(st, x, disk), Finished(Status(500)));
  }

  lemma SoloTrans(c: Config, t: nat, st: Store, pc: Pc, st1: Store, pc1: Pc, st': Store, pc': Pc)
    requires Solo(c, t, st, pc, st1, pc1) && Solo(c, t, st1, pc1, st', pc')
    ensures Solo(c, t, st, pc, st', pc')
  {
    var os :| Drives(c, t, st, pc, os, st1, pc1);
    SoloAfter(c, t, st, pc, os, st1, pc1, st', pc');
  }

  lemma {:induction false} SoloAfter(c: Config, t: nat, st: Store, pc: Pc, os: seq<Outcome>,
                                     st1: Store, pc1: Pc, st': Store, pc': Pc)
    requires Drives(c, t, st, pc, os, st1, pc1) && Solo(c, t, st1, pc1, st', pc')
    ensures Solo(c, t, st, pc, st', pc')
    decreases |os|
  {
    if os == [] {
    } else {
      var m := Advance(c, st, pc, os[0]);
      SoloAfter(c, t, Apply(st, t, m.effect), m.pc, os[1..], st1, pc1, st', pc');
      SoloStep(c, t, st, pc, os[0], Apply(st, t, m.effect), m.pc, st', pc');
    }
  }

  /** Where the handler's thread stands after a reply. */
  function EndOf(i: nat, reply: Reply): Pc {
    if reply == Status(204) then ImageDestroyed(i) else Finished(reply)
  }

  lemma ImageTailIsRun(c: Config, t: nat, st: Store, i: nat, f: Faults)
    ensures var st2 := st.(images := st.images - {i});
            var (st', reply) :=
              if f.image then (st, NoStatus)
              else if ImageInUse(st.instances, i) then (st, Status(422))
              else (if f.wipe.Breaks? then st2 else st2.(snapshots := st2.snapshots - {i}),
                    if f.wipe.Works? then Status(204) else Status(500));
            Solo(c, t, st, ImageDelete(i), st', EndOf(i, reply))
  {
    if f.image {
      SoloLast(c, t, st, ImageDelete(i), Failed, st, Finished(NoStatus));
    } else if ImageInUse(st.instances, i) {
      SoloLast(c, t, st, ImageDelete(i), Rejected, st, Finished(Status(422)));
    } else {
      var st2 := st.(images := st.images - {i});
      var st3 := if f.wipe.Breaks? then st2 else st2.(snapshots := st2.snapshots - {i});
      var o := if f.wipe.Works? then Done else if f.wipe.Breaks? then Failed else HalfDone;
      var end := if f.wipe.Works? then ImageDestroyed(i) else Finished(Status(500));
      SoloLast(c, t, st2, ImageWipe(i), o, st3, end);
      SoloStep(c, t, st, ImageDelete(i), Done, st2, ImageWipe(i), st3, end);
    }
  }

  /** The image destroy is a run of its interleaved handler in which nobody else moves. */
  lemma DestroyIsRun(c: Config, t: nat, st: Store, i: nat, ids: seq<nat>, f: Faults)
    requires ListingPrefix(st.instances, ids)
    ensures var (st', reply) := Destroyed(st, i, ids, f);
            Solo(c, t, st, PurgeLookup(i, true), st', EndOf(i, reply))
  {
    var (st', reply) := Destroyed(st, i, ids, f);
    if f.lookup || i !in st.images {
      SoloLast(c, t, st, PurgeLookup(i, true), if f.lookup then Failed else Done, st, Finished(Status(404)));
    } else {
      var todo := OfImage(st.instances, ids, i);
      var (st1, ok) := PurgeLoop(st, todo, f);
      PurgeLoopIsRun(c, t, st, i, todo, f);
      if ok {
        ImageTailIsRun(c, t, st1, i, f);
        SoloStep(c, t, st1, PurgeRow(i, []), Done, st1, ImageDelete(i), st', EndOf(i, reply));
        SoloTrans(c, t, st, PurgeRow(i, todo), st1, PurgeRow(i, []), st', EndOf(i, reply));
      }
      SoloStep(c, t, st, PurgeList(i), Rows(ids), st, PurgeRow(i, todo), st', EndOf(i, reply));
      SoloStep(c, t, st, PurgeLookup(i, true), Done, st, PurgeList(i), st', EndOf(i, reply));
    }
  }

  // ---------- One sweep of the cleaner: specification ----------

  /** What one sweep meets at each instance: what its token lookup and executor call answer, and
      whether its row deletion fails. Instances that share a token are looked up one by one. */
  datatype Weather = Weather(lookup: nat -> LookupAnswer, disk: nat -> Disk, row: nat -> bool)

  /** Listed instance `x` has a refresh token that the provider reports as revoked. */
  predicate Expired(all: map<nat, Instance>, w: Weather, x: nat) {
    x in all && all[x].token != "" && Revoked(w.lookup(x))
  }

  /** What one iteration does; `all` are the rows as they were listed. */
  function CleanOne(all: map<nat, Instance>, st: Store, w: Weather, x: nat): Store {
    if !Expired(all, w, x) then st
    else if w.disk(x).Works? && x in st.volumes && !w.row(x)
    then RemoveInstance(DropDisk(st, x, w.disk(x)), x, ByCleaner)
    else DropDisk(st, x, w.disk(x))
  }

  function SweepLoop(all: map<nat, Instance>, st: Store, ids: seq<nat>, w: Weather): Store
    decreases |ids|
  {
    if ids == [] then st else SweepLoop(all, CleanOne(all, st, w, ids[0]), ids[1..], w)
  }

  /** Its disk and its row are both deleted without error. */
  predicate Cleaned(all: map<nat, Instance>, st: Store, w: Weather, x: nat) {
    Expired(all, w, x) && x in st.volumes && w.disk(x).Works? && !w.row(x)
  }

  lemma {:induction false} SweepSkips(all: map<nat, Instance>, st: Store, ids: seq<nat>, w: Weather,
                                      x: nat, k: AddressKey)
    requires x !in ids && k.instance !in ids
    ensures var st' := SweepLoop(all, st, ids, w);
            && (x in st'.instances <==> x in st.instances) && (x in st'.volumes <==> x in st.volumes)
            && (x in st'.instances ==> st'.instances[x] == st.instances[x])
            && (k in st'.addresses <==> k in st.addresses)
            && st'.images == st.images && st'.snapshots == st.snapshots && st'.queue == st.queue
    decreases |ids|
  {
    if ids == [] {
    } else {
      SweepSkips(all, CleanOne(all, st, w, ids[0]), ids[1..], w, x, k);
    }
  }

  /** A sweep over `ids` removes the row of `x`, with its addresses, exactly if `x` was listed with a
      non-empty token, an invalid_grant lookup and both deletions succeeding, and its disk exactly if
      it was deleted, whether or not the row followed. So no failure stops the sweep or touches
      another instance. */
  lemma {:induction false} SweepRemovesExactly(all: map<nat, Instance>, st: Store, ids: seq<nat>, w: Weather,
                                               x: nat, ip: string)
    requires Ascending(ids)
    ensures var st' := SweepLoop(all, st, ids, w);
            && (x in st'.instances <==> x in st.instances && !(x in ids && Cleaned(all, st, w, x)))
            && (x in st'.instances ==> st'.instances[x] == st.instances[x])
            && (x in st'.volumes <==> x in st.volumes && !(x in ids && Expired(all, w, x) && !w.disk(x).Breaks?))
            && (AddressKey(ip, x) in st'.addresses <==>
                  AddressKey(ip, x) in st.addresses && !(x in ids && Cleaned(all, st, w, x)))
    decreases |ids|
  {
    if ids == [] {
    } else {
      var st1 := CleanOne(all, st, w, ids[0]);
      if x == ids[0] {
        SweepSkips(all, st1, ids[1..], w, x, AddressKey(ip, x));
      } else {
        SweepRemovesExactly(all, st1, ids[1..], w, x, ip);
      }
    }
  }

  lemma SweepOneIsRun(c: Config, t: nat, all: map<nat, Instance>, st: Store, w: Weather, x: nat, rest: seq<nat>)
    requires x in all && all[x].token != ""
    ensures Solo(c, t, st, SweepNext([x] + rest), CleanOne(all, st, w, x), SweepNext(rest))
  {
    var todo, st' := [x] + rest, CleanOne(all, st, w, x);
    assert todo[1..] == rest;
    if !Expired(all, w, x) {
      SoloLast(c, t, st, SweepNext(todo), Done, st, SweepNext(rest));
    } else {
      SweepDestroyIsRun(c, t, st, w, x, rest, st');
      SoloStep(c, t, st, SweepNext(todo), Rejected, st, SweepVolume(x, rest), st', SweepNext(rest));
    }
  }

  lemma SweepDestroyIsRun(c: Config, t: nat, st: Store, w: Weather, x: nat, rest: seq<nat>, st': Store)
    requires st' == if w.disk(x).Works? && x in st.volumes && !w.row(x)
                    then RemoveInstance(DropDisk(st, x, w.disk(x)), x, ByCleaner)
                    else DropDisk(st, x, w.disk(x))
    ensures Solo(c, t, st, SweepVolume(x, rest), st', SweepNext(rest))
  {
    var st1 := DropDisk(st, x, w.disk(x));
    if w.disk(x).Works? && x in st.volumes {
      SoloLast(c, t, st1, SweepRow(x, rest), if w.row(x) then Failed else Done, st', SweepNext(rest));
      SoloStep(c, t, st, SweepVolume(x, rest), Done, st1, SweepRow(x, rest), st', SweepNext(rest));
    } else {
      assert x !in st.volumes ==> st.volumes - {x} == st.volumes;
      var o := if w.disk(x).BreaksLate? then HalfDone else Failed;
      SoloLast(c, t, st, SweepVolume(x, rest), o, st', SweepNext(rest));
    }
  }

  lemma {:induction false} SweepLoopIsRun(c: Config, t: nat, all: map<nat, Instance>, st: Store, ids: seq<nat>,
                                          w: Weather)
    requires forall x :: x in ids ==> x in all
    ensures Solo(c, t, st, SweepNext(WithToken(all, ids)), SweepLoop(all, st, ids, w), SweepNext([]))
    decreases |ids|
  {
    if ids == [] {
      SoloDone(c, t, st, SweepNext([]));
    } else {
      var x, st1 := ids[0], CleanOne(all, st, w, ids[0]);
      SweepLoopIsRun(c, t, all, st1, ids[1..], w);
      if all[x].token != "" {
        var rest := WithToken(all, ids[1..]);
        SweepOneIsRun(c, t, all, st, w, x, rest);
        SoloTrans(c, t, st, SweepNext([x] + rest), st1, SweepNext(rest), SweepLoop(all, st, ids, w), SweepNext([]));
      }
    }
  }

  /** A sweep is a run of the cleaner's thread in which nobody else moves. */
  lemma SweepIsRun(c: Config, t: nat, st: Store, ids: seq<nat>, w: Weather)
    requires Listing(st.instances, ids)
    ensures Solo(c, t, st, SweepList, SweepLoop(st.instances, st, ids, w), Finished(NoStatus))
  {
    var all, st' := st.instances, SweepLoop(st.instances, st, ids, w);
    SweepLoopIsRun(c, t, all, st, ids, w);
    SoloLast(c, t, st', SweepNext([]), Done, st', Finished(NoStatus));
    SoloTrans(c, t, st, SweepNext(WithToken(all, ids)), st', SweepNext([]), st', Finished(NoStatus));
    SoloStep(c, t, st, SweepList, Rows(ids), st, SweepNext(WithToken(all, ids)), st', Finished(NoStatus));
  }

  // ---------- Retrying a destroy: specification ----------

  /** The ids of all rows below `n`, in order. */
  function OrderedIds(instances: map<nat, Instance>, n: nat): seq<nat> {
    if n == 0 then []
    else OrderedIds(instances, n - 1) + if n - 1 in instances then [n - 1] else []
  }

  /** A List is the rows in order of id, up to some id. */
  lemma ListingPrefixIsOrdered(instances: map<nat, Instance>, ids: seq<nat>)
    ensures ListingPrefix(instances, ids) <==> exists n: nat :: ids == OrderedIds(instances, n)
  {
    if ListingPrefix(instances, ids) {
      PrefixIsOrdered(instances, ids, EndOfList(ids));
    }
    if n: nat :| ids == OrderedIds(instances, n) {
      OrderedIdsList(instances, n);
      forall i | 0 <= i < |ids| ensures ids[i] < n && ids[i] in instances {
        assert ids[i] in ids;
      }
    }
  }

  function EndOfList(ids: seq<nat>): nat {
    if ids == [] then 0 else ids[|ids| - 1] + 1
  }

  /** And a complete one has them all. */
  lemma ListingIsOrdered(instances: map<nat, Instance>, ids: seq<nat>, n: nat)
    requires forall k :: k in instances ==> k < n
    ensures Listing(instances, ids) <==> ids == OrderedIds(instances, n)
  {
    OrderedIdsList(instances, n);
    if Listing(instances, ids) {
      forall k ensures k in ids <==> k in OrderedIds(instances, n) {
        assert k in ids ==> k in instances by {
          if k in ids {
            var i :| 0 <= i < |ids| && ids[i] == k;
          }
        }
      }
      SameAscending(ids, OrderedIds(instances, n));
    }
  }

  lemma PrefixIsOrdered(instances: map<nat, Instance>, ids: seq<nat>, n: nat)
    requires ListingPrefix(instances, ids) && n == EndOfList(ids)
    ensures ids == OrderedIds(instances, n)
  {
    OrderedIdsList(instances, n);
    forall k ensures k in ids <==> k in instances && k < n {
      if k in ids {
        var i :| 0 <= i < |ids| && ids[i] == k;
        assert k <= ids[|ids| - 1];
      }
    }
    SameAscending(ids, OrderedIds(instances, n));
  }

  lemma AscendingTail(a: seq<nat>, k: nat)
    requires Ascending(a) && a != []
    ensures Ascending(a[1..]) && (k in a[1..] <==> k in a && k > a[0])
  {
    if k in a {
      var i :| 0 <= i < |a| && a[i] == k;
      assert i > 0 ==> a[1..][i - 1] == k;
    }
    if k in a[1..] {
      var i :| 0 <= i < |a[1..]| && a[1..][i] == k;
      assert a[i + 1] == k;
    }
  }

  /** Ascending lists with the same elements are equal. */
  lemma {:induction false} SameAscending(a: seq<nat>, b: seq<nat>)
    requires Ascending(a) && Ascending(b) && forall k :: k in a <==> k in b
    ensures a == b
  {
    assert a != [] ==> a[0] in b;
    assert b != [] ==> b[0] in a;
    if a == [] {
    } else {
      forall k ensures k in a[1..] <==> k in b[1..] {
        AscendingTail(a, k);
        AscendingTail(b, k);
      }
      AscendingTail(a, 0);
      AscendingTail(b, 0);
      SameAscending(a[1..], b[1..]);
      assert a == [a[0]] + a[1..] && b == [b[0]] + b[1..];
    }
  }

  function Smallest(a: nat, b: nat): nat {
    if a < b then a else b
  }

  /** An attempt whose store calls all work. */
  function AttemptFaults(st: Store, disk: nat -> Disk, wipe: Disk): Faults {
    Faults(false, st.nextInstance, x => false, disk, false, wipe)
  }

  /** The k-th attempt; `disk(k)` is what the executor answers in it. */
  function Attempt(i: nat, disk: nat -> (nat -> Disk), wipe: Disk): (nat, Store) -> Store {
    (k: nat, st: Store) =>
      Destroyed(st, i, OrderedIds(st.instances, st.nextInstance), AttemptFaults(st, disk(k), wipe)).0
  }

  /** `n` attempts in a row. */
  function Repeat<S>(attempt: (nat, S) -> S, s: S, n: nat): S {
    if n == 0 then s else attempt(n - 1, Repeat(attempt, s, n - 1))
  }

  // ---------- The operations ----------

  class Host {
    var st: Store

    constructor (st: Store)
      ensures this.st == st
    {
      this.st := st;
    }

    /** InstanceStore.List, ordered by id, up to a scan error at id `stop`. */
    method ListInstances(stop: nat) returns (ids: seq<nat>)
      requires IdsBelowSequences(st)
      ensures ListingPrefix(st.instances, ids)
      ensures forall k :: k in ids <==> k in st.instances && k < stop
      ensures stop >= st.nextInstance ==> Listing(st.instances, ids)
      ensures ids == OrderedIds(st.instances, Smallest(stop, st.nextInstance))
    {
      ids := [];
      for i := 0 to st.nextInstance
        invariant ids == OrderedIds(st.instances, Smallest(stop, i))
      {
        if i in st.instances {
          if i >= stop {
            break;
          }
          ids := ids + [i];
        }
      }
      OrderedIdsList(st.instances, Smallest(stop, st.nextInstance));
      ListingPrefixIsOrdered(st.instances, ids);
      ListingIsOrdered(st.instances, OrderedIds(st.instances, st.nextInstance), st.nextInstance);
    }

    /** Executor.DestroyInstance: fails when the subvolume is absent. */
    method DestroyVolume(id: nat, disk: Disk) returns (ok: bool)
      modifies this
      ensures ok <==> disk.Works? && id in old(st).volumes
      ensures st == DropDisk(old(st), id, disk)
    {
      ok := disk.Works? && id in st.volumes;
      if !disk.Breaks? {
        st := st.(volumes := st.volumes - {id});
      }
    }

    /** DELETE /images/{id} by the upload user. */
    method DestroyImage(i: nat, f: Faults) returns (reply: Reply, ghost ids: seq<nat>)
      requires IdsBelowSequences(st)
      modifies this
      ensures ListingPrefix(old(st).instances, ids)
      ensures f.listed >= old(st).nextInstance ==> Listing(old(st).instances, ids)
      ensures ids == OrderedIds(old(st).instances, Smallest(f.listed, old(st).nextInstance))
      ensures (st, reply) == Destroyed(old(st), i, ids, f)
    {
      var listed := ListInstances(f.listed);
      ids := listed;
      if f.lookup || i !in st.images {
        return Status(404), ids;
      }
      var all := st.instances;
      for n := 0 to |listed|
        invariant PurgeLoop(st, OfImage(all, listed[n..], i), f) == PurgeLoop(old(st), OfImage(all, listed, i), f)
      {
        var x := listed[n];
        assert listed[n..][1..] == listed[n + 1..];
        if all[x].image == i {
          var rest := OfImage(all, listed[n + 1..], i);
          assert OfImage(all, listed[n..], i) == [x] + rest && ([x] + rest)[1..] == rest;
          if f.row(x) {
            return Status(500), ids;
          }
          st := RemoveInstance(st, x, ByImageDestroy);
          var gone := DestroyVolume(x, f.disk(x));
          if !gone {
            return Status(500), ids;
          }
        }
      }
      if f.image {
        return NoStatus, ids;
      }
      if ImageInUse(st.instances, i) {
        return Status(422), ids;
      }
      st := st.(images := st.images - {i});
      if !f.wipe.Breaks? {
        st := st.(snapshots := st.snapshots - {i});
      }
      return if f.wipe.Works? then Status(204) else Status(500), ids;
    }

    /** One attempt whose store calls all work. */
    method AttemptDestroy(i: nat, disk: nat -> (nat -> Disk), wipe: Disk, k: nat)
      requires IdsBelowSequences(st)
      modifies this
      ensures st == Attempt(i, disk, wipe)(k, old(st))
    {
      var reply, ids := DestroyImage(i, AttemptFaults(st, disk(k), wipe));
    }

    /** Retrying a destroy whose store calls work, whatever the disk does, until the image row is gone:
        each attempt that leaves it has removed at least one instance row, so their number is bounded. */
    method RetryDestroyImage(i: nat, disk: nat -> (nat -> Disk), wipe: Disk) returns (attempts: nat)
      requires IdsBelowSequences(st)
      modifies this
      ensures st == Repeat(Attempt(i, disk, wipe), old(st), attempts)
      ensures forall m :: 0 <= m < attempts ==> i in Repeat(Attempt(i, disk, wipe), old(st), m).images
      ensures i !in st.images && OnlyLost(old(st), st, RowsOf(old(st).instances, i))
      ensures attempts <= |RowsOf(old(st).instances, i)| + 1
    {
      attempts := 0;
      ghost var attempt := Attempt(i, disk, wipe);
      EveryAttemptDid(i, disk, wipe);
      while i in st.images
        invariant Needed(attempt, old(st), i, attempts) && st == Repeat(attempt, old(st), attempts)
        invariant AttemptsDid(old(st), st, i, attempts)
        decreases |RowsOf(old(st).instances, i)| + 1 - attempts
      {
        ghost var before := st;
        AttemptDestroy(i, disk, wipe, attempts);
        OneMoreNeeded(attempt, old(st), before, st, i, attempts);
        attempts := attempts + 1;
      }
    }

    /** InstanceCleaner.destroyInstance. */
    method CleanInstance(x: nat, disk: Disk, rowFails: bool) returns (ok: bool)
      modifies this
      ensures ok <==> disk.Works? && x in old(st).volumes && !rowFails
      ensures st == if ok then RemoveInstance(DropDisk(old(st), x, disk), x, ByCleaner) else DropDisk(old(st), x, disk)
    {
      ok := DestroyVolume(x, disk);
      if ok {
        if rowFails {
          ok := false;
        } else {
          st := RemoveInstance(st, x, ByCleaner);
        }
      }
    }

    /** One round of InstanceCleaner.Start. Failed lookups and failed deletions stop nothing. */
    method Sweep(listFails: bool, w: Weather) returns (ghost ids: seq<nat>)
      requires IdsBelowSequences(st)
      modifies this
      ensures listFails ==> st == old(st)
      ensures !listFails ==> Listing(old(st).instances, ids) && st == SweepLoop(old(st).instances, old(st), ids, w)
    {
      if listFails {
        return [];
      }
      var listed := ListInstances(st.nextInstance);
      ids := listed;
      var all := st.instances;
      for n := 0 to |listed|
        invariant SweepLoop(all, st, listed[n..], w) == SweepLoop(all, old(st), listed, w)
      {
        var x := listed[n];
        assert listed[n..][1..] == listed[n + 1..];
        if all[x].token != "" {
          var v := IsRefreshTokenValid(w.lookup(x));
          if v.failure.None? && !v.valid {
            var reason := v.reason.value;  // validityErr.Error(): always there
            var ok := CleanInstance(x, w.disk(x), w.row(x));
          }
        }
      }
    }
  }

  /** What one attempt at an existing image does. */
  ghost predicate AttemptDid(st: Store, st': Store, i: nat) {
    && IdsBelowSequences(st') && OnlyLost(st, st', RowsOf(st.instances, i))
    && RowsOf(st'.instances, i) <= RowsOf(st.instances, i)
    && |RowsOf(st'.instances, i)| <= |RowsOf(st.instances, i)|
    && (i in st'.images ==> |RowsOf(st'.instances, i)| < |RowsOf(st.instances, i)|)
  }

  /** What `n` attempts do, none of them made after the image row had gone. */
  ghost predicate AttemptsDid(st: Store, st': Store, i: nat, n: nat) {
    && IdsBelowSequences(st') && OnlyLost(st, st', RowsOf(st.instances, i))
    && RowsOf(st'.instances, i) <= RowsOf(st.instances, i)
    && n + |RowsOf(st'.instances, i)| <= |RowsOf(st.instances, i)| + if i in st'.images then 0 else 1
  }

  lemma OneMoreAttempt(st: Store, before: Store, after: Store, i: nat, n: nat)
    requires AttemptsDid(st, before, i, n) && i in before.images && AttemptDid(before, after, i)
    ensures AttemptsDid(st, after, i, n + 1)
  {
  }

  /** The first `n` attempts are all made with the image row still there. */
  ghost predicate Needed(attempt: (nat, Store) -> Store, st: Store, i: nat, n: nat) {
    forall m :: 0 <= m < n ==> i in Repeat(attempt, st, m).images
  }

  ghost predicate AlwaysDid(attempt: (nat, Store) -> Store, i: nat) {
    forall k, st :: IdsBelowSequences(st) && i in st.images ==> AttemptDid(st, attempt(k, st), i)
  }

  lemma EveryAttemptDid(i: nat, disk: nat -> (nat -> Disk), wipe: Disk)
    ensures AlwaysDid(Attempt(i, disk, wipe), i)
  {
    forall k: nat, st | IdsBelowSequences(st) && i in st.images
      ensures AttemptDid(st, Attempt(i, disk, wipe)(k, st), i)
    {
      OrderedIdsList(st.instances, st.nextInstance);
      AttemptShrinks(st, i, OrderedIds(st.instances, st.nextInstance), AttemptFaults(st, disk(k), wipe));
    }
  }

  lemma OneMoreNeeded(attempt: (nat, Store) -> Store, st: Store, before: Store, after: Store, i: nat, n: nat)
    requires AlwaysDid(attempt, i) && Needed(attempt, st, i, n) && i in before.images
    requires before == Repeat(attempt, st, n) && after == attempt(n, before) && AttemptsDid(st, before, i, n)
    ensures Needed(attempt, st, i, n + 1) && after == Repeat(attempt, st, n + 1) && AttemptsDid(st, after, i, n + 1)
  {
    OneMoreAttempt(st, before, after, i, n);
  }

  lemma {:induction false} OrderedIdsList(instances: map<nat, Instance>, n: nat)
    ensures var ids := OrderedIds(instances, n);
            Ascending(ids) && forall k :: k in ids <==> k in instances && k < n
  {
    if n == 0 {
    } else {
      OrderedIdsList(instances, n - 1);
      var init := OrderedIds(instances, n - 1);
      forall l | 0 <= l < |init| ensures init[l] < n - 1 {
        assert init[l] in init;
      }
    }
  }

  lemma AttemptShrinks(st: Store, i: nat, ids: seq<nat>, f: Faults)
    requires IdsBelowSequences(st) && Listing(st.instances, ids) && i in st.images
    requires !f.lookup && !f.image && forall x :: !f.row(x)
    ensures AttemptDid(st, Destroyed(st, i, ids, f).0, i)
  {
    DestroyLosesOnlyItsOwn(st, i, ids, f);
    var (st', reply) := Destroyed(st, i, ids, f);
    PurgeLoopKeepsIds(st, OfImage(st.instances, ids, i), f);
    Smaller(RowsOf(st'.instances, i), RowsOf(st.instances, i));
    if reply != Status(204) {
      DestroyProgresses(st, i, ids, f);
    }
  }

  lemma {:induction false} PurgeLoopKeepsIds(st: Store, todo: seq<nat>, f: Faults)
    requires IdsBelowSequences(st)
    ensures IdsBelowSequences(PurgeLoop(st, todo, f).0) && PurgeLoop(st, todo, f).0.nextInstance == st.nextInstance
    decreases |todo|
  {
    if todo == [] || f.row(todo[0]) || !f.disk(todo[0]).Works? || todo[0] !in st.volumes {
    } else {
      PurgeLoopKeepsIds(DropDisk(RemoveInstance(st, todo[0], ByImageDestroy), todo[0], f.disk(todo[0])), todo[1..], f);
    }
  }

  lemma Smaller(a: set<nat>, b: set<nat>)
    requires a <= b
    ensures |a| <= |b| && (a < b ==> |a| < |b|)
  {
    assert b == a + (b - a);
    if a < b {
      assert !(b <= a);
      var x :| x in b && x !in a;
      assert x in b - a;
    }
  }
}
