/** What each request answers when it runs alone: with nothing failing, which reply it gives and what
    it leaves behind. */
module Replies {
  import opened Tables
  import opened Handlers
  import opened Server
  import opened Operations

  /** The thread goes from `pc` to the reply in one call, changing nothing. */
  lemma Replies1(c: Config, t: nat, st: Store, pc: Pc, o: Outcome, reply: Reply)
    requires Advance(c, st, pc, o) == Move(Finished(reply), Nothing)
    ensures Solo(c, t, st, pc, st, Finished(reply))
  {
    SoloLast(c, t, st, pc, o, st, Finished(reply));
  }

  // ---------- Images ----------

  /** POST /images answers 201 and leaves a row that is not ready. */
  lemma UploadReplies(c: Config, t: nat, st: Store, id: nat)
    requires id >= st.nextImage
    ensures Solo(c, t, st, ImageInsert, st.(images := st.images[id := false], nextImage := id + 1),
                 Finished(Status(201)))
  {
    var st1 := st.(images := st.images[id := false], nextImage := id + 1);
    Replies1(c, t, st1, ImageSubvolume(id), Done, Status(201));
    SoloStep(c, t, st, ImageInsert, NewRow(id), st1, ImageSubvolume(id), st1, Finished(Status(201)));
  }

  /** POST /images/{i}/done answers 404 for a missing image, and otherwise 200 with the image ready;
      an image that was not ready has its snapshot. */
  lemma DoneReplies(c: Config, t: nat, st: Store, i: nat)
    ensures i !in st.images ==> Solo(c, t, st, DoneLookup(i), st, Finished(Status(404)))
    ensures i in st.images && st.images[i] ==> Solo(c, t, st, DoneLookup(i), st, Finished(Status(200)))
    ensures i in st.images && !st.images[i] ==>
              Solo(c, t, st, DoneLookup(i), st.(images := st.images[i := true], snapshots := st.snapshots + {i}),
                   Finished(Status(200)))
  {
    if i !in st.images {
      Replies1(c, t, st, DoneLookup(i), Done, Status(404));
    } else if st.images[i] {
      Replies1(c, t, st, DoneLookup(i), Done, Status(200));
    } else {
      var st1 := st.(snapshots := st.snapshots + {i});
      var st2 := st1.(images := st.images[i := true]);
      SoloLast(c, t, st1, DoneMark(i), Done, st2, Finished(Status(200)));
      SoloStep(c, t, st, DoneFinalise(i), Done, st1, DoneMark(i), st2, Finished(Status(200)));
      SoloStep(c, t, st, DoneLookup(i), Done, st, DoneFinalise(i), st2, Finished(Status(200)));
    }
  }

  /** DELETE /images/{i} by anybody but the upload user answers 404 for a missing image, 422 for one in
      use, changing nothing, and otherwise 204 with the row and the snapshot gone. */
  lemma OthersDestroyReplies(c: Config, t: nat, st: Store, i: nat)
    ensures i !in st.images ==> Solo(c, t, st, PurgeLookup(i, false), st, Finished(Status(404)))
    ensures i in st.images && ImageInUse(st.instances, i) ==>
              Solo(c, t, st, PurgeLookup(i, false), st, Finished(Status(422)))
    ensures i in st.images && !ImageInUse(st.instances, i) ==>
              Solo(c, t, st, PurgeLookup(i, false), st.(images := st.images - {i}, snapshots := st.snapshots - {i}),
                   ImageDestroyed(i))
  {
    if i !in st.images {
      Replies1(c, t, st, PurgeLookup(i, false), Done, Status(404));
    } else if ImageInUse(st.instances, i) {
      Replies1(c, t, st, ImageDelete(i), Rejected, Status(422));
      SoloStep(c, t, st, PurgeLookup(i, false), Done, st, ImageDelete(i), st, Finished(Status(422)));
    } else {
      var st1 := st.(images := st.images - {i});
      var st2 := st1.(snapshots := st.snapshots - {i});
      SoloLast(c, t, st1, ImageWipe(i), Done, st2, ImageDestroyed(i));
      SoloStep(c, t, st, ImageDelete(i), Done, st1, ImageWipe(i), st2, ImageDestroyed(i));
      SoloStep(c, t, st, PurgeLookup(i, false), Done, st, ImageDelete(i), st2, ImageDestroyed(i));
    }
  }

  /** No call fails. */
  predicate Healthy(os: seq<Outcome>) {
    forall k :: 0 <= k < |os| ==> !os[k].Failed? && !os[k].HalfDone?
  }

  /** And with the image in use and no call failing, 422 with nothing changed is the only way it can end. */
  lemma InUseAlwaysRefused(c: Config, t: nat, st: Store, i: nat, os: seq<Outcome>, st': Store, pc': Pc)
    requires i in st.images && ImageInUse(st.instances, i) && Healthy(os)
    requires Drives(c, t, st, PurgeLookup(i, false), os, st', pc') && (pc'.Finished? || pc'.ImageDestroyed?)
    ensures st' == st && pc' == Finished(Status(422))
  {
    var m := Advance(c, st, PurgeLookup(i, false), os[0]);
    assert m == Move(ImageDelete(i), Nothing);
    InUseDeleteRefused(c, t, st, i, os[1..], st', pc');
  }

  lemma InUseDeleteRefused(c: Config, t: nat, st: Store, i: nat, os: seq<Outcome>, st': Store, pc': Pc)
    requires ImageInUse(st.instances, i) && Healthy(os)
    requires Drives(c, t, st, ImageDelete(i), os, st', pc') && (pc'.Finished? || pc'.ImageDestroyed?)
    ensures st' == st && pc' == Finished(Status(422))
  {
    assert os != [];
    var m := Advance(c, st, ImageDelete(i), os[0]);
    assert m == Move(Finished(Status(422)), Nothing);
    FinishedStays(c, t, st, Status(422), os[1..], st', pc');
  }

  /** A request that has answered makes no call. */
  lemma FinishedStays(c: Config, t: nat, st: Store, reply: Reply, os: seq<Outcome>, st': Store, pc': Pc)
    requires Drives(c, t, st, Finished(reply), os, st', pc')
    ensures os == [] && st' == st && pc' == Finished(reply)
  {
  }

  // ---------- Instances ----------

  /** A hundred triggers can be queued; with so many, the timer and a request that owes one wait. */
  lemma TriggerWaits(c: Config, s: State, st: Store, code: nat)
    ensures (exists s' :: Next(c, s, Tick, s')) <==> s.st.queue < 100
    ensures Advance(c, st, Trigger(code), Done).Move? <==> st.queue < 100
  {
    if s.st.queue < 100 {
      assert Next(c, s, Tick, s.(st := s.st.(queue := s.st.queue + 1)));
    }
  }

  /** What the shared tail of a create and a get leaves: the caller's address and a trigger. */
  function Whitelisted(st: Store, id: nat, who: Who): Store {
    st.(addresses := st.addresses + {AddressKey(who.ip, id)}, queue := st.queue + 1)
  }

  lemma TailReplies(c: Config, t: nat, st: Store, id: nat, who: Who, code: nat)
    requires id in st.instances && st.queue < QUEUE_CAPACITY
    ensures Solo(c, t, st, AddressInsert(id, who, code), Whitelisted(st, id, who), Finished(Status(code)))
  {
    var st1 := st.(addresses := st.addresses + {AddressKey(who.ip, id)});
    SoloLast(c, t, st1, Trigger(code), Done, Whitelisted(st, id, who), Finished(Status(code)));
    SoloStep(c, t, st, AddressInsert(id, who, code), Done, st1, Trigger(code), Whitelisted(st, id, who),
             Finished(Status(code)));
  }

  /** After the row insert and the disk creation. */
  function WithInstance(st: Store, t: nat, id: nat, row: Instance, ip: string): Store {
    Apply(Apply(st, t, InsertInstance(id, row, ip)), t, FinishBuild(id, true))
  }

  /** POST /instances on a ready image with its snapshot, a free port of the interval drawn: 201 with the
      row as asked for, its disk, the caller's address, and one more trigger. */
  lemma CreateReplies(c: Config, t: nat, st: Store, i: nat, who: Who, port: nat, id: nat) returns (st': Store)
    requires i in st.images && st.images[i] && i in st.snapshots && st.queue < QUEUE_CAPACITY
    requires PortReachable(c, port) && !PortTaken(st.instances, port) && id >= st.nextInstance
    ensures Solo(c, t, st, CreateLookup(i, who), st', Finished(Status(201)))
    ensures st'.instances == st.instances[id := Instance(i, port, who.email, who.token)]
    ensures st'.volumes == st.volumes + {id} && st'.addresses == st.addresses + {AddressKey(who.ip, id)}
    ensures st'.queue == st.queue + 1 && st'.images == st.images && st'.snapshots == st.snapshots
  {
    var st1 := WithInstance(st, t, id, Instance(i, port, who.email, who.token), who.ip);
    st' := Whitelisted(st1, id, who);
    CredentialsReply(c, t, st1, id, who);
    BuildReplies(c, t, st, i, who, port, id, st');
    ChooseReplies(c, t, st, i, who, port, st');
  }

  lemma CredentialsReply(c: Config, t: nat, st: Store, id: nat, who: Who)
    requires id in st.instances && st.queue < QUEUE_CAPACITY
    ensures Solo(c, t, st, CreateCredentials(id, who), Whitelisted(st, id, who), Finished(Status(201)))
  {
    TailReplies(c, t, st, id, who, 201);
    SoloStep(c, t, st, CreateCredentials(id, who), Done, st, AddressInsert(id, who, 201), Whitelisted(st, id, who),
             Finished(Status(201)));
  }

  lemma ChooseReplies(c: Config, t: nat, st: Store, i: nat, who: Who, port: nat, st': Store)
    requires i in st.images && st.images[i] && PortReachable(c, port) && !PortTaken(st.instances, port)
    requires Solo(c, t, st, CreateInsert(i, who, port), st', Finished(Status(201)))
    ensures Solo(c, t, st, CreateLookup(i, who), st', Finished(Status(201)))
  {
    SoloStep(c, t, st, CreatePort(i, who, 0), Drew(port), st, CreateInsert(i, who, port), st', Finished(Status(201)));
    SoloStep(c, t, st, CreateLookup(i, who), Done, st, CreatePort(i, who, 0), st', Finished(Status(201)));
  }

  lemma BuildReplies(c: Config, t: nat, st: Store, i: nat, who: Who, port: nat, id: nat, st': Store)
    requires i in st.images && i in st.snapshots && id >= st.nextInstance
    requires var st1 := WithInstance(st, t, id, Instance(i, port, who.email, who.token), who.ip);
             Solo(c, t, st1, CreateCredentials(id, who), st', Finished(Status(201)))
    ensures Solo(c, t, st, CreateInsert(i, who, port), st', Finished(Status(201)))
  {
    var row := Instance(i, port, who.email, who.token);
    var st0 := Apply(st, t, InsertInstance(id, row, who.ip));
    SoloStep(c, t, st0, CreateVolume(id, i, who), Done, WithInstance(st, t, id, row, who.ip),
             CreateCredentials(id, who), st', Finished(Status(201)));
    SoloStep(c, t, st, CreateInsert(i, who, port), NewRow(id), st0, CreateVolume(id, i, who), st',
             Finished(Status(201)));
  }

  /** Otherwise 404 for a missing image, and 422 for one that is not ready. */
  lemma CreateRefused(c: Config, t: nat, st: Store, i: nat, who: Who)
    ensures i !in st.images ==> Solo(c, t, st, CreateLookup(i, who), st, Finished(Status(404)))
    ensures i in st.images && !st.images[i] ==> Solo(c, t, st, CreateLookup(i, who), st, Finished(Status(422)))
  {
    if i !in st.images {
      Replies1(c, t, st, CreateLookup(i, who), Done, Status(404));
    } else if !st.images[i] {
      Replies1(c, t, st, CreateLookup(i, who), Done, Status(422));
    }
  }

  /** A row insert that fails answers nothing, and one that finds the image gone panics: the error the
      handler looks at is not the store's. */
  lemma InsertFails(c: Config, t: nat, st: Store, i: nat, who: Who, port: nat)
    ensures Solo(c, t, st, CreateInsert(i, who, port), st, Finished(NoStatus))
    ensures i !in st.images ==> Solo(c, t, st, CreateInsert(i, who, port), st, Finished(Panicked))
  {
    Replies1(c, t, st, CreateInsert(i, who, port), Failed, NoStatus);
    if i !in st.images {
      Replies1(c, t, st, CreateInsert(i, who, port), Rejected, Panicked);
    }
  }

  /** GET /instances/{id} answers its owner 200, with the caller's address and one more trigger, and
      anybody else 404. */
  lemma GetReplies(c: Config, t: nat, st: Store, id: nat, who: Who)
    requires st.queue < QUEUE_CAPACITY
    ensures if id in st.instances && st.instances[id].email == who.email
            then Solo(c, t, st, GetLookup(id, who),
                      Whitelisted(st.(visits := st.visits + {Visit(id, who.email, who.ip)}), id, who),
                      Finished(Status(200)))
            else Solo(c, t, st, GetLookup(id, who), st, Finished(Status(404)))
  {
    if id in st.instances && st.instances[id].email == who.email {
      var st1 := st.(visits := st.visits + {Visit(id, who.email, who.ip)});
      var st2, end := Whitelisted(st1, id, who), Finished(Status(200));
      TailReplies(c, t, st1, id, who, 200);
      SoloStep(c, t, st1, GetCredentials(id, who), Done, st1, AddressInsert(id, who, 200), st2, end);
      SoloStep(c, t, st, GetLookup(id, who), Done, st1, GetCredentials(id, who), st2, end);
    } else {
      Replies1(c, t, st, GetLookup(id, who), Done, Status(404));
    }
  }

  /** The upload user and the owner may delete an instance. */
  predicate MayDelete(st: Store, id: nat, email: string) {
    id in st.instances && (email == "upload" || email == st.instances[id].email)
  }

  /** DELETE /instances/{id} by the owner or the upload user answers 204 with the disk, the row and its
      addresses gone, and one more trigger; anybody else gets 404. */
  lemma DeleteReplies(c: Config, t: nat, st: Store, id: nat, email: string)
    requires st.queue < QUEUE_CAPACITY
    ensures MayDelete(st, id, email) && id in st.volumes ==>
              Solo(c, t, st, DestroyLookup(id, email),
                   st.(volumes := st.volumes - {id}, instances := st.instances - {id},
                       addresses := (set k | k in st.addresses && k.instance != id), queue := st.queue + 1),
                   Finished(Status(204)))
    ensures !MayDelete(st, id, email) ==> Solo(c, t, st, DestroyLookup(id, email), st, Finished(Status(404)))
  {
    if !MayDelete(st, id, email) {
      Replies1(c, t, st, DestroyLookup(id, email), Done, Status(404));
    } else if id in st.volumes {
      var st1, end := st.(volumes := st.volumes - {id}), Finished(Status(204));
      var st2 := RemoveInstance(st1, id, ByOwner).(queue := st.queue + 1);
      DiskReplies(c, t, st, id, email);
      SoloStep(c, t, st, DestroyLookup(id, email), Done, st, DestroyVolume(id, email), st2, end);
    }
  }

  lemma DiskReplies(c: Config, t: nat, st: Store, id: nat, email: string)
    requires id in st.volumes && st.queue < QUEUE_CAPACITY
    ensures var st1 := st.(volumes := st.volumes - {id});
            Solo(c, t, st, DestroyVolume(id, email), RemoveInstance(st1, id, ByOwner).(queue := st.queue + 1),
                 Finished(Status(204)))
  {
    var st1 := st.(volumes := st.volumes - {id});
    RowReplies(c, t, st1, id, email);
    SoloStep(c, t, st, DestroyVolume(id, email), Done, st1, DestroyRow(id, email),
             RemoveInstance(st1, id, ByOwner).(queue := st.queue + 1), Finished(Status(204)));
  }

  lemma RowReplies(c: Config, t: nat, st: Store, id: nat, email: string)
    requires st.queue < QUEUE_CAPACITY
    ensures Solo(c, t, st, DestroyRow(id, email), RemoveInstance(st, id, ByOwner).(queue := st.queue + 1),
                 Finished(Status(204)))
  {
    var st1, end := RemoveInstance(st, id, ByOwner), Finished(Status(204));
    SoloLast(c, t, st1, Trigger(204), Done, st1.(queue := st.queue + 1), end);
    SoloStep(c, t, st, DestroyRow(id, email), Done, st1, Trigger(204), st1.(queue := st.queue + 1), end);
  }
}
