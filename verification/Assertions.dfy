/** Owicki-Gries proof that every call of every handler keeps the tables and the disk
    consistent: one assertion per program counter, local correctness of each call, and
    freedom from interference by every other thread's call. */
module Assertions {
  import opened Tables
  import opened Handlers

  /** What holds of the tables and the disk in every reachable state. */
  ghost predicate StoreInv(c: Config, st: Store) {
    && IdsBelowSequences(st)
    && InstancesHaveReadyImages(st)
    && ReadyImagesHaveSnapshots(st)
    && VolumesHaveRows(st)
    && AddressesHaveVisits(st)
    && PortsReachable(c, st)
    && st.queue <= QUEUE_CAPACITY
  }

  ghost predicate IdsBelowSequences(st: Store) {
    && (forall i :: i in st.images ==> i < st.nextImage)
    && (forall i :: i in st.instances ==> i < st.nextInstance && i !in st.purged)
    && (forall i :: i in st.purged ==> i < st.nextInstance)
    && (forall i :: i in st.building ==> i < st.nextInstance)
  }

  ghost predicate InstancesHaveReadyImages(st: Store) {
    forall i :: i in st.instances ==> st.instances[i].image in st.images && st.images[st.instances[i].image]
  }

  ghost predicate ReadyImagesHaveSnapshots(st: Store) {
    forall i :: i in st.images && st.images[i] ==> i in st.snapshots
  }

  /** On-disk instances have a row, unless an upload-user image destroy deleted that row. */
  ghost predicate VolumesHaveRows(st: Store) {
    && (forall i :: i in st.volumes ==> i in st.instances || i in st.purged)
    && (forall i :: i in st.building ==> i !in st.volumes)
  }

  /** Every whitelisted address is one from which the instance's owner asked for it. */
  ghost predicate AddressesHaveVisits(st: Store) {
    forall k :: k in st.addresses ==>
      k.instance in st.instances && Visit(k.instance, st.instances[k.instance].email, k.ip) in st.visits
  }

  ghost predicate PortsReachable(c: Config, st: Store) {
    forall i :: i in st.instances ==> PortReachable(c, st.instances[i].port)
  }

  /** Image `i` is gone for good: its row is absent and its id will not be handed out again. */
  ghost predicate ImageGone(st: Store, i: nat) {
    i < st.nextImage && i !in st.images
  }

  /** Image `i` is ready, or gone for good. */
  ghost predicate ReadyOrGone(st: Store, i: nat) {
    i < st.nextImage && (i in st.images ==> st.images[i])
  }

  ghost predicate OwnedVisit(st: Store, id: nat, who: Who) {
    && id < st.nextInstance
    && Visit(id, who.email, who.ip) in st.visits
    && (id in st.instances ==> st.instances[id].email == who.email)
  }

  /** Instance `id` has no disk and no create in flight that could still make one. */
  ghost predicate Diskless(st: Store, id: nat) {
    id < st.nextInstance && id !in st.volumes && id !in st.building
  }

  /** `email` may destroy instance `id`: the upload user may, and otherwise only its owner. */
  ghost predicate Entitled(st: Store, id: nat, email: string) {
    id < st.nextInstance && (id in st.instances ==> email == UPLOAD_USER || email == st.instances[id].email)
  }

  /** The assertion attached to each program counter of thread `t`. */
  ghost predicate Holds(c: Config, st: Store, t: nat, pc: Pc) {
    match pc
    case DoneFinalise(i) => i < st.nextImage
    case DoneMark(i) => i < st.nextImage && (i in st.images ==> i in st.snapshots)
    case PurgeList(i) => i < st.nextImage
    case PurgeRow(i, _) => i < st.nextImage
    case PurgeVolume(i, _, _) => i < st.nextImage
    case ImageDelete(i) => i < st.nextImage
    case ImageWipe(i) => ImageGone(st, i)
    case ImageDestroyed(i) => ImageGone(st, i)
    case CreatePort(i, _, _) => ReadyOrGone(st, i)
    case CreateInsert(i, _, port) => ReadyOrGone(st, i) && PortReachable(c, port)
    case CreateVolume(id, _, who) =>
      && OwnedVisit(st, id, who)
      && id in st.building && st.building[id] == t
      && (id in st.instances || id in st.purged)
    case CreateCredentials(id, who) => OwnedVisit(st, id, who)
    case GetCredentials(id, who) => OwnedVisit(st, id, who)
    case AddressInsert(id, who, _) => OwnedVisit(st, id, who)
    case DestroyVolume(id, email) => Entitled(st, id, email)
    case DestroyRow(id, email) => Diskless(st, id) && Entitled(st, id, email)
    case SweepRow(id, _) => Diskless(st, id)
    case _ => true
  }

  /** What a call relies on when it takes effect: given by its assertion and the table constraints. */
  ghost predicate Justified(c: Config, st: Store, t: nat, e: Effect) {
    match e
    case InsertImage(id) => id >= st.nextImage
    case SetReady(id) => id in st.images && id in st.snapshots
    case DeleteImage(id) => id < st.nextImage && !ImageInUse(st.instances, id)
    case DropSnapshot(id) => ImageGone(st, id)
    case InsertInstance(id, row, _) =>
      id >= st.nextInstance && row.image in st.images && st.images[row.image] && PortReachable(c, row.port)
    case FinishBuild(id, _) =>
      id in st.building && st.building[id] == t && (id in st.instances || id in st.purged)
    case DeleteInstance(id, agent) => agent.ByImageDestroy? || Diskless(st, id)
    case RecordVisit(v) => v.instance < st.nextInstance
    case UpsertAddress(ip, id) =>
      id in st.instances && Visit(id, st.instances[id].email, ip) in st.visits
    case Enqueue => st.queue < QUEUE_CAPACITY
    case _ => true
  }

  lemma EffectKeepsImages(c: Config, st: Store, t: nat, e: Effect)
    requires StoreInv(c, st) && Justified(c, st, t, e)
    ensures var st' := Apply(st, t, e); InstancesHaveReadyImages(st') && ReadyImagesHaveSnapshots(st')
  {
  }

  lemma EffectKeepsVolumes(c: Config, st: Store, t: nat, e: Effect)
    requires StoreInv(c, st) && Justified(c, st, t, e)
    ensures var st' := Apply(st, t, e); IdsBelowSequences(st') && VolumesHaveRows(st')
  {
  }

  lemma EffectKeepsAddresses(c: Config, st: Store, t: nat, e: Effect)
    requires StoreInv(c, st) && Justified(c, st, t, e)
    ensures var st' := Apply(st, t, e); AddressesHaveVisits(st') && PortsReachable(c, st')
  {
  }

  /** A justified call keeps the tables and the disk consistent. */
  lemma EffectKeepsStore(c: Config, st: Store, t: nat, e: Effect)
    requires StoreInv(c, st) && Justified(c, st, t, e)
    ensures StoreInv(c, Apply(st, t, e))
  {
    EffectKeepsImages(c, st, t, e);
    EffectKeepsVolumes(c, st, t, e);
    EffectKeepsAddresses(c, st, t, e);
  }

  /** The move is justified where it starts, and establishes the assertion where it ends. */
  ghost predicate Sound(c: Config, st: Store, t: nat, m: Move) {
    m.Move? && Justified(c, st, t, m.effect) && Holds(c, Apply(st, t, m.effect), t, m.pc)
  }

  lemma ImageCallIsSound(c: Config, st: Store, t: nat, pc: Pc, o: Outcome)
    requires StoreInv(c, st) && Holds(c, st, t, pc)
    requires AdvanceImage(st, pc, o).Move?
    ensures Sound(c, st, t, AdvanceImage(st, pc, o))
  {
  }

  lemma PurgeCallIsSound(c: Config, st: Store, t: nat, pc: Pc, o: Outcome)
    requires StoreInv(c, st) && Holds(c, st, t, pc)
    requires AdvancePurge(st, pc, o).Move?
    ensures Sound(c, st, t, AdvancePurge(st, pc, o))
  {
  }

  lemma CreateCallIsSound(c: Config, st: Store, t: nat, pc: Pc, o: Outcome)
    requires StoreInv(c, st) && Holds(c, st, t, pc)
    requires AdvanceCreate(c, st, pc, o).Move?
    ensures Sound(c, st, t, AdvanceCreate(c, st, pc, o))
  {
  }

  lemma SweepCallIsSound(c: Config, st: Store, t: nat, pc: Pc, o: Outcome)
    requires StoreInv(c, st) && Holds(c, st, t, pc)
    requires AdvanceSweep(st, pc, o).Move?
    ensures Sound(c, st, t, AdvanceSweep(st, pc, o))
  {
  }

  lemma InstanceCallIsSound(c: Config, st: Store, t: nat, pc: Pc, o: Outcome)
    requires StoreInv(c, st) && Holds(c, st, t, pc)
    requires AdvanceInstance(st, pc, o).Move?
    ensures Sound(c, st, t, AdvanceInstance(st, pc, o))
  {
  }

  /** Local correctness of every call of every handler. */
  lemma CallIsSound(c: Config, st: Store, t: nat, pc: Pc, o: Outcome)
    requires StoreInv(c, st) && Holds(c, st, t, pc)
    requires Advance(c, st, pc, o).Move?
    ensures Sound(c, st, t, Advance(c, st, pc, o))
  {
    if IsImage(pc) {
      ImageCallIsSound(c, st, t, pc, o);
    } else if IsPurge(pc) {
      PurgeCallIsSound(c, st, t, pc, o);
    } else if IsCreate(pc) {
      CreateCallIsSound(c, st, t, pc, o);
    } else if IsSweep(pc) {
      SweepCallIsSound(c, st, t, pc, o);
    } else {
      InstanceCallIsSound(c, st, t, pc, o);
    }
  }

  /** Which calls make which effects, and what they lead to: what the whole-run results rely on. */
  ghost predicate Shaped(st: Store, pc: Pc, o: Outcome, m: Move) {
    && m.Move?
    // the two writes that owe a trigger lead to it
    && (pc.Trigger? ==> m.effect.Enqueue?)
    && (m.effect.UpsertAddress? || (m.effect.DeleteInstance? && m.effect.agent.ByOwner?) ==> m.pc.Trigger?)
    // a port is chosen free, and then inserted
    && (m.pc.CreateInsert? ==> pc.CreatePort? && m.effect.Nothing? && !PortTaken(st.instances, m.pc.port))
    && (m.effect.InsertInstance? ==>
          pc.CreateInsert? && o == NewRow(m.effect.id) && m.effect.ip == pc.who.ip
          && m.effect.row == Instance(pc.image, pc.port, pc.who.email, pc.who.token))
    && (m.effect.RecordVisit? ==>
          pc.GetLookup? && m.effect.visit == Visit(pc.id, pc.who.email, pc.who.ip)
          && pc.id in st.instances && st.instances[pc.id].email == pc.who.email)
    // an instance row goes after its disk, except on an image destroy
    && (m.effect.DeleteInstance? ==>
          match m.effect.agent
          case ByOwner => pc.DestroyRow? && pc.id == m.effect.id
          case ByCleaner => pc.SweepRow? && pc.id == m.effect.id
          case ByImageDestroy => pc.PurgeRow?)
    && (pc.PurgeVolume? && m.pc.PurgeRow? ==> pc.victim in st.volumes)
    // a disk is made from a snapshot that is there
    && (m.effect.FinishBuild? && m.effect.made ==> pc.CreateVolume? && pc.id == m.effect.id && pc.image in st.snapshots)
    && (m.pc.DestroyRow? || m.pc.SweepRow? ==> m.effect == DropVolume(m.pc.id) && m.pc.id in st.volumes)
    // a sweep turns to a disk only when told that the token is revoked
    && (m.pc.SweepVolume? ==> o.Rejected? && pc == SweepNext([m.pc.id] + m.pc.todo))
    && (m.pc.DoneMark? ==> pc == DoneFinalise(m.pc.image) && o.Done?)
  }

  lemma ImageCallIsShaped(st: Store, pc: Pc, o: Outcome)
    requires AdvanceImage(st, pc, o).Move?
    ensures Shaped(st, pc, o, AdvanceImage(st, pc, o))
  {
  }

  lemma PurgeCallIsShaped(st: Store, pc: Pc, o: Outcome)
    requires AdvancePurge(st, pc, o).Move?
    ensures Shaped(st, pc, o, AdvancePurge(st, pc, o))
  {
  }

  lemma CreateCallIsShaped(c: Config, st: Store, pc: Pc, o: Outcome)
    requires AdvanceCreate(c, st, pc, o).Move?
    ensures Shaped(st, pc, o, AdvanceCreate(c, st, pc, o))
  {
  }

  lemma SweepCallIsShaped(st: Store, pc: Pc, o: Outcome)
    requires AdvanceSweep(st, pc, o).Move?
    ensures Shaped(st, pc, o, AdvanceSweep(st, pc, o))
  {
  }

  lemma InstanceCallIsShaped(st: Store, pc: Pc, o: Outcome)
    requires AdvanceInstance(st, pc, o).Move?
    ensures Shaped(st, pc, o, AdvanceInstance(st, pc, o))
  {
  }

  lemma CallIsShaped(c: Config, st: Store, pc: Pc, o: Outcome)
    requires Advance(c, st, pc, o).Move?
    ensures Shaped(st, pc, o, Advance(c, st, pc, o))
  {
    if IsImage(pc) {
      ImageCallIsShaped(st, pc, o);
    } else if IsPurge(pc) {
      PurgeCallIsShaped(st, pc, o);
    } else if IsCreate(pc) {
      CreateCallIsShaped(c, st, pc, o);
    } else if IsSweep(pc) {
      SweepCallIsShaped(st, pc, o);
    } else {
      InstanceCallIsShaped(st, pc, o);
    }
  }

  /** Interference freedom: no other thread's justified call breaks an assertion. */
  lemma EffectKeepsOthers(c: Config, st: Store, t: nat, e: Effect, u: nat, pc: Pc)
    requires StoreInv(c, st) && Justified(c, st, t, e)
    requires t != u && Holds(c, st, u, pc)
    ensures Holds(c, Apply(st, t, e), u, pc)
  {
  }
}
