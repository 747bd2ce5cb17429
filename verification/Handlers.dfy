/** Every request handler and the cleaner, cut at each store or executor call. A thread is a
    program counter with its local variables; `Advance` is the code between two calls. */
module Handlers {
  import opened Tables

  const UPLOAD_USER := "upload"
  const MAX_ATTEMPTS := 100

  datatype Config = Config(minPort: nat, maxPort: nat)

  /** The uint16 arithmetic `minPort + uint16(rand.Intn(int(maxPort-minPort)))` can reach exactly these. */
  predicate PortReachable(c: Config, port: nat) {
    port < 65536 && (port - c.minPort) % 65536 < (c.maxPort - c.minPort) % 65536
  }

  datatype Who = Who(email: string, token: string, ip: string)

  datatype Reply =
    | Status(code: nat)
    | NoStatus   // the handler returned nil without writing a status
    | Panicked   // err.Error() on a nil error, or rand.Intn(0)

  datatype Pc =
    // POST /images
    | ImageInsert
    | ImageSubvolume(image: nat)
    // POST /images/{id}/done
    | DoneLookup(image: nat)
    | DoneFinalise(image: nat)
    | DoneMark(image: nat)
    // DELETE /images/{id}
    | PurgeLookup(image: nat, upload: bool)
    | PurgeList(image: nat)
    | PurgeRow(image: nat, todo: seq<nat>)
    | PurgeVolume(image: nat, victim: nat, todo: seq<nat>)
    | ImageDelete(image: nat)
    | ImageWipe(image: nat)
    | ImageDestroyed(image: nat)   // answered 204
    // POST /instances
    | CreateLookup(image: nat, who: Who)
    | CreatePort(image: nat, who: Who, attempts: nat)
    | CreateInsert(image: nat, who: Who, port: nat)
    | CreateVolume(id: nat, image: nat, who: Who)
    | CreateCredentials(id: nat, who: Who)
    // GET /instances/{id}
    | GetLookup(id: nat, who: Who)
    | GetCredentials(id: nat, who: Who)
    // the tail that POST, GET and DELETE on instances share
    | AddressInsert(id: nat, who: Who, code: nat)
    | Trigger(code: nat)
    // DELETE /instances/{id}
    | DestroyLookup(id: nat, email: string)
    | DestroyVolume(id: nat, email: string)
    | DestroyRow(id: nat, email: string)
    // one sweep of the cleaner
    | SweepList
    | SweepNext(todo: seq<nat>)
    | SweepVolume(id: nat, todo: seq<nat>)
    | SweepRow(id: nat, todo: seq<nat>)
    | Finished(reply: Reply)

  /** What a call answered. */
  datatype Outcome =
    | Done                   // success
    | Failed                 // error, nothing changed
    | HalfDone               // executor error after the disk had already changed
    | Rejected               // foreign-key violation, or an invalid_grant lookup
    | NewRow(id: nat)        // successful insert
    | Drew(port: nat)        // random draw followed by a successful List
    | Rows(ids: seq<nat>)    // List result

  datatype Move = Blocked | Move(pc: Pc, effect: Effect)

  function Answer(code: nat): Move {
    Move(Finished(Status(code)), Nothing)
  }

  /** The listed instances of one image, in listing order. */
  function OfImage(instances: map<nat, Instance>, ids: seq<nat>, image: nat): seq<nat> {
    if ids == [] then []
    else if ids[0] in instances && instances[ids[0]].image == image
    then [ids[0]] + OfImage(instances, ids[1..], image)
    else OfImage(instances, ids[1..], image)
  }

  /** The listed instances with a refresh token, in listing order. */
  function WithToken(instances: map<nat, Instance>, ids: seq<nat>): seq<nat> {
    if ids == [] then []
    else if ids[0] in instances && instances[ids[0]].token != ""
    then [ids[0]] + WithToken(instances, ids[1..])
    else WithToken(instances, ids[1..])
  }

  ghost function AdvanceImage(st: Store, pc: Pc, o: Outcome): Move {
    match pc
    case ImageInsert =>
      if o.NewRow? && o.id >= st.nextImage then Move(ImageSubvolume(o.id), InsertImage(o.id))
      else if o.Failed? then Answer(500) else Blocked
    case ImageSubvolume(_) =>
      if o.Done? then Answer(201) else if o.Failed? then Answer(500) else Blocked
    case DoneLookup(i) =>
      if o.Done? && i in st.images
      then if st.images[i] then Answer(200) else Move(DoneFinalise(i), Nothing)
      else if o.Done? || o.Failed? then Answer(404) else Blocked
    case DoneFinalise(i) =>
      if o.Done? then Move(DoneMark(i), TakeSnapshot(i))
      else if o.HalfDone? then Move(Finished(Status(500)), TakeSnapshot(i))
      else if o.Failed? then Answer(500) else Blocked
    case DoneMark(i) =>
      if o.Done? && i in st.images && !st.images[i] then Move(Finished(Status(200)), SetReady(i))
      else if o.Failed? then Answer(500) else Blocked
    case _ => Blocked
  }

  ghost function AdvancePurge(st: Store, pc: Pc, o: Outcome): Move {
    match pc
    case PurgeLookup(i, upload) =>
      if o.Done? && i in st.images then Move(if upload then PurgeList(i) else ImageDelete(i), Nothing)
      else if o.Done? || o.Failed? then Answer(404) else Blocked
    case PurgeList(i) =>  // the List error is ignored
      if o.Rows? && ListingPrefix(st.instances, o.ids)
      then Move(PurgeRow(i, OfImage(st.instances, o.ids, i)), Nothing) else Blocked
    case PurgeRow(i, todo) =>
      if todo == [] then (if o.Done? then Move(ImageDelete(i), Nothing) else Blocked)
      else if o.Done? then Move(PurgeVolume(i, todo[0], todo[1..]), DeleteInstance(todo[0], ByImageDestroy))
      else if o.Failed? then Answer(500) else Blocked
    case PurgeVolume(i, x, todo) =>
      if o.Done? && x in st.volumes then Move(PurgeRow(i, todo), DropVolume(x))
      else if o.HalfDone? then Move(Finished(Status(500)), DropVolume(x))
      else if o.Failed? then Answer(500) else Blocked
    case ImageDelete(i) =>
      if o.Done? && !ImageInUse(st.instances, i) then Move(ImageWipe(i), DeleteImage(i))
      else if o.Rejected? && ImageInUse(st.instances, i) then Answer(422)
      else if o.Failed? then Move(Finished(NoStatus), Nothing) else Blocked
    case ImageWipe(i) =>
      if o.Done? then Move(ImageDestroyed(i), DropSnapshot(i))
      else if o.HalfDone? then Move(Finished(Status(500)), DropSnapshot(i))
      else if o.Failed? then Answer(500) else Blocked
    case _ => Blocked
  }

  ghost function AdvanceCreate(c: Config, st: Store, pc: Pc, o: Outcome): Move {
    match pc
    case CreateLookup(i, who) =>
      if o.Done? && i in st.images
      then if st.images[i] then Move(CreatePort(i, who, 0), Nothing) else Answer(422)
      else if o.Done? || o.Failed? then Answer(404) else Blocked
    case CreatePort(i, who, attempts) =>
      if attempts + 1 >= MAX_ATTEMPTS then (if o.Failed? then Answer(500) else Blocked)
      else if o.Drew? && PortReachable(c, o.port)
      then if PortTaken(st.instances, o.port) then Move(CreatePort(i, who, attempts + 1), Nothing)
           else Move(CreateInsert(i, who, o.port), Nothing)
      else if o.Done? && (c.maxPort - c.minPort) % 65536 == 0 then Move(Finished(Panicked), Nothing)  // rand.Intn(0)
      else if o.Failed? then Answer(500) else Blocked
    case CreateInsert(i, who, port) =>
      if o.NewRow? && o.id >= st.nextInstance && i in st.images
      then Move(CreateVolume(o.id, i, who), InsertInstance(o.id, Instance(i, port, who.email, who.token), who.ip))
      else if o.Rejected? && i !in st.images then Move(Finished(Panicked), Nothing)
      else if o.Failed? then Move(Finished(NoStatus), Nothing) else Blocked
    case CreateVolume(id, i, who) =>
      if o.Done? && i in st.snapshots then Move(CreateCredentials(id, who), FinishBuild(id, true))
      else if o.HalfDone? && i in st.snapshots then Move(Finished(Status(500)), FinishBuild(id, true))
      else if o.Failed? then Move(Finished(Status(500)), FinishBuild(id, false)) else Blocked
    case CreateCredentials(id, who) =>
      if o.Done? then Move(AddressInsert(id, who, 201), Nothing)
      else if o.Failed? then Answer(500) else Blocked
    case _ => Blocked
  }

  ghost function AdvanceInstance(st: Store, pc: Pc, o: Outcome): Move {
    match pc
    case GetLookup(id, who) =>
      if o.Done? && id in st.instances && st.instances[id].email == who.email
      then Move(GetCredentials(id, who), RecordVisit(Visit(id, who.email, who.ip)))
      else if o.Done? || o.Failed? then Answer(404) else Blocked
    case GetCredentials(id, who) =>
      if o.Done? then Move(AddressInsert(id, who, 200), Nothing)
      else if o.Failed? then Answer(500) else Blocked
    case AddressInsert(id, who, code) =>
      if o.Done? && id in st.instances then Move(Trigger(code), UpsertAddress(who.ip, id))
      else if o.Failed? || (o.Rejected? && id !in st.instances) then Answer(500) else Blocked
    case Trigger(code) =>  // a send on a full channel blocks
      if o.Done? && st.queue < QUEUE_CAPACITY then Move(Finished(Status(code)), Enqueue) else Blocked
    case DestroyLookup(id, email) =>
      if o.Done? && id in st.instances && (email == UPLOAD_USER || email == st.instances[id].email)
      then Move(DestroyVolume(id, email), Nothing)
      else if o.Done? || o.Failed? then Answer(404) else Blocked
    case DestroyVolume(id, email) =>
      if o.Done? && id in st.volumes then Move(DestroyRow(id, email), DropVolume(id))
      else if o.HalfDone? then Move(Finished(Status(500)), DropVolume(id))
      else if o.Failed? then Answer(500) else Blocked
    case DestroyRow(id, _) =>
      if o.Done? then Move(Trigger(204), DeleteInstance(id, ByOwner))
      else if o.Failed? then Answer(500) else Blocked
    case _ => Blocked
  }

  ghost function AdvanceSweep(st: Store, pc: Pc, o: Outcome): Move {
    match pc
    case SweepList =>
      if o.Rows? && Listing(st.instances, o.ids) then Move(SweepNext(WithToken(st.instances, o.ids)), Nothing)
      else if o.Failed? then Move(Finished(NoStatus), Nothing) else Blocked
    case SweepNext(todo) =>  // Done: the token is valid, Failed: validity undetermined
      if todo == [] then Move(Finished(NoStatus), Nothing)
      else if o.Rejected? then Move(SweepVolume(todo[0], todo[1..]), Nothing)
      else if o.Done? || o.Failed? then Move(SweepNext(todo[1..]), Nothing) else Blocked
    case SweepVolume(id, todo) =>
      if o.Done? && id in st.volumes then Move(SweepRow(id, todo), DropVolume(id))
      else if o.HalfDone? then Move(SweepNext(todo), DropVolume(id))
      else if o.Failed? then Move(SweepNext(todo), Nothing) else Blocked
    case SweepRow(id, todo) =>
      if o.Done? then Move(SweepNext(todo), DeleteInstance(id, ByCleaner))
      else if o.Failed? then Move(SweepNext(todo), Nothing) else Blocked
    case _ => Blocked
  }

  /** A program counter at which a request, or a sweep, starts. */
  predicate IsEntry(pc: Pc) {
    pc.ImageInsert? || pc.DoneLookup? || pc.PurgeLookup? || pc.CreateLookup? || pc.GetLookup? ||
    pc.DestroyLookup? || pc.SweepList?
  }

  predicate IsImage(pc: Pc) {
    pc.ImageInsert? || pc.ImageSubvolume? || pc.DoneLookup? || pc.DoneFinalise? || pc.DoneMark?
  }

  predicate IsPurge(pc: Pc) {
    pc.PurgeLookup? || pc.PurgeList? || pc.PurgeRow? || pc.PurgeVolume? || pc.ImageDelete? || pc.ImageWipe?
  }

  predicate IsCreate(pc: Pc) {
    pc.CreateLookup? || pc.CreatePort? || pc.CreateInsert? || pc.CreateVolume? || pc.CreateCredentials?
  }

  predicate IsSweep(pc: Pc) {
    pc.SweepList? || pc.SweepNext? || pc.SweepVolume? || pc.SweepRow?
  }

  /** One call by a thread at `pc`, answered with `o`. */
  ghost function Advance(c: Config, st: Store, pc: Pc, o: Outcome): Move {
    if IsImage(pc) then AdvanceImage(st, pc, o)
    else if IsPurge(pc) then AdvancePurge(st, pc, o)
    else if IsCreate(pc) then AdvanceCreate(c, st, pc, o)
    else if IsSweep(pc) then AdvanceSweep(st, pc, o)
    else AdvanceInstance(st, pc, o)
  }
}
