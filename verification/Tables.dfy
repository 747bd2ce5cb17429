/** The shared state every actor of the server reads and writes: the Postgres tables with
    the constraints of structure.sql, the btrfs subvolumes on disk, and the trigger queue.
    Each store or executor call is one `Effect`, and `Apply` says what it does. */
module Tables {

  /** One row of the instances table; the row id is the map key. Rows are never updated. */
  datatype Instance = Instance(image: nat, port: nat, email: string, token: string)

  /** One whitelist rule: this address may open connections to this port, for this user. */
  datatype RuleEntry = RuleEntry(ip: string, port: nat, email: string)

  /** History: the authenticated user `email` made a create or get request for `instance` from `ip`. */
  datatype Visit = Visit(instance: nat, email: string, ip: string)

  /** A row of whitelisted_addresses is its primary key (ip_address, instance_id). */
  datatype AddressKey = AddressKey(ip: string, instance: nat)

  datatype Store = Store(
    images: map<nat, bool>,            // image id -> ready
    nextImage: nat,                    // images_id_seq: every id handed out so far is smaller
    instances: map<nat, Instance>,
    nextInstance: nat,                 // instances_id_seq
    addresses: set<AddressKey>,
    snapshots: set<nat>,               // image_snapshots/<id> subvolumes
    volumes: set<nat>,                 // instances/<id> subvolumes
    queue: nat,                        // length of the reconcileTrigger channel
    // History, read by no step:
    building: map<nat, nat>,           // row inserted, disk creation not yet attempted -> the thread
    purged: set<nat>,                  // rows deleted by an upload-user image destroy
    silent: set<RuleEntry>,            // rules whose rows went without a trigger since the last List
    visits: set<Visit>
  )

  const QUEUE_CAPACITY: nat := 100

  /** Who deletes an instance row. Only the owner's route triggers a reconcile afterwards. */
  datatype Deleter = ByOwner | ByCleaner | ByImageDestroy

  datatype Effect =
    | Nothing
    | InsertImage(id: nat)
    | SetReady(id: nat)
    | DeleteImage(id: nat)
    | TakeSnapshot(id: nat)
    | DropSnapshot(id: nat)
    | InsertInstance(id: nat, row: Instance, ip: string)
    | FinishBuild(id: nat, made: bool)
    | DropVolume(id: nat)
    | DeleteInstance(id: nat, agent: Deleter)
    | RecordVisit(visit: Visit)
    | UpsertAddress(ip: string, id: nat)
    | Enqueue

  function RuleFor(instances: map<nat, Instance>, k: AddressKey): RuleEntry
    requires k.instance in instances
  {
    RuleEntry(k.ip, instances[k.instance].port, instances[k.instance].email)
  }

  /** The rules the tables ask for: whitelisted_addresses joined with instances. */
  function Wanted(st: Store): set<RuleEntry> {
    set k | k in st.addresses && k.instance in st.instances :: RuleFor(st.instances, k)
  }

  function RulesOfInstance(st: Store, id: nat): set<RuleEntry> {
    set k | k in st.addresses && k.instance in st.instances && k.instance == id :: RuleFor(st.instances, k)
  }

  /** Deleting an instance row cascades to its whitelisted addresses; deleting a missing row succeeds. */
  function RemoveInstance(st: Store, id: nat, agent: Deleter): Store {
    st.(instances := st.instances - {id},
        addresses := (set k | k in st.addresses && k.instance != id),
        silent := if agent.ByOwner? then st.silent else st.silent + RulesOfInstance(st, id),
        purged := if agent.ByImageDestroy? && id in st.instances then st.purged + {id} else st.purged)
  }

  /** The effect `e` of one call made by thread `t`. */
  function Apply(st: Store, t: nat, e: Effect): Store {
    match e
    case Nothing => st
    case InsertImage(id) => st.(images := st.images[id := false], nextImage := id + 1)
    case SetReady(id) => st.(images := st.images[id := true])
    case DeleteImage(id) => st.(images := st.images - {id})
    case TakeSnapshot(id) => st.(snapshots := st.snapshots + {id})
    case DropSnapshot(id) => st.(snapshots := st.snapshots - {id})
    case InsertInstance(id, row, ip) =>
      st.(instances := st.instances[id := row], nextInstance := id + 1,
          building := st.building[id := t], visits := st.visits + {Visit(id, row.email, ip)})
    case FinishBuild(id, made) =>
      st.(building := st.building - {id}, volumes := if made then st.volumes + {id} else st.volumes)
    case DropVolume(id) => st.(volumes := st.volumes - {id})
    case DeleteInstance(id, agent) => RemoveInstance(st, id, agent)
    case RecordVisit(v) => st.(visits := st.visits + {v})
    case UpsertAddress(ip, id) => st.(addresses := st.addresses + {AddressKey(ip, id)})
    case Enqueue => st.(queue := st.queue + 1)
  }

  /** `ORDER BY id ASC`, cut anywhere: what a List returns, whole or up to a scan error. */
  ghost predicate ListingPrefix(instances: map<nat, Instance>, ids: seq<nat>) {
    && (forall i, j :: 0 <= i < j < |ids| ==> ids[i] < ids[j])
    && (forall i :: 0 <= i < |ids| ==> ids[i] in instances)
    && (forall k, i :: k in instances && 0 <= i < |ids| && k < ids[i] ==> k in ids)
  }

  /** The complete listing. */
  ghost predicate Listing(instances: map<nat, Instance>, ids: seq<nat>) {
    && ListingPrefix(instances, ids)
    && (forall k :: k in instances ==> k in ids)
  }

  predicate PortTaken(instances: map<nat, Instance>, port: nat) {
    exists k :: k in instances && instances[k].port == port
  }

  predicate ImageInUse(instances: map<nat, Instance>, image: nat) {
    exists k :: k in instances && instances[k].image == image
  }
}
