/** OTA delivery targets: the durable outbox rows and every statement that changes them. */
module OtaTargets {
  import opened Bytes

  type Id = nat

  const MAX_OTA_TARGETS := 1000
  const EXPIRY_BATCH_SIZE := 1000
  const STALL_CODE := -7
  const DEFAULT_FAILURE := -5

  datatype State = Pending | Leased | Delivered | Delivering | Downloaded | Installed | Expired | Completed | Failed

  datatype Target = Target(
    job: Id,
    device: Id,
    state: State,
    leaseExpiresAt: Option<int>,
    deliveredAt: Option<int>,
    confirmedAt: Option<int>,
    installedAt: Option<int>,
    resultCode: Option<int>,
    resultMessage: Option<string>,
    availableAt: int,
    expiresAt: int,
    createdAt: int
  )

  datatype Release = Release(project: Id, artifact: Option<Id>, binHash: string)

  /**
   * `jobs` maps a job to its release, `artifacts` an ELF artifact to its build id, `devices` a device to its project,
   * `uids` the name a device goes by to the device, and `firmware` a device to the hash it last reported.
   */
  datatype Db = Db(
    targets: map<Id, Target>,
    jobs: map<Id, Id>,
    releases: map<Id, Release>,
    artifacts: map<Id, string>,
    devices: map<Id, Id>,
    uids: map<Id, Id>,
    firmware: map<Id, string>
  )

  type Targets = map<Id, Target>

  // --- Release identity ----------------------------------------------------

  /**
   * The artifact's build id when the release has an artifact, its bin hash otherwise; the two rows are read in
   * turn.
   */
  function ExpectedFrom(first: Db, second: Db, release: Id): Option<string> {
    if release !in first.releases then None
    else
      var r := first.releases[release];
      if r.artifact.None? then Some(r.binHash)
      else if r.artifact.value in second.artifacts then Some(second.artifacts[r.artifact.value])
      else None
  }

  function ExpectedFirmware(db: Db, release: Id): Option<string> { ExpectedFrom(db, db, release) }

  /** The creation fast path: a device already runs the release. */
  predicate FastPathMatches(db: Db, release: Id, hash: string) {
    var expected := ExpectedFirmware(db, release);
    expected.Some? && expected.value != "" && expected.value == hash
  }

  /** The devices found to run a release already: its identity is read first, what the devices reported after that. */
  function RunningAt(first: Db, second: Db, third: Db, release: Id, devices: set<Id>): set<Id> {
    var expected := ExpectedFrom(first, second, release);
    if expected.None? || expected.value == "" then {}
    else set d | d in devices && d in third.firmware && third.firmware[d] == expected.value
  }

  /** The joins and comparison of the stat confirmation. */
  predicate ConfirmMatches(db: Db, release: Id, hash: string) {
    && release in db.releases
    && var r := db.releases[release];
       var joined := r.artifact.Some? && r.artifact.value in db.artifacts;
       (joined && db.artifacts[r.artifact.value] == hash) || (!joined && r.binHash == hash)
  }

  /** A release that names an artifact which is not there; the foreign key rules this out. */
  predicate Dangling(db: Db, release: Id) {
    && release in db.releases
    && db.releases[release].artifact.Some? && db.releases[release].artifact.value !in db.artifacts
  }

  /** The two rules are one rule exactly when no artifact reference dangles and the identity is not the empty string. */
  lemma SameRule(db: Db, release: Id)
    requires release in db.releases
    ensures (forall hash :: FastPathMatches(db, release, hash) <==> ConfirmMatches(db, release, hash))
       <==> !Dangling(db, release) && ExpectedFirmware(db, release) != Some("")
  {
    var r := db.releases[release];
    if Dangling(db, release) {
      assert ConfirmMatches(db, release, r.binHash) && !FastPathMatches(db, release, r.binHash);
    } else if ExpectedFirmware(db, release) == Some("") {
      assert ConfirmMatches(db, release, "") && !FastPathMatches(db, release, "");
    }
  }

  // --- Row updates ---------------------------------------------------------

  predicate Expirable(t: Target, now: int) {
    t.expiresAt < now
    && (t.state == Pending || (t.state == Leased && t.leaseExpiresAt.Some? && t.leaseExpiresAt.value <= now))
  }

  predicate Stalled(t: Target, now: int, window: int) {
    t.state in {Delivered, Delivering, Downloaded} && t.deliveredAt.Some? && t.deliveredAt.value < now - window
  }

  predicate Leasable(t: Target, now: int) {
    t.availableAt <= now && t.expiresAt > now
    && (t.state == Pending || (t.state == Leased && t.leaseExpiresAt.Some? && t.leaseExpiresAt.value <= now))
  }

  function Expire(t: Target, now: int): Target {
    if Expirable(t, now) then t.(state := Expired, leaseExpiresAt := None) else t
  }

  function Stall(t: Target, now: int, window: int): Target {
    if Stalled(t, now, window)
    then t.(state := Failed, confirmedAt := Some(now), resultCode := Some(STALL_CODE),
            resultMessage := Some("download window timeout"))
    else t
  }

  function Lease(t: Target, now: int, until: int): Target {
    if Leasable(t, now) then t.(state := Leased, leaseExpiresAt := Some(until)) else t
  }

  function Deliver(t: Target, now: int): Target {
    if t.state == Leased then t.(state := Delivered, deliveredAt := Some(now), leaseExpiresAt := None) else t
  }

  function GiveBack(t: Target, availableAt: int): Target {
    if t.state == Leased then t.(state := Pending, leaseExpiresAt := None, availableAt := availableAt) else t
  }

  function StartDownload(t: Target): Target {
    if t.state == Delivered then t.(state := Delivering) else t
  }

  datatype Ack = AckDownloaded | AckInstalled | AckFailed

  function Acknowledge(t: Target, ack: Ack, code: int, message: Option<string>, now: int): Target {
    match ack
    case AckFailed =>
      if t.state in {Delivered, Delivering, Downloaded}
      then t.(state := Failed, confirmedAt := Some(now),
              resultCode := Some(if code < 0 then code else DEFAULT_FAILURE), resultMessage := message)
      else t
    case AckInstalled =>
      if t.state in {Delivered, Delivering, Downloaded} then t.(state := Installed, installedAt := Some(now)) else t
    case AckDownloaded =>
      if t.state in {Delivered, Delivering} then t.(state := Downloaded) else t
  }

  function Confirm(t: Target, now: int): Target {
    if t.state in {Delivered, Delivering, Downloaded, Installed}
    then t.(state := Completed, confirmedAt := Some(now), resultCode := Some(0)) else t
  }

  function FreshTarget(job: Id, device: Id, running: bool, now: int, expiresAt: int): Target {
    if running
    then Target(job, device, Completed, None, None, Some(now), None, Some(0), None, now, expiresAt, now)
    else Target(job, device, Pending, None, None, None, None, None, None, now, expiresAt, now)
  }

  // --- Statements as steps of the whole table ------------------------------

  datatype Event =
    | CreateJob(job: Id, release: Id, plan: map<Id, Id>, running: set<Id>, now: int, expiresAt: int)
    | LeaseOne(target: Id, now: int, until: int)
    | MarkDelivered(target: Id, now: int)
    | ReleaseOne(target: Id, availableAt: int)
    | MarkDelivering(job: Id, device: Id)
    | RecordResult(target: Id, release: Id, ack: Ack, code: int, message: Option<string>, now: int)
    | ConfirmFirmware(device: Id, hash: string, now: int)
    | ExpireBatch(batch: set<Id>, now: int)
    | StallBatch(batch: set<Id>, now: int, window: int)
    | ReportFirmware(device: Id, hash: string)
    | Catalogue(releases: map<Id, Release>, artifacts: map<Id, string>, devices: map<Id, Id>, uids: map<Id, Id>)

  predicate JobMatches(db: Db, job: Id, hash: string) {
    job in db.jobs && ConfirmMatches(db, db.jobs[job], hash)
  }

  /** A target for each of some devices, none twice; new keys, and rows for the foreign keys to point to. */
  predicate Creatable(db: Db, e: Event)
    requires e.CreateJob?
  {
    && e.plan != map[] && OneEach(e.plan)
    && e.job !in db.jobs && e.plan.Keys !! db.targets.Keys
    && e.release in db.releases && forall id :: id in e.plan ==> e.plan[id] in db.devices
  }

  predicate OneEach(plan: map<Id, Id>) {
    forall a, b :: a in plan && b in plan && a != b ==> plan[a] != plan[b]
  }

  /** What one statement makes of one row. */
  function Touch(db: Db, e: Event, id: Id): Target
    requires id in db.targets
  {
    var t := db.targets[id];
    match e
    case LeaseOne(target, now, until) => if id == target then Lease(t, now, until) else t
    case MarkDelivered(target, now) => if id == target then Deliver(t, now) else t
    case ReleaseOne(target, availableAt) => if id == target then GiveBack(t, availableAt) else t
    case MarkDelivering(job, device) => if t.job == job && t.device == device then StartDownload(t) else t
    case RecordResult(target, release, ack, code, message, now) =>
      if id == target && t.job in db.jobs && db.jobs[t.job] == release
      then Acknowledge(t, ack, code, message, now) else t
    case ConfirmFirmware(device, hash, now) =>
      if t.device == device && JobMatches(db, t.job, hash) then Confirm(t, now) else t
    case ExpireBatch(batch, now) => if id in batch then Expire(t, now) else t
    case StallBatch(batch, now, window) => if id in batch then Stall(t, now, window) else t
    case _ => t
  }

  function Created(e: Event): Targets
    requires e.CreateJob?
  {
    map id | id in e.plan :: FreshTarget(e.job, e.plan[id], e.plan[id] in e.running, e.now, e.expiresAt)
  }

  function Step(db: Db, e: Event): Db {
    match e
    case CreateJob(job, release, plan, running, now, expiresAt) =>
      if !Creatable(db, e) then db
      else db.(jobs := db.jobs[job := release], targets := db.targets + Created(e))
    case ReportFirmware(device, hash) => db.(firmware := db.firmware[device := hash])
    case Catalogue(releases, artifacts, devices, uids) =>
      db.(releases := releases, artifacts := artifacts, devices := devices, uids := uids)
    case _ => db.(targets := map id | id in db.targets :: Touch(db, e, id))
  }

  function Run(db: Db, es: seq<Event>): Db {
    if es == [] then db else Step(Run(db, es[..|es| - 1]), es[|es| - 1])
  }

  const EMPTY := Db(map[], map[], map[], map[], map[], map[], map[])

  // --- The table's constraints ---------------------------------------------

  predicate Terminal(s: State) { s in {Completed, Failed, Expired} }

  /** The CHECK constraints of the table: lease, delivery, confirmation and result columns fit the state. */
  predicate Consistent(t: Target) {
    && (t.state == Leased <==> t.leaseExpiresAt.Some?)
    && (t.state in {Delivered, Delivering, Downloaded, Installed} ==> t.deliveredAt.Some?)
    && (t.state in {Pending, Leased, Expired} ==> t.deliveredAt.None?)
    && (t.state in {Completed, Failed} <==> t.confirmedAt.Some?)
    && (t.state == Completed ==> t.resultCode == Some(0))
    && (t.state == Failed ==> t.resultCode.Some? && t.resultCode.value < 0)
    && (t.state !in {Completed, Failed} ==> t.resultCode.None? && t.resultMessage.None?)
  }

  predicate AllConsistent(db: Db) {
    forall id :: id in db.targets ==> Consistent(db.targets[id])
  }

  function Rank(s: State): nat {
    match s
    case Pending => 0
    case Leased => 1
    case Delivered => 2
    case Delivering => 3
    case Downloaded => 4
    case Installed => 5
    case _ => 6
  }

  /** The states that one statement may leave a row in, by the state it finds it in. */
  function Successors(s: State): set<State> {
    match s
    case Pending => {Pending, Leased, Expired}
    case Leased => {Leased, Pending, Delivered, Expired}
    case Delivered => {Delivered, Delivering, Downloaded, Installed, Completed, Failed}
    case Delivering => {Delivering, Downloaded, Installed, Completed, Failed}
    case Downloaded => {Downloaded, Installed, Completed, Failed}
    case Installed => {Installed, Completed}
    case Expired => {Expired}
    case Completed => {Completed}
    case Failed => {Failed}
  }

  /** How a row may have changed: along an edge of the state graph, and not at all once terminal. */
  predicate Progress(t: Target, u: Target) {
    && u.job == t.job && u.device == t.device && u.expiresAt == t.expiresAt && u.createdAt == t.createdAt
    && (Terminal(t.state) ==> u == t)
    && u.state in Successors(t.state)
  }

  lemma TouchConsistent(db: Db, e: Event, id: Id)
    requires id in db.targets && Consistent(db.targets[id])
    ensures Consistent(Touch(db, e, id)) && Progress(db.targets[id], Touch(db, e, id))
  {
  }

  lemma {:induction false} StepConsistent(db: Db, e: Event)
    requires AllConsistent(db)
    ensures AllConsistent(Step(db, e))
    ensures forall id :: id in db.targets ==>
              id in Step(db, e).targets && Progress(db.targets[id], Step(db, e).targets[id])
  {
    var after := Step(db, e);
    forall id | id in db.targets
      ensures id in after.targets && Consistent(after.targets[id]) && Progress(db.targets[id], after.targets[id])
    {
      TouchConsistent(db, e, id);
      if e.CreateJob? && Creatable(db, e) { assert id !in Created(e); }
    }
    forall id | id in after.targets && id !in db.targets ensures Consistent(after.targets[id]) {
      assert id in Created(e);
    }
  }

  // --- Every edge of the state graph is taken ------------------------------

  function RowIn(s: State): Target {
    Target(0, 0, s,
      if s == Leased then Some(3) else None,
      if s in {Delivered, Delivering, Downloaded, Installed} then Some(1) else None,
      if s in {Completed, Failed} then Some(2) else None,
      None,
      if s == Completed then Some(0) else if s == Failed then Some(-1) else None,
      None, 0, 10, 0)
  }

  /** One target of one job of a release without an artifact. */
  function OneTarget(s: State): Db {
    Db(map[0 := RowIn(s)], map[0 := 0], map[0 := Release(0, None, "hash")], map[], map[0 := 0], map[], map[])
  }

  /** A statement that takes the only target to the given state. */
  function Move(to: State): Event {
    match to
    case Pending => ReleaseOne(0, 5)
    case Leased => LeaseOne(0, 5, 7)
    case Delivered => MarkDelivered(0, 5)
    case Delivering => MarkDelivering(0, 0)
    case Downloaded => RecordResult(0, 0, AckDownloaded, 0, None, 5)
    case Installed => RecordResult(0, 0, AckInstalled, 0, None, 5)
    case Expired => ExpireBatch({0}, 20)
    case Completed => ConfirmFirmware(0, "hash", 5)
    case Failed => RecordResult(0, 0, AckFailed, -1, None, 5)
  }

  ghost predicate TakesEdge(db: Db, e: Event, id: Id, from: State, to: State) {
    && AllConsistent(db) && id in db.targets && id in Step(db, e).targets
    && db.targets[id].state == from && Step(db, e).targets[id].state == to
  }

  lemma MoveTakesEdge(from: State, to: State)
    requires to in Successors(from)
    ensures TakesEdge(OneTarget(from), if from == to then ReportFirmware(0, "") else Move(to), 0, from, to)
  {
    assert AllConsistent(OneTarget(from));
    if from != to {
      MoveTouch(from, to);
      MoveStep(OneTarget(from), to);
    }
  }

  lemma MoveTouch(from: State, to: State)
    requires to in Successors(from) && from != to
    ensures Touch(OneTarget(from), Move(to), 0).state == to
  {
    match to
    case Pending => assert from == Leased;
    case Leased => assert from == Pending;
    case Delivered => assert from == Leased;
    case Delivering => assert from == Delivered;
    case Downloaded => assert from in {Delivered, Delivering};
    case Installed => assert from in {Delivered, Delivering, Downloaded};
    case Expired => assert from in {Pending, Leased};
    case Completed => assert from in {Delivered, Delivering, Downloaded, Installed};
    case Failed => assert from in {Delivered, Delivering, Downloaded};
  }

  lemma MoveStep(db: Db, to: State)
    requires 0 in db.targets
    ensures 0 in Step(db, Move(to)).targets && Step(db, Move(to)).targets[0] == Touch(db, Move(to), 0)
  {
  }

  /** The successors of a state are exactly the states that some statement takes a consistent row to. */
  lemma EdgesExact(from: State, to: State)
    ensures to in Successors(from) <==> exists db, e, id :: TakesEdge(db, e, id, from, to)
  {
    if to in Successors(from) { MoveTakesEdge(from, to); }
    if db, e, id :| TakesEdge(db, e, id, from, to) { StepConsistent(db, e); }
  }

  // --- Runs ----------------------------------------------------------------

  /** Over every run, every row satisfies the table's CHECK constraints. */
  lemma {:induction false} RunConsistent(es: seq<Event>)
    ensures AllConsistent(Run(EMPTY, es))
  {
    if es != [] {
      RunConsistent(es[..|es| - 1]);
      StepConsistent(Run(EMPTY, es[..|es| - 1]), es[|es| - 1]);
    }
  }

  // --- Histories -----------------------------------------------------------

  /** What a row may have become after any number of statements. */
  predicate Descends(t: Target, u: Target) {
    && u.job == t.job && u.device == t.device && u.expiresAt == t.expiresAt
    && (Terminal(t.state) ==> u == t)
    && (t.state == Installed ==> u.state in {Installed, Completed})
    && (Rank(t.state) >= 2 ==> Rank(u.state) >= Rank(t.state))
  }

  /** Terminal rows never change, installed leads only to completed, and nothing past delivery goes back. */
  lemma {:induction false} RunDescends(es: seq<Event>, more: seq<Event>, id: Id)
    requires id in Run(EMPTY, es).targets
    ensures id in Run(Run(EMPTY, es), more).targets
    ensures Descends(Run(EMPTY, es).targets[id], Run(Run(EMPTY, es), more).targets[id])
    ensures AllConsistent(Run(Run(EMPTY, es), more))
    decreases |more|
  {
    RunConsistent(es);
    if more != [] {
      RunDescends(es, more[..|more| - 1], id);
      var before := Run(Run(EMPTY, es), more[..|more| - 1]);
      StepConsistent(before, more[|more| - 1]);
      DescendsStep(Run(EMPTY, es).targets[id], before.targets[id], Step(before, more[|more| - 1]).targets[id]);
    }
  }

  lemma DescendsStep(t: Target, u: Target, v: Target)
    requires Descends(t, u) && Progress(u, v)
    ensures Descends(t, v)
  {
  }

  // --- What completes a target ---------------------------------------------

  /** Every creation completes the devices that three reads, in order and before it, found to run the release. */
  ghost predicate HonestCreates(es: seq<Event>) {
    forall i :: 0 <= i < |es| && es[i].CreateJob? ==> ReadBefore(es, i)
  }

  ghost predicate ReadBefore(es: seq<Event>, i: nat)
    requires i < |es| && es[i].CreateJob?
  {
    exists j: nat, k: nat, l: nat :: j <= k <= l <= i && es[i].running == RunningIn(es, j, k, l, es[i])
  }

  function RunningIn(es: seq<Event>, j: nat, k: nat, l: nat, e: Event): set<Id>
    requires j <= |es| && k <= |es| && l <= |es| && e.CreateJob?
  {
    RunningAt(Run(EMPTY, es[..j]), Run(EMPTY, es[..k]), Run(EMPTY, es[..l]), e.release, e.plan.Values)
  }

  /**
   * When it was last looked at, the device of a target reported the identity that the release was last seen to
   * have.
   */
  ghost predicate Reported(es: seq<Event>, i: nat, device: Id, release: Id) {
    exists j: nat, k: nat, l: nat :: j <= k <= l <= i <= |es| && ReportedAt(es, j, k, l, device, release)
  }

  predicate ReportedAt(es: seq<Event>, j: nat, k: nat, l: nat, device: Id, release: Id)
    requires j <= |es| && k <= |es| && l <= |es|
  {
    var expected := ExpectedFrom(Run(EMPTY, es[..j]), Run(EMPTY, es[..k]), release);
    var db := Run(EMPTY, es[..l]);
    expected.Some? && expected.value != "" && device in db.firmware && db.firmware[device] == expected.value
  }

  /** The statement that completed a target: a creation for a device that runs the release, or a matching report. */
  ghost predicate Completes(es: seq<Event>, i: nat, id: Id)
    requires i < |es|
  {
    var db := Run(EMPTY, es[..i]);
    match es[i]
    case CreateJob(job, release, plan, _, _, _) => id in plan && Reported(es, i, plan[id], release)
    case ConfirmFirmware(device, hash, _) =>
      id in db.targets && db.targets[id].device == device && JobMatches(db, db.targets[id].job, hash)
    case _ => false
  }

  lemma StepCompletes(db: Db, e: Event, id: Id)
    requires id in Step(db, e).targets && Step(db, e).targets[id].state == Completed
    requires id in db.targets ==> db.targets[id].state != Completed
    ensures e.CreateJob? || e.ConfirmFirmware?
    ensures e.CreateJob? ==> id in e.plan && e.plan[id] in e.running
    ensures e.ConfirmFirmware? ==>
      id in db.targets && db.targets[id].device == e.device && JobMatches(db, db.targets[id].job, e.hash)
  {
  }

  lemma RunningReported(es: seq<Event>, i: nat, id: Id)
    requires i < |es| && es[i].CreateJob? && ReadBefore(es, i) && id in es[i].plan && es[i].plan[id] in es[i].running
    ensures Reported(es, i, es[i].plan[id], es[i].release)
  {
    var j: nat, k: nat, l: nat :| j <= k <= l <= i && es[i].running == RunningIn(es, j, k, l, es[i]);
    assert ReportedAt(es, j, k, l, es[i].plan[id], es[i].release);
  }

  /** Every completed target of every run was completed by a matching firmware hash. */
  lemma {:induction false} CompletedHasCause(es: seq<Event>, n: nat, id: Id) returns (i: nat)
    requires HonestCreates(es) && n <= |es|
    requires id in Run(EMPTY, es[..n]).targets && Run(EMPTY, es[..n]).targets[id].state == Completed
    ensures i < n && Completes(es, i, id)
    decreases n
  {
    assert n > 0;
    var before := Run(EMPTY, es[..n - 1]);
    assert es[..n][..n - 1] == es[..n - 1];
    if id in before.targets && before.targets[id].state == Completed {
      i := CompletedHasCause(es, n - 1, id);
    } else {
      i := n - 1;
      StepCompletes(before, es[i], id);
      if es[i].CreateJob? { RunningReported(es, i, id); }
    }
  }

  // --- What brings a target into each state, told from its columns ----------

  /** The statement took the target, as its columns were before, to what it then is. */
  predicate Caused(db: Db, e: Event, id: Id, u: Target) {
    if id !in db.targets then
      && e.CreateJob? && id in e.plan && u.job == e.job && u.device == e.plan[id] && u.expiresAt == e.expiresAt
      && u.createdAt == e.now && u.state == if e.plan[id] in e.running then Completed else Pending
    else
      var t := db.targets[id];
      match u.state
      case Pending => e.ReleaseOne? && e.target == id && t.state == Leased && u.availableAt == e.availableAt
      case Leased =>
        && e.LeaseOne? && e.target == id && t.availableAt <= e.now < t.expiresAt && u.leaseExpiresAt == Some(e.until)
        && (t.state == Pending || (t.state == Leased && t.leaseExpiresAt.Some? && t.leaseExpiresAt.value <= e.now))
      case Delivered => e.MarkDelivered? && e.target == id && t.state == Leased && u.deliveredAt == Some(e.now)
      case Delivering => e.MarkDelivering? && e.job == t.job && e.device == t.device && t.state == Delivered
      case Downloaded =>
        Acknowledged(db, e, id, AckDownloaded) && (t.state == Delivered || t.state == Delivering)
      case Installed =>
        && Acknowledged(db, e, id, AckInstalled) && u.installedAt == Some(e.now)
        && (t.state == Delivered || t.state == Delivering || t.state == Downloaded)
      case Expired =>
        && e.ExpireBatch? && id in e.batch && t.expiresAt < e.now
        && (t.state == Pending || (t.state == Leased && t.leaseExpiresAt.Some? && t.leaseExpiresAt.value <= e.now))
      case Failed =>
        && (t.state == Delivered || t.state == Delivering || t.state == Downloaded)
        && ((Acknowledged(db, e, id, AckFailed) && u.resultMessage == e.message
             && u.resultCode == Some(if e.code < 0 then e.code else -5))
            || (e.StallBatch? && id in e.batch && u.resultCode == Some(-7)
                && t.deliveredAt.Some? && t.deliveredAt.value < e.now - e.window))
      case Completed =>
        && e.ConfirmFirmware? && e.device == t.device && JobMatches(db, t.job, e.hash)
        && (t.state == Delivered || t.state == Delivering || t.state == Downloaded || t.state == Installed)
  }

  /** The device's acknowledgement names the target and the release of its job. */
  predicate Acknowledged(db: Db, e: Event, id: Id, ack: Ack)
    requires id in db.targets
  {
    e.RecordResult? && e.target == id && e.ack == ack
    && db.targets[id].job in db.jobs && db.jobs[db.targets[id].job] == e.release
  }

  lemma TouchCaused(db: Db, e: Event, id: Id)
    requires id in db.targets && Touch(db, e, id) != db.targets[id]
    ensures Caused(db, e, id, Touch(db, e, id))
  {
  }

  lemma CreateCaused(db: Db, e: Event, id: Id)
    requires id !in db.targets && id in Step(db, e).targets
    ensures Caused(db, e, id, Step(db, e).targets[id])
  {
  }

  lemma StepTouches(db: Db, e: Event, id: Id)
    requires id in db.targets
    ensures id in Step(db, e).targets && Step(db, e).targets[id] == Touch(db, e, id)
  {
  }

  /** Every row of every run is as some statement left it, and that statement's guard held on its columns. */
  lemma {:induction false} RowHasCause(es: seq<Event>, n: nat, id: Id) returns (i: nat)
    requires n <= |es| && id in Run(EMPTY, es[..n]).targets
    ensures i < n && Caused(Run(EMPTY, es[..i]), es[i], id, Run(EMPTY, es[..n]).targets[id])
    decreases n
  {
    assert n > 0;
    assert es[..n][..n - 1] == es[..n - 1];
    var before := Run(EMPTY, es[..n - 1]);
    i := n - 1;
    if id !in before.targets {
      CreateCaused(before, es[i], id);
    } else {
      StepTouches(before, es[i], id);
      if Touch(before, es[i], id) == before.targets[id] {
        i := RowHasCause(es, n - 1, id);
      } else {
        TouchCaused(before, es[i], id);
      }
    }
  }

  // --- Jobs and their devices ----------------------------------------------

  /** The columns of a target that never change: its job and its device. */
  datatype Owner = Owner(job: Id, device: Id)

  type Owners = map<Id, Owner>

  function OwnersOf(db: Db): Owners { map id | id in db.targets :: Owner(db.targets[id].job, db.targets[id].device) }

  /** Every target belongs to a job, every job has a target, and no job has two for one device. */
  ghost predicate JobsSound(jobs: set<Id>, owners: Owners) {
    && (forall id {:trigger owners[id]} :: id in owners ==> owners[id].job in jobs)
    && (forall job :: job in jobs ==> Staffed(owners, job))
    && (forall a, b {:trigger owners[a], owners[b]} ::
          a in owners && b in owners && a != b && owners[a].job == owners[b].job ==>
            owners[a].device != owners[b].device)
  }

  ghost predicate Staffed(owners: Owners, job: Id) { exists id :: id in owners && owners[id].job == job }

  /** The targets of a job with their devices. */
  function Staff(owners: Owners, job: Id): map<Id, Id> {
    map id | id in owners && owners[id].job == job :: owners[id].device
  }

  function NewOwners(e: Event): Owners
    requires e.CreateJob?
  {
    map id | id in e.plan :: Owner(e.job, e.plan[id])
  }

  lemma StepOwners(db: Db, e: Event)
    ensures if e.CreateJob? && Creatable(db, e)
      then OwnersOf(Step(db, e)) == OwnersOf(db) + NewOwners(e) && Step(db, e).jobs.Keys == db.jobs.Keys + {e.job}
      else OwnersOf(Step(db, e)) == OwnersOf(db) && Step(db, e).jobs == db.jobs
  {
    if e.CreateJob? && Creatable(db, e) {
      CreateOwners(db, e);
    } else if !e.CreateJob? && !e.ReportFirmware? && !e.Catalogue? {
      forall id | id in db.targets
        ensures Touch(db, e, id).job == db.targets[id].job && Touch(db, e, id).device == db.targets[id].device
      {
      }
    }
  }

  lemma CreateOwners(db: Db, e: Event)
    requires e.CreateJob? && Creatable(db, e)
    ensures OwnersOf(Step(db, e)) == OwnersOf(db) + NewOwners(e)
  {
  }

  lemma AddedSound(jobs: set<Id>, owners: Owners, e: Event)
    requires JobsSound(jobs, owners) && e.CreateJob? && e.job !in jobs && e.plan != map[] && OneEach(e.plan)
    requires e.plan.Keys !! owners.Keys
    ensures JobsSound(jobs + {e.job}, owners + NewOwners(e))
    ensures forall job :: job in jobs ==> Staff(owners + NewOwners(e), job) == Staff(owners, job)
  {
    var all := owners + NewOwners(e);
    forall job | job in jobs + {e.job} ensures Staffed(all, job) {
      if job == e.job {
        var id :| id in e.plan;
        assert all[id].job == job;
      } else {
        assert Staffed(owners, job);
        var id :| id in owners && owners[id].job == job;
        assert all[id].job == job;
      }
    }
  }

  ghost predicate Sound(db: Db) { JobsSound(db.jobs.Keys, OwnersOf(db)) }

  lemma StepSound(db: Db, e: Event)
    requires Sound(db)
    ensures Sound(Step(db, e)) && db.jobs.Keys <= Step(db, e).jobs.Keys
    ensures forall job :: job in db.jobs ==> Staff(OwnersOf(Step(db, e)), job) == Staff(OwnersOf(db), job)
  {
    StepOwners(db, e);
    if e.CreateJob? && Creatable(db, e) { AddedSound(db.jobs.Keys, OwnersOf(db), e); }
  }

  lemma {:induction false} RunSound(es: seq<Event>)
    ensures Sound(Run(EMPTY, es))
  {
    if es != [] {
      RunSound(es[..|es| - 1]);
      StepSound(Run(EMPTY, es[..|es| - 1]), es[|es| - 1]);
    }
  }

  /** The targets of a job and their devices never change. */
  lemma {:induction false} StaffConstant(db: Db, more: seq<Event>, job: Id)
    requires Sound(db) && job in db.jobs
    ensures Sound(Run(db, more)) && job in Run(db, more).jobs
    ensures Staff(OwnersOf(Run(db, more)), job) == Staff(OwnersOf(db), job)
  {
    if more != [] {
      StaffConstant(db, more[..|more| - 1], job);
      StepSound(Run(db, more[..|more| - 1]), more[|more| - 1]);
    }
  }

  // --- Batched sweeps ------------------------------------------------------

  function ExpirableIds(ts: Targets, now: int): set<Id> {
    set id | id in ts && Expirable(ts[id], now)
  }

  function StalledIds(ts: Targets, now: int, window: int): set<Id> {
    set id | id in ts && Stalled(ts[id], now, window)
  }

  /** The one-shot updates that the batched sweeps stand for. */
  function ExpireAll(ts: Targets, now: int): Targets {
    map id | id in ts :: Expire(ts[id], now)
  }

  function StallAll(ts: Targets, now: int, window: int): Targets {
    map id | id in ts :: Stall(ts[id], now, window)
  }

  lemma ExpireBatchCompose(db: Db, a: set<Id>, b: set<Id>, now: int)
    ensures Step(Step(db, ExpireBatch(a, now)), ExpireBatch(b, now)) == Step(db, ExpireBatch(a + b, now))
    ensures ExpirableIds(Step(db, ExpireBatch(a, now)).targets, now) == ExpirableIds(db.targets, now) - a
  {
    var one := Step(db, ExpireBatch(a, now));
    assert Step(one, ExpireBatch(b, now)).targets == Step(db, ExpireBatch(a + b, now)).targets;
  }

  lemma StallBatchCompose(db: Db, a: set<Id>, b: set<Id>, now: int, window: int)
    ensures Step(Step(db, StallBatch(a, now, window)), StallBatch(b, now, window))
      == Step(db, StallBatch(a + b, now, window))
    ensures StalledIds(Step(db, StallBatch(a, now, window)).targets, now, window)
      == StalledIds(db.targets, now, window) - a
  {
    var one := Step(db, StallBatch(a, now, window));
    assert Step(one, StallBatch(b, now, window)).targets == Step(db, StallBatch(a + b, now, window)).targets;
  }

  predicate LiveLease(t: Target, now: int) {
    t.state == Leased && t.leaseExpiresAt.Some? && t.leaseExpiresAt.value > now
  }

  /**
   * A sweep of every eligible row is the one-shot update, and it leaves every other row, live leases included,
   * alone.
   */
  lemma SweepIsOneShot(db: Db, now: int, window: int)
    ensures Step(db, ExpireBatch(ExpirableIds(db.targets, now), now)).targets == ExpireAll(db.targets, now)
    ensures Step(db, StallBatch(StalledIds(db.targets, now, window), now, window)).targets
      == StallAll(db.targets, now, window)
    ensures ExpirableIds(ExpireAll(db.targets, now), now) == {} &&
      StalledIds(StallAll(db.targets, now, window), now, window) == {}
    ensures forall id :: id in db.targets && LiveLease(db.targets[id], now) ==>
              ExpireAll(db.targets, now)[id] == db.targets[id]
  {
  }

  lemma {:induction false} SubsetOfSize(s: set<Id>, n: nat) returns (t: set<Id>)
    requires n <= |s|
    ensures t <= s && |t| == n
  {
    if n == 0 {
      t := {};
    } else {
      var x :| x in s;
      var u := SubsetOfSize(s - {x}, n - 1);
      t := u + {x};
    }
  }

  lemma SubsetFull(s: set<Id>, t: set<Id>)
    requires t <= s && |t| == |s|
    ensures t == s
  {
    assert |s - t| == |s| - |t|;
  }

  lemma NothingLeft(all: set<Id>, done: set<Id>)
    requires done <= all && all - done == {}
    ensures done == all
  {
    assert all == done + (all - done);
  }

  /** The subselect's LIMIT: any batch of the candidates, as large as the limit allows. */
  method PickBatch(candidates: set<Id>) returns (batch: set<Id>)
    ensures batch <= candidates && |batch| <= EXPIRY_BATCH_SIZE
    ensures |batch| < EXPIRY_BATCH_SIZE ==> batch == candidates
  {
    var n := if |candidates| < EXPIRY_BATCH_SIZE then |candidates| else EXPIRY_BATCH_SIZE;
    ghost var some := SubsetOfSize(candidates, n);
    batch :| batch <= candidates && |batch| == n;
    if n < EXPIRY_BATCH_SIZE { SubsetFull(candidates, batch); }
  }

  lemma BatchGrows(all: set<Id>, done: set<Id>, left: set<Id>, batch: set<Id>)
    requires done <= all && left == all - done && batch <= left
    ensures done + batch <= all && |done + batch| == |done| + |batch| && |done + batch| <= |all|
    ensures left - batch == all - (done + batch)
  {
    SubsetSize(done + batch, all);
  }

  /** Part of a sweep is done: the rows of `done` are expired, the other eligible ones still wait. */
  ghost predicate ExpireSwept(start: Db, done: set<Id>, db: Db, now: int) {
    && done <= ExpirableIds(start.targets, now)
    && |done| <= |ExpirableIds(start.targets, now)|
    && db == Step(start, ExpireBatch(done, now))
    && ExpirableIds(db.targets, now) == ExpirableIds(start.targets, now) - done
  }

  lemma ExpireSweepStart(db: Db, now: int)
    ensures ExpireSwept(db, {}, db, now)
  {
    assert Step(db, ExpireBatch({}, now)).targets == db.targets;
  }

  lemma {:induction false} ExpireSweepStep(start: Db, done: set<Id>, db: Db, batch: set<Id>, now: int)
    requires ExpireSwept(start, done, db, now) && batch <= ExpirableIds(db.targets, now)
    ensures ExpireSwept(start, done + batch, Step(db, ExpireBatch(batch, now)), now)
    ensures |done + batch| == |done| + |batch|
  {
    ExpireBatchCompose(start, done, batch, now);
    ExpireBatchCompose(db, batch, {}, now);
    BatchGrows(ExpirableIds(start.targets, now), done, ExpirableIds(db.targets, now), batch);
  }

  lemma ExpireSweepEnd(start: Db, done: set<Id>, db: Db, now: int)
    requires ExpireSwept(start, done, db, now) && ExpirableIds(db.targets, now) == {}
    ensures done == ExpirableIds(start.targets, now)
    ensures db == start.(targets := ExpireAll(start.targets, now))
  {
    NothingLeft(ExpirableIds(start.targets, now), done);
    SweepIsOneShot(start, now, 0);
  }

  ghost predicate StallSwept(start: Db, done: set<Id>, db: Db, now: int, window: int) {
    && done <= StalledIds(start.targets, now, window)
    && |done| <= |StalledIds(start.targets, now, window)|
    && db == Step(start, StallBatch(done, now, window))
    && StalledIds(db.targets, now, window) == StalledIds(start.targets, now, window) - done
  }

  lemma StallSweepStart(db: Db, now: int, window: int)
    ensures StallSwept(db, {}, db, now, window)
  {
    assert Step(db, StallBatch({}, now, window)).targets == db.targets;
  }

  lemma {:induction false} StallSweepStep(start: Db, done: set<Id>, db: Db, batch: set<Id>, now: int, window: int)
    requires StallSwept(start, done, db, now, window) && batch <= StalledIds(db.targets, now, window)
    ensures StallSwept(start, done + batch, Step(db, StallBatch(batch, now, window)), now, window)
    ensures |done + batch| == |done| + |batch|
  {
    StallBatchCompose(start, done, batch, now, window);
    StallBatchCompose(db, batch, {}, now, window);
    BatchGrows(StalledIds(start.targets, now, window), done, StalledIds(db.targets, now, window), batch);
  }

  lemma StallSweepEnd(start: Db, done: set<Id>, db: Db, now: int, window: int)
    requires StallSwept(start, done, db, now, window) && StalledIds(db.targets, now, window) == {}
    ensures done == StalledIds(start.targets, now, window)
    ensures db == start.(targets := StallAll(start.targets, now, window))
  {
    NothingLeft(StalledIds(start.targets, now, window), done);
    SweepIsOneShot(start, now, window);
  }

  // --- The sweeps on the columns -------------------------------------------

  /**
   * Inside its delivery window, under a live lease, or in any state but pending and leased, a target is left alone;
   * past its window, a pending target, or a leased one whose lease is over, expires and holds no lease.
   */
  predicate ExpiryRule(t: Target, u: Target, now: int) {
    && (now <= t.expiresAt ==> u == t)
    && (t.state == Leased && (t.leaseExpiresAt.None? || now < t.leaseExpiresAt.value) ==> u == t)
    && (t.state != Pending && t.state != Leased ==> u == t)
    && (t.expiresAt < now && t.state == Pending ==> u == t.(state := Expired, leaseExpiresAt := None))
    && (t.expiresAt < now && t.state == Leased && t.leaseExpiresAt.Some? && t.leaseExpiresAt.value <= now ==>
          u == t.(state := Expired, leaseExpiresAt := None))
  }

  lemma ExpireMeaning(t: Target, now: int)
    ensures ExpiryRule(t, Expire(t, now), now)
  {
  }

  /**
   * A target that was delivered less than the window ago, or not at all, or is past downloading, is left alone;
   * one delivered before that and not yet installed fails with code -7.
   */
  predicate StallRule(t: Target, u: Target, now: int, window: int) {
    && (t.deliveredAt.None? || now - t.deliveredAt.value <= window ==> u == t)
    && (t.state != Delivered && t.state != Delivering && t.state != Downloaded ==> u == t)
    && ((t.state == Delivered || t.state == Delivering || t.state == Downloaded)
        && t.deliveredAt.Some? && now - t.deliveredAt.value > window ==>
          u == t.(state := Failed, confirmedAt := Some(now), resultCode := Some(-7),
                  resultMessage := Some("download window timeout")))
  }

  lemma StallMeaning(t: Target, now: int, window: int)
    ensures StallRule(t, Stall(t, now, window), now, window)
  {
  }

  /** An acknowledgement for another release, or that comes too late, changes nothing; the first one in time counts. */
  predicate AckRule(t: Target, u: Target, matches: bool, ack: Ack, code: int, message: Option<string>, now: int) {
    var accepting := t.state == Delivered || t.state == Delivering || (t.state == Downloaded && ack != AckDownloaded);
    if !matches || !accepting then u == t
    else
      match ack
      case AckDownloaded => u == t.(state := Downloaded)
      case AckInstalled => u == t.(state := Installed, installedAt := Some(now))
      case AckFailed =>
        u == t.(state := Failed, confirmedAt := Some(now), resultMessage := message,
                resultCode := Some(if code < 0 then code else -5))
  }

  lemma AckMeaning(db: Db, id: Id, release: Id, ack: Ack, code: int, message: Option<string>, now: int)
    requires id in db.targets
    ensures var t := db.targets[id];
      AckRule(t, Touch(db, RecordResult(id, release, ack, code, message, now), id),
        t.job in db.jobs && db.jobs[t.job] == release, ack, code, message, now)
  {
  }

  /** Exactly the device's delivered, downloading, downloaded or installed targets of the release are confirmed. */
  predicate ConfirmRule(db: Db, t: Target, u: Target, device: Id, hash: string, now: int) {
    if t.device == device && Runs(db, t.job, hash)
       && (t.state == Delivered || t.state == Delivering || t.state == Downloaded || t.state == Installed)
    then u == t.(state := Completed, confirmedAt := Some(now), resultCode := Some(0)) else u == t
  }

  /** The hash is the build id of the job's release, or its bin hash where the release has no artifact row. */
  predicate Runs(db: Db, job: Id, hash: string) {
    job in db.jobs && db.jobs[job] in db.releases && (
      var artifact := db.releases[db.jobs[job]].artifact;
      if artifact.Some? && artifact.value in db.artifacts then hash == db.artifacts[artifact.value]
      else hash == db.releases[db.jobs[job]].binHash)
  }

  lemma ConfirmMeaning(db: Db, id: Id, device: Id, hash: string, now: int)
    requires id in db.targets
    ensures ConfirmRule(db, db.targets[id], Touch(db, ConfirmFirmware(device, hash, now), id), device, hash, now)
  {
  }

  // --- Statements row by row -----------------------------------------------

  /**
   * Part of a statement is carried out: the rows of `todo` are as it found them and the others as it leaves them;
   * `changed` are those of the chosen rows it has come to.
   */
  ghost predicate Sweeping(start: Db, e: Event, chosen: set<Id>, todo: set<Id>, changed: set<Id>, db: Db) {
    && todo <= start.targets.Keys && changed == chosen - todo
    && db == start.(targets := db.targets) && db.targets.Keys == start.targets.Keys
    && forall id {:trigger db.targets[id]} :: id in start.targets ==>
         db.targets[id] == if id in todo then start.targets[id] else Touch(start, e, id)
  }

  /** One more row, given what the statement makes of it. */
  lemma SweepRow(start: Db, e: Event, chosen: set<Id>, todo: set<Id>, changed: set<Id>, db: Db, id: Id, row: Target,
      hit: bool)
    requires Sweeping(start, e, chosen, todo, changed, db) && id in todo
    requires row == Touch(start, e, id) && (hit <==> id in chosen)
    ensures var more := if hit then changed + {id} else changed;
      Sweeping(start, e, chosen, todo - {id}, more, db.(targets := db.targets[id := row]))
  {
  }

  lemma SweepEnd(start: Db, e: Event, chosen: set<Id>, changed: set<Id>, db: Db)
    requires Sweeping(start, e, chosen, {}, changed, db) && !e.CreateJob? && !e.ReportFirmware? && !e.Catalogue?
    ensures db == Step(start, e) && changed == chosen
  {
    assert db.targets == Step(start, e).targets;
  }

  lemma ConfirmTouch(start: Db, db: Db, device: Id, hash: string, now: int, id: Id, row: Target)
    requires db == start.(targets := db.targets) && id in start.targets
    requires var t := start.targets[id];
      row == if t.device == device && JobMatches(db, t.job, hash) then Confirm(t, now) else t
    ensures row == Touch(start, ConfirmFirmware(device, hash, now), id)
    ensures JobMatches(db, start.targets[id].job, hash) == JobMatches(start, start.targets[id].job, hash)
  {
  }

  /** A statement keyed by a target's id changes no other row. */
  lemma OneRow(start: Db, e: Event, id: Id)
    requires (e.LeaseOne? || e.MarkDelivered? || e.ReleaseOne? || e.RecordResult?) && e.target == id
    ensures Step(start, e) == start.(targets := Step(start, e).targets)
    ensures Step(start, e).targets ==
      if id in start.targets then start.targets[id := Touch(start, e, id)] else start.targets
  {
  }

  /** The job has no target for the device. */
  predicate Unaddressed(db: Db, job: Id, device: Id) {
    forall id :: id in db.targets ==> db.targets[id].job != job || db.targets[id].device != device
  }

  function DeliveredIds(db: Db, job: Id, device: Id): set<Id> {
    set id | id in db.targets && db.targets[id].job == job && db.targets[id].device == device &&
      db.targets[id].state == Delivered
  }

  /** The targets of a device that its reported hash confirms. */
  function ConfirmedIds(db: Db, device: Id, hash: string): set<Id> {
    set id | id in db.targets && db.targets[id].device == device
             && db.targets[id].state in {Delivered, Delivering, Downloaded, Installed} &&
               JobMatches(db, db.targets[id].job, hash)
  }

  // --- The outbox ----------------------------------------------------------

  datatype CreateError =
    | EmptyTargets | DuplicateTargets | TooManyTargets
    | ReleaseNotInProject | TargetNotFound | TargetNotInProject | Database

  datatype CreateResult = Ok(states: map<Id, State>) | Err(error: CreateError)

  predicate Distinct(ids: seq<Id>) {
    forall i, j :: 0 <= i < j < |ids| ==> ids[i] != ids[j]
  }

  /** The check that refuses a job, first in source order; the release is read first, the devices after that. */
  function Refusal(first: Db, second: Db, project: Id, release: Id, deviceIds: seq<Id>): Option<CreateError> {
    if deviceIds == [] then Some(EmptyTargets)
    else if !Distinct(deviceIds) then Some(DuplicateTargets)
    else if |deviceIds| > MAX_OTA_TARGETS then Some(TooManyTargets)
    else if release !in first.releases || first.releases[release].project != project then Some(ReleaseNotInProject)
    else if exists i :: 0 <= i < |deviceIds| && deviceIds[i] !in second.devices then Some(TargetNotFound)
    else if exists i :: 0 <= i < |deviceIds| && second.devices[deviceIds[i]] != project then Some(TargetNotInProject)
    else None
  }

  /**
   * A job is not refused exactly when it has between 1 and 1000 devices, none twice, its release is the project's, and
   * every device exists and is the project's; and each error names what is wrong.
   */
  lemma RefusalMeaning(first: Db, second: Db, project: Id, release: Id, deviceIds: seq<Id>)
    ensures var r := Refusal(first, second, project, release, deviceIds);
      var known := release in first.releases && first.releases[release].project == project;
      && (r.None? <==>
            && 1 <= |deviceIds| <= 1000 && Distinct(deviceIds) && known
            && forall d :: d in deviceIds ==> d in second.devices && second.devices[d] == project)
      && (r == Some(EmptyTargets) <==> deviceIds == [])
      && (r == Some(DuplicateTargets) <==> !Distinct(deviceIds))
      && (r == Some(TooManyTargets) <==> |deviceIds| > 1000 && Distinct(deviceIds))
      && (r == Some(ReleaseNotInProject) ==> !known)
      && (r == Some(TargetNotFound) ==> exists d :: d in deviceIds && d !in second.devices)
      && (r == Some(TargetNotInProject) ==>
            exists d :: d in deviceIds && d in second.devices && second.devices[d] != project)
  {
    forall i | 0 <= i < |deviceIds| ensures deviceIds[i] in deviceIds {}
  }

  function Plan(ids: seq<Id>, deviceIds: seq<Id>): map<Id, Id>
    requires |ids| == |deviceIds|
  {
    if ids == [] then map[] else Plan(ids[1..], deviceIds[1..])[ids[0] := deviceIds[0]]
  }

  lemma {:induction false} PlanRows(ids: seq<Id>, deviceIds: seq<Id>)
    requires |ids| == |deviceIds| && Distinct(ids)
    ensures forall id :: id in Plan(ids, deviceIds) <==> id in ids
    ensures forall i :: 0 <= i < |ids| ==> Plan(ids, deviceIds)[ids[i]] == deviceIds[i]
  {
    if ids != [] {
      PlanRows(ids[1..], deviceIds[1..]);
      forall i | 0 <= i < |ids| ensures Plan(ids, deviceIds)[ids[i]] == deviceIds[i] {
        if i > 0 { assert ids[i] == ids[1..][i - 1] && deviceIds[i] == deviceIds[1..][i - 1]; }
      }
    }
  }

  /** A plan for distinct devices has one target for each, and one at least unless there are none. */
  lemma PlanOneEach(ids: seq<Id>, deviceIds: seq<Id>)
    requires |ids| == |deviceIds| && Distinct(ids) && Distinct(deviceIds)
    ensures OneEach(Plan(ids, deviceIds)) && (deviceIds != [] ==> Plan(ids, deviceIds) != map[])
    ensures Plan(ids, deviceIds).Values == set d | d in deviceIds
  {
    PlanRows(ids, deviceIds);
    var plan := Plan(ids, deviceIds);
    forall a, b | a in plan && b in plan && a != b ensures plan[a] != plan[b] {
      var i :| 0 <= i < |ids| && ids[i] == a;
      var j :| 0 <= j < |ids| && ids[j] == b;
    }
    if deviceIds != [] { assert ids[0] in plan; }
    forall d | d in plan.Values ensures d in deviceIds {
      var id :| id in plan && plan[id] == d;
      var i :| 0 <= i < |ids| && ids[i] == id;
    }
    forall d | d in deviceIds ensures d in plan.Values {
      var i :| 0 <= i < |deviceIds| && deviceIds[i] == d;
      assert ids[i] in plan;
    }
  }

  lemma CanCreate(db: Db, e: Event, clash: set<Id>, missing: set<Id>)
    requires e.CreateJob? && clash == e.plan.Keys * db.targets.Keys && e.plan != map[] && OneEach(e.plan)
    requires missing == set id | id in e.plan && e.plan[id] !in db.devices
    ensures Creatable(db, e) <==> e.job !in db.jobs && clash == {} && e.release in db.releases && missing == {}
  {
    if clash == {} {
      forall id | id in e.plan ensures id !in db.targets { assert id !in clash; }
    } else {
      var id :| id in clash;
      assert id in e.plan.Keys && id in db.targets.Keys;
    }
    if missing != {} { assert exists id :: id in missing; }
    forall id | id in e.plan && missing == {} ensures e.plan[id] in db.devices { assert id !in missing; }
  }

  method ExpireRow(t: Target, now: int) returns (row: Target)
    ensures row == Expire(t, now)
  {
    if t.expiresAt < now
       && (t.state == Pending || (t.state == Leased && t.leaseExpiresAt.Some? && t.leaseExpiresAt.value <= now)) {
      return t.(state := Expired, leaseExpiresAt := None);
    }
    return t;
  }

  method StallRow(t: Target, now: int, window: int) returns (row: Target)
    ensures row == Stall(t, now, window)
  {
    if (t.state == Delivered || t.state == Delivering || t.state == Downloaded)
       && t.deliveredAt.Some? && t.deliveredAt.value < now - window {
      return t.(state := Failed, confirmedAt := Some(now), resultCode := Some(-7),
                resultMessage := Some("download window timeout"));
    }
    return t;
  }

  class Outbox {
    var db: Db

    constructor ()
      ensures db == EMPTY
    {
      db := EMPTY;
    }

    method SetRow(id: Id, t: Target)
      requires id in db.targets
      modifies this
      ensures db == old(db).(targets := old(db).targets[id := t])
    {
      db := db.(targets := db.targets[id := t]);
    }

    /** The update of one expiry batch, with its conditions checked again row by row. */
    method ExpireRows(batch: set<Id>, now: int)
      modifies this
      ensures db == Step(old(db), ExpireBatch(batch, now))
    {
      ghost var start, e := db, ExpireBatch(batch, now);
      var todo := db.targets.Keys;
      while todo != {}
        invariant Sweeping(start, e, {}, todo, {}, db)
        decreases |todo|
      {
        var id :| id in todo;
        var t := db.targets[id];
        if id in batch { t := ExpireRow(t, now); }
        SweepRow(start, e, {}, todo, {}, db, id, t, false);
        SetRow(id, t);
        todo := todo - {id};
      }
      SweepEnd(start, e, {}, {}, db);
    }

    method StallRows(batch: set<Id>, now: int, window: int)
      modifies this
      ensures db == Step(old(db), StallBatch(batch, now, window))
    {
      ghost var start, e := db, StallBatch(batch, now, window);
      var todo := db.targets.Keys;
      while todo != {}
        invariant Sweeping(start, e, {}, todo, {}, db)
        decreases |todo|
      {
        var id :| id in todo;
        var t := db.targets[id];
        if id in batch { t := StallRow(t, now, window); }
        SweepRow(start, e, {}, todo, {}, db, id, t, false);
        SetRow(id, t);
        todo := todo - {id};
      }
      SweepEnd(start, e, {}, {}, db);
    }

    method ExpireOtaTargets(now: int) returns (total: nat)
      modifies this
      ensures db == old(db).(targets := ExpireAll(old(db).targets, now))
      ensures total == |ExpirableIds(old(db).targets, now)|
      ensures forall id :: id in old(db).targets ==> ExpiryRule(old(db).targets[id], db.targets[id], now)
    {
      total := 0;
      ghost var done: set<Id> := {};
      ghost var start := db;
      ExpireSweepStart(db, now);
      while true
        invariant ExpireSwept(start, done, db, now) && total == |done|
        decreases |ExpirableIds(start.targets, now)| - |done|
      {
        var candidates := ExpirableIds(db.targets, now);
        var batch := PickBatch(candidates);
        ExpireSweepStep(start, done, db, batch, now);
        ExpireRows(batch, now);
        done := done + batch;
        total := total + |batch|;
        if |batch| < EXPIRY_BATCH_SIZE { break; }
      }
      ExpireSweepEnd(start, done, db, now);
      forall id | id in start.targets ensures ExpiryRule(start.targets[id], db.targets[id], now) {
        ExpireMeaning(start.targets[id], now);
      }
    }

    method ExpireStalledOtaTargets(now: int, window: int) returns (total: nat)
      modifies this
      ensures db == old(db).(targets := StallAll(old(db).targets, now, window))
      ensures total == |StalledIds(old(db).targets, now, window)|
      ensures forall id :: id in old(db).targets ==> StallRule(old(db).targets[id], db.targets[id], now, window)
    {
      total := 0;
      ghost var done: set<Id> := {};
      ghost var start := db;
      StallSweepStart(db, now, window);
      while true
        invariant StallSwept(start, done, db, now, window) && total == |done|
        decreases |StalledIds(start.targets, now, window)| - |done|
      {
        var candidates := StalledIds(db.targets, now, window);
        var batch := PickBatch(candidates);
        StallSweepStep(start, done, db, batch, now, window);
        StallRows(batch, now, window);
        done := done + batch;
        total := total + |batch|;
        if |batch| < EXPIRY_BATCH_SIZE { break; }
      }
      StallSweepEnd(start, done, db, now, window);
      forall id | id in start.targets ensures StallRule(start.targets[id], db.targets[id], now, window) {
        StallMeaning(start.targets[id], now, window);
      }
    }

    /** Claims the oldest unlocked target that may be leased, by creation time and then id. */
    method LeaseNextOtaTarget(now: int, until: int, locked: set<Id>) returns (leased: Option<Id>)
      modifies this
      ensures leased.None? <==>
        forall id :: id in old(db).targets && id !in locked ==> !Leasable(old(db).targets[id], now)
      ensures leased.None? ==> db == old(db)
      ensures leased.Some? ==>
        && leased.value in old(db).targets && leased.value !in locked && Leasable(old(db).targets[leased.value], now)
        && (forall id :: id in old(db).targets && id !in locked && Leasable(old(db).targets[id], now) ==>
              !Older(old(db).targets, id, leased.value))
        && db == Step(old(db), LeaseOne(leased.value, now, until))
      ensures leased.Some? ==>
        var t := old(db).targets[leased.value];
        && t.availableAt <= now < t.expiresAt
        && (t.state == Pending || (t.state == Leased && t.leaseExpiresAt.Some? && t.leaseExpiresAt.value <= now))
        && db == old(db).(targets := old(db).targets[leased.value := t.(state := Leased,
          leaseExpiresAt := Some(until))])
      ensures leased.Some? ==>
        forall id :: id in old(db).targets && id !in locked && Leasable(old(db).targets[id], now) ==>
          var t, o := old(db).targets[leased.value], old(db).targets[id];
          t.createdAt < o.createdAt || (t.createdAt == o.createdAt && leased.value <= id)
      ensures leased.None? ==>
        forall id :: id in old(db).targets && id !in locked ==>
          var t := old(db).targets[id];
          !(t.availableAt <= now < t.expiresAt
            && (t.state == Pending || (t.state == Leased && t.leaseExpiresAt.Some? && t.leaseExpiresAt.value <= now)))
    {
      leased := None;
      var todo := db.targets.Keys;
      while todo != {}
        invariant todo <= db.targets.Keys
        invariant leased.None? ==>
          forall id :: id in db.targets.Keys - todo && id !in locked ==> !Leasable(db.targets[id], now)
        invariant leased.Some? ==>
          && leased.value in db.targets && leased.value !in locked && Leasable(db.targets[leased.value], now)
          && forall id :: id in db.targets.Keys - todo && id !in locked && Leasable(db.targets[id], now) ==>
               !Older(db.targets, id, leased.value)
        decreases |todo|
      {
        var id :| id in todo;
        todo := todo - {id};
        if id !in locked && Leasable(db.targets[id], now)
           && (leased.None? || Older(db.targets, id, leased.value)) {
          leased := Some(id);
        }
      }
      if leased.Some? {
        var id := leased.value;
        OneRow(db, LeaseOne(id, now, until), id);
        SetRow(id, db.targets[id].(state := Leased, leaseExpiresAt := Some(until)));
      }
    }

    method MarkOtaTargetDelivered(target: Id, now: int)
      modifies this
      ensures db == Step(old(db), MarkDelivered(target, now))
      ensures db == if target in old(db).targets && old(db).targets[target].state == Leased
        then old(db).(targets := old(db).targets[target :=
          old(db).targets[target].(state := Delivered, deliveredAt := Some(now), leaseExpiresAt := None)])
        else old(db)
    {
      OneRow(db, MarkDelivered(target, now), target);
      if target in db.targets && db.targets[target].state == Leased {
        SetRow(target, db.targets[target].(state := Delivered, deliveredAt := Some(now), leaseExpiresAt := None));
      }
    }

    method ReleaseOtaTarget(target: Id, now: int, offlineRetryMs: int)
      modifies this
      ensures db == Step(old(db), ReleaseOne(target, now + offlineRetryMs))
      ensures db == if target in old(db).targets && old(db).targets[target].state == Leased
        then old(db).(targets := old(db).targets[target :=
          old(db).targets[target].(state := Pending, leaseExpiresAt := None, availableAt := now + offlineRetryMs)])
        else old(db)
    {
      OneRow(db, ReleaseOne(target, now + offlineRetryMs), target);
      if target in db.targets && db.targets[target].state == Leased {
        SetRow(target,
          db.targets[target].(state := Pending, leaseExpiresAt := None, availableAt := now + offlineRetryMs));
      }
    }

    /** An unknown device changes nothing; otherwise the count is that of the device's delivered targets in the job. */
    method MarkOtaTargetDelivering(job: Id, uid: Id) returns (count: nat)
      modifies this
      ensures uid !in old(db).uids ==> count == 0 && db == old(db)
      ensures uid in old(db).uids ==>
        && db == Step(old(db), MarkDelivering(job, old(db).uids[uid]))
        && count == |DeliveredIds(old(db), job, old(db).uids[uid])|
        && forall id :: id in old(db).targets ==>
             var t := old(db).targets[id];
             db.targets[id] == if t.job == job && t.device == old(db).uids[uid] && t.state == Delivered
               then t.(state := Delivering) else t
    {
      if uid !in db.uids { return 0; }
      count := StartDownloads(job, db.uids[uid]);
    }

    method StartDownloads(job: Id, device: Id) returns (count: nat)
      modifies this
      ensures db == Step(old(db), MarkDelivering(job, device))
      ensures count == |DeliveredIds(old(db), job, device)|
    {
      ghost var start, e, chosen := db, MarkDelivering(job, device), DeliveredIds(db, job, device);
      var todo, changed := db.targets.Keys, {};
      while todo != {}
        invariant Sweeping(start, e, chosen, todo, changed, db)
        decreases |todo|
      {
        var id :| id in todo;
        var t := db.targets[id];
        var hit := t.job == job && t.device == device && t.state == Delivered;
        if hit { t := t.(state := Delivering); }
        assert t == Touch(start, e, id);
        SweepRow(start, e, chosen, todo, changed, db, id, t, hit);
        if hit { changed := changed + {id}; }
        SetRow(id, t);
        todo := todo - {id};
      }
      SweepEnd(start, e, chosen, changed, db);
      count := |changed|;
    }

    /** Any target of the job for the device, if there is one. */
    method FindFirst(job: Id, device: Id) returns (target: Option<Id>)
      ensures target.None? <==> Unaddressed(db, job, device)
      ensures target.Some? ==>
        target.value in db.targets && db.targets[target.value].job == job && db.targets[target.value].device == device
    {
      var todo := db.targets.Keys;
      while todo != {}
        invariant todo <= db.targets.Keys
        invariant forall id :: id in db.targets.Keys - todo ==>
          db.targets[id].job != job || db.targets[id].device != device
        decreases |todo|
      {
        var id :| id in todo;
        if db.targets[id].job == job && db.targets[id].device == device { return Some(id); }
        todo := todo - {id};
      }
      return None;
    }

    /** An unknown device, job or pair changes nothing; otherwise the count says whether the target's row changed. */
    method RecordOtaResult(uid: Id, job: Id, release: Id, ack: Ack, code: int, message: Option<string>, now: int)
      returns (count: nat, ghost target: Option<Id>)
      modifies this
      ensures target.None? ==> count == 0 && db == old(db)
      ensures target.None? <==> uid !in old(db).uids || Unaddressed(old(db), job, old(db).uids[uid])
      ensures target.Some? ==>
        var e := RecordResult(target.value, release, ack, code, message, now);
        && target.value in old(db).targets && old(db).targets[target.value].job == job
        && db == Step(old(db), e)
        && count == (if Touch(old(db), e, target.value) == old(db).targets[target.value] then 0 else 1)
        && target.value in db.targets
        && db == old(db).(targets := old(db).targets[target.value := db.targets[target.value]])
        && AckRule(old(db).targets[target.value], db.targets[target.value],
             job in old(db).jobs && old(db).jobs[job] == release, ack, code, message, now)
    {
      if uid !in db.uids { return 0, None; }
      var found := FindFirst(job, db.uids[uid]);
      target := found;
      if found.None? { return 0, None; }
      var id := found.value;
      var t := db.targets[id];
      ghost var e := RecordResult(id, release, ack, code, message, now);
      OneRow(db, e, id);
      AckMeaning(db, id, release, ack, code, message, now);
      count := 0;
      if job !in db.jobs || db.jobs[job] != release { return; }
      if ack == AckFailed {
        if t.state == Delivered || t.state == Delivering || t.state == Downloaded {
          SetRow(id, t.(state := Failed, confirmedAt := Some(now), resultCode := Some(if code < 0 then code else -5),
                        resultMessage := message));
          count := 1;
        }
        return;
      }
      if ack == AckInstalled {
        if t.state == Delivered || t.state == Delivering || t.state == Downloaded {
          SetRow(id, t.(state := Installed, installedAt := Some(now)));
          count := 1;
        }
      } else if t.state == Delivered || t.state == Delivering {
        SetRow(id, t.(state := Downloaded));
        count := 1;
      }
    }

    /** The joins from a target to its job, release and artifact, and the hash that must be reported. */
    method Identity(job: Id) returns (identity: Option<string>)
      ensures forall hash :: JobMatches(db, job, hash) <==> identity == Some(hash)
    {
      if job !in db.jobs || db.jobs[job] !in db.releases { return None; }
      var r := db.releases[db.jobs[job]];
      if r.artifact.Some? && r.artifact.value in db.artifacts { return Some(db.artifacts[r.artifact.value]); }
      return Some(r.binHash);
    }

    /** One row of the update: confirmed if it is the device's, awaits confirmation and its release has the hash. */
    method ConfirmRow(t: Target, device: Id, hash: string, now: int) returns (row: Target, hit: bool)
      ensures row == if t.device == device && JobMatches(db, t.job, hash) then Confirm(t, now) else t
      ensures hit <==>
        t.device == device && t.state in {Delivered, Delivering, Downloaded, Installed} && JobMatches(db, t.job, hash)
    {
      var identity := Identity(t.job);
      if t.device == device && identity == Some(hash)
         && (t.state == Delivered || t.state == Delivering || t.state == Downloaded || t.state == Installed) {
        return t.(state := Completed, confirmedAt := Some(now), resultCode := Some(0)), true;
      }
      return t, false;
    }

    /** Confirms the device's delivered targets whose release has the reported hash, and counts them. */
    method ConfirmOtaTargetByFirmware(device: Id, hash: string, now: int) returns (count: nat)
      modifies this
      ensures db == Step(old(db), ConfirmFirmware(device, hash, now))
      ensures count == |ConfirmedIds(old(db), device, hash)|
      ensures forall id :: id in old(db).targets ==>
        ConfirmRule(old(db), old(db).targets[id], db.targets[id], device, hash, now)
    {
      ghost var start, e, chosen := db, ConfirmFirmware(device, hash, now), ConfirmedIds(db, device, hash);
      var todo, changed := db.targets.Keys, {};
      while todo != {}
        invariant Sweeping(start, e, chosen, todo, changed, db)
        decreases |todo|
      {
        var id :| id in todo;
        var t := db.targets[id];
        var hit;
        t, hit := ConfirmRow(t, device, hash, now);
        ConfirmTouch(start, db, device, hash, now, id, t);
        SweepRow(start, e, chosen, todo, changed, db, id, t, hit);
        if hit { changed := changed + {id}; }
        SetRow(id, t);
        todo := todo - {id};
      }
      SweepEnd(start, e, chosen, changed, db);
      forall id | id in start.targets ensures ConfirmRule(start, start.targets[id], db.targets[id], device, hash, now) {
        ConfirmMeaning(start, id, device, hash, now);
      }
      count := |changed|;
    }

    /**
     * Checks, reads and one transaction; `others(k)` is the database as the k-th of these six finds it, whatever
     * others did to it meanwhile. Refused with the right error and nothing written, or one target for each device,
     * completed exactly for those found to run the release.
     */
    method CreateOtaJob(job: Id, project: Id, release: Id, deviceIds: seq<Id>, ids: seq<Id>, now: int, expiresAt: int,
        others: nat -> Db)
      returns (r: CreateResult)
      requires |ids| == |deviceIds| && Distinct(ids)
      modifies this
      ensures var refusal := Refusal(others(0), others(1), project, release, deviceIds);
        && (refusal.Some? ==> r == Err(refusal.value) && db in {old(db), others(0), others(1)})
        && (refusal.None? ==>
              var running := RunningAt(others(2), others(3), others(4), release, set d | d in deviceIds);
              var e := CreateJob(job, release, Plan(ids, deviceIds), running, now, expiresAt);
              && db == Step(others(5), e)
              && (r == Err(Database) <==> !Creatable(others(5), e))
              && (r.Err? ==> r == Err(Database))
              && (r.Ok? ==> r.states == map id | id in e.plan :: if e.plan[id] in running then Completed else Pending))
    {
      var refusal := CheckJob(project, release, deviceIds, others);
      if refusal.Some? { return Err(refusal.value); }
      var running := ReadRunning(release, deviceIds, others);
      db := others(5);
      var plan := Plan(ids, deviceIds);
      PlanOneEach(ids, deviceIds);
      var clash := plan.Keys * db.targets.Keys;
      var missing := set id | id in plan && plan[id] !in db.devices;
      CanCreate(db, CreateJob(job, release, plan, running, now, expiresAt), clash, missing);
      if job in db.jobs || clash != {} || release !in db.releases || missing != {} { return Err(Database); }
      InsertJob(job, release, plan, running, now, expiresAt);
      r := Ok(map id | id in plan :: if plan[id] in running then Completed else Pending);
    }

    method CheckJob(project: Id, release: Id, deviceIds: seq<Id>, others: nat -> Db) returns (r: Option<CreateError>)
      modifies this
      ensures r == Refusal(others(0), others(1), project, release, deviceIds)
      ensures db in {old(db), others(0), others(1)}
    {
      if |deviceIds| == 0 { return Some(EmptyTargets); }
      if !Distinct(deviceIds) { return Some(DuplicateTargets); }
      if |deviceIds| > MAX_OTA_TARGETS { return Some(TooManyTargets); }
      db := others(0);
      if release !in db.releases || db.releases[release].project != project { return Some(ReleaseNotInProject); }
      db := others(1);
      if exists i :: 0 <= i < |deviceIds| && deviceIds[i] !in db.devices { return Some(TargetNotFound); }
      if exists i :: 0 <= i < |deviceIds| && db.devices[deviceIds[i]] != project { return Some(TargetNotInProject); }
      return None;
    }

    /** The transaction: the job, a pending target for each device, and the update of those that run the release. */
    method InsertJob(job: Id, release: Id, plan: map<Id, Id>, running: set<Id>, now: int, expiresAt: int)
      requires Creatable(db, CreateJob(job, release, plan, running, now, expiresAt))
      modifies this
      ensures db == Step(old(db), CreateJob(job, release, plan, running, now, expiresAt))
    {
      ghost var e := CreateJob(job, release, plan, running, now, expiresAt);
      var rows := map id | id in plan ::
        Target(job, plan[id], Pending, None, None, None, None, None, None, now, expiresAt, now);
      rows := map id | id in plan ::
        if plan[id] in running
        then rows[id].(state := Completed, confirmedAt := Some(now), resultCode := Some(0)) else rows[id];
      assert rows == Created(e);
      db := db.(jobs := db.jobs[job := release], targets := db.targets + rows);
    }

    /** The release's identity, and the devices that last reported it. */
    method ReadRunning(release: Id, deviceIds: seq<Id>, others: nat -> Db) returns (running: set<Id>)
      modifies this
      ensures running == RunningAt(others(2), others(3), others(4), release, set d | d in deviceIds)
    {
      db := others(2);
      var expected := None;
      if release in db.releases {
        var row := db.releases[release];
        if row.artifact.None? {
          expected := Some(row.binHash);
        } else {
          db := others(3);
          if row.artifact.value in db.artifacts { expected := Some(db.artifacts[row.artifact.value]); }
        }
      }
      running := {};
      if expected.Some? && expected.value != "" {
        db := others(4);
        for i := 0 to |deviceIds|
          invariant db == others(4)
          invariant running == set d | d in deviceIds[..i] && d in db.firmware && db.firmware[d] == expected.value
        {
          assert forall d :: d in deviceIds[..i + 1] <==> d in deviceIds[..i] || d == deviceIds[i];
          if deviceIds[i] in db.firmware && db.firmware[deviceIds[i]] == expected.value {
            running := running + {deviceIds[i]};
          }
        }
        assert deviceIds[..|deviceIds|] == deviceIds;
      }
    }
  }

  predicate Older(ts: Targets, a: Id, b: Id)
    requires a in ts && b in ts
  {
    ts[a].createdAt < ts[b].createdAt || (ts[a].createdAt == ts[b].createdAt && a < b)
  }

  lemma SubsetSize(a: set<Id>, b: set<Id>)
    requires a <= b
    ensures |a| <= |b|
  {
    assert |b - a| == |b| - |a|;
  }
}
