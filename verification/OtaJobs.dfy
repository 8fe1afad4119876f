/**
 * The OTA job stream on top of the OTA target table: what the stream reads of a
 * job is a list of its targets, so the conditions under which deltas work are
 * met by every job that was ever created.
 */
module OtaJobs {
  import opened Bytes
  import OtaTargets
  import OtaHub
  import OtaListeners

  type Id = OtaTargets.Id

  function StateText(s: OtaTargets.State): OtaHub.StateName {
    match s
    case Pending => "pending"
    case Leased => "leased"
    case Delivered => "delivered"
    case Delivering => "delivering"
    case Downloaded => "downloaded"
    case Installed => "installed"
    case Expired => "expired"
    case Completed => "completed"
    case Failed => "failed"
  }

  /** The columns of one target that the stream selects, with what its device last reported. */
  function RowOf(db: OtaTargets.Db, id: Id): OtaHub.Row
    requires id in db.targets
  {
    var t := db.targets[id];
    OtaHub.Row(t.device, StateText(t.state), t.resultCode,
      if t.device in db.firmware then Some(db.firmware[t.device]) else None)
  }

  function Staff(db: OtaTargets.Db, job: Id): map<Id, Id> { OtaTargets.Staff(OtaTargets.OwnersOf(db), job) }

  /** The targets of a job, each once, in some order. */
  ghost predicate Lists(ids: seq<Id>, db: OtaTargets.Db, job: Id) {
    OtaTargets.Distinct(ids) && forall id :: id in ids <==> id in Staff(db, job)
  }

  function Rows(db: OtaTargets.Db, ids: seq<Id>): OtaHub.Snapshot
    requires forall id :: id in ids ==> id in db.targets
  {
    seq(|ids|, i requires 0 <= i < |ids| => RowOf(db, ids[i]))
  }

  /** What a read of the job may return. */
  ghost predicate Content(db: OtaTargets.Db, job: Id, rows: OtaHub.Snapshot) {
    exists ids :: Lists(ids, db, job) && rows == Rows(db, ids)
  }

  lemma ContentGood(db: OtaTargets.Db, job: Id, rows: OtaHub.Snapshot)
    requires OtaTargets.Sound(db) && job in db.jobs && Content(db, job, rows)
    ensures OtaHub.GoodSnapshot(rows) && OtaHub.Devices(rows) == Staff(db, job).Values
  {
    var ids :| Lists(ids, db, job) && rows == Rows(db, ids);
    var owners := OtaTargets.OwnersOf(db);
    assert OtaTargets.Staffed(owners, job);
    var one :| one in owners && owners[one].job == job;
    assert one in Staff(db, job) && one in ids;
    forall i, j | 0 <= i < j < |rows| ensures rows[i].device != rows[j].device {
      ListedApart(db, job, ids, i, j);
    }
    ContentDevices(db, job, ids);
  }

  lemma ListedApart(db: OtaTargets.Db, job: Id, ids: seq<Id>, i: nat, j: nat)
    requires OtaTargets.Sound(db) && Lists(ids, db, job) && i < j < |ids|
    ensures ids[i] in db.targets && ids[j] in db.targets && db.targets[ids[i]].device != db.targets[ids[j]].device
  {
    var owners := OtaTargets.OwnersOf(db);
    assert ids[i] in Staff(db, job) && ids[j] in Staff(db, job);
    assert owners[ids[i]].job == owners[ids[j]].job == job;
  }

  lemma ContentDevices(db: OtaTargets.Db, job: Id, ids: seq<Id>)
    requires Lists(ids, db, job)
    ensures OtaHub.Devices(Rows(db, ids)) == Staff(db, job).Values
  {
    var rows, staff := Rows(db, ids), Staff(db, job);
    forall d | d in OtaHub.Devices(rows) ensures d in staff.Values {
      var i :| 0 <= i < |rows| && rows[i].device == d;
      assert ids[i] in ids && ids[i] in staff;
    }
    forall d | d in staff.Values ensures d in OtaHub.Devices(rows) {
      var id :| id in staff && staff[id] == d;
      var i :| 0 <= i < |ids| && ids[i] == id;
      assert rows[i].device == d;
    }
  }

  /** A job that a run of the table has created can be read only as a snapshot that deltas can handle. */
  lemma CreatedJobGood(es: seq<OtaTargets.Event>, job: Id, rows: OtaHub.Snapshot)
    requires job in OtaTargets.Run(OtaTargets.EMPTY, es).jobs &&
      Content(OtaTargets.Run(OtaTargets.EMPTY, es), job, rows)
    ensures OtaHub.GoodSnapshot(rows)
  {
    OtaTargets.RunSound(es);
    ContentGood(OtaTargets.Run(OtaTargets.EMPTY, es), job, rows);
  }

  // --- The stream over the table -------------------------------------------

  function At(es: seq<OtaTargets.Event>, n: nat): OtaTargets.Db
    requires n <= |es|
  {
    OtaTargets.Run(OtaTargets.EMPTY, es[..n])
  }

  ghost predicate ContentAt(es: seq<OtaTargets.Event>, n: nat, job: Id, rows: OtaHub.Snapshot) {
    n <= |es| && job in At(es, n).jobs && Content(At(es, n), job, rows)
  }

  /** Every content that the stream may read is what the job was at some moment of the table's run. */
  ghost predicate Fed(stream: seq<OtaHub.Event>, es: seq<OtaTargets.Event>, job: Id) {
    forall i :: 0 <= i < |stream| && stream[i].Commits? ==> exists n: nat :: ContentAt(es, n, job, stream[i].rows)
  }

  lemma {:induction false} RunJoin(db: OtaTargets.Db, es: seq<OtaTargets.Event>, fs: seq<OtaTargets.Event>)
    ensures OtaTargets.Run(db, es + fs) == OtaTargets.Run(OtaTargets.Run(db, es), fs)
  {
    if fs == [] {
      assert es + fs == es;
    } else {
      var front := fs[..|fs| - 1];
      assert (es + fs)[..|es + fs| - 1] == es + front;
      RunJoin(db, es, front);
    }
  }

  lemma ContentAtGood(es: seq<OtaTargets.Event>, n: nat, job: Id, rows: OtaHub.Snapshot)
    requires ContentAt(es, n, job, rows)
    ensures OtaHub.GoodSnapshot(rows)
    ensures OtaHub.Devices(rows) == Staff(OtaTargets.Run(OtaTargets.EMPTY, es), job).Values
  {
    OtaTargets.RunSound(es[..n]);
    ContentGood(At(es, n), job, rows);
    assert es == es[..n] + es[n..];
    RunJoin(OtaTargets.EMPTY, es[..n], es[n..]);
    OtaTargets.StaffConstant(At(es, n), es[n..], job);
  }

  /**
   * In every interleaving of the stream over every run of the table, a socket that joined a job's stream, has not left
   * and is open is owed a full frame or holds exactly the job's devices, each with its state, result code and firmware
   * of the content last compared. Nothing is assumed of the contents.
   */
  lemma StreamAgrees(stream: seq<OtaHub.Event>, es: seq<OtaTargets.Event>, job: Id, debounce: nat, ws: OtaHub.Socket)
    requires Fed(stream, es, job) && OtaListeners.Subscribed(stream, ws) && OtaListeners.StillOpen(stream, ws)
    ensures var w := OtaHub.Run(OtaHub.START, stream, debounce);
      w.hub.fullNext || (
        && ws in w.views
        && w.views[ws].Keys == OtaHub.Devices(w.compared) == Staff(OtaTargets.Run(OtaTargets.EMPTY, es), job).Values
        && (exists n: nat :: ContentAt(es, n, job, w.compared))
        && forall i :: 0 <= i < |w.compared| ==>
             OtaHub.SameColumns(w.views[ws][w.compared[i].device], w.compared[i]))
  {
    var ds := Staff(OtaTargets.Run(OtaTargets.EMPTY, es), job).Values;
    FedGood(stream, es, job);
    OtaListeners.SubscriberHolds(stream, debounce, ws, ds);
    var w := OtaHub.Run(OtaHub.START, stream, debounce);
    if !w.hub.fullNext { ContentsFed(stream, es, job, w.comparedAt - 1); }
  }

  lemma FedGood(stream: seq<OtaHub.Event>, es: seq<OtaTargets.Event>, job: Id)
    requires Fed(stream, es, job)
    ensures OtaHub.GoodCommits(stream)
    ensures OtaHub.CommitsAbout(stream, Staff(OtaTargets.Run(OtaTargets.EMPTY, es), job).Values)
  {
    var ds := Staff(OtaTargets.Run(OtaTargets.EMPTY, es), job).Values;
    forall i | 0 <= i < |stream| && stream[i].Commits?
      ensures OtaHub.GoodSnapshot(stream[i].rows) && OtaHub.Devices(stream[i].rows) == ds
    {
      var n: nat :| ContentAt(es, n, job, stream[i].rows);
      ContentAtGood(es, n, job, stream[i].rows);
    }
  }

  /** Every content of the stream is what the job was at some moment. */
  lemma {:induction false} ContentsFed(stream: seq<OtaHub.Event>, es: seq<OtaTargets.Event>, job: Id, k: nat)
    requires Fed(stream, es, job) && k < |OtaListeners.Contents(stream)|
    ensures exists n: nat :: ContentAt(es, n, job, OtaListeners.Contents(stream)[k])
    decreases |stream|
  {
    var front := stream[..|stream| - 1];
    if k < |OtaListeners.Contents(front)| {
      forall i | 0 <= i < |front| && front[i].Commits? ensures exists n: nat :: ContentAt(es, n, job, front[i].rows) {
        assert front[i] == stream[i];
      }
      ContentsFed(front, es, job, k);
      assert OtaListeners.Contents(stream)[k] == OtaListeners.Contents(front)[k];
    } else {
      var last := stream[|stream| - 1];
      assert OtaListeners.Contents(stream) == OtaListeners.Contents(front) + [last.rows];
      var n: nat :| ContentAt(es, n, job, last.rows);
      assert OtaListeners.Contents(stream)[k] == last.rows;
    }
  }
}
