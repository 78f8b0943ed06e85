/** The leased job queue of assistant/indexing/pipeline.py: one table, changed by `enqueue`,
`claim` and `finish`, each of them one transaction. */
module JobQueue {
  import opened Wrappers
  import opened Ordering

  type JobId = string

  datatype Status = Pending | Running | Done | Dead

  /** `due` is the earliest start of a pending row and the end of the lease of a running one. */
  datatype Row = Row(refresh: bool, staffDir: Option<string>, status: Status, attempts: nat,
                     due: real, lease: Option<nat>, error: string, snapshot: string)

  type Table = map<JobId, Row>

  /** A row as `claim` hands it to a worker. */
  datatype Job = Job(id: JobId, row: Row)

  /** How the body of `work` ended. */
  datatype Outcome = Raised(message: string) | Published(snapshot: string)

  const MAX_ATTEMPTS: nat := 3
  const LEASE_SECONDS: real := 86400.0

  // -------------------------------------------------------- ORDER BY due, id

  predicate RowLe(t: Table, a: JobId, b: JobId)
    requires a in t && b in t
  {
    t[a].due < t[b].due || (t[a].due == t[b].due && TextLe(a, b))
  }

  predicate IsFirst(t: Table, ids: set<JobId>, id: JobId)
    requires ids <= t.Keys
  {
    id in ids && forall other :: other in ids ==> RowLe(t, id, other)
  }

  lemma {:induction false} FindFirst(t: Table, ids: set<JobId>) returns (id: JobId)
    requires ids != {} && ids <= t.Keys
    ensures IsFirst(t, ids, id)
    decreases |ids|
  {
    var some :| some in ids;
    TextLeOrder(some, some, some);
    id := some;
    if ids != {some} {
      var others := ids - {some};
      assert ids == others + {some};
      var first := FindFirst(t, others);
      TextLeOrder(first, some, some);
      forall other | other in others
        ensures RowLe(t, some, first) ==> RowLe(t, some, other)
      {
        TextLeOrder(some, first, other);
      }
      id := if RowLe(t, some, first) then some else first;
    }
  }

  lemma FirstExists(t: Table, ids: set<JobId>)
    requires ids != {} && ids <= t.Keys
    ensures exists id :: IsFirst(t, ids, id)
  {
    var id := FindFirst(t, ids);
  }

  lemma FirstUnique(t: Table, ids: set<JobId>, a: JobId, b: JobId)
    requires ids <= t.Keys && IsFirst(t, ids, a) && IsFirst(t, ids, b)
    ensures a == b
  {
    TextLeOrder(a, b, a);
  }

  ghost function First(t: Table, ids: set<JobId>): (id: JobId)
    requires ids != {} && ids <= t.Keys
    ensures IsFirst(t, ids, id)
  {
    FirstExists(t, ids);
    var id :| IsFirst(t, ids, id);
    id
  }

  // ----------------------------------------------------- the transactions

  /** `INSERT OR IGNORE`. */
  function Enqueued(t: Table, id: JobId, refresh: bool, staffDir: string, now: real): Table {
    if id in t then t
    else t[id := Row(refresh, if staffDir == "" then None else Some(staffDir), Pending, 0, now, None, "", "")]
  }

  /** The first update of `claim`: expired rows with no attempt left are buried. */
  function Swept(t: Table, now: real): Table {
    map id | id in t ::
      if t[id].status == Running && t[id].due <= now && t[id].attempts >= MAX_ATTEMPTS
      then t[id].(status := Dead, error := "worker lease expired") else t[id]
  }

  predicate LeaseHeld(t: Table, now: real) {
    exists id :: id in t && t[id].status == Running && t[id].due > now
  }

  function Eligible(t: Table, now: real): (ids: set<JobId>)
    ensures ids <= t.Keys
  {
    set id | id in t && (t[id].status == Pending || t[id].status == Running) && t[id].due <= now
  }

  /** The row that `claim` selects, if it selects one. */
  ghost function Selected(t: Table, now: real): (id: Option<JobId>)
    ensures id.Some? ==> id.value in t
  {
    var swept := Swept(t, now);
    if LeaseHeld(swept, now) || Eligible(swept, now) == {} then None
    else Some(First(swept, Eligible(swept, now)))
  }

  function Leased(row: Row, now: real, leaseSeconds: real, token: nat): Row {
    row.(status := Running, attempts := row.attempts + 1, lease := Some(token), due := now + leaseSeconds)
  }

  ghost function Claimed(t: Table, now: real, leaseSeconds: real, token: nat): (Table, Option<Job>) {
    var swept := Swept(t, now);
    match Selected(t, now)
    case None => (swept, None)
    case Some(id) =>
      var row := Leased(swept[id], now, leaseSeconds, token);
      (swept[id := row], Some(Job(id, row)))
  }

  function Pow2(n: nat): (p: nat)
    ensures p > 0
  {
    if n == 0 then 1 else 2 * Pow2(n - 1)
  }

  function Backoff(attempts: nat): (seconds: real)
    ensures seconds > 0.0
  {
    if attempts == 0 then 30.0 else 60.0 * Pow2(attempts - 1) as real
  }

  /** The condition of the update in `finish`: the row still runs under this attempt's token. */
  predicate Holds(t: Table, job: Job) {
    job.id in t && t[job.id].status == Running && job.row.lease.Some? && t[job.id].lease == job.row.lease
  }

  function Settled(row: Row, attempts: nat, now: real, error: string, snapshot: string): Row {
    var status := if error == "" then Done else if attempts >= MAX_ATTEMPTS then Dead else Pending;
    row.(status := status, due := now + Backoff(attempts), error := error, snapshot := snapshot, lease := None)
  }

  function Finished(t: Table, job: Job, now: real, error: string, snapshot: string): Table {
    if Holds(t, job) then t[job.id := Settled(t[job.id], job.row.attempts, now, error, snapshot)] else t
  }

  // ------------------------------------------------------------- the class

  class Queue {
    var rows: Table
    /** Tokens drawn so far: each draw is a value never drawn before, as a uuid is. */
    var issued: nat

    constructor (stored: Table, issued: nat)
      ensures rows == stored && this.issued == issued
    {
      rows := stored;
      this.issued := issued;
    }

    method Enqueue(id: JobId, refresh: bool, staffDir: string, now: real)
      modifies this`rows
      ensures rows == Enqueued(old(rows), id, refresh, staffDir, now)
    {
      if id !in rows {
        rows := rows[id := Row(refresh, if staffDir == "" then None else Some(staffDir), Pending, 0, now, None, "", "")];
      }
    }

    method Claim(now: real, leaseSeconds: real) returns (job: Option<Job>)
      modifies this
      ensures (rows, job) == Claimed(old(rows), now, leaseSeconds, old(issued))
      ensures issued == if job.Some? then old(issued) + 1 else old(issued)
    {
      rows := Swept(rows, now);
      var ids := Eligible(rows, now);
      if LeaseHeld(rows, now) || ids == {} {
        return None;
      }
      ghost var least := First(rows, ids);
      var id :| id in ids && forall other :: other in ids ==> RowLe(rows, id, other);
      FirstUnique(rows, ids, least, id);
      rows := rows[id := Leased(rows[id], now, leaseSeconds, issued)];
      issued := issued + 1;
      job := Some(Job(id, rows[id]));
    }

    /** `ok` is false where the source raises because the lease is no longer this attempt's. */
    method Finish(job: Job, now: real, error: string, snapshot: string) returns (ok: bool)
      modifies this`rows
      ensures ok == Holds(old(rows), job)
      ensures rows == Finished(old(rows), job, now, error, snapshot)
    {
      var attempts := job.row.attempts;
      var status := if error != "" then (if attempts >= MAX_ATTEMPTS then Dead else Pending) else Done;
      ok := job.id in rows && rows[job.id].status == Running
            && job.row.lease.Some? && rows[job.id].lease == job.row.lease;
      if ok {
        rows := rows[job.id := rows[job.id].(status := status, due := now + Backoff(attempts),
                                             error := error, snapshot := snapshot, lease := None)];
      }
    }

    /** At most one job is run.  `outcome` is how its crawl and build would end, at `later`, and
    `meanwhile` what other invocations make of the table until then, drawing `drawn` tokens.  No
    code is returned where the source raises because the lease was lost. */
    method Work(now: real, later: real, outcome: Outcome, meanwhile: Table -> Table, drawn: nat)
      returns (code: Option<int>)
      modifies this
      ensures var (claimed, job) := Claimed(old(rows), now, LEASE_SECONDS, old(issued));
              if job.None? then rows == claimed && issued == old(issued) && code == Some(0)
              else
                && rows == Recorded(meanwhile(claimed), job.value, later, outcome)
                && issued == old(issued) + 1 + drawn
                && code == (if !Holds(meanwhile(claimed), job.value) then None
                            else if outcome.Published? then Some(0) else Some(1))
    {
      var job := Claim(now, LEASE_SECONDS);
      if job.None? {
        return Some(0);
      }
      rows, issued := meanwhile(rows), issued + drawn;
      match outcome {
        case Raised(message) =>
          var ok := Finish(job.value, later, message, "");
          code := if ok then Some(1) else None;
        case Published(snapshot) =>
          var ok := Finish(job.value, later, "", snapshot);
          code := if ok then Some(0) else None;
      }
    }
  }

  /** What the end of `work` makes of the table. */
  function Recorded(t: Table, job: Job, now: real, outcome: Outcome): Table {
    match outcome
    case Raised(message) => Finished(t, job, now, message, "")
    case Published(snapshot) => Finished(t, job, now, "", snapshot)
  }

  /** While the lease is held, `work` records an exception as a failure exactly when its text is
  not empty, and otherwise as a success; once it is lost, it records nothing. */
  lemma WorkRecordsFailure(t: Table, job: Job, now: real, message: string)
    ensures Holds(t, job) ==> (Recorded(t, job, now, Raised(message))[job.id].status != Done <==> message != "")
    ensures !Holds(t, job) ==> Recorded(t, job, now, Raised(message)) == t
  {
  }

  /** What it leaves on the row: a success the snapshot and no text, a failure the text and no
  snapshot, waiting again or after the third attempt dead; the lease is given up in any case, and
  no other row is touched. */
  lemma WorkLeaves(t: Table, job: Job, now: real, outcome: Outcome)
    requires Holds(t, job) && (outcome.Raised? ==> outcome.message != "")
    ensures var after := Recorded(t, job, now, outcome);
            && after.Keys == t.Keys && (forall id :: id in t && id != job.id ==> after[id] == t[id])
            && after[job.id].lease == None && after[job.id].attempts == t[job.id].attempts
            && after[job.id].refresh == t[job.id].refresh && after[job.id].staffDir == t[job.id].staffDir
            && match outcome
               case Published(snapshot) =>
                 after[job.id].status == Done && after[job.id].snapshot == snapshot && after[job.id].error == ""
               case Raised(message) =>
                 && after[job.id].status == (if job.row.attempts >= 3 then Dead else Pending)
                 && after[job.id].error == message && after[job.id].snapshot == ""
  {
  }

  /** A job that was just claimed is held. */
  lemma ClaimedIsHeld(t: Table, now: real, leaseSeconds: real, token: nat)
    ensures var (claimed, job) := Claimed(t, now, leaseSeconds, token); job.Some? ==> Holds(claimed, job.value)
  {
  }
}
