/** Every run of the job queue: any interleaving of scheduler invocations and workers, with
workers that crash, come back late or finish twice. */
module JobRuns {
  import opened Wrappers
  import opened JobQueue

  /** A worker is known by its place in the log of claims, which is also its token.  A crash
  is a claim that no `Finish` refers to; a late worker is a `Finish` long after its claim. */
  datatype Event =
    | Enqueue(id: JobId, refresh: bool, staffDir: string, now: real)
    | Claim(now: real, leaseSeconds: real)
    | Finish(worker: nat, now: real, error: string, snapshot: string)

  datatype State = State(rows: Table, claims: seq<Job>)

  ghost function Next(s: State, e: Event): State {
    match e
    case Enqueue(id, refresh, staffDir, now) => s.(rows := Enqueued(s.rows, id, refresh, staffDir, now))
    case Claim(now, leaseSeconds) =>
      var (rows, job) := Claimed(s.rows, now, leaseSeconds, |s.claims|);
      State(rows, if job.Some? then s.claims + [job.value] else s.claims)
    case Finish(worker, now, error, snapshot) =>
      if worker < |s.claims| then s.(rows := Finished(s.rows, s.claims[worker], now, error, snapshot)) else s
  }

  ghost function Run(s: State, es: seq<Event>): State {
    if es == [] then s else Next(Run(s, es[..|es| - 1]), es[|es| - 1])
  }

  const EMPTY: State := State(map[], [])

  // -------------------------------------------------------------- invariant

  /** How many of the claims took this job. */
  ghost function Tries(claims: seq<Job>, id: JobId): nat {
    if claims == [] then 0
    else Tries(claims[..|claims| - 1], id) + (if claims[|claims| - 1].id == id then 1 else 0)
  }

  /** No later claim took the same job. */
  ghost predicate Newest(claims: seq<Job>, k: nat) {
    k < |claims| && forall j :: k < j < |claims| ==> claims[j].id != claims[k].id
  }

  ghost predicate GoodRow(row: Row, id: JobId, claims: seq<Job>) {
    && row.attempts == Tries(claims, id) && row.attempts <= MAX_ATTEMPTS
    && (row.status == Pending ==> row.attempts < MAX_ATTEMPTS)
    && (row.status == Running || row.status == Done ==> row.attempts >= 1)
    && (row.status == Dead ==> row.attempts == MAX_ATTEMPTS)
    && (row.status == Running ==>
          && row.lease.Some? && Newest(claims, row.lease.value)
          && claims[row.lease.value].id == id && claims[row.lease.value].row.attempts == row.attempts)
  }

  ghost predicate Inv(s: State) {
    && (forall id :: id in s.rows ==> GoodRow(s.rows[id], id, s.claims))
    && (forall k :: 0 <= k < |s.claims| ==> s.claims[k].id in s.rows && s.claims[k].row.lease == Some(k))
    && (forall id :: id !in s.rows ==> Tries(s.claims, id) == 0)
  }

  lemma EnqueueKeepsInv(s: State, e: Event)
    requires Inv(s) && e.Enqueue?
    ensures Inv(Next(s, e))
  {
  }

  lemma FinishKeepsInv(s: State, e: Event)
    requires Inv(s) && e.Finish?
    ensures Inv(Next(s, e))
  {
  }

  lemma TriesPush(claims: seq<Job>, job: Job, id: JobId)
    ensures Tries(claims + [job], id) == Tries(claims, id) + (if job.id == id then 1 else 0)
  {
    assert (claims + [job])[..|claims|] == claims;
  }

  lemma SweepKeepsInv(s: State, now: real)
    requires Inv(s)
    ensures Inv(s.(rows := Swept(s.rows, now)))
  {
    hide Tries;
  }

  lemma LeaseKeepsInv(s: State, id: JobId, now: real, leaseSeconds: real)
    requires Inv(s) && id in s.rows && s.rows[id].attempts < MAX_ATTEMPTS
    ensures var row := Leased(s.rows[id], now, leaseSeconds, |s.claims|);
            Inv(State(s.rows[id := row], s.claims + [Job(id, row)]))
  {
    hide Tries;
    var job := Job(id, Leased(s.rows[id], now, leaseSeconds, |s.claims|));
    forall other {
      TriesPush(s.claims, job, other);
    }
  }

  lemma SelectedHasAttempt(s: State, now: real)
    requires Inv(s)
    ensures var id := Selected(s.rows, now);
            id.Some? ==> Swept(s.rows, now)[id.value].attempts < MAX_ATTEMPTS
  {
    var id := Selected(s.rows, now);
    if id.Some? {
      assert id.value in Eligible(Swept(s.rows, now), now);
      assert GoodRow(s.rows[id.value], id.value, s.claims);
    }
  }

  lemma ClaimKeepsInv(s: State, e: Event)
    requires Inv(s) && e.Claim?
    ensures Inv(Next(s, e))
  {
    hide Inv, Swept, Selected;
    var id := Selected(s.rows, e.now);
    SweepKeepsInv(s, e.now);
    SelectedHasAttempt(s, e.now);
    SweptKeys(s.rows, e.now);
    if id.Some? {
      LeaseKeepsInv(s.(rows := Swept(s.rows, e.now)), id.value, e.now, e.leaseSeconds);
    }
  }

  lemma SweptKeys(t: Table, now: real)
    ensures Swept(t, now).Keys == t.Keys
  {
  }

  lemma {:induction false} RunKeepsInv(s: State, es: seq<Event>)
    requires Inv(s)
    ensures Inv(Run(s, es))
  {
    if es != [] {
      RunKeepsInv(s, es[..|es| - 1]);
      StepKeepsInv(Run(s, es[..|es| - 1]), es[|es| - 1]);
    }
  }

  lemma StepKeepsInv(s: State, e: Event)
    requires Inv(s)
    ensures Inv(Next(s, e))
  {
    hide Inv, Next;
    match e
    case Enqueue(_, _, _, _) => EnqueueKeepsInv(s, e);
    case Claim(_, _) => ClaimKeepsInv(s, e);
    case Finish(_, _, _, _) => FinishKeepsInv(s, e);
  }

  /** In every run the attempts of a row are within the bounds its status allows, and count the
  claims that took it. */
  lemma AttemptsBounded(es: seq<Event>, id: JobId)
    requires id in Run(EMPTY, es).rows
    ensures var row := Run(EMPTY, es).rows[id];
            && row.attempts == Tries(Run(EMPTY, es).claims, id)
            && (row.status == Pending ==> row.attempts <= 2)
            && (row.status == Running || row.status == Done ==> 1 <= row.attempts <= 3)
            && (row.status == Dead ==> row.attempts == 3)
  {
    RunKeepsInv(EMPTY, es);
  }

  // ------------------------------------------------------------- absorption

  predicate Terminal(row: Row) {
    row.status == Done || row.status == Dead
  }

  /** A row that is done or dead never changes again. */
  lemma {:induction false} TerminalStays(s: State, es: seq<Event>, id: JobId)
    requires id in s.rows && Terminal(s.rows[id])
    ensures id in Run(s, es).rows && Run(s, es).rows[id] == s.rows[id]
  {
    if es != [] {
      TerminalStays(s, es[..|es| - 1], id);
    }
  }

  // ---------------------------------------------------------- sums over rows

  ghost function Sum(t: Table, weight: Row -> nat): nat
    decreases |t|
  {
    if t == map[] then 0
    else
      var id :| id in t;
      weight(t[id]) + Sum(t - {id}, weight)
  }

  lemma {:induction false} SumTake(t: Table, weight: Row -> nat, id: JobId)
    requires id in t
    ensures Sum(t, weight) == weight(t[id]) + Sum(t - {id}, weight)
    decreases |t|
  {
    var first: JobId :| first in t && Sum(t, weight) == weight(t[first]) + Sum(t - {first}, weight);
    if first != id {
      SumTake(t - {first}, weight, id);
      SumTake(t - {id}, weight, first);
      assert t - {first} - {id} == t - {id} - {first};
    }
  }

  /** Changing one row changes the sum by that row's difference. */
  lemma SumPut(t: Table, weight: Row -> nat, id: JobId, row: Row)
    ensures Sum(t[id := row], weight) == Sum(t - {id}, weight) + weight(row)
  {
    SumTake(t[id := row], weight, id);
    assert t[id := row] - {id} == t - {id};
  }

  /** Lighter rows have a smaller sum, strictly so if one of them is lighter. */
  lemma {:induction false} SumFalls(t: Table, t2: Table, weight: Row -> nat)
    requires t.Keys == t2.Keys && forall id :: id in t ==> weight(t2[id]) <= weight(t[id])
    ensures Sum(t2, weight) <= Sum(t, weight)
    ensures (exists id :: id in t && weight(t2[id]) < weight(t[id])) ==> Sum(t2, weight) < Sum(t, weight)
    decreases |t|
  {
    if t != map[] {
      var id :| id in t;
      if exists i :: i in t && weight(t2[i]) < weight(t[i]) {
        id :| id in t && weight(t2[id]) < weight(t[id]);
      }
      SumTake(t, weight, id);
      SumTake(t2, weight, id);
      SumFalls(t - {id}, t2 - {id}, weight);
    }
  }

  lemma {:induction false} SumAtMost3(t: Table, weight: Row -> nat)
    requires forall id :: id in t ==> weight(t[id]) <= 3
    ensures Sum(t, weight) <= 3 * |t|
    decreases |t|
  {
    if t != map[] {
      var id :| id in t;
      SumTake(t, weight, id);
      SumAtMost3(t - {id}, weight);
    }
  }

  // --------------------------------------------------------- bounded retrying

  /** What a row can still cost: two steps for each attempt left, and one to settle a running one. */
  function Potential(row: Row): nat {
    match row.status
    case Pending => if row.attempts <= 3 then 2 * (3 - row.attempts) else 0
    case Running => if row.attempts <= 3 then 2 * (3 - row.attempts) + 1 else 1
    case _ => 0
  }

  function Attempts(row: Row): nat {
    row.attempts
  }

  /** A step other than an enqueue that changed the table: a claim, a settled job or a sweep. */
  ghost predicate Effective(s: State, e: Event) {
    !e.Enqueue? && Next(s, e).rows != s.rows
  }

  ghost function EffectiveSteps(s: State, es: seq<Event>): nat {
    if es == [] then 0
    else
      var before := Run(s, es[..|es| - 1]);
      EffectiveSteps(s, es[..|es| - 1]) + (if Effective(before, es[|es| - 1]) then 1 else 0)
  }

  lemma SweepLowers(t: Table, now: real, id: JobId)
    requires id in t
    ensures var row := Swept(t, now)[id]; row == t[id] || Potential(row) < Potential(t[id])
  {
  }

  lemma LeaseLowers(row: Row, now: real, leaseSeconds: real, token: nat)
    requires row.attempts < MAX_ATTEMPTS && (row.status == Pending || row.status == Running)
    ensures Potential(Leased(row, now, leaseSeconds, token)) < Potential(row)
  {
  }

  lemma FinishLowers(s: State, worker: nat, now: real, error: string, snapshot: string, id: JobId)
    requires Inv(s) && id in s.rows && worker < |s.claims|
    ensures id in Finished(s.rows, s.claims[worker], now, error, snapshot)
    ensures var row := Finished(s.rows, s.claims[worker], now, error, snapshot)[id];
            row == s.rows[id] || Potential(row) < Potential(s.rows[id])
  {
    hide Tries, Backoff;
    assert GoodRow(s.rows[id], id, s.claims);
  }

  lemma RowFalls(s: State, e: Event, id: JobId)
    requires Inv(s) && !e.Enqueue? && id in s.rows
    ensures id in Next(s, e).rows
    ensures var row := Next(s, e).rows[id];
            row == s.rows[id] || Potential(row) < Potential(s.rows[id])
  {
    hide Inv, Potential, Selected, Finished;
    match e
    case Claim(now, leaseSeconds) =>
      SweepLowers(s.rows, now, id);
      SelectedHasAttempt(s, now);
      if Selected(s.rows, now) == Some(id) {
        SelectedIsOpen(s.rows, now);
        LeaseLowers(Swept(s.rows, now)[id], now, leaseSeconds, |s.claims|);
      }
    case Finish(worker, now, error, snapshot) =>
      if worker < |s.claims| {
        FinishLowers(s, worker, now, error, snapshot, id);
      }
  }

  lemma SelectedIsOpen(t: Table, now: real)
    ensures var id := Selected(t, now);
            id.Some? ==> Swept(t, now)[id.value].status == Pending || Swept(t, now)[id.value].status == Running
  {
    var id := Selected(t, now);
    assert id.Some? ==> id.value in Eligible(Swept(t, now), now);
  }

  /** Every effective step uses up potential. */
  lemma EffectiveFalls(s: State, e: Event)
    requires Inv(s) && !e.Enqueue?
    ensures Next(s, e).rows.Keys == s.rows.Keys
    ensures Sum(Next(s, e).rows, Potential) <= Sum(s.rows, Potential)
    ensures Effective(s, e) ==> Sum(Next(s, e).rows, Potential) < Sum(s.rows, Potential)
  {
    hide Potential, GoodRow, Inv, Sum;
    var t := Next(s, e).rows;
    forall id | id in t
      ensures id in s.rows && (t[id] == s.rows[id] || Potential(t[id]) < Potential(s.rows[id]))
    {
      RowFalls(s, e, id);
    }
    if t != s.rows {
      assert exists id :: id in t && t[id] != s.rows[id];
    }
    SumFalls(s.rows, t, Potential);
  }

  lemma EnqueueAdds(s: State, e: Event)
    requires e.Enqueue?
    ensures Sum(Next(s, e).rows, Potential) + 6 * |s.rows| <= Sum(s.rows, Potential) + 6 * |Next(s, e).rows|
  {
    if e.id !in s.rows {
      var t := Next(s, e).rows;
      assert s.rows - {e.id} == s.rows;
      assert t == s.rows[e.id := t[e.id]];
      SumPut(s.rows, Potential, e.id, t[e.id]);
    }
  }

  /** In every run `n` jobs allow at most `6 n` effective steps, whatever the workers do. */
  lemma {:induction false} StepsBounded(es: seq<Event>)
    ensures var s := Run(EMPTY, es);
            EffectiveSteps(EMPTY, es) + Sum(s.rows, Potential) <= 6 * |s.rows|
  {
    if es != [] {
      var before := Run(EMPTY, es[..|es| - 1]);
      var e := es[|es| - 1];
      StepsBounded(es[..|es| - 1]);
      RunKeepsInv(EMPTY, es[..|es| - 1]);
      if e.Enqueue? {
        EnqueueAdds(before, e);
      } else {
        EffectiveFalls(before, e);
        assert |Next(before, e).rows.Keys| == |before.rows.Keys|;
      }
    }
  }

  lemma ClaimCountsOne(t: Table, now: real, leaseSeconds: real, token: nat)
    ensures var (after, job) := Claimed(t, now, leaseSeconds, token);
            Sum(after, Attempts) == Sum(t, Attempts) + if job.Some? then 1 else 0
  {
    hide Sum;
    var swept := Swept(t, now);
    SumFalls(t, swept, Attempts);
    SumFalls(swept, t, Attempts);
    var id := Selected(t, now);
    if id.Some? {
      SumTake(swept, Attempts, id.value);
      SumPut(swept, Attempts, id.value, Leased(swept[id.value], now, leaseSeconds, token));
    }
  }

  lemma ClaimCounts(s: State, e: Event)
    requires Inv(s)
    ensures Sum(Next(s, e).rows, Attempts) - Sum(s.rows, Attempts) == |Next(s, e).claims| - |s.claims|
  {
    match e
    case Enqueue(id, _, _, _) =>
      if id !in s.rows {
        assert s.rows - {id} == s.rows;
        SumPut(s.rows, Attempts, id, Next(s, e).rows[id]);
      }
    case Claim(now, leaseSeconds) =>
      ClaimCountsOne(s.rows, now, leaseSeconds, |s.claims|);
    case Finish(_, _, _, _) =>
      SumFalls(s.rows, Next(s, e).rows, Attempts);
      SumFalls(Next(s, e).rows, s.rows, Attempts);
  }

  /** In every run the claims are exactly the attempts recorded, so `n` jobs allow at most `3 n`. */
  lemma {:induction false} ClaimsBounded(es: seq<Event>)
    ensures var s := Run(EMPTY, es);
            |s.claims| == Sum(s.rows, Attempts) && |s.claims| <= 3 * |s.rows|
  {
    RunKeepsInv(EMPTY, es);
    SumAtMost3(Run(EMPTY, es).rows, Attempts);
    if es != [] {
      RunKeepsInv(EMPTY, es[..|es| - 1]);
      ClaimsBounded(es[..|es| - 1]);
      ClaimCounts(Run(EMPTY, es[..|es| - 1]), es[|es| - 1]);
    }
  }

  // -------------------------------------------------------- one job at a time

  /** `at` is not before any claim of the run. */
  predicate NotBefore(es: seq<Event>, at: real) {
    forall i :: 0 <= i < |es| && es[i].Claim? ==> es[i].now <= at
  }

  predicate HoldsLease(t: Table, id: JobId, at: real) {
    id in t && t[id].status == Running && t[id].due > at
  }

  /** A claim that succeeds finds no unexpired lease but its own. */
  lemma OnlyTheClaimed(t: Table, now: real, at: real, id: JobId)
    requires now <= at && Selected(t, now).Some?
    ensures !HoldsLease(Swept(t, now), id, at)
  {
    assert !LeaseHeld(Swept(t, now), now);
  }

  /** In every run, at any time that no claim is later than, at most one job holds an unexpired
  lease.  Neither an order of the claim times nor a positive lease is needed for it. */
  lemma {:induction false} OneLease(es: seq<Event>, at: real, a: JobId, b: JobId)
    requires NotBefore(es, at)
    requires var t := Run(EMPTY, es).rows; HoldsLease(t, a, at) && HoldsLease(t, b, at)
    ensures a == b
  {
    if es != [] {
      var e := es[|es| - 1];
      var t := Run(EMPTY, es[..|es| - 1]).rows;
      if e.Claim? && Selected(t, e.now).Some? {
        OnlyTheClaimed(t, e.now, at, a);
        OnlyTheClaimed(t, e.now, at, b);
      } else {
        OneLease(es[..|es| - 1], at, a, b);
      }
    }
  }

  // --------------------------------------------------- what a claim hands out

  /** A row that a worker may be given: due, and waiting or abandoned with an attempt to spare. */
  predicate Claimable(t: Table, id: JobId, now: real) {
    && id in t && t[id].due <= now
    && (t[id].status == Pending || (t[id].status == Running && t[id].attempts < MAX_ATTEMPTS))
  }

  /** An abandoned row whose attempts are used up. */
  predicate Abandoned(t: Table, id: JobId, now: real) {
    id in t && t[id].status == Running && t[id].due <= now && t[id].attempts >= MAX_ATTEMPTS
  }

  lemma EligibleIsClaimable(t: Table, now: real, id: JobId)
    ensures id in Eligible(Swept(t, now), now) <==> Claimable(t, id, now)
    ensures LeaseHeld(Swept(t, now), now) <==> LeaseHeld(t, now)
  {
    if LeaseHeld(t, now) {
      var held :| held in t && t[held].status == Running && t[held].due > now;
      assert Swept(t, now)[held] == t[held];
    }
  }

  /** A claim fails exactly when a lease is running or nothing may be handed out. */
  lemma ClaimFailsWhen(t: Table, now: real, leaseSeconds: real, token: nat)
    ensures Claimed(t, now, leaseSeconds, token).1.None?
            <==> (LeaseHeld(t, now) || forall id :: id in t ==> !Claimable(t, id, now))
  {
    hide Swept, Eligible, LeaseHeld;
    forall id
      ensures id in Eligible(Swept(t, now), now) <==> Claimable(t, id, now)
    {
      EligibleIsClaimable(t, now, id);
    }
    EligibleIsClaimable(t, now, "");
    if Eligible(Swept(t, now), now) != {} {
      var id :| id in Eligible(Swept(t, now), now);
      assert Claimable(t, id, now);
    }
  }

  /** One that succeeds takes the least claimable row by due time and id, leases it under the new
  token, and leaves the other rows alone but for burying the abandoned ones. */
  lemma ClaimTakesLeast(t: Table, now: real, leaseSeconds: real, token: nat)
    requires Claimed(t, now, leaseSeconds, token).1.Some?
    ensures var (after, job) := Claimed(t, now, leaseSeconds, token);
            var id := job.value.id;
            && Claimable(t, id, now) && after.Keys == t.Keys && after[id] == job.value.row
            && (forall other :: Claimable(t, other, now) ==> RowLe(t, id, other))
            && after[id] == t[id].(status := Running, attempts := t[id].attempts + 1,
                                   lease := Some(token), due := now + leaseSeconds)
            && (forall other :: other in t && other != id ==>
                  after[other] == if Abandoned(t, other, now)
                                  then t[other].(status := Dead, error := "worker lease expired") else t[other])
  {
    hide Eligible;
    var id := Selected(t, now).value;
    assert IsFirst(Swept(t, now), Eligible(Swept(t, now), now), id);
    EligibleIsClaimable(t, now, id);
    forall other | Claimable(t, other, now)
      ensures RowLe(t, id, other)
    {
      EligibleIsClaimable(t, now, other);
      assert RowLe(Swept(t, now), id, other);
    }
  }

  // -------------------------------------------------------- who wrote it

  /** The step by `e` from `s` brings the row of `id` to its end: the newest attempt published,
  or failed for the third time, or a claim found that attempt abandoned. */
  ghost predicate Ends(s: State, e: Event, id: JobId, row: Row) {
    && id in s.rows && s.rows[id].status == Running
    && match e
       case Enqueue(_, _, _, _) => false
       case Claim(now, _) =>
         Abandoned(s.rows, id, now) && row == s.rows[id].(status := Dead, error := "worker lease expired")
       case Finish(worker, now, error, snapshot) =>
         && Newest(s.claims, worker) && s.claims[worker].id == id
         && row.error == error && row.snapshot == snapshot && row.lease == None
         && if error == "" then row.status == Done else row.status == Dead && s.rows[id].attempts == 3
  }

  lemma TerminalStep(s: State, e: Event, id: JobId)
    requires Inv(s) && id in Next(s, e).rows && Terminal(Next(s, e).rows[id])
    ensures id in s.rows
    ensures !Terminal(s.rows[id]) ==> Ends(s, e, id, Next(s, e).rows[id])
  {
    hide Tries;
    if id in s.rows {
      assert GoodRow(s.rows[id], id, s.claims);
    }
  }

  /** In every run each outcome was written by the newest attempt at its job or by the burial of
  that attempt, at some step of the run, and still stands as written. */
  lemma {:induction false} OutcomeWritten(es: seq<Event>, id: JobId)
    requires id in Run(EMPTY, es).rows && Terminal(Run(EMPTY, es).rows[id])
    ensures exists i: nat :: i < |es| && Ends(Run(EMPTY, es[..i]), es[i], id, Run(EMPTY, es).rows[id])
  {
    hide Inv, Next, Ends;
    if es != [] {
      var front := es[..|es| - 1];
      var s := Run(EMPTY, front);
      RunKeepsInv(EMPTY, front) by {
        EmptyInv();
      }
      TerminalStep(s, es[|es| - 1], id);
      if Terminal(s.rows[id]) {
        OutcomeWritten(front, id);
        var i: nat :| i < |front| && Ends(Run(EMPTY, front[..i]), front[i], id, s.rows[id]);
        assert front[..i] == es[..i];
        StepKeepsTerminal(s, es[|es| - 1], id);
      } else {
        assert es[..|es| - 1] == front;
      }
    }
  }

  lemma StepKeepsTerminal(s: State, e: Event, id: JobId)
    requires id in s.rows && Terminal(s.rows[id])
    ensures id in Next(s, e).rows && Next(s, e).rows[id] == s.rows[id]
  {
  }

  // ------------------------------------------------------- stale workers

  /** Once its job was claimed again, a worker's `Finish` changes nothing, now and for ever. */
  lemma SupersededIsPowerless(es: seq<Event>, worker: nat, later: nat, now: real, error: string, snapshot: string)
    requires worker < later < |Run(EMPTY, es).claims|
    requires Run(EMPTY, es).claims[worker].id == Run(EMPTY, es).claims[later].id
    ensures var s := Run(EMPTY, es);
            && !Holds(s.rows, s.claims[worker])
            && Next(s, Finish(worker, now, error, snapshot)) == s
  {
    RunKeepsInv(EMPTY, es);
  }

  /** A change that `Finish` makes is written by the newest claim of that job. */
  lemma OnlyNewestFinishes(es: seq<Event>, worker: nat, now: real, error: string, snapshot: string)
    requires var s := Run(EMPTY, es); Next(s, Finish(worker, now, error, snapshot)) != s
    ensures var s := Run(EMPTY, es);
            Newest(s.claims, worker) && s.rows[s.claims[worker].id].attempts == s.claims[worker].row.attempts
  {
    RunKeepsInv(EMPTY, es);
  }

  // --------------------------------------------------------------- backoff

  /** The step from `s` by `e` hands out the job `id`. */
  ghost predicate Takes(s: State, e: Event, id: JobId) {
    e.Claim? && Selected(s.rows, e.now) == Some(id)
  }

  lemma PendingStep(s: State, e: Event, id: JobId)
    requires id in s.rows && s.rows[id].status == Pending
    requires forall k :: 0 <= k < |s.claims| ==> s.claims[k].row.lease.Some?
    ensures id in Next(s, e).rows
    ensures Next(s, e).rows[id] == s.rows[id] || (Takes(s, e, id) && e.now >= s.rows[id].due)
  {
  }

  /** The row of `id` is what it was through the first `i` steps. */
  ghost predicate Unchanged(s: State, es: seq<Event>, id: JobId, i: nat)
    requires id in s.rows && i <= |es|
  {
    forall j: nat | j <= i :: id in Run(s, es[..j]).rows && Run(s, es[..j]).rows[id] == s.rows[id]
  }

  /** The first step that changes the row of `id` is step `i`, a claim of it at its due time or later. */
  ghost predicate WaitsUntil(s: State, es: seq<Event>, id: JobId, i: nat)
    requires id in s.rows
  {
    i < |es| && Unchanged(s, es, id, i) && Takes(Run(s, es[..i]), es[i], id) && es[i].now >= s.rows[id].due
  }

  lemma WaitsLonger(s: State, front: seq<Event>, last: Event, id: JobId, i: nat)
    requires id in s.rows && WaitsUntil(s, front, id, i)
    ensures WaitsUntil(s, front + [last], id, i)
  {
    hide Takes, Run;
    assert forall j: nat | j <= |front| :: front[..j] == (front + [last])[..j];
  }

  /** A pending row never changes, unless a claim at its due time or later takes it first. */
  lemma {:induction false} PendingWaits(s: State, es: seq<Event>, id: JobId)
    requires Inv(s) && id in s.rows && s.rows[id].status == Pending
    ensures Unchanged(s, es, id, |es|) || exists i: nat :: WaitsUntil(s, es, id, i)
  {
    hide Takes, Next, Inv;
    if es != [] {
      var front := es[..|es| - 1];
      var last := es[|es| - 1];
      PendingWaits(s, front, id);
      assert forall j: nat | j < |es| :: front[..j] == es[..j];
      assert es[..|es|] == es;
      if Unchanged(s, front, id, |front|) {
        assert front[..|front|] == front;
        RunKeepsInv(s, front);
        LeasesKnown(Run(s, front));
        PendingStep(Run(s, front), last, id);
        assert Unchanged(s, es, id, |front|);
        if Run(s, es).rows[id] != s.rows[id] {
          assert WaitsUntil(s, es, id, |front|);
        }
      } else {
        var i: nat :| WaitsUntil(s, front, id, i);
        WaitsLonger(s, front, last, id, i);
        assert front + [last] == es;
      }
    }
  }

  lemma LeasesKnown(s: State)
    requires Inv(s)
    ensures forall k :: 0 <= k < |s.claims| ==> s.claims[k].row.lease.Some?
  {
  }

  /** What `finish` makes of a failed attempt that is not the last. */
  lemma FailedRow(s: State, worker: nat, now: real, error: string)
    requires Inv(s) && worker < |s.claims| && Holds(s.rows, s.claims[worker]) && error != ""
    requires s.claims[worker].row.attempts < MAX_ATTEMPTS
    ensures var id := s.claims[worker].id;
            var s2 := Next(s, Finish(worker, now, error, ""));
            && id in s2.rows && s.claims[worker].row.attempts >= 1
            && s2.rows[id].status == Pending
            && s2.rows[id].due == now + 60.0 * Pow2(s.claims[worker].row.attempts - 1) as real
  {
    hide Pow2;
    var id := s.claims[worker].id;
    assert GoodRow(s.rows[id], id, s.claims);
  }

  /** A job that failed on attempt `a` of at most two is pending until `now + 60 * 2^(a-1)`, and no
  run from there on claims it earlier. */
  lemma BackoffRespected(es: seq<Event>, worker: nat, now: real, error: string, more: seq<Event>)
    requires var s := Run(EMPTY, es);
             && worker < |s.claims| && Holds(s.rows, s.claims[worker]) && error != ""
             && s.claims[worker].row.attempts < MAX_ATTEMPTS
    ensures var s := Run(EMPTY, es);
            var id := s.claims[worker].id;
            var s2 := Next(s, Finish(worker, now, error, ""));
            && id in s2.rows && s.claims[worker].row.attempts >= 1
            && s2.rows[id].status == Pending
            && s2.rows[id].due == now + 60.0 * Pow2(s.claims[worker].row.attempts - 1) as real
            && (Unchanged(s2, more, id, |more|) || exists i: nat :: WaitsUntil(s2, more, id, i))
  {
    hide Pow2, Next, Inv, Unchanged, WaitsUntil, Holds, Run;
    var s := Run(EMPTY, es);
    RunKeepsInv(EMPTY, es) by {
      EmptyInv();
    }
    FailedRow(s, worker, now, error);
    StepKeepsInv(s, Finish(worker, now, error, ""));
    PendingWaits(Next(s, Finish(worker, now, error, "")), more, s.claims[worker].id);
  }

  lemma EmptyInv()
    ensures Inv(EMPTY)
  {
  }

  // ------------------------------------------------------------- new jobs

  /** The first event that enqueues the job. */
  ghost function FirstEnqueue(es: seq<Event>, id: JobId): Option<Event> {
    if es == [] then None
    else
      var earlier := FirstEnqueue(es[..|es| - 1], id);
      var e := es[|es| - 1];
      if earlier.Some? then earlier else if e.Enqueue? && e.id == id then Some(e) else None
  }

  /** A row, or the job handed out for it, carries what that event asked for. */
  ghost predicate Carries(row: Row, e: Event) {
    && e.Enqueue? && row.refresh == e.refresh
    && (e.staffDir == "" ==> row.staffDir == None) && (e.staffDir != "" ==> row.staffDir == Some(e.staffDir))
  }

  ghost predicate AllCarry(s: State, id: JobId, e: Event) {
    && id in s.rows && Carries(s.rows[id], e)
    && forall k :: 0 <= k < |s.claims| && s.claims[k].id == id ==> Carries(s.claims[k].row, e)
  }

  lemma StepCarries(s: State, step: Event, id: JobId, e: Event)
    requires AllCarry(s, id, e)
    ensures AllCarry(Next(s, step), id, e)
  {
  }

  lemma UnknownStep(s: State, e: Event, id: JobId)
    requires id !in s.rows && forall k :: 0 <= k < |s.claims| ==> s.claims[k].id in s.rows
    ensures id in Next(s, e).rows <==> e.Enqueue? && e.id == id
    ensures id in Next(s, e).rows ==> AllCarry(Next(s, e), id, e)
  {
  }

  lemma ClaimsKnown(s: State)
    requires Inv(s)
    ensures forall k :: 0 <= k < |s.claims| ==> s.claims[k].id in s.rows
  {
  }

  /** In every run a job is known exactly if it was enqueued, and its row and every job handed out for
  it carry what the first enqueueing asked for. */
  lemma {:induction false} FirstEnqueueCounts(es: seq<Event>, id: JobId)
    ensures id in Run(EMPTY, es).rows <==> FirstEnqueue(es, id).Some?
    ensures FirstEnqueue(es, id).Some? ==> AllCarry(Run(EMPTY, es), id, FirstEnqueue(es, id).value)
  {
    hide Next, AllCarry, Inv;
    if es != [] {
      var front := es[..|es| - 1];
      var s := Run(EMPTY, front);
      FirstEnqueueCounts(front, id);
      if FirstEnqueue(front, id).Some? {
        StepCarries(s, es[|es| - 1], id, FirstEnqueue(front, id).value);
        StillKnown(s, es[|es| - 1], id, FirstEnqueue(front, id).value);
      } else {
        RunKeepsInv(EMPTY, front) by {
          EmptyInv();
        }
        ClaimsKnown(s);
        UnknownStep(s, es[|es| - 1], id);
      }
    }
  }

  lemma StillKnown(s: State, step: Event, id: JobId, e: Event)
    requires AllCarry(Next(s, step), id, e)
    ensures id in Next(s, step).rows
  {
  }

  /** Enqueueing a known job again changes nothing. */
  lemma AgainIsIgnored(s: State, e: Event)
    requires e.Enqueue? && e.id in s.rows
    ensures Next(s, e) == s
  {
  }

  lemma NewRow(s: State, e: Event)
    requires e.Enqueue? && e.id !in s.rows
    ensures var s2 := Next(s, e);
            && e.id in s2.rows && s2.rows[e.id].status == Pending && s2.rows[e.id].due == e.now
            && s2.rows[e.id].attempts == 0 && s2.rows[e.id].error == s2.rows[e.id].snapshot == ""
            && (forall id :: id in s.rows ==> id in s2.rows && s2.rows[id] == s.rows[id])
            && s2.rows.Keys == s.rows.Keys + {e.id} && s2.claims == s.claims
  {
  }

  /** A job enqueued for the first time may be handed out from that moment on and no earlier, and in
  every run from there its row stays so until a claim takes it.  As long as it does, a claim at that
  time or later hands out a job unless a lease is running. */
  lemma NewJobIsDue(es: seq<Event>, e: Event, more: seq<Event>, at: real, leaseSeconds: real, token: nat)
    requires e.Enqueue? && e.id !in Run(EMPTY, es).rows
    ensures var s := Next(Run(EMPTY, es), e);
            && e.id in s.rows
            && (Unchanged(s, more, e.id, |more|) || exists i: nat :: WaitsUntil(s, more, e.id, i))
            && s.rows[e.id].due == e.now
            && (Unchanged(s, more, e.id, |more|) ==>
                  var t := Run(s, more).rows;
                  && (Claimable(t, e.id, at) <==> e.now <= at)
                  && (e.now <= at && !LeaseHeld(t, at) ==> Claimed(t, at, leaseSeconds, token).1.Some?))
  {
    hide Inv, Next, Unchanged, WaitsUntil, Claimed, LeaseHeld;
    var before := Run(EMPTY, es);
    var s := Next(before, e);
    RunKeepsInv(EMPTY, es) by {
      EmptyInv();
    }
    StepKeepsInv(before, e);
    NewRow(before, e);
    PendingWaits(s, more, e.id);
    if Unchanged(s, more, e.id, |more|) {
      UnchangedAtEnd(s, more, e.id);
      ClaimFailsWhen(Run(s, more).rows, at, leaseSeconds, token);
    }
  }

  lemma UnchangedAtEnd(s: State, more: seq<Event>, id: JobId)
    requires id in s.rows && Unchanged(s, more, id, |more|)
    ensures id in Run(s, more).rows && Run(s, more).rows[id] == s.rows[id]
  {
    assert more[..|more|] == more;
  }

  /** Enqueued into an empty queue and claimed at once, as one invocation does it, the job runs. */
  lemma EnqueuedRunsAtOnce(id: JobId, refresh: bool, staffDir: string, now: real, leaseSeconds: real)
    ensures var s := Run(EMPTY, [Enqueue(id, refresh, staffDir, now), Claim(now, leaseSeconds)]);
            |s.claims| == 1 && s.claims[0].id == id && s.claims[0].row.attempts == 1
            && Carries(s.claims[0].row, Enqueue(id, refresh, staffDir, now))
  {
    hide Claimed, Next;
    var e := Enqueue(id, refresh, staffDir, now);
    var s := Next(EMPTY, e);
    var es := [e, Claim(now, leaseSeconds)];
    assert es[..1] == [e] && [e][..0] == [];
    assert Run(EMPTY, [e]) == s;
    assert Run(EMPTY, es) == Next(s, Claim(now, leaseSeconds));
    NewRow(EMPTY, e);
    UnknownStep(EMPTY, e, id);
    ClaimFailsWhen(s.rows, now, leaseSeconds, 0);
    assert Claimable(s.rows, id, now);
    ClaimTakesLeast(s.rows, now, leaseSeconds, 0);
    OneClaim(s, now, leaseSeconds);
  }

  lemma OneClaim(s: State, now: real, leaseSeconds: real)
    ensures var (rows, job) := Claimed(s.rows, now, leaseSeconds, |s.claims|);
            Next(s, Claim(now, leaseSeconds)) == State(rows, if job.Some? then s.claims + [job.value] else s.claims)
  {
  }
}
