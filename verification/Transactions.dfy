/**
 The retry loop around every transaction. Other connections may commit between attempts, any attempt
 may find the database busy, and writes to the caller's own variables are not undone by a rollback.
 */
module Transactions {
  import opened Ids
  import opened Store

  const MIN_TX_RETRIES := 5
  const MAX_TX_TIME := 1_000_000_000

  /** What running the body once gives: an error or none, the caller's variables, and the tables it would commit. */
  datatype Attempt<L> = Attempt(error: Option<Error>, local: L, t: Database)

  /** Everything the loop does not control, by number of attempt. */
  datatype Environment = Environment(
    clock: nat -> int,
    others: (nat, Database) -> Database,
    begin: nat -> Option<Error>,
    commit: nat -> Option<Error>)

  type Body<!L> = (nat, L, Database) -> Attempt<L>

  predicate ShouldRetry(e: Option<Error>) {
    e == Some(Busy)
  }

  /** What the n-th attempt finds in the database, if none of the earlier ones committed. */
  ghost function Seen(env: Environment, t: Database, n: nat): Database {
    if n == 0 then t else env.others(n, Seen(env, t, n - 1))
  }

  /** The caller's variables after n attempts that all reached their end or were refused at the start. */
  ghost function LocalAfter<L>(env: Environment, body: Body<L>, l: L, t: Database, n: nat): L {
    if n == 0 then l
    else if env.begin(n).Some? then LocalAfter(env, body, l, t, n - 1)
    else body(n, LocalAfter(env, body, l, t, n - 1), Seen(env, t, n)).local
  }

  /** The n-th attempt, run on what the earlier ones left behind. */
  ghost function Result<L>(env: Environment, body: Body<L>, l: L, t: Database, n: nat): Attempt<L>
    requires 0 < n
  {
    body(n, LocalAfter(env, body, l, t, n - 1), Seen(env, t, n))
  }

  /** How the n-th attempt ends: with the error of its begin, of the body or of the commit, or without one. */
  ghost function Ending<L>(env: Environment, body: Body<L>, l: L, t: Database, n: nat): Option<Error>
    requires 0 < n
  {
    if env.begin(n).Some? then env.begin(n)
    else if Result(env, body, l, t, n).error.Some? then Result(env, body, l, t, n).error
    else env.commit(n)
  }

  /** Nothing that busy attempts write to the caller's variables is undone: here each leaves its number. */
  lemma {:induction false} LocalsAccumulate(env: Environment, t: Database, n: nat, trail: seq<nat>)
    requires forall k :: env.begin(k) == None
    ensures
      var body := (k: nat, l: seq<nat>, seen: Database) => Attempt(Some(Busy), l + [k], seen);
      LocalAfter(env, body, trail, t, n) == trail + seq(n, i requires 0 <= i < n => i + 1)
  {
    hide Integrity;
    if n > 0 {
      LocalsAccumulate(env, t, n - 1, trail);
    }
  }

  /** Each attempt finds what the others have made of what the one before it found. */
  lemma {:induction false} OthersAccumulate(env: Environment, t: Database, n: nat, change: Database -> Database)
    requires forall k, seen :: env.others(k, seen) == change(seen)
    ensures Seen(env, t, n + 1) == Seen(env, change(t), n)
  {
    hide Integrity;
    if n > 0 {
      OthersAccumulate(env, t, n - 1, change);
    }
  }

  predicate Late(env: Environment, n: nat) {
    env.clock(n) - env.clock(0) > MAX_TX_TIME
  }

  /**
   Runs body until it commits, fails, or has been retried for too long. deadline is an attempt from
   which on the clock is past the limit. n is the number of the last attempt begun, and gaveUp says
   that the next one was not begun for lack of time.
   */
  method TxLoop<L>(db: EventStore, env: Environment, body: Body<L>, local: L, ghost deadline: nat)
    returns (err: Option<Error>, l: L, n: nat, gaveUp: bool, ghost commits: nat)
    requires forall k :: deadline <= k ==> Late(env, k)
    modifies db
    // Attempts are repeated exactly while they are busy and there is time; five are always made.
    ensures 0 < n && forall k :: 1 <= k < n ==> Ending(env, body, local, old(db.t), k) == Some(Busy)
    ensures gaveUp <==> Ending(env, body, local, old(db.t), n) == Some(Busy)
    ensures gaveUp ==> 5 <= n && env.clock(n + 1) - env.clock(0) > 1_000_000_000
    ensures forall k :: 5 < k <= n ==> env.clock(k) - env.clock(0) <= 1_000_000_000
    // The error is that of the last attempt, or that time ran out.
    ensures err == if gaveUp then Some(TooLong) else Ending(env, body, local, old(db.t), n)
    // Success is exactly one commit, of the body run on what that attempt found.
    ensures err == None <==>
      env.begin(n) == None && Result(env, body, local, old(db.t), n).error == None && env.commit(n) == None
    ensures err == None ==> commits == 1 && db.t == Result(env, body, local, old(db.t), n).t
    // Failure leaves only what others have committed.
    ensures err != None ==> commits == 0 && db.t == Seen(env, old(db.t), n)
    ensures l == LocalAfter(env, body, local, old(db.t), n)
    ensures n <= if deadline < MIN_TX_RETRIES then MIN_TX_RETRIES else deadline
  {
    hide Integrity;
    ghost var t0 := db.t;
    ghost var bound := if deadline < MIN_TX_RETRIES then MIN_TX_RETRIES else deadline;
    l, n, gaveUp, commits := local, 0, false, 0;
    while true
      invariant db.t == Seen(env, t0, n) && l == LocalAfter(env, body, local, t0, n) && commits == 0
      invariant forall k :: 1 <= k <= n ==> ShouldRetry(Ending(env, body, local, t0, k))
      invariant n <= bound && !gaveUp
      invariant forall k :: MIN_TX_RETRIES < k <= n ==> env.clock(k) - env.clock(0) <= MAX_TX_TIME
      decreases bound - n
    {
      var count := n + 1;
      if count > MIN_TX_RETRIES && Late(env, count) {
        return Some(TooLong), l, n, true, commits;
      }
      assert count <= bound;
      n := count;
      db.t := env.others(n, db.t);
      var e := env.begin(n);
      if ShouldRetry(e) {
        continue;
      } else if e.Some? {
        return e, l, n, false, commits;
      }
      var a := body(n, l, db.t);
      l := a.local;
      if ShouldRetry(a.error) {
        continue;
      } else if a.error.Some? {
        return a.error, l, n, false, commits;
      }
      e := env.commit(n);
      if ShouldRetry(e) {
        continue;
      } else if e.Some? {
        return e, l, n, false, commits;
      }
      db.t, commits := a.t, commits + 1;
      return None, l, n, false, commits;
    }
  }
}
