/** Server-side refresh tokens: issue, rotation with reuse detection, and logout. */
module RefreshTokens {
  import opened Bytes

  type Hash = nat
  type User = nat

  /**
   * One row of the token table. Rows are identified by the token's hash, which
   * the schema makes unique; `rotatedFrom` names the row a successor replaced.
   */
  datatype Token = Token(user: User, expiresAt: int, revokedAt: Option<int>, rotatedFrom: Option<Hash>)

  type Rows = map<Hash, Token>

  predicate Active(rows: Rows, h: Hash) { h in rows && rows[h].revokedAt.None? }

  function ActiveOf(rows: Rows, u: User): set<Hash> {
    set h | h in rows && rows[h].user == u && rows[h].revokedAt.None?
  }

  datatype Outcome = Invalid | Expired | Reuse | Success | Collision

  // --- Steps, each one transaction -----------------------------------------

  /** An insert that would break the unique hash is refused by the database. */
  function Issue(rows: Rows, u: User, h: Hash, expiresAt: int): Rows {
    if h in rows then rows else rows[h := Token(u, expiresAt, None, None)]
  }

  function Revoke(rows: Rows, h: Hash, now: int): Rows {
    if Active(rows, h) then rows[h := rows[h].(revokedAt := Some(now))] else rows
  }

  function RevokeAll(rows: Rows, u: User, now: int): Rows {
    map h | h in rows ::
      if rows[h].user == u && rows[h].revokedAt.None? then rows[h].(revokedAt := Some(now)) else rows[h]
  }

  function RotateOutcome(rows: Rows, h: Hash, now: int, next: Hash): Outcome {
    if h !in rows then Invalid
    else if rows[h].expiresAt < now then Expired
    else if rows[h].revokedAt.Some? then Reuse
    else if next in rows then Collision
    else Success
  }

  /** A failed insert of the successor rolls the whole transaction back. */
  function Rotate(rows: Rows, h: Hash, now: int, next: Hash, expiresAt: int): Rows {
    match RotateOutcome(rows, h, now, next)
    case Invalid => rows
    case Expired => Revoke(rows, h, now)
    case Reuse => RevokeAll(rows, rows[h].user, now)
    case Collision => rows
    case Success => Revoke(rows, h, now)[next := Token(rows[h].user, expiresAt, None, Some(h))]
  }

  datatype Event =
    | Issued(user: User, hash: Hash, expiresAt: int)
    | Rotated(hash: Hash, now: int, next: Hash, expiresAt: int)
    | LoggedOut(hash: Hash, now: int)

  function Step(rows: Rows, e: Event): Rows {
    match e
    case Issued(u, h, x) => Issue(rows, u, h, x)
    case Rotated(h, now, next, x) => Rotate(rows, h, now, next, x)
    case LoggedOut(h, now) => Revoke(rows, h, now)
  }

  function Run(rows: Rows, es: seq<Event>): Rows {
    if es == [] then rows else Step(Run(rows, es[..|es| - 1]), es[|es| - 1])
  }

  // --- Invariant -----------------------------------------------------------

  predicate Chained(rows: Rows) {
    && (forall h :: h in rows && rows[h].rotatedFrom.Some? ==>
          var p := rows[h].rotatedFrom.value;
          p in rows && rows[p].revokedAt.Some? && rows[p].user == rows[h].user)
    && (forall g, h ::
          (g in rows && h in rows && rows[g].rotatedFrom.Some? && rows[g].rotatedFrom == rows[h].rotatedFrom) ==>
            g == h)
  }

  /** Rows persist, keep their owner and parent, and once revoked stay as they are. */
  predicate Extends(before: Rows, after: Rows) {
    forall h :: h in before ==>
      && h in after
      && after[h].user == before[h].user && after[h].rotatedFrom == before[h].rotatedFrom
      && (before[h].revokedAt.Some? ==> after[h] == before[h])
  }

  lemma RevokeKeeps(rows: Rows, h: Hash, now: int)
    requires Chained(rows)
    ensures Chained(Revoke(rows, h, now)) && Extends(rows, Revoke(rows, h, now))
  {
  }

  lemma RevokeAllKeeps(rows: Rows, u: User, now: int)
    requires Chained(rows)
    ensures Chained(RevokeAll(rows, u, now)) && Extends(rows, RevokeAll(rows, u, now))
  {
  }

  lemma SuccessKeeps(rows: Rows, h: Hash, now: int, next: Hash, expiresAt: int)
    requires Chained(rows) && RotateOutcome(rows, h, now, next) == Success
    ensures Chained(Rotate(rows, h, now, next, expiresAt)) && Extends(rows, Rotate(rows, h, now, next, expiresAt))
  {
    RevokeKeeps(rows, h, now);
  }

  lemma {:induction false} StepKeeps(rows: Rows, e: Event)
    requires Chained(rows)
    ensures Chained(Step(rows, e)) && Extends(rows, Step(rows, e))
  {
    match e
    case Issued(_, _, _) =>
    case LoggedOut(h, now) => RevokeKeeps(rows, h, now);
    case Rotated(h, now, next, x) =>
      match RotateOutcome(rows, h, now, next)
      case Invalid =>
      case Collision =>
      case Expired => RevokeKeeps(rows, h, now);
      case Reuse => RevokeAllKeeps(rows, rows[h].user, now);
      case Success => SuccessKeeps(rows, h, now, next, x);
  }

  lemma {:induction false} RunKeeps(rows: Rows, es: seq<Event>)
    requires Chained(rows)
    ensures Chained(Run(rows, es)) && Extends(rows, Run(rows, es))
  {
    if es != [] {
      RunKeeps(rows, es[..|es| - 1]);
      StepKeeps(Run(rows, es[..|es| - 1]), es[|es| - 1]);
    }
  }

  // --- Main results --------------------------------------------------------

  /** Over every run from an empty table, no token has two successors, and a token with one is revoked. */
  lemma {:induction false} OneSuccessor(es: seq<Event>, g: Hash, h: Hash)
    requires var rows := Run(map[], es);
             g in rows && h in rows && rows[g].rotatedFrom.Some? && rows[g].rotatedFrom == rows[h].rotatedFrom
    ensures g == h
    ensures var rows := Run(map[], es);
            rows[g].rotatedFrom.value in rows && !Active(rows, rows[g].rotatedFrom.value)
  {
    RunKeeps(map[], es);
  }

  /** A revoked token stays revoked, unchanged, through any further run. */
  lemma {:induction false} RevokedForever(es: seq<Event>, more: seq<Event>, h: Hash)
    requires h in Run(map[], es) && !Active(Run(map[], es), h)
    ensures h in Run(Run(map[], es), more) && Run(Run(map[], es), more)[h] == Run(map[], es)[h]
  {
    RunKeeps(map[], es);
    RunKeeps(Run(map[], es), more);
  }

  /** No token is ever rotated successfully twice. */
  lemma {:induction false} RotatesOnce(es: seq<Event>, h: Hash, now: int, next: Hash, expiresAt: int,
      more: seq<Event>, later: int, other: Hash)
    requires RotateOutcome(Run(map[], es), h, now, next) == Success
    ensures var rotated := Step(Run(map[], es), Rotated(h, now, next, expiresAt));
      RotateOutcome(Run(rotated, more), h, later, other) in {Expired, Reuse}
  {
    var rows := Run(map[], es);
    RunKeeps(map[], es);
    var e := Rotated(h, now, next, expiresAt);
    StepKeeps(rows, e);
    RunKeeps(Step(rows, e), more);
  }

  /** A successful rotation swaps one active token of the user for another, and touches no one else. */
  lemma RotationConserves(rows: Rows, h: Hash, now: int, next: Hash, expiresAt: int)
    requires RotateOutcome(rows, h, now, next) == Success
    ensures var after := Rotate(rows, h, now, next, expiresAt);
            var u := rows[h].user;
            && ActiveOf(after, u) == ActiveOf(rows, u) - {h} + {next}
            && h in ActiveOf(rows, u) && next !in ActiveOf(rows, u)
            && |ActiveOf(after, u)| == |ActiveOf(rows, u)|
            && (forall w :: w != u ==> ActiveOf(after, w) == ActiveOf(rows, w))
  {
    var after := Rotate(rows, h, now, next, expiresAt);
    var u := rows[h].user;
    assert ActiveOf(after, u) == ActiveOf(rows, u) - {h} + {next};
  }

  /** A rotation that reports reuse leaves its user without an active token, and other users as they were. */
  lemma ReuseRevokesAll(rows: Rows, h: Hash, now: int, next: Hash, expiresAt: int)
    requires RotateOutcome(rows, h, now, next) == Reuse
    ensures var after := Rotate(rows, h, now, next, expiresAt);
            && ActiveOf(after, rows[h].user) == {}
            && (forall w :: w != rows[h].user ==> ActiveOf(after, w) == ActiveOf(rows, w))
  {
    var after := Rotate(rows, h, now, next, expiresAt);
    forall w | w != rows[h].user ensures ActiveOf(after, w) == ActiveOf(rows, w) {
    }
  }

  predicate IssuesTo(e: Event, u: User) { e.Issued? && e.user == u }

  /**
   * A user without active tokens stays locked out until the next login: in any
   * run that issues that user nothing, no rotation of a token of theirs succeeds.
   */
  lemma {:induction false} LockedOut(rows: Rows, es: seq<Event>, u: User)
    requires Chained(rows) && ActiveOf(rows, u) == {}
    requires forall i :: 0 <= i < |es| ==> !IssuesTo(es[i], u)
    ensures ActiveOf(Run(rows, es), u) == {}
    ensures forall h, now, next :: h in Run(rows, es) && Run(rows, es)[h].user == u ==>
              RotateOutcome(Run(rows, es), h, now, next) != Success
  {
    if es != [] {
      var before := Run(rows, es[..|es| - 1]);
      LockedOut(rows, es[..|es| - 1], u);
      LockedOutStep(before, es[|es| - 1], u);
    }
    var end := Run(rows, es);
    forall h, now, next | h in end && end[h].user == u ensures RotateOutcome(end, h, now, next) != Success {
      assert h !in ActiveOf(end, u);
    }
  }

  lemma LockedOutStep(rows: Rows, e: Event, u: User)
    requires ActiveOf(rows, u) == {} && !IssuesTo(e, u)
    ensures ActiveOf(Step(rows, e), u) == {}
  {
    var after := Step(rows, e);
    forall h | h in after ensures h !in ActiveOf(after, u) {
      assert h !in ActiveOf(rows, u);
      if e.Rotated? && RotateOutcome(rows, e.hash, e.now, e.next) == Success {
        assert e.hash !in ActiveOf(rows, u);
      }
    }
  }

  // --- The store -----------------------------------------------------------

  // --- Which rotations succeed, told from the history alone -----------------

  /** How a token came to be: whose it is, until when it may be rotated, and the token it replaced. */
  datatype Birth = Birth(user: User, lifetime: int, parent: Option<Hash>)

  /** A token is born when it is issued under a free hash, or as the successor of a rotation that was granted. */
  ghost function BirthOf(es: seq<Event>, h: Hash): Option<Birth>
    decreases |es|, 2
  {
    if es == [] then None
    else
      var front, e := es[..|es| - 1], es[|es| - 1];
      if BirthOf(front, h).Some? then BirthOf(front, h)
      else if e.Issued? && e.hash == h then Some(Birth(e.user, e.expiresAt, None))
      else if e.Rotated? && e.next == h && Granted(front, e.hash, e.now, h) then
        Some(Birth(Owner(front, e.hash), e.expiresAt, Some(e.hash)))
      else None
  }

  ghost function Owner(es: seq<Event>, h: Hash): User
    decreases |es|, 3
  {
    if BirthOf(es, h).Some? then BirthOf(es, h).value.user else 0
  }

  /** Born, and its lifetime is not over. */
  ghost predicate Lives(es: seq<Event>, h: Hash, now: int)
    decreases |es|, 3
  {
    BirthOf(es, h).Some? && now <= BirthOf(es, h).value.lifetime
  }

  /** A rotation is granted to a token that lives and has not ended, under a hash that is free. */
  ghost predicate Granted(es: seq<Event>, h: Hash, now: int, next: Hash)
    decreases |es|, 4
  {
    Lives(es, h, now) && !Ended(es, h) && BirthOf(es, next).None?
  }

  /** Someone tried to rotate a living token that had already ended. */
  ghost predicate Reused(es: seq<Event>, h: Hash, now: int)
    decreases |es|, 4
  {
    Lives(es, h, now) && Ended(es, h)
  }

  /** A token ends when it logs out, is rotated, is tried after its lifetime, or any token of its user is reused. */
  ghost predicate Ended(es: seq<Event>, h: Hash)
    decreases |es|, 0
  {
    es != [] && (
      var front, e := es[..|es| - 1], es[|es| - 1];
      Ended(front, h) || (BirthOf(front, h).Some? && (
        || (e.LoggedOut? && e.hash == h)
        || (e.Rotated? && e.hash == h && (Granted(front, h, e.now, e.next) || !Lives(front, h, e.now)))
        || (e.Rotated? && Reused(front, e.hash, e.now)
            && Owner(front, e.hash) == Owner(front, h)))))
  }

  ghost predicate RowAsTold(rows: Rows, es: seq<Event>, h: Hash) {
    && (h in rows <==> BirthOf(es, h).Some?) && (Ended(es, h) ==> h in rows)
    && (h in rows ==>
          var b := BirthOf(es, h).value;
          && rows[h].user == b.user && rows[h].expiresAt == b.lifetime && rows[h].rotatedFrom == b.parent
          && (rows[h].revokedAt.Some? <==> Ended(es, h)))
  }

  lemma OutcomeAsTold(rows: Rows, es: seq<Event>, h: Hash, now: int, next: Hash)
    requires RowAsTold(rows, es, h) && RowAsTold(rows, es, next)
    ensures RotateOutcome(rows, h, now, next) == Invalid <==> BirthOf(es, h).None?
    ensures RotateOutcome(rows, h, now, next) == Expired <==> BirthOf(es, h).Some? && !Lives(es, h, now)
    ensures RotateOutcome(rows, h, now, next) == Reuse <==> Reused(es, h, now)
    ensures RotateOutcome(rows, h, now, next) == Success <==> Granted(es, h, now, next)
  {
  }

  lemma StepAsTold(rows: Rows, es: seq<Event>, e: Event, h: Hash)
    requires forall g :: RowAsTold(rows, es, g)
    ensures RowAsTold(Step(rows, e), es + [e], h)
  {
    var all := es + [e];
    assert all[..|all| - 1] == es && all[|all| - 1] == e;
    assert RowAsTold(rows, es, h);
    if e.Rotated? {
      assert RowAsTold(rows, es, e.hash) && RowAsTold(rows, es, e.next);
      OutcomeAsTold(rows, es, e.hash, e.now, e.next);
    }
  }

  /** Over every run, the table is what the history tells. */
  lemma {:induction false} TableAsTold(es: seq<Event>, h: Hash)
    ensures RowAsTold(Run(map[], es), es, h)
    decreases |es|
  {
    if es != [] {
      var front, e := es[..|es| - 1], es[|es| - 1];
      forall g ensures RowAsTold(Run(map[], front), front, g) { TableAsTold(front, g); }
      StepAsTold(Run(map[], front), front, e, h);
      assert front + [e] == es;
    }
  }

  /**
   * After any history, a rotation succeeds exactly for a token that was issued or granted with a lifetime not before
   * now and has not ended, under a free hash; it reports expiry, reuse or an unknown token exactly where that fails.
   */
  lemma {:induction false} RotationExact(es: seq<Event>, h: Hash, now: int, next: Hash)
    ensures var outcome := RotateOutcome(Run(map[], es), h, now, next);
      && (outcome == Success <==> Granted(es, h, now, next))
      && (outcome == Invalid <==> BirthOf(es, h).None?)
      && (outcome == Expired <==> BirthOf(es, h).Some? && BirthOf(es, h).value.lifetime < now)
      && (outcome == Reuse <==> Reused(es, h, now))
  {
    TableAsTold(es, h);
    TableAsTold(es, next);
    OutcomeAsTold(Run(map[], es), es, h, now, next);
  }

  /** A successor comes from a rotation within its parent's lifetime and has the lifetime that rotation gave it. */
  lemma {:induction false} SuccessorHasCause(es: seq<Event>, h: Hash) returns (i: nat)
    requires BirthOf(es, h).Some? && BirthOf(es, h).value.parent.Some?
    ensures i < |es| && es[i].Rotated? && es[i].next == h && BirthOf(es, h).value.parent == Some(es[i].hash)
    ensures Granted(es[..i], es[i].hash, es[i].now, h) && BirthOf(es, h).value.lifetime == es[i].expiresAt
    decreases |es|
  {
    var front := es[..|es| - 1];
    if BirthOf(front, h).Some? {
      i := SuccessorHasCause(front, h);
      assert front[..i] == es[..i];
    } else {
      i := |es| - 1;
    }
  }

  // --- The token table -----------------------------------------------------

  class TokenStore {
    var rows: Rows

    constructor ()
      ensures rows == map[]
    {
      rows := map[];
    }

    method IssueRefreshToken(user: User, hash: Hash, expiresAt: int) returns (ok: bool)
      modifies this
      ensures rows == Step(old(rows), Issued(user, hash, expiresAt))
      ensures ok <==> hash !in old(rows)
    {
      if hash in rows { return false; }
      rows := rows[hash := Token(user, expiresAt, None, None)];
      ok := true;
    }

    /** Sets revokedAt where the row is still active; says how many rows changed. */
    method Claim(hash: Hash, now: int) returns (count: nat)
      modifies this
      ensures rows == Revoke(old(rows), hash, now)
      ensures count == if Active(old(rows), hash) then 1 else 0
    {
      if hash in rows && rows[hash].revokedAt.None? {
        rows := rows[hash := rows[hash].(revokedAt := Some(now))];
        count := 1;
      } else {
        count := 0;
      }
    }

    method RevokeAllForUser(user: User, now: int)
      modifies this
      ensures rows == RevokeAll(old(rows), user, now)
    {
      var todo := rows.Keys;
      ghost var before := rows;
      while todo != {}
        invariant rows.Keys == before.Keys && todo <= before.Keys
        invariant forall h :: h in before.Keys - todo ==> rows[h] == RevokeAll(before, user, now)[h]
        invariant forall h :: h in todo ==> rows[h] == before[h]
        decreases |todo|
      {
        var h :| h in todo;
        if rows[h].user == user && rows[h].revokedAt.None? {
          rows := rows[h := rows[h].(revokedAt := Some(now))];
        }
        todo := todo - {h};
      }
    }

    method RotateRefreshToken(hash: Hash, now: int, next: Hash, expiresAt: int) returns (outcome: Outcome)
      modifies this
      ensures rows == Step(old(rows), Rotated(hash, now, next, expiresAt))
      ensures outcome == RotateOutcome(old(rows), hash, now, next)
    {
      var saved := rows;
      if hash !in rows { return Invalid; }
      var stored := rows[hash];
      if stored.expiresAt < now {
        var n := Claim(hash, now);
        return Expired;
      }
      var claimed := Claim(hash, now);
      if claimed == 0 {
        RevokeAllForUser(stored.user, now);
        return Reuse;
      }
      if next in rows {
        rows := saved;
        return Collision;
      }
      rows := rows[next := Token(stored.user, expiresAt, None, Some(hash))];
      outcome := Success;
    }

    method RevokeRefreshToken(hash: Hash, now: int)
      modifies this
      ensures rows == Step(old(rows), LoggedOut(hash, now))
    {
      var n := Claim(hash, now);
    }
  }
}
