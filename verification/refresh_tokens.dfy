/**
 Refresh tokens: issue, rotation with replay detection, revocation and purging, in serial runs on
 one clock. Random tokens are fresh and hashing is injective, so one name, the order in which it
 was minted, stands for a token, its hash and the identifier of its row.
 */
module RefreshTokens {
  import opened Wrappers

  type Token = nat
  type User = nat

  /** `login` is the first token of the chain the row belongs to; it is not a column. */
  datatype Row = Row(user: User, login: Token, expiresAt: int, revokedAt: Option<int>, replacedBy: Option<Token>)

  datatype State = State(rows: map<Token, Row>, minted: nat)

  datatype Op =
    | Issue(user: User, now: int)
    | Rotate(token: Token, now: int)
    | Revoke(token: Token, now: int)
    | RevokeAll(user: User, now: int)
    | Purge(now: int)

  datatype Outcome = Exchanged(next: Token) | Invalid | AlreadyUsed | Expired

  function Revoked(row: Row, now: int): Row {
    if row.revokedAt.None? then row.(revokedAt := Some(now)) else row
  }

  /** `updateMany` on the unrevoked rows of a user. */
  function RevokedForUser(rows: map<Token, Row>, user: User, now: int): map<Token, Row> {
    map t | t in rows :: if rows[t].user == user then Revoked(rows[t], now) else rows[t]
  }

  /** `deleteMany` on the rows that expired before `now`. */
  function Unexpired(rows: map<Token, Row>, now: int): map<Token, Row> {
    map t | t in rows && rows[t].expiresAt >= now :: rows[t]
  }

  /** The rows the `where` clause of a revocation for a user selects. */
  function UnrevokedOf(rows: map<Token, Row>, user: User): set<Token> {
    set t | t in rows && rows[t].user == user && rows[t].revokedAt.None?
  }

  /** The rows the `where` clause of a purge selects. */
  function ExpiredBefore(rows: map<Token, Row>, now: int): set<Token> {
    set t | t in rows && rows[t].expiresAt < now
  }

  lemma GoneAndKept(rows: map<Token, Row>, now: int)
    ensures rows - ExpiredBefore(rows, now) == Unexpired(rows, now)
    ensures |Unexpired(rows, now).Keys| + |ExpiredBefore(rows, now)| == |rows.Keys|
  {
    assert Unexpired(rows, now).Keys + ExpiredBefore(rows, now) == rows.Keys;
  }

  ghost function Verdict(s: State, token: Token, now: int): Outcome {
    if token !in s.rows then Invalid
    else if s.rows[token].revokedAt.Some? || s.rows[token].replacedBy.Some? then AlreadyUsed
    else if s.rows[token].expiresAt <= now then Expired
    else Exchanged(s.minted)
  }

  ghost function Minted(s: State, user: User, login: Token, expiresAt: int): State {
    State(s.rows[s.minted := Row(user, login, expiresAt, None, None)], s.minted + 1)
  }

  ghost function Step(s: State, op: Op, ttlMs: nat): State {
    match op
    case Issue(user, now) => Minted(s, user, s.minted, now + ttlMs)
    case Rotate(token, now) =>
      (match Verdict(s, token, now)
       case Exchanged(next) =>
         var row := s.rows[token];
         var s1 := Minted(s, row.user, row.login, now + ttlMs);
         s1.(rows := s1.rows[token := row.(revokedAt := Some(now), replacedBy := Some(next))])
       case AlreadyUsed => s.(rows := RevokedForUser(s.rows, s.rows[token].user, now))
       case _ => s)
    case Revoke(token, now) =>
      if token in s.rows then s.(rows := s.rows[token := Revoked(s.rows[token], now)]) else s
    case RevokeAll(user, now) => s.(rows := RevokedForUser(s.rows, user, now))
    case Purge(now) => s.(rows := Unexpired(s.rows, now))
  }

  ghost function Run(ops: seq<Op>, ttlMs: nat): State {
    if ops == [] then State(map[], 0) else Step(Run(ops[..|ops| - 1], ttlMs), ops[|ops| - 1], ttlMs)
  }

  ghost predicate Timely(ops: seq<Op>) {
    forall i, j :: 0 <= i < j < |ops| ==> ops[i].now <= ops[j].now
  }

  // ---------------------------------------------------------------- chains

  ghost predicate SameChain(s: State, x: Token, y: Token) {
    x in s.rows && y in s.rows && s.rows[x].login == s.rows[y].login
  }

  /** A link leads to a later stored row of the same chain and user, and its source is spent. */
  ghost predicate GoodLink(s: State, x: Token) {
    x in s.rows && s.rows[x].replacedBy.Some? ==>
      var z := s.rows[x].replacedBy.value;
      && x < z && SameChain(s, x, z) && s.rows[x].revokedAt.Some?
  }

  /** Of two rows of a chain the earlier one belongs to the same user, expires no later, and was replaced on the way. */
  ghost predicate GoodPair(s: State, x: Token, y: Token) {
    SameChain(s, x, y) && x < y ==>
      && s.rows[x].user == s.rows[y].user
      && s.rows[x].expiresAt <= s.rows[y].expiresAt
      && s.rows[x].replacedBy.Some? && s.rows[x].replacedBy.value <= y
  }

  ghost predicate Chained(s: State, clock: int, ttlMs: nat) {
    && (forall x :: x in s.rows ==> x < s.minted && s.rows[x].login <= x && s.rows[x].expiresAt <= clock + ttlMs)
    && (forall x: Token :: GoodLink(s, x))
    && (forall x: Token, y: Token :: GoodPair(s, x, y))
  }

  lemma RotateKeepsChains(s: State, token: Token, clock: int, now: int, ttlMs: nat)
    requires Chained(s, clock, ttlMs) && clock <= now && Verdict(s, token, now).Exchanged?
    ensures Chained(Step(s, Rotate(token, now), ttlMs), now, ttlMs)
  {
    var s' := Step(s, Rotate(token, now), ttlMs);
    forall x: Token ensures GoodLink(s', x) {
      assert GoodLink(s, x);
    }
    forall x: Token, y: Token ensures GoodPair(s', x, y) {
      assert GoodPair(s, x, y);
      assert GoodPair(s, token, x) && GoodPair(s, x, token) && GoodPair(s, token, y);
    }
  }

  lemma RevocationKeepsChains(s: State, s': State, clock: int, now: int, ttlMs: nat)
    requires Chained(s, clock, ttlMs) && clock <= now
    requires s'.minted == s.minted && s'.rows.Keys == s.rows.Keys
    requires forall x :: x in s.rows ==> s'.rows[x] == s.rows[x] || s'.rows[x] == Revoked(s.rows[x], now)
    ensures Chained(s', now, ttlMs)
  {
    forall x: Token ensures GoodLink(s', x) {
      assert GoodLink(s, x);
    }
    forall x: Token, y: Token ensures GoodPair(s', x, y) {
      assert GoodPair(s, x, y);
    }
  }

  lemma PurgeKeepsChains(s: State, clock: int, now: int, ttlMs: nat)
    requires Chained(s, clock, ttlMs) && clock <= now
    ensures Chained(Step(s, Purge(now), ttlMs), now, ttlMs)
  {
    var s' := Step(s, Purge(now), ttlMs);
    forall x: Token ensures GoodLink(s', x) {
      assert GoodLink(s, x);
      if x in s'.rows && s'.rows[x].replacedBy.Some? {
        assert GoodPair(s, x, s.rows[x].replacedBy.value);
      }
    }
    forall x: Token, y: Token ensures GoodPair(s', x, y) {
      assert GoodPair(s, x, y);
    }
  }

  lemma IssueKeepsChains(s: State, user: User, clock: int, now: int, ttlMs: nat)
    requires Chained(s, clock, ttlMs) && clock <= now
    ensures Chained(Step(s, Issue(user, now), ttlMs), now, ttlMs)
  {
    var s' := Step(s, Issue(user, now), ttlMs);
    forall x: Token ensures GoodLink(s', x) {
      assert GoodLink(s, x);
    }
    forall x: Token, y: Token ensures GoodPair(s', x, y) {
      assert GoodPair(s, x, y);
    }
  }

  lemma StepKeepsChains(s: State, op: Op, clock: int, ttlMs: nat)
    requires Chained(s, clock, ttlMs) && clock <= op.now
    ensures Chained(Step(s, op, ttlMs), op.now, ttlMs)
  {
    match op
    case Issue(user, now) => IssueKeepsChains(s, user, clock, now, ttlMs);
    case Rotate(token, now) =>
      if Verdict(s, token, now).Exchanged? {
        RotateKeepsChains(s, token, clock, now, ttlMs);
      } else {
        RevocationKeepsChains(s, Step(s, op, ttlMs), clock, now, ttlMs);
      }
    case Revoke(token, now) => RevocationKeepsChains(s, Step(s, op, ttlMs), clock, now, ttlMs);
    case RevokeAll(user, now) => RevocationKeepsChains(s, Step(s, op, ttlMs), clock, now, ttlMs);
    case Purge(now) => PurgeKeepsChains(s, clock, now, ttlMs);
  }

  /** Chains are well formed in every serial run with one time to live. */
  lemma {:induction false} EveryRunIsChained(ops: seq<Op>, ttlMs: nat)
    requires Timely(ops)
    ensures forall clock: int :: (ops == [] || ops[|ops| - 1].now <= clock) ==> Chained(Run(ops, ttlMs), clock, ttlMs)
  {
    if ops != [] {
      var front, last := ops[..|ops| - 1], ops[|ops| - 1];
      EveryRunIsChained(front, ttlMs);
      assert front != [] ==> front[|front| - 1].now <= last.now;
      StepKeepsChains(Run(front, ttlMs), last, last.now, ttlMs);
    }
  }

  /** Of each chain at most one row is unrevoked, and nothing of the chain comes after it. */
  lemma UnrevokedRowIsTheTail(ops: seq<Op>, ttlMs: nat, x: Token, y: Token)
    requires Timely(ops)
    requires var s := Run(ops, ttlMs); SameChain(s, x, y) && s.rows[x].revokedAt.None?
    ensures y <= x && Run(ops, ttlMs).rows[x].replacedBy.None?
    ensures Run(ops, ttlMs).rows[y].revokedAt.None? ==> y == x
  {
    var s := Run(ops, ttlMs);
    var clock := if ops == [] then 0 else ops[|ops| - 1].now;
    EveryRunIsChained(ops, ttlMs);
    assert Chained(s, clock, ttlMs);
    assert GoodLink(s, x) && GoodLink(s, y);
    assert GoodPair(s, x, y) && GoodPair(s, y, x);
  }

  /** A path of `replacedById` links, each from a stored row to the token that replaced it. */
  ghost predicate LinkPath(s: State, path: seq<Token>) {
    forall i :: 0 <= i < |path| - 1 ==> path[i] in s.rows && s.rows[path[i]].replacedBy == Some(path[i + 1])
  }

  /** Links never cycle, never dangle, and never leave the user or the chain. */
  lemma {:induction false} LinksLeadForward(ops: seq<Op>, ttlMs: nat, path: seq<Token>)
    requires Timely(ops) && |path| >= 2 && LinkPath(Run(ops, ttlMs), path)
    ensures var s := Run(ops, ttlMs);
      && path[0] < path[|path| - 1] && SameChain(s, path[0], path[|path| - 1])
      && s.rows[path[0]].user == s.rows[path[|path| - 1]].user
  {
    var s := Run(ops, ttlMs);
    var clock := if ops == [] then 0 else ops[|ops| - 1].now;
    EveryRunIsChained(ops, ttlMs);
    assert Chained(s, clock, ttlMs);
    assert path[0] in s.rows && s.rows[path[0]].replacedBy == Some(path[0 + 1]);
    assert GoodLink(s, path[0]) && GoodPair(s, path[0], path[1]);
    if |path| > 2 {
      forall i | 0 <= i < |path[1..]| - 1
        ensures path[1..][i] in s.rows && s.rows[path[1..][i]].replacedBy == Some(path[1..][i + 1])
      {
        assert path[i + 1] in s.rows && s.rows[path[i + 1]].replacedBy == Some(path[i + 1 + 1]);
      }
      LinksLeadForward(ops, ttlMs, path[1..]);
    }
  }

  /** Purging removes a prefix of each chain: with a row goes every earlier row of its chain. */
  lemma PurgeRemovesAPrefix(ops: seq<Op>, ttlMs: nat, now: int, x: Token, y: Token)
    requires Timely(ops)
    requires SameChain(Run(ops, ttlMs), x, y) && x < y && y !in Unexpired(Run(ops, ttlMs).rows, now)
    ensures x !in Unexpired(Run(ops, ttlMs).rows, now)
  {
    var clock := if ops == [] then 0 else ops[|ops| - 1].now;
    EveryRunIsChained(ops, ttlMs);
    assert Chained(Run(ops, ttlMs), clock, ttlMs);
    assert GoodPair(Run(ops, ttlMs), x, y);
  }

  // ---------------------------------------------------------------- spent tokens

  /** A minted token that can never be exchanged again: revoked, or its row is gone. */
  ghost predicate Spent(s: State, token: Token) {
    token < s.minted && (token in s.rows ==> s.rows[token].revokedAt.Some?)
  }

  lemma SpentStaysSpent(s: State, op: Op, ttlMs: nat, token: Token)
    requires Spent(s, token)
    ensures Spent(Step(s, op, ttlMs), token)
    ensures op.Rotate? && op.token == token ==> !Verdict(s, token, op.now).Exchanged?
  {
  }

  lemma {:induction false} SpentForGood(ops: seq<Op>, ttlMs: nat, i: nat, token: Token)
    requires i <= |ops| && Spent(Run(ops[..i], ttlMs), token)
    ensures Spent(Run(ops, ttlMs), token)
    decreases |ops|
  {
    if i == |ops| {
      assert ops[..i] == ops;
    } else {
      assert ops[..|ops| - 1][..i] == ops[..i];
      SpentForGood(ops[..|ops| - 1], ttlMs, i, token);
      SpentStaysSpent(Run(ops[..|ops| - 1], ttlMs), ops[|ops| - 1], ttlMs, token);
    }
  }

  /** Operation `i` of a run successfully exchanges `token`. */
  ghost predicate Exchanges(ops: seq<Op>, ttlMs: nat, i: nat, token: Token) {
    i < |ops| && ops[i].Rotate? && ops[i].token == token && Verdict(Run(ops[..i], ttlMs), token, ops[i].now).Exchanged?
  }

  lemma SpentAfter(ops: seq<Op>, ttlMs: nat, i: nat, j: nat, token: Token)
    requires i < j <= |ops| && Spent(Run(ops[..i + 1], ttlMs), token)
    ensures !Exchanges(ops, ttlMs, j, token)
  {
    assert ops[..j][..i + 1] == ops[..i + 1];
    SpentForGood(ops[..j], ttlMs, i + 1, token);
  }

  lemma {:induction false} MintedAreNew(ops: seq<Op>, ttlMs: nat)
    ensures forall t :: t in Run(ops, ttlMs).rows ==> t < Run(ops, ttlMs).minted
  {
    if ops != [] { MintedAreNew(ops[..|ops| - 1], ttlMs); }
  }

  /** Each refresh token is exchanged at most once. */
  lemma ExchangedAtMostOnce(ops: seq<Op>, ttlMs: nat, i: nat, j: nat, token: Token)
    requires Exchanges(ops, ttlMs, i, token) && Exchanges(ops, ttlMs, j, token)
    ensures i == j
  {
    MintedAreNew(ops[..i], ttlMs);
    MintedAreNew(ops[..j], ttlMs);
    assert ops[..i + 1][..i] == ops[..i] && ops[..j + 1][..j] == ops[..j];
    if i < j {
      SpentAfter(ops, ttlMs, i, j, token);
    } else if j < i {
      SpentAfter(ops, ttlMs, j, i, token);
    }
  }

  /** Replaying a spent token whose row is still stored leaves its user with no unrevoked token. */
  lemma ReplayRevokesEverything(s: State, token: Token, now: int, ttlMs: nat)
    requires token in s.rows && (s.rows[token].revokedAt.Some? || s.rows[token].replacedBy.Some?)
    ensures Verdict(s, token, now) == AlreadyUsed
    ensures var after := Step(s, Rotate(token, now), ttlMs);
      && after.rows.Keys == s.rows.Keys
      && (forall t :: t in after.rows && after.rows[t].user == s.rows[token].user ==> after.rows[t].revokedAt.Some?)
      && (forall t :: t in s.rows && s.rows[t].user != s.rows[token].user ==> after.rows[t] == s.rows[t])
  {
  }

  /** After such a replay no token its user held before is ever exchanged: a stolen session ends for good. */
  lemma ReplayEndsTheFamily(ops: seq<Op>, ttlMs: nat, i: nat, j: nat, token: Token)
    requires i < j < |ops| && ops[i].Rotate? && Verdict(Run(ops[..i], ttlMs), ops[i].token, ops[i].now) == AlreadyUsed
    requires token in Run(ops[..i], ttlMs).rows
    requires Run(ops[..i], ttlMs).rows[token].user == Run(ops[..i], ttlMs).rows[ops[i].token].user
    ensures !Exchanges(ops, ttlMs, j, token)
  {
    var s := Run(ops[..i], ttlMs);
    assert ops[..i + 1][..i] == ops[..i];
    MintedAreNew(ops[..i], ttlMs);
    ReplayRevokesEverything(s, ops[i].token, ops[i].now, ttlMs);
    SpentAfter(ops, ttlMs, i, j, token);
  }

  // ---------------------------------------------------------------- what becomes of a token, by the history

  /** Operation `i` mints this token: a login, or a rotation that succeeds. */
  ghost predicate Mints(ops: seq<Op>, ttlMs: nat, i: nat, token: Token) {
    && i < |ops| && Run(ops[..i], ttlMs).minted == token
    && (ops[i].Issue? || (ops[i].Rotate? && Verdict(Run(ops[..i], ttlMs), ops[i].token, ops[i].now).Exchanged?))
  }

  ghost function OwnerOf(ops: seq<Op>, ttlMs: nat, i: nat): User
    requires i < |ops|
  {
    var rows := Run(ops[..i], ttlMs).rows;
    if ops[i].Issue? then ops[i].user
    else if ops[i].Rotate? && ops[i].token in rows then rows[ops[i].token].user else 0
  }

  /** The operation spends a token of this user: it revokes or exchanges it, or revokes all of them. */
  ghost predicate SpendsBy(s: State, op: Op, token: Token, user: User) {
    match op
    case Issue(_, _) => false
    case Rotate(t, now) =>
      (match Verdict(s, t, now)
       case Exchanged(_) => t == token
       case AlreadyUsed => t in s.rows && s.rows[t].user == user
       case _ => false)
    case Revoke(t, _) => t == token
    case RevokeAll(u, _) => u == user
    case Purge(_) => false
  }

  ghost predicate Spends(ops: seq<Op>, ttlMs: nat, k: nat, token: Token, user: User) {
    k < |ops| && SpendsBy(Run(ops[..k], ttlMs), ops[k], token, user)
  }

  ghost predicate Purges(ops: seq<Op>, k: nat, expiry: int) {
    k < |ops| && ops[k].Purge? && expiry < ops[k].now
  }

  ghost predicate SpentBetween(ops: seq<Op>, ttlMs: nat, i: nat, n: nat, token: Token, user: User) {
    exists k: nat :: i < k < n && Spends(ops, ttlMs, k, token, user)
  }

  ghost predicate PurgedBetween(ops: seq<Op>, i: nat, n: nat, expiry: int) {
    exists k: nat :: i < k < n && Purges(ops, k, expiry)
  }

  /** Operation `k` is the first after `i` to spend the token. */
  ghost predicate FirstSpends(ops: seq<Op>, ttlMs: nat, i: nat, k: nat, token: Token, user: User) {
    i < k && Spends(ops, ttlMs, k, token, user) && !SpentBetween(ops, ttlMs, i, k, token, user)
  }

  /** What the row of a token minted by operation `i` says after `n` operations. */
  ghost predicate RowTells(ops: seq<Op>, ttlMs: nat, i: nat, n: nat, token: Token)
    requires i < n <= |ops|
  {
    var rows, user, expiry := Run(ops[..n], ttlMs).rows, OwnerOf(ops, ttlMs, i), ops[i].now + ttlMs;
    && (token !in rows <==> PurgedBetween(ops, i, n, expiry))
    && (token in rows ==>
          var row := rows[token];
          && row.user == user && row.expiresAt == expiry
          && (row.revokedAt.None? <==> !SpentBetween(ops, ttlMs, i, n, token, user))
          && (row.replacedBy.Some? ==> row.revokedAt.Some?)
          && (row.revokedAt.Some? ==> DatedBy(ops, ttlMs, i, n, token, user, row.revokedAt.value)))
  }

  ghost predicate DatedBy(ops: seq<Op>, ttlMs: nat, i: nat, n: nat, token: Token, user: User, at: int)
    requires n <= |ops|
  {
    exists k: nat :: k < n && FirstSpends(ops, ttlMs, i, k, token, user) && at == ops[k].now
  }

  lemma SpentOfOneMore(ops: seq<Op>, ttlMs: nat, i: nat, n: nat, token: Token, user: User)
    requires i < n < |ops|
    ensures SpentBetween(ops, ttlMs, i, n + 1, token, user)
            <==> SpentBetween(ops, ttlMs, i, n, token, user) || Spends(ops, ttlMs, n, token, user)
  {
  }

  lemma PurgedOfOneMore(ops: seq<Op>, i: nat, n: nat, expiry: int)
    requires i < n < |ops|
    ensures PurgedBetween(ops, i, n + 1, expiry) <==> PurgedBetween(ops, i, n, expiry) || Purges(ops, n, expiry)
  {
  }

  lemma StillDated(ops: seq<Op>, ttlMs: nat, i: nat, n: nat, token: Token, user: User, at: int)
    requires n < |ops| && DatedBy(ops, ttlMs, i, n, token, user, at)
    ensures DatedBy(ops, ttlMs, i, n + 1, token, user, at)
  {
    var k: nat :| k < n && FirstSpends(ops, ttlMs, i, k, token, user) && at == ops[k].now;
    assert k < n + 1 && FirstSpends(ops, ttlMs, i, k, token, user);
  }

  /** How one operation changes the row of a token: by spending it, dated when it was not, or by purging it. */
  lemma OneOperationOnARow(s: State, op: Op, ttlMs: nat, token: Token, user: User)
    requires token < s.minted && (token in s.rows ==> s.rows[token].user == user)
    requires token in s.rows && s.rows[token].replacedBy.Some? ==> s.rows[token].revokedAt.Some?
    ensures var rows := Step(s, op, ttlMs).rows;
      && (token in rows <==> token in s.rows && !(op.Purge? && s.rows[token].expiresAt < op.now))
      && (token in rows ==>
            && rows[token].user == user && rows[token].expiresAt == s.rows[token].expiresAt
            && (rows[token].replacedBy.Some? ==> rows[token].revokedAt.Some?)
            && rows[token].revokedAt == if SpendsBy(s, op, token, user)
                && s.rows[token].revokedAt.None? then Some(op.now)
                                        else s.rows[token].revokedAt)
  {
  }

  lemma RowAfterMint(ops: seq<Op>, ttlMs: nat, i: nat, token: Token)
    requires Mints(ops, ttlMs, i, token)
    ensures RowTells(ops, ttlMs, i, i + 1, token) && token < Run(ops[..i + 1], ttlMs).minted
  {
    assert ops[..i + 1][..i] == ops[..i];
    MintedAreNew(ops[..i], ttlMs);
  }

  lemma RowOfOneMore(ops: seq<Op>, ttlMs: nat, i: nat, n: nat, token: Token)
    requires i < n < |ops| && token < Run(ops[..n], ttlMs).minted && RowTells(ops, ttlMs, i, n, token)
    ensures RowTells(ops, ttlMs, i, n + 1, token) && token < Run(ops[..n + 1], ttlMs).minted
  {
    var s, user, expiry := Run(ops[..n], ttlMs), OwnerOf(ops, ttlMs, i), ops[i].now + ttlMs;
    assert ops[..n + 1][..n] == ops[..n];
    OneOperationOnARow(s, ops[n], ttlMs, token, user);
    SpentOfOneMore(ops, ttlMs, i, n, token, user);
    PurgedOfOneMore(ops, i, n, expiry);
    if token in s.rows {
      if s.rows[token].revokedAt.Some? {
        StillDated(ops, ttlMs, i, n, token, user, s.rows[token].revokedAt.value);
      } else if Spends(ops, ttlMs, n, token, user) {
        assert n < n + 1 && FirstSpends(ops, ttlMs, i, n, token, user) && ops[n].now == ops[n].now;
      }
    }
  }

  /** A row says what the history says: owner, expiry, whether and when it was first spent, and when it is gone. */
  lemma {:induction false} RowByHistory(ops: seq<Op>, ttlMs: nat, i: nat, n: nat, token: Token)
    requires Mints(ops, ttlMs, i, token) && i < n <= |ops|
    ensures RowTells(ops, ttlMs, i, n, token) && token < Run(ops[..n], ttlMs).minted
    decreases n
  {
    if n == i + 1 {
      RowAfterMint(ops, ttlMs, i, token);
    } else {
      RowByHistory(ops, ttlMs, i, n - 1, token);
      RowOfOneMore(ops, ttlMs, i, n - 1, token);
    }
  }

  lemma {:induction false} StoredWasMinted(ops: seq<Op>, ttlMs: nat, n: nat, token: Token) returns (i: nat)
    requires n <= |ops| && token in Run(ops[..n], ttlMs).rows
    ensures i < n && Mints(ops, ttlMs, i, token)
    decreases n
  {
    assert ops[..n][..n - 1] == ops[..n - 1];
    if token in Run(ops[..n - 1], ttlMs).rows {
      i := StoredWasMinted(ops, ttlMs, n - 1, token);
    } else {
      i := n - 1;
    }
  }

  /**
   What a client is told that presents a token, by the history alone: one minted and not purged was used
   when it was spent since, expired at its time to live, and is exchanged otherwise; any other is invalid.
   */
  lemma OutcomeByHistory(ops: seq<Op>, ttlMs: nat, i: nat, token: Token, now: int)
    requires Mints(ops, ttlMs, i, token)
    ensures var user, expiry, n := OwnerOf(ops, ttlMs, i), ops[i].now + ttlMs, |ops|;
      var purged, spent := PurgedBetween(ops, i, n, expiry), SpentBetween(ops, ttlMs, i, n, token, user);
      Verdict(Run(ops, ttlMs), token, now)
      == if purged then Invalid
         else if spent then AlreadyUsed
         else if now >= expiry then Expired
         else Exchanged(Run(ops, ttlMs).minted)
  {
    RowByHistory(ops, ttlMs, i, |ops|, token);
    assert ops[..|ops|] == ops;
  }

  lemma UnmintedIsInvalid(ops: seq<Op>, ttlMs: nat, token: Token, now: int)
    requires forall i :: 0 <= i < |ops| ==> !Mints(ops, ttlMs, i, token)
    ensures Verdict(Run(ops, ttlMs), token, now) == Invalid
  {
    assert ops[..|ops|] == ops;
    if token in Run(ops, ttlMs).rows {
      var i := StoredWasMinted(ops, ttlMs, |ops|, token);
    }
  }

  /** Operation `i` minted the token less than its time to live ago, and nothing has spent it. */
  ghost predicate UsableSince(ops: seq<Op>, ttlMs: nat, i: nat, token: Token, now: int) {
    && Mints(ops, ttlMs, i, token) && now < ops[i].now + ttlMs
    && !SpentBetween(ops, ttlMs, i, |ops|, token, OwnerOf(ops, ttlMs, i))
  }

  lemma NotPurgedInTime(ops: seq<Op>, i: nat, expiry: int, now: int)
    requires Timely(ops) && (ops != [] ==> ops[|ops| - 1].now <= now) && now < expiry
    ensures !PurgedBetween(ops, i, |ops|, expiry)
  {
    forall k: nat | i < k < |ops| ensures !Purges(ops, k, expiry) {
      assert ops[k].now <= ops[|ops| - 1].now;
    }
  }

  lemma UsableIsExchanged(ops: seq<Op>, ttlMs: nat, i: nat, token: Token, now: int)
    requires Timely(ops) && (ops != [] ==> ops[|ops| - 1].now <= now) && Mints(ops, ttlMs, i, token)
    ensures Verdict(Run(ops, ttlMs), token, now).Exchanged? <==> UsableSince(ops, ttlMs, i, token, now)
  {
    OutcomeByHistory(ops, ttlMs, i, token, now);
    if now < ops[i].now + ttlMs {
      NotPurgedInTime(ops, i, ops[i].now + ttlMs, now);
    }
  }

  /** A token is exchanged exactly within its time to live from when it was minted, if nothing spent it before. */
  lemma ExchangedExactlyInTime(ops: seq<Op>, ttlMs: nat, token: Token, now: int)
    requires Timely(ops) && (ops != [] ==> ops[|ops| - 1].now <= now)
    ensures Verdict(Run(ops, ttlMs), token, now).Exchanged? <==>
              exists i: nat :: UsableSince(ops, ttlMs, i, token, now)
  {
    if i: nat :| UsableSince(ops, ttlMs, i, token, now) {
      UsableIsExchanged(ops, ttlMs, i, token, now);
    } else if token in Run(ops, ttlMs).rows {
      assert ops[..|ops|] == ops;
      var i := StoredWasMinted(ops, ttlMs, |ops|, token);
      UsableIsExchanged(ops, ttlMs, i, token, now);
    }
  }

  // ---------------------------------------------------------------- overlapping rotations

  /** A statement other than those of a rotation. */
  type Statement = op: Op | !op.Rotate? witness Purge(0)

  /** Where a rotation stands between two awaits: a usable row read, its successor issued, or a replay seen. */
  datatype Job =
    | Seen(token: Token, user: User, login: Token)
    | Issued(token: Token, next: Token)
    | Replayed(user: User)

  datatype Race = Race(s: State, jobs: map<nat, Job>)

  datatype Move =
    | Other(op: Statement)
    | Read(job: nat, token: Token, now: int)
    | Proceed(job: nat, now: int)
    | Abandon(job: nat)

  /** What a rotation does next: issue the successor, then mark the row replaced; or revoke everything. */
  ghost function Proceeded(w: Race, id: nat, now: int, ttlMs: nat): Race
    requires id in w.jobs
  {
    match w.jobs[id]
    case Seen(token, user, login) =>
      Race(Minted(w.s, user, login, now + ttlMs), w.jobs[id := Issued(token, w.s.minted)])
    case Issued(token, next) =>
      // Updating a row that is gone fails.
      Race(if token in w.s.rows
           then w.s.(rows := w.s.rows[token := w.s.rows[token].(revokedAt := Some(now), replacedBy := Some(next))])
           else w.s, w.jobs - {id})
    case Replayed(user) => Race(w.s.(rows := RevokedForUser(w.s.rows, user, now)), w.jobs - {id})
  }

  ghost function After(w: Race, m: Move, ttlMs: nat): Race {
    match m
    case Other(op) => w.(s := Step(w.s, op, ttlMs))
    case Read(id, token, now) =>
      (match Verdict(w.s, token, now)
       case Exchanged(_) => w.(jobs := w.jobs[id := Seen(token, w.s.rows[token].user, w.s.rows[token].login)])
       case AlreadyUsed => w.(jobs := w.jobs[id := Replayed(w.s.rows[token].user)])
       case _ => w.(jobs := w.jobs - {id}))
    case Proceed(id, now) => if id in w.jobs then Proceeded(w, id, now, ttlMs) else w
    case Abandon(id) => w.(jobs := w.jobs - {id})
  }

  ghost function RaceRun(ms: seq<Move>, ttlMs: nat): Race {
    if ms == [] then Race(State(map[], 0), map[]) else After(RaceRun(ms[..|ms| - 1], ttlMs), ms[|ms| - 1], ttlMs)
  }

  /** A rotation whose steps nothing interrupts is the serial one. */
  lemma UninterruptedIsSerial(w: Race, id: nat, token: Token, now: int, ttlMs: nat)
    requires token in w.s.rows ==> token < w.s.minted
    ensures var w1 := After(w, Read(id, token, now), ttlMs);
      var w3 := After(After(w1, Proceed(id, now), ttlMs), Proceed(id, now), ttlMs);
      w3.s == Step(w.s, Rotate(token, now), ttlMs) && id !in w3.jobs
  {
  }

  /** Move `i` of a run marks `token` replaced, which completes an exchange of it. */
  ghost predicate ExchangedAt(ms: seq<Move>, ttlMs: nat, i: nat, token: Token) {
    i < |ms| && ms[i].Proceed? &&
    var w := RaceRun(ms[..i], ttlMs);
    ms[i].job in w.jobs && w.jobs[ms[i].job].Issued? && w.jobs[ms[i].job].token == token && token in w.s.rows
  }

  /** A rotation of the token is under way in this job. */
  ghost predicate Holds(w: Race, id: nat, token: Token) {
    id in w.jobs && !w.jobs[id].Replayed? && w.jobs[id].token == token
  }

  /** The last read of a job in a run, or the length of the run. */
  ghost function LastRead(ms: seq<Move>, id: nat): (r: nat)
    ensures r <= |ms|
    ensures r < |ms| ==> ms[r].Read? && ms[r].job == id
  {
    if ms == [] then 0
    else
      var n, last := |ms| - 1, ms[|ms| - 1];
      if last.Read? && last.job == id then n
      else
        var r := LastRead(ms[..n], id);
        if r == n then |ms| else r
  }

  /** A job under way read its token while the row was usable. */
  lemma {:induction false} HeldSinceUsableRead(ms: seq<Move>, ttlMs: nat, id: nat, token: Token)
    requires Holds(RaceRun(ms, ttlMs), id, token)
    ensures var r := LastRead(ms, id);
      r < |ms| && ms[r].token == token && Verdict(RaceRun(ms[..r], ttlMs).s, token, ms[r].now).Exchanged?
  {
    var front, last := ms[..|ms| - 1], ms[|ms| - 1];
    if !(last.Read? && last.job == id) {
      HeldSinceUsableRead(front, ttlMs, id, token);
      var r := LastRead(front, id);
      assert front[..r] == ms[..r];
    }
  }

  /** What a rotation reads is usable exactly when the row is stored, unrevoked, not replaced and not yet expired. */
  lemma ReadIsUsableExactly(w: Race, id: nat, token: Token, now: int, ttlMs: nat)
    ensures var jobs := After(w, Read(id, token, now), ttlMs).jobs;
      (id in jobs && jobs[id].Seen?) <==>
        && token in w.s.rows && w.s.rows[token].revokedAt.None? && w.s.rows[token].replacedBy.None?
        && now < w.s.rows[token].expiresAt
  {
  }

  /** Move `i` mints this token at this instant: a login, or a rotation that goes on to issue. */
  ghost predicate MintsAt(ms: seq<Move>, ttlMs: nat, i: nat, token: Token, at: int) {
    i < |ms| &&
    var w := RaceRun(ms[..i], ttlMs);
    && w.s.minted == token
    && match ms[i]
       case Other(op) => op.Issue? && op.now == at
       case Proceed(id, now) => id in w.jobs && w.jobs[id].Seen? && now == at
       case _ => false
  }

  lemma {:induction false} RaceRowExpires(ms: seq<Move>, ttlMs: nat, token: Token) returns (i: nat)
    requires token in RaceRun(ms, ttlMs).s.rows
    ensures MintsAt(ms, ttlMs, i, token, RaceRun(ms, ttlMs).s.rows[token].expiresAt - ttlMs)
  {
    var n := |ms| - 1;
    var front := ms[..n];
    EveryInterleavingLeadsForward(front, ttlMs);
    if token in RaceRun(front, ttlMs).s.rows {
      i := RaceRowExpires(front, ttlMs, token);
      assert front[..i] == ms[..i];
      assert ForwardRow(RaceRun(front, ttlMs).s, token);
    } else {
      i := n;
    }
  }

  /** Under every interleaving a token is exchanged only after a read less than its time to live from its minting. */
  lemma RaceExchangesInTime(ms: seq<Move>, ttlMs: nat, j: nat, token: Token)
    requires ExchangedAt(ms, ttlMs, j, token)
    ensures exists r: nat, i: nat, at: int ::
              && r < j && ms[r].Read? && ms[r].job == ms[j].job && ms[r].token == token
              && i < r && MintsAt(ms, ttlMs, i, token, at) && ms[r].now < at + ttlMs
  {
    var r := LastRead(ms[..j], ms[j].job);
    HeldSinceUsableRead(ms[..j], ttlMs, ms[j].job, token);
    assert ms[..j][..r] == ms[..r];
    var at := RaceRun(ms[..r], ttlMs).s.rows[token].expiresAt - ttlMs;
    var i := RaceRowExpires(ms[..r], ttlMs, token);
    assert ms[..r][..i] == ms[..i];
    assert MintsAt(ms, ttlMs, i, token, at);
  }

  ghost predicate SameOwner(s: State, x: Token, y: Token) {
    x in s.rows && y in s.rows ==> s.rows[x].user == s.rows[y].user && s.rows[x].login == s.rows[y].login
  }

  ghost predicate ForwardRow(s: State, t: Token) {
    t in s.rows ==>
      && s.rows[t].login <= t < s.minted
      && (s.rows[t].replacedBy.Some? ==>
            t < s.rows[t].replacedBy.value < s.minted && s.rows[t].revokedAt.Some?
                && SameOwner(s, t, s.rows[t].replacedBy.value))
  }

  ghost predicate ForwardJob(s: State, job: Job) {
    match job
    case Seen(t, user, login) =>
      login <= t < s.minted && (t in s.rows ==> s.rows[t].user == user && s.rows[t].login == login)
    case Issued(t, z) => t < z < s.minted && SameOwner(s, t, z)
    case Replayed(_) => true
  }

  /** Rows and jobs only name minted tokens, and a link leads forward within one user's chain. */
  ghost predicate Forward(w: Race) {
    && (forall t: Token :: ForwardRow(w.s, t))
    && forall id :: id in w.jobs ==> ForwardJob(w.s, w.jobs[id])
  }

  /** The owners of rows stay, rows may go, and a row with a new name is a newly minted one. */
  ghost predicate OwnersStay(s: State, s': State) {
    && s.minted <= s'.minted
    && forall t :: t in s'.rows && t < s.minted ==>
         t in s.rows && s'.rows[t].user == s.rows[t].user && s'.rows[t].login == s.rows[t].login
  }

  lemma JobsStayForward(w: Race, s': State)
    requires Forward(w) && OwnersStay(w.s, s')
    ensures forall id :: id in w.jobs ==> ForwardJob(s', w.jobs[id])
  {
    forall id | id in w.jobs ensures ForwardJob(s', w.jobs[id]) {
      assert ForwardJob(w.s, w.jobs[id]);
    }
  }

  lemma StatementKeepsForward(w: Race, op: Statement, ttlMs: nat)
    requires Forward(w)
    ensures Forward(w.(s := Step(w.s, op, ttlMs)))
  {
    var s' := Step(w.s, op, ttlMs);
    forall t: Token ensures ForwardRow(s', t) {
      assert ForwardRow(w.s, t);
    }
    JobsStayForward(w, s');
  }

  lemma ProceedKeepsForward(w: Race, id: nat, now: int, ttlMs: nat)
    requires Forward(w) && id in w.jobs
    ensures Forward(Proceeded(w, id, now, ttlMs))
  {
    var w' := Proceeded(w, id, now, ttlMs);
    assert ForwardJob(w.s, w.jobs[id]);
    forall t: Token ensures ForwardRow(w'.s, t) {
      assert ForwardRow(w.s, t);
    }
    assert forall t: Token :: ForwardRow(w.s, t);
    JobsStayForward(w, w'.s);
  }

  lemma MoveKeepsForward(w: Race, m: Move, ttlMs: nat)
    requires Forward(w)
    ensures Forward(After(w, m, ttlMs))
  {
    match m
    case Other(op) => StatementKeepsForward(w, op, ttlMs);
    case Read(id, token, now) => assert ForwardRow(w.s, token);
    case Proceed(id, now) => if id in w.jobs { ProceedKeepsForward(w, id, now, ttlMs); }
    case Abandon(id) =>
  }

  /** What survives overlapping rotations: links lead forward, within one user and chain, from spent rows. */
  lemma {:induction false} EveryInterleavingLeadsForward(ms: seq<Move>, ttlMs: nat)
    ensures Forward(RaceRun(ms, ttlMs))
  {
    if ms != [] {
      EveryInterleavingLeadsForward(ms[..|ms| - 1], ttlMs);
      MoveKeepsForward(RaceRun(ms[..|ms| - 1], ttlMs), ms[|ms| - 1], ttlMs);
    }
  }

  lemma MoveKeepsSpent(w: Race, m: Move, ttlMs: nat, token: Token)
    requires Spent(w.s, token)
    ensures Spent(After(w, m, ttlMs).s, token)
    ensures forall id :: Holds(After(w, m, ttlMs), id, token) ==> Holds(w, id, token)
    ensures token in After(w, m, ttlMs).s.rows ==> token in w.s.rows
  {
  }

  lemma {:induction false} SpentThroughRace(ms: seq<Move>, ttlMs: nat, i: nat, token: Token)
    requires i <= |ms| && Spent(RaceRun(ms[..i], ttlMs).s, token)
    ensures Spent(RaceRun(ms, ttlMs).s, token)
    ensures forall id :: Holds(RaceRun(ms, ttlMs), id, token) ==> Holds(RaceRun(ms[..i], ttlMs), id, token)
    ensures token in RaceRun(ms, ttlMs).s.rows ==> token in RaceRun(ms[..i], ttlMs).s.rows
    decreases |ms|
  {
    if i == |ms| {
      assert ms[..i] == ms;
    } else {
      var front := ms[..|ms| - 1];
      assert front[..i] == ms[..i];
      SpentThroughRace(front, ttlMs, i, token);
      MoveKeepsSpent(RaceRun(front, ttlMs), ms[|ms| - 1], ttlMs, token);
    }
  }

  lemma ExchangeSpends(ms: seq<Move>, ttlMs: nat, i: nat, token: Token)
    requires ExchangedAt(ms, ttlMs, i, token)
    ensures Spent(RaceRun(ms[..i + 1], ttlMs).s, token)
  {
    EveryInterleavingLeadsForward(ms[..i], ttlMs);
    assert ForwardRow(RaceRun(ms[..i], ttlMs).s, token);
    assert ms[..i + 1][..i] == ms[..i];
  }

  /** Of two exchanges of one token, the later one's read came before the earlier one's last write. */
  lemma ExchangesOverlap(ms: seq<Move>, ttlMs: nat, i: nat, j: nat, token: Token)
    requires i < j && ExchangedAt(ms, ttlMs, i, token) && ExchangedAt(ms, ttlMs, j, token)
    ensures LastRead(ms[..j], ms[j].job) < i
  {
    var r := LastRead(ms[..j], ms[j].job);
    HeldSinceUsableRead(ms[..j], ttlMs, ms[j].job, token);
    assert ms[..j][..r] == ms[..r];
    ExchangeSpends(ms, ttlMs, i, token);
    if i < r {
      assert ms[..r][..i + 1] == ms[..i + 1];
      SpentThroughRace(ms[..r], ttlMs, i + 1, token);
    }
  }

  /** A rotation under way on a stored row always completes its exchange, spent or not. */
  lemma HeldReadExchanges(ms: seq<Move>, ttlMs: nat, id: nat, token: Token, now: int)
    requires Holds(RaceRun(ms, ttlMs), id, token) && token in RaceRun(ms, ttlMs).s.rows
    ensures ExchangedAt(ms + [Proceed(id, now)], ttlMs, |ms|, token)
         || ExchangedAt(ms + [Proceed(id, now), Proceed(id, now)], ttlMs, |ms| + 1, token)
  {
    var p := Proceed(id, now);
    assert (ms + [p])[..|ms|] == ms;
    assert (ms + [p, p])[..|ms| + 1] == ms + [p];
    EveryInterleavingLeadsForward(ms, ttlMs);
  }

  ghost predicate ExchangedAgain(ms: seq<Move>, ttlMs: nat, token: Token, more: seq<Move>) {
    exists k: nat :: |ms| <= k && ExchangedAt(ms + more, ttlMs, k, token)
  }

  /**
   When a token already exchanged, or revoked, can be exchanged once more: exactly when a rotation of
   it is still under way and its row is still stored.
   */
  lemma ExchangedAgainExactlyWhenHeld(ms: seq<Move>, ttlMs: nat, token: Token)
    requires Spent(RaceRun(ms, ttlMs).s, token)
    ensures (exists more :: ExchangedAgain(ms, ttlMs, token, more))
            <==> token in RaceRun(ms, ttlMs).s.rows && exists id :: Holds(RaceRun(ms, ttlMs), id, token)
  {
    var w := RaceRun(ms, ttlMs);
    if more :| ExchangedAgain(ms, ttlMs, token, more) {
      var all := ms + more;
      var k: nat :| |ms| <= k && ExchangedAt(all, ttlMs, k, token);
      assert all[..k][..|ms|] == ms;
      SpentThroughRace(all[..k], ttlMs, |ms|, token);
      assert Holds(RaceRun(all[..k], ttlMs), all[k].job, token);
    }
    if id :| Holds(w, id, token) && token in w.s.rows {
      HeldReadExchanges(ms, ttlMs, id, token, 0);
      if ExchangedAt(ms + [Proceed(id, 0)], ttlMs, |ms|, token) {
        assert ExchangedAgain(ms, ttlMs, token, [Proceed(id, 0)]);
      } else {
        assert ExchangedAgain(ms, ttlMs, token, [Proceed(id, 0), Proceed(id, 0)]);
      }
    }
  }

  ghost function TwoRotations(user: User, now: int): seq<Move> {
    [Other(Issue(user, 0)), Read(0, 0, now), Read(1, 0, now),
     Proceed(0, now), Proceed(0, now), Proceed(1, now), Proceed(1, now)]
  }

  /** Two rotations that both read before either writes: both succeed, and leave two unrevoked tokens in one chain. */
  lemma RacingRotationsBothSucceed(user: User, now: int, ttlMs: nat)
    requires 0 <= now < ttlMs
    ensures var ms := TwoRotations(user, now);
      && ExchangedAt(ms, ttlMs, 4, 0) && ExchangedAt(ms, ttlMs, 6, 0)
      && SameChain(RaceRun(ms, ttlMs).s, 1, 2)
      && RaceRun(ms, ttlMs).s.rows[1].revokedAt.None? && RaceRun(ms, ttlMs).s.rows[2].revokedAt.None?
  {
    var ms := TwoRotations(user, now);
    assert forall k {:trigger ms[..k]} :: 1 <= k <= 7 ==> ms[..k][..k - 1] == ms[..k - 1];
    assert ms[..0] == [] && ms[..7] == ms;
    var w1 := Race(State(map[0 := Row(user, 0, ttlMs, None, None)], 1), map[]);
    assert RaceRun(ms[..1], ttlMs) == w1;
    var seen := Seen(0, user, 0);
    assert RaceRun(ms[..2], ttlMs) == w1.(jobs := map[0 := seen]);
    var w3 := w1.(jobs := map[0 := seen, 1 := seen]);
    assert RaceRun(ms[..3], ttlMs) == w3;
    var w4 := Proceeded(w3, 0, now, ttlMs);
    assert RaceRun(ms[..4], ttlMs) == w4 && w4.jobs[0] == Issued(0, 1) && w4.jobs[1] == seen;
    var w5 := Proceeded(w4, 0, now, ttlMs);
    assert RaceRun(ms[..5], ttlMs) == w5 && w5.jobs[1] == seen && 0 in w5.s.rows;
    var w6 := Proceeded(w5, 1, now, ttlMs);
    assert RaceRun(ms[..6], ttlMs) == w6 && w6.jobs[1] == Issued(0, 2) && 0 in w6.s.rows;
    assert RaceRun(ms, ttlMs) == Proceeded(w6, 1, now, ttlMs);
  }

  // ---------------------------------------------------------------- one tail, with rotations under way

  ghost predicate Unrevoked(s: State, x: Token) {
    x in s.rows && s.rows[x].revokedAt.None?
  }

  /** Two usable tokens in one chain. */
  ghost predicate Twins(s: State, x: Token, y: Token) {
    x < y && SameChain(s, x, y) && Unrevoked(s, x) && Unrevoked(s, y)
  }

  ghost predicate Marks(jobs: map<nat, Job>, id: nat, x: Token) {
    id in jobs && jobs[id].Issued? && jobs[id].token == x
  }

  /** A rotation has issued a successor of this token and is about to mark it replaced. */
  ghost predicate MarkIsDue(jobs: map<nat, Job>, x: Token) {
    exists id :: Marks(jobs, id, x)
  }

  /** Of each chain all unrevoked rows but the tail are about to be marked replaced. */
  ghost predicate TidyTails(w: Race) {
    forall x: Token, y: Token :: Twins(w.s, x, y) ==> MarkIsDue(w.jobs, x)
  }

  /** A row of the chain that a rotation of `token` extends, which is neither revoked nor about to be marked. */
  ghost predicate LeftStanding(w: Race, token: Token, login: Token, y: Token) {
    y != token && Unrevoked(w.s, y) && w.s.rows[y].login == login && !MarkIsDue(w.jobs, y)
  }

  /** The job is the only one to mark its token, which is not the tail of its chain any more. */
  ghost predicate OwesTheMark(w: Race, id: nat) {
    && id in w.jobs && w.jobs[id].Issued? && !MarkIsDue(w.jobs - {id}, w.jobs[id].token)
    && exists y :: Twins(w.s, w.jobs[id].token, y)
  }

  /** A successor issued beside a row left standing, or a job that ends owing the mark. */
  ghost predicate Untidy(w: Race, m: Move) {
    match m
    case Other(_) => false
    case Read(id, _, _) => OwesTheMark(w, id)
    case Proceed(id, _) =>
      && id in w.jobs && w.jobs[id].Seen?
      && exists y :: LeftStanding(w, w.jobs[id].token, w.jobs[id].login, y)
    case Abandon(id) => OwesTheMark(w, id)
  }

  lemma MarksElsewhere(jobs: map<nat, Job>, jobs': map<nat, Job>, id: nat, x: Token)
    requires jobs' - {id} == jobs - {id} && !Marks(jobs, id, x)
    ensures MarkIsDue(jobs, x) ==> MarkIsDue(jobs', x)
    ensures !Marks(jobs', id, x) ==> MarkIsDue(jobs', x) == MarkIsDue(jobs, x)
  {
    forall k | k != id ensures Marks(jobs, k, x) == Marks(jobs', k, x) {
      assert k in jobs - {id} <==> k in jobs' - {id};
    }
  }

  /** Ending a job, or letting it read anew. */
  lemma LosingAJob(w: Race, id: nat, w': Race)
    requires TidyTails(w) && w'.s == w.s && w'.jobs - {id} == w.jobs - {id}
    requires id in w'.jobs ==> !w'.jobs[id].Issued?
    ensures TidyTails(w') <==> !OwesTheMark(w, id)
  {
    forall x: Token | !Marks(w.jobs, id, x) ensures MarkIsDue(w'.jobs, x) == MarkIsDue(w.jobs, x) {
      MarksElsewhere(w.jobs, w'.jobs, id, x);
    }
    forall x: Token ensures MarkIsDue(w'.jobs, x) == MarkIsDue(w.jobs - {id}, x) {
      MarksElsewhere(w'.jobs, w.jobs - {id}, id, x);
    }
  }

  lemma FewerTwins(w: Race, w': Race)
    requires TidyTails(w) && forall x: Token, y: Token :: Twins(w'.s, x, y) ==> Twins(w.s, x, y)
    requires forall x: Token :: Unrevoked(w'.s, x) && MarkIsDue(w.jobs, x) ==> MarkIsDue(w'.jobs, x)
    ensures TidyTails(w')
  {
  }

  lemma StatementKeepsTidy(w: Race, op: Statement, ttlMs: nat)
    requires Forward(w) && TidyTails(w)
    ensures TidyTails(w.(s := Step(w.s, op, ttlMs)))
  {
    var s' := Step(w.s, op, ttlMs);
    forall x: Token, y: Token | Twins(s', x, y) ensures Twins(w.s, x, y) {
      assert ForwardRow(w.s, x) && ForwardRow(w.s, y);
    }
    FewerTwins(w, w.(s := s'));
  }

  lemma MarkingKeepsTidy(w: Race, id: nat, now: int, ttlMs: nat)
    requires TidyTails(w) && id in w.jobs && !w.jobs[id].Seen?
    ensures TidyTails(Proceeded(w, id, now, ttlMs))
  {
    var w' := Proceeded(w, id, now, ttlMs);
    forall x: Token | Unrevoked(w'.s, x) && MarkIsDue(w.jobs, x) ensures MarkIsDue(w'.jobs, x) {
      MarksElsewhere(w.jobs, w'.jobs, id, x);
    }
    FewerTwins(w, w');
  }

  lemma IssuingBreaksExactly(w: Race, id: nat, now: int, ttlMs: nat)
    requires Forward(w) && TidyTails(w) && id in w.jobs && w.jobs[id].Seen?
    ensures TidyTails(Proceeded(w, id, now, ttlMs)) <==> !Untidy(w, Proceed(id, now))
  {
    var w', n, token, login := Proceeded(w, id, now, ttlMs), w.s.minted, w.jobs[id].token, w.jobs[id].login;
    assert w'.jobs[id] == Issued(token, n) && w'.jobs - {id} == w.jobs - {id};
    assert Marks(w'.jobs, id, token);
    forall x: Token | x != token ensures MarkIsDue(w'.jobs, x) == MarkIsDue(w.jobs, x) {
      MarksElsewhere(w.jobs, w'.jobs, id, x);
    }
    forall x: Token, y: Token
      ensures Twins(w'.s, x, y) <==>
              Twins(w.s, x, y) || (y == n && Unrevoked(w.s, x) && w.s.rows[x].login == login)
    {
      assert ForwardRow(w.s, x) && ForwardRow(w.s, y);
    }
    if y :| LeftStanding(w, token, login, y) {
      assert Twins(w'.s, y, n) && !MarkIsDue(w'.jobs, y);
    } else {
      forall x: Token, y: Token | Twins(w'.s, x, y) ensures MarkIsDue(w'.jobs, x) {
        assert Twins(w.s, x, y) || !LeftStanding(w, token, login, x);
      }
    }
  }

  /** Exactly which moves leave an unrevoked row behind that nobody is about to mark. */
  lemma TailsBreakExactly(w: Race, m: Move, ttlMs: nat)
    requires Forward(w) && TidyTails(w)
    ensures TidyTails(After(w, m, ttlMs)) <==> !Untidy(w, m)
  {
    match m
    case Other(op) => StatementKeepsTidy(w, op, ttlMs);
    case Read(id, _, _) => LosingAJob(w, id, After(w, m, ttlMs));
    case Proceed(id, now) =>
      if id in w.jobs {
        if w.jobs[id].Seen? {
          IssuingBreaksExactly(w, id, now, ttlMs);
        } else {
          MarkingKeepsTidy(w, id, now, ttlMs);
        }
      }
    case Abandon(id) => LosingAJob(w, id, After(w, m, ttlMs));
  }

  ghost predicate NeverUntidy(ms: seq<Move>, ttlMs: nat) {
    forall k :: 0 <= k < |ms| ==> !Untidy(RaceRun(ms[..k], ttlMs), ms[k])
  }

  ghost predicate AlwaysTidy(ms: seq<Move>, ttlMs: nat) {
    forall k :: 0 <= k <= |ms| ==> TidyTails(RaceRun(ms[..k], ttlMs))
  }

  /** Which race runs keep the tails tidy throughout: exactly those without such a move. */
  lemma {:induction false} TailsStayTidyExactly(ms: seq<Move>, ttlMs: nat)
    ensures AlwaysTidy(ms, ttlMs) <==> NeverUntidy(ms, ttlMs)
  {
    if ms != [] {
      var n := |ms| - 1;
      var front := ms[..n];
      assert forall k :: 0 <= k <= n ==> front[..k] == ms[..k];
      TailsStayTidyExactly(front, ttlMs);
      assert ms[..n + 1] == ms;
      assert AlwaysTidy(ms, ttlMs) <==> AlwaysTidy(front, ttlMs) && TidyTails(RaceRun(ms, ttlMs));
      assert NeverUntidy(ms, ttlMs) <==> NeverUntidy(front, ttlMs) && !Untidy(RaceRun(front, ttlMs), ms[n]);
      assert front[..n] == front;
      EveryInterleavingLeadsForward(front, ttlMs);
      if TidyTails(RaceRun(front, ttlMs)) {
        TailsBreakExactly(RaceRun(front, ttlMs), ms[n], ttlMs);
      }
    }
  }

  /** In such a run a chain has at most one unrevoked row once no mark is due, whatever overlaps. */
  lemma TailIsUniqueInTidyRuns(ms: seq<Move>, ttlMs: nat, x: Token, y: Token)
    requires NeverUntidy(ms, ttlMs) && Twins(RaceRun(ms, ttlMs).s, x, y)
    ensures MarkIsDue(RaceRun(ms, ttlMs).jobs, x)
  {
    TailsStayTidyExactly(ms, ttlMs);
    assert ms[..|ms|] == ms;
  }

  /** A rotation that ends between its two writes leaves two unrevoked rows, with nothing overlapping. */
  lemma AbandonedRotationLeavesTwins(user: User, now: int, ttlMs: nat)
    requires 0 <= now < ttlMs
    ensures var w := RaceRun([Other(Issue(user, 0))] + [Read(0, 0, now)] + [Proceed(0, now)] + [Abandon(0)], ttlMs);
      w.jobs == map[] && Twins(w.s, 0, 1)
  {
    var ms: seq<Move> := [Other(Issue(user, 0))];
    RaceOfOneMore([], Other(Issue(user, 0)), ttlMs);
    assert [] + ms == ms;
    assert RaceRun(ms, ttlMs) == Race(State(map[0 := Row(user, 0, ttlMs, None, None)], 1), map[]);
    RaceOfOneMore(ms, Read(0, 0, now), ttlMs);
    assert RaceRun(ms + [Read(0, 0, now)], ttlMs).jobs == map[0 := Seen(0, user, 0)];
    RaceOfOneMore(ms + [Read(0, 0, now)], Proceed(0, now), ttlMs);
    RaceOfOneMore(ms + [Read(0, 0, now)] + [Proceed(0, now)], Abandon(0), ttlMs);
  }

  // ---------------------------------------------------------------- logging out everywhere, with rotations under way

  /** The run logs nobody in for this user. */
  ghost predicate NoLogin(ms: seq<Move>, user: User) {
    forall i :: 0 <= i < |ms| && ms[i].Other? && ms[i].op.Issue? ==> ms[i].op.user != user
  }

  /** No rotation of the user has read a usable row and not yet issued its successor. */
  ghost predicate NobodyIssues(w: Race, user: User) {
    forall id :: id in w.jobs && w.jobs[id].Seen? ==> w.jobs[id].user != user
  }

  ghost predicate LoggedOut(w: Race, user: User) {
    UnrevokedOf(w.s.rows, user) == {}
  }

  lemma MoveKeepsLoggedOut(w: Race, m: Move, ttlMs: nat, user: User)
    requires LoggedOut(w, user) && NobodyIssues(w, user) && NoLogin([m], user)
    ensures LoggedOut(After(w, m, ttlMs), user) && NobodyIssues(After(w, m, ttlMs), user)
  {
    assert [m][0] == m;
    forall t: Token ensures t !in UnrevokedOf(After(w, m, ttlMs).s.rows, user) {
      assert t !in UnrevokedOf(w.s.rows, user);
    }
    if m.Read? && m.token in w.s.rows {
      assert m.token !in UnrevokedOf(w.s.rows, user);
    }
  }

  lemma {:induction false} StaysLoggedOut(ms: seq<Move>, more: seq<Move>, ttlMs: nat, user: User)
    requires LoggedOut(RaceRun(ms, ttlMs), user) && NobodyIssues(RaceRun(ms, ttlMs), user) && NoLogin(more, user)
    ensures LoggedOut(RaceRun(ms + more, ttlMs), user) && NobodyIssues(RaceRun(ms + more, ttlMs), user)
    decreases |more|
  {
    if more == [] {
      assert ms + more == ms;
    } else {
      var front, last := more[..|more| - 1], more[|more| - 1];
      assert (ms + more)[..|ms + more| - 1] == ms + front;
      StaysLoggedOut(ms, front, ttlMs, user);
      MoveKeepsLoggedOut(RaceRun(ms + front, ttlMs), last, ttlMs, user);
    }
  }

  lemma RaceOfOneMore(ms: seq<Move>, m: Move, ttlMs: nat)
    ensures RaceRun(ms + [m], ttlMs) == After(RaceRun(ms, ttlMs), m, ttlMs)
  {
    assert (ms + [m])[..|ms|] == ms;
  }

  /**
   When revoking everything is final: a user left without an unrevoked token stays so until the next
   login, whatever happens, exactly when no rotation of the user is between its read and its issue.
   */
  lemma LogoutIsFinalExactlyWhenNobodyIssues(ms: seq<Move>, ttlMs: nat, user: User)
    requires LoggedOut(RaceRun(ms, ttlMs), user)
    ensures NobodyIssues(RaceRun(ms, ttlMs), user)
            <==> forall more :: NoLogin(more, user) ==> LoggedOut(RaceRun(ms + more, ttlMs), user)
  {
    var w := RaceRun(ms, ttlMs);
    if NobodyIssues(w, user) {
      forall more | NoLogin(more, user) ensures LoggedOut(RaceRun(ms + more, ttlMs), user) {
        StaysLoggedOut(ms, more, ttlMs, user);
      }
    } else {
      var id :| id in w.jobs && w.jobs[id].Seen? && w.jobs[id].user == user;
      RaceOfOneMore(ms, Proceed(id, 0), ttlMs);
      assert w.s.minted in UnrevokedOf(RaceRun(ms + [Proceed(id, 0)], ttlMs).s.rows, user);
      assert NoLogin([Proceed(id, 0)], user);
    }
  }

  /** Two logins, of which the first is revoked. */
  ghost function TwoLogins(user: User, now: int): seq<Move> {
    [Other(Issue(user, 0))] + [Other(Issue(user, 0))] + [Other(Revoke(0, now))]
  }

  ghost function AfterTwoLogins(user: User, now: int, ttlMs: nat): State {
    State(map[0 := Row(user, 0, ttlMs, Some(now), None), 1 := Row(user, 1, ttlMs, None, None)], 2)
  }

  lemma TwoLoginsRun(user: User, now: int, ttlMs: nat)
    ensures RaceRun(TwoLogins(user, now), ttlMs) == Race(AfterTwoLogins(user, now, ttlMs), map[])
  {
    var m1: seq<Move>, row := [Other(Issue(user, 0))], Row(user, 0, ttlMs, None, None);
    RaceOfOneMore([], m1[0], ttlMs);
    assert [] + [m1[0]] == m1;
    assert RaceRun(m1, ttlMs) == Race(State(map[0 := row], 1), map[]);
    RaceOfOneMore(m1, Other(Issue(user, 0)), ttlMs);
    var m2 := m1 + [Other(Issue(user, 0))];
    assert RaceRun(m2, ttlMs) == Race(State(map[0 := row, 1 := row.(login := 1)], 2), map[]);
    RaceOfOneMore(m2, Other(Revoke(0, now)), ttlMs);
  }

  /** The first token is replayed while the second one is being rotated. */
  ghost function ReplayDuringRotation(user: User, now: int): seq<Move> {
    TwoLogins(user, now) + [Read(0, 1, now)] + [Read(1, 0, now)] + [Proceed(1, now)]
  }

  /** The replay revokes every token of the user, and the rotation then issues a fresh one. */
  lemma ReplayCanBeOutrun(user: User, now: int, ttlMs: nat)
    requires 0 <= now < ttlMs
    ensures var ms := ReplayDuringRotation(user, now);
      && LoggedOut(RaceRun(ms, ttlMs), user)
      && UnrevokedOf(RaceRun(ms + [Proceed(0, now)], ttlMs).s.rows, user) == {2}
  {
    var m3, s3, seen := TwoLogins(user, now), AfterTwoLogins(user, now, ttlMs), Seen(1, user, 1);
    TwoLoginsRun(user, now, ttlMs);
    RaceOfOneMore(m3, Read(0, 1, now), ttlMs);
    var m4 := m3 + [Read(0, 1, now)];
    assert RaceRun(m4, ttlMs) == Race(s3, map[0 := seen]);
    RaceOfOneMore(m4, Read(1, 0, now), ttlMs);
    var m5 := m4 + [Read(1, 0, now)];
    assert RaceRun(m5, ttlMs) == Race(s3, map[0 := seen, 1 := Replayed(user)]);
    RaceOfOneMore(m5, Proceed(1, now), ttlMs);
    var m6 := m5 + [Proceed(1, now)];
    assert RaceRun(m6, ttlMs).jobs == map[0 := seen] && RaceRun(m6, ttlMs).s.minted == 2;
    RaceOfOneMore(m6, Proceed(0, now), ttlMs);
  }

  // ---------------------------------------------------------------- the service

  class RefreshTokenService {
    const ttlMs: nat
    var rows: map<Token, Row>
    var minted: nat

    ghost function Model(): State
      reads this
    {
      State(rows, minted)
    }

    constructor (ttlMs: nat)
      ensures Model() == Run([], ttlMs) && this.ttlMs == ttlMs
    {
      this.ttlMs := ttlMs;
      rows, minted := map[], 0;
    }

    /** `login` is the chain the new row joins, or `None` for a login that starts one. */
    method IssueIn(user: User, login: Option<Token>, now: int) returns (token: Token)
      modifies this`rows, this`minted
      ensures token == old(minted)
      ensures Model() == Minted(old(Model()), user, if login.Some? then login.value else token, now + ttlMs)
    {
      token := minted;
      rows := rows[token := Row(user, if login.Some? then login.value else token, now + ttlMs, None, None)];
      minted := minted + 1;
    }

    method Issue(user: User, now: int) returns (token: Token)
      modifies this`rows, this`minted
      ensures token == old(minted) && Model() == Step(old(Model()), Op.Issue(user, now), ttlMs)
    {
      token := IssueIn(user, None, now);
    }

    method Rotate(token: Token, now: int) returns (outcome: Outcome)
      modifies this`rows, this`minted
      ensures outcome == Verdict(old(Model()), token, now)
      ensures Model() == Step(old(Model()), Op.Rotate(token, now), ttlMs)
    {
      if token !in rows {
        return Invalid;
      }
      var existing := rows[token];
      if existing.revokedAt.Some? || existing.replacedBy.Some? {
        var _ := RevokeAllForUser(existing.user, now);
        return AlreadyUsed;
      }
      if existing.expiresAt <= now {
        return Expired;
      }
      var next := IssueIn(existing.user, Some(existing.login), now);
      rows := rows[token := existing.(revokedAt := Some(now), replacedBy := Some(next))];
      outcome := Exchanged(next);
    }

    method Revoke(token: Token, now: int) returns (changed: bool)
      modifies this`rows
      ensures Model() == Step(old(Model()), Op.Revoke(token, now), ttlMs)
      ensures changed <==> token in old(rows) && old(rows)[token].revokedAt.None?
    {
      changed := token in rows && rows[token].revokedAt.None?;
      if changed {
        rows := rows[token := rows[token].(revokedAt := Some(now))];
      } else if token in rows {
        assert rows == rows[token := rows[token]];
      }
    }

    /** Logout everywhere: afterwards the user has no unrevoked token; `count` tells how many there were. */
    method RevokeAllForUser(user: User, now: int) returns (count: nat)
      modifies this`rows
      ensures Model() == Step(old(Model()), RevokeAll(user, now), ttlMs)
      ensures UnrevokedOf(rows, user) == {} && count == |old(UnrevokedOf(rows, user))|
      ensures rows.Keys == old(rows).Keys
      ensures forall t :: t in rows && t !in old(UnrevokedOf(rows, user)) ==> rows[t] == old(rows)[t]
    {
      var hit := UnrevokedOf(rows, user);
      rows := rows + map t | t in hit :: rows[t].(revokedAt := Some(now));
      count := |hit|;
    }

    /** What is left is exactly what has not expired, untouched, and `count` makes up the difference. */
    method PurgeExpired(now: int) returns (count: nat)
      modifies this`rows
      ensures Model() == Step(old(Model()), Purge(now), ttlMs)
      ensures forall t :: t in rows <==> t in old(rows) && now <= old(rows)[t].expiresAt
      ensures forall t :: t in rows ==> rows[t] == old(rows)[t]
      ensures |rows.Keys| + count == |old(rows).Keys|
    {
      var gone := ExpiredBefore(rows, now);
      GoneAndKept(rows, now);
      rows := rows - gone;
      count := |gone|;
    }
  }
}
