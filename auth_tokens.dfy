/** The session store (app/Models/AuthTokenModel.php): one row per issued
    token, keyed by the token's `jti`, with revocation, last-use touch,
    expiry clean-up and the per-user cap on concurrent sessions. Datetimes
    are integers (seconds) and the clock is the parameter `now`. */
module AuthTokens {
  import opened Values
  import opened Text

  /** An `auth_tokens` row. `token` holds the JWT's `jti`. */
  datatype Session = Session(
    id: nat,
    userId: int,
    token: string,
    expiresAt: int,
    revokedAt: Option<int>,
    lastUsedAt: int,
    ip: Option<string>,
    userAgent: Option<string>,
    createdAt: int)

  /** The columns `getActiveSessions` selects. */
  datatype SessionView = SessionView(
    id: nat,
    token: string,
    expiresAt: int,
    lastUsedAt: int,
    ip: Option<string>,
    userAgent: Option<string>,
    createdAt: int)

  /** The counters `getTokenStats` returns. */
  datatype TokenStats = TokenStats(total: nat, active: nat, revoked: nat, expired: nat)

  /** `getActiveSessions`' default page size. */
  const DEFAULT_SESSION_LIST_LIMIT := 10
  /** `cleanupOldTokens`' default retention, in days. */
  const DEFAULT_RETENTION_DAYS := 30
  const SECONDS_PER_DAY := 86400
  /** The `max_length` validation rule on `token`. */
  const MAX_TOKEN_LENGTH := 255

  /** A session is active when it was never revoked and has not yet expired. */
  predicate IsActive(s: Session, now: int) {
    s.revokedAt.None? && s.expiresAt > now
  }

  predicate IsActiveFor(s: Session, userId: int, now: int) {
    s.userId == userId && IsActive(s, now)
  }

  /** Positions of the user's active sessions. */
  function ActiveIndices(rows: seq<Session>, userId: int, now: int): set<int> {
    set i | 0 <= i < |rows| && IsActiveFor(rows[i], userId, now)
  }

  /** Number of the user's active sessions. */
  function ActiveCount(rows: seq<Session>, userId: int, now: int): nat {
    |ActiveIndices(rows, userId, now)|
  }

  predicate SameKey(s: Session, t: Session) {
    s.userId == t.userId && s.token == t.token
  }

  /** The table's integrity: ids are handed out in increasing order below
      `nextId`, and `(user_id, token)` is unique (the migration's unique key;
      the same token may appear under two users). */
  ghost predicate WellFormedTable(rows: seq<Session>, nextId: nat) {
    && IdsIncreasing(rows)
    && (forall i :: 0 <= i < |rows| ==> rows[i].id < nextId)
    && (forall i, j :: 0 <= i < |rows| && 0 <= j < |rows| && i != j ==> !SameKey(rows[i], rows[j]))
  }

  predicate TokenMatches(s: Session, jti: string, now: int) {
    s.token == jti && IsActive(s, now)
  }

  /** The query of `findValidByJti`: the first row with that token that is
      neither revoked nor expired. */
  function ActiveLookup(rows: seq<Session>, jti: string, now: int): (r: Option<Session>)
    ensures r.Some? ==> r.value in rows && r.value.token == jti && IsActive(r.value, now)
    ensures r.None? <==> forall i :: 0 <= i < |rows| ==> !TokenMatches(rows[i], jti, now)
  {
    match FirstIndex(rows, (s: Session) => TokenMatches(s, jti, now))
    case None => None
    case Some(k) => Some(rows[k])
  }

  // ---------------------------------------------------------------------
  // Bulk updates and deletes
  // ---------------------------------------------------------------------

  /** The WHERE clauses of the bulk `revoked_at` updates. */
  datatype RevokeSelector =
    | UnrevokedWithToken(jti: string)    // revokeByJti
    | UnrevokedOfUser(userId: int)       // revokeAllByUser
    | IdIn(ids: set<nat>)                // enforceSessionLimit

  predicate Selects(f: RevokeSelector, s: Session) {
    match f
    case UnrevokedWithToken(jti) => s.token == jti && s.revokedAt.None?
    case UnrevokedOfUser(u) => s.userId == u && s.revokedAt.None?
    case IdIn(ids) => s.id in ids
  }

  /** `->where(...)->set(['revoked_at' => now])->update()`. */
  function SetRevoked(rows: seq<Session>, f: RevokeSelector, now: int): (r: seq<Session>)
    ensures |r| == |rows|
    ensures forall i :: 0 <= i < |rows| ==>
              r[i] == if Selects(f, rows[i]) then rows[i].(revokedAt := Some(now)) else rows[i]
  {
    seq(|rows|, i requires 0 <= i < |rows| =>
      if Selects(f, rows[i]) then rows[i].(revokedAt := Some(now)) else rows[i])
  }

  /** `touchToken`'s update: the row with that id is marked used at `now`. */
  function Touched(rows: seq<Session>, id: nat, now: int): (r: seq<Session>)
    ensures |r| == |rows|
    ensures forall i :: 0 <= i < |rows| ==>
              r[i] == if rows[i].id == id then rows[i].(lastUsedAt := now) else rows[i]
  {
    seq(|rows|, i requires 0 <= i < |rows| =>
      if rows[i].id == id then rows[i].(lastUsedAt := now) else rows[i])
  }

  /** The WHERE clauses of the deletes. */
  datatype DeleteSelector =
    | ExpiredOfUser(userId: int, now: int)   // cleanupExpired: expires_at < now
    | OlderThan(cutoff: int)                 // cleanupOldTokens: expires_at < cutoff OR revoked_at < cutoff

  predicate Deletes(f: DeleteSelector, s: Session) {
    match f
    case ExpiredOfUser(u, now) => s.userId == u && s.expiresAt < now
    case OlderThan(cutoff) => s.expiresAt < cutoff || (s.revokedAt.Some? && s.revokedAt.value < cutoff)
  }

  /** Number of rows a delete removes (`affectedRows()`). */
  function DeletedCount(rows: seq<Session>, f: DeleteSelector): (n: nat)
    ensures n <= |rows|
  {
    if rows == [] then 0 else (if Deletes(f, rows[0]) then 1 else 0) + DeletedCount(rows[1..], f)
  }

  /** `->where(...)->delete()`: the surviving rows, in table order. */
  function DeleteWhere(rows: seq<Session>, f: DeleteSelector): (r: seq<Session>)
    ensures forall s :: s in r <==> s in rows && !Deletes(f, s)
    ensures |r| == |rows| - DeletedCount(rows, f)
  {
    if rows == [] then []
    else
      var rest := DeleteWhere(rows[1..], f);
      if Deletes(f, rows[0]) then rest else [rows[0]] + rest
  }

  predicate IdsIncreasing(rows: seq<Session>) {
    forall i, j :: 0 <= i < j < |rows| ==> rows[i].id < rows[j].id
  }

  /** A delete keeps the surviving rows in table order. */
  lemma {:induction false} DeleteKeepsOrder(rows: seq<Session>, f: DeleteSelector)
    requires IdsIncreasing(rows)
    ensures IdsIncreasing(DeleteWhere(rows, f))
  {
    if rows != [] {
      var rest := DeleteWhere(rows[1..], f);
      DeleteKeepsOrder(rows[1..], f);
      if !Deletes(f, rows[0]) {
        var r := [rows[0]] + rest;
        forall i, j | 0 <= i < j < |r| ensures r[i].id < r[j].id {
          if i == 0 {
            assert r[j] == rest[j - 1] && rest[j - 1] in rows[1..];
            var k :| 0 <= k < |rows[1..]| && rows[1..][k] == r[j];
            assert rows[k + 1] == r[j];
          }
        }
      }
    }
  }

  // ---------------------------------------------------------------------
  // The session store
  // ---------------------------------------------------------------------

  class AuthTokenStore {
    var rows: seq<Session>
    /** The next auto-increment id. */
    var nextId: nat

    ghost predicate Valid()
      reads this
    {
      WellFormedTable(rows, nextId)
    }

    constructor ()
      ensures Valid() && rows == [] && nextId == 1
    {
      rows := [];
      nextId := 1;
    }

    /** `findValidByJti($jti)`: the active row with that token, if any; a hit
        marks that row used at `now` and returns the row as read before the
        touch; a miss changes nothing. */
    method FindValidByJti(jti: string, now: int) returns (r: Option<Session>)
      requires Valid()
      modifies this
      ensures Valid() && nextId == old(nextId)
      ensures r == ActiveLookup(old(rows), jti, now)
      ensures rows == if r.Some? then Touched(old(rows), r.value.id, now) else old(rows)
    {
      r := ActiveLookup(rows, jti, now);
      if r.Some? {
        var _ := TouchToken(r.value.id, now);
      }
    }

    /** `touchToken($id)`: sets `last_used_at` of the row with that id. */
    method TouchToken(id: nat, now: int) returns (ok: bool)
      requires Valid()
      modifies this
      ensures Valid() && nextId == old(nextId)
      ensures rows == Touched(old(rows), id, now)
      ensures ok
    {
      KeysKeptPreserveTable(rows, Touched(rows, id, now), nextId);
      rows := Touched(rows, id, now);
      ok := true;
    }

    /** `createToken(...)`: inserts one unrevoked row used at `now`. The insert
        fails, changing nothing, when validation rejects the token (empty once
        trimmed, as the `required` rule reads it, or longer than 255) or the
        user already has a row with that token. */
    method CreateToken(userId: int, jti: string, expiresAt: int, ip: Option<string>, userAgent: Option<string>, now: int)
      returns (ok: bool)
      requires Valid()
      modifies this
      ensures Valid()
      ensures ok <==> Trim(jti) != "" && |jti| <= MAX_TOKEN_LENGTH &&
                      forall i :: 0 <= i < |old(rows)| ==> !(old(rows)[i].userId == userId && old(rows)[i].token == jti)
      ensures ok ==> rows == old(rows) + [Session(old(nextId), userId, jti, expiresAt, None, now, ip, userAgent, now)]
      ensures ok ==> nextId == old(nextId) + 1
      ensures !ok ==> rows == old(rows) && nextId == old(nextId)
    {
      if Trim(jti) == "" || |jti| > MAX_TOKEN_LENGTH {
        return false;
      }
      var clash := FirstIndex(rows, (s: Session) => s.userId == userId && s.token == jti);
      if clash.Some? {
        return false;
      }
      var row := Session(nextId, userId, jti, expiresAt, None, now, ip, userAgent, now);
      rows := rows + [row];
      nextId := nextId + 1;
      ok := true;
    }

    /** `revokeByJti($jti)`: stamps every unrevoked row with that token, under
        any user; rows already revoked keep their timestamp. */
    method RevokeByJti(jti: string, now: int) returns (ok: bool)
      requires Valid()
      modifies this
      ensures Valid() && nextId == old(nextId) && ok
      ensures rows == SetRevoked(old(rows), UnrevokedWithToken(jti), now)
    {
      KeysKeptPreserveTable(rows, SetRevoked(rows, UnrevokedWithToken(jti), now), nextId);
      rows := SetRevoked(rows, UnrevokedWithToken(jti), now);
      ok := true;
    }

    /** `revokeAllByUser($userId)`: stamps every unrevoked row of the user. */
    method RevokeAllByUser(userId: int, now: int) returns (ok: bool)
      requires Valid()
      modifies this
      ensures Valid() && nextId == old(nextId) && ok
      ensures rows == SetRevoked(old(rows), UnrevokedOfUser(userId), now)
    {
      KeysKeptPreserveTable(rows, SetRevoked(rows, UnrevokedOfUser(userId), now), nextId);
      rows := SetRevoked(rows, UnrevokedOfUser(userId), now);
      ok := true;
    }

    /** `cleanupExpired($userId)`: deletes the user's rows with `expires_at < now`. */
    method CleanupExpired(userId: int, now: int) returns (ok: bool)
      requires Valid()
      modifies this
      ensures Valid() && nextId == old(nextId) && ok
      ensures rows == DeleteWhere(old(rows), ExpiredOfUser(userId, now))
    {
      DeleteKeepsTable(rows, ExpiredOfUser(userId, now), nextId);
      rows := DeleteWhere(rows, ExpiredOfUser(userId, now));
      ok := true;
    }

    /** `cleanupOldTokens($daysOld)`: deletes, across all users, the rows that
        expired or were revoked before `now - daysOld` days, and returns how
        many were deleted. */
    method CleanupOldTokens(daysOld: int, now: int) returns (deleted: int)
      requires Valid()
      modifies this
      ensures Valid() && nextId == old(nextId)
      ensures rows == DeleteWhere(old(rows), OlderThan(now - daysOld * SECONDS_PER_DAY))
      ensures deleted == DeletedCount(old(rows), OlderThan(now - daysOld * SECONDS_PER_DAY))
    {
      var cutoff := now - daysOld * SECONDS_PER_DAY;
      var before := |rows|;
      DeleteKeepsTable(rows, OlderThan(cutoff), nextId);
      rows := DeleteWhere(rows, OlderThan(cutoff));
      deleted := before - |rows|;
    }

    /** `getActiveSessions($userId, $limit)`: the user's active sessions, most
        recently used first, at most `limit` of them (0 means no limit).
        Rows used at the same instant may come in any order. */
    method GetActiveSessions(userId: int, limit: int, now: int) returns (list: seq<SessionView>)
      requires Valid() && limit >= 0
      ensures var n := ActiveCount(rows, userId, now);
              |list| == if limit == 0 || n <= limit then n else limit
      ensures forall a :: 0 <= a < |list| ==> IsViewOfActive(rows, userId, now, list[a])
      ensures forall a, b :: 0 <= a < b < |list| ==>
                list[a].lastUsedAt >= list[b].lastUsedAt && list[a].id != list[b].id
      ensures forall i :: 0 <= i < |rows| && IsActiveFor(rows[i], userId, now) && View(rows[i]) !in list ==>
                forall a :: 0 <= a < |list| ==> rows[i].lastUsedAt <= list[a].lastUsedAt
    {
      ghost var someOrder := ActiveOrderExists(rows, userId, now);
      var ordered :| IsActiveOrder(rows, userId, now, ordered);
      ActiveOrderLength(rows, userId, now, ordered);
      var n := |ordered|;
      var m := if limit == 0 || n <= limit then n else limit;
      list := Page(rows, ordered, m);
      PageOfActiveOrder(rows, userId, now, ordered, m);
    }

    /** `enforceSessionLimit($userId, $maxSessions)`: when the user has `max`
        or more active sessions, all but the `max - 1` most recently used are
        revoked at `now` (for a cap below one, `array_slice`'s negative offset
        keeps that many fewer than all); otherwise nothing changes. Which of several equally recent sessions survive is left
        open, as the query orders by `last_used_at` alone. */
    method EnforceSessionLimit(userId: int, max: int, now: int) returns (ok: bool)
      requires Valid()
      modifies this
      ensures Valid() && nextId == old(nextId) && ok
      ensures CapOutcome(old(rows), rows, userId, max, now)
      ensures old(ActiveCount(rows, userId, now)) >= max >= 1 ==> ActiveCount(rows, userId, now) == max - 1
    {
      ok := true;
      var active := ActiveIndices(rows, userId, now);
      if |active| < max {
        return;
      }
      ghost var someOrder := ActiveOrderExists(rows, userId, now);
      var ordered :| IsActiveOrder(rows, userId, now, ordered);
      ActiveOrderLength(rows, userId, now, ordered);
      var keep := SliceStart(|ordered|, max - 1);
      var ids := IdsAt(rows, ordered[keep..]);
      EnforcePlan(rows, nextId, userId, now, ordered, keep);
      KeysKeptPreserveTable(rows, SetRevoked(rows, IdIn(ids), now), nextId);
      rows := SetRevoked(rows, IdIn(ids), now);
    }

    /** `getTokenStats($userId)`: the user's rows split into active, revoked
        and expired-but-unrevoked, which together are all of them. */
    function GetTokenStats(userId: int, now: int): (r: TokenStats)
      reads this
      ensures r.active + r.revoked + r.expired == r.total
      ensures r.active == ActiveCount(rows, userId, now)
      ensures r.total == |UserIndices(rows, userId)|
      ensures r.revoked == |RevokedIndices(rows, userId)| && r.expired == |ExpiredIndices(rows, userId, now)|
    {
      StatsPartition(rows, userId, now);
      TokenStats(|UserIndices(rows, userId)|, ActiveCount(rows, userId, now),
                 |RevokedIndices(rows, userId)|, |ExpiredIndices(rows, userId, now)|)
    }
  }

  function View(s: Session): SessionView {
    SessionView(s.id, s.token, s.expiresAt, s.lastUsedAt, s.ip, s.userAgent, s.createdAt)
  }

  ghost predicate IsViewOfActive(rows: seq<Session>, userId: int, now: int, v: SessionView) {
    exists i :: 0 <= i < |rows| && IsActiveFor(rows[i], userId, now) && v == View(rows[i])
  }

  /** The views of the rows at the first `m` positions of `ordered`. */
  function Page(rows: seq<Session>, ordered: seq<int>, m: nat): (list: seq<SessionView>)
    requires m <= |ordered| && forall a :: 0 <= a < |ordered| ==> 0 <= ordered[a] < |rows|
    ensures |list| == m && forall a :: 0 <= a < m ==> list[a] == View(rows[ordered[a]])
  {
    seq(m, a requires 0 <= a < m => View(rows[ordered[a]]))
  }

  /** A prefix of an order of the active sessions lists only active
      sessions, each once, most recently used first, and every active
      session it leaves out was used no later than any listed one. */
  lemma PageOfActiveOrder(rows: seq<Session>, userId: int, now: int, ordered: seq<int>, m: nat)
    requires IdsIncreasing(rows) && IsActiveOrder(rows, userId, now, ordered) && m <= |ordered|
    ensures var list := Page(rows, ordered, m);
            && (forall a :: 0 <= a < |list| ==> IsViewOfActive(rows, userId, now, list[a]))
            && (forall a, b :: 0 <= a < b < |list| ==> list[a].lastUsedAt >= list[b].lastUsedAt && list[a].id != list[b].id)
            && (forall i :: 0 <= i < |rows| && IsActiveFor(rows[i], userId, now) && View(rows[i]) !in list ==>
                  forall a :: 0 <= a < |list| ==> rows[i].lastUsedAt <= list[a].lastUsedAt)
  {
    var list := Page(rows, ordered, m);
    forall a | 0 <= a < |list| ensures IsViewOfActive(rows, userId, now, list[a]) {
      assert ordered[a] in ActiveIndices(rows, userId, now);
    }
    forall a, b | 0 <= a < b < |list| ensures list[a].id != list[b].id {
      assert ordered[a] != ordered[b];
    }
    forall i | 0 <= i < |rows| && IsActiveFor(rows[i], userId, now) && View(rows[i]) !in list
      ensures forall a :: 0 <= a < |list| ==> rows[i].lastUsedAt <= list[a].lastUsedAt
    {
      assert i in ActiveIndices(rows, userId, now);
      var c :| 0 <= c < |ordered| && ordered[c] == i;
    }
  }

  // ---------------------------------------------------------------------
  // Ordering by last use
  // ---------------------------------------------------------------------

  /** `ordered` lists the positions of the user's active sessions, each once,
      most recently used first: one possible answer of
      `->orderBy('last_used_at', 'DESC')->findAll()`. */
  predicate IsActiveOrder(rows: seq<Session>, userId: int, now: int, ordered: seq<int>) {
    && (forall a :: 0 <= a < |ordered| ==> 0 <= ordered[a] < |rows|)
    && (forall a, b :: 0 <= a < b < |ordered| ==> ordered[a] != ordered[b])
    && (forall a :: 0 <= a < |ordered| ==> ordered[a] in ActiveIndices(rows, userId, now))
    && (forall k :: k in ActiveIndices(rows, userId, now) ==> k in ordered)
    && (forall a, b :: 0 <= a < b < |ordered| ==> rows[ordered[a]].lastUsedAt >= rows[ordered[b]].lastUsedAt)
  }

  /** Distinct entries. */
  predicate Distinct(ks: seq<int>) {
    forall a, b :: 0 <= a < b < |ks| ==> ks[a] != ks[b]
  }

  /** The positions below `n` of the user's active sessions, in table order. */
  function ActivePositions(rows: seq<Session>, userId: int, now: int, n: nat): (ks: seq<int>)
    requires n <= |rows|
    ensures forall a :: 0 <= a < |ks| ==> 0 <= ks[a] < n && IsActiveFor(rows[ks[a]], userId, now)
    ensures forall k :: 0 <= k < n && IsActiveFor(rows[k], userId, now) ==> k in ks
    ensures Distinct(ks)
  {
    if n == 0 then []
    else
      var ks := ActivePositions(rows, userId, now, n - 1);
      if IsActiveFor(rows[n - 1], userId, now) then ks + [n - 1] else ks
  }

  /** Some entry of `ks` is a session used no earlier than any other in `ks`. */
  lemma {:induction false} MostRecent(rows: seq<Session>, ks: seq<int>) returns (p: nat)
    requires |ks| > 0 && forall a :: 0 <= a < |ks| ==> 0 <= ks[a] < |rows|
    ensures p < |ks| && forall a :: 0 <= a < |ks| ==> rows[ks[a]].lastUsedAt <= rows[ks[p]].lastUsedAt
  {
    if |ks| == 1 {
      return 0;
    }
    var q := MostRecent(rows, ks[1..]);
    p := if rows[ks[0]].lastUsedAt >= rows[ks[q + 1]].lastUsedAt then 0 else q + 1;
    forall a | 0 < a < |ks| ensures rows[ks[a]].lastUsedAt <= rows[ks[p]].lastUsedAt {
      assert ks[a] == ks[1..][a - 1];
    }
  }

  /** Any list of distinct positions can be rearranged most recently used first. */
  lemma {:induction false} OrderByLastUsed(rows: seq<Session>, ks: seq<int>) returns (o: seq<int>)
    requires Distinct(ks) && forall a :: 0 <= a < |ks| ==> 0 <= ks[a] < |rows|
    ensures Distinct(o)
    ensures forall a :: 0 <= a < |o| ==> o[a] in ks
    ensures forall a :: 0 <= a < |ks| ==> ks[a] in o
    ensures forall a, b :: 0 <= a < b < |o| ==> rows[o[a]].lastUsedAt >= rows[o[b]].lastUsedAt
    decreases |ks|
  {
    if ks == [] {
      return [];
    }
    var p := MostRecent(rows, ks);
    var rest := RemoveAt(ks, p);
    var tail := OrderByLastUsed(rows, rest);
    o := [ks[p]] + tail;
    forall a, b | 0 <= a < b < |o| ensures o[a] != o[b] && rows[o[a]].lastUsedAt >= rows[o[b]].lastUsedAt {
      assert o[b] == tail[b - 1];
      if a > 0 { assert o[a] == tail[a - 1]; }
    }
  }

  /** `ks` without its entry at position `p`. */
  lemma RemoveAt(ks: seq<int>, p: nat) returns (rest: seq<int>)
    requires Distinct(ks) && p < |ks|
    ensures |rest| == |ks| - 1 && Distinct(rest)
    ensures forall a :: 0 <= a < |rest| ==> rest[a] in ks && rest[a] != ks[p]
    ensures forall a :: 0 <= a < |ks| && a != p ==> ks[a] in rest
  {
    rest := ks[..p] + ks[p + 1..];
    assert forall a :: 0 <= a < |rest| ==> rest[a] == if a < p then ks[a] else ks[a + 1];
    forall a | 0 <= a < |ks| && a != p ensures ks[a] in rest {
      if a < p { assert rest[a] == ks[a]; } else { assert rest[a - 1] == ks[a]; }
    }
  }

  /** Some order of the user's active sessions exists. */
  lemma ActiveOrderExists(rows: seq<Session>, userId: int, now: int) returns (o: seq<int>)
    ensures IsActiveOrder(rows, userId, now, o)
  {
    var ks := ActivePositions(rows, userId, now, |rows|);
    o := OrderByLastUsed(rows, ks);
  }

  /** What `enforceSessionLimit` leaves of `before`: nothing changes below
      `max` live sessions; otherwise the live count is where the slice starts,
      only the user's live rows are revoked (at `now`), and every live row
      left is at least as recently used as every revoked one. */
  ghost predicate CapOutcome(before: seq<Session>, after: seq<Session>, userId: int, max: int, now: int) {
    && |after| == |before|
    && (ActiveCount(before, userId, now) < max ==> after == before)
    && (ActiveCount(before, userId, now) >= max ==>
          ActiveCount(after, userId, now) == SliceStart(ActiveCount(before, userId, now), max - 1))
    && (forall i :: 0 <= i < |after| ==>
          after[i] == before[i] || (IsActiveFor(before[i], userId, now) && after[i] == before[i].(revokedAt := Some(now))))
    && (forall i, j :: 0 <= i < |after| && 0 <= j < |after| && IsActiveFor(after[i], userId, now) && after[j] != before[j] ==>
          after[j].lastUsedAt <= after[i].lastUsedAt)
  }

  /** Where `array_slice($list, $offset)` starts in a list of `n` entries;
      a negative offset counts back from the end. */
  function SliceStart(n: nat, offset: int): (k: nat)
    ensures k <= n
  {
    if offset >= 0 then (if offset <= n then offset else n)
    else if n + offset >= 0 then n + offset else 0
  }

  /** The ids of the rows at the given positions. */
  function IdsAt(rows: seq<Session>, ks: seq<int>): set<nat> {
    set k | k in ks && 0 <= k < |rows| :: rows[k].id
  }

  /** Ids are unique, so the ids at some positions pick out exactly those positions. */
  lemma IdsAtExact(rows: seq<Session>, ks: seq<int>)
    requires IdsIncreasing(rows)
    ensures forall i :: 0 <= i < |rows| ==> (rows[i].id in IdsAt(rows, ks) <==> i in ks)
  {
    forall i | 0 <= i < |rows| ensures rows[i].id in IdsAt(rows, ks) <==> i in ks {
      if rows[i].id in IdsAt(rows, ks) {
        var k :| k in ks && 0 <= k < |rows| && rows[k].id == rows[i].id;
        assert k == i;
      }
    }
  }

  /** What `enforceSessionLimit` does once the user's active sessions, most
      recent first, are `ordered`: revoking the ids from position `keep` on
      leaves `keep` active, touches only the user's active rows, and spares
      the most recent. */
  lemma EnforcePlan(rows: seq<Session>, nextId: nat, userId: int, now: int, ordered: seq<int>, keep: nat)
    requires WellFormedTable(rows, nextId) && IsActiveOrder(rows, userId, now, ordered) && keep <= |ordered|
    ensures var r := SetRevoked(rows, IdIn(IdsAt(rows, ordered[keep..])), now);
            && ActiveCount(r, userId, now) == keep
            && (forall i :: 0 <= i < |rows| ==>
                  r[i] == rows[i] || (IsActiveFor(rows[i], userId, now) && r[i] == rows[i].(revokedAt := Some(now))))
            && (forall i, j :: 0 <= i < |rows| && 0 <= j < |rows| && IsActiveFor(r[i], userId, now) && r[j] != rows[j] ==>
                  r[j].lastUsedAt <= r[i].lastUsedAt)
  {
    var doomed := ordered[keep..];
    IdsAtExact(rows, doomed);
    var r := SetRevoked(rows, IdIn(IdsAt(rows, doomed)), now);
    assert forall i :: 0 <= i < |rows| ==> (r[i] != rows[i] <==> i in doomed);
    RevokeSuffixCount(rows, userId, now, ordered, keep, r);
    RevokeSuffixRecency(rows, userId, now, ordered, keep, r);
  }

  lemma RevokeSuffixCount(rows: seq<Session>, userId: int, now: int, ordered: seq<int>, keep: nat, r: seq<Session>)
    requires IsActiveOrder(rows, userId, now, ordered) && keep <= |ordered|
    requires |r| == |rows|
    requires forall i :: 0 <= i < |rows| ==>
               r[i] == if i in ordered[keep..] then rows[i].(revokedAt := Some(now)) else rows[i]
    ensures ActiveCount(r, userId, now) == keep
  {
    var doomed := ordered[keep..];
    var active := ActiveIndices(rows, userId, now);
    var revoked := set k | k in doomed;
    DistinctCard(doomed);
    ActiveOrderLength(rows, userId, now, ordered);
    ActiveAfterRevoking(rows, userId, now, doomed, r);
    assert revoked <= active;
    assert active == (active - revoked) + revoked;
  }

  /** Revoking the rows at some active positions takes exactly those off the active set. */
  lemma ActiveAfterRevoking(rows: seq<Session>, userId: int, now: int, doomed: seq<int>, r: seq<Session>)
    requires |r| == |rows|
    requires forall i :: 0 <= i < |rows| ==>
               r[i] == if i in doomed then rows[i].(revokedAt := Some(now)) else rows[i]
    ensures ActiveIndices(r, userId, now) == ActiveIndices(rows, userId, now) - (set k | k in doomed)
  {
  }

  lemma RevokeSuffixRecency(rows: seq<Session>, userId: int, now: int, ordered: seq<int>, keep: nat, r: seq<Session>)
    requires IsActiveOrder(rows, userId, now, ordered) && keep <= |ordered|
    requires |r| == |rows|
    requires forall i :: 0 <= i < |rows| ==>
               r[i] == if i in ordered[keep..] then rows[i].(revokedAt := Some(now)) else rows[i]
    ensures forall i, j :: 0 <= i < |rows| && 0 <= j < |rows| && IsActiveFor(r[i], userId, now) && r[j] != rows[j] ==>
              r[j].lastUsedAt <= r[i].lastUsedAt
  {
    var doomed := ordered[keep..];
    forall a | keep <= a < |ordered| ensures ordered[a] in doomed {
      assert doomed[a - (keep)] == ordered[a];
    }
    forall i, j | 0 <= i < |rows| && 0 <= j < |rows| && IsActiveFor(r[i], userId, now) && r[j] != rows[j]
      ensures r[j].lastUsedAt <= r[i].lastUsedAt
    {
      assert i in ActiveIndices(rows, userId, now);
      var a :| 0 <= a < |ordered| && ordered[a] == i;
      var b :| 0 <= b < |doomed| && doomed[b] == j;
      assert ordered[keep + b] == j;
    }
  }

  /** A list without repetitions has as many distinct elements as entries. */
  lemma {:induction false} DistinctCard(o: seq<int>)
    requires forall a, b :: 0 <= a < b < |o| ==> o[a] != o[b]
    ensures |set k | k in o| == |o|
  {
    if o != [] {
      DistinctCard(o[1..]);
      assert (set k | k in o) == (set k | k in o[1..]) + {o[0]};
      assert o[0] !in (set k | k in o[1..]);
    }
  }

  lemma ActiveOrderLength(rows: seq<Session>, userId: int, now: int, ordered: seq<int>)
    requires IsActiveOrder(rows, userId, now, ordered)
    ensures |ordered| == ActiveCount(rows, userId, now)
  {
    DistinctCard(ordered);
    assert (set k | k in ordered) == ActiveIndices(rows, userId, now);
  }

  // ---------------------------------------------------------------------
  // Properties of the store
  // ---------------------------------------------------------------------

  /** An update that leaves ids, users and tokens alone keeps the table well formed. */
  lemma KeysKeptPreserveTable(rows: seq<Session>, r: seq<Session>, nextId: nat)
    requires WellFormedTable(rows, nextId)
    requires |r| == |rows|
    requires forall i :: 0 <= i < |rows| ==> r[i].id == rows[i].id && SameKey(r[i], rows[i])
    ensures WellFormedTable(r, nextId)
  {
  }

  /** A delete keeps the table well formed. */
  lemma DeleteKeepsTable(rows: seq<Session>, f: DeleteSelector, nextId: nat)
    requires WellFormedTable(rows, nextId)
    ensures WellFormedTable(DeleteWhere(rows, f), nextId)
  {
    var r := DeleteWhere(rows, f);
    DeleteKeepsOrder(rows, f);
    forall i | 0 <= i < |r| ensures r[i].id < nextId {
      assert r[i] in rows;
    }
    forall i, j | 0 <= i < |r| && 0 <= j < |r| && i != j ensures !SameKey(r[i], r[j]) {
      assert r[i] in rows && r[j] in rows;
      var a :| 0 <= a < |rows| && rows[a] == r[i];
      var b :| 0 <= b < |rows| && rows[b] == r[j];
      assert r[i].id != r[j].id;
    }
  }

  /** Positions of the user's rows. */
  function UserIndices(rows: seq<Session>, userId: int): set<int> {
    set i | 0 <= i < |rows| && rows[i].userId == userId
  }

  /** Positions of the user's revoked rows. */
  function RevokedIndices(rows: seq<Session>, userId: int): set<int> {
    set i | 0 <= i < |rows| && rows[i].userId == userId && rows[i].revokedAt.Some?
  }

  /** Positions of the user's rows that expired without being revoked. */
  function ExpiredIndices(rows: seq<Session>, userId: int, now: int): set<int> {
    set i | 0 <= i < |rows| && rows[i].userId == userId && rows[i].expiresAt <= now && rows[i].revokedAt.None?
  }

  /** Active, revoked and expired-but-unrevoked partition a user's rows. */
  lemma StatsPartition(rows: seq<Session>, userId: int, now: int)
    ensures ActiveCount(rows, userId, now) + |RevokedIndices(rows, userId)| + |ExpiredIndices(rows, userId, now)|
            == |UserIndices(rows, userId)|
  {
    var A := ActiveIndices(rows, userId, now);
    var R := RevokedIndices(rows, userId);
    var E := ExpiredIndices(rows, userId, now);
    var U := UserIndices(rows, userId);
    assert A * R == {} by {
      forall i | i in A ensures i !in R {}
    }
    assert (A + R) * E == {} by {
      forall i | i in A + R ensures i !in E {}
    }
    assert U == A + R + E by {
      forall i | i in U ensures i in A + R + E {}
    }
    assert |A + R| == |A| + |R|;
  }

  /** Revocation is idempotent: revoking again, at any later time, changes
      nothing, because only rows still unrevoked are stamped. */
  lemma RevokeIdempotent(rows: seq<Session>, f: RevokeSelector, t1: int, t2: int)
    requires f.UnrevokedWithToken? || f.UnrevokedOfUser?
    ensures SetRevoked(SetRevoked(rows, f, t1), f, t2) == SetRevoked(rows, f, t1)
  {
    var once := SetRevoked(rows, f, t1);
    assert forall i :: 0 <= i < |once| ==> !Selects(f, once[i]);
  }

  /** Revocation is monotonic: a revoked row keeps its timestamp, and no
      row becomes unrevoked. */
  lemma RevokeMonotonic(rows: seq<Session>, f: RevokeSelector, now: int)
    requires f.UnrevokedWithToken? || f.UnrevokedOfUser?
    ensures forall i :: 0 <= i < |rows| && rows[i].revokedAt.Some? ==> SetRevoked(rows, f, now)[i] == rows[i]
    ensures forall i :: 0 <= i < |rows| && SetRevoked(rows, f, now)[i].revokedAt.None? ==> rows[i].revokedAt.None?
  {
  }

  /** Once a token is revoked it is never found active again, at any time. */
  lemma RevocationIsFinal(rows: seq<Session>, jti: string, now: int, later: int)
    ensures ActiveLookup(SetRevoked(rows, UnrevokedWithToken(jti), now), jti, later).None?
  {
    var r := SetRevoked(rows, UnrevokedWithToken(jti), now);
    assert forall i :: 0 <= i < |r| ==> !TokenMatches(r[i], jti, later);
  }

  /** After `revokeAllByUser` the user has no active session left. */
  lemma RevokeAllLeavesNoneActive(rows: seq<Session>, userId: int, now: int, later: int)
    ensures ActiveCount(SetRevoked(rows, UnrevokedOfUser(userId), now), userId, later) == 0
  {
    assert ActiveIndices(SetRevoked(rows, UnrevokedOfUser(userId), now), userId, later) == {};
  }

  /** `cleanupExpired` only removes rows that were already inactive, so the
      user's active sessions are untouched; other users' rows all survive. */
  lemma CleanupKeepsActive(rows: seq<Session>, userId: int, now: int)
    ensures forall s :: s in rows && IsActive(s, now) ==> s in DeleteWhere(rows, ExpiredOfUser(userId, now))
    ensures forall s :: s in rows && s.userId != userId ==> s in DeleteWhere(rows, ExpiredOfUser(userId, now))
    ensures forall s :: s in rows && s.expiresAt == now ==> s in DeleteWhere(rows, ExpiredOfUser(userId, now))
  {
  }

  /** The user's active sessions counted row by row, from the end. */
  function CountActive(rows: seq<Session>, userId: int, now: int): nat {
    if rows == [] then 0
    else CountActive(rows[..|rows| - 1], userId, now) + (if IsActiveFor(rows[|rows| - 1], userId, now) then 1 else 0)
  }

  lemma {:induction false} ActiveCountIsCount(rows: seq<Session>, userId: int, now: int)
    ensures ActiveCount(rows, userId, now) == CountActive(rows, userId, now)
  {
    if rows != [] {
      var init := rows[..|rows| - 1];
      assert rows == init + [rows[|rows| - 1]];
      ActiveCountAppend(init, rows[|rows| - 1], userId, now);
      ActiveCountIsCount(init, userId, now);
    }
  }

  lemma {:induction false} CountActivePrepend(s: Session, rows: seq<Session>, userId: int, now: int)
    ensures CountActive([s] + rows, userId, now) == (if IsActiveFor(s, userId, now) then 1 else 0) + CountActive(rows, userId, now)
  {
    var all := [s] + rows;
    if rows != [] {
      assert all[..|all| - 1] == [s] + rows[..|rows| - 1];
      assert all[|all| - 1] == rows[|rows| - 1];
      CountActivePrepend(s, rows[..|rows| - 1], userId, now);
    } else {
      assert all[..|all| - 1] == [];
    }
  }

  /** A delete that removes no active row of the user leaves the count as it was. */
  lemma {:induction false} CountActiveDelete(rows: seq<Session>, f: DeleteSelector, userId: int, now: int)
    requires forall s :: s in rows && Deletes(f, s) ==> !IsActiveFor(s, userId, now)
    ensures CountActive(DeleteWhere(rows, f), userId, now) == CountActive(rows, userId, now)
  {
    if rows != [] {
      var rest := DeleteWhere(rows[1..], f);
      assert rows == [rows[0]] + rows[1..];
      CountActivePrepend(rows[0], rows[1..], userId, now);
      CountActiveDelete(rows[1..], f, userId, now);
      if !Deletes(f, rows[0]) {
        CountActivePrepend(rows[0], rest, userId, now);
      }
    }
  }

  /** `cleanupExpired` deletes only expired rows, so no user's number of
      active sessions changes. */
  lemma CleanupKeepsActiveCount(rows: seq<Session>, userId: int, other: int, now: int)
    ensures ActiveCount(DeleteWhere(rows, ExpiredOfUser(userId, now)), other, now) == ActiveCount(rows, other, now)
  {
    var cleaned := DeleteWhere(rows, ExpiredOfUser(userId, now));
    CountActiveDelete(rows, ExpiredOfUser(userId, now), other, now);
    ActiveCountIsCount(rows, other, now);
    ActiveCountIsCount(cleaned, other, now);
  }

  /** Appending a row adds one to its user's active count exactly when it is active. */
  lemma ActiveCountAppend(rows: seq<Session>, s: Session, userId: int, now: int)
    ensures ActiveCount(rows + [s], userId, now) ==
            ActiveCount(rows, userId, now) + (if IsActiveFor(s, userId, now) then 1 else 0)
  {
    var before := ActiveIndices(rows, userId, now);
    var after := ActiveIndices(rows + [s], userId, now);
    if IsActiveFor(s, userId, now) {
      assert after == before + {|rows|};
    } else {
      assert after == before;
    }
  }

  /** Revoking a token takes exactly one session off the count of a user who
      had that token active (the key `(user_id, token)` is unique), and none
      otherwise. */
  lemma ActiveCountAfterRevokeToken(rows: seq<Session>, nextId: nat, jti: string, userId: int, now: int)
    requires WellFormedTable(rows, nextId)
    ensures var hit := exists i :: 0 <= i < |rows| && IsActiveFor(rows[i], userId, now) && rows[i].token == jti;
            ActiveCount(SetRevoked(rows, UnrevokedWithToken(jti), now), userId, now) ==
            ActiveCount(rows, userId, now) - (if hit then 1 else 0)
  {
    var before := ActiveIndices(rows, userId, now);
    var after := ActiveIndices(SetRevoked(rows, UnrevokedWithToken(jti), now), userId, now);
    if i :| 0 <= i < |rows| && IsActiveFor(rows[i], userId, now) && rows[i].token == jti {
      forall j | j in before && j != i ensures j in after {
        assert !SameKey(rows[i], rows[j]);
      }
      assert after == before - {i};
    } else {
      assert after == before;
    }
  }
}
