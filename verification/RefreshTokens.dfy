/**
 Refresh-token rotation over a token table in creation order. Raw tokens appear only through their hash;
 ids and raw tokens of new rows are fresh, as random generation provides.
 */
module RefreshTokens {
  import opened Options

  datatype Token = Token(id: int, account: int, hash: int, expiresAt: int, revokedAt: Option<int>, replacedBy: Option<int>)

  predicate IsActive(token: Token, now: int) {
    token.revokedAt.None? && token.expiresAt > now
  }

  /** The row accepted for a hash. */
  function Find(rows: seq<Token>, hash: int, now: int): (found: Option<nat>)
    ensures found.Some? ==> found.value < |rows| && rows[found.value].hash == hash && IsActive(rows[found.value], now)
  {
    if rows == [] then None
    else
      var n := |rows| - 1;
      var front := Find(rows[..n], hash, now);
      if front.Some? then front
      else if rows[n].hash == hash && IsActive(rows[n], now) then Some(n)
      else None
  }

  function Created(rows: seq<Token>, id: int, account: int, hash: int, expiresAt: int): seq<Token> {
    rows + [Token(id, account, hash, expiresAt, None, None)]
  }

  function RevokedRow(rows: seq<Token>, i: nat, now: int, replacedBy: Option<int>): seq<Token>
    requires i < |rows|
  {
    rows[i := rows[i].(revokedAt := Some(now), replacedBy := replacedBy)]
  }

  function RevokedForAccount(token: Token, account: int, now: int): Token {
    if token.account == account && token.revokedAt.None? then token.(revokedAt := Some(now)) else token
  }

  function AllRevoked(rows: seq<Token>, account: int, now: int): seq<Token> {
    seq(|rows|, i requires 0 <= i < |rows| => RevokedForAccount(rows[i], account, now))
  }

  datatype Op =
    | Issue(account: int, now: int, id: int, newHash: int)
    | Rotate(hash: int, now: int, id: int, newHash: int)
    | Revoke(hash: int, now: int)
    | RevokeAll(account: int, now: int)

  function Apply(rows: seq<Token>, op: Op, lifetime: int): seq<Token> {
    match op
    case Issue(account, now, id, newHash) => Created(rows, id, account, newHash, now + lifetime)
    case Rotate(hash, now, id, newHash) =>
      var current := Find(rows, hash, now);
      if current.None? then rows
      else RevokedRow(Created(rows, id, rows[current.value].account, newHash, now + lifetime), current.value, now, Some(id))
    case Revoke(hash, now) =>
      var current := Find(rows, hash, now);
      if current.None? then rows else RevokedRow(rows, current.value, now, None)
    case RevokeAll(account, now) => AllRevoked(rows, account, now)
  }

  class TokenService {
    var rows: seq<Token>
    const lifetime: int
    const hashOf: int -> int

    constructor (lifetime: int, hashOf: int -> int)
      ensures rows == [] && this.lifetime == lifetime && this.hashOf == hashOf
    {
      this.lifetime, this.hashOf := lifetime, hashOf;
      rows := [];
    }

    method GetActiveByRawToken(raw: int, now: int) returns (found: Option<nat>)
      ensures found == Find(rows, hashOf(raw), now)
    {
      var hash := hashOf(raw);
      for i := 0 to |rows|
        invariant Find(rows[..i], hash, now).None?
      {
        assert rows[..i + 1][..i] == rows[..i];
        if rows[i].hash == hash && IsActive(rows[i], now) {
          FindInPrefix(rows, i + 1, hash, now);
          return Some(i);
        }
      }
      assert rows[..|rows|] == rows;
      return None;
    }

    method IssuePair(account: int, now: int, id: int, raw: int)
      modifies this
      ensures rows == Apply(old(rows), Issue(account, now, id, hashOf(raw)), lifetime)
    {
      rows := rows + [Token(id, account, hashOf(raw), now + lifetime, None, None)];
    }

    /** The account of the rotated token, or `None` for an invalid token. */
    method RotateToken(raw: int, now: int, id: int, newRaw: int) returns (account: Option<int>)
      modifies this
      ensures rows == Apply(old(rows), Rotate(hashOf(raw), now, id, hashOf(newRaw)), lifetime)
      ensures var found := Find(old(rows), hashOf(raw), now);
              found.Some? == account.Some? && (found.Some? ==> account.value == old(rows)[found.value].account)
    {
      var current := GetActiveByRawToken(raw, now);
      FindIsActive(rows, hashOf(raw), now);
      if current.None? {
        return None;
      }
      var i := current.value;
      account := Some(rows[i].account);
      rows := rows + [Token(id, rows[i].account, hashOf(newRaw), now + lifetime, None, None)];
      rows := rows[i := rows[i].(revokedAt := Some(now), replacedBy := Some(id))];
    }

    method RevokeToken(raw: int, now: int)
      modifies this
      ensures rows == Apply(old(rows), Revoke(hashOf(raw), now), lifetime)
    {
      var current := GetActiveByRawToken(raw, now);
      FindIsActive(rows, hashOf(raw), now);
      if current.Some? {
        rows := rows[current.value := rows[current.value].(revokedAt := Some(now), replacedBy := None)];
      }
    }

    method RevokeAllOf(account: int, now: int)
      modifies this
      ensures rows == Apply(old(rows), RevokeAll(account, now), lifetime)
    {
      for i := 0 to |rows|
        invariant |rows| == |old(rows)|
        invariant forall k :: 0 <= k < i ==> rows[k] == RevokedForAccount(old(rows)[k], account, now)
        invariant forall k :: i <= k < |rows| ==> rows[k] == old(rows)[k]
      {
        if rows[i].account == account && rows[i].revokedAt.None? {
          rows := rows[i := rows[i].(revokedAt := Some(now))];
        }
      }
    }
  }

  lemma {:induction false} FindInPrefix(rows: seq<Token>, k: nat, hash: int, now: int)
    requires k <= |rows| && Find(rows[..k], hash, now).Some?
    ensures Find(rows, hash, now) == Find(rows[..k], hash, now)
  {
    if k < |rows| {
      var n := |rows| - 1;
      assert rows[..n][..k] == rows[..k];
      FindInPrefix(rows[..n], k, hash, now);
    } else {
      assert rows[..k] == rows;
    }
  }

  /** A token is accepted exactly when some row with its hash is unrevoked and unexpired. */
  lemma {:induction false} FindIsActive(rows: seq<Token>, hash: int, now: int)
    ensures var found := Find(rows, hash, now);
            found.None? <==> forall i :: 0 <= i < |rows| ==> !(rows[i].hash == hash && IsActive(rows[i], now))
  {
    if rows != [] {
      FindIsActive(rows[..|rows| - 1], hash, now);
    }
  }

  // ---------- what every run keeps ----------

  /** New ids and hashes have not been used before. */
  ghost predicate IsFresh(rows: seq<Token>, op: Op) {
    op.Issue? || op.Rotate? ==> forall t <- rows :: t.id != op.id && t.hash != op.newHash
  }

  function RunOps(ops: seq<Op>, lifetime: int): seq<Token> {
    if ops == [] then [] else Apply(RunOps(ops[..|ops| - 1], lifetime), ops[|ops| - 1], lifetime)
  }

  ghost predicate FreshRun(ops: seq<Op>, lifetime: int) {
    forall k :: 0 <= k < |ops| ==> IsFresh(RunOps(ops[..k], lifetime), ops[k])
  }

  ghost predicate IsLink(rows: seq<Token>, i: nat, j: nat) {
    i < |rows| && j < |rows| && rows[i].replacedBy == Some(rows[j].id)
  }

  ghost predicate HasSuccessor(rows: seq<Token>, i: nat)
    requires i < |rows|
  {
    exists j :: i < j < |rows| && IsLink(rows, i, j) && rows[j].account == rows[i].account
  }

  ghost predicate Invariant(rows: seq<Token>) {
    && (forall i, j :: 0 <= i < j < |rows| ==> rows[i].id != rows[j].id && rows[i].hash != rows[j].hash)
    && (forall i :: 0 <= i < |rows| && rows[i].replacedBy.Some? ==> rows[i].revokedAt.Some? && HasSuccessor(rows, i))
    && (forall i, j :: 0 <= i < j < |rows| && rows[i].replacedBy.Some? ==> rows[i].replacedBy != rows[j].replacedBy)
  }

  lemma SuccessorsSurvive(rows: seq<Token>, after: seq<Token>, i: nat)
    requires i < |rows| <= |after| && HasSuccessor(rows, i)
    requires after[i].replacedBy == rows[i].replacedBy
    requires forall k :: 0 <= k < |rows| ==> after[k].id == rows[k].id && after[k].account == rows[k].account
    ensures HasSuccessor(after, i)
  {}

  lemma RotateKeeps(rows: seq<Token>, i: nat, id: int, newHash: int, expiresAt: int, now: int)
    requires Invariant(rows) && i < |rows| && rows[i].revokedAt.None?
    requires forall t <- rows :: t.id != id && t.hash != newHash
    ensures Invariant(RevokedRow(Created(rows, id, rows[i].account, newHash, expiresAt), i, now, Some(id)))
  {
    var after := RevokedRow(Created(rows, id, rows[i].account, newHash, expiresAt), i, now, Some(id));
    assert IsLink(after, i, |rows|);
    forall k | 0 <= k < |rows| && rows[k].replacedBy.Some? ensures HasSuccessor(after, k) && rows[k].replacedBy != Some(id) {
      SuccessorsSurvive(rows, after, k);
    }
  }

  lemma CreatedKeeps(rows: seq<Token>, id: int, account: int, newHash: int, until: int)
    requires Invariant(rows) && forall t <- rows :: t.id != id && t.hash != newHash
    ensures Invariant(Created(rows, id, account, newHash, until))
  {
    var after := Created(rows, id, account, newHash, until);
    forall k | 0 <= k < |rows| && rows[k].replacedBy.Some? ensures HasSuccessor(after, k) {
      SuccessorsSurvive(rows, after, k);
    }
  }

  lemma RevokedKeeps(rows: seq<Token>, i: nat, now: int)
    requires Invariant(rows) && i < |rows| && rows[i].revokedAt.None?
    ensures Invariant(RevokedRow(rows, i, now, None))
  {
    var after := RevokedRow(rows, i, now, None);
    forall k | 0 <= k < |rows| && after[k].replacedBy.Some? ensures HasSuccessor(after, k) {
      SuccessorsSurvive(rows, after, k);
    }
  }

  lemma AllRevokedKeeps(rows: seq<Token>, account: int, now: int)
    requires Invariant(rows)
    ensures Invariant(AllRevoked(rows, account, now))
  {
    var after := AllRevoked(rows, account, now);
    assert forall k :: 0 <= k < |rows| ==> after[k] == rows[k].(revokedAt := after[k].revokedAt);
    forall k | 0 <= k < |rows| && rows[k].replacedBy.Some? ensures HasSuccessor(after, k) {
      SuccessorsSurvive(rows, after, k);
    }
  }

  lemma RotationKeeps(rows: seq<Token>, op: Op, lifetime: int)
    requires op.Rotate? && Invariant(rows) && IsFresh(rows, op)
    ensures Invariant(Apply(rows, op, lifetime))
  {
    var found := Find(rows, op.hash, op.now);
    if found.Some? {
      RotateKeeps(rows, found.value, op.id, op.newHash, op.now + lifetime, op.now);
      assert Apply(rows, op, lifetime)
             == RevokedRow(Created(rows, op.id, rows[found.value].account, op.newHash, op.now + lifetime), found.value, op.now, Some(op.id));
    } else {
      assert Apply(rows, op, lifetime) == rows;
    }
  }

  lemma RevocationKeeps(rows: seq<Token>, op: Op, lifetime: int)
    requires op.Revoke? && Invariant(rows)
    ensures Invariant(Apply(rows, op, lifetime))
  {
    var found := Find(rows, op.hash, op.now);
    if found.Some? {
      RevokedKeeps(rows, found.value, op.now);
    }
  }

  lemma ApplyKeeps(rows: seq<Token>, op: Op, lifetime: int)
    requires Invariant(rows) && IsFresh(rows, op)
    ensures Invariant(Apply(rows, op, lifetime))
  {
    match op
    case Issue(account, now, id, newHash) =>
      CreatedKeeps(rows, id, account, newHash, now + lifetime);
    case Rotate(_, _, _, _) =>
      RotationKeeps(rows, op, lifetime);
    case Revoke(_, _) =>
      RevocationKeeps(rows, op, lifetime);
    case RevokeAll(account, now) =>
      AllRevokedKeeps(rows, account, now);
  }

  lemma {:induction false} RunKeeps(ops: seq<Op>, lifetime: int)
    requires FreshRun(ops, lifetime)
    ensures Invariant(RunOps(ops, lifetime))
  {
    if ops != [] {
      var n := |ops| - 1;
      forall k | 0 <= k < n ensures IsFresh(RunOps(ops[..n][..k], lifetime), ops[..n][k]) {
        assert ops[..n][..k] == ops[..k];
      }
      RunKeeps(ops[..n], lifetime);
      ApplyKeeps(RunOps(ops[..n], lifetime), ops[n], lifetime);
    }
  }

  /** Tokens each replaced by the next. */
  ghost predicate IsChain(rows: seq<Token>, path: seq<nat>) {
    && path != [] && path[0] < |rows|
    && forall k :: 0 < k < |path| ==> IsLink(rows, path[k - 1], path[k])
  }

  lemma LinkGoesForward(rows: seq<Token>, i: nat, j: nat)
    requires Invariant(rows) && IsLink(rows, i, j)
    ensures i < j && rows[i].account == rows[j].account && rows[i].revokedAt.Some?
  {}

  lemma ChainPrefix(rows: seq<Token>, path: seq<nat>, k: nat)
    requires IsChain(rows, path) && 0 < k <= |path|
    ensures IsChain(rows, path[..k])
  {}

  /** Along a chain rows get strictly newer, so it never returns; it stays with one account, and all but its tail are revoked. */
  ghost predicate IsOrderly(rows: seq<Token>, path: seq<nat>) {
    && path != [] && path[0] < |rows|
    && (forall k :: 0 <= k < |path| ==> path[k] < |rows| && rows[path[k]].account == rows[path[0]].account)
    && (forall k :: 0 <= k < |path| - 1 ==> path[k] < path[|path| - 1] && rows[path[k]].revokedAt.Some?)
  }

  lemma {:induction false} ChainIsOrderly(rows: seq<Token>, path: seq<nat>)
    requires Invariant(rows) && IsChain(rows, path)
    ensures IsOrderly(rows, path)
  {
    var last := |path| - 1;
    if last > 0 {
      ChainPrefix(rows, path, last);
      ChainIsOrderly(rows, path[..last]);
      assert IsLink(rows, path[last - 1], path[last]);
      LinkGoesForward(rows, path[last - 1], path[last]);
    }
  }

  /** Two chains from one token never part: one of them begins with the other. */
  lemma {:induction false} ChainsDoNotFork(rows: seq<Token>, p: seq<nat>, q: seq<nat>)
    requires Invariant(rows) && IsChain(rows, p) && IsChain(rows, q)
    requires p[0] == q[0] && |p| <= |q|
    ensures p <= q
  {
    var last := |p| - 1;
    if last > 0 {
      ChainPrefix(rows, p, last);
      ChainsDoNotFork(rows, p[..last], q);
      assert p[..last] == q[..last];
      assert p[last - 1] == q[last - 1];
      assert IsLink(rows, p[last - 1], p[last]) && IsLink(rows, q[last - 1], q[last]);
      assert rows[p[last]].id == rows[q[last]].id;
    }
  }

  /** Two chains to one token never merge: one of them ends with the other. */
  lemma {:induction false} ChainsDoNotMerge(rows: seq<Token>, p: seq<nat>, q: seq<nat>)
    requires Invariant(rows) && IsChain(rows, p) && IsChain(rows, q)
    requires p[|p| - 1] == q[|q| - 1] && |p| <= |q|
    ensures forall k :: 0 <= k < |p| ==> p[k] == q[|q| - |p| + k]
  {
    var n, m := |p| - 1, |q| - 1;
    if n > 0 {
      assert IsLink(rows, p[n - 1], p[n]) && IsLink(rows, q[m - 1], q[m]);
      assert p[n - 1] == q[m - 1];
      ChainPrefix(rows, p, n);
      ChainPrefix(rows, q, m);
      ChainsDoNotMerge(rows, p[..n], q[..m]);
      forall k | 0 <= k < n ensures p[k] == q[m - n + k] {
        assert p[..n][k] == q[..m][m - n + k];
      }
    }
  }

  /**
   In every run: chains of replaced tokens are acyclic and stay within one account, chains from one token do not
   fork, chains to one token do not merge, and from one token at most one unrevoked token descends.
   */
  lemma {:induction false} ChainsOfEveryRun(ops: seq<Op>, lifetime: int, p: seq<nat>, q: seq<nat>)
    requires FreshRun(ops, lifetime) && IsChain(RunOps(ops, lifetime), p) && IsChain(RunOps(ops, lifetime), q)
    requires |p| <= |q|
    ensures var rows, a, b := RunOps(ops, lifetime), p[|p| - 1], q[|q| - 1];
            && IsOrderly(rows, p) && IsOrderly(rows, q)
            && (p[0] == q[0] ==> p <= q)
            && (a == b ==> forall k :: 0 <= k < |p| ==> p[k] == q[|q| - |p| + k])
            && (p[0] == q[0] && rows[a].revokedAt.None? && rows[b].revokedAt.None? ==> a == b)
  {
    var rows := RunOps(ops, lifetime);
    RunKeeps(ops, lifetime);
    ChainIsOrderly(rows, p);
    ChainIsOrderly(rows, q);
    if p[0] == q[0] {
      ChainsDoNotFork(rows, p, q);
    }
    if p[|p| - 1] == q[|q| - 1] {
      ChainsDoNotMerge(rows, p, q);
    }
  }

  lemma RevokedStays(rows: seq<Token>, op: Op, lifetime: int, i: nat)
    requires i < |rows| && rows[i].revokedAt.Some?
    ensures var after := Apply(rows, op, lifetime);
            i < |after| && after[i] == rows[i]
  {}

  /** A revoked or rotated row is never touched again. */
  lemma {:induction false} RevokedForever(ops: seq<Op>, more: seq<Op>, lifetime: int, i: nat)
    requires i < |RunOps(ops, lifetime)| && RunOps(ops, lifetime)[i].revokedAt.Some?
    ensures i < |RunOps(ops + more, lifetime)| && RunOps(ops + more, lifetime)[i] == RunOps(ops, lifetime)[i]
  {
    if more == [] {
      assert ops + more == ops;
    } else {
      var n := |more| - 1;
      assert (ops + more)[..|ops| + n] == ops + more[..n];
      RevokedForever(ops, more[..n], lifetime, i);
      RevokedStays(RunOps(ops + more[..n], lifetime), more[n], lifetime, i);
    }
  }

  lemma RevokedIsRejected(rows: seq<Token>, i: nat, now: int)
    requires Invariant(rows) && i < |rows| && rows[i].revokedAt.Some?
    ensures Find(rows, rows[i].hash, now).None?
  {}

  /** A token once rotated or revoked is never accepted again, in any continuation and at any time. */
  lemma NeverAcceptedAgain(ops: seq<Op>, more: seq<Op>, lifetime: int, i: nat, now: int)
    requires FreshRun(ops + more, lifetime)
    requires i < |RunOps(ops, lifetime)| && RunOps(ops, lifetime)[i].revokedAt.Some?
    ensures Find(RunOps(ops + more, lifetime), RunOps(ops, lifetime)[i].hash, now).None?
  {
    RunKeeps(ops + more, lifetime);
    RevokedForever(ops, more, lifetime, i);
    RevokedIsRejected(RunOps(ops + more, lifetime), i, now);
  }

  function Unrevoked(rows: seq<Token>, account: int): nat {
    if rows == [] then 0
    else Unrevoked(rows[..|rows| - 1], account)
         + if rows[|rows| - 1].account == account && rows[|rows| - 1].revokedAt.None? then 1 else 0
  }

  lemma {:induction false} RevokeOneCounts(rows: seq<Token>, i: nat, now: int, replacedBy: Option<int>, account: int)
    requires i < |rows| && rows[i].revokedAt.None?
    ensures Unrevoked(rows, account)
            == Unrevoked(RevokedRow(rows, i, now, replacedBy), account) + if rows[i].account == account then 1 else 0
  {
    var n := |rows| - 1;
    var after := RevokedRow(rows, i, now, replacedBy);
    if i < n {
      RevokeOneCounts(rows[..n], i, now, replacedBy, account);
      assert after[..n] == RevokedRow(rows[..n], i, now, replacedBy);
    } else {
      assert after[..n] == rows[..n];
    }
  }

  lemma {:induction false} RevokeAllCounts(rows: seq<Token>, account: int, now: int, other: int)
    ensures Unrevoked(AllRevoked(rows, account, now), other) == if other == account then 0 else Unrevoked(rows, other)
  {
    if rows != [] {
      var n := |rows| - 1;
      assert AllRevoked(rows, account, now)[..n] == AllRevoked(rows[..n], account, now);
      RevokeAllCounts(rows[..n], account, now, other);
    }
  }

  /** Issuing adds one unrevoked token to the account, rotating keeps their number, revoking everything leaves none. */
  lemma TokensConserved(rows: seq<Token>, op: Op, lifetime: int, account: int)
    ensures var before, after := Unrevoked(rows, account), Unrevoked(Apply(rows, op, lifetime), account);
            match op
            case Issue(owner, _, _, _) => after == before + if owner == account then 1 else 0
            case Rotate(_, _, _, _) => after == before
            case Revoke(hash, now) =>
              var found := Find(rows, hash, now);
              before == after + if found.Some? && rows[found.value].account == account then 1 else 0
            case RevokeAll(owner, _) => after == if owner == account then 0 else before
  {
    match op
    case Issue(owner, now, id, newHash) =>
      assert Created(rows, id, owner, newHash, now + lifetime)[..|rows|] == rows;
    case Rotate(hash, now, id, newHash) =>
      FindIsActive(rows, hash, now);
      var found := Find(rows, hash, now);
      if found.Some? {
        var grown := Created(rows, id, rows[found.value].account, newHash, now + lifetime);
        assert grown[..|rows|] == rows;
        RevokeOneCounts(grown, found.value, now, Some(id), account);
      }
    case Revoke(hash, now) =>
      FindIsActive(rows, hash, now);
      var found := Find(rows, hash, now);
      if found.Some? {
        RevokeOneCounts(rows, found.value, now, None, account);
      }
    case RevokeAll(owner, now) =>
      RevokeAllCounts(rows, owner, now, account);
  }

  // ---------- which tokens are accepted, told from the operations alone ----------

  /** A token handed out: to which account, and until when. */
  datatype Grant = Grant(account: int, until: int)

  /** The token of that hash that is handed out and not taken back, looking at operations and times but at no row. */
  ghost function Held(ops: seq<Op>, lifetime: int, hash: int): Option<Grant> {
    if ops == [] then None
    else
      var front, held := ops[..|ops| - 1], Held(ops[..|ops| - 1], lifetime, hash);
      match ops[|ops| - 1]
      case Issue(account, t, _, newHash) => if newHash == hash then Some(Grant(account, t + lifetime)) else held
      case Rotate(used, t, _, newHash) =>
        var current := Held(front, lifetime, used);
        if current.None? || t >= current.value.until then held
        else if newHash == hash then Some(Grant(current.value.account, t + lifetime))
        else if used == hash then None
        else held
      case Revoke(used, t) => if used == hash && held.Some? && t < held.value.until then None else held
      case RevokeAll(account, _) => if held.Some? && held.value.account == account then None else held
  }

  /** The rows say of this hash what the operations say. */
  ghost predicate Shows(rows: seq<Token>, hash: int, held: Option<Grant>) {
    if held.None? then forall t <- rows :: t.hash == hash ==> t.revokedAt.Some?
    else exists i :: 0 <= i < |rows| && IsHeldRow(rows[i], hash, held.value)
  }

  ghost predicate IsHeldRow(t: Token, hash: int, grant: Grant) {
    t.hash == hash && t.revokedAt.None? && t.account == grant.account && t.expiresAt == grant.until
  }

  /** Rows of distinct hashes: the one found, and whether it is, follow from what they show. */
  lemma ShownIsFound(rows: seq<Token>, hash: int, held: Option<Grant>, now: int)
    requires Invariant(rows) && Shows(rows, hash, held)
    ensures var found := Find(rows, hash, now);
            && (found.Some? <==> held.Some? && now < held.value.until)
            && (found.Some? ==> IsHeldRow(rows[found.value], hash, held.value))
  {
    FindIsActive(rows, hash, now);
  }

  lemma IssueShows(rows: seq<Token>, account: int, id: int, newHash: int, until: int, hash: int, held: Option<Grant>)
    requires Shows(rows, hash, held) && forall t <- rows :: t.hash != newHash
    ensures Shows(Created(rows, id, account, newHash, until), hash, if newHash == hash then Some(Grant(account, until)) else held)
  {
    var after := Created(rows, id, account, newHash, until);
    if newHash == hash {
      assert IsHeldRow(after[|rows|], hash, Grant(account, until));
    } else if held.Some? {
      var i :| 0 <= i < |rows| && IsHeldRow(rows[i], hash, held.value);
      assert after[i] == rows[i];
    }
  }

  lemma RevokeShows(rows: seq<Token>, i: nat, now: int, replacedBy: Option<int>, hash: int, held: Option<Grant>)
    requires Invariant(rows) && Shows(rows, hash, held) && i < |rows| && rows[i].revokedAt.None?
    ensures Shows(RevokedRow(rows, i, now, replacedBy), hash, if rows[i].hash == hash then None else held)
  {
    var after := RevokedRow(rows, i, now, replacedBy);
    if rows[i].hash != hash && held.Some? {
      var k :| 0 <= k < |rows| && IsHeldRow(rows[k], hash, held.value);
      assert after[k] == rows[k];
    }
  }

  lemma RevokeAllShows(rows: seq<Token>, account: int, now: int, hash: int, held: Option<Grant>)
    requires Invariant(rows) && Shows(rows, hash, held)
    ensures Shows(AllRevoked(rows, account, now), hash, if held.Some? && held.value.account == account then None else held)
  {
    var after := AllRevoked(rows, account, now);
    if held.Some? {
      var i :| 0 <= i < |rows| && IsHeldRow(rows[i], hash, held.value);
      assert after[i] == RevokedForAccount(rows[i], account, now);
    }
  }

  lemma {:induction false} RunShows(ops: seq<Op>, lifetime: int, hash: int)
    requires FreshRun(ops, lifetime)
    ensures Shows(RunOps(ops, lifetime), hash, Held(ops, lifetime, hash))
  {
    if ops != [] {
      var n := |ops| - 1;
      var front, rows := ops[..n], RunOps(ops[..n], lifetime);
      FrontIsFresh(ops, lifetime);
      RunKeeps(front, lifetime);
      RunShows(front, lifetime, hash);
      match ops[n]
      case Issue(account, t, id, newHash) =>
        IssueShows(rows, account, id, newHash, t + lifetime, hash, Held(front, lifetime, hash));
      case Rotate(used, t, id, newHash) =>
        RunShows(front, lifetime, used);
        RotateShows(rows, ops[n], lifetime, hash, Held(front, lifetime, hash), Held(front, lifetime, used));
      case Revoke(used, t) =>
        RunShows(front, lifetime, used);
        ShownIsFound(rows, used, Held(front, lifetime, used), t);
        var found := Find(rows, used, t);
        if found.Some? {
          RevokeShows(rows, found.value, t, None, hash, Held(front, lifetime, hash));
        }
      case RevokeAll(account, t) =>
        RevokeAllShows(rows, account, t, hash, Held(front, lifetime, hash));
    }
  }

  lemma FrontIsFresh(ops: seq<Op>, lifetime: int)
    requires FreshRun(ops, lifetime) && ops != []
    ensures FreshRun(ops[..|ops| - 1], lifetime) && IsFresh(RunOps(ops[..|ops| - 1], lifetime), ops[|ops| - 1])
  {
    var front := ops[..|ops| - 1];
    forall k | 0 <= k < |front| ensures IsFresh(RunOps(front[..k], lifetime), front[k]) {
      assert front[..k] == ops[..k];
    }
  }

  /** The row `i` is exchanged for a new row of its account. */
  lemma ExchangeShows(rows: seq<Token>, i: nat, id: int, newHash: int, until: int, now: int, hash: int, held: Option<Grant>)
    requires Invariant(rows) && Shows(rows, hash, held) && i < |rows| && rows[i].revokedAt.None?
    requires forall t <- rows :: t.id != id && t.hash != newHash
    ensures Shows(RevokedRow(Created(rows, id, rows[i].account, newHash, until), i, now, Some(id)), hash,
                  if newHash == hash then Some(Grant(rows[i].account, until)) else if rows[i].hash == hash then None else held)
  {
    var grown := Created(rows, id, rows[i].account, newHash, until);
    var shown := if newHash == hash then Some(Grant(rows[i].account, until)) else held;
    IssueShows(rows, rows[i].account, id, newHash, until, hash, held);
    CreatedKeeps(rows, id, rows[i].account, newHash, until);
    assert rows[i] in rows && grown[i] == rows[i];
    RevokeShows(grown, i, now, Some(id), hash, shown);
  }

  lemma RotateShows(rows: seq<Token>, op: Op, lifetime: int, hash: int, held: Option<Grant>, current: Option<Grant>)
    requires op.Rotate? && Invariant(rows) && IsFresh(rows, op)
    requires Shows(rows, hash, held) && Shows(rows, op.hash, current)
    ensures Shows(Apply(rows, op, lifetime), hash,
                  if current.None? || op.now >= current.value.until then held
                  else if op.newHash == hash then Some(Grant(current.value.account, op.now + lifetime))
                  else if op.hash == hash then None
                  else held)
  {
    ShownIsFound(rows, op.hash, current, op.now);
    var found := Find(rows, op.hash, op.now);
    if found.Some? {
      ExchangeShows(rows, found.value, op.id, op.newHash, op.now + lifetime, op.now, hash, held);
    }
  }

  /** In every run a token is accepted exactly while it is held and its time is not over, as a token of its account. */
  lemma AcceptedExactly(ops: seq<Op>, lifetime: int, hash: int, now: int)
    requires FreshRun(ops, lifetime)
    ensures var found, held := Find(RunOps(ops, lifetime), hash, now), Held(ops, lifetime, hash);
            && (found.Some? <==> held.Some? && now < held.value.until)
            && (found.Some? ==> RunOps(ops, lifetime)[found.value].account == held.value.account)
  {
    RunKeeps(ops, lifetime);
    RunShows(ops, lifetime, hash);
    ShownIsFound(RunOps(ops, lifetime), hash, Held(ops, lifetime, hash), now);
  }

  /** The operation takes back the token: it is used up or revoked before its time is over, or its account loses all. */
  ghost predicate TakesBack(op: Op, hash: int, grant: Grant) {
    match op
    case Issue(_, _, _, _) => false
    case Rotate(used, t, _, _) => used == hash && t < grant.until
    case Revoke(used, t) => used == hash && t < grant.until
    case RevokeAll(account, _) => account == grant.account
  }

  ghost predicate TakenBack(ops: seq<Op>, hash: int, grant: Grant) {
    exists op :: op in ops && TakesBack(op, hash, grant)
  }

  lemma {:induction false} HeldUntilTakenBack(ops: seq<Op>, more: seq<Op>, lifetime: int, hash: int)
    requires Held(ops, lifetime, hash).Some?
    requires forall op <- more :: op.Issue? || op.Rotate? ==> op.newHash != hash
    ensures var grant := Held(ops, lifetime, hash).value;
            Held(ops + more, lifetime, hash) == if TakenBack(more, hash, grant) then None else Some(grant)
  {
    if more == [] {
      assert ops + more == ops;
    } else {
      var n := |more| - 1;
      var grant := Held(ops, lifetime, hash).value;
      assert (ops + more)[..|ops + more| - 1] == ops + more[..n] && (ops + more)[|ops + more| - 1] == more[n];
      assert more[n] in more && forall op :: op in more <==> op in more[..n] || op == more[n];
      HeldUntilTakenBack(ops, more[..n], lifetime, hash);
      assert TakenBack(more, hash, grant) <==> TakenBack(more[..n], hash, grant) || TakesBack(more[n], hash, grant);
    }
  }

  lemma {:induction false} RowsStay(ops: seq<Op>, more: seq<Op>, lifetime: int, i: nat)
    requires i < |RunOps(ops, lifetime)|
    ensures i < |RunOps(ops + more, lifetime)| && RunOps(ops + more, lifetime)[i].hash == RunOps(ops, lifetime)[i].hash
  {
    if more == [] {
      assert ops + more == ops;
    } else {
      var n := |more| - 1;
      assert (ops + more)[..|ops| + n] == ops + more[..n];
      RowsStay(ops, more[..n], lifetime, i);
    }
  }

  /**
   A token handed out at `t` - issued, or exchanged for an accepted one - is accepted at `now` in any continuation exactly
   when `now` is before t + lifetime, nobody has rotated or revoked it before that time, and its account has not lost all.
   */
  lemma AcceptedUntil(ops: seq<Op>, more: seq<Op>, lifetime: int, now: int)
    requires FreshRun(ops + more, lifetime) && ops != []
    requires var op := ops[|ops| - 1]; op.Issue? || op.Rotate?
    requires Held(ops, lifetime, ops[|ops| - 1].newHash).Some?
    ensures var op := ops[|ops| - 1]; var grant := Held(ops, lifetime, op.newHash).value;
            && grant.until == op.now + lifetime
            && (Find(RunOps(ops + more, lifetime), op.newHash, now).Some? <==>
                  now < op.now + lifetime && !TakenBack(more, op.newHash, grant))
  {
    var n := |ops| - 1;
    var hash := ops[n].newHash;
    PrefixIsFresh(ops, more, lifetime);
    FrontIsFresh(ops, lifetime);
    RunShows(ops, lifetime, hash);
    RunShows(ops[..n], lifetime, hash);
    var i :| 0 <= i < |RunOps(ops, lifetime)| && IsHeldRow(RunOps(ops, lifetime)[i], hash, Held(ops, lifetime, hash).value);
    forall k | 0 <= k < |more| && (more[k].Issue? || more[k].Rotate?) ensures more[k].newHash != hash {
      assert (ops + more)[..|ops| + k] == ops + more[..k] && (ops + more)[|ops| + k] == more[k];
      RowsStay(ops, more[..k], lifetime, i);
      assert RunOps(ops + more[..k], lifetime)[i] in RunOps(ops + more[..k], lifetime);
    }
    HeldUntilTakenBack(ops, more, lifetime, hash);
    AcceptedExactly(ops + more, lifetime, hash, now);
  }

  lemma PrefixIsFresh(ops: seq<Op>, more: seq<Op>, lifetime: int)
    requires FreshRun(ops + more, lifetime)
    ensures FreshRun(ops, lifetime)
  {
    forall k | 0 <= k < |ops| ensures IsFresh(RunOps(ops[..k], lifetime), ops[k]) {
      assert (ops + more)[..k] == ops[..k] && (ops + more)[k] == ops[k];
    }
  }

  /** An accepted rotation marks the old row with its time and its successor, and nothing else changes but the new row. */
  lemma RotationLinks(ops: seq<Op>, lifetime: int, op: Op)
    requires FreshRun(ops + [op], lifetime) && op.Rotate?
    requires var held := Held(ops, lifetime, op.hash); held.Some? && op.now < held.value.until
    ensures var rows, after, held := RunOps(ops, lifetime), RunOps(ops + [op], lifetime), Held(ops, lifetime, op.hash).value;
            && |after| == |rows| + 1 && IsHeldRow(after[|rows|], op.newHash, Grant(held.account, op.now + lifetime))
            && exists i :: 0 <= i < |rows| && rows[i].hash == op.hash
                 && after[i] == rows[i].(revokedAt := Some(op.now), replacedBy := Some(after[|rows|].id))
                 && forall k :: 0 <= k < |rows| && k != i ==> after[k] == rows[k]
  {
    PrefixIsFresh(ops, [op], lifetime);
    AcceptedExactly(ops, lifetime, op.hash, op.now);
    assert (ops + [op])[..|ops|] == ops;
    var found := Find(RunOps(ops, lifetime), op.hash, op.now).value;
    assert RunOps(ops, lifetime)[found].hash == op.hash;
  }

  /** An accepted revocation marks its row with its time, and changes nothing else; any other revocation changes nothing. */
  lemma RevocationMarks(ops: seq<Op>, lifetime: int, op: Op)
    requires FreshRun(ops, lifetime) && op.Revoke?
    ensures var rows, after, held := RunOps(ops, lifetime), RunOps(ops + [op], lifetime), Held(ops, lifetime, op.hash);
            if held.Some? && op.now < held.value.until then
              exists i :: 0 <= i < |rows| && rows[i].hash == op.hash
                && after == rows[i := rows[i].(revokedAt := Some(op.now), replacedBy := None)]
            else after == rows
  {
    AcceptedExactly(ops, lifetime, op.hash, op.now);
    assert (ops + [op])[..|ops|] == ops;
    var found := Find(RunOps(ops, lifetime), op.hash, op.now);
    if found.Some? {
      assert RunOps(ops, lifetime)[found.value].hash == op.hash;
    }
  }
}
