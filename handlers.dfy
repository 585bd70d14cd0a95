/**
 * What each route of the service does to the store, as a function from the store before
 * the request to the response and the store after it. A rejected request returns
 * the store it was given: an uncommitted unit of work is discarded.
 */
module Handlers {
  import opened Base
  import opened Tables

  datatype Response = Response(code: int, message: string)

  /** The response and the store after the request (the committed state, or the old one). */
  datatype Outcome = Outcome(response: Response, post: Store)

  const UNAUTHORIZED := Response(401, "Unauthorized: Invalid token")
  /** A store exception mapped to 500; the exception's own text is not modelled. */
  const STORE_ERROR := Response(500, "Exception: ")
  /**
   * Routes that answer with a JSON body carry it beside the response; the message is then empty.
   * Login is the exception: its message "success" stands for the body's `status` field.
   */
  const JSON_OK := Response(200, "")
  const WRONG_CREDENTIALS := Response(401, "Wrong username or password")
  const NOT_ADMIN := "You do not have sufficient rights to perform this action"
  const DEFAULT_JAR_IMAGE := "https://example.com/default_jar.png"
  const NO_REASON := "no reason"
  const NOT_BANNED_REASON := "user is not banned"
  const PASSWORD_SUFFIX := "_some_secret_method"
  const ADMIN_RIGHTS := "admin"
  const WITHDRAW := "withdraw"
  const DEPOSIT := "deposit"

  function Reject(s: Store, r: Response): Outcome {
    Outcome(r, s)
  }

  /** The stored credential: the password with a fixed suffix appended. */
  function PasswordHash(password: string): string {
    password + PASSWORD_SUFFIX
  }

  function NewAccount(d: Defaults, username: string, passwordHash: string): Account {
    Account(username, passwordHash, d.balance, d.isBanned, d.banReason, d.unbanReason, d.accessRights)
  }

  // ---- POST /users ----

  ghost function Register(s: Store, d: Defaults, username: string, password: string): (r: Outcome)
    ensures r.response.code == 409 <==> IdByName(s.accounts, username).Some?
    ensures r.response.code == 409 ==> r.post == s
    ensures r.response.code != 409 ==>
              && r.response.code == 201
              && r.post.accounts.Keys == s.accounts.Keys + {s.nextAccountId}
              && (forall id :: id in s.accounts && id != s.nextAccountId ==> r.post.accounts[id] == s.accounts[id])
              && r.post.accounts[s.nextAccountId] == NewAccount(d, username, PasswordHash(password))
              && r.post.nextAccountId == s.nextAccountId + 1 && r.post.nextJarId == s.nextJarId
              && r.post.jars == s.jars && r.post.transactions == s.transactions
    ensures WellFormed(s) ==> WellFormed(r.post)
  {
    if IdByName(s.accounts, username).Some? then
      Reject(s, Response(409, "Username is exists"))
    else
      var row := NewAccount(d, username, PasswordHash(password));
      Outcome(Response(201, "User register succesffully"),
              s.(accounts := s.accounts[s.nextAccountId := row], nextAccountId := s.nextAccountId + 1))
  }

  // ---- POST /tokens ----

  /** `userId` is the id the issued token would carry. */
  datatype LoginResult = LoginResult(response: Response, userId: Option<int>)

  ghost function Login(s: Store, username: string, password: string): (r: LoginResult)
    ensures r.userId.Some? <==> r.response.code == 200
    ensures r.response.code != 200 ==> r.response == WRONG_CREDENTIALS
    ensures r.userId.Some? ==>
              && r.userId.value in s.accounts
              && s.accounts[r.userId.value].username == username
              && s.accounts[r.userId.value].passwordHash == PasswordHash(password)
  {
    match IdByName(s.accounts, username)
    case None => LoginResult(WRONG_CREDENTIALS, None)
    case Some(id) =>
      if PasswordHash(password) != s.accounts[id].passwordHash then LoginResult(WRONG_CREDENTIALS, None)
      else LoginResult(Response(200, "success"), Some(id))
  }

  // ---- POST /transactions ----

  /**
   * `after` is `before` with `amount` moved from account `from` to account `to` and one
   * row appended to the log; nothing else differs.
   */
  ghost predicate Transferred(before: Store, after: Store, from: int, to: int, amount: Int64) {
    && from in before.accounts && to in before.accounts && from != to
    && after.accounts.Keys == before.accounts.Keys
    && after.accounts[from].balance == before.accounts[from].balance - amount
    && after.accounts[to].balance == before.accounts[to].balance + amount
    && SameExceptBalance(after.accounts[from], before.accounts[from])
    && SameExceptBalance(after.accounts[to], before.accounts[to])
    && (forall id :: id in before.accounts && id != from && id != to ==> after.accounts[id] == before.accounts[id])
    && after.jars == before.jars
    && |after.transactions| == |before.transactions| + 1
    && after.transactions[..|before.transactions|] == before.transactions
    && after.transactions[|before.transactions|] == TransferRow(from, to, amount)
    && after.nextAccountId == before.nextAccountId && after.nextJarId == before.nextJarId
  }

  /** A transfer between two different accounts keeps the store well formed. */
  lemma TransferredKeepsWellFormed(before: Store, after: Store, from: int, to: int, amount: Int64)
    requires Transferred(before, after, from, to, amount) && amount > 0
    ensures WellFormed(before) ==> WellFormed(after)
  {
  }

  ghost function Transfer(s: Store, callerId: int, receiverName: string, amount: Int64): (r: Outcome)
    ensures r.response.code != 200 ==> r.post == s
    ensures r.response.code == 200 ==>
              && IdByName(s.accounts, receiverName).Some?
              && Transferred(s, r.post, callerId, IdByName(s.accounts, receiverName).value, amount)
              && r.post.accounts[callerId].balance >= 0
    ensures callerId == -1 ==> r == Reject(s, UNAUTHORIZED)
    ensures WellFormed(s) ==> WellFormed(r.post)
  {
    if callerId == -1 then Reject(s, UNAUTHORIZED)
    else if amount <= 0 then Reject(s, Response(400, "Amount must be positive"))
    else match IdByName(s.accounts, receiverName)
      case None => Reject(s, Response(404, "Receiver not found"))
      case Some(receiverId) =>
        var receiver := s.accounts[receiverId];
        if callerId == receiverId then Reject(s, Response(400, "Cannot transfer money to yourself"))
        else if receiver.isBanned then Reject(s, Response(400, "Receiver is banned! You cannot complete the transaction"))
        else if callerId !in s.accounts then Reject(s, Response(401, "Sender not found"))
        else
          var sender := s.accounts[callerId];
          if sender.balance < amount then Reject(s, Response(400, "Insufficient funds"))
          else if sender.isBanned then Reject(s, Response(400, "You are blocked! You cannot preform transactions"))
          else if !InInt64(receiver.balance + amount) then Reject(s, STORE_ERROR)
          else
            var debited := s.accounts[callerId := sender.(balance := sender.balance - amount)];
            var credited := debited[receiverId := receiver.(balance := receiver.balance + amount)];
            var post := s.(accounts := credited, transactions := s.transactions + [TransferRow(callerId, receiverId, amount)]);
            TransferredKeepsWellFormed(s, post, callerId, receiverId, amount);
            Outcome(Response(200, "Transfer successful"), post)
  }

  // ---- GET /transactions ----

  /** The history query returns transfer `t` for `userId`: the user is a party and both joins find an account. */
  predicate InHistory(t: TransferRow, accounts: map<int, Account>, userId: int) {
    (t.senderId == userId || t.receiverId == userId) && t.senderId in accounts && t.receiverId in accounts
  }

  /** Positions in the log of the transfers the query selects, newest (highest id) first. */
  function HistoryIndices(ts: seq<TransferRow>, accounts: map<int, Account>, userId: int): (ix: seq<nat>)
    decreases |ts|
    ensures forall k :: 0 <= k < |ix| ==> ix[k] < |ts| && InHistory(ts[ix[k]], accounts, userId)
  {
    if |ts| == 0 then []
    else
      var last := |ts| - 1;
      (if InHistory(ts[last], accounts, userId) then [last] else []) + HistoryIndices(ts[..last], accounts, userId)
  }

  const HISTORY_LIMIT := 50

  /** A row of the history query: amount, both usernames and the sender's id. */
  datatype HistoryRow = HistoryRow(amount: Int64, senderName: string, receiverName: string, senderId: int)

  function RowOf(t: TransferRow, accounts: map<int, Account>): HistoryRow
    requires t.senderId in accounts && t.receiverId in accounts
  {
    HistoryRow(t.amount, accounts[t.senderId].username, accounts[t.receiverId].username, t.senderId)
  }

  /** The query's result: the selected transfers, newest first, at most fifty. */
  function HistoryRows(ts: seq<TransferRow>, accounts: map<int, Account>, userId: int): (rows: seq<HistoryRow>)
    ensures |rows| <= HISTORY_LIMIT
    ensures |rows| == if |HistoryIndices(ts, accounts, userId)| < HISTORY_LIMIT then |HistoryIndices(ts, accounts, userId)| else HISTORY_LIMIT
    ensures forall k :: 0 <= k < |rows| ==> rows[k] == RowOf(ts[HistoryIndices(ts, accounts, userId)[k]], accounts)
  {
    var ix := HistoryIndices(ts, accounts, userId);
    var n := if |ix| < HISTORY_LIMIT then |ix| else HISTORY_LIMIT;
    seq(n, k requires 0 <= k < n => RowOf(ts[ix[k]], accounts))
  }

  /** One entry of `transactions_history` (date and time are not modelled). */
  datatype HistoryEntry = HistoryEntry(kind: string, amount: int, counterparty: string)

  // ---- GET /jars ----

  /** One entry of the `jars` list. */
  datatype JarView = JarView(id: int, name: string, target: string, image: string, balance: Int64, accumulation: Int64)

  function ViewOf(jarId: int, j: Jar): JarView {
    JarView(jarId, j.name, j.target, j.image, j.balance, j.accumulation)
  }

  /** `SELECT ... FROM jars WHERE user_id = $1`, as a set: the query has no ORDER BY. */
  function OwnedJarIds(jars: map<int, Jar>, userId: int): (ids: set<int>)
    ensures forall jid :: jid in ids <==> OwnsJar(jars, userId, jid)
  {
    set jid | jid in jars && jars[jid].userId == userId
  }

  // ---- POST /jars ----

  ghost function CreateJar(s: Store, callerId: int, name: string, target: string, accumulation: Int64,
                           image: Option<string>): (r: Outcome)
    ensures r.response.code != 201 ==> r.post == s
    ensures r.response.code == 201 ==>
              && callerId in s.accounts && !s.accounts[callerId].isBanned
              && r.post.jars.Keys == s.jars.Keys + {s.nextJarId}
              && (forall jid :: jid in s.jars && jid != s.nextJarId ==> r.post.jars[jid] == s.jars[jid])
              && r.post.jars[s.nextJarId] == Jar(callerId, 0, name, target, accumulation, image.GetOr(DEFAULT_JAR_IMAGE))
              && r.post.accounts == s.accounts && r.post.transactions == s.transactions
              && r.post.nextJarId == s.nextJarId + 1 && r.post.nextAccountId == s.nextAccountId
    ensures callerId != -1 && callerId in s.accounts ==>
              (r.response.code == 201 <==> !s.accounts[callerId].isBanned)
    ensures callerId != -1 && callerId in s.accounts && s.accounts[callerId].isBanned ==>
              r.response == Response(400, "You are blocked! You cannot create a jar")
    ensures callerId == -1 ==> r.response == UNAUTHORIZED
    ensures callerId != -1 && callerId !in s.accounts ==> r.response == STORE_ERROR
    ensures WellFormed(s) ==> WellFormed(r.post)
  {
    if callerId == -1 then Reject(s, UNAUTHORIZED)
    else if callerId !in s.accounts then Reject(s, STORE_ERROR)
    else if s.accounts[callerId].isBanned then Reject(s, Response(400, "You are blocked! You cannot create a jar"))
    else
      var jar := Jar(callerId, 0, name, target, accumulation, image.GetOr(DEFAULT_JAR_IMAGE));
      Outcome(Response(201, "Jar created"), s.(jars := s.jars[s.nextJarId := jar], nextJarId := s.nextJarId + 1))
  }

  // ---- POST /jars/<id>/transactions ----

  /**
   * `after` is `before` with `delta` moved from account `userId` into jar `jarId`
   * (a negative `delta` moves money out of the jar); nothing else differs.
   */
  ghost predicate JarMoved(before: Store, after: Store, userId: int, jarId: int, delta: int) {
    && userId in before.accounts && jarId in before.jars
    && after.accounts.Keys == before.accounts.Keys && after.jars.Keys == before.jars.Keys
    && after.jars[jarId].balance == before.jars[jarId].balance + delta
    && after.accounts[userId].balance == before.accounts[userId].balance - delta
    && SameJarExceptBalance(after.jars[jarId], before.jars[jarId])
    && SameExceptBalance(after.accounts[userId], before.accounts[userId])
    && (forall jid :: jid in before.jars && jid != jarId ==> after.jars[jid] == before.jars[jid])
    && (forall id :: id in before.accounts && id != userId ==> after.accounts[id] == before.accounts[id])
    && after.transactions == before.transactions
    && after.nextAccountId == before.nextAccountId && after.nextJarId == before.nextJarId
  }

  /** Moving money between an account and a jar keeps the store well formed. */
  lemma JarMovedKeepsWellFormed(before: Store, after: Store, userId: int, jarId: int, delta: int)
    requires JarMoved(before, after, userId, jarId, delta)
    ensures WellFormed(before) ==> WellFormed(after)
  {
  }

  /** The two UPDATEs of a jar operation; either one overflowing aborts the whole unit. */
  ghost function MoveIntoJar(s: Store, userId: int, jarId: int, delta: int): (r: Outcome)
    requires userId in s.accounts && jarId in s.jars
    ensures r.response.code != 200 ==> r.post == s
    ensures r.response.code == 200 ==> JarMoved(s, r.post, userId, jarId, delta)
    ensures WellFormed(s) ==> WellFormed(r.post)
  {
    var jar := s.jars[jarId];
    var account := s.accounts[userId];
    if !InInt64(jar.balance + delta) || !InInt64(account.balance - delta) then Reject(s, STORE_ERROR)
    else
      var post := s.(jars := s.jars[jarId := jar.(balance := jar.balance + delta)],
                     accounts := s.accounts[userId := account.(balance := account.balance - delta)]);
      assert JarMoved(s, post, userId, jarId, delta);
      JarMovedKeepsWellFormed(s, post, userId, jarId, delta);
      Outcome(Response(200, "Transfer succesful"), post)
  }

  /** When neither UPDATE overflows, the unit of work commits exactly the two new balances. */
  lemma MoveIntoJarCommits(s: Store, userId: int, jarId: int, delta: int,
                           jars: map<int, Jar>, accounts: map<int, Account>)
    requires userId in s.accounts && jarId in s.jars
    requires InInt64(s.jars[jarId].balance + delta) && InInt64(s.accounts[userId].balance - delta)
    requires jars == s.jars[jarId := s.jars[jarId].(balance := s.jars[jarId].balance + delta)]
    requires accounts == s.accounts[userId := s.accounts[userId].(balance := s.accounts[userId].balance - delta)]
    ensures MoveIntoJar(s, userId, jarId, delta)
         == Outcome(Response(200, "Transfer succesful"), s.(jars := jars, accounts := accounts))
  {
  }

  ghost function JarTransaction(s: Store, callerId: int, jarId: int, kind: string, amount: Int64): (r: Outcome)
    ensures r.response.code != 200 ==> r.post == s
    ensures r.response.code == 200 ==>
              && (kind == WITHDRAW || kind == DEPOSIT)
              && callerId in s.accounts && !s.accounts[callerId].isBanned && OwnsJar(s.jars, callerId, jarId)
              && JarMoved(s, r.post, callerId, jarId, if kind == DEPOSIT then amount as int else -(amount as int))
    ensures r.response.code == 200 <==>
              && callerId != -1 && callerId in s.accounts && !s.accounts[callerId].isBanned
              && OwnsJar(s.jars, callerId, jarId)
              && ((&& kind == WITHDRAW && s.jars[jarId].balance >= amount
                   && InInt64(s.jars[jarId].balance - amount) && InInt64(s.accounts[callerId].balance + amount))
                  || (&& kind == DEPOSIT && s.accounts[callerId].balance >= amount
                      && InInt64(s.jars[jarId].balance + amount) && InInt64(s.accounts[callerId].balance - amount)))
    ensures callerId == -1 ==> r == Reject(s, UNAUTHORIZED)
    ensures callerId != -1 && callerId !in s.accounts ==> r == Reject(s, STORE_ERROR)
    ensures WellFormed(s) ==> WellFormed(r.post)
  {
    if callerId == -1 then Reject(s, UNAUTHORIZED)
    else if callerId !in s.accounts then Reject(s, STORE_ERROR)
    else if s.accounts[callerId].isBanned then
      Reject(s, Response(400, "You are blocked! You cannot conduct transactions with jars"))
    else if !OwnsJar(s.jars, callerId, jarId) then Reject(s, Response(404, "Jar not found"))
    else if kind == WITHDRAW then
      if s.jars[jarId].balance < amount then Reject(s, Response(400, "Insufficient fund in the jar"))
      else MoveIntoJar(s, callerId, jarId, -(amount as int))
    else if kind == DEPOSIT then
      if s.accounts[callerId].balance < amount then Reject(s, Response(400, "Insufficient funds on your balance"))
      else MoveIntoJar(s, callerId, jarId, amount)
    else Reject(s, Response(400, "Wrong method"))
  }

  // ---- DELETE /jars/<id> ----

  ghost function DeleteJar(s: Store, callerId: int, jarId: int): (r: Outcome)
    ensures r.response.code != 200 ==> r.post == s
    ensures r.response.code == 200 ==>
              && OwnsJar(s.jars, callerId, jarId)
              && r.post.jars == s.jars - {jarId}
              && r.post.accounts.Keys == s.accounts.Keys
              && (callerId in s.accounts ==>
                    && r.post.accounts[callerId].balance == s.accounts[callerId].balance + s.jars[jarId].balance
                    && SameExceptBalance(r.post.accounts[callerId], s.accounts[callerId]))
              && (forall id :: id in s.accounts && id != callerId ==> r.post.accounts[id] == s.accounts[id])
              && r.post.transactions == s.transactions
              && r.post.nextAccountId == s.nextAccountId && r.post.nextJarId == s.nextJarId
    ensures callerId == -1 ==> r == Reject(s, UNAUTHORIZED)
    ensures callerId != -1 && !OwnsJar(s.jars, callerId, jarId) ==> r == Reject(s, Response(400, "Jar not found"))
    ensures callerId != -1 && OwnsJar(s.jars, callerId, jarId) ==>
              (r.response.code == 200 <==>
                 callerId !in s.accounts || InInt64(s.accounts[callerId].balance + s.jars[jarId].balance))
    ensures WellFormed(s) ==> WellFormed(r.post)
  {
    if callerId == -1 then Reject(s, UNAUTHORIZED)
    else if !OwnsJar(s.jars, callerId, jarId) then Reject(s, Response(400, "Jar not found"))
    else
      var residue := s.jars[jarId].balance;
      if callerId !in s.accounts then
        // the UPDATE matches no row and changes nothing; the DELETE still runs
        Outcome(Response(200, "Jar deleted"), s.(jars := s.jars - {jarId}))
      else
        var account := s.accounts[callerId];
        if !InInt64(account.balance + residue) then Reject(s, STORE_ERROR)
        else
          Outcome(Response(200, "Jar deleted"),
                  s.(accounts := s.accounts[callerId := account.(balance := account.balance + residue)],
                     jars := s.jars - {jarId}))
  }

  // ---- GET /admintools ----

  ghost function AdminTools(s: Store, callerId: int): (r: Response)
    ensures r.code == 200 <==> callerId != -1 && callerId in s.accounts && s.accounts[callerId].accessRights == ADMIN_RIGHTS
    ensures callerId == -1 ==> r == UNAUTHORIZED
    ensures callerId != -1 && callerId !in s.accounts ==> r == STORE_ERROR
    ensures callerId != -1 && callerId in s.accounts && s.accounts[callerId].accessRights != ADMIN_RIGHTS ==>
              r == Response(403, NOT_ADMIN)
  {
    if callerId == -1 then UNAUTHORIZED
    else if callerId !in s.accounts then STORE_ERROR
    else if s.accounts[callerId].accessRights != ADMIN_RIGHTS then Response(403, NOT_ADMIN)
    else Response(200, "You have successfully logged into AdminTools")
  }

  // ---- PATCH /users/<username> ----

  /** The row after `UPDATE bank SET is_banned = ...` with the route's reason defaults. */
  function BanState(a: Account, ban: bool, reason: Option<string>, unbanReason: Option<string>): (b: Account)
    ensures b.isBanned == ban && b.username == a.username && b.balance == a.balance
    ensures ban ==> b == a.(isBanned := true, banReason := reason.GetOr(NO_REASON))
    ensures !ban ==> b == a.(isBanned := false, banReason := NOT_BANNED_REASON, unbanReason := unbanReason.GetOr(NO_REASON))
  {
    if ban then a.(isBanned := true, banReason := reason.GetOr(NO_REASON))
    else a.(isBanned := false, banReason := NOT_BANNED_REASON, unbanReason := unbanReason.GetOr(NO_REASON))
  }

  ghost function PatchUser(s: Store, callerId: int, username: string, isBanned: Option<bool>,
                           reason: Option<string>, unbanReason: Option<string>): (r: Outcome)
    ensures r.response.code != 200 || isBanned.None? ==> r.post == s
    ensures r.response.code == 200 ==>
              && callerId in s.accounts && s.accounts[callerId].accessRights == ADMIN_RIGHTS
              && IdByName(s.accounts, username).Some?
    ensures r.response.code == 200 && isBanned.Some? ==>
              && r.post.accounts.Keys == s.accounts.Keys
              && (forall id :: id in s.accounts ==>
                    r.post.accounts[id] == if s.accounts[id].username == username
                                           then BanState(s.accounts[id], isBanned.value, reason, unbanReason)
                                           else s.accounts[id])
              && r.post.jars == s.jars && r.post.transactions == s.transactions
              && r.post.nextAccountId == s.nextAccountId && r.post.nextJarId == s.nextJarId
    ensures callerId != -1 && callerId in s.accounts && s.accounts[callerId].accessRights == ADMIN_RIGHTS ==>
              && (r.response.code == 200 <==> IdByName(s.accounts, username).Some?)
              && (IdByName(s.accounts, username).None? ==> r.response == Response(404, "User with this username not found"))
              && (r.response.code == 200 ==> r.response == Response(200, "Done"))
    ensures callerId == -1 ==> r.response == UNAUTHORIZED
    ensures callerId != -1 && callerId !in s.accounts ==> r.response == STORE_ERROR
    ensures callerId != -1 && callerId in s.accounts && s.accounts[callerId].accessRights != ADMIN_RIGHTS ==>
              r.response == Response(400, NOT_ADMIN)
    ensures WellFormed(s) ==> WellFormed(r.post)
  {
    if callerId == -1 then Reject(s, UNAUTHORIZED)
    else if callerId !in s.accounts then Reject(s, STORE_ERROR)
    else if s.accounts[callerId].accessRights != ADMIN_RIGHTS then Reject(s, Response(400, NOT_ADMIN))
    else if IdByName(s.accounts, username).None? then Reject(s, Response(404, "User with this username not found"))
    else match isBanned
      case None => Outcome(Response(200, "Done"), s)
      case Some(ban) =>
        var updated := map id | id in s.accounts ::
                         if s.accounts[id].username == username then BanState(s.accounts[id], ban, reason, unbanReason)
                         else s.accounts[id];
        Outcome(Response(200, "Done"), s.(accounts := updated))
  }
}
