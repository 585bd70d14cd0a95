/**
 * The route handlers as the service runs them: each one reads rows, checks its
 * preconditions in order and either returns early or applies its UPDATE / INSERT /
 * DELETE statements to the unit of work and commits. The unit of work is a local copy
 * of the tables; committing assigns it to the fields, so an early return leaves the
 * tables as they were.
 */
module Routes {
  import opened Base
  import opened Tables
  import opened Handlers

  class Bank {
    var accounts: map<int, Account>
    var jars: map<int, Jar>
    var transactions: seq<TransferRow>
    var nextAccountId: int
    var nextJarId: int
    /** Column defaults the schema gives a new `bank` row. */
    const defaults: Defaults

    ghost function Store(): Store
      reads this
    {
      Tables.Store(accounts, jars, transactions, nextAccountId, nextJarId)
    }

    ghost predicate Valid()
      reads this
    {
      WellFormed(Store())
    }

    constructor (defaults: Defaults)
      ensures Valid() && this.defaults == defaults
      ensures accounts == map[] && jars == map[] && transactions == []
    {
      this.defaults := defaults;
      accounts, jars, transactions := map[], map[], [];
      nextAccountId, nextJarId := 1, 1;
    }

    /** `SELECT id FROM bank WHERE username = $1`. */
    method SelectIdByName(name: string) returns (r: Option<int>)
      requires Valid()
      ensures r == IdByName(accounts, name)
    {
      if exists id :: id in accounts && accounts[id].username == name {
        var id :| id in accounts && accounts[id].username == name;
        IdByNameUnique(accounts, id);
        r := Some(id);
      } else {
        r := None;
      }
    }

    /** POST /users. The unique constraint on `username` rejects a second row with 409. */
    method Register(username: string, password: string) returns (response: Response)
      requires Valid()
      modifies this
      ensures Valid()
      ensures Outcome(response, Store()) == Handlers.Register(old(Store()), defaults, username, password)
    {
      var passwordHash := password + PASSWORD_SUFFIX;
      var existing := SelectIdByName(username);
      if existing.Some? {
        return Response(409, "Username is exists");
      }
      var work := accounts[nextAccountId := NewAccount(defaults, username, passwordHash)];
      accounts, nextAccountId := work, nextAccountId + 1;
      response := Response(201, "User register succesffully");
    }

    /** POST /tokens. Both failures give the same response; `userId` is the id put in the token. */
    method Login(username: string, password: string) returns (response: Response, userId: Option<int>)
      requires Valid()
      ensures LoginResult(response, userId) == Handlers.Login(Store(), username, password)
    {
      var passwordHash := password + PASSWORD_SUFFIX;
      var found := SelectIdByName(username);
      if found.None? {
        return WRONG_CREDENTIALS, None;
      }
      var databaseHash := accounts[found.value].passwordHash;
      if passwordHash != databaseHash {
        return WRONG_CREDENTIALS, None;
      }
      response, userId := Response(200, "success"), Some(found.value);
    }

    /** POST /transactions. */
    method Transfer(callerId: int, receiverName: string, amount: Int64) returns (response: Response)
      requires Valid()
      modifies this
      ensures Valid()
      ensures Outcome(response, Store()) == Handlers.Transfer(old(Store()), callerId, receiverName, amount)
    {
      if callerId == -1 {
        return UNAUTHORIZED;
      }
      if amount <= 0 {
        return Response(400, "Amount must be positive");
      }
      var receiver := SelectIdByName(receiverName);
      if receiver.None? {
        return Response(404, "Receiver not found");
      }
      var receiverId := receiver.value;
      var isBannedReceiver := accounts[receiverId].isBanned;
      if callerId == receiverId {
        return Response(400, "Cannot transfer money to yourself");
      }
      if isBannedReceiver {
        return Response(400, "Receiver is banned! You cannot complete the transaction");
      }
      if callerId !in accounts {
        return Response(401, "Sender not found");
      }
      var senderBalance := accounts[callerId].balance;
      var isBannedSender := accounts[callerId].isBanned;
      if senderBalance < amount {
        return Response(400, "Insufficient funds");
      }
      if isBannedSender {
        return Response(400, "You are blocked! You cannot preform transactions");
      }
      var work := accounts;
      var sender := work[callerId];
      work := work[callerId := sender.(balance := sender.balance - amount)];
      var credited := work[receiverId];
      if !InInt64(credited.balance + amount) {
        return STORE_ERROR;
      }
      work := work[receiverId := credited.(balance := credited.balance + amount)];
      var log := transactions + [TransferRow(callerId, receiverId, amount)];
      accounts, transactions := work, log;
      response := Response(200, "Transfer successful");
    }

    /** GET /transactions: maps each row of the history query to an entry. */
    method TransactionHistory(callerId: int) returns (response: Response, history: seq<HistoryEntry>)
      requires Valid()
      ensures callerId == -1 ==> response == UNAUTHORIZED && history == []
      ensures callerId != -1 ==> response == JSON_OK
      ensures callerId != -1 ==> |history| == |HistoryRows(transactions, accounts, callerId)|
      ensures callerId != -1 ==>
                forall k :: 0 <= k < |history| ==>
                  var row := HistoryRows(transactions, accounts, callerId)[k];
                  && (row.senderId == callerId ==> history[k] == HistoryEntry("outgoing", -(row.amount as int), row.receiverName))
                  && (row.senderId != callerId ==> history[k] == HistoryEntry("incoming", row.amount as int, row.senderName))
    {
      if callerId == -1 {
        return UNAUTHORIZED, [];
      }
      var rows := HistoryRows(transactions, accounts, callerId);
      history := [];
      var i := 0;
      while i < |rows|
        invariant 0 <= i <= |rows|
        invariant |history| == i
        invariant forall k :: 0 <= k < i ==>
                    && (rows[k].senderId == callerId ==> history[k] == HistoryEntry("outgoing", -(rows[k].amount as int), rows[k].receiverName))
                    && (rows[k].senderId != callerId ==> history[k] == HistoryEntry("incoming", rows[k].amount as int, rows[k].senderName))
      {
        var row := rows[i];
        var entry;
        if row.senderId == callerId {
          entry := HistoryEntry("outgoing", -(row.amount as int), row.receiverName);
        } else {
          entry := HistoryEntry("incoming", row.amount as int, row.senderName);
        }
        history := history + [entry];
        i := i + 1;
      }
      response := JSON_OK;
    }

    /** `SELECT id, ... FROM jars WHERE user_id = $1`: the caller's jars in the order the store returns them. */
    method SelectOwnedJars(userId: int) returns (rows: seq<int>)
      ensures |rows| == |OwnedJarIds(jars, userId)|
      ensures forall k :: 0 <= k < |rows| ==> OwnsJar(jars, userId, rows[k])
      ensures forall jid :: OwnsJar(jars, userId, jid) ==> jid in rows
    {
      var remaining := OwnedJarIds(jars, userId);
      rows := [];
      while exists jid :: jid in remaining
        invariant |rows| + |remaining| == |OwnedJarIds(jars, userId)|
        invariant remaining <= OwnedJarIds(jars, userId)
        invariant forall k :: 0 <= k < |rows| ==> OwnsJar(jars, userId, rows[k])
        invariant forall jid :: OwnsJar(jars, userId, jid) ==> jid in rows || jid in remaining
        decreases |remaining|
      {
        var jid :| jid in remaining;
        rows := rows + [jid];
        remaining := remaining - {jid};
      }
    }

    /** GET /jars. Every entry is built from the first row of the result, not from the current one. */
    method ListJars(callerId: int) returns (response: Response, list: seq<JarView>)
      requires Valid()
      ensures callerId == -1 ==> response == UNAUTHORIZED && list == []
      ensures callerId != -1 ==> response == JSON_OK && |list| == |OwnedJarIds(jars, callerId)|
      ensures forall k :: 0 <= k < |list| ==> list[k] == list[0]
      ensures list != [] ==> exists jid :: OwnsJar(jars, callerId, jid) && list[0] == ViewOf(jid, jars[jid])
    {
      if callerId == -1 {
        return UNAUTHORIZED, [];
      }
      var rows := SelectOwnedJars(callerId);
      list := [];
      var i := 0;
      while i < |rows|
        invariant 0 <= i <= |rows|
        invariant |list| == i
        invariant forall k :: 0 <= k < i ==> list[k] == ViewOf(rows[0], jars[rows[0]])
      {
        var first := jars[rows[0]];
        var jar := JarView(rows[0], first.name, first.target, first.image, first.balance, first.accumulation);
        list := list + [jar];
        i := i + 1;
      }
      if list != [] {
        assert OwnsJar(jars, callerId, rows[0]) && list[0] == ViewOf(rows[0], jars[rows[0]]);
      }
      response := JSON_OK;
    }

    /** POST /jars. */
    method CreateJar(callerId: int, name: string, target: string, accumulation: Int64, image: Option<string>)
      returns (response: Response)
      requires Valid()
      modifies this
      ensures Valid()
      ensures Outcome(response, Store()) == Handlers.CreateJar(old(Store()), callerId, name, target, accumulation, image)
    {
      if callerId == -1 {
        return UNAUTHORIZED;
      }
      var jarImage := if image.Some? then image.value else DEFAULT_JAR_IMAGE;
      if callerId !in accounts {
        return STORE_ERROR;
      }
      var isBannedUser := accounts[callerId].isBanned;
      if isBannedUser {
        return Response(400, "You are blocked! You cannot create a jar");
      }
      var work := jars[nextJarId := Jar(callerId, 0, name, target, accumulation, jarImage)];
      jars, nextJarId := work, nextJarId + 1;
      response := Response(201, "Jar created");
    }

    /** POST /jars/<id>/transactions. */
    method JarTransaction(callerId: int, jarId: int, kind: string, amount: Int64) returns (response: Response)
      requires Valid()
      modifies this
      ensures Valid()
      ensures Outcome(response, Store()) == Handlers.JarTransaction(old(Store()), callerId, jarId, kind, amount)
    {
      if callerId == -1 {
        return UNAUTHORIZED;
      }
      if callerId !in accounts {
        return STORE_ERROR;
      }
      var isBannedUser := accounts[callerId].isBanned;
      var jarFound := jarId in jars && jars[jarId].userId == callerId;
      if isBannedUser {
        return Response(400, "You are blocked! You cannot conduct transactions with jars");
      }
      if !jarFound {
        return Response(404, "Jar not found");
      }
      response := WithdrawOrDeposit(callerId, jarId, kind, amount);
    }

    /** The `type` dispatch of POST /jars/<id>/transactions, for an unbanned caller who owns the jar. */
    method WithdrawOrDeposit(callerId: int, jarId: int, kind: string, amount: Int64) returns (response: Response)
      requires Valid() && callerId != -1 && callerId in accounts && !accounts[callerId].isBanned
      requires jarId in jars && jars[jarId].userId == callerId
      modifies this
      ensures Valid()
      ensures Outcome(response, Store()) == Handlers.JarTransaction(old(Store()), callerId, jarId, kind, amount)
    {
      if kind == WITHDRAW {
        var currentJarBalance := jars[jarId].balance;
        if currentJarBalance < amount {
          return Response(400, "Insufficient fund in the jar");
        }
        assert Handlers.JarTransaction(Store(), callerId, jarId, kind, amount) == MoveIntoJar(Store(), callerId, jarId, -(amount as int));
        response := UpdateJarAndAccount(callerId, jarId, -(amount as int));
      } else if kind == DEPOSIT {
        var currentUserBalance := accounts[callerId].balance;
        if currentUserBalance < amount {
          return Response(400, "Insufficient funds on your balance");
        }
        assert Handlers.JarTransaction(Store(), callerId, jarId, kind, amount) == MoveIntoJar(Store(), callerId, jarId, amount as int);
        response := UpdateJarAndAccount(callerId, jarId, amount as int);
      } else {
        return Response(400, "Wrong method");
      }
    }

    /**
     * The two UPDATEs of a jar operation and the commit: the jar's balance gains `delta`,
     * then the owner's balance loses it; an overflow in either discards the unit of work.
     */
    method UpdateJarAndAccount(userId: int, jarId: int, delta: int) returns (response: Response)
      requires Valid() && userId in accounts && jarId in jars
      modifies this
      ensures Valid()
      ensures Outcome(response, Store()) == MoveIntoJar(old(Store()), userId, jarId, delta)
    {
      ghost var s0 := Store();
      var workJars, workAccounts := jars, accounts;
      var jar, account := workJars[jarId], workAccounts[userId];
      if !InInt64(jar.balance + delta) {
        return STORE_ERROR;
      }
      workJars := workJars[jarId := jar.(balance := jar.balance + delta)];
      if !InInt64(account.balance - delta) {
        return STORE_ERROR;
      }
      workAccounts := workAccounts[userId := account.(balance := account.balance - delta)];
      MoveIntoJarCommits(s0, userId, jarId, delta, workJars, workAccounts);
      jars, accounts := workJars, workAccounts;
      assert Store() == s0.(jars := workJars, accounts := workAccounts);
      response := Response(200, "Transfer succesful");
    }

    /** DELETE /jars/<id>. */
    method DeleteJar(callerId: int, jarId: int) returns (response: Response)
      requires Valid()
      modifies this
      ensures Valid()
      ensures Outcome(response, Store()) == Handlers.DeleteJar(old(Store()), callerId, jarId)
    {
      if callerId == -1 {
        return UNAUTHORIZED;
      }
      if !(jarId in jars && jars[jarId].userId == callerId) {
        return Response(400, "Jar not found");
      }
      var currentJarBalance := jars[jarId].balance;
      var workAccounts := accounts;
      if callerId in workAccounts {
        var account := workAccounts[callerId];
        if !InInt64(account.balance + currentJarBalance) {
          return STORE_ERROR;
        }
        workAccounts := workAccounts[callerId := account.(balance := account.balance + currentJarBalance)];
      }
      var workJars := jars - {jarId};
      accounts, jars := workAccounts, workJars;
      response := Response(200, "Jar deleted");
    }

    /** GET /admintools. */
    method AdminTools(callerId: int) returns (response: Response)
      requires Valid()
      ensures response == Handlers.AdminTools(Store(), callerId)
    {
      if callerId == -1 {
        return UNAUTHORIZED;
      }
      if callerId !in accounts {
        return STORE_ERROR;
      }
      var accessRightsUser := accounts[callerId].accessRights;
      if accessRightsUser != ADMIN_RIGHTS {
        return Response(403, NOT_ADMIN);
      }
      response := Response(200, "You have successfully logged into AdminTools");
    }

    /** PATCH /users/<username>: ban or unban the named account. */
    method PatchUser(callerId: int, username: string, isBanned: Option<bool>,
                     reason: Option<string>, unbanReason: Option<string>) returns (response: Response)
      requires Valid()
      modifies this
      ensures Valid()
      ensures Outcome(response, Store()) == Handlers.PatchUser(old(Store()), callerId, username, isBanned, reason, unbanReason)
    {
      if callerId == -1 {
        return UNAUTHORIZED;
      }
      if callerId !in accounts {
        return STORE_ERROR;
      }
      var accessRightsUser := accounts[callerId].accessRights;
      if accessRightsUser != ADMIN_RIGHTS {
        return Response(400, NOT_ADMIN);
      }
      var target := SelectIdByName(username);
      if target.None? {
        return Response(404, "User with this username not found");
      }
      var work := accounts;
      if isBanned.Some? {
        var shouldBan := isBanned.value;
        work := map id | id in work ::
                  if work[id].username == username then BanState(work[id], shouldBan, reason, unbanReason)
                  else work[id];
      }
      accounts := work;
      response := Response(200, "Done");
    }
  }
}
