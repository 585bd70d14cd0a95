/** Properties of the route handlers that relate the store before and after, or several requests. */
module LedgerProps {
  import opened Base
  import opened Tables
  import opened Handlers

  // ---- money ----

  /** A transfer's two balance changes cancel out in the total. */
  lemma TransferredConservesMoney(before: Store, after: Store, from: int, to: int, amount: Int64)
    requires Transferred(before, after, from, to, amount)
    ensures Money(after) == Money(before)
  {
    var mid := before.accounts[from := after.accounts[from]];
    BalancesUpdate(before.accounts, from, after.accounts[from]);
    BalancesUpdate(mid, to, after.accounts[to]);
    assert forall id :: id in after.accounts ==> after.accounts[id] == mid[to := after.accounts[to]][id];
    assert after.accounts == mid[to := after.accounts[to]];
  }

  /** A jar move changes one account and one jar by opposite amounts. */
  lemma JarMovedConservesMoney(before: Store, after: Store, userId: int, jarId: int, delta: int)
    requires JarMoved(before, after, userId, jarId, delta)
    ensures Money(after) == Money(before)
    ensures after.accounts[userId].balance + after.jars[jarId].balance
         == before.accounts[userId].balance + before.jars[jarId].balance
  {
    BalancesUpdate(before.accounts, userId, after.accounts[userId]);
    assert forall id :: id in after.accounts ==> after.accounts[id] == before.accounts[userId := after.accounts[userId]][id];
    assert after.accounts == before.accounts[userId := after.accounts[userId]];
    JarBalancesUpdate(before.jars, jarId, after.jars[jarId]);
    assert forall jid :: jid in after.jars ==> after.jars[jid] == before.jars[jarId := after.jars[jarId]][jid];
    assert after.jars == before.jars[jarId := after.jars[jarId]];
  }

  lemma TransferConservesMoney(s: Store, callerId: int, receiverName: string, amount: Int64)
    ensures Money(Transfer(s, callerId, receiverName, amount).post) == Money(s)
  {
    var r := Transfer(s, callerId, receiverName, amount);
    if r.response.code == 200 {
      TransferredConservesMoney(s, r.post, callerId, IdByName(s.accounts, receiverName).value, amount);
    }
  }

  lemma JarTransactionConservesMoney(s: Store, callerId: int, jarId: int, kind: string, amount: Int64)
    ensures Money(JarTransaction(s, callerId, jarId, kind, amount).post) == Money(s)
  {
    var r := JarTransaction(s, callerId, jarId, kind, amount);
    if r.response.code == 200 {
      JarMovedConservesMoney(s, r.post, callerId, jarId, if kind == DEPOSIT then amount as int else -(amount as int));
    }
  }

  /** Deleting a jar hands its whole balance back to the owner: nothing is lost. */
  lemma DeleteJarConservesMoney(s: Store, callerId: int, jarId: int)
    requires WellFormed(s)
    ensures Money(DeleteJar(s, callerId, jarId).post) == Money(s)
  {
    var r := DeleteJar(s, callerId, jarId);
    if r.response.code == 200 {
      assert callerId in s.accounts;
      BalancesUpdate(s.accounts, callerId, r.post.accounts[callerId]);
      assert r.post.accounts == s.accounts[callerId := r.post.accounts[callerId]];
      JarBalancesRemove(s.jars, jarId);
    }
  }

  /** A new jar starts empty. */
  lemma CreateJarConservesMoney(s: Store, callerId: int, name: string, target: string, accumulation: Int64,
                                image: Option<string>)
    requires WellFormed(s)
    ensures Money(CreateJar(s, callerId, name, target, accumulation, image).post) == Money(s)
  {
    var r := CreateJar(s, callerId, name, target, accumulation, image);
    if r.response.code == 201 {
      JarBalancesInsert(s.jars, s.nextJarId, r.post.jars[s.nextJarId]);
      assert r.post.jars == s.jars[s.nextJarId := r.post.jars[s.nextJarId]];
    }
  }

  /** Banning and unbanning never touch a balance. */
  lemma PatchUserConservesMoney(s: Store, callerId: int, username: string, isBanned: Option<bool>,
                                reason: Option<string>, unbanReason: Option<string>)
    ensures Money(PatchUser(s, callerId, username, isBanned, reason, unbanReason).post) == Money(s)
  {
    var r := PatchUser(s, callerId, username, isBanned, reason, unbanReason);
    if r.response.code == 200 && isBanned.Some? {
      BalancesSame(s.accounts, r.post.accounts);
    }
  }

  /** Registration is the only route that brings money in: the schema's default balance. */
  lemma RegisterAddsDefaultBalance(s: Store, d: Defaults, username: string, password: string)
    requires WellFormed(s)
    ensures var r := Register(s, d, username, password);
            Money(r.post) == Money(s) + (if r.response.code == 201 then d.balance as int else 0)
  {
    var r := Register(s, d, username, password);
    if r.response.code == 201 {
      BalancesInsert(s.accounts, s.nextAccountId, r.post.accounts[s.nextAccountId]);
      assert r.post.accounts == s.accounts[s.nextAccountId := r.post.accounts[s.nextAccountId]];
    }
  }

  // ---- non-negative balances ----

  lemma TransferKeepsNonNegative(s: Store, callerId: int, receiverName: string, amount: Int64)
    requires NonNegative(s)
    ensures NonNegative(Transfer(s, callerId, receiverName, amount).post)
  {
  }

  /** With a non-negative amount neither the jar nor the account can go below zero. */
  lemma JarTransactionKeepsNonNegative(s: Store, callerId: int, jarId: int, kind: string, amount: Int64)
    requires NonNegative(s) && amount >= 0
    ensures NonNegative(JarTransaction(s, callerId, jarId, kind, amount).post)
  {
    var r := JarTransaction(s, callerId, jarId, kind, amount);
    if r.response.code == 200 {
      var delta := if kind == DEPOSIT then amount as int else -(amount as int);
      assert forall jid :: jid in r.post.jars && jid != jarId ==> r.post.jars[jid] == s.jars[jid];
      assert forall id :: id in r.post.accounts && id != callerId ==> r.post.accounts[id] == s.accounts[id];
    }
  }

  /**
   * The jar route never checks that the amount is positive: a withdrawal of -5 from an
   * empty jar is accepted and leaves the owner's account at -5.
   */
  lemma NegativeWithdrawOverdraws()
    ensures var owner := Account("ann", "x_some_secret_method", 0, false, "", "", "user");
            var s := Store(map[1 := owner], map[7 := Jar(1, 0, "trip", "sea", 0, DEFAULT_JAR_IMAGE)], [], 2, 8);
            var r := JarTransaction(s, 1, 7, WITHDRAW, -5);
            && WellFormed(s) && NonNegative(s)
            && r.response == Response(200, "Transfer succesful")
            && r.post.accounts[1].balance == -5 && r.post.jars[7].balance == 5
  {
  }

  lemma DeleteJarKeepsNonNegative(s: Store, callerId: int, jarId: int)
    requires NonNegative(s)
    ensures NonNegative(DeleteJar(s, callerId, jarId).post)
  {
  }

  lemma CreateJarKeepsNonNegative(s: Store, callerId: int, name: string, target: string, accumulation: Int64,
                                  image: Option<string>)
    requires NonNegative(s) && WellFormed(s)
    ensures NonNegative(CreateJar(s, callerId, name, target, accumulation, image).post)
  {
  }

  // ---- transfer: order of the checks ----

  /** A non-positive amount is refused before the store is consulted: the answer does not depend on it. */
  lemma TransferAmountCheckedBeforeLookup(s1: Store, s2: Store, callerId: int, name1: string, name2: string, amount: Int64)
    requires callerId != -1 && amount <= 0
    ensures Transfer(s1, callerId, name1, amount).response == Transfer(s2, callerId, name2, amount).response
                                                          == Response(400, "Amount must be positive")
  {
  }

  /** The receiver's checks come first. A 404 happens exactly when no account has the receiver's name. */
  lemma TransferReceiverMissing(s: Store, callerId: int, receiverName: string, amount: Int64)
    requires callerId != -1 && amount > 0
    ensures Transfer(s, callerId, receiverName, amount).response == Response(404, "Receiver not found")
        <==> IdByName(s.accounts, receiverName).None?
  {
    var r := Transfer(s, callerId, receiverName, amount).response;
    if IdByName(s.accounts, receiverName).Some? {
      assert r.code != 404;
    }
  }

  /** A transfer to oneself is refused exactly when the receiver's name is the caller's own. */
  lemma TransferToSelf(s: Store, callerId: int, receiverName: string, amount: Int64)
    requires callerId != -1 && amount > 0
    ensures Transfer(s, callerId, receiverName, amount).response == Response(400, "Cannot transfer money to yourself")
        <==> IdByName(s.accounts, receiverName) == Some(callerId)
  {
    var rid := IdByName(s.accounts, receiverName);
    var r := Transfer(s, callerId, receiverName, amount).response;
    if rid.None? {
      assert r.code == 404;
    } else if rid.value != callerId {
      assert r.code != 400 || r.message != "Cannot transfer money to yourself";
    }
  }

  /** A banned receiver is reported exactly when the name is someone else's and that account is banned. */
  lemma TransferToBannedReceiver(s: Store, callerId: int, receiverName: string, amount: Int64)
    requires callerId != -1 && amount > 0
    ensures var rid := IdByName(s.accounts, receiverName);
            Transfer(s, callerId, receiverName, amount).response
              == Response(400, "Receiver is banned! You cannot complete the transaction")
            <==> rid.Some? && rid.value != callerId && s.accounts[rid.value].isBanned
  {
    var rid := IdByName(s.accounts, receiverName);
    var r := Transfer(s, callerId, receiverName, amount).response;
    var banned := Response(400, "Receiver is banned! You cannot complete the transaction");
    if rid.None? {
      assert r.code == 404;
    } else if rid.value == callerId {
      assert r.message == "Cannot transfer money to yourself";
    } else if !s.accounts[rid.value].isBanned {
      // each of the sender's checks, and the commit, answers with something else
      if callerId !in s.accounts {
        assert r != banned;
      } else if s.accounts[callerId].balance < amount {
        assert r != banned;
      } else if s.accounts[callerId].isBanned {
        assert r != banned;
      } else {
        assert r != banned;
      }
    }
  }

  /** A receiver that passes its checks: the request is acceptable. */
  ghost predicate ReceiverAccepted(s: Store, callerId: int, receiverName: string) {
    var rid := IdByName(s.accounts, receiverName);
    rid.Some? && rid.value != callerId && !s.accounts[rid.value].isBanned
  }

  /**
   * With the receiver accepted, the sender's checks decide: each response happens exactly
   * when its check is the first to fail, and 200 exactly when all pass and the credit fits.
   */
  lemma TransferSenderOutcomes(s: Store, callerId: int, receiverName: string, amount: Int64)
    requires callerId != -1 && amount > 0 && ReceiverAccepted(s, callerId, receiverName)
    ensures var r := Transfer(s, callerId, receiverName, amount).response;
            var rid := IdByName(s.accounts, receiverName);
            && (r == Response(401, "Sender not found") <==> callerId !in s.accounts)
            && (r == Response(400, "Insufficient funds") <==>
                  callerId in s.accounts && s.accounts[callerId].balance < amount)
            && (r == Response(400, "You are blocked! You cannot preform transactions") <==>
                  callerId in s.accounts && s.accounts[callerId].balance >= amount && s.accounts[callerId].isBanned)
            && (r.code == 200 <==>
                  callerId in s.accounts && s.accounts[callerId].balance >= amount && !s.accounts[callerId].isBanned
                  && InInt64(s.accounts[rid.value].balance + amount))
  {
    var rid := IdByName(s.accounts, receiverName);
    var r := Transfer(s, callerId, receiverName, amount).response;
    if callerId !in s.accounts {
      assert r == Response(401, "Sender not found");
    } else if s.accounts[callerId].balance < amount {
      assert r == Response(400, "Insufficient funds");
    } else if s.accounts[callerId].isBanned {
      assert r == Response(400, "You are blocked! You cannot preform transactions");
    } else if !InInt64(s.accounts[rid.value].balance + amount) {
      assert r == STORE_ERROR;
    } else {
      assert r.code == 200;
    }
  }

  /**
   * A request whose receiver fails its checks is answered by one of the receiver's three
   * responses, with no change: none of the sender's checks runs.
   */
  lemma TransferNeedsAcceptedReceiver(s: Store, callerId: int, receiverName: string, amount: Int64)
    requires callerId != -1 && amount > 0 && !ReceiverAccepted(s, callerId, receiverName)
    ensures var r := Transfer(s, callerId, receiverName, amount);
            && r.post == s
            && (r.response == Response(404, "Receiver not found")
                || r.response == Response(400, "Cannot transfer money to yourself")
                || r.response == Response(400, "Receiver is banned! You cannot complete the transaction"))
  {
  }

  /** A banned sender without enough money is told about the money, not about the ban. */
  lemma FundsCheckedBeforeSenderBan(s: Store, callerId: int, receiverName: string, amount: Int64)
    requires callerId in s.accounts && callerId != -1 && amount > 0
    requires IdByName(s.accounts, receiverName).Some?
    requires IdByName(s.accounts, receiverName).value != callerId
    requires !s.accounts[IdByName(s.accounts, receiverName).value].isBanned
    requires s.accounts[callerId].isBanned && s.accounts[callerId].balance < amount
    ensures Transfer(s, callerId, receiverName, amount) == Outcome(Response(400, "Insufficient funds"), s)
  {
  }

  /** A sender with 100 who sends 150 is refused and keeps 100. */
  lemma OverdraftRefused(s: Store, callerId: int, receiverName: string)
    requires callerId in s.accounts && callerId != -1 && s.accounts[callerId].balance == 100
    requires IdByName(s.accounts, receiverName).Some?
    requires IdByName(s.accounts, receiverName).value != callerId
    requires !s.accounts[IdByName(s.accounts, receiverName).value].isBanned
    ensures var r := Transfer(s, callerId, receiverName, 150);
            r.response == Response(400, "Insufficient funds") && r.post.accounts[callerId].balance == 100
  {
  }

  // ---- registration and login ----

  /** The stored credential determines the password. */
  lemma PasswordHashInjective(p: string, q: string)
    requires PasswordHash(p) == PasswordHash(q)
    ensures p == q
  {
    assert p == PasswordHash(p)[..|p|];
    assert q == PasswordHash(q)[..|q|];
  }

  /** Login succeeds exactly when some account has the name and the derived string of the password. */
  lemma LoginSucceedsIff(s: Store, username: string, password: string)
    requires UniqueUsernames(s.accounts)
    ensures Login(s, username, password).response.code == 200 <==>
            exists id :: id in s.accounts && s.accounts[id].username == username
                         && s.accounts[id].passwordHash == PasswordHash(password)
  {
    if exists id :: id in s.accounts && s.accounts[id].username == username
                    && s.accounts[id].passwordHash == PasswordHash(password) {
      var id :| id in s.accounts && s.accounts[id].username == username
                && s.accounts[id].passwordHash == PasswordHash(password);
      IdByNameUnique(s.accounts, id);
    }
  }

  /** An account just registered can log in with the same password and gets its new id. */
  lemma RegisterThenLogin(s: Store, d: Defaults, username: string, password: string)
    requires WellFormed(s)
    requires Register(s, d, username, password).response.code == 201
    ensures Login(Register(s, d, username, password).post, username, password)
         == LoginResult(Response(200, "success"), Some(s.nextAccountId))
  {
    var t := Register(s, d, username, password).post;
    IdByNameUnique(t.accounts, s.nextAccountId);
  }

  /** The second registration of a name gets 409, changes nothing, and one row holds the name. */
  lemma RegisterTwice(s: Store, d: Defaults, username: string, p1: string, p2: string)
    requires WellFormed(s)
    requires Register(s, d, username, p1).response.code == 201
    ensures var t := Register(s, d, username, p1).post;
            var u := Register(t, d, username, p2);
            && u.response.code == 409 && u.post == t
            && (set id | id in u.post.accounts && u.post.accounts[id].username == username) == {s.nextAccountId}
  {
    var t := Register(s, d, username, p1).post;
    IdByNameUnique(t.accounts, s.nextAccountId);
    assert IdByName(s.accounts, username).None?;
  }

  // ---- admin ----

  /** Under unique usernames the ban changes the target's row and no other. */
  lemma PatchUserChangesOnlyTarget(s: Store, callerId: int, username: string, ban: bool,
                                   reason: Option<string>, unbanReason: Option<string>)
    requires UniqueUsernames(s.accounts)
    requires PatchUser(s, callerId, username, Some(ban), reason, unbanReason).response.code == 200
    ensures var t := PatchUser(s, callerId, username, Some(ban), reason, unbanReason).post;
            var target := IdByName(s.accounts, username).value;
            && t.accounts[target] == BanState(s.accounts[target], ban, reason, unbanReason)
            && (forall id :: id in s.accounts && id != target ==> t.accounts[id] == s.accounts[id])
  {
    var target := IdByName(s.accounts, username).value;
    IdByNameUnique(s.accounts, target);
  }

  /** A caller who is not an admin changes nothing, whatever the request asks. */
  lemma NonAdminPatchRefused(s: Store, callerId: int, username: string, isBanned: Option<bool>,
                             reason: Option<string>, unbanReason: Option<string>)
    requires callerId in s.accounts && callerId != -1 && s.accounts[callerId].accessRights != ADMIN_RIGHTS
    ensures PatchUser(s, callerId, username, isBanned, reason, unbanReason)
         == Outcome(Response(400, NOT_ADMIN), s)
    ensures AdminTools(s, callerId) == Response(403, NOT_ADMIN)
  {
  }

  // ---- jar operations: order of the checks ----

  /** The ban check's answer wins over the jar-not-found answer, whatever the jar. */
  lemma JarBanBeforeNotFound(s: Store, callerId: int, jarId: int, kind: string, amount: Int64)
    requires callerId in s.accounts && callerId != -1 && s.accounts[callerId].isBanned
    ensures JarTransaction(s, callerId, jarId, kind, amount)
         == Outcome(Response(400, "You are blocked! You cannot conduct transactions with jars"), s)
  {
  }

  /** An operation type other than the two known ones is refused once the jar is found. */
  lemma JarWrongMethod(s: Store, callerId: int, jarId: int, kind: string, amount: Int64)
    requires callerId in s.accounts && callerId != -1 && !s.accounts[callerId].isBanned
    requires OwnsJar(s.jars, callerId, jarId) && kind != WITHDRAW && kind != DEPOSIT
    ensures JarTransaction(s, callerId, jarId, kind, amount) == Outcome(Response(400, "Wrong method"), s)
  {
  }

  /**
   * Each response of a jar operation happens exactly when its check is the first to
   * fail, in the route's order: ban, jar lookup, the kind's funds check, the kind itself,
   * then the two UPDATEs.
   */
  lemma JarTransactionOutcomes(s: Store, callerId: int, jarId: int, kind: string, amount: Int64)
    requires callerId != -1 && callerId in s.accounts
    ensures var r := JarTransaction(s, callerId, jarId, kind, amount).response;
            var banned := s.accounts[callerId].isBanned;
            var owns := OwnsJar(s.jars, callerId, jarId);
            && (r == Response(400, "You are blocked! You cannot conduct transactions with jars") <==> banned)
            && (r == Response(404, "Jar not found") <==> !banned && !owns)
            && (r == Response(400, "Insufficient fund in the jar") <==>
                  !banned && owns && kind == WITHDRAW && s.jars[jarId].balance < amount)
            && (r == Response(400, "Insufficient funds on your balance") <==>
                  !banned && owns && kind == DEPOSIT && s.accounts[callerId].balance < amount)
            && (r == Response(400, "Wrong method") <==> !banned && owns && kind != WITHDRAW && kind != DEPOSIT)
            && (r == STORE_ERROR <==>
                  && !banned && owns
                  && ((&& kind == WITHDRAW && s.jars[jarId].balance >= amount
                       && !(InInt64(s.jars[jarId].balance - amount) && InInt64(s.accounts[callerId].balance + amount)))
                      || (&& kind == DEPOSIT && s.accounts[callerId].balance >= amount
                          && !(InInt64(s.jars[jarId].balance + amount) && InInt64(s.accounts[callerId].balance - amount)))))
  {
  }

  /** Withdrawing exactly the jar's balance empties the jar and is accepted. */
  lemma WithdrawWholeJar(s: Store, callerId: int, jarId: int)
    requires callerId != -1 && callerId in s.accounts && !s.accounts[callerId].isBanned
    requires OwnsJar(s.jars, callerId, jarId)
    requires InInt64(s.accounts[callerId].balance + s.jars[jarId].balance)
    ensures var r := JarTransaction(s, callerId, jarId, WITHDRAW, s.jars[jarId].balance);
            && r.response == Response(200, "Transfer succesful")
            && r.post.jars[jarId].balance == 0
            && r.post.accounts[callerId].balance == s.accounts[callerId].balance + s.jars[jarId].balance
  {
  }

  /** Deleting does not look at the ban flag. */
  lemma DeleteJarIgnoresBan(s: Store, callerId: int, jarId: int)
    requires callerId != -1 && callerId in s.accounts && OwnsJar(s.jars, callerId, jarId)
    requires InInt64(s.accounts[callerId].balance + s.jars[jarId].balance)
    ensures DeleteJar(s, callerId, jarId).response == Response(200, "Jar deleted")
    ensures DeleteJar(s.(accounts := s.accounts[callerId := s.accounts[callerId].(isBanned := true)]), callerId, jarId).response
         == Response(200, "Jar deleted")
  {
  }

  // ---- transaction history ----

  ghost predicate StrictlyDecreasing(ix: seq<nat>) {
    forall p, q :: 0 <= p < q < |ix| ==> ix[p] > ix[q]
  }

  /** The selected positions are strictly decreasing: newest first. */
  lemma {:induction false} HistoryIndicesDescending(ts: seq<TransferRow>, accounts: map<int, Account>, userId: int)
    ensures StrictlyDecreasing(HistoryIndices(ts, accounts, userId))
    decreases |ts|
  {
    if |ts| > 0 {
      var last := |ts| - 1;
      var tail := HistoryIndices(ts[..last], accounts, userId);
      HistoryIndicesDescending(ts[..last], accounts, userId);
      assert forall k :: 0 <= k < |tail| ==> tail[k] < last;
      var head: seq<nat> := if InHistory(ts[last], accounts, userId) then [last] else [];
      var ix := head + tail;
      assert HistoryIndices(ts, accounts, userId) == ix;
      forall p, q | 0 <= p < q < |ix| ensures ix[p] > ix[q] {
        if p < |head| {
          assert ix[p] == last && ix[q] == tail[q - |head|];
        } else {
          assert ix[p] == tail[p - |head|] && ix[q] == tail[q - |head|];
        }
      }
    }
  }

  /** Every transfer the query's WHERE and JOINs accept is among the selected positions. */
  lemma {:induction false} HistoryIndicesComplete(ts: seq<TransferRow>, accounts: map<int, Account>, userId: int, i: nat)
    requires i < |ts| && InHistory(ts[i], accounts, userId)
    ensures i in HistoryIndices(ts, accounts, userId)
    decreases |ts|
  {
    var last := |ts| - 1;
    if i != last {
      assert ts[..last][i] == ts[i];
      HistoryIndicesComplete(ts[..last], accounts, userId, i);
    }
  }

  /**
   * The limit keeps the newest transfers: a transfer of the user is listed, or fifty
   * rows are listed and all of them are newer.
   */
  lemma HistoryKeepsNewest(ts: seq<TransferRow>, accounts: map<int, Account>, userId: int, i: nat)
    requires i < |ts| && InHistory(ts[i], accounts, userId)
    ensures var ix := HistoryIndices(ts, accounts, userId);
            var n := |HistoryRows(ts, accounts, userId)|;
            || (exists k :: 0 <= k < n && ix[k] == i)
            || (n == HISTORY_LIMIT && forall k :: 0 <= k < n ==> ix[k] > i)
  {
    var ix := HistoryIndices(ts, accounts, userId);
    HistoryIndicesComplete(ts, accounts, userId, i);
    HistoryIndicesDescending(ts, accounts, userId);
    var m :| 0 <= m < |ix| && ix[m] == i;
  }

  /** In a well-formed store the joins drop nothing: the history is every transfer the user took part in. */
  lemma HistoryIsEveryTransferOfUser(s: Store, userId: int, i: nat)
    requires WellFormed(s) && i < |s.transactions|
    ensures InHistory(s.transactions[i], s.accounts, userId) <==>
            s.transactions[i].senderId == userId || s.transactions[i].receiverId == userId
  {
  }

  /** After a transfer the sender's history starts with it, as an outgoing row to the receiver. */
  lemma TransferHeadsSenderHistory(s: Store, callerId: int, receiverName: string, amount: Int64)
    requires Transfer(s, callerId, receiverName, amount).response.code == 200
    ensures var t := Transfer(s, callerId, receiverName, amount).post;
            var rows := HistoryRows(t.transactions, t.accounts, callerId);
            && |rows| > 0
            && rows[0] == HistoryRow(amount, s.accounts[callerId].username,
                                     s.accounts[IdByName(s.accounts, receiverName).value].username, callerId)
  {
    var t := Transfer(s, callerId, receiverName, amount).post;
    var last := |t.transactions| - 1;
    assert t.transactions[last] == TransferRow(callerId, IdByName(s.accounts, receiverName).value, amount);
    assert HistoryIndices(t.transactions, t.accounts, callerId)[0] == last;
  }
}
