/**
 * The three tables the handlers read and write: `bank` (accounts), `jars` and
 * `transactions`, with the row shapes of `models.h` plus the columns the queries name.
 */
module Tables {
  import opened Base

  /** A row of `bank`. */
  datatype Account = Account(
    username: string,
    passwordHash: string,
    balance: Int64,
    isBanned: bool,
    banReason: string,
    unbanReason: string,
    accessRights: string)

  /** A row of `jars`. */
  datatype Jar = Jar(
    userId: int,
    balance: Int64,
    name: string,
    target: string,
    accumulation: Int64,
    image: string)

  /** A row of `transactions`; its serial id is its position in the log plus one. */
  datatype TransferRow = TransferRow(senderId: int, receiverId: int, amount: Int64)

  /**
   * The database. `nextAccountId` and `nextJarId` are the serial sequences that hand
   * out new ids.
   */
  datatype Store = Store(
    accounts: map<int, Account>,
    jars: map<int, Jar>,
    transactions: seq<TransferRow>,
    nextAccountId: int,
    nextJarId: int)

  /** Column defaults of `bank` that the INSERT in the register route leaves to the schema. */
  datatype Defaults = Defaults(
    balance: Int64,
    isBanned: bool,
    banReason: string,
    unbanReason: string,
    accessRights: string)

  ghost predicate UniqueUsernames(accounts: map<int, Account>) {
    forall i, j :: i in accounts && j in accounts && accounts[i].username == accounts[j].username ==> i == j
  }

  /**
   * What the schema and the handlers keep true: usernames are unique, serial ids are
   * fresh, every jar has an owner and every logged transfer names two existing accounts
   * and a positive amount. No route deletes a `bank` row, so the references stay valid.
   */
  ghost predicate WellFormed(s: Store) {
    && UniqueUsernames(s.accounts)
    && (forall id :: id in s.accounts ==> id < s.nextAccountId)
    && (forall jid :: jid in s.jars ==> jid < s.nextJarId && s.jars[jid].userId in s.accounts)
    && (forall k :: 0 <= k < |s.transactions| ==>
          && s.transactions[k].senderId in s.accounts
          && s.transactions[k].receiverId in s.accounts
          && s.transactions[k].senderId != s.transactions[k].receiverId
          && s.transactions[k].amount > 0)
  }

  /** `SELECT id FROM bank WHERE username = $1`: the matching row's id, if any. */
  ghost function IdByName(accounts: map<int, Account>, name: string): (r: Option<int>)
    ensures r.Some? ==> r.value in accounts && accounts[r.value].username == name
    ensures r.None? ==> forall id :: id in accounts ==> accounts[id].username != name
  {
    if exists id :: id in accounts && accounts[id].username == name then
      Some(var id :| id in accounts && accounts[id].username == name; id)
    else
      None
  }

  /** With unique usernames the lookup finds exactly the row that carries the name. */
  lemma IdByNameUnique(accounts: map<int, Account>, id: int)
    requires UniqueUsernames(accounts) && id in accounts
    ensures IdByName(accounts, accounts[id].username) == Some(id)
  {
  }

  /** `jars WHERE user_id = $1 AND id = $2` is non-empty. */
  predicate OwnsJar(jars: map<int, Jar>, userId: int, jarId: int) {
    jarId in jars && jars[jarId].userId == userId
  }

  /** Two account rows that differ at most in their balance. */
  ghost predicate SameExceptBalance(a: Account, b: Account) {
    a == b.(balance := a.balance)
  }

  /** Two jar rows that differ at most in their balance. */
  ghost predicate SameJarExceptBalance(a: Jar, b: Jar) {
    a == b.(balance := a.balance)
  }

  /** Every account and every jar holds a non-negative balance. */
  ghost predicate NonNegative(s: Store) {
    && (forall id :: id in s.accounts ==> s.accounts[id].balance >= 0)
    && (forall jid :: jid in s.jars ==> s.jars[jid].balance >= 0)
  }

  // ---- sums of balances ----

  ghost function Sum(m: map<int, int>): int
    decreases |m|
  {
    if exists k :: k in m then
      var k :| k in m;
      m[k] + Sum(m - {k})
    else
      0
  }

  /** Any key can be taken out first: the sum does not depend on the order of the keys. */
  lemma {:induction false} SumRemove(m: map<int, int>, k: int)
    requires k in m
    ensures Sum(m) == m[k] + Sum(m - {k})
    decreases |m|
  {
    var j :| j in m && Sum(m) == m[j] + Sum(m - {j});
    if j != k {
      SumRemove(m - {j}, k);
      SumRemove(m - {k}, j);
      assert m - {j} - {k} == m - {k} - {j};
    }
  }

  lemma SumUpdate(m: map<int, int>, k: int, v: int)
    requires k in m
    ensures Sum(m[k := v]) == Sum(m) - m[k] + v
  {
    SumRemove(m[k := v], k);
    SumRemove(m, k);
    assert m[k := v] - {k} == m - {k};
  }

  lemma SumInsert(m: map<int, int>, k: int, v: int)
    requires k !in m
    ensures Sum(m[k := v]) == Sum(m) + v
  {
    SumRemove(m[k := v], k);
    assert m[k := v] - {k} == m;
  }

  ghost function Balances(accounts: map<int, Account>): (b: map<int, int>)
    ensures b.Keys == accounts.Keys
  {
    map id | id in accounts :: accounts[id].balance as int
  }

  ghost function JarBalances(jars: map<int, Jar>): (b: map<int, int>)
    ensures b.Keys == jars.Keys
  {
    map jid | jid in jars :: jars[jid].balance as int
  }

  /** All money in the system: every account balance plus every jar balance. */
  ghost function Money(s: Store): int {
    Sum(Balances(s.accounts)) + Sum(JarBalances(s.jars))
  }

  lemma BalancesUpdate(accounts: map<int, Account>, id: int, a: Account)
    requires id in accounts
    ensures Sum(Balances(accounts[id := a])) == Sum(Balances(accounts)) - accounts[id].balance + a.balance
  {
    assert Balances(accounts[id := a]) == Balances(accounts)[id := a.balance as int];
    SumUpdate(Balances(accounts), id, a.balance);
  }

  lemma BalancesInsert(accounts: map<int, Account>, id: int, a: Account)
    requires id !in accounts
    ensures Sum(Balances(accounts[id := a])) == Sum(Balances(accounts)) + a.balance
  {
    assert Balances(accounts[id := a]) == Balances(accounts)[id := a.balance as int];
    SumInsert(Balances(accounts), id, a.balance);
  }

  lemma JarBalancesUpdate(jars: map<int, Jar>, jid: int, j: Jar)
    requires jid in jars
    ensures Sum(JarBalances(jars[jid := j])) == Sum(JarBalances(jars)) - jars[jid].balance + j.balance
  {
    assert JarBalances(jars[jid := j]) == JarBalances(jars)[jid := j.balance as int];
    SumUpdate(JarBalances(jars), jid, j.balance);
  }

  lemma JarBalancesInsert(jars: map<int, Jar>, jid: int, j: Jar)
    requires jid !in jars
    ensures Sum(JarBalances(jars[jid := j])) == Sum(JarBalances(jars)) + j.balance
  {
    assert JarBalances(jars[jid := j]) == JarBalances(jars)[jid := j.balance as int];
    SumInsert(JarBalances(jars), jid, j.balance);
  }

  lemma JarBalancesRemove(jars: map<int, Jar>, jid: int)
    requires jid in jars
    ensures Sum(JarBalances(jars - {jid})) == Sum(JarBalances(jars)) - jars[jid].balance
  {
    assert JarBalances(jars - {jid}) == JarBalances(jars) - {jid};
    SumRemove(JarBalances(jars), jid);
  }

  /** Rewriting account rows without touching any balance leaves the account total unchanged. */
  lemma BalancesSame(before: map<int, Account>, after: map<int, Account>)
    requires before.Keys == after.Keys
    requires forall id :: id in before ==> before[id].balance == after[id].balance
    ensures Sum(Balances(after)) == Sum(Balances(before))
  {
    assert forall id :: id in after ==> Balances(after)[id] == Balances(before)[id];
    assert Balances(after) == Balances(before);
  }
}
