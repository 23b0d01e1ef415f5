/** The account list and the handlers that change it (`createAccount`, `deleteAccount`,
    `switchAccount`, `updateAccountHistory` and the target-saving effect). Each handler is a
    function from the old state to the new one. */
module Accounts {
  import opened Seqs
  import opened Ledger
  import JsText

  /** An account; `targetPoints` is the target as typed, `""` when unset. */
  datatype Account = Account(id: string, name: string, pointsHistory: seq<DailyPoint>, targetPoints: string)

  /** The account list and the id of the account being edited (`""` before one is chosen). */
  datatype Session = Session(accounts: seq<Account>, currentId: string)

  /** `accounts.find(acc => acc.id === id)`. */
  function Find(accounts: seq<Account>, id: string): (r: Option<Account>)
    ensures r.None? <==> forall k :: 0 <= k < |accounts| ==> accounts[k].id != id
    ensures r.Some? ==> exists k :: 0 <= k < |accounts| && accounts[k] == r.value && r.value.id == id
                                    && forall k' :: 0 <= k' < k ==> accounts[k'].id != id
  {
    if |accounts| == 0 then None
    else if accounts[0].id == id then Some(accounts[0])
    else
      assert forall k :: 1 <= k < |accounts| ==> accounts[k] == accounts[1..][k - 1];
      var r := Find(accounts[1..], id);
      if r.Some? then
        ghost var k :| 0 <= k < |accounts[1..]| && accounts[1..][k] == r.value && r.value.id == id
                       && forall k' :: 0 <= k' < k ==> accounts[1..][k'].id != id;
        assert accounts[k + 1] == r.value;
        r
      else r
  }

  /** The account being edited: the first one whose id is the current id. */
  function CurrentAccount(s: Session): Option<Account> {
    Find(s.accounts, s.currentId)
  }

  /** `createAccount`: a blank name is ignored; otherwise an account with the trimmed name,
      no history and no target is appended and becomes current. The id is supplied by the caller. */
  function CreateAccount(s: Session, name: string, newId: string): (r: Session)
    ensures (forall k :: 0 <= k < |name| ==> JsText.IsWhiteSpace(name[k])) ==> r == s
    ensures (exists k :: 0 <= k < |name| && !JsText.IsWhiteSpace(name[k])) ==>
              && |r.accounts| == |s.accounts| + 1
              && r.accounts[..|s.accounts|] == s.accounts
              && r.accounts[|s.accounts|] == Account(newId, JsText.Trim(name), [], "")
              && JsText.Trim(name) != []
              && r.currentId == newId
  {
    JsText.TrimEmptyIffBlank(name);
    if JsText.Trim(name) == [] then s
    else Session(s.accounts + [Account(newId, JsText.Trim(name), [], "")], newId)
  }

  /** A fresh account becomes the account being edited, with an empty ledger. */
  lemma CreatedAccountIsCurrent(s: Session, name: string, newId: string)
    requires exists k :: 0 <= k < |name| && !JsText.IsWhiteSpace(name[k])
    requires forall k :: 0 <= k < |s.accounts| ==> s.accounts[k].id != newId
    ensures CurrentAccount(CreateAccount(s, name, newId)) == Some(Account(newId, JsText.Trim(name), [], ""))
  {
    var r := CreateAccount(s, name, newId);
    assert forall k :: 0 <= k < |s.accounts| ==> r.accounts[k] == s.accounts[k];
  }

  /** How many accounts carry the id. */
  function CountId(accounts: seq<Account>, id: string): (n: nat)
    ensures n <= |accounts|
  {
    if |accounts| == 0 then 0
    else (if accounts[0].id == id then 1 else 0) + CountId(accounts[1..], id)
  }

  /** `accounts.filter(account => account.id !== id)`. */
  function Without(accounts: seq<Account>, id: string): (r: seq<Account>)
    ensures forall a :: a in r <==> a in accounts && a.id != id
    ensures |r| == |accounts| - CountId(accounts, id)
  {
    if |accounts| == 0 then []
    else
      assert accounts == [accounts[0]] + accounts[1..];
      (if accounts[0].id == id then [] else [accounts[0]]) + Without(accounts[1..], id)
  }

  /** `filter` keeps order: filtering a concatenation concatenates the filtered parts. */
  lemma {:induction false} WithoutAppend(a: seq<Account>, b: seq<Account>, id: string)
    ensures Without(a + b, id) == Without(a, id) + Without(b, id)
  {
    if |a| > 0 {
      var head := if a[0].id == id then [] else [a[0]];
      assert (a + b)[0] == a[0] && (a + b)[1..] == a[1..] + b;
      assert Without(a + b, id) == head + Without(a[1..] + b, id);
      assert Without(a, id) == head + Without(a[1..], id);
      WithoutAppend(a[1..], b, id);
      assert head + (Without(a[1..], id) + Without(b, id)) == (head + Without(a[1..], id)) + Without(b, id);
    } else {
      assert a + b == b;
    }
  }

  /** `filter` on one account: kept exactly when its id differs. */
  lemma WithoutSingle(a: Account, id: string)
    ensures Without([a], id) == if a.id == id then [] else [a]
  {
    assert [a][1..] == [];
  }

  /** The index of the first account whose id differs, or the length when there is none. */
  function FirstOther(accounts: seq<Account>, id: string): (k: nat)
    ensures k <= |accounts|
    ensures forall k' :: 0 <= k' < k ==> accounts[k'].id == id
    ensures k < |accounts| ==> accounts[k].id != id
  {
    if |accounts| == 0 || accounts[0].id != id then 0
    else
      var k := FirstOther(accounts[1..], id);
      assert forall k' :: 1 <= k' <= k ==> accounts[k'] == accounts[1..][k' - 1];
      k + 1
  }

  /** The first account `filter` keeps is the first one in the list whose id differs. */
  lemma {:induction false} WithoutHead(accounts: seq<Account>, id: string)
    requires |Without(accounts, id)| > 0
    ensures FirstOther(accounts, id) < |accounts|
    ensures Without(accounts, id)[0] == accounts[FirstOther(accounts, id)]
  {
    var tail := accounts[1..];
    if accounts[0].id == id {
      assert Without(accounts, id) == Without(tail, id);
      WithoutHead(tail, id);
      assert FirstOther(accounts, id) == FirstOther(tail, id) + 1;
    } else {
      assert Without(accounts, id) == [accounts[0]] + Without(tail, id);
    }
  }

  /** Reading `updatedAccounts[0].id` of an empty list throws. */
  datatype AccountError = NoAccountLeft

  /** `deleteAccount`: refused (with an alert) while at most one account exists; otherwise every
      account with the id goes, and if it was the current one the first remaining account
      becomes current. When nothing remains the source reads the id of `undefined` and throws. */
  function DeleteAccount(s: Session, id: string): (r: Result<Session, AccountError>)
    ensures |s.accounts| <= 1 ==> r == Ok(s)
    ensures |s.accounts| > 1 ==>
              (r.Err? <==> id == s.currentId && forall k :: 0 <= k < |s.accounts| ==> s.accounts[k].id == id)
    ensures |s.accounts| > 1 && r.Ok? ==>
              && r.value.accounts == Without(s.accounts, id)
              && (forall a :: a in r.value.accounts <==> a in s.accounts && a.id != id)
              && |r.value.accounts| == |s.accounts| - CountId(s.accounts, id)
              && (id != s.currentId ==> r.value.currentId == s.currentId)
              && (id == s.currentId ==> r.value.currentId == r.value.accounts[0].id)
    ensures |s.accounts| > 1 && r.Ok? && id == s.currentId ==>
              exists k :: && 0 <= k < |s.accounts| && s.accounts[k].id != id
                          && r.value.currentId == s.accounts[k].id
                          && forall k' :: 0 <= k' < k ==> s.accounts[k'].id == id
  {
    if |s.accounts| <= 1 then Ok(s)
    else
      var remaining := Without(s.accounts, id);
      if id == s.currentId then
        if |remaining| == 0 then
          assert forall k :: 0 <= k < |s.accounts| ==> s.accounts[k] !in remaining;
          Err(NoAccountLeft)
        else
          WithoutHead(s.accounts, id);
          Ok(Session(remaining, remaining[0].id))
      else Ok(Session(remaining, s.currentId))
  }

  predicate DistinctIds(accounts: seq<Account>) {
    forall i, j :: 0 <= i < j < |accounts| ==> accounts[i].id != accounts[j].id
  }

  lemma {:induction false} CountDistinct(accounts: seq<Account>, id: string)
    requires DistinctIds(accounts)
    ensures CountId(accounts, id) <= 1
  {
    if |accounts| > 0 {
      CountDistinct(accounts[1..], id);
      if accounts[0].id == id {
        assert forall k :: 0 <= k < |accounts[1..]| ==> accounts[1..][k].id != id by {
          forall k | 0 <= k < |accounts[1..]|
            ensures accounts[1..][k].id != id
          {
            assert accounts[1..][k] == accounts[k + 1];
          }
        }
        CountAbsent(accounts[1..], id);
      }
    }
  }

  lemma {:induction false} CountAbsent(accounts: seq<Account>, id: string)
    requires forall k :: 0 <= k < |accounts| ==> accounts[k].id != id
    ensures CountId(accounts, id) == 0
  {
    if |accounts| > 0 {
      CountAbsent(accounts[1..], id);
    }
  }

  /** With distinct ids the list never empties: deleting from a non-empty list succeeds and
      leaves at least one account. */
  lemma DeleteKeepsAnAccount(s: Session, id: string)
    requires |s.accounts| >= 1
    requires DistinctIds(s.accounts)
    ensures DeleteAccount(s, id).Ok?
    ensures |DeleteAccount(s, id).value.accounts| >= 1
  {
    CountDistinct(s.accounts, id);
    if |s.accounts| > 1 {
      assert s.accounts[0].id != s.accounts[1].id;
    }
  }

  /** `switchAccount`: an id no account has is ignored; otherwise that account becomes current. */
  function SwitchAccount(s: Session, id: string): (r: Session)
    ensures r.accounts == s.accounts
    ensures (forall k :: 0 <= k < |s.accounts| ==> s.accounts[k].id != id) ==> r == s
    ensures (exists k :: 0 <= k < |s.accounts| && s.accounts[k].id == id) ==>
              r.currentId == id && CurrentAccount(r).Some? && CurrentAccount(r).value.id == id
  {
    if Find(s.accounts, id).Some? then Session(s.accounts, id) else s
  }

  /** Every account whose id matches rewritten by `edit`; the rest kept (`accounts.map(...)`). */
  function ReplaceMatching(accounts: seq<Account>, id: string, edit: Account -> Account): (r: seq<Account>)
    ensures |r| == |accounts|
    ensures forall k :: 0 <= k < |r| ==> r[k] == if accounts[k].id == id then edit(accounts[k]) else accounts[k]
  {
    seq(|accounts|, k requires 0 <= k < |accounts| =>
      if accounts[k].id == id then edit(accounts[k]) else accounts[k])
  }

  /** `updateAccountHistory`: with a current account, every account with the current id gets the
      new history and keeps its id, name and target; the others are untouched. */
  function UpdateAccountHistory(s: Session, history: seq<DailyPoint>): (r: Session)
    ensures r.currentId == s.currentId && |r.accounts| == |s.accounts|
    ensures s.currentId == [] ==> r == s
    ensures s.currentId != [] ==> forall k :: 0 <= k < |s.accounts| ==>
              && r.accounts[k].id == s.accounts[k].id
              && r.accounts[k].name == s.accounts[k].name
              && r.accounts[k].targetPoints == s.accounts[k].targetPoints
              && r.accounts[k].pointsHistory ==
                   if s.accounts[k].id == s.currentId then history else s.accounts[k].pointsHistory
  {
    if s.currentId == [] then s
    else Session(ReplaceMatching(s.accounts, s.currentId, (a: Account) => a.(pointsHistory := history)), s.currentId)
  }

  /** The effect at lines 202-212: a non-empty target is saved on the current account only.
      Clearing the target saves nothing. */
  function UpdateAccountTarget(s: Session, target: string): (r: Session)
    ensures r.currentId == s.currentId && |r.accounts| == |s.accounts|
    ensures s.currentId == [] || target == [] ==> r == s
    ensures s.currentId != [] && target != [] ==> forall k :: 0 <= k < |s.accounts| ==>
              && r.accounts[k].id == s.accounts[k].id
              && r.accounts[k].name == s.accounts[k].name
              && r.accounts[k].pointsHistory == s.accounts[k].pointsHistory
              && r.accounts[k].targetPoints ==
                   if s.accounts[k].id == s.currentId then target else s.accounts[k].targetPoints
  {
    if s.currentId == [] || target == [] then s
    else Session(ReplaceMatching(s.accounts, s.currentId, (a: Account) => a.(targetPoints := target)), s.currentId)
  }

  /** After a history update, the account being edited shows that history. */
  lemma UpdatedHistoryIsCurrent(s: Session, history: seq<DailyPoint>)
    requires s.currentId != []
    requires CurrentAccount(s).Some?
    ensures CurrentAccount(UpdateAccountHistory(s, history)).Some?
    ensures CurrentAccount(UpdateAccountHistory(s, history)).value.pointsHistory == history
  {
    var r := UpdateAccountHistory(s, history);
    var k :| 0 <= k < |s.accounts| && s.accounts[k].id == s.currentId;
    assert r.accounts[k].id == s.currentId;
  }

  /** Two history updates in a row leave what the second alone would. */
  lemma UpdateHistoryLastWins(s: Session, h1: seq<DailyPoint>, h2: seq<DailyPoint>)
    ensures UpdateAccountHistory(UpdateAccountHistory(s, h1), h2) == UpdateAccountHistory(s, h2)
  {
    var a := UpdateAccountHistory(UpdateAccountHistory(s, h1), h2);
    var b := UpdateAccountHistory(s, h2);
    assert a.accounts == b.accounts;
  }

  /** After a non-empty target is saved, the account being edited shows that target. */
  lemma UpdatedTargetIsCurrent(s: Session, target: string)
    requires s.currentId != [] && target != []
    requires CurrentAccount(s).Some?
    ensures CurrentAccount(UpdateAccountTarget(s, target)).Some?
    ensures CurrentAccount(UpdateAccountTarget(s, target)).value.targetPoints == target
  {
    var r := UpdateAccountTarget(s, target);
    var k :| 0 <= k < |s.accounts| && s.accounts[k].id == s.currentId;
    assert r.accounts[k].id == s.currentId;
  }

  /** Of two saved targets the second wins; clearing the field afterwards keeps the first. */
  lemma UpdateTargetLastWins(s: Session, t1: string, t2: string)
    ensures t2 != [] ==> UpdateAccountTarget(UpdateAccountTarget(s, t1), t2) == UpdateAccountTarget(s, t2)
    ensures t2 == [] ==> UpdateAccountTarget(UpdateAccountTarget(s, t1), t2) == UpdateAccountTarget(s, t1)
  {
    var a := UpdateAccountTarget(UpdateAccountTarget(s, t1), t2);
    var b := UpdateAccountTarget(s, t2);
    if t2 != [] {
      assert a.accounts == b.accounts;
    }
  }
}
