/** `FutureTransactionsManager`: the signed-in user's scheduled bills and
    incomes. Two local lists mirror two remote collections through snapshot
    listeners; adding, deleting and confirming write to the store and leave
    the lists to the next snapshot. */
module Scheduled {
  import opened Calendar
  import opened Ledger
  import opened Wrappers
  import opened FutureStore

  /** `if (this.userId)`: JavaScript truthiness of the id. */
  predicate HasUser(userId: Option<string>) {
    userId.Some? && userId.value != ""
  }

  function ExpensesPath(uid: string): string {
    "users/" + uid + "/futureExpenses"
  }

  function IncomesPath(uid: string): string {
    "users/" + uid + "/futureIncomes"
  }

  /** The ledger path of the template literal; a null id prints as "null". */
  function LedgerPath(userId: Option<string>): string {
    "users/" + (if userId.Some? then userId.value else "null") + "/transactions"
  }

  /** In due-date order, as the listener queries deliver them. */
  predicate ByDueDate(docs: seq<FutureDoc>) {
    forall i :: 0 < i < |docs| ==> OnOrBefore(docs[i - 1].item.date, docs[i].item.date)
  }

  /** The ledger entry a confirmation writes: the item's description and
      amount, dated today, in the item's direction, remembering the due date. */
  function ConfirmedEntry(item: FutureItem, kind: string, today: Date, userId: Option<string>): (e: LedgerEntry)
    ensures e.tx.description == item.description && e.tx.amount == item.amount && e.tx.date == today
    ensures e.tx.kind == "expense" || e.tx.kind == "income"
    ensures IsIncome(e.tx) <==> kind != "expense"
    ensures e.originalDueDate == item.date && e.confirmedFromFuture && e.userId == userId
  {
    LedgerEntry(Tx(item.description, item.amount, today, if kind == "expense" then "expense" else "income"),
                userId, item.date, true)
  }

  /** A confirmed item is dated today: the scripts that count a day only
      once it is over do not see it until tomorrow; the one that counts
      today sees its signed amount at once. */
  lemma ConfirmedEntryInBalance(ledger: seq<Tx>, item: FutureItem, kind: string, today: Date, userId: Option<string>)
    ensures Balance(ledger + [ConfirmedEntry(item, kind, today, userId).tx], today, Strict)
            == Balance(ledger, today, Strict)
    ensures Balance(ledger + [ConfirmedEntry(item, kind, today, userId).tx], today, Inclusive)
            == Balance(ledger, today, Inclusive) + (if kind == "expense" then -item.amount else item.amount)
  {
    var tx := ConfirmedEntry(item, kind, today, userId).tx;
    BalanceAppend(ledger, [tx], today, Strict);
    BalanceAppend(ledger, [tx], today, Inclusive);
    assert Init([tx]) == [];
  }

  class FutureTransactionsManager {
    const db: Store
    const userId: Option<string>
    var futureExpenses: seq<FutureDoc>
    var futureIncomes: seq<FutureDoc>
    var futureExpensesRef: Option<string>
    var futureIncomesRef: Option<string>
    /** Whether each listener was registered (its unsubscriber is set). */
    var unsubscribeExpenses: bool
    var unsubscribeIncomes: bool

    /** References exist only for a user and point at that user's
        collections; a list is filled only through its listener, and in
        due-date order. */
    ghost predicate Valid()
      reads this
    {
      && (futureExpensesRef.Some? ==> HasUser(userId) && futureExpensesRef.value == ExpensesPath(userId.value))
      && (futureIncomesRef.Some? ==> HasUser(userId) && futureIncomesRef.value == IncomesPath(userId.value))
      && (unsubscribeExpenses ==> futureExpensesRef.Some?)
      && (unsubscribeIncomes ==> futureIncomesRef.Some?)
      && (!unsubscribeExpenses ==> futureExpenses == [])
      && (!unsubscribeIncomes ==> futureIncomes == [])
      && ByDueDate(futureExpenses) && ByDueDate(futureIncomes)
    }

    /** The collection a type of item goes to: the user's expenses exactly
        for `expense`, the user's incomes for anything else. */
    function RefFor(kind: string): (r: Option<string>)
      reads this
      ensures Valid() && r.Some? ==> HasUser(userId)
      ensures Valid() && r.Some? ==>
        r.value == if kind == "expense" then ExpensesPath(userId.value) else IncomesPath(userId.value)
    {
      if kind == "expense" then futureExpensesRef else futureIncomesRef
    }

    /** `new FutureTransactionsManager(db, userId)`: empty lists, then the
        references and listeners, both only for a user. */
    constructor(db: Store, userId: Option<string>)
      ensures this.db == db && this.userId == userId
      ensures Valid()
      ensures futureExpenses == [] && futureIncomes == []
      ensures futureExpensesRef.Some? <==> HasUser(userId)
      ensures futureIncomesRef.Some? <==> HasUser(userId)
      ensures unsubscribeExpenses <==> HasUser(userId)
      ensures unsubscribeIncomes <==> HasUser(userId)
    {
      this.db := db;
      this.userId := userId;
      futureExpenses, futureIncomes := [], [];
      futureExpensesRef, futureIncomesRef := None, None;
      unsubscribeExpenses, unsubscribeIncomes := false, false;
      new;
      InitializeCollections();
      LoadFutureTransactions();
    }

    /** `initializeCollections`: point both references at the user's
        collections, and only when there is a user. */
    method InitializeCollections()
      requires Valid()
      modifies this
      ensures Valid()
      ensures HasUser(userId) ==>
        futureExpensesRef == Some(ExpensesPath(userId.value)) && futureIncomesRef == Some(IncomesPath(userId.value))
      ensures !HasUser(userId) ==> futureExpensesRef == old(futureExpensesRef) && futureIncomesRef == old(futureIncomesRef)
      ensures futureExpenses == old(futureExpenses) && futureIncomes == old(futureIncomes)
      ensures unsubscribeExpenses == old(unsubscribeExpenses) && unsubscribeIncomes == old(unsubscribeIncomes)
    {
      if HasUser(userId) {
        futureExpensesRef := Some(ExpensesPath(userId.value));
        futureIncomesRef := Some(IncomesPath(userId.value));
      }
    }

    /** `loadFutureTransactions`: register a listener for each collection
        that has a reference. */
    method LoadFutureTransactions()
      requires Valid()
      modifies this
      ensures Valid()
      ensures unsubscribeExpenses == (old(unsubscribeExpenses) || futureExpensesRef.Some?)
      ensures unsubscribeIncomes == (old(unsubscribeIncomes) || futureIncomesRef.Some?)
      ensures futureExpensesRef == old(futureExpensesRef) && futureIncomesRef == old(futureIncomesRef)
      ensures futureExpenses == old(futureExpenses) && futureIncomes == old(futureIncomes)
    {
      if futureExpensesRef.Some? {
        unsubscribeExpenses := true;
      }
      if futureIncomesRef.Some? {
        unsubscribeIncomes := true;
      }
    }

    /** The expense listener: empty the list, then push the snapshot's
        documents in order. The snapshot is the collection in due-date order. */
    method OnExpensesSnapshot(snapshot: seq<FutureDoc>)
      requires Valid() && unsubscribeExpenses
      requires multiset(snapshot) == multiset(db.Futures(futureExpensesRef.value)) && ByDueDate(snapshot)
      modifies this
      ensures Valid()
      ensures futureExpenses == snapshot
      ensures futureExpensesRef.Some? && multiset(futureExpenses) == multiset(db.Futures(futureExpensesRef.value))
      ensures futureIncomes == old(futureIncomes)
      ensures futureExpensesRef == old(futureExpensesRef) && futureIncomesRef == old(futureIncomesRef)
      ensures unsubscribeExpenses == old(unsubscribeExpenses) && unsubscribeIncomes == old(unsubscribeIncomes)
    {
      futureExpenses := [];
      for i := 0 to |snapshot|
        invariant futureExpenses == snapshot[..i]
        invariant futureIncomes == old(futureIncomes)
        invariant futureExpensesRef == old(futureExpensesRef) && futureIncomesRef == old(futureIncomesRef)
        invariant unsubscribeExpenses == old(unsubscribeExpenses) && unsubscribeIncomes == old(unsubscribeIncomes)
      {
        futureExpenses := futureExpenses + [snapshot[i]];
      }
      assert snapshot[..|snapshot|] == snapshot;
    }

    /** The income listener, the same for the other list. */
    method OnIncomesSnapshot(snapshot: seq<FutureDoc>)
      requires Valid() && unsubscribeIncomes
      requires multiset(snapshot) == multiset(db.Futures(futureIncomesRef.value)) && ByDueDate(snapshot)
      modifies this
      ensures Valid()
      ensures futureIncomes == snapshot
      ensures futureIncomesRef.Some? && multiset(futureIncomes) == multiset(db.Futures(futureIncomesRef.value))
      ensures futureExpenses == old(futureExpenses)
      ensures futureExpensesRef == old(futureExpensesRef) && futureIncomesRef == old(futureIncomesRef)
      ensures unsubscribeExpenses == old(unsubscribeExpenses) && unsubscribeIncomes == old(unsubscribeIncomes)
    {
      futureIncomes := [];
      for i := 0 to |snapshot|
        invariant futureIncomes == snapshot[..i]
        invariant futureExpenses == old(futureExpenses)
        invariant futureExpensesRef == old(futureExpensesRef) && futureIncomesRef == old(futureIncomesRef)
        invariant unsubscribeExpenses == old(unsubscribeExpenses) && unsubscribeIncomes == old(unsubscribeIncomes)
      {
        futureIncomes := futureIncomes + [snapshot[i]];
      }
      assert snapshot[..|snapshot|] == snapshot;
    }

    /** `addFutureTransaction`: a pending item for this user, written to the
        expense collection exactly when the type is `expense`. Without a
        reference, or when the write fails, nothing changes. The local
        lists wait for the listener. */
    method AddFutureTransaction(description: string, amount: int, date: Date, kind: string) returns (ok: bool)
      requires Valid() && db.Valid()
      modifies db
      ensures db.Valid()
      ensures RefFor(kind).None? ==> !ok
      ensures ok ==>
        var path := RefFor(kind).value;
        && db.futures == old(db.futures)[path := old(db.Futures(path)) + [FutureDoc(old(db.nextId), FutureItem(description, amount, date, "pending", userId))]]
        && db.ledgers == old(db.ledgers)
      ensures !ok ==> unchanged(db)
    {
      var item := FutureItem(description, amount, date, "pending", userId);
      var collectionRef := RefFor(kind);
      if collectionRef.None? {
        return false;
      }
      var id;
      ok, id := db.AddFuture(collectionRef.value, item);
    }

    /** `deleteFutureTransaction`: ask the store to remove the document; a
        failure is reported to the user and swallowed, so the caller cannot
        tell the outcomes apart. */
    method DeleteFutureTransaction(id: nat, kind: string)
      requires Valid() && db.Valid()
      modifies db
      ensures db.Valid()
      ensures RefFor(kind).None? ==> unchanged(db)
      ensures RefFor(kind).Some? ==>
        || unchanged(db)
        || (&& db.futures == old(db.futures)[RefFor(kind).value := Without(old(db.Futures(RefFor(kind).value)), id)]
            && db.ledgers == old(db.ledgers) && db.nextId == old(db.nextId))
    {
      var collectionRef := RefFor(kind);
      if collectionRef.None? {
        return;
      }
      var ok := db.DeleteFuture(collectionRef.value, id);
    }

    /** `confirmTransaction`: first write the ledger entry, then delete the
        scheduled document. When the ledger write fails nothing is removed;
        when it succeeds the removal may still fail silently, leaving both. */
    method ConfirmTransaction(doc: FutureDoc, kind: string, today: Date) returns (added: bool)
      requires Valid() && db.Valid()
      modifies db
      ensures db.Valid()
      ensures !added ==> unchanged(db)
      ensures added ==>
        db.ledgers == old(db.ledgers)[LedgerPath(userId) := old(db.Entries(LedgerPath(userId))) + [ConfirmedEntry(doc.item, kind, today, userId)]]
      ensures added ==>
        || db.futures == old(db.futures)
        || (RefFor(kind).Some? &&
            db.futures == old(db.futures)[RefFor(kind).value := Without(old(db.Futures(RefFor(kind).value)), doc.id)])
    {
      var entry := ConfirmedEntry(doc.item, kind, today, userId);
      added := db.AddEntry(LedgerPath(userId), entry);
      if added {
        DeleteFutureTransaction(doc.id, kind);
      }
    }

    /** `cleanup`: call each unsubscriber that was set, and only those. */
    method Cleanup() returns (stoppedExpenses: bool, stoppedIncomes: bool)
      requires Valid()
      ensures stoppedExpenses == unsubscribeExpenses && stoppedIncomes == unsubscribeIncomes
      ensures stoppedExpenses || stoppedIncomes ==> HasUser(userId)
    {
      stoppedExpenses := false;
      stoppedIncomes := false;
      if unsubscribeExpenses {
        stoppedExpenses := true;
      }
      if unsubscribeIncomes {
        stoppedIncomes := true;
      }
    }
  }
}
