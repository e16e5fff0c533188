/** The remote document store as the scheduled-item manager sees it:
    collections addressed by path, documents with generated ids, and
    writes (`addDoc`, `deleteDoc`) that may fail. A failure leaves the
    store as it was. */
module FutureStore {
  import opened Calendar
  import opened Ledger
  import opened Wrappers

  /** A scheduled bill or income: `{description, amount, date, status, userId}`. */
  datatype FutureItem = FutureItem(description: string, amount: int, date: Date, status: string, userId: Option<string>)

  /** A document of a scheduled-item collection: `{ id: doc.id, ...doc.data() }`. */
  datatype FutureDoc = FutureDoc(id: nat, item: FutureItem)

  /** A ledger document written by a confirmation. */
  datatype LedgerEntry = LedgerEntry(tx: Tx, userId: Option<string>, originalDueDate: Date, confirmedFromFuture: bool)

  /** The collection with document `id` removed. */
  function Without(docs: seq<FutureDoc>, id: nat): (r: seq<FutureDoc>)
    ensures forall d :: d in r <==> d in docs && d.id != id
    ensures |r| <= |docs|
    decreases |docs|
  {
    if docs == [] then []
    else
      assert docs == Init(docs) + [Last(docs)];
      if Last(docs).id == id then Without(Init(docs), id) else Without(Init(docs), id) + [Last(docs)]
  }

  class Store {
    var futures: map<string, seq<FutureDoc>>
    var ledgers: map<string, seq<LedgerEntry>>
    var nextId: nat

    /** The documents at `path` (an absent collection reads as empty). */
    function Futures(path: string): seq<FutureDoc>
      reads this
    {
      if path in futures then futures[path] else []
    }

    function Entries(path: string): seq<LedgerEntry>
      reads this
    {
      if path in ledgers then ledgers[path] else []
    }

    /** Every id handed out so far is below `nextId`. */
    ghost predicate Valid()
      reads this
    {
      forall p :: p in futures ==> forall d :: d in futures[p] ==> d.id < nextId
    }

    constructor()
      ensures Valid() && futures == map[] && ledgers == map[]
    {
      futures, ledgers, nextId := map[], map[], 0;
    }

    /** `addDoc` on a scheduled-item collection: on success the item is
        appended under a fresh id. */
    method AddFuture(path: string, item: FutureItem) returns (ok: bool, id: nat)
      requires Valid()
      modifies this
      ensures Valid()
      ensures ok ==> id == old(nextId) && nextId == old(nextId) + 1
      ensures ok ==> futures == old(futures)[path := old(Futures(path)) + [FutureDoc(id, item)]]
      ensures ok ==> forall d :: d in old(Futures(path)) ==> d.id != id
      ensures ok ==> ledgers == old(ledgers)
      ensures !ok ==> unchanged(this)
    {
      ok :| true;
      id := nextId;
      if ok {
        futures := futures[path := Futures(path) + [FutureDoc(id, item)]];
        nextId := nextId + 1;
      }
    }

    /** `addDoc` on a ledger collection. */
    method AddEntry(path: string, entry: LedgerEntry) returns (ok: bool)
      requires Valid()
      modifies this
      ensures Valid()
      ensures ok ==> ledgers == old(ledgers)[path := old(Entries(path)) + [entry]]
      ensures ok ==> futures == old(futures) && nextId == old(nextId)
      ensures !ok ==> unchanged(this)
    {
      ok :| true;
      if ok {
        ledgers := ledgers[path := Entries(path) + [entry]];
      }
    }

    /** `deleteDoc`: on success no document with that id is left at `path`. */
    method DeleteFuture(path: string, id: nat) returns (ok: bool)
      requires Valid()
      modifies this
      ensures Valid()
      ensures ok ==> futures == old(futures)[path := Without(old(Futures(path)), id)]
      ensures ok ==> ledgers == old(ledgers) && nextId == old(nextId)
      ensures !ok ==> unchanged(this)
    {
      ok :| true;
      if ok {
        futures := futures[path := Without(Futures(path), id)];
      }
    }
  }
}
