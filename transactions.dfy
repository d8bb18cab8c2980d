/**
 * The transactions routes: the per-user list, the validated insert with its defaults, and
 * the delete guarded by an ownership check, over the `transactions` table held in memory.
 * The fresh id (`randomUUID()`) and the insertion time (`CURRENT_TIMESTAMP`) are parameters.
 */
module TransactionRoutes {
  import opened Wrappers
  import opened Seqs
  import opened Ledger

  /** The JSON body of `POST /`; any field may be missing. */
  datatype AddRequest = AddRequest(
    kind: Option<string>,
    amount: Option<int>,
    description: Option<string>,
    category: Option<string>,
    date: Option<string>,
    paymentMethod: Option<string>)

  datatype AddError =
    | MissingRequiredFields  // 400 'Missing required fields'
    | InsertFailed           // 500 'Failed to add transaction'

  datatype DeleteOutcome =
    | Deleted   // 'Transaction deleted'
    | NotFound  // 404 'Transaction not found'

  /** JavaScript truthiness of an optional text: missing, null and "" are falsy. */
  predicate Truthy(o: Option<string>)
  {
    o.Some? && o.value != ""
  }

  /** JavaScript truthiness of an optional amount: missing, null and 0 are falsy. */
  predicate TruthyAmount(o: Option<int>)
  {
    o.Some? && o.value != 0
  }

  /** `!type || !amount || !description || !date` fails. */
  predicate HasRequiredFields(req: AddRequest)
  {
    Truthy(req.kind) && TruthyAmount(req.amount) && Truthy(req.description) && Truthy(req.date)
  }

  /** `payment_method || 'cash'` */
  function PaymentMethodOrCash(o: Option<string>): string
  {
    if Truthy(o) then o.value else "cash"
  }

  /** `category || null` */
  function CategoryOrNull(o: Option<string>): Option<string>
  {
    if Truthy(o) then o else None
  }

  /** The row the route inserts for a request that passed validation. */
  function NewRow(id: string, userId: string, req: AddRequest, now: string): Transaction
    requires HasRequiredFields(req)
  {
    Transaction(id, Some(userId), req.kind.value, req.amount.value, req.description.value,
      CategoryOrNull(req.category), Some(PaymentMethodOrCash(req.paymentMethod)), req.date.value, Some(now))
  }

  /** The JSON the route answers with: the submitted fields as given, the payment method defaulted. */
  function AddResponse(id: string, req: AddRequest): Transaction
    requires HasRequiredFields(req)
  {
    Transaction(id, None, req.kind.value, req.amount.value, req.description.value,
      req.category, Some(PaymentMethodOrCash(req.paymentMethod)), req.date.value, None)
  }

  /**
   * The answer echoes what was stored: the same id, type, amount, description, date and
   * payment method, which is "cash" whenever none was given. The category is stored as
   * given when it is non-empty and as NULL otherwise, while the answer repeats it as submitted.
   */
  lemma AddResponseMatchesRow(id: string, userId: string, req: AddRequest, now: string)
    requires HasRequiredFields(req)
    ensures var row, resp := NewRow(id, userId, req, now), AddResponse(id, req);
      row.id == resp.id == id && row.kind == resp.kind && row.amount == resp.amount != 0 &&
      row.description == resp.description && row.date == resp.date &&
      row.paymentMethod == resp.paymentMethod &&
      (resp.paymentMethod == Some("cash") <==> !Truthy(req.paymentMethod) || req.paymentMethod == Some("cash")) &&
      (row.category == None <==> !Truthy(req.category)) &&
      (Truthy(req.category) ==> row.category == resp.category) &&
      row.userId == Some(userId) && row.createdAt == Some(now)
  {
  }

  predicate IdInUse(s: seq<Transaction>, id: string)
  {
    exists i :: 0 <= i < |s| && s[i].id == id
  }

  /** `SELECT * FROM transactions WHERE id = ? AND user_id = ?` finds a row. */
  predicate Owns(s: seq<Transaction>, userId: string, id: string)
  {
    exists i :: 0 <= i < |s| && s[i].id == id && s[i].userId == Some(userId)
  }

  /** Removing one row keeps the ids distinct and the required columns filled in. */
  lemma RemovalKeepsKeys(s: seq<Transaction>, i: nat)
    requires i < |s|
    requires forall j, k :: 0 <= j < k < |s| ==> s[j].id != s[k].id
    requires forall j :: 0 <= j < |s| ==> s[j].userId.Some? && s[j].createdAt.Some?
    ensures var r := s[..i] + s[i + 1..];
      (forall j, k :: 0 <= j < k < |r| ==> r[j].id != r[k].id) &&
      (forall j :: 0 <= j < |r| ==> r[j].userId.Some? && r[j].createdAt.Some?)
  {
    var r := s[..i] + s[i + 1..];
    assert forall j :: 0 <= j < |r| ==> r[j] == if j < i then s[j] else s[j + 1];
  }

  /** The `transactions` table: its rows in insertion order. */
  class TransactionTable {
    var rows: seq<Transaction>

    /** `id` is the primary key; `user_id` is NOT NULL and `created_at` always filled in. */
    ghost predicate Valid()
      reads this
    {
      (forall i, j :: 0 <= i < j < |rows| ==> rows[i].id != rows[j].id) &&
      (forall i :: 0 <= i < |rows| ==> rows[i].userId.Some? && rows[i].createdAt.Some?)
    }

    constructor()
      ensures rows == [] && Valid()
    {
      rows := [];
    }

    /** `GET /`: `SELECT * FROM transactions WHERE user_id = ? ORDER BY date DESC`. */
    method List(userId: string) returns (result: seq<Transaction>)
      ensures multiset(result) == multiset(Filter(rows, OwnedBy(userId)))
      ensures forall i :: 0 <= i < |result| ==> result[i].userId == Some(userId)
      ensures SortedDesc(result, DateKey)
    {
      var mine := Filter(rows, OwnedBy(userId));
      result := OrderByDesc(mine, DateKey);
      OrderByDescSorted(mine, DateKey);
      forall i | 0 <= i < |result|
        ensures result[i].userId == Some(userId)
      {
        assert result[i] in multiset(mine);
        assert result[i] in mine;
        assert OwnedBy(userId)(result[i]);
      }
    }

    /**
     * `POST /`: rejects a request missing a required field; otherwise inserts the row under
     * the fresh id, unless that id is taken and the insert fails, and answers with the record.
     */
    method Add(userId: string, req: AddRequest, newId: string, now: string) returns (r: Result<Transaction, AddError>)
      requires Valid()
      modifies this
      ensures Valid()
      ensures !HasRequiredFields(req) ==> r == Failure(MissingRequiredFields) && rows == old(rows)
      ensures HasRequiredFields(req) && IdInUse(old(rows), newId) ==> r == Failure(InsertFailed) && rows == old(rows)
      ensures HasRequiredFields(req) && !IdInUse(old(rows), newId) ==>
        r == Success(AddResponse(newId, req)) && rows == old(rows) + [NewRow(newId, userId, req, now)]
    {
      if !HasRequiredFields(req) {
        return Failure(MissingRequiredFields);
      }
      if IdInUse(rows, newId) {
        return Failure(InsertFailed);
      }
      rows := rows + [NewRow(newId, userId, req, now)];
      r := Success(AddResponse(newId, req));
    }

    /**
     * `DELETE /:id`: answers "not found" unless the caller owns a row with that id, and
     * then deletes every row with that id, which the primary key makes exactly one.
     */
    method Delete(userId: string, id: string) returns (outcome: DeleteOutcome)
      requires Valid()
      modifies this
      ensures Valid()
      ensures outcome == Deleted <==> Owns(old(rows), userId, id)
      ensures outcome == NotFound ==> rows == old(rows)
      ensures outcome == Deleted ==> rows == WithoutId(old(rows), id)
      ensures outcome == Deleted ==>
        (exists i :: 0 <= i < |old(rows)| && old(rows)[i].id == id && rows == old(rows)[..i] + old(rows)[i + 1..])
    {
      if !Owns(rows, userId, id) {
        return NotFound;
      }
      var i :| 0 <= i < |rows| && rows[i].id == id && rows[i].userId == Some(userId);
      WithoutUniqueId(rows, i);
      ghost var before := rows;
      rows := WithoutId(rows, id);
      RemovalKeepsKeys(before, i);
      outcome := Deleted;
    }
  }
}
