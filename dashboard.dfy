/**
 * The state of the dashboard: the list the server answered, which the dashboard updates
 * itself after an add (the new record goes at the end) or a delete, and the totals over
 * the whole list.
 */
module Dashboard {
  import opened Wrappers
  import opened Seqs
  import opened Ledger

  /** A record put at the end adds its amount to the total of its kind. */
  lemma AppendTotals(s: seq<Transaction>, x: Transaction)
    ensures Totals(s + [x]) ==
      if x.kind == Debit then Summary(Totals(s).totalDebits + x.amount, Totals(s).totalCredits, Totals(s).balance - x.amount)
      else if x.kind == Credit then Summary(Totals(s).totalDebits, Totals(s).totalCredits + x.amount, Totals(s).balance + x.amount)
      else Totals(s)
  {
    TotalsConcat(s, [x]);
    TotalsSingle(x);
  }

  /** Where the new record goes does not change the totals: the dashboard and the transactions page agree. */
  lemma AppendOrPrependTotals(s: seq<Transaction>, x: Transaction)
    ensures Totals(s + [x]) == Totals([x] + s)
  {
    assert multiset(s + [x]) == multiset([x] + s);
    TotalsPermutation(s + [x], [x] + s);
  }

  /** Removing the one record with an id takes its amount off the total of its kind. */
  lemma DeleteTotals(s: seq<Transaction>, i: nat)
    requires i < |s|
    requires forall j :: 0 <= j < |s| && j != i ==> s[j].id != s[i].id
    ensures AddSummaries(Totals(WithoutId(s, s[i].id)), Totals([s[i]])) == Totals(s)
  {
    WithoutUniqueId(s, i);
    var rest := s[..i] + s[i + 1..];
    assert multiset(rest + [s[i]]) == multiset(s) by {
      assert s == s[..i] + [s[i]] + s[i + 1..];
    }
    TotalsConcat(rest, [s[i]]);
    TotalsPermutation(rest + [s[i]], s);
  }

  /** The dashboard's list state. */
  class DashboardState {
    var transactions: seq<Transaction>
    var loading: bool

    /** `useState([])`, `useState(true)`. */
    constructor()
      ensures transactions == [] && loading
    {
      transactions := [];
      loading := true;
    }

    /** `fetchTransactions`: the server's list replaces the list, unless the request failed (`None`). */
    method FetchTransactions(response: Option<seq<Transaction>>)
      modifies this
      ensures transactions == if response.Some? then response.value else old(transactions)
      ensures !loading
    {
      if response.Some? {
        transactions := response.value;
      }
      loading := false;
    }

    /** `handleAddTransaction`: the record the server answered goes at the end; a failed request changes nothing. */
    method HandleAddTransaction(response: Option<Transaction>)
      modifies this
      ensures transactions == if response.Some? then old(transactions) + [response.value] else old(transactions)
      ensures loading == old(loading)
    {
      if response.Some? {
        transactions := transactions + [response.value];
      }
    }

    /** `handleDeleteTransaction`: after the server deleted, every record with the id goes; a failed request changes nothing. */
    method HandleDeleteTransaction(id: string, deleted: bool)
      modifies this
      ensures transactions == if deleted then WithoutId(old(transactions), id) else old(transactions)
      ensures loading == old(loading)
    {
      if deleted {
        transactions := Filter(transactions, IdIsNot(id));
      }
    }

    /** The summary cards: `totalDebits`, `totalCredits` and `balance` over the whole list. */
    function DashboardTotals(): (r: Summary)
      reads this
      ensures r.balance == r.totalCredits - r.totalDebits
    {
      Totals(transactions)
    }
  }
}
