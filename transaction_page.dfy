/**
 * The state of the transactions page: the list the server answered, which the page updates
 * itself after an add (the new record goes in front) or a delete, the tab that filters the
 * list by kind, and the totals over the filtered list.
 */
module TransactionPage {
  import opened Wrappers
  import opened Seqs
  import opened Ledger

  /** The page's tabs: `'all' | 'debit' | 'credit'`. */
  datatype Tab = AllTab | DebitTab | CreditTab

  /** `t => activeTab === 'all' || t.type === activeTab` */
  function TabMatches(tab: Tab): Transaction -> bool
  {
    match tab
    case AllTab => (t: Transaction) => true
    case DebitTab => KindIs(Debit)
    case CreditTab => KindIs(Credit)
  }

  /** `filteredTransactions`: the records the tab shows, in list order. */
  function TabFilter(s: seq<Transaction>, tab: Tab): seq<Transaction>
  {
    Filter(s, TabMatches(tab))
  }

  /** The `'all'` tab shows the whole list unchanged. */
  lemma {:induction false} AllTabKeepsList(s: seq<Transaction>)
    ensures TabFilter(s, AllTab) == s
  {
    if s != [] {
      assert s == [s[0]] + s[1..];
      AllTabKeepsList(s[1..]);
    }
  }

  /**
   * The `'debit'` and `'credit'` tabs show each record of their kind as often as it occurs
   * and no other record, and keep the list's order piecewise.
   */
  lemma KindTabContents(s: seq<Transaction>, tab: Tab, x: Transaction)
    requires tab != AllTab
    ensures multiset(TabFilter(s, tab))[x] ==
      if x.kind == (if tab == DebitTab then Debit else Credit) then multiset(s)[x] else 0
    ensures x in TabFilter(s, tab) <==> x in s && x.kind == (if tab == DebitTab then Debit else Credit)
  {
    FilterCount(s, TabMatches(tab), x);
  }

  /** A tab shows the records of two lists one after the other as it shows each list. */
  lemma TabFilterConcat(a: seq<Transaction>, b: seq<Transaction>, tab: Tab)
    ensures TabFilter(a + b, tab) == TabFilter(a, tab) + TabFilter(b, tab)
  {
    FilterConcat(a, b, TabMatches(tab));
  }

  /** `totalDebits`, `totalCredits` and `balance` over the filtered list. */
  function TabTotals(s: seq<Transaction>, tab: Tab): (r: Summary)
    ensures r.balance == r.totalCredits - r.totalDebits
  {
    Totals(TabFilter(s, tab))
  }

  /**
   * The totals of a tab: on `'all'` those of the whole list; on `'debit'` the debits with no
   * credits; on `'credit'` the credits with no debits.
   */
  lemma TabTotalsByTab(s: seq<Transaction>)
    ensures TabTotals(s, AllTab) == Totals(s)
    ensures TabTotals(s, DebitTab) == Summary(Totals(s).totalDebits, 0, -Totals(s).totalDebits)
    ensures TabTotals(s, CreditTab) == Summary(0, Totals(s).totalCredits, Totals(s).totalCredits)
  {
    AllTabKeepsList(s);
    OneKind(s, Debit, Credit);
    OneKind(s, Credit, Debit);
  }

  /** Records of one kind, filtered again by that kind, stay; filtered by another kind, go. */
  lemma OneKind(s: seq<Transaction>, kind: string, other: string)
    requires kind != other
    ensures Filter(Filter(s, KindIs(kind)), KindIs(kind)) == Filter(s, KindIs(kind))
    ensures Filter(Filter(s, KindIs(kind)), KindIs(other)) == []
  {
    var f := Filter(s, KindIs(kind));
    forall x | x in f
      ensures KindIs(kind)(x) && !KindIs(other)(x)
    {
    }
    FilterKeepsAll(f, KindIs(kind));
    FilterDropsAll(f, KindIs(other));
  }

  /** After a record is put in front, a tab's totals grow by that record's share. */
  lemma PrependTotals(x: Transaction, s: seq<Transaction>, tab: Tab)
    ensures TabTotals([x] + s, tab) == AddSummaries(TabTotals([x], tab), TabTotals(s, tab))
  {
    TabFilterConcat([x], s, tab);
    TotalsConcat(TabFilter([x], tab), TabFilter(s, tab));
  }

  /** The page's list state. */
  class TransactionPageState {
    var transactions: seq<Transaction>
    var loading: bool
    var activeTab: Tab

    /** `useState([])`, `useState(true)`, `useState('all')`. */
    constructor()
      ensures transactions == [] && loading && activeTab == AllTab
    {
      transactions := [];
      loading := true;
      activeTab := AllTab;
    }

    /** `fetchTransactions`: the server's list replaces the list, unless the request failed (`None`). */
    method FetchTransactions(response: Option<seq<Transaction>>)
      modifies this
      ensures transactions == if response.Some? then response.value else old(transactions)
      ensures !loading && activeTab == old(activeTab)
    {
      if response.Some? {
        transactions := response.value;
      }
      loading := false;
    }

    /** `handleAddTransaction`: the record the server answered goes in front; a failed request changes nothing. */
    method HandleAddTransaction(response: Option<Transaction>)
      modifies this
      ensures transactions == if response.Some? then [response.value] + old(transactions) else old(transactions)
      ensures loading == old(loading) && activeTab == old(activeTab)
    {
      if response.Some? {
        transactions := [response.value] + transactions;
      }
    }

    /** `handleDeleteTransaction`: after the server deleted, every record with the id goes; a failed request changes nothing. */
    method HandleDeleteTransaction(id: string, deleted: bool)
      modifies this
      ensures transactions == if deleted then WithoutId(old(transactions), id) else old(transactions)
      ensures loading == old(loading) && activeTab == old(activeTab)
    {
      if deleted {
        transactions := Filter(transactions, IdIsNot(id));
      }
    }

    /** `setActiveTab`. */
    method SetActiveTab(tab: Tab)
      modifies this
      ensures activeTab == tab
      ensures transactions == old(transactions) && loading == old(loading)
    {
      activeTab := tab;
    }

    /** `filteredTransactions`. */
    function FilteredTransactions(): seq<Transaction>
      reads this
    {
      TabFilter(transactions, activeTab)
    }

    /** The summary cards: `totalDebits`, `totalCredits` and `balance` over the filtered list. */
    function PageTotals(): (r: Summary)
      reads this
      ensures r.balance == r.totalCredits - r.totalDebits
    {
      TabTotals(transactions, activeTab)
    }
  }
}
