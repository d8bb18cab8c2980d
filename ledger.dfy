/**
 * The transaction record shared by the server and the client, and the computations both
 * repeat over lists of records: the debit and credit totals with their balance, removal by
 * id, and the `ORDER BY ... DESC` of the server's queries.
 */
module Ledger {
  import opened Wrappers
  import opened Seqs
  import opened Text

  const Debit: string := "debit"
  const Credit: string := "credit"

  /**
   * A transaction. `kind` is the `type` column, free text in the table although the client
   * only ever sends "debit" or "credit"; `amount` is in minor units. `userId` and
   * `createdAt` are present on rows read from the table and absent from the record the
   * add route answers with; `category` and `paymentMethod` may be absent (NULL, undefined).
   */
  datatype Transaction = Transaction(
    id: string,
    userId: Option<string>,
    kind: string,
    amount: int,
    description: string,
    category: Option<string>,
    paymentMethod: Option<string>,
    date: string,
    createdAt: Option<string>)

  /** `t => t.type === kind` */
  function KindIs(kind: string): Transaction -> bool
  {
    (t: Transaction) => t.kind == kind
  }

  /** `WHERE user_id = ?` */
  function OwnedBy(userId: string): Transaction -> bool
  {
    (t: Transaction) => t.userId == Some(userId)
  }

  /** `t => t.id !== id` */
  function IdIsNot(id: string): Transaction -> bool
  {
    (t: Transaction) => t.id != id
  }

  // ---------------------------------------------------------------------------
  // Totals
  // ---------------------------------------------------------------------------

  /** `reduce((sum, t) => sum + t.amount, 0)`: the amounts added from the first record to the last. */
  function SumAmounts(s: seq<Transaction>): int
  {
    if s == [] then 0 else SumAmounts(s[..|s| - 1]) + s[|s| - 1].amount
  }

  datatype Summary = Summary(totalDebits: int, totalCredits: int, balance: int)

  /**
   * The summary every report and both pages show: the debit and credit totals and the
   * balance, credits less debits. Records of any other kind count in neither total.
   */
  function Totals(s: seq<Transaction>): (r: Summary)
    ensures r.balance == r.totalCredits - r.totalDebits
    ensures s == [] ==> r == Summary(0, 0, 0)
  {
    var debits := SumAmounts(Filter(s, KindIs(Debit)));
    var credits := SumAmounts(Filter(s, KindIs(Credit)));
    Summary(debits, credits, credits - debits)
  }

  /** Reference for the balance: one pass adding credits and subtracting debits. */
  function Net(s: seq<Transaction>): int
  {
    if s == [] then 0
    else (if s[0].kind == Credit then s[0].amount else if s[0].kind == Debit then -s[0].amount else 0) + Net(s[1..])
  }

  /** The summary field by field added up. */
  function AddSummaries(a: Summary, b: Summary): Summary
  {
    Summary(a.totalDebits + b.totalDebits, a.totalCredits + b.totalCredits, a.balance + b.balance)
  }

  lemma {:induction false} SumAmountsConcat(a: seq<Transaction>, b: seq<Transaction>)
    ensures SumAmounts(a + b) == SumAmounts(a) + SumAmounts(b)
  {
    if b != [] {
      assert (a + b)[..|a + b| - 1] == a + b[..|b| - 1];
      SumAmountsConcat(a, b[..|b| - 1]);
    } else {
      assert a + b == a;
    }
  }

  /** The totals of two lists placed one after the other are the sums of their totals. */
  lemma TotalsConcat(a: seq<Transaction>, b: seq<Transaction>)
    ensures Totals(a + b) == AddSummaries(Totals(a), Totals(b))
  {
    SumFilterConcat(a, b, KindIs(Debit));
    SumFilterConcat(a, b, KindIs(Credit));
  }

  lemma SumFilterConcat(a: seq<Transaction>, b: seq<Transaction>, p: Transaction -> bool)
    ensures SumAmounts(Filter(a + b, p)) == SumAmounts(Filter(a, p)) + SumAmounts(Filter(b, p))
  {
    FilterConcat(a, b, p);
    SumAmountsConcat(Filter(a, p), Filter(b, p));
  }

  /** A single record counts in the total of its own kind, and in neither if it is of another kind. */
  lemma TotalsSingle(x: Transaction)
    ensures Totals([x]) ==
      if x.kind == Debit then Summary(x.amount, 0, -x.amount)
      else if x.kind == Credit then Summary(0, x.amount, x.amount)
      else Summary(0, 0, 0)
  {
    assert [x][1..] == [];
    var d := Filter([x], KindIs(Debit));
    var c := Filter([x], KindIs(Credit));
    assert d == if x.kind == Debit then [x] else [];
    assert c == if x.kind == Credit then [x] else [];
    assert SumAmounts([x]) == SumAmounts([]) + x.amount;
  }

  /** The balance is the signed sum of the amounts. */
  lemma {:induction false} TotalsNet(s: seq<Transaction>)
    ensures Totals(s).balance == Net(s)
  {
    if s != [] {
      var x, t := s[0], s[1..];
      assert Totals(s).balance == Totals([x]).balance + Totals(t).balance by {
        assert s == [x] + t;
        TotalsConcat([x], t);
      }
      assert Totals([x]).balance == if x.kind == Credit then x.amount else if x.kind == Debit then -x.amount else 0 by {
        TotalsSingle(x);
      }
      TotalsNet(t);
    }
  }

  /** Removing one occurrence of a record subtracts its amount. */
  lemma {:induction false} SumAmountsRemove(s: seq<Transaction>, i: nat)
    requires i < |s|
    ensures SumAmounts(s) == SumAmounts(s[..i] + s[i + 1..]) + s[i].amount
  {
    assert s == s[..i] + [s[i]] + s[i + 1..];
    SumAmountsConcat(s[..i] + [s[i]], s[i + 1..]);
    SumAmountsConcat(s[..i], [s[i]]);
    SumAmountsConcat(s[..i], s[i + 1..]);
    assert [s[i]][..0] == [];
  }

  /** The sum of the amounts does not depend on the order of the records. */
  lemma {:induction false} SumAmountsPermutation(a: seq<Transaction>, b: seq<Transaction>)
    requires multiset(a) == multiset(b)
    ensures SumAmounts(a) == SumAmounts(b)
    decreases |a|
  {
    if a == [] {
      assert |b| == |multiset(b)| == 0;
    } else {
      var n := |a| - 1;
      var x := a[n];
      MultisetRemove(a, n);
      assert a[..n] + a[n + 1..] == a[..n];
      assert x in multiset(b);
      var i :| 0 <= i < |b| && b[i] == x;
      MultisetRemove(b, i);
      SumAmountsPermutation(a[..n], b[..i] + b[i + 1..]);
      SumAmountsRemove(b, i);
    }
  }

  /** The totals do not depend on the order of the records: sorting a selection leaves them alone. */
  lemma TotalsPermutation(a: seq<Transaction>, b: seq<Transaction>)
    requires multiset(a) == multiset(b)
    ensures Totals(a) == Totals(b)
  {
    FilterPermutation(a, b, KindIs(Debit));
    FilterPermutation(a, b, KindIs(Credit));
    SumAmountsPermutation(Filter(a, KindIs(Debit)), Filter(b, KindIs(Debit)));
    SumAmountsPermutation(Filter(a, KindIs(Credit)), Filter(b, KindIs(Credit)));
  }

  // ---------------------------------------------------------------------------
  // Removal by id
  // ---------------------------------------------------------------------------

  /** `transactions.filter(t => t.id !== id)` */
  function WithoutId(s: seq<Transaction>, id: string): seq<Transaction>
  {
    Filter(s, IdIsNot(id))
  }

  /**
   * Removal by id drops every record with that id and keeps every other record as often as
   * it occurred; it works piecewise, so the kept records stay in their order.
   */
  lemma WithoutIdContents(s: seq<Transaction>, id: string, x: Transaction)
    ensures multiset(WithoutId(s, id))[x] == if x.id == id then 0 else multiset(s)[x]
    ensures x in WithoutId(s, id) <==> x in s && x.id != id
  {
    FilterCount(s, IdIsNot(id), x);
  }

  lemma WithoutIdConcat(a: seq<Transaction>, b: seq<Transaction>, id: string)
    ensures WithoutId(a + b, id) == WithoutId(a, id) + WithoutId(b, id)
  {
    FilterConcat(a, b, IdIsNot(id));
  }

  /** Removing an id that no record carries changes nothing. */
  lemma WithoutAbsentId(s: seq<Transaction>, id: string)
    requires forall i :: 0 <= i < |s| ==> s[i].id != id
    ensures WithoutId(s, id) == s
  {
    FilterKeepsAll(s, IdIsNot(id));
  }

  /** Removing an id carried by exactly one record is removing that record. */
  lemma WithoutUniqueId(s: seq<Transaction>, i: nat)
    requires i < |s|
    requires forall j :: 0 <= j < |s| && j != i ==> s[j].id != s[i].id
    ensures WithoutId(s, s[i].id) == s[..i] + s[i + 1..]
  {
    FilterRemovesOne(s, i, IdIsNot(s[i].id));
  }

  // ---------------------------------------------------------------------------
  // ORDER BY ... DESC
  // ---------------------------------------------------------------------------

  /** `t.date`, the key of `ORDER BY date DESC`. */
  function DateKey(t: Transaction): string
  {
    t.date
  }

  /**
   * `t.created_at`, the key of `ORDER BY created_at DESC`. A missing value sorts below every
   * text, as SQLite's NULL does, which the empty text also does.
   */
  function CreatedAtKey(t: Transaction): string
  {
    if t.createdAt.Some? then t.createdAt.value else ""
  }

  /** Each record's key is at least the key of every record after it, compared as SQLite compares text. */
  predicate SortedDesc(s: seq<Transaction>, key: Transaction -> string)
  {
    forall i, j :: 0 <= i < j < |s| ==> LexLe(key(s[j]), key(s[i]))
  }

  /** Places `x` before the first record whose key is not above its own. */
  function InsertDesc(x: Transaction, s: seq<Transaction>, key: Transaction -> string): (r: seq<Transaction>)
    ensures multiset(r) == multiset(s) + multiset{x}
  {
    if s == [] then [x]
    else if LexLe(key(s[0]), key(x)) then [x] + s
    else
      assert s == [s[0]] + s[1..];
      [s[0]] + InsertDesc(x, s[1..], key)
  }

  /**
   * The rows of a query in the order `ORDER BY key DESC` gives them. Rows with equal keys
   * may come in any order in SQLite; this order is one of those it may choose, and what is
   * proved of it below is what SQLite promises of every one.
   */
  function OrderByDesc(s: seq<Transaction>, key: Transaction -> string): (r: seq<Transaction>)
    ensures multiset(r) == multiset(s)
  {
    if s == [] then []
    else
      assert s == [s[0]] + s[1..];
      InsertDesc(s[0], OrderByDesc(s[1..], key), key)
  }

  lemma {:induction false} InsertDescSorted(x: Transaction, s: seq<Transaction>, key: Transaction -> string)
    requires SortedDesc(s, key)
    ensures SortedDesc(InsertDesc(x, s, key), key)
  {
    if s != [] {
      if LexLe(key(s[0]), key(x)) {
        PrependSorted(x, s, key);
      } else {
        LexLeTotal(key(s[0]), key(x));
        var rest := InsertDesc(x, s[1..], key);
        InsertDescSorted(x, s[1..], key);
        forall j | 0 <= j < |rest|
          ensures LexLe(key(rest[j]), key(s[0]))
        {
          assert rest[j] in multiset(s[1..]) + multiset{x};
          if rest[j] != x {
            assert rest[j] in s[1..];
            var k :| 0 <= k < |s[1..]| && s[1..][k] == rest[j];
            assert s[k + 1] == rest[j];
          }
        }
        PrependSorted(s[0], rest, key);
      }
    }
  }

  /** A record whose key is at least the first key of a sorted list may go in front of it. */
  lemma PrependSorted(x: Transaction, s: seq<Transaction>, key: Transaction -> string)
    requires SortedDesc(s, key)
    requires s != [] ==> LexLe(key(s[0]), key(x))
    ensures SortedDesc([x] + s, key)
  {
    var r := [x] + s;
    forall i, j | 0 <= i < j < |r|
      ensures LexLe(key(r[j]), key(r[i]))
    {
      if i == 0 && j > 1 {
        assert r[j] == s[j - 1];
        LexLeTransitive(key(r[j]), key(s[0]), key(x));
      } else if i > 0 {
        assert r[i] == s[i - 1] && r[j] == s[j - 1];
      }
    }
  }

  /** The rows come out sorted by descending key. */
  lemma {:induction false} OrderByDescSorted(s: seq<Transaction>, key: Transaction -> string)
    ensures SortedDesc(OrderByDesc(s, key), key)
  {
    if s != [] {
      OrderByDescSorted(s[1..], key);
      InsertDescSorted(s[0], OrderByDesc(s[1..], key), key);
    }
  }
}
