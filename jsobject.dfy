/**
 * The order in which `Object.entries` lists the own properties of a plain object whose
 * keys were all added as strings: array-index keys first, in ascending numeric order,
 * then every other key in the order it was first added.
 */
module JsObjects {
  import opened Seqs
  import opened Text

  /** An array index: the canonical decimal numeral of an integer below 2^32 - 1. */
  predicate IsArrayIndex(key: string)
  {
    |key| > 0 && AllRadixDigits(key, 10) && (key[0] != '0' || |key| == 1) && Value(key, 10) < 0xFFFF_FFFF
  }

  /** `key => IsArrayIndex(key) === isIndex` */
  function IndexKeyIs(isIndex: bool): string -> bool
  {
    (key: string) => IsArrayIndex(key) == isIndex
  }

  /** The numeric value of a key made of digits (0 for any other key). */
  function IndexValue(key: string): nat
  {
    if AllRadixDigits(key, 10) then Value(key, 10) else 0
  }

  predicate Ascending(keys: seq<string>)
  {
    forall i, j :: 0 <= i < j < |keys| ==> IndexValue(keys[i]) <= IndexValue(keys[j])
  }

  /** Places `key` after every key of lower value. */
  function InsertAscending(key: string, keys: seq<string>): (r: seq<string>)
    ensures multiset(r) == multiset(keys) + multiset{key}
  {
    if keys == [] then [key]
    else if IndexValue(key) <= IndexValue(keys[0]) then [key] + keys
    else
      assert keys == [keys[0]] + keys[1..];
      [keys[0]] + InsertAscending(key, keys[1..])
  }

  function SortAscending(keys: seq<string>): (r: seq<string>)
    ensures multiset(r) == multiset(keys)
  {
    if keys == [] then []
    else
      assert keys == [keys[0]] + keys[1..];
      InsertAscending(keys[0], SortAscending(keys[1..]))
  }

  lemma {:induction false} InsertAscendingSorted(key: string, keys: seq<string>)
    requires Ascending(keys)
    ensures Ascending(InsertAscending(key, keys))
  {
    if keys != [] && IndexValue(key) > IndexValue(keys[0]) {
      var rest := InsertAscending(key, keys[1..]);
      InsertAscendingSorted(key, keys[1..]);
      forall j | 0 <= j < |rest|
        ensures IndexValue(keys[0]) <= IndexValue(rest[j])
      {
        assert rest[j] in multiset(keys[1..]) + multiset{key};
        if rest[j] != key {
          assert rest[j] in keys[1..];
        }
      }
    }
  }

  lemma {:induction false} SortAscendingSorted(keys: seq<string>)
    ensures Ascending(SortAscending(keys))
  {
    if keys != [] {
      SortAscendingSorted(keys[1..]);
      InsertAscendingSorted(keys[0], SortAscending(keys[1..]));
    }
  }

  /**
   * `Object.entries(o)` key order for an object whose keys were first added in the order
   * `insertion`.
   */
  function EntriesOrder(insertion: seq<string>): (r: seq<string>)
    ensures multiset(r) == multiset(insertion)
  {
    FilterComplement(insertion, IndexKeyIs(true), IndexKeyIs(false));
    SortAscending(Filter(insertion, IndexKeyIs(true))) + Filter(insertion, IndexKeyIs(false))
  }

  /**
   * Array-index keys come before all others and in ascending numeric order; the other keys
   * keep the order in which they were added.
   */
  lemma EntriesOrderShape(insertion: seq<string>)
    ensures forall i, j :: 0 <= i < j < |EntriesOrder(insertion)| && IsArrayIndex(EntriesOrder(insertion)[j]) ==>
      IsArrayIndex(EntriesOrder(insertion)[i]) && IndexValue(EntriesOrder(insertion)[i]) <= IndexValue(EntriesOrder(insertion)[j])
    ensures Filter(EntriesOrder(insertion), IndexKeyIs(false)) == Filter(insertion, IndexKeyIs(false))
  {
    IndexKeysFirst(insertion);
    OtherKeysKept(insertion);
  }

  /** The sorted array-index keys, then the others: every array-index key precedes every other key. */
  lemma IndexKeysFirst(insertion: seq<string>)
    ensures forall i, j :: 0 <= i < j < |EntriesOrder(insertion)| && IsArrayIndex(EntriesOrder(insertion)[j]) ==>
      IsArrayIndex(EntriesOrder(insertion)[i]) && IndexValue(EntriesOrder(insertion)[i]) <= IndexValue(EntriesOrder(insertion)[j])
  {
    var indices := Filter(insertion, IndexKeyIs(true));
    var others := Filter(insertion, IndexKeyIs(false));
    var sorted := SortAscending(indices);
    var r := EntriesOrder(insertion);
    assert r == sorted + others;
    SortAscendingSorted(indices);
    forall i | 0 <= i < |sorted|
      ensures IsArrayIndex(sorted[i])
    {
      assert sorted[i] in multiset(indices);
      FilterMembers(insertion, IndexKeyIs(true), sorted[i]);
    }
    forall i | |sorted| <= i < |r|
      ensures !IsArrayIndex(r[i])
    {
      assert r[i] == others[i - |sorted|];
      assert IndexKeyIs(false)(r[i]);
    }
  }

  /** Filtering the entries for the other keys gives them back in insertion order. */
  lemma OtherKeysKept(insertion: seq<string>)
    ensures Filter(EntriesOrder(insertion), IndexKeyIs(false)) == Filter(insertion, IndexKeyIs(false))
  {
    var indices := Filter(insertion, IndexKeyIs(true));
    var others := Filter(insertion, IndexKeyIs(false));
    var sorted := SortAscending(indices);
    assert EntriesOrder(insertion) == sorted + others;
    FilterConcat(sorted, others, IndexKeyIs(false));
    forall x | x in sorted
      ensures !IndexKeyIs(false)(x)
    {
      assert x in multiset(indices);
      FilterMembers(insertion, IndexKeyIs(true), x);
    }
    FilterDropsAll(sorted, IndexKeyIs(false));
    forall x | x in others
      ensures IndexKeyIs(false)(x)
    {
    }
    FilterKeepsAll(others, IndexKeyIs(false));
  }

  /** Without array-index keys, `Object.entries` lists the keys in the order they were added. */
  lemma EntriesInInsertionOrder(insertion: seq<string>)
    requires forall i :: 0 <= i < |insertion| ==> !IsArrayIndex(insertion[i])
    ensures EntriesOrder(insertion) == insertion
  {
    FilterDropsAll(insertion, IndexKeyIs(true));
    FilterKeepsAll(insertion, IndexKeyIs(false));
  }

  /** A key with a character other than a digit is never an array index. */
  lemma NonDigitKey(key: string, i: nat)
    requires i < |key| && !IsDigit(key[i])
    ensures !IsArrayIndex(key)
  {
  }
}
