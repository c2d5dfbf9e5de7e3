/**
 Group-by-count: `df.groupby(key).size()` over a column whose values may be
 missing. Rows with a missing key are dropped, the groups come out in
 ascending key order, and only keys that occur get a group.
 */
module GroupBy {
  import opened Wrappers

  /** One row of a count table: a key and the number of rows with it. */
  datatype Group = Group(key: int, comments: nat)

  /** The key column of a count table. */
  function Keys(g: seq<Group>): seq<int> {
    if |g| == 0 then [] else [g[0].key] + Keys(g[1..])
  }

  /** Group keys strictly ascending (each key below every later one). */
  predicate Ascending(g: seq<Group>) {
    |g| == 0 || ((forall k :: k in Keys(g[1..]) ==> g[0].key < k) && Ascending(g[1..]))
  }

  /** No group has a zero count. */
  predicate Positive(g: seq<Group>) {
    forall i :: 0 <= i < |g| ==> g[i].comments > 0
  }

  /** The count recorded for `k` (zero when there is no group for it). */
  function Lookup(g: seq<Group>, k: int): nat {
    if |g| == 0 then 0
    else (if g[0].key == k then g[0].comments else 0) + Lookup(g[1..], k)
  }

  /** The sum of the count column. */
  function Total(g: seq<Group>): nat {
    if |g| == 0 then 0 else g[0].comments + Total(g[1..])
  }

  /** How many entries of `keys` are `Some(k)`. */
  function CountOf(keys: seq<Option<int>>, k: int): nat {
    if |keys| == 0 then 0
    else (if keys[0] == Some(k) then 1 else 0) + CountOf(keys[1..], k)
  }

  /** How many entries of `keys` are present. */
  function Present(keys: seq<Option<int>>): nat {
    if |keys| == 0 then 0
    else (if keys[0].Some? then 1 else 0) + Present(keys[1..])
  }

  lemma {:induction false} LookupAbsent(g: seq<Group>, k: int)
    requires k !in Keys(g)
    ensures Lookup(g, k) == 0
    decreases |g|
  {
    if |g| > 0 {
      LookupAbsent(g[1..], k);
    }
  }

  /** Count one more row with key `k`. */
  function {:induction false} Bump(g: seq<Group>, k: int): (r: seq<Group>)
    requires Ascending(g)
    ensures Ascending(r)
    ensures Positive(g) ==> Positive(r)
    ensures forall j :: j in Keys(r) <==> j in Keys(g) || j == k
    ensures forall j :: Lookup(r, j) == Lookup(g, j) + (if j == k then 1 else 0)
    ensures Total(r) == Total(g) + 1
    decreases |g|
  {
    if |g| == 0 then
      [Group(k, 1)]
    else if k < g[0].key then
      LookupAbsent(g, k);
      var r := [Group(k, 1)] + g;
      assert r[1..] == g;
      r
    else if k == g[0].key then
      var r := [Group(k, g[0].comments + 1)] + g[1..];
      assert r[1..] == g[1..];
      r
    else
      var r := [g[0]] + Bump(g[1..], k);
      assert r[1..] == Bump(g[1..], k);
      r
  }

  /** `groupby(key).size()` over the key column `keys`. */
  function {:induction false} GroupCount(keys: seq<Option<int>>): (r: seq<Group>)
    ensures Ascending(r)
    ensures Positive(r)
    ensures forall k :: k in Keys(r) <==> Some(k) in keys
    ensures forall k :: Lookup(r, k) == CountOf(keys, k)
    ensures Total(r) == Present(keys)
    decreases |keys|
  {
    if |keys| == 0 then []
    else
      var rest := GroupCount(keys[1..]);
      assert keys == [keys[0]] + keys[1..];
      match keys[0]
      case None => rest
      case Some(k) => Bump(rest, k)
  }

  /** The distinct keys that occur. */
  function KeySet(keys: seq<Option<int>>): set<int> {
    set o | o in keys && o.Some? :: o.value
  }

  /** Reference definition of group-by-count: every occurring key mapped to
      the number of its occurrences. */
  function CountMap(keys: seq<Option<int>>): map<int, nat> {
    map k | k in KeySet(keys) :: CountOf(keys, k)
  }

  /** A count table read as a map from key to count. */
  function AsMap(g: seq<Group>): map<int, nat> {
    if |g| == 0 then map[] else AsMap(g[1..])[g[0].key := g[0].comments]
  }

  /** The key column lists the keys of the groups, in order. */
  lemma {:induction false} KeysIndexed(g: seq<Group>)
    ensures |Keys(g)| == |g|
    ensures forall i :: 0 <= i < |g| ==> Keys(g)[i] == g[i].key
    decreases |g|
  {
    if |g| > 0 {
      KeysIndexed(g[1..]);
      assert forall i :: 1 <= i < |g| ==> g[1..][i - 1] == g[i];
    }
  }

  /** `Ascending` in index form: every key is below every later key. */
  lemma {:induction false} AscendingIndexed(g: seq<Group>)
    requires Ascending(g)
    ensures forall i, j :: 0 <= i < j < |g| ==> g[i].key < g[j].key
    decreases |g|
  {
    if |g| > 0 {
      AscendingIndexed(g[1..]);
      KeysIndexed(g[1..]);
      forall i, j | 0 <= i < j < |g| ensures g[i].key < g[j].key {
        assert g[j] == g[1..][j - 1];
        if i > 0 {
          assert g[i] == g[1..][i - 1];
        } else {
          assert g[1..][j - 1].key in Keys(g[1..]);
        }
      }
    }
  }

  /** With distinct keys, the count recorded for a group's key is that
      group's own count. */
  lemma {:induction false} LookupDistinct(g: seq<Group>, i: int)
    requires Ascending(g) && 0 <= i < |g|
    ensures Lookup(g, g[i].key) == g[i].comments
    decreases |g|
  {
    if i == 0 {
      LookupAbsent(g[1..], g[0].key);
    } else {
      assert g[1..][i - 1] == g[i];
      KeysIndexed(g[1..]);
      assert g[i].key in Keys(g[1..]);
      LookupDistinct(g[1..], i - 1);
    }
  }

  /** The map view of an ascending table: one entry per group, holding the
      group's count. */
  lemma {:induction false} AsMapOfAscending(g: seq<Group>)
    requires Ascending(g)
    ensures forall k :: k in AsMap(g) <==> k in Keys(g)
    ensures forall k :: k in AsMap(g) ==> AsMap(g)[k] == Lookup(g, k)
    ensures |AsMap(g)| == |g|
    decreases |g|
  {
    if |g| > 0 {
      AsMapOfAscending(g[1..]);
      LookupAbsent(g[1..], g[0].key);
    }
  }

  /** Every group of `GroupCount(keys)` holds the number of rows with its key. */
  lemma GroupEntries(keys: seq<Option<int>>)
    ensures forall i :: 0 <= i < |GroupCount(keys)| ==>
      GroupCount(keys)[i].comments == CountOf(keys, GroupCount(keys)[i].key)
  {
    var r := GroupCount(keys);
    forall i | 0 <= i < |r| ensures r[i].comments == CountOf(keys, r[i].key) {
      LookupDistinct(r, i);
    }
  }

  /** The count table, read as a map, is the reference count map; so it has
      exactly one group per distinct occurring key. */
  lemma GroupCountIsCountMap(keys: seq<Option<int>>)
    ensures AsMap(GroupCount(keys)) == CountMap(keys)
    ensures |GroupCount(keys)| == |KeySet(keys)|
  {
    var r := GroupCount(keys);
    AsMapOfAscending(r);
    forall k ensures k in AsMap(r) <==> k in KeySet(keys) {
      if k in KeySet(keys) {
        assert Some(k) in keys;
      }
    }
    assert AsMap(r).Keys == KeySet(keys);
    assert |AsMap(r)| == |AsMap(r).Keys|;
  }

  /** `CountOf` is the multiplicity of `Some(k)` in the key column. */
  lemma {:induction false} CountOfIsMultiplicity(keys: seq<Option<int>>)
    ensures forall k :: CountOf(keys, k) == multiset(keys)[Some(k)]
    ensures Present(keys) == |keys| - multiset(keys)[None]
    decreases |keys|
  {
    if |keys| > 0 {
      CountOfIsMultiplicity(keys[1..]);
      assert keys == [keys[0]] + keys[1..];
      assert multiset(keys) == multiset{keys[0]} + multiset(keys[1..]);
    }
  }
}
