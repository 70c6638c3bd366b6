/**
  The order-id dedup store of `src/dedupStore.js`: a JSON object on disk
  mapping each key to the time (milliseconds) it was recorded.  The file is
  modelled as the `entries` field; every operation of the source re-reads the
  file, so the field is the whole state.  `Date.now()` is the `now` parameter.
*/
module DedupStoreModel {
  import opened Wrappers

  /** The most entries kept after an `add`. */
  const MAX: nat := 5000

  /** One `[key, stamp]` pair of `Object.entries(map)`. */
  datatype Entry = Entry(key: string, stamp: int)

  /**
    The names a plain JavaScript object inherits from `Object.prototype`;
    `map[key]` finds these (functions, or the prototype itself for
    "__proto__", all truthy) when `key` is not an own key.
  */
  const PrototypeNames: set<string> := {
    "constructor", "toString", "toLocaleString", "valueOf", "hasOwnProperty",
    "isPrototypeOf", "propertyIsEnumerable", "__proto__", "__defineGetter__",
    "__defineSetter__", "__lookupGetter__", "__lookupSetter__"
  }

  /**
    What `add` leaves in the file, given the map m after the new stamp:
    m itself while it has at most MAX entries; otherwise MAX of its entries,
    unchanged, such that no evicted entry is newer than a retained one.
    Which of several entries with the same stamp survives is left open.
  */
  ghost predicate Pruned(m: map<string, int>, r: map<string, int>)
  {
    if |m| <= MAX then r == m else KeepsNewest(m, r, MAX)
  }

  /** r holds n of m's entries, unchanged, and none of the entries left out is newer than one kept. */
  ghost predicate KeepsNewest(m: map<string, int>, r: map<string, int>, n: nat)
  {
    && r.Keys <= m.Keys
    && |r| == n
    && (forall k :: k in r ==> r[k] == m[k])
    && (forall k, k' :: k in m && k !in r && k' in r ==> m[k] <= m[k'])
  }

  /** `!!map[key]` on the stored map, as intended: an own key with a truthy (non-zero) stamp. */
  predicate Seen(m: map<string, int>, key: string)
  {
    key in m && m[key] != 0
  }

  /**
    `!!map[key]` on the stored map, as written: an own key reads its stamp,
    any other key reads the inherited member of that name, if there is one.
  */
  predicate SeenAsWritten(m: map<string, int>, key: string)
  {
    if key in m then m[key] != 0 else key in PrototypeNames
  }

  // ---------------------------------------------------------------------
  // Entry lists
  // ---------------------------------------------------------------------

  /** es lists exactly the entries of m, each key once. */
  ghost predicate Lists(es: seq<Entry>, m: map<string, int>)
  {
    && (forall i :: 0 <= i < |es| ==> es[i].key in m && m[es[i].key] == es[i].stamp)
    && (forall k :: k in m ==> exists i :: 0 <= i < |es| && es[i].key == k)
    && DistinctKeys(es)
  }

  ghost predicate DistinctKeys(es: seq<Entry>)
  {
    forall i, j :: 0 <= i < j < |es| ==> es[i].key != es[j].key
  }

  ghost predicate SortedByStamp(es: seq<Entry>)
  {
    forall i, j :: 0 <= i < j < |es| ==> es[i].stamp <= es[j].stamp
  }

  /** `Object.fromEntries(es)`: later pairs overwrite earlier ones with the same key. */
  function MapOf(es: seq<Entry>): map<string, int>
  {
    if es == [] then map[] else MapOf(es[..|es| - 1])[es[|es| - 1].key := es[|es| - 1].stamp]
  }

  /** `Object.entries(m)`, in some order (the source's order only matters among equal stamps). */
  method EntriesOf(m: map<string, int>) returns (es: seq<Entry>)
    ensures Lists(es, m) && |es| == |m|
  {
    es := [];
    var rest := m;
    while rest != map[]
      invariant ListsAllBut(es, rest, m)
      decreases |rest|
    {
      var k :| k in rest;
      ListsStep(es, rest, m, k);
      es := es + [Entry(k, rest[k])];
      rest := rest - {k};
    }
    ListsAllButNone(es, rest, m);
  }

  /** es lists m's entries outside rest, and rest is the rest of m. */
  ghost predicate ListsAllBut(es: seq<Entry>, rest: map<string, int>, m: map<string, int>)
  {
    && rest.Keys <= m.Keys
    && (forall k :: k in rest ==> rest[k] == m[k])
    && (forall i :: 0 <= i < |es| ==> es[i].key in m && es[i].key !in rest && m[es[i].key] == es[i].stamp)
    && (forall k :: k in m && k !in rest ==> exists i :: 0 <= i < |es| && es[i].key == k)
    && DistinctKeys(es)
    && |es| + |rest| == |m|
  }

  lemma ListsStep(es: seq<Entry>, rest: map<string, int>, m: map<string, int>, k: string)
    requires ListsAllBut(es, rest, m) && k in rest
    ensures ListsAllBut(es + [Entry(k, rest[k])], rest - {k}, m)
  {
    var es' := es + [Entry(k, rest[k])];
    assert forall i :: 0 <= i < |es| ==> es'[i] == es[i];
    assert es'[|es|].key == k;
  }

  lemma ListsAllButNone(es: seq<Entry>, rest: map<string, int>, m: map<string, int>)
    requires ListsAllBut(es, rest, m) && rest == map[]
    ensures Lists(es, m) && |es| == |m|
  {
  }

  /** `Object.fromEntries(es)`, one pair at a time. */
  method FromEntries(es: seq<Entry>) returns (m: map<string, int>)
    ensures m == MapOf(es)
  {
    m := map[];
    var i := 0;
    while i < |es|
      invariant 0 <= i <= |es|
      invariant m == MapOf(es[..i])
    {
      assert es[..i + 1][..i] == es[..i];
      m := m[es[i].key := es[i].stamp];
      i := i + 1;
    }
    assert es[..|es|] == es;
  }

  /** `entries.sort((a, b) => a[1] - b[1])`: ascending by stamp, in place. */
  method SortByStamp(a: array<Entry>)
    modifies a
    ensures SortedUpTo(a, a.Length)
    ensures multiset(a[..]) == multiset(old(a[..]))
  {
    var i := 0;
    while i < a.Length
      invariant 0 <= i <= a.Length
      invariant SortedUpTo(a, i)
      invariant multiset(a[..]) == multiset(old(a[..]))
    {
      InsertAt(a, i);
      i := i + 1;
    }
  }

  /** a[..n] is sorted by stamp. */
  ghost predicate SortedUpTo(a: array<Entry>, n: nat)
    reads a
    requires n <= a.Length
  {
    forall p, q :: 0 <= p < q < n ==> a[p].stamp <= a[q].stamp
  }

  /** One pass of insertion sort: moves a[i] down into the sorted prefix a[..i]. */
  method InsertAt(a: array<Entry>, i: nat)
    requires i < a.Length && SortedUpTo(a, i)
    modifies a
    ensures SortedUpTo(a, i + 1)
    ensures multiset(a[..]) == multiset(old(a[..]))
  {
    var j := i;
    while j > 0 && a[j - 1].stamp > a[j].stamp
      invariant 0 <= j <= i
      invariant forall p, q :: 0 <= p < q <= i && p != j && q != j ==> a[p].stamp <= a[q].stamp
      invariant forall q :: j < q <= i ==> a[j].stamp < a[q].stamp
      invariant multiset(a[..]) == multiset(old(a[..]))
    {
      Swap(a, j - 1, j);
      j := j - 1;
    }
  }

  /** Exchanges a[i] and a[j]; the multiset of entries is unchanged. */
  method Swap(a: array<Entry>, i: nat, j: nat)
    requires i < j < a.Length
    modifies a
    ensures a[i] == old(a[j]) && a[j] == old(a[i])
    ensures forall k :: 0 <= k < a.Length && k != i && k != j ==> a[k] == old(a[k])
    ensures multiset(a[..]) == multiset(old(a[..]))
  {
    ghost var s := a[..];
    a[i], a[j] := a[j], a[i];
    assert a[..] == s[i := s[j]][j := s[i]];
  }

  // ---------------------------------------------------------------------
  // The store
  // ---------------------------------------------------------------------

  class DedupStore {
    /** The parsed contents of `data/dedup.json`. */
    var entries: map<string, int>

    /**
      `load()`: the stored map, or `{}` when the file is missing, empty or
      not valid JSON (None).
    */
    constructor (saved: Option<map<string, int>>)
      ensures entries == if saved.Some? then saved.value else map[]
    {
      entries := if saved.Some? then saved.value else map[];
    }

    /**
      `has(key)`, as intended: key is an own key with a truthy (non-zero)
      stamp. Whatever it reports, the written lookup reports too.
    */
    predicate Has(key: string): (b: bool)
      reads this
      ensures b <==> key in entries && entries[key] != 0
      ensures b ==> SeenAsWritten(entries, key)
    {
      Seen(entries, key)
    }

    /**
      `has(key)` as written, `!!map[key]` on a plain object: a key that is
      not stored still reads a truthy inherited member when it names one.
    */
    predicate HasAsWritten(key: string): (b: bool)
      reads this
      ensures Seen(entries, key) ==> b
      ensures b && !Seen(entries, key) ==> key !in entries && key in PrototypeNames
    {
      SeenAsWritten(entries, key)
    }

    /**
      `add(key)`: stamps key with now, overwriting an earlier stamp, and
      saves the map pruned to its newest MAX entries.
    */
    method Add(key: string, now: int)
      modifies this
      ensures Pruned(old(entries)[key := now], entries)
    {
      entries := Prune(entries[key := now]);
    }
  }

  /**
    The tail of `add`: `Object.entries`, and when there are more than MAX of
    them, sort ascending by stamp and keep the last MAX; otherwise m itself.
  */
  method Prune(m: map<string, int>) returns (r: map<string, int>)
    ensures Pruned(m, r)
  {
    var es := EntriesOf(m);
    if |es| > MAX {
      r := KeepNewest(es, m);
    } else {
      r := m;
    }
  }

  /** `entries.sort(...)`, `entries.slice(entries.length - MAX)`, `Object.fromEntries(...)`. */
  method KeepNewest(es: seq<Entry>, ghost m: map<string, int>) returns (r: map<string, int>)
    requires Lists(es, m) && |es| == |m| && |m| > MAX
    ensures Pruned(m, r)
  {
    var s := SortedCopy(es);
    r := FromEntries(s[|s| - MAX..]);
    SortedNewestArePruned(es, s, m);
  }

  /** The entries copied into an array and sorted there by stamp. */
  method SortedCopy(es: seq<Entry>) returns (s: seq<Entry>)
    ensures |s| == |es| && multiset(s) == multiset(es) && SortedByStamp(s)
  {
    var a := new Entry[|es|](i requires 0 <= i < |es| => es[i]);
    assert a[..] == es;
    SortByStamp(a);
    s := a[..];
    assert SortedUpTo(a, a.Length);
  }

  // ---------------------------------------------------------------------
  // Lemmas
  // ---------------------------------------------------------------------

  /** A stamp newer than every other stamp survives the pruning. */
  lemma {:induction false} PrunedKeepsNewest(m: map<string, int>, key: string, now: int, r: map<string, int>)
    requires forall k :: k in m && k != key ==> m[k] < now
    requires Pruned(m[key := now], r)
    ensures key in r && r[key] == now
  {
    var m' := m[key := now];
    if |m'| > MAX {
      assert r.Keys != {} by {
        assert |r.Keys| == |r| == MAX;
      }
      var k' :| k' in r;
      if key !in r {
        assert false;
      }
    }
  }

  /**
    After any `add` the store holds at most MAX entries: exactly MAX when
    the map was over the bound, and the whole map otherwise.
  */
  lemma {:induction false} PrunedBound(m: map<string, int>, r: map<string, int>)
    requires Pruned(m, r)
    ensures |r| <= MAX
    ensures |m| > MAX ==> |r| == MAX
    ensures |m| <= MAX ==> r == m
    ensures |r| <= |m|
  {
    if |m| > MAX {
      assert |r.Keys| <= |m.Keys| by {
        SubsetCard(r.Keys, m.Keys);
      }
    }
  }

  lemma SubsetCard(a: set<string>, b: set<string>)
    requires a <= b
    ensures |a| <= |b|
  {
    assert b == a + (b - a);
  }

  /**
    After a successful `add(key)` with a fresh, non-zero timestamp,
    `has(key)` holds: a second webhook delivery of the same order is a duplicate.
  */
  lemma {:induction false} AddThenHas(before: map<string, int>, key: string, now: int, after: map<string, int>)
    requires now != 0 && forall k :: k in before && k != key ==> before[k] < now
    requires Pruned(before[key := now], after)
    ensures key in after && after[key] == now
    ensures Seen(after, key)
  {
    PrunedKeepsNewest(before, key, now, after);
  }

  /** The written `has` agrees with the intended one on every key that is not an inherited name. */
  lemma HasAsWrittenAgrees(store: DedupStore, key: string)
    requires key !in PrototypeNames
    ensures store.HasAsWritten(key) == store.Has(key)
  {
  }

  /** ... and reports an inherited name as already seen although it was never added. */
  lemma HasAsWrittenInheritedNames(store: DedupStore, key: string)
    requires key in PrototypeNames && key !in store.entries
    ensures store.HasAsWritten(key) && !store.Has(key)
  {
  }

  /** The input that shows it: the order id "constructor" on an empty store. */
  lemma HasAsWrittenConstructor(store: DedupStore)
    requires store.entries == map[]
    ensures store.HasAsWritten("constructor") && !store.Has("constructor")
  {
  }

  // ---------------------------------------------------------------------
  // Why the newest MAX of the sorted entries form a pruning
  // ---------------------------------------------------------------------

  /** The suffix of MAX entries of a sorted permutation of m's entries is a pruning of m. */
  lemma {:induction false} SortedNewestArePruned(es: seq<Entry>, s: seq<Entry>, m: map<string, int>)
    requires Lists(es, m) && |es| == |m| && |m| > MAX
    requires multiset(s) == multiset(es) && |s| == |es| && SortedByStamp(s)
    ensures Pruned(m, MapOf(s[|s| - MAX..]))
  {
    var c := |s| - MAX;
    SuffixFacts(es, s, m, c);
    PrunedIntro(m, MapOf(s[c..]));
  }

  lemma {:induction false} SuffixFacts(es: seq<Entry>, s: seq<Entry>, m: map<string, int>, c: nat)
    requires Lists(es, m) && multiset(s) == multiset(es) && SortedByStamp(s) && c <= |s|
    ensures var r := MapOf(s[c..]);
            && |r| == |s| - c
            && r.Keys <= m.Keys && (forall k :: k in r ==> r[k] == m[k])
            && (forall k, k' :: k in m && k !in r && k' in r ==> m[k] <= m[k'])
  {
    PermutationLists(es, s, m);
    var r := MapOf(s[c..]);
    SuffixMap(s, c);
    SuffixKeys(s, m, c, r);
    SuffixNewest(s, m, c, r);
  }

  lemma PrunedIntro(m: map<string, int>, r: map<string, int>)
    requires |m| > MAX && |r| == MAX
    requires r.Keys <= m.Keys && forall k :: k in r ==> r[k] == m[k]
    requires forall k, k' :: k in m && k !in r && k' in r ==> m[k] <= m[k']
    ensures Pruned(m, r)
  {
  }

  /** Retained entries are entries of m, unchanged. */
  lemma {:induction false} SuffixKeys(s: seq<Entry>, m: map<string, int>, c: nat, r: map<string, int>)
    requires Lists(s, m) && c <= |s|
    requires forall k :: k in r ==> exists j :: c <= j < |s| && s[j].key == k && r[k] == s[j].stamp
    ensures r.Keys <= m.Keys && forall k :: k in r ==> r[k] == m[k]
  {
  }

  /** Sorted ascending: every entry before position c is no newer than any entry from c on. */
  lemma {:induction false} SuffixNewest(s: seq<Entry>, m: map<string, int>, c: nat, r: map<string, int>)
    requires Lists(s, m) && SortedByStamp(s) && c <= |s|
    requires forall k :: k in r <==> exists j :: c <= j < |s| && s[j].key == k
    ensures forall k, k' :: k in m && k !in r && k' in r ==> m[k] <= m[k']
  {
    forall k, k' | k in m && k !in r && k' in r
      ensures m[k] <= m[k']
    {
      var i :| 0 <= i < |s| && s[i].key == k;
      var j :| c <= j < |s| && s[j].key == k';
      assert i < c;
    }
  }

  /** MapOf of the suffix s[c..] of a listing with distinct keys. */
  lemma {:induction false} SuffixMap(s: seq<Entry>, c: nat)
    requires DistinctKeys(s) && c <= |s|
    ensures |MapOf(s[c..])| == |s| - c
    ensures forall k :: k in MapOf(s[c..]) <==> exists j :: c <= j < |s| && s[j].key == k
    ensures forall k :: k in MapOf(s[c..]) ==> exists j :: c <= j < |s| && s[j].key == k && MapOf(s[c..])[k] == s[j].stamp
  {
    var t := s[c..];
    assert forall j :: 0 <= j < |t| ==> t[j] == s[c + j];
    assert DistinctKeys(t);
    MapOfSize(t);
    MapOfKeys(t);
    MapOfValues(t);
    forall k | k in MapOf(t)
      ensures exists j :: c <= j < |s| && s[j].key == k
    {
      var j :| 0 <= j < |t| && t[j].key == k;
      assert s[c + j].key == k;
    }
    forall k | k in MapOf(t)
      ensures exists j :: c <= j < |s| && s[j].key == k && MapOf(t)[k] == s[j].stamp
    {
      var j :| 0 <= j < |t| && t[j].key == k;
      assert s[c + j].key == k && MapOf(t)[k] == s[c + j].stamp;
    }
  }

  /** The keys of MapOf(t) are the keys listed in t. */
  lemma {:induction false} MapOfKeys(t: seq<Entry>)
    ensures forall k :: k in MapOf(t) <==> exists j :: 0 <= j < |t| && t[j].key == k
  {
    if t != [] {
      var t' := t[..|t| - 1];
      MapOfKeys(t');
      assert MapOf(t) == MapOf(t')[t[|t| - 1].key := t[|t| - 1].stamp];
      forall k | k in MapOf(t)
        ensures exists j :: 0 <= j < |t| && t[j].key == k
      {
        if k != t[|t| - 1].key {
          var j :| 0 <= j < |t'| && t'[j].key == k;
          assert t[j].key == k;
        }
      }
      forall j | 0 <= j < |t|
        ensures t[j].key in MapOf(t)
      {
        if j < |t| - 1 {
          assert t'[j] == t[j];
        }
      }
    }
  }

  /** With distinct keys each listed pair is in MapOf(t) as listed. */
  lemma {:induction false} MapOfValues(t: seq<Entry>)
    requires DistinctKeys(t)
    ensures forall j :: 0 <= j < |t| ==> t[j].key in MapOf(t) && MapOf(t)[t[j].key] == t[j].stamp
  {
    if t != [] {
      var t' := t[..|t| - 1];
      assert DistinctKeys(t');
      MapOfValues(t');
      forall j | 0 <= j < |t| - 1
        ensures t[j].key in MapOf(t) && MapOf(t)[t[j].key] == t[j].stamp
      {
        assert t'[j] == t[j];
      }
    }
  }

  /** With distinct keys MapOf(t) has one key per entry. */
  lemma {:induction false} MapOfSize(t: seq<Entry>)
    requires DistinctKeys(t)
    ensures |MapOf(t)| == |t|
  {
    if t != [] {
      var t' := t[..|t| - 1];
      var e := t[|t| - 1];
      assert DistinctKeys(t');
      MapOfSize(t');
      MapOfKeys(t');
      assert e.key !in MapOf(t') by {
        forall j | 0 <= j < |t'|
          ensures t'[j].key != e.key
        {
          assert t'[j] == t[j];
        }
      }
    }
  }

  /** A permutation of a listing of m is again a listing of m. */
  lemma {:induction false} PermutationLists(es: seq<Entry>, s: seq<Entry>, m: map<string, int>)
    requires Lists(es, m) && multiset(s) == multiset(es)
    ensures Lists(s, m)
  {
    forall i | 0 <= i < |s|
      ensures s[i].key in m && m[s[i].key] == s[i].stamp
    {
      assert s[i] in multiset(es);
    }
    forall k | k in m
      ensures exists i :: 0 <= i < |s| && s[i].key == k
    {
      var i :| 0 <= i < |es| && es[i].key == k;
      assert es[i] in multiset(s);
    }
    DistinctKeysNoRepeats(es);
    forall x
      ensures multiset(s)[x] <= 1
    {
    }
    NoRepeatsDistinctKeys(s, m);
  }

  /** Entries with distinct keys occur at most once each. */
  lemma {:induction false} DistinctKeysNoRepeats(es: seq<Entry>)
    requires DistinctKeys(es)
    ensures forall x :: multiset(es)[x] <= 1
  {
    if es != [] {
      var es' := es[..|es| - 1];
      assert es == es' + [es[|es| - 1]];
      assert DistinctKeys(es');
      DistinctKeysNoRepeats(es');
      assert es[|es| - 1] !in es' by {
        forall j | 0 <= j < |es'|
          ensures es'[j] != es[|es| - 1]
        {
          assert es'[j] == es[j];
        }
      }
    }
  }

  /** Entries that each occur at most once and agree with m have distinct keys. */
  lemma {:induction false} NoRepeatsDistinctKeys(s: seq<Entry>, m: map<string, int>)
    requires forall x :: multiset(s)[x] <= 1
    requires forall i :: 0 <= i < |s| ==> s[i].key in m && m[s[i].key] == s[i].stamp
    ensures DistinctKeys(s)
  {
    if s != [] {
      var s' := s[..|s| - 1];
      var e := s[|s| - 1];
      assert s == s' + [e];
      forall x
        ensures multiset(s')[x] <= 1
      {
        assert multiset(s)[x] == multiset(s')[x] + multiset([e])[x];
      }
      NoRepeatsDistinctKeys(s', m);
      assert e !in s' by {
        assert multiset(s)[e] == multiset(s')[e] + 1;
      }
      forall i | 0 <= i < |s'|
        ensures s'[i].key != e.key
      {
        assert s'[i] in s';
      }
    }
  }
}
