/** A JavaScript `Map<string, number>` as the tally uses it: each key held
    once, kept in insertion order, `set` on a present key replacing its value
    where it stands and `set` on a new key appending it. */
module JsMap {
  import opened PollTypes

  datatype Entry = Entry(key: string, value: int)

  type Entries = seq<Entry>

  /** Each key appears at most once: the first key is not among the
      others, and the others are distinct. */
  predicate DistinctKeys(m: Entries) {
    m == [] || (m[0].key !in KeySet(m[1..]) && DistinctKeys(m[1..]))
  }

  /** The keys, as a set. */
  function KeySet(m: Entries): set<string> {
    set i | 0 <= i < |m| :: m[i].key
  }

  /** Position of `k`, if it is a key. */
  function IndexOf(m: Entries, k: string): (r: Option<nat>)
    ensures r.Some? ==> r.value < |m| && m[r.value].key == k
  {
    if m == [] then None
    else if m[0].key == k then Some(0)
    else
      match IndexOf(m[1..], k)
      case None => None
      case Some(i) => Some(i + 1)
  }

  /** `IndexOf` finds the first position holding `k`, and finds none
      exactly when no position holds it. */
  lemma {:induction false} IndexOfFirst(m: Entries, k: string)
    ensures IndexOf(m, k).Some? ==> forall j :: 0 <= j < IndexOf(m, k).value ==> m[j].key != k
    ensures IndexOf(m, k).None? <==> forall j :: 0 <= j < |m| ==> m[j].key != k
  {
    if m != [] && m[0].key != k {
      IndexOfFirst(m[1..], k);
      assert forall j :: 1 <= j < |m| ==> m[j] == m[1..][j - 1];
    }
  }

  /** `map.has(k)` */
  predicate Has(m: Entries, k: string) {
    IndexOf(m, k).Some?
  }

  /** `map.get(k)`, with `undefined` as `None` */
  function Get(m: Entries, k: string): Option<int> {
    match IndexOf(m, k)
    case None => None
    case Some(i) => Some(m[i].value)
  }

  /** `map.set(k, v)`: a present key keeps its place, a new one goes last. */
  function Put(m: Entries, k: string, v: int): Entries {
    if m == [] then [Entry(k, v)]
    else if m[0].key == k then [Entry(k, v)] + m[1..]
    else [m[0]] + Put(m[1..], k, v)
  }

  /** Looking up in a map whose first entry is `e`. */
  lemma GetCons(e: Entry, m: Entries, k: string)
    ensures Get([e] + m, k) == if e.key == k then Some(e.value) else Get(m, k)
  {
    assert ([e] + m)[0] == e && ([e] + m)[1..] == m;
  }

  /** `map.set(k, v)` leaves every other key as it was. */
  lemma {:induction false} PutGet(m: Entries, k: string, v: int, k': string)
    ensures Get(Put(m, k, v), k') == if k' == k then Some(v) else Get(m, k')
  {
    if m == [] {
      assert Put(m, k, v) == [Entry(k, v)] + [];
      GetCons(Entry(k, v), [], k');
    } else {
      assert m == [m[0]] + m[1..];
      GetCons(m[0], m[1..], k');
      if m[0].key == k {
        GetCons(Entry(k, v), m[1..], k');
      } else {
        GetCons(m[0], Put(m[1..], k, v), k');
        PutGet(m[1..], k, v, k');
      }
    }
  }

  /** The keys after `map.set(k, v)` are the old keys and `k`. */
  lemma {:induction false} PutKeys(m: Entries, k: string, v: int)
    ensures KeySet(Put(m, k, v)) == KeySet(m) + {k}
  {
    if m == [] {
      assert KeySet([Entry(k, v)]) == {k} by { assert [Entry(k, v)][0].key == k; }
    } else {
      assert m == [m[0]] + m[1..];
      KeySetCons(m[0], m[1..]);
      if m[0].key == k {
        KeySetCons(Entry(k, v), m[1..]);
      } else {
        PutKeys(m[1..], k, v);
        KeySetCons(m[0], Put(m[1..], k, v));
      }
    }
  }

  lemma KeySetCons(e: Entry, m: Entries)
    ensures KeySet([e] + m) == {e.key} + KeySet(m)
  {
    var r := [e] + m;
    assert forall j :: 1 <= j < |r| ==> r[j] == m[j - 1];
    assert forall i :: 0 <= i < |m| ==> m[i] == r[i + 1];
    assert r[0] == e;
  }

  /** `map.set` never duplicates a key. */
  lemma {:induction false} PutDistinct(m: Entries, k: string, v: int)
    requires DistinctKeys(m)
    ensures DistinctKeys(Put(m, k, v))
  {
    if m != [] {
      var r := Put(m, k, v);
      if m[0].key == k {
        assert r[0].key == k && r[1..] == m[1..];
      } else {
        var rest := Put(m[1..], k, v);
        PutDistinct(m[1..], k, v);
        PutKeys(m[1..], k, v);
        assert r[0] == m[0] && r[1..] == rest;
      }
    }
  }

  /** The recursive definition says the same as "no two positions hold the
      same key". */
  lemma {:induction false} DistinctKeysPairwise(m: Entries)
    ensures DistinctKeys(m) <==> forall i, j :: 0 <= i < j < |m| ==> m[i].key != m[j].key
  {
    if m != [] {
      var t := m[1..];
      DistinctKeysPairwise(t);
      assert forall j :: 1 <= j < |m| ==> m[j] == t[j - 1];
      if DistinctKeys(m) {
        forall i, j | 0 <= i < j < |m| ensures m[i].key != m[j].key {
          if i == 0 {
            assert m[j].key == t[j - 1].key && t[j - 1].key in KeySet(t);
          } else {
            assert m[i] == t[i - 1] && m[j] == t[j - 1];
          }
        }
      }
      if forall i, j :: 0 <= i < j < |m| ==> m[i].key != m[j].key {
        forall j | 0 <= j < |t| ensures t[j].key != m[0].key {
          assert t[j] == m[j + 1];
        }
        forall i, j | 0 <= i < j < |t| ensures t[i].key != t[j].key {
          assert t[i] == m[i + 1] && t[j] == m[j + 1];
        }
      }
    }
  }

  /** The sum of the values in insertion order (`map.forEach(val => sum += val)`). */
  function SumValues(m: Entries): int {
    if m == [] then 0 else SumValues(m[..|m| - 1]) + m[|m| - 1].value
  }

  lemma {:induction false} SumValuesCons(e: Entry, m: Entries)
    ensures SumValues([e] + m) == e.value + SumValues(m)
  {
    if m != [] {
      var n := |m|;
      assert ([e] + m)[..n] == [e] + m[..n - 1];
      SumValuesCons(e, m[..n - 1]);
    }
  }

  /** `map.set` changes the sum of the values by the new value less the old
      one (a missing key counting as 0). */
  lemma {:induction false} PutSum(m: Entries, k: string, v: int)
    ensures SumValues(Put(m, k, v)) == SumValues(m) - Get(m, k).GetOr(0) + v
  {
    if m == [] {
      assert SumValues([Entry(k, v)]) == SumValues([Entry(k, v)][..0]) + v;
    } else {
      assert m == [m[0]] + m[1..];
      SumValuesCons(m[0], m[1..]);
      if m[0].key == k {
        SumValuesCons(Entry(k, v), m[1..]);
      } else {
        PutSum(m[1..], k, v);
        SumValuesCons(m[0], Put(m[1..], k, v));
      }
    }
  }
}
