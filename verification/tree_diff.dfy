/**
 * The classification every container diff must produce, whether it is computed by
 * walking two content-addressed trees in lock-step (the structural strategy) or by
 * materialising both containers (the generic, legacy strategy). A container version is
 * a finite map from keys to the raw bytes stored under them.
 */
module TreeDiff {

  /** One entry of a diff as a traversal reports it to the caller's container. */
  datatype Change<K, V> =
    | Add(key: K, after: V)
    | Remove(key: K, before: V)
    | Modify(key: K, before: V, after: V)

  /** Keys present only in the newer version. */
  function AddedKeys<K, V>(prev: map<K, V>, cur: map<K, V>): set<K> {
    cur.Keys - prev.Keys
  }

  /** Keys present only in the older version. */
  function RemovedKeys<K, V>(prev: map<K, V>, cur: map<K, V>): set<K> {
    prev.Keys - cur.Keys
  }

  /** Keys present in both versions whose stored bytes differ. */
  function ModifiedKeys<K, V(==)>(prev: map<K, V>, cur: map<K, V>): set<K> {
    set k | k in prev && k in cur && prev[k] != cur[k]
  }

  /** The key `k` is touched by the change from `prev` to `cur`. */
  predicate Differs<K, V(==)>(k: K, prev: map<K, V>, cur: map<K, V>) {
    (k in prev) != (k in cur) || (k in prev && k in cur && prev[k] != cur[k])
  }

  /** `c` is the one correct report about its own key. */
  predicate Describes<K, V(==)>(c: Change<K, V>, prev: map<K, V>, cur: map<K, V>) {
    match c
    case Add(k, a) => k !in prev && k in cur && cur[k] == a
    case Remove(k, b) => k in prev && k !in cur && prev[k] == b
    case Modify(k, b, a) => k in prev && k in cur && prev[k] == b && cur[k] == a && b != a
  }

  /**
   * `cs` is a complete listing of the diff from `prev` to `cur`: every entry is correct,
   * no key is reported twice, and every touched key is reported. This is the contract
   * both traversal strategies fulfil; their order of reporting is left free.
   */
  ghost predicate IsDiffListing<K, V>(cs: seq<Change<K, V>>, prev: map<K, V>, cur: map<K, V>) {
    && (forall i :: 0 <= i < |cs| ==> Describes(cs[i], prev, cur))
    && (forall i, j :: 0 <= i < j < |cs| ==> cs[i].key != cs[j].key)
    && (forall k :: k in prev.Keys + cur.Keys && Differs(k, prev, cur) ==>
          exists i :: 0 <= i < |cs| && cs[i].key == k)
  }

  /** The keys of the entries of one kind in a listing. */
  function AddKeysOf<K, V>(cs: seq<Change<K, V>>): set<K> {
    set i | 0 <= i < |cs| && cs[i].Add? :: cs[i].key
  }

  function RemoveKeysOf<K, V>(cs: seq<Change<K, V>>): set<K> {
    set i | 0 <= i < |cs| && cs[i].Remove? :: cs[i].key
  }

  function ModifyKeysOf<K, V>(cs: seq<Change<K, V>>): set<K> {
    set i | 0 <= i < |cs| && cs[i].Modify? :: cs[i].key
  }

  /** A correct report is determined by its key. */
  lemma DescribesUnique<K, V>(c1: Change<K, V>, c2: Change<K, V>, prev: map<K, V>, cur: map<K, V>)
    requires Describes(c1, prev, cur) && Describes(c2, prev, cur)
    requires c1.key == c2.key
    ensures c1 == c2
  {
  }

  /**
   * Any complete listing routes each key to the bucket the three key sets name:
   * only-new keys are Added, only-old keys Removed, changed bytes Modified.
   */
  lemma ListingClassifies<K, V>(cs: seq<Change<K, V>>, prev: map<K, V>, cur: map<K, V>)
    requires IsDiffListing(cs, prev, cur)
    ensures AddKeysOf(cs) == AddedKeys(prev, cur)
    ensures RemoveKeysOf(cs) == RemovedKeys(prev, cur)
    ensures ModifyKeysOf(cs) == ModifiedKeys(prev, cur)
  {
    forall k | k in AddedKeys(prev, cur) ensures k in AddKeysOf(cs) {
      assert Differs(k, prev, cur);
      var i :| 0 <= i < |cs| && cs[i].key == k;
      assert Describes(cs[i], prev, cur);
    }
    forall k | k in RemovedKeys(prev, cur) ensures k in RemoveKeysOf(cs) {
      assert Differs(k, prev, cur);
      var i :| 0 <= i < |cs| && cs[i].key == k;
      assert Describes(cs[i], prev, cur);
    }
    forall k | k in ModifiedKeys(prev, cur) ensures k in ModifyKeysOf(cs) {
      assert Differs(k, prev, cur);
      var i :| 0 <= i < |cs| && cs[i].key == k;
      assert Describes(cs[i], prev, cur);
    }
  }

  /** Diffing a container against itself reports nothing. */
  lemma SelfDiffIsEmpty<K, V>(cs: seq<Change<K, V>>, m: map<K, V>)
    requires IsDiffListing(cs, m, m)
    ensures cs == []
  {
    assert |cs| > 0 ==> Describes(cs[0], m, m);
  }

  /**
   * When the newer version only adds entries to the older one, nothing is reported
   * Removed or Modified: every entry of the listing is an Add.
   */
  lemma AdditiveDiffOnlyAdds<K, V>(cs: seq<Change<K, V>>, prev: map<K, V>, cur: map<K, V>)
    requires IsDiffListing(cs, prev, cur)
    requires forall k :: k in prev ==> k in cur && cur[k] == prev[k]
    ensures forall i :: 0 <= i < |cs| ==> cs[i].Add?
  {
    forall i | 0 <= i < |cs| ensures cs[i].Add? {
      assert Describes(cs[i], prev, cur);
    }
  }

  /**
   * Two complete listings of the same pair of versions hold the same entries, so the
   * structural and the generic strategy agree on the classification.
   */
  lemma ListingsAgree<K, V>(a: seq<Change<K, V>>, b: seq<Change<K, V>>, prev: map<K, V>, cur: map<K, V>)
    requires IsDiffListing(a, prev, cur) && IsDiffListing(b, prev, cur)
    ensures forall i :: 0 <= i < |a| ==> a[i] in b
  {
    forall i | 0 <= i < |a| ensures a[i] in b {
      var c := a[i];
      assert Describes(c, prev, cur);
      assert c.key in prev.Keys + cur.Keys && Differs(c.key, prev, cur);
      var j :| 0 <= j < |b| && b[j].key == c.key;
      DescribesUnique(c, b[j], prev, cur);
    }
  }

  /** The report, if any, that a materialising diff makes about one key. */
  function ReportFor<K, V(==)>(k: K, prev: map<K, V>, cur: map<K, V>): seq<Change<K, V>> {
    if k in prev && k !in cur then [Remove(k, prev[k])]
    else if k !in prev && k in cur then [Add(k, cur[k])]
    else if k in prev && k in cur && prev[k] != cur[k] then [Modify(k, prev[k], cur[k])]
    else []
  }

  /**
   * The generic (legacy) strategy: both versions are materialised and every key of an
   * enumeration of their union is compared by presence and by raw bytes.
   */
  function GenericDiff<K, V(==)>(keys: seq<K>, prev: map<K, V>, cur: map<K, V>): (cs: seq<Change<K, V>>)
    ensures forall i :: 0 <= i < |cs| ==> Describes(cs[i], prev, cur) && cs[i].key in keys
    ensures |cs| <= |keys|
  {
    if keys == [] then []
    else ReportFor(keys[0], prev, cur) + GenericDiff(keys[1..], prev, cur)
  }

  /** A touched key gets exactly one report about it. */
  lemma ReportForDiffers<K, V>(k: K, prev: map<K, V>, cur: map<K, V>)
    requires Differs(k, prev, cur)
    ensures |ReportFor(k, prev, cur)| == 1 && ReportFor(k, prev, cur)[0].key == k
  {
  }

  /** A key is reported by the generic diff exactly when it is touched. */
  lemma {:induction false} GenericDiffReports<K, V>(keys: seq<K>, prev: map<K, V>, cur: map<K, V>, k: K)
    requires k in keys && Differs(k, prev, cur)
    ensures exists i :: 0 <= i < |GenericDiff(keys, prev, cur)| && GenericDiff(keys, prev, cur)[i].key == k
  {
    var cs := GenericDiff(keys, prev, cur);
    var head := ReportFor(keys[0], prev, cur);
    var tail := keys[1..];
    assert cs == head + GenericDiff(tail, prev, cur);
    if keys[0] == k {
      ReportForDiffers(k, prev, cur);
      assert cs[0] == head[0];
    } else {
      assert k in tail by {
        var n :| 0 <= n < |keys| && keys[n] == k;
        assert tail[n - 1] == k;
      }
      GenericDiffReports(tail, prev, cur, k);
      var rest := GenericDiff(tail, prev, cur);
      var i :| 0 <= i < |rest| && rest[i].key == k;
      assert cs[|head| + i] == rest[i];
    }
  }

  /** The generic diff never reports a key twice when the enumeration has no repeats. */
  lemma {:induction false} GenericDiffDistinct<K, V>(keys: seq<K>, prev: map<K, V>, cur: map<K, V>)
    requires forall i, j :: 0 <= i < j < |keys| ==> keys[i] != keys[j]
    ensures forall i, j :: 0 <= i < j < |GenericDiff(keys, prev, cur)| ==>
      GenericDiff(keys, prev, cur)[i].key != GenericDiff(keys, prev, cur)[j].key
  {
    if keys != [] {
      var tail := keys[1..];
      forall i, j | 0 <= i < j < |tail| ensures tail[i] != tail[j] {
        assert tail[i] == keys[i + 1] && tail[j] == keys[j + 1];
      }
      GenericDiffDistinct(tail, prev, cur);
      var rest := GenericDiff(tail, prev, cur);
      forall i | 0 <= i < |rest| ensures rest[i].key != keys[0] {
        var k :| 0 <= k < |tail| && tail[k] == rest[i].key;
        assert tail[k] == keys[k + 1];
      }
      PrependKeepsDistinct(ReportFor(keys[0], prev, cur), rest, keys[0]);
    }
  }

  /** At most one report about a key absent from a distinct listing keeps it distinct. */
  lemma PrependKeepsDistinct<K, V>(head: seq<Change<K, V>>, rest: seq<Change<K, V>>, k: K)
    requires |head| <= 1 && forall i :: 0 <= i < |head| ==> head[i].key == k
    requires forall i :: 0 <= i < |rest| ==> rest[i].key != k
    requires forall i, j :: 0 <= i < j < |rest| ==> rest[i].key != rest[j].key
    ensures forall i, j :: 0 <= i < j < |head + rest| ==> (head + rest)[i].key != (head + rest)[j].key
  {
    var cs := head + rest;
    forall i, j | 0 <= i < j < |cs| ensures cs[i].key != cs[j].key {
      if i < |head| {
        assert cs[i] == head[i] && cs[j] == rest[j - |head|];
      } else {
        assert cs[i] == rest[i - |head|] && cs[j] == rest[j - |head|];
      }
    }
  }

  /**
   * Over an enumeration of the union of both key sets without repeats, the generic diff
   * is a complete listing: the strategy is correct, and together with ListingsAgree any
   * structural traversal fulfilling the contract reports the same entries.
   */
  lemma GenericDiffIsListing<K, V>(keys: seq<K>, prev: map<K, V>, cur: map<K, V>)
    requires forall i, j :: 0 <= i < j < |keys| ==> keys[i] != keys[j]
    requires forall k :: k in prev.Keys + cur.Keys ==> k in keys
    ensures IsDiffListing(GenericDiff(keys, prev, cur), prev, cur)
  {
    GenericDiffDistinct(keys, prev, cur);
    forall k | k in prev.Keys + cur.Keys && Differs(k, prev, cur)
      ensures exists i :: 0 <= i < |GenericDiff(keys, prev, cur)| && GenericDiff(keys, prev, cur)[i].key == k
    {
      GenericDiffReports(keys, prev, cur, k);
    }
  }
}
