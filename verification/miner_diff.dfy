/**
 * Diffing two versions of a storage miner's state (chain/actors/builtin/miner/diff.go):
 * choosing between the structural and the generic (legacy) traversal, and routing each
 * reported change of the precommit map and the sector array into the result lists.
 */
module MinerDiff {
  import opened Outcomes
  import opened TreeDiff

  type Bytes = seq<bv8>

  /** The actor code ids the strategy choice distinguishes; any other code is `OtherCode`. */
  datatype ActorCode =
    | MinerV0 | MinerV2 | MinerV3 | MinerV4
    | MarketV0 | MarketV2
    | OtherCode(id: string)

  datatype DiffError =
    | UnknownActorCode(code: ActorCode)
    | Failed(message: string)

  /** Options of a HAMT: its bit width and hash function; compared field by field. */
  datatype MapOpts = MapOpts(bitwidth: int, hashFunc: int)

  /** A decoded precommit record; only what the diff needs is named. */
  datatype PreCommitInfo = PreCommitInfo(sectorNumber: int, details: Bytes)

  /** A decoded sector record; `expiration` decides whether a change is an extension. */
  datatype SectorInfo = SectorInfo(sectorNumber: int, expiration: int, details: Bytes)

  /**
   * One version of a miner's state: its actor code, its two containers (or the error
   * loading them), and the version-specific decoders of their raw values.
   */
  datatype MinerState = MinerState(
    code: ActorCode,
    precommits: Result<map<string, Bytes>, DiffError>,
    sectors: Result<map<nat, Bytes>, DiffError>,
    decodePreCommit: Bytes -> Result<PreCommitInfo, DiffError>,
    decodeSector: Bytes -> Result<SectorInfo, DiffError>)

  datatype PreCommitChanges = PreCommitChanges(added: seq<PreCommitInfo>, removed: seq<PreCommitInfo>)

  datatype SectorExtension = SectorExtension(from: SectorInfo, to: SectorInfo)

  datatype SectorChanges = SectorChanges(added: seq<SectorInfo>, extended: seq<SectorExtension>, removed: seq<SectorInfo>)

  /** How the two versions of a container are walked. */
  datatype MapStrategy = GenericMap | HamtDiff(opts: MapOpts)
  datatype ArrayStrategy = GenericArray | AmtDiff(bitwidth: int)

  /** The traversal libraries: the changes they report for a strategy and two versions. */
  type MapTraversal = (MapStrategy, map<string, Bytes>, map<string, Bytes>) -> Result<seq<Change<string, Bytes>>, DiffError>
  type ArrayTraversal = (ArrayStrategy, map<nat, Bytes>, map<nat, Bytes>) -> Result<seq<Change<nat, Bytes>>, DiffError>

  /** The sectors AMT bit width of miner actors from version 3 on. */
  const SectorsAmtBitwidthV3 := 5

  // ---------------------------------------------------------------------------
  // Strategy selection
  // ---------------------------------------------------------------------------

  predicate IsLegacyMinerCode(c: ActorCode) {
    c == MinerV0 || c == MinerV2
  }

  predicate IsLegacyMarketCode(c: ActorCode) {
    c == MarketV0 || c == MarketV2
  }

  /** A bit width together with the error that goes with it, as the Go function returns them. */
  type WidthAndError = (int, Option<DiffError>)

  /**
   * `SectorsAmtBitwidth`: the bit width of a miner's sectors array by actor version;
   * -1 and an error for any other code.
   */
  function SectorsAmtBitwidth(c: ActorCode): (r: WidthAndError)
    ensures r.1.None? <==> c in {MinerV0, MinerV2, MinerV3, MinerV4}
    ensures IsLegacyMinerCode(c) ==> r == (3, None)
    ensures c == MinerV3 || c == MinerV4 ==> r == (SectorsAmtBitwidthV3, None)
    ensures r.1.Some? ==> r == (-1, Some(UnknownActorCode(c)))
  {
    match c
    case MinerV0 => (3, None)
    case MinerV2 => (3, None)
    case MinerV3 => (SectorsAmtBitwidthV3, None)
    case MinerV4 => (SectorsAmtBitwidthV3, None)
    case _ => (-1, Some(UnknownActorCode(c)))
  }

  /**
   * `mapRequiresLegacyDiffing`, in the order the checks are made: legacy exactly when a
   * v0/v2 miner is involved or the options differ.
   */
  function MapRequiresLegacyDiffing(pre: ActorCode, cur: ActorCode, preOpts: MapOpts, curOpts: MapOpts): (r: bool)
    ensures r <==> IsLegacyMinerCode(pre) || IsLegacyMinerCode(cur) || preOpts != curOpts
  {
    if pre == MinerV0 then true
    else if pre == MinerV2 then true
    else if cur == MinerV0 then true
    else if cur == MinerV2 then true
    else if preOpts != curOpts then true
    else false
  }

  /**
   * `arrayRequiresLegacyDiffing`, in the order the checks are made: legacy exactly when
   * a v0/v2 market code is involved (market, as written) or the widths differ.
   */
  function ArrayRequiresLegacyDiffing(pre: ActorCode, cur: ActorCode, preWidth: int, curWidth: int): (r: bool)
    ensures r <==> IsLegacyMarketCode(pre) || IsLegacyMarketCode(cur) || preWidth != curWidth
  {
    if pre == MarketV0 then true
    else if pre == MarketV2 then true
    else if cur == MarketV0 then true
    else if cur == MarketV2 then true
    else if preWidth != curWidth then true
    else false
  }

  /** For two miner states the array check reduces to comparing the bit widths. */
  lemma MinerArraysLegacyOnWidth(pre: ActorCode, cur: ActorCode, preWidth: int, curWidth: int)
    requires pre in {MinerV0, MinerV2, MinerV3, MinerV4} && cur in {MinerV0, MinerV2, MinerV3, MinerV4}
    ensures ArrayRequiresLegacyDiffing(pre, cur, preWidth, curWidth) <==> preWidth != curWidth
  {
  }

  /**
   * Between two miner versions of the same era (both up to v2, or both from v3) the
   * sectors array is diffed structurally; across eras it is diffed generically.
   */
  lemma SectorsStrategyByEra(pre: ActorCode, cur: ActorCode)
    requires pre in {MinerV0, MinerV2, MinerV3, MinerV4} && cur in {MinerV0, MinerV2, MinerV3, MinerV4}
    ensures ArrayRequiresLegacyDiffing(pre, cur, SectorsAmtBitwidth(pre).0, SectorsAmtBitwidth(cur).0) <==>
      IsLegacyMinerCode(pre) != IsLegacyMinerCode(cur)
  {
  }

  // ---------------------------------------------------------------------------
  // What the containers accumulate
  // ---------------------------------------------------------------------------

  /** The new values of the Add entries of a listing, in order. */
  function AddedValues<K>(cs: seq<Change<K, Bytes>>): seq<Bytes> {
    if cs == [] then []
    else AddedValues(cs[..|cs| - 1]) + if cs[|cs| - 1].Add? then [cs[|cs| - 1].after] else []
  }

  /** The old values of the Remove entries of a listing, in order. */
  function RemovedValues<K>(cs: seq<Change<K, Bytes>>): seq<Bytes> {
    if cs == [] then []
    else RemovedValues(cs[..|cs| - 1]) + if cs[|cs| - 1].Remove? then [cs[|cs| - 1].before] else []
  }

  /** The precommit container's handling of one change. */
  function PreCommitStep(pre: MinerState, cur: MinerState, acc: PreCommitChanges, c: Change<string, Bytes>): Result<PreCommitChanges, DiffError> {
    match c
    case Add(_, v) =>
      (match cur.decodePreCommit(v)
       case Ok(info) => Ok(acc.(added := acc.added + [info]))
       case Err(e) => Err(e))
    case Remove(_, v) =>
      (match pre.decodePreCommit(v)
       case Ok(info) => Ok(acc.(removed := acc.removed + [info]))
       case Err(e) => Err(e))
    case Modify(_, _, _) => Ok(acc)
  }

  /** The precommit results of a listing of changes; the first handler error aborts. */
  function PreCommitResults(pre: MinerState, cur: MinerState, cs: seq<Change<string, Bytes>>): Result<PreCommitChanges, DiffError> {
    if cs == [] then Ok(PreCommitChanges([], []))
    else
      match PreCommitResults(pre, cur, cs[..|cs| - 1])
      case Err(e) => Err(e)
      case Ok(acc) => PreCommitStep(pre, cur, acc, cs[|cs| - 1])
  }

  /** The handler for entry `c` fails to decode its value(s). */
  predicate PreCommitDecodeFails(pre: MinerState, cur: MinerState, c: Change<string, Bytes>) {
    (c.Add? && cur.decodePreCommit(c.after).Err?) || (c.Remove? && pre.decodePreCommit(c.before).Err?)
  }

  /**
   * The precommit diff succeeds iff every Add decodes with the newer state and every
   * Remove with the older one; then Added and Removed hold those decodings in order.
   */
  lemma {:induction false} PreCommitResultsShape(pre: MinerState, cur: MinerState, cs: seq<Change<string, Bytes>>)
    ensures PreCommitResults(pre, cur, cs).Ok? <==> forall i :: 0 <= i < |cs| ==> !PreCommitDecodeFails(pre, cur, cs[i])
    ensures PreCommitResults(pre, cur, cs).Ok? ==>
      var res := PreCommitResults(pre, cur, cs).value;
      |res.added| == |AddedValues(cs)| && |res.removed| == |RemovedValues(cs)| &&
      (forall i :: 0 <= i < |res.added| ==> cur.decodePreCommit(AddedValues(cs)[i]) == Ok(res.added[i])) &&
      (forall i :: 0 <= i < |res.removed| ==> pre.decodePreCommit(RemovedValues(cs)[i]) == Ok(res.removed[i]))
  {
    if cs != [] {
      var front := cs[..|cs| - 1];
      PreCommitResultsShape(pre, cur, front);
      assert forall i :: 0 <= i < |front| ==> cs[i] == front[i];
    }
  }

  /** The sector container's handling of one change. */
  function SectorStep(pre: MinerState, cur: MinerState, acc: SectorChanges, c: Change<nat, Bytes>): Result<SectorChanges, DiffError> {
    match c
    case Add(_, v) =>
      (match cur.decodeSector(v)
       case Ok(info) => Ok(acc.(added := acc.added + [info]))
       case Err(e) => Err(e))
    case Remove(_, v) =>
      (match pre.decodeSector(v)
       case Ok(info) => Ok(acc.(removed := acc.removed + [info]))
       case Err(e) => Err(e))
    case Modify(_, b, a) =>
      (match pre.decodeSector(b)
       case Err(e) => Err(e)
       case Ok(from) =>
         match cur.decodeSector(a)
         case Err(e) => Err(e)
         case Ok(to) =>
           if from.expiration != to.expiration then Ok(acc.(extended := acc.extended + [SectorExtension(from, to)]))
           else Ok(acc))
  }

  /** The sector results of a listing of changes; the first handler error aborts. */
  function SectorResults(pre: MinerState, cur: MinerState, cs: seq<Change<nat, Bytes>>): Result<SectorChanges, DiffError> {
    if cs == [] then Ok(SectorChanges([], [], []))
    else
      match SectorResults(pre, cur, cs[..|cs| - 1])
      case Err(e) => Err(e)
      case Ok(acc) => SectorStep(pre, cur, acc, cs[|cs| - 1])
  }

  /** The handler for entry `c` fails to decode one of its values. */
  predicate SectorDecodeFails(pre: MinerState, cur: MinerState, c: Change<nat, Bytes>) {
    || (c.Add? && cur.decodeSector(c.after).Err?)
    || (c.Remove? && pre.decodeSector(c.before).Err?)
    || (c.Modify? && (pre.decodeSector(c.before).Err? || cur.decodeSector(c.after).Err?))
  }

  /** Entry `c` is a Modify whose decoded versions disagree on the expiration. */
  predicate Extends(pre: MinerState, cur: MinerState, c: Change<nat, Bytes>, e: SectorExtension) {
    c.Modify? && pre.decodeSector(c.before) == Ok(e.from) && cur.decodeSector(c.after) == Ok(e.to) &&
    e.from.expiration != e.to.expiration
  }

  /**
   * The sector diff succeeds iff every value decodes; then Added and Removed hold the
   * decodings of the Add and Remove entries in order, and Extended holds exactly the
   * Modify entries whose expiration changed.
   */
  lemma {:induction false} SectorResultsShape(pre: MinerState, cur: MinerState, cs: seq<Change<nat, Bytes>>)
    ensures SectorResults(pre, cur, cs).Ok? <==> forall i :: 0 <= i < |cs| ==> !SectorDecodeFails(pre, cur, cs[i])
    ensures SectorResults(pre, cur, cs).Ok? ==>
      var res := SectorResults(pre, cur, cs).value;
      |res.added| == |AddedValues(cs)| && |res.removed| == |RemovedValues(cs)| &&
      (forall i :: 0 <= i < |res.added| ==> cur.decodeSector(AddedValues(cs)[i]) == Ok(res.added[i])) &&
      (forall i :: 0 <= i < |res.removed| ==> pre.decodeSector(RemovedValues(cs)[i]) == Ok(res.removed[i])) &&
      (forall e :: e in res.extended <==> exists i :: 0 <= i < |cs| && Extends(pre, cur, cs[i], e))
  {
    SectorResultsSucceed(pre, cur, cs);
    SectorResultsDecoded(pre, cur, cs);
    SectorResultsExtensions(pre, cur, cs);
  }

  lemma {:induction false} SectorResultsSucceed(pre: MinerState, cur: MinerState, cs: seq<Change<nat, Bytes>>)
    ensures SectorResults(pre, cur, cs).Ok? <==> forall i :: 0 <= i < |cs| ==> !SectorDecodeFails(pre, cur, cs[i])
  {
    if cs != [] {
      var front := cs[..|cs| - 1];
      SectorResultsSucceed(pre, cur, front);
      assert forall i :: 0 <= i < |front| ==> cs[i] == front[i];
    }
  }

  lemma {:induction false} SectorResultsDecoded(pre: MinerState, cur: MinerState, cs: seq<Change<nat, Bytes>>)
    ensures SectorResults(pre, cur, cs).Ok? ==>
      var res := SectorResults(pre, cur, cs).value;
      |res.added| == |AddedValues(cs)| && |res.removed| == |RemovedValues(cs)| &&
      (forall i :: 0 <= i < |res.added| ==> cur.decodeSector(AddedValues(cs)[i]) == Ok(res.added[i])) &&
      (forall i :: 0 <= i < |res.removed| ==> pre.decodeSector(RemovedValues(cs)[i]) == Ok(res.removed[i]))
  {
    if cs != [] {
      SectorResultsDecoded(pre, cur, cs[..|cs| - 1]);
    }
  }

  lemma {:induction false} SectorResultsExtensions(pre: MinerState, cur: MinerState, cs: seq<Change<nat, Bytes>>)
    ensures SectorResults(pre, cur, cs).Ok? ==>
      forall e :: e in SectorResults(pre, cur, cs).value.extended <==> exists i :: 0 <= i < |cs| && Extends(pre, cur, cs[i], e)
  {
    if cs != [] {
      var front := cs[..|cs| - 1];
      SectorResultsExtensions(pre, cur, front);
      assert forall i :: 0 <= i < |front| ==> cs[i] == front[i];
      if SectorResults(pre, cur, cs).Ok? {
        var res := SectorResults(pre, cur, cs).value;
        var acc := SectorResults(pre, cur, front).value;
        forall e | e in res.extended ensures exists i :: 0 <= i < |cs| && Extends(pre, cur, cs[i], e) {
          if e !in acc.extended {
            assert Extends(pre, cur, cs[|cs| - 1], e);
          }
        }
      }
    }
  }

  /** The keys of the Add entries of a listing, in order: `AddedValues` holds their new values. */
  function AddedKeySeq<K>(cs: seq<Change<K, Bytes>>): seq<K> {
    if cs == [] then []
    else AddedKeySeq(cs[..|cs| - 1]) + if cs[|cs| - 1].Add? then [cs[|cs| - 1].key] else []
  }

  /** The keys of the Remove entries of a listing, in order: `RemovedValues` holds their old values. */
  function RemovedKeySeq<K>(cs: seq<Change<K, Bytes>>): seq<K> {
    if cs == [] then []
    else RemovedKeySeq(cs[..|cs| - 1]) + if cs[|cs| - 1].Remove? then [cs[|cs| - 1].key] else []
  }

  /** No key is reported twice. */
  ghost predicate KeysDistinct<K, V>(cs: seq<Change<K, V>>) {
    forall i, j :: 0 <= i < j < |cs| ==> cs[i].key != cs[j].key
  }

  ghost predicate NoRepeats<K>(ks: seq<K>) {
    forall i, j :: 0 <= i < j < |ks| ==> ks[i] != ks[j]
  }

  /** A sequence without repeats has as many distinct elements as it is long. */
  lemma {:induction false} NoRepeatsCount<K>(ks: seq<K>)
    requires NoRepeats(ks)
    ensures |set k | k in ks| == |ks|
  {
    if ks != [] {
      var front := ks[..|ks| - 1];
      NoRepeatsCount(front);
      assert (set k | k in ks) == (set k | k in front) + {ks[|ks| - 1]};
      assert ks[|ks| - 1] !in (set k | k in front);
    }
  }

  /** A repeat-free enumeration of a set is as long as the set is large. */
  lemma EnumerationCount<K>(ks: seq<K>, s: set<K>)
    requires NoRepeats(ks) && forall k :: k in ks <==> k in s
    ensures |ks| == |s|
  {
    NoRepeatsCount(ks);
    assert (set k | k in ks) == s;
  }

  /**
   * Each Added value is paired with the key of its Add entry, and the Added keys are the
   * keys of the Add entries, without repeats when no key is reported twice.
   */
  lemma {:induction false} AddedKeysPaired<K>(cs: seq<Change<K, Bytes>>)
    requires KeysDistinct(cs)
    ensures |AddedKeySeq(cs)| == |AddedValues(cs)|
    ensures forall i :: 0 <= i < |AddedKeySeq(cs)| ==> Add(AddedKeySeq(cs)[i], AddedValues(cs)[i]) in cs
    ensures forall k :: k in AddedKeySeq(cs) <==> exists i :: 0 <= i < |cs| && cs[i].Add? && cs[i].key == k
    ensures NoRepeats(AddedKeySeq(cs))
  {
    if cs != [] {
      var front, last := cs[..|cs| - 1], cs[|cs| - 1];
      assert forall i :: 0 <= i < |front| ==> cs[i] == front[i];
      AddedKeysPaired(front);
      forall x | x in front ensures x in cs {
        var i :| 0 <= i < |front| && front[i] == x;
        assert cs[i] == x;
      }
      if last.Add? {
        forall x | x in AddedKeySeq(front) ensures x != last.key {
          var i :| 0 <= i < |front| && front[i].Add? && front[i].key == x;
          assert cs[i].key != cs[|cs| - 1].key;
        }
      }
    }
  }

  /** The same pairing for the Removed values and keys. */
  lemma {:induction false} RemovedKeysPaired<K>(cs: seq<Change<K, Bytes>>)
    requires KeysDistinct(cs)
    ensures |RemovedKeySeq(cs)| == |RemovedValues(cs)|
    ensures forall i :: 0 <= i < |RemovedKeySeq(cs)| ==> Remove(RemovedKeySeq(cs)[i], RemovedValues(cs)[i]) in cs
    ensures forall k :: k in RemovedKeySeq(cs) <==> exists i :: 0 <= i < |cs| && cs[i].Remove? && cs[i].key == k
    ensures NoRepeats(RemovedKeySeq(cs))
  {
    if cs != [] {
      var front, last := cs[..|cs| - 1], cs[|cs| - 1];
      assert forall i :: 0 <= i < |front| ==> cs[i] == front[i];
      RemovedKeysPaired(front);
      forall x | x in front ensures x in cs {
        var i :| 0 <= i < |front| && front[i] == x;
        assert cs[i] == x;
      }
      if last.Remove? {
        forall x | x in RemovedKeySeq(front) ensures x != last.key {
          var i :| 0 <= i < |front| && front[i].Remove? && front[i].key == x;
          assert cs[i].key != cs[|cs| - 1].key;
        }
      }
    }
  }

  /**
   * Over a complete listing the Added keys enumerate the keys present only in the newer
   * container, each once, and each Added value is the newer container's value there.
   */
  lemma ListedAdded<K>(cs: seq<Change<K, Bytes>>, prev: map<K, Bytes>, cur: map<K, Bytes>)
    requires IsDiffListing(cs, prev, cur)
    ensures |AddedValues(cs)| == |AddedKeys(prev, cur)| == |AddedKeySeq(cs)|
    ensures NoRepeats(AddedKeySeq(cs)) && forall k :: k in AddedKeySeq(cs) <==> k in AddedKeys(prev, cur)
    ensures forall i :: 0 <= i < |AddedValues(cs)| ==> AddedKeySeq(cs)[i] in cur && AddedValues(cs)[i] == cur[AddedKeySeq(cs)[i]]
  {
    ListingClassifies(cs, prev, cur);
    AddedKeysPaired(cs);
    var ks := AddedKeySeq(cs);
    forall k | k in AddKeysOf(cs) ensures k in ks {
      var i :| 0 <= i < |cs| && cs[i].Add? && cs[i].key == k;
    }
    forall k | k in ks ensures k in AddKeysOf(cs) {
      var i :| 0 <= i < |cs| && cs[i].Add? && cs[i].key == k;
      assert cs[i].key in AddKeysOf(cs);
    }
    forall i | 0 <= i < |AddedValues(cs)| ensures ks[i] in cur && AddedValues(cs)[i] == cur[ks[i]] {
      var j :| 0 <= j < |cs| && cs[j] == Add(ks[i], AddedValues(cs)[i]);
      assert Describes(cs[j], prev, cur);
    }
    EnumerationCount(ks, AddedKeys(prev, cur));
  }

  /**
   * Over a complete listing the Removed keys enumerate the keys present only in the older
   * container, each once, and each Removed value is the older container's value there.
   */
  lemma ListedRemoved<K>(cs: seq<Change<K, Bytes>>, prev: map<K, Bytes>, cur: map<K, Bytes>)
    requires IsDiffListing(cs, prev, cur)
    ensures |RemovedValues(cs)| == |RemovedKeys(prev, cur)| == |RemovedKeySeq(cs)|
    ensures NoRepeats(RemovedKeySeq(cs)) && forall k :: k in RemovedKeySeq(cs) <==> k in RemovedKeys(prev, cur)
    ensures forall i :: 0 <= i < |RemovedValues(cs)| ==> RemovedKeySeq(cs)[i] in prev && RemovedValues(cs)[i] == prev[RemovedKeySeq(cs)[i]]
  {
    ListingClassifies(cs, prev, cur);
    RemovedKeysPaired(cs);
    var ks := RemovedKeySeq(cs);
    forall k | k in RemoveKeysOf(cs) ensures k in ks {
      var i :| 0 <= i < |cs| && cs[i].Remove? && cs[i].key == k;
    }
    forall k | k in ks ensures k in RemoveKeysOf(cs) {
      var i :| 0 <= i < |cs| && cs[i].Remove? && cs[i].key == k;
      assert cs[i].key in RemoveKeysOf(cs);
    }
    forall i | 0 <= i < |RemovedValues(cs)| ensures ks[i] in prev && RemovedValues(cs)[i] == prev[ks[i]] {
      var j :| 0 <= j < |cs| && cs[j] == Remove(ks[i], RemovedValues(cs)[i]);
      assert Describes(cs[j], prev, cur);
    }
    EnumerationCount(ks, RemovedKeys(prev, cur));
  }

  /**
   * Over a complete listing, the Added values are the stored values at the keys present
   * only in the newer container, one per key, and the Removed values those at the keys
   * present only in the older one, one per key.
   */
  lemma {:induction false} ListedValues<K>(cs: seq<Change<K, Bytes>>, prev: map<K, Bytes>, cur: map<K, Bytes>)
    requires IsDiffListing(cs, prev, cur)
    ensures |AddedValues(cs)| == |AddedKeys(prev, cur)| && |RemovedValues(cs)| == |RemovedKeys(prev, cur)|
    ensures forall v :: v in AddedValues(cs) <==> exists k :: k in AddedKeys(prev, cur) && cur[k] == v
    ensures forall v :: v in RemovedValues(cs) <==> exists k :: k in RemovedKeys(prev, cur) && prev[k] == v
  {
    ListedAdded(cs, prev, cur);
    ListedRemoved(cs, prev, cur);
    ListingClassifies(cs, prev, cur);
    ValuesOfAdds(cs);
    forall v | (exists k :: k in AddedKeys(prev, cur) && cur[k] == v) ensures v in AddedValues(cs) {
      var k :| k in AddedKeys(prev, cur) && cur[k] == v;
      assert k in AddKeysOf(cs);
      var i :| 0 <= i < |cs| && cs[i].Add? && cs[i].key == k;
      assert Describes(cs[i], prev, cur);
    }
    forall v | v in AddedValues(cs) ensures exists k :: k in AddedKeys(prev, cur) && cur[k] == v {
      var i :| 0 <= i < |cs| && cs[i].Add? && cs[i].after == v;
      assert Describes(cs[i], prev, cur);
      assert cs[i].key in AddKeysOf(cs);
    }
    forall v | (exists k :: k in RemovedKeys(prev, cur) && prev[k] == v) ensures v in RemovedValues(cs) {
      var k :| k in RemovedKeys(prev, cur) && prev[k] == v;
      assert k in RemoveKeysOf(cs);
      var i :| 0 <= i < |cs| && cs[i].Remove? && cs[i].key == k;
      assert Describes(cs[i], prev, cur);
    }
    forall v | v in RemovedValues(cs) ensures exists k :: k in RemovedKeys(prev, cur) && prev[k] == v {
      var i :| 0 <= i < |cs| && cs[i].Remove? && cs[i].before == v;
      assert Describes(cs[i], prev, cur);
      assert cs[i].key in RemoveKeysOf(cs);
    }
  }

  /** A value is an Added (Removed) value iff some Add (Remove) entry carries it. */
  lemma {:induction false} ValuesOfAdds<K>(cs: seq<Change<K, Bytes>>)
    ensures forall v :: v in AddedValues(cs) <==> exists i :: 0 <= i < |cs| && cs[i].Add? && cs[i].after == v
    ensures forall v :: v in RemovedValues(cs) <==> exists i :: 0 <= i < |cs| && cs[i].Remove? && cs[i].before == v
  {
    if cs != [] {
      var front := cs[..|cs| - 1];
      ValuesOfAdds(front);
      assert forall i :: 0 <= i < |front| ==> cs[i] == front[i];
    }
  }

  /**
   * Over a complete listing of the loaded precommit maps, no precommit decode fails iff
   * the value of every key only in the newer map decodes with the newer state and that of
   * every key only in the older map with the older state.
   */
  lemma PreCommitDecodesOfListing(pre: MinerState, cur: MinerState, p: map<string, Bytes>, c: map<string, Bytes>,
                                  cs: seq<Change<string, Bytes>>)
    requires IsDiffListing(cs, p, c)
    ensures (forall i :: 0 <= i < |cs| ==> !PreCommitDecodeFails(pre, cur, cs[i])) <==>
      (forall k :: k in AddedKeys(p, c) ==> cur.decodePreCommit(c[k]).Ok?) &&
      (forall k :: k in RemovedKeys(p, c) ==> pre.decodePreCommit(p[k]).Ok?)
  {
    if forall i :: 0 <= i < |cs| ==> !PreCommitDecodeFails(pre, cur, cs[i]) {
      forall k | k in AddedKeys(p, c) ensures cur.decodePreCommit(c[k]).Ok? {
        assert k in p.Keys + c.Keys && Differs(k, p, c);
        var i :| 0 <= i < |cs| && cs[i].key == k;
        assert Describes(cs[i], p, c) && !PreCommitDecodeFails(pre, cur, cs[i]);
      }
      forall k | k in RemovedKeys(p, c) ensures pre.decodePreCommit(p[k]).Ok? {
        assert k in p.Keys + c.Keys && Differs(k, p, c);
        var i :| 0 <= i < |cs| && cs[i].key == k;
        assert Describes(cs[i], p, c) && !PreCommitDecodeFails(pre, cur, cs[i]);
      }
    }
    if (forall k :: k in AddedKeys(p, c) ==> cur.decodePreCommit(c[k]).Ok?) &&
       (forall k :: k in RemovedKeys(p, c) ==> pre.decodePreCommit(p[k]).Ok?) {
      forall i | 0 <= i < |cs| ensures !PreCommitDecodeFails(pre, cur, cs[i]) {
        assert Describes(cs[i], p, c);
      }
    }
  }

  /**
   * The precommit diff of `DiffPreCommits` when the traversal returns a complete listing
   * of the two loaded maps: it succeeds iff every added and every removed value decodes;
   * then Added holds the decodings of the newer map's values at the added keys, one per
   * key and as many as there are added keys, and Removed those of the older map's values
   * at the removed keys.
   */
  lemma PreCommitsOfListing(pre: MinerState, cur: MinerState, p: map<string, Bytes>, c: map<string, Bytes>,
                            cs: seq<Change<string, Bytes>>)
    requires pre.precommits == Ok(p) && cur.precommits == Ok(c)
    requires IsDiffListing(cs, p, c)
    ensures PreCommitResults(pre, cur, cs).Ok? <==>
      (forall k :: k in AddedKeys(p, c) ==> cur.decodePreCommit(c[k]).Ok?) &&
      (forall k :: k in RemovedKeys(p, c) ==> pre.decodePreCommit(p[k]).Ok?)
    ensures PreCommitResults(pre, cur, cs).Ok? ==>
      var res := PreCommitResults(pre, cur, cs).value;
      var added, removed := AddedKeySeq(cs), RemovedKeySeq(cs);
      |res.added| == |added| == |AddedKeys(p, c)| && |res.removed| == |removed| == |RemovedKeys(p, c)| &&
      NoRepeats(added) && (forall k :: k in added <==> k in AddedKeys(p, c)) &&
      NoRepeats(removed) && (forall k :: k in removed <==> k in RemovedKeys(p, c)) &&
      (forall i :: 0 <= i < |res.added| ==> added[i] in c && cur.decodePreCommit(c[added[i]]) == Ok(res.added[i])) &&
      (forall i :: 0 <= i < |res.removed| ==> removed[i] in p && pre.decodePreCommit(p[removed[i]]) == Ok(res.removed[i]))
  {
    PreCommitResultsShape(pre, cur, cs);
    PreCommitDecodesOfListing(pre, cur, p, c, cs);
    ListedAdded(cs, p, c);
    ListedRemoved(cs, p, c);
  }

  /**
   * Over a complete listing of the loaded sector arrays, no sector decode fails iff the
   * added values decode with the newer state, the removed ones with the older state, and
   * both versions of every modified value with their own state.
   */
  lemma SectorDecodesOfListing(pre: MinerState, cur: MinerState, p: map<nat, Bytes>, c: map<nat, Bytes>,
                               cs: seq<Change<nat, Bytes>>)
    requires IsDiffListing(cs, p, c)
    ensures (forall i :: 0 <= i < |cs| ==> !SectorDecodeFails(pre, cur, cs[i])) <==>
      (forall k :: k in AddedKeys(p, c) ==> cur.decodeSector(c[k]).Ok?) &&
      (forall k :: k in RemovedKeys(p, c) ==> pre.decodeSector(p[k]).Ok?) &&
      (forall k :: k in ModifiedKeys(p, c) ==> pre.decodeSector(p[k]).Ok? && cur.decodeSector(c[k]).Ok?)
  {
    if forall i :: 0 <= i < |cs| ==> !SectorDecodeFails(pre, cur, cs[i]) {
      forall k | k in AddedKeys(p, c) ensures cur.decodeSector(c[k]).Ok? {
        assert k in p.Keys + c.Keys && Differs(k, p, c);
        var i :| 0 <= i < |cs| && cs[i].key == k;
        assert Describes(cs[i], p, c) && !SectorDecodeFails(pre, cur, cs[i]);
      }
      forall k | k in RemovedKeys(p, c) ensures pre.decodeSector(p[k]).Ok? {
        assert k in p.Keys + c.Keys && Differs(k, p, c);
        var i :| 0 <= i < |cs| && cs[i].key == k;
        assert Describes(cs[i], p, c) && !SectorDecodeFails(pre, cur, cs[i]);
      }
      forall k | k in ModifiedKeys(p, c) ensures pre.decodeSector(p[k]).Ok? && cur.decodeSector(c[k]).Ok? {
        assert k in p.Keys + c.Keys && Differs(k, p, c);
        var i :| 0 <= i < |cs| && cs[i].key == k;
        assert Describes(cs[i], p, c) && !SectorDecodeFails(pre, cur, cs[i]);
      }
    }
    if (forall k :: k in AddedKeys(p, c) ==> cur.decodeSector(c[k]).Ok?) &&
       (forall k :: k in RemovedKeys(p, c) ==> pre.decodeSector(p[k]).Ok?) &&
       (forall k :: k in ModifiedKeys(p, c) ==> pre.decodeSector(p[k]).Ok? && cur.decodeSector(c[k]).Ok?) {
      forall i | 0 <= i < |cs| ensures !SectorDecodeFails(pre, cur, cs[i]) {
        assert Describes(cs[i], p, c);
      }
    }
  }

  /**
   * Over a complete listing, an entry extends `e` iff `e` decodes the two versions of a
   * modified key and their expirations differ.
   */
  lemma ExtensionsOfListing(pre: MinerState, cur: MinerState, p: map<nat, Bytes>, c: map<nat, Bytes>,
                            cs: seq<Change<nat, Bytes>>, e: SectorExtension)
    requires IsDiffListing(cs, p, c)
    ensures (exists i :: 0 <= i < |cs| && Extends(pre, cur, cs[i], e)) <==>
      exists k :: k in ModifiedKeys(p, c) && pre.decodeSector(p[k]) == Ok(e.from) && cur.decodeSector(c[k]) == Ok(e.to) &&
                  e.from.expiration != e.to.expiration
  {
    if exists i :: 0 <= i < |cs| && Extends(pre, cur, cs[i], e) {
      var i :| 0 <= i < |cs| && Extends(pre, cur, cs[i], e);
      assert Describes(cs[i], p, c);
      assert cs[i].key in ModifiedKeys(p, c);
    }
    if exists k :: k in ModifiedKeys(p, c) && pre.decodeSector(p[k]) == Ok(e.from) && cur.decodeSector(c[k]) == Ok(e.to) &&
                   e.from.expiration != e.to.expiration {
      var k :| k in ModifiedKeys(p, c) && pre.decodeSector(p[k]) == Ok(e.from) && cur.decodeSector(c[k]) == Ok(e.to) &&
               e.from.expiration != e.to.expiration;
      assert k in p.Keys + c.Keys && Differs(k, p, c);
      var i :| 0 <= i < |cs| && cs[i].key == k;
      assert Describes(cs[i], p, c);
      assert Extends(pre, cur, cs[i], e);
    }
  }

  /**
   * The sector diff of `DiffSectors` when the traversal returns a complete listing of the
   * two loaded arrays: it succeeds iff every added, removed and modified value decodes;
   * then Added and Removed hold the decodings at the added and removed keys, one per key,
   * and Extended holds exactly the decoded versions of the modified keys whose expiration
   * changed.
   */
  lemma SectorsOfListing(pre: MinerState, cur: MinerState, p: map<nat, Bytes>, c: map<nat, Bytes>,
                         cs: seq<Change<nat, Bytes>>)
    requires pre.sectors == Ok(p) && cur.sectors == Ok(c)
    requires IsDiffListing(cs, p, c)
    ensures SectorResults(pre, cur, cs).Ok? <==>
      (forall k :: k in AddedKeys(p, c) ==> cur.decodeSector(c[k]).Ok?) &&
      (forall k :: k in RemovedKeys(p, c) ==> pre.decodeSector(p[k]).Ok?) &&
      (forall k :: k in ModifiedKeys(p, c) ==> pre.decodeSector(p[k]).Ok? && cur.decodeSector(c[k]).Ok?)
    ensures SectorResults(pre, cur, cs).Ok? ==>
      var res := SectorResults(pre, cur, cs).value;
      var added, removed := AddedKeySeq(cs), RemovedKeySeq(cs);
      |res.added| == |added| == |AddedKeys(p, c)| && |res.removed| == |removed| == |RemovedKeys(p, c)| &&
      NoRepeats(added) && (forall k :: k in added <==> k in AddedKeys(p, c)) &&
      NoRepeats(removed) && (forall k :: k in removed <==> k in RemovedKeys(p, c)) &&
      (forall i :: 0 <= i < |res.added| ==> added[i] in c && cur.decodeSector(c[added[i]]) == Ok(res.added[i])) &&
      (forall i :: 0 <= i < |res.removed| ==> removed[i] in p && pre.decodeSector(p[removed[i]]) == Ok(res.removed[i]))
    ensures SectorResults(pre, cur, cs).Ok? ==>
      forall e :: e in SectorResults(pre, cur, cs).value.extended <==>
        exists k :: k in ModifiedKeys(p, c) && pre.decodeSector(p[k]) == Ok(e.from) && cur.decodeSector(c[k]) == Ok(e.to) &&
                    e.from.expiration != e.to.expiration
  {
    SectorResultsSucceed(pre, cur, cs);
    SectorDecodesOfListing(pre, cur, p, c, cs);
    SectorListsOfListing(pre, cur, p, c, cs);
    ExtendedOfListing(pre, cur, p, c, cs);
  }

  /** The Added and Removed part of `SectorsOfListing`. */
  lemma SectorListsOfListing(pre: MinerState, cur: MinerState, p: map<nat, Bytes>, c: map<nat, Bytes>,
                             cs: seq<Change<nat, Bytes>>)
    requires IsDiffListing(cs, p, c)
    ensures SectorResults(pre, cur, cs).Ok? ==>
      var res := SectorResults(pre, cur, cs).value;
      var added, removed := AddedKeySeq(cs), RemovedKeySeq(cs);
      |res.added| == |added| == |AddedKeys(p, c)| && |res.removed| == |removed| == |RemovedKeys(p, c)| &&
      NoRepeats(added) && (forall k :: k in added <==> k in AddedKeys(p, c)) &&
      NoRepeats(removed) && (forall k :: k in removed <==> k in RemovedKeys(p, c)) &&
      (forall i :: 0 <= i < |res.added| ==> added[i] in c && cur.decodeSector(c[added[i]]) == Ok(res.added[i])) &&
      (forall i :: 0 <= i < |res.removed| ==> removed[i] in p && pre.decodeSector(p[removed[i]]) == Ok(res.removed[i]))
  {
    SectorResultsDecoded(pre, cur, cs);
    ListedAdded(cs, p, c);
    ListedRemoved(cs, p, c);
  }

  /** The Extended part of `SectorsOfListing`. */
  lemma ExtendedOfListing(pre: MinerState, cur: MinerState, p: map<nat, Bytes>, c: map<nat, Bytes>,
                          cs: seq<Change<nat, Bytes>>)
    requires IsDiffListing(cs, p, c)
    ensures SectorResults(pre, cur, cs).Ok? ==>
      forall e :: e in SectorResults(pre, cur, cs).value.extended <==>
        exists k :: k in ModifiedKeys(p, c) && pre.decodeSector(p[k]) == Ok(e.from) && cur.decodeSector(c[k]) == Ok(e.to) &&
                    e.from.expiration != e.to.expiration
  {
    SectorResultsExtensions(pre, cur, cs);
    forall e ensures (exists i :: 0 <= i < |cs| && Extends(pre, cur, cs[i], e)) <==>
      exists k :: k in ModifiedKeys(p, c) && pre.decodeSector(p[k]) == Ok(e.from) && cur.decodeSector(c[k]) == Ok(e.to) &&
                  e.from.expiration != e.to.expiration {
      ExtensionsOfListing(pre, cur, p, c, cs, e);
    }
  }

  /** Diffing a miner's container against an unchanged copy yields empty results. */
  lemma UnchangedStateDiffsEmpty(pre: MinerState, cur: MinerState, pcs: seq<Change<string, Bytes>>, scs: seq<Change<nat, Bytes>>,
                                 precommits: map<string, Bytes>, sectors: map<nat, Bytes>)
    requires IsDiffListing(pcs, precommits, precommits) && IsDiffListing(scs, sectors, sectors)
    ensures PreCommitResults(pre, cur, pcs) == Ok(PreCommitChanges([], []))
    ensures SectorResults(pre, cur, scs) == Ok(SectorChanges([], [], []))
  {
    SelfDiffIsEmpty(pcs, precommits);
    SelfDiffIsEmpty(scs, sectors);
  }

  // ---------------------------------------------------------------------------
  // The containers and the dispatch
  // ---------------------------------------------------------------------------

  /** Collects precommit changes; decodes added values with `after`, removed with `pre`. */
  class PreCommitDiffContainer {
    const pre: MinerState
    const after: MinerState
    var results: PreCommitChanges

    constructor (pre: MinerState, after: MinerState)
      ensures this.pre == pre && this.after == after && results == PreCommitChanges([], [])
    {
      this.pre := pre;
      this.after := after;
      results := PreCommitChanges([], []);
    }

    method Add(key: string, val: Bytes) returns (err: Option<DiffError>)
      modifies this
      ensures after.decodePreCommit(val).Err? ==> err == Some(after.decodePreCommit(val).error) && results == old(results)
      ensures after.decodePreCommit(val).Ok? ==>
        err == None && results == old(results).(added := old(results).added + [after.decodePreCommit(val).value])
    {
      var decoded := after.decodePreCommit(val);
      if decoded.Err? {
        return Some(decoded.error);
      }
      results := results.(added := results.added + [decoded.value]);
      return None;
    }

    /** A changed precommit is not reported. */
    method Modify(key: string, from: Bytes, to: Bytes) returns (err: Option<DiffError>)
      ensures err == None
    {
      return None;
    }

    method Remove(key: string, val: Bytes) returns (err: Option<DiffError>)
      modifies this
      ensures pre.decodePreCommit(val).Err? ==> err == Some(pre.decodePreCommit(val).error) && results == old(results)
      ensures pre.decodePreCommit(val).Ok? ==>
        err == None && results == old(results).(removed := old(results).removed + [pre.decodePreCommit(val).value])
    {
      var decoded := pre.decodePreCommit(val);
      if decoded.Err? {
        return Some(decoded.error);
      }
      results := results.(removed := results.removed + [decoded.value]);
      return None;
    }
  }

  /** Collects sector changes; a modified sector is reported only when its expiration moved. */
  class SectorDiffContainer {
    const pre: MinerState
    const after: MinerState
    var results: SectorChanges

    constructor (pre: MinerState, after: MinerState)
      ensures this.pre == pre && this.after == after && results == SectorChanges([], [], [])
    {
      this.pre := pre;
      this.after := after;
      results := SectorChanges([], [], []);
    }

    method Add(key: nat, val: Bytes) returns (err: Option<DiffError>)
      modifies this
      ensures after.decodeSector(val).Err? ==> err == Some(after.decodeSector(val).error) && results == old(results)
      ensures after.decodeSector(val).Ok? ==>
        err == None && results == old(results).(added := old(results).added + [after.decodeSector(val).value])
    {
      var decoded := after.decodeSector(val);
      if decoded.Err? {
        return Some(decoded.error);
      }
      results := results.(added := results.added + [decoded.value]);
      return None;
    }

    method Modify(key: nat, from: Bytes, to: Bytes) returns (err: Option<DiffError>)
      modifies this
      ensures pre.decodeSector(from).Err? ==> err == Some(pre.decodeSector(from).error) && results == old(results)
      ensures pre.decodeSector(from).Ok? && after.decodeSector(to).Err? ==>
        err == Some(after.decodeSector(to).error) && results == old(results)
      ensures pre.decodeSector(from).Ok? && after.decodeSector(to).Ok? ==>
        var e := SectorExtension(pre.decodeSector(from).value, after.decodeSector(to).value);
        err == None &&
        results == if e.from.expiration != e.to.expiration
                   then old(results).(extended := old(results).extended + [e])
                   else old(results)
    {
      var siFrom := pre.decodeSector(from);
      if siFrom.Err? {
        return Some(siFrom.error);
      }
      var siTo := after.decodeSector(to);
      if siTo.Err? {
        return Some(siTo.error);
      }
      if siFrom.value.expiration != siTo.value.expiration {
        results := results.(extended := results.extended + [SectorExtension(siFrom.value, siTo.value)]);
      }
      return None;
    }

    method Remove(key: nat, val: Bytes) returns (err: Option<DiffError>)
      modifies this
      ensures pre.decodeSector(val).Err? ==> err == Some(pre.decodeSector(val).error) && results == old(results)
      ensures pre.decodeSector(val).Ok? ==>
        err == None && results == old(results).(removed := old(results).removed + [pre.decodeSector(val).value])
    {
      var decoded := pre.decodeSector(val);
      if decoded.Err? {
        return Some(decoded.error);
      }
      results := results.(removed := results.removed + [decoded.value]);
      return None;
    }
  }

  /** Feeds every change to the container by its kind, stopping at the first error. */
  method DispatchPreCommits(container: PreCommitDiffContainer, changes: seq<Change<string, Bytes>>)
    returns (r: Result<PreCommitChanges, DiffError>)
    requires container.results == PreCommitChanges([], [])
    modifies container
    ensures r == PreCommitResults(container.pre, container.after, changes)
  {
    var idx := 0;
    while idx < |changes|
      invariant 0 <= idx <= |changes|
      invariant PreCommitResults(container.pre, container.after, changes[..idx]) == Ok(container.results)
    {
      var change := changes[idx];
      assert changes[..idx + 1][..idx] == changes[..idx];
      var err;
      match change {
        case Add(k, a) => err := container.Add(k, a);
        case Remove(k, b) => err := container.Remove(k, b);
        case Modify(k, b, a) => err := container.Modify(k, b, a);
      }
      if err.Some? {
        PreCommitResultsErrSticks(container.pre, container.after, changes, idx + 1, err.value);
        return Err(err.value);
      }
      idx := idx + 1;
    }
    assert changes[..idx] == changes;
    return Ok(container.results);
  }

  lemma {:induction false} PreCommitResultsErrSticks(pre: MinerState, cur: MinerState, cs: seq<Change<string, Bytes>>, n: nat, e: DiffError)
    requires n <= |cs| && PreCommitResults(pre, cur, cs[..n]) == Err(e)
    ensures PreCommitResults(pre, cur, cs) == Err(e)
    decreases |cs| - n
  {
    if n < |cs| {
      assert cs[..n + 1][..n] == cs[..n];
      PreCommitResultsErrSticks(pre, cur, cs, n + 1, e);
    } else {
      assert cs[..n] == cs;
    }
  }

  method DispatchSectors(container: SectorDiffContainer, changes: seq<Change<nat, Bytes>>)
    returns (r: Result<SectorChanges, DiffError>)
    requires container.results == SectorChanges([], [], [])
    modifies container
    ensures r == SectorResults(container.pre, container.after, changes)
  {
    var idx := 0;
    while idx < |changes|
      invariant 0 <= idx <= |changes|
      invariant SectorResults(container.pre, container.after, changes[..idx]) == Ok(container.results)
    {
      var change := changes[idx];
      assert changes[..idx + 1][..idx] == changes[..idx];
      var err;
      match change {
        case Add(k, a) => err := container.Add(k, a);
        case Remove(k, b) => err := container.Remove(k, b);
        case Modify(k, b, a) => err := container.Modify(k, b, a);
      }
      if err.Some? {
        SectorResultsErrSticks(container.pre, container.after, changes, idx + 1, err.value);
        return Err(err.value);
      }
      idx := idx + 1;
    }
    assert changes[..idx] == changes;
    return Ok(container.results);
  }

  lemma {:induction false} SectorResultsErrSticks(pre: MinerState, cur: MinerState, cs: seq<Change<nat, Bytes>>, n: nat, e: DiffError)
    requires n <= |cs| && SectorResults(pre, cur, cs[..n]) == Err(e)
    ensures SectorResults(pre, cur, cs) == Err(e)
    decreases |cs| - n
  {
    if n < |cs| {
      assert cs[..n + 1][..n] == cs[..n];
      SectorResultsErrSticks(pre, cur, cs, n + 1, e);
    } else {
      assert cs[..n] == cs;
    }
  }

  /**
   * `DiffPreCommits`: load both precommit maps and both map options (any error is
   * returned before diffing), choose the strategy, and route the reported changes.
   */
  method DiffPreCommits(pre: MinerState, cur: MinerState, mapOpts: ActorCode -> Result<MapOpts, DiffError>, traverse: MapTraversal)
    returns (r: Result<PreCommitChanges, DiffError>)
    ensures pre.precommits.Err? ==> r == Err(pre.precommits.error)
    ensures pre.precommits.Ok? && cur.precommits.Err? ==> r == Err(cur.precommits.error)
    ensures pre.precommits.Ok? && cur.precommits.Ok? && mapOpts(pre.code).Err? ==> r == Err(mapOpts(pre.code).error)
    ensures pre.precommits.Ok? && cur.precommits.Ok? && mapOpts(pre.code).Ok? && mapOpts(cur.code).Err? ==>
      r == Err(mapOpts(cur.code).error)
    ensures pre.precommits.Ok? && cur.precommits.Ok? && mapOpts(pre.code).Ok? && mapOpts(cur.code).Ok? ==>
      (var strategy := if MapRequiresLegacyDiffing(pre.code, cur.code, mapOpts(pre.code).value, mapOpts(cur.code).value)
                       then GenericMap else HamtDiff(mapOpts(pre.code).value);
       var listing := traverse(strategy, pre.precommits.value, cur.precommits.value);
       r == if listing.Err? then Err(listing.error) else PreCommitResults(pre, cur, listing.value))
  {
    if pre.precommits.Err? {
      return Err(pre.precommits.error);
    }
    if cur.precommits.Err? {
      return Err(cur.precommits.error);
    }
    var preOpts := mapOpts(pre.code);
    if preOpts.Err? {
      return Err(preOpts.error);
    }
    var curOpts := mapOpts(cur.code);
    if curOpts.Err? {
      return Err(curOpts.error);
    }
    var container := new PreCommitDiffContainer(pre, cur);
    var strategy := if MapRequiresLegacyDiffing(pre.code, cur.code, preOpts.value, curOpts.value)
                    then GenericMap else HamtDiff(preOpts.value);
    var changes := traverse(strategy, pre.precommits.value, cur.precommits.value);
    if changes.Err? {
      return Err(changes.error);
    }
    r := DispatchPreCommits(container, changes.value);
  }

  /**
   * `DiffSectors`: load both sector arrays and both bit widths (an unknown actor code
   * on either side fails before diffing), choose the strategy, and route the changes.
   */
  method DiffSectors(pre: MinerState, cur: MinerState, traverse: ArrayTraversal)
    returns (r: Result<SectorChanges, DiffError>)
    ensures pre.sectors.Err? ==> r == Err(pre.sectors.error)
    ensures pre.sectors.Ok? && cur.sectors.Err? ==> r == Err(cur.sectors.error)
    ensures pre.sectors.Ok? && cur.sectors.Ok? && SectorsAmtBitwidth(pre.code).1.Some? ==>
      r == Err(UnknownActorCode(pre.code))
    ensures pre.sectors.Ok? && cur.sectors.Ok? && SectorsAmtBitwidth(pre.code).1.None? && SectorsAmtBitwidth(cur.code).1.Some? ==>
      r == Err(UnknownActorCode(cur.code))
    ensures pre.sectors.Ok? && cur.sectors.Ok? && SectorsAmtBitwidth(pre.code).1.None? && SectorsAmtBitwidth(cur.code).1.None? ==>
      (var preWidth := SectorsAmtBitwidth(pre.code).0;
       var strategy := if ArrayRequiresLegacyDiffing(pre.code, cur.code, preWidth, SectorsAmtBitwidth(cur.code).0)
                       then GenericArray else AmtDiff(preWidth);
       var listing := traverse(strategy, pre.sectors.value, cur.sectors.value);
       r == if listing.Err? then Err(listing.error) else SectorResults(pre, cur, listing.value))
  {
    if pre.sectors.Err? {
      return Err(pre.sectors.error);
    }
    if cur.sectors.Err? {
      return Err(cur.sectors.error);
    }
    var (preWidth, preErr) := SectorsAmtBitwidth(pre.code);
    if preErr.Some? {
      return Err(preErr.value);
    }
    var (curWidth, curErr) := SectorsAmtBitwidth(cur.code);
    if curErr.Some? {
      return Err(curErr.value);
    }
    var container := new SectorDiffContainer(pre, cur);
    var strategy := if ArrayRequiresLegacyDiffing(pre.code, cur.code, preWidth, curWidth)
                    then GenericArray else AmtDiff(preWidth);
    var changes := traverse(strategy, pre.sectors.value, cur.sectors.value);
    if changes.Err? {
      return Err(changes.error);
    }
    r := DispatchSectors(container, changes.value);
  }
}
