/**
 * The verified-registry extractor (tasks/actorstate/verifreg.go): which registry state
 * to compare against, and the DataCap rows and ADDED/REMOVED events it derives for
 * verifiers and verified clients, either from the whole state or from a diff.
 */
module VerifiedRegistry {
  import opened Outcomes
  import opened TreeDiff

  /** An address (in its text form) and the DataCap the registry holds for it. */
  datatype Entry = Entry(address: string, dataCap: int)

  /** An entry whose DataCap changed. */
  datatype EntryChange = EntryChange(before: Entry, after: Entry)

  /** What a registry diff reports about one of its two tables. */
  datatype EntryChanges = EntryChanges(added: seq<Entry>, modified: seq<EntryChange>, removed: seq<Entry>)

  /**
   * The decoded content of a registry actor: its verifiers and its verified clients,
   * each in iteration order, or the error met while walking them.
   */
  datatype RegistryContents = RegistryContents(verifiers: Result<seq<Entry>, string>, clients: Result<seq<Entry>, string>)

  /**
   * A loaded registry state. States are handled by reference: two loads give two
   * distinct states even when their content is the same.
   */
  class RegistryState {
    const contents: RegistryContents

    constructor (contents: RegistryContents)
      ensures this.contents == contents
    {
      this.contents := contents;
    }
  }

  /** The tipset being processed: its height and the parent state root it carries. */
  datatype TipSetHeader = TipSetHeader(height: int, parentStateRoot: string)

  /** The result of looking the registry actor up in the parent tipset. */
  datatype ParentLookup = Found(head: string) | ActorNotFound | LookupFailed(message: string)

  /** What the extractor is given about the actor. */
  datatype ActorInfo = ActorInfo(head: string, epoch: int, tipSet: TipSetHeader)

  datatype ExtractionContext = ExtractionContext(prevState: RegistryState, currState: RegistryState, currTs: TipSetHeader)

  const AddedEvent := "ADDED"
  const RemovedEvent := "REMOVED"

  /** A DataCap row as persisted for a verifier or a verified client. */
  datatype DataCapRow = DataCapRow(height: int, stateRoot: string, address: string, dataCap: int)

  /** An ADDED or REMOVED event as persisted for a verifier or a verified client. */
  datatype RegistryEvent = RegistryEvent(height: int, stateRoot: string, event: string, address: string)

  /** There is an earlier state to diff against: not the first epoch, and not the same state. */
  predicate HasPreviousState(ec: ExtractionContext) {
    !(ec.currTs.height == 1 || ec.prevState == ec.currState)
  }

  /**
   * `NewVerifiedRegistryExtractorContext`: the current state, and as previous state the
   * current one again at epoch 0 or when the actor did not exist in the parent tipset,
   * otherwise a separately loaded one.
   */
  method NewExtractionContext(a: ActorInfo, parent: ParentLookup, load: string -> Result<RegistryContents, string>)
    returns (r: Result<ExtractionContext, string>)
    ensures load(a.head).Err? ==> r.Err?
    ensures r.Ok? ==> r.value.currState.contents == load(a.head).value && r.value.currTs == a.tipSet
    ensures load(a.head).Ok? && (a.epoch == 0 || parent.ActorNotFound?) ==>
      r.Ok? && r.value.prevState == r.value.currState
    ensures load(a.head).Ok? && a.epoch != 0 && parent.LookupFailed? ==> r.Err?
    ensures load(a.head).Ok? && a.epoch != 0 && parent.Found? ==>
      (r.Ok? <==> load(parent.head).Ok?) &&
      (r.Ok? ==> r.value.prevState != r.value.currState && r.value.prevState.contents == load(parent.head).value)
    ensures r.Ok? ==> (HasPreviousState(r.value) <==> a.tipSet.height != 1 && a.epoch != 0 && parent.Found?)
  {
    var current := load(a.head);
    if current.Err? {
      return Err("loading current verified registry state: " + current.error);
    }
    var curState := new RegistryState(current.value);
    var prevState := curState;
    if a.epoch != 0 {
      match parent {
        case ActorNotFound =>
          return Ok(ExtractionContext(prevState, curState, a.tipSet));
        case LookupFailed(msg) =>
          return Err("loading previous verified registry actor: " + msg);
        case Found(head) =>
          var previous := load(head);
          if previous.Err? {
            return Err("loading previous verified registry state: " + previous.error);
          }
          prevState := new RegistryState(previous.value);
      }
    }
    return Ok(ExtractionContext(prevState, curState, a.tipSet));
  }

  // ---------------------------------------------------------------------------
  // Rows and events
  // ---------------------------------------------------------------------------

  /** One row per entry, stamped with the current height and parent state root. */
  function RowsFor(ts: TipSetHeader, entries: seq<Entry>): seq<DataCapRow> {
    seq(|entries|, i requires 0 <= i < |entries| =>
      DataCapRow(ts.height, ts.parentStateRoot, entries[i].address, entries[i].dataCap))
  }

  /** One event of the given kind per entry, stamped like the rows. */
  function EventsFor(ts: TipSetHeader, kind: string, entries: seq<Entry>): seq<RegistryEvent> {
    seq(|entries|, i requires 0 <= i < |entries| =>
      RegistryEvent(ts.height, ts.parentStateRoot, kind, entries[i].address))
  }

  /** The newer side of each modification. */
  function Afters(changes: seq<EntryChange>): seq<Entry> {
    seq(|changes|, i requires 0 <= i < |changes| => changes[i].after)
  }

  /** The rows a diff yields: the added entries, then the modified ones as they are now. */
  function DiffRows(ts: TipSetHeader, ch: EntryChanges): seq<DataCapRow> {
    RowsFor(ts, ch.added) + RowsFor(ts, Afters(ch.modified))
  }

  /** The events a diff yields: ADDED for the added entries, then REMOVED for the removed. */
  function DiffEvents(ts: TipSetHeader, ch: EntryChanges): seq<RegistryEvent> {
    EventsFor(ts, AddedEvent, ch.added) + EventsFor(ts, RemovedEvent, ch.removed)
  }

  /**
   * The multiplicities of a diff: a row per Added and per Modified entry, an event per
   * Added and per Removed entry; every row and event carries the tipset's stamp, and
   * Removed entries get no row while Modified ones get no event.
   */
  lemma DiffCounts(ts: TipSetHeader, ch: EntryChanges)
    ensures |DiffRows(ts, ch)| == |ch.added| + |ch.modified|
    ensures |DiffEvents(ts, ch)| == |ch.added| + |ch.removed|
    ensures forall r :: r in DiffRows(ts, ch) ==> r.height == ts.height && r.stateRoot == ts.parentStateRoot
    ensures forall e :: e in DiffEvents(ts, ch) ==> e.height == ts.height && e.stateRoot == ts.parentStateRoot
    ensures forall i :: 0 <= i < |ch.modified| ==>
      DiffRows(ts, ch)[|ch.added| + i].address == ch.modified[i].after.address &&
      DiffRows(ts, ch)[|ch.added| + i].dataCap == ch.modified[i].after.dataCap
    ensures forall i :: 0 <= i < |ch.added| ==> DiffEvents(ts, ch)[i].event == AddedEvent
    ensures forall i :: |ch.added| <= i < |DiffEvents(ts, ch)| ==> DiffEvents(ts, ch)[i].event == RemovedEvent
  {
    var rows := DiffRows(ts, ch);
    forall r | r in rows ensures r.height == ts.height && r.stateRoot == ts.parentStateRoot {
      var i :| 0 <= i < |rows| && rows[i] == r;
    }
    var events := DiffEvents(ts, ch);
    forall e | e in events ensures e.height == ts.height && e.stateRoot == ts.parentStateRoot {
      var i :| 0 <= i < |events| && events[i] == e;
    }
  }

  /** The genesis path: one row and one ADDED event per entry of the current state. */
  lemma GenesisCounts(ts: TipSetHeader, entries: seq<Entry>)
    ensures |RowsFor(ts, entries)| == |entries| == |EventsFor(ts, AddedEvent, entries)|
    ensures forall i :: 0 <= i < |entries| ==>
      RowsFor(ts, entries)[i].address == EventsFor(ts, AddedEvent, entries)[i].address == entries[i].address &&
      RowsFor(ts, entries)[i].dataCap == entries[i].dataCap
    ensures forall e :: e in EventsFor(ts, AddedEvent, entries) ==> e.event == AddedEvent
  {
    var events := EventsFor(ts, AddedEvent, entries);
    forall e | e in events ensures e.event == AddedEvent {
      var i :| 0 <= i < |events| && events[i] == e;
    }
  }

  // ---------------------------------------------------------------------------
  // Agreement with the container diff
  // ---------------------------------------------------------------------------

  /** Splits a listing of a registry table (address -> DataCap) into the three lists. */
  function ChangesOf(cs: seq<Change<string, int>>): EntryChanges {
    if cs == [] then EntryChanges([], [], [])
    else
      var acc := ChangesOf(cs[..|cs| - 1]);
      match cs[|cs| - 1]
      case Add(k, a) => acc.(added := acc.added + [Entry(k, a)])
      case Modify(k, b, a) => acc.(modified := acc.modified + [EntryChange(Entry(k, b), Entry(k, a))])
      case Remove(k, b) => acc.(removed := acc.removed + [Entry(k, b)])
  }

  lemma {:induction false} ChangesOfMembers(cs: seq<Change<string, int>>)
    ensures forall x :: x in ChangesOf(cs).added <==> exists i :: 0 <= i < |cs| && cs[i] == Add(x.address, x.dataCap)
    ensures forall x :: x in ChangesOf(cs).removed <==> exists i :: 0 <= i < |cs| && cs[i] == Remove(x.address, x.dataCap)
    ensures forall x :: x in Afters(ChangesOf(cs).modified) <==>
      exists i :: 0 <= i < |cs| && cs[i].Modify? && cs[i].key == x.address && cs[i].after == x.dataCap
  {
    AddedMembers(cs);
    RemovedMembers(cs);
    ModifiedMembers(cs);
  }

  lemma {:induction false} AddedMembers(cs: seq<Change<string, int>>)
    ensures forall x :: x in ChangesOf(cs).added <==> exists i :: 0 <= i < |cs| && cs[i] == Add(x.address, x.dataCap)
  {
    if cs != [] {
      var front := cs[..|cs| - 1];
      AddedMembers(front);
      assert forall i :: 0 <= i < |front| ==> cs[i] == front[i];
    }
  }

  lemma {:induction false} RemovedMembers(cs: seq<Change<string, int>>)
    ensures forall x :: x in ChangesOf(cs).removed <==> exists i :: 0 <= i < |cs| && cs[i] == Remove(x.address, x.dataCap)
  {
    if cs != [] {
      var front := cs[..|cs| - 1];
      RemovedMembers(front);
      assert forall i :: 0 <= i < |front| ==> cs[i] == front[i];
    }
  }

  lemma {:induction false} ModifiedMembers(cs: seq<Change<string, int>>)
    ensures forall x :: x in Afters(ChangesOf(cs).modified) <==>
      exists i :: 0 <= i < |cs| && cs[i].Modify? && cs[i].key == x.address && cs[i].after == x.dataCap
  {
    if cs != [] {
      var front := cs[..|cs| - 1];
      ModifiedMembers(front);
      assert forall i :: 0 <= i < |front| ==> cs[i] == front[i];
      var acc := ChangesOf(front);
      var ch := ChangesOf(cs);
      if cs[|cs| - 1].Modify? {
        assert Afters(ch.modified) == Afters(acc.modified) + [ch.modified[|ch.modified| - 1].after];
      } else {
        assert Afters(ch.modified) == Afters(acc.modified);
      }
    }
  }

  /**
   * Fed a complete listing of the change from `prev` to `cur`, the extractor writes a
   * row exactly for the addresses added or whose DataCap changed, each with its current
   * DataCap.
   */
  lemma {:induction false} DiffRowsMatchListing(ts: TipSetHeader, cs: seq<Change<string, int>>, prev: map<string, int>, cur: map<string, int>)
    requires IsDiffListing(cs, prev, cur)
    ensures forall r :: r in DiffRows(ts, ChangesOf(cs)) ==> r.address in cur && r.dataCap == cur[r.address]
    ensures forall a :: (exists r :: r in DiffRows(ts, ChangesOf(cs)) && r.address == a) <==>
      a in AddedKeys(prev, cur) + ModifiedKeys(prev, cur)
  {
    DiffRowsSound(ts, cs, prev, cur);
    DiffRowsComplete(ts, cs, prev, cur);
  }

  /** The rows of a diff are the rows of its added entries followed by its modified ones. */
  lemma DiffRowsOfNews(ts: TipSetHeader, ch: EntryChanges)
    ensures DiffRows(ts, ch) == RowsFor(ts, ch.added + Afters(ch.modified))
    ensures forall r :: r in DiffRows(ts, ch) <==>
      exists x :: x in ch.added + Afters(ch.modified) && r == DataCapRow(ts.height, ts.parentStateRoot, x.address, x.dataCap)
  {
    var news := ch.added + Afters(ch.modified);
    var rows := RowsFor(ts, news);
    assert DiffRows(ts, ch) == rows;
    forall r | r in rows
      ensures exists x :: x in news && r == DataCapRow(ts.height, ts.parentStateRoot, x.address, x.dataCap)
    {
      var j :| 0 <= j < |rows| && rows[j] == r;
      assert news[j] in news;
    }
    forall x | x in news ensures DataCapRow(ts.height, ts.parentStateRoot, x.address, x.dataCap) in rows {
      var j :| 0 <= j < |news| && news[j] == x;
      assert rows[j] == DataCapRow(ts.height, ts.parentStateRoot, x.address, x.dataCap);
    }
  }

  lemma {:induction false} DiffRowsSound(ts: TipSetHeader, cs: seq<Change<string, int>>, prev: map<string, int>, cur: map<string, int>)
    requires IsDiffListing(cs, prev, cur)
    ensures forall r :: r in DiffRows(ts, ChangesOf(cs)) ==>
      r.address in cur && r.dataCap == cur[r.address] && r.address in AddedKeys(prev, cur) + ModifiedKeys(prev, cur)
  {
    var ch := ChangesOf(cs);
    DiffRowsOfNews(ts, ch);
    AddedMembers(cs);
    ModifiedMembers(cs);
    ListingClassifies(cs, prev, cur);
    forall r | r in DiffRows(ts, ch)
      ensures r.address in cur && r.dataCap == cur[r.address] && r.address in AddedKeys(prev, cur) + ModifiedKeys(prev, cur)
    {
      var x :| x in ch.added + Afters(ch.modified) && r == DataCapRow(ts.height, ts.parentStateRoot, x.address, x.dataCap);
      if x in ch.added {
        var i :| 0 <= i < |cs| && cs[i] == Add(x.address, x.dataCap);
        assert Describes(cs[i], prev, cur);
        assert x.address in AddKeysOf(cs);
      } else {
        assert x in Afters(ch.modified);
        var i :| 0 <= i < |cs| && cs[i].Modify? && cs[i].key == x.address && cs[i].after == x.dataCap;
        assert Describes(cs[i], prev, cur);
        assert x.address in ModifyKeysOf(cs);
      }
    }
  }

  lemma {:induction false} DiffRowsComplete(ts: TipSetHeader, cs: seq<Change<string, int>>, prev: map<string, int>, cur: map<string, int>)
    requires IsDiffListing(cs, prev, cur)
    ensures forall a :: a in AddedKeys(prev, cur) + ModifiedKeys(prev, cur) ==>
      exists r :: r in DiffRows(ts, ChangesOf(cs)) && r.address == a
  {
    var ch := ChangesOf(cs);
    DiffRowsOfNews(ts, ch);
    AddedMembers(cs);
    ModifiedMembers(cs);
    ListingClassifies(cs, prev, cur);
    forall a | a in AddedKeys(prev, cur) + ModifiedKeys(prev, cur)
      ensures exists r :: r in DiffRows(ts, ch) && r.address == a
    {
      var i :| 0 <= i < |cs| && (cs[i].Add? || cs[i].Modify?) && cs[i].key == a;
      var x := Entry(a, cs[i].after);
      if cs[i].Add? {
        assert x in ch.added;
      } else {
        assert x in Afters(ch.modified);
      }
      assert x in ch.added + Afters(ch.modified);
      var r := DataCapRow(ts.height, ts.parentStateRoot, a, cs[i].after);
      assert r in DiffRows(ts, ch);
    }
  }

  /**
   * Fed a complete listing, the extractor emits an ADDED event exactly for the added
   * addresses and a REMOVED event exactly for the removed ones.
   */
  lemma {:induction false} DiffEventsMatchListing(ts: TipSetHeader, cs: seq<Change<string, int>>, prev: map<string, int>, cur: map<string, int>)
    requires IsDiffListing(cs, prev, cur)
    ensures forall a :: RegistryEvent(ts.height, ts.parentStateRoot, AddedEvent, a) in DiffEvents(ts, ChangesOf(cs)) <==>
      a in AddedKeys(prev, cur)
    ensures forall a :: RegistryEvent(ts.height, ts.parentStateRoot, RemovedEvent, a) in DiffEvents(ts, ChangesOf(cs)) <==>
      a in RemovedKeys(prev, cur)
  {
    ListingClassifies(cs, prev, cur);
    forall a ensures RegistryEvent(ts.height, ts.parentStateRoot, AddedEvent, a) in DiffEvents(ts, ChangesOf(cs)) <==> a in AddedKeys(prev, cur) {
      AddedEventFor(ts, cs, a);
    }
    forall a ensures RegistryEvent(ts.height, ts.parentStateRoot, RemovedEvent, a) in DiffEvents(ts, ChangesOf(cs)) <==> a in RemovedKeys(prev, cur) {
      RemovedEventFor(ts, cs, a);
    }
  }

  /** An event of a kind for an address is emitted exactly when an entry has that address. */
  lemma EventsForMember(ts: TipSetHeader, kind: string, entries: seq<Entry>, a: string)
    ensures RegistryEvent(ts.height, ts.parentStateRoot, kind, a) in EventsFor(ts, kind, entries) <==>
      exists x :: x in entries && x.address == a
    ensures forall e :: e in EventsFor(ts, kind, entries) ==> e.event == kind
  {
    var events := EventsFor(ts, kind, entries);
    var e := RegistryEvent(ts.height, ts.parentStateRoot, kind, a);
    if e in events {
      var j :| 0 <= j < |events| && events[j] == e;
      assert entries[j] in entries;
    }
    if exists x :: x in entries && x.address == a {
      var x :| x in entries && x.address == a;
      var j :| 0 <= j < |entries| && entries[j] == x;
      assert events[j] == e;
    }
  }

  lemma {:induction false} AddedEventFor(ts: TipSetHeader, cs: seq<Change<string, int>>, a: string)
    ensures RegistryEvent(ts.height, ts.parentStateRoot, AddedEvent, a) in DiffEvents(ts, ChangesOf(cs)) <==> a in AddKeysOf(cs)
  {
    var ch := ChangesOf(cs);
    EventsForMember(ts, AddedEvent, ch.added, a);
    EventsForMember(ts, RemovedEvent, ch.removed, a);
    ChangesOfMembers(cs);
    if exists x :: x in ch.added && x.address == a {
      var x :| x in ch.added && x.address == a;
      var i :| 0 <= i < |cs| && cs[i] == Add(a, x.dataCap);
      assert a in AddKeysOf(cs);
    }
    if a in AddKeysOf(cs) {
      var i :| 0 <= i < |cs| && cs[i].Add? && cs[i].key == a;
      assert Entry(a, cs[i].after) in ch.added;
    }
  }

  lemma {:induction false} RemovedEventFor(ts: TipSetHeader, cs: seq<Change<string, int>>, a: string)
    ensures RegistryEvent(ts.height, ts.parentStateRoot, RemovedEvent, a) in DiffEvents(ts, ChangesOf(cs)) <==> a in RemoveKeysOf(cs)
  {
    var ch := ChangesOf(cs);
    EventsForMember(ts, AddedEvent, ch.added, a);
    EventsForMember(ts, RemovedEvent, ch.removed, a);
    ChangesOfMembers(cs);
    if exists x :: x in ch.removed && x.address == a {
      var x :| x in ch.removed && x.address == a;
      var i :| 0 <= i < |cs| && cs[i] == Remove(a, x.dataCap);
      assert a in RemoveKeysOf(cs);
    }
    if a in RemoveKeysOf(cs) {
      var i :| 0 <= i < |cs| && cs[i].Remove? && cs[i].key == a;
      assert Entry(a, cs[i].before) in ch.removed;
    }
  }

  // ---------------------------------------------------------------------------
  // Extraction
  // ---------------------------------------------------------------------------

  /** Why extraction produced nothing. */
  datatype ExtractError = WalkFailed(message: string) | DiffFailed(message: string)

  /** The registry diff of one table between two states (not part of this model). */
  type RegistryDiff = (RegistryState, RegistryState) -> Result<EntryChanges, string>

  /** Appends a row per entry. */
  method AppendRows(ts: TipSetHeader, rows: seq<DataCapRow>, entries: seq<Entry>) returns (out: seq<DataCapRow>)
    ensures out == rows + RowsFor(ts, entries)
  {
    out := rows;
    for i := 0 to |entries|
      invariant out == rows + RowsFor(ts, entries[..i])
    {
      assert RowsFor(ts, entries[..i + 1]) == RowsFor(ts, entries[..i]) + RowsFor(ts, [entries[i]]);
      out := out + [DataCapRow(ts.height, ts.parentStateRoot, entries[i].address, entries[i].dataCap)];
    }
    assert entries[..|entries|] == entries;
  }

  /** Appends an event of the given kind per entry. */
  method AppendEvents(ts: TipSetHeader, events: seq<RegistryEvent>, kind: string, entries: seq<Entry>) returns (out: seq<RegistryEvent>)
    ensures out == events + EventsFor(ts, kind, entries)
  {
    out := events;
    for i := 0 to |entries|
      invariant out == events + EventsFor(ts, kind, entries[..i])
    {
      assert EventsFor(ts, kind, entries[..i + 1]) == EventsFor(ts, kind, entries[..i]) + EventsFor(ts, kind, [entries[i]]);
      out := out + [RegistryEvent(ts.height, ts.parentStateRoot, kind, entries[i].address)];
    }
    assert entries[..|entries|] == entries;
  }

  /**
   * The genesis path shared by both tables: one row and one ADDED event per entry,
   * built together entry by entry.
   */
  method ExtractAll(ts: TipSetHeader, entries: seq<Entry>) returns (rows: seq<DataCapRow>, events: seq<RegistryEvent>)
    ensures rows == RowsFor(ts, entries) && events == EventsFor(ts, AddedEvent, entries)
  {
    rows, events := [], [];
    for i := 0 to |entries|
      invariant rows == RowsFor(ts, entries[..i]) && events == EventsFor(ts, AddedEvent, entries[..i])
    {
      assert RowsFor(ts, entries[..i + 1]) == RowsFor(ts, entries[..i]) + RowsFor(ts, [entries[i]]);
      assert EventsFor(ts, AddedEvent, entries[..i + 1]) == EventsFor(ts, AddedEvent, entries[..i]) + EventsFor(ts, AddedEvent, [entries[i]]);
      rows := rows + [DataCapRow(ts.height, ts.parentStateRoot, entries[i].address, entries[i].dataCap)];
      events := events + [RegistryEvent(ts.height, ts.parentStateRoot, AddedEvent, entries[i].address)];
    }
    assert entries[..|entries|] == entries;
  }

  /**
   * `ExtractVerifiers`: without a previous state, every verifier of the current state;
   * otherwise the diff's Added, then Removed, then Modified lists. Any error leaves both
   * lists empty.
   */
  method ExtractVerifiers(ec: ExtractionContext, diff: RegistryDiff)
    returns (rows: seq<DataCapRow>, events: seq<RegistryEvent>, err: Option<ExtractError>)
    ensures !HasPreviousState(ec) ==>
      match ec.currState.contents.verifiers
      case Err(e) => rows == [] && events == [] && err == Some(WalkFailed(e))
      case Ok(all) => rows == RowsFor(ec.currTs, all) && events == EventsFor(ec.currTs, AddedEvent, all) && err == None
    ensures HasPreviousState(ec) ==>
      match diff(ec.prevState, ec.currState)
      case Err(e) => rows == [] && events == [] && err == Some(DiffFailed("diffing verifier registry verifiers: " + e))
      case Ok(ch) => rows == DiffRows(ec.currTs, ch) && events == DiffEvents(ec.currTs, ch) && err == None
  {
    if !HasPreviousState(ec) {
      var walked := ec.currState.contents.verifiers;
      if walked.Err? {
        return [], [], Some(WalkFailed(walked.error));
      }
      rows, events := ExtractAll(ec.currTs, walked.value);
      return rows, events, None;
    }
    var changes := diff(ec.prevState, ec.currState);
    if changes.Err? {
      return [], [], Some(DiffFailed("diffing verifier registry verifiers: " + changes.error));
    }
    var ch := changes.value;
    rows, events := ExtractAll(ec.currTs, ch.added);
    events := AppendEvents(ec.currTs, events, RemovedEvent, ch.removed);
    rows := AppendRows(ec.currTs, rows, Afters(ch.modified));
    err := None;
  }

  /**
   * `ExtractVerifiedClients`: as ExtractVerifiers over the clients table, walking the
   * diff's Added, then Modified, then Removed lists.
   */
  method ExtractVerifiedClients(ec: ExtractionContext, diff: RegistryDiff)
    returns (rows: seq<DataCapRow>, events: seq<RegistryEvent>, err: Option<ExtractError>)
    ensures !HasPreviousState(ec) ==>
      match ec.currState.contents.clients
      case Err(e) => rows == [] && events == [] && err == Some(WalkFailed(e))
      case Ok(all) => rows == RowsFor(ec.currTs, all) && events == EventsFor(ec.currTs, AddedEvent, all) && err == None
    ensures HasPreviousState(ec) ==>
      match diff(ec.prevState, ec.currState)
      case Err(e) => rows == [] && events == [] && err == Some(DiffFailed("diffing verifier registry clients: " + e))
      case Ok(ch) => rows == DiffRows(ec.currTs, ch) && events == DiffEvents(ec.currTs, ch) && err == None
  {
    if !HasPreviousState(ec) {
      var walked := ec.currState.contents.clients;
      if walked.Err? {
        return [], [], Some(WalkFailed(walked.error));
      }
      rows, events := ExtractAll(ec.currTs, walked.value);
      return rows, events, None;
    }
    var changes := diff(ec.prevState, ec.currState);
    if changes.Err? {
      return [], [], Some(DiffFailed("diffing verifier registry clients: " + changes.error));
    }
    var ch := changes.value;
    rows, events := ExtractAll(ec.currTs, ch.added);
    rows := AppendRows(ec.currTs, rows, Afters(ch.modified));
    events := AppendEvents(ec.currTs, events, RemovedEvent, ch.removed);
    err := None;
  }

  /** The four lists persisted for one registry actor. */
  datatype RegistryModels = RegistryModels(
    verifiers: seq<DataCapRow>, verifierEvents: seq<RegistryEvent>,
    clients: seq<DataCapRow>, clientEvents: seq<RegistryEvent>)

  /**
   * `Extract`: build the context, then the verifier lists, then the client lists; the
   * first error is returned and nothing is persisted.
   */
  method Extract(a: ActorInfo, parent: ParentLookup, load: string -> Result<RegistryContents, string>,
                 diffVerifiers: RegistryDiff, diffClients: RegistryDiff)
    returns (r: Result<RegistryModels, string>)
    ensures load(a.head).Err? ==> r.Err?
    ensures a.epoch == 0 && load(a.head).Ok? && load(a.head).value.verifiers.Ok? && load(a.head).value.clients.Ok? ==>
      var contents := load(a.head).value;
      r == Ok(RegistryModels(
        RowsFor(a.tipSet, contents.verifiers.value), EventsFor(a.tipSet, AddedEvent, contents.verifiers.value),
        RowsFor(a.tipSet, contents.clients.value), EventsFor(a.tipSet, AddedEvent, contents.clients.value)))
  {
    var ec := NewExtractionContext(a, parent, load);
    if ec.Err? {
      return Err(ec.error);
    }
    var verifiers, verifierEvents, verr := ExtractVerifiers(ec.value, diffVerifiers);
    if verr.Some? {
      return Err(verr.value.message);
    }
    var clients, clientEvents, cerr := ExtractVerifiedClients(ec.value, diffClients);
    if cerr.Some? {
      return Err(cerr.value.message);
    }
    return Ok(RegistryModels(verifiers, verifierEvents, clients, clientEvents));
  }
}
