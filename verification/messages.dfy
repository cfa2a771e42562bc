/**
 * The message task (tasks/message/message.go): from the messages of a tipset's blocks
 * it derives one row per (block, message) inclusion, one row per distinct message, the
 * list of messages for later processing stages and two gas-limit totals; it pairs each
 * parent receipt with its parent message; and it works through a leased batch of
 * tipsets, marking each one complete.
 */
module MessageTask {
  import opened Outcomes

  type Bytes = seq<bv8>

  /** A chain message, identified by its CID; amounts are unbounded integers here. */
  datatype Message = Message(
    cid: string, from: string, to: string, value: int, gasFeeCap: int, gasPremium: int,
    gasLimit: int, nonce: int, methodNum: int, params: Bytes)

  /** The messages one block includes: BLS-signed first, then secp256k1-signed. */
  datatype BlockMessages = BlockMessages(block: string, blsMessages: seq<Message>, secpkMessages: seq<Message>)

  /** One inclusion of a message by a block. */
  datatype Inclusion = Inclusion(block: string, message: Message)

  datatype BlockMessageRow = BlockMessageRow(block: string, message: string)

  datatype MessageRow = MessageRow(
    cid: string, from: string, to: string, value: int, gasFeeCap: int, gasPremium: int,
    gasLimit: int, sizeBytes: int, nonce: int, methodNum: int, params: Bytes)

  /** A message queued for the later processing stages, with the tipset height. */
  datatype ProcessingMessage = ProcessingMessage(cid: string, height: int)

  /**
   * The integer part of the gas economy row. As the code names them, `gasLimitTotal`
   * counts each distinct message once and `gasLimitUniqueTotal` counts every inclusion.
   */
  datatype GasEconomy = GasEconomy(stateRoot: string, gasLimitTotal: int, gasLimitUniqueTotal: int)

  datatype MessageModels = MessageModels(
    messages: seq<MessageRow>, blockMessages: seq<BlockMessageRow>,
    processing: seq<ProcessingMessage>, economy: GasEconomy)

  /** Serialising a message to its wire bytes, or the error doing so. */
  type Serializer = Message -> Result<Bytes, string>

  // ---------------------------------------------------------------------------
  // Reference definitions
  // ---------------------------------------------------------------------------

  function BlockInclusions(b: BlockMessages): seq<Inclusion> {
    var vmm := b.blsMessages + b.secpkMessages;
    seq(|vmm|, i requires 0 <= i < |vmm| => Inclusion(b.block, vmm[i]))
  }

  /** Every inclusion of every block, block by block in iteration order. */
  function Inclusions(blocks: seq<BlockMessages>): seq<Inclusion> {
    if blocks == [] then [] else Inclusions(blocks[..|blocks| - 1]) + BlockInclusions(blocks[|blocks| - 1])
  }

  function MessagesOf(incs: seq<Inclusion>): seq<Message> {
    seq(|incs|, i requires 0 <= i < |incs| => incs[i].message)
  }

  function BlockRows(incs: seq<Inclusion>): seq<BlockMessageRow> {
    seq(|incs|, i requires 0 <= i < |incs| => BlockMessageRow(incs[i].block, incs[i].message.cid))
  }

  function CidsOf(ms: seq<Message>): set<string> {
    set m | m in ms :: m.cid
  }

  /** The first message with each CID, in order of first appearance. */
  function FirstOccurrences(ms: seq<Message>): seq<Message> {
    if ms == [] then []
    else
      var first := FirstOccurrences(ms[..|ms| - 1]);
      if ms[|ms| - 1].cid in CidsOf(first) then first else first + [ms[|ms| - 1]]
  }

  function SumGas(ms: seq<Message>): int {
    if ms == [] then 0 else SumGas(ms[..|ms| - 1]) + ms[|ms| - 1].gasLimit
  }

  /** The error of the first message that fails to serialise, if any. */
  function FirstFailure(ms: seq<Message>, serialize: Serializer): Option<string> {
    if ms == [] then None
    else
      match FirstFailure(ms[..|ms| - 1], serialize)
      case Some(e) => Some(e)
      case None => if serialize(ms[|ms| - 1]).Err? then Some(serialize(ms[|ms| - 1]).error) else None
  }

  function SizeOf(m: Message, serialize: Serializer): int {
    match serialize(m)
    case Ok(b) => |b|
    case Err(_) => 0
  }

  function RowOf(m: Message, size: int): MessageRow {
    MessageRow(m.cid, m.from, m.to, m.value, m.gasFeeCap, m.gasPremium, m.gasLimit, size, m.nonce, m.methodNum, m.params)
  }

  function MessageRows(ms: seq<Message>, serialize: Serializer): seq<MessageRow> {
    seq(|ms|, i requires 0 <= i < |ms| => RowOf(ms[i], SizeOf(ms[i], serialize)))
  }

  function ProcessingRows(ms: seq<Message>, height: int): seq<ProcessingMessage> {
    seq(|ms|, i requires 0 <= i < |ms| => ProcessingMessage(ms[i].cid, height))
  }

  /**
   * What extraction yields for a tipset: a block-message row per inclusion, a message
   * row and a processing entry per distinct message (its first occurrence), and the two
   * gas sums; or the serialisation error of the first distinct message that has one.
   */
  function ExtractedModels(blocks: seq<BlockMessages>, height: int, stateRoot: string, serialize: Serializer): Result<MessageModels, string> {
    var incs := Inclusions(blocks);
    var all := MessagesOf(incs);
    var first := FirstOccurrences(all);
    match FirstFailure(first, serialize)
    case Some(e) => Err(e)
    case None =>
      Ok(MessageModels(MessageRows(first, serialize), BlockRows(incs), ProcessingRows(first, height),
                       GasEconomy(stateRoot, SumGas(first), SumGas(all))))
  }

  // ---------------------------------------------------------------------------
  // Properties of the reference definitions
  // ---------------------------------------------------------------------------

  /** No two first occurrences share a CID, and they cover every CID of the input. */
  lemma {:induction false} FirstOccurrencesDistinct(ms: seq<Message>)
    ensures forall i, j :: 0 <= i < j < |FirstOccurrences(ms)| ==> FirstOccurrences(ms)[i].cid != FirstOccurrences(ms)[j].cid
    ensures CidsOf(FirstOccurrences(ms)) == CidsOf(ms)
    ensures forall m :: m in FirstOccurrences(ms) ==> m in ms
  {
    if ms != [] {
      var front := ms[..|ms| - 1];
      var last := ms[|ms| - 1];
      FirstOccurrencesDistinct(front);
      var first := FirstOccurrences(front);
      assert ms == front + [last];
      assert CidsOf(ms) == CidsOf(front) + {last.cid};
      if last.cid !in CidsOf(first) {
        assert CidsOf(first + [last]) == CidsOf(first) + {last.cid};
        forall i | 0 <= i < |first| ensures first[i].cid != last.cid {
          assert first[i].cid in CidsOf(first);
        }
      }
    }
  }

  lemma {:induction false} SumGasAppend(a: seq<Message>, b: seq<Message>)
    ensures SumGas(a + b) == SumGas(a) + SumGas(b)
    decreases |b|
  {
    if b != [] {
      assert (a + b)[..|a + b| - 1] == a + b[..|b| - 1];
      SumGasAppend(a, b[..|b| - 1]);
    } else {
      assert a + b == a;
    }
  }

  /**
   * With non-negative gas limits, the first-occurrence total (`gasLimitTotal`) never
   * exceeds the every-inclusion total (`gasLimitUniqueTotal`).
   */
  lemma {:induction false} FirstOccurrenceGasBounded(ms: seq<Message>)
    requires forall i :: 0 <= i < |ms| ==> ms[i].gasLimit >= 0
    ensures 0 <= SumGas(FirstOccurrences(ms)) <= SumGas(ms)
  {
    if ms != [] {
      var front := ms[..|ms| - 1];
      var last := ms[|ms| - 1];
      FirstOccurrenceGasBounded(front);
      var first := FirstOccurrences(front);
      if last.cid !in CidsOf(first) {
        assert (first + [last])[..|first|] == first;
      }
    }
  }

  /** Each distinct message yields exactly one message row and one processing entry. */
  lemma ExtractedModelsShape(blocks: seq<BlockMessages>, height: int, stateRoot: string, serialize: Serializer)
    ensures ExtractedModels(blocks, height, stateRoot, serialize).Ok? ==>
      var r := ExtractedModels(blocks, height, stateRoot, serialize).value;
      |r.blockMessages| == |Inclusions(blocks)| &&
      |r.messages| == |r.processing| &&
      (forall i :: 0 <= i < |r.messages| ==> r.messages[i].cid == r.processing[i].cid && r.processing[i].height == height) &&
      (forall i, j :: 0 <= i < j < |r.messages| ==> r.messages[i].cid != r.messages[j].cid) &&
      (set i | 0 <= i < |r.messages| :: r.messages[i].cid) == CidsOf(MessagesOf(Inclusions(blocks)))
  {
    var all := MessagesOf(Inclusions(blocks));
    var first := FirstOccurrences(all);
    FirstOccurrencesDistinct(all);
    if ExtractedModels(blocks, height, stateRoot, serialize).Ok? {
      var r := ExtractedModels(blocks, height, stateRoot, serialize).value;
      assert forall i :: 0 <= i < |r.messages| ==> r.messages[i].cid == first[i].cid;
      assert (set i | 0 <= i < |r.messages| :: r.messages[i].cid) == CidsOf(first);
    }
  }

  /** A tipset whose distinct messages all serialise is extracted without error, and conversely. */
  lemma ExtractionFailsExactly(blocks: seq<BlockMessages>, height: int, stateRoot: string, serialize: Serializer)
    ensures ExtractedModels(blocks, height, stateRoot, serialize).Err? <==>
      exists m :: m in FirstOccurrences(MessagesOf(Inclusions(blocks))) && serialize(m).Err?
  {
    FailureExactly(FirstOccurrences(MessagesOf(Inclusions(blocks))), serialize);
  }

  lemma {:induction false} FailureExactly(ms: seq<Message>, serialize: Serializer)
    ensures FirstFailure(ms, serialize).Some? <==> exists m :: m in ms && serialize(m).Err?
    ensures FirstFailure(ms, serialize).Some? ==>
      exists i :: 0 <= i < |ms| && serialize(ms[i]) == Err(FirstFailure(ms, serialize).value) &&
                  forall j :: 0 <= j < i ==> serialize(ms[j]).Ok?
  {
    if ms != [] {
      var front := ms[..|ms| - 1];
      FailureExactly(front, serialize);
      assert ms == front + [ms[|ms| - 1]];
      if FirstFailure(front, serialize).Some? {
        var i :| 0 <= i < |front| && serialize(front[i]) == Err(FirstFailure(front, serialize).value) &&
                 forall j :: 0 <= j < i ==> serialize(front[j]).Ok?;
        assert ms[i] == front[i];
      }
    }
  }

  // ---------------------------------------------------------------------------
  // Extraction
  // ---------------------------------------------------------------------------

  /** The accumulators of `extractMessageModels`, including the set of CIDs seen. */
  datatype Accum = Accum(
    messages: seq<MessageRow>, blockMessages: seq<BlockMessageRow>, processing: seq<ProcessingMessage>,
    seen: set<string>, totalGasLimit: int, totalUniqGasLimit: int)

  /** The accumulators hold what the reference definitions give for the inclusions seen so far. */
  predicate Consistent(acc: Accum, incs: seq<Inclusion>, height: int, serialize: Serializer) {
    var first := FirstOccurrences(MessagesOf(incs));
    && FirstFailure(first, serialize).None?
    && acc.messages == MessageRows(first, serialize)
    && acc.blockMessages == BlockRows(incs)
    && acc.processing == ProcessingRows(first, height)
    && acc.seen == CidsOf(first)
    && acc.totalGasLimit == SumGas(first)
    && acc.totalUniqGasLimit == SumGas(MessagesOf(incs))
  }

  lemma StepInclusion(incs: seq<Inclusion>, x: Inclusion)
    ensures MessagesOf(incs + [x]) == MessagesOf(incs) + [x.message]
    ensures BlockRows(incs + [x]) == BlockRows(incs) + [BlockMessageRow(x.block, x.message.cid)]
    ensures MessagesOf(incs + [x])[..|incs|] == MessagesOf(incs)
  {
  }

  lemma StepFirst(first: seq<Message>, m: Message, height: int, serialize: Serializer)
    ensures MessageRows(first + [m], serialize) == MessageRows(first, serialize) + [RowOf(m, SizeOf(m, serialize))]
    ensures ProcessingRows(first + [m], height) == ProcessingRows(first, height) + [ProcessingMessage(m.cid, height)]
    ensures CidsOf(first + [m]) == CidsOf(first) + {m.cid}
    ensures (first + [m])[..|first|] == first
  {
    assert CidsOf(first + [m]) == CidsOf(first) + {m.cid};
  }

  /** First occurrences only grow when inclusions are appended. */
  lemma {:induction false} FirstOccurrencesPrefix(a: seq<Message>, b: seq<Message>)
    ensures |FirstOccurrences(a)| <= |FirstOccurrences(a + b)|
    ensures FirstOccurrences(a + b)[..|FirstOccurrences(a)|] == FirstOccurrences(a)
    decreases |b|
  {
    if b == [] {
      assert a + b == a;
    } else {
      var ab := a + b;
      assert ab[..|ab| - 1] == a + b[..|b| - 1];
      FirstOccurrencesPrefix(a, b[..|b| - 1]);
    }
  }

  lemma {:induction false} FailureSticks(f: seq<Message>, g: seq<Message>, serialize: Serializer)
    requires |f| <= |g| && g[..|f|] == f && FirstFailure(f, serialize).Some?
    ensures FirstFailure(g, serialize) == FirstFailure(f, serialize)
    decreases |g|
  {
    if |g| > |f| {
      assert g[..|g| - 1][..|f|] == f;
      FailureSticks(f, g[..|g| - 1], serialize);
    } else {
      assert g == f;
    }
  }

  /** A failure among the distinct messages so far survives any further inclusions. */
  lemma FailureSticksInclusions(a: seq<Inclusion>, b: seq<Inclusion>, e: string, serialize: Serializer)
    requires FirstFailure(FirstOccurrences(MessagesOf(a)), serialize) == Some(e)
    ensures FirstFailure(FirstOccurrences(MessagesOf(a + b)), serialize) == Some(e)
  {
    assert MessagesOf(a + b) == MessagesOf(a) + MessagesOf(b);
    FirstOccurrencesPrefix(MessagesOf(a), MessagesOf(b));
    FailureSticks(FirstOccurrences(MessagesOf(a)), FirstOccurrences(MessagesOf(a + b)), serialize);
  }

  /** Recording an inclusion of a message already seen: its block row and its gas, nothing else. */
  lemma SeenStep(acc: Accum, before: seq<Inclusion>, x: Inclusion, height: int, serialize: Serializer)
    requires Consistent(acc, before, height, serialize) && x.message.cid in acc.seen
    ensures Consistent(acc.(blockMessages := acc.blockMessages + [BlockMessageRow(x.block, x.message.cid)],
                            totalUniqGasLimit := acc.totalUniqGasLimit + x.message.gasLimit),
                       before + [x], height, serialize)
  {
    StepInclusion(before, x);
    var ms := MessagesOf(before + [x]);
    assert FirstOccurrences(ms) == FirstOccurrences(MessagesOf(before));
    assert SumGas(ms) == SumGas(MessagesOf(before)) + x.message.gasLimit;
  }

  /** Recording the first inclusion of a message that serialises. */
  lemma NewStep(acc: Accum, before: seq<Inclusion>, x: Inclusion, height: int, serialize: Serializer)
    requires Consistent(acc, before, height, serialize) && x.message.cid !in acc.seen && serialize(x.message).Ok?
    ensures Consistent(acc.(blockMessages := acc.blockMessages + [BlockMessageRow(x.block, x.message.cid)],
                            totalUniqGasLimit := acc.totalUniqGasLimit + x.message.gasLimit,
                            totalGasLimit := acc.totalGasLimit + x.message.gasLimit,
                            processing := acc.processing + [ProcessingMessage(x.message.cid, height)],
                            messages := acc.messages + [RowOf(x.message, |serialize(x.message).value|)],
                            seen := acc.seen + {x.message.cid}),
                       before + [x], height, serialize)
  {
    StepInclusion(before, x);
    var first := FirstOccurrences(MessagesOf(before));
    var ms := MessagesOf(before + [x]);
    StepFirst(first, x.message, height, serialize);
    assert FirstOccurrences(ms) == first + [x.message];
    assert SumGas(ms) == SumGas(MessagesOf(before)) + x.message.gasLimit;
    assert SumGas(first + [x.message]) == SumGas(first) + x.message.gasLimit;
    assert FirstFailure(first + [x.message], serialize) == None;
  }

  /** The first inclusion of a message that does not serialise makes the extraction fail. */
  lemma FailStep(acc: Accum, before: seq<Inclusion>, x: Inclusion, height: int, serialize: Serializer)
    requires Consistent(acc, before, height, serialize) && x.message.cid !in acc.seen && serialize(x.message).Err?
    ensures FirstFailure(FirstOccurrences(MessagesOf(before + [x])), serialize) == Some(serialize(x.message).error)
  {
    StepInclusion(before, x);
    var first := FirstOccurrences(MessagesOf(before));
    StepFirst(first, x.message, height, serialize);
    assert FirstOccurrences(MessagesOf(before + [x])) == first + [x.message];
  }

  /**
   * One pass of the inner loop of `extractMessageModels`: record the inclusion, and a
   * message not seen before as a message row and a processing entry, failing when it
   * does not serialise.
   */
  method RecordMessage(acc: Accum, before: seq<Inclusion>, block: string, message: Message, height: int, serialize: Serializer)
    returns (next: Accum, err: Option<string>)
    requires Consistent(acc, before, height, serialize)
    ensures err.None? ==> Consistent(next, before + [Inclusion(block, message)], height, serialize)
    ensures err.Some? ==> FirstFailure(FirstOccurrences(MessagesOf(before + [Inclusion(block, message)])), serialize) == Some(err.value)
  {
    ghost var x := Inclusion(block, message);
    if message.cid in acc.seen {
      SeenStep(acc, before, x, height, serialize);
      next := acc.(blockMessages := acc.blockMessages + [BlockMessageRow(block, message.cid)],
                   totalUniqGasLimit := acc.totalUniqGasLimit + message.gasLimit);
      return next, None;
    }
    var serialized := serialize(message);
    if serialized.Err? {
      FailStep(acc, before, x, height, serialize);
      return acc, Some(serialized.error);
    }
    NewStep(acc, before, x, height, serialize);
    next := acc.(blockMessages := acc.blockMessages + [BlockMessageRow(block, message.cid)],
                 totalUniqGasLimit := acc.totalUniqGasLimit + message.gasLimit,
                 totalGasLimit := acc.totalGasLimit + message.gasLimit,
                 processing := acc.processing + [ProcessingMessage(message.cid, height)],
                 messages := acc.messages + [RowOf(message, |serialized.value|)],
                 seen := acc.seen + {message.cid});
    err := None;
  }

  /** The inner loop of `extractMessageModels` over one block's BLS then secp256k1 messages. */
  method RecordBlock(acc: Accum, done: seq<Inclusion>, blk: BlockMessages, height: int, serialize: Serializer)
    returns (next: Accum, err: Option<string>)
    requires Consistent(acc, done, height, serialize)
    ensures err.None? ==> Consistent(next, done + BlockInclusions(blk), height, serialize)
    ensures err.Some? ==> FirstFailure(FirstOccurrences(MessagesOf(done + BlockInclusions(blk))), serialize) == Some(err.value)
  {
    var vmm := blk.blsMessages + blk.secpkMessages;
    var incs := BlockInclusions(blk);
    next, err := acc, None;
    var j := 0;
    assert done + incs[..0] == done;
    while j < |vmm|
      invariant 0 <= j <= |vmm| == |incs|
      invariant err == None
      invariant Consistent(next, done + incs[..j], height, serialize)
    {
      PrefixStep(done, incs, j);
      next, err := RecordMessage(next, done + incs[..j], blk.block, vmm[j], height, serialize);
      if err.Some? {
        PrefixFailureSticks(done, incs, j + 1, err.value, serialize);
        return;
      }
      j := j + 1;
    }
    assert incs[..j] == incs;
  }

  lemma PrefixStep(done: seq<Inclusion>, incs: seq<Inclusion>, j: nat)
    requires j < |incs|
    ensures done + incs[..j + 1] == (done + incs[..j]) + [incs[j]]
  {
    assert incs[..j + 1] == incs[..j] + [incs[j]];
  }

  lemma PrefixFailureSticks(done: seq<Inclusion>, incs: seq<Inclusion>, j: nat, e: string, serialize: Serializer)
    requires j <= |incs| && FirstFailure(FirstOccurrences(MessagesOf(done + incs[..j])), serialize) == Some(e)
    ensures FirstFailure(FirstOccurrences(MessagesOf(done + incs)), serialize) == Some(e)
  {
    FailureSticksInclusions(done + incs[..j], incs[j..], e, serialize);
    assert done + incs[..j] + incs[j..] == done + incs;
  }

  /**
   * `extractMessageModels` (its integer part): walk the blocks in iteration order, and
   * the result is the reference extraction of those blocks.
   */
  method ExtractMessageModels(blocks: seq<BlockMessages>, height: int, stateRoot: string, serialize: Serializer)
    returns (r: Result<MessageModels, string>)
    ensures r == ExtractedModels(blocks, height, stateRoot, serialize)
  {
    var acc := Accum([], [], [], {}, 0, 0);
    assert Consistent(acc, [], height, serialize);
    var idx := 0;
    while idx < |blocks|
      invariant 0 <= idx <= |blocks|
      invariant Consistent(acc, Inclusions(blocks[..idx]), height, serialize)
    {
      assert blocks[..idx + 1][..idx] == blocks[..idx];
      var err;
      acc, err := RecordBlock(acc, Inclusions(blocks[..idx]), blocks[idx], height, serialize);
      if err.Some? {
        FailureSticksInclusions(Inclusions(blocks[..idx + 1]), Inclusions(blocks[idx + 1..]), err.value, serialize);
        InclusionsSplit(blocks, idx + 1);
        return Err(err.value);
      }
      idx := idx + 1;
    }
    assert blocks[..idx] == blocks;
    return Ok(MessageModels(acc.messages, acc.blockMessages, acc.processing,
                            GasEconomy(stateRoot, acc.totalGasLimit, acc.totalUniqGasLimit)));
  }

  lemma {:induction false} InclusionsSplit(blocks: seq<BlockMessages>, n: nat)
    requires n <= |blocks|
    ensures Inclusions(blocks) == Inclusions(blocks[..n]) + Inclusions(blocks[n..])
    decreases |blocks|
  {
    if n == |blocks| {
      assert blocks[..n] == blocks;
      assert blocks[n..] == [];
    } else {
      var front := blocks[..|blocks| - 1];
      InclusionsSplit(front, n);
      assert front[..n] == blocks[..n];
      assert blocks[n..][..|blocks[n..]| - 1] == front[n..];
    }
  }

  // ---------------------------------------------------------------------------
  // Receipts
  // ---------------------------------------------------------------------------

  /** A receipt as the node reports it. */
  datatype Receipt = Receipt(exitCode: int, gasUsed: int, returnValue: Bytes)

  datatype ReceiptRow = ReceiptRow(message: string, stateRoot: string, idx: int, exitCode: int, gasUsed: int, returnValue: Bytes)

  datatype ReceiptError =
    | FetchFailed(message: string)
    /** More receipts than parent messages: indexing the messages goes out of range. */
    | IndexOutOfRange(block: string)

  /** One block's rows: receipt `i` is paired with parent message `i`. */
  function BlockReceipts(block: string, receipts: seq<Receipt>, parentMessages: seq<string>, stateRoot: string): Result<seq<ReceiptRow>, ReceiptError> {
    if |parentMessages| < |receipts| then Err(IndexOutOfRange(block))
    else Ok(seq(|receipts|, i requires 0 <= i < |receipts| =>
      ReceiptRow(parentMessages[i], stateRoot, i, receipts[i].exitCode, receipts[i].gasUsed, receipts[i].returnValue)))
  }

  /** The rows of all blocks in order; the first fetch error or pairing failure aborts. */
  function ReceiptRows(blocks: seq<string>, getReceipts: string -> Result<seq<Receipt>, string>,
                       getParentMessages: string -> Result<seq<string>, string>, stateRoot: string): Result<seq<ReceiptRow>, ReceiptError> {
    if blocks == [] then Ok([])
    else
      var blk := blocks[|blocks| - 1];
      match ReceiptRows(blocks[..|blocks| - 1], getReceipts, getParentMessages, stateRoot)
      case Err(e) => Err(e)
      case Ok(rows) =>
        match getReceipts(blk)
        case Err(e) => Err(FetchFailed(e))
        case Ok(recs) =>
          match getParentMessages(blk)
          case Err(e) => Err(FetchFailed(e))
          case Ok(msgs) =>
            match BlockReceipts(blk, recs, msgs, stateRoot)
            case Err(e) => Err(e)
            case Ok(more) => Ok(rows + more)
  }

  /** The number of receipts fetched for the blocks, assuming every fetch succeeds. */
  function ReceiptCount(blocks: seq<string>, getReceipts: string -> Result<seq<Receipt>, string>): int {
    if blocks == [] then 0
    else
      var last := match getReceipts(blocks[|blocks| - 1]) case Ok(recs) => |recs| case Err(_) => 0;
      ReceiptCount(blocks[..|blocks| - 1], getReceipts) + last
  }

  /**
   * Receipts are produced iff every fetch succeeds and no block has more receipts than
   * parent messages; then there is one row per receipt, carrying the parent state root.
   */
  lemma {:induction false} ReceiptRowsShape(blocks: seq<string>, getReceipts: string -> Result<seq<Receipt>, string>,
                                            getParentMessages: string -> Result<seq<string>, string>, stateRoot: string)
    ensures ReceiptRows(blocks, getReceipts, getParentMessages, stateRoot).Ok? <==>
      forall i :: 0 <= i < |blocks| ==>
        getReceipts(blocks[i]).Ok? && getParentMessages(blocks[i]).Ok? &&
        |getReceipts(blocks[i]).value| <= |getParentMessages(blocks[i]).value|
    ensures ReceiptRows(blocks, getReceipts, getParentMessages, stateRoot).Ok? ==>
      var rows := ReceiptRows(blocks, getReceipts, getParentMessages, stateRoot).value;
      |rows| == ReceiptCount(blocks, getReceipts) &&
      forall k :: 0 <= k < |rows| ==> rows[k].stateRoot == stateRoot
  {
    if blocks != [] {
      var front := blocks[..|blocks| - 1];
      ReceiptRowsShape(front, getReceipts, getParentMessages, stateRoot);
      assert forall i :: 0 <= i < |front| ==> blocks[i] == front[i];
    }
  }

  /** Receipt `i` of a block is paired with that block's parent message `i`, with index `i`. */
  lemma BlockReceiptsPairing(block: string, receipts: seq<Receipt>, parentMessages: seq<string>, stateRoot: string)
    ensures BlockReceipts(block, receipts, parentMessages, stateRoot).Ok? <==> |receipts| <= |parentMessages|
    ensures BlockReceipts(block, receipts, parentMessages, stateRoot).Ok? ==>
      var rows := BlockReceipts(block, receipts, parentMessages, stateRoot).value;
      |rows| == |receipts| &&
      forall i :: 0 <= i < |rows| ==>
        rows[i].idx == i && rows[i].message == parentMessages[i] &&
        rows[i].exitCode == receipts[i].exitCode && rows[i].gasUsed == receipts[i].gasUsed
  {
  }

  /** `fetchReceipts`: for each block, fetch its parent receipts and messages and pair them. */
  method FetchReceipts(blocks: seq<string>, getReceipts: string -> Result<seq<Receipt>, string>,
                       getParentMessages: string -> Result<seq<string>, string>, stateRoot: string)
    returns (r: Result<seq<ReceiptRow>, ReceiptError>)
    ensures r == ReceiptRows(blocks, getReceipts, getParentMessages, stateRoot)
  {
    var out: seq<ReceiptRow> := [];
    var b := 0;
    while b < |blocks|
      invariant 0 <= b <= |blocks|
      invariant ReceiptRows(blocks[..b], getReceipts, getParentMessages, stateRoot) == Ok(out)
    {
      var blk := blocks[b];
      assert blocks[..b + 1][..b] == blocks[..b];
      var recs := getReceipts(blk);
      if recs.Err? {
        ReceiptRowsErrSticks(blocks, b + 1, getReceipts, getParentMessages, stateRoot);
        return Err(FetchFailed(recs.error));
      }
      var msgs := getParentMessages(blk);
      if msgs.Err? {
        ReceiptRowsErrSticks(blocks, b + 1, getReceipts, getParentMessages, stateRoot);
        return Err(FetchFailed(msgs.error));
      }
      ghost var start := out;
      for i := 0 to |recs.value|
        invariant |out| == |start| + i
        invariant out[..|start|] == start
        invariant i <= |msgs.value| ==> forall k :: 0 <= k < i ==>
          out[|start| + k] == ReceiptRow(msgs.value[k], stateRoot, k, recs.value[k].exitCode, recs.value[k].gasUsed, recs.value[k].returnValue)
        invariant i <= |msgs.value|
      {
        if i >= |msgs.value| {
          ReceiptRowsErrSticks(blocks, b + 1, getReceipts, getParentMessages, stateRoot);
          return Err(IndexOutOfRange(blk));
        }
        var rec := recs.value[i];
        out := out + [ReceiptRow(msgs.value[i], stateRoot, i, rec.exitCode, rec.gasUsed, rec.returnValue)];
      }
      assert out == start + BlockReceipts(blk, recs.value, msgs.value, stateRoot).value;
      b := b + 1;
    }
    assert blocks[..b] == blocks;
    return Ok(out);
  }

  lemma {:induction false} ReceiptRowsErrSticks(blocks: seq<string>, n: nat, getReceipts: string -> Result<seq<Receipt>, string>,
                                                getParentMessages: string -> Result<seq<string>, string>, stateRoot: string)
    requires n <= |blocks| && ReceiptRows(blocks[..n], getReceipts, getParentMessages, stateRoot).Err?
    ensures ReceiptRows(blocks, getReceipts, getParentMessages, stateRoot) == ReceiptRows(blocks[..n], getReceipts, getParentMessages, stateRoot)
    decreases |blocks| - n
  {
    if n < |blocks| {
      assert blocks[..n + 1][..n] == blocks[..n];
      ReceiptRowsErrSticks(blocks, n + 1, getReceipts, getParentMessages, stateRoot);
    } else {
      assert blocks[..n] == blocks;
    }
  }

  // ---------------------------------------------------------------------------
  // Batches
  // ---------------------------------------------------------------------------

  /** A leased tipset awaiting message processing. */
  datatype LeasedTipSet = LeasedTipSet(tipSet: string, height: int)

  /** A completion mark: the tipset and its error text, empty on success. */
  datatype Completion = Completion(item: LeasedTipSet, errorText: string)

  /** The number of items begun before the clock first reaches the deadline. */
  function ItemsBegun(n: nat, clockAt: nat -> int, deadline: int): (k: nat)
    ensures k <= n
    ensures forall i :: 0 <= i < k ==> clockAt(i) < deadline
    ensures k < n ==> clockAt(k) >= deadline
  {
    if n == 0 then 0
    else if ItemsBegun(n - 1, clockAt, deadline) < n - 1 then ItemsBegun(n - 1, clockAt, deadline)
    else if clockAt(n - 1) < deadline then n
    else n - 1
  }

  /** The completion mark of one item given how processing it went. */
  function CompletionOf(item: LeasedTipSet, process: LeasedTipSet -> Option<string>): Completion {
    Completion(item, match process(item) case Some(e) => e case None => "")
  }

  /**
   * `processBatch`: lease a batch until `now + leaseLength`. The first result is the
   * done flag of the processor's repeat loop: a lease error ends the loop with that
   * error; every other outcome lets it carry on. An empty batch marks nothing; otherwise
   * each item begun before the deadline is processed and marked complete with its error
   * text, failures included, and the items left after the deadline are not marked.
   * `clockAt(i)` is the clock reading when item `i` is reached.
   */
  method ProcessBatch(now: int, leaseLength: int, lease: int -> Result<seq<LeasedTipSet>, string>,
                      clockAt: nat -> int, process: LeasedTipSet -> Option<string>)
    returns (done: bool, err: Option<string>, completions: seq<Completion>)
    ensures lease(now + leaseLength).Err? ==> done && err == Some(lease(now + leaseLength).error) && completions == []
    ensures lease(now + leaseLength).Ok? ==> !done && err == None
    ensures lease(now + leaseLength).Ok? ==>
      var batch := lease(now + leaseLength).value;
      var k := ItemsBegun(|batch|, clockAt, now + leaseLength);
      |completions| == k &&
      forall i :: 0 <= i < k ==> completions[i] == CompletionOf(batch[i], process)
  {
    var claimUntil := now + leaseLength;
    var leased := lease(claimUntil);
    if leased.Err? {
      return true, Some(leased.error), [];
    }
    var batch := leased.value;
    if |batch| == 0 {
      return false, None, [];
    }
    completions := [];
    ghost var k := ItemsBegun(|batch|, clockAt, claimUntil);
    for i := 0 to |batch|
      invariant i <= k
      invariant |completions| == i
      invariant forall j :: 0 <= j < i ==> completions[j] == CompletionOf(batch[j], process)
    {
      if clockAt(i) >= claimUntil {
        return false, None, completions;
      }
      var failure := process(batch[i]);
      if failure.Some? {
        completions := completions + [Completion(batch[i], failure.value)];
        continue;
      }
      completions := completions + [Completion(batch[i], "")];
    }
    return false, None, completions;
  }

  /** Every item of a batch is marked when the deadline is never reached, in order. */
  lemma AllBegunBeforeDeadline(n: nat, clockAt: nat -> int, deadline: int)
    requires forall i :: 0 <= i < n ==> clockAt(i) < deadline
    ensures ItemsBegun(n, clockAt, deadline) == n
  {
  }
}
