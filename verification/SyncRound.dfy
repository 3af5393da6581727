/** One honest synchronisation round: locators, headers, blocks (p2p_relay.hpp). */
module SyncRound {
  import opened Types
  import opened BlockCodec
  import opened Consensus
  import opened Rules
  import opened ChainValidator
  import opened ChainFacts
  import opened ChainWork
  import opened ChainAgreement
  import opened Replacement
  import opened Relay
  import opened Locators
  import opened Sessions

  const BATCH := 1024

  // ----- Where the chains meet -----

  /** The responder recognises one of the locators, at a block both chains have at the same index;
      up to it the chains are equal. */
  lemma {:induction false} MeetingPoint(mine: seq<Block>, theirs: seq<Block>, s: set<Bytes>,
      locators: seq<Hash256>) returns (m: nat)
    requires ValidWithin(mine, s) && ValidWithin(theirs, s) && mine != [] && theirs != [] && mine[0] == theirs[0]
    requires |mine| - 1 <= 0x40_0008 && IsLocators(mine, locators)
    ensures m < |mine| && m < |theirs| && FirstKnown(theirs, locators) == Some(m)
    ensures mine[..m + 1] == theirs[..m + 1]
  {
    hide ValidWithin, BlockHash, FirstWithHash, FirstKnown, Distance, Pow2;
    LocatorsReachGenesis(mine, locators);
    assert locators[|locators| - 1] == BlockHash(theirs[0]);
    assert FirstWithHash(theirs, locators[|locators| - 1]) == 0;
    m := FirstKnown(theirs, locators).value;
    var n :| 0 <= n < |locators| && locators[n] == BlockHash(theirs[m]);
    SharedIndex(mine, theirs, s, LocatorIndex(|mine| - 1, n), m);
    SharedPrefix(mine, theirs, s, m);
  }

  /** More work means more blocks past the meeting point. */
  lemma {:induction false} MoreWorkGoesOn(mine: seq<Block>, theirs: seq<Block>, m: nat)
    requires m < |mine| && m < |theirs| && mine[..m + 1] == theirs[..m + 1] && Work(theirs) > Work(mine)
    ensures m + 1 < |theirs|
  {
    hide Work;
    WorkPrefix(mine, m + 1);
    assert theirs[..|theirs|] == theirs;
  }

  /** Where the headers of one reply end. */
  function ReplyEnd(theirs: seq<Block>, m: nat): (end: nat)
    requires m < |theirs|
    ensures m < end <= |theirs|
  {
    if |theirs| - (m + 1) <= MAX_HEADERS then |theirs| else m + 1 + MAX_HEADERS
  }

  // ----- The headers are accepted -----

  lemma {:induction false} HeaderAt(chain: seq<Block>, i: nat)
    requires Valid(chain) && 0 < i < |chain|
    ensures HeaderOk(chain[i].header)
    ensures chain[i].header.previousHash == BlockHash(chain[i - 1])
    ensures chain[i].header.height == NextHeight(chain[i - 1].header.height)
  {
    hide Rebuild, HeaderPowOk, RootsOk, ApplyBlock, Issue, HeaderHash, ExpectedDifficulty;
    BlockAt(chain, i);
    DifficultyBounded(chain, i);
  }

  lemma {:induction false} StretchLinked(chain: seq<Block>, a: nat, b: nat)
    requires Valid(chain) && 0 < a < b <= |chain|
    ensures var headers := HeadersOf(chain[a..b]);
      && headers != [] && Linked(headers) && (forall h :: h in headers ==> HeaderOk(h))
      && HeaderHashes(headers) == HashesOf(chain[a..b])
  {
    hide Rebuild, HeaderOk, HeaderHash;
    var headers := HeadersOf(chain[a..b]);
    forall i | 0 <= i < |headers|
      ensures HeaderOk(headers[i])
      ensures i > 0 ==>
        && headers[i].previousHash == HeaderHash(headers[i - 1])
        && headers[i].height == NextHeight(headers[i - 1].height)
    {
      HeaderAt(chain, a + i);
      if i > 0 {
        assert headers[i - 1] == chain[a + i - 1].header;
      }
    }
    forall h | h in headers ensures HeaderOk(h) {
      var i :| 0 <= i < |headers| && headers[i] == h;
    }
    assert HeaderHashes(headers) == HashesOf(chain[a..b]);
  }

  lemma {:induction false} OnlyThere(chain: seq<Block>, s: set<Bytes>, m: nat)
    requires ValidWithin(chain, s) && m < |chain|
    ensures FirstWithHash(chain, BlockHash(chain[m])) == m
  {
    hide ValidWithin, BlockHash, FirstWithHash;
    SharedIndex(chain, chain, s, FirstWithHash(chain, BlockHash(chain[m])), m);
  }

  /** The reply is taken as a direct extension exactly if the chains meet at the requester's tip,
      and as a fork otherwise. */
  lemma {:induction false} ReplyClassified(mine: seq<Block>, theirs: seq<Block>, s: set<Bytes>, m: nat)
    requires ValidWithin(mine, s) && ValidWithin(theirs, s) && m < |mine| && m + 1 < |theirs|
    requires mine[..m + 1] == theirs[..m + 1]
    ensures var blocks := theirs[m + 1..ReplyEnd(theirs, m)];
      Classify(mine, HeadersOf(blocks)) == if m == |mine| - 1 then Direct(HashesOf(blocks)) else Fork(HashesOf(blocks))
  {
    hide Rebuild, HeaderHash, HeaderOk, ValidWithin, FirstWithHash, Linked;
    WithinIsValid(mine, s);
    WithinIsValid(theirs, s);
    var end := ReplyEnd(theirs, m);
    var headers := HeadersOf(theirs[m + 1..end]);
    StretchLinked(theirs, m + 1, end);
    HeaderAt(theirs, m + 1);
    assert headers[0] == theirs[m + 1].header;
    assert mine[m] == mine[..m + 1][m] == theirs[m];
    OnlyThere(mine, s, m);
    OnlyThere(mine, s, |mine| - 1);
  }

  // ----- Direct extension -----

  /** Blocks past the meeting point, asked for in batches, each batch absorbed as it arrives. */
  ghost function DirectSync(mine: seq<Block>, theirs: seq<Block>, hashes: seq<Hash256>): seq<Block>
    decreases |hashes|
  {
    if |hashes| <= BATCH then Absorb(mine, KnownBlocks(theirs, hashes))
    else DirectSync(Absorb(mine, KnownBlocks(theirs, hashes[..BATCH])), theirs, hashes[BATCH..])
  }

  ghost predicate HashesDiffer(chain: seq<Block>) {
    forall x, y :: x in chain && y in chain && BlockHash(x) == BlockHash(y) ==> x == y
  }

  lemma {:induction false} OwnHashesDiffer(chain: seq<Block>, s: set<Bytes>)
    requires ValidWithin(chain, s)
    ensures HashesDiffer(chain)
  {
    hide ValidWithin, BlockHash;
    forall x, y | x in chain && y in chain && BlockHash(x) == BlockHash(y) ensures x == y {
      var i :| 0 <= i < |chain| && chain[i] == x;
      var j :| 0 <= j < |chain| && chain[j] == y;
      SharedIndex(chain, chain, s, i, j);
    }
  }

  /** Batching makes no difference to what is absorbed. */
  lemma {:induction false} DirectSyncAbsorbs(mine: seq<Block>, theirs: seq<Block>, blocks: seq<Block>)
    requires HashesDiffer(theirs) && forall b :: b in blocks ==> b in theirs
    ensures DirectSync(mine, theirs, HashesOf(blocks)) == Absorb(mine, blocks)
    decreases |blocks|
  {
    hide BlockHash, KnownBlocks, Absorb, Rebuild;
    if |blocks| <= BATCH {
      ServedExactly(theirs, blocks);
    } else {
      var first, rest := blocks[..BATCH], blocks[BATCH..];
      assert HashesOf(blocks)[..BATCH] == HashesOf(first);
      assert HashesOf(blocks)[BATCH..] == HashesOf(rest);
      ServedExactly(theirs, first);
      DirectSyncAbsorbs(Absorb(mine, first), theirs, rest);
      AbsorbConcat(mine, first, rest);
      assert blocks == first + rest;
    }
  }

  // ----- Fork session -----

  /** Each batch of a fork request is answered in full, with the blocks themselves. */
  lemma {:induction false} EveryBatchServed(theirs: seq<Block>, s: set<Bytes>, i: nat, j: nat)
    requires ValidWithin(theirs, s) && i <= j <= |theirs|
    ensures BlocksByHash(theirs, HashesOf(theirs[i..j])) == Some(theirs[i..j])
  {
    hide ValidWithin, BlockHash, KnownBlocks, BlocksByHash;
    OwnHashesDiffer(theirs, s);
    ServedExactly(theirs, theirs[i..j]);
  }

  /** The table after a sequence of events. */
  ghost function Steps(t: Table, events: seq<Event>): (r: Table)
    requires TableOk(t)
    ensures TableOk(r)
    decreases |events|
  {
    if events == [] then t
    else
      StepSafe(t, events[0]);
      Steps(Step(t, events[0]), events[1..])
  }

  /** Slots before `k` hold the blocks, the others are empty. */
  ghost predicate Filled(session: Session, blocks: seq<Block>, k: nat)
    requires k <= |blocks|
  {
    && session.headers == HeadersOf(blocks) && |session.blocks| == |blocks|
    && forall i :: 0 <= i < |blocks| ==> session.blocks[i] == if i < k then Some(blocks[i]) else None
  }

  ghost predicate DistinctHashes(blocks: seq<Block>) {
    forall i, j :: 0 <= i < j < |blocks| ==> BlockHash(blocks[i]) != BlockHash(blocks[j])
  }

  function EncodeAll(blocks: seq<Block>): seq<Bytes> {
    seq(|blocks|, i requires 0 <= i < |blocks| => EncodeBlock(blocks[i]))
  }

  lemma {:induction false} ReceiveNext(session: Session, blocks: seq<Block>, k: nat)
    requires k < |blocks| && Filled(session, blocks, k) && DistinctHashes(blocks) && BlockWithinCaps(blocks[k])
    ensures var r := Receive(session, EncodeBlock(blocks[k]));
      r.Some? && Filled(r.value, blocks, k + 1) && r.value.id == session.id
  {
    hide HeaderHash, DecodeBlock, EncodeBlock, BlockWithinCaps, FirstHeaderWith;
    BlockRoundTrip(blocks[k]);
    var i := FirstHeaderWith(session.headers, BlockHash(blocks[k]));
    assert session.headers[k] == blocks[k].header;
    assert i <= k && session.headers[i] == blocks[i].header;
  }

  lemma {:induction false} ReceiveStretch(session: Session, blocks: seq<Block>, k: nat, j: nat)
    requires k <= j <= |blocks| && Filled(session, blocks, k) && DistinctHashes(blocks)
    requires forall b :: b in blocks ==> BlockWithinCaps(b)
    ensures var r := ReceiveAll(session, EncodeAll(blocks)[k..j]);
      r.1 && Filled(r.0, blocks, j) && r.0.id == session.id
    decreases j - k
  {
    hide HeaderHash, EncodeBlock, BlockWithinCaps, Receive, Filled, DistinctHashes;
    FilledShape(session, blocks, k);
    if k < j {
      ReceiveNext(session, blocks, k);
      var encoded := EncodeAll(blocks)[k..j];
      assert encoded[0] == EncodeBlock(blocks[k]) && encoded[1..] == EncodeAll(blocks)[k + 1..j];
      ReceiveStretch(Receive(session, encoded[0]).value, blocks, k + 1, j);
    }
  }

  lemma {:induction false} FilledShape(session: Session, blocks: seq<Block>, k: nat)
    requires k <= |blocks| && Filled(session, blocks, k)
    ensures |session.blocks| == |session.headers|
  {
  }

  /** Frames of one session, non-empty and in order, that carry the blocks from slot `k` on. */
  ghost predicate Carries(events: seq<Event>, peer: u64, id: SessionId, encoded: seq<Bytes>)
    decreases |events|
  {
    if events == [] then encoded == []
    else
      && events[0].Frame? && events[0].peer == peer && events[0].id == id
      && events[0].encoded != [] && events[0].encoded <= encoded
      && Carries(events[1..], peer, id, encoded[|events[0].encoded|..])
  }

  /** How one GetSyncBlocks request is answered: by frames with the blocks, however split, or by an empty one. */
  ghost predicate AnswersBatch(events: seq<Event>, peer: u64, id: SessionId, answer: Option<seq<Block>>) {
    match answer
    case None => events == [Frame(peer, id, [])]
    case Some(blocks) => Carries(events, peer, id, EncodeAll(blocks))
  }

  /** What the responder sends for the requested hashes, batch after batch, each looked up in its chain. */
  ghost predicate Answers(events: seq<Event>, peer: u64, id: SessionId, theirs: seq<Block>, hashes: seq<Hash256>)
    decreases |hashes|
  {
    if |hashes| <= BATCH then AnswersBatch(events, peer, id, BlocksByHash(theirs, hashes))
    else
      exists k ::
        && 0 <= k <= |events|
        && AnswersBatch(events[..k], peer, id, BlocksByHash(theirs, hashes[..BATCH]))
        && Answers(events[k..], peer, id, theirs, hashes[BATCH..])
  }

  lemma {:induction false} CarriesConcat(x: seq<Event>, y: seq<Event>, peer: u64, id: SessionId,
      a: seq<Bytes>, b: seq<Bytes>)
    requires Carries(x, peer, id, a) && Carries(y, peer, id, b)
    ensures Carries(x + y, peer, id, a + b)
    decreases |x|
  {
    if x == [] {
      assert x + y == y && a + b == b;
    } else {
      var n := |x[0].encoded|;
      CarriesConcat(x[1..], y, peer, id, a[n..], b);
      assert (x + y)[1..] == x[1..] + y;
      assert (a + b)[n..] == a[n..] + b;
    }
  }

  /** Asked for the rest of its own chain, the responder sends exactly that. */
  lemma {:induction false} AnswerCarriesChain(events: seq<Event>, peer: u64, id: SessionId, theirs: seq<Block>,
      s: set<Bytes>, i: nat, j: nat)
    requires ValidWithin(theirs, s) && i <= j <= |theirs|
    requires Answers(events, peer, id, theirs, HashesOf(theirs[i..j]))
    ensures Carries(events, peer, id, EncodeAll(theirs[i..j]))
    decreases j - i
  {
    hide ValidWithin, BlocksByHash, Carries, HashesOf, EncodeAll, Answers;
    if j - i <= BATCH {
      EveryBatchServed(theirs, s, i, j);
      LastBatch(events, peer, id, theirs, i, j);
    } else {
      var mid := i + BATCH;
      var k := FirstBatch(events, peer, id, theirs, i, j);
      EveryBatchServed(theirs, s, i, mid);
      AnswerCarriesChain(events[k..], peer, id, theirs, s, mid, j);
      CarriesConcat(events[..k], events[k..], peer, id, EncodeAll(theirs[i..mid]), EncodeAll(theirs[mid..j]));
      assert events[..k] + events[k..] == events;
      EncodedApart(theirs, i, mid, j);
    }
  }

  lemma {:induction false} LastBatch(events: seq<Event>, peer: u64, id: SessionId, theirs: seq<Block>, i: nat, j: nat)
    requires i <= j <= |theirs| && j - i <= BATCH && Answers(events, peer, id, theirs, HashesOf(theirs[i..j]))
    ensures AnswersBatch(events, peer, id, BlocksByHash(theirs, HashesOf(theirs[i..j])))
  {
    hide BlockHash, BlocksByHash, Carries;
  }

  lemma {:induction false} FirstBatch(events: seq<Event>, peer: u64, id: SessionId, theirs: seq<Block>, i: nat, j: nat)
    returns (k: nat)
    requires i + BATCH < j <= |theirs| && Answers(events, peer, id, theirs, HashesOf(theirs[i..j]))
    ensures k <= |events|
    ensures AnswersBatch(events[..k], peer, id, BlocksByHash(theirs, HashesOf(theirs[i..i + BATCH])))
    ensures Answers(events[k..], peer, id, theirs, HashesOf(theirs[i + BATCH..j]))
  {
    hide BlockHash, BlocksByHash, Carries, AnswersBatch;
    var hashes := HashesOf(theirs[i..j]);
    assert hashes[..BATCH] == HashesOf(theirs[i..i + BATCH]);
    assert hashes[BATCH..] == HashesOf(theirs[i + BATCH..j]);
    k :| 0 <= k <= |events|
      && AnswersBatch(events[..k], peer, id, BlocksByHash(theirs, hashes[..BATCH]))
      && Answers(events[k..], peer, id, theirs, hashes[BATCH..]);
  }

  lemma {:induction false} EncodedApart(blocks: seq<Block>, i: nat, mid: nat, j: nat)
    requires i <= mid <= j <= |blocks|
    ensures EncodeAll(blocks[i..mid]) + EncodeAll(blocks[mid..j]) == EncodeAll(blocks[i..j])
  {
    hide EncodeBlock;
  }

  /** However the responder splits the blocks into frames, the session ends complete. */
  lemma {:induction false} FramesFill(t: Table, peer: u64, id: SessionId, blocks: seq<Block>, k: nat,
      events: seq<Event>)
    requires TableOk(t) && k <= |blocks| && peer in t && t[peer].id == id && Filled(t[peer], blocks, k)
    requires DistinctHashes(blocks) && forall b :: b in blocks ==> BlockWithinCaps(b)
    requires Carries(events, peer, id, EncodeAll(blocks)[k..])
    ensures peer in Steps(t, events) && Steps(t, events)[peer].id == id
    ensures Filled(Steps(t, events)[peer], blocks, |blocks|)
    decreases |events|
  {
    hide EncodeBlock, BlockWithinCaps, Filled, DistinctHashes, ReceiveAll, SessionOk;
    if events != [] {
      var e, all := events[0], EncodeAll(blocks);
      var j := k + |e.encoded|;
      assert e.encoded == all[k..j] && all[k..][|e.encoded|..] == all[j..];
      ReceiveStretch(t[peer], blocks, k, j);
      StepSafe(t, e);
      FramesFill(Step(t, e), peer, id, blocks, j, events[1..]);
    }
  }

  lemma {:induction false} FilledIsComplete(session: Session, blocks: seq<Block>)
    requires Filled(session, blocks, |blocks|)
    ensures IsComplete(session) && ReceivedBlocks(session) == blocks
  {
  }

  lemma {:induction false} StretchDistinct(chain: seq<Block>, s: set<Bytes>, a: nat, b: nat)
    requires ValidWithin(chain, s) && a <= b <= |chain|
    ensures DistinctHashes(chain[a..b])
  {
    hide ValidWithin, BlockHash;
    var blocks := chain[a..b];
    forall i, j | 0 <= i < j < |blocks| ensures BlockHash(blocks[i]) != BlockHash(blocks[j]) {
      if BlockHash(blocks[i]) == BlockHash(blocks[j]) {
        SharedIndex(chain, chain, s, a + i, a + j);
        assert false;
      }
    }
  }

  lemma {:induction false} StretchAssembles(mine: seq<Block>, theirs: seq<Block>, s: set<Bytes>, m: nat, end: nat)
    requires ValidWithin(mine, s) && ValidWithin(theirs, s) && m < |mine| && m + 1 < end <= |theirs|
    requires mine[..m + 1] == theirs[..m + 1]
    ensures var blocks := theirs[m + 1..end];
      AssembleCandidate(mine, HeadersOf(blocks), blocks) == Some(theirs[..end])
  {
    hide Rebuild, HeaderHash, HeaderOk, ValidWithin, FirstWithHash, Linked;
    WithinIsValid(mine, s);
    WithinIsValid(theirs, s);
    var blocks := theirs[m + 1..end];
    var headers := HeadersOf(blocks);
    StretchLinked(theirs, m + 1, end);
    HeaderAt(theirs, m + 1);
    assert headers[0] == theirs[m + 1].header;
    assert mine[m] == mine[..m + 1][m] == theirs[m];
    OnlyThere(mine, s, m);
    JoinsIff(mine[m], headers, blocks);
    assert theirs[..m + 1] + blocks == theirs[..end];
  }

  // ----- The round -----

  /** Part one: the requester's locators draw from a responder with more work a reply of headers that the requester
      accepts, as a direct extension or as a fork. */
  lemma {:induction false} RoundStarts(mine: seq<Block>, theirs: seq<Block>, s: set<Bytes>,
      locators: seq<Hash256>) returns (m: nat)
    requires ValidWithin(mine, s) && ValidWithin(theirs, s) && mine != [] && theirs != [] && mine[0] == theirs[0]
    requires |mine| - 1 <= 0x40_0008 && IsLocators(mine, locators) && Work(theirs) > Work(mine)
    ensures m < |mine| && m + 1 < |theirs| && mine[..m + 1] == theirs[..m + 1]
    ensures FirstKnown(theirs, locators) == Some(m)
    ensures var blocks := theirs[m + 1..ReplyEnd(theirs, m)];
      && HeadersReply(theirs, locators) == HeadersOf(blocks)
      && Classify(mine, HeadersOf(blocks)) ==
           if m == |mine| - 1 then Direct(HashesOf(blocks)) else Fork(HashesOf(blocks))
  {
    hide ValidWithin, Work, Classify, FirstKnown;
    m := MeetingPoint(mine, theirs, s, locators);
    MoreWorkGoesOn(mine, theirs, m);
    ReplyClassified(mine, theirs, s, m);
  }

  /** Part two, direct: the requester ends with the responder's chain, up to the last header sent. */
  lemma {:induction false} DirectRoundConverges(mine: seq<Block>, theirs: seq<Block>, s: set<Bytes>)
    requires ValidWithin(mine, s) && ValidWithin(theirs, s) && 0 < |mine| < |theirs| && mine == theirs[..|mine|]
    ensures var end := ReplyEnd(theirs, |mine| - 1);
      DirectSync(mine, theirs, HashesOf(theirs[|mine|..end])) == theirs[..end]
  {
    hide Rebuild, ValidWithin, DirectSync, Absorb, BlockHash;
    WithinIsValid(mine, s);
    WithinIsValid(theirs, s);
    var end := ReplyEnd(theirs, |mine| - 1);
    var blocks := theirs[|mine|..end];
    OwnHashesDiffer(theirs, s);
    DirectSyncAbsorbs(mine, theirs, blocks);
    assert mine + blocks == theirs[..end];
    RebuildPrefix(theirs, end);
    AbsorbAll(mine, blocks);
  }

  /** Part two, fork: the session is filled by any split of the blocks into frames, assembles to the responder's chain
      up to the last header sent, and replaces the local chain exactly if that is more work. In
      particular it does whenever the reply reached the responder's tip. */
  lemma {:induction false} ForkRoundConverges(mine: seq<Block>, theirs: seq<Block>, s: set<Bytes>, m: nat, t: Table,
      peer: u64, id: SessionId, events: seq<Event>)
    requires ValidWithin(mine, s) && ValidWithin(theirs, s) && m < |mine| && m + 1 < |theirs|
    requires mine[..m + 1] == theirs[..m + 1] && Work(theirs) > Work(mine)
    requires forall b :: b in theirs ==> BlockWithinCaps(b)
    requires TableOk(t) && peer in t && t[peer] == Opened(HeadersOf(theirs[m + 1..ReplyEnd(theirs, m)]), id)
    requires Answers(events, peer, id, theirs, HashesOf(theirs[m + 1..ReplyEnd(theirs, m)]))
    ensures var end := ReplyEnd(theirs, m);
      && peer in Steps(t, events) && IsComplete(Steps(t, events)[peer])
      && var session := Steps(t, events)[peer];
         && AssembleCandidate(mine, session.headers, ReceivedBlocks(session)) == Some(theirs[..end])
         && (PrepareReplacement(mine, theirs[..end]).Some? <==> HasMoreWork(theirs[..end], mine))
         && (PrepareReplacement(mine, theirs[..end]).Some? ==>
               PrepareReplacement(mine, theirs[..end]).value.chain == theirs[..end])
         && (end == |theirs| ==> theirs[..end] == theirs && PrepareReplacement(mine, theirs).Some?)
  {
    hide Rebuild, ValidWithin, EncodeBlock, BlockWithinCaps, Filled, DistinctHashes, Steps, Carries, BlockHash,
      AssembleCandidate, Work, WorkFits, SessionOk;
    var end := ReplyEnd(theirs, m);
    var blocks := theirs[m + 1..end];
    WithinIsValid(theirs, s);
    WithinIsValid(mine, s);
    ValidWorkFits(mine);
    AnswerCarriesChain(events, peer, id, theirs, s, m + 1, end);
    StretchDistinct(theirs, s, m + 1, end);
    OpenedIsUnfilled(blocks, id);
    assert EncodeAll(blocks)[0..] == EncodeAll(blocks);
    FramesFill(t, peer, id, blocks, 0, events);
    var session := Steps(t, events)[peer];
    FilledIsComplete(session, blocks);
    FilledHeaders(session, blocks);
    StretchAssembles(mine, theirs, s, m, end);
    RebuildPrefix(theirs, end);
    assert theirs[..end][0] == theirs[..m + 1][0] == mine[..m + 1][0] == mine[0];
    if end == |theirs| {
      assert theirs[..end] == theirs;
    }
  }

  lemma {:induction false} OpenedIsUnfilled(blocks: seq<Block>, id: SessionId)
    ensures Filled(Opened(HeadersOf(blocks), id), blocks, 0)
  {
  }

  lemma {:induction false} FilledHeaders(session: Session, blocks: seq<Block>)
    requires Filled(session, blocks, |blocks|)
    ensures session.headers == HeadersOf(blocks)
  {
  }

  /** The requester's chain after a round in which nothing else happens: it sends its locators, the responder answers
      with headers, and the blocks then arrive in batches or, for a fork, in the frames `events`. */
  ghost function AfterRound(mine: seq<Block>, theirs: seq<Block>, locators: seq<Hash256>, peer: u64, id: SessionId,
      events: seq<Event>): seq<Block> {
    var headers := HeadersReply(theirs, locators);
    match Classify(mine, headers)
    case Nothing => mine
    case Refused => mine
    case Direct(hashes) => DirectSync(mine, theirs, hashes)
    case Fork(_) =>
      var t := Steps(map[], [Headers(peer, headers, mine, id)] + events);
      if peer !in t || !IsComplete(t[peer]) then mine
      else
        match AssembleCandidate(mine, t[peer].headers, ReceivedBlocks(t[peer]))
        case None => mine
        case Some(candidate) =>
          match PrepareReplacement(mine, candidate)
          case None => mine
          case Some(plan) => plan.chain
  }

  lemma {:induction false} StepsFirst(e: Event, events: seq<Event>)
    ensures TableOk(Step(map[], e)) && Steps(map[], [e] + events) == Steps(Step(map[], e), events)
  {
    hide Step;
    StepSafe(map[], e);
    assert ([e] + events)[1..] == events;
  }

  lemma {:induction false} SessionOpens(mine: seq<Block>, headers: seq<BlockHeader>, peer: u64, id: SessionId)
    requires Classify(mine, headers).Fork?
    ensures var t := Step(map[], Headers(peer, headers, mine, id));
      peer in t && t[peer] == Opened(headers, id)
  {
    hide Classify;
  }

  /** The responder answers a fork request from its own chain. */
  ghost predicate HonestAnswer(mine: seq<Block>, theirs: seq<Block>, locators: seq<Hash256>, peer: u64, id: SessionId,
      events: seq<Event>)
  {
    var verdict := Classify(mine, HeadersReply(theirs, locators));
    verdict.Fork? ==> Answers(events, peer, id, theirs, verdict.hashes)
  }

  /** What one honest round does, however far the responder is ahead: the requester ends with the responder's chain up
      to the last header sent, unless that forks off and has no more work yet. */
  lemma {:induction false} RoundResult(mine: seq<Block>, theirs: seq<Block>, s: set<Bytes>,
      locators: seq<Hash256>, peer: u64, id: SessionId, events: seq<Event>) returns (m: nat)
    requires ValidWithin(mine, s) && ValidWithin(theirs, s) && mine != [] && theirs != [] && mine[0] == theirs[0]
    requires |mine| - 1 <= 0x40_0008 && IsLocators(mine, locators) && Work(theirs) > Work(mine)
    requires forall b :: b in theirs ==> BlockWithinCaps(b)
    requires HonestAnswer(mine, theirs, locators, peer, id, events)
    ensures m < |mine| && m < |theirs| && FirstKnown(theirs, locators) == Some(m)
    ensures var sent := theirs[..ReplyEnd(theirs, m)];
      AfterRound(mine, theirs, locators, peer, id, events) ==
        if m == |mine| - 1 || HasMoreWork(sent, mine) then sent else mine
  {
    hide ValidWithin, Work, Classify, FirstKnown, DirectSync, Steps, Step, PrepareReplacement, AssembleCandidate,
      Answers, BlockWithinCaps, SessionOk, IsLocators, BlockHash;
    m := RoundStarts(mine, theirs, s, locators);
    var headers := HeadersReply(theirs, locators);
    if m == |mine| - 1 {
      assert mine[..m + 1] == mine;
      DirectRoundConverges(mine, theirs, s);
    } else {
      var e := Headers(peer, headers, mine, id);
      StepsFirst(e, events);
      SessionOpens(mine, headers, peer, id);
      ForkRoundConverges(mine, theirs, s, m, Step(map[], e), peer, id, events);
    }
  }

  /** One honest round converges: two valid chains with one genesis and no collision, the requester's tip within reach
      of its locators, a responder with more work and at most 2000 blocks past the meeting point, which answers from
      its own chain in frames that decode and arrive in order. The requester ends with exactly the responder's chain. */
  lemma {:induction false} OneRoundConverges(mine: seq<Block>, theirs: seq<Block>, s: set<Bytes>,
      locators: seq<Hash256>, peer: u64, id: SessionId, events: seq<Event>)
    requires ValidWithin(mine, s) && ValidWithin(theirs, s) && mine != [] && theirs != [] && mine[0] == theirs[0]
    requires |mine| - 1 <= 0x40_0008 && IsLocators(mine, locators) && Work(theirs) > Work(mine)
    requires forall b :: b in theirs ==> BlockWithinCaps(b)
    requires FirstKnown(theirs, locators).Some? ==> |theirs| - (FirstKnown(theirs, locators).value + 1) <= MAX_HEADERS
    requires HonestAnswer(mine, theirs, locators, peer, id, events)
    ensures AfterRound(mine, theirs, locators, peer, id, events) == theirs
  {
    hide ValidWithin, Work, FirstKnown, BlockWithinCaps, IsLocators, HonestAnswer, AfterRound;
    var m := RoundResult(mine, theirs, s, locators, peer, id, events);
    assert theirs[..|theirs|] == theirs;
  }
}
