/** A synchronisation round between two nodes, down to their files (p2p_relay.hpp, node.hpp). Every message fits its
    payload, and nothing else happens meanwhile. */
module NodeSync {
  import opened Types
  import opened BlockCodec
  import opened BinaryIo
  import opened ChainValidator
  import opened ChainWork
  import opened ChainAgreement
  import opened Mempool
  import opened Replacement
  import opened Relay
  import opened Locators
  import opened Sessions
  import opened SyncRound
  import opened Storage
  import opened Node

  lemma {:induction false} LoadablePrefix(chain: seq<Block>, n: nat)
    requires Loadable(chain) && 0 < n <= |chain|
    ensures Loadable(chain[..n]) && DecodeFile(EncodeFile(chain[..n])) == Some(chain[..n])
  {
    hide Rebuild, Storable, BlockWithinCaps, EncodeFile, DecodeFile;
    RebuildPrefix(chain, n);
    assert forall b :: b in chain[..n] ==> b in chain;
    FileRoundTrip(chain[..n]);
  }

  /** One relayed batch that continues the stored chain is stored. */
  lemma {:induction false} BatchAbsorbed(theirs: seq<Block>, i: nat, j: nat)
    requires Loadable(theirs) && 0 < i < j <= |theirs|
    ensures Absorb(theirs[..i], theirs[i..j]) == theirs[..j] != theirs[..i] && Savable(theirs[..j])
  {
    hide Rebuild, Storable, BlockWithinCaps, Absorb;
    RebuildPrefix(theirs, i);
    RebuildPrefix(theirs, j);
    assert theirs[..i] + theirs[i..j] == theirs[..j];
    AbsorbAll(theirs[..i], theirs[i..j]);
    assert |theirs[..j]| != |theirs[..i]|;
    assert forall b :: b in theirs[..j] ==> b in theirs;
  }

  /** The stored chain is the first `n` blocks of the responder's. */
  ghost predicate Holds(node: Node, theirs: seq<Block>, n: nat)
    requires n <= |theirs|
    reads node, node.storage
  {
    node.storage.file == Some(EncodeFile(theirs[..n]))
  }

  /** One batch of a direct extension: asked for, served and relayed. */
  method FetchBatch(node: Node, theirs: seq<Block>, batch: seq<Hash256>, ghost i: nat, ghost j: nat,
      ghost s: set<Bytes>)
    requires node.Valid() && Loadable(theirs) && ValidWithin(theirs, s)
    requires 0 < i < j <= |theirs| && batch == HashesOf(theirs[i..j]) && Holds(node, theirs, i)
    modifies node, node.storage
    ensures node.Valid() && Holds(node, theirs, j)
  {
    hide Loadable, ValidWithin, HashesOf, KnownBlocks, Absorb, EncodeFile, DecodeFile, Savable, FileStep;
    var blocks := HandleGetBlocks(theirs, batch);
    StretchServed(theirs, s, i, j);
    LoadablePrefix(theirs, i);
    BatchAbsorbed(theirs, i, j);
    var _ := node.RelayBlocks(blocks);
  }

  /** The blocks of a direct extension, batch by batch. */
  method FetchDirect(node: Node, theirs: seq<Block>, hashes: seq<Hash256>, ghost start: nat, ghost end: nat,
      ghost s: set<Bytes>)
    requires node.Valid() && Loadable(theirs) && ValidWithin(theirs, s)
    requires 0 < start < end <= |theirs| && hashes == HashesOf(theirs[start..end]) && Holds(node, theirs, start)
    modifies node, node.storage
    ensures node.Valid() && Holds(node, theirs, end)
  {
    hide Loadable, ValidWithin, HashesOf, Holds, Bookkept, DecodeFile, EncodeFile;
    HashesApart(theirs, start, end, start, end);
    var at := 0;
    while at < |hashes|
      invariant 0 <= at <= |hashes| == end - start && node.Valid() && Holds(node, theirs, start + at)
    {
      var next := if |hashes| - at <= BATCH then |hashes| else at + BATCH;
      HashesApart(theirs, start, end, start + at, start + next);
      FetchBatch(node, theirs, hashes[at..next], start + at, start + next, s);
      at := next;
    }
  }

  lemma {:induction false} HashesApart(blocks: seq<Block>, start: nat, end: nat, i: nat, j: nat)
    requires start <= i <= j <= end <= |blocks|
    ensures |HashesOf(blocks[start..end])| == end - start
    ensures HashesOf(blocks[start..end])[i - start..j - start] == HashesOf(blocks[i..j])
  {
    hide BlockHash;
    var part := HashesOf(blocks[start..end])[i - start..j - start];
    assert forall k :: 0 <= k < j - i ==>
      part[k] == BlockHash(blocks[start..end][i - start + k]) == BlockHash(blocks[i + k]);
    assert part == HashesOf(blocks[i..j]);
  }

  lemma {:induction false} StretchServed(theirs: seq<Block>, s: set<Bytes>, i: nat, j: nat)
    requires ValidWithin(theirs, s) && i <= j <= |theirs|
    ensures KnownBlocks(theirs, HashesOf(theirs[i..j])) == theirs[i..j]
    ensures BlocksByHash(theirs, HashesOf(theirs[i..j])) == Some(theirs[i..j])
  {
    hide ValidWithin, BlockHash, KnownBlocks, BlocksByHash;
    OwnHashesDiffer(theirs, s);
    ServedExactly(theirs, theirs[i..j]);
  }

  /** The answer to one batch, encoded. */
  method EncodeBlocks(blocks: seq<Block>) returns (encoded: seq<Bytes>)
    requires forall b :: b in blocks ==> Encodable(b)
    ensures encoded == EncodeAll(blocks)
  {
    hide EncodeBlock, Encodable;
    encoded := [];
    for i := 0 to |blocks|
      invariant encoded == EncodeAll(blocks[..i])
    {
      var data := SerializeBlock(blocks[i]);
      assert blocks[i] in blocks;
      assert EncodeAll(blocks[..i + 1]) == EncodeAll(blocks[..i]) + [EncodeBlock(blocks[i])];
      encoded := encoded + [data.value];
    }
    assert blocks[..|blocks|] == blocks;
  }

  /** The blocks of a fork, asked for in batches under one session, until the session completes. */
  method FetchFork(table: SyncTable, theirs: seq<Block>, hashes: seq<Hash256>, peer: u64, id: SessionId,
      ghost start: nat, ghost end: nat, ghost s: set<Bytes>) returns (outcome: Sessions.Outcome)
    requires TableOk(table.pending) && Loadable(theirs) && ValidWithin(theirs, s)
    requires start < end <= |theirs| && hashes == HashesOf(theirs[start..end])
    requires peer in table.pending && table.pending[peer] == Opened(HeadersOf(theirs[start..end]), id)
    modifies table
    ensures TableOk(table.pending)
    ensures outcome == Completed(HeadersOf(theirs[start..end]), theirs[start..end])
  {
    hide Loadable, ValidWithin, HashesOf, Filled, TableOk, DistinctHashes, HeadersOf;
    ghost var all := theirs[start..end];
    OpenedIsUnfilled(all, id);
    HashesApart(theirs, start, end, start, end);
    outcome := Waiting;
    var at := 0;
    while at < |hashes|
      invariant 0 <= at <= |hashes| == end - start && TableOk(table.pending)
      invariant peer in table.pending && table.pending[peer].id == id && Filled(table.pending[peer], all, at)
      invariant at == |hashes| ==> outcome == Completed(HeadersOf(all), all)
    {
      var next := if |hashes| - at <= BATCH then |hashes| else at + BATCH;
      HashesApart(theirs, start, end, start + at, start + next);
      outcome := FetchFrame(table, theirs, hashes[at..next], peer, id, start, end, start + at, start + next, s);
      at := next;
    }
  }

  /** One batch of a fork: asked for, served in one frame and received. */
  method FetchFrame(table: SyncTable, theirs: seq<Block>, batch: seq<Hash256>, peer: u64, id: SessionId,
      ghost start: nat, ghost end: nat, ghost i: nat, ghost j: nat, ghost s: set<Bytes>)
    returns (outcome: Sessions.Outcome)
    requires TableOk(table.pending) && Loadable(theirs) && ValidWithin(theirs, s)
    requires start <= i < j <= end <= |theirs| && batch == HashesOf(theirs[i..j])
    requires peer in table.pending && table.pending[peer].id == id
    requires Filled(table.pending[peer], theirs[start..end], i - start)
    modifies table
    ensures TableOk(table.pending)
    ensures peer in table.pending && table.pending[peer].id == id
    ensures Filled(table.pending[peer], theirs[start..end], j - start)
    ensures j == end ==> outcome == Completed(HeadersOf(theirs[start..end]), theirs[start..end])
  {
    hide Loadable, ValidWithin, HashesOf, BlocksByHash, Filled, ReceiveAll, EncodeAll, TableOk, DistinctHashes,
      IsComplete, ReceivedBlocks, HeadersOf, BlockWithinCaps, Encodable;
    var answer := HandleGetSyncBlocks(theirs, batch);
    StretchServed(theirs, s, i, j);
    StretchDistinct(theirs, s, start, end);
    LoadableCaps(theirs, start, end);
    LoadableCaps(theirs, i, j);
    var encoded := EncodeBlocks(answer.value);
    EncodedStretch(theirs, start, end, i, j);
    FrameFills(table.pending[peer], theirs[start..end], i - start, j - start);
    outcome := table.HandleSyncBlocks(peer, id, encoded);
  }

  lemma {:induction false} LoadableCaps(chain: seq<Block>, i: nat, j: nat)
    requires Loadable(chain) && i <= j <= |chain|
    ensures forall b :: b in chain[i..j] ==> BlockWithinCaps(b) && Encodable(b)
  {
    hide Rebuild, BlockWithinCaps, Encodable, EncodeBlock;
    assert forall b :: b in chain[i..j] ==> b in chain && Storable(b);
  }

  lemma {:induction false} EncodedStretch(blocks: seq<Block>, start: nat, end: nat, i: nat, j: nat)
    requires start <= i < j <= end <= |blocks|
    ensures |EncodeAll(blocks[start..end])| == end - start
    ensures EncodeAll(blocks[i..j]) == EncodeAll(blocks[start..end])[i - start..j - start] != []
  {
    hide EncodeBlock;
    var part := EncodeAll(blocks[start..end])[i - start..j - start];
    assert forall k :: 0 <= k < j - i ==> part[k] == EncodeBlock(blocks[start..end][i - start + k]);
    assert part == EncodeAll(blocks[i..j]);
  }

  /** What one frame does to an honest session. */
  lemma {:induction false} FrameFills(session: Session, blocks: seq<Block>, k: nat, j: nat)
    requires k < j <= |blocks| && Filled(session, blocks, k) && DistinctHashes(blocks)
    requires forall b :: b in blocks ==> BlockWithinCaps(b)
    ensures |session.blocks| == |session.headers| && |EncodeAll(blocks)| == |blocks|
    ensures var (s, ok) := ReceiveAll(session, EncodeAll(blocks)[k..j]);
      && ok && Filled(s, blocks, j) && s.id == session.id
      && (IsComplete(s) <==> j == |blocks|)
      && (IsComplete(s) ==> s.headers == HeadersOf(blocks) && ReceivedBlocks(s) == blocks)
  {
    hide BlockWithinCaps, DistinctHashes, ReceiveAll, Filled, EncodeBlock, IsComplete, ReceivedBlocks, HeadersOf;
    FilledShape(session, blocks, k);
    ReceiveStretch(session, blocks, k, j);
    FilledComplete(ReceiveAll(session, EncodeAll(blocks)[k..j]).0, blocks, j);
  }

  lemma {:induction false} FilledComplete(session: Session, blocks: seq<Block>, j: nat)
    requires j <= |blocks| && Filled(session, blocks, j)
    ensures IsComplete(session) <==> j == |blocks|
    ensures IsComplete(session) ==> session.headers == HeadersOf(blocks) && ReceivedBlocks(session) == blocks
  {
    if j < |blocks| {
      assert session.blocks[j].None?;
    }
  }

  /** What the round needs of the two chains. */
  ghost predicate CanMeet(mine: seq<Block>, theirs: seq<Block>, s: set<Bytes>) {
    && ValidWithin(mine, s) && ValidWithin(theirs, s) && mine != [] && theirs != [] && mine[0] == theirs[0]
    && |mine| - 1 <= 0x40_0008 && Work(theirs) > Work(mine)
  }

  lemma {:induction false} LongerHasMoreWork(chain: seq<Block>, i: nat, j: nat)
    requires 0 < i < j <= |chain|
    ensures HasMoreWork(chain[..j], chain[..i])
  {
    hide Work;
    assert chain[..i + 1] == chain[..i] + [chain[i]];
    WorkExtend(chain[..i], chain[i]);
    assert chain[..j][..i + 1] == chain[..i + 1];
    WorkPrefix(chain[..j], i + 1);
  }

  /** A direct extension: the chains meet at the requester's tip. */
  method SyncDirect(node: Node, theirs: seq<Block>, hashes: seq<Hash256>, ghost mine: seq<Block>, ghost s: set<Bytes>)
    requires node.Valid() && node.storage.file == Some(EncodeFile(mine)) && Loadable(theirs) && ValidWithin(theirs, s)
    requires 0 < |mine| < |theirs| && mine == theirs[..|mine|]
    requires hashes == HashesOf(theirs[|mine|..ReplyEnd(theirs, |mine| - 1)])
    modifies node, node.storage
    ensures var sent := theirs[..ReplyEnd(theirs, |mine| - 1)];
      node.Valid() && HasMoreWork(sent, mine) && node.storage.file == Some(EncodeFile(sent))
  {
    hide Loadable, ValidWithin, HashesOf, EncodeFile, HasMoreWork;
    ghost var end := ReplyEnd(theirs, |mine| - 1);
    LongerHasMoreWork(theirs, |mine|, end);
    FetchDirect(node, theirs, hashes, |mine|, end, s);
  }

  /** A fork: the session is filled, assembled and offered as a replacement. */
  method SyncFork(node: Node, table: SyncTable, theirs: seq<Block>, mine: seq<Block>, hashes: seq<Hash256>, peer: u64,
      id: SessionId, ghost m: nat, ghost s: set<Bytes>, ghost rank: map<Hash256, nat>)
    requires node.Valid() && node.storage.file == Some(EncodeFile(mine)) && Loadable(mine) && Loadable(theirs)
    requires ValidWithin(mine, s) && ValidWithin(theirs, s) && m < |mine| && m + 1 < |theirs|
    requires mine[..m + 1] == theirs[..m + 1] && hashes == HashesOf(theirs[m + 1..ReplyEnd(theirs, m)])
    requires TableOk(table.pending) && peer in table.pending
    requires table.pending[peer] == Opened(HeadersOf(theirs[m + 1..ReplyEnd(theirs, m)]), id)
    modifies node, node.storage, node.mempool, table
    ensures var sent := theirs[..ReplyEnd(theirs, m)];
      && node.Valid()
      && node.storage.file == Some(if HasMoreWork(sent, mine) then EncodeFile(sent) else EncodeFile(mine))
  {
    hide Loadable, ValidWithin, HashesOf, HeadersOf, EncodeFile, DecodeFile, AssembleCandidate, PrepareReplacement,
      Opened, TableOk, Step, FileStep, HasMoreWork, Savable, Bookkept, Rebuild, BlockHash, ReplyEnd;
    ReplyEndFits(theirs, m);
    ghost var end := ReplyEnd(theirs, m);
    var outcome := FetchFork(table, theirs, hashes, peer, id, m + 1, end, s);
    StretchAssembles(mine, theirs, s, m, end);
    var candidate := Assemble(mine, outcome.headers, outcome.blocks);
    assert theirs[..end] == candidate.value;
    LoadableIsSavable(theirs, end);
    FileRoundTrip(mine);
    ReplacesIffMoreWork(mine, theirs, s, m, end);
    var _ := node.ReplaceChain(candidate.value, rank);
    table.CloseSession(peer, id);
  }

  lemma {:induction false} ReplyEndFits(theirs: seq<Block>, m: nat)
    requires m + 1 < |theirs|
    ensures m + 1 < ReplyEnd(theirs, m) <= |theirs|
  {
  }

  lemma {:induction false} LoadableIsSavable(chain: seq<Block>, n: nat)
    requires Loadable(chain) && 0 < n <= |chain|
    ensures Savable(chain[..n])
  {
    hide Savable, EncodeFile, DecodeFile;
    LoadablePrefix(chain, n);
  }

  lemma {:induction false} ReplacesIffMoreWork(mine: seq<Block>, theirs: seq<Block>, s: set<Bytes>, m: nat, end: nat)
    requires ValidWithin(mine, s) && ValidWithin(theirs, s) && m < |mine| && m + 1 < end <= |theirs|
    requires mine[..m + 1] == theirs[..m + 1]
    ensures PrepareReplacement(mine, theirs[..end]).Some? <==> HasMoreWork(theirs[..end], mine)
  {
    hide Rebuild, ValidWithin, BlockHash, Work, WorkFits;
    WithinIsValid(mine, s);
    WithinIsValid(theirs, s);
    ValidWorkFits(mine);
    RebuildPrefix(theirs, end);
    assert theirs[..end][0] == theirs[..m + 1][0] == mine[..m + 1][0] == mine[0];
  }

  /** One honest round, from the requester's file to the requester's file: locators, headers, blocks, storage. If both
      files load, the requester's file ends as the save of the responder's chain up to the last header sent, unless
      that forks off and has no more work yet; with at most 2000 blocks past the meeting point the two files are then
      the same. */
  method SyncOnce(node: Node, theirs: seq<Block>, peer: u64, id: SessionId, ghost theirFile: Bytes, ghost s: set<Bytes>,
      ghost rank: map<Hash256, nat>) returns (ghost m: nat)
    requires node.Valid() && DecodeFile(node.storage.file.value).Some? && DecodeFile(theirFile) == Some(theirs)
    requires CanMeet(DecodeFile(node.storage.file.value).value, theirs, s)
    modifies node, node.storage, node.mempool
    ensures var mine := DecodeFile(old(node.storage.file.value)).value;
      && node.Valid() && m < |mine| && m + 1 < |theirs| && mine[..m + 1] == theirs[..m + 1]
      && var sent := theirs[..ReplyEnd(theirs, m)];
         node.storage.file == Some(if HasMoreWork(sent, mine) then EncodeFile(sent) else EncodeFile(mine))
    ensures |theirs| - (m + 1) <= MAX_HEADERS ==> node.storage.file == Some(theirFile)
  {
    hide DecodeFile, EncodeFile, Loadable, ValidWithin, Work, Classify, HeadersReply, HashesOf, HeadersOf, IsLocators,
      FirstKnown, Opened, TableOk, Bookkept, BlockHash, Run;
    var loaded := node.storage.Load();
    var mine := loaded.value;
    FileInverse(node.storage.file.value);
    FileInverse(theirFile);
    var locators := BuildLocators(mine);
    var headers := HandleGetHeaders(theirs, locators);
    m := RoundStarts(mine, theirs, s, locators);
    assert |theirs| - (m + 1) <= MAX_HEADERS ==> theirs[..ReplyEnd(theirs, m)] == theirs;
    var table := new SyncTable();
    EmptyTable();
    var verdict := table.HandleHeaders(peer, headers, mine, id);
    if verdict.Direct? {
      assert mine[..m + 1] == mine;
      SyncDirect(node, theirs, verdict.hashes, mine, s);
    } else {
      SessionOpens(mine, headers, peer, id);
      SyncFork(node, table, theirs, mine, verdict.hashes, peer, id, m, s, rank);
    }
  }

  lemma {:induction false} EmptyTable()
    ensures Run([]) == map[] && TableOk(map[])
  {
  }
}
