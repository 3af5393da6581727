/** Fork synchronisation sessions, one per peer (p2p_relay.hpp, p2p_sync_protocol.hpp). */
module Sessions {
  import opened Types
  import opened BlockCodec
  import opened Consensus
  import opened Rules
  import opened Replacement
  import opened Locators
  import opened Commitment

  datatype SessionId = SessionId(high: u64, low: u64)

  /** PendingChainSync. A slot holds a block once it was received. */
  datatype Session = Session(id: SessionId, headers: seq<BlockHeader>, blocks: seq<Option<Block>>)

  /** What a Headers message leads to. */
  datatype Verdict = Nothing | Refused | Direct(hashes: seq<Hash256>) | Fork(hashes: seq<Hash256>)

  /** Each header names its predecessor and the next height. */
  predicate Linked(headers: seq<BlockHeader>) {
    forall i :: 0 < i < |headers| ==>
      headers[i].previousHash == HeaderHash(headers[i - 1]) && headers[i].height == NextHeight(headers[i - 1].height)
  }

  predicate HeaderOk(h: BlockHeader) {
    h.version != 0 && h.difficulty <= 256 && HeaderPowOk(h)
  }

  function HeaderHashes(headers: seq<BlockHeader>): seq<Hash256> {
    seq(|headers|, i requires 0 <= i < |headers| => HeaderHash(headers[i]))
  }

  /** handle_headers: what the headers are to a node with this chain. */
  function Classify(chain: seq<Block>, headers: seq<BlockHeader>): Verdict {
    if headers == [] then Nothing
    else if |headers| > MAX_HEADERS || chain == [] || !(forall h :: h in headers ==> HeaderOk(h)) then Refused
    else
      var tip := chain[|chain| - 1];
      if headers[0].previousHash == BlockHash(tip) then
        if headers[0].height == NextHeight(tip.header.height) && Linked(headers) then Direct(HeaderHashes(headers))
        else Refused
      else if FirstWithHash(chain, headers[0].previousHash) == |chain| || !Linked(headers) then Refused
      else Fork(HeaderHashes(headers))
  }

  /** Headers that may be followed: each carries its work and names the one before it. */
  ghost predicate Announceable(headers: seq<BlockHeader>) {
    && 0 < |headers| <= 2000
    && (forall h :: h in headers ==>
          && h.version != 0 && h.difficulty <= 256
          && BigEndian(PowHash(EncodeHeader(h.(nonce := 0)), h.nonce)) < Pow2(256 - h.difficulty))
    && forall i :: 0 < i < |headers| ==>
         && headers[i].previousHash == Sha256(EncodeHeader(headers[i - 1]))
         && headers[i].height == NextHeight(headers[i - 1].height)
  }

  /** What an announcement is taken for: an extension of the tip, a fork from another block of the chain, or nothing
      to follow. The blocks asked for are those of the headers, in order. */
  lemma {:induction false} ClassifiedIff(chain: seq<Block>, headers: seq<BlockHeader>)
    requires chain != [] && headers != []
    ensures var verdict, tip, parent := Classify(chain, headers), chain[|chain| - 1], headers[0].previousHash;
      && !verdict.Nothing?
      && (verdict.Direct? <==>
            Announceable(headers) && parent == BlockHash(tip) && headers[0].height == NextHeight(tip.header.height))
      && (verdict.Fork? <==>
            && Announceable(headers) && parent != BlockHash(tip)
            && exists i :: 0 <= i < |chain| && BlockHash(chain[i]) == parent)
      && (verdict.Direct? || verdict.Fork? ==>
            && |verdict.hashes| == |headers|
            && forall i :: 0 <= i < |headers| ==> verdict.hashes[i] == Sha256(EncodeHeader(headers[i])))
  {
    hide EncodeHeader, HeaderPowOk, BigEndian, Pow2;
    forall h | h in headers
      ensures HeaderPowOk(h) <==>
        h.difficulty <= 256 && BigEndian(PowHash(EncodeHeader(h.(nonce := 0)), h.nonce)) < Pow2(256 - h.difficulty)
    {
      HeaderPowIsTarget(h);
    }
  }

  /** The loop that checks a run of headers and collects their hashes. */
  method CheckLinks(headers: seq<BlockHeader>, previousHash: Hash256,
      firstHeight: u64) returns (r: Option<seq<Hash256>>)
    requires headers != []
    ensures r.Some? <==> headers[0].previousHash == previousHash && headers[0].height == firstHeight && Linked(headers)
    ensures r.Some? ==> r.value == HeaderHashes(headers)
  {
    hide HeaderHash;
    var previous, height := previousHash, firstHeight;
    var hashes: seq<Hash256> := [];
    for i := 0 to |headers|
      invariant hashes == HeaderHashes(headers[..i])
      invariant i == 0 ==> previous == previousHash && height == firstHeight
      invariant i > 0 ==> previous == HeaderHash(headers[i - 1]) && height == NextHeight(headers[i - 1].height)
      invariant i > 0 ==> headers[0].previousHash == previousHash && headers[0].height == firstHeight
      invariant forall k :: 0 < k < i ==>
        headers[k].previousHash == HeaderHash(headers[k - 1]) && headers[k].height == NextHeight(headers[k - 1].height)
    {
      if headers[i].height != height || headers[i].previousHash != previous {
        return None;
      }
      hashes := hashes + [HeaderHash(headers[i])];
      previous := HeaderHash(headers[i]);
      height := NextHeight(height);
    }
    assert headers[..|headers|] == headers;
    r := Some(hashes);
  }

  /** A well-formed session: its headers are linked, and every received block answers the header
      of its slot. */
  ghost predicate SessionOk(s: Session) {
    && s.headers != [] && |s.blocks| == |s.headers| && Linked(s.headers)
    && forall i :: 0 <= i < |s.blocks| && s.blocks[i].Some? ==> BlockHash(s.blocks[i].value) == HeaderHash(s.headers[i])
  }

  function FirstHeaderWith(headers: seq<BlockHeader>, hash: Hash256): (i: nat)
    ensures i <= |headers|
    ensures i < |headers| ==> HeaderHash(headers[i]) == hash
    ensures forall j :: 0 <= j < i ==> HeaderHash(headers[j]) != hash
  {
    if headers == [] then 0
    else if HeaderHash(headers[0]) == hash then 0
    else 1 + FirstHeaderWith(headers[1..], hash)
  }

  /** One block of a SyncBlocks message; None (the source throws) if it does not decode, was not
      requested or is there already. */
  function Receive(s: Session, encoded: Bytes): (r: Option<Session>)
    requires |s.blocks| == |s.headers|
    ensures r.Some? ==> |r.value.blocks| == |r.value.headers|
  {
    var b :- DecodeBlock(encoded);
    var i := FirstHeaderWith(s.headers, BlockHash(b));
    if i == |s.headers| || s.blocks[i].Some? then None
    else Some(s.(blocks := s.blocks[i := Some(b)]))
  }

  /** The blocks of a message in order, up to the first that is refused. */
  function ReceiveAll(s: Session, encoded: seq<Bytes>): (r: (Session, bool))
    requires |s.blocks| == |s.headers|
    ensures |r.0.blocks| == |r.0.headers|
    decreases |encoded|
  {
    if encoded == [] then (s, true)
    else
      match Receive(s, encoded[0])
      case None => (s, false)
      case Some(s') => ReceiveAll(s', encoded[1..])
  }

  predicate IsComplete(s: Session) {
    forall i :: 0 <= i < |s.blocks| ==> s.blocks[i].Some?
  }

  function ReceivedBlocks(s: Session): seq<Block>
    requires IsComplete(s)
  {
    seq(|s.blocks|, i requires 0 <= i < |s.blocks| => s.blocks[i].value)
  }

  /** The same session further on: same id and headers, and no received block lost or replaced. */
  ghost predicate Continues(s: Session, s': Session) {
    && s'.id == s.id && s'.headers == s.headers && |s'.blocks| == |s.blocks|
    && forall i :: 0 <= i < |s.blocks| && s.blocks[i].Some? ==> s'.blocks[i] == s.blocks[i]
  }

  lemma {:induction false} ReceiveKeeps(s: Session, encoded: seq<Bytes>)
    requires SessionOk(s)
    ensures SessionOk(ReceiveAll(s, encoded).0) && Continues(s, ReceiveAll(s, encoded).0)
    decreases |encoded|
  {
    hide HeaderHash, Linked, DecodeBlock;
    if encoded != [] && Receive(s, encoded[0]).Some? {
      ReceiveKeeps(Receive(s, encoded[0]).value, encoded[1..]);
    }
  }

  // ----- The table of sessions -----

  type Table = map<u64, Session>

  /** What reaches the table: a Headers message, a SyncBlocks frame, or the end of a session whose
      candidate was handed over (or whose request could not be sent). */
  datatype Event =
    | Headers(peer: u64, headers: seq<BlockHeader>, chain: seq<Block>, newId: SessionId)
    | Frame(peer: u64, id: SessionId, encoded: seq<Bytes>)
    | Close(peer: u64, id: SessionId)

  ghost predicate TableOk(t: Table) {
    forall peer :: peer in t ==> SessionOk(t[peer])
  }

  predicate Addressed(t: Table, peer: u64, id: SessionId) {
    peer in t && t[peer].id == id
  }

  function Opened(headers: seq<BlockHeader>, id: SessionId): Session {
    Session(id, headers, seq(|headers|, _ => None))
  }

  ghost function Step(t: Table, e: Event): Table
    requires TableOk(t)
  {
    match e
    case Headers(peer, headers, chain, id) =>
      if Classify(chain, headers).Fork? && peer !in t then t[peer := Opened(headers, id)] else t
    case Frame(peer, id, encoded) =>
      if !Addressed(t, peer, id) then t
      else if encoded == [] then t - {peer}
      else t[peer := ReceiveAll(t[peer], encoded).0]
    case Close(peer, id) =>
      if Addressed(t, peer, id) then t - {peer} else t
  }

  /** Every event keeps every session well-formed; a session is only ever continued or removed,
      never replaced, and only by an event of its own peer. */
  lemma {:induction false} StepSafe(t: Table, e: Event)
    requires TableOk(t)
    ensures TableOk(Step(t, e))
    ensures forall peer :: peer in t && peer in Step(t, e) ==> Continues(t[peer], Step(t, e)[peer])
    ensures forall peer :: peer != e.peer ==> (peer in Step(t, e) <==> peer in t)
    ensures forall peer :: peer != e.peer && peer in t ==> Step(t, e)[peer] == t[peer]
  {
    hide HeaderHash, HeaderOk, ReceiveAll;
    match e
    case Headers(peer, headers, chain, id) =>
    case Frame(peer, id, encoded) =>
      if Addressed(t, peer, id) && encoded != [] {
        ReceiveKeeps(t[peer], encoded);
      }
    case Close(peer, id) =>
  }

  /** Frames and closings for another session than the peer's open one change nothing, nor do announcements while one
      is open; an empty frame and a closing remove the session they name. */
  lemma {:induction false} StaleIgnored(t: Table, e: Event)
    requires TableOk(t)
    ensures !e.Headers? && (e.peer !in t || t[e.peer].id != e.id) ==> Step(t, e) == t
    ensures e.Headers? && e.peer in t ==> Step(t, e) == t
    ensures !e.Headers? && e.peer in t && t[e.peer].id == e.id && (e.Frame? ==> e.encoded == []) ==>
      Step(t, e) == t - {e.peer}
  {
    hide Classify, ReceiveAll, TableOk;
  }

  /** The table after any sequence of events. */
  ghost function Run(events: seq<Event>): (t: Table)
    ensures TableOk(t)
  {
    if events == [] then map[]
    else
      var before := Run(events[..|events| - 1]);
      StepSafe(before, events[|events| - 1]);
      Step(before, events[|events| - 1])
  }

  /** A session that is in the table after a run was opened by one fork announcement of its peer, whose
      headers and id it still has, and has not been replaced since. */
  lemma {:induction false} SessionHasOneOrigin(events: seq<Event>, peer: u64) returns (k: nat)
    requires peer in Run(events)
    ensures k < |events| && events[k].Headers? && events[k].peer == peer
    ensures Classify(events[k].chain, events[k].headers).Fork?
    ensures Run(events)[peer].id == events[k].newId && Run(events)[peer].headers == events[k].headers
    ensures peer !in Run(events[..k])
    ensures forall n :: k < n <= |events| ==>
      peer in Run(events[..n]) && Continues(Run(events[..n])[peer], Run(events)[peer])
  {
    hide Classify, Continues, TableOk;
    var front, last := events[..|events| - 1], events[|events| - 1];
    var t := Run(front);
    StepSafe(t, last);
    if peer in t {
      k := SessionHasOneOrigin(front, peer);
      assert front[..k] == events[..k];
      forall n | k < n <= |events|
        ensures peer in Run(events[..n]) && Continues(Run(events[..n])[peer], Run(events)[peer])
      {
        if n < |events| {
          assert front[..n] == events[..n];
          ContinuesTrans(Run(events[..n])[peer], t[peer], Run(events)[peer]);
        } else {
          assert events[..n] == events;
          ContinuesSelf(Run(events)[peer]);
        }
      }
      ContinuesTrans(t[peer], t[peer], Run(events)[peer]);
    } else {
      k := |events| - 1;
      assert events[..|events|] == events;
      ContinuesSelf(Run(events)[peer]);
    }
  }

  lemma {:induction false} ContinuesSelf(s: Session)
    ensures Continues(s, s)
  {
  }

  lemma {:induction false} ContinuesTrans(a: Session, b: Session, c: Session)
    requires Continues(b, c)
    ensures c.id == b.id && c.headers == b.headers
    ensures Continues(a, b) ==> Continues(a, c)
  {
  }

  /** How a SyncBlocks message ends. */
  datatype Outcome = Ignored | Aborted | Failed | Waiting | Completed(headers: seq<BlockHeader>, blocks: seq<Block>)

  class SyncTable {
    var pending: Table

    constructor ()
      ensures pending == Run([])
    {
      pending := map[];
    }

    /** handle_headers. A session is opened only for a fork, and only if the peer has none. */
    method HandleHeaders(peer: u64, headers: seq<BlockHeader>, chain: seq<Block>,
        id: SessionId) returns (verdict: Verdict)
      requires TableOk(pending)
      modifies this
      ensures verdict == Classify(chain, headers)
      ensures pending == Step(old(pending), Headers(peer, headers, chain, id)) && TableOk(pending)
    {
      hide HeaderHash, HeaderPowOk, SessionOk;
      StepSafe(pending, Headers(peer, headers, chain, id));
      if headers == [] {
        return Nothing;
      }
      if |headers| > MAX_HEADERS || chain == [] || !(forall h :: h in headers ==> HeaderOk(h)) {
        return Refused;
      }
      var tip := chain[|chain| - 1];
      if headers[0].previousHash == BlockHash(tip) {
        var hashes := CheckLinks(headers, BlockHash(tip), NextHeight(tip.header.height));
        return if hashes.Some? then Direct(hashes.value) else Refused;
      }
      var ancestor := FindHash(chain, headers[0].previousHash);
      var hashes := CheckLinks(headers, headers[0].previousHash, headers[0].height);
      if ancestor == |chain| || hashes.None? {
        return Refused;
      }
      verdict := Fork(hashes.value);
      if peer !in pending {
        pending := pending[peer := Opened(headers, id)];
      }
    }

    /** handle_sync_blocks, up to the hand-over of a completed session. That session stays in the table
        until the candidate was assembled and judged. */
    method HandleSyncBlocks(peer: u64, id: SessionId, encoded: seq<Bytes>) returns (outcome: Outcome)
      requires TableOk(pending)
      modifies this
      ensures pending == Step(old(pending), Frame(peer, id, encoded)) && TableOk(pending)
      ensures outcome.Ignored? <==> peer !in old(pending) || old(pending)[peer].id != id
      ensures outcome.Aborted? <==> !outcome.Ignored? && encoded == []
      ensures !outcome.Ignored? && !outcome.Aborted? ==>
        var (s, ok) := ReceiveAll(old(pending)[peer], encoded);
        outcome == if !ok then Failed else if IsComplete(s) then Completed(s.headers, ReceivedBlocks(s)) else Waiting
    {
      hide SessionOk, HeaderHash, DecodeBlock;
      StepSafe(pending, Frame(peer, id, encoded));
      if !Addressed(pending, peer, id) {
        return Ignored;
      }
      if encoded == [] {
        pending := pending - {peer};
        return Aborted;
      }
      var s := pending[peer];
      SessionShape(s);
      for k := 0 to |encoded|
        invariant |s.blocks| == |s.headers| && pending == old(pending)
        invariant ReceiveAll(s, encoded[k..]) == ReceiveAll(old(pending)[peer], encoded)
      {
        assert encoded[k..][0] == encoded[k] && encoded[k..][1..] == encoded[k + 1..];
        var next := Receive(s, encoded[k]);
        if next.None? {
          pending := pending[peer := s];
          return Failed;
        }
        s := next.value;
      }
      assert encoded[|encoded|..] == [];
      pending := pending[peer := s];
      outcome := if IsComplete(s) then Completed(s.headers, ReceivedBlocks(s)) else Waiting;
    }

    /** clear_pending_session: removes exactly the session that completed. */
    method CloseSession(peer: u64, id: SessionId)
      requires TableOk(pending)
      modifies this
      ensures pending == Step(old(pending), Close(peer, id)) && TableOk(pending)
    {
      if Addressed(pending, peer, id) {
        pending := pending - {peer};
      }
    }
  }

  lemma {:induction false} SessionShape(s: Session)
    requires SessionOk(s)
    ensures |s.blocks| == |s.headers|
  {
  }

  // ----- What a completed session amounts to -----

  /** The strings hashed to identify the headers and blocks of a session. */
  ghost predicate HeadersWithin(headers: seq<BlockHeader>, s: set<Bytes>) {
    forall h :: h in headers ==> EncodeHeader(h) in s
  }

  /** A completed session yields a candidate exactly if its ancestor is on the local chain and
      its first header is one height above it; the candidate is the local chain up to the
      ancestor followed by the requested blocks. */
  lemma {:induction false} CompletedAssembles(chain: seq<Block>, session: Session, s: set<Bytes>)
    requires SessionOk(session) && IsComplete(session) && CollisionFree(s)
    requires HeadersWithin(session.headers, s) && HeadersWithin(HeadersOf(ReceivedBlocks(session)), s)
    ensures HeadersOf(ReceivedBlocks(session)) == session.headers
    ensures var a := FirstWithHash(chain, session.headers[0].previousHash);
      var r := AssembleCandidate(chain, session.headers, ReceivedBlocks(session));
      && (r.Some? <==> a < |chain| && session.headers[0].height == NextHeight(chain[a].header.height))
      && (r.Some? ==> r.value == chain[..a + 1] + ReceivedBlocks(session))
  {
    hide EncodeHeader;
    var headers, blocks := session.headers, ReceivedBlocks(session);
    forall i | 0 <= i < |blocks| ensures blocks[i].header == headers[i] {
      assert HeadersOf(blocks)[i] == blocks[i].header && HeadersOf(blocks)[i] in HeadersOf(blocks);
      assert headers[i] in headers && session.blocks[i].Some?;
      HeadersEqual(blocks[i].header, headers[i], s);
    }
    var a := FirstWithHash(chain, headers[0].previousHash);
    if a < |chain| {
      JoinsIff(chain[a], headers, blocks);
    }
  }

  lemma {:induction false} JoinsIff(ancestor: Block, headers: seq<BlockHeader>, blocks: seq<Block>)
    requires |headers| == |blocks| && headers != [] && Linked(headers)
    requires forall i :: 0 <= i < |blocks| ==> blocks[i].header == headers[i]
    requires headers[0].previousHash == BlockHash(ancestor)
    ensures Joins(ancestor, headers, blocks) <==> headers[0].height == NextHeight(ancestor.header.height)
  {
    hide HeaderHash;
    if headers[0].height == NextHeight(ancestor.header.height) {
      forall i | 0 <= i < |blocks| ensures JoinsAt(ancestor, headers, blocks, i) {
        if i > 0 {
          assert headers[i].previousHash == HeaderHash(headers[i - 1]);
        }
      }
    } else {
      assert !JoinsAt(ancestor, headers, blocks, 0);
    }
  }
}
