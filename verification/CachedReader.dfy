/**
The look-ahead reader of core/xray/app/dispatcher/default.go, and the loop that sniffs through
it. The source delivers its bytes in chunks of its own choosing and may fail; a failed read
consumes nothing.
*/
module CachedReading {
  import opened Sniffing

  type MultiBuffer = seq<Bytes>

  function Flat(mb: MultiBuffer): Bytes {
    if mb == [] then [] else mb[0] + Flat(mb[1..])
  }

  lemma {:induction false} FlatConcat(a: MultiBuffer, b: MultiBuffer)
    ensures Flat(a + b) == Flat(a) + Flat(b)
  {
    if a == [] {
      assert a + b == b;
    } else {
      assert (a + b)[1..] == a[1..] + b;
      FlatConcat(a[1..], b);
    }
  }

  datatype ReadResult = Data(mb: MultiBuffer) | Failure

  class Source {
    var unread: Bytes

    constructor (stream: Bytes)
      ensures unread == stream
    {
      unread := stream;
    }

    /** Takes some bytes off the stream, possibly none, or fails. */
    method Read() returns (r: ReadResult)
      modifies this
      ensures r.Failure? ==> unread == old(unread)
      ensures r.Data? ==> Flat(r.mb) + unread == old(unread)
    {
      if * {
        return Failure;
      }
      var n :| 0 <= n <= |unread|;
      r := Data([unread[..n]]);
      assert Flat(r.mb) == unread[..n] + Flat([]);
      unread := unread[n..];
    }
  }

  /** The payload buffer: what it holds and how much it could. */
  class Payload {
    var cap: nat
    var bytes: Bytes

    constructor (cap: nat)
      ensures this.cap == cap && bytes == []
    {
      this.cap, bytes := cap, [];
    }
  }

  // ---------- what one call does ----------

  /** What the reader holds and what the source still has. */
  datatype Look = Look(cache: MultiBuffer, unread: Bytes) {
    function Ahead(): Bytes {
      Flat(cache) + unread
    }
  }

  /** A look-ahead or a read; `got` is what the source returns if it is asked. */
  datatype Call = LookAhead(got: ReadResult) | Take(got: ReadResult)

  /** The source hands out what comes next on the stream. */
  predicate Possible(s: Look, call: Call) {
    call.got.Data? ==> Flat(call.got.mb) <= s.unread
  }

  function AfterRead(unread: Bytes, got: ReadResult): Bytes
    requires got.Data? ==> Flat(got.mb) <= unread
  {
    if got.Failure? then unread else unread[|Flat(got.mb)|..]
  }

  /** A look-ahead puts what it reads behind the cache; a read empties the cache, or else asks the source. */
  function Next(s: Look, call: Call): Look
    requires Possible(s, call)
  {
    match call
    case LookAhead(Failure) => s
    case LookAhead(Data(mb)) => Look(if Flat(mb) != [] then s.cache + mb else s.cache, AfterRead(s.unread, call.got))
    case Take(got) => if Flat(s.cache) != [] then Look([], s.unread) else s.(unread := AfterRead(s.unread, got))
  }

  /** What a read hands to the consumer. */
  function Handed(s: Look, got: ReadResult): ReadResult {
    if Flat(s.cache) != [] then Data(s.cache) else got
  }

  function Given(r: ReadResult): Bytes {
    if r.Data? then Flat(r.mb) else []
  }

  function Taken(s: Look, call: Call): Bytes {
    if call.Take? then Given(Handed(s, call.got)) else []
  }

  class CachedReader {
    const reader: Source
    var cache: MultiBuffer

    function Abs(): Look
      reads this, reader
    {
      Look(cache, reader.unread)
    }

    constructor (reader: Source)
      ensures this.reader == reader && cache == []
    {
      this.reader, cache := reader, [];
    }

    /**
    Looks ahead: moves bytes from the source to the cache and copies the whole cache to the
    payload, which grows to `size` when it is too small.
    */
    method Cache(b: Payload, size: nat -> nat) returns (ok: bool, ghost got: ReadResult)
      requires forall n :: size(n) >= n
      modifies this, reader, b
      ensures Possible(old(Abs()), LookAhead(got)) && Abs() == Next(old(Abs()), LookAhead(got)) && ok == got.Data?
      ensures ok ==> b.bytes == Flat(cache)
      ensures ok ==> b.cap == (if |b.bytes| <= old(b.cap) then old(b.cap) else size(|b.bytes|))
      ensures !ok ==> b.bytes == old(b.bytes) && b.cap == old(b.cap)
    {
      var r := reader.Read();
      got := r;
      if r.Failure? {
        return false, got;
      }
      if |Flat(r.mb)| != 0 {
        cache := cache + r.mb;
      }
      var cacheLen := |Flat(cache)|;
      if cacheLen > b.cap {
        b.cap := size(cacheLen);
      }
      b.bytes := Flat(cache);
      ok := true;
    }

    method ReadInternal() returns (mb: MultiBuffer)
      modifies this
      ensures if Flat(old(cache)) != [] then mb == old(cache) && cache == [] else mb == [] && cache == old(cache)
    {
      if |Flat(cache)| != 0 {
        mb := cache;
        cache := [];
      } else {
        mb := [];
      }
    }

    /** Hands out the cache first, then the source; both read methods of the original do this. */
    method ReadMultiBuffer() returns (r: ReadResult, ghost got: ReadResult)
      modifies this, reader
      ensures Possible(old(Abs()), Take(got)) && Abs() == Next(old(Abs()), Take(got))
      ensures r == Handed(old(Abs()), got)
    {
      got := Failure;
      var mb := ReadInternal();
      if mb != [] {
        return Data(mb), got;
      }
      r := reader.Read();
      got := r;
    }
  }

  // ---------- runs ----------

  predicate CanRun(s: Look, calls: seq<Call>)
    decreases calls
  {
    calls != [] ==> Possible(s, calls[0]) && CanRun(Next(s, calls[0]), calls[1..])
  }

  function Run(s: Look, calls: seq<Call>): Look
    requires CanRun(s, calls)
    decreases calls
  {
    if calls == [] then s else Run(Next(s, calls[0]), calls[1..])
  }

  /** What the consumer got along the calls. */
  function Delivered(s: Look, calls: seq<Call>): Bytes
    requires CanRun(s, calls)
    decreases calls
  {
    if calls == [] then [] else Taken(s, calls[0]) + Delivered(Next(s, calls[0]), calls[1..])
  }

  /** What the source handed out along the calls, if asked every time. */
  function Looked(calls: seq<Call>): Bytes {
    if calls == [] then [] else Given(calls[0].got) + Looked(calls[1..])
  }

  lemma Regroup(a: Bytes, b: Bytes, c: Bytes)
    ensures a + b + c == a + (b + c)
  {
  }

  lemma LookAheadExtends(s: Look, call: Call)
    requires Possible(s, call) && call.LookAhead?
    ensures Flat(Next(s, call).cache) == Flat(s.cache) + Given(call.got)
    ensures s.unread == Given(call.got) + Next(s, call).unread
  {
    if call.got.Data? {
      FlatConcat(s.cache, call.got.mb);
    }
  }

  lemma TakingCache(t: Look, got: ReadResult)
    requires Possible(t, Take(got))
    ensures if Flat(t.cache) != [] then Handed(t, got) == Data(t.cache) && Next(t, Take(got)) == Look([], t.unread)
            else Handed(t, got) == got
  {
  }

  lemma StepKeepsStream(s: Look, call: Call)
    requires Possible(s, call)
    ensures Taken(s, call) + Next(s, call).Ahead() == s.Ahead()
  {
    var s' := Next(s, call);
    if call.LookAhead? {
      LookAheadExtends(s, call);
      Regroup(Flat(s.cache), Given(call.got), s'.unread);
      assert Taken(s, call) + s'.Ahead() == s'.Ahead();
    } else {
      TakingCache(s, call.got);
      if Flat(s.cache) != [] {
        assert s'.Ahead() == s.unread;
      } else {
        assert s.unread == Given(call.got) + s'.unread;
        assert s.Ahead() == s.unread && s'.Ahead() == s'.unread;
      }
    }
  }

  /** For any interleaving of look-aheads and reads: delivered, then cached, then unread is the stream. */
  lemma {:induction false} LookAheadLosesNothing(s: Look, calls: seq<Call>)
    requires CanRun(s, calls)
    ensures Delivered(s, calls) + Run(s, calls).Ahead() == s.Ahead()
    decreases calls
  {
    if calls == [] {
    } else {
      var (s', rest) := (Next(s, calls[0]), calls[1..]);
      StepKeepsStream(s, calls[0]);
      LookAheadLosesNothing(s', rest);
      Regroup(Taken(s, calls[0]), Delivered(s', rest), Run(s', rest).Ahead());
    }
  }

  predicate AllLookAhead(calls: seq<Call>) {
    forall call :: call in calls ==> call.LookAhead?
  }

  /** Until the consumer reads, each look-ahead extends the cache, and so the payload, by what it reads. */
  lemma {:induction false} PayloadsExtend(s: Look, calls: seq<Call>)
    requires CanRun(s, calls) && AllLookAhead(calls)
    ensures Flat(Run(s, calls).cache) == Flat(s.cache) + Looked(calls)
    ensures s.unread == Looked(calls) + Run(s, calls).unread
    decreases calls
  {
    if calls == [] {
    } else {
      var (s', rest) := (Next(s, calls[0]), calls[1..]);
      PayloadsExtend(s', rest);
      LookAheadExtends(s, calls[0]);
      var chunk := Given(calls[0].got);
      Regroup(Flat(s.cache), chunk, Looked(rest));
      Regroup(chunk, Looked(rest), Run(s', rest).unread);
    }
  }

  /**
  The first read after some look-aheads hands out exactly what they saw, whatever the source would
  say, and leaves nothing behind in the cache; when they saw nothing it passes the source's answer on.
  */
  lemma SeenComesFirst(s: Look, calls: seq<Call>, got: ReadResult)
    requires CanRun(s, calls) && AllLookAhead(calls) && Possible(Run(s, calls), Take(got))
    ensures var (t, seen) := (Run(s, calls), Flat(s.cache) + Looked(calls));
            if seen != [] then
              && Handed(t, got).Data? && Flat(Handed(t, got).mb) == seen
              && Next(t, Take(got)).cache == [] && seen + Next(t, Take(got)).unread == s.Ahead()
            else Handed(t, got) == got
  {
    PayloadsExtend(s, calls);
    var (t, seen) := (Run(s, calls), Flat(s.cache) + Looked(calls));
    Regroup(Flat(s.cache), Looked(calls), t.unread);
    TakingCache(t, got);
    assert seen + t.unread == s.Ahead();
  }

  // ---------- sniffing through the reader ----------

  datatype ContentReply = Content(reply: Reply) | Cancelled | TimedOut | CacheFailed

  /** A successful look-ahead: the payload, and whether its buffer is full. */
  datatype Attempt = Attempt(payload: Bytes, full: bool)

  /** An attempt ends the sniffing when some sniffer knows, when none can, or when the buffer is full. */
  predicate Decides(list: seq<ProtocolSniffer>, a: Attempt, network: Network) {
    a.full || (a.payload != [] && Answer(list, a.payload, network) != ErrNoClue)
  }

  function Verdict(list: seq<ProtocolSniffer>, a: Attempt, network: Network): Reply {
    if a.payload != [] && Answer(list, a.payload, network) != ErrNoClue then Answer(list, a.payload, network)
    else ErrUnknownContent
  }

  /** When the payload fills its buffer and nobody recognises it, there is no second attempt. */
  lemma FullBufferEndsIt(list: seq<ProtocolSniffer>, attempts: seq<Attempt>, result: ContentReply, network: Network)
    requires Settled(list, attempts, result, network) && attempts != [] && attempts[0].full
    requires attempts[0].payload == [] || !Answer(list, attempts[0].payload, network).Found?
    ensures |attempts| == 1 && result == Content(ErrUnknownContent)
  {
  }

  /** Short of that, only a hit, or nobody left to ask, ends the sniffing, and at the first such payload. */
  lemma RecognisedAtOnce(list: seq<ProtocolSniffer>, attempts: seq<Attempt>, result: ContentReply, network: Network, i: nat)
    requires Settled(list, attempts, result, network) && i < |attempts| && attempts[i].payload != []
    requires Answer(list, attempts[i].payload, network) != ErrNoClue
    ensures i == |attempts| - 1 && result == Content(Answer(list, attempts[i].payload, network))
  {
  }

  /** While there is room and some sniffer has no clue yet, no attempt settles the content. */
  lemma NoClueGoesOn(list: seq<ProtocolSniffer>, attempts: seq<Attempt>, result: ContentReply, network: Network)
    requires Settled(list, attempts, result, network)
    requires forall a :: a in attempts ==> !a.full && (a.payload == [] || Answer(list, a.payload, network) == ErrNoClue)
    ensures !result.Content?
  {
  }

  /** The result is the verdict of the full list on the first attempt that decides. */
  ghost predicate Settled(list: seq<ProtocolSniffer>, attempts: seq<Attempt>, result: ContentReply, network: Network) {
    && (forall i :: 0 <= i < |attempts| - 1 ==> !Decides(list, attempts[i], network))
    && (result.Content? <==> attempts != [] && Decides(list, attempts[|attempts| - 1], network))
    && (result.Content? ==> result.reply == Verdict(list, attempts[|attempts| - 1], network))
  }

  ghost predicate Undecided(list: seq<ProtocolSniffer>, attempts: seq<Attempt>, network: Network) {
    forall i :: 0 <= i < |attempts| ==> !Decides(list, attempts[i], network)
  }

  /** The shrunken list still answers as the full one, on every payload that extends what was seen. */
  ghost predicate KeepsUp(list: seq<ProtocolSniffer>, cur: seq<ProtocolSniffer>, seen: Bytes, network: Network) {
    FailuresAreFinal(list, network) ==> FailuresAreFinal(cur, network) && SameFrom(list, cur, seen, network)
  }

  /** Looks ahead once, and sniffs the payload unless it is empty. */
  method TryOnce(cReader: CachedReader, sniffer: Sniffer, payload: Payload, size: nat -> nat, network: Network,
                 ghost list: seq<ProtocolSniffer>, ghost seen: Bytes)
    returns (ok: bool, reply: Reply)
    requires forall n :: size(n) >= n
    requires KeepsUp(list, sniffer.sniffer, seen, network) && seen <= Flat(cReader.cache)
    modifies cReader, cReader.reader, sniffer, payload
    ensures cReader.Abs().Ahead() == old(cReader.Abs().Ahead())
    ensures !ok ==> cReader.Abs() == old(cReader.Abs()) && payload.bytes == old(payload.bytes) && payload.cap == old(payload.cap)
    ensures ok ==> payload.bytes == Flat(cReader.cache) && KeepsUp(list, sniffer.sniffer, payload.bytes, network)
    ensures ok && FailuresAreFinal(list, network) ==>
              reply == if payload.bytes == [] then ErrNoClue else Answer(list, payload.bytes, network)
  {
    reply := ErrNoClue;
    ghost var before := cReader.Abs();
    ghost var got;
    ok, got := cReader.Cache(payload, size);
    StepKeepsStream(before, LookAhead(got));
    LookAheadExtends(before, LookAhead(got));
    if FailuresAreFinal(list, network) {
      assert SameFrom(list, sniffer.sniffer, Flat(cReader.cache), network);
      ShrinkingKeepsAnswers(list, sniffer.sniffer, Flat(cReader.cache), network);
    }
    if ok && |payload.bytes| != 0 {
      reply := sniffer.Sniff(payload.bytes, network);
    }
  }

  lemma OneMoreAttempt(list: seq<ProtocolSniffer>, attempts: seq<Attempt>, a: Attempt, network: Network)
    requires Undecided(list, attempts, network)
    ensures Undecided(list, attempts + [a], network) <==> !Decides(list, a, network)
    ensures Decides(list, a, network) ==>
              Settled(list, attempts + [a], Content(Verdict(list, a, network)), network)
  {
    var all := attempts + [a];
    assert all[|attempts|] == a;
    assert forall i :: 0 <= i < |attempts| ==> all[i] == attempts[i];
  }

  lemma UndecidedIsSettled(list: seq<ProtocolSniffer>, attempts: seq<Attempt>, result: ContentReply, network: Network)
    requires !result.Content?
    ensures Undecided(list, attempts, network) ==> Settled(list, attempts, result, network)
  {
  }

  /** At most two attempts; the context may be done before any of them. */
  method SniffContent(cReader: CachedReader, sniffer: Sniffer, payload: Payload, size: nat -> nat, network: Network)
    returns (result: ContentReply, ghost attempts: seq<Attempt>)
    requires forall n :: size(n) >= n
    modifies cReader, cReader.reader, sniffer, payload
    ensures cReader.Abs().Ahead() == old(cReader.Abs().Ahead())
    ensures |attempts| <= 2 && (result.TimedOut? ==> |attempts| == 2)
    ensures attempts != [] ==>
              payload.bytes == Flat(cReader.cache) && attempts[|attempts| - 1] == Attempt(payload.bytes, |payload.bytes| == payload.cap)
    ensures FailuresAreFinal(old(sniffer.sniffer), network) ==> Settled(old(sniffer.sniffer), attempts, result, network)
  {
    var totalAttempt := 0;
    attempts := [];
    ghost var list := sniffer.sniffer;
    ghost var seen: Bytes := [];
    while true
      invariant 0 <= totalAttempt == |attempts| <= 2
      invariant cReader.Abs().Ahead() == old(cReader.Abs().Ahead()) && seen <= Flat(cReader.cache)
      invariant KeepsUp(list, sniffer.sniffer, seen, network)
      invariant attempts != [] ==>
                  payload.bytes == Flat(cReader.cache) && attempts[|attempts| - 1] == Attempt(payload.bytes, |payload.bytes| == payload.cap)
      invariant FailuresAreFinal(list, network) ==> Undecided(list, attempts, network)
      decreases 2 - totalAttempt
    {
      if * {
        result := Cancelled;
        UndecidedIsSettled(list, attempts, result, network);
        return;
      }
      totalAttempt := totalAttempt + 1;
      if totalAttempt > 2 {
        result := TimedOut;
        UndecidedIsSettled(list, attempts, result, network);
        return;
      }
      var ok, reply := TryOnce(cReader, sniffer, payload, size, network, list, seen);
      if !ok {
        result := CacheFailed;
        UndecidedIsSettled(list, attempts, result, network);
        return;
      }
      seen := payload.bytes;
      ghost var attempt := Attempt(payload.bytes, |payload.bytes| == payload.cap);
      if FailuresAreFinal(list, network) {
        OneMoreAttempt(list, attempts, attempt, network);
      }
      attempts := attempts + [attempt];
      if reply != ErrNoClue {
        return Content(reply), attempts;
      }
      if |payload.bytes| == payload.cap {
        return Content(ErrUnknownContent), attempts;
      }
    }
  }

  /** How the two answers are put together. */
  function Combined(meta: Reply, content: ContentReply): ContentReply {
    if !meta.Found? then content
    else if content.Content? && content.reply.Found? then Content(Found(Composite(meta.result, content.reply.result)))
    else Content(meta)
  }

  /**
  A hit on metadata gives the domain and, unless the content is recognised as well, the protocol;
  recognised content always gives the protocol. An error is left only when neither was recognised.
  */
  lemma CombinedSays(meta: Reply, content: ContentReply)
    ensures var (result, byContent) := (Combined(meta, content), content.Content? && content.reply.Found?);
            if !meta.Found? then result == content
            else
              && result.Content? && result.reply.Found?
              && DomainOf(result.reply.result) == DomainOf(meta.result)
              && ProtocolOf(result.reply.result) == ProtocolOf(if byContent then content.reply.result else meta.result)
  {
  }

  /** Metadata first, then content unless only metadata is wanted. */
  method SniffConnection(cReader: CachedReader, sniffer: Sniffer, payload: Payload, size: nat -> nat,
                         metadataOnly: bool, network: Network)
    returns (result: ContentReply, ghost content: ContentReply, ghost attempts: seq<Attempt>)
    requires forall n :: size(n) >= n
    modifies cReader, cReader.reader, sniffer, payload
    ensures cReader.Abs().Ahead() == old(cReader.Abs().Ahead())
    ensures |attempts| <= 2 && (metadataOnly ==> attempts == [])
    ensures metadataOnly ==> result == Content(MetaAnswer(old(sniffer.sniffer)))
    ensures !metadataOnly ==> result == Combined(MetaAnswer(old(sniffer.sniffer)), content)
    ensures !metadataOnly && FailuresAreFinal(old(sniffer.sniffer), network) ==>
              Settled(old(sniffer.sniffer), attempts, content, network)
  {
    ghost var list := sniffer.sniffer;
    content, attempts := Cancelled, [];
    var meta := sniffer.SniffMetadata();
    if metadataOnly {
      return Content(meta), content, attempts;
    }
    var contentReply;
    contentReply, attempts := SniffContent(cReader, sniffer, payload, size, network);
    content := contentReply;
    forall p
      ensures Answer(MetaRemaining(list), p, network) == Answer(list, p, network)
      ensures FailuresAreFinal(list, network) ==> FailuresAreFinal(MetaRemaining(list), network)
    {
      MetadataChangesNoAnswer(list, p, network);
    }
    MetadataChangesNoAnswer(list, [], network);
    if meta.Found? {
      if contentReply.Content? && contentReply.reply.Found? {
        return Content(Found(Composite(meta.result, contentReply.reply.result))), content, attempts;
      }
      return Content(meta), content, attempts;
    }
    result := contentReply;
  }
}
