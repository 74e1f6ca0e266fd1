/**
The sniffer of core/xray/app/dispatcher/sniffer.go: a list of protocol sniffers that shrinks to
the undecided ones after every attempt. A sniffer is a function from the payload to a hit, no
clue yet, or a definite failure.
*/
module Sniffing {

  type Bytes = seq<bv8>

  datatype Network = TCP | UDP | Unix | NoNetwork

  datatype SniffResult =
    | Protocol(protocol: string, domain: string)
    | Composite(domainResult: SniffResult, protocolResult: SniffResult)

  datatype Outcome = Hit(result: SniffResult) | NoClue | Fails

  datatype ProtocolSniffer = ProtocolSniffer(sniff: Bytes -> Outcome, metadataSniffer: bool, network: Network)

  datatype Reply = Found(result: SniffResult) | ErrNoClue | ErrUnknownContent

  predicate Applies(si: ProtocolSniffer, network: Network) {
    !si.metadataSniffer && si.network == network
  }

  // ---------- what one attempt answers ----------

  datatype MaybeHit = Nothing | First(result: SniffResult)

  function FirstHit(list: seq<ProtocolSniffer>, payload: Bytes, network: Network): MaybeHit {
    if list == [] then Nothing
    else if Applies(list[0], network) && list[0].sniff(payload).Hit? then First(list[0].sniff(payload).result)
    else FirstHit(list[1..], payload, network)
  }

  /** The sniffers that apply and have no clue yet, in order. */
  function Pending(list: seq<ProtocolSniffer>, payload: Bytes, network: Network): seq<ProtocolSniffer> {
    if list == [] then []
    else
      var rest := Pending(list[1..], payload, network);
      if Applies(list[0], network) && list[0].sniff(payload).NoClue? then [list[0]] + rest else rest
  }

  function Answer(list: seq<ProtocolSniffer>, payload: Bytes, network: Network): Reply {
    match FirstHit(list, payload, network)
    case First(r) => Found(r)
    case Nothing => if Pending(list, payload, network) != [] then ErrNoClue else ErrUnknownContent
  }

  function Remaining(list: seq<ProtocolSniffer>, payload: Bytes, network: Network): seq<ProtocolSniffer> {
    if Answer(list, payload, network).ErrNoClue? then Pending(list, payload, network) else list
  }

  function FirstMetaHit(list: seq<ProtocolSniffer>): MaybeHit {
    if list == [] then Nothing
    else if list[0].metadataSniffer && list[0].sniff([]).Hit? then First(list[0].sniff([]).result)
    else FirstMetaHit(list[1..])
  }

  function MetaPending(list: seq<ProtocolSniffer>): seq<ProtocolSniffer> {
    if list == [] then []
    else
      var rest := MetaPending(list[1..]);
      if !list[0].metadataSniffer || list[0].sniff([]).NoClue? then [list[0]] + rest else rest
  }

  function MetaAnswer(list: seq<ProtocolSniffer>): Reply {
    match FirstMetaHit(list)
    case First(r) => Found(r)
    case Nothing => if MetaPending(list) != [] then ErrNoClue else ErrUnknownContent
  }

  function MetaRemaining(list: seq<ProtocolSniffer>): seq<ProtocolSniffer> {
    if MetaAnswer(list).ErrNoClue? then MetaPending(list) else list
  }

  /** After i sniffers without a hit, with these found undecided. */
  ghost predicate Scanned(list: seq<ProtocolSniffer>, i: nat, found: seq<ProtocolSniffer>, payload: Bytes, network: Network) {
    && i <= |list|
    && FirstHit(list, payload, network) == FirstHit(list[i..], payload, network)
    && Pending(list, payload, network) == found + Pending(list[i..], payload, network)
  }

  lemma ScanStep(list: seq<ProtocolSniffer>, i: nat, found: seq<ProtocolSniffer>, payload: Bytes, network: Network)
    requires i < |list| && Scanned(list, i, found, payload, network)
    ensures var (si, out) := (list[i], list[i].sniff(payload));
            if Applies(si, network) && out.Hit? then FirstHit(list, payload, network) == First(out.result)
            else Scanned(list, i + 1, if Applies(si, network) && out.NoClue? then found + [si] else found, payload, network)
  {
    assert list[i..][1..] == list[i + 1..];
    assert found + ([list[i]] + Pending(list[i + 1..], payload, network))
        == found + [list[i]] + Pending(list[i + 1..], payload, network);
  }

  ghost predicate MetaScanned(list: seq<ProtocolSniffer>, i: nat, found: seq<ProtocolSniffer>) {
    && i <= |list|
    && FirstMetaHit(list) == FirstMetaHit(list[i..])
    && MetaPending(list) == found + MetaPending(list[i..])
  }

  lemma MetaScanStep(list: seq<ProtocolSniffer>, i: nat, found: seq<ProtocolSniffer>)
    requires i < |list| && MetaScanned(list, i, found)
    ensures var (si, out) := (list[i], list[i].sniff([]));
            if si.metadataSniffer && out.Hit? then FirstMetaHit(list) == First(out.result)
            else MetaScanned(list, i + 1, if !si.metadataSniffer || out.NoClue? then found + [si] else found)
  {
    assert list[i..][1..] == list[i + 1..];
    assert found + ([list[i]] + MetaPending(list[i + 1..])) == found + [list[i]] + MetaPending(list[i + 1..]);
  }

  class Sniffer {
    var sniffer: seq<ProtocolSniffer>

    constructor (list: seq<ProtocolSniffer>)
      ensures sniffer == list
    {
      sniffer := list;
    }

    method Sniff(payload: Bytes, network: Network) returns (reply: Reply)
      modifies this
      ensures reply == Answer(old(sniffer), payload, network)
      ensures sniffer == Remaining(old(sniffer), payload, network)
    {
      var pendingSniffer: seq<ProtocolSniffer> := [];
      for i := 0 to |sniffer|
        invariant sniffer == old(sniffer)
        invariant Scanned(sniffer, i, pendingSniffer, payload, network)
      {
        var si := sniffer[i];
        ScanStep(sniffer, i, pendingSniffer, payload, network);
        if si.metadataSniffer || si.network != network {
          continue;
        }
        match si.sniff(payload)
        case NoClue => pendingSniffer := pendingSniffer + [si];
        case Hit(result) => return Found(result);
        case Fails =>
      }
      if |pendingSniffer| > 0 {
        sniffer := pendingSniffer;
        return ErrNoClue;
      }
      reply := ErrUnknownContent;
    }

    method SniffMetadata() returns (reply: Reply)
      modifies this
      ensures reply == MetaAnswer(old(sniffer))
      ensures sniffer == MetaRemaining(old(sniffer))
    {
      var pendingSniffer: seq<ProtocolSniffer> := [];
      for i := 0 to |sniffer|
        invariant sniffer == old(sniffer)
        invariant MetaScanned(sniffer, i, pendingSniffer)
      {
        var si := sniffer[i];
        MetaScanStep(sniffer, i, pendingSniffer);
        if !si.metadataSniffer {
          pendingSniffer := pendingSniffer + [si];
          continue;
        }
        match si.sniff([])
        case NoClue => pendingSniffer := pendingSniffer + [si];
        case Hit(result) => return Found(result);
        case Fails =>
      }
      if |pendingSniffer| > 0 {
        sniffer := pendingSniffer;
        return ErrNoClue;
      }
      reply := ErrUnknownContent;
    }
  }

  // ---------- who has a say ----------

  /** A content sniffer of this network that recognises the payload. */
  predicate Recognises(si: ProtocolSniffer, payload: Bytes, network: Network) {
    !si.metadataSniffer && si.network == network && si.sniff(payload).Hit?
  }

  /** A content sniffer of this network that cannot tell yet. */
  predicate IsUnsure(si: ProtocolSniffer, payload: Bytes, network: Network) {
    !si.metadataSniffer && si.network == network && si.sniff(payload).NoClue?
  }

  lemma {:induction false} FirstHitIs(list: seq<ProtocolSniffer>, payload: Bytes, network: Network) returns (i: nat)
    ensures i <= |list| && forall j :: 0 <= j < i ==> !Recognises(list[j], payload, network)
    ensures i < |list| ==> Recognises(list[i], payload, network)
    ensures FirstHit(list, payload, network) == if i < |list| then First(list[i].sniff(payload).result) else Nothing
  {
    if list == [] || Recognises(list[0], payload, network) {
      i := 0;
    } else {
      i := FirstHitIs(list[1..], payload, network);
      i := i + 1;
      assert forall j :: 0 < j < i ==> list[j] == list[1..][j - 1];
    }
  }

  lemma {:induction false} PendingIff(list: seq<ProtocolSniffer>, payload: Bytes, network: Network, si: ProtocolSniffer)
    ensures si in Pending(list, payload, network) <==> si in list && IsUnsure(si, payload, network)
  {
    if list != [] {
      PendingIff(list[1..], payload, network, si);
    }
  }

  /**
  An attempt finds what the first content sniffer of the network that recognises the payload finds;
  when none does, it has no clue if some such sniffer is unsure, and otherwise gives up. Only having
  no clue shortens the list, to the unsure ones.
  */
  lemma AnswerIs(list: seq<ProtocolSniffer>, payload: Bytes, network: Network) returns (i: nat)
    ensures i <= |list| && forall j :: 0 <= j < i ==> !Recognises(list[j], payload, network)
    ensures i < |list| ==> Recognises(list[i], payload, network)
    ensures Answer(list, payload, network) ==
              if i < |list| then Found(list[i].sniff(payload).result)
              else if exists si :: si in list && IsUnsure(si, payload, network) then ErrNoClue
              else ErrUnknownContent
    ensures forall si :: si in Remaining(list, payload, network) <==>
                         si in list && (Answer(list, payload, network) == ErrNoClue ==> IsUnsure(si, payload, network))
  {
    i := FirstHitIs(list, payload, network);
    var pending := Pending(list, payload, network);
    forall si
      ensures si in pending <==> si in list && IsUnsure(si, payload, network)
    {
      PendingIff(list, payload, network, si);
    }
    assert pending != [] ==> pending[0] in pending;
  }

  predicate MetaRecognises(si: ProtocolSniffer) {
    si.metadataSniffer && si.sniff([]).Hit?
  }

  /** A sniffer that metadata sniffing leaves to be asked: a content sniffer, or one that cannot tell yet. */
  predicate IsLeft(si: ProtocolSniffer) {
    si.metadataSniffer ==> si.sniff([]).NoClue?
  }

  lemma {:induction false} FirstMetaHitIs(list: seq<ProtocolSniffer>) returns (i: nat)
    ensures i <= |list| && forall j :: 0 <= j < i ==> !MetaRecognises(list[j])
    ensures i < |list| ==> MetaRecognises(list[i])
    ensures FirstMetaHit(list) == if i < |list| then First(list[i].sniff([]).result) else Nothing
  {
    if list == [] || MetaRecognises(list[0]) {
      i := 0;
    } else {
      i := FirstMetaHitIs(list[1..]);
      i := i + 1;
      assert forall j :: 0 < j < i ==> list[j] == list[1..][j - 1];
    }
  }

  lemma {:induction false} MetaPendingIff(list: seq<ProtocolSniffer>, si: ProtocolSniffer)
    ensures si in MetaPending(list) <==> si in list && IsLeft(si)
  {
    if list != [] {
      MetaPendingIff(list[1..], si);
    }
  }

  /** The same for metadata, where sniffers are asked about no payload. */
  lemma MetaAnswerIs(list: seq<ProtocolSniffer>) returns (i: nat)
    ensures i <= |list| && forall j :: 0 <= j < i ==> !MetaRecognises(list[j])
    ensures i < |list| ==> MetaRecognises(list[i])
    ensures MetaAnswer(list) ==
              if i < |list| then Found(list[i].sniff([]).result)
              else if exists si :: si in list && IsLeft(si) then ErrNoClue
              else ErrUnknownContent
    ensures forall si :: si in MetaRemaining(list) <==> si in list && (MetaAnswer(list) == ErrNoClue ==> IsLeft(si))
  {
    i := FirstMetaHitIs(list);
    var pending := MetaPending(list);
    forall si
      ensures si in pending <==> si in list && IsLeft(si)
    {
      MetaPendingIff(list, si);
    }
    assert pending != [] ==> pending[0] in pending;
  }

  // ---------- what a result says ----------

  /** A composite takes its protocol from the content and its domain from the metadata. */
  function ProtocolOf(r: SniffResult): string {
    match r
    case Protocol(protocol, _) => protocol
    case Composite(_, protocolResult) => ProtocolOf(protocolResult)
  }

  function DomainOf(r: SniffResult): string {
    match r
    case Protocol(_, domain) => domain
    case Composite(domainResult, _) => DomainOf(domainResult)
  }

  // ---------- shrinking loses nothing ----------

  /** A definite failure of an applicable sniffer stays a failure when the payload grows. */
  ghost predicate FailuresAreFinal(list: seq<ProtocolSniffer>, network: Network) {
    forall si, a, b :: si in list && Applies(si, network) && a <= b && si.sniff(a).Fails? ==> si.sniff(b).Fails?
  }

  /** Two lists give the same answers on every payload that extends `p`. */
  ghost predicate SameFrom(list: seq<ProtocolSniffer>, cur: seq<ProtocolSniffer>, p: Bytes, network: Network) {
    forall q :: p <= q ==>
      FirstHit(cur, q, network) == FirstHit(list, q, network) && Pending(cur, q, network) == Pending(list, q, network)
  }

  lemma {:induction false} PendingDecides(list: seq<ProtocolSniffer>, p: Bytes, q: Bytes, network: Network)
    requires FailuresAreFinal(list, network) && p <= q && FirstHit(list, p, network).Nothing?
    ensures FirstHit(Pending(list, p, network), q, network) == FirstHit(list, q, network)
    ensures Pending(Pending(list, p, network), q, network) == Pending(list, q, network)
  {
    if list != [] {
      PendingDecides(list[1..], p, q, network);
      assert Applies(list[0], network) && list[0].sniff(p).Fails? ==> list[0].sniff(q).Fails? by {
        assert list[0] in list;
      }
      var rest := Pending(list[1..], p, network);
      assert ([list[0]] + rest)[1..] == rest;
    }
  }

  lemma {:induction false} PendingIsPartOf(list: seq<ProtocolSniffer>, p: Bytes, network: Network)
    ensures forall si :: si in Pending(list, p, network) ==> si in list
  {
    if list != [] {
      PendingIsPartOf(list[1..], p, network);
    }
  }

  lemma ShrinkingKeepsAnswers(list: seq<ProtocolSniffer>, cur: seq<ProtocolSniffer>, p: Bytes, network: Network)
    requires FailuresAreFinal(cur, network) && SameFrom(list, cur, p, network)
    ensures var next := Remaining(cur, p, network); SameFrom(list, next, p, network) && FailuresAreFinal(next, network)
  {
    PendingIsPartOf(cur, p, network);
    var next := Remaining(cur, p, network);
    if Answer(cur, p, network).ErrNoClue? {
      forall q | p <= q
        ensures FirstHit(next, q, network) == FirstHit(list, q, network)
        ensures Pending(next, q, network) == Pending(list, q, network)
      {
        PendingDecides(cur, p, q, network);
      }
    }
  }

  /** The list after a series of attempts. */
  function After(list: seq<ProtocolSniffer>, payloads: seq<Bytes>, network: Network): seq<ProtocolSniffer> {
    if payloads == [] then list
    else Remaining(After(list, payloads[..|payloads| - 1], network), payloads[|payloads| - 1], network)
  }

  predicate EachExtends(payloads: seq<Bytes>) {
    forall i, j :: 0 <= i < j < |payloads| ==> payloads[i] <= payloads[j]
  }

  lemma {:induction false} AttemptsKeepAnswers(list: seq<ProtocolSniffer>, payloads: seq<Bytes>, network: Network)
    requires FailuresAreFinal(list, network) && EachExtends(payloads)
    ensures var cur := After(list, payloads, network);
            FailuresAreFinal(cur, network)
            && SameFrom(list, cur, if payloads == [] then [] else payloads[|payloads| - 1], network)
  {
    if payloads != [] {
      var init := payloads[..|payloads| - 1];
      AttemptsKeepAnswers(list, init, network);
      ShrinkingKeepsAnswers(list, After(list, init, network), payloads[|payloads| - 1], network);
    }
  }

  /**
  Attempt by attempt, sniffing with the shrinking list answers what running the full list on the
  current payload would answer.
  */
  lemma IncrementalEqualsFull(list: seq<ProtocolSniffer>, payloads: seq<Bytes>, next: Bytes, network: Network)
    requires FailuresAreFinal(list, network) && EachExtends(payloads + [next])
    ensures Answer(After(list, payloads, network), next, network) == Answer(list, next, network)
  {
    var all := payloads + [next];
    assert all[..|all| - 1] == payloads;
    assert EachExtends(payloads) by {
      assert forall i :: 0 <= i < |payloads| ==> payloads[i] == all[i];
    }
    AttemptsKeepAnswers(list, payloads, network);
    if payloads != [] {
      assert all[|payloads| - 1] <= all[|payloads|];
    }
  }

  /** A list that is another with some elements left out, in the same order. */
  ghost predicate IsSubsequence(part: seq<ProtocolSniffer>, whole: seq<ProtocolSniffer>) {
    part == [] ||
    (whole != [] && ((part[0] == whole[0] && IsSubsequence(part[1..], whole[1..])) || IsSubsequence(part, whole[1..])))
  }

  lemma {:induction false} RemainingIsSubsequence(list: seq<ProtocolSniffer>, payload: Bytes, network: Network)
    ensures IsSubsequence(Remaining(list, payload, network), list)
  {
    PendingIsSubsequence(list, payload, network);
    SubsequenceOfItself(list);
  }

  lemma {:induction false} SubsequenceOfItself(list: seq<ProtocolSniffer>)
    ensures IsSubsequence(list, list)
  {
    if list != [] {
      SubsequenceOfItself(list[1..]);
    }
  }

  lemma {:induction false} PendingIsSubsequence(list: seq<ProtocolSniffer>, payload: Bytes, network: Network)
    ensures IsSubsequence(Pending(list, payload, network), list)
  {
    if list != [] {
      PendingIsSubsequence(list[1..], payload, network);
      var rest := Pending(list[1..], payload, network);
      assert ([list[0]] + rest)[1..] == rest;
    }
  }

  /** The content sniffers of a list. */
  function Contents(list: seq<ProtocolSniffer>): seq<ProtocolSniffer> {
    if list == [] then []
    else if list[0].metadataSniffer then Contents(list[1..])
    else [list[0]] + Contents(list[1..])
  }

  /** Sniffing metadata drops no content sniffer, so it changes no later answer. */
  lemma {:induction false} MetadataKeepsContents(list: seq<ProtocolSniffer>)
    ensures Contents(MetaRemaining(list)) == Contents(list)
  {
    MetaPendingKeepsContents(list);
  }

  lemma {:induction false} MetaPendingKeepsContents(list: seq<ProtocolSniffer>)
    ensures Contents(MetaPending(list)) == Contents(list)
  {
    if list != [] {
      MetaPendingKeepsContents(list[1..]);
      var rest := MetaPending(list[1..]);
      assert ([list[0]] + rest)[1..] == rest;
    }
  }

  lemma {:induction false} ContentsDecide(list: seq<ProtocolSniffer>, payload: Bytes, network: Network)
    ensures FirstHit(list, payload, network) == FirstHit(Contents(list), payload, network)
    ensures Pending(list, payload, network) == Pending(Contents(list), payload, network)
  {
    if list != [] {
      ContentsDecide(list[1..], payload, network);
      var rest := Contents(list[1..]);
      assert ([list[0]] + rest)[1..] == rest;
    }
  }

  lemma MetadataChangesNoAnswer(list: seq<ProtocolSniffer>, payload: Bytes, network: Network)
    ensures Answer(MetaRemaining(list), payload, network) == Answer(list, payload, network)
    ensures FailuresAreFinal(list, network) ==> FailuresAreFinal(MetaRemaining(list), network)
  {
    MetadataKeepsContents(list);
    ContentsDecide(list, payload, network);
    ContentsDecide(MetaRemaining(list), payload, network);
    MetaPendingIsPartOf(list);
  }

  lemma {:induction false} MetaPendingIsPartOf(list: seq<ProtocolSniffer>)
    ensures forall si :: si in MetaPending(list) ==> si in list
  {
    if list != [] {
      MetaPendingIsPartOf(list[1..]);
    }
  }
}
