/**
  Job verification and the nonce ledger (internal/jobs/verifier.go, internal/jobs/replay.go).
  Verification is one atomic step with one clock reading. Nonces stand for their own ledger file
  names, which the code derives by SHA-256. The signature check over the received bytes is a flag
  of the received document.
  */
module Replay {
  import opened Outcomes
  import opened Job

  const MINUTE: int := 60_000_000_000
  const CLOCK_SKEW: int := 2 * MINUTE
  const NONCE_RETENTION: int := 48 * 60 * MINUTE

  datatype Identity = Identity(organization: string, connector: string)

  /** What arrives over the network: bytes that do not decode, or an envelope and whether it is signed. */
  datatype Document = Undecodable | Document(job: Envelope, signed: bool)

  datatype Refusal =
    | ProtocolVersion | WrongOrganization | WrongConnector | JobExpired | SignatureInvalid | NonceReplayed

  datatype Verdict = Accepted | Refused(code: Refusal) | LedgerFailure

  /** How the file system answers the attempt to create and close one ledger entry. */
  datatype Storage = Fine | CannotCreate | CannotClose

  /** Nonce to the modification time of its entry. */
  type Entries = map<string, int>

  // ---- The ledger ----

  datatype Consumption = Recorded | AlreadyUsed | Failed

  function ConsumptionOf(entries: Entries, nonce: string, storage: Storage): Consumption {
    if storage.CannotCreate? then Failed
    else if nonce in entries then AlreadyUsed
    else if storage.CannotClose? then Failed
    else Recorded
  }

  /** A close error is reported after the entry exists. */
  function Consumed(entries: Entries, nonce: string, now: int, storage: Storage): Entries {
    if storage.CannotCreate? || nonce in entries then entries else entries[nonce := now]
  }

  /** Entries not modified after the retention cutoff go, except those the file system keeps. */
  function Pruned(entries: Entries, now: int, stuck: set<string>): Entries {
    map nonce | nonce in entries && (entries[nonce] > now - NONCE_RETENTION || nonce in stuck) :: entries[nonce]
  }

  class ReplayLedger {
    var entries: Entries

    constructor (onDisk: Entries)
      ensures entries == onDisk
    {
      entries := onDisk;
    }

    method Consume(nonce: string, now: int, storage: Storage) returns (r: Consumption)
      modifies this
      ensures r == ConsumptionOf(old(entries), nonce, storage)
      ensures entries == Consumed(old(entries), nonce, now, storage)
    {
      if storage.CannotCreate? {
        return Failed;
      }
      if nonce in entries {
        return AlreadyUsed;
      }
      entries := entries[nonce := now];
      return if storage.CannotClose? then Failed else Recorded;
    }

    /** Walks a directory listing and removes what is old enough. */
    method Prune(now: int, stuck: set<string>) returns (removed: nat)
      modifies this
      ensures entries == Pruned(old(entries), now, stuck)
      ensures removed == |old(entries)| - |entries|
    {
      var listing := entries.Keys;
      var cutoff := now - NONCE_RETENTION;
      removed := 0;
      while listing != {}
        invariant listing <= entries.Keys <= old(entries).Keys
        invariant forall nonce :: nonce in entries ==> entries[nonce] == old(entries)[nonce]
        invariant forall nonce :: nonce in old(entries) && nonce !in listing ==>
                    (nonce in entries <==> nonce in Pruned(old(entries), now, stuck))
        invariant removed == |old(entries)| - |entries|
        decreases |listing|
      {
        var nonce :| nonce in listing;
        listing := listing - {nonce};
        if entries[nonce] > cutoff || nonce in stuck {
          continue;
        }
        var kept := entries - {nonce};
        assert kept.Keys == entries.Keys - {nonce};
        assert |kept| == |kept.Keys| && |entries| == |entries.Keys|;
        entries := kept;
        removed := removed + 1;
      }
    }
  }

  // ---- Verification ----

  /** Every check that comes before the ledger, in the code's order. */
  function EarlyRefusal(id: Identity, doc: Document, now: int): Option<Refusal> {
    if doc.Undecodable? then Some(ProtocolVersion)
    else if !Valid(doc.job) then Some(ProtocolVersion)
    else if doc.job.organization != id.organization then Some(WrongOrganization)
    else if doc.job.connector != id.connector then Some(WrongConnector)
    else if now >= doc.job.expiresAt then Some(JobExpired)
    else if doc.job.issuedAt > now + CLOCK_SKEW then Some(JobExpired)
    else if !doc.signed then Some(SignatureInvalid)
    else None
  }

  function VerdictOf(id: Identity, entries: Entries, doc: Document, now: int, storage: Storage): Verdict {
    match EarlyRefusal(id, doc, now)
    case Some(code) => Refused(code)
    case None =>
      assert doc.Document?;
      match ConsumptionOf(entries, doc.job.nonce, storage)
      case Recorded => Accepted
      case AlreadyUsed => Refused(NonceReplayed)
      case Failed => LedgerFailure
  }

  /** An envelope that fails an earlier check never reaches the ledger. */
  function Verified(id: Identity, entries: Entries, doc: Document, now: int, storage: Storage): (after: Entries)
    ensures EarlyRefusal(id, doc, now).Some? ==> after == entries
    ensures forall nonce :: nonce in entries ==> nonce in after && after[nonce] == entries[nonce]
  {
    if EarlyRefusal(id, doc, now).Some? then entries else Consumed(entries, doc.job.nonce, now, storage)
  }

  method Verify(id: Identity, ledger: ReplayLedger, doc: Document, now: int, storage: Storage)
    returns (verdict: Verdict)
    modifies ledger
    ensures verdict == VerdictOf(id, old(ledger.entries), doc, now, storage)
    ensures ledger.entries == Verified(id, old(ledger.entries), doc, now, storage)
  {
    if doc.Undecodable? || !Valid(doc.job) {
      return Refused(ProtocolVersion);
    }
    if doc.job.organization != id.organization {
      return Refused(WrongOrganization);
    }
    if doc.job.connector != id.connector {
      return Refused(WrongConnector);
    }
    if now >= doc.job.expiresAt || doc.job.issuedAt > now + CLOCK_SKEW {
      return Refused(JobExpired);
    }
    if !doc.signed {
      return Refused(SignatureInvalid);
    }
    var r := ledger.Consume(doc.job.nonce, now, storage);
    verdict :=
      match r case Recorded => Accepted case AlreadyUsed => Refused(NonceReplayed) case Failed => LedgerFailure;
  }

  // ---- What each verdict means ----

  /** The document decodes to a structurally valid job. */
  predicate Decodes(doc: Document) {
    doc.Document? && Valid(doc.job)
  }

  predicate AddressedTo(id: Identity, doc: Document)
    requires doc.Document?
  {
    doc.job.organization == id.organization && doc.job.connector == id.connector
  }

  /** The clock is in the job's window, with the tolerated skew before it and none after it. */
  predicate Timely(doc: Document, now: int)
    requires doc.Document?
  {
    doc.job.issuedAt - CLOCK_SKEW <= now < doc.job.expiresAt
  }

  /** Everything a document has to be before its nonce is looked at. */
  predicate Presentable(id: Identity, doc: Document, now: int) {
    Decodes(doc) && AddressedTo(id, doc) && Timely(doc, now) && doc.signed
  }

  /**
    A document is accepted if and only if it decodes, is valid, signed, addressed to this connector
    of this organization and timely, its nonce is new, and its entry can be created and closed.
    */
  lemma AcceptedIff(id: Identity, entries: Entries, doc: Document, now: int, storage: Storage)
    ensures VerdictOf(id, entries, doc, now, storage).Accepted? <==>
            Presentable(id, doc, now) && doc.job.nonce !in entries && storage.Fine?
  {
  }

  /** Each refusal names the first thing that is wrong, in the order of the checks. */
  lemma RefusedIff(id: Identity, entries: Entries, doc: Document, now: int, storage: Storage)
    ensures var v := VerdictOf(id, entries, doc, now, storage);
            && (v == Refused(ProtocolVersion) <==> !Decodes(doc))
            && (v == Refused(WrongOrganization) <==> Decodes(doc) && doc.job.organization != id.organization)
            && (v == Refused(WrongConnector) <==>
                Decodes(doc) && doc.job.organization == id.organization && doc.job.connector != id.connector)
            && (v == Refused(JobExpired) <==> Decodes(doc) && AddressedTo(id, doc) && !Timely(doc, now))
            && (v == Refused(SignatureInvalid) <==>
                Decodes(doc) && AddressedTo(id, doc) && Timely(doc, now) && !doc.signed)
            && (v == Refused(NonceReplayed) <==>
                Presentable(id, doc, now) && doc.job.nonce in entries && !storage.CannotCreate?)
            && (v == LedgerFailure <==>
                Presentable(id, doc, now)
                && (storage.CannotCreate? || (storage.CannotClose? && doc.job.nonce !in entries)))
  {
  }

  /** The ledger gains the nonce exactly when the document is presentable and the entry can be created. */
  lemma LedgerGrowsIff(id: Identity, entries: Entries, doc: Document, now: int, storage: Storage)
    ensures Verified(id, entries, doc, now, storage) ==
            if Presentable(id, doc, now) && doc.job.nonce !in entries && !storage.CannotCreate?
            then entries[doc.job.nonce := now] else entries
  {
  }

  // ---- Runs ----

  /** A restart keeps the directory, so it changes nothing but the clock. */
  datatype Event =
    | Receive(at: int, doc: Document, storage: Storage)
    | Prune(at: int, stuck: set<string>)
    | Restart(at: int)

  predicate NonDecreasing(events: seq<Event>) {
    forall i, j :: 0 <= i < j < |events| ==> events[i].at <= events[j].at
  }

  function After(id: Identity, entries: Entries, e: Event): Entries {
    match e
    case Receive(at, doc, storage) => Verified(id, entries, doc, at, storage)
    case Prune(at, stuck) => Pruned(entries, at, stuck)
    case Restart(_) => entries
  }

  predicate Accepts(id: Identity, entries: Entries, e: Event, doc: Document) {
    e.Receive? && e.doc == doc && VerdictOf(id, entries, doc, e.at, e.storage).Accepted?
  }

  /** How often a run accepts one document. */
  function Acceptances(id: Identity, entries: Entries, events: seq<Event>, doc: Document): nat
    decreases |events|
  {
    if events == [] then 0
    else
      (if Accepts(id, entries, events[0], doc) then 1 else 0)
      + Acceptances(id, After(id, entries, events[0]), events[1..], doc)
  }

  /** From now on the document is refused: its nonce outlives it in the ledger, or it has expired. */
  predicate Blocked(entries: Entries, doc: Document, now: int)
    requires doc.Document?
  {
    || now >= doc.job.expiresAt
    || (doc.job.nonce in entries && doc.job.expiresAt <= entries[doc.job.nonce] + NONCE_RETENTION)
  }

  lemma BlockedStays(id: Identity, entries: Entries, e: Event, doc: Document, now: int)
    requires doc.Document? && Blocked(entries, doc, now) && now <= e.at
    ensures !Accepts(id, entries, e, doc)
    ensures Blocked(After(id, entries, e), doc, e.at)
  {
  }

  lemma {:induction false} BlockedForever(id: Identity, entries: Entries, events: seq<Event>, doc: Document, now: int)
    requires doc.Document? && Blocked(entries, doc, now)
    requires NonDecreasing(events) && (events != [] ==> now <= events[0].at)
    ensures Acceptances(id, entries, events, doc) == 0
    decreases |events|
  {
    if events != [] {
      BlockedStays(id, entries, events[0], doc, now);
      BlockedForever(id, After(id, entries, events[0]), events[1..], doc, events[0].at);
    }
  }

  predicate ShortLived(doc: Document)
    requires doc.Document?
  {
    doc.job.expiresAt - doc.job.issuedAt <= NONCE_RETENTION - CLOCK_SKEW
  }

  lemma AcceptanceBlocks(id: Identity, entries: Entries, e: Event, doc: Document)
    requires doc.Document? && ShortLived(doc) && Accepts(id, entries, e, doc)
    ensures Blocked(After(id, entries, e), doc, e.at)
  {
  }

  lemma {:induction false} ShortLivedAtMostOnce(id: Identity, entries: Entries, events: seq<Event>, doc: Document)
    requires doc.Document? && ShortLived(doc) && NonDecreasing(events)
    ensures Acceptances(id, entries, events, doc) <= 1
    decreases |events|
  {
    if events != [] {
      var after := After(id, entries, events[0]);
      if Accepts(id, entries, events[0], doc) {
        AcceptanceBlocks(id, entries, events[0], doc);
        BlockedForever(id, after, events[1..], doc, events[0].at);
      } else {
        ShortLivedAtMostOnce(id, after, events[1..], doc);
      }
    }
  }

  /** Accepted as early as the skew allows, forgotten at the retention boundary, accepted again. */
  function ReplaySchedule(doc: Document): seq<Event>
    requires doc.Document?
  {
    var first := doc.job.issuedAt - CLOCK_SKEW;
    [Receive(first, doc, Fine), Prune(first + NONCE_RETENTION, {}), Receive(first + NONCE_RETENTION, doc, Fine)]
  }

  lemma LongLivedTwice(id: Identity, doc: Document)
    requires doc.Document? && !ShortLived(doc) && EarlyRefusal(id, doc, doc.job.issuedAt).None?
    ensures NonDecreasing(ReplaySchedule(doc))
    ensures Acceptances(id, map[], ReplaySchedule(doc), doc) == 2
  {
    var events := ReplaySchedule(doc);
    var one := After(id, map[], events[0]);
    var two := After(id, one, events[1]);
    assert one == map[doc.job.nonce := events[0].at];
    assert two == map[];
    assert events[1..] == [events[1], events[2]] && events[1..][1..] == [events[2]] && [events[2]][1..] == [];
    assert Accepts(id, map[], events[0], doc) && !Accepts(id, one, events[1], doc) && Accepts(id, two, events[2], doc);
    assert Acceptances(id, two, [events[2]], doc) == 1 + Acceptances(id, After(id, two, events[2]), [], doc);
    assert Acceptances(id, one, [events[1], events[2]], doc) == Acceptances(id, two, [events[2]], doc);
  }

  /**
    At-most-once acceptance holds of every ledger and every run with a non-decreasing clock if and
    only if the job's lifetime fits in the retention window less the tolerated clock skew.
    */
  lemma AtMostOnceIffShortLived(id: Identity, doc: Document)
    requires doc.Document? && EarlyRefusal(id, doc, doc.job.issuedAt).None?
    ensures (forall entries: Entries, events :: NonDecreasing(events) ==> Acceptances(id, entries, events, doc) <= 1)
            <==> ShortLived(doc)
    ensures ShortLived(doc) <==> doc.job.expiresAt - doc.job.issuedAt <= (48 * 60 - 2) * 60_000_000_000
  {
    if ShortLived(doc) {
      forall entries: Entries, events | NonDecreasing(events)
        ensures Acceptances(id, entries, events, doc) <= 1
      {
        ShortLivedAtMostOnce(id, entries, events, doc);
      }
    } else {
      LongLivedTwice(id, doc);
    }
  }
}
