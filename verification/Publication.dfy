/** Publishing one run: what is in its directory after any number of attempts, lost answers and deaths. */
module Publication {
  import opened Wrappers
  import opened JournalText
  import opened Journal

  /** The countersigned envelope: the members that are read here, and the rest of it. */
  datatype Receipt = Receipt(runId: string, bundleDigest: string, entryUrl: string, logSequence: nat, rest: string)

  datatype Plan = Plan(runId: string, bundleDigest: string, endpoint: string, fileCount: nat, byteCount: nat)

  /** What a submission came back with: an error on the way, or bytes that parse as a receipt or do not. */
  datatype Answer = Lost(code: string) | Answered(receipt: Option<Receipt>)

  datatype Outcome = PublishedAs(receipt: Receipt) | FailedWith(code: string) | Unrecorded | Dead

  datatype Recorded = Done | NotRecorded | Gone

  datatype Filed = Kept | NotKept(code: string) | Torn

  datatype Refusal = ProofInvalid | NotEligible | AlreadyPublished(url: Option<string>) | JournalCorrupt(why: Corrupt)

  const RECEIPT_INVALID: string := "publication_receipt_invalid"
  const RECEIPT_CONFLICT: string := "publication_receipt_conflict"
  const VALIDATION_FAILED: string := "validation_error"

  function EntryFor(
    plan: Plan, status: PublicationStatus, sequence: nat, at: string, url: Option<string>, logSequence: Option<nat>,
    code: Option<string>): Entry
  {
    Entry(sequence, at, plan.runId, status, plan.bundleDigest, plan.endpoint, plan.fileCount, plan.byteCount, url, logSequence, code)
  }

  lemma EntryAt(
    plan: Plan, status: PublicationStatus, sequence: nat, at: string, url: Option<string>, logSequence: Option<nat>,
    code: Option<string>)
    ensures var e := EntryFor(plan, status, sequence, at, url, logSequence, code); e.at == at && e.sequence == sequence
  {
  }

  // ---- What every history satisfies -----------------------------------------

  /** Every PUBLISHED line is backed by the receipt in the directory. */
  ghost predicate Backed(past: seq<Entry>, filed: Option<Receipt>) {
    forall e :: e in past && e.status.Published? ==>
      filed.Some? && e.entryUrl == Some(filed.value.entryUrl) && e.logSequence == Some(filed.value.logSequence)
      && e.runId == filed.value.runId && e.bundleDigest == filed.value.bundleDigest
  }

  predicate SameAttempt(d: Entry, e: Entry) {
    d.runId == e.runId && d.bundleDigest == e.bundleDigest && d.endpoint == e.endpoint
    && d.fileCount == e.fileCount && d.byteCount == e.byteCount
  }

  /** Every PUBLISHED or FAILED line directly follows the PENDING line of its own attempt. */
  predicate Paired(past: seq<Entry>) {
    forall i :: 0 <= i < |past| && !past[i].status.Pending? ==>
      i > 0 && past[i - 1].status.Pending? && SameAttempt(past[i - 1], past[i])
  }

  predicate AnyPublished(past: seq<Entry>) { exists i :: 0 <= i < |past| && past[i].status.Published? }

  /** Any two PUBLISHED lines say the same thing about where the run went. */
  lemma PublishedLinesAgree(past: seq<Entry>, filed: Option<Receipt>, d: Entry, e: Entry)
    requires Backed(past, filed) && d in past && e in past && d.status.Published? && e.status.Published?
    ensures d.entryUrl == e.entryUrl && d.logSequence == e.logSequence && d.bundleDigest == e.bundleDigest
  {
  }

  // ---- One append, seen from the history ------------------------------------

  /** However far an append of the next entry gets, the journal then reads as it did, or with the entry, or not at all. */
  lemma AppendedSoFar(raw: string, es: seq<Entry>, e: Entry, k: nat, read: Reader, types: FieldTypes)
    requires Faithful(read, types) && Accepted(e, types)
    requires Read(raw, read) == Ok(es) && e.sequence == |es| && k <= |Line(e)|
    ensures var now := raw + Line(e)[..k];
            (Read(now, read) == Ok(es) || Read(now, read) == Ok(es + [e]) || Read(now, read).Err?)
            && (k == |Line(e)| && Appendable(raw) ==> Read(now, read) == Ok(es + [e]) && Appendable(now))
            && (k == |Line(e)| && !Appendable(raw) ==> Read(now, read).Err?)
  {
    hide EntryText, Read, Finished, Accepted, Faithful, Appendable;
    LineNotEmpty(e);
    if k == 0 {
      assert raw + Line(e)[..k] == raw;
    } else if Appendable(raw) {
      CrashOutcome(raw, es, e, k, read, types);
      FinishedIsAppendable(raw + Line(e)[..k]);
    } else {
      GluedIsCorrupt(raw, e, k, read, types);
    }
  }

  lemma LineNotEmpty(e: Entry)
    ensures Line(e) != ""
  {
  }

  /** A PENDING line of this attempt has been added whole. */
  ghost predicate PendingDown(was: string, now: string, plan: Plan) {
    exists d: Entry :: d.status.Pending? && IsFor(plan, d) && was + Line(d) <= now
  }

  predicate IsFor(plan: Plan, d: Entry) {
    d.runId == plan.runId && d.bundleDigest == plan.bundleDigest && d.endpoint == plan.endpoint
    && d.fileCount == plan.fileCount && d.byteCount == plan.byteCount
  }

  // ---- The directory --------------------------------------------------------

  /** The run directory at one moment: the journal as it last read, whether it reads now, whether it can be appended to,
      the receipt file and what is filed in it, and how many submissions have left. */
  datatype Moment = Moment(
    past: seq<Entry>, readable: bool, ready: bool, receipt: Option<string>, filed: Option<Receipt>, sent: nat)

  class RunDirectory {
    const journal: PublicationJournal
    /** publication-receipt.json, if it exists. */
    var receipt: Option<string>
    const encode: Receipt -> string
    /** The countersignature, key, address and check rules of verify_publication_receipt. */
    const authentic: Receipt -> bool

    /** The receipt the file holds, once it holds a whole one. */
    ghost var filed: Option<Receipt>
    /** The journal as it last read. */
    ghost var past: seq<Entry>
    /** How many submissions have left this machine. */
    ghost var sent: nat

    /** What the entry's field types take, and the clock's readings, all of which they take. */
    const types: FieldTypes
    const clock: nat -> string

    ghost predicate JournalValid()
      reads `past, journal
    {
      Faithful(journal.read, types) && (forall n: nat :: types.time(clock(n)))
      && (journal.History().Ok? ==> journal.History().value == past)
    }

    /** The journal reads back. */
    ghost predicate Readable()
      reads journal
    {
      journal.History().Ok?
    }

    /** It reads back, and an append starts a line of its own. */
    ghost predicate Ready()
      reads journal
    {
      Readable() && Appendable(journal.Raw())
    }

    ghost function Now(): Moment
      reads this, journal
    {
      Moment(past, Readable(), Ready(), receipt, filed, sent)
    }

    ghost predicate Valid()
      reads this, journal
    {
      JournalValid() && Injective(encode) && CodesTyped(types)
      && (filed.Some? ==> receipt == Some(encode(filed.value)))
      && Backed(past, filed) && Paired(past)
    }

    constructor (
      read: Reader, types: FieldTypes, clock: nat -> string, encode: Receipt -> string, authentic: Receipt -> bool)
      requires Faithful(read, types) && Injective(encode) && CodesTyped(types) && forall n: nat :: types.time(clock(n))
      ensures Valid() && fresh(journal) && receipt == None && past == [] && sent == 0 && journal.file == None
      ensures this.encode == encode && this.authentic == authentic && journal.read == read
      ensures this.types == types && this.clock == clock
    {
      journal := new PublicationJournal(None, read);
      receipt := None;
      this.types := types;
      this.clock := clock;
      this.encode := encode;
      this.authentic := authentic;
      filed := None;
      past := [];
      sent := 0;
      ReadNothing(read);
    }

    lemma ReadingIsTime(n: nat)
      requires JournalValid()
      ensures types.time(clock(n))
    {
      hide Faithful;
    }

    /** _record: nothing is appended to a journal that cannot be read. */
    method Record(
      plan: Plan, status: PublicationStatus, url: Option<string>, logSequence: Option<nat>, code: Option<string>, mortal: bool)
      returns (r: Recorded, ghost e: Entry)
      requires JournalValid()
      modifies this`past, journal`file
      ensures JournalValid()
      ensures e == EntryFor(plan, status, |old(past)|, e.at, url, logSequence, code) && types.time(e.at)
      ensures past == old(past) || past == old(past) + [e]
      ensures old(journal.Raw()) <= journal.Raw() && (r.Done? ==> journal.Raw() == old(journal.Raw()) + Line(e))
      ensures r.Gone? ==> mortal
      ensures r.NotRecorded? <==> !old(Readable()) || !Accepted(e, types) || !Encodable(e)
      ensures r.NotRecorded? ==> journal.file == old(journal.file) && past == old(past) && Readable() == old(Readable())
      ensures r.Done? && old(Ready()) ==> past == old(past) + [e] && Ready()
      ensures r.Done? && !old(Ready()) ==> past == old(past) && !Readable()
    {
      hide Read, Line, EntryText, Appendable, Encodable, Accepted, Faithful, EntryFor;
      var now: nat := *;
      var at := clock(now);
      ReadingIsTime(now);
      var next := journal.NextSequence();
      if next.Err? {
        e := EntryFor(plan, status, |past|, at, url, logSequence, code);
        EntryAt(plan, status, |past|, at, url, logSequence, code);
        return NotRecorded, e;
      }
      var entry := EntryFor(plan, status, next.value, at, url, logSequence, code);
      EntryAt(plan, status, next.value, at, url, logSequence, code);
      e := entry;
      if !Accepted(entry, types) {
        return NotRecorded, entry;
      }
      var outcome, k := journal.Append(entry, mortal);
      if outcome.Refused? {
        return NotRecorded, entry;
      }
      AppendedSoFar(old(journal.Raw()), past, entry, k, journal.read, types);
      if k == |Line(entry)| {
        assert Line(entry)[..k] == Line(entry);
      }
      if journal.History().Ok? {
        past := journal.History().value;
      }
      r := if outcome.Died? then Gone else Done;
    }

    /** _write_receipt: exclusive creation, then the bytes; the process may die between the two or part-way. */
    method WriteReceipt(envelope: Receipt, mortal: bool) returns (r: Filed)
      requires filed.Some? ==> receipt == Some(encode(filed.value))
      requires Injective(encode)
      modifies this`receipt, this`filed
      ensures filed.Some? ==> receipt == Some(encode(filed.value))
      ensures old(receipt).Some? ==> receipt == old(receipt)
      ensures old(filed).Some? ==> filed == old(filed)
      ensures r.Kept? ==> filed == Some(envelope) && envelope.logSequence <= MAXIMUM_INTEGER
      ensures r.Torn? ==> mortal && old(receipt).None? && envelope.logSequence <= MAXIMUM_INTEGER
      ensures r == NotKept(VALIDATION_FAILED) <==> envelope.logSequence > MAXIMUM_INTEGER
      ensures r == NotKept(RECEIPT_CONFLICT)
         <==> envelope.logSequence <= MAXIMUM_INTEGER && old(receipt).Some? && old(receipt) != Some(encode(envelope))
      ensures r.NotKept? ==> receipt == old(receipt) && filed == old(filed)
      ensures r.NotKept? ==> r.code in {VALIDATION_FAILED, RECEIPT_CONFLICT}
      ensures receipt.Some? && old(receipt).None? ==> receipt.value <= encode(envelope)
    {
      if envelope.logSequence > MAXIMUM_INTEGER {
        return NotKept(VALIDATION_FAILED);
      }
      var data := encode(envelope);
      if receipt.None? {
        receipt := Some("");
        var dead := Dies(mortal);
        if dead {
          var n: nat :| n <= |data|;
          receipt := Some(data[..n]);
          filed := if data[..n] == data then Some(envelope) else None;
          return Torn;
        }
        receipt := Some(data);
        filed := Some(envelope);
        return Kept;
      }
      if receipt.value == data {
        filed := Some(envelope);
        return Kept;
      }
      return NotKept(RECEIPT_CONFLICT);
    }

    /** The answer parses, field types included, and verify_publication_receipt has nothing against it. */
    predicate Verified(plan: Plan, answer: Answer) {
      answer.Answered? && answer.receipt.Some? && types.name(answer.receipt.value.entryUrl)
      && authentic(answer.receipt.value) && Matches(plan, answer.receipt.value)
    }

    /** plan: a run that is already published is refused, and so is a journal that cannot be read. */
    method Refuse(proofVerified: bool, eligible: bool) returns (r: Option<Refusal>)
      requires JournalValid()
      ensures r.None? <==> proofVerified && eligible && Readable() && !AnyPublished(past)
      ensures r == Some(ProofInvalid) <==> !proofVerified
      ensures r == Some(NotEligible) <==> proofVerified && !eligible
      ensures r.Some? && r.value.AlreadyPublished? <==> proofVerified && eligible && Readable() && AnyPublished(past)
      ensures r.Some? && r.value.AlreadyPublished? ==> exists e :: e in past && e.status.Published? && e.entryUrl == r.value.url
      ensures r.Some? && r.value.JournalCorrupt? ==> journal.History() == Err(r.value.why)
    {
      if !proofVerified {
        return Some(ProofInvalid);
      }
      if !eligible {
        return Some(NotEligible);
      }
      var published := journal.Publication();
      if published.Err? {
        return Some(JournalCorrupt(published.error));
      }
      if published.value.Some? {
        assert published.value.value in past;
        return Some(AlreadyPublished(published.value.value.entryUrl));
      }
      return None;
    }

    function Envelope(plan: Plan, answer: Answer): (r: Receipt)
      requires Verified(plan, answer)
      ensures Matches(plan, r) && types.name(r.entryUrl)
    {
      answer.receipt.value
    }

    /** The answer verifies, and the receipt file is absent or already holds those bytes. */
    predicate Receivable(plan: Plan, answer: Answer, file: Option<string>) {
      Verified(plan, answer) && Envelope(plan, answer).logSequence <= MAXIMUM_INTEGER
      && (file.None? || file == Some(encode(Envelope(plan, answer))))
    }

    /** A countersigned receipt for this run and this bundle, with somewhere it landed. */
    predicate IsReceiptOf(plan: Plan, r: Receipt) {
      authentic(r) && r.runId == plan.runId && r.bundleDigest == plan.bundleDigest && types.name(r.entryUrl)
    }

    /** The code a failed delivery reports: a lost answer keeps its own; one that came back is invalid where it does not
        verify, and where it does, either its number is too large or the file holds another receipt. */
    predicate Explains(plan: Plan, answer: Answer, code: string) {
      match answer
      case Lost(own) => code == own
      case Answered(None) => code == "publication_receipt_invalid"
      case Answered(Some(r)) =>
        code in {"publication_receipt_invalid", "validation_error", "publication_receipt_conflict"}
        && (code == "publication_receipt_invalid" <==> !IsReceiptOf(plan, r))
        && (code == "validation_error" <==> IsReceiptOf(plan, r) && r.logSequence >= 0x20_0000_0000_0000)
        && (code == "publication_receipt_conflict" <==> IsReceiptOf(plan, r) && r.logSequence < 0x20_0000_0000_0000)
    }

    /** And it fails with that code only if it had to: a receipt that could be kept is. */
    predicate Fails(plan: Plan, answer: Answer, file: Option<string>, code: string) {
      Explains(plan, answer, code) && !Receivable(plan, answer, file)
    }

    /** _submit and _write_receipt: the part of publish that a TechtreeError may end. */
    method Deliver(plan: Plan, answer: Answer, mortal: bool) returns (r: Filed)
      requires filed.Some? ==> receipt == Some(encode(filed.value))
      requires Injective(encode)
      modifies this`receipt, this`filed, this`sent
      ensures sent == old(sent) + 1
      ensures filed.Some? ==> receipt == Some(encode(filed.value))
      ensures old(receipt).Some? ==> receipt == old(receipt)
      ensures old(filed).Some? ==> filed == old(filed)
      ensures r.Kept? ==> Receivable(plan, answer, old(receipt)) && Lands(plan, answer, old(receipt), Envelope(plan, answer), filed)
      ensures r.Torn? ==> mortal && Receivable(plan, answer, old(receipt))
      ensures r.NotKept? ==> Fails(plan, answer, old(receipt), r.code) && receipt == old(receipt)
      ensures receipt.Some? && old(receipt).None? ==> Verified(plan, answer) && receipt.value <= encode(Envelope(plan, answer))
      ensures r.NotKept? && CodesTyped(types) && (answer.Lost? ==> types.name(answer.code)) ==> types.name(r.code)
    {
      hide Injective;
      sent := sent + 1;
      if answer.Lost? {
        return NotKept(answer.code);
      }
      if !Verified(plan, answer) {
        return NotKept(RECEIPT_INVALID);
      }
      r := WriteReceipt(Envelope(plan, answer), mortal);
    }

    /** A closing line: PUBLISHED with where the receipt says it landed, or FAILED with the code of what went wrong. */
    predicate Closes(plan: Plan, landed: Option<Receipt>, code: string, e: Entry) {
      IsFor(plan, e)
      && if landed.Some?
         then e.status == Published && e.entryUrl == Some(landed.value.entryUrl) && e.logSequence == Some(landed.value.logSequence)
         else e.status == Failed && e.errorCode == Some(code)
    }

    /** The closing line of an attempt whose PENDING line is d: PUBLISHED where the receipt landed, or FAILED. */
    method Close(plan: Plan, landed: Option<Receipt>, code: string, mortal: bool, ghost d: Entry) returns (r: Recorded)
      requires Valid() && d.status.Pending? && d == EntryFor(plan, Pending, d.sequence, d.at, None, None, None)
      requires Readable() ==> past != [] && past[|past| - 1] == d
      requires landed.Some? ==> filed == landed && Matches(plan, landed.value) && landed.value.logSequence <= MAXIMUM_INTEGER
      modifies this`past, journal`file
      ensures Valid()
      ensures old(past) <= past && |past| <= |old(past)| + 1 && old(journal.Raw()) <= journal.Raw()
      ensures |past| > |old(past)| ==> Closes(plan, landed, code, past[|old(past)|])
      ensures r.Gone? ==> mortal
      ensures Sendable(plan, types) && |old(past)| <= MAXIMUM_INTEGER && old(Ready())
              && types.name(if landed.Some? then landed.value.entryUrl else code) ==>
                !r.NotRecorded? && (r.Done? ==> |past| == |old(past)| + 1 && Ready())
      ensures r.Done? ==> |past| == |old(past)| + 1 || !Readable()
      ensures !old(Readable()) ==> !Readable() && r.NotRecorded? && past == old(past)
    {
      hide Injective, Encodable, Accepted, Sendable, Backed, Paired, JournalValid, Ready, Readable, SameAttempt, Line;
      ReadyIsReadable();
      ghost var e;
      if landed.Some? {
        r, e := Record(plan, Published, Some(landed.value.entryUrl), Some(landed.value.logSequence), None, mortal);
        SameAttemptFor(plan, d, e);
        PublishedLine(old(past), filed, d, e);
      } else {
        r, e := Record(plan, Failed, None, None, Some(code), mortal);
        SameAttemptFor(plan, d, e);
        FailedLine(old(past), filed, d, e);
      }
      TakenLine(plan, e, types);
    }

    /** What publish does once PENDING is down: the answer, the receipt, then PUBLISHED or FAILED. */
    method Settle(plan: Plan, answer: Answer, mortal: bool, ghost d: Entry) returns (r: Outcome)
      requires Valid() && d.status.Pending? && d == EntryFor(plan, Pending, d.sequence, d.at, None, None, None)
      requires Readable() ==> past != [] && past[|past| - 1] == d
      modifies this`receipt, this`filed, this`past, this`sent, journal`file
      ensures Valid()
      ensures old(receipt).Some? ==> receipt == old(receipt)
      ensures old(filed).Some? ==> filed == old(filed)
      ensures old(past) <= past && |past| <= |old(past)| + 1 && sent == old(sent) + 1
      ensures old(journal.Raw()) <= journal.Raw()
      ensures r.PublishedAs? ==> Lands(plan, answer, old(receipt), r.receipt, filed)
      ensures r.FailedWith? ==> Fails(plan, answer, old(receipt), r.code) && receipt == old(receipt)
      ensures r.FailedWith? || r.PublishedAs? ==> |past| == |old(past)| + 1 || !Readable()
      ensures |past| > |old(past)| ==> Concludes(plan, answer, old(receipt), past[|old(past)|], r)
      ensures r.Dead? ==> mortal
      ensures !r.Dead? && Writable(plan, answer) && |old(past)| <= MAXIMUM_INTEGER && old(Ready()) ==>
                !r.Unrecorded? && |past| == |old(past)| + 1 && Ready()
                && (r.PublishedAs? <==> Receivable(plan, answer, old(receipt)))
      ensures !old(Readable()) ==> !Readable() && (r.Dead? || r.Unrecorded?) && past == old(past)
      ensures AnyPublished(past[|old(past)|..]) ==> Receivable(plan, answer, old(receipt))
      ensures receipt.Some? && old(receipt).None? ==> Verified(plan, answer) && receipt.value <= encode(Envelope(plan, answer))
    {
      hide Injective, Sendable, Backed, Paired, Verified, AnyPublished, JournalValid, Ready, Readable, EntryFor, CodesTyped;
      hide Explains, IsReceiptOf;
      NonePublished(past, past);
      var kept := Deliver(plan, answer, mortal);
      BackedStill(past, old(filed), filed);
      if kept.Torn? {
        return Dead;
      }
      var landed := if kept.Kept? then Some(Envelope(plan, answer)) else None;
      var recorded := Close(plan, landed, if kept.Kept? then "" else kept.code, mortal, d);
      if kept.Kept? {
        return if recorded.Done? then PublishedAs(landed.value) else if recorded.Gone? then Dead else Unrecorded;
      }
      NonePublished(old(past), past);
      r := if recorded.Done? then FailedWith(kept.code) else if recorded.Gone? then Dead else Unrecorded;
    }

    /** The closing line of an attempt says what the call reports: PUBLISHED with the answer's receipt where it could be
        kept, and otherwise FAILED with the code that says why. */
    predicate Concludes(plan: Plan, answer: Answer, file: Option<string>, e: Entry, r: Outcome) {
      IsFor(plan, e)
      && (if Receivable(plan, answer, file)
          then (e.status == Published && e.entryUrl == Some(Envelope(plan, answer).entryUrl)
                && e.logSequence == Some(Envelope(plan, answer).logSequence))
          else (e.status == Failed && e.errorCode.Some? && Fails(plan, answer, file, e.errorCode.value)))
      && (r.FailedWith? ==> e.errorCode == Some(r.code))
    }

    /** What a publication reports is what the answer carried and what the file now holds. */
    ghost predicate Lands(plan: Plan, answer: Answer, was: Option<string>, r: Receipt, now: Option<Receipt>) {
      Receivable(plan, answer, was) && r == Envelope(plan, answer) && now == Some(r)
      && answer == Answered(Some(r)) && IsReceiptOf(plan, r) && r.logSequence < 0x20_0000_0000_0000
    }

    /** The attempt's lines are ones the journal takes, given room for their numbers. */
    predicate Writable(plan: Plan, answer: Answer) {
      Sendable(plan, types) && (answer.Lost? ==> types.name(answer.code))
    }

    lemma ReadyIsReadable()
      ensures Ready() ==> Readable()
    {
    }

    /** What one publication answers and adds: PENDING, and one closing line that says what it answers. */
    ghost predicate Publishes(plan: Plan, answer: Answer, mortal: bool, r: Outcome, was: Moment, now: Moment) {
      var n := |was.past|;
      was.past <= now.past && |now.past| <= n + 2 && now.sent <= was.sent + 1
      && (|now.past| > n ==> now.past[n].status.Pending? && IsFor(plan, now.past[n]))
      && (|now.past| == n + 2 ==> Concludes(plan, answer, was.receipt, now.past[n + 1], r))
      && (r.FailedWith? || r.PublishedAs? ==> |now.past| == n + 2 || !now.readable)
      && (r.FailedWith? ==> Fails(plan, answer, was.receipt, r.code) && now.receipt == was.receipt)
      && (r.PublishedAs? ==> Lands(plan, answer, was.receipt, r.receipt, now.filed))
      && (r.Dead? ==> mortal)
      && (r.Unrecorded? && now.sent == was.sent <==> !was.readable || !Sendable(plan, types) || n > MAXIMUM_INTEGER)
      && (!r.Dead? && Writable(plan, answer) && n < MAXIMUM_INTEGER ==>
            if was.ready
            then !r.Unrecorded? && |now.past| == n + 2 && now.ready && (r.PublishedAs? <==> Receivable(plan, answer, was.receipt))
            else r.Unrecorded? && !now.readable)
    }

    /** What one attempt answers and does: refused, nothing at all; otherwise it publishes. */
    ghost predicate Attempts(a: Attempt, outcome: Result<Outcome, Refusal>, was: Moment, now: Moment) {
      match outcome
      case Err(why) =>
        now == was
        && (why.ProofInvalid? <==> !a.proofVerified)
        && (why.NotEligible? <==> a.proofVerified && !a.eligible)
        && (why.JournalCorrupt? <==> a.proofVerified && a.eligible && !was.readable)
        && (why.AlreadyPublished? <==> a.proofVerified && a.eligible && was.readable && AnyPublished(was.past))
      case Ok(r) =>
        a.proofVerified && a.eligible && was.readable && !AnyPublished(was.past)
        && Publishes(a.plan, a.answer, a.mortal, r, was, now)
    }

    /** publish: nothing is sent before the whole PENDING line is down. A call that runs to its end on a journal that
        can be appended to writes PENDING and then one line more, which is PUBLISHED exactly when the answer is
        receivable. */
    method Publish(plan: Plan, answer: Answer, mortal: bool) returns (r: Outcome)
      requires Valid()
      modifies this`receipt, this`filed, this`past, this`sent, journal`file
      ensures Valid()
      ensures old(receipt).Some? ==> receipt == old(receipt)
      ensures old(filed).Some? ==> filed == old(filed)
      ensures old(past) <= past && |past| <= |old(past)| + 2
      ensures forall i :: |old(past)| <= i < |past| - 1 ==> past[i].status.Pending?
      ensures sent > old(sent) || receipt != old(receipt) ==> PendingDown(old(journal.Raw()), journal.Raw(), plan)
      ensures Publishes(plan, answer, mortal, r, old(Now()), Now())
      ensures !old(Readable()) ==>
                r.Unrecorded? && journal.file == old(journal.file) && receipt == old(receipt) && sent == old(sent)
      ensures AnyPublished(past[|old(past)|..]) ==> Receivable(plan, answer, old(receipt))
      ensures receipt.Some? && old(receipt).None? ==> Verified(plan, answer) && receipt.value <= encode(Envelope(plan, answer))
    {
      hide Injective, Encodable, Accepted, Sendable, Backed, Paired, Verified, AnyPublished, JournalValid, Ready, Readable;
      hide Receivable, Line, PendingDown, CodesTyped, Fails, Concludes, Lands;
      ReadyIsReadable();
      var pending, d := Record(plan, Pending, None, None, None, mortal);
      PendingEntry(plan, d);
      PendingLine(old(past), filed, d);
      NonePublished(old(past), past);
      TakenLine(plan, d, types);
      if pending.NotRecorded? {
        return Unrecorded;
      }
      if pending.Gone? {
        return Dead;
      }
      ghost var before := past;
      r := Settle(plan, answer, mortal, d);
      SplitPublished(old(past), before, past);
      PendingIsDown(old(journal.Raw()), journal.Raw(), plan, d);
    }

    /** Any number of attempts, each planned before it publishes, with every process free to die. A published run
        is never touched again; at most one line publishes it; a receipt file that no answer matches keeps it from
        ever being published; and otherwise a last attempt that ends with a verified answer has it published. */
    method RunAll(attempts: seq<Attempt>) returns (outcomes: seq<Result<Outcome, Refusal>>, ghost moments: seq<Moment>)
      requires Valid()
      modifies this`receipt, this`filed, this`past, this`sent, journal`file
      ensures Valid() && |outcomes| == |attempts|
      ensures old(receipt).Some? ==> receipt == old(receipt)
      ensures old(filed).Some? ==> filed == old(filed)
      ensures old(past) <= past
      ensures AnyPublished(old(past)) ==> past == old(past) && journal.file == old(journal.file) && receipt == old(receipt)
      ensures old(PublishedOnce(past)) ==> PublishedOnce(past)
      ensures old(receipt).Some? && (forall a :: a in attempts ==> !Receivable(a.plan, a.answer, old(receipt))) ==>
                !AnyPublished(past[|old(past)|..])
      ensures forall entry :: OneAnswer(attempts, entry) && (old(receipt).None? || old(receipt).value <= encode(entry)) ==>
                receipt.None? || receipt.value <= encode(entry)
      ensures attempts != [] ==> Converged(attempts[|attempts| - 1], outcomes[|attempts| - 1])
      ensures |moments| == |attempts| + 1 && moments[0] == old(Now()) && moments[|attempts|] == Now()
      ensures forall i :: 0 <= i < |attempts| ==> Attempts(attempts[i], outcomes[i], moments[i], moments[i + 1])
    {
      hide Injective, Backed, Paired, JournalValid, Ready, Readable, Receivable, Verified, AnyPublished, PublishedOnce;
      hide PendingDown, CodesTyped, Writable, Lands, Converged, Attempts;
      NonePublished(past, past);
      outcomes, moments := [], [Now()];
      for i := 0 to |attempts|
        invariant Valid() && |outcomes| == i
        invariant old(receipt).Some? ==> receipt == old(receipt)
        invariant old(filed).Some? ==> filed == old(filed)
        invariant old(past) <= past
        invariant AnyPublished(old(past)) ==> past == old(past) && journal.file == old(journal.file) && receipt == old(receipt)
        invariant old(PublishedOnce(past)) ==> PublishedOnce(past)
        invariant old(receipt).Some? && (forall a :: a in attempts ==> !Receivable(a.plan, a.answer, old(receipt))) ==>
                    !AnyPublished(past[|old(past)|..])
        invariant forall entry :: OneAnswer(attempts, entry) && (old(receipt).None? || old(receipt).value <= encode(entry)) ==>
                    receipt.None? || receipt.value <= encode(entry)
        invariant i > 0 ==> Converged(attempts[i - 1], outcomes[i - 1])
        invariant |moments| == i + 1 && moments[0] == old(Now()) && moments[i] == Now()
        invariant forall j :: 0 <= j < i ==> Attempts(attempts[j], outcomes[j], moments[j], moments[j + 1])
      {
        var a := attempts[i];
        assert a in attempts;
        ghost var before := past;
        var outcome := AttemptOnce(a);
        SplitPublishedUnless(old(past), before, past);
        outcomes, moments := outcomes + [outcome], moments + [Now()];
      }
    }

    /** One attempt: the plan, and publishing where it is not refused. */
    method AttemptOnce(a: Attempt) returns (outcome: Result<Outcome, Refusal>)
      requires Valid()
      modifies this`receipt, this`filed, this`past, this`sent, journal`file
      ensures Valid()
      ensures old(receipt).Some? ==> receipt == old(receipt)
      ensures old(filed).Some? ==> filed == old(filed)
      ensures old(past) <= past
      ensures AnyPublished(old(past)) ==> past == old(past) && journal.file == old(journal.file) && receipt == old(receipt)
      ensures old(PublishedOnce(past)) ==> PublishedOnce(past)
      ensures AnyPublished(past[|old(past)|..]) ==> Receivable(a.plan, a.answer, old(receipt))
      ensures receipt.Some? && old(receipt).None? ==> Verified(a.plan, a.answer) && receipt.value <= encode(Envelope(a.plan, a.answer))
      ensures Converged(a, outcome)
      ensures Attempts(a, outcome, old(Now()), Now())
      ensures outcome.Err? ==> journal.file == old(journal.file)
    {
      hide Injective, Backed, Paired, JournalValid, Readable, Verified, AnyPublished, PublishedOnce, Writable, PendingDown, CodesTyped;
      NonePublished(past, past);
      ReadyIsReadable();
      var refusal := Refuse(a.proofVerified, a.eligible);
      if refusal.Some? {
        return Err(refusal.value);
      }
      ghost var before := past;
      var published := Publish(a.plan, a.answer, a.mortal);
      OncePublished(before, past);
      LastPublished(past);
      ReadyIsReadable();
      outcome := Ok(published);
    }

    /** Convergence: an attempt that was not refused by its proof or its report and did not die, whose answer verifies,
        and which leaves the journal in order and the receipt file absent or whole, leaves the run published. */
    ghost predicate Converged(a: Attempt, outcome: Result<Outcome, Refusal>)
      reads `past, `receipt, journal
    {
      (a.proofVerified && a.eligible && outcome != Ok(Dead) && Writable(a.plan, a.answer) && |past| < MAXIMUM_INTEGER
       && Ready() && Receivable(a.plan, a.answer, receipt)) ==> AnyPublished(past)
    }

    /** An idempotent run log: every answer that verifies carries one receipt. */
    ghost predicate OneAnswer(attempts: seq<Attempt>, entry: Receipt) {
      forall a :: a in attempts && Verified(a.plan, a.answer) ==> Envelope(a.plan, a.answer) == entry
    }
  }

  /** One attempt: what is planned, what comes back, what the plan's own checks say, and whether the process may die. */
  datatype Attempt = Attempt(plan: Plan, answer: Answer, proofVerified: bool, eligible: bool, mortal: bool)

  predicate PublishedOnce(past: seq<Entry>) {
    forall i, j :: 0 <= i < j < |past| ==> !(past[i].status.Published? && past[j].status.Published?)
  }

  lemma OncePublished(before: seq<Entry>, now: seq<Entry>)
    requires before <= now && !AnyPublished(before)
    requires forall i :: |before| <= i < |now| - 1 ==> now[i].status.Pending?
    ensures PublishedOnce(now)
  {
    forall i | 0 <= i < |now| - 1
      ensures !now[i].status.Published?
    {
      assert i < |before| ==> before[i] == now[i];
    }
  }

  /** The receipt is for what was sent. */
  predicate Matches(plan: Plan, r: Receipt) { r.runId == plan.runId && r.bundleDigest == plan.bundleDigest }

  /** A plan whose fields an entry can hold. */
  predicate Sendable(plan: Plan, types: FieldTypes) {
    0 < plan.fileCount <= MAXIMUM_INTEGER && 0 < plan.byteCount <= MAXIMUM_INTEGER
    && types.name(plan.runId) && types.digest(plan.bundleDigest) && types.name(plan.endpoint)
  }

  /** The error codes this module writes down are ones an entry can hold. */
  predicate CodesTyped(types: FieldTypes) {
    types.name(RECEIPT_INVALID) && types.name(RECEIPT_CONFLICT) && types.name(VALIDATION_FAILED)
  }

  lemma PendingEntry(plan: Plan, d: Entry)
    requires d == EntryFor(plan, d.status, d.sequence, d.at, d.entryUrl, d.logSequence, d.errorCode)
    ensures IsFor(plan, d)
  {
  }

  lemma PendingIsDown(was: string, now: string, plan: Plan, d: Entry)
    requires d.status.Pending? && IsFor(plan, d) && was + Line(d) <= now
    ensures PendingDown(was, now, plan)
  {
  }

  lemma LastPublished(past: seq<Entry>)
    ensures past != [] && past[|past| - 1].status.Published? ==> AnyPublished(past)
  {
  }

  lemma SplitPublishedUnless(first: seq<Entry>, second: seq<Entry>, third: seq<Entry>)
    requires first <= second <= third
    ensures !AnyPublished(second[|first|..]) && !AnyPublished(third[|second|..]) ==> !AnyPublished(third[|first|..])
  {
    if !AnyPublished(second[|first|..]) {
      SplitPublished(first, second, third);
    }
  }

  lemma SameAttemptFor(plan: Plan, d: Entry, e: Entry)
    requires d == EntryFor(plan, d.status, d.sequence, d.at, d.entryUrl, d.logSequence, d.errorCode)
    requires e == EntryFor(plan, e.status, e.sequence, e.at, e.entryUrl, e.logSequence, e.errorCode)
    ensures SameAttempt(d, e)
  {
  }

  lemma NonePublished(before: seq<Entry>, now: seq<Entry>)
    requires before <= now && |now| <= |before| + 1
    requires |now| > |before| ==> !now[|before|].status.Published?
    ensures !AnyPublished(now[|before|..])
  {
  }

  lemma AmongTwo(a: seq<Entry>, b: seq<Entry>, i: nat)
    requires i < |a + b|
    ensures (a + b)[i] == if i < |a| then a[i] else b[i - |a|]
  {
  }

  lemma SplitPublished(first: seq<Entry>, second: seq<Entry>, third: seq<Entry>)
    requires first <= second <= third && !AnyPublished(second[|first|..])
    ensures AnyPublished(third[|first|..]) ==> AnyPublished(third[|second|..])
  {
    var a, b := second[|first|..], third[|second|..];
    assert third[|first|..] == a + b;
    if AnyPublished(a + b) {
      var i :| 0 <= i < |a + b| && (a + b)[i].status.Published?;
      AmongTwo(a, b, i);
    }
  }

  lemma PendingLine(past: seq<Entry>, filed: Option<Receipt>, d: Entry)
    requires Backed(past, filed) && Paired(past) && d.status.Pending?
    ensures Backed(past + [d], filed) && Paired(past + [d])
  {
    var now := past + [d];
    forall i | 0 <= i < |now| && !now[i].status.Pending?
      ensures i > 0 && now[i - 1].status.Pending? && SameAttempt(now[i - 1], now[i])
    {
      assert i < |past| && now[i] == past[i];
    }
  }

  lemma BackedStill(past: seq<Entry>, old_: Option<Receipt>, now: Option<Receipt>)
    requires Backed(past, old_) && (old_.Some? ==> now == old_)
    ensures Backed(past, now)
  {
  }

  lemma PublishedLine(past: seq<Entry>, filed: Option<Receipt>, d: Entry, e: Entry)
    requires Backed(past, filed) && Paired(past) && d.status.Pending? && SameAttempt(d, e)
    requires filed.Some? && e.entryUrl == Some(filed.value.entryUrl) && e.logSequence == Some(filed.value.logSequence)
    requires e.runId == filed.value.runId && e.bundleDigest == filed.value.bundleDigest
    ensures Backed(past + [e], filed)
    ensures past != [] && past[|past| - 1] == d ==> Paired(past + [e])
  {
    if past != [] && past[|past| - 1] == d {
      PairedSnoc(past, e);
    }
  }

  lemma FailedLine(past: seq<Entry>, filed: Option<Receipt>, d: Entry, e: Entry)
    requires Backed(past, filed) && Paired(past) && d.status.Pending? && SameAttempt(d, e) && e.status.Failed?
    ensures Backed(past + [e], filed)
    ensures past != [] && past[|past| - 1] == d ==> Paired(past + [e])
  {
    if past != [] && past[|past| - 1] == d {
      PairedSnoc(past, e);
    }
  }

  lemma PairedSnoc(past: seq<Entry>, e: Entry)
    requires Paired(past) && past != []
    requires past[|past| - 1].status.Pending? && SameAttempt(past[|past| - 1], e)
    ensures Paired(past + [e])
  {
    var now := past + [e];
    forall i | 0 <= i < |now| && !now[i].status.Pending?
      ensures i > 0 && now[i - 1].status.Pending? && SameAttempt(now[i - 1], now[i])
    {
      assert i < |past| ==> now[i] == past[i];
    }
  }

  /** An attempt's line is one the journal takes exactly when the plan can be written down and its number fits. */
  lemma TakenLine(plan: Plan, e: Entry, types: FieldTypes)
    requires e == EntryFor(plan, e.status, e.sequence, e.at, e.entryUrl, e.logSequence, e.errorCode) && types.time(e.at)
    requires match e.status
             case Pending => e.entryUrl.None? && e.logSequence.None? && e.errorCode.None?
             case Published => e.entryUrl.Some? && e.logSequence.Some? && e.errorCode.None?
             case Failed => e.entryUrl.None? && e.logSequence.None? && e.errorCode.Some?
             case _ => false
    requires e.logSequence.Some? ==> e.logSequence.value <= MAXIMUM_INTEGER
    ensures Accepted(e, types) && Encodable(e)
       <==> Sendable(plan, types) && e.sequence <= MAXIMUM_INTEGER
            && (e.entryUrl.Some? ==> types.name(e.entryUrl.value)) && (e.errorCode.Some? ==> types.name(e.errorCode.value))
  {
  }
}
