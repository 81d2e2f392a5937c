/**
  The sending loop of `main.py` (`JobApplicationSystem.run_sending_process`). It resumes
  one row after the ledger's cursor, skips blocked and already-contacted addresses,
  asks the generator for a message, previews it in test mode or sends it, records
  each delivery in the ledger, and stops at the first quota error.

  `RunFrom` is the specification: the events of the run from row `i` on and the
  ledger and status it ends with. `RunSendingProcess` is the loop, proved to
  produce exactly that. The lemmas state what the run guarantees.
 */
module Engine {
  import opened Options
  import opened Text
  import opened Blocklist
  import opened Ledger
  import opened JsonSpan
  import opened Delivery

  /** One row of `recipients.csv`. */
  datatype Recipient = Recipient(
    companyName: string, recipientName: string, designation: string,
    email: string, jobTitle: string, jobUrl: string)

  /** The `subject` and `body` of a generated message. */
  datatype Content = Content(subject: string, body: string)

  /**
    What the engine cannot see, given per row: the language model's reply to the
    prompt for row `i` (`None` when the query failed), what `json.loads` makes of a
    span (`None` when it raises or yields an empty object), Gmail's answer to the
    send for row `i`, and the clock when the ledger is saved after row `i`.
   */
  datatype Collaborators = Collaborators(
    reply: nat -> Option<string>,
    parse: string -> Option<Content>,
    transport: nat -> TransportReply,
    clock: nat -> string)

  /**
    `generate_email_content` after the query: a message only when the reply is
    non-empty, holds a brace span, and that span parses.
   */
  function GenerateContent(reply: Option<string>, parse: string -> Option<Content>): Option<Content> {
    if reply.None? || reply.value == "" then None
    else match ExtractJsonSpan(reply.value)
      case None => None
      case Some(span) => parse(span)
  }

  /**
    A message comes only from a reply holding a brace span that parses; a reply with no
    span gives none; a reply with a span gives what `parse` makes of the extracted one.
   */
  lemma GenerateContentNeedsSpan(reply: Option<string>, parse: string -> Option<Content>)
    ensures var c := GenerateContent(reply, parse);
      && (c.Some? ==> reply.Some? && exists i, j :: BraceSpan(reply.value, i, j) && parse(reply.value[i..j]) == c)
      && (reply.Some? && (forall i, j :: !BraceSpan(reply.value, i, j)) ==> c.None?)
      && (reply.Some? && ExtractJsonSpan(reply.value).Some? ==> c == parse(ExtractJsonSpan(reply.value).value))
  {
    if reply.Some? {
      ExtractJsonSpanIsLeftmostLongest(reply.value);
    }
  }

  /**
    The message made from a reply is `parse` of its leftmost `{`…`}` span, the longest
    one at that start.
   */
  lemma GenerateContentParsesLeftmostLongest(reply: string, parse: string -> Option<Content>, i: int, j: int)
    requires BraceSpan(reply, i, j)
    requires forall i', j' :: BraceSpan(reply, i', j') ==> i < i' || (i == i' && j' <= j)
    ensures GenerateContent(Some(reply), parse) == parse(reply[i..j])
  {
    ExtractJsonSpanIsLeftmostLongest(reply);
    var x := ExtractJsonSpan(reply);
    assert x.Some?;
    var i0, j0 :| BraceSpan(reply, i0, j0) && x.value == reply[i0..j0]
      && forall i', j' :: BraceSpan(reply, i', j') ==> i0 < i' || (i0 == i' && j' <= j0);
    assert i0 == i && j0 == j;
  }

  /** What happened to one row. */
  datatype Event =
    | Skipped(row: nat)                          // blocked or already contacted
    | ContentFailed(row: nat)                    // no usable message from the generator
    | Previewed(row: nat, content: Content)      // test mode: shown, not sent
    | Delivered(row: nat, content: Content)      // sent and recorded
    | DeliveryFailed(row: nat)                   // send failed, not recorded
    | QuotaStopped(row: nat)                     // quota error: the run ends here

  /** How a run ended. */
  datatype Status = NotAuthenticated | RecipientsMissing | Completed | StoppedByQuota | PreviewLimit

  datatype Outcome = Outcome(events: seq<Event>, ledger: LedgerState, status: Status)

  /**
    Row `i` as the loop finds it, apart from the ledger: its address, whether the
    address is blocked, the message the generator makes for it, what sending it comes
    to, and the time at which a delivery would be saved. None of these depends on the
    ledger, so they are fixed for the whole run.
   */
  datatype Screened = Screened(email: string, blocked: bool, content: Option<Content>, send: SendResult, now: string)

  function Screen(r: Recipient, blocked: BlockFile, co: Collaborators, i: nat): Screened {
    Screened(r.email, IsBlocked(blocked, r.email), GenerateContent(co.reply(i), co.parse),
             Classify(co.transport(i)), co.clock(i))
  }

  function ScreenAll(rows: seq<Recipient>, blocked: BlockFile, co: Collaborators): (screened: seq<Screened>)
    ensures |screened| == |rows|
    ensures forall k :: 0 <= k < |rows| ==> screened[k] == Screen(rows[k], blocked, co, k)
  {
    seq(|rows|, k requires 0 <= k < |rows| => Screen(rows[k], blocked, co, k))
  }

  lemma ScreenAllAt(rows: seq<Recipient>, blocked: BlockFile, co: Collaborators, i: nat)
    requires i < |rows|
    ensures var x := ScreenAll(rows, blocked, co)[i];
      && x.email == rows[i].email && x.blocked == IsBlocked(blocked, rows[i].email)
      && x.content == GenerateContent(co.reply(i), co.parse)
      && x.send == Classify(co.transport(i)) && x.now == co.clock(i)
  {
  }

  /** What stays fixed during a run; `start` is the row after the cursor the run began with. */
  datatype Setup = Setup(rows: seq<Screened>, testMode: bool, start: nat)

  function Prepend(evs: seq<Event>, o: Outcome): Outcome {
    o.(events := evs + o.events)
  }

  lemma PrependTwice(a: seq<Event>, b: seq<Event>, o: Outcome)
    ensures Prepend(a, Prepend(b, o)) == Prepend(a + b, o)
  {
    assert a + (b + o.events) == (a + b) + o.events;
  }

  /** What row `i` comes to, and the ledger state the run goes on with (`None` when the run stops at it). */
  datatype RowResult = RowResult(event: Event, next: Option<LedgerState>)

  /** One pass of the loop body, for row `i` and ledger state `s`. */
  function ProcessRow(job: Setup, i: nat, s: LedgerState): RowResult
    requires i < |job.rows|
  {
    var row := job.rows[i];
    if row.blocked || WasSent(s.sentEmails, row.email) then RowResult(Skipped(i), Some(s))
    else match row.content
      case None => RowResult(ContentFailed(i), Some(s))
      case Some(content) =>
        if job.testMode then RowResult(Previewed(i, content), if i >= job.start + 2 then None else Some(s))
        else match row.send
          case Sent => RowResult(Delivered(i, content), Some(Mark(s, i, row.email, row.now)))
          case QuotaError => RowResult(QuotaStopped(i), None)
          case Failed => RowResult(DeliveryFailed(i), Some(s))
  }

  /**
    What one row comes to: a skip exactly when the address is blocked or recorded; a
    delivery only of an address neither blocked nor recorded, and then the ledger
    records it; a preview only in test mode, and nothing attempted there; the run
    stops only at a quota error or at a preview from row `start + 2` on; otherwise the
    ledger is left as it was.
   */
  lemma ProcessRowMeans(job: Setup, i: nat, s: LedgerState)
    requires i < |job.rows|
    ensures var r := ProcessRow(job, i, s);
      && r.event.row == i
      && (r.event.Skipped? <==> job.rows[i].blocked || WasSent(s.sentEmails, job.rows[i].email))
      && (r.event.Delivered? ==>
            && !job.testMode && !WasSent(s.sentEmails, job.rows[i].email)
            && r.next == Some(Mark(s, i, job.rows[i].email, job.rows[i].now))
            && r.next.value.sentEmails == s.sentEmails + [Lower(job.rows[i].email)])
      && (r.event.Previewed? <==> job.testMode && !r.event.Skipped? && !r.event.ContentFailed?)
      && (r.next.None? <==> r.event.QuotaStopped? || (r.event.Previewed? && i >= job.start + 2))
      && (r.next.Some? && !r.event.Delivered? ==> r.next.value == s)
      && (job.testMode ==> !r.event.Delivered? && !r.event.DeliveryFailed? && !r.event.QuotaStopped?)
      && (!r.event.Skipped? ==> (r.event.ContentFailed? <==> job.rows[i].content.None?))
      && (r.event.Previewed? || r.event.Delivered? ==> job.rows[i].content == Some(r.event.content))
      && (!job.testMode && !r.event.Skipped? && job.rows[i].content.Some? ==>
            && (r.event.Delivered? <==> job.rows[i].send == Sent)
            && (r.event.QuotaStopped? <==> job.rows[i].send == QuotaError)
            && (r.event.DeliveryFailed? <==> job.rows[i].send == Failed))
  {
    MarkFacts(s, i, job.rows[i].email, job.rows[i].now);
  }

  /** The status of a run that stopped at event `e`. */
  function StopStatus(e: Event): Status {
    if e.QuotaStopped? then StoppedByQuota else PreviewLimit
  }

  /** The run from row `i` on, with ledger state `s`. */
  function RunFrom(job: Setup, i: nat, s: LedgerState): Outcome
    decreases |job.rows| - i
  {
    if i >= |job.rows| then Outcome([], s, Completed)
    else
      var r := ProcessRow(job, i, s);
      match r.next
      case None => Outcome([r.event], s, StopStatus(r.event))
      case Some(next) => Prepend([r.event], RunFrom(job, i + 1, next))
  }

  /** The run from row `i` is what row `i` comes to, followed by the run from row `i + 1` unless it stops there. */
  lemma RunFromRow(job: Setup, i: nat, s: LedgerState)
    requires i < |job.rows|
    ensures var r := ProcessRow(job, i, s);
      && (r.next.None? ==> RunFrom(job, i, s) == Outcome([r.event], s, StopStatus(r.event)))
      && (r.next.Some? ==> RunFrom(job, i, s) == Prepend([r.event], RunFrom(job, i + 1, r.next.value)))
  {
  }

  /** A whole call of `run_sending_process`, from the ledger state it loads. */
  function Run(authenticated: bool, recipients: Option<seq<Recipient>>, blocked: BlockFile,
               co: Collaborators, testMode: bool, s: LedgerState): Outcome
    requires s.lastIndexSent >= -1
  {
    if !authenticated then Outcome([], s, NotAuthenticated)
    else if recipients.None? then Outcome([], s, RecipientsMissing)
    else
      var start := s.lastIndexSent + 1;
      RunFrom(Setup(ScreenAll(recipients.value, blocked, co), testMode, start), start, s)
  }

  /**
    One pass of the loop body of `run_sending_process` for row `i`: the event it
    reports, whether the loop stops there, and the ledger's new state are those
    `ProcessRow` gives.
   */
  method HandleRow(ghost job: Setup, rows: seq<Recipient>, blocked: BlockFile, co: Collaborators,
                   testMode: bool, start: nat, ledger: SendingState, i: nat)
    returns (event: Event, stop: bool)
    requires i < |rows| && job == Setup(ScreenAll(rows, blocked, co), testMode, start)
    modifies ledger
    ensures var r := ProcessRow(job, i, old(ledger.state));
      && event == r.event && (stop <==> r.next.None?)
      && ledger.state == if r.next.Some? then r.next.value else old(ledger.state)
  {
    ScreenAllAt(rows, blocked, co, i);
    var email := rows[i].email;
    if IsBlocked(blocked, email) || WasSent(ledger.state.sentEmails, email) {
      return Skipped(i), false;
    }
    var content := GenerateContent(co.reply(i), co.parse);
    if content.None? {
      return ContentFailed(i), false;
    }
    if testMode {
      return Previewed(i, content.value), i >= start + 2;
    }
    var result := Classify(co.transport(i));
    if result == Sent {
      ledger.MarkSent(i, email, co.clock(i));
      return Delivered(i, content.value), false;
    } else if result == QuotaError {
      return QuotaStopped(i), true;
    }
    return DeliveryFailed(i), false;
  }

  /**
    The loop of `run_sending_process`, from row `start` with the ledger as it stands:
    the events, the status and the ledger's new state are those of `RunFrom`.
   */
  method SendRows(ghost job: Setup, rows: seq<Recipient>, blocked: BlockFile, co: Collaborators,
                  testMode: bool, start: nat, ledger: SendingState)
    returns (events: seq<Event>, status: Status)
    requires job == Setup(ScreenAll(rows, blocked, co), testMode, start)
    modifies ledger
    ensures var o := RunFrom(job, start, old(ledger.state));
      events == o.events && status == o.status && ledger.state == o.ledger
  {
    events := [];
    ghost var target := RunFrom(job, start, ledger.state);
    assert Prepend(events, target) == target;
    status := Completed;
    var i := start;
    while i < |rows|
      invariant start <= i
      invariant status == Completed
      invariant Prepend(events, RunFrom(job, i, ledger.state)) == target
      decreases |rows| - i
    {
      ghost var s := ledger.state;
      ghost var before := events;
      RunFromRow(job, i, s);
      var event, stop := HandleRow(job, rows, blocked, co, testMode, start, ledger, i);
      events := events + [event];
      if stop {
        assert RunFrom(job, i, s) == Outcome([event], s, StopStatus(event));
        status := StopStatus(event);
        break;
      }
      assert RunFrom(job, i, s) == Prepend([event], RunFrom(job, i + 1, ledger.state));
      PrependTwice(before, [event], RunFrom(job, i + 1, ledger.state));
      i := i + 1;
    }
  }

  /**
    `run_sending_process`: the events, the final status and the ledger's new state are
    those of `Run` on the state the ledger held before.
   */
  method RunSendingProcess(authenticated: bool, recipients: Option<seq<Recipient>>, blocklist: Blocklist,
                           ledger: SendingState, co: Collaborators, testMode: bool)
    returns (events: seq<Event>, status: Status)
    requires ledger.state.lastIndexSent >= -1
    modifies ledger
    ensures var o := Run(authenticated, recipients, blocklist.data, co, testMode, old(ledger.state));
      events == o.events && status == o.status && ledger.state == o.ledger
  {
    if !authenticated {
      return [], NotAuthenticated;
    }
    if recipients.None? {
      return [], RecipientsMissing;
    }
    var rows := recipients.value;
    var start := ledger.state.lastIndexSent + 1;
    ghost var job := Setup(ScreenAll(rows, blocklist.data, co), testMode, start);
    events, status := SendRows(job, rows, blocklist.data, co, testMode, start, ledger);
  }
}
