/**
  What a run of the sending loop guarantees: which rows it visits and in what order,
  which addresses it skips, what the ledger holds afterwards, how quota errors and
  test mode end it, and why a second run never writes to an address twice.
 */
module RunProperties {
  import opened Options
  import opened Text
  import opened Blocklist
  import opened Ledger
  import opened Delivery
  import opened Engine

  /** The address of the row an event is about. */
  ghost function EmailOf(job: Setup, e: Event): string {
    if e.row < |job.rows| then job.rows[e.row].email else ""
  }

  /** Whether the address of the row an event is about is blocked. */
  ghost predicate BlockedOf(job: Setup, e: Event) {
    e.row < |job.rows| && job.rows[e.row].blocked
  }

  /** The lower-cased addresses of the delivered rows, in order. */
  ghost function DeliveredEmails(job: Setup, evs: seq<Event>): seq<string> {
    if evs == [] then []
    else (if evs[0].Delivered? then [Lower(EmailOf(job, evs[0]))] else []) + DeliveredEmails(job, evs[1..])
  }

  /** Events for which the generator was asked for a message: every kind but a skip. */
  predicate Contacted(e: Event) {
    !e.Skipped?
  }

  /** Events for which the Gmail API was called. */
  predicate Attempted(e: Event) {
    e.Delivered? || e.DeliveryFailed? || e.QuotaStopped?
  }

  /** How many rows were previewed. */
  ghost function PreviewCount(evs: seq<Event>): nat {
    if evs == [] then 0 else (if evs[0].Previewed? then 1 else 0) + PreviewCount(evs[1..])
  }

  /** Some event before position `k` delivered to `email`, compared up to case. */
  ghost predicate DeliveredBefore(job: Setup, evs: seq<Event>, k: int, email: string) {
    exists k' :: 0 <= k' < k && k' < |evs| && evs[k'].Delivered? && Lower(EmailOf(job, evs[k'])) == Lower(email)
  }

  /** Position `k` holds the last delivery of `evs`. */
  ghost predicate LastDelivery(evs: seq<Event>, k: int) {
    0 <= k < |evs| && evs[k].Delivered? && forall k' :: k < k' < |evs| ==> !evs[k'].Delivered?
  }

  ghost predicate NoDelivery(evs: seq<Event>) {
    forall k :: 0 <= k < |evs| ==> !evs[k].Delivered?
  }

  /** `o` is event `e` followed by `rest`, and ends as `rest` does. */
  ghost predicate Continues(o: Outcome, e: Event, rest: Outcome) {
    o.events == [e] + rest.events && o.ledger == rest.ledger && o.status == rest.status
  }

  // ----- Unfolding one row -----

  lemma ContinuesIndex(o: Outcome, e: Event, rest: Outcome)
    requires Continues(o, e, rest)
    ensures |o.events| == |rest.events| + 1 && o.events[0] == e && o.events[1..] == rest.events
    ensures forall k :: 0 <= k < |rest.events| ==> o.events[k + 1] == rest.events[k]
  {
  }

  lemma DeliveredBeforeShift(job: Setup, e: Event, rest: seq<Event>, k: int, email: string)
    requires 0 <= k
    ensures DeliveredBefore(job, [e] + rest, k + 1, email) <==>
      (e.Delivered? && Lower(EmailOf(job, e)) == Lower(email)) || DeliveredBefore(job, rest, k, email)
  {
    var evs := [e] + rest;
    if DeliveredBefore(job, evs, k + 1, email) {
      var k' :| 0 <= k' < k + 1 && k' < |evs| && evs[k'].Delivered? && Lower(EmailOf(job, evs[k'])) == Lower(email);
      if k' > 0 {
        assert rest[k' - 1] == evs[k'];
        assert 0 <= k' - 1 < k && k' - 1 < |rest| && rest[k' - 1].Delivered?
          && Lower(EmailOf(job, rest[k' - 1])) == Lower(email);
      }
    }
    if DeliveredBefore(job, rest, k, email) {
      var k' :| 0 <= k' < k && k' < |rest| && rest[k'].Delivered? && Lower(EmailOf(job, rest[k'])) == Lower(email);
      assert evs[k' + 1] == rest[k'];
      assert 0 <= k' + 1 < k + 1 && k' + 1 < |evs| && evs[k' + 1].Delivered?
        && Lower(EmailOf(job, evs[k' + 1])) == Lower(email);
    }
    if e.Delivered? && Lower(EmailOf(job, e)) == Lower(email) {
      assert evs[0] == e;
    }
  }

  /** A delivery at position `k1` counts as delivered before every later position, for every address equal to its own up to case. */
  lemma DeliveredBeforeLater(job: Setup, evs: seq<Event>, k1: int, k2: int)
    requires 0 <= k1 < k2 <= |evs| && evs[k1].Delivered?
    ensures forall x :: Lower(x) == Lower(EmailOf(job, evs[k1])) ==> DeliveredBefore(job, evs, k2, x)
  {
  }

  lemma {:induction false} DeliveredListed(job: Setup, evs: seq<Event>, k: int)
    requires 0 <= k < |evs| && evs[k].Delivered?
    ensures Lower(EmailOf(job, evs[k])) in DeliveredEmails(job, evs)
  {
    if k > 0 {
      DeliveredListed(job, evs[1..], k - 1);
    }
  }

  lemma {:induction false} LastDeliveryExists(evs: seq<Event>, k: int)
    requires 0 <= k < |evs| && evs[k].Delivered?
    ensures exists j :: k <= j && LastDelivery(evs, j)
    decreases |evs| - k
  {
    if LastDelivery(evs, k) {
    } else {
      var j :| k < j < |evs| && evs[j].Delivered?;
      LastDeliveryExists(evs, j);
    }
  }

  // ----- Order and ending -----

  lemma InOrderStep(o: Outcome, e: Event, rest: Outcome, i: nat, n: nat)
    requires Continues(o, e, rest) && e.row == i && i < n
    requires forall k :: 0 <= k < |rest.events| ==> rest.events[k].row == i + 1 + k
    requires rest.events != [] ==> i + 1 + |rest.events| <= n
    requires rest.status == Completed ==> i + 1 + |rest.events| == n
    ensures forall k :: 0 <= k < |o.events| ==> o.events[k].row == i + k
    ensures i + |o.events| <= n
    ensures o.status == Completed ==> i + |o.events| == n
  {
    ContinuesIndex(o, e, rest);
  }

  /** Rows `i`, `i + 1`, ... are visited one event each, in order; a completed run visits every remaining row. */
  lemma {:induction false} VisitsRowsInOrder(job: Setup, i: nat, s: LedgerState)
    ensures var o := RunFrom(job, i, s);
      && (forall k :: 0 <= k < |o.events| ==> o.events[k].row == i + k)
      && (o.events != [] ==> i + |o.events| <= |job.rows|)
      && (o.status == Completed && i <= |job.rows| ==> i + |o.events| == |job.rows|)
    decreases |job.rows| - i
  {
    if i < |job.rows| {
      var r := ProcessRow(job, i, s);
      RunFromRow(job, i, s);
      ProcessRowMeans(job, i, s);
      if r.next.Some? {
        VisitsRowsInOrder(job, i + 1, r.next.value);
        InOrderStep(RunFrom(job, i, s), r.event, RunFrom(job, i + 1, r.next.value), i, |job.rows|);
      }
    }
  }

  /** How a run ended agrees with its last event (see `EndsAsReported`). */
  ghost predicate EndsAsStatusSays(job: Setup, o: Outcome) {
    && (o.status == Completed || o.status == StoppedByQuota || o.status == PreviewLimit)
    && (o.status == StoppedByQuota <==> o.events != [] && o.events[|o.events| - 1].QuotaStopped?)
    && (o.status == PreviewLimit ==>
          && job.testMode && o.events != [] && o.events[|o.events| - 1].Previewed?
          && o.events[|o.events| - 1].row >= job.start + 2)
    && (forall k :: 0 <= k < |o.events| - 1 ==> !o.events[k].QuotaStopped?)
  }

  lemma EndsStep(job: Setup, o: Outcome, e: Event, rest: Outcome)
    requires Continues(o, e, rest) && !e.QuotaStopped? && EndsAsStatusSays(job, rest)
    ensures EndsAsStatusSays(job, o)
  {
    ContinuesIndex(o, e, rest);
    if rest.events != [] {
      assert o.events[|o.events| - 1] == rest.events[|rest.events| - 1];
    }
  }

  /**
    A run ends completed, at a quota error or at the preview limit, and its status says
    which: a quota stop exactly when the last event is a quota error, which is then the
    only one; a preview-limit stop only in test mode, at a preview from row `start + 2` on.
   */
  lemma {:induction false} EndsAsReported(job: Setup, i: nat, s: LedgerState)
    ensures EndsAsStatusSays(job, RunFrom(job, i, s))
    decreases |job.rows| - i
  {
    if i < |job.rows| {
      var r := ProcessRow(job, i, s);
      RunFromRow(job, i, s);
      ProcessRowMeans(job, i, s);
      if r.next.Some? {
        EndsAsReported(job, i + 1, r.next.value);
        EndsStep(job, RunFrom(job, i, s), r.event, RunFrom(job, i + 1, r.next.value));
      }
    }
  }

  // ----- Events and what the collaborators said -----

  /** Event `e` agrees with what its row's generator and Gmail came to. */
  ghost predicate MatchesRow(job: Setup, e: Event) {
    && e.row < |job.rows|
    && (e.ContentFailed? ==> job.rows[e.row].content.None?)
    && (e.Previewed? ==> job.testMode && job.rows[e.row].content == Some(e.content))
    && (e.Delivered? ==> !job.testMode && job.rows[e.row].content == Some(e.content) && job.rows[e.row].send == Sent)
    && (e.QuotaStopped? ==> !job.testMode && job.rows[e.row].content.Some? && job.rows[e.row].send == QuotaError)
    && (e.DeliveryFailed? ==> !job.testMode && job.rows[e.row].content.Some? && job.rows[e.row].send == Failed)
  }

  ghost predicate AllMatchRows(job: Setup, evs: seq<Event>) {
    forall k :: 0 <= k < |evs| ==> MatchesRow(job, evs[k])
  }

  lemma MatchStep(job: Setup, o: Outcome, e: Event, rest: Outcome)
    requires Continues(o, e, rest) && MatchesRow(job, e) && AllMatchRows(job, rest.events)
    ensures AllMatchRows(job, o.events)
  {
    ContinuesIndex(o, e, rest);
  }

  /**
    Every event reports what the collaborators said for its row: a delivery only of a
    generated message that Gmail accepted, a quota stop only at a 403 or 429, a failed
    send only at another HTTP error, a content failure only when no message was made,
    and a preview of exactly the generated message.
   */
  lemma {:induction false} EventsMatchRows(job: Setup, i: nat, s: LedgerState)
    ensures AllMatchRows(job, RunFrom(job, i, s).events)
    decreases |job.rows| - i
  {
    if i < |job.rows| {
      var r := ProcessRow(job, i, s);
      RunFromRow(job, i, s);
      ProcessRowMeans(job, i, s);
      assert MatchesRow(job, r.event);
      if r.next.Some? {
        EventsMatchRows(job, i + 1, r.next.value);
        MatchStep(job, RunFrom(job, i, s), r.event, RunFrom(job, i + 1, r.next.value));
      }
    }
  }

  // ----- Skipping -----

  /** Row `k` of `evs` is skipped exactly when its address is blocked, recorded in `sent`, or delivered to before it. */
  ghost predicate SkipsAgainst(job: Setup, evs: seq<Event>, sent: seq<string>) {
    forall k :: 0 <= k < |evs| ==>
      (evs[k].Skipped? <==>
        || BlockedOf(job, evs[k])
        || WasSent(sent, EmailOf(job, evs[k]))
        || DeliveredBefore(job, evs, k, EmailOf(job, evs[k])))
  }

  lemma SkipsStep(job: Setup, o: Outcome, e: Event, rest: Outcome, sent: seq<string>, sent': seq<string>)
    requires Continues(o, e, rest)
    requires e.Skipped? <==> BlockedOf(job, e) || WasSent(sent, EmailOf(job, e))
    requires forall x :: WasSent(sent', x) <==> WasSent(sent, x) || (e.Delivered? && Lower(x) == Lower(EmailOf(job, e)))
    requires SkipsAgainst(job, rest.events, sent')
    ensures SkipsAgainst(job, o.events, sent)
  {
    ContinuesIndex(o, e, rest);
    assert !DeliveredBefore(job, o.events, 0, EmailOf(job, e));
    forall k | 1 <= k < |o.events|
      ensures o.events[k].Skipped? <==>
        || BlockedOf(job, o.events[k])
        || WasSent(sent, EmailOf(job, o.events[k]))
        || DeliveredBefore(job, o.events, k, EmailOf(job, o.events[k]))
    {
      assert o.events[k] == rest.events[k - 1];
      DeliveredBeforeShift(job, e, rest.events, k - 1, EmailOf(job, o.events[k]));
    }
  }

  /**
    A row is skipped exactly when its address is blocked, was already recorded when the
    run began, or was delivered to earlier in the same run (compared up to case).
   */
  lemma {:induction false} SkipsExactlyBlockedOrContacted(job: Setup, i: nat, s: LedgerState)
    ensures SkipsAgainst(job, RunFrom(job, i, s).events, s.sentEmails)
    decreases |job.rows| - i
  {
    var o := RunFrom(job, i, s);
    if i < |job.rows| {
      var r := ProcessRow(job, i, s);
      RunFromRow(job, i, s);
      ProcessRowMeans(job, i, s);
      var email := job.rows[i].email;
      assert EmailOf(job, r.event) == email;
      if r.next.Some? {
        var ns := r.next.value;
        SkipsExactlyBlockedOrContacted(job, i + 1, ns);
        forall x ensures WasSent(ns.sentEmails, x) <==> WasSent(s.sentEmails, x) || (r.event.Delivered? && Lower(x) == Lower(email)) {
          if r.event.Delivered? {
            MarkRecords(s, i, email, job.rows[i].now, x);
          }
        }
        SkipsStep(job, o, r.event, RunFrom(job, i + 1, ns), s.sentEmails, ns.sentEmails);
      } else {
        assert !DeliveredBefore(job, o.events, 0, email);
      }
    }
  }

  /** Event `k` of a run, when not a skip, is about an address neither blocked nor recorded at the start. */
  lemma ContactedIsFreshAt(job: Setup, i: nat, s: LedgerState, k: int)
    requires 0 <= k < |RunFrom(job, i, s).events| && Contacted(RunFrom(job, i, s).events[k])
    ensures var e := RunFrom(job, i, s).events[k];
      !BlockedOf(job, e) && !WasSent(s.sentEmails, EmailOf(job, e))
  {
    var o := RunFrom(job, i, s);
    SkipsExactlyBlockedOrContacted(job, i, s);
    assert o.events[k].Skipped? <==>
      || BlockedOf(job, o.events[k])
      || WasSent(s.sentEmails, EmailOf(job, o.events[k]))
      || DeliveredBefore(job, o.events, k, EmailOf(job, o.events[k]));
  }

  /**
    The generator and the Gmail API only ever see rows whose address is not blocked and
    was not recorded when the run began, and no address is contacted after a delivery
    to it in the same run: in particular no address is delivered to twice.
   */
  lemma OnlyFreshAddressesContacted(job: Setup, i: nat, s: LedgerState)
    ensures var o := RunFrom(job, i, s);
      && (forall k :: 0 <= k < |o.events| && Contacted(o.events[k]) ==>
            !BlockedOf(job, o.events[k]) && !WasSent(s.sentEmails, EmailOf(job, o.events[k])))
      && (forall k1, k2 :: (0 <= k1 < k2 < |o.events| && o.events[k1].Delivered? && Contacted(o.events[k2])) ==>
            Lower(EmailOf(job, o.events[k1])) != Lower(EmailOf(job, o.events[k2])))
  {
    var o := RunFrom(job, i, s);
    forall k | 0 <= k < |o.events| && Contacted(o.events[k])
      ensures !BlockedOf(job, o.events[k]) && !WasSent(s.sentEmails, EmailOf(job, o.events[k]))
    {
      ContactedIsFreshAt(job, i, s, k);
    }
    SkipsExactlyBlockedOrContacted(job, i, s);
    forall k1, k2 | 0 <= k1 < k2 < |o.events| && o.events[k1].Delivered? && Contacted(o.events[k2])
      ensures Lower(EmailOf(job, o.events[k1])) != Lower(EmailOf(job, o.events[k2]))
    {
      assert o.events[k2].Skipped? <==>
        || BlockedOf(job, o.events[k2])
        || WasSent(s.sentEmails, EmailOf(job, o.events[k2]))
        || DeliveredBefore(job, o.events, k2, EmailOf(job, o.events[k2]));
      DeliveredBeforeLater(job, o.events, k1, k2);
    }
  }

  // ----- The ledger after a run -----

  lemma SentListStep(job: Setup, o: Outcome, e: Event, rest: Outcome, s: LedgerState, ns: LedgerState)
    requires Continues(o, e, rest)
    requires e.Delivered? ==> ns.sentEmails == s.sentEmails + [Lower(EmailOf(job, e))]
    requires !e.Delivered? ==> ns == s
    requires rest.ledger.sentEmails == ns.sentEmails + DeliveredEmails(job, rest.events)
    requires NoDelivery(rest.events) ==> rest.ledger == ns
    ensures o.ledger.sentEmails == s.sentEmails + DeliveredEmails(job, o.events)
    ensures NoDelivery(o.events) ==> o.ledger == s
  {
    ContinuesIndex(o, e, rest);
    if e.Delivered? {
      var d := Lower(EmailOf(job, e));
      assert DeliveredEmails(job, o.events) == [d] + DeliveredEmails(job, rest.events);
      assert s.sentEmails + [d] + DeliveredEmails(job, rest.events)
          == s.sentEmails + ([d] + DeliveredEmails(job, rest.events));
    } else {
      assert DeliveredEmails(job, o.events) == DeliveredEmails(job, rest.events);
    }
  }

  /**
    The recorded addresses afterwards are those from before followed by the lower-cased
    address of each delivered row, in order; a run that delivers nothing leaves the
    ledger exactly as it was.
   */
  lemma {:induction false} SentListAfterRun(job: Setup, i: nat, s: LedgerState)
    ensures var o := RunFrom(job, i, s);
      && o.ledger.sentEmails == s.sentEmails + DeliveredEmails(job, o.events)
      && (NoDelivery(o.events) ==> o.ledger == s)
    decreases |job.rows| - i
  {
    if i < |job.rows| {
      var r := ProcessRow(job, i, s);
      RunFromRow(job, i, s);
      ProcessRowMeans(job, i, s);
      assert EmailOf(job, r.event) == job.rows[i].email;
      if r.next.Some? {
        SentListAfterRun(job, i + 1, r.next.value);
        SentListStep(job, RunFrom(job, i, s), r.event, RunFrom(job, i + 1, r.next.value), s, r.next.value);
      }
    }
  }

  lemma CursorStep(o: Outcome, e: Event, rest: Outcome, s: LedgerState, ns: LedgerState)
    requires Continues(o, e, rest)
    requires e.Delivered? ==> ns.lastIndexSent == e.row
    requires !e.Delivered? ==> ns == s
    requires NoDelivery(rest.events) ==> rest.ledger.lastIndexSent == ns.lastIndexSent
    requires forall k :: LastDelivery(rest.events, k) ==> rest.ledger.lastIndexSent == rest.events[k].row
    ensures NoDelivery(o.events) ==> o.ledger.lastIndexSent == s.lastIndexSent
    ensures forall k :: LastDelivery(o.events, k) ==> o.ledger.lastIndexSent == o.events[k].row
  {
    ContinuesIndex(o, e, rest);
    forall k | LastDelivery(o.events, k)
      ensures o.ledger.lastIndexSent == o.events[k].row
    {
      if k == 0 {
        assert NoDelivery(rest.events);
      } else {
        assert LastDelivery(rest.events, k - 1);
      }
    }
    if NoDelivery(o.events) {
      assert NoDelivery(rest.events);
    }
  }

  /** Afterwards the cursor is the row of the last delivery, or unchanged when nothing was delivered. */
  lemma {:induction false} CursorIsLastDelivery(job: Setup, i: nat, s: LedgerState)
    ensures var o := RunFrom(job, i, s);
      && (NoDelivery(o.events) ==> o.ledger.lastIndexSent == s.lastIndexSent)
      && (forall k :: LastDelivery(o.events, k) ==> o.ledger.lastIndexSent == o.events[k].row)
    decreases |job.rows| - i
  {
    if i < |job.rows| {
      var r := ProcessRow(job, i, s);
      RunFromRow(job, i, s);
      ProcessRowMeans(job, i, s);
      if r.next.Some? {
        CursorIsLastDelivery(job, i + 1, r.next.value);
        CursorStep(RunFrom(job, i, s), r.event, RunFrom(job, i + 1, r.next.value), s, r.next.value);
      }
    }
  }

  /** The address of a delivery at position `k` is recorded once the run is over. */
  lemma DeliveredIsRecordedAt(job: Setup, i: nat, s: LedgerState, k: int)
    requires 0 <= k < |RunFrom(job, i, s).events| && RunFrom(job, i, s).events[k].Delivered?
    ensures WasSent(RunFrom(job, i, s).ledger.sentEmails, EmailOf(job, RunFrom(job, i, s).events[k]))
  {
    var o := RunFrom(job, i, s);
    SentListAfterRun(job, i, s);
    var e := EmailOf(job, o.events[k]);
    DeliveredListed(job, o.events, k);
    var d := DeliveredEmails(job, o.events);
    var j :| 0 <= j < |d| && d[j] == Lower(e);
    LowerIdempotent(e);
    assert o.ledger.sentEmails[|s.sentEmails| + j] == Lower(e);
    WasSentMeans(o.ledger.sentEmails, e);
  }

  /** Every delivered address is recorded once the run is over: `was_sent` holds for it. */
  lemma DeliveredIsRecorded(job: Setup, i: nat, s: LedgerState)
    ensures var o := RunFrom(job, i, s);
      forall k :: 0 <= k < |o.events| && o.events[k].Delivered? ==>
        WasSent(o.ledger.sentEmails, EmailOf(job, o.events[k]))
  {
    var o := RunFrom(job, i, s);
    forall k | 0 <= k < |o.events| && o.events[k].Delivered?
      ensures WasSent(o.ledger.sentEmails, EmailOf(job, o.events[k]))
    {
      DeliveredIsRecordedAt(job, i, s, k);
    }
  }

  /**
    Started after its cursor, a run never moves the cursor back and never removes or
    reorders a recorded address.
   */
  lemma CursorNeverDecreases(job: Setup, i: nat, s: LedgerState)
    requires s.lastIndexSent < i
    ensures var o := RunFrom(job, i, s);
      && s.lastIndexSent <= o.ledger.lastIndexSent
      && |s.sentEmails| <= |o.ledger.sentEmails| && o.ledger.sentEmails[..|s.sentEmails|] == s.sentEmails
  {
    var o := RunFrom(job, i, s);
    CursorIsLastDelivery(job, i, s);
    if !NoDelivery(o.events) {
      var k :| 0 <= k < |o.events| && o.events[k].Delivered?;
      LastDeliveryExists(o.events, k);
      var j :| k <= j && LastDelivery(o.events, j);
      VisitsRowsInOrder(job, i, s);
      assert o.ledger.lastIndexSent == o.events[j].row == i + j;
    }
    SentListAfterRun(job, i, s);
    assert o.ledger.sentEmails[..|s.sentEmails|] == (s.sentEmails + DeliveredEmails(job, o.events))[..|s.sentEmails|];
  }

  /**
    A row that gets no message, or whose send fails, before a later row is delivered is
    passed over for good: the cursor ends past it, so the next run starts after it.
   */
  lemma FailedRowIsJumpedOver(job: Setup, i: nat, s: LedgerState, k1: int, k2: int)
    requires var o := RunFrom(job, i, s);
      && 0 <= k1 < k2 < |o.events|
      && (o.events[k1].ContentFailed? || o.events[k1].DeliveryFailed?)
      && o.events[k2].Delivered?
    ensures RunFrom(job, i, s).ledger.lastIndexSent > RunFrom(job, i, s).events[k1].row
  {
    var o := RunFrom(job, i, s);
    VisitsRowsInOrder(job, i, s);
    CursorIsLastDelivery(job, i, s);
    LastDeliveryExists(o.events, k2);
  }

  // ----- Quota errors -----

  /** A quota error in `o` is its last event, `o` says so, its address is not recorded and the cursor is before its row. */
  ghost predicate QuotaStopsLast(job: Setup, o: Outcome) {
    forall k :: 0 <= k < |o.events| && o.events[k].QuotaStopped? ==>
      && k == |o.events| - 1
      && o.status == StoppedByQuota
      && !WasSent(o.ledger.sentEmails, EmailOf(job, o.events[k]))
      && o.ledger.lastIndexSent < o.events[k].row
  }

  lemma QuotaStep(job: Setup, o: Outcome, e: Event, rest: Outcome)
    requires Continues(o, e, rest) && !e.QuotaStopped? && QuotaStopsLast(job, rest)
    ensures QuotaStopsLast(job, o)
  {
    ContinuesIndex(o, e, rest);
    forall k | 0 <= k < |o.events| && o.events[k].QuotaStopped?
      ensures k == |o.events| - 1 && o.status == StoppedByQuota
      ensures !WasSent(o.ledger.sentEmails, EmailOf(job, o.events[k]))
      ensures o.ledger.lastIndexSent < o.events[k].row
    {
      assert o.events[k] == rest.events[k - 1];
    }
  }

  /**
    A quota error ends the run at its row: it is the last event, its address is not
    recorded, and the cursor stays before its row, so the next run visits it again.
   */
  lemma {:induction false} QuotaStopLeavesRowForNextRun(job: Setup, i: nat, s: LedgerState)
    requires s.lastIndexSent < i
    ensures QuotaStopsLast(job, RunFrom(job, i, s))
    decreases |job.rows| - i
  {
    if i < |job.rows| {
      var r := ProcessRow(job, i, s);
      RunFromRow(job, i, s);
      ProcessRowMeans(job, i, s);
      assert EmailOf(job, r.event) == job.rows[i].email;
      if r.next.Some? {
        QuotaStopLeavesRowForNextRun(job, i + 1, r.next.value);
        QuotaStep(job, RunFrom(job, i, s), r.event, RunFrom(job, i + 1, r.next.value));
      }
    }
  }

  // ----- Test mode -----

  lemma TestModeStep(o: Outcome, e: Event, rest: Outcome, s: LedgerState, bound: nat)
    requires Continues(o, e, rest) && !Attempted(e)
    requires rest.ledger == s && rest.status != StoppedByQuota
    requires forall k :: 0 <= k < |rest.events| ==> !Attempted(rest.events[k])
    requires PreviewCount(rest.events) + (if e.Previewed? then 1 else 0) <= bound
    ensures o.ledger == s && o.status != StoppedByQuota
    ensures forall k :: 0 <= k < |o.events| ==> !Attempted(o.events[k])
    ensures PreviewCount(o.events) <= bound
  {
    ContinuesIndex(o, e, rest);
  }

  /**
    In test mode nothing is sent and nothing is recorded, and the run stops after the
    first preview at or beyond row `start + 2`, so it previews at most `start + 3 - i` rows.
   */
  lemma {:induction false} TestModeRecordsNothing(job: Setup, i: nat, s: LedgerState)
    requires job.testMode && job.start <= i
    ensures var o := RunFrom(job, i, s);
      && o.ledger == s
      && o.status != StoppedByQuota
      && (forall k :: 0 <= k < |o.events| ==> !Attempted(o.events[k]))
      && PreviewCount(o.events) <= (if i >= job.start + 2 then 1 else job.start + 3 - i)
    decreases |job.rows| - i
  {
    if i < |job.rows| {
      var r := ProcessRow(job, i, s);
      RunFromRow(job, i, s);
      ProcessRowMeans(job, i, s);
      if r.next.Some? {
        TestModeRecordsNothing(job, i + 1, s);
        TestModeStep(RunFrom(job, i, s), r.event, RunFrom(job, i + 1, s), s,
                     if i >= job.start + 2 then 1 else job.start + 3 - i);
      } else {
        assert [r.event][1..] == [];
      }
    }
  }

  // ----- Whole runs -----

  /**
    A call of `run_sending_process` resumes at the row after the ledger's cursor and
    moves forward from there; without authentication or recipients it does nothing; in
    test mode it previews at most three rows and leaves the ledger as it was.
   */
  lemma RunResumesAfterCursor(authenticated: bool, recipients: Option<seq<Recipient>>, blocked: BlockFile,
                              co: Collaborators, testMode: bool, s: LedgerState)
    requires s.lastIndexSent >= -1
    ensures var o := Run(authenticated, recipients, blocked, co, testMode, s);
      && (!authenticated ==> o == Outcome([], s, NotAuthenticated))
      && (authenticated && recipients.None? ==> o == Outcome([], s, RecipientsMissing))
      && (forall k :: 0 <= k < |o.events| ==> o.events[k].row == s.lastIndexSent + 1 + k)
      && s.lastIndexSent <= o.ledger.lastIndexSent
      && (testMode ==> o.ledger == s && PreviewCount(o.events) <= 3)
  {
    if authenticated && recipients.Some? {
      var start := s.lastIndexSent + 1;
      var job := Setup(ScreenAll(recipients.value, blocked, co), testMode, start);
      var o := RunFrom(job, start, s);
      assert Run(authenticated, recipients, blocked, co, testMode, s) == o;
      VisitsRowsInOrder(job, start, s);
      CursorNeverDecreases(job, start, s);
      if testMode {
        TestModeRecordsNothing(job, start, s);
      }
    }
  }

  /**
    A second run on the ledger the first one left never contacts an address the first
    one delivered to (up to case), whatever rows, blocklist and collaborators it is
    given: the recipient list may be regenerated or reordered in between.
   */
  lemma RerunDeliversNothingTwice(job1: Setup, i1: nat, s: LedgerState, job2: Setup, i2: nat)
    ensures var o1 := RunFrom(job1, i1, s);
      var o2 := RunFrom(job2, i2, o1.ledger);
      forall k1, k2 :: (0 <= k1 < |o1.events| && 0 <= k2 < |o2.events|
        && o1.events[k1].Delivered? && Contacted(o2.events[k2])) ==>
        Lower(EmailOf(job1, o1.events[k1])) != Lower(EmailOf(job2, o2.events[k2]))
  {
    var o1 := RunFrom(job1, i1, s);
    var o2 := RunFrom(job2, i2, o1.ledger);
    forall k1, k2 | 0 <= k1 < |o1.events| && 0 <= k2 < |o2.events|
        && o1.events[k1].Delivered? && Contacted(o2.events[k2])
      ensures Lower(EmailOf(job1, o1.events[k1])) != Lower(EmailOf(job2, o2.events[k2]))
    {
      var e1 := EmailOf(job1, o1.events[k1]);
      var e2 := EmailOf(job2, o2.events[k2]);
      DeliveredIsRecordedAt(job1, i1, s, k1);
      ContactedIsFreshAt(job2, i2, o1.ledger, k2);
      assert WasSent(o1.ledger.sentEmails, e1) && !WasSent(o1.ledger.sentEmails, e2);
      WasSentMeans(o1.ledger.sentEmails, e1);
      WasSentMeans(o1.ledger.sentEmails, e2);
    }
  }
}
