# Resumable sending engine of `main.py`, in Dafny

This project models the part of the job-application mailer in `main.py` that decides
whom to write to and remembers whom it has written to. It has three parts and two
small helpers:

- **Blocklist** (`BlockedDomainsManager`), in `blocklist.dfy`. It holds a list of
  blocked domains and a list of blocked addresses. Entries are added in normal form:
  trimmed, lower-cased, not blank, no repeats. `IsBlocked` tests the normalised
  address itself, then the text after its last `@`.
- **Progress ledger** (`SendingStateManager`), in `ledger.dfy`. It holds the cursor
  `last_index_sent` (-1 at first), the lower-cased addresses delivered to, and the time
  of the last save. Its file name is derived from the sender's address by
  `IdentityKey`.
- **Sending loop** (`run_sending_process`), in `engine.dfy`. It starts one row after
  the cursor. A row whose address is blocked or already recorded is skipped. A row
  with no usable generated message is skipped. In test mode a row is previewed and
  never sent. Otherwise the row is sent: a delivery is recorded, a quota error stops
  the run, and any other failure moves on to the next row.
- **Helpers**: the HTTP status classification of `send_email` (`delivery.dfy`) and
  the greedy `\{.*\}` span extraction applied to the language model's replies
  (`json_span.dfy`). `text.dfy` holds the string operations Python provides:
  `strip`, `lower` and `replace`.

`BlockedDomainsManager` and `SendingStateManager` update their state in place. They
are the classes `Blocklist.Blocklist` and `Ledger.SendingState`. Their methods are
proved to leave exactly the state that a pure function (`Absorb`, `Mark`) gives.

The sending loop is the method `Engine.RunSendingProcess`. It is proved to produce
exactly what the recursive specification `Engine.RunFrom` produces: the same events,
the same final status and the same ledger. The guarantees of a run are lemmas about
`RunFrom`, in `run_properties.dfy`.

The engine cannot see four things. It receives them as functions of the row index,
bundled in `Collaborators`:

- the language model's reply;
- what `json.loads` makes of a span;
- Gmail's answer to a send;
- the clock when the ledger is saved.

None of these depends on the ledger. So the blocklist verdict, the generated message,
the send outcome and the timestamp of each row are computed once for the run, as a
`Screened` row. The loop consults the blocklist and the collaborators in the same
order as the source, and `HandleRow` is proved to agree with the screened row.

A reader might expect a few behaviours that the code does not have. The model
follows the code:

- One might expect a blocked domain to block its subdomains too. It does not: a
  domain matches only exactly, never as a suffix (`DomainMatchIsExact`).
- One might expect a row whose message or send failed to be retried by the next run.
  It is not, once a later row is delivered, because the cursor moves to the later row
  (`FailedRowIsJumpedOver`).
- `was_sent` lower-cases the address but does not trim it, whereas `is_blocked` does
  both.
- The ledger file name can be shared by two senders (`DotAndUnderscoreCollide`).
- The test-mode limit compares the row index with `start_index + 2`. It does not
  count previews. So a run previews at most three rows, and fewer when row
  `start_index` or `start_index + 1` is skipped or gets no message
  (`TestModeRecordsNothing`).

## Model

| member | source | states |
|---|---|---|
| Text.Strip | main.py:86 | `strip()`: the middle of the string once whitespace is cut from both ends; `StripCutsSpaces` and `StripTrimmed` state what it yields |
| Text.Lower | main.py:131 | `lower()` on the ASCII letters: the same length, each letter `A`–`Z` replaced by its lower-case form and every other character kept; `LowerIdempotent` states it is idempotent |
| Text.Normalize | main.py:99 | `strip().lower()`, the normal form used by `add_domains`, `add_emails` and `is_blocked`; `NormalizeIsNormal` and `NormalizeIdempotent` state what it yields |
| Text.StripCutsSpaces | main.py:86 | `strip()` removes only whitespace from either end, and removes all of it: the result is a slice of the input, with whitespace before and after it, and starts and ends with a non-space |
| Text.StripTrimmed | main.py:86 | stripping a string with no whitespace at either end leaves it unchanged |
| Text.NormalizeIsNormal | main.py:98-99 | the normal form `strip().lower()` has no whitespace at either end and no upper-case letter, and is no longer than its input |
| Text.NormalizeIdempotent | main.py:84-99 | normalising twice is the same as normalising once, so an entry added in normal form is found again by the same normalisation |
| Text.LowerIdempotent | main.py:129-136 | lower-casing twice is the same as lower-casing once |
| Text.Replace | main.py:110-111 | replacing `c` by text without `c` leaves no `c`; every other character that is not in the replacement occurs in the result exactly when it occurs in the input; a string without `c` is returned unchanged |
| Text.ReplaceOfChar | main.py:110 | a single character is replaced by `r` when it is `c` and kept otherwise |
| Text.ReplaceConcat | main.py:110-111 | replacement works character by character: replacing in `a + b` gives the two replaced halves, concatenated |
| Blocklist.DomainOf | main.py:102 | `email.split('@')[-1] if '@' in email else ''`; `DomainOfMeans` and `DomainOfJoin` state what it yields |
| Blocklist.IsBlocked | main.py:98-103 | `is_blocked`; `IsBlockedMeans` states exactly when it holds |
| Blocklist.AbsorbOne | main.py:85-88 | one pass of the loop in `add_domains` and `add_emails`; `AbsorbOneMembers` states what it lists |
| Blocklist.Absorb | main.py:84-96 | the list after the loop has gone through all entries; `AbsorbKeepsOrder`, `AbsorbMembers`, `AbsorbKeepsNoDup` and `AbsorbAddsNormalForms` state what it keeps and adds |
| Blocklist.DomainOfMeans | main.py:102 | the domain holds no `@`; it is the text after the last `@`, and it is empty when the address has no `@` |
| Blocklist.DomainOfJoin | main.py:102 | the domain of `local@domain` is `domain` whenever `domain` has no `@`, whatever `local` holds |
| Blocklist.IsBlockedMeans | main.py:98-103 | an address is blocked exactly when its normal form is a listed address, or the text after the last `@` of its normal form is a listed domain, or it has no `@` and the empty domain is listed |
| Blocklist.DomainMatchIsExact | main.py:98-103 | an unlisted address `local@domain` is blocked exactly when `domain` itself is listed; a listed parent domain does not block a subdomain |
| Blocklist.Blocklist.constructor | main.py:70-78 | the manager starts from the stored lists, or from two empty lists when there is no file |
| Blocklist.Blocklist.AddDomains | main.py:84-89 | the domain list becomes `Absorb(old list, domains)`, built by the loop; the address list is untouched |
| Blocklist.Blocklist.AddEmails | main.py:91-96 | the address list becomes `Absorb(old list, emails)`, built by the loop; the domain list is untouched |
| Blocklist.AbsorbKeepsOrder | main.py:84-96 | adding keeps every existing entry in its place and appends at most one entry per input |
| Blocklist.AbsorbOneMembers | main.py:85-89 | one pass of the loop lists exactly the old entries and, unless blank, the normal form of the new one |
| Blocklist.AbsorbMembers | main.py:84-96 | afterwards a string is listed exactly when it was listed before, or it is non-blank and is the normal form of some input |
| Blocklist.AbsorbKeepsNoDup | main.py:84-96 | a list without repeats stays without repeats |
| Blocklist.AbsorbAddsNormalForms | main.py:84-96 | every appended entry is non-blank and already in normal form |
| Blocklist.AddedEmailIsBlocked | main.py:91-103 | once an address is added, every address with the same normal form is blocked |
| Blocklist.AddedDomainBlocksItsAddresses | main.py:84-103 | once a domain is added, every address whose normal form is `local@` followed by that domain is blocked |
| Blocklist.AddingNeverBlocksTheEmptyDomain | main.py:84-103 | blank domains are never added, so an address without `@` stays blocked only if it is a listed address |
| Ledger.IdentityKey | main.py:110 | the key holds no `@` and no `.`; a sender address without either character is its own key |
| Ledger.IdentityKeyOfChar | main.py:110 | the key spells `@` as `_at_` and `.` as `_` and keeps every other character; with `IdentityKeyConcat` this fixes the key of every address |
| Ledger.IdentityKeyConcat | main.py:110 | the key of a concatenation is the concatenation of the keys |
| Ledger.IdentityKeyLength | main.py:110 | the key is three characters longer than the address for each `@` in it |
| Ledger.DotAndUnderscoreCollide | main.py:110 | two different addresses, differing only by `.` versus `_`, get the same key and so share a ledger file |
| Ledger.SendingState.constructor | main.py:109-122 | the key is `IdentityKey(sender)`, the path is `state_<key>.json`, and the state is the stored one, or cursor -1 with no addresses and no date |
| Ledger.WasSent | main.py:135-136 | `was_sent`; `WasSentMeans` states exactly when it holds |
| Ledger.Mark | main.py:129-133 | `mark_sent` followed by `save`; `MarkFacts`, `MarkRecords` and `MarkKeepsDistinct` state the new state |
| Ledger.WasSentMeans | main.py:135-136 | `was_sent` holds exactly when some recorded address equals the given one up to case |
| Ledger.WasSentAppend | main.py:131-136 | appending an address makes `was_sent` hold for it and its case variants, and for nothing else new |
| Ledger.MarkFacts | main.py:129-133 | recording sets the cursor to the index whatever it was, stamps the date, keeps every recorded address in place, leaves the list as it was when the address is already recorded up to case, and otherwise appends the lower-cased address at the end |
| Ledger.MarkRecords | main.py:129-136 | after recording, `was_sent` holds for exactly the addresses it held for before, plus every case variant of the recorded address |
| Ledger.MarkKeepsDistinct | main.py:129-133 | recorded addresses that are pairwise different up to case stay so |
| Ledger.SendingState.MarkSent | main.py:129-133 | the in-place update leaves exactly `Mark(old state, index, email, now)` |
| JsonSpan.ExtractJsonSpan | main.py:319 | the search for `\{.*\}` with DOTALL (the same as on line 265), from the first `{` to the last `}`; `ExtractJsonSpanIsLeftmostLongest` states that it agrees with the pattern |
| JsonSpan.ExtractJsonSpanIsLeftmostLongest | main.py:319 | the extraction (the same pattern as on line 265) finds nothing exactly when no `{`…`}` span exists; otherwise it yields the leftmost match, the longest one at that start |
| JsonSpan.FencedReplyYieldsObject | main.py:319-321 | a reply that wraps an object in text holding no other brace yields exactly that object |
| JsonSpan.TwoObjectsMerge | main.py:319-321 | two objects in one reply come back as a single span that runs from the first `{` to the last `}` |
| Delivery.Classify | main.py:347-355 | a send that goes through is `Sent`; an HTTP error with status 403 or 429 is a quota error; every other HTTP error is a plain failure |
| Engine.GenerateContent | main.py:316-324 | what `generate_email_content` returns after the query; `GenerateContentNeedsSpan` states when it yields a message |
| Engine.GenerateContentNeedsSpan | main.py:316-324 | a message comes only from a reply that holds a brace span which parses; a reply with no span yields no message; a reply with a span yields what `parse` makes of the extracted span |
| Engine.GenerateContentParsesLeftmostLongest | main.py:317-322 | the message made from a reply is exactly `parse` of its leftmost `{`…`}` span, the longest one at that start |
| Engine.ProcessRowMeans | main.py:377-408 | a row is skipped exactly when its address is blocked or recorded; a delivery happens only outside test mode, for an address not recorded, and records it; a preview happens exactly in test mode when a message was made; the run stops exactly at a quota error, or at a preview from row `start + 2` on; otherwise the ledger is unchanged; a row that is not skipped fails for content exactly when the generator made no message; a preview or delivery carries the generated message; outside test mode, with a message, the row is delivered exactly when Gmail accepted it, stops the run exactly at a quota error, and fails exactly at any other HTTP error |
| Engine.ProcessRow | main.py:376-408 | one pass of the loop body on a row and a ledger state; `ProcessRowMeans` states what it decides |
| Engine.RunFrom | main.py:375-408 | the loop from row `i` with ledger state `s`: the events, the final ledger and the status; `SendRows` is proved to compute it and the lemmas below state what it guarantees |
| Engine.Run | main.py:357-375 | a whole call: the early returns without authentication or recipients, then `RunFrom` from the row after the cursor; `RunResumesAfterCursor` states what it guarantees |
| Engine.HandleRow | main.py:376-408 | one pass of the loop body yields the event, the stop decision and the ledger state of `ProcessRow`, calling the blocklist, the generator and the transport in the source's order |
| Engine.SendRows | main.py:372-410 | the loop from the row after the cursor yields exactly the events, the status and the ledger of `RunFrom` |
| Engine.RunSendingProcess | main.py:357-410 | a call reports `NotAuthenticated` or `RecipientsMissing` without touching anything, or runs the loop; its events, status and new ledger are those of `Run` |
| RunProperties.VisitsRowsInOrder | main.py:375 | rows `i`, `i + 1`, … get one event each, in order, within the table; a completed run visits every remaining row |
| RunProperties.EndsAsReported | main.py:390-406 | the run ends completed, at a quota error (exactly when the last event is one, and no earlier event is) or at the preview limit (only in test mode, at a preview of a row from `start + 2` on) |
| RunProperties.EventsMatchRows | main.py:385-408 | every event reports what the collaborators said for its row: a delivery only of a generated message Gmail accepted, a quota stop only at a 403 or 429, a failed send only at another HTTP error, a content failure only when no message was made, and a preview of exactly the generated message, in test mode only |
| RunProperties.SkipsExactlyBlockedOrContacted | main.py:379-381 | a row is skipped exactly when its address is blocked, was recorded when the run began, or was delivered to earlier in the same run, up to case |
| RunProperties.ContactedIsFreshAt | main.py:379-381 | each event that is not a skip is about an address that is not blocked and was not recorded when the run began |
| RunProperties.OnlyFreshAddressesContacted | main.py:379-403 | the generator and the transport only see addresses that are not blocked and were not recorded at the start, and never an address delivered to earlier in the run |
| RunProperties.SentListAfterRun | main.py:401-403 | the recorded addresses afterwards are the old ones followed by the lower-cased address of each delivery, in order; a run without deliveries leaves the ledger as it was |
| RunProperties.CursorIsLastDelivery | main.py:401-403 | afterwards the cursor is the row of the last delivery, or unchanged when nothing was delivered |
| RunProperties.DeliveredIsRecordedAt | main.py:401-403 | the address of each delivery satisfies `was_sent` once the run is over |
| RunProperties.DeliveredIsRecorded | main.py:401-403 | every delivered address satisfies `was_sent` once the run is over |
| RunProperties.CursorNeverDecreases | main.py:372-403 | started after its cursor, a run never moves the cursor back and never drops or reorders a recorded address |
| RunProperties.FailedRowIsJumpedOver | main.py:385-408 | a row with no message or a failed send, followed later by a delivery, ends up behind the cursor, so no later run retries it |
| RunProperties.QuotaStopLeavesRowForNextRun | main.py:404-406 | a quota error is the last event; its row is not recorded and stays after the cursor, so the next run starts at or before it |
| RunProperties.TestModeRecordsNothing | main.py:390-397 | in test mode nothing is sent or recorded, the ledger is unchanged and the run never stops for quota; a run from row `i` previews at most `start + 3 - i` rows when `i < start + 2`, and at most one row when `i >= start + 2` |
| RunProperties.RunResumesAfterCursor | main.py:357-375 | a call does nothing without authentication or recipients; otherwise event `k` is about row `cursor + 1 + k`, the cursor does not move back, and test mode previews at most three rows and leaves the ledger as it was |
| RunProperties.RerunDeliversNothingTwice | main.py:375-403 | a second run on the ledger the first one left never contacts an address the first delivered to, up to case, whatever its rows, blocklist and collaborators |

## Left out

- Gmail OAuth, the token file and building the service are not modelled; only whether the service exists (`authenticated`) is kept.
- MIME assembly, the résumé attachment and base64 encoding in `send_email` are not modelled; only the classification of Gmail's answer is.
- The Perplexity HTTP client is left out. Its reply to each row's prompt is the `reply` collaborator, and `json.loads` with the truthiness test is `parse`.
- Job scraping and `scrape_and_find_contacts` are left out, apart from the span extraction it shares with the generator.
- `analyze_resume` is left out: the résumé summary only shapes the prompt, which the `reply` collaborator already covers.
- Reading `recipients.csv` and loading or saving the JSON files are left out. The recipient table is a sequence of records, and the stored files are the `Option` values the constructors receive. A save is the in-memory update; whether the write happens atomically is not modelled.
- `datetime.now()` in `save` is the `clock` collaborator; `time.sleep(2)` and every `print` are left out.
- Text.Lower: Python's `lower()` also lower-cases non-ASCII letters; the model lower-cases only `A`–`Z`.
- Exceptions other than `HttpError` out of the Gmail call, a row without a `subject` or `body` key, and a missing or non-text `email` cell are not modelled: in the source they escape the loop.
- Engine.RunSendingProcess, Engine.Run and RunProperties.RunResumesAfterCursor: require a cursor of at least -1. Only a hand-edited ledger file can hold a smaller one, and then the source's `range` would start below row 0.
- The command-line menu in `main()` is left out.
