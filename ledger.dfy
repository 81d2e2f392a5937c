/**
  The progress ledger of `main.py` (`SendingStateManager`): per sending account, the
  index of the last row delivered (`last_index_sent`, -1 at first), the addresses
  delivered to (`sent_emails`, compared case-insensitively) and the time of the last
  save. The file name is derived from the sender's address.
 */
module Ledger {
  import opened Options
  import opened Text

  /** The content of `state_<key>.json`. */
  datatype LedgerState = LedgerState(lastIndexSent: int, sentEmails: seq<string>, lastRunDate: Option<string>)

  /** What `load` yields when the account has no file yet. */
  const Initial := LedgerState(-1, [], None)

  // ----- The file of an account -----

  /** The account's key: every `@` becomes `_at_`, then every `.` becomes `_`. */
  function IdentityKey(sender: string): (key: string)
    ensures '@' !in key && '.' !in key
    ensures '@' !in sender && '.' !in sender ==> key == sender
  {
    Replace(Replace(sender, '@', "_at_"), '.', "_")
  }

  /** The key is built character by character: the key of a concatenation is the concatenation of the keys. */
  lemma IdentityKeyConcat(a: string, b: string)
    ensures IdentityKey(a + b) == IdentityKey(a) + IdentityKey(b)
  {
    ReplaceConcat(a, b, '@', "_at_");
    ReplaceConcat(Replace(a, '@', "_at_"), Replace(b, '@', "_at_"), '.', "_");
  }

  /** Each `@` costs three more characters; nothing else changes length. */
  lemma {:induction false} IdentityKeyLength(sender: string)
    ensures |IdentityKey(sender)| == |sender| + 3 * Count(sender, '@')
  {
    if sender != [] {
      var tail := sender[1..];
      IdentityKeyLength(tail);
      IdentityKeyConcat([sender[0]], tail);
      assert [sender[0]] + tail == sender;
    }
  }

  /**
    Character by character, the key spells `@` as `_at_` and `.` as `_` and keeps every
    other character; with `IdentityKeyConcat` this fixes the key of every address.
   */
  lemma IdentityKeyOfChar(ch: char)
    ensures IdentityKey([ch]) == if ch == '@' then "_at_" else if ch == '.' then "_" else [ch]
  {
    ReplaceOfChar(ch, '@', "_at_");
    if ch == '@' {
      ReplaceOfChar('_', '.', "_");
      assert "_at_" == ['_'] + "at_";
      ReplaceConcat(['_'], "at_", '.', "_");
    } else {
      ReplaceOfChar(ch, '.', "_");
    }
  }

  /**
    Two different senders can share one ledger file: the key does not tell `.` from
    `_`, so `a.b@mail.com` and `a_b@mail.com` get the same key.
   */
  lemma DotAndUnderscoreCollide(a: string, b: string)
    ensures a + "." + b != a + "_" + b
    ensures IdentityKey(a + "." + b) == IdentityKey(a + "_" + b)
  {
    assert (a + "." + b)[|a|] == '.';
    IdentityKeyConcat(a + ".", b);
    IdentityKeyConcat(a, ".");
    IdentityKeyConcat(a + "_", b);
    IdentityKeyConcat(a, "_");
  }

  // ----- Membership -----

  /** `was_sent`: some recorded address equals `email` once both are lower-cased (neither is trimmed). */
  function WasSent(sent: seq<string>, email: string): bool {
    sent != [] && (Lower(sent[0]) == Lower(email) || WasSent(sent[1..], email))
  }

  /** `was_sent` holds exactly when some recorded address matches up to case. */
  lemma {:induction false} WasSentMeans(sent: seq<string>, email: string)
    ensures WasSent(sent, email) <==> exists k :: 0 <= k < |sent| && Lower(sent[k]) == Lower(email)
  {
    if sent != [] {
      WasSentMeans(sent[1..], email);
      if exists k :: 0 <= k < |sent| && Lower(sent[k]) == Lower(email) {
        var k :| 0 <= k < |sent| && Lower(sent[k]) == Lower(email);
        if k > 0 {
          assert sent[1..][k - 1] == sent[k];
        }
      }
      if WasSent(sent[1..], email) {
        var k :| 0 <= k < |sent[1..]| && Lower(sent[1..][k]) == Lower(email);
        assert sent[k + 1] == sent[1..][k];
      }
    }
  }

  /** Appending an address makes `was_sent` hold for it, and for nothing else new. */
  lemma WasSentAppend(sent: seq<string>, x: string, email: string)
    ensures WasSent(sent + [x], email) <==> WasSent(sent, email) || Lower(x) == Lower(email)
  {
    WasSentMeans(sent, email);
    WasSentMeans(sent + [x], email);
    if WasSent(sent, email) {
      var k :| 0 <= k < |sent| && Lower(sent[k]) == Lower(email);
      assert (sent + [x])[k] == sent[k];
    }
    if Lower(x) == Lower(email) {
      assert (sent + [x])[|sent|] == x;
    }
    if WasSent(sent + [x], email) {
      var k :| 0 <= k < |sent + [x]| && Lower((sent + [x])[k]) == Lower(email);
      if k < |sent| {
        assert (sent + [x])[k] == sent[k];
      }
    }
  }

  /** No two recorded addresses are equal once lower-cased. */
  ghost predicate DistinctLower(sent: seq<string>) {
    forall a, b :: 0 <= a < b < |sent| ==> Lower(sent[a]) != Lower(sent[b])
  }

  // ----- Recording a delivery -----

  /**
    `mark_sent(index, email)` followed by `save()` stamped `now`: the cursor becomes
    `index` whatever it was, and `email.lower()` is appended unless an address equal
    to it up to case is already recorded.
   */
  function Mark(s: LedgerState, index: int, email: string, now: string): LedgerState {
    var sent := if WasSent(s.sentEmails, email) then s.sentEmails else s.sentEmails + [Lower(email)];
    LedgerState(index, sent, Some(now))
  }

  /**
    Recording moves the cursor to `index` and stamps `now`; the recorded addresses keep
    their order, and at most one is added at the end: `email` in lower case.
   */
  lemma MarkFacts(s: LedgerState, index: int, email: string, now: string)
    ensures var t := Mark(s, index, email, now);
      && t.lastIndexSent == index && t.lastRunDate == Some(now)
      && |s.sentEmails| <= |t.sentEmails| <= |s.sentEmails| + 1
      && t.sentEmails[..|s.sentEmails|] == s.sentEmails
      && (|t.sentEmails| > |s.sentEmails| ==> t.sentEmails[|s.sentEmails|] == Lower(email))
      && (WasSent(s.sentEmails, email) ==> t.sentEmails == s.sentEmails)
      && (!WasSent(s.sentEmails, email) ==> t.sentEmails == s.sentEmails + [Lower(email)])
  {
  }

  /**
    After recording, `was_sent` holds for `email` and for every address it held for
    before, and for nothing else.
   */
  lemma MarkRecords(s: LedgerState, index: int, email: string, now: string, e: string)
    ensures WasSent(Mark(s, index, email, now).sentEmails, e) <==> WasSent(s.sentEmails, e) || Lower(e) == Lower(email)
  {
    LowerIdempotent(email);
    if !WasSent(s.sentEmails, email) {
      WasSentAppend(s.sentEmails, Lower(email), e);
    } else if Lower(e) == Lower(email) {
      WasSentMeans(s.sentEmails, email);
      WasSentMeans(s.sentEmails, e);
    }
  }

  /** Recording keeps the recorded addresses pairwise different up to case. */
  lemma MarkKeepsDistinct(s: LedgerState, index: int, email: string, now: string)
    requires DistinctLower(s.sentEmails)
    ensures DistinctLower(Mark(s, index, email, now).sentEmails)
  {
    var t := Mark(s, index, email, now);
    if |t.sentEmails| > |s.sentEmails| {
      LowerIdempotent(email);
      WasSentMeans(s.sentEmails, email);
      forall a | 0 <= a < |s.sentEmails|
        ensures Lower(t.sentEmails[a]) != Lower(t.sentEmails[|s.sentEmails|])
      {
        assert t.sentEmails[a] == s.sentEmails[a];
      }
    }
  }

  /** The in-memory `SendingStateManager`; `state` is its `self.state`. */
  class SendingState {
    const key: string
    const path: string
    var state: LedgerState

    /** `__init__`/`load`: the account's key and file name, and the stored state or the initial one. */
    constructor (senderEmail: string, stored: Option<LedgerState>)
      ensures key == IdentityKey(senderEmail)
      ensures path == "state_" + key + ".json"
      ensures state == if stored.Some? then stored.value else Initial
    {
      key := IdentityKey(senderEmail);
      path := "state_" + IdentityKey(senderEmail) + ".json";
      state := if stored.Some? then stored.value else Initial;
    }

    /** `mark_sent`, with the timestamp `save` writes passed in as `now`. */
    method MarkSent(index: int, email: string, now: string)
      modifies this
      ensures state == Mark(old(state), index, email, now)
    {
      state := state.(lastIndexSent := index);
      if !WasSent(state.sentEmails, email) {
        state := state.(sentEmails := state.sentEmails + [Lower(email)]);
      }
      state := state.(lastRunDate := Some(now));
    }
  }
}
