/**
  The blocklist of `main.py` (`BlockedDomainsManager`): two lists, one of blocked
  domains and one of blocked addresses, kept in normal form (trimmed, lower-case)
  and free of repeats by the two adding operations, and the filter `IsBlocked`
  that the sending loop consults for every recipient.
 */
module Blocklist {
  import opened Options
  import opened Text

  /** The content of `blocked_domains.json`: `blocked_domains` and `blocked_emails`. */
  datatype BlockFile = BlockFile(blockedDomains: seq<string>, blockedEmails: seq<string>)

  /** What `load` yields when there is no file. */
  const Empty := BlockFile([], [])

  ghost predicate NoDup(s: seq<string>) {
    forall a, b :: 0 <= a < b < |s| ==> s[a] != s[b]
  }

  // ----- Domain of an address -----

  /** `e[k]` is the last `@` of `e`. */
  ghost predicate LastAt(e: string, k: int) {
    0 <= k < |e| && e[k] == '@' && '@' !in e[k + 1..]
  }

  lemma LastAtUnique(e: string, j: int, k: int)
    requires LastAt(e, j) && LastAt(e, k)
    ensures j == k
  {
  }

  function LastAtIndex(e: string): (k: nat)
    requires '@' in e
    ensures LastAt(e, k)
  {
    var n := |e| - 1;
    if e[n] == '@' then n
    else
      assert '@' in e[..n] by {
        var j :| 0 <= j < |e| && e[j] == '@';
        assert e[..n][j] == '@';
      }
      var k := LastAtIndex(e[..n]);
      assert e[k + 1..] == e[..n][k + 1..] + [e[n]];
      k
  }

  /** `e.split('@')[-1] if '@' in e else ''`: the text after the last `@`, empty without one. */
  function DomainOf(e: string): string {
    if '@' in e then e[LastAtIndex(e) + 1..] else ""
  }

  /** The domain holds no `@`: it is what follows the last `@`, and empty when there is none. */
  lemma DomainOfMeans(e: string)
    ensures '@' !in DomainOf(e)
    ensures '@' !in e ==> DomainOf(e) == ""
    ensures forall k :: LastAt(e, k) ==> DomainOf(e) == e[k + 1..]
  {
    forall k | LastAt(e, k) ensures DomainOf(e) == e[k + 1..] {
      LastAtUnique(e, k, LastAtIndex(e));
    }
  }

  lemma DomainOfJoin(local: string, domain: string)
    requires '@' !in domain
    ensures DomainOf(local + "@" + domain) == domain
  {
    var e := local + "@" + domain;
    assert e[|local|] == '@';
    assert e[|local| + 1..] == domain;
    assert LastAt(e, |local|);
    DomainOfMeans(e);
  }

  // ----- The filter -----

  /**
    `is_blocked`: the normalised address is listed itself, or the text after its last
    `@` is a listed domain.
   */
  function IsBlocked(data: BlockFile, email: string): bool {
    var e := Normalize(email);
    e in data.blockedEmails || DomainOf(e) in data.blockedDomains
  }

  /**
    An address is blocked exactly when its normal form is listed, or when the text after
    the last `@` of its normal form is a listed domain (an exact match, not a suffix);
    an address without `@` is looked up under the empty domain.
   */
  lemma IsBlockedMeans(data: BlockFile, email: string)
    ensures IsBlocked(data, email) <==> (
      || Normalize(email) in data.blockedEmails
      || (exists k :: LastAt(Normalize(email), k) && Normalize(email)[k + 1..] in data.blockedDomains)
      || ('@' !in Normalize(email) && "" in data.blockedDomains))
  {
    var e := Normalize(email);
    DomainOfMeans(e);
    if '@' in e {
      var k := LastAtIndex(e);
      assert LastAt(e, k);
    }
  }

  // ----- Adding entries -----

  /** One pass of the loop in `add_domains`/`add_emails`. */
  function AbsorbOne(list: seq<string>, entry: string): seq<string> {
    var n := Normalize(entry);
    if n != "" && n !in list then list + [n] else list
  }

  /** The list after `add_domains`/`add_emails` has gone through `entries` in order. */
  function Absorb(list: seq<string>, entries: seq<string>): seq<string>
    decreases |entries|
  {
    if entries == [] then list
    else AbsorbOne(Absorb(list, entries[..|entries| - 1]), entries[|entries| - 1])
  }

  /** The existing entries keep their places; new ones go at the end, at most one per entry. */
  lemma {:induction false} AbsorbKeepsOrder(list: seq<string>, entries: seq<string>)
    ensures |list| <= |Absorb(list, entries)| <= |list| + |entries|
    ensures Absorb(list, entries)[..|list|] == list
    decreases |entries|
  {
    if entries != [] {
      AbsorbKeepsOrder(list, entries[..|entries| - 1]);
    }
  }

  /** Some entry among the first `n` has the normal form `x`. */
  ghost predicate SomeEntryNormalizesTo(entries: seq<string>, n: int, x: string) {
    exists k :: 0 <= k < n && k < |entries| && Normalize(entries[k]) == x
  }

  lemma AbsorbOneMembers(list: seq<string>, entry: string, x: string)
    ensures x in AbsorbOne(list, entry) <==> x in list || (x != "" && Normalize(entry) == x)
  {
  }

  /** What is listed afterwards: what was listed before and the normal form of every non-blank entry. */
  lemma {:induction false} AbsorbMembers(list: seq<string>, entries: seq<string>, x: string)
    ensures x in Absorb(list, entries) <==>
      x in list || (x != "" && SomeEntryNormalizesTo(entries, |entries|, x))
    decreases |entries|
  {
    if entries != [] {
      var n := |entries| - 1;
      var init := entries[..n];
      AbsorbMembers(list, init, x);
      AbsorbOneMembers(Absorb(list, init), entries[n], x);
      if SomeEntryNormalizesTo(entries, n + 1, x) {
        var k :| 0 <= k < n + 1 && k < |entries| && Normalize(entries[k]) == x;
        if k < n {
          assert init[k] == entries[k];
          assert SomeEntryNormalizesTo(init, |init|, x);
        }
      }
      if SomeEntryNormalizesTo(init, |init|, x) {
        var k :| 0 <= k < |init| && k < |init| && Normalize(init[k]) == x;
        assert entries[k] == init[k];
      }
      if Normalize(entries[n]) == x {
        assert SomeEntryNormalizesTo(entries, n + 1, x);
      }
    }
  }

  /** A repeat-free list stays repeat-free. */
  lemma {:induction false} AbsorbKeepsNoDup(list: seq<string>, entries: seq<string>)
    requires NoDup(list)
    ensures NoDup(Absorb(list, entries))
    decreases |entries|
  {
    if entries != [] {
      AbsorbKeepsNoDup(list, entries[..|entries| - 1]);
    }
  }

  /** Every added entry is non-blank and already in normal form. */
  lemma {:induction false} AbsorbAddsNormalForms(list: seq<string>, entries: seq<string>)
    ensures forall k :: |list| <= k < |Absorb(list, entries)| ==>
      Absorb(list, entries)[k] != "" && Normalize(Absorb(list, entries)[k]) == Absorb(list, entries)[k]
    decreases |entries|
  {
    if entries != [] {
      var init := entries[..|entries| - 1];
      AbsorbAddsNormalForms(list, init);
      AbsorbKeepsOrder(list, init);
      NormalizeIdempotent(entries[|entries| - 1]);
    }
  }

  /** The in-memory `BlockedDomainsManager`; `data` is its `self.data`. */
  class Blocklist {
    var data: BlockFile

    /** `__init__`/`load`: the stored file's content, or two empty lists without one. */
    constructor (stored: Option<BlockFile>)
      ensures data == if stored.Some? then stored.value else Empty
    {
      data := if stored.Some? then stored.value else Empty;
    }

    /** `add_domains`: the domain list absorbs `domains`; the address list is untouched. */
    method AddDomains(domains: seq<string>)
      modifies this
      ensures data.blockedDomains == Absorb(old(data.blockedDomains), domains)
      ensures data.blockedEmails == old(data.blockedEmails)
    {
      var i := 0;
      while i < |domains|
        invariant 0 <= i <= |domains|
        invariant data.blockedDomains == Absorb(old(data.blockedDomains), domains[..i])
        invariant data.blockedEmails == old(data.blockedEmails)
      {
        var domain := Normalize(domains[i]);
        if domain != "" && domain !in data.blockedDomains {
          data := data.(blockedDomains := data.blockedDomains + [domain]);
        }
        assert domains[..i + 1][..i] == domains[..i];
        i := i + 1;
      }
      assert domains[..i] == domains;
    }

    /** `add_emails`: the address list absorbs `emails`; the domain list is untouched. */
    method AddEmails(emails: seq<string>)
      modifies this
      ensures data.blockedEmails == Absorb(old(data.blockedEmails), emails)
      ensures data.blockedDomains == old(data.blockedDomains)
    {
      var i := 0;
      while i < |emails|
        invariant 0 <= i <= |emails|
        invariant data.blockedEmails == Absorb(old(data.blockedEmails), emails[..i])
        invariant data.blockedDomains == old(data.blockedDomains)
      {
        var email := Normalize(emails[i]);
        if email != "" && email !in data.blockedEmails {
          data := data.(blockedEmails := data.blockedEmails + [email]);
        }
        assert emails[..i + 1][..i] == emails[..i];
        i := i + 1;
      }
      assert emails[..i] == emails;
    }
  }

  // ----- What adding means for the filter -----

  /** Once an address has been added, it and every spelling of it with the same normal form are blocked. */
  lemma AddedEmailIsBlocked(data: BlockFile, emails: seq<string>, k: int, email: string)
    requires 0 <= k < |emails| && Normalize(emails[k]) == Normalize(email) && Normalize(email) != ""
    ensures IsBlocked(data.(blockedEmails := Absorb(data.blockedEmails, emails)), email)
  {
    AbsorbMembers(data.blockedEmails, emails, Normalize(email));
    IsBlockedMeans(data.(blockedEmails := Absorb(data.blockedEmails, emails)), email);
  }

  /** Once a domain has been added, every address whose normal form ends in `@` and that domain is blocked. */
  lemma AddedDomainBlocksItsAddresses(data: BlockFile, domains: seq<string>, k: int, local: string, email: string)
    requires 0 <= k < |domains| && Normalize(domains[k]) != "" && '@' !in Normalize(domains[k])
    requires Normalize(email) == local + "@" + Normalize(domains[k])
    ensures IsBlocked(data.(blockedDomains := Absorb(data.blockedDomains, domains)), email)
  {
    var d := Normalize(domains[k]);
    AbsorbMembers(data.blockedDomains, domains, d);
    DomainOfJoin(local, d);
  }

  /** The blank domain is never added, so an address without `@` can then only be blocked as an address. */
  lemma AddingNeverBlocksTheEmptyDomain(data: BlockFile, domains: seq<string>, email: string)
    requires "" !in data.blockedDomains && '@' !in Normalize(email)
    ensures IsBlocked(data.(blockedDomains := Absorb(data.blockedDomains, domains)), email)
        <==> Normalize(email) in data.blockedEmails
  {
    AbsorbMembers(data.blockedDomains, domains, "");
    DomainOfMeans(Normalize(email));
  }

  /**
    Domains match exactly: an address whose normal form is `local@domain` is blocked
    through the domain list only when `domain` itself is listed, so listing
    `example.com` does not block `hr@mail.example.com`.
   */
  lemma DomainMatchIsExact(data: BlockFile, email: string, local: string, domain: string)
    requires Normalize(email) == local + "@" + domain && '@' !in domain
    requires Normalize(email) !in data.blockedEmails
    ensures IsBlocked(data, email) <==> domain in data.blockedDomains
  {
    DomainOfJoin(local, domain);
  }
}
