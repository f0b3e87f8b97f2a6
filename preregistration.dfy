/** The in-memory pre-registration store of the authentication routes:
    sign-ups that wait for e-mail verification, keyed by a random
    verification token, each with a six-digit numeric code and a
    one-hour expiry. A JavaScript `Map` keeps its entries in insertion
    order, so the store is a sequence of entries with distinct tokens. */
module PreRegistration {
  import opened Common

  /** One hour, in milliseconds. */
  const TokenExpiry: int := 60 * 60 * 1000

  /** A leader's sign-up creates a team of this name; a member's joins
      the team with this code. */
  datatype TeamInfo = NewTeam(teamName: string) | JoinTeam(teamCode: string, teamName: string)

  /** `password` is still the plaintext: it is hashed on verification. */
  datatype PreReg = PreReg(
    email: string,
    name: string,
    password: string,
    team: TeamInfo,
    numericCode: string,
    expires: int)

  datatype Entry = Entry(token: string, data: PreReg)

  function TokenOf(e: Entry): string { e.token }

  predicate IsDigit(c: char) { '0' <= c <= '9' }

  /** The codes the verify-by-code route accepts for a search: exactly
      six characters, all decimal digits. */
  predicate IsSixDigitCode(code: string) {
    |code| == 6 && forall i :: 0 <= i < |code| ==> IsDigit(code[i])
  }

  /** The routes treat an entry as expired once the clock is past its expiry. */
  predicate Expired(e: Entry, now: int) {
    now > e.data.expires
  }

  /** The expiry stamped on an entry created at `now`. */
  function ExpiryFrom(now: int): int {
    now + TokenExpiry
  }

  /** The store with the entry for `token` deleted (`Map.delete`). */
  function Remove(entries: seq<Entry>, token: string): seq<Entry> {
    Filter(entries, (e: Entry) => e.token != token)
  }

  /** What survives a cleanup sweep at `now`. */
  function Unexpired(entries: seq<Entry>, now: int): seq<Entry> {
    Filter(entries, (e: Entry) => !Expired(e, now))
  }

  /** What a code search leaves of the entries it has passed: those that
      are not an expired entry carrying `code`. */
  function SweepCode(entries: seq<Entry>, code: string, now: int): seq<Entry> {
    Filter(entries, (e: Entry) => !(e.data.numericCode == code && Expired(e, now)))
  }

  /** An entry the code search stops at. */
  predicate IsLiveMatch(e: Entry, code: string, now: int) {
    e.data.numericCode == code && !Expired(e, now)
  }

  /** The position of the first entry the code search stops at, or the
      length of the store when there is none. */
  function FirstLiveMatch(entries: seq<Entry>, code: string, now: int): (j: nat)
    ensures j <= |entries|
  {
    if entries == [] then 0
    else if IsLiveMatch(entries[0], code, now) then 0
    else 1 + FirstLiveMatch(entries[1..], code, now)
  }

  /** No entry before the first live match is one, and the entry at it is. */
  lemma {:induction false} FirstLiveMatchStops(entries: seq<Entry>, code: string, now: int)
    ensures var j := FirstLiveMatch(entries, code, now);
      && (forall i :: 0 <= i < j ==> !IsLiveMatch(entries[i], code, now))
      && (j < |entries| ==> IsLiveMatch(entries[j], code, now))
  {
    if entries != [] && !IsLiveMatch(entries[0], code, now) {
      FirstLiveMatchStops(entries[1..], code, now);
      var j := FirstLiveMatch(entries, code, now);
      forall i | 0 <= i < j
        ensures !IsLiveMatch(entries[i], code, now)
      {
        if i > 0 {
          assert entries[i] == entries[1..][i - 1];
        }
      }
    }
  }

  /** An entry that is not a live match, at or before the first live
      match, lies before it. */
  lemma FirstLiveMatchPast(entries: seq<Entry>, code: string, now: int, i: nat)
    requires i < |entries| && i <= FirstLiveMatch(entries, code, now)
    requires !IsLiveMatch(entries[i], code, now)
    ensures i < FirstLiveMatch(entries, code, now)
  {
    FirstLiveMatchStops(entries, code, now);
  }

  /** A position at or before the first live match that is a live match,
      or the end, is the first live match. */
  lemma FirstLiveMatchAt(entries: seq<Entry>, code: string, now: int, i: nat)
    requires i <= FirstLiveMatch(entries, code, now)
    requires i < |entries| ==> IsLiveMatch(entries[i], code, now)
    ensures FirstLiveMatch(entries, code, now) == i
  {
    FirstLiveMatchStops(entries, code, now);
  }

  /** The store after `Map.set(token, data)`: a new token goes at the
      end; an existing one keeps its place and gets the new data. */
  function Put(entries: seq<Entry>, token: string, data: PreReg): seq<Entry> {
    var k := IndexOf(entries, token);
    if k < 0 then entries + [Entry(token, data)] else entries[k := Entry(token, data)]
  }

  /** The position of `token`, or -1. */
  function IndexOf(entries: seq<Entry>, token: string): (r: int)
    ensures -1 <= r < |entries|
    ensures 0 <= r ==> entries[r].token == token
    ensures r == -1 <==> forall i :: 0 <= i < |entries| ==> entries[i].token != token
  {
    if entries == [] then -1
    else if entries[|entries| - 1].token == token then |entries| - 1
    else IndexOf(entries[..|entries| - 1], token)
  }

  /** Removing a token nobody holds changes nothing. */
  lemma RemoveAbsent(s: seq<Entry>, token: string)
    requires forall k :: 0 <= k < |s| ==> s[k].token != token
    ensures Remove(s, token) == s
  {
    FilterAll(s, (e: Entry) => e.token != token);
  }

  /** With unique tokens, no entry before position `i` holds the token at `i`. */
  lemma EarlierTokensDiffer(es: seq<Entry>, i: nat, kept: seq<Entry>)
    requires UniqueBy(es, TokenOf)
    requires i < |es|
    requires forall k :: 0 <= k < |kept| ==> kept[k] in es[..i]
    ensures forall k :: 0 <= k < |kept| ==> kept[k].token != es[i].token
  {
    forall k | 0 <= k < |kept|
      ensures kept[k].token != es[i].token
    {
      var j :| 0 <= j < i && es[..i][j] == kept[k];
      assert TokenOf(es[j]) != TokenOf(es[i]);
    }
  }

  /** Deleting the entry under the cursor of a scan over a snapshot `es`
      leaves the entries already kept and the rest of the snapshot. */
  lemma DeleteAtCursor(es: seq<Entry>, i: nat, kept: seq<Entry>)
    requires UniqueBy(es, TokenOf)
    requires i < |es|
    requires forall k :: 0 <= k < |kept| ==> kept[k] in es[..i]
    ensures Remove(kept + es[i..], es[i].token) == kept + es[i + 1..]
  {
    var t := es[i].token;
    var rest := es[i + 1..];
    assert es[i..] == [es[i]] + rest;
    FilterSkip(kept, es[i], rest, (e: Entry) => e.token != t);
    EarlierTokensDiffer(es, i, kept);
    RemoveAbsent(kept, t);
    LaterTokensDiffer(es, i, rest);
    RemoveAbsent(rest, t);
  }

  /** With unique tokens, no entry after position `i` holds the token at `i`. */
  lemma LaterTokensDiffer(es: seq<Entry>, i: nat, rest: seq<Entry>)
    requires UniqueBy(es, TokenOf)
    requires i < |es| && rest == es[i + 1..]
    ensures forall k :: 0 <= k < |rest| ==> rest[k].token != es[i].token
  {
    forall k | 0 <= k < |rest|
      ensures rest[k].token != es[i].token
    {
      assert rest[k] == es[i + 1 + k];
      assert TokenOf(es[i]) != TokenOf(es[i + 1 + k]);
    }
  }

  /** A cleanup step at an expired entry: deleting it under the cursor. */
  lemma CleanupDrop(es: seq<Entry>, i: nat, now: int)
    requires UniqueBy(es, TokenOf)
    requires i < |es| && Expired(es[i], now)
    ensures Remove(Unexpired(es[..i], now) + es[i..], es[i].token) == Unexpired(es[..i + 1], now) + es[i + 1..]
  {
    assert es[..i + 1] == es[..i] + [es[i]];
    FilterAppend(es[..i], es[i], (e: Entry) => !Expired(e, now));
    FilterMembers(es[..i], (e: Entry) => !Expired(e, now));
    DeleteAtCursor(es, i, Unexpired(es[..i], now));
  }

  /** A cleanup step at an unexpired entry: it stays where it is. */
  lemma CleanupKeep(es: seq<Entry>, i: nat, now: int)
    requires i < |es| && !Expired(es[i], now)
    ensures Unexpired(es[..i], now) + es[i..] == Unexpired(es[..i + 1], now) + es[i + 1..]
  {
    assert es[..i + 1] == es[..i] + [es[i]];
    FilterAppend(es[..i], es[i], (e: Entry) => !Expired(e, now));
    assert es[i..] == [es[i]] + es[i + 1..];
  }

  /** A search step at an expired entry carrying the code: deleting it
      under the cursor. */
  lemma SweepDrop(es: seq<Entry>, i: nat, code: string, now: int)
    requires UniqueBy(es, TokenOf)
    requires i < |es| && es[i].data.numericCode == code && Expired(es[i], now)
    ensures Remove(SweepCode(es[..i], code, now) + es[i..], es[i].token) == SweepCode(es[..i + 1], code, now) + es[i + 1..]
  {
    assert es[..i + 1] == es[..i] + [es[i]];
    FilterAppend(es[..i], es[i], (e: Entry) => !(e.data.numericCode == code && Expired(e, now)));
    FilterMembers(es[..i], (e: Entry) => !(e.data.numericCode == code && Expired(e, now)));
    DeleteAtCursor(es, i, SweepCode(es[..i], code, now));
  }

  /** A search step at an entry carrying another code: it stays where it is. */
  lemma SweepKeep(es: seq<Entry>, i: nat, code: string, now: int)
    requires i < |es| && es[i].data.numericCode != code
    ensures SweepCode(es[..i], code, now) + es[i..] == SweepCode(es[..i + 1], code, now) + es[i + 1..]
  {
    assert es[..i + 1] == es[..i] + [es[i]];
    FilterAppend(es[..i], es[i], (e: Entry) => !(e.data.numericCode == code && Expired(e, now)));
    assert es[i..] == [es[i]] + es[i + 1..];
  }

  class PreRegistrationMap {
    var entries: seq<Entry>

    /** Tokens are keys, and every stored code has the shape the code
        generator produces (six digits, 100000 to 999999). */
    ghost predicate Valid()
      reads this
    {
      && UniqueBy(entries, TokenOf)
      && forall i :: 0 <= i < |entries| ==> IsSixDigitCode(entries[i].data.numericCode)
    }

    constructor ()
      ensures Valid() && entries == []
    {
      entries := [];
    }

    /** `Map.get`. */
    function Get(token: string): (r: Option<PreReg>)
      reads this
      ensures r.None? <==> forall i :: 0 <= i < |entries| ==> entries[i].token != token
      ensures r.Some? ==> Entry(token, r.value) in entries
    {
      var k := IndexOf(entries, token);
      if k < 0 then None else Some(entries[k].data)
    }

    /** `Map.set`. */
    method Set(token: string, data: PreReg)
      requires Valid()
      requires IsSixDigitCode(data.numericCode)
      modifies this
      ensures Valid()
      ensures entries == Put(old(entries), token, data)
      ensures Get(token) == Some(data)
    {
      var k := IndexOf(entries, token);
      if k < 0 {
        AppendKeepsUnique(entries, Entry(token, data), TokenOf);
        entries := entries + [Entry(token, data)];
      } else {
        entries := entries[k := Entry(token, data)];
        assert UniqueBy(entries, TokenOf);
        var k' := IndexOf(entries, token);
        assert entries[k].token == token;
        assert 0 <= k';
        assert TokenOf(entries[k']) == TokenOf(entries[k]);
      }
    }

    /** `Map.delete`. */
    method Delete(token: string)
      requires Valid()
      modifies this
      ensures Valid()
      ensures entries == Remove(old(entries), token)
      ensures forall i :: 0 <= i < |entries| ==> entries[i].token != token
      ensures forall i :: 0 <= i < |entries| ==> entries[i] in old(entries)
    {
      FilterKeepsUnique(entries, (e: Entry) => e.token != token, TokenOf);
      FilterMembers(entries, (e: Entry) => e.token != token);
      entries := Remove(entries, token);
    }

    /** The periodic sweep: walks the entries and deletes every one whose
        expiry is before `now`, leaving the others in place. */
    method CleanupExpired(now: int)
      requires Valid()
      modifies this
      ensures Valid()
      ensures entries == Unexpired(old(entries), now)
    {
      var es := entries;
      var i := 0;
      while i < |es|
        invariant 0 <= i <= |es|
        invariant Valid() && UniqueBy(es, TokenOf)
        invariant entries == Unexpired(es[..i], now) + es[i..]
      {
        if now > es[i].data.expires {
          CleanupDrop(es, i, now);
          Delete(es[i].token);
        } else {
          CleanupKeep(es, i, now);
        }
        i := i + 1;
      }
      assert es[..i] == es;
    }

    /** One step of the code search past an entry it does not stop at:
        the entry is deleted when it is an expired one carrying `code`. */
    method SweepStep(es: seq<Entry>, i: nat, code: string, now: int)
      requires Valid() && UniqueBy(es, TokenOf)
      requires i < |es| && !IsLiveMatch(es[i], code, now)
      requires entries == SweepCode(es[..i], code, now) + es[i..]
      modifies this
      ensures Valid()
      ensures entries == SweepCode(es[..i + 1], code, now) + es[i + 1..]
    {
      if es[i].data.numericCode == code {
        SweepDrop(es, i, code, now);
        Delete(es[i].token);
      } else {
        SweepKeep(es, i, code, now);
      }
    }

    /** The search of the verify-by-code route: walks the entries in order,
        deleting each expired entry that carries `code`, and stops at the
        first unexpired entry that carries it. */
    method FindByCode(code: string, now: int) returns (found: Option<Entry>)
      requires Valid()
      modifies this
      ensures Valid()
      ensures var j := FirstLiveMatch(old(entries), code, now);
        && (found.None? <==> j == |old(entries)|)
        && (found.Some? ==> found.value == old(entries)[j])
        && entries == SweepCode(old(entries)[..j], code, now) + old(entries)[j..]
    {
      var es := entries;
      var i := 0;
      while i < |es| && !IsLiveMatch(es[i], code, now)
        invariant 0 <= i <= |es|
        invariant Valid() && UniqueBy(es, TokenOf)
        invariant entries == SweepCode(es[..i], code, now) + es[i..]
        invariant i <= FirstLiveMatch(es, code, now)
      {
        FirstLiveMatchPast(es, code, now, i);
        SweepStep(es, i, code, now);
        i := i + 1;
      }
      FirstLiveMatchAt(es, code, now, i);
      found := if i < |es| then Some(es[i]) else None;
    }
  }
}
