/**
 * The pure eligibility checks: is a community on the blacklist (compared without regard
 * to letter case), and is a post older than the configured maximum age.
 */
module Eligibility {

  const SecondsPerHour: int := 3600

  /** `str.lower` on one character, for the ASCII letters. */
  function LowerChar(c: char): char {
    if 'A' <= c <= 'Z' then (c as int + 32) as char else c
  }

  /** `str.upper` on one character, for the ASCII letters. */
  function UpperChar(c: char): char {
    if 'a' <= c <= 'z' then (c as int - 32) as char else c
  }

  function Lower(s: string): (r: string)
    ensures |r| == |s|
    ensures forall i :: 0 <= i < |s| ==> r[i] == LowerChar(s[i])
  {
    seq(|s|, i requires 0 <= i < |s| => LowerChar(s[i]))
  }

  function Upper(s: string): (r: string)
    ensures |r| == |s|
    ensures forall i :: 0 <= i < |s| ==> r[i] == UpperChar(s[i])
  {
    seq(|s|, i requires 0 <= i < |s| => UpperChar(s[i]))
  }

  /** Two names that differ only in letter case. */
  predicate SameIgnoringCase(a: string, b: string) {
    Lower(a) == Lower(b)
  }

  /** A name is blacklisted exactly when some blacklist entry equals it once both are
      lower-cased. */
  function IsSubredditBlacklisted(name: string, blacklist: seq<string>): (r: bool)
    ensures r <==> exists i :: 0 <= i < |blacklist| && SameIgnoringCase(blacklist[i], name)
  {
    if |blacklist| == 0 then false
    else SameIgnoringCase(blacklist[0], name) || IsSubredditBlacklisted(name, blacklist[1..])
  }

  /** The verdict does not depend on the letter case of the name asked about. */
  lemma BlacklistIgnoresCase(name: string, blacklist: seq<string>)
    ensures IsSubredditBlacklisted(Lower(name), blacklist) == IsSubredditBlacklisted(name, blacklist)
    ensures IsSubredditBlacklisted(Upper(name), blacklist) == IsSubredditBlacklisted(name, blacklist)
  {
  }

  /** Every entry, written in any case, is blacklisted; an empty blacklist blocks nothing. */
  lemma BlacklistEntriesMatch(name: string, blacklist: seq<string>)
    ensures name in blacklist ==> IsSubredditBlacklisted(Upper(name), blacklist)
    ensures !IsSubredditBlacklisted(name, [])
  {
  }

  /** Only the set of entries matters, not their order or repetitions. */
  lemma {:induction false} BlacklistDependsOnEntriesOnly(name: string, b1: seq<string>, b2: seq<string>)
    requires forall x :: x in b1 <==> x in b2
    ensures IsSubredditBlacklisted(name, b1) == IsSubredditBlacklisted(name, b2)
  {
    if IsSubredditBlacklisted(name, b1) {
      var i :| 0 <= i < |b1| && SameIgnoringCase(b1[i], name);
      assert b1[i] in b2;
      var j :| 0 <= j < |b2| && b2[j] == b1[i];
    }
    if IsSubredditBlacklisted(name, b2) {
      var i :| 0 <= i < |b2| && SameIgnoringCase(b2[i], name);
      assert b2[i] in b1;
      var j :| 0 <= j < |b1| && b1[j] == b2[i];
    }
  }

  /** A post is too old when it was created strictly before the cut-off instant
      `now - maxAgeHours` hours; times are whole seconds. */
  function IsPostTooOld(now: int, createdUtc: int, maxAgeHours: int): (r: bool)
    ensures r <==> createdUtc < now - maxAgeHours * SecondsPerHour
  {
    var postAge := now - createdUtc;
    var maxAgeSeconds := maxAgeHours * SecondsPerHour;
    postAge > maxAgeSeconds
  }

  /** The comparison is strict: a post exactly at the limit is still young enough, one
      second later it is too old. */
  lemma TooOldBoundary(createdUtc: int, maxAgeHours: int)
    ensures !IsPostTooOld(createdUtc + maxAgeHours * SecondsPerHour, createdUtc, maxAgeHours)
    ensures IsPostTooOld(createdUtc + maxAgeHours * SecondsPerHour + 1, createdUtc, maxAgeHours)
  {
  }

  /** A post that is too old stays too old as time passes. */
  lemma TooOldStaysTooOld(now: int, later: int, createdUtc: int, maxAgeHours: int)
    requires now <= later
    requires IsPostTooOld(now, createdUtc, maxAgeHours)
    ensures IsPostTooOld(later, createdUtc, maxAgeHours)
  {
  }

  /** Raising the maximum age can only turn "too old" into "young enough". */
  lemma LongerMaxAgeOnlyRelaxes(now: int, createdUtc: int, maxAgeHours: int, longer: int)
    requires maxAgeHours <= longer
    requires IsPostTooOld(now, createdUtc, longer)
    ensures IsPostTooOld(now, createdUtc, maxAgeHours)
  {
  }
}
