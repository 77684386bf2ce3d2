/** The WebDAV credential cache (`Credentials` in `crates/services/storage/src/auth.rs`):
    recent decisions about presented credentials, keyed by a fingerprint of the door
    and the credential, each standing for a minute. Times are in nanoseconds. */
module CredentialCache {
  import opened Bytes

  const SECOND := 1000000000
  const ENTRY_TTL := 60 * SECOND
  const FAILURE_WINDOW := 60 * SECOND
  const MAX_FAILURES := 10
  const MAX_ENTRIES := 64

  /** Which store a credential is checked against. */
  datatype Door = Deployment | Person(name: string)

  datatype Presented = Presented(user: string, password: string)

  datatype Cached = Verified | Rejected | Unknown

  datatype Entry = Entry(mark: string, verified: bool, decidedAt: nat, failures: nat, windowStarted: nat)

  // ---- fingerprints ----

  const NUL := '\0'

  /** What is hashed for a credential at a door. The keyed hash itself is taken to be
      one to one, so a fingerprint is its message. */
  function Fingerprint(door: Door, c: Presented): string
  {
    var (kind, tag) := if door.Person? then (1 as char, door.name) else (0 as char, "deployment");
    [kind, NUL] + (tag + ([NUL] + (c.user + ([NUL] + c.password))))
  }

  /** How long the text before the first NUL is. */
  function UpToNul(s: string): nat
  {
    if s == [] || s[0] == NUL then 0 else 1 + UpToNul(s[1..])
  }

  lemma {:induction false} UpToNulIs(a: string, b: string)
    requires NUL !in a
    ensures UpToNul(a + ([NUL] + b)) == |a|
  {
    if a != [] {
      assert (a + ([NUL] + b))[1..] == a[1..] + ([NUL] + b);
      UpToNulIs(a[1..], b);
    }
  }

  lemma FirstNul(a: string, b: string, c: string, d: string)
    requires a + ([NUL] + b) == c + ([NUL] + d) && NUL !in a && NUL !in c
    ensures a == c && b == d
  {
    UpToNulIs(a, b);
    UpToNulIs(c, d);
    var left, right := a + ([NUL] + b), c + ([NUL] + d);
    assert left[..|a|] == a && right[..|c|] == c;
    assert left[|a| + 1..] == b && right[|c| + 1..] == d;
  }

  predicate NulFree(door: Door)
  {
    door.Person? ==> NUL !in door.name
  }

  /** Exactly which credentials share a fingerprint: the same door, and the same
      user and password once joined; so with no NUL in the user names, only a
      credential and itself. */
  lemma FingerprintExactly(door: Door, c: Presented, other: Door, d: Presented)
    requires NulFree(door) && NulFree(other)
    ensures Fingerprint(door, c) == Fingerprint(other, d)
            <==> door == other && c.user + ([NUL] + c.password) == d.user + ([NUL] + d.password)
    ensures NUL !in c.user && NUL !in d.user ==>
              (Fingerprint(door, c) == Fingerprint(other, d) <==> door == other && c == d)
  {
    var mine, theirs := c.user + ([NUL] + c.password), d.user + ([NUL] + d.password);
    var tag := if door.Person? then door.name else "deployment";
    var theirTag := if other.Person? then other.name else "deployment";
    if Fingerprint(door, c) == Fingerprint(other, d) {
      assert Fingerprint(door, c)[0] == Fingerprint(other, d)[0];
      assert Fingerprint(door, c)[2..] == tag + ([NUL] + mine);
      assert Fingerprint(other, d)[2..] == theirTag + ([NUL] + theirs);
      FirstNul(tag, mine, theirTag, theirs);
    }
    if mine == theirs && NUL !in c.user && NUL !in d.user {
      FirstNul(c.user, c.password, d.user, d.password);
    }
  }

  /** The separator is not refused inside a user name, so two credentials can share. */
  lemma SharedFingerprint()
    ensures Fingerprint(Deployment, Presented("a" + [NUL] + "b", "c")) == Fingerprint(Deployment, Presented("a", "b" + [NUL] + "c"))
  {
    var mine, theirs := ("a" + [NUL] + "b") + ([NUL] + "c"), "a" + ([NUL] + ("b" + [NUL] + "c"));
    assert mine == theirs;
  }

  // ---- the table ----

  function Elapsed(now: nat, at: nat): nat
  {
    if at <= now then now - at else 0
  }

  predicate Live(e: Entry, now: nat)
  {
    Elapsed(now, e.decidedAt) < ENTRY_TTL || (e.failures > 0 && Elapsed(now, e.windowStarted) < FAILURE_WINDOW)
  }

  function Retained(entries: seq<Entry>, now: nat): (out: seq<Entry>)
    ensures |out| <= |entries|
  {
    if entries == [] then []
    else
      var front, last := Retained(entries[..|entries| - 1], now), entries[|entries| - 1];
      if Live(last, now) then front + [last] else front
  }

  /** The first entry with this fingerprint. */
  function Find(entries: seq<Entry>, mark: string): (at: Option<nat>)
    ensures at.Some? ==> at.value < |entries| && entries[at.value].mark == mark
    ensures at.None? ==> forall k :: 0 <= k < |entries| ==> entries[k].mark != mark
    ensures at.Some? ==> forall k :: 0 <= k < at.value ==> entries[k].mark != mark
  {
    if entries == [] then None
    else
      var front := Find(entries[..|entries| - 1], mark);
      if front.Some? then front
      else if entries[|entries| - 1].mark == mark then Some(|entries| - 1) else None
  }

  /** The least recently decided entry; the first of several. */
  function Oldest(entries: seq<Entry>): (at: nat)
    requires entries != []
    ensures at < |entries|
    ensures forall k :: 0 <= k < |entries| ==> entries[at].decidedAt <= entries[k].decidedAt
    ensures forall k :: 0 <= k < at ==> entries[at].decidedAt < entries[k].decidedAt
  {
    if |entries| == 1 then 0
    else
      var front := Oldest(entries[..|entries| - 1]);
      if entries[|entries| - 1].decidedAt < entries[front].decidedAt then |entries| - 1 else front
  }

  function LookedUp(entries: seq<Entry>, now: nat, mark: string): Cached
  {
    var kept := Retained(entries, now);
    var at := Find(kept, mark);
    if at == None then Unknown else if kept[at.value].verified then Verified else Rejected
  }

  predicate Braked(entries: seq<Entry>, now: nat, mark: string)
  {
    var at := Find(entries, mark);
    at.Some? && entries[at.value].failures >= MAX_FAILURES
    && Elapsed(now, entries[at.value].windowStarted) < FAILURE_WINDOW
  }

  function Redecided(e: Entry, now: nat, verified: bool): Entry
  {
    if verified then e.(verified := true, decidedAt := now, failures := 0, windowStarted := now)
    else if Elapsed(now, e.windowStarted) >= FAILURE_WINDOW then
      e.(verified := false, decidedAt := now, failures := 1, windowStarted := now)
    else e.(verified := false, decidedAt := now, failures := e.failures + 1)
  }

  function Fresh(mark: string, now: nat, verified: bool): Entry
  {
    Entry(mark, verified, now, if verified then 0 else 1, now)
  }

  function Remembered(entries: seq<Entry>, now: nat, mark: string, verified: bool): seq<Entry>
  {
    var kept := Retained(entries, now);
    var at := Find(kept, mark);
    if at.Some? then kept[at.value := Redecided(kept[at.value], now, verified)]
    else Shortened(kept) + [Fresh(mark, now, verified)]
  }

  /** A full table loses its least recently decided entry. */
  function Shortened(kept: seq<Entry>): seq<Entry>
  {
    if |kept| >= MAX_ENTRIES then kept[..Oldest(kept)] + kept[Oldest(kept) + 1..] else kept
  }

  // ---- what the table keeps ----

  predicate OneEach(entries: seq<Entry>)
  {
    forall i, j :: 0 <= i < j < |entries| ==> entries[i].mark != entries[j].mark
  }

  /** A live decision about this fingerprint is held. */
  predicate Present(entries: seq<Entry>, now: nat, mark: string)
  {
    exists k :: 0 <= k < |entries| && entries[k].mark == mark && Live(entries[k], now)
  }

  lemma {:induction false} RetainedIs(entries: seq<Entry>, now: nat)
    ensures forall e :: e in Retained(entries, now) <==> e in entries && Live(e, now)
    ensures OneEach(entries) ==> OneEach(Retained(entries, now))
  {
    if entries != [] {
      var front, last := entries[..|entries| - 1], entries[|entries| - 1];
      assert entries == front + [last];
      RetainedIs(front, now);
      hide Live;
      if OneEach(entries) {
        LastIsNew(front, last, Retained(front, now));
      }
    }
  }

  lemma LastIsNew(front: seq<Entry>, last: Entry, kept: seq<Entry>)
    requires OneEach(front + [last]) && forall e :: e in kept ==> e in front
    ensures OneEach(front)
    ensures OneEach(kept) ==> OneEach(kept + [last])
  {
    var all := front + [last];
    forall i, j | 0 <= i < j < |front| ensures front[i].mark != front[j].mark {
      assert all[i].mark != all[j].mark;
    }
    forall i | 0 <= i < |kept| ensures kept[i].mark != last.mark {
      assert kept[i] in front;
      var j :| 0 <= j < |front| && front[j] == kept[i];
      assert all[j].mark != all[|front|].mark;
    }
  }

  predicate Mentions(entries: seq<Entry>, mark: string)
  {
    exists k :: 0 <= k < |entries| && entries[k].mark == mark
  }

  lemma PresentKept(entries: seq<Entry>, now: nat, mark: string)
    ensures Present(entries, now, mark) <==> Mentions(Retained(entries, now), mark)
  {
    RetainedIs(entries, now);
    var kept := Retained(entries, now);
    hide Live;
    if Present(entries, now, mark) {
      var k :| 0 <= k < |entries| && entries[k].mark == mark && Live(entries[k], now);
      assert entries[k] in kept;
      var j :| 0 <= j < |kept| && kept[j] == entries[k];
      assert kept[j].mark == mark;
    }
    if j :| 0 <= j < |kept| && kept[j].mark == mark {
      assert kept[j] in kept;
      var k :| 0 <= k < |entries| && entries[k] == kept[j];
      assert Live(entries[k], now) && entries[k].mark == mark;
      assert Present(entries, now, mark);
    }
  }

  /** A look-up knows a credential exactly when a live decision about it is held. */
  lemma LookUpKnows(entries: seq<Entry>, now: nat, mark: string)
    ensures LookedUp(entries, now, mark) == Unknown <==> !Present(entries, now, mark)
    ensures LookedUp(entries, now, mark) == Verified ==>
              exists e :: e in entries && e.mark == mark && Live(e, now) && e.verified
  {
    PresentKept(entries, now, mark);
    RetainedIs(entries, now);
    var kept := Retained(entries, now);
    var at := Find(kept, mark);
    hide Live, Retained, Present;
    if at.Some? {
      assert kept[at.value] in kept;
    }
  }

  /** Decided within the last minute, or a failure in a window that opened within it. */
  predicate Stands(e: Entry, now: nat)
  {
    now < e.decidedAt + 60_000_000_000 || (e.failures > 0 && now < e.windowStarted + 60_000_000_000)
  }

  /** Ten failures in a window that opened within the last minute. */
  predicate Spent(e: Entry, now: nat)
  {
    e.failures >= 10 && now < e.windowStarted + 60_000_000_000
  }

  /** The entry that stands about a credential is what a look-up says. */
  lemma LookUpExactly(entries: seq<Entry>, now: nat, mark: string, e: Entry)
    requires OneEach(entries) && e in entries && e.mark == mark && Stands(e, now)
    ensures LookedUp(entries, now, mark) == if e.verified then Verified else Rejected
  {
    RetainedIs(entries, now);
    assert Live(e, now);
    var kept := Retained(entries, now);
    hide Live, Retained, Stands;
    var k :| 0 <= k < |kept| && kept[k] == e;
    FoundAt(kept, k);
  }

  /** With one entry each, the first with a fingerprint is the only one. */
  lemma FoundAt(entries: seq<Entry>, k: nat)
    requires OneEach(entries) && k < |entries|
    ensures Find(entries, entries[k].mark) == Some(k)
  {
    forall j | 0 <= j < k ensures entries[j].mark != entries[k].mark {
    }
    FindFirst(entries, entries[k].mark, k);
  }

  lemma LookUpMisses(entries: seq<Entry>, now: nat, mark: string)
    requires forall e :: e in entries && e.mark == mark ==> !Stands(e, now)
    ensures LookedUp(entries, now, mark) == Unknown
  {
    RetainedIs(entries, now);
    var kept := Retained(entries, now);
    forall k | 0 <= k < |kept| ensures kept[k].mark != mark {
      assert kept[k] in kept;
    }
  }

  lemma BrakedExactly(entries: seq<Entry>, now: nat, mark: string)
    requires OneEach(entries)
    ensures Braked(entries, now, mark) <==> exists e :: e in entries && e.mark == mark && Spent(e, now)
  {
    var at := Find(entries, mark);
    if Braked(entries, now, mark) {
      assert entries[at.value] in entries && Spent(entries[at.value], now);
    }
    if e :| e in entries && e.mark == mark && Spent(e, now) {
      var k :| 0 <= k < |entries| && entries[k] == e;
      FoundAt(entries, k);
    }
  }

  /** What remembering makes of the entry that stands: a yes wipes its failures, and a no
      is one more of them, or the first of a new window once the old one is a minute old. */
  lemma RedecidesExactly(entries: seq<Entry>, now: nat, mark: string, verified: bool, e: Entry, x: Entry)
    requires OneEach(entries) && |entries| <= 64 && e in entries && e.mark == mark && Stands(e, now)
    requires x in Remembered(entries, now, mark, verified) && x.mark == mark
    ensures x == if verified then Entry(mark, true, now, 0, now)
                 else if now < e.windowStarted + 60_000_000_000 then Entry(mark, false, now, e.failures + 1, e.windowStarted)
                 else Entry(mark, false, now, 1, now)
  {
    RetainedIs(entries, now);
    RememberedIs(entries, now, mark, verified);
    assert Live(e, now);
    var kept, out := Retained(entries, now), Remembered(entries, now, mark, verified);
    var k :| 0 <= k < |kept| && kept[k] == e;
    FoundAt(kept, k);
    assert out[k] == Redecided(e, now, verified);
    hide Remembered, Live, Retained, Stands;
    var j :| 0 <= j < |out| && out[j] == x;
    FoundAt(out, j);
    FoundAt(out, k);
  }

  /** And with nothing that stands, an entry of its own. */
  lemma DecidesAfresh(entries: seq<Entry>, now: nat, mark: string, verified: bool, x: Entry)
    requires OneEach(entries) && |entries| <= 64 && forall e :: e in entries && e.mark == mark ==> !Stands(e, now)
    requires x in Remembered(entries, now, mark, verified) && x.mark == mark
    ensures x == Entry(mark, verified, now, if verified then 0 else 1, now)
  {
    RememberedIs(entries, now, mark, verified);
    RetainedIs(entries, now);
    var kept, out := Retained(entries, now), Remembered(entries, now, mark, verified);
    forall k | 0 <= k < |kept| ensures kept[k].mark != mark {
      assert kept[k] in kept;
    }
    assert Find(kept, mark) == None;
    assert out == Shortened(kept) + [Fresh(mark, now, verified)];
    hide Remembered, Shortened, Find, Live, Retained, Stands;
    var j :| 0 <= j < |out| && out[j] == x;
    FoundAt(out, j);
    FoundAt(out, |out| - 1);
  }

  ghost predicate AfterRemembering(entries: seq<Entry>, out: seq<Entry>, now: nat, mark: string, verified: bool)
  {
    && OneEach(out)
    && (|entries| <= MAX_ENTRIES ==> |out| <= MAX_ENTRIES)
    && (forall e :: e in out && e.mark != mark ==> e in entries && Live(e, now))
    && (exists e :: e in out && e.mark == mark)
    && (forall e :: e in out && e.mark == mark ==> Decided(entries, e, now, verified))
  }

  lemma ReplaceOne(entries: seq<Entry>, kept: seq<Entry>, at: nat, now: nat, verified: bool)
    requires OneEach(kept) && at < |kept| <= |entries|
    requires forall e :: e in kept ==> e in entries && Live(e, now)
    ensures AfterRemembering(entries, kept[at := Redecided(kept[at], now, verified)], now, kept[at].mark, verified)
  {
    var e := Redecided(kept[at], now, verified);
    var out := kept[at := e];
    assert out[at] == e && e.mark == kept[at].mark;
    assert Decided(entries, e, now, verified) by { assert kept[at] in kept; }
    hide Decided, Live, Redecided;
    forall k | 0 <= k < |out| && k != at ensures out[k] == kept[k] && out[k].mark != e.mark {
      assert if k < at then kept[k].mark != kept[at].mark else kept[at].mark != kept[k].mark;
    }
    assert OneEach(out);
  }

  lemma AddOne(entries: seq<Entry>, kept: seq<Entry>, now: nat, mark: string, verified: bool)
    requires OneEach(kept) && |kept| <= |entries|
    requires forall e :: e in kept ==> e in entries && Live(e, now)
    requires forall k :: 0 <= k < |kept| ==> kept[k].mark != mark
    ensures |entries| < MAX_ENTRIES || |kept| < MAX_ENTRIES ==>
              AfterRemembering(entries, kept + [Fresh(mark, now, verified)], now, mark, verified)
  {
    var e := Fresh(mark, now, verified);
    var out := kept + [e];
    assert out[|kept|] == e && e.mark == mark;
    assert Decided(entries, e, now, verified);
    hide Decided, Live, Fresh;
    assert OneEach(out);
  }

  lemma DropOne(kept: seq<Entry>, at: nat)
    requires OneEach(kept) && at < |kept|
    ensures OneEach(kept[..at] + kept[at + 1..])
    ensures forall e :: e in kept[..at] + kept[at + 1..] ==> e in kept
  {
  }

  /** What remembering leaves: one decision about this credential, made now, and of
      the others only live ones that were there. */
  lemma RememberedIs(entries: seq<Entry>, now: nat, mark: string, verified: bool)
    requires OneEach(entries)
    ensures |entries| <= MAX_ENTRIES ==>
              AfterRemembering(entries, Remembered(entries, now, mark, verified), now, mark, verified)
  {
    RetainedIs(entries, now);
    var kept := Retained(entries, now);
    var at := Find(kept, mark);
    hide Retained, Live, AfterRemembering, Redecided, Fresh, OneEach, Shortened, Find;
    if at.Some? {
      ReplaceOne(entries, kept, at.value, now, verified);
    } else {
      ShortenedIs(kept);
      var shorter := Shortened(kept);
      forall k | 0 <= k < |shorter| ensures shorter[k].mark != mark {
        assert shorter[k] in kept;
      }
      AddOne(entries, shorter, now, mark, verified);
    }
  }

  lemma ShortenedIs(kept: seq<Entry>)
    requires OneEach(kept)
    ensures OneEach(Shortened(kept)) && |Shortened(kept)| <= |kept|
    ensures |kept| <= MAX_ENTRIES ==> |Shortened(kept)| < MAX_ENTRIES
    ensures forall e :: e in Shortened(kept) ==> e in kept
  {
    hide OneEach, Oldest;
    if |kept| >= MAX_ENTRIES {
      DropOne(kept, Oldest(kept));
    }
  }

  /** Every entry but one stays when one is taken out. */
  lemma TakenOut(kept: seq<Entry>, at: nat, k: nat)
    requires at < |kept| && k < |kept|
    ensures kept[k] in kept[..at] + kept[at + 1..] || k == at
    ensures forall x :: x in kept[..at] + kept[at + 1..] ==> x in kept
  {
    var shorter := kept[..at] + kept[at + 1..];
    if k < at {
      assert shorter[k] == kept[k];
    } else if k > at {
      assert shorter[k - 1] == kept[k];
    }
  }

  /** Room is made only in a full table with nothing about this credential, and then
      by the least recently decided entry: a live decision is lost no other way. */
  lemma EvictsOldest(entries: seq<Entry>, now: nat, mark: string, verified: bool, e: Entry)
    requires e in entries && Live(e, now) && e.mark != mark
    ensures var out := Remembered(entries, now, mark, verified);
            || e in out
            || (&& |Retained(entries, now)| >= 64 && !Present(entries, now, mark)
                && forall x :: x in out && x.mark != mark ==> e.decidedAt <= x.decidedAt)
  {
    RetainedIs(entries, now);
    PresentKept(entries, now, mark);
    var kept := Retained(entries, now);
    var at := Find(kept, mark);
    var k :| 0 <= k < |kept| && kept[k] == e;
    hide Retained, Live, Present, Redecided, Shortened, Mentions;
    if at.Some? {
      assert kept[at.value := Redecided(kept[at.value], now, verified)][k] == e;
    } else {
      assert !Mentions(kept, mark) by { NotMentioned(kept, mark); }
      hide Find, Fresh;
      ShortenedKeeps(kept, k);
      var shorter, added := Shortened(kept), Fresh(mark, now, verified);
      assert added.mark == mark by { FreshMark(mark, now, verified); }
      assert forall x :: x in shorter + [added] <==> x in shorter || x == added;
    }
  }

  lemma FreshMark(mark: string, now: nat, verified: bool)
    ensures Fresh(mark, now, verified).mark == mark
  {
  }

  lemma NotMentioned(kept: seq<Entry>, mark: string)
    requires Find(kept, mark) == None
    ensures !Mentions(kept, mark)
  {
  }

  lemma ShortenedKeeps(kept: seq<Entry>, k: nat)
    requires k < |kept|
    ensures || kept[k] in Shortened(kept)
            || (|kept| >= MAX_ENTRIES && forall x :: x in Shortened(kept) ==> kept[k].decidedAt <= x.decidedAt)
  {
    if |kept| >= MAX_ENTRIES {
      var oldest := Oldest(kept);
      TakenOut(kept, oldest, k);
      hide Oldest;
      forall x | x in Shortened(kept) ensures kept[oldest].decidedAt <= x.decidedAt {
        assert x in kept;
      }
    }
  }

  /** `e` is the decision just made, by itself or on top of the live one there was. */
  ghost predicate Decided(entries: seq<Entry>, e: Entry, now: nat, verified: bool)
  {
    && e.verified == verified && e.decidedAt == now && (verified ==> e.failures == 0)
    && (|| e.failures <= 1
        || exists old_ :: old_ in entries && old_.mark == e.mark && Live(old_, now) && e.failures == old_.failures + 1)
  }

  // ---- the table as it runs ----

  class Credentials {
    var entries: seq<Entry>

    constructor ()
      ensures entries == []
    {
      entries := [];
    }

    method Retain(now: nat)
      modifies this
      ensures entries == Retained(old(entries), now)
    {
      var all := entries;
      var kept: seq<Entry> := [];
      for k := 0 to |all|
        invariant entries == old(entries) == all
        invariant kept == Retained(all[..k], now)
      {
        assert all[..k + 1][..k] == all[..k];
        if Live(all[k], now) {
          kept := kept + [all[k]];
        }
      }
      assert all[..|all|] == all;
      entries := kept;
    }

    method Position(mark: string) returns (at: Option<nat>)
      ensures at == Find(entries, mark)
    {
      for k := 0 to |entries|
        invariant forall j :: 0 <= j < k ==> entries[j].mark != mark
      {
        if entries[k].mark == mark {
          FindFirst(entries, mark, k);
          return Some(k);
        }
      }
      at := None;
    }

    method OldestIndex() returns (at: nat)
      requires entries != []
      ensures at == Oldest(entries)
    {
      at := 0;
      for k := 1 to |entries|
        invariant at < k
        invariant forall j :: 0 <= j < k ==> entries[at].decidedAt <= entries[j].decidedAt
        invariant forall j :: 0 <= j < at ==> entries[at].decidedAt < entries[j].decidedAt
      {
        if entries[k].decidedAt < entries[at].decidedAt {
          at := k;
        }
      }
      var best := Oldest(entries);
      assert entries[best].decidedAt == entries[at].decidedAt;
    }

    method LookUp(now: nat, door: Door, c: Presented) returns (cached: Cached)
      modifies this
      ensures cached == LookedUp(old(entries), now, Fingerprint(door, c))
      ensures entries == Retained(old(entries), now)
    {
      Retain(now);
      var at := Position(Fingerprint(door, c));
      if at == None {
        return Unknown;
      }
      return if entries[at.value].verified then Verified else Rejected;
    }

    method Throttled(now: nat, door: Door, c: Presented) returns (braked: bool)
      ensures braked == Braked(entries, now, Fingerprint(door, c))
    {
      var at := Position(Fingerprint(door, c));
      braked := at.Some? && entries[at.value].failures >= MAX_FAILURES
                && Elapsed(now, entries[at.value].windowStarted) < FAILURE_WINDOW;
    }

    static method Redecide(held: Entry, now: nat, verified: bool) returns (e: Entry)
      ensures e == Redecided(held, now, verified)
    {
      e := held.(verified := verified, decidedAt := now);
      if verified {
        e := e.(failures := 0, windowStarted := now);
      } else if Elapsed(now, e.windowStarted) >= FAILURE_WINDOW {
        e := e.(failures := 1, windowStarted := now);
      } else {
        e := e.(failures := e.failures + 1);
      }
    }

    method Remember(now: nat, door: Door, c: Presented, verified: bool)
      modifies this
      ensures entries == Remembered(old(entries), now, Fingerprint(door, c), verified)
    {
      var mark := Fingerprint(door, c);
      Retain(now);
      hide Fingerprint, Retained, Redecided, Find, Shortened;
      var at := Position(mark);
      if at.Some? {
        var e := Redecide(entries[at.value], now, verified);
        entries := entries[at.value := e];
        return;
      }
      MakeRoom();
      entries := entries + [Entry(mark, verified, now, if verified then 0 else 1, now)];
    }

    method MakeRoom()
      modifies this
      ensures entries == Shortened(old(entries))
    {
      hide Oldest;
      if |entries| >= MAX_ENTRIES {
        var oldest := OldestIndex();
        entries := entries[..oldest] + entries[oldest + 1..];
      }
    }
  }

  lemma FindFirst(entries: seq<Entry>, mark: string, k: nat)
    requires k < |entries| && entries[k].mark == mark && forall j :: 0 <= j < k ==> entries[j].mark != mark
    ensures Find(entries, mark) == Some(k)
  {
    var at := Find(entries, mark);
  }
}
