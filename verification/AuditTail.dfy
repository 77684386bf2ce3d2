/** The bounded audit tail (`records` and `tail` in `crates/app/admin/src/audit_api.rs`): the
    newest records of a log that is never read whole. A line is a byte string, and what
    one parses to is an abstract partial function of it. */
module AuditTail {
  import opened Bytes

  const MAX_TAIL_BYTES := 256 * 1024
  const MAX_LIMIT := 500
  const NEWLINE: Byte := 10
  const RETURN: Byte := 13

  type Line = seq<Byte>

  datatype Tail<Entry> = Tail(entries: seq<Entry>, scanned: nat, unreadable: nat)

  // ---- lines ----

  /** How many bytes come before the first newline. */
  function First(text: seq<Byte>): (k: nat)
    ensures k <= |text|
    ensures forall j :: 0 <= j < k ==> text[j] != NEWLINE
    ensures k < |text| ==> text[k] == NEWLINE
  {
    if text == [] || text[0] == NEWLINE then 0 else 1 + First(text[1..])
  }

  /** A line that was ended loses the carriage return before its newline. */
  function Chomped(line: Line): Line
  {
    if line != [] && line[|line| - 1] == RETURN then line[..|line| - 1] else line
  }

  function Lines(text: seq<Byte>): seq<Line>
    decreases |text|
  {
    if text == [] then []
    else if First(text) == |text| then [text]
    else [Chomped(text[..First(text)])] + Lines(text[First(text) + 1..])
  }

  predicate Whole(text: seq<Byte>)
  {
    text == [] || text[|text| - 1] == NEWLINE
  }

  lemma FirstIs(text: seq<Byte>, k: nat)
    requires k < |text| && text[k] == NEWLINE && forall j :: 0 <= j < k ==> text[j] != NEWLINE
    ensures First(text) == k
  {
    var f := First(text);
  }

  /** Text that ends at a line's end has its own lines, and what follows has its own. */
  lemma {:induction false} LinesAppend(a: seq<Byte>, b: seq<Byte>)
    requires Whole(a)
    ensures Lines(a + b) == Lines(a) + Lines(b)
    decreases |a|
  {
    if a == [] {
      assert a + b == b;
    } else {
      var k := First(a);
      assert k < |a| by { assert a[|a| - 1] == NEWLINE; }
      FirstIs(a + b, k);
      assert (a + b)[..k] == a[..k] && (a + b)[k + 1..] == a[k + 1..] + b;
      assert Whole(a[k + 1..]);
      LinesAppend(a[k + 1..], b);
      SeqAssociative([Chomped(a[..k])], Lines(a[k + 1..]), Lines(b));
    }
  }

  /** Lines as they are written: each followed by a newline, or by a carriage return and
      a newline. */
  function Written(lines: seq<Line>, returned: seq<bool>): seq<Byte>
    requires |lines| == |returned|
  {
    if lines == [] then []
    else lines[0] + (if returned[0] then [13, 10] else [10]) + Written(lines[1..], returned[1..])
  }

  /** A line that reads back as it was written: it holds no newline, and a carriage
      return at its end only before another one. */
  predicate Plain(line: Line, returned: bool)
  {
    10 !in line && (!returned && line != [] ==> line[|line| - 1] != 13)
  }

  predicate AllPlain(lines: seq<Line>, returned: seq<bool>)
    requires |lines| == |returned|
  {
    forall k :: 0 <= k < |lines| ==> Plain(lines[k], returned[k])
  }

  /** What was written line by line comes back line by line; an end that no newline
      closes is a line too, as it stands. */
  lemma {:induction false} LinesOfWritten(lines: seq<Line>, returned: seq<bool>, end: Line)
    requires |lines| == |returned| && AllPlain(lines, returned) && 10 !in end
    ensures Lines(Written(lines, returned) + end) == lines + if end == [] then [] else [end]
    decreases |lines|
  {
    if lines == [] {
      assert Written(lines, returned) + end == end;
      assert First(end) == |end|;
      assert lines + [end] == [end] && lines + [] == [];
    } else {
      var line, rest := lines[0], Written(lines[1..], returned[1..]);
      var close: seq<Byte> := if returned[0] then [13, 10] else [10];
      assert Plain(line, returned[0]);
      var first: seq<Byte> := line + close;
      assert Written(lines, returned) == first + rest;
      assert AllPlain(lines[1..], returned[1..]);
      hide *;
      var tail := if end == [] then [] else [end];
      SeqAssociative(first, rest, end);
      LinesOfWritten(lines[1..], returned[1..], end);
      LineThen(line, returned[0], rest + end);
      assert lines == [line] + lines[1..];
      SeqAssociative([line], lines[1..], tail);
    }
  }

  lemma LineThen(line: Line, returned: bool, rest: seq<Byte>)
    requires Plain(line, returned)
    ensures Lines(line + (if returned then [13, 10] else [10]) + rest) == [line] + Lines(rest)
  {
    OneLine(line, returned);
    LinesAppend(line + if returned then [13, 10] else [10], rest);
  }

  lemma OneLine(line: Line, returned: bool)
    requires Plain(line, returned)
    ensures var text: seq<Byte> := line + if returned then [13, 10] else [10];
            Whole(text) && Lines(text) == [line]
  {
    var text: seq<Byte> := line + if returned then [13, 10] else [10];
    var k := |text| - 1;
    FirstIs(text, k);
    assert text[k + 1..] == [];
    assert if returned then text[..k] == line + [13] else text[..k] == line;
    assert [line] + [] == [line];
  }

  /** Every text is some lines as they are written, and an end. */
  lemma {:induction false} EveryText(text: seq<Byte>) returns (lines: seq<Line>, returned: seq<bool>, end: Line)
    ensures |lines| == |returned| && AllPlain(lines, returned) && 10 !in end
    ensures text == Written(lines, returned) + end
    decreases |text|
  {
    var k := First(text);
    if k == |text| {
      lines, returned, end := [], [], text;
    } else {
      var cr := k > 0 && text[k - 1] == 13;
      var line := if cr then text[..k - 1] else text[..k];
      var close: seq<Byte> := if cr then [13, 10] else [10];
      assert text == line + close + text[k + 1..];
      lines, returned, end := EveryText(text[k + 1..]);
      assert ([line] + lines)[1..] == lines && ([cr] + returned)[1..] == returned;
      SeqAssociative(line + close, Written(lines, returned), end);
      lines, returned := [line] + lines, [cr] + returned;
    }
  }

  lemma OneNewline(line: Line, rest: seq<Byte>)
    requires 10 !in line
    ensures multiset(line + [10] + rest)[10] == 1 + multiset(rest)[10]
  {
    assert multiset(line)[10] == 0;
  }

  lemma LinesTurn(text: seq<Byte>) returns (line: Line, rest: seq<Byte>, head: Line)
    requires 10 in text
    ensures text == line + [10] + rest && 10 !in line && 10 !in head && Lines(text) == [head] + Lines(rest)
  {
    var k := First(text);
    line, rest, head := text[..k], text[k + 1..], Chomped(text[..k]);
  }

  lemma {:induction false} LinesHold(text: seq<Byte>)
    ensures forall line :: line in Lines(text) ==> 10 !in line
    decreases |text|
  {
    if 10 in text {
      hide *;
      var line, rest, head := LinesTurn(text);
      LinesHold(rest);
    } else {
      assert First(text) == |text|;
    }
  }

  /** There is one line for every newline, and one for an end that none closes. */
  lemma {:induction false} LinesCount(text: seq<Byte>)
    ensures |Lines(text)| == multiset(text)[10] + if text != [] && text[|text| - 1] != 10 then 1 else 0
    decreases |text|
  {
    if 10 in text {
      hide *;
      var line, rest, head := LinesTurn(text);
      LinesCount(rest);
      OneNewline(line, rest);
      assert text[|text| - 1] == if rest == [] then 10 else rest[|rest| - 1];
    } else {
      assert multiset(text)[10] == 0 && First(text) == |text|;
    }
  }

  // ---- the plain account: every readable line, newest first ----

  function Readable<Entry>(parse: Line -> Option<Entry>, lines: seq<Line>): seq<Entry>
  {
    if lines == [] then []
    else
      var last := lines[|lines| - 1];
      (if last != [] && parse(last).Some? then [parse(last).value] else []) + Readable(parse, lines[..|lines| - 1])
  }

  lemma ReadableOne<Entry>(parse: Line -> Option<Entry>, line: Line)
    ensures Readable(parse, [line]) == if line == [] || parse(line) == None then [] else [parse(line).value]
  {
    assert [line][..0] == [];
  }

  lemma {:induction false} ReadableAppend<Entry>(parse: Line -> Option<Entry>, a: seq<Line>, b: seq<Line>)
    ensures Readable(parse, a + b) == Readable(parse, b) + Readable(parse, a)
  {
    if b == [] {
      assert a + b == a;
    } else {
      var front, last := b[..|b| - 1], b[|b| - 1];
      assert (a + b)[..|a + b| - 1] == a + front && (a + b)[|a + b| - 1] == last;
      ReadableAppend(parse, a, front);
      var head := if last != [] && parse(last).Some? then [parse(last).value] else [];
      SeqAssociative(head, Readable(parse, front), Readable(parse, a));
    }
  }

  function Take<T>(s: seq<T>, n: nat): seq<T>
  {
    if |s| <= n then s else s[..n]
  }

  // ---- the walk: stops when the answer is full ----

  function Noted<Entry>(parse: Line -> Option<Entry>, line: Line, limit: nat, found: Tail<Entry>): Tail<Entry>
  {
    var seen := found.(scanned := found.scanned + 1);
    match parse(line)
    case Some(entry) => if |found.entries| < limit then seen.(entries := found.entries + [entry]) else seen
    case None => seen.(unreadable := found.unreadable + 1)
  }

  function Walked<Entry>(parse: Line -> Option<Entry>, lines: seq<Line>, limit: nat, found: Tail<Entry>): Tail<Entry>
    decreases |lines|
  {
    if lines == [] then found
    else
      var rest, last := lines[..|lines| - 1], lines[|lines| - 1];
      if last == [] then Walked(parse, rest, limit, found)
      else
        var noted := Noted(parse, last, limit, found);
        if |noted.entries| >= limit then noted else Walked(parse, rest, limit, noted)
  }

  function Nothing<Entry>(): Tail<Entry>
  {
    Tail([], 0, 0)
  }

  /** `records`, as the loop it is. */
  method Records<Entry>(parse: Line -> Option<Entry>, text: seq<Byte>, limit: nat) returns (found: Tail<Entry>)
    ensures found == Walked(parse, Lines(text), limit, Nothing())
  {
    var lines := Lines(text);
    found := Tail([], 0, 0);
    var k := |lines|;
    assert lines[..k] == lines;
    while k > 0
      invariant 0 <= k <= |lines|
      invariant Walked(parse, lines[..k], limit, found) == Walked(parse, lines, limit, Nothing())
    {
      k := k - 1;
      var line := lines[k];
      assert lines[..k + 1][..k] == lines[..k] && lines[..k + 1][k] == line;
      if line == [] {
        continue;
      }
      found := found.(scanned := found.scanned + 1);
      var entry := parse(line);
      if entry.Some? {
        if |found.entries| < limit {
          found := found.(entries := found.entries + [entry.value]);
        }
      } else {
        found := found.(unreadable := found.unreadable + 1);
      }
      if |found.entries| >= limit {
        return;
      }
    }
  }

  lemma TakeCons<T>(e: T, more: seq<T>, n: nat)
    requires n >= 1
    ensures Take([e] + more, n) == [e] + Take(more, n - 1)
  {
  }

  /** What the walk owes after `found`: the newest readable lines there is room for,
      and an account of every line it looked at. */
  ghost predicate Owed<Entry>(found: Tail<Entry>, readable: seq<Entry>, limit: nat, out: Tail<Entry>)
    requires |found.entries| <= limit
  {
    && out.entries == found.entries + Take(readable, limit - |found.entries|)
    && out.scanned == |out.entries| + out.unreadable
  }

  lemma {:induction false} WalkedIs<Entry>(parse: Line -> Option<Entry>, lines: seq<Line>, limit: nat, found: Tail<Entry>)
    requires |found.entries| < limit && found.scanned == |found.entries| + found.unreadable
    ensures Owed(found, Readable(parse, lines), limit, Walked(parse, lines, limit, found))
    decreases |lines|
  {
    if lines == [] {
      assert found.entries + [] == found.entries;
    } else {
      var rest, last := lines[..|lines| - 1], lines[|lines| - 1];
      var more := Readable(parse, rest);
      if last == [] || parse(last).None? {
        assert Readable(parse, lines) == [] + more == more;
        WalkedIs(parse, rest, limit, if last == [] then found else Noted(parse, last, limit, found));
      } else {
        var noted := Noted(parse, last, limit, found);
        assert Readable(parse, lines) == [parse(last).value] + more;
        assert Walked(parse, lines, limit, found) == if |noted.entries| >= limit then noted else Walked(parse, rest, limit, noted);
        if |noted.entries| < limit {
          WalkedIs(parse, rest, limit, noted);
        }
        hide Walked, Readable;
        OneFound(found, noted, parse(last).value, more, limit, Walked(parse, rest, limit, noted));
      }
    }
  }

  lemma OneFound<Entry>(found: Tail<Entry>, noted: Tail<Entry>, e: Entry, more: seq<Entry>, limit: nat, out: Tail<Entry>)
    requires |found.entries| < limit && found.scanned == |found.entries| + found.unreadable
    requires noted == found.(scanned := found.scanned + 1, entries := found.entries + [e])
    requires |noted.entries| < limit ==> Owed(noted, more, limit, out)
    ensures Owed(found, [e] + more, limit, if |noted.entries| >= limit then noted else out)
  {
    var room := limit - |found.entries|;
    TakeCons(e, more, room);
    if |noted.entries| >= limit {
      assert Take(more, 0) == [] && [e] + [] == [e];
    } else {
      SeqAssociative(found.entries, [e], Take(more, room - 1));
    }
  }

  lemma RecordsAreNewest<Entry>(parse: Line -> Option<Entry>, lines: seq<Line>, limit: nat)
    requires limit >= 1
    ensures var out := Walked(parse, lines, limit, Nothing());
            && out.entries == Take(Readable(parse, lines), limit)
            && out.scanned == |out.entries| + out.unreadable
  {
    WalkedIs(parse, lines, limit, Nothing());
    assert [] + Take(Readable(parse, lines), limit) == Take(Readable(parse, lines), limit);
  }

  /** The newest line that is not empty. */
  function Newest(lines: seq<Line>): Option<Line>
  {
    if lines == [] then None
    else if lines[|lines| - 1] != [] then Some(lines[|lines| - 1])
    else Newest(lines[..|lines| - 1])
  }

  /** Every line looked at was returned or is unreadable, for every limit, except
      that a limit of nothing looks at one line and loses it: exactly when that line
      can be read. */
  lemma {:induction false} AccountedExactly<Entry>(parse: Line -> Option<Entry>, lines: seq<Line>, limit: nat)
    ensures var out := Walked(parse, lines, limit, Nothing());
            out.scanned == |out.entries| + out.unreadable
            <==> limit >= 1 || Newest(lines) == None || parse(Newest(lines).value) == None
    decreases |lines|
  {
    if limit >= 1 {
      RecordsAreNewest(parse, lines, limit);
    } else if lines != [] && lines[|lines| - 1] == [] {
      AccountedExactly(parse, lines[..|lines| - 1], limit);
    }
  }

  /** Older lines are only reached when the newer ones did not fill the answer. */
  lemma {:induction false} WalkedAppend<Entry>(parse: Line -> Option<Entry>, a: seq<Line>, b: seq<Line>, limit: nat,
                                               found: Tail<Entry>)
    requires |found.entries| < limit
    ensures var newer := Walked(parse, b, limit, found);
            Walked(parse, a + b, limit, found) == if |newer.entries| >= limit then newer else Walked(parse, a, limit, newer)
    decreases |b|
  {
    if b == [] {
      assert a + b == a;
    } else {
      var front, last := b[..|b| - 1], b[|b| - 1];
      assert (a + b)[..|a + b| - 1] == a + front && (a + b)[|a + b| - 1] == last;
      if last == [] {
        WalkedAppend(parse, a, front, limit, found);
      } else {
        var noted := Noted(parse, last, limit, found);
        if |noted.entries| < limit {
          WalkedAppend(parse, a, front, limit, noted);
        }
      }
    }
  }

  // ---- the window ----

  /** The complete lines of a window that starts at `from`: a window that starts
      anywhere but at the beginning loses what it holds of its first line. */
  function Complete(log: seq<Byte>, from: nat): seq<Byte>
    requires from <= |log|
  {
    if from == 0 then log
    else if First(log[from..]) == |log| - from then []
    else log[from + First(log[from..]) + 1..]
  }

  function From(log: seq<Byte>): (from: nat)
    ensures from <= |log| && if |log| <= 262144 then from == 0 else |log| - from == 262144
  {
    if |log| <= MAX_TAIL_BYTES then 0 else |log| - MAX_TAIL_BYTES
  }

  /** The cut: after the first newline at or after where the window starts. */
  lemma CompleteExactly(log: seq<Byte>, from: nat, k: nat)
    requires 0 < from <= |log|
    ensures from <= k < |log| && log[k] == 10 && 10 !in log[from..k] ==> Complete(log, from) == log[k + 1..]
    ensures 10 !in log[from..] ==> Complete(log, from) == []
    ensures Complete(log, 0) == log
  {
    var window := log[from..];
    if from <= k < |log| && log[k] == 10 && 10 !in log[from..k] {
      forall j | 0 <= j < k - from ensures window[j] != NEWLINE {
        assert window[j] == log[from..k][j];
      }
      FirstIs(window, k - from);
    } else if 10 !in window {
      assert First(window) == |window|;
    }
  }

  /** What is left out of the window ends at a line's end, or is everything. */
  lemma Discarded(log: seq<Byte>, from: nat) returns (cut: nat)
    requires from <= |log|
    ensures cut <= |log| && Complete(log, from) == log[cut..] && (cut == |log| || Whole(log[..cut]))
  {
    if from == 0 {
      cut := 0;
    } else {
      var k := First(log[from..]);
      if k == |log| - from {
        cut := |log|;
      } else {
        cut := from + k + 1;
        assert log[..cut][cut - 1] == log[from..][k];
      }
    }
  }

  /** The lines of the window are the newest lines of the log. */
  lemma WindowIsSuffix(log: seq<Byte>, from: nat) returns (older: seq<Line>)
    requires from <= |log|
    ensures Lines(log) == older + Lines(Complete(log, from))
  {
    var cut := Discarded(log, from);
    var kept := log[cut..];
    assert cut == |log| ==> Lines(kept) == [];
    hide Lines, Complete, Whole;
    if cut == |log| {
      older := Lines(log);
    } else {
      older := Lines(log[..cut]);
      assert log == log[..cut] + kept;
      LinesAppend(log[..cut], kept);
    }
  }

  function Clamped(limit: nat): (n: nat)
    ensures 1 <= n <= 500 && (1 <= limit <= 500 ==> n == limit) && (limit > 500 ==> n == 500)
  {
    if limit < 1 then 1 else if limit > MAX_LIMIT then MAX_LIMIT else limit
  }

  function Windowed<Entry>(parse: Line -> Option<Entry>, log: seq<Byte>, limit: nat): Tail<Entry>
  {
    Walked(parse, Lines(Complete(log, From(log))), Clamped(limit), Nothing())
  }

  /** Scanning the whole log. */
  function Full<Entry>(parse: Line -> Option<Entry>, log: seq<Byte>, limit: nat): Tail<Entry>
  {
    Walked(parse, Lines(log), Clamped(limit), Nothing())
  }

  /** The windowed tail refines the full scan: its records are a prefix of the full
      scan's; it is the full scan, counts and all, when the window holds as many
      readable lines as were asked for or the whole log; and its records are all of
      them exactly when there are no more to be had. */
  lemma WindowRefines<Entry>(parse: Line -> Option<Entry>, log: seq<Byte>, limit: nat)
    ensures var window, full := Windowed(parse, log, limit), Full(parse, log, limit);
            && window.entries <= full.entries
            && window.scanned <= full.scanned && window.unreadable <= full.unreadable
            && (|window.entries| == Clamped(limit) || |log| <= 262144 ==> window == full)
            && (window.entries == full.entries
                <==> |Readable(parse, Lines(Complete(log, From(log))))| >= Clamped(limit)
                     || Readable(parse, Lines(Complete(log, From(log)))) == Readable(parse, Lines(log)))
            && window.scanned == |window.entries| + window.unreadable
            && full.scanned == |full.entries| + full.unreadable
  {
    var n, newer := Clamped(limit), Lines(Complete(log, From(log)));
    var older := WindowIsSuffix(log, From(log));
    hide Lines, Complete;
    WalkedAppend(parse, older, newer, n, Nothing());
    RecordsAreNewest(parse, newer, n);
    RecordsAreNewest(parse, older + newer, n);
    ReadableAppend(parse, older, newer);
    var window := Walked(parse, newer, n, Nothing());
    if |window.entries| < n {
      Grows(parse, older, n, window);
    }
  }

  /** The counts only go up. */
  lemma {:induction false} Grows<Entry>(parse: Line -> Option<Entry>, lines: seq<Line>, limit: nat, found: Tail<Entry>)
    ensures found.scanned <= Walked(parse, lines, limit, found).scanned
    ensures found.unreadable <= Walked(parse, lines, limit, found).unreadable
    decreases |lines|
  {
    if lines != [] {
      var rest, last := lines[..|lines| - 1], lines[|lines| - 1];
      Grows(parse, rest, limit, if last == [] then found else Noted(parse, last, limit, found));
    }
  }

  /** What is read: the log as it was measured, and of what was appended since only
      as much as the bound on the read leaves room for. */
  function Snapshot(log: seq<Byte>, grown: seq<Byte>): (seen: seq<Byte>)
    ensures seen <= log + grown
    ensures |seen| == if |log| >= 262144 then |log| else if |log| + |grown| <= 262144 then |log| + |grown| else 262144
  {
    var now := log + grown;
    if |now| <= From(log) + MAX_TAIL_BYTES then now else now[..From(log) + MAX_TAIL_BYTES]
  }

  /** Seeking and reading, with a byte budget: what was seen of the file, from `from` on. */
  method ReadWindow(log: seq<Byte>, grown: seq<Byte>) returns (from: nat, bytes: seq<Byte>)
    ensures from == From(Snapshot(log, grown)) && bytes == Snapshot(log, grown)[from..]
  {
    var length := |log|;
    from := if length <= MAX_TAIL_BYTES then 0 else length - MAX_TAIL_BYTES;
    var file := log + grown;
    bytes := if |file| - from <= MAX_TAIL_BYTES then file[from..] else file[from..from + MAX_TAIL_BYTES];
  }

  /** The window without the line it may have cut through. */
  method WholeLines(from: nat, bytes: seq<Byte>, ghost seen: seq<Byte>) returns (complete: seq<Byte>)
    requires from <= |seen| && bytes == seen[from..]
    ensures complete == Complete(seen, from)
  {
    complete := bytes;
    if from > 0 {
      var end := First(bytes);
      if end < |bytes| {
        complete := bytes[end + 1..];
        assert complete == seen[from + end + 1..];
      } else {
        complete := [];
      }
    }
  }

  /** `tail`: a missing log is an empty answer. `grown` is what was appended between
      measuring the file and reading it. */
  method ReadTail<Entry>(parse: Line -> Option<Entry>, log: Option<seq<Byte>>, grown: seq<Byte>, limit: nat)
    returns (found: Tail<Entry>)
    ensures log == None ==> found == Nothing()
    ensures log.Some? ==> found == Windowed(parse, Snapshot(log.value, grown), limit)
  {
    hide Snapshot, From, Complete, Walked, Lines;
    var most := if limit < 1 then 1 else if limit > MAX_LIMIT then MAX_LIMIT else limit;
    if log == None {
      return Tail([], 0, 0);
    }
    var from, bytes := ReadWindow(log.value, grown);
    var complete := WholeLines(from, bytes, Snapshot(log.value, grown));
    found := Records(parse, complete, most);
  }
}
