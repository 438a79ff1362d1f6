/** The rotating spill log of sys-logd: a bounded first-in first-out store of log lines over renamed
    files, replayed oldest first (cmd/sys-logd/spill.go). Files hold their lines; file system calls
    succeed, the sink may refuse at any point. */
module SpillLog {
  import opened Sorting


  /** The slots 0 (the current file) to `rotations` (the oldest); a missing file and an empty one
      are both the empty list, as every operation treats them alike. */
  type Files = seq<seq<string>>

  /** Bytes on disk: every line with its newline. */
  function Size(lines: seq<string>): nat
  {
    if lines == [] then 0 else Size(lines[..|lines| - 1]) + |lines[|lines| - 1]| + 1
  }

  /** All stored lines, oldest first. */
  function Retained(files: Files): seq<string>
  {
    if files == [] then [] else Retained(files[1..]) + files[0]
  }

  predicate FileOk(lines: seq<string>, maxBytes: int) { Size(lines) <= maxBytes || |lines| <= 1 }

  /** Every file fits the limit or holds a single line. */
  ghost predicate Bounded(files: Files, maxBytes: int)
  {
    forall j | 0 <= j < |files| :: FileOk(files[j], maxBytes)
  }

  /** The renames of rotateLocked, all together: the oldest slot is gone, the others move up. */
  function Rotated(files: Files): Files
    requires files != []
  {
    [[]] + files[..|files| - 1]
  }

  /** The oldest slot comes first. */
  lemma {:induction false} OldestFirst(files: Files)
    requires files != []
    ensures Retained(files) == files[|files| - 1] + Retained(files[..|files| - 1])
  {
    var n := |files| - 1;
    if n == 0 {
      assert files[1..] == [] && files[..0] == [];
      assert files[0] + [] == [] + files[0];
    } else {
      OldestFirst(files[1..]);
      assert files[1..][..n - 1] == files[..n][1..];
      Associative(files[n], Retained(files[..n][1..]), files[0]);
    }
  }

  /** The files after one WriteLine, and how many lines its rotation dropped. */
  function Written(files: Files, maxBytes: int, line: string): Files
    requires files != []
  {
    if Size(files[0]) + |line| + 1 <= maxBytes then files[0 := files[0] + [line]]
    else Rotated(files)[0 := [line]]
  }

  lemma WrittenCases(files: Files, maxBytes: int, line: string)
    requires files != []
    ensures Size([]) == 0
    ensures |Rotated(files)| == |files|
    ensures Written(files, maxBytes, line) ==
              if Size(files[0]) + |line| + 1 <= maxBytes then files[0 := files[0] + [line]]
              else Rotated(files)[0 := []][0 := [] + [line]]
  {
    assert [] + [line] == [line];
  }

  function Dropped(files: Files, maxBytes: int, line: string): nat
    requires files != []
  {
    if Size(files[0]) + |line| + 1 <= maxBytes then 0 else |files[|files| - 1]|
  }

  lemma SizeSnoc(lines: seq<string>, line: string)
    ensures Size(lines + [line]) == Size(lines) + |line| + 1
  {
    assert (lines + [line])[..|lines|] == lines;
  }

  lemma RetainedHead(files: Files, lines: seq<string>)
    requires files != []
    ensures Retained(files[0 := lines]) == Retained(files[1..]) + lines
  {
    assert files[0 := lines][1..] == files[1..];
  }

  /** A write appends its line and loses nothing but, on rotation, the lines of the last slot. */
  lemma WriteKeepsSuffix(files: Files, maxBytes: int, line: string)
    requires files != []
    ensures var dropped := Dropped(files, maxBytes, line);
            && dropped <= |Retained(files)|
            && Retained(Written(files, maxBytes, line)) == Retained(files)[dropped..] + [line]
  {
    OldestFirst(files);
    if Size(files[0]) + |line| + 1 <= maxBytes {
      RetainedHead(files, files[0] + [line]);
      Associative(Retained(files[1..]), files[0], [line]);
      assert Retained(files)[0..] == Retained(files);
    } else {
      RetainedHead(Rotated(files), [line]);
      assert Rotated(files)[1..] == files[..|files| - 1];
      hide Retained, Size;
      assert Retained(files)[|files[|files| - 1]|..] == Retained(files[..|files| - 1]);
    }
  }

  lemma WriteStaysBounded(files: Files, maxBytes: int, line: string)
    requires files != [] && Bounded(files, maxBytes)
    ensures Bounded(Written(files, maxBytes, line), maxBytes)
  {
    SizeSnoc(files[0], line);
    hide Size;
    var after := Written(files, maxBytes, line);
    forall j | 0 <= j < |after| ensures FileOk(after[j], maxBytes) {
      assert j > 0 ==> after[j] == files[j] || after[j] == files[j - 1];
    }
  }

  // ----- replay -----

  /** The scanner's 1 MiB token limit. */
  predicate TooLong(line: string) { |line| + 1 > 1048576 }

  /** strings.TrimRight(line, "\\r\\n") on a line without newline. */
  function TrimCR(line: string): string
  {
    if line != "" && line[|line| - 1] == '\r' then TrimCR(line[..|line| - 1]) else line
  }

  /** What the sink is given for these lines: trimmed, and blank ones skipped. */
  function Messages(lines: seq<string>): seq<string>
  {
    if lines == [] then []
    else
      var m := TrimCR(lines[|lines| - 1]);
      Messages(lines[..|lines| - 1]) + (if m == "" then [] else [m])
  }

  /** A line that survives the round trip. */
  predicate Plain(line: string) { line != "" && line[|line| - 1] != '\r' }

  lemma {:induction false} MessagesConcat(a: seq<string>, b: seq<string>)
    ensures Messages(a + b) == Messages(a) + Messages(b)
  {
    if b == [] {
      assert a + b == a;
    } else {
      var n := |b| - 1;
      assert (a + b)[..|a + b| - 1] == a + b[..n];
      MessagesConcat(a, b[..n]);
    }
  }

  lemma {:induction false} TrimShrinks(line: string)
    ensures |TrimCR(line)| <= |line| && (TrimCR(line) == line <==> line == "" || line[|line| - 1] != '\r')
  {
    if line != "" && line[|line| - 1] == '\r' {
      TrimShrinks(line[..|line| - 1]);
    }
  }

  /** Trimming takes away the carriage returns at the end, all of them and nothing else. */
  lemma {:induction false} TrimExact(line: string)
    ensures var t := TrimCR(line);
            && t <= line && (t == "" || t[|t| - 1] != '\r')
            && forall i | |t| <= i < |line| :: line[i] == '\r'
  {
    if line != "" && line[|line| - 1] == '\r' {
      TrimExact(line[..|line| - 1]);
    }
  }

  /** The messages of a file, line by line: a line gives its trimmed text, or nothing if that is empty. */
  lemma MessagesSnoc(lines: seq<string>, line: string)
    ensures Messages(lines + [line]) == Messages(lines) + (if TrimCR(line) == "" then [] else [TrimCR(line)])
  {
    assert (lines + [line])[..|lines|] == lines;
    hide TrimCR;
  }

  lemma {:induction false} MessagesShrink(lines: seq<string>)
    ensures |Messages(lines)| <= |lines|
  {
    if lines != [] {
      MessagesShrink(lines[..|lines| - 1]);
    }
  }

  /** A line is handed over as itself exactly when it is plain. */
  lemma PlainLine(line: string)
    ensures Plain(line) <==> TrimCR(line) == line != ""
  {
    TrimShrinks(line);
    hide TrimCR;
  }

  lemma SnocEqual(a: seq<string>, b: seq<string>, init: seq<string>, last: string)
    requires |a| <= |init| && |b| <= 1
    ensures a + b == init + [last] <==> a == init && b == [last]
  {
    if a + b == init + [last] {
      assert |a| + |b| == |init| + 1;
      assert a == (a + b)[..|init|] && init == (init + [last])[..|init|];
      assert b[0] == (a + b)[|init|];
    }
  }

  predicate AllPlain(lines: seq<string>) { forall i | 0 <= i < |lines| :: Plain(lines[i]) }

  /** Replay hands over the stored lines unchanged exactly when all of them are plain. */
  lemma {:induction false} MessagesFaithful(lines: seq<string>)
    ensures Messages(lines) == lines <==> AllPlain(lines)
  {
    if lines != [] {
      var n := |lines| - 1;
      var m := TrimCR(lines[n]);
      MessagesFaithful(lines[..n]);
      MessagesShrink(lines[..n]);
      PlainLine(lines[n]);
      assert AllPlain(lines) <==> AllPlain(lines[..n]) && Plain(lines[n]);
      assert lines == lines[..n] + [lines[n]];
      SnocEqual(Messages(lines[..n]), if m == "" then [] else [m], lines[..n], lines[n]);
      assert Messages(lines) == Messages(lines[..n]) + (if m == "" then [] else [m]);
    }
    hide AllPlain, Plain, TrimCR;
  }

  /** replayFile against a sink that accepts `budget` more messages: what was delivered, and whether
      the whole file was. */
  function ReplayedFile(lines: seq<string>, budget: nat): (seq<string>, bool)
  {
    if lines == [] then ([], true)
    else
      var n := |lines| - 1;
      var (sent, ok) := ReplayedFile(lines[..n], budget);
      var m := TrimCR(lines[n]);
      if !ok || TooLong(lines[n]) then (sent, false)
      else if m == "" then (sent, true)
      else if |sent| == budget then (sent, false)
      else (sent + [m], true)
  }

  lemma {:induction false} ReplayedFileLaw(lines: seq<string>, budget: nat)
    ensures var (sent, ok) := ReplayedFile(lines, budget);
            && |sent| <= budget && sent <= Messages(lines)
            && (ok ==> sent == Messages(lines))
            && (ok <==> |Messages(lines)| <= budget && forall i | 0 <= i < |lines| :: |lines[i]| < 1048576)
  {
    if lines != [] {
      var n := |lines| - 1;
      ReplayedFileLaw(lines[..n], budget);
      assert forall i | 0 <= i < n :: lines[..n][i] == lines[i];
      hide TrimCR;
      var (sent, ok) := ReplayedFile(lines[..n], budget);
      var m := TrimCR(lines[n]);
      assert Messages(lines) == Messages(lines[..n]) + (if m == "" then [] else [m]);
      assert Messages(lines[..n]) + [] == Messages(lines[..n]);
    }
  }

  /** ReplayTo: from the oldest slot down, each file is handed over and then removed; the first
      failure leaves its file and all newer ones in place. */
  function Replayed(files: Files, budget: nat): (Files, seq<string>, bool)
  {
    if files == [] then ([], [], true)
    else
      var n := |files| - 1;
      var (sent, ok) := ReplayedFile(files[n], budget);
      if !ok then (files, sent, false)
      else
        var (rest, more, fine) := Replayed(files[..n], if |sent| <= budget then budget - |sent| else 0);
        (rest + [[]], sent + more, fine)
  }

  lemma {:induction false} RetainedEmptyTop(files: Files)
    ensures Retained(files + [[]]) == Retained(files)
  {
    OldestFirst(files + [[]]);
    assert (files + [[]])[..|files|] == files;
    assert [] + Retained(files) == Retained(files);
  }

  /** How many lines a replay removed from the store. */
  function Removed(files: Files, budget: nat): nat
  {
    if files == [] then 0
    else
      var n := |files| - 1;
      var (sent, ok) := ReplayedFile(files[n], budget);
      if !ok then 0 else |files[n]| + Removed(files[..n], if |sent| <= budget then budget - |sent| else 0)
  }

  /** A replay removes a prefix of the stored lines, and everything removed was handed over, in
      order; if it succeeds, all of it was and nothing else. */
  lemma {:induction false} ReplayLaw(files: Files, budget: nat)
    ensures var (rest, sent, ok) := Replayed(files, budget); var k := Removed(files, budget);
            && |rest| == |files| && k <= |Retained(files)|
            && Retained(rest) == Retained(files)[k..]
            && Messages(Retained(files)[..k]) <= sent <= Messages(Retained(files))
            && (ok ==> k == |Retained(files)| && sent == Messages(Retained(files)))
  {
    hide Messages, ReplayedFile;
    NoMessages();
    if files != [] {
      var n := |files| - 1;
      OldestFirst(files);
      ReplayedFileLaw(files[n], budget);
      MessagesConcat(files[n], Retained(files[..n]));
      var (sent, ok) := ReplayedFile(files[n], budget);
      if ok {
        var left := budget - |sent|;
        ReplayLaw(files[..n], left);
        var (rest, more, fine) := Replayed(files[..n], left);
        RetainedEmptyTop(rest);
        ReplayJoin(files[n], Retained(files[..n]), Removed(files[..n], left), more);
      } else {
        assert Retained(files)[..0] == [] && Retained(files)[0..] == Retained(files);
      }
    }
  }

  lemma NoMessages()
    ensures Messages([]) == []
  {
  }

  lemma ReplayJoin(top: seq<string>, below: seq<string>, k: nat, more: seq<string>)
    requires k <= |below| && Messages(below[..k]) <= more <= Messages(below)
    ensures (top + below)[|top| + k..] == below[k..]
    ensures Messages((top + below)[..|top| + k]) <= Messages(top) + more <= Messages(top) + Messages(below)
  {
    assert (top + below)[..|top| + k] == top + below[..k];
    MessagesConcat(top, below[..k]);
  }

  /** The class invariant ties the cached handle and size to the files. */
  class SpillManager {
    const maxBytes: int
    const rotations: nat
    var files: Files
    var open: bool
    var fileSize: nat

    constructor (maxBytes: int, rotations: nat, files: Files)
      requires |files| == rotations + 1
      ensures this.maxBytes == maxBytes && this.rotations == rotations && this.files == files && Valid()
    {
      this.maxBytes, this.rotations, this.files := maxBytes, rotations, files;
      open, fileSize := false, 0;
    }

    ghost predicate Valid()
      reads this
    {
      |files| == rotations + 1 && (open ==> fileSize == Size(files[0]))
    }

    /** rotateLocked: remove the oldest, then rename from the top down. */
    method Rotate()
      requires Valid()
      modifies this
      ensures Valid() && !open && files == Rotated(old(files))
    {
      open, fileSize := false, 0;
      ghost var before := files;
      files := files[rotations := []];
      var i := rotations;
      while i > 0
        invariant 0 <= i <= rotations && |files| == rotations + 1 && files[i] == [] && !open
        invariant forall j | 0 <= j < i :: files[j] == before[j]
        invariant forall j | i < j <= rotations :: files[j] == before[j - 1]
      {
        i := i - 1;
        files := files[i + 1 := files[i]][i := []];
      }
      assert files == Rotated(before);
    }

    /** ensureCurrentLocked and the write: open slot 0, rotate if the line does not fit, append. */
    method WriteLine(message: string)
      requires Valid() && '\n' !in message
      modifies this
      ensures Valid() && files == Written(old(files), maxBytes, message)
    {
      WrittenCases(files, maxBytes, message);
      hide Written, Rotated, Size;
      if !open {
        open, fileSize := true, Size(files[0]);
      }
      if fileSize + |message| + 1 > maxBytes {
        Rotate();
        files := files[0 := []];
        open, fileSize := true, 0;
      }
      SizeSnoc(files[0], message);
      fileSize := fileSize + |message| + 1;
      files := files[0 := files[0] + [message]];
    }

    /** replayFile: scan, trim, skip blanks, hand over. */
    method ReplayFile(slot: nat, budget: nat) returns (sent: seq<string>, ok: bool)
      requires Valid() && slot <= rotations
      ensures (sent, ok) == ReplayedFile(files[slot], budget)
    {
      var lines := files[slot];
      sent := [];
      for i := 0 to |lines|
        invariant (sent, true) == ReplayedFile(lines[..i], budget)
      {
        assert lines[..i + 1][..i] == lines[..i];
        if TooLong(lines[i]) {
          ReplayStops(lines, budget, i + 1);
          return sent, false;
        }
        var message := TrimCR(lines[i]);
        if message == "" { continue; }
        if |sent| == budget {
          ReplayStops(lines, budget, i + 1);
          return sent, false;
        }
        sent := sent + [message];
      }
      assert lines[..|lines|] == lines;
      ok := true;
    }

    /** ReplayTo: close the current file, then hand over and remove each file, oldest first. */
    method ReplayTo(budget: nat) returns (sent: seq<string>, ok: bool)
      requires Valid()
      modifies this
      ensures Valid() && !open && (files, sent, ok) == Replayed(old(files), budget)
    {
      open, fileSize := false, 0;
      ghost var before := files;
      sent := [];
      var i := rotations + 1;
      ReplayBegins(before, budget);
      assert before[..i] == before && files[i..] == [];
      hide ReplaySoFar, Replayed, ReplayedFile;
      while i > 0
        invariant 0 <= i <= rotations + 1 && |files| == rotations + 1 && !open
        invariant files[..i] == before[..i]
        invariant ReplaySoFar(before, budget, i, sent, files[i..])
      {
        ghost var upper := files[i..];
        SentFits(before, budget, i, sent, upper);
        i := i - 1;
        SlotLeft(files, before, i);
        var more, fine := ReplayFile(i, budget - |sent|);
        if !fine {
          ReplayFails(before, budget, i, sent, more, upper);
          return sent + more, false;
        }
        ReplayLoop(before, budget, i, sent, more, upper);
        sent := sent + more;
        files := files[i := []];
      }
      ReplayEnds(before, budget, sent, files);
      assert files[0..] == files;
      ok := true;
    }
  }

  lemma SlotLeft(files: Files, before: Files, i: nat)
    requires i < |files| == |before| && files[..i + 1] == before[..i + 1]
    ensures files[i] == before[i] && files == before[..i + 1] + files[i + 1..]
    ensures files[i := []][..i] == before[..i] && files[i := []][i..] == [[]] + files[i + 1..]
  {
    assert files[..i + 1][i] == files[i] && before[..i + 1][i] == before[i];
    assert files[..i + 1][..i] == files[..i] && before[..i + 1][..i] == before[..i];
  }

  /** The replay has dealt with the slots from `i` up: `sent` was handed over, `upper` is left. */
  ghost predicate ReplaySoFar(before: Files, budget: nat, i: nat, sent: seq<string>, upper: Files)
  {
    && i <= |before| && |sent| <= budget
    && Replayed(before, budget) ==
         var (rest, more, fine) := Replayed(before[..i], budget - |sent|); (rest + upper, sent + more, fine)
  }

  lemma SentFits(before: Files, budget: nat, i: nat, sent: seq<string>, upper: Files)
    requires ReplaySoFar(before, budget, i, sent, upper)
    ensures |sent| <= budget
  {
  }

  lemma ReplayBegins(before: Files, budget: nat)
    ensures ReplaySoFar(before, budget, |before|, [], [])
  {
    assert before[..|before|] == before;
    var (rest, more, fine) := Replayed(before, budget);
    assert rest + [] == rest && [] + more == more;
  }

  lemma ReplayEnds(before: Files, budget: nat, sent: seq<string>, upper: Files)
    requires ReplaySoFar(before, budget, 0, sent, upper)
    ensures Replayed(before, budget) == (upper, sent, true)
  {
    assert before[..0] == [] && [] + upper == upper && sent + [] == sent;
  }

  lemma ReplayFails(before: Files, budget: nat, i: nat, sent: seq<string>, more: seq<string>, upper: Files)
    requires i < |before| && ReplaySoFar(before, budget, i + 1, sent, upper)
    requires ReplayedFile(before[i], budget - |sent|) == (more, false)
    ensures Replayed(before, budget) == (before[..i + 1] + upper, sent + more, false)
  {
    var pre := before[..i + 1];
    assert pre[i] == before[i];
  }

  lemma {:induction false} ReplayStops(lines: seq<string>, budget: nat, k: nat)
    requires k <= |lines| && !ReplayedFile(lines[..k], budget).1
    ensures ReplayedFile(lines, budget) == ReplayedFile(lines[..k], budget)
    decreases |lines| - k
  {
    if k == |lines| {
      assert lines[..k] == lines;
    } else {
      assert lines[..k + 1][..k] == lines[..k];
      ReplayStops(lines, budget, k + 1);
    }
  }

  lemma ReplayLoop(before: Files, budget: nat, i: nat, sent: seq<string>, more: seq<string>, upper: Files)
    requires i < |before| && ReplaySoFar(before, budget, i + 1, sent, upper)
    requires ReplayedFile(before[i], budget - |sent|) == (more, true)
    ensures ReplaySoFar(before, budget, i, sent + more, [[]] + upper)
  {
    ReplayedFileLaw(before[i], budget - |sent|);
    var pre := before[..i + 1];
    assert pre[..i] == before[..i] && pre[i] == before[i];
    var (rest, m, fine) := Replayed(before[..i], budget - |sent| - |more|);
    assert Replayed(pre, budget - |sent|) == (rest + [[]], more + m, fine);
    hide Replayed, ReplayedFile;
    Associative(sent, more, m);
    assert (rest + [[]]) + upper == rest + ([[]] + upper);
  }

  // ----- whole runs -----

  datatype Op = Write(line: string) | Replay(budget: nat)

  datatype Fate = RotatedOut | Delivered

  function Fates(k: nat, fate: Fate): (fates: seq<Fate>)
    ensures |fates| == k && forall i | 0 <= i < k :: fates[i] == fate
  {
    seq(k, _ => fate)
  }

  /** The log with its history: every line written, the fate of those no longer stored, and
      everything the sink accepted. */
  datatype History = History(files: Files, written: seq<string>, gone: seq<Fate>, sink: seq<string>)

  function Step(h: History, maxBytes: int, op: Op): History
    requires h.files != []
  {
    match op
    case Write(line) =>
      History(Written(h.files, maxBytes, line), h.written + [line],
              h.gone + Fates(Dropped(h.files, maxBytes, line), RotatedOut), h.sink)
    case Replay(budget) =>
      var (files, sent, _) := Replayed(h.files, budget);
      History(files, h.written, h.gone + Fates(Removed(h.files, budget), Delivered), h.sink + sent)
  }

  /** The lines that left the store by delivery, in the order they were written. */
  function DeliveredLines(written: seq<string>, gone: seq<Fate>): seq<string>
    requires |gone| <= |written|
  {
    if gone == [] then []
    else
      var n := |gone| - 1;
      DeliveredLines(written, gone[..n]) + (if gone[n].Delivered? then [written[n]] else [])
  }

  /** The sink got every delivered line once for itself, in order, and nothing that was not written. */
  ghost predicate SinkOk(written: seq<string>, gone: seq<Fate>, sink: seq<string>)
    requires |gone| <= |written|
  {
    && SubsequenceOf(Messages(DeliveredLines(written, gone)), sink)
    && forall m | m in sink :: m in Messages(written)
  }

  /** Contiguity, the size bound, and delivery of everything that left other than by rotation. */
  ghost predicate Good(h: History, maxBytes: int, slots: nat)
  {
    && |h.files| == slots && Bounded(h.files, maxBytes)
    && |h.gone| <= |h.written| && Retained(h.files) == h.written[|h.gone|..]
    && SinkOk(h.written, h.gone, h.sink)
  }

  lemma {:induction false} DeliveredPrefix(written: seq<string>, more: seq<string>, gone: seq<Fate>)
    requires |gone| <= |written|
    ensures DeliveredLines(written + more, gone) == DeliveredLines(written, gone)
  {
    if gone != [] {
      DeliveredPrefix(written, more, gone[..|gone| - 1]);
    }
  }

  /** `k` more lines that all met the same fate. */
  lemma {:induction false} DeliveredMore(written: seq<string>, gone: seq<Fate>, k: nat, fate: Fate)
    requires |gone| + k <= |written|
    ensures DeliveredLines(written, gone + Fates(k, fate)) ==
              DeliveredLines(written, gone) + (if fate.Delivered? then written[|gone|..|gone| + k] else [])
  {
    var all := gone + Fates(k, fate);
    if k == 0 {
      assert all == gone;
    } else {
      var fewer := gone + Fates(k - 1, fate);
      assert all[..|all| - 1] == fewer && all[|all| - 1] == fate;
      DeliveredMore(written, gone, k - 1, fate);
      var n := |gone| + k - 1;
      assert written[|gone|..n + 1] == written[|gone|..n] + [written[n]];
    }
  }

  lemma WriteSink(written: seq<string>, gone: seq<Fate>, sink: seq<string>, line: string, dropped: nat)
    requires |gone| + dropped <= |written| && SinkOk(written, gone, sink)
    ensures SinkOk(written + [line], gone + Fates(dropped, RotatedOut), sink)
  {
    DeliveredPrefix(written, [line], gone);
    DeliveredMore(written + [line], gone, dropped, RotatedOut);
    MessagesConcat(written, [line]);
    hide DeliveredLines, Messages, SubsequenceOf;
    assert DeliveredLines(written, gone) + [] == DeliveredLines(written, gone);
  }

  lemma ReplaySink(written: seq<string>, gone: seq<Fate>, sink: seq<string>, k: nat, sent: seq<string>)
    requires |gone| + k <= |written| && SinkOk(written, gone, sink)
    requires Messages(written[|gone|..|gone| + k]) <= sent <= Messages(written[|gone|..])
    ensures SinkOk(written, gone + Fates(k, Delivered), sink + sent)
  {
    hide DeliveredLines, Messages, SubsequenceOf;
    var n := |gone|;
    var before, now := DeliveredLines(written, gone), written[n..n + k];
    DeliveredMore(written, gone, k, Delivered);
    MessagesConcat(before, now);
    SubsequenceJoin(Messages(before), sink, Messages(now), sent);
    SuffixMessages(written, n, sent);
  }

  lemma SuffixMessages(written: seq<string>, n: nat, sent: seq<string>)
    requires n <= |written| && sent <= Messages(written[n..])
    ensures forall m | m in sent :: m in Messages(written)
  {
    MessagesConcat(written[..n], written[n..]);
    hide Messages;
    assert written == written[..n] + written[n..];
  }

  lemma WriteStep(h: History, maxBytes: int, slots: nat, line: string)
    requires slots > 0 && Good(h, maxBytes, slots)
    ensures Good(Step(h, maxBytes, Write(line)), maxBytes, slots)
  {
    var h' := Step(h, maxBytes, Write(line));
    var dropped := Dropped(h.files, maxBytes, line);
    WriteKeepsSuffix(h.files, maxBytes, line);
    WriteStaysBounded(h.files, maxBytes, line);
    hide Written, Dropped, Retained, Bounded, SinkOk;
    assert h.written[|h.gone|..][dropped..] == h.written[|h.gone| + dropped..];
    assert h'.written[|h'.gone|..] == h.written[|h.gone| + dropped..] + [line];
    WriteSink(h.written, h.gone, h.sink, line, dropped);
  }

  lemma ReplayBounded(files: Files, budget: nat, maxBytes: int)
    requires Bounded(files, maxBytes)
    ensures Bounded(Replayed(files, budget).0, maxBytes) && |Replayed(files, budget).0| == |files|
  {
    if files != [] {
      var n := |files| - 1;
      var (sent, ok) := ReplayedFile(files[n], budget);
      if ok {
        ReplayBounded(files[..n], if |sent| <= budget then budget - |sent| else 0, maxBytes);
        EmptyIsOk(maxBytes);
      }
    }
  }

  lemma EmptyIsOk(maxBytes: int)
    ensures FileOk([], maxBytes)
  {
  }

  lemma ReplayStep(h: History, maxBytes: int, slots: nat, budget: nat)
    requires slots > 0 && Good(h, maxBytes, slots)
    ensures Good(Step(h, maxBytes, Replay(budget)), maxBytes, slots)
  {
    hide *;
    GoodParts(h, maxBytes, slots);
    ReplayEffect(h, maxBytes, budget);
    var h' := Step(h, maxBytes, Replay(budget));
    var k, n := Removed(h.files, budget), |h.gone|;
    SliceSlice(h.written, n, k);
    ReplaySink(h.written, h.gone, h.sink, k, h'.sink[|h.sink|..]);
    GoodIf(h', maxBytes, slots);
  }

  /** What a replay does to the history, in terms of the stored lines. */
  lemma ReplayEffect(h: History, maxBytes: int, budget: nat)
    requires h.files != [] && Bounded(h.files, maxBytes)
    ensures var h' := Step(h, maxBytes, Replay(budget)); var k := Removed(h.files, budget);
            var all := Retained(h.files);
            && h'.written == h.written && h'.gone == h.gone + Fates(k, Delivered)
            && |h'.files| == |h.files| && Bounded(h'.files, maxBytes)
            && k <= |all| && Retained(h'.files) == all[k..]
            && h.sink <= h'.sink && h'.sink == h.sink + h'.sink[|h.sink|..]
            && Messages(all[..k]) <= h'.sink[|h.sink|..] <= Messages(all)
  {
    ReplayLaw(h.files, budget);
    ReplayBounded(h.files, budget, maxBytes);
    hide Replayed, Removed, Retained, Bounded, Messages;
    var sent := Replayed(h.files, budget).1;
    assert (h.sink + sent)[|h.sink|..] == sent;
  }

  lemma GoodParts(h: History, maxBytes: int, slots: nat)
    requires Good(h, maxBytes, slots)
    ensures |h.files| == slots && Bounded(h.files, maxBytes)
    ensures |h.gone| <= |h.written| && Retained(h.files) == h.written[|h.gone|..]
    ensures SinkOk(h.written, h.gone, h.sink)
  {
  }

  lemma GoodIf(h: History, maxBytes: int, slots: nat)
    requires |h.files| == slots && Bounded(h.files, maxBytes)
    requires |h.gone| <= |h.written| && Retained(h.files) == h.written[|h.gone|..]
    requires SinkOk(h.written, h.gone, h.sink)
    ensures Good(h, maxBytes, slots)
  {
  }

  lemma SliceSlice(xs: seq<string>, n: nat, k: nat)
    requires n + k <= |xs|
    ensures xs[n..][k..] == xs[n + k..] && xs[n..][..k] == xs[n..n + k]
  {
  }

  function Run(h: History, maxBytes: int, ops: seq<Op>): History
    requires h.files != []
    decreases |ops|
  {
    if ops == [] then h
    else var h' := Step(h, maxBytes, ops[0]); if h'.files == [] then h' else Run(h', maxBytes, ops[1..])
  }

  /** Over any sequence of writes and replays: the stored lines, read oldest to newest, are a
      contiguous suffix of all lines written; the lines that left were rotated past the last slot, or
      delivered, each at its own place in the sink and in the order of writing; the sink got nothing
      that was not written; and every file stays within its bound. */
  lemma {:induction false} RunGood(h: History, maxBytes: int, slots: nat, ops: seq<Op>)
    requires slots > 0 && Good(h, maxBytes, slots)
    ensures Good(Run(h, maxBytes, ops), maxBytes, slots)
    decreases |ops|
  {
    if ops != [] {
      match ops[0] {
        case Write(line) => WriteStep(h, maxBytes, slots, line);
        case Replay(budget) => ReplayStep(h, maxBytes, slots, budget);
      }
      RunGood(Step(h, maxBytes, ops[0]), maxBytes, slots, ops[1..]);
    }
  }
}
