/** Incremental tailing of session files (backend/activity_claude_tailer.py): each pass reads
    the complete lines after a checkpoint, numbers the non-blank ones and moves the checkpoint. */
module Tailer {
  import opened Common

  /** Raw bytes; only the newline is told apart. */
  type Bytes = seq<int>

  const NEWLINE := 10

  datatype Checkpoint = Checkpoint(offset: nat, nextSeq: nat)

  const BEGIN := Checkpoint(0, 1)

  /** A line handed on, with its sequence number. */
  datatype Emitted = Emitted(seqNo: nat, line: Bytes)

  datatype Tail = Tail(lines: seq<Emitted>, end: Checkpoint)

  /** Whether a line is blank once decoded and stripped. */
  type Blank = Bytes -> bool

  function FindNewline(data: Bytes, from: nat): (r: Option<nat>)
    requires from <= |data|
    ensures r.Some? ==> from <= r.value < |data| && data[r.value] == NEWLINE
    ensures r.Some? ==> forall i | from <= i < r.value :: data[i] != NEWLINE
    ensures r.None? ==> forall i | from <= i < |data| :: data[i] != NEWLINE
    decreases |data| - from
  {
    if from == |data| then None
    else if data[from] == NEWLINE then Some(from)
    else FindNewline(data, from + 1)
  }

  /** What a line hands on: nothing when it is blank. */
  function Kept(line: Bytes, seqNo: nat, blank: Blank): seq<Emitted> {
    if blank(line) then [] else [Emitted(seqNo, line)]
  }

  function TailFrom(data: Bytes, at: Checkpoint, blank: Blank): (r: Tail)
    requires at.offset <= |data|
    ensures at.offset <= r.end.offset <= |data|
    decreases |data| - at.offset
  {
    match FindNewline(data, at.offset)
    case None => Tail([], at)
    case Some(i) =>
      var kept := Kept(data[at.offset..i + 1], at.nextSeq, blank);
      var rest := TailFrom(data, Checkpoint(i + 1, at.nextSeq + |kept|), blank);
      Tail(kept + rest.lines, rest.end)
  }

  lemma TailUnfolds(data: Bytes, at: Checkpoint, blank: Blank)
    requires at.offset <= |data|
    ensures var r := FindNewline(data, at.offset);
            r.None? ==> TailFrom(data, at, blank) == Tail([], at)
    ensures var r := FindNewline(data, at.offset);
            r.Some? ==>
              var kept := Kept(data[at.offset..r.value + 1], at.nextSeq, blank);
              var rest := TailFrom(data, Checkpoint(r.value + 1, at.nextSeq + |kept|), blank);
              TailFrom(data, at, blank) == Tail(kept + rest.lines, rest.end)
  {
  }

  /** A pass over one file; a file shorter than its checkpoint is read from the start. */
  function PassFile(data: Bytes, at: Checkpoint, blank: Blank): Tail {
    TailFrom(data, if |data| < at.offset then Checkpoint(0, at.nextSeq) else at, blank)
  }

  type Checkpoints = map<string, Checkpoint>

  function CheckpointOf(cps: Checkpoints, path: string): Checkpoint {
    if path in cps then cps[path] else BEGIN
  }

  /** A line of a file, as handed on by a pass over several files. */
  type Handed = (string, Emitted)

  function Label(path: string, lines: seq<Emitted>): seq<Handed> {
    seq(|lines|, i requires 0 <= i < |lines| => (path, lines[i]))
  }

  /** The readable session files of a pass in order of discovery. */
  type Files = seq<(string, Bytes)>

  datatype Pass = Pass(handed: seq<Handed>, checkpoints: Checkpoints)

  function PassFiles(files: Files, cps: Checkpoints, blank: Blank): Pass {
    if files == [] then Pass([], cps)
    else
      var before := PassFiles(files[..|files| - 1], cps, blank);
      var (path, data) := files[|files| - 1];
      var at := CheckpointOf(before.checkpoints, path);
      var tail := PassFile(data, at, blank);
      Pass(before.handed + Label(path, tail.lines),
           if tail.end != at then before.checkpoints[path := tail.end] else before.checkpoints)
  }

  class ClaudeSessionTailer {
    var checkpoints: Checkpoints

    constructor ()
      ensures checkpoints == map[]
    {
      checkpoints := map[];
    }

    method TailOnce(files: Files, blank: Blank) returns (handed: seq<Handed>)
      modifies this
      ensures Pass(handed, checkpoints) == PassFiles(files, old(checkpoints), blank)
    {
      handed := [];
      for k := 0 to |files|
        invariant Pass(handed, checkpoints) == PassFiles(files[..k], old(checkpoints), blank)
      {
        assert files[..k + 1][..k] == files[..k];
        var (path, data) := files[k];
        var state := CheckpointOf(checkpoints, path);
        var lines, end := TailFile(data, state, blank);
        handed := handed + Label(path, lines);
        if end != state {
          checkpoints := checkpoints[path := end];
        }
      }
      assert files[..|files|] == files;
    }

    static method TailFile(data: Bytes, state: Checkpoint, blank: Blank) returns (lines: seq<Emitted>, end: Checkpoint)
      ensures Tail(lines, end) == PassFile(data, state, blank)
    {
      var cursor: nat := if |data| < state.offset then 0 else state.offset;
      var nextSeq: nat := state.nextSeq;
      lines := [];
      Unread(data, Checkpoint(cursor, nextSeq), blank);
      ghost var whole := PassFile(data, state, blank);
      hide *;
      while cursor < |data|
        invariant cursor <= |data| && Reached(data, lines, Checkpoint(cursor, nextSeq), whole, blank)
        decreases |data| - cursor
      {
        ReadOn(data, lines, Checkpoint(cursor, nextSeq), whole, blank);
        var newline := FindNewline(data, cursor);
        if newline.None? {
          break;
        }
        var line := data[cursor..newline.value + 1];
        cursor := newline.value + 1;
        if blank(line) {
          continue;
        }
        lines := lines + [Emitted(nextSeq, line)];
        nextSeq := nextSeq + 1;
      }
      ReadOn(data, lines, Checkpoint(cursor, nextSeq), whole, blank);
      end := Checkpoint(cursor, nextSeq);
    }
  }

  /** Having handed on some lines and stopping at a checkpoint, what is left makes up the whole pass. */
  ghost predicate Reached(data: Bytes, lines: seq<Emitted>, at: Checkpoint, whole: Tail, blank: Blank) {
    at.offset <= |data| &&
    var rest := TailFrom(data, at, blank);
    whole == Tail(lines + rest.lines, rest.end)
  }

  lemma Unread(data: Bytes, at: Checkpoint, blank: Blank)
    requires at.offset <= |data|
    ensures Reached(data, [], at, TailFrom(data, at, blank), blank)
  {
    assert [] + TailFrom(data, at, blank).lines == TailFrom(data, at, blank).lines;
  }

  lemma ReadOn(data: Bytes, lines: seq<Emitted>, at: Checkpoint, whole: Tail, blank: Blank)
    requires at.offset <= |data| && Reached(data, lines, at, whole, blank)
    ensures FindNewline(data, at.offset).None? ==> whole == Tail(lines, at)
    ensures FindNewline(data, at.offset).Some? ==>
              var next := FindNewline(data, at.offset).value + 1;
              if blank(data[at.offset..next]) then Reached(data, lines, Checkpoint(next, at.nextSeq), whole, blank)
              else Reached(data, lines + [Emitted(at.nextSeq, data[at.offset..next])],
                           Checkpoint(next, at.nextSeq + 1), whole, blank)
  {
    hide TailFrom, FindNewline;
    TailUnfolds(data, at, blank);
    var r := FindNewline(data, at.offset);
    assert lines + [] == lines;
    if r.Some? {
      var kept := Kept(data[at.offset..r.value + 1], at.nextSeq, blank);
      var rest := TailFrom(data, Checkpoint(r.value + 1, at.nextSeq + |kept|), blank);
      Append(lines, kept, rest.lines);
    }
  }

  // ---------------------------------------------------------------- one file

  /** Reading up to some length and then on gives the same as reading once. */
  lemma {:induction false} TailFromComposes(data: Bytes, n: nat, at: Checkpoint, blank: Blank)
    requires at.offset <= n <= |data|
    ensures var first := TailFrom(data[..n], at, blank);
            var rest := TailFrom(data, first.end, blank);
            TailFrom(data, at, blank) == Tail(first.lines + rest.lines, rest.end)
    decreases n - at.offset
  {
    hide FindNewline, TailFrom;
    var r := FindNewline(data[..n], at.offset);
    TailUnfolds(data[..n], at, blank);
    TailUnfolds(data, at, blank);
    if r.Some? {
      SameNewline(data, n, at.offset, r.value);
      var kept := Kept(data[at.offset..r.value + 1], at.nextSeq, blank);
      var next := Checkpoint(r.value + 1, at.nextSeq + |kept|);
      TailFromComposes(data, n, next, blank);
      var first := TailFrom(data[..n], next, blank);
      Append(kept, first.lines, TailFrom(data, first.end, blank).lines);
    }
  }

  lemma Append<T>(a: seq<T>, b: seq<T>, c: seq<T>)
    ensures (a + b) + c == a + (b + c)
  {
  }

  /** The first newline is the first one. */
  lemma NewlineIsFirst(data: Bytes, from: nat, i: nat)
    requires from <= i < |data| && data[i] == NEWLINE
    requires forall k | from <= k < i :: data[k] != NEWLINE
    ensures FindNewline(data, from) == Some(i)
  {
    var r := FindNewline(data, from);
  }

  lemma SameNewline(data: Bytes, n: nat, from: nat, i: nat)
    requires from <= n <= |data| && FindNewline(data[..n], from) == Some(i)
    ensures FindNewline(data, from) == Some(i) && i < n && data[..n][from..i + 1] == data[from..i + 1]
  {
    var shorter := data[..n];
    assert forall k | 0 <= k < n :: data[k] == shorter[k];
    NewlineIsFirst(data, from, i);
  }

  /** The checkpoint stands at the start of the file or just after a newline. */
  predicate AtLineStart(data: Bytes, offset: nat) {
    offset == 0 || (offset <= |data| && data[offset - 1] == NEWLINE)
  }

  lemma {:induction false} TailEndsAtLineStart(data: Bytes, at: Checkpoint, blank: Blank)
    requires at.offset <= |data| && AtLineStart(data, at.offset)
    ensures AtLineStart(data, TailFrom(data, at, blank).end.offset)
    ensures forall i | TailFrom(data, at, blank).end.offset <= i < |data| :: data[i] != NEWLINE
    decreases |data| - at.offset
  {
    match FindNewline(data, at.offset)
    case None =>
    case Some(i) =>
      var kept := Kept(data[at.offset..i + 1], at.nextSeq, blank);
      TailEndsAtLineStart(data, Checkpoint(i + 1, at.nextSeq + |kept|), blank);
  }

  /** The lines of a file: a reference without checkpoints or numbers. */
  function Flat(lines: seq<Bytes>): Bytes {
    if lines == [] then [] else lines[0] + Flat(lines[1..])
  }

  predicate IsLine(line: Bytes) {
    line != [] && line[|line| - 1] == NEWLINE && forall i | 0 <= i < |line| - 1 :: line[i] != NEWLINE
  }

  function NonBlank(lines: seq<Bytes>, blank: Blank): seq<Bytes> {
    if lines == [] then []
    else (if blank(lines[0]) then [] else [lines[0]]) + NonBlank(lines[1..], blank)
  }

  function Numbered(lines: seq<Bytes>, from: nat): seq<Emitted> {
    seq(|lines|, i requires 0 <= i < |lines| => Emitted(from + i, lines[i]))
  }

  /** However the text from the checkpoint on is written as complete lines and a rest
      without a newline, the pass hands on exactly the non-blank lines, numbered from the
      checkpoint's number, and leaves the rest. */
  lemma {:induction false} TailHandsOnEveryLine(
    data: Bytes, at: Checkpoint, lines: seq<Bytes>, rest: Bytes, blank: Blank)
    requires at.offset <= |data| && data[at.offset..] == Flat(lines) + rest
    requires (forall l :: l in lines ==> IsLine(l)) && forall i | 0 <= i < |rest| :: rest[i] != NEWLINE
    ensures var kept := NonBlank(lines, blank);
            TailFrom(data, at, blank)
            == Tail(Numbered(kept, at.nextSeq), Checkpoint(|data| - |rest|, at.nextSeq + |kept|))
    decreases |lines|
  {
    hide FindNewline, TailFrom, IsLine;
    TailUnfolds(data, at, blank);
    if lines == [] {
      NoLine(data, at.offset, rest);
    } else {
      var line := lines[0];
      var more := Flat(lines[1..]) + rest;
      assert data[at.offset..] == line + more;
      FirstLine(data, at.offset, line, more);
      hide Flat;
      var kept := Kept(line, at.nextSeq, blank);
      var after := Checkpoint(at.offset + |line|, at.nextSeq + |kept|);
      TailHandsOnEveryLine(data, after, lines[1..], rest, blank);
      NumberedAfter(line, NonBlank(lines[1..], blank), at.nextSeq, blank);
    }
  }

  lemma NumberedAfter(line: Bytes, more: seq<Bytes>, from: nat, blank: Blank)
    ensures var kept := Kept(line, from, blank);
            var all := (if blank(line) then [] else [line]) + more;
            Numbered(all, from) == kept + Numbered(more, from + |kept|) && |all| == |kept| + |more|
  {
  }

  /** Every text is some complete lines and a rest without a newline. */
  lemma SplitLines(data: Bytes) returns (lines: seq<Bytes>, rest: Bytes)
    ensures data == Flat(lines) + rest
    ensures (forall l :: l in lines ==> IsLine(l)) && forall i | 0 <= i < |rest| :: rest[i] != NEWLINE
  {
    var r := FindNewline(data, 0);
    if r.None? {
      lines, rest := [], data;
    } else {
      var line := data[..r.value + 1];
      var more;
      more, rest := SplitLines(data[r.value + 1..]);
      lines := [line] + more;
      assert data == line + data[r.value + 1..];
    }
  }

  lemma NoLine(data: Bytes, from: nat, rest: Bytes)
    requires from <= |data| && data[from..] == [] + rest && forall i | 0 <= i < |rest| :: rest[i] != NEWLINE
    ensures FindNewline(data, from).None? && |data| - |rest| == from
  {
    var text := data[from..];
    assert text == rest;
    assert forall k | from <= k < |data| :: data[k] == text[k - from];
  }

  lemma FirstLine(data: Bytes, from: nat, line: Bytes, more: Bytes)
    requires from <= |data| && data[from..] == line + more && IsLine(line)
    ensures FindNewline(data, from) == Some(from + |line| - 1)
    ensures data[from..from + |line|] == line && data[from + |line|..] == more
  {
    var text := data[from..];
    assert forall k | 0 <= k < |line| :: data[from + k] == text[k] == line[k];
    forall k | from <= k < from + |line| - 1 ensures data[k] != NEWLINE {
      assert data[from + (k - from)] == line[k - from];
    }
    assert data[from + (|line| - 1)] == line[|line| - 1];
    NewlineIsFirst(data, from, from + |line| - 1);
    assert data[from + |line|..] == text[|line|..];
  }

  // ---------------------------------------------------------------- many passes

  /** What was handed on for one file. */
  function For(handed: seq<Handed>, path: string): seq<Emitted> {
    if handed == [] then []
    else For(handed[..|handed| - 1], path)
         + if handed[|handed| - 1].0 == path then [handed[|handed| - 1].1] else []
  }

  lemma {:induction false} ForAppend(a: seq<Handed>, b: seq<Handed>, path: string)
    ensures For(a + b, path) == For(a, path) + For(b, path)
  {
    if b == [] {
      assert a + b == a;
    } else {
      var c := b[..|b| - 1];
      assert (a + b)[..|a + b| - 1] == a + c;
      ForAppend(a, c, path);
    }
  }

  lemma {:induction false} ForLabel(path: string, lines: seq<Emitted>, other: string)
    ensures For(Label(path, lines), other) == if path == other then lines else []
  {
    if lines != [] {
      var front := lines[..|lines| - 1];
      assert Label(path, lines)[..|lines| - 1] == Label(path, front);
      ForLabel(path, front, other);
      assert front + [lines[|lines| - 1]] == lines;
    }
  }

  /** What a file held when it was last read. */
  function Latest(readings: Files, path: string): Bytes {
    if readings == [] then []
    else if readings[|readings| - 1].0 == path then readings[|readings| - 1].1
    else Latest(readings[..|readings| - 1], path)
  }

  /** The file was only appended to between readings. */
  predicate Grows(readings: Files, path: string) {
    readings == [] ||
    (Grows(readings[..|readings| - 1], path)
     && (readings[|readings| - 1].0 == path ==> Latest(readings[..|readings| - 1], path) <= readings[|readings| - 1].1))
  }

  /** Passes one after another read like one pass over all their files. */
  lemma {:induction false} PassesJoin(a: Files, b: Files, cps: Checkpoints, blank: Blank)
    ensures var first := PassFiles(a, cps, blank);
            var second := PassFiles(b, first.checkpoints, blank);
            PassFiles(a + b, cps, blank) == Pass(first.handed + second.handed, second.checkpoints)
  {
    hide PassFile, Label;
    var first := PassFiles(a, cps, blank);
    if b == [] {
      assert a + b == a;
      assert first.handed + [] == first.handed;
    } else {
      var c := b[..|b| - 1];
      assert (a + b)[..|a + b| - 1] == a + c;
      PassesJoin(a, c, cps, blank);
      var second := PassFiles(c, first.checkpoints, blank);
      var (path, data) := b[|b| - 1];
      Append(first.handed, second.handed,
             Label(path, PassFile(data, CheckpointOf(second.checkpoints, path), blank).lines));
    }
  }

  /** Over any passes, cut at any lengths of a file that is only appended to and mixed with any
      other files, the lines handed on for the file and its checkpoint are those of one pass
      over what it held last. */
  lemma {:induction false} PassesAreOnePass(readings: Files, path: string, blank: Blank)
    requires Grows(readings, path)
    ensures var pass := PassFiles(readings, map[], blank);
            TailFrom(Latest(readings, path), BEGIN, blank)
            == Tail(For(pass.handed, path), CheckpointOf(pass.checkpoints, path))
  {
    if readings == [] {
      TailUnfolds([], BEGIN, blank);
    } else {
      var before := readings[..|readings| - 1];
      PassesAreOnePass(before, path, blank);
      hide TailFrom;
      ReadAgain(before, readings[|readings| - 1], path, blank);
      assert before + [readings[|readings| - 1]] == readings;
    }
  }

  lemma ReadAgain(before: Files, file: (string, Bytes), path: string, blank: Blank)
    requires file.0 == path ==> Latest(before, path) <= file.1
    requires var pass := PassFiles(before, map[], blank);
             TailFrom(Latest(before, path), BEGIN, blank)
             == Tail(For(pass.handed, path), CheckpointOf(pass.checkpoints, path))
    ensures var pass := PassFiles(before + [file], map[], blank);
            TailFrom(if file.0 == path then file.1 else Latest(before, path), BEGIN, blank)
            == Tail(For(pass.handed, path), CheckpointOf(pass.checkpoints, path))
  {
    var was := Latest(before, path);
    var pass := PassFiles(before, map[], blank);
    assert (before + [file])[..|before|] == before;
    var at := CheckpointOf(pass.checkpoints, file.0);
    var tail := PassFile(file.1, at, blank);
    var after := PassFiles(before + [file], map[], blank);
    assert after.handed == pass.handed + Label(file.0, tail.lines);
    ForAppend(pass.handed, Label(file.0, tail.lines), path);
    ForLabel(file.0, tail.lines, path);
    hide For, Label, PassFiles, Latest;
    if file.0 == path {
      assert file.1[..|was|] == was;
      TailFromComposes(file.1, |was|, BEGIN, blank);
      hide TailFrom;
    } else {
      assert For(pass.handed, path) + [] == For(pass.handed, path);
    }
  }

  /** Each complete non-blank line of a growing file is handed on exactly once, numbered 1, 2, 3
      and so on, and the checkpoint stands after the last newline. */
  lemma {:induction false} EveryLineExactlyOnce(
    readings: Files, path: string, lines: seq<Bytes>, rest: Bytes, blank: Blank)
    requires Grows(readings, path) && Latest(readings, path) == Flat(lines) + rest
    requires (forall l :: l in lines ==> IsLine(l)) && forall i | 0 <= i < |rest| :: rest[i] != NEWLINE
    ensures var pass := PassFiles(readings, map[], blank);
            var kept := NonBlank(lines, blank);
            For(pass.handed, path) == Numbered(kept, 1)
            && CheckpointOf(pass.checkpoints, path) == Checkpoint(|Flat(lines)|, 1 + |kept|)
  {
    var data := Latest(readings, path);
    assert data[0..] == data;
    PassesAreOnePass(readings, path, blank);
    TailHandsOnEveryLine(data, BEGIN, lines, rest, blank);
  }

  /** A file without a new complete line writes no checkpoint. */
  lemma QuietFilesWriteNothing(path: string, data: Bytes, cps: Checkpoints, blank: Blank)
    requires CheckpointOf(cps, path).offset <= |data|
    requires forall i | CheckpointOf(cps, path).offset <= i < |data| :: data[i] != NEWLINE
    ensures PassFiles([(path, data)], cps, blank) == Pass([], cps)
  {
    assert [(path, data)][..0] == [];
    assert FindNewline(data, CheckpointOf(cps, path).offset).None?;
    assert Label(path, []) == [];
  }

  /** A file shorter than its checkpoint is read again from its start, and its lines are numbered on. */
  lemma TruncatedFileStartsOver(data: Bytes, at: Checkpoint, more: Checkpoint, blank: Blank)
    requires |data| < at.offset && more.offset == 0 && more.nextSeq == at.nextSeq
    ensures PassFile(data, at, blank) == PassFile(data, more, blank)
  {
  }
}
