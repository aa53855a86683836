/**
 The audit log of internal/audit/audit.go: one record per line, appended under
 a lock by processes that may be killed at any step, to a file whose unsynced
 bytes may be torn by power loss.
 */
module Audit {
  const MAX_RECORD_BYTES := 65536

  const MAX_LOG_BYTES := 67108864

  const BLOCK_SIZE := 65536

  // ---- Framing ----

  /** The length up to and including the last newline; 0 without one. */
  function Complete(s: string): (n: nat)
    ensures n <= |s|
  {
    if s == "" || s[|s| - 1] == '\n' then |s| else Complete(s[..|s| - 1])
  }

  /** The boundary is where the last newline ends. */
  lemma {:induction false} CompleteIsAfterTheLastNewline(s: string)
    ensures Complete(s) == 0 || s[Complete(s) - 1] == '\n'
    ensures forall i | Complete(s) <= i < |s| :: s[i] != '\n'
  {
    if s != "" && s[|s| - 1] != '\n' { CompleteIsAfterTheLastNewline(s[..|s| - 1]); }
  }

  lemma {:induction false} TailHasNoNewline(s: string)
    ensures '\n' !in Tail(s)
  {
    CompleteIsAfterTheLastNewline(s);
  }

  /** What follows the last newline. */
  function Tail(s: string): string { s[Complete(s)..] }

  /** The complete records, oldest first. */
  function Lines(s: string): seq<string> {
    if s == "" then []
    else
      var front := s[..|s| - 1];
      if s[|s| - 1] == '\n' then Lines(front) + [Tail(front)] else Lines(front)
  }

  function Unlines(lines: seq<string>): string {
    if lines == [] then ""
    else Unlines(lines[..|lines| - 1]) + lines[|lines| - 1] + "\n"
  }

  ghost predicate OneLineEach(lines: seq<string>) {
    forall i | 0 <= i < |lines| :: '\n' !in lines[i]
  }

  /** Nothing without a newline moves the end of the complete part. */
  lemma {:induction false} CompleteStays(s: string, t: string)
    requires Complete(s) == |s| && '\n' !in t
    ensures Complete(s + t) == |s|
  {
    if t == "" {
      assert s + t == s;
    } else {
      assert (s + t)[..|s + t| - 1] == s + t[..|t| - 1];
      CompleteStays(s, t[..|t| - 1]);
    }
  }

  lemma {:induction false} CompleteOfComplete(s: string)
    ensures Complete(s[..Complete(s)]) == Complete(s)
  {
    CompleteIsAfterTheLastNewline(s);
  }

  /** A partial tail holds no record. */
  lemma {:induction false} LinesIgnoreTheTail(s: string)
    ensures Lines(s) == Lines(s[..Complete(s)])
  {
    if s != "" && s[|s| - 1] != '\n' {
      LinesIgnoreTheTail(s[..|s| - 1]);
      assert s[..|s| - 1][..Complete(s)] == s[..Complete(s)];
    } else {
      assert s[..|s|] == s;
    }
  }

  /** A newline makes the partial tail the last line. */
  lemma {:induction false} NewlineEndsALine(front: string)
    ensures Complete(front + "\n") == |front| + 1
    ensures Lines(front + "\n") == Lines(front) + [Tail(front)]
  {
    var t := front + "\n";
    assert t[|t| - 1] == '\n' && t[..|t| - 1] == front;
  }

  /** A record and its newline, appended to whole lines, is exactly one line more. */
  lemma {:induction false} OneMoreLine(s: string, record: string)
    requires Complete(s) == |s| && '\n' !in record
    ensures Complete(s + (record + "\n")) == |s| + |record| + 1
    ensures Lines(s + (record + "\n")) == Lines(s) + [record]
  {
    hide Lines;
    var front := s + record;
    assert s + (record + "\n") == front + "\n";
    NewlineEndsALine(front);
    CompleteStays(s, record);
    LinesIgnoreTheTail(front);
    assert front[..|s|] == s && front[|s|..] == record;
  }

  /** Any part of a record short of its newline adds no line. */
  lemma {:induction false} PartOfARecordAddsNone(s: string, record: string, t: string)
    requires Complete(s) == |s| && '\n' !in record
    requires s <= t <= s + (record + "\n")
    ensures Lines(t) == if t == s + (record + "\n") then Lines(s) + [record] else Lines(s)
    ensures t != s + (record + "\n") ==> Complete(t) == |s|
  {
    var whole := s + (record + "\n");
    if t == whole {
      OneMoreLine(s, record);
    } else {
      var rest := t[|s|..];
      assert t == s + rest;
      assert |rest| <= |record|;
      assert forall i | 0 <= i < |rest| :: rest[i] == whole[|s| + i] == record[i];
      CompleteStays(s, rest);
      LinesIgnoreTheTail(t);
      assert t[..|s|] == s;
    }
  }

  /** Reading a log and writing its lines back gives the log without its partial tail. */
  lemma {:induction false} LinesAddUp(s: string)
    ensures OneLineEach(Lines(s)) && Unlines(Lines(s)) + Tail(s) == s
    decreases |s|
  {
    hide Lines, Complete;
    if s == "" {
      NoLines();
    } else {
      var front := s[..|s| - 1];
      LinesAddUp(front);
      if s[|s| - 1] == '\n' {
        assert s == front + "\n";
        NewlineEndsALine(front);
        TailHasNoNewline(front);
        var lines := Lines(s);
        assert lines[..|lines| - 1] == Lines(front);
      } else {
        LongerTail(s);
      }
    }
  }

  lemma {:induction false} NoLines()
    ensures Lines("") == [] && Complete("") == 0
  {
  }

  lemma {:induction false} LongerTail(s: string)
    requires s != "" && s[|s| - 1] != '\n'
    ensures Lines(s) == Lines(s[..|s| - 1]) && Tail(s) == Tail(s[..|s| - 1]) + [s[|s| - 1]]
    ensures Complete(s) == Complete(s[..|s| - 1])
  {
    var front := s[..|s| - 1];
    var n := Complete(front);
    assert Complete(s) == n;
    assert s[n..] == front[n..] + [s[|s| - 1]];
  }

  /** There is only one way to read a log as whole lines and a partial tail. */
  lemma {:induction false} FramingIsUnique(lines: seq<string>, tail: string)
    requires OneLineEach(lines) && '\n' !in tail
    ensures var s := Unlines(lines) + tail;
      Lines(s) == lines && Tail(s) == tail && Complete(s) == |Unlines(lines)|
    decreases |lines|
  {
    hide Lines, Complete;
    var whole := Unlines(lines);
    if lines == [] {
      NoLines();
    } else {
      var front, last := lines[..|lines| - 1], lines[|lines| - 1];
      FramingIsUnique(front, "");
      assert Unlines(front) + "" == Unlines(front);
      OneMoreLine(Unlines(front), last);
      assert whole == Unlines(front) + (last + "\n");
      assert lines == front + [last];
    }
    CompleteStays(whole, tail);
    LinesIgnoreTheTail(whole + tail);
    assert (whole + tail)[..|whole|] == whole;
  }

  lemma {:induction false} LongerLogKeepsLines(a: string, b: string)
    requires a <= b
    ensures Lines(a) <= Lines(b)
    ensures Complete(a) <= Complete(b)
    decreases |b|
  {
    hide Lines, Complete;
    if a != b {
      var front := b[..|b| - 1];
      LongerLogKeepsLines(a, front);
      if b[|b| - 1] == '\n' {
        assert b == front + "\n";
        NewlineEndsALine(front);
      } else {
        LongerTail(b);
      }
    }
  }

  // ---- The file ----

  /** bytes.LastIndexByte for a newline. */
  function LastNewline(s: string): (i: int)
    ensures -1 <= i < |s|
    ensures i >= 0 ==> s[i] == '\n'
    ensures forall j | i < j < |s| :: s[j] != '\n'
  {
    if s == "" then -1
    else if s[|s| - 1] == '\n' then |s| - 1
    else LastNewline(s[..|s| - 1])
  }

  lemma {:induction false} CompleteFromBlock(s: string, start: nat, end: nat)
    requires start <= end <= |s| && '\n' !in s[end..]
    ensures var i := LastNewline(s[start..end]);
      if i >= 0 then Complete(s) == start + i + 1 else '\n' !in s[start..]
  {
    var block := s[start..end];
    var i := LastNewline(block);
    var n := if i >= 0 then start + i + 1 else start;
    forall j | n <= j < |s|
      ensures s[j] != '\n'
    {
      if j < end {
        assert s[j] == block[j - start];
      } else {
        assert s[j] == s[end..][j - end];
      }
    }
    if i >= 0 {
      assert s[..n][|s[..n]| - 1] == block[i];
      CompleteStays(s[..n], s[n..]);
      assert s[..n] + s[n..] == s;
    }
  }

  lemma {:induction false} NoNewline(s: string)
    requires '\n' !in s[0..]
    ensures Complete(s) == 0
  {
    assert s[0..] == s;
    CompleteStays("", s);
    assert "" + s == s;
  }

  datatype Step = Finished | Failed | Killed

  datatype Outcome = Logged | Refused | Interrupted

  /** Everything `after` holds beyond `before` lies between two texts. */
  ghost predicate Between(before: seq<string>, after: seq<string>, low: string, high: string) {
    before <= after && forall i | |before| <= i < |after| :: low <= after[i] <= high
  }

  /** `chain` is every state since the last sync; `linked`, a durable directory entry. */
  class File {
    var data: string
    var chain: seq<string>
    var linked: bool

    ghost predicate Valid()
      reads this
    {
      chain != [] && chain[|chain| - 1] == data &&
      forall i | 0 <= i < |chain| :: Base() <= chain[i]
    }

    /** The whole lines of the last synced state. */
    ghost function Base(): (base: string)
      requires chain != []
      reads this
      ensures Complete(base) == |base|
    {
      CompleteOfComplete(chain[0]);
      chain[0][..Complete(chain[0])]
    }

    /** What no power loss can take away. */
    ghost function Durable(): (base: string)
      requires chain != []
      reads this
      ensures Complete(base) == |base|
    {
      if linked then Base() else ""
    }

    /** No state that could surface is over the limit. */
    ghost predicate Capped()
      reads this
    {
      forall i | 0 <= i < |chain| :: |chain[i]| <= MAX_LOG_BYTES
    }

    /** As found after a boot: nothing unsynced; an absent file is an empty one not linked. */
    constructor (found: string, present: bool)
      requires !present ==> found == ""
      ensures Valid() && data == found && chain == [found] && linked == present
    {
      data := found;
      chain := [found];
      linked := present;
    }

    /** One write call: some bytes of `p` are appended, and its count may be invalid. */
    method Write(p: string) returns (n: int, failed: bool)
      requires Valid()
      modifies this`data, this`chain
      ensures chain == old(chain) + [data] && old(data) <= data <= old(data) + p
      ensures 0 <= n <= |p| ==> data == old(data) + p[..n]
    {
      n, failed := *, *;
      var appended: nat :| appended <= |p|;
      if 0 <= n <= |p| { appended := n; }
      assert p == p[..appended] + p[appended..];
      assert old(data) + p == old(data) + p[..appended] + p[appended..];
      data := data + p[..appended];
      chain := chain + [data];
    }

    method Truncate(size: nat) returns (ok: bool)
      requires Valid() && size <= |data|
      modifies this`data, this`chain
      ensures ok ==> data == old(data)[..size] && chain == old(chain) + [data]
      ensures !ok ==> data == old(data) && chain == old(chain)
    {
      ok := *;
      if ok {
        data := data[..size];
        chain := chain + [data];
      }
    }

    method Sync() returns (ok: bool)
      requires Valid()
      modifies this`chain
      ensures Valid()
      ensures chain == if ok then [data] else old(chain)
    {
      ok := *;
      if ok { chain := [data]; }
    }

    /** Part of the unsynced bytes is lost, and the file itself if its entry was not durable. */
    method PowerLoss()
      requires Valid()
      modifies this
      ensures Valid() && chain == [data]
      ensures linked || (!old(linked) && data == "")
      ensures old(linked) ==> linked
      ensures data == "" || exists i :: 0 <= i < |old(chain)| && data <= old(chain)[i]
      ensures old(Durable()) <= data
    {
      var lost := *;
      if !linked && lost {
        data := "";
      } else {
        var i: nat :| i < |chain|;
        assert Base() <= chain[i];
        var kept: nat :| Complete(chain[0]) <= kept <= |chain[i]|;
        data := chain[i][..kept];
        linked := true;
      }
      chain := [data];
    }

    /** ReadAt into the front of a buffer; it may fail, or come up short. */
    method ReadAt(buffer: array<char>, want: nat, from: nat) returns (n: nat, ok: bool)
      requires want <= buffer.Length && from + want <= |data|
      modifies buffer
      ensures n <= want
      ensures ok ==> buffer[..n] == data[from..from + n]
    {
      n :| 0 <= n <= want;
      ok := *;
      for k := 0 to n
        invariant forall j | 0 <= j < k :: buffer[j] == data[from + j]
      {
        buffer[k] := data[from + k];
      }
    }

    /**
     The block-wise backward scan: it finds the end of the last complete line,
     whatever the size of the file and of the block.
     */
    method LastLineEnd(size: nat, blockSize: nat) returns (ok: bool, newSize: nat)
      requires size == |data| && blockSize > 0
      ensures ok ==> newSize == Complete(data)
    {
      var buffer := new char[blockSize];
      var end: int := size;
      newSize := 0;
      while end > 0
        invariant 0 <= end <= size && newSize == 0
        invariant '\n' !in data[end..]
      {
        var start := if end < blockSize then 0 else end - blockSize;
        var n, read := ReadAt(buffer, end - start, start);
        if !read || n != end - start { return false, 0; }
        CompleteFromBlock(data, start, end);
        var i := LastNewline(buffer[..n]);
        if i >= 0 { return true, start + i + 1; }
        end := start;
      }
      NoNewline(data);
      ok := true;
    }

    /** Cuts an incomplete tail back to the last newline, and only that. */
    method RepairIncompleteTail(size: nat, blockSize: nat) returns (o: Step, newSize: nat)
      requires Valid() && size == |data| && blockSize > 0
      modifies this`data, this`chain
      ensures Valid()
      ensures data == old(data) || data == old(data)[..Complete(old(data))]
      ensures chain == old(chain) || chain == old(chain) + [data] || chain == [data]
      ensures o == Finished ==> data == old(data)[..Complete(old(data))] && newSize == |data|
    {
      newSize := 0;
      if size == 0 { return Finished, 0; }
      if * { return Failed, 0; }
      if data[size - 1] == '\n' {
        assert data[..size] == data;
        return Finished, size;
      }
      var ok;
      ok, newSize := LastLineEnd(size, blockSize);
      if !ok { return Failed, 0; }
      if * { return Killed, 0; }
      LongerLogKeepsLines(Base(), data);
      ok := Truncate(newSize);
      if !ok { return Failed, 0; }
      if * { return Killed, 0; }
      ok := Sync();
      if !ok { return Failed, 0; }
      o := Finished;
    }

    /** Short writes are continued; an error, no progress or a bad count stops it. */
    method WriteAll(line: string) returns (o: Step)
      requires Valid()
      modifies this`data, this`chain
      ensures Valid()
      ensures old(data) <= data <= old(data) + line
      ensures o == Finished ==> data == old(data) + line
      ensures Between(old(chain), chain, old(data), old(data) + line)
    {
      var written := 0;
      while written < |line|
        invariant 0 <= written <= |line|
        invariant data == old(data) + line[..written]
        invariant Between(old(chain), chain, old(data), old(data) + line)
        invariant Valid()
      {
        if * { return Killed; }
        ghost var before := data;
        var n, failed := Write(line[written..]);
        assert line == line[..written] + line[written..];
        assert before + line[written..] == old(data) + line;
        if n < 0 || n > |line| - written { return Failed; }
        assert line[..written] + line[written..][..n] == line[..written + n];
        written := written + n;
        if failed { return Failed; }
        if n == 0 { return Failed; }
      }
      assert line[..written] == line;
      o := Finished;
    }

    /**
     One append. A success adds exactly this record, durably; whatever else
     happens, no complete line is lost and at most this one is added.
     */
    method Log(record: string) returns (o: Outcome)
      requires Valid() && '\n' !in record
      modifies this
      ensures Valid()
      ensures o == Logged ==>
        Lines(data) == old(Lines(data)) + [record] && Tail(data) == "" && chain == [data] && linked
      ensures LinesOrOneMore(old(Lines(data)), record, data)
      ensures forall i | 0 <= i < |chain| ::
        chain[i] in old(chain) || LinesOrOneMore(old(Lines(data)), record, chain[i])
      ensures old(Durable()) <= Durable()
      ensures old(Capped()) ==> Capped()
      ensures |record| + 1 > MAX_RECORD_BYTES ==> o == Refused && data == old(data) && chain == old(chain)
    {
      hide Lines, Complete, Tail, LinesOrOneMore, Settled;
      var line := record + "\n";
      CutTailKeepsLines(data);
      NoAttemptYet(record, data);
      BaseStaysBelow(Base(), data);
      var step, start := Prepare(line);
      NoAttemptYet(record, data);
      BaseStaysBelow(old(Base()), chain[0]);
      if step == Failed { return Refused; }
      if step == Killed { return Interrupted; }
      ghost var repaired, cut := chain, data;
      o := Append(line, start);
      AttemptSurfaces(old(chain), repaired, chain, old(data), cut, record);
      BaseStaysBelow(old(Base()), chain[0]);
      if o == Logged { WholeLine(cut, record); }
    }

    /** The record cap, the log cap before and after the repair, and the repair. */
    method Prepare(line: string) returns (o: Step, start: nat)
      requires Valid()
      modifies this`data, this`chain
      ensures Valid()
      ensures data == old(data) || data == old(data)[..Complete(old(data))]
      ensures chain == old(chain) || chain == old(chain) + [data] || chain == [data]
      ensures o == Finished ==>
        data == old(data)[..Complete(old(data))] && start == |data| && start + |line| <= MAX_LOG_BYTES
      ensures |line| > MAX_RECORD_BYTES ==> o == Failed && data == old(data) && chain == old(chain)
    {
      hide Lines, Complete, Tail;
      start := 0;
      if |line| > MAX_RECORD_BYTES { return Failed, 0; }
      if * { return Failed, 0; }
      if * { return Killed, 0; }
      if |data| > MAX_LOG_BYTES { return Failed, 0; }
      o, start := RepairIncompleteTail(|data|, BLOCK_SIZE);
      if o == Finished && start > MAX_LOG_BYTES - |line| { return Failed, 0; }
    }

    /** The write, its rollback when it fails, and the two syncs. */
    method Append(line: string, start: nat) returns (o: Outcome)
      requires Valid() && start == |data| == Complete(data)
      modifies this
      ensures Valid()
      ensures o == Logged ==> data == old(data) + line && chain == [data] && linked
      ensures Settled(old(chain), chain, old(data), old(data) + line)
      ensures old(linked) ==> linked
    {
      hide Lines, Complete, Tail;
      var step := WriteAll(line);
      if step == Killed { return Interrupted; }
      if step == Failed {
        LongerLogKeepsLines(Base(), old(data));
        assert data[..start] == old(data);
        RollBack(start, old(data) + line);
        return Refused;
      }
      o := Settle();
    }

    /** A failed write is cut back to where it started; that may fail too. */
    method RollBack(start: nat, ghost high: string)
      requires Valid() && start <= |data| && Complete(data[..start]) == start && data <= high
      requires |Base()| <= start
      modifies this`data, this`chain
      ensures Valid()
      ensures Settled(old(chain), chain, old(data[..start]), high)
    {
      hide Lines, Complete, Tail;
      CompleteOfComplete(data[..start]);
      var ok := Truncate(start);
      if ok { ok := Sync(); }
    }

    /** The two syncs after a complete write. */
    method Settle() returns (o: Outcome)
      requires Valid()
      modifies this`chain, this`linked
      ensures Valid()
      ensures o == Logged ==> chain == [data] && linked
      ensures chain == old(chain) || chain == [data]
      ensures old(linked) ==> linked
    {
      hide Lines, Complete, Tail;
      if * { return Interrupted; }
      LongerLogKeepsLines(Base(), data);
      var ok := Sync();
      if !ok { return Refused; }
      if * { return Interrupted; }
      ok := *;
      if !ok { return Refused; }
      linked := true;
      if * { return Interrupted; }
      o := Logged;
    }
  }

  /** The states that may surface: earlier ones, or ones between two texts; the last is one of these. */
  ghost predicate Settled(before: seq<string>, after: seq<string>, low: string, high: string) {
    after != [] && low <= after[|after| - 1] <= high &&
    (Between(before, after, low, high) || Between([], after, low, high))
  }

  /** The lines of a log that lost none and gained at most one. */
  ghost predicate LinesOrOneMore(lines: seq<string>, record: string, s: string) {
    Lines(s) == lines || Lines(s) == lines + [record]
  }

  lemma {:induction false} CutTailKeepsLines(s: string)
    ensures var cut := s[..Complete(s)]; Lines(cut) == Lines(s) && Complete(cut) == |cut|
  {
    LinesIgnoreTheTail(s);
    CompleteOfComplete(s);
  }

  lemma {:induction false} WholeLine(s: string, record: string)
    requires Complete(s) == |s| && '\n' !in record
    ensures var t := s + (record + "\n"); Lines(t) == Lines(s) + [record] && Tail(t) == ""
  {
    OneMoreLine(s, record);
  }

  lemma {:induction false} NoAttemptYet(record: string, s: string)
    ensures LinesOrOneMore(Lines(s), record, s)
  {
  }

  /** Whole lines at the front of a log are whole lines of its complete part. */
  lemma {:induction false} BaseStaysBelow(base: string, s: string)
    requires base <= s && Complete(base) == |base|
    ensures base <= s[..Complete(s)]
  {
    LongerLogKeepsLines(base, s);
  }

  /** Every state an attempt may leave behind has the old lines, or those and the record. */
  lemma {:induction false} AttemptSurfaces(
    before: seq<string>, repaired: seq<string>, after: seq<string>, s: string, cut: string, record: string)
    requires '\n' !in record && cut == s[..Complete(s)] && Complete(cut) == |cut|
    requires repaired == before || repaired == before + [cut] || repaired == [cut]
    requires before != [] && Settled(repaired, after, cut, cut + (record + "\n"))
    ensures forall i | 0 <= i < |after| :: after[i] in before || LinesOrOneMore(Lines(s), record, after[i])
    ensures LinesOrOneMore(Lines(s), record, after[|after| - 1])
    ensures after[0] == before[0] || cut <= after[0]
    ensures forall i | 0 <= i < |after| :: after[i] in before || |after[i]| <= |cut| + |record| + 1
  {
    hide Lines, Complete;
    CutTailKeepsLines(s);
    forall t | cut <= t <= cut + (record + "\n")
      ensures LinesOrOneMore(Lines(s), record, t)
    {
      PartOfARecordAddsNone(cut, record, t);
    }
  }

  // ---- Runs ----

  /** `a` can be had from `b` by leaving elements out. */
  predicate Within(a: seq<string>, b: seq<string>) {
    a == [] ||
    (b != [] &&
     ((a[|a| - 1] == b[|b| - 1] && Within(a[..|a| - 1], b[..|b| - 1])) || Within(a, b[..|b| - 1])))
  }

  lemma {:induction false} WithinItself(a: seq<string>)
    ensures Within(a, a)
  {
    if a != [] { WithinItself(a[..|a| - 1]); }
  }

  lemma {:induction false} WithinMore(a: seq<string>, b: seq<string>, x: string)
    ensures Within(a, b) ==> Within(a, b + [x]) && Within(a + [x], b + [x])
  {
    assert (b + [x])[..|b|] == b && (a + [x])[..|a|] == a;
  }

  lemma {:induction false} WithinLonger(a: seq<string>, b: seq<string>, c: seq<string>)
    requires Within(a, b) && b <= c
    ensures Within(a, c)
  {
    if b == c {
    } else {
      WithinLonger(a, b, c[..|c| - 1]);
      WithinMore(a, c[..|c| - 1], c[|c| - 1]);
      assert c == c[..|c| - 1] + [c[|c| - 1]];
    }
  }

  lemma {:induction false} PrefixWithin(p: seq<string>, a: seq<string>, b: seq<string>)
    requires p <= a && Within(a, b)
    ensures Within(p, b)
    decreases |a| + |b|
  {
    if p != [] && p != a {
      var b' := b[..|b| - 1];
      if a[|a| - 1] == b[|b| - 1] && Within(a[..|a| - 1], b') {
        PrefixWithin(p, a[..|a| - 1], b');
      } else {
        PrefixWithin(p, a, b');
      }
    }
  }

  /** Every state that may surface holds attempted records only, in order. */
  ghost predicate AllWithin(chain: seq<string>, attempted: seq<string>) {
    forall i | 0 <= i < |chain| :: Within(Lines(chain[i]), attempted)
  }

  lemma {:induction false} StillWithin(
    before: seq<string>, after: seq<string>, s: string, attempted: seq<string>, record: string)
    requires AllWithin(before, attempted) && s in before
    requires forall i | 0 <= i < |after| ::
      after[i] in before || LinesOrOneMore(Lines(s), record, after[i])
    ensures AllWithin(after, attempted + [record])
  {
    hide Lines, Within;
    forall i | 0 <= i < |after|
      ensures Within(Lines(after[i]), attempted + [record])
    {
      WithinMore(Lines(after[i]), attempted, record);
      WithinMore(Lines(s), attempted, record);
    }
  }

  /**
   Any records, logged by processes that may die at any step, with power lost
   any number of times in between: every record whose call succeeded is still
   there, in order, and nothing is there that was not asked for; the log never
   outgrows its limit.
   */
  method Run(f: File, records: seq<string>) returns (logged: seq<string>)
    requires f.Valid() && f.chain == [f.data] && (f.linked || f.data == "")
    requires forall i | 0 <= i < |records| :: '\n' !in records[i]
    modifies f
    ensures f.Valid()
    ensures Within(old(Lines(f.data)) + logged, Lines(f.data))
    ensures Within(old(Lines(f.data)) + logged, Lines(f.Durable()))
    ensures Within(Lines(f.data), old(Lines(f.data)) + records)
    ensures old(|f.data|) <= MAX_LOG_BYTES ==> |f.data| <= MAX_LOG_BYTES
  {
    hide Lines, Complete, Tail, Within, AllWithin;
    logged := [];
    ghost var initial := Lines(f.data);
    StartWithin(f.data, f.linked);
    assert f.Durable() == if f.linked then f.data[..Complete(f.data)] else "";
    var i := 0;
    while i < |records|
      invariant 0 <= i <= |records| && f.Valid()
      invariant Within(initial + logged, Lines(f.Durable()))
      invariant AllWithin(f.chain, initial + records[..i])
      invariant old(|f.data|) <= MAX_LOG_BYTES ==> f.Capped()
    {
      if * {
        ghost var chain, durable := f.chain, f.Durable();
        f.PowerLoss();
        LossKeepsDurable(initial + logged, durable, f.data);
        PartWithin(chain, f.data, initial + records[..i]);
      }
      var logged' := Attempt(f, records[i], logged, initial, initial + records[..i]);
      logged := logged';
      assert initial + records[..i] + [records[i]] == initial + records[..i + 1];
      i := i + 1;
    }
    assert records[..i] == records;
    LongerLogKeepsLines(f.Durable(), f.data);
    WithinLonger(initial + logged, Lines(f.Durable()), Lines(f.data));
    LastWithin(f.chain, initial + records);
  }

  /** One attempt of a run. */
  method Attempt(
    f: File, record: string, logged: seq<string>, ghost initial: seq<string>, ghost attempted: seq<string>)
    returns (logged': seq<string>)
    requires f.Valid() && '\n' !in record
    requires Within(initial + logged, Lines(f.Durable())) && AllWithin(f.chain, attempted)
    modifies f
    ensures f.Valid()
    ensures logged' == logged || logged' == logged + [record]
    ensures Within(initial + logged', Lines(f.Durable())) && AllWithin(f.chain, attempted + [record])
    ensures old(f.Capped()) ==> f.Capped()
  {
    hide Lines, Complete, Tail, Within, AllWithin, LinesOrOneMore;
    ghost var chain, durable, before := f.chain, f.Durable(), f.data;
    LongerLogKeepsLines(durable, before);
    WithinLonger(initial + logged, Lines(durable), Lines(before));
    var o := f.Log(record);
    StillWithin(chain, f.chain, before, attempted, record);
    LongerLogKeepsLines(durable, f.Durable());
    WithinLonger(initial + logged, Lines(durable), Lines(f.Durable()));
    logged' := logged;
    if o == Logged {
      logged' := logged + [record];
      WithinMore(initial + logged, Lines(before), record);
      assert initial + logged' == initial + logged + [record];
      LinesIgnoreTheTail(f.data);
    }
  }

  lemma {:induction false} StartWithin(s: string, linked: bool)
    requires linked || s == ""
    ensures var durable := if linked then s[..Complete(s)] else "";
      Within(Lines(s) + [], Lines(durable)) && AllWithin([s], Lines(s) + [])
  {
    hide Lines;
    LinesIgnoreTheTail(s);
    WithinItself(Lines(s));
    assert Lines(s) + [] == Lines(s);
  }

  lemma {:induction false} LossKeepsDurable(kept: seq<string>, durable: string, s: string)
    requires Within(kept, Lines(durable)) && durable <= s && Complete(durable) == |durable|
    ensures Within(kept, Lines(s)) && Within(kept, Lines(s[..Complete(s)]))
  {
    hide Lines, Within;
    BaseStaysBelow(durable, s);
    LongerLogKeepsLines(durable, s);
    LinesIgnoreTheTail(s);
    WithinLonger(kept, Lines(durable), Lines(s));
  }

  lemma {:induction false} PartWithin(chain: seq<string>, s: string, attempted: seq<string>)
    requires AllWithin(chain, attempted)
    requires s == "" || exists i :: 0 <= i < |chain| && s <= chain[i]
    ensures AllWithin([s], attempted)
  {
    if s == "" {
      NoLines();
    } else {
      var i :| 0 <= i < |chain| && s <= chain[i];
      LongerLogKeepsLines(s, chain[i]);
      PrefixWithin(Lines(s), Lines(chain[i]), attempted);
    }
  }

  lemma {:induction false} LastWithin(chain: seq<string>, attempted: seq<string>)
    requires chain != [] && AllWithin(chain, attempted)
    ensures Within(Lines(chain[|chain| - 1]), attempted)
  {
  }
}
