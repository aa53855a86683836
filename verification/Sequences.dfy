/**
 The identity sequence file of internal/registry/sequence.go: the highest UID
 ever handed out and the instant until which reuse stays unsafe.
 */
module Sequences {
  import opened Wrappers
  import opened Strings
  import opened Validate
  import opened Numbers
  import opened Times

  const HEADER := "# linux-temp-admin identity sequence v1"
  const MAX_SEQUENCE_BYTES := 4096

  /** Go's zero time, the first instant of the year 1; on disk "none". */
  const NEVER := 366 * 86400

  const NANOS := 1_000_000_000
  const QUARANTINE_SECONDS := 65

  datatype Sequence = Sequence(highest: nat, safeAfter: int) {
    predicate Writable() { KernelID(highest) && InCalendar(safeAfter) }
  }

  /** The first whole second that is not before an instant in nanoseconds. */
  function CeilSecond(t: int): (s: int)
    ensures (s - 1) * NANOS < t <= s * NANOS
  {
    if t % NANOS == 0 then t / NANOS else t / NANOS + 1
  }

  /** A full daemon polling interval from now on. */
  function SafeAfter(now: int): int { CeilSecond(now + QUARANTINE_SECONDS * NANOS) }

  function SafeText(t: int): string
    requires InCalendar(t)
  {
    if t == NEVER then "none" else TimeText(t)
  }

  function SequenceText(s: Sequence): string
    requires s.Writable()
  {
    HEADER + "\n" + ("highest\t" + Itoa(s.highest)) + "\n" + ("safe-after\t" + SafeText(s.safeAfter)) + "\n"
  }

  function ReadSafe(text: string): Option<int> {
    if text == "none" then Some(NEVER) else ParseTime(text)
  }

  function ReadHighest(line: string): Option<nat> {
    var f := Split(line, '\t');
    if |f| != 2 || f[0] != "highest" then None
    else match Atoi(f[1])
      case None => None
      case Some(n) => if KernelID(n) then Some(n) else None
  }

  function ReadSafeAfter(line: string): Option<int> {
    var f := Split(line, '\t');
    if |f| != 2 || f[0] != "safe-after" then None else ReadSafe(f[1])
  }

  function ReadSequence(text: string): Option<Sequence>
  {
    var lines := Split(text, '\n');
    if |text| > MAX_SEQUENCE_BYTES || |lines| != 4 || lines[0] != HEADER || lines[3] != "" then None
    else Combined(ReadHighest(lines[1]), ReadSafeAfter(lines[2]))
  }

  function Combined(highest: Option<nat>, safeAfter: Option<int>): Option<Sequence> {
    if highest.Some? && safeAfter.Some? then Some(Sequence(highest.value, safeAfter.value)) else None
  }

  lemma ReadIsWritable(text: string)
    ensures var s := ReadSequence(text); s.Some? ==> s.value.Writable()
  {
    NeverIsInCalendar();
  }

  lemma NeverIsInCalendar()
    ensures InCalendar(NEVER)
  {
    DayInCalendar(Date(1, 1, 1), 0);
    assert Date(1, 1, 1).Number() == YearStart(1) == 366;
  }

  lemma SafeRoundTrip(t: int)
    requires InCalendar(t)
    ensures ReadSafe(SafeText(t)) == Some(t)
    ensures '\t' !in SafeText(t) && '\n' !in SafeText(t) && |SafeText(t)| <= 20
  {
    TimeRoundTrip(t);
    assert |TimeText(t)| == 20;
  }

  lemma {:induction false} DigitsLength(n: nat, k: nat, bound: nat)
    requires n < bound && k > 0 && bound == Power(k)
    ensures |Digits(n)| <= k
  {
    if n >= 10 { DigitsLength(n / 10, k - 1, Power(k - 1)); }
  }

  function Power(k: nat): nat { if k == 0 then 1 else 10 * Power(k - 1) }

  lemma ShortNumber(n: nat)
    requires KernelID(n)
    ensures |Itoa(n)| <= 10
  {
    assert Power(5) == 100_000;
    assert Power(10) == 10_000_000_000;
    DigitsLength(n, 10, Power(10));
  }

  lemma HighestRoundTrip(n: nat)
    requires KernelID(n)
    ensures ReadHighest("highest\t" + Itoa(n)) == Some(n)
    ensures '\n' !in "highest\t" + Itoa(n) && |Itoa(n)| <= 10
  {
    hide Itoa, Atoi, Split;
    ShortNumber(n);
    NumberRoundTrip(n);
    assert '\t' !in "highest" && '\t' !in Itoa(n);
    SplitFirst("highest", Itoa(n), '\t');
    SplitWhole(Itoa(n), '\t');
    assert "highest" + ['\t'] + Itoa(n) == "highest\t" + Itoa(n);
  }

  lemma SafeLine(text: string, t: int)
    requires ReadSafe(text) == Some(t) && '\t' !in text && '\n' !in text
    ensures ReadSafeAfter("safe-after\t" + text) == Some(t)
    ensures '\n' !in "safe-after\t" + text
  {
    assert '\t' !in "safe-after";
    SplitFirst("safe-after", text, '\t');
    SplitWhole(text, '\t');
    assert "safe-after" + ['\t'] + text == "safe-after\t" + text;
  }

  lemma SplitThree(a: string, b: string, c: string)
    requires '\n' !in a && '\n' !in b && '\n' !in c
    ensures Split(a + "\n" + b + "\n" + c + "\n", '\n') == [a, b, c, ""]
  {
    var nl := "\n";
    SplitFirst(a, b + nl + c + nl, '\n');
    SplitFirst(b, c + nl, '\n');
    SplitFirst(c, "", '\n');
    assert a + ['\n'] + (b + nl + c + nl) == a + nl + b + nl + c + nl;
    assert b + ['\n'] + (c + nl) == b + nl + c + nl;
    assert c + ['\n'] + "" == c + nl;
  }

  /** The sequence reads back as it was written. */
  lemma SequenceRoundTrip(s: Sequence)
    requires s.Writable()
    ensures ReadSequence(SequenceText(s)) == Some(s)
  {
    HighestRoundTrip(s.highest);
    SafeRoundTrip(s.safeAfter);
    SafeLine(SafeText(s.safeAfter), s.safeAfter);
    Assembled("highest\t" + Itoa(s.highest), "safe-after\t" + SafeText(s.safeAfter), s);
  }

  lemma Assembled(highest: string, safe: string, s: Sequence)
    requires ReadHighest(highest) == Some(s.highest) && ReadSafeAfter(safe) == Some(s.safeAfter)
    requires '\n' !in highest && '\n' !in safe && |highest| < 100 && |safe| < 100
    ensures ReadSequence(HEADER + "\n" + highest + "\n" + safe + "\n") == Some(s)
  {
    HeaderIsOneLine();
    var text := HEADER + "\n" + highest + "\n" + safe + "\n";
    SplitThree(HEADER, highest, safe);
    ReadLines(text, highest, safe);
    assert Combined(Some(s.highest), Some(s.safeAfter)) == Some(s);
  }

  lemma HeaderIsOneLine()
    ensures '\n' !in HEADER && |HEADER| == 39
  {
  }

  lemma ReadLines(text: string, a: string, b: string)
    requires |text| <= MAX_SEQUENCE_BYTES && Split(text, '\n') == [HEADER, a, b, ""]
    ensures ReadSequence(text) == Combined(ReadHighest(a), ReadSafeAfter(b))
  {
    hide HEADER, ReadHighest, ReadSafeAfter, Split;
  }
}
