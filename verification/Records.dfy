/**
 One row of the account registry, internal/registry/record.go: seventeen
 tab-separated fields today, fewer in the formats of older releases.
 */
module Records {
  import opened Wrappers
  import opened Strings
  import opened Numbers
  import opened Validate
  import Times

  const FIELDS := 17
  const QUARANTINE_PREFIX := "linux-temp-admin-v2-quarantine-"

  datatype Row = Row(
    user: string, created: string, expires: string, sudo: bool, host: string, port: int, fingerprint: string,
    autoRevoke: bool, autoUnit: string, uid: int, generation: string, pending: bool, identityBound: bool,
    deletionStarted: bool, sequentialID: bool, quarantineUntil: string, quarantineUnit: string)

  const BLANK := Row("", "", "", false, "", 0, "", false, "", 0, "", false, false, false, false, "", "")

  datatype State = LegacyActive | PendingCreation | Active | DeletingUIDOnly | DeletingBound | Quarantined

  /** The one cross-field model of a row; None for a combination no row may have. */
  function Lifecycle(r: Row): Option<State> {
    if !Port(r.port) && !(r.deletionStarted && !r.identityBound && r.port == 0) then None
    else if r.identityBound && !Generation(r.generation) then None
    else if r.identityBound && !r.pending && !AccountID(r.uid) then None
    else if r.deletionStarted && !AccountID(r.uid) then None
    else if r.deletionStarted && !r.identityBound && r.generation != "" then None
    else if r.sequentialID && (!AccountID(r.uid) || (!r.identityBound && !r.deletionStarted)) then None
    else if r.quarantineUntil != "" then
      if Times.ParseTime(r.quarantineUntil).None? then None
      else if !r.deletionStarted || !r.identityBound then None
      else if r.quarantineUnit != QUARANTINE_PREFIX + r.user then None
      else Some(Quarantined)
    else if r.quarantineUnit != "" then None
    else if r.deletionStarted && r.pending then None
    else if r.deletionStarted then Some(if r.identityBound then DeletingBound else DeletingUIDOnly)
    else if r.pending then Some(PendingCreation)
    else if r.identityBound then Some(Active)
    else Some(LegacyActive)
  }

  predicate ValidRow(r: Row) {
    Username(r.user) && KernelID(r.uid) && (r.generation == "" || Generation(r.generation)) && Lifecycle(r).Some?
  }

  function Flat(c: char): char { if c in "\t\r\n" then ' ' else c }

  function Sanitize(s: string): (t: string)
    ensures |t| == |s| && forall i | 0 <= i < |s| :: t[i] == Flat(s[i])
    ensures CleanText(t)
    ensures CleanText(s) ==> t == s
  {
    var t := seq(|s|, i requires 0 <= i < |s| => Flat(s[i]));
    assert forall i | 0 <= i < |s| :: s[i] in s;
    assert CleanText(s) ==> t == s;
    t
  }

  predicate CleanText(s: string) { forall c | c in s :: c !in "\t\r\n" }

  function SanitizeRow(r: Row): Row {
    r.(user := Sanitize(r.user), created := Sanitize(r.created), expires := Sanitize(r.expires),
       host := Sanitize(r.host), fingerprint := Sanitize(r.fingerprint), autoUnit := Sanitize(r.autoUnit),
       generation := Sanitize(r.generation), quarantineUntil := Sanitize(r.quarantineUntil),
       quarantineUnit := Sanitize(r.quarantineUnit))
  }

  predicate CleanRow(r: Row) {
    CleanText(r.user) && CleanText(r.created) && CleanText(r.expires) && CleanText(r.host) &&
    CleanText(r.fingerprint) && CleanText(r.autoUnit) && CleanText(r.generation) &&
    CleanText(r.quarantineUntil) && CleanText(r.quarantineUnit)
  }

  lemma CleanRowStays(r: Row)
    ensures CleanRow(SanitizeRow(r))
    ensures CleanRow(r) ==> SanitizeRow(r) == r
  {
  }

  function YesNo(b: bool): string { if b then "yes" else "no" }

  /** The text of each textual field, by its fixed position. */
  function TextAt(r: Row, i: nat): string {
    match i
    case 0 => r.user
    case 1 => r.created
    case 2 => r.expires
    case 4 => r.host
    case 6 => r.fingerprint
    case 8 => r.autoUnit
    case 10 => r.generation
    case 15 => r.quarantineUntil
    case _ => r.quarantineUnit
  }

  function FlagAt(r: Row, i: nat): bool {
    match i
    case 3 => r.sudo
    case 7 => r.autoRevoke
    case 11 => r.pending
    case 12 => r.identityBound
    case 13 => r.deletionStarted
    case _ => r.sequentialID
  }

  function FieldAt(r: Row, i: nat): string {
    if i == 5 then Itoa(r.port)
    else if i == 9 then Itoa(r.uid)
    else if i in {3, 7, 11, 12, 13, 14} then YesNo(FlagAt(r, i))
    else Sanitize(TextAt(r, i))
  }

  function FieldsOf(r: Row): seq<string> { seq(FIELDS, i requires 0 <= i < FIELDS => FieldAt(r, i)) }

  function RowText(r: Row): string { Join(FieldsOf(r), '\t') }

  predicate Flag(s: string) { s == "yes" || s == "no" }

  /** A field that older rows do not have reads as its absence. */
  function Column(f: seq<string>, i: nat, absent: string): string { if i < |f| then f[i] else absent }

  function RowOf(f: seq<string>, port: int, uid: int): Row
    requires |f| >= 9
  {
    Row(f[0], f[1], f[2], f[3] == "yes", f[4], port, f[6], f[7] == "yes", f[8], uid, Column(f, 10, ""),
        Column(f, 11, "no") == "yes", Column(f, 12, "no") == "yes", Column(f, 13, "no") == "yes",
        Column(f, 14, "no") == "yes", Column(f, 15, ""), Column(f, 16, ""))
  }

  function ParseFields(line: string, low: nat, high: nat): (r: Option<Row>)
    requires 9 <= low <= high <= FIELDS
    ensures r.Some? ==> ValidRow(r.value)
  {
    var f := Split(line, '\t');
    if |f| < low || |f| > high then None else ParseColumns(f)
  }

  function ParseColumns(f: seq<string>): (r: Option<Row>)
    requires |f| >= 9
    ensures r.Some? ==> ValidRow(r.value)
  {
    var port, uid := Atoi(f[5]), Atoi(Column(f, 9, "0"));
    if !Username(f[0]) || port.None? || !Flag(f[3]) || !Flag(f[7]) then None
    else if uid.None? || !KernelID(uid.value) then None
    else if Column(f, 10, "") != "" && !Generation(f[10]) then None
    else if !Flag(Column(f, 11, "no")) || !Flag(Column(f, 12, "no")) then None
    else if !Flag(Column(f, 13, "no")) || !Flag(Column(f, 14, "no")) then None
    else
      var r := RowOf(f, port.value, uid.value);
      if Lifecycle(r).None? then None else Some(r)
  }

  lemma ItoaClean(n: int)
    requires Int64(n)
    ensures CleanText(Itoa(n))
  {
    NumberRoundTrip(n);
  }

  lemma FieldsTabFree(r: Row, i: nat)
    requires Int64(r.port) && Int64(r.uid)
    ensures CleanText(FieldAt(r, i))
  {
    ItoaClean(r.port);
    ItoaClean(r.uid);
    assert CleanText("yes") && CleanText("no");
  }

  lemma SplitRowText(r: Row)
    requires Int64(r.port) && Int64(r.uid)
    ensures Split(RowText(r), '\t') == FieldsOf(r)
  {
    forall f | f in FieldsOf(r) ensures '\t' !in f {
      var i :| 0 <= i < FIELDS && FieldsOf(r)[i] == f;
      FieldsTabFree(r, i);
    }
    SplitJoin(FieldsOf(r), '\t');
  }

  lemma RowOfFields(r: Row)
    ensures RowOf(FieldsOf(r), r.port, r.uid) == SanitizeRow(r)
  {
  }

  /** A row written and read back is itself, sanitized, or is refused for what it says. */
  lemma RowRoundTrip(r: Row)
    requires Int64(r.port) && Int64(r.uid)
    ensures ParseFields(RowText(r), FIELDS, FIELDS) ==
      if ValidRow(SanitizeRow(r)) then Some(SanitizeRow(r)) else None
  {
    SplitRowText(r);
    ColumnsRoundTrip(r);
  }

  lemma ColumnsRoundTrip(r: Row)
    requires Int64(r.port) && Int64(r.uid)
    ensures ParseColumns(FieldsOf(r)) == if ValidRow(SanitizeRow(r)) then Some(SanitizeRow(r)) else None
  {
    NumberRoundTrip(r.port);
    NumberRoundTrip(r.uid);
    RowOfFields(r);
    var f := FieldsOf(r);
    assert f[0] == Sanitize(r.user) && f[10] == Sanitize(r.generation) && f[5] == Itoa(r.port) && f[9] == Itoa(r.uid);
    assert Flag(f[3]) && Flag(f[7]) && Flag(f[11]) && Flag(f[12]) && Flag(f[13]) && Flag(f[14]);
  }

  lemma {:induction false} JoinClean(parts: seq<string>)
    requires forall f | f in parts :: '\n' !in f
    ensures '\n' !in Join(parts, '\t')
  {
    if |parts| > 1 { JoinClean(parts[1..]); }
  }

  /** A row is one line and never a header. */
  lemma RowIsOneLine(r: Row)
    requires Int64(r.port) && Int64(r.uid)
    ensures '\n' !in RowText(r) && '\t' in RowText(r)
  {
    forall f | f in FieldsOf(r) ensures '\n' !in f {
      var i :| 0 <= i < FIELDS && FieldsOf(r)[i] == f;
      FieldsTabFree(r, i);
    }
    JoinClean(FieldsOf(r));
  }
}
