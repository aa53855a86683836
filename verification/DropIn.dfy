/**
 The drop-in file internal/sshdconf/sshdconf.go writes for one account, and what
 it does to the configuration sshd evaluates.
 */
module DropIn {
  import opened Strings
  import opened Validate
  import opened LoginCheck
  import opened Wrappers
  import Patterns

  datatype Line = Comment | MatchUser(pattern: string) | MatchAll | Directive(name: string, args: string)

  datatype Rendering = Rendered(lines: seq<Line>) | NoGroup | NoDirective

  const ORDER: seq<Blocker> :=
    [PubkeyDisabled, AuthorizedKeysFile, AuthMethods, KeyAlgorithm, AllowUsers, AllowGroups]

  /** Three lines that tell an operator what the file is; sshd skips them. */
  const HEADER: seq<Line> := [Comment, Comment, Comment]

  /** The directive that lifts one blocker; the denials have none. */
  function Lift(user: string, groups: seq<string>, r: Report, b: Blocker): Line {
    match b
    case PubkeyDisabled => Directive("PubkeyAuthentication", "yes")
    case AuthorizedKeysFile => Directive("AuthorizedKeysFile", ".ssh/authorized_keys")
    case AuthMethods => Directive("AuthenticationMethods", "publickey")
    case KeyAlgorithm =>
      Directive(r.algoDirective.Name(), (if KeyAlgorithm in r.detail then r.detail[KeyAlgorithm] else "") + ",ssh-ed25519")
    case AllowUsers => Directive("AllowUsers", user)
    case AllowGroups => Directive("AllowGroups", PrimaryGroup(groups))
    case _ => Comment
  }

  function PrimaryGroup(groups: seq<string>): string { if groups == [] then "" else groups[0] }

  function Directives(user: string, groups: seq<string>, r: Report, n: nat): seq<Line>
    requires n <= |ORDER|
  {
    if n == 0 then []
    else
      Directives(user, groups, r, n - 1) +
      if ORDER[n - 1] in r.blockers then [Lift(user, groups, r, ORDER[n - 1])] else []
  }

  function Start(user: string): seq<Line> { HEADER + [MatchUser(user)] }

  function File(user: string, groups: seq<string>, r: Report): seq<Line> {
    Start(user) + Directives(user, groups, r, |ORDER|) + [MatchAll]
  }

  method Render(user: string, groups: seq<string>, report: Report) returns (r: Rendering)
    ensures r == NoDirective <==> KeyAlgorithm in report.blockers && report.algoDirective == Absent
    ensures r.Rendered? <==>
      (KeyAlgorithm in report.blockers ==> report.algoDirective != Absent) &&
      (AllowGroups in report.blockers ==> Username(PrimaryGroup(groups)))
    ensures r.Rendered? ==> r.lines == File(user, groups, report)
  {
    var lines := RenderMethods(user, groups, report);
    match lines
    case None => return NoDirective;
    case Some(b) => r := RenderAccess(user, groups, report, b);
  }

  /** The directives about how the account authenticates. */
  method RenderMethods(user: string, groups: seq<string>, report: Report) returns (lines: Option<seq<Line>>)
    ensures lines == None <==> KeyAlgorithm in report.blockers && report.algoDirective == Absent
    ensures lines.Some? ==> lines.value == Start(user) + Directives(user, groups, report, 4)
  {
    hide Lift;
    var b := Start(user);
    if PubkeyDisabled in report.blockers { b := b + [Lift(user, groups, report, PubkeyDisabled)]; }
    assert b == Start(user) + Directives(user, groups, report, 1);
    if AuthorizedKeysFile in report.blockers { b := b + [Lift(user, groups, report, AuthorizedKeysFile)]; }
    assert b == Start(user) + Directives(user, groups, report, 2);
    if AuthMethods in report.blockers { b := b + [Lift(user, groups, report, AuthMethods)]; }
    assert b == Start(user) + Directives(user, groups, report, 3);
    if KeyAlgorithm in report.blockers {
      if report.algoDirective == Absent { return None; }
      b := b + [Lift(user, groups, report, KeyAlgorithm)];
    }
    return Some(b);
  }

  /** The directives about who may log in at all, and the end of the block. */
  method RenderAccess(user: string, groups: seq<string>, report: Report, start: seq<Line>) returns (r: Rendering)
    requires start == Start(user) + Directives(user, groups, report, 4)
    ensures r.Rendered? <==> (AllowGroups in report.blockers ==> Username(PrimaryGroup(groups)))
    ensures r != NoDirective
    ensures r.Rendered? ==> r.lines == File(user, groups, report)
  {
    hide Lift;
    var b := start;
    if AllowUsers in report.blockers { b := b + [Lift(user, groups, report, AllowUsers)]; }
    assert b == Start(user) + Directives(user, groups, report, 5);
    if AllowGroups in report.blockers {
      if PrimaryGroup(groups) == "" || !Username(PrimaryGroup(groups)) { return NoGroup; }
      b := b + [Lift(user, groups, report, AllowGroups)];
    }
    assert b == Start(user) + Directives(user, groups, report, 6);
    return Rendered(b + [MatchAll]);
  }

  function LineText(line: Line): string {
    match line
    case Comment => "#\n"
    case MatchUser(pattern) => "Match User " + pattern + "\n"
    case MatchAll => "Match all\n"
    case Directive(name, args) => "    " + name + " " + args + "\n"
  }

  function Text(lines: seq<Line>): string {
    if lines == [] then "" else LineText(lines[0]) + Text(lines[1..])
  }

  function FileText(user: string, groups: seq<string>, r: Report): string { Text(File(user, groups, r)) }

  // What sshd makes of such a file: a Match line opens or closes the scope of
  // the lines below it, and the first value for a directive wins.

  predicate Opens(line: Line, scope: bool, who: string) {
    match line
    case MatchUser(pattern) => Patterns.Matches(pattern, who)
    case MatchAll => true
    case _ => scope
  }

  function ScopeAfter(lines: seq<Line>, scope: bool, who: string): bool {
    if lines == [] then scope else ScopeAfter(lines[1..], Opens(lines[0], scope, who), who)
  }

  function Effective(c: Config, lines: seq<Line>, scope: bool, who: string): Config {
    if lines == [] then c
    else
      var rest := Effective(c, lines[1..], Opens(lines[0], scope, who), who);
      if scope && lines[0].Directive? then rest[ToLower(lines[0].name) := Fields(lines[0].args)] else rest
  }

  lemma {:induction false} EffectiveAppend(c: Config, a: seq<Line>, b: seq<Line>, scope: bool, who: string)
    ensures Effective(c, a + b, scope, who) == Effective(Effective(c, b, ScopeAfter(a, scope, who), who), a, scope, who)
    ensures ScopeAfter(a + b, scope, who) == ScopeAfter(b, ScopeAfter(a, scope, who), who)
  {
    if a == [] {
      assert a + b == b;
    } else {
      assert (a + b)[1..] == a[1..] + b;
      EffectiveAppend(c, a[1..], b, Opens(a[0], scope, who), who);
    }
  }

  /** Lines without Match keep the scope; out of scope they change nothing. */
  lemma {:induction false} Inert(c: Config, lines: seq<Line>, scope: bool, who: string)
    requires forall line | line in lines :: line.Comment? || line.Directive?
    ensures ScopeAfter(lines, scope, who) == scope
    ensures !scope || (forall line | line in lines :: line.Comment?) ==> Effective(c, lines, scope, who) == c
  {
    if lines != [] {
      Inert(c, lines[1..], scope, who);
    }
  }

  lemma {:induction false} DirectivesOnly(user: string, groups: seq<string>, r: Report, n: nat)
    requires n <= |ORDER|
    ensures forall line | line in Directives(user, groups, r, n) :: line.Comment? || line.Directive?
  {
    if n > 0 { DirectivesOnly(user, groups, r, n - 1); }
  }

  lemma {:induction false} LiteralPattern(p: string, s: string)
    requires '*' !in p && '?' !in p
    ensures Patterns.Matches(p, s) <==> p == s
  {
    if p != "" && s != "" && p[0] == s[0] {
      LiteralPattern(p[1..], s[1..]);
      assert p == [p[0]] + p[1..] && s == [s[0]] + s[1..];
    }
  }

  /** The file is the block of directives for its account and nothing for anyone else. */
  lemma FileIsScoped(c: Config, user: string, groups: seq<string>, r: Report, who: string)
    requires Username(user)
    ensures ScopeAfter(File(user, groups, r), true, who)
    ensures who != user ==> Effective(c, File(user, groups, r), true, who) == c
    ensures who == user ==>
      Effective(c, File(user, groups, r), true, who) == Effective(c, Directives(user, groups, r, |ORDER|), true, who)
  {
    var head, mid, tail := HEADER, Directives(user, groups, r, |ORDER|), [MatchAll];
    var inScope := user == who;
    assert '*' !in user && '?' !in user;
    LiteralPattern(user, who);
    DirectivesOnly(user, groups, r, |ORDER|);
    Inert(c, mid, inScope, who);
    EffectiveAppend(c, mid, tail, inScope, who);
    EffectiveAppend(c, [MatchUser(user)], mid + tail, true, who);
    assert ScopeAfter([MatchUser(user)], true, who) == inScope;
    Inert(Effective(c, [MatchUser(user)] + (mid + tail), true, who), head, true, who);
    EffectiveAppend(c, head, [MatchUser(user)] + (mid + tail), true, who);
    assert File(user, groups, r) == head + ([MatchUser(user)] + (mid + tail));
  }

  /** The directive a blocker is about, as sshd prints its name. */
  function LiftKey(r: Report, b: Blocker): string {
    if b != KeyAlgorithm then KeyOf(b)
    else if r.algoDirective == PubkeyAcceptedAlgorithms then ALGORITHMS
    else KEY_TYPES
  }

  predicate Spelled(r: Report) {
    KeyAlgorithm in r.blockers ==> r.algoDirective != Absent
  }

  // sshd prints directive names in lower case.

  lemma LowerPubkeyAuthentication() ensures ToLower("PubkeyAuthentication") == PUBKEY {}

  lemma LowerAuthorizedKeysFile() ensures ToLower("AuthorizedKeysFile") == KEYS_FILE {}

  lemma LowerAuthenticationMethods() ensures ToLower("AuthenticationMethods") == METHODS {}

  lemma LowerAllowUsers() ensures ToLower("AllowUsers") == ALLOW_USERS {}

  lemma LowerAllowGroups() ensures ToLower("AllowGroups") == ALLOW_GROUPS {}

  lemma LowerPubkeyAcceptedAlgorithms() ensures ToLower("PubkeyAcceptedAlgorithms") == ALGORITHMS {}

  lemma LowerPubkeyAcceptedKeyTypes() ensures ToLower("PubkeyAcceptedKeyTypes") == KEY_TYPES {}

  lemma LiftSetsItsKey(user: string, groups: seq<string>, r: Report, b: Blocker)
    requires b in ORDER && b in r.blockers && Spelled(r)
    ensures var line := Lift(user, groups, r, b); line.Directive? && ToLower(line.name) == LiftKey(r, b)
  {
    match b
    case PubkeyDisabled => LowerPubkeyAuthentication();
    case AuthorizedKeysFile => LowerAuthorizedKeysFile();
    case AuthMethods => LowerAuthenticationMethods();
    case KeyAlgorithm => LowerPubkeyAcceptedAlgorithms(); LowerPubkeyAcceptedKeyTypes();
    case AllowUsers => LowerAllowUsers();
    case AllowGroups => LowerAllowGroups();
  }

  /** Distinct blockers are about distinct directives. */
  lemma KeysDiffer(r: Report, a: Blocker, b: Blocker)
    ensures LiftKey(r, a) == LiftKey(r, b) <==> a == b
  {
    assert a != b ==> |LiftKey(r, a)| != |LiftKey(r, b)| || LiftKey(r, a)[0] != LiftKey(r, b)[0];
  }

  predicate SetsKey(line: Line, key: string) { line.Directive? && ToLower(line.name) == key }

  /** Without Match lines, a key has the value of the one line that sets it. */
  lemma {:induction false} ValueOf(c: Config, lines: seq<Line>, who: string, key: string, line: Line)
    requires forall l | l in lines :: l.Directive?
    requires line in lines && SetsKey(line, key) && forall l | l in lines && SetsKey(l, key) :: l == line
    ensures Values(Effective(c, lines, true, who), key) == Fields(line.args)
  {
    if !SetsKey(lines[0], key) {
      ValueOf(c, lines[1..], who, key, line);
    }
  }

  lemma {:induction false} ValueKept(c: Config, lines: seq<Line>, who: string, key: string)
    requires forall l | l in lines :: l.Directive? && !SetsKey(l, key)
    ensures Values(Effective(c, lines, true, who), key) == Values(c, key)
  {
    if lines != [] {
      assert !SetsKey(lines[0], key);
      ValueKept(c, lines[1..], who, key);
    }
  }

  lemma {:induction false} DirectivesAre(user: string, groups: seq<string>, r: Report, n: nat)
    requires n <= |ORDER| && Spelled(r)
    ensures forall i | 0 <= i < n && ORDER[i] in r.blockers ::
      Lift(user, groups, r, ORDER[i]) in Directives(user, groups, r, n)
    ensures forall line | line in Directives(user, groups, r, n) ::
      exists b | b in ORDER && b in r.blockers :: line == Lift(user, groups, r, b)
  {
    if n > 0 { DirectivesAre(user, groups, r, n - 1); }
  }

  /** The overridden configuration, directive by directive. */
  lemma Overrides(c: Config, user: string, groups: seq<string>, r: Report, b: Blocker)
    requires Username(user) && Spelled(r) && b in ORDER
    ensures Values(Effective(c, File(user, groups, r), true, user), LiftKey(r, b)) ==
      if b in r.blockers then Fields(Lift(user, groups, r, b).args) else Values(c, LiftKey(r, b))
  {
    var lines := Directives(user, groups, r, |ORDER|);
    FileIsScoped(c, user, groups, r, user);
    DirectivesAre(user, groups, r, |ORDER|);
    forall line | line in lines
      ensures line.Directive? && (SetsKey(line, LiftKey(r, b)) ==> b in r.blockers && line == Lift(user, groups, r, b))
    {
      var b' :| b' in ORDER && b' in r.blockers && line == Lift(user, groups, r, b');
      LiftSetsItsKey(user, groups, r, b');
      KeysDiffer(r, b, b');
    }
    if b in r.blockers {
      LiftSetsItsKey(user, groups, r, b);
      ValueOf(c, lines, user, LiftKey(r, b), Lift(user, groups, r, b));
    } else {
      ValueKept(c, lines, user, LiftKey(r, b));
    }
  }

  /** No directive outside the reported blockers changes. */
  lemma ChangesOnlyBlocked(c: Config, user: string, groups: seq<string>, r: Report, key: string)
    requires Username(user) && Spelled(r)
    requires forall b | b in r.blockers && Liftable(b) :: LiftKey(r, b) != key
    ensures Values(Effective(c, File(user, groups, r), true, user), key) == Values(c, key)
  {
    var lines := Directives(user, groups, r, |ORDER|);
    FileIsScoped(c, user, groups, r, user);
    DirectivesAre(user, groups, r, |ORDER|);
    forall line | line in lines ensures line.Directive? && !SetsKey(line, key) {
      var b :| b in ORDER && b in r.blockers && line == Lift(user, groups, r, b);
      LiftSetsItsKey(user, groups, r, b);
    }
    ValueKept(c, lines, user, key);
  }

  // The algorithm list is restated word for word and gains one name.

  predicate Clean(a: string) { Word(a) && ',' !in a }

  lemma {:induction false} TrimmedClean(parts: seq<string>)
    requires forall part | part in parts :: Spaceless(part) && ',' !in part
    ensures forall a | a in NonEmptyTrimmed(parts) :: Clean(a)
    ensures (forall part | part in parts :: part != "") ==> NonEmptyTrimmed(parts) == parts
  {
    if parts != [] {
      var front, last := parts[..|parts| - 1], parts[|parts| - 1];
      assert parts == front + [last];
      assert forall part | part in front :: part in parts;
      assert last in parts;
      TrimSpaceless(last);
      TrimmedClean(front);
    }
  }

  lemma {:induction false} ListedClean(values: seq<string>)
    requires forall v | v in values :: Spaceless(v)
    ensures forall a | a in Listed(values) :: Clean(a)
  {
    if values != [] {
      var last := values[|values| - 1];
      ListedClean(values[..|values| - 1]);
      PartsOf(last, ',');
      forall part | part in Split(last, ',') ensures Spaceless(part) && ',' !in part {
        assert last in values && Spaceless(last);
        assert forall ch | ch in part :: ch in last;
      }
      TrimmedClean(Split(last, ','));
    }
  }

  lemma {:induction false} JoinedSpaceless(parts: seq<string>)
    requires forall part | part in parts :: Spaceless(part)
    ensures Spaceless(Join(parts, ','))
  {
    if |parts| > 1 {
      JoinedSpaceless(parts[1..]);
      SpacelessSum(parts[0], [','] + Join(parts[1..], ','));
      SpacelessSum([','], Join(parts[1..], ','));
      assert Join(parts, ',') == parts[0] + ([','] + Join(parts[1..], ','));
    }
  }

  lemma SpacelessSum(a: string, b: string)
    requires Spaceless(a) && Spaceless(b)
    ensures Spaceless(a + b)
  {
    forall c | c in a + b ensures !Space(c) { assert c in a || c in b; }
  }

  /** A clean list, joined by commas, is one word that lists it again. */
  lemma JoinedListsAgain(all: seq<string>)
    requires all != [] && forall a | a in all :: Clean(a)
    ensures var text := Join(all, ','); text != "" ==> Fields(text) == [text] && Listed([text]) == all
  {
    var text := Join(all, ',');
    JoinedSpaceless(all);
    if text != "" {
      OneWord(text);
      SplitJoin(all, ',');
      TrimmedClean(all);
      assert [text][..0] == [] && Listed([text]) == [] + NonEmptyTrimmed(Split(text, ','));
    }
  }

  lemma EdIsClean()
    ensures Clean(ED25519)
  {
  }

  lemma RestatedList(values: seq<string>)
    requires Listed(values) != [] && forall v | v in values :: Spaceless(v)
    ensures var text := Join(Listed(values), ',') + ",ssh-ed25519";
      Fields(text) == [text] && Listed([text]) == Listed(values) + [ED25519]
  {
    hide Listed, Join, Fields, Spaceless;
    ListedClean(values);
    EdIsClean();
    JoinSnoc(Listed(values), ED25519, ',');
    JoinedListsAgain(Listed(values) + [ED25519]);
    assert Join(Listed(values), ',') + [','] + ED25519 == Join(Listed(values), ',') + ",ssh-ed25519";
  }

  lemma AlgorithmBlocker(r: Report, c: Config, user: string, groups: seq<string>)
    requires Describes(r, c, user, groups)
    ensures KeyAlgorithm in r.blockers <==> Algorithms(c) != [] && ED25519 !in Algorithms(c)
    ensures KeyAlgorithm in r.blockers ==>
      KeyAlgorithm in r.detail && r.detail[KeyAlgorithm] == Join(Algorithms(c), ',')
  {
    assert KeyAlgorithm in METHOD + ACCESS;
    assert KeyAlgorithm in r.blockers <==> Blocked(c, user, groups, KeyAlgorithm);
    assert KeyAlgorithm in r.detail ==> r.detail[KeyAlgorithm] == Offending(c, KeyAlgorithm);
  }

  /** The algorithm blocker never leaves the fix without a directive to write. */
  lemma ReportSpells(r: Report, c: Config, user: string, groups: seq<string>)
    requires Describes(r, c, user, groups)
    ensures Spelled(r) && r.algoDirective == AlgoDirectiveOf(c)
    ensures KeyAlgorithm in r.blockers ==> LiftKey(r, KeyAlgorithm) == AlgoDirectiveOf(c).Key()
  {
    AlgorithmBlocker(r, c, user, groups);
  }

  /** The accepted algorithms grow by exactly ssh-ed25519, and only if that was refused. */
  lemma AlgorithmsGrowByOne(c: Config, user: string, groups: seq<string>, r: Report)
    requires Worded(c) && Username(user) && Describes(r, c, user, groups)
    ensures var c' := Effective(c, File(user, groups, r), true, user);
      AlgoDirectiveOf(c') == AlgoDirectiveOf(c) &&
      Algorithms(c') == Algorithms(c) + if KeyAlgorithm in r.blockers then [ED25519] else []
  {
    ReportSpells(r, c, user, groups);
    var c' := Effective(c, File(user, groups, r), true, user);
    if KeyAlgorithm in r.blockers {
      AlgorithmOverridden(c, user, groups, r);
      if r.algoDirective == PubkeyAcceptedKeyTypes {
        OtherKey(r, ALGORITHMS);
        ChangesOnlyBlocked(c, user, groups, r, ALGORITHMS);
      }
    } else {
      OtherKey(r, ALGORITHMS);
      OtherKey(r, KEY_TYPES);
      ChangesOnlyBlocked(c, user, groups, r, ALGORITHMS);
      ChangesOnlyBlocked(c, user, groups, r, KEY_TYPES);
    }
  }

  lemma AlgorithmOverridden(c: Config, user: string, groups: seq<string>, r: Report)
    requires Worded(c) && Username(user) && Describes(r, c, user, groups) && KeyAlgorithm in r.blockers
    ensures var v := Values(Effective(c, File(user, groups, r), true, user), AlgoDirectiveOf(c).Key());
      |v| == 1 && Listed(v) == Algorithms(c) + [ED25519]
  {
    ReportSpells(r, c, user, groups);
    AlgorithmBlocker(r, c, user, groups);
    var key := AlgoDirectiveOf(c).Key();
    forall v | v in Values(c, key) ensures Spaceless(v) { assert Word(v) by { assert v in c[key]; } }
    RestatedList(Values(c, key));
    Overrides(c, user, groups, r, KeyAlgorithm);
  }

  lemma OtherKey(r: Report, key: string)
    requires key == ALGORITHMS || key == KEY_TYPES
    ensures forall b :: b != KeyAlgorithm ==> LiftKey(r, b) != key
  {
    forall b: Blocker | b != KeyAlgorithm ensures LiftKey(r, b) != key {
      assert |LiftKey(r, b)| != |key|;
    }
  }

  lemma NamesItself(name: string)
    requires Username(name)
    ensures Half(name) == name && Patterns.Scan(name, name, 0, 0, -1, 0) && Fields(name) == [name]
  {
    assert forall c | c in name :: NameChar(c);
    SplitWhole(name, '@');
    LiteralPattern(name, name);
    Patterns.ScanMeansMatches(name, name);
    OneWord(name);
  }

  lemma ListedNameMatches(name: string, names: seq<string>)
    requires Username(name) && name in names
    ensures MatchesAny([name], names)
  {
    NamesItself(name);
    assert UserHalf(name, names);
    assert name in [name];
  }

  /**
   Every fixable report is fixed by its own drop-in: the check on the overridden
   configuration reports no blocker at all.
   */
  lemma DropInSuffices(c: Config, user: string, groups: seq<string>, r: Report, r': Report)
    requires Worded(c) && Username(user)
    requires Describes(r, c, user, groups) && r.Fixable()
    requires AllowGroups in r.blockers ==> Username(PrimaryGroup(groups))
    requires Describes(r', Effective(c, File(user, groups, r), true, user), user, groups)
    ensures r'.OK()
  {
    var c' := Effective(c, File(user, groups, r), true, user);
    forall b: Blocker ensures !Blocked(c', user, groups, b) {
      NotBlockedAfter(c, user, groups, r, b);
    }
    if r'.blockers != [] {
      var b := r'.blockers[0];
      BlockerIff(r', c', user, groups, b);
    }
  }

  lemma BlockerIff(r: Report, c: Config, user: string, groups: seq<string>, b: Blocker)
    requires Describes(r, c, user, groups)
    ensures b in r.blockers <==> Blocked(c, user, groups, b)
  {
    assert b in METHOD + ACCESS;
  }

  lemma NotBlockedAfter(c: Config, user: string, groups: seq<string>, r: Report, b: Blocker)
    requires Worded(c) && Username(user)
    requires Describes(r, c, user, groups) && r.Fixable()
    requires AllowGroups in r.blockers ==> Username(PrimaryGroup(groups))
    ensures !Blocked(Effective(c, File(user, groups, r), true, user), user, groups, b)
  {
    var c' := Effective(c, File(user, groups, r), true, user);
    ReportSpells(r, c, user, groups);
    if b == KeyAlgorithm {
      AlgorithmsGrowByOne(c, user, groups, r);
      AlgorithmBlocker(r, c, user, groups);
    } else if b in r.blockers {
      Overrides(c, user, groups, r, b);
      LiftedValue(user, groups, r, b);
    } else {
      BlockerIff(r, c, user, groups, b);
      forall b' | b' in r.blockers ensures LiftKey(r, b') != LiftKey(r, b) { KeysDiffer(r, b', b); }
      ChangesOnlyBlocked(c, user, groups, r, LiftKey(r, b));
    }
  }

  /** What each lifting directive sets is a value its own rule accepts. */
  lemma LiftedValue(user: string, groups: seq<string>, r: Report, b: Blocker)
    requires Username(user) && b in ORDER && b != KeyAlgorithm
    requires b == AllowGroups ==> Username(PrimaryGroup(groups))
    ensures !Refuses(b, Fields(Lift(user, groups, r, b).args), user, groups)
  {
    match b
    case PubkeyDisabled => LiftedPubkey(user, groups);
    case AuthorizedKeysFile => LiftedKeysFile(user, groups);
    case AuthMethods => LiftedMethods(user, groups);
    case AllowUsers => LiftedAllowUsers(user, groups);
    case AllowGroups => LiftedAllowGroups(user, groups);
  }

  lemma LiftedPubkey(user: string, groups: seq<string>)
    ensures !Refuses(PubkeyDisabled, Fields("yes"), user, groups)
  {
    OneWord("yes");
    assert ToLower("yes") == "yes";
  }

  lemma LiftedKeysFile(user: string, groups: seq<string>)
    ensures !Refuses(AuthorizedKeysFile, Fields(".ssh/authorized_keys"), user, groups)
  {
    hide Fields;
    var e := ".ssh/authorized_keys";
    KeysFileIsAWord();
    OneWord(e);
    assert e in [e];
  }

  lemma KeysFileIsAWord()
    ensures Word(".ssh/authorized_keys")
  {
    assert Spaceless(".ssh/authorized_keys");
  }

  lemma LiftedMethods(user: string, groups: seq<string>)
    ensures !Refuses(AuthMethods, Fields("publickey"), user, groups)
  {
    OneWord("publickey");
  }

  lemma LiftedAllowUsers(user: string, groups: seq<string>)
    requires Username(user)
    ensures !Refuses(AllowUsers, Fields(user), user, groups)
  {
    NamesItself(user);
    ListedNameMatches(user, [user]);
  }

  lemma LiftedAllowGroups(user: string, groups: seq<string>)
    requires Username(PrimaryGroup(groups))
    ensures !Refuses(AllowGroups, Fields(PrimaryGroup(groups)), user, groups)
  {
    NamesItself(groups[0]);
    ListedNameMatches(groups[0], groups);
  }
}
