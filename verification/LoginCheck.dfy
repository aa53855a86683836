/**
 The login check of internal/sysinfo/sshd.go: which directives of an effective
 sshd configuration would refuse an ed25519 key for one account.
 */
module LoginCheck {
  import opened Strings
  import opened Validate
  import Patterns

  /** Lower-case directive names and every value sshd printed for them. */
  type Config = map<string, seq<string>>

  function Values(c: Config, key: string): seq<string> {
    if key in c then c[key] else []
  }

  function First(c: Config, key: string): string {
    if Values(c, key) != [] then Values(c, key)[0] else ""
  }

  /** Values are single words, as ParseSSHD makes them. */
  ghost predicate Worded(c: Config) {
    forall key, value | key in c && value in c[key] :: Word(value)
  }

  const PUBKEY := "pubkeyauthentication"
  const KEYS_FILE := "authorizedkeysfile"
  const METHODS := "authenticationmethods"
  const ALGORITHMS := "pubkeyacceptedalgorithms"
  const KEY_TYPES := "pubkeyacceptedkeytypes"
  const ALLOW_USERS := "allowusers"
  const ALLOW_GROUPS := "allowgroups"
  const DENY_USERS := "denyusers"
  const DENY_GROUPS := "denygroups"

  const ED25519 := "ssh-ed25519"

  datatype Blocker =
    | PubkeyDisabled | AuthorizedKeysFile | AuthMethods | KeyAlgorithm
    | DenyUsers | DenyGroups | AllowUsers | AllowGroups

  /** An explicit denial is the operator's word and is never lifted. */
  predicate Liftable(b: Blocker) { b != DenyUsers && b != DenyGroups }

  datatype Report = Report(
    blockers: seq<Blocker>, detail: map<Blocker, string>, unverifiable: seq<string>, algoDirective: AlgoDirective)
  {
    predicate OK() { blockers == [] }
    predicate Fixable() { blockers != [] && forall b | b in blockers :: Liftable(b) }

    function Block(b: Blocker, what: string): Report {
      this.(blockers := blockers + [b], detail := detail[b := what])
    }
  }

  /** Everything printed for one directive, in the order printed. */
  function Printed(lines: seq<string>, key: string): seq<string> {
    if lines == [] then []
    else
      var fields := Fields(lines[|lines| - 1]);
      Printed(lines[..|lines| - 1], key) +
      if |fields| >= 2 && ToLower(fields[0]) == key then fields[1..] else []
  }

  /** The configuration holds what the lines say, in single words. */
  ghost predicate Holds(c: Config, lines: seq<string>) {
    Worded(c) && forall key :: Values(c, key) == Printed(lines, key)
  }

  lemma WordedAppend(c: Config, key: string, words: seq<string>)
    requires Worded(c) && forall word | word in words :: Word(word)
    ensures Worded(c[key := Values(c, key) + words])
  {
    var added := Values(c, key) + words;
    var c' := c[key := added];
    forall k, value | k in c' && value in c'[k] ensures Word(value) {
      if k == key && value !in words {
        assert key in c && value in c[key];
      } else if k != key {
        assert k in c && value in c[k];
      }
    }
  }

  lemma PrintedSnoc(lines: seq<string>, line: string, key: string)
    ensures var fields := Fields(line);
      Printed(lines + [line], key) ==
      Printed(lines, key) + if |fields| >= 2 && ToLower(fields[0]) == key then fields[1..] else []
  {
    assert (lines + [line])[..|lines|] == lines;
  }

  lemma HoldsOneMore(c: Config, lines: seq<string>, line: string)
    requires Holds(c, lines) && |Fields(line)| >= 2
    ensures var key := ToLower(Fields(line)[0]);
      Holds(c[key := Values(c, key) + Fields(line)[1..]], lines + [line])
  {
    var words := Fields(line)[1..];
    var key := ToLower(Fields(line)[0]);
    FieldsAreWords(line);
    WordedAppend(c, key, words);
    forall k ensures Values(c[key := Values(c, key) + words], k) == Printed(lines + [line], k) {
      PrintedSnoc(lines, line, k);
    }
  }

  lemma HoldsSkipped(c: Config, lines: seq<string>, line: string)
    requires Holds(c, lines) && |Fields(line)| < 2
    ensures Holds(c, lines + [line])
  {
    forall key { PrintedSnoc(lines, line, key); }
  }

  lemma NothingHeld()
    ensures Holds(map[], [])
  {
  }

  /** Reads what sshd -T prints, line by line. */
  method ParseSSHD(out: string) returns (c: Config)
    ensures Holds(c, Split(out, '\n'))
  {
    hide Holds, Printed, Split, ToLower;
    var lines := Split(out, '\n');
    c := map[];
    NothingHeld();
    for n := 0 to |lines|
      invariant Holds(c, lines[..n])
    {
      assert lines[..n + 1] == lines[..n] + [lines[n]];
      var fields := Fields(lines[n]);
      if |fields| < 2 {
        HoldsSkipped(c, lines[..n], lines[n]);
      } else {
        HoldsOneMore(c, lines[..n], lines[n]);
        var key := ToLower(fields[0]);
        c := c[key := Values(c, key) + fields[1..]];
      }
    }
    assert lines[..|lines|] == lines;
  }

  /** strings.EqualFold with "yes", which also folds the two bytes of a long s. */
  predicate Yes(v: string) {
    ToLower(v) == "yes" || (|v| == 4 && ToLower(v[..2]) == "ye" && v[2..] == "\U{C5}\U{BF}")
  }

  /** One trimmed, non-empty entry per comma. */
  function NonEmptyTrimmed(parts: seq<string>): seq<string> {
    if parts == [] then []
    else
      var last := TrimSpace(parts[|parts| - 1]);
      NonEmptyTrimmed(parts[..|parts| - 1]) + if last == "" then [] else [last]
  }

  function Listed(values: seq<string>): seq<string> {
    if values == [] then []
    else Listed(values[..|values| - 1]) + NonEmptyTrimmed(Split(values[|values| - 1], ','))
  }

  method SplitCommas(values: seq<string>) returns (out: seq<string>)
    ensures out == Listed(values)
  {
    hide Split, TrimSpace;
    out := [];
    var n := 0;
    while n < |values|
      invariant n <= |values| && out == Listed(values[..n])
    {
      var parts := Split(values[n], ',');
      ghost var before := out;
      var m := 0;
      while m < |parts|
        invariant m <= |parts| && out == before + NonEmptyTrimmed(parts[..m])
      {
        var part := TrimSpace(parts[m]);
        assert parts[..m + 1][..m] == parts[..m];
        if part != "" { out := out + [part]; }
        m := m + 1;
      }
      assert parts[..m] == parts && values[..n + 1][..n] == values[..n];
      n := n + 1;
    }
    assert values[..n] == values;
  }

  /** Which spelling of the algorithm directive this sshd printed. */
  datatype AlgoDirective = Absent | PubkeyAcceptedAlgorithms | PubkeyAcceptedKeyTypes {
    function Name(): string {
      match this
      case Absent => ""
      case PubkeyAcceptedAlgorithms => "PubkeyAcceptedAlgorithms"
      case PubkeyAcceptedKeyTypes => "PubkeyAcceptedKeyTypes"
    }

    function Key(): string {
      match this
      case Absent => ""
      case PubkeyAcceptedAlgorithms => ALGORITHMS
      case PubkeyAcceptedKeyTypes => KEY_TYPES
    }
  }

  function AlgoDirectiveOf(c: Config): AlgoDirective {
    if Values(c, ALGORITHMS) != [] then PubkeyAcceptedAlgorithms
    else if Values(c, KEY_TYPES) != [] then PubkeyAcceptedKeyTypes
    else Absent
  }

  function Algorithms(c: Config): seq<string> {
    var directive := AlgoDirectiveOf(c);
    if directive == Absent then [] else Listed(Values(c, directive.Key()))
  }

  /** What an AuthorizedKeysFile entry names for this account; "" for no answer. */
  function Expanded(entry: string, user: string): string
    requires Username(user)
  {
    if entry == "" then ""
    else if entry[0] != '%' then [entry[0]] + Expanded(entry[1..], user)
    else if |entry| == 1 then ""
    else Token(entry[1], user) + Expanded(entry[2..], user)
  }

  predicate Resolvable(entry: string)
  {
    entry == "" ||
    (if entry[0] != '%' then Resolvable(entry[1..])
     else |entry| >= 2 && entry[1] in "hu%" && Resolvable(entry[2..]))
  }

  function Token(t: char, user: string): string
    requires Username(user)
  {
    match t case 'h' => "/home/" + user case 'u' => user case '%' => "%" case _ => ""
  }

  method ExpandAuthorizedKeysPath(entry: string, user: string) returns (path: string)
    ensures path == if Username(user) && "/" <= entry && Resolvable(entry) then Expanded(entry, user) else ""
  {
    if !("/" <= entry) || !Username(user) { return ""; }
    hide Token;
    path := "";
    var i := 0;
    while i < |entry|
      invariant i <= |entry|
      invariant Resolvable(entry[i..]) == Resolvable(entry)
      invariant path + Expanded(entry[i..], user) == Expanded(entry, user)
    {
      assert entry[i..][1..] == entry[i + 1..];
      if entry[i] != '%' {
        path := path + [entry[i]];
        i := i + 1;
      } else if i + 1 >= |entry| || entry[i + 1] !in "hu%" {
        return "";
      } else {
        assert entry[i..][2..] == entry[i + 2..];
        path := path + Token(entry[i + 1], user);
        i := i + 2;
      }
    }
  }

  /** The file this tool writes is among the files sshd would read. */
  predicate ReadsManagedFile(entries: seq<string>, user: string) {
    exists e | e in entries ::
      e == ".ssh/authorized_keys" || e == "%h/.ssh/authorized_keys" ||
      (Username(user) && "/" <= e && Resolvable(e) &&
       Expanded(e, user) == "/home/" + user + "/.ssh/authorized_keys")
  }

  method ReadsDefaultAuthorizedKeys(entries: seq<string>, user: string) returns (yes: bool)
    ensures yes == ReadsManagedFile(entries, user)
  {
    for n := 0 to |entries|
      invariant !ReadsManagedFile(entries[..n], user)
    {
      var e := entries[n];
      var path := ExpandAuthorizedKeysPath(e, user);
      if e == ".ssh/authorized_keys" || e == "%h/.ssh/authorized_keys" ||
        (Username(user) && path == "/home/" + user + "/.ssh/authorized_keys")
      {
        assert e in entries;
        return true;
      }
      assert entries[..n + 1] == entries[..n] + [e];
    }
    assert entries[..|entries|] == entries;
    return false;
  }

  /** One alternative that a public key completes alone. */
  predicate KeyAlone(methods: seq<string>) {
    methods == [] || "any" in methods || "publickey" in methods
  }

  /** The part of a pattern before its first '@'. */
  function Half(pattern: string): string { Split(pattern, '@')[0] }

  predicate UserHalf(pattern: string, names: seq<string>) {
    exists n | n in names :: n != "" && Patterns.Scan(Half(pattern), n, 0, 0, -1, 0)
  }

  method MatchesUserHalf(pattern: string, names: seq<string>) returns (yes: bool)
    ensures yes == UserHalf(pattern, names)
  {
    for k := 0 to |names|
      invariant !UserHalf(pattern, names[..k])
    {
      assert names[..k + 1] == names[..k] + [names[k]];
      if names[k] != "" {
        var hit := Patterns.MatchSSHDPattern(Half(pattern), names[k]);
        if hit {
          assert names[k] in names;
          return true;
        }
      }
    }
    assert names[..|names|] == names;
    return false;
  }

  /** Fail closed: a pattern that might apply does. */
  predicate MatchesAny(patterns: seq<string>, names: seq<string>) {
    exists p | p in patterns :: UserHalf(p, names)
  }

  method MatchesUser(patterns: seq<string>, names: seq<string>) returns (yes: bool)
    ensures yes == MatchesAny(patterns, names)
  {
    for k := 0 to |patterns|
      invariant !MatchesAny(patterns[..k], names)
    {
      assert patterns[..k + 1] == patterns[..k] + [patterns[k]];
      var hit := MatchesUserHalf(patterns[k], names);
      if hit {
        assert patterns[k] in patterns;
        return true;
      }
    }
    assert patterns[..|patterns|] == patterns;
    return false;
  }

  /** A match that no source address qualifies. */
  predicate AllowedOutright(patterns: seq<string>, names: seq<string>) {
    exists p | p in patterns :: UserHalf(p, names) && '@' !in p
  }

  /** The matching entries whose verdict depends on the source address. */
  function Unsure(patterns: seq<string>, names: seq<string>): seq<string> {
    if patterns == [] then []
    else
      var last := patterns[|patterns| - 1];
      Unsure(patterns[..|patterns| - 1], names) + if UserHalf(last, names) && '@' in last then [last] else []
  }

  lemma {:induction false} UnsureOrNot(patterns: seq<string>, names: seq<string>)
    ensures MatchesAny(patterns, names) <==> AllowedOutright(patterns, names) || Unsure(patterns, names) != []
  {
    if patterns != [] {
      var front, last := patterns[..|patterns| - 1], patterns[|patterns| - 1];
      UnsureOrNot(front, names);
      assert patterns == front + [last];
      assert MatchesAny(patterns, names) <==> MatchesAny(front, names) || UserHalf(last, names);
      assert AllowedOutright(patterns, names) <==>
        AllowedOutright(front, names) || (UserHalf(last, names) && '@' !in last);
    }
  }

  method MatchesAllow(patterns: seq<string>, names: seq<string>) returns (allowed: bool, unsure: seq<string>)
    ensures allowed == AllowedOutright(patterns, names)
    ensures unsure == Unsure(patterns, names)
  {
    hide UserHalf;
    allowed, unsure := false, [];
    for k := 0 to |patterns|
      invariant allowed == AllowedOutright(patterns[..k], names)
      invariant unsure == Unsure(patterns[..k], names)
    {
      var p := patterns[k];
      assert patterns[..k + 1][..k] == patterns[..k];
      assert patterns[..k + 1] == patterns[..k] + [p];
      var hit := MatchesUserHalf(p, names);
      if hit {
        if '@' in p { unsure := unsure + [p]; } else { allowed := true; }
      }
    }
    assert patterns[..|patterns|] == patterns;
  }

  /** The directive each rule but the algorithm one looks at. */
  function KeyOf(b: Blocker): string {
    match b
    case PubkeyDisabled => PUBKEY
    case AuthorizedKeysFile => KEYS_FILE
    case AuthMethods => METHODS
    case DenyUsers => DENY_USERS
    case DenyGroups => DENY_GROUPS
    case AllowUsers => ALLOW_USERS
    case AllowGroups => ALLOW_GROUPS
    case KeyAlgorithm => ""
  }

  /** These values of its directive would refuse the account's key. */
  predicate Refuses(b: Blocker, values: seq<string>, user: string, groups: seq<string>) {
    match b
    case PubkeyDisabled => values == [] || !Yes(values[0])
    case AuthorizedKeysFile => values != [] && !ReadsManagedFile(values, user)
    case AuthMethods => !KeyAlone(values)
    case DenyUsers => MatchesAny(values, [user])
    case DenyGroups => MatchesAny(values, groups)
    case AllowUsers => values != [] && !MatchesAny(values, [user])
    case AllowGroups => values != [] && !MatchesAny(values, groups)
    case KeyAlgorithm => false
  }

  /** The configuration refuses the account's key because of this directive. */
  predicate Blocked(c: Config, user: string, groups: seq<string>, b: Blocker) {
    if b == KeyAlgorithm then Algorithms(c) != [] && ED25519 !in Algorithms(c)
    else Refuses(b, Values(c, KeyOf(b)), user, groups)
  }

  /** The value a report quotes for a blocker. */
  function Offending(c: Config, b: Blocker): string {
    if b == KeyAlgorithm then Join(Algorithms(c), ',')
    else if b == PubkeyDisabled then First(c, PUBKEY)
    else Join(Values(c, KeyOf(b)), ' ')
  }

  /** Of the rules looked at, the report names the blockers and quotes their values. */
  ghost predicate Covers(r: Report, c: Config, user: string, groups: seq<string>, looked: set<Blocker>) {
    (forall b :: b in r.blockers <==> b in looked && Blocked(c, user, groups, b)) &&
    (forall b :: b in r.detail <==> b in r.blockers) &&
    (forall b | b in r.detail :: r.detail[b] == Offending(c, b))
  }

  lemma CoversOneMore(r: Report, c: Config, user: string, groups: seq<string>, looked: set<Blocker>, b: Blocker)
    requires Covers(r, c, user, groups, looked)
    ensures Covers(if Blocked(c, user, groups, b) then r.Block(b, Offending(c, b)) else r,
                   c, user, groups, looked + {b})
  {
  }

  lemma EmptyIsNoYes()
    ensures !Yes("")
  {
    assert |ToLower("")| == 0;
  }

  lemma NothingCovered(r: Report, c: Config, user: string, groups: seq<string>)
    requires r.blockers == [] && r.detail == map[]
    ensures Covers(r, c, user, groups, {})
  {
  }

  const ACCESS := {DenyUsers, DenyGroups, AllowUsers, AllowGroups}
  const METHOD := {PubkeyDisabled, AuthorizedKeysFile, AuthMethods, KeyAlgorithm}

  function Undecided(c: Config, user: string): seq<string> {
    if AllowedOutright(Values(c, ALLOW_USERS), [user]) then [] else Unsure(Values(c, ALLOW_USERS), [user])
  }

  /** The report names every blocker, nothing else, and quotes its value. */
  ghost predicate Describes(r: Report, c: Config, user: string, groups: seq<string>) {
    Covers(r, c, user, groups, METHOD + ACCESS) &&
    r.algoDirective == AlgoDirectiveOf(c) &&
    r.unverifiable == Undecided(c, user)
  }

  method CheckAccess(c: Config, user: string, groups: seq<string>, r0: Report, ghost looked: set<Blocker>)
    returns (r: Report)
    requires Covers(r0, c, user, groups, looked)
    ensures Covers(r, c, user, groups, looked + ACCESS)
    ensures r.algoDirective == r0.algoDirective
    ensures r.unverifiable == r0.unverifiable + Undecided(c, user)
  {
    hide Covers, Undecided, MatchesAny, Join;
    r := r0;
    var hit := MatchesUser(Values(c, DENY_USERS), [user]);
    CoversOneMore(r, c, user, groups, looked, DenyUsers);
    if hit { r := r.Block(DenyUsers, Join(Values(c, DENY_USERS), ' ')); }
    hit := MatchesUser(Values(c, DENY_GROUPS), groups);
    CoversOneMore(r, c, user, groups, looked + {DenyUsers}, DenyGroups);
    if hit { r := r.Block(DenyGroups, Join(Values(c, DENY_GROUPS), ' ')); }
    r := CheckAllowUsers(c, user, groups, r, looked + {DenyUsers} + {DenyGroups});
    CoversOneMore(r, c, user, groups, looked + {DenyUsers} + {DenyGroups} + {AllowUsers}, AllowGroups);
    if Values(c, ALLOW_GROUPS) != [] {
      hit := MatchesUser(Values(c, ALLOW_GROUPS), groups);
      if !hit { r := r.Block(AllowGroups, Join(Values(c, ALLOW_GROUPS), ' ')); }
    }
    assert looked + {DenyUsers} + {DenyGroups} + {AllowUsers} + {AllowGroups} == looked + ACCESS;
  }

  /** An address-qualified match is neither permission nor a blocker. */
  method CheckAllowUsers(c: Config, user: string, groups: seq<string>, r0: Report, ghost looked: set<Blocker>)
    returns (r: Report)
    requires Covers(r0, c, user, groups, looked)
    ensures Covers(r, c, user, groups, looked + {AllowUsers})
    ensures r.algoDirective == r0.algoDirective
    ensures r.unverifiable == r0.unverifiable + Undecided(c, user)
  {
    r := r0;
    var allow := Values(c, ALLOW_USERS);
    UnsureOrNot(allow, [user]);
    CoversOneMore(r, c, user, groups, looked, AllowUsers);
    if allow != [] {
      var allowed, unsure := MatchesAllow(allow, [user]);
      if allowed {
      } else if unsure != [] {
        r := r.(unverifiable := r.unverifiable + unsure);
      } else {
        r := r.Block(AllowUsers, Join(allow, ' '));
      }
    }
  }

  method CheckKeyLogin(c: Config, user: string, groups: seq<string>) returns (r: Report)
    ensures Describes(r, c, user, groups)
  {
    hide Covers, Undecided, Listed, ReadsManagedFile, KeyAlone, Yes, Join;
    EmptyIsNoYes();
    var directive := AlgoDirectiveOf(c);
    r := Report([], map[], [], directive);
    NothingCovered(r, c, user, groups);
    CoversOneMore(r, c, user, groups, {}, PubkeyDisabled);
    if !Yes(First(c, PUBKEY)) { r := r.Block(PubkeyDisabled, First(c, PUBKEY)); }
    var readable := ReadsDefaultAuthorizedKeys(Values(c, KEYS_FILE), user);
    CoversOneMore(r, c, user, groups, {PubkeyDisabled}, AuthorizedKeysFile);
    if Values(c, KEYS_FILE) != [] && !readable {
      r := r.Block(AuthorizedKeysFile, Join(Values(c, KEYS_FILE), ' '));
    }
    CoversOneMore(r, c, user, groups, {PubkeyDisabled} + {AuthorizedKeysFile}, AuthMethods);
    if !KeyAlone(Values(c, METHODS)) { r := r.Block(AuthMethods, Join(Values(c, METHODS), ' ')); }
    var algorithms := [];
    if directive != Absent { algorithms := SplitCommas(Values(c, directive.Key())); }
    CoversOneMore(r, c, user, groups, {PubkeyDisabled} + {AuthorizedKeysFile} + {AuthMethods}, KeyAlgorithm);
    if algorithms != [] && ED25519 !in algorithms {
      r := r.Block(KeyAlgorithm, Join(algorithms, ','));
    }
    assert {PubkeyDisabled} + {AuthorizedKeysFile} + {AuthMethods} + {KeyAlgorithm} == METHOD;
    r := CheckAccess(c, user, groups, r, METHOD);
  }
}
