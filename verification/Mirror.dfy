/**
 Publication by scripts/mirror-receiver.py: immutable version trees, filled file
 by file, and two stable files that may only move forward. Requests run one at
 a time under a lock and may be killed at any step; what every kill leaves is
 what a reader of the mirror could have seen at that moment.
 */
module Mirror {
  import opened Wrappers
  import opened Versions

  type Files = map<string, string>

  /** A version directory: its files, and the names private temporaries were left for. */
  datatype Tree = Tree(files: Files, temps: set<string>)

  type Trees = map<string, Tree>

  const EXPECTED: seq<string> := [
    "SHA256SUMS", "linux-temp-admin-linux-amd64", "linux-temp-admin-linux-amd64.sig",
    "linux-temp-admin-linux-arm64", "linux-temp-admin-linux-arm64.sig", "install.sh"]

  const CHECKSUMMED: seq<string> := [
    "linux-temp-admin-linux-amd64", "linux-temp-admin-linux-amd64.sig",
    "linux-temp-admin-linux-arm64", "linux-temp-admin-linux-arm64.sig"]

  const INSTALLER := "install.sh"

  const MAX_BINARY_BYTES := 64 * 1024 * 1024

  const MAX_METADATA_BYTES := 1024 * 1024

  predicate SizeAllowed(name: string, size: nat) {
    if name in {"linux-temp-admin-linux-amd64", "linux-temp-admin-linux-arm64"} then 0 < size <= MAX_BINARY_BYTES
    else if name in {"linux-temp-admin-linux-amd64.sig", "linux-temp-admin-linux-arm64.sig"} then size == 64
    else 0 < size <= MAX_METADATA_BYTES
  }

  /** One line a checksummed file. */
  function Checksums(hash: string -> string, files: Files, names: seq<string>): string
    requires forall name | name in names :: name in files
  {
    if names == [] then ""
    else hash(files[names[0]]) + "  " + names[0] + "\n" + Checksums(hash, files, names[1..])
  }

  /** Exactly the release set, with plausible sizes and a canonical checksum file. */
  predicate Complete(hash: string -> string, files: Files) {
    files.Keys == (set name | name in EXPECTED) &&
    (forall name | name in EXPECTED :: SizeAllowed(name, |files[name]|)) &&
    files["SHA256SUMS"] == Checksums(hash, files, CHECKSUMMED)
  }

  predicate Stable(tag: string) { Parse(tag, true).Accepted? }

  // ---- The manifest ----

  datatype Latest = Latest(tag: string, at: string)

  const OPENING := "{\"version\":\""
  const TAG := "\",\"tag\":\""
  const BASE_URL := "\",\"base_url\":\"https://dl.ll.cd/linux-temp-admin/"
  const PUBLISHED_AT := "\",\"published_at\":\""
  const CLOSING := "\"}\n"

  /** All of a tag's manifest before the time. */
  function Front(tag: string): string
    requires tag != ""
  {
    OPENING + (tag[1..] + (TAG + tag + BASE_URL + tag + PUBLISHED_AT))
  }

  /** The canonical single line for a tag and a time. */
  function Manifest(l: Latest): string
    requires l.tag != ""
  {
    Front(l.tag) + (l.at + CLOSING)
  }

  function QuoteAt(s: string): (n: nat)
    ensures n <= |s|
  {
    if s == "" || s[0] == '"' then 0 else 1 + QuoteAt(s[1..])
  }

  /** dddd-dd-ddTdd:dd:dd(.d{1,9})?Z */
  predicate TimeShape(at: string) {
    20 <= |at| <= 30 && at[|at| - 1] == 'Z' && |at| != 21 &&
    (forall i | 0 <= i < |at| - 1 ::
      if i in {4, 7} then at[i] == '-'
      else if i == 10 then at[i] == 'T'
      else if i in {13, 16} then at[i] == ':'
      else if i == 19 then at[i] == '.'
      else Digit(at[i]))
  }

  /** parse_latest: the one reading of a canonical manifest of a stable tag. */
  function ParseLatest(calendar: string -> bool, raw: string): (r: Option<Latest>)
    ensures r.Some? ==> Stable(r.value.tag)
  {
    if |raw| > MAX_METADATA_BYTES || !(OPENING <= raw) then None
    else
      var rest := raw[|OPENING|..];
      var tag := "v" + rest[..QuoteAt(rest)];
      if !Stable(tag) || !(Front(tag) <= raw) then None
      else
        var end := raw[|Front(tag)|..];
        var at := end[..QuoteAt(end)];
        if raw == Manifest(Latest(tag, at)) && TimeShape(at) && calendar(at) then Some(Latest(tag, at)) else None
  }

  lemma {:induction false} QuoteAfter(a: string, rest: string)
    requires '"' !in a && rest != "" && rest[0] == '"'
    ensures QuoteAt(a + rest) == |a|
  {
    if a == "" {
      assert a + rest == rest;
    } else {
      assert (a + rest)[1..] == a[1..] + rest;
      QuoteAfter(a[1..], rest);
    }
  }

  lemma {:induction false} DecimalHasNoQuote(s: string)
    requires Decimal(s)
    ensures '"' !in s
  {
  }

  lemma {:induction false} StableTagHasNoQuote(tag: string)
    requires Stable(tag)
    ensures tag != "" && tag[0] == 'v' && '"' !in tag[1..] && CanonicalKey(Parse(tag, true).key)
  {
    hide Parse, Decimal;
    var k := Parse(tag, true).key;
    ParseReadsTheGrammar(tag, true, k);
    DecimalHasNoQuote(k.major);
    DecimalHasNoQuote(k.minor);
    DecimalHasNoQuote(k.patch);
    var last := k.minor + ("." + (k.patch + ""));
    assert '"' !in last;
    assert tag == "v" + (k.major + "." + (k.minor + "." + (k.patch + "")));
    assert tag[1..] == k.major + ("." + last);
  }

  lemma {:induction false} TagReadBack(tag: string, end: string)
    requires tag != "" && tag[0] == 'v' && '"' !in tag[1..]
    ensures var raw := Front(tag) + end;
      OPENING <= raw && "v" + raw[|OPENING|..][..QuoteAt(raw[|OPENING|..])] == tag
  {
    hide OPENING, BASE_URL, PUBLISHED_AT;
    var after := TAG + tag + BASE_URL + tag + PUBLISHED_AT;
    var raw := Front(tag) + end;
    assert raw == OPENING + (tag[1..] + (after + end));
    assert raw[|OPENING|..] == tag[1..] + (after + end);
    assert after[0] == TAG[0];
    QuoteAfter(tag[1..], after + end);
    assert (tag[1..] + (after + end))[..|tag[1..]|] == tag[1..];
    assert "v" + tag[1..] == tag;
  }

  lemma {:induction false} TimeReadBack(at: string)
    requires TimeShape(at)
    ensures var end := at + CLOSING; end[..QuoteAt(end)] == at
  {
    assert forall i | 0 <= i < |at| :: at[i] != '"';
    QuoteAfter(at, CLOSING);
    assert (at + CLOSING)[..|at|] == at;
  }

  /** A manifest is read back as written, and nothing else is read as one. */
  lemma {:induction false} ManifestRoundTrip(calendar: string -> bool, raw: string, l: Latest)
    ensures ParseLatest(calendar, raw) == Some(l) <==>
      Stable(l.tag) && TimeShape(l.at) && calendar(l.at) && |raw| <= MAX_METADATA_BYTES &&
      l.tag != "" && raw == Manifest(l)
  {
    hide Parse, Front, QuoteAt, TimeShape, OPENING, CLOSING;
    if Stable(l.tag) && TimeShape(l.at) && l.tag != "" && raw == Manifest(l) {
      StableTagHasNoQuote(l.tag);
      var end := l.at + CLOSING;
      TagReadBack(l.tag, end);
      TimeReadBack(l.at);
      assert raw[|Front(l.tag)|..] == end;
    }
  }

  // ---- What publication promises ----

  predicate Contains(trees: Trees, hash: string -> string, tag: string) {
    tag in trees && Complete(hash, trees[tag].files)
  }

  /** A complete stable version whose installer is these bytes. */
  predicate Offers(trees: Trees, hash: string -> string, tag: string, installer: string) {
    Stable(tag) && Contains(trees, hash, tag) && trees[tag].files[INSTALLER] == installer
  }

  predicate NotOlder(tag: string, than: string)
    requires Stable(tag) && Stable(than)
  {
    AtLeast(Parse(tag, true).key, Parse(than, true).key)
  }

  /** The stable installer belongs to some complete stable version, this new or newer. */
  ghost predicate InstallerCovers(trees: Trees, hash: string -> string, installer: string, tag: string)
    requires Stable(tag)
  {
    exists source :: Offers(trees, hash, source, installer) && NotOlder(source, tag)
  }

  /** A manifest names a complete version, and the installer is that version's or a newer one's. */
  ghost predicate LatestSound(
    trees: Trees, hash: string -> string, calendar: string -> bool,
    installer: Option<string>, latest: Option<string>)
  {
    latest.Some? ==>
      var l := ParseLatest(calendar, latest.value);
      l.Some? && Contains(trees, hash, l.value.tag) &&
      installer.Some? && InstallerCovers(trees, hash, installer.value, l.value.tag)
  }

  ghost predicate FilesKept(before: Files, after: Files) {
    forall name | name in before :: name in after && after[name] == before[name]
  }

  /** No published file changes or disappears, and a complete version stays exactly as it is. */
  ghost predicate TreesGrow(hash: string -> string, before: Trees, after: Trees) {
    forall tag | tag in before ::
      tag in after && FilesKept(before[tag].files, after[tag].files) &&
      (Complete(hash, before[tag].files) ==> after[tag].files == before[tag].files)
  }

  /** The manifest stays byte for byte, or names a strictly newer version. */
  ghost predicate LatestAdvances(calendar: string -> bool, before: Option<string>, after: Option<string>) {
    before.Some? ==> (after.Some? && (after == before || Newer(calendar, before.value, after.value)))
  }

  predicate Newer(calendar: string -> bool, previous: string, next: string) {
    var b, a := ParseLatest(calendar, previous), ParseLatest(calendar, next);
    b.Some? && a.Some? && KeyLess(Parse(b.value.tag, true).key, Parse(a.value.tag, true).key)
  }

  lemma {:induction false} TreesGrowOn(hash: string -> string, a: Trees, b: Trees, c: Trees)
    requires TreesGrow(hash, a, b) && TreesGrow(hash, b, c)
    ensures TreesGrow(hash, a, c)
  {
  }

  lemma {:induction false} LatestAdvancesOn(
    calendar: string -> bool, a: Option<string>, b: Option<string>, c: Option<string>)
    requires LatestAdvances(calendar, a, b) && LatestAdvances(calendar, b, c)
    ensures LatestAdvances(calendar, a, c)
  {
    hide Parse, KeyLess, CanonicalKey;
    if a.Some? && a != b && b != c {
      var l, m, n :=
        ParseLatest(calendar, a.value).value, ParseLatest(calendar, b.value).value, ParseLatest(calendar, c.value).value;
      StableTagHasNoQuote(l.tag);
      StableTagHasNoQuote(m.tag);
      StableTagHasNoQuote(n.tag);
      KeyOrderIsTransitive(Parse(l.tag, true).key, Parse(m.tag, true).key, Parse(n.tag, true).key);
    }
  }

  lemma {:induction false} GrowthKeepsLatestSound(
    before: Trees, after: Trees, hash: string -> string, calendar: string -> bool,
    installer: Option<string>, latest: Option<string>)
    requires LatestSound(before, hash, calendar, installer, latest) && TreesGrow(hash, before, after)
    ensures LatestSound(after, hash, calendar, installer, latest)
  {
    hide Stable, ParseLatest, Complete, NotOlder;
    if latest.Some? {
      var tag := ParseLatest(calendar, latest.value).value.tag;
      var source :| Offers(before, hash, source, installer.value) && NotOlder(source, tag);
      assert Offers(after, hash, source, installer.value);
    }
  }

  // ---- The receiver ----

  datatype Outcome = Published | Refused | Killed

  datatype Request = Version(tag: string, files: Files) | StableFile(name: string, bytes: string)

  class Site {
    const hash: string -> string
    const calendar: string -> bool
    var trees: Trees
    var installer: Option<string>
    var latest: Option<string>
    var temps: set<string>

    ghost predicate Sound()
      reads this
    {
      LatestSound(trees, hash, calendar, installer, latest)
    }

    constructor (hash: string -> string, calendar: string -> bool)
      ensures Sound() && trees == map[] && installer == latest == None
    {
      this.hash, this.calendar := hash, calendar;
      trees, installer, latest, temps := map[], None, None, {};
    }

    /** validate_version on a published directory; it may also fail to read. */
    method ValidatePublished(tag: string) returns (ok: bool)
      ensures ok ==> Contains(trees, hash, tag) && trees[tag].temps == {}
    {
      if tag !in trees || trees[tag].temps != {} || !Complete(hash, trees[tag].files) { return false; }
      ok := *;
    }

    /** Removes what an interrupted request left behind; it may stop half-way. */
    method CleanTemps(tag: string) returns (o: Outcome)
      requires tag in trees
      modifies this`trees
      ensures exists temps: set<string> ::
        temps <= old(trees)[tag].temps && trees == old(trees)[tag := old(trees)[tag].(temps := temps)]
      ensures o == Published ==> trees[tag].temps == {}
    {
      var left := trees[tag].temps;
      assert trees == trees[tag := trees[tag].(temps := left)];
      while left != {}
        invariant left <= old(trees)[tag].temps
        invariant trees == old(trees)[tag := old(trees)[tag].(temps := left)]
        decreases |left|
      {
        if * { return Killed; }
        if * { return Outcome.Refused; }
        var name :| name in left;
        left := left - {name};
        trees := trees[tag := trees[tag].(temps := left)];
      }
      if * { return Killed; }
      if * { return Outcome.Refused; }
      o := Published;
    }

    /** Copies one file beside its destination and renames it there without replacing. */
    method PublishFile(tag: string, name: string, bytes: string) returns (o: Outcome)
      requires tag in trees && name !in trees[tag].files && trees[tag].temps == {}
      modifies this`trees
      ensures tag in trees && trees == old(trees)[tag := trees[tag]]
      ensures trees[tag].files == old(trees)[tag].files ||
        trees[tag].files == old(trees)[tag].files[name := bytes]
      ensures o == Published ==> trees[tag] == Tree(old(trees)[tag].files[name := bytes], {})
    {
      if * { return Outcome.Refused; }
      trees := trees[tag := trees[tag].(temps := {name})];
      if * { return Killed; }
      if * {
        trees := trees[tag := trees[tag].(temps := {})];
        return Outcome.Refused;
      }
      trees := trees[tag := Tree(trees[tag].files[name := bytes], {})];
      if * { return Killed; }
      if * { return Outcome.Refused; }
      o := Published;
    }

    /**
     A request for a version fills in what is missing. It can finish, or leave
     part of the release; a file already there is never replaced.
     */
    method PublishVersion(staged: Files, tag: string) returns (o: Outcome)
      modifies this`trees
      ensures trees.Keys <= old(trees).Keys + {tag}
      ensures forall other | other in old(trees) && other != tag ::
        other in trees && trees[other] == old(trees)[other]
      ensures tag in old(trees) ==> tag in trees
      ensures tag in trees ==>
        Filled(if tag in old(trees) then old(trees)[tag].files else map[], trees[tag].files, staged)
      ensures tag in trees && (tag !in old(trees) || trees[tag].files != old(trees)[tag].files) ==>
        Parse(tag, false).Accepted? && Complete(hash, staged)
      ensures o == Published ==>
        Parse(tag, false).Accepted? && Complete(hash, staged) && tag in trees && trees[tag] == Tree(staged, {})
    {
      hide Parse, EXPECTED;
      if !Parse(tag, false).Accepted? || !Complete(hash, staged) { return Outcome.Refused; }
      if * { return Outcome.Refused; }
      if tag in trees {
        o := CleanTemps(tag);
        if o != Published { return; }
        var same := Agrees(trees[tag].files, staged);
        if !same { return Outcome.Refused; }
      }
      if * { return Outcome.Refused; }
      if * { return Killed; }
      if tag !in trees {
        trees := trees[tag := Tree(map[], {})];
      }
      o := Fill(staged, tag);
    }

    /** Every file already there must be an expected one with the staged bytes. */
    method Agrees(existing: Files, staged: Files) returns (same: bool)
      requires Complete(hash, staged)
      ensures same ==> forall name | name in existing :: name in staged && existing[name] == staged[name]
    {
      hide EXPECTED;
      if !(existing.Keys <= staged.Keys) { return false; }
      var todo := existing.Keys;
      while todo != {}
        invariant todo <= existing.Keys
        invariant forall name | name in existing && name !in todo :: existing[name] == staged[name]
        decreases |todo|
      {
        var name :| name in todo;
        if existing[name] != staged[name] { return false; }
        if * { return false; }
        todo := todo - {name};
      }
      same := true;
    }

    method Fill(staged: Files, tag: string) returns (o: Outcome)
      requires tag in trees && Complete(hash, staged) && trees[tag].temps == {}
      requires forall name | name in trees[tag].files :: name in staged && trees[tag].files[name] == staged[name]
      modifies this`trees
      ensures tag in trees && trees == old(trees)[tag := trees[tag]]
      ensures Filled(old(trees)[tag].files, trees[tag].files, staged)
      ensures o == Published ==> trees[tag] == Tree(staged, {})
    {
      hide Complete, EXPECTED;
      if * { return Outcome.Refused; }
      assert trees == trees[tag := trees[tag]];
      ReleaseHas(hash, staged);
      for i := 0 to |EXPECTED|
        invariant tag in trees && trees == old(trees)[tag := trees[tag]] && trees[tag].temps == {}
        invariant Filled(old(trees)[tag].files, trees[tag].files, staged)
        invariant forall name | name in trees[tag].files :: name in staged && trees[tag].files[name] == staged[name]
        invariant forall j | 0 <= j < i :: EXPECTED[j] in trees[tag].files
      {
        var name := EXPECTED[i];
        if name !in trees[tag].files {
          o := PublishFile(tag, name, staged[name]);
          if o != Published { return; }
        }
      }
      WholeRelease(hash, trees[tag].files, staged);
      var ok := ValidatePublished(tag);
      if !ok { return Outcome.Refused; }
      if * { return Killed; }
      if * { return Outcome.Refused; }
      o := Published;
    }

    /**
     Every stable version with this installer, as far as the scan can read: the
     unreadable ones are passed over, the deadline stops it altogether.
     */
    method MatchingStableInstallerVersions(bytes: string, unreadable: set<string>)
      returns (ok: bool, matches: seq<Key>)
      ensures ok ==> forall k ::
        k in matches <==> exists tag :: tag in trees && tag !in unreadable && Matches(trees, hash, tag, bytes, k)
    {
      hide Matches;
      matches := [];
      var todo := trees.Keys;
      while todo != {}
        invariant todo <= trees.Keys
        invariant forall k :: k in matches <==>
          exists tag :: tag in trees && tag !in todo && tag !in unreadable && Matches(trees, hash, tag, bytes, k)
        decreases |todo|
      {
        if * { return false, []; }
        var tag :| tag in todo;
        ghost var before, left := matches, todo - {tag};
        if tag !in unreadable && Stable(tag) && Matches(trees, hash, tag, bytes, Parse(tag, true).key) {
          matches := matches + [Parse(tag, true).key];
        }
        forall k
          ensures k in matches <==>
            exists t :: t in trees && t !in left && t !in unreadable && Matches(trees, hash, t, bytes, k)
        {
          KeyOfAMatch(trees, hash, tag, bytes, k);
        }
        todo := todo - {tag};
      }
      ok := *;
    }

    /** The manifest in force, only while its version validates. */
    method CurrentLatestState() returns (ok: bool, current: Option<(Key, string)>)
      ensures ok ==> (current == None <==> latest == None)
      ensures ok && current.Some? ==>
        var l := ParseLatest(calendar, latest.value);
        l.Some? && Contains(trees, hash, l.value.tag) &&
        current.value == (Parse(l.value.tag, true).key, latest.value)
    {
      hide Parse, ParseLatest;
      if latest == None { return true, None; }
      var l := ParseLatest(calendar, latest.value);
      if l == None { return false, None; }
      ok := ValidatePublished(l.value.tag);
      current := Some((Parse(l.value.tag, true).key, latest.value));
    }

    /** Readers see the old file or the whole new one. */
    method AtomicReplace(name: string, bytes: string) returns (o: Outcome)
      requires name in {INSTALLER, MANIFEST}
      modifies this`installer, this`latest, this`temps
      ensures (installer == old(installer) && latest == old(latest) && o != Published) ||
        (installer == (if name == INSTALLER then Some(bytes) else old(installer)) &&
         latest == (if name == MANIFEST then Some(bytes) else old(latest)))
    {
      if * { return Outcome.Refused; }
      if * { return Killed; }
      temps := temps - {name};
      if * { return Killed; }
      if * { return Outcome.Refused; }
      temps := temps + {name};
      if * { return Killed; }
      if * {
        temps := temps - {name};
        return Outcome.Refused;
      }
      if name == INSTALLER {
        installer := Some(bytes);
      } else {
        latest := Some(bytes);
      }
      temps := temps - {name};
      if * { return Killed; }
      if * { return Outcome.Refused; }
      o := Published;
    }

    /** The stable installer must be a complete stable version's, and none older than the manifest's. */
    method PublishInstaller(bytes: string, unreadable: set<string>) returns (o: Outcome)
      requires Sound()
      modifies this`installer, this`temps, this`latest
      ensures Sound() && latest == old(latest)
      ensures installer == old(installer) || installer == Some(bytes)
      ensures installer != old(installer) || o == Published ==>
        installer == Some(bytes) && exists source :: Offers(trees, hash, source, bytes)
    {
      hide Parse, ParseLatest, Complete, AtLeast;
      if !(0 < |bytes| <= MAX_METADATA_BYTES) { return Outcome.Refused; }
      var ok, matches := MatchingStableInstallerVersions(bytes, unreadable);
      if !ok || matches == [] { return Outcome.Refused; }
      var current;
      ok, current := CurrentLatestState();
      if !ok { return Outcome.Refused; }
      if current.Some? && !(exists k | k in matches :: AtLeast(k, current.value.0)) { return Outcome.Refused; }
      if * { return Outcome.Refused; }
      ghost var k := matches[0];
      if current.Some? { k :| k in matches && AtLeast(k, current.value.0); }
      assert k in matches;
      ghost var source :| source in trees && source !in unreadable && Matches(trees, hash, source, bytes, k);
      assert Offers(trees, hash, source, bytes);
      o := AtomicReplace(INSTALLER, bytes);
      if o == Published {
        if * { o := Outcome.Refused; }
      }
    }

    /** A manifest must match the installer in place, and never go back or be reworded. */
    method PublishManifest(bytes: string) returns (o: Outcome)
      requires Sound()
      modifies this`installer, this`temps, this`latest
      ensures Sound() && installer == old(installer)
      ensures latest == old(latest) || latest == Some(bytes)
      ensures LatestAdvances(calendar, old(latest), latest)
      ensures latest != old(latest) || o == Published ==>
        latest == Some(bytes) && ParseLatest(calendar, bytes).Some? &&
        installer.Some? && Offers(trees, hash, ParseLatest(calendar, bytes).value.tag, installer.value)
    {
      hide Parse, ParseLatest, Complete, KeyLess;
      var candidate := ParseLatest(calendar, bytes);
      if candidate == None { return Outcome.Refused; }
      var tag := candidate.value.tag;
      var ok := ValidatePublished(tag);
      if !ok { return Outcome.Refused; }
      CompleteHasAnInstaller(hash, trees[tag].files);
      if installer == None || installer.value != trees[tag].files[INSTALLER] { return Outcome.Refused; }
      if * { return Outcome.Refused; }
      var current;
      ok, current := CurrentLatestState();
      if !ok { return Outcome.Refused; }
      if current.Some? {
        if KeyLess(Parse(tag, true).key, current.value.0) { return Outcome.Refused; }
        if Parse(tag, true).key == current.value.0 && bytes != current.value.1 { return Outcome.Refused; }
        Ordered(tag, ParseLatest(calendar, latest.value).value.tag);
      }
      if * { return Outcome.Refused; }
      assert Offers(trees, hash, tag, installer.value) && NotOlder(tag, tag);
      o := AtomicReplace(MANIFEST, bytes);
      if o == Published {
        if * { o := Outcome.Refused; }
      }
    }

    method PublishStable(name: string, bytes: string, unreadable: set<string>) returns (o: Outcome)
      requires Sound()
      modifies this`installer, this`temps, this`latest
      ensures Sound() && LatestAdvances(calendar, old(latest), latest)
      ensures name != INSTALLER ==> installer == old(installer)
      ensures name != MANIFEST ==> latest == old(latest)
      ensures o == Published ==>
        (name == INSTALLER && installer == Some(bytes)) || (name == MANIFEST && latest == Some(bytes))
    {
      hide Sound;
      if name == INSTALLER {
        o := PublishInstaller(bytes, unreadable);
      } else if name == MANIFEST {
        o := PublishManifest(bytes);
      } else {
        o := Outcome.Refused;
      }
    }

    /**
     Any requests at all, each of which may be refused or killed at any step:
     what was published stays, the manifest only moves to newer versions, and it
     always names a complete version that the installer is not behind.
     */
    method Serve(requests: seq<Request>)
      requires Sound()
      modifies this
      ensures Sound()
      ensures TreesGrow(hash, old(trees), trees)
      ensures LatestAdvances(calendar, old(latest), latest)
    {
      hide LatestSound, TreesGrow, LatestAdvances;
      TreesGrowAtRest(hash, calendar, trees, latest);
      for i := 0 to |requests|
        invariant Sound() && TreesGrow(hash, old(trees), trees) && LatestAdvances(calendar, old(latest), latest)
      {
        ghost var trees0, latest0 := trees, latest;
        match requests[i]
        case Version(tag, files) =>
          var o := PublishVersion(files, tag);
          FilledTreesGrow(hash, trees0, trees, tag, files);
          GrowthKeepsLatestSound(trees0, trees, hash, calendar, installer, latest);
          TreesGrowOn(hash, old(trees), trees0, trees);
        case StableFile(name, bytes) =>
          var unreadable: set<string> := *;
          var o := PublishStable(name, bytes, unreadable);
          LatestAdvancesOn(calendar, old(latest), latest0, latest);
      }
    }
  }

  const MANIFEST := "latest.json"

  /** One candidate of the scan. */
  predicate Matches(trees: Trees, hash: string -> string, tag: string, bytes: string, k: Key) {
    Offers(trees, hash, tag, bytes) && trees[tag].temps == {} && k == Parse(tag, true).key
  }

  lemma {:induction false} CompleteHasAnInstaller(hash: string -> string, files: Files)
    requires Complete(hash, files)
    ensures INSTALLER in files
  {
    assert INSTALLER == EXPECTED[5];
  }

  lemma {:induction false} KeyOfAMatch(trees: Trees, hash: string -> string, tag: string, bytes: string, k: Key)
    ensures Matches(trees, hash, tag, bytes, k) ==> Stable(tag) && k == Parse(tag, true).key
  {
  }

  lemma {:induction false} Ordered(tag: string, current: string)
    requires Stable(tag) && Stable(current)
    ensures var a, b := Parse(tag, true).key, Parse(current, true).key; KeyLess(a, b) || a == b || KeyLess(b, a)
  {
    hide Parse, KeyLess;
    StableTagHasNoQuote(tag);
    StableTagHasNoQuote(current);
    KeyOrderIsTotal(Parse(tag, true).key, Parse(current, true).key);
  }

  lemma {:induction false} TreesGrowAtRest(
    hash: string -> string, calendar: string -> bool, trees: Trees, latest: Option<string>)
    ensures TreesGrow(hash, trees, trees) && LatestAdvances(calendar, latest, latest)
  {
  }

  /** Filling in one version leaves every complete version as it was. */
  lemma {:induction false} FilledTreesGrow(
    hash: string -> string, before: Trees, after: Trees, tag: string, staged: Files)
    requires forall other | other in before && other != tag :: other in after && after[other] == before[other]
    requires tag in before ==> tag in after && Filled(before[tag].files, after[tag].files, staged)
    ensures TreesGrow(hash, before, after)
  {
    hide EXPECTED;
    if tag in before && Complete(hash, before[tag].files) {
      assert after[tag].files.Keys == before[tag].files.Keys;
    }
  }

  /** Nothing is lost, and what is new is what was staged. */
  ghost predicate Filled(before: Files, after: Files, staged: Files) {
    FilesKept(before, after) &&
    forall name | name in after && name !in before :: name in EXPECTED && name in staged && after[name] == staged[name]
  }

  lemma {:induction false} ReleaseHas(hash: string -> string, staged: Files)
    requires Complete(hash, staged)
    ensures forall i | 0 <= i < |EXPECTED| :: EXPECTED[i] in staged
  {
    hide EXPECTED;
  }

  lemma {:induction false} WholeRelease(hash: string -> string, files: Files, staged: Files)
    requires Complete(hash, staged)
    requires forall name | name in files :: name in staged && files[name] == staged[name]
    requires forall j | 0 <= j < |EXPECTED| :: EXPECTED[j] in files
    ensures files == staged
  {
    hide EXPECTED;
    assert forall name | name in staged :: name in EXPECTED;
    assert files.Keys == staged.Keys;
  }
}
