/**
 Release tags as scripts/mirror-receiver.py reads and orders them: by
 (length, text) triples instead of integers.
 */
module Versions {
  import opened Wrappers

  datatype Key = Key(major: string, minor: string, patch: string)

  datatype Refusal = TooLong | NotCanonical | BelowV2

  datatype Parsed = Accepted(key: Key) | Refused(why: Refusal)

  const MAX_TAG_BYTES := 129

  predicate Digit(c: char) { '0' <= c <= '9' }

  predicate Alphanumeric(c: char) { Digit(c) || 'a' <= c <= 'z' || 'A' <= c <= 'Z' }

  predicate Decimal(s: string) { forall i | 0 <= i < |s| :: Digit(s[i]) }

  /** 0|[1-9][0-9]* */
  predicate Canonical(s: string) {
    s != "" && Decimal(s) && (s == "0" || s[0] != '0')
  }

  /** [0-9A-Za-z]+(?:[.-][0-9A-Za-z]+)* */
  predicate Prerelease(s: string) {
    s != "" && forall i | 0 <= i < |s| ::
      Alphanumeric(s[i]) ||
      (s[i] in ".-" && 0 < i < |s| - 1 && Alphanumeric(s[i - 1]) && Alphanumeric(s[i + 1]))
  }

  /** The whole tag as VERSION_PATTERN describes it. */
  predicate Shape(tag: string, k: Key, suffix: string) {
    CanonicalKey(k) &&
    SuffixAllowed(suffix) &&
    tag == Text(k, suffix)
  }

  predicate SuffixAllowed(suffix: string) {
    suffix == "" || (suffix[0] == '-' && Prerelease(suffix[1..]))
  }

  predicate CanonicalKey(k: Key) {
    Canonical(k.major) && Canonical(k.minor) && Canonical(k.patch)
  }

  function Text(k: Key, suffix: string): string {
    "v" + (k.major + "." + (k.minor + "." + (k.patch + suffix)))
  }

  /** The longest run of digits at the front. */
  function Digits(s: string): (n: nat)
    ensures n <= |s| && Decimal(s[..n]) && (n < |s| ==> !Digit(s[n]))
  {
    if s != "" && Digit(s[0]) then
      var n := Digits(s[1..]);
      assert forall i | 0 < i <= n :: s[i] == s[1..][..n][i - 1];
      n + 1
    else 0
  }

  /** Digits up to a dot, and what follows the dot. */
  function Cut(s: string): Option<(string, string)> {
    var n := Digits(s);
    if n < |s| && s[n] == '.' then Some((s[..n], s[n + 1..])) else None
  }

  /** The checks on the three components once the tag is taken apart. */
  function Judge(k: Key, suffix: string, stable: bool): Parsed {
    if !CanonicalKey(k) then Refused(NotCanonical)
    else if !SuffixAllowed(suffix) || (stable && suffix != "") then Refused(NotCanonical)
    else if k.major in {"0", "1"} then Refused(BelowV2)
    else Accepted(k)
  }

  /** Stable tags carry no suffix, and nothing below v2 is taken. */
  function Parse(tag: string, stable: bool): Parsed {
    if |tag| > MAX_TAG_BYTES then Refused(TooLong)
    else if tag == "" || tag[0] != 'v' then Refused(NotCanonical)
    else match Cut(tag[1..])
      case None => Refused(NotCanonical)
      case Some((major, rest)) =>
        match Cut(rest)
        case None => Refused(NotCanonical)
        case Some((minor, last)) =>
          var n := Digits(last);
          Judge(Key(major, minor, last[..n]), last[n..], stable)
  }

  lemma {:induction false} DigitsStopAt(a: string, rest: string)
    requires Decimal(a) && (rest == "" || !Digit(rest[0]))
    ensures Digits(a + rest) == |a|
  {
    if a == "" {
      assert a + rest == rest;
    } else {
      assert (a + rest)[1..] == a[1..] + rest;
      DigitsStopAt(a[1..], rest);
    }
  }

  lemma CutIsUnique(s: string, a: string, rest: string)
    ensures Cut(s) == Some((a, rest)) <==> Decimal(a) && s == a + "." + rest
  {
    if Decimal(a) && s == a + "." + rest {
      assert s == a + ("." + rest);
      DigitsStopAt(a, "." + rest);
    }
  }

  /** What the two cuts and the last run of digits put back together. */
  lemma CutsAddUp(tag: string, major: string, rest: string, minor: string, last: string)
    requires tag != "" && tag[0] == 'v'
    requires Cut(tag[1..]) == Some((major, rest)) && Cut(rest) == Some((minor, last))
    ensures var n := Digits(last); tag == Text(Key(major, minor, last[..n]), last[n..])
  {
    hide Cut, Decimal;
    CutIsUnique(tag[1..], major, rest);
    CutIsUnique(rest, minor, last);
    var n := Digits(last);
    assert last == last[..n] + last[n..];
    assert tag == "v" + tag[1..];
  }

  lemma AcceptedHasAShape(tag: string, stable: bool) returns (suffix: string)
    requires Parse(tag, stable).Accepted?
    ensures Shape(tag, Parse(tag, stable).key, suffix) && (stable ==> suffix == "")
  {
    var (major, rest) := Cut(tag[1..]).value;
    var (minor, last) := Cut(rest).value;
    suffix := last[Digits(last)..];
    CutsAddUp(tag, major, rest, minor, last);
  }

  lemma ShapeIsAccepted(tag: string, stable: bool, k: Key, suffix: string)
    requires Shape(tag, k, suffix) && (stable ==> suffix == "")
    requires |tag| <= MAX_TAG_BYTES && k.major !in {"0", "1"}
    ensures Parse(tag, stable) == Accepted(k)
  {
    var last := k.patch + suffix;
    var rest := k.minor + "." + last;
    assert tag[1..] == k.major + "." + rest;
    CutIsUnique(tag[1..], k.major, rest);
    CutIsUnique(rest, k.minor, last);
    DigitsStopAt(k.patch, suffix);
    assert last[..|k.patch|] == k.patch && last[|k.patch|..] == suffix;
  }

  /**
   The parser against the grammar: a tag is accepted with exactly the three
   numbers of its one reading, and refused when it has none, is too long, is a
   prerelease where a stable tag is asked for, or is below v2.
   */
  lemma ParseReadsTheGrammar(tag: string, stable: bool, k: Key)
    ensures Parse(tag, stable) == Accepted(k) <==>
      |tag| <= MAX_TAG_BYTES && k.major !in {"0", "1"} &&
      exists suffix :: Shape(tag, k, suffix) && (stable ==> suffix == "")
  {
    if Parse(tag, stable) == Accepted(k) {
      var suffix := AcceptedHasAShape(tag, stable);
    } else if |tag| <= MAX_TAG_BYTES && k.major !in {"0", "1"} {
      forall suffix | Shape(tag, k, suffix) && (stable ==> suffix == "")
        ensures false
      {
        ShapeIsAccepted(tag, stable, k, suffix);
      }
    }
  }

  // ---- Order ----

  /** Python's order on str: first differing code point decides, a prefix is less. */
  predicate TextLess(a: string, b: string)
    decreases |a|
  {
    b != "" && (a == "" || a[0] < b[0] || (a[0] == b[0] && TextLess(a[1..], b[1..])))
  }

  /** Python's order on the pair (len(s), s). */
  predicate PartLess(a: string, b: string) {
    |a| < |b| || (|a| == |b| && TextLess(a, b))
  }

  /** Python's order on the triple of pairs. */
  predicate KeyLess(a: Key, b: Key) {
    PartLess(a.major, b.major) ||
    (a.major == b.major && (PartLess(a.minor, b.minor) ||
    (a.minor == b.minor && PartLess(a.patch, b.patch))))
  }

  function Pow10(n: nat): (p: nat)
    ensures p >= 1
  {
    if n == 0 then 1 else 10 * Pow10(n - 1)
  }

  /** The number a decimal text stands for. */
  function Value(s: string): nat
    requires Decimal(s)
  {
    if s == "" then 0
    else DigitValue(s[0]) * Pow10(|s| - 1) + Value(s[1..])
  }

  function DigitValue(c: char): (d: nat)
    requires Digit(c)
    ensures d <= 9
  {
    c as int - '0' as int
  }

  lemma Scaled(x: nat, y: nat, p: nat)
    requires x <= y
    ensures x * p <= y * p
  {
  }

  lemma {:induction false} ValueBelow(s: string)
    requires Decimal(s)
    ensures Value(s) < Pow10(|s|)
  {
    if s != "" {
      ValueBelow(s[1..]);
      Scaled(DigitValue(s[0]), 9, Pow10(|s| - 1));
    }
  }

  lemma {:induction false} Pow10Grows(m: nat, n: nat)
    requires m <= n
    ensures Pow10(m) <= Pow10(n)
  {
    if m < n { Pow10Grows(m, n - 1); }
  }

  /** Two-digit arithmetic with remainders: the leading digit decides unless equal. */
  lemma LeadingDigitDecides(x: nat, u: nat, y: nat, v: nat, p: nat)
    requires u < p && v < p
    ensures x < y ==> x * p + u < y * p + v
    ensures y < x ==> y * p + v < x * p + u
  {
    if x < y { Scaled(x + 1, y, p); }
    if y < x { Scaled(y + 1, x, p); }
  }

  /** Texts of one length compare like their numbers. */
  lemma {:induction false} TextOrderIsNumeric(a: string, b: string)
    requires |a| == |b| && Decimal(a) && Decimal(b)
    ensures TextLess(a, b) <==> Value(a) < Value(b)
    ensures Value(a) == Value(b) ==> a == b
  {
    if a != "" {
      TextOrderIsNumeric(a[1..], b[1..]);
      ValueBelow(a[1..]);
      ValueBelow(b[1..]);
      LeadingDigitDecides(DigitValue(a[0]), Value(a[1..]), DigitValue(b[0]), Value(b[1..]), Pow10(|a| - 1));
      assert a == [a[0]] + a[1..] && b == [b[0]] + b[1..];
    }
  }

  /** A longer canonical text is a larger number, so length first loses nothing. */
  lemma PartOrderIsNumeric(a: string, b: string)
    requires Canonical(a) && Canonical(b)
    ensures PartLess(a, b) <==> Value(a) < Value(b)
    ensures Value(a) == Value(b) <==> a == b
  {
    if |a| == |b| {
      TextOrderIsNumeric(a, b);
    } else if |a| < |b| {
      LongerIsLarger(a, b);
    } else {
      LongerIsLarger(b, a);
    }
  }

  lemma LongerIsLarger(a: string, b: string)
    requires Canonical(a) && Canonical(b) && |a| < |b|
    ensures Value(a) < Value(b)
  {
    ValueBelow(a);
    Pow10Grows(|a|, |b| - 1);
    Scaled(1, DigitValue(b[0]), Pow10(|b| - 1));
  }

  /** major, then minor, then patch, as numbers. */
  ghost predicate NumericLess(a: Key, b: Key)
    requires CanonicalKey(a) && CanonicalKey(b)
  {
    Value(a.major) < Value(b.major) ||
    (Value(a.major) == Value(b.major) && (Value(a.minor) < Value(b.minor) ||
    (Value(a.minor) == Value(b.minor) && Value(a.patch) < Value(b.patch))))
  }

  /** The triple order is the numeric order for decimals of any length. */
  lemma KeyOrderIsNumeric(a: Key, b: Key)
    requires CanonicalKey(a) && CanonicalKey(b)
    ensures KeyLess(a, b) <==> NumericLess(a, b)
  {
    PartOrderIsNumeric(a.major, b.major);
    PartOrderIsNumeric(a.minor, b.minor);
    PartOrderIsNumeric(a.patch, b.patch);
  }

  lemma KeyOrderIsTotal(a: Key, b: Key)
    requires CanonicalKey(a) && CanonicalKey(b)
    ensures KeyLess(a, b) || KeyLess(b, a) || a == b
    ensures !(KeyLess(a, b) && KeyLess(b, a)) && !KeyLess(a, a)
  {
    KeyOrderIsNumeric(a, b);
    KeyOrderIsNumeric(b, a);
    KeyOrderIsNumeric(a, a);
    PartOrderIsNumeric(a.major, b.major);
    PartOrderIsNumeric(a.minor, b.minor);
    PartOrderIsNumeric(a.patch, b.patch);
  }

  lemma KeyOrderIsTransitive(a: Key, b: Key, c: Key)
    requires CanonicalKey(a) && CanonicalKey(b) && CanonicalKey(c)
    requires KeyLess(a, b) && KeyLess(b, c)
    ensures KeyLess(a, c)
  {
    KeyOrderIsNumeric(a, b);
    KeyOrderIsNumeric(b, c);
    KeyOrderIsNumeric(a, c);
  }

  /** At least as new: what `version >= other` asks. */
  predicate AtLeast(a: Key, b: Key) { a == b || KeyLess(b, a) }

  /**
   On accepted stable tags the order is total and strict: two tags with equal
   keys are the same tag, otherwise exactly one is older.
   */
  lemma StableTagsAreTotallyOrdered(s: string, t: string)
    requires Parse(s, true).Accepted? && Parse(t, true).Accepted?
    ensures var a, b := Parse(s, true).key, Parse(t, true).key;
      CanonicalKey(a) && CanonicalKey(b) &&
      (a == b <==> s == t) &&
      (s != t ==> (KeyLess(a, b) <==> !KeyLess(b, a)))
  {
    var a, b := Parse(s, true).key, Parse(t, true).key;
    ParseReadsTheGrammar(s, true, a);
    ParseReadsTheGrammar(t, true, b);
    assert Shape(s, a, "") && Shape(t, b, "");
    assert s == Text(a, "") && t == Text(b, "");
    KeyOrderIsTotal(a, b);
  }
}
