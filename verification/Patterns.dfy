/**
 OpenSSH patterns as internal/sysinfo/sshd.go matches them: '*' stands for any
 run of bytes, '?' for exactly one, everything else for itself. One char is one
 byte.
 */
module Patterns {

  /** The recursive meaning of a pattern. */
  predicate Matches(p: string, s: string)
    decreases |p| + |s|
  {
    if p == "" then s == ""
    else if p[0] == '*' then Matches(p[1..], s) || (s != "" && Matches(p, s[1..]))
    else s != "" && (p[0] == '?' || p[0] == s[0]) && Matches(p[1..], s[1..])
  }

  /**
   What the backtracking loop of matchSSHDPattern answers from the loop state
   i, j, star, mark. The literal case is tried before the '*' case, as there.
   */
  predicate Scan(p: string, s: string, i: nat, j: nat, star: int, mark: nat)
    requires mark <= i <= |s| && -1 <= star < j <= |p|
    decreases |p| - star, |s| - mark, |s| - i
  {
    if i == |s| then
      forall k | j <= k < |p| :: p[k] == '*'
    else if j < |p| && (p[j] == '?' || p[j] == s[i]) then
      Scan(p, s, i + 1, j + 1, star, mark)
    else if j < |p| && p[j] == '*' then
      Scan(p, s, i, j + 1, j, i)
    else if star >= 0 then
      Scan(p, s, mark + 1, star + 1, star, mark + 1)
    else
      false
  }

  method MatchSSHDPattern(pattern: string, s: string) returns (ok: bool)
    ensures ok == Scan(pattern, s, 0, 0, -1, 0)
    ensures ok ==> Matches(pattern, s)
    ensures '*' !in s ==> ok == Matches(pattern, s)
  {
    ScanMeansMatches(pattern, s);
    var star, mark := -1, 0;
    var i, j := 0, 0;
    while i < |s|
      invariant 0 <= mark <= i <= |s| && -1 <= star < j <= |pattern|
      invariant Scan(pattern, s, i, j, star, mark) == Scan(pattern, s, 0, 0, -1, 0)
      decreases |pattern| - star, |s| - mark, |s| - i
    {
      if j < |pattern| && (pattern[j] == '?' || pattern[j] == s[i]) {
        i, j := i + 1, j + 1;
      } else if j < |pattern| && pattern[j] == '*' {
        star, mark := j, i;
        j := j + 1;
      } else if star >= 0 {
        j := star + 1;
        mark := mark + 1;
        i := mark;
      } else {
        return false;
      }
    }
    while j < |pattern| && pattern[j] == '*'
      invariant j <= |pattern|
      invariant (forall k | j <= k < |pattern| :: pattern[k] == '*') == Scan(pattern, s, 0, 0, -1, 0)
    {
      j := j + 1;
    }
    return j == |pattern|;
  }

  /** A pattern that starts with '*' also matches everything longer on the left. */
  lemma {:induction false} StarAbsorbs(p: string, s: string, k: nat)
    requires p != "" && p[0] == '*' && k <= |s|
    requires Matches(p, s[k..]) || Matches(p[1..], s[k..])
    ensures Matches(p, s)
  {
    if k > 0 {
      assert s[k..] == s[1..][k - 1..];
      StarAbsorbs(p, s[1..], k - 1);
    } else {
      assert s[k..] == s;
    }
  }

  /** Conversely, some suffix is what the rest of the pattern matches. */
  lemma {:induction false} StarSplits(p: string, s: string) returns (k: nat)
    requires p != "" && p[0] == '*' && Matches(p, s)
    ensures k <= |s| && Matches(p[1..], s[k..])
    decreases |s|
  {
    if Matches(p[1..], s) {
      k := 0;
      assert s[0..] == s;
    } else {
      k := StarSplits(p, s[1..]);
      k := k + 1;
      assert s[1..][k - 1..] == s[k..];
    }
  }

  lemma {:induction false} AllStars(p: string)
    ensures Matches(p, "") <==> forall k | 0 <= k < |p| :: p[k] == '*'
  {
    if p != "" {
      AllStars(p[1..]);
      assert forall k | 1 <= k < |p| :: p[k] == p[1..][k - 1];
    }
  }

  /** A stretch of pattern without '*' consumes one byte per pattern byte. */
  lemma {:induction false} LiteralConsumes(p: string, n: nat, t: string)
    requires n <= |p| && forall k | 0 <= k < n :: p[k] != '*'
    requires Matches(p, t)
    ensures n <= |t| && Matches(p[n..], t[n..])
  {
    if n == 0 {
      assert p[0..] == p && t[0..] == t;
    } else {
      LiteralConsumes(p[1..], n - 1, t[1..]);
      assert p[1..][n - 1..] == p[n..] && t[1..][n - 1..] == t[n..];
    }
  }

  /** The parts of the subject that a retry from the remembered '*' can still reach. */
  ghost predicate Retry(p: string, s: string, star: int, mark: nat)
    requires mark <= |s| && -1 <= star < |p|
  {
    star >= 0 && exists k :: mark < k <= |s| && Matches(p[star + 1..], s[k..])
  }

  /** Whatever the loop accepts is a match, of any pattern and any subject. */
  lemma {:induction false} ScanSound(p: string, s: string, i: nat, j: nat, star: int, mark: nat)
    requires mark <= i <= |s| && -1 <= star < j <= |p|
    requires Scan(p, s, i, j, star, mark)
    ensures Matches(p[j..], s[i..]) || Retry(p, s, star, mark)
    decreases |p| - star, |s| - mark, |s| - i
  {
    if i == |s| {
      AllStars(p[j..]);
      assert s[i..] == "";
    } else if j < |p| && (p[j] == '?' || p[j] == s[i]) {
      ScanSound(p, s, i + 1, j + 1, star, mark);
      if Matches(p[j + 1..], s[i + 1..]) {
        assert p[j..][1..] == p[j + 1..] && s[i..][1..] == s[i + 1..];
        if p[j] == '*' {
          StarAbsorbs(p[j..], s[i..], 1);
        }
      }
    } else if j < |p| && p[j] == '*' {
      ScanSound(p, s, i, j + 1, j, i);
      var k :| i <= k <= |s| && Matches(p[j + 1..], s[k..]);
      assert p[j..][1..] == p[j + 1..] && s[i..][k - i..] == s[k..];
      StarAbsorbs(p[j..], s[i..], k - i);
    } else {
      ScanSound(p, s, mark + 1, star + 1, star, mark + 1);
    }
  }

  /**
   With no '*' in the subject nothing is lost by going back to the last '*'
   only: the stretch since that '*' is literal and consumed one byte each.
   */
  lemma {:induction false} ScanComplete(p: string, s: string, i: nat, j: nat, star: int, mark: nat)
    requires mark <= i <= |s| && -1 <= star < j <= |p| && '*' !in s
    requires star >= 0 ==> i - mark == j - (star + 1)
    requires star >= 0 ==> forall k | star < k < j :: p[k] != '*'
    requires Matches(p[j..], s[i..]) || Retry(p, s, star, mark)
    ensures Scan(p, s, i, j, star, mark)
    decreases |p| - star, |s| - mark, |s| - i
  {
    if !Matches(p[j..], s[i..]) && (i == |s| || (j < |p| && p[j] == '*')) {
      var k :| mark < k <= |s| && Matches(p[star + 1..], s[k..]);
      var n := j - (star + 1);
      LiteralConsumes(p[star + 1..], n, s[k..]);
      assert p[star + 1..][n..] == p[j..] && s[k..][n..] == s[k + n..] == s[i..][k - mark..];
      StarAbsorbs(p[j..], s[i..], k - mark);
    }
    if i == |s| {
      AllStars(p[j..]);
      assert forall k | j <= k < |p| :: p[k] == p[j..][k - j];
    } else if j < |p| && (p[j] == '?' || p[j] == s[i]) {
      assert p[j..][1..] == p[j + 1..] && s[i..][1..] == s[i + 1..];
      ScanComplete(p, s, i + 1, j + 1, star, mark);
    } else if j < |p| && p[j] == '*' {
      var k := StarSplits(p[j..], s[i..]);
      assert p[j..][1..] == p[j + 1..] && s[i..][k..] == s[i + k..];
      ScanComplete(p, s, i, j + 1, j, i);
    } else {
      ScanComplete(p, s, mark + 1, star + 1, star, mark + 1);
    }
  }

  /** The loop against the recursive meaning, for every pattern and subject. */
  lemma ScanMeansMatches(p: string, s: string)
    ensures Scan(p, s, 0, 0, -1, 0) ==> Matches(p, s)
    ensures '*' !in s ==> Scan(p, s, 0, 0, -1, 0) == Matches(p, s)
  {
    assert p[0..] == p && s[0..] == s;
    if Scan(p, s, 0, 0, -1, 0) {
      ScanSound(p, s, 0, 0, -1, 0);
    } else if '*' !in s && Matches(p, s) {
      ScanComplete(p, s, 0, 0, -1, 0);
    }
  }

  // A subject that contains '*' defeats the loop: its literal case takes a
  // pattern '*' for a byte, and no '*' is remembered to come back to.

  /** s up to its first '*', then '*', then one '?' for every byte from there on. */
  function Spoiler(s: string, k: nat): (p: string)
    requires k < |s|
    ensures |p| == |s| + 1 && p[..k] == s[..k] && p[k] == '*'
    ensures forall m | k < m <= |s| :: p[m] == '?'
  {
    s[..k] + "*" + seq(|s| - k, _ => '?')
  }

  lemma {:induction false} QuestionMarksMatch(p: string, s: string)
    requires |p| == |s| && forall m | 0 <= m < |p| :: p[m] == '?'
    ensures Matches(p, s)
  {
    if p != "" {
      QuestionMarksMatch(p[1..], s[1..]);
    }
  }

  lemma {:induction false} SpoilerMatches(s: string, k: nat, i: nat)
    requires i <= k < |s| && '*' !in s[..k]
    ensures Matches(Spoiler(s, k)[i..], s[i..])
    decreases k - i
  {
    var p := Spoiler(s, k);
    assert p[i..][1..] == p[i + 1..];
    if i < k {
      SpoilerMatches(s, k, i + 1);
      assert p[i] == p[..k][i] == s[..k][i];
      assert s[i..][1..] == s[i + 1..];
    } else {
      QuestionMarksMatch(p[k + 1..], s[k..]);
    }
  }

  lemma {:induction false} SpoilerRejected(s: string, k: nat, i: nat)
    requires k < |s| && i <= |s| && s[k] == '*'
    ensures !Scan(Spoiler(s, k), s, i, i, -1, 0)
    decreases |s| - i
  {
    var p := Spoiler(s, k);
    if i < |s| {
      if i < k {
        assert p[i] == p[..k][i] == s[..k][i];
      }
      SpoilerRejected(s, k, i + 1);
    } else {
      assert p[|s|] == '?';
    }
  }

  /**
   The loop agrees with the recursive meaning on every pattern exactly for the
   subjects that contain no '*'. Valid user and group names never do.
   */
  lemma LoopExactlyWhenNoStarInSubject(s: string)
    ensures (forall p: string :: Scan(p, s, 0, 0, -1, 0) == Matches(p, s)) <==> '*' !in s
  {
    if '*' !in s {
      forall p: string ensures Scan(p, s, 0, 0, -1, 0) == Matches(p, s) {
        ScanMeansMatches(p, s);
      }
    } else {
      var k := FirstStar(s);
      SpoilerMatches(s, k, 0);
      SpoilerRejected(s, k, 0);
      assert Spoiler(s, k)[0..] == Spoiler(s, k) && s[0..] == s;
    }
  }

  lemma {:induction false} FirstStar(s: string) returns (k: nat)
    requires '*' in s
    ensures k < |s| && s[k] == '*' && '*' !in s[..k]
  {
    if s[0] == '*' {
      k := 0;
    } else {
      k := FirstStar(s[1..]);
      k := k + 1;
      assert s[..k] == [s[0]] + s[1..][..k - 1];
    }
  }
}
