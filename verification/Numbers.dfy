/** Decimal text of integers, as strconv.Itoa and strconv.Atoi treat it. */
module Numbers {
  import opened Wrappers

  predicate Figure(c: char) { '0' <= c <= '9' }

  function Digits(n: nat): (s: string)
    ensures s != "" && Figures(s)
  {
    if n < 10 then [(48 + n) as char] else Digits(n / 10) + [(48 + n % 10) as char]
  }

  function Itoa(n: int): string { if n < 0 then "-" + Digits(-n) else Digits(n) }

  predicate Figures(s: string) { forall i | 0 <= i < |s| :: Figure(s[i]) }

  function Value(s: string): nat
    requires Figures(s)
  {
    if s == "" then 0
    else
      var last := s[|s| - 1];
      assert Figure(last);
      Value(s[..|s| - 1]) * 10 + (last as int - 48)
  }

  const INT64_MIN := -0x8000_0000_0000_0000
  const INT64_MAX := 0x7FFF_FFFF_FFFF_FFFF

  predicate Int64(n: int) { INT64_MIN <= n <= INT64_MAX }

  /** An optional sign and digits, within 64 bits. */
  function Atoi(s: string): Option<int> {
    var unsigned := if s != "" && s[0] in "+-" then s[1..] else s;
    if unsigned == "" || !Figures(unsigned) then None
    else
      var n: int := Value(unsigned);
      var n: int := if s[0] == '-' then -n else n;
      if Int64(n) then Some(n) else None
  }

  lemma {:induction false} ValueOfDigits(n: nat)
    ensures Value(Digits(n)) == n
  {
    if n >= 10 {
      ValueOfDigits(n / 10);
      assert Digits(n)[..|Digits(n)| - 1] == Digits(n / 10);
    } else {
      assert Value(Digits(n)[..0]) == 0;
    }
  }

  lemma NumberRoundTrip(n: int)
    requires Int64(n)
    ensures Atoi(Itoa(n)) == Some(n)
    ensures forall c | c in Itoa(n) :: Figure(c) || c == '-'
  {
    ValueOfDigits(if n < 0 then -n else n);
    var s := Itoa(n);
    if n < 0 {
      assert s[1..] == Digits(-n);
    } else {
      assert Figure(s[0]);
    }
  }
}
