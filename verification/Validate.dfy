/** The validators of internal/validate/validate.go the other modules rely on. */
module Validate {

  predicate Lower(c: char) { 'a' <= c <= 'z' }
  predicate Digit(c: char) { '0' <= c <= '9' }
  predicate NameChar(c: char) { Lower(c) || Digit(c) || c == '_' || c == '-' }

  /** ^[a-z_][a-z0-9_-]{0,30}[a-z0-9]$ */
  predicate Username(s: string) {
    2 <= |s| <= 32 &&
    (Lower(s[0]) || s[0] == '_') && (Lower(s[|s| - 1]) || Digit(s[|s| - 1])) &&
    forall i | 0 <= i < |s| :: NameChar(s[i])
  }

  /** ^[a-f0-9]{32}$ */
  predicate Generation(s: string) {
    |s| == 32 && forall i | 0 <= i < |s| :: Digit(s[i]) || 'a' <= s[i] <= 'f'
  }

  /** A concrete uid_t or gid_t; the all-ones value is chown's sentinel. */
  predicate KernelID(id: int) { 0 <= id < 0xFFFF_FFFF }

  predicate AccountID(id: int) { id > 0 && KernelID(id) }

  predicate Port(p: int) { 1 <= p <= 65535 }
}
