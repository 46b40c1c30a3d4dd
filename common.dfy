/**
  Shared vocabulary of the model: an Option type, the string tests that stand
  in for Redis glob scans, and the shape of the identifiers the catalogue uses.
 */
module Common {

  datatype Option<+T> = None | Some(value: T)

  /** `s` begins with `p`: what `scan_iter(f'{p}*')` selects when `p` has no glob metacharacter. */
  predicate StartsWith(s: string, p: string)
  {
    |p| <= |s| && s[..|p|] == p
  }

  /** `p` occurs somewhere in `s`: what `scan_iter(f'*{p}*')` selects when `p` has no glob metacharacter. */
  predicate Contains(s: string, p: string)
  {
    exists i :: 0 <= i <= |s| && StartsWith(s[i..], p)
  }

  /** No character of `p` has a special meaning in a Redis glob pattern. */
  predicate GlobFree(p: string)
  {
    forall i :: 0 <= i < |p| ==> p[i] !in {'*', '?', '[', ']', '\\', '^'}
  }

  predicate IsHexDigit(c: char)
  {
    '0' <= c <= '9' || 'a' <= c <= 'f'
  }

  /** The canonical text of a UUID (`str(uuid)`): 8-4-4-4-12 lower-case hex digits. */
  predicate IsUuid(s: string)
  {
    |s| == 36 &&
    forall i :: 0 <= i < |s| ==> if i in {8, 13, 18, 23} then s[i] == '-' else IsHexDigit(s[i])
  }

  /** A UUID holds neither glob metacharacters nor the `_` that separates key segments. */
  lemma UuidCharacters(s: string)
    requires IsUuid(s)
    ensures GlobFree(s)
    ensures forall i :: 0 <= i < |s| ==> s[i] != '_'
  {
  }

  /** A string shorter than a UUID can neither start with one nor contain one. */
  lemma ShortKeyMentionsNoUuid(k: string, x: string)
    requires IsUuid(x) && |k| < 36
    ensures !StartsWith(k, x) && !Contains(k, x)
  {
  }
}
