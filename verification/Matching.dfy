/**
 String comparisons used by the rule engine (src/rules/matching.rs).

 Strings are sequences of characters.  The source compares URL paths byte by byte; the two views
 agree because every byte it singles out ('/', '.') is a whole character.
 */
module Matching {
  import opened Basics

  predicate EndsWith(s: string, c: char) {
    |s| > 0 && s[|s| - 1] == c
  }

  predicate StartsWith(s: string, c: char) {
    |s| > 0 && s[0] == c
  }

  function TrimEnd(s: string, c: char): string {
    if EndsWith(s, c) then TrimEnd(s[..|s| - 1], c) else s
  }

  function TrimStart(s: string, c: char): string {
    if StartsWith(s, c) then TrimStart(s[1..], c) else s
  }

  /** `char::is_whitespace`. */
  predicate IsWhitespace(c: char) {
    || '\t' <= c <= '\r' || c == ' ' || c == '\U{85}' || c == '\U{A0}' || c == '\U{1680}'
    || '\U{2000}' <= c <= '\U{200A}' || c == '\U{2028}' || c == '\U{2029}' || c == '\U{202F}'
    || c == '\U{205F}' || c == '\U{3000}'
  }

  function Trim(s: string): string {
    if |s| > 0 && IsWhitespace(s[0]) then Trim(s[1..])
    else if |s| > 0 && IsWhitespace(s[|s| - 1]) then Trim(s[..|s| - 1])
    else s
  }

  function ToAsciiLowercase(s: string): (r: string)
    ensures |r| == |s|
  {
    seq(|s|, i requires 0 <= i < |s| => if 'A' <= s[i] <= 'Z' then s[i] - 'A' + 'a' else s[i])
  }

  predicate PathHasPrefix(path: string, prefix: string) {
    if prefix == "/" then true
    else if !(prefix <= path) then false
    else if EndsWith(prefix, '/') then true
    else |path| == |prefix| || path[|prefix|] == '/'
  }

  /** `strip_suffix` leaves something that ends in a dot, or nothing has to be stripped. */
  predicate HostHasSuffix(host: string, suffix: string) {
    || host == suffix
    || (|suffix| <= |host| && host[|host| - |suffix|..] == suffix
        && EndsWith(host[..|host| - |suffix|], '.'))
  }

  /** `normalize_host`; a host containing "://" contains '/' and is rejected with it. */
  function NormalizeHost(value: string): Option<string> {
    var normalized := TrimEnd(Trim(value), '.');
    if normalized == "" || '/' in normalized then None
    else Some(ToAsciiLowercase(normalized))
  }

  function JoinedPaths(base: string, suffix: string): string {
    var b, s := TrimEnd(base, '/'), TrimStart(suffix, '/');
    if s == "" then (if b == "" then "/" else b) else b + "/" + s
  }

  method JoinPaths(base: string, suffix: string) returns (result: string)
    ensures result == JoinedPaths(base, suffix)
  {
    result := TrimEnd(base, '/');
    TrimEndStops(base, '/');
    var trimmed := TrimStart(suffix, '/');
    if result == "" {
      result := result + "/";
    }
    if trimmed != "" {
      if !EndsWith(result, '/') {
        result := result + "/";
      }
      result := result + trimmed;
    }
  }

  lemma {:induction false} TrimEndStops(s: string, c: char)
    ensures !EndsWith(TrimEnd(s, c), c)
    ensures TrimEnd(s, c) <= s
  {
    if EndsWith(s, c) {
      TrimEndStops(s[..|s| - 1], c);
    }
  }

  lemma {:induction false} TrimStartStops(s: string, c: char)
    ensures !StartsWith(TrimStart(s, c), c)
  {
    if StartsWith(s, c) {
      TrimStartStops(s[1..], c);
    }
  }

  /** A joined path is rooted when its base is, and the seam never doubles or drops the slash. */
  lemma JoinedPathSeam(base: string, suffix: string)
    requires base == "" || StartsWith(base, '/')
    ensures var r := JoinedPaths(base, suffix);
            && StartsWith(r, '/')
            && TrimEnd(base, '/') <= r
            && (TrimStart(suffix, '/') != "" ==>
                  && r == TrimEnd(base, '/') + "/" + TrimStart(suffix, '/')
                  && !EndsWith(TrimEnd(base, '/'), '/') && !StartsWith(TrimStart(suffix, '/'), '/'))
  {
    TrimEndStops(base, '/');
    TrimStartStops(suffix, '/');
  }
}
