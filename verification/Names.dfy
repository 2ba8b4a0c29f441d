/**
 Host and domain names, character by character: what trimming, lower-casing and normalizing come
 to (src/rules/matching.rs, src/traffic/shared/dns/fake_ip.rs).
 */
module Names {
  import opened Basics
  import opened Matching

  /** 'A' to 'Z' become 'a' to 'z', 32 code points further on; nothing else changes. */
  function Fold(c: char): char {
    if 'A' <= c <= 'Z' then (c as int + 32) as char else c
  }

  predicate AllAre(s: string, c: char) {
    forall i :: 0 <= i < |s| ==> s[i] == c
  }

  predicate AllSpace(s: string) {
    forall i :: 0 <= i < |s| ==> IsWhitespace(s[i])
  }

  /** `h` is `s` with its capitals folded. */
  predicate Folded(s: string, h: string) {
    |h| == |s| && forall i :: 0 <= i < |s| ==> h[i] == Fold(s[i])
  }

  lemma LowercaseFolds(s: string)
    ensures Folded(s, ToAsciiLowercase(s))
  {
  }

  lemma FoldedIsUnique(s: string, h: string)
    requires Folded(s, h)
    ensures h == ToAsciiLowercase(s)
  {
    LowercaseFolds(s);
  }

  /** The blanks and line ends that matter are white space; what names are made of is not. */
  lemma WhitespaceIs(c: char)
    ensures c in " \t\r\n" ==> IsWhitespace(c)
    ensures 'a' <= c <= 'z' || 'A' <= c <= 'Z' || '0' <= c <= '9' || c in "-_./:" ==> !IsWhitespace(c)
  {
  }

  // ----- trimming

  /** Whatever run of `c` is put behind a text that does not end in it, trimming takes exactly that off. */
  lemma {:induction false} TrimEndTakesRun(text: string, run: string, c: char)
    requires !EndsWith(text, c) && AllAre(run, c)
    ensures TrimEnd(text + run, c) == text
  {
    if run == "" {
      assert text + run == text;
    } else {
      var all := text + run;
      assert all[..|all| - 1] == text + run[..|run| - 1];
      TrimEndTakesRun(text, run[..|run| - 1], c);
    }
  }

  lemma {:induction false} TrimStartTakesRun(run: string, text: string, c: char)
    requires !StartsWith(text, c) && AllAre(run, c)
    ensures TrimStart(run + text, c) == text
  {
    if run == "" {
      assert run + text == text;
    } else {
      assert (run + text)[1..] == run[1..] + text;
      TrimStartTakesRun(run[1..], text, c);
    }
  }

  /** Every text is one that does not end in `c`, and a run of `c`. */
  lemma {:induction false} TrimEndSplits(s: string, c: char)
    ensures TrimEnd(s, c) <= s && AllAre(s[|TrimEnd(s, c)|..], c) && !EndsWith(TrimEnd(s, c), c)
  {
    if EndsWith(s, c) {
      TrimEndSplits(s[..|s| - 1], c);
    }
  }

  predicate Tight(s: string) {
    s != "" ==> !IsWhitespace(s[0]) && !IsWhitespace(s[|s| - 1])
  }

  lemma {:induction false} TrimTakesSpace(pre: string, core: string, post: string)
    requires AllSpace(pre) && AllSpace(post) && Tight(core)
    ensures Trim(pre + core + post) == core
    decreases |pre| + |post|
  {
    var s := pre + core + post;
    if pre != "" {
      assert s[1..] == pre[1..] + core + post;
      TrimTakesSpace(pre[1..], core, post);
    } else if post != "" {
      if core == "" {
        assert s[1..] == post[1..] && "" + "" + post[1..] == post[1..];
        TrimTakesSpace("", core, post[1..]);
      } else {
        assert s[..|s| - 1] == pre + core + post[..|post| - 1];
        TrimTakesSpace(pre, core, post[..|post| - 1]);
      }
    } else {
      assert s == core;
    }
  }

  lemma PutInFront(s: string, pre: string, core: string, post: string)
    requires s != "" && s[1..] == pre + core + post
    ensures s == [s[0]] + pre + core + post
  {
    assert s == [s[0]] + s[1..];
  }

  lemma PutBehind(s: string, pre: string, core: string, post: string)
    requires s != "" && s[..|s| - 1] == pre + core + post
    ensures s == pre + core + (post + [s[|s| - 1]])
  {
    assert s == s[..|s| - 1] + [s[|s| - 1]];
  }

  lemma {:induction false} TrimSplits(s: string) returns (pre: string, post: string)
    ensures AllSpace(pre) && AllSpace(post) && Tight(Trim(s)) && s == pre + Trim(s) + post
    decreases |s|
  {
    if |s| > 0 && IsWhitespace(s[0]) {
      pre, post := TrimSplits(s[1..]);
      PutInFront(s, pre, Trim(s[1..]), post);
      pre := [s[0]] + pre;
    } else if |s| > 0 && IsWhitespace(s[|s| - 1]) {
      pre, post := TrimSplits(s[..|s| - 1]);
      PutBehind(s, pre, Trim(s[..|s| - 1]), post);
      post := post + [s[|s| - 1]];
    } else {
      pre, post := "", "";
    }
  }

  // ----- hosts

  /** `value` is `pre`, `core`, `dots` and `post`: white space around a bare host and trailing dots. */
  predicate HostParts(value: string, pre: string, core: string, dots: string, post: string) {
    && value == pre + (core + dots) + post && AllSpace(pre) && AllSpace(post) && AllAre(dots, '.')
    && Tight(core + dots) && core != "" && !EndsWith(core, '.') && '/' !in core
  }

  /** `h` is the host that `value` names. */
  ghost predicate HostOf(value: string, h: string) {
    exists pre, core, dots, post :: HostParts(value, pre, core, dots, post) && Folded(core, h)
  }

  /** Normalizing succeeds exactly on values that name a host, and gives that host. */
  lemma NormalizeHostIff(value: string, h: string)
    ensures NormalizeHost(value) == Some(h) <==> HostOf(value, h)
  {
    if pre, core, dots, post :| HostParts(value, pre, core, dots, post) && Folded(core, h) {
      TrimTakesSpace(pre, core + dots, post);
      TrimEndTakesRun(core, dots, '.');
      FoldedIsUnique(core, h);
    }
    if NormalizeHost(value) == Some(h) {
      var pre, post := TrimSplits(value);
      var trimmed := Trim(value);
      TrimEndSplits(trimmed, '.');
      var core := TrimEnd(trimmed, '.');
      var dots := trimmed[|core|..];
      assert core + dots == trimmed;
      LowercaseFolds(core);
      assert HostParts(value, pre, core, dots, post) && Folded(core, h);
    }
  }

  /** A bare lower-case host without trailing dot names itself. */
  lemma BareHostIsItself(h: string)
    requires h != "" && Tight(h) && !EndsWith(h, '.') && '/' !in h
    requires forall i :: 0 <= i < |h| ==> !('A' <= h[i] <= 'Z')
    ensures HostOf(h, h)
  {
    assert "" + (h + "") + "" == h && h + "" == h;
    assert HostParts(h, "", h, "", "") && Folded(h, h);
  }

  // ----- domains

  /** `d` is `domain` without its trailing dots and with its capitals folded. */
  predicate NameOf(domain: string, d: string) {
    && |d| <= |domain| && AllAre(domain[|d|..], '.') && !EndsWith(domain[..|d|], '.')
    && forall i :: 0 <= i < |d| ==> d[i] == Fold(domain[i])
  }

  ghost predicate SameName(a: string, b: string) {
    exists d :: NameOf(a, d) && NameOf(b, d)
  }

  lemma NameIs(domain: string, d: string)
    ensures NameOf(domain, d) <==> d == ToAsciiLowercase(TrimEnd(domain, '.'))
  {
    TrimEndSplits(domain, '.');
    var text := TrimEnd(domain, '.');
    LowercaseFolds(text);
    assert domain[..|text|] == text;
    if NameOf(domain, d) {
      var own := domain[..|d|];
      assert own + domain[|d|..] == domain;
      TrimEndTakesRun(own, domain[|d|..], '.');
      FoldedIsUnique(own, d);
    }
  }

  /** A name without capitals and without trailing dot is its own. */
  lemma PlainNameIsItself(d: string)
    requires !EndsWith(d, '.') && forall i :: 0 <= i < |d| ==> !('A' <= d[i] <= 'Z')
    ensures NameOf(d, d)
  {
    assert d[..|d|] == d;
  }

  /** Two names are the same if they agree, capitals aside, up to their trailing dots. */
  lemma SameNameIf(a: string, b: string, x: string, y: string, dotsA: string, dotsB: string)
    requires a == x + dotsA && b == y + dotsB && AllAre(dotsA, '.') && AllAre(dotsB, '.')
    requires !EndsWith(x, '.') && !EndsWith(y, '.') && |x| == |y|
    ensures SameName(a, b) <==> forall i :: 0 <= i < |x| ==> Fold(x[i]) == Fold(y[i])
  {
    TrimEndTakesRun(x, dotsA, '.');
    TrimEndTakesRun(y, dotsB, '.');
    LowercaseFolds(x);
    LowercaseFolds(y);
    NameIs(a, ToAsciiLowercase(x));
    NameIs(b, ToAsciiLowercase(y));
    if d :| NameOf(a, d) && NameOf(b, d) {
      NameIs(a, d);
      NameIs(b, d);
      forall i | 0 <= i < |x|
        ensures Fold(x[i]) == Fold(y[i])
      {
        assert d[i] == Fold(x[i]);
      }
    }
    if forall i :: 0 <= i < |x| ==> Fold(x[i]) == Fold(y[i]) {
      assert ToAsciiLowercase(x) == ToAsciiLowercase(y);
    }
  }
}
