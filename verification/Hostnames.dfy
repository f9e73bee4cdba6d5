/** `hostnameIntersect` (projects/gateway2/query/query.go): which hostnames a route serves on a listener. */
module Hostnames {
  import opened Common

  predicate HasPrefix(s: string, p: string) {
    |p| <= |s| && s[..|p|] == p
  }

  predicate HasSuffix(s: string, t: string) {
    |t| <= |s| && s[|s| - |t|..] == t
  }

  predicate IsWildcard(pattern: string) {
    HasPrefix(pattern, "*.")
  }

  /** The listener's hostname is nil or a pattern; the route's list is nil, empty or not. */
  type ListenerHostname = Option<string>

  type RouteHostnames = Option<seq<string>>

  // ---- meaning of hostname patterns in the Gateway API ----

  /** `*.example.com` stands for any host with at least one more label. */
  ghost predicate Matches(pattern: string, host: string) {
    if IsWildcard(pattern) then HasSuffix(host, pattern[1..]) && |host| >= |pattern| else host == pattern
  }

  ghost predicate AnyMatches(patterns: seq<string>, host: string) {
    exists i :: 0 <= i < |patterns| && Matches(patterns[i], host)
  }

  ghost predicate ListenerMatches(l: ListenerHostname, host: string) {
    l.None? || Matches(l.value, host)
  }

  ghost predicate RouteMatches(r: RouteHostnames, host: string) {
    r.None? || r.value == [] || AnyMatches(r.value, host)
  }

  /** A result that is ok without hostnames restricts nothing. */
  ghost predicate ResultMatches(ok: bool, hostnames: seq<string>, host: string) {
    ok && (hostnames == [] || AnyMatches(hostnames, host))
  }

  predicate ValidHost(h: string) {
    h != [] && h[0] != '.' && '*' !in h
  }

  predicate ValidPattern(p: string) {
    ValidHost(p) || (IsWildcard(p) && ValidHost(p[2..]))
  }

  predicate ValidInput(l: ListenerHostname, r: RouteHostnames) {
    && (l.Some? ==> ValidPattern(l.value))
    && (r.Some? ==> forall h <- r.value :: ValidPattern(h))
  }

  // ---- the code ----

  /** The route hostnames that end with `suffix`, in order. */
  function WithSuffix(hs: seq<string>, suffix: string): seq<string> {
    if hs == [] then []
    else WithSuffix(hs[..|hs| - 1], suffix) + if HasSuffix(hs[|hs| - 1], suffix) then [hs[|hs| - 1]] else []
  }

  predicate Covers(h: string, listener: string) {
    h == listener || (IsWildcard(h) && HasSuffix(listener, h[1..]))
  }

  function Intersect(l: ListenerHostname, r: RouteHostnames): (bool, seq<string>) {
    match l
    case None => (true, match r case None => [] case Some(hs) => hs)
    case Some(listener) =>
      if IsWildcard(listener) then
        match r
        case None => (true, [listener])
        case Some(hs) => (WithSuffix(hs, listener[1..]) != [], WithSuffix(hs, listener[1..]))
      else
        match r
        case None => (true, [listener])
        case Some(hs) =>
          if hs == [] || exists i :: 0 <= i < |hs| && Covers(hs[i], listener) then (true, [listener]) else (false, [])
  }

  method HostnameIntersect(l: ListenerHostname, r: RouteHostnames) returns (ok: bool, hostnames: seq<string>)
    ensures (ok, hostnames) == Intersect(l, r)
  {
    hostnames := [];
    var hs := if r.None? then [] else r.value;
    if l.None? {
      for i := 0 to |hs|
        invariant hostnames == hs[..i]
      {
        hostnames := hostnames + [hs[i]];
      }
      assert hs[..|hs|] == hs;
      return true, hostnames;
    }
    var listener := l.value;
    if HasPrefix(listener, "*.") {
      if r.None? {
        return true, [listener];
      }
      for i := 0 to |hs|
        invariant hostnames == WithSuffix(hs[..i], listener[1..])
      {
        assert hs[..i + 1][..i] == hs[..i];
        if HasSuffix(hs[i], listener[1..]) {
          hostnames := hostnames + [hs[i]];
        }
      }
      assert hs[..|hs|] == hs;
      return |hostnames| > 0, hostnames;
    }
    if |hs| == 0 {
      return true, [listener];
    }
    for i := 0 to |hs|
      invariant forall j :: 0 <= j < i ==> !Covers(hs[j], listener)
    {
      if hs[i] == listener {
        return true, [listener];
      }
      if HasPrefix(hs[i], "*.") {
        if HasSuffix(listener, hs[i][1..]) {
          return true, [listener];
        }
      }
    }
    return false, [];
  }

  // ---- suffixes ----

  /** Two suffixes of one string: the shorter is a suffix of the longer. */
  lemma SuffixesNest(s: string, t: string, u: string)
    requires HasSuffix(s, t) && HasSuffix(s, u) && |t| <= |u|
    ensures HasSuffix(u, t)
  {
    assert u[|u| - |t|..] == s[|s| - |t|..];
  }

  lemma SuffixTransitive(s: string, t: string, u: string)
    requires HasSuffix(s, t) && HasSuffix(t, u)
    ensures HasSuffix(s, u)
  {
    assert s[|s| - |u|..] == t[|t| - |u|..];
  }

  /** For patterns, the code's test by whole hostname is a test by what follows the star. */
  lemma SuffixOfPattern(p: string, suffix: string)
    requires ValidPattern(p) && suffix != [] && suffix[0] == '.'
    ensures IsWildcard(p) ==> (HasSuffix(p, suffix) <==> HasSuffix(p[1..], suffix))
    ensures !IsWildcard(p) && HasSuffix(p, suffix) ==> |p| > |suffix|
  {
    assert HasSuffix(p, suffix) && |p| == |suffix| ==> p == suffix;
    if IsWildcard(p) && |suffix| < |p| {
      assert p[1..][|p| - 1 - |suffix|..] == p[|p| - |suffix|..];
    }
  }

  lemma {:induction false} WithSuffixMembers(hs: seq<string>, suffix: string)
    ensures forall h :: h in WithSuffix(hs, suffix) <==> h in hs && HasSuffix(h, suffix)
  {
    if hs != [] {
      var n := |hs| - 1;
      WithSuffixMembers(hs[..n], suffix);
      assert hs == hs[..n] + [hs[n]];
    }
  }

  lemma AnyMatchesIsMembership(hs: seq<string>, host: string)
    ensures AnyMatches(hs, host) <==> exists h :: h in hs && Matches(h, host)
  {
    if AnyMatches(hs, host) {
      var i :| 0 <= i < |hs| && Matches(hs[i], host);
      assert hs[i] in hs;
    }
    if h :| h in hs && Matches(h, host) {
      var i :| 0 <= i < |hs| && hs[i] == h;
    }
  }

  // ---- soundness ----

  /** A route hostname kept for a wildcard listener matches only hosts of the listener. */
  lemma KeptMatchesListener(listener: string, h: string, host: string)
    requires ValidPattern(listener) && IsWildcard(listener) && ValidPattern(h)
    requires HasSuffix(h, listener[1..]) && Matches(h, host)
    ensures Matches(listener, host)
  {
    hide HasSuffix, ValidPattern;
    PatternSuffix(listener);
    SuffixOfPattern(h, listener[1..]);
    if IsWildcard(h) {
      SuffixTransitive(host, h[1..], listener[1..]);
      SuffixShorter(h[1..], listener[1..]);
    }
  }

  /** What follows the star of a wildcard starts with a dot. */
  lemma PatternSuffix(p: string)
    requires ValidPattern(p) && IsWildcard(p)
    ensures p[1..] != [] && p[1..][0] == '.'
  {
  }

  lemma SuffixShorter(s: string, t: string)
    requires HasSuffix(s, t)
    ensures |t| <= |s|
  {
  }

  /** An exact listener hostname that the code accepts is matched by the route hostname that covers it. */
  lemma CoversIsMatch(h: string, listener: string)
    requires ValidPattern(listener) && !IsWildcard(listener) && ValidPattern(h)
    ensures Covers(h, listener) <==> Matches(h, listener)
  {
    if IsWildcard(h) && HasSuffix(listener, h[1..]) {
      SuffixOfPattern(listener, h[1..]);
    }
  }

  /** Every host the result stands for is matched by both sides. */
  lemma IntersectIsSound(l: ListenerHostname, r: RouteHostnames, host: string)
    requires ValidInput(l, r)
    ensures ResultMatches(Intersect(l, r).0, Intersect(l, r).1, host) ==> ListenerMatches(l, host) && RouteMatches(r, host)
  {
    var (ok, hostnames) := Intersect(l, r);
    if l.Some? && r.Some? && r.value != [] && ResultMatches(ok, hostnames, host) {
      var listener, hs := l.value, r.value;
      AnyMatchesIsMembership(hostnames, host);
      AnyMatchesIsMembership(hs, host);
      if IsWildcard(listener) {
        WithSuffixMembers(hs, listener[1..]);
        var h :| h in hostnames && Matches(h, host);
        KeptMatchesListener(listener, h, host);
      } else {
        var i :| 0 <= i < |hs| && Covers(hs[i], listener);
        CoversIsMatch(hs[i], listener);
      }
    }
  }

  // ---- exactness ----

  predicate StrictlyBroader(p: string, listener: string) {
    IsWildcard(p) && |p| < |listener| && HasSuffix(listener, p[1..])
  }

  /** The inputs on which nothing is lost. What is excluded: a non-nil empty hostname list, or a route wildcard
      broader than the listener's without the listener's own, either one on a wildcard listener. */
  predicate Lossless(l: ListenerHostname, r: RouteHostnames) {
    l.Some? && IsWildcard(l.value) && r.Some? ==>
      r.value != [] && (l.value in r.value || forall h <- r.value :: !StrictlyBroader(h, l.value))
  }

  ghost predicate ExactAt(l: ListenerHostname, r: RouteHostnames, host: string) {
    ResultMatches(Intersect(l, r).0, Intersect(l, r).1, host) <==> ListenerMatches(l, host) && RouteMatches(r, host)
  }

  lemma DroppedIsBroader(listener: string, h: string, host: string)
    requires ValidPattern(listener) && IsWildcard(listener) && ValidPattern(h)
    requires Matches(listener, host) && Matches(h, host) && !HasSuffix(h, listener[1..])
    ensures StrictlyBroader(h, listener)
  {
    var ls := listener[1..];
    assert IsWildcard(h);
    SuffixOfPattern(h, ls);
    if |ls| <= |h[1..]| {
      SuffixesNest(host, ls, h[1..]);
    } else {
      SuffixesNest(host, h[1..], ls);
      assert HasSuffix(listener, ls);
      SuffixTransitive(listener, ls, h[1..]);
    }
  }

  lemma OwnSuffix(listener: string)
    requires listener != []
    ensures HasSuffix(listener, listener[1..])
  {
  }

  /** On a wildcard listener, a host of both sides is matched by a kept hostname. */
  lemma WildcardIsComplete(listener: string, hs: seq<string>, h: string, host: string)
    requires ValidPattern(listener) && IsWildcard(listener) && (forall p <- hs :: ValidPattern(p))
    requires listener in hs || forall p <- hs :: !StrictlyBroader(p, listener)
    requires Matches(listener, host) && h in hs && Matches(h, host)
    ensures AnyMatches(WithSuffix(hs, listener[1..]), host)
  {
    hide Matches;
    hide HasSuffix;
    hide WithSuffix;
    hide StrictlyBroader;
    hide ValidPattern;
    WithSuffixMembers(hs, listener[1..]);
    AnyMatchesIsMembership(WithSuffix(hs, listener[1..]), host);
    OwnSuffix(listener);
    if HasSuffix(h, listener[1..]) {
      assert h in WithSuffix(hs, listener[1..]);
    } else {
      DroppedIsBroader(listener, h, host);
      assert listener in WithSuffix(hs, listener[1..]);
    }
  }

  lemma LosslessIsExact(l: ListenerHostname, r: RouteHostnames, host: string)
    requires ValidInput(l, r) && Lossless(l, r)
    ensures ExactAt(l, r, host)
  {
    hide HasSuffix;
    hide WithSuffix;
    hide StrictlyBroader;
    hide ValidPattern;
    IntersectIsSound(l, r, host);
    if l.Some? && ListenerMatches(l, host) && RouteMatches(r, host) {
      var listener := l.value;
      if r.None? || r.value == [] {
        assert Matches([listener][0], host);
      } else {
        var i :| 0 <= i < |r.value| && Matches(r.value[i], host);
        if IsWildcard(listener) {
          WildcardIsComplete(listener, r.value, r.value[i], host);
        } else {
          CoversIsMatch(r.value[i], listener);
          assert Matches([listener][0], host);
        }
      }
    }
  }

  // ---- what is lost otherwise ----

  function MaxLength(hs: seq<string>): nat {
    if hs == [] then 0
    else
      var rest := MaxLength(hs[..|hs| - 1]);
      if |hs[|hs| - 1]| > rest then |hs[|hs| - 1]| else rest
  }

  lemma {:induction false} MaxLengthBounds(hs: seq<string>)
    ensures forall h :: h in hs ==> |h| <= MaxLength(hs)
  {
    if hs != [] {
      var n := |hs| - 1;
      MaxLengthBounds(hs[..n]);
      assert hs == hs[..n] + [hs[n]];
    }
  }

  /** A host of the listener whose first label is longer than every route hostname. */
  function FreshHost(listener: string, n: nat): string
    requires listener != []
  {
    seq(n + 1, i => 'a') + listener[1..]
  }

  lemma FreshHostIsListeners(listener: string, n: nat)
    requires IsWildcard(listener) && ValidPattern(listener)
    ensures ValidHost(FreshHost(listener, n)) && Matches(listener, FreshHost(listener, n))
  {
    var host := FreshHost(listener, n);
    assert host[|host| - |listener[1..]|..] == listener[1..];
    forall i | 0 <= i < |host| ensures host[i] != '*' {
      if i > n + 1 {
        assert host[i] == listener[2..][i - n - 2];
      }
    }
  }

  /** The listener's own wildcard is the only kept pattern that could match the fresh host. */
  lemma FreshHostEscapes(listener: string, h: string, n: nat)
    requires IsWildcard(listener) && ValidPattern(listener) && ValidPattern(h)
    requires HasSuffix(h, listener[1..]) && h != listener && |h| <= n
    ensures !Matches(h, FreshHost(listener, n))
  {
    var host := FreshHost(listener, n);
    SuffixOfPattern(h, listener[1..]);
    if IsWildcard(h) {
      var at := |host| - |h[1..]|;
      assert h == ['*'] + h[1..] && listener == ['*'] + listener[1..];
      assert |h| != |listener|;
      assert host[at] == 'a' && h[1..][0] == '.';
      assert host[at..][0] == host[at];
    }
  }

  /** A strictly broader route wildcard matches the fresh host; nothing that is kept does. */
  lemma FreshHostIsLost(listener: string, hs: seq<string>, p: string, n: nat)
    requires ValidPattern(listener) && IsWildcard(listener) && (forall h <- hs :: ValidPattern(h) && |h| <= n)
    requires p in hs && StrictlyBroader(p, listener) && listener !in hs
    ensures AnyMatches(hs, FreshHost(listener, n)) && !AnyMatches(WithSuffix(hs, listener[1..]), FreshHost(listener, n))
  {
    var host, kept := FreshHost(listener, n), WithSuffix(hs, listener[1..]);
    FreshHostIsListeners(listener, n);
    AnyMatchesIsMembership(kept, host);
    AnyMatchesIsMembership(hs, host);
    WithSuffixMembers(hs, listener[1..]);
    forall h | h in kept ensures !Matches(h, host) {
      FreshHostEscapes(listener, h, n);
    }
    OwnSuffix(listener);
    SuffixesNest(listener, p[1..], listener[1..]);
    SuffixTransitive(host, listener[1..], p[1..]);
  }

  lemma LossIsReal(l: ListenerHostname, r: RouteHostnames)
    requires ValidInput(l, r) && !Lossless(l, r)
    ensures exists host :: ValidHost(host) && !ExactAt(l, r, host)
  {
    hide Matches;
    hide HasSuffix;
    hide StrictlyBroader;
    hide ValidPattern;
    hide ValidHost;
    var listener, hs := l.value, r.value;
    var n := MaxLength(hs);
    FreshHostIsListeners(listener, n);
    if hs != [] {
      MaxLengthBounds(hs);
      var p :| p in hs && StrictlyBroader(p, listener);
      FreshHostIsLost(listener, hs, p, n);
    }
    assert !ExactAt(l, r, FreshHost(listener, n));
  }

  /** The result is exactly the intersection on all hosts if and only if the input is lossless. */
  lemma IntersectIsExactIff(l: ListenerHostname, r: RouteHostnames)
    requires ValidInput(l, r)
    ensures (forall host :: ValidHost(host) ==> ExactAt(l, r, host)) <==> Lossless(l, r)
  {
    if Lossless(l, r) {
      forall host | ValidHost(host) ensures ExactAt(l, r, host) {
        LosslessIsExact(l, r, host);
      }
    } else {
      LossIsReal(l, r);
    }
  }
}
