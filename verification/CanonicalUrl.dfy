/** Cache keys: a URL taken apart, put into canonical form and printed again; printing a canonical form and
    taking it apart gives the same form. */
module CanonicalUrl {
  import opened Seqs
  import opened QueryParams

  predicate IsSpace(c: char) {
    c == ' ' || c == '\t' || c == '\r' || c == '\n' || c as int == 12 || c as int == 11
  }

  function TrimLeft(s: string): (t: string)
    ensures |t| > 0 ==> !IsSpace(t[0])
    ensures |t| <= |s| && t == s[|s| - |t|..]
  {
    if |s| > 0 && IsSpace(s[0]) then TrimLeft(s[1..]) else s
  }

  function TrimRight(s: string): (t: string)
    ensures |t| > 0 ==> !IsSpace(t[|t| - 1])
    ensures |t| <= |s| && t == s[..|t|]
  {
    if |s| > 0 && IsSpace(s[|s| - 1]) then TrimRight(s[..|s| - 1]) else s
  }

  function Trim(s: string): string {
    TrimRight(TrimLeft(s))
  }

  function Lower(c: char): char {
    if 'A' <= c <= 'Z' then (c as int + 32) as char else c
  }

  function AsciiLower(s: string): (t: string)
    ensures |t| == |s|
  {
    seq(|s|, i requires 0 <= i < |s| => Lower(s[i]))
  }

  /** Where "://" is, or the length. */
  function FindScheme(s: string): (n: nat)
    ensures n <= |s|
  {
    if |s| < 3 then |s| else if s[..3] == "://" then 0 else 1 + FindScheme(s[1..])
  }

  predicate Stops(c: char) {
    c == '/' || c == '?' || c == '#'
  }

  function AuthorityLength(s: string): (n: nat)
    ensures n <= |s|
  {
    if |s| == 0 || Stops(s[0]) then 0 else 1 + AuthorityLength(s[1..])
  }

  /** The length of what stands before the last '@', or -1. */
  function LastAt(s: string): (n: int)
    ensures -1 <= n < |s|
  {
    if |s| == 0 then -1 else if s[|s| - 1] == '@' then |s| - 1 else LastAt(s[..|s| - 1])
  }

  datatype HostPort = HostPort(host: string, port: string)

  /** Only a colon after the closing bracket of an IPv6 literal introduces a port. */
  function SplitHost(s: string): HostPort {
    var from := if |s| > 0 && s[0] == '[' then Until(s, ']') else 0;
    if |s| > 0 && s[0] == '[' && from == |s| then HostPort(s, "") else
    var colon := from + Until(s[from..], ':');
    if colon == |s| then HostPort(s, "") else HostPort(s[..colon], s[colon + 1..])
  }

  datatype Url = Url(scheme: string, userinfo: string, host: string, port: string, path: string, query: string)

  function CutFragment(s: string): string {
    s[..Until(s, '#')]
  }

  function AfterAt(authority: string): string {
    authority[LastAt(authority) + 1..]
  }

  function BeforeAt(authority: string): string {
    if LastAt(authority) < 0 then "" else authority[..LastAt(authority)]
  }

  function PathOf(target: string): string {
    target[..Until(target, '?')]
  }

  function QueryOf(target: string): string {
    if Until(target, '?') == |target| then "" else target[Until(target, '?') + 1..]
  }

  predicate Decomposes(input: string) {
    0 < FindScheme(input) < |input|
  }

  lemma {:induction false} SchemeFound(s: string)
    ensures FindScheme(s) < |s| ==> FindScheme(s) + 3 <= |s| && s[FindScheme(s)..FindScheme(s) + 3] == "://"
  {
    if |s| >= 3 && s[..3] != "://" {
      SchemeFound(s[1..]);
      if FindScheme(s) < |s| {
        assert s[1..][FindScheme(s[1..])..FindScheme(s[1..]) + 3] == s[FindScheme(s)..FindScheme(s) + 3];
      }
    }
  }

  /** What follows the scheme. */
  function AfterScheme(input: string): string {
    if FindScheme(input) + 3 <= |input| then input[FindScheme(input) + 3..] else ""
  }

  function AuthorityOf(rest: string): string {
    rest[..AuthorityLength(rest)]
  }

  function TargetOf(rest: string): string {
    CutFragment(rest[AuthorityLength(rest)..])
  }

  function Decompose(input: string): Url {
    var rest := AfterScheme(input);
    var hostPort := SplitHost(AfterAt(AuthorityOf(rest)));
    Url(input[..FindScheme(input)], BeforeAt(AuthorityOf(rest)), hostPort.host, hostPort.port,
        PathOf(TargetOf(rest)), QueryOf(TargetOf(rest)))
  }

  predicate IsDefaultPort(scheme: string, port: string) {
    ((scheme == "http" || scheme == "ws") && port == "80") || ((scheme == "https" || scheme == "wss") && port == "443")
  }

  function Canonicalised(u: Url): Url {
    var scheme := AsciiLower(u.scheme);
    Url(scheme, u.userinfo, AsciiLower(u.host), if IsDefaultPort(scheme, u.port) then "" else u.port,
        if |u.path| == 0 then "/" else u.path, CanonicalQuery(u.query))
  }

  function PrintHost(host: string, port: string): string {
    host + (if |port| > 0 then ":" + port else "")
  }

  function PrintAuthority(u: Url): string {
    if |u.userinfo| > 0 then u.userinfo + ("@" + PrintHost(u.host, u.port)) else PrintHost(u.host, u.port)
  }

  function PrintTarget(u: Url): string {
    u.path + (if |u.query| > 0 then "?" + u.query else "")
  }

  function Print(u: Url): string {
    u.scheme + ("://" + (PrintAuthority(u) + PrintTarget(u)))
  }

  /** `canonicalizeUrl`. */
  function Canonical(url: string): string {
    var input := Trim(url);
    if Decomposes(input) then Print(Canonicalised(Decompose(input))) else CutFragment(input)
  }

  // ----- Finding things again -----

  lemma {:induction false} SchemeStands(a: string, b: string)
    requires FindScheme(a + "://") == |a|
    ensures FindScheme(a + ("://" + b)) == |a|
  {
    if |a| == 0 {
      assert a + ("://" + b) == "://" + b && ("://" + b)[..3] == "://";
    } else {
      assert (a + "://")[1..] == a[1..] + "://" && (a + ("://" + b))[1..] == a[1..] + ("://" + b);
      assert (a + "://")[..3] == (a + ("://" + b))[..3];
      SchemeStands(a[1..], b);
    }
  }

  lemma {:induction false} SchemeKeeps(s: string)
    requires FindScheme(s) < |s|
    ensures FindScheme(s[..FindScheme(s)] + "://") == FindScheme(s)
    decreases |s|
  {
    SchemeFound(s);
    var k := FindScheme(s);
    if k == 0 {
      assert s[..0] + "://" == "://";
    } else {
      SchemeKeeps(s[1..]);
      assert s[1..][..k - 1] == s[..k][1..];
      var a := s[..k];
      assert (a + "://")[1..] == a[1..] + "://";
      assert (a + "://") == s[..k + 3];
      assert s[..k + 3][..3] == s[..3];
    }
  }

  lemma LowerKeepsSlashes(a: string)
    ensures (AsciiLower(a) + "://")[..3] == "://" <==> (a + "://")[..3] == "://"
  {
    var s, t := (a + "://")[..3], (AsciiLower(a) + "://")[..3];
    forall i | 0 <= i < 3
      ensures t[i] == "://"[i] <==> s[i] == "://"[i]
    {
    }
    assert s == "://" <==> s[0] == ':' && s[1] == '/' && s[2] == '/';
    assert t == "://" <==> t[0] == ':' && t[1] == '/' && t[2] == '/';
  }

  lemma {:induction false} SchemeLowers(a: string)
    requires FindScheme(a + "://") == |a|
    ensures FindScheme(AsciiLower(a) + "://") == |a|
  {
    if |a| > 0 {
      var l := AsciiLower(a);
      assert (a + "://")[1..] == a[1..] + "://";
      assert (l + "://")[1..] == AsciiLower(a[1..]) + "://";
      SchemeLowers(a[1..]);
      LowerKeepsSlashes(a);
    }
  }

  predicate NoStops(s: string) {
    forall i | 0 <= i < |s| :: !Stops(s[i])
  }

  lemma {:induction false} AuthorityStands(a: string, b: string)
    requires NoStops(a) && (|b| == 0 || Stops(b[0]))
    ensures AuthorityLength(a + b) == |a|
  {
    if |a| == 0 {
      assert a + b == b;
    } else {
      assert (a + b)[1..] == a[1..] + b;
      AuthorityStands(a[1..], b);
    }
  }

  lemma {:induction false} AuthorityMeans(s: string)
    ensures NoStops(s[..AuthorityLength(s)])
    ensures AuthorityLength(s) < |s| ==> Stops(s[AuthorityLength(s)])
  {
    if |s| > 0 && !Stops(s[0]) {
      AuthorityMeans(s[1..]);
      assert forall i | 0 < i < AuthorityLength(s) :: s[i] == s[1..][..AuthorityLength(s[1..])][i - 1];
    }
  }

  lemma {:induction false} LastAtMeans(s: string)
    ensures LastAt(s) >= 0 ==> s[LastAt(s)] == '@'
    ensures forall i | LastAt(s) < i < |s| :: s[i] != '@'
  {
    if |s| > 0 && s[|s| - 1] != '@' {
      LastAtMeans(s[..|s| - 1]);
    }
  }

  lemma {:induction false} LastAtStands(a: string, b: string)
    requires Lacks(b, '@')
    ensures LastAt(a + ("@" + b)) == |a|
    decreases |b|
  {
    var s := a + ("@" + b);
    if |b| == 0 {
      assert s[|s| - 1] == '@';
    } else {
      assert s[..|s| - 1] == a + ("@" + b[..|b| - 1]);
      LastAtStands(a, b[..|b| - 1]);
    }
  }

  lemma {:induction false} NoAt(b: string)
    requires Lacks(b, '@')
    ensures LastAt(b) == -1
  {
    if |b| > 0 {
      NoAt(b[..|b| - 1]);
    }
  }

  // ----- Hosts and ports -----

  /** A host and a port that printing and splitting give back. */
  predicate Separable(host: string, port: string) {
    SplitHost(PrintHost(host, port)) == HostPort(host, port)
  }

  /** Where `SplitHost` starts to look for a colon. */
  function PortFrom(s: string): (n: nat)
    ensures n <= |s|
  {
    if |s| > 0 && s[0] == '[' then Until(s, ']') else 0
  }

  lemma {:induction false} UntilOfPrefix(s: string, n: nat, c: char)
    requires n <= |s|
    ensures Until(s[..n], c) == if Until(s, c) <= n then Until(s, c) else n
  {
    if n > 0 && s[0] != c {
      assert s[..n][1..] == s[1..][..n - 1];
      UntilOfPrefix(s[1..], n - 1, c);
    }
  }

  lemma {:induction false} UntilLowers(s: string, c: char)
    requires !('A' <= c <= 'Z') && !('a' <= c <= 'z')
    ensures Until(AsciiLower(s), c) == Until(s, c)
  {
    if |s| > 0 && s[0] != c {
      assert AsciiLower(s)[1..] == AsciiLower(s[1..]);
      UntilLowers(s[1..], c);
    }
  }

  /** Lower case changes none of the marks a host is split at. */
  lemma SplitLowers(s: string)
    ensures PortFrom(AsciiLower(s)) == PortFrom(s)
    ensures Until(AsciiLower(s)[PortFrom(s)..], ':') == Until(s[PortFrom(s)..], ':')
  {
    UntilLowers(s, ']');
    UntilLowers(s[PortFrom(s)..], ':');
    assert AsciiLower(s)[PortFrom(s)..] == AsciiLower(s[PortFrom(s)..]);
  }

  /** A host with no colon where a port could begin. */
  predicate PlainHost(host: string, from: nat) {
    && from <= |host| && Until(host[from..], ':') == |host| - from
    && (if |host| > 0 && host[0] == '[' then from == Until(host, ']') else from == 0)
  }

  /** What stands before the colon. */
  lemma PlainPrefix(s: string, colon: nat)
    requires PortFrom(s) <= colon == PortFrom(s) + Until(s[PortFrom(s)..], ':')
    ensures PlainHost(s[..colon], PortFrom(s))
    ensures |s| > 0 && s[0] == '[' && PortFrom(s) < |s| ==> PortFrom(s) < colon
  {
    var from := PortFrom(s);
    UntilMeans(s, ']');
    UntilOfPrefix(s, colon, ']');
    assert s[from..][..colon - from] == s[..colon][from..];
    UntilOfPrefix(s[from..], colon - from, ':');
    if |s| > 0 && s[0] == '[' && from < |s| {
      assert s[from..][0] == s[from] == ']';
    }
  }

  lemma SplitIs(s: string)
    ensures var from := PortFrom(s);
      var colon := from + Until(s[from..], ':');
      SplitHost(s) == if colon >= |s| then HostPort(s, "") else HostPort(s[..colon], s[colon + 1..])
  {
  }

  /** The host that is split off is plain, and a port comes only after its closing bracket. */
  lemma PlainSplit(s: string) returns (from: nat)
    ensures var hp := SplitHost(s);
      PlainHost(hp.host, from) && (|hp.port| > 0 && |hp.host| > 0 && hp.host[0] == '[' ==> from < |hp.host|)
  {
    from := PortFrom(s);
    var colon := from + Until(s[from..], ':');
    SplitIs(s);
    PlainPrefix(s, colon);
    hide SplitHost, Until, PlainHost, PortFrom;
    if colon >= |s| {
      assert s[..colon] == s;
    }
  }

  /** A split host, in lower case, alone or with its port, splits the same way again. */
  lemma SplitHostIsSeparable(s: string)
    ensures var hp := SplitHost(s);
      Separable(AsciiLower(hp.host), hp.port) && Separable(AsciiLower(hp.host), "")
  {
    hide *;
    var hp := SplitHost(s);
    var from := PlainSplit(s);
    HostAlone(hp.host, from);
    if |hp.port| > 0 {
      HostWithPort(hp.host, hp.port, from);
    } else {
      assert hp.port == "";
    }
  }

  lemma HostAlone(host: string, from: nat)
    requires PlainHost(host, from)
    ensures Separable(AsciiLower(host), "")
  {
    SplitLowers(host);
    var l := AsciiLower(host);
    assert l + "" == l;
  }

  /** What follows a colon does not move the place where a port may begin. */
  lemma PortFromStands(l: string, port: string)
    requires |l| > 0 && l[0] == '[' ==> Until(l, ']') < |l|
    ensures PortFrom(l + (":" + port)) == PortFrom(l)
  {
    var s := l + (":" + port);
    if |l| > 0 && l[0] == '[' {
      UntilOfPrefix(s, |l|, ']');
      assert s[..|l|] == l;
    }
  }

  lemma ColonStands(l: string, port: string, from: nat)
    requires from <= |l| && Until(l[from..], ':') == |l| - from
    ensures Until((l + (":" + port))[from..], ':') == |l| - from
  {
    UntilMeans(l[from..], ':');
    assert (l + (":" + port))[from..] == l[from..] + (":" + port);
    UntilStops(l[from..], ":" + port, ':');
  }

  lemma HostWithPort(host: string, port: string, from: nat)
    requires PlainHost(host, from) && (|host| > 0 && host[0] == '[' ==> from < |host|)
    ensures Separable(AsciiLower(host), port)
  {
    if |port| == 0 {
      HostAlone(host, from);
    } else {
      SplitLowers(host);
      var l := AsciiLower(host);
      assert PortFrom(l) == from && Until(l[from..], ':') == |l| - from;
      assert |l| > 0 && l[0] == '[' ==> Until(l, ']') < |l|;
      hide SplitHost, Until, PortFrom, AsciiLower, PlainHost;
      PortFromStands(l, port);
      ColonStands(l, port, from);
      var s := l + (":" + port);
      SplitIs(s);
      assert s[..|l|] == l && s[|l| + 1..] == port;
    }
  }

  // ----- Taking apart what was printed -----

  predicate GoodTarget(path: string, query: string) {
    && |path| > 0 && path[0] == '/' && Lacks(path, '?') && Lacks(path, '#') && Lacks(query, '#')
  }

  /** Parts that printing keeps apart. */
  predicate WellFormed(u: Url) {
    && |u.scheme| > 0 && FindScheme(u.scheme + "://") == |u.scheme|
    && NoStops(u.userinfo) && NoStops(u.host) && NoStops(u.port)
    && Lacks(u.host, '@') && Lacks(u.port, '@') && Separable(u.host, u.port)
    && GoodTarget(u.path, u.query)
  }

  lemma PrintedHostIsGood(host: string, port: string)
    requires NoStops(host) && NoStops(port) && Lacks(host, '@') && Lacks(port, '@')
    ensures NoStops(PrintHost(host, port)) && Lacks(PrintHost(host, port), '@')
  {
  }

  lemma UserinfoReadsBack(userinfo: string, hp: string)
    requires NoStops(userinfo) && NoStops(hp) && Lacks(hp, '@')
    ensures var a := if |userinfo| > 0 then userinfo + ("@" + hp) else hp;
      NoStops(a) && BeforeAt(a) == userinfo && AfterAt(a) == hp
  {
    if |userinfo| > 0 {
      var a := userinfo + ("@" + hp);
      LastAtStands(userinfo, hp);
      assert a[..|userinfo|] == userinfo && a[|userinfo| + 1..] == hp;
    } else {
      NoAt(hp);
    }
  }

  lemma AuthorityReadsBack(u: Url)
    requires WellFormed(u)
    ensures var a := PrintAuthority(u);
      NoStops(a) && BeforeAt(a) == u.userinfo && SplitHost(AfterAt(a)) == HostPort(u.host, u.port)
  {
    PrintedHostIsGood(u.host, u.port);
    hide SplitHost, PrintHost, BeforeAt, AfterAt, NoStops, FindScheme;
    UserinfoReadsBack(u.userinfo, PrintHost(u.host, u.port));
  }

  lemma LacksUntil(s: string, c: char)
    requires Lacks(s, c)
    ensures Until(s, c) == |s|
  {
    UntilStops(s, "", c);
    assert s + "" == s;
  }

  lemma TargetReadsBack(path: string, query: string)
    requires GoodTarget(path, query)
    ensures var t := path + (if |query| > 0 then "?" + query else "");
      && |t| > 0 && t[0] == '/' && CutFragment(t) == t && PathOf(t) == path && QueryOf(t) == query
  {
    var q := if |query| > 0 then "?" + query else "";
    var t := path + q;
    assert Lacks(t, '#');
    LacksUntil(t, '#');
    UntilStops(path, q, '?');
    assert t[..|t|] == t && t[..|path|] == path;
    if |query| > 0 {
      assert t[|path| + 1..] == query;
    }
  }

  /** A scheme, an authority and what begins with a slash come apart where they were joined. */
  lemma JoinedComesApart(scheme: string, authority: string, target: string)
    requires FindScheme(scheme + "://") == |scheme| && NoStops(authority) && |target| > 0 && target[0] == '/'
    ensures var s := scheme + ("://" + (authority + target));
      && FindScheme(s) == |scheme| < |s| && s[..|scheme|] == scheme
      && AuthorityOf(AfterScheme(s)) == authority && TargetOf(AfterScheme(s)) == CutFragment(target)
  {
    var rest := authority + target;
    var s := scheme + ("://" + rest);
    SchemeStands(scheme, rest);
    assert s[..|scheme|] == scheme && s[|scheme| + 3..] == rest;
    AuthorityStands(authority, target);
    assert rest[..|authority|] == authority && rest[|authority|..] == target;
    hide FindScheme, AuthorityLength, CutFragment;
  }

  /** Printed parts are found again. */
  lemma DecomposeOfPrint(u: Url)
    requires WellFormed(u)
    ensures Decomposes(Print(u)) && Decompose(Print(u)) == u
  {
    AuthorityReadsBack(u);
    TargetReadsBack(u.path, u.query);
    JoinedComesApart(u.scheme, PrintAuthority(u), PrintTarget(u));
    hide FindScheme, AuthorityOf, TargetOf, AfterScheme, SplitHost, AfterAt, BeforeAt, PathOf, QueryOf, PrintAuthority, CutFragment;
  }

  // ----- Canonical forms are well formed -----

  lemma LowerKeepsMarks(s: string, c: char)
    requires Lacks(s, c) && !('A' <= c <= 'Z') && !('a' <= c <= 'z')
    ensures Lacks(AsciiLower(s), c)
  {
  }

  lemma LowerKeepsStops(s: string)
    requires NoStops(s)
    ensures NoStops(AsciiLower(s))
  {
  }

  lemma AuthorityIsGood(rest: string)
    ensures var a := AuthorityOf(rest);
      && NoStops(BeforeAt(a)) && NoStops(AfterAt(a)) && Lacks(AfterAt(a), '@')
  {
    AuthorityMeans(rest);
    LastAtMeans(AuthorityOf(rest));
  }

  lemma HostIsGood(s: string)
    requires NoStops(s) && Lacks(s, '@')
    ensures var hp := SplitHost(s); NoStops(hp.host) && NoStops(hp.port) && Lacks(hp.host, '@') && Lacks(hp.port, '@')
  {
    SplitIs(s);
    hide SplitHost, Until, PortFrom;
  }

  lemma TargetIsGood(rest: string)
    ensures var t := TargetOf(rest);
      var path := if |PathOf(t)| == 0 then "/" else PathOf(t);
      path[0] == '/' && Lacks(path, '?') && Lacks(path, '#') && Lacks(QueryOf(t), '#')
  {
    var tail := rest[AuthorityLength(rest)..];
    AuthorityMeans(rest);
    UntilMeans(tail, '#');
    var t := TargetOf(rest);
    UntilMeans(t, '?');
    if |PathOf(t)| > 0 {
      assert PathOf(t)[0] == tail[0];
    }
  }

  lemma QueryStaysGood(query: string)
    requires Lacks(query, '#')
    ensures Lacks(CanonicalQuery(query), '#')
  {
    SplitLacks(query, '#');
    SortLacks(Split(query), '#');
    JoinLacks(Sort(Split(query)), '#');
  }

  predicate ParamsLack(params: seq<Param>, c: char) {
    forall i | 0 <= i < |params| :: Lacks(params[i].key, c) && Lacks(params[i].value, c)
  }

  lemma {:induction false} SplitLacks(query: string, c: char)
    requires Lacks(query, c)
    ensures ParamsLack(Split(query), c)
    decreases |query|
  {
    var amp := Until(query, '&');
    if amp < |query| {
      SplitLacks(query[amp + 1..], c);
    }
  }

  lemma SortLacks(params: seq<Param>, c: char)
    requires ParamsLack(params, c)
    ensures ParamsLack(Sort(params), c)
  {
    SortSorts(params);
    forall i | 0 <= i < |Sort(params)|
      ensures Lacks(Sort(params)[i].key, c) && Lacks(Sort(params)[i].value, c)
    {
      assert Sort(params)[i] in multiset(params);
    }
  }

  lemma {:induction false} JoinLacks(params: seq<Param>, c: char)
    requires ParamsLack(params, c) && c != '&' && c != '='
    ensures Lacks(Join(params), c)
  {
    if |params| > 0 {
      assert Lacks(Rendered(params[0]), c);
      JoinLacks(params[1..], c);
    }
  }

  lemma CanonicalisedIsWellFormed(input: string)
    requires Decomposes(input)
    ensures WellFormed(Canonicalised(Decompose(input)))
  {
    var u := Decompose(input);
    var rest := AfterScheme(input);
    SchemeKeeps(input);
    SchemeLowers(u.scheme);
    AuthorityIsGood(rest);
    HostIsGood(AfterAt(AuthorityOf(rest)));
    SplitHostIsSeparable(AfterAt(AuthorityOf(rest)));
    LowerKeepsMarks(u.host, '@');
    LowerKeepsStops(u.host);
    TargetIsGood(rest);
    QueryStaysGood(u.query);
    hide FindScheme, AuthorityOf, TargetOf, AfterScheme, SplitHost, AfterAt, BeforeAt, PathOf, QueryOf, CanonicalQuery, Separable;
  }

  lemma LowerTwice(s: string)
    ensures AsciiLower(AsciiLower(s)) == AsciiLower(s)
  {
  }

  lemma CanonicalisedTwice(u: Url)
    ensures Canonicalised(Canonicalised(u)) == Canonicalised(u)
  {
    LowerTwice(u.scheme);
    LowerTwice(u.host);
    CanonicalQueryIsStable(u.query);
    hide CanonicalQuery, AsciiLower;
  }

  // ----- The main results -----

  predicate EndsInSpace(s: string) {
    |s| > 0 && IsSpace(s[|s| - 1])
  }

  lemma {:induction false} TrimLeftOf(s: string)
    requires |s| > 0 ==> !IsSpace(s[0])
    ensures TrimLeft(s) == s
  {
  }

  lemma TrimOf(s: string)
    requires (|s| > 0 ==> !IsSpace(s[0])) && !EndsInSpace(s)
    ensures Trim(s) == s
  {
  }

  lemma TrimmedStart(s: string)
    ensures |Trim(s)| > 0 ==> !IsSpace(Trim(s)[0])
  {
  }

  lemma {:induction false} SchemeOfPrefix(s: string, n: nat)
    requires n <= |s|
    ensures FindScheme(s[..n]) == FindScheme(s) || FindScheme(s[..n]) == n
  {
    SchemeFound(s);
    if |s| >= 3 && s[..3] != "://" && n > 0 {
      assert s[..n][1..] == s[1..][..n - 1];
      SchemeOfPrefix(s[1..], n - 1);
      if n >= 3 {
        assert s[..n][..3] == s[..3];
      }
    } else if n >= 3 {
      assert s[..n][..3] == s[..3];
    }
  }

  lemma CanonicalOfTrimmed(s: string)
    ensures Trim(s) == s ==>
      Canonical(s) == if Decomposes(s) then Print(Canonicalised(Decompose(s))) else CutFragment(s)
  {
    hide Print, Decompose, Canonicalised, Decomposes, Trim, CutFragment;
  }

  lemma CutAgain(input: string)
    requires !Decomposes(input) && (|input| > 0 ==> !IsSpace(input[0])) && !EndsInSpace(CutFragment(input))
    ensures var r := CutFragment(input); Canonical(r) == r
  {
    var cut := CutFragment(input);
    UntilMeans(input, '#');
    LacksUntil(cut, '#');
    assert CutFragment(cut) == cut;
    hide FindScheme, Until, Trim, Canonical, Decomposes;
    CutKeepsScheme(input);
    TrimOf(cut);
    CanonicalOfTrimmed(cut);
  }

  /** A canonical form begins with no space, and is its own form if it does not end in one either. */
  lemma CanonicalOfCanonical(url: string)
    requires !EndsInSpace(Canonical(url))
    ensures Canonical(Canonical(url)) == Canonical(url)
  {
    var input := Trim(url);
    assert Canonical(url) == if Decomposes(input) then Print(Canonicalised(Decompose(input))) else CutFragment(input);
    TrimmedStart(url);
    assert Decomposes(input) ==> |input| > 0;
    hide *;
    if Decomposes(input) {
      var u := Canonicalised(Decompose(input));
      PrintStart(input, u);
      CanonicalisedIsWellFormed(input);
      DecomposeOfPrint(u);
      CanonicalisedTwice(Decompose(input));
      TrimOf(Print(u));
      CanonicalOfTrimmed(Print(u));
    } else {
      CutAgain(input);
    }
  }

  lemma PrintStart(input: string, u: Url)
    requires Decomposes(input) && !IsSpace(input[0]) && u == Canonicalised(Decompose(input))
    ensures |Print(u)| > 0 && !IsSpace(Print(u)[0])
  {
    assert u.scheme == AsciiLower(input[..FindScheme(input)]);
    assert u.scheme[0] == Lower(input[0]);
    assert Print(u)[0] == u.scheme[0];
    hide Decompose, Canonicalised, FindScheme, AsciiLower;
  }

  /** A fragment cut off a string that begins with "://" leaves that, or cuts before any scheme could be. */
  lemma CutKeepsScheme(input: string)
    requires !Decomposes(input)
    ensures !Decomposes(CutFragment(input))
  {
    SchemeOfPrefix(input, Until(input, '#'));
    hide FindScheme, Until;
  }

  // ----- Where stability ends -----

  lemma AuthorityLengths(u: Url, authority: string)
    requires u.userinfo == BeforeAt(authority)
    requires HostPort(u.host, u.port) == SplitHost(AfterAt(authority))
    ensures |PrintAuthority(u)| <= |authority|
  {
    SplitIs(AfterAt(authority));
    hide SplitHost, Until, PortFrom;
  }

  lemma TargetLengths(target: string)
    ensures |PathOf(target)| + (if |QueryOf(target)| > 0 then 1 + |QueryOf(target)| else 0) <= |target|
  {
  }

  /** Canonical forms of URLs that have a path are never longer. */
  lemma NeverLonger(input: string)
    requires Decomposes(input) && |Decompose(input).path| > 0
    ensures |Print(Canonicalised(Decompose(input)))| <= |input|
  {
    var u, rest := Decompose(input), AfterScheme(input);
    SchemeFound(input);
    AuthorityLengths(u, AuthorityOf(rest));
    TargetLengths(TargetOf(rest));
    CanonicalQueryLength(u.query);
    var c := Canonicalised(u);
    assert |PrintAuthority(c)| <= |PrintAuthority(u)|;
    assert |PrintTarget(c)| <= |TargetOf(rest)|;
    assert |AuthorityOf(rest)| + |TargetOf(rest)| <= |rest|;
    hide Decompose, Canonicalised, PrintAuthority, PrintTarget, AuthorityOf, TargetOf, FindScheme, CanonicalQuery;
  }

  /** What is cut from a canonical form that ends in space leaves its path. */
  lemma TrimmedPrint(u: Url)
    requires WellFormed(u) && !IsSpace(u.scheme[0]) && EndsInSpace(Print(u))
    ensures var t := Trim(Print(u)); |t| < |Print(u)| && Decomposes(t) && |Decompose(t).path| > 0
  {
    var r := Print(u);
    var head := u.scheme + ("://" + PrintAuthority(u));
    assert r == head + PrintTarget(u);
    assert r[|head|] == '/' && r[0] == u.scheme[0];
    TrimKeeps(r, |head|);
    var t := Trim(r);
    var target := PrintTarget(u)[..|t| - |head|];
    assert t == head + target;
    assert t == u.scheme + ("://" + (PrintAuthority(u) + target));
    AuthorityReadsBack(u);
    JoinedComesApart(u.scheme, PrintAuthority(u), target);
    FirstOfPath(target);
    hide Print, Trim, PrintAuthority, PrintTarget, FindScheme, AuthorityOf, TargetOf, AfterScheme, CutFragment, PathOf;
  }

  lemma FirstOfPath(target: string)
    requires |target| > 0 && target[0] == '/'
    ensures |PathOf(CutFragment(target))| > 0
  {
  }

  lemma TrimKeeps(r: string, at: nat)
    requires at < |r| && !IsSpace(r[0]) && !IsSpace(r[at]) && EndsInSpace(r)
    ensures var t := Trim(r); at < |t| < |r| && t == r[..|t|]
  {
    TrimRightKeeps(r, at);
  }

  lemma {:induction false} TrimRightKeeps(s: string, at: nat)
    requires at < |s| && !IsSpace(s[at])
    ensures at < |TrimRight(s)|
    decreases |s|
  {
    if IsSpace(s[|s| - 1]) {
      TrimRightKeeps(s[..|s| - 1], at);
    }
  }

  lemma StableExactlyWhenTrimmed(url: string)
    ensures Canonical(Canonical(url)) == Canonical(url) <==> !EndsInSpace(Canonical(url))
  {
    var input, r := Trim(url), Canonical(url);
    if !EndsInSpace(r) {
      CanonicalOfCanonical(url);
    } else {
      TrimmedStart(url);
      if Decomposes(input) {
        var u := Canonicalised(Decompose(input));
        CanonicalisedIsWellFormed(input);
        PrintStart(input, u);
        assert Print(u)[0] == u.scheme[0];
        TrimmedPrint(u);
        NeverLonger(Trim(r));
      } else {
        NotDecomposed(input, r);
      }
      hide Print, Decompose, Canonicalised, Decomposes, WellFormed, Trim, CutFragment;
    }
  }

  lemma NotDecomposed(input: string, r: string)
    requires !Decomposes(input) && r == CutFragment(input) && (|input| > 0 ==> !IsSpace(input[0])) && EndsInSpace(r)
    ensures |Trim(r)| < |r| && !Decomposes(Trim(r))
  {
    TrimKeeps(r, 0);
    assert Trim(r) == input[..|Trim(r)|];
    SchemeOfPrefix(input, |Trim(r)|);
    hide FindScheme, Trim;
  }

  // ----- Which addresses are not stable -----

  /** What the canonical form of the trimmed address `input` will end with: its greatest parameter; without
      parameters its path; and if it cannot be taken apart, what stands before its fragment. */
  function LastPart(input: string): string {
    if !Decomposes(input) then CutFragment(input) else
    var target := TargetOf(AfterScheme(input));
    var params := Sort(Split(QueryOf(target)));
    if |params| > 0 then Rendered(params[|params| - 1]) else PathOf(target)
  }

  lemma {:induction false} JoinEnds(params: seq<Param>)
    requires |params| > 0 && |Rendered(params[|params| - 1])| > 0
    ensures |Join(params)| > 0
    ensures var last := Rendered(params[|params| - 1]); Join(params)[|Join(params)| - 1] == last[|last| - 1]
  {
    hide Rendered;
    if |params| > 1 {
      JoinEnds(params[1..]);
    }
  }

  lemma RenderedIsNotEmpty(p: Param)
    requires IsToken(p)
    ensures |Rendered(p)| > 0
  {
  }

  lemma EndsAsLastRendered(params: seq<Param>)
    requires |params| > 0 && AreTokens(params)
    ensures |Join(params)| > 0 && EndsInSpace(Join(params)) == EndsInSpace(Rendered(params[|params| - 1]))
  {
    RenderedIsNotEmpty(params[|params| - 1]);
    hide IsToken, Rendered, Join, IsSpace;
    JoinEnds(params);
  }

  lemma QueryEnds(query: string)
    ensures var params := Sort(Split(query));
      if |params| == 0 then CanonicalQuery(query) == ""
      else |CanonicalQuery(query)| > 0 && EndsInSpace(CanonicalQuery(query)) == EndsInSpace(Rendered(params[|params| - 1]))
  {
    var params := Sort(Split(query));
    assert CanonicalQuery(query) == Join(params);
    assert |params| == 0 ==> Join(params) == "";
    hide *;
    SplitGivesTokens(query);
    SortKeepsTokens(Split(query));
    if |params| > 0 {
      EndsAsLastRendered(params);
    }
  }

  lemma PrintEnds(u: Url)
    requires |u.path| > 0
    ensures EndsInSpace(Print(u)) == EndsInSpace(if |u.query| > 0 then u.query else u.path)
  {
    var head := u.scheme + ("://" + PrintAuthority(u));
    assert Print(u) == head + PrintTarget(u);
    hide Print, PrintAuthority;
  }

  /** The end of an address printed from its canonical parts. */
  function LastOf(path: string, query: string): string {
    var params := Sort(Split(query));
    if |params| > 0 then Rendered(params[|params| - 1]) else path
  }

  lemma LastPartIs(input: string)
    requires Decomposes(input)
    ensures LastPart(input) == LastOf(Decompose(input).path, Decompose(input).query)
  {
    hide FindScheme, AuthorityOf, TargetOf, AfterScheme, SplitHost, AfterAt, BeforeAt, PathOf, QueryOf, Split, Sort, Rendered;
  }

  lemma EndsAsLast(u: Url)
    ensures EndsInSpace(Print(Canonicalised(u))) == EndsInSpace(LastOf(u.path, u.query))
  {
    var c := Canonicalised(u);
    assert c.query == CanonicalQuery(u.query) && c.path == if |u.path| == 0 then "/" else u.path;
    hide Canonicalised, CanonicalQuery, Print, Sort, Split, Rendered;
    PrintEnds(c);
    QueryEnds(u.query);
  }

  lemma EndsAsLastPart(url: string)
    ensures EndsInSpace(Canonical(url)) <==> EndsInSpace(LastPart(Trim(url)))
  {
    var input := Trim(url);
    if Decomposes(input) {
      hide *;
      CanonicalIs(url, Canonicalised(Decompose(input)));
      LastPartIs(input);
      EndsAsLast(Decompose(input));
    } else {
      hide Trim, CutFragment, Decomposes;
    }
  }

  /** Taking the canonical form is idempotent exactly on the addresses whose greatest parameter, or without
      parameters whose path, or if they cannot be taken apart whose text before the fragment, does not end in
      white space: sorting, or cutting the fragment off, moves that to the end, and it would be trimmed the
      second time. */
  lemma IdempotentExactlyWhenTrimmed(url: string)
    ensures Canonical(Canonical(url)) == Canonical(url) <==> !EndsInSpace(LastPart(Trim(url)))
  {
    hide *;
    StableExactlyWhenTrimmed(url);
    EndsAsLastPart(url);
  }

  /** An address of this form comes apart like this. */
  lemma TakenApart(scheme: string, authority: string, target: string)
    requires |scheme| > 0 && FindScheme(scheme + "://") == |scheme| && !IsSpace(scheme[0])
    requires NoStops(authority) && |target| > 0 && target[0] == '/' && !IsSpace(target[|target| - 1])
    ensures var url := scheme + ("://" + (authority + target));
      Trim(url) == url && Decomposes(url) && TargetOf(AfterScheme(url)) == CutFragment(target)
  {
    JoinedComesApart(scheme, authority, target);
    var url := scheme + ("://" + (authority + target));
    assert url[0] == scheme[0] && url[|url| - 1] == target[|target| - 1];
    hide FindScheme, CutFragment, AuthorityOf, TargetOf, AfterScheme, Trim;
    TrimOf(url);
  }

  lemma SchemeLater(s: string)
    requires |s| >= 3 && s[0] != ':'
    ensures FindScheme(s) == 1 + FindScheme(s[1..])
  {
  }

  lemma HttpScheme()
    ensures FindScheme("http" + "://") == 4
  {
    assert FindScheme("://") == 0;
    hide FindScheme;
    SchemeLater("p://");
    assert "p://"[1..] == "://";
    SchemeLater("tp://");
    assert "tp://"[1..] == "p://";
    SchemeLater("ttp://");
    assert "ttp://"[1..] == "tp://";
    SchemeLater("http://");
    assert "http://"[1..] == "ttp://" && "http" + "://" == "http://";
  }

  lemma LastPartOf(url: string, target: string)
    requires Trim(url) == url && Decomposes(url) && TargetOf(AfterScheme(url)) == target
    ensures LastPart(Trim(url)) == LastOf(PathOf(target), QueryOf(target))
  {
    hide FindScheme, AfterScheme, TargetOf, PathOf, QueryOf, Split, Sort, Rendered, Trim, Decomposes, CutFragment;
  }

  lemma BlankTarget()
    ensures CutFragment("/a #f") == "/a " && PathOf("/a ") == "/a " && QueryOf("/a ") == ""
  {
    var t := "/a ";
    UntilStops(t, "#f", '#');
    assert t + "#f" == "/a #f" && "/a #f"[..3] == t;
    LacksUntil(t, '?');
    assert t[..|t|] == t;
    hide Until;
  }

  /** Such an address: a blank before the fragment. */
  lemma BlankBeforeFragment()
    ensures Canonical(Canonical("http://h/a #f")) != Canonical("http://h/a #f")
  {
    var url := "http" + ("://" + ("h" + "/a #f"));
    assert url == "http://h/a #f";
    assert NoStops("h") && !IsSpace('h') && !IsSpace('f');
    assert Sort(Split("")) == [];
    BlankTarget();
    HttpScheme();
    BlankEnds("/a ");
    hide FindScheme, Trim, Decomposes, TargetOf, AfterScheme, CutFragment, PathOf, QueryOf, Canonical, EndsInSpace, LastPart, Sort, Split, NoStops;
    TakenApart("http", "h", "/a #f");
    LastPartOf(url, "/a ");
    IdempotentExactlyWhenTrimmed(url);
  }

  lemma ParameterTarget()
    ensures var target := "/?b=1 &a=2"; CutFragment(target) == target && PathOf(target) == "/" && QueryOf(target) == "b=1 &a=2"
  {
    var q, target := "b=1 &a=2", "/?b=1 &a=2";
    LacksUntil(target, '#');
    assert target[..|target|] == target;
    UntilStops("/", "?" + q, '?');
    assert "/" + ("?" + q) == target && target[2..] == q && target[..1] == "/";
    hide Until;
  }

  /** Another: a blank after a parameter that is sorted to the end. */
  lemma BlankAfterParameter()
    ensures Canonical(Canonical("http://h/?b=1 &a=2")) != Canonical("http://h/?b=1 &a=2")
  {
    var target := "/?b=1 &a=2";
    var url := "http" + ("://" + ("h" + target));
    assert url == "http://h/?b=1 &a=2";
    assert NoStops("h") && !IsSpace('h') && !IsSpace('2');
    ParameterTarget();
    HttpScheme();
    BlankEnds("b=1 ");
    hide FindScheme, Trim, Decomposes, TargetOf, AfterScheme, CutFragment, PathOf, QueryOf, Canonical, EndsInSpace, LastPart, Sort, Split, NoStops,
      Rendered;
    SortedLast();
    TakenApart("http", "h", target);
    LastPartOf(url, target);
    IdempotentExactlyWhenTrimmed(url);
  }

  lemma BlankEnds(t: string)
    requires |t| > 0 && t[|t| - 1] == ' '
    ensures EndsInSpace(t)
  {
  }

  lemma SortOfTwo(x: Param, y: Param)
    ensures Sort([x, y]) == if Before(y, x) then [y, x] else [x, y]
  {
    assert [x, y][1..] == [y] && [y][1..] == [];
    hide Before;
    assert Sort([]) == [];
    assert Insert(y, []) == [y];
    assert Sort([y]) == [y];
    assert Sort([x, y]) == Insert(x, [y]);
    if Before(y, x) {
      assert Insert(x, [y][1..]) == [x];
    }
  }

  lemma JoinOfTwo(x: Param, y: Param)
    ensures Join([x, y]) == Rendered(x) + (['&'] + Rendered(y))
  {
    assert [x, y][1..] == [y];
    hide Rendered;
  }

  lemma SortedLast()
    ensures var sorted := Sort(Split("b=1 &a=2"));
      |sorted| == 2 && Rendered(sorted[1]) == "b=1 "
  {
    var b, a := Param("b", "1 ", true), Param("a", "2", true);
    JoinOfTwo(b, a);
    assert Rendered(b) == "b=1 " && Rendered(a) == "a=2" && "b=1 " + (['&'] + "a=2") == "b=1 &a=2";
    assert AreTokens([b, a]) && StrLess("a", "b") && Before(a, b);
    hide Join, Sort, Split, AreTokens, Before, Rendered;
    SplitOfJoin([b, a]);
    SortOfTwo(b, a);
  }

  // ----- Nothing comes in -----

  predicate IsMark(c: char) {
    c in "://?&=@" || 'A' <= c <= 'Z' || 'a' <= c <= 'z'
  }

  lemma TrimLacks(s: string, c: char)
    requires Lacks(s, c)
    ensures Lacks(Trim(s), c)
  {
  }

  lemma HostLacks(s: string, c: char)
    requires Lacks(s, c)
    ensures var hp := SplitHost(s); Lacks(hp.host, c) && Lacks(hp.port, c)
  {
    SplitIs(s);
    hide SplitHost, Until, PortFrom;
  }

  lemma RestLacks(input: string, c: char)
    requires Lacks(input, c)
    ensures var rest := AfterScheme(input);
      Lacks(input[..FindScheme(input)], c) && Lacks(AuthorityOf(rest), c) && Lacks(TargetOf(rest), c)
  {
    hide FindScheme, AuthorityLength, Until;
  }

  lemma UserinfoLacks(authority: string, c: char)
    requires Lacks(authority, c)
    ensures Lacks(BeforeAt(authority), c) && Lacks(AfterAt(authority), c)
  {
    hide LastAt;
  }

  lemma TargetLacks(target: string, c: char)
    requires Lacks(target, c)
    ensures Lacks(PathOf(target), c) && Lacks(QueryOf(target), c)
  {
    hide Until;
  }

  lemma PartsLack(input: string, c: char)
    requires Lacks(input, c)
    ensures var u := Decompose(input);
      && Lacks(u.scheme, c) && Lacks(u.userinfo, c) && Lacks(u.host, c) && Lacks(u.port, c) && Lacks(u.path, c)
      && Lacks(u.query, c)
  {
    var rest := AfterScheme(input);
    RestLacks(input, c);
    UserinfoLacks(AuthorityOf(rest), c);
    HostLacks(AfterAt(AuthorityOf(rest)), c);
    TargetLacks(TargetOf(rest), c);
    hide Lacks, SplitHost, FindScheme, AuthorityOf, AfterScheme, TargetOf, AfterAt, BeforeAt, PathOf, QueryOf;
  }

  lemma QueryLacks(query: string, c: char)
    requires Lacks(query, c) && !IsMark(c)
    ensures Lacks(CanonicalQuery(query), c)
  {
    SplitLacks(query, c);
    SortLacks(Split(query), c);
    JoinLacks(Sort(Split(query)), c);
  }

  lemma PrintLacks(u: Url, c: char)
    requires !IsMark(c) && Lacks(u.scheme, c) && Lacks(u.userinfo, c) && Lacks(u.host, c) && Lacks(u.port, c)
    requires Lacks(u.path, c) && Lacks(u.query, c)
    ensures Lacks(Print(u), c)
  {
    assert Lacks(PrintHost(u.host, u.port), c);
    assert Lacks(PrintAuthority(u), c);
    assert Lacks(PrintTarget(u), c);
  }

  /** Apart from letters and the marks of the syntax, every character of the result is one of the input's. */
  lemma CanonicalLacks(url: string, c: char)
    requires Lacks(url, c) && !IsMark(c)
    ensures Lacks(Canonical(url), c)
  {
    var input := Trim(url);
    TrimLacks(url, c);
    if Decomposes(input) {
      var u := Decompose(input);
      PartsLack(input, c);
      QueryLacks(u.query, c);
      LowerKeepsMarks(u.scheme, c);
      LowerKeepsMarks(u.host, c);
      assert Lacks("/", c);
      hide Decompose, CanonicalQuery, AsciiLower, Print, Trim;
      PrintLacks(Canonicalised(u), c);
    }
  }

  predicate NoSpace(s: string) {
    forall i | 0 <= i < |s| :: !IsSpace(s[i])
  }

  lemma SpaceIsLacking(url: string, r: string)
    requires NoSpace(url) && EndsInSpace(r)
    ensures |r| > 0 && Lacks(url, r[|r| - 1]) && !IsMark(r[|r| - 1]) && !Lacks(r, r[|r| - 1])
  {
  }

  /** So taking the canonical form is idempotent on addresses without white space. */
  lemma IdempotentWithoutSpace(url: string)
    requires NoSpace(url)
    ensures Canonical(Canonical(url)) == Canonical(url)
  {
    hide *;
    var r := Canonical(url);
    if EndsInSpace(r) {
      SpaceIsLacking(url, r);
      CanonicalLacks(url, r[|r| - 1]);
    }
    StableExactlyWhenTrimmed(url);
  }

  // ----- The order of the parameters -----

  lemma SameCanonicalised(u: Url, query: string)
    requires CanonicalQuery(u.query) == CanonicalQuery(query)
    ensures Canonicalised(u) == Canonicalised(u.(query := query))
  {
    hide CanonicalQuery, AsciiLower, IsDefaultPort;
  }

  /** Two addresses that come apart into the same parts, but for the order of their parameters, have one
      canonical form, whatever else of them the canonical form drops or fills in. */
  lemma ParameterOrderDoesNotMatter(a: string, b: string)
    requires Decomposes(Trim(a)) && Decomposes(Trim(b))
    requires Decompose(Trim(b)) == Decompose(Trim(a)).(query := Decompose(Trim(b)).query)
    requires multiset(Split(Decompose(Trim(a)).query)) == multiset(Split(Decompose(Trim(b)).query))
    requires Unambiguous(Split(Decompose(Trim(a)).query))
    ensures Canonical(a) == Canonical(b)
  {
    CanonicalIs(a, Canonicalised(Decompose(Trim(a))));
    CanonicalIs(b, Canonicalised(Decompose(Trim(b))));
    hide *;
    OrderDoesNotMatter(Decompose(Trim(a)).query, Decompose(Trim(b)).query);
    SameCanonicalised(Decompose(Trim(a)), Decompose(Trim(b)).query);
  }

  // ----- The procedure -----

  method SplitUserinfo(authority: string) returns (userinfo: string, host: string)
    ensures userinfo == BeforeAt(authority) && host == AfterAt(authority)
  {
    userinfo, host := "", authority;
    var at := LastAt(authority);
    if at >= 0 {
      userinfo, host := authority[..at], authority[at + 1..];
    }
    hide LastAt;
  }

  method SplitPort(authority: string) returns (host: string, port: string)
    ensures HostPort(host, port) == SplitHost(authority)
  {
    hide Until;
    host, port := authority, "";
    var bracketed := |authority| > 0 && authority[0] == '[';
    var searchFrom := if bracketed then Until(authority, ']') else 0;
    if !bracketed || searchFrom < |authority| {
      var colon := searchFrom + Until(authority[searchFrom..], ':');
      if colon < |authority| {
        host, port := authority[..colon], authority[colon + 1..];
      }
    }
  }

  method SortParams(query: string) returns (sorted: string)
    ensures sorted == CanonicalQuery(query)
  {
    sorted := "";
    if |query| > 0 {
      var params := SplitQuery(query);
      params := StableSort(params);
      sorted := JoinParams(params);
    }
  }

  method Append(u: Url) returns (out: string)
    ensures out == Print(u)
  {
    out := u.scheme + "://";
    if |u.userinfo| > 0 {
      out := out + u.userinfo + "@";
    }
    out := out + u.host;
    if |u.port| > 0 {
      out := out + ":" + u.port;
    }
    assert out == u.scheme + ("://" + PrintAuthority(u));
    out := out + u.path;
    if |u.query| > 0 {
      out := out + "?" + u.query;
    }
    assert out == u.scheme + ("://" + PrintAuthority(u)) + PrintTarget(u);
  }

  lemma CanonicalIs(url: string, parts: Url)
    requires Decomposes(Trim(url)) && parts == Canonicalised(Decompose(Trim(url)))
    ensures Canonical(url) == Print(parts)
  {
    hide Print, Decompose, Canonicalised, Decomposes, Trim, CutFragment;
  }

  method Parts(input: string) returns (u: Url)
    requires Decomposes(input)
    ensures u == Decompose(input)
  {
    SchemeFound(input);
    var schemeEnd := FindScheme(input);
    var rest := input[schemeEnd + 3..];
    var authorityEnd := AuthorityLength(rest);
    var authority, target := rest[..authorityEnd], CutFragment(rest[authorityEnd..]);
    assert rest == AfterScheme(input) && authority == AuthorityOf(rest) && target == TargetOf(rest);
    hide FindScheme, AuthorityLength, AuthorityOf, TargetOf, AfterScheme, SplitHost, AfterAt, BeforeAt, PathOf, QueryOf, CutFragment;
    var userinfo, hostAndPort := SplitUserinfo(authority);
    var host, port := SplitPort(hostAndPort);
    u := Url(input[..schemeEnd], userinfo, host, port, PathOf(target), QueryOf(target));
  }

  method Normalise(u: Url) returns (n: Url)
    ensures n == Canonicalised(u)
  {
    hide AsciiLower, IsDefaultPort, CanonicalQuery;
    n := u.(scheme := AsciiLower(u.scheme), host := AsciiLower(u.host));
    if IsDefaultPort(n.scheme, n.port) {
      n := n.(port := "");
    }
    if |n.path| == 0 {
      n := n.(path := "/");
    }
    var query := SortParams(n.query);
    n := n.(query := query);
  }

  method CanonicalizeUrl(url: string) returns (out: string)
    ensures out == Canonical(url)
  {
    var input := Trim(url);
    var schemeEnd := FindScheme(input);
    if schemeEnd == 0 || schemeEnd == |input| {
      return CutFragment(input);
    }
    assert Decomposes(input);
    hide *;
    var u := Parts(input);
    var n := Normalise(u);
    out := Append(n);
    CanonicalIs(url, n);
  }
}
