/** When two addresses share a cache key: the condition on what they say, scheme, host, port, credentials, path,
    parameters, without any canonical form. */
module SameAddress {
  import opened QueryParams
  import opened CanonicalUrl

  // ----- Letters, ports, paths -----

  predicate SameLetter(c: char, d: char) {
    || c == d
    || ('A' <= c <= 'Z' && d as int == c as int + 32)
    || ('A' <= d <= 'Z' && c as int == d as int + 32)
  }

  /** The same but for the case of ASCII letters. */
  predicate SameIgnoringCase(a: string, b: string) {
    |a| == |b| && forall i | 0 <= i < |a| :: SameLetter(a[i], b[i])
  }

  predicate NoUpper(s: string) {
    forall i | 0 <= i < |s| :: !('A' <= s[i] <= 'Z')
  }

  lemma LowerMeans(a: string, b: string)
    ensures AsciiLower(a) == AsciiLower(b) <==> SameIgnoringCase(a, b)
    ensures SameIgnoringCase(AsciiLower(a), a) && NoUpper(AsciiLower(a))
  {
    if AsciiLower(a) == AsciiLower(b) {
      forall i | 0 <= i < |a|
        ensures SameLetter(a[i], b[i])
      {
        assert AsciiLower(a)[i] == AsciiLower(b)[i];
      }
    }
    if SameIgnoringCase(a, b) {
      assert forall i | 0 <= i < |a| :: AsciiLower(a)[i] == AsciiLower(b)[i];
    }
  }

  /** No port, or the one the scheme has anyway: 80 for plain addresses, 443 for secure ones. */
  predicate Portless(scheme: string, port: string) {
    || port == ""
    || (port == "80" && (SameIgnoringCase(scheme, "http") || SameIgnoringCase(scheme, "ws")))
    || (port == "443" && (SameIgnoringCase(scheme, "https") || SameIgnoringCase(scheme, "wss")))
  }

  lemma Literals()
    ensures AsciiLower("http") == "http" && AsciiLower("ws") == "ws" && AsciiLower("https") == "https" && AsciiLower("wss") == "wss"
  {
  }

  lemma PortOfCanonical(u: Url)
    ensures Canonicalised(u).port == if Portless(u.scheme, u.port) then "" else u.port
  {
    Literals();
    LowerMeans(u.scheme, "http");
    LowerMeans(u.scheme, "ws");
    LowerMeans(u.scheme, "https");
    LowerMeans(u.scheme, "wss");
    hide AsciiLower, CanonicalQuery, SameIgnoringCase;
  }

  /** The same parameters, and those that share both key and value in the same order. */
  ghost predicate SameParams(a: seq<Param>, b: seq<Param>) {
    forall key, value :: Alike(a, key, value) == Alike(b, key, value)
  }

  lemma {:induction false} AlikeOf(s: seq<Param>, key: string, value: string)
    ensures forall p | p in Alike(s, key, value) :: p in s && p.key == key && p.value == value
    ensures |Alike(s, key, value)| == 0 ==> forall p | p in s :: p.key != key || p.value != value
  {
    if |s| > 0 {
      AlikeOf(s[1..], key, value);
    }
  }

  lemma FirstAlike(s: seq<Param>)
    requires |s| > 0
    ensures var mine := Alike(s, s[0].key, s[0].value); |mine| > 0 && mine[0] == s[0]
  {
  }

  lemma SameFirst(s: seq<Param>, t: seq<Param>)
    requires Sorted(s) && Sorted(t) && SameParams(s, t) && |s| > 0
    ensures |t| > 0 && s[0] == t[0]
  {
    var x := s[0];
    FirstAlike(s);
    AlikeOf(t, x.key, x.value);
    assert Alike(t, x.key, x.value)[0] == x && x in t;
    var y := t[0];
    FirstAlike(t);
    AlikeOf(s, y.key, y.value);
    assert Alike(s, y.key, y.value)[0] == y && y in s;
    FirstIsLeast(s, y);
    FirstIsLeast(t, x);
    BeforeTotal(x, y);
  }

  lemma SameRest(s: seq<Param>, t: seq<Param>)
    requires |s| > 0 && |t| > 0 && s[0] == t[0] && SameParams(s, t)
    ensures SameParams(s[1..], t[1..])
  {
    forall key, value
      ensures Alike(s[1..], key, value) == Alike(t[1..], key, value)
    {
      var first := if s[0].key == key && s[0].value == value then [s[0]] else [];
      assert Alike(s, key, value) == Alike(t, key, value);
      assert Alike(s, key, value) == first + Alike(s[1..], key, value);
      assert Alike(t, key, value) == first + Alike(t[1..], key, value);
      assert (first + Alike(s[1..], key, value))[|first|..] == Alike(s[1..], key, value);
      assert (first + Alike(t[1..], key, value))[|first|..] == Alike(t[1..], key, value);
    }
  }

  lemma {:induction false} SortedByParams(s: seq<Param>, t: seq<Param>)
    requires Sorted(s) && Sorted(t) && SameParams(s, t)
    ensures s == t
  {
    hide Before, Alike;
    if |s| == 0 {
      if |t| > 0 {
        SameFirst(t, s);
      }
    } else {
      SameFirst(s, t);
      SameRest(s, t);
      SortedByParams(s[1..], t[1..]);
      assert s == [s[0]] + s[1..] && t == [t[0]] + t[1..];
    }
  }

  lemma SortForgetsNothingElse(a: seq<Param>, b: seq<Param>)
    ensures Sort(a) == Sort(b) <==> SameParams(a, b)
  {
    forall key, value
      ensures Alike(Sort(a), key, value) == Alike(a, key, value) && Alike(Sort(b), key, value) == Alike(b, key, value)
    {
      SortIsStable(a, key, value);
      SortIsStable(b, key, value);
    }
    hide Sort, Alike, Sorted;
    SortSorts(a);
    SortSorts(b);
    if SameParams(a, b) {
      SortedByParams(Sort(a), Sort(b));
    }
  }

  /** Two queries have one canonical form if and only if they have the same parameters. */
  lemma SameQueryExactly(a: string, b: string)
    ensures CanonicalQuery(a) == CanonicalQuery(b) <==> SameParams(Split(a), Split(b))
  {
    SortForgetsNothingElse(Split(a), Split(b));
    SplitGivesTokens(a);
    SplitGivesTokens(b);
    SortKeepsTokens(Split(a));
    SortKeepsTokens(Split(b));
    SplitOfJoin(Sort(Split(a)));
    SplitOfJoin(Sort(Split(b)));
    hide Split, Sort, Join, SameParams;
  }

  // ----- Addresses -----

  /** The same resource: scheme and host but for case, the same credentials, the same port where the scheme's own is
      no port, the same path where none is the root, and the same parameters. */
  ghost predicate SameResource(u: Url, v: Url) {
    && SameIgnoringCase(u.scheme, v.scheme) && SameIgnoringCase(u.host, v.host) && u.userinfo == v.userinfo
    && (if Portless(u.scheme, u.port) then Portless(v.scheme, v.port) else !Portless(v.scheme, v.port) && u.port == v.port)
    && (u.path == v.path || (u.path in {"", "/"} && v.path in {"", "/"}))
    && SameParams(Split(u.query), Split(v.query))
  }

  lemma SamePort(u: Url, v: Url)
    ensures Canonicalised(u).port == Canonicalised(v).port
      <==> if Portless(u.scheme, u.port) then Portless(v.scheme, v.port) else !Portless(v.scheme, v.port) && u.port == v.port
  {
    PortOfCanonical(u);
    PortOfCanonical(v);
    assert Portless(u.scheme, "") && Portless(v.scheme, "");
    hide Canonicalised, SameIgnoringCase;
  }

  lemma SamePath(u: Url, v: Url)
    ensures Canonicalised(u).path == Canonicalised(v).path <==> u.path == v.path || (u.path in {"", "/"} && v.path in {"", "/"})
  {
    hide CanonicalQuery, AsciiLower, IsDefaultPort;
  }

  lemma SamePartsExactly(u: Url, v: Url)
    ensures Canonicalised(u) == Canonicalised(v) <==> SameResource(u, v)
  {
    LowerMeans(u.scheme, v.scheme);
    LowerMeans(u.host, v.host);
    SamePort(u, v);
    SamePath(u, v);
    SameQueryExactly(u.query, v.query);
    var c, d := Canonicalised(u), Canonicalised(v);
    assert c.scheme == AsciiLower(u.scheme) && c.userinfo == u.userinfo && c.host == AsciiLower(u.host) && c.query == CanonicalQuery(u.query);
    assert d.scheme == AsciiLower(v.scheme) && d.userinfo == v.userinfo && d.host == AsciiLower(v.host) && d.query == CanonicalQuery(v.query);
    hide Canonicalised, AsciiLower, CanonicalQuery, SameIgnoringCase, Portless, SameParams;
  }

  /** Both come apart and name the same resource, or neither does and they agree up to the first number sign. */
  ghost predicate SameKey(s: string, t: string) {
    if Decomposes(s) then Decomposes(t) && SameResource(Decompose(s), Decompose(t))
    else !Decomposes(t) && s[..Until(s, '#')] == t[..Until(t, '#')]
  }

  /** On all inputs: two addresses have one canonical form if and only if, trimmed, they come apart into the
      same resource, or neither comes apart and they agree up to the first number sign. */
  lemma SameKeyExactly(a: string, b: string)
    ensures var s, t := Trim(a), Trim(b);
      Canonical(a) == Canonical(b) <==> SameKey(s, t)
  {
    var s, t := Trim(a), Trim(b);
    KeyReadsBack(a);
    KeyReadsBack(b);
    if Decomposes(s) && Decomposes(t) {
      SamePartsExactly(Decompose(s), Decompose(t));
    }
    hide Trim, Decomposes, Decompose, Canonicalised, SameResource, Until, Print;
  }

  /** Whether a key comes apart, and into what. */
  lemma KeyReadsBack(url: string)
    ensures var s := Trim(url);
      && (Decomposes(Canonical(url)) <==> Decomposes(s))
      && (if Decomposes(s) then Canonical(url) == Print(Canonicalised(Decompose(s))) && Decompose(Canonical(url)) == Canonicalised(Decompose(s))
          else Canonical(url) == CutFragment(s))
  {
    var s := Trim(url);
    assert Canonical(url) == if Decomposes(s) then Print(Canonicalised(Decompose(s))) else CutFragment(s);
    if Decomposes(s) {
      CanonicalisedIsWellFormed(s);
      DecomposeOfPrint(Canonicalised(Decompose(s)));
    } else {
      CutKeepsScheme(s);
    }
    hide Trim, Decomposes, Decompose, Canonicalised, CutFragment, Print, WellFormed;
  }

  /** What stands in the key of an address that comes apart. */
  lemma KeyParts(url: string)
    requires Decomposes(Trim(url))
    ensures var u, k := Decompose(Trim(url)), Decompose(Canonical(url));
      && SameIgnoringCase(k.scheme, u.scheme) && NoUpper(k.scheme)
      && SameIgnoringCase(k.host, u.host) && NoUpper(k.host)
      && k.userinfo == u.userinfo
      && k.port == (if Portless(u.scheme, u.port) then "" else u.port)
      && k.path == (if u.path == "" then "/" else u.path)
      && Split(k.query) == Sort(Split(u.query))
  {
    var u := Decompose(Trim(url));
    KeyReadsBack(url);
    PortOfCanonical(u);
    LowerMeans(u.scheme, u.scheme);
    LowerMeans(u.host, u.host);
    SplitGivesTokens(u.query);
    SortKeepsTokens(Split(u.query));
    SplitOfJoin(Sort(Split(u.query)));
    assert u.path == "" <==> |u.path| == 0;
    var c := Canonicalised(u);
    assert c.scheme == AsciiLower(u.scheme) && c.userinfo == u.userinfo && c.host == AsciiLower(u.host) && c.query == Join(Sort(Split(u.query)));
    assert c.path == if |u.path| == 0 then "/" else u.path;
    hide Trim, Decomposes, Decompose, Canonicalised, Canonical, AsciiLower, Split, Sort, Join, Portless, SameIgnoringCase, NoUpper;
  }

  /** An address as it is written, with nothing to trim. */
  predicate Written(u: Url) {
    WellFormed(u) && !IsSpace(u.scheme[0]) && !EndsInSpace(Print(u))
  }

  lemma WrittenComesApart(u: Url)
    requires Written(u)
    ensures Trim(Print(u)) == Print(u) && Decomposes(Print(u)) && Decompose(Print(u)) == u
  {
    DecomposeOfPrint(u);
    assert Print(u)[0] == u.scheme[0];
    hide Print, WellFormed, Decomposes, Decompose, Trim;
    TrimOf(Print(u));
  }

  lemma WrittenSameExactly(u: Url, v: Url)
    requires Written(u) && Written(v)
    ensures Canonical(Print(u)) == Canonical(Print(v)) <==> SameResource(u, v)
  {
    hide *;
    WrittenComesApart(u);
    WrittenComesApart(v);
    SameKeyExactly(Print(u), Print(v));
    SameKeyApart(Print(u), Print(v));
  }

  lemma SameKeyApart(s: string, t: string)
    requires Decomposes(s) && Decomposes(t)
    ensures SameKey(s, t) <==> SameResource(Decompose(s), Decompose(t))
  {
    hide Decomposes, Decompose, SameResource;
  }

  /** For every host, credentials, path and query: `:80` on a plain address and `:443` on a secure one change nothing. */
  lemma OwnPortIsDropped(u: Url)
    requires Written(u) && Written(u.(port := ""))
    requires (u.scheme in {"http", "ws"} && u.port == "80") || (u.scheme in {"https", "wss"} && u.port == "443")
    ensures Canonical(Print(u)) == Canonical(Print(u.(port := "")))
  {
    hide *;
    SameButForPort(u);
    WrittenSameExactly(u, u.(port := ""));
  }

  lemma SameButForPort(u: Url)
    requires (u.scheme in {"http", "ws"} && u.port == "80") || (u.scheme in {"https", "wss"} && u.port == "443")
    ensures SameResource(u, u.(port := ""))
  {
    hide Split, Alike;
  }

  /** And crossed over they stand: the key of a plain address with `:443` names that port, and so does that of a
      secure one with `:80`. */
  lemma OtherPortStands(u: Url)
    requires Written(u)
    requires (u.scheme in {"http", "ws"} && u.port == "443") || (u.scheme in {"https", "wss"} && u.port == "80")
    ensures Decompose(Canonical(Print(u))).port == u.port
  {
    assert !Portless(u.scheme, u.port) by {
      assert |"http"| == 4 && |"ws"| == 2 && |"https"| == 5 && |"wss"| == 3;
    }
    hide *;
    WrittenComesApart(u);
    KeyParts(Print(u));
  }

  /** Addresses that differ only in the case of scheme or host share a key. */
  lemma CaseDoesNotMatter(u: Url, scheme: string, host: string)
    requires Written(u) && Written(u.(scheme := scheme, host := host))
    requires SameIgnoringCase(u.scheme, scheme) && SameIgnoringCase(u.host, host)
    ensures Canonical(Print(u)) == Canonical(Print(u.(scheme := scheme, host := host)))
  {
    var v := u.(scheme := scheme, host := host);
    hide *;
    SameButForCase(u, v);
    WrittenSameExactly(u, v);
  }

  lemma SameButForCase(u: Url, v: Url)
    requires v == u.(scheme := v.scheme, host := v.host) && SameIgnoringCase(u.scheme, v.scheme) && SameIgnoringCase(u.host, v.host)
    ensures SameResource(u, v)
  {
    hide Split, Alike;
    CaseLeavesPort(u.scheme, v.scheme, u.port);
    hide Portless, SameIgnoringCase;
  }

  lemma CaseLeavesPort(a: string, b: string, port: string)
    requires SameIgnoringCase(a, b)
    ensures Portless(a, port) <==> Portless(b, port)
  {
    LowerMeans(a, b);
    LowerMeans(a, "http");
    LowerMeans(a, "ws");
    LowerMeans(a, "https");
    LowerMeans(a, "wss");
    LowerMeans(b, "http");
    LowerMeans(b, "ws");
    LowerMeans(b, "https");
    LowerMeans(b, "wss");
    hide AsciiLower, SameIgnoringCase;
  }

  // ----- Fragments -----

  lemma SchemeBefore(s: string, rest: string)
    requires FindScheme(s) < |s|
    ensures FindScheme(s + rest) == FindScheme(s)
  {
    SchemeFound(s);
    SchemeKeeps(s);
    var k := FindScheme(s);
    SchemeStands(s[..k], s[k + 3..] + rest);
    assert s + rest == s[..k] + ("://" + (s[k + 3..] + rest));
  }

  lemma {:induction false} AuthorityBefore(s: string, f: string)
    ensures AuthorityLength(s + ("#" + f)) == AuthorityLength(s)
  {
    if |s| == 0 {
      assert s + ("#" + f) == "#" + f;
    } else if !Stops(s[0]) {
      assert (s + ("#" + f))[1..] == s[1..] + ("#" + f);
      AuthorityBefore(s[1..], f);
    }
  }

  lemma CutBefore(s: string, f: string)
    requires Lacks(s, '#')
    ensures CutFragment(s + ("#" + f)) == s && CutFragment(s) == s
  {
    UntilStops(s, "#" + f, '#');
    UntilStops(s, "", '#');
    assert s + "" == s && (s + ("#" + f))[..|s|] == s && s[..|s|] == s;
  }

  lemma TargetBefore(rest: string, f: string)
    requires Lacks(rest, '#')
    ensures AuthorityOf(rest + ("#" + f)) == AuthorityOf(rest) && TargetOf(rest + ("#" + f)) == TargetOf(rest)
  {
    AuthorityBefore(rest, f);
    var n := AuthorityLength(rest);
    assert (rest + ("#" + f))[..n] == rest[..n] && (rest + ("#" + f))[n..] == rest[n..] + ("#" + f);
    CutBefore(rest[n..], f);
    hide CutFragment, AuthorityLength;
  }

  lemma PartsBefore(s: string, f: string)
    requires Decomposes(s) && Lacks(s, '#')
    ensures Decomposes(s + ("#" + f)) && Decompose(s + ("#" + f)) == Decompose(s)
  {
    SchemeBefore(s, "#" + f);
    SchemeFound(s);
    var k := FindScheme(s);
    var rest := AfterScheme(s);
    assert (s + ("#" + f))[..k] == s[..k] && AfterScheme(s + ("#" + f)) == rest + ("#" + f);
    TargetBefore(rest, f);
    hide FindScheme, AuthorityOf, TargetOf, SplitHost, BeforeAt, AfterAt, PathOf, QueryOf;
  }

  /** A fragment changes nothing, unless a scheme is only found in it. */
  lemma FragmentDoesNotMatter(s: string, f: string)
    requires Lacks(s, '#') && |s| > 0 && !IsSpace(s[0]) && !EndsInSpace(s) && !EndsInSpace("#" + f)
    requires Decomposes(s) || !Decomposes(s + ("#" + f))
    ensures Canonical(s + ("#" + f)) == Canonical(s)
  {
    var t := s + ("#" + f);
    CutBefore(s, f);
    if Decomposes(s) {
      PartsBefore(s, f);
    }
    assert t[0] == s[0] && t[|t| - 1] == ("#" + f)[|"#" + f| - 1];
    hide Decomposes, Decompose, Canonicalised, CutFragment, Print, Trim;
    TrimOf(s);
    TrimOf(t);
  }

  // ----- White space -----

  /** Tab, line feed, vertical tab, form feed, carriage return, space. */
  predicate Blank(s: string) {
    forall i | 0 <= i < |s| :: s[i] as int == 32 || 9 <= s[i] as int <= 13
  }

  lemma {:induction false} LeftBlanks(s: string)
    ensures Blank(s[..|s| - |TrimLeft(s)|])
  {
    if |s| > 0 && IsSpace(s[0]) {
      LeftBlanks(s[1..]);
      var n := |s[1..]| - |TrimLeft(s[1..])|;
      assert s[..n + 1] == [s[0]] + s[1..][..n];
    }
  }

  lemma {:induction false} RightBlanks(s: string)
    ensures Blank(s[|TrimRight(s)|..])
    decreases |s|
  {
    if |s| > 0 && IsSpace(s[|s| - 1]) {
      var before := s[..|s| - 1];
      RightBlanks(before);
      assert s[|TrimRight(before)|..] == before[|TrimRight(before)|..] + [s[|s| - 1]];
    }
  }

  lemma BlankOf(c: char)
    ensures Blank([c]) <==> IsSpace(c)
  {
    if Blank([c]) {
      assert [c][0] == c;
    }
    assert '\t' as int == 9 && '\n' as int == 10 && '\r' as int == 13 && ' ' as int == 32;
    if c as int == 9 {
      assert c == '\t';
    } else if c as int == 10 {
      assert c == '\n';
    } else if c as int == 13 {
      assert c == '\r';
    } else if c as int == 32 {
      assert c == ' ';
    }
  }

  lemma TrimIs(s: string)
    ensures var l, t := TrimLeft(s), Trim(s);
      && t == TrimRight(l) && |l| <= |s| && l == s[|s| - |l|..] && |t| <= |l| && t == l[..|t|]
      && (|t| > 0 ==> !IsSpace(t[|t| - 1]))
  {
  }

  lemma CutInThree(s: string, l: string, t: string)
    requires |l| <= |s| && l == s[|s| - |l|..] && |t| <= |l| && t == l[..|t|]
    ensures s == s[..|s| - |l|] + t + l[|t|..]
  {
  }

  /** Trimming takes the blanks off both ends and nothing else. */
  lemma TrimTakesBlanks(s: string) returns (left: string, right: string)
    ensures s == left + Trim(s) + right && Blank(left) && Blank(right)
    ensures var t := Trim(s); |t| > 0 ==> !Blank([t[0]]) && !Blank([t[|t| - 1]])
  {
    hide TrimLeft, TrimRight, IsSpace, Blank, Trim;
    var l, t := TrimLeft(s), Trim(s);
    TrimIs(s);
    TrimmedStart(s);
    LeftBlanks(s);
    RightBlanks(l);
    left, right := s[..|s| - |l|], l[|t|..];
    CutInThree(s, l, t);
    if |t| > 0 {
      BlankOf(t[0]);
      BlankOf(t[|t| - 1]);
    }
  }
}
