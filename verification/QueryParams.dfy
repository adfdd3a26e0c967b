/** Query strings as lists of parameters: split, sorted stably by key and value, joined again. */
module QueryParams {
  import opened Seqs

  /** `?a` and `?a=` are different. */
  datatype Param = Param(key: string, value: string, hasEquals: bool)

  // ----- Order -----

  function StrLess(a: string, b: string): bool {
    if |b| == 0 then false
    else if |a| == 0 then true
    else if a[0] != b[0] then a[0] < b[0]
    else StrLess(a[1..], b[1..])
  }

  predicate Before(a: Param, b: Param) {
    if a.key != b.key then StrLess(a.key, b.key) else StrLess(a.value, b.value)
  }

  lemma {:induction false} StrLessTotal(a: string, b: string)
    ensures !(StrLess(a, b) && StrLess(b, a))
    ensures !StrLess(a, b) && !StrLess(b, a) <==> a == b
  {
    if |a| > 0 && |b| > 0 {
      StrLessTotal(a[1..], b[1..]);
      assert a == [a[0]] + a[1..] && b == [b[0]] + b[1..];
    }
  }

  lemma {:induction false} StrLessTrans(a: string, b: string, c: string)
    requires StrLess(a, b) && StrLess(b, c)
    ensures StrLess(a, c)
  {
    if |a| > 0 && |b| > 0 && |c| > 0 && a[0] == b[0] == c[0] {
      StrLessTrans(a[1..], b[1..], c[1..]);
    }
  }

  lemma BeforeTotal(a: Param, b: Param)
    ensures !(Before(a, b) && Before(b, a))
    ensures !Before(a, b) && !Before(b, a) <==> a.key == b.key && a.value == b.value
  {
    StrLessTotal(a.key, b.key);
    StrLessTotal(a.value, b.value);
  }

  /** "Not after" is transitive. */
  lemma NotAfterTrans(a: Param, b: Param, c: Param)
    requires !Before(b, a) && !Before(c, b)
    ensures !Before(c, a)
  {
    BeforeTotal(a, b);
    BeforeTotal(b, c);
    StrLessTotal(a.key, b.key);
    StrLessTotal(b.key, c.key);
    StrLessTotal(a.key, c.key);
    StrLessTotal(a.value, b.value);
    StrLessTotal(b.value, c.value);
    StrLessTotal(a.value, c.value);
    if StrLess(a.key, b.key) && StrLess(b.key, c.key) {
      StrLessTrans(a.key, b.key, c.key);
    }
    if StrLess(a.value, b.value) && StrLess(b.value, c.value) {
      StrLessTrans(a.value, b.value, c.value);
    }
  }

  /** At the first difference the smaller character decides, and a prefix comes first. */
  predicate DiffersAt(a: string, b: string, k: nat) {
    && k <= |a| && k < |b| && a[..k] == b[..k] && (k < |a| ==> a[k] < b[k])
  }

  lemma {:induction false} StrLessMeans(a: string, b: string)
    ensures StrLess(a, b) <==> exists k :: DiffersAt(a, b, k)
  {
    if |a| == 0 || |b| == 0 || a[0] != b[0] {
      assert |b| > 0 && (|a| == 0 || a[0] < b[0]) ==> DiffersAt(a, b, 0);
      assert forall k: nat | 0 < k <= |a| && k <= |b| :: a[..k][0] == a[0] && b[..k][0] == b[0];
    } else {
      StrLessMeans(a[1..], b[1..]);
      if k: nat :| DiffersAt(a[1..], b[1..], k) {
        assert a[..k + 1] == [a[0]] + a[1..][..k] && b[..k + 1] == [b[0]] + b[1..][..k];
        assert DiffersAt(a, b, k + 1);
      }
      if k: nat :| DiffersAt(a, b, k) {
        assert k > 0;
        assert a[1..][..k - 1] == a[..k][1..] && b[1..][..k - 1] == b[..k][1..];
        assert DiffersAt(a[1..], b[1..], k - 1);
      }
    }
  }

  // ----- Sorting -----

  /** A parameter goes before the first that it may precede, so equal ones keep their order. */
  function Insert(p: Param, s: seq<Param>): seq<Param> {
    if |s| > 0 && Before(s[0], p) then [s[0]] + Insert(p, s[1..]) else [p] + s
  }

  function Sort(params: seq<Param>): seq<Param> {
    if |params| == 0 then [] else Insert(params[0], Sort(params[1..]))
  }

  predicate Sorted(s: seq<Param>) {
    forall i, j | 0 <= i < j < |s| :: !Before(s[j], s[i])
  }

  lemma {:induction false} InsertAdds(p: Param, s: seq<Param>)
    ensures multiset(Insert(p, s)) == multiset(s) + multiset{p}
  {
    hide Before;
    if |s| > 0 && Before(s[0], p) {
      InsertAdds(p, s[1..]);
      assert s == [s[0]] + s[1..];
    }
  }

  lemma InFront(p: Param, s: seq<Param>)
    requires Sorted(s) && (|s| > 0 ==> !Before(s[0], p))
    ensures Sorted([p] + s)
  {
    forall j | 0 <= j < |s|
      ensures !Before(s[j], p)
    {
      if j > 0 {
        NotAfterTrans(p, s[0], s[j]);
      }
    }
  }

  lemma InTail(first: Param, p: Param, s: seq<Param>, x: Param)
    requires Sorted([first] + s) && Before(first, p) && x in multiset(s) + multiset{p}
    ensures !Before(x, first)
  {
    if x == p {
      BeforeTotal(first, p);
    } else {
      assert x in s;
      var j :| 0 <= j < |s| && s[j] == x;
      assert ([first] + s)[0] == first && ([first] + s)[j + 1] == x;
    }
  }

  lemma Prepended(first: Param, t: seq<Param>)
    requires Sorted(t) && forall j | 0 <= j < |t| :: !Before(t[j], first)
    ensures Sorted([first] + t)
  {
    hide Before;
  }

  lemma {:induction false} InsertSorts(p: Param, s: seq<Param>)
    requires Sorted(s)
    ensures Sorted(Insert(p, s))
  {
    if |s| > 0 && Before(s[0], p) {
      InsertSorts(p, s[1..]);
      var t := Insert(p, s[1..]);
      assert Insert(p, s) == [s[0]] + t && s == [s[0]] + s[1..];
      InsertAdds(p, s[1..]);
      hide Before, Sorted, Insert;
      forall j | 0 <= j < |t|
        ensures !Before(t[j], s[0])
      {
        assert t[j] in multiset(t);
        InTail(s[0], p, s[1..], t[j]);
      }
      Prepended(s[0], t);
    } else {
      InFront(p, s);
    }
  }

  lemma {:induction false} SortSorts(params: seq<Param>)
    ensures Sorted(Sort(params)) && multiset(Sort(params)) == multiset(params)
  {
    if |params| > 0 {
      SortSorts(params[1..]);
      InsertSorts(params[0], Sort(params[1..]));
      InsertAdds(params[0], Sort(params[1..]));
      assert params == [params[0]] + params[1..];
    }
  }

  lemma {:induction false} SortOfSorted(params: seq<Param>)
    requires Sorted(params)
    ensures Sort(params) == params
  {
    if |params| > 0 {
      SortOfSorted(params[1..]);
    }
  }

  /** The parameters the order cannot tell apart from (key, value), in their order. */
  function Alike(params: seq<Param>, key: string, value: string): seq<Param> {
    if |params| == 0 then []
    else (if params[0].key == key && params[0].value == value then [params[0]] else []) + Alike(params[1..], key, value)
  }

  lemma {:induction false} InsertIsStable(p: Param, s: seq<Param>, key: string, value: string)
    ensures Alike(Insert(p, s), key, value) == Alike([p] + s, key, value)
  {
    assert ([p] + s)[1..] == s;
    if |s| > 0 && Before(s[0], p) {
      var rest := Insert(p, s[1..]);
      InsertIsStable(p, s[1..], key, value);
      assert ([s[0]] + rest)[1..] == rest && ([p] + s[1..])[1..] == s[1..];
      BeforeTotal(s[0], p);
      StrLessTotal(s[0].key, p.key);
      StrLessTotal(s[0].value, p.value);
    }
  }

  /** The sort is stable. */
  lemma {:induction false} SortIsStable(params: seq<Param>, key: string, value: string)
    ensures Alike(Sort(params), key, value) == Alike(params, key, value)
  {
    if |params| > 0 {
      var rest := Sort(params[1..]);
      SortIsStable(params[1..], key, value);
      InsertIsStable(params[0], rest, key, value);
      assert ([params[0]] + rest)[1..] == rest;
    }
  }

  /** No key appears both bare and with an empty value. */
  predicate Unambiguous(params: seq<Param>) {
    forall a, b | a in params && b in params && a.key == b.key && a.value == b.value :: a.hasEquals == b.hasEquals
  }

  lemma FirstIsLeast(a: seq<Param>, x: Param)
    requires Sorted(a) && x in a
    ensures !Before(x, a[0])
  {
    BeforeTotal(x, a[0]);
  }

  lemma FirstsAgree(a: seq<Param>, b: seq<Param>)
    requires Sorted(a) && Sorted(b) && multiset(a) == multiset(b) && Unambiguous(a) && |a| > 0
    ensures |b| > 0 && a[0] == b[0]
  {
    assert a[0] in multiset(b);
    assert b[0] in multiset(a);
    FirstIsLeast(a, b[0]);
    FirstIsLeast(b, a[0]);
    BeforeTotal(a[0], b[0]);
  }

  lemma Rest(a: seq<Param>)
    requires |a| > 0
    ensures multiset(a[1..]) == multiset(a) - multiset{a[0]}
    ensures forall x | x in a[1..] :: x in a
  {
    assert a == [a[0]] + a[1..];
  }

  lemma {:induction false} SortedIsUnique(a: seq<Param>, b: seq<Param>)
    requires Sorted(a) && Sorted(b) && multiset(a) == multiset(b) && Unambiguous(a)
    ensures a == b
  {
    hide Before;
    if |a| == 0 {
      assert |multiset(b)| == 0;
    } else {
      FirstsAgree(a, b);
      Rest(a);
      Rest(b);
      SortedIsUnique(a[1..], b[1..]);
      assert a == [a[0]] + a[1..] && b == [b[0]] + b[1..];
    }
  }

  /** Sorting forgets the order the parameters came in, as long as none is ambiguous. */
  lemma PermutedSortsSame(params: seq<Param>, permuted: seq<Param>)
    requires multiset(params) == multiset(permuted) && Unambiguous(params)
    ensures Sort(params) == Sort(permuted)
  {
    SortSorts(params);
    SortSorts(permuted);
    forall x | x in Sort(params)
      ensures x in params
    {
      assert x in multiset(Sort(params));
    }
    SortedIsUnique(Sort(params), Sort(permuted));
  }

  // ----- Splitting and joining -----

  /** How far `c` is, or the length. */
  function Until(s: string, c: char): (n: nat)
    ensures n <= |s|
  {
    if |s| == 0 || s[0] == c then 0 else 1 + Until(s[1..], c)
  }

  lemma {:induction false} UntilMeans(s: string, c: char)
    ensures forall i | 0 <= i < Until(s, c) :: s[i] != c
    ensures Until(s, c) < |s| ==> s[Until(s, c)] == c
  {
    if |s| > 0 && s[0] != c {
      UntilMeans(s[1..], c);
      assert forall i | 0 < i < Until(s, c) :: s[i] == s[1..][i - 1];
    }
  }

  lemma {:induction false} UntilStops(a: string, b: string, c: char)
    requires forall i | 0 <= i < |a| :: a[i] != c
    requires |b| == 0 || b[0] == c
    ensures Until(a + b, c) == |a|
  {
    if |a| == 0 {
      assert a + b == b;
    } else {
      assert (a + b)[1..] == a[1..] + b;
      UntilStops(a[1..], b, c);
    }
  }

  function ParseParam(token: string): Param {
    var eq := Until(token, '=');
    if eq == |token| then Param(token, "", false) else Param(token[..eq], token[eq + 1..], true)
  }

  function Rendered(p: Param): string {
    if p.hasEquals then p.key + (['='] + p.value) else p.key
  }

  /** Tokens between ampersands; empty ones are dropped. */
  function Split(query: string): seq<Param>
    decreases |query|
  {
    var amp := Until(query, '&');
    var first := if amp > 0 then [ParseParam(query[..amp])] else [];
    if amp == |query| then first else first + Split(query[amp + 1..])
  }

  function Join(params: seq<Param>): string {
    if |params| == 0 then ""
    else if |params| == 1 then Rendered(params[0])
    else Rendered(params[0]) + (['&'] + Join(params[1..]))
  }

  predicate Lacks(s: string, c: char) {
    forall i | 0 <= i < |s| :: s[i] != c
  }

  /** A parameter that is one token. */
  predicate IsToken(p: Param) {
    && Lacks(p.key, '=') && Lacks(p.key, '&') && Lacks(p.value, '&')
    && (!p.hasEquals ==> |p.key| > 0 && p.value == "")
  }

  predicate AreTokens(params: seq<Param>) {
    forall i | 0 <= i < |params| :: IsToken(params[i])
  }

  lemma RenderedParses(p: Param)
    requires IsToken(p)
    ensures ParseParam(Rendered(p)) == p && Lacks(Rendered(p), '&') && |Rendered(p)| > 0
  {
    if p.hasEquals {
      UntilStops(p.key, ['='] + p.value, '=');
      var r := Rendered(p);
      assert r[..|p.key|] == p.key && r[|p.key| + 1..] == p.value;
    } else {
      UntilStops(p.key, "", '=');
      assert p.key + "" == p.key;
    }
  }

  lemma ParsedIsToken(token: string)
    requires Lacks(token, '&') && |token| > 0
    ensures IsToken(ParseParam(token))
  {
    UntilMeans(token, '=');
  }

  lemma SplitOfOne(r: string)
    requires Lacks(r, '&') && |r| > 0
    ensures Split(r) == [ParseParam(r)]
  {
    UntilStops(r, "", '&');
    assert r + "" == r && r[..|r|] == r;
    hide ParseParam;
  }

  lemma SplitOfFirst(r: string, rest: string)
    requires Lacks(r, '&') && |r| > 0
    ensures Split(r + (['&'] + rest)) == [ParseParam(r)] + Split(rest)
  {
    UntilStops(r, ['&'] + rest, '&');
    var all := r + (['&'] + rest);
    assert all[..|r|] == r && all[|r| + 1..] == rest;
    hide ParseParam;
  }

  lemma {:induction false} SplitOfJoin(params: seq<Param>)
    requires AreTokens(params)
    ensures Split(Join(params)) == params
  {
    if |params| == 0 {
      assert Join(params) == "";
    } else {
      var r := Rendered(params[0]);
      RenderedParses(params[0]);
      hide Split, ParseParam, Rendered;
      if |params| == 1 {
        SplitOfOne(r);
      } else {
        SplitOfJoin(params[1..]);
        SplitOfFirst(r, Join(params[1..]));
        assert params == [params[0]] + params[1..];
      }
    }
  }

  lemma {:induction false} SplitGivesTokens(query: string)
    ensures AreTokens(Split(query))
    decreases |query|
  {
    var amp := Until(query, '&');
    UntilMeans(query, '&');
    if amp > 0 {
      ParsedIsToken(query[..amp]);
    }
    if amp < |query| {
      SplitGivesTokens(query[amp + 1..]);
    }
  }

  // ----- A query in canonical form -----

  function CanonicalQuery(query: string): string {
    Join(Sort(Split(query)))
  }

  lemma SortKeepsTokens(params: seq<Param>)
    requires AreTokens(params)
    ensures AreTokens(Sort(params))
  {
    SortSorts(params);
    forall i | 0 <= i < |Sort(params)|
      ensures IsToken(Sort(params)[i])
    {
      assert Sort(params)[i] in multiset(params);
    }
  }

  /** A canonical query is its own canonical form. */
  lemma CanonicalQueryIsStable(query: string)
    ensures CanonicalQuery(CanonicalQuery(query)) == CanonicalQuery(query)
    ensures Split(CanonicalQuery(query)) == Sort(Split(query))
  {
    SplitGivesTokens(query);
    SortKeepsTokens(Split(query));
    SplitOfJoin(Sort(Split(query)));
    SortSorts(Split(query));
    SortOfSorted(Sort(Split(query)));
  }

  /** Parameters may come in any order, as long as no key comes both as `k` and as `k=`. */
  lemma OrderDoesNotMatter(query: string, permuted: string)
    requires multiset(Split(query)) == multiset(Split(permuted)) && Unambiguous(Split(query))
    ensures CanonicalQuery(query) == CanonicalQuery(permuted)
  {
    PermutedSortsSame(Split(query), Split(permuted));
  }

  lemma Without(params: seq<Param>, x: Param) returns (rest: seq<Param>)
    requires x in params
    ensures multiset([x] + rest) == multiset(params)
  {
    var i :| 0 <= i < |params| && params[i] == x;
    rest := params[..i] + params[i + 1..];
    assert params == params[..i] + ([x] + params[i + 1..]);
  }

  lemma Fronted(params: seq<Param>, a: Param, b: Param) returns (rest: seq<Param>)
    requires a in params && b in params && a != b
    ensures multiset([a, b] + rest) == multiset(params) && multiset([b, a] + rest) == multiset(params)
  {
    var others := Without(params, a);
    assert b in multiset([a] + others);
    rest := Without(others, b);
    assert [a, b] + rest == [a] + ([b] + rest) && [b, a] + rest == [b] + ([a] + rest);
  }

  lemma TokensPermuted(params: seq<Param>, permuted: seq<Param>)
    requires AreTokens(params) && multiset(permuted) == multiset(params)
    ensures AreTokens(permuted)
  {
    forall i | 0 <= i < |permuted|
      ensures IsToken(permuted[i])
    {
      assert permuted[i] in multiset(params);
    }
  }

  lemma SortedApart(a: Param, b: Param, rest: seq<Param>)
    requires a.key == b.key && a.value == b.value && a != b
    ensures Sort([a, b] + rest) != Sort([b, a] + rest)
  {
    SortIsStable([a, b] + rest, a.key, a.value);
    SortIsStable([b, a] + rest, a.key, a.value);
    hide Sort, Before;
    assert Alike([a, b] + rest, a.key, a.value)[0] == a;
    assert Alike([b, a] + rest, a.key, a.value)[0] == b;
  }

  lemma JoinedApart(x: seq<Param>, y: seq<Param>)
    requires AreTokens(x) && AreTokens(y) && Sort(x) != Sort(y)
    ensures CanonicalQuery(Join(x)) != CanonicalQuery(Join(y))
  {
    SplitOfJoin(x);
    SplitOfJoin(y);
    SortKeepsTokens(x);
    SortKeepsTokens(y);
    SplitOfJoin(Sort(x));
    SplitOfJoin(Sort(y));
    hide Sort, Join, Split, AreTokens;
  }

  /** Every query with the same parameters, in whatever order, has the same canonical form. */
  ghost predicate OrderFree(query: string) {
    forall permuted: string :: multiset(Split(permuted)) == multiset(Split(query)) ==> CanonicalQuery(permuted) == CanonicalQuery(query)
  }

  /** The order of the parameters does not matter if and only if no key comes both as `k` and as `k=`. */
  lemma OrderDoesNotMatterExactly(query: string)
    ensures OrderFree(query) <==> Unambiguous(Split(query))
  {
    hide CanonicalQuery, Split;
    var params := Split(query);
    if Unambiguous(params) {
      forall permuted: string | multiset(Split(permuted)) == multiset(Split(query))
        ensures CanonicalQuery(permuted) == CanonicalQuery(query)
      {
        OrderDoesNotMatter(query, permuted);
      }
    } else {
      var a, b :| a in params && b in params && a.key == b.key && a.value == b.value && a.hasEquals != b.hasEquals;
      var rest := Fronted(params, a, b);
      SplitGivesTokens(query);
      TokensPermuted(params, [a, b] + rest);
      TokensPermuted(params, [b, a] + rest);
      SortedApart(a, b, rest);
      JoinedApart([a, b] + rest, [b, a] + rest);
      SplitOfJoin([a, b] + rest);
      SplitOfJoin([b, a] + rest);
      hide AreTokens, Join, Sort;
    }
  }

  /** For example, for every key: `k&k=` and `k=&k` stay different. */
  lemma OrderMattersForAmbiguous(key: string)
    requires |key| > 0 && Lacks(key, '=') && Lacks(key, '&')
    ensures var bare, empty := Param(key, "", false), Param(key, "", true);
      && Sort([bare, empty]) == [bare, empty] && Sort([empty, bare]) == [empty, bare]
      && CanonicalQuery(Join([bare, empty])) != CanonicalQuery(Join([empty, bare]))
  {
    var bare, empty := Param(key, "", false), Param(key, "", true);
    BeforeTotal(bare, empty);
    BeforeTotal(empty, empty);
    BeforeTotal(bare, bare);
    SortOfSorted([bare, empty]);
    SortOfSorted([empty, bare]);
    SplitOfJoin([bare, empty]);
    SplitOfJoin([empty, bare]);
    assert [bare, empty] != [empty, bare] by {
      assert bare != empty;
    }
  }

  // ----- Lengths -----

  function TotalLength(params: seq<Param>): nat {
    if |params| == 0 then 0 else |Rendered(params[0])| + TotalLength(params[1..])
  }

  lemma {:induction false} JoinLength(params: seq<Param>)
    ensures |Join(params)| == TotalLength(params) + (if |params| > 0 then |params| - 1 else 0)
  {
    if |params| > 0 {
      JoinLength(params[1..]);
      hide Rendered;
    }
  }

  lemma {:induction false} InsertLength(p: Param, s: seq<Param>)
    ensures TotalLength(Insert(p, s)) == |Rendered(p)| + TotalLength(s) && |Insert(p, s)| == |s| + 1
  {
    hide Rendered, Before;
    if |s| > 0 && Before(s[0], p) {
      InsertLength(p, s[1..]);
      assert ([s[0]] + Insert(p, s[1..]))[1..] == Insert(p, s[1..]);
    } else {
      assert ([p] + s)[1..] == s;
    }
  }

  lemma {:induction false} SortLength(params: seq<Param>)
    ensures TotalLength(Sort(params)) == TotalLength(params) && |Sort(params)| == |params|
  {
    hide Rendered;
    if |params| > 0 {
      SortLength(params[1..]);
      InsertLength(params[0], Sort(params[1..]));
    }
  }

  lemma ParsedLength(token: string)
    ensures |Rendered(ParseParam(token))| == |token|
  {
  }

  lemma {:induction false} SplitLength(query: string)
    ensures TotalLength(Split(query)) + (if |Split(query)| > 0 then |Split(query)| - 1 else 0) <= |query|
    decreases |query|
  {
    hide Rendered, ParseParam;
    var amp := Until(query, '&');
    var first := query[..amp];
    ParsedLength(first);
    if amp < |query| {
      SplitLength(query[amp + 1..]);
      if amp > 0 {
        assert Split(query)[1..] == Split(query[amp + 1..]);
      } else {
        NilLeft(Split(query[amp + 1..]));
      }
    }
  }

  /** Canonical queries are never longer. */
  lemma CanonicalQueryLength(query: string)
    ensures |CanonicalQuery(query)| <= |query|
  {
    SplitLength(query);
    SortLength(Split(query));
    JoinLength(Sort(Split(query)));
  }

  // ----- The loops -----

  lemma SplitNext(query: string, start: nat, amp: nat)
    requires start <= amp <= |query| && amp - start == Until(query[start..], '&')
    ensures var first := if amp > start then [ParseParam(query[start..amp])] else [];
      Split(query[start..]) == if amp == |query| then first else first + Split(query[amp + 1..])
  {
    var rest := query[start..];
    assert rest[..amp - start] == query[start..amp];
    if amp < |query| {
      assert rest[amp - start + 1..] == query[amp + 1..];
    }
  }

  /** The splitting loop. */
  method SplitQuery(query: string) returns (params: seq<Param>)
    ensures params == Split(query)
  {
    hide Split, Until, ParseParam;
    params := [];
    var start := 0;
    assert query[0..] == query;
    NilLeft(Split(query));
    while true
      invariant start <= |query| && Split(query) == params + Split(query[start..])
      decreases |query| - start
    {
      var amp := FindAmp(query, start);
      SplitNext(query, start, amp);
      if amp > start {
        if amp < |query| {
          Assoc(params, [ParseParam(query[start..amp])], Split(query[amp + 1..]));
        }
        params := params + [ParseParam(query[start..amp])];
      } else if amp < |query| {
        NilLeft(Split(query[amp + 1..]));
      }
      if amp == |query| {
        NilRight(params);
        return;
      }
      start := amp + 1;
    }
  }

  /** A stable sort: the parameters from last to first, each before the first it may precede. */
  method StableSort(params: seq<Param>) returns (sorted: seq<Param>)
    ensures sorted == Sort(params)
  {
    sorted := [];
    var i := |params|;
    while i > 0
      invariant 0 <= i <= |params| && sorted == Sort(params[i..])
    {
      i := i - 1;
      assert params[i..][1..] == params[i + 1..];
      sorted := InsertBefore(params[i], sorted);
    }
    assert params[0..] == params;
  }

  method InsertBefore(p: Param, s: seq<Param>) returns (t: seq<Param>)
    ensures t == Insert(p, s)
  {
    var j := 0;
    assert s[..0] == [] && s[0..] == s;
    NilLeft(Insert(p, s));
    while j < |s| && Before(s[j], p)
      invariant j <= |s| && Insert(p, s) == s[..j] + Insert(p, s[j..])
    {
      InsertNext(p, s, j);
      j := j + 1;
    }
    t := s[..j] + ([p] + s[j..]);
  }

  lemma InsertNext(p: Param, s: seq<Param>, j: nat)
    requires j < |s| && Before(s[j], p)
    ensures s[..j] + Insert(p, s[j..]) == s[..j + 1] + Insert(p, s[j + 1..])
  {
    assert s[j..][1..] == s[j + 1..];
    assert s[..j + 1] == s[..j] + [s[j]];
    Assoc(s[..j], [s[j]], Insert(p, s[j + 1..]));
  }

  method FindAmp(query: string, start: nat) returns (amp: nat)
    requires start <= |query|
    ensures start <= amp <= |query| && amp - start == Until(query[start..], '&')
  {
    amp := start;
    while amp < |query| && query[amp] != '&'
      invariant start <= amp <= |query|
      invariant Until(query[start..], '&') == amp - start + Until(query[amp..], '&')
    {
      assert query[amp..][1..] == query[amp + 1..];
      amp := amp + 1;
    }
  }

  /** The joining loop. */
  method JoinParams(params: seq<Param>) returns (query: string)
    ensures query == Join(params)
  {
    query := "";
    var i := 0;
    assert params[..0] == [] && Join([]) == "";
    hide Join, Rendered;
    while i < |params|
      invariant i <= |params| && query == Join(params[..i])
    {
      if i != 0 {
        query := query + ['&'];
      }
      Appended(query, params[i]);
      NilLeft(Rendered(params[i]));
      query := query + params[i].key;
      if params[i].hasEquals {
        query := query + ['='];
        query := query + params[i].value;
      }
      JoinSnoc(params[..i], params[i]);
      assert params[..i + 1] == params[..i] + [params[i]];
      i := i + 1;
    }
    assert params[..|params|] == params;
  }

  lemma Appended(query: string, p: Param)
    ensures query + Rendered(p) == if p.hasEquals then query + p.key + ['='] + p.value else query + p.key
  {
    if p.hasEquals {
      Assoc(query, p.key, ['=']);
      Assoc(query, p.key, ['='] + p.value);
      Assoc(query + p.key, ['='], p.value);
    }
  }

  lemma {:induction false} JoinSnoc(params: seq<Param>, p: Param)
    ensures Join(params + [p]) == if |params| == 0 then Rendered(p) else Join(params) + ['&'] + Rendered(p)
  {
    if |params| > 0 {
      assert (params + [p])[1..] == params[1..] + [p];
      JoinSnoc(params[1..], p);
      if |params| == 1 {
        assert params[1..] == [];
      } else {
        Assoc(['&'], Join(params[1..]), ['&'] + Rendered(p));
        Assoc(Join(params[1..]), ['&'], Rendered(p));
      }
      hide Rendered;
    }
  }
}
