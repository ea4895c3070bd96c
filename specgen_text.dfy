/**
 * The string handling of lv2specgen: short names and anchors of term URIs,
 * the "prefix:local" rendering of a URI, the namespace normalisation done
 * before anything else, the de-duplicating list append the generator uses
 * for every list it builds, and Python's sort of a list of strings.
 */
module SpecgenText {
  import opened Wrappers
  import opened Prefixes
  import opened Strings

  predicate StartsWith(s: string, p: string)
  {
    |p| <= |s| && s[..|p|] == p
  }

  predicate NoDup(s: seq<string>)
  {
    forall i, j :: 0 <= i < j < |s| ==> s[i] != s[j]
  }

  /** s.split(c)[-1]: the text after the last c, or all of s when there is none. */
  function AfterLast(s: string, c: char): (r: string)
    ensures |r| <= |s| && r == s[|s| - |r|..]
    ensures c !in r
    ensures c in s ==> |r| < |s| && s[|s| - |r| - 1] == c
    ensures c !in s ==> r == s
  {
    if s == [] then []
    else if s[|s| - 1] == c then []
    else
      var r := AfterLast(s[..|s| - 1], c);
      assert s == s[..|s| - 1] + [s[|s| - 1]];
      r + [s[|s| - 1]]
  }

  /** getShortName: the text after the last '#' when there is one, else the text after the last '/'. */
  function ShortName(uri: string): (r: string)
    ensures |r| <= |uri| && r == uri[|uri| - |r|..] && '#' !in r
    ensures '#' in uri ==> |r| < |uri| && uri[|uri| - |r| - 1] == '#'
    ensures '#' !in uri && '/' in uri ==> |r| < |uri| && uri[|uri| - |r| - 1] == '/' && '/' !in r
    ensures '#' !in uri && '/' !in uri ==> r == uri
  {
    if '#' in uri then AfterLast(uri, '#') else AfterLast(uri, '/')
  }

  /** str.replace(" ", ""): the string with every occurrence of c deleted. */
  function DeleteChar(s: string, c: char): (r: string)
    ensures c !in r && |r| <= |s|
    ensures c !in s ==> r == s
  {
    if s == [] then [] else (if s[0] == c then [] else [s[0]]) + DeleteChar(s[1..], c)
  }

  /** getAnchor: an in-namespace URI's namespace-relative part with '/' made '_'; any other URI's short name. */
  function Anchor(ns: string, uri: string): string
  {
    if StartsWith(uri, ns) then ReplaceChar(uri[|ns|..], '/', '_') else ShortName(uri)
  }

  lemma AnchorCases(ns: string, uri: string)
    ensures StartsWith(uri, ns) ==> |Anchor(ns, uri)| == |uri| - |ns| && '/' !in Anchor(ns, uri)
    ensures StartsWith(uri, ns) && '/' !in uri[|ns|..] ==> Anchor(ns, uri) == uri[|ns|..]
    ensures !StartsWith(uri, ns) ==> Anchor(ns, uri) == ShortName(uri)
  {
    if StartsWith(uri, ns) {
      var r := Anchor(ns, uri);
      if '/' !in uri[|ns|..] {
        assert r == uri[|ns|..];
      }
    }
  }

  /** The position of the last '/' or '#', the one the greedy group `.*[/#]` of niceName's pattern ends on. */
  function LastSeparator(s: string): (r: Option<nat>)
    ensures r.Some? ==> r.value < |s| && s[r.value] in "/#" && forall k :: r.value < k < |s| ==> s[k] !in "/#"
    ensures r.None? ==> forall k :: 0 <= k < |s| ==> s[k] !in "/#"
  {
    if s == [] then None
    else if s[|s| - 1] in "/#" then Some(|s| - 1)
    else LastSeparator(s[..|s| - 1])
  }

  /**
   * niceName: the pattern ^(.*[/#])([^/#]+)$ splits the URI after its last
   * '/' or '#' and needs a non-empty rest. A URI with no '/' or '#', or one
   * ending in one, does not match and the source fails on the missing
   * match (None). A registered first part gives "prefix:rest"; otherwise
   * the URI comes back as it is.
   */
  function NiceName(nsList: map<string, string>, uri: string): (r: Option<string>)
  {
    match LastSeparator(uri)
    case None => None
    case Some(k) =>
      if k == |uri| - 1 then None
      else if uri[..k + 1] in nsList then Some(nsList[uri[..k + 1]] + ":" + uri[k + 1..])
      else Some(uri)
  }

  /**
   * A URI that is a namespace ending in '/' or '#' followed by a non-empty
   * local name free of both renders as "prefix:local" when the namespace
   * is registered and as itself when not; a URI with no '/' or '#', or one
   * that ends in one, has no rendering.
   */
  lemma {:induction false} NiceNameCases(nsList: map<string, string>, ns: string, local: string)
    requires |ns| > 0 && ns[|ns| - 1] in "/#"
    requires local != [] && forall k :: 0 <= k < |local| ==> local[k] !in "/#"
    ensures ns in nsList ==> NiceName(nsList, ns + local) == Some(nsList[ns] + ":" + local)
    ensures ns !in nsList ==> NiceName(nsList, ns + local) == Some(ns + local)
    ensures NiceName(nsList, ns).None? && NiceName(nsList, local).None?
  {
    var uri := ns + local;
    var m := LastSeparator(uri);
    assert uri[|ns| - 1] == ns[|ns| - 1];
    assert m.Some? && m.value == |ns| - 1;
    assert uri[..|ns|] == ns && uri[|ns|..] == local;
    var n := LastSeparator(local);
    assert n.None?;
  }

  /** The namespace normalisation: spec_url followed by '#' unless it ends in '/' or '#'; an empty URL fails on url[-1]. */
  function NormaliseNs(url: string): (r: Option<string>)
    ensures r.Some? <==> url != []
    ensures r.Some? ==> |r.value| > 0 && r.value[|r.value| - 1] in "/#" && StartsWith(r.value, url)
    ensures r.Some? ==> |r.value| <= |url| + 1 && (url[|url| - 1] in "/#" <==> r.value == url)
  {
    if url == [] then None
    else if url[|url| - 1] == '/' || url[|url| - 1] == '#' then Some(url)
    else Some(url + "#")
  }

  /** A namespace once normalised is left as it is. */
  lemma NormaliseNsIdempotent(url: string)
    requires url != []
    ensures NormaliseNs(NormaliseNs(url).value) == NormaliseNs(url)
  {
  }

  /** pat occurs nowhere in s. */
  predicate Free(s: string, pat: string)
    requires pat != []
    decreases |s|
  {
    |s| < |pat| || (s[..|pat|] != pat && Free(s[1..], pat))
  }

  /** return_name: str.replace(ns, ""), every occurrence of ns from the left deleted. */
  function RemoveAll(s: string, pat: string): (r: string)
    requires pat != []
    ensures |r| <= |s|
    decreases |s|
  {
    if |s| < |pat| then s
    else if s[..|pat|] == pat then RemoveAll(s[|pat|..], pat)
    else [s[0]] + RemoveAll(s[1..], pat)
  }

  /** A name in which the namespace does not occur again keeps all of itself: return_name(ns + local) == local. */
  lemma {:induction false} RemoveAllOfNsTerm(ns: string, local: string)
    requires ns != [] && Free(local, ns)
    ensures RemoveAll(ns + local, ns) == local
    ensures RemoveAll(local, ns) == local
  {
    assert (ns + local)[..|ns|] == ns && (ns + local)[|ns|..] == local;
    FreeKept(local, ns);
  }

  lemma {:induction false} FreeKept(s: string, pat: string)
    requires pat != [] && Free(s, pat)
    ensures RemoveAll(s, pat) == s
    decreases |s|
  {
    if |s| >= |pat| {
      FreeKept(s[1..], pat);
      assert s == [s[0]] + s[1..];
    }
  }

  /** The text after the first c, when there is one. */
  function AfterFirst(s: string, c: char): (r: string)
    requires c in s
    ensures |r| < |s| && r == s[|s| - |r|..] && s[|s| - |r| - 1] == c
    ensures c !in s[..|s| - |r| - 1]
  {
    if s[0] == c then s[1..] else AfterFirst(s[1..], c)
  }

  /** s.split(c)[0]: the text before the first c, or all of s. */
  function BeforeFirst(s: string, c: char): (r: string)
    ensures |r| <= |s| && r == s[..|r|] && c !in r
    ensures |r| < |s| ==> s[|r|] == c
  {
    if s == [] || s[0] == c then [] else [s[0]] + BeforeFirst(s[1..], c)
  }

  /** t.split(c)[1]: the text between the first and the second c. */
  function SecondField(s: string, c: char): string
    requires c in s
  {
    BeforeFirst(AfterFirst(s, c), c)
  }

  /** The name of an in-namespace term as docTerms and buildazlist compute it: t.split(ns[-1])[1]. */
  function SplitLocal(ns: string, t: string): string
    requires ns != [] && StartsWith(t, ns)
  {
    assert t[|ns| - 1] == ns[|ns| - 1];
    SecondField(t, ns[|ns| - 1])
  }

  /** The namespace-relative part of an in-namespace term, t[len(ns):]. */
  function LocalPart(ns: string, t: string): (r: string)
    requires StartsWith(t, ns)
    ensures ns + r == t
  {
    t[|ns|..]
  }

  /**
   * With a namespace whose only '#' is its last character, splitting on
   * '#' finds the namespace-relative part of a term whose name has no '#'.
   */
  lemma {:induction false} SplitLocalOfHashNs(ns: string, t: string)
    requires ns != [] && ns[|ns| - 1] == '#' && '#' !in ns[..|ns| - 1]
    requires StartsWith(t, ns) && '#' !in t[|ns|..]
    ensures SplitLocal(ns, t) == LocalPart(ns, t)
  {
    var a := AfterFirst(t, '#');
    assert t[..|ns| - 1] == ns[..|ns| - 1];
    assert |a| == |t| - |ns|;
    BeforeFirstNoSep(a, '#');
  }

  lemma {:induction false} BeforeFirstNoSep(s: string, c: char)
    requires c !in s
    ensures BeforeFirst(s, c) == s
  {
    if s != [] {
      BeforeFirstNoSep(s[1..], c);
    }
  }

  /** The list with x appended unless already present or to be avoided. */
  function AppendNew(list: seq<string>, x: string, avoid: seq<string>): seq<string>
  {
    if x in list || x in avoid then list else list + [x]
  }

  /** Each candidate in turn appended unless already listed or to be avoided. */
  function Unique(list: seq<string>, cands: seq<string>, avoid: seq<string>): seq<string>
    decreases |cands|
  {
    if cands == [] then list
    else AppendNew(Unique(list, cands[..|cands| - 1], avoid), cands[|cands| - 1], avoid)
  }

  /**
   * Unique keeps the old entries in front, never adds a duplicate, and
   * holds exactly the old entries and the candidates not to be avoided.
   */
  lemma {:induction false} UniqueMembers(list: seq<string>, cands: seq<string>, avoid: seq<string>)
    ensures |list| <= |Unique(list, cands, avoid)| && Unique(list, cands, avoid)[..|list|] == list
    ensures NoDup(list) ==> NoDup(Unique(list, cands, avoid))
    ensures forall x :: x in Unique(list, cands, avoid) <==> x in list || (x in cands && x !in avoid)
    decreases |cands|
  {
    if cands != [] {
      var front := cands[..|cands| - 1];
      UniqueMembers(list, front, avoid);
      assert forall x :: x in cands <==> x in front || x == cands[|cands| - 1];
      var u := Unique(list, front, avoid);
      assert Unique(list, cands, avoid)[..|u|] == u;
    }
  }

  lemma UniqueSnoc(list: seq<string>, cands: seq<string>, x: string, avoid: seq<string>)
    ensures Unique(list, cands + [x], avoid) == AppendNew(Unique(list, cands, avoid), x, avoid)
  {
    assert (cands + [x])[..|cands|] == cands;
  }

  /** Unique over two runs of candidates is Unique over the first and then over the second. */
  lemma {:induction false} UniqueAppend(list: seq<string>, a: seq<string>, b: seq<string>, avoid: seq<string>)
    ensures Unique(list, a + b, avoid) == Unique(Unique(list, a, avoid), b, avoid)
    decreases |b|
  {
    if b == [] {
      assert a + b == a;
    } else {
      assert (a + b)[..|a + b| - 1] == a + b[..|b| - 1];
      UniqueAppend(list, a, b[..|b| - 1], avoid);
    }
  }

  /** Python's order on str (code point by code point): LexLess or equal. */
  predicate LexLeq(a: string, b: string)
  {
    a == b || LexLess(a, b)
  }

  predicate Sorted(s: seq<string>)
  {
    forall i, j :: 0 <= i < j < |s| ==> LexLeq(s[i], s[j])
  }

  lemma {:induction false} LexTotal(a: string, b: string)
    ensures a == b || LexLess(a, b) || LexLess(b, a)
    ensures !(LexLess(a, b) && LexLess(b, a))
    ensures !LexLess(a, a)
  {
    if a != [] && b != [] {
      LexTotal(a[1..], b[1..]);
      if a[0] == b[0] && a[1..] == b[1..] {
        assert a == [a[0]] + a[1..] && b == [b[0]] + b[1..];
      }
    } else if a != [] {
      LexTotal(a[1..], a[1..]);
    }
  }

  lemma {:induction false} LexTrans(a: string, b: string, c: string)
    requires LexLess(a, b) && LexLess(b, c)
    ensures LexLess(a, c)
  {
    if a != [] && a[0] == b[0] && b[0] == c[0] {
      LexTrans(a[1..], b[1..], c[1..]);
    }
  }

  /** A string no later than the head of a sorted list can go in front of it. */
  lemma SortedCons(x: string, s: seq<string>)
    requires Sorted(s) && (s != [] ==> LexLeq(x, s[0]))
    ensures Sorted([x] + s)
  {
    forall j | 0 < j < |s| ensures LexLeq(x, s[j]) {
      if x != s[0] && s[0] != s[j] {
        LexTrans(x, s[0], s[j]);
      }
    }
  }

  /** The sorted list with x inserted before the first element it does not come after. */
  function Insert(x: string, s: seq<string>): (r: seq<string>)
    requires Sorted(s)
    ensures Sorted(r) && multiset(r) == multiset(s) + multiset{x}
  {
    if s == [] then [x]
    else if LexLeq(x, s[0]) then
      SortedCons(x, s);
      [x] + s
    else
      var rest := Insert(x, s[1..]);
      LexTotal(x, s[0]);
      assert s == [s[0]] + s[1..];
      InsertedAfterHead(x, s, rest);
      [s[0]] + rest
  }

  /** The head of a sorted list comes before x can go in front of what the rest becomes with x. */
  lemma InsertedAfterHead(x: string, s: seq<string>, rest: seq<string>)
    requires Sorted(s) && s != [] && LexLess(s[0], x)
    requires Sorted(rest) && multiset(rest) == multiset(s[1..]) + multiset{x}
    ensures Sorted([s[0]] + rest)
  {
    if rest != [] {
      assert rest[0] in multiset(rest);
      if rest[0] != x {
        assert rest[0] in s[1..];
      }
    }
    SortedCons(s[0], rest);
  }

  /** list.sort(): the same strings, in order. */
  function Sort(s: seq<string>): (r: seq<string>)
    ensures Sorted(r) && multiset(r) == multiset(s)
  {
    if s == [] then []
    else
      assert s == [s[0]] + s[1..];
      Insert(s[0], Sort(s[1..]))
  }

  /** A sorted list is left as it is by sorting, so sorting twice is sorting once. */
  lemma {:induction false} SortSorted(s: seq<string>)
    requires Sorted(s)
    ensures Sort(s) == s
  {
    if s != [] {
      SortSorted(s[1..]);
      assert Sort(s) == Insert(s[0], s[1..]);
    }
  }
}
