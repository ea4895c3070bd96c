/**
 * Namespace-prefix expansion as redlandmm's World and Ingen's Serializer
 * do it: walk the prefix map in key order and expand with the first
 * prefix p such that the URI starts with p followed by ':'. Keys of a
 * std::map are visited in std::string order; the lemmas here show that
 * the first matching key in that order is the shortest one, so the model
 * finds it by scanning the URI's colons from the left.
 */
module Prefixes {
  import opened Wrappers

  /** The RDF namespace, which every prefix table here starts with. */
  const RDF_NS: string := "http://www.w3.org/1999/02/22-rdf-syntax-ns#"

  /** uri.substr(0, p.length() + 1) == p + ":" */
  predicate Matches(p: string, uri: string)
  {
    |p| < |uri| && uri[..|p|] == p && uri[|p|] == ':'
  }

  /** std::string's operator<: lexicographic, a proper prefix first. */
  predicate LexLess(a: string, b: string)
  {
    if a == [] then b != []
    else if b == [] then false
    else if a[0] != b[0] then a[0] < b[0]
    else LexLess(a[1..], b[1..])
  }

  /** A proper prefix comes first in std::string order. */
  lemma {:induction false} ProperPrefixIsLess(a: string, b: string)
    requires |a| < |b| && b[..|a|] == a
    ensures LexLess(a, b)
  {
    if a != [] {
      assert a[0] == b[0];
      assert b[1..][..|a| - 1] == a[1..];
      ProperPrefixIsLess(a[1..], b[1..]);
    }
  }

  /** Two prefixes that match one URI are the same, or the shorter is a proper prefix of the longer. */
  lemma MatchesNest(p: string, q: string, uri: string)
    requires Matches(p, uri) && Matches(q, uri) && |p| <= |q|
    ensures |p| == |q| ==> p == q
    ensures |p| < |q| ==> q[..|p|] == p
  {
    assert q == uri[..|q|];
    assert uri[..|q|][..|p|] == uri[..|p|];
  }

  /** The first ':' from position j on whose left part is a registered prefix. */
  function FirstMatch(prefixes: map<string, string>, uri: string, j: nat): (r: Option<nat>)
    requires j <= |uri|
    decreases |uri| - j
    ensures r.Some? ==> j <= r.value < |uri| && uri[r.value] == ':' && uri[..r.value] in prefixes
    ensures forall k :: j <= k < |uri| && uri[k] == ':' && uri[..k] in prefixes ==> r.Some? && r.value <= k
  {
    if j == |uri| then None
    else if uri[j] == ':' && uri[..j] in prefixes then Some(j)
    else FirstMatch(prefixes, uri, j + 1)
  }

  /** The expansion by the first matching prefix in key order, or nothing when no prefix matches. */
  function Expand(prefixes: map<string, string>, uri: string): (r: Option<string>)
  {
    match FirstMatch(prefixes, uri, 0)
    case None => None
    case Some(j) => Some(prefixes[uri[..j]] + uri[j + 1..])
  }

  /**
   * Expand agrees with the loop over the map in key order: it expands
   * exactly when some registered prefix matches, and then with the
   * prefix that std::string order puts before every other matching one.
   */
  lemma {:induction false} ExpandIsFirstInKeyOrder(prefixes: map<string, string>, uri: string)
    ensures Expand(prefixes, uri).None? <==> forall p :: p in prefixes ==> !Matches(p, uri)
    ensures Expand(prefixes, uri).Some? ==>
      exists p :: (p in prefixes && Matches(p, uri)
                   && Expand(prefixes, uri) == Some(prefixes[p] + uri[|p| + 1..])
                   && forall q :: q in prefixes && Matches(q, uri) && q != p ==> LexLess(p, q))
  {
    var m := FirstMatch(prefixes, uri, 0);
    forall p | p in prefixes && Matches(p, uri)
      ensures m.Some? && m.value <= |p|
    {
      assert uri[..|p|] in prefixes;
    }
    if m.Some? {
      var p := uri[..m.value];
      assert Matches(p, uri);
      forall q | q in prefixes && Matches(q, uri) && q != p
        ensures LexLess(p, q)
      {
        MatchesNest(p, q, uri);
        ProperPrefixIsLess(p, q);
      }
    }
  }

  /** A registered prefix without ':' in it expands "prefix:rest" to its namespace followed by rest. */
  lemma ExpandRegistered(prefixes: map<string, string>, p: string, rest: string)
    requires p in prefixes && ':' !in p
    ensures Expand(prefixes, p + ":" + rest) == Some(prefixes[p] + rest)
  {
    var uri := p + ":" + rest;
    assert uri[..|p|] == p && uri[|p|] == ':';
    var m := FirstMatch(prefixes, uri, 0);
    assert m.Some? && m.value <= |p|;
    assert forall k :: 0 <= k < |p| ==> uri[k] == p[k];
    assert uri[|p| + 1..] == rest;
  }

  /** A URI without ':' never matches a prefix. */
  lemma NoColonNoMatch(prefixes: map<string, string>, uri: string)
    requires ':' !in uri
    ensures Expand(prefixes, uri) == None
  {
  }
}
