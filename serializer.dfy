/**
 * Ingen's client-side Serializer, the part that turns prefixed names into
 * full URIs: a fixed prefix table, its own variant of prefix expansion
 * that maps a string which cannot be a URI to "", and the metadata loops
 * that skip every key whose expansion is "". The librdf serializer, file
 * search and the rest of saving and loading are not part of the model.
 */
module IngenSerializer {
  import opened Wrappers
  import opened Prefixes

  const INGEN_NS: string := "http://codeson.net/ns/ingen#"
  const INGENUITY_NS: string := "http://codeson.net/ns/ingenuity#"

  /** The table the constructor fills. */
  const SERIALIZER_PREFIXES: map<string, string> :=
    map["rdf" := RDF_NS, "ingen" := INGEN_NS, "ingenuity" := INGENUITY_NS]

  /**
   * expand_uri: the expansion by the first matching prefix in key order;
   * failing that, "" for a string with neither ':' nor '/', and the string
   * itself otherwise.
   */
  function ExpandUri(prefixes: map<string, string>, uri: string): (r: string)
  {
    match Expand(prefixes, uri)
    case Some(e) => e
    case None => if ':' !in uri && '/' !in uri then "" else uri
  }

  /**
   * "p:rest" with p registered and free of ':' expands to p's namespace
   * followed by rest. When no prefix matches, the result is "" exactly for
   * strings with neither ':' nor '/', and the string itself otherwise.
   */
  lemma ExpandUriCases(prefixes: map<string, string>, uri: string, p: string, rest: string)
    ensures p in prefixes && ':' !in p ==> ExpandUri(prefixes, p + ":" + rest) == prefixes[p] + rest
    ensures (forall q :: q in prefixes ==> !Matches(q, uri)) ==>
      (ExpandUri(prefixes, uri) == "" <==> ':' !in uri && '/' !in uri)
    ensures (forall q :: q in prefixes ==> !Matches(q, uri)) && (':' in uri || '/' in uri) ==>
      ExpandUri(prefixes, uri) == uri
  {
    ExpandIsFirstInKeyOrder(prefixes, uri);
    if p in prefixes && ':' !in p {
      ExpandRegistered(prefixes, p, rest);
    }
  }

  /** A string with no ':' never expands through a prefix: it survives exactly when it has a '/'. */
  lemma NoColonKeptIffSlash(prefixes: map<string, string>, uri: string)
    requires ':' !in uri
    ensures ExpandUri(prefixes, uri) == (if '/' in uri then uri else "")
  {
    NoColonNoMatch(prefixes, uri);
  }

  /**
   * The constructor's table has exactly the rdf, ingen and ingenuity
   * prefixes, and each expands to its namespace, although "ingen" is a
   * prefix of "ingenuity" and comes first in key order.
   */
  lemma SerializerPrefixesExpand(rest: string)
    ensures SERIALIZER_PREFIXES.Keys == {"rdf", "ingen", "ingenuity"}
    ensures ExpandUri(SERIALIZER_PREFIXES, "rdf:" + rest) == RDF_NS + rest
    ensures ExpandUri(SERIALIZER_PREFIXES, "ingen:" + rest) == INGEN_NS + rest
    ensures ExpandUri(SERIALIZER_PREFIXES, "ingenuity:" + rest) == INGENUITY_NS + rest
  {
    ExpandUriCases(SERIALIZER_PREFIXES, "", "rdf", rest);
    ExpandUriCases(SERIALIZER_PREFIXES, "", "ingen", rest);
    ExpandUriCases(SERIALIZER_PREFIXES, "", "ingenuity", rest);
    assert "rdf" + ":" + rest == "rdf:" + rest;
    assert "ingen" + ":" + rest == "ingen:" + rest;
    assert "ingenuity" + ":" + rest == "ingenuity:" + rest;
  }

  /** A statement added to the RDF model: subject, predicate and an atom value. */
  datatype Statement<V> = Statement(subject: string, pred: string, value: V)

  /**
   * The statements the metadata loops of add_node_to_rdf and
   * add_port_to_rdf add, for metadata given in key order.
   */
  function MetadataStatements<V>(prefixes: map<string, string>, subject: string, metadata: seq<(string, V)>): (r: seq<Statement<V>>)
    ensures |r| <= |metadata|
  {
    if metadata == [] then []
    else
      var k := metadata[|metadata| - 1].0;
      MetadataStatements(prefixes, subject, metadata[..|metadata| - 1])
      + (if ExpandUri(prefixes, k) != "" then [Statement(subject, ExpandUri(prefixes, k), metadata[|metadata| - 1].1)] else [])
  }

  /** A statement is added exactly for an entry whose key expands to something other than "", with the expansion as its predicate. */
  lemma {:induction false} MetadataStatementsMembers<V>(prefixes: map<string, string>, subject: string, metadata: seq<(string, V)>)
    ensures forall st :: st in MetadataStatements(prefixes, subject, metadata) <==>
      exists i :: 0 <= i < |metadata| && ExpandUri(prefixes, metadata[i].0) != ""
        && st == Statement(subject, ExpandUri(prefixes, metadata[i].0), metadata[i].1)
  {
    if metadata != [] {
      var init := metadata[..|metadata| - 1];
      MetadataStatementsMembers(prefixes, subject, init);
      forall st
        ensures st in MetadataStatements(prefixes, subject, metadata) <==>
          exists i :: 0 <= i < |metadata| && ExpandUri(prefixes, metadata[i].0) != ""
            && st == Statement(subject, ExpandUri(prefixes, metadata[i].0), metadata[i].1)
      {
        if st in MetadataStatements(prefixes, subject, init) {
          var i :| 0 <= i < |init| && ExpandUri(prefixes, init[i].0) != ""
            && st == Statement(subject, ExpandUri(prefixes, init[i].0), init[i].1);
          assert metadata[i] == init[i];
        }
        if exists i :: 0 <= i < |metadata| && ExpandUri(prefixes, metadata[i].0) != ""
            && st == Statement(subject, ExpandUri(prefixes, metadata[i].0), metadata[i].1) {
          var i :| 0 <= i < |metadata| && ExpandUri(prefixes, metadata[i].0) != ""
            && st == Statement(subject, ExpandUri(prefixes, metadata[i].0), metadata[i].1);
          if i < |init| {
            assert init[i] == metadata[i];
          }
        }
      }
    }
  }

  /** The metadata loop: one statement per entry whose key expands to something other than "". */
  method AddMetadata<V>(prefixes: map<string, string>, subject: string, metadata: seq<(string, V)>) returns (added: seq<Statement<V>>)
    ensures added == MetadataStatements(prefixes, subject, metadata)
  {
    added := [];
    var i := 0;
    while i < |metadata|
      invariant i <= |metadata|
      invariant added == MetadataStatements(prefixes, subject, metadata[..i])
    {
      assert metadata[..i + 1][..i] == metadata[..i];
      var k := metadata[i].0;
      if ExpandUri(prefixes, k) != "" {
        added := added + [Statement(subject, ExpandUri(prefixes, k), metadata[i].1)];
      }
      i := i + 1;
    }
    assert metadata[..i] == metadata;
  }
}
