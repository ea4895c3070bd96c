/**
 * The RDF model lv2specgen reads, as the statements a Redland model holds
 * in the order its find_statements yields them, and the two pieces of
 * bookkeeping the generator keeps over it: the class-to-property indices
 * filled by `add`, and the walk along an RDF collection in
 * `parseCollection`.
 */
module SpecgenGraph {
  import opened Wrappers
  import opened Prefixes
  import opened SpecgenText

  datatype Term = Uri(uri: string) | Blank(id: string) | Literal(text: string)

  datatype Statement = Statement(subject: Term, pred: Term, obj: Term)

  const RDFS_NS: string := "http://www.w3.org/2000/01/rdf-schema#"
  const OWL_NS: string := "http://www.w3.org/2002/07/owl#"

  const RDF_TYPE: Term := Uri(RDF_NS + "type")
  const RDF_FIRST: Term := Uri(RDF_NS + "first")
  const RDF_REST: Term := Uri(RDF_NS + "rest")
  const RDF_PROPERTY: Term := Uri(RDF_NS + "Property")
  const RDFS_CLASS: Term := Uri(RDFS_NS + "Class")
  const RDFS_RANGE: Term := Uri(RDFS_NS + "range")
  const RDFS_DOMAIN: Term := Uri(RDFS_NS + "domain")
  const RDFS_SUBCLASS_OF: Term := Uri(RDFS_NS + "subClassOf")
  const RDFS_LABEL: Term := Uri(RDFS_NS + "label")
  const RDFS_COMMENT: Term := Uri(RDFS_NS + "comment")
  const RDFS_IS_DEFINED_BY: Term := Uri(RDFS_NS + "isDefinedBy")
  const OWL_CLASS: Term := Uri(OWL_NS + "Class")
  const OWL_DEPRECATED_PROPERTY: Term := Uri(OWL_NS + "DeprecatedProperty")
  const OWL_OBJECT_PROPERTY: Term := Uri(OWL_NS + "ObjectProperty")
  const OWL_DATATYPE_PROPERTY: Term := Uri(OWL_NS + "DatatypeProperty")
  const OWL_ANNOTATION_PROPERTY: Term := Uri(OWL_NS + "AnnotationProperty")

  /** str(node.uri): the URI of a resource; a blank node or a literal has none, which prints as "None". */
  function UriText(t: Term): string
  {
    if t.Uri? then t.uri else "None"
  }

  /** A statement fits a find_statements pattern whose missing parts match anything. */
  predicate Fits(st: Statement, s: Option<Term>, p: Option<Term>, o: Option<Term>)
  {
    (s.None? || st.subject == s.value) && (p.None? || st.pred == p.value) && (o.None? || st.obj == o.value)
  }

  /** find_statements: the statements that fit the pattern, in the model's order. */
  function Find(g: seq<Statement>, s: Option<Term>, p: Option<Term>, o: Option<Term>): seq<Statement>
  {
    if g == [] then []
    else
      var front := Find(g[..|g| - 1], s, p, o);
      if Fits(g[|g| - 1], s, p, o) then front + [g[|g| - 1]] else front
  }

  /** find_statements yields exactly the statements of the model that fit the pattern, and no more of them than the model holds. */
  lemma {:induction false} FindMembers(g: seq<Statement>, s: Option<Term>, p: Option<Term>, o: Option<Term>)
    ensures |Find(g, s, p, o)| <= |g|
    ensures forall st :: st in Find(g, s, p, o) <==> st in g && Fits(st, s, p, o)
    ensures forall k :: 0 <= k < |Find(g, s, p, o)| ==> Fits(Find(g, s, p, o)[k], s, p, o)
  {
    if g != [] {
      FindMembers(g[..|g| - 1], s, p, o);
      assert g == g[..|g| - 1] + [g[|g| - 1]];
    }
  }

  /** contains_statement(x rdf:type owl:DeprecatedProperty) */
  predicate Deprecated(g: seq<Statement>, x: Term)
  {
    Statement(x, RDF_TYPE, OWL_DEPRECATED_PROPERTY) in g
  }

  /** Every list in an index is free of duplicates. */
  ghost predicate IndexWf(m: map<string, seq<string>>)
  {
    forall k :: k in m ==> NoDup(m[k])
  }

  /** The entries under a key, or none. */
  function Lookup(m: map<string, seq<string>>, k: string): seq<string>
  {
    if k in m then m[k] else []
  }

  /**
   * add(where, key, value): the key gets a list on first use and value is
   * appended to it unless already there; the other keys are untouched.
   */
  function Added(m: map<string, seq<string>>, key: string, value: string): (r: map<string, seq<string>>)
    ensures key in r && value in r[key]
    ensures |Lookup(m, key)| <= |r[key]| <= |Lookup(m, key)| + 1 && r[key][..|Lookup(m, key)|] == Lookup(m, key)
    ensures value in Lookup(m, key) ==> r[key] == Lookup(m, key)
  {
    m[key := AppendNew(Lookup(m, key), value, [])]
  }

  /** add leaves every other key as it was and keeps every list free of duplicates. */
  lemma AddedOthers(m: map<string, seq<string>>, key: string, value: string)
    ensures forall k :: k != key ==> (k in Added(m, key, value) <==> k in m) && (k in m ==> Added(m, key, value)[k] == m[k])
    ensures IndexWf(m) ==> IndexWf(Added(m, key, value))
  {
  }

  /** add applied to each pair in turn. */
  function AddedAll(m: map<string, seq<string>>, pairs: seq<(string, string)>): (r: map<string, seq<string>>)
    ensures IndexWf(m) ==> IndexWf(r)
    decreases |pairs|
  {
    if pairs == [] then m
    else
      var prev := AddedAll(m, pairs[..|pairs| - 1]);
      AddedOthers(prev, pairs[|pairs| - 1].0, pairs[|pairs| - 1].1);
      Added(prev, pairs[|pairs| - 1].0, pairs[|pairs| - 1].1)
  }

  lemma AddedAllSnoc(m: map<string, seq<string>>, pairs: seq<(string, string)>, p: (string, string))
    ensures AddedAll(m, pairs + [p]) == Added(AddedAll(m, pairs), p.0, p.1)
  {
    assert (pairs + [p])[..|pairs|] == pairs;
  }

  lemma {:induction false} AddedAllAppend(m: map<string, seq<string>>, a: seq<(string, string)>, b: seq<(string, string)>)
    ensures AddedAll(m, a + b) == AddedAll(AddedAll(m, a), b)
    decreases |b|
  {
    if b == [] {
      assert a + b == a;
    } else {
      assert (a + b)[..|a + b| - 1] == a + b[..|b| - 1];
      AddedAllAppend(m, a, b[..|b| - 1]);
    }
  }

  /** After a run of adds a key is present exactly when it was or some pair names it. */
  lemma {:induction false} AddedAllKeys(m: map<string, seq<string>>, pairs: seq<(string, string)>)
    ensures forall k :: k in AddedAll(m, pairs) <==> k in m || exists v :: (k, v) in pairs
    decreases |pairs|
  {
    if pairs != [] {
      var front := pairs[..|pairs| - 1];
      AddedAllKeys(m, front);
      AddedOthers(AddedAll(m, front), pairs[|pairs| - 1].0, pairs[|pairs| - 1].1);
      assert forall p :: p in pairs <==> p in front || p == pairs[|pairs| - 1];
    }
  }

  /** After a run of adds a key's list holds exactly its old entries and the values paired with it. */
  lemma {:induction false} AddedAllValues(m: map<string, seq<string>>, pairs: seq<(string, string)>)
    ensures forall k, v :: k in AddedAll(m, pairs) && v in AddedAll(m, pairs)[k] <==> (k in m && v in m[k]) || (k, v) in pairs
    decreases |pairs|
  {
    if pairs != [] {
      var front := pairs[..|pairs| - 1];
      AddedAllValues(m, front);
      AddedOthers(AddedAll(m, front), pairs[|pairs| - 1].0, pairs[|pairs| - 1].1);
      assert forall p :: p in pairs <==> p in front || p == pairs[|pairs| - 1];
    }
  }

  /** After a run of adds a key's list keeps its old entries in front, and a key no pair names keeps its list. */
  lemma {:induction false} AddedAllKeepsOld(m: map<string, seq<string>>, pairs: seq<(string, string)>, k: string)
    requires k in m
    ensures k in AddedAll(m, pairs)
    ensures |m[k]| <= |AddedAll(m, pairs)[k]| && AddedAll(m, pairs)[k][..|m[k]|] == m[k]
    ensures (forall v :: (k, v) !in pairs) ==> AddedAll(m, pairs)[k] == m[k]
    decreases |pairs|
  {
    if pairs != [] {
      var front := pairs[..|pairs| - 1];
      var last := pairs[|pairs| - 1];
      AddedAllKeepsOld(m, front, k);
      var prev := AddedAll(m, front);
      var r := Added(prev, last.0, last.1);
      AddedOthers(prev, last.0, last.1);
      assert r == AddedAll(m, pairs);
      if k == last.0 {
        assert Lookup(prev, k) == prev[k];
        assert r[k][..|prev[k]|] == prev[k];
        assert r[k][..|m[k]|] == prev[k][..|m[k]|];
      } else {
        assert r[k] == prev[k];
        if forall v :: (k, v) !in pairs {
          assert forall v :: (k, v) in front ==> (k, v) in pairs;
        }
      }
    }
  }

  class Index {
    /** A Python dict from a class URI to property URIs. */
    var entries: map<string, seq<string>>

    constructor ()
      ensures entries == map[]
    {
      entries := map[];
    }

    method Add(key: string, value: string)
      modifies this
      ensures entries == Added(old(entries), key, value)
    {
      var list := if key in entries then entries[key] else [];
      if value !in list {
        list := list + [value];
      }
      entries := entries[key := list];
    }
  }

  /** Where parseCollection ends: the URIs read, a failure of the source, or the walk cut short. */
  datatype Walk = Done(uris: seq<string>) | Crash | OutOfFuel

  function Prefixed(uris: seq<string>, w: Walk): Walk
  {
    if w.Done? then Done(uris + w.uris) else w
  }

  /**
   * The loop of parseCollection on the statements about the current list
   * cell, from position i: stop at the end or at a blank object; else
   * take the object's URI, step to the next statement (the source fails
   * when there is none), and when that one is rdf:rest go on with the
   * statements about its object. Each jump to a new cell takes one unit
   * of fuel: a cyclic list makes the source loop for ever.
   */
  function Walked(g: seq<Statement>, stream: seq<Statement>, i: nat, fuel: nat): Walk
    decreases fuel, |stream| - i
  {
    if i >= |stream| || stream[i].obj.Blank? then Done([])
    else if i + 1 >= |stream| then Crash
    else if stream[i + 1].pred == RDF_REST then
      if fuel == 0 then OutOfFuel
      else Prefixed([UriText(stream[i].obj)], Walked(g, Find(g, Some(stream[i + 1].obj), None, None), 0, fuel - 1))
    else Prefixed([UriText(stream[i].obj)], Walked(g, stream, i + 1, fuel))
  }

  lemma PrefixedTwice(a: seq<string>, b: seq<string>, w: Walk)
    ensures Prefixed(a, Prefixed(b, w)) == Prefixed(a + b, w)
  {
    if w.Done? {
      assert a + (b + w.uris) == (a + b) + w.uris;
    }
  }

  /** parseCollection, from the collection's head node. */
  method ParseCollection(g: seq<Statement>, head: Term, fuel: nat) returns (w: Walk)
    ensures w == Walked(g, Find(g, Some(head), None, None), 0, fuel)
  {
    var uris: seq<string> := [];
    var stream := Find(g, Some(head), None, None);
    var i: nat := 0;
    var left := fuel;
    assert Prefixed([], Walked(g, stream, 0, fuel)) == Walked(g, stream, 0, fuel);
    while i < |stream| && !stream[i].obj.Blank?
      invariant i <= |stream|
      invariant Walked(g, Find(g, Some(head), None, None), 0, fuel) == Prefixed(uris, Walked(g, stream, i, left))
      decreases left, |stream| - i
    {
      var one := stream[i];
      ghost var before := uris;
      uris := uris + [UriText(one.obj)];
      if i + 1 >= |stream| {
        return Crash;
      }
      if stream[i + 1].pred == RDF_REST {
        if left == 0 {
          return OutOfFuel;
        }
        var next := Find(g, Some(stream[i + 1].obj), None, None);
        PrefixedTwice(before, [UriText(one.obj)], Walked(g, next, 0, left - 1));
        stream := next;
        i := 0;
        left := left - 1;
      } else {
        PrefixedTwice(before, [UriText(one.obj)], Walked(g, stream, i + 1, left));
        i := i + 1;
      }
    }
    w := Done(uris);
  }

  function UriTexts(ts: seq<Term>): (r: seq<string>)
    ensures |r| == |ts| && forall k :: 0 <= k < |ts| ==> r[k] == UriText(ts[k])
  {
    if ts == [] then [] else [UriText(ts[0])] + UriTexts(ts[1..])
  }

  /**
   * A well-formed collection: cells[k] has exactly the statements
   * rdf:first items[k] and rdf:rest cells[k + 1], in that order, the last
   * cell (rdf:nil) has none, and no item is a blank node.
   */
  ghost predicate WellFormedList(g: seq<Statement>, cells: seq<Term>, items: seq<Term>)
  {
    |cells| == |items| + 1
    && (forall k :: 0 <= k < |items| ==>
          Find(g, Some(cells[k]), None, None) == [Statement(cells[k], RDF_FIRST, items[k]), Statement(cells[k], RDF_REST, cells[k + 1])])
    && Find(g, Some(cells[|items|]), None, None) == []
    && forall k :: 0 <= k < |items| ==> !items[k].Blank?
  }

  /** parseCollection returns the URIs of a well-formed collection's items, in order, given one unit of fuel per item. */
  lemma {:induction false} WellFormedListParsed(g: seq<Statement>, cells: seq<Term>, items: seq<Term>, j: nat, fuel: nat)
    requires WellFormedList(g, cells, items) && j <= |items| && fuel >= |items| - j
    ensures Walked(g, Find(g, Some(cells[j]), None, None), 0, fuel) == Done(UriTexts(items[j..]))
    decreases |items| - j
  {
    if j < |items| {
      var stream := Find(g, Some(cells[j]), None, None);
      assert stream == [Statement(cells[j], RDF_FIRST, items[j]), Statement(cells[j], RDF_REST, cells[j + 1])];
      var rest := Walked(g, Find(g, Some(cells[j + 1]), None, None), 0, fuel - 1);
      assert Walked(g, stream, 0, fuel) == Prefixed([UriText(items[j])], rest);
      WellFormedListParsed(g, cells, items, j + 1, fuel - 1);
      assert items[j..][1..] == items[j + 1..];
      assert UriTexts(items[j..]) == [UriText(items[j])] + UriTexts(items[j + 1..]);
    } else {
      assert Find(g, Some(cells[j]), None, None) == [];
    }
  }

  /** A cell with rdf:first and no rdf:rest after it makes the source fail. */
  lemma CellWithoutRest(g: seq<Statement>, cell: Term, item: Term, fuel: nat)
    requires Find(g, Some(cell), None, None) == [Statement(cell, RDF_FIRST, item)] && !item.Blank?
    ensures Walked(g, Find(g, Some(cell), None, None), 0, fuel) == Crash
  {
  }

  /** A list whose rdf:rest leads back to itself is walked as long as there is fuel. */
  lemma {:induction false} CyclicListUnbounded(g: seq<Statement>, cell: Term, item: Term, fuel: nat)
    requires Find(g, Some(cell), None, None) == [Statement(cell, RDF_FIRST, item), Statement(cell, RDF_REST, cell)]
    requires !item.Blank?
    ensures Walked(g, Find(g, Some(cell), None, None), 0, fuel) == OutOfFuel
    decreases fuel
  {
    if fuel > 0 {
      CyclicListUnbounded(g, cell, item, fuel - 1);
    }
  }
}
