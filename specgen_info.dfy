/**
 * lv2specgen's classification of an ontology's terms: specInformation,
 * which lists the classes and properties of the namespace and fills the
 * class-to-property indices, and getInstances, which lists the other
 * resources the ontology types with its classes or defines. `ns` is the
 * normalised namespace (spec_ns_str) and `url` the ontology's URI
 * (spec_url).
 */
module SpecgenInfo {
  import opened Wrappers
  import opened SpecgenText
  import opened SpecgenGraph

  /** x rdf:type rdfs:Class, or x rdf:type owl:Class. */
  predicate IsClassStatement(st: Statement)
  {
    st.pred == RDF_TYPE && (st.obj == RDFS_CLASS || st.obj == OWL_CLASS)
  }

  /** x rdf:type of rdf:Property, owl:ObjectProperty, owl:DatatypeProperty or owl:AnnotationProperty. */
  predicate IsPropertyStatement(st: Statement)
  {
    st.pred == RDF_TYPE
    && (st.obj == RDF_PROPERTY || st.obj == OWL_OBJECT_PROPERTY || st.obj == OWL_DATATYPE_PROPERTY || st.obj == OWL_ANNOTATION_PROPERTY)
  }

  /** The class statements, those typing with rdfs:Class first and then those typing with owl:Class. */
  function ClassStatements(g: seq<Statement>): seq<Statement>
  {
    Find(g, None, Some(RDF_TYPE), Some(RDFS_CLASS)) + Find(g, None, Some(RDF_TYPE), Some(OWL_CLASS))
  }

  /** The property statements, grouped by the four property types in turn. */
  function PropertyStatements(g: seq<Statement>): seq<Statement>
  {
    Find(g, None, Some(RDF_TYPE), Some(RDF_PROPERTY)) + Find(g, None, Some(RDF_TYPE), Some(OWL_OBJECT_PROPERTY))
    + Find(g, None, Some(RDF_TYPE), Some(OWL_DATATYPE_PROPERTY)) + Find(g, None, Some(RDF_TYPE), Some(OWL_ANNOTATION_PROPERTY))
  }

  lemma ClassStatementsMembers(g: seq<Statement>)
    ensures forall st :: st in ClassStatements(g) <==> st in g && IsClassStatement(st)
  {
    FindMembers(g, None, Some(RDF_TYPE), Some(RDFS_CLASS));
    FindMembers(g, None, Some(RDF_TYPE), Some(OWL_CLASS));
  }

  lemma PropertyStatementsMembers(g: seq<Statement>)
    ensures forall st :: st in PropertyStatements(g) <==> st in g && IsPropertyStatement(st)
  {
    FindMembers(g, None, Some(RDF_TYPE), Some(RDF_PROPERTY));
    FindMembers(g, None, Some(RDF_TYPE), Some(OWL_OBJECT_PROPERTY));
    FindMembers(g, None, Some(RDF_TYPE), Some(OWL_DATATYPE_PROPERTY));
    FindMembers(g, None, Some(RDF_TYPE), Some(OWL_ANNOTATION_PROPERTY));
  }

  /** The index entries of one class from the statements naming it as range (or domain): none for a blank class or a deprecated property. */
  function PairsFrom(g: seq<Statement>, cls: Term, stream: seq<Statement>): seq<(string, string)>
  {
    if stream == [] then []
    else
      var st := stream[|stream| - 1];
      PairsFrom(g, cls, stream[..|stream| - 1])
      + if !Deprecated(g, st.subject) && !cls.Blank? then [(UriText(cls), UriText(st.subject))] else []
  }

  /** The statements x pred cls. */
  function Pointing(g: seq<Statement>, pred: Term, cls: Term): seq<Statement>
  {
    Find(g, None, Some(pred), Some(cls))
  }

  /** The index entries of a run of class statements, in order. */
  function IndexPairs(g: seq<Statement>, css: seq<Statement>, pred: Term): seq<(string, string)>
  {
    if css == [] then []
    else
      var cs := css[|css| - 1];
      IndexPairs(g, css[..|css| - 1], pred) + PairsFrom(g, cs.subject, Pointing(g, pred, cs.subject))
  }

  /** The names of the non-blank, in-namespace subjects of a run of class statements. */
  function ClassNames(css: seq<Statement>, ns: string): seq<string>
    requires ns != []
  {
    if css == [] then []
    else
      var s := css[|css| - 1].subject;
      ClassNames(css[..|css| - 1], ns)
      + if !s.Blank? && StartsWith(UriText(s), ns) then [RemoveAll(UriText(s), ns)] else []
  }

  /** The names of the in-namespace subjects of a run of property statements. */
  function PropertyNames(pss: seq<Statement>, ns: string): seq<string>
    requires ns != []
  {
    if pss == [] then []
    else
      var s := pss[|pss| - 1].subject;
      PropertyNames(pss[..|pss| - 1], ns)
      + if StartsWith(UriText(s), ns) then [RemoveAll(UriText(s), ns)] else []
  }

  function ClassList(g: seq<Statement>, ns: string): seq<string>
    requires ns != []
  {
    Unique([], ClassNames(ClassStatements(g), ns), [])
  }

  function PropertyList(g: seq<Statement>, ns: string): seq<string>
    requires ns != []
  {
    Unique([], PropertyNames(PropertyStatements(g), ns), [])
  }

  /** The inner loop of specInformation over the properties whose range (or domain) is one class. */
  method IndexClass(g: seq<Statement>, cls: Term, pred: Term, index: Index)
    modifies index
    ensures index.entries == AddedAll(old(index.entries), PairsFrom(g, cls, Pointing(g, pred, cls)))
  {
    var stream := Find(g, None, Some(pred), Some(cls));
    var i := 0;
    while i < |stream|
      invariant i <= |stream|
      invariant index.entries == AddedAll(old(index.entries), PairsFrom(g, cls, stream[..i]))
    {
      var st := stream[i];
      assert stream[..i + 1] == stream[..i] + [st];
      ghost var before := PairsFrom(g, cls, stream[..i]);
      if Statement(st.subject, RDF_TYPE, OWL_DEPRECATED_PROPERTY) !in g && !cls.Blank? {
        index.Add(UriText(cls), UriText(st.subject));
        assert PairsFrom(g, cls, stream[..i + 1]) == before + [(UriText(cls), UriText(st.subject))];
        AddedAllSnoc(old(index.entries), before, (UriText(cls), UriText(st.subject)));
      } else {
        assert PairsFrom(g, cls, stream[..i + 1]) == before + [];
        assert before + [] == before;
      }
      i := i + 1;
    }
    assert stream[..i] == stream;
  }

  /**
   * specInformation: the classes and the properties of the namespace, by
   * name, each once and in the order first met; every class's range and
   * domain properties go into the two indices.
   */
  method SpecInformation(g: seq<Statement>, ns: string, ranges: Index, domains: Index)
    returns (classlist: seq<string>, proplist: seq<string>)
    requires ns != [] && ranges != domains
    modifies ranges, domains
    ensures classlist == ClassList(g, ns) && proplist == PropertyList(g, ns)
    ensures ranges.entries == AddedAll(old(ranges.entries), IndexPairs(g, ClassStatements(g), RDFS_RANGE))
    ensures domains.entries == AddedAll(old(domains.entries), IndexPairs(g, ClassStatements(g), RDFS_DOMAIN))
  {
    classlist := ClassInformation(g, ns, ranges, domains);
    proplist := PropertyInformation(g, ns);
  }

  /** The loop of specInformation over the class statements. */
  method ClassInformation(g: seq<Statement>, ns: string, ranges: Index, domains: Index)
    returns (classlist: seq<string>)
    requires ns != [] && ranges != domains
    modifies ranges, domains
    ensures classlist == ClassList(g, ns)
    ensures ranges.entries == AddedAll(old(ranges.entries), IndexPairs(g, ClassStatements(g), RDFS_RANGE))
    ensures domains.entries == AddedAll(old(domains.entries), IndexPairs(g, ClassStatements(g), RDFS_DOMAIN))
  {
    var css := ClassStatements(g);
    classlist := [];
    var i := 0;
    while i < |css|
      invariant i <= |css|
      invariant ranges.entries == AddedAll(old(ranges.entries), IndexPairs(g, css[..i], RDFS_RANGE))
      invariant domains.entries == AddedAll(old(domains.entries), IndexPairs(g, css[..i], RDFS_DOMAIN))
      invariant classlist == Unique([], ClassNames(css[..i], ns), [])
    {
      var cs := css[i];
      IndexPairsStep(g, css, i, RDFS_RANGE, old(ranges.entries));
      IndexPairsStep(g, css, i, RDFS_DOMAIN, old(domains.entries));
      ClassNamesStep(css, i, ns);
      IndexClass(g, cs.subject, RDFS_RANGE, ranges);
      IndexClass(g, cs.subject, RDFS_DOMAIN, domains);
      if !cs.subject.Blank? && StartsWith(UriText(cs.subject), ns) {
        var name := RemoveAll(UriText(cs.subject), ns);
        if name !in classlist {
          classlist := classlist + [name];
        }
      }
      i := i + 1;
    }
    assert css[..i] == css;
  }

  /** One more class statement adds its subject's index entries after the earlier ones. */
  lemma IndexPairsStep(g: seq<Statement>, css: seq<Statement>, i: nat, pred: Term, m: map<string, seq<string>>)
    requires i < |css|
    ensures AddedAll(m, IndexPairs(g, css[..i + 1], pred))
            == AddedAll(AddedAll(m, IndexPairs(g, css[..i], pred)), PairsFrom(g, css[i].subject, Pointing(g, pred, css[i].subject)))
  {
    assert css[..i + 1][..i] == css[..i];
    AddedAllAppend(m, IndexPairs(g, css[..i], pred), PairsFrom(g, css[i].subject, Pointing(g, pred, css[i].subject)));
  }

  /** One more class statement appends its subject's name, when it has one, unless already listed. */
  lemma ClassNamesStep(css: seq<Statement>, i: nat, ns: string)
    requires i < |css| && ns != []
    ensures var s := css[i].subject;
            Unique([], ClassNames(css[..i + 1], ns), [])
            == if !s.Blank? && StartsWith(UriText(s), ns) then AppendNew(Unique([], ClassNames(css[..i], ns), []), RemoveAll(UriText(s), ns), [])
               else Unique([], ClassNames(css[..i], ns), [])
  {
    var s := css[i].subject;
    var names := ClassNames(css[..i], ns);
    assert css[..i + 1][..i] == css[..i];
    if !s.Blank? && StartsWith(UriText(s), ns) {
      UniqueSnoc([], names, RemoveAll(UriText(s), ns), []);
    } else {
      assert ClassNames(css[..i + 1], ns) == names + [];
      assert names + [] == names;
    }
  }

  /** The loop of specInformation over the property statements. */
  method PropertyInformation(g: seq<Statement>, ns: string) returns (proplist: seq<string>)
    requires ns != []
    ensures proplist == PropertyList(g, ns)
  {
    var pss := PropertyStatements(g);
    proplist := [];
    var i := 0;
    while i < |pss|
      invariant i <= |pss|
      invariant proplist == Unique([], PropertyNames(pss[..i], ns), [])
    {
      var ps := pss[i];
      assert pss[..i + 1] == pss[..i] + [ps];
      ghost var names := PropertyNames(pss[..i], ns);
      var uri := UriText(ps.subject);
      var name := RemoveAll(uri, ns);
      if StartsWith(uri, ns) {
        assert PropertyNames(pss[..i + 1], ns) == names + [name];
        UniqueSnoc([], names, name, []);
        if name !in proplist {
          proplist := proplist + [name];
        }
      } else {
        assert PropertyNames(pss[..i + 1], ns) == names + [];
        assert names + [] == names;
      }
      i := i + 1;
      assert proplist == Unique([], PropertyNames(pss[..i], ns), []);
    }
    assert pss[..i] == pss;
  }

  lemma {:induction false} ClassNamesMembers(css: seq<Statement>, ns: string)
    requires ns != []
    ensures forall name :: name in ClassNames(css, ns) <==>
      exists cs :: cs in css && !cs.subject.Blank? && StartsWith(UriText(cs.subject), ns) && name == RemoveAll(UriText(cs.subject), ns)
  {
    if css != [] {
      ClassNamesMembers(css[..|css| - 1], ns);
      assert forall cs :: cs in css <==> cs in css[..|css| - 1] || cs == css[|css| - 1];
    }
  }

  /**
   * The class list holds, once each, the name of every non-blank subject
   * of the namespace typed rdfs:Class or owl:Class, and nothing else.
   */
  lemma ClassListExactlyOnce(g: seq<Statement>, ns: string)
    requires ns != []
    ensures NoDup(ClassList(g, ns))
    ensures forall name :: name in ClassList(g, ns) <==>
      exists cs :: cs in g && IsClassStatement(cs) && !cs.subject.Blank? && StartsWith(UriText(cs.subject), ns)
                   && name == RemoveAll(UriText(cs.subject), ns)
  {
    ClassNamesMembers(ClassStatements(g), ns);
    ClassStatementsMembers(g);
    UniqueMembers([], ClassNames(ClassStatements(g), ns), []);
  }

  lemma {:induction false} PropertyNamesMembers(pss: seq<Statement>, ns: string)
    requires ns != []
    ensures forall name :: name in PropertyNames(pss, ns) <==>
      exists ps :: ps in pss && StartsWith(UriText(ps.subject), ns) && name == RemoveAll(UriText(ps.subject), ns)
  {
    if pss != [] {
      PropertyNamesMembers(pss[..|pss| - 1], ns);
      assert forall ps :: ps in pss <==> ps in pss[..|pss| - 1] || ps == pss[|pss| - 1];
    }
  }

  /** A normalised namespace ends in '/' or '#', so no blank node's "None" lies in it. */
  lemma NoneOutsideNs(ns: string)
    requires ns != [] && ns[|ns| - 1] in "/#"
    ensures !StartsWith("None", ns)
  {
  }

  /**
   * The property list holds, once each, the name of every resource of the
   * namespace typed with one of the four property types, and nothing
   * else; blank subjects never enter it.
   */
  lemma PropertyListExactlyOnce(g: seq<Statement>, ns: string)
    requires ns != [] && ns[|ns| - 1] in "/#"
    ensures NoDup(PropertyList(g, ns))
    ensures forall name :: name in PropertyList(g, ns) <==>
      exists ps :: ps in g && IsPropertyStatement(ps) && ps.subject.Uri? && StartsWith(ps.subject.uri, ns)
                   && name == RemoveAll(ps.subject.uri, ns)
  {
    var pss := PropertyStatements(g);
    PropertyNamesMembers(pss, ns);
    PropertyStatementsMembers(g);
    UniqueMembers([], PropertyNames(pss, ns), []);
    NoneOutsideNs(ns);
    forall name
      ensures name in PropertyNames(pss, ns) <==>
        exists ps :: ps in g && IsPropertyStatement(ps) && ps.subject.Uri? && StartsWith(ps.subject.uri, ns) && name == RemoveAll(ps.subject.uri, ns)
    {
      if name in PropertyNames(pss, ns) {
        var ps :| ps in pss && StartsWith(UriText(ps.subject), ns) && name == RemoveAll(UriText(ps.subject), ns);
        assert ps.subject.Uri?;
      }
      if exists ps :: ps in g && IsPropertyStatement(ps) && ps.subject.Uri? && StartsWith(ps.subject.uri, ns) && name == RemoveAll(ps.subject.uri, ns) {
        var ps :| ps in g && IsPropertyStatement(ps) && ps.subject.Uri? && StartsWith(ps.subject.uri, ns) && name == RemoveAll(ps.subject.uri, ns);
        assert ps in pss;
      }
    }
  }

  lemma {:induction false} PairsFromMembers(g: seq<Statement>, cls: Term, stream: seq<Statement>)
    ensures forall c, p :: (c, p) in PairsFrom(g, cls, stream) <==>
      !cls.Blank? && c == UriText(cls) && exists st :: st in stream && !Deprecated(g, st.subject) && p == UriText(st.subject)
  {
    if stream != [] {
      PairsFromMembers(g, cls, stream[..|stream| - 1]);
      assert forall st :: st in stream <==> st in stream[..|stream| - 1] || st == stream[|stream| - 1];
    }
  }

  lemma {:induction false} IndexPairsMembers(g: seq<Statement>, css: seq<Statement>, pred: Term)
    ensures forall c, p :: (c, p) in IndexPairs(g, css, pred) <==>
      exists cs, st :: cs in css && !cs.subject.Blank? && st in g && st.pred == pred && st.obj == cs.subject
                       && !Deprecated(g, st.subject) && c == UriText(cs.subject) && p == UriText(st.subject)
  {
    if css != [] {
      var cs := css[|css| - 1];
      var front := css[..|css| - 1];
      IndexPairsMembers(g, front, pred);
      PairsFromMembers(g, cs.subject, Pointing(g, pred, cs.subject));
      FindMembers(g, None, Some(pred), Some(cs.subject));
      assert forall x :: x in css <==> x in front || x == cs;
      forall c, p | (c, p) in PairsFrom(g, cs.subject, Pointing(g, pred, cs.subject))
        ensures exists cs', st :: cs' in css && !cs'.subject.Blank? && st in g && st.pred == pred && st.obj == cs'.subject
                                  && !Deprecated(g, st.subject) && c == UriText(cs'.subject) && p == UriText(st.subject)
      {
        var st :| st in Pointing(g, pred, cs.subject) && !Deprecated(g, st.subject) && p == UriText(st.subject);
        assert Fits(st, None, Some(pred), Some(cs.subject));
      }
      forall c, p, st | !cs.subject.Blank? && st in g && st.pred == pred && st.obj == cs.subject
                        && !Deprecated(g, st.subject) && c == UriText(cs.subject) && p == UriText(st.subject)
        ensures (c, p) in PairsFrom(g, cs.subject, Pointing(g, pred, cs.subject))
      {
        assert Fits(st, None, Some(pred), Some(cs.subject));
      }
    }
  }

  /**
   * Class c lists property p: some non-blank subject typed as a class has
   * the URI c, and a statement that is not about a deprecated property
   * names it with pred and has a subject with the URI p.
   */
  ghost predicate Indexed(g: seq<Statement>, pred: Term, c: string, p: string)
  {
    exists cs, st :: cs in g && IsClassStatement(cs) && !cs.subject.Blank? && st in g && st.pred == pred
                     && st.obj == cs.subject && !Deprecated(g, st.subject) && c == UriText(cs.subject) && p == UriText(st.subject)
  }

  /**
   * The indices specInformation fills from empty: no duplicates, and a
   * class maps to a property exactly when the class is a non-blank class
   * subject and the property names it as range (or domain) without being
   * typed owl:DeprecatedProperty.
   */
  lemma SpecIndex(g: seq<Statement>, pred: Term)
    ensures IndexWf(AddedAll(map[], IndexPairs(g, ClassStatements(g), pred)))
    ensures forall c, p ::
      (c in AddedAll(map[], IndexPairs(g, ClassStatements(g), pred)) && p in AddedAll(map[], IndexPairs(g, ClassStatements(g), pred))[c])
      <==> Indexed(g, pred, c, p)
  {
    var css := ClassStatements(g);
    var pairs := IndexPairs(g, css, pred);
    assert IndexWf(map[]);
    AddedAllValues(map[], pairs);
    IndexPairsMembers(g, css, pred);
    ClassStatementsMembers(g);
    forall c, p | (c, p) in pairs
      ensures Indexed(g, pred, c, p)
    {
      var cs, st :| cs in css && !cs.subject.Blank? && st in g && st.pred == pred && st.obj == cs.subject
                    && !Deprecated(g, st.subject) && c == UriText(cs.subject) && p == UriText(st.subject);
      assert cs in g && IsClassStatement(cs);
    }
    forall c, p | Indexed(g, pred, c, p)
      ensures (c, p) in pairs
    {
      var cs, st :| cs in g && IsClassStatement(cs) && !cs.subject.Blank? && st in g && st.pred == pred
                    && st.obj == cs.subject && !Deprecated(g, st.subject) && c == UriText(cs.subject) && p == UriText(st.subject);
      assert cs in css;
    }
  }

  /** The URIs of a run of statements' subjects. */
  function SubjectTexts(stream: seq<Statement>): (r: seq<string>)
    ensures |r| == |stream| && forall k :: 0 <= k < |r| ==> r[k] == UriText(stream[k].subject)
  {
    if stream == [] then [] else SubjectTexts(stream[..|stream| - 1]) + [UriText(stream[|stream| - 1].subject)]
  }

  /** spec_ns[one]: the term of the namespace named one. */
  function NsTerm(ns: string, one: string): Term
  {
    Uri(ns + one)
  }

  /** The subjects typed with each listed class of the namespace, class after class. */
  function TypedInstances(g: seq<Statement>, classes: seq<string>, ns: string): seq<string>
  {
    if classes == [] then []
    else TypedInstances(g, classes[..|classes| - 1], ns)
         + SubjectTexts(Find(g, None, Some(RDF_TYPE), Some(NsTerm(ns, classes[|classes| - 1]))))
  }

  /** An in-namespace URI without the namespace; any other as it is. */
  function StripNs(ns: string, u: string): string
  {
    if StartsWith(u, ns) then u[|ns|..] else u
  }

  function StrippedSubjects(ns: string, stream: seq<Statement>): seq<string>
  {
    if stream == [] then [] else StrippedSubjects(ns, stream[..|stream| - 1]) + [StripNs(ns, UriText(stream[|stream| - 1].subject))]
  }

  /** The statements x rdfs:isDefinedBy <url>. */
  function DefinedBy(g: seq<Statement>, url: string): seq<Statement>
  {
    Find(g, None, Some(RDFS_IS_DEFINED_BY), Some(Uri(url)))
  }

  /** getInstances as written: a defined name is left out when listed or a class, but a property's name is let through. */
  function InstancesAsWritten(g: seq<Statement>, classes: seq<string>, ns: string, url: string): seq<string>
  {
    Unique(Unique([], TypedInstances(g, classes, ns), []), StrippedSubjects(ns, DefinedBy(g, url)), classes)
  }

  /** getInstances as its documentation means it: the resources that are neither classes nor properties. */
  function Instances(g: seq<Statement>, classes: seq<string>, properties: seq<string>, ns: string, url: string): seq<string>
  {
    Unique(Unique([], TypedInstances(g, classes, ns), []), StrippedSubjects(ns, DefinedBy(g, url)), classes + properties)
  }

  /** getInstances, with the property list kept out of the defined names. */
  method GetInstances(g: seq<Statement>, classes: seq<string>, properties: seq<string>, ns: string, url: string)
    returns (instances: seq<string>)
    ensures instances == Instances(g, classes, properties, ns, url)
  {
    instances := [];
    var i := 0;
    while i < |classes|
      invariant i <= |classes|
      invariant instances == Unique([], TypedInstances(g, classes[..i], ns), [])
    {
      var stream := Find(g, None, Some(RDF_TYPE), Some(NsTerm(ns, classes[i])));
      TypedInstancesStep(g, classes, i, ns);
      UniqueAppend([], TypedInstances(g, classes[..i], ns), SubjectTexts(stream), []);
      instances := AddTyped(instances, stream);
      i := i + 1;
    }
    assert classes[..i] == classes;
    var defined := DefinedBy(g, url);
    ghost var start := instances;
    i := 0;
    while i < |defined|
      invariant i <= |defined|
      invariant instances == Unique(start, StrippedSubjects(ns, defined[..i]), classes + properties)
    {
      StrippedSubjectsStep(start, ns, defined, i, classes + properties);
      var uri := UriText(defined[i].subject);
      if StartsWith(uri, ns) {
        uri := uri[|ns|..];
      }
      if uri !in instances && uri !in classes && uri !in properties {
        instances := instances + [uri];
      }
      i := i + 1;
    }
    assert defined[..i] == defined;
  }

  /** The inner loop of getInstances: each subject typed with one class, appended unless already listed. */
  method AddTyped(list: seq<string>, stream: seq<Statement>) returns (instances: seq<string>)
    ensures instances == Unique(list, SubjectTexts(stream), [])
  {
    instances := list;
    var j := 0;
    while j < |stream|
      invariant j <= |stream|
      invariant instances == Unique(list, SubjectTexts(stream[..j]), [])
    {
      SubjectTextsStep(list, stream, j);
      var uri := UriText(stream[j].subject);
      if uri !in instances {
        instances := instances + [uri];
      }
      j := j + 1;
    }
    assert stream[..j] == stream;
  }

  lemma TypedInstancesStep(g: seq<Statement>, classes: seq<string>, i: nat, ns: string)
    requires i < |classes|
    ensures TypedInstances(g, classes[..i + 1], ns)
            == TypedInstances(g, classes[..i], ns) + SubjectTexts(Find(g, None, Some(RDF_TYPE), Some(NsTerm(ns, classes[i]))))
  {
    assert classes[..i + 1][..i] == classes[..i];
  }

  lemma SubjectTextsStep(list: seq<string>, stream: seq<Statement>, j: nat)
    requires j < |stream|
    ensures Unique(list, SubjectTexts(stream[..j + 1]), []) == AppendNew(Unique(list, SubjectTexts(stream[..j]), []), UriText(stream[j].subject), [])
  {
    assert stream[..j + 1][..j] == stream[..j];
    UniqueSnoc(list, SubjectTexts(stream[..j]), UriText(stream[j].subject), []);
  }

  lemma StrippedSubjectsStep(list: seq<string>, ns: string, stream: seq<Statement>, i: nat, avoid: seq<string>)
    requires i < |stream|
    ensures Unique(list, StrippedSubjects(ns, stream[..i + 1]), avoid)
            == AppendNew(Unique(list, StrippedSubjects(ns, stream[..i]), avoid), StripNs(ns, UriText(stream[i].subject)), avoid)
  {
    assert stream[..i + 1][..i] == stream[..i];
    UniqueSnoc(list, StrippedSubjects(ns, stream[..i]), StripNs(ns, UriText(stream[i].subject)), avoid);
  }

  lemma {:induction false} StrippedSubjectsMembers(ns: string, stream: seq<Statement>)
    ensures forall x :: x in StrippedSubjects(ns, stream) <==> exists st :: st in stream && x == StripNs(ns, UriText(st.subject))
  {
    if stream != [] {
      StrippedSubjectsMembers(ns, stream[..|stream| - 1]);
      assert forall st :: st in stream <==> st in stream[..|stream| - 1] || st == stream[|stream| - 1];
    }
  }

  /**
   * The instances are listed once each: the subjects typed with a listed
   * class, then the defined resources, stripped of the namespace, that
   * are neither listed classes nor listed properties; so a property is
   * never listed as an instance unless a class types it.
   */
  lemma InstancesExactlyOnce(g: seq<Statement>, classes: seq<string>, properties: seq<string>, ns: string, url: string)
    ensures NoDup(Instances(g, classes, properties, ns, url))
    ensures forall x :: x in Instances(g, classes, properties, ns, url) <==>
      x in TypedInstances(g, classes, ns)
      || (x !in classes && x !in properties && exists st :: st in g && st.pred == RDFS_IS_DEFINED_BY && st.obj == Uri(url)
                                                           && x == StripNs(ns, UriText(st.subject)))
    ensures forall x :: x in Instances(g, classes, properties, ns, url) && x in properties ==> x in TypedInstances(g, classes, ns)
  {
    var typed := TypedInstances(g, classes, ns);
    var first := Unique([], typed, []);
    var defined := DefinedBy(g, url);
    var defs := StrippedSubjects(ns, defined);
    assert NoDup([]);
    UniqueMembers([], typed, []);
    UniqueMembers(first, defs, classes + properties);
    StrippedSubjectsMembers(ns, defined);
    FindMembers(g, None, Some(RDFS_IS_DEFINED_BY), Some(Uri(url)));
    forall x
      ensures x in defs <==> exists st :: st in g && st.pred == RDFS_IS_DEFINED_BY && st.obj == Uri(url) && x == StripNs(ns, UriText(st.subject))
    {
      if x in defs {
        var st :| st in defined && x == StripNs(ns, UriText(st.subject));
        assert Fits(st, None, Some(RDFS_IS_DEFINED_BY), Some(Uri(url)));
      }
      if exists st :: st in g && st.pred == RDFS_IS_DEFINED_BY && st.obj == Uri(url) && x == StripNs(ns, UriText(st.subject)) {
        var st :| st in g && st.pred == RDFS_IS_DEFINED_BY && st.obj == Uri(url) && x == StripNs(ns, UriText(st.subject));
        assert Fits(st, None, Some(RDFS_IS_DEFINED_BY), Some(Uri(url)));
        assert st in defined;
      }
    }
  }

  /**
   * With ns = "http://example.org/ns#", a property p that the ontology
   * defines (ns + "p" rdfs:isDefinedBy <http://example.org/ns>) is listed
   * as an instance by getInstances as written, though the property list
   * holds "p"; the corrected list leaves it out.
   */
  lemma PropertyListedAsInstance()
    ensures InstancesAsWritten([Statement(Uri("http://example.org/ns#p"), RDFS_IS_DEFINED_BY, Uri("http://example.org/ns"))],
                               [], "http://example.org/ns#", "http://example.org/ns") == ["p"]
    ensures Instances([Statement(Uri("http://example.org/ns#p"), RDFS_IS_DEFINED_BY, Uri("http://example.org/ns"))],
                      [], ["p"], "http://example.org/ns#", "http://example.org/ns") == []
  {
    var ns := "http://example.org/ns#";
    var st := Statement(Uri("http://example.org/ns#p"), RDFS_IS_DEFINED_BY, Uri("http://example.org/ns"));
    assert StartsWith("http://example.org/ns#p", ns);
    assert "http://example.org/ns#p"[|ns|..] == "p";
    var url := "http://example.org/ns";
    assert [st][..|[st]| - 1] == [];
    assert Fits(st, None, Some(RDFS_IS_DEFINED_BY), Some(Uri(url)));
    assert Find([st], None, Some(RDFS_IS_DEFINED_BY), Some(Uri(url))) == [] + [st];
    assert DefinedBy([st], url) == [st];
    assert StrippedSubjects(ns, [st]) == [] + ["p"];
    assert Unique([], [], []) == [];
    assert Unique([], ["p"], []) == ["p"];
    assert Unique([], ["p"], ["p"]) == [];
  }
}
