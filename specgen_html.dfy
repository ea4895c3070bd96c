/**
 * The HTML lv2specgen writes: links to terms, the class summary of
 * rdfsClassInfo, the div docTerms writes for each term, and the two term
 * indexes of buildazlist and build_simple_list. A failure of the source
 * (a missing regular-expression match, a non-literal label) is None. What
 * the generator reads from outside the model (owlInfo, rdfsPropertyInfo,
 * rdfsInstanceInfo and the per-term documentation files) is a parameter.
 */
module SpecgenHtml {
  import opened Wrappers
  import opened SpecgenText
  import opened SpecgenGraph

  const VS_TERM_STATUS: Term := Uri("http://www.w3.org/2003/06/sw-vocab-status/ns#term_status")

  /** Both texts, one after the other, when both exist. */
  function Join(a: Option<string>, b: Option<string>): Option<string>
  {
    if a.Some? && b.Some? then Some(a.value + b.value) else None
  }

  /** The monospace link getTermLink writes. */
  function Link(href: string, text: string): string
  {
    "<a href=\"" + href + "\" style=\"font-family: monospace;\">" + text + "</a>"
  }

  /**
   * getTermLink: a URI of the namespace links to "#term_" and the URI with
   * the namespace removed, any other URI to itself; the text is niceName's,
   * so a URI niceName fails on has no link.
   */
  function TermLink(ns: string, nsList: map<string, string>, uri: string): (r: Option<string>)
    requires ns != []
    ensures r.Some? <==> NiceName(nsList, uri).Some?
  {
    match NiceName(nsList, uri)
    case None => None
    case Some(text) => Some(Link(if StartsWith(uri, ns) then "#term_" + RemoveAll(uri, ns) else uri, text))
  }

  /**
   * A term of the registered namespace, whose local name is free of '/'
   * and '#' and does not repeat the namespace, links to the div
   * "term_" + local under the text "prefix:local".
   */
  lemma TermLinkToTerm(ns: string, nsList: map<string, string>, local: string)
    requires ns != [] && ns[|ns| - 1] in "/#" && ns in nsList
    requires local != [] && (forall k :: 0 <= k < |local| ==> local[k] !in "/#") && Free(local, ns)
    ensures TermLink(ns, nsList, ns + local) == Some(Link("#term_" + local, nsList[ns] + ":" + local))
  {
    NiceNameCases(nsList, ns, local);
    RemoveAllOfNsTerm(ns, local);
    assert (ns + local)[..|ns|] == ns;
  }

  /** The "<dd>" items of a list of URIs, one link each; None when a link cannot be made. */
  function DdLinks(ns: string, nsList: map<string, string>, uris: seq<string>): Option<string>
    requires ns != []
  {
    if uris == [] then Some("")
    else Join(DdLinks(ns, nsList, uris[..|uris| - 1]), DdItem(ns, nsList, uris[|uris| - 1]))
  }

  /** One "<dd>" item, when the URI has a link. */
  function DdItem(ns: string, nsList: map<string, string>, uri: string): Option<string>
    requires ns != []
  {
    match TermLink(ns, nsList, uri)
    case None => None
    case Some(link) => Some("<dd>" + link + "</dd>")
  }

  lemma DdLinksStep(ns: string, nsList: map<string, string>, uris: seq<string>, i: nat)
    requires ns != [] && i < |uris|
    ensures DdLinks(ns, nsList, uris[..i + 1]) == Join(DdLinks(ns, nsList, uris[..i]), DdItem(ns, nsList, uris[i]))
  {
    assert uris[..i + 1][..i] == uris[..i];
  }

  /** The items can be written exactly when niceName renders every URI. */
  lemma {:induction false} DdLinksRender(ns: string, nsList: map<string, string>, uris: seq<string>)
    requires ns != []
    ensures DdLinks(ns, nsList, uris).Some? <==> forall u :: u in uris ==> NiceName(nsList, u).Some?
  {
    if uris != [] {
      DdLinksRender(ns, nsList, uris[..|uris| - 1]);
      assert forall u :: u in uris <==> u in uris[..|uris| - 1] || u == uris[|uris| - 1];
    }
  }

  /** One URI without a link spoils the whole list. */
  lemma DdLinksFail(ns: string, nsList: map<string, string>, uris: seq<string>, i: nat)
    requires ns != [] && i < |uris| && TermLink(ns, nsList, uris[i]).None?
    ensures DdLinks(ns, nsList, uris).None?
  {
    DdLinksRender(ns, nsList, uris);
    assert uris[i] in uris;
  }

  /** The loop writing one "<dd>" item per URI. */
  method DdList(ns: string, nsList: map<string, string>, uris: seq<string>) returns (r: Option<string>)
    requires ns != []
    ensures r == DdLinks(ns, nsList, uris)
  {
    var doc := "";
    var i := 0;
    while i < |uris|
      invariant i <= |uris|
      invariant DdLinks(ns, nsList, uris[..i]) == Some(doc)
    {
      DdLinksStep(ns, nsList, uris, i);
      var link := TermLink(ns, nsList, uris[i]);
      if link.None? {
        DdLinksFail(ns, nsList, uris, i);
        return None;
      }
      doc := doc + ("<dd>" + link.value + "</dd>");
      i := i + 1;
    }
    assert uris[..i] == uris;
    return Some(doc);
  }

  /** The URIs of the non-blank objects of a run of statements, in order. */
  function NonBlankObjects(stream: seq<Statement>): seq<string>
  {
    if stream == [] then []
    else
      var st := stream[|stream| - 1];
      NonBlankObjects(stream[..|stream| - 1]) + if st.obj.Blank? then [] else [UriText(st.obj)]
  }

  lemma {:induction false} NonBlankObjectsMembers(stream: seq<Statement>)
    ensures forall u :: u in NonBlankObjects(stream) <==> exists st :: st in stream && !st.obj.Blank? && u == UriText(st.obj)
  {
    if stream != [] {
      NonBlankObjectsMembers(stream[..|stream| - 1]);
      assert forall st :: st in stream <==> st in stream[..|stream| - 1] || st == stream[|stream| - 1];
    }
  }

  /** The statements term rdfs:subClassOf x. */
  function SubClassStatements(g: seq<Statement>, term: string): seq<Statement>
  {
    Find(g, Some(Uri(term)), Some(RDFS_SUBCLASS_OF), None)
  }

  /** The superclasses rdfsClassInfo lists: the non-blank objects of the sub-class statements, once each. */
  function Superclasses(g: seq<Statement>, term: string): seq<string>
  {
    Unique([], NonBlankObjects(SubClassStatements(g, term)), [])
  }

  /** Each non-blank superclass the model states is listed, once, and nothing else is. */
  lemma SuperclassesOnce(g: seq<Statement>, term: string)
    ensures NoDup(Superclasses(g, term))
    ensures forall u :: u in Superclasses(g, term) <==>
      exists st :: st in g && st.subject == Uri(term) && st.pred == RDFS_SUBCLASS_OF && !st.obj.Blank? && u == UriText(st.obj)
  {
    var sub := SubClassStatements(g, term);
    assert NoDup([]);
    UniqueMembers([], NonBlankObjects(sub), []);
    NonBlankObjectsMembers(sub);
    FindMembers(g, Some(Uri(term)), Some(RDFS_SUBCLASS_OF), None);
  }

  /** The loop of rdfsClassInfo collecting the superclasses. */
  method CollectSuperclasses(sub: seq<Statement>) returns (superclasses: seq<string>)
    ensures superclasses == Unique([], NonBlankObjects(sub), [])
  {
    superclasses := [];
    var i := 0;
    while i < |sub|
      invariant i <= |sub|
      invariant superclasses == Unique([], NonBlankObjects(sub[..i]), [])
    {
      var st := sub[i];
      ghost var objs := NonBlankObjects(sub[..i]);
      assert sub[..i + 1][..i] == sub[..i];
      if !st.obj.Blank? {
        var uri := UriText(st.obj);
        assert NonBlankObjects(sub[..i + 1]) == objs + [uri];
        UniqueSnoc([], objs, uri, []);
        if uri !in superclasses {
          superclasses := superclasses + [uri];
        }
      } else {
        assert NonBlankObjects(sub[..i + 1]) == objs + [];
        assert objs + [] == objs;
      }
      i := i + 1;
    }
    assert sub[..i] == sub;
  }

  /** A title and the items under it, or nothing at all when the list is empty. */
  function Titled(title: string, present: bool, items: Option<string>): Option<string>
  {
    if !present then Some("")
    else match items
      case None => None
      case Some(s) => Some(title + s)
  }

  /** A titled section is empty exactly when it is absent. */
  lemma TitledEmpty(title: string, present: bool, items: Option<string>)
    requires title != []
    ensures Titled(title, present, items) == Some("") <==> !present
  {
    if present && items.Some? {
      assert |title + items.value| >= |title| > 0;
    }
  }

  /**
   * rdfsClassInfo: a sub-class-of title when the class has any
   * rdfs:subClassOf statement, followed by its superclasses; then the
   * properties the domain index lists for the class and those the range
   * index lists, each under its title when there are any.
   */
  function ClassInfo(g: seq<Statement>, ns: string, nsList: map<string, string>, term: string,
                     ranges: map<string, seq<string>>, domains: map<string, seq<string>>): Option<string>
    requires ns != []
  {
    Join(Join(Titled("<dt>sub-class-of:</dt>", SubClassStatements(g, term) != [], DdLinks(ns, nsList, Superclasses(g, term))),
              Titled("<dt>in-domain-of:</dt>", Lookup(domains, term) != [], DdLinks(ns, nsList, Lookup(domains, term)))),
         Titled("<dt>in-range-of:</dt>", Lookup(ranges, term) != [], DdLinks(ns, nsList, Lookup(ranges, term))))
  }

  /**
   * The class information is empty, so that docTerms writes no definition
   * list for the class, exactly when the class has no sub-class statement
   * and neither index lists anything for it.
   */
  lemma ClassInfoEmpty(g: seq<Statement>, ns: string, nsList: map<string, string>, term: string,
                       ranges: map<string, seq<string>>, domains: map<string, seq<string>>)
    requires ns != []
    ensures ClassInfo(g, ns, nsList, term, ranges, domains) == Some("") <==>
      SubClassStatements(g, term) == [] && Lookup(domains, term) == [] && Lookup(ranges, term) == []
  {
    var sub := Titled("<dt>sub-class-of:</dt>", SubClassStatements(g, term) != [], DdLinks(ns, nsList, Superclasses(g, term)));
    var dom := Titled("<dt>in-domain-of:</dt>", Lookup(domains, term) != [], DdLinks(ns, nsList, Lookup(domains, term)));
    var ran := Titled("<dt>in-range-of:</dt>", Lookup(ranges, term) != [], DdLinks(ns, nsList, Lookup(ranges, term)));
    TitledEmpty("<dt>sub-class-of:</dt>", SubClassStatements(g, term) != [], DdLinks(ns, nsList, Superclasses(g, term)));
    TitledEmpty("<dt>in-domain-of:</dt>", Lookup(domains, term) != [], DdLinks(ns, nsList, Lookup(domains, term)));
    TitledEmpty("<dt>in-range-of:</dt>", Lookup(ranges, term) != [], DdLinks(ns, nsList, Lookup(ranges, term)));
    assert ClassInfo(g, ns, nsList, term, ranges, domains) == Join(Join(sub, dom), ran);
    if ClassInfo(g, ns, nsList, term, ranges, domains) == Some("") {
      assert |sub.value| + |dom.value| + |ran.value| == 0;
      assert sub == Some("") && dom == Some("") && ran == Some("");
    }
    if sub == Some("") && dom == Some("") && ran == Some("") {
      assert "" + "" == "";
    }
  }

  /** The class information can be written exactly when niceName renders every superclass and every indexed property. */
  lemma ClassInfoRenders(g: seq<Statement>, ns: string, nsList: map<string, string>, term: string,
                         ranges: map<string, seq<string>>, domains: map<string, seq<string>>)
    requires ns != []
    ensures ClassInfo(g, ns, nsList, term, ranges, domains).Some? <==>
      forall u :: u in Superclasses(g, term) + Lookup(domains, term) + Lookup(ranges, term) ==> NiceName(nsList, u).Some?
  {
    DdLinksRender(ns, nsList, Superclasses(g, term));
    DdLinksRender(ns, nsList, Lookup(domains, term));
    DdLinksRender(ns, nsList, Lookup(ranges, term));
    if SubClassStatements(g, term) == [] {
      assert Superclasses(g, term) == [];
    }
  }

  /** rdfsClassInfo, reading the two indices specInformation fills. */
  method RdfsClassInfo(g: seq<Statement>, ns: string, nsList: map<string, string>, term: string, ranges: Index, domains: Index)
    returns (doc: Option<string>)
    requires ns != []
    ensures doc == ClassInfo(g, ns, nsList, term, ranges.entries, domains.entries)
  {
    var subPart := SubClassSection(g, ns, nsList, term);
    var domPart := TitledList(ns, nsList, "<dt>in-domain-of:</dt>", Lookup(domains.entries, term));
    var ranPart := TitledList(ns, nsList, "<dt>in-range-of:</dt>", Lookup(ranges.entries, term));
    if subPart.None? || domPart.None? || ranPart.None? {
      return None;
    }
    return Some(subPart.value + domPart.value + ranPart.value);
  }

  /** The sub-class-of section of rdfsClassInfo: the title and the superclasses when the class has an rdfs:subClassOf statement. */
  method SubClassSection(g: seq<Statement>, ns: string, nsList: map<string, string>, term: string) returns (part: Option<string>)
    requires ns != []
    ensures part == Titled("<dt>sub-class-of:</dt>", SubClassStatements(g, term) != [], DdLinks(ns, nsList, Superclasses(g, term)))
  {
    var sub := Find(g, Some(Uri(term)), Some(RDFS_SUBCLASS_OF), None);
    if sub == [] {
      return Some("");
    }
    var superclasses := CollectSuperclasses(sub);
    var items := DdList(ns, nsList, superclasses);
    if items.None? {
      return None;
    }
    return Some("<dt>sub-class-of:</dt>" + items.value);
  }

  /** The domain and range sections of rdfsClassInfo: the title and one item per property, or nothing for no property. */
  method TitledList(ns: string, nsList: map<string, string>, title: string, uris: seq<string>) returns (part: Option<string>)
    requires ns != []
    ensures part == Titled(title, uris != [], DdLinks(ns, nsList, uris))
  {
    if uris == [] {
      return Some("");
    }
    var items := DdList(ns, nsList, uris);
    if items.None? {
      return None;
    }
    return Some(title + items.value);
  }

  /**
   * get_rdfs and get_status: the text of the first statement term pred x,
   * "" when there is none, and None when its object is not a literal, whose
   * literal value the source cannot index.
   */
  function FirstLiteral(g: seq<Statement>, term: Term, pred: Term): (r: Option<string>)
    ensures r.Some? && r.value != "" ==> Statement(term, pred, Literal(r.value)) in g
    ensures (forall st :: st in g ==> st.subject != term || st.pred != pred) ==> r == Some("")
  {
    var found := Find(g, Some(term), Some(pred), None);
    FindMembers(g, Some(term), Some(pred), None);
    if found == [] then Some("")
    else
      assert found[0] in found;
      if found[0].obj.Literal? then Some(found[0].obj.text) else None
  }

  /** What docTerms derives from a listed term: the URI it documents, the name its div and documentation go by, and the compact name in its heading. */
  datatype Heading = Heading(uri: string, name: string, curie: string)

  /** docTerms as written: an in-namespace URI is named by t.split(ns[-1])[1]. */
  function HeadingAsWritten(ns: string, pre: string, t: string): Heading
    requires ns != []
  {
    if StartsWith(t, ns) && '/' !in t[|ns|..] then Heading(t, SplitLocal(ns, t), pre + ":" + SplitLocal(ns, t))
    else if StartsWith(t, "http://") then Heading(t, Anchor(ns, t), ShortName(t))
    else Heading(ns + t, t, pre + ":" + t)
  }

  /**
   * docTerms with an in-namespace URI named by its namespace-relative part:
   * a full URI of the namespace whose rest has no '/', any other http URI,
   * or a bare name, which is a term of the namespace.
   */
  function HeadingOf(ns: string, pre: string, t: string): Heading
    requires ns != []
  {
    if StartsWith(t, ns) && '/' !in t[|ns|..] then Heading(t, LocalPart(ns, t), pre + ":" + LocalPart(ns, t))
    else if StartsWith(t, "http://") then Heading(t, Anchor(ns, t), ShortName(t))
    else Heading(ns + t, t, pre + ":" + t)
  }

  /**
   * The div of a term is named as getAnchor names the term, so the links
   * of the instance index reach it: this holds for every URI of the
   * namespace whose rest has no '/', every http URI, and every bare name
   * free of '/' and '#'.
   */
  lemma HeadingMatchesAnchor(ns: string, pre: string, t: string)
    requires ns != []
    requires (StartsWith(t, ns) && '/' !in t[|ns|..]) || StartsWith(t, "http://") || ('#' !in t && '/' !in t)
    ensures HeadingOf(ns, pre, t).name == Anchor(ns, t)
  {
    AnchorCases(ns, t);
  }

  /**
   * With the namespace "http://example.org/ns/", docTerms as written names
   * the div of the instance "http://example.org/ns/X" "" (the text between
   * the first two '/'), while the instance index links to "#term_X".
   */
  lemma SlashNamespaceNamedEmpty()
    ensures HeadingAsWritten("http://example.org/ns/", "ex", "http://example.org/ns/X").name == ""
    ensures Anchor("http://example.org/ns/", "http://example.org/ns/X") == "X"
    ensures HeadingOf("http://example.org/ns/", "ex", "http://example.org/ns/X").name == "X"
  {
    var ns := "http://example.org/ns/";
    var t := "http://example.org/ns/X";
    assert StartsWith(t, ns) && t[|ns|..] == "X";
    HttpSecondFieldEmpty(t);
    AnchorCases(ns, t);
  }

  /** Splitting an http URI on '/' gives "" between the two slashes after "http:". */
  lemma HttpSecondFieldEmpty(t: string)
    requires StartsWith(t, "http://")
    ensures '/' in t && SecondField(t, '/') == ""
  {
    HttpAfterFirst(t);
  }

  /** The text after the first '/' of an http URI starts with the second '/'. */
  lemma HttpAfterFirst(t: string)
    requires StartsWith(t, "http://")
    ensures '/' in t && AfterFirst(t, '/') == t[6..] && t[6] == '/'
  {
    assert t[..7] == "http://";
    assert t[0] != '/' && t[1] != '/' && t[2] != '/' && t[3] != '/' && t[4] != '/' && t[5] == '/' && t[6] == '/';
    var r := AfterFirst(t, '/');
    var k := |t| - |r| - 1;
    assert k <= 5;
    assert k == 5 by {
      assert t[k] == '/';
    }
  }

  datatype Category = PropertyTerm | ClassTerm | InstanceTerm

  function CategoryName(c: Category): string
  {
    match c
    case PropertyTerm => "Property"
    case ClassTerm => "Class"
    case InstanceTerm => "Instance"
  }

  /**
   * The ontology and what docTerms reads from outside the model: owlInfo
   * and rdfsPropertyInfo of a property, rdfsInstanceInfo of an instance,
   * and htmlDocInfo's documentation of a name.
   */
  datatype Context = Context(g: seq<Statement>, ns: string, pre: string, nsList: map<string, string>,
                             propertyInfo: string -> string, instanceInfo: string -> string, docs: string -> string)

  /** The term information of the category: rdfsClassInfo for a class. */
  function TermInfo(ctx: Context, cat: Category, uri: string, ranges: map<string, seq<string>>, domains: map<string, seq<string>>): Option<string>
    requires ctx.ns != []
  {
    match cat
    case PropertyTerm => Some(ctx.propertyInfo(uri))
    case ClassTerm => ClassInfo(ctx.g, ctx.ns, ctx.nsList, uri, ranges, domains)
    case InstanceTerm => Some(ctx.instanceInfo(uri))
  }

  const BACK_TO_TOP: string := "<p style=\"float: right; font-size: small;\">[<a href=\"#sec-glance\">back to top</a>]</p>\n\n"

  /**
   * One term's div in docTerms: the heading, the label paragraph, the
   * comment paragraph when there is a comment, the definition list when
   * the term information is not empty, the documentation and the link
   * back to the top.
   */
  function TermDiv(ctx: Context, cat: Category, t: string, ranges: map<string, seq<string>>, domains: map<string, seq<string>>): Option<string>
    requires ctx.ns != []
  {
    var h := HeadingOf(ctx.ns, ctx.pre, t);
    var labelText := FirstLiteral(ctx.g, Uri(h.uri), RDFS_LABEL);
    var comment := FirstLiteral(ctx.g, Uri(h.uri), RDFS_COMMENT);
    var status := FirstLiteral(ctx.g, Uri(h.uri), VS_TERM_STATUS);
    var info := TermInfo(ctx, cat, h.uri, ranges, domains);
    if labelText.None? || comment.None? || status.None? || info.None? then None
    else Some(DivId(h.name) + DivBody(h, cat, labelText.value, comment.value, info.value, ctx.docs(h.name)))
  }

  /** The opening tag of a term's div, which carries the div's id. */
  function DivId(name: string): string
  {
    "<div class=\"specterm\" id=\"term_" + name + "\">"
  }

  /**
   * A block written only when its body is not empty: the comment paragraph
   * and the definition list of the term information (bug #882 of the
   * generator) are both of this shape.
   */
  function NonEmptyBlock(open: string, body: string, close: string): (r: string)
    ensures r == "" <==> body == ""
    ensures body != "" ==> |r| == |open| + |body| + |close| && r[|open|..|open| + |body|] == body
  {
    if body != "" then open + body + close else ""
  }

  /** The rest of a term's div: its heading, the label, comment and information, the documentation and the way back to the top. */
  function DivBody(h: Heading, cat: Category, labelText: string, comment: string, info: string, docs: string): string
  {
    "\n<h3>" + CategoryName(cat) + ": <a href=\"" + h.uri + "\">" + h.curie + "</a></h3>\n"
    + "<p><em>" + labelText + "</em></p>" + NonEmptyBlock("<p>", comment, "</p>") + NonEmptyBlock("\n<dl>", info, "</dl>\n") + docs + BACK_TO_TOP + "\n\n</div>\n\n"
  }

  /** Every div docTerms writes opens with the id "term_" + the term's name. */
  lemma TermDivOpens(ctx: Context, cat: Category, t: string, ranges: map<string, seq<string>>, domains: map<string, seq<string>>)
    requires ctx.ns != []
    ensures TermDiv(ctx, cat, t, ranges, domains).Some? ==>
      StartsWith(TermDiv(ctx, cat, t, ranges, domains).value, DivId(HeadingOf(ctx.ns, ctx.pre, t).name))
  {
    if TermDiv(ctx, cat, t, ranges, domains).Some? {
      var open := DivId(HeadingOf(ctx.ns, ctx.pre, t).name);
      var doc := TermDiv(ctx, cat, t, ranges, domains).value;
      assert doc[..|open|] == open;
    }
  }

  /** docTerms: the divs of the listed terms, in order. */
  function TermDivs(ctx: Context, cat: Category, list: seq<string>, ranges: map<string, seq<string>>, domains: map<string, seq<string>>): Option<string>
    requires ctx.ns != []
  {
    if list == [] then Some("")
    else Join(TermDivs(ctx, cat, list[..|list| - 1], ranges, domains), TermDiv(ctx, cat, list[|list| - 1], ranges, domains))
  }

  /** The page section can be written exactly when every listed term's div can. */
  lemma {:induction false} TermDivsRender(ctx: Context, cat: Category, list: seq<string>, ranges: map<string, seq<string>>, domains: map<string, seq<string>>)
    requires ctx.ns != []
    ensures TermDivs(ctx, cat, list, ranges, domains).Some? <==> forall t :: t in list ==> TermDiv(ctx, cat, t, ranges, domains).Some?
  {
    if list != [] {
      TermDivsRender(ctx, cat, list[..|list| - 1], ranges, domains);
      assert forall t :: t in list <==> t in list[..|list| - 1] || t == list[|list| - 1];
    }
  }

  lemma TermDivsStep(ctx: Context, cat: Category, list: seq<string>, i: nat, ranges: map<string, seq<string>>, domains: map<string, seq<string>>)
    requires ctx.ns != [] && i < |list|
    ensures TermDivs(ctx, cat, list[..i + 1], ranges, domains) == Join(TermDivs(ctx, cat, list[..i], ranges, domains), TermDiv(ctx, cat, list[i], ranges, domains))
  {
    assert list[..i + 1][..i] == list[..i];
  }

  /** One div that cannot be written spoils the whole section. */
  lemma TermDivsFail(ctx: Context, cat: Category, list: seq<string>, i: nat, ranges: map<string, seq<string>>, domains: map<string, seq<string>>)
    requires ctx.ns != [] && i < |list| && TermDiv(ctx, cat, list[i], ranges, domains).None?
    ensures TermDivs(ctx, cat, list, ranges, domains).None?
  {
    TermDivsRender(ctx, cat, list, ranges, domains);
    assert list[i] in list;
  }

  /** One iteration of docTerms. */
  method RenderTerm(ctx: Context, cat: Category, t: string, ranges: Index, domains: Index) returns (doc: Option<string>)
    requires ctx.ns != []
    ensures doc == TermDiv(ctx, cat, t, ranges.entries, domains.entries)
  {
    var h := HeadingOf(ctx.ns, ctx.pre, t);
    var labelText := FirstLiteral(ctx.g, Uri(h.uri), RDFS_LABEL);
    var comment := FirstLiteral(ctx.g, Uri(h.uri), RDFS_COMMENT);
    var status := FirstLiteral(ctx.g, Uri(h.uri), VS_TERM_STATUS);
    var info: Option<string>;
    match cat {
      case PropertyTerm => info := Some(ctx.propertyInfo(h.uri));
      case ClassTerm => info := RdfsClassInfo(ctx.g, ctx.ns, ctx.nsList, h.uri, ranges, domains);
      case InstanceTerm => info := Some(ctx.instanceInfo(h.uri));
    }
    if labelText.None? || comment.None? || status.None? || info.None? {
      return None;
    }
    return Some(DivId(h.name) + DivBody(h, cat, labelText.value, comment.value, info.value, ctx.docs(h.name)));
  }

  /** docTerms: the loop over the listed terms. */
  method DocTerms(ctx: Context, cat: Category, list: seq<string>, ranges: Index, domains: Index) returns (doc: Option<string>)
    requires ctx.ns != []
    ensures doc == TermDivs(ctx, cat, list, ranges.entries, domains.entries)
  {
    var text := "";
    var i := 0;
    while i < |list|
      invariant i <= |list|
      invariant TermDivs(ctx, cat, list[..i], ranges.entries, domains.entries) == Some(text)
    {
      TermDivsStep(ctx, cat, list, i, ranges.entries, domains.entries);
      var div := RenderTerm(ctx, cat, list[i], ranges, domains);
      if div.None? {
        TermDivsFail(ctx, cat, list, i, ranges.entries, domains.entries);
        return None;
      }
      text := text + div.value;
      i := i + 1;
    }
    assert list[..i] == list;
    return Some(text);
  }

  /** buildazlist as written: an in-namespace class or property is named by c.split(ns[-1])[1]. */
  function AzNameAsWritten(ns: string, c: string): string
    requires ns != []
  {
    if StartsWith(c, ns) then SplitLocal(ns, c) else c
  }

  /**
   * The name of a class or property in the index, corrected: an
   * in-namespace URI is cut to its namespace-relative part.
   */
  function AzName(ns: string, c: string): string
  {
    if StartsWith(c, ns) then LocalPart(ns, c) else c
  }

  /**
   * As written, with an http namespace ending in '/', every class and
   * property of the namespace is named "" in the index and linked to
   * "#term_", so no two of them can be told apart; corrected, the name is
   * the namespace-relative part, as in "http://example.org/ns/X", named
   * "X".
   */
  lemma SlashNamespaceIndexedEmpty(ns: string, c: string)
    requires StartsWith(ns, "http://") && ns[|ns| - 1] == '/'
    requires StartsWith(c, ns)
    ensures AzNameAsWritten(ns, c) == ""
    ensures AzLink(AzNameAsWritten(ns, c), AzNameAsWritten(ns, c)) == " <a href=\"#term_\"></a>, "
    ensures AzName("http://example.org/ns/", "http://example.org/ns/X") == "X"
  {
    assert StartsWith(c, "http://") by {
      assert c[..|"http://"|] == ns[..|"http://"|];
    }
    HttpSecondFieldEmpty(c);
    var n := "http://example.org/ns/";
    assert StartsWith("http://example.org/ns/X", n) && "http://example.org/ns/X"[|n|..] == "X";
  }

  /**
   * The index link of a class or property reaches its div: for a bare name
   * not starting with "http://", and for a URI of the namespace whose rest
   * has no '/'.
   */
  lemma AzNameMatchesHeading(ns: string, pre: string, c: string)
    requires ns != []
    requires (StartsWith(c, ns) && '/' !in c[|ns|..]) || (!StartsWith(c, ns) && !StartsWith(c, "http://"))
    ensures AzName(ns, c) == HeadingOf(ns, pre, c).name
  {
  }

  function AzLink(anchor: string, text: string): string
  {
    " <a href=\"#term_" + anchor + "\">" + text + "</a>, "
  }

  /** The links of a run of class or property names. */
  function AzLinks(ns: string, names: seq<string>): string
  {
    if names == [] then ""
    else AzLinks(ns, names[..|names| - 1]) + AzLink(AzName(ns, names[|names| - 1]), AzName(ns, names[|names| - 1]))
  }

  /** The links of a run of instances: the anchor getAnchor gives, under the short name. */
  function InstanceLinks(ns: string, instances: seq<string>): string
  {
    if instances == [] then ""
    else InstanceLinks(ns, instances[..|instances| - 1]) + AzLink(Anchor(ns, instances[|instances| - 1]), ShortName(instances[|instances| - 1]))
  }

  lemma InstanceLinksStep(ns: string, instances: seq<string>, i: nat)
    requires i < |instances|
    ensures InstanceLinks(ns, instances[..i + 1]) == InstanceLinks(ns, instances[..i]) + AzLink(Anchor(ns, instances[i]), ShortName(instances[i]))
  {
    assert instances[..i + 1][..i] == instances[..i];
  }

  const AZ_OPEN: string := "<div style=\"padding: 1em; border: dotted; background-color: #ddd;\">"

  /** A section of the index: written only when its list is non-empty. */
  function AzSection(title: string, present: bool, links: string): string
  {
    if present then title + links + "\n</p>" else ""
  }

  /** The instance list, when one is given; otherwise nothing. */
  function Given(instances: Option<seq<string>>): seq<string>
  {
    if instances.Some? then instances.value else []
  }

  /** buildazlist over lists already sorted: a section for each non-empty list, instances only when given. */
  function AzList(ns: string, classes: seq<string>, props: seq<string>, instances: Option<seq<string>>): string
  {
    AZ_OPEN
    + AzSection("<p>Classes: ", classes != [], AzLinks(ns, classes))
    + AzSection("<p>Properties: ", props != [], AzLinks(ns, props))
    + AzSection("<p>Instances: ", Given(instances) != [], InstanceLinks(ns, Given(instances)))
    + "\n</div>"
  }

  /** The index is an empty box exactly when there is nothing to list. */
  lemma AzListEmpty(ns: string, classes: seq<string>, props: seq<string>, instances: Option<seq<string>>)
    ensures AzList(ns, classes, props, instances) == AZ_OPEN + "\n</div>" <==>
      classes == [] && props == [] && (instances.None? || instances.value == [])
  {
    var c := AzSection("<p>Classes: ", classes != [], AzLinks(ns, classes));
    var p := AzSection("<p>Properties: ", props != [], AzLinks(ns, props));
    var i := AzSection("<p>Instances: ", Given(instances) != [], InstanceLinks(ns, Given(instances)));
    assert |AzList(ns, classes, props, instances)| == |AZ_OPEN| + |c| + |p| + |i| + |"\n</div>"|;
    assert classes != [] ==> |c| > 0;
    assert props != [] ==> |p| > 0;
    assert Given(instances) != [] ==> |i| > 0;
  }

  /** Appending a section's title, links and closing tag piece by piece writes the section. */
  lemma SectionAppended(azlist: string, title: string, links: string)
    ensures azlist + title + links + "\n</p>" == azlist + AzSection(title, true, links)
  {
    Assoc(azlist, title, links);
    Assoc(azlist, title + links, "\n</p>");
  }

  lemma AzLinksStep(ns: string, names: seq<string>, i: nat)
    requires i < |names|
    ensures AzLinks(ns, names[..i + 1]) == AzLinks(ns, names[..i]) + AzLink(AzName(ns, names[i]), AzName(ns, names[i]))
  {
    assert names[..i + 1][..i] == names[..i];
  }

  lemma Assoc(a: string, b: string, c: string)
    ensures a + (b + c) == a + b + c
  {
  }

  /** The loop of buildazlist appending the links of a class or property list. */
  method AppendAzLinks(azlist: string, ns: string, names: seq<string>) returns (r: string)
    ensures r == azlist + AzLinks(ns, names)
  {
    r := azlist;
    var i := 0;
    while i < |names|
      invariant i <= |names|
      invariant r == azlist + AzLinks(ns, names[..i])
    {
      assert names[..i + 1][..i] == names[..i];
      var c := names[i];
      if StartsWith(c, ns) {
        c := c[|ns|..];
      }
      AzLinksStep(ns, names, i);
      Assoc(azlist, AzLinks(ns, names[..i]), AzLink(c, c));
      r := r + AzLink(c, c);
      i := i + 1;
    }
    assert names[..i] == names;
  }

  /** The loop of buildazlist appending the instance links. */
  method AppendInstanceLinks(azlist: string, ns: string, instances: seq<string>) returns (r: string)
    ensures r == azlist + InstanceLinks(ns, instances)
  {
    r := azlist;
    var i := 0;
    while i < |instances|
      invariant i <= |instances|
      invariant r == azlist + InstanceLinks(ns, instances[..i])
    {
      InstanceLinksStep(ns, instances, i);
      var p := ShortName(instances[i]);
      var anchor := Anchor(ns, instances[i]);
      Assoc(azlist, InstanceLinks(ns, instances[..i]), AzLink(anchor, p));
      r := r + AzLink(anchor, p);
      i := i + 1;
    }
    assert instances[..i] == instances;
  }

  /**
   * buildazlist: sorts the class and the property list, which the caller
   * sees sorted, and writes the index over them.
   */
  method BuildAzList(ns: string, classlist: seq<string>, proplist: seq<string>, instalist: Option<seq<string>>)
    returns (azlist: string, classes: seq<string>, props: seq<string>)
    ensures Sorted(classes) && multiset(classes) == multiset(classlist)
    ensures Sorted(props) && multiset(props) == multiset(proplist)
    ensures azlist == AzList(ns, classes, props, instalist)
  {
    azlist := AZ_OPEN;
    azlist, classes := AppendSortedSection(azlist, ns, "<p>Classes: ", classlist);
    azlist, props := AppendSortedSection(azlist, ns, "<p>Properties: ", proplist);
    azlist := AppendInstanceSection(azlist, ns, instalist);
    azlist := azlist + "\n</div>";
  }

  /** The instance section of buildazlist: nothing when no instance list is given or it is empty, else the title and the links. */
  method AppendInstanceSection(azlist: string, ns: string, instalist: Option<seq<string>>) returns (r: string)
    ensures r == azlist + AzSection("<p>Instances: ", Given(instalist) != [], InstanceLinks(ns, Given(instalist)))
  {
    r := azlist;
    if instalist.Some? && |instalist.value| > 0 {
      r := r + "<p>Instances: ";
      r := AppendInstanceLinks(r, ns, instalist.value);
      r := r + "\n</p>";
      SectionAppended(azlist, "<p>Instances: ", InstanceLinks(ns, instalist.value));
    }
  }

  /** A class or property section of buildazlist: nothing for an empty list, else the title and the links of the list, which is sorted first. */
  method AppendSortedSection(azlist: string, ns: string, title: string, names: seq<string>) returns (r: string, sorted: seq<string>)
    ensures Sorted(sorted) && multiset(sorted) == multiset(names)
    ensures r == azlist + AzSection(title, sorted != [], AzLinks(ns, sorted))
  {
    r := azlist;
    sorted := names;
    if |names| > 0 {
      r := r + title;
      sorted := Sort(names);
      r := AppendAzLinks(r, ns, sorted);
      r := r + "\n</p>";
      SectionAppended(azlist, title, AzLinks(ns, sorted));
    }
  }

  /** The items of build_simple_list: the anchor is the name without spaces. */
  function SimpleItems(names: seq<string>): string
  {
    if names == [] then ""
    else
      SimpleItems(names[..|names| - 1]) + SimpleItem(names[|names| - 1])
  }

  function SimpleItem(c: string): string
  {
    "\n  <li><a href=\"#term_" + DeleteChar(c, ' ') + "\">" + c + "</a></li>"
  }

  lemma SimpleItemsStep(names: seq<string>, i: nat)
    requires i < |names|
    ensures SimpleItems(names[..i + 1]) == SimpleItems(names[..i]) + SimpleItem(names[i])
  {
    assert names[..i + 1][..i] == names[..i];
  }

  /** build_simple_list over lists already sorted: both sections always, instances never. */
  function SimpleList(classes: seq<string>, props: seq<string>): string
  {
    "<div style=\"padding: 5px; border: dotted; background-color: #ddd;\">" + "\n<p>Classes:" + "\n<ul>" + SimpleItems(classes) + "\n</ul></p>"
    + "\n<p>Properties:" + "\n<ul>" + SimpleItems(props) + "\n</ul></p>" + "\n</div>"
  }

  /** The anchor of a bare name without spaces reaches its div. */
  lemma SimpleAnchorMatchesHeading(ns: string, pre: string, c: string)
    requires ns != [] && ' ' !in c && !StartsWith(c, ns) && !StartsWith(c, "http://")
    ensures DeleteChar(c, ' ') == HeadingOf(ns, pre, c).name
  {
  }

  /** The loop of build_simple_list over one list. */
  method AppendSimpleItems(azlist: string, names: seq<string>) returns (r: string)
    ensures r == azlist + SimpleItems(names)
  {
    r := azlist;
    var i := 0;
    while i < |names|
      invariant i <= |names|
      invariant r == azlist + SimpleItems(names[..i])
    {
      SimpleItemsStep(names, i);
      Assoc(azlist, SimpleItems(names[..i]), SimpleItem(names[i]));
      r := r + SimpleItem(names[i]);
      i := i + 1;
    }
    assert names[..i] == names;
  }

  /** build_simple_list: sorts both lists, which the caller sees sorted, and ignores the instances. */
  method BuildSimpleList(classlist: seq<string>, proplist: seq<string>, instalist: Option<seq<string>>)
    returns (azlist: string, classes: seq<string>, props: seq<string>)
    ensures Sorted(classes) && multiset(classes) == multiset(classlist)
    ensures Sorted(props) && multiset(props) == multiset(proplist)
    ensures azlist == SimpleList(classes, props)
  {
    azlist := "<div style=\"padding: 5px; border: dotted; background-color: #ddd;\">";
    azlist := azlist + "\n<p>Classes:";
    azlist := azlist + "\n<ul>";
    classes := Sort(classlist);
    azlist := AppendSimpleItems(azlist, classes);
    azlist := azlist + "\n</ul></p>";
    azlist := azlist + "\n<p>Properties:";
    azlist := azlist + "\n<ul>";
    props := Sort(proplist);
    azlist := AppendSimpleItems(azlist, props);
    azlist := azlist + "\n</ul></p>";
    azlist := azlist + "\n</div>";
  }
}
