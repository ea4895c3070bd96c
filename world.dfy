/**
 * redlandmm's World: the library state shared by models. The model keeps
 * its prefix table, the counter behind numbered blank nodes, and the set
 * of blank names already handed out, which no operation ever fills. The
 * librdf world, the mutex and the Node object built around a blank name
 * are not part of the model. World.hpp's inline definitions and
 * World.cpp's out-of-line ones are the same code.
 */
module RedlandWorld {
  import opened Wrappers
  import opened Prefixes

  /** expand_uri: a URI without ':' as it is; otherwise the expansion by the first matching prefix, or the URI as it is. */
  function ExpandUri(prefixes: map<string, string>, uri: string): (r: string)
  {
    if ':' !in uri then uri
    else match Expand(prefixes, uri)
      case None => uri
      case Some(e) => e
  }

  /**
   * A URI without ':' is returned unchanged; "p:rest" with p registered
   * and free of ':' becomes p's namespace followed by rest; a URI no
   * registered prefix matches is returned unchanged.
   */
  lemma ExpandUriCases(prefixes: map<string, string>, uri: string, p: string, rest: string)
    ensures ':' !in uri ==> ExpandUri(prefixes, uri) == uri
    ensures p in prefixes && ':' !in p ==> ExpandUri(prefixes, p + ":" + rest) == prefixes[p] + rest
    ensures (forall q :: q in prefixes ==> !Matches(q, uri)) ==> ExpandUri(prefixes, uri) == uri
  {
    ExpandIsFirstInKeyOrder(prefixes, uri);
    if p in prefixes && ':' !in p {
      ExpandRegistered(prefixes, p, rest);
      assert (p + ":" + rest)[|p|] == ':';
    }
  }

  /** The name for the i-th retry of a taken blank name. */
  function Retry(i: nat): string
  {
    "_" + NatToString(i)
  }

  /** The retry names for 2 up to n - 1. */
  ghost function Retries(n: nat): set<string>
  {
    set i: nat | 2 <= i < n :: Retry(i)
  }

  /** Retries(n) has n - 2 distinct names from 2 on, and Retries(n + 1) adds exactly Retry(n). */
  lemma {:induction false} RetriesGrow(n: nat)
    requires n >= 2
    ensures Retries(n + 1) == Retries(n) + {Retry(n)} && Retry(n) !in Retries(n)
    ensures |Retries(n + 1)| == |Retries(n)| + 1
  {
    assert Retries(n + 1) == Retries(n) + {Retry(n)};
    if Retry(n) in Retries(n) {
      var i: nat :| 2 <= i < n && Retry(i) == Retry(n);
      assert NatToString(i) == Retry(i)[1..] == Retry(n)[1..] == NatToString(n);
      NatToStringInjective(i, n);
    }
  }

  /** A subset has no more elements than its superset. */
  lemma SubsetCard(a: set<string>, b: set<string>)
    requires a <= b
    ensures |a| <= |b|
  {
    assert b == a + (b - a);
  }

  class World {
    var prefixes: map<string, string>
    var nextBlankId: nat
    /** The blank names handed out; nothing adds to it. */
    var blankIds: set<string>

    /** A new world has only the "rdf" prefix, counts blank ids from 0, and has handed out no blank name. */
    constructor ()
      ensures prefixes == map["rdf" := RDF_NS] && nextBlankId == 0 && blankIds == {}
      ensures ExpandUri(prefixes, "rdf:type") == RDF_NS + "type"
    {
      prefixes := map["rdf" := RDF_NS];
      nextBlankId := 0;
      blankIds := {};
      ExpandUriCases(map["rdf" := RDF_NS], "", "rdf", "type");
      assert "rdf" + ":" + "type" == "rdf:type";
    }

    /** add_prefix: registers the prefix, replacing any namespace it had. */
    method AddPrefix(prefix: string, uri: string)
      modifies this`prefixes
      ensures prefixes == old(prefixes)[prefix := uri]
    {
      prefixes := prefixes[prefix := uri];
    }

    /** blank_id(): the counter's value, then the counter moves on. */
    method NextBlankId() returns (id: nat)
      modifies this`nextBlankId
      ensures id == old(nextBlankId) && nextBlankId == id + 1
    {
      id := nextBlankId;
      nextBlankId := nextBlankId + 1;
    }

    /**
     * blank_id(base_name): "" or "b" give "b" and the counter, which moves
     * on. Any other base is taken as it is unless already handed out.
     */
    method BlankId(baseName: string) returns (name: string)
      modifies this`nextBlankId
      ensures baseName in {"", "b"} ==> name == "b" + NatToString(old(nextBlankId)) && nextBlankId == old(nextBlankId) + 1
      ensures baseName !in {"", "b"} ==> name !in blankIds && nextBlankId == old(nextBlankId)
      ensures baseName !in {"", "b"} && baseName !in blankIds ==> name == baseName
    {
      if baseName != "" && baseName != "b" {
        name := FreeName(baseName);
      } else {
        name := "b" + NatToString(nextBlankId);
        nextBlankId := nextBlankId + 1;
      }
    }

    /**
     * The search in blank_id(base_name): the base when it is free, else the
     * first of "_2", "_3", ... that is free. There always is one, since
     * only finitely many names have been handed out.
     */
    method FreeName(baseName: string) returns (name: string)
      ensures name !in blankIds
      ensures baseName !in blankIds ==> name == baseName
      ensures baseName in blankIds ==> exists i :: i >= 2 && name == Retry(i)
    {
      name := baseName;
      var i: nat := 2;
      while name in blankIds
        invariant i >= 2 && Retries(i - 1) <= blankIds && |Retries(i - 1)| <= |blankIds|
        invariant name == if i == 2 then baseName else Retry(i - 1)
        invariant i > 2 ==> baseName in blankIds
        decreases |blankIds| - |Retries(i - 1)|, if i == 2 then 1 else 0
      {
        if i > 2 {
          RetriesGrow(i - 1);
        } else {
          assert Retries(i - 1) == {} == Retries(i);
        }
        assert Retries(i) <= blankIds;
        SubsetCard(Retries(i), blankIds);
        name := Retry(i);
        i := i + 1;
      }
    }
  }
}
