/**
 * redlandmm's Model and Delta. A Model is a set of RDF statements held by
 * librdf, a base URI and the World it lives in. A Delta between two models
 * of one world holds the statements removed (in the first, not in the
 * second) and the statements added (in the second, not in the first), and
 * serialises them as changesets: each resource subject gets a change
 * record with a changeset node and, per side, a stand-in node that
 * carries the changed properties; each blank node gets one stand-in per
 * side, shared by every statement that mentions it.
 *
 * A librdf model's statements are a sequence without duplicates: adding a
 * statement already present changes nothing. Nodes that librdf creates
 * itself (librdf_new_node) are Anonymous nodes numbered by a counter the
 * caller supplies; the change sets are matched by node value.
 */
module RedlandDelta {
  import opened Wrappers
  import opened RedlandWorld

  const CS_NS: string := "http://purl.org/vocab/changeset/schema#"

  /** An RDF node; Nil is a Node whose librdf node is NULL. */
  datatype Node = Resource(uri: string) | Literal(text: string) | Blank(id: string) | Anonymous(n: nat) | Nil

  predicate IsBlank(n: Node)
  {
    n.Blank? || n.Anonymous?
  }

  datatype Triple = Triple(subject: Node, pred: Node, obj: Node)

  /**
   * librdf_model_add_statement for each statement in turn, where a
   * statement already in the model is not added again.
   */
  function AddAll(statements: seq<Triple>, added: seq<Triple>): (r: seq<Triple>)
    ensures |statements| <= |r| <= |statements| + |added|
    ensures r[..|statements|] == statements
  {
    if added == [] then statements
    else
      var m := AddAll(statements, added[..|added| - 1]);
      var t := added[|added| - 1];
      if t in m then m else m + [t]
  }

  /** The model afterwards holds exactly what it held and what was added. */
  lemma {:induction false} AddAllMembers(statements: seq<Triple>, added: seq<Triple>)
    ensures forall x :: x in AddAll(statements, added) <==> x in statements || x in added
  {
    if added != [] {
      AddAllMembers(statements, added[..|added| - 1]);
      assert forall x :: x in added <==> x in added[..|added| - 1] || x == added[|added| - 1];
    }
  }

  /** What add_statement adds: nothing when the object is NULL. */
  function Put(t: Triple): (r: seq<Triple>)
    ensures r == [] <==> t.obj.Nil?
    ensures forall x :: x in r ==> x == t
  {
    if t.obj.Nil? then [] else [t]
  }

  /** Adding two lists in turn is adding their concatenation. */
  lemma {:induction false} AddAllAppend(s: seq<Triple>, a: seq<Triple>, b: seq<Triple>)
    ensures AddAll(AddAll(s, a), b) == AddAll(s, a + b)
  {
    if b == [] {
      assert a + b == a;
    } else {
      AddAllAppend(s, a, b[..|b| - 1]);
      assert (a + b)[..|a + b| - 1] == a + b[..|b| - 1];
      assert (a + b)[|a + b| - 1] == b[|b| - 1];
    }
  }

  /** Without duplicates. */
  predicate Distinct(s: seq<Triple>)
  {
    forall i, j :: 0 <= i < j < |s| ==> s[i] != s[j]
  }

  /** The model's statements stay free of duplicates. */
  lemma {:induction false} AddAllDistinct(s: seq<Triple>, added: seq<Triple>)
    requires Distinct(s)
    ensures Distinct(AddAll(s, added))
  {
    if added != [] {
      AddAllDistinct(s, added[..|added| - 1]);
    }
  }

  /** The statements of a that b lacks, in a's order: one of the two loops of the Delta constructor. */
  function Missing(a: seq<Triple>, b: seq<Triple>): (r: seq<Triple>)
    ensures forall x :: x in r <==> x in a && x !in b
    ensures |r| <= |a|
    ensures (forall x :: x in a ==> x in b) ==> r == []
  {
    if a == [] then []
    else
      var m := Missing(a[..|a| - 1], b);
      var t := a[|a| - 1];
      if t in b then m else AddAllMembers(m, [t]); AddAll(m, [t])
  }

  class Model {
    const world: World
    var base: Node
    var statements: seq<Triple>

    ghost function Contents(): set<Triple>
      reads this
    {
      set t | t in statements
    }

    /** Model(world): empty, with base URI ".". */
    constructor (world: World)
      ensures this.world == world && base == Resource(".") && statements == []
    {
      this.world := world;
      base := Resource(".");
      statements := [];
    }

    /** set_base_uri: "" leaves the base as it is; anything else becomes the base, prefix-expanded. */
    method SetBaseUri(uri: string)
      requires uri == "" || ':' in uri
      modifies this`base
      ensures uri == "" ==> base == old(base)
      ensures uri != "" ==> base == Resource(ExpandUri(world.prefixes, uri))
    {
      if uri == "" {
        return;
      }
      base := Resource(ExpandUri(world.prefixes, uri));
    }

    /** add_statement(subject, predicate, object): skipped when the object is NULL. */
    method AddStatement(subject: Node, pred: Node, obj: Node)
      modifies this`statements
      ensures statements == AddAll(old(statements), Put(Triple(subject, pred, obj)))
    {
      if obj.Nil? {
        return;
      }
      AddTriple(Triple(subject, pred, obj));
    }

    /** add_statement(subject, predicate_id, object): as above, the predicate being the expansion of its prefixed name. */
    method AddStatementId(subject: Node, predicateId: string, obj: Node)
      modifies this`statements
      ensures statements == AddAll(old(statements), Put(Triple(subject, Resource(ExpandUri(world.prefixes, predicateId)), obj)))
    {
      if obj.Nil? {
        return;
      }
      var pred := Resource(ExpandUri(world.prefixes, predicateId));
      AddTriple(Triple(subject, pred, obj));
    }

    /** add_statement(statement): librdf_model_add_statement. */
    method AddTriple(t: Triple)
      modifies this`statements
      ensures statements == AddAll(old(statements), [t])
    {
      if t !in statements {
        statements := statements + [t];
      }
    }
  }

  /** The Delta constructor's loop: every statement of a that b lacks goes into the target model. */
  method AddMissing(a: seq<Triple>, b: seq<Triple>, target: Model)
    requires target.statements == []
    modifies target`statements
    ensures target.statements == Missing(a, b)
  {
    var i := 0;
    while i < |a|
      invariant i <= |a|
      invariant target.statements == Missing(a[..i], b)
    {
      assert a[..i + 1][..i] == a[..i];
      if a[i] !in b {
        target.AddTriple(a[i]);
      }
      i := i + 1;
    }
    assert a[..i] == a;
  }

  /**
   * What a Delta holds: removals and additions share no statement, both
   * are empty when the models agree, and taking the removals out of the
   * first model and putting the additions in gives the second.
   */
  lemma {:induction false} DeltaSummary(a: seq<Triple>, b: seq<Triple>)
    ensures forall x :: !(x in Missing(a, b) && x in Missing(b, a))
    ensures (set x | x in a) == (set x | x in b) ==> Missing(a, b) == [] && Missing(b, a) == []
    ensures ((set x | x in a) - (set x | x in Missing(a, b))) + (set x | x in Missing(b, a)) == (set x | x in b)
  {
    var sa, sb := set x | x in a, set x | x in b;
    if sa == sb {
      assert forall x :: x in a ==> x in sa;
      assert forall x :: x in b ==> x in sb;
    }
  }

  /** A change record: the changeset node and the stand-in for each side, any of which may be missing. */
  datatype Change = Change(changeset: Option<Node>, additions: Option<Node>, removals: Option<Node>)

  /** Change::get */
  function Side(c: Change, insertion: bool): Option<Node>
  {
    if insertion then c.additions else c.removals
  }

  /** The Change constructor: the node goes to the given side, the other side is empty. */
  function NewChange(changeset: Option<Node>, insertion: bool, n: Node): (r: Change)
    ensures r.changeset == changeset && Side(r, insertion) == Some(n) && Side(r, !insertion) == None
  {
    Change(changeset, if insertion then Some(n) else None, if insertion then None else Some(n))
  }

  /** Fills one side of a record, leaving the rest. */
  function WithSide(c: Change, insertion: bool, n: Node): (r: Change)
    ensures r.changeset == c.changeset && Side(r, insertion) == Some(n) && Side(r, !insertion) == Side(c, !insertion)
  {
    if insertion then c.(additions := Some(n)) else c.(removals := Some(n))
  }

  /** The change sets, keyed by node, and the number of the next node librdf creates. */
  datatype Changes = Changes(sets: map<Node, Change>, next: nat)

  /** d keeps every node c has. */
  predicate Keeps(c: Change, d: Change)
  {
    (c.changeset.Some? ==> d.changeset == c.changeset)
    && (c.additions.Some? ==> d.additions == c.additions)
    && (c.removals.Some? ==> d.removals == c.removals)
  }

  /** b only adds to a: no record is dropped and no node in one is replaced. */
  predicate Extends(a: Changes, b: Changes)
  {
    a.next <= b.next && forall k :: k in a.sets ==> k in b.sets && Keeps(a.sets[k], b.sets[k])
  }

  lemma ExtendsTrans(a: Changes, b: Changes, c: Changes)
    requires Extends(a, b) && Extends(b, c)
    ensures Extends(a, c)
  {
  }

  /** Every node in a record is one librdf created. */
  predicate Created(c: Change)
  {
    (c.changeset.Some? ==> c.changeset.value.Anonymous?)
    && (c.additions.Some? ==> c.additions.value.Anonymous?)
    && (c.removals.Some? ==> c.removals.value.Anonymous?)
  }

  /** Every record holds only created nodes, and every resource subject's record has its changeset node. */
  predicate Wf(st: Changes)
  {
    forall k :: k in st.sets ==> Created(st.sets[k]) && (k.Resource? ==> st.sets[k].changeset.Some?)
  }

  /**
   * The record of a resource subject and its stand-in on this side
   * (Delta.hpp, lines 96-110): reused when there, the stand-in created when
   * the record lacks it, a record with a fresh changeset node and a fresh
   * stand-in created when the subject is new.
   */
  function SubjectChange(st: Changes, s: Node, insertion: bool): (r: (Changes, Node))
    ensures Extends(st, r.0) && s in r.0.sets && Side(r.0.sets[s], insertion) == Some(r.1)
    ensures r.0.sets == st.sets[s := r.0.sets[s]]
    ensures s in st.sets && Side(st.sets[s], insertion).Some? ==> r == (st, Side(st.sets[s], insertion).value)
    ensures s in st.sets ==> r.0.sets[s].changeset == st.sets[s].changeset
    ensures s !in st.sets ==> r.0.sets[s].changeset.Some?
    ensures Wf(st) ==> Created(r.0.sets[s]) && Wf(r.0)
  {
    if s in st.sets then
      match Side(st.sets[s], insertion)
      case Some(n) => (st, n)
      case None =>
        (Changes(st.sets[s := WithSide(st.sets[s], insertion, Anonymous(st.next))], st.next + 1), Anonymous(st.next))
    else
      (Changes(st.sets[s := NewChange(Some(Anonymous(st.next + 1)), insertion, Anonymous(st.next))], st.next + 2),
       Anonymous(st.next))
  }

  /**
   * The stand-in of a blank object or of a subject that is no resource
   * (Delta.hpp, lines 113-120 and 132-136): a node never seen gets a
   * record with no changeset and a fresh stand-in on this side. A node
   * seen only on the other side has no stand-in here: as written, the
   * code goes on with a NULL stand-in (None); corrected, it creates one.
   */
  function StandIn(st: Changes, n: Node, insertion: bool, fixed: bool): (r: Option<(Changes, Node)>)
    ensures r.None? <==> !fixed && n in st.sets && Side(st.sets[n], insertion).None?
    ensures r.Some? ==> Extends(st, r.value.0) && n in r.value.0.sets && Side(r.value.0.sets[n], insertion) == Some(r.value.1)
    ensures r.Some? ==> r.value.0.sets == st.sets[n := r.value.0.sets[n]]
    ensures r.Some? ==> r.value.0.sets[n].changeset == if n in st.sets then st.sets[n].changeset else None
    ensures n in st.sets && Side(st.sets[n], insertion).Some? ==> r == Some((st, Side(st.sets[n], insertion).value))
    ensures r.Some? && Wf(st) ==> Created(r.value.0.sets[n])
    ensures r.Some? && Wf(st) && !n.Resource? ==> Wf(r.value.0)
  {
    if n in st.sets then
      match Side(st.sets[n], insertion)
      case Some(m) => Some((st, m))
      case None =>
        if fixed then Some((Changes(st.sets[n := WithSide(st.sets[n], insertion, Anonymous(st.next))], st.next + 1), Anonymous(st.next)))
        else None
    else
      Some((Changes(st.sets[n := NewChange(None, insertion, Anonymous(st.next))], st.next + 1), Anonymous(st.next)))
  }

  /** The predicate a changeset gets for its stand-in: cs:addition or cs:removal. */
  function KindId(insertion: bool): string
  {
    if insertion then "cs:addition" else "cs:removal"
  }

  /**
   * A statement with a resource subject (Delta.hpp, lines 100-130): the
   * changeset names the subject and, unless the object is blank, points
   * at the subject's stand-in, which carries the property; a blank object
   * is replaced by its own stand-in.
   */
  function ResourceStep(prefixes: map<string, string>, st: Changes, insertion: bool, t: Triple, fixed: bool): (r: Option<(Changes, seq<Triple>)>)
    requires t.subject.Resource?
    ensures r.Some? ==> Extends(st, r.value.0)
    ensures Wf(st) && fixed ==> r.Some?
    ensures Wf(st) && r.Some? ==> Wf(r.value.0)
  {
    var (st1, node) := SubjectChange(st, t.subject, insertion);
    match st1.sets[t.subject].changeset
    case None => None
    case Some(cs) =>
      var about := Triple(cs, Resource(ExpandUri(prefixes, "cs:subjectOfChange")), t.subject);
      if IsBlank(t.obj) then
        match StandIn(st1, t.obj, insertion, fixed)
        case None => None
        case Some((st2, obj)) =>
          ExtendsTrans(st, st1, st2);
          Some((st2, [about] + Put(Triple(node, t.pred, obj))))
      else
        var kind := Triple(cs, Resource(ExpandUri(prefixes, KindId(insertion))), node);
        Some((st1, [kind, about] + Put(Triple(node, t.pred, t.obj))))
  }

  /** A statement whose subject is no resource (Delta.hpp, lines 131-138): the subject's stand-in takes the property as it is. */
  function OtherStep(st: Changes, insertion: bool, t: Triple, fixed: bool): (r: Option<(Changes, seq<Triple>)>)
    ensures r.Some? ==> Extends(st, r.value.0)
    ensures Wf(st) && fixed ==> r.Some?
    ensures Wf(st) && r.Some? && !t.subject.Resource? ==> Wf(r.value.0)
  {
    match StandIn(st, t.subject, insertion, fixed)
    case None => None
    case Some((st1, subject)) => Some((st1, Put(Triple(subject, t.pred, t.obj))))
  }

  /**
   * One statement of serialise_changes: the new change sets and the
   * statements added to the output model, or None where the code as
   * written dereferences a NULL stand-in.
   */
  function Step(prefixes: map<string, string>, st: Changes, insertion: bool, t: Triple, fixed: bool): (r: Option<(Changes, seq<Triple>)>)
    ensures r.Some? ==> Extends(st, r.value.0)
    ensures Wf(st) && fixed ==> r.Some?
    ensures Wf(st) && r.Some? ==> Wf(r.value.0)
  {
    if t.subject.Resource? then ResourceStep(prefixes, st, insertion, t, fixed) else OtherStep(st, insertion, t, fixed)
  }

  /** serialise_changes over a whole stream: the statements of each step, in order. */
  function SerialiseStream(prefixes: map<string, string>, st: Changes, insertion: bool, stream: seq<Triple>, fixed: bool): (r: Option<(Changes, seq<Triple>)>)
    ensures r.Some? ==> Extends(st, r.value.0)
    ensures Wf(st) && fixed ==> r.Some?
    ensures Wf(st) && r.Some? ==> Wf(r.value.0)
  {
    if stream == [] then Some((st, []))
    else
      match SerialiseStream(prefixes, st, insertion, stream[..|stream| - 1], fixed)
      case None => None
      case Some((st1, out1)) =>
        match Step(prefixes, st1, insertion, stream[|stream| - 1], fixed)
        case None => None
        case Some((st2, out2)) => Some((st2, out1 + out2))
  }

  /**
   * Statement t shows in out as the final change sets fin say it should:
   * the subject's stand-in carries the property; for a resource subject,
   * its changeset names the subject and, unless the object is blank,
   * points at the stand-in; a blank object is replaced by its stand-in.
   */
  ghost predicate Serialised(prefixes: map<string, string>, fin: Changes, insertion: bool, t: Triple, out: seq<Triple>)
  {
    t.subject in fin.sets && Side(fin.sets[t.subject], insertion).Some?
    && var node := Side(fin.sets[t.subject], insertion).value;
    if t.subject.Resource? then
      fin.sets[t.subject].changeset.Some?
      && var cs := fin.sets[t.subject].changeset.value;
      Triple(cs, Resource(ExpandUri(prefixes, "cs:subjectOfChange")), t.subject) in out
      && if IsBlank(t.obj) then
        t.obj in fin.sets && Side(fin.sets[t.obj], insertion).Some?
        && Triple(node, t.pred, Side(fin.sets[t.obj], insertion).value) in out
      else
        Triple(cs, Resource(ExpandUri(prefixes, KindId(insertion))), node) in out
        && (t.obj.Nil? || Triple(node, t.pred, t.obj) in out)
    else
      t.obj.Nil? || Triple(node, t.pred, t.obj) in out
  }

  /** Once shown, a statement stays shown: later steps keep every node and only add statements. */
  lemma SerialisedKept(prefixes: map<string, string>, a: Changes, b: Changes, insertion: bool, t: Triple, out: seq<Triple>, more: seq<Triple>)
    requires Serialised(prefixes, a, insertion, t, out) && Extends(a, b)
    ensures Serialised(prefixes, b, insertion, t, out + more)
  {
    assert Keeps(a.sets[t.subject], b.sets[t.subject]);
    if t.subject.Resource? && IsBlank(t.obj) {
      assert Keeps(a.sets[t.obj], b.sets[t.obj]);
    }
  }

  /** A step shows its own statement. */
  lemma StepSerialises(prefixes: map<string, string>, st: Changes, insertion: bool, t: Triple, fixed: bool)
    requires Wf(st) && Step(prefixes, st, insertion, t, fixed).Some?
    ensures Serialised(prefixes, Step(prefixes, st, insertion, t, fixed).value.0, insertion, t, Step(prefixes, st, insertion, t, fixed).value.1)
  {
    if t.subject.Resource? {
      var (st1, node) := SubjectChange(st, t.subject, insertion);
      if IsBlank(t.obj) {
        assert Wf(st1);
        var (st2, obj) := StandIn(st1, t.obj, insertion, fixed).value;
        assert Created(st2.sets[t.obj]) && obj.Anonymous?;
        assert t.obj != t.subject;
        assert st2.sets[t.subject] == st1.sets[t.subject];
      }
    }
  }

  /**
   * Every statement of the stream shows in the output, each resource
   * subject with the one change record it got and each blank node with
   * the one stand-in it got on this side, however many statements
   * mention it.
   */
  lemma {:induction false} EveryStatementSerialised(prefixes: map<string, string>, st: Changes, insertion: bool, stream: seq<Triple>, fixed: bool)
    requires Wf(st) && SerialiseStream(prefixes, st, insertion, stream, fixed).Some?
    ensures forall t :: t in stream ==>
      Serialised(prefixes, SerialiseStream(prefixes, st, insertion, stream, fixed).value.0, insertion, t,
                 SerialiseStream(prefixes, st, insertion, stream, fixed).value.1)
  {
    if stream != [] {
      var init := stream[..|stream| - 1];
      var last := stream[|stream| - 1];
      var (st1, out1) := SerialiseStream(prefixes, st, insertion, init, fixed).value;
      var (st2, out2) := Step(prefixes, st1, insertion, last, fixed).value;
      EveryStatementSerialised(prefixes, st, insertion, init, fixed);
      StepSerialises(prefixes, st1, insertion, last, fixed);
      forall t | t in stream
        ensures Serialised(prefixes, st2, insertion, t, out1 + out2)
      {
        if t in init {
          SerialisedKept(prefixes, st1, st2, insertion, t, out1, out2);
        } else {
          assert t == last;
          SerialisedKept(prefixes, st2, st2, insertion, t, out2, []);
          assert [] + out2 == out2;
          assert out1 + out2 == [] + out1 + out2;
          SerialisedIn(prefixes, st2, insertion, t, out2, out1);
        }
      }
    }
  }

  /** Statements shown in out stay shown with more statements in front. */
  lemma SerialisedIn(prefixes: map<string, string>, fin: Changes, insertion: bool, t: Triple, out: seq<Triple>, before: seq<Triple>)
    requires Serialised(prefixes, fin, insertion, t, out)
    ensures Serialised(prefixes, fin, insertion, t, before + out)
  {
  }

  /** One statement of serialise_changes: the change sets move on and the statements of that step go into the model. */
  method SerialiseOne(model: Model, st: Changes, insertion: bool, t: Triple) returns (fin: Changes)
    requires Wf(st)
    modifies model`statements
    ensures Step(model.world.prefixes, st, insertion, t, true).Some?
    ensures fin == Step(model.world.prefixes, st, insertion, t, true).value.0 && Wf(fin)
    ensures model.statements == AddAll(old(model.statements), Step(model.world.prefixes, st, insertion, t, true).value.1)
  {
    if t.subject.Resource? {
      fin := SerialiseResource(model, st, insertion, t);
    } else {
      var (st1, subject) := StandIn(st, t.subject, insertion, true).value;
      fin := st1;
      model.AddStatement(subject, t.pred, t.obj);
    }
  }

  /** A statement with a resource subject. */
  method SerialiseResource(model: Model, st: Changes, insertion: bool, t: Triple) returns (fin: Changes)
    requires Wf(st) && t.subject.Resource?
    modifies model`statements
    ensures ResourceStep(model.world.prefixes, st, insertion, t, true).Some?
    ensures fin == ResourceStep(model.world.prefixes, st, insertion, t, true).value.0
    ensures model.statements == AddAll(old(model.statements), ResourceStep(model.world.prefixes, st, insertion, t, true).value.1)
  {
    ghost var prefixes := model.world.prefixes;
    ghost var start := model.statements;
    var (st1, node) := SubjectChange(st, t.subject, insertion);
    assert Created(st1.sets[t.subject]) && node.Anonymous?;
    var cs := st1.sets[t.subject].changeset.value;
    assert st1.sets[t.subject].changeset == Some(cs);
    var about := Triple(cs, Resource(ExpandUri(prefixes, "cs:subjectOfChange")), t.subject);
    assert Put(about) == [about];
    var obj := t.obj;
    ghost var front: seq<Triple> := [];
    if IsBlank(t.obj) {
      var (st2, standIn) := StandIn(st1, t.obj, insertion, true).value;
      assert Created(st2.sets[t.obj]) && standIn.Anonymous?;
      fin, obj := st2, standIn;
      assert ResourceStep(prefixes, st, insertion, t, true) == Some((fin, [about] + Put(Triple(node, t.pred, obj))));
    } else {
      fin := st1;
      front := [Triple(cs, Resource(ExpandUri(prefixes, KindId(insertion))), node)];
      assert Put(front[0]) == front;
      assert front + [about] == [front[0], about];
      assert ResourceStep(prefixes, st, insertion, t, true) == Some((fin, front + [about] + Put(Triple(node, t.pred, obj))));
      model.AddStatementId(cs, KindId(insertion), node);
    }
    model.AddStatementId(cs, "cs:subjectOfChange", t.subject);
    AddAllAppend(start, front, [about]);
    model.AddStatement(node, t.pred, obj);
    AddAllAppend(start, front + [about], Put(Triple(node, t.pred, obj)));
  }

  /**
   * serialise_changes: each statement of the stream is turned into
   * changeset statements added to the model, and the change sets grow.
   */
  method SerialiseChanges(model: Model, st: Changes, insertion: bool, stream: seq<Triple>) returns (fin: Changes)
    requires Wf(st)
    modifies model`statements
    ensures SerialiseStream(model.world.prefixes, st, insertion, stream, true).Some?
    ensures fin == SerialiseStream(model.world.prefixes, st, insertion, stream, true).value.0
    ensures model.statements == AddAll(old(model.statements), SerialiseStream(model.world.prefixes, st, insertion, stream, true).value.1)
  {
    ghost var prefixes := model.world.prefixes;
    ghost var start := model.statements;
    fin := st;
    var i := 0;
    while i < |stream|
      invariant i <= |stream|
      invariant SerialiseStream(prefixes, st, insertion, stream[..i], true).Some?
      invariant fin == SerialiseStream(prefixes, st, insertion, stream[..i], true).value.0 && Wf(fin)
      invariant model.statements == AddAll(start, SerialiseStream(prefixes, st, insertion, stream[..i], true).value.1)
    {
      assert stream[..i + 1][..i] == stream[..i];
      ghost var before := model.statements;
      ghost var out1 := SerialiseStream(prefixes, st, insertion, stream[..i], true).value.1;
      fin := SerialiseOne(model, fin, insertion, stream[i]);
      StepAdded(start, before, model.statements, out1,
                Step(prefixes, SerialiseStream(prefixes, st, insertion, stream[..i], true).value.0, insertion, stream[i], true).value.1);
      i := i + 1;
    }
    assert stream[..i] == stream;
  }

  /** The model after one step holds what it held before plus that step's statements. */
  lemma StepAdded(start: seq<Triple>, before: seq<Triple>, after: seq<Triple>, out1: seq<Triple>, out2: seq<Triple>)
    requires before == AddAll(start, out1) && after == AddAll(before, out2)
    ensures after == AddAll(start, out1 + out2)
  {
    AddAllAppend(start, out1, out2);
  }

  class Delta {
    const additions: Model
    const removals: Model

    /**
     * Delta(from, to): removals holds exactly the statements of from that
     * to lacks, additions exactly those of to that from lacks; both models
     * live in the world of from, which to must share.
     */
    constructor (from: Model, to: Model)
      requires from.world == to.world
      ensures fresh(additions) && fresh(removals) && additions != removals
      ensures additions.world == from.world && removals.world == from.world
      ensures removals.statements == Missing(from.statements, to.statements)
      ensures additions.statements == Missing(to.statements, from.statements)
      ensures removals.Contents() == from.Contents() - to.Contents()
      ensures additions.Contents() == to.Contents() - from.Contents()
    {
      var rem := new Model(from.world);
      var add := new Model(from.world);
      AddMissing(from.statements, to.statements, rem);
      AddMissing(to.statements, from.statements, add);
      additions := add;
      removals := rem;
    }

    /**
     * serialise: registers the "cs" prefix in the additions' world, then
     * writes the additions and then the removals into the model as
     * changesets, with one set of change records for both passes. The
     * nodes librdf creates are numbered from firstNode on.
     */
    method Serialise(model: Model, firstNode: nat)
      requires model != additions && model != removals
      modifies additions.world`prefixes, model`statements
      ensures additions.world.prefixes == old(additions.world.prefixes)["cs" := CS_NS]
      ensures var adds := SerialiseStream(model.world.prefixes, Changes(map[], firstNode), true, additions.statements, true);
        adds.Some?
        && var rems := SerialiseStream(model.world.prefixes, adds.value.0, false, removals.statements, true);
        rems.Some? && model.statements == AddAll(old(model.statements), adds.value.1 + rems.value.1)
    {
      var world := additions.world;
      world.AddPrefix("cs", CS_NS);
      ghost var start := model.statements;
      var changes := SerialiseChanges(model, Changes(map[], firstNode), true, additions.statements);
      ghost var mid := model.statements;
      changes := SerialiseChanges(model, changes, false, removals.statements);
      AddAllAppend(start,
        SerialiseStream(model.world.prefixes, Changes(map[], firstNode), true, additions.statements, true).value.1,
        SerialiseStream(model.world.prefixes,
          SerialiseStream(model.world.prefixes, Changes(map[], firstNode), true, additions.statements, true).value.0,
          false, removals.statements, true).value.1);
    }
  }

  /** A blank node that is the object of an added statement and of a removed one. */
  const ADDED_BLANK: seq<Triple> := [Triple(Resource("x"), Resource("p"), Blank("b"))]
  const REMOVED_BLANK: seq<Triple> := [Triple(Resource("x"), Resource("q"), Blank("b"))]

  /** After the additions pass, the blank object has a record with an addition stand-in and no removal one. */
  lemma AddedBlankRecord(prefixes: map<string, string>, fixed: bool)
    ensures SerialiseStream(prefixes, Changes(map[], 0), true, ADDED_BLANK, fixed).Some?
    ensures var st := SerialiseStream(prefixes, Changes(map[], 0), true, ADDED_BLANK, fixed).value.0;
      Blank("b") in st.sets && Side(st.sets[Blank("b")], false).None? && Wf(st)
  {
    var t := ADDED_BLANK[0];
    assert ADDED_BLANK[..0] == [];
    var (st1, node) := SubjectChange(Changes(map[], 0), t.subject, true);
    assert Blank("b") !in st1.sets;
  }

  /**
   * As written, serialise_changes reaches a NULL stand-in: the removals
   * pass finds the record the additions pass made for the blank object,
   * and that record has no removal stand-in.
   */
  lemma BlankOnBothSidesAsWritten(prefixes: map<string, string>)
    ensures var adds := SerialiseStream(prefixes, Changes(map[], 0), true, ADDED_BLANK, false);
      adds.Some? && SerialiseStream(prefixes, adds.value.0, false, REMOVED_BLANK, false).None?
  {
    AddedBlankRecord(prefixes, false);
    var st := SerialiseStream(prefixes, Changes(map[], 0), true, ADDED_BLANK, false).value.0;
    var t := REMOVED_BLANK[0];
    assert REMOVED_BLANK[..0] == [];
    var (st1, node) := SubjectChange(st, t.subject, false);
    assert st1.sets[Blank("b")] == st.sets[Blank("b")];
    assert StandIn(st1, t.obj, false, false).None?;
  }

  /** Corrected, the removals pass gives the blank object its own removal stand-in, and both passes serialise every statement. */
  lemma BlankOnBothSidesFixed(prefixes: map<string, string>)
    ensures var adds := SerialiseStream(prefixes, Changes(map[], 0), true, ADDED_BLANK, true);
      adds.Some?
      && var rems := SerialiseStream(prefixes, adds.value.0, false, REMOVED_BLANK, true);
      rems.Some?
      && Side(rems.value.0.sets[Blank("b")], true) == Side(adds.value.0.sets[Blank("b")], true)
      && Side(rems.value.0.sets[Blank("b")], false).Some?
      && Serialised(prefixes, rems.value.0, false, REMOVED_BLANK[0], rems.value.1)
  {
    AddedBlankRecord(prefixes, true);
    var st := SerialiseStream(prefixes, Changes(map[], 0), true, ADDED_BLANK, true).value.0;
    var rems := SerialiseStream(prefixes, st, false, REMOVED_BLANK, true);
    EveryStatementSerialised(prefixes, st, false, REMOVED_BLANK, true);
    assert REMOVED_BLANK[0] in REMOVED_BLANK;
    assert Keeps(st.sets[Blank("b")], rems.value.0.sets[Blank("b")]);
  }

  /** With "cs" registered, cs:addition, cs:removal and cs:subjectOfChange expand into the changeset namespace. */
  lemma ChangesetPredicates(prefixes: map<string, string>, local: string)
    ensures ExpandUri(prefixes["cs" := CS_NS], "cs:" + local) == CS_NS + local
  {
    ExpandUriCases(prefixes["cs" := CS_NS], "", "cs", local);
    assert "cs" + ":" + local == "cs:" + local;
  }
}
