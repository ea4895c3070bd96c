/**
 * The Lolep "rdf-read" plugin's in-memory model of a Turtle document, and
 * the sizes it computes before writing LV2 object atoms. Each subject
 * becomes an object keyed by an ObjectID: a resource by its mapped URI, a
 * blank node by a number drawn from a counter. Each object holds a multimap
 * from predicate id to value atom. Blank nodes referenced exactly once are
 * moved aside to be written inline, in the property that refers to them.
 *
 * URIs are taken as already mapped to ids by the host; the Turtle parser is
 * a source of statements. The atom layout is that of the time: a 4-byte
 * atom header (16-bit type, 16-bit size), an 8-byte object header (32-bit
 * context and id), and atoms padded to multiples of 8 bytes.
 */
module RdfRead {
  import opened Wrappers

  /** sizeof(LV2_Atom). */
  const ATOM_HEADER: nat := 4
  /** sizeof(LV2_Object). */
  const OBJECT_HEADER: nat := 8
  /** A property's key, a uint32_t. */
  const KEY_SIZE: nat := 4
  /** The headers of an object atom, which is also the size field ObjectID carries. */
  const OBJECT_SIZE: nat := ATOM_HEADER + OBJECT_HEADER

  const XSD_INTEGER: string := "http://www.w3.org/2001/XMLSchema#integer"
  const XSD_DECIMAL: string := "http://www.w3.org/2001/XMLSchema#decimal"

  /**
   * lv2_atom_pad_size for a given alignment: rounds up to a multiple of
   * `align`, which is one of the two word sizes an atom can be aligned to.
   */
  function PadTo(align: nat, n: nat): (r: nat)
    requires align == 4 || align == 8
    ensures r % align == 0 && n <= r < n + align
  {
    if align == 4 then (n + 3) / 4 * 4 else (n + 7) / 8 * 8
  }

  /**
   * The alignment lv2_atom_pad_size rounds to. atom.h is not part of this
   * model; 8 is taken here, and AlignmentDecidesAgreement shows what 4
   * would change.
   */
  const ATOM_ALIGN: nat := 8

  /** lv2_atom_pad_size: rounds up to a multiple of ATOM_ALIGN. */
  function PadSize(n: nat): (r: nat)
    ensures r % 8 == 0 && n <= r < n + 8
  {
    PadTo(ATOM_ALIGN, n)
  }

  /**
   * Whether counting a value as header plus padded body agrees with writing
   * it as a padded atom depends only on the alignment: with 4-byte padding
   * the 4-byte header never changes the padding and the two agree for every
   * body size; with 8-byte padding they never agree.
   */
  lemma AlignmentDecidesAgreement(s: nat)
    ensures ATOM_HEADER + PadTo(4, s) == PadTo(4, ATOM_HEADER + s)
    ensures ATOM_HEADER + PadTo(8, s) != PadTo(8, ATOM_HEADER + s)
  {
    assert (ATOM_HEADER + PadTo(8, s)) % 8 == 4;
  }

  /** The 16-bit type field keeps the low 16 bits of a 32-bit type id. */
  function Tag(t: nat): nat
  {
    t % 0x1_0000
  }

  /** The type ids the plugin obtains from the host's URI map. */
  datatype TypeIds = TypeIds(blank: nat, blankId: nat, resource: nat)

  /**
   * What the code relies on: ObjectID refuses type 1 by an assertion, and
   * atom:Blank and atom:BlankID are different URIs whose ids differ in the
   * 16 bits an atom header keeps.
   */
  predicate WellFormed(ids: TypeIds)
  {
    ids.blank != 1 && ids.resource != 1 && Tag(ids.blank) != Tag(ids.blankId)
  }

  /** An ObjectID: the atom type in 16 bits, then the object's context and id. */
  datatype ObjectID = ObjectID(tag: nat, context: nat, id: nat)

  /** ObjectID's constructor, with the assertion that the type is not 1. */
  function MakeObjectID(t: nat, c: nat, i: nat): ObjectID
    requires t != 1
  {
    ObjectID(Tag(t), c, i)
  }

  /** ObjectID::operator<: type first, then context, then id; the size field plays no part. */
  predicate Less(a: ObjectID, b: ObjectID)
  {
    a.tag < b.tag || (a.tag == b.tag && (a.context < b.context || (a.context == b.context && a.id < b.id)))
  }

  /** operator< is a strict total order, as a std::map key order must be. */
  lemma LessIsStrictTotalOrder(a: ObjectID, b: ObjectID, c: ObjectID)
    ensures !Less(a, a)
    ensures Less(a, b) ==> !Less(b, a)
    ensures Less(a, b) && Less(b, c) ==> Less(a, c)
    ensures a != b ==> Less(a, b) || Less(b, a)
  {
  }

  /** The id of blank node number `n`. */
  function BlankKey(ids: TypeIds, n: nat): ObjectID
    requires WellFormed(ids)
  {
    MakeObjectID(ids.blank, 0, n)
  }

  /** A BlankID atom read back as an ObjectID: its header carries atom:BlankID, not atom:Blank. */
  function RefLookup(ids: TypeIds, n: nat): ObjectID
  {
    ObjectID(Tag(ids.blankId), 0, n)
  }

  /** The value atom stored for a statement's object. */
  datatype Value =
    | IdRef(uri: nat)
    | BlankRef(id: nat)
    | Int32Literal(text: string)
    | FloatLiteral(text: string)
    | StringLiteral(text: string)
      /** The null pointer stored for an object of unknown kind. */
    | Missing

  /** The size field of a value atom. */
  function BodySize(v: Value): (r: nat)
    requires !v.Missing?
    ensures v.StringLiteral? ==> r == KEY_SIZE + |v.text| + 1
    ensures !v.StringLiteral? ==> r == 4
  {
    match v
    case StringLiteral(text) => KEY_SIZE + |text| + 1
    case _ => 4
  }

  /** A typed literal becomes an int, a float or (any other datatype) a string. */
  function LiteralValue(text: string, dtype: string): (r: Value)
    ensures r.Int32Literal? <==> dtype == XSD_INTEGER
    ensures r.FloatLiteral? <==> dtype != XSD_INTEGER && dtype == XSD_DECIMAL
    ensures r.StringLiteral? <==> dtype != XSD_INTEGER && dtype != XSD_DECIMAL
    ensures r.text == text
  {
    if dtype == XSD_INTEGER then Int32Literal(text)
    else if dtype == XSD_DECIMAL then FloatLiteral(text)
    else StringLiteral(text)
  }

  /** The bytes malloc'ed for a string literal's atom: the header, the language field and the characters. */
  function StringAllocation(text: string): nat
  {
    ATOM_HEADER + KEY_SIZE + |text|
  }

  /** As written, the copy of a string literal's characters and terminator runs one byte past its allocation. */
  lemma StringCopyOverruns(text: string)
    ensures ATOM_HEADER + BodySize(StringLiteral(text)) == StringAllocation(text) + 1
  {
  }

  /** The allocation with room for the terminator: the atom's header and its whole body. */
  function StringAllocationFixed(text: string): (r: nat)
    ensures r == ATOM_HEADER + BodySize(StringLiteral(text))
    ensures r > StringAllocation(text)
  {
    ATOM_HEADER + KEY_SIZE + |text| + 1
  }

  /** A multimap entry: predicate id and value. */
  datatype Property = Property(key: nat, value: Value)

  type Objects = map<ObjectID, seq<Property>>

  /** A std::multimap keeps its entries ordered by key. */
  predicate KeysOrdered(ps: seq<Property>)
  {
    forall i, j :: 0 <= i < j < |ps| ==> ps[i].key <= ps[j].key
  }

  /** Where multimap::insert places an entry: after every entry whose key is not greater. */
  function UpperBound(ps: seq<Property>, key: nat): (n: nat)
    ensures n <= |ps|
    ensures forall i :: 0 <= i < n ==> ps[i].key <= key
    ensures n < |ps| ==> key < ps[n].key
  {
    if ps == [] || key < ps[0].key then 0 else 1 + UpperBound(ps[1..], key)
  }

  /**
   * multimap::insert: the entry joins the others, ordered by key, after
   * every entry with the same key (so equal keys keep their insertion order).
   */
  function InsertProperty(ps: seq<Property>, p: Property): (r: seq<Property>)
    ensures multiset(r) == multiset(ps) + multiset{p}
    ensures KeysOrdered(ps) ==> KeysOrdered(r)
    ensures exists n :: 0 <= n <= |ps| && r == ps[..n] + [p] + ps[n..] && (forall i :: 0 <= i < n ==> ps[i].key <= p.key)
  {
    var n := UpperBound(ps, p.key);
    assert ps == ps[..n] + ps[n..];
    InsertKeepsOrder(ps, p, n);
    ps[..n] + [p] + ps[n..]
  }

  lemma InsertKeepsOrder(ps: seq<Property>, p: Property, n: nat)
    requires n == UpperBound(ps, p.key)
    ensures KeysOrdered(ps) ==> KeysOrdered(ps[..n] + [p] + ps[n..])
  {
    if KeysOrdered(ps) {
      var r := ps[..n] + [p] + ps[n..];
      assert forall i :: 0 <= i < |r| ==> r[i] == if i < n then ps[i] else if i == n then p else ps[i - 1];
      forall i, j | 0 <= i < j < |r|
        ensures r[i].key <= r[j].key
      {
        if j == n {
          assert r[i] == ps[i];
        } else if i == n {
          assert r[j] == ps[j - 1] && n <= j - 1;
        }
      }
    }
  }

  /** The model: blank-node numbering, reference counts and the three object maps. */
  datatype State = State(
    nextId: nat,
    blankIds: map<string, ObjectID>,
    blankRefs: map<ObjectID, nat>,
    resources: Objects,
    blanks: Objects,
    inlineBlanks: Objects)

  /** A new model: next_id starts at 1 and every map is empty. */
  function Fresh(): State
  {
    State(1, map[], map[], map[], map[], map[])
  }

  /** blank_id: the id already given to a name, or a new one numbered next_id. */
  function BlankIdOf(ids: TypeIds, st: State, name: string): (State, ObjectID)
    requires WellFormed(ids)
  {
    if name in st.blankIds then (st, st.blankIds[name])
    else
      var id := BlankKey(ids, st.nextId);
      (st.(nextId := st.nextId + 1, blankIds := st.blankIds[name := id]), id)
  }

  /** Every name has a blank id numbered from 1 below next_id, and no two labels share a number. */
  ghost predicate LabelsDistinct(ids: TypeIds, st: State)
    requires WellFormed(ids)
  {
    1 <= st.nextId
    && (forall l :: l in st.blankIds ==> st.blankIds[l] == BlankKey(ids, st.blankIds[l].id) && 1 <= st.blankIds[l].id < st.nextId)
    && (forall l, m :: l in st.blankIds && m in st.blankIds && l != m ==> st.blankIds[l].id != st.blankIds[m].id)
  }

  lemma FreshLabelsDistinct(ids: TypeIds)
    requires WellFormed(ids)
    ensures LabelsDistinct(ids, Fresh())
  {
  }

  /**
   * A repeated name gets the id it was first given and changes nothing; a
   * new name gets next_id, which then goes up by one. The first id is 1.
   */
  lemma BlankIdStable(ids: TypeIds, st: State, name: string)
    requires WellFormed(ids)
    ensures var (st1, id) := BlankIdOf(ids, st, name);
      BlankIdOf(ids, st1, name) == (st1, id)
      && (name !in st.blankIds ==> id.id == st.nextId && st1.nextId == st.nextId + 1)
      && (name in st.blankIds ==> st1 == st)
      && st1.blankIds[name] == id
    ensures BlankIdOf(ids, Fresh(), name).1.id == 1
  {
  }

  /** blank_id keeps labels apart: a new name's number is one no other name has. */
  lemma BlankIdKeepsLabelsDistinct(ids: TypeIds, st: State, name: string)
    requires WellFormed(ids) && LabelsDistinct(ids, st)
    ensures var (st1, id) := BlankIdOf(ids, st, name);
      LabelsDistinct(ids, st1) && id == BlankKey(ids, id.id)
      && (name !in st.blankIds ==> forall l :: l in st.blankIds ==> st.blankIds[l].id != id.id)
  {
  }

  /**
   * The reference count as written: the lookup uses the BlankID atom's
   * header as the key, but the insert uses the blank's own id, tagged
   * atom:Blank; an insert whose key is present changes nothing.
   */
  function CountReference(ids: TypeIds, refs: map<ObjectID, nat>, key: ObjectID): map<ObjectID, nat>
  {
    var lookup := RefLookup(ids, key.id);
    if lookup in refs then refs[lookup := refs[lookup] + 1]
    else if key in refs then refs
    else refs[key := 1]
  }

  /** Every reference count is 1 and is kept under an atom:Blank id. */
  ghost predicate CountsOne(ids: TypeIds, refs: map<ObjectID, nat>)
  {
    forall k :: k in refs ==> k.tag == Tag(ids.blank) && refs[k] == 1
  }

  /** So counting a reference never takes a count above 1, however often a blank is referenced. */
  lemma CountStaysOne(ids: TypeIds, refs: map<ObjectID, nat>, key: ObjectID)
    requires WellFormed(ids) && CountsOne(ids, refs) && key.tag == Tag(ids.blank)
    ensures var r := CountReference(ids, refs, key);
      CountsOne(ids, r) && key in r && r[key] == 1 && r.Keys == refs.Keys + {key}
  {
    assert RefLookup(ids, key.id) !in refs;
  }

  /** A blank referenced twice, as written: its count is 1. */
  lemma TwoReferencesCountOne(ids: TypeIds, n: nat)
    requires WellFormed(ids)
    ensures var key := BlankKey(ids, n);
      CountReference(ids, CountReference(ids, map[], key), key)[key] == 1
  {
    var key := BlankKey(ids, n);
    CountStaysOne(ids, map[], key);
    CountStaysOne(ids, CountReference(ids, map[], key), key);
  }

  /** The count looked up under the key it is stored under: one more reference each time. */
  function CountReferenceFixed(refs: map<ObjectID, nat>, key: ObjectID): map<ObjectID, nat>
  {
    if key in refs then refs[key := refs[key] + 1] else refs[key := 1]
  }

  function CountAllFixed(refs: map<ObjectID, nat>, keys: seq<ObjectID>): map<ObjectID, nat>
    decreases |keys|
  {
    if keys == [] then refs else CountAllFixed(CountReferenceFixed(refs, keys[0]), keys[1..])
  }

  function CountOf(refs: map<ObjectID, nat>, key: ObjectID): nat
  {
    if key in refs then refs[key] else 0
  }

  /** Corrected, every blank's count goes up by the number of references to it. */
  lemma {:induction false} CountsReferences(refs: map<ObjectID, nat>, keys: seq<ObjectID>, key: ObjectID)
    ensures CountOf(CountAllFixed(refs, keys), key) == CountOf(refs, key) + multiset(keys)[key]
    decreases |keys|
  {
    if keys != [] {
      CountsReferences(CountReferenceFixed(refs, keys[0]), keys[1..], key);
      assert keys == [keys[0]] + keys[1..];
    }
  }

  /** The statements the parser hands over: terms are mapped URIs, blank labels or literals. */
  datatype Term = Resource(uri: nat) | Anonymous(name: string) | Literal(text: string, dtype: string) | OtherTerm
  datatype Statement = Statement(subject: Term, pred: Term, obj: Term)

  /** find-or-insert of an empty property multimap. */
  function WithEntry(objs: Objects, key: ObjectID): (r: Objects)
    ensures key in r && r.Keys == objs.Keys + {key}
    ensures forall k :: k in objs ==> r[k] == objs[k]
    ensures key !in objs ==> r[key] == []
  {
    if key in objs then objs else objs[key := []]
  }

  /** The value stored for a statement's object; a blank object draws an id and is counted. */
  function ObjectValue(ids: TypeIds, st: State, t: Term): (r: (State, Value))
    requires WellFormed(ids)
    ensures r.0.resources == st.resources && r.0.blanks == st.blanks && r.0.inlineBlanks == st.inlineBlanks
  {
    match t
    case Resource(uri) => (st, IdRef(uri))
    case Anonymous(name) =>
      var (st1, key) := BlankIdOf(ids, st, name);
      (st1.(blankRefs := CountReference(ids, st1.blankRefs, key)), BlankRef(key.id))
    case Literal(text, dtype) => (st, LiteralValue(text, dtype))
    case OtherTerm => (st, Missing)
  }

  /**
   * The subject's object, found or created, with its key and whether it is
   * a blank; None for a subject that is neither a URI nor a blank node.
   */
  function SubjectObject(ids: TypeIds, st: State, t: Term): (r: Option<(State, ObjectID, bool)>)
    requires WellFormed(ids)
    ensures r.Some? <==> t.Resource? || t.Anonymous?
    ensures r.Some? ==> var (st1, key, isBlank) := r.value;
      isBlank == t.Anonymous? && key in (if isBlank then st1.blanks else st1.resources)
  {
    match t
    case Resource(uri) =>
      var key := MakeObjectID(ids.resource, 0, uri);
      Some((st.(resources := WithEntry(st.resources, key)), key, false))
    case Anonymous(name) =>
      var (st0, key) := BlankIdOf(ids, st, name);
      Some((st0.(blanks := WithEntry(st0.blanks, key)), key, true))
    case _ => None
  }

  /** properties->insert on the subject's multimap. */
  function AddEntry(st: State, key: ObjectID, isBlank: bool, p: Property): State
    requires key in (if isBlank then st.blanks else st.resources)
  {
    if isBlank then st.(blanks := st.blanks[key := InsertProperty(st.blanks[key], p)])
    else st.(resources := st.resources[key := InsertProperty(st.resources[key], p)])
  }

  /**
   * rdf_statement_handler: find or create the subject's object, then, if
   * the predicate is a URI, add the (predicate, value) entry to it. Any
   * other subject leaves the model as it was.
   */
  function Handle(ids: TypeIds, st: State, s: Statement): State
    requires WellFormed(ids)
  {
    match SubjectObject(ids, st, s.subject)
    case None => st
    case Some((st1, key, isBlank)) =>
      if !s.pred.Resource? then st1
      else
        var (st2, v) := ObjectValue(ids, st1, s.obj);
        AddEntry(st2, key, isBlank, Property(s.pred.uri, v))
  }

  /** A subject that is neither a URI nor a blank node changes nothing. */
  lemma BadSubjectChangesNothing(ids: TypeIds, st: State, s: Statement)
    requires WellFormed(ids) && !s.subject.Resource? && !s.subject.Anonymous?
    ensures Handle(ids, st, s) == st
  {
  }

  /** Finding or creating the subject's object only adds an empty one, and perhaps a blank id. */
  lemma SubjectObjectAddsEmpty(ids: TypeIds, st: State, t: Term)
    requires WellFormed(ids) && (t.Resource? || t.Anonymous?)
    ensures var r := SubjectObject(ids, st, t).value.0;
      r.blankRefs == st.blankRefs && r.inlineBlanks == st.inlineBlanks
      && (forall k :: k in r.resources ==> r.resources[k] == (if k in st.resources then st.resources[k] else []))
      && (forall k :: k in r.blanks ==> r.blanks[k] == (if k in st.blanks then st.blanks[k] else []))
      && st.resources.Keys <= r.resources.Keys && st.blanks.Keys <= r.blanks.Keys
  {
  }

  /**
   * A predicate that is not a URI adds no entry and counts no reference;
   * the subject's object has still been created (empty) by then.
   */
  lemma BadPredicateAddsNoProperty(ids: TypeIds, st: State, s: Statement)
    requires WellFormed(ids) && !s.pred.Resource?
    ensures var r := Handle(ids, st, s);
      r.blankRefs == st.blankRefs && r.inlineBlanks == st.inlineBlanks
      && (forall k :: k in r.resources ==> r.resources[k] == (if k in st.resources then st.resources[k] else []))
      && (forall k :: k in r.blanks ==> r.blanks[k] == (if k in st.blanks then st.blanks[k] else []))
      && st.resources.Keys <= r.resources.Keys && st.blanks.Keys <= r.blanks.Keys
  {
    if s.subject.Resource? || s.subject.Anonymous? {
      SubjectObjectAddsEmpty(ids, st, s.subject);
    }
  }

  /** Every multimap keeps its entries in key order. */
  ghost predicate Ordered(st: State)
  {
    (forall k :: k in st.resources ==> KeysOrdered(st.resources[k]))
    && (forall k :: k in st.blanks ==> KeysOrdered(st.blanks[k]))
  }

  /** The invariants a statement preserves: distinct blank numbers, ordered multimaps, counts of 1. */
  ghost predicate Valid(ids: TypeIds, st: State)
    requires WellFormed(ids)
  {
    LabelsDistinct(ids, st) && Ordered(st) && CountsOne(ids, st.blankRefs)
  }

  lemma ObjectValueValid(ids: TypeIds, st: State, t: Term)
    requires WellFormed(ids) && Valid(ids, st)
    ensures Valid(ids, ObjectValue(ids, st, t).0)
    ensures ObjectValue(ids, st, t).1 == Missing <==> t.OtherTerm?
  {
    if t.Anonymous? {
      BlankIdKeepsLabelsDistinct(ids, st, t.name);
      var (st1, key) := BlankIdOf(ids, st, t.name);
      CountStaysOne(ids, st1.blankRefs, key);
    }
  }

  lemma SubjectObjectValid(ids: TypeIds, st: State, t: Term)
    requires WellFormed(ids) && Valid(ids, st) && (t.Resource? || t.Anonymous?)
    ensures Valid(ids, SubjectObject(ids, st, t).value.0)
  {
    if t.Anonymous? {
      BlankIdKeepsLabelsDistinct(ids, st, t.name);
    }
  }

  /** Adding an entry to an object keeps its multimap ordered. */
  lemma AddEntryValid(ids: TypeIds, st: State, key: ObjectID, isBlank: bool, p: Property)
    requires WellFormed(ids) && Valid(ids, st) && key in (if isBlank then st.blanks else st.resources)
    ensures Valid(ids, AddEntry(st, key, isBlank, p))
  {
  }

  /** A statement keeps the model valid. */
  lemma HandleValid(ids: TypeIds, st: State, s: Statement)
    requires WellFormed(ids) && Valid(ids, st)
    ensures Valid(ids, Handle(ids, st, s))
  {
    if (s.subject.Resource? || s.subject.Anonymous?) {
      SubjectObjectValid(ids, st, s.subject);
      var (st1, key, isBlank) := SubjectObject(ids, st, s.subject).value;
      if s.pred.Resource? {
        ObjectValueValid(ids, st1, s.obj);
        var (st2, v) := ObjectValue(ids, st1, s.obj);
        AddEntryValid(ids, st2, key, isBlank, Property(s.pred.uri, v));
      }
    }
  }

  /**
   * A statement with a URI subject and predicate adds exactly one entry,
   * the predicate and the object's value, to the subject's object, and
   * leaves the blanks and every other resource as they were.
   */
  lemma HandleAddsOneEntry(ids: TypeIds, st: State, s: Statement)
    requires WellFormed(ids) && s.subject.Resource? && s.pred.Resource?
    ensures var r := Handle(ids, st, s);
      var key := MakeObjectID(ids.resource, 0, s.subject.uri);
      key in r.resources
      && multiset(r.resources[key]) == multiset(if key in st.resources then st.resources[key] else []) + multiset{Property(s.pred.uri, ObjectValue(ids, st, s.obj).1)}
      && r.blanks == st.blanks
      && forall k :: k in st.resources && k != key ==> k in r.resources && r.resources[k] == st.resources[k]
  {
    var key := MakeObjectID(ids.resource, 0, s.subject.uri);
    var st1 := st.(resources := WithEntry(st.resources, key));
    assert SubjectObject(ids, st, s.subject) == Some((st1, key, false));
    assert ObjectValue(ids, st1, s.obj).1 == ObjectValue(ids, st, s.obj).1;
  }

  /**
   * What abbreviate needs: every blank counted once also has an object,
   * that is, occurs as a subject; otherwise it dereferences blanks.end().
   */
  ghost predicate Presumed(st: State)
  {
    forall k :: k in st.blankRefs && st.blankRefs[k] == 1 ==> k in st.blanks
  }

  /** A blank that only ever occurs as an object breaks that presumption. */
  lemma ObjectOnlyBlankUnpresumed(ids: TypeIds)
    requires WellFormed(ids)
    ensures !Presumed(Handle(ids, Fresh(), Statement(Resource(0), Resource(0), Anonymous("b"))))
  {
    var r := Handle(ids, Fresh(), Statement(Resource(0), Resource(0), Anonymous("b")));
    assert BlankKey(ids, 1) in r.blankRefs && BlankKey(ids, 1) !in r.blanks;
  }

  /** Whether abbreviate moves a blank: it is counted once and has an object. */
  predicate Inlined(st: State, k: ObjectID)
  {
    k in st.blankRefs && st.blankRefs[k] == 1 && k in st.blanks
  }

  /**
   * abbreviate: every blank counted once moves from the blanks to the
   * inline blanks (an inline blank already there is kept). A counted blank
   * without an object is passed over, which is what abbreviate must do
   * when it does not find one.
   */
  function Abbreviated(st: State): (r: State)
  {
    st.(inlineBlanks := (map k | k in st.blanks && Inlined(st, k) :: st.blanks[k]) + st.inlineBlanks,
        blanks := map k | k in st.blanks && !(k in st.blankRefs && st.blankRefs[k] == 1) :: st.blanks[k])
  }

  /**
   * Abbreviating splits the blanks: each stays top-level or becomes inline,
   * not both, inline exactly when it is counted once; no object is lost
   * and nothing else changes.
   */
  lemma AbbreviatedSplitsBlanks(st: State)
    requires st.inlineBlanks == map[]
    ensures var r := Abbreviated(st);
      r.blanks.Keys + r.inlineBlanks.Keys == st.blanks.Keys
      && r.blanks.Keys !! r.inlineBlanks.Keys
      && (forall k :: k in r.inlineBlanks <==> Inlined(st, k))
      && (forall k :: k in r.blanks ==> r.blanks[k] == st.blanks[k])
      && (forall k :: k in r.inlineBlanks ==> r.inlineBlanks[k] == st.blanks[k])
      && r.resources == st.resources && r.blankRefs == st.blankRefs
  {
  }

  /** With counts stuck at 1, abbreviate inlines every blank that is referenced at all. */
  lemma EveryReferencedBlankInlined(ids: TypeIds, st: State, k: ObjectID)
    requires CountsOne(ids, st.blankRefs) && k in st.blanks && k in st.blankRefs
    ensures k in Abbreviated(st).inlineBlanks && k !in Abbreviated(st).blanks
  {
  }

  /** single_object: exactly one top-level object, resource or blank. */
  function SingleObject(st: State): bool
  {
    |st.resources| + |st.blanks| == 1
  }

  /** Cardinality of what is left to visit goes down when an unvisited key is visited. */
  lemma FewerUnvisited(keys: set<ObjectID>, visited: set<ObjectID>, k: ObjectID)
    requires k in keys && k !in visited
    ensures |keys - (visited + {k})| < |keys - visited|
  {
    assert keys - (visited + {k}) == (keys - visited) - {k};
  }

  /**
   * The bytes object_atom_size counts for one property: the key, then
   * either the inline blank's object padded, or an atom header plus the
   * padded body. None where the code has no result: it recurses without
   * end through a cycle of inline blanks, or reads a null atom.
   */
  function CountedProperty(ids: TypeIds, p: Property, inline: Objects, visited: set<ObjectID>): Option<nat>
    requires WellFormed(ids)
    decreases |inline.Keys - visited|, 0
  {
    if p.value.Missing? then None
    else if p.value.BlankRef? && BlankKey(ids, p.value.id) in inline then
      var k := BlankKey(ids, p.value.id);
      if k in visited then None
      else
        FewerUnvisited(inline.Keys, visited, k);
        match CountedProps(ids, inline[k], inline, visited + {k})
        case None => None
        case Some(n) => Some(KEY_SIZE + PadSize(OBJECT_SIZE + n))
    else Some(KEY_SIZE + ATOM_HEADER + PadSize(BodySize(p.value)))
  }

  /** object_atom_size's loop: the sum over an object's properties. */
  function CountedProps(ids: TypeIds, ps: seq<Property>, inline: Objects, visited: set<ObjectID>): Option<nat>
    requires WellFormed(ids)
    decreases |inline.Keys - visited|, |ps|
  {
    if ps == [] then Some(0)
    else
      match (CountedProperty(ids, ps[0], inline, visited), CountedProps(ids, ps[1..], inline, visited))
      case (Some(here), Some(rest)) => Some(here + rest)
      case _ => None
  }

  /**
   * The bytes write_property advances the head by: the key, then either
   * the inline blank's object unpadded, or the value atom (header and
   * body) padded as a whole.
   */
  function WrittenProperty(ids: TypeIds, p: Property, inline: Objects, visited: set<ObjectID>): Option<nat>
    requires WellFormed(ids)
    decreases |inline.Keys - visited|, 0
  {
    if p.value.Missing? then None
    else if p.value.BlankRef? && BlankKey(ids, p.value.id) in inline then
      var k := BlankKey(ids, p.value.id);
      if k in visited then None
      else
        FewerUnvisited(inline.Keys, visited, k);
        match WrittenProps(ids, inline[k], inline, visited + {k})
        case None => None
        case Some(n) => Some(KEY_SIZE + OBJECT_SIZE + n)
    else Some(KEY_SIZE + PadSize(ATOM_HEADER + BodySize(p.value)))
  }

  /** write_object's loop: the sum over an object's properties. */
  function WrittenProps(ids: TypeIds, ps: seq<Property>, inline: Objects, visited: set<ObjectID>): Option<nat>
    requires WellFormed(ids)
    decreases |inline.Keys - visited|, |ps|
  {
    if ps == [] then Some(0)
    else
      match (WrittenProperty(ids, ps[0], inline, visited), WrittenProps(ids, ps[1..], inline, visited))
      case (Some(here), Some(rest)) => Some(here + rest)
      case _ => None
  }

  /** Counting and writing have a result for the same properties: no null atom, no cycle reached. */
  lemma {:induction false} PropertyDefinedAlike(ids: TypeIds, p: Property, inline: Objects, visited: set<ObjectID>)
    requires WellFormed(ids)
    ensures CountedProperty(ids, p, inline, visited).Some? <==> WrittenProperty(ids, p, inline, visited).Some?
    decreases |inline.Keys - visited|, 0
  {
    if !p.value.Missing? && p.value.BlankRef? && BlankKey(ids, p.value.id) in inline {
      var k := BlankKey(ids, p.value.id);
      if k !in visited {
        FewerUnvisited(inline.Keys, visited, k);
        PropsDefinedAlike(ids, inline[k], inline, visited + {k});
      }
    }
  }

  lemma {:induction false} PropsDefinedAlike(ids: TypeIds, ps: seq<Property>, inline: Objects, visited: set<ObjectID>)
    requires WellFormed(ids)
    ensures CountedProps(ids, ps, inline, visited).Some? <==> WrittenProps(ids, ps, inline, visited).Some?
    decreases |inline.Keys - visited|, |ps|
  {
    if ps != [] {
      PropertyDefinedAlike(ids, ps[0], inline, visited);
      PropsDefinedAlike(ids, ps[1..], inline, visited);
    }
  }

  /**
   * For a value written in place, counting and writing never agree: the
   * count is header plus padded body, the write the padded atom, and these
   * differ by exactly 4 bytes one way or the other.
   */
  lemma CountAndWriteDisagree(ids: TypeIds, p: Property, inline: Objects, visited: set<ObjectID>)
    requires WellFormed(ids) && !p.value.Missing?
    requires !(p.value.BlankRef? && BlankKey(ids, p.value.id) in inline)
    ensures var c := CountedProperty(ids, p, inline, visited).value;
      var w := WrittenProperty(ids, p, inline, visited).value;
      c == w + 4 || w == c + 4
  {
    var s := BodySize(p.value);
    var q := (s + 7) / 8;
    assert PadSize(s) == 8 * q;
    if s % 8 == 0 || s % 8 > 4 {
      assert PadSize(ATOM_HEADER + s) == 8 * q + 8;
    } else {
      assert PadSize(ATOM_HEADER + s) == 8 * q;
    }
  }

  /** Object sizes, counted or written: the headers plus the properties. */
  ghost function CountedSizes(ids: TypeIds, objs: Objects, inline: Objects): map<ObjectID, nat>
    requires WellFormed(ids)
  {
    map k | k in objs && CountedProps(ids, objs[k], inline, {}).Some? :: OBJECT_SIZE + CountedProps(ids, objs[k], inline, {}).value
  }

  ghost function WrittenSizes(ids: TypeIds, objs: Objects, inline: Objects): map<ObjectID, nat>
    requires WellFormed(ids)
  {
    map k | k in objs && WrittenProps(ids, objs[k], inline, {}).Some? :: OBJECT_SIZE + WrittenProps(ids, objs[k], inline, {}).value
  }

  /** The sum of a map's values. */
  ghost function Total(sizes: map<ObjectID, nat>): nat
    decreases |sizes|
  {
    if sizes == map[] then 0
    else
      var k :| k in sizes;
      assert |sizes - {k}| < |sizes| by { assert sizes.Keys - {k} < sizes.Keys; }
      sizes[k] + Total(sizes - {k})
  }

  /** The sum does not depend on which entry is taken first. */
  lemma {:induction false} TotalRemove(sizes: map<ObjectID, nat>, k: ObjectID)
    requires k in sizes
    ensures Total(sizes) == sizes[k] + Total(sizes - {k})
    decreases |sizes|
  {
    var j :| j in sizes && Total(sizes) == sizes[j] + Total(sizes - {j});
    if j != k {
      assert |sizes - {j}| < |sizes| by { assert sizes.Keys - {j} < sizes.Keys; }
      assert |sizes - {k}| < |sizes| by { assert sizes.Keys - {k} < sizes.Keys; }
      TotalRemove(sizes - {j}, k);
      TotalRemove(sizes - {k}, j);
      assert sizes - {j} - {k} == sizes - {k} - {j};
    }
  }

  /** Every top-level object has a size, counted and written. */
  ghost predicate Sized(ids: TypeIds, st: State)
    requires WellFormed(ids)
  {
    (forall k :: k in st.resources ==> CountedProps(ids, st.resources[k], st.inlineBlanks, {}).Some?)
    && (forall k :: k in st.blanks ==> CountedProps(ids, st.blanks[k], st.inlineBlanks, {}).Some?)
  }

  /** atom_size: the counted sizes of the resources and then of the blanks. */
  ghost function CountedTotal(ids: TypeIds, st: State): nat
    requires WellFormed(ids)
  {
    Total(CountedSizes(ids, st.resources, st.inlineBlanks)) + Total(CountedSizes(ids, st.blanks, st.inlineBlanks))
  }

  /** What write advances the head by: the written sizes of the same objects. */
  ghost function WrittenTotal(ids: TypeIds, st: State): nat
    requires WellFormed(ids)
  {
    Total(WrittenSizes(ids, st.resources, st.inlineBlanks)) + Total(WrittenSizes(ids, st.blanks, st.inlineBlanks))
  }

  /** A document of one statement, `<0> <0> "1"^^xsd:integer`, read into a single resource. */
  function OneIntModel(ids: TypeIds): State
    requires WellFormed(ids)
  {
    Fresh().(resources := map[MakeObjectID(ids.resource, 0, 0) := [Property(0, Int32Literal("1"))]])
  }

  lemma TotalOfOne(k: ObjectID, n: nat)
    ensures Total(map[k := n]) == n
  {
    TotalRemove(map[k := n], k);
    assert map[k := n] - {k} == map[];
  }

  /**
   * As written, message_run refuses that single object: atom_size counts
   * 28 bytes and write advances 24, so the size check fails and the output
   * is never marked valid.
   */
  lemma OneIntModelRejected(ids: TypeIds)
    requires WellFormed(ids)
    ensures SingleObject(OneIntModel(ids)) && Sized(ids, OneIntModel(ids))
    ensures CountedTotal(ids, OneIntModel(ids)) == 28 && WrittenTotal(ids, OneIntModel(ids)) == 24
  {
    var st := OneIntModel(ids);
    var key := MakeObjectID(ids.resource, 0, 0);
    var ps := [Property(0, Int32Literal("1"))];
    assert CountedProps(ids, ps, map[], {}) == Some(16) by {
      assert ps[1..] == [];
      assert PadSize(4) == 8;
    }
    assert WrittenProps(ids, ps, map[], {}) == Some(12) by {
      assert ps[1..] == [];
      assert PadSize(8) == 8;
    }
    assert CountedSizes(ids, st.resources, st.inlineBlanks) == map[key := 28];
    assert WrittenSizes(ids, st.resources, st.inlineBlanks) == map[key := 24];
    assert CountedSizes(ids, st.blanks, st.inlineBlanks) == map[];
    assert WrittenSizes(ids, st.blanks, st.inlineBlanks) == map[];
    TotalOfOne(key, 28);
    TotalOfOne(key, 24);
  }

  /** The output of message_run and the offset its head pointer has reached. */
  datatype Cursor = Cursor(bytes: seq<bv8>, head: nat)

  /**
   * The step after the Model header as written: `*head += sizeof(LV2_Object)`
   * adds 8 to the byte head points at, the first byte of the header's type
   * field, and leaves head at the start of the output.
   */
  function SkipModelHeaderAsWritten(out: seq<bv8>): Cursor
    requires |out| >= ATOM_HEADER
  {
    Cursor(out[0 := out[0] + OBJECT_HEADER as bv8], 0)
  }

  /** The step after the Model header as intended: head moves past the header just written. */
  function SkipModelHeader(out: seq<bv8>): Cursor
    requires |out| >= ATOM_HEADER
  {
    Cursor(out, ATOM_HEADER)
  }

  /**
   * As written, the Model header's type byte is changed, and the objects,
   * written from head on, start over the header and stop ATOM_HEADER bytes
   * short of the size the port was resized to.
   */
  lemma ModelHeaderOverwritten(out: seq<bv8>, objects: nat)
    requires |out| == ATOM_HEADER + objects && objects > 0
    ensures var c := SkipModelHeaderAsWritten(out);
      |c.bytes| == |out| && c.bytes[0] != out[0]
      && c.head < ATOM_HEADER && c.head + objects < |out|
  {
  }

  /**
   * As intended, the header is kept, and the objects, written from head
   * on, fill the rest of the output exactly.
   */
  lemma ModelHeaderKept(out: seq<bv8>, objects: nat)
    requires |out| == ATOM_HEADER + objects
    ensures var c := SkipModelHeader(out);
      c.bytes[..ATOM_HEADER] == out[..ATOM_HEADER]
      && c.head == ATOM_HEADER && c.head + objects == |out|
  {
  }

  /** The entries of `sizes` whose keys are in `keys`. */
  ghost function Restrict(sizes: map<ObjectID, nat>, keys: set<ObjectID>): map<ObjectID, nat>
  {
    map k | k in sizes && k in keys :: sizes[k]
  }

  /** abbreviate's progress with `todo` still to visit: the blanks moved so far, and those still top-level. */
  ghost function MovedSoFar(st: State, todo: set<ObjectID>): Objects
  {
    (map k | k in st.blanks && Inlined(st, k) && k !in todo :: st.blanks[k]) + st.inlineBlanks
  }

  ghost function KeptSoFar(st: State, todo: set<ObjectID>): Objects
  {
    map k | k in st.blanks && !(k in st.blankRefs && st.blankRefs[k] == 1 && k !in todo) :: st.blanks[k]
  }

  lemma AbbreviateStep(st: State, todo: set<ObjectID>, r: ObjectID)
    requires Presumed(st) && r in todo && todo <= st.blankRefs.Keys
    ensures st.blankRefs[r] != 1 ==> MovedSoFar(st, todo - {r}) == MovedSoFar(st, todo) && KeptSoFar(st, todo - {r}) == KeptSoFar(st, todo)
    ensures st.blankRefs[r] == 1 ==>
      r in KeptSoFar(st, todo)
      && KeptSoFar(st, todo - {r}) == KeptSoFar(st, todo) - {r}
      && MovedSoFar(st, todo - {r}) == (if r in MovedSoFar(st, todo) then MovedSoFar(st, todo) else MovedSoFar(st, todo)[r := KeptSoFar(st, todo)[r]])
  {
    if st.blankRefs[r] == 1 {
      MoveStep(st, todo, r);
    }
  }

  lemma MoveStep(st: State, todo: set<ObjectID>, r: ObjectID)
    requires Presumed(st) && r in todo && r in st.blankRefs && st.blankRefs[r] == 1
    ensures r in KeptSoFar(st, todo) && KeptSoFar(st, todo - {r}) == KeptSoFar(st, todo) - {r}
    ensures MovedSoFar(st, todo - {r}) == (if r in MovedSoFar(st, todo) then MovedSoFar(st, todo) else MovedSoFar(st, todo)[r := KeptSoFar(st, todo)[r]])
  {
    assert r in st.blanks;
    assert r !in st.inlineBlanks ==> r !in MovedSoFar(st, todo);
  }

  /** RDFRead::Model, filled by the statement handler and read out by message_run. */
  class RdfModel {
    const ids: TypeIds
    var nextId: nat
    var blankIds: map<string, ObjectID>
    var blankRefs: map<ObjectID, nat>
    var resources: Objects
    var blanks: Objects
    var inlineBlanks: Objects

    function Snap(): State
      reads this
    {
      State(nextId, blankIds, blankRefs, resources, blanks, inlineBlanks)
    }

    constructor (ids: TypeIds)
      ensures this.ids == ids && Snap() == Fresh()
    {
      this.ids := ids;
      nextId := 1;
      blankIds := map[];
      blankRefs := map[];
      resources := map[];
      blanks := map[];
      inlineBlanks := map[];
    }

    /** blank_id, for the context 0 every caller passes. */
    method BlankId(name: string) returns (id: ObjectID)
      requires WellFormed(ids)
      modifies this`nextId, this`blankIds
      ensures (Snap(), id) == BlankIdOf(ids, old(Snap()), name)
    {
      if name in blankIds {
        return blankIds[name];
      }
      id := BlankKey(ids, nextId);
      nextId := nextId + 1;
      blankIds := blankIds[name := id];
    }

    /** The value atom for a statement's object, drawing and counting a blank id for a blank object. */
    method ValueOf(t: Term) returns (value: Value)
      requires WellFormed(ids)
      modifies this`nextId, this`blankIds, this`blankRefs
      ensures (Snap(), value) == ObjectValue(ids, old(Snap()), t)
    {
      match t {
        case Resource(uri) =>
          value := IdRef(uri);
        case Anonymous(name) =>
          ghost var st := Snap();
          var id := BlankId(name);
          assert (Snap(), id) == BlankIdOf(ids, st, name);
          value := BlankRef(id.id);
          var lookup := RefLookup(ids, id.id);
          if lookup in blankRefs {
            blankRefs := blankRefs[lookup := blankRefs[lookup] + 1];
          } else if id !in blankRefs {
            blankRefs := blankRefs[id := 1];
          }
        case Literal(text, dtype) =>
          value := LiteralValue(text, dtype);
        case OtherTerm =>
          value := Missing;
      }
    }

    /** The subject's part of rdf_statement_handler: find or create the object it describes. */
    method FindSubject(t: Term) returns (key: ObjectID, isBlank: bool)
      requires WellFormed(ids) && (t.Resource? || t.Anonymous?)
      modifies this`nextId, this`blankIds, this`resources, this`blanks
      ensures SubjectObject(ids, old(Snap()), t) == Some((Snap(), key, isBlank))
    {
      if t.Resource? {
        key := MakeObjectID(ids.resource, 0, t.uri);
        if key !in resources {
          resources := resources[key := []];
        }
        isBlank := false;
      } else {
        ghost var st := Snap();
        key := BlankId(t.name);
        assert (Snap(), key) == BlankIdOf(ids, st, t.name);
        if key !in blanks {
          blanks := blanks[key := []];
        }
        isBlank := true;
      }
    }

    /** properties->insert on the subject's multimap. */
    method AddProperty(key: ObjectID, isBlank: bool, p: Property)
      requires key in (if isBlank then blanks else resources)
      modifies this`resources, this`blanks
      ensures Snap() == AddEntry(old(Snap()), key, isBlank, p)
    {
      if isBlank {
        blanks := blanks[key := InsertProperty(blanks[key], p)];
      } else {
        resources := resources[key := InsertProperty(resources[key], p)];
      }
    }

    /** rdf_statement_handler. */
    method HandleStatement(s: Statement)
      requires WellFormed(ids)
      modifies this
      ensures Snap() == Handle(ids, old(Snap()), s)
    {
      if !(s.subject.Resource? || s.subject.Anonymous?) {
        return;
      }
      var key, isBlank := FindSubject(s.subject);
      if !s.pred.Resource? {
        return;
      }
      var value := ValueOf(s.obj);
      AddProperty(key, isBlank, Property(s.pred.uri, value));
    }

    /** abbreviate: move each blank counted once from the blanks to the inline blanks. */
    method Abbreviate()
      requires Presumed(Snap())
      modifies this`blanks, this`inlineBlanks
      ensures Snap() == Abbreviated(old(Snap()))
    {
      ghost var st := Snap();
      var todo := blankRefs.Keys;
      assert inlineBlanks == MovedSoFar(st, todo) && blanks == KeptSoFar(st, todo);
      while todo != {}
        invariant todo <= blankRefs.Keys
        invariant inlineBlanks == MovedSoFar(st, todo) && blanks == KeptSoFar(st, todo)
        decreases todo
      {
        var r :| r in todo;
        AbbreviateStep(st, todo, r);
        if blankRefs[r] == 1 {
          if r !in inlineBlanks {
            inlineBlanks := inlineBlanks[r := blanks[r]];
          }
          blanks := blanks - {r};
        }
        todo := todo - {r};
      }
      assert MovedSoFar(st, {}) == Abbreviated(st).inlineBlanks;
      assert KeptSoFar(st, {}) == Abbreviated(st).blanks;
    }

    function SingleObject(): (r: bool)
      reads this
      ensures r <==> |resources| + |blanks| == 1
    {
      |resources| + |blanks| == 1
    }

    /** object_atom_size: the headers, then each property as counted. */
    method ObjectAtomSize(ps: seq<Property>, ghost visited: set<ObjectID>) returns (size: nat)
      requires WellFormed(ids) && CountedProps(ids, ps, inlineBlanks, visited).Some?
      ensures size == OBJECT_SIZE + CountedProps(ids, ps, inlineBlanks, visited).value
      decreases |inlineBlanks.Keys - visited|
    {
      size := OBJECT_SIZE;
      var i := 0;
      while i < |ps|
        invariant i <= |ps| && CountedProps(ids, ps[i..], inlineBlanks, visited).Some?
        invariant size + CountedProps(ids, ps[i..], inlineBlanks, visited).value == OBJECT_SIZE + CountedProps(ids, ps, inlineBlanks, visited).value
      {
        assert ps[i..][1..] == ps[i + 1..];
        var p := ps[i];
        assert CountedProperty(ids, p, inlineBlanks, visited).Some?;
        var here := KEY_SIZE;
        if p.value.BlankRef? && BlankKey(ids, p.value.id) in inlineBlanks {
          var k := BlankKey(ids, p.value.id);
          FewerUnvisited(inlineBlanks.Keys, visited, k);
          var inner := ObjectAtomSize(inlineBlanks[k], visited + {k});
          here := here + PadSize(inner);
        } else {
          here := here + ATOM_HEADER + PadSize(BodySize(p.value));
        }
        assert here == CountedProperty(ids, p, inlineBlanks, visited).value;
        size := size + here;
        i := i + 1;
      }
      assert ps[i..] == [];
    }

    /** The counted sizes of the objects of one map, summed in any order. */
    method SumObjects(objs: Objects) returns (total: nat)
      requires WellFormed(ids) && forall k :: k in objs ==> CountedProps(ids, objs[k], inlineBlanks, {}).Some?
      ensures total == Total(CountedSizes(ids, objs, inlineBlanks))
    {
      ghost var sizes := CountedSizes(ids, objs, inlineBlanks);
      total := 0;
      var todo := objs.Keys;
      assert Restrict(sizes, todo) == sizes;
      while todo != {}
        invariant todo <= objs.Keys
        invariant total + Total(Restrict(sizes, todo)) == Total(sizes)
        decreases todo
      {
        var k :| k in todo;
        var size := ObjectAtomSize(objs[k], {});
        TotalRemove(Restrict(sizes, todo), k);
        assert Restrict(sizes, todo) - {k} == Restrict(sizes, todo - {k});
        total := total + size;
        todo := todo - {k};
      }
      assert Restrict(sizes, todo) == map[];
    }

    /** atom_size: the resources' sizes and then the blanks'. */
    method AtomSize() returns (size: nat)
      requires WellFormed(ids) && Sized(ids, Snap())
      ensures size == CountedTotal(ids, Snap())
    {
      var r := SumObjects(resources);
      var b := SumObjects(blanks);
      size := r + b;
    }
  
    /**
     * write_object, corrected to lay out what object_atom_size counts: the
     * headers, then each property's key and value, a value atom taking its
     * header and its padded body and an inline blank its padded object.
     */
    method WriteObject(ps: seq<Property>, head: nat, ghost visited: set<ObjectID>) returns (end: nat)
      requires WellFormed(ids) && CountedProps(ids, ps, inlineBlanks, visited).Some?
      ensures end == head + OBJECT_SIZE + CountedProps(ids, ps, inlineBlanks, visited).value
      decreases |inlineBlanks.Keys - visited|
    {
      end := head + ATOM_HEADER + OBJECT_HEADER;
      var i := 0;
      while i < |ps|
        invariant i <= |ps| && CountedProps(ids, ps[i..], inlineBlanks, visited).Some?
        invariant end + CountedProps(ids, ps[i..], inlineBlanks, visited).value == head + OBJECT_SIZE + CountedProps(ids, ps, inlineBlanks, visited).value
      {
        assert ps[i..][1..] == ps[i + 1..];
        ghost var start := end;
        var p := ps[i];
        assert CountedProperty(ids, p, inlineBlanks, visited).Some?;
        end := end + KEY_SIZE;
        if p.value.BlankRef? && BlankKey(ids, p.value.id) in inlineBlanks {
          var k := BlankKey(ids, p.value.id);
          FewerUnvisited(inlineBlanks.Keys, visited, k);
          var objectStart := end;
          end := WriteObject(inlineBlanks[k], end, visited + {k});
          end := objectStart + PadSize(end - objectStart);
        } else {
          end := end + ATOM_HEADER + PadSize(BodySize(p.value));
        }
        assert end == start + CountedProperty(ids, p, inlineBlanks, visited).value;
        i := i + 1;
      }
      assert ps[i..] == [];
    }

    /** write's loop over the objects of one map, in any order. */
    method WriteObjects(objs: Objects, head: nat) returns (end: nat)
      requires WellFormed(ids) && forall k :: k in objs ==> CountedProps(ids, objs[k], inlineBlanks, {}).Some?
      ensures end == head + Total(CountedSizes(ids, objs, inlineBlanks))
    {
      ghost var sizes := CountedSizes(ids, objs, inlineBlanks);
      end := head;
      var todo := objs.Keys;
      assert Restrict(sizes, todo) == sizes;
      while todo != {}
        invariant todo <= objs.Keys
        invariant end + Total(Restrict(sizes, todo)) == head + Total(sizes)
        decreases todo
      {
        var k :| k in todo;
        end := WriteObject(objs[k], end, {});
        TotalRemove(Restrict(sizes, todo), k);
        assert Restrict(sizes, todo) - {k} == Restrict(sizes, todo - {k});
        todo := todo - {k};
      }
      assert Restrict(sizes, todo) == map[];
    }

    /** write: the resources, then the blanks; the head ends exactly atom_size further on. */
    method Write(head: nat) returns (end: nat)
      requires WellFormed(ids) && Sized(ids, Snap())
      ensures end == head + CountedTotal(ids, Snap())
    {
      end := WriteObjects(resources, head);
      end := WriteObjects(blanks, end);
    }

    /**
     * message_run once the document is parsed: abbreviate, size the output
     * (with a Model header unless there is a single object), resize the
     * port, write and, for a single object, check the written size. The
     * output is marked valid when the port could be resized. With the
     * corrected writer and the head moved past the Model header, the
     * objects end exactly at the size counted.
     */
    method Emit(resized: bool) returns (valid: bool, size: nat, written: nat)
      requires WellFormed(ids) && Presumed(Snap()) && Sized(ids, Abbreviated(Snap()))
      modifies this`blanks, this`inlineBlanks
      ensures Snap() == Abbreviated(old(Snap()))
      ensures size == (if SingleObject() then 0 else ATOM_HEADER) + CountedTotal(ids, Snap())
      ensures valid == resized
      ensures resized ==> written == size
    {
      Abbreviate();
      var atomSize := AtomSize();
      size := if SingleObject() then atomSize else ATOM_HEADER + atomSize;
      written := 0;
      if !resized {
        return false, size, written;
      }
      if SingleObject() {
        written := Write(0);
        if written != size {
          return false, size, written;
        }
      } else {
        // The objects follow the Model header, as SkipModelHeader places head.
        written := Write(ATOM_HEADER);
      }
      valid := true;
    }
  }
}
