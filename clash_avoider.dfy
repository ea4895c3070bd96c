/**
 * Ingen's ClashAvoider: an interface filter that renames the object paths
 * of incoming messages so that they do not clash with objects already in
 * the store. It remembers every mapping it has made (the symbol map) and,
 * per base path, the last "_N" suffix it handed out (the offsets).
 */
module IngenClashAvoider {
  import opened Wrappers
  import opened RaulPath

  // ---------------------------------------------------------------------
  // Reading and writing the "_N" suffix
  // ---------------------------------------------------------------------

  /** unsigned int holds values modulo 2^32. */
  const UINT_RANGE: nat := 0x1_0000_0000

  /** The longest run of decimal digits at the start of `t`. */
  function LeadingDigits(t: string): (d: string)
    ensures d <= t && AllDigits(d)
    ensures |d| < |t| ==> !IsDigit(t[|d|])
  {
    if t != [] && IsDigit(t[0]) then [t[0]] + LeadingDigits(t[1..]) else []
  }

  /**
   * sscanf(t, "%u") succeeds when `t` starts with an optional sign and at
   * least one digit; a '-' negates the value modulo 2^32. (Leading white
   * space, which %u would skip, cannot occur in a path.)
   */
  function ScanUnsigned(t: string): (r: Option<nat>)
    ensures r.Some? ==> r.value < UINT_RANGE
    ensures r.Some? <==> (|t| > 0 && IsDigit(t[0])) || (|t| > 1 && (t[0] == '+' || t[0] == '-') && IsDigit(t[1]))
  {
    var signed := |t| > 0 && (t[0] == '+' || t[0] == '-');
    var digits := LeadingDigits(if signed then t[1..] else t);
    if digits == [] then None
    else
      var v := DigitsValue(digits) % UINT_RANGE;
      Some(if signed && t[0] == '-' then (UINT_RANGE - v) % UINT_RANGE else v)
  }

  /** The offset map_path reads after the last '_' of the path, when there is one. */
  function TrailingOffset(p: string): Option<nat>
  {
    var pos := LastIndexOf(p, '_');
    if pos == -1 || pos == |p| - 1 then None else ScanUnsigned(p[pos + 1..])
  }

  /** The path without its "_N" suffix: everything before the last '_' when an offset was read. */
  function BasePath(p: string): (b: string)
    ensures b <= p
  {
    if TrailingOffset(p).Some? then p[..LastIndexOf(p, '_')] else p
  }

  /** The offset map_path starts from: the one read from the suffix, or 0. */
  function InitialOffset(p: string): nat
  {
    match TrailingOffset(p)
    case Some(n) => n
    case None => 0
  }

  /** The candidate name for offset `n`: base + "_" + n. */
  function Candidate(base: string, n: nat): (c: string)
  {
    base + "_" + NatToString(n)
  }

  /** A number written in decimal has no '_'. */
  lemma NoUnderscoreInNumber(n: nat)
    ensures '_' !in NatToString(n)
  {
    var s := NatToString(n);
    assert forall i :: 0 <= i < |s| ==> s[i] != '_' by {
      forall i | 0 <= i < |s| ensures s[i] != '_' {
        assert IsDigit(s[i]);
      }
    }
  }

  /** All-digit text is its own leading digit run. */
  lemma {:induction false} LeadingDigitsOfDigits(s: string)
    requires AllDigits(s)
    ensures LeadingDigits(s) == s
  {
    if s != [] {
      LeadingDigitsOfDigits(s[1..]);
      assert [s[0]] + s[1..] == s;
    }
  }

  lemma SmallUnsignedMod(n: nat)
    requires n < UINT_RANGE
    ensures n % UINT_RANGE == n
  {
  }

  /** Plain decimal text scans as its value. */
  lemma ScanOfDigits(s: string)
    requires s != [] && AllDigits(s)
    ensures ScanUnsigned(s) == Some(DigitsValue(s) % UINT_RANGE)
  {
    assert IsDigit(s[0]);
    LeadingDigitsOfDigits(s);
  }

  /** The last '_' of a candidate is the one before the number. */
  lemma CandidateLastUnderscore(base: string, n: nat)
    ensures LastIndexOf(Candidate(base, n), '_') == |base|
  {
    var c := Candidate(base, n);
    var s := NatToString(n);
    NoUnderscoreInNumber(n);
    assert c[|base|] == '_';
    forall j | |base| < j < |c|
      ensures c[j] != '_'
    {
      assert c[j] == s[j - |base| - 1];
    }
  }

  /**
   * A candidate reads back as its base and its offset: renaming a renamed
   * path strips the suffix that was added.
   */
  lemma CandidateParses(base: string, n: nat)
    requires n < UINT_RANGE
    ensures TrailingOffset(Candidate(base, n)) == Some(n)
    ensures BasePath(Candidate(base, n)) == base
  {
    var c := Candidate(base, n);
    var s := NatToString(n);
    CandidateLastUnderscore(base, n);
    assert c[|base| + 1..] == s;
    LeadingDigitsOfDigits(s);
    DigitsValueOfNatToString(n);
    ScanOfDigits(s);
    SmallUnsignedMod(n);
    assert TrailingOffset(c) == Some(n);
    assert c[..|base|] == base;
  }

  /** Different offsets give different candidates. */
  lemma CandidateInjective(base: string, a: nat, b: nat)
    ensures Candidate(base, a) == Candidate(base, b) ==> a == b
  {
    if Candidate(base, a) == Candidate(base, b) {
      assert Candidate(base, a)[|base| + 1..] == NatToString(a);
      assert Candidate(base, b)[|base| + 1..] == NatToString(b);
      NatToStringInjective(a, b);
    }
  }

  // ---------------------------------------------------------------------
  // Probing for a free offset
  // ---------------------------------------------------------------------

  /** The j-th offset tried when probing from `first` in steps of `step`. */
  function Trial(first: nat, step: nat, j: nat): nat
  {
    first + step * j
  }

  lemma TrialShift(first: nat, step: nat, j: nat)
    ensures Trial(first, step, j + 1) == Trial(first + step, step, j)
  {
    assert step * (j + 1) == step * j + step;
  }

  /** The avoided candidates at offset `n` or above: finitely many, so probing ends. */
  ghost function Pending(avoided: set<string>, base: string, n: nat): set<string>
  {
    set s | s in avoided && exists k: nat :: k >= n && s == Candidate(base, k)
  }

  lemma PendingShrinks(avoided: set<string>, base: string, n: nat, step: nat)
    requires step >= 1 && Candidate(base, n) in avoided
    ensures |Pending(avoided, base, n + step)| < |Pending(avoided, base, n)|
  {
    var lower := Pending(avoided, base, n);
    var upper := Pending(avoided, base, n + step);
    assert Candidate(base, n) in lower;
    forall s | s in upper
      ensures s in lower && s != Candidate(base, n)
    {
      var k: nat :| k >= n + step && s == Candidate(base, k);
      CandidateInjective(base, k, n);
    }
    assert upper <= lower - {Candidate(base, n)};
    SubsetNotLarger(upper, lower - {Candidate(base, n)});
  }

  lemma {:induction false} SubsetNotLarger<T>(a: set<T>, b: set<T>)
    requires a <= b
    ensures |a| <= |b|
    decreases a
  {
    if a != {} {
      var x :| x in a;
      SubsetNotLarger(a - {x}, b - {x});
    }
  }

  /** The first offset from `first` on, in steps of `step`, whose candidate is not avoided. */
  ghost function FirstFree(avoided: set<string>, base: string, first: nat, step: nat): nat
    requires step >= 1
    decreases |Pending(avoided, base, first)|
  {
    if Candidate(base, first) !in avoided then first
    else
      PendingShrinks(avoided, base, first, step);
      FirstFree(avoided, base, first + step, step)
  }

  /** FirstFree is a tried offset, its candidate is free, and every earlier trial is taken. */
  lemma {:induction false} FirstFreeIsFirst(avoided: set<string>, base: string, first: nat, step: nat)
    requires step >= 1
    ensures var n := FirstFree(avoided, base, first, step);
      && n >= first
      && Candidate(base, n) !in avoided
      && (exists j: nat :: n == Trial(first, step, j))
      && (forall j: nat :: Trial(first, step, j) < n ==> Candidate(base, Trial(first, step, j)) in avoided)
    decreases |Pending(avoided, base, first)|
  {
    var n := FirstFree(avoided, base, first, step);
    if Candidate(base, first) !in avoided {
      assert n == Trial(first, step, 0);
    } else {
      PendingShrinks(avoided, base, first, step);
      FirstFreeIsFirst(avoided, base, first + step, step);
      var j: nat :| n == Trial(first + step, step, j);
      TrialShift(first, step, j);
      forall i: nat | Trial(first, step, i) < n
        ensures Candidate(base, Trial(first, step, i)) in avoided
      {
        if i > 0 {
          TrialShift(first, step, i - 1);
        }
      }
    }
  }

  // ---------------------------------------------------------------------
  // The ancestors map_path consults
  // ---------------------------------------------------------------------

  /**
   * The ancestors the do-while loop of map_path looks up, nearest first,
   * starting from the path's parent `p`: each one, then its parent, until
   * the next one would be the root. The root is therefore consulted only
   * when it is the path's own parent.
   */
  function Consulted(p: Path): (c: seq<Path>)
    ensures |c| >= 1 && c[0] == p
    ensures forall i :: 0 <= i < |c| ==> Base(c[i]) <= Base(p)
    ensures forall i :: 0 < i < |c| ==> c[i] != "/"
    decreases |p|
  {
    ParentIsValid(p);
    if Parent(p) == "/" then [p]
    else
      ParentShorter(p);
      ParentBasePrefix(p);
      [p] + Consulted(Parent(p))
  }

  /** The first of `c` that has a mapping. */
  function FirstIn(m: map<string, string>, c: seq<Path>): (r: Option<Path>)
    ensures r.None? <==> forall i :: 0 <= i < |c| ==> c[i] !in m
    ensures r.Some? ==> exists i :: 0 <= i < |c| && c[i] == r.value && r.value in m
                          && forall j :: 0 <= j < i ==> c[j] !in m
  {
    if c == [] then None
    else if c[0] in m then Some(c[0])
    else
      var r := FirstIn(m, c[1..]);
      assert forall i :: 1 <= i < |c| ==> c[i] == c[1..][i - 1];
      r
  }

  /** The nearest consulted ancestor of `p` that is mapped. */
  function MappedAncestor(m: map<string, string>, p: Path): (r: Option<Path>)
    ensures r.Some? ==> r.value in m && Base(r.value) <= p
  {
    ParentIsValid(p);
    ParentBasePrefix(p);
    FirstIn(m, Consulted(Parent(p)))
  }

  // ---------------------------------------------------------------------
  // The renamer
  // ---------------------------------------------------------------------

  /** The two memo tables: path to image, and base path to last offset. */
  datatype Memo = Memo(symbols: map<string, string>, offsets: map<string, nat>)

  /** An image and the memo tables after computing it. */
  datatype Mapped = Mapped(image: string, memo: Memo)

  type Atom = string

  /** Resource::Properties: (predicate, value) pairs. */
  type Properties = seq<(string, Atom)>

  /** The calls the wrapped interface receives. */
  datatype Message =
    | Put(uri: string, properties: Properties)
    | Delta(uri: string, remove: Properties, add: Properties)
    | Move(oldPath: string, newPath: string)
    | Connect(srcPort: string, dstPort: string)
    | Disconnect(srcPort: string, dstPort: string)
    | SetProperty(subject: string, key: string, value: Atom)
    | Del(path: string)

  /** The name map_path passes to child_name_offset. */
  function SymbolOf(base: string): string
  {
    if |base| > 1 then Name(base) else "_"
  }

  class ClashAvoider {
    /** The paths of the objects in the store. */
    const store: set<string>
    /** The optional extra set of paths to avoid. */
    const alsoAvoid: Option<set<string>>
    /** Path::is_path on a URI. */
    const isPath: string -> bool
    /** The store's child_name_offset(parent, name). */
    const childNameOffset: (string, string) -> nat

    var symbolMap: map<string, string>
    var offsets: map<string, nat>
    /** The calls forwarded to the target interface, in order. */
    var sent: seq<Message>

    ghost predicate Valid()
    {
      forall u :: isPath(u) ==> IsValid(u)
    }

    constructor (store: set<string>, alsoAvoid: Option<set<string>>,
                 isPath: string -> bool, childNameOffset: (string, string) -> nat)
      requires forall u :: isPath(u) ==> IsValid(u)
      ensures Valid()
      ensures this.store == store && this.alsoAvoid == alsoAvoid
      ensures this.isPath == isPath && this.childNameOffset == childNameOffset
      ensures symbolMap == map[] && offsets == map[] && sent == []
    {
      this.store := store;
      this.alsoAvoid := alsoAvoid;
      this.isPath := isPath;
      this.childNameOffset := childNameOffset;
      symbolMap := map[];
      offsets := map[];
      sent := [];
    }

    function State(): Memo
      reads this
    {
      Memo(symbolMap, offsets)
    }

    /** Everything the renamer must not produce. */
    ghost function Avoided(): set<string>
    {
      store + (match alsoAvoid case Some(a) => a case None => {})
    }

    /** exists: in the store, or in the also-avoid set when there is one. */
    function Exists(p: string): (b: bool)
      ensures b <==> p in Avoided()
    {
      p in store || (alsoAvoid.Some? && p in alsoAvoid.value)
    }

    /** The first offset the probing loop tries: one past the remembered offset, else the offset read from the path, 0 becoming 2. */
    function FirstTrial(offsets: map<string, nat>, base: string, offset: nat): nat
    {
      if base in offsets then offsets[base] + 1
      else if offset == 0 then 2 else offset
    }

    /** With a remembered offset the counter is bumped twice per taken candidate. */
    function TrialStep(offsets: map<string, nat>, base: string): nat
    {
      if base in offsets then 2 else 1
    }

    /** The renaming branch of map_path: probe for a free "_N" candidate. */
    ghost function Renamed(s: Memo, p: Path): Mapped
    {
      var base := BasePath(p);
      var n := FirstFree(Avoided(), base, FirstTrial(s.offsets, BasePath(p), InitialOffset(p)), TrialStep(s.offsets, BasePath(p)));
      var c := Candidate(base, n);
      var offsets := if base in s.offsets then s.offsets[base := n]
                     else s.offsets[base := childNameOffset(Parent(p), SymbolOf(base))];
      Mapped(c, Memo(s.symbols[p := c], offsets))
    }

    /** Renamed, written out for a given outcome of the probing. */
    lemma RenamedWith(s: Memo, p: Path, n: nat)
      requires n == FirstFree(Avoided(), BasePath(p), FirstTrial(s.offsets, BasePath(p), InitialOffset(p)), TrialStep(s.offsets, BasePath(p)))
      ensures var base := BasePath(p);
        Renamed(s, p) == Mapped(Candidate(base, n), Memo(s.symbols[p := Candidate(base, n)],
          if base in s.offsets then s.offsets[base := n]
          else s.offsets[base := childNameOffset(Parent(p), SymbolOf(base))]))
    {
    }

    /** map_path on the memo tables `s`. */
    ghost function MapPathSpec(s: Memo, p: Path): Mapped
    {
      if p in s.symbols then Mapped(s.symbols[p], s)
      else match MappedAncestor(s.symbols, p)
        case Some(a) =>
          var r := Base(s.symbols[a]) + p[|Base(a)|..];
          Mapped(r, s.(symbols := s.symbols[p := r]))
        case None =>
          if !Exists(p) then Mapped(p, s.(symbols := s.symbols[p := p]))
          else Renamed(s, p)
    }

    /** map_uri: paths go through map_path, other URIs are kept. */
    ghost function MapUriSpec(s: Memo, uri: string): Mapped
      requires Valid()
    {
      if isPath(uri) then MapPathSpec(s, uri) else Mapped(uri, s)
    }

    /**
     * The image of a path is remembered, earlier mappings are never
     * changed, and asking again returns the same image and changes nothing.
     */
    lemma MapPathMemoised(s: Memo, p: Path)
      ensures var m := MapPathSpec(s, p);
        && p in m.memo.symbols && m.memo.symbols[p] == m.image
        && (forall q :: q in s.symbols ==> q in m.memo.symbols && m.memo.symbols[q] == s.symbols[q])
        && MapPathSpec(m.memo, p) == Mapped(m.image, m.memo)
    {
      var m := MapPathSpec(s, p);
      if p !in s.symbols && MappedAncestor(s.symbols, p).None? && Exists(p) {
        var base := BasePath(p);
        if base in s.offsets {
          assert m.memo.symbols == s.symbols[p := m.image];
        } else {
          assert m.memo.symbols == s.symbols[p := m.image];
        }
      }
    }

    /**
     * Below a mapped ancestor, the path keeps its suffix under the
     * ancestor's image.
     */
    lemma MapPathUnderMappedAncestor(s: Memo, p: Path, a: Path)
      requires p !in s.symbols && MappedAncestor(s.symbols, p) == Some(a)
      ensures var suffix := p[|Base(a)|..];
        && p == Base(a) + suffix
        && MapPathSpec(s, p).image == Base(s.symbols[a]) + suffix
        && MapPathSpec(s, p).memo.offsets == s.offsets
    {
      assert Base(a) <= p;
      assert p == Base(a) + p[|Base(a)|..];
    }

    /** A path that is neither mapped, below a mapped ancestor, nor taken maps to itself. */
    lemma MapPathKeepsFreePath(s: Memo, p: Path)
      requires p !in s.symbols && MappedAncestor(s.symbols, p).None? && !Exists(p)
      ensures MapPathSpec(s, p) == Mapped(p, Memo(s.symbols[p := p], s.offsets))
    {
    }

    /**
     * A taken path is renamed to base + "_" + N: N is one of the offsets
     * tried (from the remembered offset plus one in steps of two when the
     * base has one, otherwise from the offset read from the path, or 2, in
     * steps of one), every earlier trial is taken, and the image is free.
     * A remembered offset ends at N; otherwise the store's
     * child_name_offset is remembered.
     */
    lemma MapPathRenames(s: Memo, p: Path)
      requires p !in s.symbols && MappedAncestor(s.symbols, p).None? && Exists(p)
      ensures var base := BasePath(p);
        var first := FirstTrial(s.offsets, BasePath(p), InitialOffset(p));
        var step := TrialStep(s.offsets, BasePath(p));
        var m := MapPathSpec(s, p);
        && !Exists(m.image)
        && (exists j: nat :: m.image == Candidate(base, Trial(first, step, j))
              && forall i: nat :: i < j ==> Exists(Candidate(base, Trial(first, step, i))))
        && (base in s.offsets ==> m.memo.offsets[base] >= first)
        && (base !in s.offsets ==> m.memo.offsets == s.offsets[base := childNameOffset(Parent(p), SymbolOf(base))])
    {
      var base := BasePath(p);
      var first := FirstTrial(s.offsets, BasePath(p), InitialOffset(p));
      var step := TrialStep(s.offsets, BasePath(p));
      var m := MapPathSpec(s, p);
      assert m == Renamed(s, p);
      FirstFreeIsFirst(Avoided(), base, first, step);
      var n := FirstFree(Avoided(), base, first, step);
      RenamedWith(s, p, n);
      assert m.image == Candidate(base, n);
      var j: nat :| n == Trial(first, step, j);
      forall i: nat | i < j
        ensures Exists(Candidate(base, Trial(first, step, i)))
      {
        assert Trial(first, step, i) < Trial(first, step, j);
      }
    }

    /** map_uri keeps a URI that is not a path. */
    lemma MapUriKeepsOtherUris(s: Memo, uri: string)
      requires Valid() && !isPath(uri)
      ensures MapUriSpec(s, uri) == Mapped(uri, s)
    {
    }

    // -------------------------------------------------------------------
    // map_path and map_uri
    // -------------------------------------------------------------------

    /** The ancestor walk of map_path: the nearest consulted mapped ancestor, if any. */
    method FindMappedAncestor(p: Path) returns (r: Option<Path>)
      ensures r == MappedAncestor(symbolMap, p)
    {
      ParentIsValid(p);
      ParentBasePrefix(p);
      var parent: Path := Parent(p);
      while true
        invariant FirstIn(symbolMap, Consulted(parent)) == MappedAncestor(symbolMap, p)
        decreases |parent|
      {
        if parent in symbolMap {
          return Some(parent);
        }
        ParentIsValid(parent);
        var grand: Path := Parent(parent);
        if grand == "/" {
          return None;
        }
        ParentShorter(parent);
        assert Consulted(parent) == [parent] + Consulted(grand);
        assert Consulted(parent)[1..] == Consulted(grand);
        parent := grand;
      }
    }

    /**
     * The probing loop of map_path: the first free offset, bumping a
     * remembered offset as it goes.
     */
    method ProbeOffsets(basePath: string, offset0: nat) returns (offset: nat)
      modifies this`offsets
      ensures offset == FirstFree(Avoided(), basePath, FirstTrial(old(offsets), basePath, offset0),
                                  TrialStep(old(offsets), basePath))
      ensures offsets == if basePath in old(offsets) then old(offsets)[basePath := offset] else old(offsets)
    {
      offset := offset0;
      var hadEntry := basePath in offsets;
      ghost var step := TrialStep(offsets, basePath);
      ghost var next: nat := FirstTrial(offsets, basePath, offset0);
      ghost var n := FirstFree(Avoided(), basePath, next, step);
      while true
        invariant (basePath in offsets) == hadEntry
        invariant hadEntry ==> offsets == old(offsets)[basePath := offsets[basePath]] && next == offsets[basePath] + 1
        invariant !hadEntry ==> offsets == old(offsets) && next == (if offset == 0 then 2 else offset)
        invariant FirstFree(Avoided(), basePath, next, step) == n
        decreases |Pending(Avoided(), basePath, next)|
      {
        var found := basePath in offsets;
        if found {
          offsets := offsets[basePath := offsets[basePath] + 1];
          offset := offsets[basePath];
        }
        if offset == 0 {
          offset := 2;
        }
        if !Exists(Candidate(basePath, offset)) {
          return;
        }
        PendingShrinks(Avoided(), basePath, next, step);
        if found {
          offsets := offsets[basePath := offsets[basePath] + 1];
          offset := offsets[basePath];
        } else {
          offset := offset + 1;
        }
        next := next + step;
      }
    }

    /** The renaming branch of map_path: probe, record the image, remember an offset for the base. */
    method Rename(p: Path) returns (r: string)
      requires p !in symbolMap
      modifies this
      ensures Mapped(r, State()) == Renamed(old(State()), p)
      ensures sent == old(sent)
    {
      var basePath := BasePath(p);
      var offset := ProbeOffsets(basePath, InitialOffset(p));
      RenamedWith(old(State()), p, offset);
      r := Candidate(basePath, offset);
      var name := SymbolOf(basePath);
      symbolMap := symbolMap[p := r];
      offset := childNameOffset(Parent(p), name);
      if basePath !in offsets {
        offsets := offsets[basePath := offset];
      }
    }

    /** map_path: memo lookup, then the ancestor walk, then the unmodified path, then renaming. */
    method MapPath(p: Path) returns (r: string)
      modifies this
      ensures Mapped(r, State()) == MapPathSpec(old(State()), p)
      ensures sent == old(sent)
    {
      if p in symbolMap {
        return symbolMap[p];
      }
      var ancestor := FindMappedAncestor(p);
      if ancestor.Some? {
        var a := ancestor.value;
        r := Base(symbolMap[a]) + p[|Base(a)|..];
        symbolMap := symbolMap[p := r];
        return;
      }
      if !Exists(p) && p !in symbolMap {
        symbolMap := symbolMap[p := p];
        return p;
      }
      r := Rename(p);
    }

    /** map_uri */
    method MapUri(uri: string) returns (r: string)
      requires Valid()
      modifies this
      ensures Mapped(r, State()) == MapUriSpec(old(State()), uri)
      ensures sent == old(sent)
    {
      if isPath(uri) {
        r := MapPath(uri);
      } else {
        r := uri;
      }
    }

    // -------------------------------------------------------------------
    // Forwarding: only the path and URI arguments are mapped
    // -------------------------------------------------------------------

    method Put(path: string, properties: Properties)
      requires Valid()
      modifies this
      ensures var m := MapUriSpec(old(State()), path);
        State() == m.memo && sent == old(sent) + [Message.Put(m.image, properties)]
    {
      var uri := MapUri(path);
      sent := sent + [Message.Put(uri, properties)];
    }

    method Delta(path: string, remove: Properties, add: Properties)
      requires Valid()
      modifies this
      ensures var m := MapUriSpec(old(State()), path);
        State() == m.memo && sent == old(sent) + [Message.Delta(m.image, remove, add)]
    {
      var uri := MapUri(path);
      sent := sent + [Message.Delta(uri, remove, add)];
    }

    method Move(oldPath: Path, newPath: Path)
      modifies this
      ensures var m1 := MapPathSpec(old(State()), oldPath);
        var m2 := MapPathSpec(m1.memo, newPath);
        State() == m2.memo && sent == old(sent) + [Message.Move(m1.image, m2.image)]
    {
      var from := MapPath(oldPath);
      var to := MapPath(newPath);
      sent := sent + [Message.Move(from, to)];
    }

    method Connect(srcPort: Path, dstPort: Path)
      modifies this
      ensures var m1 := MapPathSpec(old(State()), srcPort);
        var m2 := MapPathSpec(m1.memo, dstPort);
        State() == m2.memo && sent == old(sent) + [Message.Connect(m1.image, m2.image)]
    {
      var src := MapPath(srcPort);
      var dst := MapPath(dstPort);
      sent := sent + [Message.Connect(src, dst)];
    }

    method Disconnect(srcPort: Path, dstPort: Path)
      modifies this
      ensures var m1 := MapPathSpec(old(State()), srcPort);
        var m2 := MapPathSpec(m1.memo, dstPort);
        State() == m2.memo && sent == old(sent) + [Message.Disconnect(m1.image, m2.image)]
    {
      var src := MapPath(srcPort);
      var dst := MapPath(dstPort);
      sent := sent + [Message.Disconnect(src, dst)];
    }

    method ForwardSetProperty(subject: string, key: string, value: Atom)
      requires Valid()
      modifies this
      ensures var m := MapUriSpec(old(State()), subject);
        State() == m.memo && sent == old(sent) + [Message.SetProperty(m.image, key, value)]
    {
      var uri := MapUri(subject);
      sent := sent + [Message.SetProperty(uri, key, value)];
    }

    method Del(path: Path)
      modifies this
      ensures var m := MapPathSpec(old(State()), path);
        State() == m.memo && sent == old(sent) + [Message.Del(m.image)]
    {
      var p := MapPath(path);
      sent := sent + [Message.Del(p)];
    }
  }
}
