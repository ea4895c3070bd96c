/**
 * lvz's gendata tool, which loads a VST plugin and writes LV2 data for it.
 * The model covers two parts: how a parameter name becomes an LV2 port
 * symbol, and how the tool keeps its manifest maps of plugins and GUIs.
 * The Turtle text written to files and the loading of the plugin library
 * are outside the model.
 */
module GenData {
  import opened Wrappers

  predicate IsUpper(c: char)
  {
    'A' <= c <= 'Z'
  }

  predicate IsLower(c: char)
  {
    'a' <= c <= 'z'
  }

  /** std::isalpha or std::isdigit, in the C locale. */
  predicate IsAlnum(c: char)
  {
    IsUpper(c) || IsLower(c) || IsDigit(c)
  }

  /** std::tolower in the C locale. */
  function ToLower(c: char): (r: char)
    ensures IsUpper(c) ==> IsLower(r)
    ensures !IsUpper(c) ==> r == c
  {
    if IsUpper(c) then (c as int + 32) as char else c
  }

  /** The first loop: every space becomes '_'. */
  function Underscored(s: string): (r: string)
    ensures |r| == |s|
  {
    seq(|s|, i requires 0 <= i < |s| => if s[i] == ' ' then '_' else s[i])
  }

  /** The first character, lowercased. */
  function LowerFirst(s: string): (r: string)
    ensures |r| == |s|
  {
    if s == [] then s else [ToLower(s[0])] + s[1..]
  }

  /**
   * The camel-case test as written: a capital after a lowercase letter,
   * at the end or followed by a character between 'Z' and 'a', and not the
   * B of "dB" (the "FX" and "DC" exclusions cannot apply, as their first
   * letter is a capital).
   */
  predicate Boundary(s: string, j: nat)
  {
    1 <= j < |s| && IsUpper(s[j]) && IsLower(s[j - 1])
    && (j == |s| - 1 || ('Z' <= s[j + 1] <= 'a'))
    && !(s[j - 1] == 'd' && s[j] == 'B')
    && !(s[j - 1] == 'F' && s[j] == 'X')
    && !(s[j - 1] == 'D' && s[j] == 'C')
  }

  /** The camel-case test as the comment "LikeThis -> like_this" means it: the capital is followed by a lowercase letter. */
  predicate BoundaryFixed(s: string, j: nat)
  {
    1 <= j < |s| && IsUpper(s[j]) && IsLower(s[j - 1])
    && (j == |s| - 1 || IsLower(s[j + 1]))
    && !(s[j - 1] == 'd' && s[j] == 'B')
    && !(s[j - 1] == 'F' && s[j] == 'X')
    && !(s[j - 1] == 'D' && s[j] == 'C')
  }

  /**
   * The second loop on the first n characters of s: a '_' goes before
   * every boundary character. The test reads the input's own neighbours,
   * since a '_' is only ever inserted before the character being tested.
   */
  function Split(s: string, n: nat, fixed: bool): (r: string)
    requires n <= |s|
    ensures |r| >= n && (n > 0 ==> r[|r| - 1] == s[n - 1] && r[0] == s[0])
  {
    if n == 0 then []
    else
      var before := if fixed then BoundaryFixed(s, n - 1) else Boundary(s, n - 1);
      Split(s, n - 1, fixed) + (if before then "_" else "") + [s[n - 1]]
  }

  /**
   * The third loop on the first n characters of s: the first is kept; each
   * later letter or digit is lowercased; any other character becomes '_',
   * or is dropped when the output already ends with '_'.
   */
  function Clean(s: string, n: nat): (r: string)
    requires 1 <= n <= |s|
    ensures |r| >= 1 && r[0] == s[0]
  {
    if n == 1 then [s[0]]
    else
      var o := Clean(s, n - 1);
      var c := s[n - 1];
      if IsAlnum(c) then o + [ToLower(c)]
      else if o[|o| - 1] != '_' then o + ['_']
      else o
  }

  /** The third loop on the whole string; it does not run on an empty one. */
  function Cleaned(u: string): string
  {
    if u == [] then u else Clean(u, |u|)
  }

  /** symbolify as written. */
  function SymbolOf(name: string): string
  {
    Cleaned(Split(LowerFirst(Underscored(name)), |name|, false))
  }

  /** symbolify with the camel-case test corrected. */
  function SymbolOfFixed(name: string): string
  {
    Cleaned(Split(LowerFirst(Underscored(name)), |name|, true))
  }

  /** What the cleaning loop lets through after the first character. */
  predicate SymbolChar(c: char)
  {
    IsLower(c) || IsDigit(c) || c == '_'
  }

  /** After the first character: only symbol characters, and never two '_' in a row. */
  ghost predicate TailShaped(r: string)
  {
    forall i :: 1 <= i < |r| ==> SymbolChar(r[i]) && !(r[i - 1] == '_' && r[i] == '_')
  }

  lemma AppendShaped(o: string, c: char)
    requires |o| >= 1 && TailShaped(o) && SymbolChar(c) && !(o[|o| - 1] == '_' && c == '_')
    ensures TailShaped(o + [c])
  {
    var r := o + [c];
    forall i | 1 <= i < |r|
      ensures SymbolChar(r[i]) && !(r[i - 1] == '_' && r[i] == '_')
    {
      if i < |o| {
        assert r[i] == o[i] && r[i - 1] == o[i - 1];
      }
    }
  }

  /** The cleaning loop's output is shaped like a symbol after its first character. */
  lemma {:induction false} CleanShape(s: string, n: nat)
    requires 1 <= n <= |s|
    ensures TailShaped(Clean(s, n))
  {
    if n > 1 {
      CleanShape(s, n - 1);
      var o := Clean(s, n - 1);
      var c := s[n - 1];
      if IsAlnum(c) {
        AppendShaped(o, ToLower(c));
      } else if o[|o| - 1] != '_' {
        AppendShaped(o, '_');
      }
    }
  }

  /**
   * Either camel-case test: the result is empty only for an empty name; it
   * starts with the name's first character (a space turned '_', a capital
   * lowered), and after that holds only lowercase letters, digits and
   * single '_'s; so it never holds a space.
   */
  lemma ShapeEitherWay(name: string, fixed: bool)
    ensures var r := Cleaned(Split(LowerFirst(Underscored(name)), |name|, fixed));
      (r == [] <==> name == [])
      && (name != [] ==> r[0] == ToLower(if name[0] == ' ' then '_' else name[0]))
      && TailShaped(r)
      && ' ' !in r
  {
    var t := LowerFirst(Underscored(name));
    var u := Split(t, |t|, fixed);
    if u != [] {
      CleanShape(u, |u|);
      var r := Clean(u, |u|);
      assert r[0] == u[0] == t[0] == ToLower(Underscored(name)[0]);
      assert forall i :: 1 <= i < |r| ==> SymbolChar(r[i]);
    }
  }

  /** symbolify as written gives a symbol: see ShapeEitherWay. */
  lemma SymbolShape(name: string)
    ensures var r := SymbolOf(name);
      (r == [] <==> name == [])
      && (name != [] ==> r[0] == ToLower(if name[0] == ' ' then '_' else name[0]))
      && TailShaped(r)
      && ' ' !in r
  {
    ShapeEitherWay(name, false);
  }

  /** The corrected camel-case test keeps the symbol's shape: it only adds '_'s that the cleaning loop keeps single. */
  lemma SymbolFixedShape(name: string)
    ensures var r := SymbolOfFixed(name);
      (r == [] <==> name == [])
      && (name != [] ==> r[0] == ToLower(if name[0] == ' ' then '_' else name[0]))
      && TailShaped(r)
      && ' ' !in r
  {
    ShapeEitherWay(name, true);
  }

  lemma LikeThisLowered()
    ensures LowerFirst(Underscored("LikeThis")) == "likeThis"
  {
  }

  /** A string with every '_' taken out. */
  function Strip(s: string): (r: string)
    ensures |r| <= |s|
  {
    if |s| == 0 then []
    else Strip(s[..|s| - 1]) + (if s[|s| - 1] == '_' then [] else [s[|s| - 1]])
  }

  lemma StripSnoc(p: string, c: char)
    ensures Strip(p + [c]) == Strip(p) + if c == '_' then [] else [c]
  {
    assert (p + [c])[..|p|] == p;
  }

  /**
   * The second loop only inserts '_': taking every '_' out of its output
   * gives the input with every '_' taken out.
   */
  lemma {:induction false} SplitOnlyInserts(s: string, n: nat, fixed: bool)
    requires n <= |s|
    ensures Strip(Split(s, n, fixed)) == Strip(s[..n])
  {
    if n > 0 {
      var p := Split(s, n - 1, fixed);
      var c := s[n - 1];
      var r := SplitLast(s, n, fixed);
      SplitOnlyInserts(s, n - 1, fixed);
      StripSnoc(s[..n - 1], c);
      if r == (p + "_") + [c] {
        StripSnoc(p + "_", c);
        StripSnoc(p, '_');
      } else {
        StripSnoc(p, c);
      }
    } else {
      assert s[..n] == [];
    }
  }

  /** The second loop's output for n characters: its output for n - 1, then possibly a '_', then the n-th character. */
  lemma SplitLast(s: string, n: nat, fixed: bool) returns (r: string)
    requires 0 < n <= |s|
    ensures s[..n] == s[..n - 1] + [s[n - 1]]
    ensures r == Split(s, n, fixed)
    ensures r == (Split(s, n - 1, fixed) + "_") + [s[n - 1]] || r == Split(s, n - 1, fixed) + [s[n - 1]]
  {
    r := Split(s, n, fixed);
    assert s[..n] == s[..n - 1] + [s[n - 1]];
  }

  /** With no boundary among its first n characters, the second loop leaves them as they are. */
  lemma {:induction false} SplitQuiet(s: string, n: nat, fixed: bool)
    requires n <= |s|
    requires forall j :: 0 <= j < n ==> !(if fixed then BoundaryFixed(s, j) else Boundary(s, j))
    ensures Split(s, n, fixed) == s[..n]
  {
    if n > 0 {
      SplitQuiet(s, n - 1, fixed);
      assert s[..n] == s[..n - 1] + [s[n - 1]];
    }
  }

  lemma LikeThisSplit()
    ensures Split("likeThis", 8, false) == "likeThis"
  {
    var s := "likeThis";
    assert forall j :: 0 <= j < 8 && j != 4 ==> !IsUpper(s[j]);
    assert !Boundary(s, 4) by { assert s[5] == 'h'; }
    SplitQuiet(s, 8, false);
  }

  lemma LikeThisSplitFixed()
    ensures Split("likeThis", 8, true) == "like_This"
  {
    var s := "likeThis";
    assert forall j :: 0 <= j < 8 && j != 4 ==> !IsUpper(s[j]);
    SplitQuiet(s, 4, true);
    assert BoundaryFixed(s, 4) by { assert s[3] == 'e' && s[4] == 'T' && s[5] == 'h'; }
    assert Split(s, 5, true) == "like" + "_" + "T";
    assert Split(s, 6, true) == "like_Th";
    assert Split(s, 7, true) == "like_Thi";
  }

  lemma LikeThisCleaned()
    ensures Clean("likeThis", 8) == "likethis"
  {
  }

  lemma LikeThisCleanedFixed()
    ensures Clean("like_This", 9) == "like_this"
  {
  }

  /** As written, "LikeThis" loses its word break: the 'h' after the 'T' does not lie between 'Z' and 'a'. */
  lemma LikeThisAsWritten()
    ensures SymbolOf("LikeThis") == "likethis"
  {
    LikeThisLowered();
    LikeThisSplit();
    LikeThisCleaned();
  }

  /** Corrected, it gives "like_this", as the code's own comment says. */
  lemma LikeThisFixed()
    ensures SymbolOfFixed("LikeThis") == "like_this"
  {
    LikeThisLowered();
    LikeThisSplitFixed();
    LikeThisCleanedFixed();
  }

  /** symbolify: its three loops rewrite the string in place, inserting and deleting characters. */
  method Symbolify(name: string) returns (str: string)
    ensures str == SymbolOf(name)
  {
    str := name;
    var i := 0;
    while i < |str|
      invariant |str| == |name| && i <= |str|
      invariant forall j :: 0 <= j < |str| ==> str[j] == if j < i then Underscored(name)[j] else name[j]
    {
      if str[i] == ' ' {
        str := str[i := '_'];
      }
      i := i + 1;
    }
    assert str == Underscored(name);
    if |str| > 0 {
      str := str[0 := ToLower(str[0])];
    }
    assert str == LowerFirst(Underscored(name));
    str := SplitCamelCase(str);
    str := CleanUp(str);
  }

  /** The second loop: insert '_' before each boundary capital, then step past the character tested. */
  method SplitCamelCase(t: string) returns (str: string)
    ensures str == Split(t, |t|, false)
  {
    str := t;
    ghost var k := if |t| == 0 then 0 else 1;
    ghost var pending := false;
    var i := 1;
    while i < |str|
      invariant |t| == 0 ==> str == [] && k == 0
      invariant |t| > 0 ==> SplitState(t, str, i, k, pending)
      decreases |t| - k, if pending then 1 else 0
    {
      SplitStep(t, str, i, k, pending);
      if Boundary(str, i) {
        str := str[..i] + "_" + str[i..];
        k, pending := k + 1, true;
      } else if pending {
        pending := false;
      } else {
        k := k + 1;
      }
      i := i + 1;
    }
    if |t| > 0 {
      assert k == |t|;
    }
  }

  /**
   * Where the second loop stands: the input's first k characters are
   * split and the rest untouched; i is at the next input character or,
   * just after an insertion, back at the capital that follows the new '_'.
   */
  ghost predicate SplitState(t: string, str: string, i: nat, k: nat, pending: bool)
  {
    1 <= k <= |t| && str == Split(t, k, false) + t[k..]
    && if pending then 2 <= i + 1 == |Split(t, k, false)| && str[i - 1] == '_'
       else i == |Split(t, k, false)|
  }

  /** One pass of the second loop keeps its state: at the capital after a new '_' nothing is inserted; elsewhere its test agrees with the test on the input. */
  lemma SplitStep(t: string, str: string, i: nat, k: nat, pending: bool)
    requires SplitState(t, str, i, k, pending) && i < |str|
    ensures pending ==> !Boundary(str, i) && SplitState(t, str, i + 1, k, false)
    ensures !pending && Boundary(str, i) ==> SplitState(t, str[..i] + "_" + str[i..], i + 1, k + 1, true)
    ensures !pending && !Boundary(str, i) ==> SplitState(t, str, i + 1, k + 1, false)
  {
    if !pending {
      var p := Split(t, k, false);
      assert k < |t|;
      assert str[i] == t[k] && str[i - 1] == p[|p| - 1] == t[k - 1];
      assert i + 1 < |str| ==> str[i + 1] == t[k + 1];
      assert Boundary(str, i) == Boundary(t, k);
      assert t[k..] == [t[k]] + t[k + 1..];
      if Boundary(t, k) {
        assert Split(t, k + 1, false) == p + "_" + [t[k]];
        assert str[..i] == p && str[i..] == t[k..];
      } else {
        assert Split(t, k + 1, false) == p + [t[k]];
      }
    }
  }

  /** The third loop: lowercase letters, turn other characters into '_', drop a '_' after a '_'. */
  method CleanUp(u: string) returns (str: string)
    ensures str == Cleaned(u)
  {
    str := u;
    ghost var k := if |u| == 0 then 0 else 1;
    var i := 1;
    while i < |str|
      invariant |u| == 0 ==> str == []
      invariant |u| > 0 ==> CleanState(u, str, i, k)
      decreases |u| - k
    {
      CleanStep(u, str, i, k);
      if IsAlnum(str[i]) {
        str := str[i := ToLower(str[i])];
        i := i + 1;
      } else if str[i - 1] != '_' {
        str := str[i := '_'];
        i := i + 1;
      } else {
        str := str[..i] + str[i + 1..];
      }
      k := k + 1;
    }
    if |u| > 0 {
      assert k == |u|;
    }
  }

  /** Where the third loop stands: the input's first k characters are cleaned, the rest untouched, and i is at the next one. */
  ghost predicate CleanState(u: string, str: string, i: nat, k: nat)
  {
    1 <= k <= |u| && str == Clean(u, k) + u[k..] && i == |Clean(u, k)|
  }

  /** Each of the third loop's three branches keeps its state, one input character further on. */
  lemma CleanStep(u: string, str: string, i: nat, k: nat)
    requires CleanState(u, str, i, k) && i < |str|
    ensures 1 <= i && k < |u|
    ensures IsAlnum(str[i]) ==> CleanState(u, str[i := ToLower(str[i])], i + 1, k + 1)
    ensures !IsAlnum(str[i]) && str[i - 1] != '_' ==> CleanState(u, str[i := '_'], i + 1, k + 1)
    ensures !IsAlnum(str[i]) && str[i - 1] == '_' ==> CleanState(u, str[..i] + str[i + 1..], i, k + 1)
  {
    var o := Clean(u, k);
    assert u[k..] == [u[k]] + u[k + 1..];
    assert str[i] == u[k] && str[i - 1] == o[|o| - 1];
    assert str[..i] == o && str[i + 1..] == u[k + 1..];
    if IsAlnum(str[i]) {
      assert str[i := ToLower(str[i])] == (o + [ToLower(u[k])]) + u[k + 1..];
    } else if str[i - 1] != '_' {
      assert str[i := '_'] == (o + ['_']) + u[k + 1..];
    }
  }

  /** Where the last '.' of a file name is, if it has one. */
  function LastDot(f: string): (r: Option<nat>)
    ensures r.None? ==> forall j :: 0 <= j < |f| ==> f[j] != '.'
    ensures r.Some? ==> r.value < |f| && f[r.value] == '.' && forall j :: r.value < j < |f| ==> f[j] != '.'
  {
    if f == [] then None
    else if f[|f| - 1] == '.' then Some(|f| - 1)
    else LastDot(f[..|f| - 1])
  }

  /** lib_file_name.substr(0, find_last_of(".")): the name without its last extension, or all of it. */
  function BaseName(fileName: string): (r: string)
    ensures '.' !in fileName ==> r == fileName
    ensures '.' in fileName ==> exists j :: 0 <= j < |fileName| && fileName[j] == '.' && r == fileName[..j] && '.' !in fileName[j + 1..]
  {
    match LastDot(fileName)
    case None => fileName
    case Some(j) => fileName[..j]
  }

  /** A manifest entry: the base name of the data and binary files, and the GUI URIs. */
  datatype Record = Record(baseName: string, uis: seq<string>)

  /** The base name recorded for a GUI whose plugin has not been written. */
  const NO_BASE: string := "ERRNOBASE"

  /**
   * write_gui's changes to the plugin manifest: the record keyed by the
   * library's file name, if any, lists the plugin URI; the plugin's record
   * lists the GUI, and is created with no base name if missing.
   */
  function WithGui(plugins: map<string, Record>, guiUri: string, pluginUri: string, libFileName: string): map<string, Record>
  {
    var p1 := if libFileName in plugins then plugins[libFileName := plugins[libFileName].(uis := plugins[libFileName].uis + [pluginUri])] else plugins;
    if pluginUri in p1 then p1[pluginUri := p1[pluginUri].(uis := p1[pluginUri].uis + [guiUri])]
    else p1[pluginUri := Record(NO_BASE, [guiUri])]
  }

  /**
   * After write_gui the plugin has a record whose last UI is the GUI; a
   * plugin not written before gets a record with no base name and that UI
   * alone; no base name changes; no record other than the plugin's and the
   * library file name's changes, and no key but the plugin's is added.
   */
  lemma GuiListed(plugins: map<string, Record>, guiUri: string, pluginUri: string, libFileName: string)
    ensures var r := WithGui(plugins, guiUri, pluginUri, libFileName);
      pluginUri in r && |r[pluginUri].uis| > 0 && r[pluginUri].uis[|r[pluginUri].uis| - 1] == guiUri
      && (pluginUri !in plugins && pluginUri != libFileName ==> r[pluginUri] == Record(NO_BASE, [guiUri]))
      && (forall k :: k in plugins ==> k in r && r[k].baseName == plugins[k].baseName)
      && (forall k :: k in plugins && k != pluginUri && k != libFileName ==> r[k] == plugins[k])
      && r.Keys == plugins.Keys + {pluginUri}
  {
  }

  /** The tool's two global manifest maps, keyed by URI. */
  class Manifests {
    var plugins: map<string, Record>
    var guis: map<string, Record>

    constructor ()
      ensures plugins == map[] && guis == map[]
    {
      plugins := map[];
      guis := map[];
    }

    /** write_plugin's manifest update: a known URI takes the new base name and keeps its GUIs; a new one gets a record. */
    method WritePlugin(uri: string, libFileName: string)
      modifies this`plugins
      ensures uri in plugins && plugins[uri].baseName == BaseName(libFileName)
      ensures plugins[uri].uis == if uri in old(plugins) then old(plugins)[uri].uis else []
      ensures forall k :: k in old(plugins) && k != uri ==> k in plugins && plugins[k] == old(plugins)[k]
      ensures plugins.Keys == old(plugins).Keys + {uri}
    {
      var baseName := BaseName(libFileName);
      if uri in plugins {
        plugins := plugins[uri := plugins[uri].(baseName := baseName)];
      } else {
        plugins := plugins[uri := Record(baseName, [])];
      }
    }

    /** write_gui; the GUI URI must not have been written before. */
    method WriteGui(guiUri: string, pluginUri: string, libFileName: string)
      requires guiUri !in guis
      modifies this`plugins, this`guis
      ensures guis == old(guis)[guiUri := Record(BaseName(libFileName), [])]
      ensures plugins == WithGui(old(plugins), guiUri, pluginUri, libFileName)
    {
      var baseName := BaseName(libFileName);
      guis := guis[guiUri := Record(baseName, [])];
      if libFileName in plugins {
        plugins := plugins[libFileName := plugins[libFileName].(uis := plugins[libFileName].uis + [pluginUri])];
      }
      if pluginUri in plugins {
        plugins := plugins[pluginUri := plugins[pluginUri].(uis := plugins[pluginUri].uis + [guiUri])];
      } else {
        plugins := plugins[pluginUri := Record(NO_BASE, [guiUri])];
      }
    }
  }
}
