/**
 * The pure decisions of the autowaf build helpers (autowaf.py and the older
 * trunk/autowaf.py): variable-name mangling, the colour of a configuration
 * message, prefix chopping, directory defaults, and the check-once
 * memoisation of header, tool and package checks. The foreign checks
 * themselves (conf.check_*, pkg-config) are oracles: the model records
 * which names were handed to them and takes their outcome as a parameter.
 */
module Autowaf {
  import opened Wrappers
  import opened Strings

  // ---------------------------------------------------------------------
  // nameify (autowaf.py)
  // ---------------------------------------------------------------------

  /** str.replace('++', 'PP'): left to right, non-overlapping. */
  function ReplacePlusPlus(s: string): (r: string)
    ensures |r| == |s|
    decreases |s|
  {
    if |s| >= 2 && s[0] == '+' && s[1] == '+' then "PP" + ReplacePlusPlus(s[2..])
    else if s == [] then []
    else [s[0]] + ReplacePlusPlus(s[1..])
  }

  predicate HasPlusPlus(s: string)
  {
    exists i :: 0 <= i < |s| - 1 && s[i] == '+' && s[i + 1] == '+'
  }

  lemma {:induction false} ReplacePlusPlusSpec(s: string)
    ensures !HasPlusPlus(ReplacePlusPlus(s))
    ensures forall i :: 0 <= i < |s| && s[i] != '+' ==> ReplacePlusPlus(s)[i] == s[i]
    ensures forall i :: 0 <= i < |s| ==> ReplacePlusPlus(s)[i] in {s[i], 'P'}
    decreases |s|
  {
    var r := ReplacePlusPlus(s);
    if |s| >= 2 && s[0] == '+' && s[1] == '+' {
      ReplacePlusPlusSpec(s[2..]);
      var t := ReplacePlusPlus(s[2..]);
      assert r == "PP" + t;
      forall i | 0 <= i < |r| - 1 ensures !(r[i] == '+' && r[i + 1] == '+') {
        if i >= 2 {
          assert r[i] == t[i - 2] && r[i + 1] == t[i - 1];
        }
      }
    } else if s != [] {
      ReplacePlusPlusSpec(s[1..]);
      var t := ReplacePlusPlus(s[1..]);
      assert r == [s[0]] + t;
      forall i | 0 <= i < |r| - 1 ensures !(r[i] == '+' && r[i + 1] == '+') {
        if i >= 1 {
          assert r[i] == t[i - 1] && r[i + 1] == t[i];
        } else if s[0] == '+' && |s| >= 2 {
          assert s[1] != '+';
          assert r[1] == t[0];
        }
      }
    }
  }

  lemma {:induction false} ReplacePlusPlusIdentity(s: string)
    requires !HasPlusPlus(s)
    ensures ReplacePlusPlus(s) == s
    decreases |s|
  {
    if s != [] {
      assert !(|s| >= 2 && s[0] == '+' && s[1] == '+');
      assert !HasPlusPlus(s[1..]) by {
        forall i | 0 <= i < |s[1..]| - 1 ensures !(s[1..][i] == '+' && s[1..][i + 1] == '+') {
          assert s[1..][i] == s[i + 1] && s[1..][i + 1] == s[i + 2];
        }
      }
      ReplacePlusPlusIdentity(s[1..]);
    }
  }

  /** nameify: the name of a build variable derived from a library name. */
  function Nameify(name: string): (r: string)
  {
    ReplaceChar(ReplaceChar(ReplacePlusPlus(ReplaceChar(name, '/', '_')), '-', '_'), '.', '_')
  }

  /**
   * nameify keeps the length, turns '/', '-' and '.' into '_', leaves every
   * other character except '+' alone, and leaves no '/', '-', '.' or "++".
   */
  lemma NameifySpec(name: string)
    ensures |Nameify(name)| == |name|
    ensures forall i :: 0 <= i < |name| && name[i] in {'/', '-', '.'} ==> Nameify(name)[i] == '_'
    ensures forall i :: 0 <= i < |name| && name[i] !in {'/', '-', '.', '+'} ==> Nameify(name)[i] == name[i]
    ensures forall i :: 0 <= i < |name| ==> Nameify(name)[i] !in {'/', '-', '.'}
    ensures !HasPlusPlus(Nameify(name))
  {
    var a := ReplaceChar(name, '/', '_');
    ReplacePlusPlusSpec(a);
    var b := ReplacePlusPlus(a);
    var r := Nameify(name);
    assert r == ReplaceChar(ReplaceChar(b, '-', '_'), '.', '_');
    forall i | 0 <= i < |r| - 1 ensures !(r[i] == '+' && r[i + 1] == '+') {
      assert r[i] == '+' ==> b[i] == '+';
      assert r[i + 1] == '+' ==> b[i + 1] == '+';
    }
  }

  /** nameify is idempotent. */
  lemma NameifyIdempotent(name: string)
    ensures Nameify(Nameify(name)) == Nameify(name)
  {
    var r := Nameify(name);
    NameifySpec(name);
    assert ReplaceChar(r, '/', '_') == r;
    ReplacePlusPlusIdentity(r);
    assert ReplaceChar(r, '-', '_') == r;
    assert ReplaceChar(r, '.', '_') == r;
  }

  // ---------------------------------------------------------------------
  // display_msg colour (both files)
  // ---------------------------------------------------------------------

  /** The dynamically typed `status` argument of display_msg. */
  datatype Status = BoolStatus(b: bool) | TextStatus(text: string) | NoStatus

  datatype Colour = Green | Yellow | Cyan

  function DisplayColour(status: Status): (c: Colour)
    ensures c == Green <==> status == BoolStatus(true) || status == TextStatus("True")
    ensures c == Yellow <==> status == BoolStatus(false) || status == TextStatus("False")
  {
    if (status.BoolStatus? && status.b) || status == TextStatus("True") then Green
    else if (status.BoolStatus? && !status.b) || status == TextStatus("False") then Yellow
    else Cyan
  }

  /** Every status other than a boolean or the texts "True"/"False" is shown in cyan. */
  lemma DisplayColourDefault(status: Status)
    requires !status.BoolStatus? && status != TextStatus("True") && status != TextStatus("False")
    ensures DisplayColour(status) == Cyan
  {
  }

  // ---------------------------------------------------------------------
  // chop_prefix (trunk/autowaf.py)
  // ---------------------------------------------------------------------

  /** Python's s[n:]: empty when n is past the end. */
  function DropFront(s: string, n: nat): (r: string)
    ensures n <= |s| ==> r == s[n..]
    ensures n > |s| ==> r == ""
  {
    if n <= |s| then s[n..] else ""
  }

  function ChopPrefix(dir: string, prefix: string): (r: string)
    ensures r != ""
  {
    var name := DropFront(dir, |prefix|);
    var name' := if |name| > 0 && name[0] == '/' then name[1..] else name;
    if name' == "" then "/" else name'
  }

  /** A directory that is PREFIX + "/" + rest chops to rest, or "/" when rest is empty. */
  lemma ChopPrefixOfDefault(prefix: string, rest: string)
    ensures ChopPrefix(prefix + "/" + rest, prefix) == if rest == "" then "/" else rest
  {
    assert DropFront(prefix + "/" + rest, |prefix|) == "/" + rest;
    assert ("/" + rest)[1..] == rest;
  }

  // ---------------------------------------------------------------------
  // Directory derivation in configure
  // ---------------------------------------------------------------------

  /** The command-line options that configure reads; an empty text counts as not given. */
  datatype Options = Options(
    bundle: bool, lv2User: bool,
    bindir: Option<string>, includedir: Option<string>, libdir: Option<string>,
    datadir: Option<string>, configdir: Option<string>, htmldir: Option<string>,
    mandir: Option<string>, lv2dir: Option<string>)

  datatype Platform = Darwin | OtherPlatform

  datatype Dirs = Dirs(
    bindir: string, includedir: string, libdir: string, datadir: string,
    configdir: Option<string>, htmldir: string, mandir: string, lv2dir: string)

  predicate Given(o: Option<string>) { o.Some? && o.value != "" }

  /** os.path.join with two components. */
  function Join(a: string, b: string): string
  {
    if |b| > 0 && b[0] == '/' then b
    else if a == "" || a[|a| - 1] == '/' then a + b
    else a + "/" + b
  }

  /** The user's option if given, else the default. */
  function OrDefault(o: Option<string>, default: string): string
  {
    if Given(o) then o.value else default
  }

  /** autowaf.py: directories from the options, joined with os.path.join. */
  function ConfigureDirs(opts: Options, prefix: string, platform: Platform, home: string, appName: string): Dirs
  {
    if opts.bundle then
      Dirs(prefix, Join(prefix, "Headers"), Join(prefix, "Libraries"), Join(prefix, "Resources"),
           None, Join(prefix, "Resources/Documentation"), Join(prefix, "Resources/Man"),
           Join(prefix, "PlugIns"))
    else
      var datadir := OrDefault(opts.datadir, Join(prefix, "share"));
      var libdir := OrDefault(opts.libdir, Join(prefix, "lib"));
      Dirs(
        OrDefault(opts.bindir, Join(prefix, "bin")),
        OrDefault(opts.includedir, Join(prefix, "include")),
        libdir,
        datadir,
        Some(OrDefault(opts.configdir, Join(prefix, "etc"))),
        OrDefault(opts.htmldir, Join(Join(datadir, "doc"), appName)),
        OrDefault(opts.mandir, Join(datadir, "man")),
        OrDefault(opts.lv2dir,
          if opts.lv2User then
            (if platform == Darwin then Join(home, "Library/Audio/Plug-Ins/LV2") else Join(home, ".lv2"))
          else
            (if platform == Darwin then "/Library/Audio/Plug-Ins/LV2" else Join(libdir, "lv2"))))
  }

  /**
   * Outside bundle mode every directory is the user's option when given and
   * otherwise the documented join below PREFIX or DATADIR.
   */
  lemma ConfigureDirsDefaults(opts: Options, prefix: string, platform: Platform, home: string, appName: string)
    requires !opts.bundle
    ensures var d := ConfigureDirs(opts, prefix, platform, home, appName);
      && d.bindir == (if Given(opts.bindir) then opts.bindir.value else Join(prefix, "bin"))
      && d.includedir == (if Given(opts.includedir) then opts.includedir.value else Join(prefix, "include"))
      && d.libdir == (if Given(opts.libdir) then opts.libdir.value else Join(prefix, "lib"))
      && d.datadir == (if Given(opts.datadir) then opts.datadir.value else Join(prefix, "share"))
      && d.configdir == Some(if Given(opts.configdir) then opts.configdir.value else Join(prefix, "etc"))
      && d.htmldir == (if Given(opts.htmldir) then opts.htmldir.value else Join(Join(d.datadir, "doc"), appName))
      && d.mandir == (if Given(opts.mandir) then opts.mandir.value else Join(d.datadir, "man"))
      && (!Given(opts.lv2dir) && !opts.lv2User && platform == OtherPlatform ==> d.lv2dir == Join(d.libdir, "lv2"))
      && (Given(opts.lv2dir) ==> d.lv2dir == opts.lv2dir.value)
  {
  }

  /** An absolute second part wins; a relative one is joined to a base that does not end in '/' by one '/'. */
  lemma JoinCases(a: string, b: string)
    ensures |b| > 0 && b[0] == '/' ==> Join(a, b) == b
    ensures !(|b| > 0 && b[0] == '/') && a != "" && a[|a| - 1] != '/' ==> Join(a, b) == a + "/" + b
    ensures !(|b| > 0 && b[0] == '/') && (a == "" || a[|a| - 1] == '/') ==> Join(a, b) == a + b
  {
  }

  /** Joining a relative name extends the base: the base is a prefix of the result. */
  lemma JoinExtends(a: string, b: string)
    requires !(|b| > 0 && b[0] == '/')
    ensures a <= Join(a, b)
  {
    if !(a == "" || a[|a| - 1] == '/') {
      assert Join(a, b) == a + ("/" + b);
    }
  }

  /**
   * Outside bundle mode every default lies below PREFIX, HTMLDIR and MANDIR
   * below DATADIR and the system LV2 directory below LIBDIR; an absolute
   * application name replaces the documentation path, as os.path.join does.
   */
  lemma ConfigureDirsNested(opts: Options, prefix: string, platform: Platform, home: string, appName: string)
    requires !opts.bundle
    ensures var d := ConfigureDirs(opts, prefix, platform, home, appName);
      && (!Given(opts.bindir) ==> prefix <= d.bindir)
      && (!Given(opts.includedir) ==> prefix <= d.includedir)
      && (!Given(opts.libdir) ==> prefix <= d.libdir)
      && (!Given(opts.datadir) ==> prefix <= d.datadir)
      && (!Given(opts.configdir) ==> prefix <= d.configdir.value)
      && (!Given(opts.mandir) ==> d.datadir <= d.mandir)
      && (!Given(opts.htmldir) && !(|appName| > 0 && appName[0] == '/') ==> d.datadir <= d.htmldir)
      && (!Given(opts.htmldir) && |appName| > 0 && appName[0] == '/' ==> d.htmldir == appName)
      && (!Given(opts.lv2dir) && !opts.lv2User && platform != Darwin ==> d.libdir <= d.lv2dir)
  {
    var d := ConfigureDirs(opts, prefix, platform, home, appName);
    JoinExtends(prefix, "bin");
    JoinExtends(prefix, "include");
    JoinExtends(prefix, "lib");
    JoinExtends(prefix, "share");
    JoinExtends(prefix, "etc");
    JoinExtends(d.datadir, "man");
    JoinExtends(d.datadir, "doc");
    if !(|appName| > 0 && appName[0] == '/') {
      JoinExtends(Join(d.datadir, "doc"), appName);
    }
    JoinExtends(d.libdir, "lv2");
  }

  /** trunk/autowaf.py: directories from the options, by string concatenation. */
  function ConfigureDirsTrunk(opts: Options, prefix: string, platform: Platform, home: string, appName: string): Dirs
  {
    if opts.bundle then
      Dirs(prefix, prefix + "/Headers/", prefix + "/Libraries/", prefix + "/Resources/",
           None, prefix + "/Resources/Documentation/", prefix + "/Resources/Man/", prefix + "/PlugIns/")
    else
      var datadir := OrDefault(opts.datadir, prefix + "/share/");
      var libdir := OrDefault(opts.libdir, prefix + "/lib/");
      Dirs(
        OrDefault(opts.bindir, prefix + "/bin/"),
        OrDefault(opts.includedir, prefix + "/include/"),
        libdir,
        datadir,
        None,
        OrDefault(opts.htmldir, datadir + "doc/" + appName + "/"),
        OrDefault(opts.mandir, datadir + "man/"),
        OrDefault(opts.lv2dir,
          if opts.lv2User then
            (if platform == Darwin then home + "/Library/Audio/Plug-Ins/LV2" else home + "/.lv2")
          else
            (if platform == Darwin then "/Library/Audio/Plug-Ins/LV2" else libdir + "lv2/")))
  }

  /**
   * trunk/autowaf.py without options: PREFIX + "/bin/", "/include/", "/lib/",
   * "/share/", and the chopped names of bin, lib and share are "bin/",
   * "lib/" and "share/".
   */
  lemma ConfigureDirsTrunkDefaults(prefix: string, platform: Platform, home: string, appName: string)
    ensures var none := Options(false, false, None, None, None, None, None, None, None, None);
      var d := ConfigureDirsTrunk(none, prefix, platform, home, appName);
      && d.bindir == prefix + "/bin/" && d.includedir == prefix + "/include/"
      && d.libdir == prefix + "/lib/" && d.datadir == prefix + "/share/"
      && d.mandir == prefix + "/share/" + "man/"
      && ChopPrefix(d.bindir, prefix) == "bin/"
      && ChopPrefix(d.libdir, prefix) == "lib/"
      && ChopPrefix(d.datadir, prefix) == "share/"
  {
    ChopPrefixOfDefault(prefix, "bin/");
    ChopPrefixOfDefault(prefix, "lib/");
    ChopPrefixOfDefault(prefix, "share/");
  }

  /** os.path.basename */
  function Basename(p: string): string
  {
    if p == [] || p[|p| - 1] == '/' then "" else Basename(p[..|p| - 1]) + [p[|p| - 1]]
  }

  /** The base name is the longest '/'-free suffix of the path. */
  lemma {:induction false} BasenameSpec(p: string)
    ensures |Basename(p)| <= |p| && Basename(p) == p[|p| - |Basename(p)|..]
    ensures forall i :: 0 <= i < |Basename(p)| ==> Basename(p)[i] != '/'
    ensures |Basename(p)| < |p| ==> p[|p| - |Basename(p)| - 1] == '/'
  {
    if p != [] && p[|p| - 1] != '/' {
      var q := p[..|p| - 1];
      BasenameSpec(q);
      assert Basename(p) == Basename(q) + [p[|p| - 1]];
      assert q[|q| - |Basename(q)|..] + [p[|p| - 1]] == p[|p| - |Basename(p)|..];
    }
  }

  /**
   * BINDIRNAME, LIBDIRNAME, DATADIRNAME, CONFIGDIRNAME and LV2DIRNAME in
   * autowaf.py, or None when CONFIGDIR was never set (bundle mode), where
   * taking the base name of the missing entry fails.
   */
  function BaseNames(d: Dirs): Option<seq<string>>
  {
    if d.configdir.None? then None
    else Some([Basename(d.bindir), Basename(d.libdir), Basename(d.datadir), Basename(d.configdir.value), Basename(d.lv2dir)])
  }

  /** CONFIGDIR is set exactly outside bundle mode. */
  lemma ConfigDirOutsideBundle(opts: Options, prefix: string, platform: Platform, home: string, appName: string)
    ensures ConfigureDirs(opts, prefix, platform, home, appName).configdir.Some? <==> !opts.bundle
  {
  }

  /** configure finds the base names exactly outside bundle mode. */
  lemma ConfigureNamesExist(opts: Options, prefix: string, platform: Platform, home: string, appName: string)
    ensures BaseNames(ConfigureDirs(opts, prefix, platform, home, appName)).Some? <==> !opts.bundle
  {
    ConfigDirOutsideBundle(opts, prefix, platform, home, appName);
    BaseNamesAreTails(ConfigureDirs(opts, prefix, platform, home, appName));
  }

  /**
   * The base names exist exactly when CONFIGDIR is set, and each is the
   * '/'-free tail of its directory, in the order bin, lib, data, config,
   * lv2.
   */
  lemma BaseNamesAreTails(d: Dirs)
    ensures BaseNames(d).Some? <==> d.configdir.Some?
    ensures BaseNames(d).Some? ==>
      var dirs := [d.bindir, d.libdir, d.datadir, d.configdir.value, d.lv2dir];
      var names := BaseNames(d).value;
      |names| == |dirs| && forall k :: 0 <= k < |names| ==> TailOf(names[k], dirs[k])
  {
    if d.configdir.Some? {
      BasenameTail(d.bindir);
      BasenameTail(d.libdir);
      BasenameTail(d.datadir);
      BasenameTail(d.configdir.value);
      BasenameTail(d.lv2dir);
    }
  }

  lemma BasenameTail(p: string)
    ensures TailOf(Basename(p), p)
  {
    BasenameSpec(p);
  }

  /** name is a '/'-free suffix of the path p. */
  predicate TailOf(name: string, p: string)
  {
    |name| <= |p| && name == p[|p| - |name|..] && '/' !in name
  }


  /** BINDIRNAME, LIBDIRNAME, DATADIRNAME and LV2DIRNAME in trunk/autowaf.py. */
  function ChoppedNames(d: Dirs, prefix: string): seq<string>
  {
    [ChopPrefix(d.bindir, prefix), ChopPrefix(d.libdir, prefix),
     ChopPrefix(d.datadir, prefix), ChopPrefix(d.lv2dir, prefix)]
  }

  // ---------------------------------------------------------------------
  // The configuration context and its check-once logic
  // ---------------------------------------------------------------------

  predicate NoDuplicates<T(==)>(s: seq<T>)
  {
    forall i, j :: 0 <= i < j < |s| ==> s[i] != s[j]
  }

  /** The outcome of check_pkg: a missing mandatory package is fatal. */
  datatype PkgOutcome = PkgOk | Fatal(message: string)

  /** Python's `<` on strings: lexicographic on code points. */
  predicate TextLess(a: string, b: string)
  {
    if a == [] then b != []
    else if b == [] then false
    else if a[0] != b[0] then a[0] < b[0]
    else TextLess(a[1..], b[1..])
  }

  /** The tools configure hands to waf's check_tool in autowaf.py. */
  const COMPILER_TOOLS: seq<string> := ["compiler_cc", "compiler_cxx"]

  /**
   * The configuration environment as far as the helpers use it, plus the
   * record of which names were handed to the foreign checks.
   */
  class ConfigContext {
    var step: nat                        // the global g_step
    var optionsAdded: bool               // the standard options were registered
    var headersChecked: set<string>      // env['AUTOWAF_HEADERS']
    var headerChecks: seq<string>        // names passed to the foreign header check
    var toolsChecked: set<string>        // env['AUTOWAF_TOOLS']
    var toolChecks: seq<string>          // names passed to the foreign tool check
    var wafToolChecks: seq<string>       // names passed straight to waf's conf.check_tool
    var defines: set<string>             // HAVE_x variables present in env
    var versions: map<string, string>    // env['VERSION_' + name]
    var pkgChecks: seq<string>           // packages passed to pkg-config
    var dirs: Option<Dirs>               // directories chosen by configure
    var dirNames: seq<string>            // the *DIRNAME entries configure derives

    /** Each foreign check has seen each name at most once, and exactly the names memoised. */
    ghost predicate Valid()
      reads this
    {
      && NoDuplicates(headerChecks) && (forall n :: n in headerChecks <==> n in headersChecked)
      && NoDuplicates(toolChecks) && (forall n :: n in toolChecks <==> n in toolsChecked)
    }

    constructor ()
      ensures Valid()
      ensures step == 0 && !optionsAdded && headerChecks == [] && toolChecks == [] && wafToolChecks == []
      ensures defines == {} && versions == map[] && pkgChecks == [] && dirs == None
    {
      step := 0;
      optionsAdded := false;
      headersChecked := {};
      headerChecks := [];
      toolsChecked := {};
      toolChecks := [];
      wafToolChecks := [];
      defines := {};
      versions := map[];
      pkgChecks := [];
      dirs := None;
      dirNames := [];
    }

    /** set_options: registers the standard options once, guarded by g_step. */
    method SetOptions()
      modifies this
      ensures old(step) > 0 ==> step == old(step) && optionsAdded == old(optionsAdded)
      ensures old(step) == 0 ==> step == 1 && optionsAdded
      ensures headerChecks == old(headerChecks) && toolChecks == old(toolChecks)
      ensures headersChecked == old(headersChecked) && toolsChecked == old(toolsChecked)
    {
      if step > 0 {
        return;
      }
      optionsAdded := true;
      step := 1;
    }

    /** check_header: the foreign check runs only for a header not checked before. */
    method CheckHeader(name: string)
      requires Valid()
      modifies this
      ensures Valid()
      ensures headerChecks == old(headerChecks) + (if name in old(headersChecked) then [] else [name])
      ensures headersChecked == old(headersChecked) + {name}
      ensures toolChecks == old(toolChecks) && toolsChecked == old(toolsChecked)
      ensures step == old(step) && defines == old(defines) && versions == old(versions)
    {
      if name !in headersChecked {
        headersChecked := headersChecked + {name};
        headerChecks := headerChecks + [name];
      }
    }

    /** check_tool (trunk/autowaf.py): the foreign check runs only for a tool not checked before. */
    method CheckTool(name: string)
      requires Valid()
      modifies this
      ensures Valid()
      ensures toolChecks == old(toolChecks) + (if name in old(toolsChecked) then [] else [name])
      ensures toolsChecked == old(toolsChecked) + {name}
      ensures headerChecks == old(headerChecks) && headersChecked == old(headersChecked)
      ensures step == old(step) && defines == old(defines) && versions == old(versions)
    {
      if name !in toolsChecked {
        toolChecks := toolChecks + [name];
        toolsChecked := toolsChecked + {name};
      }
    }

    /**
     * check_pkg given the name of its HAVE_ variable. `found` is what the
     * foreign pkg-config check reports when it runs.
     */
    method CheckPkgAs(varName: string, name: string, atleast: Option<string>, mandatory: bool, found: bool)
      returns (outcome: PkgOutcome)
      modifies this
      ensures var versionKnown := name in old(versions) && old(versions)[name] != "";
        var recheck := varName !in old(defines)
          || (atleast.Some? && versionKnown && TextLess(old(versions)[name], atleast.value));
        && (recheck ==> pkgChecks == old(pkgChecks) + [name])
        && (!recheck ==> pkgChecks == old(pkgChecks) && defines == old(defines)
                         && versions == old(versions) && outcome == PkgOk)
        && (recheck && found ==>
              (defines == old(defines) + {varName} && outcome == PkgOk
               && versions == (if atleast.Some? then old(versions)[name := atleast.value] else old(versions))))
        && (recheck && !found ==>
              (defines == old(defines) - {varName} && versions == old(versions)
               && outcome == (if mandatory then Fatal("Required package " + name + " not found") else PkgOk)))
      ensures headerChecks == old(headerChecks) && toolChecks == old(toolChecks)
      ensures headersChecked == old(headersChecked) && toolsChecked == old(toolsChecked)
      ensures step == old(step)
    {
      var check := varName !in defines;
      if !check && atleast.Some? {
        var checkedVersion := if name in versions then versions[name] else "";
        if checkedVersion != "" && TextLess(checkedVersion, atleast.value) {
          check := true;
        }
      }
      outcome := PkgOk;
      if check {
        pkgChecks := pkgChecks + [name];
        if found {
          defines := defines + {varName};
          if atleast.Some? {
            versions := versions[name := atleast.value];
          }
        } else {
          defines := defines - {varName};
          if mandatory {
            outcome := Fatal("Required package " + name + " not found");
          }
        }
      }
    }

    /** autowaf.py check_pkg: HAVE_ + nameify(uselib_store); mandatory defaults to true. */
    method CheckPkg(name: string, uselibStore: string, atleast: Option<string>, mandatory: Option<bool>, found: bool)
      returns (outcome: PkgOutcome)
      modifies this
      ensures var varName := "HAVE_" + Nameify(uselibStore);
        var versionKnown := name in old(versions) && old(versions)[name] != "";
        var recheck := varName !in old(defines)
          || (atleast.Some? && versionKnown && TextLess(old(versions)[name], atleast.value));
        && (recheck ==> pkgChecks == old(pkgChecks) + [name])
        && (!recheck ==> pkgChecks == old(pkgChecks) && defines == old(defines)
                         && versions == old(versions) && outcome == PkgOk)
        && (recheck && found ==>
              (defines == old(defines) + {varName} && outcome == PkgOk
               && versions == (if atleast.Some? then old(versions)[name := atleast.value] else old(versions))))
        && (recheck && !found ==>
              (defines == old(defines) - {varName} && versions == old(versions)
               && outcome == (if mandatory != Some(false) then Fatal("Required package " + name + " not found") else PkgOk)))
      ensures headerChecks == old(headerChecks) && toolChecks == old(toolChecks)
      ensures headersChecked == old(headersChecked) && toolsChecked == old(toolsChecked)
      ensures step == old(step)
    {
      var isMandatory := if mandatory.Some? then mandatory.value else true;
      outcome := CheckPkgAs("HAVE_" + Nameify(uselibStore), name, atleast, isMandatory, found);
    }

    /** trunk/autowaf.py check_pkg: HAVE_ + uselib_store, mandatory given by the caller. */
    method CheckPkgTrunk(name: string, uselibStore: string, atleast: Option<string>, mandatory: bool, found: bool)
      returns (outcome: PkgOutcome)
      modifies this
      ensures var varName := "HAVE_" + uselibStore;
        var versionKnown := name in old(versions) && old(versions)[name] != "";
        var recheck := varName !in old(defines)
          || (atleast.Some? && versionKnown && TextLess(old(versions)[name], atleast.value));
        && (recheck ==> pkgChecks == old(pkgChecks) + [name])
        && (!recheck ==> pkgChecks == old(pkgChecks) && defines == old(defines)
                         && versions == old(versions) && outcome == PkgOk)
        && (recheck && found ==>
              (defines == old(defines) + {varName} && outcome == PkgOk
               && versions == (if atleast.Some? then old(versions)[name := atleast.value] else old(versions))))
        && (recheck && !found ==>
              (defines == old(defines) - {varName} && versions == old(versions)
               && outcome == (if mandatory then Fatal("Required package " + name + " not found") else PkgOk)))
      ensures headerChecks == old(headerChecks) && toolChecks == old(toolChecks)
      ensures headersChecked == old(headersChecked) && toolsChecked == old(toolsChecked)
      ensures step == old(step)
    {
      outcome := CheckPkgAs("HAVE_" + uselibStore, name, atleast, mandatory, found);
    }

    /**
     * configure (autowaf.py): runs once, guarded by g_step, hands
     * compiler_cc and compiler_cxx to waf's check_tool, and chooses the
     * directories and their base names. The prefix is the already
     * normalised absolute PREFIX. In bundle mode CONFIGDIR is never set,
     * so taking CONFIGDIRNAME fails: ok is false and g_step stays.
     */
    method Configure(opts: Options, prefix: string, platform: Platform, home: string, appName: string)
      returns (ok: bool)
      modifies this`step, this`dirs, this`dirNames, this`wafToolChecks
      ensures old(step) > 1 ==>
        ok && step == old(step) && dirs == old(dirs) && dirNames == old(dirNames) && wafToolChecks == old(wafToolChecks)
      ensures old(step) <= 1 ==>
        (wafToolChecks == old(wafToolChecks) + COMPILER_TOOLS
         && dirs == Some(ConfigureDirs(opts, prefix, platform, home, appName))
         && (ok <==> !opts.bundle)
         && (ok ==> step == 2 && BaseNames(dirs.value) == Some(dirNames))
         && (!ok ==> step == old(step) && dirNames == old(dirNames)))
      ensures headerChecks == old(headerChecks) && toolChecks == old(toolChecks)
      ensures headersChecked == old(headersChecked) && toolsChecked == old(toolsChecked)
    {
      if step > 1 {
        return true;
      }
      wafToolChecks := wafToolChecks + COMPILER_TOOLS;
      dirs := Some(ConfigureDirs(opts, prefix, platform, home, appName));
      ConfigureNamesExist(opts, prefix, platform, home, appName);
      var names := BaseNames(dirs.value);
      ok := names.Some?;
      if ok {
        dirNames := names.value;
        step := 2;
      }
    }

    /** The three check_tool calls at the start of configure (trunk/autowaf.py). */
    method CheckStandardTools()
      requires Valid()
      modifies this
      ensures Valid()
      ensures toolsChecked == old(toolsChecked) + {"misc", "compiler_cc", "compiler_cxx"}
      ensures headerChecks == old(headerChecks) && headersChecked == old(headersChecked)
      ensures step == old(step) && defines == old(defines) && versions == old(versions)
    {
      CheckTool("misc");
      CheckTool("compiler_cc");
      CheckTool("compiler_cxx");
    }

    /**
     * configure (trunk/autowaf.py): runs once, checks the three standard
     * tools through check_tool, and chops PREFIX off the directory names.
     */
    method ConfigureTrunk(opts: Options, prefix: string, platform: Platform, home: string, appName: string)
      requires Valid()
      modifies this
      ensures Valid()
      ensures old(step) > 1 ==> step == old(step) && dirs == old(dirs) && toolChecks == old(toolChecks)
      ensures old(step) <= 1 ==>
        (step == 2
         && dirs == Some(ConfigureDirsTrunk(opts, prefix, platform, home, appName))
         && dirNames == ChoppedNames(dirs.value, prefix)
         && toolsChecked == old(toolsChecked) + {"misc", "compiler_cc", "compiler_cxx"})
    {
      if step > 1 {
        return;
      }
      CheckStandardTools();
      var d := ConfigureDirsTrunk(opts, prefix, platform, home, appName);
      dirs := Some(d);
      dirNames := ChoppedNames(d, prefix);
      step := 2;
    }
  }
}
