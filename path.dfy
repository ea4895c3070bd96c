/**
 * Raul's Path: the grammar of object paths ("/patch/node/port"), the
 * observers that split a path into parent and name, and the repair
 * functions that turn arbitrary text into a path or a name.
 *
 * Characters are the bytes of a std::string: a code below 32 or above 126
 * is not printable ASCII whether `char` is signed or not.
 */
module RaulPath {
  import opened Wrappers

  /** The characters is_valid refuses besides the unprintable ones. */
  predicate Forbidden(c: char)
  {
    c == ' ' || c == '#' || c == '*' || c == ',' || c == '?'
    || c == '[' || c == ']' || c == '{' || c == '}'
  }

  predicate Printable(c: char) { ' ' <= c <= '~' }

  /** A path character: printable and not forbidden. */
  predicate PathChar(c: char) { Printable(c) && !Forbidden(c) }

  predicate HasDoubleSlash(s: string)
  {
    exists i :: 0 <= i < |s| - 1 && s[i] == '/' && s[i + 1] == '/'
  }

  /**
   * is_valid: non-empty, starts with '/', ends with '/' only when it is "/",
   * has no "//", and every character is a path character.
   */
  predicate IsValid(path: string)
  {
    && |path| > 0
    && path[0] == '/'
    && !(|path| > 1 && path[|path| - 1] == '/')
    && !HasDoubleSlash(path)
    && (forall i :: 0 <= i < |path| ==> PathChar(path[i]))
  }

  /** is_valid_name: a name is valid when "/" + name is a valid path. */
  predicate IsValidName(name: string)
  {
    IsValid("/" + name)
  }

  /** A Path value: the constructors assert validity. */
  type Path = p: string | IsValid(p) witness "/"

  // ---------------------------------------------------------------------
  // Searching
  // ---------------------------------------------------------------------

  /** find(c): the first index of c, or -1 for npos. */
  function IndexOf(s: string, c: char): (r: int)
    ensures -1 <= r < |s|
    ensures r == -1 ==> forall j :: 0 <= j < |s| ==> s[j] != c
    ensures r >= 0 ==> s[r] == c && forall j :: 0 <= j < r ==> s[j] != c
  {
    if s == [] then -1
    else if s[0] == c then 0
    else
      var k := IndexOf(s[1..], c);
      if k < 0 then -1 else k + 1
  }

  /** find_last_of(c): the last index of c, or -1 for npos. */
  function LastIndexOf(s: string, c: char): (r: int)
    ensures -1 <= r < |s|
    ensures r == -1 ==> forall j :: 0 <= j < |s| ==> s[j] != c
    ensures r >= 0 ==> s[r] == c && forall j :: r < j < |s| ==> s[j] != c
  {
    if s == [] then -1
    else if s[|s| - 1] == c then |s| - 1
    else LastIndexOf(s[..|s| - 1], c)
  }

  // ---------------------------------------------------------------------
  // Observers
  // ---------------------------------------------------------------------

  /** name(): "" for the root, else everything after the last '/'. */
  function Name(p: string): string
  {
    if p == "/" then "" else p[LastIndexOf(p, '/') + 1..]
  }

  /** parent(): everything before the last '/', or "/" when that is empty. */
  function Parent(p: Path): string
  {
    var parent := p[..LastIndexOf(p, '/')];
    if parent == "" then "/" else parent
  }

  /** base(): the root itself, else the path with '/' appended. */
  function Base(p: string): string
  {
    if p == "/" then p else p + "/"
  }

  /** is_child_of: strictly longer and starting with the parent's text. */
  predicate IsChildOf(p: Path, parent: Path)
  {
    |p| > |parent| && p[..|parent|] == parent
  }

  /** The root is its own parent, has the empty name and is its own base. */
  lemma RootObservers()
    ensures Name("/") == "" && Parent("/") == "/" && Base("/") == "/"
  {
    assert LastIndexOf("/", '/') == 0;
  }

  /** The name of a path is a valid name without '/'. */
  lemma NameIsValidName(p: Path)
    ensures '/' !in Name(p)
    ensures IsValidName(Name(p))
  {
    if p != "/" {
      var k := LastIndexOf(p, '/');
      var n := p[k + 1..];
      assert forall i :: 0 <= i < |n| ==> n[i] == p[k + 1 + i];
      var s := "/" + n;
      assert forall i :: 1 <= i < |s| ==> s[i] == p[k + i];
    }
  }

  /** The parent of a valid path is a valid path. */
  lemma ParentIsValid(p: Path)
    ensures IsValid(Parent(p))
  {
    var k := LastIndexOf(p, '/');
    var q := p[..k];
    if q != "" {
      assert forall i :: 0 <= i < |q| ==> q[i] == p[i];
    }
  }

  /** A path other than the root is its parent's base followed by its name. */
  lemma {:induction false} BaseOfParentAndName(p: Path)
    requires p != "/"
    ensures Base(Parent(p)) + Name(p) == p
  {
    var k := LastIndexOf(p, '/');
    if k == 0 {
      assert p[..0] == "";
      assert "/" + p[1..] == p;
    } else {
      assert p[..k] + "/" + p[k + 1..] == p;
    }
  }

  /** A path other than the root is longer than its parent. */
  lemma ParentShorter(p: Path)
    requires p != "/"
    ensures |Parent(p)| < |p|
  {
    assert p[0] == '/';
    assert LastIndexOf(p, '/') >= 0;
  }

  /** The parent's base is a prefix of the path: the parent is an ancestor. */
  lemma ParentBasePrefix(p: Path)
    ensures Base(Parent(p)) <= p
  {
    if p == "/" {
      RootObservers();
    } else {
      BaseOfParentAndName(p);
    }
  }

  /** A segment: a non-empty valid name without '/'. */
  predicate IsSegment(n: string)
  {
    n != "" && '/' !in n && IsValidName(n)
  }

  /** parent.base() + a segment is a valid path. */
  lemma ChildIsValid(p: Path, n: string)
    requires IsSegment(n)
    ensures IsValid(Base(p) + n)
  {
    if p != "/" {
      var c := p + "/" + n;
      var slash := "/" + n;
      assert Base(p) + n == c;
      assert c == p + slash;
      assert forall i :: 0 <= i < |p| ==> c[i] == p[i];
      assert forall i :: 0 <= i < |slash| ==> c[|p| + i] == slash[i];
      assert forall i :: 0 <= i < |c| ==> PathChar(c[i]) by {
        forall i | 0 <= i < |c| ensures PathChar(c[i]) {
          if i >= |p| {
            assert c[i] == slash[i - |p|];
          }
        }
      }
      forall i | 0 <= i < |c| - 1
        ensures !(c[i] == '/' && c[i + 1] == '/')
      {
        if i + 1 < |p| {
          assert c[i] == p[i] && c[i + 1] == p[i + 1];
        } else if i + 1 == |p| {
          assert c[i] == p[|p| - 1];
        } else {
          assert c[i + 1] == slash[i + 1 - |p|];
        }
      }
    }
  }

  /**
   * Building a child as parent.base() + name gives a valid path whose
   * parent and name are the two parts, and which is a child of the parent.
   */
  lemma ChildRoundTrip(p: Path, n: string)
    requires IsSegment(n)
    ensures IsValid(Base(p) + n)
    ensures var c: Path := Base(p) + n; Parent(c) == p && Name(c) == n && IsChildOf(c, p)
  {
    ChildIsValid(p, n);
    var c: Path := Base(p) + n;
    var b := Base(p);
    var k := |b| - 1;
    assert c[k] == '/';
    assert c[k + 1..] == n;
    assert forall j :: k < j < |c| ==> c[j] == n[j - k - 1];
    assert LastIndexOf(c, '/') == k;
    if p == "/" {
      assert c[..k] == "";
    } else {
      assert c[..k] == p;
    }
    assert c[..|p|] == p;
  }

  /** is_child_of is textual: "/ab" counts as a child of "/a". */
  lemma ChildOfIsTextual()
    ensures IsValid("/ab") && IsValid("/a") && IsChildOf("/ab", "/a")
  {
    assert !HasDoubleSlash("/ab") by {
      forall i | 0 <= i < 2 ensures !("/ab"[i] == '/' && "/ab"[i + 1] == '/') { }
    }
    assert !HasDoubleSlash("/a") by {
      forall i | 0 <= i < 1 ensures !("/a"[i] == '/' && "/a"[i + 1] == '/') { }
    }
    assert "/ab"[..2] == "/a";
  }

  // ---------------------------------------------------------------------
  // replace_invalid_chars: the character pass
  // ---------------------------------------------------------------------

  /** std::toupper in the C locale. */
  function ToUpper(c: char): (u: char)
    ensures 'a' <= c <= 'z' ==> 'A' <= u <= 'Z'
    ensures !('a' <= c <= 'z') ==> u == c
  {
    if 'a' <= c <= 'z' then (c as int - 32) as char else c
  }

  /** What the first pass writes over a character that is neither a space nor an underscore. */
  function Translate(c: char, replaceSlash: bool): (t: char)
  {
    if c == '[' || c == '{' then '('
    else if c == ']' || c == '}' then ')'
    else if !Printable(c) || c == '#' || c == '*' || c == ',' || c == '?' || (replaceSlash && c == '/') then '.'
    else c
  }

  /**
   * The first loop of replace_invalid_chars, as written: a space or an
   * underscore is deleted and the character after it is uppercased; the
   * index then moves past that character, which is never examined itself.
   */
  function FirstPass(s: string, replaceSlash: bool): string
    decreases |s|
  {
    if s == [] then []
    else if s[0] == ' ' || s[0] == '_' then
      if |s| == 1 then [] else [ToUpper(s[1])] + FirstPass(s[2..], replaceSlash)
    else [Translate(s[0], replaceSlash)] + FirstPass(s[1..], replaceSlash)
  }

  /** The character loop of replace_invalid_chars, rewriting the string in place. */
  method ReplaceChars(str: string, replaceSlash: bool) returns (s: string)
    ensures s == FirstPass(str, replaceSlash)
  {
    s := str;
    var i := 0;
    while i < |s|
      invariant 0 <= i <= |s| + 1
      invariant i <= |s| ==> s[..i] + FirstPass(s[i..], replaceSlash) == FirstPass(str, replaceSlash)
      invariant i == |s| + 1 ==> s == FirstPass(str, replaceSlash)
      decreases |s| + 1 - i
    {
      if s[i] == ' ' || s[i] == '_' {
        DeleteStep(s, i, replaceSlash);
        if i + 1 < |s| {
          s := s[i + 1 := ToUpper(s[i + 1])];
        }
        s := s[..i] + s[i + 1..];
      } else {
        ghost var before := s;
        if s[i] == '[' || s[i] == '{' {
          s := s[i := '('];
        } else if s[i] == ']' || s[i] == '}' {
          s := s[i := ')'];
        } else if !Printable(s[i]) || s[i] == '#' || s[i] == '*' || s[i] == ',' || s[i] == '?'
                  || (replaceSlash && s[i] == '/') {
          s := s[i := '.'];
        }
        assert s == before[i := Translate(before[i], replaceSlash)];
        TranslateStep(before, i, replaceSlash);
      }
      i := i + 1;
    }
  }

  /** Deleting a space or underscore at i and uppercasing its successor, then moving past it. */
  lemma DeleteStep(s: string, i: nat, replaceSlash: bool)
    requires i < |s| && (s[i] == ' ' || s[i] == '_')
    ensures var u := if i + 1 < |s| then s[i + 1 := ToUpper(s[i + 1])] else s;
      var t := u[..i] + u[i + 1..];
      && (i + 1 <= |t| ==> t[..i + 1] + FirstPass(t[i + 1..], replaceSlash) == s[..i] + FirstPass(s[i..], replaceSlash))
      && (i + 1 > |t| ==> t == s[..i] + FirstPass(s[i..], replaceSlash))
  {
    if i + 1 < |s| {
      var u := s[i + 1 := ToUpper(s[i + 1])];
      var t := u[..i] + u[i + 1..];
      assert s[i..][2..] == s[i + 2..];
      assert t[..i + 1] == s[..i] + [ToUpper(s[i + 1])];
      assert t[i + 1..] == s[i + 2..];
    } else {
      assert s[..i] + s[i + 1..] == s[..i];
    }
  }

  /** Overwriting the character at i with its translation, then moving past it. */
  lemma TranslateStep(s: string, i: nat, replaceSlash: bool)
    requires i < |s| && s[i] != ' ' && s[i] != '_'
    ensures var t := s[i := Translate(s[i], replaceSlash)];
      t[..i + 1] + FirstPass(t[i + 1..], replaceSlash) == s[..i] + FirstPass(s[i..], replaceSlash)
  {
    var t := s[i := Translate(s[i], replaceSlash)];
    assert t[..i + 1] == s[..i] + [Translate(s[i], replaceSlash)];
    assert t[i + 1..] == s[i + 1..];
    assert s[i..][1..] == s[i + 1..];
  }

  // ---------------------------------------------------------------------
  // replace_invalid_chars: the bracket loop
  // ---------------------------------------------------------------------

  /**
   * The `while (true)` loop that chops brackets, as written. Each turn finds
   * the first '(' and the first ')'. With no '(' the loop ends. With a '('
   * but no ')' nothing changes and the loop never ends (None). With the ')'
   * after the '(' the span between them is erased. With the ')' before the
   * '(' the unsigned count (close - open) + 1 wraps: to 0 when the ')' sits
   * just before the '(' (nothing is erased and the loop never ends), and to
   * a huge count otherwise, which erases from the '(' to the end.
   */
  function ChopSpec(s: string): (r: Option<string>)
    ensures r.Some? ==> '(' !in r.value && |r.value| <= |s|
    decreases |s|
  {
    var open := IndexOf(s, '(');
    var close := IndexOf(s, ')');
    if open < 0 then Some(s)
    else if close < 0 then None
    else if close >= open then ChopSpec(s[..open] + s[close + 1..])
    else if close == open - 1 then None
    else ChopSpec(s[..open])
  }

  /** The bracket loop; None stands for the loop never terminating. */
  method ChopBrackets(str: string) returns (r: Option<string>)
    ensures r == ChopSpec(str)
  {
    var s := str;
    while true
      invariant ChopSpec(s) == ChopSpec(str)
      decreases |s|
    {
      var open := IndexOf(s, '(');
      var close := IndexOf(s, ')');
      if open >= 0 {
        if close >= 0 {
          if close >= open {
            s := s[..open] + s[close + 1..];
          } else if close == open - 1 {
            return None;
          } else {
            s := s[..open];
          }
        } else {
          return None;
        }
      } else {
        break;
      }
    }
    r := Some(s);
  }

  /** replace_invalid_chars: both passes; None when the bracket loop never ends. */
  function ReplaceInvalid(s: string, replaceSlash: bool): Option<string>
  {
    ChopSpec(FirstPass(s, replaceSlash))
  }

  method ReplaceInvalidChars(str: string, replaceSlash: bool) returns (r: Option<string>)
    ensures r == ReplaceInvalid(str, replaceSlash)
  {
    var s := ReplaceChars(str, replaceSlash);
    r := ChopBrackets(s);
  }

  // ---------------------------------------------------------------------
  // pathify and nameify
  // ---------------------------------------------------------------------

  /** The text pathify hands to replace_invalid_chars: a leading '/' added, one trailing '/' dropped. */
  function Slashed(str: string): (path: string)
    requires str != []
    ensures |path| >= 1 && path[0] == '/'
  {
    var path := if str[0] != '/' then "/" + str else str;
    if |path| > 1 && path[|path| - 1] == '/' then path[..|path| - 1] else path
  }

  function PathifySpec(str: string): Option<string>
  {
    if str == [] then Some("/") else ReplaceInvalid(Slashed(str), false)
  }

  /** pathify; None when replace_invalid_chars never returns. */
  method Pathify(str: string) returns (r: Option<string>)
    ensures str == [] ==> r == Some("/")
    ensures r == PathifySpec(str)
  {
    if |str| == 0 {
      return Some("/");
    }
    var path := str;
    if path[0] != '/' {
      path := "/" + path;
    }
    if |path| > 1 && path[|path| - 1] == '/' {
      path := path[..|path| - 1];
    }
    r := ReplaceInvalidChars(path, false);
  }

  function NameifySpec(str: string): Option<string>
  {
    if str == [] then Some(".") else ReplaceInvalid(str, true)
  }

  /** nameify; None when replace_invalid_chars never returns. */
  method Nameify(str: string) returns (r: Option<string>)
    ensures str == [] ==> r == Some(".")
    ensures r == NameifySpec(str)
  {
    if |str| == 0 {
      return Some(".");
    }
    r := ReplaceInvalidChars(str, true);
  }

  /** A character the first pass leaves as it is. */
  predicate Clean(c: char)
  {
    PathChar(c) && c != '_'
  }

  lemma {:induction false} FirstPassIdentity(s: string, replaceSlash: bool)
    requires forall i :: 0 <= i < |s| ==> Clean(s[i]) && !(replaceSlash && s[i] == '/')
    ensures FirstPass(s, replaceSlash) == s
    decreases |s|
  {
    if s != [] {
      FirstPassIdentity(s[1..], replaceSlash);
    }
  }

  /**
   * A valid path without underscores or brackets comes back from pathify
   * unchanged.
   */
  lemma PathifyKeepsCleanPaths(p: string)
    requires IsValid(p)
    requires forall i :: 0 <= i < |p| ==> p[i] != '_' && p[i] != '(' && p[i] != ')'
    ensures PathifySpec(p) == Some(p)
  {
    assert Slashed(p) == p;
    FirstPassIdentity(p, false);
    assert IndexOf(p, '(') == -1;
  }

  // ---------------------------------------------------------------------
  // What the code as written gets wrong
  // ---------------------------------------------------------------------

  /** An unmatched '(' makes the bracket loop spin: pathify never returns. */
  lemma UnmatchedOpenHangs()
    ensures PathifySpec("a(b") == None
  {
    assert Slashed("a(b") == "/a(b";
    FirstPassIdentity("/a(b", false);
    OpenWithoutCloseHangs("/a(b", 2);
  }

  /** Text holding a '(' and no ')' keeps the bracket loop spinning. */
  lemma OpenWithoutCloseHangs(s: string, k: nat)
    requires k < |s| && s[k] == '('
    requires forall j :: 0 <= j < |s| ==> s[j] != ')'
    ensures ChopSpec(s) == None
  {
  }

  /**
   * The character after a deleted space is skipped: two spaces leave one
   * behind, so pathify returns a path that is not valid.
   */
  lemma SkippedSpaceGivesInvalidPath()
    ensures PathifySpec("a  b") == Some("/a b") && !IsValid("/a b")
  {
    assert Slashed("a  b") == "/a  b";
    assert FirstPass("b", false) == "b";
    assert "  b"[2..] == "b";
    assert FirstPass("  b", false) == " b";
    assert "a  b"[1..] == "  b";
    assert FirstPass("a  b", false) == "a b";
    assert "/a  b"[1..] == "a  b";
    assert FirstPass("/a  b", false) == "/a b";
    NoOpenKept("/a b");
    assert !PathChar("/a b"[2]);
  }

  /** The same skip lets a '/' after a space through nameify, which should strip every slash. */
  lemma SkippedSlashSurvivesNameify()
    ensures NameifySpec("a /b") == Some("a/b")
  {
    assert FirstPass("b", true) == "b";
    assert " /b"[2..] == "b";
    assert FirstPass(" /b", true) == "/b";
    assert "a /b"[1..] == " /b";
    assert FirstPass("a /b", true) == "a/b";
    NoOpenKept("a/b");
  }

  /** Text without '(' passes the bracket loop unchanged. */
  lemma NoOpenKept(s: string)
    requires forall j :: 0 <= j < |s| ==> s[j] != '('
    ensures ChopSpec(s) == Some(s)
  {
  }

  /** pathify never removes a double slash, so "a//b" yields an invalid path. */
  lemma DoubleSlashGivesInvalidPath()
    ensures PathifySpec("a//b") == Some("/a//b") && !IsValid("/a//b")
  {
    assert Slashed("a//b") == "/a//b";
    assert forall i :: 0 <= i < |"/a//b"| ==> Clean("/a//b"[i]);
    FirstPassIdentity("/a//b", false);
    NoOpenKept("/a//b");
    assert "/a//b"[2] == '/' && "/a//b"[3] == '/';
  }

  // ---------------------------------------------------------------------
  // Corrected repair functions
  // ---------------------------------------------------------------------

  /** The character pass with the deleted character's successor examined like any other. */
  function FirstPassFixed(s: string, replaceSlash: bool): (r: string)
    ensures forall i :: 0 <= i < |r| ==> Clean(r[i]) && !(replaceSlash && r[i] == '/')
    decreases |s|
  {
    if s == [] then []
    else if s[0] == ' ' || s[0] == '_' then
      if |s| == 1 then [] else FirstPassFixed([ToUpper(s[1])] + s[2..], replaceSlash)
    else [Translate(s[0], replaceSlash)] + FirstPassFixed(s[1..], replaceSlash)
  }

  /**
   * The bracket pass with the ')' searched for after the '(' only, and an
   * unmatched '(' erasing the rest of the text: it always terminates.
   */
  function ChopFixed(s: string): (r: string)
    ensures '(' !in r
    ensures forall c :: c in r ==> c in s
    decreases |s|
  {
    var open := IndexOf(s, '(');
    if open < 0 then s
    else
      var close := IndexOf(s[open..], ')');
      InSlice(s, 0, open);
      assert s[0..open] == s[..open];
      if close < 0 then s[..open]
      else
        var rest := s[open + close + 1..];
        InSlice(s, open + close + 1, |s|);
        assert s[open + close + 1..|s|] == rest;
        s[..open] + ChopFixed(rest)
  }

  /** Every character of a slice occurs in the whole. */
  lemma InSlice(s: string, lo: nat, hi: nat)
    requires lo <= hi <= |s|
    ensures forall c :: c in s[lo..hi] ==> c in s
  {
    forall c | c in s[lo..hi] ensures c in s {
      var i :| 0 <= i < hi - lo && s[lo..hi][i] == c;
      assert s[lo + i] == c;
    }
  }

  /** Drops every '/' that directly follows another '/'. */
  function CollapseSlashes(s: string): (r: string)
    ensures !HasDoubleSlash(r)
    ensures forall c :: c in r ==> c in s
    ensures s != [] ==> r != [] && r[0] == s[0]
    decreases |s|
  {
    if |s| < 2 then s
    else if s[0] == '/' && s[1] == '/' then CollapseSlashes(s[1..])
    else
      var rest := CollapseSlashes(s[1..]);
      var r := [s[0]] + rest;
      assert forall i :: 0 < i < |r| ==> r[i] == rest[i - 1];
      assert forall c :: c in r ==> c in s by {
        forall c | c in r ensures c in s {
          if c != s[0] {
            assert c in rest;
            assert c in s[1..];
          }
        }
      }
      r
  }

  /**
   * pathify as its documentation promises: the text is cleaned by the
   * corrected passes, then double slashes and a trailing slash are removed.
   */
  function PathifyFixed(str: string): (p: string)
    ensures IsValid(p)
  {
    var cleaned := ChopFixed(FirstPassFixed(str, false));
    assert forall c :: c in cleaned ==> Clean(c) by {
      forall c | c in cleaned ensures Clean(c) {
        var t := FirstPassFixed(str, false);
        assert c in t;
        var i :| 0 <= i < |t| && t[i] == c;
      }
    }
    var collapsed := CollapseSlashes("/" + cleaned);
    assert forall i :: 0 <= i < |collapsed| ==> PathChar(collapsed[i]) by {
      forall i | 0 <= i < |collapsed| ensures PathChar(collapsed[i]) {
        assert collapsed[i] in "/" + cleaned;
        if collapsed[i] != '/' {
          assert collapsed[i] in cleaned;
        }
      }
    }
    if |collapsed| > 1 && collapsed[|collapsed| - 1] == '/' then
      var p := collapsed[..|collapsed| - 1];
      assert collapsed[|collapsed| - 2] != '/';
      assert forall i :: 0 <= i < |p| ==> p[i] == collapsed[i];
      p
    else collapsed
  }
}
