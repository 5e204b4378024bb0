/** The POSIX path operations the scripts use, written out over strings:
    `str.rfind`, `os.path.basename`, `os.path.join`, `os.path.splitext`, and pathlib's
    `Path(p).with_suffix(ext)` followed by `str(...)`. */
module PyPath {
  import opened Wrappers

  /** Python's `s.rfind(c)`: index of the last `c` in `s`, or -1. */
  function RFind(s: string, c: char): (i: int)
    ensures -1 <= i < |s|
    ensures i >= 0 ==> s[i] == c
    ensures forall k | i < k < |s| :: s[k] != c
    decreases |s|
  {
    if s == [] then -1
    else if s[|s| - 1] == c then |s| - 1
    else RFind(s[..|s| - 1], c)
  }

  /** Position `i` of `p` starts a path component: it is the start of `p` or follows a '/'. */
  predicate StartsComponent(p: string, i: nat)
    requires i <= |p|
  {
    i == 0 || p[i - 1] == '/'
  }

  /** `os.path.basename(p)`: what follows the last '/'. */
  function Basename(p: string): (b: string)
    ensures |b| <= |p| && b == p[|p| - |b|..]
    ensures '/' !in b
    ensures StartsComponent(p, |p| - |b|)
  {
    p[RFind(p, '/') + 1..]
  }

  /** The last '/' of `prefix + name` is the one that ends `prefix`, so the basename is `name`. */
  lemma BasenameOfAppend(prefix: string, name: string)
    requires prefix == [] || prefix[|prefix| - 1] == '/'
    requires '/' !in name
    ensures Basename(prefix + name) == name
  {
    var s := prefix + name;
    var i := RFind(s, '/');
    forall k | |prefix| <= k < |s| ensures s[k] != '/' {
      assert s[k] == name[k - |prefix|];
    }
    if prefix != [] {
      assert s[|prefix| - 1] == '/';
    }
    assert i == |prefix| - 1;
    assert s[|prefix|..] == name;
  }

  /** `os.path.join(dir, name)` (POSIX): an absolute `name` replaces `dir`; otherwise a '/' is
      put between them unless `dir` is empty or already ends with one. */
  function PathJoin(dir: string, name: string): string {
    if name != [] && name[0] == '/' then name
    else if dir == [] || dir[|dir| - 1] == '/' then dir + name
    else dir + "/" + name
  }

  /** Joining a directory and a plain file name gives a path whose basename is that name. */
  lemma PathJoinBasename(dir: string, name: string)
    requires '/' !in name
    ensures Basename(PathJoin(dir, name)) == name
  {
    if dir == [] || dir[|dir| - 1] == '/' {
      BasenameOfAppend(dir, name);
    } else {
      BasenameOfAppend(dir + "/", name);
    }
  }

  /** Some character strictly between `lo` and `hi` is not a '.'. */
  predicate HasNonDotBetween(p: string, lo: int, hi: int)
    requires -1 <= lo && hi <= |p|
  {
    exists k | lo < k < hi :: p[k] != '.'
  }

  /** `os.path.splitext(p)` (POSIX): splits off the text from the last '.' of the last path
      component, unless that component consists of dots up to that '.' (so ".bashrc" and
      "..jpg" have no extension). */
  function SplitExt(p: string): (parts: (string, string))
    ensures parts.0 + parts.1 == p
    ensures parts.1 == [] || (parts.1[0] == '.' && '/' !in parts.1 && '.' !in parts.1[1..])
  {
    var sep := RFind(p, '/');
    var dot := RFind(p, '.');
    if dot > sep && HasNonDotBetween(p, sep, dot) then
      assert p[..dot] + p[dot..] == p;
      assert forall k | 0 <= k < |p[dot..]| :: p[dot..][k] == p[dot + k];
      (p[..dot], p[dot..])
    else
      (p, "")
  }

  /** The extension is non-empty exactly when the last component has a '.' after some other
      character; it then starts at the last '.', by the shape `SplitExt` ensures. */
  lemma SplitExtExtension(p: string)
    ensures SplitExt(p).1 != [] <==>
      exists k, l | RFind(p, '/') < k < l < |p| :: p[k] != '.' && p[l] == '.'
  {
    var sep := RFind(p, '/');
    var dot := RFind(p, '.');
    if dot > sep && HasNonDotBetween(p, sep, dot) {
      var k :| sep < k < dot && p[k] != '.';
      assert p[dot] == '.';
    } else {
      forall k, l | sep < k < l < |p| && p[l] == '.' ensures p[k] == '.' {
        assert l <= dot;
        assert !HasNonDotBetween(p, sep, dot);
      }
    }
  }

  /** A file name made of a stem that is not all dots and the extension `ext` (a '.'
      followed by characters other than '.' and '/') splits into exactly that stem and
      extension. */
  lemma SplitExtOfName(stem: string, ext: string)
    requires '/' !in stem
    requires exists k | 0 <= k < |stem| :: stem[k] != '.'
    requires |ext| >= 1 && ext[0] == '.' && '/' !in ext && '.' !in ext[1..]
    ensures SplitExt(stem + ext) == (stem, ext)
  {
    var p := stem + ext;
    forall k | 0 <= k < |stem| ensures p[k] == stem[k] { }
    forall k | |stem| < k < |p| ensures p[k] != '.' && p[k] != '/' {
      assert p[k] == ext[1..][k - |stem| - 1];
    }
    assert RFind(p, '/') == -1 by {
      forall k | 0 <= k < |p| ensures p[k] != '/' {
        if k < |stem| { assert p[k] == stem[k]; } else { assert p[k] == ext[k - |stem|]; }
      }
    }
    assert p[|stem|] == '.';
    assert RFind(p, '.') == |stem|;
    var k :| 0 <= k < |stem| && stem[k] != '.';
    assert p[k] != '.';
    assert HasNonDotBetween(p, -1, |stem|);
    assert p[..|stem|] == stem;
    assert p[|stem|..] == ext;
  }

  // ---------------------------------------------------------------- pathlib

  /** The root pathlib keeps in front of the parts: none, "/", or exactly "//"
      (three or more leading slashes collapse to one). */
  function RootOf(p: string): (root: string)
    ensures IsRoot(root)
  {
    if |p| == 0 || p[0] != '/' then ""
    else if |p| >= 2 && p[1] == '/' && !(|p| >= 3 && p[2] == '/') then "//"
    else "/"
  }

  /** The roots pathlib distinguishes: none, "/" and "//". */
  predicate IsRoot(root: string) {
    root == "" || root == "/" || root == "//"
  }

  /** A path component as pathlib keeps it: empty components and "." are dropped. */
  predicate IsPart(part: string) {
    part != [] && part != "." && '/' !in part
  }

  /** The components pathlib parses out of `p`: the pieces between slashes, without the
      empty ones and without ".". */
  function Parts(p: string): (parts: seq<string>)
    ensures forall k | 0 <= k < |parts| :: IsPart(parts[k])
    decreases |p|
  {
    var i := RFind(p, '/');
    var last := p[i + 1..];
    var before := if i < 0 then [] else Parts(p[..i]);
    if last == [] || last == "." then before else before + [last]
  }

  /** `"/".join(parts)`. */
  function JoinSlash(parts: seq<string>): string
    decreases |parts|
  {
    if parts == [] then ""
    else if |parts| == 1 then parts[0]
    else JoinSlash(parts[..|parts| - 1]) + "/" + parts[|parts| - 1]
  }

  /** pathlib's `PurePath.suffix` of a final component: from its last '.', provided that
      '.' is neither the first nor the last character. */
  function Suffix(name: string): (ext: string)
    ensures |ext| <= |name| && ext == name[|name| - |ext|..]
  {
    var i := RFind(name, '.');
    if 0 < i < |name| - 1 then name[i..] else ""
  }

  /** A suffix `with_suffix` accepts and that `Suffix` can give back: a '.', then at least
      one character, none of them '.' or '/'. */
  predicate IsExtension(ext: string) {
    |ext| >= 2 && ext[0] == '.' && '/' !in ext && '.' !in ext[1..]
  }

  /** `str(Path(p).with_suffix(ext))`: the final component loses its old suffix and gains
      `ext`; None where pathlib raises ValueError because the path has an empty name. */
  function WithSuffix(p: string, ext: string): Option<string> {
    var parts := Parts(p);
    if parts == [] then None
    else Some(Rebuild(RootOf(p), parts[..|parts| - 1], parts[|parts| - 1], ext))
  }

  /** A final component with its suffix replaced by `ext`: its stem, then `ext`. */
  function Renamed(name: string, ext: string): string {
    name[..|name| - |Suffix(name)|] + ext
  }

  /** The path `root` + `front` components + the final component `name` with its suffix
      replaced by `ext`. */
  function Rebuild(root: string, front: seq<string>, name: string, ext: string): string {
    root + JoinSlash(front + [Renamed(name, ext)])
  }

  lemma {:induction false} JoinSlashAppend(parts: seq<string>, name: string)
    ensures JoinSlash(parts + [name]) == (if parts == [] then "" else JoinSlash(parts) + "/") + name
  {
    var all := parts + [name];
    if parts != [] {
      assert all[..|all| - 1] == parts;
    }
  }

  /** The suffix of a final component is neither empty nor all of it, so the stem is not empty. */
  lemma StemNotEmpty(name: string)
    requires name != []
    ensures |Suffix(name)| < |name|
  {
  }

  /** A non-empty stem followed by an extension has that extension as its suffix. */
  lemma SuffixOfStemAndExtension(stem: string, ext: string)
    requires stem != [] && '/' !in stem
    requires IsExtension(ext)
    ensures '/' !in stem + ext
    ensures Suffix(stem + ext) == ext
  {
    var name := stem + ext;
    forall k | 0 <= k < |name| ensures name[k] != '/' {
      if k < |stem| { assert name[k] == stem[k]; } else { assert name[k] == ext[k - |stem|]; }
    }
    forall k | |stem| < k < |name| ensures name[k] != '.' {
      assert name[k] == ext[1..][k - |stem| - 1];
    }
    assert name[|stem|] == '.';
    assert RFind(name, '.') == |stem|;
    assert name[|stem|..] == ext;
  }

  /** Whatever precedes the final component, the basename of a rebuilt path is that component. */
  lemma BasenameOfRebuilt(root: string, front: seq<string>, name: string)
    requires IsRoot(root)
    requires '/' !in name
    ensures Basename(root + JoinSlash(front + [name])) == name
  {
    JoinSlashAppend(front, name);
    var prefix := root + (if front == [] then "" else JoinSlash(front) + "/");
    assert root + JoinSlash(front + [name]) == prefix + name;
    BasenameOfAppend(prefix, name);
  }

  lemma PrefixKeepsNoSlash(name: string, n: nat)
    requires '/' !in name && n <= |name|
    ensures '/' !in name[..n]
  {
    forall k | 0 <= k < n ensures name[..n][k] != '/' { assert name[..n][k] == name[k]; }
  }

  /** A path component with its suffix replaced by `ext` is still a single component, and its
      suffix is `ext`. */
  lemma RenamedComponent(name: string, ext: string)
    requires IsPart(name) && IsExtension(ext)
    ensures '/' !in Renamed(name, ext)
    ensures Suffix(Renamed(name, ext)) == ext
  {
    StemNotEmpty(name);
    PrefixKeepsNoSlash(name, |name| - |Suffix(name)|);
    SuffixOfStemAndExtension(name[..|name| - |Suffix(name)|], ext);
  }

  /** A run of slashes has no components. */
  lemma {:induction false} PartsOfSlashes(s: string)
    requires forall k | 0 <= k < |s| :: s[k] == '/'
    ensures Parts(s) == []
    decreases |s|
  {
    if s != [] {
      assert RFind(s, '/') == |s| - 1;
      PartsOfSlashes(s[..|s| - 1]);
    }
  }

  /** A non-empty join starts with the first component's first character. */
  lemma {:induction false} JoinSlashStart(parts: seq<string>)
    requires parts != [] && parts[0] != []
    ensures JoinSlash(parts) != [] && JoinSlash(parts)[0] == parts[0][0]
    decreases |parts|
  {
    if |parts| > 1 {
      var front := parts[..|parts| - 1];
      assert front[0] == parts[0];
      JoinSlashStart(front);
    }
  }

  /** A component after a '/' (or alone) is parsed as the last component, behind the
      components of what precedes that '/'. */
  lemma PartsOfAppend(prefix: string, name: string)
    requires prefix == [] || prefix[|prefix| - 1] == '/'
    requires IsPart(name)
    ensures Parts(prefix + name) == (if prefix == [] then [] else Parts(prefix[..|prefix| - 1])) + [name]
  {
    var p := prefix + name;
    forall k | |prefix| <= k < |p| ensures p[k] != '/' {
      assert p[k] == name[k - |prefix|];
    }
    if prefix != [] {
      assert p[|prefix| - 1] == '/';
      assert p[..|prefix| - 1] == prefix[..|prefix| - 1];
    }
    assert RFind(p, '/') == |prefix| - 1;
    assert p[|prefix|..] == name;
  }

  /** A single component behind a root is parsed as itself. */
  lemma PartsOfRootedName(root: string, name: string)
    requires IsRoot(root) && IsPart(name)
    ensures Parts(root + name) == [name]
  {
    if root == "" {
      assert root + name == name;
      PartsOfAppend("", name);
    } else if root == "/" {
      PartsOfAppend(root, name);
      assert root[..0] == "";
    } else {
      PartsOfAppend(root, name);
      assert root[..1] == "/";
      PartsOfSlashes("/");
    }
  }

  /** One more component behind components that parse back parses back too. */
  lemma PartsOfJoinedStep(root: string, front: seq<string>, name: string)
    requires front != [] && IsPart(name)
    requires Parts(root + JoinSlash(front)) == front
    ensures Parts(root + JoinSlash(front + [name])) == front + [name]
  {
    JoinSlashAppend(front, name);
    var prefix := root + JoinSlash(front) + "/";
    assert root + JoinSlash(front + [name]) == prefix + name;
    PartsOfAppend(prefix, name);
    assert prefix[..|prefix| - 1] == root + JoinSlash(front);
  }

  /** pathlib parses components joined by '/' behind a root back into exactly those
      components. */
  lemma {:induction false} PartsOfJoined(root: string, parts: seq<string>)
    requires IsRoot(root)
    requires forall k | 0 <= k < |parts| :: IsPart(parts[k])
    ensures Parts(root + JoinSlash(parts)) == parts
    decreases |parts|
  {
    if parts == [] {
      assert root + JoinSlash(parts) == root;
      PartsOfSlashes(root);
    } else {
      var front := parts[..|parts| - 1];
      var name := parts[|parts| - 1];
      assert front + [name] == parts;
      if front == [] {
        assert JoinSlash(parts) == name;
        PartsOfRootedName(root, name);
      } else {
        PartsOfJoined(root, front);
        PartsOfJoinedStep(root, front, name);
      }
    }
  }

  /** A root followed by text that does not start with '/' is parsed back as that root. */
  lemma RootOfRooted(root: string, s: string)
    requires IsRoot(root)
    requires s != [] && s[0] != '/'
    ensures RootOf(root + s) == root
  {
    var p := root + s;
    assert p[|root|] == s[0];
    if root != "" {
      assert p[0] == '/';
    }
    if root == "//" {
      assert p[1] == '/';
    }
  }

  /** Behind a root, a join of components keeps that root. */
  lemma RootOfJoined(root: string, parts: seq<string>)
    requires IsRoot(root)
    requires parts != [] && forall k | 0 <= k < |parts| :: IsPart(parts[k])
    ensures RootOf(root + JoinSlash(parts)) == root
  {
    JoinSlashStart(parts);
    assert IsPart(parts[0]);
    RootOfRooted(root, JoinSlash(parts));
  }

  /** A rebuilt path keeps its root and front components, and its final component is the old
      one's stem followed by `ext`, which is then its suffix. */
  lemma RebuiltPath(root: string, front: seq<string>, name: string, ext: string)
    requires IsRoot(root)
    requires forall k | 0 <= k < |front| :: IsPart(front[k])
    requires IsPart(name) && IsExtension(ext)
    ensures var renamed := Renamed(name, ext);
      && RootOf(Rebuild(root, front, name, ext)) == root
      && Parts(Rebuild(root, front, name, ext)) == front + [renamed]
      && Basename(Rebuild(root, front, name, ext)) == renamed
      && Suffix(renamed) == ext
  {
    var renamed := Renamed(name, ext);
    RenamedComponent(name, ext);
    assert IsPart(renamed);
    var all := front + [renamed];
    assert forall k | 0 <= k < |all| :: IsPart(all[k]);
    assert Rebuild(root, front, name, ext) == root + JoinSlash(all);
    PartsOfJoined(root, all);
    RootOfJoined(root, all);
    BasenameOfRebuilt(root, front, renamed);
  }

  /** `with_suffix` fails exactly when the path has no final component. */
  lemma WithSuffixFails(p: string, ext: string)
    ensures WithSuffix(p, ext).None? <==> Parts(p) == []
  {
  }

  /** With a final component, `with_suffix` keeps the root and every component but the last,
      and `str()` of the result is its normal form: the root, then the components joined by '/'. */
  lemma WithSuffixKeepsPath(p: string, ext: string)
    requires IsExtension(ext)
    ensures WithSuffix(p, ext).Some? ==>
      var parts := Parts(p);
      var last := parts[|parts| - 1];
      && RootOf(WithSuffix(p, ext).value) == RootOf(p)
      && Parts(WithSuffix(p, ext).value) == parts[..|parts| - 1] + [Renamed(last, ext)]
      && WithSuffix(p, ext).value == RootOf(p) + JoinSlash(Parts(WithSuffix(p, ext).value))
  {
    var parts := Parts(p);
    if parts != [] {
      var front := parts[..|parts| - 1];
      var last := parts[|parts| - 1];
      var r := Rebuild(RootOf(p), front, last, ext);
      assert WithSuffix(p, ext) == Some(r);
      RebuiltPath(RootOf(p), front, last, ext);
    }
  }

  /** With a final component, the basename `with_suffix` gives is the old stem followed by
      `ext`. */
  lemma WithSuffixRenames(p: string, ext: string)
    requires IsExtension(ext)
    ensures WithSuffix(p, ext).Some? ==>
      var parts := Parts(p);
      Basename(WithSuffix(p, ext).value) == Renamed(parts[|parts| - 1], ext)
  {
    var parts := Parts(p);
    if parts != [] {
      var front := parts[..|parts| - 1];
      var last := parts[|parts| - 1];
      assert WithSuffix(p, ext) == Some(RootOf(p) + JoinSlash(front + [Renamed(last, ext)]));
      RenamedComponent(last, ext);
      BasenameOfRebuilt(RootOf(p), front, Renamed(last, ext));
    }
  }

  /** The codec fallback's promise about paths: `with_suffix` fails exactly when the path has
      no final component. Otherwise the result, in normal form, keeps the root and every
      component but the last, and the last component keeps its stem and gets `ext` as its
      suffix. */
  lemma WithSuffixSetsSuffix(p: string, ext: string)
    requires IsExtension(ext)
    ensures WithSuffix(p, ext).None? <==> Parts(p) == []
    ensures WithSuffix(p, ext).Some? ==>
      var parts := Parts(p);
      var last := parts[|parts| - 1];
      var renamed := Renamed(last, ext);
      && RootOf(WithSuffix(p, ext).value) == RootOf(p)
      && Parts(WithSuffix(p, ext).value) == parts[..|parts| - 1] + [renamed]
      && WithSuffix(p, ext).value == RootOf(p) + JoinSlash(Parts(WithSuffix(p, ext).value))
      && Basename(WithSuffix(p, ext).value) == renamed
      && Suffix(renamed) == ext
  {
    WithSuffixFails(p, ext);
    WithSuffixKeepsPath(p, ext);
    WithSuffixRenames(p, ext);
    var parts := Parts(p);
    if parts != [] {
      RenamedComponent(parts[|parts| - 1], ext);
    }
  }

}
