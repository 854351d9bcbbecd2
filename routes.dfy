/** The file-system routing convention of the build plugin: a page file under
    the pages directory becomes a route whose path is the file's path without
    its extension, without a trailing `index`, and with every `[name]` written
    `:name`; folders become nested route groups, a folder named `(name)` being
    an invisible group that adds no path segment. */
module ConventionRoutes {
  import opened Options
  import Text
  import Seqs

  // ---------------------------------------------------------------------------
  // Path text

  /** `normalizePath`: every backslash becomes a forward slash. */
  function NormalizePath(p: string): string
    decreases |p|
  {
    if p == [] then []
    else [if p[0] == '\\' then '/' else p[0]] + NormalizePath(p[1..])
  }

  /** Normalising keeps the length, turns each backslash into a slash and keeps
      every other character in place; the result has no backslash. */
  lemma {:induction false} NormalizePathShape(p: string)
    ensures |NormalizePath(p)| == |p|
    ensures forall k :: 0 <= k < |p| && p[k] == '\\' ==> NormalizePath(p)[k] == '/'
    ensures forall k :: 0 <= k < |p| && p[k] != '\\' ==> NormalizePath(p)[k] == p[k]
    ensures '\\' !in NormalizePath(p)
    decreases |p|
  {
    if p != [] {
      NormalizePathShape(p[1..]);
      var r := NormalizePath(p);
      assert r == [r[0]] + NormalizePath(p[1..]);
      forall k | 1 <= k < |p| ensures r[k] == NormalizePath(p[1..])[k - 1] && p[k] == p[1..][k - 1] { }
    }
  }

  /** Normalising a normalised path changes nothing. */
  lemma {:induction false} NormalizePathIdempotent(p: string)
    ensures NormalizePath(NormalizePath(p)) == NormalizePath(p)
    decreases |p|
  {
    if p != [] {
      NormalizePathIdempotent(p[1..]);
      var r := NormalizePath(p);
      assert r[1..] == NormalizePath(p[1..]);
    }
  }

  /** `/\.(jsx|tsx)$/` replaced by nothing: the page extension is dropped. */
  function StripExtension(s: string): string {
    if Text.EndsWith(s, ".jsx") || Text.EndsWith(s, ".tsx") then s[..|s| - 4] else s
  }

  /** `/[/\\]index$/` replaced by nothing: a trailing `/index` or `\index` is dropped. */
  function StripIndex(s: string): string {
    if |s| >= 6 && (s[|s| - 6] == '/' || s[|s| - 6] == '\\') && s[|s| - 5..] == "index"
    then s[..|s| - 6] else s
  }

  /** The characters of the regular-expression class `\w`. */
  predicate IsWordChar(c: char) {
    'a' <= c <= 'z' || 'A' <= c <= 'Z' || '0' <= c <= '9' || c == '_'
  }

  /** The length of the longest prefix of `s` made of word characters. */
  function WordRun(s: string): (n: nat)
    ensures n <= |s|
    ensures forall k :: 0 <= k < n ==> IsWordChar(s[k])
    ensures n < |s| ==> !IsWordChar(s[n])
    decreases |s|
  {
    if s != [] && IsWordChar(s[0]) then 1 + WordRun(s[1..]) else 0
  }

  /** Whether a bracketed parameter, `[`, one or more word characters and `]`,
      starts `s`. */
  predicate ParamAhead(s: string) {
    |s| >= 1 && s[0] == '[' && 0 < WordRun(s[1..]) < |s| - 1 && s[WordRun(s[1..]) + 1] == ']'
  }

  /** How much of `s` one step of the scan consumes: a whole parameter, or one
      character. */
  function HeadLength(s: string): (n: nat)
    requires s != []
    ensures 1 <= n <= |s|
  {
    if ParamAhead(s) then WordRun(s[1..]) + 2 else 1
  }

  /** What one step of the scan writes: a colon and the parameter's name, or the
      character itself. */
  function HeadText(s: string): string
    requires s != []
  {
    if ParamAhead(s) then ":" + s[1..WordRun(s[1..]) + 1] else [s[0]]
  }

  /** `/\[(\w+)\]/g` replaced by `:$1`: scanning left to right, each `[`, one or
      more word characters and `]` become `:` and those characters, and the scan
      resumes after the `]`. */
  function RewriteParams(s: string): string
    decreases |s|
  {
    if s == [] then [] else HeadText(s) + RewriteParams(s[HeadLength(s)..])
  }

  /** `fileToRoutePath`: extension, then trailing index, then parameters. */
  function FileToRoutePath(file: string): string {
    RewriteParams(StripIndex(StripExtension(file)))
  }

  /** A text with no `[` has no parameter to rewrite. */
  lemma {:induction false} RewriteParamsPlain(s: string)
    requires '[' !in s
    ensures RewriteParams(s) == s
    decreases |s|
  {
    if s != [] {
      assert '[' !in s[1..];
      RewriteParamsPlain(s[1..]);
    }
  }

  /** The word run of a concatenation stops inside the first part when it can,
      and otherwise continues into the second. */
  lemma {:induction false} WordRunAppend(x: string, y: string)
    ensures WordRun(x) < |x| ==> WordRun(x + y) == WordRun(x)
    ensures WordRun(x) == |x| ==> WordRun(x + y) == |x| + WordRun(y)
    decreases |x|
  {
    if x != [] {
      assert (x + y)[0] == x[0] && (x + y)[1..] == x[1..] + y;
      if IsWordChar(x[0]) {
        WordRunAppend(x[1..], y);
      }
    } else {
      assert x + y == y;
    }
  }

  /** A bracketed word becomes a colon and the word, and the scan goes on with
      the rest. */
  lemma RewriteParamsParam(name: string, rest: string)
    requires |name| >= 1
    requires forall k :: 0 <= k < |name| ==> IsWordChar(name[k])
    ensures RewriteParams("[" + name + "]" + rest) == ":" + name + RewriteParams(rest)
  {
    var s := "[" + name + "]" + rest;
    var closing := "]" + rest;
    assert WordRun(name) == |name|;
    assert WordRun(closing) == 0;
    WordRunAppend(name, closing);
    assert s[1..] == name + closing;
    assert s[|name| + 1] == ']';
    assert ParamAhead(s);
    assert s[1..|name| + 1] == name;
    assert HeadText(s) == ":" + name && HeadLength(s) == |name| + 2;
    assert s[|name| + 2..] == rest;
  }

  /** Before a character that neither continues a word nor closes a bracket,
      the first step of the scan is the same as on the first piece alone. */
  lemma HeadAppend(a: string, b: string)
    requires a != []
    requires b == [] || (!IsWordChar(b[0]) && b[0] != ']')
    ensures HeadLength(a + b) == HeadLength(a) && HeadText(a + b) == HeadText(a)
  {
    var s := a + b;
    assert s[0] == a[0] && s[1..] == a[1..] + b;
    var n := WordRun(a[1..]);
    WordRunAppend(a[1..], b);
    if n < |a| - 1 {
      assert s[n + 1] == a[n + 1];
      assert s[1..n + 1] == a[1..n + 1];
    } else if b != [] {
      assert WordRun(b) == 0;
    }
  }

  /** A text can be rewritten piece by piece at any point where the second piece
      starts with a character that neither continues a word nor closes a
      bracket, such as a path separator. */
  lemma {:induction false} RewriteParamsAppend(a: string, b: string)
    requires b == [] || (!IsWordChar(b[0]) && b[0] != ']')
    ensures RewriteParams(a + b) == RewriteParams(a) + RewriteParams(b)
    decreases |a|
  {
    if a == [] {
      assert a + b == b;
    } else {
      HeadAppend(a, b);
      var h := HeadLength(a);
      assert (a + b)[h..] == a[h..] + b;
      RewriteParamsAppend(a[h..], b);
    }
  }

  /** A page extension is dropped from the end of a name. */
  lemma StripExtensionAppend(stem: string, ext: string)
    requires ext == ".jsx" || ext == ".tsx"
    ensures StripExtension(stem + ext) == stem
  {
    var f := stem + ext;
    assert f[|f| - 4..] == ext;
    assert f[..|f| - 4] == stem;
  }

  /** A page named `index` in a folder is served at the folder's own path. */
  lemma IndexPageRoute(dir: string, sep: char, ext: string)
    requires sep == '/' || sep == '\\'
    requires ext == ".jsx" || ext == ".tsx"
    ensures FileToRoutePath(dir + [sep] + "index" + ext) == RewriteParams(dir)
  {
    var g := dir + [sep] + "index";
    StripExtensionAppend(g, ext);
    assert g[|g| - 6] == sep && g[|g| - 5..] == "index";
    assert g[..|g| - 6] == dir;
  }

  /** A top-level `index` page has no separator in front of it, so its route
      path keeps the word `index`. */
  lemma TopIndexPageRoute()
    ensures FileToRoutePath("index.tsx") == "index"
    ensures FileToRoutePath("index.jsx") == "index"
  {
    assert "index.tsx" == "index" + ".tsx" && "index.jsx" == "index" + ".jsx";
    StripExtensionAppend("index", ".tsx");
    StripExtensionAppend("index", ".jsx");
    assert StripIndex("index") == "index";
    RewriteParamsPlain("index");
  }

  /** Only a trailing `/index` or `\index` is dropped. */
  lemma StripIndexKeeps(stem: string)
    requires !Text.EndsWith(stem, "/index") && !Text.EndsWith(stem, "\\index")
    ensures StripIndex(stem) == stem
  {
    if |stem| >= 6 && stem[|stem| - 5..] == "index" {
      assert stem[|stem| - 6..] == [stem[|stem| - 6]] + "index";
    }
  }

  /** Any other page is served at its path without the extension. */
  lemma PageRoute(stem: string, ext: string)
    requires ext == ".jsx" || ext == ".tsx"
    requires !Text.EndsWith(stem, "/index") && !Text.EndsWith(stem, "\\index")
    ensures FileToRoutePath(stem + ext) == RewriteParams(stem)
  {
    StripExtensionAppend(stem, ext);
    StripIndexKeeps(stem);
  }

  /** `isInvisibleFolder`: a folder name wrapped in parentheses. */
  predicate IsInvisibleFolder(name: string) {
    Text.StartsWith(name, "(") && Text.EndsWith(name, ")")
  }

  /** An invisible folder name has at least the two parentheses: `(` alone is
      an ordinary folder. */
  lemma InvisibleFolderShape(name: string)
    ensures IsInvisibleFolder(name) <==> |name| >= 2 && name[0] == '(' && name[|name| - 1] == ')'
  {
    if IsInvisibleFolder(name) {
      assert name[..1] == "(" && name[|name| - 1..] == ")";
    }
    if |name| >= 2 && name[0] == '(' && name[|name| - 1] == ')' {
      assert name[..1] == "(" && name[|name| - 1..] == ")";
    }
  }

  /** `path.sep` splitting: the pieces of `s` between occurrences of `sep`; an
      empty text is one empty piece. */
  function Split(s: string, sep: char): (r: seq<string>)
    ensures |r| >= 1
    decreases |s|
  {
    if s == [] then [""]
    else
      var rest := Split(s[1..], sep);
      if s[0] == sep then [""] + rest else [[s[0]] + rest[0]] + rest[1..]
  }

  /** Splitting loses nothing: joining the pieces with the separator gives the
      text back, and no piece holds the separator. */
  lemma {:induction false} SplitJoin(s: string, sep: char)
    ensures Text.Join(Split(s, sep), [sep]) == s
    ensures forall k :: 0 <= k < |Split(s, sep)| ==> sep !in Split(s, sep)[k]
    decreases |s|
  {
    if s != [] {
      var rest := Split(s[1..], sep);
      SplitJoin(s[1..], sep);
      if s[0] == sep {
        assert Split(s, sep)[1..] == rest;
      } else {
        var r := Split(s, sep);
        assert r[1..] == rest[1..];
        if |rest| > 1 {
          assert Text.Join(rest, [sep]) == rest[0] + [sep] + Text.Join(rest[1..], [sep]);
        }
        assert s == [s[0]] + s[1..];
        forall k | 1 <= k < |r| ensures sep !in r[k] {
          assert r[k] == rest[k];
        }
      }
    }
  }

  /** Splitting is one-to-one: different files have different segment lists. */
  lemma SplitInjective(a: string, b: string, sep: char)
    requires Split(a, sep) == Split(b, sep)
    ensures a == b
  {
    SplitJoin(a, sep);
    SplitJoin(b, sep);
  }

  /** Each piece with its parameters rewritten. */
  function RewriteEach(parts: seq<string>): (r: seq<string>)
    ensures |r| == |parts|
    decreases |parts|
  {
    if parts == [] then [] else [RewriteParams(parts[0])] + RewriteEach(parts[1..])
  }

  /** Parameter rewriting never reaches across a `/`: rewriting a path is
      rewriting each of its segments, which is how folders and leaves of the
      route tree are rewritten one segment at a time. */
  lemma {:induction false} RewriteJoin(parts: seq<string>)
    ensures RewriteParams(Text.Join(parts, "/")) == Text.Join(RewriteEach(parts), "/")
    decreases |parts|
  {
    if |parts| > 1 {
      RewriteJoin(parts[1..]);
      var tail := Text.Join(parts[1..], "/");
      RewriteParamsAppend(parts[0], "/" + tail);
      var t := "/" + tail;
      assert !ParamAhead(t) && t[1..] == tail;
      assert RewriteParams(t) == "/" + RewriteParams(tail);
      assert Text.Join(parts, "/") == parts[0] + t;
      assert RewriteEach(parts)[1..] == RewriteEach(parts[1..]);
    }
  }

  /** Rewriting a path segment by segment. */
  lemma RewritePath(s: string)
    ensures RewriteParams(s) == Text.Join(RewriteEach(Split(s, '/')), "/")
  {
    SplitJoin(s, '/');
    RewriteJoin(Split(s, '/'));
  }

  // ---------------------------------------------------------------------------
  // Ignore list

  /** The glob patterns always excluded: `_`-prefixed pages, layout and loading
      files, and everything below a folder whose name starts with two
      underscores. */
  const DefaultIgnore: seq<string> :=
    ["**/_*.jsx", "**/_*.tsx", "**/layout.*", "**/loading.*", "**/__*/**"]

  /** The `excludePatterns` option: absent, a lone pattern or a list. */
  datatype ExcludePatterns = NoPatterns | OnePattern(pattern: string) | Patterns(patterns: seq<string>)

  /** The user's patterns as a list: an absent option is the empty list and a
      lone pattern is wrapped. */
  function UserPatterns(e: ExcludePatterns): seq<string> {
    match e
    case NoPatterns => []
    case OnePattern(p) => [p]
    case Patterns(ps) => ps
  }

  /** JavaScript truthiness of a pattern. */
  predicate NonEmpty(p: string) {
    p != ""
  }

  /** The defaults followed by the user's patterns, without the empty ones. */
  function IgnoreList(e: ExcludePatterns): seq<string> {
    Seqs.Filter(DefaultIgnore + UserPatterns(e), NonEmpty)
  }

  /** No default pattern is empty, so filtering keeps all five. */
  lemma DefaultsKept()
    ensures Seqs.Filter(DefaultIgnore, NonEmpty) == DefaultIgnore
  {
    assert forall k :: 0 <= k < |DefaultIgnore| ==> |DefaultIgnore[k]| >= 8;
    Seqs.FilterAll(DefaultIgnore, NonEmpty);
  }

  /** The ignore list starts with the five defaults, then holds the non-empty
      user patterns in their order, and holds no empty pattern. */
  lemma IgnoreListShape(e: ExcludePatterns)
    ensures IgnoreList(e) == DefaultIgnore + Seqs.Filter(UserPatterns(e), NonEmpty)
    ensures forall k :: 0 <= k < |IgnoreList(e)| ==> IgnoreList(e)[k] != ""
  {
    Seqs.FilterAppend(DefaultIgnore, UserPatterns(e), NonEmpty);
    DefaultsKept();
  }

  /** A lone pattern is added after the defaults unless it is empty; an absent
      option adds nothing. */
  lemma IgnoreListLone(p: string)
    ensures IgnoreList(OnePattern(p)) == DefaultIgnore + (if p == "" then [] else [p])
    ensures IgnoreList(NoPatterns) == DefaultIgnore
  {
    IgnoreListShape(OnePattern(p));
    IgnoreListShape(NoPatterns);
    assert Seqs.Filter([p], NonEmpty) == Seqs.Filter([], NonEmpty) + (if p != "" then [p] else []);
  }

  // ---------------------------------------------------------------------------
  // The route tree

  /** A tree node: a page, or a folder with its children. */
  datatype Node =
    | Route(path: string, element: string, isIndex: bool, filePath: string)
    | Group(physicalName: string, routeSegment: string, children: seq<Entry>, isInvisible: bool)

  /** One entry of a tree level. A level is a JavaScript `Map` from file or
      folder names to nodes, kept as its entries in insertion order. */
  datatype Entry = Entry(key: string, node: Node)

  /** `map.get(key)`. */
  function Find(level: seq<Entry>, key: string): Option<Node>
    decreases |level|
  {
    if level == [] then None
    else if level[0].key == key then Some(level[0].node)
    else Find(level[1..], key)
  }

  /** The keys of a level, in iteration order. */
  function Keys(level: seq<Entry>): (r: seq<string>)
    ensures |r| == |level|
    decreases |level|
  {
    if level == [] then [] else [level[0].key] + Keys(level[1..])
  }

  /** `map.set(key, node)`: an existing key keeps its place and takes the new
      node, a new key is appended. */
  function Set(level: seq<Entry>, key: string, node: Node): seq<Entry>
    decreases |level|
  {
    if level == [] then [Entry(key, node)]
    else if level[0].key == key then [Entry(key, node)] + level[1..]
    else [level[0]] + Set(level[1..], key, node)
  }

  /** A key is found exactly when it is one of the level's keys. */
  lemma {:induction false} FindKeys(level: seq<Entry>, key: string)
    ensures Find(level, key).Some? <==> key in Keys(level)
    decreases |level|
  {
    if level != [] {
      FindKeys(level[1..], key);
    }
  }

  /** The map laws: after setting a key it maps to the new node, and every other
      key maps to what it mapped to before. */
  lemma {:induction false} FindSet(level: seq<Entry>, key: string, node: Node, other: string)
    ensures Find(Set(level, key, node), key) == Some(node)
    ensures other != key ==> Find(Set(level, key, node), other) == Find(level, other)
    decreases |level|
  {
    if level != [] && level[0].key != key {
      FindSet(level[1..], key, node, other);
    }
  }

  /** Setting keeps the iteration order: the keys stay as they were when the
      key was present, and the key comes last when it was new. */
  lemma {:induction false} SetKeys(level: seq<Entry>, key: string, node: Node)
    ensures Keys(Set(level, key, node)) ==
              if key in Keys(level) then Keys(level) else Keys(level) + [key]
    decreases |level|
  {
    if level != [] {
      if level[0].key != key {
        SetKeys(level[1..], key, node);
      }
    }
  }

  /** Setting keeps the keys of a level pairwise distinct. */
  lemma SetDistinct(level: seq<Entry>, key: string, node: Node)
    requires Seqs.Distinct(Keys(level))
    ensures Seqs.Distinct(Keys(Set(level, key, node)))
  {
    SetKeys(level, key, node);
  }

  /** The group created for a folder met for the first time: an invisible folder
      adds no path segment, any other adds its name with parameters rewritten. */
  function NewGroup(folder: string): (g: Node)
    ensures g.Group? && g.physicalName == folder && g.children == []
    ensures g.isInvisible <==> IsInvisibleFolder(folder)
    ensures g.isInvisible ==> g.routeSegment == ""
    ensures !g.isInvisible ==> g.routeSegment == RewriteParams(folder)
  {
    var invisible := IsInvisibleFolder(folder);
    Group(folder, if invisible then "" else RewriteParams(folder), [], invisible)
  }

  /** The page leaf for the file `file`, whose last segment is `name` and whose
      lazily loaded component is called `element`: an index page when the name
      without its extension is `index`. */
  function Leaf(file: string, name: string, element: string): Node {
    var stem := StripExtension(name);
    var isIndex := stem == "index";
    Route(if isIndex then "" else RewriteParams(stem), element, isIndex, file)
  }

  /** A leaf is routed the way the whole file is: an index leaf has the empty
      path, any other leaf the route path of its own name. */
  lemma LeafRoutePath(file: string, name: string, element: string)
    requires '/' !in name && '\\' !in name
    ensures Leaf(file, name, element).isIndex ==> Leaf(file, name, element).path == ""
    ensures !Leaf(file, name, element).isIndex ==> Leaf(file, name, element).path == FileToRoutePath(name)
    ensures Leaf(file, name, element).filePath == file && Leaf(file, name, element).element == element
  {
    var stem := StripExtension(name);
    assert stem == name[..|stem|];
    assert StripIndex(stem) == stem by {
      if |stem| >= 6 {
        assert stem[|stem| - 6] == name[|stem| - 6];
      }
    }
    assert FileToRoutePath(name) == RewriteParams(stem);
  }

  /** The inner loop of the file loop: walking the segments from the top level,
      each folder's group is reused when the level has one and created
      otherwise, and the leaf is set in the last level. `None` is the walk
      failing: a folder segment that names a page leaf has no children, and
      the source's next `has` or `set` on them throws. */
  function Insert(level: seq<Entry>, segs: seq<string>, leaf: Node): Option<seq<Entry>>
    requires |segs| >= 1
    decreases |segs|
  {
    if |segs| == 1 then Some(Set(level, segs[0], leaf))
    else
      var node := match Find(level, segs[0]) case Some(n) => n case None => NewGroup(segs[0]);
      if node.Route? then None
      else
        match Insert(node.children, segs[1..], leaf)
        case None => None
        case Some(children) => Some(Set(level, segs[0], node.(children := children)))
  }

  /** The node reached by following `path` from a level. */
  function Lookup(level: seq<Entry>, path: seq<string>): Option<Node>
    requires |path| >= 1
    decreases |path|
  {
    match Find(level, path[0])
    case None => None
    case Some(n) =>
      if |path| == 1 then Some(n)
      else if n.Route? then None
      else Lookup(n.children, path[1..])
  }

  /** A node without its children: what a group is apart from its contents. */
  function Header(n: Node): Node {
    if n.Group? then n.(children := []) else n
  }

  predicate IsProperPrefix(p: seq<string>, q: seq<string>) {
    |p| < |q| && q[..|p|] == p
  }

  /** After inserting, the leaf is found at the end of its segments. */
  lemma {:induction false} InsertFinds(level: seq<Entry>, segs: seq<string>, leaf: Node)
    requires |segs| >= 1 && Insert(level, segs, leaf).Some?
    ensures Lookup(Insert(level, segs, leaf).value, segs) == Some(leaf)
    decreases |segs|
  {
    FindSet(level, segs[0], leaf, segs[0]);
    if |segs| > 1 {
      var node := match Find(level, segs[0]) case Some(n) => n case None => NewGroup(segs[0]);
      InsertFinds(node.children, segs[1..], leaf);
      var children := Insert(node.children, segs[1..], leaf).value;
      FindSet(level, segs[0], node.(children := children), segs[0]);
    }
  }

  /** Inserting keeps everything that was there: a page found at another path
      is still found there unchanged, and a folder's group is reused with its
      name, path segment and visibility, so no earlier child is lost. Only a
      node below the new leaf's own position would be replaced. */
  lemma {:induction false} InsertKeeps(level: seq<Entry>, segs: seq<string>, leaf: Node, p: seq<string>)
    requires |segs| >= 1 && |p| >= 1 && Insert(level, segs, leaf).Some?
    requires p != segs && !IsProperPrefix(segs, p)
    requires Lookup(level, p).Some?
    ensures Lookup(Insert(level, segs, leaf).value, p).Some?
    ensures Header(Lookup(Insert(level, segs, leaf).value, p).value) == Header(Lookup(level, p).value)
    decreases |segs|
  {
    var t := Insert(level, segs, leaf).value;
    assert p == [p[0]] + p[1..] && segs == [segs[0]] + segs[1..];
    if |segs| < |p| {
      assert p[..|segs|] == [p[0]] + p[1..][..|segs| - 1];
    }
    if p[0] != segs[0] {
      if |segs| == 1 {
        FindSet(level, segs[0], leaf, p[0]);
      } else {
        var node := match Find(level, segs[0]) case Some(n) => n case None => NewGroup(segs[0]);
        var children := Insert(node.children, segs[1..], leaf).value;
        FindSet(level, segs[0], node.(children := children), p[0]);
      }
      assert Find(t, p[0]) == Find(level, p[0]);
    } else if |segs| == 1 {
      assert false;
    } else {
      var node := Find(level, segs[0]).value;
      var children := Insert(node.children, segs[1..], leaf).value;
      FindSet(level, segs[0], node.(children := children), segs[0]);
      if |p| > 1 {
        InsertKeeps(node.children, segs[1..], leaf, p[1..]);
      }
    }
  }

  /** After inserting, every folder on the way to the leaf is a group, and a
      folder that was not there before is a new group for that folder name. */
  lemma {:induction false} InsertCreatesGroups(level: seq<Entry>, segs: seq<string>, leaf: Node, j: nat)
    requires |segs| >= 1 && Insert(level, segs, leaf).Some?
    requires 1 <= j < |segs|
    ensures Lookup(Insert(level, segs, leaf).value, segs[..j]).Some?
    ensures Lookup(Insert(level, segs, leaf).value, segs[..j]).value.Group?
    ensures Lookup(level, segs[..j]).None? ==>
              Header(Lookup(Insert(level, segs, leaf).value, segs[..j]).value) == NewGroup(segs[j - 1])
    decreases |segs|
  {
    var node := match Find(level, segs[0]) case Some(n) => n case None => NewGroup(segs[0]);
    var children := Insert(node.children, segs[1..], leaf).value;
    FindSet(level, segs[0], node.(children := children), segs[0]);
    var q := segs[..j];
    if j > 1 {
      assert q[1..] == segs[1..][..j - 1];
      InsertCreatesGroups(node.children, segs[1..], leaf, j - 1);
      if Find(level, segs[0]).Some? && Lookup(level, q).None? {
        assert Lookup(level, q) == Lookup(node.children, q[1..]);
      }
    }
  }

  // ---------------------------------------------------------------------------
  // The file loop

  /** One page file inserted in the tree: its segments are the pieces between
      separators, and its leaf is named after the last one. */
  function InsertFile(tree: seq<Entry>, file: string, sep: char, element: string): Option<seq<Entry>> {
    Insert(tree, Split(file, sep), FileLeaf(file, sep, element))
  }

  /** The leaf made for a page file. */
  function FileLeaf(file: string, sep: char, element: string): Node {
    var segs := Split(file, sep);
    Leaf(file, segs[|segs| - 1], element)
  }

  /** The tree built from the page files in order, with the component name
      drawn for each; `None` when an insertion fails. */
  function RouteTree(files: seq<string>, sep: char, elements: seq<string>): Option<seq<Entry>>
    requires |elements| == |files|
    decreases |files|
  {
    if files == [] then Some([])
    else
      var n := |files| - 1;
      match RouteTree(files[..n], sep, elements[..n])
      case None => None
      case Some(t) => InsertFile(t, files[n], sep, elements[n])
  }

  /** The file loop of the route generation: starting from an empty tree, each
      page file's segments are inserted with the component name drawn for it
      (`elements`, one per file, standing for the random names). */
  method BuildRouteTree(files: seq<string>, sep: char, elements: seq<string>)
    returns (tree: Option<seq<Entry>>)
    requires |elements| == |files|
    ensures tree == RouteTree(files, sep, elements)
  {
    var routes: seq<Entry> := [];
    for i := 0 to |files|
      invariant RouteTree(files[..i], sep, elements[..i]) == Some(routes)
    {
      assert files[..i + 1][..i] == files[..i] && elements[..i + 1][..i] == elements[..i];
      var segments := Split(files[i], sep);
      var next := Insert(routes, segments, FileLeaf(files[i], sep, elements[i]));
      if next.None? {
        assert RouteTree(files[..i + 1], sep, elements[..i + 1]) == None;
        RouteTreeFails(files, sep, elements, i + 1);
        return None;
      }
      routes := next.value;
    }
    assert files[..|files|] == files && elements[..|elements|] == elements;
    return Some(routes);
  }

  /** Once an insertion fails, the whole generation fails. */
  lemma {:induction false} RouteTreeFails(files: seq<string>, sep: char, elements: seq<string>, i: nat)
    requires |elements| == |files| && i <= |files|
    requires RouteTree(files[..i], sep, elements[..i]) == None
    ensures RouteTree(files, sep, elements) == None
    decreases |files| - i
  {
    if i < |files| {
      assert files[..i + 1][..i] == files[..i] && elements[..i + 1][..i] == elements[..i];
      RouteTreeFails(files, sep, elements, i + 1);
    } else {
      assert files[..i] == files && elements[..i] == elements;
    }
  }

  /** Each of `files` is found at its segments with the leaf made for it. */
  ghost predicate AllRouted(t: seq<Entry>, files: seq<string>, sep: char, elements: seq<string>)
    requires |elements| == |files|
  {
    forall i :: 0 <= i < |files| ==> Lookup(t, Split(files[i], sep)) == Some(FileLeaf(files[i], sep, elements[i]))
  }

  /** No file's segments lead into another file's. */
  ghost predicate NoNesting(files: seq<string>, sep: char) {
    forall i, j :: 0 <= i < |files| && 0 <= j < |files| ==>
      !IsProperPrefix(Split(files[i], sep), Split(files[j], sep))
  }

  /** Inserting one more file keeps the earlier files routed and routes the new
      one. */
  lemma RoutedStep(t0: seq<Entry>, t: seq<Entry>, pre: seq<string>, preElements: seq<string>,
                   files: seq<string>, sep: char, elements: seq<string>)
    requires |preElements| == |pre| && AllRouted(t0, pre, sep, preElements)
    requires files != [] && files == pre + [files[|files| - 1]]
    requires |elements| == |files| && elements == preElements + [elements[|files| - 1]]
    requires files[|files| - 1] !in pre && NoNesting(files, sep)
    requires InsertFile(t0, files[|files| - 1], sep, elements[|files| - 1]) == Some(t)
    ensures AllRouted(t, files, sep, elements)
  {
    var file := files[|files| - 1];
    var last := Split(file, sep);
    var leaf := FileLeaf(file, sep, elements[|files| - 1]);
    InsertFinds(t0, last, leaf);
    forall i | 0 <= i < |files|
      ensures Lookup(t, Split(files[i], sep)) == Some(FileLeaf(files[i], sep, elements[i]))
    {
      if i < |pre| {
        var segs := Split(pre[i], sep);
        assert files[i] == pre[i] && elements[i] == preElements[i];
        if segs == last {
          SplitInjective(pre[i], file, sep);
        }
        InsertKeeps(t0, last, leaf, segs);
      }
    }
  }

  /** The earlier files of a nesting-free list of distinct files are again
      nesting-free and distinct, and do not include the last file. */
  lemma PrefixFacts(files: seq<string>, sep: char)
    requires files != [] && Seqs.Distinct(files) && NoNesting(files, sep)
    ensures var pre := files[..|files| - 1];
            Seqs.Distinct(pre) && NoNesting(pre, sep) && files[|files| - 1] !in pre
  {
    var pre := files[..|files| - 1];
    assert forall i :: 0 <= i < |pre| ==> pre[i] == files[i];
  }

  /** A non-empty sequence is its front followed by its last element. */
  lemma Snoc<T>(s: seq<T>)
    requires s != []
    ensures s == s[..|s| - 1] + [s[|s| - 1]]
  {
  }

  /** A built tree is the tree of the earlier files with the last file inserted. */
  lemma RouteTreeLast(files: seq<string>, sep: char, elements: seq<string>)
    requires files != [] && |elements| == |files| && RouteTree(files, sep, elements).Some?
    ensures var n := |files| - 1;
            RouteTree(files[..n], sep, elements[..n]).Some? &&
            RouteTree(files, sep, elements) ==
              InsertFile(RouteTree(files[..n], sep, elements[..n]).value, files[n], sep, elements[n])
  {
  }

  /** Every page file ends up as its own leaf: when the tree is built and no
      file's segments lead into another file, each file is found at its
      segments with the leaf made for it. */
  lemma {:induction false} EveryPageRouted(files: seq<string>, sep: char, elements: seq<string>)
    requires |elements| == |files| && RouteTree(files, sep, elements).Some?
    requires Seqs.Distinct(files) && NoNesting(files, sep)
    ensures AllRouted(RouteTree(files, sep, elements).value, files, sep, elements)
    decreases |files|
  {
    if files != [] {
      var n := |files| - 1;
      var pre, preElements := files[..n], elements[..n];
      PrefixFacts(files, sep);
      RouteTreeLast(files, sep, elements);
      Snoc(files);
      Snoc(elements);
      EveryPageRouted(pre, sep, preElements);
      RoutedStep(RouteTree(pre, sep, preElements).value, RouteTree(files, sep, elements).value,
                 pre, preElements, files, sep, elements);
    }
  }
}
