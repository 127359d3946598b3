/**
 The evidence manifest: a recursive directory walk in component order, whose result is later held to
 a flat string order. A digest is modelled as the content it stands for.
 */
module EvidenceManifest {
  import opened Wrappers
  import opened SlashPaths
  import opened TextOrder

  type Path = seq<string>
  type Bytes = seq<bv8>

  datatype Node = File(content: Bytes) | Dir(children: map<string, Node>) | Symlink | Special

  datatype Artifact = Artifact(path: string, size: int, digest: Bytes)

  const MAX_MANIFEST_BYTES := 16 * 1024 * 1024

  // ---------------------------------------------------------------- trees

  /** What every file system guarantees of an entry's name. */
  predicate ProperName(n: string) { n != "" && n != "." && n != ".." && '/' !in n }

  ghost predicate ProperTree(n: Node) {
    n.Dir? ==> forall x <- n.children :: ProperName(x) && ProperTree(n.children[x])
  }

  ghost predicate ProperPath(p: Path) { forall x <- p :: ProperName(x) }

  /** Only regular files and directories, and no backslash in any name. */
  ghost predicate Clean(n: Node) {
    n.File? || (n.Dir? && forall x <- n.children :: '\\' !in x && Clean(n.children[x]))
  }

  /** The content of the file at a path, if there is a file. */
  function At(n: Node, p: Path): Option<Bytes> {
    if p == [] then (if n.File? then Some(n.content) else None)
    else if n.Dir? && p[0] in n.children then At(n.children[p[0]], p[1..])
    else None
  }

  ghost predicate SameFiles(a: Node, b: Node) { forall p :: At(a, p) == At(b, p) }

  // ---------------------------------------------------------------- paths as text

  function Join(p: Path): string
    requires p != []
  {
    if |p| == 1 then p[0] else p[0] + "/" + Join(p[1..])
  }

  /** A relative, normal path without backslashes. */
  predicate PathOk(s: string) {
    s != "" && '\\' !in s && forall x <- SplitSlash(s) :: x != "" && x != "." && x != ".."
  }

  /** Splitting undoes joining. */
  lemma {:induction false} JoinSplits(p: Path)
    requires p != [] && ProperPath(p)
    ensures SplitSlash(Join(p)) == p
  {
    assert p[0] in p;
    if |p| == 1 {
      SplitName(p[0]);
    } else {
      JoinSplits(p[1..]);
      SplitAfterName(p[0], Join(p[1..]));
    }
  }

  lemma {:induction false} JoinBackslash(p: Path)
    requires p != []
    ensures '\\' in Join(p) <==> exists x :: x in p && '\\' in x
  {
    if |p| > 1 {
      JoinBackslash(p[1..]);
      assert p == [p[0]] + p[1..];
    }
  }

  /** A path of proper names passes exactly when none of them holds a backslash. */
  lemma {:induction false} JoinedPathOk(p: Path)
    requires p != [] && ProperPath(p)
    ensures PathOk(Join(p)) <==> forall x <- p :: '\\' !in x
  {
    JoinSplits(p);
    JoinBackslash(p);
    assert p[0] in p;
  }

  lemma {:induction false} JoinDeeper(at: Path, p: Path)
    requires at != [] && p != []
    ensures Join(at + p) == Join(at) + "/" + Join(p)
  {
    if |at| > 1 {
      JoinDeeper(at[1..], p);
      assert (at + p)[1..] == at[1..] + p;
    } else {
      assert (at + p)[1..] == p;
    }
  }

  // ---------------------------------------------------------------- component order

  predicate Precedes(p: Path, q: Path) {
    q != [] && (p == [] || Less(p[0], q[0]) || (p[0] == q[0] && Precedes(p[1..], q[1..])))
  }

  lemma {:induction false} PrecedesIrreflexive(p: Path)
    ensures !Precedes(p, p)
  {
    if p != [] {
      Irreflexive(p[0]);
      PrecedesIrreflexive(p[1..]);
    }
  }

  lemma {:induction false} PrecedesTransitive(p: Path, q: Path, r: Path)
    requires Precedes(p, q) && Precedes(q, r)
    ensures Precedes(p, r)
  {
    if p != [] {
      Irreflexive(p[0]);
      if Less(p[0], q[0]) && Less(q[0], r[0]) { Transitive(p[0], q[0], r[0]); }
      if p[0] == q[0] == r[0] { PrecedesTransitive(p[1..], q[1..], r[1..]); }
    }
  }

  ghost predicate InOrder(paths: seq<Path>) {
    forall i, j :: 0 <= i < j < |paths| ==> Precedes(paths[i], paths[j])
  }

  /** Every file once, in component order. */
  ghost predicate ListsFiles(n: Node, paths: seq<Path>) {
    InOrder(paths) && forall p :: p in paths <==> At(n, p).Some?
  }

  ghost predicate SameElements(a: seq<Path>, b: seq<Path>) { forall p :: p in a <==> p in b }

  lemma SameFirst(a: seq<Path>, b: seq<Path>)
    requires InOrder(a) && InOrder(b) && SameElements(a, b) && a != [] && b != []
    ensures a[0] == b[0]
  {
    assert a[0] in b && b[0] in a;
    if a[0] != b[0] {
      PrecedesTransitive(a[0], b[0], a[0]);
      PrecedesIrreflexive(a[0]);
    }
  }

  lemma {:induction false} OneOrder(a: seq<Path>, b: seq<Path>)
    requires InOrder(a) && InOrder(b) && SameElements(a, b)
    ensures a == b
  {
    if a != [] { assert a[0] in b; }
    if b != [] { assert b[0] in a; }
    if a != [] && b != [] {
      SameFirst(a, b);
      PrecedesIrreflexive(a[0]);
      assert a == [a[0]] + a[1..] && b == [b[0]] + b[1..];
      forall p ensures p in a[1..] <==> p in b[1..] {
        assert p in a[1..] ==> p in a;
        assert p in b[1..] ==> p in b;
      }
      OneOrder(a[1..], b[1..]);
    }
  }

  // ---------------------------------------------------------------- the walk

  function Under(name: string, paths: seq<Path>): (r: seq<Path>)
    ensures |r| == |paths|
  {
    seq(|paths|, i requires 0 <= i < |paths| => [name] + paths[i])
  }

  /** The walk so far: the files below the first `k` names. */
  ghost predicate ListsBelow(n: Node, names: seq<string>, paths: seq<Path>) {
    InOrder(paths) && forall p :: p in paths <==> p != [] && p[0] in names && At(n, p).Some?
  }

  lemma UnderMembers(name: string, sub: seq<Path>, p: Path)
    ensures p in Under(name, sub) <==> p != [] && p[0] == name && p[1..] in sub
  {
    if p != [] && p[0] == name && p[1..] in sub {
      var i :| 0 <= i < |sub| && sub[i] == p[1..];
      assert Under(name, sub)[i] == p;
    }
    if p in Under(name, sub) {
      var i :| 0 <= i < |sub| && Under(name, sub)[i] == p;
      assert p[1..] == sub[i];
    }
  }

  /** One more child's files go after all files of the names before it. */
  lemma {:induction false} ExtendListing(n: Node, names: seq<string>, name: string, paths: seq<Path>, sub: seq<Path>)
    requires n.Dir? && name in n.children && (forall x <- names :: Less(x, name))
    requires ListsBelow(n, names, paths) && ListsFiles(n.children[name], sub)
    ensures ListsBelow(n, names + [name], paths + Under(name, sub))
  {
    var more := Under(name, sub);
    var all := paths + more;
    forall i, j | 0 <= i < j < |all| ensures Precedes(all[i], all[j]) {
      if i < |paths| <= j {
        assert all[i] in paths && all[i][0] in names;
      } else if i >= |paths| {
        var a, b := i - |paths|, j - |paths|;
        assert all[i] == [name] + sub[a] && all[j] == [name] + sub[b];
        assert all[i][1..] == sub[a] && all[j][1..] == sub[b];
      }
    }
    forall p ensures p in all <==> p != [] && p[0] in names + [name] && At(n, p).Some? {
      UnderMembers(name, sub, p);
      assert p in all <==> p in paths || p in more;
      if p != [] && p[0] == name { assert p[1..] in sub <==> At(n.children[name], p[1..]).Some?; }
    }
  }

  ghost predicate Flattens(found: seq<string>, at: Path, paths: seq<Path>) {
    |found| == |paths| &&
    forall i :: 0 <= i < |paths| ==> at + paths[i] != [] && found[i] == Join(at + paths[i])
  }

  lemma FlattensUnder(found: seq<string>, at: Path, name: string, sub: seq<Path>)
    requires Flattens(found, at + [name], sub)
    ensures Flattens(found, at, Under(name, sub))
  {
    forall i | 0 <= i < |sub| ensures found[i] == Join(at + Under(name, sub)[i]) {
      assert at + Under(name, sub)[i] == at + [name] + sub[i];
    }
  }

  /** The text put before each entry's name inside the directory at a path. */
  function Prefix(at: Path): string { if at == [] then "" else Join(at) + "/" }

  lemma {:induction false} PrefixedName(at: Path, name: string)
    ensures Prefix(at) + name == Join(at + [name])
  {
    if at == [] { assert at + [name] == [name]; } else { JoinDeeper(at, [name]); }
  }

  ghost predicate ChildrenClean(n: Node, names: seq<string>)
    requires n.Dir?
  {
    forall x <- names :: x in n.children && '\\' !in x && Clean(n.children[x])
  }

  lemma FlattensAppend(a: seq<string>, b: seq<string>, at: Path, p: seq<Path>, q: seq<Path>)
    requires Flattens(a, at, p) && Flattens(b, at, q)
    ensures Flattens(a + b, at, p + q)
  {}

  ghost predicate CleanPlace(at: Path) { ProperPath(at) && forall x <- at :: '\\' !in x }

  /** The walk below one directory: fails on exactly the unclean trees, and otherwise lists every file. */
  method Walk(n: Node, prefix: string, ghost at: Path) returns (r: Option<seq<string>>, ghost paths: seq<Path>)
    requires n.Dir? && ProperTree(n) && CleanPlace(at) && prefix == Prefix(at)
    ensures r.Some? <==> Clean(n)
    ensures r.Some? ==> ListsFiles(n, paths) && Flattens(r.value, at, paths)
    decreases n, 1
  {
    var names := Sorted(n.children.Keys);
    var found: seq<string> := [];
    paths := [];
    var k := 0;
    while k < |names|
      invariant k <= |names|
      invariant ChildrenClean(n, names[..k])
      invariant ListsBelow(n, names[..k], paths) && Flattens(found, at, paths)
    {
      var name := names[k];
      assert name in names && name in n.children;
      var more, sub := Visit(n.children[name], name, prefix, at);
      if more.None? { return None, []; }
      assert names[..k + 1] == names[..k] + [name];
      ExtendListing(n, names[..k], name, paths, sub);
      FlattensAppend(found, more.value, at, paths, Under(name, sub));
      found := found + more.value;
      paths := paths + Under(name, sub);
      k := k + 1;
    }
    assert names[..k] == names;
    r := Some(found);
  }

  /** One entry of the walk. */
  method Visit(child: Node, name: string, prefix: string, ghost at: Path) returns (r: Option<seq<string>>, ghost sub: seq<Path>)
    requires ProperName(name) && ProperTree(child) && CleanPlace(at) && prefix == Prefix(at)
    ensures r.Some? <==> '\\' !in name && Clean(child)
    ensures r.Some? ==> ListsFiles(child, sub) && Flattens(r.value, at, Under(name, sub))
    decreases child, 2
  {
    var rel := prefix + name;
    PrefixedName(at, name);
    JoinedPathOk(at + [name]);
    if !PathOk(rel) { return None, []; }
    if child.Dir? {
      r, sub := Walk(child, rel + "/", at + [name]);
      if r.Some? { FlattensUnder(r.value, at, name, sub); }
    } else if child.File? {
      r, sub := Some([rel]), [[]];
      assert Under(name, sub)[0] == [name];
    } else {
      return None, [];
    }
  }

  // ---------------------------------------------------------------- capture

  function ArtifactAt(n: Node, p: Path): Artifact
    requires p != [] && At(n, p).Some?
  {
    Artifact(Join(p), |At(n, p).value|, At(n, p).value)
  }

  /** `m` describes exactly these files of the tree, in this order. */
  ghost predicate Describes(n: Node, paths: seq<Path>, m: seq<Artifact>) {
    |m| == |paths| &&
    forall i :: 0 <= i < |m| ==> paths[i] != [] && At(n, paths[i]).Some? && m[i] == ArtifactAt(n, paths[i])
  }

  /** Capturing the tree succeeds and gives `m`. */
  ghost predicate Captures(n: Node, m: seq<Artifact>) {
    n.Dir? && Clean(n) && m != [] && exists paths :: ListsFiles(n, paths) && Describes(n, paths, m)
  }

  ghost predicate HasFile(n: Node) { exists p :: At(n, p).Some? }

  lemma CaptureIsUnique(n: Node, a: seq<Artifact>, b: seq<Artifact>)
    requires Captures(n, a) && Captures(n, b)
    ensures a == b
  {
    var p :| ListsFiles(n, p) && Describes(n, p, a);
    var q :| ListsFiles(n, q) && Describes(n, q, b);
    OneListing(n, p, q);
    DescribesOne(n, p, a, b);
  }

  lemma OneListing(n: Node, p: seq<Path>, q: seq<Path>)
    requires ListsFiles(n, p) && ListsFiles(n, q)
    ensures p == q
  {
    OneOrder(p, q);
  }

  lemma DescribesOne(n: Node, paths: seq<Path>, a: seq<Artifact>, b: seq<Artifact>)
    requires Describes(n, paths, a) && Describes(n, paths, b)
    ensures a == b
  {}

  /** What opening a listed file by its path components gives. */
  lemma {:induction false} SplitFindsFile(n: Node, p: Path)
    requires n.Dir? && ProperTree(n) && At(n, p).Some?
    ensures p != [] && ProperPath(p) && SplitSlash(Join(p)) == p
  {
    FilePathIsProper(n, p);
    JoinSplits(p);
  }

  lemma {:induction false} FilePathIsProper(n: Node, p: Path)
    requires ProperTree(n) && At(n, p).Some?
    ensures ProperPath(p)
    decreases |p|
  {
    if p != [] {
      FilePathIsProper(n.children[p[0]], p[1..]);
      assert p == [p[0]] + p[1..];
    }
  }

  method Capture(n: Node) returns (r: Option<seq<Artifact>>)
    requires ProperTree(n)
    ensures r.Some? <==> n.Dir? && Clean(n) && HasFile(n)
    ensures r.Some? ==> Captures(n, r.value)
  {
    if !n.Dir? { return None; }
    var names, paths := Walk(n, "", []);
    if names.None? { return None; }
    if names.value == [] {
      assert paths == [];
      return None;
    }
    assert paths[0] in paths && At(n, paths[0]).Some?;
    var m: seq<Artifact> := [];
    var k := 0;
    while k < |names.value|
      invariant k <= |names.value| && |m| == k && Describes(n, paths[..k], m)
    {
      var rel := names.value[k];
      assert paths[k] in paths;
      SplitFindsFile(n, paths[k]);
      assert [] + paths[k] == paths[k] && SplitSlash(rel) == paths[k];
      var content := At(n, SplitSlash(rel)).value;
      m := m + [Artifact(rel, |content|, content)];
      k := k + 1;
    }
    assert paths[..k] == paths;
    r := Some(m);
  }

  // ---------------------------------------------------------------- load

  ghost predicate Loads(m: seq<Artifact>) {
    m != [] && (forall a <- m :: PathOk(a.path) && a.size >= 0) &&
    forall i, j :: 0 <= i < j < |m| ==> Less(m[i].path, m[j].path)
  }

  /** A path that stays below its directory: no empty component, no `.`, no `..` and no backslash. */
  ghost predicate StaysBelow(path: string) {
    '\\' !in path && forall i :: 0 <= i < |SplitSlash(path)| ==>
      SplitSlash(path)[i] != "" && SplitSlash(path)[i] != "." && SplitSlash(path)[i] != ".."
  }

  lemma {:induction false} PathOkExactly(path: string)
    ensures PathOk(path) <==> StaysBelow(path)
  {
    var parts := SplitSlash(path);
    assert forall i :: 0 <= i < |parts| ==> parts[i] in parts;
    if path == "" { assert parts[0] == ""; }
    if StaysBelow(path) {
      forall x | x in parts ensures x != "" && x != "." && x != ".." { var i :| 0 <= i < |parts| && parts[i] == x; }
    }
  }

  method Load(m: seq<Artifact>, bytes: nat) returns (ok: bool)
    ensures ok <==> bytes <= MAX_MANIFEST_BYTES && Loads(m)
    ensures ok ==> forall k :: 0 <= k < |m| ==> StaysBelow(m[k].path)
    ensures !ok ==>
      bytes > MAX_MANIFEST_BYTES || m == [] || (exists k :: 0 <= k < |m| && (m[k].size < 0 || !StaysBelow(m[k].path)))
      || exists k :: 0 <= k < |m| - 1 && !Less(m[k].path, m[k + 1].path)
  {
    if bytes > MAX_MANIFEST_BYTES || m == [] { return false; }
    var previous := "";
    var k := 0;
    while k < |m|
      invariant k <= |m| && previous == if k == 0 then "" else m[k - 1].path
      invariant forall i :: 0 <= i < k ==> PathOk(m[i].path) && StaysBelow(m[i].path) && m[i].size >= 0
      invariant forall i, j :: 0 <= i < j < k ==> Less(m[i].path, m[j].path)
    {
      var item := m[k];
      assert item in m;
      PathOkExactly(item.path);
      if !PathOk(item.path) { return false; }
      if !Less(previous, item.path) {
        assert k > 0 && !Less(m[k - 1].path, m[k - 1 + 1].path);
        return false;
      }
      if item.size < 0 { return false; }
      forall i | 0 <= i < k ensures Less(m[i].path, item.path) {
        if i < k - 1 { Transitive(m[i].path, previous, item.path); }
      }
      previous := item.path;
      k := k + 1;
    }
    ok := true;
  }

  // ---------------------------------------------------------------- component order against flat order

  predicate ProperPrefix(x: string, y: string) { |x| < |y| && y[..|x|] == x }

  /** Where the two paths part, the first goes on below a directory whose name the second's name extends by a character below `/`. */
  predicate PairClash(p: Path, q: Path) {
    p != [] && q != [] &&
    if p[0] == q[0] then PairClash(p[1..], q[1..])
    else |p| > 1 && ProperPrefix(p[0], q[0]) && q[0][|p[0]|] < '/'
  }

  /** Neither path runs through the other, as two files' paths never do. */
  predicate Apart(p: Path, q: Path) {
    p != [] && q != [] && (p[0] == q[0] ==> Apart(p[1..], q[1..]))
  }

  /** Names that part at a character are ordered by it, whatever follows them. */
  lemma {:induction false} PartingDecides(x: string, y: string, u: string, v: string)
    requires Less(x, y) && !ProperPrefix(x, y)
    ensures Less(x + u, y + v)
  {
    if x != "" && x[0] == y[0] {
      assert x == [x[0]] + x[1..] && y == [y[0]] + y[1..];
      PartingDecides(x[1..], y[1..], u, v);
      assert (x + u)[1..] == x[1..] + u && (y + v)[1..] == y[1..] + v;
    }
  }

  lemma {:induction false} PrefixIsLess(x: string, y: string)
    requires ProperPrefix(x, y)
    ensures Less(x, y)
  {
    if x != "" {
      assert y[1..][..|x| - 1] == x[1..];
      PrefixIsLess(x[1..], y[1..]);
    }
  }

  /** A name against a longer one: the character after the shared part decides. */
  lemma {:induction false} ExtensionDecides(x: string, y: string, u: string, v: string)
    requires ProperPrefix(x, y) && y[|x|] != '/'
    ensures Less(x + "/" + u, y + v) <==> '/' < y[|x|]
  {
    var rest := y[|x|..] + v;
    assert y + v == x + rest;
    assert x + "/" + u == x + ("/" + u);
    SharedFront(x, "/" + u, rest);
  }

  function Tail(p: Path): string
    requires p != []
  {
    if |p| == 1 then "" else "/" + Join(p[1..])
  }

  lemma {:induction false} JoinTail(p: Path)
    requires p != []
    ensures Join(p) == p[0] + Tail(p)
  {}

  /** For two files in component order, the flat order agrees exactly when they do not clash. */
  lemma {:induction false} FlatAgrees(p: Path, q: Path)
    requires Apart(p, q) && Precedes(p, q) && ProperPath(p) && ProperPath(q)
    ensures Less(Join(p), Join(q)) <==> !PairClash(p, q)
    decreases |p|
  {
    var x, y := p[0], q[0];
    JoinTail(p);
    JoinTail(q);
    if x == y {
      Irreflexive(x);
      FlatAgrees(p[1..], q[1..]);
      SharedFront(x + "/", Join(p[1..]), Join(q[1..]));
    } else if !ProperPrefix(x, y) {
      PartingDecides(x, y, Tail(p), Tail(q));
    } else if |p| == 1 {
      assert ProperPrefix(x, y + Tail(q)) by { assert (y + Tail(q))[..|x|] == y[..|x|]; }
      PrefixIsLess(x, y + Tail(q));
      assert x + Tail(p) == x;
    } else {
      assert q[0] in q && y[|x|] in y;
      ExtensionDecides(x, y, Join(p[1..]), Tail(q));
      assert x + "/" + Join(p[1..]) == x + Tail(p);
    }
  }

  lemma {:induction false} FilesAreApart(n: Node, p: Path, q: Path)
    requires At(n, p).Some? && At(n, q).Some? && p != q
    ensures Apart(p, q)
    decreases |p|
  {
    if p != [] && q != [] && p[0] == q[0] {
      assert p == [p[0]] + p[1..] && q == [q[0]] + q[1..];
      FilesAreApart(n.children[p[0]], p[1..], q[1..]);
    }
  }

  // ---------------------------------------------------------------- the clash, said of the tree

  /** The entry at a path. */
  function Entry(n: Node, p: Path): Option<Node> {
    if p == [] then Some(n)
    else if n.Dir? && p[0] in n.children then Entry(n.children[p[0]], p[1..])
    else None
  }

  /**
   In one directory, the name of a file-containing directory is a proper prefix of the name of a
   sibling file or file-containing directory, and the next character sorts below the slash.
   */
  ghost predicate SiblingClash(d: Node, x: string, y: string) {
    d.Dir? && x in d.children && y in d.children && d.children[x].Dir? &&
    HasFile(d.children[x]) && HasFile(d.children[y]) && ProperPrefix(x, y) && y[|x|] < '/'
  }

  ghost predicate Clashes(n: Node) {
    exists d: Path, x, y :: Entry(n, d).Some? && SiblingClash(Entry(n, d).value, x, y)
  }

  lemma {:induction false} PairClashIsSibling(n: Node, p: Path, q: Path)
    requires At(n, p).Some? && At(n, q).Some? && PairClash(p, q)
    ensures Clashes(n)
    decreases |p|
  {
    if p[0] == q[0] {
      var child := n.children[p[0]];
      PairClashIsSibling(child, p[1..], q[1..]);
      var d: Path, x, y :| Entry(child, d).Some? && SiblingClash(Entry(child, d).value, x, y);
      assert ([p[0]] + d)[1..] == d;
      assert Entry(n, [p[0]] + d) == Entry(child, d);
    } else {
      assert At(n.children[p[0]], p[1..]).Some? && At(n.children[q[0]], q[1..]).Some?;
      assert n.children[p[0]].Dir?;
      assert SiblingClash(n, p[0], q[0]) && Entry(n, []) == Some(n);
    }
  }

  lemma {:induction false} SiblingIsPairClash(n: Node, d: Path, x: string, y: string) returns (p: Path, q: Path)
    requires Entry(n, d).Some? && SiblingClash(Entry(n, d).value, x, y)
    ensures At(n, p).Some? && At(n, q).Some? && PairClash(p, q) && Precedes(p, q)
    decreases |d|
  {
    if d == [] {
      var u :| At(n.children[x], u).Some?;
      var v :| At(n.children[y], v).Some?;
      p, q := [x] + u, [y] + v;
      PrefixIsLess(x, y);
      assert p[1..] == u && q[1..] == v;
    } else {
      var u, v := SiblingIsPairClash(n.children[d[0]], d[1..], x, y);
      p, q := [d[0]] + u, [d[0]] + v;
      assert p[1..] == u && q[1..] == v;
    }
  }

  // ---------------------------------------------------------------- main results

  lemma {:induction false} CapturedPathsOk(n: Node, paths: seq<Path>, m: seq<Artifact>)
    requires ProperTree(n) && Captures(n, m) && ListsFiles(n, paths) && Describes(n, paths, m)
    ensures forall a <- m :: PathOk(a.path) && a.size >= 0
  {
    forall a | a in m ensures PathOk(a.path) && a.size >= 0 {
      var i :| 0 <= i < |m| && m[i] == a;
      assert paths[i] in paths;
      FilePathIsProper(n, paths[i]);
      CleanPath(n, paths[i]);
      JoinedPathOk(paths[i]);
    }
  }

  lemma {:induction false} CleanPath(n: Node, p: Path)
    requires Clean(n) && At(n, p).Some?
    ensures forall x <- p :: '\\' !in x
    decreases |p|
  {
    if p != [] {
      CleanPath(n.children[p[0]], p[1..]);
      assert p == [p[0]] + p[1..];
    }
  }

  /** The loader takes a captured manifest exactly when no siblings of the tree clash. */
  lemma {:induction false} CaptureLoads(n: Node, m: seq<Artifact>)
    requires ProperTree(n) && Captures(n, m)
    ensures Loads(m) <==> !Clashes(n)
  {
    var paths :| ListsFiles(n, paths) && Describes(n, paths, m);
    if Clashes(n) {
      ClashingTreeStopsLoad(n, paths, m);
    } else {
      CapturedPathsOk(n, paths, m);
      forall i, j | 0 <= i < j < |m| ensures Less(m[i].path, m[j].path) { NoClashAscends(n, paths, m, i, j); }
    }
  }

  lemma {:induction false} ClashingTreeStopsLoad(n: Node, paths: seq<Path>, m: seq<Artifact>)
    requires ProperTree(n) && ListsFiles(n, paths) && Describes(n, paths, m) && Clashes(n)
    ensures !Loads(m)
  {
    var d: Path, x, y :| Entry(n, d).Some? && SiblingClash(Entry(n, d).value, x, y);
    var p, q := SiblingIsPairClash(n, d, x, y);
    ClashStopsLoad(n, paths, m, p, q);
  }

  lemma {:induction false} NoClashAscends(n: Node, paths: seq<Path>, m: seq<Artifact>, i: nat, j: nat)
    requires ProperTree(n) && ListsFiles(n, paths) && Describes(n, paths, m) && !Clashes(n) && i < j < |m|
    ensures Less(m[i].path, m[j].path)
  {
    FlatAgreesAt(n, paths, m, i, j);
    if PairClash(paths[i], paths[j]) { PairClashIsSibling(n, paths[i], paths[j]); }
  }

  lemma {:induction false} FlatAgreesAt(n: Node, paths: seq<Path>, m: seq<Artifact>, i: nat, j: nat)
    requires ProperTree(n) && ListsFiles(n, paths) && Describes(n, paths, m) && i < j < |m|
    ensures At(n, paths[i]).Some? && At(n, paths[j]).Some?
    ensures Less(m[i].path, m[j].path) <==> !PairClash(paths[i], paths[j])
  {
    var p, q := paths[i], paths[j];
    assert p in paths && q in paths && Precedes(p, q);
    PrecedesIrreflexive(p);
    FilesAreApart(n, p, q);
    FilePathIsProper(n, p);
    FilePathIsProper(n, q);
    FlatAgrees(p, q);
  }

  lemma {:induction false} ClashStopsLoad(n: Node, paths: seq<Path>, m: seq<Artifact>, p: Path, q: Path)
    requires ProperTree(n) && ListsFiles(n, paths) && Describes(n, paths, m)
    requires At(n, p).Some? && At(n, q).Some? && PairClash(p, q) && Precedes(p, q)
    ensures !Loads(m)
  {
    assert p in paths && q in paths;
    var i :| 0 <= i < |paths| && paths[i] == p;
    var j :| 0 <= j < |paths| && paths[j] == q;
    if j <= i {
      if j < i { PrecedesTransitive(p, q, p); }
      PrecedesIrreflexive(p);
    }
    FlatAgreesAt(n, paths, m, i, j);
  }

  ghost predicate Verifies(n: Node, m: seq<Artifact>, bytes: nat) {
    bytes <= MAX_MANIFEST_BYTES && Loads(m) && Captures(n, m)
  }

  method Verify(n: Node, m: seq<Artifact>, bytes: nat) returns (r: Option<nat>)
    requires ProperTree(n)
    ensures r.Some? <==> Verifies(n, m, bytes)
    ensures r.Some? ==> r.value == |m|
  {
    var ok := Load(m, bytes);
    if !ok { return None; }
    var actual := Capture(n);
    if actual.None? || actual.value != m {
      if Captures(n, m) {
        var paths :| ListsFiles(n, paths) && Describes(n, paths, m);
        assert At(n, paths[0]).Some?;
        CaptureIsUnique(n, m, actual.value);
      }
      return None;
    }
    r := Some(|m|);
  }

  lemma SameFilesSameManifest(a: Node, b: Node, p: seq<Path>, m: seq<Artifact>)
    requires ListsFiles(a, p) && Describes(a, p, m) && SameFiles(a, b)
    ensures ListsFiles(b, p) && Describes(b, p, m)
  {
    forall f ensures f in p <==> At(b, f).Some? { assert At(a, f) == At(b, f); }
    forall i | 0 <= i < |m| ensures At(b, p[i]) == At(a, p[i]) {}
  }

  lemma {:induction false} SamePathAt(a: Node, b: Node, p: Path, q: Path)
    requires a.Dir? && b.Dir? && ProperTree(a) && ProperTree(b) && At(a, p).Some? && At(b, q).Some?
    requires p != [] && q != [] && ArtifactAt(a, p) == ArtifactAt(b, q)
    ensures p == q && At(a, p) == At(b, p)
  {
    SplitFindsFile(a, p);
    SplitFindsFile(b, q);
  }

  lemma {:induction false} SameManifestSameFiles(a: Node, b: Node, p: seq<Path>, q: seq<Path>, m: seq<Artifact>)
    requires a.Dir? && b.Dir? && ProperTree(a) && ProperTree(b)
    requires ListsFiles(a, p) && Describes(a, p, m) && ListsFiles(b, q) && Describes(b, q, m)
    ensures SameFiles(a, b)
  {
    forall i | 0 <= i < |m| ensures p[i] == q[i] && At(a, p[i]) == At(b, p[i]) { SamePathAt(a, b, p[i], q[i]); }
    assert p == q;
    forall f ensures At(a, f) == At(b, f) {
      if f in p {
        var i :| 0 <= i < |p| && p[i] == f;
        assert At(a, p[i]) == At(b, p[i]);
      }
    }
  }

  /** Two trees give one manifest exactly when they hold the same files with the same contents. */
  lemma {:induction false} ManifestsAgree(a: Node, b: Node, m: seq<Artifact>)
    requires ProperTree(a) && ProperTree(b) && Captures(a, m) && b.Dir? && Clean(b)
    ensures Captures(b, m) <==> SameFiles(a, b)
  {
    var p :| ListsFiles(a, p) && Describes(a, p, m);
    if SameFiles(a, b) { SameFilesSameManifest(a, b, p, m); }
    if Captures(b, m) {
      var q :| ListsFiles(b, q) && Describes(b, q, m);
      SameManifestSameFiles(a, b, p, q, m);
    }
  }

  /**
   A manifest captured from one tree verifies against another exactly when the other is clean and holds
   the same files and contents, no siblings clash, and the manifest is not too long. In particular,
   with `b == a`, capture-then-verify succeeds on just the trees without a clash.
   */
  lemma {:induction false} VerifiesExactly(a: Node, b: Node, m: seq<Artifact>, bytes: nat)
    requires ProperTree(a) && ProperTree(b) && Captures(a, m)
    ensures Verifies(b, m, bytes) <==>
      b.Dir? && Clean(b) && SameFiles(a, b) && !Clashes(a) && bytes <= MAX_MANIFEST_BYTES
  {
    CaptureLoads(a, m);
    if b.Dir? && Clean(b) { ManifestsAgree(a, b, m); }
  }

  /** A directory `a` beside a file `a.txt` is captured and never verifies. */
  lemma CapturedButUnverifiable(c: Bytes) returns (n: Node)
    ensures ProperTree(n) && n.Dir? && Clean(n) && HasFile(n)
    ensures forall m, bytes :: Captures(n, m) ==> !Verifies(n, m, bytes)
  {
    var inner := Dir(map["f" := File(c)]);
    n := Dir(map["a" := inner, "a.txt" := File(c)]);
    assert At(inner.children["f"], []) == Some(c) && At(inner, ["f"]) == Some(c) && ["f"][1..] == [];
    assert At(n.children["a.txt"], []) == Some(c) && ["a.txt"][1..] == [] && At(n, ["a.txt"]) == Some(c);
    assert SiblingClash(n, "a", "a.txt") && Entry(n, []) == Some(n);
    forall m, bytes | Captures(n, m) ensures !Verifies(n, m, bytes) { VerifiesExactly(n, n, m, bytes); }
  }
}
