/** Paths of kernel/fs/vfs.c over the dentries in memory: how a path is printed and how it is
    scanned. */
module VfsSpec {
  /** A directory entry: its name, its parent (-1 for none) and the entries in it. */
  datatype Dentry = Dentry(name: string, parent: int, subdirs: seq<int>)

  type Tree = map<int, Dentry>

  const ROOT := 0

  /** The length of the name buffers. */
  const D_NAME_LEN := 32

  predicate GoodName(s: string) {
    0 < |s| < D_NAME_LEN && s != "." && s != ".." && '/' !in s
  }

  /** How far each entry is from the root. */
  type Rank = map<int, nat>

  predicate EntryOk(t: Tree, rank: Rank, d: int)
    requires d in t
  {
    var p := t[d].parent;
    GoodName(t[d].name) && p in t && d in t[p].subdirs && d in rank && p in rank && rank[d] == rank[p] + 1
  }

  predicate SubdirsOk(t: Tree, p: int)
    requires p in t
  {
    && (forall i :: 0 <= i < |t[p].subdirs| ==> t[p].subdirs[i] in t)
    && (forall i, j :: 0 <= i < j < |t[p].subdirs| ==> NamesDiffer(t, t[p].subdirs[i], t[p].subdirs[j]))
  }

  predicate NamesDiffer(t: Tree, a: int, b: int) {
    a in t && b in t ==> t[a].name != t[b].name
  }

  /** A tree with the root "/" on top, good names, and different names in one directory. */
  ghost predicate WellFormed(t: Tree, rank: Rank) {
    && ROOT in t && -1 !in t && t[ROOT].name == "/" && t[ROOT].parent == -1 && ROOT in rank && rank[ROOT] == 0
    && (forall d :: d in t && d != ROOT ==> EntryOk(t, rank, d))
    && (forall p :: p in t ==> SubdirsOk(t, p))
  }

  // ------------------------------------------------------------------------ printing

  /** The path of an entry below the root, without the leading slash. */
  function Text(t: Tree, rank: Rank, d: int): string
    decreases if d in rank then rank[d] else 0
  {
    if d in t && d != ROOT && EntryOk(t, rank, d) then
      if t[d].parent == ROOT then t[d].name else Text(t, rank, t[d].parent) + "/" + t[d].name
    else ""
  }

  function PathOf(t: Tree, rank: Rank, d: int): string {
    "/" + Text(t, rank, d)
  }

  // ------------------------------------------------------------------------ scanning

  /** The first entry of a directory with this name; -1 if there is none. */
  function Find(t: Tree, ds: seq<int>, name: string): int {
    if ds == [] then -1
    else if ds[0] in t && t[ds[0]].name == name then ds[0]
    else Find(t, ds[1..], name)
  }

  function Child(t: Tree, p: int, name: string): int {
    if p in t then Find(t, t[p].subdirs, name) else -1
  }

  /** The state of the loop of vfs_get_parent_dentry; a directory that is not found ends it. */
  datatype Scan = Missing | At(par: int, last: int, meet: bool, dname: string)

  /** The directory named by the last component. */
  function Enter(t: Tree, par: int, dname: string): int {
    if dname == ".." then (if par in t && t[par].parent != -1 then t[par].parent else ROOT)
    else if dname == "" || dname == "." then par
    else Child(t, par, dname)
  }

  /** One character of the path. */
  function Step(t: Tree, path: string, i: nat, s: Scan): Scan
    requires i < |path|
  {
    if s.Missing? then Missing
    else if path[i] == '/' then s.(dname := if 0 <= s.last <= i then path[s.last..i] else "", meet := true,
      last := i + 1)
    else if s.meet then
      var par := Enter(t, s.par, s.dname);
      if par == -1 then Missing else s.(par := par, meet := false)
    else s
  }

  /** The state after `n` characters. */
  function ScanTo(t: Tree, path: string, par: int, n: nat): Scan
    requires n <= |path|
  {
    if n == 0 then At(par, 0, false, "") else Step(t, path, n - 1, ScanTo(t, path, par, n - 1))
  }

  /** vfs_get_parent_dentry ends with the directory and the last component, with "no parent" for
      the root, or without a result. */
  datatype Parent = IsRoot | NotFound | In(par: int, name: string)

  function ParentOf(t: Tree, path: string, cwd: int): Parent {
    var rooted := path != "" && path[0] == '/';
    var rest := if rooted then path[1..] else path;
    if rest == "" then IsRoot else Scanned(t, rest, if rooted || cwd == -1 then ROOT else cwd)
  }

  /** Where the scan of a path from `par` ends. */
  function Scanned(t: Tree, path: string, par: int): Parent {
    match ScanTo(t, path, par, |path|)
    case Missing => NotFound
    case At(par, last, _, _) => if 0 <= last <= |path| then In(par, path[last..]) else NotFound
  }

  /** vfs_get_dentry; -1 is NULL.  When a directory is missing nothing is written to the name buffer,
      and what is compared with "/" is the string `stale` that happened to be there. */
  function Resolve(t: Tree, path: string, cwd: int, stale: string): int {
    match ParentOf(t, path, cwd)
    case IsRoot => ROOT
    case NotFound => if stale == "/" then ROOT else -1
    case In(par, name) =>
      if name == ".." then (if par in t then t[par].parent else -1)
      else if name == "." then par
      else Child(t, par, name)
  }

  /** The answer is a matter of the path alone exactly when the scan finds the directory, or the root
      is asked for. */
  lemma Determined(t: Tree, path: string, cwd: int)
    ensures (forall a, b :: Resolve(t, path, cwd, a) == Resolve(t, path, cwd, b)) <==>
      ParentOf(t, path, cwd) != NotFound
  {
    hide ParentOf;
    assert "/" != "";
    assert ParentOf(t, path, cwd) == NotFound ==> Resolve(t, path, cwd, "/") == ROOT && Resolve(t, path, cwd, "") == -1;
  }

  // ---------------------------------------------------------------------- round trip

  lemma {:induction false} FindIn(t: Tree, ds: seq<int>, k: nat)
    requires k < |ds| && (forall i :: 0 <= i < |ds| ==> ds[i] in t)
    requires forall i, j :: 0 <= i < j < |ds| ==> NamesDiffer(t, ds[i], ds[j])
    ensures Find(t, ds, t[ds[k]].name) == ds[k]
  {
    if k > 0 {
      assert NamesDiffer(t, ds[0], ds[k]);
      FindIn(t, ds[1..], k - 1);
    }
  }

  /** An entry is found in its parent by its name. */
  lemma FindSelf(t: Tree, rank: Rank, d: int)
    requires WellFormed(t, rank) && d in t && d != ROOT
    ensures Child(t, t[d].parent, t[d].name) == d
  {
    assert EntryOk(t, rank, d);
    var p := t[d].parent;
    assert SubdirsOk(t, p);
    var k :| 0 <= k < |t[p].subdirs| && t[p].subdirs[k] == d;
    FindIn(t, t[p].subdirs, k);
  }

  /** While no slash comes and none is pending, nothing happens. */
  lemma {:induction false} ScanName(t: Tree, path: string, par: int, i: nat, n: nat)
    requires i <= n <= |path| && ScanTo(t, path, par, i).At? && !ScanTo(t, path, par, i).meet && '/' !in path[i..n]
    ensures ScanTo(t, path, par, n) == ScanTo(t, path, par, i)
    decreases n
  {
    if i < n {
      assert path[i..n - 1] == path[i..n][..n - 1 - i];
      ScanName(t, path, par, i, n - 1);
      assert path[n - 1] == path[i..n][n - 1 - i];
    }
  }

  /** Over a slash and the first character of a name the scan enters the directory before it. */
  lemma ScanSlash(t: Tree, path: string, par: int, i: nat)
    requires i + 2 <= |path| && path[i] == '/' && path[i + 1] != '/'
    requires var s := ScanTo(t, path, par, i); s.At? && 0 <= s.last <= i && Enter(t, s.par, path[s.last..i]) != -1
    ensures var s := ScanTo(t, path, par, i);
      ScanTo(t, path, par, i + 2) == At(Enter(t, s.par, path[s.last..i]), i + 1, false, path[s.last..i])
  {
    var s := ScanTo(t, path, par, i);
    assert ScanTo(t, path, par, i + 1) == Step(t, path, i, s);
    assert ScanTo(t, path, par, i + 2) == Step(t, path, i + 1, ScanTo(t, path, par, i + 1));
  }

  /** After the text of an entry the scan is in its parent, with its name as the last component. */
  lemma {:induction false} ScanText(t: Tree, rank: Rank, d: int, path: string)
    requires WellFormed(t, rank) && d in t && d != ROOT && Text(t, rank, d) <= path
    ensures |Text(t, rank, d)| >= |t[d].name| && ScannedTo(t, path, |Text(t, rank, d)|, t[d])
    decreases if d in rank then rank[d] else 0
  {
    hide ScanTo, WellFormed;
    Entry(t, rank, d);
    var p, name, n := t[d].parent, t[d].name, |Text(t, rank, d)|;
    if p == ROOT {
      assert path[0..n] == name;
      ScanStart(t, path, ROOT);
      ScanName(t, path, ROOT, 0, n);
    } else {
      var m := |Text(t, rank, p)|;
      assert Text(t, rank, p) <= path;
      ScanText(t, rank, p, path);
      EnterSelf(t, rank, p);
      assert path[m] == '/' && path[m + 1..n] == name;
      assert path[m + 1] == name[0] && path[m + 2..n] == name[1..];
      ScanSlash(t, path, ROOT, m);
      ScanName(t, path, ROOT, m + 2, n);
    }
  }

  /** The scan stands behind the name of an entry, in the directory of that entry. */
  predicate ScannedTo(t: Tree, path: string, n: nat, e: Dentry)
    requires n <= |path|
  {
    var s := ScanTo(t, path, ROOT, n);
    s.At? && s.par == e.parent && s.last == n - |e.name| && !s.meet && 0 <= s.last && path[s.last..n] == e.name
  }

  lemma ScanStart(t: Tree, path: string, par: int)
    ensures ScanTo(t, path, par, 0) == At(par, 0, false, "")
  {
  }

  lemma Entry(t: Tree, rank: Rank, d: int)
    requires WellFormed(t, rank) && d in t && d != ROOT
    ensures EntryOk(t, rank, d) && d != -1
  {
  }

  lemma EnterSelf(t: Tree, rank: Rank, d: int)
    requires WellFormed(t, rank) && d in t && d != ROOT
    ensures Enter(t, t[d].parent, t[d].name) == d != -1
  {
    FindSelf(t, rank, d);
    Entry(t, rank, d);
  }

  /** Resolving the full path of an entry, from any working directory, gives that entry. */
  lemma ResolvePath(t: Tree, rank: Rank, d: int, cwd: int, stale: string)
    requires WellFormed(t, rank) && d in t
    ensures Resolve(t, PathOf(t, rank, d), cwd, stale) == d
  {
    hide ScanTo, WellFormed, Find;
    var text := Text(t, rank, d);
    assert PathOf(t, rank, d)[1..] == text;
    if d != ROOT {
      Entry(t, rank, d);
      ScanText(t, rank, d, text);
      FindSelf(t, rank, d);
      assert text[|text| - |t[d].name|..] == text[|text| - |t[d].name|..|text|];
    }
  }

  /** A lost scan stays lost. */
  lemma {:induction false} ScanLost(t: Tree, path: string, par: int, i: nat, n: nat)
    requires i <= n <= |path| && ScanTo(t, path, par, i) == Missing
    ensures ScanTo(t, path, par, n) == Missing
    decreases n
  {
    if i < n { ScanLost(t, path, par, i, n - 1); }
  }

  // ---------------------------------------------------------- paths one component at a time

  /** A path that goes on after a slash: not empty, and not with another slash. */
  predicate Continues(rest: string) {
    rest != "" && rest[0] != '/'
  }

  /** The scan `a` of a longer path stands where the scan `b` of its end does, `m` characters behind. */
  predicate Like(a: Scan, b: Scan, m: nat, n: nat) {
    if a.Missing? || b.Missing? then a == b
    else
      && a.par == b.par && a.last == b.last + m && 0 <= b.last <= n
      && a.meet == b.meet && (a.meet ==> a.dname == b.dname)
  }

  /** Once the scan has entered a directory, the rest of the path is scanned as from there. */
  lemma {:induction false} ScanRest(t: Tree, pre: string, rest: string, from: int, par: int, n: nat)
    requires Continues(rest) && 1 <= n <= |rest|
    requires var s := ScanTo(t, pre + rest, from, |pre| + 1); s.At? && s.par == par && s.last == |pre| && !s.meet
    ensures Like(ScanTo(t, pre + rest, from, |pre| + n), ScanTo(t, rest, par, n), |pre|, n)
    decreases n
  {
    if n == 1 {
      assert ScanTo(t, rest, par, 1) == Step(t, rest, 0, ScanTo(t, rest, par, 0));
    } else {
      ScanRest(t, pre, rest, from, par, n - 1);
      var path, m := pre + rest, |pre|;
      var a, b := ScanTo(t, path, from, m + n - 1), ScanTo(t, rest, par, n - 1);
      assert path[m + n - 1] == rest[n - 1];
      if b.At? { assert path[b.last + m..m + n - 1] == rest[b.last..n - 1]; }
      assert ScanTo(t, path, from, m + n) == Step(t, path, m + n - 1, a);
    }
  }

  lemma ScannedRest(t: Tree, pre: string, rest: string, from: int, par: int)
    requires Continues(rest)
    requires var s := ScanTo(t, pre + rest, from, |pre| + 1); s.At? && s.par == par && s.last == |pre| && !s.meet
    ensures Scanned(t, pre + rest, from) == Scanned(t, rest, par)
  {
    hide ScanTo;
    ScanRest(t, pre, rest, from, par, |rest|);
    var b := ScanTo(t, rest, par, |rest|);
    if b.At? { assert (pre + rest)[b.last + |pre|..] == rest[b.last..]; }
  }

  /** The first component is entered, or is missing. */
  lemma ScannedFirst(t: Tree, c: string, rest: string, from: int)
    requires c != "" && '/' !in c && Continues(rest)
    ensures var d := Enter(t, from, c);
      Scanned(t, c + "/" + rest, from) == if d == -1 then NotFound else Scanned(t, rest, d)
  {
    hide ScanTo, Enter;
    var pre, path := c + "/", c + "/" + rest;
    assert path == pre + rest && path[0..|c|] == c && path[|c|] == '/' && path[|c| + 1] == rest[0];
    ScanStart(t, path, from);
    ScanName(t, path, from, 0, |c|);
    if Enter(t, from, c) == -1 {
      ScanStuck(t, path, from, |c|);
      ScanLost(t, path, from, |c| + 2, |path|);
    } else {
      ScanSlash(t, path, from, |c|);
      ScannedRest(t, pre, rest, from, Enter(t, from, c));
    }
  }

  lemma ScanStuck(t: Tree, path: string, par: int, i: nat)
    requires i + 2 <= |path| && path[i] == '/' && path[i + 1] != '/'
    requires var s := ScanTo(t, path, par, i); s.At? && 0 <= s.last <= i && Enter(t, s.par, path[s.last..i]) == -1
    ensures ScanTo(t, path, par, i + 2) == Missing
  {
    var s := ScanTo(t, path, par, i);
    assert ScanTo(t, path, par, i + 1) == Step(t, path, i, s);
    assert ScanTo(t, path, par, i + 2) == Step(t, path, i + 1, ScanTo(t, path, par, i + 1));
  }

  /** Resolving a path is resolving its rest from the directory its first component names. */
  lemma ResolveFirst(t: Tree, c: string, rest: string, cwd: int, stale: string)
    requires c != "" && '/' !in c && Continues(rest) && cwd != -1
    ensures var d := Enter(t, cwd, c);
      Resolve(t, c + "/" + rest, cwd, stale) ==
        if d != -1 then Resolve(t, rest, d, stale) else if stale == "/" then ROOT else -1
  {
    hide Scanned, Enter, Child;
    ScannedFirst(t, c, rest, cwd);
    assert (c + "/" + rest)[0] == c[0] && c[0] in c;
  }

  /** A component alone: the scan stays where it is. */
  lemma ScannedLast(t: Tree, c: string, from: int)
    requires c != "" && '/' !in c
    ensures Scanned(t, c, from) == In(from, c)
  {
    hide ScanTo;
    ScanStart(t, c, from);
    assert c[0..|c|] == c && c[0..] == c;
    ScanName(t, c, from, 0, |c|);
  }

  /** "." and "..", alone and in front of a path: ".." is the parent; above the root it is NULL at the
      end of a path and the root inside one. */
  lemma Dots(t: Tree, rank: Rank, cwd: int, rest: string, stale: string)
    requires WellFormed(t, rank) && cwd in t && Continues(rest)
    ensures Resolve(t, ".", cwd, stale) == cwd && Resolve(t, "..", cwd, stale) == t[cwd].parent
    ensures Resolve(t, "./" + rest, cwd, stale) == Resolve(t, rest, cwd, stale)
    ensures Resolve(t, "../" + rest, cwd, stale) ==
      Resolve(t, rest, if cwd == ROOT then ROOT else t[cwd].parent, stale)
  {
    hide Scanned, Resolve, WellFormed;
    TreeRoot(t, rank);
    AloneResolves(t, ".", cwd, stale);
    AloneResolves(t, "..", cwd, stale);
    if cwd != ROOT { Entry(t, rank, cwd); }
    assert "." + "/" + rest == "./" + rest && ".." + "/" + rest == "../" + rest;
    ResolveFirst(t, ".", rest, cwd, stale);
    ResolveFirst(t, "..", rest, cwd, stale);
  }

  lemma TreeRoot(t: Tree, rank: Rank)
    requires WellFormed(t, rank)
    ensures ROOT in t && t[ROOT].parent == -1 && -1 !in t
  {
  }

  lemma AloneResolves(t: Tree, c: string, cwd: int, stale: string)
    requires c != "" && '/' !in c && cwd in t && cwd != -1
    ensures Resolve(t, c, cwd, stale) ==
      if c == ".." then t[cwd].parent else if c == "." then cwd else Child(t, cwd, c)
  {
    hide Scanned, Child;
    ScannedLast(t, c, cwd);
    assert c[0] in c;
  }

  /** A name, alone and in front of a path: the entry of that name, and NULL alone exactly when the
      directory has none. */
  lemma Named(t: Tree, rank: Rank, cwd: int, c: string, rest: string, stale: string)
    requires WellFormed(t, rank) && cwd in t && Continues(rest) && GoodName(c)
    ensures Resolve(t, c, cwd, stale) == -1 <==> !exists d :: d in t && d in t[cwd].subdirs && t[d].name == c
    ensures forall d :: d in t && d in t[cwd].subdirs && t[d].name == c ==>
      Resolve(t, c, cwd, stale) == d && Resolve(t, c + "/" + rest, cwd, stale) == Resolve(t, rest, d, stale)
  {
    hide Scanned, Resolve, Find;
    TreeRoot(t, rank);
    AloneResolves(t, c, cwd, stale);
    ResolveFirst(t, c, rest, cwd, stale);
    assert SubdirsOk(t, cwd);
    var ds := t[cwd].subdirs;
    forall d | d in t && d in ds && t[d].name == c
      ensures Find(t, ds, c) == d && d != -1
    {
      var k :| 0 <= k < |ds| && ds[k] == d;
      FindIn(t, ds, k);
    }
    FoundIs(t, ds, c);
  }

  lemma {:induction false} FoundIs(t: Tree, ds: seq<int>, name: string)
    ensures var d := Find(t, ds, name); d != -1 ==> d in ds && d in t && t[d].name == name
  {
    if ds != [] { FoundIs(t, ds[1..], name); }
  }

  function Join(dir: string, rest: string): string {
    if dir == "/" then dir + rest else dir + "/" + rest
  }

  /** A relative path means what the full path of the working directory joined with it means. */
  lemma RelativePath(t: Tree, rank: Rank, cwd: int, rest: string, other: int, stale: string)
    requires WellFormed(t, rank) && cwd in t && Continues(rest)
    ensures Resolve(t, rest, cwd, stale) == Resolve(t, Join(PathOf(t, rank, cwd), rest), other, stale)
  {
    hide Scanned, WellFormed, Child;
    TreeRoot(t, rank);
    var text := Text(t, rank, cwd);
    if cwd == ROOT {
      assert Join(PathOf(t, rank, cwd), rest)[1..] == rest;
    } else {
      Entry(t, rank, cwd);
      NonEmptyText(t, rank, cwd);
      assert Join(PathOf(t, rank, cwd), rest)[1..] == text + "/" + rest;
      ScannedBelow(t, rank, cwd, rest);
    }
  }

  lemma NonEmptyText(t: Tree, rank: Rank, d: int)
    requires d in t && d != ROOT && EntryOk(t, rank, d)
    ensures Text(t, rank, d) != ""
  {
  }

  lemma ScannedBelow(t: Tree, rank: Rank, d: int, rest: string)
    requires WellFormed(t, rank) && d in t && d != ROOT && Continues(rest)
    ensures Scanned(t, Text(t, rank, d) + "/" + rest, ROOT) == Scanned(t, rest, d)
  {
    hide ScanTo, WellFormed, Scanned, Text;
    var text := Text(t, rank, d);
    var path := text + "/" + rest;
    assert path == (text + "/") + rest && text <= path && path[|text|] == '/' && path[|text| + 1] == rest[0];
    ScanText(t, rank, d, path);
    EnterSelf(t, rank, d);
    ScanSlash(t, path, ROOT, |text|);
    ScannedRest(t, text + "/", rest, ROOT, d);
  }

  // ----------------------------------------------------------------- component lengths

  /** Every component of the path fits the buffers of the resolver. */
  ghost predicate Fits(path: string) {
    forall i, j :: 0 <= i <= j <= |path| && j - i >= D_NAME_LEN ==> HasSlash(path, i, j)
  }

  predicate HasSlash(path: string, i: int, j: int)
    requires 0 <= i <= j <= |path|
  {
    '/' in path[i..j]
  }

  lemma FitsJoin(a: string, b: string)
    requires Fits(a) && |b| < D_NAME_LEN
    ensures Fits(a + "/" + b) && Fits("/" + a) && Fits(b)
  {
    var s := a + "/" + b;
    forall i, j | 0 <= i <= j <= |s| && j - i >= D_NAME_LEN
      ensures HasSlash(s, i, j)
    {
      if j <= |a| {
        assert HasSlash(a, i, j) && s[i..j] == a[i..j];
      } else {
        assert i <= |a| && s[i..j][|a| - i] == '/';
      }
    }
    var r := "/" + a;
    forall i, j | 0 <= i <= j <= |r| && j - i >= D_NAME_LEN
      ensures HasSlash(r, i, j)
    {
      if i == 0 {
        assert r[i..j][0] == '/';
      } else {
        assert HasSlash(a, i - 1, j - 1) && r[i..j] == a[i - 1..j - 1];
      }
    }
  }

  /** The full path of an entry fits. */
  lemma {:induction false} PathFits(t: Tree, rank: Rank, d: int)
    requires WellFormed(t, rank) && d in t
    ensures Fits(Text(t, rank, d)) && Fits(PathOf(t, rank, d))
    decreases if d in rank then rank[d] else 0
  {
    hide WellFormed, Fits;
    EmptyFits();
    if d == ROOT {
      FitsJoin("", "");
    } else {
      Entry(t, rank, d);
      if t[d].parent != ROOT {
        PathFits(t, rank, t[d].parent);
        FitsJoin(Text(t, rank, t[d].parent), t[d].name);
      } else {
        FitsJoin("", t[d].name);
      }
      FitsJoin(Text(t, rank, d), "");
    }
  }

  lemma EmptyFits()
    ensures Fits("")
  {
  }
}
