/** The character loops of kernel/fs/vfs.c: vfs_get_dentry_fullpath, vfs_get_parent_dentry and
    vfs_get_dentry, for entries that are in memory. */
module Vfs {
  import opened VfsSpec

  const BUFFER := 128

  /** Copies a name backwards to just below position `end`. */
  method CopyName(buf: array<char>, end: nat, name: string) returns (p: nat)
    requires |name| <= end < buf.Length
    modifies buf
    ensures p == end - |name| && buf[p..end] == name && forall i :: 0 <= i < buf.Length && !(p <= i < end) ==>
      buf[i] == old(buf[i])
  {
    p := end;
    var pp := |name|;
    while pp > 0
      invariant 0 <= pp <= |name| && p == end - (|name| - pp)
      invariant forall i :: p <= i < end ==> buf[i] == name[pp + (i - p)]
      invariant forall i :: 0 <= i < buf.Length && !(p <= i < end) ==> buf[i] == old(buf[i])
    {
      p, pp := p - 1, pp - 1;
      buf[p] := name[pp];
    }
  }

  /** The path of an entry is that of its parent, a slash if one is needed, and its name. */
  lemma PathStep(t: Tree, rank: Rank, d: int)
    requires WellFormed(t, rank) && d in t && d != ROOT
    ensures var p := t[d].parent;
      p in t && p != -1 && PathOf(t, rank, d) == PathOf(t, rank, p) + (if p == ROOT then "" else "/") + t[d].name
    ensures d in rank && t[d].parent in rank && rank[t[d].parent] < rank[d]
    ensures |t[t[d].parent].name| > 0 && (t[d].parent != ROOT ==> t[t[d].parent].name[0] != '/')
  {
    hide WellFormed, Text;
    Entry(t, rank, d);
    TreeFacts(t, rank);
    TextStep(t, rank, d);
    var p, name := t[d].parent, t[d].name;
    if p == ROOT {
      assert "/" + "" + name == "/" + name;
    } else {
      NonRoot(t, rank, p);
      assert "/" + (Text(t, rank, p) + "/" + name) == "/" + Text(t, rank, p) + "/" + name;
    }
  }

  lemma TextStep(t: Tree, rank: Rank, d: int)
    requires d in t && d != ROOT && EntryOk(t, rank, d)
    ensures t[d].parent == ROOT ==> Text(t, rank, d) == t[d].name
    ensures t[d].parent != ROOT ==> Text(t, rank, d) == Text(t, rank, t[d].parent) + "/" + t[d].name
  {
  }

  lemma NonRoot(t: Tree, rank: Rank, d: int)
    requires WellFormed(t, rank) && d in t && d != ROOT
    ensures |t[d].name| > 0 && t[d].name[0] != '/'
  {
    assert EntryOk(t, rank, d);
    assert t[d].name[0] in t[d].name;
  }

  lemma TreeFacts(t: Tree, rank: Rank)
    requires WellFormed(t, rank)
    ensures ROOT in t && t[ROOT].name == "/" && t[ROOT].parent == -1 && -1 !in t && PathOf(t, rank, ROOT) == "/"
  {
  }

  /** Puts a name in front of what is in the buffer from `p` to `end`. */
  method PutName(buf: array<char>, p: nat, end: nat, name: string) returns (p': nat)
    requires |name| <= p <= end < buf.Length
    modifies buf
    ensures p' == p - |name| && buf[p'..end] == name + old(buf[p..end]) && buf[end] == old(buf[end])
  {
    p' := CopyName(buf, p, name);
    assert buf[p..end] == old(buf[p..end]);
    assert buf[p'..end] == buf[p'..p] + buf[p..end];
  }

  lemma PathParts(full: string, a: string, slash: string, name: string, tail: string)
    requires full == a + slash + name + tail
    ensures full == a + (slash + (name + tail)) && |name| + |slash| + |tail| <= |full|
  {
    assert slash + (name + tail) == slash + name + tail;
    assert a + (slash + name + tail) == a + slash + name + tail;
  }

  /** vfs_get_dentry_fullpath, for a path of less than 128 characters. */
  method FullPath(t: Tree, ghost rank: Rank, dent: int) returns (path: string)
    requires WellFormed(t, rank) && dent in t && |PathOf(t, rank, dent)| < BUFFER
    ensures path == PathOf(t, rank, dent)
  {
    hide WellFormed, Text, PathOf;
    var buf := new char[BUFFER];
    var end := BUFFER - 1;
    buf[end] := '\0';
    var p, d := end, dent;
    ghost var full, tail := PathOf(t, rank, dent), "";
    TreeFacts(t, rank);
    while true
      invariant d in t && 0 <= p <= end && buf[p..end] == tail && full == PathOf(t, rank, d) + tail
      decreases if d in rank then rank[d] else 0
    {
      ghost var name, slash := t[d].name, if t[d].parent == ROOT then "" else "/";
      if d != ROOT {
        PathStep(t, rank, d);
        PathParts(full, PathOf(t, rank, t[d].parent), slash, name, tail);
      }
      p := PutName(buf, p, end, t[d].name);
      if t[d].parent == -1 {
        break;
      }
      tail := name + tail;
      d := t[d].parent;
      if t[d].name[0] != '/' {
        p := PutName(buf, p, end, "/");
        tail := "/" + tail;
      } else {
        assert "" + tail == tail;
      }
    }
    path := buf[p..end];
  }

  /** The root is there, and so is every parent. */
  ghost predicate Linked(t: Tree) {
    ROOT in t && -1 !in t && forall d :: d in t ==> t[d].parent == -1 || t[d].parent in t
  }

  /** The loop over the entries of a directory. */
  method FindChild(t: Tree, par: int, name: string) returns (dir: int)
    requires par in t
    ensures dir == Child(t, par, name)
  {
    var ds := t[par].subdirs;
    var i := 0;
    while i < |ds|
      invariant 0 <= i <= |ds| && Find(t, ds[i..], name) == Child(t, par, name)
    {
      if ds[i] in t && t[ds[i]].name == name {
        return ds[i];
      }
      i := i + 1;
    }
    dir := -1;
  }

  /** The directory a component names, from `par`. */
  method EnterDir(t: Tree, par: int, dname: string) returns (dir: int)
    requires Linked(t) && par in t
    ensures dir == Enter(t, par, dname) && (dir != -1 ==> dir in t)
  {
    if dname == ".." {
      dir := if t[par].parent != -1 then t[par].parent else ROOT;
    } else if dname == "" || dname == "." {
      dir := par;
    } else {
      dir := FindChild(t, par, dname);
      if dir != -1 { ChildIn(t, par, dname); }
    }
  }

  lemma EmptyPart(s: string, i: nat)
    requires i <= |s|
    ensures !HasSlash(s, i, i)
  {
  }

  lemma OneMore(s: string, last: nat, i: nat)
    requires last <= i < |s|
    ensures HasSlash(s, last, i + 1) <==> HasSlash(s, last, i) || s[i] == '/'
  {
    assert s[last..i + 1] == s[last..i] + [s[i]];
  }

  /** vfs_get_parent_dentry: the scan of the path, character by character. */
  method GetParentDentry(t: Tree, path: string, cwd: int) returns (r: Parent)
    requires Linked(t) && (cwd in t || cwd == -1)
    requires Fits(path)
    ensures r == ParentOf(t, path, cwd)
  {
    hide Fits, Enter, HasSlash;
    var par, rest := if cwd == -1 then ROOT else cwd, path;
    if rest != "" && rest[0] == '/' {
      par, rest := ROOT, rest[1..];
    }
    if rest == "" {
      return IsRoot;
    }
    ghost var from := par;
    EmptyPart(rest, 0);
    var last, meet, dname, i := 0, false, "", 0;
    while i < |rest|
      invariant 0 <= last <= i <= |rest| && par in t && !HasSlash(rest, last, i)
      invariant ScanTo(t, rest, from, i) == At(par, last, meet, dname)
    {
      if rest[i] == '/' {
        ShortPart(path, rest, last, i);
        assert i - last < D_NAME_LEN;
        dname := rest[last..i];
        meet := true;
        last := i + 1;
        EmptyPart(rest, last);
      } else if meet {
        var dir := EnterDir(t, par, dname);
        if dir == -1 {
          ScanLost(t, rest, from, i + 1, |rest|);
          return NotFound;
        }
        par := dir;
        meet := false;
      }
      if last <= i { OneMore(rest, last, i); }
      i := i + 1;
    }
    ShortPart(path, rest, last, i);
    assert |rest| - last < D_NAME_LEN;
    r := In(par, rest[last..]);
  }

  /** What is copied to a name buffer fits it. */
  lemma ShortPart(path: string, rest: string, last: nat, i: nat)
    requires Fits(path) && (rest == path || (path != "" && rest == path[1..])) && last <= i <= |rest| &&
      !HasSlash(rest, last, i)
    ensures i - last < D_NAME_LEN
  {
    var k := |path| - |rest|;
    assert path[last + k..i + k] == rest[last..i];
    assert HasSlash(path, last + k, i + k) <==> HasSlash(rest, last, i);
  }

  lemma ChildIn(t: Tree, par: int, name: string)
    requires par in t && Child(t, par, name) != -1
    ensures Child(t, par, name) in t
  {
    FindInTree(t, t[par].subdirs, name);
  }

  lemma {:induction false} FindInTree(t: Tree, ds: seq<int>, name: string)
    requires Find(t, ds, name) != -1
    ensures Find(t, ds, name) in t
  {
    if !(ds[0] in t && t[ds[0]].name == name) { FindInTree(t, ds[1..], name); }
  }

  /** vfs_get_dentry; `stale` is what the uninitialised name buffer holds. */
  method GetDentry(t: Tree, path: string, cwd: int, stale: string) returns (d: int)
    requires Linked(t) && (cwd in t || cwd == -1)
    requires Fits(path)
    ensures d == Resolve(t, path, cwd, stale)
  {
    hide ScanTo;
    var r := GetParentDentry(t, path, cwd);
    if r == IsRoot {
      return ROOT;
    }
    if r == NotFound {
      return if stale == "/" then ROOT else -1;
    }
    if r.name == ".." {
      return if r.par in t then t[r.par].parent else -1;
    }
    if r.name == "." {
      return r.par;
    }
    if r.par !in t {
      return -1;
    }
    d := FindChild(t, r.par, r.name);
  }

  /** A well-formed tree is one the resolver can work on. */
  lemma ParentsIn(t: Tree, rank: Rank)
    requires WellFormed(t, rank)
    ensures Linked(t)
  {
    forall d | d in t
      ensures t[d].parent == -1 || t[d].parent in t
    {
      if d != ROOT { assert EntryOk(t, rank, d); }
    }
  }

  /** Looking up what vfs_get_dentry_fullpath returns gives the entry back. */
  method LookUpFullPath(t: Tree, ghost rank: Rank, dent: int, cwd: int, stale: string) returns (d: int)
    requires WellFormed(t, rank) && dent in t && (cwd in t || cwd == -1) && |PathOf(t, rank, dent)| < BUFFER
    ensures d == dent
  {
    hide WellFormed, PathOf, Fits, Resolve, Linked;
    var path := FullPath(t, rank, dent);
    ParentsIn(t, rank);
    PathFits(t, rank, dent);
    ResolvePath(t, rank, dent, cwd, stale);
    d := GetDentry(t, path, cwd, stale);
  }
}
