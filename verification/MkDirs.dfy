/** `MkDirs`: a path's directories, made one slash at a time in a scratch buffer. */
module MkDirs {
  import opened Os

  const NUL: char := '\0'

  /** A directory is named by its components from the root. */
  type Node = seq<string>

  /** The directories and regular files that exist, and the working directory. */
  datatype Tree = Tree(dirs: set<Node>, files: set<Node>, cwd: Node) {
    ghost predicate Valid() {
      && [] in dirs && cwd in dirs && dirs !! files
      && forall n :: n in dirs && n != [] ==> n[..|n| - 1] in dirs
    }
  }

  // ---------------------------------------------------------------- path resolution

  /** A path being read: the directory reached and the component not yet entered, or why
      the path cannot be followed. */
  datatype Cursor = Cursor(node: Node, comp: string) | Stuck(errno: int)

  function Parent(n: Node): Node {
    if n == [] then [] else n[..|n| - 1]
  }

  function Enter(n: Node, comp: string): Node {
    if comp == "" || comp == "." then n
    else if comp == ".." then Parent(n)
    else n + [comp]
  }

  /** Looking a component up needs a directory to look in. */
  function Lookup(t: Tree, c: Cursor): Cursor {
    if c.Stuck? then c
    else if c.node in t.files then Stuck(ENOTDIR)
    else if c.node !in t.dirs then Stuck(ENOENT)
    else Cursor(Enter(c.node, c.comp), "")
  }

  /** The directory a path starts from. */
  function Origin(t: Tree, path: string): Node {
    if path != "" && path[0] == '/' then [] else t.cwd
  }

  function Read(t: Tree, from: Node, path: string): Cursor
    decreases |path|
  {
    if path == "" then Cursor(from, "")
    else
      var c, last := Read(t, from, path[..|path| - 1]), path[|path| - 1];
      if c.Stuck? then c
      else if last == '/' then Lookup(t, c)
      else c.(comp := c.comp + [last])
  }

  /** What a system call finds at a path. */
  function Resolve(t: Tree, path: string): Cursor {
    Lookup(t, Read(t, Origin(t, path), path))
  }

  predicate IsDir(t: Tree, path: string) {
    var c := Resolve(t, path);
    c.Cursor? && c.node in t.dirs
  }

  // ---------------------------------------------------------------- system calls

  /** The errnos with which the two calls for one prefix fail for reasons outside the tree,
      0 for none. */
  datatype Fault = Fault(stat: nat, mkdir: nat)

  const NO_FAULT := Fault(0, 0)

  /** IsExists: 1, 0, or the negative errno of stat; every answer but 0 counts as true. */
  function IsExists(t: Tree, path: string, fault: nat): int {
    if fault != 0 then if fault == ENOENT then 0 else -(fault as int)
    else match Resolve(t, path)
      case Stuck(errno) => if errno == ENOENT then 0 else -errno
      case Cursor(node, _) => if node in t.dirs || node in t.files then 1 else 0
  }

  /** mkdir(2): the errno and the tree it leaves. */
  function Mkdir(t: Tree, path: string, fault: nat): (int, Tree) {
    if fault != 0 then (fault, t)
    else match Resolve(t, path)
      case Stuck(errno) => (errno, t)
      case Cursor(node, _) =>
        if node in t.dirs || node in t.files then (EEXIST, t)
        else (0, t.(dirs := t.dirs + {node}))
  }

  // ---------------------------------------------------------------- specification

  /** The buffer's text: the path, with a slash added when it does not end in one. */
  function Slashed(path: string): string
    requires path != ""
  {
    if path[|path| - 1] == '/' then path else path + "/"
  }

  /** One prefix: made unless something is there, or seems to be. */
  function MakeOne(t: Tree, prefix: string, fault: Fault): (int, Tree) {
    if IsExists(t, prefix, fault.stat) == 0 then Mkdir(t, prefix, fault.mkdir) else (0, t)
  }

  /** The rest of the run from index `i` on: the return value and the tree left. */
  function MakeFrom(t: Tree, text: string, i: nat, faults: nat -> Fault): (int, Tree)
    requires i <= |text|
    decreases |text| - i
  {
    if i == |text| then (0, t)
    else if text[i] == '/' && i > 0 then
      var (errno, t') := MakeOne(t, text[..i], faults(i));
      if errno != 0 then (-errno, t') else MakeFrom(t', text, i + 1, faults)
    else MakeFrom(t, text, i + 1, faults)
  }

  function Make(t: Tree, path: string, faults: nat -> Fault): (int, Tree) {
    if path == "" then (-EINVAL, t) else MakeFrom(t, Slashed(path), 0, faults)
  }

  // ---------------------------------------------------------------- the method

  class FileSystem {
    var tree: Tree

    constructor (tree: Tree)
      ensures this.tree == tree
    {
      this.tree := tree;
    }
  }

  /** The C string in a buffer: everything before the first NUL. */
  function CString(buf: seq<char>): string {
    if buf == [] || buf[0] == NUL then [] else [buf[0]] + CString(buf[1..])
  }

  lemma {:induction false} CStringIs(buf: seq<char>, text: string)
    requires |text| < |buf| && buf[..|text|] == text && buf[|text|] == NUL
    requires forall k :: 0 <= k < |text| ==> text[k] != NUL
    ensures CString(buf) == text
  {
    if text != [] {
      assert buf[0] == buf[..|text|][0] == text[0];
      assert buf[1..][..|text| - 1] == buf[..|text|][1..];
      CStringIs(buf[1..], text[1..]);
      assert [text[0]] + text[1..] == text;
    }
  }

  /** The buffer holds the text, and NULs after it. */
  predicate Holds(buf: seq<char>, text: string) {
    && |text| < |buf| && buf[..|text|] == text
    && (forall k :: 0 <= k < |text| ==> text[k] != NUL)
    && (forall k :: |text| <= k < |buf| ==> buf[k] == NUL)
  }

  /** The slash at `i`: the buffer is cut there, handed over as a C string, and mended. */
  method MakeAt(fs: FileSystem, buf: array<char>, ghost text: string, i: nat, fault: Fault) returns (errno: int)
    requires Holds(buf[..], text) && i < |text| && text[i] == '/'
    modifies fs, buf
    ensures (errno, fs.tree) == MakeOne(old(fs.tree), text[..i], fault)
    ensures errno == 0 ==> buf[..] == old(buf[..])
  {
    ghost var whole := buf[..];
    buf[i] := NUL;
    assert buf[..] == whole[i := NUL];
    assert whole[i := NUL][..i] == text[..i] by { assert whole[..|text|][..i] == text[..i]; }
    CStringIs(buf[..], text[..i]);
    var prefix := CString(buf[..]);
    errno := 0;
    if IsExists(fs.tree, prefix, fault.stat) == 0 {
      var (failed, tree) := Mkdir(fs.tree, prefix, fault.mkdir);
      errno, fs.tree := failed, tree;
      if errno != 0 {
        return;
      }
    }
    buf[i] := '/';
    assert whole[i] == whole[..|text|][i] == '/';
    assert buf[..] == whole;
  }

  /** The scratch copy of the path, with its final slash and room to spare. */
  method Scratch(path: string) returns (buf: array<char>)
    requires path != "" && forall k :: 0 <= k < |path| ==> path[k] != NUL
    ensures fresh(buf) && Holds(buf[..], Slashed(path)) && buf.Length == |path| + 9
  {
    var l := |path|;
    buf := new char[l + 1 + 8](i requires 0 <= i => if i < l then path[i] else NUL);
    if buf[l - 1] != '/' {
      buf[l] := '/';
      buf[l + 1] := NUL;
    }
    ghost var text := Slashed(path);
    assert forall k :: 0 <= k < |text| ==> buf[k] == text[k];
  }

  /** A null path is an empty one to this function. */
  method MakeDirs(fs: FileSystem, path: string, faults: nat -> Fault) returns (ret: int)
    requires forall k :: 0 <= k < |path| ==> path[k] != NUL
    modifies fs
    ensures (ret, fs.tree) == Make(old(fs.tree), path, faults)
  {
    if |path| <= 0 {
      return -EINVAL;
    }
    var l := |path|;
    var buf := Scratch(path);
    l := l + 1;
    ghost var text := Slashed(path);
    var i := 0;
    while i < l
      invariant 0 <= i <= l && |text| <= l < buf.Length && fresh(buf)
      invariant Holds(buf[..], text)
      invariant i <= |text| ==> MakeFrom(fs.tree, text, i, faults) == Make(old(fs.tree), path, faults)
      invariant i > |text| ==> (0, fs.tree) == Make(old(fs.tree), path, faults)
    {
      assert buf[i] == (if i < |text| then text[i] else NUL) by {
        assert i < |text| ==> buf[i] == buf[..][..|text|][i];
      }
      if buf[i] == '/' && i > 0 {
        var errno := MakeAt(fs, buf, text, i, faults(i));
        if errno != 0 {
          return -errno;
        }
      }
      i := i + 1;
    }
    return 0;
  }
}
