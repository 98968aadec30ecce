/** What `MkDirs` makes of a directory tree. */
module MkDirsTheorems {
  import opened MkDirs
  import opened Os

  /** The node a path names if every component is a directory, and the component not yet
      entered: reading without looking. */
  function Trace(from: Node, path: string): (Node, string)
    decreases |path|
  {
    if path == "" then (from, "")
    else
      var (n, comp) := Trace(from, path[..|path| - 1]);
      var last := path[|path| - 1];
      if last == '/' then (Enter(n, comp), "") else (n, comp + [last])
  }

  function Named(t: Tree, path: string): Node {
    var (n, comp) := Trace(Origin(t, path), path);
    Enter(n, comp)
  }

  /** The slash-delimited prefixes of a text below index `i`, as the nodes they name. */
  function Prefixes(t: Tree, text: string, i: nat): set<Node>
    requires i <= |text|
  {
    set k | 0 < k < i && SlashAt(text, k) :: Named(t, text[..k])
  }

  /** A slash that ends a prefix. */
  predicate SlashAt(text: string, k: int) {
    0 < k < |text| && text[k] == '/'
  }

  /** No prefix names a regular file. */
  ghost predicate Clear(t: Tree, text: string) {
    forall k {:trigger SlashAt(text, k)} :: SlashAt(text, k) ==> Named(t, text[..k]) !in t.files
  }

  ghost predicate DirsBelow(t: Tree, text: string, i: nat) {
    forall k {:trigger SlashAt(text, k)} :: SlashAt(text, k) && k < i ==> IsDir(t, text[..k])
  }

  /** Every prefix is a directory. */
  ghost predicate AllDirs(t: Tree, text: string) {
    DirsBelow(t, text, |text|)
  }

  ghost predicate NoFaults(faults: nat -> Fault) {
    forall i: nat :: faults(i) == NO_FAULT
  }

  /** Reading has followed directories, or run into a regular file, now or before. */
  predicate Sane(t: Tree, c: Cursor) {
    match c
    case Stuck(errno) => errno == ENOTDIR
    case Cursor(node, _) => node in t.dirs || node in t.files
  }

  /** Where reading gets anywhere, it gets where the names say. */
  lemma {:induction false} ReadsNamed(t: Tree, from: Node, path: string)
    ensures var c := Read(t, from, path); c.Cursor? ==> (c.node, c.comp) == Trace(from, path)
    decreases |path|
  {
    if path != "" {
      ReadsNamed(t, from, path[..|path| - 1]);
    }
  }

  /** `more` is the same tree with more directories. */
  ghost predicate Extends(t: Tree, more: Tree) {
    && t.dirs <= more.dirs && more.files == t.files && more.cwd == t.cwd
    && t.Valid() && more.Valid()
  }

  /** More directories change no reading but a missing one. */
  lemma {:induction false} ReadStays(t: Tree, more: Tree, from: Node, path: string)
    requires Extends(t, more)
    ensures Read(t, from, path) != Stuck(ENOENT) ==> Read(more, from, path) == Read(t, from, path)
    decreases |path|
  {
    if path != "" {
      ReadStays(t, more, from, path[..|path| - 1]);
    }
  }

  lemma DirStays(t: Tree, more: Tree, path: string)
    requires Extends(t, more) && IsDir(t, path)
    ensures IsDir(more, path)
  {
    ReadStays(t, more, Origin(t, path), path);
  }

  lemma EnterValid(t: Tree, n: Node, comp: string)
    requires t.Valid() && n in t.dirs && Enter(n, comp) !in t.files
    ensures t.(dirs := t.dirs + {Enter(n, comp)}).Valid()
  {
    var m := Enter(n, comp);
    if m !in t.dirs {
      assert m == n + [comp] && m[..|m| - 1] == n;
    }
  }

  /** One prefix: no error, at most the named node made, and reading can go on. */
  lemma OneMade(t: Tree, text: string, i: nat) returns (t': Tree)
    requires t.Valid() && 0 < i < |text| && text[i] == '/' && Sane(t, Read(t, Origin(t, text), text[..i]))
    ensures MakeOne(t, text[..i], NO_FAULT) == (0, t') && Extends(t, t')
    ensures t'.dirs <= t.dirs + {Named(t, text[..i])}
    ensures Sane(t', Read(t', Origin(t, text), text[..i + 1]))
    ensures var c := Read(t, Origin(t, text), text[..i]);
            c.Cursor? && c.node in t.dirs && Named(t, text[..i]) !in t.files ==>
              && IsDir(t', text[..i]) && t'.dirs == t.dirs + {Named(t, text[..i])}
              && Read(t', Origin(t, text), text[..i + 1]) == Cursor(Named(t, text[..i]), "")
  {
    var from := Origin(t, text);
    assert text[..i] != "" && text[..i][0] == text[0];
    var c := Read(t, from, text[..i]);
    ReadsNamed(t, from, text[..i]);
    t' := MakeOne(t, text[..i], NO_FAULT).1;
    if c.Cursor? && c.node in t.dirs && Named(t, text[..i]) !in t.files {
      EnterValid(t, c.node, c.comp);
      assert t'.dirs == t.dirs + {Named(t, text[..i])};
    }
    ReadStays(t, t', from, text[..i]);
    assert text[..i + 1][..i] == text[..i];
  }

  lemma ReadOn(t: Tree, from: Node, text: string, i: nat)
    requires i < |text| && (text[i] != '/' || i == 0)
    requires Sane(t, Read(t, from, text[..i])) && t.Valid() && from in t.dirs
    ensures Sane(t, Read(t, from, text[..i + 1]))
    ensures var c, c' := Read(t, from, text[..i]), Read(t, from, text[..i + 1]);
            c.Cursor? && c.node in t.dirs ==> c'.Cursor? && c'.node in t.dirs
  {
    assert text[..i + 1][..i] == text[..i];
  }

  /** Without faults the rest of a run returns 0, keeps all that was there, and adds only
      directories named by prefixes. */
  lemma {:induction false} RestReturnsZero(t: Tree, text: string, i: nat, faults: nat -> Fault)
    requires t.Valid() && NoFaults(faults) && i <= |text| && Sane(t, Read(t, Origin(t, text), text[..i]))
    ensures var (ret, t') := MakeFrom(t, text, i, faults);
            ret == 0 && Extends(t, t') && t'.dirs <= t.dirs + Prefixes(t, text, |text|)
    decreases |text| - i
  {
    if i < |text| {
      if text[i] == '/' && i > 0 {
        var t' := OneMade(t, text, i);
        RestReturnsZero(t', text, i + 1, faults);
        SamePrefixes(t, t', text, |text|);
        assert SlashAt(text, i) && Named(t, text[..i]) in Prefixes(t, text, |text|);
      } else {
        ReadOn(t, Origin(t, text), text, i);
        RestReturnsZero(t, text, i + 1, faults);
      }
    }
  }

  lemma SamePrefixes(t: Tree, t': Tree, text: string, i: nat)
    requires t'.cwd == t.cwd && i <= |text|
    ensures Prefixes(t', text, i) == Prefixes(t, text, i)
  {
    forall k | 0 < k < i && SlashAt(text, k) ensures Named(t', text[..k]) == Named(t, text[..k]) {
      assert Origin(t', text[..k]) == Origin(t, text[..k]);
    }
  }

  lemma StillDirs(t: Tree, t': Tree, text: string, i: nat)
    requires Extends(t, t') && i < |text| && DirsBelow(t, text, i) && IsDir(t', text[..i])
    ensures DirsBelow(t', text, i + 1)
  {
    forall k | SlashAt(text, k) && k < i ensures IsDir(t', text[..k]) {
      DirStays(t, t', text[..k]);
    }
  }

  lemma StillClear(t: Tree, t': Tree, text: string)
    requires Extends(t, t') && Clear(t, text)
    ensures Clear(t', text)
  {
    forall k | SlashAt(text, k) ensures Named(t', text[..k]) !in t'.files {
      assert Origin(t', text[..k]) == Origin(t, text[..k]);
    }
  }

  /** Reading up to `i` has followed directories. */
  predicate Followed(t: Tree, from: Node, path: string) {
    var c := Read(t, from, path);
    c.Cursor? && c.node in t.dirs
  }

  /** Everything a run on a clear path has established before index `i`. */
  ghost predicate OnTrack(t: Tree, text: string, i: nat) {
    && i <= |text| && t.Valid() && Clear(t, text)
    && Followed(t, Origin(t, text), text[..i]) && DirsBelow(t, text, i)
  }

  lemma SlashOnTrack(t: Tree, text: string, i: nat) returns (t': Tree)
    requires OnTrack(t, text, i) && SlashAt(text, i)
    ensures MakeOne(t, text[..i], NO_FAULT) == (0, t') && OnTrack(t', text, i + 1)
  {
    t' := OneMade(t, text, i);
    assert Origin(t', text) == Origin(t, text);
    StillDirs(t, t', text, i);
    StillClear(t, t', text);
  }

  lemma CharOnTrack(t: Tree, text: string, i: nat)
    requires OnTrack(t, text, i) && i < |text| && !SlashAt(text, i)
    ensures OnTrack(t, text, i + 1)
  {
    ReadOn(t, Origin(t, text), text, i);
  }

  lemma RestUnfolds(t: Tree, text: string, i: nat, faults: nat -> Fault)
    requires NoFaults(faults) && i < |text|
    ensures !SlashAt(text, i) ==> MakeFrom(t, text, i, faults) == MakeFrom(t, text, i + 1, faults)
    ensures SlashAt(text, i) && MakeOne(t, text[..i], NO_FAULT).0 == 0 ==>
              MakeFrom(t, text, i, faults) == MakeFrom(MakeOne(t, text[..i], NO_FAULT).1, text, i + 1, faults)
  {
    assert faults(i) == NO_FAULT;
  }

  /** On a clear path every prefix becomes a directory. */
  lemma {:induction false} RestMakesAll(t: Tree, text: string, i: nat, faults: nat -> Fault, left: Tree)
    requires OnTrack(t, text, i) && NoFaults(faults) && left == MakeFrom(t, text, i, faults).1
    ensures AllDirs(left, text)
    decreases |text| - i
  {
    if i < |text| {
      RestUnfolds(t, text, i, faults);
      if SlashAt(text, i) {
        var t' := SlashOnTrack(t, text, i);
        RestMakesAll(t', text, i + 1, faults, left);
      } else {
        CharOnTrack(t, text, i);
        RestMakesAll(t, text, i + 1, faults, left);
      }
    }
  }

  // ---------------------------------------------------------------- faults

  /** No call for a prefix below index `i` fails for outside reasons. */
  ghost predicate NoFaultsBelow(faults: nat -> Fault, i: nat) {
    forall k: nat :: k < i ==> faults(k) == NO_FAULT
  }

  /** Where a run without faults stands at index `i`: the prefixes before it exist, and nothing
      else was made. */
  lemma {:induction false} RunUpTo(t: Tree, text: string, from: nat, i: nat, faults: nat -> Fault) returns (t': Tree)
    requires OnTrack(t, text, from) && from <= i <= |text| && NoFaultsBelow(faults, i)
    ensures OnTrack(t', text, i) && Extends(t, t') && t'.dirs <= t.dirs + Prefixes(t, text, i)
    ensures MakeFrom(t, text, from, faults) == MakeFrom(t', text, i, faults)
    decreases i - from
  {
    if from == i {
      t' := t;
    } else {
      assert faults(from) == NO_FAULT;
      if SlashAt(text, from) {
        var next := SlashOnTrack(t, text, from);
        var _ := OneMade(t, text, from);
        t' := RunUpTo(next, text, from + 1, i, faults);
        SamePrefixes(t, next, text, i);
        assert Named(t, text[..from]) in Prefixes(t, text, i);
      } else {
        CharOnTrack(t, text, from);
        t' := RunUpTo(t, text, from + 1, i, faults);
      }
    }
  }

  lemma FaultAt(t: Tree, text: string, i: nat, fault: Fault)
    requires OnTrack(t, text, i) && SlashAt(text, i)
    ensures fault.stat == 0 && fault.mkdir != 0 && !IsDir(t, text[..i]) ==>
              MakeOne(t, text[..i], fault) == (fault.mkdir, t)
    ensures fault.stat != 0 && fault.stat != 2 ==> MakeOne(t, text[..i], fault) == (0, t)
    ensures fault == Fault(2, 0) && IsDir(t, text[..i]) ==> MakeOne(t, text[..i], fault) == (17, t)
  {
    assert text[..i] != "" && text[..i][0] == text[0];
    ReadsNamed(t, Origin(t, text), text[..i]);
  }

  lemma MakeFromAt(t: Tree, text: string, i: nat, faults: nat -> Fault)
    requires SlashAt(text, i)
    ensures var (errno, t') := MakeOne(t, text[..i], faults(i));
            MakeFrom(t, text, i, faults) == if errno != 0 then (-errno, t') else MakeFrom(t', text, i + 1, faults)
  {}

  /** A missing or empty path is refused. */
  lemma EmptyPath(t: Tree, faults: nat -> Fault)
    ensures Make(t, "", faults) == (-22, t)
  {}

  lemma FaultEnds(t: Tree, text: string, i: nat, faults: nat -> Fault)
    requires OnTrack(t, text, i) && SlashAt(text, i)
    ensures var (ret, t') := MakeFrom(t, text, i, faults);
            && (faults(i).stat == 0 && faults(i).mkdir != 0 && !IsDir(t, text[..i]) ==>
                  ret == -(faults(i).mkdir as int) && t' == t)
            && (faults(i) == Fault(2, 0) && IsDir(t, text[..i]) ==> ret == -17 && t' == t)
    ensures faults(i).stat != 0 && faults(i).stat != 2 ==>
              MakeFrom(t, text, i, faults) == MakeFrom(t, text, i + 1, faults)
  {
    FaultAt(t, text, i, faults(i));
    MakeFromAt(t, text, i, faults);
  }

  lemma StartsOnTrack(t: Tree, text: string)
    requires t.Valid() && Clear(t, text)
    ensures OnTrack(t, text, 0)
  {}

  /** The first mkdir to fail ends the run: its errno is returned with a minus, the prefixes before
      it exist, and nothing else was made. A stat that fails makes the run pass over its prefix
      instead, but for "no such file": then a directory that is there after all counts as an
      error. */
  lemma FirstFault(t: Tree, path: string, text: string, i: nat, faults: nat -> Fault) returns (t': Tree)
    requires t.Valid() && path != "" && text == Slashed(path) && Clear(t, text) && SlashAt(text, i)
    requires NoFaultsBelow(faults, i)
    ensures Extends(t, t') && t'.dirs <= t.dirs + Prefixes(t, text, i) && OnTrack(t', text, i)
    ensures faults(i).stat == 0 && faults(i).mkdir != 0 && !IsDir(t', text[..i]) ==>
              Make(t, path, faults) == (-(faults(i).mkdir as int), t')
    ensures faults(i) == Fault(2, 0) && IsDir(t', text[..i]) ==> Make(t, path, faults) == (-17, t')
    ensures faults(i).stat != 0 && faults(i).stat != 2 ==>
              Make(t, path, faults) == MakeFrom(t', text, i + 1, faults)
  {
    StartsOnTrack(t, text);
    t' := RunUpTo(t, text, 0, i, faults);
    FaultEnds(t', text, i, faults);
    assert Make(t, path, faults) == MakeFrom(t, text, 0, faults);
  }

  /** A prefix that names a regular file is no directory, whatever else is made. */
  lemma FileIsNoDir(t: Tree, path: string)
    requires t.Valid() && Named(t, path) in t.files
    ensures !IsDir(t, path)
  {
    ReadsNamed(t, Origin(t, path), path);
  }

  lemma DirIsNamed(t: Tree, path: string)
    requires t.Valid() && IsDir(t, path)
    ensures Named(t, path) in t.dirs
  {
    ReadsNamed(t, Origin(t, path), path);
  }

  lemma NamedAreDirs(t: Tree, text: string)
    requires t.Valid() && AllDirs(t, text)
    ensures Prefixes(t, text, |text|) <= t.dirs
  {
    forall k | SlashAt(text, k) ensures Named(t, text[..k]) in t.dirs {
      DirIsNamed(t, text[..k]);
    }
  }

  /** MkDirs returns 0 on every tree unless mkdir fails for outside reasons, keeps all that
      was there and adds nothing but named prefixes. Its 0 means that every prefix is a
      directory exactly when no prefix names a regular file. */
  lemma MakesDirectoriesIff(t: Tree, path: string, faults: nat -> Fault)
    requires t.Valid() && path != "" && NoFaults(faults)
    ensures var (ret, t') := Make(t, path, faults);
            && ret == 0 && Extends(t, t')
            && t'.dirs <= t.dirs + Prefixes(t, Slashed(path), |Slashed(path)|)
            && (AllDirs(t', Slashed(path)) <==> Clear(t, Slashed(path)))
            && (Clear(t, Slashed(path)) ==> t'.dirs == t.dirs + Prefixes(t, Slashed(path), |Slashed(path)|))
  {
    var text := Slashed(path);
    RestReturnsZero(t, text, 0, faults);
    var t' := Make(t, path, faults).1;
    if Clear(t, text) {
      RestMakesAll(t, text, 0, faults, t');
      NamedAreDirs(t', text);
      SamePrefixes(t, t', text, |text|);
    } else {
      var k :| SlashAt(text, k) && Named(t, text[..k]) in t.files;
      assert Origin(t', text[..k]) == Origin(t, text[..k]);
      FileIsNoDir(t', text[..k]);
    }
  }

  const FILE_TREE := Tree({[]}, {["a"]}, [])

  /** The two prefixes of `a/b/` name the file itself and something that would lie in it. */
  lemma NamedInFile(k: nat)
    requires k == 1 || k == 3
    ensures Named(FILE_TREE, "a/b/"[..k]) == if k == 1 then ["a"] else ["a", "b"]
  {
    var text := "a/b/";
    assert text[..1] == "a" && text[..2] == "a/" && text[..3] == "a/b";
    assert "a"[..0] == "" && "a/"[..1] == "a" && "a/b"[..2] == "a/";
    assert "" + ['a'] == "a" && "" + ['b'] == "b" && ["a"] + ["b"] == ["a", "b"];
    assert Enter([], "a") == ["a"];
    assert Trace([], "a") == ([], "a");
    assert Trace([], "a/") == (["a"], "");
    assert Trace([], "a/b") == (["a"], "b");
  }

  lemma PrefixesInFile()
    ensures Prefixes(FILE_TREE, "a/b/", 4) <= {["a"], ["a", "b"]}
  {
    forall k | 0 < k < 4 && SlashAt("a/b/", k) ensures Named(FILE_TREE, "a/b/"[..k]) in {["a"], ["a", "b"]} {
      assert "a/b/"[2] == 'b' && (k == 1 || k == 3);
      NamedInFile(k);
    }
  }

  /** No directory can be made at or below the file. */
  lemma NothingMade(t': Tree)
    requires Extends(FILE_TREE, t') && t'.dirs <= FILE_TREE.dirs + Prefixes(FILE_TREE, "a/b/", 4)
    ensures t' == FILE_TREE
  {
    PrefixesInFile();
    assert ["a", "b"][..1] == ["a"] && ["a"] in t'.files;
    assert ["a"] !in t'.dirs && ["a", "b"] !in t'.dirs;
    assert t'.dirs == {[]};
  }

  /** So 0 can be returned with nothing made: `a` is a file and the path is `a/b`. */
  lemma ZeroWithoutDirectory(faults: nat -> Fault)
    requires NoFaults(faults)
    ensures var (ret, t') := Make(FILE_TREE, "a/b", faults);
            ret == 0 && t' == FILE_TREE && !AllDirs(t', Slashed("a/b"))
  {
    assert Slashed("a/b") == "a/b/" && SlashAt("a/b/", 1);
    assert FILE_TREE.Valid();
    NamedInFile(1);
    MakesDirectoriesIff(FILE_TREE, "a/b", faults);
    NothingMade(Make(FILE_TREE, "a/b", faults).1);
  }
}
