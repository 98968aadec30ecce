/** The process-wide map from paths to loggers. */
module RegistrySpec {

  /** The default path and the loggers by path. */
  datatype Reg<T> = Reg(defaultFile: string, instances: map<string, T>)

  datatype Call<T> = Get(path: string, made: T) | Release(path: string) | SetDefault(path: string)

  function Key<T>(r: Reg<T>, path: string): string {
    if path == "" then r.defaultFile else path
  }

  /** What getLogger returns; `made` is the logger it would create. */
  function Found<T>(r: Reg<T>, path: string, made: T): T {
    if Key(r, path) in r.instances then r.instances[Key(r, path)] else made
  }

  function Apply<T>(r: Reg<T>, c: Call<T>): Reg<T> {
    match c
    case Get(path, made) => r.(instances := r.instances[Key(r, path) := Found(r, path, made)])
    case Release(path) => r.(instances := r.instances - {path})
    case SetDefault(path) => if path == "" then r else r.(defaultFile := path)
  }

  function ApplyAll<T>(r: Reg<T>, calls: seq<Call<T>>): Reg<T>
    decreases calls
  {
    if calls == [] then r else ApplyAll(Apply(r, calls[0]), calls[1..])
  }

  ghost predicate Releases<T>(calls: seq<Call<T>>, path: string) {
    exists i :: 0 <= i < |calls| && calls[i] == Release(path)
  }

  /** Until it is released, a path keeps its logger through any calls for any paths. */
  lemma {:induction false} StaysRegistered<T>(r: Reg<T>, calls: seq<Call<T>>, path: string)
    requires path in r.instances && !Releases(calls, path)
    ensures var q := ApplyAll(r, calls); path in q.instances && q.instances[path] == r.instances[path]
    decreases calls
  {
    if calls != [] {
      assert calls[0] != Release(path);
      assert forall i :: 0 <= i < |calls[1..]| ==> calls[1..][i] == calls[i + 1];
      StaysRegistered(Apply(r, calls[0]), calls[1..], path);
    }
  }

  /** Two calls for one path return the same object unless it was released in between, also
      when the default path is set anew; after a release the second call makes a new one. */
  lemma SameLogger<T>(r: Reg<T>, path: string, made: T, calls: seq<Call<T>>, remade: T)
    requires path != ""
    ensures var q := ApplyAll(Apply(r, Get(path, made)), calls);
            !Releases(calls, path) ==> Found(q, path, remade) == Found(r, path, made)
    ensures Found(Apply(ApplyAll(r, calls), Release(path)), path, remade) == remade
  {
    if !Releases(calls, path) {
      StaysRegistered(Apply(r, Get(path, made)), calls, path);
    }
  }

  ghost predicate SetsDefault<T>(calls: seq<Call<T>>) {
    exists i :: 0 <= i < |calls| && calls[i].SetDefault?
  }

  lemma {:induction false} DefaultStays<T>(r: Reg<T>, calls: seq<Call<T>>)
    requires !SetsDefault(calls)
    ensures ApplyAll(r, calls).defaultFile == r.defaultFile
    decreases calls
  {
    if calls != [] {
      assert !calls[0].SetDefault?;
      assert forall i :: 0 <= i < |calls[1..]| ==> calls[1..][i] == calls[i + 1];
      DefaultStays(Apply(r, calls[0]), calls[1..]);
    }
  }

  /** A default path, once set, is the one the unnamed call uses until another is set: it finds
      that path's logger, or makes one for it. Setting an empty one changes nothing. */
  lemma DefaultDecides<T>(r: Reg<T>, path: string, calls: seq<Call<T>>, made: T)
    requires path != "" && !SetsDefault(calls)
    ensures var q := ApplyAll(Apply(r, SetDefault(path)), calls);
            && Found(q, "", made) == (if path in q.instances then q.instances[path] else made)
            && Apply(q, Get("", made)).instances == q.instances[path := Found(q, "", made)]
    ensures Apply(r, SetDefault(path)).instances == r.instances && Apply(r, SetDefault("")) == r
  {
    DefaultStays(Apply(r, SetDefault(path)), calls);
  }

  /** The unnamed call is the call for the default path of that moment. */
  lemma DefaultLogger<T>(r: Reg<T>, made: T, calls: seq<Call<T>>, remade: T)
    requires r.defaultFile != "" && !Releases(calls, r.defaultFile)
    ensures var q := ApplyAll(Apply(r, Get("", made)), calls);
            Found(q, r.defaultFile, remade) == Found(r, "", made)
  {
    StaysRegistered(Apply(r, Get("", made)), calls, r.defaultFile);
  }
}

module Registry {
  import opened LogSpec
  import opened RegistrySpec
  import L = Logger

  class Registry {
    const emptyLogger: L.Logger
    var defaultFile: string
    var instances: map<string, L.Logger>

    ghost function State(): Reg<L.Logger>
      reads this
    {
      Reg(defaultFile, instances)
    }

    /** Every entry's logger has its key as path, and no key is the sentinel's empty path. */
    ghost predicate Valid()
      reads this
    {
      && defaultFile != "" && emptyLogger.path == ""
      && forall p :: p in instances ==> p != "" && instances[p].path == p
    }

    constructor (emptyLogger: L.Logger)
      requires emptyLogger.path == ""
      ensures Valid() && State() == Reg("logger.log", map[]) && this.emptyLogger == emptyLogger
    {
      this.emptyLogger := emptyLogger;
      defaultFile, instances := "logger.log", map[];
    }

    method SetDefaultLogger(path: string)
      requires Valid()
      modifies `defaultFile
      ensures Valid() && State() == Apply(old(State()), SetDefault(path))
    {
      if path != "" {
        defaultFile := path;
      }
    }

    /** The sentinel stands for "no such logger", and for nothing else. */
    method HasLogger(file: string) returns (l: L.Logger)
      requires Valid()
      ensures file in instances ==> l == instances[file]
      ensures file !in instances <==> l == emptyLogger
    {
      if file !in instances {
        return emptyLogger;
      }
      return instances[file];
    }

    /** `disk` holds the files of the path, should the logger have to be created. */
    method GetLogger(spin: nat, path: string, cout: bool, file: bool, disk: L.Disk, env: Env) returns (l: L.Logger)
      requires Valid()
      modifies `instances, instances.Values, disk
      ensures Valid() && l != emptyLogger && l.path == Key(old(State()), path)
      ensures State() == Apply(old(State()), Get(path, l)) && l == Found(old(State()), path, l)
      ensures Key(old(State()), path) !in old(instances) ==> fresh(l) && l.disk == disk
      ensures var key := Key(old(State()), path);
              if key in old(instances) then
                l.Value() == Configure(old(instances[key].Value()), spin, cout, file)
              else
                l.Value() == Configure(Log(key, NOTE, UNCHANGE, cout || !file, file, DEFAULT_LOG_SIZE, false, [],
                                           old(disk.live), old(disk.archive)), spin, cout, file)
      ensures forall k :: k in old(instances) && old(instances[k]) != l ==> unchanged(old(instances[k]))
      ensures disk.live == old(disk.live) && disk.archive == old(disk.archive)
    {
      var key := if path == "" then defaultFile else path;
      l := HasLogger(key);
      if l != emptyLogger {
        l.Configure(spin, cout, file);
        assert instances[key := l] == instances;
        return;
      }
      l := new L.Logger(key, cout, file, -1, false, disk, env);
      assert l.Value().live == old(disk.live);
      instances := instances[key := l];
      l.Configure(spin, cout, file);
    }

    method ReleaseLogger(file: string)
      requires Valid()
      modifies `instances
      ensures Valid() && State() == Apply(old(State()), Release(file))
    {
      instances := instances - {file};
    }
  }
}
