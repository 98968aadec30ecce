/** The level machine of a logger over every run of one thread, whatever the system answers. */
module Levels {
  import opened Bytes
  import opened LogSpec
  import opened LogRuns

  lemma PrepareSettings(s: Log, env: Env)
    ensures var r := Prepare(s, env).0; r.level == s.level && r.spin == s.spin && r.path == s.path
  {}

  lemma SettleSettings(s: Log, idx: nat, ret: int, env: Env)
    ensures var r := Settle(s, idx, ret, env); r.level == s.level && r.spin == s.spin && r.path == s.path
  {}

  /** An append never changes the level, and on a named logger always uses up the spin level. */
  lemma AppendSettings(idx: nat, s: Log, level: nat, line: bytes, env: Env)
    ensures var r := Append(idx, s, level, line, env).log;
            && r.level == s.level && r.path == s.path
            && (s.path != "" ==> r.spin == UNCHANGE)
  {
    var decided := Decide(s, level).0;
    PrepareSettings(decided, env);
    var (wrote, ret) := WriteLine(Prepare(decided, env).0, NextIdx(idx), line, env.puts);
    SettleSettings(wrote, NextIdx(idx), ret, env);
  }

  lemma RawSettings(idx: nat, s: Log, level: nat, msg: bytes, puts: Puts)
    ensures var r := AppendRaw(idx, s, level, msg, puts).log;
            && r.level == s.level && r.path == s.path
            && (s.path != "" ==> r.spin == UNCHANGE)
  {}

  predicate IsAppend(e: Event) {
    e.Line? || e.Raw?
  }

  lemma AfterSettings(w: World, e: Event)
    ensures var r := After(w, e).log;
            && r.path == w.log.path
            && r.level == (match e
                           case Level(level) => if level <= MAX_LEVEL then level else w.log.level
                           case Toggle => if w.log.level >= MAX_LEVEL then MIN_LEVEL else w.log.level + 1
                           case _ => w.log.level)
            && r.spin == (if IsAppend(e) then if w.log.path == "" then w.log.spin else UNCHANGE
                          else if e.Spin? && e.spin != UNCHANGE then e.spin
                          else w.log.spin)
  {
    match e
    case Line(level, line, env) => AppendSettings(w.idx, w.log, level, line, env);
    case Raw(level, msg, puts) => RawSettings(w.idx, w.log, level, msg, puts);
    case _ =>
  }

  /** The level stays between Min and Max. */
  lemma {:induction false} LevelInRange(w: World, events: seq<Event>)
    requires w.log.level <= MAX_LEVEL
    ensures MIN_LEVEL <= Play(w, events).log.level <= MAX_LEVEL
    decreases events
  {
    if events != [] {
      AfterSettings(w, events[0]);
      LevelInRange(After(w, events[0]), events[1..]);
    }
  }

  function Toggles(events: seq<Event>): nat
    decreases events
  {
    if events == [] then 0 else (if events[0].Toggle? then 1 else 0) + Toggles(events[1..])
  }

  predicate NoLevel(events: seq<Event>) {
    forall i :: 0 <= i < |events| ==> !events[i].Level?
  }

  predicate NoSpin(events: seq<Event>) {
    forall i :: 0 <= i < |events| ==> !events[i].Spin?
  }

  predicate NoAppend(events: seq<Event>) {
    forall i :: 0 <= i < |events| ==> !IsAppend(events[i])
  }

  /** Among any other calls, n toggles move the level on by n modulo the eight levels. */
  lemma {:induction false} TogglesCycle(w: World, events: seq<Event>)
    requires w.log.level <= MAX_LEVEL && NoLevel(events)
    ensures Play(w, events).log.level == (w.log.level + Toggles(events)) % (MAX_LEVEL + 1)
    decreases events
  {
    if events != [] {
      AfterSettings(w, events[0]);
      TogglesCycle(After(w, events[0]), events[1..]);
    }
  }

  lemma {:induction false} SpinWaits(w: World, events: seq<Event>)
    requires NoSpin(events) && (NoAppend(events) || w.log.spin == UNCHANGE)
    ensures Play(w, events).log.spin == w.log.spin && Play(w, events).log.path == w.log.path
    decreases events
  {
    if events != [] {
      AfterSettings(w, events[0]);
      SpinWaits(After(w, events[0]), events[1..]);
    }
  }

  /** An append has nowhere to put its line: no output is set, or the file alone and it is not
      open, nor can the five-argument append open it. */
  predicate NoOutput(s: Log, e: Event)
    requires IsAppend(e)
  {
    !s.cout && (!s.file || (!s.open && (e.Raw? || e.env.open.Failed?)))
  }

  /** Who decides an append: the pending spin level if there is one, else its own level. It emits
      exactly when that is at most the logger's level and there is an output, and with that
      level; filtered, it only uses up the spin level. */
  lemma EmittedLevel(w: World, e: Event)
    requires IsAppend(e) && w.log.path != ""
    ensures var decisive := if w.log.spin != UNCHANGE then w.log.spin else e.level;
            && Emitted(w, e) == (if decisive > w.log.level || NoOutput(w.log, e) then None else Some(decisive))
            && (decisive > w.log.level ==> After(w, e) == w.(log := w.log.(spin := UNCHANGE)))
  {
    if e.Line? {
      LineLevel(w.idx, w.log, e.level, e.line, e.env);
    }
  }

  lemma LineLevel(idx: nat, s: Log, level: nat, line: bytes, env: Env)
    requires s.path != ""
    ensures var a := Append(idx, s, level, line, env);
            var decisive := if s.spin != UNCHANGE then s.spin else level;
            && (decisive > s.level ==> a.emitted == None && a.idx == idx && a.log == s.(spin := UNCHANGE))
            && (decisive <= s.level ==>
                  a.emitted == if NoOutput(s, Line(level, line, env)) then None else Some(decisive))
  {
    var decided := Decide(s, level).0;
    assert s.file && !s.open ==> (Reset(decided, false, env.open).1 < 0 <==> env.open.Failed?);
  }

  /** A spin level decides the first append after it was set, emitted or filtered, whatever
      else was called in between, and no later one. */
  lemma SpinDecidesOnce(w: World, spin: nat, between: seq<Event>, first: Event, later: seq<Event>, second: Event)
    requires w.log.path != "" && spin != UNCHANGE && IsAppend(first) && IsAppend(second)
    requires NoSpin(between) && NoAppend(between) && NoSpin(later)
    ensures var w1 := Play(After(w, Spin(spin)), between);
            var w2 := Play(After(w1, first), later);
            && Emitted(w1, first) == (if spin > w1.log.level || NoOutput(w1.log, first) then None else Some(spin))
            && (spin > w1.log.level ==> After(w1, first) == w1.(log := w1.log.(spin := UNCHANGE)))
            && Emitted(w2, second) == (if second.level > w2.log.level || NoOutput(w2.log, second) then None
                                       else Some(second.level))
  {
    var w0 := After(w, Spin(spin));
    AfterSettings(w, Spin(spin));
    SpinWaits(w0, between);
    var w1 := Play(w0, between);
    EmittedLevel(w1, first);
    AfterSettings(w1, first);
    SpinWaits(After(w1, first), later);
    EmittedLevel(Play(After(w1, first), later), second);
  }

  /** Every label printed in a run is at most the level the logger had at that moment. */
  ghost predicate LabelsVisible(w: World, events: seq<Event>)
    decreases events
  {
    events != [] ==>
      && (Emitted(w, events[0]).Some? ==> Emitted(w, events[0]).value <= w.log.level <= MAX_LEVEL)
      && LabelsVisible(After(w, events[0]), events[1..])
  }

  lemma {:induction false} EveryLabelVisible(w: World, events: seq<Event>)
    requires w.log.path != "" && w.log.level <= MAX_LEVEL
    ensures LabelsVisible(w, events)
    decreases events
  {
    if events != [] {
      AfterSettings(w, events[0]);
      if IsAppend(events[0]) {
        EmittedLevel(w, events[0]);
      }
      EveryLabelVisible(After(w, events[0]), events[1..]);
    }
  }
}
