/**
  The callback that the Python profiler installs: it filters call and return events by function and
  file names, keeps a stack of records for the regions it has opened, and skips the whole subtree
  of an excluded function by counting nested calls.
 */
module PythonProfiler {

  datatype What = Call | CCall | Return | CReturn | Unsupported

  /** The frame an event belongs to, by function name and full file name. For events of C functions
      it is the frame of the caller. */
  datatype Frame = Frame(func: string, full: string)

  datatype Event = Event(what: What, frame: Frame)

  /** What the profiler passes on: regions pushed and popped. */
  datatype Region = Push(name: string) | Pop(name: string)

  /** The settings that do not change while events arrive. Patterns are matched by `search`. */
  datatype Settings = Settings(
    traceC: bool,
    restrictFunctions: set<string>, includeFunctions: set<string>, excludeFunctions: set<string>,
    defaultExcludeFunctions: set<string>,
    restrictFilenames: set<string>, includeFilenames: set<string>, excludeFilenames: set<string>,
    includeInternal: bool, basePath: string,
    search: (string, string) -> bool, labelOf: Frame -> string)
  {
    predicate FindMatching(patterns: set<string>, name: string) {
      exists p :: p in patterns && search(p, name)
    }

    predicate Internal(full: string) {
      basePath <= full
    }
  }

  /** What the filters decide about a frame: trace it, pass over the event, or pass over it and count it, so that
      everything below is passed over as well. */
  datatype Verdict = Accept | Skip | Exclude

  function Classify(s: Settings, f: Frame): Verdict {
    if s.restrictFunctions != {} && !s.FindMatching(s.restrictFunctions, f.func) then Skip
    else
      var restricted := s.restrictFunctions != {};
      var included := !restricted && s.FindMatching(s.includeFunctions, f.func);
      if !restricted && !included && s.FindMatching(s.excludeFunctions, f.func) then
        (if s.FindMatching(s.defaultExcludeFunctions, f.func) then Skip else Exclude)
      else if !s.includeInternal && s.Internal(f.full) then Skip
      else ClassifyFile(s, f, restricted || included)
  }

  /** The file filters, which a function that was asked for passes unseen. */
  function ClassifyFile(s: Settings, f: Frame, force: bool): Verdict {
    if !force && s.restrictFilenames != {} && !s.FindMatching(s.restrictFilenames, f.full) then Skip
    else if !force && s.restrictFilenames == {} && !s.FindMatching(s.includeFilenames, f.full)
            && s.FindMatching(s.excludeFilenames, f.full) then Skip
    else if s.labelOf(f) == "" then Skip
    else Accept
  }

  // ----- the three fates of a frame, read off the sets of patterns -----

  /** The function was asked for by name: it is among the only ones wanted, or among those included. */
  predicate AskedFor(s: Settings, f: Frame) {
    s.FindMatching(if s.restrictFunctions != {} then s.restrictFunctions else s.includeFunctions, f.func)
  }

  /** The file filters would let it pass. */
  predicate FileWanted(s: Settings, full: string) {
    if s.restrictFilenames != {} then s.FindMatching(s.restrictFilenames, full)
    else s.FindMatching(s.includeFilenames, full) || !s.FindMatching(s.excludeFilenames, full)
  }

  predicate OpensRegion(s: Settings, f: Frame) {
    && (AskedFor(s, f) || (s.restrictFunctions == {} && !s.FindMatching(s.excludeFunctions, f.func)))
    && (AskedFor(s, f) || FileWanted(s, f.full))
    && (s.includeInternal || !(s.basePath <= f.full))
    && s.labelOf(f) != ""
  }

  /** Excluded by the user: not by default, and not asked for. */
  predicate HidesSubtree(s: Settings, f: Frame) {
    && s.restrictFunctions == {} && !AskedFor(s, f)
    && s.FindMatching(s.excludeFunctions, f.func) && !s.FindMatching(s.defaultExcludeFunctions, f.func)
  }

  predicate PassedOver(s: Settings, f: Frame) {
    || (s.restrictFunctions != {} && !s.FindMatching(s.restrictFunctions, f.func))
    || (!AskedFor(s, f) && s.FindMatching(s.excludeFunctions, f.func)
        && s.FindMatching(s.defaultExcludeFunctions, f.func))
    || (!HidesSubtree(s, f) && !s.includeInternal && s.basePath <= f.full)
    || (!HidesSubtree(s, f) && !AskedFor(s, f) && !FileWanted(s, f.full))
    || (!HidesSubtree(s, f) && s.labelOf(f) == "")
  }

  /** Every frame has exactly one of them, and the filters find it. */
  lemma FiltersAreExact(s: Settings, f: Frame)
    ensures Classify(s, f) == Accept <==> OpensRegion(s, f)
    ensures Classify(s, f) == Exclude <==> HidesSubtree(s, f)
    ensures Classify(s, f) == Skip <==> PassedOver(s, f)
  {
    hide Settings.FindMatching;
  }

  /** The mutable part of the configuration, and the regions passed on so far. */
  datatype State = State(records: seq<string>, depth: int, out: seq<Region>)

  function CountIgnored(st: State, what: What): State {
    match what
    case Call => st.(depth := st.depth + 1)
    case Return => st.(depth := st.depth - 1)
    case _ => st
  }

  /** The effect of one event. */
  function Apply(s: Settings, st: State, e: Event): State {
    if e.what == Unsupported then st
    else if st.depth > 0 then CountIgnored(st, e.what)
    else if !s.traceC && e.what in {CCall, CReturn} then st
    else
      match Classify(s, e.frame)
      case Skip => st
      case Exclude => CountIgnored(st, e.what)
      case Accept =>
        if e.what in {Call, CCall} then
          st.(records := st.records + [s.labelOf(e.frame)], out := st.out + [Push(s.labelOf(e.frame))])
        else if st.records == [] then st
        else
          var last := st.records[|st.records| - 1];
          st.(records := st.records[..|st.records| - 1], out := st.out + [Pop(last)])
  }

  /** The configuration object that the callback updates event by event. */
  class Profiler {
    const settings: Settings
    var records: seq<string>
    var ignoreStackDepth: int
    var out: seq<Region>

    constructor (s: Settings)
      ensures settings == s && View() == State([], 0, [])
    {
      settings := s;
      records, ignoreStackDepth, out := [], 0, [];
    }

    function View(): State
      reads this
    {
      State(records, ignoreStackDepth, out)
    }

    method UpdateIgnoreStackDepth(what: What)
      modifies this`ignoreStackDepth
      ensures View() == CountIgnored(old(View()), what)
    {
      match what
      case Call => ignoreStackDepth := ignoreStackDepth + 1;
      case Return => ignoreStackDepth := ignoreStackDepth - 1;
      case _ =>
    }

    method FindMatching(patterns: set<string>, name: string) returns (found: bool)
      ensures found == settings.FindMatching(patterns, name)
    {
      var rest := patterns;
      while rest != {}
        invariant rest <= patterns
        invariant forall p :: p in patterns && p !in rest ==> !settings.search(p, name)
        decreases rest
      {
        var p :| p in rest;
        if settings.search(p, name) {
          return true;
        }
        rest := rest - {p};
      }
      return false;
    }

    /** `profiler_function`. */
    method ProfilerFunction(e: Event)
      modifies this
      ensures View() == Apply(settings, old(View()), e)
    {
      if e.what == Unsupported {
        return;
      }
      if ignoreStackDepth > 0 {
        UpdateIgnoreStackDepth(e.what);
        return;
      }
      if !settings.traceC && (e.what == CCall || e.what == CReturn) {
        return;
      }
      var force := false;
      if settings.restrictFunctions != {} {
        force := FindMatching(settings.restrictFunctions, e.frame.func);
        if !force {
          return;
        }
      }
      if !force {
        var included := FindMatching(settings.includeFunctions, e.frame.func);
        if included {
          force := true;
        } else {
          var excluded := FindMatching(settings.excludeFunctions, e.frame.func);
          if excluded {
            var byDefault := FindMatching(settings.defaultExcludeFunctions, e.frame.func);
            if !byDefault {
              UpdateIgnoreStackDepth(e.what);
            }
            return;
          }
        }
      }
      if !settings.includeInternal && settings.Internal(e.frame.full) {
        return;
      }
      if !force && settings.restrictFilenames != {} {
        force := FindMatching(settings.restrictFilenames, e.frame.full);
        if !force {
          return;
        }
      }
      if !force {
        var included := FindMatching(settings.includeFilenames, e.frame.full);
        if included {
          force := true;
        } else {
          var excluded := FindMatching(settings.excludeFilenames, e.frame.full);
          if excluded {
            return;
          }
        }
      }
      var name := settings.labelOf(e.frame);
      if name == "" {
        return;
      }
      match e.what
      case Call => ProfilerCall(name);
      case CCall => ProfilerCall(name);
      case Return => ProfilerReturn();
      case CReturn => ProfilerReturn();
      case Unsupported =>
    }

    method ProfilerCall(name: string)
      modifies this`records, this`out
      ensures records == old(records) + [name] && out == old(out) + [Push(name)]
    {
      records := records + [name];
      out := out + [Push(name)];
    }

    method ProfilerReturn()
      modifies this`records, this`out
      ensures old(records) == [] ==> records == old(records) && out == old(out)
      ensures old(records) != [] ==> old(records) == records + [old(records)[|old(records)| - 1]]
      ensures old(records) != [] ==> out == old(out) + [Pop(old(records)[|old(records)| - 1])]
    {
      if records != [] {
        out := out + [Pop(records[|records| - 1])];
        records := records[..|records| - 1];
      }
    }
  }

  // ----- what a trace of calls and returns means -----

  /** The calls made one after another at one level, each with the calls made inside it. */
  datatype Calls = None | Then(native: bool, frame: Frame, inner: Calls, later: Calls)

  function CallOf(native: bool, frame: Frame): Event { Event(if native then CCall else Call, frame) }

  function ReturnOf(native: bool, frame: Frame): Event { Event(if native then CReturn else Return, frame) }

  /** The events of properly nested calls. */
  function Trace(c: Calls): seq<Event> {
    match c
    case None => []
    case Then(native, frame, inner, later) =>
      [CallOf(native, frame)] + Trace(inner) + [ReturnOf(native, frame)] + Trace(later)
  }

  function Run(s: Settings, st: State, events: seq<Event>): State
    decreases |events|
  {
    if events == [] then st else Run(s, Apply(s, st, events[0]), events[1..])
  }

  lemma {:induction false} RunAppend(s: Settings, st: State, a: seq<Event>, b: seq<Event>)
    ensures Run(s, st, a + b) == Run(s, Run(s, st, a), b)
    decreases |a|
  {
    if a == [] {
      assert a + b == b;
    } else {
      assert (a + b)[1..] == a[1..] + b;
      RunAppend(s, Apply(s, st, a[0]), a[1..], b);
    }
  }

  /** A call of a C function counts as passed over when C functions are not traced. */
  function Decide(s: Settings, native: bool, frame: Frame): Verdict {
    if native && !s.traceC then Skip
    else if native && Classify(s, frame) == Exclude then Skip
    else Classify(s, frame)
  }

  /** The regions of properly nested calls: an accepted call opens a region around those of its inner calls, a call
      passed over leaves only those of its inner calls, an excluded function leaves nothing at all. */
  function Regions(s: Settings, c: Calls): seq<Region> {
    match c
    case None => []
    case Then(native, frame, inner, later) =>
      (match Decide(s, native, frame)
       case Accept => [Push(s.labelOf(frame))] + Regions(s, inner) + [Pop(s.labelOf(frame))]
       case Skip => Regions(s, inner)
       case Exclude => []) + Regions(s, later)
  }

  /** While an excluded function is open, nested calls come and go without a trace. */
  lemma {:induction false} IgnoredCalls(s: Settings, st: State, c: Calls)
    requires st.depth > 0
    ensures Run(s, st, Trace(c)) == st
    decreases c
  {
    match c
    case None =>
    case Then(native, frame, inner, later) =>
      var inside := Apply(s, st, CallOf(native, frame));
      RunOfThen(s, st, native, frame, inner, later);
      IgnoredCalls(s, inside, inner);
      IgnoredCalls(s, st, later);
  }

  lemma RunOne(s: Settings, st: State, e: Event)
    ensures Run(s, st, [e]) == Apply(s, st, e)
  {
    assert Run(s, Apply(s, st, e), [e][1..]) == Apply(s, st, e);
  }

  /** The events of one call: its call, the inner ones, its return. */
  lemma RunCall(s: Settings, st: State, call: Event, inner: seq<Event>, ret: Event, later: seq<Event>)
    ensures Run(s, st, [call] + inner + [ret] + later) ==
            Run(s, Apply(s, Run(s, Apply(s, st, call), inner), ret), later)
  {
    RunAppend(s, st, [call] + inner + [ret], later);
    RunAppend(s, st, [call] + inner, [ret]);
    RunAppend(s, st, [call], inner);
    RunOne(s, st, call);
    RunOne(s, Run(s, Apply(s, st, call), inner), ret);
  }

  lemma RunOfThen(s: Settings, st: State, native: bool, frame: Frame, inner: Calls, later: Calls)
    ensures Run(s, st, Trace(Then(native, frame, inner, later))) ==
            Run(s, Apply(s, Run(s, Apply(s, st, CallOf(native, frame)), Trace(inner)), ReturnOf(native, frame)),
                Trace(later))
  {
    RunCall(s, st, CallOf(native, frame), Trace(inner), ReturnOf(native, frame), Trace(later));
  }

  // ----- the regions are themselves properly nested -----

  /** The open regions after replaying pushes and pops; a pop must match the innermost open region. */
  function Replay(open: seq<string>, rs: seq<Region>): (r: (bool, seq<string>))
    decreases |rs|
  {
    if rs == [] then (true, open)
    else
      match rs[0]
      case Push(n) => Replay(open + [n], rs[1..])
      case Pop(n) =>
        if open != [] && open[|open| - 1] == n then Replay(open[..|open| - 1], rs[1..]) else (false, open)
  }

  lemma {:induction false} ReplayAppend(open: seq<string>, a: seq<Region>, b: seq<Region>)
    requires Replay(open, a).0
    ensures Replay(open, a + b) == Replay(Replay(open, a).1, b)
    decreases |a|
  {
    if a == [] {
      assert a + b == b;
    } else {
      assert (a + b)[1..] == a[1..] + b;
      match a[0]
      case Push(n) => ReplayAppend(open + [n], a[1..], b);
      case Pop(n) => ReplayAppend(open[..|open| - 1], a[1..], b);
    }
  }

  /** Every region opened is closed again, innermost first, whatever was open before. */
  lemma {:induction false} RegionsAreNested(s: Settings, c: Calls, open: seq<string>)
    ensures Replay(open, Regions(s, c)) == (true, open)
  {
    hide Decide;
    match c
    case None =>
    case Then(native, frame, inner, later) =>
      RegionsAreNested(s, inner, open);
      RegionsAreNested(s, later, open);
      var n := s.labelOf(frame);
      var body := Regions(s, inner);
      if Decide(s, native, frame) == Accept {
        RegionsAreNested(s, inner, open + [n]);
        ReplayAppend(open + [n], body, [Pop(n)]);
        assert ([Push(n)] + body + [Pop(n)])[1..] == body + [Pop(n)];
        ReplayPop(open, n);
        ReplayAppend(open, [Push(n)] + body + [Pop(n)], Regions(s, later));
      } else if Decide(s, native, frame) == Skip {
        ReplayAppend(open, body, Regions(s, later));
      } else {
        assert [] + Regions(s, later) == Regions(s, later);
      }
  }

  lemma ReplayPop(open: seq<string>, n: string)
    ensures Replay(open + [n], [Pop(n)]) == (true, open)
  {
    assert (open + [n])[..|open|] == open;
  }

  // ----- profiling that starts inside open calls -----

  /** Properly nested calls as they are seen with `d` excluded functions returned from that were never seen being
      called: the first `d` nested levels of exclusion no longer hide what is inside them. */
  function RegionsOwing(s: Settings, d: nat, c: Calls): seq<Region>
    decreases c, 0
  {
    match c
    case None => []
    case Then(native, frame, inner, later) => CallOwing(s, d, native, frame, inner) + RegionsOwing(s, d, later)
  }

  /** What one call of a sequence contributes. */
  function CallOwing(s: Settings, d: nat, native: bool, frame: Frame, inner: Calls): seq<Region>
    decreases inner, 1
  {
    match Decide(s, native, frame)
    case Accept => [Push(s.labelOf(frame))] + RegionsOwing(s, d, inner) + [Pop(s.labelOf(frame))]
    case Skip => RegionsOwing(s, d, inner)
    case Exclude => if d == 0 then [] else RegionsOwing(s, d - 1, inner)
  }

  lemma {:induction false} OwingNothing(s: Settings, c: Calls)
    ensures RegionsOwing(s, 0, c) == Regions(s, c)
    decreases c
  {
    match c
    case None =>
    case Then(native, frame, inner, later) =>
      OwingNothing(s, inner);
      OwingNothing(s, later);
  }

  lemma AcceptedCall(s: Settings, st: State, native: bool, frame: Frame, body: seq<Region>)
    requires st.depth <= 0 && Decide(s, native, frame) == Accept
    ensures var inside := Apply(s, st, CallOf(native, frame));
            && inside.depth == st.depth
            && Apply(s, inside.(out := inside.out + body), ReturnOf(native, frame))
               == st.(out := st.out + ([Push(s.labelOf(frame))] + body + [Pop(s.labelOf(frame))]))
  {
    hide Classify;
    var n := s.labelOf(frame);
    assert (st.records + [n])[..|st.records|] == st.records;
    assert st.out + [Push(n)] + body + [Pop(n)] == st.out + ([Push(n)] + body + [Pop(n)]);
  }

  lemma SkippedCall(s: Settings, st: State, native: bool, frame: Frame)
    requires st.depth <= 0 && Decide(s, native, frame) == Skip
    ensures Apply(s, st, CallOf(native, frame)) == Apply(s, st, ReturnOf(native, frame)) == st
  {
    hide Classify;
  }

  lemma ExcludedCall(s: Settings, st: State, native: bool, frame: Frame, body: seq<Region>)
    requires st.depth <= 0 && Decide(s, native, frame) == Exclude
    ensures var inside := Apply(s, st, CallOf(native, frame));
            && inside == st.(depth := st.depth + 1)
            && Apply(s, inside.(out := inside.out + body), ReturnOf(native, frame)) == st.(out := st.out + body)
  {
    hide Classify;
  }

  lemma Concatenate(out: seq<Region>, a: seq<Region>, b: seq<Region>)
    ensures out + a + b == out + (a + b)
  {}

  lemma OwingSplits(s: Settings, d: nat, native: bool, frame: Frame, inner: Calls, later: Calls)
    ensures RegionsOwing(s, d, Then(native, frame, inner, later)) ==
            CallOwing(s, d, native, frame, inner) + RegionsOwing(s, d, later)
  {}

  /** One call with everything inside it. */
  lemma {:induction false} CallWhileOwing(s: Settings, st: State, native: bool, frame: Frame, inner: Calls)
    requires st.depth <= 0
    ensures Apply(s, Run(s, Apply(s, st, CallOf(native, frame)), Trace(inner)), ReturnOf(native, frame)) ==
            st.(out := st.out + CallOwing(s, -st.depth, native, frame, inner))
    decreases inner, 1
  {
    hide Run, Trace, Apply, RegionsOwing, Decide, CallOf, ReturnOf;
    var d: nat := -st.depth;
    var inside := Apply(s, st, CallOf(native, frame));
    var body := CallOwing(s, d, native, frame, inner);
    match Decide(s, native, frame)
    case Accept =>
      AcceptedCall(s, st, native, frame, RegionsOwing(s, d, inner));
      CallsWhileOwing(s, inside, inner);
    case Skip =>
      SkippedCall(s, st, native, frame);
      CallsWhileOwing(s, st, inner);
      SkippedCall(s, st.(out := st.out + body), native, frame);
    case Exclude =>
      ExcludedCall(s, st, native, frame, body);
      if d == 0 {
        IgnoredCalls(s, inside, inner);
        assert inside.(out := inside.out + []) == inside;
      } else {
        CallsWhileOwing(s, inside, inner);
      }
  }

  /** From any depth that is not positive: the depth is the number of unmatched returns, negated. */
  lemma {:induction false} CallsWhileOwing(s: Settings, st: State, c: Calls)
    requires st.depth <= 0
    ensures Run(s, st, Trace(c)) == st.(out := st.out + RegionsOwing(s, -st.depth, c))
    decreases c, 0
  {
    match c
    case None =>
      assert st.out + [] == st.out;
    case Then(native, frame, inner, later) =>
      hide Run, Trace, Apply, RegionsOwing, CallOwing, CallOf, ReturnOf;
      var d: nat := -st.depth;
      RunOfThen(s, st, native, frame, inner, later);
      OwingSplits(s, d, native, frame, inner, later);
      CallWhileOwing(s, st, native, frame, inner);
      var body := CallOwing(s, d, native, frame, inner);
      CallsWhileOwing(s, st.(out := st.out + body), later);
      Concatenate(st.out, body, RegionsOwing(s, d, later));
  }

  /** Properly nested calls, seen from a balanced state: exactly their regions come out, and the record stack and the
      depth are back where they were. */
  lemma NestedCalls(s: Settings, st: State, c: Calls)
    requires st.depth == 0
    ensures Run(s, st, Trace(c)) == st.(out := st.out + Regions(s, c))
  {
    CallsWhileOwing(s, st, c);
    OwingNothing(s, c);
  }

  /** What becomes of a call from a balanced state: its region around those of its inner calls, nothing at all, or the
      inner calls alone. */
  lemma CallMeans(s: Settings, st: State, f: Frame, inner: Calls)
    requires st.depth == 0
    ensures OpensRegion(s, f) ==>
              Run(s, st, Trace(Then(false, f, inner, None))) ==
              st.(out := st.out + ([Push(s.labelOf(f))] + Regions(s, inner) + [Pop(s.labelOf(f))]))
    ensures HidesSubtree(s, f) ==> Run(s, st, Trace(Then(false, f, inner, None))) == st
    ensures PassedOver(s, f) ==> Run(s, st, Trace(Then(false, f, inner, None))) == Run(s, st, Trace(inner))
  {
    hide Run, Trace, OpensRegion, HidesSubtree, PassedOver, Classify;
    var c := Then(false, f, inner, None);
    FiltersAreExact(s, f);
    NestedCalls(s, st, c);
    NestedCalls(s, st, inner);
    var alone :=
      match Classify(s, f)
      case Accept => [Push(s.labelOf(f))] + Regions(s, inner) + [Pop(s.labelOf(f))]
      case Skip => Regions(s, inner)
      case Exclude => [];
    assert Regions(s, c) == alone + [];
    assert alone + [] == alone && st.out + [] == st.out;
  }

  /** C functions are traced on demand, filtered by the frame that calls them, and never hide anything. */
  lemma NativeCallMeans(s: Settings, st: State, f: Frame, inner: Calls)
    requires st.depth == 0
    ensures s.traceC && OpensRegion(s, f) ==>
              Run(s, st, Trace(Then(true, f, inner, None))) ==
              st.(out := st.out + ([Push(s.labelOf(f))] + Regions(s, inner) + [Pop(s.labelOf(f))]))
    ensures !s.traceC || !OpensRegion(s, f) ==>
              Run(s, st, Trace(Then(true, f, inner, None))) == Run(s, st, Trace(inner))
  {
    hide Run, Trace, OpensRegion, HidesSubtree, PassedOver, Classify;
    var c := Then(true, f, inner, None);
    FiltersAreExact(s, f);
    NestedCalls(s, st, c);
    NestedCalls(s, st, inner);
    var alone :=
      if Decide(s, true, f) == Accept then [Push(s.labelOf(f))] + Regions(s, inner) + [Pop(s.labelOf(f))]
      else Regions(s, inner);
    assert Regions(s, c) == alone + [];
    assert alone + [] == alone;
  }

  /** A stretch of a trace: properly nested calls, then the return of a frame that was open when profiling started. */
  datatype Stretch = Stretch(calls: Calls, native: bool, frame: Frame)

  /** The trace of a profile that starts inside open calls: one stretch for each of them, innermost first, and the calls
      after the last of them has returned. */
  function TraceInside(stretches: seq<Stretch>, last: Calls): seq<Event> {
    if stretches == [] then Trace(last)
    else
      var s0 := stretches[0];
      Trace(s0.calls) + [ReturnOf(s0.native, s0.frame)] + TraceInside(stretches[1..], last)
  }

  /** The number of excluded functions among the frames that return. */
  function ExcludedReturns(s: Settings, stretches: seq<Stretch>): nat {
    if stretches == [] then 0
    else
      var rest := ExcludedReturns(s, stretches[1..]);
      rest + if Decide(s, stretches[0].native, stretches[0].frame) == Exclude then 1 else 0
  }

  /** The regions of such a trace: those of every stretch, seen with the excluded functions returned from so far. */
  function RegionsInside(s: Settings, d: nat, stretches: seq<Stretch>, last: Calls): seq<Region>
    decreases |stretches|
  {
    if stretches == [] then RegionsOwing(s, d, last)
    else
      RegionsOwing(s, d, stretches[0].calls) +
      RegionsInside(s, d + ExcludedReturns(s, stretches[..1]), stretches[1..], last)
  }

  /** A return without its call: nothing to close, and one level owed when the function is excluded. */
  lemma ReturnOfOpenFrame(s: Settings, st: State, native: bool, frame: Frame)
    requires st.records == [] && st.depth <= 0
    ensures Apply(s, st, ReturnOf(native, frame)) ==
            if Decide(s, native, frame) == Exclude then st.(depth := st.depth - 1) else st
  {
    hide Classify;
  }

  lemma OneReturn(s: Settings, stretches: seq<Stretch>)
    requires stretches != []
    ensures ExcludedReturns(s, stretches[..1]) ==
            if Decide(s, stretches[0].native, stretches[0].frame) == Exclude then 1 else 0
    ensures ExcludedReturns(s, stretches) == ExcludedReturns(s, stretches[..1]) + ExcludedReturns(s, stretches[1..])
  {
    hide Decide;
    assert stretches[..1][1..] == [];
  }

  lemma RunInsideStep(s: Settings, st: State, stretches: seq<Stretch>, last: Calls)
    requires stretches != []
    ensures var s0 := stretches[0];
            Run(s, st, TraceInside(stretches, last)) ==
            Run(s, Apply(s, Run(s, st, Trace(s0.calls)), ReturnOf(s0.native, s0.frame)),
                TraceInside(stretches[1..], last))
  {
    hide Run, Trace, Apply, ReturnOf;
    var s0, later := stretches[0], TraceInside(stretches[1..], last);
    var ret := ReturnOf(s0.native, s0.frame);
    RunAppend(s, st, Trace(s0.calls) + [ret], later);
    RunAppend(s, st, Trace(s0.calls), [ret]);
    RunOne(s, Run(s, st, Trace(s0.calls)), ret);
  }

  /** Profiling that starts inside open calls emits, stretch by stretch, the regions of the nested calls, seen with the
      excluded frames returned from so far, and ends with that many levels owed. */
  lemma {:induction false} ProfilingFromInside(s: Settings, st: State, stretches: seq<Stretch>, last: Calls)
    requires st.records == [] && st.depth <= 0
    ensures Run(s, st, TraceInside(stretches, last)) ==
            State([], st.depth - ExcludedReturns(s, stretches), st.out + RegionsInside(s, -st.depth, stretches, last))
    decreases |stretches|
  {
    hide Run, Trace, Apply, ReturnOf, RegionsOwing, Decide, ExcludedReturns;
    if stretches == [] {
      CallsWhileOwing(s, st, last);
      NoReturns(s);
    } else {
      var s0, d := stretches[0], -st.depth;
      var mid := st.(out := st.out + RegionsOwing(s, d, s0.calls));
      var next := Apply(s, mid, ReturnOf(s0.native, s0.frame));
      RunInsideStep(s, st, stretches, last);
      CallsWhileOwing(s, st, s0.calls);
      ReturnOfOpenFrame(s, mid, s0.native, s0.frame);
      OneReturn(s, stretches);
      ProfilingFromInside(s, next, stretches[1..], last);
      Concatenate(st.out, RegionsOwing(s, d, s0.calls), RegionsInside(s, -next.depth, stretches[1..], last));
    }
  }

  lemma NoReturns(s: Settings)
    ensures ExcludedReturns(s, []) == 0
  {}

  /** Exactly when an excluded function hides everything inside it: from depth 0 on, but not from below, where an
      accepted call inside it comes out. */
  lemma ExclusionHolds(s: Settings, st: State, excluded: Frame, traced: Frame)
    requires HidesSubtree(s, excluded) && OpensRegion(s, traced)
    ensures (forall inner: Calls :: Run(s, st, Trace(Then(false, excluded, inner, None))).out == st.out)
            <==> st.depth >= 0
  {
    FiltersAreExact(s, excluded);
    FiltersAreExact(s, traced);
    if st.depth > 0 {
      forall inner: Calls ensures Run(s, st, Trace(Then(false, excluded, inner, None))).out == st.out {
        IgnoredCalls(s, st, Then(false, excluded, inner, None));
      }
    } else if st.depth == 0 {
      forall inner: Calls ensures Run(s, st, Trace(Then(false, excluded, inner, None))).out == st.out {
        NestedCalls(s, st, Then(false, excluded, inner, None));
        assert Regions(s, Then(false, excluded, inner, None)) == [];
      }
    } else {
      var inner := Then(false, traced, None, None);
      var c := Then(false, excluded, inner, None);
      CallsWhileOwing(s, st, c);
      assert RegionsOwing(s, -st.depth - 1, inner) == [Push(s.labelOf(traced))] + [] + [Pop(s.labelOf(traced))] + [];
      assert |Run(s, st, Trace(c)).out| == |st.out| + 2;
    }
  }

  /** The depth falls below 0 in one step: the profiler sees the return of an excluded function whose call it missed. */
  lemma UnmatchedReturn(s: Settings, excluded: Frame)
    requires HidesSubtree(s, excluded)
    ensures Run(s, State([], 0, []), [Event(Return, excluded)]) == State([], -1, [])
  {
    FiltersAreExact(s, excluded);
    RunOne(s, State([], 0, []), Event(Return, excluded));
  }
}
