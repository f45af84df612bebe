/**
 PasteboardServiceLoader::GetPasteboardService and its callbacks
 (framework/innerkits/src/pasteboard_service_loader.cpp) as atomic steps of any number of threads:
 a step is what one thread or callback does while it holds the lock, and a condition wait ends a
 step. The system ability manager's answers are arbitrary.
 */
module ServiceLoader {
  import opened Bytes

  /** Proxies are told apart by a number. */
  type Proxy = nat

  /** What the system ability manager answers a thread that finds no proxy. */
  datatype Manager =
    | Missing
    | Running(service: Proxy, accepted: bool)
    | LoadRefused
    | LoadStarted

  /** pasteboardServiceProxy_ and constructing_ */
  datatype Shared = Shared(proxy: Option<Proxy>, constructing: bool)

  /** How the first part of a call ends: with a result, or in one of the two waits. */
  datatype Outcome = Returned(result: Option<Proxy>) | Following | Loading

  /** SetPasteboardServiceProxy: without a death recipient the proxy stays as it is. */
  function WithProxy(s: Shared, service: Proxy, accepted: bool): Shared
  {
    if accepted then s.(proxy := Some(service)) else s
  }

  function Entered(s: Shared, m: Manager): (Shared, Outcome)
  {
    if s.proxy.Some? then (s, Returned(s.proxy))
    else if s.constructing then (s, Following)
    else
      match m
      case Missing => (s.(proxy := None), Returned(None))
      case Running(service, accepted) =>
        var s' := WithProxy(s, service, accepted);
        (s', Returned(s'.proxy))
      case LoadRefused => (s, Returned(None))
      case LoadStarted => (s.(constructing := true), Loading)
  }

  /** Where a thread is. */
  datatype Place = Outside | AsFollower | AsLoader | Answered(result: Option<Proxy>)

  datatype LoadEvent = Began(thread: nat) | Ended(thread: nat)

  /** The shared fields, every thread's place, and the loads begun and ended so far. */
  datatype State = State(shared: Shared, places: map<nat, Place>, log: seq<LoadEvent>)

  function PlaceOf(s: State, t: nat): Place { if t in s.places then s.places[t] else Outside }

  datatype Step =
    | Enter(thread: nat, manager: Manager)
    | Wake(thread: nat)
    | Leave(thread: nat)
    | LoadSuccess(service: Option<Proxy>, accepted: bool)
    | LoadFail
    | Died
    | Clear

  predicate Enabled(s: State, step: Step)
  {
    match step
    case Enter(t, m) => PlaceOf(s, t).Outside?
    case Wake(t) => PlaceOf(s, t).AsFollower? || PlaceOf(s, t).AsLoader?
    case Leave(t) => PlaceOf(s, t).Answered?
    case LoadSuccess(service, accepted) => true
    case LoadFail => true
    case Died => true
    case Clear => true
  }

  function PlaceAfter(o: Outcome): Place
  {
    match o
    case Returned(result) => Answered(result)
    case Following => AsFollower
    case Loading => AsLoader
  }

  /** A wait ends with the proxy there, or at its deadline with whatever the proxy is then. */
  function Next(s: State, step: Step): State
  {
    match step
    case Enter(t, m) =>
      var (shared, o) := Entered(s.shared, m);
      State(shared, s.places[t := PlaceAfter(o)], s.log + if o.Loading? then [Began(t)] else [])
    case Wake(t) =>
      var place := Answered(s.shared.proxy);
      if PlaceOf(s, t).AsLoader?
      then State(s.shared.(constructing := false), s.places[t := place], s.log + [Ended(t)])
      else s.(places := s.places[t := place])
    case Leave(t) => s.(places := s.places[t := Outside])
    case LoadSuccess(service, accepted) =>
      if service.Some? then s.(shared := WithProxy(s.shared, service.value, accepted)) else s
    case LoadFail => s.(shared := s.shared.(proxy := None))
    case Died => s.(shared := s.shared.(proxy := None))
    case Clear => s.(shared := s.shared.(proxy := None))
  }

  const START := State(Shared(None, false), map[], [])

  /** The steps are possible one after the other. */
  predicate IsRun(s: State, steps: seq<Step>)
    decreases |steps|
  {
    steps == [] || (Enabled(s, steps[0]) && IsRun(Next(s, steps[0]), steps[1..]))
  }

  function After(s: State, steps: seq<Step>): State
    decreases |steps|
  {
    if steps == [] then s else After(Next(s, steps[0]), steps[1..])
  }

  // ----- one loader

  /** The thread that still waits for the load it began, when loads begin and end in turn. */
  function Outstanding(log: seq<LoadEvent>): Option<nat>
  {
    if log == [] || log[|log| - 1].Ended? then None else Some(log[|log| - 1].thread)
  }

  /** Every load is ended by its own thread before another begins. */
  ghost predicate InTurn(log: seq<LoadEvent>) { forall i :: 0 <= i < |log| ==> TurnAt(log, i) }

  predicate TurnAt(log: seq<LoadEvent>, i: nat)
    requires i < |log|
  {
    if i % 2 == 0 then log[i].Began? else log[i].Ended? && log[i].thread == log[i - 1].thread
  }

  lemma TurnStays(log: seq<LoadEvent>, e: LoadEvent)
    requires InTurn(log) && TurnAt(log + [e], |log|)
    ensures InTurn(log + [e])
  {
    forall i | 0 <= i < |log| ensures TurnAt(log + [e], i) {
      assert TurnAt(log, i);
    }
  }

  /** The flag is set exactly while one thread waits as the loader, and its load is the one outstanding. */
  ghost predicate Inv(s: State)
  {
    && InTurn(s.log) && (Outstanding(s.log).Some? <==> |s.log| % 2 == 1)
    && (forall t: nat :: PlaceOf(s, t).AsLoader? <==> Outstanding(s.log) == Some(t))
    && (s.shared.constructing <==> Outstanding(s.log).Some?)
  }

  lemma TurnBegins(log: seq<LoadEvent>, t: nat)
    requires InTurn(log) && |log| % 2 == 0
    ensures InTurn(log + [Began(t)]) && Outstanding(log + [Began(t)]) == Some(t)
  {
    TurnStays(log, Began(t));
  }

  lemma TurnEnds(log: seq<LoadEvent>, t: nat)
    requires InTurn(log) && |log| % 2 == 1 && Outstanding(log) == Some(t)
    ensures InTurn(log + [Ended(t)]) && Outstanding(log + [Ended(t)]) == None
  {
    TurnStays(log, Ended(t));
  }

  lemma StepKeepsInv(s: State, step: Step)
    requires Inv(s) && Enabled(s, step)
    ensures Inv(Next(s, step))
  {
    hide InTurn, Outstanding;
    assert s.log + [] == s.log;
    if step.Enter? && Entered(s.shared, step.manager).1.Loading? {
      TurnBegins(s.log, step.thread);
    } else if step.Wake? && PlaceOf(s, step.thread).AsLoader? {
      TurnEnds(s.log, step.thread);
    }
  }

  lemma {:induction false} RunKeepsInv(s: State, steps: seq<Step>)
    requires Inv(s) && IsRun(s, steps)
    ensures Inv(After(s, steps))
    decreases |steps|
  {
    hide Inv, Next, Enabled;
    if steps != [] {
      StepKeepsInv(s, steps[0]);
      RunKeepsInv(Next(s, steps[0]), steps[1..]);
    }
  }

  /** In every reachable state, the flag is set iff exactly one thread waits as the loader. */
  lemma SingleLoader(steps: seq<Step>)
    requires IsRun(START, steps)
    ensures var s := After(START, steps);
            && (s.shared.constructing <==> exists t: nat :: PlaceOf(s, t).AsLoader?)
            && (forall t: nat, u: nat :: PlaceOf(s, t).AsLoader? && PlaceOf(s, u).AsLoader? ==> t == u)
            && InTurn(s.log)
  {
    hide IsRun, InTurn, Outstanding, After;
    assert Inv(START) by { StartIsGood(); }
    RunKeepsInv(START, steps);
    var s := After(START, steps);
    if s.shared.constructing {
      assert PlaceOf(s, Outstanding(s.log).value).AsLoader?;
    }
  }

  lemma StartIsGood()
    ensures Inv(START)
  {
  }

  // ----- results

  lemma {:induction false} AfterStep(s: State, steps: seq<Step>, i: nat)
    requires IsRun(s, steps) && i < |steps|
    ensures Enabled(After(s, steps[..i]), steps[i])
    ensures After(s, steps[..i + 1]) == Next(After(s, steps[..i]), steps[i])
    decreases i
  {
    hide Next, Enabled;
    if i == 0 {
      assert steps[..1][1..] == [];
    } else {
      AfterStep(Next(s, steps[0]), steps[1..], i - 1);
      assert steps[..i][1..] == steps[1..][..i - 1] && steps[..i + 1][1..] == steps[1..][..i];
    }
  }

  /** In every run, whatever a call returns, null or not, is the proxy at that moment. */
  lemma ResultIsCurrent(steps: seq<Step>, i: nat, t: nat)
    requires IsRun(START, steps) && i < |steps|
    requires !PlaceOf(After(START, steps[..i]), t).Answered? && PlaceOf(After(START, steps[..i + 1]), t).Answered?
    ensures PlaceOf(After(START, steps[..i + 1]), t).result == After(START, steps[..i + 1]).shared.proxy
  {
    hide IsRun, After;
    AfterStep(START, steps, i);
  }

  /**
   In every run, a null result means that there was no proxy, and either the manager failed the
   caller on entry while nobody was loading, or a wait ran out.
   */
  lemma NullHasReason(steps: seq<Step>, i: nat, t: nat)
    requires IsRun(START, steps) && i < |steps|
    requires !PlaceOf(After(START, steps[..i]), t).Answered? &&
             PlaceOf(After(START, steps[..i + 1]), t) == Answered(None)
    ensures var s := After(START, steps[..i]);
            s.shared.proxy.None? &&
            (steps[i] == Wake(t) ||
             (!s.shared.constructing && steps[i].Enter? && steps[i].thread == t && !steps[i].manager.LoadStarted? &&
              (steps[i].manager.Running? ==> !steps[i].manager.accepted)))
  {
    hide IsRun, After;
    AfterStep(START, steps, i);
  }

  // ----- where a proxy comes from

  /** A load ended with a service whose death will be told. */
  predicate Accepts(step: Step) { step.LoadSuccess? && step.service.Some? && step.accepted }

  /** The load failed, the service died, or the proxy is cleared. */
  predicate Clears(step: Step) { step.LoadFail? || step.Died? || step.Clear? }

  /** p comes from a load, or is found running by a caller while there is no proxy and nobody waits as the loader. */
  ghost predicate Brings(s: State, step: Step, p: Proxy)
  {
    || step == LoadSuccess(Some(p), true)
    || (step.Enter? && step.manager == Running(p, true) && s.shared.proxy == None &&
        forall t: nat :: !PlaceOf(s, t).AsLoader?)
  }

  /** Step j brought p, and none since then cleared it or brought another one. */
  ghost predicate HeldFrom(steps: seq<Step>, j: nat, i: nat, p: Proxy)
    requires i <= |steps|
  {
    && j < i && Brings(After(START, steps[..j]), steps[j], p)
    && forall k :: j < k < i ==> !Clears(steps[k]) && !Accepts(steps[k])
  }

  /** p was brought before step i and has been held since then. */
  ghost predicate Held(steps: seq<Step>, i: nat, p: Proxy)
    requires i <= |steps|
  {
    exists j :: HeldFrom(steps, j, i, p)
  }

  lemma ProxyStep(s: State, step: Step, p: Proxy)
    requires Inv(s) && Enabled(s, step)
    ensures Next(s, step).shared.proxy == Some(p) <==>
            Brings(s, step, p) || (s.shared.proxy == Some(p) && !Clears(step) && !Accepts(step))
  {
    hide InTurn, Outstanding;
    if s.shared.constructing {
      assert PlaceOf(s, Outstanding(s.log).value).AsLoader?;
    }
  }

  lemma HeldSplit(steps: seq<Step>, i: nat, next: nat, p: Proxy)
    requires next == i + 1 <= |steps|
    ensures Held(steps, next, p) <==>
            Brings(After(START, steps[..i]), steps[i], p) ||
            (Held(steps, i, p) && !Clears(steps[i]) && !Accepts(steps[i]))
  {
    hide Brings, Clears, Accepts, After;
    if Held(steps, next, p) {
      var j :| HeldFrom(steps, j, next, p);
      assert j != i ==> HeldFrom(steps, j, i, p);
    }
    if Brings(After(START, steps[..i]), steps[i], p) {
      assert HeldFrom(steps, i, next, p);
    } else if Held(steps, i, p) && !Clears(steps[i]) && !Accepts(steps[i]) {
      var j :| HeldFrom(steps, j, i, p);
      assert HeldFrom(steps, j, next, p);
    }
  }

  /**
   In every run, the proxy is p exactly when some step brought p and none since then cleared it or
   brought another one: after a failed load, a death or a clear there is none until the next is brought.
   */
  lemma {:induction false} ProxyHasOrigin(steps: seq<Step>, i: nat, p: Proxy)
    requires IsRun(START, steps) && i <= |steps|
    ensures After(START, steps[..i]).shared.proxy == Some(p) <==> Held(steps, i, p)
    decreases i
  {
    if i == 0 {
      assert steps[..0] == [];
    } else {
      hide IsRun, Inv, After, Next, Enabled, Brings, Clears, Accepts, Held;
      ProxyHasOrigin(steps, i - 1, p);
      AfterStep(START, steps, i - 1);
      StartIsGood();
      RunPrefix(START, steps, i - 1);
      RunKeepsInv(START, steps[..i - 1]);
      ProxyStep(After(START, steps[..i - 1]), steps[i - 1], p);
      HeldSplit(steps, i - 1, i, p);
    }
  }

  /** In every run, a result that is not null was brought by a step up to its own, and has been held since then. */
  lemma ResultHasOrigin(steps: seq<Step>, i: nat, t: nat, p: Proxy) returns (j: nat)
    requires IsRun(START, steps) && i < |steps|
    requires !PlaceOf(After(START, steps[..i]), t).Answered?
    requires PlaceOf(After(START, steps[..i + 1]), t) == Answered(Some(p))
    ensures j <= i && HeldFrom(steps, j, i + 1, p)
  {
    hide IsRun, After, HeldFrom;
    ResultIsCurrent(steps, i, t);
    ProxyHasOrigin(steps, i + 1, p);
    j :| HeldFrom(steps, j, i + 1, p);
    assert j <= i by { HeldIsBefore(steps, j, i + 1, p); }
  }

  lemma HeldIsBefore(steps: seq<Step>, j: nat, i: nat, p: Proxy)
    requires i <= |steps| && HeldFrom(steps, j, i, p)
    ensures j < i
  {
  }

  /** Where a caller is after entering, by the proxy, the waiting loader and the manager's answer. */
  ghost predicate EntersTo(s: State, m: Manager, place: Place)
  {
    if s.shared.proxy.Some? then place == Answered(s.shared.proxy)
    else if exists u: nat :: PlaceOf(s, u).AsLoader? then place.AsFollower?
    else
      match m
      case Missing => place == Answered(None)
      case Running(service, accepted) => place == Answered(if accepted then Some(service) else None)
      case LoadRefused => place == Answered(None)
      case LoadStarted => place.AsLoader?
  }

  /** In every run, what a step does to the threads: its own thread moves on, all others stay where they are. */
  lemma StepMovesOne(steps: seq<Step>, i: nat, t: nat)
    requires IsRun(START, steps) && i < |steps|
    ensures var s, step := After(START, steps[..i]), steps[i];
            var before, after := PlaceOf(s, t), PlaceOf(After(START, steps[..i + 1]), t);
            && (step.Enter? && step.thread == t ==> before.Outside? && EntersTo(s, step.manager, after))
            && (step == Wake(t) ==> (before.AsFollower? || before.AsLoader?) && after == Answered(s.shared.proxy))
            && (step == Leave(t) ==> before.Answered? && after.Outside?)
            && (!(step.Enter? && step.thread == t) && step != Wake(t) && step != Leave(t) ==> after == before)
  {
    hide IsRun, InTurn, Outstanding, After;
    AfterStep(START, steps, i);
    StartIsGood();
    RunPrefix(START, steps, i);
    RunKeepsInv(START, steps[..i]);
    var s := After(START, steps[..i]);
    if s.shared.constructing {
      assert PlaceOf(s, Outstanding(s.log).value).AsLoader?;
    }
  }

  /** The threads that began a load are those that waited as the loader: a follower begins none. */
  ghost predicate Follows(s: State, steps: seq<Step>, t: nat)
    decreases |steps|
  {
    PlaceOf(s, t).AsFollower? && (steps == [] || Follows(Next(s, steps[0]), steps[1..], t))
  }

  lemma {:induction false} FollowersBeginNoLoad(s: State, steps: seq<Step>, t: nat)
    requires IsRun(s, steps) && Follows(s, steps, t)
    ensures |s.log| <= |After(s, steps).log| && After(s, steps).log[..|s.log|] == s.log
    ensures forall i :: |s.log| <= i < |After(s, steps).log| ==> After(s, steps).log[i].thread != t
    decreases |steps|
  {
    if steps != [] {
      FollowerStep(s, steps[0], t);
      hide Next, Enabled;
      FollowersBeginNoLoad(Next(s, steps[0]), steps[1..], t);
      var a, b := Next(s, steps[0]).log, After(s, steps).log;
      assert b[..|s.log|] == b[..|a|][..|s.log|];
    }
  }

  /** A follower's own steps add nothing to the log. */
  lemma FollowerStep(s: State, step: Step, t: nat)
    requires Enabled(s, step) && PlaceOf(s, t).AsFollower?
    ensures |s.log| <= |Next(s, step).log| && Next(s, step).log[..|s.log|] == s.log
    ensures forall i :: |s.log| <= i < |Next(s, step).log| ==> Next(s, step).log[i].thread != t
  {
  }

  /**
   In every run, while a thread waits as the loader nobody begins another load, and only that thread
   ends the wait. After a wait that ran out the manager may still be loading, and another thread may
   begin a load of its own.
   */
  lemma NoSecondLoad(steps: seq<Step>, i: nat)
    requires IsRun(START, steps) && i < |steps| && After(START, steps[..i]).shared.constructing
    ensures var s, s' := After(START, steps[..i]), After(START, steps[..i + 1]);
            (s'.shared.constructing && s'.log == s.log) ||
            exists t: nat :: PlaceOf(s, t).AsLoader? && steps[i] == Wake(t) && s'.log == s.log + [Ended(t)]
  {
    hide InTurn, Outstanding, After;
    AfterStep(START, steps, i);
    StartIsGood();
    RunPrefix(START, steps, i);
    RunKeepsInv(START, steps[..i]);
    assert After(START, steps[..i]).log + [] == After(START, steps[..i]).log;
  }

  lemma {:induction false} RunPrefix(s: State, steps: seq<Step>, i: nat)
    requires IsRun(s, steps) && i <= |steps|
    ensures IsRun(s, steps[..i])
    decreases i
  {
    hide Next, Enabled;
    if i > 0 {
      RunPrefix(Next(s, steps[0]), steps[1..], i - 1);
      assert steps[..i][1..] == steps[1..][..i - 1];
    }
  }

  /** The step adds the beginning of a load to the log. */
  ghost predicate Begins(s: State, step: Step) { exists u: nat :: Next(s, step).log == s.log + [Began(u)] }

  /**
   In every run, a load begins exactly when a thread calls while there is no proxy and nobody waits
   as the loader, and the manager takes the load.
   */
  lemma LoadBeginsIff(steps: seq<Step>, i: nat)
    requires IsRun(START, steps) && i < |steps|
    ensures var s := After(START, steps[..i]);
            Begins(s, steps[i]) <==>
            (steps[i].Enter? && steps[i].manager.LoadStarted? && s.shared.proxy.None? &&
             forall t: nat :: !PlaceOf(s, t).AsLoader?)
  {
    hide IsRun, InTurn, Outstanding, After;
    StartIsGood();
    RunPrefix(START, steps, i);
    RunKeepsInv(START, steps[..i]);
    var s, step := After(START, steps[..i]), steps[i];
    BeginsByEntering(s, step);
    if s.shared.constructing {
      assert PlaceOf(s, Outstanding(s.log).value).AsLoader?;
    }
  }

  lemma BeginsByEntering(s: State, step: Step)
    ensures Begins(s, step) <==> step.Enter? && Entered(s.shared, step.manager).1.Loading?
  {
    if step.Enter? && Entered(s.shared, step.manager).1.Loading? {
      assert Next(s, step).log == s.log + [Began(step.thread)];
    } else {
      forall u: nat ensures Next(s, step).log != s.log + [Began(u)] {
        assert s.log + [] == s.log && (s.log + [Began(u)])[|s.log|] == Began(u);
      }
    }
  }

  /**
   A thread waits for the load it began, without a proxy, and no success is reported: a second load
   begins only after that thread's wait has ended with a null result.
   */
  lemma {:induction false} SecondLoadFrom(s: State, steps: seq<Step>, t: nat, k: nat) returns (w: nat)
    requires Inv(s) && IsRun(s, steps) && k < |steps| && PlaceOf(s, t).AsLoader? && s.shared.proxy.None?
    requires NoSuccess(steps[..k]) && Begins(After(s, steps[..k]), steps[k])
    ensures w < k && steps[w] == Wake(t) && PlaceOf(After(s, steps[..w + 1]), t) == Answered(None)
    decreases k
  {
    hide Inv, InTurn, Outstanding;
    var next := Next(s, steps[0]);
    StepKeepsInv(s, steps[0]);
    assert s.shared.constructing by { LoaderSetsFlag(s, t); }
    if k == 0 {
      BeginsByEntering(s, steps[0]);
    } else if steps[0] == Wake(t) {
      w := 0;
      assert steps[..1][1..] == [];
    } else {
      assert steps[..k][1..] == steps[1..][..k - 1];
      w := SecondLoadFrom(next, steps[1..], t, k - 1);
      assert steps[..w + 2][1..] == steps[1..][..w + 1];
      w := w + 1;
    }
  }

  predicate NoSuccess(steps: seq<Step>) { forall j :: 0 <= j < |steps| ==> !steps[j].LoadSuccess? }

  lemma LoaderSetsFlag(s: State, t: nat)
    requires Inv(s) && PlaceOf(s, t).AsLoader?
    ensures s.shared.constructing
  {
  }

  /**
   In every run: a load begun after another, with no success reported in between, begins only after
   the first load's thread has given up its wait with a null result.
   */
  lemma SecondLoadNeedsTimeout(steps: seq<Step>, i: nat, k: nat, t: nat) returns (w: nat)
    requires IsRun(START, steps) && i < k < |steps| && NoSuccess(steps[i + 1..k])
    requires Next(After(START, steps[..i]), steps[i]).log == After(START, steps[..i]).log + [Began(t)]
    requires Begins(After(START, steps[..k]), steps[k])
    ensures i < w < k && steps[w] == Wake(t) && PlaceOf(After(START, steps[..w + 1]), t) == Answered(None)
  {
    hide IsRun, After, Inv, Begins, Enabled, Next, PlaceOf, NoSuccess;
    StartIsGood();
    RunPrefix(START, steps, i + 1);
    RunKeepsInv(START, steps[..i + 1]);
    AfterStep(START, steps, i);
    BeganBy(After(START, steps[..i]), steps[i], t);
    w := SecondLoadBehind(steps, i + 1, k, t);
  }

  lemma SecondLoadBehind(steps: seq<Step>, m: nat, k: nat, t: nat) returns (w: nat)
    requires IsRun(START, steps) && m <= k < |steps| && NoSuccess(steps[m..k])
    requires var s := After(START, steps[..m]); Inv(s) && PlaceOf(s, t).AsLoader? && s.shared.proxy.None?
    requires Begins(After(START, steps[..k]), steps[k])
    ensures m <= w < k && steps[w] == Wake(t) && PlaceOf(After(START, steps[..w + 1]), t) == Answered(None)
  {
    hide IsRun, After, Inv, Begins, Enabled, Next, PlaceOf, NoSuccess;
    var s, rest := After(START, steps[..m]), steps[m..];
    RunSplit(START, steps, m, k);
    assert rest[..k - m] == steps[m..k];
    var n := SecondLoadFrom(s, rest, t, k - m);
    w := m + n;
    RunSplit(START, steps, m, w + 1);
    assert rest[..n + 1] == steps[m..w + 1];
  }

  lemma BeganBy(s: State, step: Step, t: nat)
    requires Enabled(s, step) && Next(s, step).log == s.log + [Began(t)]
    ensures PlaceOf(Next(s, step), t).AsLoader? && Next(s, step).shared.proxy.None?
  {
    var log := Next(s, step).log;
    assert log[|log| - 1] == Began(t);
  }

  lemma {:induction false} RunSplit(s: State, steps: seq<Step>, i: nat, k: nat)
    requires IsRun(s, steps) && i <= k <= |steps|
    ensures IsRun(After(s, steps[..i]), steps[i..])
    ensures After(s, steps[..k]) == After(After(s, steps[..i]), steps[i..k])
    decreases i
  {
    hide Next, Enabled;
    if i > 0 {
      RunSplit(Next(s, steps[0]), steps[1..], i - 1, k - 1);
      assert steps[..i][1..] == steps[1..][..i - 1] && steps[..k][1..] == steps[1..][..k - 1];
      assert steps[1..][i - 1..] == steps[i..] && steps[1..][i - 1..k - 1] == steps[i..k];
    } else {
      assert steps[..0] == [] && steps[0..] == steps && steps[0..k] == steps[..k];
    }
  }

  /** After a wait that ran out a second load begins, though the manager never answered the first. */
  lemma TimedOutLoadIsForgotten(t: nat, u: nat)
    requires t != u
    ensures var steps := [Enter(t, LoadStarted), Wake(t), Enter(u, LoadStarted)];
            IsRun(START, steps) && After(START, steps).log == [Began(t), Ended(t), Began(u)]
  {
    var s1 := Next(START, Enter(t, LoadStarted));
    var s2 := Next(s1, Wake(t));
    var s3 := Next(s2, Enter(u, LoadStarted));
    var c := [Enter(u, LoadStarted)];
    var b := [Wake(t)] + c;
    var a := [Enter(t, LoadStarted)] + b;
    assert a[1..] == b && b[1..] == c && c[1..] == [];
    assert IsRun(s3, []) && IsRun(s2, c) && IsRun(s1, b);
    assert After(s3, []) == s3 && After(s2, c) == s3 && After(s1, b) == s3;
  }

  // ----- the code between taking and releasing the lock

  class Loader {
    var proxy: Option<Proxy>
    var constructing: bool

    constructor ()
      ensures Fields() == START.shared
    {
      proxy, constructing := None, false;
    }

    function Fields(): Shared
      reads this
    {
      Shared(proxy, constructing)
    }

    /**
     GetPasteboardService up to its result or its wait. Whatever is returned is the proxy; a wait
     means that there is none, and exactly one wait sets the flag: the loader's, entered only while
     it was not set and the manager took the load.
     */
    method EnterService(manager: Manager) returns (o: Outcome)
      modifies this
      ensures o.Returned? ==> o.result == proxy && constructing == old(constructing)
      ensures o.Following? ==> proxy.None? && constructing && Fields() == old(Fields())
      ensures o.Loading? ==> proxy.None? && constructing && manager.LoadStarted?
      ensures o.Loading? ==> old(proxy).None? && !old(constructing)
      ensures old(proxy).Some? ==> o.Returned? && proxy == old(proxy)
      ensures old(proxy).None? && old(constructing) ==> o.Following?
      ensures old(proxy).None? && proxy.Some? ==> manager == Running(proxy.value, true)
      ensures old(Fields()) == START.shared && !manager.LoadStarted? ==>
              o.Returned? && (o.result.Some? <==> manager.Running? && manager.accepted)
      ensures old(Fields()) == START.shared && manager.LoadStarted? ==> o.Loading?
      ensures (Fields(), o) == Entered(old(Fields()), manager)
    {
      if proxy.Some? {
        return Returned(proxy);
      }
      if constructing {
        return Following;
      }
      if manager.Missing? {
        proxy := None;
        return Returned(None);
      }
      if manager.Running? {
        SetPasteboardServiceProxy(manager.service, manager.accepted);
        return Returned(proxy);
      }
      if manager.LoadRefused? {
        return Returned(None);
      }
      constructing := true;
      o := Loading;
    }

    method SetPasteboardServiceProxy(service: Proxy, accepted: bool)
      modifies this
      ensures Fields() == WithProxy(old(Fields()), service, accepted)
    {
      if accepted {
        proxy := Some(service);
      }
    }

    /** The end of a wait: the loader's clears the flag. */
    method EndWait(asLoader: bool) returns (result: Option<Proxy>)
      modifies this
      ensures result == proxy == old(proxy) && constructing == (old(constructing) && !asLoader)
    {
      if asLoader {
        constructing := false;
      }
      result := proxy;
    }

    /** A service whose death recipient is accepted ends every wait; nothing else happens to the fields. */
    method LoadSystemAbilitySuccess(service: Option<Proxy>, accepted: bool)
      modifies this
      ensures service.Some? && accepted ==> proxy == service
      ensures !(service.Some? && accepted) ==> proxy == old(proxy)
      ensures constructing == old(constructing)
    {
      if service.Some? {
        SetPasteboardServiceProxy(service.value, accepted);
      }
    }

    /** LoadSystemAbilityFail, OnRemoteSaDied and ClearPasteboardServiceProxy. */
    method DropProxy()
      modifies this
      ensures proxy.None? && constructing == old(constructing)
    {
      proxy := None;
    }
  }

  /** The loader with the threads that use it. */
  class Process {
    const loader: Loader
    var places: map<nat, Place>
    var log: seq<LoadEvent>

    constructor ()
      ensures fresh(loader) && Current() == START
    {
      loader := new Loader();
      places, log := map[], [];
    }

    function Current(): State
      reads this, loader
    {
      State(loader.Fields(), places, log)
    }

    /** Each step of the state machine is what the loader's code does under the lock. */
    method Take(step: Step)
      requires Enabled(Current(), step)
      modifies this, loader
      ensures Current() == Next(old(Current()), step)
      ensures old(Inv(Current())) ==> Inv(Current())
    {
      hide Inv;
      if Inv(Current()) {
        StepKeepsInv(Current(), step);
      }
      match step
      case Enter(t, manager) =>
        var o := loader.EnterService(manager);
        places := places[t := PlaceAfter(o)];
        log := log + if o.Loading? then [Began(t)] else [];
      case Wake(t) =>
        var asLoader := PlaceOf(Current(), t).AsLoader?;
        var result := loader.EndWait(asLoader);
        places := places[t := Answered(result)];
        if asLoader {
          log := log + [Ended(t)];
        }
      case Leave(t) =>
        places := places[t := Outside];
      case LoadSuccess(service, accepted) =>
        loader.LoadSystemAbilitySuccess(service, accepted);
      case LoadFail =>
        loader.DropProxy();
      case Died =>
        loader.DropProxy();
      case Clear =>
        loader.DropProxy();
    }
  }
}
