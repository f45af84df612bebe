/**
 The deferred event queue of framework/framework/eventcenter/event_center.cpp. Callbacks are
 arbitrary: the n-th callback that is ever called posts events and opens nested Defer scopes as the
 n-th script says. A scope that is open inside another one only counts the depth; the outermost
 scope drains the queue when it ends.
 */
module EventQueue {
  import opened Bytes

  datatype Event = Event(id: int, payload: nat)

  const EVT_INVALID := 0
  const MAX_CAPABILITY := 100

  /** What a callback, or the body of a scope, does: post an event, or open a scope around a body. */
  datatype Act = Post(event: Event) | Scope(evtId: int, handler: Option<nat>, body: seq<Act>)

  /** A call to the k-th resident observer of an event, or to a temporary handler. */
  datatype Call = Observer(k: nat, event: Event) | Temporary(handler: nat, event: Event)

  /** Resident observers per event id, Event::Equals, and the scripts of the callbacks. */
  datatype Env = Env(observers: int -> nat, same: (Event, Event) -> bool, scripts: nat -> seq<Act>)

  /** AsyncQueue */
  datatype Queue = Queue(events: seq<Event>, handlers: map<int, nat>, depth: nat)

  /** An event that left the queue, with the temporary handler that served it. */
  datatype Sent = Sent(event: Event, handler: Option<nat>)

  /** The thread's queue, if any; what entered it and left it; and all calls made. */
  datatype World = World(queue: Option<Queue>, accepted: seq<Event>, sent: seq<Sent>, calls: seq<Call>)

  predicate IsOpen(w: World) { w.queue.Some? && w.queue.value.depth >= 1 }

  function Size(acts: seq<Act>): nat
  {
    if acts == [] then 0 else 1 + (if acts[0].Scope? then Size(acts[0].body) else 0) + Size(acts[1..])
  }

  // ----- the operations

  predicate Repeats(env: Env, events: seq<Event>, e: Event)
  {
    exists i :: 0 <= i < |events| && events[i].id == e.id && env.same(events[i], e)
  }

  /** PostEvent while a scope is open: AsyncQueue::Post. */
  function Posted(env: Env, w: World, e: Event): (r: World)
    requires IsOpen(w)
    ensures IsOpen(r)
  {
    var q := w.queue.value;
    if Repeats(env, q.events, e) then w
    else w.(queue := Some(q.(events := q.events + [e])), accepted := w.accepted + [e])
  }

  /** AddHandler: an outer scope's handler stays. */
  function WithHandler(handlers: map<int, nat>, evtId: int, handler: Option<nat>): map<int, nat>
  {
    if evtId == EVT_INVALID || handler.None? || evtId in handlers then handlers else handlers[evtId := handler.value]
  }

  /** Defer::Defer */
  function Opened(w: World, evtId: int, handler: Option<nat>): (r: World)
    requires w.queue.None? || IsOpen(w)
    ensures IsOpen(r)
  {
    var q := if w.queue.Some? then w.queue.value else Queue([], map[], 0);
    w.(queue := Some(Queue(q.events, WithHandler(q.handlers, evtId, handler), q.depth + 1)))
  }

  /** Later events only, later handlers only, the same depth. */
  ghost predicate Extends(w: World, r: World)
  {
    && IsOpen(w) && IsOpen(r) && r.queue.value.depth == w.queue.value.depth
    && w.queue.value.events <= r.queue.value.events
    && forall id :: id in w.queue.value.handlers ==>
         id in r.queue.value.handlers && r.queue.value.handlers[id] == w.queue.value.handlers[id]
  }

  function Perform(env: Env, w: World, acts: seq<Act>): (r: World)
    requires IsOpen(w)
    ensures Extends(w, r)
    decreases 0, Size(acts) + 1
  {
    if acts == [] then w
    else if acts[0].Post? then Perform(env, Posted(env, w, acts[0].event), acts[1..])
    else
      var inside := Perform(env, Opened(w, acts[0].evtId, acts[0].handler), acts[0].body);
      Perform(env, Closed(env, inside), acts[1..])
  }

  /** Defer::~Defer: only the outermost scope drains, and then the queue is gone. */
  function Closed(env: Env, w: World): (r: World)
    requires IsOpen(w)
    ensures w.queue.value.depth >= 2 ==> r == w.(queue := Some(w.queue.value.(depth := w.queue.value.depth - 1)))
    ensures w.queue.value.depth == 1 ==> r.queue.None?
    decreases if w.queue.value.depth >= 2 then 0 else 2, if w.queue.value.depth >= 2 then 0 else MAX_CAPABILITY + 1
  {
    var q := w.queue.value;
    if q.depth >= 2 then w.(queue := Some(q.(depth := q.depth - 1)))
    else Drained(env, w, 0).(queue := None)
  }

  /** The k-th resident observer of e and those after it are called. */
  function Notified(env: Env, w: World, e: Event, k: nat): (r: World)
    requires IsOpen(w)
    ensures Extends(w, r)
    decreases 1, if k < env.observers(e.id) then env.observers(e.id) - k else 0
  {
    if k >= env.observers(e.id) then w
    else Notified(env, Called(env, w, Observer(k, e)), e, k + 1)
  }

  function Called(env: Env, w: World, c: Call): (r: World)
    requires IsOpen(w)
    ensures Extends(w, r)
    decreases 1, 0
  {
    Perform(env, w.(calls := w.calls + [c]), env.scripts(|w.calls|))
  }

  /** The temporary handler of e, looked up after the observers have run. */
  function HandlerOf(w: World, e: Event): Option<nat>
    requires IsOpen(w)
  {
    if e.id in w.queue.value.handlers then Some(w.queue.value.handlers[e.id]) else None
  }

  function Served(env: Env, w: World, e: Event): (r: World)
    requires IsOpen(w)
    ensures Extends(w, r)
    decreases 1, env.observers(e.id) + 1
  {
    var told := Notified(env, w, e, 0);
    var h := HandlerOf(told, e);
    if h.Some? then Called(env, told, Temporary(h.value, e)) else told
  }

  /** The drain loop. */
  function Drained(env: Env, w: World, count: nat): (r: World)
    requires IsOpen(w)
    decreases 2, if count < MAX_CAPABILITY then MAX_CAPABILITY - count else 0
  {
    if w.queue.value.events == [] || count >= MAX_CAPABILITY then w
    else
      var e := w.queue.value.events[0];
      var told := Notified(env, w, e, 0);
      Drained(env, Popped(Served(env, w, e), HandlerOf(told, e)), count + 1)
  }

  function Popped(w: World, h: Option<nat>): (r: World)
    requires IsOpen(w) && w.queue.value.events != []
    ensures IsOpen(r)
  {
    var q := w.queue.value;
    w.(queue := Some(q.(events := q.events[1..])), sent := w.sent + [Sent(q.events[0], h)])
  }

  // ----- what every script keeps

  function EventsOf(sent: seq<Sent>): (es: seq<Event>)
    ensures |es| == |sent|
  {
    seq(|sent|, i requires 0 <= i < |sent| => sent[i].event)
  }

  /** No queued event is equal to an earlier one with the same id. */
  ghost predicate NoRepeat(env: Env, events: seq<Event>)
  {
    forall i, j :: 0 <= i < j < |events| && events[i].id == events[j].id ==> !env.same(events[i], events[j])
  }

  /** What entered the queue is what left it followed by what is in it, in this order. */
  ghost predicate Recorded(env: Env, w: World)
    requires IsOpen(w)
  {
    w.accepted == EventsOf(w.sent) + w.queue.value.events && NoRepeat(env, w.queue.value.events)
  }

  ghost predicate Sound(env: Env, w: World) { IsOpen(w) && Recorded(env, w) }

  lemma PostedKeeps(env: Env, w: World, e: Event)
    requires Sound(env, w)
    ensures var r := Posted(env, w, e); Sound(env, r) && r.sent == w.sent && r.calls == w.calls
  {
    var events := w.queue.value.events;
    assert EventsOf(w.sent) + events + [e] == EventsOf(w.sent) + (events + [e]);
  }

  lemma OpenedKeeps(env: Env, w: World, evtId: int, handler: Option<nat>)
    requires Sound(env, w)
    ensures var r := Opened(w, evtId, handler); Sound(env, r) && r.sent == w.sent && r.calls == w.calls
    ensures Opened(w, evtId, handler).queue.value.depth == w.queue.value.depth + 1
  {
  }

  /** Whatever a script does, nested scopes included, nothing is dispatched: a drain never starts inside another. */
  lemma {:induction false} PerformKeeps(env: Env, w: World, acts: seq<Act>)
    requires Sound(env, w)
    ensures var r := Perform(env, w, acts); Sound(env, r) && r.sent == w.sent && r.calls == w.calls
    decreases Size(acts)
  {
    hide Recorded, Posted, Opened, Closed;
    if acts == [] {
    } else if acts[0].Post? {
      PostedKeeps(env, w, acts[0].event);
      PerformKeeps(env, Posted(env, w, acts[0].event), acts[1..]);
    } else {
      var w1 := Opened(w, acts[0].evtId, acts[0].handler);
      OpenedKeeps(env, w, acts[0].evtId, acts[0].handler);
      PerformKeeps(env, w1, acts[0].body);
      var w2 := Perform(env, w1, acts[0].body);
      ClosedKeeps(env, w2);
      PerformKeeps(env, Closed(env, w2), acts[1..]);
    }
  }

  lemma ClosedKeeps(env: Env, w: World)
    requires Sound(env, w) && w.queue.value.depth >= 2
    ensures var r := Closed(env, w); Sound(env, r) && r.sent == w.sent && r.calls == w.calls
  {
    hide Drained;
  }

  // ----- nothing is lost

  predicate Posts(acts: seq<Act>, e: Event)
    decreases Size(acts)
  {
    acts != [] &&
    ((if acts[0].Post? then acts[0].event == e else Posts(acts[0].body, e)) || Posts(acts[1..], e))
  }

  /** The event, or one that is equal to it, is in the queue. */
  ghost predicate Covered(env: Env, w: World, e: Event)
    requires IsOpen(w)
  {
    e in w.queue.value.events || Repeats(env, w.queue.value.events, e)
  }

  lemma CoveredStays(env: Env, w: World, r: World, e: Event)
    requires Extends(w, r) && Covered(env, w, e)
    ensures Covered(env, r, e)
  {
    var before, after := w.queue.value.events, r.queue.value.events;
    if e !in before {
      var i :| 0 <= i < |before| && before[i].id == e.id && env.same(before[i], e);
      assert after[i] == before[i];
    }
  }

  /** Every event a script posts, at any depth, ends up in the queue, itself or as an equal one. */
  lemma {:induction false} NothingIsLost(env: Env, w: World, acts: seq<Act>, e: Event)
    requires IsOpen(w) && Posts(acts, e)
    ensures Covered(env, Perform(env, w, acts), e)
    decreases Size(acts)
  {
    hide Covered, Posted, Opened, Closed;
    if acts[0].Post? {
      var w1 := Posted(env, w, acts[0].event);
      if acts[0].event == e {
        PostedIsCovered(env, w, e);
        CoveredStays(env, w1, Perform(env, w1, acts[1..]), e);
      } else {
        NothingIsLost(env, w1, acts[1..], e);
      }
    } else {
      var inside := Perform(env, Opened(w, acts[0].evtId, acts[0].handler), acts[0].body);
      OneDeeper(w, acts[0].evtId, acts[0].handler);
      var w1 := Closed(env, inside);
      if Posts(acts[0].body, e) {
        NothingIsLost(env, Opened(w, acts[0].evtId, acts[0].handler), acts[0].body, e);
        ClosedIsCovered(env, inside, e);
        CoveredStays(env, w1, Perform(env, w1, acts[1..]), e);
      } else {
        NothingIsLost(env, w1, acts[1..], e);
      }
    }
  }

  lemma PostedIsCovered(env: Env, w: World, e: Event)
    requires IsOpen(w)
    ensures Covered(env, Posted(env, w, e), e)
  {
  }

  lemma ClosedIsCovered(env: Env, w: World, e: Event)
    requires IsOpen(w) && w.queue.value.depth >= 2 && Covered(env, w, e)
    ensures Covered(env, Closed(env, w), e)
  {
    hide Drained;
  }

  // ----- what a script does, by its posts and scopes alone

  function FirstOf(a: Option<nat>, b: Option<nat>): Option<nat> { if a.Some? then a else b }

  /** The handler of the first scope that names the id, in opening order, and brings one. */
  function FirstScope(acts: seq<Act>, id: int): Option<nat>
    decreases Size(acts)
  {
    if acts == [] then None
    else if acts[0].Post? then FirstScope(acts[1..], id)
    else
      var own := if acts[0].evtId == id && id != 0 then acts[0].handler else None;
      FirstOf(own, FirstOf(FirstScope(acts[0].body, id), FirstScope(acts[1..], id)))
  }

  /** The events a script posts, at any depth, in order. */
  function Flat(acts: seq<Act>): seq<Event>
    decreases Size(acts)
  {
    if acts == [] then []
    else (if acts[0].Post? then [acts[0].event] else Flat(acts[0].body)) + Flat(acts[1..])
  }

  /** Those of the posted events that are no repetition of one in front of them with the same id. */
  ghost function Kept(env: Env, queued: seq<Event>, posts: seq<Event>): seq<Event>
    decreases |posts|
  {
    if posts == [] then []
    else if exists q :: q in queued && q.id == posts[0].id && env.same(q, posts[0]) then Kept(env, queued, posts[1..])
    else [posts[0]] + Kept(env, queued + [posts[0]], posts[1..])
  }

  /** The handler that an event with this id would be given. */
  function Serving(w: World, id: int): Option<nat>
    requires IsOpen(w)
  {
    if id in w.queue.value.handlers then Some(w.queue.value.handlers[id]) else None
  }

  /** From w to r exactly these acts have been done, and nothing was dispatched. */
  ghost predicate Did(env: Env, w: World, r: World, acts: seq<Act>)
  {
    && IsOpen(w) && IsOpen(r) && r.queue.value.depth == w.queue.value.depth && r.sent == w.sent
    && r.queue.value.events == w.queue.value.events + Kept(env, w.queue.value.events, Flat(acts))
    && r.accepted == w.accepted + Kept(env, w.queue.value.events, Flat(acts))
    && forall id :: Serving(r, id) == FirstOf(Serving(w, id), FirstScope(acts, id))
  }

  lemma {:induction false} KeptJoin(env: Env, queued: seq<Event>, a: seq<Event>, b: seq<Event>)
    ensures Kept(env, queued, a + b) == Kept(env, queued, a) + Kept(env, queued + Kept(env, queued, a), b)
    decreases |a|
  {
    if a == [] {
      assert a + b == b && queued + [] == queued;
    } else {
      assert (a + b)[0] == a[0] && (a + b)[1..] == a[1..] + b;
      if exists q :: q in queued && q.id == a[0].id && env.same(q, a[0]) {
        KeptJoin(env, queued, a[1..], b);
      } else {
        KeptJoin(env, queued + [a[0]], a[1..], b);
        Regroup(queued, [a[0]], Kept(env, queued + [a[0]], a[1..]));
        Regroup([a[0]], Kept(env, queued + [a[0]], a[1..]), Kept(env, queued + Kept(env, queued, a), b));
      }
    }
  }

  lemma {:induction false} ActsJoin(a: seq<Act>, b: seq<Act>, id: int)
    ensures Flat(a + b) == Flat(a) + Flat(b)
    ensures FirstScope(a + b, id) == FirstOf(FirstScope(a, id), FirstScope(b, id))
    decreases Size(a)
  {
    if a == [] {
      assert a + b == b && [] + Flat(b) == Flat(b);
    } else {
      assert (a + b)[0] == a[0] && (a + b)[1..] == a[1..] + b;
      ActsJoin(a[1..], b, id);
      Regroup(if a[0].Post? then [a[0].event] else Flat(a[0].body), Flat(a[1..]), Flat(b));
    }
  }

  lemma DidJoin(env: Env, w: World, m: World, r: World, a: seq<Act>, b: seq<Act>)
    requires Did(env, w, m, a) && Did(env, m, r, b)
    ensures Did(env, w, r, a + b)
  {
    hide Kept, Flat, FirstScope, Serving;
    var q, x := w.queue.value.events, Kept(env, w.queue.value.events, Flat(a));
    ActsJoin(a, b, 0);
    KeptJoin(env, q, Flat(a), Flat(b));
    Regroup(q, x, Kept(env, q + x, Flat(b)));
    Regroup(w.accepted, x, Kept(env, q + x, Flat(b)));
    forall id ensures Serving(r, id) == FirstOf(Serving(w, id), FirstScope(a + b, id)) {
      ActsJoin(a, b, id);
    }
  }

  lemma NothingDone(env: Env, w: World, r: World)
    requires IsOpen(w) && r == w.(calls := r.calls)
    ensures Did(env, w, r, [])
  {
    Regroup(w.queue.value.events, [], []);
    Regroup(w.accepted, [], []);
  }

  lemma PostDone(env: Env, w: World, e: Event)
    requires IsOpen(w)
    ensures Did(env, w, Posted(env, w, e), [Post(e)])
  {
    var q, acts := w.queue.value.events, [Post(e)];
    assert acts[1..] == [] && Flat(acts) == [e] + [] == [e];
    assert Kept(env, q + [e], []) == [] && [e][1..] == [];
    if Repeats(env, q, e) {
      var i :| 0 <= i < |q| && q[i].id == e.id && env.same(q[i], e);
      assert q[i] in q;
      assert Kept(env, q, [e]) == [];
    } else {
      assert Kept(env, q, [e]) == [e] + [] == [e];
    }
  }

  lemma ScopeOpens(w: World, evtId: int, handler: Option<nat>, id: int)
    requires IsOpen(w)
    ensures Serving(Opened(w, evtId, handler), id) ==
            FirstOf(Serving(w, id), if evtId == id && id != 0 then handler else None)
  {
  }

  /** A nested scope is its handler and its body; its end only counts down. */
  lemma ScopeDone(env: Env, w: World, act: Act, inside: World)
    requires IsOpen(w) && act.Scope? && Did(env, Opened(w, act.evtId, act.handler), inside, act.body)
    ensures IsOpen(inside) && Did(env, w, Closed(env, inside), [act])
  {
    hide Kept, Drained;
    var acts, none := [act], [act][1..];
    assert none == [] && Flat(acts) == Flat(act.body) + [] == Flat(act.body);
    var m, r := Opened(w, act.evtId, act.handler), Closed(env, inside);
    forall id ensures Serving(r, id) == FirstOf(Serving(w, id), FirstScope(acts, id)) {
      ScopeOpens(w, act.evtId, act.handler, id);
      assert Serving(r, id) == Serving(inside, id) == FirstOf(Serving(m, id), FirstScope(act.body, id));
      assert FirstScope(none, id) == None;
    }
  }

  /**
   Whatever a script does is its posts and its scopes: the new events are its posts in order without
   repetitions, and an id keeps its handler, or else gets that of the first scope that names it.
   */
  lemma {:induction false} PerformDoes(env: Env, w: World, acts: seq<Act>)
    requires IsOpen(w)
    ensures Did(env, w, Perform(env, w, acts), acts) && Perform(env, w, acts).calls == w.calls
    decreases Size(acts)
  {
    hide Did, Posted, Opened, Closed;
    if acts == [] {
      NothingDone(env, w, w);
    } else {
      var act, rest := acts[0], acts[1..];
      assert acts == [act] + rest;
      if act.Post? {
        var m := Posted(env, w, act.event);
        PostDone(env, w, act.event);
        assert m.calls == w.calls by { PostedCalls(env, w, act.event); }
        PerformDoes(env, m, rest);
        DidJoin(env, w, m, Perform(env, m, rest), [act], rest);
      } else {
        var inside := Perform(env, Opened(w, act.evtId, act.handler), act.body);
        PerformDoes(env, Opened(w, act.evtId, act.handler), act.body);
        OneDeeper(w, act.evtId, act.handler);
        ScopeDone(env, w, act, inside);
        var m := Closed(env, inside);
        assert m.calls == w.calls by { ScopeCalls(env, w, act, inside); }
        PerformDoes(env, m, rest);
        DidJoin(env, w, m, Perform(env, m, rest), [act], rest);
      }
    }
  }

  lemma PostedCalls(env: Env, w: World, e: Event)
    requires IsOpen(w)
    ensures Posted(env, w, e).calls == w.calls
  {
  }

  lemma ScopeCalls(env: Env, w: World, act: Act, inside: World)
    requires IsOpen(w) && act.Scope? && IsOpen(inside) && inside.queue.value.depth >= 2
    requires inside.calls == Opened(w, act.evtId, act.handler).calls
    ensures Closed(env, inside).calls == w.calls
  {
    hide Drained;
  }

  /** The acts of the callbacks from the lo-th to the one before the hi-th. */
  function ActsIn(env: Env, lo: nat, hi: nat): seq<Act>
    decreases hi - lo
  {
    if lo >= hi then [] else env.scripts(lo) + ActsIn(env, lo + 1, hi)
  }

  lemma {:induction false} ActsInJoin(env: Env, lo: nat, mid: nat, hi: nat)
    requires lo <= mid <= hi
    ensures ActsIn(env, lo, hi) == ActsIn(env, lo, mid) + ActsIn(env, mid, hi)
    decreases mid - lo
  {
    if lo < mid {
      ActsInJoin(env, lo + 1, mid, hi);
      Regroup(env.scripts(lo), ActsIn(env, lo + 1, mid), ActsIn(env, mid, hi));
    } else {
      assert [] + ActsIn(env, mid, hi) == ActsIn(env, mid, hi);
    }
  }

  lemma CalledDoes(env: Env, w: World, c: Call)
    requires IsOpen(w)
    ensures Did(env, w, Called(env, w, c), env.scripts(|w.calls|)) && Called(env, w, c).calls == w.calls + [c]
  {
    hide Did, Perform;
    var m, acts := w.(calls := w.calls + [c]), env.scripts(|w.calls|);
    NothingDone(env, w, m);
    PerformDoes(env, m, acts);
    DidJoin(env, w, m, Perform(env, m, acts), [], acts);
    assert [] + acts == acts;
  }

  lemma {:induction false} NotifiedDoes(env: Env, w: World, e: Event, k: nat)
    requires IsOpen(w) && k <= env.observers(e.id)
    ensures var r, n := Notified(env, w, e, k), |w.calls|;
            && |r.calls| == n + (env.observers(e.id) - k)
            && Did(env, w, r, ActsIn(env, n, |r.calls|))
    decreases env.observers(e.id) - k
  {
    hide Did, Called;
    var n := |w.calls|;
    if k < env.observers(e.id) {
      var m := Called(env, w, Observer(k, e));
      CalledDoes(env, w, Observer(k, e));
      NotifiedDoes(env, m, e, k + 1);
      var r := Notified(env, m, e, k + 1);
      DidJoin(env, w, m, r, env.scripts(n), ActsIn(env, n + 1, |r.calls|));
    } else {
      NothingDone(env, w, w);
    }
  }

  // ----- dispatching

  /** The calls for one event: its observers in order, then its temporary handler. */
  function CallsFor(env: Env, s: Sent): seq<Call>
  {
    ObserversFrom(env, s.event, 0) + if s.handler.Some? then [Temporary(s.handler.value, s.event)] else []
  }

  function ObserversFrom(env: Env, e: Event, k: nat): seq<Call>
    decreases if k < env.observers(e.id) then env.observers(e.id) - k else 0
  {
    if k >= env.observers(e.id) then [] else [Observer(k, e)] + ObserversFrom(env, e, k + 1)
  }

  function AllCalls(env: Env, sent: seq<Sent>): seq<Call>
  {
    if sent == [] then [] else CallsFor(env, sent[0]) + AllCalls(env, sent[1..])
  }

  lemma CalledKeeps(env: Env, w: World, c: Call)
    requires Sound(env, w)
    ensures var r := Called(env, w, c); Sound(env, r) && r.sent == w.sent && r.calls == w.calls + [c]
  {
    hide Perform;
    PerformKeeps(env, w.(calls := w.calls + [c]), env.scripts(|w.calls|));
  }

  lemma {:induction false} NotifiedKeeps(env: Env, w: World, e: Event, k: nat)
    requires Sound(env, w)
    ensures var r := Notified(env, w, e, k);
            Sound(env, r) && r.sent == w.sent && r.calls == w.calls + ObserversFrom(env, e, k)
    decreases if k < env.observers(e.id) then env.observers(e.id) - k else 0
  {
    hide Called, Recorded;
    if k < env.observers(e.id) {
      CalledKeeps(env, w, Observer(k, e));
      NotifiedKeeps(env, Called(env, w, Observer(k, e)), e, k + 1);
      assert w.calls + [Observer(k, e)] + ObserversFrom(env, e, k + 1) == w.calls + ObserversFrom(env, e, k);
    }
  }

  lemma ServedKeeps(env: Env, w: World, e: Event)
    requires Sound(env, w)
    ensures var r, h := Served(env, w, e), HandlerOf(Notified(env, w, e, 0), e);
            && Sound(env, r) && r.sent == w.sent && r.calls == w.calls + CallsFor(env, Sent(e, h))
            && (h.Some? ==> e.id in r.queue.value.handlers && r.queue.value.handlers[e.id] == h.value)
            && (e.id in w.queue.value.handlers ==> h == Some(w.queue.value.handlers[e.id]))
  {
    hide Called, Notified, Recorded, ObserversFrom;
    NotifiedKeeps(env, w, e, 0);
    var told := Notified(env, w, e, 0);
    var h := HandlerOf(told, e);
    var obs := ObserversFrom(env, e, 0);
    if h.Some? {
      CalledKeeps(env, told, Temporary(h.value, e));
      assert w.calls + obs + [Temporary(h.value, e)] == w.calls + (obs + [Temporary(h.value, e)]);
    } else {
      assert w.calls + (obs + []) == w.calls + obs;
    }
  }

  lemma PoppedKeeps(env: Env, w: World, h: Option<nat>)
    requires Sound(env, w) && w.queue.value.events != []
    ensures Sound(env, Popped(w, h))
  {
    var e, rest := w.queue.value.events[0], w.queue.value.events[1..];
    assert w.queue.value.events == [e] + rest;
    assert EventsOf(w.sent + [Sent(e, h)]) == EventsOf(w.sent) + [e];
  }

  /** Handlers once there stay, and the new events were served by theirs. */
  ghost predicate ServedByFirst(w: World, r: World)
    requires IsOpen(w) && IsOpen(r)
  {
    var before, after := w.queue.value.handlers, r.queue.value.handlers;
    && (forall id :: id in before ==> id in after && after[id] == before[id])
    && |w.sent| <= |r.sent| && r.sent[..|w.sent|] == w.sent
    && (forall i :: |w.sent| <= i < |r.sent| && r.sent[i].event.id in before ==>
          r.sent[i].handler == Some(before[r.sent[i].event.id]))
    && forall i :: |w.sent| <= i < |r.sent| && r.sent[i].handler.Some? ==>
         r.sent[i].event.id in after && after[r.sent[i].event.id] == r.sent[i].handler.value
  }

  lemma ServedByFirstTrans(w: World, m: World, r: World)
    requires IsOpen(w) && IsOpen(m) && IsOpen(r) && ServedByFirst(w, m) && ServedByFirst(m, r)
    ensures ServedByFirst(w, r)
  {
    assert r.sent[..|w.sent|] == r.sent[..|m.sent|][..|w.sent|];
    forall i | |w.sent| <= i < |m.sent| ensures r.sent[i] == m.sent[i] {
      assert r.sent[i] == r.sent[..|m.sent|][i];
    }
  }

  /** One turn of the drain loop. */
  function Turn(env: Env, w: World): (r: World)
    requires IsOpen(w) && w.queue.value.events != []
    ensures IsOpen(r)
  {
    var e := w.queue.value.events[0];
    Popped(Served(env, w, e), HandlerOf(Notified(env, w, e, 0), e))
  }

  lemma TurnKeeps(env: Env, w: World)
    requires Sound(env, w) && w.queue.value.events != []
    ensures var r := Turn(env, w);
            && Sound(env, r) && ServedByFirst(w, r) && |r.sent| == |w.sent| + 1 && w.accepted <= r.accepted
            && r.calls == w.calls + CallsFor(env, r.sent[|w.sent|])
  {
    hide Served, Notified, Recorded, CallsFor;
    var e := w.queue.value.events[0];
    ServedKeeps(env, w, e);
    PoppedKeeps(env, Served(env, w, e), HandlerOf(Notified(env, w, e, 0), e));
    assert Served(env, w, e).queue.value.events[0] == e;
    AcceptedGrows(env, w, Served(env, w, e));
  }

  lemma {:induction false} ObserversAre(env: Env, e: Event, k: nat)
    requires k <= env.observers(e.id)
    ensures var os := ObserversFrom(env, e, k);
            |os| == env.observers(e.id) - k && forall i :: 0 <= i < |os| ==> os[i] == Observer(k + i, e)
    decreases env.observers(e.id) - k
  {
    if k < env.observers(e.id) {
      ObserversAre(env, e, k + 1);
    }
  }

  /** The handler of an event that leaves the queue: looked up once the callbacks before the n-th have run. */
  function HandlerAfter(env: Env, w: World, n: nat, id: int): Option<nat>
    requires IsOpen(w)
  {
    FirstOf(Serving(w, id), FirstScope(ActsIn(env, |w.calls|, n), id))
  }

  /**
   One turn of the drain: the front event is served by the handler there after its observers have
   run, what all the callbacks posted without repetition joins the queue, and the front event leaves.
   */
  lemma TurnDoes(env: Env, w: World)
    requires IsOpen(w) && w.queue.value.events != []
    ensures var r, q, n := Turn(env, w), w.queue.value.events, |w.calls|;
            && r.sent == w.sent + [Sent(q[0], HandlerAfter(env, w, n + env.observers(q[0].id), q[0].id))]
            && n <= |r.calls|
            && r.queue.value.events == (q + Kept(env, q, Flat(ActsIn(env, n, |r.calls|))))[1..]
            && (forall id :: Serving(r, id) == HandlerAfter(env, w, |r.calls|, id))
  {
    hide Kept, Flat, FirstScope, ActsIn, Notified, Called;
    var q, n := w.queue.value.events, |w.calls|;
    var e := q[0];
    NotifiedDoes(env, w, e, 0);
    var told := Notified(env, w, e, 0);
    var h := HandlerOf(told, e);
    assert h == Serving(told, e.id);
    var served := Served(env, w, e);
    if h.Some? {
      CalledDoes(env, told, Temporary(h.value, e));
      ActsInJoin(env, n, |told.calls|, |served.calls|);
      assert ActsIn(env, |told.calls|, |served.calls|) == env.scripts(|told.calls|) by { OneScript(env, |told.calls|); }
      DidJoin(env, w, told, served, ActsIn(env, n, |told.calls|), env.scripts(|told.calls|));
    }
  }

  lemma OneScript(env: Env, n: nat)
    ensures ActsIn(env, n, n + 1) == env.scripts(n)
  {
    assert ActsIn(env, n + 1, n + 1) == [] && env.scripts(n) + [] == env.scripts(n);
  }

  lemma AcceptedGrows(env: Env, w: World, r: World)
    requires Sound(env, w) && Sound(env, r) && Extends(w, r) && r.sent == w.sent
    ensures w.accepted <= r.accepted
  {
  }

  /** The drain: first in, first out, one dispatch each, and a bounded number of them. */
  lemma {:induction false} DrainedKeeps(env: Env, w: World, count: nat)
    requires Sound(env, w) && count <= MAX_CAPABILITY
    ensures var r := Drained(env, w, count);
            && Sound(env, r) && ServedByFirst(w, r) && w.accepted <= r.accepted
            && |r.sent| - |w.sent| <= 100 - count
            && (r.queue.value.events == [] || |r.sent| - |w.sent| == 100 - count)
            && r.calls == w.calls + AllCalls(env, r.sent[|w.sent|..])
    decreases MAX_CAPABILITY - count
  {
    hide Recorded, ServedByFirst, CallsFor;
    if w.queue.value.events == [] || count >= MAX_CAPABILITY {
      NothingServed(w);
      assert w.sent[|w.sent|..] == [] && w.calls + [] == w.calls;
    } else {
      var m := Turn(env, w);
      TurnKeeps(env, w);
      assert Drained(env, w, count) == Drained(env, m, count + 1);
      hide Turn, Drained;
      DrainedKeeps(env, m, count + 1);
      var r := Drained(env, m, count + 1);
      ServedByFirstTrans(w, m, r);
      CallsJoin(env, w, m, r);
    }
  }

  /** How many callbacks have run before the i-th event of the drain is served. */
  function CallsBefore(env: Env, w: World, r: World, i: nat): nat
    requires |w.sent| <= i <= |r.sent|
  {
    |w.calls| + |AllCalls(env, r.sent[|w.sent|..i])|
  }

  ghost predicate ServedAsScoped(env: Env, w: World, r: World, i: nat)
    requires IsOpen(w) && |w.sent| <= i < |r.sent|
  {
    var e := r.sent[i].event;
    r.sent[i].handler == HandlerAfter(env, w, CallsBefore(env, w, r, i) + env.observers(e.id), e.id)
  }

  /** Every event of a drain is served by the first handler that any scope up to then has brought for its id. */
  lemma {:induction false} DrainedServes(env: Env, w: World, count: nat, i: nat)
    requires Sound(env, w) && count <= MAX_CAPABILITY
    ensures var r := Drained(env, w, count);
            |w.sent| <= i < |r.sent| ==> ServedAsScoped(env, w, r, i)
    decreases MAX_CAPABILITY - count
  {
    hide Recorded, CallsFor, ActsIn, FirstScope, Kept, Serving, ServedAsScoped, HandlerAfter, AllCalls, Flat;
    if w.queue.value.events != [] && count < MAX_CAPABILITY {
      var m := Turn(env, w);
      TurnKeeps(env, w);
      TurnDoes(env, w);
      assert Drained(env, w, count) == Drained(env, m, count + 1);
      hide Turn, Drained;
      DrainedKeeps(env, m, count + 1);
      var r := Drained(env, m, count + 1);
      if |w.sent| <= i < |r.sent| {
        FirstServed(env, w, m, r);
        if i > |w.sent| {
          DrainedServes(env, m, count + 1, i);
          LaterServed(env, w, m, r, i);
        }
      }
    }
  }

  lemma FirstServed(env: Env, w: World, m: World, r: World)
    requires IsOpen(w) && IsOpen(m) && IsOpen(r) && ServedByFirst(m, r) && w.queue.value.events != []
    requires var e := w.queue.value.events[0];
             m.sent == w.sent + [Sent(e, HandlerAfter(env, w, |w.calls| + env.observers(e.id), e.id))]
    ensures ServedAsScoped(env, w, r, |w.sent|)
  {
    hide HandlerAfter;
    var k := |w.sent|;
    assert r.sent[k] == r.sent[..|m.sent|][k] == m.sent[k];
    assert r.sent[k..k] == [] && AllCalls(env, []) == [];
  }

  lemma LaterServed(env: Env, w: World, m: World, r: World, i: nat)
    requires IsOpen(w) && IsOpen(m) && IsOpen(r) && ServedByFirst(m, r) && |m.sent| == |w.sent| + 1 <= i < |r.sent|
    requires m.calls == w.calls + CallsFor(env, m.sent[|w.sent|])
    requires forall id :: Serving(m, id) == HandlerAfter(env, w, |m.calls|, id)
    requires ServedAsScoped(env, m, r, i)
    ensures ServedAsScoped(env, w, r, i)
  {
    hide CallsFor, FirstScope, ActsIn, Serving;
    var s, id := r.sent[|w.sent|..i], r.sent[i].event.id;
    assert r.sent[|w.sent|] == r.sent[..|m.sent|][|w.sent|];
    assert s[0] == m.sent[|w.sent|] && s[1..] == r.sent[|m.sent|..i];
    assert CallsBefore(env, w, r, i) == CallsBefore(env, m, r, i);
    var n := CallsBefore(env, w, r, i) + env.observers(id);
    ActsInJoin(env, |w.calls|, |m.calls|, n);
    ActsJoin(ActsIn(env, |w.calls|, |m.calls|), ActsIn(env, |m.calls|, n), id);
  }

  lemma NothingServed(w: World)
    requires IsOpen(w)
    ensures ServedByFirst(w, w)
  {
  }

  lemma CallsJoin(env: Env, w: World, m: World, r: World)
    requires IsOpen(m) && IsOpen(r) && ServedByFirst(m, r) && |m.sent| == |w.sent| + 1
    requires m.calls == w.calls + CallsFor(env, m.sent[|w.sent|]) &&
             r.calls == m.calls + AllCalls(env, r.sent[|m.sent|..])
    ensures r.calls == w.calls + AllCalls(env, r.sent[|w.sent|..])
  {
    hide CallsFor;
    var s, rest := r.sent[|w.sent|..], r.sent[|m.sent|..];
    assert r.sent[|w.sent|] == r.sent[..|m.sent|][|w.sent|];
    assert s[0] == m.sent[|w.sent|] && s[1..] == rest;
    assert w.calls + CallsFor(env, s[0]) + AllCalls(env, rest) == w.calls + (CallsFor(env, s[0]) + AllCalls(env, rest));
  }

  // ----- a whole outermost scope

  /** A Defer object around a body, opened while the thread has no queue. */
  function Outermost(env: Env, calls: seq<Call>, evtId: int, handler: Option<nat>, body: seq<Act>): World
  {
    Closed(env, Perform(env, Opened(World(None, [], [], calls), evtId, handler), body))
  }

  /** The scope with its body, and the acts of all callbacks before the n-th, from the first one in it on. */
  function ActsUntil(env: Env, first: nat, evtId: int, handler: Option<nat>, body: seq<Act>, n: nat): seq<Act>
  {
    [Scope(evtId, handler, body)] + ActsIn(env, first, n)
  }

  /**
   The i-th event that left was given to the handler of the first scope that had named its id when its
   observers had run: the outermost one, those in its body, and those that callbacks opened, in order.
   */
  ghost predicate FirstScopeServes(env: Env, calls: seq<Call>, evtId: int, handler: Option<nat>, body: seq<Act>,
                                   sent: seq<Sent>, i: nat)
    requires i < |sent|
  {
    var id := sent[i].event.id;
    var n := |calls| + |AllCalls(env, sent[..i])| + env.observers(id);
    sent[i].handler == FirstScope(ActsUntil(env, |calls|, evtId, handler, body, n), id)
  }

  /**
   For all callbacks: the first hundred accepted events leave, in order and once each, and all others
   are dropped; the accepted ones begin with what the body posts, without repetitions; each is given
   to its observers in order and then to the first scope's handler, if there is one; and the queue is
   gone.
   */
  lemma OutermostScope(env: Env, calls: seq<Call>, evtId: int, handler: Option<nat>, body: seq<Act>)
    ensures var r := Outermost(env, calls, evtId, handler, body);
            && r.queue.None?
            && EventsOf(r.sent) == (if |r.accepted| <= 100 then r.accepted else r.accepted[..100])
            && Kept(env, [], Flat(body)) <= r.accepted
            && r.calls == calls + AllCalls(env, r.sent)
            && forall i :: 0 <= i < |r.sent| ==> FirstScopeServes(env, calls, evtId, handler, body, r.sent, i)
  {
    hide Recorded, Drained, Perform, Kept, Flat, FirstScopeServes, AllCalls;
    var w0 := Opened(World(None, [], [], calls), evtId, handler);
    assert Sound(env, w0) by { FirstIsSound(env, calls, evtId, handler); }
    PerformKeeps(env, w0, body);
    PerformDoes(env, w0, body);
    var w := Perform(env, w0, body);
    DrainedKeeps(env, w, 0);
    var r := Drained(env, w, 0);
    SentIsPrefix(env, r);
    assert r.sent[0..] == r.sent;
    Regroup([], [], Kept(env, [], Flat(body)));
    forall i | 0 <= i < |r.sent|
      ensures FirstScopeServes(env, calls, evtId, handler, body, r.sent, i)
    {
      ServedInScope(env, calls, evtId, handler, body, i);
    }
  }

  /** The handler of the i-th event of an outermost scope. */
  lemma ServedInScope(env: Env, calls: seq<Call>, evtId: int, handler: Option<nat>, body: seq<Act>, i: nat)
    requires i < |Outermost(env, calls, evtId, handler, body).sent|
    ensures FirstScopeServes(env, calls, evtId, handler, body, Outermost(env, calls, evtId, handler, body).sent, i)
  {
    hide Recorded, Drained, Perform, Kept, Flat, FirstScope, ActsIn, Serving, ActsUntil, AllCalls;
    var w0 := Opened(World(None, [], [], calls), evtId, handler);
    assert Sound(env, w0) by { FirstIsSound(env, calls, evtId, handler); }
    PerformKeeps(env, w0, body);
    PerformDoes(env, w0, body);
    var w := Perform(env, w0, body);
    DrainedServes(env, w, 0, i);
    var r := Drained(env, w, 0);
    var id := r.sent[i].event.id;
    assert r.sent[0..i] == r.sent[..i];
    FirstIsOwn(env, calls, evtId, handler, body, |calls| + |AllCalls(env, r.sent[..i])| + env.observers(id), id);
  }

  lemma FirstIsOwn(env: Env, calls: seq<Call>, evtId: int, handler: Option<nat>, body: seq<Act>, n: nat, id: int)
    ensures FirstScope(ActsUntil(env, |calls|, evtId, handler, body, n), id) ==
            FirstOf(FirstOf(Serving(Opened(World(None, [], [], calls), evtId, handler), id), FirstScope(body, id)),
                    FirstScope(ActsIn(env, |calls|, n), id))
  {
    hide ActsIn;
    var own := [Scope(evtId, handler, body)];
    ActsJoin(own, ActsIn(env, |calls|, n), id);
    assert own[1..] == [] && FirstScope([], id) == None;
  }

  function PostAll(events: seq<Event>): (acts: seq<Act>)
    ensures |acts| == |events|
  {
    seq(|events|, i requires 0 <= i < |events| => Post(events[i]))
  }

  lemma {:induction false} AllAccepted(env: Env, w: World, events: seq<Event>)
    requires IsOpen(w) && forall a, b :: !env.same(a, b)
    ensures Perform(env, w, PostAll(events)).accepted == w.accepted + events
    decreases |events|
  {
    if events == [] {
      assert w.accepted + [] == w.accepted;
    } else {
      var r := Posted(env, w, events[0]);
      AllAccepted(env, r, events[1..]);
      assert PostAll(events)[1..] == PostAll(events[1..]);
      assert w.accepted + [events[0]] + events[1..] == w.accepted + events;
    }
  }

  /** A body that posts more than a hundred different events: exactly the first hundred are dispatched. */
  lemma OverflowIsDropped(env: Env, calls: seq<Call>, evtId: int, handler: Option<nat>, events: seq<Event>)
    requires |events| > 100 && forall a, b :: !env.same(a, b)
    ensures var r := Outermost(env, calls, evtId, handler, PostAll(events));
            EventsOf(r.sent) == events[..100]
  {
    hide Drained, Perform, EventsOf, AllCalls;
    OutermostScope(env, calls, evtId, handler, PostAll(events));
    var r := Outermost(env, calls, evtId, handler, PostAll(events));
    assert events <= r.accepted by { AllKept(env, events); }
    assert r.accepted[..100] == events[..100];
  }

  lemma AllKept(env: Env, events: seq<Event>)
    requires forall a, b :: !env.same(a, b)
    ensures Kept(env, [], Flat(PostAll(events))) == events
  {
    var w := Opened(World(None, [], [], []), 0, None);
    PerformDoes(env, w, PostAll(events));
    AllAccepted(env, w, events);
    assert [] + Kept(env, [], Flat(PostAll(events))) == Kept(env, [], Flat(PostAll(events))) && [] + events == events;
  }

  lemma FirstIsSound(env: Env, calls: seq<Call>, evtId: int, handler: Option<nat>)
    ensures Sound(env, Opened(World(None, [], [], calls), evtId, handler))
  {
  }

  lemma SentIsPrefix(env: Env, r: World)
    requires Sound(env, r)
    ensures EventsOf(r.sent) <= r.accepted && (r.queue.value.events == [] ==> EventsOf(r.sent) == r.accepted)
  {
  }

  // ----- the code

  class EventCenter {
    const env: Env
    var queue: Option<Queue>
    var accepted: seq<Event>
    var sent: seq<Sent>
    var calls: seq<Call>

    constructor (env: Env)
      ensures this.env == env && State() == World(None, [], [], [])
    {
      this.env := env;
      queue, accepted, sent, calls := None, [], [], [];
    }

    function State(): World
      reads this
    {
      World(queue, accepted, sent, calls)
    }

    /** AsyncQueue::Post walks the queued events, the one being dispatched included. */
    method PostEvent(e: Event)
      requires IsOpen(State())
      modifies this
      ensures State() == Posted(env, old(State()), e)
    {
      var q := queue.value;
      for i := 0 to |q.events|
        invariant !Repeats(env, q.events[..i], e)
      {
        if q.events[i].id == e.id && env.same(q.events[i], e) {
          return;
        }
        assert q.events[..i + 1] == q.events[..i] + [q.events[i]];
      }
      assert q.events[..|q.events|] == q.events;
      queue := Some(q.(events := q.events + [e]));
      accepted := accepted + [e];
    }

    method OpenScope(evtId: int, handler: Option<nat>)
      requires queue.None? || IsOpen(State())
      modifies this
      ensures State() == Opened(old(State()), evtId, handler)
    {
      if queue.None? {
        queue := Some(Queue([], map[], 0));
      }
      var q := queue.value;
      queue := Some(q.(depth := q.depth + 1, handlers := WithHandler(q.handlers, evtId, handler)));
    }

    method RunScript(acts: seq<Act>)
      requires IsOpen(State())
      modifies this
      ensures State() == Perform(env, old(State()), acts)
      decreases 0, Size(acts) + 1
    {
      hide Posted, Opened, Closed;
      assert acts[0..] == acts;
      for i := 0 to |acts|
        invariant IsOpen(State()) && Perform(env, State(), acts[i..]) == Perform(env, old(State()), acts)
        invariant Size(acts[i..]) <= Size(acts)
      {
        assert acts[i..][0] == acts[i] && acts[i..][1..] == acts[i + 1..];
        if acts[i].Post? {
          PostEvent(acts[i].event);
        } else {
          OneDeeper(State(), acts[i].evtId, acts[i].handler);
          OpenScope(acts[i].evtId, acts[i].handler);
          RunScript(acts[i].body);
          CloseScope();
        }
      }
    }

    /** The decrement of AsyncQueue, and the deletion of the queue when it reaches zero. */
    method CloseScope()
      requires IsOpen(State())
      modifies this
      ensures State() == Closed(env, old(State()))
      decreases if queue.value.depth >= 2 then 0 else 2, if queue.value.depth >= 2 then 0 else MAX_CAPABILITY + 1
    {
      hide Served, Notified, Popped;
      ghost var start := State();
      queue := Some(queue.value.(depth := queue.value.depth - 1));
      if queue.value.depth > 0 {
        return;
      }
      queue := Some(queue.value.(depth := 1));
      assert State() == start;
      var count := 0;
      while queue.value.events != [] && count < MAX_CAPABILITY
        invariant IsOpen(State()) && 0 <= count <= MAX_CAPABILITY
        invariant Drained(env, State(), count) == Drained(env, start, 0)
        decreases MAX_CAPABILITY - count
      {
        DispatchFront();
        count := count + 1;
      }
      queue := None;
    }

    /** One turn of the drain loop: observers, then the handler found afterwards, then the event goes. */
    method DispatchFront()
      requires IsOpen(State()) && queue.value.events != []
      modifies this
      ensures IsOpen(State()) && State() == Turn(env, old(State()))
      decreases 2, 0
    {
      hide Called, Perform;
      var e := queue.value.events[0];
      for k := 0 to env.observers(e.id)
        invariant IsOpen(State()) && Notified(env, State(), e, k) == Notified(env, old(State()), e, 0)
      {
        RunCallback(Observer(k, e));
      }
      var h := HandlerOf(State(), e);
      if h.Some? {
        RunCallback(Temporary(h.value, e));
      }
      var q := queue.value;
      queue := Some(q.(events := q.events[1..]));
      sent := sent + [Sent(q.events[0], h)];
    }

    method RunCallback(c: Call)
      requires IsOpen(State())
      modifies this
      ensures IsOpen(State()) && State() == Called(env, old(State()), c)
      decreases 1
    {
      var n := |calls|;
      calls := calls + [c];
      RunScript(env.scripts(n));
    }
  }

  lemma OneDeeper(w: World, evtId: int, handler: Option<nat>)
    requires IsOpen(w)
    ensures Opened(w, evtId, handler).queue.value.depth >= 2
  {
  }
}
