/** The bounded first-come-first-served queue between the agent's threads, and the sender thread
    that puts a packet back when the transport failed under it. */
module Schedulers {
  import opened Words

  // The agent's queues hold at least one packet.
  type Capacity = x: int | 1 <= x witness 1

  class FCFSScheduler<T> {
    const maxSize: Capacity
    var deque: seq<T>
    var runningCond: bool

    constructor (maxSize: Capacity)
      ensures this.maxSize == maxSize && deque == [] && !runningCond
    {
      this.maxSize := maxSize;
      deque, runningCond := [], false;
    }

    method Init()
      modifies this`runningCond
      ensures runningCond
    {
      runningCond := true;
    }

    method Deinit()
      modifies this`runningCond
      ensures !runningCond
    {
      runningCond := false;
    }

    method Push(element: T)
      modifies this`deque
      ensures deque == PushBack(old(deque), maxSize, element)
    {
      if maxSize <= |deque| {
        deque := deque[1..];
      }
      deque := deque + [element];
    }

    method PushFront(element: T)
      modifies this`deque
      ensures deque == PutBack(old(deque), element)
    {
      deque := [element] + deque;
    }

    // What a consumer waits for.
    predicate Ready()
      reads this
    {
      !(deque == [] && runningCond)
    }

    // The rest of pop, once the wait is over.
    method Pop() returns (element: Option<T>)
      requires Ready()
      modifies this`deque
      ensures if runningCond
              then old(deque) != [] && element == Some(old(deque)[0]) && deque == old(deque)[1..]
              else element == None && deque == old(deque)
      ensures (element, deque) == PopFront(old(deque), runningCond)
    {
      element := None;
      if runningCond {
        element := Some(deque[0]);
        deque := deque[1..];
      }
    }
  }

  // A push at or over capacity first drops the packet at the front.
  function PushBack<T>(deque: seq<T>, maxSize: Capacity, element: T): seq<T> {
    (if maxSize <= |deque| then deque[1..] else deque) + [element]
  }

  function PutBack<T>(deque: seq<T>, element: T): seq<T> {
    [element] + deque
  }

  // What a consumer gets once the wait is over, and what stays.
  function PopFront<T>(deque: seq<T>, running: bool): (Option<T>, seq<T>)
    requires running ==> deque != []
  {
    if running then (Some(deque[0]), deque[1..]) else (None, deque)
  }

  // ---------------------------------------------------------------- runs of the sender

  /** Packets are named by the order of their pushes. held is the packet the sender has popped and not
      yet settled; sent, lost and dropped are the packets that left: delivered, given up after an error
      of the destination, or pushed out by newer ones. */
  datatype World = World(
    queue: seq<nat>,
    next: nat,
    running: bool,
    held: Option<nat>,
    sent: seq<nat>,
    lost: seq<nat>,
    dropped: seq<nat>)

  const START := World([], 0, true, None, [], [], [])

  datatype Event = Pushed | Popped | SendSucceeds | SendFails | ServerError | Stopped | Restarted

  // sender_loop settles the packet it holds before it pops again, and pops only when the wait is over.
  predicate Enabled(w: World, e: Event) {
    match e
    case Popped => w.held.None? && !(w.queue == [] && w.running)
    case SendSucceeds => w.held.Some?
    case SendFails => w.held.Some?
    case ServerError => w.held.Some?
    case _ => true
  }

  function Step(w: World, capacity: Capacity, e: Event): World
    requires Enabled(w, e)
  {
    match e
    case Pushed =>
      w.(queue := PushBack(w.queue, capacity, w.next),
         dropped := w.dropped + if capacity <= |w.queue| then [w.queue[0]] else [],
         next := w.next + 1)
    case Popped => var (packet, rest) := PopFront(w.queue, w.running); w.(held := packet, queue := rest)
    case SendSucceeds => w.(sent := w.sent + [w.held.value], held := None)
    case SendFails => w.(lost := w.lost + [w.held.value], held := None)
    case ServerError => w.(queue := PutBack(w.queue, w.held.value), held := None)
    case Stopped => w.(running := false)
    case Restarted => w.(running := true)
  }

  ghost predicate Steps(w: World, capacity: Capacity, events: seq<Event>, w': World)
    decreases |events|
  {
    if events == [] then w == w'
    else Enabled(w, events[0]) && Steps(Step(w, capacity, events[0]), capacity, events[1..], w')
  }

  // The packets still in the sender's hands, oldest first.
  function Pending(w: World): seq<nat> {
    (if w.held.Some? then [w.held.value] else []) + w.queue
  }

  ghost predicate Ascending(s: seq<nat>) {
    forall i, j :: 0 <= i < j < |s| ==> s[i] < s[j]
  }

  function FirstStamps(n: nat): seq<nat> {
    seq(n, i => i)
  }

  /** What was sent, followed by what is pending, is in push order; so is what was given up, followed by
      what is pending; and at most one packet more than the capacity is pending. */
  ghost predicate Ordered(w: World, capacity: Capacity) {
    && Ascending(w.sent + Pending(w)) && Below(w.sent + Pending(w), w.next)
    && Ascending(w.lost + Pending(w)) && Below(w.lost + Pending(w), w.next)
    && |Pending(w)| <= capacity + 1
  }

  function Everywhere(w: World): multiset<nat> {
    multiset(Pending(w)) + multiset(w.sent) + multiset(w.lost) + multiset(w.dropped)
  }

  // No packet is lost track of, and none is duplicated.
  ghost predicate Accounted(w: World) {
    Everywhere(w) == multiset(FirstStamps(w.next))
  }

  ghost predicate Orderly(w: World, capacity: Capacity) {
    Ordered(w, capacity) && Accounted(w)
  }

  ghost predicate Below(s: seq<nat>, n: nat) {
    forall i :: 0 <= i < |s| ==> s[i] < n
  }

  // A push appends its packet to the pending ones, in front of which it may drop the oldest queued one.
  lemma PushOnPending(w: World, capacity: Capacity) returns (h: seq<nat>, rest: seq<nat>, gone: seq<nat>)
    ensures h == if w.held.Some? then [w.held.value] else []
    ensures |gone| <= 1 && (gone != [] <==> capacity <= |w.queue|)
    ensures w.queue == gone + rest
    ensures Pending(w) == h + gone + rest
    ensures Pending(Step(w, capacity, Pushed)) == h + rest + [w.next]
    ensures Step(w, capacity, Pushed).queue == rest + [w.next]
    ensures var w' := Step(w, capacity, Pushed);
            w'.dropped == w.dropped + gone && w'.sent == w.sent && w'.lost == w.lost && w'.next == w.next + 1
  {
    h := if w.held.Some? then [w.held.value] else [];
    rest, gone := PushBackSplits(w.queue, capacity, w.next);
    assert h + (gone + rest) == h + gone + rest;
    assert h + (rest + [w.next]) == h + rest + [w.next];
  }

  lemma PushBackSplits(queue: seq<nat>, capacity: Capacity, element: nat) returns (rest: seq<nat>, gone: seq<nat>)
    ensures gone == if capacity <= |queue| then [queue[0]] else []
    ensures queue == gone + rest && PushBack(queue, capacity, element) == rest + [element]
  {
    gone := if capacity <= |queue| then [queue[0]] else [];
    rest := queue[|gone|..];
  }

  lemma AscendingWithout(a: seq<nat>, gone: seq<nat>, b: seq<nat>, n: nat)
    requires Ascending(a + gone + b) && Below(a + gone + b, n)
    ensures Ascending(a + b) && Below(a + b, n)
  {
    var s, t := a + gone + b, a + b;
    assert forall i :: 0 <= i < |t| ==> t[i] == s[if i < |a| then i else i + |gone|];
  }

  lemma AscendingThenNext(s: seq<nat>, n: nat)
    requires Ascending(s) && Below(s, n)
    ensures Ascending(s + [n]) && Below(s + [n], n + 1)
  {
  }

  lemma PushKeepsOrdered(w: World, capacity: Capacity)
    requires Ordered(w, capacity)
    ensures Ordered(Step(w, capacity, Pushed), capacity)
  {
    var w' := Step(w, capacity, Pushed);
    var h, rest, gone := PushOnPending(w, capacity);
    PushBehind(w.sent, h, gone, rest, w.next);
    PushBehind(w.lost, h, gone, rest, w.next);
  }

  lemma PushBehind(settled: seq<nat>, h: seq<nat>, gone: seq<nat>, rest: seq<nat>, n: nat)
    requires Ascending(settled + (h + gone + rest)) && Below(settled + (h + gone + rest), n)
    ensures Ascending(settled + (h + rest + [n])) && Below(settled + (h + rest + [n]), n + 1)
  {
    assert settled + (h + gone + rest) == (settled + h) + gone + rest;
    AscendingWithout(settled + h, gone, rest, n);
    AscendingThenNext(settled + h + rest, n);
    assert settled + (h + rest + [n]) == settled + h + rest + [n];
  }

  lemma PushKeepsAccounted(w: World, capacity: Capacity)
    requires Accounted(w)
    ensures Accounted(Step(w, capacity, Pushed))
  {
    hide Pending, FirstStamps, Step;
    var w' := Step(w, capacity, Pushed);
    var h, rest, gone := PushOnPending(w, capacity);
    StampsGrow(w.next);
    MoveAndAppend(h, gone, rest, w.next, w.dropped);
    Regroup(multiset(Pending(w)), multiset(Pending(w')), multiset(w.sent), multiset(w.lost),
            multiset(w.dropped), multiset(w'.dropped), multiset([w.next]));
  }

  lemma StampsGrow(n: nat)
    ensures multiset(FirstStamps(n + 1)) == multiset(FirstStamps(n)) + multiset([n])
  {
    assert FirstStamps(n + 1) == FirstStamps(n) + [n];
  }

  lemma MoveAndAppend(h: seq<nat>, gone: seq<nat>, rest: seq<nat>, n: nat, dropped: seq<nat>)
    ensures multiset(h + rest + [n]) + multiset(dropped + gone)
            == multiset(h + gone + rest) + multiset(dropped) + multiset([n])
  {
  }

  lemma Regroup(p: multiset<nat>, p': multiset<nat>, s: multiset<nat>, l: multiset<nat>,
                d: multiset<nat>, d': multiset<nat>, n: multiset<nat>)
    requires p' + d' == p + d + n
    ensures p' + s + l + d' == p + s + l + d + n
  {
    assert p' + s + l + d' == (p' + d') + s + l;
  }

  // Settling a packet moves it from the pending ones to the sent or the given up; nothing else changes them.
  lemma OtherOnPending(w: World, capacity: Capacity, e: Event)
    requires Enabled(w, e) && !e.Pushed?
    ensures var w' := Step(w, capacity, e);
            var settled := if e.SendSucceeds? || e.SendFails? then [w.held.value] else [];
            && Pending(w) == settled + Pending(w')
            && w'.sent == w.sent + (if e.SendSucceeds? then settled else [])
            && w'.lost == w.lost + (if e.SendFails? then settled else [])
            && w'.dropped == w.dropped && w'.next == w.next
  {
  }

  lemma OtherKeepsOrdered(w: World, capacity: Capacity, e: Event)
    requires Ordered(w, capacity) && Enabled(w, e) && !e.Pushed?
    ensures Ordered(Step(w, capacity, e), capacity)
  {
    var w' := Step(w, capacity, e);
    OtherOnPending(w, capacity, e);
    if e.SendSucceeds? || e.SendFails? {
      var settled := [w.held.value];
      assert w.sent + Pending(w) == w.sent + settled + Pending(w');
      assert w.lost + Pending(w) == w.lost + settled + Pending(w');
      AscendingWithout(w.sent, settled, Pending(w'), w.next);
      AscendingWithout(w.lost, settled, Pending(w'), w.next);
    } else {
      assert Pending(w') == Pending(w) && w'.sent == w.sent && w'.lost == w.lost;
    }
  }

  lemma OtherKeepsAccounted(w: World, capacity: Capacity, e: Event)
    requires Accounted(w) && Enabled(w, e) && !e.Pushed?
    ensures Accounted(Step(w, capacity, e))
  {
    OtherOnPending(w, capacity, e);
  }

  lemma {:induction false} RunKeepsOrder(w: World, capacity: Capacity, events: seq<Event>, w': World)
    requires Orderly(w, capacity) && Steps(w, capacity, events, w')
    ensures Orderly(w', capacity)
    decreases |events|
  {
    if events != [] {
      if events[0].Pushed? {
        PushKeepsOrdered(w, capacity);
        PushKeepsAccounted(w, capacity);
      } else {
        OtherKeepsOrdered(w, capacity, events[0]);
        OtherKeepsAccounted(w, capacity, events[0]);
      }
      RunKeepsOrder(Step(w, capacity, events[0]), capacity, events[1..], w');
    }
  }

  lemma EveryReachableStateIsOrderly(capacity: Capacity, events: seq<Event>, w: World)
    requires Steps(START, capacity, events, w)
    ensures Orderly(w, capacity)
  {
    assert Pending(START) == [];
    RunKeepsOrder(START, capacity, events, w);
  }

  lemma QueueIsBehindSent(w: World, capacity: Capacity)
    requires Ordered(w, capacity)
    ensures Ascending(w.sent + w.queue) && Below(w.sent + w.queue, w.next)
  {
    var h := if w.held.Some? then [w.held.value] else [];
    assert w.sent + Pending(w) == w.sent + h + w.queue;
    AscendingWithout(w.sent, h, w.queue, w.next);
  }

  /** Over any run of producers, the sender and stops: the queue stays in push order and at most one
      over capacity, and packets are sent in push order, before everything still queued. */
  lemma QueueWithPutBack(capacity: Capacity, events: seq<Event>, w: World)
    requires Steps(START, capacity, events, w)
    ensures Ascending(w.sent + w.queue) && |w.queue| <= capacity + 1
  {
    EveryReachableStateIsOrderly(capacity, events, w);
    QueueIsBehindSent(w, capacity);
  }

  /** No packet is duplicated or unaccounted for: what was pushed is what was sent, given up, dropped, is
      queued or is held. */
  lemma PacketsAreConserved(capacity: Capacity, events: seq<Event>, w: World)
    requires Steps(START, capacity, events, w)
    ensures multiset(w.queue) + multiset(if w.held.Some? then [w.held.value] else [])
            + multiset(w.sent) + multiset(w.lost) + multiset(w.dropped) == multiset(FirstStamps(w.next))
  {
    EveryReachableStateIsOrderly(capacity, events, w);
    var h := if w.held.Some? then [w.held.value] else [];
    assert multiset(Pending(w)) == multiset(h) + multiset(w.queue);
  }

  function CountOf(events: seq<Event>, e: Event): nat {
    if events == [] then 0 else (if events[0] == e then 1 else 0) + CountOf(events[1..], e)
  }

  lemma {:induction false} RunSettles(w: World, capacity: Capacity, events: seq<Event>, w': World)
    requires Steps(w, capacity, events, w')
    ensures |w'.sent| == |w.sent| + CountOf(events, SendSucceeds)
    ensures |w'.lost| == |w.lost| + CountOf(events, SendFails)
    ensures w'.next == w.next + CountOf(events, Pushed)
    decreases |events|
  {
    if events != [] {
      RunSettles(Step(w, capacity, events[0]), capacity, events[1..], w');
    }
  }

  /** Each packet leaves as the transport says: one is sent for each send that succeeds, one given up for each
      that fails on its destination, none for an error of the server; and all others stay or are dropped. */
  lemma PacketsAreSettled(capacity: Capacity, events: seq<Event>, w: World)
    requires Steps(START, capacity, events, w)
    ensures |w.sent| == CountOf(events, SendSucceeds) && |w.lost| == CountOf(events, SendFails)
    ensures |w.queue| + |w.dropped| + (if w.held.Some? then 1 else 0)
            == CountOf(events, Pushed) - CountOf(events, SendSucceeds) - CountOf(events, SendFails)
  {
    RunSettles(START, capacity, events, w);
    PacketsAreConserved(capacity, events, w);
    var h := if w.held.Some? then [w.held.value] else [];
    assert |multiset(w.queue) + multiset(h) + multiset(w.sent) + multiset(w.lost) + multiset(w.dropped)|
        == |w.queue| + |h| + |w.sent| + |w.lost| + |w.dropped|;
  }

  /** What a push drops is older than everything that stays queued. */
  lemma OnlyTheOldestIsDropped(capacity: Capacity, events: seq<Event>, w: World)
    requires Steps(START, capacity, events, w) && capacity <= |w.queue|
    ensures var w' := Step(w, capacity, Pushed);
            && w'.dropped == w.dropped + [w.queue[0]]
            && Ascending([w.queue[0]] + w'.queue)
  {
    EveryReachableStateIsOrderly(capacity, events, w);
    QueueIsBehindSent(w, capacity);
    DropOldest(w.sent, w.queue, w.next);
  }

  lemma SuffixAscends(a: seq<nat>, b: seq<nat>, n: nat)
    requires Ascending(a + b) && Below(a + b, n)
    ensures Ascending(b) && Below(b, n)
  {
    assert forall i :: 0 <= i < |b| ==> b[i] == (a + b)[|a| + i];
  }

  lemma DropOldest(sent: seq<nat>, queue: seq<nat>, n: nat)
    requires Ascending(sent + queue) && Below(sent + queue, n) && queue != []
    ensures Ascending([queue[0]] + (queue[1..] + [n]))
  {
    SuffixAscends(sent, queue, n);
    AscendingThenNext(queue, n);
    assert [queue[0]] + (queue[1..] + [n]) == queue + [n];
  }

  // ---------------------------------------------------------------- the order of drops

  // A newer packet was dropped.
  ghost predicate Overtaken(dropped: seq<nat>, packet: nat) {
    exists d :: d in dropped && packet < d
  }

  // The packets put back behind a newer drop, so far.
  ghost function LateAfter(w: World, e: Event, late: set<nat>): set<nat> {
    if e.ServerError? && w.held.Some? && Overtaken(w.dropped, w.held.value) then late + {w.held.value} else late
  }

  // No push of the run drops a packet that was put back behind a newer drop.
  ghost predicate SparesLate(w: World, capacity: Capacity, events: seq<Event>, late: set<nat>)
    decreases |events|
  {
    events != [] && Enabled(w, events[0]) ==>
      && !(events[0].Pushed? && capacity <= |w.queue| && w.queue[0] in late)
      && SparesLate(Step(w, capacity, events[0]), capacity, events[1..], LateAfter(w, events[0], late))
  }

  // late holds the packets put back behind a newer drop: among the queued, exactly the overtaken ones.
  ghost predicate KnowsLate(queue: seq<nat>, dropped: seq<nat>, late: set<nat>) {
    && (forall p :: p in queue && Overtaken(dropped, p) ==> p in late)
    && (forall p :: p in late ==> Overtaken(dropped, p))
  }

  // What was dropped is not pending, and was pushed.
  ghost predicate DropsAreGone(pending: seq<nat>, dropped: seq<nat>, next: nat) {
    && (forall p :: p in pending ==> p !in dropped)
    && Below(dropped, next)
  }

  ghost predicate Tracked(w: World, late: set<nat>) {
    KnowsLate(w.queue, w.dropped, late) && DropsAreGone(Pending(w), w.dropped, w.next)
  }

  /** One push keeps drops in push order exactly when it drops nothing, or the first packet ever, or one
      newer than the last drop. */
  lemma PushKeepsDropsAscendingIff(w: World, capacity: Capacity)
    requires Ascending(w.dropped)
    ensures Ascending(Step(w, capacity, Pushed).dropped)
            <==> |w.queue| < capacity || w.dropped == [] || w.dropped[|w.dropped| - 1] < w.queue[0]
  {
    var drops := Step(w, capacity, Pushed).dropped;
    if capacity <= |w.queue| && w.dropped != [] {
      var n := |w.dropped|;
      assert drops[n - 1] == w.dropped[n - 1] && drops[n] == w.queue[0];
    }
  }

  // A push whose dropped packet, if any, is older than the rest of the queue overtakes nothing in it.
  lemma PushKeepsLate(gone: seq<nat>, rest: seq<nat>, dropped: seq<nat>, next: nat, late: set<nat>)
    requires |gone| <= 1 && Ascending(gone + rest) && Below(gone + rest, next) && Below(dropped, next)
    requires KnowsLate(gone + rest, dropped, late)
    ensures KnowsLate(rest + [next], dropped + gone, late)
  {
    assert gone != [] ==> gone[0] == (gone + rest)[0];
    forall p | p in rest + [next] && Overtaken(dropped + gone, p)
      ensures p in late
    {
      var d :| d in dropped + gone && p < d;
      if p in rest {
        var i :| 0 <= i < |rest| && rest[i] == p;
        assert p == (gone + rest)[|gone| + i];
      }
    }
    forall p | p in late
      ensures Overtaken(dropped + gone, p)
    {
      var d :| d in dropped && p < d;
      assert d in dropped + gone;
    }
  }

  lemma PushKeepsDropsGone(h: seq<nat>, gone: seq<nat>, rest: seq<nat>, dropped: seq<nat>, next: nat)
    requires |gone| <= 1 && Ascending(h + gone + rest) && Below(h + gone + rest, next)
    requires DropsAreGone(h + gone + rest, dropped, next)
    ensures DropsAreGone(h + rest + [next], dropped + gone, next + 1)
  {
    var all := h + gone + rest;
    assert gone != [] ==> gone[0] == all[|h|];
    forall p | p in h + rest + [next]
      ensures p !in dropped + gone
    {
      if p in h {
        var i :| 0 <= i < |h| && h[i] == p;
        assert all[i] == p;
      } else if p in rest {
        var i :| 0 <= i < |rest| && rest[i] == p;
        assert all[|h| + |gone| + i] == p;
      } else {
        assert p == next;
      }
    }
  }

  lemma PushKeepsTracked(w: World, capacity: Capacity, late: set<nat>)
    requires Tracked(w, late) && Ordered(w, capacity)
    ensures Tracked(Step(w, capacity, Pushed), late)
  {
    hide KnowsLate, DropsAreGone, Pending, Step, Ascending, Below;
    var h, rest, gone := PushOnPending(w, capacity);
    SuffixAscends(w.sent, Pending(w), w.next);
    assert h + gone + rest == h + w.queue;
    SuffixAscends(h, w.queue, w.next);
    DropsBelow(Pending(w), w.dropped, w.next);
    PushKeepsLate(gone, rest, w.dropped, w.next, late);
    PushKeepsDropsGone(h, gone, rest, w.dropped, w.next);
  }

  lemma DropsBelow(pending: seq<nat>, dropped: seq<nat>, next: nat)
    requires DropsAreGone(pending, dropped, next)
    ensures Below(dropped, next)
  {
  }

  lemma OtherKeepsTracked(w: World, capacity: Capacity, e: Event, late: set<nat>)
    requires Tracked(w, late) && Enabled(w, e) && !e.Pushed?
    ensures Tracked(Step(w, capacity, e), LateAfter(w, e, late))
  {
    hide Pending;
    var w' := Step(w, capacity, e);
    OtherOnPending(w, capacity, e);
    assert forall p :: p in Pending(w') ==> p in Pending(w);
    assert forall p :: p in w'.queue ==> p in w.queue || (e.ServerError? && p == w.held.value);
  }

  lemma {:induction false} DropsAreKept(w: World, capacity: Capacity, events: seq<Event>, w': World)
    requires Steps(w, capacity, events, w')
    ensures |w.dropped| <= |w'.dropped| && w'.dropped[..|w.dropped|] == w.dropped
    decreases |events|
  {
    if events != [] {
      DropsAreKept(Step(w, capacity, events[0]), capacity, events[1..], w');
    }
  }

  lemma PushDropsInOrderIffNotLate(w: World, capacity: Capacity, late: set<nat>)
    requires Tracked(w, late) && Ascending(w.dropped)
    ensures Ascending(Step(w, capacity, Pushed).dropped) <==> !(capacity <= |w.queue| && w.queue[0] in late)
  {
    PushKeepsDropsAscendingIff(w, capacity);
    if capacity <= |w.queue| {
      var first := w.queue[0];
      assert first in w.queue && first in Pending(w);
      if w.dropped != [] {
        var last := w.dropped[|w.dropped| - 1];
        assert last in w.dropped;
        assert forall d :: d in w.dropped ==> d <= last;
      }
    }
  }

  lemma {:induction false} DropsAscendFrom(w: World, capacity: Capacity, events: seq<Event>, w': World, late: set<nat>)
    requires Steps(w, capacity, events, w')
    requires Ordered(w, capacity) && Tracked(w, late) && Ascending(w.dropped)
    ensures Ascending(w'.dropped) <==> SparesLate(w, capacity, events, late)
    decreases |events|
  {
    hide Ordered, Tracked, Overtaken, Pending;
    if events != [] {
      var e, mid := events[0], Step(w, capacity, events[0]);
      DropsAreKept(mid, capacity, events[1..], w');
      if e.Pushed? {
        PushKeepsOrdered(w, capacity);
        PushKeepsTracked(w, capacity, late);
        PushDropsInOrderIffNotLate(w, capacity, late);
      } else {
        OtherKeepsOrdered(w, capacity, e);
        OtherKeepsTracked(w, capacity, e, late);
        assert mid.dropped == w.dropped;
      }
      if Ascending(mid.dropped) {
        DropsAscendFrom(mid, capacity, events[1..], w', LateAfter(w, e, late));
      } else {
        PrefixAscends(mid.dropped, w'.dropped);
      }
    }
  }

  lemma PrefixAscends(a: seq<nat>, b: seq<nat>)
    requires |a| <= |b| && b[..|a|] == a
    ensures Ascending(b) ==> Ascending(a)
  {
  }

  /** Over whole runs, exactly: packets are dropped in push order iff no packet that was put back behind a
      newer drop is itself dropped. */
  lemma DropsAscendIff(capacity: Capacity, events: seq<Event>, w: World)
    requires Steps(START, capacity, events, w)
    ensures Ascending(w.dropped) <==> SparesLate(START, capacity, events, {})
  {
    assert Pending(START) == [];
    DropsAscendFrom(START, capacity, events, w, {});
  }

  function Pushes(n: nat): (events: seq<Event>)
    ensures |events| == n
  {
    seq(n, _ => Pushed)
  }

  // The sender holds the first packet while n more are queued.
  function Filled(n: nat): World {
    World(seq(n, i => i + 1), n + 1, true, Some(0), [], [], [])
  }

  lemma {:induction false} Fills(capacity: Capacity, k: nat, n: nat)
    requires k <= n <= capacity
    ensures Steps(Filled(k), capacity, Pushes(n - k), Filled(n))
    decreases n - k
  {
    if k < n {
      assert Pushes(n - k)[1..] == Pushes(n - k - 1);
      assert Step(Filled(k), capacity, Pushed) == Filled(k + 1);
      Fills(capacity, k + 1, n);
    }
  }

  /** Such runs exist at every capacity: the sender holds the oldest packet, the queue fills and drops the
      second oldest, the transport fails, and the packet put back is the next to go. */
  lemma PutBackReordersDrops(capacity: Capacity)
    ensures exists w ::
              && Steps(START, capacity, [Pushed, Popped] + Pushes(capacity) + [Pushed, ServerError, Pushed], w)
              && w.dropped == [1, 0]
  {
    var w1 := Step(START, capacity, Pushed);
    var w2 := Step(w1, capacity, Popped);
    assert w2 == Filled(0);
    var full := Filled(capacity);
    var w3 := Step(full, capacity, Pushed);
    var w4 := Step(w3, capacity, ServerError);
    var w5 := Step(w4, capacity, Pushed);
    assert full.queue[0] == 1 && w3.dropped == [] + [1] == [1];
    assert w4.queue[0] == 0 && w5.dropped == [1] + [0] == [1, 0];
    StepsCons(w4, capacity, Pushed, [], w5);
    StepsCons(w3, capacity, ServerError, [Pushed], w5);
    StepsCons(full, capacity, Pushed, [ServerError, Pushed], w5);
    Fills(capacity, 0, capacity);
    StepsJoin(w2, capacity, Pushes(capacity), full, [Pushed, ServerError, Pushed], w5);
    var rest := Pushes(capacity) + [Pushed, ServerError, Pushed];
    StepsCons(w1, capacity, Popped, rest, w5);
    StepsCons(START, capacity, Pushed, [Popped] + rest, w5);
    assert [Pushed, Popped] + Pushes(capacity) + [Pushed, ServerError, Pushed] == [Pushed] + ([Popped] + rest);
  }

  lemma {:induction false} StepsJoin(w: World, capacity: Capacity, a: seq<Event>, mid: World, b: seq<Event>, w': World)
    requires Steps(w, capacity, a, mid) && Steps(mid, capacity, b, w')
    ensures Steps(w, capacity, a + b, w')
    decreases |a|
  {
    if a == [] {
      assert a + b == b;
    } else {
      assert (a + b)[1..] == a[1..] + b;
      StepsJoin(Step(w, capacity, a[0]), capacity, a[1..], mid, b, w');
    }
  }

  lemma StepsCons(w: World, capacity: Capacity, e: Event, rest: seq<Event>, w': World)
    requires Enabled(w, e) && Steps(Step(w, capacity, e), capacity, rest, w')
    ensures Steps(w, capacity, [e] + rest, w')
  {
  }
}
