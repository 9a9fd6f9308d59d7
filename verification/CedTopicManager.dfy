/** The process-wide table of shared topics: clients that name the same topic in the same domain meet
    in one topic as long as anybody holds it, and listeners hear of every topic and domain. */
module CedTopicManagers {
  import opened Words

  // A shared topic object; id tells apart the objects that bore one name at different times.
  datatype GlobalTopic = GlobalTopic(id: nat, domain: i16, name: string)

  /** topics is the table of weak references; holders counts the strong references to each live topic;
      heard records the announcements each listener key received since it registered. */
  datatype Registry = Registry(
    topics: map<i16, map<string, GlobalTopic>>,
    holders: map<GlobalTopic, nat>,
    nextId: nat,
    domainsHeard: map<u32, seq<i16>>,
    topicsHeard: map<u32, seq<(i16, string)>>)

  const EMPTY := Registry(map[], map[], 0, map[], map[])

  function Lookup(r: Registry, domain: i16, name: string): Option<GlobalTopic> {
    if domain in r.topics && name in r.topics[domain] then Some(r.topics[domain][name]) else None
  }

  function Tell<T>(heard: map<u32, seq<T>>, what: T): map<u32, seq<T>> {
    map key | key in heard :: heard[key] + [what]
  }

  function RegisterDomain(r: Registry, domain: i16): Registry {
    if domain in r.topics then r
    else r.(topics := r.topics[domain := map[]], domainsHeard := Tell(r.domainsHeard, domain))
  }

  // The topic a registration hands out: the live one of that name, or a new one.
  function Registered(r: Registry, name: string, domain: i16): GlobalTopic {
    match Lookup(r, domain, name)
    case Some(t) => t
    case None => GlobalTopic(r.nextId, domain, name)
  }

  function AddTopic(r: Registry, t: GlobalTopic): Registry
    requires t.domain in r.topics
  {
    r.(topics := r.topics[t.domain := r.topics[t.domain][t.name := t]],
       holders := r.holders[t := 1],
       nextId := r.nextId + 1,
       topicsHeard := Tell(r.topicsHeard, (t.domain, t.name)))
  }

  function Hold(r: Registry, t: GlobalTopic): Registry {
    r.(holders := r.holders[t := (if t in r.holders then r.holders[t] else 0) + 1])
  }

  function Register(r: Registry, name: string, domain: i16): Registry {
    if Lookup(r, domain, name).Some? then Hold(r, Registered(r, name, domain))
    else AddTopic(RegisterDomain(r, domain), Registered(r, name, domain))
  }

  // The last strong reference goes: the topic is destroyed and leaves the table.
  function Destroy(r: Registry, t: GlobalTopic): Registry {
    var gone := r.(holders := r.holders - {t});
    if Lookup(r, t.domain, t.name).None? then gone
    else
      var rest := r.topics[t.domain] - {t.name};
      gone.(topics := if rest == map[] then r.topics - {t.domain} else r.topics[t.domain := rest])
  }

  function Release(r: Registry, t: GlobalTopic): Registry {
    if t !in r.holders then r
    else if r.holders[t] > 1 then r.(holders := r.holders[t := r.holders[t] - 1])
    else Destroy(r, t)
  }

  // The table lists topics under their own names and domains, and only live ones.
  ghost predicate ListedIsLive(r: Registry) {
    forall d: i16, n :: Lookup(r, d, n).Some? ==>
      var t := Lookup(r, d, n).value; t.domain == d && t.name == n && t in r.holders
  }

  ghost predicate LiveIsListed(r: Registry) {
    forall t :: t in r.holders ==>
      Lookup(r, t.domain, t.name) == Some(t) && r.holders[t] >= 1 && t.id < r.nextId
  }

  ghost predicate NoEmptyDomain(r: Registry) {
    forall d :: d in r.topics ==> r.topics[d] != map[]
  }

  ghost predicate ListsDomains(r: Registry, s: seq<i16>) {
    forall d :: d in r.topics ==> d in s
  }

  ghost predicate ListsTopics(r: Registry, s: seq<(i16, string)>) {
    forall d: i16, n :: Lookup(r, d, n).Some? ==> (d, n) in s
  }

  ghost predicate ListenersKnow(r: Registry) {
    && (forall key :: key in r.domainsHeard ==> ListsDomains(r, r.domainsHeard[key]))
    && (forall key :: key in r.topicsHeard ==> ListsTopics(r, r.topicsHeard[key]))
  }

  /** The table lists exactly the live topics, each under its own domain and name, and no domain
      without a topic; every listener has heard of every listed domain and topic. */
  ghost predicate Exact(r: Registry) {
    ListedIsLive(r) && LiveIsListed(r) && NoEmptyDomain(r) && ListenersKnow(r)
  }

  datatype Event =
    | Registering(name: string, domain: i16)
    | Releasing(topic: GlobalTopic)
    | ListeningToDomains(key: u32, domains: seq<i16>)
    | ListeningToTopics(key: u32, topics: seq<(i16, string)>)
    | LeavingDomains(key: u32)
    | LeavingTopics(key: u32)

  // A listener is first told of everything there is and of nothing else, in the order the table happens to have.
  ghost predicate Enabled(r: Registry, e: Event) {
    && (e.ListeningToDomains? ==>
          ListsDomains(r, e.domains) && forall d :: d in e.domains ==> d in r.topics)
    && (e.ListeningToTopics? ==>
          ListsTopics(r, e.topics) && forall t :: t in e.topics ==> Lookup(r, t.0, t.1).Some?)
  }

  // A key already registered keeps its old callback.
  function Step(r: Registry, e: Event): Registry {
    match e
    case Registering(name, domain) => Register(r, name, domain)
    case Releasing(t) => Release(r, t)
    case ListeningToDomains(key, told) =>
      if key in r.domainsHeard then r else r.(domainsHeard := r.domainsHeard[key := told])
    case ListeningToTopics(key, told) =>
      if key in r.topicsHeard then r else r.(topicsHeard := r.topicsHeard[key := told])
    case LeavingDomains(key) => r.(domainsHeard := r.domainsHeard - {key})
    case LeavingTopics(key) => r.(topicsHeard := r.topicsHeard - {key})
  }

  ghost predicate Steps(r: Registry, run: seq<Event>, r': Registry)
    decreases |run|
  {
    if run == [] then r == r' else Enabled(r, run[0]) && Steps(Step(r, run[0]), run[1..], r')
  }

  lemma AddedIsListed(r: Registry, t: GlobalTopic, d: i16, n: string)
    requires Lookup(r, t.domain, t.name).None?
    ensures Lookup(AddTopic(RegisterDomain(r, t.domain), t), d, n)
            == if d == t.domain && n == t.name then Some(t) else Lookup(r, d, n)
  {
  }

  lemma AddKeepsTables(r: Registry, t: GlobalTopic)
    requires ListedIsLive(r) && LiveIsListed(r)
    requires Lookup(r, t.domain, t.name).None? && t.id == r.nextId
    ensures var r' := AddTopic(RegisterDomain(r, t.domain), t);
      ListedIsLive(r') && LiveIsListed(r')
  {
    var r' := AddTopic(RegisterDomain(r, t.domain), t);
    forall d: i16, n
      ensures Lookup(r', d, n) == if d == t.domain && n == t.name then Some(t) else Lookup(r, d, n)
    {
      AddedIsListed(r, t, d, n);
    }
  }

  lemma AddFillsDomain(r: Registry, t: GlobalTopic)
    requires NoEmptyDomain(r)
    ensures NoEmptyDomain(AddTopic(RegisterDomain(r, t.domain), t))
  {
    assert t.name in AddTopic(RegisterDomain(r, t.domain), t).topics[t.domain];
  }

  lemma AddTellsListeners(r: Registry, t: GlobalTopic)
    requires ListenersKnow(r)
    ensures ListenersKnow(AddTopic(RegisterDomain(r, t.domain), t))
  {
    var r' := AddTopic(RegisterDomain(r, t.domain), t);
    forall key | key in r'.domainsHeard ensures ListsDomains(r', r'.domainsHeard[key]) {
      assert ListsDomains(r, r.domainsHeard[key]);
    }
    forall key | key in r'.topicsHeard ensures ListsTopics(r', r'.topicsHeard[key]) {
      assert ListsTopics(r, r.topicsHeard[key]);
      assert forall d: i16, n ::
        Lookup(r', d, n).Some? ==> (d, n) == (t.domain, t.name) || Lookup(r, d, n).Some?;
    }
  }

  lemma HoldKeepsExact(r: Registry, t: GlobalTopic)
    requires Exact(r) && t in r.holders
    ensures Exact(Hold(r, t))
  {
    SameTable(r, Hold(r, t));
  }

  // What a change that leaves the table alone owes.
  lemma SameTable(r: Registry, r': Registry)
    requires Exact(r) && r'.topics == r.topics && r'.holders.Keys == r.holders.Keys && r'.nextId == r.nextId
    requires forall t :: t in r'.holders ==> r'.holders[t] >= 1
    requires forall key :: key in r'.domainsHeard ==> ListsDomains(r, r'.domainsHeard[key])
    requires forall key :: key in r'.topicsHeard ==> ListsTopics(r, r'.topicsHeard[key])
    ensures Exact(r')
  {
    assert forall d: i16, n :: Lookup(r', d, n) == Lookup(r, d, n);
    assert forall t :: t in r'.holders <==> t in r.holders;
    assert forall s :: ListsDomains(r, s) ==> ListsDomains(r', s);
    assert forall s :: ListsTopics(r, s) ==> ListsTopics(r', s);
  }

  lemma RegisterKeepsExact(r: Registry, name: string, domain: i16)
    requires Exact(r)
    ensures Exact(Register(r, name, domain))
  {
    var t := Registered(r, name, domain);
    if Lookup(r, domain, name).Some? {
      HoldKeepsExact(r, t);
    } else {
      AddKeepsTables(r, t);
      AddFillsDomain(r, t);
      AddTellsListeners(r, t);
    }
  }

  lemma ListedIsHeld(r: Registry, name: string, domain: i16)
    requires Exact(r)
    ensures Lookup(r, domain, name).Some? ==> Lookup(r, domain, name).value in r.holders
  {
  }

  lemma DestroyedIsUnlisted(r: Registry, t: GlobalTopic, d: i16, n: string)
    requires Lookup(r, t.domain, t.name).Some?
    ensures Lookup(Destroy(r, t), d, n) == if d == t.domain && n == t.name then None else Lookup(r, d, n)
  {
    var rest := r.topics[t.domain] - {t.name};
    assert n in r.topics[t.domain] && n != t.name ==> n in rest;
  }

  lemma DestroyKeepsTables(r: Registry, t: GlobalTopic)
    requires ListedIsLive(r) && LiveIsListed(r) && t in r.holders
    ensures ListedIsLive(Destroy(r, t)) && LiveIsListed(Destroy(r, t))
  {
    var r' := Destroy(r, t);
    assert r'.holders == r.holders - {t} && r'.nextId == r.nextId;
    forall d: i16, n ensures Lookup(r', d, n) == if d == t.domain && n == t.name then None else Lookup(r, d, n) {
      DestroyedIsUnlisted(r, t, d, n);
    }
  }

  lemma DestroyKeepsListeners(r: Registry, t: GlobalTopic)
    requires NoEmptyDomain(r) && ListenersKnow(r) && Lookup(r, t.domain, t.name).Some?
    ensures NoEmptyDomain(Destroy(r, t)) && ListenersKnow(Destroy(r, t))
  {
  }

  lemma ReleaseKeepsExact(r: Registry, t: GlobalTopic)
    requires Exact(r)
    ensures Exact(Release(r, t))
  {
    if t in r.holders {
      if r.holders[t] > 1 {
        SameTable(r, Release(r, t));
      } else {
        DestroyKeepsTables(r, t);
        DestroyKeepsListeners(r, t);
      }
    }
  }

  lemma StepKeepsExact(r: Registry, e: Event)
    requires Exact(r) && Enabled(r, e)
    ensures Exact(Step(r, e))
  {
    match e
    case Registering(name, domain) => RegisterKeepsExact(r, name, domain);
    case Releasing(t) => ReleaseKeepsExact(r, t);
    case ListeningToDomains(_, _) => SameTable(r, Step(r, e));
    case ListeningToTopics(_, _) => SameTable(r, Step(r, e));
    case LeavingDomains(_) => SameTable(r, Step(r, e));
    case LeavingTopics(_) => SameTable(r, Step(r, e));
  }

  lemma {:induction false} RunKeepsExact(r: Registry, run: seq<Event>, r': Registry)
    requires Exact(r) && Steps(r, run, r')
    ensures Exact(r')
    decreases |run|
  {
    hide Exact, Step, Enabled;
    if run != [] {
      StepKeepsExact(r, run[0]);
      RunKeepsExact(Step(r, run[0]), run[1..], r');
    }
  }

  /** Everybody meets: in every reachable state a registration hands out the live topic of that domain
      and name whenever there is one, and no two live topics share domain and name. */
  lemma HoldersOfANameMeet(run: seq<Event>, r: Registry, t: GlobalTopic)
    requires Steps(EMPTY, run, r) && t in r.holders
    ensures Registered(r, t.name, t.domain) == t
    ensures Register(r, t.name, t.domain) == r.(holders := r.holders[t := r.holders[t] + 1])
    ensures forall u :: u in r.holders && u.domain == t.domain && u.name == t.name ==> u == t
  {
    RunKeepsExact(EMPTY, run, r);
  }

  lemma {:induction false} IdsAreNotReused(r: Registry, run: seq<Event>, r': Registry)
    requires Steps(r, run, r')
    ensures r.nextId <= r'.nextId
    decreases |run|
  {
    if run != [] {
      IdsAreNotReused(Step(r, run[0]), run[1..], r');
    }
  }

  /** A new topic is never confused with one that was destroyed: a registration makes one exactly when the
      name is not listed, and it is then other than every topic that was live in any earlier state of the
      run, so samples kept by old readers cannot leak into it. */
  lemma NewTopicIsFresh(before: seq<Event>, earlier: Registry, after: seq<Event>, r: Registry,
                        name: string, domain: i16)
    requires Steps(EMPTY, before, earlier) && Steps(earlier, after, r)
    ensures Registered(r, name, domain).domain == domain && Registered(r, name, domain).name == name
    ensures Registered(r, name, domain) !in r.holders <==> Lookup(r, domain, name).None?
    ensures Lookup(r, domain, name).None? ==> Registered(r, name, domain) !in earlier.holders
    ensures Lookup(r, domain, name).None? ==>
              forall t :: t in earlier.holders ==> t.id < Registered(r, name, domain).id
  {
    RunKeepsExact(EMPTY, before, earlier);
    RunKeepsExact(earlier, after, r);
    IdsAreNotReused(earlier, after, r);
  }

  /** A domain is in the table exactly as long as some live topic is in it, and every listener has
      heard of every live topic and of its domain. */
  lemma TableFollowsLife(run: seq<Event>, r: Registry, domain: i16)
    requires Steps(EMPTY, run, r)
    ensures domain in r.topics <==> exists t :: t in r.holders && t.domain == domain
    ensures forall key, t :: key in r.topicsHeard && t in r.holders ==> (t.domain, t.name) in r.topicsHeard[key]
    ensures forall key, t :: key in r.domainsHeard && t in r.holders ==> t.domain in r.domainsHeard[key]
  {
    RunKeepsExact(EMPTY, run, r);
    if domain in r.topics {
      var n :| n in r.topics[domain];
      assert Lookup(r, domain, n).Some?;
    }
    forall t | t in r.holders
      ensures t.domain in r.topics && Lookup(r, t.domain, t.name).Some?
    {
    }
    assert forall key :: key in r.topicsHeard ==> ListsTopics(r, r.topicsHeard[key]);
    assert forall key :: key in r.domainsHeard ==> ListsDomains(r, r.domainsHeard[key]);
  }

  // ---------------------------------------------------------------- how long a topic lives

  function HoldersOf(r: Registry, t: GlobalTopic): nat {
    if t in r.holders then r.holders[t] else 0
  }

  // The references to t in use after an event, when n were before: one more for each registration that hands
  // t out, one less for each release of t while there are any.
  function Counted(r: Registry, e: Event, t: GlobalTopic, n: nat): nat {
    match e
    case Registering(name, domain) => if Registered(r, name, domain) == t then n + 1 else n
    case Releasing(u) => if u == t && n > 0 then n - 1 else n
    case _ => n
  }

  function InUse(r: Registry, run: seq<Event>, t: GlobalTopic, n: nat): nat
    decreases |run|
  {
    if run == [] then n else InUse(Step(r, run[0]), run[1..], t, Counted(r, run[0], t, n))
  }

  lemma StepCounts(r: Registry, e: Event, t: GlobalTopic)
    requires Exact(r)
    ensures HoldersOf(Step(r, e), t) == Counted(r, e, t, HoldersOf(r, t))
  {
    match e
    case Registering(name, domain) => ListedIsHeld(r, name, domain);
    case Releasing(_) =>
    case ListeningToDomains(_, _) =>
    case ListeningToTopics(_, _) =>
    case LeavingDomains(_) =>
    case LeavingTopics(_) =>
  }

  lemma {:induction false} RunCounts(r: Registry, run: seq<Event>, r': Registry, t: GlobalTopic)
    requires Exact(r) && Steps(r, run, r')
    ensures HoldersOf(r', t) == InUse(r, run, t, HoldersOf(r, t))
    decreases |run|
  {
    hide Exact, Step, Enabled, Counted, HoldersOf;
    if run != [] {
      StepKeepsExact(r, run[0]);
      StepCounts(r, run[0], t);
      RunCounts(Step(r, run[0]), run[1..], r', t);
    }
  }

  /** A topic lives exactly as long as it is in use: after any run, the references the table knows of are the
      registrations that handed the topic out less the releases of it, and the topic is live and listed
      under its name iff there are any. */
  lemma TopicLivesWhileInUse(run: seq<Event>, r: Registry, t: GlobalTopic)
    requires Steps(EMPTY, run, r)
    ensures HoldersOf(r, t) == InUse(EMPTY, run, t, 0)
    ensures t in r.holders <==> InUse(EMPTY, run, t, 0) > 0
    ensures Lookup(r, t.domain, t.name) == Some(t) <==> InUse(EMPTY, run, t, 0) > 0
  {
    RunKeepsExact(EMPTY, run, r);
    RunCounts(EMPTY, run, r, t);
  }

  // ---------------------------------------------------------------- what listeners hear

  function TopicBirth(r: Registry, e: Event): seq<(i16, string)> {
    if e.Registering? && Lookup(r, e.domain, e.name).None? then [(e.domain, e.name)] else []
  }

  function DomainBirth(r: Registry, e: Event): seq<i16> {
    if e.Registering? && e.domain !in r.topics then [e.domain] else []
  }

  // The topics and the domains that come into being in a run, in order.
  function TopicBirths(r: Registry, run: seq<Event>): seq<(i16, string)>
    decreases |run|
  {
    if run == [] then [] else TopicBirth(r, run[0]) + TopicBirths(Step(r, run[0]), run[1..])
  }

  function DomainBirths(r: Registry, run: seq<Event>): seq<i16>
    decreases |run|
  {
    if run == [] then [] else DomainBirth(r, run[0]) + DomainBirths(Step(r, run[0]), run[1..])
  }

  // The listener stays registered throughout.
  predicate KeepsListening(run: seq<Event>, key: u32) {
    forall i :: 0 <= i < |run| ==> run[i] != LeavingDomains(key) && run[i] != LeavingTopics(key)
  }

  lemma {:induction false} TopicBirthsAreHeardOnce(r: Registry, run: seq<Event>, r': Registry, key: u32)
    requires Steps(r, run, r') && KeepsListening(run, key) && key in r.topicsHeard
    ensures key in r'.topicsHeard && r'.topicsHeard[key] == r.topicsHeard[key] + TopicBirths(r, run)
    decreases |run|
  {
    hide Step, Enabled, TopicBirth;
    if run == [] {
      assert r.topicsHeard[key] + [] == r.topicsHeard[key];
    } else {
      var mid := Step(r, run[0]);
      TopicsHeardInStep(r, run[0], key);
      TopicBirthsAreHeardOnce(mid, run[1..], r', key);
      Regroup(r.topicsHeard[key], TopicBirth(r, run[0]), TopicBirths(mid, run[1..]));
    }
  }

  lemma Regroup<T>(a: seq<T>, b: seq<T>, c: seq<T>)
    ensures a + b + c == a + (b + c)
  {
  }

  lemma TopicsHeardInStep(r: Registry, e: Event, key: u32)
    requires key in r.topicsHeard && e != LeavingTopics(key)
    ensures var r' := Step(r, e);
            && key in r'.topicsHeard
            && r'.topicsHeard[key] == r.topicsHeard[key] + TopicBirth(r, e)
  {
    assert r.topicsHeard[key] + [] == r.topicsHeard[key];
  }

  lemma {:induction false} DomainBirthsAreHeardOnce(r: Registry, run: seq<Event>, r': Registry, key: u32)
    requires Steps(r, run, r') && KeepsListening(run, key) && key in r.domainsHeard
    ensures key in r'.domainsHeard && r'.domainsHeard[key] == r.domainsHeard[key] + DomainBirths(r, run)
    decreases |run|
  {
    hide Step, Enabled, DomainBirth;
    if run == [] {
      assert r.domainsHeard[key] + [] == r.domainsHeard[key];
    } else {
      var mid := Step(r, run[0]);
      DomainsHeardInStep(r, run[0], key);
      DomainBirthsAreHeardOnce(mid, run[1..], r', key);
      Regroup(r.domainsHeard[key], DomainBirth(r, run[0]), DomainBirths(mid, run[1..]));
    }
  }

  lemma DomainsHeardInStep(r: Registry, e: Event, key: u32)
    requires key in r.domainsHeard && e != LeavingDomains(key)
    ensures var r' := Step(r, e);
            && key in r'.domainsHeard
            && r'.domainsHeard[key] == r.domainsHeard[key] + DomainBirth(r, e)
  {
    assert r.domainsHeard[key] + [] == r.domainsHeard[key];
  }

  /** A listener hears of every topic and every domain that comes into being while it listens, of each once, in
      order, and of nothing else. */
  lemma ListenersHearBirths(r: Registry, run: seq<Event>, r': Registry, key: u32)
    requires Steps(r, run, r') && KeepsListening(run, key)
    ensures key in r.topicsHeard ==>
              key in r'.topicsHeard && r'.topicsHeard[key] == r.topicsHeard[key] + TopicBirths(r, run)
    ensures key in r.domainsHeard ==>
              key in r'.domainsHeard && r'.domainsHeard[key] == r.domainsHeard[key] + DomainBirths(r, run)
  {
    if key in r.topicsHeard {
      TopicBirthsAreHeardOnce(r, run, r', key);
    }
    if key in r.domainsHeard {
      DomainBirthsAreHeardOnce(r, run, r', key);
    }
  }

  class CedTopicManager {
    var topics: map<i16, map<string, GlobalTopic>>
    var holders: map<GlobalTopic, nat>
    var nextId: nat
    var domainsHeard: map<u32, seq<i16>>
    var topicsHeard: map<u32, seq<(i16, string)>>

    ghost function Abs(): Registry
      reads this
    {
      Registry(topics, holders, nextId, domainsHeard, topicsHeard)
    }

    constructor ()
      ensures Abs() == EMPTY
    {
      topics, holders, nextId, domainsHeard, topicsHeard := map[], map[], 0, map[], map[];
    }

    method RegisterTopic(name: string, domain: i16) returns (topic: GlobalTopic)
      requires Exact(Abs())
      modifies this
      ensures Exact(Abs())
      ensures topic == Registered(old(Abs()), name, domain)
      ensures Abs() == Register(old(Abs()), name, domain)
    {
      hide Exact, Tell;
      ghost var before := Abs();
      RegisterKeepsExact(before, name, domain);
      ListedIsHeld(before, name, domain);
      if domain !in topics {
        topics := topics[domain := map[]];
        domainsHeard := Tell(domainsHeard, domain);
      }
      assert Abs() == RegisterDomain(before, domain);
      if name !in topics[domain] {
        topicsHeard := Tell(topicsHeard, (domain, name));
        topic := GlobalTopic(nextId, domain, name);
        nextId := nextId + 1;
        holders := holders[topic := 1];
        topics := topics[domain := topics[domain][name := topic]];
      } else {
        topic := topics[domain][name];
        holders := holders[topic := holders[topic] + 1];
      }
    }

    // A holder lets go; the last one runs the topic's destructor, which unregisters it.
    method ReleaseTopic(topic: GlobalTopic)
      requires Exact(Abs())
      modifies this
      ensures Exact(Abs())
      ensures Abs() == Release(old(Abs()), topic)
    {
      ReleaseKeepsExact(Abs(), topic);
      if topic in holders {
        if holders[topic] > 1 {
          holders := holders[topic := holders[topic] - 1];
        } else {
          holders := holders - {topic};
          if topic.domain in topics && topic.name in topics[topic.domain] {
            var rest := topics[topic.domain] - {topic.name};
            topics := if rest == map[] then topics - {topic.domain} else topics[topic.domain := rest];
          }
        }
      }
    }

    // register_on_new_domain_cb: the callback is called for every domain before it is stored.
    method RegisterOnNewDomain(key: u32) returns (told: seq<i16>)
      requires Exact(Abs())
      modifies this`domainsHeard
      ensures Enabled(old(Abs()), ListeningToDomains(key, told))
      ensures forall d :: d in told <==> d in topics
      ensures Abs() == Step(old(Abs()), ListeningToDomains(key, told))
      ensures Exact(Abs())
    {
      hide Exact;
      ghost var before := Abs();
      var rest := topics.Keys;
      told := [];
      while rest != {}
        invariant Abs() == before && rest <= topics.Keys
        invariant forall d :: d in topics <==> d in rest || d in told
      {
        var d :| d in rest;
        told, rest := told + [d], rest - {d};
      }
      StepKeepsExact(before, ListeningToDomains(key, told));
      if key !in domainsHeard {
        domainsHeard := domainsHeard[key := told];
      }
    }

    method RegisterOnNewTopic(key: u32) returns (told: seq<(i16, string)>)
      requires Exact(Abs())
      modifies this`topicsHeard
      ensures Enabled(old(Abs()), ListeningToTopics(key, told))
      ensures forall d: i16, n :: (d, n) in told <==> d in topics && n in topics[d]
      ensures Abs() == Step(old(Abs()), ListeningToTopics(key, told))
      ensures Exact(Abs())
    {
      hide Exact;
      ghost var before := Abs();
      var domains := topics.Keys;
      told := [];
      while domains != {}
        invariant Abs() == before && domains <= topics.Keys
        invariant forall d: i16, n :: (d, n) in told <==> d !in domains && Lookup(before, d, n).Some?
      {
        var domain :| domain in domains;
        var more := TopicsOf(domain);
        told, domains := told + more, domains - {domain};
      }
      StepKeepsExact(before, ListeningToTopics(key, told));
      if key !in topicsHeard {
        topicsHeard := topicsHeard[key := told];
      }
    }

    // The inner loop: the topics of one domain.
    method TopicsOf(domain: i16) returns (told: seq<(i16, string)>)
      requires domain in topics
      ensures forall d: i16, n :: (d, n) in told <==> d == domain && Lookup(Abs(), d, n).Some?
    {
      var names := topics[domain].Keys;
      told := [];
      while names != {}
        invariant names <= topics[domain].Keys
        invariant forall d: i16, n :: (d, n) in told <==> d == domain && n in topics[domain] && n !in names
      {
        var name :| name in names;
        told, names := told + [(domain, name)], names - {name};
      }
    }

    method UnregisterOnNewDomain(key: u32)
      modifies this`domainsHeard
      ensures Abs() == Step(old(Abs()), LeavingDomains(key))
    {
      domainsHeard := domainsHeard - {key};
    }

    method UnregisterOnNewTopic(key: u32)
      modifies this`topicsHeard
      ensures Abs() == Step(old(Abs()), LeavingTopics(key))
    {
      topicsHeard := topicsHeard - {key};
    }
  }
}
