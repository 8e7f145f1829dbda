/** Several adapters of one process share an API key. A per-key lock held across the request
    and a clamped per-key counter, against a server that wants strictly increasing nonces:
    the interleavings of all tasks, the network and the server as one transition system. */
module NonceProtocol {

  type Key = string

  /** The highest nonce a server has seen, per key. */
  type History = map<Key, int>

  /** Where a task stands in its call; `n` counts the rate-limit retries so far. */
  datatype Phase =
    | Idle
    | Waiting(n: nat)               // wants the lock (first try, or after a backoff)
    | Holding(n: nat)               // inside the lock, nonce not drawn yet
    | Drawn(n: nat, nonce: int)     // nonce drawn, request not on the wire yet
    | InFlight(n: nat, nonce: int)  // request on the wire, lock still held

  datatype Task = Task(adapter: nat, phase: Phase, drawn: seq<int>, slept: nat)

  datatype Request = Request(task: nat, key: Key, nonce: int)

  datatype System = System(
    keyOf: map<nat, Key>,       // the key each adapter was built with
    own: map<nat, int>,         // each adapter's own last nonce
    last: map<Key, int>,        // the shared counter; no entry before the first draw
    locks: map<Key, nat>,       // the lock holder of each key; no entry means free
    tasks: map<nat, Task>,
    network: set<Request>,      // sent and not yet delivered, possibly abandoned by now
    seen: History)              // what the server has seen

  const MAX_RETRIES: nat := 3

  datatype Event =
    | Begin(t: nat)
    | Acquire(t: nat)
    | Draw(t: nat, now: int)              // any clock reading, also one from the past
    | Send(t: nat)
    | Deliver(r: Request, counted: bool)  // the server may or may not record a refused call
    | Answer(t: nat, rateLimited: bool)
    | Abandon(t: nat)                     // timeout, transport error or cancellation
    | GiveUp(t: nat)                      // cancelled in the queue for the lock or in a backoff

  /** The clamp: at least the clock, and above everything drawn before. */
  function NextNonce(now: int, last: int): (nonce: int)
    ensures nonce > last && nonce >= now
  {
    if now >= last + 1 then now else last + 1
  }

  function SeenOf(s: System, k: Key): int { if k in s.seen then s.seen[k] else 0 }

  predicate Typed(s: System) {
    && s.own.Keys == s.keyOf.Keys
    && forall t :: t in s.tasks ==> s.tasks[t].adapter in s.keyOf
  }

  function KeyOf(s: System, t: nat): Key
    requires Typed(s) && t in s.tasks
  {
    s.keyOf[s.tasks[t].adapter]
  }

  predicate HasLock(p: Phase) { p.Holding? || p.Drawn? || p.InFlight? }

  predicate ServerAccepts(s: System, r: Request) { r.nonce > SeenOf(s, r.key) }

  predicate Enabled(s: System, e: Event)
    requires Typed(s)
  {
    match e
    case Begin(t) => t in s.tasks && s.tasks[t].phase.Idle?
    case Acquire(t) => t in s.tasks && s.tasks[t].phase.Waiting? && KeyOf(s, t) !in s.locks
    case Draw(t, now) => t in s.tasks && s.tasks[t].phase.Holding?
    case Send(t) => t in s.tasks && s.tasks[t].phase.Drawn?
    case Deliver(r, counted) => r in s.network
    case Answer(t, rateLimited) =>
      && t in s.tasks && s.tasks[t].phase.InFlight?
      && Request(t, KeyOf(s, t), s.tasks[t].phase.nonce) !in s.network
    case Abandon(t) => t in s.tasks && HasLock(s.tasks[t].phase)
    case GiveUp(t) => t in s.tasks && s.tasks[t].phase.Waiting?
  }

  function Pow2(n: nat): nat { if n == 0 then 1 else 2 * Pow2(n - 1) }

  function LastFor(s: System, t: nat): int
    requires Typed(s) && t in s.tasks
  {
    if KeyOf(s, t) in s.last then s.last[KeyOf(s, t)] else s.own[s.tasks[t].adapter]
  }

  function Do(s: System, e: Event): System
    requires Typed(s) && Enabled(s, e)
  {
    match e
    case Begin(t) =>
      s.(tasks := s.tasks[t := s.tasks[t].(phase := Waiting(0), drawn := [], slept := 0)])
    case Acquire(t) =>
      s.(tasks := s.tasks[t := s.tasks[t].(phase := Holding(s.tasks[t].phase.n))],
         locks := s.locks[KeyOf(s, t) := t])
    case Draw(t, now) =>
      var nonce := NextNonce(now, LastFor(s, t));
      s.(tasks := s.tasks[t := s.tasks[t].(phase := Drawn(s.tasks[t].phase.n, nonce),
                                           drawn := s.tasks[t].drawn + [nonce])],
         last := s.last[KeyOf(s, t) := nonce],
         own := s.own[s.tasks[t].adapter := nonce])
    case Send(t) =>
      var p := s.tasks[t].phase;
      s.(tasks := s.tasks[t := s.tasks[t].(phase := InFlight(p.n, p.nonce))],
         network := s.network + {Request(t, KeyOf(s, t), p.nonce)})
    case Deliver(r, counted) =>
      s.(network := s.network - {r},
         seen := if ServerAccepts(s, r) && counted then s.seen[r.key := r.nonce] else s.seen)
    case Answer(t, rateLimited) =>
      var task := s.tasks[t];
      var retry := rateLimited && task.phase.n < MAX_RETRIES;
      s.(tasks := s.tasks[t := if retry
                               then task.(phase := Waiting(task.phase.n + 1), slept := task.slept + Pow2(task.phase.n))
                               else task.(phase := Idle)],
         locks := s.locks - {KeyOf(s, t)})
    case Abandon(t) =>
      s.(tasks := s.tasks[t := s.tasks[t].(phase := Idle)], locks := s.locks - {KeyOf(s, t)})
    case GiveUp(t) => s.(tasks := s.tasks[t := s.tasks[t].(phase := Idle)])
  }

  /** What the server had seen before this process started. */
  function Before(h: History, k: Key): int { if k in h then h[k] else 0 }

  // --- the invariant ---

  /** The lock of a key is held by exactly the task that is inside it. */
  predicate LocksExact(s: System) requires Typed(s) {
    && (forall t :: t in s.tasks && HasLock(s.tasks[t].phase) ==>
          KeyOf(s, t) in s.locks && s.locks[KeyOf(s, t)] == t)
    && (forall k :: k in s.locks ==>
          s.locks[k] in s.tasks && KeyOf(s, s.locks[k]) == k && HasLock(s.tasks[s.locks[k]].phase))
  }

  /** Every number ever drawn for a key is at most its counter. */
  predicate CounterOnTop(s: System) requires Typed(s) {
    && (forall r :: r in s.network ==> r.key in s.last && r.nonce <= s.last[r.key])
    && (forall a :: a in s.keyOf ==>
          if s.keyOf[a] in s.last then s.own[a] <= s.last[s.keyOf[a]] else s.own[a] == 0)
  }

  /** For each key the server still knows what it knew at the start, or a number drawn since. */
  ghost predicate ServerFits(h: History, s: System) { forall k: Key :: SeenFits(h, s, k) }

  predicate SeenFits(h: History, s: System, k: Key) {
    SeenOf(s, k) == Before(h, k) || (Before(h, k) < SeenOf(s, k) && k in s.last && SeenOf(s, k) <= s.last[k])
  }

  /** Of the numbers drawn by this process, the server has seen none from `x` up. */
  predicate Unseen(h: History, s: System, k: Key, x: int) {
    SeenOf(s, k) == Before(h, k) || Before(h, k) < SeenOf(s, k) < x
  }

  /** The request of the task inside the lock carries the newest number of its key, and the
      server has not seen that number while the request is under way. */
  predicate NewestFor(h: History, s: System, u: nat) requires Typed(s) && u in s.tasks {
    match s.tasks[u].phase
    case Drawn(n, x) => NewestAt(s, KeyOf(s, u), x) && Above(h, s, KeyOf(s, u), x, s.network)
    case InFlight(n, x) =>
      var r := Request(u, KeyOf(s, u), x);
      && NewestAt(s, KeyOf(s, u), x)
      && (forall q :: q in s.network && q.key == r.key && q != r ==> q.nonce < x)
      && (r in s.network ==> Unseen(h, s, r.key, x))
    case _ => true
  }

  predicate NewestInside(h: History, s: System) requires Typed(s) {
    forall t :: t in s.tasks ==> NewestFor(h, s, t)
  }

  predicate NewestAt(s: System, k: Key, x: int) { k in s.last && s.last[k] == x }

  predicate Above(h: History, s: System, k: Key, x: int, sent: set<Request>) {
    Unseen(h, s, k, x) && forall q :: q in sent && q.key == k ==> q.nonce < x
  }

  predicate Increasing(xs: seq<int>) { forall i, j :: 0 <= i < j < |xs| ==> xs[i] < xs[j] }

  /** Retry bookkeeping of one task. */
  predicate CallBounded(s: System, t: nat) requires Typed(s) && t in s.tasks {
    var task := s.tasks[t];
    && Increasing(task.drawn)
    && (task.drawn != [] ==> KeyOf(s, t) in s.last && task.drawn[|task.drawn| - 1] <= s.last[KeyOf(s, t)])
    && |task.drawn| <= MAX_RETRIES + 1
    && task.slept <= 7
    && match task.phase
       case Idle => true
       case Waiting(n) => n <= MAX_RETRIES && |task.drawn| == n && task.slept == Pow2(n) - 1
       case Holding(n) => n <= MAX_RETRIES && |task.drawn| == n && task.slept == Pow2(n) - 1
       case Drawn(n, x) => n <= MAX_RETRIES && |task.drawn| == n + 1 && task.slept == Pow2(n) - 1
       case InFlight(n, x) => n <= MAX_RETRIES && |task.drawn| == n + 1 && task.slept == Pow2(n) - 1
  }

  ghost predicate Inv(h: History, s: System) {
    && Typed(s) && LocksExact(s) && CounterOnTop(s) && ServerFits(h, s) && NewestInside(h, s)
    && forall t :: t in s.tasks ==> CallBounded(s, t)
  }

  /** A fresh process: nothing drawn, nothing sent, any history at the server. */
  predicate Init(s: System) {
    && Typed(s)
    && (forall a :: a in s.own ==> s.own[a] == 0)
    && s.last == map[] && s.locks == map[] && s.network == {}
    && forall t :: t in s.tasks ==> s.tasks[t].phase == Idle && s.tasks[t].drawn == [] && s.tasks[t].slept == 0
  }

  lemma {:induction false} InitInv(s: System)
    requires Init(s)
    ensures Inv(s.seen, s)
  {
  }

  lemma {:induction false} DoTyped(s: System, e: Event)
    requires Typed(s) && Enabled(s, e)
    ensures Typed(Do(s, e))
    ensures Do(s, e).tasks.Keys == s.tasks.Keys && Do(s, e).keyOf == s.keyOf
    ensures forall t :: t in s.tasks ==> KeyOf(Do(s, e), t) == KeyOf(s, t)
  {
  }

  lemma {:induction false} LockStillHeld(s: System, e: Event, u: nat)
    requires Typed(s) && LocksExact(s) && Enabled(s, e) && u in s.tasks
    requires HasLock(Do(s, e).tasks[u].phase)
    ensures KeyOf(s, u) in Do(s, e).locks && Do(s, e).locks[KeyOf(s, u)] == u
  {
    match e {
      case Begin(t) =>
      case Acquire(t) =>
      case Draw(t, now) =>
      case Send(t) =>
      case Deliver(r, counted) =>
      case Answer(t, rateLimited) => assert u != t;
      case Abandon(t) => assert u != t;
      case GiveUp(t) =>
    }
  }

  lemma {:induction false} LockStillExact(s: System, e: Event, k: Key)
    requires Typed(s) && LocksExact(s) && Enabled(s, e) && k in Do(s, e).locks
    ensures var u := Do(s, e).locks[k];
            u in s.tasks && KeyOf(s, u) == k && HasLock(Do(s, e).tasks[u].phase)
  {
    match e {
      case Begin(t) => assert s.locks[k] != t;
      case Acquire(t) =>
      case Draw(t, now) =>
      case Send(t) =>
      case Deliver(r, counted) =>
      case Answer(t, rateLimited) => assert k in s.locks && k != KeyOf(s, t); assert s.locks[k] != t;
      case Abandon(t) => assert k in s.locks && k != KeyOf(s, t); assert s.locks[k] != t;
      case GiveUp(t) => assert s.locks[k] != t;
    }
  }

  lemma {:induction false} DoLocksExact(s: System, e: Event)
    requires Typed(s) && LocksExact(s) && Enabled(s, e)
    ensures Typed(Do(s, e)) && LocksExact(Do(s, e))
  {
    DoTyped(s, e);
    var s' := Do(s, e);
    forall u | u in s'.tasks && HasLock(s'.tasks[u].phase)
      ensures KeyOf(s', u) in s'.locks && s'.locks[KeyOf(s', u)] == u
    {
      LockStillHeld(s, e, u);
    }
    forall k | k in s'.locks
      ensures s'.locks[k] in s'.tasks && KeyOf(s', s'.locks[k]) == k && HasLock(s'.tasks[s'.locks[k]].phase)
    {
      LockStillExact(s, e, k);
    }
    hide Do;
  }

  /** Two tasks inside the lock of one key are the same task. */
  lemma {:induction false} LockExcludes(s: System, t: nat, u: nat)
    requires Typed(s) && LocksExact(s) && t in s.tasks && u in s.tasks
    requires HasLock(s.tasks[t].phase) && HasLock(s.tasks[u].phase) && KeyOf(s, t) == KeyOf(s, u)
    ensures t == u
  {
    assert s.locks[KeyOf(s, t)] == t && s.locks[KeyOf(s, u)] == u;
  }

  /** A drawn number tops its key's counter, and so everything sent or seen since the start. */
  lemma {:induction false} DrawTops(h: History, s: System, t: nat, now: int)
    requires Typed(s) && CounterOnTop(s) && ServerFits(h, s) && Enabled(s, Draw(t, now))
    ensures var x, k := NextNonce(now, LastFor(s, t)), KeyOf(s, t);
            Above(h, s, k, x, s.network) && (k in s.last ==> s.last[k] < x)
  {
    assert s.tasks[t].adapter in s.keyOf;
    assert SeenFits(h, s, KeyOf(s, t));
  }

  lemma {:induction false} DoCounterOnTop(h: History, s: System, e: Event)
    requires Typed(s) && CounterOnTop(s) && NewestInside(h, s) && Enabled(s, e)
    ensures Typed(Do(s, e)) && CounterOnTop(Do(s, e))
    ensures forall k :: k in s.last ==> k in Do(s, e).last && Do(s, e).last[k] >= s.last[k]
  {
    hide Do, CounterOnTop;
    DoTyped(s, e);
    match e {
      case Draw(t, now) => DrawCounter(s, t, now);
      case Send(t) => assert NewestFor(h, s, t); SendCounter(s, t);
      case Deliver(r, counted) => DeliverCounter(s, r, counted);
      case _ => LocalCounter(s, e);
    }
  }

  lemma {:induction false} SendCounter(s: System, t: nat)
    requires Typed(s) && CounterOnTop(s) && Enabled(s, Send(t)) && NewestAt(s, KeyOf(s, t), s.tasks[t].phase.nonce)
    ensures Typed(Do(s, Send(t))) && CounterOnTop(Do(s, Send(t))) && Do(s, Send(t)).last == s.last
  {
    DoTyped(s, Send(t));
  }

  lemma {:induction false} DeliverCounter(s: System, r: Request, counted: bool)
    requires Typed(s) && CounterOnTop(s) && Enabled(s, Deliver(r, counted))
    ensures Typed(Do(s, Deliver(r, counted))) && CounterOnTop(Do(s, Deliver(r, counted)))
    ensures Do(s, Deliver(r, counted)).last == s.last
  {
    DoTyped(s, Deliver(r, counted));
  }

  lemma {:induction false} DrawCounter(s: System, t: nat, now: int)
    requires Typed(s) && CounterOnTop(s) && Enabled(s, Draw(t, now))
    ensures Typed(Do(s, Draw(t, now))) && CounterOnTop(Do(s, Draw(t, now)))
    ensures KeyOf(s, t) in s.last ==> s.last[KeyOf(s, t)] < NextNonce(now, LastFor(s, t))
    ensures forall k :: k in s.last ==> k in Do(s, Draw(t, now)).last && Do(s, Draw(t, now)).last[k] >= s.last[k]
  {
    DoTyped(s, Draw(t, now));
    assert s.tasks[t].adapter in s.keyOf;
    var s' := Do(s, Draw(t, now));
    forall a | a in s'.keyOf
      ensures if s'.keyOf[a] in s'.last then s'.own[a] <= s'.last[s'.keyOf[a]] else s'.own[a] == 0
    {
    }
  }

  lemma {:induction false} DoServerFits(h: History, s: System, e: Event)
    requires Typed(s) && CounterOnTop(s) && ServerFits(h, s) && Enabled(s, e)
    ensures ServerFits(h, Do(s, e))
  {
    forall k: Key ensures SeenFits(h, Do(s, e), k) {
      assert SeenFits(h, s, k);
      match e {
        case Draw(t, now) => DrawTops(h, s, t, now);
        case Deliver(r, counted) =>
        case _ => SameServer(s, e);
      }
    }
  }

  lemma {:induction false} SameServer(s: System, e: Event)
    requires Typed(s) && Enabled(s, e) && !e.Draw? && !e.Deliver?
    ensures Do(s, e).seen == s.seen && Do(s, e).last == s.last
  {
  }

  lemma {:induction false} DoNewestFor(h: History, s: System, e: Event, u: nat)
    requires Typed(s) && LocksExact(s) && CounterOnTop(s) && ServerFits(h, s) && NewestInside(h, s)
    requires Enabled(s, e) && u in s.tasks
    ensures Typed(Do(s, e)) && u in Do(s, e).tasks && NewestFor(h, Do(s, e), u)
  {
    DoTyped(s, e);
    assert NewestFor(h, s, u);
    match e {
      case Draw(t, now) => DrawNewest(h, s, t, now, u);
      case Send(t) => SendNewest(h, s, t, u);
      case Deliver(r, counted) => DeliverNewest(h, s, r, counted, u);
      case _ => LocalNewest(h, s, e, u);
    }
  }

  /** Events that touch neither counters nor network nor server. */
  predicate Local(e: Event) { e.Begin? || e.Acquire? || e.Answer? || e.Abandon? || e.GiveUp? }

  lemma {:induction false} LocalFrame(s: System, e: Event)
    requires Typed(s) && Enabled(s, e) && Local(e)
    ensures var s' := Do(s, e);
            && s'.last == s.last && s'.own == s.own && s'.network == s.network && s'.seen == s.seen
            && s'.keyOf == s.keyOf && s'.tasks.Keys == s.tasks.Keys
            && forall u :: u in s.tasks ==>
                 && s'.tasks[u].adapter == s.tasks[u].adapter
                 && (s'.tasks[u].phase != s.tasks[u].phase ==>
                       !s'.tasks[u].phase.Drawn? && !s'.tasks[u].phase.InFlight?)
  {
  }

  lemma {:induction false} LocalNewest(h: History, s: System, e: Event, u: nat)
    requires Typed(s) && u in s.tasks && NewestFor(h, s, u) && Enabled(s, e) && Local(e)
    ensures Typed(Do(s, e)) && u in Do(s, e).tasks && NewestFor(h, Do(s, e), u)
  {
    LocalFrame(s, e);
    DoTyped(s, e);
    hide Do, Enabled;
  }

  lemma {:induction false} LocalCounter(s: System, e: Event)
    requires Typed(s) && CounterOnTop(s) && Enabled(s, e) && Local(e)
    ensures Typed(Do(s, e)) && CounterOnTop(Do(s, e)) && Do(s, e).last == s.last
  {
    LocalFrame(s, e);
    DoTyped(s, e);
    hide Do, Enabled;
  }

  lemma {:induction false} DrawNewest(h: History, s: System, t: nat, now: int, u: nat)
    requires Typed(s) && u in s.tasks && LocksExact(s) && CounterOnTop(s) && ServerFits(h, s) && NewestFor(h, s, u)
    requires Enabled(s, Draw(t, now))
    ensures Typed(Do(s, Draw(t, now))) && NewestFor(h, Do(s, Draw(t, now)), u)
  {
    DoTyped(s, Draw(t, now));
    DrawTops(h, s, t, now);
    var s' := Do(s, Draw(t, now));
    assert forall k :: SeenOf(s', k) == SeenOf(s, k);
    if u != t && HasLock(s.tasks[u].phase) && KeyOf(s, u) == KeyOf(s, t) { LockExcludes(s, t, u); }
  }

  lemma {:induction false} SendNewest(h: History, s: System, t: nat, u: nat)
    requires Typed(s) && LocksExact(s) && NewestInside(h, s) && Enabled(s, Send(t)) && u in s.tasks
    ensures Typed(Do(s, Send(t))) && NewestFor(h, Do(s, Send(t)), u)
  {
    DoTyped(s, Send(t));
    assert NewestFor(h, s, u) && NewestFor(h, s, t);
    var s' := Do(s, Send(t));
    assert forall k :: SeenOf(s', k) == SeenOf(s, k);
    if u != t && HasLock(s.tasks[u].phase) && KeyOf(s, u) == KeyOf(s, t) { LockExcludes(s, t, u); }
  }

  lemma {:induction false} DeliverNewest(h: History, s: System, r: Request, counted: bool, u: nat)
    requires Typed(s) && ServerFits(h, s) && NewestInside(h, s) && Enabled(s, Deliver(r, counted)) && u in s.tasks
    ensures Typed(Do(s, Deliver(r, counted))) && NewestFor(h, Do(s, Deliver(r, counted)), u)
  {
    DoTyped(s, Deliver(r, counted));
    assert NewestFor(h, s, u);
    var s' := Do(s, Deliver(r, counted));
    assert forall k :: k != r.key ==> SeenOf(s', k) == SeenOf(s, k);
  }

  lemma {:induction false} DoCallBounded(s: System, e: Event, u: nat)
    requires Typed(s) && u in s.tasks && CounterOnTop(s) && CallBounded(s, u)
    requires Enabled(s, e)
    ensures Typed(Do(s, e)) && u in Do(s, e).tasks && CallBounded(Do(s, e), u)
  {
    DoTyped(s, e);
    match e {
      case Draw(t, now) => DrawCounter(s, t, now); DrawBounded(s, t, now, u);
      case Answer(t, rateLimited) => AnswerBounded(s, t, rateLimited, u);
      case _ => OtherBounded(s, e, u);
    }
  }

  lemma {:induction false} OtherBounded(s: System, e: Event, u: nat)
    requires Typed(s) && u in s.tasks && CallBounded(s, u) && Enabled(s, e) && !e.Draw? && !e.Answer?
    ensures Typed(Do(s, e)) && u in Do(s, e).tasks && CallBounded(Do(s, e), u)
  {
    hide Do, Enabled, HasLock, LastFor;
    DoTyped(s, e);
    OtherFrame(s, e, u);
  }

  /** Entering the lock, sending, or ending a call: the attempt count goes along. */
  predicate Onward(p: Phase, q: Phase) {
    q.Idle? || (p.Waiting? && q == Holding(p.n)) || (p.Drawn? && q == InFlight(p.n, p.nonce))
  }

  /** Apart from draws and answers, a task stands still, starts a call afresh, or moves onward
      with the same attempts and sleeps behind it. */
  lemma {:induction false} OtherFrame(s: System, e: Event, u: nat)
    requires Typed(s) && u in s.tasks && Enabled(s, e) && !e.Draw? && !e.Answer?
    ensures Do(s, e).last == s.last && u in Do(s, e).tasks
    ensures var was, now := s.tasks[u], Do(s, e).tasks[u];
            now == was || now == was.(phase := Waiting(0), drawn := [], slept := 0) ||
            (Onward(was.phase, now.phase) && now == was.(phase := now.phase))
  {
  }

  lemma {:induction false} AnswerBounded(s: System, t: nat, rateLimited: bool, u: nat)
    requires Typed(s) && u in s.tasks && CallBounded(s, u) && Enabled(s, Answer(t, rateLimited))
    ensures Typed(Do(s, Answer(t, rateLimited))) && CallBounded(Do(s, Answer(t, rateLimited)), u)
  {
    DoTyped(s, Answer(t, rateLimited));
    assert Pow2(3) == 8 && Pow2(2) == 4 && Pow2(1) == 2;
  }

  lemma {:induction false} DrawBounded(s: System, t: nat, now: int, u: nat)
    requires Typed(s) && u in s.tasks && CallBounded(s, u) && Enabled(s, Draw(t, now))
    requires KeyOf(s, t) in s.last ==> s.last[KeyOf(s, t)] < NextNonce(now, LastFor(s, t))
    ensures Typed(Do(s, Draw(t, now))) && CallBounded(Do(s, Draw(t, now)), u)
  {
    DoTyped(s, Draw(t, now));
  }

  /** The invariant is inductive, and no counter ever falls. */
  lemma {:induction false} DoInv(h: History, s: System, e: Event)
    requires Inv(h, s) && Enabled(s, e)
    ensures Inv(h, Do(s, e))
    ensures forall k :: k in s.last ==> k in Do(s, e).last && Do(s, e).last[k] >= s.last[k]
  {
    DoTyped(s, e);
    DoLocksExact(s, e);
    DoCounterOnTop(h, s, e);
    DoServerFits(h, s, e);
    var s' := Do(s, e);
    forall u | u in s'.tasks ensures NewestFor(h, s', u) && CallBounded(s', u) {
      DoNewestFor(h, s, e, u);
      DoCallBounded(s, e, u);
    }
    hide Do, LocksExact, CounterOnTop, ServerFits, NewestFor, CallBounded, Enabled;
  }

  // --- runs ---

  /** `s'` is the system after the events of `run`: any events, in any order, at any clock. */
  predicate Legal(s: System, run: seq<Event>, s': System)
    decreases |run|
  {
    if run == [] then Typed(s) && s' == s
    else Typed(s) && Enabled(s, run[0]) && Legal(Do(s, run[0]), run[1..], s')
  }

  lemma {:induction false} RunInv(h: History, s: System, run: seq<Event>, s': System)
    requires Inv(h, s) && Legal(s, run, s')
    ensures Inv(h, s')
    ensures forall k :: k in s.last ==> k in s'.last && s'.last[k] >= s.last[k]
    decreases |run|
  {
    if run != [] {
      DoInv(h, s, run[0]);
      RunInv(h, Do(s, run[0]), run[1..], s');
      hide *;
    }
  }

  /** A request is live while its sender still holds the lock waiting for it. */
  predicate Live(s: System, r: Request) requires Typed(s) {
    && r in s.network && r.task in s.tasks && s.tasks[r.task].phase.InFlight?
    && KeyOf(s, r.task) == r.key && s.tasks[r.task].phase.nonce == r.nonce
  }

  lemma {:induction false} LiveShape(h: History, s: System, r: Request)
    requires Inv(h, s) && Live(s, r)
    ensures ServerAccepts(s, r) <==> r.nonce > Before(h, r.key)
    ensures r.key in s.last && s.last[r.key] == r.nonce
    ensures forall q :: Live(s, q) && q.key == r.key ==> q == r
    ensures forall q :: q in s.network && q.key == r.key && q != r ==> q.nonce < r.nonce
  {
    assert NewestFor(h, s, r.task);
    forall q | Live(s, q) && q.key == r.key ensures q == r {
      LockExcludes(s, q.task, r.task);
    }
  }

  /** Safety of the protocol. In every state a fresh process can reach, by any events in any
      order and at any clock readings, each key has at most one live request; that request
      carries a larger nonce than every other request still on its way; and whenever it is
      delivered it is accepted, if and only if it is above what the server had seen before the
      process started. Nothing this process did can get one of its live requests refused. */
  lemma {:induction false} LiveRequestsAccepted(s: System, run: seq<Event>, s': System, r: Request)
    requires Init(s) && Legal(s, run, s')
    requires Typed(s') && Live(s', r)
    ensures ServerAccepts(s', r) <==> r.nonce > SeenOf(s, r.key)
    ensures forall q :: Live(s', q) && q.key == r.key ==> q == r
    ensures forall q :: q in s'.network && q.key == r.key && q != r ==> q.nonce < r.nonce
  {
    InitInv(s);
    RunInv(s.seen, s, run, s');
    LiveShape(s.seen, s', r);
  }

  /** The same, foreseen at the draw: whatever happens until its request is delivered, the number
      drawn at `now` is accepted while live if and only if the clock shows more than the server had
      seen at the start, or this process has already drawn at least that much for the key. */
  lemma {:induction false} DrawDecides(
    s: System, run: seq<Event>, mid: System, t: nat, now: int, rest: seq<Event>, s': System, r: Request)
    requires Init(s) && Legal(s, run, mid)
    requires Typed(mid) && Enabled(mid, Draw(t, now)) && Legal(Do(mid, Draw(t, now)), rest, s')
    requires r == Request(t, KeyOf(mid, t), NextNonce(now, LastFor(mid, t)))
    requires Typed(s') && Live(s', r)
    ensures ServerAccepts(s', r) <==> now > SeenOf(s, r.key) || LastFor(mid, t) >= SeenOf(s, r.key)
  {
    InitInv(s);
    RunInv(s.seen, s, run, mid);
    DoInv(s.seen, mid, Draw(t, now));
    RunInv(s.seen, Do(mid, Draw(t, now)), rest, s');
    LiveShape(s.seen, s', r);
    hide Inv, Legal, Init, Live, Do;
  }

  /** One adapter, one task, and a server that has seen 100. */
  function Lone(
    phase: Phase, drawn: seq<int>, own: int, last: map<Key, int>, locks: map<Key, nat>, sent: set<Request>): System {
    System(map[0 := "key"], map[0 := own], last, locks, map[0 := Task(0, phase, drawn, 0)], sent, map["key" := 100])
  }

  /** The other case is real: a process whose clock shows 5 when it first talks to a server that
      has seen 100 sends a live request that is refused. */
  lemma {:induction false} RefusalReached()
    ensures var s := Lone(Idle, [], 0, map[], map[], {});
            var s' := Lone(InFlight(0, 5), [5], 5, map["key" := 5], map["key" := 0], {Request(0, "key", 5)});
            && Init(s) && Legal(s, [Begin(0), Acquire(0), Draw(0, 5), Send(0)], s')
            && Typed(s') && Live(s', Request(0, "key", 5)) && !ServerAccepts(s', Request(0, "key", 5))
  {
    hide *;
    var s0 := Lone(Idle, [], 0, map[], map[], {});
    var s1 := Lone(Waiting(0), [], 0, map[], map[], {});
    var s2 := Lone(Holding(0), [], 0, map[], map["key" := 0], {});
    var s3 := Lone(Drawn(0, 5), [5], 5, map["key" := 5], map["key" := 0], {});
    var s4 := Lone(InFlight(0, 5), [5], 5, map["key" := 5], map["key" := 0], {Request(0, "key", 5)});
    LoneBegins();
    LoneDraws();
    LoneEnds();
    LegalStep(s3, Send(0), [], s4);
    assert [Send(0)] + [] == [Send(0)];
    LegalStep(s2, Draw(0, 5), [Send(0)], s4);
    assert [Draw(0, 5)] + [Send(0)] == [Draw(0, 5), Send(0)];
    LegalStep(s1, Acquire(0), [Draw(0, 5), Send(0)], s4);
    assert [Acquire(0)] + [Draw(0, 5), Send(0)] == [Acquire(0), Draw(0, 5), Send(0)];
    LegalStep(s0, Begin(0), [Acquire(0), Draw(0, 5), Send(0)], s4);
    assert [Begin(0)] + [Acquire(0), Draw(0, 5), Send(0)] == [Begin(0), Acquire(0), Draw(0, 5), Send(0)];
  }

  lemma {:induction false} LoneEnds()
    ensures Init(Lone(Idle, [], 0, map[], map[], {}))
    ensures var s' := Lone(InFlight(0, 5), [5], 5, map["key" := 5], map["key" := 0], {Request(0, "key", 5)});
            Typed(s') && Legal(s', [], s') && Live(s', Request(0, "key", 5)) && !ServerAccepts(s', Request(0, "key", 5))
  {
  }

  lemma {:induction false} LoneBegins()
    ensures var s0, s1 := Lone(Idle, [], 0, map[], map[], {}), Lone(Waiting(0), [], 0, map[], map[], {});
            var s2 := Lone(Holding(0), [], 0, map[], map["key" := 0], {});
            && Typed(s0) && Enabled(s0, Begin(0)) && Do(s0, Begin(0)) == s1
            && Typed(s1) && Enabled(s1, Acquire(0)) && Do(s1, Acquire(0)) == s2 && Typed(s2)
  {
  }

  lemma {:induction false} LoneDraws()
    ensures var s2 := Lone(Holding(0), [], 0, map[], map["key" := 0], {});
            var s3 := Lone(Drawn(0, 5), [5], 5, map["key" := 5], map["key" := 0], {});
            var s4 := Lone(InFlight(0, 5), [5], 5, map["key" := 5], map["key" := 0], {Request(0, "key", 5)});
            && Typed(s2) && Enabled(s2, Draw(0, 5)) && Do(s2, Draw(0, 5)) == s3
            && Typed(s3) && Enabled(s3, Send(0)) && Do(s3, Send(0)) == s4 && Typed(s4)
  {
    var s2 := Lone(Holding(0), [], 0, map[], map["key" := 0], {});
    assert LastFor(s2, 0) == 0 && NextNonce(5, 0) == 5;
    assert [] + [5] == [5];
  }

  lemma {:induction false} LegalStep(s: System, e: Event, rest: seq<Event>, s': System)
    requires Typed(s) && Enabled(s, e) && Legal(Do(s, e), rest, s')
    ensures Legal(s, [e] + rest, s')
  {
    assert ([e] + rest)[1..] == rest;
  }

  /** Once the counter of a key has passed what the server had seen at the start, every later
      live request on that key is accepted, however far back the clock may jump. */
  lemma {:induction false} AcceptedForGood(
    s: System, run: seq<Event>, mid: System, rest: seq<Event>, s': System, r: Request)
    requires Init(s) && Legal(s, run, mid) && Legal(mid, rest, s')
    requires Typed(s') && Live(s', r)
    requires r.key in mid.last && mid.last[r.key] > SeenOf(s, r.key)
    ensures ServerAccepts(s', r)
  {
    InitInv(s);
    RunInv(s.seen, s, run, mid);
    RunInv(s.seen, mid, rest, s');
    LiveShape(s.seen, s', r);
    hide Inv, Legal, Init, Live;
  }

  /** Within one call every attempt draws a strictly larger nonce, there are at most four
      attempts, and the backoffs before attempt `n + 1` add up to 2^n - 1, at most seven. */
  lemma {:induction false} CallsBounded(s: System, run: seq<Event>, s': System, t: nat)
    requires Init(s) && Legal(s, run, s') && t in s'.tasks
    ensures Typed(s') && CallBounded(s', t)
  {
    InitInv(s);
    RunInv(s.seen, s, run, s');
  }

  /** When a call is tried again: exactly after a rate-limited answer to one of its first three
      attempts, after a further pause of 1, 2 or 4 seconds; every other answer ends it. Either way
      the lock is free again, and no counter has moved. */
  lemma {:induction false} RetriesExactly(s: System, run: seq<Event>, mid: System, t: nat, rateLimited: bool)
    requires Init(s) && Legal(s, run, mid) && Typed(mid) && Enabled(mid, Answer(t, rateLimited))
    ensures var after := Do(mid, Answer(t, rateLimited));
            var attempts := |mid.tasks[t].drawn|;
            && 1 <= attempts <= 4 && t in after.tasks && KeyOf(mid, t) !in after.locks
            && after.last == mid.last && after.own == mid.own
            && (if rateLimited && attempts <= 3
                then after.tasks[t].phase == Waiting(attempts) &&
                     after.tasks[t].slept == mid.tasks[t].slept + [1, 2, 4][attempts - 1]
                else after.tasks[t].phase == Idle && after.tasks[t].slept == mid.tasks[t].slept)
  {
    CallsBounded(s, run, mid, t);
    hide Legal, Init, Increasing;
    AnswerStep(mid, t, rateLimited);
  }

  lemma {:induction false} AnswerStep(s: System, t: nat, rateLimited: bool)
    requires Typed(s) && Enabled(s, Answer(t, rateLimited)) && CallBounded(s, t)
    ensures var after := Do(s, Answer(t, rateLimited));
            var attempts := |s.tasks[t].drawn|;
            && 1 <= attempts <= 4 && t in after.tasks && KeyOf(s, t) !in after.locks
            && after.last == s.last && after.own == s.own
            && (if rateLimited && attempts <= 3
                then after.tasks[t].phase == Waiting(attempts) &&
                     after.tasks[t].slept == s.tasks[t].slept + [1, 2, 4][attempts - 1]
                else after.tasks[t].phase == Idle && after.tasks[t].slept == s.tasks[t].slept)
  {
    hide Increasing;
    assert Pow2(0) == 1 && Pow2(1) == 2 && Pow2(2) == 4;
    var n := s.tasks[t].phase.n;
    assert |s.tasks[t].drawn| == n + 1;
  }

  lemma {:induction false} SeenGrows(s: System, e: Event, k: Key)
    requires Typed(s) && Enabled(s, e)
    ensures SeenOf(Do(s, e), k) >= SeenOf(s, k)
  {
    if !e.Draw? && !e.Deliver? { SameServer(s, e); hide Do; }
  }

  lemma {:induction false} RunSeenGrows(s: System, run: seq<Event>, s': System, k: Key)
    requires Typed(s) && Legal(s, run, s')
    ensures SeenOf(s', k) >= SeenOf(s, k)
    decreases |run|
  {
    if run != [] {
      SeenGrows(s, run[0], k);
      DoTyped(s, run[0]);
      RunSeenGrows(Do(s, run[0]), run[1..], s', k);
      hide Do, Enabled, SeenOf;
    }
  }

  /** No number is accepted twice: once a request is accepted and recorded, no request on the key with
      its number or a smaller one is ever accepted again, in any state that follows. */
  lemma {:induction false} AcceptedOnce(s: System, r: Request, rest: seq<Event>, s': System, q: Request)
    requires Typed(s) && r in s.network && ServerAccepts(s, r)
    requires Typed(Do(s, Deliver(r, true))) && Legal(Do(s, Deliver(r, true)), rest, s')
    requires q.key == r.key && q.nonce <= r.nonce
    ensures !ServerAccepts(s', q)
  {
    assert SeenOf(Do(s, Deliver(r, true)), r.key) == r.nonce;
    RunSeenGrows(Do(s, Deliver(r, true)), rest, s', r.key);
    hide Do, Legal;
  }
}
