/** The client lists of the worker threads and how long a worker sleeps, from src/client.c.

    A client is on the active list or the pending list of at most one worker.  Lists are linked through
    the clients, and a worker keeps a pointer to the last link of each.  Any thread may add to a pending
    list; a worker passes over its own active list, and its place in the pass is kept in fields here, so
    that what other threads do may come between any two steps. */
module Workers {
  import opened Bytes
  import opened Wrappers

  /** `client_t **`: a place where a pointer to a client is stored. */
  datatype Link = Head | PendingHead | NextOf(client: Client)

  datatype Home = Nowhere | ActiveOn(worker: Worker) | PendingOn(worker: Worker)

  predicate Distinct(s: seq<Client>) {
    forall i, j | 0 <= i < j < |s| :: s[i] != s[j]
  }

  lemma DistinctAt(s: seq<Client>, k: nat)
    requires Distinct(s) && k < |s|
    ensures forall i | 0 <= i < |s| && i != k :: s[i] != s[k]
  {
  }

  lemma DistinctWithout(s: seq<Client>, k: nat)
    requires Distinct(s) && k < |s|
    ensures Distinct(s[..k] + s[k + 1..]) && s[k] !in s[..k] + s[k + 1..]
  {
  }

  lemma DistinctJoin(s: seq<Client>, t: seq<Client>)
    requires Distinct(s) && Distinct(t) && forall i, j | 0 <= i < |s| && 0 <= j < |t| :: s[i] != t[j]
    ensures Distinct(s + t)
  {
  }

  lemma DistinctSnoc(s: seq<Client>, c: Client)
    requires Distinct(s) && c !in s
    ensures Distinct(s + [c])
  {
  }

  class Client {
    var next: Client?
    var worker: Worker?
    var active: bool
    var schedule: int
    ghost var home: Home
  }

  class Worker {
    var clients: Client?
    var lastP: Link
    var count: int
    var pendingClients: Client?
    var pendingTail: Link
    var pendingCount: int
    var wakeup: int
    var time: int
    var running: bool

    // local to the thread: the link it has got to, and while a client leaves, the one after it
    var prevp: Link
    var nx: Client?
    var leaving: bool

    ghost var active: seq<Client>
    ghost var pending: seq<Client>
    ghost var at: nat

    ghost predicate Idle()
      reads this
    {
      && clients == null && lastP == Head && count == 0 && prevp == Head && !leaving
      && pendingClients == null && pendingTail == PendingHead && pendingCount == 0
      && active == [] && pending == [] && at == 0
    }

    /** The links of the active list, from the head on. */
    ghost function LinkAt(i: nat): Link
      reads this
      requires i <= |active|
    {
      if i == 0 then Head else NextOf(active[i - 1])
    }

    ghost function PendingLinkAt(i: nat): Link
      reads this
      requires i <= |pending|
    {
      if i == 0 then PendingHead else NextOf(pending[i - 1])
    }

    /** What the list has at place `i`. */
    ghost function NodeAt(i: nat): Client?
      reads this
    {
      if i < |active| then active[i] else null
    }

    ghost function PendingAt(i: nat): Client?
      reads this
    {
      if i < |pending| then pending[i] else null
    }

    ghost predicate PendingList(all: set<Client>)
      reads this, all
    {
      && pendingCount == |pending|
      && (forall i | 0 <= i < |pending| :: pending[i] in all && pending[i].home == PendingOn(this) && pending[i].worker == this)
      && Distinct(pending)
      && pendingTail == PendingLinkAt(|pending|)
      && pendingClients == PendingAt(0)
      && (forall i | 0 <= i < |pending| :: pending[i].next == PendingAt(i + 1))
    }

    lemma PendingTail(all: set<Client>)
      requires PendingList(all)
      ensures pendingTail != Head
      ensures pendingTail.NextOf? ==> pendingTail.client in all && pendingTail.client.home == PendingOn(this)
    {
    }

    lemma PassLink(all: set<Client>)
      requires ActiveList(all)
      ensures prevp != PendingHead && (prevp.Head? <==> at == 0)
      ensures prevp.NextOf? ==> at > 0 && prevp.client == active[at - 1] && prevp.client in all && prevp.client.home == ActiveOn(this)
    {
    }

    /** While a client leaves, the link before it is stale, and so is the last link if it was the last. */
    ghost predicate ActiveList(all: set<Client>)
      reads this, all
    {
      && count == |active| + (if leaving then 1 else 0)
      && at <= |active| && prevp == LinkAt(at)
      && (forall i | 0 <= i < |active| :: active[i] in all && active[i].home == ActiveOn(this) && active[i].worker == this)
      && Distinct(active)
      && (leaving ==> nx == NodeAt(at))
      && ((leaving && at == |active|) || lastP == LinkAt(|active|))
      && ((leaving && at == 0) || clients == NodeAt(0))
      && (forall i | 0 <= i < |active| :: (leaving && i + 1 == at) || active[i].next == NodeAt(i + 1))
    }

    /** Nothing passed over in this pass wants to run before the worker wakes. */
    ghost predicate Bounded(all: set<Client>)
      reads this, all
      requires at <= |active| && forall i | 0 <= i < |active| :: active[i] in all
    {
      forall i | 0 <= i < at :: active[i].active ==> wakeup <= active[i].schedule
    }
  }

  twostate predicate Same(d: Client)
    reads d
  {
    && d.next == old(d.next) && d.worker == old(d.worker) && d.home == old(d.home)
    && d.active == old(d.active) && d.schedule == old(d.schedule)
  }

  /** All but the link. */
  twostate predicate Kept(d: Client)
    reads d
  {
    d.worker == old(d.worker) && d.home == old(d.home) && d.active == old(d.active) && d.schedule == old(d.schedule)
  }

  /** When it wants to run is as it was. */
  twostate predicate SameTimes(d: Client)
    reads d
  {
    d.active == old(d.active) && d.schedule == old(d.schedule)
  }

  twostate predicate SameActive(w: Worker)
    reads w
  {
    && w.active == old(w.active) && w.at == old(w.at) && w.count == old(w.count) && w.lastP == old(w.lastP)
    && w.clients == old(w.clients) && w.prevp == old(w.prevp) && w.nx == old(w.nx) && w.leaving == old(w.leaving)
    && w.wakeup == old(w.wakeup) && w.running == old(w.running)
  }

  twostate predicate SamePlace(w: Worker)
    reads w
  {
    && w.active == old(w.active) && w.at == old(w.at) && w.leaving == old(w.leaving)
    && w.wakeup == old(w.wakeup) && w.time == old(w.time) && w.running == old(w.running)
  }

  twostate predicate SamePending(w: Worker)
    reads w
  {
    && w.pending == old(w.pending) && w.pendingCount == old(w.pendingCount)
    && w.pendingTail == old(w.pendingTail) && w.pendingClients == old(w.pendingClients)
  }

  /** The clients that live here are as they were. */
  twostate predicate Apart(all: set<Client>, home: Home)
    reads all
  {
    forall d | d in all && old(d.home) == home :: Same(d)
  }

  datatype Add = Add(w: Worker, all: set<Client>, c: Client)

  datatype Moment = Moment(w: Worker, c: Client, to: Worker?, newcomers: set<Client>)

  datatype On = On(w: Worker, all: set<Client>)

  datatype Scope = Scope(workers: set<Worker>, all: set<Client>)

  /** Lists are untouched when their workers' side of them and their clients are. */
  twostate lemma ActivesKept(f: Scope)
    requires forall w | w in f.workers ::
      old(w.ActiveList(f.all)) && old(w.Bounded(f.all)) && SameActive(w) && Apart(f.all, ActiveOn(w))
    ensures forall w | w in f.workers :: w.ActiveList(f.all) && w.Bounded(f.all)
  {
    hide Distinct;
    forall w | w in f.workers
      ensures w.ActiveList(f.all) && w.Bounded(f.all)
    {
      assert old(w.ActiveList(f.all)) && SameActive(w) && Apart(f.all, ActiveOn(w));
    }
  }

  twostate lemma PendingsKept(f: Scope)
    requires forall w | w in f.workers ::
      old(w.PendingList(f.all)) && SamePending(w) && Apart(f.all, PendingOn(w))
    ensures forall w | w in f.workers :: w.PendingList(f.all)
  {
    hide Distinct;
    forall w | w in f.workers
      ensures w.PendingList(f.all)
    {
      assert old(w.PendingList(f.all)) && SamePending(w) && Apart(f.all, PendingOn(w));
      forall i | 0 <= i < |w.pending| ensures Same(w.pending[i]) {
        assert old(w.pending[i].home) == PendingOn(w);
      }
    }
  }

  /** What `process` reports of a client: it stays, with its state changed, or it is gone from this
      worker, to another one or for good. */
  datatype Outcome = Stays(active: bool, schedule: int) | Leaves(to: Worker?)

  /** Whether a client with CLIENT_ACTIVE set is run in this pass. */
  predicate ShouldRun(running: bool, done: nat, schedule: int, schedMs: int, wake: Option<bool>) {
    running ==>
      if schedule <= schedMs then !(done > 9000 && wake.None?) else wake == Some(true)
  }

  const INT_LIMIT := 0x8000_0000

  /** A 64-bit difference of times stored in an `int`. */
  function ToInt(ms: nat): (n: int)
    ensures n < 0 <==> ms % 0x1_0000_0000 >= INT_LIMIT
    ensures n <= ms && (ms < INT_LIMIT ==> n == ms)
  {
    var low := ms % 0x1_0000_0000;
    if low < INT_LIMIT then low else low - 0x1_0000_0000
  }

  /** A client's turn in a pass: its state when the pass comes to it, and what its `wakeup` pointer says and its
        `process` reports then. */
  datatype Turn = Turn(active: bool, schedule: int, wake: Option<bool>, outcome: Outcome)

  /** A pass over clients with these turns.  `up` are the workers that are running. */
  datatype Plan = Plan(running: bool, schedMs: int, up: set<Worker>, turns: seq<Turn>) {
    /** How many of the first `n` are run. */
    ghost function Run(n: nat): nat
      requires n <= |turns|
      decreases n, 0
    {
      if n == 0 then 0 else Run(n - 1) + if IsRun(n - 1) then 1 else 0
    }

    ghost predicate IsRun(i: nat)
      requires i < |turns|
      decreases i, 1
    {
      turns[i].active && ShouldRun(running, Run(i), turns[i].schedule, schedMs, turns[i].wake)
    }

    ghost predicate Goes(i: nat)
      requires i < |turns|
    {
      IsRun(i) && turns[i].outcome.Leaves? && (turns[i].outcome.to == null || turns[i].outcome.to in up)
    }

    /** What has become of a client after its turn. */
    ghost predicate After(i: nat, w: Worker, home: Home, active: bool, schedule: int)
      requires i < |turns|
    {
      && home == (if !Goes(i) then ActiveOn(w) else if turns[i].outcome.to == null then Nowhere else PendingOn(turns[i].outcome.to))
      && if IsRun(i) && turns[i].outcome.Stays? then active == turns[i].outcome.active && schedule == turns[i].outcome.schedule
         else active == turns[i].active && schedule == turns[i].schedule
    }

    /** Those of the first `n` that stay, in order. */
    ghost function Staying(cs: seq<Client>, n: nat): seq<Client>
      requires n <= |turns| == |cs|
    {
      if n == 0 then [] else Staying(cs, n - 1) + if Goes(n - 1) then [] else [cs[n - 1]]
    }

    /** Those that go to this worker, in order. */
    ghost function SentTo(u: Worker, cs: seq<Client>, n: nat): seq<Client>
      requires n <= |turns| == |cs|
    {
      if n == 0 then [] else SentTo(u, cs, n - 1) + Sent(u, cs, n - 1)
    }

    ghost function Sent(u: Worker, cs: seq<Client>, i: nat): seq<Client>
      requires i < |turns| == |cs|
    {
      if Goes(i) && turns[i].outcome.to == u then [cs[i]] else []
    }
  }

  lemma NoneYet(plan: Plan, cs: seq<Client>)
    requires |plan.turns| == |cs|
    ensures plan.Staying(cs, 0) == [] && plan.Run(0) == 0 && forall u :: plan.SentTo(u, cs, 0) == []
  {
  }

  /** Not more are run than there are. */
  lemma {:induction false} RunAtMost(plan: Plan, n: nat)
    requires n <= |plan.turns|
    ensures plan.Run(n) <= n
    decreases n
  {
    if n > 0 {
      RunAtMost(plan, n - 1);
    }
  }

  /** Who is run in a pass, by the clock: while the worker runs, a client that is due, be it that nine thousand
      have been run before it and it has no `wakeup` to look at; one that is not due only when it is woken; and
      once the worker is stopped all of them. */
  lemma WhoIsRun(plan: Plan, i: nat)
    requires i < |plan.turns| && plan.turns[i].active
    ensures plan.running && plan.turns[i].schedule <= plan.schedMs && i <= 9000 ==> plan.IsRun(i)
    ensures plan.running && plan.turns[i].schedule <= plan.schedMs && plan.turns[i].wake.Some? ==> plan.IsRun(i)
    ensures plan.running && plan.turns[i].schedule <= plan.schedMs && plan.turns[i].wake.None? ==>
              (plan.IsRun(i) <==> plan.Run(i) <= 9000)
    ensures plan.running && plan.turns[i].schedule > plan.schedMs ==>
              (plan.IsRun(i) <==> plan.turns[i].wake == Some(true))
    ensures !plan.running ==> plan.IsRun(i)
  {
    RunAtMost(plan, i);
  }

  /** What has become of the client with turn `i` of a pass at this time, by the clock: it was run, so that things
      are as its `process` says, or it was not, and they are as they were.  `up` are the workers that run. */
  ghost predicate ByClock(t: Turn, running: bool, schedMs: int, i: nat, up: set<Worker>,
                          w: Worker, home: Home, active: bool, schedule: int)
  {
    var asWas := home == ActiveOn(w) && active == t.active && schedule == t.schedule;
    && (!t.active ==> asWas)
    && (t.active && running && i <= 9000 && t.schedule <= schedMs ==> Processed(t.outcome, up, w, home, active, schedule))
    && (t.active && running && t.wake == Some(true) ==> Processed(t.outcome, up, w, home, active, schedule))
    && (t.active && !running ==> Processed(t.outcome, up, w, home, active, schedule))
    && (t.active && running && t.schedule > schedMs && t.wake != Some(true) ==> asWas)
  }

  ghost predicate Processed(o: Outcome, up: set<Worker>, w: Worker, home: Home, active: bool, schedule: int) {
    match o
    case Stays(a, s) => home == ActiveOn(w) && active == a && schedule == s
    case Leaves(to) => if to == null then home == Nowhere else home == if to in up then PendingOn(to) else ActiveOn(w)
  }

  lemma RunByClock(plan: Plan, i: nat, w: Worker, home: Home, active: bool, schedule: int)
    requires i < |plan.turns| && plan.After(i, w, home, active, schedule)
    ensures ByClock(plan.turns[i], plan.running, plan.schedMs, i, plan.up, w, home, active, schedule)
  {
    if plan.turns[i].active {
      WhoIsRun(plan, i);
    }
  }

  lemma TurnTaken(plan: Plan, w: Worker, cs: seq<Client>, k: nat, processed: bool, left: bool,
                  home: Home, active: bool, schedule: int)
    requires k < |cs| == |plan.turns|
    requires var t := plan.turns[k];
             && processed == (t.active && ShouldRun(plan.running, plan.Run(k), t.schedule, plan.schedMs, t.wake))
             && left == (processed && t.outcome.Leaves? && (t.outcome.to == null || t.outcome.to in plan.up))
             && home == (if !left then ActiveOn(w) else if t.outcome.to == null then Nowhere else PendingOn(t.outcome.to))
             && if processed && t.outcome.Stays? then active == t.outcome.active && schedule == t.outcome.schedule
                else active == t.active && schedule == t.schedule
    ensures left == plan.Goes(k) && plan.Run(k + 1) == plan.Run(k) + (if processed then 1 else 0)
    ensures plan.After(k, w, home, active, schedule)
  {
  }

  lemma SentNext(plan: Plan, cs: seq<Client>, k: nat)
    requires k < |cs| == |plan.turns|
    ensures forall u :: plan.SentTo(u, cs, k + 1) == plan.SentTo(u, cs, k) + plan.Sent(u, cs, k)
  {
  }

  /** The list and the place in it, before and after turn `k`. */
  lemma NextPlace(plan: Plan, passed: seq<Client>, cs: seq<Client>, k: nat,
                  was: seq<Client>, wasAt: nat, now: seq<Client>, at: nat)
    requires k < |cs| == |plan.turns| && wasAt < |was| && was[wasAt..] == cs[k..]
    requires was[..wasAt] == passed + plan.Staying(cs, k)
    requires if plan.Goes(k) then at == wasAt && now == was[..at] + was[at + 1..] else now == was && at == wasAt + 1
    ensures at <= |now| && now[at..] == cs[k + 1..] && now[..at] == passed + plan.Staying(cs, k + 1)
  {
    hide Plan.Goes;
    assert was[wasAt + 1..] == was[wasAt..][1..];
    if plan.Goes(k) {
      assert now[..at] == was[..at] && plan.Staying(cs, k + 1) == plan.Staying(cs, k);
    } else {
      assert now[..at] == was[..wasAt] + [cs[k]];
    }
  }

  /** The difference to the wakeup time, cut to 32 bits, comes out negative, which poll takes as no limit. */
  predicate Endless(wakeup: int, tm: int) {
    wakeup > tm && (wakeup - tm) % 0x1_0000_0000 >= 0x8000_0000
  }

  /** How long a worker waits: never over a minute, and to its wakeup time or for 2 ms at most, unless it waits
      without limit. */
  function SleepTime(running: bool, wakeup: int, tm: int): (duration: int)
    ensures duration <= 60000
    ensures duration < 0 <==> running && Endless(wakeup, tm)
    ensures running && !Endless(wakeup, tm) ==> tm + duration <= Max(tm + 2, wakeup)
    ensures running && tm < wakeup < tm + 60000 ==> tm + duration == wakeup
    ensures wakeup <= tm || !running ==> duration == 2
  {
    if !running then 2 else Min(60000, if wakeup > tm then ToInt(wakeup - tm) else 2)
  }

  /** A worker that has just looked at its list means to wake within a minute, so it takes a clock set back by
      more than 24 days for it to wait without limit; and the least such setting does it. */
  lemma ClockSetBack(time: int, wakeup: int)
    requires wakeup <= time + 60000
    ensures forall tm | Endless(wakeup, tm) :: tm <= time + 60000 - 0x8000_0000
    ensures SleepTime(true, time + 60000, time + 60000 - 0x8000_0000) < 0
  {
  }

  /** A step of some thread: a client is added by another, or a worker goes on, with what the client at its
      place does or with its sleep, or is stopped or started. */
  datatype Step =
    | Arrive(w: Worker, c: Client)
    | Visit(w: Worker, done: nat, schedMs: int, wake: Option<bool>, o: Outcome)
    | Unlink(w: Worker)
    | Sleep(w: Worker, tm: int, later: int)
    | Switch(w: Worker, running: bool)
  {
    ghost predicate Among(workers: set<Worker>) {
      w in workers && (Visit? && o.Leaves? && o.to != null ==> o.to in workers)
    }

  }

  /** What is to be seen of a worker and of a client, without the links.  `newcomers` are the clients that have not
      arrived yet. */
  datatype WorkerState = WorkerState(active: seq<Client>, pending: seq<Client>, at: nat, leaving: bool, running: bool,
                                     wakeup: int, time: int)
  datatype ClientState = ClientState(active: bool, schedule: int, home: Home)
  datatype State = State(ws: map<Worker, WorkerState>, cs: map<Client, ClientState>, newcomers: set<Client>)

  ghost predicate Fit(s: State) {
    && (forall w | w in s.ws :: FitWorker(s.ws[w], s.cs.Keys))
    && s.newcomers <= s.cs.Keys
  }

  ghost predicate FitWorker(w: WorkerState, all: set<Client>) {
    && w.at <= |w.active|
    && (forall i | 0 <= i < |w.active| :: w.active[i] in all)
    && (forall i | 0 <= i < |w.pending| :: w.pending[i] in all)
  }

  ghost function SetWorker(s: State, w: Worker, x: WorkerState): (t: State)
    requires Fit(s) && w in s.ws && FitWorker(x, s.cs.Keys)
    ensures Fit(t) && t.ws.Keys == s.ws.Keys && t.cs.Keys == s.cs.Keys
  {
    s.(ws := s.ws[w := x])
  }

  ghost function SetClient(s: State, c: Client, x: ClientState): (t: State)
    requires Fit(s) && c in s.cs
    ensures Fit(t) && t.ws.Keys == s.ws.Keys && t.cs.Keys == s.cs.Keys
  {
    assert s.cs[c := x].Keys == s.cs.Keys;
    s.(cs := s.cs[c := x])
  }

  /** Which clients are run and which go when their turn comes. */
  ghost predicate IsRun(s: State, step: Step)
    requires Fit(s) && step.Visit? && step.Among(s.ws.Keys) && s.ws[step.w].at < |s.ws[step.w].active|
  {
    var w := s.ws[step.w];
    var c := s.cs[w.active[w.at]];
    c.active && ShouldRun(w.running, step.done, c.schedule, step.schedMs, step.wake)
  }

  ghost predicate Goes(s: State, step: Step)
    requires Fit(s) && step.Visit? && step.Among(s.ws.Keys) && s.ws[step.w].at < |s.ws[step.w].active|
  {
    IsRun(s, step) && step.o.Leaves? && (step.o.to == null || s.ws[step.o.to].running)
  }

  ghost function Visited(s: State, step: Step): (t: State)
    requires Fit(s) && step.Visit? && step.Among(s.ws.Keys) && s.ws[step.w].at < |s.ws[step.w].active|
    ensures Fit(t) && t.ws.Keys == s.ws.Keys && t.cs.Keys == s.cs.Keys
  {
    if Goes(s, step) then Gone(s, step.w, step.o.to)
    else
      var w := s.ws[step.w];
      var c := w.active[w.at];
      var now :=
        if IsRun(s, step) && step.o.Stays? then s.cs[c].(active := step.o.active, schedule := step.o.schedule)
        else s.cs[c];
      Passed(s, step.w, now)
  }

  /** The client at the place of the pass is gone, and maybe pending elsewhere. */
  ghost function Gone(s: State, v: Worker, to: Worker?): (t: State)
    requires Fit(s) && v in s.ws && s.ws[v].at < |s.ws[v].active| && (to != null ==> to in s.ws)
    ensures Fit(t) && t.ws.Keys == s.ws.Keys && t.cs.Keys == s.cs.Keys
  {
    var w := s.ws[v];
    var c := w.active[w.at];
    var out := SetWorker(s, v, w.(active := w.active[..w.at] + w.active[w.at + 1..], leaving := true));
    if to == null then SetClient(out, c, s.cs[c].(home := Nowhere))
    else
      SetClient(SetWorker(out, to, out.ws[to].(pending := out.ws[to].pending + [c])), c, s.cs[c].(home := PendingOn(to)))
  }

  lemma GoneIs(s: State, v: Worker, to: Worker?)
    requires Fit(s) && v in s.ws && s.ws[v].at < |s.ws[v].active| && (to != null ==> to in s.ws)
    ensures
      var w, t := s.ws[v], Gone(s, v, to);
      var c := w.active[w.at];
      && t.newcomers == s.newcomers
      && (forall u | u in s.ws ::
            && t.ws[u].pending == s.ws[u].pending + (if to == u then [c] else [])
            && t.ws[u].(pending := []) ==
               (if u == v then w.(active := w.active[..w.at] + w.active[w.at + 1..], leaving := true, pending := [])
                else s.ws[u].(pending := [])))
      && (forall d | d in s.cs ::
            t.cs[d] == if d == c then s.cs[c].(home := if to == null then Nowhere else PendingOn(to)) else s.cs[d])
  {
    hide Fit, FitWorker;
    var t := Gone(s, v, to);
    forall u | u in s.ws
      ensures to != u && u != v ==> t.ws[u] == s.ws[u]
    {
    }
  }

  /** It is passed over, in this state. */
  ghost function Passed(s: State, v: Worker, now: ClientState): (t: State)
    requires Fit(s) && v in s.ws && s.ws[v].at < |s.ws[v].active|
    ensures Fit(t) && t.ws.Keys == s.ws.Keys && t.cs.Keys == s.cs.Keys
  {
    var w := s.ws[v];
    SetClient(
      SetWorker(s, v, w.(at := w.at + 1, wakeup := if now.active then Min(now.schedule, w.wakeup) else w.wakeup)),
      w.active[w.at], now)
  }

  ghost function Slept(s: State, step: Step): (t: State)
    requires Fit(s) && step.Sleep? && step.w in s.ws
    ensures Fit(t) && t.ws.Keys == s.ws.Keys && t.cs.Keys == s.cs.Keys
  {
    var w := s.ws[step.w];
    var none := w.pending == [];
    s.(ws := s.ws[step.w :=
               WorkerState(w.active + w.pending, [], if none then 0 else |w.active|, false, w.running,
                           if none then step.later + 60000 else w.wakeup, step.later)],
       cs := map d | d in s.cs :: if d in w.pending then s.cs[d].(home := ActiveOn(step.w)) else s.cs[d])
  }

  /** What a step does.  A worker with a client that is leaving can only unlink it. */
  ghost function Next(s: State, step: Step): (t: State)
    requires Fit(s) && step.Among(s.ws.Keys)
    ensures Fit(t) && t.ws.Keys == s.ws.Keys && t.cs.Keys == s.cs.Keys
  {
    var w := s.ws[step.w];
    if step.Arrive? then
      if step.c in s.newcomers then
        SetClient(SetWorker(s, step.w, w.(pending := w.pending + [step.c])), step.c,
                  s.cs[step.c].(home := PendingOn(step.w))).(newcomers := s.newcomers - {step.c})
      else s
    else if step.Switch? then SetWorker(s, step.w, w.(running := step.running))
    else if w.leaving then SetWorker(s, step.w, w.(leaving := false))
    else if step.Visit? && w.at < |w.active| then Visited(s, step)
    else if step.Sleep? && w.at == |w.active| then Slept(s, step)
    else s
  }

  ghost function Run(s: State, steps: seq<Step>): (t: State)
    requires Fit(s) && forall i | 0 <= i < |steps| :: steps[i].Among(s.ws.Keys)
    ensures Fit(t) && t.ws.Keys == s.ws.Keys && t.cs.Keys == s.cs.Keys
    decreases |steps|
  {
    if steps == [] then s else Run(Next(s, steps[0]), steps[1..])
  }

  /** The client's `process` says here that it is finished. */
  ghost predicate Finishes(s: State, step: Step, d: Client)
    requires Fit(s) && step.Among(s.ws.Keys)
  {
    var w := s.ws[step.w];
    && step.Visit? && !w.leaving && w.at < |w.active| && d == w.active[w.at]
    && Goes(s, step) && step.o.to == null
  }

  /** Over any run, a client that has been anywhere, or has arrived, is somewhere at the end, unless it has said
      that it is finished. */
  lemma {:induction false} NoneLost(s: State, steps: seq<Step>, d: Client)
    requires Fit(s) && forall i | 0 <= i < |steps| :: steps[i].Among(s.ws.Keys)
    requires d in s.cs && Run(s, steps).cs[d].home == Nowhere
    requires s.cs[d].home != Nowhere || (d in s.newcomers && d !in Run(s, steps).newcomers)
    ensures exists i | 0 <= i < |steps| :: Finishes(Run(s, steps[..i]), steps[i], d)
    decreases |steps|
  {
    hide Next, Finishes, Fit;
    if steps != [] {
      NoneLostYet(s, steps[0], d);
      if Finishes(s, steps[0], d) {
        assert steps[..0] == [];
        assert Finishes(Run(s, steps[..0]), steps[0], d);
      } else {
        NoneLost(Next(s, steps[0]), steps[1..], d);
        var i :| 0 <= i < |steps| - 1 && Finishes(Run(Next(s, steps[0]), steps[1..][..i]), steps[1..][i], d);
        assert steps[..i + 1][0] == steps[0] && steps[..i + 1][1..] == steps[1..][..i];
        assert Finishes(Run(s, steps[..i + 1]), steps[i + 1], d);
      }
    }
  }

  lemma NoneLostYet(s: State, step: Step, d: Client)
    requires Fit(s) && step.Among(s.ws.Keys) && d in s.cs
    ensures Next(s, step).newcomers <= s.newcomers
    ensures s.cs[d].home != Nowhere && Next(s, step).cs[d].home == Nowhere ==> Finishes(s, step, d)
    ensures d in s.newcomers && d !in Next(s, step).newcomers ==> Next(s, step).cs[d].home != Nowhere
  {
  }

  twostate predicate Switched(w: Worker)
    reads w
  {
    && w.active == old(w.active) && w.at == old(w.at) && w.count == old(w.count) && w.lastP == old(w.lastP)
    && w.clients == old(w.clients) && w.prevp == old(w.prevp) && w.nx == old(w.nx) && w.leaving == old(w.leaving)
    && w.wakeup == old(w.wakeup)
  }

  class World {
    ghost const workers: set<Worker>
    ghost const all: set<Client>

    /** `worker_start`, for all the workers there are going to be. */
    constructor (workers: set<Worker>, all: set<Client>)
      requires forall w | w in workers :: w.Idle()
      requires forall c | c in all :: c.home == Nowhere
      ensures Valid() && this.workers == workers && this.all == all
    {
      this.workers, this.all := workers, all;
    }

    /** A client is on the list that its home says, and on no other. */
    ghost predicate Homed()
      reads this, workers, all
    {
      forall d | d in all ::
        && (d.home.ActiveOn? ==> d.home.worker in workers && d in d.home.worker.active)
        && (d.home.PendingOn? ==> d.home.worker in workers && d in d.home.worker.pending)
    }

    ghost predicate Valid()
      reads this, workers, all
    {
      && (forall w | w in workers :: w.PendingList(all) && w.ActiveList(all) && w.Bounded(all))
      && Homed()
    }

    /** `worker_add_client`, called with the lock of `w` held: by `client_add_worker`,
        `client_add_incoming` and `client_change_worker`. */
    method AddClient(w: Worker, c: Client)
      requires Valid() && w in workers && c in all && c.home.Nowhere?
      modifies w, all
      ensures Valid()
      ensures w.pending == old(w.pending) + [c] && c.home == PendingOn(w) && SameActive(w) && w.time == old(w.time)
      ensures forall d | d in all && d != c :: d.home == old(d.home)
      ensures forall d | d in all :: SameTimes(d)
    {
      hide Worker.PendingList, Worker.ActiveList, Worker.Bounded;
      Append(w, c);
      PendingsKept(Scope(workers - {w}, all));
      ActivesKept(Scope(workers, all));
    }

    method Append(w: Worker, c: Client)
      requires w.PendingList(all) && c in all && c.home.Nowhere?
      modifies w, all
      ensures w.PendingList(all)
      ensures w.pending == old(w.pending) + [c] && c.home == PendingOn(w) && SameActive(w) && w.time == old(w.time)
      ensures forall d | d in all && d != c :: d.home == old(d.home)
      ensures forall d | d in all && d != c && d.home != PendingOn(w) :: Same(d)
      ensures forall d | d in all :: SameTimes(d)
    {
      hide Worker.PendingList;
      w.PendingTail(all);
      w.pendingCount := w.pendingCount + 1;
      c.next := null;
      if w.pendingTail.NextOf? {
        w.pendingTail.client.next := c;
      } else {
        w.pendingClients := c;
      }
      w.pendingTail := NextOf(c);
      c.worker := w;
      w.pending := w.pending + [c];
      c.home := PendingOn(w);
      Appended(Add(w, all, c));
    }

    twostate lemma Appended(a: Add)
      requires a.c in a.all && old(a.c.home).Nowhere?
      requires old(a.w.PendingList(a.all))
      requires a.w.pendingCount == old(a.w.pendingCount) + 1 && a.w.pendingTail == NextOf(a.c)
      requires a.w.pendingClients == if old(a.w.pendingTail).NextOf? then old(a.w.pendingClients) else a.c
      requires a.w.pending == old(a.w.pending) + [a.c]
      requires a.c.next == null && a.c.worker == a.w && a.c.home == PendingOn(a.w)
      requires forall d | d in a.all && d != a.c :: d.home == old(d.home) && d.worker == old(d.worker)
      requires forall d | d in a.all && d != a.c ::
                 d.next == if old(a.w.pendingTail) == NextOf(d) then a.c else old(d.next)
      ensures a.w.PendingList(a.all)
    {
      var p, w, n := old(a.w.pending), a.w, |old(a.w.pending)|;
      if n > 0 {
        DistinctAt(p, n - 1);
      }
      DistinctSnoc(p, a.c);
      hide Distinct;
      forall i | 0 <= i <= n
        ensures w.pending[i].home == PendingOn(w) && w.pending[i].worker == w && w.pending[i].next == w.PendingAt(i + 1)
      {
        if i < n {
          assert p[i] == w.pending[i] && old(p[i].home) == PendingOn(w);
          assert old(p[i].next) == old(w.PendingAt(i + 1));
        }
      }
    }

    /** The end of `client = *prevp = nx` in `worker`: the client that left is unlinked without being
        looked at, as it may be anywhere by now. */
    method Unlink(w: Worker)
      requires Valid() && w in workers && w.leaving
      modifies w, all
      ensures Valid() && !w.leaving
      ensures w.active == old(w.active) && w.at == old(w.at) && w.count == old(w.count) - 1 && SamePending(w)
      ensures w.wakeup == old(w.wakeup) && w.running == old(w.running) && w.time == old(w.time)
      ensures forall d | d in all :: d.home == old(d.home) && SameTimes(d)
    {
      hide Worker.PendingList, Worker.ActiveList, Worker.Bounded;
      UnlinkHere(w);
      PendingsKept(Scope(workers, all));
      ActivesKept(Scope(workers - {w}, all));
    }

    method UnlinkHere(w: Worker)
      requires w.ActiveList(all) && w.Bounded(all) && w.leaving
      modifies w, all
      ensures w.ActiveList(all) && w.Bounded(all) && !w.leaving
      ensures w.active == old(w.active) && w.at == old(w.at) && w.count == old(w.count) - 1 && SamePending(w)
      ensures w.wakeup == old(w.wakeup) && w.running == old(w.running) && w.time == old(w.time)
      ensures forall d | d in all :: d.home == old(d.home) && SameTimes(d)
      ensures forall d | d in all && d.home != ActiveOn(w) :: Same(d)
    {
      hide Worker.ActiveList, Worker.Bounded;
      w.PassLink(all);
      w.count := w.count - 1;
      if w.nx == null {
        w.lastP := w.prevp;
      }
      if w.prevp.NextOf? {
        w.prevp.client.next := w.nx;
      } else {
        w.clients := w.nx;
      }
      w.leaving := false;
      Unlinked(On(w, all));
    }

    twostate predicate CutOut(o: On)
      reads o.w, o.all
    {
      && old(o.w.ActiveList(o.all)) && old(o.w.Bounded(o.all)) && old(o.w.leaving) && !o.w.leaving
      && o.w.active == old(o.w.active) && o.w.at == old(o.w.at) && o.w.prevp == old(o.w.prevp)
      && o.w.count == old(o.w.count) - 1 && o.w.wakeup == old(o.w.wakeup)
      && o.w.lastP == (if old(o.w.nx) == null then o.w.prevp else old(o.w.lastP))
      && o.w.clients == (if o.w.prevp.NextOf? then old(o.w.clients) else old(o.w.nx))
      && forall d | d in o.all :: Kept(d) && d.next == if o.w.prevp == NextOf(d) then old(o.w.nx) else old(d.next)
    }

    twostate lemma Unlinked(o: On)
      requires CutOut(o)
      ensures o.w.ActiveList(o.all) && o.w.Bounded(o.all)
    {
      hide Distinct;
      forall i | 0 <= i < |o.w.active|
        ensures Kept(o.w.active[i]) && o.w.active[i].next == o.w.NodeAt(i + 1)
      {
        hide Worker.ActiveList, Worker.Bounded, CutOut;
        UnlinkedNode(o, i);
      }
    }

    twostate lemma UnlinkedNode(o: On, new i: nat)
      requires CutOut(o) && i < |o.w.active|
      ensures Kept(o.w.active[i]) && o.w.active[i].next == o.w.NodeAt(i + 1)
    {
      var w, at := o.w, o.w.at;
      if at > 0 {
        DistinctAt(w.active, at - 1);
      }
      hide Distinct, Worker.Bounded;
      assert old(w.active[i].home) == ActiveOn(w);
      if i + 1 == at {
        assert w.prevp == NextOf(w.active[i]);
      } else {
        assert old(w.active[i].next) == old(w.NodeAt(i + 1));
        assert at > 0 ==> w.active[i] != w.active[at - 1];
      }
    }

    /** Where a pass is at a client that is on the list: nothing about it is stale. */
    lemma Current(w: Worker)
      requires w.ActiveList(all) && !w.leaving && w.at < |w.active|
      ensures w.prevp != PendingHead && (w.prevp.NextOf? ==> w.prevp.client in all)
      ensures (if w.prevp.NextOf? then w.prevp.client.next else w.clients) == w.active[w.at]
      ensures w.active[w.at] in all
      ensures w.active[w.at].worker == w && w.active[w.at].home == ActiveOn(w)
      ensures w.active[w.at].next == w.NodeAt(w.at + 1)
    {
      assert w.at > 0 ==> w.active[w.at - 1].next == w.NodeAt(w.at - 1 + 1);
    }

    /** The client at this place is passed over, its `process` having changed its state or not. */
    method Stay(w: Worker, active: bool, schedule: int)
      requires Valid() && w in workers && !w.leaving && w.at < |w.active|
      modifies w, all
      ensures Valid() && !w.leaving && SamePending(w)
      ensures w.active == old(w.active) && w.at == old(w.at) + 1 && w.count == old(w.count)
      ensures w.running == old(w.running) && w.time == old(w.time)
      ensures w.wakeup == if active then Min(schedule, old(w.wakeup)) else old(w.wakeup)
      ensures w.active[old(w.at)].active == active && w.active[old(w.at)].schedule == schedule
      ensures forall d | d in all && d != w.active[old(w.at)] :: Same(d)
    {
      hide Worker.PendingList, Worker.ActiveList, Worker.Bounded, Homed;
      Current(w);
      var c := if w.prevp.NextOf? then w.prevp.client.next else w.clients;
      StayHere(w, c, active, schedule);
      PendingsKept(Scope(workers, all));
      ActivesKept(Scope(workers - {w}, all));
      HomesKept();
    }

    method StayHere(w: Worker, c: Client, active: bool, schedule: int)
      requires w.ActiveList(all) && w.Bounded(all) && !w.leaving && w.at < |w.active| && c == w.active[w.at]
      modifies w`wakeup, w`prevp, w`at, c`active, c`schedule
      ensures w.ActiveList(all) && w.Bounded(all)
      ensures w.at == old(w.at) + 1
      ensures w.wakeup == if active then Min(schedule, old(w.wakeup)) else old(w.wakeup)
      ensures c.active == active && c.schedule == schedule
    {
      hide Worker.ActiveList, Worker.Bounded;
      c.active, c.schedule := active, schedule;
      if c.active && c.schedule < w.wakeup {
        w.wakeup := c.schedule;
      }
      w.prevp := NextOf(c);
      w.at := w.at + 1;
      Stayed(On(w, all));
    }

    twostate lemma Stayed(o: On)
      requires old(o.w.ActiveList(o.all)) && old(o.w.Bounded(o.all)) && !old(o.w.leaving) && !o.w.leaving
      requires o.w.active == old(o.w.active) && old(o.w.at) < |o.w.active| && o.w.at == old(o.w.at) + 1
      requires o.w.prevp == NextOf(o.w.active[old(o.w.at)])
      requires o.w.count == old(o.w.count)
      requires o.w.lastP == old(o.w.lastP) && o.w.clients == old(o.w.clients)
      requires forall d | d in o.all :: d.next == old(d.next) && d.worker == old(d.worker) && d.home == old(d.home)
      requires forall d | d in o.all && d != o.w.active[old(o.w.at)] :: Same(d)
      requires o.w.wakeup <= old(o.w.wakeup)
      requires o.w.active[old(o.w.at)].active ==> o.w.wakeup <= o.w.active[old(o.w.at)].schedule
      ensures o.w.ActiveList(o.all) && o.w.Bounded(o.all)
    {
      var w, at := o.w, old(o.w.at);
      DistinctAt(w.active, at);
      hide Distinct;
      forall i | 0 <= i < |w.active|
        ensures w.active[i].home == ActiveOn(w) && w.active[i].worker == w && w.active[i].next == w.NodeAt(i + 1)
      {
        assert old(w.active[i].home) == ActiveOn(w);
        assert old(w.active[i].next) == old(w.NodeAt(i + 1));
      }
      forall i | 0 <= i < w.at && w.active[i].active
        ensures w.wakeup <= w.active[i].schedule
      {
        if i < at {
          assert old(w.active[i]) == w.active[i] && w.active[i] != w.active[at];
        }
      }
    }

    twostate lemma HomesKept()
      requires old(Homed())
      requires forall d | d in all :: d.home == old(d.home)
      requires forall w | w in workers :: w.active == old(w.active) && w.pending == old(w.pending)
      ensures Homed()
    {
    }

    /** Within `process`: the client at this place has gone from the worker, which keeps only where it
        was and what came after it. */
    method Leave(w: Worker, c: Client)
      requires Valid() && w in workers && !w.leaving && w.at < |w.active| && c == w.active[w.at]
      modifies w`nx, w`leaving, w`active, c`worker, c`home
      ensures Valid() && w.leaving && c.home == Nowhere
      ensures w.active == old(w.active)[..w.at] + old(w.active)[w.at + 1..]
    {
      hide Worker.PendingList, Worker.ActiveList, Worker.Bounded, Homed;
      Current(w);
      w.nx := c.next;
      w.leaving := true;
      w.active := w.active[..w.at] + w.active[w.at + 1..];
      c.worker := null;
      c.home := Nowhere;
      Left(On(w, all));
      PendingsKept(Scope(workers, all));
      ActivesKept(Scope(workers - {w}, all));
      OneLess(w);
    }

    twostate predicate OutOf(o: On)
      reads o.w, o.all
    {
      && old(o.w.ActiveList(o.all)) && !old(o.w.leaving) && o.w.leaving
      && o.w.at == old(o.w.at) < |old(o.w.active)| && o.w.prevp == old(o.w.prevp)
      && o.w.active == old(o.w.active)[..o.w.at] + old(o.w.active)[o.w.at + 1..]
      && o.w.nx == old(o.w.active[o.w.at].next) && o.w.count == old(o.w.count)
      && o.w.lastP == old(o.w.lastP) && o.w.clients == old(o.w.clients) && o.w.wakeup == old(o.w.wakeup)
      && forall d | d in o.all && d != old(o.w.active[o.w.at]) :: Same(d)
    }

    twostate lemma Left(o: On)
      requires OutOf(o) && old(o.w.Bounded(o.all))
      ensures o.w.ActiveList(o.all) && o.w.Bounded(o.all)
    {
      var w, at, was := o.w, o.w.at, old(o.w.active);
      DistinctWithout(was, at);
      hide Distinct;
      assert old(was[at].next) == old(w.NodeAt(at + 1));
      forall i | 0 <= i < |w.active|
        ensures w.active[i] in o.all && w.active[i].home == ActiveOn(w) && w.active[i].worker == w
        ensures i + 1 == at || w.active[i].next == w.NodeAt(i + 1)
        ensures i < at && w.active[i].active ==> w.wakeup <= w.active[i].schedule
      {
        LeftNode(o, i);
      }
    }

    /** The clients after the one that left have moved up by one. */
    twostate lemma LeftNode(o: On, new i: nat)
      requires OutOf(o) && old(o.w.Bounded(o.all)) && i < |o.w.active|
      ensures
        var w := o.w;
        && w.active[i] in o.all && w.active[i].home == ActiveOn(w) && w.active[i].worker == w
        && (i + 1 == w.at || w.active[i].next == w.NodeAt(i + 1))
        && (i < w.at && w.active[i].active ==> w.wakeup <= w.active[i].schedule)
    {
      var w, at, was := o.w, o.w.at, old(o.w.active);
      DistinctWithout(was, at);
      hide Distinct;
      var k := if i < at then i else i + 1;
      assert w.active[i] == was[k] && w.active[i] in w.active && Same(was[k]);
      assert old(was[k].home) == ActiveOn(w);
      assert old(was[k].next) == old(w.NodeAt(k + 1));
    }

    twostate lemma OneLess(w: Worker)
      requires old(Homed()) && w in workers && old(w.at) < |old(w.active)|
      requires w.active == old(w.active)[..old(w.at)] + old(w.active)[old(w.at) + 1..]
      requires old(w.active[w.at]).home == Nowhere
      requires forall d | d in all && d != old(w.active[w.at]) :: d.home == old(d.home)
      requires forall u | u in workers :: (u != w ==> u.active == old(u.active)) && u.pending == old(u.pending)
      ensures Homed()
    {
      var was, at := old(w.active), old(w.at);
      forall d | d in all && d.home == ActiveOn(w)
        ensures d in w.active
      {
        assert d in was;
        var k :| 0 <= k < |was| && was[k] == d;
        assert d == w.active[if k < at then k else k - 1];
      }
    }

    method ClearNext(c: Client)
      requires Valid() && c in all && c.home.Nowhere?
      modifies c`next
      ensures Valid()
    {
      hide Worker.PendingList, Worker.ActiveList, Worker.Bounded, Homed;
      c.next := null;
      PendingsKept(Scope(workers, all));
      ActivesKept(Scope(workers, all));
      HomesKept();
    }

    /** `client_change_worker`, called by the `process` of the client that is to move. */
    method ChangeWorker(c: Client, dest: Worker) returns (moved: bool)
      requires Valid() && dest in workers && c in all && (dest.running ==> c.home.Nowhere?)
      modifies dest, all
      ensures Valid() && moved == old(dest.running)
      ensures moved ==> dest.pending == old(dest.pending) + [c] && SameActive(dest) && c.home == PendingOn(dest)
      ensures dest.time == old(dest.time)
      ensures !moved ==> SamePending(dest) && SameActive(dest) && forall d | d in all :: Same(d)
      ensures forall d | d in all :: SameTimes(d) && (d != c ==> d.home == old(d.home))
    {
      if !dest.running {
        return false;
      }
      ClearNext(c);
      AddClient(dest, c);
      moved := true;
    }

    /** The client of this turn of the pass, none at the end of it; it is this worker's, so there is no
        abort. */
    method Here(w: Worker) returns (c: Client?)
      requires Valid() && w in workers && !w.leaving
      ensures w.at <= |w.active| && (c == null <==> w.at == |w.active|)
      ensures c != null ==> c == w.active[w.at] && c in all && c.worker == w && c.home == ActiveOn(w)
    {
      AtInList(w);
      if w.at < |w.active| {
        Current(w);
      } else {
        AtEnd(w);
      }
      hide Worker.ActiveList, Worker.PendingList, Worker.Bounded, Homed;
      c := if w.prevp.NextOf? then w.prevp.client.next else w.clients;
    }

    lemma AtInList(w: Worker)
      requires w.ActiveList(all)
      ensures w.at <= |w.active|
    {
    }

    lemma AtEnd(w: Worker)
      requires w.ActiveList(all) && !w.leaving && w.at == |w.active|
      ensures w.prevp != PendingHead && (if w.prevp.NextOf? then w.prevp.client.next else w.clients) == null
    {
      assert w.at > 0 ==> w.active[w.at - 1].next == w.NodeAt(w.at);
    }

    /** Whether the client goes, and where to: not to a worker that is not running. */
    method Depart(w: Worker, c: Client, to: Worker?) returns (left: bool)
      requires Valid() && w in workers && !w.leaving && w.at < |w.active| && c == w.active[w.at] && c in all
      requires to != null ==> to in workers
      modifies workers, all
      ensures Valid() && w.at == old(w.at)
      ensures left == (to == null || old(to.running))
      ensures !left ==> !w.leaving && w.active == old(w.active) && Same(c)
      ensures left ==> w.leaving && w.active == old(w.active)[..w.at] + old(w.active)[w.at + 1..]
      ensures left ==> c.home == if to == null then Nowhere else PendingOn(to)
      ensures forall u | u in workers ::
                u.running == old(u.running) && u.pending == old(u.pending) + (if left && to == u then [c] else [])
      ensures w.time == old(w.time) && forall u | u in workers && u != w :: SamePlace(u)
      ensures w.wakeup == old(w.wakeup) && forall d | d in all :: SameTimes(d) && (d != c ==> d.home == old(d.home))
    {
      hide Worker.PendingList, Worker.ActiveList, Worker.Bounded, Homed, Valid;
      left := to == null || to.running;
      if left {
        Leave(w, c);
      }
      if to != null {
        var moved := ChangeWorker(c, to);
      }
    }

    /** One turn of the pass in `worker`: `done` clients have been run in it, and `wake` is what the
        `wakeup` pointer of the client says, if it has one. */
    method Visit(w: Worker, c: Client, done: nat, schedMs: int, wake: Option<bool>, o: Outcome)
        returns (processed: bool, left: bool)
      requires Valid() && w in workers && !w.leaving && w.at < |w.active| && c == w.active[w.at] && c in all
      requires o.Leaves? && o.to != null ==> o.to in workers
      modifies workers, all
      ensures Valid()
      ensures processed == (old(c.active) && ShouldRun(old(w.running), done, old(c.schedule), schedMs, wake))
      ensures left == (processed && o.Leaves? && (o.to == null || old(o.to.running)))
      ensures left ==> c.home == if o.to == null then Nowhere else PendingOn(o.to)
      ensures forall u | u in workers ::
                u.running == old(u.running) && u.pending == old(u.pending) + (if left && o.to == u then [c] else [])
      ensures w.time == old(w.time) && forall u | u in workers && u != w :: SamePlace(u)
      ensures !left ==> !w.leaving && w.active == old(w.active) && w.at == old(w.at) + 1 && c.home == ActiveOn(w)
      ensures if processed && o.Stays? then c.active == o.active && c.schedule == o.schedule else SameTimes(c)
      ensures w.wakeup == if !left && c.active then Min(c.schedule, old(w.wakeup)) else old(w.wakeup)
      ensures forall d | d in all && d != c :: d.home == old(d.home) && SameTimes(d)
      ensures left ==>
                w.leaving && w.at == old(w.at) && w.active == old(w.active)[..w.at] + old(w.active)[w.at + 1..]
    {
      hide Worker.PendingList, Worker.ActiveList, Worker.Bounded, Homed, Valid;
      processed := c.active && ShouldRun(w.running, done, c.schedule, schedMs, wake);
      left := false;
      if processed && o.Leaves? {
        left := Depart(w, c, o.to);
      }
      if !left {
        if processed && o.Stays? {
          Stay(w, o.active, o.schedule);
        } else {
          Stay(w, c.active, c.schedule);
        }
        ListedHere(w, w.at - 1);
      }
    }

    /** `worker_add_pending_clients`: the pass that follows is over the new clients only, or, when there
        are none, over all of them. */
    method TakePending(w: Worker)
      requires Valid() && w in workers && !w.leaving && w.at == |w.active|
      modifies w, all
      ensures Valid() && !w.leaving
      ensures w.pending == [] && w.active == old(w.active) + old(w.pending)
      ensures w.at == if old(w.pending) == [] then 0 else |old(w.active)|
      ensures w.wakeup == if old(w.pending) == [] then w.time + 60000 else old(w.wakeup)
      ensures w.time == old(w.time) && w.running == old(w.running)
      ensures forall d | d in all :: d.home == if d in old(w.pending) then ActiveOn(w) else old(d.home)
      ensures forall d | d in all :: SameTimes(d)
    {
      NonePending(w);
      if w.pendingClients != null {
        TakeChain(w);
      } else {
        Rewind(w);
      }
    }

    lemma NonePending(w: Worker)
      requires w.PendingList(all)
      ensures w.pendingClients == null <==> w.pending == []
    {
    }

    method Rewind(w: Worker)
      requires Valid() && w in workers && !w.leaving && w.at == |w.active|
      modifies w`wakeup, w`prevp, w`at
      ensures Valid() && w.at == 0 && w.wakeup == w.time + 60000
    {
      hide Worker.PendingList, Worker.ActiveList, Worker.Bounded, Homed;
      w.wakeup := w.time + 60000;
      w.prevp, w.at := Head, 0;
      Rewound(On(w, all));
      PendingsKept(Scope(workers, all));
      ActivesKept(Scope(workers - {w}, all));
      HomesKept();
    }

    twostate lemma Rewound(o: On)
      requires old(o.w.ActiveList(o.all)) && !old(o.w.leaving) && !o.w.leaving && o.w.at == 0 && o.w.prevp == Head
      requires o.w.active == old(o.w.active) && o.w.count == old(o.w.count)
      requires o.w.lastP == old(o.w.lastP) && o.w.clients == old(o.w.clients)
      requires forall d | d in o.all :: Same(d)
      ensures o.w.ActiveList(o.all) && o.w.Bounded(o.all)
    {
      hide Distinct;
      var w := o.w;
      forall i | 0 <= i < |w.active|
        ensures Same(w.active[i]) && w.active[i].next == w.NodeAt(i + 1)
      {
        assert old(w.active[i].home) == ActiveOn(w) && old(w.active[i].next) == old(w.NodeAt(i + 1));
      }
    }

    /** The last link of the active list is made to point to the first pending client. */
    method TakeChain(w: Worker)
      requires Valid() && w in workers && !w.leaving && w.at == |w.active| && w.pending != []
      modifies w, all
      ensures Valid() && !w.leaving
      ensures w.pending == [] && w.active == old(w.active) + old(w.pending)
      ensures w.at == |old(w.active)|
      ensures w.wakeup == old(w.wakeup) && w.time == old(w.time) && w.running == old(w.running)
      ensures forall d | d in all :: d.home == if d in old(w.pending) then ActiveOn(w) else old(d.home)
      ensures forall d | d in all :: SameTimes(d)
    {
      hide Worker.PendingList, Worker.ActiveList, Worker.Bounded, Homed;
      LastLink(w);
      JoinHomes(w);
      Splice(w);
      Joined(On(w, all));
      PendingsKept(Scope(workers - {w}, all));
      ActivesKept(Scope(workers - {w}, all));
      HomesMoved(w);
    }

    twostate predicate Spliced(o: On)
      reads o.w, o.all
    {
      && !old(o.w.leaving) && !o.w.leaving && old(o.w.at) == |old(o.w.active)| == o.w.at
      && o.w.active == old(o.w.active) + old(o.w.pending) && o.w.pending == [] && old(o.w.pending) != []
      && o.w.prevp == old(o.w.lastP) && o.w.lastP == old(o.w.pendingTail)
      && o.w.count == old(o.w.count) + old(o.w.pendingCount) && o.w.wakeup == old(o.w.wakeup)
      && o.w.pendingClients == null && o.w.pendingTail == PendingHead && o.w.pendingCount == 0
      && o.w.clients == (if o.w.prevp.NextOf? then old(o.w.clients) else old(o.w.pendingClients))
      && (forall d | d in o.all :: d.home == if d in old(o.w.pending) then ActiveOn(o.w) else old(d.home))
      && (forall d | d in o.all ::
            d.worker == old(d.worker) && d.active == old(d.active) && d.schedule == old(d.schedule)
            && d.next == if o.w.prevp == NextOf(d) then old(o.w.pendingClients) else old(d.next))
    }

    method Splice(w: Worker)
      requires w.lastP.NextOf? ==> w.lastP.client in all
      requires forall c | c in w.pending :: c in all
      requires !w.leaving && w.at == |w.active| && w.pending != []
      modifies w, all
      ensures Spliced(On(w, all)) && w.time == old(w.time) && w.running == old(w.running)
    {
      Relink(w);
      Rehome(w, w.pending);
      w.active, w.pending := w.active + w.pending, [];
    }

    method Relink(w: Worker)
      requires w.lastP.NextOf? ==> w.lastP.client in all
      modifies w`prevp, w`clients, w`lastP, w`count, w`pendingClients, w`pendingTail, w`pendingCount
      modifies (if w.lastP.NextOf? then {w.lastP.client} else {})`next
      ensures w.prevp == old(w.lastP) && w.lastP == old(w.pendingTail) && w.count == old(w.count) + old(w.pendingCount)
      ensures w.pendingClients == null && w.pendingTail == PendingHead && w.pendingCount == 0
      ensures w.clients == if w.prevp.NextOf? then old(w.clients) else old(w.pendingClients)
      ensures w.prevp.NextOf? ==> w.prevp.client.next == old(w.pendingClients)
    {
      w.prevp := w.lastP;
      if w.lastP.NextOf? {
        w.lastP.client.next := w.pendingClients;
      } else {
        w.clients := w.pendingClients;
      }
      w.lastP := w.pendingTail;
      w.count := w.count + w.pendingCount;
      w.pendingClients, w.pendingTail, w.pendingCount := null, PendingHead, 0;
    }

    ghost method Rehome(w: Worker, cs: seq<Client>)
      requires forall c | c in cs :: c in all
      modifies all`home
      ensures forall d | d in all :: d.home == if d in cs then ActiveOn(w) else old(d.home)
    {
      forall c | c in cs {
        c.home := ActiveOn(w);
      }
    }

    lemma LastLink(w: Worker)
      requires w.ActiveList(all) && !w.leaving
      ensures w.lastP == w.LinkAt(|w.active|)
      ensures w.lastP.NextOf? ==> w.lastP.client in all && w.lastP.client.home == ActiveOn(w)
    {
    }

    lemma JoinHomes(w: Worker)
      requires w.PendingList(all)
      ensures forall c | c in w.pending :: c in all && c.home == PendingOn(w)
    {
    }

    twostate lemma HomesMoved(w: Worker)
      requires old(Homed()) && w in workers
      requires w.active == old(w.active) + old(w.pending) && w.pending == []
      requires forall u | u in workers && u != w :: u.active == old(u.active) && u.pending == old(u.pending)
      requires forall d | d in all :: d.home == if d in old(w.pending) then ActiveOn(w) else old(d.home)
      ensures Homed()
    {
    }

    twostate lemma Joined(o: On)
      requires old(o.w.ActiveList(o.all)) && old(o.w.Bounded(o.all)) && old(o.w.PendingList(o.all))
      requires Spliced(o)
      ensures o.w.ActiveList(o.all) && o.w.Bounded(o.all) && o.w.PendingList(o.all)
    {
      var w, a, p := o.w, old(o.w.active), old(o.w.pending);
      JoinedApart(o);
      forall i | 0 <= i < |w.active|
        ensures w.active[i] in o.all && w.active[i].home == ActiveOn(w) && w.active[i].worker == w
        ensures w.active[i].next == w.NodeAt(i + 1)
        ensures i < |a| && w.active[i].active ==> w.wakeup <= w.active[i].schedule
      {
        hide Worker.ActiveList, Worker.PendingList, Worker.Bounded, Distinct, Spliced;
        if i < |a| {
          JoinedOld(o, i);
        } else {
          JoinedNew(o, i - |a|);
        }
      }
      hide Distinct;
    }

    twostate lemma JoinedApart(o: On)
      requires old(o.w.ActiveList(o.all)) && old(o.w.PendingList(o.all)) && Spliced(o)
      ensures Distinct(o.w.active)
    {
      var w, a, p := o.w, old(o.w.active), old(o.w.pending);
      forall i, j | 0 <= i < |a| && 0 <= j < |p|
        ensures a[i] != p[j]
      {
        assert old(a[i].home) == ActiveOn(w) && old(p[j].home) == PendingOn(w);
      }
      DistinctJoin(a, p);
    }

    twostate lemma JoinedOld(o: On, new i: nat)
      requires old(o.w.ActiveList(o.all)) && old(o.w.Bounded(o.all)) && old(o.w.PendingList(o.all))
      requires Spliced(o) && i < |old(o.w.active)|
      ensures
        var w := o.w;
        && w.active[i] in o.all && w.active[i].home == ActiveOn(w) && w.active[i].worker == w
        && w.active[i].next == w.NodeAt(i + 1)
        && (w.active[i].active ==> w.wakeup <= w.active[i].schedule)
    {
      var w, a, p := o.w, old(o.w.active), old(o.w.pending);
      DistinctAt(a, |a| - 1);
      hide Distinct;
      var d := a[i];
      assert w.active[i] == d && old(d.next) == old(w.NodeAt(i + 1)) && old(d.home) == ActiveOn(w);
      assert i + 1 < |a| ==> w.active[i + 1] == a[i + 1];
    }

    twostate lemma JoinedNew(o: On, new i: nat)
      requires old(o.w.ActiveList(o.all)) && old(o.w.PendingList(o.all))
      requires Spliced(o) && i < |old(o.w.pending)|
      ensures
        var w, k := o.w, |old(o.w.active)| + i;
        && w.active[k] in o.all && w.active[k].home == ActiveOn(w) && w.active[k].worker == w
        && w.active[k].next == w.NodeAt(k + 1)
    {
      hide Distinct, Worker.Bounded;
      var w, a, p := o.w, old(o.w.active), old(o.w.pending);
      var d := p[i];
      assert d in p && d in o.all && Distinct(p);
      assert w.active[|a| + i] == d && old(d.next) == old(w.PendingAt(i + 1)) && old(d.home) == PendingOn(w);
      assert |a| > 0 ==> old(a[|a| - 1].home) == ActiveOn(w);
    }

    /** A turn with the unlinking that may follow. */
    method TakeTurn(w: Worker, c: Client, done: nat, schedMs: int, wake: Option<bool>, o: Outcome)
        returns (processed: bool, ghost left: bool)
      requires Valid() && w in workers && !w.leaving && w.at < |w.active| && c == w.active[w.at] && c in all
      requires o.Leaves? && o.to != null ==> o.to in workers
      modifies workers, all
      ensures Valid() && !w.leaving
      ensures processed == (old(c.active) && ShouldRun(old(w.running), done, old(c.schedule), schedMs, wake))
      ensures left == (processed && o.Leaves? && (o.to == null || old(o.to.running)))
      ensures left ==> c.home == if o.to == null then Nowhere else PendingOn(o.to)
      ensures !left ==> w.active == old(w.active) && w.at == old(w.at) + 1 && c.home == ActiveOn(w)
      ensures left ==> w.at == old(w.at) && w.active == old(w.active)[..w.at] + old(w.active)[w.at + 1..]
      ensures if processed && o.Stays? then c.active == o.active && c.schedule == o.schedule else SameTimes(c)
      ensures forall u | u in workers ::
                u.running == old(u.running) && u.pending == old(u.pending) + (if left && o.to == u then [c] else [])
      ensures forall d | d in all && d != c :: d.home == old(d.home) && SameTimes(d)
    {
      hide Worker.PendingList, Worker.ActiveList, Worker.Bounded, Homed, Valid;
      var gone;
      processed, gone := Visit(w, c, done, schedMs, wake, o);
      left := gone;
      if gone {
        Unlink(w);
      }
    }

    lemma ListedHere(w: Worker, i: nat)
      requires Valid() && w in workers && i < |w.active|
      ensures w.active[i].home == ActiveOn(w)
    {
    }

    lemma ListedPending(w: Worker)
      requires Valid() && w in workers
      ensures forall c | c in w.pending :: c.home == PendingOn(w)
    {
    }

    lemma Listed(w: Worker)
      requires Valid() && w in workers
      ensures w.at <= |w.active| && Distinct(w.active) && forall i | 0 <= i < |w.active| :: w.active[i] in all
    {
    }

    ghost function PlanOf(w: Worker, schedMs: int, wakes: nat -> Option<bool>, outcomes: nat -> Outcome): Plan
      reads this, workers, all
      requires Valid() && w in workers
      ensures |PlanOf(w, schedMs, wakes, outcomes).turns| == |w.active| - w.at
    {
      hide Valid;
      Listed(w);
      Plan(w.running, schedMs, (set u | u in workers && u.running), Turns(w.active[w.at..], wakes, outcomes))
    }

    ghost function Turns(cs: seq<Client>, wakes: nat -> Option<bool>, outcomes: nat -> Outcome): (turns: seq<Turn>)
      reads cs
      ensures |turns| == |cs|
    {
      seq(|cs|, i requires 0 <= i < |cs| reads cs => Turn(cs[i].active, cs[i].schedule, wakes(i), outcomes(i)))
    }

    method PlannedTurn(w: Worker, c: Client, done: nat, schedMs: int, wake: Option<bool>, o: Outcome,
                       ghost plan: Plan, ghost passed: seq<Client>, ghost cs: seq<Client>, ghost k: nat)
        returns (processed: bool)
      requires Valid() && w in workers && !w.leaving && w.at < |w.active| && c == w.active[w.at] && c in all
      requires o.Leaves? && o.to != null ==> o.to in workers
      requires k < |cs| == |plan.turns| && plan.turns[k] == Turn(c.active, c.schedule, wake, o)
      requires plan.running == w.running && plan.schedMs == schedMs && (forall u | u in workers :: u.running <==> u in plan.up)
      requires w.active[w.at..] == cs[k..] && w.active[..w.at] == passed + plan.Staying(cs, k) && done == plan.Run(k)
      modifies workers, all
      ensures Valid() && !w.leaving && w.at <= |w.active|
      ensures w.active[w.at..] == cs[k + 1..] && w.active[..w.at] == passed + plan.Staying(cs, k + 1)
      ensures plan.Run(k + 1) == if processed then done + 1 else done
      ensures plan.After(k, w, c.home, c.active, c.schedule)
      ensures forall u | u in workers :: u.running == old(u.running) && u.pending == old(u.pending) + plan.Sent(u, cs, k)
      ensures forall d | d in all && d != c :: d.home == old(d.home) && SameTimes(d)
    {
      hide Worker.PendingList, Worker.ActiveList, Worker.Bounded, Homed, Valid, Distinct,
        Plan.Staying, Plan.IsRun, Plan.Run, Plan.Goes, Plan.After, ShouldRun;
      assert c == cs[k];
      ghost var was, wasAt := w.active, w.at;
      ghost var left;
      processed, left := TakeTurn(w, c, done, schedMs, wake, o);
      TurnTaken(plan, w, cs, k, processed, left, c.home, c.active, c.schedule);
      NextPlace(plan, passed, cs, k, was, wasAt, w.active, w.at);
    }

    /** A pass over the clients from where it begins: each has its turn, those that stay are on the list in
        their order, and the others are where they have gone, in the order they went.  No other client is
        touched. */
    method Pass(w: Worker, schedMs: int, wakes: nat -> Option<bool>, outcomes: nat -> Outcome)
      requires Valid() && w in workers && !w.leaving
      requires forall k :: outcomes(k).Leaves? && outcomes(k).to != null ==> outcomes(k).to in workers
      modifies workers, all
      ensures Valid() && !w.leaving && w.at == |w.active|
      ensures
        var plan := old(PlanOf(w, schedMs, wakes, outcomes));
        var passed, cs := old(w.active[..w.at]), old(w.active[w.at..]);
        && w.active == passed + plan.Staying(cs, |cs|)
        && (forall i | 0 <= i < |cs| :: plan.After(i, w, cs[i].home, cs[i].active, cs[i].schedule))
        && (forall u | u in workers :: u.running == old(u.running) && u.pending == old(u.pending) + plan.SentTo(u, cs, |cs|))
        && (forall d | d in all && d !in cs :: d.home == old(d.home) && SameTimes(d))
    {
      hide Worker.PendingList, Worker.ActiveList, Worker.Bounded, Homed, Valid, Distinct,
        Plan.Staying, Plan.SentTo, Plan.Sent, Plan.Run, Plan.After;
      Listed(w);
      ghost var plan := PlanOf(w, schedMs, wakes, outcomes);
      ghost var passed, cs := w.active[..w.at], w.active[w.at..];
      var k, done := 0, 0;
      NoneYet(plan, cs);
      var c := Here(w);
      while c != null
        invariant Valid() && !w.leaving && w.at <= |w.active|
        invariant if c == null then w.at == |w.active| else w.at < |w.active| && c == w.active[w.at] && c in all
        invariant k <= |cs| && w.active[w.at..] == cs[k..] && w.active[..w.at] == passed + plan.Staying(cs, k)
        invariant done == plan.Run(k)
        invariant forall i | 0 <= i < k :: plan.After(i, w, cs[i].home, cs[i].active, cs[i].schedule)
        invariant forall u | u in workers :: u.running == old(u.running) && u.pending == old(u.pending) + plan.SentTo(u, cs, k)
        invariant forall d | d in all && d !in cs[..k] :: d.home == old(d.home) && SameTimes(d)
        decreases |cs| - k
      {
        assert c == cs[k];
        var processed := PlannedTurn(w, c, done, schedMs, wakes(k), outcomes(k), plan, passed, cs, k);
        SentNext(plan, cs, k);
        k, done := k + 1, if processed then done + 1 else done;
        c := Here(w);
      }
    }

    /** `worker_wait`: no client on the list wants to run while the worker sleeps, unless within 2 ms. */
    method Wait(w: Worker, tm: int, later: int) returns (duration: int)
      requires Valid() && w in workers && !w.leaving && w.at == |w.active|
      modifies w, all
      ensures Valid() && !w.leaving && w.time == later
      ensures duration == SleepTime(old(w.running), old(w.wakeup), tm)
      ensures duration < 0 <==> old(w.running) && Endless(old(w.wakeup), tm)
      ensures old(w.running) && !Endless(old(w.wakeup), tm) ==>
                forall c | c in old(w.active) && old(c.active) :: tm + duration <= Max(tm + 2, old(c.schedule))
      ensures w.pending == [] && w.active == old(w.active) + old(w.pending)
      ensures w.at == if old(w.pending) == [] then 0 else |old(w.active)|
      ensures w.wakeup == if old(w.pending) == [] then later + 60000 else old(w.wakeup)
      ensures forall d | d in all :: d.home == if d in old(w.pending) then ActiveOn(w) else old(d.home)
      ensures w.running == old(w.running)
      ensures forall d | d in all :: SameTimes(d)
    {
      hide Worker.PendingList, Worker.ActiveList, Homed;
      duration := 2;
      if w.running {
        if w.wakeup > tm {
          duration := ToInt(w.wakeup - tm);
        }
        if duration > 60000 {
          duration := 60000;
        }
      }
      assert forall c | c in w.active && c.active :: w.wakeup <= c.schedule;
      SetTime(w, later);
      TakePending(w);
    }

    /** A pass by the clock: of up to 9000 clients each one that is due is run, and no other but when it is woken or
        the worker has been stopped. */
    method PassByClock(w: Worker, schedMs: int, wakes: nat -> Option<bool>, outcomes: nat -> Outcome)
      requires Valid() && w in workers && !w.leaving
      requires forall k :: outcomes(k).Leaves? && outcomes(k).to != null ==> outcomes(k).to in workers
      modifies workers, all
      ensures Valid() && !w.leaving && w.at == |w.active|
      ensures
        var cs := old(w.active[w.at..]);
        var up := old(set u | u in workers && u.running);
        forall i | 0 <= i < |cs| ::
          ByClock(old(Turn(cs[i].active, cs[i].schedule, wakes(i), outcomes(i))), old(w.running), schedMs, i, up,
                  w, cs[i].home, cs[i].active, cs[i].schedule)
    {
      hide Worker.PendingList, Worker.ActiveList, Worker.Bounded, Homed, Valid, Distinct, ByClock,
        Plan.IsRun, Plan.Run, Plan.Goes, Plan.After, Plan.Staying, Plan.SentTo, ShouldRun;
      Listed(w);
      ghost var cs, plan := w.active[w.at..], PlanOf(w, schedMs, wakes, outcomes);
      Pass(w, schedMs, wakes, outcomes);
      forall i | 0 <= i < |cs|
        ensures ByClock(plan.turns[i], plan.running, schedMs, i, plan.up, w, cs[i].home, cs[i].active, cs[i].schedule)
      {
        RunByClock(plan, i, w, cs[i].home, cs[i].active, cs[i].schedule);
      }
    }

    /** A wait and the pass after it, which is over the clients that have come in or, when there are none, over all.
        What is due is what is due within 12 ms of the clock then. */
    method Round(w: Worker, tm: int, later: int, wakes: nat -> Option<bool>, outcomes: nat -> Outcome)
      requires Valid() && w in workers && !w.leaving && w.at == |w.active|
      requires forall k :: outcomes(k).Leaves? && outcomes(k).to != null ==> outcomes(k).to in workers
      modifies workers, all
      ensures Valid() && !w.leaving && w.at == |w.active|
      ensures
        var cs := old(if w.pending == [] then w.active else w.pending);
        var up := old(set u | u in workers && u.running);
        forall i | 0 <= i < |cs| ::
          ByClock(old(Turn(cs[i].active, cs[i].schedule, wakes(i), outcomes(i))), old(w.running), later + 12, i, up,
                  w, cs[i].home, cs[i].active, cs[i].schedule)
    {
      hide Worker.PendingList, Worker.ActiveList, Worker.Bounded, Homed, Valid, Distinct, ByClock;
      InLists(w);
      ghost var cs := if w.pending == [] then w.active else w.pending;
      ghost var up := set u | u in workers && u.running;
      var duration := Wait(w, tm, later);
      assert w.active[w.at..] == cs && up == set u | u in workers && u.running;
      assert forall i | 0 <= i < |cs| :: cs[i] in all && SameTimes(cs[i]);
      PassByClock(w, later + 12, wakes, outcomes);
    }

    lemma InLists(w: Worker)
      requires Valid() && w in workers
      ensures forall c | c in w.active :: c in all
      ensures forall c | c in w.pending :: c in all
    {
    }

    method SetTime(w: Worker, later: int)
      requires Valid() && w in workers
      modifies w`time
      ensures Valid() && w.time == later
    {
      hide Worker.PendingList, Worker.ActiveList, Worker.Bounded, Homed;
      w.time := later;
      PendingsKept(Scope(workers, all));
      ActivesKept(Scope(workers, all));
      HomesKept();
    }

    method SetRunning(w: Worker, running: bool)
      requires Valid() && w in workers
      modifies w`running
      ensures Valid() && w.running == running
    {
      hide Worker.PendingList, Worker.ActiveList, Worker.Bounded, Homed;
      w.running := running;
      PendingsKept(Scope(workers, all));
      ActivesSwitched(Scope(workers, all));
      HomesKept();
    }

    twostate lemma ActivesSwitched(f: Scope)
      requires forall w | w in f.workers :: old(w.ActiveList(f.all)) && old(w.Bounded(f.all)) && Switched(w)
      requires forall d | d in f.all :: Same(d)
      ensures forall w | w in f.workers :: w.ActiveList(f.all) && w.Bounded(f.all)
    {
      hide Distinct;
      forall w | w in f.workers
        ensures w.ActiveList(f.all) && w.Bounded(f.all)
      {
        assert old(w.ActiveList(f.all)) && Switched(w);
      }
    }

    ghost function Abs(newcomers: set<Client>): (s: State)
      reads workers, all
      ensures s.ws.Keys == workers && s.cs.Keys == all && s.newcomers == newcomers
    {
      State(map u | u in workers :: WorkerState(u.active, u.pending, u.at, u.leaving, u.running, u.wakeup, u.time),
            map d | d in all :: ClientState(d.active, d.schedule, d.home), newcomers)
    }

    lemma IsFit(newcomers: set<Client>)
      requires Valid() && newcomers <= all
      ensures Fit(Abs(newcomers))
    {
      hide Homed, Distinct;
    }

    /** Steps of any threads, in any order, are a run of the model, with all lists kept as they should be; one that
        cannot be taken is passed over.  `left` are the clients that have not arrived in the end. */
    method RunSteps(steps: seq<Step>, newcomers: set<Client>) returns (left: set<Client>)
      requires Valid() && newcomers <= all && forall c | c in newcomers :: c.home == Nowhere
      requires forall i | 0 <= i < |steps| :: steps[i].Among(workers)
      modifies workers, all
      ensures Valid() && left <= newcomers
      ensures Fit(old(Abs(newcomers))) && Abs(left) == Run(old(Abs(newcomers)), steps)
      decreases |steps|
    {
      hide Worker.PendingList, Worker.ActiveList, Worker.Bounded, Homed, Valid, Next, Fit, Abs;
      IsFit(newcomers);
      left := newcomers;
      if steps != [] {
        left := TakeStep(steps[0], newcomers);
        left := RunSteps(steps[1..], left);
      }
    }

    method TakeStep(step: Step, newcomers: set<Client>) returns (left: set<Client>)
      requires Valid() && newcomers <= all && (forall c | c in newcomers :: c.home == Nowhere) && step.Among(workers)
      modifies workers, all
      ensures Valid() && left <= newcomers && forall c | c in left :: c.home == Nowhere
      ensures Fit(old(Abs(newcomers))) && Abs(left) == Next(old(Abs(newcomers)), step)
    {
      hide Worker.PendingList, Worker.ActiveList, Worker.Bounded, Homed, Valid, Fit;
      IsFit(newcomers);
      left := newcomers;
      if step.Arrive? {
        left := Arrives(step, newcomers);
      } else if step.Switch? {
        Switches(step, newcomers);
      } else {
        GoesOn(step, newcomers);
      }
    }

    method Arrives(step: Step, newcomers: set<Client>) returns (left: set<Client>)
      requires Valid() && newcomers <= all && (forall c | c in newcomers :: c.home == Nowhere)
      requires step.Arrive? && step.Among(workers) && Fit(Abs(newcomers))
      modifies step.w, all
      ensures Valid() && left <= newcomers && forall c | c in left :: c.home == Nowhere
      ensures Abs(left) == Next(old(Abs(newcomers)), step)
    {
      hide Worker.PendingList, Worker.ActiveList, Worker.Bounded, Homed, Valid, Fit;
      ghost var t := Next(Abs(newcomers), step);
      left := newcomers;
      if step.c in newcomers {
        AddClient(step.w, step.c);
        left := left - {step.c};
      }
      SameStates(Abs(left), t);
    }

    method Switches(step: Step, newcomers: set<Client>)
      requires Valid() && newcomers <= all && (forall c | c in newcomers :: c.home == Nowhere)
      requires step.Switch? && step.Among(workers) && Fit(Abs(newcomers))
      modifies step.w`running
      ensures Valid() && Abs(newcomers) == Next(old(Abs(newcomers)), step)
    {
      hide Worker.PendingList, Worker.ActiveList, Worker.Bounded, Homed, Valid, Fit;
      ghost var t := Next(Abs(newcomers), step);
      SetRunning(step.w, step.running);
      SameStates(Abs(newcomers), t);
    }

    /** The worker itself goes on. */
    method GoesOn(step: Step, newcomers: set<Client>)
      requires Valid() && newcomers <= all && (forall c | c in newcomers :: c.home == Nowhere)
      requires !step.Arrive? && !step.Switch? && step.Among(workers) && Fit(Abs(newcomers))
      modifies workers, all
      ensures Valid() && Abs(newcomers) == Next(old(Abs(newcomers)), step)
      ensures forall c | c in newcomers :: c.home == Nowhere
    {
      hide Worker.PendingList, Worker.ActiveList, Worker.Bounded, Homed, Valid, Fit, Visited, Slept, SetWorker;
      var w := step.w;
      if w.leaving {
        CutsOut(step, newcomers);
      } else {
        var c := Here(w);
        if step.Visit? && c != null {
          Visits(step, c, newcomers);
        } else if step.Sleep? && c == null {
          Sleeps(step, newcomers);
        }
      }
    }

    lemma StillFits(w: Worker, newcomers: set<Client>)
      requires w in workers && Fit(Abs(newcomers))
      ensures FitWorker(Abs(newcomers).ws[w].(leaving := false), all)
    {
    }

    method CutsOut(step: Step, newcomers: set<Client>)
      requires Valid() && newcomers <= all && (forall c | c in newcomers :: c.home == Nowhere)
      requires step.Among(workers) && Fit(Abs(newcomers)) && step.w.leaving
      modifies step.w, all
      ensures Valid() && forall c | c in newcomers :: c.home == Nowhere
      ensures
        var s := old(Abs(newcomers));
        Abs(newcomers) == SetWorker(s, step.w, s.ws[step.w].(leaving := false))
    {
      hide Worker.PendingList, Worker.ActiveList, Worker.Bounded, Homed, Valid, Fit;
      StillFits(step.w, newcomers);
      ghost var s := Abs(newcomers);
      ghost var t := SetWorker(s, step.w, s.ws[step.w].(leaving := false));
      Unlink(step.w);
      SameStates(Abs(newcomers), t);
    }

    method Visits(step: Step, c: Client, newcomers: set<Client>)
      requires Valid() && newcomers <= all && (forall c | c in newcomers :: c.home == Nowhere)
      requires step.Visit? && step.Among(workers) && Fit(Abs(newcomers))
      requires !step.w.leaving && step.w.at < |step.w.active| && c == step.w.active[step.w.at] && c in all
      requires c.home == ActiveOn(step.w)
      modifies workers, all
      ensures Valid() && Abs(newcomers) == Visited(old(Abs(newcomers)), step)
      ensures forall c | c in newcomers :: c.home == Nowhere
    {
      hide Worker.PendingList, Worker.ActiveList, Worker.Bounded, Homed, Valid, Fit, Gone, Passed, Abs;
      ghost var s := Abs(newcomers);
      SeenBy(step, newcomers);
      var processed, left := Visit(step.w, c, step.done, step.schedMs, step.wake, step.o);
      if left {
        WentIs(Moment(step.w, c, step.o.to, newcomers));
      } else {
        PassedIs(Moment(step.w, c, null, newcomers));
        assert Seen(c) == if processed && step.o.Stays? then Seen(c) else s.cs[c];
      }
    }

    ghost function Seen(c: Client): ClientState
      reads c
    {
      ClientState(c.active, c.schedule, c.home)
    }

    lemma SeenBy(step: Step, newcomers: set<Client>)
      requires step.Among(workers) && step.w.at < |step.w.active| && step.w.active[step.w.at] in all
      ensures
        var s := Abs(newcomers);
        && s.ws[step.w].active == step.w.active && s.ws[step.w].at == step.w.at && s.ws[step.w].running == step.w.running
        && s.cs[step.w.active[step.w.at]] == Seen(step.w.active[step.w.at])
        && (step.Visit? && step.o.Leaves? && step.o.to != null ==> s.ws[step.o.to].running == step.o.to.running)
    {
    }

    twostate lemma WentIs(m: Moment)
      requires m.w in workers && m.c in all && (m.to != null ==> m.to in workers) && old(Fit(Abs(m.newcomers)))
      requires old(m.w.at) < |old(m.w.active)| && m.c == old(m.w.active)[old(m.w.at)]
      requires m.w.leaving && m.w.at == old(m.w.at)
      requires m.w.active == old(m.w.active)[..m.w.at] + old(m.w.active)[m.w.at + 1..]
      requires m.w.wakeup == old(m.w.wakeup) && m.w.time == old(m.w.time)
      requires forall u | u in workers ::
                 u.running == old(u.running) && u.pending == old(u.pending) + if m.to == u then [m.c] else []
      requires forall u | u in workers && u != m.w :: SamePlace(u)
      requires forall d | d in all && d != m.c :: d.home == old(d.home) && SameTimes(d)
      requires SameTimes(m.c) && m.c.home == if m.to == null then Nowhere else PendingOn(m.to)
      ensures Abs(m.newcomers) == Gone(old(Abs(m.newcomers)), m.w, m.to)
    {
      hide Gone, FitWorker;
      GoneIs(old(Abs(m.newcomers)), m.w, m.to);
      var s, t := Abs(m.newcomers), Gone(old(Abs(m.newcomers)), m.w, m.to);
      forall u | u in workers
        ensures s.ws[u] == t.ws[u]
      {
        assert s.ws[u].(pending := []) == t.ws[u].(pending := []) && s.ws[u].pending == t.ws[u].pending;
      }
      SameStates(s, t);
    }

    twostate lemma PassedIs(m: Moment)
      requires m.w in workers && m.c in all && old(Fit(Abs(m.newcomers)))
      requires old(m.w.at) < |old(m.w.active)| && m.c == old(m.w.active)[old(m.w.at)]
      requires !m.w.leaving && !old(m.w.leaving) && m.w.at == old(m.w.at) + 1 && m.w.active == old(m.w.active)
      requires m.w.wakeup == (if m.c.active then Min(m.c.schedule, old(m.w.wakeup)) else old(m.w.wakeup))
      requires m.w.time == old(m.w.time)
      requires forall u | u in workers :: u.running == old(u.running) && u.pending == old(u.pending)
      requires forall u | u in workers && u != m.w :: SamePlace(u)
      requires forall d | d in all && d != m.c :: d.home == old(d.home) && SameTimes(d)
      ensures Abs(m.newcomers) == Passed(old(Abs(m.newcomers)), m.w, Seen(m.c))
    {
      SameStates(Abs(m.newcomers), Passed(old(Abs(m.newcomers)), m.w, Seen(m.c)));
    }

    method Sleeps(step: Step, newcomers: set<Client>)
      requires Valid() && newcomers <= all && (forall c | c in newcomers :: c.home == Nowhere)
      requires step.Sleep? && step.Among(workers) && Fit(Abs(newcomers))
      requires !step.w.leaving && step.w.at == |step.w.active|
      modifies step.w, all
      ensures Valid() && Abs(newcomers) == Slept(old(Abs(newcomers)), step)
      ensures forall c | c in newcomers :: c.home == Nowhere
    {
      hide Worker.PendingList, Worker.ActiveList, Worker.Bounded, Homed, Valid, Fit;
      ghost var t := Slept(Abs(newcomers), step);
      ListedPending(step.w);
      var duration := Wait(step.w, step.tm, step.later);
      SameStates(Abs(newcomers), t);
    }
  }

  lemma SameStates(s: State, t: State)
    requires s.ws.Keys == t.ws.Keys && forall u | u in s.ws :: s.ws[u] == t.ws[u]
    requires s.cs.Keys == t.cs.Keys && forall d | d in s.cs :: s.cs[d] == t.cs[d]
    requires s.newcomers == t.newcomers
    ensures s == t
  {
    assert s.ws == t.ws && s.cs == t.cs;
  }
}
