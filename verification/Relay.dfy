/** The life of a relay, from src/slave.c: what is counted in `global.sources` and `relays_connecting`.

    Relays are worked on by their workers and by the threads that connect them; a step is what one of them
    does while nothing else can see the relay, or one hold of a global lock.  What servers answer, what the
    clock says and what becomes of the stream are inputs of a step. */
module Relay {
  import opened Wrappers

  const MAX_CONNECTING := 4

  /** Which operations a relay client has, or the thread that has it: not begun, or past the count. */
  datatype Phase = Init | Startup | Begun | Connecting | Reading | Gone

  /** What a server says to one request. */
  datatype Reply = NoConnection | NoAnswer | Redirect(http: bool) | Refused | Stream

  datatype Host = Host(skip: bool)

  /** What a look at the stream of a relay finds. */
  datatype Look = Look(expired: bool, running: bool, moved: bool, stillRunning: bool, terminating: bool, up: bool,
                       recent: bool, timedOut: bool, waiting: bool, listeners: nat)

  // ---------------------------------------------------------------------------------------------
  // What the steps are meant to do
  // ---------------------------------------------------------------------------------------------

  datatype RelayState = RelayState(phase: Phase, running: bool, cleanup: bool, onDemand: bool, conTime: nat,
                                   inUse: Option<nat>, hosts: seq<Host>)
  {
    function Detailed(expired: bool): RelayState {
      this.(cleanup := cleanup || expired, running := running && !cleanup && !expired)
    }

    /** All hosts have another chance. */
    function Fresh(): seq<Host> {
      seq(|hosts|, _ => Host(false))
    }

    function Initialised(rc: int, expired: bool): RelayState {
      var r := Detailed(expired);
      if rc < 0 then r.(phase := Gone)
      else if rc > 0 && r.running then r.(phase := Startup)
      else if rc > 0 && r.cleanup then r.(phase := Reading)
      else r
    }

    predicate Starts(up: bool, wanted: bool, connecting: int) {
      running && up && (onDemand ==> wanted) && connecting < MAX_CONNECTING
    }

    function StartedUp(expired: bool, up: bool, wanted: bool, connecting: int): RelayState {
      var r := Detailed(expired);
      if !r.running then r.(phase := Reading)
      else if r.Starts(up, wanted, connecting) then r.(phase := Begun)
      else r
    }

    /** The hosts from this one on are tried in turn, but those to be skipped, until one has a stream that can be
        used. */
    function Opened(host: nat, replies: nat -> nat -> Reply, formatOk: nat -> bool, up: nat -> bool, now: nat)
        : (r: (RelayState, bool))
      requires host <= |hosts|
      ensures |r.0.hosts| == |hosts|
      decreases |hosts| - host
    {
      if host == |hosts| then (this, false)
      else
        var ok := !hosts[host].skip && Answered(replies(host), 0);
        var next :=
          if hosts[host].skip then this
          else this.(conTime := now, inUse := Some(host), hosts := if ok then hosts else hosts[host := Host(true)]);
        if ok && formatOk(host) then (next, true)
        else if up(host) then next.Opened(host + 1, replies, formatOk, up, now)
        else (next, false)
    }

    function Connected(limit: bool, replies: nat -> nat -> Reply, formatOk: nat -> bool, up: nat -> bool, now: nat)
        : RelayState
    {
      var (r, ok) := if limit then (this, false) else Opened(0, replies, formatOk, up, now);
      r.(phase := Reading, inUse := if ok then r.inUse else None)
    }

    /** Whether the server is to be skipped, or all of them given another chance. */
    function Judged(l: Look): RelayState {
      var poor := (!onDemand && l.recent) || l.timedOut;
      if conTime == 0 || !l.up then this
      else if !poor then this.(hosts := Fresh())
      else if inUse.Some? && inUse.value < |hosts| then this.(hosts := hosts[inUse.value := Host(true)])
      else this
    }

    /** The stream is over: it starts again, or goes when there are no listeners left. */
    function Ended(l: Look): RelayState {
      if cleanup then
        this.(conTime := 0, phase := if l.listeners > 0 then Reading else Gone)
      else
        this.(conTime := 0, phase := Init, hosts := if !running || conTime == 0 || inUse == None then Fresh() else hosts)
    }

    function WasRead(l: Look): RelayState {
      var r := Detailed(l.expired);
      if IsRunning(l) then r
      else
        var j := if l.terminating then r else r.Judged(l);
        if l.waiting then j else j.Ended(l)
    }
  }

  predicate IsRunning(l: Look) {
    l.running && (l.moved || l.stillRunning)
  }

  predicate IsOver(l: Look) {
    !IsRunning(l) && !l.waiting
  }

  /** Within ten redirects a request is answered with a stream. */
  predicate Answered(replies: nat -> Reply, k: nat)
    decreases 11 - k
  {
    k <= 10 && (replies(k) == Stream || (replies(k) == Redirect(true) && Answered(replies, k + 1)))
  }

  /** `started` and `dropped` are how often a relay has been counted as a source, and uncounted. */
  datatype State = State(relays: seq<RelayState>, sources: int, connecting: int, started: nat, dropped: nat)

  predicate Enabled(s: State, step: Step) {
    match step
    case Initialises(i, _, _) => i < |s.relays| && s.relays[i].phase == Init
    case StartsUp(i, _, _, _) => i < |s.relays| && s.relays[i].phase == Startup
    case Begins(i, now) => i < |s.relays| && s.relays[i].phase == Begun && now > 0
    case Connects(i, _, _, _, _, now) => i < |s.relays| && s.relays[i].phase == Connecting && now > 0
    case Reads(i, _) => i < |s.relays| && s.relays[i].phase == Reading
    case Others(_) => true
  }

  function Next(s: State, step: Step): State
    requires Enabled(s, step)
  {
    match step
    case Initialises(i, rc, expired) =>
      s.(relays := s.relays[i := s.relays[i].Initialised(rc, expired)])
    case StartsUp(i, expired, up, wanted) =>
      s.(relays := s.relays[i := s.relays[i].StartedUp(expired, up, wanted, s.connecting)],
         connecting := s.connecting + if s.relays[i].Detailed(expired).Starts(up, wanted, s.connecting) then 1 else 0)
    case Begins(i, now) =>
      s.(relays := s.relays[i := s.relays[i].(phase := Connecting, conTime := now)],
         sources := s.sources + 1, started := s.started + 1)
    case Connects(i, limit, replies, formatOk, up, now) =>
      s.(relays := s.relays[i := s.relays[i].Connected(limit, replies, formatOk, up, now)],
         connecting := s.connecting - 1)
    case Reads(i, l) =>
      var drops := IsOver(l) && s.relays[i].conTime > 0;
      s.(relays := s.relays[i := s.relays[i].WasRead(l)],
         sources := s.sources - (if drops then 1 else 0), dropped := s.dropped + if drops then 1 else 0)
    case Others(change) =>
      s.(sources := s.sources + change)
  }

  /** A run; a step that cannot be taken is passed over. */
  function Run(s: State, steps: seq<Step>): State
    decreases |steps|
  {
    if steps == [] then s else Run(if Enabled(s, steps[0]) then Next(s, steps[0]) else s, steps[1..])
  }

  /** What a look at the configuration does: a relay that has gone from it is to be cleaned up, and stops. */
  lemma Looked(r: RelayState, expired: bool)
    ensures
      var d := r.Detailed(expired);
      && d.cleanup == (r.cleanup || expired) && d.running == (r.running && !r.cleanup && !expired)
      && d.conTime == r.conTime && d.phase == r.phase && d.inUse == r.inUse && d.hosts == r.hosts
  {
  }

  /** A step of one relay leaves all others as they are, and the counts change as its phase does: a start raises the
      count of sources and of starts, and its end lowers the one and raises the count of drops; a thread is counted
      from where it begins to where it is connected or has failed. */
  lemma StepCounts(s: State, step: Step)
    requires Enabled(s, step)
    ensures
      var t := Next(s, step);
      && |t.relays| == |s.relays|
      && (forall j | 0 <= j < |s.relays| && (step.Others? || j != step.i) :: t.relays[j] == s.relays[j])
      && (step.Others? ==> t == s.(sources := s.sources + step.change))
      && (!step.Others? ==>
            var r, q := s.relays[step.i], t.relays[step.i];
            && t.connecting == s.connecting + (if Threaded(q) then 1 else 0) - (if Threaded(r) then 1 else 0)
            && t.sources - s.sources == (t.started - s.started) - (t.dropped - s.dropped)
            && t.started == s.started + (if r.phase == Begun then 1 else 0)
            && (t.dropped > s.dropped <==> r.phase == Reading && r.conTime > 0 && q.conTime == 0)
            && t.dropped <= s.dropped + 1)
  {
  }

  predicate Threaded(r: RelayState) {
    r.phase == Begun || r.phase == Connecting
  }

  /** Who begins to connect: a relay that is wanted and not cleaned up, when its server is up and fewer than four
      others are connecting. */
  lemma Begins4(r: RelayState, expired: bool, up: bool, wanted: bool, connecting: int)
    requires r.phase == Startup
    ensures r.StartedUp(expired, up, wanted, connecting).phase == Begun <==>
              r.running && !r.cleanup && !expired && up && (!r.onDemand || wanted) && connecting < 4
    ensures r.StartedUp(expired, up, wanted, connecting).phase == Reading <==> !r.running || r.cleanup || expired
  {
  }

  /** What happens to a stream that is looked at: nothing while it is running; else, when no listener is to be seen to
      any more, it has no connection time any longer, and starts again unless it is cleaned up. */
  lemma ReadsThen(r: RelayState, l: Look)
    requires r.phase == Reading
    ensures
      var q := r.WasRead(l);
      && (l.running && (l.moved || l.stillRunning) ==>
            q.phase == Reading && q.conTime == r.conTime && q.hosts == r.hosts && q.inUse == r.inUse)
      && (!(l.running && (l.moved || l.stillRunning)) && l.waiting ==> q.phase == Reading && q.conTime == r.conTime)
      && (!(l.running && (l.moved || l.stillRunning)) && !l.waiting ==>
            && q.conTime == 0
            && q.phase == (if !r.cleanup && !l.expired then Init else if l.listeners > 0 then Reading else Gone))
  {
  }

  /** A server that was up but has been given up soon after, or did nothing, is to be skipped; one that was not gives
      all another chance. */
  lemma JudgedSo(r: RelayState, l: Look)
    ensures
      var poor := (!r.onDemand && l.recent) || l.timedOut;
      var q := r.Judged(l);
      && q == r.(hosts := q.hosts) && |q.hosts| == |r.hosts|
      && (r.conTime == 0 || !l.up ==> q.hosts == r.hosts)
      && (r.conTime > 0 && l.up && !poor ==> forall h | 0 <= h < |r.hosts| :: !q.hosts[h].skip)
      && (r.conTime > 0 && l.up && poor ==>
            forall h | 0 <= h < |r.hosts| :: q.hosts[h].skip == (r.hosts[h].skip || r.inUse == Some(h)))
  {
  }

  // ---------------------------------------------------------------------------------------------
  // The code
  // ---------------------------------------------------------------------------------------------

  class Relay {
    var phase: Phase
    var running: bool               // RELAY_RUNNING
    var cleanup: bool               // RELAY_CLEANUP
    var onDemand: bool
    var conTime: nat                // 0 when there is none
    var inUse: Option<nat>
    var hosts: seq<Host>

    constructor (onDemand: bool, hosts: seq<Host>)
      ensures phase == Init && conTime == 0 && running && !cleanup
    {
      phase, running, cleanup, conTime, inUse := Init, true, false, 0, None;
      this.onDemand, this.hosts := onDemand, hosts;
    }

    function Abs(): RelayState
      reads this
    {
      RelayState(phase, running, cleanup, onDemand, conTime, inUse, hosts)
    }

    /** `connection_close`, which clears the whole connection. */
    method Close()
      modifies this`conTime
      ensures conTime == 0
    {
      conTime := 0;
    }

    /** `open_relay_connection`: whatever the replies, there is a connection time at the end, as the count
        has to drop in all cases. */
    method OpenConnection(host: nat, replies: nat -> Reply, now: nat) returns (ok: bool)
      requires host < |hosts| && now > 0 && conTime > 0
      modifies this`conTime, this`inUse, this`hosts
      ensures conTime == now && inUse == Some(host)
      ensures hosts == if ok then old(hosts) else old(hosts)[host := Host(true)]
      ensures ok <==> Answered(replies, 0)
      ensures ok <==> exists k: nat | k <= 10 :: replies(k) == Stream && forall j | 0 <= j < k :: replies(j) == Redirect(true)
    {
      var redirects: nat := 0;
      while redirects <= 10
        invariant redirects <= 11 && hosts == old(hosts) && (redirects > 0 ==> inUse == Some(host))
        invariant forall j | 0 <= j < redirects :: replies(j) == Redirect(true)
        invariant Answered(replies, 0) <==> Answered(replies, redirects)
        decreases 11 - redirects
      {
        conTime := now;
        inUse := Some(host);
        match replies(redirects) {
          case NoConnection => break;
          case NoAnswer => break;
          case Redirect(http) =>
            if !http {
              break;
            }
            Close();
          case Refused => break;
          case Stream =>
            conTime := now;
            return true;
        }
        redirects := redirects + 1;
      }
      Close();
      conTime := now;
      hosts := hosts[inUse.value := Host(true)];
      ok := false;
    }

    /** `open_relay`: the hosts in turn, but those to be skipped. */
    method OpenRelay(replies: nat -> nat -> Reply, formatOk: nat -> bool, up: nat -> bool, now: nat)
        returns (ok: bool, tried: nat)
      requires hosts != [] && now > 0 && conTime > 0
      modifies this`conTime, this`inUse, this`hosts
      ensures conTime > 0 && |hosts| == |old(hosts)|
      ensures ok ==> inUse.Some? && inUse.value < |hosts| && !hosts[inUse.value].skip && formatOk(inUse.value)
      ensures ok ==> inUse == Some(tried)
      ensures !ok ==> tried == |hosts| || (0 < tried < |hosts| && !up(tried - 1))
      ensures forall h | 0 <= h < tried :: hosts[h].skip || !formatOk(h)
      ensures (Abs(), ok) == old(Abs()).Opened(0, replies, formatOk, up, now)
    {
      var host: nat := 0;
      while host < |hosts|
        invariant conTime > 0 && host <= |hosts| == |old(hosts)|
        invariant forall h | 0 <= h < host :: hosts[h].skip || !formatOk(h)
        invariant Abs().Opened(host, replies, formatOk, up, now) == old(Abs()).Opened(0, replies, formatOk, up, now)
      {
        if !hosts[host].skip {
          var connected := OpenConnection(host, replies(host), now);
          if connected && formatOk(host) {
            return true, host;
          }
        }
        if !up(host) {
          host := host + 1;
          break;
        }
        host := host + 1;
      }
      ok, tried := false, host;
    }

    /** `relay_reset` */
    method Reset()
      modifies this`hosts
      ensures hosts == seq(|old(hosts)|, _ => Host(false))
    {
      hosts := seq(|hosts|, _ => Host(false));
    }

    /** `get_relay_details` */
    method Details(expired: bool)
      modifies this`cleanup, this`running
      ensures Abs() == old(Abs()).Detailed(expired)
    {
      if expired {
        cleanup := true;
      }
      if cleanup {
        running := false;
      }
    }
  }

  function Count(bs: seq<bool>): nat {
    if bs == [] then 0 else Count(bs[..|bs| - 1]) + if bs[|bs| - 1] then 1 else 0
  }

  lemma {:induction false} CountUpdate(bs: seq<bool>, i: nat, b: bool)
    requires i < |bs|
    ensures Count(bs[i := b]) == Count(bs) + (if b then 1 else 0) - if bs[i] then 1 else 0
  {
    var n := |bs| - 1;
    if i == n {
      assert bs[i := b][..n] == bs[..n];
    } else {
      CountUpdate(bs[..n], i, b);
      assert bs[i := b][..n] == bs[..n][i := b];
    }
  }

  lemma {:induction false} CountNone(n: nat)
    ensures Count(seq(n, _ => false)) == 0
  {
    if n > 0 {
      CountNone(n - 1);
      assert seq(n, _ => false)[..n - 1] == seq(n - 1, _ => false);
    }
  }

  /** A step of relay `i` or its thread, or of something else that counts as a source. */
  datatype Step =
    | Initialises(i: nat, rc: int, expired: bool)
    | StartsUp(i: nat, expired: bool, up: bool, wanted: bool)
    | Begins(i: nat, now: nat)
    | Connects(i: nat, limit: bool, replies: nat -> nat -> Reply, formatOk: nat -> bool, hostUp: nat -> bool, now: nat)
    | Reads(i: nat, look: Look)
    | Others(change: int)

  predicate Distinct(relays: seq<Relay>) {
    forall i, j | 0 <= i < j < |relays| :: relays[i] != relays[j]
  }

  class Slave {
    const relays: seq<Relay>
    var sources: int
    var connecting: int

    ghost var others: int           // sources that are not relays
    ghost var started: nat          // how often a relay has been counted, and uncounted
    ghost var dropped: nat
    ghost var held: seq<bool>       // which relays have a connection time
    ghost var threads: seq<bool>    // and which a thread

    ghost predicate Valid()
      reads this, relays
    {
      && Distinct(relays) && AllInPhase()
      && sources == others + Count(held) && started == dropped + Count(held)
      && connecting == Count(threads) <= 4
    }

    ghost predicate AllInPhase()
      reads this, relays
    {
      && |held| == |threads| == |relays|
      && forall i | 0 <= i < |relays| :: InPhase(relays[i], held[i], threads[i])
    }

    /** A step of one relay leaves the others alone. */
    twostate lemma OneStep(i: nat)
      requires old(AllInPhase()) && Distinct(relays) && i < |relays| && |held| == |threads| == |relays|
      requires InPhase(relays[i], held[i], threads[i])
      requires forall j | 0 <= j < |relays| && j != i ::
                 held[j] == old(held)[j] && threads[j] == old(threads)[j] && unchanged(relays[j])
      ensures AllInPhase()
    {
      forall j | 0 <= j < |relays|
        ensures InPhase(relays[j], held[j], threads[j])
      {
        assert j != i ==> old(InPhase(relays[j], held[j], threads[j]));
      }
    }

    lemma Apart(i: nat)
      requires Distinct(relays) && i < |relays|
      ensures forall j | 0 <= j < |relays| && j != i :: relays[j] != relays[i]
    {
    }

    lemma Phase(i: nat)
      requires AllInPhase() && i < |relays|
      ensures |held| == |threads| == |relays| && InPhase(relays[i], held[i], threads[i])
    {
    }

    ghost static predicate InPhase(r: Relay, held: bool, thread: bool)
      reads r
    {
      && r.hosts != []
      && held == (r.conTime > 0)
      && thread == (r.phase.Begun? || r.phase.Connecting?)
      && (r.phase.Connecting? ==> held)
      && (held ==> r.phase.Connecting? || r.phase.Reading?)
    }

    constructor (relays: seq<Relay>, others: int)
      requires Distinct(relays)
      requires forall i | 0 <= i < |relays| :: relays[i].phase == Init && relays[i].conTime == 0 && relays[i].hosts != []
      ensures Valid() && this.relays == relays && sources == others && connecting == 0
    {
      this.relays, sources, connecting, this.others, started, dropped := relays, others, 0, others, 0, 0;
      held, threads := seq(|relays|, _ => false), seq(|relays|, _ => false);
      CountNone(|relays|);
    }

    /** A source that is not a relay comes or goes. */
    method OtherSource(change: int)
      requires Valid()
      modifies this`sources, this`others
      ensures Valid() && sources == old(sources) + change
    {
      sources, others := sources + change, others + change;
    }

    /** `relay_initialise` up to where it goes on as `relay_startup` or `relay_read`; `rc` is what
        `relay_has_source` says. */
    method Initialise(i: nat, rc: int, expired: bool)
      requires Valid() && i < |relays| && relays[i].phase == Init
      modifies relays[i]
      ensures Valid() && relays[i].Abs() == old(relays[i].Abs()).Initialised(rc, expired)
      ensures relays[i].phase ==
                if rc < 0 then Gone
                else if rc == 0 then Init
                else if relays[i].running then Startup
                else if relays[i].cleanup then Reading
                else Init
    {
      var r := relays[i];
      r.Details(expired);
      if rc < 0 {
        r.phase := Gone;
        return;
      }
      if rc == 0 {
        return;
      }
      if r.running {
        r.phase := Startup;
      } else if r.cleanup {
        r.phase := Reading;
      }
    }

    /** `relay_startup`: at most four at a time. */
    method StartUp(i: nat, expired: bool, up: bool, wanted: bool) returns (began: bool)
      requires Valid() && i < |relays| && relays[i].phase == Startup
      modifies relays[i], this`connecting, this`threads
      ensures Valid() && began == (relays[i].phase == Begun)
      ensures relays[i].Abs() == old(relays[i].Abs()).StartedUp(expired, up, wanted, old(connecting))
      ensures began <==> relays[i].running && up && (relays[i].onDemand ==> wanted) && old(connecting) < 4
      ensures !began ==> relays[i].phase == (if relays[i].running then Startup else Reading) && connecting == old(connecting)
      ensures began ==> connecting == old(connecting) + 1
    {
      hide AllInPhase, Distinct, Count;
      Apart(i);
      Phase(i);
      var r := relays[i];
      r.Details(expired);
      OneStep(i);
      began := false;
      if !r.running {
        r.phase := Reading;
        OneStep(i);
        return;
      }
      if !up || (r.onDemand && !wanted) {
        return;
      }
      if connecting > 3 {
        return;
      }
      CountUpdate(threads, i, true);
      connecting := connecting + 1;
      r.phase := Begun;
      threads := threads[i := true];
      OneStep(i);
      began := true;
    }

    /** The beginning of `start_relay_stream`. */
    method Begin(i: nat, now: nat)
      requires Valid() && i < |relays| && relays[i].phase == Begun && now > 0
      modifies relays[i], this`sources, this`started, this`held
      ensures Valid() && sources == old(sources) + 1 && started == old(started) + 1
      ensures relays[i].Abs() == old(relays[i].Abs()).(phase := Connecting, conTime := now)
    {
      var r := relays[i];
      CountUpdate(held, i, true);
      sources := sources + 1;
      r.conTime := now;
      r.phase := Connecting;
      started, held := started + 1, held[i := true];
    }

    /** The rest of it. */
    method Connect(i: nat, limit: bool, replies: nat -> nat -> Reply, formatOk: nat -> bool, up: nat -> bool, now: nat)
        returns (failed: bool)
      requires Valid() && i < |relays| && relays[i].phase == Connecting && now > 0
      modifies relays[i], this`connecting, this`threads
      ensures Valid() && relays[i].phase == Reading && relays[i].conTime > 0
      ensures connecting == old(connecting) - 1
      ensures relays[i].Abs() == old(relays[i].Abs()).Connected(limit, replies, formatOk, up, now)
      ensures !failed ==> !limit && relays[i].inUse.Some?
      ensures failed ==> relays[i].inUse == None
    {
      hide AllInPhase, Distinct, Count;
      Apart(i);
      Phase(i);
      var r := relays[i];
      failed := true;
      if !limit {
        var ok, _ := r.OpenRelay(replies, formatOk, up, now);
        failed := !ok;
      }
      if failed {
        r.inUse := None;
      }
      CountUpdate(threads, i, false);
      connecting := connecting - 1;
      r.phase := Reading;
      threads := threads[i := false];
      OneStep(i);
    }

    /** `relay_read`: the count drops when the stream is over, once for each time that it was raised, and the
        relay starts again or goes. */
    method Read(i: nat, l: Look) returns (ret: int)
      requires Valid() && i < |relays| && relays[i].phase == Reading
      modifies relays[i], this`sources, this`dropped, this`held
      ensures Valid()
      ensures
        var over := !(l.running && (l.moved || l.stillRunning)) && !l.waiting;
        && relays[i].Abs() == old(relays[i].Abs()).WasRead(l)
        && dropped - old(dropped) == old(sources) - sources
        && sources == old(sources) - (if over && old(relays[i].conTime) > 0 then 1 else 0)
        && (over ==> relays[i].conTime == 0) && (!over ==> relays[i].phase == Reading)
        && (over && !relays[i].cleanup ==> relays[i].phase == Init)
        && (relays[i].phase == Gone <==> over && relays[i].cleanup && l.listeners == 0)
    {
      var r := relays[i];
      r.Details(l.expired);
      if l.running {
        if l.moved {
          return 1;
        }
        if l.stillRunning {
          return 0;
        }
      }
      if !l.terminating {
        Judge(r, l);
      }
      if l.waiting {
        return 0;
      }
      ret := Over(i, r, l);
    }

    /** Whether the server is to be skipped, or all of them given another chance. */
    method Judge(r: Relay, l: Look)
      requires r in relays
      modifies r`hosts
      ensures r.Abs() == old(r.Abs()).Judged(l)
    {
      if r.conTime > 0 && l.up {
        if (!r.onDemand && l.recent) || l.timedOut {
          if r.inUse.Some? && r.inUse.value < |r.hosts| {
            r.hosts := r.hosts[r.inUse.value := Host(true)];
          }
        } else {
          r.Reset();
        }
      }
    }

    method Over(i: nat, r: Relay, l: Look) returns (ret: int)
      requires Valid() && i < |relays| && r == relays[i] && r.phase == Reading
      modifies r, this`sources, this`dropped, this`held
      ensures Valid() && r.Abs() == old(r.Abs()).Ended(l)
      ensures sources == old(sources) - if old(r.conTime) > 0 then 1 else 0
      ensures dropped - old(dropped) == old(sources) - sources
      ensures r.cleanup == old(r.cleanup) && (!r.cleanup ==> r.phase == Init)
      ensures r.phase == Gone <==> r.cleanup && l.listeners == 0
      ensures r.phase == Gone || r.phase == Init || r.phase == Reading
    {
      hide AllInPhase, Distinct, Count;
      Apart(i);
      Phase(i);
      CountUpdate(held, i, false);
      if r.conTime > 0 {
        sources := sources - 1;
        dropped := dropped + 1;
      }
      held := held[i := false];
      if r.cleanup {
        r.Close();
        OneStep(i);
        if l.listeners > 0 {
          return 0;
        }
        r.phase := Gone;
        OneStep(i);
        return -1;
      }
      r.phase := Init;
      if !r.running || r.conTime == 0 || r.inUse == None {
        r.Reset();
      }
      r.Close();
      OneStep(i);
      ret := 0;
    }

    ghost function Abs(): State
      reads this, relays
    {
      State(seq(|relays|, i requires 0 <= i < |relays| reads relays => relays[i].Abs()),
            sources, connecting, started, dropped)
    }

    predicate Can(step: Step)
      reads this, relays
      ensures Can(step) <==> Enabled(Abs(), step)
    {
      match step
      case Initialises(i, _, _) => i < |relays| && relays[i].phase == Init
      case StartsUp(i, _, _, _) => i < |relays| && relays[i].phase == Startup
      case Begins(i, now) => i < |relays| && relays[i].phase == Begun && now > 0
      case Connects(i, _, _, _, _, now) => i < |relays| && relays[i].phase == Connecting && now > 0
      case Reads(i, _) => i < |relays| && relays[i].phase == Reading
      case Others(_) => true
    }

    /** Any steps of any relays and their threads, in any order, are a run of the model; and at the end of it, as
        at every moment, the count of sources is that of the relays with a connection time, each start is matched
        by at most one drop, and no more than four threads are connecting. */
    method RunSteps(steps: seq<Step>)
      requires Valid()
      modifies this, relays
      ensures Valid() && Abs() == Run(old(Abs()), steps)
      decreases |steps|
    {
      hide Valid, Enabled, Next, Abs;
      if steps != [] {
        if Can(steps[0]) {
          Take(steps[0]);
        }
        RunSteps(steps[1..]);
      }
    }

    method Take(step: Step)
      requires Valid() && Can(step)
      modifies this, relays
      ensures Valid() && Abs() == Next(old(Abs()), step)
    {
      hide AllInPhase, Count;
      match step {
        case Initialises(i, rc, expired) =>
          Initialise(i, rc, expired);
          OneMoved(i);
        case StartsUp(i, expired, up, wanted) =>
          var _ := StartUp(i, expired, up, wanted);
          OneMoved(i);
        case Begins(i, now) =>
          Begin(i, now);
          OneMoved(i);
        case Connects(i, limit, replies, formatOk, up, now) =>
          var _ := Connect(i, limit, replies, formatOk, up, now);
          OneMoved(i);
        case Reads(i, l) =>
          var _ := Read(i, l);
          OneMoved(i);
        case Others(change) =>
          OtherSource(change);
      }
    }

    twostate lemma OneMoved(i: nat)
      requires i < |relays| && Distinct(relays)
      requires forall j | 0 <= j < |relays| && j != i :: unchanged(relays[j])
      ensures Abs().relays == old(Abs()).relays[i := relays[i].Abs()]
    {
      forall j | 0 <= j < |relays|
        ensures Abs().relays[j] == if j == i then relays[i].Abs() else old(Abs()).relays[j]
      {
        assert j != i ==> relays[j] != relays[i] && relays[j].Abs() == old(relays[j].Abs());
      }
    }

    /** When no relay is connecting or has a stream, all starts have been matched, and only other sources count. */
    lemma AtRest()
      requires Valid() && forall i | 0 <= i < |relays| :: relays[i].phase != Connecting && relays[i].phase != Reading
      ensures sources == others && started == dropped
    {
      forall i | 0 <= i < |held|
        ensures !held[i]
      {
        assert InPhase(relays[i], held[i], threads[i]);
      }
      CountFalse(held);
    }
  }

  lemma {:induction false} CountFalse(bs: seq<bool>)
    requires forall i | 0 <= i < |bs| :: !bs[i]
    ensures Count(bs) == 0
    decreases |bs|
  {
    if bs != [] {
      CountFalse(bs[..|bs| - 1]);
    }
  }
}
