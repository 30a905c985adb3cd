/** The authentication handler pool of src/auth.c.

    Threads interleave at the granularity of the lock: a step is one hold of `auth->lock`, or the work a
    handler does on one client between two holds.  `Next` says what a step means; the methods of `Auth`
    are the code, and each is proved to be its step.  Thread creation may fail in any step. */
module Auth {
  import opened Bytes
  import opened Wrappers

  /** Which callback `process` is. */
  datatype Purpose = NewListener | RemoveListener | StreamAuth | StreamStart | StreamEnd

  datatype Job = Job(id: nat, purpose: Purpose)

  /** Where a client ends up. */
  datatype Fate =
    | HandedOn        // to a source, a file, the admin interface or a rejected-mount
    | Unauthorized    // 401
    | Redirected      // 403 or a redirect, as no handler could be started
    | Answered        // by the backend itself
    | Gone            // 404, or destroyed
    | CopyFreed       // the stand-in client of a stream event

  datatype Verdict = Ok | Failed | Other

  /** What the outside does while a client is worked on. */
  datatype Backend = Backend(connected: bool, verdict: Verdict, authenticated: bool, answered: bool, rejectedMount: bool)

  /** The one thing that happens to a client that a handler works on. */
  function FateOf(purpose: Purpose, b: Backend): Fate {
    match purpose
    case NewListener =>
      if !b.connected then Unauthorized
      else if b.answered then Answered
      else if b.verdict == Other then Unauthorized
      else if b.authenticated || b.rejectedMount then HandedOn
      else Unauthorized
    case RemoveListener => Gone
    case StreamAuth => if b.authenticated then HandedOn else Unauthorized
    case StreamStart => CopyFreed
    case StreamEnd => CopyFreed
  }

  /** Who may go on: a source only with the right password; a listener only with it or when there is somewhere else
      for it; and nobody by way of the other requests. */
  predicate Just(purpose: Purpose, b: Backend, fate: Fate) {
    && (purpose == StreamAuth ==> (fate == HandedOn <==> b.authenticated) && (fate == Unauthorized <==> !b.authenticated))
    && (purpose == NewListener ==>
          && (fate == HandedOn <==>
                b.connected && !b.answered && b.verdict != Other && (b.authenticated || b.rejectedMount))
          && (fate == Answered <==> b.connected && b.answered)
          && fate in {HandedOn, Answered, Unauthorized})
    && (purpose == RemoveListener ==> fate == Gone)
    && (purpose in {StreamStart, StreamEnd} ==> fate == CopyFreed)
  }

  lemma FateIsJust(purpose: Purpose, b: Backend)
    ensures Just(purpose, b, FateOf(purpose, b))
  {
  }

  /** A queued request: `auth_client` in the source.  `sent` is what its client has been given. */
  class AuthUser {
    const job: Job
    var client: bool
    var auth: bool
    ghost var sent: seq<Fate>

    constructor (job: Job)
      ensures this.job == job && client && auth && sent == []
    {
      this.job, client, auth, sent := job, true, true, [];
    }

    method Give(fate: Fate)
      requires client
      modifies this`client, this`sent
      ensures !client && sent == old(sent) + [fate]
    {
      sent := sent + [fate];
      client := false;
    }

    /** `auth_postprocess_listener` */
    method PostprocessListener(b: Backend)
      requires auth
      modifies this`client, this`sent
      ensures !client
      ensures sent == old(sent) + if !old(client) then []
                                  else [if b.authenticated || b.rejectedMount then HandedOn else Unauthorized]
    {
      if !client {
        return;
      }
      if !b.authenticated && !b.rejectedMount {
        Give(Unauthorized);
        return;
      }
      Give(HandedOn);
    }

    /** `auth_new_listener` */
    method AuthNewListener(b: Backend)
      requires client && auth
      modifies this`client, this`sent
      ensures sent + (if client then [Unauthorized] else []) == old(sent) + [FateOf(NewListener, b)]
    {
      if !b.connected {
        return;
      }
      if b.answered {
        Give(Answered);
      }
      match b.verdict
      case Ok => PostprocessListener(b);
      case Failed => PostprocessListener(b);
      case Other =>
    }

    /** The callbacks, by what they leave in `client`: the 401 of `ClientFree` is still to come if it is
        still there, and then `auth` is too, whose realm that needs. */
    method Process(b: Backend)
      requires client && auth
      modifies this`client, this`auth, this`sent
      ensures sent + (if client then [Unauthorized] else []) == old(sent) + [FateOf(job.purpose, b)]
      ensures client ==> auth
    {
      match job.purpose
      case NewListener =>
        AuthNewListener(b);
      case RemoveListener =>
        auth := false;
        Give(Gone);
      case StreamAuth =>
        if b.authenticated {
          Give(HandedOn);
        }
      case StreamStart =>
        Give(CopyFreed);
      case StreamEnd =>
        Give(CopyFreed);
    }

    /** `auth_client_free` */
    method ClientFree()
      requires client ==> auth
      modifies this`client, this`sent
      ensures !client && sent == old(sent) + if old(client) then [Unauthorized] else []
    {
      if client {
        Give(Unauthorized);
      }
    }
  }

  /** A handler thread: not there, on its way to the lock, or working on a client. */
  datatype Slot = Free | Running | Serving(job: Job)

  datatype Fated = Fated(job: Job, fate: Fate)

  /** `config` tells whether the mount still refers to the pool.  Of the clients offered to it, some are
      `accepted` on the queue and in time `taken` off it, the others `refused`.  `frees` is how often the
      pool has been freed. */
  datatype State = State(
    config: bool,
    queue: seq<Job>,
    slots: seq<Slot>,
    offered: seq<Job>,
    accepted: seq<Job>,
    refused: seq<Job>,
    taken: seq<Job>,
    fates: seq<Fated>,
    frees: nat)

  function Live(slots: seq<Slot>): nat {
    if slots == [] then 0 else Live(slots[1..]) + if slots[0].Free? then 0 else 1
  }

  /** The clients being worked on. */
  function Busy(slots: seq<Slot>): multiset<Job> {
    if slots == [] then multiset{} else Busy(slots[1..]) + Of(slots[0])
  }

  function Of(slot: Slot): multiset<Job> {
    if slot.Serving? then multiset{slot.job} else multiset{}
  }

  function FirstFree(slots: seq<Slot>): (i: nat)
    ensures i <= |slots| && (i < |slots| <==> exists k :: 0 <= k < |slots| && slots[k].Free?)
    ensures i < |slots| ==> slots[i].Free?
    ensures forall k | 0 <= k < i :: !slots[k].Free?
  {
    if slots == [] || slots[0].Free? then
      assert slots != [] ==> slots[0].Free?;
      0
    else
      var j := FirstFree(slots[1..]);
      assert forall k | 0 < k < |slots| :: slots[k] == slots[1..][k - 1];
      j + 1
  }

  function JobsOf(fates: seq<Fated>): (jobs: seq<Job>)
    ensures |jobs| == |fates| && forall i | 0 <= i < |jobs| :: jobs[i] == fates[i].job
  {
    seq(|fates|, i requires 0 <= i < |fates| => fates[i].job)
  }

  datatype Step =
    | Enqueue(job: Job, starts: bool)
    | Take(i: nat)
    | Finish(i: nat, b: Backend)
    | DropConfig

  predicate Enabled(s: State, step: Step) {
    match step
    case Enqueue(_, _) => s.config
    case Take(i) => i < |s.slots| && s.slots[i].Running?
    case Finish(i, _) => i < |s.slots| && s.slots[i].Serving?
    case DropConfig => s.config
  }

  /** What a step does.  There is no count of references here, nor a count of what is pending: those are
      the business of the code. */
  function Next(s: State, step: Step): State
    requires Enabled(s, step)
  {
    match step
    case Enqueue(job, starts) =>
      var s := s.(offered := s.offered + [job]);
      var on := s.(queue := s.queue + [job], accepted := s.accepted + [job]);
      if Live(s.slots) == |s.slots| then on
      else if starts && FirstFree(s.slots) < |s.slots| then
        on.(slots := s.slots[FirstFree(s.slots) := Running])
      else s.(refused := s.refused + [job], fates := s.fates + [Fated(job, Redirected)])
    case Take(i) =>
      if s.queue != [] then
        s.(queue := s.queue[1..], taken := s.taken + [s.queue[0]], slots := s.slots[i := Serving(s.queue[0])])
      else
        Unless(s.(slots := s.slots[i := Free]))
    case Finish(i, b) =>
      var job := s.slots[i].job;
      s.(slots := s.slots[i := Running], fates := s.fates + [Fated(job, FateOf(job.purpose, b))])
    case DropConfig =>
      Unless(s.(config := false))
  }

  /** The pool is freed unless something still refers to it. */
  function Unless(s: State): State {
    if s.config || Live(s.slots) > 0 then s else s.(frees := s.frees + 1)
  }

  /** What holds whenever the lock is free. */
  ghost predicate Inv(s: State) {
    && |s.slots| >= 1
    && (s.queue != [] ==> Live(s.slots) > 0)
    && s.frees == (if s.config || Live(s.slots) > 0 then 0 else 1)
    && Accounted(s)
  }

  /** First come, first served; and every client offered is in exactly one place. */
  ghost predicate Accounted(s: State) {
    && s.accepted == s.taken + s.queue
    && multiset(s.offered) == multiset(s.accepted) + multiset(s.refused)
    && multiset(s.offered) == multiset(s.queue) + Busy(s.slots) + multiset(JobsOf(s.fates))
  }

  lemma {:induction false} LiveUpdate(slots: seq<Slot>, i: nat, x: Slot)
    requires i < |slots|
    ensures Live(slots[i := x]) == Live(slots) - (if slots[i].Free? then 0 else 1) + (if x.Free? then 0 else 1)
    ensures Busy(slots[i := x]) + Of(slots[i]) == Busy(slots) + Of(x)
  {
    hide Of;
    if i == 0 {
      assert slots[i := x][1..] == slots[1..];
    } else {
      LiveUpdate(slots[1..], i - 1, x);
      assert slots[i := x][1..] == slots[1..][i - 1 := x];
      var was, now, other := Busy(slots[1..]), Busy(slots[1..][i - 1 := x]), Of(slots[0]);
      assert now + Of(slots[i]) == was + Of(x);
      Swap(now, other, Of(slots[i]));
      Swap(was, other, Of(x));
    }
  }

  lemma Swap(a: multiset<Job>, b: multiset<Job>, c: multiset<Job>)
    ensures (a + b) + c == (a + c) + b
  {
  }

  lemma {:induction false} LiveBound(slots: seq<Slot>)
    ensures Live(slots) <= |slots|
    ensures Live(slots) < |slots| <==> FirstFree(slots) < |slots|
    ensures Live(slots) > 0 <==> exists i :: 0 <= i < |slots| && !slots[i].Free?
  {
    if slots == [] {
    } else {
      LiveBound(slots[1..]);
      assert forall k | 0 < k < |slots| :: slots[k] == slots[1..][k - 1];
    }
  }

  /** One more client has its fate. */
  lemma JobsOfSnoc(fates: seq<Fated>, f: Fated)
    ensures multiset(JobsOf(fates + [f])) == multiset(JobsOf(fates)) + multiset{f.job}
  {
    assert JobsOf(fates + [f]) == JobsOf(fates) + [f.job];
  }

  lemma {:induction false} EnqueueKeeps(s: State, job: Job, starts: bool)
    requires Inv(s) && s.config
    ensures Inv(Next(s, Enqueue(job, starts)))
  {
    hide Busy, Live, FirstFree, Accounted;
    LiveBound(s.slots);
    var i := FirstFree(s.slots);
    if i < |s.slots| {
      LiveUpdate(s.slots, i, Running);
    }
    EnqueueAccounts(s, job, starts);
  }

  lemma {:induction false} EnqueueAccounts(s: State, job: Job, starts: bool)
    requires Accounted(s) && s.config
    ensures Accounted(Next(s, Enqueue(job, starts)))
  {
    hide Busy, Live, JobsOf, FirstFree;
    var i := FirstFree(s.slots);
    var q, b, f := multiset(s.queue), Busy(s.slots), multiset(JobsOf(s.fates));
    if Live(s.slots) == |s.slots| || (starts && i < |s.slots|) {
      assert s.taken + (s.queue + [job]) == (s.taken + s.queue) + [job];
      if Live(s.slots) != |s.slots| {
        NotBusy(s.slots, i, Running);
      }
      assert (q + multiset{job}) + b + f == (q + b + f) + multiset{job};
      Swap(multiset(s.accepted), multiset(s.refused), multiset{job});
    } else {
      JobsOfSnoc(s.fates, Fated(job, Redirected));
      assert q + b + (f + multiset{job}) == (q + b + f) + multiset{job};
      Swap(multiset(s.accepted), multiset(s.refused), multiset{job});
    }
  }

  lemma NotBusy(slots: seq<Slot>, i: nat, x: Slot)
    requires i < |slots| && !slots[i].Serving? && !x.Serving?
    ensures Busy(slots[i := x]) == Busy(slots)
  {
    hide Busy;
    LiveUpdate(slots, i, x);
    var was, now := Busy(slots), Busy(slots[i := x]);
    assert now + multiset{} == now && was + multiset{} == was;
  }

  lemma {:induction false} TakeKeeps(s: State, i: nat)
    requires Inv(s) && Enabled(s, Take(i))
    ensures Inv(Next(s, Take(i)))
  {
    hide Busy, Live, Accounted;
    LiveUpdate(s.slots, i, if s.queue != [] then Serving(s.queue[0]) else Free);
    LiveBound(s.slots);
    LiveSome(s.slots, i);
    TakeAccounts(s, i);
  }

  lemma {:induction false} LiveSome(slots: seq<Slot>, i: nat)
    requires i < |slots| && !slots[i].Free?
    ensures Live(slots) > 0
  {
    if i > 0 {
      LiveSome(slots[1..], i - 1);
    }
  }

  lemma {:induction false} TakeAccounts(s: State, i: nat)
    requires Accounted(s) && Enabled(s, Take(i))
    ensures Accounted(Next(s, Take(i)))
  {
    hide Busy, Live, JobsOf;
    if s.queue != [] {
      var job := s.queue[0];
      LiveUpdate(s.slots, i, Serving(job));
      assert s.queue == [job] + s.queue[1..];
      assert (s.taken + [job]) + s.queue[1..] == s.taken + s.queue;
      var q, b, f := multiset(s.queue[1..]), Busy(s.slots), multiset(JobsOf(s.fates));
      assert Busy(s.slots[i := Serving(job)]) + multiset{} == Busy(s.slots[i := Serving(job)]);
      assert (multiset{job} + q) + b + f == q + (b + multiset{job}) + f;
    } else {
      NotBusy(s.slots, i, Free);
    }
  }

  lemma {:induction false} FinishKeeps(s: State, i: nat, b: Backend)
    requires Inv(s) && Enabled(s, Finish(i, b))
    ensures Inv(Next(s, Finish(i, b)))
  {
    hide Busy, Live, JobsOf, FateOf;
    var job := s.slots[i].job;
    LiveUpdate(s.slots, i, Running);
    JobsOfSnoc(s.fates, Fated(job, FateOf(job.purpose, b)));
    var busy := Busy(s.slots[i := Running]);
    assert Busy(s.slots) == busy + multiset{job};
    assert multiset(s.queue) + (busy + multiset{job}) + multiset(JobsOf(s.fates))
        == multiset(s.queue) + busy + (multiset(JobsOf(s.fates)) + multiset{job});
  }

  lemma {:induction false} NextKeeps(s: State, step: Step)
    requires Inv(s) && Enabled(s, step)
    ensures Inv(Next(s, step))
  {
    match step
    case Enqueue(job, starts) => EnqueueKeeps(s, job, starts);
    case Take(i) => TakeKeeps(s, i);
    case Finish(i, b) => FinishKeeps(s, i, b);
    case DropConfig =>
  }

  /** Steps in any order; one that is not possible when its turn comes does not happen. */
  function Run(s: State, steps: seq<Step>): State
    decreases |steps|
  {
    if steps == [] then s
    else Run(if Enabled(s, steps[0]) then Next(s, steps[0]) else s, steps[1..])
  }

  /** The step that gave a client its fate: a handler that was working on it finished, and it is just what the
      backend said; or it was offered when a handler was free but none could be started. */
  ghost predicate Gives(s: State, step: Step, f: Fated) {
    && Enabled(s, step)
    && match step
       case Finish(i, b) => s.slots[i] == Serving(f.job) && Just(f.job.purpose, b, f.fate)
       case Enqueue(job, starts) =>
         f == Fated(job, Redirected) && !starts && exists i | 0 <= i < |s.slots| :: s.slots[i] == Free
       case _ => false
  }

  /** One step: who is accepted, and what fates there are more. */
  lemma StepGives(s: State, step: Step)
    requires Enabled(s, step)
    ensures
      var t := Next(s, step);
      && (t.fates == s.fates || (exists f :: t.fates == s.fates + [f] && Gives(s, step, f)))
      && (step.Finish? ==> |t.fates| == |s.fates| + 1)
      && (step.Enqueue? ==>
            if step.starts || forall i | 0 <= i < |s.slots| :: s.slots[i] != Free
            then t.accepted == s.accepted + [step.job] && t.queue == s.queue + [step.job] && t.fates == s.fates
            else t.accepted == s.accepted && t.queue == s.queue && t.fates == s.fates + [Fated(step.job, Redirected)])
  {
    var t := Next(s, step);
    match step
    case Enqueue(job, starts) =>
      AllLive(s.slots);
      if t.fates != s.fates {
        assert Gives(s, step, Fated(job, Redirected));
      }
    case Take(_) =>
    case Finish(i, b) =>
      var job := s.slots[i].job;
      FateIsJust(job.purpose, b);
      assert Gives(s, step, Fated(job, FateOf(job.purpose, b)));
    case DropConfig =>
  }

  lemma {:induction false} AllLive(slots: seq<Slot>)
    ensures Live(slots) <= |slots|
    ensures Live(slots) == |slots| <==> forall i | 0 <= i < |slots| :: slots[i] != Free
    decreases |slots|
  {
    if slots != [] {
      AllLive(slots[1..]);
      assert forall i | 0 < i < |slots| :: slots[i] == slots[1..][i - 1];
    }
  }

  /** Over any run every fate is the work of one of the steps. */
  lemma {:induction false} FatesAreJust(s: State, steps: seq<Step>, f: Fated)
    requires f in Run(s, steps).fates
    ensures f in s.fates || exists k | 0 <= k < |steps| :: Gives(Run(s, steps[..k]), steps[k], f)
    decreases |steps|
  {
    hide Next, Gives;
    if steps != [] {
      var t := if Enabled(s, steps[0]) then Next(s, steps[0]) else s;
      FatesAreJust(t, steps[1..], f);
      if f !in t.fates {
        var k :| 0 <= k < |steps| - 1 && Gives(Run(t, steps[1..][..k]), steps[1..][k], f);
        assert steps[..k + 1][0] == steps[0] && steps[..k + 1][1..] == steps[1..][..k];
        assert Gives(Run(s, steps[..k + 1]), steps[k + 1], f);
      } else if f !in s.fates {
        StepGives(s, steps[0]);
        assert steps[..0] == [];
        assert Gives(Run(s, steps[..0]), steps[0], f);
      }
    }
  }

  /** So over any run of a new pool: a source that was handed on had the right password, a listener that was handed
      on had it or somewhere else to go, nobody else was handed on, and a source with the right password was not
      refused by a handler. */
  lemma OnlyTheJustGoOn(handlers: nat, steps: seq<Step>, f: Fated)
    requires f in Run(Start(handlers), steps).fates
    ensures exists k | 0 <= k < |steps| :: Gives(Run(Start(handlers), steps[..k]), steps[k], f)
    ensures f.fate == HandedOn ==> f.job.purpose in {StreamAuth, NewListener}
    ensures f.fate == HandedOn ==>
              exists k | 0 <= k < |steps| ::
                steps[k].Finish? && (steps[k].b.authenticated || (f.job.purpose == NewListener && steps[k].b.rejectedMount))
    ensures f.job.purpose == StreamAuth && f.fate == Unauthorized ==>
              exists k | 0 <= k < |steps| :: steps[k].Finish? && !steps[k].b.authenticated
  {
    FatesAreJust(Start(handlers), steps, f);
    var k :| 0 <= k < |steps| && Gives(Run(Start(handlers), steps[..k]), steps[k], f);
  }

  function Start(handlers: nat): State {
    State(true, [], seq(handlers, _ => Free), [], [], [], [], [], 0)
  }

  lemma {:induction false} StartHolds(handlers: nat)
    requires handlers >= 1
    ensures Inv(Start(handlers))
    ensures Live(Start(handlers).slots) == 0
  {
    IdleSlots(Start(handlers).slots);
  }

  lemma {:induction false} IdleSlots(slots: seq<Slot>)
    requires forall i | 0 <= i < |slots| :: slots[i].Free?
    ensures Live(slots) == 0 && Busy(slots) == multiset{}
  {
    if slots != [] {
      IdleSlots(slots[1..]);
    }
  }

  lemma {:induction false} RunKeeps(s: State, steps: seq<Step>)
    requires Inv(s)
    ensures Inv(Run(s, steps))
    decreases |steps|
  {
    hide Inv, Next, Enabled;
    if steps != [] {
      if Enabled(s, steps[0]) {
        NextKeeps(s, steps[0]);
        RunKeeps(Next(s, steps[0]), steps[1..]);
      } else {
        RunKeeps(s, steps[1..]);
      }
    }
  }

  /** The handlers' work that is left, counted in steps. */
  function Work(s: State): nat {
    3 * |s.queue| + Live(s.slots) + |Busy(s.slots)|
  }

  predicate ByHandler(step: Step) {
    step.Take? || step.Finish?
  }

  /** Handlers only ever work towards the end, whichever of them runs and whatever the backends say. */
  lemma {:induction false} HandlersProgress(s: State, step: Step)
    requires Enabled(s, step) && ByHandler(step)
    ensures Work(Next(s, step)) < Work(s)
  {
    hide Busy, Live, FateOf;
    var x := if step.Finish? then Running else if s.queue != [] then Serving(s.queue[0]) else Free;
    LiveUpdate(s.slots, step.i, x);
    assert |Busy(s.slots[step.i := x]) + Of(s.slots[step.i])| == |Busy(s.slots) + Of(x)|;
  }

  /** No client is stranded: while any is queued or being worked on, a handler can move. */
  lemma {:induction false} NoneStranded(s: State)
    requires Inv(s) && Work(s) > 0
    ensures exists step :: Enabled(s, step) && ByHandler(step)
  {
    LiveBound(s.slots);
    BusyLive(s.slots);
    var i :| 0 <= i < |s.slots| && !s.slots[i].Free?;
    if s.slots[i].Running? {
      assert Enabled(s, Take(i));
    } else {
      assert Enabled(s, Finish(i, Backend(false, Ok, false, false, false)));
    }
  }

  lemma {:induction false} BusyLive(slots: seq<Slot>)
    ensures |Busy(slots)| <= Live(slots)
  {
    if slots != [] {
      BusyLive(slots[1..]);
    }
  }

  /** From any state the handlers alone can bring every client to its fate, in at most `Work` steps. */
  lemma {:induction false} HandlersDrain(s: State) returns (steps: seq<Step>)
    requires Inv(s)
    ensures |steps| <= Work(s) && forall i | 0 <= i < |steps| :: ByHandler(steps[i])
    ensures Work(Run(s, steps)) == 0
    decreases Work(s)
  {
    hide Inv, Next, Work, Enabled, ByHandler;
    if Work(s) == 0 {
      steps := [];
    } else {
      NoneStranded(s);
      var step :| Enabled(s, step) && ByHandler(step);
      NextKeeps(s, step);
      HandlersProgress(s, step);
      var rest := HandlersDrain(Next(s, step));
      steps := [step] + rest;
      assert steps[1..] == rest;
    }
  }

  lemma {:induction false} RunSlots(s: State, steps: seq<Step>)
    ensures |Run(s, steps).slots| == |s.slots|
    decreases |steps|
  {
    if steps != [] {
      RunSlots(if Enabled(s, steps[0]) then Next(s, steps[0]) else s, steps[1..]);
    }
  }

  /** Whatever the steps: no more threads than handlers, none of the queue without a thread to look at it,
      first come first served, every client offered in exactly one place, and the pool freed exactly once,
      when neither the mount nor a thread refers to it any more; by then nothing is queued. */
  lemma {:induction false} EveryRun(handlers: nat, steps: seq<Step>)
    requires handlers >= 1
    ensures
      var s := Run(Start(handlers), steps);
      && |s.slots| == handlers && Live(s.slots) <= handlers
      && (s.queue != [] ==> Live(s.slots) > 0)
      && s.accepted == s.taken + s.queue
      && multiset(s.offered) == multiset(s.queue) + Busy(s.slots) + multiset(JobsOf(s.fates))
      && s.frees <= 1 && (s.frees == 1 <==> !s.config && Live(s.slots) == 0)
      && (s.frees == 1 ==> s.queue == [])
  {
    hide Run, Live, Busy;
    StartHolds(handlers);
    RunKeeps(Start(handlers), steps);
    RunSlots(Start(handlers), steps);
    LiveBound(Run(Start(handlers), steps).slots);
  }

  /** When the handlers have come to rest, every client that was offered has had exactly one fate, those
      accepted were taken in the order they came, and the pool is freed if the mount has let go of it. */
  lemma {:induction false} AtRest(handlers: nat, steps: seq<Step>)
    requires handlers >= 1
    ensures
      var s := Run(Start(handlers), steps);
      Work(s) == 0 ==>
        && s.taken == s.accepted && multiset(JobsOf(s.fates)) == multiset(s.offered)
        && (!s.config ==> s.frees == 1)
  {
    hide Run;
    StartHolds(handlers);
    RunKeeps(Start(handlers), steps);
    var s := Run(Start(handlers), steps);
    BusyLive(s.slots);
    assert Work(s) == 0 ==> Busy(s.slots) == multiset{};
  }

  /** `auth->handlers`, a short, from the configured number. */
  function HandlerCount(option: int): (n: nat)
    ensures 1 <= n <= 100
    ensures 1 <= option <= 100 ==> n == option
    ensures 100 < option < 0x8000 ==> n == 100
    ensures -0x8000 <= option < 1 ==> n == 3
  {
    var short := (option + 0x8000) % 0x1_0000 - 0x8000;
    if short < 1 then 3 else Min(short, 100)
  }

  /** `auth_t` */
  class Auth {
    const handles: array<Slot>
    var handlers: nat
    var running: bool
    var refcount: int
    var queue: seq<Job>
    var pendingCount: int

    var config: bool                  // the reference that the mount has
    ghost var offered: seq<Job>
    ghost var accepted: seq<Job>
    ghost var refused: seq<Job>
    ghost var taken: seq<Job>
    ghost var fates: seq<Fated>
    ghost var frees: nat

    ghost function Abs(): State
      reads this, handles
    {
      State(config, queue, handles[..], offered, accepted, refused, taken, fates, frees)
    }

    /** The counts are right whenever the lock is free. */
    ghost predicate Valid()
      reads this, handles
    {
      && Inv(Abs())
      && Counted()
    }

    ghost predicate Counted()
      reads this, handles
    {
      && refcount == Live(handles[..]) + (if config then 1 else 0)
      && pendingCount == |queue|
      && (frees == 0 ==> running && handlers == handles.Length)
    }

    constructor (option: int)
      ensures Valid() && Abs() == Start(HandlerCount(option)) && fresh(handles)
    {
      handles := new Slot[HandlerCount(option)](_ => Free);
      handlers, running, refcount, queue, pendingCount := HandlerCount(option), true, 1, [], 0;
      config, offered, accepted, refused, taken, fates, frees := true, [], [], [], [], [], 0;
      new;
      StartHolds(handlers);
      assert handles[..] == Start(handlers).slots;
    }

    /** `queue_auth_client`.  `starts` is whether a thread can be created. */
    method QueueClient(job: Job, starts: bool)
      requires Valid() && config
      modifies this, handles
      ensures Valid() && Abs() == Next(old(Abs()), Enqueue(job, starts))
    {
      hide Inv, Live, FirstFree, FateOf, Unless, Enabled;
      ghost var was := Abs();
      EnqueueKeeps(was, job, starts);
      LiveBound(was.slots);
      Alive(was);
      var started := AddToQueue(job, starts);
      offered := offered + [job];
      if started {
        accepted := accepted + [job];
      } else {
        refused := refused + [job];
        fates := fates + [Fated(job, Redirected)];
      }
    }

    /** The job is queued, and taken off again when there is no thread to be had for it. */
    method AddToQueue(job: Job, starts: bool) returns (started: bool)
      requires handlers == handles.Length && refcount == Live(handles[..]) + 1 <= handlers + 1
      modifies this`queue, this`pendingCount, this`refcount, handles
      ensures started == (old(refcount) > handlers || starts)
      ensures queue == if started then old(queue) + [job] else old(queue)
      ensures pendingCount == old(pendingCount) + if started then 1 else 0
      ensures old(refcount) <= handlers ==> FirstFree(old(handles[..])) < |old(handles[..])|
      ensures handles[..] == if old(refcount) <= handlers && starts
                             then old(handles[..])[FirstFree(old(handles[..])) := Running] else old(handles[..])
      ensures refcount == Live(handles[..]) + 1
    {
      hide Live, FirstFree;
      ghost var was := queue;
      var oldTail := |queue|;
      queue := queue + [job];
      pendingCount := pendingCount + 1;
      started := refcount > handlers;
      if !started {
        started := StartHandler(starts);
        if !started {
          queue := queue[..oldTail];
          pendingCount := pendingCount - 1;
          assert queue == was;
        }
      }
    }

    /** The search for a handler without a thread, and the start of one for it. */
    method StartHandler(starts: bool) returns (started: bool)
      requires handlers == handles.Length && refcount == Live(handles[..]) + 1 <= handlers
      modifies this`refcount, handles
      ensures started == starts && FirstFree(old(handles[..])) < |old(handles[..])|
      ensures handles[..] == if starts then old(handles[..])[FirstFree(old(handles[..])) := Running] else old(handles[..])
      ensures refcount == Live(handles[..]) + 1
    {
      hide Live, FirstFree;
      LiveBound(handles[..]);
      var i := FindFree();
      LiveUpdate(handles[..], i, Running);
      refcount := refcount + 1;
      handles[i] := if starts then Running else Free;
      started := !handles[i].Free?;
      if !started {
        refcount := refcount - 1;
      }
    }

    lemma Alive(s: State)
      requires Inv(s) && (Live(s.slots) > 0 || s.config)
      ensures s.frees == 0
    {
    }

    /** The search for a handler without a thread. */
    method FindFree() returns (i: nat)
      requires handlers == handles.Length
      ensures i == FirstFree(handles[..])
      ensures i < handlers ==> handles[i].Free?
    {
      i := 0;
      while i < handlers
        invariant i <= handlers && forall k | 0 <= k < i :: !handles[k].Free?
      {
        if handles[i].Free? {
          return;
        }
        i := i + 1;
      }
    }

    /** `auth_release`, called with the lock held. */
    method Release()
      requires refcount > 0 && frees == 0
      modifies this`refcount, this`running, this`handlers, this`frees
      ensures refcount == old(refcount) - 1
      ensures refcount > 0 ==> frees == 0 && running == old(running) && handlers == old(handlers)
      ensures refcount == 0 ==> frees == 1 && !running && handlers == 0
    {
      refcount := refcount - 1;
      if refcount != 0 {
        return;
      }
      running := false;
      while handlers > 0
        modifies this`handlers
      {
        handlers := handlers - 1;
      }
      frees := frees + 1;
    }

    /** What `auth_run_thread` does in one hold of the lock: the next client, or the end of the thread. */
    method TakeClient(i: nat) returns (job: Option<Job>)
      requires Valid() && Enabled(Abs(), Take(i))
      modifies this, handles
      ensures Valid() && Abs() == Next(old(Abs()), Take(i))
      ensures job.None? <==> handles[i].Free?
    {
      hide Inv, Live, Busy, FateOf;
      ghost var was := Abs();
      TakeKeeps(was, i);
      LiveSome(was.slots, i);
      LiveUpdate(was.slots, i, if queue != [] then Serving(queue[0]) else Free);
      Alive(was);
      if queue != [] {
        job := Some(queue[0]);
        taken := taken + [queue[0]];
        handles[i] := Serving(queue[0]);
        assert handles[..] == was.slots[i := Serving(was.queue[0])];
        queue := queue[1..];
        pendingCount := pendingCount - 1;
        return;
      }
      handles[i] := Free;
      assert handles[..] == was.slots[i := Free];
      Release();
      job := None;
    }

    /** What `auth_run_thread` does between two holds of the lock. */
    method ServeClient(i: nat, b: Backend)
      requires Valid() && Enabled(Abs(), Finish(i, b))
      modifies this, handles
      ensures Valid() && Abs() == Next(old(Abs()), Finish(i, b))
    {
      hide Inv, Live, Busy, FateOf;
      ghost var was := Abs();
      FinishKeeps(was, i, b);
      LiveUpdate(was.slots, i, Running);
      var user := new AuthUser(handles[i].job);
      user.Process(b);
      user.ClientFree();
      assert user.sent == [FateOf(user.job.purpose, b)];
      fates := fates + [Fated(user.job, user.sent[0])];
      handles[i] := Running;
      assert handles[..] == was.slots[i := Running];
    }

    /** The mount lets go of the pool. */
    method ConfigRelease()
      requires Valid() && config
      modifies this
      ensures Valid() && Abs() == Next(old(Abs()), DropConfig)
    {
      hide Inv, Live;
      NextKeeps(Abs(), DropConfig);
      Alive(Abs());
      config := false;
      Release();
    }

    predicate Can(step: Step): (can: bool)
      reads this, handles
      ensures can == Enabled(Abs(), step)
    {
      match step
      case Enqueue(_, _) => config
      case Take(i) => i < handles.Length && handles[i].Running?
      case Finish(i, _) => i < handles.Length && handles[i].Serving?
      case DropConfig => config
    }

    /** Any run at all is a run of the model. */
    method RunSteps(steps: seq<Step>)
      requires Valid()
      modifies this, handles
      ensures Valid() && Abs() == Run(old(Abs()), steps)
      decreases |steps|
    {
      hide Valid, Next;
      if steps != [] {
        if Can(steps[0]) {
          match steps[0] {
            case Enqueue(job, starts) => QueueClient(job, starts);
            case Take(i) => var _ := TakeClient(i);
            case Finish(i, b) => ServeClient(i, b);
            case DropConfig => ConfigRelease();
          }
        }
        RunSteps(steps[1..]);
      }
    }
  }
}
