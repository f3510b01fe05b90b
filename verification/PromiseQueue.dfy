/**
 The TypeScript server under concurrency: each request chains its handler on the
 promise the previous one left in handlerQueue. A callback runs once the promise it
 is chained on is fulfilled; if that promise is rejected the callback is skipped and
 its own promise is rejected too.
 */
module PromiseQueue {
  import opened ByteStrings
  import opened Wrappers
  import opened HexStrings
  import opened KeyService

  /** A request that passed dispatch, or a state request. */
  datatype Task = UpdateTask(text: string, plain: Option<Bytes>) | SignTask(text: string) | ReportTask

  /** pending is the result a running handler has computed before its first await, if any. */
  datatype JobState = Waiting | Running(pending: Option<Response>) | Fulfilled | Broken

  /** after is the promise the callback is chained on; None is the resolved promise the queue starts with. */
  datatype Job = Job(task: Task, after: Option<nat>, state: JobState, response: Option<Response>)

  /** Job i owns promise i. handlerQueue is the promise the next request chains on. */
  datatype Queue = Queue(key: Option<Bytes>, handlerQueue: Option<nat>, jobs: seq<Job>)

  /** throws: the handler rejected instead of returning a result. */
  datatype Event = Enqueue(task: Task) | Start(i: nat) | Settle(i: nat, throws: bool) | Skip(i: nat)

  const EMPTY := Queue(None, None, [])

  /** The handlers and reportState, run to their end. */
  function Serve(lib: TsLibrary, key: Option<Bytes>, task: Task): (Option<Bytes>, Response) {
    match task
    case UpdateTask(text, plain) => TsUpdate(lib, key, text, plain)
    case SignTask(text) => (key, TsSign(lib, key, text))
    case ReportTask => (key, HasKey(key.Some?))
  }

  /** What a handler knows before it first awaits: everything, unless it waits for the decrypt call. */
  function Prefix(lib: TsLibrary, key: Option<Bytes>, task: Task): Option<Response> {
    if task.UpdateTask? && task.text != [] then None else Some(Serve(lib, key, task).1)
  }

  predicate Ready(q: Queue, after: Option<nat>) {
    match after
    case None => true
    case Some(p) => p < |q.jobs| && q.jobs[p].state.Fulfilled?
  }

  predicate Rejected(q: Queue, after: Option<nat>) {
    after.Some? && after.value < |q.jobs| && q.jobs[after.value].state.Broken?
  }

  function Next(lib: TsLibrary, q: Queue, e: Event): Queue {
    match e
    case Enqueue(task) =>
      q.(handlerQueue := Some(|q.jobs|), jobs := q.jobs + [Job(task, q.handlerQueue, Waiting, None)])
    case Start(i) =>
      if i < |q.jobs| && q.jobs[i].state.Waiting? && Ready(q, q.jobs[i].after) then
        var job := q.jobs[i];
        if job.task.ReportTask? then
          q.(jobs := q.jobs[i := job.(state := Fulfilled, response := Some(HasKey(q.key.Some?)))])
        else q.(jobs := q.jobs[i := job.(state := Running(Prefix(lib, q.key, job.task)))])
      else q
    case Settle(i, throws) =>
      if i < |q.jobs| && q.jobs[i].state.Running? then
        var job := q.jobs[i];
        if throws then q.(jobs := q.jobs[i := job.(state := Broken)])
        else
          match job.state.pending
          case Some(r) => q.(jobs := q.jobs[i := job.(state := Fulfilled, response := Some(r))])
          case None =>
            var (key, r) := Serve(lib, q.key, job.task);
            q.(key := key, jobs := q.jobs[i := job.(state := Fulfilled, response := Some(r))])
      else q
    case Skip(i) =>
      if i < |q.jobs| && q.jobs[i].state.Waiting? && Rejected(q, q.jobs[i].after) then
        q.(jobs := q.jobs[i := q.jobs[i].(state := Broken)])
      else q
  }

  function Exec(lib: TsLibrary, q: Queue, events: seq<Event>): Queue {
    if events == [] then q
    else Next(lib, Exec(lib, q, events[..|events| - 1]), events[|events| - 1])
  }

  // ----- the server as it is written

  /** The queue field, the module variable of the handlers, and the promises that exist. */
  class Server {
    const lib: TsLibrary
    var handlerQueue: Option<nat>
    var privateKey: Option<Bytes>
    var jobs: seq<Job>

    constructor (lib: TsLibrary)
      ensures this.lib == lib && State() == EMPTY
    {
      this.lib, handlerQueue, privateKey, jobs := lib, None, None, [];
    }

    function State(): Queue
      reads this
    {
      Queue(privateKey, handlerQueue, jobs)
    }

    /** processAction after dispatch, and processState: chain on the queue and become its new end. */
    method enqueue(task: Task)
      modifies this
      ensures State() == Next(lib, old(State()), Enqueue(task))
    {
      var job := Job(task, handlerQueue, Waiting, None);
      handlerQueue := Some(|jobs|);
      jobs := jobs + [job];
    }

    /** The callback of promise i is scheduled: the handler runs up to its first await. */
    method runCallback(i: nat)
      requires i < |jobs| && jobs[i].state.Waiting? && Ready(State(), jobs[i].after)
      modifies this
      ensures State() == Next(lib, old(State()), Start(i))
    {
      var job := jobs[i];
      match job.task
      case ReportTask =>
        jobs := jobs[i := job.(state := Fulfilled, response := Some(HasKey(privateKey != None)))];
      case SignTask(text) =>
        jobs := jobs[i := job.(state := Running(Some(TsSign(lib, privateKey, text))))];
      case UpdateTask(text, _) =>
        jobs := jobs[i := job.(state := Running(if text == [] then Some(Failed(EmptyMessage)) else None))];
    }

    /** The awaited handler is back: resolve the request's promise with its result. */
    method settle(i: nat)
      requires i < |jobs| && jobs[i].state.Running?
      modifies this
      ensures State() == Next(lib, old(State()), Settle(i, false))
    {
      var job := jobs[i];
      var r;
      match job.state.pending {
        case Some(known) => r := known;
        case None =>
          var (key, computed) := Serve(lib, privateKey, job.task);
          privateKey, r := key, computed;
      }
      jobs := jobs[i := job.(state := Fulfilled, response := Some(r))];
    }
  }

  // ----- the specification

  /** The key after serving the first n tasks one after the other, in the order they were enqueued. */
  function KeyAfter(lib: TsLibrary, jobs: seq<Job>, n: nat): Option<Bytes>
    requires n <= |jobs|
  {
    if n == 0 then None else Serve(lib, KeyAfter(lib, jobs, n - 1), jobs[n - 1].task).0
  }

  /** The response of task i in the sequential fold. */
  function Expected(lib: TsLibrary, jobs: seq<Job>, i: nat): Response
    requires i < |jobs|
  {
    Serve(lib, KeyAfter(lib, jobs, i), jobs[i].task).1
  }

  /** The number of requests served: the fulfilled promises at the front. */
  function Served(jobs: seq<Job>): (n: nat)
    ensures n <= |jobs|
    ensures forall i :: 0 <= i < n ==> jobs[i].state.Fulfilled?
    ensures n < |jobs| ==> !jobs[n].state.Fulfilled?
  {
    if jobs == [] || !jobs[0].state.Fulfilled? then 0 else 1 + Served(jobs[1..])
  }

  // ----- the invariant

  predicate ChainedAt(q: Queue, i: nat)
    requires i < |q.jobs|
  {
    q.jobs[i].after == if i == 0 then None else Some(i - 1)
  }

  ghost predicate Chained(q: Queue) {
    && (forall i: nat {:trigger ChainedAt(q, i)} :: i < |q.jobs| ==> ChainedAt(q, i))
    && q.handlerQueue == if q.jobs == [] then None else Some(|q.jobs| - 1)
  }

  /** With n requests served: where job i is, and what it has been answered. */
  predicate JobSound(lib: TsLibrary, q: Queue, n: nat, i: nat)
    requires n <= |q.jobs| && i < |q.jobs|
  {
    var job := q.jobs[i];
    if i < n then job.state.Fulfilled? && job.response == Some(Expected(lib, q.jobs, i))
    else if i == n then
      && !job.state.Fulfilled? && job.response == None
      && (job.state.Running? ==> job.state.pending == Prefix(lib, q.key, job.task))
    else job.response == None && if q.jobs[n].state.Broken? then job.state.Waiting? || job.state.Broken? else job.state.Waiting?
  }

  ghost predicate SoundAt(lib: TsLibrary, q: Queue, n: nat) {
    && n <= |q.jobs| && Chained(q)
    && (forall i: nat {:trigger JobSound(lib, q, n, i)} :: i < |q.jobs| ==> JobSound(lib, q, n, i))
    && q.key == KeyAfter(lib, q.jobs, n)
  }

  lemma ServedIs(lib: TsLibrary, q: Queue, n: nat)
    requires SoundAt(lib, q, n)
    ensures Served(q.jobs) == n
  {
    var m := Served(q.jobs);
    assert m < |q.jobs| ==> JobSound(lib, q, n, m);
    assert n < |q.jobs| ==> JobSound(lib, q, n, n);
  }

  /** The fold looks at the tasks only. */
  lemma {:induction false} SameTasks(lib: TsLibrary, jobs: seq<Job>, other: seq<Job>, n: nat)
    requires n <= |jobs| && n <= |other|
    requires forall i :: 0 <= i < n ==> jobs[i].task == other[i].task
    ensures KeyAfter(lib, jobs, n) == KeyAfter(lib, other, n)
  {
    if n > 0 {
      SameTasks(lib, jobs, other, n - 1);
    }
  }

  /** The job at the front changes; jobs before it stay served, jobs behind it stay as they are. */
  lemma FrontStep(lib: TsLibrary, q: Queue, q': Queue, n: nat, n': nat)
    requires SoundAt(lib, q, n) && n < |q.jobs| && !q.jobs[n].state.Broken?
    requires q'.handlerQueue == q.handlerQueue && |q'.jobs| == |q.jobs| && q'.jobs == q.jobs[n := q'.jobs[n]]
    requires q'.jobs[n].task == q.jobs[n].task && q'.jobs[n].after == q.jobs[n].after
    requires n' == (if q'.jobs[n].state.Fulfilled? then n + 1 else n)
    requires if n' == n then q'.key == q.key && JobSound(lib, q', n, n)
             else q'.key == Serve(lib, q.key, q.jobs[n].task).0 && q'.jobs[n].response == Some(Serve(lib, q.key, q.jobs[n].task).1)
    ensures SoundAt(lib, q', n')
  {
    forall i: nat | i < |q'.jobs| ensures ChainedAt(q', i) {
      assert ChainedAt(q, i);
    }
    SameTasks(lib, q.jobs, q'.jobs, n);
    forall i: nat | i < |q'.jobs| ensures JobSound(lib, q', n', i) {
      assert JobSound(lib, q, n, i);
      if i <= n {
        SameTasks(lib, q.jobs, q'.jobs, i);
      }
    }
  }

  lemma StepSound(lib: TsLibrary, q: Queue, e: Event)
    requires SoundAt(lib, q, Served(q.jobs))
    ensures var q' := Next(lib, q, e); SoundAt(lib, q', Served(q'.jobs))
  {
    var n, q' := Served(q.jobs), Next(lib, q, e);
    match e {
      case Enqueue(task) =>
        EnqueueSound(lib, q, task);
        ServedIs(lib, q', n);
      case Start(i) =>
        if q' != q {
          OnlyFrontStarts(lib, q, i);
          assert JobSound(lib, q, n, n);
          var n' := if q.jobs[n].task.ReportTask? then n + 1 else n;
          FrontStep(lib, q, q', n, n');
          ServedIs(lib, q', n');
        }
      case Settle(i, throws) =>
        if q' != q {
          assert JobSound(lib, q, n, i);
          var n' := if throws then n else n + 1;
          if throws {
            BreakSound(lib, q, n);
          } else {
            assert JobSound(lib, q, n, n);
            FrontStep(lib, q, q', n, n');
          }
          ServedIs(lib, q', n');
        }
      case Skip(i) =>
        if q' != q {
          SkipSound(lib, q, i);
          ServedIs(lib, q', n);
        }
    }
  }

  lemma EnqueueSound(lib: TsLibrary, q: Queue, task: Task)
    requires SoundAt(lib, q, Served(q.jobs))
    ensures SoundAt(lib, Next(lib, q, Enqueue(task)), Served(q.jobs))
  {
    var n, q' := Served(q.jobs), Next(lib, q, Enqueue(task));
    forall i: nat | i < |q'.jobs| ensures ChainedAt(q', i) {
      assert i < |q.jobs| ==> ChainedAt(q, i) && q'.jobs[i] == q.jobs[i];
    }
    SameTasks(lib, q.jobs, q'.jobs, n);
    forall i: nat | i < |q'.jobs| ensures JobSound(lib, q', n, i) {
      if i < |q.jobs| {
        assert JobSound(lib, q, n, i) && q'.jobs[i] == q.jobs[i];
        assert n < |q.jobs| ==> q'.jobs[n] == q.jobs[n];
        if i < n {
          SameTasks(lib, q.jobs, q'.jobs, i);
        }
      } else if n < |q.jobs| {
        assert q'.jobs[n] == q.jobs[n];
      }
    }
  }

  /** FIFO and mutual exclusion: only the request at the front can start. */
  lemma OnlyFrontStarts(lib: TsLibrary, q: Queue, i: nat)
    requires SoundAt(lib, q, Served(q.jobs))
    requires i < |q.jobs| && q.jobs[i].state.Waiting? && Ready(q, q.jobs[i].after)
    ensures i == Served(q.jobs)
  {
    var n := Served(q.jobs);
    assert ChainedAt(q, i) && JobSound(lib, q, n, i);
    assert i > 0 ==> JobSound(lib, q, n, i - 1);
  }

  lemma BreakSound(lib: TsLibrary, q: Queue, n: nat)
    requires SoundAt(lib, q, n) && n < |q.jobs| && q.jobs[n].state.Running?
    ensures SoundAt(lib, q.(jobs := q.jobs[n := q.jobs[n].(state := Broken)]), n)
  {
    var q' := q.(jobs := q.jobs[n := q.jobs[n].(state := Broken)]);
    forall i: nat | i < |q'.jobs| ensures ChainedAt(q', i) {
      assert ChainedAt(q, i);
    }
    SameTasks(lib, q.jobs, q'.jobs, n);
    forall i: nat | i < |q'.jobs| ensures JobSound(lib, q', n, i) {
      assert JobSound(lib, q, n, i);
      if i < n {
        SameTasks(lib, q.jobs, q'.jobs, i);
      }
    }
  }

  lemma SkipSound(lib: TsLibrary, q: Queue, k: nat)
    requires SoundAt(lib, q, Served(q.jobs))
    requires k < |q.jobs| && q.jobs[k].state.Waiting? && Rejected(q, q.jobs[k].after)
    ensures SoundAt(lib, Next(lib, q, Skip(k)), Served(q.jobs))
  {
    var n, q' := Served(q.jobs), Next(lib, q, Skip(k));
    assert ChainedAt(q, k) && JobSound(lib, q, n, k - 1) && JobSound(lib, q, n, k);
    assert k > n && q.jobs[n].state.Broken?;
    forall i: nat | i < |q'.jobs| ensures ChainedAt(q', i) {
      assert ChainedAt(q, i);
    }
    SameTasks(lib, q.jobs, q'.jobs, n);
    forall i: nat | i < |q'.jobs| ensures JobSound(lib, q', n, i) {
      assert JobSound(lib, q, n, i);
      if i < n {
        SameTasks(lib, q.jobs, q'.jobs, i);
      }
    }
  }

  lemma {:induction false} AlwaysSound(lib: TsLibrary, events: seq<Event>)
    ensures var q := Exec(lib, EMPTY, events); SoundAt(lib, q, Served(q.jobs))
  {
    if events != [] {
      var n := |events| - 1;
      AlwaysSound(lib, events[..n]);
      StepSound(lib, Exec(lib, EMPTY, events[..n]), events[n]);
    }
  }

  // ----- results

  /** The tasks in the order processAction and processState enqueued them. */
  function Enqueued(events: seq<Event>): seq<Task> {
    if events == [] then []
    else
      var e := events[|events| - 1];
      Enqueued(events[..|events| - 1]) + if e.Enqueue? then [e.task] else []
  }

  lemma {:induction false} JobsAreTheEnqueued(lib: TsLibrary, events: seq<Event>)
    ensures var jobs := Exec(lib, EMPTY, events).jobs;
            |jobs| == |Enqueued(events)| && forall i :: 0 <= i < |jobs| ==> jobs[i].task == Enqueued(events)[i]
  {
    if events != [] {
      JobsAreTheEnqueued(lib, events[..|events| - 1]);
    }
  }

  /** The sequential fold of the handlers over a list of tasks. */
  function Fold(lib: TsLibrary, tasks: seq<Task>): (Option<Bytes>, seq<Response>) {
    if tasks == [] then (None, [])
    else
      var (key, responses) := Fold(lib, tasks[..|tasks| - 1]);
      var (next, r) := Serve(lib, key, tasks[|tasks| - 1]);
      (next, responses + [r])
  }

  lemma {:induction false} FoldSteps(lib: TsLibrary, jobs: seq<Job>, tasks: seq<Task>, n: nat)
    requires n <= |jobs| && n <= |tasks| && forall i :: 0 <= i < n ==> jobs[i].task == tasks[i]
    ensures Fold(lib, tasks[..n]).0 == KeyAfter(lib, jobs, n)
    ensures |Fold(lib, tasks[..n]).1| == n
    ensures forall i :: 0 <= i < n ==> Fold(lib, tasks[..n]).1[i] == Expected(lib, jobs, i)
  {
    if n > 0 {
      FoldSteps(lib, jobs, tasks, n - 1);
      assert tasks[..n][..n - 1] == tasks[..n - 1];
    }
  }

  /**
   Queue refinement: for every arrival order and every timing of the decrypt calls, the
   requests answered are a prefix of those enqueued, and their responses and the key are
   those of the sequential fold over that prefix. No other request has a response.
   */
  lemma QueueRefinesFold(lib: TsLibrary, events: seq<Event>)
    ensures var q := Exec(lib, EMPTY, events);
            var served := Served(q.jobs);
            && |q.jobs| == |Enqueued(events)|
            && q.key == Fold(lib, Enqueued(events)[..served]).0
            && |Fold(lib, Enqueued(events)[..served]).1| == served
            && (forall i :: 0 <= i < served ==> q.jobs[i].response == Some(Fold(lib, Enqueued(events)[..served]).1[i]))
            && (forall i :: served <= i < |q.jobs| ==> q.jobs[i].response == None)
  {
    var q := Exec(lib, EMPTY, events);
    var served := Served(q.jobs);
    AlwaysSound(lib, events);
    JobsAreTheEnqueued(lib, events);
    FoldSteps(lib, q.jobs, Enqueued(events), served);
    forall i: nat | i < |q.jobs|
      ensures if i < served then q.jobs[i].response == Some(Expected(lib, q.jobs, i)) else q.jobs[i].response == None
    {
      assert JobSound(lib, q, served, i);
    }
  }

  /** A state report says whether some update among the requests enqueued before it left a key, and nothing later counts. */
  lemma ReportsReflectTheirPrefix(lib: TsLibrary, events: seq<Event>, i: nat)
    requires var q := Exec(lib, EMPTY, events); i < |q.jobs| && q.jobs[i].task.ReportTask? && q.jobs[i].response.Some?
    ensures i < |Enqueued(events)|
    ensures Exec(lib, EMPTY, events).jobs[i].response == Some(HasKey(Fold(lib, Enqueued(events)[..i]).0.Some?))
  {
    var q := Exec(lib, EMPTY, events);
    AlwaysSound(lib, events);
    JobsAreTheEnqueued(lib, events);
    assert JobSound(lib, q, Served(q.jobs), i);
    FoldSteps(lib, q.jobs, Enqueued(events), i);
  }

  /** At most one handler is in flight, and it is the first request not yet served. */
  lemma OneHandlerInFlight(lib: TsLibrary, events: seq<Event>, i: nat)
    requires var q := Exec(lib, EMPTY, events); i < |q.jobs| && q.jobs[i].state.Running?
    ensures i == Served(Exec(lib, EMPTY, events).jobs)
  {
    var q := Exec(lib, EMPTY, events);
    AlwaysSound(lib, events);
    assert JobSound(lib, q, Served(q.jobs), i);
  }

  /** An answer is final: no later event changes it, so each request is answered at most once. */
  lemma AnswersAreFinal(lib: TsLibrary, events: seq<Event>, e: Event, i: nat)
    requires var q := Exec(lib, EMPTY, events); i < |q.jobs| && q.jobs[i].response.Some?
    ensures var q, q' := Exec(lib, EMPTY, events), Next(lib, Exec(lib, EMPTY, events), e);
            i < |q'.jobs| && q'.jobs[i].response == q.jobs[i].response
  {
    var q := Exec(lib, EMPTY, events);
    AlwaysSound(lib, events);
    assert JobSound(lib, q, Served(q.jobs), i);
    FulfilledStays(lib, q, e, i);
  }

  lemma FulfilledStays(lib: TsLibrary, q: Queue, e: Event, i: nat)
    requires i < |q.jobs| && q.jobs[i].state.Fulfilled?
    ensures var q' := Next(lib, q, e); i < |q'.jobs| && q'.jobs[i] == q.jobs[i]
  {
  }

  // ----- progress, and what breaks it

  /** Steps until everything now in the queue is answered. */
  function Remaining(q: Queue): nat {
    var n := Served(q.jobs);
    2 * (|q.jobs| - n) - if n < |q.jobs| && q.jobs[n].state.Running? then 1 else 0
  }

  predicate NoneBroken(q: Queue) {
    forall i :: 0 <= i < |q.jobs| ==> !q.jobs[i].state.Broken?
  }

  /** The step the front of the queue waits for. */
  function FrontEvent(q: Queue): Event
    requires Served(q.jobs) < |q.jobs|
  {
    var n := Served(q.jobs);
    if q.jobs[n].state.Running? then Settle(n, false) else Start(n)
  }

  /** A running handler rejects here. */
  predicate Rejects(q: Queue, e: Event) {
    e.Settle? && e.throws && e.i < |q.jobs| && q.jobs[e.i].state.Running?
  }

  lemma BreaksNow(lib: TsLibrary, q: Queue, e: Event)
    ensures NoneBroken(Next(lib, q, e)) <==> NoneBroken(q) && !Rejects(q, e)
  {
    var q' := Next(lib, q, e);
    if Rejects(q, e) {
      assert q'.jobs[e.i].state.Broken?;
    } else if !NoneBroken(q) {
      var i: nat :| i < |q.jobs| && q.jobs[i].state.Broken?;
      assert q'.jobs[i].state.Broken?;
    }
  }

  /** The front of an unbroken queue is ready for its step. */
  lemma FrontIsReady(lib: TsLibrary, q: Queue)
    requires SoundAt(lib, q, Served(q.jobs)) && NoneBroken(q) && Served(q.jobs) < |q.jobs|
    ensures var n := Served(q.jobs);
            && q.jobs[n].response == None
            && (q.jobs[n].state.Running? || (q.jobs[n].state.Waiting? && Ready(q, q.jobs[n].after)))
            && (q.jobs[n].state.Running? ==> q.jobs[n].state.pending == Prefix(lib, q.key, q.jobs[n].task))
            && (n + 1 < |q.jobs| ==> q.jobs[n + 1].state.Waiting?)
  {
    var n := Served(q.jobs);
    assert ChainedAt(q, n) && JobSound(lib, q, n, n);
    assert n > 0 ==> JobSound(lib, q, n, n - 1);
    assert n + 1 < |q.jobs| ==> JobSound(lib, q, n, n + 1);
  }

  lemma FrontStepSound(lib: TsLibrary, q: Queue, n': nat)
    requires SoundAt(lib, q, Served(q.jobs)) && NoneBroken(q) && Served(q.jobs) < |q.jobs|
    requires var job := q.jobs[Served(q.jobs)];
             n' == Served(q.jobs) + if job.state.Running? || job.task.ReportTask? then 1 else 0
    ensures var q' := Next(lib, q, FrontEvent(q));
            && |q'.jobs| == |q.jobs| && Served(q'.jobs) == n' && SoundAt(lib, q', n')
            && forall i :: 0 <= i < |q.jobs| && i != Served(q.jobs) ==> q'.jobs[i] == q.jobs[i]
  {
    var q' := Next(lib, q, FrontEvent(q));
    FrontIsReady(lib, q);
    FrontStep(lib, q, q', Served(q.jobs), n');
    ServedIs(lib, q', n');
  }

  lemma FrontMoves(lib: TsLibrary, q: Queue)
    requires SoundAt(lib, q, Served(q.jobs)) && NoneBroken(q) && Served(q.jobs) < |q.jobs|
    ensures var q' := Next(lib, q, FrontEvent(q));
            SoundAt(lib, q', Served(q'.jobs)) && NoneBroken(q') && |q'.jobs| == |q.jobs| && Remaining(q') < Remaining(q)
  {
    var n := Served(q.jobs);
    FrontIsReady(lib, q);
    FrontStepSound(lib, q, if q.jobs[n].state.Running? || q.jobs[n].task.ReportTask? then n + 1 else n);
    BreaksNow(lib, q, FrontEvent(q));
  }

  lemma {:induction false} Drains(lib: TsLibrary, q: Queue)
    requires SoundAt(lib, q, Served(q.jobs)) && NoneBroken(q)
    ensures exists more: seq<Event> :: Served(Exec(lib, q, more).jobs) == |Exec(lib, q, more).jobs| == |q.jobs|
    decreases Remaining(q)
  {
    if Served(q.jobs) == |q.jobs| {
      assert Exec(lib, q, []) == q;
    } else {
      var e := FrontEvent(q);
      var q' := Next(lib, q, e);
      FrontMoves(lib, q);
      Drains(lib, q');
      var more: seq<Event> :| Served(Exec(lib, q', more).jobs) == |Exec(lib, q', more).jobs| == |q'.jobs|;
      ExecFirst(lib, q, e, more);
    }
  }

  lemma {:induction false} ExecFirst(lib: TsLibrary, q: Queue, e: Event, more: seq<Event>)
    ensures Exec(lib, q, [e] + more) == Exec(lib, Next(lib, q, e), more)
  {
    if more == [] {
      assert [e] + more == [e] && [e][..0] == [];
    } else {
      var n := |more| - 1;
      ExecFirst(lib, q, e, more[..n]);
      assert ([e] + more)[..n + 1] == [e] + more[..n];
    }
  }

  lemma {:induction false} BrokenStays(lib: TsLibrary, q: Queue, more: seq<Event>, i: nat)
    requires i < |q.jobs| && q.jobs[i].state.Broken?
    ensures i < |Exec(lib, q, more).jobs| && Exec(lib, q, more).jobs[i].state.Broken?
  {
    if more != [] {
      BrokenStays(lib, q, more[..|more| - 1], i);
    }
  }

  /**
   The queue can answer everything it holds exactly when no handler has rejected: one
   rejection is passed down the chain and every later request stays unanswered.
   */
  lemma AnswersEveryoneUnlessBroken(lib: TsLibrary, events: seq<Event>)
    ensures var q := Exec(lib, EMPTY, events);
            NoneBroken(q) <==> exists more: seq<Event> :: Served(Exec(lib, q, more).jobs) >= |q.jobs|
  {
    var q := Exec(lib, EMPTY, events);
    AlwaysSound(lib, events);
    if NoneBroken(q) {
      Drains(lib, q);
      var more: seq<Event> :| Served(Exec(lib, q, more).jobs) == |Exec(lib, q, more).jobs| == |q.jobs|;
      assert Served(Exec(lib, q, more).jobs) >= |q.jobs|;
    } else {
      var i: nat :| i < |q.jobs| && q.jobs[i].state.Broken?;
      forall more: seq<Event> ensures Served(Exec(lib, q, more).jobs) < |q.jobs| {
        BrokenStays(lib, q, more, i);
      }
    }
  }

  /** No handler rejects in the whole history. */
  predicate NoRejection(lib: TsLibrary, events: seq<Event>) {
    events == [] ||
    var n := |events| - 1;
    NoRejection(lib, events[..n]) && !Rejects(Exec(lib, EMPTY, events[..n]), events[n])
  }

  /** Nothing but a rejecting handler breaks the queue, and nothing repairs it. */
  lemma {:induction false} BrokenExactlyByRejection(lib: TsLibrary, events: seq<Event>)
    ensures NoneBroken(Exec(lib, EMPTY, events)) <==> NoRejection(lib, events)
  {
    if events != [] {
      var n := |events| - 1;
      BrokenExactlyByRejection(lib, events[..n]);
      BreaksNow(lib, Exec(lib, EMPTY, events[..n]), events[n]);
    }
  }

  /** Concretely: after one rejected handler the state report behind it is never answered. */
  lemma OneRejectionSilencesTheRest(lib: TsLibrary, more: seq<Event>)
    ensures var q := Queue(None, Some(1), [Job(SignTask("0x00"), None, Broken, None), Job(ReportTask, Some(0), Waiting, None)]);
            && Next(lib, Next(lib, Next(lib, Next(lib, EMPTY, Enqueue(SignTask("0x00"))), Enqueue(ReportTask)), Start(0)), Settle(0, true)) == q
            && Served(Exec(lib, q, more).jobs) == 0
  {
    var sign := SignTask("0x00");
    var q1 := Next(lib, EMPTY, Enqueue(sign));
    assert q1.jobs == [Job(sign, None, Waiting, None)];
    var q2 := Next(lib, q1, Enqueue(ReportTask));
    assert q2.jobs == [Job(sign, None, Waiting, None), Job(ReportTask, Some(0), Waiting, None)];
    var q3 := Next(lib, q2, Start(0));
    assert q3.jobs[1] == q2.jobs[1] && q3.jobs[0].state.Running?;
    var q := Next(lib, q3, Settle(0, true));
    assert q.jobs == [Job(sign, None, Broken, None), Job(ReportTask, Some(0), Waiting, None)];
    BrokenStays(lib, q, more, 0);
  }

  // ----- the one sequential object

  /** The request of the sequential object a task stands for. */
  function RequestOf(task: Task): Request {
    match task
    case UpdateTask(text, plain) => Update(HexToBytes(text), plain)
    case SignTask(text) => Sign(HexToBytes(text))
    case ReportTask => ReadState
  }

  /** The requests both servers treat alike. */
  predicate OrdinaryTask(task: Task) {
    match task
    case UpdateTask(text, plain) => OrdinaryText(text) && OrdinaryPlain(plain)
    case SignTask(text) => OrdinaryText(text)
    case ReportTask => true
  }

  /** The fold of the sequential object that the Go server is linearized to. */
  function HandleFold(lib: Library, tasks: seq<Task>): (Option<nat>, seq<Response>) {
    if tasks == [] then (None, [])
    else
      var (key, responses) := HandleFold(lib, tasks[..|tasks| - 1]);
      var (next, r) := Handle(lib, key, RequestOf(tasks[|tasks| - 1]));
      (next, responses + [r])
  }

  lemma ServeIsHandle(setup: Setup, go: Option<nat>, ts: Option<Bytes>, task: Task)
    requires SameHeld(go, ts) && OrdinaryTask(task)
    ensures var (goKey, goResponse) := Handle(LibraryOf(setup), go, RequestOf(task));
            var (tsKey, tsResponse) := Serve(TsLibraryOf(setup), ts, task);
            SameHeld(goKey, tsKey) && goResponse == tsResponse
  {
    match task
    case UpdateTask(text, plain) => UpdateIsHandle(setup, go, ts, text, plain);
    case SignTask(text) => SignIsHandle(setup, go, ts, text);
    case ReportTask =>
  }

  lemma {:induction false} FoldsAgree(setup: Setup, tasks: seq<Task>)
    requires forall i :: 0 <= i < |tasks| ==> OrdinaryTask(tasks[i])
    ensures SameHeld(HandleFold(LibraryOf(setup), tasks).0, Fold(TsLibraryOf(setup), tasks).0)
    ensures HandleFold(LibraryOf(setup), tasks).1 == Fold(TsLibraryOf(setup), tasks).1
  {
    if tasks != [] {
      var n := |tasks| - 1;
      FoldsAgree(setup, tasks[..n]);
      ServeIsHandle(setup, HandleFold(LibraryOf(setup), tasks[..n]).0, Fold(TsLibraryOf(setup), tasks[..n]).0, tasks[n]);
    }
  }

  /**
   The queue refines the sequential object the Go server refines: on ordinary requests
   the answers given and the key held are those of its fold over the requests served.
   */
  lemma QueueRefinesHandle(setup: Setup, events: seq<Event>)
    requires forall i :: 0 <= i < |Enqueued(events)| ==> OrdinaryTask(Enqueued(events)[i])
    ensures var q := Exec(TsLibraryOf(setup), EMPTY, events);
            var served := Served(q.jobs);
            && served <= |Enqueued(events)|
            && var (key, responses) := HandleFold(LibraryOf(setup), Enqueued(events)[..served]);
               && SameHeld(key, q.key) && |responses| == served
               && (forall i :: 0 <= i < served ==> q.jobs[i].response == Some(responses[i]))
               && (forall i :: served <= i < |q.jobs| ==> q.jobs[i].response == None)
  {
    QueueRefinesFold(TsLibraryOf(setup), events);
    FoldsAgree(setup, Enqueued(events)[..Served(Exec(TsLibraryOf(setup), EMPTY, events).jobs)]);
  }
}
