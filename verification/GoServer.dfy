/**
 The Go extension under concurrency: any number of requests, each a goroutine that
 takes the lock only around its one access to the shared key. Decryption, parsing
 and signing happen outside the lock.

 Every interleaving is shown to be linearizable: ordering the requests by the moment
 of their access gives a legal history of the sequential object of KeyService, and
 the order respects real time.
 */
module GoServer {
  import opened ByteStrings
  import opened Wrappers
  import opened KeyService
  import opened Scalars

  /** Where a request is; the last three have taken effect. */
  datatype Pc =
    | Decrypting                  // an update before its decrypt call is back and parsed
    | AwaitingWrite(parsed: nat)  // wants the write lock
    | Writing(parsed: nat)        // holds the write lock, has not written
    | AwaitingRead                // a sign or state request that wants a read lock
    | Reading                     // holds a read lock, has not read
    | Wrote                       // holds the write lock, has written
    | HasRead                     // holds a read lock, has its snapshot
    | Working                     // has released the lock
    | Replied                     // has answered

  /** snapshot is the local copy of the key; response is filled when it is computed. */
  datatype Thread = Thread(req: Request, pc: Pc, snapshot: Option<nat>, response: Option<Response>, invoked: nat, place: nat, replied: nat)

  /** A request at the moment it takes effect. */
  datatype Effect = Effect(id: nat, req: Request, response: Response, time: nat)

  datatype Server = Server(key: Option<nat>, writer: Option<nat>, readers: set<nat>,
                           threads: map<nat, Thread>, order: seq<Effect>, clock: nat)

  datatype Event = Invoke(id: nat, req: Request) | Step(id: nat)

  const START := Server(None, None, {}, map[], [], 0)

  function First(req: Request): Pc {
    if req.Update? then Decrypting else AwaitingRead
  }

  /** The answer of a read, computed from the snapshot alone. */
  function FromSnapshot(lib: Library, req: Request, snapshot: Option<nat>): Response
    requires !req.Update?
  {
    if req.ReadState? then HasKey(snapshot.Some?) else SignAnswer(lib, snapshot, req.message)
  }

  predicate HasEffect(pc: Pc) {
    pc.Wrote? || pc.HasRead? || pc.Working? || pc.Replied?
  }

  /** A blocked request does not move. */
  predicate Enabled(s: Server, id: nat) {
    id in s.threads &&
    match s.threads[id].pc
    case AwaitingWrite(_) => s.writer == None && s.readers == {}
    case AwaitingRead => s.writer == None
    case Replied => false
    case _ => true
  }

  function With(s: Server, id: nat, t: Thread): Server {
    s.(threads := s.threads[id := t])
  }

  /** The request takes its place in the order. */
  function TakeEffect(s: Server, id: nat, t: Thread, r: Response): Server {
    With(s, id, t.(place := |s.order|)).(order := s.order + [Effect(id, t.req, r, s.clock)])
  }

  /** One step of a goroutine. */
  function Move(lib: Library, s: Server, id: nat): Server
    requires id in s.threads
    requires s.threads[id].pc.AwaitingRead? || s.threads[id].pc.Reading? || s.threads[id].pc.HasRead? ==> !s.threads[id].req.Update?
    requires s.threads[id].pc.Decrypting? ==> s.threads[id].req.Update?
  {
    var t := s.threads[id];
    match t.pc
    case Decrypting =>
      var (k, r) := NewKey(lib, t.req.message, t.req.plain);
      if k == None then TakeEffect(s, id, t.(pc := Replied, response := Some(r), replied := s.clock), r)
      else With(s, id, t.(pc := AwaitingWrite(k.value)))
    case AwaitingWrite(k) => With(s, id, t.(pc := Writing(k))).(writer := Some(id))
    case Writing(k) => TakeEffect(s, id, t.(pc := Wrote), Updated).(key := Some(k))
    case Wrote => With(s, id, t.(pc := Working, response := Some(Updated))).(writer := None)
    case AwaitingRead => With(s, id, t.(pc := Reading)).(readers := s.readers + {id})
    case Reading => TakeEffect(s, id, t.(pc := HasRead, snapshot := s.key), FromSnapshot(lib, t.req, s.key))
    case HasRead =>
      With(s, id, t.(pc := Working, response := Some(FromSnapshot(lib, t.req, t.snapshot)))).(readers := s.readers - {id})
    case Working => With(s, id, t.(pc := Replied, replied := s.clock))
    case Replied => s
  }

  /** The kinds of request a program point belongs to. */
  predicate Fits(lib: Library, t: Thread) {
    match t.pc
    case Decrypting => t.req.Update?
    case AwaitingWrite(k) => t.req.Update? && NewKey(lib, t.req.message, t.req.plain) == (Some(k), Updated)
    case Writing(k) => t.req.Update? && NewKey(lib, t.req.message, t.req.plain) == (Some(k), Updated)
    case Wrote => t.req.Update?
    case AwaitingRead => !t.req.Update?
    case Reading => !t.req.Update?
    case HasRead => !t.req.Update?
    case _ => t.response.Some?
  }

  ghost predicate AllFit(lib: Library, s: Server) {
    forall id :: id in s.threads ==> Fits(lib, s.threads[id])
  }

  ghost function Next(lib: Library, s: Server, e: Event): Server
    requires AllFit(lib, s)
  {
    var s' := match e
      case Invoke(id, req) =>
        if id in s.threads then s else With(s, id, Thread(req, First(req), None, None, s.clock, 0, 0))
      case Step(id) => if Enabled(s, id) then Move(lib, s, id) else s;
    s'.(clock := s.clock + 1)
  }

  ghost function Exec(lib: Library, events: seq<Event>): (s: Server)
    ensures AllFit(lib, s)
  {
    if events == [] then START
    else Next(lib, Exec(lib, events[..|events| - 1]), events[|events| - 1])
  }

  // ----- the specification

  /** The key of the sequential object after the effects. */
  function KeyAfter(lib: Library, order: seq<Effect>): Option<nat> {
    if order == [] then None
    else Handle(lib, KeyAfter(lib, order[..|order| - 1]), order[|order| - 1].req).0
  }

  /** The response at this place is the one the sequential object gives there. */
  predicate LegalAt(lib: Library, order: seq<Effect>, k: nat)
    requires k < |order|
  {
    order[k].response == Handle(lib, KeyAfter(lib, order[..k]), order[k].req).1
  }

  ghost predicate Legal(lib: Library, order: seq<Effect>) {
    forall k: nat {:trigger LegalAt(lib, order, k)} :: k < |order| ==> LegalAt(lib, order, k)
  }

  /** The request has answered with r. */
  predicate Answered(s: Server, id: nat, r: Response) {
    id in s.threads && s.threads[id].pc.Replied? && s.threads[id].response == Some(r)
  }

  /** One answered before the other was invoked. */
  predicate Precedes(s: Server, i: nat, j: nat) {
    i in s.threads && j in s.threads && s.threads[i].pc.Replied? && s.threads[i].replied < s.threads[j].invoked
  }

  predicate AtPlace(order: seq<Effect>, k: nat, id: nat, r: Response) {
    k < |order| && order[k].id == id && order[k].response == r
  }

  ghost predicate Linearization(lib: Library, s: Server, order: seq<Effect>) {
    && Legal(lib, order)
    && KeyAfter(lib, order) == s.key
    // each place belongs to one invoked request, and no request has two
    && (forall k :: 0 <= k < |order| ==> order[k].id in s.threads && order[k].req == s.threads[order[k].id].req)
    && (forall j, k :: 0 <= j < k < |order| ==> order[j].id != order[k].id)
    // whoever answered is there, with that answer
    && (forall id, r :: Answered(s, id, r) ==> exists k: nat :: AtPlace(order, k, id, r))
    // real time
    && (forall j, k :: 0 <= j < |order| && 0 <= k < |order| && Precedes(s, order[j].id, order[k].id) ==> j < k)
  }

  // ----- the invariant

  predicate HoldsWrite(pc: Pc) {
    pc.Writing? || pc.Wrote?
  }

  predicate HoldsRead(pc: Pc) {
    pc.Reading? || pc.HasRead?
  }

  /** The lock is held by exactly the requests inside their critical sections, and writers exclude everyone. */
  ghost predicate LockSound(s: Server) {
    && (forall id :: id in s.threads ==> (HoldsWrite(s.threads[id].pc) <==> s.writer == Some(id)))
    && (forall id :: id in s.threads ==> (HoldsRead(s.threads[id].pc) <==> id in s.readers))
    && (forall id :: id in s.readers ==> id in s.threads)
    && (s.writer.Some? ==> s.writer.value in s.threads && s.readers == {})
  }

  /** What a request knows about its place in the order. */
  predicate PlaceSound(lib: Library, t: Thread, id: nat, order: seq<Effect>, clock: nat) {
    && t.invoked < clock
    && (HasEffect(t.pc) ==>
          && t.place < |order|
          && var e := order[t.place];
             && e.id == id && e.req == t.req && t.invoked < e.time
             && (t.pc.Wrote? ==> e.response == Updated)
             && (t.pc.HasRead? ==> !t.req.Update? && e.response == FromSnapshot(lib, t.req, t.snapshot))
             && (t.pc.Working? || t.pc.Replied? ==> t.response == Some(e.response))
             && (t.pc.Replied? ==> e.time <= t.replied < clock))
  }

  ghost predicate PlacesSound(lib: Library, s: Server) {
    forall id {:trigger PlaceSound(lib, s.threads[id], id, s.order, s.clock)} ::
      id in s.threads ==> PlaceSound(lib, s.threads[id], id, s.order, s.clock)
  }

  /** What a place in the order knows about its request. */
  predicate EffectOwned(s: Server, k: nat)
    requires k < |s.order|
  {
    && s.order[k].id in s.threads && s.order[k].time < s.clock
    && HasEffect(s.threads[s.order[k].id].pc) && s.threads[s.order[k].id].place == k
  }

  predicate InTime(order: seq<Effect>, j: nat, k: nat)
    requires j < k < |order|
  {
    order[j].time < order[k].time
  }

  ghost predicate OrderSound(s: Server) {
    && (forall k: nat {:trigger EffectOwned(s, k)} :: k < |s.order| ==> EffectOwned(s, k))
    && (forall j: nat, k: nat {:trigger InTime(s.order, j, k)} :: j < k < |s.order| ==> InTime(s.order, j, k))
  }

  ghost predicate Sound(lib: Library, s: Server) {
    && LockSound(s) && PlacesSound(lib, s) && OrderSound(s)
    && Legal(lib, s.order) && KeyAfter(lib, s.order) == s.key
  }

  lemma LegalGrows(lib: Library, order: seq<Effect>, e: Effect)
    requires Legal(lib, order) && e.response == Handle(lib, KeyAfter(lib, order), e.req).1
    ensures Legal(lib, order + [e])
    ensures KeyAfter(lib, order + [e]) == Handle(lib, KeyAfter(lib, order), e.req).0
  {
    var grown := order + [e];
    assert grown[..|order|] == order;
    forall k: nat | k < |grown| ensures LegalAt(lib, grown, k) {
      if k < |order| {
        assert LegalAt(lib, order, k) && grown[..k] == order[..k] && grown[k] == order[k];
      }
    }
  }

  /** The requests that do not move keep their places while the order grows and time goes on. */
  lemma PlacesKept(lib: Library, s: Server, s': Server)
    requires PlacesSound(lib, s) && s.order <= s'.order && s.clock <= s'.clock
    requires forall id :: id in s'.threads ==>
               (id in s.threads && s'.threads[id] == s.threads[id]) || PlaceSound(lib, s'.threads[id], id, s'.order, s'.clock)
    ensures PlacesSound(lib, s')
  {
    forall id | id in s'.threads ensures PlaceSound(lib, s'.threads[id], id, s'.order, s'.clock) {
      if id in s.threads && s'.threads[id] == s.threads[id] {
        var t := s.threads[id];
        assert PlaceSound(lib, t, id, s.order, s.clock);
        assert HasEffect(t.pc) ==> s'.order[t.place] == s.order[t.place];
      }
    }
  }

  lemma OrderGrows(s: Server, s': Server)
    requires OrderSound(s) && s.order <= s'.order && |s'.order| <= |s.order| + 1 && s.clock < s'.clock
    requires forall k: nat :: k < |s.order| ==>
               var id := s.order[k].id;
               id in s.threads && HasEffect(s.threads[id].pc) ==>
                 id in s'.threads && HasEffect(s'.threads[id].pc) && s'.threads[id].place == s.threads[id].place
    requires |s'.order| > |s.order| ==> EffectOwned(s', |s.order|) && s'.order[|s.order|].time == s.clock
    ensures OrderSound(s')
  {
    forall k: nat | k < |s'.order| ensures EffectOwned(s', k) {
      if k < |s.order| {
        assert EffectOwned(s, k) && s'.order[k] == s.order[k];
      }
    }
    forall j: nat, k: nat | j < k < |s'.order| ensures InTime(s'.order, j, k) {
      assert EffectOwned(s, j) && s'.order[j] == s.order[j];
      if k < |s.order| {
        assert InTime(s.order, j, k) && s'.order[k] == s.order[k];
      }
    }
  }

  /** Only this request changed, and it did not lose its place. */
  ghost predicate OnlyMoves(s: Server, s': Server, id: nat) {
    && id in s'.threads && s'.threads == s.threads[id := s'.threads[id]] && s'.clock == s.clock + 1
    && (id in s.threads && HasEffect(s.threads[id].pc) ==>
          HasEffect(s'.threads[id].pc) && s'.threads[id].place == s.threads[id].place)
  }

  /** A step that takes no effect: only the request itself and the lock change. */
  lemma QuietSound(lib: Library, s: Server, s': Server, id: nat)
    requires Sound(lib, s) && OnlyMoves(s, s', id) && s'.key == s.key && s'.order == s.order
    requires LockSound(s') && PlaceSound(lib, s'.threads[id], id, s'.order, s'.clock)
    ensures Sound(lib, s')
  {
    PlacesKept(lib, s, s');
    OrderGrows(s, s');
  }

  /** A step that takes effect: its response is the one the sequential object gives now. */
  lemma EffectSound(lib: Library, s: Server, s': Server, id: nat, r: Response)
    requires Sound(lib, s) && OnlyMoves(s, s', id) && id in s.threads && !HasEffect(s.threads[id].pc)
    requires s'.order == s.order + [Effect(id, s.threads[id].req, r, s.clock)]
    requires (s'.key, r) == Handle(lib, s.key, s.threads[id].req)
    requires HasEffect(s'.threads[id].pc) && s'.threads[id].place == |s.order|
    requires LockSound(s') && PlaceSound(lib, s'.threads[id], id, s'.order, s'.clock)
    ensures Sound(lib, s')
  {
    LegalGrows(lib, s.order, Effect(id, s.threads[id].req, r, s.clock));
    PlacesKept(lib, s, s');
    assert EffectOwned(s', |s.order|);
    OrderGrows(s, s');
  }

  predicate Updating(pc: Pc) {
    pc.Decrypting? || pc.AwaitingWrite? || pc.Writing? || pc.Wrote?
  }

  /** Mutual exclusion is kept by every step. */
  lemma LockUpdateStep(lib: Library, s: Server, id: nat)
    requires LockSound(s) && AllFit(lib, s) && Enabled(s, id) && Updating(s.threads[id].pc)
    ensures LockSound(Move(lib, s, id))
  {
  }

  lemma LockReadStep(lib: Library, s: Server, id: nat)
    requires LockSound(s) && AllFit(lib, s) && Enabled(s, id) && !Updating(s.threads[id].pc)
    ensures LockSound(Move(lib, s, id))
  {
  }

  lemma UpdateStepSound(lib: Library, s: Server, id: nat)
    requires Sound(lib, s) && AllFit(lib, s) && Enabled(s, id)
    requires Updating(s.threads[id].pc)
    ensures Sound(lib, Move(lib, s, id).(clock := s.clock + 1))
  {
    var t := s.threads[id];
    var s' := Move(lib, s, id).(clock := s.clock + 1);
    LockUpdateStep(lib, s, id);
    assert PlaceSound(lib, t, id, s.order, s.clock);
    if t.pc.Decrypting? && NewKey(lib, t.req.message, t.req.plain).0 == None {
      EffectSound(lib, s, s', id, NewKey(lib, t.req.message, t.req.plain).1);
    } else if t.pc.Writing? {
      EffectSound(lib, s, s', id, Updated);
    } else {
      QuietSound(lib, s, s', id);
    }
  }

  lemma ReadStepSound(lib: Library, s: Server, id: nat)
    requires Sound(lib, s) && AllFit(lib, s) && Enabled(s, id)
    requires !Updating(s.threads[id].pc)
    ensures Sound(lib, Move(lib, s, id).(clock := s.clock + 1))
  {
    var t := s.threads[id];
    var s' := Move(lib, s, id).(clock := s.clock + 1);
    LockReadStep(lib, s, id);
    assert PlaceSound(lib, t, id, s.order, s.clock);
    if t.pc.Reading? {
      EffectSound(lib, s, s', id, FromSnapshot(lib, t.req, s.key));
    } else {
      if t.pc.Working? {
        assert EffectOwned(s, t.place);
      }
      QuietSound(lib, s, s', id);
    }
  }

  lemma IdleStepSound(lib: Library, s: Server)
    requires Sound(lib, s)
    ensures Sound(lib, s.(clock := s.clock + 1))
  {
    PlacesKept(lib, s, s.(clock := s.clock + 1));
    OrderGrows(s, s.(clock := s.clock + 1));
  }

  lemma StepSound(lib: Library, s: Server, e: Event)
    requires Sound(lib, s) && AllFit(lib, s)
    ensures Sound(lib, Next(lib, s, e))
  {
    match e
    case Invoke(id, req) =>
      if id in s.threads {
        IdleStepSound(lib, s);
      } else {
        QuietSound(lib, s, Next(lib, s, e), id);
      }
    case Step(id) =>
      if !Enabled(s, id) {
        IdleStepSound(lib, s);
      } else if Updating(s.threads[id].pc) {
        UpdateStepSound(lib, s, id);
      } else {
        ReadStepSound(lib, s, id);
      }
  }

  lemma {:induction false} AlwaysSound(lib: Library, events: seq<Event>)
    ensures Sound(lib, Exec(lib, events))
  {
    if events != [] {
      var n := |events| - 1;
      AlwaysSound(lib, events[..n]);
      StepSound(lib, Exec(lib, events[..n]), events[n]);
    }
  }

  // ----- results

  lemma SoundIsLinearized(lib: Library, s: Server)
    requires Sound(lib, s)
    ensures Linearization(lib, s, s.order)
  {
    var order := s.order;
    forall k: nat | k < |order| ensures order[k].id in s.threads && order[k].req == s.threads[order[k].id].req {
      var id := order[k].id;
      assert EffectOwned(s, k);
      assert PlaceSound(lib, s.threads[id], id, order, s.clock);
    }
    forall id, r | Answered(s, id, r) ensures exists k: nat :: AtPlace(order, k, id, r) {
      assert PlaceSound(lib, s.threads[id], id, order, s.clock);
      assert AtPlace(order, s.threads[id].place, id, r);
    }
    forall j: nat, k: nat | j < |order| && k < |order| && Precedes(s, order[j].id, order[k].id) ensures j < k {
      assert EffectOwned(s, j) && EffectOwned(s, k);
      assert PlaceSound(lib, s.threads[order[j].id], order[j].id, order, s.clock);
      assert PlaceSound(lib, s.threads[order[k].id], order[k].id, order, s.clock);
      assert k < j ==> InTime(order, k, j);
    }
    forall j: nat, k: nat | j < k < |order| ensures order[j].id != order[k].id {
      assert EffectOwned(s, j) && EffectOwned(s, k);
    }
  }

  /** Linearizability of every interleaving of UPDATE, SIGN and state requests. */
  lemma EveryInterleavingIsLinearizable(lib: Library, events: seq<Event>)
    ensures exists order: seq<Effect> :: Linearization(lib, Exec(lib, events), order)
  {
    AlwaysSound(lib, events);
    SoundIsLinearized(lib, Exec(lib, events));
  }

  /** While a request writes the key, no other request is inside a critical section. */
  lemma WritersExcludeEveryone(lib: Library, events: seq<Event>, writer: nat, other: nat)
    requires var s := Exec(lib, events);
             writer in s.threads && other in s.threads && writer != other && HoldsWrite(s.threads[writer].pc)
    ensures !HoldsWrite(Exec(lib, events).threads[other].pc) && !HoldsRead(Exec(lib, events).threads[other].pc)
  {
    AlwaysSound(lib, events);
  }

  /** A place that installed key n. */
  predicate Installs(lib: Library, e: Effect, n: nat) {
    e.req.Update? && e.response == Updated && NewKey(lib, e.req.message, e.req.plain).0 == Some(n)
  }

  lemma LegalPrefix(lib: Library, order: seq<Effect>, n: nat)
    requires Legal(lib, order) && n <= |order|
    ensures Legal(lib, order[..n])
  {
    forall k: nat | k < n ensures LegalAt(lib, order[..n], k) {
      assert LegalAt(lib, order, k) && order[..n][..k] == order[..k];
    }
  }

  /** The last update that succeeded, if any, decides the key. */
  lemma {:induction false} KeyIsTheLastInstalled(lib: Library, order: seq<Effect>)
    requires Legal(lib, order)
    ensures match KeyAfter(lib, order)
            case None => forall k :: 0 <= k < |order| ==> order[k].response != Updated
            case Some(n) => exists k :: 0 <= k < |order| && Installs(lib, order[k], n)
                              && forall j :: k < j < |order| ==> order[j].response != Updated
  {
    if order != [] {
      var n := |order| - 1;
      var before := order[..n];
      LegalPrefix(lib, order, n);
      KeyIsTheLastInstalled(lib, before);
      assert LegalAt(lib, order, n);
      assert forall k :: 0 <= k < n ==> before[k] == order[k];
      var key := KeyAfter(lib, order);
      if order[n].response == Updated {
        assert Installs(lib, order[n], key.value);
      } else {
        assert key == KeyAfter(lib, before);
        if key.Some? {
          var k :| 0 <= k < n && Installs(lib, before[k], key.value) && forall j :: k < j < n ==> before[j].response != Updated;
          assert Installs(lib, order[k], key.value);
        }
      }
    }
  }

  /** The signature at one place is made with the key installed at another, and nothing installed a key in between. */
  ghost predicate SignedWith(lib: Library, order: seq<Effect>, install: nat, at: nat, data: Bytes) {
    && install < at < |order| && order[at].req.Sign?
    && (forall j :: install < j < at ==> order[j].response != Updated)
    && exists n :: Installs(lib, order[install], n) && data == lib.sign(n, order[at].req.message)
  }

  lemma SignatureInOrder(lib: Library, order: seq<Effect>, at: nat, data: Bytes)
    requires Legal(lib, order) && at < |order| && order[at].response == Signed(data)
    ensures exists install: nat :: SignedWith(lib, order, install, at, data)
  {
    var before := order[..at];
    LegalPrefix(lib, order, at);
    KeyIsTheLastInstalled(lib, before);
    assert LegalAt(lib, order, at);
    var key := KeyAfter(lib, before);
    assert key.Some? && order[at].req.Sign? && data == lib.sign(key.value, order[at].req.message);
    var k :| 0 <= k < at && Installs(lib, before[k], key.value) && forall j :: k < j < at ==> before[j].response != Updated;
    assert forall j :: 0 <= j < at ==> before[j] == order[j];
    assert Installs(lib, order[k], key.value);
    assert SignedWith(lib, order, k, at, data);
  }

  /**
   A request that answers with a signature signed under the key of the last successful
   update before its read; failing updates in between made no difference.
   */
  lemma SignaturesUseTheLastKey(lib: Library, events: seq<Event>, id: nat, data: Bytes)
    requires Answered(Exec(lib, events), id, Signed(data))
    ensures exists order: seq<Effect>, install: nat, at: nat ::
              Linearization(lib, Exec(lib, events), order) && SignedWith(lib, order, install, at, data) && order[at].id == id
  {
    var s := Exec(lib, events);
    EveryInterleavingIsLinearizable(lib, events);
    var order: seq<Effect> :| Linearization(lib, s, order);
    var at: nat :| AtPlace(order, at, id, Signed(data));
    SignatureInOrder(lib, order, at, data);
    var install: nat :| SignedWith(lib, order, install, at, data);
    assert Linearization(lib, s, order) && SignedWith(lib, order, install, at, data) && order[at].id == id;
  }

  /** A successful update whose decrypted bytes stand for n, modulo the order of the curve. */
  predicate Delivered(e: Effect, n: nat) {
    && e.req.Update? && e.response == Updated && e.req.message != [] && BringsKey(e.req.plain)
    && n == Value(e.req.plain.value) % ORDER != 0
  }

  /** The answer of this place carries the message and its signature under the key that the other place delivered. */
  ghost predicate SignedUnderDelivered(setup: Setup, order: seq<Effect>, install: nat, at: nat, data: Bytes) {
    && install < at < |order| && order[at].req.Sign?
    && (forall j :: install < j < at ==> order[j].response != Updated)
    && exists n :: Delivered(order[install], n) && Delivers(data, order[at].req.message, setup.signer(n, order[at].req.message))
  }

  lemma InstallsDelivered(setup: Setup, e: Effect, n: nat)
    requires Installs(LibraryOf(setup), e, n)
    ensures Delivered(e, n)
  {
    GoUpdateResponds(setup, None, e.req.message, e.req.plain);
  }

  /** In terms of the deployed library: what a client gets is signed with the key decrypted last before its read. */
  lemma SignaturesUseTheDecryptedKey(setup: Setup, events: seq<Event>, id: nat, data: Bytes)
    requires Answered(Exec(LibraryOf(setup), events), id, Signed(data))
    requires Exec(LibraryOf(setup), events).threads[id].req.Sign? ==>
               |Exec(LibraryOf(setup), events).threads[id].req.message| < MESSAGE_LIMIT
    ensures exists order: seq<Effect>, install: nat, at: nat ::
              Linearization(LibraryOf(setup), Exec(LibraryOf(setup), events), order)
              && SignedUnderDelivered(setup, order, install, at, data) && order[at].id == id
  {
    var lib := LibraryOf(setup);
    var s := Exec(lib, events);
    SignaturesUseTheLastKey(lib, events, id, data);
    var order: seq<Effect>, install: nat, at: nat :|
      Linearization(lib, s, order) && SignedWith(lib, order, install, at, data) && order[at].id == id;
    var n :| Installs(lib, order[install], n) && data == lib.sign(n, order[at].req.message);
    InstallsDelivered(setup, order[install], n);
    assert order[at].req == s.threads[id].req;
    SignedDataDelivers(setup, n, order[at].req.message);
    assert SignedUnderDelivered(setup, order, install, at, data);
  }

  lemma {:induction false} KeyStays(lib: Library, order: seq<Effect>, from: nat, to: nat)
    requires from <= to <= |order| && KeyAfter(lib, order[..from]).Some?
    ensures KeyAfter(lib, order[..to]).Some?
  {
    if from < to {
      KeyStays(lib, order, from, to - 1);
      assert order[..to][..to - 1] == order[..to - 1];
    }
  }

  lemma LaterStateSeesTheKey(lib: Library, order: seq<Effect>, a: nat, b: nat, held: bool)
    requires Legal(lib, order) && a < b < |order|
    requires order[a].response == HasKey(true) && order[b].response == HasKey(held)
    ensures held
  {
    assert LegalAt(lib, order, a) && LegalAt(lib, order, b);
    KeyStays(lib, order, a, b);
  }

  /** hasKey never goes back: a state request invoked after one that saw a key sees a key. */
  lemma HasKeyIsMonotone(lib: Library, events: seq<Event>, i: nat, j: nat, held: bool)
    requires var s := Exec(lib, events); Answered(s, i, HasKey(true)) && Answered(s, j, HasKey(held)) && Precedes(s, i, j)
    ensures held
  {
    var s := Exec(lib, events);
    EveryInterleavingIsLinearizable(lib, events);
    var order: seq<Effect> :| Linearization(lib, s, order);
    var a: nat :| AtPlace(order, a, i, HasKey(true));
    var b: nat :| AtPlace(order, b, j, HasKey(held));
    assert Precedes(s, order[a].id, order[b].id);
    LaterStateSeesTheKey(lib, order, a, b, held);
  }

  /** No deadlock: while some request has not answered, some request can move. */
  lemma SomeoneCanMove(lib: Library, events: seq<Event>, waiting: nat)
    requires waiting in Exec(lib, events).threads && !Exec(lib, events).threads[waiting].pc.Replied?
    ensures exists id :: Enabled(Exec(lib, events), id)
  {
    var s := Exec(lib, events);
    AlwaysSound(lib, events);
    if s.writer.Some? {
      assert Enabled(s, s.writer.value);
    } else if s.readers != {} {
      var reader :| reader in s.readers;
      assert Enabled(s, reader);
    } else {
      assert Enabled(s, waiting);
    }
  }

  /** How many steps a request has left. */
  function Left(pc: Pc): nat {
    match pc
    case Decrypting => 5
    case AwaitingWrite(_) => 4
    case Writing(_) => 3
    case AwaitingRead => 4
    case Reading => 3
    case Wrote => 2
    case HasRead => 2
    case Working => 1
    case Replied => 0
  }

  /** Every step of a request that can move brings it closer to its answer: it answers within five. */
  lemma MovesMakeProgress(lib: Library, s: Server, id: nat)
    requires AllFit(lib, s) && Enabled(s, id)
    ensures var s' := Next(lib, s, Step(id));
            && id in s'.threads && Left(s'.threads[id].pc) < Left(s.threads[id].pc) <= 5
            && forall other :: other in s.threads && other != id ==> other in s'.threads && s'.threads[other] == s.threads[other]
  {
  }

  // ----- everyone is answered

  /** The steps left to the requests with an id below n. */
  function TotalLeft(threads: map<nat, Thread>, n: nat): nat {
    if n == 0 then 0
    else TotalLeft(threads, n - 1) + if n - 1 in threads then Left(threads[n - 1].pc) else 0
  }

  lemma {:induction false} TotalDrops(before: map<nat, Thread>, after: map<nat, Thread>, id: nat, n: nat)
    requires id in before && id in after && before.Keys == after.Keys
    requires Left(after[id].pc) < Left(before[id].pc)
    requires forall other :: other in before && other != id ==> after[other] == before[other]
    ensures if id < n then TotalLeft(after, n) < TotalLeft(before, n) else TotalLeft(after, n) == TotalLeft(before, n)
  {
    if n > 0 {
      TotalDrops(before, after, id, n - 1);
      assert n - 1 in before <==> n - 1 in after;
    }
  }

  ghost predicate AllAnswered(s: Server) {
    forall id :: id in s.threads ==> s.threads[id].pc.Replied?
  }

  /** The continuation is made of steps of the requests already there, and answers them all. */
  ghost predicate Finishes(lib: Library, events: seq<Event>, more: seq<Event>) {
    && (forall k :: 0 <= k < |more| ==> more[k].Step?)
    && Exec(lib, events + more).threads.Keys == Exec(lib, events).threads.Keys
    && AllAnswered(Exec(lib, events + more))
  }

  lemma StepDrops(lib: Library, events: seq<Event>, id: nat, n: nat)
    requires Enabled(Exec(lib, events), id) && id < n
    ensures var before, after := Exec(lib, events).threads, Exec(lib, events + [Step(id)]).threads;
            after.Keys == before.Keys && TotalLeft(after, n) < TotalLeft(before, n)
  {
    var s := Exec(lib, events);
    assert (events + [Step(id)])[..|events|] == events;
    MovesMakeProgress(lib, s, id);
    KeysKept(lib, s, id);
    TotalDrops(s.threads, Next(lib, s, Step(id)).threads, id, n);
  }

  lemma FinishesAfter(lib: Library, events: seq<Event>, id: nat, rest: seq<Event>)
    requires Finishes(lib, events + [Step(id)], rest)
    requires Exec(lib, events + [Step(id)]).threads.Keys == Exec(lib, events).threads.Keys
    ensures Finishes(lib, events, [Step(id)] + rest)
  {
    assert events + ([Step(id)] + rest) == (events + [Step(id)]) + rest;
  }

  lemma {:induction false} FinishesBelow(lib: Library, events: seq<Event>, n: nat) returns (more: seq<Event>)
    requires forall id :: id in Exec(lib, events).threads ==> id < n
    ensures Finishes(lib, events, more) && |more| <= TotalLeft(Exec(lib, events).threads, n)
    decreases TotalLeft(Exec(lib, events).threads, n)
  {
    var s := Exec(lib, events);
    if waiting :| waiting in s.threads && !s.threads[waiting].pc.Replied? {
      SomeoneCanMove(lib, events, waiting);
      var id :| Enabled(s, id);
      var longer := events + [Step(id)];
      StepDrops(lib, events, id, n);
      var rest := FinishesBelow(lib, longer, n);
      more := [Step(id)] + rest;
      FinishesAfter(lib, events, id, rest);
    } else {
      more := [];
      assert events + more == events;
    }
  }

  lemma KeysKept(lib: Library, s: Server, id: nat)
    requires AllFit(lib, s) && Enabled(s, id)
    ensures Next(lib, s, Step(id)).threads.Keys == s.threads.Keys
  {
  }

  lemma {:induction false} IdsAreBounded(lib: Library, events: seq<Event>) returns (n: nat)
    ensures forall id :: id in Exec(lib, events).threads ==> id < n
  {
    n := 0;
    if events != [] {
      var before, e := events[..|events| - 1], events[|events| - 1];
      n := IdsAreBounded(lib, before);
      if e.Invoke? {
        n := if e.id < n then n else e.id + 1;
      } else if Enabled(Exec(lib, before), e.id) {
        KeysKept(lib, Exec(lib, before), e.id);
      }
    }
  }

  /** From every reachable state the requests already there can all be answered without any new one. */
  lemma EveryoneCanBeAnswered(lib: Library, events: seq<Event>)
    ensures exists more: seq<Event> :: Finishes(lib, events, more)
  {
    var n := IdsAreBounded(lib, events);
    var more := FinishesBelow(lib, events, n);
  }
}
