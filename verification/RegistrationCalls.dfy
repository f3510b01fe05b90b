/**
 What the calls of a run were answered, and what follows from it: which refusals end a
 run, what the log then holds, and which calls stand behind a transaction and behind a
 run that returned no error.
 */
module RegistrationCalls {
  import opened RegistrationProtocol
  import opened RegistrationSafety
  import opened RegistrationRuns

  /**
   What is on record of the run under way, or of the last one: how its state file loaded
   and which steps it found there, the log at its start, and the answer to each call.
   */
  datatype RunView = RunView(load: Reply, loaded: string, startLog: seq<Tx>, heard: map<Pc, Reply>)

  /** The completed steps a run finds, after the removal a fresh start attempts. */
  function FoundSteps(file: File, resume: bool, remove: Reply): string {
    if !resume && Lands(remove) then "" else if file.Saved? then file.progress.completed else ""
  }

  function NextView(c: Config, v: RunView, e: Event): RunView {
    match e
    case Start(resume, remove, load) =>
      if c.pc == Idle then RunView(load, FoundSteps(c.file, resume, remove), c.chain.log, map[]) else v
    case Answer(r) => if c.pc == Idle then v else v.(heard := v.heard[c.pc := r])
    case Kill => v
  }

  function View(cmd: Command, c: Config, events: seq<Event>): RunView {
    if events == [] then RunView(Done, "", c.chain.log, map[])
    else
      var n := |events| - 1;
      NextView(Exec(cmd, c, events[..n]), View(cmd, c, events[..n]), events[n])
  }

  /** The run asked this call and was answered Done. */
  predicate Granted(v: RunView, pc: Pc) {
    pc in v.heard && v.heard[pc] == Done
  }

  predicate RefusedAt(v: RunView, pc: Pc) {
    pc in v.heard && v.heard[pc] != Done
  }

  // ----- each call is asked once

  lemma CallsGoForward(cmd: Command, c: Config, r: Reply)
    requires c.pc != Idle
    ensures var next := OnAnswer(cmd, c, r); next.pc != Idle ==> Rank(next.pc) < Rank(c.pc)
  {
  }

  /** The calls already answered come before the one the process waits for. */
  predicate Forward(c: Config, v: RunView) {
    c.pc != Idle ==> forall pc :: pc in v.heard ==> Rank(pc) > Rank(c.pc)
  }

  lemma ForwardStep(cmd: Command, c: Config, v: RunView, e: Event)
    requires Forward(c, v)
    ensures Forward(Next(cmd, c, e), NextView(c, v, e))
  {
    if e.Answer? && c.pc != Idle {
      CallsGoForward(cmd, c, e.reply);
    }
  }

  lemma {:induction false} AlwaysForward(cmd: Command, c: Config, events: seq<Event>)
    requires Initial(c)
    ensures Forward(Exec(cmd, c, events), View(cmd, c, events))
  {
    if events != [] {
      var n := |events| - 1;
      AlwaysForward(cmd, c, events[..n]);
      ForwardStep(cmd, Exec(cmd, c, events[..n]), View(cmd, c, events[..n]), events[n]);
    }
  }

  // ----- what ends a run with an error

  /** The calls whose failure RegisterNode returns. The reads and the saves are not among them. */
  predicate Fatal(pc: Pc) {
    match pc
    case SendRegister | SendFreshAttest | SendAttest | PolicyGate | SendAvailability | FetchProof | SendPromote | ConfirmMachine => true
    case _ => false
  }

  /** The file did not load, a call failed, or the promoted machine was not found on chain. */
  ghost predicate Problem(v: RunView, chain: Chain) {
    || v.load != Done
    || (exists pc :: RefusedAt(v, pc) && Fatal(pc))
    || (ConfirmMachine in v.heard && !chain.recorded)
  }

  ghost predicate FailureSound(c: Config, v: RunView) {
    (Problem(v, c.chain) <==> c.pc == Idle && c.ending == Failed) && (c.pc != Idle ==> c.ending == Running)
  }

  lemma AnswerEndsRun(cmd: Command, c: Config, r: Reply)
    requires c.pc != Idle && c.ending == Running
    ensures var next := OnAnswer(cmd, c, r);
            && (next.pc != Idle ==> next.ending == Running) && (c.chain.recorded ==> next.chain.recorded)
            && (next.pc == Idle && next.ending == Failed <==>
                  (Fatal(c.pc) && r != Done) || (c.pc == ConfirmMachine && !next.chain.recorded))
  {
  }

  lemma AnswerFailure(cmd: Command, c: Config, v: RunView, r: Reply)
    requires FailureSound(c, v) && c.pc != Idle
    ensures FailureSound(Next(cmd, c, Answer(r)), NextView(c, v, Answer(r)))
  {
    var next, v' := Next(cmd, c, Answer(r)), NextView(c, v, Answer(r));
    AnswerEndsRun(cmd, c, r);
    assert forall pc :: Fatal(pc) ==> !RefusedAt(v, pc);
    assert forall pc :: pc != c.pc ==> (RefusedAt(v', pc) <==> RefusedAt(v, pc));
    assert RefusedAt(v', c.pc) <==> r != Done;
  }

  lemma StartFailure(cmd: Command, c: Config, v: RunView, e: Event)
    requires c.pc == Idle && e.Start? && !c.file.Unparsable?
    ensures FailureSound(Next(cmd, c, e), NextView(c, v, e))
  {
    assert forall pc :: !RefusedAt(NextView(c, v, e), pc);
  }

  lemma FailureStep(cmd: Command, c: Config, v: RunView, e: Event)
    requires FailureSound(c, v) && !c.file.Unparsable?
    ensures FailureSound(Next(cmd, c, e), NextView(c, v, e))
  {
    if c.pc == Idle {
      if e.Start? {
        StartFailure(cmd, c, v, e);
      }
    } else if e.Answer? {
      AnswerFailure(cmd, c, v, e.reply);
    }
  }

  /**
   A run ends with an error exactly when its file did not load, a call other than a read
   or a save was not answered Done, or the promoted machine is not on chain.
   */
  lemma {:induction false} RunFailsExactlyWhen(cmd: Command, c: Config, events: seq<Event>)
    requires Initial(c)
    ensures FailureSound(Exec(cmd, c, events), View(cmd, c, events))
  {
    if events != [] {
      var n := |events| - 1;
      RunFailsExactlyWhen(cmd, c, events[..n]);
      FileIsParsable(cmd, c, events[..n]);
      FailureStep(cmd, Exec(cmd, c, events[..n]), View(cmd, c, events[..n]), events[n]);
    }
  }

  // ----- which calls come before which

  /** The call that must have been granted in the same run before this one is made. */
  predicate Cleared(v: RunView, pc: Pc) {
    match pc
    case SendFreshAttest => Granted(v, ReadMachine)
    case SendRegister => ReadMachine in v.heard
    case SendAvailability => Granted(v, PolicyGate)
    case SaveAvailability => Granted(v, SendAvailability)
    case SaveRegister => Granted(v, SendRegister) || Granted(v, SendFreshAttest)
    case SaveAttest => Granted(v, SendAttest)
    case ReadStatus => Granted(v, FetchProof)
    case SendPromote => Granted(v, FetchProof) && ReadStatus in v.heard
    case ConfirmMachine => Granted(v, SendPromote)
    case _ => true
  }

  predicate ClearedSound(c: Config, v: RunView) {
    Cleared(v, c.pc) && forall pc :: pc in v.heard ==> Cleared(v, pc)
  }

  /** An answer to a call not yet answered takes nothing back. */
  lemma ClearedGrows(v: RunView, pc: Pc, at: Pc, r: Reply)
    requires Cleared(v, pc) && at !in v.heard
    ensures Cleared(v.(heard := v.heard[at := r]), pc)
  {
  }

  lemma AnswerClears(cmd: Command, c: Config, v: RunView, r: Reply)
    requires c.pc != Idle && Cleared(v, c.pc) && c.pc !in v.heard
    ensures Cleared(v.(heard := v.heard[c.pc := r]), OnAnswer(cmd, c, r).pc)
  {
  }

  lemma ClearedStep(cmd: Command, c: Config, v: RunView, e: Event)
    requires ClearedSound(c, v) && Forward(c, v)
    ensures ClearedSound(Next(cmd, c, e), NextView(c, v, e))
  {
    var v' := NextView(c, v, e);
    if c.pc == Idle {
      if e.Start? {
        StartClears(cmd, c, v', e);
      }
    } else if e.Answer? {
      AnswerClears(cmd, c, v, e.reply);
      forall pc | pc in v'.heard ensures Cleared(v', pc) {
        ClearedGrows(v, pc, c.pc, e.reply);
      }
    }
  }

  lemma StartClears(cmd: Command, c: Config, v: RunView, e: Event)
    requires c.pc == Idle && e.Start?
    ensures Cleared(v, Next(cmd, c, e).pc)
  {
  }

  lemma {:induction false} CallsAreCleared(cmd: Command, c: Config, events: seq<Event>)
    requires Initial(c)
    ensures ClearedSound(Exec(cmd, c, events), View(cmd, c, events))
  {
    if events != [] {
      var n := |events| - 1;
      CallsAreCleared(cmd, c, events[..n]);
      AlwaysForward(cmd, c, events[..n]);
      ClearedStep(cmd, Exec(cmd, c, events[..n]), View(cmd, c, events[..n]), events[n]);
    }
  }

  // ----- what a run adds to the log

  function Checks(log: seq<Tx>): nat {
    if log == [] then 0
    else Checks(log[..|log| - 1]) + (if log[|log| - 1].CheckAvailability? then 1 else 0)
  }

  /** The call took effect, whether or not the run learned of it. */
  predicate TookEffect(v: RunView, pc: Pc) {
    pc in v.heard && Lands(v.heard[pc])
  }

  predicate CountsSound(c: Config, v: RunView) {
    && Registrations(c.chain.log) == Registrations(v.startLog) + Unit(TookEffect(v, SendRegister))
    && Checks(c.chain.log) == Checks(v.startLog) + Unit(TookEffect(v, SendAvailability))
    && Promotions(c.chain.log) == Promotions(v.startLog) + Unit(TookEffect(v, SendPromote))
  }

  lemma ChecksGrow(c: Config, e: Event)
    ensures Checks(ChainAfter(c, e).log) == Checks(c.chain.log) + Unit(c.pc == SendAvailability && e.Answer? && Lands(e.reply))
  {
    var before, after := c.chain.log, ChainAfter(c, e).log;
    if after != before {
      assert after[..|before|] == before;
    }
  }

  lemma TookEffectGrows(c: Config, v: RunView, e: Event, pc: Pc)
    requires Forward(c, v) && pc != Idle && !(c.pc == Idle && e.Start?)
    ensures NextView(c, v, e).startLog == v.startLog
    ensures Unit(TookEffect(NextView(c, v, e), pc)) == Unit(TookEffect(v, pc)) + Unit(c.pc == pc && e.Answer? && Lands(e.reply))
  {
    assert c.pc == pc ==> pc !in v.heard;
  }

  lemma CountsStep(cmd: Command, c: Config, v: RunView, e: Event)
    requires CountsSound(c, v) && Forward(c, v)
    ensures CountsSound(Next(cmd, c, e), NextView(c, v, e))
  {
    StepChain(cmd, c, e);
    if !(c.pc == Idle && e.Start?) {
      ChainAfterCounts(c, e);
      ChecksGrow(c, e);
      TookEffectGrows(c, v, e, SendRegister);
      TookEffectGrows(c, v, e, SendAvailability);
      TookEffectGrows(c, v, e, SendPromote);
    }
  }

  /** The log of a run is the log at its start and one transaction for each send that took effect. */
  lemma {:induction false} RunAddsWhatTookEffect(cmd: Command, c: Config, events: seq<Event>)
    requires Initial(c)
    ensures CountsSound(Exec(cmd, c, events), View(cmd, c, events))
  {
    if events != [] {
      var n := |events| - 1;
      RunAddsWhatTookEffect(cmd, c, events[..n]);
      AlwaysForward(cmd, c, events[..n]);
      CountsStep(cmd, Exec(cmd, c, events[..n]), View(cmd, c, events[..n]), events[n]);
    }
  }

  /**
   The gates stop a run. If the policy gate is not granted the run ends with an error and
   neither an availability check nor a promotion was sent; if the proof is not fetched it
   ends with an error and no promotion was sent; if the machine is not confirmed it ends
   with an error.
   */
  predicate GatesStop(now: Config, v: RunView) {
    && (RefusedAt(v, PolicyGate) ==>
          && now.pc == Idle && now.ending == Failed
          && Checks(now.chain.log) == Checks(v.startLog) && Promotions(now.chain.log) == Promotions(v.startLog))
    && (RefusedAt(v, FetchProof) ==> now.pc == Idle && now.ending == Failed && Promotions(now.chain.log) == Promotions(v.startLog))
    && (RefusedAt(v, ConfirmMachine) ==> now.pc == Idle && now.ending == Failed)
  }

  lemma StopsAreGates(now: Config, v: RunView)
    requires StoppedAt(now, v, PolicyGate) && StoppedAt(now, v, FetchProof) && StoppedAt(now, v, ConfirmMachine)
    ensures GatesStop(now, v)
  {
  }

  lemma RefusedGatesStopTheRun(cmd: Command, c: Config, events: seq<Event>)
    requires Initial(c)
    ensures GatesStop(Exec(cmd, c, events), View(cmd, c, events))
  {
    RefusalEndsTheRun(cmd, c, events, PolicyGate);
    RefusalEndsTheRun(cmd, c, events, FetchProof);
    RefusalEndsTheRun(cmd, c, events, ConfirmMachine);
    StopsAreGates(Exec(cmd, c, events), View(cmd, c, events));
  }

  /** If this call was refused, the run ended there, and nothing behind it was sent. */
  predicate StoppedAt(now: Config, v: RunView, at: Pc) {
    RefusedAt(v, at) ==>
      && now.pc == Idle && now.ending == Failed
      && (Rank(at) > Rank(SendAvailability) ==> Checks(now.chain.log) == Checks(v.startLog))
      && (Rank(at) > Rank(SendPromote) ==> Promotions(now.chain.log) == Promotions(v.startLog))
  }

  /** A refused call ends its run with an error, and nothing behind it is sent. */
  lemma RefusalEndsTheRun(cmd: Command, c: Config, events: seq<Event>, at: Pc)
    requires Initial(c) && Fatal(at)
    ensures StoppedAt(Exec(cmd, c, events), View(cmd, c, events), at)
  {
    RunFailsExactlyWhen(cmd, c, events);
    RunAddsWhatTookEffect(cmd, c, events);
    RefusalIsLast(cmd, c, events, at);
  }

  /** The call at which a run failed is the last one it made. */
  lemma {:induction false} RefusalIsLast(cmd: Command, c: Config, events: seq<Event>, at: Pc)
    requires Initial(c) && Fatal(at)
    ensures var v := View(cmd, c, events);
            RefusedAt(v, at) ==> forall pc :: pc in v.heard ==> Rank(pc) >= Rank(at)
  {
    if events != [] {
      var n := |events| - 1;
      var before, v := Exec(cmd, c, events[..n]), View(cmd, c, events[..n]);
      RefusalIsLast(cmd, c, events[..n], at);
      RunFailsExactlyWhen(cmd, c, events[..n]);
      AlwaysForward(cmd, c, events[..n]);
      assert before.pc != Idle ==> !RefusedAt(v, at);
    }
  }

  /** The status the log leaves behind: INITIALIZED is 1 and PRODUCTION is 2. */
  function StatusAfter(log: seq<Tx>, before: nat): nat {
    if log == [] then before
    else
      match log[|log| - 1]
      case Register(_) => 1
      case Promote(_) => 2
      case _ => StatusAfter(log[..|log| - 1], before)
  }

  lemma StatusGrows(log: seq<Tx>, tx: Tx, before: nat)
    ensures StatusAfter(log + [tx], before) == if tx.Register? then 1 else if tx.Promote? then 2 else StatusAfter(log, before)
  {
    assert (log + [tx])[..|log|] == log;
  }

  lemma StatusStep(c: Config, e: Event, before: nat)
    requires c.chain.status == StatusAfter(c.chain.log, before)
    ensures ChainAfter(c, e).status == StatusAfter(ChainAfter(c, e).log, before)
  {
    var id := NextId(c.chain);
    match c.pc {
      case SendRegister => StatusGrows(c.chain.log, Register(id), before);
      case SendFreshAttest => StatusGrows(c.chain.log, Attest(id), before);
      case SendAttest => StatusGrows(c.chain.log, Attest(id), before);
      case SendAvailability => StatusGrows(c.chain.log, CheckAvailability(id, c.attest), before);
      case SendPromote => StatusGrows(c.chain.log, Promote(c.avail), before);
      case _ =>
    }
  }

  /**
   The machine is in production exactly if the last registration or promotion of the log
   is a promotion, or there is neither and it was in production before; it is on chain
   exactly if it was before or some registration took effect.
   */
  lemma {:induction false} ChainIsItsLog(cmd: Command, c: Config, events: seq<Event>)
    requires Initial(c)
    ensures var chain := Exec(cmd, c, events).chain;
            && chain.status == StatusAfter(chain.log, c.chain.status)
            && (chain.recorded <==> c.chain.recorded || Registrations(chain.log) > 0)
  {
    if events != [] {
      var n := |events| - 1;
      var before := Exec(cmd, c, events[..n]);
      ChainIsItsLog(cmd, c, events[..n]);
      StatusStep(before, events[n], c.chain.status);
      StepChain(cmd, before, events[n]);
      ChainAfterCounts(before, events[n]);
    }
  }

  // ----- what stands behind a transaction

  /** The call that must be granted before a transaction of this kind. */
  function GateOf(tx: Tx): Pc {
    match tx
    case CheckAvailability(_, _) => PolicyGate
    case Promote(_) => FetchProof
    case _ => Idle
  }

  /** Entry k of the log was sent at event n, in a run that had been granted its gate. */
  predicate SentBehindGate(cmd: Command, c: Config, events: seq<Event>, k: nat, n: nat) {
    && n < |events| && events[n].Answer? && Lands(events[n].reply)
    && |Exec(cmd, c, events[..n]).chain.log| == k < |Exec(cmd, c, events).chain.log|
    && Granted(View(cmd, c, events[..n]), GateOf(Exec(cmd, c, events).chain.log[k]))
  }

  lemma LogOnlyGrows(cmd: Command, c: Config, e: Event)
    ensures var before, after := c.chain.log, Next(cmd, c, e).chain.log;
            && before <= after && |after| <= |before| + 1
            && (after != before ==> e.Answer? && Lands(e.reply))
            && (after != before && after[|before|].CheckAvailability? ==> c.pc == SendAvailability)
            && (after != before && after[|before|].Promote? ==> c.pc == SendPromote)
  {
    StepChain(cmd, c, e);
  }

  /**
   Every availability check in the log was sent in a run whose policy gate was granted
   after its start, and every promotion in a run that had fetched its proof.
   */
  lemma {:induction false} TransactionsPassTheirGates(cmd: Command, c: Config, events: seq<Event>, k: nat)
    requires Initial(c) && k < |Exec(cmd, c, events).chain.log|
    requires var tx := Exec(cmd, c, events).chain.log[k]; tx.CheckAvailability? || tx.Promote?
    ensures exists n: nat :: SentBehindGate(cmd, c, events, k, n)
  {
    var m := |events| - 1;
    var before := Exec(cmd, c, events[..m]);
    LogOnlyGrows(cmd, before, events[m]);
    if k < |before.chain.log| {
      TransactionsPassTheirGates(cmd, c, events[..m], k);
      var n: nat :| SentBehindGate(cmd, c, events[..m], k, n);
      assert events[..m][..n] == events[..n] && events[..m][n] == events[n];
      assert SentBehindGate(cmd, c, events, k, n);
    } else {
      CallsAreCleared(cmd, c, events[..m]);
      assert SentBehindGate(cmd, c, events, k, m);
    }
  }

  // ----- what stands behind a success

  /** The step's transaction was made and seen in this run. */
  predicate Made(v: RunView, letter: char) {
    match letter
    case 'r' => Granted(v, SendRegister) || Granted(v, SendFreshAttest)
    case 'R' => Granted(v, SendAttest)
    case 'a' => Granted(v, SendAvailability)
    case _ => false
  }

  /** The steps in memory are those of the file and those made in this run. */
  predicate MemorySound(c: Config, v: RunView) {
    c.pc != Idle ==> forall letter :: letter in c.memory.completed ==> letter in v.loaded || Made(v, letter)
  }

  lemma MemoryAnswer(cmd: Command, c: Config, v: RunView, r: Reply)
    requires MemorySound(c, v) && Forward(c, v) && c.pc != Idle
    ensures MemorySound(Next(cmd, c, Answer(r)), NextView(c, v, Answer(r)))
  {
    assert c.pc !in v.heard;
    assert forall letter :: Made(v, letter) ==> Made(NextView(c, v, Answer(r)), letter);
  }

  lemma MemoryStart(cmd: Command, c: Config, v: RunView, e: Event)
    requires c.pc == Idle && e.Start?
    ensures MemorySound(Next(cmd, c, e), NextView(c, v, e))
  {
  }

  lemma MemoryStep(cmd: Command, c: Config, v: RunView, e: Event)
    requires MemorySound(c, v) && Forward(c, v)
    ensures MemorySound(Next(cmd, c, e), NextView(c, v, e))
  {
    if c.pc == Idle && e.Start? {
      MemoryStart(cmd, c, v, e);
    } else if c.pc != Idle && e.Answer? {
      MemoryAnswer(cmd, c, v, e.reply);
    }
  }

  /** The machine was promoted in this run and then found, or the status read said that it was in production. */
  predicate PromotionSound(cmd: Command, c: Config, v: RunView) {
    c.pc == RemoveFile && 'p' in cmd.letters ==>
      Granted(v, FetchProof) && Promoted(v)
  }

  predicate Promoted(v: RunView) {
    Granted(v, ConfirmMachine) || (Granted(v, ReadStatus) && SendPromote !in v.heard)
  }

  lemma PromotionStep(cmd: Command, c: Config, v: RunView, e: Event)
    requires PromotionSound(cmd, c, v) && ClearedSound(c, v) && Forward(c, v)
    ensures PromotionSound(cmd, Next(cmd, c, e), NextView(c, v, e))
  {
  }

  lemma {:induction false} AlwaysMade(cmd: Command, c: Config, events: seq<Event>)
    requires Initial(c)
    ensures MemorySound(Exec(cmd, c, events), View(cmd, c, events))
    ensures PromotionSound(cmd, Exec(cmd, c, events), View(cmd, c, events))
  {
    if events != [] {
      var n := |events| - 1;
      var before, v := Exec(cmd, c, events[..n]), View(cmd, c, events[..n]);
      AlwaysMade(cmd, c, events[..n]);
      AlwaysForward(cmd, c, events[..n]);
      CallsAreCleared(cmd, c, events[..n]);
      MemoryStep(cmd, before, v, events[n]);
      PromotionStep(cmd, before, v, events[n]);
    }
  }

  /** Every step of the command was found in the file or made, and the promotion came about: PRODUCTION is 2. */
  predicate AllDone(cmd: Command, v: RunView, chain: Chain) {
    && (forall letter :: letter in "rRa" && letter in cmd.letters ==> letter in v.loaded || Made(v, letter))
    && ('p' in cmd.letters ==> Granted(v, FetchProof) && Promoted(v) && chain.status == 2)
  }

  lemma RemovingIsDone(cmd: Command, c: Config, v: RunView, e: Event)
    requires Sound(cmd, c) && MemorySound(c, v) && PromotionSound(cmd, c, v)
    requires Forward(c, v) && c.pc == RemoveFile && e.Answer?
    ensures AllDone(cmd, NextView(c, v, e), Next(cmd, c, e).chain)
  {
    PlanInMemory(cmd, c);
    assert AllDone(cmd, v, c.chain);
    RemovalKeepsDone(cmd, v, c.chain, e.reply);
  }

  lemma RemovalKeepsDone(cmd: Command, v: RunView, chain: Chain, r: Reply)
    requires AllDone(cmd, v, chain)
    ensures AllDone(cmd, v.(heard := v.heard[RemoveFile := r]), chain)
  {
    assert forall letter :: Made(v, letter) ==> Made(v.(heard := v.heard[RemoveFile := r]), letter);
  }

  lemma PlanInMemory(cmd: Command, c: Config)
    requires c.pc == RemoveFile && SoundRun(cmd, c)
    ensures forall letter :: letter in "rRa" && letter in cmd.letters ==> letter in c.memory.completed
  {
    PrefixShapes(cmd, c.memory.completed);
  }

  lemma SuccessNeedsRemoval(cmd: Command, c: Config, e: Event)
    requires Next(cmd, c, e).pc == Idle && Next(cmd, c, e).ending == Succeeded && (c.pc != Idle ==> c.ending == Running)
    ensures if c.pc == Idle then Next(cmd, c, e) == c else c.pc == RemoveFile && e.Answer?
  {
  }

  /**
   A run that returned no error skipped nothing: each step of its command was on record in
   the file it found or was made and seen in this run, and with p the proof was fetched
   and the machine was confirmed, or read as being in production.
   */
  lemma {:induction false} SuccessDidEveryStep(cmd: Command, c: Config, events: seq<Event>)
    requires Initial(c) && EndsWell(cmd, c, events)
    ensures AllDone(cmd, View(cmd, c, events), Exec(cmd, c, events).chain)
  {
    var n := |events| - 1;
    var before, v := Exec(cmd, c, events[..n]), View(cmd, c, events[..n]);
    RunFailsExactlyWhen(cmd, c, events[..n]);
    SuccessNeedsRemoval(cmd, before, events[n]);
    if before.pc == Idle {
      SuccessDidEveryStep(cmd, c, events[..n]);
    } else {
      AlwaysSound(cmd, c, events[..n]);
      AlwaysMade(cmd, c, events[..n]);
      AlwaysForward(cmd, c, events[..n]);
      RemovingIsDone(cmd, before, v, events[n]);
    }
  }

  // ----- commands without a

  /** Promotions use the instruction id of the command line. */
  predicate UsesGivenId(cmd: Command, c: Config) {
    && (forall k :: 0 <= k < |c.chain.log| && c.chain.log[k].Promote? ==> c.chain.log[k].availId == cmd.instruction)
    && (c.pc == FetchProof || c.pc == ReadStatus || c.pc == SendPromote ==> c.avail == cmd.instruction)
  }

  lemma GivenIdStep(cmd: Command, c: Config, e: Event)
    requires UsesGivenId(cmd, c) && 'a' !in cmd.letters && (c.pc != Idle ==> InPlan(cmd, c.pc))
    ensures UsesGivenId(cmd, Next(cmd, c, e))
  {
    StepChain(cmd, c, e);
  }

  /** Without the letter a every promotion carries the instruction id given with the command. */
  lemma {:induction false} WithoutCheckGivenIdIsUsed(cmd: Command, c: Config, events: seq<Event>)
    requires Initial(c) && 'a' !in cmd.letters
    ensures UsesGivenId(cmd, Exec(cmd, c, events))
  {
    if events != [] {
      var n := |events| - 1;
      WithoutCheckGivenIdIsUsed(cmd, c, events[..n]);
      AlwaysSound(cmd, c, events[..n]);
      GivenIdStep(cmd, Exec(cmd, c, events[..n]), events[n]);
    }
  }
}
