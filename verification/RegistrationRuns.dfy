/**
 Results about whole histories of registration runs, each stopped at any point.
 Every history starts from a machine this tool never ran for.
 */
module RegistrationRuns {
  import opened RegistrationProtocol
  import opened RegistrationSafety

  /** The transaction log as it was when the file was last saved. */
  function SavedLog(cmd: Command, c: Config, events: seq<Event>): seq<Tx> {
    if events == [] then c.chain.log
    else
      var n := |events| - 1;
      var before := Exec(cmd, c, events[..n]);
      if SavesFile(before, events[n]) then before.chain.log else SavedLog(cmd, c, events[..n])
  }

  predicate HasAttestation(p: Progress) {
    'r' in p.completed || 'R' in p.completed
  }

  /** What is about to be saved carries the attestation issued last. */
  lemma SavesLastAttestation(cmd: Command, c: Config)
    requires Sound(cmd, c) && (c.pc.SaveRegister? || c.pc.SaveAttest? || c.pc.SaveAvailability?)
    ensures HasAttestation(c.memory) ==> c.memory.attestId == LastAttest(c.chain.log)
  {
    PrefixShapes(cmd, c.memory.completed);
    if c.pc == SaveRegister {
      assert AttestPlan(cmd) != [];
    }
  }

  /** The file holds the id of the attestation it recorded last: the one issued last when it was saved. */
  lemma {:induction false} FileHoldsLastRecordedAttestation(cmd: Command, c: Config, events: seq<Event>)
    requires Initial(c)
    ensures var file := Exec(cmd, c, events).file;
            file.Saved? && HasAttestation(file.progress) ==> file.progress.attestId == LastAttest(SavedLog(cmd, c, events))
  {
    if events != [] {
      var n := |events| - 1;
      var before := Exec(cmd, c, events[..n]);
      FileHoldsLastRecordedAttestation(cmd, c, events[..n]);
      FileStep(cmd, before, events[n]);
      if SavesFile(before, events[n]) {
        AlwaysSound(cmd, c, events[..n]);
        SavesLastAttestation(cmd, before);
      }
    }
  }

  /** The completed steps: a prefix of the plan, without p and without repetition. */
  lemma StepsAreAPrefix(cmd: Command, completed: string)
    requires completed <= Plan(cmd)
    ensures 'p' !in completed
    ensures forall i, j :: 0 <= i < j < |completed| ==> completed[i] != completed[j]
  {
    assert forall i :: 0 <= i < |completed| ==> completed[i] == Plan(cmd)[i];
  }

  /** When no attestation step is left to do, the recorded attestation is the current one. */
  lemma AttestedFile(cmd: Command, p: Progress, chain: Chain)
    requires SoundProgress(cmd, p, chain) && HasAttestation(p)
    requires 'R' in cmd.letters ==> 'R' in p.completed
    ensures p.attestId == LastAttest(chain.log)
  {
    PrefixShapes(cmd, p.completed);
    assert AttestPlan(cmd) != [];
  }

  /** The state file of every reachable configuration, as a reader of the file sees it. */
  lemma StateFileInvariant(cmd: Command, c: Config, events: seq<Event>)
    requires Initial(c)
    ensures var now := Exec(cmd, c, events);
            now.file.Saved? ==>
              var p := now.file.progress;
              && p.completed <= Plan(cmd) && 'p' !in p.completed
              && (forall i, j :: 0 <= i < j < |p.completed| ==> p.completed[i] != p.completed[j])
              && (HasAttestation(p) <==> p.attestId != 0)
              && ('a' in p.completed <==> p.availId != 0)
              && (HasAttestation(p) ==> IssuedAttestation(now.chain.log, p.attestId))
              && (HasAttestation(p) ==> p.attestId == LastAttest(SavedLog(cmd, c, events)))
              && (HasAttestation(p) && ('R' in cmd.letters ==> 'R' in p.completed) ==> p.attestId == LastAttest(now.chain.log))
              && ('a' in p.completed ==> p.availId == LastAvailability(now.chain.log))
  {
    var now := Exec(cmd, c, events);
    AlwaysSound(cmd, c, events);
    IdsAreNotZero(cmd, c, events);
    FileHoldsLastRecordedAttestation(cmd, c, events);
    if now.file.Saved? {
      var p := now.file.progress;
      StepsAreAPrefix(cmd, p.completed);
      if HasAttestation(p) && ('R' in cmd.letters ==> 'R' in p.completed) {
        AttestedFile(cmd, p, now.chain);
      }
    }
  }

  lemma {:induction false} IdsAreNotZero(cmd: Command, c: Config, events: seq<Event>)
    requires Initial(c)
    ensures !IssuedAttestation(Exec(cmd, c, events).chain.log, 0)
  {
    if events != [] {
      var n := |events| - 1;
      var c' := Exec(cmd, c, events[..n]);
      IdsAreNotZero(cmd, c, events[..n]);
      StepChain(cmd, c', events[n]);
      NoZeroId(c', events[n]);
    }
  }

  lemma NoZeroId(c: Config, e: Event)
    requires !IssuedAttestation(c.chain.log, 0)
    ensures !IssuedAttestation(ChainAfter(c, e).log, 0)
  {
    var before, after := c.chain.log, ChainAfter(c, e).log;
    forall k | 0 <= k < |after| && IsAttestation(after[k]) ensures after[k].id != 0 {
      assert k < |before| ==> after[k] == before[k];
    }
  }

  /** Freshness over all runs, whether the id was obtained in this run or reloaded from the file. */
  lemma AvailabilityChecksAreFresh(cmd: Command, c: Config, events: seq<Event>)
    requires Initial(c)
    ensures 'r' in cmd.letters || 'R' in cmd.letters ==> ChecksAreFresh(Exec(cmd, c, events).chain.log)
    ensures 'a' in cmd.letters ==> PromotionsAreFresh(Exec(cmd, c, events).chain.log)
  {
    AlwaysSound(cmd, c, events);
    assert AttestPlan(cmd) != [] <==> 'r' in cmd.letters || 'R' in cmd.letters;
  }

  const NEW_MACHINE := Config(Missing, Chain(false, 0, []), Idle, NO_PROGRESS, 0, 0, NoRun)

  /** rRa, killed after R landed: r is saved with the attestation 1, and the chain has the attestation 2. */
  lemma KilledAfterAttest()
    ensures var stopped := Exec(Command("rRa", 0), NEW_MACHINE,
                                [Start(true, Done, Done), Answer(Done), Answer(Done), Answer(Done), Answer(Unseen)]);
            stopped.pc == Idle && stopped.file == Saved(Progress("r", 1, 0)) && stopped.chain.log == [Register(1), Attest(2)]
  {
    var rRa, go := Command("rRa", 0), Answer(Done);
    ExecFive(rRa, NEW_MACHINE, Start(true, Done, Done), go, go, go, Answer(Unseen));
    var c1 := Next(rRa, NEW_MACHINE, Start(true, Done, Done));
    var c3 := Next(rRa, Next(rRa, c1, go), go);
    assert c3.pc == SaveRegister && c3.memory == Progress("r", 1, 0);
  }

  /** ra resumes there: r is in the file, so the attestation of the file is taken. */
  lemma ResumesWithFileId(cmd: Command, c: Config)
    requires 'r' in cmd.letters && 'R' !in cmd.letters && 'a' in cmd.letters
    requires c.pc == Idle && c.file == Saved(Progress("r", 1, 0))
    ensures var started := Next(cmd, c, Start(true, Done, Done));
            started.pc == PolicyGate && started.attest == 1 && started.chain == c.chain
  {
  }

  /** It asks for the availability check with that attestation. */
  lemma ChecksWithFileId(cmd: Command, c: Config)
    requires c.pc == PolicyGate && c.attest == 1 && |c.chain.log| == 2
    ensures Next(cmd, Next(cmd, c, Answer(Done)), Answer(Done)).chain.log == c.chain.log + [CheckAvailability(3, 1)]
  {
  }

  /** Freshness needs the same letters on every run: here rRa is killed after R landed, and ra resumes. */
  lemma ChangedCommandIsStale()
    ensures var first := [Start(true, Done, Done), Answer(Done), Answer(Done), Answer(Done), Answer(Unseen)];
            var second := [Start(true, Done, Done), Answer(Done), Answer(Done)];
            Initial(NEW_MACHINE) &&
            !ChecksAreFresh(Exec(Command("ra", 0), Exec(Command("rRa", 0), NEW_MACHINE, first), second).chain.log)
  {
    KilledAfterAttest();
    var first := [Start(true, Done, Done), Answer(Done), Answer(Done), Answer(Done), Answer(Unseen)];
    var ra, stopped := Command("ra", 0), Exec(Command("rRa", 0), NEW_MACHINE, first);
    ExecThree(ra, stopped, Start(true, Done, Done), Answer(Done), Answer(Done));
    ResumesWithFileId(ra, stopped);
    ChecksWithFileId(ra, Next(ra, stopped, Start(true, Done, Done)));
    StaleCheck();
  }

  lemma StaleCheck()
    ensures !ChecksAreFresh([Register(1), Attest(2)] + [CheckAvailability(3, 1)])
  {
    var log := [Register(1), Attest(2)] + [CheckAvailability(3, 1)];
    assert log[..2] == [Register(1), Attest(2)];
    assert log[2].attestId == 1 && LastAttest(log[..2]) == 2;
  }

  lemma ExecThree(cmd: Command, c: Config, e1: Event, e2: Event, e3: Event)
    ensures Exec(cmd, c, [e1, e2, e3]) == Next(cmd, Next(cmd, Next(cmd, c, e1), e2), e3)
  {
    assert [e1, e2, e3] == [] + [e1] + [e2] + [e3];
    ExecOneMore(cmd, c, [], e1);
    ExecOneMore(cmd, c, [] + [e1], e2);
    ExecOneMore(cmd, c, [] + [e1] + [e2], e3);
  }

  lemma ExecFive(cmd: Command, c: Config, e1: Event, e2: Event, e3: Event, e4: Event, e5: Event)
    ensures Exec(cmd, c, [e1, e2, e3, e4, e5]) ==
            Next(cmd, Next(cmd, Next(cmd, Next(cmd, Next(cmd, c, e1), e2), e3), e4), e5)
  {
    ExecThree(cmd, c, e1, e2, e3);
    assert [e1, e2, e3, e4, e5] == [e1, e2, e3] + [e4] + [e5];
    ExecOneMore(cmd, c, [e1, e2, e3], e4);
    ExecOneMore(cmd, c, [e1, e2, e3] + [e4], e5);
  }

  // ----- crash and resume

  /** The state the operator set out to reach. */
  predicate Reached(cmd: Command, c: Config) {
    c.pc == Idle && c.ending == Succeeded && Finished(cmd, c.chain)
  }

  /** Every removal of the file at the end of a run lands. */
  predicate RemovesLand(cmd: Command, c: Config, events: seq<Event>) {
    events == [] ||
    var n := |events| - 1;
    && RemovesLand(cmd, c, events[..n])
    && (Exec(cmd, c, events[..n]).pc == RemoveFile && events[n].Answer? ==> Lands(events[n].reply))
  }

  predicate NoFileLeft(c: Config) {
    if c.pc == Idle then c.ending == Succeeded ==> c.file == Missing else c.ending == Running
  }

  lemma NoFileLeftStep(cmd: Command, c: Config, e: Event)
    requires NoFileLeft(c) && (c.pc == RemoveFile && e.Answer? ==> Lands(e.reply))
    ensures NoFileLeft(Next(cmd, c, e))
  {
  }

  /** If removals land, no state file is left behind a run that returned no error, however long ago it ended. */
  lemma {:induction false} SuccessLeavesNoFile(cmd: Command, c: Config, events: seq<Event>)
    requires Initial(c) && RemovesLand(cmd, c, events)
    ensures NoFileLeft(Exec(cmd, c, events))
  {
    if events != [] {
      var n := |events| - 1;
      SuccessLeavesNoFile(cmd, c, events[..n]);
      NoFileLeftStep(cmd, Exec(cmd, c, events[..n]), events[n]);
    }
  }

  /** One run, not stopped by anything: a start and then only answers. */
  predicate OneRun(events: seq<Event>) {
    events != [] && events[0].Start? && forall k :: 1 <= k < |events| ==> events[k].Answer?
  }

  /** What an operator sees after a run: the machine, its status, the file and how the run ended. */
  datatype Visible = Visible(recorded: bool, status: nat, file: File, ending: Ending)

  function Seen(c: Config): Visible {
    Visible(c.chain.recorded, c.chain.status, c.file, c.ending)
  }

  predicate EndsWell(cmd: Command, c: Config, events: seq<Event>) {
    Exec(cmd, c, events).pc == Idle && Exec(cmd, c, events).ending == Succeeded
  }

  lemma EndsInProduction(cmd: Command, c: Config, events: seq<Event>)
    requires Initial(c) && 'r' in cmd.letters && 'p' in cmd.letters
    requires EndsWell(cmd, c, events) && RemovesLand(cmd, c, events)
    ensures Seen(Exec(cmd, c, events)) == Visible(true, STATUS_PRODUCTION, Missing, Succeeded)
  {
    AlwaysSound(cmd, c, events);
    SuccessLeavesNoFile(cmd, c, events);
  }

  function Answers(n: nat): seq<Event> {
    seq(n, i => Answer(Done))
  }

  /** An upper bound on the calls left in a run in which no call fails. */
  function Rank(pc: Pc): nat {
    match pc
    case Idle => 0
    case RemoveFile => 1
    case ConfirmMachine => 2
    case SendPromote => 3
    case ReadStatus => 4
    case FetchProof => 5
    case SaveAvailability => 6
    case SendAvailability => 7
    case PolicyGate => 8
    case SaveAttest => 9
    case SendAttest => 10
    case SaveRegister => 11
    case SendFreshAttest => 12
    case SendRegister => 12
    case ReadMachine => 13
  }

  lemma DoneStep(cmd: Command, c: Config)
    requires c.pc != Idle && (c.pc == ConfirmMachine ==> c.chain.recorded)
    ensures var next := Next(cmd, c, Answer(Done));
            if next.pc == Idle then next.ending == Succeeded && next.file == Missing else Rank(next.pc) < Rank(c.pc)
  {
  }

  lemma AnswersCompose(cmd: Command, c: Config, n: nat)
    ensures Exec(cmd, c, Answers(0)) == c
    ensures Exec(cmd, c, Answers(n + 1)) == Exec(cmd, Next(cmd, c, Answer(Done)), Answers(n))
  {
    assert Answers(1) == [] + [Answer(Done)];
    ExecOneMore(cmd, c, [], Answer(Done));
    assert Answers(n + 1) == Answers(1) + Answers(n);
    ExecConcat(cmd, c, Answers(1), Answers(n));
  }

  /** The next configuration of a run in which no call fails, and what is known of it. */
  lemma DoneStepSound(cmd: Command, c: Config) returns (next: Config)
    requires Sound(cmd, c) && c.pc != Idle && 'r' in cmd.letters
    ensures Sound(cmd, next) && next == Next(cmd, c, Answer(Done))
    ensures if next.pc == Idle then Reached(cmd, next) && next.file == Missing else Rank(next.pc) < Rank(c.pc)
  {
    next := Next(cmd, c, Answer(Done));
    StepSound(cmd, c, Answer(Done));
    DoneStep(cmd, c);
  }

  ghost predicate FinishesIn(cmd: Command, c: Config, n: nat) {
    Reached(cmd, Exec(cmd, c, Answers(n))) && Exec(cmd, c, Answers(n)).file == Missing
  }

  lemma {:induction false} RunFinishes(cmd: Command, c: Config) returns (n: nat)
    requires Sound(cmd, c) && c.pc != Idle && 'r' in cmd.letters
    ensures n <= Rank(c.pc) && FinishesIn(cmd, c, n)
    decreases Rank(c.pc)
  {
    var next := DoneStepSound(cmd, c);
    if next.pc == Idle {
      n := 1;
      AnswersCompose(cmd, next, 0);
      AnswersCompose(cmd, c, 0);
    } else {
      var rest := RunFinishes(cmd, next);
      n := rest + 1;
      AnswersCompose(cmd, c, rest);
    }
  }

  lemma RunStarts(cmd: Command, c: Config, resume: bool, remove: Reply)
    requires c.pc == Idle && !c.file.Unparsable?
    ensures var begun := Next(cmd, c, Start(resume, remove, Done)); begun.pc != Idle && Rank(begun.pc) <= 13
  {
  }

  /** After this history, a run of n calls that all succeed ends with the machine registered and no state file. */
  predicate RunReaches(cmd: Command, c: Config, events: seq<Event>, start: Event, n: nat) {
    var end := Exec(cmd, c, events + [start] + Answers(n));
    Reached(cmd, end) && end.file == Missing
  }

  /**
   The next run works from wherever the earlier runs stopped, whether it resumes or
   starts afresh: if no call fails it ends within 13 calls, with the machine registered
   and no state file.
   */
  lemma NextRunSucceeds(cmd: Command, c: Config, events: seq<Event>, resume: bool, remove: Reply)
    requires Initial(c) && 'r' in cmd.letters
    requires Exec(cmd, c, events).pc == Idle
    ensures exists n: nat :: n <= 13 && RunReaches(cmd, c, events, Start(resume, remove, Done), n)
  {
    var stopped, start := Exec(cmd, c, events), Start(resume, remove, Done);
    var begun := Next(cmd, stopped, start);
    ExecOneMore(cmd, c, events, start);
    AlwaysSound(cmd, c, events);
    StepSound(cmd, stopped, start);
    FileIsParsable(cmd, c, events);
    RunStarts(cmd, stopped, resume, remove);
    var n := RunFinishes(cmd, begun);
    ExecConcat(cmd, c, events + [start], Answers(n));
    assert RunReaches(cmd, c, events, start, n);
  }

  lemma {:induction false} FileIsParsable(cmd: Command, c: Config, events: seq<Event>)
    requires Initial(c)
    ensures !Exec(cmd, c, events).file.Unparsable?
  {
    if events != [] {
      var n := |events| - 1;
      FileIsParsable(cmd, c, events[..n]);
      FileStep(cmd, Exec(cmd, c, events[..n]), events[n]);
    }
  }

  /** A run that no call fails exists from the start: it is one uninterrupted run. */
  lemma UninterruptedRunExists(cmd: Command, c: Config) returns (run: seq<Event>)
    requires Initial(c) && 'r' in cmd.letters && 'p' in cmd.letters
    ensures OneRun(run) && |run| <= 14 && Reached(cmd, Exec(cmd, c, run)) && Exec(cmd, c, run).file == Missing
  {
    NextRunSucceeds(cmd, c, [], true, Done);
    var n: nat :| n <= 13 && RunReaches(cmd, c, [], Start(true, Done, Done), n);
    run := [Start(true, Done, Done)] + Answers(n);
    assert [] + [Start(true, Done, Done)] + Answers(n) == run;
  }

  /**
   Crash and resume refinement: however many runs were stopped wherever, a history
   whose last run returned no error ends in a state that a single uninterrupted run
   from the start reaches, and that every uninterrupted run reaches if it returns no
   error. Nothing is left of the earlier attempts but the log.
   */
  lemma CrashResumeRefinement(cmd: Command, c: Config, events: seq<Event>)
    requires Initial(c) && 'r' in cmd.letters && 'p' in cmd.letters
    requires EndsWell(cmd, c, events) && RemovesLand(cmd, c, events)
    ensures Seen(Exec(cmd, c, events)) == Visible(true, STATUS_PRODUCTION, Missing, Succeeded)
    ensures exists run :: OneRun(run) && |run| <= 14 && Seen(Exec(cmd, c, run)) == Seen(Exec(cmd, c, events))
    ensures forall run :: OneRun(run) && EndsWell(cmd, c, run) && RemovesLand(cmd, c, run)
                          ==> Seen(Exec(cmd, c, run)) == Seen(Exec(cmd, c, events))
  {
    EndsInProduction(cmd, c, events);
    var one := UninterruptedRunExists(cmd, c);
    assert Seen(Exec(cmd, c, one)) == Seen(Exec(cmd, c, events));
    forall run | OneRun(run) && EndsWell(cmd, c, run) && RemovesLand(cmd, c, run)
      ensures Seen(Exec(cmd, c, run)) == Seen(Exec(cmd, c, events))
    {
      EndsInProduction(cmd, c, run);
    }
  }

  // ----- what is not done twice

  function Registrations(log: seq<Tx>): nat {
    if log == [] then 0
    else Registrations(log[..|log| - 1]) + (if log[|log| - 1].Register? then 1 else 0)
  }

  function Promotions(log: seq<Tx>): nat {
    if log == [] then 0
    else Promotions(log[..|log| - 1]) + (if log[|log| - 1].Promote? then 1 else 0)
  }

  lemma CountsGrow(log: seq<Tx>, tx: Tx)
    ensures Registrations(log + [tx]) == Registrations(log) + if tx.Register? then 1 else 0
    ensures Promotions(log + [tx]) == Promotions(log) + if tx.Promote? then 1 else 0
  {
    assert (log + [tx])[..|log|] == log;
  }

  /** The only steps that touch the chain are the transactions that land. */
  function ChainAfter(c: Config, e: Event): Chain {
    if !e.Answer? || !Lands(e.reply) then c.chain
    else
      match c.pc
      case SendRegister => AfterRegister(c.chain)
      case SendFreshAttest => AfterAttest(c.chain)
      case SendAttest => AfterAttest(c.chain)
      case SendAvailability => AfterAvailability(c.chain, c.attest)
      case SendPromote => AfterPromote(c.chain, c.avail)
      case _ => c.chain
  }

  lemma StepChain(cmd: Command, c: Config, e: Event)
    ensures Next(cmd, c, e).chain == ChainAfter(c, e)
  {
  }

  lemma ChainAfterCounts(c: Config, e: Event)
    ensures Registrations(ChainAfter(c, e).log) == Registrations(c.chain.log)
              + if c.pc == SendRegister && e.Answer? && Lands(e.reply) then 1 else 0
    ensures Promotions(ChainAfter(c, e).log) == Promotions(c.chain.log)
              + if c.pc == SendPromote && e.Answer? && Lands(e.reply) then 1 else 0
  {
    if ChainAfter(c, e).log != c.chain.log {
      CountsGrow(c.chain.log, ChainAfter(c, e).log[|c.chain.log|]);
    }
  }

  /** The process sends Register only after the read that should rule it out. */
  lemma RegisterIsGuarded(cmd: Command, c: Config, e: Event)
    ensures Next(cmd, c, e).pc == SendRegister ==>
              Next(cmd, c, e) == c || (c.pc == ReadMachine && e.Answer? && (e.reply != Done || !c.chain.recorded))
  {
  }

  /** The same for ToProduction. */
  lemma PromoteIsGuarded(cmd: Command, c: Config, e: Event)
    ensures Next(cmd, c, e).pc == SendPromote ==>
              Next(cmd, c, e) == c || (c.pc == ReadStatus && e.Answer? && (e.reply != Done || c.chain.status != STATUS_PRODUCTION))
  {
  }

  /** Every read of the kind `pc` that the process waits for is answered. */
  ghost predicate ReadsAnswered(cmd: Command, c: Config, events: seq<Event>, pc: Pc) {
    forall k :: 0 <= k < |events| && Exec(cmd, c, events[..k]).pc == pc && events[k].Answer? ==> events[k].reply == Done
  }

  lemma ReadsAnsweredBefore(cmd: Command, c: Config, events: seq<Event>, pc: Pc, n: nat)
    requires ReadsAnswered(cmd, c, events, pc) && n <= |events|
    ensures ReadsAnswered(cmd, c, events[..n], pc)
  {
    forall k | 0 <= k < n && Exec(cmd, c, events[..n][..k]).pc == pc && events[..n][k].Answer?
      ensures events[..n][k].reply == Done
    {
      assert events[..n][..k] == events[..k];
    }
  }

  /** Register landed once if the machine was not there before, and never if it was. */
  predicate RegisteredOnce(first: Config, now: Config) {
    && Registrations(now.chain.log) == (if now.chain.recorded && !first.chain.recorded then 1 else 0)
    && (now.pc == SendRegister ==> !now.chain.recorded)
    && (first.chain.recorded ==> now.chain.recorded)
  }

  lemma RegisteredOnceStep(cmd: Command, first: Config, c: Config, e: Event)
    requires RegisteredOnce(first, c) && (c.pc == ReadMachine && e.Answer? ==> e.reply == Done)
    ensures RegisteredOnce(first, Next(cmd, c, e))
  {
    StepChain(cmd, c, e);
    ChainAfterCounts(c, e);
    RegisterIsGuarded(cmd, c, e);
  }

  /** With reliable GetTeeMachine reads, Register lands at most once over all runs, fresh or resumed. */
  lemma {:induction false} RegistersAtMostOnce(cmd: Command, c: Config, events: seq<Event>)
    requires Initial(c) && ReadsAnswered(cmd, c, events, ReadMachine)
    ensures RegisteredOnce(c, Exec(cmd, c, events))
  {
    if events != [] {
      var n := |events| - 1;
      ReadsAnsweredBefore(cmd, c, events, ReadMachine, n);
      RegistersAtMostOnce(cmd, c, events[..n]);
      RegisteredOnceStep(cmd, c, Exec(cmd, c, events[..n]), events[n]);
    }
  }

  predicate LeftAlone(first: Config, now: Config) {
    && now.chain.recorded && now.chain.status == STATUS_PRODUCTION
    && Registrations(now.chain.log) == Registrations(first.chain.log)
    && Promotions(now.chain.log) == Promotions(first.chain.log)
    && now.pc != SendRegister && now.pc != SendPromote
  }

  lemma LeftAloneStep(cmd: Command, first: Config, c: Config, e: Event)
    requires LeftAlone(first, c) && ((c.pc == ReadMachine || c.pc == ReadStatus) && e.Answer? ==> e.reply == Done)
    ensures LeftAlone(first, Next(cmd, c, e))
  {
    StepChain(cmd, c, e);
    ChainAfterCounts(c, e);
    RegisterIsGuarded(cmd, c, e);
    PromoteIsGuarded(cmd, c, e);
  }

  /**
   A registered machine in production is left alone: later runs, fresh or resumed,
   make no Register and no ToProduction transaction while the two status reads work.
   */
  lemma {:induction false} SettledMachineIsLeftAlone(cmd: Command, c: Config, events: seq<Event>)
    requires c.pc == Idle && c.chain.recorded && c.chain.status == STATUS_PRODUCTION
    requires ReadsAnswered(cmd, c, events, ReadMachine) && ReadsAnswered(cmd, c, events, ReadStatus)
    ensures LeftAlone(c, Exec(cmd, c, events))
  {
    if events != [] {
      var n := |events| - 1;
      ReadsAnsweredBefore(cmd, c, events, ReadMachine, n);
      ReadsAnsweredBefore(cmd, c, events, ReadStatus, n);
      SettledMachineIsLeftAlone(cmd, c, events[..n]);
      LeftAloneStep(cmd, c, Exec(cmd, c, events[..n]), events[n]);
    }
  }

  // ----- bounded repetition

  /** The calls that carry out the step of a letter. */
  predicate Executes(letter: char, pc: Pc) {
    match pc
    case SendRegister => letter == 'r'
    case SendFreshAttest => letter == 'r'
    case SendAttest => letter == 'R'
    case SendAvailability => letter == 'a'
    case _ => false
  }

  predicate InFile(letter: char, file: File) {
    file.Saved? && letter in file.progress.completed
  }

  predicate Landed(letter: char, c: Config, e: Event) {
    Executes(letter, c.pc) && e.Answer? && Lands(e.reply)
  }

  /** The run deletes the file because it is complete. */
  predicate Completes(c: Config, e: Event) {
    c.pc == RemoveFile && e.Answer? && Lands(e.reply)
  }

  /** A run that made the step's transaction ends, and no file tells the next run about it. */
  predicate Interrupted(letter: char, cmd: Command, c: Config, e: Event) {
    && c.pc != Idle && Next(cmd, c, e).pc == Idle && !Completes(c, e)
    && (Landed(letter, c, e) || letter in c.memory.completed)
    && !InFile(letter, Next(cmd, c, e).file)
  }

  /** The record of the step is deleted: by a completed run, or by a run started afresh. */
  predicate Retired(letter: char, cmd: Command, c: Config, e: Event) {
    || (Completes(c, e) && letter in c.memory.completed)
    || (c.pc == Idle && e.Start? && InFile(letter, c.file) && Next(cmd, c, e).file == Missing)
  }

  function Executions(letter: char, cmd: Command, c: Config, events: seq<Event>): nat {
    if events == [] then 0
    else
      var n := |events| - 1;
      Executions(letter, cmd, c, events[..n]) + if Landed(letter, Exec(cmd, c, events[..n]), events[n]) then 1 else 0
  }

  function Interruptions(letter: char, cmd: Command, c: Config, events: seq<Event>): nat {
    if events == [] then 0
    else
      var n := |events| - 1;
      Interruptions(letter, cmd, c, events[..n]) + if Interrupted(letter, cmd, Exec(cmd, c, events[..n]), events[n]) then 1 else 0
  }

  function Retirements(letter: char, cmd: Command, c: Config, events: seq<Event>): nat {
    if events == [] then 0
    else
      var n := |events| - 1;
      Retirements(letter, cmd, c, events[..n]) + if Retired(letter, cmd, Exec(cmd, c, events[..n]), events[n]) then 1 else 0
  }

  /** The step counts as done: in the file between runs, in memory during a run. */
  predicate Held(letter: char, c: Config) {
    if c.pc == Idle then InFile(letter, c.file) else letter in c.memory.completed
  }

  /** While a run is under way the file never knows a step the process does not. */
  lemma HeldFacts(letter: char, cmd: Command, c: Config)
    requires letter in "rRa" && Sound(cmd, c) && c.pc != Idle
    ensures InFile(letter, c.file) ==> letter in c.memory.completed
    ensures Executes(letter, c.pc) ==> letter !in c.memory.completed
  {
    PrefixShapes(cmd, c.memory.completed);
  }

  function Unit(b: bool): nat {
    if b then 1 else 0
  }

  lemma HeldStepBegin(letter: char, cmd: Command, c: Config, e: Event)
    requires c.pc == Idle && !c.file.Unparsable?
    ensures Unit(Held(letter, c)) == Unit(Held(letter, Next(cmd, c, e))) + Unit(Retired(letter, cmd, c, e))
  {
  }

  lemma HeldStepRun(letter: char, cmd: Command, c: Config, e: Event)
    requires letter in "rRa" && c.pc != Idle
    requires InFile(letter, c.file) ==> letter in c.memory.completed
    requires Executes(letter, c.pc) ==> letter !in c.memory.completed
    ensures Unit(Held(letter, c)) + Unit(Landed(letter, c, e))
         == Unit(Held(letter, Next(cmd, c, e))) + Unit(Interrupted(letter, cmd, c, e)) + Unit(Retired(letter, cmd, c, e))
  {
  }

  /** Conservation: every execution of a step was interrupted, or retired, or is still on record. */
  lemma {:induction false} ExecutionsAreAccountedFor(letter: char, cmd: Command, c: Config, events: seq<Event>)
    requires Initial(c) && letter in "rRa"
    ensures Executions(letter, cmd, c, events)
         == Interruptions(letter, cmd, c, events) + Retirements(letter, cmd, c, events)
            + if Held(letter, Exec(cmd, c, events)) then 1 else 0
  {
    if events != [] {
      var n := |events| - 1;
      ExecutionsAreAccountedFor(letter, cmd, c, events[..n]);
      AlwaysSound(cmd, c, events[..n]);
      var before := Exec(cmd, c, events[..n]);
      if before.pc == Idle {
        FileIsParsable(cmd, c, events[..n]);
        HeldStepBegin(letter, cmd, before, events[n]);
      } else {
        HeldFacts(letter, cmd, before);
        HeldStepRun(letter, cmd, before, events[n]);
      }
    }
  }

  /** Until a run completes or starts afresh, a step runs once plus the times it was interrupted. */
  lemma AtMostOncePlusInterruptions(letter: char, cmd: Command, c: Config, events: seq<Event>)
    requires Initial(c) && letter in "rRa" && Retirements(letter, cmd, c, events) == 0
    ensures Executions(letter, cmd, c, events) <= 1 + Interruptions(letter, cmd, c, events)
  {
    ExecutionsAreAccountedFor(letter, cmd, c, events);
  }

  /** The steps a resumed run still has to do. */
  function Unsaved(cmd: Command, file: File): int {
    |Plan(cmd)| - if file.Saved? then |file.progress.completed| else 0
  }

  predicate SavesFile(c: Config, e: Event) {
    (c.pc == SaveRegister || c.pc == SaveAttest || c.pc == SaveAvailability) && e.Answer? && Lands(e.reply)
  }

  lemma FileStep(cmd: Command, c: Config, e: Event)
    ensures var next := Next(cmd, c, e);
            next.file == if SavesFile(c, e) then Saved(c.memory)
                         else if Completes(c, e) || (c.pc == Idle && e.Start? && !e.resume && Lands(e.remove)) then Missing
                         else c.file
  {
  }

  lemma UnsavedBounds(cmd: Command, c: Config)
    requires Sound(cmd, c)
    ensures 0 <= Unsaved(cmd, c.file) <= |Plan(cmd)|
    ensures c.pc == SaveRegister || c.pc == SaveAttest || c.pc == SaveAvailability ==>
              Unsaved(cmd, Saved(c.memory)) < Unsaved(cmd, c.file)
  {
  }

  /** Progress: resumed runs never lose a saved step, and each save that lands adds at least one. */
  lemma SavesMakeProgress(cmd: Command, c: Config, events: seq<Event>, e: Event)
    requires Initial(c)
    ensures var now := Exec(cmd, c, events);
            var next := Next(cmd, now, e);
            && 0 <= Unsaved(cmd, now.file) <= |Plan(cmd)|
            && (!Completes(now, e) && !(e.Start? && !e.resume) ==> Unsaved(cmd, next.file) <= Unsaved(cmd, now.file))
            && (SavesFile(now, e) ==> Unsaved(cmd, next.file) < Unsaved(cmd, now.file))
  {
    var now := Exec(cmd, c, events);
    AlwaysSound(cmd, c, events);
    UnsavedBounds(cmd, now);
    FileStep(cmd, now, e);
  }

  /** The flow depends on which letters the command has, not on their order or number. */
  lemma {:induction false} LetterOrderIsIrrelevant(one: Command, other: Command, c: Config, events: seq<Event>)
    requires one.instruction == other.instruction
    requires forall letter :: letter in "rRap" ==> (letter in one.letters <==> letter in other.letters)
    ensures Exec(one, c, events) == Exec(other, c, events)
  {
    if events != [] {
      var n := |events| - 1;
      LetterOrderIsIrrelevant(one, other, c, events[..n]);
      assert 'r' in "rRap" && 'R' in "rRap" && 'a' in "rRap" && 'p' in "rRap";
    }
  }
}
