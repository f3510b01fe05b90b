/**
 What every history of runs keeps: the shape of the state file, the freshness of
 the instruction ids, and what a run that returned without error has established.
 The command letters are the same in every run.
 */
module RegistrationSafety {
  import opened RegistrationProtocol

  // ----- the specification, on the file and the transaction log alone

  function Part(cmd: Command, letter: char): string {
    if letter in cmd.letters then [letter] else []
  }

  /** The attestation letters of the command, and all letters that are recorded in the file. */
  function AttestPlan(cmd: Command): string {
    Part(cmd, 'r') + Part(cmd, 'R')
  }

  function Plan(cmd: Command): string {
    AttestPlan(cmd) + Part(cmd, 'a')
  }

  predicate IsAttestation(tx: Tx) {
    tx.Register? || tx.Attest?
  }

  /** The attestation instruction issued last; zero if there is none. */
  function LastAttest(log: seq<Tx>): Hash {
    if log == [] then 0
    else if IsAttestation(log[|log| - 1]) then log[|log| - 1].id
    else LastAttest(log[..|log| - 1])
  }

  /** The availability check issued last; zero if there is none. */
  function LastAvailability(log: seq<Tx>): Hash {
    if log == [] then 0
    else if log[|log| - 1].CheckAvailability? then log[|log| - 1].id
    else LastAvailability(log[..|log| - 1])
  }

  ghost predicate IssuedAttestation(log: seq<Tx>, id: Hash) {
    exists k :: 0 <= k < |log| && IsAttestation(log[k]) && log[k].id == id
  }

  /** Every availability check carries the attestation issued last at that moment. */
  ghost predicate ChecksAreFresh(log: seq<Tx>) {
    forall k :: 0 <= k < |log| && log[k].CheckAvailability? ==> log[k].attestId == LastAttest(log[..k])
  }

  /** Every promotion uses the proof of the availability check issued last at that moment. */
  ghost predicate PromotionsAreFresh(log: seq<Tx>) {
    forall k :: 0 <= k < |log| && log[k].Promote? ==> log[k].availId == LastAvailability(log[..k])
  }

  /**
   The progress of a run is a prefix of the plan, and its ids are what the completed
   steps obtained. The attestation id is the current one as soon as no attestation
   step is left, and the availability id is there exactly when its step is.
   */
  ghost predicate SoundProgress(cmd: Command, p: Progress, chain: Chain) {
    && p.completed <= Plan(cmd)
    && ('r' in p.completed ==> chain.recorded)
    && (if 'r' in p.completed || 'R' in p.completed then IssuedAttestation(chain.log, p.attestId) else p.attestId == 0)
    && (AttestPlan(cmd) <= p.completed && AttestPlan(cmd) != [] ==> p.attestId == LastAttest(chain.log))
    && (if 'a' in p.completed then p.availId != 0 && p.availId == LastAvailability(chain.log) else p.availId == 0)
  }

  ghost predicate SoundFile(cmd: Command, file: File, chain: Chain) {
    file.Saved? ==> SoundProgress(cmd, file.progress, chain)
  }

  // ----- the invariant

  /** How much of the plan is done while the process waits for a call. */
  function DoneAt(cmd: Command, pc: Pc): string
    requires pc != Idle
  {
    match pc
    case ReadMachine | SendRegister | SendFreshAttest => []
    case SaveRegister | SendAttest => Part(cmd, 'r')
    case SaveAttest | PolicyGate | SendAvailability => AttestPlan(cmd)
    case _ => Plan(cmd)
  }

  /** How much of the plan the file can hold at most: a step is not in the file before its save. */
  function SavedAt(cmd: Command, pc: Pc): string
    requires pc != Idle
  {
    match pc
    case SaveRegister => []
    case SaveAttest => Part(cmd, 'r')
    case SaveAvailability => AttestPlan(cmd)
    case _ => DoneAt(cmd, pc)
  }

  /** The letter whose step the process is in, as far as the command must contain it. */
  predicate InPlan(cmd: Command, pc: Pc) {
    match pc
    case ReadMachine | SendRegister | SendFreshAttest | SaveRegister => 'r' in cmd.letters
    case SendAttest | SaveAttest => 'R' in cmd.letters
    case PolicyGate | SendAvailability | SaveAvailability => 'a' in cmd.letters
    case FetchProof | ReadStatus | SendPromote | ConfirmMachine => 'p' in cmd.letters
    case _ => true
  }

  /** The saved progress is never ahead of the process that continues it. */
  predicate NotAhead(file: File, done: string) {
    file.Saved? ==> file.progress.completed <= done
  }

  ghost predicate Sound(cmd: Command, c: Config) {
    && SoundFile(cmd, c.file, c.chain)
    && (AttestPlan(cmd) != [] ==> ChecksAreFresh(c.chain.log))
    && ('a' in cmd.letters ==> PromotionsAreFresh(c.chain.log))
    && (c.pc == Idle && c.ending == Succeeded ==> Finished(cmd, c.chain))
    && (c.pc != Idle ==> SoundRun(cmd, c))
  }

  ghost predicate SoundRun(cmd: Command, c: Config)
    requires c.pc != Idle
  {
    && InPlan(cmd, c.pc)
    && SoundProgress(cmd, c.memory, c.chain)
    && c.memory.completed == DoneAt(cmd, c.pc)
    && NotAhead(c.file, SavedAt(cmd, c.pc))
    && c.ending == Running
    && (c.pc == SaveRegister ==> c.memory.attestId == c.attest)
    && (c.pc == SendFreshAttest || (c.pc == ConfirmMachine && 'r' in cmd.letters) ==> c.chain.recorded)
    && ((c.pc.SaveRegister? || c.pc.SaveAttest? || c.pc.PolicyGate? || c.pc.SendAvailability?) && AttestPlan(cmd) != []
        ==> c.attest == LastAttest(c.chain.log))
    && ((c.pc.SaveAvailability? || c.pc.FetchProof? || c.pc.ReadStatus? || c.pc.SendPromote?) && 'a' in cmd.letters ==> c.avail == LastAvailability(c.chain.log))
    && ((c.pc.ConfirmMachine? || c.pc.RemoveFile?) && 'p' in cmd.letters ==> c.chain.status == STATUS_PRODUCTION)
  }

  /** What a run that returned no error leaves on the chain. */
  predicate Finished(cmd: Command, chain: Chain) {
    && ('r' in cmd.letters ==> chain.recorded)
    && ('p' in cmd.letters ==> chain.status == STATUS_PRODUCTION)
  }

  lemma LogGrows(log: seq<Tx>, tx: Tx)
    ensures LastAttest(log + [tx]) == if IsAttestation(tx) then tx.id else LastAttest(log)
    ensures LastAvailability(log + [tx]) == if tx.CheckAvailability? then tx.id else LastAvailability(log)
    ensures forall id :: IssuedAttestation(log, id) ==> IssuedAttestation(log + [tx], id)
    ensures IsAttestation(tx) ==> IssuedAttestation(log + [tx], tx.id)
    ensures ChecksAreFresh(log) && (tx.CheckAvailability? ==> tx.attestId == LastAttest(log)) ==> ChecksAreFresh(log + [tx])
    ensures PromotionsAreFresh(log) && (tx.Promote? ==> tx.availId == LastAvailability(log)) ==> PromotionsAreFresh(log + [tx])
  {
    var grown := log + [tx];
    assert grown[..|log|] == log;
    assert forall k :: 0 <= k < |log| ==> grown[k] == log[k] && grown[..k] == log[..k];
    forall id | IssuedAttestation(log, id) ensures IssuedAttestation(grown, id) {
      var k :| 0 <= k < |log| && IsAttestation(log[k]) && log[k].id == id;
      assert grown[k] == log[k];
    }
    if IsAttestation(tx) {
      assert grown[|log|] == tx;
    }
  }

  /** The shapes a prefix of the plan can have. */
  lemma PrefixShapes(cmd: Command, done: string)
    requires done <= Plan(cmd)
    ensures 'r' in done <==> 'r' in cmd.letters && Part(cmd, 'r') <= done
    ensures 'R' in done <==> 'R' in cmd.letters && AttestPlan(cmd) <= done
    ensures 'a' in done <==> 'a' in cmd.letters && done == Plan(cmd)
    ensures 'r' !in done && 'r' in cmd.letters ==> done == []
    ensures Part(cmd, 'r') <= done && 'R' !in done && 'R' in cmd.letters ==> done == Part(cmd, 'r')
    ensures AttestPlan(cmd) <= done && 'a' !in done ==> done == AttestPlan(cmd)
    ensures 'a' !in cmd.letters ==> Plan(cmd) == AttestPlan(cmd)
    ensures 'R' !in cmd.letters ==> AttestPlan(cmd) == Part(cmd, 'r')
  {
    var plan, r, n := Plan(cmd), |Part(cmd, 'r')|, |AttestPlan(cmd)|;
    assert done == plan[..|done|];
    assert 'r' in cmd.letters ==> plan[0] == 'r';
    assert 'R' in cmd.letters ==> plan[r] == 'R' && n == r + 1;
    assert 'a' in cmd.letters ==> plan[n] == 'a';
    assert 'r' in cmd.letters && 0 < |done| ==> done[0] == 'r';
    assert 'R' in cmd.letters && r < |done| ==> done[r] == 'R';
    assert 'a' in cmd.letters && n < |done| ==> done[n] == 'a';
  }

  /** A transaction does not spoil recorded progress that lacks the step it belongs to. */
  lemma ProgressSurvives(cmd: Command, p: Progress, chain: Chain, after: Chain, tx: Tx)
    requires SoundProgress(cmd, p, chain)
    requires after.log == chain.log + [tx] && (chain.recorded ==> after.recorded)
    requires IsAttestation(tx) ==> !(AttestPlan(cmd) <= p.completed)
    requires tx.CheckAvailability? ==> 'a' !in p.completed
    ensures SoundProgress(cmd, p, after)
  {
    LogGrows(chain.log, tx);
  }

  lemma EnterAvailabilitySound(cmd: Command, c: Config)
    requires c.ending == Running && SoundFile(cmd, c.file, c.chain)
    requires AttestPlan(cmd) != [] ==> ChecksAreFresh(c.chain.log) && c.attest == LastAttest(c.chain.log)
    requires 'a' in cmd.letters ==> PromotionsAreFresh(c.chain.log)
    requires SoundProgress(cmd, c.memory, c.chain) && NotAhead(c.file, c.memory.completed)
    requires AttestPlan(cmd) <= c.memory.completed
    ensures Sound(cmd, EnterAvailability(cmd, c))
  {
    PrefixShapes(cmd, c.memory.completed);
  }

  lemma EnterAttestSound(cmd: Command, c: Config)
    requires c.ending == Running && SoundFile(cmd, c.file, c.chain)
    requires AttestPlan(cmd) != [] ==> ChecksAreFresh(c.chain.log)
    requires 'a' in cmd.letters ==> PromotionsAreFresh(c.chain.log)
    requires SoundProgress(cmd, c.memory, c.chain) && NotAhead(c.file, c.memory.completed)
    requires Part(cmd, 'r') <= c.memory.completed
    requires 'r' in cmd.letters && 'R' !in cmd.letters ==> c.attest == LastAttest(c.chain.log)
    ensures Sound(cmd, EnterAttest(cmd, c))
  {
    PrefixShapes(cmd, c.memory.completed);
    if 'R' !in cmd.letters {
      EnterAvailabilitySound(cmd, c);
    } else if 'R' in c.memory.completed {
      EnterAvailabilitySound(cmd, c.(attest := c.memory.attestId));
    }
  }

  lemma BeginSound(cmd: Command, c: Config, resume: bool, remove: Reply, load: Reply)
    requires c.pc == Idle && Sound(cmd, c)
    ensures Sound(cmd, Begin(cmd, c, resume, remove, load))
  {
    var file := if !resume && Lands(remove) then Missing else c.file;
    if load == Done && !file.Unparsable? {
      var memory := if file.Saved? then file.progress else NO_PROGRESS;
      var loaded := Config(file, c.chain, Idle, memory, 0, 0, Running);
      assert SoundProgress(cmd, memory, c.chain);
      PrefixShapes(cmd, memory.completed);
      if 'r' !in cmd.letters {
        EnterAttestSound(cmd, loaded);
      } else if 'r' in memory.completed {
        EnterAttestSound(cmd, loaded.(attest := memory.attestId));
      }
    }
  }

  /** A transaction of a step that is not yet saved leaves the file sound. */
  lemma FileSurvives(cmd: Command, file: File, done: string, chain: Chain, after: Chain, tx: Tx)
    requires SoundFile(cmd, file, chain) && NotAhead(file, done)
    requires after.log == chain.log + [tx] && (chain.recorded ==> after.recorded)
    requires IsAttestation(tx) ==> !(AttestPlan(cmd) <= done)
    requires tx.CheckAvailability? ==> 'a' !in done
    ensures SoundFile(cmd, file, after)
  {
    if file.Saved? {
      ProgressSurvives(cmd, file.progress, chain, after, tx);
    }
  }

  /** The plan with one more attestation letter, and what is then known of it. */
  lemma AttestSteps(cmd: Command, letter: char)
    requires letter in cmd.letters && (letter == 'r' || letter == 'R')
    ensures var done := if letter == 'r' then [] else Part(cmd, 'r');
            && done + [letter] == (if letter == 'r' then Part(cmd, 'r') else AttestPlan(cmd))
            && done + [letter] <= Plan(cmd)
            && !(AttestPlan(cmd) <= done)
            && 'a' !in done + [letter]
  {
    if 'R' in cmd.letters {
      assert AttestPlan(cmd)[|AttestPlan(cmd)| - 1] == 'R';
    }
  }

  /** The progress after a landed attestation: its id is the current one. */
  lemma AttestedProgress(cmd: Command, p: Progress, letter: char, id: Hash, after: Chain)
    requires letter in cmd.letters && (letter == 'r' || letter == 'R')
    requires p.completed == (if letter == 'r' then [] else Part(cmd, 'r')) && p.availId == 0
    requires IssuedAttestation(after.log, id) && id == LastAttest(after.log)
    requires letter == 'r' || 'r' in p.completed ==> after.recorded
    ensures SoundProgress(cmd, p.(completed := p.completed + [letter], attestId := id), after)
  {
    AttestSteps(cmd, letter);
  }

  /** Before an attestation step nothing behind it is done. */
  lemma BeforeAttestation(cmd: Command, c: Config, letter: char)
    requires c.pc != Idle && SoundRun(cmd, c)
    requires letter == if c.pc == SendAttest then 'R' else 'r'
    requires c.pc.SendRegister? || c.pc.SendFreshAttest? || c.pc.SendAttest?
    ensures letter in cmd.letters && c.memory.completed == (if letter == 'r' then [] else Part(cmd, 'r'))
    ensures c.memory.availId == 0
    ensures 'r' in c.memory.completed ==> c.chain.recorded
    ensures NotAhead(c.file, c.memory.completed) && !(AttestPlan(cmd) <= c.memory.completed)
  {
    AttestSteps(cmd, letter);
  }

  /** The run goes on to save the step. */
  lemma AttestedRun(cmd: Command, c: Config, letter: char, pc: Pc, after: Chain)
    requires letter in cmd.letters && ((letter == 'r' && pc == SaveRegister) || (letter == 'R' && pc == SaveAttest))
    requires c.ending == Running && NextId(c.chain) == LastAttest(after.log)
    requires c.memory.completed == (if letter == 'r' then [] else Part(cmd, 'r')) && NotAhead(c.file, c.memory.completed)
    requires SoundProgress(cmd, WithAttest(c, letter, pc).memory, after)
    ensures SoundRun(cmd, WithAttest(c, letter, pc).(chain := after))
  {
    AttestSteps(cmd, letter);
  }

  /** A landed attestation: the old file stays sound, and so does the longer progress. */
  lemma AttestationSound(cmd: Command, c: Config, letter: char, pc: Pc, after: Chain, tx: Tx)
    requires Sound(cmd, c)
    requires ((c.pc.SendRegister? || c.pc.SendFreshAttest?) && letter == 'r' && pc == SaveRegister)
          || (c.pc == SendAttest && letter == 'R' && pc == SaveAttest)
    requires IsAttestation(tx) && tx.id == NextId(c.chain) && after.log == c.chain.log + [tx]
    requires after.recorded == (c.chain.recorded || tx.Register?)
    requires c.pc == SendRegister ==> tx.Register?
    ensures Sound(cmd, WithAttest(c, letter, pc).(chain := after))
  {
    var next := WithAttest(c, letter, pc).(chain := after);
    BeforeAttestation(cmd, c, letter);
    LogGrows(c.chain.log, tx);
    FileSurvives(cmd, c.file, c.memory.completed, c.chain, after, tx);
    AttestedProgress(cmd, c.memory, letter, tx.id, after);
    AttestedRun(cmd, c, letter, pc, after);
  }

  /** The progress after a landed availability check is the whole plan. */
  lemma CheckedProgress(cmd: Command, p: Progress, id: Hash, after: Chain)
    requires SoundProgress(cmd, p, after) && 'a' in cmd.letters && p.completed == AttestPlan(cmd)
    requires id != 0 && id == LastAvailability(after.log)
    ensures p.completed + ['a'] == Plan(cmd) && 'a' !in p.completed
    ensures SoundProgress(cmd, p.(completed := p.completed + ['a'], availId := id), after)
  {
  }

  lemma AvailabilitySound(cmd: Command, c: Config)
    requires Sound(cmd, c) && c.pc == SendAvailability
    ensures Sound(cmd, WithAvailability(c).(chain := AfterAvailability(c.chain, c.attest)))
  {
    var after := AfterAvailability(c.chain, c.attest);
    var tx := CheckAvailability(NextId(c.chain), c.attest);
    LogGrows(c.chain.log, tx);
    PrefixShapes(cmd, c.memory.completed);
    assert 'a' !in c.memory.completed;
    ProgressSurvives(cmd, c.memory, c.chain, after, tx);
    FileSurvives(cmd, c.file, c.memory.completed, c.chain, after, tx);
    CheckedProgress(cmd, c.memory, tx.id, after);
    CheckedRun(cmd, c, after);
  }

  /** The run goes on to save the check. */
  lemma CheckedRun(cmd: Command, c: Config, after: Chain)
    requires c.ending == Running && 'a' in cmd.letters && NextId(c.chain) == LastAvailability(after.log)
    requires c.memory.completed == AttestPlan(cmd) && NotAhead(c.file, c.memory.completed)
    requires SoundProgress(cmd, WithAvailability(c).memory, after)
    ensures SoundRun(cmd, WithAvailability(c).(chain := after))
  {
  }

  lemma PromoteSound(cmd: Command, c: Config)
    requires Sound(cmd, c) && c.pc == SendPromote
    ensures Sound(cmd, c.(pc := ConfirmMachine, chain := AfterPromote(c.chain, c.avail)))
  {
    var after := AfterPromote(c.chain, c.avail);
    LogGrows(c.chain.log, Promote(c.avail));
    PrefixShapes(cmd, c.memory.completed);
    ProgressSurvives(cmd, c.memory, c.chain, after, Promote(c.avail));
    FileSurvives(cmd, c.file, c.memory.completed, c.chain, after, Promote(c.avail));
    assert SoundRun(cmd, c.(pc := ConfirmMachine, chain := after));
  }

  lemma EnterProductionSound(cmd: Command, c: Config)
    requires c.ending == Running && SoundFile(cmd, c.file, c.chain)
    requires AttestPlan(cmd) != [] ==> ChecksAreFresh(c.chain.log)
    requires 'a' in cmd.letters ==> PromotionsAreFresh(c.chain.log) && c.avail == LastAvailability(c.chain.log)
    requires SoundProgress(cmd, c.memory, c.chain) && NotAhead(c.file, c.memory.completed)
    requires c.memory.completed == Plan(cmd)
    ensures Sound(cmd, EnterProduction(cmd, c))
  {
  }

  /** The calls that change nothing on the chain and save no progress. */
  lemma LookupSound(cmd: Command, c: Config, r: Reply)
    requires Sound(cmd, c)
    requires c.pc.ReadMachine? || c.pc.PolicyGate?
    ensures Sound(cmd, OnAnswer(cmd, c, r))
  {
  }

  lemma FetchSound(cmd: Command, c: Config, r: Reply)
    requires Sound(cmd, c) && c.pc.FetchProof?
    ensures Sound(cmd, OnAnswer(cmd, c, r))
  {
  }

  lemma ReadStatusSound(cmd: Command, c: Config, r: Reply)
    requires Sound(cmd, c) && c.pc.ReadStatus?
    ensures Sound(cmd, OnAnswer(cmd, c, r))
  {
  }

  lemma ConfirmSound(cmd: Command, c: Config, r: Reply)
    requires Sound(cmd, c) && c.pc.ConfirmMachine?
    ensures Sound(cmd, OnAnswer(cmd, c, r))
  {
  }

  lemma RemoveSound(cmd: Command, c: Config, r: Reply)
    requires Sound(cmd, c) && c.pc.RemoveFile?
    ensures Sound(cmd, OnAnswer(cmd, c, r))
  {
    RunFinished(cmd, c);
  }

  lemma RunFinished(cmd: Command, c: Config)
    requires c.pc.RemoveFile? && SoundRun(cmd, c)
    ensures Finished(cmd, c.chain)
  {
    PrefixShapes(cmd, c.memory.completed);
  }

  /** The record that was in memory is now in the file. */
  lemma SavedSound(cmd: Command, c: Config, r: Reply)
    requires Sound(cmd, c) && (c.pc.SaveRegister? || c.pc.SaveAttest? || c.pc.SaveAvailability?)
    ensures var saved := Save(c, r);
            && SoundFile(cmd, saved.file, c.chain) && NotAhead(saved.file, c.memory.completed)
            && saved == c.(file := saved.file)
  {
    PrefixShapes(cmd, c.memory.completed);
  }

  lemma SaveSound(cmd: Command, c: Config, r: Reply)
    requires Sound(cmd, c) && (c.pc.SaveRegister? || c.pc.SaveAttest? || c.pc.SaveAvailability?)
    ensures Sound(cmd, OnAnswer(cmd, c, r))
  {
    SavedSound(cmd, c, r);
    if c.pc == SaveRegister {
      EnterAttestSound(cmd, Save(c, r));
    } else if c.pc == SaveAttest {
      EnterAvailabilitySound(cmd, Save(c, r));
    } else {
      EnterProductionSound(cmd, Save(c, r));
    }
  }

  /** A transaction whose success is sound is sound when it fails: no outcome touches the file. */
  lemma TransactSound(cmd: Command, c: Config, r: Reply, after: Chain, next: Config)
    requires Sound(cmd, c)
    requires Sound(cmd, next.(chain := after)) && next.file == c.file
    ensures Sound(cmd, Transact(c, r, after, next))
  {
  }

  lemma AttestTransactionSound(cmd: Command, c: Config, r: Reply)
    requires Sound(cmd, c) && (c.pc.SendFreshAttest? || c.pc.SendAttest?)
    ensures Sound(cmd, OnAnswer(cmd, c, r))
  {
    var letter, pc := if c.pc.SendAttest? then 'R' else 'r', if c.pc.SendAttest? then SaveAttest else SaveRegister;
    AttestationSound(cmd, c, letter, pc, AfterAttest(c.chain), Attest(NextId(c.chain)));
    TransactSound(cmd, c, r, AfterAttest(c.chain), WithAttest(c, letter, pc));
  }

  lemma RegisterTransactionSound(cmd: Command, c: Config, r: Reply)
    requires Sound(cmd, c) && c.pc.SendRegister?
    ensures Sound(cmd, OnAnswer(cmd, c, r))
  {
    AttestationSound(cmd, c, 'r', SaveRegister, AfterRegister(c.chain), Register(NextId(c.chain)));
    TransactSound(cmd, c, r, AfterRegister(c.chain), WithAttest(c, 'r', SaveRegister));
  }

  lemma AvailabilityTransactionSound(cmd: Command, c: Config, r: Reply)
    requires Sound(cmd, c) && c.pc.SendAvailability?
    ensures Sound(cmd, OnAnswer(cmd, c, r))
  {
    AvailabilitySound(cmd, c);
    TransactSound(cmd, c, r, AfterAvailability(c.chain, c.attest), WithAvailability(c));
  }

  lemma PromoteTransactionSound(cmd: Command, c: Config, r: Reply)
    requires Sound(cmd, c) && c.pc.SendPromote?
    ensures Sound(cmd, OnAnswer(cmd, c, r))
  {
    PromoteSound(cmd, c);
    TransactSound(cmd, c, r, AfterPromote(c.chain, c.avail), c.(pc := ConfirmMachine));
  }

  lemma AnswerSound(cmd: Command, c: Config, r: Reply)
    requires Sound(cmd, c) && c.pc != Idle
    ensures Sound(cmd, OnAnswer(cmd, c, r))
  {
    if c.pc.SaveRegister? || c.pc.SaveAttest? || c.pc.SaveAvailability? {
      SaveSound(cmd, c, r);
    } else if c.pc.SendRegister? {
      RegisterTransactionSound(cmd, c, r);
    } else if c.pc.SendFreshAttest? || c.pc.SendAttest? {
      AttestTransactionSound(cmd, c, r);
    } else if c.pc.SendAvailability? {
      AvailabilityTransactionSound(cmd, c, r);
    } else if c.pc.SendPromote? {
      PromoteTransactionSound(cmd, c, r);
    } else if c.pc.RemoveFile? {
      RemoveSound(cmd, c, r);
    } else if c.pc.ReadMachine? || c.pc.PolicyGate? {
      LookupSound(cmd, c, r);
    } else if c.pc.FetchProof? {
      FetchSound(cmd, c, r);
    } else if c.pc.ReadStatus? {
      ReadStatusSound(cmd, c, r);
    } else {
      ConfirmSound(cmd, c, r);
    }
  }

  lemma StepSound(cmd: Command, c: Config, e: Event)
    requires Sound(cmd, c)
    ensures Sound(cmd, Next(cmd, c, e))
  {
    if c.pc == Idle {
      if e.Start? {
        BeginSound(cmd, c, e.resume, e.remove, e.load);
      }
    } else if e.Answer? {
      AnswerSound(cmd, c, e.reply);
    }
  }

  lemma {:induction false} AlwaysSound(cmd: Command, c: Config, events: seq<Event>)
    requires Initial(c)
    ensures Sound(cmd, Exec(cmd, c, events))
  {
    if events != [] {
      var n := |events| - 1;
      AlwaysSound(cmd, c, events[..n]);
      StepSound(cmd, Exec(cmd, c, events[..n]), events[n]);
    }
  }
}
