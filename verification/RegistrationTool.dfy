/**
 RegisterNode as it is written: one pass over the command letters that updates the
 progress record in place, sends transactions and rewrites the state file. It is
 proved to be a run of RegistrationProtocol, for every sequence of answers the
 outside world gives and wherever the process is killed.
 */
module RegistrationTool {
  import opened RegistrationProtocol

  /** The record RegisterNode updates step by step. */
  class RegistrationState {
    var completedSteps: string
    var teeAttestInstructionID: Hash
    var instructionID: Hash

    constructor ()
      ensures Value() == NO_PROGRESS
    {
      completedSteps, teeAttestInstructionID, instructionID := "", 0, 0;
    }

    function Value(): Progress
      reads this
    {
      Progress(completedSteps, teeAttestInstructionID, instructionID)
    }
  }

  /** What the outside world answers, in the order the run asks. */
  function Heard(answers: seq<Reply>): seq<Event> {
    seq(|answers|, i requires 0 <= i < |answers| => Answer(answers[i]))
  }

  /** The file a run finds: unless it resumes, main has tried to remove it. */
  function FoundFile(file: File, resume: bool, remove: Reply): File {
    if !resume && Lands(remove) then Missing else file
  }

  /** How RegisterNode begins, given the file and the chain it finds. */
  function Begun(cmd: Command, file: File, chain: Chain, load: Reply): Config {
    Begin(cmd, Config(file, chain, Idle, NO_PROGRESS, 0, 0, NoRun), true, Refused, load)
  }

  /** A run starts from the file and the chain alone. */
  lemma StartForgets(cmd: Command, c: Config, resume: bool, remove: Reply, load: Reply)
    requires c.pc == Idle
    ensures Next(cmd, c, Start(resume, remove, load)) == Begun(cmd, FoundFile(c.file, resume, remove), c.chain, load)
  {
  }

  /** A run of the tool, fresh or resumed, on what an earlier history left is the continuation of that history. */
  lemma RunContinuesHistory(cmd: Command, c: Config, events: seq<Event>, resume: bool, remove: Reply, load: Reply, answers: seq<Reply>)
    requires Exec(cmd, c, events).pc == Idle
    ensures var stopped := Exec(cmd, c, events);
            Exec(cmd, c, events + [Start(resume, remove, load)] + Heard(answers))
            == Exec(cmd, Begun(cmd, FoundFile(stopped.file, resume, remove), stopped.chain, load), Heard(answers))
  {
    StartForgets(cmd, Exec(cmd, c, events), resume, remove, load);
    ExecOneMore(cmd, c, events, Start(resume, remove, load));
    ExecConcat(cmd, c, events + [Start(resume, remove, load)], Heard(answers));
  }

  /** The configurations of a run are linked by the answers it heard. */
  ghost predicate Link(cmd: Command, trace: seq<Config>, answers: seq<Reply>, i: nat)
    requires i < |answers| && i + 1 < |trace|
  {
    trace[i + 1] == Next(cmd, trace[i], Answer(answers[i]))
  }

  ghost predicate Linked(cmd: Command, trace: seq<Config>, answers: seq<Reply>) {
    |trace| <= |answers| + 1 && forall i: nat :: i + 1 < |trace| ==> Link(cmd, trace, answers, i)
  }

  lemma {:induction false} LinkedIsExec(cmd: Command, trace: seq<Config>, answers: seq<Reply>, n: nat)
    requires Linked(cmd, trace, answers) && n < |trace|
    ensures trace[n] == Exec(cmd, trace[0], Heard(answers[..n]))
  {
    if n > 0 {
      LinkedIsExec(cmd, trace, answers, n - 1);
      assert Link(cmd, trace, answers, n - 1);
      assert Heard(answers[..n]) == Heard(answers[..n - 1]) + [Answer(answers[n - 1])];
      ExecOneMore(cmd, trace[0], Heard(answers[..n - 1]), Answer(answers[n - 1]));
    }
  }

  class Tool {
    const cmd: Command
    /** All answers of the outside world; the process is killed when it asks and none is left. */
    const answers: seq<Reply>
    var used: nat

    var file: File
    var chain: Chain

    /** Where the protocol stands, and how it came there. */
    ghost var at: Config
    ghost var trace: seq<Config>

    constructor (cmd: Command, answers: seq<Reply>, file: File, chain: Chain)
      ensures this.cmd == cmd && this.answers == answers && this.file == file && this.chain == chain
    {
      this.cmd, this.answers, this.file, this.chain, used := cmd, answers, file, chain, 0;
    }

    ghost predicate History()
      reads this
    {
      used <= |answers| && |trace| == used + 1 && at == trace[used] && Linked(cmd, trace, answers)
    }

    /** The file and the chain are those of the protocol. */
    ghost predicate Follows()
      reads this
    {
      History() && at.file == file && at.chain == chain
    }

    /** One call to the outside world. */
    method Ask() returns (r: Reply)
      requires History() && used < |answers|
      modifies this`used, this`at, this`trace
      ensures History() && used == old(used) + 1 && r == answers[old(used)]
      ensures at == Next(cmd, old(at), Answer(r)) && old(trace) <= trace
    {
      r := answers[used];
      at := Next(cmd, at, Answer(r));
      trace := trace + [at];
      used := used + 1;
      forall i: nat | i + 1 < |trace| ensures Link(cmd, trace, answers, i) {
        assert i + 1 < |old(trace)| ==> Link(cmd, old(trace), answers, i);
      }
    }

    method loadState(load: Reply) returns (state: RegistrationState, ok: bool)
      ensures fresh(state)
      ensures ok <==> load == Done && !file.Unparsable?
      ensures state.Value() == if ok && file.Saved? then file.progress else NO_PROGRESS
    {
      state := new RegistrationState();
      if load != Done {
        return state, false;
      }
      match file
      case Missing => ok := true;
      case Unparsable => ok := false;
      case Saved(p) =>
        state.completedSteps, state.teeAttestInstructionID, state.instructionID := p.completed, p.attestId, p.availId;
        ok := true;
    }

    method saveState(r: Reply, state: RegistrationState)
      modifies this`file
      ensures file == if Lands(r) then Saved(state.Value()) else old(file)
    {
      if Lands(r) {
        file := Saved(state.Value());
      }
    }

    method PreRegistration(r: Reply) returns (id: Hash, ok: bool)
      modifies this`chain
      ensures chain == if Lands(r) then AfterRegister(old(chain)) else old(chain)
      ensures (ok <==> r == Done) && (ok ==> id == NextId(old(chain)))
    {
      id, ok := NextId(chain), r == Done;
      if Lands(r) {
        chain := Chain(true, STATUS_INITIALIZED, chain.log + [Register(id)]);
      }
    }

    method RequestTeeAttestation(r: Reply) returns (id: Hash, ok: bool)
      modifies this`chain
      ensures chain == if Lands(r) then AfterAttest(old(chain)) else old(chain)
      ensures (ok <==> r == Done) && (ok ==> id == NextId(old(chain)))
    {
      id, ok := NextId(chain), r == Done;
      if Lands(r) {
        chain := chain.(log := chain.log + [Attest(id)]);
      }
    }

    /** A machine that is already on chain is not registered again: a fresh attestation is asked for. */
    method AttestOrRegister(registered: bool, r: Reply) returns (id: Hash, ok: bool)
      modifies this`chain
      ensures chain == if !Lands(r) then old(chain) else if registered then AfterAttest(old(chain)) else AfterRegister(old(chain))
      ensures (ok <==> r == Done) && (ok ==> id == NextId(old(chain)))
    {
      if registered {
        id, ok := RequestTeeAttestation(r);
      } else {
        id, ok := PreRegistration(r);
      }
    }

    method RequestFTDCAvailabilityCheck(r: Reply, attestId: Hash) returns (id: Hash, ok: bool)
      modifies this`chain
      ensures chain == if Lands(r) then AfterAvailability(old(chain), attestId) else old(chain)
      ensures (ok <==> r == Done) && (ok ==> id == NextId(old(chain)))
    {
      id, ok := NextId(chain), r == Done;
      if Lands(r) {
        chain := chain.(log := chain.log + [CheckAvailability(id, attestId)]);
      }
    }

    /** The run ended here, or it goes on. */
    ghost predicate EndsAs(ending: Ending)
      reads this
    {
      && Follows() && ending in {Running, Failed, Killed}
      && (ending == Failed ==> at.pc == Idle && at.ending == Failed)
      && (ending == Killed ==> at.pc != Idle && used == |answers|)
    }

    /** Between two parts the protocol stands at c, with the program's variables as its memory. */
    ghost predicate Between(c: Config, state: RegistrationState, attestId: Hash)
      reads this, state
    {
      Follows() && c.file == file && c.chain == chain && c.memory == state.Value() && c.attest == attestId && c.ending == Running
    }

    method RegisterPart(state: RegistrationState, ghost c: Config) returns (attestId: Hash, ending: Ending, ghost next: Config)
      requires Between(c, state, 0) && at == EnterRegister(cmd, c)
      modifies this`file, this`chain, this`used, this`at, this`trace, state
      ensures EndsAs(ending) && old(trace) <= trace
      ensures ending == Running ==> Between(next, state, attestId) && at == EnterAttest(cmd, next)
    {
      attestId, ending, next := 0, Running, c;
      if 'r' in cmd.letters {
        if 'r' in state.completedSteps {
          attestId := state.teeAttestInstructionID;
          next := c.(attest := attestId);
        } else {
          if used == |answers| { return attestId, Killed, c; }
          var r := Ask();
          var registered := r == Done && chain.recorded;
          if used == |answers| { return attestId, Killed, c; }
          r := Ask();
          var ok;
          attestId, ok := AttestOrRegister(registered, r);
          if !ok { return attestId, Failed, c; }
          state.completedSteps := state.completedSteps + "r";
          state.teeAttestInstructionID := attestId;
          if used == |answers| { return attestId, Killed, c; }
          next := at;
          r := Ask();
          saveState(r, state);
          next := Save(next, r);
        }
      }
    }

    method AttestPart(state: RegistrationState, before: Hash, ghost c: Config) returns (attestId: Hash, ending: Ending, ghost next: Config)
      requires Between(c, state, before) && at == EnterAttest(cmd, c)
      modifies this`file, this`chain, this`used, this`at, this`trace, state
      ensures EndsAs(ending) && old(trace) <= trace
      ensures ending == Running ==> Between(next, state, attestId) && at == EnterAvailability(cmd, next)
    {
      attestId, ending, next := before, Running, c;
      if 'R' in cmd.letters {
        if 'R' in state.completedSteps {
          attestId := state.teeAttestInstructionID;
          next := c.(attest := attestId);
        } else {
          if used == |answers| { return attestId, Killed, c; }
          var r := Ask();
          var ok;
          attestId, ok := RequestTeeAttestation(r);
          if !ok { return attestId, Failed, c; }
          state.completedSteps := state.completedSteps + "R";
          state.teeAttestInstructionID := attestId;
          if used == |answers| { return attestId, Killed, c; }
          next := at;
          r := Ask();
          saveState(r, state);
          next := Save(next, r);
        }
      }
    }

    method AvailabilityPart(state: RegistrationState, attestId: Hash, ghost c: Config) returns (instructionID: Hash, ending: Ending, ghost next: Config)
      requires Between(c, state, attestId) && at == EnterAvailability(cmd, c)
      modifies this`file, this`chain, this`used, this`at, this`trace, state
      ensures EndsAs(ending) && old(trace) <= trace
      ensures ending == Running ==> Between(next, state, attestId) && next.avail == instructionID && at == EnterProduction(cmd, next)
    {
      instructionID, ending, next := cmd.instruction, Running, c.(avail := cmd.instruction);
      if 'a' in cmd.letters {
        if 'a' in state.completedSteps {
          instructionID := state.instructionID;
          next := c.(avail := instructionID);
        } else {
          if used == |answers| { return instructionID, Killed, c; }
          var r := Ask();
          if r != Done { return instructionID, Failed, c; }
          if used == |answers| { return instructionID, Killed, c; }
          r := Ask();
          var ok;
          instructionID, ok := RequestFTDCAvailabilityCheck(r, attestId);
          if !ok { return instructionID, Failed, c; }
          state.completedSteps := state.completedSteps + "a";
          state.instructionID := instructionID;
          if used == |answers| { return instructionID, Killed, c; }
          next := at;
          r := Ask();
          saveState(r, state);
          next := Save(next, r);
        }
      }
    }

    /** The promotion with its guard: nothing is sent when the status read says PRODUCTION. */
    method ToProduction(availId: Hash) returns (ending: Ending)
      requires Follows() && at.pc == ReadStatus && at.avail == availId && at.ending == Running
      modifies this`chain, this`used, this`at, this`trace
      ensures EndsAs(ending) && old(trace) <= trace
      ensures ending == Running ==> at.pc == RemoveFile && at.ending == Running
    {
      if used == |answers| { return Killed; }
      var r := Ask();
      if r == Done && chain.status == STATUS_PRODUCTION {
        return Running;
      }
      if used == |answers| { return Killed; }
      r := Ask();
      if Lands(r) {
        chain := chain.(status := STATUS_PRODUCTION, log := chain.log + [Promote(availId)]);
      }
      if r != Done { return Failed; }
      if used == |answers| { return Killed; }
      r := Ask();
      ending := if r == Done && chain.recorded then Running else Failed;
    }

    /** Promote if the command says so, then delete the state file. */
    method ProductionPart(instructionID: Hash, ghost c: Config) returns (ending: Ending)
      requires Follows() && c.ending == Running && c.avail == instructionID && at == EnterProduction(cmd, c)
      modifies this`file, this`chain, this`used, this`at, this`trace
      ensures Follows() && old(trace) <= trace
      ensures ending == Killed ==> at.pc != Idle && used == |answers|
      ensures ending != Killed ==> at.pc == Idle && at.ending == ending && ending in {Succeeded, Failed}
    {
      if 'p' in cmd.letters {
        if used == |answers| { return Killed; }
        var r := Ask();
        if r != Done { return Failed; }
        ending := ToProduction(instructionID);
        if ending != Running { return; }
      }
      if used == |answers| { return Killed; }
      var r := Ask();
      if Lands(r) {
        file := Missing;
      }
      return Succeeded;
    }

    /** RegisterNode is the run of the protocol that hears these answers: same file, same chain, same ending. */
    method RegisterNode(load: Reply) returns (ending: Ending)
      requires used == 0
      modifies this
      ensures used <= |answers|
      ensures var c := Exec(cmd, Begun(cmd, old(file), old(chain), load), Heard(answers[..used]));
              && c.file == file && c.chain == chain
              && (if ending == Killed then c.pc != Idle && used == |answers|
                  else c.pc == Idle && c.ending == ending && ending in {Succeeded, Failed})
    {
      at := Begun(cmd, file, chain, load);
      trace := [at];
      ending := Run(load);
      LinkedIsExec(cmd, trace, answers, used);
    }

    /** main of register-tee: drop the file unless asked to resume, then register. */
    method RegisterTee(resume: bool, remove: Reply, load: Reply) returns (ending: Ending)
      requires used == 0
      modifies this
      ensures used <= |answers|
      ensures var c := Exec(cmd, Begun(cmd, FoundFile(old(file), resume, remove), old(chain), load), Heard(answers[..used]));
              && c.file == file && c.chain == chain
              && (if ending == Killed then c.pc != Idle && used == |answers|
                  else c.pc == Idle && c.ending == ending && ending in {Succeeded, Failed})
    {
      if !resume {
        if Lands(remove) {
          file := Missing;
        }
      }
      ending := RegisterNode(load);
    }

    method Run(load: Reply) returns (ending: Ending)
      requires History() && at == Begun(cmd, file, chain, load)
      modifies this`file, this`chain, this`used, this`at, this`trace
      ensures Follows() && old(trace) <= trace
      ensures ending == Killed ==> at.pc != Idle && used == |answers|
      ensures ending != Killed ==> at.pc == Idle && at.ending == ending && ending in {Succeeded, Failed}
    {
      var state, ok := loadState(load);
      if !ok { return Failed; }
      ghost var c := Config(file, chain, Idle, state.Value(), 0, 0, Running);

      var teeAttestInstructionID, instructionID;
      teeAttestInstructionID, ending, c := RegisterPart(state, c);
      if ending != Running { return; }
      teeAttestInstructionID, ending, c := AttestPart(state, teeAttestInstructionID, c);
      if ending != Running { return; }
      instructionID, ending, c := AvailabilityPart(state, teeAttestInstructionID, c);
      if ending != Running { return; }

      ending := ProductionPart(instructionID, c);
    }
  }
}
