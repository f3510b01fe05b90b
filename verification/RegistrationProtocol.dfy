/**
 The crash-resumable registration of a TEE machine, as a step function over the
 state file, the chain and the memory of the running process.

 Every answer of the outside world is one event, so a sequence of events is a
 history of any number of runs, each of them stopped anywhere: by an error, by a
 kill between two calls, or by a call whose effect took place although the
 process never learned of it.
 */
module RegistrationProtocol {

  /** An instruction id. Zero is the hash a fresh state holds. */
  type Hash = nat

  /** Contents of the state file, which are also what the process keeps in memory. */
  datatype Progress = Progress(completed: string, attestId: Hash, availId: Hash)

  const NO_PROGRESS := Progress("", 0, 0)

  datatype File = Missing | Unparsable | Saved(progress: Progress)

  /** A transaction that took place, with the instruction id it was given. */
  datatype Tx =
    | Register(id: Hash)
    | Attest(id: Hash)
    | CheckAvailability(id: Hash, attestId: Hash)
    | Promote(availId: Hash)

  const STATUS_INITIALIZED := 1
  const STATUS_PRODUCTION := 2

  /** What the chain records about this machine. */
  datatype Chain = Chain(recorded: bool, status: nat, log: seq<Tx>)

  /** How an outside call went. Unseen: it took effect and an error was reported. */
  datatype Reply = Refused | Unseen | Done

  predicate Lands(r: Reply) {
    r != Refused
  }

  datatype Event = Start(resume: bool, remove: Reply, load: Reply) | Answer(reply: Reply) | Kill

  /** The call the process waits for. */
  datatype Pc =
    | Idle
    | ReadMachine | SendRegister | SendFreshAttest | SaveRegister
    | SendAttest | SaveAttest
    | PolicyGate | SendAvailability | SaveAvailability
    | FetchProof | ReadStatus | SendPromote | ConfirmMachine
    | RemoveFile

  /** How the last run ended. */
  datatype Ending = NoRun | Running | Killed | Failed | Succeeded

  /** attest and avail are the two instruction ids RegisterNode keeps in local variables. */
  datatype Config = Config(file: File, chain: Chain, pc: Pc, memory: Progress, attest: Hash, avail: Hash, ending: Ending)

  /** The command letters and the instruction id given on the command line. */
  datatype Command = Command(letters: string, instruction: Hash)

  // ----- the chain

  /** Instruction ids are never zero and never reused. */
  function NextId(chain: Chain): Hash {
    |chain.log| + 1
  }

  function AfterRegister(chain: Chain): Chain {
    Chain(true, STATUS_INITIALIZED, chain.log + [Register(NextId(chain))])
  }

  function AfterAttest(chain: Chain): Chain {
    chain.(log := chain.log + [Attest(NextId(chain))])
  }

  function AfterAvailability(chain: Chain, attest: Hash): Chain {
    chain.(log := chain.log + [CheckAvailability(NextId(chain), attest)])
  }

  function AfterPromote(chain: Chain, avail: Hash): Chain {
    chain.(status := STATUS_PRODUCTION, log := chain.log + [Promote(avail)])
  }

  // ----- one run

  function End(c: Config, ending: Ending): Config {
    c.(pc := Idle, ending := ending)
  }

  /** The r part: skipped from the file, or decided by what the chain says. */
  function EnterRegister(cmd: Command, c: Config): Config {
    if 'r' !in cmd.letters then EnterAttest(cmd, c)
    else if 'r' in c.memory.completed then EnterAttest(cmd, c.(attest := c.memory.attestId))
    else c.(pc := ReadMachine)
  }

  function EnterAttest(cmd: Command, c: Config): Config {
    if 'R' !in cmd.letters then EnterAvailability(cmd, c)
    else if 'R' in c.memory.completed then EnterAvailability(cmd, c.(attest := c.memory.attestId))
    else c.(pc := SendAttest)
  }

  function EnterAvailability(cmd: Command, c: Config): Config {
    if 'a' !in cmd.letters then EnterProduction(cmd, c.(avail := cmd.instruction))
    else if 'a' in c.memory.completed then EnterProduction(cmd, c.(avail := c.memory.availId))
    else c.(pc := PolicyGate)
  }

  function EnterProduction(cmd: Command, c: Config): Config {
    c.(pc := if 'p' in cmd.letters then FetchProof else RemoveFile)
  }

  /** A run starts by dropping the file unless it resumes, then loads what is there. */
  function Begin(cmd: Command, c: Config, resume: bool, remove: Reply, load: Reply): Config {
    var file := if !resume && Lands(remove) then Missing else c.file;
    var c := Config(file, c.chain, Idle, NO_PROGRESS, 0, 0, Running);
    if load != Done || file.Unparsable? then End(c, Failed)
    else EnterRegister(cmd, if file.Saved? then c.(memory := file.progress) else c)
  }

  /** A transaction: whatever landed is in the log, and only Done lets the run go on. */
  function Transact(c: Config, r: Reply, after: Chain, next: Config): Config {
    if r == Done then next.(chain := after)
    else if r == Unseen then End(c.(chain := after), Failed)
    else End(c, Failed)
  }

  function WithAttest(c: Config, letter: char, pc: Pc): Config {
    var id := NextId(c.chain);
    c.(pc := pc, attest := id,
       memory := c.memory.(completed := c.memory.completed + [letter], attestId := id))
  }

  function WithAvailability(c: Config): Config {
    var id := NextId(c.chain);
    c.(pc := SaveAvailability, avail := id,
       memory := c.memory.(completed := c.memory.completed + ['a'], availId := id))
  }

  /** A save that did not land is only a warning: the run goes on. */
  function Save(c: Config, r: Reply): Config {
    if Lands(r) then c.(file := Saved(c.memory)) else c
  }

  function OnAnswer(cmd: Command, c: Config, r: Reply): Config {
    match c.pc
    case Idle => c
    case ReadMachine => c.(pc := if r == Done && c.chain.recorded then SendFreshAttest else SendRegister)
    case SendRegister => Transact(c, r, AfterRegister(c.chain), WithAttest(c, 'r', SaveRegister))
    case SendFreshAttest => Transact(c, r, AfterAttest(c.chain), WithAttest(c, 'r', SaveRegister))
    case SaveRegister => EnterAttest(cmd, Save(c, r))
    case SendAttest => Transact(c, r, AfterAttest(c.chain), WithAttest(c, 'R', SaveAttest))
    case SaveAttest => EnterAvailability(cmd, Save(c, r))
    case PolicyGate => if r == Done then c.(pc := SendAvailability) else End(c, Failed)
    case SendAvailability => Transact(c, r, AfterAvailability(c.chain, c.attest), WithAvailability(c))
    case SaveAvailability => EnterProduction(cmd, Save(c, r))
    case FetchProof => if r == Done then c.(pc := ReadStatus) else End(c, Failed)
    case ReadStatus =>
      c.(pc := if r == Done && c.chain.status == STATUS_PRODUCTION then RemoveFile else SendPromote)
    case SendPromote => Transact(c, r, AfterPromote(c.chain, c.avail), c.(pc := ConfirmMachine))
    case ConfirmMachine => if r == Done && c.chain.recorded then c.(pc := RemoveFile) else End(c, Failed)
    case RemoveFile => End(if Lands(r) then c.(file := Missing) else c, Succeeded)
  }

  /** There is one operator: a run starts only when no other run is under way. */
  function Next(cmd: Command, c: Config, e: Event): Config {
    match e
    case Kill => if c.pc == Idle then c else End(c, Killed)
    case Start(resume, remove, load) => if c.pc == Idle then Begin(cmd, c, resume, remove, load) else c
    case Answer(r) => OnAnswer(cmd, c, r)
  }

  /** The configuration after a history of events. */
  function Exec(cmd: Command, c: Config, events: seq<Event>): Config {
    if events == [] then c
    else Next(cmd, Exec(cmd, c, events[..|events| - 1]), events[|events| - 1])
  }

  /** A machine the tool never ran for: no state file, no transaction of ours. */
  predicate Initial(c: Config) {
    c.pc == Idle && c.file == Missing && c.ending == NoRun && c.chain.log == []
  }

  lemma {:induction false} ExecOneMore(cmd: Command, c: Config, events: seq<Event>, e: Event)
    ensures Exec(cmd, c, events + [e]) == Next(cmd, Exec(cmd, c, events), e)
  {
    assert (events + [e])[..|events|] == events;
  }

  lemma {:induction false} ExecConcat(cmd: Command, c: Config, first: seq<Event>, rest: seq<Event>)
    ensures Exec(cmd, c, first + rest) == Exec(cmd, Exec(cmd, c, first), rest)
    decreases |rest|
  {
    if rest == [] {
      assert first + rest == first;
    } else {
      var n := |rest| - 1;
      ExecConcat(cmd, c, first, rest[..n]);
      assert first + rest == (first + rest[..n]) + [rest[n]];
      ExecOneMore(cmd, c, first + rest[..n], rest[n]);
    }
  }
}
