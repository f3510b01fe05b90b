/**
 How the InstructionSender contract finds its extension id, over every sequence of
 transactions and whatever happens to the registry in between, and how the search
 relates to the deployment checks R2 and R7, which look at the same registry.
 */
module ExtensionDiscovery {
  import opened Wrappers

  type Address = nat

  /** The registry at one moment: the next public id, and the instructions sender of each id. */
  datatype Registry = Registry(next: nat, sender: nat -> Address)

  const FIRST_PUBLIC := 0x10000

  /** The least public id of the contract, by quantifiers alone. */
  ghost predicate IsLeastPublicId(reg: Registry, self: Address, id: nat) {
    0x10000 <= id < reg.next && reg.sender(id) == self && forall i :: 0x10000 <= i < id ==> reg.sender(i) != self
  }

  ghost predicate HasPublicId(reg: Registry, self: Address) {
    exists i :: 0x10000 <= i < reg.next && reg.sender(i) == self
  }

  /** The least id in [from, end) that belongs to the contract. */
  function LeastMatch(reg: Registry, self: Address, from: nat, end: nat): (r: Option<nat>)
    ensures r.Some? ==> from <= r.value < end && reg.sender(r.value) == self
                        && forall i :: from <= i < r.value ==> reg.sender(i) != self
    ensures r.None? ==> forall i :: from <= i < end ==> reg.sender(i) != self
    decreases end - from
  {
    if from >= end then None
    else if reg.sender(from) == self then Some(from)
    else LeastMatch(reg, self, from + 1, end)
  }

  // ----- the contract

  datatype Command = UpdateKey | SignMessage

  datatype Outcome = AlreadySet | NotFound | Found | NotSet | Reverted | Sent(extensionId: nat, machines: seq<Address>, command: Command, message: seq<int>)

  class InstructionSender {
    const self: Address
    var extensionId: nat

    constructor (self: Address)
      ensures this.self == self && extensionId == 0
    {
      this.self, extensionId := self, 0;
    }

    /** Search upwards from the first public id; a transaction that reverts changes nothing. */
    method setExtensionId(reg: Registry) returns (r: Outcome)
      modifies this
      ensures (extensionId, r) == Apply(self, old(extensionId), SetExtensionId(reg))
      ensures old(extensionId) != 0 ==> r == AlreadySet && extensionId == old(extensionId)
      ensures old(extensionId) == 0 ==> if HasPublicId(reg, self) then r == Found && IsLeastPublicId(reg, self, extensionId)
                                        else r == NotFound && extensionId == 0
    {
      if extensionId != 0 {
        return AlreadySet;
      }
      var c := reg.next;
      var i := FIRST_PUBLIC;
      while i < c
        invariant extensionId == 0
        invariant LeastMatch(reg, self, i, c) == LeastMatch(reg, self, FIRST_PUBLIC, c)
        decreases c - i
      {
        if reg.sender(i) == self {
          extensionId := i;
          return Found;
        }
        i := i + 1;
      }
      return NotFound;
    }

    /** machines is the registry's answer to getRandomTeeIds; either call may revert the transaction. */
    method updateKey(encryptedKey: seq<int>, machines: Option<seq<Address>>, accepted: bool) returns (r: Outcome)
      ensures (extensionId, r) == Apply(self, extensionId, Send(UpdateKey, encryptedKey, machines, accepted))
      ensures r.Sent? ==> r.command == UpdateKey && r.message == encryptedKey && Some(r.machines) == machines && r.extensionId == extensionId
    {
      if extensionId == 0 {
        return NotSet;
      }
      if machines == None {
        return Reverted;
      }
      return if accepted then Sent(extensionId, machines.value, UpdateKey, encryptedKey) else Reverted;
    }

    method sign(message: seq<int>, machines: Option<seq<Address>>, accepted: bool) returns (r: Outcome)
      ensures (extensionId, r) == Apply(self, extensionId, Send(SignMessage, message, machines, accepted))
      ensures r.Sent? ==> r.command == SignMessage && r.message == message && Some(r.machines) == machines && r.extensionId == extensionId
    {
      if extensionId == 0 {
        return NotSet;
      }
      if machines == None {
        return Reverted;
      }
      return if accepted then Sent(extensionId, machines.value, SignMessage, message) else Reverted;
    }
  }

  /** A transaction to the contract; the registry is what it is at that moment. */
  datatype Transaction = SetExtensionId(reg: Registry) | Send(command: Command, message: seq<int>, machines: Option<seq<Address>>, accepted: bool)

  function Apply(self: Address, id: nat, tx: Transaction): (nat, Outcome) {
    match tx
    case SetExtensionId(reg) =>
      if id != 0 then (id, AlreadySet)
      else
        (match LeastMatch(reg, self, FIRST_PUBLIC, reg.next)
         case None => (id, NotFound)
         case Some(i) => (i, Found))
    case Send(command, message, machines, accepted) =>
      (id, if id == 0 then NotSet else if machines == None || !accepted then Reverted else Sent(id, machines.value, command, message))
  }

  /**
   A search on an unset id succeeds exactly when the contract has a public id, the newest
   included, and then stores the least one; otherwise the transaction changes nothing.
   */
  lemma SearchSucceedsExactlyWhen(self: Address, id: nat, reg: Registry)
    ensures var (next, r) := Apply(self, id, SetExtensionId(reg));
            if id != 0 then next == id && r == AlreadySet
            else if HasPublicId(reg, self) then r == Found && IsLeastPublicId(reg, self, next)
            else r == NotFound && next == 0
  {
    var found := LeastMatch(reg, self, 0x10000, reg.next);
    if HasPublicId(reg, self) {
      var i :| 0x10000 <= i < reg.next && reg.sender(i) == self;
      assert found.Some?;
    }
  }

  /** The stored id after a history of transactions. */
  function IdAfter(self: Address, txs: seq<Transaction>): nat {
    if txs == [] then 0 else Apply(self, IdAfter(self, txs[..|txs| - 1]), txs[|txs| - 1]).0
  }

  function OutcomeOf(self: Address, txs: seq<Transaction>, k: nat): Outcome
    requires k < |txs|
  {
    Apply(self, IdAfter(self, txs[..k]), txs[k]).1
  }

  /** Once set, the id is never written again. */
  lemma {:induction false} IdIsSetOnce(self: Address, txs: seq<Transaction>, n: nat, m: nat)
    requires n <= m <= |txs| && IdAfter(self, txs[..n]) != 0
    ensures IdAfter(self, txs[..m]) == IdAfter(self, txs[..n])
  {
    if n < m {
      IdIsSetOnce(self, txs, n, m - 1);
      assert txs[..m][..m - 1] == txs[..m - 1];
    }
  }

  /** The transaction that set it stored the least public id the registry then gave this contract. */
  ghost predicate SetBy(self: Address, txs: seq<Transaction>, k: nat, id: nat)
    requires k < |txs|
  {
    txs[k].SetExtensionId? && IdAfter(self, txs[..k]) == 0 && IsLeastPublicId(txs[k].reg, self, id)
  }

  lemma {:induction false} IdIsALeastMatch(self: Address, txs: seq<Transaction>)
    requires IdAfter(self, txs) != 0
    ensures IdAfter(self, txs) >= FIRST_PUBLIC
    ensures exists k: nat :: k < |txs| && SetBy(self, txs, k, IdAfter(self, txs))
  {
    var n := |txs| - 1;
    var before := txs[..n];
    if IdAfter(self, before) != 0 {
      IdIsALeastMatch(self, before);
      var k: nat :| k < n && SetBy(self, before, k, IdAfter(self, before));
      assert before[..k] == txs[..k] && before[k] == txs[k];
      assert SetBy(self, txs, k, IdAfter(self, txs));
    } else {
      assert SetBy(self, txs, n, IdAfter(self, txs));
    }
  }

  /**
   Every instruction that was ever sent carried its own command and message, to the machines
   the registry named for the one extension id that a search had found before it, and all
   instructions went to the same id. It was sent exactly
   if the id was set and both calls to the registries went through.
   */
  lemma InstructionsTargetTheFoundId(self: Address, txs: seq<Transaction>, k: nat)
    requires k < |txs| && txs[k].Send?
    ensures OutcomeOf(self, txs, k).Sent? <==> IdAfter(self, txs[..k]) != 0 && txs[k].machines.Some? && txs[k].accepted
    ensures OutcomeOf(self, txs, k).Sent? ==> SentToFoundId(self, txs, k)
  {
    if OutcomeOf(self, txs, k).Sent? {
      SentAfterSearch(self, txs, k);
    }
  }

  ghost predicate SentToFoundId(self: Address, txs: seq<Transaction>, k: nat)
    requires k < |txs| && txs[k].Send? && OutcomeOf(self, txs, k).Sent?
  {
    && OutcomeOf(self, txs, k).extensionId == IdAfter(self, txs)
    && OutcomeOf(self, txs, k).command == txs[k].command && OutcomeOf(self, txs, k).message == txs[k].message
    && Some(OutcomeOf(self, txs, k).machines) == txs[k].machines
    && exists j: nat :: j < k && SetBy(self, txs, j, IdAfter(self, txs))
  }

  lemma SentAfterSearch(self: Address, txs: seq<Transaction>, k: nat)
    requires k < |txs| && OutcomeOf(self, txs, k).Sent?
    ensures OutcomeOf(self, txs, k).extensionId == IdAfter(self, txs)
    ensures exists j: nat :: j < k && SetBy(self, txs, j, IdAfter(self, txs))
  {
    IdIsSetOnce(self, txs, k, |txs|);
    assert txs[..|txs|] == txs;
    IdIsALeastMatch(self, txs[..k]);
    var j: nat :| j < k && SetBy(self, txs[..k], j, IdAfter(self, txs[..k]));
    assert txs[..k][..j] == txs[..j] && txs[..k][j] == txs[j];
    assert SetBy(self, txs, j, IdAfter(self, txs));
  }

  // ----- the checks

  /** big.Int's Int64: the low 64 bits, read as a signed number. */
  function Int64(n: nat): int {
    var low := n % 0x1_0000_0000_0000_0000;
    if low < 0x8000_0000_0000_0000 then low else low - 0x1_0000_0000_0000_0000
  }

  /** The ids below n whose sender was read and is the expected one, in order. */
  function MatchingIds(read: nat -> Option<Address>, expected: Address, n: nat): (ids: seq<nat>)
    ensures forall i :: i in ids <==> 0 <= i < n && read(i) == Some(expected)
    ensures forall j, k :: 0 <= j < k < |ids| ==> ids[j] < ids[k]
  {
    if n == 0 then []
    else
      var below := MatchingIds(read, expected, n - 1);
      assert forall j :: 0 <= j < |below| ==> below[j] in below;
      below + if read(n - 1) == Some(expected) then [n - 1] else []
  }

  /** R7: a failed read is skipped, and more than one match is a warning. */
  method checkUniqueSender(counter: nat, read: nat -> Option<Address>, expected: Address) returns (matchingIDs: seq<nat>, warn: bool)
    ensures matchingIDs == MatchingIds(read, expected, if Int64(counter) < 0 then 0 else Int64(counter))
    ensures warn <==> |matchingIDs| > 1
    ensures counter < 0x8000_0000_0000_0000 ==> forall i :: i in matchingIDs <==> 0 <= i < counter && read(i) == Some(expected)
  {
    matchingIDs := [];
    var i := 0;
    while i < Int64(counter)
      invariant 0 <= i && (i <= Int64(counter) || (i == 0 && Int64(counter) < 0))
      invariant matchingIDs == MatchingIds(read, expected, i)
    {
      var sender := read(i);
      if sender == Some(expected) {
        matchingIDs := matchingIDs + [i];
      }
      i := i + 1;
    }
    warn := |matchingIDs| > 1;
  }

  /** R2: the sender on chain for the configured id is the configured one. */
  predicate SenderMatches(read: nat -> Option<Address>, id: nat, expected: Address) {
    read(id) == Some(expected)
  }

  /** The checks see the registry as the contract does. */
  ghost predicate ReadsWithoutErrors(reg: Registry, read: nat -> Option<Address>) {
    forall i :: 0 <= i < reg.next ==> read(i) == Some(reg.sender(i))
  }

  /** setExtensionId on an unset id stores this one. */
  predicate SearchStores(self: Address, reg: Registry, id: nat) {
    Apply(self, 0, SetExtensionId(reg)) == (id, Found)
  }

  /** R2 alone: the search stores the configured id exactly when no lower public id has the same sender. */
  lemma SearchFindsConfiguredIdWhen(reg: Registry, read: nat -> Option<Address>, self: Address, id: nat)
    requires ReadsWithoutErrors(reg, read) && FIRST_PUBLIC <= id < reg.next && SenderMatches(read, id, self)
    ensures SearchStores(self, reg, id)
            <==> forall i :: FIRST_PUBLIC <= i < id ==> reg.sender(i) != self
  {
    assert read(id) == Some(reg.sender(id));
    SearchSucceedsExactlyWhen(self, 0, reg);
  }

  lemma OneMatch(read: nat -> Option<Address>, self: Address, n: nat, id: nat)
    requires id < n && read(id) == Some(self)
    ensures |MatchingIds(read, self, n)| <= 1 <==> forall i :: 0 <= i < n && read(i) == Some(self) ==> i == id
  {
    var ids := MatchingIds(read, self, n);
    assert id in ids;
    if |ids| <= 1 {
      forall i | 0 <= i < n && read(i) == Some(self) ensures i == id {
        assert i in ids;
      }
    } else {
      assert ids[0] in ids && ids[1] in ids && ids[0] < ids[1];
    }
  }

  /**
   With R2 passing, R7 passes exactly when setExtensionId stores the configured id and the
   contract has no other id: neither among the reserved ids the search never looks at,
   nor above the configured one.
   */
  lemma UniqueSenderCheckMeansSearchFindsId(reg: Registry, read: nat -> Option<Address>, self: Address, id: nat)
    requires ReadsWithoutErrors(reg, read) && SenderMatches(read, id, self)
    requires FIRST_PUBLIC <= id < reg.next < 0x8000_0000_0000_0000
    ensures |MatchingIds(read, self, Int64(reg.next))| <= 1 <==>
            && SearchStores(self, reg, id)
            && (forall i :: 0 <= i < FIRST_PUBLIC ==> reg.sender(i) != self)
            && (forall i :: id < i < reg.next ==> reg.sender(i) != self)
  {
    assert Int64(reg.next) == reg.next;
    OneMatch(read, self, reg.next, id);
    SearchFindsConfiguredIdWhen(reg, read, self, id);
    OnlyThisId(reg, read, self, id);
  }

  /** No other id matches: none is reserved, none is lower, none is higher. */
  lemma OnlyThisId(reg: Registry, read: nat -> Option<Address>, self: Address, id: nat)
    requires ReadsWithoutErrors(reg, read) && FIRST_PUBLIC <= id < reg.next
    ensures (forall i :: 0 <= i < reg.next && read(i) == Some(self) ==> i == id)
            <==> && (forall i :: FIRST_PUBLIC <= i < id ==> reg.sender(i) != self)
                 && (forall i :: 0 <= i < FIRST_PUBLIC ==> reg.sender(i) != self)
                 && (forall i :: id < i < reg.next ==> reg.sender(i) != self)
  {
    assert forall i :: 0 <= i < reg.next ==> (read(i) == Some(self) <==> reg.sender(i) == self);
  }
}
