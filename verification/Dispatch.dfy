/**
 Handler registration and lookup of the TypeScript framework. Names are the UTF-8
 bytes of the strings; the keys compared at run time are 32-byte hex texts.
 */
module Dispatch {
  import opened ByteStrings
  import opened HexStrings
  import opened Wrappers

  /** Buffer.alloc(32) with the name written at the front; a longer name is cut. */
  function Bytes32(name: Bytes): Bytes {
    if |name| >= 32 then name[..32] else name + Zeros(32 - |name|)
  }

  function NameToHex(name: Bytes): string {
    BytesToHex(Bytes32(name))
  }

  method stringToBytes32Hex(name: Bytes) returns (hex: string)
    ensures hex == NameToHex(name)
  {
    var buf := new Byte[32](_ => 0);
    var n := if |name| < 32 then |name| else 32;
    for i := 0 to n
      invariant forall k :: 0 <= k < 32 ==> buf[k] == if k < i then name[k] else 0
    {
      buf[i] := name[i];
    }
    assert buf[..] == Bytes32(name);
    hex := "0x" + ToHex(buf[..]);
  }

  function TrimZeros(b: Bytes): Bytes {
    if b != [] && b[|b| - 1] == 0 then TrimZeros(b[..|b| - 1]) else b
  }

  /** bytes32HexToString: decrement the end while the last byte is zero. */
  method bytes32HexToString(h: string) returns (name: Bytes)
    ensures name == TrimZeros(HexToBytes(h))
  {
    var buf := HexToBytes(h);
    var end := |buf|;
    assert buf[..end] == buf;
    while end > 0 && buf[end - 1] == 0
      invariant 0 <= end <= |buf|
      invariant TrimZeros(buf[..end]) == TrimZeros(buf)
    {
      assert buf[..end][..end - 1] == buf[..end - 1];
      end := end - 1;
    }
    name := buf[..end];
  }

  lemma {:induction false} TrimPadded(name: Bytes, n: nat)
    ensures TrimZeros(name + Zeros(n)) == TrimZeros(name)
  {
    if n == 0 {
      assert name + Zeros(0) == name;
    } else {
      var b := name + Zeros(n);
      assert b[..|b| - 1] == name + Zeros(n - 1);
      TrimPadded(name, n - 1);
    }
  }

  lemma {:induction false} TrimKeeps(b: Bytes)
    ensures TrimZeros(b) == b <==> b == [] || b[|b| - 1] != 0
    ensures |TrimZeros(b)| <= |b|
  {
    if b != [] {
      TrimKeeps(b[..|b| - 1]);
    }
  }

  /** A name of at most 32 bytes survives the conversion exactly when it does not end in NUL. */
  lemma NameRoundTrip(name: Bytes)
    requires |name| <= 32
    ensures TrimZeros(HexToBytes(NameToHex(name))) == name <==> name == [] || name[|name| - 1] != 0
  {
    BytesRoundTrip(Bytes32(name));
    assert Bytes32(name) == name + Zeros(32 - |name|);
    TrimPadded(name, 32 - |name|);
    TrimKeeps(name);
  }

  predicate IsName(name: Bytes) {
    |name| <= 32 && (name == [] || name[|name| - 1] != 0)
  }

  lemma NamesAreDistinct(a: Bytes, b: Bytes)
    requires IsName(a) && IsName(b)
    ensures NameToHex(a) == NameToHex(b) <==> a == b
  {
    NameRoundTrip(a);
    NameRoundTrip(b);
  }

  // ----- the framework

  datatype Entry<+H> = Entry(opType: string, opCommand: string, handler: H)

  /** The entry is for this operation; an empty command stands for every command. */
  predicate Matches<H>(e: Entry<H>, opType: string, opCommand: string) {
    e.opType == opType && (e.opCommand == NameToHex([]) || e.opCommand == opCommand)
  }

  /** The first entry that matches. */
  function FirstMatch<H>(entries: seq<Entry<H>>, opType: string, opCommand: string): Option<H> {
    if entries == [] then None
    else if Matches(entries[0], opType, opCommand) then Some(entries[0].handler)
    else FirstMatch(entries[1..], opType, opCommand)
  }

  /** A table of two entries. */
  lemma TwoEntries<H>(t0: string, c0: string, h0: H, t1: string, c1: string, h1: H, opType: string, opCommand: string)
    ensures FirstMatch([Entry(t0, c0, h0), Entry(t1, c1, h1)], opType, opCommand) ==
            if Matches(Entry(t0, c0, h0), opType, opCommand) then Some(h0)
            else if Matches(Entry(t1, c1, h1), opType, opCommand) then Some(h1)
            else None
  {
    var first, second := Entry(t0, c0, h0), Entry(t1, c1, h1);
    assert [first, second][1..] == [second] && [second][1..] == [];
    var none: seq<Entry<H>> := [];
    assert FirstMatch(none, opType, opCommand) == None;
    assert FirstMatch([second], opType, opCommand) == if Matches(second, opType, opCommand) then Some(h1) else None;
  }

  class Framework<H(0)> {
    var handlers: seq<Entry<H>>

    constructor ()
      ensures handlers == []
    {
      handlers := [];
    }

    method handle(opType: Bytes, opCommand: Bytes, handler: H)
      modifies this
      ensures handlers == old(handlers) + [Entry(NameToHex(opType), NameToHex(opCommand), handler)]
    {
      var t := stringToBytes32Hex(opType);
      var c := stringToBytes32Hex(opCommand);
      handlers := handlers + [Entry(t, c, handler)];
    }

    method lookup(opType: string, opCommand: string) returns (handler: Option<H>)
      ensures handler == FirstMatch(handlers, opType, opCommand)
    {
      var emptyCmd := stringToBytes32Hex([]);
      var i := 0;
      while i < |handlers|
        invariant i <= |handlers|
        invariant FirstMatch(handlers[i..], opType, opCommand) == FirstMatch(handlers, opType, opCommand)
      {
        var entry := handlers[i];
        if entry.opType == opType && (entry.opCommand == emptyCmd || entry.opCommand == opCommand) {
          return Some(entry.handler);
        }
        i := i + 1;
      }
      return None;
    }
  }

  /** The handler found is the one at the least matching index, and none is found when none matches. */
  lemma {:induction false} LookupIsLeastMatch<H>(entries: seq<Entry<H>>, opType: string, opCommand: string)
    ensures match FirstMatch(entries, opType, opCommand)
            case None => forall i :: 0 <= i < |entries| ==> !Matches(entries[i], opType, opCommand)
            case Some(h) => exists i :: 0 <= i < |entries| && Matches(entries[i], opType, opCommand) && entries[i].handler == h
                              && forall j :: 0 <= j < i ==> !Matches(entries[j], opType, opCommand)
  {
    if entries != [] && !Matches(entries[0], opType, opCommand) {
      var rest := entries[1..];
      LookupIsLeastMatch(rest, opType, opCommand);
      assert forall i :: 0 < i < |entries| ==> entries[i] == rest[i - 1];
      if FirstMatch(rest, opType, opCommand).Some? {
        var i :| 0 <= i < |rest| && Matches(rest[i], opType, opCommand) && rest[i].handler == FirstMatch(rest, opType, opCommand).value
                 && forall j :: 0 <= j < i ==> !Matches(rest[j], opType, opCommand);
        assert Matches(entries[i + 1], opType, opCommand) && entries[i + 1].handler == rest[i].handler;
      }
    }
  }

  // ----- dispatch on names

  /** A registration as the application wrote it. */
  datatype Registration<+H> = Registration(opType: Bytes, opCommand: Bytes, handler: H)

  function Register<H>(rs: seq<Registration<H>>): seq<Entry<H>> {
    if rs == [] then []
    else [Entry(NameToHex(rs[0].opType), NameToHex(rs[0].opCommand), rs[0].handler)] + Register(rs[1..])
  }

  /** Dispatch as a reader of the registrations understands it. */
  function ByName<H>(rs: seq<Registration<H>>, opType: Bytes, opCommand: Bytes): Option<H> {
    if rs == [] then None
    else if rs[0].opType == opType && (rs[0].opCommand == [] || rs[0].opCommand == opCommand) then Some(rs[0].handler)
    else ByName(rs[1..], opType, opCommand)
  }

  /** Dispatch on the hex keys is dispatch on the names. */
  lemma {:induction false} DispatchByHexIsByName<H>(rs: seq<Registration<H>>, opType: Bytes, opCommand: Bytes)
    requires IsName(opType) && IsName(opCommand)
    requires forall i :: 0 <= i < |rs| ==> IsName(rs[i].opType) && IsName(rs[i].opCommand)
    ensures FirstMatch(Register(rs), NameToHex(opType), NameToHex(opCommand)) == ByName(rs, opType, opCommand)
  {
    if rs != [] {
      NamesAreDistinct(rs[0].opType, opType);
      NamesAreDistinct(rs[0].opCommand, opCommand);
      NamesAreDistinct(rs[0].opCommand, []);
      DispatchByHexIsByName(rs[1..], opType, opCommand);
      assert Register(rs)[1..] == Register(rs[1..]);
    }
  }
}
