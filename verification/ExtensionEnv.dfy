/**
 The extension.env file: two parsers that were written separately, the checks that
 use one or the other, and the file that pre-build writes.
 */
module ExtensionEnv {
  import opened Wrappers

  // ----- lines and spaces

  /** unicode.IsSpace. */
  predicate IsSpace(c: char) {
    || '\t' <= c <= '\r' || c == ' ' || c == '\U{0085}' || c == '\U{00A0}' || c == '\U{1680}'
    || '\U{2000}' <= c <= '\U{200A}' || c == '\U{2028}' || c == '\U{2029}' || c == '\U{202F}' || c == '\U{205F}' || c == '\U{3000}'
  }

  function TrimLeft(s: string): string {
    if s != [] && IsSpace(s[0]) then TrimLeft(s[1..]) else s
  }

  function TrimRight(s: string): string {
    if s != [] && IsSpace(s[|s| - 1]) then TrimRight(s[..|s| - 1]) else s
  }

  /** strings.TrimSpace. */
  function TrimSpace(s: string): string {
    TrimRight(TrimLeft(s))
  }

  /** Where the first c is; the length if there is none. */
  function IndexOf(s: string, c: char): (n: nat)
    ensures n <= |s| && (n < |s| ==> s[n] == c) && forall i :: 0 <= i < n ==> s[i] != c
  {
    if s == [] || s[0] == c then 0 else 1 + IndexOf(s[1..], c)
  }

  /** bufio.Scanner's lines: without the line break and one carriage return before it; no empty last line. */
  function Lines(content: string): seq<string>
    decreases |content|
  {
    if content == [] then []
    else
      var n := IndexOf(content, '\n');
      [DropReturn(content[..n])] + if n < |content| then Lines(content[n + 1..]) else []
  }

  function DropReturn(line: string): string {
    if line != [] && line[|line| - 1] == '\r' then line[..|line| - 1] else line
  }

  // ----- the meaning of a file

  /** What a line assigns: nothing if it is blank, a comment, or has no equals sign. */
  function Assignment(line: string): Option<(string, string)> {
    var trimmed := TrimSpace(line);
    var n := IndexOf(trimmed, '=');
    if trimmed == [] || trimmed[0] == '#' || n == |trimmed| then None
    else Some((TrimSpace(trimmed[..n]), TrimSpace(trimmed[n + 1..])))
  }

  /** The value the file gives a variable: the last assignment wins. */
  function ValueOf(lines: seq<string>, key: string): Option<string> {
    if lines == [] then None else Assigned(lines[|lines| - 1], key, ValueOf(lines[..|lines| - 1], key))
  }

  /** The value of the variable after a line, given the value before it. */
  function Assigned(line: string, key: string, before: Option<string>): Option<string> {
    match Assignment(line)
    case Some((k, v)) => if k == key then Some(v) else before
    case None => before
  }

  // ----- the same, independently of how it is computed

  predicate AllSpace(s: string) {
    forall i :: 0 <= i < |s| ==> IsSpace(s[i])
  }

  /** t is s without its surrounding space: space before, space behind, and no space at its ends. */
  ghost predicate IsTrimmed(s: string, t: string) {
    && (t != [] ==> !IsSpace(t[0]) && !IsSpace(t[|t| - 1]))
    && exists before, behind :: AllSpace(before) && AllSpace(behind) && s == before + t + behind
  }

  lemma {:induction false} TrimLeftDrops(s: string) returns (before: string)
    ensures AllSpace(before) && s == before + TrimLeft(s) && (TrimLeft(s) != [] ==> !IsSpace(TrimLeft(s)[0]))
  {
    before := "";
    if s != [] && IsSpace(s[0]) {
      before := TrimLeftDrops(s[1..]);
      before := [s[0]] + before;
      assert s == [s[0]] + s[1..];
    }
  }

  lemma {:induction false} TrimRightDrops(s: string) returns (behind: string)
    ensures AllSpace(behind) && s == TrimRight(s) + behind && (TrimRight(s) != [] ==> !IsSpace(TrimRight(s)[|TrimRight(s)| - 1]))
    ensures TrimRight(s) != [] ==> TrimRight(s)[0] == s[0]
  {
    behind := "";
    if s != [] && IsSpace(s[|s| - 1]) {
      behind := TrimRightDrops(s[..|s| - 1]);
      behind := behind + [s[|s| - 1]];
      assert s == s[..|s| - 1] + [s[|s| - 1]];
    }
  }

  lemma TrimSpaceTrims(s: string)
    ensures IsTrimmed(s, TrimSpace(s))
  {
    var before := TrimLeftDrops(s);
    var behind := TrimRightDrops(TrimLeft(s));
    assert s == before + TrimSpace(s) + behind;
  }

  /** The line reads key = value, space aside, and is no comment; the first equals sign counts. */
  ghost predicate Assigns(line: string, key: string, value: string) {
    exists left, right :: TrimSpace(line) == left + "=" + right && '=' !in left
                          && (left != [] ==> left[0] != '#') && TrimSpace(left) == key && TrimSpace(right) == value
  }

  lemma AssignmentExactly(line: string, key: string, value: string)
    ensures Assignment(line) == Some((key, value)) <==> Assigns(line, key, value)
  {
    var trimmed := TrimSpace(line);
    var n := IndexOf(trimmed, '=');
    if Assignment(line) == Some((key, value)) {
      assert trimmed == trimmed[..n] + "=" + trimmed[n + 1..];
      assert n > 0 ==> trimmed[..n][0] == trimmed[0];
    }
    if Assigns(line, key, value) {
      var left, right :| trimmed == left + "=" + right && '=' !in left
                         && (left != [] ==> left[0] != '#') && TrimSpace(left) == key && TrimSpace(right) == value;
      assert trimmed[|left|] == '=';
      assert forall i :: 0 <= i < |left| ==> trimmed[i] == left[i] && left[i] in left;
      assert n == |left| && trimmed[..n] == left && trimmed[n + 1..] == right;
    }
  }

  ghost predicate AssignsSome(line: string, key: string) {
    exists value :: Assigns(line, key, value)
  }

  lemma LineAssigns(line: string, key: string)
    ensures AssignsSome(line, key) <==> Assignment(line).Some? && Assignment(line).value.0 == key
  {
    if Assignment(line).Some? && Assignment(line).value.0 == key {
      AssignmentExactly(line, key, Assignment(line).value.1);
    }
    if value :| Assigns(line, key, value) {
      AssignmentExactly(line, key, value);
    }
  }

  /** The last assignment wins: what the greatest line that assigns the variable gives it is its value. */
  lemma {:induction false} LastAssignmentWins(lines: seq<string>, key: string, i: nat, value: string)
    requires i < |lines| && Assigns(lines[i], key, value)
    requires forall j :: i < j < |lines| ==> !AssignsSome(lines[j], key)
    ensures ValueOf(lines, key) == Some(value)
    decreases |lines|
  {
    var n := |lines| - 1;
    if i == n {
      AssignmentExactly(lines[n], key, value);
    } else {
      LineAssigns(lines[n], key);
      assert forall j :: i < j < n ==> lines[..n][j] == lines[j];
      LastAssignmentWins(lines[..n], key, i, value);
    }
  }

  /** A variable that no line assigns has no value. */
  lemma {:induction false} UnassignedHasNone(lines: seq<string>, key: string)
    requires forall j :: 0 <= j < |lines| ==> !AssignsSome(lines[j], key)
    ensures ValueOf(lines, key) == None
  {
    if lines != [] {
      var n := |lines| - 1;
      LineAssigns(lines[n], key);
      assert forall j :: 0 <= j < n ==> lines[..n][j] == lines[j];
      UnassignedHasNone(lines[..n], key);
    }
  }

  const EXTENSION_ID := "EXTENSION_ID"
  const INSTRUCTION_SENDER := "INSTRUCTION_SENDER"

  // ----- the two parsers

  /** The map holds the value of every variable the lines assign, and nothing else. */
  ghost predicate Holds(vars: map<string, string>, lines: seq<string>) {
    forall key :: ValueOf(lines, key) == if key in vars then Some(vars[key]) else None
  }

  /** One more line read. */
  lemma NextLine(lines: seq<string>, i: nat, key: string)
    requires i < |lines|
    ensures ValueOf(lines[..i + 1], key) == Assigned(lines[i], key, ValueOf(lines[..i], key))
  {
    assert lines[..i + 1][..i] == lines[..i] && lines[..i + 1][i] == lines[i];
  }

  /** The parser inside CheckExtensionEnvFormat: every variable, in a map. */
  method parseAll(lines: seq<string>) returns (vars: map<string, string>)
    ensures Holds(vars, lines)
  {
    vars := map[];
    for i := 0 to |lines|
      invariant Holds(vars, lines[..i])
    {
      forall key ensures ValueOf(lines[..i + 1], key) == Assigned(lines[i], key, ValueOf(lines[..i], key)) {
        NextLine(lines, i, key);
      }
      var line := TrimSpace(lines[i]);
      if line == [] || line[0] == '#' {
        continue;
      }
      var n := IndexOf(line, '=');
      if n < |line| {
        vars := vars[TrimSpace(line[..n]) := TrimSpace(line[n + 1..])];
      }
    }
    assert lines[..|lines|] == lines;
  }

  function OrEmpty(value: Option<string>): string {
    if value.Some? then value.value else []
  }

  /** parseExtensionEnv: the two variables, empty when the file does not assign them. */
  method parseExtensionEnv(lines: seq<string>) returns (extensionID: string, instructionSender: string)
    ensures extensionID == OrEmpty(ValueOf(lines, EXTENSION_ID))
    ensures instructionSender == OrEmpty(ValueOf(lines, INSTRUCTION_SENDER))
  {
    extensionID, instructionSender := [], [];
    for i := 0 to |lines|
      invariant extensionID == OrEmpty(ValueOf(lines[..i], EXTENSION_ID))
      invariant instructionSender == OrEmpty(ValueOf(lines[..i], INSTRUCTION_SENDER))
    {
      NextLine(lines, i, EXTENSION_ID);
      NextLine(lines, i, INSTRUCTION_SENDER);
      var line := TrimSpace(lines[i]);
      if line == [] || line[0] == '#' {
        continue;
      }
      var n := IndexOf(line, '=');
      if n == |line| {
        continue;
      }
      var key, val := TrimSpace(line[..n]), TrimSpace(line[n + 1..]);
      if key == EXTENSION_ID {
        extensionID := val;
      } else if key == INSTRUCTION_SENDER {
        instructionSender := val;
      }
    }
    assert lines[..|lines|] == lines;
  }

  /** The two parsers agree on every file: a variable missing from the map is read as empty. */
  lemma ParsersAgree(lines: seq<string>, vars: map<string, string>, key: string)
    requires Holds(vars, lines)
    ensures OrEmpty(ValueOf(lines, key)) == if key in vars then vars[key] else []
  {
    assert ValueOf(lines, key) == if key in vars then Some(vars[key]) else None;
  }

  // ----- the checks

  predicate IsHexDigit(c: char) {
    '0' <= c <= '9' || 'a' <= c <= 'f' || 'A' <= c <= 'F'
  }

  /** 0x and exactly n hex digits. */
  predicate IsHexOf(s: string, n: nat) {
    |s| == n + 2 && s[0] == '0' && s[1] == 'x' && forall i :: 2 <= i < |s| ==> IsHexDigit(s[i])
  }

  predicate IsExtensionId(s: string) {
    IsHexOf(s, 64)
  }

  predicate IsAddress(s: string) {
    IsHexOf(s, 40)
  }

  datatype Verdict = Pass | Fail | Skip

  /** D7, on the map: one verdict for each of the two variables. */
  function CheckD7(vars: map<string, string>): (Verdict, Verdict) {
    (if INSTRUCTION_SENDER !in vars then Fail else if !IsAddress(vars[INSTRUCTION_SENDER]) then Fail else Pass,
     if EXTENSION_ID !in vars then Fail else if !IsExtensionId(vars[EXTENSION_ID]) then Fail else Pass)
  }

  /** S2 and V4, on the parsed extension id of a file that exists. */
  function CheckS2(extensionID: string): Verdict {
    if extensionID == [] then Fail else if !IsExtensionId(extensionID) then Fail else Pass
  }

  function CheckV4(extensionID: string, fileExists: bool): Verdict {
    if extensionID == [] then (if fileExists then Fail else Skip)
    else if !IsExtensionId(extensionID) then Fail
    else Pass
  }

  /** E1, on the parsed instruction sender. */
  function CheckE1(instructionSender: string, fileExists: bool): Verdict {
    if !fileExists then Skip
    else if instructionSender == [] then Fail
    else if !IsAddress(instructionSender) then Fail
    else Pass
  }

  /**
   On every readable file D7, S2 and V4 agree on the extension id, and D7 and E1 on the
   instruction sender: they pass exactly for 0x and 64, or 40, hex digits.
   */
  lemma VerdictsAgree(lines: seq<string>, vars: map<string, string>, extensionID: string, instructionSender: string)
    requires Holds(vars, lines)
    requires extensionID == OrEmpty(ValueOf(lines, EXTENSION_ID))
    requires instructionSender == OrEmpty(ValueOf(lines, INSTRUCTION_SENDER))
    ensures CheckD7(vars).1 == CheckS2(extensionID) == CheckV4(extensionID, true)
    ensures CheckD7(vars).0 == CheckE1(instructionSender, true)
    ensures CheckD7(vars).1 == if IsHexOf(extensionID, 64) then Pass else Fail
    ensures CheckD7(vars).0 == if IsHexOf(instructionSender, 40) then Pass else Fail
  {
    ParsersAgree(lines, vars, EXTENSION_ID);
    ParsersAgree(lines, vars, INSTRUCTION_SENDER);
  }

  // ----- the file pre-build writes

  const COMMENT := "# Auto-generated by pre-build.sh \U{2014} do not edit manually"

  function Written(extensionID: string, instructionSender: string): string {
    COMMENT + "\n" +
    (EXTENSION_ID + "=" + extensionID + "\n") + (INSTRUCTION_SENDER + "=" + instructionSender + "\n")
  }

  lemma LineBreak(line: string, rest: string)
    requires '\n' !in line
    ensures Lines(line + "\n" + rest) == [DropReturn(line)] + Lines(rest)
  {
    var content := line + "\n" + rest;
    assert content[|line|] == '\n';
    assert forall i :: 0 <= i < |line| ==> content[i] == line[i] && line[i] in line;
    assert IndexOf(content, '\n') == |line|;
    assert content[..|line|] == line && content[|line| + 1..] == rest;
  }

  /** A line break may be preceded by one carriage return, which is dropped; more of them are not. */
  lemma ReturnIsDropped(line: string, rest: string)
    requires '\n' !in line
    ensures Lines(line + "\r" + "\n" + rest) == [line] + Lines(rest)
  {
    var whole := line + "\r";
    assert whole[..|whole| - 1] == line;
    LineBreak(whole, rest);
  }

  /** A last line without a line break is a line, unless it is empty. */
  lemma LastLine(line: string)
    requires '\n' !in line
    ensures Lines(line) == if line == "" then [] else [DropReturn(line)]
  {
    assert IndexOf(line, '\n') == |line|;
    assert line[..|line|] == line;
  }

  /** Trimming on the right stops at the latest inside a prefix that does not end in a space. */
  lemma {:induction false} TrimRightConcat(prefix: string, s: string)
    requires prefix != [] && !IsSpace(prefix[|prefix| - 1])
    ensures TrimRight(prefix + s) == prefix + TrimRight(s)
  {
    if s == [] {
      assert prefix + s == prefix;
    } else if IsSpace(s[|s| - 1]) {
      assert (prefix + s)[..|prefix + s| - 1] == prefix + s[..|s| - 1];
      TrimRightConcat(prefix, s[..|s| - 1]);
    }
  }

  lemma {:induction false} TrimRightTwice(s: string)
    ensures TrimRight(TrimRight(s)) == TrimRight(s)
  {
    if s != [] && IsSpace(s[|s| - 1]) {
      TrimRightTwice(s[..|s| - 1]);
    }
  }

  /** Trimming the two ends commutes. */
  lemma {:induction false} TrimsCommute(s: string)
    ensures TrimLeft(TrimRight(s)) == TrimRight(TrimLeft(s))
    decreases |s|
  {
    if s == [] {
    } else if IsSpace(s[0]) {
      if |s| == 1 {
        assert s[..0] == [] && s[1..] == [];
      } else {
        assert s == [s[0]] + s[1..];
        TrimLeftOfTrimRight(s);
        TrimsCommute(s[1..]);
      }
    } else {
      assert s == [s[0]] + s[1..];
      TrimRightConcat([s[0]], s[1..]);
    }
  }

  lemma {:induction false} TrimLeftOfTrimRight(s: string)
    requires s != [] && IsSpace(s[0])
    ensures TrimLeft(TrimRight(s)) == TrimLeft(TrimRight(s[1..]))
    decreases |s|
  {
    if |s| == 1 {
      assert s[..0] == [] && s[1..] == [];
    } else if IsSpace(s[|s| - 1]) {
      TrimLeftOfTrimRight(s[..|s| - 1]);
      assert s[..|s| - 1][1..] == s[1..][..|s| - 2];
    } else {
      assert s[1..][|s| - 2] == s[|s| - 1];
    }
  }

  lemma TrimOfTrimRight(s: string)
    ensures TrimSpace(TrimRight(s)) == TrimSpace(s)
  {
    TrimsCommute(s);
    TrimsCommute(TrimRight(s));
    TrimRightTwice(s);
  }

  lemma TrimOfDropReturn(s: string)
    ensures TrimRight(DropReturn(s)) == TrimRight(s)
  {
  }

  predicate PlainName(name: string) {
    name != [] && name[0] != '#' && '=' !in name && !IsSpace(name[0]) && !IsSpace(name[|name| - 1])
  }

  /** A line NAME=value assigns the trimmed value, carriage return or not. */
  lemma WrittenLine(name: string, value: string)
    requires PlainName(name)
    ensures Assignment(DropReturn(name + "=" + value)) == Some((name, TrimSpace(value)))
  {
    var line, prefix := name + "=" + value, name + "=";
    assert line == prefix + value && prefix[|prefix| - 1] == '=';
    TrimOfDropReturn(line);
    TrimRightConcat(prefix, value);
    var dropped := DropReturn(line);
    assert dropped[0] == name[0];
    var trimmed := TrimSpace(dropped);
    assert trimmed == prefix + TrimRight(value);
    assert trimmed[|name|] == '=';
    assert forall i :: 0 <= i < |name| ==> trimmed[i] == name[i] && name[i] in name;
    assert IndexOf(trimmed, '=') == |name|;
    assert trimmed[..|name|] == name && trimmed[|name| + 1..] == TrimRight(value);
    TrimOfTrimRight(value);
    assert TrimSpace(name) == name;
  }

  lemma CommentLine(line: string)
    requires line != [] && line[0] == '#' && !IsSpace(line[|line| - 1])
    ensures Assignment(DropReturn(line)) == None
  {
    assert TrimRight(line) == line;
  }

  lemma PlainNames()
    ensures PlainName(EXTENSION_ID) && PlainName(INSTRUCTION_SENDER) && EXTENSION_ID != INSTRUCTION_SENDER
    ensures '\n' !in EXTENSION_ID && '\n' !in INSTRUCTION_SENDER
  {
    assert EXTENSION_ID[0] != INSTRUCTION_SENDER[0];
  }

  lemma CommentParts()
    ensures COMMENT == "# Auto-generated by pre-build.sh " + "\U{2014} do not edit manually"
  {
  }

  lemma CommentShape()
    ensures COMMENT != [] && COMMENT[0] == '#' && !IsSpace(COMMENT[|COMMENT| - 1]) && '\n' !in COMMENT
  {
    var first, last := "# Auto-generated by pre-build.sh ", "\U{2014} do not edit manually";
    CommentParts();
    assert first[0] == '#' && '\n' !in first;
    assert last[|last| - 1] == 'y' && '\n' !in last;
  }

  /** What the written file parses to: each value without surrounding space. */
  lemma WrittenFileParses(extensionID: string, instructionSender: string)
    requires '\n' !in extensionID && '\n' !in instructionSender
    ensures var lines := Lines(Written(extensionID, instructionSender));
            && ValueOf(lines, EXTENSION_ID) == Some(TrimSpace(extensionID))
            && ValueOf(lines, INSTRUCTION_SENDER) == Some(TrimSpace(instructionSender))
  {
    PlainNames();
    CommentShape();
    AssignmentsParse(COMMENT, EXTENSION_ID, extensionID, INSTRUCTION_SENDER, instructionSender);
  }

  lemma AssignmentsParse(comment: string, name1: string, value1: string, name2: string, value2: string)
    requires comment != [] && comment[0] == '#' && !IsSpace(comment[|comment| - 1]) && '\n' !in comment
    requires PlainName(name1) && PlainName(name2) && name1 != name2
    requires '\n' !in name1 && '\n' !in name2 && '\n' !in value1 && '\n' !in value2
    ensures var lines := Lines(comment + "\n" + (name1 + "=" + value1 + "\n") + (name2 + "=" + value2 + "\n"));
            ValueOf(lines, name1) == Some(TrimSpace(value1)) && ValueOf(lines, name2) == Some(TrimSpace(value2))
  {
    var first, second := name1 + "=" + value1, name2 + "=" + value2;
    assert comment + "\n" + (first + "\n") + (second + "\n") == comment + "\n" + (first + "\n" + (second + "\n" + []));
    WrittenLines(comment, first, second);
    CommentLine(comment);
    WrittenLine(name1, value1);
    WrittenLine(name2, value2);
    LastWins(DropReturn(comment), DropReturn(first), DropReturn(second));
  }

  lemma WrittenLines(comment: string, first: string, second: string)
    requires '\n' !in comment && '\n' !in first && '\n' !in second
    ensures Lines(comment + "\n" + (first + "\n" + (second + "\n" + []))) == [DropReturn(comment), DropReturn(first), DropReturn(second)]
  {
    LineBreak(comment, first + "\n" + (second + "\n" + []));
    LineBreak(first, second + "\n" + []);
    LineBreak(second, []);
  }

  lemma LastWins(comment: string, first: string, second: string)
    requires Assignment(comment) == None && Assignment(first).Some? && Assignment(second).Some?
    requires Assignment(first).value.0 != Assignment(second).value.0
    ensures var lines := [comment, first, second];
            && ValueOf(lines, Assignment(first).value.0) == Some(Assignment(first).value.1)
            && ValueOf(lines, Assignment(second).value.0) == Some(Assignment(second).value.1)
  {
    assert [comment, first, second][..2] == [comment, first];
  }

  lemma {:induction false} HexIsTrimmed(s: string, n: nat)
    requires IsHexOf(s, n)
    ensures TrimSpace(s) == s && '\n' !in s
  {
  }

  /** The values pre-build writes are those both parsers and all checks see. */
  lemma WrittenValuesComeBack(extensionID: string, instructionSender: string)
    requires IsExtensionId(extensionID) && IsAddress(instructionSender)
    ensures var lines := Lines(Written(extensionID, instructionSender));
            ValueOf(lines, EXTENSION_ID) == Some(extensionID) && ValueOf(lines, INSTRUCTION_SENDER) == Some(instructionSender)
  {
    HexIsTrimmed(extensionID, 64);
    HexIsTrimmed(instructionSender, 40);
    WrittenFileParses(extensionID, instructionSender);
  }
}
