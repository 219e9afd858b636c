/** Response assembly on the AT channel: each line from the modem ends the pending command, joins its
    intermediate responses or goes to the unsolicited handler. Intermediate lines are kept in a
    singly linked list, newest first, which is reversed in place before it is handed out. */
module AtResponse {
  import opened Common

  datatype Kind = NoResult | Numeric | SingleLine | MultiLine

  const FINAL_ERRORS: seq<string> := [
    "ERROR", "+CMS ERROR:", "+CME ERROR:", "NO CARRIER", "NO ANSWER", "NO DIALTONE", "COMMAND NOT SUPPORT"]

  const FINAL_SUCCESSES: seq<string> := ["OK", "+QIND: \"FOTA\",\"END\",0", "CONNECT"]

  predicate StartsWithAny(line: string, prefixes: seq<string>) {
    exists i :: 0 <= i < |prefixes| && prefixes[i] <= line
  }

  predicate IsSuccess(line: string) { StartsWithAny(line, FINAL_SUCCESSES) }

  predicate IsFinal(line: string) { IsSuccess(line) || StartsWithAny(line, FINAL_ERRORS) }

  predicate IsDigit(c: char) { '0' <= c <= '9' }

  /** Whether a line is of the sort the pending command collects. */
  predicate Matches(kind: Kind, prefix: string, line: string) {
    match kind
    case NoResult => false
    case Numeric => line != [] && IsDigit(line[0])
    case SingleLine => prefix <= line
    case MultiLine => prefix <= line
  }

  // ---------------------------------------------------------------- what a command receives

  const CONNECT := "CONNECT"
  const SMS_PROMPT := "> "
  const CTRL_Z := ['\U{1A}']

  /** The pending command's result so far, its intermediate lines in arrival order, the lines given to
      the unsolicited handler, the raw data and the SMS body that wait for their cue, and what was
      written to the modem on such a cue. */
  datatype Acc = Acc(
    success: bool, final: Option<string>, mids: seq<string>, unsol: seq<string>,
    raw: Option<string>, sms: Option<string>, written: seq<string>)

  function Take(a: Acc, kind: Kind, prefix: string, proxy: bool, line: string): Acc {
    if a.raw.Some? && line == CONNECT then a.(raw := None, written := a.written + [a.raw.value])
    else if IsFinal(line) then
      a.(success := IsSuccess(line), final := Some(line), unsol := if proxy then a.unsol + [line] else a.unsol)
    else if a.sms.Some? && line == SMS_PROMPT then a.(sms := None, written := a.written + [a.sms.value + CTRL_Z])
    else if Matches(kind, prefix, line) && (kind == MultiLine || a.mids == []) then a.(mids := a.mids + [line])
    else a.(unsol := a.unsol + [line])
  }

  function TakeAll(a: Acc, kind: Kind, prefix: string, proxy: bool, lines: seq<string>): Acc {
    if lines == [] then a
    else Take(TakeAll(a, kind, prefix, proxy, lines[..|lines| - 1]), kind, prefix, proxy, lines[|lines| - 1])
  }

  lemma TakeNext(a: Acc, kind: Kind, prefix: string, proxy: bool, lines: seq<string>, n: nat)
    requires n < |lines|
    ensures TakeAll(a, kind, prefix, proxy, lines[..n + 1]) == Take(TakeAll(a, kind, prefix, proxy, lines[..n]), kind, prefix, proxy, lines[n])
  {
    assert lines[..n + 1][..n] == lines[..n];
  }

  /** The matching lines of `lines`, in order. */
  function Matching(kind: Kind, prefix: string, lines: seq<string>): seq<string> {
    if lines == [] then []
    else Matching(kind, prefix, lines[..|lines| - 1])
         + (if Matches(kind, prefix, lines[|lines| - 1]) then [lines[|lines| - 1]] else [])
  }

  function NotMatching(kind: Kind, prefix: string, lines: seq<string>): seq<string> {
    if lines == [] then []
    else NotMatching(kind, prefix, lines[..|lines| - 1])
         + (if Matches(kind, prefix, lines[|lines| - 1]) then [] else [lines[|lines| - 1]])
  }

  // ---------------------------------------------------------------- which lines are which

  predicate StartsAs(line: string, text: string) {
    |text| <= |line| && forall j :: 0 <= j < |text| ==> line[j] == text[j]
  }

  /** A numeric command collects lines that begin with a digit, a single-line or multi-line command those
      that begin with its prefix, character by character, and a command without result none. */
  lemma MatchesMeans(kind: Kind, prefix: string, line: string)
    ensures Matches(kind, prefix, line) <==>
              match kind
              case NoResult => false
              case Numeric => |line| > 0 && 48 <= line[0] as int <= 57
              case SingleLine => StartsAs(line, prefix)
              case MultiLine => StartsAs(line, prefix)
  {
    PrefixMeans(line, prefix);
  }

  lemma PrefixMeans(line: string, text: string)
    ensures text <= line <==> StartsAs(line, text)
  {
    if StartsAs(line, text) {
      assert line[..|text|] == text;
    }
  }

  /** Three beginnings make a line a success and seven an error; no line is both, so it does not matter
      which is tested first. */
  lemma FinalsMean(line: string)
    ensures IsSuccess(line) <==>
              StartsAs(line, "OK") || StartsAs(line, "CONNECT") || StartsAs(line, "+QIND: \"FOTA\",\"END\",0")
    ensures IsFinal(line) && !IsSuccess(line) <==>
              || StartsAs(line, "ERROR") || StartsAs(line, "+CMS ERROR:") || StartsAs(line, "+CME ERROR:")
              || StartsAs(line, "NO CARRIER") || StartsAs(line, "NO ANSWER") || StartsAs(line, "NO DIALTONE")
              || StartsAs(line, "COMMAND NOT SUPPORT")
  {
    SuccessMeans(line);
    ErrorMeans(line);
    NeverBoth(line);
  }

  lemma SuccessMeans(line: string)
    ensures IsSuccess(line) <==>
              StartsAs(line, "OK") || StartsAs(line, "CONNECT") || StartsAs(line, "+QIND: \"FOTA\",\"END\",0")
  {
    AnyMeans(line, FINAL_SUCCESSES);
    assert StartsWithAny(line, FINAL_SUCCESSES) <==>
             StartsAs(line, FINAL_SUCCESSES[0]) || StartsAs(line, FINAL_SUCCESSES[1]) || StartsAs(line, FINAL_SUCCESSES[2]);
  }

  lemma AnyMeans(line: string, texts: seq<string>)
    ensures StartsWithAny(line, texts) <==> exists i :: 0 <= i < |texts| && StartsAs(line, texts[i])
  {
    forall i | 0 <= i < |texts| ensures texts[i] <= line <==> StartsAs(line, texts[i]) {
      PrefixMeans(line, texts[i]);
    }
  }

  lemma ErrorMeans(line: string)
    ensures StartsWithAny(line, FINAL_ERRORS) <==>
              || StartsAs(line, "ERROR") || StartsAs(line, "+CMS ERROR:") || StartsAs(line, "+CME ERROR:")
              || StartsAs(line, "NO CARRIER") || StartsAs(line, "NO ANSWER") || StartsAs(line, "NO DIALTONE")
              || StartsAs(line, "COMMAND NOT SUPPORT")
  {
    AnyMeans(line, FINAL_ERRORS);
    assert StartsWithAny(line, FINAL_ERRORS) <==>
             || StartsAs(line, FINAL_ERRORS[0]) || StartsAs(line, FINAL_ERRORS[1]) || StartsAs(line, FINAL_ERRORS[2])
             || StartsAs(line, FINAL_ERRORS[3]) || StartsAs(line, FINAL_ERRORS[4]) || StartsAs(line, FINAL_ERRORS[5])
             || StartsAs(line, FINAL_ERRORS[6]);
  }

  lemma NeverBoth(line: string)
    ensures !(IsSuccess(line) && StartsWithAny(line, FINAL_ERRORS))
  {
    SuccessMeans(line);
    ErrorMeans(line);
    assert IsSuccess(line) ==>
             |line| >= 2 && (line[0] == 'O' || (line[0] == 'C' && |line| > 2 && line[2] == 'N') || (line[0] == '+' && line[1] == 'Q'));
  }

  predicate NoFinal(lines: seq<string>) { forall i :: 0 <= i < |lines| ==> !IsFinal(lines[i]) }

  /** The matching lines and the others, of one line and of lines after lines. */
  lemma MatchingSplits(kind: Kind, prefix: string, line: string, xs: seq<string>, ys: seq<string>)
    ensures Matching(kind, prefix, [line]) == if Matches(kind, prefix, line) then [line] else []
    ensures NotMatching(kind, prefix, [line]) == if Matches(kind, prefix, line) then [] else [line]
    ensures Matching(kind, prefix, xs + ys) == Matching(kind, prefix, xs) + Matching(kind, prefix, ys)
    ensures NotMatching(kind, prefix, xs + ys) == NotMatching(kind, prefix, xs) + NotMatching(kind, prefix, ys)
  {
    assert [line][..0] == [];
    MatchingAppend(kind, prefix, xs, ys);
    NotMatchingAppend(kind, prefix, xs, ys);
  }

  lemma {:induction false} MatchingAppend(kind: Kind, prefix: string, xs: seq<string>, ys: seq<string>)
    ensures Matching(kind, prefix, xs + ys) == Matching(kind, prefix, xs) + Matching(kind, prefix, ys)
  {
    if ys == [] {
      assert xs + ys == xs;
    } else {
      LastOfSum(xs, ys);
      MatchingAppend(kind, prefix, xs, ys[..|ys| - 1]);
    }
  }

  lemma {:induction false} NotMatchingAppend(kind: Kind, prefix: string, xs: seq<string>, ys: seq<string>)
    ensures NotMatching(kind, prefix, xs + ys) == NotMatching(kind, prefix, xs) + NotMatching(kind, prefix, ys)
  {
    if ys == [] {
      assert xs + ys == xs;
    } else {
      LastOfSum(xs, ys);
      NotMatchingAppend(kind, prefix, xs, ys[..|ys| - 1]);
    }
  }

  /** A MULTILINE command gets exactly the lines with its prefix, in arrival order, and every other
      line goes to the unsolicited handler, once, in order. */
  lemma {:induction false} MultiLineTakes(a: Acc, prefix: string, proxy: bool, lines: seq<string>)
    requires NoFinal(lines) && a.raw == None && a.sms == None
    ensures TakeAll(a, MultiLine, prefix, proxy, lines)
         == a.(mids := a.mids + Matching(MultiLine, prefix, lines), unsol := a.unsol + NotMatching(MultiLine, prefix, lines))
  {
    if lines == [] {
      assert a.mids + [] == a.mids && a.unsol + [] == a.unsol;
    } else {
      var last := lines[|lines| - 1];
      assert last in lines;
      MultiLineTakes(a, prefix, proxy, lines[..|lines| - 1]);
    }
  }

  /** The place of the first line a single-answer command takes, or the number of lines. */
  function FirstMatch(kind: Kind, prefix: string, lines: seq<string>): (i: nat)
    ensures i <= |lines|
    ensures i < |lines| ==> Matches(kind, prefix, lines[i])
    ensures forall j :: 0 <= j < i ==> !Matches(kind, prefix, lines[j])
  {
    if lines == [] then 0
    else
      var i := FirstMatch(kind, prefix, lines[..|lines| - 1]);
      if i < |lines| - 1 || Matches(kind, prefix, lines[|lines| - 1]) then i else |lines|
  }

  /** Lines that the command does not collect, or no longer, all go to the unsolicited handler. */
  lemma {:induction false} PassedOn(a: Acc, kind: Kind, prefix: string, proxy: bool, lines: seq<string>)
    requires NoFinal(lines) && kind != MultiLine && a.raw == None && a.sms == None
    requires a.mids == [] ==> forall i :: 0 <= i < |lines| ==> !Matches(kind, prefix, lines[i])
    ensures TakeAll(a, kind, prefix, proxy, lines) == a.(unsol := a.unsol + lines)
  {
    if lines == [] {
      assert a.unsol + [] == a.unsol;
    } else {
      var n := |lines| - 1;
      assert lines[n] in lines;
      PassedOn(a, kind, prefix, proxy, lines[..n]);
      assert a.unsol + lines[..n] + [lines[n]] == a.unsol + lines;
    }
  }

  /** A SINGLELINE or NUMERIC command gets the first matching line alone; every line but that one goes
      to the unsolicited handler in order, and a NO_RESULT command gets none. */
  lemma SingleTakes(a: Acc, kind: Kind, prefix: string, proxy: bool, lines: seq<string>)
    requires NoFinal(lines) && kind != MultiLine && a.mids == [] && a.raw == None && a.sms == None
    ensures var i := FirstMatch(kind, prefix, lines);
            TakeAll(a, kind, prefix, proxy, lines)
            == if i == |lines| then a.(unsol := a.unsol + lines)
               else a.(mids := [lines[i]], unsol := a.unsol + (lines[..i] + lines[i + 1..]))
  {
    var i := FirstMatch(kind, prefix, lines);
    if i == |lines| {
      PassedOn(a, kind, prefix, proxy, lines);
    } else {
      PartsOf(lines, i);
      FirstTaken(a, kind, prefix, proxy, lines[..i], lines[i], lines[i + 1..]);
    }
  }

  lemma PartsOf(lines: seq<string>, i: nat)
    requires NoFinal(lines) && i < |lines|
    ensures NoFinal(lines[..i]) && NoFinal(lines[i + 1..]) && lines == lines[..i] + ([lines[i]] + lines[i + 1..])
  {
  }

  lemma TakeAllThree(a: Acc, kind: Kind, prefix: string, proxy: bool, before: seq<string>, line: string, after: seq<string>)
    ensures TakeAll(a, kind, prefix, proxy, before + ([line] + after))
         == TakeAll(TakeAll(TakeAll(a, kind, prefix, proxy, before), kind, prefix, proxy, [line]), kind, prefix, proxy, after)
  {
    TakeAllAppend(a, kind, prefix, proxy, before, [line] + after);
    TakeAllAppend(TakeAll(a, kind, prefix, proxy, before), kind, prefix, proxy, [line], after);
  }

  lemma LineTaken(a: Acc, kind: Kind, prefix: string, proxy: bool, line: string)
    requires !IsFinal(line) && a.mids == [] && a.raw == None && a.sms == None && Matches(kind, prefix, line)
    ensures TakeAll(a, kind, prefix, proxy, [line]) == a.(mids := [line])
  {
    assert [line][..0] == [];
    assert TakeAll(a, kind, prefix, proxy, [line]) == Take(a, kind, prefix, proxy, line);
    assert a.mids + [line] == [line];
  }

  lemma FirstTaken(a: Acc, kind: Kind, prefix: string, proxy: bool, before: seq<string>, line: string, after: seq<string>)
    requires NoFinal(before) && !IsFinal(line) && NoFinal(after) && kind != MultiLine && a.mids == [] && a.raw == None && a.sms == None
    requires Matches(kind, prefix, line) && forall i :: 0 <= i < |before| ==> !Matches(kind, prefix, before[i])
    ensures TakeAll(a, kind, prefix, proxy, before + ([line] + after)) == a.(mids := [line], unsol := a.unsol + (before + after))
  {
    TakeAllThree(a, kind, prefix, proxy, before, line, after);
    PassedOn(a, kind, prefix, proxy, before);
    var b := a.(unsol := a.unsol + before);
    LineTaken(b, kind, prefix, proxy, line);
    PassedOn(b.(mids := [line]), kind, prefix, proxy, after);
    assert a.unsol + before + after == a.unsol + (before + after);
  }

  /** What a command that ends with `final` is given, for each kind of command, when no raw data and no
      SMS body waits; a proxy's handler hears of the final line as well. */
  lemma CommandResult(kind: Kind, prefix: string, proxy: bool, lines: seq<string>, final: string, start: Acc)
    requires NoFinal(lines) && IsFinal(final) && start.mids == [] && start.raw == None && start.sms == None
    ensures var a := TakeAll(start, kind, prefix, proxy, lines + [final]);
            var i := FirstMatch(kind, prefix, lines); var last := if proxy then [final] else [];
            && a.success == IsSuccess(final) && a.final == Some(final) && a.written == start.written
            && (kind == MultiLine ==>
                  && a.mids == Matching(kind, prefix, lines)
                  && a.unsol == start.unsol + NotMatching(kind, prefix, lines) + last)
            && (kind != MultiLine && i < |lines| ==>
                  a.mids == [lines[i]] && a.unsol == start.unsol + (lines[..i] + lines[i + 1..]) + last)
            && (kind != MultiLine && i == |lines| ==> a.mids == [] && a.unsol == start.unsol + lines + last)
  {
    assert (lines + [final])[..|lines|] == lines;
    var b := TakeAll(start, kind, prefix, proxy, lines);
    if kind == MultiLine {
      MultiLineTakes(start, prefix, proxy, lines);
      assert [] + Matching(kind, prefix, lines) == Matching(kind, prefix, lines);
    } else {
      SingleTakes(start, kind, prefix, proxy, lines);
    }
    assert b.unsol + [] == b.unsol;
  }

  /** With no raw data waiting a command has its final result exactly once a final line has come. */
  lemma {:induction false} NoFinalExactly(a: Acc, kind: Kind, prefix: string, proxy: bool, lines: seq<string>)
    requires a.final == None && a.raw == None
    ensures var b := TakeAll(a, kind, prefix, proxy, lines); (b.final == None <==> NoFinal(lines)) && b.raw == None
  {
    if lines != [] {
      var n := |lines| - 1;
      NoFinalExactly(a, kind, prefix, proxy, lines[..n]);
      NoFinalLast(lines);
    }
  }

  lemma NoFinalLast(lines: seq<string>)
    requires lines != []
    ensures NoFinal(lines) <==> NoFinal(lines[..|lines| - 1]) && !IsFinal(lines[|lines| - 1])
  {
    assert lines == lines[..|lines| - 1] + [lines[|lines| - 1]];
  }

  predicate NoCue(lines: seq<string>) { NoFinal(lines) && SMS_PROMPT !in lines }

  lemma {:induction false} CuesWait(a: Acc, kind: Kind, prefix: string, proxy: bool, lines: seq<string>)
    requires NoCue(lines)
    ensures var b := TakeAll(a, kind, prefix, proxy, lines);
            b.raw == a.raw && b.sms == a.sms && b.written == a.written && b.final == a.final
  {
    if lines != [] {
      var n := |lines| - 1;
      assert lines[n] in lines;
      ConnectFinal();
      CuesWait(a, kind, prefix, proxy, lines[..n]);
    }
  }

  /** Until its cue comes, what waits for it does not change what else becomes of the lines. */
  lemma {:induction false} CuesApart(a: Acc, kind: Kind, prefix: string, proxy: bool, lines: seq<string>)
    requires NoCue(lines)
    ensures var b := TakeAll(a.(raw := None, sms := None), kind, prefix, proxy, lines);
            TakeAll(a, kind, prefix, proxy, lines) == b.(raw := a.raw, sms := a.sms)
  {
    if lines != [] {
      var n := |lines| - 1;
      assert lines[n] in lines;
      ConnectFinal();
      CuesApart(a, kind, prefix, proxy, lines[..n]);
    }
  }

  /** A command whose cue comes is given what it would be given without the cue. */
  lemma CueLeavesRest(a: Acc, kind: Kind, prefix: string, proxy: bool, before: seq<string>, after: seq<string>, cue: string)
    requires NoCue(before) && NoCue(after)
    requires if cue == CONNECT then a.raw.Some? && a.sms == None else cue == SMS_PROMPT && a.sms.Some? && a.raw == None
    ensures var b, c := TakeAll(a, kind, prefix, proxy, before + [cue] + after),
                        TakeAll(a.(raw := None, sms := None), kind, prefix, proxy, before + after);
            (b.mids, b.unsol, b.success) == (c.mids, c.unsol, c.success)
  {
    var a0 := a.(raw := None, sms := None);
    var a1 := TakeAll(a0, kind, prefix, proxy, before);
    CuesApart(a, kind, prefix, proxy, before);
    CuesWait(a0, kind, prefix, proxy, before);
    OnCue(a1.(raw := a.raw, sms := a.sms), kind, prefix, proxy, cue);
    assert (before + [cue])[..|before|] == before;
    TakeAllAppend(a, kind, prefix, proxy, before + [cue], after);
    TakeAllAppend(a0, kind, prefix, proxy, before, after);
    WrittenApart(a1, kind, prefix, proxy, after, a1.written + [if cue == CONNECT then a.raw.value else a.sms.value + CTRL_Z]);
  }

  lemma OnCue(a: Acc, kind: Kind, prefix: string, proxy: bool, cue: string)
    requires if cue == CONNECT then a.raw.Some? && a.sms == None else cue == SMS_PROMPT && a.sms.Some? && a.raw == None
    ensures Take(a, kind, prefix, proxy, cue)
         == a.(raw := None, sms := None, written := a.written + [if cue == CONNECT then a.raw.value else a.sms.value + CTRL_Z])
  {
    PromptNotFinal();
  }

  lemma {:induction false} WrittenApart(a: Acc, kind: Kind, prefix: string, proxy: bool, lines: seq<string>, w: seq<string>)
    requires a.raw == None && a.sms == None
    ensures TakeAll(a.(written := w), kind, prefix, proxy, lines) == TakeAll(a, kind, prefix, proxy, lines).(written := w)
    ensures var b := TakeAll(a, kind, prefix, proxy, lines); b.raw == None && b.sms == None
  {
    if lines != [] {
      WrittenApart(a, kind, prefix, proxy, lines[..|lines| - 1], w);
    }
  }

  /** Raw data is written on the first CONNECT, which then is no final result and reaches nobody; an SMS
      body is written, with its terminator, on the first prompt; and each is written only once. */
  lemma CueWritesOnce(a: Acc, kind: Kind, prefix: string, proxy: bool, before: seq<string>, after: seq<string>, cue: string)
    requires NoCue(before) && NoCue(after)
    requires if cue == "CONNECT" then a.raw.Some? && a.sms == None else cue == "> " && a.sms.Some? && a.raw == None
    ensures var b := TakeAll(a, kind, prefix, proxy, before + [cue] + after);
            && b.written == a.written + [if cue == "CONNECT" then a.raw.value else a.sms.value + [26 as char]]
            && b.raw == None && b.sms == None && b.final == a.final
  {
    var upTo := before + [cue];
    assert upTo[..|before|] == before;
    CuesWait(a, kind, prefix, proxy, before);
    TakeAllAppend(a, kind, prefix, proxy, upTo, after);
    assert !IsFinal(SMS_PROMPT) by {
      PromptNotFinal();
    }
    CuesWait(TakeAll(a, kind, prefix, proxy, upTo), kind, prefix, proxy, after);
  }

  lemma ConnectFinal()
    ensures IsFinal(CONNECT)
  {
    assert FINAL_SUCCESSES[2] <= CONNECT;
  }

  lemma PromptNotFinal()
    ensures !IsFinal(SMS_PROMPT)
  {
    assert forall i :: 0 <= i < |FINAL_SUCCESSES| ==> FINAL_SUCCESSES[i][0] != '>';
    assert forall i :: 0 <= i < |FINAL_ERRORS| ==> FINAL_ERRORS[i][0] != '>';
  }

  lemma LastOfSum(xs: seq<string>, ys: seq<string>)
    requires ys != []
    ensures var all := xs + ys; all[..|all| - 1] == xs + ys[..|ys| - 1] && all[|all| - 1] == ys[|ys| - 1]
  {
  }

  lemma {:induction false} TakeAllAppend(a: Acc, kind: Kind, prefix: string, proxy: bool, xs: seq<string>, ys: seq<string>)
    ensures TakeAll(a, kind, prefix, proxy, xs + ys) == TakeAll(TakeAll(a, kind, prefix, proxy, xs), kind, prefix, proxy, ys)
  {
    if ys == [] {
      assert xs + ys == xs;
    } else {
      var n := |ys| - 1;
      TakeAllAppend(a, kind, prefix, proxy, xs, ys[..n]);
      LastOfSum(xs, ys);
    }
  }

  /** A line that comes after the final result, but before the command's thread has taken the response,
      leaves the response alone exactly when the command would not collect it and it is no final
      result, or the same one again. */
  lemma LateLineHarmlessExactly(a: Acc, kind: Kind, prefix: string, proxy: bool, line: string)
    requires a.final.Some? && a.success == IsSuccess(a.final.value) && a.raw == None && a.sms == None
    ensures var b := Take(a, kind, prefix, proxy, line);
            (b.success, b.final, b.mids) == (a.success, a.final, a.mids)
            <==> if IsFinal(line) then line == a.final.value
                 else !(Matches(kind, prefix, line) && (kind == MultiLine || a.mids == []))
  {
    assert |a.mids + [line]| != |a.mids|;
  }

  /** The first `n` lines leave the command without a final result, up to the last of them. */
  ghost predicate Waits(a: Acc, kind: Kind, prefix: string, proxy: bool, lines: seq<string>, n: nat)
    requires n <= |lines|
  {
    forall j :: 0 <= j < n ==> TakeAll(a, kind, prefix, proxy, lines[..j]).final == None
  }

  /** A wait that ends after `taken` lines: they are all there are, with no final result among them, or
      the first `first` lines end with the first final result and at most `late` more are taken. */
  ghost predicate Stops(a: Acc, kind: Kind, prefix: string, proxy: bool, lines: seq<string>, late: nat, first: nat, taken: nat)
  {
    && first <= taken <= |lines| && Waits(a, kind, prefix, proxy, lines, first)
    && if TakeAll(a, kind, prefix, proxy, lines[..first]).final == None then first == |lines|
       else taken == if first + late <= |lines| then first + late else |lines|
  }

  // ---------------------------------------------------------------- the channel on the heap

  class AtLine {
    var next: AtLine?
    const line: string

    constructor (line: string, next: AtLine?)
      ensures this.line == line && this.next == next
    {
      this.line, this.next := line, next;
    }
  }

  /** `nodes` are distinct and linked in this order from `head` to a null link. */
  ghost predicate Chain(head: AtLine?, nodes: seq<AtLine>)
    reads nodes
  {
    && (forall i, j :: 0 <= i < j < |nodes| ==> nodes[i] != nodes[j])
    && head == (if nodes == [] then null else nodes[0])
    && (forall i {:trigger nodes[i].next} :: 0 <= i < |nodes| ==> nodes[i].next == if i + 1 < |nodes| then nodes[i + 1] else null)
  }

  function Texts(nodes: seq<AtLine>): seq<string> {
    seq(|nodes|, i requires 0 <= i < |nodes| => nodes[i].line)
  }

  function Reversed<T>(s: seq<T>): seq<T> {
    if s == [] then [] else Reversed(s[1..]) + [s[0]]
  }

  lemma {:induction false} ReversedSame<T>(s: seq<T>)
    ensures forall x :: x in Reversed(s) ==> x in s
  {
    if s != [] {
      ReversedSame(s[1..]);
      assert s == [s[0]] + s[1..];
    }
  }

  lemma {:induction false} ReversedTexts(nodes: seq<AtLine>)
    ensures Texts(Reversed(nodes)) == Reversed(Texts(nodes))
  {
    if nodes != [] {
      ReversedTexts(nodes[1..]);
      assert Texts(nodes)[1..] == Texts(nodes[1..]);
      assert Texts(Reversed(nodes[1..]) + [nodes[0]]) == Texts(Reversed(nodes[1..])) + [nodes[0].line];
    }
  }

  lemma {:induction false} ReversedAppend<T>(s: seq<T>, x: T)
    ensures Reversed(s + [x]) == [x] + Reversed(s)
  {
    if s == [] {
      assert s + [x] == [x];
    } else {
      assert (s + [x])[1..] == s[1..] + [x];
      ReversedAppend(s[1..], x);
    }
  }

  lemma {:induction false} ReversedTwice<T>(s: seq<T>)
    ensures Reversed(Reversed(s)) == s
  {
    if s != [] {
      ReversedTwice(s[1..]);
      ReversedAppend(Reversed(s[1..]), s[0]);
    }
  }

  class Response {
    var success: bool
    var finalResponse: Option<string>
    var intermediates: AtLine?
    ghost var nodes: seq<AtLine>
    /** The nodes made for this response. */
    ghost var Repr: set<AtLine>

    constructor ()
      ensures Valid() && !success && finalResponse == None && nodes == [] && Repr == {}
    {
      success, finalResponse, intermediates, nodes, Repr := false, None, null, [], {};
    }

    ghost predicate Valid()
      reads this, nodes
    {
      Chain(intermediates, nodes) && forall n :: n in nodes ==> n in Repr
    }

    /** addIntermediate: a new node at the head of the list. */
    method AddIntermediate(line: string)
      requires Valid()
      modifies this`intermediates, this`nodes, this`Repr
      ensures Valid() && |nodes| > 0 && fresh(nodes[0]) && nodes[0].line == line && nodes == [nodes[0]] + old(nodes)
      ensures fresh(Repr - old(Repr))
    {
      var p := new AtLine(line, intermediates);
      intermediates := p;
      nodes, Repr := [p] + nodes, Repr + {p};
    }

    /** reverseIntermediates: the same nodes, in the other order. */
    method ReverseIntermediates()
      requires Valid()
      modifies this`intermediates, this`nodes, Repr
      ensures Valid() && nodes == Reversed(old(nodes)) && Repr == old(Repr)
    {
      ReversedSame(nodes);
      TurnLinks();
    }

    /** Its loop: the links are turned around one by one; no node is copied. */
    method TurnLinks()
      requires Chain(intermediates, nodes)
      modifies this`intermediates, this`nodes, nodes
      ensures Chain(intermediates, nodes) && nodes == Reversed(old(nodes))
    {
      ghost var all := nodes;
      ghost var done: seq<AtLine> := [];
      ghost var rest := nodes;
      var cur := intermediates;
      intermediates := null;
      while cur != null
        invariant Chain(intermediates, done) && Chain(cur, rest)
        invariant forall i, j :: 0 <= i < |done| && 0 <= j < |rest| ==> done[i] != rest[j]
        invariant Reversed(rest) + done == Reversed(all)
        invariant forall n :: n in rest ==> n in all
        decreases |rest|
      {
        ghost var n := rest[0];
        assert rest[0] in rest && cur == n;
        assert forall i :: 0 <= i < |rest[1..]| ==> rest[1..][i] == rest[i + 1];
        var next := cur.next;
        cur.next := intermediates;
        intermediates := cur;
        cur := next;
        assert Reversed(rest[1..]) + ([n] + done) == Reversed(rest[1..]) + [n] + done;
        done, rest := [n] + done, rest[1..];
      }
      assert Reversed(rest) + done == done;
      nodes := done;
    }
  }

  class Channel {
    var pending: Response?
    var kind: Kind
    var prefix: string
    const proxy: bool
    var unsolicited: seq<string>
    /** Raw data and the SMS body that wait for their cue, and what was written on one. */
    var raw: Option<string>
    var sms: Option<string>
    var written: seq<string>

    constructor (proxy: bool)
      ensures this.proxy == proxy && pending == null && unsolicited == [] && raw == None && sms == None && written == []
    {
      this.proxy := proxy;
      pending, kind, prefix, unsolicited := null, NoResult, [], [];
      raw, sms, written := None, None, [];
    }

    /** What the pending command has received: the list holds its lines newest first. */
    ghost function State(): Acc
      requires pending != null
      reads this, pending
    {
      Acc(pending.success, pending.finalResponse, Reversed(Texts(pending.nodes)), unsolicited, raw, sms, written)
    }

    method StrStartsWith(line: string, prefix: string) returns (yes: bool)
      ensures yes <==> prefix <= line
    {
      var i := 0;
      while i < |line| && i < |prefix|
        invariant i <= |line| && i <= |prefix| && line[..i] == prefix[..i]
      {
        if line[i] != prefix[i] {
          return false;
        }
        i := i + 1;
      }
      yes := i == |prefix|;
    }

    method StrStartsWithAny(line: string, prefixes: seq<string>) returns (yes: bool)
      ensures yes <==> StartsWithAny(line, prefixes)
    {
      for i := 0 to |prefixes|
        invariant forall j :: 0 <= j < i ==> !(prefixes[j] <= line)
      {
        var starts := StrStartsWith(line, prefixes[i]);
        if starts {
          return true;
        }
      }
      return false;
    }

    /** processLine */
    method ProcessLine(line: string)
      requires pending != null ==> pending.Valid()
      modifies this`unsolicited, this`raw, this`sms, this`written, pending
      ensures pending == old(pending)
      ensures pending == null ==>
                unsolicited == old(unsolicited) + [line] && (raw, sms, written) == old((raw, sms, written))
      ensures pending != null ==> pending.Valid() && State() == Take(old(State()), kind, prefix, proxy, line)
      ensures pending != null ==> fresh(pending.Repr - old(pending.Repr))
    {
      if pending == null {
        unsolicited := unsolicited + [line];
        return;
      }
      if raw.Some? && line == CONNECT {
        written := written + [raw.value];
        raw := None;
        return;
      }
      var success := StrStartsWithAny(line, FINAL_SUCCESSES);
      var failure := StrStartsWithAny(line, FINAL_ERRORS);
      if success || failure {
        Finish(line, success);
        return;
      }
      if sms.Some? && line == SMS_PROMPT {
        written := written + [sms.value + CTRL_Z];
        sms := None;
        return;
      }
      Collect(line);
    }

    /** A final result is recorded. */
    method Finish(line: string, success: bool)
      requires pending != null && pending.Valid()
      modifies this`unsolicited, pending`success, pending`finalResponse
      ensures pending.Valid() && State() == old(State()).(success := success, final := Some(line), unsol := unsolicited)
      ensures unsolicited == if proxy then old(unsolicited) + [line] else old(unsolicited)
    {
      if proxy {
        unsolicited := unsolicited + [line];
      }
      pending.success := success;
      pending.finalResponse := Some(line);
    }

    /** A line that is no cue and no final result joins the intermediate responses, or goes to the
        unsolicited handler. */
    method Collect(line: string)
      requires pending != null && pending.Valid()
      modifies this`unsolicited, pending
      ensures pending == old(pending) && pending.Valid()
      ensures var a := old(State());
              State() == if Matches(kind, prefix, line) && (kind == MultiLine || a.mids == []) then a.(mids := a.mids + [line])
                         else a.(unsol := a.unsol + [line])
      ensures fresh(pending.Repr - old(pending.Repr))
    {
      var mine := Mine(line);
      if mine {
        pending.AddIntermediate(line);
        assert Texts(pending.nodes)[1..] == Texts(old(pending.nodes));
      } else {
        unsolicited := unsolicited + [line];
      }
    }

    /** The switch over the command's kind: whether the line joins the intermediate responses. */
    method Mine(line: string) returns (yes: bool)
      requires pending != null && pending.Valid()
      ensures yes <==> Matches(kind, prefix, line) && (kind == MultiLine || pending.nodes == [])
    {
      var starts := StrStartsWith(line, prefix);
      match kind {
        case NoResult => yes := false;
        case Numeric => yes := pending.intermediates == null && line != [] && IsDigit(line[0]);
        case SingleLine => yes := pending.intermediates == null && starts;
        case MultiLine => yes := starts;
      }
    }

    /** The pending command has been given the first `n` of the arriving lines. */
    ghost predicate Given(r: Response, arrivals: seq<string>, n: nat, start: Acc)
      reads this, r, r.nodes
    {
      && pending == r && r.Valid() && n <= |arrivals|
      && State() == TakeAll(start, kind, prefix, proxy, arrivals[..n])
    }

    /** The reader thread processes line `n` while the command is pending. */
    method TakeLine(r: Response, arrivals: seq<string>, n: nat, ghost start: Acc)
      requires n < |arrivals| && Given(r, arrivals, n, start)
      modifies this`unsolicited, this`raw, this`sms, this`written, r
      ensures Given(r, arrivals, n + 1, start) && fresh(r.Repr - old(r.Repr))
    {
      TakeNext(start, kind, prefix, proxy, arrivals, n);
      ProcessLine(arrivals[n]);
    }

    /** The wait for a final result, during which the reader thread processes the arriving lines. */
    method WaitFinal(r: Response, arrivals: seq<string>) returns (taken: nat)
      requires pending == r && r.Valid() && r.finalResponse == None
      modifies this`unsolicited, this`raw, this`sms, this`written, r
      ensures pending == r && r.Valid() && fresh(r.Repr - old(r.Repr))
      ensures taken <= |arrivals| && Waits(old(State()), kind, prefix, proxy, arrivals, taken)
      ensures State() == TakeAll(old(State()), kind, prefix, proxy, arrivals[..taken])
      ensures r.finalResponse == None ==> taken == |arrivals|
    {
      taken := 0;
      ghost var start := State();
      while r.finalResponse == None && taken < |arrivals|
        invariant Given(r, arrivals, taken, start) && fresh(r.Repr - old(r.Repr))
        invariant Waits(start, kind, prefix, proxy, arrivals, taken)
        decreases |arrivals| - taken
      {
        TakeLine(r, arrivals, taken, start);
        taken := taken + 1;
      }
    }

    /** Lines that the reader thread still processes before the command's thread has woken up. */
    method LateLines(r: Response, arrivals: seq<string>, first: nat, late: nat, ghost start: Acc) returns (taken: nat)
      requires Given(r, arrivals, first, start)
      modifies this`unsolicited, this`raw, this`sms, this`written, r
      ensures Given(r, arrivals, taken, start) && fresh(r.Repr - old(r.Repr))
      ensures first <= taken == if first + late <= |arrivals| then first + late else |arrivals|
    {
      taken := first;
      while taken < first + late && taken < |arrivals|
        invariant first <= taken <= first + late
        invariant Given(r, arrivals, taken, start) && fresh(r.Repr - old(r.Repr))
        decreases |arrivals| - taken
      {
        TakeLine(r, arrivals, taken, start);
        taken := taken + 1;
      }
    }

    /** The wait and its end: `late` is how many more lines the reader thread can process after the final
        result before the command's thread has woken up. */
    method Await(r: Response, arrivals: seq<string>, late: nat) returns (ghost first: nat, taken: nat)
      requires pending == r && r.Valid() && r.finalResponse == None
      modifies this`unsolicited, this`raw, this`sms, this`written, r
      ensures pending == r && r.Valid() && fresh(r.Repr - old(r.Repr))
      ensures Stops(old(State()), kind, prefix, proxy, arrivals, late, first, taken)
      ensures State() == TakeAll(old(State()), kind, prefix, proxy, arrivals[..taken])
    {
      ghost var start := State();
      taken := WaitFinal(r, arrivals);
      first := taken;
      if r.finalResponse != None {
        taken := LateLines(r, arrivals, taken, late, start);
      }
    }

    /** The lines collected, newest first, are put in arrival order. */
    method HandOut(r: Response)
      requires r.Valid()
      modifies r`intermediates, r`nodes, r.Repr
      ensures r.Valid() && Texts(r.nodes) == Reversed(Texts(old(r.nodes)))
    {
      ReversedTexts(r.nodes);
      r.ReverseIntermediates();
    }

    /** at_send_command_full_nolock: the command is written, its lines arrive one by one until a final
        result, until the reader thread closes the channel, or until they stop and the wait times out.
        The list handed out is in arrival order; a closed channel leaves it to the caller to see that a
        final result is missing. A command issued while another is pending fails and gives up the
        pending one's response. An SMS body is forgotten at the end; raw data that got no cue is not. */
    method SendCommand(k: Kind, p: string, smsBody: Option<string>, sent: bool, arrivals: seq<string>, late: nat, closed: bool)
      returns (err: Err, resp: Response?, ghost first: nat, taken: nat)
      modifies this
      ensures pending == null && sms == None && taken <= |arrivals|
      ensures err == CommandPending <==> old(pending) != null
      ensures err == NotWritten <==> old(pending) == null && !sent
      ensures err == CommandPending || err == NotWritten ==>
                resp == null && taken == 0 && (unsolicited, raw, written) == old((unsolicited, raw, written))
      ensures old(pending) == null && sent ==>
                Ends(Acc(false, None, [], old(unsolicited), old(raw), smsBody, old(written)),
                     k, p, arrivals, late, closed, first, taken, err, resp)
    {
      first := 0;
      if pending != null {
        ClearPending();
        return CommandPending, null, 0, 0;
      }
      if !sent {
        ClearPending();
        return NotWritten, null, 0, 0;
      }
      err, resp, first, taken := RunCommand(k, p, smsBody, arrivals, late, closed);
    }

    /** How a command that was written ends. */
    ghost predicate Ends(start: Acc, k: Kind, p: string, arrivals: seq<string>, late: nat, closed: bool,
                         first: nat, taken: nat, err: Err, resp: Response?)
      reads this, resp, if resp == null then [] else resp.nodes
    {
      && Stops(start, k, p, proxy, arrivals, late, first, taken)
      && var a := TakeAll(start, k, p, proxy, arrivals[..taken]);
      && (unsolicited, raw, written) == (a.unsol, a.raw, a.written)
      && err == (if closed then ChannelClosed else if a.final == None then TimedOut else Done)
      && (resp == null <==> err == TimedOut)
      && (resp != null ==>
            resp.Valid() && (resp.success, resp.finalResponse, Texts(resp.nodes)) == (a.success, a.final, a.mids))
    }

    method StartCommand(k: Kind, p: string, smsBody: Option<string>) returns (r: Response)
      modifies `kind, `prefix, `sms, `pending
      ensures fresh(r) && pending == r && r.Valid() && r.Repr == {} && kind == k && prefix == p
      ensures State() == Acc(false, None, [], old(unsolicited), old(raw), smsBody, old(written))
    {
      kind, prefix, sms := k, p, smsBody;
      r := new Response();
      pending := r;
      assert Texts([]) == [];
    }

    /** The part of a command from its response's allocation on. */
    method RunCommand(k: Kind, p: string, smsBody: Option<string>, arrivals: seq<string>, late: nat, closed: bool)
      returns (err: Err, resp: Response?, ghost first: nat, taken: nat)
      modifies this
      ensures pending == null && sms == None && taken <= |arrivals|
      ensures err != CommandPending && err != NotWritten
      ensures Ends(Acc(false, None, [], old(unsolicited), old(raw), smsBody, old(written)),
                   k, p, arrivals, late, closed, first, taken, err, resp)
    {
      var r := StartCommand(k, p, smsBody);
      first, taken := Await(r, arrivals, late);
      ClearPending();
      resp := null;
      if r.finalResponse == None && !closed {
        err := TimedOut;
      } else {
        HandOut(r);
        resp := r;
        err := if closed then ChannelClosed else Done;
      }
    }

    /** clearPendingCommand */
    method ClearPending()
      modifies `pending, `prefix, `sms
      ensures pending == null && sms == None
    {
      pending, prefix, sms := null, [], None;
    }
  }

  /** What a command returns: success of the sending, or its error. */
  datatype Err = Done | CommandPending | NotWritten | TimedOut | ChannelClosed
}
