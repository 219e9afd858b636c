/** The AT channel from the bytes to a command's response: the reader thread cuts lines out of the stream
    and hands them to the pending command. What a command gets is a function of the stream's lines; it
    does not depend on how the stream is divided into reads. */
module AtChannel {
  import opened Common
  import opened AtResponse
  import AtReader

  const SMS_NOTICES: seq<string> := ["+CMT:", "+CDS:", "+CBM:", "+CMTI:"]

  predicate IsSmsNotice(line: string) { StartsWithAny(line, SMS_NOTICES) }

  /** The lines that are processed one by one: all but the SMS notices and the line after each. */
  function Processed(lines: seq<string>): seq<string> {
    if lines == [] then []
    else if !IsSmsNotice(lines[0]) then [lines[0]] + Processed(lines[1..])
    else if |lines| == 1 then [] else Processed(lines[2..])
  }

  /** The SMS notices, each with the line after it. */
  function Notices(lines: seq<string>): seq<(string, string)> {
    if lines == [] then []
    else if !IsSmsNotice(lines[0]) then Notices(lines[1..])
    else if |lines| == 1 then [] else [(lines[0], lines[1])] + Notices(lines[2..])
  }

  /** A notice is known by one of four beginnings. */
  lemma NoticeMeans(line: string)
    ensures IsSmsNotice(line) <==>
              StartsAs(line, "+CMT:") || StartsAs(line, "+CDS:") || StartsAs(line, "+CBM:") || StartsAs(line, "+CMTI:")
  {
    AnyMeans(line, SMS_NOTICES);
    assert IsSmsNotice(line) <==>
             || StartsAs(line, SMS_NOTICES[0]) || StartsAs(line, SMS_NOTICES[1])
             || StartsAs(line, SMS_NOTICES[2]) || StartsAs(line, SMS_NOTICES[3]);
  }

  predicate NoNotice(lines: seq<string>) { forall i :: 0 <= i < |lines| ==> !IsSmsNotice(lines[i]) }

  /** Up to the first notice every line is processed. That notice and the line after it go together to the
      handler, whatever the second line is, a notice or a final result included, and the rest is treated
      as if alone; a notice without a line after it goes nowhere. */
  lemma UpToNotice(before: seq<string>, line: string, body: string, rest: seq<string>)
    requires NoNotice(before) && IsSmsNotice(line)
    ensures Processed(before) == before && Notices(before) == []
    ensures Processed(before + [line]) == before && Notices(before + [line]) == []
    ensures Processed(before + ([line] + ([body] + rest))) == before + Processed(rest)
    ensures Notices(before + ([line] + ([body] + rest))) == [(line, body)] + Notices(rest)
  {
    FirstNotice(line, body, rest);
    LinesBefore(before, []);
    LinesBefore(before, [line]);
    LinesBefore(before, [line] + ([body] + rest));
    assert before + [] == before;
  }

  lemma {:induction false} LinesBefore(before: seq<string>, rest: seq<string>)
    requires NoNotice(before)
    ensures Processed(before + rest) == before + Processed(rest) && Notices(before + rest) == Notices(rest)
  {
    if before == [] {
      assert before + rest == rest;
    } else {
      assert (before + rest)[1..] == before[1..] + rest;
      LinesBefore(before[1..], rest);
    }
  }

  lemma FirstLine(line: string, rest: seq<string>)
    requires !IsSmsNotice(line)
    ensures Processed([line] + rest) == [line] + Processed(rest) && Notices([line] + rest) == Notices(rest)
  {
    assert ([line] + rest)[1..] == rest;
  }

  lemma FirstNotice(line: string, body: string, rest: seq<string>)
    requires IsSmsNotice(line)
    ensures Processed([line] + ([body] + rest)) == Processed(rest)
    ensures Notices([line] + ([body] + rest)) == [(line, body)] + Notices(rest)
  {
    var all := [line] + ([body] + rest);
    assert all[0] == line && all[1] == body && all[2..] == rest;
  }

  /** What is left of the stream is processed after `taken` lines. */
  ghost predicate Remaining(all: seq<string>, taken: nat, pairs: seq<(string, string)>, allPairs: seq<(string, string)>,
                            lines: seq<string>)
  {
    taken <= |all| && all[taken..] == Processed(lines) && pairs + Notices(lines) == allPairs
  }

  lemma RemainingLine(all: seq<string>, taken: nat, pairs: seq<(string, string)>, allPairs: seq<(string, string)>,
                      line: string, rest: seq<string>)
    requires Remaining(all, taken, pairs, allPairs, [line] + rest) && !IsSmsNotice(line)
    ensures taken < |all| && all[taken] == line && Remaining(all, taken + 1, pairs, allPairs, rest)
  {
    FirstLine(line, rest);
    assert all[taken..][0] == line && all[taken..][1..] == all[taken + 1..];
  }

  lemma RemainingNotice(all: seq<string>, taken: nat, pairs: seq<(string, string)>, allPairs: seq<(string, string)>,
                        line: string, body: string, rest: seq<string>)
    requires Remaining(all, taken, pairs, allPairs, [line] + ([body] + rest)) && IsSmsNotice(line)
    ensures Remaining(all, taken, pairs + [(line, body)], allPairs, rest)
  {
    FirstNotice(line, body, rest);
    assert pairs + ([(line, body)] + Notices(rest)) == pairs + [(line, body)] + Notices(rest);
  }

  lemma RemainingEnd(all: seq<string>, taken: nat, pairs: seq<(string, string)>, allPairs: seq<(string, string)>,
                     lines: seq<string>)
    requires Remaining(all, taken, pairs, allPairs, lines) && AtEnd(lines)
    ensures taken == |all| && pairs == allPairs
  {
    assert pairs + [] == pairs;
  }

  /** The reader is in order and every line still to come fits. */
  ghost predicate Ready(r: AtReader.Reader)
    reads r, r.buf
  {
    r.Valid() && AtReader.Fits(r.Unread(), r.max)
  }

  /** readline on a stream whose lines fit. */
  method NextLine(r: AtReader.Reader) returns (line: Option<string>)
    requires Ready(r)
    modifies r, r.buf
    ensures match line
            case None => AtReader.Lines(old(r.Unread())) == []
            case Some(l) => Ready(r) && AtReader.Lines(old(r.Unread())) == [l] + AtReader.Lines(r.Unread())
  {
    AtReader.FittingAgrees(r.max, r.Now());
    AtReader.LoopStep(r.max, r.Now());
    AtReader.LinesStep(r.Unread());
    line := r.Readline();
  }

  /** The reader thread's loop while a command is pending, up to its final result or the stream's end. */
  method Serve(r: AtReader.Reader, c: Channel, p: Response) returns (taken: nat, pairs: seq<(string, string)>)
    requires Ready(r) && c.pending == p && p.Valid() && p.finalResponse == None
    modifies r, r.buf, c`unsolicited, c`raw, c`sms, c`written, p
    ensures c.pending == p && p.Valid() && fresh(p.Repr - old(p.Repr))
    ensures var lines := AtReader.Lines(old(r.Unread())); var all := Processed(lines);
            && Heard(c, old(c.State()), all, taken)
            && (p.finalResponse == None ==> taken == |all| && pairs == Notices(lines))
            && (p.finalResponse != None ==> Ready(r) && Remaining(all, taken, pairs, Notices(lines), AtReader.Lines(r.Unread())))
  {
    ghost var all := Processed(AtReader.Lines(r.Unread()));
    ghost var allPairs := Notices(AtReader.Lines(r.Unread()));
    ghost var start := c.State();
    taken, pairs := 0, [];
    assert [] + allPairs == allPairs;
    var more := true;
    while more && p.finalResponse == None
      invariant more ==> Ready(r) && Remaining(all, taken, pairs, allPairs, AtReader.Lines(r.Unread()))
      invariant !more ==> taken == |all| && pairs == allPairs && p.finalResponse == None
      invariant c.pending == p && p.Valid() && fresh(p.Repr - old(p.Repr)) && Heard(c, start, all, taken)
      decreases more, if Ready(r) then |AtReader.Lines(r.Unread())| else 0
    {
      taken, pairs, more := Turn(r, c, p, taken, pairs, start, all, allPairs);
    }
  }

  /** The command has heard the first `taken` of the lines, none of which but the last ended it. */
  ghost predicate Heard(c: Channel, start: Acc, all: seq<string>, taken: nat)
    requires c.pending != null
    reads c, c.pending
  {
    && taken <= |all| && Waits(start, c.kind, c.prefix, c.proxy, all, taken)
    && c.State() == TakeAll(start, c.kind, c.prefix, c.proxy, all[..taken])
  }

  /** A line is handed to the pending command. */
  method Hear(c: Channel, p: Response, line: string, taken: nat, ghost start: Acc, ghost all: seq<string>)
    requires c.pending == p && p.Valid() && p.finalResponse == None && Heard(c, start, all, taken)
    requires taken < |all| && all[taken] == line
    modifies c`unsolicited, c`raw, c`sms, c`written, p
    ensures c.pending == p && p.Valid() && fresh(p.Repr - old(p.Repr)) && Heard(c, start, all, taken + 1)
  {
    TakeNext(start, c.kind, c.prefix, c.proxy, all, taken);
    c.ProcessLine(line);
  }

  /** One turn of readerLoop. */
  method Turn(r: AtReader.Reader, c: Channel, p: Response, taken: nat, pairs: seq<(string, string)>,
              ghost start: Acc, ghost all: seq<string>, ghost allPairs: seq<(string, string)>)
    returns (taken': nat, pairs': seq<(string, string)>, more: bool)
    requires Ready(r) && c.pending == p && p.Valid() && p.finalResponse == None && Heard(c, start, all, taken)
    requires Remaining(all, taken, pairs, allPairs, AtReader.Lines(r.Unread()))
    modifies r, r.buf, c`unsolicited, c`raw, c`sms, c`written, p
    ensures c.pending == p && p.Valid() && fresh(p.Repr - old(p.Repr)) && Heard(c, start, all, taken')
    ensures if more then
              && Ready(r) && Remaining(all, taken', pairs', allPairs, AtReader.Lines(r.Unread()))
              && |AtReader.Lines(r.Unread())| < |AtReader.Lines(old(r.Unread()))|
            else taken' == |all| && pairs' == allPairs && p.finalResponse == None
  {
    ghost var lines := AtReader.Lines(r.Unread());
    var line, body, open := NextItem(r, c);
    taken', pairs', more := taken, pairs, open;
    if !open {
      RemainingEnd(all, taken, pairs, allPairs, lines);
    } else {
      taken', pairs' := HandOn(c, p, line.value, body, taken, pairs, start, all, allPairs, lines,
                               AtReader.Lines(r.Unread()));
    }
  }

  /** A line goes to the pending command, a notice with the line after it to the unsolicited handler. */
  method HandOn(c: Channel, p: Response, line: string, body: Option<string>, taken: nat, pairs: seq<(string, string)>,
                ghost start: Acc, ghost all: seq<string>, ghost allPairs: seq<(string, string)>,
                ghost lines: seq<string>, ghost rest: seq<string>)
    returns (taken': nat, pairs': seq<(string, string)>)
    requires c.pending == p && p.Valid() && p.finalResponse == None && Heard(c, start, all, taken)
    requires Remaining(all, taken, pairs, allPairs, lines) && Item(lines, line, body, rest)
    modifies c`unsolicited, c`raw, c`sms, c`written, p
    ensures c.pending == p && p.Valid() && fresh(p.Repr - old(p.Repr)) && Heard(c, start, all, taken')
    ensures Remaining(all, taken', pairs', allPairs, rest)
  {
    taken', pairs' := taken, pairs;
    if body.Some? {
      RemainingNotice(all, taken, pairs, allPairs, line, body.value, rest);
      pairs' := pairs + [(line, body.value)];
    } else {
      RemainingLine(all, taken, pairs, allPairs, line, rest);
      Hear(c, p, line, taken, start, all);
      taken' := taken + 1;
    }
  }

  /** The lines start with a line to process, or with a notice and the line after it. */
  ghost predicate Item(lines: seq<string>, line: string, body: Option<string>, rest: seq<string>) {
    (body.Some? <==> IsSmsNotice(line)) && lines == [line] + (if body.Some? then [body.value] + rest else rest)
  }

  /** There is nothing to process: no line, or a notice without the line after it. */
  ghost predicate AtEnd(lines: seq<string>) { lines == [] || (|lines| == 1 && IsSmsNotice(lines[0])) }

  /** One turn of readerLoop up to the handler: a line to process; a notice with the line after it; or
      nothing, or a notice alone, at the end of the stream, which is then no longer open. */
  method NextItem(r: AtReader.Reader, c: Channel) returns (line: Option<string>, body: Option<string>, open: bool)
    requires Ready(r)
    modifies r, r.buf
    ensures if open then Ready(r) && line.Some? && Item(AtReader.Lines(old(r.Unread())), line.value, body, AtReader.Lines(r.Unread()))
            else AtEnd(AtReader.Lines(old(r.Unread())))
  {
    body, open := None, false;
    line := NextLine(r);
    if line.Some? {
      var notice := c.StrStartsWithAny(line.value, SMS_NOTICES);
      if notice {
        body := NextLine(r);
        open := body.Some?;
      } else {
        open := true;
      }
    }
  }

  /** What a command of kind `k` must be given for the lines `all`: the final result that comes first, and
      of the lines before it those that its kind asks for, in arrival order; nothing without a final
      result. */
  ghost predicate Answers(k: Kind, prefix: string, all: seq<string>, n: nat, final: Option<string>, success: bool, mids: seq<string>)
  {
    match final
    case None => NoFinal(all)
    case Some(l) =>
      n < |all| && NoFinal(all[..n]) && IsFinal(l) && all[n] == l && success == IsSuccess(l) && mids == Collected(k, prefix, all[..n])
  }

  /** A command's response, from the bytes: for every stream of lines that fit and every division of it
      into reads, a command given while no raw data waits gets what its kind asks for of the stream's
      lines. */
  method Ask(r: AtReader.Reader, c: Channel, k: Kind, prefix: string) returns (resp: Response?, ghost n: nat)
    requires Ready(r) && c.pending == null && c.raw == None
    modifies r, r.buf, c
    ensures c.pending == null && (resp != null ==> resp.Valid() && resp.finalResponse.Some?)
    ensures var all := Processed(AtReader.Lines(old(r.Unread())));
            if resp == null then NoFinal(all)
            else Answers(k, prefix, all, n, resp.finalResponse, resp.success, Texts(resp.nodes))
  {
    var p: Response;
    p, n := Pend(r, c, k, prefix);
    resp := Conclude(c, p);
  }

  /** The command up to the end of its wait. */
  method Pend(r: AtReader.Reader, c: Channel, k: Kind, prefix: string) returns (p: Response, ghost n: nat)
    requires Ready(r) && c.pending == null && c.raw == None
    modifies r, r.buf, c
    ensures c.pending == p && p.Valid() && fresh(p) && fresh(p.Repr)
    ensures Answers(k, prefix, Processed(AtReader.Lines(old(r.Unread()))), n, p.finalResponse, p.success, c.State().mids)
  {
    p := c.StartCommand(k, prefix, None);
    n := Listen(r, c, p);
  }

  method Listen(r: AtReader.Reader, c: Channel, p: Response) returns (ghost n: nat)
    requires Ready(r) && c.pending == p && p.Valid() && p.finalResponse == None
    requires c.raw == None && c.sms == None && c.State().mids == []
    modifies r, r.buf, c`unsolicited, c`raw, c`sms, c`written, p
    ensures c.pending == p && p.Valid() && fresh(p.Repr - old(p.Repr))
    ensures Answers(c.kind, c.prefix, Processed(AtReader.Lines(old(r.Unread()))), n, p.finalResponse, p.success, c.State().mids)
  {
    ghost var all := Processed(AtReader.Lines(r.Unread()));
    ghost var start := c.State();
    var taken, _ := Serve(r, c, p);
    Result(start, c.kind, c.prefix, c.proxy, all, taken);
    n := if taken == 0 then 0 else taken - 1;
  }

  /** The end of a command's wait. */
  method Conclude(c: Channel, p: Response) returns (resp: Response?)
    requires c.pending == p && p.Valid()
    modifies c`pending, c`prefix, c`sms, p`intermediates, p`nodes, p.Repr
    ensures c.pending == null && (resp == null <==> p.finalResponse == None)
    ensures resp != null ==> resp == p && p.Valid() && Texts(p.nodes) == old(c.State()).mids
  {
    c.ClearPending();
    resp := null;
    if p.finalResponse != None {
      c.HandOut(p);
      resp := p;
    }
  }

  /** The lines a command of this kind keeps. */
  function Collected(k: Kind, prefix: string, lines: seq<string>): seq<string> {
    if k == MultiLine then Matching(k, prefix, lines)
    else
      var i := FirstMatch(k, prefix, lines);
      if i < |lines| then [lines[i]] else []
  }

  lemma Result(start: Acc, k: Kind, prefix: string, proxy: bool, all: seq<string>, taken: nat)
    requires start.final == None && start.raw == None && start.sms == None && start.mids == []
    requires taken <= |all| && Waits(start, k, prefix, proxy, all, taken)
    requires TakeAll(start, k, prefix, proxy, all[..taken]).final == None ==> taken == |all|
    ensures var a := TakeAll(start, k, prefix, proxy, all[..taken]);
            Answers(k, prefix, all, if taken == 0 then 0 else taken - 1, a.final, a.success, a.mids)
  {
    NoFinalExactly(start, k, prefix, proxy, all[..taken]);
    if TakeAll(start, k, prefix, proxy, all[..taken]).final == None {
      assert all[..taken] == all;
    } else {
      var n := taken - 1;
      NoFinalExactly(start, k, prefix, proxy, all[..n]);
      assert all[..taken] == all[..n] + [all[n]];
      CommandResult(k, prefix, proxy, all[..n], all[n], start);
    }
  }
}
