/** The buffered line reader of the AT channel: lines are cut out of one character buffer that is
    refilled by reads of arbitrary size. What a call returns is a function of the stream and of its
    division into reads; the condition under which it does not depend on the division is exact. */
module AtReader {
  import opened Common

  predicate IsEol(c: char) { c == '\r' || c == '\n' }

  // ---------------------------------------------------------------- lines of a stream

  function SkipEol(s: string): (t: string)
    ensures |t| <= |s|
  {
    if s != [] && IsEol(s[0]) then SkipEol(s[1..]) else s
  }

  /** The place of the first line terminator, or the length when there is none. */
  function LineEnd(s: string): (k: nat)
    ensures k <= |s|
  {
    if s == [] || IsEol(s[0]) then 0 else 1 + LineEnd(s[1..])
  }

  lemma {:induction false} LineEndIs(s: string, k: nat)
    requires k <= |s| && (k < |s| ==> IsEol(s[k])) && forall i :: 0 <= i < k ==> !IsEol(s[i])
    ensures LineEnd(s) == k
  {
    if k > 0 {
      LineEndIs(s[1..], k - 1);
    }
  }

  lemma {:induction false} LineEndAt(s: string)
    ensures var k := LineEnd(s); (k < |s| ==> IsEol(s[k])) && forall i :: 0 <= i < k ==> !IsEol(s[i])
  {
    if s != [] && !IsEol(s[0]) {
      LineEndAt(s[1..]);
      assert forall i :: 0 < i < |s| ==> s[i] == s[1..][i - 1];
    }
  }

  function Kept(run: string): seq<string> { if run == [] then [] else [run] }

  /** The lines of a stream: its nonempty maximal runs that a CR or LF ends. */
  function Lines(s: string): seq<string>
    decreases |s|
  {
    var k := LineEnd(s);
    if k == |s| then [] else Kept(s[..k]) + Lines(s[k + 1..])
  }

  /** What follows the last terminator. */
  function Unfinished(s: string): string
    decreases |s|
  {
    var k := LineEnd(s);
    if k == |s| then s else Unfinished(s[k + 1..])
  }

  function Text(s: string): string {
    if s == [] then [] else (if IsEol(s[0]) then [] else [s[0]]) + Text(s[1..])
  }

  /** The text behind the first terminator. */
  function TextBehind(s: string): string {
    var k := LineEnd(s);
    if k == |s| then [] else Text(s[k + 1..])
  }

  lemma {:induction false} TextOfRun(s: string)
    ensures Text(s) == s[..LineEnd(s)] + TextBehind(s)
  {
    if s != [] && !IsEol(s[0]) {
      var t := s[1..];
      TextOfRun(t);
      assert LineEnd(t) < |t| ==> t[LineEnd(t) + 1..] == s[LineEnd(s) + 1..];
      ConsRun(s, LineEnd(t), TextBehind(t));
    }
  }

  lemma ConsRun(s: string, k: nat, rest: string)
    requires s != [] && k < |s|
    ensures [s[0]] + (s[1..][..k] + rest) == s[..k + 1] + rest
  {
    assert s[..k + 1] == [s[0]] + s[1..][..k];
  }

  lemma JoinedRun(run: string, more: seq<string>, end: string)
    ensures Concat(Kept(run) + more) + end == run + (Concat(more) + end)
  {
    ConcatAppend(Kept(run), more);
    assert Concat(Kept(run)) == run;
    assert run + (Concat(more) + end) == (run + Concat(more)) + end;
  }

  /** Lines lose no text: with the terminators deleted, a stream is its lines, joined, and then its
      unfinished end. */
  lemma {:induction false} LinesKeepText(s: string)
    ensures Concat(Lines(s)) + Unfinished(s) == Text(s)
    decreases |s|
  {
    var k := LineEnd(s);
    TextOfRun(s);
    if k < |s| {
      LinesKeepText(s[k + 1..]);
      JoinedRun(s[..k], Lines(s[k + 1..]), Unfinished(s[k + 1..]));
    } else {
      assert s[..k] == s;
    }
  }

  /** The next line and what follows it, found the way the reader looks for it. */
  function NextLine(s: string): Option<(string, string)> {
    var t := SkipEol(s);
    var k := LineEnd(t);
    if k == |t| then None else Some((t[..k], t[k + 1..]))
  }

  lemma {:induction false} LinesStep(s: string)
    ensures match NextLine(s)
            case None => Lines(s) == []
            case Some((line, rest)) => line != [] && |rest| < |s| && Lines(s) == [line] + Lines(rest)
    decreases |s|
  {
    if s != [] && IsEol(s[0]) {
      var t := s[1..];
      LinesStep(t);
      assert SkipEol(s) == SkipEol(t) && Kept(s[..0]) == [];
      assert Lines(s) == [] + Lines(t) == Lines(t);
    }
  }

  /** The first line of a stream, with the terminators before it, is shorter than the buffer and does
      not start like the SMS prompt. */
  predicate FitsLine(s: string, max: nat) {
    var t := SkipEol(s);
    t == [] || (|s| - |t| + LineEnd(t) < max && !("> " <= t))
  }

  /** And so it is with every line after it. */
  predicate Fits(s: string, max: nat)
    decreases |s|
  {
    FitsLine(s, max) && match NextLine(s) case None => true case Some((_, rest)) => |rest| < |s| && Fits(rest, max)
  }

  /** The lines in front of the first one that does not fit. */
  function SafeLines(s: string, max: nat): seq<string>
    decreases |s|
  {
    if !FitsLine(s, max) then []
    else match NextLine(s)
      case None => []
      case Some((line, rest)) => if |rest| < |s| then [line] + SafeLines(rest, max) else []
  }

  lemma {:induction false} AllSafe(s: string, max: nat)
    requires Fits(s, max)
    ensures SafeLines(s, max) == Lines(s)
    decreases |s|
  {
    LinesStep(s);
    match NextLine(s)
    case None =>
    case Some((_, rest)) => AllSafe(rest, max);
  }

  /** Where the reader ends a line in the text it has so far, or -1: at the first terminator, except
      that a text which is exactly the SMS prompt ends after its blank. */
  function EolOf(t: string): (k: int)
    ensures -1 <= k <= |t|
  {
    if t == "> " then 2 else if LineEnd(t) == |t| then -1 else LineEnd(t)
  }

  /** Text that may go on with `more`: the reader ends the line, or waits, as the whole stream would
      have it, exactly unless the text is the bare prompt and the line goes on behind it. */
  lemma PromptSplitsExactly(t: string, more: string)
    ensures (if EolOf(t) == -1 then LineEnd(t + more) >= |t| else EolOf(t) == LineEnd(t + more))
            <==> t != "> " || more == [] || IsEol(more[0])
  {
    LineEndMore(t, more);
    if t == "> " {
      LineEndBehind(t, more);
    }
  }

  lemma LineEndBehind(t: string, more: string)
    requires LineEnd(t) == |t|
    ensures LineEnd(t + more) == |t| <==> more == [] || IsEol(more[0])
  {
    var s := t + more;
    LineEndMore(t, more);
    LineEndAt(s);
    assert more != [] ==> s[|t|] == more[0];
  }

  // ---------------------------------------------------------------- one call, for every division

  /** What one read can bring at most; the sizes of the reads are the sizes of the pieces, cut to the
      room in the buffer. */
  type Piece = p: string | p != [] witness "x"

  function Taken(pieces: seq<Piece>, room: nat): string
    requires pieces != []
  {
    if |pieces[0]| <= room then pieces[0] else pieces[0][..room]
  }

  function Rest(pieces: seq<Piece>, room: nat): seq<Piece>
    requires pieces != []
  {
    if |pieces[0]| <= room then pieces[1..] else [pieces[0][room..]] + pieces[1..]
  }

  lemma TakenRest(pieces: seq<Piece>, room: nat)
    requires pieces != []
    ensures Concat(pieces) == Taken(pieces, room) + Concat(Rest(pieces, room))
    ensures |Taken(pieces, room)| <= room && (room > 0 ==> |Taken(pieces, room)| > 0)
  {
    if |pieces[0]| > room {
      CutPiece(pieces[0], pieces[1..], room);
    }
  }

  lemma CutPiece(p: Piece, more: seq<Piece>, room: nat)
    requires room < |p|
    ensures p + Concat(more) == p[..room] + Concat([p[room..]] + more)
  {
    assert ([p[room..]] + more)[1..] == more;
    assert p[..room] + (p[room..] + Concat(more)) == (p[..room] + p[room..]) + Concat(more);
    assert p[..room] + p[room..] == p;
  }

  /** The unread text in the buffer, where it starts, and what is still to be read. */
  datatype Pos = Pos(b: string, cur: nat, input: seq<Piece>)

  predicate Placed(max: nat, p: Pos) { max > 0 && p.cur + |p.b| <= max }

  function Owed(p: Pos): string { p.b + Concat(p.input) }

  /** How a call ends: with a line, what is left of the text in the buffer and where, and what to read;
      with the prompt, which puts the cursor behind the terminator, and out of the buffer when that is
      full; or at the end of the stream. */
  datatype Outcome =
    | Line(text: string, left: string, at: nat, input: seq<Piece>)
    | Prompt(full: bool, input: seq<Piece>)
    | Ended(left: string)

  /** A full buffer that holds no complete line is given up. */
  function Emptied(max: nat, p: Pos): Pos {
    if p.cur + |p.b| == max then Pos("", 0, p.input) else p
  }

  /** One read into the room that is left; terminators in front of the text are skipped. */
  function Read(max: nat, p: Pos): (r: Pos)
    requires p.cur + |p.b| < max && p.input != []
    ensures Placed(max, r) && |Concat(r.input)| < |Concat(p.input)|
  {
    var room := max - p.cur - |p.b|;
    TakenRest(p.input, room);
    var t := p.b + Taken(p.input, room);
    Pos(SkipEol(t), p.cur + |t| - |SkipEol(t)|, Rest(p.input, room))
  }

  /** The loop of readline. */
  function Seek(max: nat, p: Pos): Outcome
    requires Placed(max, p)
    decreases |Concat(p.input)|
  {
    if p.b == "> " then Prompt(p.cur + 2 == max, p.input)
    else if LineEnd(p.b) < |p.b| then
      Line(p.b[..LineEnd(p.b)], p.b[LineEnd(p.b) + 1..], p.cur + LineEnd(p.b) + 1, p.input)
    else
      var q := Emptied(max, p);
      if q.input == [] then Ended(q.b) else Seek(max, Read(max, q))
  }

  /** A call: leading terminators are skipped; a line that is complete is handed out where it stands,
      and a partial one is moved to the start of the buffer. */
  function Started(p: Pos): Pos {
    var t := SkipEol(p.b);
    Pos(t, if EolOf(t) == -1 then 0 else p.cur + |p.b| - |t|, p.input)
  }

  function Next(max: nat, p: Pos): Outcome
    requires Placed(max, p)
  {
    Seek(max, Started(p))
  }

  /** The call gives the next line of `s` and leaves what follows it; or it gives a line that is the
      prompt, with its terminator still to be read; or there is no line, and nothing is lost. */
  predicate Agrees(o: Outcome, s: string) {
    match o
    case Line(text, left, _, input) => NextLine(s) == Some((text, left + Concat(input)))
    case Prompt(full, input) =>
      !full && NextLine(s).Some? && NextLine(s).value.0 == "> " && SkipEol(s) == "> " + Concat(input)
    case Ended(left) => NextLine(s) == None && SkipEol(left) == SkipEol(s)
  }

  lemma {:induction false} SkipAgain(b: string, more: string)
    ensures SkipEol(SkipEol(b)) == SkipEol(b)
    ensures SkipEol(SkipEol(b) + more) == SkipEol(b + more)
  {
    if b != [] && IsEol(b[0]) {
      SkipAgain(b[1..], more);
      assert (b + more)[1..] == b[1..] + more;
    }
  }

  lemma SkipNone(b: string, more: string)
    requires SkipEol(b) == b && b != []
    ensures SkipEol(b + more) == b + more && !IsEol(b[0])
  {
    assert (b + more)[0] == b[0];
    assert |SkipEol(b[1..])| < |b|;
  }

  lemma LineEndMore(b: string, more: string)
    ensures if LineEnd(b) < |b| then LineEnd(b + more) == LineEnd(b) else LineEnd(b + more) >= |b|
  {
    var s := b + more;
    assert forall i :: 0 <= i < |b| ==> s[i] == b[i];
    LineEndAt(b);
    LineEndAt(s);
    if LineEnd(b) < |b| {
      LineEndIs(s, LineEnd(b));
    }
  }

  /** A read loses no text but the terminators it skips. */
  lemma ReadKeeps(max: nat, p: Pos)
    requires p.cur + |p.b| < max && p.input != []
    ensures var r := Read(max, p);
            && SkipEol(Owed(r)) == SkipEol(Owed(p)) && SkipEol(r.b) == r.b
            && r.cur + |Owed(r)| == p.cur + |Owed(p)|
  {
    var room := max - p.cur - |p.b|;
    TakenRest(p.input, room);
    var taken, more := Taken(p.input, room), Concat(Rest(p.input, room));
    assert p.b + (taken + more) == (p.b + taken) + more;
    SkipAgain(p.b + taken, more);
  }

  /** The reader is on the way to the next line of `s`: it has lost nothing but terminators. */
  ghost predicate OnTheWay(max: nat, p: Pos, s: string) {
    && Placed(max, p) && SkipEol(p.b) == p.b && SkipEol(Owed(p)) == SkipEol(s)
    && (EolOf(p.b) == -1 ==> p.cur + |Owed(p)| <= |s|)
  }

  lemma PartialFits(max: nat, p: Pos, s: string)
    requires OnTheWay(max, p, s) && FitsLine(s, max) && EolOf(p.b) == -1
    ensures p.cur + |p.b| == max ==> p.b == ""
    ensures p.input == [] ==> NextLine(s) == None && SkipEol(s) == p.b
  {
    var more := Concat(p.input);
    if p.b != [] {
      SkipNone(p.b, more);
      LineEndMore(p.b, more);
    }
    assert p.input == [] ==> p.b + more == p.b;
  }

  lemma CutLine(max: nat, p: Pos, s: string)
    requires OnTheWay(max, p, s) && FitsLine(s, max) && EolOf(p.b) != -1
    ensures p.b != "> " && NextLine(s) == Some((p.b[..LineEnd(p.b)], p.b[LineEnd(p.b) + 1..] + Concat(p.input)))
  {
    var b, more, k := p.b, Concat(p.input), LineEnd(p.b);
    SkipNone(b, more);
    LineEndMore(b, more);
    var t := b + more;
    assert "> " <= b ==> "> " <= t;
    assert k < |b| ==> t[..k] == b[..k] && t[k + 1..] == b[k + 1..] + more;
  }

  lemma {:induction false} SeekAgrees(max: nat, p: Pos, s: string)
    requires OnTheWay(max, p, s) && FitsLine(s, max)
    ensures Agrees(Seek(max, p), s)
    decreases |Concat(p.input)|
  {
    if EolOf(p.b) != -1 {
      CutLine(max, p, s);
    } else {
      PartialFits(max, p, s);
      if p.input != [] {
        ReadKeeps(max, Emptied(max, p));
        SeekAgrees(max, Read(max, Emptied(max, p)), s);
      }
    }
  }

  /** However the stream is divided, and whatever of it is in the buffer already: a line that fits is
      the one returned. */
  lemma FittingAgrees(max: nat, p: Pos)
    requires Placed(max, p) && FitsLine(Owed(p), max)
    ensures Agrees(Next(max, p), Owed(p)) && !Next(max, p).Prompt?
  {
    SkipAgain(p.b, Concat(p.input));
    SeekAgrees(max, Started(p), Owed(p));
    assert forall more: string :: "> " <= "> " + more;
  }

  // ---------------------------------------------------------------- lines that do not fit

  lemma {:induction false} Consumes(max: nat, p: Pos)
    requires Placed(max, p)
    ensures match Seek(max, p)
            case Line(text, left, _, input) => |text| + |left + Concat(input)| < |Owed(p)|
            case Prompt(_, input) => 2 + |Concat(input)| <= |Owed(p)|
            case Ended(left) => |left| <= |Owed(p)|
    decreases |Concat(p.input)|
  {
    var q := Emptied(max, p);
    if EolOf(p.b) == -1 && q.input != [] {
      ReadKeeps(max, q);
      Consumes(max, Read(max, q));
    }
  }

  /** Text that is the front of a line and not the prompt ends nowhere. */
  lemma FrontWaits(b: string, more: string)
    requires LineEnd(b + more) >= |b| && !("> " <= b + more)
    ensures EolOf(b) == -1
  {
    LineEndMore(b, more);
    assert b <= b + more;
  }

  /** The overflow branch: of a line that is too long the reader gives up exactly what fills the buffer,
      and goes on as if the rest of the line were all there is. */
  lemma {:induction false} OverflowDiscards(max: nat, p: Pos) returns (rest: seq<Piece>)
    requires Placed(max, p) && p.cur < max && SkipEol(p.b) == p.b
    requires LineEnd(Owed(p)) >= max - p.cur && !("> " <= Owed(p))
    ensures Concat(rest) == Owed(p)[max - p.cur..] && Seek(max, p) == Seek(max, Pos("", 0, rest))
    decreases |Concat(p.input)|
  {
    FrontWaits(p.b, Concat(p.input));
    if p.cur + |p.b| == max {
      rest := p.input;
    } else {
      assert p.input == [] ==> Owed(p) == p.b;
      var r := Read(max, p);
      ReadStays(max, p);
      rest := OverflowDiscards(max, r);
    }
  }

  /** A read in the middle of a line skips nothing. */
  lemma ReadStays(max: nat, p: Pos)
    requires p.cur + |p.b| < max && p.input != [] && LineEnd(Owed(p)) > 0
    ensures var r := Read(max, p); r.cur == p.cur && Owed(r) == Owed(p) && SkipEol(r.b) == r.b
  {
    var room := max - p.cur - |p.b|;
    TakenRest(p.input, room);
    var taken, more := Taken(p.input, room), Concat(Rest(p.input, room));
    var t := p.b + taken;
    assert p.b + (taken + more) == t + more;
    assert t[0] == (t + more)[0];
  }

  /** A reader that has given up part of the line cannot return to it. */
  lemma LostIsLost(max: nat, d: nat, pieces: seq<Piece>, s: string)
    requires max > 0 && 0 < d <= |SkipEol(s)| && Concat(pieces) == SkipEol(s)[d..]
    ensures !Agrees(Seek(max, Pos("", 0, pieces)), s)
  {
    Consumes(max, Pos("", 0, pieces));
    var t := SkipEol(s);
    var o := Seek(max, Pos("", 0, pieces));
    assert "" + Concat(pieces) == Concat(pieces);
    if o.Ended? {
      assert |SkipEol(o.left)| < |t|;
    } else if o.Line? && LineEnd(t) < |t| {
      assert |t[..LineEnd(t)]| + |t[LineEnd(t) + 1..]| == |t| - 1;
    }
  }

  /** A line that starts where it does not fit in front of the buffer's end. */
  lemma TooLong(max: nat, c: nat, t: Piece, s: string)
    requires c < max && SkipEol(s) == t && LineEnd(t) >= max - c
    ensures !Agrees(Seek(max, Pos("", c, [t])), s)
  {
    var d := max - c;
    var p := Pos("", c, [t]);
    assert Concat([t]) == t && Owed(p) == t;
    ReadStays(max, p);
    var r := Read(max, p);
    TakenRest([t], d);
    assert r.b == t[..d] && Concat(r.input) == t[d..];
    assert Seek(max, p) == Seek(max, r);
    LineEndMore(t[..d], t[d..]);
    assert t[..d] + t[d..] == t;
    if r.b != "> " && r.input != [] {
      LostIsLost(max, d, r.input, s);
      assert Seek(max, r) == Seek(max, Pos("", 0, r.input));
    }
  }

  /** What counting to `max` again and again leaves over. */
  function Over(n: nat, max: nat): (r: nat)
    requires max > 0
    ensures r < max
  {
    if n < max then n else Over(n - max, max)
  }

  /** How many terminators must have been skipped before, for the others to fill the buffer but for
      one place. */
  lemma {:induction false} SkippedBefore(n: nat, max: nat) returns (j: nat)
    requires max > 0 && n >= max - 1
    ensures j < max && j <= n && Over(n - j, max) == max - 1
  {
    if n < 2 * max - 1 {
      j := n - (max - 1);
    } else {
      j := SkippedBefore(n - max, max);
    }
  }

  predicate AllEol(e: string) { forall i :: 0 <= i < |e| ==> IsEol(e[i]) }

  lemma AllEolSplit(e: string, k: nat)
    requires AllEol(e) && k <= |e|
    ensures AllEol(e[..k]) && AllEol(e[k..]) && e[..k] + e[k..] == e
  {
  }

  lemma {:induction false} AllSkipped(e: string)
    requires AllEol(e)
    ensures SkipEol(e) == ""
  {
    if e != [] {
      AllSkipped(e[1..]);
    }
  }

  /** A stream is the terminators in front of its next line, and the rest. */
  lemma {:induction false} SkipSplit(s: string) returns (e: string)
    ensures s == e + SkipEol(s) && AllEol(e) && |e| == |s| - |SkipEol(s)|
    ensures SkipEol(s) != [] ==> LineEnd(SkipEol(s)) > 0
  {
    if s != [] && IsEol(s[0]) {
      e := SkipSplit(s[1..]);
      e := [s[0]] + e;
    } else {
      e := "";
    }
  }

  /** Reading terminators only moves the place where the next line starts. */
  lemma ReadEols(max: nat, e: Piece, more: seq<Piece>)
    requires |e| <= max && AllEol(e) && (|e| == max ==> more != [])
    ensures Seek(max, Pos("", 0, [e] + more)) == Seek(max, Pos("", if |e| == max then 0 else |e|, more))
  {
    AllSkipped(e);
    assert "" + e == e && ([e] + more)[1..] == more;
    var p := Pos("", 0, [e] + more);
    assert Read(max, p) == Pos("", |e|, more);
    assert Seek(max, p) == Seek(max, Pos("", |e|, more));
  }

  lemma ApproachBy(first: Piece, later: string, t: Piece, more: seq<Piece>, max: nat)
    requires |first| == max && AllEol(first) && more != [] && Concat(more) == later + t
    ensures Concat([first] + more) == (first + later) + t
    ensures Seek(max, Pos("", 0, [first] + more)) == Seek(max, Pos("", 0, more))
  {
    ReadEols(max, first, more);
    assert ([first] + more)[1..] == more;
    assert first + (later + t) == (first + later) + t;
  }

  lemma ApproachLast(e: Piece, t: Piece, max: nat)
    requires |e| < max && AllEol(e)
    ensures Concat([e] + [t]) == e + t && Seek(max, Pos("", 0, [e] + [t])) == Seek(max, Pos("", |e|, [t]))
  {
    ReadEols(max, e, [t]);
    assert ([e] + [t])[1..] == [t];
    assert Concat([t]) == t;
  }

  lemma {:induction false} Approach(e: string, t: Piece, max: nat) returns (pieces: seq<Piece>)
    requires max > 0 && AllEol(e)
    ensures Concat(pieces) == e + t && pieces != []
    ensures Seek(max, Pos("", 0, pieces)) == Seek(max, Pos("", Over(|e|, max), [t]))
    decreases |e|
  {
    if e == [] {
      pieces := [t];
      assert Concat([t]) == t && e + t == t;
    } else if |e| < max {
      pieces := [e] + [t];
      ApproachLast(e, t, max);
    } else {
      AllEolSplit(e, max);
      var first, later := e[..max], e[max..];
      var more := Approach(later, t, max);
      pieces := [first] + more;
      ApproachBy(first, later, t, more, max);
    }
  }

  /** A state and a division for which a line that does not fit goes wrong. */
  lemma UnfitDisagrees(s: string, max: nat) returns (p: Pos)
    requires max > 0 && !FitsLine(s, max)
    ensures Placed(max, p) && Owed(p) == s && !Agrees(Next(max, p), s)
  {
    var e := SkipSplit(s);
    if |e| + LineEnd(SkipEol(s)) < max {
      p := PromptAtEnd(e, s, max);
    } else {
      p := TooLongFrom(e, s, max);
    }
  }

  lemma TooLongFrom(e: string, s: string, max: nat) returns (p: Pos)
    requires max > 0 && s == e + SkipEol(s) && AllEol(e) && LineEnd(SkipEol(s)) > 0 && |e| + LineEnd(SkipEol(s)) >= max
    ensures Placed(max, p) && Owed(p) == s && !Agrees(Next(max, p), s)
  {
    var t := SkipEol(s);
    var j := 0;
    if |e| >= max {
      j := SkippedBefore(|e|, max);
    }
    AllEolSplit(e, j);
    var a, b := e[..j], e[j..];
    var pieces := Approach(b, t, max);
    TooLong(max, Over(|b|, max), t, s);
    p := Pos(a, 0, pieces);
    AfterEols(max, a, b, t, pieces);
  }

  lemma AfterEols(max: nat, a: string, b: string, t: string, pieces: seq<Piece>)
    requires max > 0 && AllEol(a) && |a| <= max && Concat(pieces) == b + t
    ensures Owed(Pos(a, 0, pieces)) == (a + b) + t && Next(max, Pos(a, 0, pieces)) == Seek(max, Pos("", 0, pieces))
  {
    AllSkipped(a);
    assert a + (b + t) == (a + b) + t;
  }

  /** The prompt, or what looks like it, at the very end of a full buffer. */
  lemma PromptAtEnd(e: string, s: string, max: nat) returns (p: Pos)
    requires s == e + SkipEol(s) && AllEol(e) && "> " <= SkipEol(s) && |e| + LineEnd(SkipEol(s)) < max
    ensures Placed(max, p) && Owed(p) == s && !Agrees(Next(max, p), s)
  {
    var t := SkipEol(s);
    var more := t[2..];
    assert t == "> " + more && LineEnd(t) >= 2 by {
      assert t[0] == '>' && t[1] == ' ' && t[1..][0] == ' ';
    }
    p := Pos(e + "> ", max - |e| - 2, if more == "" then [] else [more]);
    assert Concat(p.input) == more;
    assert (e + "> ") + more == e + ("> " + more);
    AllSkipped(e);
    SkipAgain(e, "> ");
    assert "" + "> " == "> ";
    assert Started(p) == Pos("> ", max - 2, p.input);
  }

  /** Whatever is in the buffer already, and wherever, and however the rest is divided into reads. */
  ghost predicate Independent(s: string, max: nat) {
    forall p :: Placed(max, p) && Owed(p) == s ==> Agrees(Next(max, p), s)
  }

  /** A call gives the next line of the stream for every state of the buffer and every division into
      reads exactly when that line fits the buffer, terminators before it included, and does not start
      like the SMS prompt. */
  lemma ReadlineExact(s: string, max: nat)
    requires max > 0
    ensures Independent(s, max) <==> FitsLine(s, max)
  {
    if FitsLine(s, max) {
      forall p | Placed(max, p) && Owed(p) == s ensures Agrees(Next(max, p), s) {
        FittingAgrees(max, p);
      }
    } else {
      var p := UnfitDisagrees(s, max);
    }
  }

  /** One stream and two divisions of it that give different lines: a read that ends behind `> ` makes
      a line of those two characters. */
  lemma DivisionMatters()
    ensures Next(8, Pos("", 0, ["> x\r"])) == Line("> x", "", 4, [])
    ensures Next(8, Pos("", 0, ["> ", "x\r"])) == Prompt(false, ["x\r"])
  {
    assert "" + "> x\r" == "> x\r" && "" + "> " == "> ";
    LineEndIs("> x\r", 3);
    assert Read(8, Pos("", 0, ["> x\r"])) == Pos("> x\r", 0, []);
    assert Read(8, Pos("", 0, ["> ", "x\r"])) == Pos("> ", 0, ["x\r"]);
  }

  // ---------------------------------------------------------------- the reader

  class Reader {
    const max: nat
    /** One byte longer than a read may fill, for the terminating NUL. */
    const buf: array<char>
    var cur: nat
    /** Where the unread text in the buffer ends. */
    ghost var end: nat
    /** What the channel has yet to deliver, piece by piece. */
    var input: seq<Piece>

    ghost predicate Valid()
      reads this, buf
    {
      && max > 0 && buf.Length == max + 1 && buf[max] == '\0'
      && cur <= end <= max && buf[end] == '\0'
      && (forall i :: cur <= i < end ==> buf[i] != '\0')
      && (forall i :: 0 <= i < |input| ==> '\0' !in input[i])
    }

    /** The unread text in the buffer. */
    ghost function Text(): string
      requires Valid()
      reads this, buf
    {
      buf[cur..end]
    }

    ghost function Unread(): string
      requires Valid()
      reads this, buf
    {
      Text() + Concat(input)
    }

    ghost function Now(): Pos
      requires Valid()
      reads this, buf
    {
      Pos(Text(), cur, input)
    }

    /** How a call made now ends. */
    ghost function Coming(): Outcome
      requires Valid()
      reads this, buf
    {
      Next(max, Now())
    }

    /** How the loop of a call ends. */
    ghost function Sought(): Outcome
      requires Valid()
      reads this, buf
    {
      Seek(max, Now())
    }

    constructor (max: nat, input: seq<Piece>)
      requires max > 0 && forall i :: 0 <= i < |input| ==> '\0' !in input[i]
      ensures Valid() && Text() == "" && this.input == input && this.max == max && fresh(buf)
    {
      this.max, this.input := max, input;
      buf := new char[max + 1](_ => '\0');
      cur, end := 0, 0;
    }

    /** What `eol` says about the text in the buffer: no complete line, or where the line ends. */
    ghost predicate EolFound(eol: int)
      requires Valid()
      reads this, buf
    {
      eol == var k := EolOf(Text()); if k == -1 then -1 else cur + k
    }

    /** findNextEOL from `cur`: the end of the next line, or -1. */
    method FindNextEol() returns (eol: int)
      requires Valid()
      ensures EolFound(eol)
    {
      ghost var t := Text();
      assert forall i :: cur <= i < end ==> buf[i] == t[i - cur];
      if buf[cur] == '>' && buf[cur + 1] == ' ' && buf[cur + 2] == '\0' {
        assert t == "> ";
        return cur + 2;
      }
      assert t == "> " ==> t[0] == buf[cur] && t[1] == buf[cur + 1] && |t| == 2;
      var c := cur;
      while buf[c] != '\0' && !IsEol(buf[c])
        invariant cur <= c <= end && forall i :: cur <= i < c ==> !IsEol(buf[i])
        decreases end - c
      {
        c := c + 1;
      }
      LineEndIs(t, c - cur);
      eol := if buf[c] == '\0' then -1 else c;
    }

    method SkipNewlines()
      requires Valid()
      modifies `cur
      ensures Valid() && cur == old(cur) + |old(Text())| - |Text()|
      ensures Text() == SkipEol(old(Text()))
    {
      while IsEol(buf[cur])
        invariant old(cur) <= cur <= end
        invariant SkipEol(buf[cur..end]) == SkipEol(buf[old(cur)..end])
        decreases end - cur
      {
        assert buf[cur..end][1..] == buf[cur + 1..end];
        cur := cur + 1;
      }
      assert buf[cur..end] != [] ==> buf[cur..end][0] == buf[cur];
    }

    /** An emptied buffer, and one that is given up, starts again at its first byte. */
    method Reset()
      requires Valid()
      modifies this`cur, this`end, buf
      ensures Valid() && cur == 0 && Text() == ""
    {
      cur := 0;
      buf[0] := '\0';
      end := 0;
    }

    /** memmove of the unread text, with its NUL, to the start of the buffer. */
    method MoveDown() returns (len: nat)
      requires Valid()
      modifies this`cur, this`end, buf
      ensures Valid() && cur == 0 && end == len && Text() == old(Text())
    {
      ghost var t := buf[cur..end];
      len := 0;
      while buf[cur + len] != '\0'
        invariant cur + len <= end
        decreases end - len
      {
        len := len + 1;
      }
      forall i | 0 <= i <= len {
        buf[i] := buf[cur + i];
      }
      cur, end := 0, len;
      assert buf[0..end] == t;
    }

    /** One read to the end of the text in the buffer, terminated by a NUL: as much of the next piece as
        there is room for. */
    method Fill(pRead: nat) returns (n: nat)
      requires Valid() && pRead == end < max && input != []
      modifies this`end, this`input, buf
      ensures Valid() && n > 0 && end == pRead + n && cur == old(cur)
      ensures Text() == old(Text()) + Taken(old(input), max - pRead) && input == Rest(old(input), max - pRead)
    {
      ghost var t := Text();
      TakenRest(input, max - pRead);
      var piece := Taken(input, max - pRead);
      n := |piece|;
      forall i | 0 <= i < n {
        buf[pRead + i] := piece[i];
      }
      buf[pRead + n] := '\0';
      input := Rest(input, max - pRead);
      end := pRead + n;
      assert buf[cur..end] == t + piece;
    }

    /** The part of readline before its loop: an emptied buffer is reset, and a partial line left over
        from the last read is moved down. */
    method StartLine() returns (eol: int, pRead: nat)
      requires Valid()
      modifies this`cur, this`end, buf
      ensures Valid() && EolFound(eol) && Sought() == old(Coming())
      ensures if eol == -1 then pRead == end else cur >= old(cur)
    {
      eol, pRead := -1, 0;
      if buf[cur] == '\0' {
        Reset();
      } else {
        SkipNewlines();
        eol := FindNextEol();
        if eol == -1 {
          pRead := MoveDown();
        }
      }
    }

    /** One read, and the terminators in front of the text skipped. */
    method FillAndSkip(pRead: nat) returns (n: nat)
      requires Valid() && pRead == end < max && input != []
      modifies this, buf
      ensures Valid() && Now() == old(Read(max, Now())) && pRead + n == end
    {
      n := Fill(pRead);
      SkipNewlines();
    }

    /** One read, and the search for a line end after it. */
    method ReadSome(pRead: nat) returns (eol: int, pRead': nat)
      requires Valid() && pRead == end < max && input != []
      modifies this, buf
      ensures Valid() && EolFound(eol) && pRead' == end && |Concat(input)| < |Concat(old(input))|
      ensures Now() == old(Read(max, Now()))
    {
      var n := FillAndSkip(pRead);
      eol := FindNextEol();
      pRead' := pRead + n;
    }

    /** The line found is terminated in place and handed out, and the cursor put behind its end. For the
        prompt that is behind the text: at whatever the buffer held before, or out of the buffer. */
    method TakeLine(eol: int) returns (line: string)
      requires Valid() && EolFound(eol) && eol != -1
      modifies this`cur, this`end, buf
      ensures cur == eol + 1 && input == old(input) && (cur <= max ==> Valid())
      ensures match old(Sought())
              case Line(text, left, at, _) => line == text && cur == at <= max && Text() == left
              case Prompt(full, _) => line == "> " && (full <==> cur > max)
              case Ended(_) => false
    {
      ghost var t := Text();
      line := buf[cur..eol];
      ghost var rest := buf[eol..end];
      assert rest == t[eol - cur..] && line == t[..eol - cur];
      buf[eol] := '\0';
      cur := eol + 1;
      if eol == end {
        FindEnd();
      } else {
        assert buf[cur..end] == rest[1..];
      }
    }

    /** Where the text at the cursor ends, if the cursor is still in the buffer. */
    ghost method FindEnd()
      requires buf.Length == max + 1 && buf[max] == '\0'
      modifies `end
      ensures cur <= max ==> cur <= end <= max && buf[end] == '\0' && forall i :: cur <= i < end ==> buf[i] != '\0'
    {
      end := cur;
      while end < max && buf[end] != '\0'
        invariant cur <= end && (cur <= max ==> end <= max) && forall i :: cur <= i < end ==> i < max && buf[i] != '\0'
      {
        end := end + 1;
      }
    }

    /** The loop of readline: reads until the buffer holds a line, or, with -1, until the stream ends. */
    method ReadUntilLine(eol0: int, pRead0: nat) returns (eol: int)
      requires Valid() && EolFound(eol0) && (eol0 == -1 ==> pRead0 == end)
      modifies this, buf
      ensures Valid()
      ensures if eol == -1 then input == [] && old(Sought()) == Ended(Text()) else EolFound(eol) && Sought() == old(Sought())
      ensures |Concat(input)| < |Concat(old(input))| || (input == old(input) && (eol != -1 ==> cur == old(cur) && eol == eol0))
    {
      eol := eol0;
      var pRead := pRead0;
      while eol == -1
        invariant Valid() && EolFound(eol) && Sought() == old(Sought()) && (eol == -1 ==> pRead == end)
        invariant |Concat(input)| < |Concat(old(input))| || (input == old(input) && cur == old(cur) && eol == eol0)
        decreases eol == -1, |Concat(input)|
      {
        if max - pRead == 0 {
          // the line exceeds the buffer, which is given up
          Reset();
          pRead := 0;
        }
        if input == [] {
          return -1;
        }
        eol, pRead := ReadSome(pRead);
      }
    }

    /** Readline, for every stream and every division of it: the outcome that `Next` gives. */
    method Readline() returns (ret: Option<string>)
      requires Valid()
      modifies this, buf
      ensures match old(Coming())
              case Line(text, left, at, rest) => Valid() && ret == Some(text) && Now() == Pos(left, at, rest)
              case Prompt(full, rest) => ret == Some("> ") && input == rest && (full <==> cur > max) && (!full ==> Valid())
              case Ended(left) => Valid() && ret == None && Text() == left && input == []
      ensures |Concat(input)| < |Concat(old(input))| || (input == old(input) && (ret.Some? ==> cur > old(cur)))
    {
      var eol, pRead := StartLine();
      eol := ReadUntilLine(eol, pRead);
      if eol == -1 {
        return None;
      }
      var line := TakeLine(eol);
      ret := Some(line);
    }
  }

  /** What a call does to the lines still to be taken, if the next one fits. */
  lemma LoopStep(max: nat, p: Pos)
    requires Placed(max, p) && FitsLine(Owed(p), max)
    ensures var o := Next(max, p);
            && !o.Prompt?
            && SafeLines(Owed(p), max) == (if o.Line? then [o.text] + SafeLines(o.left + Concat(o.input), max) else [])
            && (o.Line? && Fits(Owed(p), max) ==> Fits(o.left + Concat(o.input), max))
  {
    FittingAgrees(max, p);
    LinesStep(Owed(p));
  }

  /** A call that gives a line has read something, or left less in the buffer. */
  lemma {:induction false} Progress(max: nat, p: Pos)
    requires Placed(max, p)
    ensures var o := Seek(max, p);
            o.Line? ==>
              && Placed(max, Pos(o.left, o.at, o.input))
              && (|Concat(o.input)| < |Concat(p.input)| || (o.input == p.input && |o.left| < |p.b|))
    decreases |Concat(p.input)|
  {
    var q := Emptied(max, p);
    if EolOf(p.b) == -1 && q.input != [] {
      Progress(max, Read(max, q));
    }
  }

  /** The lines that call after call returns, up to the end of the stream or, with true, to the first
      prompt. */
  function CallLines(max: nat, p: Pos): (seq<string>, bool)
    requires Placed(max, p)
    decreases |Concat(p.input)|, |p.b|
  {
    Progress(max, Started(p));
    match Next(max, p)
    case Line(text, left, at, input) =>
      var (later, prompted) := CallLines(max, Pos(left, at, input));
      ([text] + later, prompted)
    case Prompt(_, _) => ([], true)
    case Ended(_) => ([], false)
  }

  lemma OneMore(before: seq<string>, l: string)
    ensures forall later: seq<string> {:trigger [l] + later} :: before + ([l] + later) == before + [l] + later
  {
  }

  /** The reader thread's loop up to the end of the stream, for every stream and every division of it
      into reads: up to the first prompt the lines taken are those that call after call returns. The
      lines before the first one that does not fit are the stream's; if all fit, all are. */
  method ReaderLoop(r: Reader) returns (lines: seq<string>)
    requires r.Valid()
    modifies r, r.buf
    ensures var (calls, prompted) := CallLines(r.max, old(r.Now()));
            calls <= lines && (!prompted ==> lines == calls)
    ensures SafeLines(old(r.Unread()), r.max) <= lines
    ensures Fits(old(r.Unread()), r.max) ==> lines == Lines(old(r.Unread()))
  {
    ghost var whole, max := r.Unread(), r.max;
    if Fits(whole, max) {
      AllSafe(whole, max);
    }
    SafeCalls(max, r.Now());
    lines := [];
    ghost var calls, prompted := CallLines(max, r.Now()).0, CallLines(max, r.Now()).1;
    ghost var onTrack := true;
    assert [] + calls == calls;
    var more := true;
    while more
      invariant more ==> r.Valid()
      invariant onTrack ==> more && (lines + CallLines(max, r.Now()).0, CallLines(max, r.Now()).1) == (calls, prompted)
      invariant !onTrack ==> calls <= lines && (!prompted ==> !more && lines == calls)
      decreases more, |Concat(r.input)|, max + 1 - r.cur
    {
      ghost var before, coming := lines, r.Coming();
      var line := r.Readline();
      match line {
        case Some(l) =>
          lines := lines + [l];
          OneMore(before, l);
          // the C code would go on reading behind its buffer
          more := r.cur <= r.max;
          onTrack := onTrack && coming.Line?;
        case None =>
          more := false;
          onTrack := false;
      }
    }
  }

  /** The calls return the lines that fit; if all fit, there is no prompt and no other line. */
  lemma {:induction false} SafeCalls(max: nat, p: Pos)
    requires Placed(max, p)
    ensures SafeLines(Owed(p), max) <= CallLines(max, p).0
    ensures Fits(Owed(p), max) ==> CallLines(max, p) == (SafeLines(Owed(p), max), false)
    decreases |Concat(p.input)|, |p.b|
  {
    if FitsLine(Owed(p), max) {
      LoopStep(max, p);
      Progress(max, Started(p));
      var o := Next(max, p);
      if o.Line? {
        SafeCalls(max, Pos(o.left, o.at, o.input));
      }
    }
  }
}
