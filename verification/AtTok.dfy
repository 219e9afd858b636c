/** The tokenizer for AT response lines: fields are cut out of a NUL-terminated buffer in place, the
    way strsep does it, so that the tokens handed out are pointers into the line. */
module AtTok {
  import opened Common

  const NUL := '\0'

  predicate IsSpace(c: char) {
    c == ' ' || c == '\t' || c == '\n' || c == '\r' || c == '\U{0B}' || c == '\U{0C}'
  }

  // ---------------------------------------------------------------- tokens of a text

  function SkipSpace(s: string): (t: string)
    ensures |t| <= |s|
  {
    if s != [] && IsSpace(s[0]) then SkipSpace(s[1..]) else s
  }

  /** The blanks are the space and the characters from tab to carriage return. */
  lemma SpacesAre(c: char)
    ensures IsSpace(c) <==> c == ' ' || 9 <= c as int <= 13
  {
  }

  predicate Blanks(w: string) { forall i :: 0 <= i < |w| ==> IsSpace(w[i]) }

  predicate NoBlankFirst(s: string) { s == [] || !IsSpace(s[0]) }

  /** Exactly the leading blanks are skipped. */
  lemma {:induction false} SkipsBlanks(w: string, s: string)
    requires Blanks(w) && NoBlankFirst(s)
    ensures SkipSpace(w + s) == s
  {
    if w == [] {
      assert w + s == s;
    } else {
      assert (w + s)[1..] == w[1..] + s;
      SkipsBlanks(w[1..], s);
    }
  }

  /** The first place of `c`, or the length when it does not occur. */
  function Index(s: string, c: char): (k: nat)
    ensures k <= |s| && (k < |s| ==> s[k] == c)
  {
    if s == [] || s[0] == c then 0 else 1 + Index(s[1..], c)
  }

  function After(s: string, k: nat): string {
    if k < |s| then s[k + 1..] else []
  }

  lemma {:induction false} IndexIs(s: string, c: char, k: nat)
    requires k <= |s| && (k < |s| ==> s[k] == c) && forall i :: 0 <= i < k ==> s[i] != c
    ensures Index(s, c) == k
  {
    if k > 0 {
      IndexIs(s[1..], c, k - 1);
    }
  }

  /** strsep: the text up to the first `c` and, unless there is none, the text after it. */
  function Cut(s: string, c: char): (string, Option<string>) {
    var k := Index(s, c);
    (s[..k], if k < |s| then Some(s[k + 1..]) else None)
  }

  function NextToken(s: string): (r: (string, Option<string>))
    ensures s != [] && r.1.Some? ==> |r.1.value| < |s|
  {
    var t := SkipSpace(s);
    if t != [] && t[0] == '"' then
      var (tok, rest) := Cut(t[1..], '"');
      (tok, match rest case None => None case Some(more) => Some(After(more, Index(more, ','))))
    else Cut(t, ',')
  }

  /** What repeated calls return while there is more. */
  function Tokens(s: string): seq<string>
    decreases |s|
  {
    if s == [] then []
    else
      var (tok, rest) := NextToken(s);
      [tok] + (match rest case None => [] case Some(more) => Tokens(more))
  }

  // ---------------------------------------------------------------- fields

  /** A field as it stands in a line: blanks, and then either quoted text, with anything but a comma after
      the closing quote, or bare text. */
  datatype Field = Quoted(blanks: string, text: string, after: string) | Bare(blanks: string, text: string)

  predicate FieldOk(f: Field) {
    && Blanks(f.blanks)
    && match f
       case Quoted(_, s, after) => '"' !in s && ',' !in after
       case Bare(w, s) => ',' !in s && NoBlankFirst(s) && (s == [] || s[0] != '"')
  }

  /** The field without the blanks in front of it. */
  function Core(f: Field): string {
    match f case Quoted(_, s, after) => ['"'] + s + ['"'] + after case Bare(_, s) => s
  }

  function Render(f: Field): string { f.blanks + Core(f) }

  function Join(fs: seq<Field>): string {
    if fs == [] then [] else if |fs| == 1 then Render(fs[0]) else Render(fs[0]) + [','] + Join(fs[1..])
  }

  function Texts(fs: seq<Field>): seq<string> {
    seq(|fs|, i requires 0 <= i < |fs| => fs[i].text)
  }

  lemma {:induction false} IndexOfFirst(a: string, c: char, b: string)
    requires c !in a
    ensures Index(a + [c] + b, c) == |a|
    ensures Index(a, c) == |a|
  {
    if a != [] {
      assert (a + [c] + b)[1..] == a[1..] + [c] + b;
      IndexOfFirst(a[1..], c, b);
    }
  }

  lemma CutAt(a: string, c: char, b: string)
    requires c !in a
    ensures Cut(a + [c] + b, c) == (a, Some(b))
    ensures Cut(a, c) == (a, None)
  {
    IndexOfFirst(a, c, b);
    var s := a + [c] + b;
    assert s[..|a|] == a && s[|a| + 1..] == b && a[..|a|] == a;
  }

  /** Blanks in front of a token do not change it. */
  lemma BlanksIgnored(w: string, s: string)
    requires Blanks(w) && NoBlankFirst(s)
    ensures NextToken(w + s) == NextToken(s)
  {
    SkipsBlanks(w, s);
    SkipsBlanks([], s);
    assert [] + s == s;
  }

  lemma QuotedToken(s: string, more: string)
    requires '"' !in s
    ensures NextToken(['"'] + s + ['"'] + more) == (s, Some(After(more, Index(more, ','))))
  {
    var line := ['"'] + s + ['"'] + more;
    assert line[1..] == s + ['"'] + more;
    CutAt(s, '"', more);
    assert SkipSpace(line) == line;
  }

  lemma QuotedField(s: string, after: string, more: string)
    requires '"' !in s && ',' !in after
    ensures NextToken((['"'] + s + ['"'] + after) + [','] + more) == (s, Some(more))
    ensures NextToken(['"'] + s + ['"'] + after) == (s, Some([]))
  {
    QuotedToken(s, after + [','] + more);
    assert (['"'] + s + ['"'] + after) + [','] + more == ['"'] + s + ['"'] + (after + [','] + more);
    IndexOfFirst(after, ',', more);
    assert (after + [','] + more)[|after| + 1..] == more;
    QuotedToken(s, after);
  }

  /** Without a closing quote the text goes to the end of the line, and no token follows. */
  lemma UnclosedQuote(w: string, s: string)
    requires Blanks(w) && '"' !in s
    ensures NextToken(w + ['"'] + s) == (s, None)
  {
    assert w + ['"'] + s == w + (['"'] + s);
    BlanksIgnored(w, ['"'] + s);
    OpenToken(s);
  }

  lemma OpenToken(s: string)
    requires '"' !in s
    ensures NextToken(['"'] + s) == (s, None)
  {
    assert (['"'] + s)[1..] == s;
    CutAt(s, '"', []);
  }

  lemma BareToken(s: string, more: string)
    requires ',' !in s && NoBlankFirst(s) && (s == [] || s[0] != '"')
    ensures NextToken(s + [','] + more) == (s, Some(more)) && NextToken(s) == (s, None)
  {
    CutAt(s, ',', more);
    var line := s + [','] + more;
    assert line[0] == if s == [] then ',' else s[0];
    assert SkipSpace(line) == line && SkipSpace(s) == s;
  }

  /** One field at the end of a line, and one with more after it, as the tokenizer sees them. */
  lemma TokenOfField(f: Field, more: string)
    requires FieldOk(f)
    ensures NextToken(Render(f) + [','] + more) == (f.text, Some(more))
    ensures NextToken(Render(f)) == (f.text, if f.Quoted? then Some([]) else None)
  {
    FieldBeforeMore(f, more);
    FieldAtEnd(f);
  }

  lemma FieldBeforeMore(f: Field, more: string)
    requires FieldOk(f)
    ensures NextToken(Render(f) + [','] + more) == (f.text, Some(more))
  {
    TokenOfCore(f, more);
    NoBlankInFront(f, more);
    BlanksBefore(f.blanks, Core(f), more);
  }

  lemma FieldAtEnd(f: Field)
    requires FieldOk(f)
    ensures NextToken(Render(f)) == (f.text, if f.Quoted? then Some([]) else None)
  {
    TokenOfCore(f, []);
    NoBlankInFront(f, []);
    BlanksIgnored(f.blanks, Core(f));
  }

  lemma BlanksBefore(w: string, s: string, more: string)
    requires Blanks(w) && NoBlankFirst(s + [','] + more)
    ensures NextToken((w + s) + [','] + more) == NextToken(s + [','] + more)
  {
    BlanksIgnored(w, s + [','] + more);
    assert (w + s) + [','] + more == w + (s + [','] + more);
  }

  lemma TokenOfCore(f: Field, more: string)
    requires FieldOk(f)
    ensures NextToken(Core(f) + [','] + more) == (f.text, Some(more))
    ensures NextToken(Core(f)) == (f.text, if f.Quoted? then Some([]) else None)
  {
    match f
    case Bare(_, s) => BareToken(s, more);
    case Quoted(_, s, after) => QuotedField(s, after, more);
  }

  lemma NoBlankInFront(f: Field, more: string)
    requires FieldOk(f)
    ensures NoBlankFirst(Core(f)) && NoBlankFirst(Core(f) + [','] + more)
  {
    assert (Core(f) + [','] + more)[0] == if Core(f) == [] then ',' else Core(f)[0];
  }

  /** Nothing, not even a blank, stands for the field. */
  predicate Nothing(f: Field) { Render(f) == [] }

  /** A line of fields is taken apart into those fields, without the blanks in front of them and without
      quotes, except that a field of no characters at its end leaves nothing behind the last comma and is
      not returned. */
  lemma {:induction false} TokensOfJoin(fs: seq<Field>)
    requires forall i :: 0 <= i < |fs| ==> FieldOk(fs[i])
    ensures Tokens(Join(fs)) == Returned(fs)
  {
    if fs != [] {
      var f := fs[0];
      if |fs| == 1 {
        TokenOfField(f, []);
        assert Texts(fs) == [f.text];
        assert Tokens([]) == [] && [f.text] + [] == [f.text];
      } else {
        TokenOfField(f, Join(fs[1..]));
        TokensOfJoin(fs[1..]);
        assert Join(fs) != [];
        ReturnedCons(fs);
      }
    }
  }

  /** The fields a caller gets back. */
  function Returned(fs: seq<Field>): seq<string> {
    if fs != [] && Nothing(fs[|fs| - 1]) then Texts(fs[..|fs| - 1]) else Texts(fs)
  }

  lemma ReturnedCons(fs: seq<Field>)
    requires |fs| > 1
    ensures Returned(fs) == [fs[0].text] + Returned(fs[1..])
  {
    assert fs[..|fs| - 1] == [fs[0]] + fs[1..][..|fs| - 2];
  }

  /** The round trip holds exactly when the line does not end in a field of no characters. */
  lemma RoundTripExact(fs: seq<Field>)
    requires forall i :: 0 <= i < |fs| ==> FieldOk(fs[i])
    ensures Tokens(Join(fs)) == Texts(fs) <==> (fs == [] || !Nothing(fs[|fs| - 1]))
  {
    TokensOfJoin(fs);
  }

  // ---------------------------------------------------------------- the tokenizer in place

  /** A returned token: a place in the line and the text found there up to a NUL. */
  datatype Token = Token(at: nat, text: string)

  predicate Stands(line: string, t: Token) {
    && t.at + |t.text| < |line| && line[t.at + |t.text|] == NUL
    && forall j :: 0 <= j < |t.text| ==> line[t.at + j] == t.text[j]
  }

  class Cursor {
    const line: array<char>
    /** Where the line's own terminator is. */
    ghost const end: nat
    /** *p_cur, or None for the null pointer. */
    var cur: Option<nat>

    ghost predicate Valid()
      reads this, line
    {
      && end < line.Length && line[end] == NUL
      && (cur.Some? ==> cur.value <= end && forall i :: cur.value <= i < end ==> line[i] != NUL)
    }

    ghost function Rest(): string
      requires Valid() && cur.Some?
      reads this, line
    {
      line[cur.value..end]
    }

    constructor (text: string)
      requires NUL !in text
      ensures Valid() && cur == Some(0) && Rest() == text && fresh(line) && end == |text|
    {
      line := new char[|text| + 1](i => if 0 <= i < |text| then text[i] else NUL);
      end, cur := |text|, Some(0);
      new;
      assert line[0..end] == text;
    }

    /** at_tok_hasmore */
    method HasMore() returns (more: bool)
      requires Valid()
      ensures more <==> cur.Some? && Rest() != []
    {
      more := cur.Some? && line[cur.value] != NUL;
    }

    method SkipWhiteSpace()
      requires Valid() && cur.Some?
      modifies `cur
      ensures Valid() && cur.Some? && cur.value >= old(cur.value) && Rest() == SkipSpace(old(Rest()))
    {
      while line[cur.value] != NUL && IsSpace(line[cur.value])
        invariant Valid() && cur.Some? && cur.value >= old(cur.value)
        invariant SkipSpace(Rest()) == SkipSpace(old(Rest()))
        decreases end - cur.value
      {
        assert Rest()[1..] == line[cur.value + 1..end];
        cur := Some(cur.value + 1);
      }
    }

    method SkipNextComma()
      requires Valid()
      modifies `cur
      ensures Valid() && (cur.Some? <==> old(cur).Some?)
      ensures cur.Some? ==> cur.value >= old(cur).value && Rest() == After(old(Rest()), Index(old(Rest()), ','))
    {
      if cur.None? {
        return;
      }
      ghost var s, start := Rest(), cur.value;
      var p := cur.value;
      while line[p] != NUL && line[p] != ','
        invariant start <= p <= end && forall i :: start <= i < p ==> line[i] != ','
        decreases end - p
      {
        p := p + 1;
      }
      assert forall i :: start <= i < end ==> line[i] == s[i - start];
      IndexIs(s, ',', p - start);
      if line[p] == ',' {
        p := p + 1;
      }
      cur := Some(p);
      assert Rest() == s[p - start..];
    }

    /** The search of strsep: the place of the delimiter, or of the line's end. */
    method FindDelim(delim: char) returns (p: nat)
      requires Valid() && cur.Some? && delim != NUL
      ensures p == cur.value + Index(Rest(), delim) && (line[p] == NUL <==> p == end)
    {
      ghost var s := Rest();
      var start := cur.value;
      p := start;
      while line[p] != NUL && line[p] != delim
        invariant start <= p <= end && forall i :: start <= i < p ==> line[i] != delim
        decreases end - p
      {
        p := p + 1;
      }
      assert forall i :: start <= i < end ==> line[i] == s[i - start];
      IndexIs(s, delim, p - start);
    }

    /** The delimiter at `p` becomes a NUL, and the cursor goes behind it. */
    method Terminate(p: nat)
      requires Valid() && cur.Some? && cur.value <= p < end
      modifies `cur, line
      ensures Valid() && cur == Some(p + 1) && Rest() == old(Rest())[p + 1 - old(cur).value..]
      ensures line[..] == old(line[..])[p := NUL]
    {
      ghost var rest := line[p + 1..end];
      line[p] := NUL;
      cur := Some(p + 1);
      assert Rest() == rest;
    }

    /** strsep on a non-null pointer: the delimiter found becomes a NUL. */
    method Strsep(delim: char) returns (t: Token)
      requires Valid() && cur.Some? && delim != NUL
      modifies `cur, line
      ensures Valid() && Stands(line[..], t) && t.at == old(cur.value)
      ensures (t.text, if cur.Some? then Some(Rest()) else None) == Cut(old(Rest()), delim)
      ensures cur.Some? ==> t.at + |t.text| < cur.value
      ensures forall i :: 0 <= i < old(cur.value) ==> line[i] == old(line[i])
    {
      ghost var s := Rest();
      var start := cur.value;
      var p := FindDelim(delim);
      t := Token(start, line[start..p]);
      assert t.text == s[..p - start];
      if line[p] == NUL {
        cur := None;
      } else {
        Terminate(p);
      }
    }

    /** The branch of nextTok for a field that starts with a quote. */
    method TakeQuoted() returns (t: Token)
      requires Valid() && cur.Some? && line[cur.value] == '"'
      modifies `cur, line
      ensures Valid() && Stands(line[..], t) && t.at >= old(cur.value)
      ensures var (tok, rest) := Cut(old(Rest())[1..], '"');
              && t.text == tok
              && (if cur.Some? then Some(Rest()) else None)
                 == match rest case None => None case Some(more) => Some(After(more, Index(more, ',')))
      ensures cur.Some? ==> t.at + |t.text| < cur.value
      ensures forall i :: 0 <= i < old(cur.value) ==> line[i] == old(line[i])
    {
      assert Rest()[1..] == line[cur.value + 1..end];
      cur := Some(cur.value + 1);
      t := Strsep('"');
      SkipNextComma();
    }

    /** nextTok */
    method NextTok() returns (t: Option<Token>)
      requires Valid()
      modifies `cur, line
      ensures Valid() && (t.None? <==> old(cur).None?)
      ensures t.Some? ==>
                && Stands(line[..], t.value) && t.value.at >= old(cur).value
                && (t.value.text, if cur.Some? then Some(Rest()) else None) == NextToken(old(Rest()))
                && (cur.Some? ==> t.value.at + |t.value.text| < cur.value)
      ensures old(cur).Some? ==> forall i :: 0 <= i < old(cur).value ==> line[i] == old(line[i])
      ensures old(cur).None? ==> cur.None? && line[..] == old(line[..])
    {
      if cur.None? {
        return None;
      }
      SkipWhiteSpace();
      assert Rest() != [] ==> Rest()[0] == line[cur.value];
      if line[cur.value] == '"' {
        var tok := TakeQuoted();
        t := Some(tok);
      } else {
        var tok := Strsep(',');
        t := Some(tok);
      }
    }
  }

  /** The loop every caller runs: at the end each token still stands where it was returned, unharmed
      by the NULs written for the later ones. */
  method Tokenize(c: Cursor) returns (toks: seq<Token>)
    requires c.Valid() && c.cur.Some?
    modifies c, c.line
    ensures |toks| == |Tokens(old(c.Rest()))|
    ensures forall i :: 0 <= i < |toks| ==> Stands(c.line[..], toks[i]) && toks[i].text == Tokens(old(c.Rest()))[i]
    ensures forall i, j :: 0 <= i < j < |toks| ==> toks[i].at + |toks[i].text| < toks[j].at
  {
    toks := [];
    ghost var all := Tokens(c.Rest());
    var more := c.HasMore();
    while more
      invariant c.Valid() && (more <==> c.cur.Some? && c.Rest() != [])
      invariant |toks| <= |all| && all[|toks|..] == (if more then Tokens(c.Rest()) else [])
      invariant Collected(c.line[..], c.cur, toks, all)
      decreases more, if c.Valid() && c.cur.Some? then |c.Rest()| else 0
    {
      toks := TakeOne(c, toks, all);
      more := c.HasMore();
    }
  }

  method TakeOne(c: Cursor, toks: seq<Token>, ghost all: seq<string>) returns (toks': seq<Token>)
    requires c.Valid() && c.cur.Some? && c.Rest() != []
    requires |toks| <= |all| && Collected(c.line[..], c.cur, toks, all) && all[|toks|..] == Tokens(c.Rest())
    modifies c, c.line
    ensures c.Valid() && |toks'| == |toks| + 1 <= |all| && Collected(c.line[..], c.cur, toks', all)
    ensures all[|toks'|..] == (if c.cur.Some? then Tokens(c.Rest()) else [])
    ensures c.cur.Some? ==> |c.Rest()| < |old(c.Rest())|
  {
    ghost var before, from := c.line[..], c.cur;
    TokensFrom(all, |toks|, c.Rest());
    var t := c.NextTok();
    CollectOne(before, from.value, c.line[..], c.cur, toks, t.value, all);
    toks' := toks + [t.value];
  }

  lemma TokensFrom(all: seq<string>, n: nat, s: string)
    requires n <= |all| && all[n..] == Tokens(s) && s != []
    ensures n < |all| && all[n] == NextToken(s).0
    ensures all[n + 1..] == match NextToken(s).1 case None => [] case Some(more) => Tokens(more)
  {
    assert all[n] == all[n..][0] && all[n + 1..] == all[n..][1..];
  }

  /** The tokens returned so far are the first of `all`, stand in the line, lie one behind the other
      and before everything the tokenizer will still write to. */
  predicate Collected(line: string, cur: Option<nat>, toks: seq<Token>, all: seq<string>)
    requires |toks| <= |all|
  {
    && (forall i :: 0 <= i < |toks| ==> Stands(line, toks[i]) && toks[i].text == all[i])
    && (forall i :: 0 <= i < |toks| && cur.Some? ==> toks[i].at + |toks[i].text| < cur.value)
    && (forall i, j :: 0 <= i < j < |toks| ==> toks[i].at + |toks[i].text| < toks[j].at)
  }

  /** A token that stands before everything that was written to stands there still. */
  lemma StillStands(before: string, after: string, n: nat, t: Token)
    requires |before| == |after| && n <= |before| && forall i :: 0 <= i < n ==> after[i] == before[i]
    requires Stands(before, t) && t.at + |t.text| < n
    ensures Stands(after, t)
  {
  }

  lemma CollectOne(before: string, from: nat, after: string, cur: Option<nat>, toks: seq<Token>, t: Token, all: seq<string>)
    requires |toks| < |all| && Collected(before, Some(from), toks, all)
    requires |before| == |after| && from <= |before| && forall i :: 0 <= i < from ==> after[i] == before[i]
    requires Stands(after, t) && t.at >= from && t.text == all[|toks|] && (cur.Some? ==> t.at + |t.text| < cur.value)
    ensures Collected(after, cur, toks + [t], all)
  {
    forall i | 0 <= i < |toks| ensures Stands(after, toks[i]) {
      StillStands(before, after, from, toks[i]);
    }
  }
}
