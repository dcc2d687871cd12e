/** The grammar of command lines, and the proof that the parser decides it. */
module ShellGrammar {
  import opened ShellTokens
  import opened ShellParser

  // ---- The tokens of a line ----

  datatype Token = Token(kind: char, at: Span)

  /** The tokens from position i on. */
  function Tokens(s: string, i: nat): seq<Token>
    requires i <= |s|
    decreases |s| - i
  {
    var j := SkipWs(s, i);
    if j == |s| then [] else [Token(Kind(s, j), Span(j, End(s, j)))] + Tokens(s, End(s, j))
  }

  /** What a token of each kind looks like in the line. Words and >> are as long as they can be. */
  predicate TokenAt(s: string, t: Token) {
    var q, e := t.at.q, t.at.eq;
    && q < e <= |s|
    && (if t.kind == 'a' then
          && (forall p :: q <= p < e ==> s[p] !in BLANKS && s[p] !in SYMBOLS)
          && (e < |s| ==> s[e] in BLANKS || s[e] in SYMBOLS)
        else if t.kind == '+' then s[q..e] == ">>"
        else if t.kind == '>' then s[q..e] == ">" && (e < |s| ==> s[e] != '>')
        else t.kind in SYMBOLS && s[q..e] == [t.kind])
  }

  /** The tokens follow one another in the line from position i on, with only blanks between and around them. */
  predicate Lexed(s: string, i: nat, ts: seq<Token>) {
    && (forall k :: 0 <= k < |ts| ==> TokenAt(s, ts[k]) && i <= ts[k].at.q)
    && (forall k, l :: 0 <= k < l < |ts| ==> ts[k].at.eq <= ts[l].at.q)
    && (forall p :: i <= p < |s| && s[p] !in BLANKS ==> exists k :: 0 <= k < |ts| && ts[k].at.q <= p < ts[k].at.eq)
  }

  lemma FirstToken(s: string, j: nat)
    requires j < |s| && !Ws(s[j])
    ensures TokenAt(s, Token(Kind(s, j), Span(j, End(s, j))))
  {
    var e := End(s, j);
    assert s[j] !in BLANKS;
    assert Symbol(s[j]) <==> s[j] in SYMBOLS;
    if Symbol(s[j]) {
      assert s[j..e] == if Kind(s, j) == '+' then ">>" else [s[j]];
    } else {
      assert forall p :: j <= p < e ==> WordChar(s[p]) && s[p] !in BLANKS && s[p] !in SYMBOLS;
    }
  }

  lemma LexedMore(s: string, i: nat, j: nat, e: nat, t: Token, ts: seq<Token>)
    requires i <= j < e <= |s| && (forall p :: i <= p < j ==> s[p] in BLANKS)
    requires TokenAt(s, t) && t.at == Span(j, e) && Lexed(s, e, ts)
    ensures Lexed(s, i, [t] + ts)
  {
    hide TokenAt;
    var us := [t] + ts;
    forall p | i <= p < |s| && s[p] !in BLANKS ensures exists k :: 0 <= k < |us| && us[k].at.q <= p < us[k].at.eq {
      if p < e {
        assert us[0].at.q <= p < us[0].at.eq;
      } else {
        var k :| 0 <= k < |ts| && ts[k].at.q <= p < ts[k].at.eq;
        assert us[k + 1] == ts[k];
      }
    }
  }

  lemma {:induction false} TokensLexed(s: string, i: nat)
    requires i <= |s|
    ensures Lexed(s, i, Tokens(s, i))
    decreases |s| - i
  {
    hide TokenAt, Kind;
    var j, ts := SkipWs(s, i), Tokens(s, i);
    if j < |s| {
      var e := End(s, j);
      FirstToken(s, j);
      TokensLexed(s, e);
      LexedMore(s, i, j, e, ts[0], ts[1..]);
    }
  }

  // ---- The grammar ----

  /** A part of a simple command: a word, or a redirection sign and its file. */
  datatype Part = Word(t: Token) | File(sign: Token, t: Token)

  datatype Syntax =
    | Simple(parts: seq<Part>)
    | Block(open: Token, line: Syntax, close: Token, parts: seq<Part>)
    | Piped(left: Syntax, bar: Token, right: Syntax)
    | Marked(sub: Syntax, amp: Token)
    | Listed(left: Syntax, semi: Token, right: Syntax)

  predicate PartOk(p: Part) {
    p.t.kind == 'a' && (p.File? ==> p.sign.kind in "<>+")
  }

  predicate PartsOk(ps: seq<Part>) {
    forall k :: 0 <= k < |ps| ==> PartOk(ps[k])
  }

  predicate FilesOk(ps: seq<Part>) {
    forall k :: 0 <= k < |ps| ==> PartOk(ps[k]) && ps[k].File?
  }

  /** At most nine words and any redirections among them, or a line in parentheses with redirections after it. */
  predicate IsExec(d: Syntax)
    decreases d, 0
  {
    || (d.Simple? && PartsOk(d.parts) && |Words(d.parts)| <= 9)
    || (d.Block? && d.open.kind == '(' && IsLine(d.line) && d.close.kind == ')' && FilesOk(d.parts))
  }

  predicate IsPipe(d: Syntax)
    decreases d, 1
  {
    IsExec(d) || (d.Piped? && IsExec(d.left) && d.bar.kind == '|' && IsPipe(d.right))
  }

  predicate IsMarked(d: Syntax)
    decreases d, 2
  {
    IsPipe(d) || (d.Marked? && IsMarked(d.sub) && d.amp.kind == '&')
  }

  predicate IsLine(d: Syntax)
    decreases d, 3
  {
    IsMarked(d) || (d.Listed? && IsMarked(d.left) && d.semi.kind == ';' && IsLine(d.right))
  }

  // ---- What a derivation yields: its tokens and its command ----

  function PartTokens(p: Part): seq<Token> {
    match p
    case Word(t) => [t]
    case File(sign, t) => [sign, t]
  }

  function PartsTokens(ps: seq<Part>): seq<Token> {
    if ps == [] then [] else PartTokens(ps[0]) + PartsTokens(ps[1..])
  }

  function Yield(d: Syntax): seq<Token> {
    match d
    case Simple(ps) => PartsTokens(ps)
    case Block(o, l, c, ps) => [o] + Yield(l) + [c] + PartsTokens(ps)
    case Piped(l, b, r) => Yield(l) + [b] + Yield(r)
    case Marked(u, a) => Yield(u) + [a]
    case Listed(l, m, r) => Yield(l) + [m] + Yield(r)
  }

  function Words(ps: seq<Part>): seq<Span> {
    if ps == [] then [] else (if ps[0].Word? then [ps[0].t.at] else []) + Words(ps[1..])
  }

  /** Input is file descriptor 0; output is 1, opened for writing (1) and created (0x200), also after >>. */
  function FileOf(p: Part): Redirection
    requires p.File?
  {
    if p.sign.kind == '<' then Redirection(p.t.at, 0, 0) else Redirection(p.t.at, 0x201, 1)
  }

  function Files(ps: seq<Part>): seq<Redirection> {
    if ps == [] then [] else (if ps[0].File? then [FileOf(ps[0])] else []) + Files(ps[1..])
  }

  function Command(d: Syntax): Cmd {
    match d
    case Simple(ps) => Wrap(Exec(Words(ps)), Files(ps))
    case Block(_, l, _, ps) => Wrap(Command(l), Files(ps))
    case Piped(l, _, r) => Pipe(Command(l), Command(r))
    case Marked(u, _) => Back(Command(u))
    case Listed(l, _, r) => List(Command(l), Command(r))
  }

  /** The line is derived by d. */
  predicate Derives(s: string, d: Syntax) {
    IsLine(d) && Yield(d) == Tokens(s, 0)
  }

  // ---- The parser's tests, as tests of the next token ----

  lemma TokensSkip(s: string, i: nat)
    requires i <= |s|
    ensures i <= SkipWs(s, i) <= |s| && Tokens(s, SkipWs(s, i)) == Tokens(s, i)
  {
    SkipAgain(s, i);
  }

  /** The first token, and where the others start. */
  lemma Next(s: string, i: nat)
    requires i <= |s|
    ensures var j := SkipWs(s, i); var ts := Tokens(s, i);
            && i <= j <= |s| && (ts == [] <==> j == |s|)
            && (ts != [] ==> ts[0] == Token(Kind(s, j), Span(j, End(s, j))) && j < After(s, j) <= |s|
                             && ts[1..] == Tokens(s, After(s, j)) && SkipWs(s, After(s, j)) == After(s, j))
  {
    var j := SkipWs(s, i);
    if j < |s| {
      TokensSkip(s, End(s, j));
      SkipAgain(s, End(s, j));
    }
  }

  /** peek looks at a character, the grammar at a token. */
  lemma SeesKind(s: string, i: nat)
    requires i <= |s|
    ensures var j := SkipWs(s, i); var ts := Tokens(s, i);
            && j <= |s|
            && (Sees(s, j, "<>") <==> ts != [] && ts[0].kind in "<>+")
            && (Sees(s, j, "(") <==> ts != [] && ts[0].kind == '(')
            && (Sees(s, j, ")") <==> ts != [] && ts[0].kind == ')')
            && (Sees(s, j, "|") <==> ts != [] && ts[0].kind == '|')
            && (Sees(s, j, "&") <==> ts != [] && ts[0].kind == '&')
            && (Sees(s, j, ";") <==> ts != [] && ts[0].kind == ';')
            && (Sees(s, j, "|)&;") || Kind(s, j) == '\0' <==> ts == [] || ts[0].kind in "|)&;")
  {
    hide Tokens, SkipWs;
    Next(s, i);
    var j := SkipWs(s, i);
    KindOf(s, j);
  }

  lemma KindOf(s: string, j: nat)
    requires j <= |s|
    ensures j < |s| ==> Kind(s, j) == (if s[j] == '>' && j + 1 < |s| && s[j + 1] == '>' then '+'
                                       else if s[j] in SYMBOLS then s[j] else 'a')
    ensures j < |s| && s[j] !in SYMBOLS ==> s[j] !in "<>" && s[j] !in "|)&;"
    ensures Kind(s, j) == '\0' <==> j == |s|
  {
  }

  // ---- Concatenating parts ----

  lemma {:induction false} TokensAppend(ps: seq<Part>, qs: seq<Part>)
    ensures PartsTokens(ps + qs) == PartsTokens(ps) + PartsTokens(qs)
    decreases |ps|
  {
    hide PartTokens;
    if ps == [] {
      assert ps + qs == qs;
    } else {
      assert (ps + qs)[0] == ps[0] && (ps + qs)[1..] == ps[1..] + qs;
      TokensAppend(ps[1..], qs);
    }
  }

  lemma {:induction false} WordsAppend(ps: seq<Part>, qs: seq<Part>)
    ensures Words(ps + qs) == Words(ps) + Words(qs)
    decreases |ps|
  {
    if ps == [] {
      assert ps + qs == qs;
    } else {
      assert (ps + qs)[0] == ps[0] && (ps + qs)[1..] == ps[1..] + qs;
      WordsAppend(ps[1..], qs);
    }
  }

  lemma {:induction false} FilesAppend(ps: seq<Part>, qs: seq<Part>)
    ensures Files(ps + qs) == Files(ps) + Files(qs)
    decreases |ps|
  {
    hide FileOf;
    if ps == [] {
      assert ps + qs == qs;
    } else {
      assert (ps + qs)[0] == ps[0] && (ps + qs)[1..] == ps[1..] + qs;
      FilesAppend(ps[1..], qs);
    }
  }

  lemma PartsAppend(ps: seq<Part>, qs: seq<Part>)
    ensures PartsTokens(ps + qs) == PartsTokens(ps) + PartsTokens(qs)
    ensures Words(ps + qs) == Words(ps) + Words(qs) && Files(ps + qs) == Files(ps) + Files(qs)
  {
    hide PartsTokens, Words, Files;
    TokensAppend(ps, qs);
    WordsAppend(ps, qs);
    FilesAppend(ps, qs);
  }

  lemma Assoc<T>(a: seq<T>, b: seq<T>, c: seq<T>)
    ensures a + (b + c) == a + b + c
  {
  }

  lemma Regroup<T>(a: seq<T>, x: T, b: seq<T>, c: seq<T>)
    ensures a + ([x] + (b + c)) == a + [x] + b + c
  {
  }

  lemma {:induction false} NoWords(ps: seq<Part>)
    requires FilesOk(ps)
    ensures Words(ps) == []
    decreases |ps|
  {
    if ps != [] { NoWords(ps[1..]); }
  }

  lemma OnePart(p: Part)
    ensures PartsTokens([p]) == PartTokens(p)
    ensures Words([p]) == (if p.Word? then [p.t.at] else [])
    ensures Files([p]) == (if p.File? then [FileOf(p)] else [])
  {
    assert [p][1..] == [];
  }

  lemma WordThen(w: Part, fs: seq<Part>, qs: seq<Part>)
    requires w.Word? && PartOk(w) && FilesOk(fs) && PartsOk(qs) && Words(fs) == []
    ensures PartsOk([w] + (fs + qs)) && PartsTokens([w] + (fs + qs)) == [w.t] + (PartsTokens(fs) + PartsTokens(qs))
    ensures Words([w] + (fs + qs)) == [w.t.at] + Words(qs) && Files([w] + (fs + qs)) == Files(fs) + Files(qs)
  {
    hide PartsTokens, Words, Files;
    PartsAppend([w], fs + qs);
    PartsAppend(fs, qs);
    OnePart(w);
  }

  lemma NoParts()
    ensures PartsTokens([]) == [] && Words([]) == [] && Files([]) == []
  {
  }

  // ---- Whatever the parser accepts is derived ----

  /** parseredirs took one redirection. */
  lemma RedirTaken(s: string, i: nat, acc: seq<Redirection>) returns (p: Part, n: nat)
    requires i <= |s| && Sees(s, SkipWs(s, i), "<>") && ParseRedirs(s, i, acc).RDone?
    ensures i < n <= |s| && p.File? && PartOk(p) && Tokens(s, i) == PartTokens(p) + Tokens(s, n)
    ensures ParseRedirs(s, i, acc) == ParseRedirs(s, n, acc + [FileOf(p)])
  {
    hide Tokens, SkipWs, Sees, End, Kind, After;
    Next(s, i);
    SeesKind(s, i);
    var j := SkipWs(s, i);
    var f := After(s, j);
    Next(s, f);
    var ts, us := Tokens(s, i), Tokens(s, f);
    KindOf(s, f);
    n := After(s, f);
    p := File(ts[0], us[0]);
    assert ts == [ts[0]] + ([us[0]] + Tokens(s, n));
  }

  lemma {:induction false} RedirsSound(s: string, i: nat, acc: seq<Redirection>) returns (ps: seq<Part>)
    requires i <= |s| && ParseRedirs(s, i, acc).RDone?
    ensures var r := ParseRedirs(s, i, acc);
            && FilesOk(ps) && r.list == acc + Files(ps) && i <= r.pos <= |s|
            && Tokens(s, i) == PartsTokens(ps) + Tokens(s, r.pos)
    decreases |s| - i
  {
    hide Tokens, SkipWs, Sees, Kind, After, PartTokens, PartsTokens, Words, Files, FileOf;
    if Sees(s, SkipWs(s, i), "<>") {
      var p, n := RedirTaken(s, i, acc);
      var qs := RedirsSound(s, n, acc + [FileOf(p)]);
      ps := [p] + qs;
      PartsAppend([p], qs);
      OnePart(p);
      Assoc(acc, [FileOf(p)], Files(qs));
      Assoc(PartTokens(p), PartsTokens(qs), Tokens(s, ParseRedirs(s, i, acc).pos));
    } else {
      ps := [];
      NoParts();
      assert acc + [] == acc;
      TokensSkip(s, i);
    }
  }

  lemma {:induction false} ArgsSound(s: string, i: nat, argv: seq<Span>, rs: seq<Redirection>) returns (ps: seq<Part>)
    requires i <= |s| && |argv| < MAXARGS && ParseArgs(s, i, argv, rs).Done?
    ensures var r := ParseArgs(s, i, argv, rs);
            && PartsOk(ps) && |argv + Words(ps)| <= 9 && r.cmd == Wrap(Exec(argv + Words(ps)), rs + Files(ps))
            && i <= r.pos <= |s| && Tokens(s, i) == PartsTokens(ps) + Tokens(s, r.pos)
    decreases |s| - i
  {
    hide Tokens, SkipWs, Sees, Kind, After, Wrap, ParseRedirs, End, PartsTokens, Words, Files, FileOf;
    Next(s, i);
    SeesKind(s, i);
    var j, ts := SkipWs(s, i), Tokens(s, i);
    if Sees(s, j, "|)&;") || Kind(s, j) == '\0' {
      ps := [];
      NoParts();
      TokensSkip(s, i);
      assert argv + [] == argv && rs + [] == rs;
    } else {
      var n, w := After(s, j), Word(ts[0]);
      var fs := RedirsSound(s, n, rs);
      var r := ParseRedirs(s, n, rs);
      var qs := ArgsSound(s, r.pos, argv + [ts[0].at], r.list);
      ps := [w] + (fs + qs);
      NoWords(fs);
      WordThen(w, fs, qs);
      assert ts == [ts[0]] + (PartsTokens(fs) + (PartsTokens(qs) + Tokens(s, ParseArgs(s, i, argv, rs).pos)));
      assert argv + [ts[0].at] + Words(qs) == argv + Words(ps);
      assert r.list + Files(qs) == rs + Files(ps);
    }
  }

  lemma SimpleSound(s: string, i: nat) returns (d: Syntax)
    requires i <= |s| && !Sees(s, SkipWs(s, i), "(") && ParseExec(s, i).Done?
    ensures var r := ParseExec(s, i);
            IsExec(d) && r.cmd == Command(d) && i <= r.pos <= |s| && Tokens(s, i) == Yield(d) + Tokens(s, r.pos)
  {
    hide Tokens, SkipWs, Sees, Kind, After, PartsTokens, Wrap, ParseRedirs, ParseArgs, ParseLine, Words, Files, IsExec,
         Yield, Command, PartOk;
    TokensSkip(s, i);
    var j := SkipWs(s, i);
    var fs := RedirsSound(s, j, []);
    var r := ParseRedirs(s, j, []);
    var ps := ArgsSound(s, r.pos, [], r.list);
    d := Simple(fs + ps);
    PartsAppend(fs, ps);
    NoWords(fs);
    assert [] + Words(ps) == Words(ps) && [] + Files(fs) == Files(fs);
    Assoc(PartsTokens(fs), PartsTokens(ps), Tokens(s, ParseExec(s, i).pos));
    SimpleYield(fs + ps);
  }

  lemma SimpleYield(ps: seq<Part>)
    requires PartsOk(ps) && |Words(ps)| <= 9
    ensures IsExec(Simple(ps)) && Yield(Simple(ps)) == PartsTokens(ps)
    ensures Command(Simple(ps)) == Wrap(Exec(Words(ps)), Files(ps))
  {
  }

  /** The end of a block: a closing parenthesis and redirections. */
  lemma CloseSound(s: string, k: nat) returns (c: Token, ps: seq<Part>)
    requires k <= |s| && Sees(s, SkipWs(s, k), ")") && ParseRedirs(s, After(s, SkipWs(s, k)), []).RDone?
    ensures var r := ParseRedirs(s, After(s, SkipWs(s, k)), []);
            && c.kind == ')' && FilesOk(ps) && r.list == Files(ps) && k <= r.pos <= |s|
            && Tokens(s, k) == [c] + (PartsTokens(ps) + Tokens(s, r.pos))
  {
    hide Tokens, SkipWs, Sees, Kind, After, PartsTokens, ParseRedirs, Files;
    Next(s, k);
    SeesKind(s, k);
    c := Tokens(s, k)[0];
    ps := RedirsSound(s, After(s, SkipWs(s, k)), []);
    assert [] + Files(ps) == Files(ps);
  }

  lemma BlockYield(o: Token, l: Syntax, c: Token, ps: seq<Part>, rest: seq<Token>)
    ensures Yield(Block(o, l, c, ps)) + rest == [o] + (Yield(l) + ([c] + (PartsTokens(ps) + rest)))
    ensures Command(Block(o, l, c, ps)) == Wrap(Command(l), Files(ps))
  {
    hide PartsTokens, Wrap, Files;
  }

  lemma {:induction false} ExecSound(s: string, i: nat) returns (d: Syntax)
    requires i <= |s| && ParseExec(s, i).Done?
    ensures var r := ParseExec(s, i);
            IsExec(d) && r.cmd == Command(d) && i <= r.pos <= |s| && Tokens(s, i) == Yield(d) + Tokens(s, r.pos)
    decreases |s| - i, 0
  {
    hide Tokens, SkipWs, Sees, Kind, After, PartsTokens, Wrap, ParseRedirs, ParseArgs, ParseLine, Yield, Command,
         IsLine, Files;
    var j := SkipWs(s, i);
    if Sees(s, j, "(") {
      Next(s, i);
      SeesKind(s, i);
      var o := Tokens(s, i)[0];
      var l := LineSound(s, After(s, j));
      var c, ps := CloseSound(s, ParseLine(s, After(s, j)).pos);
      d := Block(o, l, c, ps);
      BlockYield(o, l, c, ps, Tokens(s, ParseExec(s, i).pos));
    } else {
      d := SimpleSound(s, i);
    }
  }

  lemma PipedYield(l: Syntax, b: Token, r: Syntax)
    ensures Yield(Piped(l, b, r)) == Yield(l) + [b] + Yield(r)
    ensures Command(Piped(l, b, r)) == Pipe(Command(l), Command(r))
  {
  }

  lemma ListedYield(l: Syntax, m: Token, r: Syntax)
    ensures Yield(Listed(l, m, r)) == Yield(l) + [m] + Yield(r)
    ensures Command(Listed(l, m, r)) == List(Command(l), Command(r))
  {
  }

  lemma {:induction false} PipeSound(s: string, i: nat) returns (d: Syntax)
    requires i <= |s| && ParsePipe(s, i).Done?
    ensures var r := ParsePipe(s, i);
            IsPipe(d) && r.cmd == Command(d) && i <= r.pos <= |s| && Tokens(s, i) == Yield(d) + Tokens(s, r.pos)
    decreases |s| - i, 1
  {
    hide Tokens, SkipWs, Sees, Kind, After, ParseExec, IsExec, Yield, Command;
    var e := ExecSound(s, i);
    var j := ParseExec(s, i).pos;
    Next(s, j);
    SeesKind(s, j);
    TokensSkip(s, j);
    var k, ts := SkipWs(s, j), Tokens(s, j);
    if Sees(s, k, "|") {
      var r := PipeSound(s, After(s, k));
      d := Piped(e, ts[0], r);
      assert ts == [ts[0]] + (Yield(r) + Tokens(s, ParsePipe(s, i).pos));
      Regroup(Yield(e), ts[0], Yield(r), Tokens(s, ParsePipe(s, i).pos));
      PipedYield(e, ts[0], r);
    } else {
      d := e;
    }
  }

  lemma MarkedYield(u: Syntax, a: Token)
    ensures Yield(Marked(u, a)) == Yield(u) + [a] && Command(Marked(u, a)) == Back(Command(u))
  {
  }

  lemma {:induction false} MarksSound(s: string, i: nat, u: Syntax) returns (d: Syntax)
    requires i <= |s| && IsMarked(u)
    ensures var r := ParseBacks(s, i, Command(u));
            && IsMarked(d) && r.cmd == Command(d) && i <= r.pos <= |s|
            && Yield(u) + Tokens(s, i) == Yield(d) + Tokens(s, r.pos)
    decreases |s| - i
  {
    hide Tokens, SkipWs, Sees, Kind, After, IsPipe, Yield, Command;
    Next(s, i);
    SeesKind(s, i);
    TokensSkip(s, i);
    var j, ts := SkipWs(s, i), Tokens(s, i);
    if Sees(s, j, "&") {
      MarkedYield(u, ts[0]);
      d := MarksSound(s, After(s, j), Marked(u, ts[0]));
      assert Yield(u) + ts == Yield(u) + [ts[0]] + ts[1..];
    } else {
      d := u;
    }
  }

  lemma {:induction false} LineSound(s: string, i: nat) returns (d: Syntax)
    requires i <= |s| && ParseLine(s, i).Done?
    ensures var r := ParseLine(s, i);
            IsLine(d) && r.cmd == Command(d) && i <= r.pos <= |s| && Tokens(s, i) == Yield(d) + Tokens(s, r.pos)
    decreases |s| - i, 2
  {
    hide Tokens, SkipWs, Sees, Kind, After, ParsePipe, ParseBacks, IsPipe, Yield, Command;
    var p := PipeSound(s, i);
    var j := ParsePipe(s, i).pos;
    assert IsMarked(p);
    var m := MarksSound(s, j, p);
    var n := ParseBacks(s, j, Command(p)).pos;
    Next(s, n);
    SeesKind(s, n);
    TokensSkip(s, n);
    var k, ts := SkipWs(s, n), Tokens(s, n);
    if Sees(s, k, ";") {
      var r := LineSound(s, After(s, k));
      d := Listed(m, ts[0], r);
      assert ts == [ts[0]] + (Yield(r) + Tokens(s, ParseLine(s, i).pos));
      Regroup(Yield(m), ts[0], Yield(r), Tokens(s, ParseLine(s, i).pos));
      ListedYield(m, ts[0], r);
    } else {
      d := m;
    }
  }

  // ---- Whatever is derived, the parser accepts ----

  lemma Take(s: string, i: nat, t: Token, rest: seq<Token>) returns (j: nat)
    requires i <= |s| && Tokens(s, i) == [t] + rest
    ensures i <= SkipWs(s, i) == j < After(s, j) <= |s| && t == Token(Kind(s, j), Span(j, End(s, j)))
    ensures Tokens(s, After(s, j)) == rest && SkipWs(s, After(s, j)) == After(s, j)
  {
    hide Tokens, SkipWs;
    Next(s, i);
    assert ([t] + rest)[1..] == rest;
    j := SkipWs(s, i);
  }

  lemma TakeRedir(s: string, i: nat, p: Part, rest: seq<Token>, acc: seq<Redirection>) returns (n: nat)
    requires i <= |s| && p.File? && PartOk(p) && Tokens(s, i) == PartTokens(p) + rest
    ensures n <= |s| && Tokens(s, n) == rest && ParseRedirs(s, i, acc) == ParseRedirs(s, n, acc + [FileOf(p)])
  {
    hide Tokens, SkipWs, Sees, End, Kind, After;
    assert PartTokens(p) + rest == [p.sign] + ([p.t] + rest);
    SeesKind(s, i);
    var j := Take(s, i, p.sign, [p.t] + rest);
    var f := Take(s, After(s, j), p.t, rest);
    n := After(s, f);
  }

  lemma RedirsStop(s: string, i: nat, acc: seq<Redirection>)
    requires i <= |s| && (Tokens(s, i) == [] || Tokens(s, i)[0].kind !in "<>+")
    ensures var j := SkipWs(s, i);
            i <= j <= |s| && ParseRedirs(s, i, acc) == RDone(acc, j) && Tokens(s, j) == Tokens(s, i)
  {
    hide Tokens, SkipWs, Sees, Kind;
    SeesKind(s, i);
    TokensSkip(s, i);
  }

  lemma {:induction false} FilesComplete(s: string, i: nat, ps: seq<Part>, rest: seq<Token>,
                                         acc: seq<Redirection>) returns (j: nat)
    requires i <= |s| && FilesOk(ps) && Tokens(s, i) == PartsTokens(ps) + rest
    requires rest == [] || rest[0].kind !in "<>+"
    ensures j <= |s| && ParseRedirs(s, i, acc) == RDone(acc + Files(ps), j) && Tokens(s, j) == rest
    decreases |ps|
  {
    hide Tokens, SkipWs, PartTokens, ParseRedirs, FileOf;
    if ps == [] {
      assert PartsTokens(ps) + rest == rest && acc + Files(ps) == acc;
      RedirsStop(s, i, acc);
      j := SkipWs(s, i);
    } else {
      assert PartsTokens(ps) + rest == PartTokens(ps[0]) + (PartsTokens(ps[1..]) + rest);
      var n := TakeRedir(s, i, ps[0], PartsTokens(ps[1..]) + rest, acc);
      j := FilesComplete(s, n, ps[1..], rest, acc + [FileOf(ps[0])]);
      assert acc + [FileOf(ps[0])] + Files(ps[1..]) == acc + Files(ps);
    }
  }

  /** What parseexec does with redirections and arguments still to come. */
  function Remaining(s: string, i: nat, argv: seq<Span>, rs: seq<Redirection>): Parsed
    requires i <= |s|
  {
    match ParseRedirs(s, i, rs)
    case RPanic => Panic
    case RDone(rs', k) => ParseArgs(s, k, argv, rs')
  }

  lemma TakeWord(s: string, i: nat, t: Token, rest: seq<Token>, argv: seq<Span>,
                 rs: seq<Redirection>) returns (n: nat)
    requires i <= |s| && t.kind == 'a' && Tokens(s, i) == [t] + rest && |argv| < 9
    ensures n <= |s| && Tokens(s, n) == rest && Remaining(s, i, argv, rs) == Remaining(s, n, argv + [t.at], rs)
  {
    hide Tokens, SkipWs, Sees, End, Kind, After, ParseRedirs, Wrap;
    RedirsStop(s, i, rs);
    var j := Take(s, i, t, rest);
    SkipAgain(s, i);
    SeesKind(s, i);
    n := After(s, j);
  }

  lemma ArgsStop(s: string, i: nat, argv: seq<Span>, rs: seq<Redirection>)
    requires i <= |s| && (Tokens(s, i) == [] || Tokens(s, i)[0].kind in "|)&;")
    ensures var j := SkipWs(s, i);
            && i <= j <= |s| && Tokens(s, j) == Tokens(s, i)
            && Remaining(s, i, argv, rs) == Done(Wrap(Exec(argv), rs), j)
  {
    hide Tokens, SkipWs, Sees, Kind, ParseRedirs, Wrap;
    assert Tokens(s, i) != [] ==> Tokens(s, i)[0].kind !in "<>+";
    RedirsStop(s, i, rs);
    SkipAgain(s, i);
    SeesKind(s, i);
  }

  lemma {:induction false} PartsComplete(s: string, i: nat, ps: seq<Part>, rest: seq<Token>, argv: seq<Span>,
                                         rs: seq<Redirection>) returns (j: nat)
    requires i <= |s| && PartsOk(ps) && |argv| + |Words(ps)| <= 9 && Tokens(s, i) == PartsTokens(ps) + rest
    requires rest == [] || rest[0].kind in "|)&;"
    ensures j <= |s| && Tokens(s, j) == rest
    ensures Remaining(s, i, argv, rs) == Done(Wrap(Exec(argv + Words(ps)), rs + Files(ps)), j)
    decreases |ps|
  {
    hide Tokens, SkipWs, ParseRedirs, FileOf, Wrap, Remaining;
    if ps == [] {
      assert PartsTokens(ps) + rest == rest && argv + Words(ps) == argv && rs + Files(ps) == rs;
      ArgsStop(s, i, argv, rs);
      j := SkipWs(s, i);
    } else {
      var p, more := ps[0], PartsTokens(ps[1..]) + rest;
      assert PartsTokens(ps) + rest == PartTokens(p) + more;
      if p.Word? {
        var n := TakeWord(s, i, p.t, more, argv, rs);
        j := PartsComplete(s, n, ps[1..], rest, argv + [p.t.at], rs);
        assert argv + [p.t.at] + Words(ps[1..]) == argv + Words(ps);
        assert Files(ps) == Files(ps[1..]);
      } else {
        var n := TakeRedir(s, i, p, more, rs);
        RemainingSame(s, i, n, argv, rs, rs + [FileOf(p)]);
        j := PartsComplete(s, n, ps[1..], rest, argv, rs + [FileOf(p)]);
        assert rs + [FileOf(p)] + Files(ps[1..]) == rs + Files(ps);
        assert Words(ps) == Words(ps[1..]);
      }
    }
  }

  lemma RemainingSame(s: string, i: nat, n: nat, argv: seq<Span>, rs: seq<Redirection>, rs': seq<Redirection>)
    requires i <= |s| && n <= |s| && ParseRedirs(s, i, rs) == ParseRedirs(s, n, rs')
    ensures Remaining(s, i, argv, rs) == Remaining(s, n, argv, rs')
  {
  }

  lemma SimpleComplete(s: string, i: nat, d: Syntax, rest: seq<Token>) returns (j: nat)
    requires i <= |s| && IsExec(d) && d.Simple? && Tokens(s, i) == Yield(d) + rest
    requires rest == [] || rest[0].kind in "|)&;"
    ensures j <= |s| && ParseExec(s, i) == Done(Command(d), j) && Tokens(s, j) == rest
  {
    hide Tokens, SkipWs, Sees, Kind, ParseRedirs, ParseArgs, ParseLine, Wrap, After, Words, Files;
    SeesKind(s, i);
    TokensSkip(s, i);
    assert Tokens(s, i) != [] ==> Tokens(s, i)[0].kind != '(';
    j := PartsComplete(s, SkipWs(s, i), d.parts, rest, [], []);
    assert [] + Words(d.parts) == Words(d.parts) && [] + Files(d.parts) == Files(d.parts);
  }

  lemma {:induction false} BlockComplete(s: string, i: nat, d: Syntax, rest: seq<Token>) returns (j: nat)
    requires i <= |s| && IsExec(d) && d.Block? && Tokens(s, i) == Yield(d) + rest
    requires rest == [] || rest[0].kind in "|)&;"
    ensures j <= |s| && ParseExec(s, i) == Done(Command(d), j) && Tokens(s, j) == rest
    decreases d, 0, 0
  {
    hide Tokens, SkipWs, Sees, Kind, End, ParseRedirs, ParseArgs, ParseLine, Wrap, After, PartsTokens, Files, IsLine,
         Yield, Command;
    var files := PartsTokens(d.parts) + rest;
    BlockYield(d.open, d.line, d.close, d.parts, rest);
    SeesKind(s, i);
    var o := Take(s, i, d.open, Yield(d.line) + ([d.close] + files));
    var k := LineComplete(s, After(s, o), d.line, [d.close] + files);
    SeesKind(s, k);
    var c := Take(s, k, d.close, files);
    j := FilesComplete(s, After(s, c), d.parts, rest, []);
    assert [] + Files(d.parts) == Files(d.parts);
  }

  lemma {:induction false} PipeComplete(s: string, i: nat, d: Syntax, rest: seq<Token>) returns (j: nat)
    requires i <= |s| && IsPipe(d) && Tokens(s, i) == Yield(d) + rest && (rest == [] || rest[0].kind in ")&;")
    ensures j <= |s| && ParsePipe(s, i) == Done(Command(d), j) && Tokens(s, j) == rest
    decreases d, 1
  {
    hide Tokens, SkipWs, Sees, Kind, End, ParseExec, After, IsExec, Yield, Command;
    if d.Piped? && !IsExec(d) {
      PipedYield(d.left, d.bar, d.right);
      Regroup(Yield(d.left), d.bar, Yield(d.right), rest);
      var k := ExecComplete(s, i, d.left, [d.bar] + (Yield(d.right) + rest));
      SeesKind(s, k);
      var b := Take(s, k, d.bar, Yield(d.right) + rest);
      j := PipeComplete(s, After(s, b), d.right, rest);
    } else {
      var k := ExecComplete(s, i, d, rest);
      SeesKind(s, k);
      TokensSkip(s, k);
      j := SkipWs(s, k);
    }
  }

  lemma {:induction false} ExecComplete(s: string, i: nat, d: Syntax, rest: seq<Token>) returns (j: nat)
    requires i <= |s| && IsExec(d) && Tokens(s, i) == Yield(d) + rest && (rest == [] || rest[0].kind in "|)&;")
    ensures j <= |s| && ParseExec(s, i) == Done(Command(d), j) && Tokens(s, j) == rest
    decreases d, 0, 1
  {
    hide Tokens, ParseExec, Yield, Command;
    if d.Simple? {
      j := SimpleComplete(s, i, d, rest);
    } else {
      j := BlockComplete(s, i, d, rest);
    }
  }

  /** A pipe and its background marks: the loop over & has come as far as j with the marks in front of it. */
  lemma {:induction false} MarksComplete(s: string, i: nat, d: Syntax, rest: seq<Token>) returns (j: nat)
    requires i <= |s| && IsMarked(d) && Tokens(s, i) == Yield(d) + rest && (rest == [] || rest[0].kind in ")&;")
    ensures j <= |s| && Tokens(s, j) == rest && ParsePipe(s, i).Done?
    ensures var r := ParsePipe(s, i); r.pos <= |s| && ParseBacks(s, r.pos, r.cmd) == ParseBacks(s, j, Command(d))
    decreases d, 2
  {
    hide Tokens, SkipWs, Sees, Kind, End, ParsePipe, After, IsPipe, Yield, Command;
    if d.Marked? && !IsPipe(d) {
      MarkedYield(d.sub, d.amp);
      assert Yield(d) + rest == Yield(d.sub) + ([d.amp] + rest);
      var k := MarksComplete(s, i, d.sub, [d.amp] + rest);
      SeesKind(s, k);
      var a := Take(s, k, d.amp, rest);
      j := After(s, a);
    } else {
      j := PipeComplete(s, i, d, rest);
    }
  }

  lemma BacksStop(s: string, i: nat, c: Cmd)
    requires i <= |s| && (Tokens(s, i) == [] || Tokens(s, i)[0].kind != '&')
    ensures var j := SkipWs(s, i); i <= j <= |s| && ParseBacks(s, i, c) == Done(c, j) && Tokens(s, j) == Tokens(s, i)
  {
    hide Tokens, SkipWs, Sees, Kind;
    SeesKind(s, i);
    TokensSkip(s, i);
  }

  lemma {:induction false} LineComplete(s: string, i: nat, d: Syntax, rest: seq<Token>) returns (j: nat)
    requires i <= |s| && IsLine(d) && Tokens(s, i) == Yield(d) + rest && (rest == [] || rest[0].kind == ')')
    ensures j <= |s| && ParseLine(s, i) == Done(Command(d), j) && Tokens(s, j) == rest
    decreases d, 3
  {
    hide Tokens, SkipWs, Sees, Kind, End, ParsePipe, ParseBacks, After, IsMarked, Yield, Command;
    if d.Listed? && !IsMarked(d) {
      ListedYield(d.left, d.semi, d.right);
      Regroup(Yield(d.left), d.semi, Yield(d.right), rest);
      var k := MarksComplete(s, i, d.left, [d.semi] + (Yield(d.right) + rest));
      BacksStop(s, k, Command(d.left));
      SeesKind(s, SkipWs(s, k));
      var b := Take(s, SkipWs(s, k), d.semi, Yield(d.right) + rest);
      j := LineComplete(s, After(s, b), d.right, rest);
    } else {
      var k := MarksComplete(s, i, d, rest);
      BacksStop(s, k, Command(d));
      SeesKind(s, SkipWs(s, k));
      TokensSkip(s, SkipWs(s, k));
      j := SkipWs(s, SkipWs(s, k));
    }
  }

  // ---- The parser decides the grammar ----

  /** A line parses exactly if it has a derivation, and every derivation of it has the command that the parser returns:
      so the grammar is also unambiguous. */
  lemma ParserDecides(s: string)
    ensures ParseCmd(s).Done? <==> exists d :: Derives(s, d)
    ensures forall d :: Derives(s, d) ==> ParseCmd(s) == Done(Command(d), |s|)
  {
    hide Tokens, SkipWs, Yield, Command, ParseLine, IsLine;
    if ParseLine(s, 0).Done? {
      var d := LineSound(s, 0);
      Next(s, ParseLine(s, 0).pos);
      if ParseCmd(s).Done? {
        assert Yield(d) + [] == Yield(d);
        assert Derives(s, d);
      }
    }
    forall d | Derives(s, d) ensures ParseCmd(s) == Done(Command(d), |s|) {
      assert Yield(d) + [] == Yield(d);
      var j := LineComplete(s, 0, d, []);
      Next(s, j);
    }
  }
}
