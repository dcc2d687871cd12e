/** A canonical printer for command trees, and the proof that the parser undoes it. */
module ShellPrint {
  import opened ShellTokens
  import opened ShellParser

  /** Input from a file, output to one, and output that is meant to be appended. */
  datatype RedirOp = In | Out | Append

  /** A command tree with its words as text. */
  datatype Tree =
    | TExec(args: seq<string>)
    | TRedir(sub: Tree, file: string, op: RedirOp)
    | TPipe(left: Tree, right: Tree)
    | TList(left: Tree, right: Tree)
    | TBack(sub: Tree)

  predicate WellFormed(t: Tree) {
    match t
    case TExec(args) => |args| < MAXARGS && forall k :: 0 <= k < |args| ==> IsWord(args[k])
    case TRedir(u, file, _) => WellFormed(u) && IsWord(file)
    case TPipe(l, r) => WellFormed(l) && WellFormed(r)
    case TList(l, r) => WellFormed(l) && WellFormed(r)
    case TBack(u) => WellFormed(u)
  }

  // ---- Printing, with parentheses only where the grammar needs them ----

  function Words(ws: seq<string>): string {
    if ws == [] then "" else ws[0] + " " + Words(ws[1..])
  }

  function OpText(op: RedirOp): string {
    match op
    case In => "<"
    case Out => ">"
    case Append => ">>"
  }

  function RedirText(file: string, op: RedirOp): string {
    OpText(op) + " " + (file + " ")
  }

  /** The inside of a pipe, list or background command. */
  function Inner(t: Tree): string
    decreases t, 0
  {
    match t
    case TPipe(l, r) => TextExec(l) + "| " + TextPipe(r)
    case TList(l, r) => TextBack(l) + "; " + TextLine(r)
    case TBack(u) => TextBack(u) + "& "
    case _ => ""
  }

  function TextExec(t: Tree): string
    decreases t, 1
  {
    match t
    case TExec(args) => Words(args)
    case TRedir(u, file, op) => TextExec(u) + RedirText(file, op)
    case _ => "( " + Inner(t) + ") "
  }

  function TextPipe(t: Tree): string
    decreases t, 2
  {
    if t.TPipe? then Inner(t) else TextExec(t)
  }

  function TextBack(t: Tree): string
    decreases t, 3
  {
    if t.TBack? then Inner(t) else TextPipe(t)
  }

  function TextLine(t: Tree): string
    decreases t, 4
  {
    if t.TList? then Inner(t) else TextBack(t)
  }

  // ---- What it means for a parsed command to be the tree ----

  predicate Slice(s: string, w: Span, text: string) {
    w.q <= w.eq <= |s| && s[w.q..w.eq] == text
  }

  predicate IsRedir(s: string, d: Redirection, file: string, op: RedirOp) {
    && Slice(s, d.file, file)
    && d.mode == (if op.In? then O_RDONLY else O_WRONLY + O_CREATE) && d.fd == (if op.In? then 0 else 1)
  }

  predicate Same(s: string, c: Cmd, t: Tree)
    decreases t
  {
    match t
    case TExec(args) => c.Exec? && |c.argv| == |args| && forall k :: 0 <= k < |args| ==> Slice(s, c.argv[k], args[k])
    case TRedir(u, file, op) => c.Redir? && Same(s, c.cmd, u) && IsRedir(s, c.to, file, op)
    case TPipe(l, r) => c.Pipe? && Same(s, c.left, l) && Same(s, c.right, r)
    case TList(l, r) => c.List? && Same(s, c.left, l) && Same(s, c.right, r)
    case TBack(u) => c.Back? && Same(s, c.cmd, u)
  }

  /** After position i (and whitespace) the line ends or goes on with one of toks. */
  predicate Follow(s: string, i: nat, toks: string) {
    i <= |s| && (SkipWs(s, i) == |s| || s[SkipWs(s, i)] in toks)
  }

  // ---- The cursor can stand before or after whitespace ----

  lemma RedirsSkip(s: string, i: nat, acc: seq<Redirection>)
    requires i <= |s|
    ensures ParseRedirs(s, SkipWs(s, i), acc) == ParseRedirs(s, i, acc)
  {
    SkipAgain(s, i);
  }

  lemma LineSkip(s: string, i: nat)
    requires i <= |s|
    ensures ParseExec(s, SkipWs(s, i)) == ParseExec(s, i)
    ensures ParsePipe(s, SkipWs(s, i)) == ParsePipe(s, i)
    ensures ParseLine(s, SkipWs(s, i)) == ParseLine(s, i)
  {
    SkipAgain(s, i);
  }

  // ---- Redirections ----

  /** The tree under the redirections, and the redirections from the inside out. */
  function Core(t: Tree): Tree {
    if t.TRedir? then Core(t.sub) else t
  }

  function Files(t: Tree): seq<(string, RedirOp)> {
    if t.TRedir? then Files(t.sub) + [(t.file, t.op)] else []
  }

  function FilesText(fs: seq<(string, RedirOp)>): string
    decreases |fs|
  {
    if fs == [] then "" else FilesText(fs[..|fs| - 1]) + RedirText(fs[|fs| - 1].0, fs[|fs| - 1].1)
  }

  predicate WordFiles(fs: seq<(string, RedirOp)>) {
    forall k :: 0 <= k < |fs| ==> IsWord(fs[k].0)
  }

  predicate SameFiles(s: string, ds: seq<Redirection>, fs: seq<(string, RedirOp)>) {
    |ds| == |fs| && forall k :: 0 <= k < |fs| ==> IsRedir(s, ds[k], fs[k].0, fs[k].1)
  }

  lemma {:induction false} CoreText(t: Tree)
    requires WellFormed(t)
    ensures TextExec(t) == TextExec(Core(t)) + FilesText(Files(t)) && WordFiles(Files(t)) && WellFormed(Core(t))
    ensures !Core(t).TRedir?
    decreases t
  {
    hide IsWord, RedirText, Words, Inner;
    if t.TRedir? {
      CoreText(t.sub);
      var fs := Files(t);
      assert fs[..|fs| - 1] == Files(t.sub);
      var text := RedirText(t.file, t.op);
      assert TextExec(Core(t)) + FilesText(Files(t.sub)) + text == TextExec(Core(t)) + (FilesText(Files(t.sub)) + text);
    }
  }

  lemma {:induction false} WrapSame(s: string, c: Cmd, ds: seq<Redirection>, t: Tree)
    requires Same(s, c, Core(t)) && SameFiles(s, ds, Files(t))
    ensures Same(s, Wrap(c, ds), t)
    decreases t
  {
    if t.TRedir? {
      var fs, n := Files(t), |ds|;
      assert fs[n - 1] == (t.file, t.op) && fs[..n - 1] == Files(t.sub);
      assert forall k :: 0 <= k < n - 1 ==> IsRedir(s, ds[k], fs[k].0, fs[k].1);
      WrapSame(s, c, ds[..n - 1], t.sub);
    }
  }

  /** The token of a redirection sign. */
  lemma OpToken(s: string, i: nat, op: RedirOp)
    requires StartsAt(s, i, OpText(op) + " ")
    ensures var n := |OpText(op)|;
            && i + n < |s| && SkipWs(s, i) == i && Sees(s, i, "<>") && End(s, i) == i + n
            && SkipWs(s, i + n) == SkipWs(s, i + n + 1)
    ensures Kind(s, i) == '<' <==> op.In?
  {
    hide SkipWs, WordEnd;
    var text, n := OpText(op) + " ", |OpText(op)|;
    forall k | 0 <= k <= n ensures s[i + k] == text[k] { assert s[i..i + |text|][k] == s[i + k]; }
    assert text[0] == OpText(op)[0] && text[n] == ' ';
    if op.Append? {
      assert n == 2 && s[i] == '>' && s[i + 1] == text[1] == '>';
    } else {
      assert n == 1 && s[i + 1] == ' ';
    }
    NoSkip(s, i);
    SkipSpace(s, i + n);
  }

  lemma NoSkip(s: string, i: nat)
    requires i < |s| && !Ws(s[i])
    ensures SkipWs(s, i) == i
  {
  }

  /** The two tokens of a redirection: the sign, and at j the file. */
  lemma RedirTokens(s: string, i: nat, file: string, op: RedirOp, j: nat)
    requires IsWord(file) && StartsAt(s, i, RedirText(file, op)) && j == i + |OpText(op)| + 1
    ensures j < |s| && i + |RedirText(file, op)| == j + |file| + 1 <= |s|
    ensures SkipWs(s, i) == i && Sees(s, i, "<>") && (Kind(s, i) == '<' <==> op.In?) && After(s, i) == j
    ensures Kind(s, j) == 'a' && End(s, j) == j + |file| && After(s, j) == SkipWs(s, j + |file| + 1)
    ensures s[j..j + |file|] == file
  {
    hide SkipWs, WordEnd, Kind, End, IsWord, OpText;
    StartsSplit(s, i, OpText(op) + " ", file + " ");
    OpToken(s, i, op);
    WordToken(s, j, file);
  }

  /** Parsing one redirection. */
  lemma OneRedir(s: string, i: nat, file: string, op: RedirOp, acc: seq<Redirection>) returns (d: Redirection)
    requires IsWord(file) && StartsAt(s, i, RedirText(file, op))
    ensures IsRedir(s, d, file, op) && i + |RedirText(file, op)| <= |s|
    ensures ParseRedirs(s, i, acc) == ParseRedirs(s, i + |RedirText(file, op)|, acc + [d])
  {
    hide SkipWs, WordEnd, Kind, End, IsWord, StartsAt, RedirText, After, OpText, Sees;
    var j := i + |OpText(op)| + 1;
    RedirTokens(s, i, file, op, j);
    var span := Span(j, j + |file|);
    d := if op.In? then Redirection(span, O_RDONLY, 0) else Redirection(span, O_WRONLY + O_CREATE, 1);
    RedirsSkip(s, j + |file| + 1, acc + [d]);
  }

  lemma {:induction false} ManyRedirs(s: string, i: nat, fs: seq<(string, RedirOp)>,
                                      acc: seq<Redirection>) returns (ds: seq<Redirection>)
    requires WordFiles(fs) && StartsAt(s, i, FilesText(fs))
    ensures SameFiles(s, ds, fs) && ParseRedirs(s, i, acc) == ParseRedirs(s, i + |FilesText(fs)|, acc + ds)
    decreases |fs|
  {
    hide ParseRedirs;
    if fs == [] {
      ds := [];
      assert acc + [] == acc;
    } else {
      var n := |fs| - 1;
      StartsSplit(s, i, FilesText(fs[..n]), RedirText(fs[n].0, fs[n].1));
      var es := ManyRedirs(s, i, fs[..n], acc);
      var d := OneRedir(s, i + |FilesText(fs[..n])|, fs[n].0, fs[n].1, acc + es);
      ds := es + [d];
      assert acc + es + [d] == acc + ds;
      assert SameFiles(s, ds, fs) by {
        assert forall k :: 0 <= k < n ==> fs[..n][k] == fs[k];
      }
    }
  }

  lemma NoRedir(s: string, i: nat, acc: seq<Redirection>)
    requires Follow(s, i, "|)&;")
    ensures ParseRedirs(s, i, acc) == RDone(acc, SkipWs(s, i))
  {
  }

  /** All redirections of a command, up to what follows it. */
  lemma AllRedirs(s: string, i: nat, fs: seq<(string, RedirOp)>) returns (ds: seq<Redirection>)
    requires WordFiles(fs) && StartsAt(s, i, FilesText(fs)) && Follow(s, i + |FilesText(fs)|, "|)&;")
    ensures SameFiles(s, ds, fs) && ParseRedirs(s, i, []) == RDone(ds, SkipWs(s, i + |FilesText(fs)|))
  {
    hide Follow, ParseRedirs, SameFiles, FilesText, WordFiles;
    ds := ManyRedirs(s, i, fs, []);
    assert [] + ds == ds;
    NoRedir(s, i + |FilesText(fs)|, ds);
  }

  // ---- Arguments ----

  predicate WordArgs(ws: seq<string>) {
    forall k :: 0 <= k < |ws| ==> IsWord(ws[k])
  }

  predicate SameArgs(s: string, argv: seq<Span>, ws: seq<string>) {
    |argv| == |ws| && forall k :: 0 <= k < |ws| ==> Slice(s, argv[k], ws[k])
  }

  /** The token of one argument. */
  lemma ArgToken(s: string, i: nat, w: string, rest: string)
    requires IsWord(w) && StartsAt(s, i, w + " " + rest)
    ensures i + |w| + 1 <= |s| && SkipWs(s, i) == i < |s| && WordChar(s[i]) && Kind(s, i) == 'a' && End(s, i) == i + |w|
    ensures s[i..i + |w|] == w
    ensures After(s, i) == SkipWs(s, i + |w| + 1) && StartsAt(s, i + |w| + 1, rest)
  {
    hide SkipWs, WordEnd, Kind, End, IsWord;
    StartsSplit(s, i, w + " ", rest);
    WordToken(s, i, w);
  }

  /** One turn of the argument loop, in front of another word. */
  lemma ArgThenWord(s: string, i: nat, w: string, rest: string, argv: seq<Span>)
    requires IsWord(w) && StartsAt(s, i, w + " " + rest) && |argv| + 1 < MAXARGS
    requires i + |w| + 1 < |s| && WordChar(s[i + |w| + 1])
    ensures ParseArgs(s, i, argv, []) == ParseArgs(s, i + |w| + 1, argv + [Span(i, i + |w|)], [])
  {
    hide WordEnd, Kind, End, IsWord, StartsAt, After;
    ArgToken(s, i, w, rest);
    var j := i + |w| + 1;
    assert SkipWs(s, j) == j && ParseRedirs(s, j, []) == RDone([], j);
    assert !Sees(s, i, "|)&;");
  }

  /** The last turn of the argument loop: the redirections follow, then the end of the command. */
  lemma LastArg(s: string, i: nat, w: string, fs: seq<(string, RedirOp)>,
                argv: seq<Span>) returns (ds: seq<Redirection>)
    requires IsWord(w) && WordFiles(fs) && StartsAt(s, i, w + " " + FilesText(fs)) && |argv| + 1 < MAXARGS
    requires Follow(s, i + |w| + 1 + |FilesText(fs)|, "|)&;")
    ensures SameFiles(s, ds, fs)
    ensures ParseArgs(s, i, argv, []) == Done(Wrap(Exec(argv + [Span(i, i + |w|)]), ds),
              SkipWs(s, i + |w| + 1 + |FilesText(fs)|))
  {
    hide WordEnd, Kind, End, IsWord, StartsAt, After, Follow, FilesText, SameFiles, WordFiles, ParseRedirs, Wrap,
         SkipWs;
    ArgToken(s, i, w, FilesText(fs));
    ds := AllRedirs(s, i + |w| + 1, fs);
    RedirsSkip(s, i + |w| + 1, []);
    FollowInside(s, i + |w| + 1 + |FilesText(fs)|);
    ArgsEnd(s, i + |w| + 1 + |FilesText(fs)|, argv + [Span(i, i + |w|)], ds);
    assert !Sees(s, i, "|)&;");
  }

  lemma FollowInside(s: string, i: nat)
    requires Follow(s, i, "|)&;")
    ensures i <= SkipWs(s, i) <= |s|
  {
  }

  /** The argument loop ends. */
  lemma ArgsEnd(s: string, i: nat, argv: seq<Span>, ds: seq<Redirection>)
    requires Follow(s, i, "|)&;")
    ensures ParseArgs(s, SkipWs(s, i), argv, ds) == Done(Wrap(Exec(argv), ds), SkipWs(s, i))
  {
    hide Wrap;
    SkipAgain(s, i);
  }

  lemma {:induction false} ManyArgs(s: string, i: nat, ws: seq<string>, fs: seq<(string, RedirOp)>,
                                    argv: seq<Span>) returns (bs: seq<Span>, ds: seq<Redirection>)
    requires ws != [] && WordArgs(ws) && WordFiles(fs) && |argv| + |ws| < MAXARGS
    requires StartsAt(s, i, Words(ws) + FilesText(fs)) && Follow(s, i + |Words(ws) + FilesText(fs)|, "|)&;")
    ensures SameArgs(s, bs, ws) && SameFiles(s, ds, fs)
    ensures ParseArgs(s, i, argv, []) == Done(Wrap(Exec(argv + bs), ds), SkipWs(s, i + |Words(ws) + FilesText(fs)|))
    decreases |ws|
  {
    hide ParseArgs, SkipWs, Follow, StartsAt, IsWord, FilesText, SameFiles, WordFiles, Wrap, Words, SameArgs;
    var w, rest := ws[0], Words(ws[1..]) + FilesText(fs);
    WordsHead(ws, FilesText(fs));
    ArgToken(s, i, w, rest);
    if |ws| == 1 {
      assert ws[1..] == [];
      NoWords();
      assert rest == FilesText(fs);
      ds := LastArg(s, i, w, fs, argv);
      bs := [Span(i, i + |w|)];
      SameCons(s, i, w, [], ws[1..]);
      assert [Span(i, i + |w|)] + [] == bs;
    } else {
      var j := i + |w| + 1;
      WordsHead(ws[1..], FilesText(fs));
      ArgToken(s, j, ws[1], Words(ws[1..][1..]) + FilesText(fs));
      ArgThenWord(s, i, w, rest, argv);
      var cs;
      cs, ds := ManyArgs(s, j, ws[1..], fs, argv + [Span(i, i + |w|)]);
      bs := [Span(i, i + |w|)] + cs;
      SameCons(s, i, w, cs, ws[1..]);
      assert argv + [Span(i, i + |w|)] + cs == argv + bs;
    }
    assert ws == [w] + ws[1..];
  }

  lemma WordsHead(ws: seq<string>, tail: string)
    requires ws != []
    ensures Words(ws) + tail == ws[0] + " " + (Words(ws[1..]) + tail)
  {
  }

  lemma SameCons(s: string, i: nat, w: string, cs: seq<Span>, ws: seq<string>)
    requires i + |w| <= |s| && s[i..i + |w|] == w && (if ws == [] then cs == [] else SameArgs(s, cs, ws))
    ensures SameArgs(s, [Span(i, i + |w|)] + cs, [w] + ws)
  {
  }

  /** A simple command with its redirections. */
  lemma SimpleCommand(s: string, i: nat, t: Tree)
    requires WellFormed(t) && Core(t).TExec? && StartsAt(s, i, TextExec(t)) && Follow(s, i + |TextExec(t)|, "|)&;")
    ensures var r := ParseExec(s, i); r.Done? && Same(s, r.cmd, t) && r.pos == SkipWs(s, i + |TextExec(t)|)
  {
    hide SkipWs, Follow, StartsAt, IsWord, FilesText, SameFiles, WordFiles, Wrap, ParseArgs, ParseRedirs, Same,
         WellFormed, Words;
    CoreText(t);
    var ws, fs := Core(t).args, Files(t);
    ExecArgs(t);
    if ws == [] {
      assert Words(ws) == "" by { hide *; NoWords(); }
      assert TextExec(t) == FilesText(fs);
      var ds := AllRedirs(s, i, fs);
      NotBlock(s, i, ws, fs);
      ArgsEnd(s, i + |FilesText(fs)|, [], ds);
      RedirsSkip(s, i, []);
      ExecSame(s, [], ws);
      WrapSame(s, Exec([]), ds, t);
    } else {
      assert TextExec(t) == Words(ws) + FilesText(fs);
      NotBlock(s, i, ws, fs);
      var bs, ds := ManyArgs(s, i, ws, fs, []);
      assert [] + bs == bs;
      ExecSame(s, bs, ws);
      WrapSame(s, Exec(bs), ds, t);
    }
  }

  lemma NoWords()
    ensures Words([]) == ""
  {
  }

  lemma ExecArgs(t: Tree)
    requires WellFormed(t) && WellFormed(Core(t)) && Core(t).TExec?
    ensures WordArgs(Core(t).args) && |Core(t).args| < MAXARGS
  {
  }

  lemma ExecSame(s: string, bs: seq<Span>, ws: seq<string>)
    requires SameArgs(s, bs, ws)
    ensures Same(s, Exec(bs), TExec(ws))
  {
  }

  /** A simple command does not start with a parenthesis; if it starts with a word, no redirection comes first. */
  lemma NotBlock(s: string, i: nat, ws: seq<string>, fs: seq<(string, RedirOp)>)
    requires WordArgs(ws) && WordFiles(fs) && StartsAt(s, i, Words(ws) + FilesText(fs))
    requires Follow(s, i + |Words(ws) + FilesText(fs)|, "|)&;")
    ensures i <= |s| && SkipWs(s, i) <= |s| && !Sees(s, SkipWs(s, i), "(")
    ensures ws != [] ==> SkipWs(s, i) == i && ParseRedirs(s, i, []) == RDone([], i)
  {
    hide WordEnd, Kind, End, StartsAt, IsWord, SkipWs, ParseRedirs, WordFiles, Words, FilesText, Follow;
    if ws != [] {
      WordsHead(ws, FilesText(fs));
      ArgToken(s, i, ws[0], Words(ws[1..]) + FilesText(fs));
      WordFirst(s, i);
    } else {
      NoWords();
      assert Words(ws) + FilesText(fs) == FilesText(fs);
      if fs != [] {
        FirstRedir(s, i, fs);
      } else {
        NothingFirst(s, i);
      }
    }
  }

  lemma WordFirst(s: string, i: nat)
    requires i < |s| && SkipWs(s, i) == i && WordChar(s[i])
    ensures !Sees(s, i, "(") && ParseRedirs(s, i, []) == RDone([], i)
  {
    hide SkipWs;
  }

  lemma NothingFirst(s: string, i: nat)
    requires Follow(s, i + |FilesText([])|, "|)&;")
    ensures i <= |s| && SkipWs(s, i) <= |s| && !Sees(s, SkipWs(s, i), "(")
  {
  }

  lemma {:induction false} FirstRedir(s: string, i: nat, fs: seq<(string, RedirOp)>)
    requires fs != [] && WordFiles(fs) && StartsAt(s, i, FilesText(fs))
    ensures i < |s| && (s[i] == '<' || s[i] == '>') && SkipWs(s, i) == i
    decreases |fs|
  {
    var n := |fs| - 1;
    StartsSplit(s, i, FilesText(fs[..n]), RedirText(fs[n].0, fs[n].1));
    if n == 0 {
      RedirTokens(s, i, fs[n].0, fs[n].1, i + |OpText(fs[n].1)| + 1);
    } else {
      FirstRedir(s, i, fs[..n]);
    }
  }

  // ---- One step of each parsing function ----

  lemma FollowSymbol(s: string, i: nat, c: char, text: string, toks: string)
    requires Symbol(c) && |text| == 2 && text[0] == c && text[1] == ' ' && StartsAt(s, i, text) && c in toks
    ensures i + 2 <= |s| && SkipWs(s, i) == i && s[i] == c && Follow(s, i, toks) && After(s, i) == SkipWs(s, i + 2)
  {
    assert text == [c] + " ";
    SymbolToken(s, i, c);
  }

  lemma PipeEnd(s: string, i: nat, e: nat, c: Cmd)
    requires i <= |s| && Follow(s, e, ")&;") && ParseExec(s, i) == Done(c, SkipWs(s, e))
    ensures ParsePipe(s, i) == Done(c, SkipWs(s, e))
  {
    hide ParseExec;
    SkipAgain(s, e);
  }

  lemma PipeStep(s: string, i: nat, e: nat, c: Cmd)
    requires i <= |s| && StartsAt(s, e, "| ") && ParseExec(s, i) == Done(c, SkipWs(s, e)) && ParsePipe(s, e + 2).Done?
    ensures var r := ParsePipe(s, e + 2); ParsePipe(s, i) == Done(Pipe(c, r.cmd), r.pos)
  {
    hide ParseExec, Kind, End, StartsAt;
    FollowSymbol(s, e, '|', "| ", "|");
    LineSkip(s, e + 2);
  }

  lemma BackStep(s: string, e: nat, c: Cmd)
    requires StartsAt(s, e, "& ")
    ensures ParseBacks(s, e, c) == ParseBacks(s, e + 2, Back(c))
  {
    hide Kind, End, StartsAt;
    FollowSymbol(s, e, '&', "& ", "&");
    BacksAfterSkip(s, e + 2, Back(c));
  }

  /** parseline has parsed everything up to e as c: a pipe and some background marks. */
  predicate UpTo(s: string, i: nat, e: nat, c: Cmd) {
    i <= |s| && e <= |s| && ParsePipe(s, i).Done? &&
        ParseBacks(s, ParsePipe(s, i).pos, ParsePipe(s, i).cmd) == ParseBacks(s, e, c)
  }

  lemma LineEnd(s: string, i: nat, e: nat, c: Cmd)
    requires UpTo(s, i, e, c) && Follow(s, e, ")")
    ensures ParseLine(s, i) == Done(c, SkipWs(s, e))
  {
    hide ParsePipe;
    SkipAgain(s, e);
  }

  lemma BacksEnd(s: string, e: nat, c: Cmd)
    requires e < |s| && SkipWs(s, e) == e && s[e] == ';'
    ensures ParseBacks(s, e, c) == Done(c, e)
  {
    hide SkipWs;
  }

  lemma ListStep(s: string, i: nat, e: nat, c: Cmd)
    requires UpTo(s, i, e, c) && StartsAt(s, e, "; ") && ParseLine(s, e + 2).Done?
    ensures var r := ParseLine(s, e + 2); ParseLine(s, i) == Done(List(c, r.cmd), r.pos)
  {
    hide ParsePipe, ParseBacks, Kind, End, StartsAt, SkipWs, After;
    FollowSymbol(s, e, ';', "; ", ";");
    BacksEnd(s, e, c);
    LineSkip(s, e + 2);
  }

  lemma BlockUnfold(s: string, i: nat, c: Cmd, k: nat, k': nat, ds: seq<Redirection>, n: nat)
    requires i <= |s| && SkipWs(s, i) == i && Sees(s, i, "(") && ParseLine(s, After(s, i)) == Done(c, k) && k <= |s|
    requires SkipWs(s, k) == k' <= |s| && Sees(s, k', ")") && ParseRedirs(s, After(s, k'), []) == RDone(ds, n)
    ensures ParseExec(s, i) == Done(Wrap(c, ds), n)
  {
    hide ParseLine, ParseRedirs, ParseArgs, SkipWs, Sees, Wrap, After;
  }

  lemma BlockStep(s: string, i: nat, e: nat, c: Cmd, fs: seq<(string, RedirOp)>) returns (ds: seq<Redirection>)
    requires StartsAt(s, i, "( ") && StartsAt(s, e, ") ") && ParseLine(s, i + 2) == Done(c, SkipWs(s, e))
    requires WordFiles(fs) && StartsAt(s, e + 2, FilesText(fs)) && Follow(s, e + 2 + |FilesText(fs)|, "|)&;")
    ensures SameFiles(s, ds, fs) && ParseExec(s, i) == Done(Wrap(c, ds), SkipWs(s, e + 2 + |FilesText(fs)|))
  {
    hide ParseExec, ParseLine, ParseArgs, ParseRedirs, Kind, End, StartsAt, FilesText, SameFiles, WordFiles, Wrap,
         After, Follow, SkipWs;
    FollowSymbol(s, i, '(', "( ", "(");
    FollowSymbol(s, e, ')', ") ", ")");
    LineSkip(s, i + 2);
    ds := AllRedirs(s, e + 2, fs);
    RedirsSkip(s, e + 2, []);
    BlockUnfold(s, i, c, e, e, ds, SkipWs(s, e + 2 + |FilesText(fs)|));
  }

  // ---- The parser undoes the printer ----

  lemma {:induction false} ExecInverts(s: string, i: nat, t: Tree)
    requires WellFormed(t) && StartsAt(s, i, TextExec(t)) && Follow(s, i + |TextExec(t)|, "|)&;")
    ensures var r := ParseExec(s, i); r.Done? && Same(s, r.cmd, t) && r.pos == SkipWs(s, i + |TextExec(t)|)
    decreases t, 2
  {
    hide SkipWs, Follow, StartsAt, IsWord, FilesText, SameFiles, WordFiles, Wrap, ParseExec, ParseLine, Same,
         WellFormed, Words, Inner;
    if Core(t).TExec? {
      SimpleCommand(s, i, t);
    } else {
      CoreText(t);
      CoreSmaller(t);
      var u, fs := Core(t), Files(t);
      var text := Inner(u);
      var e := i + 2 + |text|;
      assert TextExec(t) == "( " + (text + (") " + FilesText(fs)));
      StartsSplit(s, i, "( ", text + (") " + FilesText(fs)));
      StartsSplit(s, i + 2, text, ") " + FilesText(fs));
      StartsSplit(s, e, ") ", FilesText(fs));
      FollowSymbol(s, e, ')', ") ", ")");
      InnerInverts(s, i + 2, u);
      var c := ParseLine(s, i + 2).cmd;
      var ds := BlockStep(s, i, e, c, fs);
      WrapSame(s, c, ds, t);
    }
  }

  lemma {:induction false} CoreSmaller(t: Tree)
    ensures Core(t) == t || Core(t) < t
    decreases t
  {
    if t.TRedir? { CoreSmaller(t.sub); }
  }

  /** A pipe, list or background command between parentheses. */
  lemma {:induction false} InnerInverts(s: string, i: nat, t: Tree)
    requires WellFormed(t) && !t.TExec? && !t.TRedir? && StartsAt(s, i, Inner(t)) && Follow(s, i + |Inner(t)|, ")")
    ensures var r := ParseLine(s, i); r.Done? && Same(s, r.cmd, t) && r.pos == SkipWs(s, i + |Inner(t)|)
    decreases t, 1
  {
    hide SkipWs, Follow, StartsAt, ParsePipe, ParseBacks, ParseLine, Same, Inner, UpTo;
    FollowMore(s, i + |Inner(t)|);
    var c;
    match t
    case TPipe(_, _) =>
      c := PipeInner(s, i, t);
      UpToPipe(s, i, i + |Inner(t)|, c);
      LineEnd(s, i, i + |Inner(t)|, c);
    case TBack(_) =>
      c := BackInner(s, i, t);
      LineEnd(s, i, i + |Inner(t)|, c);
    case TList(_, _) =>
      c := ListInner(s, i, t);
  }

  lemma FollowMore(s: string, i: nat)
    ensures Follow(s, i, ")") ==> Follow(s, i, ")&;") && Follow(s, i, "|)&;")
    ensures Follow(s, i, ")&;") ==> Follow(s, i, "|)&;")
  {
  }

  lemma UpToPipe(s: string, i: nat, e: nat, c: Cmd)
    requires i <= |s| && e <= |s| && ParsePipe(s, i) == Done(c, SkipWs(s, e))
    ensures UpTo(s, i, e, c)
  {
    hide ParsePipe, ParseBacks;
    BacksAfterSkip(s, e, c);
  }

  lemma {:induction false} PipeInner(s: string, i: nat, t: Tree) returns (c: Cmd)
    requires WellFormed(t) && t.TPipe? && StartsAt(s, i, Inner(t)) && Follow(s, i + |Inner(t)|, ")&;")
    ensures i + |Inner(t)| <= |s| && ParsePipe(s, i) == Done(c, SkipWs(s, i + |Inner(t)|)) && Same(s, c, t)
    decreases t, 0
  {
    hide SkipWs, Follow, StartsAt, ParsePipe, ParseExec, TextExec, TextPipe;
    var a, b := TextExec(t.left), TextPipe(t.right);
    var e := i + |a|;
    assert Inner(t) == a + ("| " + b);
    StartsSplit(s, i, a, "| " + b);
    StartsSplit(s, e, "| ", b);
    FollowSymbol(s, e, '|', "| ", "|)&;");
    ExecInverts(s, i, t.left);
    PipeInverts(s, e + 2, t.right);
    PipeStep(s, i, e, ParseExec(s, i).cmd);
    c := ParsePipe(s, i).cmd;
    Within(s, e + 2, b);
  }

  lemma Within(s: string, i: nat, text: string)
    requires StartsAt(s, i, text)
    ensures i + |text| <= |s|
  {
  }

  lemma {:induction false} PipeInverts(s: string, i: nat, t: Tree)
    requires WellFormed(t) && StartsAt(s, i, TextPipe(t)) && Follow(s, i + |TextPipe(t)|, ")&;")
    ensures i + |TextPipe(t)| <= |s|
    ensures var r := ParsePipe(s, i); r.Done? && Same(s, r.cmd, t) && r.pos == SkipWs(s, i + |TextPipe(t)|)
    decreases t, 3
  {
    hide SkipWs, Follow, StartsAt, ParsePipe, ParseExec, TextExec, Inner, Same;
    Within(s, i, TextPipe(t));
    if t.TPipe? {
      var c := PipeInner(s, i, t);
    } else {
      FollowMore(s, i + |TextPipe(t)|);
      ExecInverts(s, i, t);
      PipeEnd(s, i, i + |TextPipe(t)|, ParseExec(s, i).cmd);
    }
  }

  lemma {:induction false} BackInner(s: string, i: nat, t: Tree) returns (c: Cmd)
    requires WellFormed(t) && t.TBack? && StartsAt(s, i, Inner(t))
    ensures UpTo(s, i, i + |Inner(t)|, c) && Same(s, c, t)
    decreases t, 0
  {
    hide SkipWs, Follow, StartsAt, ParsePipe, ParseBacks, TextBack;
    var a := TextBack(t.sub);
    Within(s, i, Inner(t));
    StartsSplit(s, i, a, "& ");
    FollowSymbol(s, i + |a|, '&', "& ", ")&;");
    var d := BackInverts(s, i, t.sub);
    BackStep(s, i + |a|, d);
    c := Back(d);
  }

  lemma {:induction false} BackInverts(s: string, i: nat, t: Tree) returns (c: Cmd)
    requires WellFormed(t) && StartsAt(s, i, TextBack(t)) && Follow(s, i + |TextBack(t)|, ")&;")
    ensures UpTo(s, i, i + |TextBack(t)|, c) && Same(s, c, t)
    decreases t, 4
  {
    hide SkipWs, Follow, StartsAt, ParsePipe, ParseBacks, TextPipe, Inner, Same, UpTo;
    if t.TBack? {
      c := BackInner(s, i, t);
    } else {
      PipeInverts(s, i, t);
      c := ParsePipe(s, i).cmd;
      UpToPipe(s, i, i + |TextBack(t)|, c);
    }
  }

  lemma {:induction false} ListInner(s: string, i: nat, t: Tree) returns (c: Cmd)
    requires WellFormed(t) && t.TList? && StartsAt(s, i, Inner(t)) && Follow(s, i + |Inner(t)|, ")")
    ensures i + |Inner(t)| <= |s| && ParseLine(s, i) == Done(c, SkipWs(s, i + |Inner(t)|)) && Same(s, c, t)
    decreases t, 0
  {
    hide SkipWs, Follow, StartsAt, ParsePipe, ParseBacks, ParseLine, TextBack, TextLine, UpTo;
    var a, b := TextBack(t.left), TextLine(t.right);
    var e := i + |a|;
    assert Inner(t) == a + ("; " + b);
    StartsSplit(s, i, a, "; " + b);
    StartsSplit(s, e, "; ", b);
    FollowSymbol(s, e, ';', "; ", ")&;");
    var d := BackInverts(s, i, t.left);
    LineInverts(s, e + 2, t.right);
    ListStep(s, i, e, d);
    c := ParseLine(s, i).cmd;
    Within(s, e + 2, b);
  }

  lemma {:induction false} LineInverts(s: string, i: nat, t: Tree)
    requires WellFormed(t) && StartsAt(s, i, TextLine(t)) && Follow(s, i + |TextLine(t)|, ")")
    ensures i + |TextLine(t)| <= |s|
    ensures var r := ParseLine(s, i); r.Done? && Same(s, r.cmd, t) && r.pos == SkipWs(s, i + |TextLine(t)|)
    decreases t, 5
  {
    hide SkipWs, Follow, StartsAt, ParsePipe, ParseBacks, ParseLine, TextBack, Inner, Same, UpTo;
    Within(s, i, TextLine(t));
    if t.TList? {
      var c := ListInner(s, i, t);
    } else {
      FollowMore(s, i + |TextLine(t)|);
      var c := BackInverts(s, i, t);
      LineEnd(s, i, i + |TextLine(t)|, c);
    }
  }

  /** Every well-formed command tree is recovered from its printed form: the parser accepts the text, consumes all of
      it, and the tree it returns has the same shape with the same words at the recorded slices. */
  lemma ParserInvertsPrinter(t: Tree)
    requires WellFormed(t)
    ensures var s := TextLine(t); var r := ParseCmd(s); r.Done? && Same(s, r.cmd, t) && r.pos == |s|
  {
    hide ParseLine, Same, TextLine, SkipWs;
    var s := TextLine(t);
    assert s[0..|s|] == s;
    assert SkipWs(s, |s|) == |s| by { hide *; AtEnd(s); }
    LineInverts(s, 0, t);
    SkipAgain(s, |s|);
  }

  lemma AtEnd(s: string)
    ensures SkipWs(s, |s|) == |s|
  {
  }
}
