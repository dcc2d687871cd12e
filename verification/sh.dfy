/** The shell's tokens: whitespace, symbols and words of a command line. */
module ShellTokens {

  /** A command line: a C string, so no NUL inside it. */
  predicate CString(s: string) {
    forall i :: 0 <= i < |s| ==> s[i] != '\0'
  }

  predicate Ws(c: char) {
    c == ' ' || c == '\t' || c == '\r' || c == '\n' || c == '\U{0B}'
  }

  predicate Symbol(c: char) {
    c == '<' || c == '|' || c == '>' || c == '&' || c == ';' || c == '(' || c == ')'
  }

  predicate WordChar(c: char) {
    !Ws(c) && !Symbol(c)
  }

  /** The first position from i on that is not whitespace. */
  function SkipWs(s: string, i: nat): (j: nat)
    requires i <= |s|
    ensures i <= j <= |s| && (j < |s| ==> !Ws(s[j])) && forall k :: i <= k < j ==> Ws(s[k])
    decreases |s| - i
  {
    if i < |s| && Ws(s[i]) then SkipWs(s, i + 1) else i
  }

  /** The first position from i on that is not part of a word. */
  function WordEnd(s: string, i: nat): (j: nat)
    requires i <= |s|
    ensures i <= j <= |s| && (j < |s| ==> !WordChar(s[j])) && forall k :: i <= k < j ==> WordChar(s[k])
    decreases |s| - i
  {
    if i < |s| && WordChar(s[i]) then WordEnd(s, i + 1) else i
  }

  /** The kind of the token at i: NUL at the end, a symbol, '+' for >>, or 'a' for a word. */
  function Kind(s: string, i: nat): char
    requires i <= |s|
  {
    if i == |s| then '\0'
    else if s[i] == '>' then (if i + 1 < |s| && s[i + 1] == '>' then '+' else '>')
    else if Symbol(s[i]) then s[i]
    else 'a'
  }

  function End(s: string, i: nat): (j: nat)
    requires i <= |s|
    ensures i <= j <= |s| && (i < |s| && !Ws(s[i]) ==> i < j)
  {
    if i == |s| then i
    else if Kind(s, i) == '+' then i + 2
    else if Symbol(s[i]) then i + 1
    else WordEnd(s, i)
  }

  /** Advance past whitespace. */
  method PassWs(s: string, ps: nat) returns (p: nat)
    requires ps <= |s|
    ensures p == SkipWs(s, ps)
  {
    p := ps;
    while p < |s| && Ws(s[p])
      invariant ps <= p <= |s| && SkipWs(s, p) == SkipWs(s, ps)
    {
      p := p + 1;
    }
  }

  /** gettoken: returns the token's kind, its bounds and the position of the next token. */
  method GetToken(s: string, ps: nat) returns (ret: char, q: nat, eq: nat, next: nat)
    requires CString(s) && ps <= |s|
    ensures q == SkipWs(s, ps) && ret == Kind(s, q) && eq == End(s, q) && next == SkipWs(s, eq)
    ensures ret == 'a' ==> q < eq && forall k :: q <= k < eq ==> WordChar(s[k])
  {
    hide SkipWs;
    q := PassWs(s, ps);
    ret, eq := '\0', q;
    if q < |s| {
      ret := s[q];
      match ret
      case '|' => eq := q + 1;
      case '(' => eq := q + 1;
      case ')' => eq := q + 1;
      case ';' => eq := q + 1;
      case '&' => eq := q + 1;
      case '<' => eq := q + 1;
      case '>' =>
        eq := q + 1;
        if eq < |s| && s[eq] == '>' {
          ret := '+';
          eq := eq + 1;
        }
      case _ =>
        ret := 'a';
        while eq < |s| && !Ws(s[eq]) && !Symbol(s[eq])
          invariant q <= eq <= |s| && WordEnd(s, eq) == WordEnd(s, q)
        {
          eq := eq + 1;
        }
    }
    next := PassWs(s, eq);
  }

  /** peek: skips whitespace and tells whether one of toks comes next. */
  method Peek(s: string, ps: nat, toks: string) returns (r: bool, next: nat)
    requires CString(s) && ps <= |s|
    ensures next == SkipWs(s, ps) && r == (next < |s| && s[next] in toks)
  {
    next := PassWs(s, ps);
    r := next < |s| && s[next] in toks;
  }

  // ---- Text made of tokens that are each followed by a space ----

  const BLANKS := " \t\r\n\U{0B}"
  const SYMBOLS := "<|>&;()"

  /** A word on its own: no blank, no symbol, no NUL. */
  predicate IsWord(w: string) {
    |w| > 0 && forall k :: 0 <= k < |w| ==> w[k] !in BLANKS && w[k] !in SYMBOLS && w[k] != '\0'
  }

  predicate StartsAt(s: string, i: nat, text: string) {
    i + |text| <= |s| && s[i..i + |text|] == text
  }

  lemma StartsSplit(s: string, i: nat, a: string, b: string)
    ensures StartsAt(s, i, a + b) <==> StartsAt(s, i, a) && StartsAt(s, i + |a|, b)
  {
    if StartsAt(s, i, a + b) {
      assert s[i..i + |a|] == (a + b)[..|a|];
      assert s[i + |a|..i + |a| + |b|] == (a + b)[|a|..];
    }
    if StartsAt(s, i, a) && StartsAt(s, i + |a|, b) {
      assert s[i..i + |a + b|] == s[i..i + |a|] + s[i + |a|..i + |a| + |b|];
    }
  }

  lemma SkipSpace(s: string, i: nat)
    requires i < |s| && Ws(s[i])
    ensures SkipWs(s, i) == SkipWs(s, i + 1)
  {
  }

  lemma {:induction false} EndOfWord(s: string, i: nat, w: string)
    requires forall k :: 0 <= k < |w| ==> WordChar(w[k])
    requires StartsAt(s, i, w + " ")
    ensures WordEnd(s, i) == i + |w|
    decreases |w|
  {
    assert s[i + |w|] == (w + " ")[|w|] == ' ';
    if w != "" {
      assert s[i] == (w + " ")[0] == w[0];
      assert w[1..] + " " == (w + " ")[1..];
      assert s[i + 1..i + 1 + |w[1..] + " "|] == s[i..i + |w + " "|][1..];
      EndOfWord(s, i + 1, w[1..]);
    }
  }

  /** A word followed by a space is one token. */
  lemma WordToken(s: string, i: nat, w: string)
    requires IsWord(w) && StartsAt(s, i, w + " ")
    ensures SkipWs(s, i) == i < |s| && WordChar(s[i]) && Kind(s, i) == 'a' && End(s, i) == i + |w| && s[i..i + |w|] == w
    ensures SkipWs(s, i + |w|) == SkipWs(s, i + |w| + 1)
  {
    EndOfWord(s, i, w);
    StartsSplit(s, i, w, " ");
    assert s[i] == w[0];
    assert s[i + |w|] == (w + " ")[|w|];
    SkipSpace(s, i + |w|);
  }

  /** A symbol followed by a space is one token. */
  lemma SymbolToken(s: string, i: nat, c: char)
    requires Symbol(c) && StartsAt(s, i, [c] + " ")
    ensures SkipWs(s, i) == i < |s| && s[i] == c && Kind(s, i) == c && End(s, i) == i + 1
    ensures SkipWs(s, i + 1) == SkipWs(s, i + 2)
  {
    assert s[i] == ([c] + " ")[0] && s[i + 1] == ([c] + " ")[1];
    SkipSpace(s, i + 1);
  }
}

/** The recursive-descent parser. A command tree records words as slices of the line. */
module ShellParser {
  import opened ShellTokens

  const MAXARGS := 10
  const O_RDONLY := 0
  const O_WRONLY := 1
  const O_CREATE := 0x200

  datatype Span = Span(q: nat, eq: nat)

  datatype Redirection = Redirection(file: Span, mode: nat, fd: nat)

  datatype Cmd =
    | Exec(argv: seq<Span>)
    | Redir(cmd: Cmd, to: Redirection)
    | Pipe(left: Cmd, right: Cmd)
    | List(left: Cmd, right: Cmd)
    | Back(cmd: Cmd)

  /** What a parsing function leaves: a panic, or a command and the position after it. */
  datatype Parsed = Panic | Done(cmd: Cmd, pos: nat)

  datatype Redirs = RPanic | RDone(list: seq<Redirection>, pos: nat)

  predicate Sees(s: string, i: nat, toks: string)
    requires i <= |s|
  {
    i < |s| && s[i] in toks
  }

  /** The position after the token at i, where gettoken leaves the cursor. */
  function After(s: string, i: nat): (j: nat)
    requires i <= |s|
    ensures i <= j <= |s| && (i < |s| && !Ws(s[i]) ==> i < j)
  {
    SkipWs(s, End(s, i))
  }

  function Wrap(c: Cmd, rs: seq<Redirection>): Cmd
    decreases |rs|
  {
    if rs == [] then c else Redir(Wrap(c, rs[..|rs| - 1]), rs[|rs| - 1])
  }

  /** parseredirs: the redirections from i on, in order. */
  function ParseRedirs(s: string, i: nat, acc: seq<Redirection>): (r: Redirs)
    requires i <= |s|
    ensures r.RDone? ==> i <= r.pos <= |s|
    decreases |s| - i
  {
    var j := SkipWs(s, i);
    if !Sees(s, j, "<>") then RDone(acc, j)
    else
      var tok, f := Kind(s, j), After(s, j);
      if Kind(s, f) != 'a' then RPanic                       // "missing file for redirection"
      else
        var file := Span(f, End(s, f));
        ParseRedirs(s, After(s, f),
            acc + [if tok == '<' then Redirection(file, O_RDONLY, 0) else Redirection(file, O_WRONLY + O_CREATE, 1)])
  }

  /** The argument loop of parseexec, with the arguments and redirections found so far. */
  function ParseArgs(s: string, i: nat, argv: seq<Span>, rs: seq<Redirection>): (r: Parsed)
    requires i <= |s|
    ensures r.Done? ==> i <= r.pos <= |s|
    decreases |s| - i
  {
    var j := SkipWs(s, i);
    if Sees(s, j, "|)&;") || Kind(s, j) == '\0' then Done(Wrap(Exec(argv), rs), j)
    else if Kind(s, j) != 'a' then Panic                     // "syntax"
    else if |argv| + 1 >= MAXARGS then Panic                 // "too many args"
    else
      match ParseRedirs(s, After(s, j), rs)
      case RPanic => Panic
      case RDone(rs', k) => ParseArgs(s, k, argv + [Span(j, End(s, j))], rs')
  }

  function ParseExec(s: string, i: nat): (r: Parsed)
    requires i <= |s|
    ensures r.Done? ==> i <= r.pos <= |s|
    decreases |s| - i, 0
  {
    var j := SkipWs(s, i);
    if Sees(s, j, "(") then
      match ParseLine(s, After(s, j))
      case Panic => Panic
      case Done(c, k) =>
        var k' := SkipWs(s, k);
        if !Sees(s, k', ")") then Panic                      // "syntax - missing )"
        else
          match ParseRedirs(s, After(s, k'), [])
          case RPanic => Panic
          case RDone(rs, n) => Done(Wrap(c, rs), n)
    else
      match ParseRedirs(s, j, [])
      case RPanic => Panic
      case RDone(rs, k) => ParseArgs(s, k, [], rs)
  }

  function ParsePipe(s: string, i: nat): (r: Parsed)
    requires i <= |s|
    ensures r.Done? ==> i <= r.pos <= |s|
    decreases |s| - i, 1
  {
    match ParseExec(s, i)
    case Panic => Panic
    case Done(c, j) =>
      var k := SkipWs(s, j);
      if !Sees(s, k, "|") then Done(c, k)
      else
        match ParsePipe(s, After(s, k))
        case Panic => Panic
        case Done(d, n) => Done(Pipe(c, d), n)
  }

  /** The loop over & in parseline. */
  function ParseBacks(s: string, i: nat, c: Cmd): (r: Parsed)
    requires i <= |s|
    ensures r.Done? && i <= r.pos <= |s|
    decreases |s| - i
  {
    var j := SkipWs(s, i);
    if Sees(s, j, "&") then ParseBacks(s, After(s, j), Back(c)) else Done(c, j)
  }

  function ParseLine(s: string, i: nat): (r: Parsed)
    requires i <= |s|
    ensures r.Done? ==> i <= r.pos <= |s|
    decreases |s| - i, 2
  {
    match ParsePipe(s, i)
    case Panic => Panic
    case Done(c, j) =>
      var b := ParseBacks(s, j, c);
      var k := SkipWs(s, b.pos);
      if !Sees(s, k, ";") then Done(b.cmd, k)
      else
        match ParseLine(s, After(s, k))
        case Panic => Panic
        case Done(d, n) => Done(List(b.cmd, d), n)
  }

  /** parsecmd, before nulterminate: leftovers are a syntax error. */
  function ParseCmd(s: string): Parsed {
    match ParseLine(s, 0)
    case Panic => Panic
    case Done(c, i) => if SkipWs(s, i) != |s| then Panic else Done(c, |s|)
  }

  /** The parser as the shell runs it: a cursor `ps` that peek and gettoken move along the line. */
  class Cursor {
    const s: string
    var ps: nat

    constructor (line: string)
      ensures s == line && ps == 0
    {
      s, ps := line, 0;
    }

    /** Skip whitespace and tell whether one of toks comes next. */
    method LookAt(toks: string) returns (r: bool)
      requires CString(s) && ps <= |s|
      modifies this
      ensures ps == SkipWs(s, old(ps)) && r == Sees(s, ps, toks)
    {
      var next;
      r, next := Peek(s, ps, toks);
      ps := next;
    }

    /** Take a token, leaving the cursor at the next one. */
    method Token() returns (tok: char, w: Span)
      requires CString(s) && ps <= |s|
      modifies this
      ensures var q := SkipWs(s, old(ps)); tok == Kind(s, q) && w == Span(q, End(s, q)) && ps == After(s, q)
    {
      var q, eq, next;
      tok, q, eq, next := GetToken(s, ps);
      w := Span(q, eq);
      ps := next;
    }

    method Redirections(acc: seq<Redirection>) returns (r: Redirs)
      requires CString(s) && ps <= |s|
      modifies this
      ensures r == ParseRedirs(s, old(ps), acc) && (r.RDone? ==> ps == r.pos)
    {
      hide SkipWs, Kind, End;
      var rs := acc;
      var more := LookAt("<>");
      SkipAgain(s, old(ps));
      while more
        invariant ps <= |s| && ps == SkipWs(s, ps) && more == Sees(s, ps, "<>")
        invariant ParseRedirs(s, ps, rs) == ParseRedirs(s, old(ps), acc)
        decreases |s| - ps
      {
        ghost var j := ps;
        var tok, w := Token();
        SkipAgain(s, End(s, j));
        var tok', file := Token();
        if tok' != 'a' {
          return RPanic;
        }
        rs := rs + [if tok == '<' then Redirection(file, O_RDONLY, 0) else Redirection(file, O_WRONLY + O_CREATE, 1)];
        SkipAgain(s, End(s, file.q));
        more := LookAt("<>");
      }
      return RDone(rs, ps);
    }

    /** parseexec without a parenthesis. */
    method SimpleCommand() returns (r: Parsed)
      requires CString(s) && ps <= |s| && !Sees(s, SkipWs(s, ps), "(")
      modifies this
      ensures r == ParseExec(s, old(ps)) && (r.Done? ==> ps == r.pos <= |s|)
    {
      hide SkipWs, Kind, End, Wrap, ParseRedirs, ParseLine;
      var argv: seq<Span> := [];
      ExecRedirs(s, ps);
      var rs := Redirections([]);
      if rs.RPanic? {
        return Panic;
      }
      SkipAgain(s, ps);
      var stop := LookAt("|)&;");
      while !stop
        invariant ps <= |s| && ps == SkipWs(s, ps) && stop == Sees(s, ps, "|)&;") && rs.RDone?
        invariant ParseArgs(s, ps, argv, rs.list) == ParseExec(s, old(ps))
        decreases |s| - ps
      {
        ghost var j := ps;
        var tok, w := Token();
        if tok == '\0' {
          AtNul(s, j);
          return Done(Wrap(Exec(argv), rs.list), ps);
        }
        if tok != 'a' || |argv| + 1 >= MAXARGS {
          return Panic;
        }
        Progress(s, j);
        argv := argv + [w];
        RedirsForward(s, ps, rs.list);
        rs := Redirections(rs.list);
        if rs.RPanic? {
          return Panic;
        }
        SkipAgain(s, ps);
        stop := LookAt("|)&;");
        ArgsAfterSkip(s, rs.pos, argv, rs.list);
      }
      return Done(Wrap(Exec(argv), rs.list), ps);
    }

    /** parseexec and parseblock. */
    method ExecCommand() returns (r: Parsed)
      requires CString(s) && ps <= |s|
      modifies this
      ensures r == ParseExec(s, old(ps)) && (r.Done? ==> ps == r.pos <= |s|)
      decreases |s| - ps, 0
    {
      hide Kind, End, Wrap, ParseRedirs, ParseLine, ParseArgs, SkipWs;
      SkipAgain(s, ps);
      ghost var i := ps;
      var block := LookAt("(");
      ExecAfterSkip(s, i);
      if !block {
        r := SimpleCommand();
        return;
      }
      SymbolForward(s, ps, "(");
      var _, _ := Token();
      var c := LineCommand();
      if c.Panic? {
        return Panic;
      }
      SkipAgain(s, ps);
      var close := LookAt(")");
      if !close {
        return Panic;
      }
      SymbolForward(s, ps, ")");
      var _, _ := Token();
      RedirsForward(s, ps, []);
      var rs := Redirections([]);
      if rs.RPanic? {
        return Panic;
      }
      return Done(Wrap(c.cmd, rs.list), ps);
    }

    method PipeCommand() returns (r: Parsed)
      requires CString(s) && ps <= |s|
      modifies this
      ensures r == ParsePipe(s, old(ps)) && (r.Done? ==> ps == r.pos <= |s|)
      decreases |s| - ps, 1
    {
      hide Kind, End, ParseExec, SkipWs;
      ExecForward(s, ps);
      r := ExecCommand();
      if r.Panic? {
        return;
      }
      SkipAgain(s, ps);
      var c := r.cmd;
      var more := LookAt("|");
      if !more {
        return Done(c, ps);
      }
      SymbolForward(s, ps, "|");
      var _, _ := Token();
      r := PipeCommand();
      if r.Done? {
        r := Done(Pipe(c, r.cmd), r.pos);
      }
    }

    method LineCommand() returns (r: Parsed)
      requires CString(s) && ps <= |s|
      modifies this
      ensures r == ParseLine(s, old(ps)) && (r.Done? ==> ps == r.pos <= |s|)
      decreases |s| - ps, 2
    {
      hide Kind, End, ParsePipe, SkipWs;
      PipeForward(s, ps);
      r := PipeCommand();
      if r.Panic? {
        return;
      }
      var c := r.cmd;
      SkipAgain(s, ps);
      var more := LookAt("&");
      BacksAfterSkip(s, r.pos, c);
      while more
        invariant old(ps) <= ps <= |s| && ps == SkipWs(s, ps) && more == Sees(s, ps, "&")
        invariant ParseBacks(s, ps, c) == ParseBacks(s, r.pos, r.cmd)
        decreases |s| - ps
      {
        SymbolForward(s, ps, "&");
        SkipAgain(s, End(s, ps));
        var _, _ := Token();
        c := Back(c);
        more := LookAt("&");
      }
      more := LookAt(";");
      if !more {
        return Done(c, ps);
      }
      SymbolForward(s, ps, ";");
      var _, _ := Token();
      r := LineCommand();
      if r.Done? {
        r := Done(List(c, r.cmd), r.pos);
      }
    }

    /** parsecmd up to nulterminate. */
    method Command() returns (r: Parsed)
      requires CString(s) && ps == 0
      modifies this
      ensures r == ParseCmd(s)
    {
      r := LineCommand();
      if r.Done? {
        var _ := LookAt("");
        r := if ps != |s| then Panic else Done(r.cmd, ps);
      }
    }
  }

  lemma ExecAfterSkip(s: string, i: nat)
    requires i <= |s|
    ensures ParseExec(s, SkipWs(s, i)) == ParseExec(s, i)
  {
    hide ParseRedirs, ParseArgs, ParseLine, Wrap;
    SkipAgain(s, i);
  }

  lemma BacksAfterSkip(s: string, i: nat, c: Cmd)
    requires i <= |s|
    ensures ParseBacks(s, SkipWs(s, i), c) == ParseBacks(s, i, c)
  {
    SkipAgain(s, i);
  }

  lemma SymbolForward(s: string, i: nat, toks: string)
    requires i <= |s| && Sees(s, i, toks) && SkipWs(s, i) == i
    ensures i < After(s, i) <= |s|
  {
  }

  lemma ExecForward(s: string, i: nat)
    requires i <= |s|
    ensures var r := ParseExec(s, i); r.Done? ==> i <= r.pos <= |s|
  {
  }

  lemma PipeForward(s: string, i: nat)
    requires i <= |s|
    ensures var r := ParsePipe(s, i); r.Done? ==> i <= r.pos <= |s|
  {
  }

  lemma ExecRedirs(s: string, i: nat)
    requires i <= |s| && !Sees(s, SkipWs(s, i), "(")
    ensures ParseExec(s, i) ==
            match ParseRedirs(s, i, []) case RPanic => Panic case RDone(rs, k) => ParseArgs(s, SkipWs(s, k), [], rs)
    ensures var r := ParseRedirs(s, i, []); r.RDone? ==> r.pos <= |s|
  {
    hide ParseArgs;
    SkipAgain(s, i);
    assert ParseRedirs(s, SkipWs(s, i), []) == ParseRedirs(s, i, []);
    var r := ParseRedirs(s, i, []);
    if r.RDone? { ArgsAfterSkip(s, r.pos, [], r.list); }
  }

  lemma ArgsAfterSkip(s: string, i: nat, argv: seq<Span>, rs: seq<Redirection>)
    requires i <= |s|
    ensures ParseArgs(s, SkipWs(s, i), argv, rs) == ParseArgs(s, i, argv, rs)
  {
    hide Wrap;
    SkipAgain(s, i);
  }

  lemma AtNul(s: string, i: nat)
    requires CString(s) && i <= |s| && Kind(s, i) == '\0'
    ensures i == |s| && After(s, i) == i
  {
  }

  lemma Progress(s: string, i: nat)
    requires i <= |s| && Kind(s, i) == 'a' && SkipWs(s, i) == i
    ensures i < After(s, i) <= |s|
  {
  }

  lemma RedirsForward(s: string, i: nat, rs: seq<Redirection>)
    requires i <= |s|
    ensures var r := ParseRedirs(s, i, rs); r.RDone? ==> i <= r.pos <= |s|
  {
  }

  lemma SkipAgain(s: string, i: nat)
    requires i <= |s|
    ensures i <= SkipWs(s, i) <= |s| && SkipWs(s, SkipWs(s, i)) == SkipWs(s, i)
  {
  }

  // ---- Every recorded slice is a whole word ----

  predicate WordSpan(s: string, w: Span) {
    && w.q < w.eq <= |s| && (forall k :: w.q <= k < w.eq ==> WordChar(s[k]))
    && (w.eq < |s| ==> !WordChar(s[w.eq]))
  }

  predicate AllWords(s: string, c: Cmd) {
    match c
    case Exec(argv) => |argv| < MAXARGS && forall k :: 0 <= k < |argv| ==> WordSpan(s, argv[k])
    case Redir(d, to) => AllWords(s, d) && WordSpan(s, to.file)
    case Pipe(l, r) => AllWords(s, l) && AllWords(s, r)
    case List(l, r) => AllWords(s, l) && AllWords(s, r)
    case Back(d) => AllWords(s, d)
  }

  predicate AllFiles(s: string, rs: seq<Redirection>) {
    forall k :: 0 <= k < |rs| ==> WordSpan(s, rs[k].file)
  }

  lemma WordHere(s: string, i: nat)
    requires i <= |s| && Kind(s, i) == 'a' && (i < |s| ==> !Ws(s[i]))
    ensures WordSpan(s, Span(i, End(s, i)))
  {
  }

  lemma {:induction false} RedirWords(s: string, i: nat, acc: seq<Redirection>)
    requires i <= |s| && AllFiles(s, acc)
    ensures var r := ParseRedirs(s, i, acc); r.RDone? ==> AllFiles(s, r.list)
    decreases |s| - i
  {
    var j := SkipWs(s, i);
    if Sees(s, j, "<>") {
      var f := After(s, j);
      if Kind(s, f) == 'a' {
        WordHere(s, f);
        var file := Span(f, End(s, f));
        RedirWords(s, After(s, f),
            acc + [if Kind(s, j) == '<'
            then Redirection(file, O_RDONLY, 0) else Redirection(file, O_WRONLY + O_CREATE, 1)]);
      }
    }
  }

  lemma {:induction false} WrapWords(s: string, c: Cmd, rs: seq<Redirection>)
    requires AllWords(s, c) && AllFiles(s, rs)
    ensures AllWords(s, Wrap(c, rs))
    decreases |rs|
  {
    if rs != [] { WrapWords(s, c, rs[..|rs| - 1]); }
  }

  lemma {:induction false} ArgWords(s: string, i: nat, argv: seq<Span>, rs: seq<Redirection>)
    requires i <= |s| && AllWords(s, Exec(argv)) && AllFiles(s, rs)
    ensures var r := ParseArgs(s, i, argv, rs); r.Done? ==> AllWords(s, r.cmd)
    decreases |s| - i
  {
    var j := SkipWs(s, i);
    if Sees(s, j, "|)&;") || Kind(s, j) == '\0' {
      WrapWords(s, Exec(argv), rs);
    } else if Kind(s, j) == 'a' && |argv| + 1 < MAXARGS {
      WordHere(s, j);
      RedirWords(s, After(s, j), rs);
      var r := ParseRedirs(s, After(s, j), rs);
      if r.RDone? { ArgWords(s, r.pos, argv + [Span(j, End(s, j))], r.list); }
    }
  }

  lemma {:induction false} ExecWords(s: string, i: nat)
    requires i <= |s|
    ensures var r := ParseExec(s, i); r.Done? ==> AllWords(s, r.cmd)
    decreases |s| - i, 0
  {
    var j := SkipWs(s, i);
    if Sees(s, j, "(") {
      LineWords(s, After(s, j));
      var r := ParseLine(s, After(s, j));
      if r.Done? {
        var k := SkipWs(s, r.pos);
        if Sees(s, k, ")") {
          RedirWords(s, After(s, k), []);
          var rs := ParseRedirs(s, After(s, k), []);
          if rs.RDone? { WrapWords(s, r.cmd, rs.list); }
        }
      }
    } else {
      RedirWords(s, j, []);
      var rs := ParseRedirs(s, j, []);
      if rs.RDone? { ArgWords(s, rs.pos, [], rs.list); }
    }
  }

  lemma {:induction false} PipeWords(s: string, i: nat)
    requires i <= |s|
    ensures var r := ParsePipe(s, i); r.Done? ==> AllWords(s, r.cmd)
    decreases |s| - i, 1
  {
    ExecWords(s, i);
    var r := ParseExec(s, i);
    if r.Done? {
      var k := SkipWs(s, r.pos);
      if Sees(s, k, "|") { PipeWords(s, After(s, k)); }
    }
  }

  lemma {:induction false} BackWords(s: string, i: nat, c: Cmd)
    requires i <= |s| && AllWords(s, c)
    ensures AllWords(s, ParseBacks(s, i, c).cmd)
    decreases |s| - i
  {
    var j := SkipWs(s, i);
    if Sees(s, j, "&") { BackWords(s, After(s, j), Back(c)); }
  }

  /** Whatever the line, if it parses, every argument and file name recorded is a whole word of it. */
  lemma {:induction false} LineWords(s: string, i: nat)
    requires i <= |s|
    ensures var r := ParseLine(s, i); r.Done? ==> AllWords(s, r.cmd)
    decreases |s| - i, 2
  {
    PipeWords(s, i);
    var r := ParsePipe(s, i);
    if r.Done? {
      BackWords(s, r.pos, r.cmd);
      var b := ParseBacks(s, r.pos, r.cmd);
      var k := SkipWs(s, b.pos);
      if Sees(s, k, ";") { LineWords(s, After(s, k)); }
    }
  }
}

/** nulterminate: write a NUL after every recorded slice, in the line buffer itself. */
module ShellTerminate {
  import opened ShellTokens
  import opened ShellParser

  /** The slices recorded in a command. */
  function Recorded(c: Cmd): set<Span> {
    match c
    case Exec(argv) => set k | 0 <= k < |argv| :: argv[k]
    case Redir(d, to) => Recorded(d) + {to.file}
    case Pipe(l, r) => Recorded(l) + Recorded(r)
    case List(l, r) => Recorded(l) + Recorded(r)
    case Back(d) => Recorded(d)
  }

  lemma {:induction false} RecordedWords(s: string, c: Cmd, w: Span)
    requires AllWords(s, c) && w in Recorded(c)
    ensures WordSpan(s, w)
    decreases c
  {
    match c
    case Exec(_) =>
    case Redir(d, to) => if w in Recorded(d) { RecordedWords(s, d, w); }
    case Pipe(l, r) => if w in Recorded(l) { RecordedWords(s, l, w); } else { RecordedWords(s, r, w); }
    case List(l, r) => if w in Recorded(l) { RecordedWords(s, l, w); } else { RecordedWords(s, r, w); }
    case Back(d) => RecordedWords(s, d, w);
  }

  predicate IsEnd(ws: set<Span>, k: nat) {
    exists w :: w in ws && w.eq == k
  }

  /** The buffer with a NUL at the end of each slice. */
  ghost predicate Terminated(before: seq<char>, after: seq<char>, ws: set<Span>) {
    |after| == |before| && forall k :: 0 <= k < |before| ==> after[k] == if IsEnd(ws, k) then '\0' else before[k]
  }

  lemma TerminatedTwice(a: seq<char>, b: seq<char>, c: seq<char>, ws: set<Span>, vs: set<Span>)
    requires Terminated(a, b, ws) && Terminated(b, c, vs)
    ensures Terminated(a, c, ws + vs)
  {
    forall k | 0 <= k < |a| ensures c[k] == if IsEnd(ws + vs, k) then '\0' else a[k] {
      if IsEnd(ws + vs, k) {
        var w :| w in ws + vs && w.eq == k;
        assert w in ws || w in vs;
      } else {
        assert forall w :: w in ws || w in vs ==> w in ws + vs;
      }
    }
  }

  /** nulterminate on the line buffer, which holds the line and its NUL. */
  method NulTerminate(buf: array<char>, c: Cmd, ghost s: string)
    requires buf.Length == |s| + 1 && AllWords(s, c)
    modifies buf
    ensures Terminated(old(buf[..]), buf[..], Recorded(c))
    decreases c
  {
    hide Terminated;
    match c
    case Exec(argv) =>
      var i := 0;
      NoneTerminated(buf[..]);
      assert Firsts(argv, 0) == {};
      while i < |argv|
        invariant i <= |argv| && Terminated(old(buf[..]), buf[..], Firsts(argv, i))
      {
        assert WordSpan(s, argv[i]);
        ghost var before := buf[..];
        buf[argv[i].eq] := '\0';
        OneTerminated(before, buf[..], argv[i]);
        TerminatedTwice(old(buf[..]), before, buf[..], Firsts(argv, i), {argv[i]});
        assert Firsts(argv, i + 1) == Firsts(argv, i) + {argv[i]};
        i := i + 1;
      }
      assert Firsts(argv, |argv|) == Recorded(c);
    case Redir(d, to) =>
      NulTerminate(buf, d, s);
      ghost var before := buf[..];
      buf[to.file.eq] := '\0';
      OneTerminated(before, buf[..], to.file);
      TerminatedTwice(old(buf[..]), before, buf[..], Recorded(d), {to.file});
    case Pipe(l, r) =>
      NulTerminate(buf, l, s);
      ghost var before := buf[..];
      NulTerminate(buf, r, s);
      TerminatedTwice(old(buf[..]), before, buf[..], Recorded(l), Recorded(r));
    case List(l, r) =>
      NulTerminate(buf, l, s);
      ghost var before := buf[..];
      NulTerminate(buf, r, s);
      TerminatedTwice(old(buf[..]), before, buf[..], Recorded(l), Recorded(r));
    case Back(d) =>
      NulTerminate(buf, d, s);
  }

  ghost function Firsts(argv: seq<Span>, n: nat): set<Span>
    requires n <= |argv|
  {
    set k | 0 <= k < n :: argv[k]
  }

  lemma NoneTerminated(a: seq<char>)
    ensures Terminated(a, a, {})
  {
  }

  lemma OneTerminated(a: seq<char>, b: seq<char>, w: Span)
    requires w.eq < |a| && b == a[w.eq := '\0']
    ensures Terminated(a, b, {w})
  {
    assert IsEnd({w}, w.eq);
  }

  /** The C string that starts at position q of a buffer. */
  function StringAt(t: seq<char>, q: nat): string
    requires q <= |t|
    decreases |t| - q
  {
    if q == |t| || t[q] == '\0' then "" else [t[q]] + StringAt(t, q + 1)
  }

  lemma {:induction false} StringIs(t: seq<char>, q: nat, eq: nat)
    requires q <= eq < |t| && t[eq] == '\0' && forall k :: q <= k < eq ==> t[k] != '\0'
    ensures StringAt(t, q) == t[q..eq]
    decreases eq - q
  {
    if q < eq {
      StringIs(t, q + 1, eq);
      assert t[q..eq] == [t[q]] + t[q + 1..eq];
    }
  }

  lemma LineWordsDone(s: string, c: Cmd)
    requires ParseCmd(s) == Done(c, |s|)
    ensures AllWords(s, c)
  {
    LineWords(s, 0);
  }

  /** After parsing any line and terminating it in place, every recorded argument and file name reads, as a C string,
      exactly as the token it was: no terminator falls inside another word. */
  lemma TokensReadBack(s: string, c: Cmd, t: seq<char>, w: Span)
    requires CString(s) && ParseCmd(s) == Done(c, |s|) && w in Recorded(c)
    requires Terminated(s + ['\0'], t, Recorded(c))
    ensures w.q < w.eq <= |s| && StringAt(t, w.q) == s[w.q..w.eq]
  {
    hide ParseCmd, Recorded, StringAt, AllWords;
    LineWordsDone(s, c);
    RecordedWords(s, c, w);
    assert IsEnd(Recorded(c), w.eq);
    forall k | w.q <= k < w.eq ensures t[k] == s[k] {
      forall v | v in Recorded(c) ensures v.eq != k {
        RecordedWords(s, c, v);
      }
    }
    StringIs(t, w.q, w.eq);
    assert t[w.q..w.eq] == s[w.q..w.eq];
  }
}
