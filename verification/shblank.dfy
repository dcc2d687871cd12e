/** Which blanks a command line uses does not matter. */
module ShellBlanks {
  import opened ShellTokens
  import opened ShellParser
  import opened ShellPrint

  /** Two lines that differ only in the kind of their blanks. */
  predicate SameButBlanks(s: string, t: string) {
    |s| == |t| && forall i :: 0 <= i < |s| ==> s[i] == t[i] || (s[i] in BLANKS && t[i] in BLANKS)
  }

  lemma CharsSame(s: string, t: string)
    requires SameButBlanks(s, t)
    ensures forall i :: 0 <= i < |s| ==> Ws(s[i]) == Ws(t[i]) && Symbol(s[i]) == Symbol(t[i])
    ensures forall i :: 0 <= i < |s| ==> s[i] == t[i] || (Ws(s[i]) && Ws(t[i]))
  {
  }

  lemma {:induction false} SkipSame(s: string, t: string, i: nat)
    requires SameButBlanks(s, t) && i <= |s|
    ensures SkipWs(s, i) == SkipWs(t, i)
    decreases |s| - i
  {
    hide SameButBlanks, Ws;
    CharsSame(s, t);
    Lengths(s, t);
    if i < |s| && Ws(s[i]) { SkipSame(s, t, i + 1); }
  }

  lemma Lengths(s: string, t: string)
    requires SameButBlanks(s, t)
    ensures |s| == |t|
  {
  }

  lemma {:induction false} WordSame(s: string, t: string, i: nat)
    requires SameButBlanks(s, t) && i <= |s|
    ensures WordEnd(s, i) == WordEnd(t, i)
    decreases |s| - i
  {
    hide SameButBlanks, Ws, Symbol;
    CharsSame(s, t);
    Lengths(s, t);
    if i < |s| && WordChar(s[i]) { WordSame(s, t, i + 1); }
  }

  lemma TokenSame(s: string, t: string, i: nat)
    requires SameButBlanks(s, t) && i <= |s|
    ensures Kind(s, i) == Kind(t, i) && End(s, i) == End(t, i)
    ensures i < |s| ==> (s[i] == t[i] || (Ws(s[i]) && Ws(t[i])))
  {
    hide WordEnd;
    CharsSame(s, t);
    WordSame(s, t, i);
  }

  lemma AfterSame(s: string, t: string, i: nat)
    requires SameButBlanks(s, t) && i <= |s|
    ensures After(s, i) == After(t, i)
  {
    hide SameButBlanks, SkipWs, Kind, End;
    Lengths(s, t);
    TokenSame(s, t, i);
    SkipSame(s, t, End(s, i));
  }

  /** After the blanks both lines show the same character. */
  lemma SeesSame(s: string, t: string, i: nat, toks: string)
    requires SameButBlanks(s, t) && i <= |s|
    ensures SkipWs(s, i) == SkipWs(t, i) <= |s| == |t| && Kind(s, SkipWs(s, i)) == Kind(t, SkipWs(s, i))
    ensures Sees(s, SkipWs(s, i), toks) == Sees(t, SkipWs(s, i), toks)
  {
    hide SameButBlanks, Kind, End;
    Lengths(s, t);
    SkipSame(s, t, i);
    TokenSame(s, t, SkipWs(s, i));
  }

  lemma {:induction false} RedirsSame(s: string, t: string, i: nat, acc: seq<Redirection>)
    requires SameButBlanks(s, t) && i <= |s|
    ensures i <= |t| && ParseRedirs(s, i, acc) == ParseRedirs(t, i, acc)
    decreases |s| - i
  {
    hide SameButBlanks, Kind, End, SkipWs, After, Sees;
    SeesSame(s, t, i, "<>");
    var j := SkipWs(s, i);
    if Sees(s, j, "<>") {
      SignInside(s, i);
      var tok, f := Kind(s, j), After(s, j);
      AfterSame(s, t, j);
      TokenSame(s, t, f);
      AfterSame(s, t, f);
      if Kind(s, f) == 'a' {
        var file := Span(f, End(s, f));
        var d := if tok == '<' then Redirection(file, O_RDONLY, 0) else Redirection(file, O_WRONLY + O_CREATE, 1);
        Onward(s, f);
        RedirsSame(s, t, After(s, f), acc + [d]);
      }
    }
  }

  lemma SignInside(s: string, i: nat)
    requires i <= |s|
    ensures i <= SkipWs(s, i) <= |s|
    ensures SkipWs(s, i) < |s| ==> SkipWs(s, i) < After(s, SkipWs(s, i)) <= |s|
    ensures forall toks :: Sees(s, SkipWs(s, i), toks) ==> SkipWs(s, i) < |s|
    ensures Kind(s, SkipWs(s, i)) != '\0' ==> SkipWs(s, i) < |s|
  {
  }

  lemma Onward(s: string, i: nat)
    requires i <= |s|
    ensures i <= After(s, i) <= |s|
  {
  }

  lemma {:induction false} ArgsSame(s: string, t: string, i: nat, argv: seq<Span>, rs: seq<Redirection>)
    requires SameButBlanks(s, t) && i <= |s|
    ensures i <= |t| && ParseArgs(s, i, argv, rs) == ParseArgs(t, i, argv, rs)
    decreases |s| - i
  {
    hide SameButBlanks, Kind, End, SkipWs, After, Sees, ParseRedirs, Wrap;
    SeesSame(s, t, i, "|)&;");
    SignInside(s, i);
    var j := SkipWs(s, i);
    if !Sees(s, j, "|)&;") && Kind(s, j) == 'a' && |argv| + 1 < MAXARGS {
      AfterSame(s, t, j);
      TokenSame(s, t, j);
      RedirsSame(s, t, After(s, j), rs);
      RedirsOnward(s, After(s, j), rs);
      var r := ParseRedirs(s, After(s, j), rs);
      if r.RDone? { ArgsSame(s, t, r.pos, argv + [Span(j, End(s, j))], r.list); }
    }
  }

  lemma RedirsOnward(s: string, i: nat, acc: seq<Redirection>)
    requires i <= |s|
    ensures var r := ParseRedirs(s, i, acc); r.RDone? ==> i <= r.pos <= |s|
  {
  }

  lemma {:induction false} ExecSame(s: string, t: string, i: nat)
    requires SameButBlanks(s, t) && i <= |s|
    ensures i <= |t| && ParseExec(s, i) == ParseExec(t, i)
    decreases |s| - i, 0
  {
    hide SameButBlanks, Kind, End, SkipWs, After, Sees, ParseRedirs, ParseArgs, ParseLine, Wrap;
    SeesSame(s, t, i, "(");
    SignInside(s, i);
    var j := SkipWs(s, i);
    if Sees(s, j, "(") {
      AfterSame(s, t, j);
      LineSame(s, t, After(s, j));
      LineOnward(s, After(s, j));
      var r := ParseLine(s, After(s, j));
      if r.Done? { CloseSame(s, t, r.pos); }
    } else {
      RedirsSame(s, t, j, []);
      RedirsOnward(s, j, []);
      var r := ParseRedirs(s, j, []);
      if r.RDone? { ArgsSame(s, t, r.pos, [], r.list); }
    }
  }

  /** The closing parenthesis and the redirections after it. */
  lemma CloseSame(s: string, t: string, k: nat)
    requires SameButBlanks(s, t) && k <= |s|
    ensures k <= |t| && SkipWs(s, k) == SkipWs(t, k) <= |s| == |t|
    ensures Sees(s, SkipWs(s, k), ")") == Sees(t, SkipWs(s, k), ")") && After(s, SkipWs(s, k)) == After(t, SkipWs(s, k))
    ensures ParseRedirs(s, After(s, SkipWs(s, k)), []) == ParseRedirs(t, After(s, SkipWs(s, k)), [])
  {
    hide SameButBlanks, Kind, End, SkipWs, After, Sees, ParseRedirs;
    SeesSame(s, t, k, ")");
    AfterSame(s, t, SkipWs(s, k));
    Onward(s, SkipWs(s, k));
    RedirsSame(s, t, After(s, SkipWs(s, k)), []);
  }

  lemma LineOnward(s: string, i: nat)
    requires i <= |s|
    ensures var r := ParseLine(s, i); r.Done? ==> i <= r.pos <= |s|
    ensures var r := ParseExec(s, i); r.Done? ==> i <= r.pos <= |s|
    ensures var r := ParsePipe(s, i); r.Done? ==> i <= r.pos <= |s|
  {
  }

  lemma {:induction false} PipeSame(s: string, t: string, i: nat)
    requires SameButBlanks(s, t) && i <= |s|
    ensures i <= |t| && ParsePipe(s, i) == ParsePipe(t, i)
    decreases |s| - i, 1
  {
    hide SameButBlanks, Kind, End, SkipWs, After, Sees, ParseExec;
    ExecSame(s, t, i);
    LineOnward(s, i);
    var r := ParseExec(s, i);
    if r.Done? {
      SeesSame(s, t, r.pos, "|");
      SignInside(s, r.pos);
      var k := SkipWs(s, r.pos);
      AfterSame(s, t, k);
      if Sees(s, k, "|") { PipeSame(s, t, After(s, k)); }
    }
  }

  lemma {:induction false} BacksSame(s: string, t: string, i: nat, c: Cmd)
    requires SameButBlanks(s, t) && i <= |s|
    ensures i <= |t| && ParseBacks(s, i, c) == ParseBacks(t, i, c)
    decreases |s| - i
  {
    hide SameButBlanks, Kind, End, SkipWs, After, Sees;
    SeesSame(s, t, i, "&");
    SignInside(s, i);
    var j := SkipWs(s, i);
    AfterSame(s, t, j);
    if Sees(s, j, "&") { BacksSame(s, t, After(s, j), Back(c)); }
  }

  lemma {:induction false} LineSame(s: string, t: string, i: nat)
    requires SameButBlanks(s, t) && i <= |s|
    ensures i <= |t| && ParseLine(s, i) == ParseLine(t, i)
    decreases |s| - i, 2
  {
    hide SameButBlanks, Kind, End, SkipWs, After, Sees, ParsePipe, ParseBacks;
    PipeSame(s, t, i);
    LineOnward(s, i);
    var r := ParsePipe(s, i);
    if r.Done? {
      BacksSame(s, t, r.pos, r.cmd);
      BacksOnward(s, r.pos, r.cmd);
      var b := ParseBacks(s, r.pos, r.cmd);
      SeesSame(s, t, b.pos, ";");
      SignInside(s, b.pos);
      var k := SkipWs(s, b.pos);
      AfterSame(s, t, k);
      if Sees(s, k, ";") { LineSame(s, t, After(s, k)); }
    }
  }

  lemma BacksOnward(s: string, i: nat, c: Cmd)
    requires i <= |s|
    ensures var r := ParseBacks(s, i, c); r.Done? && i <= r.pos <= |s|
  {
  }

  /** Lines that differ only in their blanks (space, tab, carriage return, newline, vertical tab) parse to the same
      command with the same slices, or are both refused. */
  lemma BlanksAlike(s: string, t: string)
    requires SameButBlanks(s, t)
    ensures ParseCmd(s) == ParseCmd(t)
  {
    hide SameButBlanks, SkipWs, ParseLine;
    Lengths(s, t);
    LineSame(s, t, 0);
    LineOnward(s, 0);
    var r := ParseLine(s, 0);
    if r.Done? { SkipSame(s, t, r.pos); }
  }

  /** So a command tree is recovered from its printed form whatever blanks separate its tokens. */
  lemma AnyBlanks(tree: Tree, text: string)
    requires WellFormed(tree) && SameButBlanks(TextLine(tree), text)
    ensures var r := ParseCmd(text); r.Done? && Same(TextLine(tree), r.cmd, tree) && r.pos == |text|
  {
    hide SameButBlanks, ParseCmd, TextLine, Same;
    Lengths(TextLine(tree), text);
    ParserInvertsPrinter(tree);
    BlanksAlike(TextLine(tree), text);
  }
}
