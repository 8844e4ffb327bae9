// The parser of sh.c: a cursor over the command line, and the NULs that
// nulterminate writes into it.
module Shell {
  import opened ShellGrammar
  import opened ShellTree

  const NUL: char := '\0'

  class Parser {
    const buf: array<char>      // the line and its NUL
    const es: nat               // the end of the line
    var s: nat                  // the cursor *ps

    ghost predicate Valid()
      reads this, buf
    {
      buf.Length == es + 1 && s <= es && NUL !in buf[..es] && buf[es] == NUL
    }

    ghost function Text(): string
      requires es <= buf.Length
      reads this, buf
    {
      buf[..es]
    }

    // The tokens that are left.
    ghost function Left(): seq<Token>
      requires Valid()
      reads this, buf
    {
      Lex(Text(), s)
    }

    constructor (line: array<char>, end: nat)
      requires line.Length == end + 1 && line[end] == NUL && NUL !in line[..end]
      ensures Valid() && buf == line && es == end && s == 0
    {
      buf, es, s := line, end, 0;
    }

    method SkipBlanks()
      requires Valid()
      modifies this
      ensures Valid() && s == SkipWhite(Text(), old(s)) && (s == es || !White(buf[s]))
    {
      while s < es && White(buf[s])
        invariant Valid() && SkipWhite(Text(), s) == SkipWhite(Text(), old(s))
        decreases es - s
      {
        s := s + 1;
      }
    }

    // gettoken: the next token, which is read. tok is NUL at the end of the
    // line, 'a' for a word, which is then q..eq, and else the symbol.
    method GetToken() returns (tok: char, q: nat, eq: nat)
      requires Valid()
      modifies this
      ensures Valid() && s >= old(s)
      ensures tok == NUL <==> old(Left()) == []
      ensures tok == NUL ==> Left() == []
      ensures tok != NUL ==> s > old(s) && Left() == old(Left())[1..] && IsToken(old(Left())[0], tok, q, eq)
      ensures s == es || !White(buf[s])
    {
      ghost var text := Text();
      SkipBlanks();
      q := s;
      tok := buf[s];
      if tok == NUL {
        eq := s;
        return;
      }
      ghost var j := s;
      if tok in "|();&<" {
        s := s + 1;
      } else if tok == '>' {
        s := s + 1;
        if buf[s] == '>' {
          tok := '+';
          s := s + 1;
        }
      } else {
        tok := 'a';
        while s < es && !White(buf[s]) && !Symbol(buf[s])
          invariant Valid() && j <= s && Text() == text && WordEnd(text, s) == WordEnd(text, j)
          decreases es - s
        {
          s := s + 1;
        }
      }
      eq := s;
      assert eq == TokenEnd(text, j);
      SkipBlanks();
      LexBlanks(text, eq);
    }

    // peek: whether the next token begins with a character of toks.
    method Peek(toks: string) returns (yes: bool)
      requires Valid() && forall c | c in toks :: Symbol(c)
      modifies this
      ensures Valid() && s >= old(s) && Left() == old(Left())
      ensures yes <==> Left() != [] && Left()[0].Sym? && FirstOf(Left()[0]) in toks
      ensures s == es <==> Left() == []
      ensures s == es || !White(buf[s])
    {
      LexBlanks(Text(), s);
      SkipBlanks();
      yes := buf[s] != NUL && buf[s] in toks;
    }

    // parseredirs
    method ParseRedirs(cmd0: Cmd) returns (ok: bool, cmd: Cmd)
      requires Valid()
      modifies this
      ensures Valid() && s >= old(s)
      ensures Outcome(PRedirs(cmd0, old(Left())), ok, cmd, Left())
      ensures ok ==> Suffix(Left(), old(Left())) && TreeArgs(cmd) == TreeArgs(cmd0)
      ensures ok ==> TreeRedirs(cmd) == TreeRedirs(cmd0) + LineRedirs(Before(old(Left()), Left()))
      ensures ok ==> Left() == [] || !Redirection(Left()[0])
    {
      hide Lex;
      cmd := cmd0;
      var more := Peek("<>");
      while more
        invariant Valid() && s >= old(s)
        invariant more <==> Left() != [] && Redirection(Left()[0])
        invariant PRedirs(cmd0, old(Left())) == PRedirs(cmd, Left())
        decreases es - s
      {
        ghost var t := Left();
        var tok, _, _ := GetToken();
        var a, q, eq := GetToken();
        if a != 'a' {
          return false, cmd;
        }
        assert Left() == t[2..];
        assert t[1] == Word(q, eq);
        cmd := Redir(cmd, Word(q, eq), if tok == '<' then RdOnly else WrCreate, if tok == '<' then 0 else 1);
        more := Peek("<>");
      }
      ok := true;
      RedirsAgree(cmd0, old(Left()));
    }

    // parseexec
    method ParseExec() returns (ok: bool, cmd: Cmd)
      requires Valid()
      modifies this
      ensures Valid() && s >= old(s) && Outcome(PExec(old(Left())), ok, cmd, Left())
      decreases es - s, 1
    {
      hide Lex, PRedirs, PBlock, IsToken, TreeRedirs, TreeArgs, LineRedirs, Suffix, Before;
      ghost var t := Left();
      cmd := Exec([]);
      var open := Peek("(");
      if open {
        ok, cmd := ParseBlock();
        return;
      }
      ok, cmd := ParseRedirs(cmd);
      if !ok {
        return;
      }
      var argc := 0;
      var done := Peek("|)&;");
      while !done
        invariant Valid() && s >= old(s)
        invariant done ==> EndsArgs(Left())
        invariant !done && Left() != [] ==> !EndsArgs(Left())
        invariant PExec(t) == PArgs(cmd, argc, Left())
        decreases !done, es - s
      {
        ghost var t1 := Left();
        var tok, q, eq := GetToken();
        if tok == NUL {
          break;
        }
        TokenWord(t1[0], tok, q, eq);
        if tok != 'a' || argc + 1 >= MAXARGS {
          return false, cmd;
        }
        argc := argc + 1;
        ok, cmd := ParseRedirs(AddArg(cmd, Word(q, eq)));
        if !ok {
          return;
        }
        done := Peek("|)&;");
      }
      ok := true;
    }

    // parseblock
    method ParseBlock() returns (ok: bool, cmd: Cmd)
      requires Valid() && Begins(Left(), '(')     // else panic("parseblock")
      modifies this
      ensures Valid() && s >= old(s) && Outcome(PBlock(old(Left())), ok, cmd, Left())
      decreases es - s, 0
    {
      hide Lex, PRedirs, PLine, IsToken, TreeRedirs, TreeArgs, LineRedirs, Suffix, Before;
      var tok, q, eq := GetToken();
      ok, cmd := ParseLine();
      if !ok {
        return;
      }
      var close := Peek(")");
      if !close {
        return false, cmd;
      }
      tok, q, eq := GetToken();
      ok, cmd := ParseRedirs(cmd);
    }

    // parsepipe
    method ParsePipe() returns (ok: bool, cmd: Cmd)
      requires Valid()
      modifies this
      ensures Valid() && s >= old(s) && Outcome(PPipe(old(Left())), ok, cmd, Left())
      decreases es - s, 2
    {
      hide Lex, PExec, IsToken;
      ok, cmd := ParseExec();
      if !ok {
        return;
      }
      var bar := Peek("|");
      if bar {
        var tok, q, eq := GetToken();
        var right;
        ok, right := ParsePipe();
        cmd := Pipe(cmd, right);
      }
    }

    // parseline
    method ParseLine() returns (ok: bool, cmd: Cmd)
      requires Valid()
      modifies this
      ensures Valid() && s >= old(s) && Outcome(PLine(old(Left())), ok, cmd, Left())
      decreases es - s, 4
    {
      hide Lex, PPipe, IsToken;
      ghost var t := Left();
      ok, cmd := ParsePipe();
      if !ok {
        return;
      }
      var more := Peek("&");
      while more
        invariant Valid() && s >= old(s) && more == Begins(Left(), '&')
        invariant PJob(t) == PBacks(cmd, Left())
        decreases es - s
      {
        var tok, q, eq := GetToken();
        cmd := Back(cmd);
        more := Peek("&");
      }
      var semi := Peek(";");
      if semi {
        var tok, q, eq := GetToken();
        var right;
        ok, right := ParseLine();
        cmd := List(cmd, right);
      }
    }

    // nulterminate: a NUL after every word of the tree.
    method NulTerminate(cmd: Cmd)
      requires buf.Length == es + 1 && forall w | w in Words(cmd) :: w.Word? && w.eq <= es
      modifies buf
      ensures forall k | 0 <= k <= es :: buf[k] == if k in Ends(cmd) then NUL else old(buf[k])
      decreases cmd
    {
      match cmd
      case Exec(argv) =>
        for i := 0 to |argv|
          invariant forall k | 0 <= k <= es :: buf[k] == if k in Ends(Exec(argv[..i])) then NUL else old(buf[k])
        {
          EndsExec(argv, i);
          buf[argv[i].eq] := NUL;
        }
        assert argv[..|argv|] == argv;
      case Redir(sub, file, _, _) =>
        NulTerminate(sub);
        buf[file.eq] := NUL;
      case Pipe(left, right) =>
        NulTerminate(left);
        NulTerminate(right);
      case List(left, right) =>
        NulTerminate(left);
        NulTerminate(right);
      case Back(sub) =>
        NulTerminate(sub);
    }

    // parsecmd, on the whole line: it accepts exactly what the grammar derives,
    // and leaves every word of the tree as a string of its own.
    method ParseCmd() returns (ok: bool, cmd: Cmd)
      requires Valid() && s == 0
      modifies this, buf
      ensures ok ==> IsLine(cmd, old(Left())) && Fits(cmd)
      ensures ok ==> TreeRedirs(cmd) == LineRedirs(old(Left())) && TreeArgs(cmd) == LineArgs(old(Left()))
      ensures !ok ==> buf[..] == old(buf[..]) && forall c :: !(IsLine(c, old(Left())) && Fits(c))
      ensures ok ==> forall w | w in Words(cmd) :: Terminated(buf[..], old(Text()), w)
      ensures ok ==> forall k | 0 <= k <= es && k !in Ends(cmd) :: buf[k] == old(buf[k])
    {
      hide Lex, PLine, IsLine, Fits, Words, Ends;
      ghost var text, t := Text(), Left();
      ok, cmd := ParseLine();
      forall c
        ensures PLine(t) == Parsed(c, []) <==> IsLine(c, t) && Fits(c)
      {
        ParsesGrammar(t, c);
      }
      if !ok {
        return;
      }
      var any := Peek("");
      if s != es {
        return false, cmd;
      }
      LineAgrees(cmd, t);
      LexWhole(text, 0);
      LineWords(cmd, t);
      assert forall w | w in Words(cmd) :: Whole(text, w);
      NulTerminate(cmd);
      forall w | w in Words(cmd)
        ensures Terminated(buf[..], text, w)
      {
        WordKept(text, buf[..], cmd, w);
      }
    }
  }

  lemma TokenWord(t: Token, tok: char, q: nat, eq: nat)
    requires IsToken(t, tok, q, eq)
    ensures t.Word? <==> tok == 'a'
    ensures t.Word? ==> t == Word(q, eq)
  {
  }

  // The words of a tree: arguments and file names.
  function Words(c: Cmd): set<Token> {
    match c
    case Exec(argv) => set w | w in argv
    case Redir(sub, file, _, _) => Words(sub) + {file}
    case Pipe(l, r) => Words(l) + Words(r)
    case List(l, r) => Words(l) + Words(r)
    case Back(sub) => Words(sub)
  }

  ghost function Ends(c: Cmd): set<nat> {
    set w | w in Words(c) && w.Word? :: w.eq
  }

  lemma EndsExec(argv: seq<Token>, i: nat)
    requires i < |argv| && argv[i].Word?
    ensures Ends(Exec(argv[..i + 1])) == Ends(Exec(argv[..i])) + {argv[i].eq}
    ensures argv[i] in Words(Exec(argv))
  {
    assert argv[..i + 1] == argv[..i] + [argv[i]];
    assert Words(Exec(argv[..i + 1])) == Words(Exec(argv[..i])) + {argv[i]};
  }

  // The NUL-terminated string at position q is word.
  predicate IsString(buf: string, q: nat, word: string) {
    && q + |word| < |buf| && buf[q..q + |word|] == word && buf[q + |word|] == NUL && NUL !in word
  }

  predicate Terminated(buf: string, text: string, w: Token) {
    Whole(text, w) && IsString(buf, w.q, text[w.q..w.eq])
  }

  // No word ends inside another one.
  lemma WordKept(text: string, buf: string, c: Cmd, w: Token)
    requires w in Words(c) && NUL !in text && forall v | v in Words(c) :: Whole(text, v)
    requires |buf| == |text| + 1
    requires forall k | 0 <= k < |text| :: buf[k] == if k in Ends(c) then NUL else text[k]
    requires |text| in Ends(c) ==> buf[|text|] == NUL
    ensures Terminated(buf, text, w)
  {
    assert w.eq in Ends(c);
    forall k | w.q <= k < w.eq
      ensures buf[k] == text[k]
    {
      assert InWord(text[k]);
      assert k !in Ends(c);
    }
    hide Ends, Words, InWord;
    assert buf[w.q..w.eq] == text[w.q..w.eq];
  }

  // The words of a tree are tokens of its line.
  lemma {:induction false} WrapWords(c: Cmd, t: seq<Token>)
    requires IsItems(t)
    ensures forall w | w in Words(Wrap(c, t)) :: w in Words(c) || (w in t && w.Word?)
    ensures forall w | w in Args(t) :: w in t && w.Word?
    decreases |t|
  {
    if t == [] {
    } else if t[0].Word? {
      WrapWords(c, t[1..]);
    } else {
      WrapWords(WithRedir(c, t[0], t[1]), t[2..]);
    }
  }

  predicate Within(c: Cmd, t: seq<Token>) { forall w | w in Words(c) :: w in t && w.Word? }

  lemma PartsWithin(c: Cmd, left: Cmd, right: Cmd, t: seq<Token>, k: nat)
    requires k < |t| && Within(left, t[..k]) && Within(right, t[k + 1..]) && Words(c) == Words(left) + Words(right)
    ensures Within(c, t)
  {
    hide Words;
  }

  lemma {:induction false} BlockWords(c: Cmd, t: seq<Token>)
    requires IsBlock(c, t)
    ensures Within(c, t)
    decreases |t|, 0
  {
    var n := |t|;
    if t[0] == Sym('(') && t[n - 1] == Sym(')') && IsLine(c, t[1..n - 1]) {
      LineWords(c, t[1..n - 1]);
    } else {
      BlockWords(c.cmd, t[..n - 2]);
    }
  }

  lemma {:induction false} ExecWords(c: Cmd, t: seq<Token>)
    requires IsExec(c, t)
    ensures Within(c, t)
    decreases |t|, 1
  {
    if IsBlock(c, t) {
      BlockWords(c, t);
    } else {
      WrapWords(Exec(Args(t)), t);
    }
  }

  lemma {:induction false} PipeWords(c: Cmd, t: seq<Token>)
    requires IsPipe(c, t)
    ensures Within(c, t)
    decreases |t|, 2
  {
    hide IsExec;
    if IsExec(c, t) {
      ExecWords(c, t);
    } else {
      var k: nat :| k < |t| && PipeAt(c, t, k);
      assert PipeAt(c, t, k);
      ExecWords(c.left, t[..k]);
      PipeWords(c.right, t[k + 1..]);
      PartsWithin(c, c.left, c.right, t, k);
    }
  }

  lemma {:induction false} BacksWords(c: Cmd, t: seq<Token>)
    requires IsBacks(c, t)
    ensures Within(c, t)
    decreases |t|, 3
  {
    if IsPipe(c, t) {
      PipeWords(c, t);
    } else {
      BacksWords(c.cmd, t[..|t| - 1]);
    }
  }

  lemma {:induction false} LineWords(c: Cmd, t: seq<Token>)
    requires IsLine(c, t)
    ensures Within(c, t)
    decreases |t|, 4
  {
    if IsBacks(c, t) {
      BacksWords(c, t);
    } else {
      var k: nat :| k < |t| && ListAt(c, t, k);
      BacksWords(c.left, t[..k]);
      LineWords(c.right, t[k + 1..]);
      PartsWithin(c, c.left, c.right, t, k);
    }
  }

  predicate IsToken(t: Token, tok: char, q: nat, eq: nat) {
    if t.Word? then tok == 'a' && t == Word(q, eq) else tok == t.c && tok != 'a' && tok != NUL
  }

  function FirstOf(t: Token): char
    requires t.Sym?
  {
    if t.c == '+' then '>' else t.c
  }

  // What a parse function returns: not ok where the original panics.
  predicate Outcome(p: Parsed, ok: bool, cmd: Cmd, rest: seq<Token>) {
    (ok <==> p.Parsed?) && (ok ==> p == Parsed(cmd, rest))
  }

  lemma LexBlanks(text: string, i: nat)
    requires i <= |text|
    ensures Lex(text, SkipWhite(text, i)) == Lex(text, i)
  {
    var j := SkipWhite(text, i);
    assert SkipWhite(text, j) == j;
  }
}
