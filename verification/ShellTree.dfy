// What the tree of an accepted line says about the line, without the grammar:
// its redirections and arguments in order; and a line for every tree.
module ShellTree {
  import opened ShellGrammar

  // ---------- tokens ----------

  // The characters of a string that are not white space.
  function Dense(u: string): string {
    if u == [] then [] else (if White(u[0]) then [] else [u[0]]) + Dense(u[1..])
  }

  function TokenText(text: string, t: Token): string
    requires t.Word? ==> t.q <= t.eq <= |text|
  {
    match t
    case Word(q, eq) => text[q..eq]
    case Sym(c) => if c == '+' then ">>" else [c]
  }

  function Spelled(text: string, t: seq<Token>): string
    requires forall w | w in t && w.Word? :: w.q <= w.eq <= |text|
  {
    if t == [] then [] else TokenText(text, t[0]) + Spelled(text, t[1..])
  }

  lemma {:induction false} DenseJoin(u: string, v: string)
    ensures Dense(u + v) == Dense(u) + Dense(v)
  {
    if u == [] {
      assert u + v == v;
    } else {
      assert (u + v)[1..] == u[1..] + v;
      DenseJoin(u[1..], v);
    }
  }

  lemma {:induction false} DenseSelf(u: string)
    requires forall k | 0 <= k < |u| :: !White(u[k])
    ensures Dense(u) == u
  {
    if u != [] {
      DenseSelf(u[1..]);
    }
  }

  lemma {:induction false} SkipsWhite(text: string, i: nat)
    requires i <= |text|
    ensures Dense(text[i..]) == Dense(text[SkipWhite(text, i)..])
    decreases |text| - i
  {
    if i < |text| && White(text[i]) {
      assert text[i..][1..] == text[i + 1..];
      SkipsWhite(text, i + 1);
    }
  }

  lemma TokenKept(text: string, j: nat)
    requires j < |text| && !White(text[j])
    ensures var t, k := TokenAt(text, j), TokenEnd(text, j);
      (t.Word? ==> t.q <= t.eq <= |text|) && Dense(text[j..]) == TokenText(text, t) + Dense(text[k..])
  {
    var k := TokenEnd(text, j);
    assert text[j..] == text[j..k] + text[k..];
    assert TokenText(text, TokenAt(text, j)) == text[j..k];
    DenseSelf(text[j..k]);
    hide Dense, TokenAt;
    DenseJoin(text[j..k], text[k..]);
  }

  // The tokens are the text without its white space: no character is lost,
  // repeated or moved.
  lemma {:induction false} LexKeeps(text: string, i: nat)
    requires i <= |text|
    ensures forall w | w in Lex(text, i) && w.Word? :: w.q <= w.eq <= |text|
    ensures Spelled(text, Lex(text, i)) == Dense(text[i..])
    decreases |text| - i
  {
    SkipsWhite(text, i);
    var j := SkipWhite(text, i);
    if j < |text| {
      TokenKept(text, j);
      LexKeeps(text, TokenEnd(text, j));
      hide Dense, TokenText, TokenAt, TokenEnd, SkipWhite;
    }
  }

  // ---------- redirections ----------

  datatype Redirect = Redirect(file: Token, mode: Mode, fd: nat)

  // The redirections of a tree: from the left, and from the inside out.
  function TreeRedirs(c: Cmd): seq<Redirect> {
    match c
    case Exec(_) => []
    case Redir(sub, file, mode, fd) => TreeRedirs(sub) + [Redirect(file, mode, fd)]
    case Pipe(l, r) => TreeRedirs(l) + TreeRedirs(r)
    case List(l, r) => TreeRedirs(l) + TreeRedirs(r)
    case Back(sub) => TreeRedirs(sub)
  }

  // < file is standard input, > file and >> file are standard output.
  function RedirectAt(op: Token, file: Token): seq<Redirect> {
    if !file.Word? then []
    else if op == Sym('<') then [Redirect(file, RdOnly, 0)]
    else if op == Sym('>') || op == Sym('+') then [Redirect(file, WrCreate, 1)]
    else []
  }

  function LineRedirs(t: seq<Token>): seq<Redirect> {
    if |t| < 2 then [] else RedirectAt(t[0], t[1]) + LineRedirs(t[1..])
  }

  // No file name is cut off from its symbol between u and v.
  predicate Joins(u: seq<Token>, v: seq<Token>) {
    u == [] || v == [] || !Redirection(u[|u| - 1]) || !v[0].Word?
  }

  lemma {:induction false} RedirsJoin(u: seq<Token>, v: seq<Token>)
    requires Joins(u, v)
    ensures LineRedirs(u + v) == LineRedirs(u) + LineRedirs(v)
  {
    if u == [] {
      assert u + v == v;
    } else {
      assert (u + v)[1..] == u[1..] + v;
      RedirsJoin(u[1..], v);
    }
  }

  // ---------- arguments ----------

  // The arguments of all commands of a tree.
  function TreeArgs(c: Cmd): seq<Token> {
    match c
    case Exec(argv) => argv
    case Redir(sub, _, _, _) => TreeArgs(sub)
    case Pipe(l, r) => TreeArgs(l) + TreeArgs(r)
    case List(l, r) => TreeArgs(l) + TreeArgs(r)
    case Back(sub) => TreeArgs(sub)
  }

  // The words of a line that follow no redirection symbol.
  function LineArgs(t: seq<Token>): seq<Token> {
    if t == [] then [] else LineArgs(t[..|t| - 1]) + LastArg(t)
  }

  function LastArg(t: seq<Token>): seq<Token>
    requires t != []
  {
    var n := |t| - 1;
    if t[n].Word? && !(n > 0 && Redirection(t[n - 1])) then [t[n]] else []
  }

  lemma LastJoin(u: seq<Token>, v: seq<Token>)
    requires Joins(u, v) && v != []
    ensures LastArg(u + v) == LastArg(v)
  {
  }

  lemma {:induction false} ArgsJoin(u: seq<Token>, v: seq<Token>)
    requires Joins(u, v)
    ensures LineArgs(u + v) == LineArgs(u) + LineArgs(v)
  {
    if v == [] {
      assert u + v == u;
    } else {
      var n := |v| - 1;
      assert (u + v)[..|u + v| - 1] == u + v[..n];
      LastJoin(u, v);
      ArgsJoin(u, v[..n]);
      hide LastArg;
    }
  }

  // ---------- the tree of a line has both ----------

  ghost predicate Agrees(c: Cmd, t: seq<Token>) {
    TreeRedirs(c) == LineRedirs(t) && TreeArgs(c) == LineArgs(t)
  }

  lemma JoinBoth(u: seq<Token>, v: seq<Token>)
    requires Joins(u, v)
    ensures LineRedirs(u + v) == LineRedirs(u) + LineRedirs(v) && LineArgs(u + v) == LineArgs(u) + LineArgs(v)
  {
    RedirsJoin(u, v);
    ArgsJoin(u, v);
  }

  lemma OneSymbol(c: char)
    ensures LineRedirs([Sym(c)]) == [] && LineArgs([Sym(c)]) == []
  {
  }

  // A symbol between two parts.
  lemma Between(u: seq<Token>, c: char, v: seq<Token>)
    requires !Redirection(Sym(c))
    ensures LineRedirs(u + [Sym(c)] + v) == LineRedirs(u) + LineRedirs(v)
    ensures LineArgs(u + [Sym(c)] + v) == LineArgs(u) + LineArgs(v)
  {
    OneSymbol(c);
    hide LineRedirs, LineArgs;
    JoinBoth(u, [Sym(c)]);
    JoinBoth(u + [Sym(c)], v);
  }

  lemma OneRedirect(op: Token, file: Token)
    requires Redirection(op) && file.Word?
    ensures LineRedirs([op, file]) == RedirectAt(op, file) && LineArgs([op, file]) == []
  {
    var t := [op, file];
    assert t[1..] == [file] && t[..1] == [op];
    assert !op.Word? && LineArgs([op]) == [];
  }

  lemma WithRedirAgrees(c: Cmd, u: seq<Token>, op: Token, file: Token)
    requires Agrees(c, u) && Redirection(op) && file.Word?
    ensures Agrees(WithRedir(c, op, file), u + [op, file])
  {
    OneRedirect(op, file);
    JoinBoth(u, [op, file]);
  }

  lemma {:induction false} SimpleAgrees(t: seq<Token>)
    requires IsItems(t)
    ensures Agrees(Simple(t), t)
  {
    hide Agrees;
    if t == [] {
      assert Agrees(Exec([]), []) by { NoneAgrees(); }
    } else {
      var n := |t|;
      LastItem(t);
      if n > 1 && Redirection(t[n - 2]) {
        var u := t[..n - 2];
        assert t == u + [t[n - 2], t[n - 1]];
        SimpleAgrees(u);
        SimpleRedir(u, t[n - 2], t[n - 1]);
        WithRedirAgrees(Simple(u), u, t[n - 2], t[n - 1]);
      } else {
        var u := t[..n - 1];
        assert t == u + [t[n - 1]];
        SimpleAgrees(u);
        SimpleWord(u, t[n - 1]);
        WrapCore(Exec(Args(u)), u);
        WordAgrees(Simple(u), u, t[n - 1]);
      }
    }
  }

  lemma NoneAgrees()
    ensures Agrees(Exec([]), [])
  {
  }

  // Items end in a word, or in a redirection of which they are without it.
  lemma {:induction false} LastItem(t: seq<Token>)
    requires IsItems(t) && t != []
    ensures var n := |t|;
      && t[n - 1].Word?
      && if n > 1 && Redirection(t[n - 2]) then IsItems(t[..n - 2]) else IsItems(t[..n - 1])
  {
    var n := |t|;
    if t[0].Word? {
      if n > 1 {
        LastItem(t[1..]);
        assert t[1..][..n - 2] == t[..n - 1][1..];
        if n > 2 { assert t[1..][..n - 3] == t[..n - 2][1..]; }
      }
    } else if n > 2 {
      LastItem(t[2..]);
      assert t[2..][..n - 3] == t[..n - 1][2..];
      if n > 3 { assert t[2..][..n - 4] == t[..n - 2][2..]; }
    }
  }

  lemma {:induction false} AddArgTree(c: Cmd, w: Token)
    requires CoreIsExec(c)
    ensures TreeRedirs(AddArg(c, w)) == TreeRedirs(c) && TreeArgs(AddArg(c, w)) == TreeArgs(c) + [w]
  {
    if c.Redir? {
      AddArgTree(c.cmd, w);
    }
  }

  predicate CoreIsExec(c: Cmd) { c.Exec? || (c.Redir? && CoreIsExec(c.cmd)) }

  lemma {:induction false} WrapCore(c: Cmd, t: seq<Token>)
    requires CoreIsExec(c)
    ensures CoreIsExec(Wrap(c, t))
    decreases |t|
  {
    if t == [] {
    } else if t[0].Word? {
      WrapCore(c, t[1..]);
    } else if |t| > 1 {
      WrapCore(WithRedir(c, t[0], t[1]), t[2..]);
    }
  }

  lemma WordAgrees(c: Cmd, u: seq<Token>, w: Token)
    requires Agrees(c, u) && w.Word? && (u == [] || !Redirection(u[|u| - 1])) && CoreIsExec(c)
    ensures Agrees(AddArg(c, w), u + [w])
  {
    JoinBoth(u, [w]);
    assert LineArgs([w]) == [w];
    AddArgTree(c, w);
  }

  // A list of redirections alone.
  lemma {:induction false} WrapAgrees(c: Cmd, u: seq<Token>)
    requires IsItems(u) && Args(u) == []
    ensures TreeRedirs(Wrap(c, u)) == TreeRedirs(c) + LineRedirs(u) && TreeArgs(Wrap(c, u)) == TreeArgs(c)
    decreases |u|
  {
    if u == [] {
    } else {
      FirstRedirect(c, u);
      hide LineRedirs, IsItems, Args, Wrap;
      WrapAgrees(WithRedir(c, u[0], u[1]), u[2..]);
    }
  }

  lemma FirstRedirect(c: Cmd, u: seq<Token>)
    requires IsItems(u) && Args(u) == [] && u != []
    ensures |u| > 1 && Redirection(u[0]) && u[1].Word? && IsItems(u[2..]) && Args(u[2..]) == []
    ensures Wrap(c, u) == Wrap(WithRedir(c, u[0], u[1]), u[2..])
    ensures LineRedirs(u) == RedirectAt(u[0], u[1]) + LineRedirs(u[2..])
  {
    var rest := u[2..];
    assert u == [u[0], u[1]] + rest;
    OneRedirect(u[0], u[1]);
    ItemsBegin(rest);
    RedirsJoin([u[0], u[1]], rest);
  }

  lemma ItemsBegin(u: seq<Token>)
    requires IsItems(u) && Args(u) == []
    ensures u == [] || !u[0].Word?
  {
  }

  // What parseredirs adds to a command.
  lemma RedirsAgree(c: Cmd, t: seq<Token>)
    requires PRedirs(c, t).Parsed?
    ensures var p := PRedirs(c, t);
      && Suffix(p.rest, t)
      && TreeRedirs(p.cmd) == TreeRedirs(c) + LineRedirs(Before(t, p.rest)) && TreeArgs(p.cmd) == TreeArgs(c)
  {
    RedirsSound(c, t);
    WrapAgrees(c, Before(t, PRedirs(c, t).rest));
  }

  lemma {:induction false} BlockAgrees(c: Cmd, t: seq<Token>)
    requires IsBlock(c, t)
    ensures Agrees(c, t)
    decreases |t|, 0
  {
    hide Agrees;
    var n := |t|;
    if t[0] == Sym('(') && t[n - 1] == Sym(')') && IsLine(c, t[1..n - 1]) {
      LineAgrees(c, t[1..n - 1]);
      InParentheses(c, t);
    } else {
      BlockAgrees(c.cmd, t[..n - 2]);
      WithRedirAgrees(c.cmd, t[..n - 2], t[n - 2], t[n - 1]);
      assert t == t[..n - 2] + [t[n - 2], t[n - 1]];
    }
  }

  lemma Parenthesized(u: seq<Token>)
    ensures LineRedirs([Sym('(')] + u + [Sym(')')]) == LineRedirs(u)
    ensures LineArgs([Sym('(')] + u + [Sym(')')]) == LineArgs(u)
  {
    var open, close := [Sym('(')], [Sym(')')];
    OneSymbol('(');
    OneSymbol(')');
    hide LineRedirs, LineArgs;
    JoinBoth(open, u);
    JoinBoth(open + u, close);
  }

  lemma InParentheses(c: Cmd, t: seq<Token>)
    requires |t| >= 2 && t[0] == Sym('(') && t[|t| - 1] == Sym(')')
    requires TreeRedirs(c) == LineRedirs(t[1..|t| - 1]) && TreeArgs(c) == LineArgs(t[1..|t| - 1])
    ensures Agrees(c, t)
  {
    hide LineRedirs, LineArgs, TreeRedirs, TreeArgs;
    assert t == [Sym('(')] + t[1..|t| - 1] + [Sym(')')];
    Parenthesized(t[1..|t| - 1]);
  }

  lemma {:induction false} ExecAgrees(c: Cmd, t: seq<Token>)
    requires IsExec(c, t)
    ensures Agrees(c, t)
    decreases |t|, 1
  {
    if IsBlock(c, t) {
      BlockAgrees(c, t);
    } else {
      SimpleAgrees(t);
    }
  }

  lemma PairAgrees(l: Cmd, r: Cmd, c: Cmd, t: seq<Token>, k: nat)
    requires k < |t| && t[k].Sym? && !Redirection(t[k]) && Agrees(l, t[..k]) && Agrees(r, t[k + 1..])
    requires c == Pipe(l, r) || c == List(l, r)
    ensures Agrees(c, t)
  {
    var u, v := t[..k], t[k + 1..];
    assert t == u + [Sym(t[k].c)] + v;
    assert TreeRedirs(c) == TreeRedirs(l) + TreeRedirs(r) && TreeArgs(c) == TreeArgs(l) + TreeArgs(r);
    hide LineRedirs, LineArgs, TreeRedirs, TreeArgs;
    Between(u, t[k].c, v);
  }

  lemma {:induction false} PipeAgrees(c: Cmd, t: seq<Token>)
    requires IsPipe(c, t)
    ensures Agrees(c, t)
    decreases |t|, 2
  {
    hide Agrees, IsExec;
    if IsExec(c, t) {
      ExecAgrees(c, t);
    } else {
      var k: nat :| k < |t| && PipeAt(c, t, k);
      ExecAgrees(c.left, t[..k]);
      PipeAgrees(c.right, t[k + 1..]);
      PairAgrees(c.left, c.right, c, t, k);
    }
  }

  lemma {:induction false} BacksAgrees(c: Cmd, t: seq<Token>)
    requires IsBacks(c, t)
    ensures Agrees(c, t)
    decreases |t|, 3
  {
    hide IsPipe;
    if IsPipe(c, t) {
      PipeAgrees(c, t);
    } else {
      var u := t[..|t| - 1];
      BacksAgrees(c.cmd, u);
      assert t == u + [Sym('&')] + [];
      Between(u, '&', []);
    }
  }

  // The redirections of an accepted line are in its tree in their order, those
  // outside later than those inside, each with its own file, mode and descriptor;
  // and so are the arguments, which are all its other words.
  lemma {:induction false} LineAgrees(c: Cmd, t: seq<Token>)
    requires IsLine(c, t)
    ensures TreeRedirs(c) == LineRedirs(t) && TreeArgs(c) == LineArgs(t)
    decreases |t|, 4
  {
    hide IsBacks;
    if IsBacks(c, t) {
      BacksAgrees(c, t);
    } else {
      var k: nat :| k < |t| && ListAt(c, t, k);
      BacksAgrees(c.left, t[..k]);
      LineAgrees(c.right, t[k + 1..]);
      PairAgrees(c.left, c.right, c, t, k);
    }
  }

  // ---------- a line for every tree ----------

  // Words at the leaves; < is standard input, > and >> are standard output.
  predicate Proper(c: Cmd) {
    match c
    case Exec(argv) => |argv| < MAXARGS && forall w | w in argv :: w.Word?
    case Redir(sub, file, mode, fd) => Proper(sub) && file.Word? && fd == (if mode == RdOnly then 0 else 1)
    case Pipe(l, r) => Proper(l) && Proper(r)
    case List(l, r) => Proper(l) && Proper(r)
    case Back(sub) => Proper(sub)
  }

  // The line of a tree, with parentheses only where the shape needs them: ';'
  // binds to the right and weakest, then '&', then '|' to the right, and a
  // redirection belongs to the command or block before it.
  function PrintLine(c: Cmd): seq<Token>
    decreases c, 3
  {
    if c.List? then PrintJob(c.left) + [Sym(';')] + PrintLine(c.right) else PrintJob(c)
  }

  function PrintJob(c: Cmd): seq<Token>
    decreases c, 2
  {
    if c.Back? then PrintJob(c.cmd) + [Sym('&')] else PrintPipe(c)
  }

  function PrintPipe(c: Cmd): seq<Token>
    decreases c, 1
  {
    if c.Pipe? then PrintExec(c.left) + [Sym('|')] + PrintPipe(c.right) else PrintExec(c)
  }

  function PrintExec(c: Cmd): seq<Token>
    decreases c, 0
  {
    match c
    case Exec(argv) => argv
    case Redir(sub, file, mode, _) => PrintExec(sub) + [Sym(if mode == RdOnly then '<' else '>'), file]
    case Pipe(l, r) => [Sym('(')] + (PrintExec(l) + [Sym('|')] + PrintPipe(r)) + [Sym(')')]
    case List(l, r) => [Sym('(')] + (PrintJob(l) + [Sym(';')] + PrintLine(r)) + [Sym(')')]
    case Back(sub) => [Sym('(')] + (PrintJob(sub) + [Sym('&')]) + [Sym(')')]
  }

  lemma {:induction false} WordItems(argv: seq<Token>)
    requires forall w | w in argv :: w.Word?
    ensures IsItems(argv) && Args(argv) == argv && forall c :: Wrap(c, argv) == c
  {
    if argv != [] {
      WordItems(argv[1..]);
    }
  }

  lemma {:induction false} SimplePrinted(c: Cmd)
    requires Proper(c) && CoreIsExec(c)
    ensures IsItems(PrintExec(c)) && c == Simple(PrintExec(c))
  {
    if c.Exec? {
      WordItems(c.argv);
    } else {
      SimplePrinted(c.cmd);
      SimpleRedir(PrintExec(c.cmd), Sym(if c.mode == RdOnly then '<' else '>'), c.file);
    }
  }

  lemma {:induction false} BlockPrinted(c: Cmd)
    requires Proper(c) && !CoreIsExec(c)
    ensures IsBlock(c, PrintExec(c))
    decreases c, 0
  {
    match c
    case Redir(sub, file, mode, _) =>
      BlockPrinted(sub);
      hide IsLine;
      var t := PrintExec(c);
      assert t[..|t| - 2] == PrintExec(sub);
    case Pipe(l, r) =>
      ExecPrinted(l);
      PipePrinted(r);
      PipeJoin(l, r, PrintExec(l), PrintPipe(r));
      PipeIsBacks(c, PrintExec(l) + [Sym('|')] + PrintPipe(r));
      BlockJoin(c, PrintExec(l) + [Sym('|')] + PrintPipe(r));
    case List(l, r) =>
      JobPrinted(l);
      LinePrinted(r);
      ListJoin(l, r, PrintJob(l), PrintLine(r));
      BlockJoin(c, PrintJob(l) + [Sym(';')] + PrintLine(r));
    case Back(sub) =>
      JobPrinted(sub);
      BackJoin(sub, PrintJob(sub));
      BlockJoin(c, PrintJob(sub) + [Sym('&')]);
  }

  lemma ExecPrinted(c: Cmd)
    requires Proper(c)
    ensures IsExec(c, PrintExec(c))
    decreases c, 1
  {
    if CoreIsExec(c) { SimplePrinted(c); } else { BlockPrinted(c); }
  }

  lemma {:induction false} PipePrinted(c: Cmd)
    requires Proper(c)
    ensures IsPipe(c, PrintPipe(c))
    decreases c, 2
  {
    hide IsExec;
    if c.Pipe? {
      ExecPrinted(c.left);
      PipePrinted(c.right);
      PipeJoin(c.left, c.right, PrintExec(c.left), PrintPipe(c.right));
    } else {
      ExecPrinted(c);
    }
  }

  lemma {:induction false} JobPrinted(c: Cmd)
    requires Proper(c)
    ensures IsBacks(c, PrintJob(c))
    decreases c, 3
  {
    hide IsPipe;
    if c.Back? {
      JobPrinted(c.cmd);
      BackJoin(c.cmd, PrintJob(c.cmd));
    } else {
      PipePrinted(c);
      PipeIsBacks(c, PrintPipe(c));
    }
  }

  lemma {:induction false} LinePrinted(c: Cmd)
    requires Proper(c)
    ensures IsLine(c, PrintLine(c))
    decreases c, 4
  {
    hide IsBacks;
    if c.List? {
      JobPrinted(c.left);
      LinePrinted(c.right);
      ListJoin(c.left, c.right, PrintJob(c.left), PrintLine(c.right));
    } else {
      JobPrinted(c);
    }
  }

  lemma {:induction false} ProperFits(c: Cmd)
    requires Proper(c)
    ensures Fits(c)
  {
    match c
    case Exec(_) =>
    case Redir(sub, _, _, _) => ProperFits(sub);
    case Pipe(l, r) => ProperFits(l); ProperFits(r);
    case List(l, r) => ProperFits(l); ProperFits(r);
    case Back(sub) => ProperFits(sub);
  }

  // Printing a tree and parsing the line gives the tree back.
  lemma RoundTrip(c: Cmd)
    requires Proper(c)
    ensures PLine(PrintLine(c)) == Parsed(c, [])
  {
    LinePrinted(c);
    ProperFits(c);
    ParsesGrammar(PrintLine(c), c);
  }

  // The redirections and arguments of a tree decide whether it is proper.
  lemma {:induction false} ProperParts(c: Cmd)
    ensures Proper(c) <==> Fits(c) && (forall w | w in TreeArgs(c) :: w.Word?) && forall x | x in TreeRedirs(c) ::
      x.file.Word? && x.fd == (if x.mode == RdOnly then 0 else 1)
  {
    match c
    case Exec(_) =>
    case Redir(sub, file, mode, fd) =>
      ProperParts(sub);
      assert TreeRedirs(c)[|TreeRedirs(c)| - 1] == Redirect(file, mode, fd);
    case Pipe(l, r) => ProperParts(l); ProperParts(r);
    case List(l, r) => ProperParts(l); ProperParts(r);
    case Back(sub) => ProperParts(sub);
  }

  lemma {:induction false} LineParts(t: seq<Token>)
    ensures forall w | w in LineArgs(t) :: w.Word?
    ensures forall x | x in LineRedirs(t) :: x.file.Word? && x.fd == (if x.mode == RdOnly then 0 else 1)
  {
    if t != [] {
      LineParts(t[..|t| - 1]);
      LineParts(t[1..]);
    }
  }

  // The trees of accepted lines are the proper ones.
  lemma AcceptedTrees(c: Cmd)
    ensures Proper(c) <==> exists t :: PLine(t) == Parsed(c, [])
  {
    if Proper(c) {
      RoundTrip(c);
    }
    if t :| PLine(t) == Parsed(c, []) {
      ParsesGrammar(t, c);
      LineAgrees(c, t);
      LineParts(t);
      ProperParts(c);
    }
  }
}
