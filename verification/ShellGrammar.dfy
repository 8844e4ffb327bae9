// The command language of sh.c: its tokens, its grammar with the tree of each
// derivation, and the parser as a function on token lists.
module ShellGrammar {

  const MAXARGS: nat := 10

  // q and eq are the positions where a word begins and ends; the symbol '+'
  // stands for >>.
  datatype Token = Word(q: nat, eq: nat) | Sym(c: char)

  datatype Mode = RdOnly | WrCreate      // O_RDONLY, O_WRONLY|O_CREATE

  datatype Cmd =
    | Exec(argv: seq<Token>)
    | Redir(cmd: Cmd, file: Token, mode: Mode, fd: nat)
    | Pipe(left: Cmd, right: Cmd)
    | List(left: Cmd, right: Cmd)
    | Back(cmd: Cmd)

  // ---------- tokens ----------

  predicate White(c: char) { c in " \t\r\n\U{000B}" }

  predicate Symbol(c: char) { c in "<|>&;()" }

  predicate InWord(c: char) { !White(c) && !Symbol(c) }

  function SkipWhite(text: string, i: nat): (j: nat)
    requires i <= |text|
    ensures i <= j <= |text| && (j < |text| ==> !White(text[j]))
    decreases |text| - i
  {
    if i < |text| && White(text[i]) then SkipWhite(text, i + 1) else i
  }

  function WordEnd(text: string, i: nat): (j: nat)
    requires i <= |text|
    ensures i <= j <= |text| && (j < |text| ==> !InWord(text[j]))
    ensures forall k | i <= k < j :: InWord(text[k])
    decreases |text| - i
  {
    if i < |text| && InWord(text[i]) then WordEnd(text, i + 1) else i
  }

  function TokenAt(text: string, j: nat): Token
    requires j < |text|
  {
    if text[j] == '>' && j + 1 < |text| && text[j + 1] == '>' then Sym('+')
    else if Symbol(text[j]) then Sym(text[j])
    else Word(j, WordEnd(text, j))
  }

  function TokenEnd(text: string, j: nat): (k: nat)
    requires j < |text| && !White(text[j])
    ensures j < k <= |text|
  {
    match TokenAt(text, j)
    case Word(_, eq) => eq
    case Sym(c) => if c == '+' then j + 2 else j + 1
  }

  // The tokens from position i on.
  function Lex(text: string, i: nat): seq<Token>
    requires i <= |text|
    decreases |text| - i
  {
    var j := SkipWhite(text, i);
    if j == |text| then [] else [TokenAt(text, j)] + Lex(text, TokenEnd(text, j))
  }

  // A word is not empty, has no white space and no symbol in it, and is
  // followed by one or by the end of the text.
  predicate Whole(text: string, w: Token) {
    && w.Word? && w.q < w.eq <= |text|
    && (forall k | w.q <= k < w.eq :: InWord(text[k]))
    && (w.eq < |text| ==> !InWord(text[w.eq]))
  }

  lemma {:induction false} LexWhole(text: string, i: nat)
    requires i <= |text|
    ensures forall t | t in Lex(text, i) && t.Word? :: Whole(text, t)
    decreases |text| - i
  {
    var j := SkipWhite(text, i);
    if j < |text| {
      LexWhole(text, TokenEnd(text, j));
    }
  }

  // ---------- the grammar ----------

  predicate Redirection(t: Token) { t == Sym('<') || t == Sym('>') || t == Sym('+') }

  function WithRedir(cmd: Cmd, op: Token, file: Token): Cmd {
    if op == Sym('<') then Redir(cmd, file, RdOnly, 0) else Redir(cmd, file, WrCreate, 1)
  }

  predicate Begins(t: seq<Token>, c: char) { t != [] && t[0] == Sym(c) }

  // { word | redirection word }
  predicate IsItems(t: seq<Token>) {
    || t == []
    || (t[0].Word? && IsItems(t[1..]))
    || (|t| > 1 && Redirection(t[0]) && t[1].Word? && IsItems(t[2..]))
  }

  // The words that are no file names.
  function Args(t: seq<Token>): seq<Token> {
    if t == [] then []
    else if t[0].Word? then [t[0]] + Args(t[1..])
    else if |t| > 1 then Args(t[2..])
    else []
  }

  // cmd, within the redirections of t: the last one is the outermost.
  function Wrap(cmd: Cmd, t: seq<Token>): Cmd
    decreases |t|
  {
    if t == [] then cmd
    else if t[0].Word? then Wrap(cmd, t[1..])
    else if |t| > 1 then Wrap(WithRedir(cmd, t[0], t[1]), t[2..])
    else cmd
  }

  ghost predicate IsSimple(c: Cmd, t: seq<Token>) {
    IsItems(t) && c == Wrap(Exec(Args(t)), t)
  }

  // block = '(' line ')' { redirection word }
  ghost predicate IsBlock(c: Cmd, t: seq<Token>)
    decreases |t|, 0
  {
    var n := |t|;
    || (n >= 2 && t[0] == Sym('(') && t[n - 1] == Sym(')') && IsLine(c, t[1..n - 1]))
    || (n >= 2 && Redirection(t[n - 2]) && t[n - 1].Word? && c.Redir?
        && c == WithRedir(c.cmd, t[n - 2], t[n - 1]) && IsBlock(c.cmd, t[..n - 2]))
  }

  // exec = block | { word | redirection word }
  ghost predicate IsExec(c: Cmd, t: seq<Token>)
    decreases |t|, 1
  {
    IsBlock(c, t) || IsSimple(c, t)
  }

  // pipe = exec [ '|' pipe ]
  ghost predicate IsPipe(c: Cmd, t: seq<Token>)
    decreases |t|, 2
  {
    IsExec(c, t) || (c.Pipe? && exists k: nat :: k < |t| && PipeAt(c, t, k))
  }

  ghost predicate PipeAt(c: Cmd, t: seq<Token>, k: nat)
    requires k < |t| && c.Pipe?
    decreases |t|, 0
  {
    t[k] == Sym('|') && IsExec(c.left, t[..k]) && IsPipe(c.right, t[k + 1..])
  }

  // pipe { '&' }
  ghost predicate IsBacks(c: Cmd, t: seq<Token>)
    decreases |t|, 3
  {
    var n := |t|;
    IsPipe(c, t) || (c.Back? && n > 0 && t[n - 1] == Sym('&') && IsBacks(c.cmd, t[..n - 1]))
  }

  // line = pipe { '&' } [ ';' line ]
  ghost predicate IsLine(c: Cmd, t: seq<Token>)
    decreases |t|, 4
  {
    IsBacks(c, t) || (c.List? && exists k: nat :: k < |t| && ListAt(c, t, k))
  }

  ghost predicate ListAt(c: Cmd, t: seq<Token>, k: nat)
    requires k < |t| && c.List?
    decreases |t|, 0
  {
    t[k] == Sym(';') && IsBacks(c.left, t[..k]) && IsLine(c.right, t[k + 1..])
  }

  // No command has more arguments than the parser has room for.
  predicate Fits(c: Cmd) {
    match c
    case Exec(argv) => |argv| < MAXARGS
    case Redir(sub, _, _, _) => Fits(sub)
    case Pipe(l, r) => Fits(l) && Fits(r)
    case List(l, r) => Fits(l) && Fits(r)
    case Back(sub) => Fits(sub)
  }

  // ---------- the parser on tokens ----------

  datatype Parsed = Syntax | Parsed(cmd: Cmd, rest: seq<Token>)

  // A new argument of the exec node inside the redirections.
  function AddArg(c: Cmd, w: Token): Cmd {
    match c
    case Exec(argv) => Exec(argv + [w])
    case Redir(sub, file, mode, fd) => Redir(AddArg(sub, w), file, mode, fd)
    case _ => c
  }

  predicate EndsArgs(t: seq<Token>) { t == [] || t[0] in {Sym('|'), Sym(')'), Sym('&'), Sym(';')} }

  function PRedirs(c: Cmd, t: seq<Token>): (p: Parsed)
    ensures p.Parsed? ==> |p.rest| <= |t|
    decreases |t|
  {
    if t == [] || !Redirection(t[0]) then Parsed(c, t)
    else if |t| < 2 || !t[1].Word? then Syntax
    else PRedirs(WithRedir(c, t[0], t[1]), t[2..])
  }

  function PArgs(c: Cmd, argc: nat, t: seq<Token>): (p: Parsed)
    ensures p.Parsed? ==> |p.rest| <= |t|
    decreases |t|
  {
    if EndsArgs(t) then Parsed(c, t)
    else if !t[0].Word? || argc + 1 >= MAXARGS then Syntax
    else
      var p := PRedirs(AddArg(c, t[0]), t[1..]);
      if p.Syntax? then p else PArgs(p.cmd, argc + 1, p.rest)
  }

  function PItems(c: Cmd, argc: nat, t: seq<Token>): (p: Parsed)
    ensures p.Parsed? ==> |p.rest| <= |t|
  {
    var p := PRedirs(c, t);
    if p.Syntax? then p else PArgs(p.cmd, argc, p.rest)
  }

  function PExec(t: seq<Token>): (p: Parsed)
    ensures p.Parsed? ==> |p.rest| <= |t|
    decreases |t|, 1
  {
    if Begins(t, '(') then PBlock(t) else PItems(Exec([]), 0, t)
  }

  function PBlock(t: seq<Token>): (p: Parsed)
    requires Begins(t, '(')
    ensures p.Parsed? ==> |p.rest| <= |t|
    decreases |t|, 0
  {
    var p := PLine(t[1..]);
    if p.Syntax? || !Begins(p.rest, ')') then Syntax else PRedirs(p.cmd, p.rest[1..])
  }

  function PPipe(t: seq<Token>): (p: Parsed)
    ensures p.Parsed? ==> |p.rest| <= |t|
    decreases |t|, 2
  {
    var p := PExec(t);
    if p.Syntax? || !Begins(p.rest, '|') then p
    else
      var p' := PPipe(p.rest[1..]);
      if p'.Syntax? then p' else Parsed(Pipe(p.cmd, p'.cmd), p'.rest)
  }

  function PBacks(c: Cmd, t: seq<Token>): (p: Parsed)
    ensures p.Parsed? && |p.rest| <= |t|
    decreases |t|
  {
    if Begins(t, '&') then PBacks(Back(c), t[1..]) else Parsed(c, t)
  }

  function PJob(t: seq<Token>): (p: Parsed)
    ensures p.Parsed? ==> |p.rest| <= |t|
    decreases |t|, 3
  {
    var p := PPipe(t);
    if p.Syntax? then p else PBacks(p.cmd, p.rest)
  }

  function PLine(t: seq<Token>): (p: Parsed)
    ensures p.Parsed? ==> |p.rest| <= |t|
    decreases |t|, 4
  {
    var p := PJob(t);
    if p.Syntax? || !Begins(p.rest, ';') then p
    else
      var p' := PLine(p.rest[1..]);
      if p'.Syntax? then p' else Parsed(List(p.cmd, p'.cmd), p'.rest)
  }

  // ---------- every parse is a derivation ----------

  predicate Suffix(r: seq<Token>, t: seq<Token>) { |r| <= |t| && r == t[|t| - |r|..] }

  // What has been read of t when r is left.
  function Before(t: seq<Token>, r: seq<Token>): seq<Token>
    requires Suffix(r, t)
  {
    t[..|t| - |r|]
  }

  // Reading on: k tokens of what was left, then all but r.
  lemma ReadOn(t: seq<Token>, m: seq<Token>, k: nat, r: seq<Token>)
    requires Suffix(m, t) && k <= |m| && Suffix(r, m[k..])
    ensures Suffix(r, t) && Before(t, r) == Before(t, m) + m[..k] + Before(m[k..], r)
  {
  }

  lemma ReadItems(s: seq<Token>, u: seq<Token>, t1: seq<Token>, t: seq<Token>, r: seq<Token>)
    requires t == u + t1 && Suffix(r, t1)
    ensures Suffix(r, t) && s + Before(t, r) == s + u + Before(t1, r)
  {
  }

  lemma ReadNone(s: seq<Token>, t: seq<Token>)
    ensures Suffix(t, t) && s + Before(t, t) == s
  {
  }

  lemma {:induction false} ItemsMore(t: seq<Token>, u: seq<Token>)
    requires IsItems(t) && IsItems(u)
    ensures IsItems(t + u) && Args(t + u) == Args(t) + Args(u)
    ensures forall c :: Wrap(c, t + u) == Wrap(Wrap(c, t), u)
  {
    if t == [] {
      assert t + u == u;
    } else if t[0].Word? {
      assert (t + u)[1..] == t[1..] + u;
      ItemsMore(t[1..], u);
    } else {
      assert (t + u)[2..] == t[2..] + u;
      ItemsMore(t[2..], u);
    }
  }

  lemma {:induction false} AddArgWrap(c: Cmd, t: seq<Token>, w: Token)
    ensures AddArg(Wrap(c, t), w) == Wrap(AddArg(c, w), t)
    decreases |t|
  {
    if t == [] {
    } else if t[0].Word? {
      AddArgWrap(c, t[1..], w);
    } else if |t| > 1 {
      AddArgWrap(WithRedir(c, t[0], t[1]), t[2..], w);
    }
  }

  lemma {:induction false} RedirsSound(c: Cmd, t: seq<Token>)
    requires PRedirs(c, t).Parsed?
    ensures var p := PRedirs(c, t);
      && Suffix(p.rest, t) && IsItems(Before(t, p.rest)) && Args(Before(t, p.rest)) == []
      && p.cmd == Wrap(c, Before(t, p.rest))
    decreases |t|
  {
    var p := PRedirs(c, t);
    if t == [] || !Redirection(t[0]) {
    } else {
      RedirsSound(WithRedir(c, t[0], t[1]), t[2..]);
      ReadOn(t, t, 2, p.rest);
      var u := Before(t, p.rest);
      assert u[..2] == t[..2] && u[2..] == Before(t[2..], p.rest);
    }
  }

  lemma {:induction false} FitsWrap(c: Cmd, t: seq<Token>)
    ensures Fits(Wrap(c, t)) <==> Fits(c)
    decreases |t|
  {
    if t == [] {
    } else if t[0].Word? {
      FitsWrap(c, t[1..]);
    } else if |t| > 1 {
      FitsWrap(WithRedir(c, t[0], t[1]), t[2..]);
    }
  }

  // The exec node with its redirections, after the items s.
  function Simple(s: seq<Token>): Cmd { Wrap(Exec(Args(s)), s) }

  lemma SimpleRedirs(s: seq<Token>, u: seq<Token>)
    requires IsItems(s) && IsItems(u) && Args(u) == []
    ensures IsItems(s + u) && Args(s + u) == Args(s) && Simple(s + u) == Wrap(Simple(s), u)
  {
    ItemsMore(s, u);
    assert Args(s) + [] == Args(s);
  }

  lemma SimpleWord(s: seq<Token>, w: Token)
    requires IsItems(s) && w.Word?
    ensures IsItems(s + [w]) && |Args(s + [w])| == |Args(s)| + 1 && Simple(s + [w]) == AddArg(Simple(s), w)
  {
    ItemsMore(s, [w]);
    assert Args([w]) == [w];
    AddArgWrap(Exec(Args(s)), s, w);
    assert forall c :: Wrap(c, [w]) == c;
  }

  lemma SimpleRedir(s: seq<Token>, op: Token, file: Token)
    requires IsItems(s) && Redirection(op) && file.Word?
    ensures IsItems(s + [op, file]) && Args(s + [op, file]) == Args(s)
    ensures Simple(s + [op, file]) == WithRedir(Simple(s), op, file)
  {
    var u := [op, file];
    assert u[2..] == [] && Args(u[2..]) == [];
    SimpleRedirs(s, u);
  }

  // One item more.
  lemma ItemWord(c: Cmd, argc: nat, t: seq<Token>)
    requires t != [] && t[0].Word?
    ensures PItems(c, argc, t) ==
      if argc + 1 >= MAXARGS then Syntax else PItems(AddArg(c, t[0]), argc + 1, t[1..])
  {
  }

  lemma ItemRedir(c: Cmd, argc: nat, t: seq<Token>)
    requires t != [] && Redirection(t[0])
    ensures PItems(c, argc, t) ==
      if |t| < 2 || !t[1].Word? then Syntax else PItems(WithRedir(c, t[0], t[1]), argc, t[2..])
  {
  }

  lemma ItemNone(c: Cmd, argc: nat, t: seq<Token>)
    requires t == [] || !(t[0].Word? || Redirection(t[0]))
    ensures PItems(c, argc, t) == if EndsArgs(t) then Parsed(c, t) else Syntax
  {
  }

  lemma {:induction false} ItemsSound(s: seq<Token>, t: seq<Token>)
    requires IsItems(s) && PItems(Simple(s), |Args(s)|, t).Parsed? && |Args(s)| < MAXARGS
    ensures var p := PItems(Simple(s), |Args(s)|, t);
      && Suffix(p.rest, t) && IsSimple(p.cmd, s + Before(t, p.rest)) && Fits(p.cmd)
    decreases |t|
  {
    var p := PItems(Simple(s), |Args(s)|, t);
    hide PItems, Args, IsItems, Simple, IsSimple, Fits, AddArg, EndsArgs, Suffix, Before;
    if t != [] && t[0].Word? {
      ItemWord(Simple(s), |Args(s)|, t);
      SimpleWord(s, t[0]);
      ItemsSound(s + [t[0]], t[1..]);
      ReadItems(s, [t[0]], t[1..], t, p.rest);
    } else if t != [] && Redirection(t[0]) {
      ItemRedir(Simple(s), |Args(s)|, t);
      SimpleRedir(s, t[0], t[1]);
      ItemsSound(s + [t[0], t[1]], t[2..]);
      ReadItems(s, [t[0], t[1]], t[2..], t, p.rest);
    } else {
      ItemNone(Simple(s), |Args(s)|, t);
      ReadNone(s, t);
      SimpleFits(s);
    }
  }

  lemma SimpleFits(s: seq<Token>)
    requires IsItems(s)
    ensures IsSimple(Simple(s), s) && (Fits(Simple(s)) <==> |Args(s)| < MAXARGS)
  {
    FitsWrap(Exec(Args(s)), s);
  }

  lemma {:induction false} BlockWrap(c: Cmd, b: seq<Token>, u: seq<Token>)
    requires IsBlock(c, b) && IsItems(u) && Args(u) == []
    ensures IsBlock(Wrap(c, u), b + u)
    decreases |u|
  {
    if u == [] {
      assert b + u == b;
    } else {
      var b1 := b + u[..2];
      assert b1[..|b1| - 2] == b;
      BlockWrap(WithRedir(c, u[0], u[1]), b1, u[2..]);
      assert b1 + u[2..] == b + u;
    }
  }

  lemma BlockJoin(c: Cmd, inner: seq<Token>)
    requires IsLine(c, inner)
    ensures IsBlock(c, [Sym('(')] + inner + [Sym(')')])
  {
    var b := [Sym('(')] + inner + [Sym(')')];
    assert b[1..|b| - 1] == inner;
  }

  lemma PipeJoin(c: Cmd, d: Cmd, u: seq<Token>, v: seq<Token>)
    requires IsExec(c, u) && IsPipe(d, v)
    ensures IsPipe(Pipe(c, d), u + [Sym('|')] + v)
  {
    var t := u + [Sym('|')] + v;
    assert t[..|u|] == u && t[|u| + 1..] == v;
    assert PipeAt(Pipe(c, d), t, |u|);
  }

  lemma BackJoin(c: Cmd, u: seq<Token>)
    requires IsBacks(c, u)
    ensures IsBacks(Back(c), u + [Sym('&')])
  {
    var t := u + [Sym('&')];
    assert t[..|t| - 1] == u;
  }

  lemma ListJoin(c: Cmd, d: Cmd, u: seq<Token>, v: seq<Token>)
    requires IsBacks(c, u) && IsLine(d, v)
    ensures IsLine(List(c, d), u + [Sym(';')] + v)
  {
    var t := u + [Sym(';')] + v;
    assert t[..|u|] == u && t[|u| + 1..] == v;
    assert ListAt(List(c, d), t, |u|);
  }

  lemma {:induction false} BlockSound(t: seq<Token>)
    requires Begins(t, '(') && PBlock(t).Parsed?
    ensures var p := PBlock(t); Suffix(p.rest, t) && IsBlock(p.cmd, Before(t, p.rest)) && Fits(p.cmd)
    decreases |t|, 0
  {
    var p, p1 := PBlock(t), PLine(t[1..]);
    LineSound(t[1..]);
    RedirsSound(p1.cmd, p1.rest[1..]);
    hide PLine, PRedirs, IsLine, IsBlock, Fits, Wrap, IsItems, Args, Suffix, Before;
    BlockJoin(p1.cmd, Before(t[1..], p1.rest));
    var u := Before(p1.rest[1..], p.rest);
    BlockWrap(p1.cmd, [Sym('(')] + Before(t[1..], p1.rest) + [Sym(')')], u);
    FitsWrap(p1.cmd, u);
    ReadBlock(t, p1.rest, p.rest);
  }

  lemma ReadBlock(t: seq<Token>, m: seq<Token>, r: seq<Token>)
    requires Begins(t, '(') && Suffix(m, t[1..]) && Begins(m, ')') && Suffix(r, m[1..])
    ensures Suffix(r, t)
    ensures Before(t, r) == [Sym('(')] + Before(t[1..], m) + [Sym(')')] + Before(m[1..], r)
  {
    ReadOn(t[1..], m, 1, r);
    ReadOn(t, t, 1, r);
  }

  lemma {:induction false} ExecSound(t: seq<Token>)
    requires PExec(t).Parsed?
    ensures var p := PExec(t); Suffix(p.rest, t) && IsExec(p.cmd, Before(t, p.rest)) && Fits(p.cmd)
    decreases |t|, 1
  {
    if Begins(t, '(') {
      BlockSound(t);
    } else {
      ItemsSound([], t);
      var p := PExec(t);
      assert [] + Before(t, p.rest) == Before(t, p.rest);
    }
  }

  lemma {:induction false} PipeSound(t: seq<Token>)
    requires PPipe(t).Parsed?
    ensures var p := PPipe(t); Suffix(p.rest, t) && IsPipe(p.cmd, Before(t, p.rest)) && Fits(p.cmd)
    decreases |t|, 2
  {
    var p, p1 := PPipe(t), PExec(t);
    ExecSound(t);
    if Begins(p1.rest, '|') {
      var p2 := PPipe(p1.rest[1..]);
      PipeSound(p1.rest[1..]);
      PipeJoin(p1.cmd, p2.cmd, Before(t, p1.rest), Before(p1.rest[1..], p.rest));
      hide PExec, IsPipe, IsExec, Suffix, Before;
      ReadOn(t, p1.rest, 1, p.rest);
      assert p1.rest[..1] == [Sym('|')];
    }
  }

  lemma {:induction false} BacksSound(c: Cmd, u: seq<Token>, t: seq<Token>)
    requires IsBacks(c, u) && Fits(c)
    ensures var p := PBacks(c, t); Suffix(p.rest, t) && IsBacks(p.cmd, u + Before(t, p.rest)) && Fits(p.cmd)
    decreases |t|
  {
    var p := PBacks(c, t);
    if Begins(t, '&') {
      var u1 := u + [t[0]];
      BackJoin(c, u);
      BacksSound(Back(c), u1, t[1..]);
      assert u + Before(t, p.rest) == u1 + Before(t[1..], p.rest);
    } else {
      assert u + Before(t, t) == u;
    }
  }

  lemma PipeIsBacks(c: Cmd, u: seq<Token>)
    requires IsPipe(c, u)
    ensures IsBacks(c, u)
  {
  }

  lemma JobSound(t: seq<Token>)
    requires PJob(t).Parsed?
    ensures var p := PJob(t); Suffix(p.rest, t) && IsBacks(p.cmd, Before(t, p.rest)) && Fits(p.cmd)
    decreases |t|, 3
  {
    var p, p0 := PJob(t), PPipe(t);
    PipeSound(t);
    PipeIsBacks(p0.cmd, Before(t, p0.rest));
    hide PPipe, IsBacks, IsPipe, PBacks, Fits;
    BacksSound(p0.cmd, Before(t, p0.rest), p0.rest);
    ReadOn(t, p0.rest, 0, p.rest);
    assert Before(t, p.rest) == Before(t, p0.rest) + Before(p0.rest, p.rest);
  }

  // An accepted line is derived by the grammar, with the tree the parser
  // builds.
  lemma {:induction false} LineSound(t: seq<Token>)
    requires PLine(t).Parsed?
    ensures var p := PLine(t); Suffix(p.rest, t) && IsLine(p.cmd, Before(t, p.rest)) && Fits(p.cmd)
    decreases |t|, 4
  {
    var p, p1 := PLine(t), PJob(t);
    JobSound(t);
    if Begins(p1.rest, ';') {
      var p2 := PLine(p1.rest[1..]);
      LineSound(p1.rest[1..]);
      hide PJob, IsLine, IsBacks, Suffix, Before;
      ListJoin(p1.cmd, p2.cmd, Before(t, p1.rest), Before(p1.rest[1..], p.rest));
      ReadOn(t, p1.rest, 1, p.rest);
      assert p1.rest[..1] == [Sym(';')];
    }
  }

  // ---------- every derivation is parsed ----------

  lemma {:induction false} RedirsComplete(c: Cmd, u: seq<Token>, rest: seq<Token>)
    requires IsItems(u) && Args(u) == []
    ensures PRedirs(c, u + rest) == PRedirs(Wrap(c, u), rest)
    decreases |u|
  {
    if u == [] {
      assert u + rest == rest;
    } else {
      assert (u + rest)[2..] == u[2..] + rest;
      RedirsComplete(WithRedir(c, u[0], u[1]), u[2..], rest);
    }
  }

  lemma {:induction false} ItemsComplete(s: seq<Token>, u: seq<Token>, rest: seq<Token>)
    requires IsItems(s) && IsItems(u) && EndsArgs(rest) && |Args(s)| + |Args(u)| < MAXARGS
    ensures PItems(Simple(s), |Args(s)|, u + rest) == Parsed(Simple(s + u), rest)
    decreases |u|
  {
    hide PItems, Simple, AddArg;
    var t := u + rest;
    if u == [] {
      assert t == rest && s + u == s;
      ItemNone(Simple(s), |Args(s)|, t);
    } else if u[0].Word? {
      var s1 := s + [u[0]];
      SimpleWord(s, u[0]);
      ItemWord(Simple(s), |Args(s)|, t);
      ItemsComplete(s1, u[1..], rest);
      assert t[1..] == u[1..] + rest && s1 + u[1..] == s + u;
    } else {
      var s1 := s + [u[0], u[1]];
      SimpleRedir(s, u[0], u[1]);
      ItemRedir(Simple(s), |Args(s)|, t);
      ItemsComplete(s1, u[2..], rest);
      assert t[2..] == u[2..] + rest && s1 + u[2..] == s + u;
    }
  }

  lemma {:induction false} BlockComplete(c: Cmd, u: seq<Token>, rest: seq<Token>)
    requires IsBlock(c, u) && Fits(c)
    ensures Begins(u + rest, '(') && PBlock(u + rest) == PRedirs(c, rest)
    decreases |u|, 0
  {
    var n := |u|;
    if u[0] == Sym('(') && u[n - 1] == Sym(')') && IsLine(c, u[1..n - 1]) {
      var after := [u[n - 1]] + rest;
      LineComplete(c, u[1..n - 1], after);
      assert (u + rest)[1..] == u[1..n - 1] + after;
      assert after[1..] == rest;
    } else {
      var after := u[n - 2..] + rest;
      BlockComplete(c.cmd, u[..n - 2], after);
      assert u[..n - 2] + after == u + rest;
      assert after[2..] == rest;
    }
  }

  lemma {:induction false} ExecComplete(c: Cmd, u: seq<Token>, rest: seq<Token>)
    requires IsExec(c, u) && Fits(c) && EndsArgs(rest)
    ensures PExec(u + rest) == Parsed(c, rest)
    decreases |u|, 1
  {
    if IsBlock(c, u) {
      BlockComplete(c, u, rest);
    } else {
      FitsWrap(Exec(Args(u)), u);
      ItemsComplete([], u, rest);
      assert [] + u == u;
    }
  }

  lemma {:induction false} PipeComplete(c: Cmd, u: seq<Token>, rest: seq<Token>)
    requires IsPipe(c, u) && Fits(c) && EndsArgs(rest) && !Begins(rest, '|')
    ensures PPipe(u + rest) == Parsed(c, rest)
    decreases |u|, 2
  {
    if IsExec(c, u) {
      ExecComplete(c, u, rest);
    } else {
      var k: nat :| k < |u| && PipeAt(c, u, k);
      var after := u[k..] + rest;
      ExecComplete(c.left, u[..k], after);
      PipeComplete(c.right, u[k + 1..], rest);
      assert u[..k] + after == u + rest && after[1..] == u[k + 1..] + rest;
    }
  }

  lemma {:induction false} BacksComplete(c: Cmd, u: seq<Token>, rest: seq<Token>)
    requires IsBacks(c, u) && Fits(c) && EndsArgs(rest) && !Begins(rest, '|')
    ensures PJob(u + rest) == PBacks(c, rest)
    decreases |u|, 3
  {
    if IsPipe(c, u) {
      PipeComplete(c, u, rest);
    } else {
      var n := |u|;
      var after := [u[n - 1]] + rest;
      BacksComplete(c.cmd, u[..n - 1], after);
      assert u[..n - 1] + after == u + rest && after[1..] == rest;
    }
  }

  // A line that the grammar derives is accepted, and with that tree.
  lemma {:induction false} LineComplete(c: Cmd, u: seq<Token>, rest: seq<Token>)
    requires IsLine(c, u) && Fits(c) && (rest == [] || rest[0] == Sym(')'))
    ensures PLine(u + rest) == Parsed(c, rest)
    decreases |u|, 4
  {
    if IsBacks(c, u) {
      BacksComplete(c, u, rest);
    } else {
      var k: nat :| k < |u| && ListAt(c, u, k);
      var after := u[k..] + rest;
      BacksComplete(c.left, u[..k], after);
      LineComplete(c.right, u[k + 1..], rest);
      assert u[..k] + after == u + rest && after[1..] == u[k + 1..] + rest;
    }
  }

  // parsecmd accepts exactly the lines of the grammar whose commands fit, and
  // no line has two trees.
  lemma ParsesGrammar(t: seq<Token>, c: Cmd)
    ensures PLine(t) == Parsed(c, []) <==> IsLine(c, t) && Fits(c)
  {
    if PLine(t) == Parsed(c, []) {
      LineSound(t);
      assert t[..|t| - 0] == t;
    }
    if IsLine(c, t) && Fits(c) {
      LineComplete(c, t, []);
      assert t + [] == t;
    }
  }

  lemma Unambiguous(t: seq<Token>, c: Cmd, d: Cmd)
    requires IsLine(c, t) && IsLine(d, t) && Fits(c) && Fits(d)
    ensures c == d
  {
    ParsesGrammar(t, c);
    ParsesGrammar(t, d);
  }
}
