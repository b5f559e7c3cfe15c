/** Parsing the printed form of a command gives the command back. */
module ShellRoundTrip {
  import opened ShellGrammar

  predicate Fits<W>(t: Cmd<W>) {
    match t
    case Exec(argv) => |argv| < MAXARGS
    case Redir(c, _, _) => Fits(c)
    case Pipe(l, r) => Fits(l) && Fits(r)
    case List(l, r) => Fits(l) && Fits(r)
    case Back(c) => Fits(c)
  }

  /** A command under a chain of redirections, the first one innermost. */
  function Chain<W>(base: Cmd<W>, rs: seq<(W, Mode)>): Cmd<W>
    decreases |rs|
  {
    if rs == [] then base else Chain(Redir(base, rs[0].0, rs[0].1), rs[1..])
  }

  function RedirTokens<W>(rs: seq<(W, Mode)>): seq<Token<W>> {
    if rs == [] then [] else [Sym(SymOf(rs[0].1)), Word(rs[0].0)] + RedirTokens(rs[1..])
  }

  lemma {:induction false} RedirsOfTokens<W>(c: Cmd<W>, rs: seq<(W, Mode)>, rest: seq<Token<W>>)
    requires !Sees(rest, "<>")
    ensures Redirs(c, RedirTokens(rs) + rest) == Ok(Chain(c, rs), rest)
    decreases |rs|
  {
    if rs == [] {
      assert RedirTokens(rs) + rest == rest;
    } else {
      var toks := RedirTokens(rs) + rest;
      assert toks[2..] == RedirTokens(rs[1..]) + rest;
      assert Sees(toks, "<>") && ModeOf(toks[0].c) == rs[0].1;
      RedirsOfTokens(Redir(c, rs[0].0, rs[0].1), rs[1..], rest);
    }
  }

  /** What may follow an operand: nothing, or something that ends it. */
  predicate Ends<W>(rest: seq<Token<W>>) {
    rest == [] || Sees(rest, "|)&;")
  }

  lemma LastArg<W>(a: seq<W>, w: W, rs: seq<(W, Mode)>, rest: seq<Token<W>>)
    requires |a| + 1 < MAXARGS && Ends(rest)
    ensures Args(Exec(a), [Word(w)] + (RedirTokens(rs) + rest)) == Ok(Chain(Exec(a + [w]), rs), rest)
  {
    var toks := [Word(w)] + (RedirTokens(rs) + rest);
    assert toks[1..] == RedirTokens(rs) + rest;
    RedirsOfTokens(Exec(a + [w]), rs, rest);
  }

  lemma Join3<T>(a: seq<T>, b: seq<T>, c: seq<T>)
    ensures a + b + c == a + (b + c)
  {
  }

  lemma OneArg<W>(a: seq<W>, w: W, tail: seq<Token<W>>)
    requires |a| + 1 < MAXARGS && tail != [] && tail[0].Word?
    ensures Args(Exec(a), [Word(w)] + tail) == Args(Exec(a + [w]), tail)
  {
    var toks := [Word(w)] + tail;
    assert toks[1..] == tail;
  }

  lemma {:induction false} ArgsOfWords<W>(a: seq<W>, b: seq<W>, rs: seq<(W, Mode)>, rest: seq<Token<W>>)
    requires |a| + |b| < MAXARGS && Ends(rest) && b != []
    ensures Args(Exec(a), Words(b) + (RedirTokens(rs) + rest)) == Ok(Chain(Exec(a + b), rs), rest)
    decreases |b|
  {
    var after := RedirTokens(rs) + rest;
    if |b| == 1 {
      assert b == [b[0]] && Words(b) == [Word(b[0])];
      LastArg(a, b[0], rs, rest);
    } else {
      var tail := Words(b[1..]) + after;
      Join3([Word(b[0])], Words(b[1..]), after);
      OneArg(a, b[0], tail);
      ArgsOfWords(a + [b[0]], b[1..], rs, rest);
      assert a + [b[0]] + b[1..] == a + b;
    }
  }

  lemma SimpleOfTokens<W>(argv: seq<W>, rs: seq<(W, Mode)>, rest: seq<Token<W>>)
    requires |argv| < MAXARGS && Ends(rest)
    ensures Simple(Words(argv) + (RedirTokens(rs) + rest)) == Ok(Chain(Exec(argv), rs), rest)
    ensures !Sees(Words(argv) + (RedirTokens(rs) + rest), "(")
  {
    var toks := Words(argv) + (RedirTokens(rs) + rest);
    if argv == [] {
      assert toks == RedirTokens(rs) + rest;
      RedirsOfTokens(Exec(argv), rs, rest);
    } else {
      assert toks[0] == Word(argv[0]);
      ArgsOfWords([], argv, rs, rest);
      assert [] + argv == argv;
    }
  }

  // ---------------------------------------------------------------- operands

  function Base<W>(t: Cmd<W>): Cmd<W> {
    if t.Redir? then Base(t.cmd) else t
  }

  function RedirsOf<W>(t: Cmd<W>): seq<(W, Mode)> {
    if t.Redir? then RedirsOf(t.cmd) + [(t.file, t.mode)] else []
  }

  lemma {:induction false} ChainMore<W>(c: Cmd<W>, rs: seq<(W, Mode)>, r: (W, Mode))
    ensures Chain(c, rs + [r]) == Redir(Chain(c, rs), r.0, r.1)
    ensures RedirTokens(rs + [r]) == RedirTokens(rs) + [Sym(SymOf(r.1)), Word(r.0)]
    decreases |rs|
  {
    if rs == [] {
      assert rs + [r] == [r] && [r][1..] == [];
    } else {
      assert (rs + [r])[1..] == rs[1..] + [r];
      ChainMore(Redir(c, rs[0].0, rs[0].1), rs[1..], r);
    }
  }

  /** Every tree is its base under its redirections, and prints that way. */
  lemma {:induction false} OperandForm<W>(t: Cmd<W>)
    ensures t == Chain(Base(t), RedirsOf(t)) && !Base(t).Redir?
    ensures PrintOperand(t) == PrintOperand(Base(t)) + RedirTokens(RedirsOf(t))
    ensures Fits(t) ==> Fits(Base(t))
  {
    if t.Redir? {
      OperandForm(t.cmd);
      ChainMore(Base(t), RedirsOf(t.cmd), (t.file, t.mode));
    }
  }

  lemma BlockOfTokens<W>(b: Cmd<W>, inner: seq<Token<W>>, rs: seq<(W, Mode)>, rest: seq<Token<W>>)
    requires Ends(rest)
    requires Line(inner + ([Sym(')')] + (RedirTokens(rs) + rest))) == Ok(b, [Sym(')')] + (RedirTokens(rs) + rest))
    ensures Operand([Sym('(')] + (inner + ([Sym(')')] + (RedirTokens(rs) + rest)))) == Ok(Chain(b, rs), rest)
  {
    var after := [Sym(')')] + (RedirTokens(rs) + rest);
    var toks := [Sym('(')] + (inner + after);
    assert toks[1..] == inner + after && after[1..] == RedirTokens(rs) + rest;
    RedirsOfTokens(b, rs, rest);
  }

  lemma {:induction false} OperandRoundTrip<W>(t: Cmd<W>, rest: seq<Token<W>>)
    requires Fits(t) && Ends(rest)
    ensures Operand(PrintOperand(t) + rest) == Ok(t, rest)
    decreases t, if t.Exec? || t.Redir? then 0 else 4
  {
    OperandForm(t);
    var b, rs := Base(t), RedirsOf(t);
    var toks := PrintOperand(t) + rest;
    if b.Exec? {
      assert toks == Words(b.argv) + (RedirTokens(rs) + rest);
      SimpleOfTokens(b.argv, rs, rest);
    } else {
      var after := [Sym(')')] + (RedirTokens(rs) + rest);
      BaseIsBelow(t);
      LineRoundTrip(b, after);
      assert toks == [Sym('(')] + (PrintLine(b) + after);
      BlockOfTokens(b, PrintLine(b), rs, rest);
    }
  }

  lemma {:induction false} BaseIsBelow<W>(t: Cmd<W>)
    ensures Base(t) == t || (t.Redir? && Base(t) < t)
  {
    if t.Redir? {
      BaseIsBelow(t.cmd);
    }
  }

  lemma {:induction false} PipeRoundTrip<W>(t: Cmd<W>, rest: seq<Token<W>>)
    requires Fits(t) && (rest == [] || Sees(rest, ")&;"))
    ensures Pipeline(PrintPipe(t) + rest) == Ok(t, rest)
    decreases t, if t.List? || t.Back? then 5 else 1
  {
    if t.Pipe? {
      var after := [Sym('|')] + PrintPipe(t.right) + rest;
      OperandRoundTrip(t.left, after);
      assert PrintPipe(t) + rest == PrintOperand(t.left) + after;
      assert after[1..] == PrintPipe(t.right) + rest;
      PipeRoundTrip(t.right, rest);
    } else {
      OperandRoundTrip(t, rest);
    }
  }

  /** pipeline, then its ampersands. */
  function Backed<W>(toks: seq<Token<W>>): Parsed<W> {
    match Pipeline(toks)
    case Fail(e) => Fail(e)
    case Ok(c, rest) => Backs(c, rest)
  }

  lemma {:induction false} BackRoundTrip<W>(t: Cmd<W>, rest: seq<Token<W>>)
    requires Fits(t) && (rest == [] || Sees(rest, ")&;"))
    ensures Backed(PrintBack(t) + rest) == Backs(t, rest)
    decreases t, if t.List? then 5 else 2
  {
    if t.Back? {
      var after := [Sym('&')] + rest;
      assert PrintBack(t) + rest == PrintBack(t.cmd) + after;
      BackRoundTrip(t.cmd, after);
      assert after[1..] == rest;
    } else if t.List? {
      OperandRoundTrip(t, rest);
    } else {
      PipeRoundTrip(t, rest);
    }
  }

  lemma {:induction false} LineRoundTrip<W>(t: Cmd<W>, rest: seq<Token<W>>)
    requires Fits(t) && (rest == [] || Sees(rest, ")"))
    ensures Line(PrintLine(t) + rest) == Ok(t, rest)
    decreases t, 3
  {
    if t.List? {
      var after := [Sym(';')] + PrintLine(t.right) + rest;
      assert PrintLine(t) + rest == PrintBack(t.left) + after;
      BackRoundTrip(t.left, after);
      assert after[1..] == PrintLine(t.right) + rest;
      LineRoundTrip(t.right, rest);
    } else {
      BackRoundTrip(t, rest);
    }
  }

  lemma CommandRoundTrip<W>(t: Cmd<W>)
    requires Fits(t)
    ensures Command(PrintLine(t)) == Ok(t, [])
  {
    assert PrintLine(t) + [] == PrintLine(t);
    LineRoundTrip(t, []);
  }
}
