/** The command language of user/sh.c over tokens: trees, the grammar, and printing. */
module ShellGrammar {

  const MAXARGS: nat := 10

  /** '+' stands for >>. */
  datatype Token<W> = Word(w: W) | Sym(c: char)

  /** How a redirection opens its file: O_RDONLY as 0, or for writing as 1 with or without O_TRUNC. */
  datatype Mode = Read | Truncate | Append

  datatype Cmd<W> =
    | Exec(argv: seq<W>)
    | Redir(cmd: Cmd<W>, file: W, mode: Mode)
    | Pipe(left: Cmd<W>, right: Cmd<W>)
    | List(left: Cmd<W>, right: Cmd<W>)
    | Back(cmd: Cmd<W>)

  datatype Error = MissingFile | MissingParen | Syntax | TooManyArgs | Leftovers

  datatype Parsed<W> = Ok(cmd: Cmd<W>, rest: seq<Token<W>>) | Fail(error: Error)

  /** The next token is a symbol that starts with one of these characters. */
  predicate Sees<W>(toks: seq<Token<W>>, cs: string) {
    toks != [] && toks[0].Sym? && FirstChar(toks[0].c) in cs
  }

  function FirstChar(c: char): char {
    if c == '+' then '>' else c
  }

  function ModeOf(c: char): Mode {
    if c == '<' then Read else if c == '>' then Truncate else Append
  }

  function SymOf(m: Mode): char {
    match m case Read => '<' case Truncate => '>' case Append => '+'
  }

  // ---------------------------------------------------------------- the grammar

  function Redirs<W>(cmd: Cmd<W>, toks: seq<Token<W>>): (p: Parsed<W>)
    ensures p.Ok? ==> |p.rest| <= |toks|
    decreases |toks|
  {
    if !Sees(toks, "<>") then Ok(cmd, toks)
    else if |toks| < 2 || !toks[1].Word? then Fail(MissingFile)
    else Redirs(Redir(cmd, toks[1].w, ModeOf(toks[0].c)), toks[2..])
  }

  /** One more argument for the command at the bottom of a chain of redirections. */
  function AddArg<W>(cmd: Cmd<W>, w: W): Cmd<W> {
    match cmd
    case Exec(argv) => Exec(argv + [w])
    case Redir(c, file, mode) => Redir(AddArg(c, w), file, mode)
    case _ => cmd
  }

  function Argc<W>(cmd: Cmd<W>): nat {
    match cmd
    case Exec(argv) => |argv|
    case Redir(c, _, _) => Argc(c)
    case _ => 0
  }

  function Args<W>(cmd: Cmd<W>, toks: seq<Token<W>>): (p: Parsed<W>)
    ensures p.Ok? ==> |p.rest| <= |toks|
    decreases |toks|
  {
    if toks == [] || Sees(toks, "|)&;") then Ok(cmd, toks)
    else if !toks[0].Word? then Fail(Syntax)
    else if Argc(AddArg(cmd, toks[0].w)) >= MAXARGS then Fail(TooManyArgs)
    else
      match Redirs(AddArg(cmd, toks[0].w), toks[1..])
      case Fail(e) => Fail(e)
      case Ok(c, rest) => Args(c, rest)
  }

  function Simple<W>(toks: seq<Token<W>>): (p: Parsed<W>)
    ensures p.Ok? ==> |p.rest| <= |toks|
  {
    match Redirs(Exec([]), toks)
    case Fail(e) => Fail(e)
    case Ok(c, rest) => Args(c, rest)
  }

  function Block<W>(toks: seq<Token<W>>): (p: Parsed<W>)
    requires Sees(toks, "(")
    ensures p.Ok? ==> |p.rest| <= |toks|
    decreases |toks|, 0
  {
    match Line(toks[1..])
    case Fail(e) => Fail(e)
    case Ok(c, rest) => if Sees(rest, ")") then Redirs(c, rest[1..]) else Fail(MissingParen)
  }

  function Operand<W>(toks: seq<Token<W>>): (p: Parsed<W>)
    ensures p.Ok? ==> |p.rest| <= |toks|
    decreases |toks|, 1
  {
    if Sees(toks, "(") then Block(toks) else Simple(toks)
  }

  function Pipeline<W>(toks: seq<Token<W>>): (p: Parsed<W>)
    ensures p.Ok? ==> |p.rest| <= |toks|
    decreases |toks|, 2
  {
    match Operand(toks)
    case Fail(e) => Fail(e)
    case Ok(c, rest) =>
      if !Sees(rest, "|") then Ok(c, rest)
      else
        match Pipeline(rest[1..])
        case Fail(e) => Fail(e)
        case Ok(right, rest') => Ok(Pipe(c, right), rest')
  }

  function Backs<W>(cmd: Cmd<W>, toks: seq<Token<W>>): (p: Parsed<W>)
    ensures p.Ok? && |p.rest| <= |toks|
    decreases |toks|
  {
    if Sees(toks, "&") then Backs(Back(cmd), toks[1..]) else Ok(cmd, toks)
  }

  function Line<W>(toks: seq<Token<W>>): (p: Parsed<W>)
    ensures p.Ok? ==> |p.rest| <= |toks|
    decreases |toks|, 3
  {
    match Pipeline(toks)
    case Fail(e) => Fail(e)
    case Ok(c, rest) =>
      var b := Backs(c, rest);
      if !Sees(b.rest, ";") then b
      else
        match Line(b.rest[1..])
        case Fail(e) => Fail(e)
        case Ok(right, rest') => Ok(List(b.cmd, right), rest')
  }

  /** A whole input. */
  function Command<W>(toks: seq<Token<W>>): Parsed<W> {
    match Line(toks)
    case Fail(e) => Fail(e)
    case Ok(c, rest) => if rest == [] then Ok(c, []) else Fail(Leftovers)
  }

  // ---------------------------------------------------------------- printing

  function Words<W>(argv: seq<W>): seq<Token<W>> {
    if argv == [] then [] else [Word(argv[0])] + Words(argv[1..])
  }

  /** A command as an operand of |, parenthesised unless it is simple. */
  function PrintOperand<W>(t: Cmd<W>): seq<Token<W>>
    decreases t, if t.Exec? || t.Redir? then 0 else 4
  {
    match t
    case Exec(argv) => Words(argv)
    case Redir(c, file, mode) => PrintOperand(c) + [Sym(SymOf(mode)), Word(file)]
    case _ => [Sym('(')] + PrintLine(t) + [Sym(')')]
  }

  function PrintPipe<W>(t: Cmd<W>): seq<Token<W>>
    decreases t, if t.List? || t.Back? then 5 else 1
  {
    match t
    case Pipe(l, r) => PrintOperand(l) + [Sym('|')] + PrintPipe(r)
    case _ => PrintOperand(t)
  }

  function PrintBack<W>(t: Cmd<W>): seq<Token<W>>
    decreases t, if t.List? then 5 else 2
  {
    match t
    case Back(c) => PrintBack(c) + [Sym('&')]
    case List(_, _) => PrintOperand(t)
    case _ => PrintPipe(t)
  }

  function PrintLine<W>(t: Cmd<W>): seq<Token<W>>
    decreases t, 3
  {
    match t
    case List(l, r) => PrintBack(l) + [Sym(';')] + PrintLine(r)
    case _ => PrintBack(t)
  }
}
