/** Tokens as spans of a text: the scanner, and the text a command prints as. */
module ShellText {
  import opened ShellGrammar
  import opened ShellRoundTrip

  const NUL := '\0'

  /** Positions q to eq of the text. */
  datatype Span = Span(q: nat, eq: nat)

  predicate IsSpace(c: char) {
    c == ' ' || c == '\t' || c == '\r' || c == '\n' || c == '\U{B}'
  }

  predicate IsSymbol(c: char) {
    c == '<' || c == '|' || c == '>' || c == '&' || c == ';' || c == '(' || c == ')'
  }

  predicate InWord(c: char) {
    !IsSpace(c) && !IsSymbol(c)
  }

  function SkipSpace(text: string, pos: nat): (s: nat)
    requires pos <= |text|
    ensures pos <= s <= |text|
    decreases |text| - pos
  {
    if pos < |text| && IsSpace(text[pos]) then SkipSpace(text, pos + 1) else pos
  }

  function WordEnd(text: string, pos: nat): (s: nat)
    requires pos <= |text|
    ensures pos <= s <= |text|
    decreases |text| - pos
  {
    if pos < |text| && InWord(text[pos]) then WordEnd(text, pos + 1) else pos
  }

  /** The token that starts at position s, which is not white space. */
  function TokenAt(text: string, s: nat): Token<Span>
    requires s < |text|
  {
    if InWord(text[s]) then Word(Span(s, WordEnd(text, s)))
    else if text[s] == '>' && s + 1 < |text| && text[s + 1] == '>' then Sym('+')
    else Sym(text[s])
  }

  function TokenEnd(text: string, s: nat): (e: nat)
    requires s < |text|
    ensures s < e <= |text|
  {
    if InWord(text[s]) then WordEnd(text, s)
    else if text[s] == '>' && s + 1 < |text| && text[s + 1] == '>' then s + 2
    else s + 1
  }

  function Lex(text: string, pos: nat): seq<Token<Span>>
    requires pos <= |text|
    decreases |text| - pos
  {
    var s := SkipSpace(text, pos);
    if s == |text| then [] else [TokenAt(text, s)] + Lex(text, TokenEnd(text, s))
  }

  lemma {:induction false} SkipTwice(text: string, pos: nat)
    requires pos <= |text|
    ensures SkipSpace(text, SkipSpace(text, pos)) == SkipSpace(text, pos)
    ensures SkipSpace(text, pos) < |text| ==> !IsSpace(text[SkipSpace(text, pos)])
    ensures Lex(text, SkipSpace(text, pos)) == Lex(text, pos)
    decreases |text| - pos
  {
    if pos < |text| && IsSpace(text[pos]) {
      SkipTwice(text, pos + 1);
    }
  }

  // ---------------------------------------------------------------- words

  /** A maximal run of word characters. */
  predicate WordOk(text: string, w: Span) {
    && w.q < w.eq <= |text| && (w.eq < |text| ==> !InWord(text[w.eq]))
    && forall k: nat :: w.q <= k < w.eq ==> InWord(text[k])
  }

  lemma {:induction false} WordEndIs(text: string, s: nat)
    requires s <= |text|
    ensures forall k: nat :: s <= k < WordEnd(text, s) ==> InWord(text[k])
    ensures WordEnd(text, s) < |text| ==> !InWord(text[WordEnd(text, s)])
    decreases |text| - s
  {
    if s < |text| && InWord(text[s]) {
      WordEndIs(text, s + 1);
    }
  }

  predicate TokensOk(text: string, toks: seq<Token<Span>>) {
    forall k: nat :: k < |toks| && toks[k].Word? ==> WordOk(text, toks[k].w)
  }

  lemma {:induction false} LexOk(text: string, pos: nat)
    requires pos <= |text|
    ensures TokensOk(text, Lex(text, pos))
    decreases |text| - pos
  {
    var s := SkipSpace(text, pos);
    if s >= |text| {
    } else {
      WordEndIs(text, s);
      LexOk(text, TokenEnd(text, s));
    }
  }

  // ---------------------------------------------------------------- reading spans as strings

  function Spell(text: string, w: Span): string {
    if w.q <= w.eq <= |text| then text[w.q..w.eq] else ""
  }

  function ReadToken(text: string, t: Token<Span>): Token<string> {
    if t.Word? then Word(Spell(text, t.w)) else Sym(t.c)
  }

  function ReadTokens(text: string, toks: seq<Token<Span>>): (r: seq<Token<string>>)
    ensures |r| == |toks|
  {
    if toks == [] then [] else [ReadToken(text, toks[0])] + ReadTokens(text, toks[1..])
  }

  function ReadArgs(text: string, argv: seq<Span>): (r: seq<string>)
    ensures |r| == |argv|
  {
    seq(|argv|, k requires 0 <= k < |argv| => Spell(text, argv[k]))
  }

  function ReadCmd(text: string, cmd: Cmd<Span>): Cmd<string> {
    match cmd
    case Exec(argv) => Exec(ReadArgs(text, argv))
    case Redir(c, file, mode) => Redir(ReadCmd(text, c), Spell(text, file), mode)
    case Pipe(l, r) => Pipe(ReadCmd(text, l), ReadCmd(text, r))
    case List(l, r) => List(ReadCmd(text, l), ReadCmd(text, r))
    case Back(c) => Back(ReadCmd(text, c))
  }

  function ReadParsed(text: string, p: Parsed<Span>): Parsed<string> {
    match p
    case Ok(c, rest) => Ok(ReadCmd(text, c), ReadTokens(text, rest))
    case Fail(e) => Fail(e)
  }

  predicate CmdOk(text: string, cmd: Cmd<Span>) {
    match cmd
    case Exec(argv) => forall k: nat :: k < |argv| ==> WordOk(text, argv[k])
    case Redir(c, file, _) => CmdOk(text, c) && WordOk(text, file)
    case Pipe(l, r) => CmdOk(text, l) && CmdOk(text, r)
    case List(l, r) => CmdOk(text, l) && CmdOk(text, r)
    case Back(c) => CmdOk(text, c)
  }

  predicate ParsedOk(text: string, p: Parsed<Span>) {
    p.Ok? ==> CmdOk(text, p.cmd) && TokensOk(text, p.rest)
  }

  lemma {:induction false} ReadTail(text: string, toks: seq<Token<Span>>, k: nat)
    requires k <= |toks|
    ensures ReadTokens(text, toks)[k..] == ReadTokens(text, toks[k..])
    ensures TokensOk(text, toks) ==> TokensOk(text, toks[k..])
    decreases k
  {
    if k == 0 {
      assert toks[0..] == toks && ReadTokens(text, toks)[0..] == ReadTokens(text, toks);
    } else {
      ReadTail(text, toks[1..], k - 1);
      assert toks[k..] == toks[1..][k - 1..] && ReadTokens(text, toks)[k..] == ReadTokens(text, toks[1..])[k - 1..];
    }
  }

  lemma ReadAt(text: string, toks: seq<Token<Span>>, k: nat)
    requires k < |toks|
    ensures ReadTokens(text, toks)[k] == ReadToken(text, toks[k])
  {
    ReadTail(text, toks, k);
    assert ReadTokens(text, toks)[k] == ReadTokens(text, toks)[k..][0];
  }

  lemma SeesRead(text: string, toks: seq<Token<Span>>, cs: string)
    ensures Sees(ReadTokens(text, toks), cs) == Sees(toks, cs)
  {
  }

  lemma {:induction false} RedirsRead(text: string, c: Cmd<Span>, toks: seq<Token<Span>>)
    requires CmdOk(text, c) && TokensOk(text, toks)
    ensures ParsedOk(text, Redirs(c, toks))
    ensures Redirs(ReadCmd(text, c), ReadTokens(text, toks)) == ReadParsed(text, Redirs(c, toks))
    decreases |toks|
  {
    SeesRead(text, toks, "<>");
    if |toks| >= 2 {
      ReadAt(text, toks, 1);
    }
    if Sees(toks, "<>") && |toks| >= 2 && toks[1].Word? {
      ReadTail(text, toks, 2);
      RedirsRead(text, Redir(c, toks[1].w, ModeOf(toks[0].c)), toks[2..]);
    }
  }

  lemma {:induction false} AddArgRead(text: string, c: Cmd<Span>, w: Span)
    requires CmdOk(text, c) && WordOk(text, w)
    ensures CmdOk(text, AddArg(c, w)) && ReadCmd(text, AddArg(c, w)) == AddArg(ReadCmd(text, c), Spell(text, w))
    ensures Argc(ReadCmd(text, c)) == Argc(c)
  {
    match c
    case Exec(argv) => assert ReadArgs(text, argv + [w]) == ReadArgs(text, argv) + [Spell(text, w)];
    case Redir(c', _, _) => AddArgRead(text, c', w);
    case _ =>
  }

  lemma {:induction false} ArgsRead(text: string, c: Cmd<Span>, toks: seq<Token<Span>>)
    requires CmdOk(text, c) && TokensOk(text, toks)
    ensures ParsedOk(text, Args(c, toks))
    ensures Args(ReadCmd(text, c), ReadTokens(text, toks)) == ReadParsed(text, Args(c, toks))
    decreases |toks|
  {
    SeesRead(text, toks, "|)&;");
    if toks != [] && !Sees(toks, "|)&;") && toks[0].Word? {
      var w := toks[0].w;
      AddArgRead(text, c, w);
      AddArgRead(text, AddArg(c, w), w);
      ReadTail(text, toks, 1);
      RedirsRead(text, AddArg(c, w), toks[1..]);
      var p := Redirs(AddArg(c, w), toks[1..]);
      if p.Ok? {
        ArgsRead(text, p.cmd, p.rest);
      }
    }
  }

  lemma SimpleRead(text: string, toks: seq<Token<Span>>)
    requires TokensOk(text, toks)
    ensures ParsedOk(text, Simple(toks)) && Simple(ReadTokens(text, toks)) == ReadParsed(text, Simple(toks))
  {
    assert ReadArgs(text, []) == [];
    RedirsRead(text, Exec([]), toks);
    var p := Redirs(Exec([]), toks);
    if p.Ok? {
      ArgsRead(text, p.cmd, p.rest);
    }
  }

  lemma {:induction false} OperandRead(text: string, toks: seq<Token<Span>>)
    requires TokensOk(text, toks)
    ensures ParsedOk(text, Operand(toks)) && Operand(ReadTokens(text, toks)) == ReadParsed(text, Operand(toks))
    decreases |toks|, 1
  {
    SeesRead(text, toks, "(");
    if Sees(toks, "(") {
      ReadTail(text, toks, 1);
      LineRead(text, toks[1..]);
      var p := Line(toks[1..]);
      if p.Ok? {
        SeesRead(text, p.rest, ")");
        if Sees(p.rest, ")") {
          ReadTail(text, p.rest, 1);
          RedirsRead(text, p.cmd, p.rest[1..]);
        }
      }
    } else {
      SimpleRead(text, toks);
    }
  }

  lemma {:induction false} PipelineRead(text: string, toks: seq<Token<Span>>)
    requires TokensOk(text, toks)
    ensures ParsedOk(text, Pipeline(toks)) && Pipeline(ReadTokens(text, toks)) == ReadParsed(text, Pipeline(toks))
    decreases |toks|, 2
  {
    OperandRead(text, toks);
    var p := Operand(toks);
    if p.Ok? {
      SeesRead(text, p.rest, "|");
      if Sees(p.rest, "|") {
        ReadTail(text, p.rest, 1);
        PipelineRead(text, p.rest[1..]);
      }
    }
  }

  lemma {:induction false} BacksRead(text: string, c: Cmd<Span>, toks: seq<Token<Span>>)
    requires CmdOk(text, c) && TokensOk(text, toks)
    ensures ParsedOk(text, Backs(c, toks))
    ensures Backs(ReadCmd(text, c), ReadTokens(text, toks)) == ReadParsed(text, Backs(c, toks))
    decreases |toks|
  {
    SeesRead(text, toks, "&");
    if Sees(toks, "&") {
      ReadTail(text, toks, 1);
      BacksRead(text, Back(c), toks[1..]);
    }
  }

  lemma {:induction false} LineRead(text: string, toks: seq<Token<Span>>)
    requires TokensOk(text, toks)
    ensures ParsedOk(text, Line(toks)) && Line(ReadTokens(text, toks)) == ReadParsed(text, Line(toks))
    decreases |toks|, 3
  {
    PipelineRead(text, toks);
    var p := Pipeline(toks);
    if p.Ok? {
      BacksRead(text, p.cmd, p.rest);
      var b := Backs(p.cmd, p.rest);
      SeesRead(text, b.rest, ";");
      if Sees(b.rest, ";") {
        ReadTail(text, b.rest, 1);
        LineRead(text, b.rest[1..]);
      }
    }
  }

  // ---------------------------------------------------------------- printing as text

  function TokenText(t: Token<string>): string {
    match t
    case Word(w) => w
    case Sym(c) => if c == '+' then ">>" else [c]
  }

  /** The tokens, each followed by a blank. */
  function Render(toks: seq<Token<string>>): string {
    if toks == [] then "" else TokenText(toks[0]) + " " + Render(toks[1..])
  }

  predicate ValidWord(w: string) {
    w != "" && forall k: nat :: k < |w| ==> InWord(w[k]) && w[k] != NUL
  }

  predicate ValidToken(t: Token<string>) {
    match t
    case Word(w) => ValidWord(w)
    case Sym(c) => IsSymbol(c) || c == '+'
  }

  predicate ValidTokens(toks: seq<Token<string>>) {
    forall k: nat :: k < |toks| ==> ValidToken(toks[k])
  }

  lemma {:induction false} WordEndAt(text: string, s: nat, e: nat)
    requires s <= e < |text| && !InWord(text[e]) && forall k: nat :: s <= k < e ==> InWord(text[k])
    ensures WordEnd(text, s) == e
    decreases e - s
  {
    if s >= e {
    } else {
      WordEndAt(text, s + 1, e);
    }
  }

  /** The scanner finds a token followed by a blank, and stops at the blank. */
  lemma ScanToken(text: string, pos: nat, t: Token<string>)
    requires ValidToken(t) && pos + |TokenText(t)| < |text|
    requires text[pos..pos + |TokenText(t)|] == TokenText(t) && text[pos + |TokenText(t)|] == ' '
    ensures SkipSpace(text, pos) == pos && TokenEnd(text, pos) == pos + |TokenText(t)|
    ensures ReadToken(text, TokenAt(text, pos)) == t
  {
    var e := pos + |TokenText(t)|;
    assert forall k: nat :: pos <= k < e ==> text[k] == TokenText(t)[k - pos];
    if t.Word? {
      WordEndAt(text, pos, e);
    }
  }

  /** The tokens stand in the text from pos to its end, each followed by a blank. */
  predicate RenderedAt(text: string, pos: nat, toks: seq<Token<string>>)
    decreases |toks|
  {
    if toks == [] then pos == |text|
    else
      var e := pos + |TokenText(toks[0])|;
      e < |text| && text[pos..e] == TokenText(toks[0]) && text[e] == ' ' && RenderedAt(text, e + 1, toks[1..])
  }

  lemma {:induction false} RenderIsRenderedAt(text: string, pos: nat, toks: seq<Token<string>>)
    requires pos <= |text| && text[pos..] == Render(toks)
    ensures RenderedAt(text, pos, toks)
    decreases |toks|
  {
    if toks == [] {
    } else {
      RenderedHead(text, pos, toks);
      RenderIsRenderedAt(text, pos + |TokenText(toks[0])| + 1, toks[1..]);
    }
  }

  lemma {:induction false} LexRendered(text: string, pos: nat, toks: seq<Token<string>>)
    requires pos <= |text| && RenderedAt(text, pos, toks) && ValidTokens(toks)
    ensures ReadTokens(text, Lex(text, pos)) == toks
    decreases |toks|
  {
    if toks == [] {
    } else {
      var t, rest := toks[0], toks[1..];
      assert toks == [t] + rest && ValidToken(t) && ValidTokens(rest);
      LexRendered(text, pos + |TokenText(t)| + 1, rest);
      LexCons(text, pos, t, rest);
    }
  }

  lemma LexCons(text: string, pos: nat, t: Token<string>, rest: seq<Token<string>>)
    requires ValidToken(t) && pos + |TokenText(t)| < |text|
    requires text[pos..pos + |TokenText(t)|] == TokenText(t) && text[pos + |TokenText(t)|] == ' '
    requires ReadTokens(text, Lex(text, pos + |TokenText(t)| + 1)) == rest
    ensures ReadTokens(text, Lex(text, pos)) == [t] + rest
  {
    LexOne(text, pos, t);
    ReadCons(text, TokenAt(text, pos), Lex(text, pos + |TokenText(t)| + 1));
  }

  lemma LexOne(text: string, pos: nat, t: Token<string>)
    requires ValidToken(t) && pos + |TokenText(t)| < |text|
    requires text[pos..pos + |TokenText(t)|] == TokenText(t) && text[pos + |TokenText(t)|] == ' '
    ensures pos < |text| && Lex(text, pos) == [TokenAt(text, pos)] + Lex(text, pos + |TokenText(t)| + 1)
    ensures ReadToken(text, TokenAt(text, pos)) == t
  {
    ScanToken(text, pos, t);
    var e := pos + |TokenText(t)|;
    assert SkipSpace(text, e) == SkipSpace(text, e + 1);
    assert Lex(text, e) == Lex(text, e + 1);
  }

  lemma ReadCons(text: string, t: Token<Span>, toks: seq<Token<Span>>)
    ensures ReadTokens(text, [t] + toks) == [ReadToken(text, t)] + ReadTokens(text, toks)
  {
  }

  lemma RenderedHead(text: string, pos: nat, toks: seq<Token<string>>)
    requires pos <= |text| && text[pos..] == Render(toks) && toks != []
    ensures var e := pos + |TokenText(toks[0])|;
            e < |text| && text[pos..e] == TokenText(toks[0]) && text[e] == ' ' && text[e + 1..] == Render(toks[1..])
  {
    SuffixParts(text, pos, TokenText(toks[0]), Render(toks[1..]));
  }

  lemma SuffixParts(text: string, pos: nat, a: string, b: string)
    requires pos <= |text| && text[pos..] == a + " " + b
    ensures var e := pos + |a|; e < |text| && text[pos..e] == a && text[e] == ' ' && text[e + 1..] == b
  {
    var n, r := |a|, text[pos..];
    assert text[pos..pos + n] == r[..n] && text[pos + n] == r[n] && text[pos + n + 1..] == r[n + 1..];
  }

  predicate ValidCmd(t: Cmd<string>) {
    match t
    case Exec(argv) => forall k: nat :: k < |argv| ==> ValidWord(argv[k])
    case Redir(c, file, _) => ValidCmd(c) && ValidWord(file)
    case Pipe(l, r) => ValidCmd(l) && ValidCmd(r)
    case List(l, r) => ValidCmd(l) && ValidCmd(r)
    case Back(c) => ValidCmd(c)
  }

  lemma {:induction false} WordsValid(argv: seq<string>)
    requires forall k: nat :: k < |argv| ==> ValidWord(argv[k])
    ensures ValidTokens(Words(argv))
  {
    if argv == [] {
    } else {
      WordsValid(argv[1..]);
    }
  }

  lemma {:induction false} PrintOperandValid(t: Cmd<string>)
    requires ValidCmd(t)
    ensures ValidTokens(PrintOperand(t))
    decreases t, if t.Exec? || t.Redir? then 0 else 4
  {
    match t
    case Exec(argv) => WordsValid(argv);
    case Redir(c, file, mode) => PrintOperandValid(c);
    case _ => PrintLineValid(t);
  }

  lemma {:induction false} PrintPipeValid(t: Cmd<string>)
    requires ValidCmd(t)
    ensures ValidTokens(PrintPipe(t))
    decreases t, if t.List? || t.Back? then 5 else 1
  {
    if t.Pipe? {
      PrintOperandValid(t.left);
      PrintPipeValid(t.right);
    } else {
      PrintOperandValid(t);
    }
  }

  lemma {:induction false} PrintBackValid(t: Cmd<string>)
    requires ValidCmd(t)
    ensures ValidTokens(PrintBack(t))
    decreases t, if t.List? then 5 else 2
  {
    if t.Back? {
      PrintBackValid(t.cmd);
    } else if t.List? {
      PrintOperandValid(t);
    } else {
      PrintPipeValid(t);
    }
  }

  lemma {:induction false} PrintLineValid(t: Cmd<string>)
    requires ValidCmd(t)
    ensures ValidTokens(PrintLine(t))
    decreases t, 3
  {
    if t.List? {
      PrintBackValid(t.left);
      PrintLineValid(t.right);
    } else {
      PrintBackValid(t);
    }
  }

  lemma {:induction false} RenderNoNul(toks: seq<Token<string>>)
    requires ValidTokens(toks)
    ensures NUL !in Render(toks)
  {
    if toks == [] {
    } else {
      assert NUL !in TokenText(toks[0]) by {
        assert ValidToken(toks[0]);
      }
      RenderNoNul(toks[1..]);
    }
  }

  function CommandText(t: Cmd<string>): string {
    Render(PrintLine(t))
  }

  /** Parsing the text of any command gives that command. */
  lemma TextRoundTrip(t: Cmd<string>)
    requires Fits(t) && ValidCmd(t)
    ensures NUL !in CommandText(t)
    ensures ReadParsed(CommandText(t), Command(Lex(CommandText(t), 0))) == Ok(t, [])
  {
    var text := CommandText(t);
    var toks := Lex(text, 0);
    PrintLineValid(t);
    RenderNoNul(PrintLine(t));
    assert text[0..] == text;
    RenderIsRenderedAt(text, 0, PrintLine(t));
    LexRendered(text, 0, PrintLine(t));
    LexOk(text, 0);
    LineRead(text, toks);
    CommandRoundTrip(t);
    assert ReadTokens(text, []) == [];
  }
}
