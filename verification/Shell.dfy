/** The scanner and recursive-descent parser of user/sh.c, and nulterminate. A char* into the input is a
    position in it. */
module Shell {
  import opened ShellGrammar
  import opened ShellInput
  import opened ShellRoundTrip
  import opened ShellText

  datatype Result = Done(cmd: Cmd<Span>) | Panic(error: Error)

  /** *s, with the terminating NUL at the end. */
  function CharAt(text: string, s: nat): char {
    if s < |text| then text[s] else NUL
  }

  /** r and the position s are what the grammar says. */
  predicate Follows(text: string, p: Parsed<Span>, r: Result, s: nat) {
    match p
    case Ok(c, rest) => r == Done(c) && s <= |text| && Lex(text, s) == rest
    case Fail(e) => r == Panic(e)
  }

  method Skip(text: string, pos: nat) returns (s: nat)
    requires pos <= |text|
    ensures s == SkipSpace(text, pos)
  {
    s := pos;
    while s < |text| && IsSpace(text[s])
      invariant pos <= s <= |text| && SkipSpace(text, s) == SkipSpace(text, pos)
    {
      s := s + 1;
    }
  }

  method Peek(text: string, pos: nat, toks: string) returns (found: bool, s: nat)
    requires pos <= |text| && NUL !in text && forall k: nat :: k < |toks| ==> IsSymbol(toks[k])
    ensures pos <= s <= |text| && Lex(text, s) == Lex(text, pos)
    ensures found <==> Sees(Lex(text, pos), toks)
    ensures toks == "" ==> (s == |text| <==> Lex(text, pos) == [])
    ensures s < |text| ==> !IsSpace(text[s])
  {
    s := Skip(text, pos);
    SkipTwice(text, pos);
    found := CharAt(text, s) != NUL && CharAt(text, s) in toks;
  }

  /** gettoken: the kind of the next token as a character, 'a' for a word, NUL at the end. */
  method GetToken(text: string, pos: nat) returns (tok: char, q: nat, eq: nat, s: nat)
    requires pos <= |text| && NUL !in text
    ensures pos <= s <= |text| && (s < |text| ==> !IsSpace(text[s]))
    ensures if Lex(text, pos) == [] then tok == NUL && s == |text|
            else
              && s > pos && tok != NUL
              && Lex(text, pos) == [if tok == 'a' then Word(Span(q, eq)) else Sym(tok)] + Lex(text, s)
  {
    s := Skip(text, pos);
    SkipTwice(text, pos);
    q := s;
    tok := CharAt(text, s);
    if tok == NUL {
    } else if tok in "|();&<" {
      s := s + 1;
    } else if tok == '>' {
      s := s + 1;
      if CharAt(text, s) == '>' {
        tok := '+';
        s := s + 1;
      }
    } else {
      tok := 'a';
      while s < |text| && !IsSpace(text[s]) && !IsSymbol(text[s])
        invariant q <= s <= |text| && WordEnd(text, s) == WordEnd(text, q)
      {
        s := s + 1;
      }
    }
    eq := s;
    SkipTwice(text, s);
    s := Skip(text, s);
  }

  method ParseRedirs(cmd: Cmd<Span>, text: string, pos: nat) returns (r: Result, s: nat)
    requires pos <= |text| && NUL !in text
    ensures pos <= s <= |text| && Follows(text, Redirs(cmd, Lex(text, pos)), r, s)
  {
    var ret, found, tok, q, eq := cmd, true, NUL, 0, 0;
    found, s := Peek(text, pos, "<>");
    while found
      invariant pos <= s <= |text| && found == Sees(Lex(text, s), "<>")
      invariant Redirs(ret, Lex(text, s)) == Redirs(cmd, Lex(text, pos))
      decreases |text| - s
    {
      ghost var toks := Lex(text, s);
      tok, q, eq, s := GetToken(text, s);
      assert toks[1..] == Lex(text, s);
      var kind;
      kind, q, eq, s := GetToken(text, s);
      if kind != 'a' {
        return Panic(MissingFile), s;
      }
      assert toks[2..] == Lex(text, s);
      ret := Redir(ret, Span(q, eq), ModeOf(tok));
      found, s := Peek(text, s, "<>");
    }
    return Done(ret), s;
  }

  method ParseExec(text: string, pos: nat) returns (r: Result, s: nat)
    requires pos <= |text| && NUL !in text
    ensures pos <= s <= |text| && Follows(text, Operand(Lex(text, pos)), r, s)
    decreases |text| - pos, 1
  {
    var found;
    found, s := Peek(text, pos, "(");
    if found {
      r, s := ParseBlock(text, s);
      return;
    }
    r, s := ParseRedirs(Exec([]), text, s);
    if r.Panic? {
      return;
    }
    ghost var cmd, toks := r.cmd, Lex(text, s);
    found, s := Peek(text, s, "|)&;");
    while !found
      invariant pos <= s <= |text| && r.Done? && found == Sees(Lex(text, s), "|)&;")
      invariant Args(r.cmd, Lex(text, s)) == Args(cmd, toks)
      decreases |text| - s
    {
      ghost var here := Lex(text, s);
      var tok, q, eq;
      tok, q, eq, s := GetToken(text, s);
      if tok == NUL {
        return;
      }
      if tok != 'a' {
        return Panic(Syntax), s;
      }
      assert here[1..] == Lex(text, s);
      var ret := AddArg(r.cmd, Span(q, eq));
      if Argc(ret) >= MAXARGS {
        return Panic(TooManyArgs), s;
      }
      r, s := ParseRedirs(ret, text, s);
      if r.Panic? {
        return;
      }
      found, s := Peek(text, s, "|)&;");
    }
  }

  method ParseBlock(text: string, pos: nat) returns (r: Result, s: nat)
    requires pos <= |text| && NUL !in text && Sees(Lex(text, pos), "(")
    ensures pos <= s <= |text| && Follows(text, Block(Lex(text, pos)), r, s)
    decreases |text| - pos, 0
  {
    var found, tok, q, eq;
    ghost var toks := Lex(text, pos);
    tok, q, eq, s := GetToken(text, pos);
    assert toks[1..] == Lex(text, s);
    r, s := ParseLine(text, s);
    if r.Panic? {
      return;
    }
    toks := Lex(text, s);
    found, s := Peek(text, s, ")");
    if !found {
      return Panic(MissingParen), s;
    }
    tok, q, eq, s := GetToken(text, s);
    assert toks[1..] == Lex(text, s);
    r, s := ParseRedirs(r.cmd, text, s);
  }

  method ParsePipe(text: string, pos: nat) returns (r: Result, s: nat)
    requires pos <= |text| && NUL !in text
    ensures pos <= s <= |text| && Follows(text, Pipeline(Lex(text, pos)), r, s)
    decreases |text| - pos, 2
  {
    r, s := ParseExec(text, pos);
    if r.Panic? {
      return;
    }
    ghost var toks := Lex(text, s);
    var found, tok, q, eq;
    found, s := Peek(text, s, "|");
    if found {
      tok, q, eq, s := GetToken(text, s);
      assert toks[1..] == Lex(text, s);
      var right;
      right, s := ParsePipe(text, s);
      r := if right.Panic? then right else Done(Pipe(r.cmd, right.cmd));
    }
  }

  method ParseLine(text: string, pos: nat) returns (r: Result, s: nat)
    requires pos <= |text| && NUL !in text
    ensures pos <= s <= |text| && Follows(text, Line(Lex(text, pos)), r, s)
    decreases |text| - pos, 3
  {
    r, s := ParsePipe(text, pos);
    if r.Panic? {
      return;
    }
    ghost var cmd, toks := r.cmd, Lex(text, s);
    var found, tok, q, eq;
    found, s := Peek(text, s, "&");
    while found
      invariant pos <= s <= |text| && r.Done? && found == Sees(Lex(text, s), "&")
      invariant Backs(r.cmd, Lex(text, s)) == Backs(cmd, toks)
      decreases |text| - s
    {
      ghost var here := Lex(text, s);
      tok, q, eq, s := GetToken(text, s);
      assert here[1..] == Lex(text, s);
      r := Done(Back(r.cmd));
      found, s := Peek(text, s, "&");
    }
    toks := Lex(text, s);
    found, s := Peek(text, s, ";");
    if found {
      tok, q, eq, s := GetToken(text, s);
      assert toks[1..] == Lex(text, s);
      var right;
      right, s := ParseLine(text, s);
      r := if right.Panic? then right else Done(List(r.cmd, right.cmd));
    }
  }

  // ---------------------------------------------------------------- nulterminate

  /** Position k is the end of one of the command's words. */
  predicate IsEnd(cmd: Cmd<Span>, k: nat) {
    match cmd
    case Exec(argv) => exists a: nat :: a < |argv| && argv[a].eq == k
    case Redir(c, file, _) => IsEnd(c, k) || file.eq == k
    case Pipe(l, r) => IsEnd(l, k) || IsEnd(r, k)
    case List(l, r) => IsEnd(l, k) || IsEnd(r, k)
    case Back(c) => IsEnd(c, k)
  }

  method NulTerminate(buf: array<char>, cmd: Cmd<Span>, ghost text: string)
    requires buf.Length > |text| && CmdOk(text, cmd)
    modifies buf
    ensures forall k: nat :: k < buf.Length ==> buf[k] == if IsEnd(cmd, k) then NUL else old(buf[k])
    decreases cmd
  {
    match cmd
    case Exec(argv) =>
      var i := 0;
      while i < |argv|
        invariant i <= |argv|
        invariant forall k: nat :: k < buf.Length ==> buf[k] == if IsEnd(Exec(argv[..i]), k) then NUL else old(buf[k])
      {
        assert WordOk(text, argv[i]);
        OneMoreEnd(argv, i);
        buf[argv[i].eq] := NUL;
        i := i + 1;
      }
      assert argv[..i] == argv;
    case Redir(c, file, _) =>
      NulTerminate(buf, c, text);
      buf[file.eq] := NUL;
    case Pipe(l, r) =>
      NulTerminate(buf, l, text);
      NulTerminate(buf, r, text);
    case List(l, r) =>
      NulTerminate(buf, l, text);
      NulTerminate(buf, r, text);
    case Back(c) =>
      NulTerminate(buf, c, text);
  }

  lemma OneMoreEnd(argv: seq<Span>, i: nat)
    requires i < |argv|
    ensures forall k: nat :: IsEnd(Exec(argv[..i + 1]), k) <==> IsEnd(Exec(argv[..i]), k) || k == argv[i].eq
  {
    forall k: nat ensures IsEnd(Exec(argv[..i + 1]), k) <==> IsEnd(Exec(argv[..i]), k) || k == argv[i].eq {
      var p, p' := argv[..i], argv[..i + 1];
      if a: nat :| a < |p'| && p'[a].eq == k {
        assert a < i ==> p[a].eq == k;
      }
      if a: nat :| a < |p| && p[a].eq == k {
        assert p'[a].eq == k;
      }
      assert p'[i] == argv[i];
    }
  }

  /** No word of the input contains the end of another. */
  lemma {:induction false} EndsOutsideWords(text: string, cmd: Cmd<Span>, w: Span, k: nat)
    requires CmdOk(text, cmd) && WordOk(text, w) && w.q <= k < w.eq
    ensures !IsEnd(cmd, k)
  {
    match cmd
    case Exec(argv) =>
    case Redir(c, file, _) => EndsOutsideWords(text, c, w, k);
    case Pipe(l, r) => EndsOutsideWords(text, l, w, k); EndsOutsideWords(text, r, w, k);
    case List(l, r) => EndsOutsideWords(text, l, w, k); EndsOutsideWords(text, r, w, k);
    case Back(c) => EndsOutsideWords(text, c, w, k);
  }

  /** The C string at position q. */
  function CString(b: seq<char>, q: nat): string
    decreases |b| - q
  {
    if q >= |b| || b[q] == NUL then "" else [b[q]] + CString(b, q + 1)
  }

  lemma {:induction false} CStringIs(b: seq<char>, text: string, q: nat, e: nat)
    requires q <= e <= |text| && e < |b| && b[e] == NUL && NUL !in text
    requires forall k: nat :: q <= k < e ==> b[k] == text[k]
    ensures CString(b, q) == text[q..e]
    decreases e - q
  {
    if q >= e {
    } else {
      CStringIs(b, text, q + 1, e);
      assert text[q] in text;
    }
  }

  /** The command as runcmd sees it: each argv[i] and file a C string. */
  function CArgs(b: seq<char>, argv: seq<Span>): (r: seq<string>)
    ensures |r| == |argv|
  {
    seq(|argv|, k requires 0 <= k < |argv| => CString(b, argv[k].q))
  }

  function CCmd(b: seq<char>, cmd: Cmd<Span>): Cmd<string> {
    match cmd
    case Exec(argv) => Exec(CArgs(b, argv))
    case Redir(c, file, mode) => Redir(CCmd(b, c), CString(b, file.q), mode)
    case Pipe(l, r) => Pipe(CCmd(b, l), CCmd(b, r))
    case List(l, r) => List(CCmd(b, l), CCmd(b, r))
    case Back(c) => Back(CCmd(b, c))
  }

  /** b is the text with a NUL at the end of every word of `all`. */
  ghost predicate Terminated(b: seq<char>, text: string, all: Cmd<Span>) {
    |b| > |text| && forall k: nat {:trigger b[k]} ::
      k < |b| ==> if IsEnd(all, k) then b[k] == NUL else k < |text| ==> b[k] == text[k]
  }

  lemma TerminatedWord(b: seq<char>, text: string, all: Cmd<Span>, w: Span)
    requires Terminated(b, text, all) && CmdOk(text, all) && WordOk(text, w) && IsEnd(all, w.eq) && NUL !in text
    ensures CString(b, w.q) == Spell(text, w)
  {
    forall k: nat | w.q <= k < w.eq ensures b[k] == text[k] {
      EndsOutsideWords(text, all, w, k);
    }
    CStringIs(b, text, w.q, w.eq);
  }

  lemma {:induction false} TerminatedCmd(b: seq<char>, text: string, all: Cmd<Span>, cmd: Cmd<Span>)
    requires Terminated(b, text, all) && CmdOk(text, all) && CmdOk(text, cmd) && NUL !in text
    requires forall k: nat :: IsEnd(cmd, k) ==> IsEnd(all, k)
    ensures CCmd(b, cmd) == ReadCmd(text, cmd)
    decreases cmd
  {
    match cmd
    case Exec(argv) =>
      forall a: nat | a < |argv| ensures CArgs(b, argv)[a] == ReadArgs(text, argv)[a] {
        assert IsEnd(cmd, argv[a].eq);
        TerminatedWord(b, text, all, argv[a]);
      }
    case Redir(c, file, _) =>
      assert IsEnd(cmd, file.eq);
      TerminatedWord(b, text, all, file);
      assert forall k: nat :: IsEnd(c, k) ==> IsEnd(cmd, k);
      TerminatedCmd(b, text, all, c);
    case Pipe(l, r) =>
      assert forall k: nat :: IsEnd(l, k) || IsEnd(r, k) ==> IsEnd(cmd, k);
      TerminatedCmd(b, text, all, l);
      TerminatedCmd(b, text, all, r);
    case List(l, r) =>
      assert forall k: nat :: IsEnd(l, k) || IsEnd(r, k) ==> IsEnd(cmd, k);
      TerminatedCmd(b, text, all, l);
      TerminatedCmd(b, text, all, r);
    case Back(c) =>
      assert forall k: nat :: IsEnd(c, k) ==> IsEnd(cmd, k);
      TerminatedCmd(b, text, all, c);
  }

  // ---------------------------------------------------------------- parsecmd

  method Strlen(buf: array<char>) returns (n: nat)
    requires NUL in buf[..]
    ensures n < buf.Length && buf[n] == NUL && NUL !in buf[..n]
  {
    n := 0;
    while buf[n] != NUL
      invariant n < buf.Length && NUL !in buf[..n]
      decreases buf.Length - n
    {
      assert NUL in buf[n + 1..] by {
        assert buf[..] == buf[..n] + [buf[n]] + buf[n + 1..];
      }
      n := n + 1;
    }
  }

  /** parsecmd: the tree of the whole input, and in the buffer every word of it ready to be used as a C string. */
  method ParseCmd(buf: array<char>) returns (r: Result, ghost text: string)
    requires NUL in buf[..]
    modifies buf
    ensures text <= old(buf[..]) && NUL !in text && |text| < buf.Length && old(buf[..])[|text|] == NUL
    ensures match Command(Lex(text, 0))
            case Ok(c, _) => r == Done(c) && CCmd(buf[..], c) == ReadCmd(text, c)
            case Fail(e) => r == Panic(e) && buf[..] == old(buf[..])
    ensures r.Done? ==> Means(text, CCmd(buf[..], r.cmd))
    ensures r.Panic? ==> forall t :: !Means(text, t)
  {
    var n := Strlen(buf);
    var line, s, found := buf[..n], 0, false;
    text := line;
    CommandMeans(text);
    LexOk(text, 0);
    LineRead(text, Lex(text, 0));
    r, s := ParseLine(line, 0);
    if r.Panic? {
      return;
    }
    found, s := Peek(line, s, "");
    if s != n {
      r := Panic(Leftovers);
      return;
    }
    NulTerminate(buf, r.cmd, text);
    assert Terminated(buf[..], text, r.cmd);
    TerminatedCmd(buf[..], text, r.cmd, r.cmd);
  }

  /** A buffer that begins with the text of a command and a NUL parses to a tree whose C strings are that command. */
  method ParseText(ghost t: Cmd<string>, buf: array<char>) returns (r: Result)
    requires Fits(t) && ValidCmd(t) && CommandText(t) + [NUL] <= buf[..]
    modifies buf
    ensures r.Done? && CCmd(buf[..], r.cmd) == t
  {
    ghost var line := CommandText(t);
    TextRoundTrip(t);
    assert buf[..][|line|] == NUL;
    ghost var text;
    r, text := ParseCmd(buf);
    SameText(old(buf[..]), line, text);
  }

  /** The text before the first NUL is unique. */
  lemma SameText(b: seq<char>, x: string, y: string)
    requires x + [NUL] <= b && NUL !in x && y <= b && NUL !in y && |y| < |b| && b[|y|] == NUL
    ensures x == y
  {
    assert (x + [NUL])[|x|] == b[|x|];
    assert forall k: nat :: k < |x| ==> b[k] == (x + [NUL])[k] == x[k] != NUL;
    assert forall k: nat :: k < |y| ==> b[k] == y[k] != NUL;
  }
}
