/** From text to command without a scanner or a parser: which tokens a text spells, and which command they are. */
module ShellInput {
  import opened ShellGrammar
  import opened ShellLanguage
  import opened ShellRoundTrip
  import opened ShellText

  predicate Blank(text: string, i: nat, j: nat)
    requires i <= j <= |text|
  {
    forall k: nat :: i <= k < j ==> IsSpace(text[k])
  }

  /** After white space from pos to i, the text up to e is token t, and t cannot be made longer. */
  predicate TokenFrom(text: string, pos: nat, i: nat, e: nat, t: Token<string>)
    requires pos <= i <= e <= |text|
  {
    && Blank(text, pos, i) && ValidToken(t) && text[i..e] == TokenText(t)
    && (e < |text| && t.Word? ==> !InWord(text[e]))
    && (e < |text| && t == Sym('>') ==> text[e] != '>')
  }

  /** The text from pos on is these tokens, with white space anywhere between them, before them and after them. */
  ghost predicate Spells(text: string, pos: nat, toks: seq<Token<string>>)
    requires pos <= |text|
    decreases |toks|
  {
    if toks == [] then Blank(text, pos, |text|)
    else exists i, e :: pos <= i <= e <= |text| && TokenFrom(text, pos, i, e, toks[0]) && Spells(text, e, toks[1..])
  }

  lemma {:induction false} SkipIs(text: string, pos: nat)
    requires pos <= |text|
    ensures Blank(text, pos, SkipSpace(text, pos))
    ensures SkipSpace(text, pos) < |text| ==> !IsSpace(text[SkipSpace(text, pos)])
    decreases |text| - pos
  {
    if pos < |text| && IsSpace(text[pos]) {
      SkipIs(text, pos + 1);
    }
  }

  lemma {:induction false} SkipTo(text: string, pos: nat, i: nat)
    requires pos <= i <= |text| && Blank(text, pos, i) && (i < |text| ==> !IsSpace(text[i]))
    ensures SkipSpace(text, pos) == i
    decreases i - pos
  {
    if pos < i {
      SkipTo(text, pos + 1, i);
    }
  }

  /** The scanner's token is one the text spells there. */
  lemma TokenFound(text: string, pos: nat)
    requires pos <= |text| && NUL !in text && SkipSpace(text, pos) < |text|
    ensures var i := SkipSpace(text, pos);
            TokenFrom(text, pos, i, TokenEnd(text, i), ReadToken(text, TokenAt(text, i)))
  {
    var i := SkipSpace(text, pos);
    SkipIs(text, pos);
    WordEndIs(text, i);
  }

  /** It is the only one. */
  lemma TokenUnique(text: string, pos: nat, i: nat, e: nat, t: Token<string>)
    requires pos <= i <= e <= |text| && NUL !in text && TokenFrom(text, pos, i, e, t)
    ensures i < |text| && i == SkipSpace(text, pos) && e == TokenEnd(text, i) && t == ReadToken(text, TokenAt(text, i))
  {
    assert forall k: nat :: i <= k < e ==> text[k] == TokenText(t)[k - i];
    SkipTo(text, pos, i);
    if t.Word? {
      WordRun(text, i, e);
    }
  }

  lemma {:induction false} WordRun(text: string, s: nat, e: nat)
    requires s <= e <= |text| && (e < |text| ==> !InWord(text[e])) && forall k: nat :: s <= k < e ==> InWord(text[k])
    ensures WordEnd(text, s) == e
    decreases e - s
  {
    if s < e {
      WordRun(text, s + 1, e);
    }
  }

  lemma {:induction false} LexSpells(text: string, pos: nat)
    requires pos <= |text| && NUL !in text
    ensures Spells(text, pos, ReadTokens(text, Lex(text, pos)))
    decreases |text| - pos
  {
    var i := SkipSpace(text, pos);
    SkipIs(text, pos);
    if i < |text| {
      var e := TokenEnd(text, i);
      TokenFound(text, pos);
      LexSpells(text, e);
      ReadCons(text, TokenAt(text, i), Lex(text, e));
      var t, toks := ReadToken(text, TokenAt(text, i)), ReadTokens(text, Lex(text, e));
      assert ReadTokens(text, Lex(text, pos)) == [t] + toks;
      assert ([t] + toks)[0] == t && ([t] + toks)[1..] == toks;
    }
  }

  lemma {:induction false} SpelledOnce(text: string, pos: nat, toks: seq<Token<string>>)
    requires pos <= |text| && NUL !in text && Spells(text, pos, toks)
    ensures ReadTokens(text, Lex(text, pos)) == toks
    decreases |toks|
  {
    if toks == [] {
      SkipTo(text, pos, |text|);
    } else {
      var i, e :| pos <= i <= e <= |text| && TokenFrom(text, pos, i, e, toks[0]) && Spells(text, e, toks[1..]);
      TokenUnique(text, pos, i, e, toks[0]);
      SpelledOnce(text, e, toks[1..]);
      ReadCons(text, TokenAt(text, i), Lex(text, e));
    }
  }

  /** The scanner finds exactly the tokens the text spells. */
  lemma LexIs(text: string, toks: seq<Token<string>>)
    requires NUL !in text
    ensures ReadTokens(text, Lex(text, 0)) == toks <==> Spells(text, 0, toks)
  {
    LexSpells(text, 0);
    if Spells(text, 0, toks) {
      SpelledOnce(text, 0, toks);
    }
  }

  /** The text is this command. */
  ghost predicate Means(text: string, t: Cmd<string>) {
    exists toks :: Spells(text, 0, toks) && IsLine(toks, t)
  }

  lemma ReadCommand(text: string)
    ensures Command(ReadTokens(text, Lex(text, 0))) == ReadParsed(text, Command(Lex(text, 0)))
  {
    LexOk(text, 0);
    LineRead(text, Lex(text, 0));
    var p := Line(Lex(text, 0));
    assert ReadTokens(text, []) == [];
    assert p.Ok? ==> (p.rest == [] <==> ReadTokens(text, p.rest) == []);
  }

  /** Scanning and parsing any text gives the command it is, and fails when it is none. */
  lemma TextMeans(text: string, t: Cmd<string>)
    requires NUL !in text
    ensures ReadParsed(text, Command(Lex(text, 0))) == Ok(t, []) <==> Means(text, t)
  {
    var toks := ReadTokens(text, Lex(text, 0));
    ReadCommand(text);
    LexSpells(text, 0);
    CommandIsLine(toks, t);
    forall toks' | Spells(text, 0, toks') ensures toks' == toks {
      SpelledOnce(text, 0, toks');
    }
  }

  lemma CommandMeans(text: string)
    requires NUL !in text
    ensures Command(Lex(text, 0)).Ok? ==> Means(text, ReadCmd(text, Command(Lex(text, 0)).cmd))
    ensures Command(Lex(text, 0)).Fail? ==> forall t :: !Means(text, t)
  {
    var p := Command(Lex(text, 0));
    if p.Ok? {
      TextMeans(text, ReadCmd(text, p.cmd));
    } else {
      forall t ensures !Means(text, t) {
        TextMeans(text, t);
      }
    }
  }

  /** A text is at most one command. */
  lemma MeansOne(text: string, t: Cmd<string>, u: Cmd<string>)
    requires NUL !in text && Means(text, t) && Means(text, u)
    ensures t == u
  {
    TextMeans(text, t);
    TextMeans(text, u);
  }

  lemma RenderScanned(toks: seq<Token<string>>)
    requires ValidTokens(toks)
    ensures NUL !in Render(toks) && ReadTokens(Render(toks), Lex(Render(toks), 0)) == toks
  {
    var text := Render(toks);
    RenderNoNul(toks);
    assert text[0..] == text;
    RenderIsRenderedAt(text, 0, toks);
    LexRendered(text, 0, toks);
  }

  /** A line written out with a blank behind each token is read back as its command. */
  lemma LineText(toks: seq<Token<string>>, t: Cmd<string>)
    requires ValidTokens(toks)
    ensures NUL !in Render(toks)
    ensures ReadParsed(Render(toks), Command(Lex(Render(toks), 0))) == Ok(t, []) <==> IsLine(toks, t)
  {
    RenderScanned(toks);
    ReadCommand(Render(toks));
    CommandIsLine(toks, t);
  }

  /** Words and redirections in any order are the redirections in order over the words in order. */
  lemma ItemsText(items: seq<Token<string>>)
    requires Items(items) && |WordsOf(items)| < MAXARGS && ValidTokens(items)
    ensures NUL !in Render(items)
    ensures ReadParsed(Render(items), Command(Lex(Render(items), 0)))
            == Ok(Chain(Exec(WordsOf(items)), FilesOf(items)), [])
  {
    var t := Chain(Exec(WordsOf(items)), FilesOf(items));
    ItemsAreLine(items);
    LineText(items, t);
  }

  lemma ItemsAreLine<W>(items: seq<Token<W>>)
    requires Items(items) && |WordsOf(items)| < MAXARGS
    ensures IsLine(items, Chain(Exec(WordsOf(items)), FilesOf(items)))
  {
    var t := Chain(Exec(WordsOf(items)), FilesOf(items));
    assert IsSimple(items, t);
    assert IsOperand(items, t);
    assert IsPipe(items, t);
    assert IsBack(items, t);
  }
}
