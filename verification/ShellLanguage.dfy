/** The shell's language, said without a parser: which token sequences are commands, and which command each one is. The
    parser accepts exactly these and gives exactly that command. */
module ShellLanguage {
  import opened ShellGrammar
  import opened ShellRoundTrip

  // ---------------------------------------------------------------- the language

  predicate IsRedir<W>(t: Token<W>) {
    t.Sym? && (t.c == '<' || t.c == '>' || t.c == '+')
  }

  /** Words and redirections in any order. */
  predicate Items<W>(toks: seq<Token<W>>)
    decreases |toks|
  {
    || toks == []
    || (toks[0].Word? && Items(toks[1..]))
    || (|toks| >= 2 && IsRedir(toks[0]) && toks[1].Word? && Items(toks[2..]))
  }

  /** The words that are not file names. */
  function WordsOf<W>(toks: seq<Token<W>>): seq<W>
    decreases |toks|
  {
    if toks == [] then []
    else if toks[0].Word? then [toks[0].w] + WordsOf(toks[1..])
    else if |toks| >= 2 then WordsOf(toks[2..])
    else []
  }

  /** The redirections. */
  function FilesOf<W>(toks: seq<Token<W>>): seq<(W, Mode)>
    decreases |toks|
  {
    if toks == [] then []
    else if toks[0].Word? then FilesOf(toks[1..])
    else if |toks| >= 2 && toks[1].Word? then [(toks[1].w, HowOpened(toks[0].c))] + FilesOf(toks[2..])
    else []
  }

  function HowOpened(c: char): Mode {
    match c case '<' => Read case '>' => Truncate case _ => Append
  }

  predicate IsSimple<W(==)>(toks: seq<Token<W>>, t: Cmd<W>) {
    Items(toks) && |WordsOf(toks)| < MAXARGS && t == Chain(Exec(WordsOf(toks)), FilesOf(toks))
  }

  /** t without its n outermost redirections. */
  function Strip<W>(t: Cmd<W>, n: nat): Cmd<W> {
    if n == 0 || !t.Redir? then t else Strip(t.cmd, n - 1)
  }

  /** A command in parentheses, which close at place k, and redirections behind it. */
  ghost predicate IsBlock<W>(toks: seq<Token<W>>, k: nat, t: Cmd<W>)
    requires 0 < k < |toks|
    decreases |toks|, 0
  {
    && toks[0] == Sym('(') && toks[k] == Sym(')') && Items(toks[k + 1..]) && WordsOf(toks[k + 1..]) == []
    && var rs := FilesOf(toks[k + 1..]);
       t == Chain(Strip(t, |rs|), rs) && IsLine(toks[1..k], Strip(t, |rs|))
  }

  ghost predicate IsOperand<W>(toks: seq<Token<W>>, t: Cmd<W>)
    decreases |toks|, 1
  {
    IsSimple(toks, t) || exists k :: 0 < k < |toks| && IsBlock(toks, k, t)
  }

  /** Two commands joined by the | at place k. */
  ghost predicate PipedAt<W>(toks: seq<Token<W>>, k: nat, t: Cmd<W>)
    requires k < |toks|
    decreases |toks|, 0
  {
    toks[k] == Sym('|') && t.Pipe? && IsOperand(toks[..k], t.left) && IsPipe(toks[k + 1..], t.right)
  }

  ghost predicate IsPipe<W>(toks: seq<Token<W>>, t: Cmd<W>)
    decreases |toks|, 2
  {
    IsOperand(toks, t) || exists k :: 0 <= k < |toks| && PipedAt(toks, k, t)
  }

  ghost predicate IsBack<W>(toks: seq<Token<W>>, t: Cmd<W>)
    decreases |toks|, 3
  {
    || IsPipe(toks, t)
    || (t.Back? && toks != [] && toks[|toks| - 1] == Sym('&') && IsBack(toks[..|toks| - 1], t.cmd))
  }

  /** Two commands in sequence, with the ; at place k. */
  ghost predicate ListedAt<W>(toks: seq<Token<W>>, k: nat, t: Cmd<W>)
    requires k < |toks|
    decreases |toks|, 0
  {
    toks[k] == Sym(';') && t.List? && IsBack(toks[..k], t.left) && IsLine(toks[k + 1..], t.right)
  }

  ghost predicate IsLine<W>(toks: seq<Token<W>>, t: Cmd<W>)
    decreases |toks|, 4
  {
    IsBack(toks, t) || exists k :: 0 <= k < |toks| && ListedAt(toks, k, t)
  }

  // ---------------------------------------------------------------- simple commands

  /** A word goes to the command below the redirections, whatever came before it. */
  lemma {:induction false} AddArgBelow<W>(a: seq<W>, rs: seq<(W, Mode)>, w: W)
    ensures AddArg(Chain(Exec(a), rs), w) == Chain(Exec(a + [w]), rs)
    ensures Argc(Chain(Exec(a), rs)) == |a|
    decreases |rs|
  {
    if rs == [] {
    } else {
      var n := |rs| - 1;
      assert rs == rs[..n] + [rs[n]];
      AddArgBelow(a, rs[..n], w);
      ChainMore(Exec(a), rs[..n], rs[n]);
      ChainMore(Exec(a + [w]), rs[..n], rs[n]);
    }
  }

  /** parseredirs and then the loop of parseexec. */
  function Scan<W>(c: Cmd<W>, toks: seq<Token<W>>): Parsed<W> {
    match Redirs(c, toks)
    case Fail(e) => Fail(e)
    case Ok(c', rest) => Args(c', rest)
  }

  /** How far toks is words and redirections, with at most k words. */
  function Extent<W>(toks: seq<Token<W>>, k: nat): (n: nat)
    ensures n <= |toks|
    decreases |toks|
  {
    if toks != [] && toks[0].Word? && k > 0 then 1 + Extent(toks[1..], k - 1)
    else if |toks| >= 2 && IsRedir(toks[0]) && toks[1].Word? then 2 + Extent(toks[2..], k)
    else 0
  }

  /** The command, or the error, when a simple command stops at the tokens of at. */
  function Stop<W>(c: Cmd<W>, at: seq<Token<W>>): Parsed<W> {
    if Ends(at) then Ok(c, at)
    else if at[0].Word? then Fail(TooManyArgs)
    else if IsRedir(at[0]) then Fail(MissingFile)
    else Fail(Syntax)
  }

  lemma ScanRedir<W>(c: Cmd<W>, toks: seq<Token<W>>)
    requires |toks| >= 2 && IsRedir(toks[0]) && toks[1].Word?
    ensures Scan(c, toks) == Scan(Redir(c, toks[1].w, HowOpened(toks[0].c)), toks[2..])
  {
    assert Sees(toks, "<>");
  }

  lemma ScanWord<W>(a: seq<W>, rs: seq<(W, Mode)>, toks: seq<Token<W>>)
    requires toks != [] && toks[0].Word?
    ensures |a| + 1 < MAXARGS ==> Scan(Chain(Exec(a), rs), toks) == Scan(Chain(Exec(a + [toks[0].w]), rs), toks[1..])
    ensures |a| + 1 >= MAXARGS ==> Scan(Chain(Exec(a), rs), toks) == Fail(TooManyArgs)
  {
    AddArgBelow(a, rs, toks[0].w);
    AddArgBelow(a + [toks[0].w], rs, toks[0].w);
  }

  lemma ScanStops<W>(a: seq<W>, rs: seq<(W, Mode)>, toks: seq<Token<W>>)
    requires |a| < MAXARGS && Extent(toks, MAXARGS - 1 - |a|) == 0
    ensures Scan(Chain(Exec(a), rs), toks) == Stop(Chain(Exec(a), rs), toks)
  {
    if toks != [] && toks[0].Word? {
      ScanWord(a, rs, toks);
    } else {
      assert Sees(toks, "<>") <==> toks != [] && IsRedir(toks[0]);
    }
  }

  /** The outcome of stopping after n tokens, with the words a and the redirections rs already there. */
  function After<W>(a: seq<W>, rs: seq<(W, Mode)>, toks: seq<Token<W>>, n: nat): Parsed<W>
    requires n <= |toks|
  {
    Stop(Chain(Exec(a + WordsOf(toks[..n])), rs + FilesOf(toks[..n])), toks[n..])
  }

  lemma AfterWord<W>(a: seq<W>, rs: seq<(W, Mode)>, toks: seq<Token<W>>, n: nat)
    requires 0 < n <= |toks| && toks[0].Word?
    ensures After(a, rs, toks, n) == After(a + [toks[0].w], rs, toks[1..], n - 1)
  {
    assert toks[..n][1..] == toks[1..][..n - 1] && toks[n..] == toks[1..][n - 1..];
    assert a + [toks[0].w] + WordsOf(toks[1..][..n - 1]) == a + WordsOf(toks[..n]);
  }

  lemma AfterRedir<W>(a: seq<W>, rs: seq<(W, Mode)>, toks: seq<Token<W>>, n: nat)
    requires 2 <= n <= |toks| && IsRedir(toks[0]) && toks[1].Word?
    ensures After(a, rs, toks, n) == After(a, rs + [(toks[1].w, HowOpened(toks[0].c))], toks[2..], n - 2)
  {
    var r := (toks[1].w, HowOpened(toks[0].c));
    assert toks[..n][2..] == toks[2..][..n - 2] && toks[n..] == toks[2..][n - 2..];
    assert rs + [r] + FilesOf(toks[2..][..n - 2]) == rs + FilesOf(toks[..n]);
  }

  lemma AfterNone<W>(a: seq<W>, rs: seq<(W, Mode)>, toks: seq<Token<W>>)
    ensures After(a, rs, toks, 0) == Stop(Chain(Exec(a), rs), toks)
  {
    assert toks[0..] == toks && toks[..0] == [] && a + [] == a && rs + [] == rs;
  }

  lemma {:induction false} ScanIs<W>(a: seq<W>, rs: seq<(W, Mode)>, toks: seq<Token<W>>)
    requires |a| < MAXARGS
    ensures Scan(Chain(Exec(a), rs), toks) == After(a, rs, toks, Extent(toks, MAXARGS - 1 - |a|))
    decreases |toks|
  {
    var n := Extent(toks, MAXARGS - 1 - |a|);
    if toks != [] && toks[0].Word? && |a| + 1 < MAXARGS {
      ScanWord(a, rs, toks);
      ScanIs(a + [toks[0].w], rs, toks[1..]);
      AfterWord(a, rs, toks, n);
    } else if |toks| >= 2 && IsRedir(toks[0]) && toks[1].Word? {
      var r := (toks[1].w, HowOpened(toks[0].c));
      ScanRedir(Chain(Exec(a), rs), toks);
      ChainMore(Exec(a), rs, r);
      ScanIs(a, rs + [r], toks[2..]);
      AfterRedir(a, rs, toks, n);
    } else {
      ScanStops(a, rs, toks);
      AfterNone(a, rs, toks);
    }
  }

  /** parseexec on any tokens: it goes through the longest run of fewer than MAXARGS words and any redirections. The
      command is the redirections in order over the words in order; where it stops decides between success and the three
      errors. */
  lemma SimpleIs<W>(toks: seq<Token<W>>)
    ensures var n := Extent(toks, MAXARGS - 1);
            Simple(toks) == Stop(Chain(Exec(WordsOf(toks[..n])), FilesOf(toks[..n])), toks[n..])
  {
    var n := Extent(toks, MAXARGS - 1);
    ScanIs([], [], toks);
    assert [] + WordsOf(toks[..n]) == WordsOf(toks[..n]) && [] + FilesOf(toks[..n]) == FilesOf(toks[..n]);
  }

  /** What the run is, and why it ends where it does. */
  lemma {:induction false} ExtentIs<W>(toks: seq<Token<W>>, k: nat)
    ensures var n := Extent(toks, k);
            && Items(toks[..n]) && |WordsOf(toks[..n])| <= k
            && (n < |toks| && toks[n].Word? ==> |WordsOf(toks[..n])| == k)
            && (n < |toks| && IsRedir(toks[n]) ==> n + 1 == |toks| || !toks[n + 1].Word?)
    decreases |toks|
  {
    var n := Extent(toks, k);
    if toks != [] && toks[0].Word? && k > 0 {
      ExtentIs(toks[1..], k - 1);
      assert toks[..n][1..] == toks[1..][..n - 1];
    } else if |toks| >= 2 && IsRedir(toks[0]) && toks[1].Word? {
      ExtentIs(toks[2..], k);
      assert toks[..n][2..] == toks[2..][..n - 2];
    }
  }

  lemma {:induction false} ExtentOf<W>(items: seq<Token<W>>, k: nat, rest: seq<Token<W>>)
    requires Items(items) && |WordsOf(items)| <= k && Ends(rest)
    ensures Extent(items + rest, k) == |items|
    decreases |items|
  {
    if items == [] {
      assert items + rest == rest;
    } else if items[0].Word? {
      ExtentOf(items[1..], k - 1, rest);
      assert (items + rest)[1..] == items[1..] + rest;
    } else {
      ExtentOf(items[2..], k, rest);
      assert (items + rest)[2..] == items[2..] + rest;
    }
  }

  /** Any interleaving of words and redirections, up to a token that ends it. */
  lemma SimpleOfItems<W>(items: seq<Token<W>>, rest: seq<Token<W>>)
    requires Items(items) && Ends(rest)
    requires |WordsOf(items)| < MAXARGS
    ensures Simple(items + rest) == Ok(Chain(Exec(WordsOf(items)), FilesOf(items)), rest)
  {
    ExtentOf(items, MAXARGS - 1, rest);
    SimpleIs(items + rest);
    assert (items + rest)[..|items|] == items && (items + rest)[|items|..] == rest;
  }

  /** The redirections toks begins with. */
  function Leading<W>(toks: seq<Token<W>>): (n: nat)
    ensures n <= |toks|
    decreases |toks|
  {
    if |toks| >= 2 && IsRedir(toks[0]) && toks[1].Word? then 2 + Leading(toks[2..]) else 0
  }

  /** parseredirs takes exactly the redirections it finds in front, and fails exactly at one without a file. */
  lemma {:induction false} RedirsIs<W>(c: Cmd<W>, toks: seq<Token<W>>)
    ensures var n := Leading(toks);
            Redirs(c, toks) == if n < |toks| && IsRedir(toks[n]) then Fail(MissingFile)
                               else Ok(Chain(c, FilesOf(toks[..n])), toks[n..])
    decreases |toks|
  {
    var n := Leading(toks);
    if n == 0 {
      assert toks[..0] == [] && toks[0..] == toks;
      assert Sees(toks, "<>") <==> toks != [] && IsRedir(toks[0]);
    } else {
      var c' := Redir(c, toks[1].w, ModeOf(toks[0].c));
      RedirsIs(c', toks[2..]);
      assert toks[..n][2..] == toks[2..][..n - 2] && toks[n..] == toks[2..][n - 2..];
      assert n < |toks| ==> toks[n] == toks[2..][n - 2];
      assert FilesOf(toks[..n]) == [(toks[1].w, HowOpened(toks[0].c))] + FilesOf(toks[2..][..n - 2]);
      assert Sees(toks, "<>") && ModeOf(toks[0].c) == HowOpened(toks[0].c);
    }
  }

  lemma {:induction false} LeadingIs<W>(toks: seq<Token<W>>)
    ensures Items(toks[..Leading(toks)]) && WordsOf(toks[..Leading(toks)]) == []
    decreases |toks|
  {
    var n := Leading(toks);
    if n > 0 {
      LeadingIs(toks[2..]);
      assert toks[..n][2..] == toks[2..][..n - 2];
    }
  }

  lemma {:induction false} LeadingOf<W>(items: seq<Token<W>>, rest: seq<Token<W>>)
    requires Items(items) && WordsOf(items) == [] && Ends(rest)
    ensures Leading(items + rest) == |items|
    decreases |items|
  {
    if items == [] {
      assert items + rest == rest;
    } else {
      LeadingOf(items[2..], rest);
      assert (items + rest)[2..] == items[2..] + rest;
    }
  }

  // ---------------------------------------------------------------- the parser accepts the language

  lemma {:induction false} StripChain<W>(c: Cmd<W>, rs: seq<(W, Mode)>)
    ensures Strip(Chain(c, rs), |rs|) == c
    decreases |rs|
  {
    if rs == [] {
    } else {
      var n := |rs| - 1;
      assert rs == rs[..n] + [rs[n]];
      ChainMore(c, rs[..n], rs[n]);
      StripChain(c, rs[..n]);
    }
  }

  lemma BlockStep<W>(inner: seq<Token<W>>, b: Cmd<W>, tail: seq<Token<W>>, rest: seq<Token<W>>)
    requires Line(inner + ([Sym(')')] + (tail + rest))) == Ok(b, [Sym(')')] + (tail + rest))
    requires Redirs(b, tail + rest) == Ok(Chain(b, FilesOf(tail)), rest)
    ensures Operand([Sym('(')] + (inner + ([Sym(')')] + (tail + rest)))) == Ok(Chain(b, FilesOf(tail)), rest)
  {
    var after := [Sym(')')] + (tail + rest);
    var toks := [Sym('(')] + (inner + after);
    assert toks[1..] == inner + after && after[1..] == tail + rest;
  }

  lemma TailAccepted<W>(b: Cmd<W>, tail: seq<Token<W>>, rest: seq<Token<W>>)
    requires Items(tail) && WordsOf(tail) == [] && Ends(rest)
    ensures Redirs(b, tail + rest) == Ok(Chain(b, FilesOf(tail)), rest)
  {
    LeadingOf(tail, rest);
    RedirsIs(b, tail + rest);
    assert (tail + rest)[..|tail|] == tail && (tail + rest)[|tail|..] == rest;
  }

  lemma BlockSplit<T>(s: seq<T>, k: nat, rest: seq<T>)
    requires 0 < k < |s|
    ensures s + rest == [s[0]] + (s[1..k] + ([s[k]] + (s[k + 1..] + rest)))
  {
  }

  lemma {:induction false} BlockAccepted<W>(toks: seq<Token<W>>, k: nat, t: Cmd<W>, rest: seq<Token<W>>)
    requires 0 < k < |toks| && IsBlock(toks, k, t) && Ends(rest)
    ensures Operand(toks + rest) == Ok(t, rest)
    decreases |toks|, 0
  {
    var inner, tail := toks[1..k], toks[k + 1..];
    var b := Strip(t, |FilesOf(tail)|);
    TailAccepted(b, tail, rest);
    LineAccepted(inner, b, [Sym(')')] + (tail + rest));
    BlockStep(inner, b, tail, rest);
    BlockSplit(toks, k, rest);
  }

  lemma {:induction false} OperandAccepted<W>(toks: seq<Token<W>>, t: Cmd<W>, rest: seq<Token<W>>)
    requires IsOperand(toks, t) && Ends(rest)
    ensures Operand(toks + rest) == Ok(t, rest)
    decreases |toks|, 1
  {
    if IsSimple(toks, t) {
      SimpleOfItems(toks, rest);
    } else {
      var k :| 0 < k < |toks| && IsBlock(toks, k, t);
      BlockAccepted(toks, k, t, rest);
    }
  }

  lemma SplitAt<T>(s: seq<T>, k: nat, rest: seq<T>)
    requires k < |s|
    ensures s + rest == s[..k] + ([s[k]] + (s[k + 1..] + rest))
  {
  }

  lemma PipeOfOne<W>(toks: seq<Token<W>>, t: Cmd<W>, rest: seq<Token<W>>)
    requires Operand(toks) == Ok(t, rest) && !Sees(rest, "|")
    ensures Pipeline(toks) == Ok(t, rest)
  {
  }

  lemma PipeStep<W>(a: seq<Token<W>>, l: Cmd<W>, b: seq<Token<W>>, r: Cmd<W>, rest: seq<Token<W>>)
    requires Operand(a + ([Sym('|')] + (b + rest))) == Ok(l, [Sym('|')] + (b + rest))
    requires Pipeline(b + rest) == Ok(r, rest)
    ensures Pipeline(a + ([Sym('|')] + (b + rest))) == Ok(Pipe(l, r), rest)
  {
    assert ([Sym('|')] + (b + rest))[1..] == b + rest;
  }

  lemma {:induction false} PipeAccepted<W>(toks: seq<Token<W>>, t: Cmd<W>, rest: seq<Token<W>>)
    requires IsPipe(toks, t) && (rest == [] || Sees(rest, ")&;"))
    ensures Pipeline(toks + rest) == Ok(t, rest)
    decreases |toks|, 2
  {
    if IsOperand(toks, t) {
      OperandAccepted(toks, t, rest);
      PipeOfOne(toks + rest, t, rest);
    } else {
      var k :| 0 <= k < |toks| && PipedAt(toks, k, t);
      var a, b := toks[..k], toks[k + 1..];
      OperandAccepted(a, t.left, [Sym('|')] + (b + rest));
      PipeAccepted(b, t.right, rest);
      PipeStep(a, t.left, b, t.right, rest);
      SplitAt(toks, k, rest);
    }
  }

  lemma {:induction false} BackAccepted<W>(toks: seq<Token<W>>, t: Cmd<W>, rest: seq<Token<W>>)
    requires IsBack(toks, t) && (rest == [] || Sees(rest, ")&;"))
    ensures Backed(toks + rest) == Backs(t, rest)
    decreases |toks|, 3
  {
    if IsPipe(toks, t) {
      PipeAccepted(toks, t, rest);
    } else {
      var k := |toks| - 1;
      var after := [Sym('&')] + rest;
      assert toks + rest == toks[..k] + after;
      BackAccepted(toks[..k], t.cmd, after);
      assert after[1..] == rest;
    }
  }

  lemma ListStep<W>(a: seq<Token<W>>, l: Cmd<W>, b: seq<Token<W>>, r: Cmd<W>, rest: seq<Token<W>>)
    requires Backed(a + ([Sym(';')] + (b + rest))) == Backs(l, [Sym(';')] + (b + rest))
    requires Line(b + rest) == Ok(r, rest)
    ensures Line(a + ([Sym(';')] + (b + rest))) == Ok(List(l, r), rest)
  {
    assert ([Sym(';')] + (b + rest))[1..] == b + rest;
  }

  lemma {:induction false} LineAccepted<W>(toks: seq<Token<W>>, t: Cmd<W>, rest: seq<Token<W>>)
    requires IsLine(toks, t) && (rest == [] || Sees(rest, ")"))
    ensures Line(toks + rest) == Ok(t, rest)
    decreases |toks|, 4
  {
    if IsBack(toks, t) {
      BackAccepted(toks, t, rest);
    } else {
      var k :| 0 <= k < |toks| && ListedAt(toks, k, t);
      var a, b := toks[..k], toks[k + 1..];
      BackAccepted(a, t.left, [Sym(';')] + (b + rest));
      LineAccepted(b, t.right, rest);
      ListStep(a, t.left, b, t.right, rest);
      SplitAt(toks, k, rest);
    }
  }

  // ---------------------------------------------------------------- and nothing else

  lemma {:induction false} BlockSound<W>(toks: seq<Token<W>>) returns (n: nat)
    requires Sees(toks, "(") && Block(toks).Ok?
    ensures n <= |toks| && Block(toks).rest == toks[n..] && IsOperand(toks[..n], Block(toks).cmd)
    decreases |toks|, 0
  {
    var inner := toks[1..];
    var m := LineSound(inner);
    var b, after := Line(inner).cmd, inner[m + 1..];
    RedirsIs(b, after);
    LeadingIs(after);
    var j := Leading(after);
    var k := m + 1;
    n := k + 1 + j;
    var rs := FilesOf(after[..j]);
    StripChain(b, rs);
    assert toks[..n][1..k] == inner[..m] && toks[..n][k + 1..] == after[..j] && toks[n..] == after[j..];
    assert IsBlock(toks[..n], k, Chain(b, rs));
  }

  lemma {:induction false} OperandSound<W>(toks: seq<Token<W>>) returns (n: nat)
    requires Operand(toks).Ok?
    ensures n <= |toks| && Operand(toks).rest == toks[n..] && IsOperand(toks[..n], Operand(toks).cmd)
    decreases |toks|, 1
  {
    if Sees(toks, "(") {
      n := BlockSound(toks);
    } else {
      n := Extent(toks, MAXARGS - 1);
      SimpleIs(toks);
      ExtentIs(toks, MAXARGS - 1);
    }
  }

  lemma PipeJoin<W>(toks: seq<Token<W>>, k: nat, m: nat, l: Cmd<W>, r: Cmd<W>)
    requires k + 1 + m <= |toks| && toks[k] == Sym('|')
    requires IsOperand(toks[..k], l) && IsPipe(toks[k + 1..][..m], r)
    ensures IsPipe(toks[..k + 1 + m], Pipe(l, r)) && toks[k + 1 + m..] == toks[k + 1..][m..]
  {
    var n := k + 1 + m;
    assert toks[..n][..k] == toks[..k] && toks[..n][k + 1..] == toks[k + 1..][..m];
    assert PipedAt(toks[..n], k, Pipe(l, r));
  }

  lemma PipeAlone<W>(toks: seq<Token<W>>, n: nat)
    requires n <= |toks| && Operand(toks).Ok? && Operand(toks).rest == toks[n..] && !Sees(toks[n..], "|")
    requires IsOperand(toks[..n], Operand(toks).cmd)
    ensures Pipeline(toks) == Operand(toks) && IsPipe(toks[..n], Operand(toks).cmd)
  {
  }

  lemma PipeTwo<W>(toks: seq<Token<W>>, n: nat)
    requires n <= |toks| && Operand(toks).Ok? && Operand(toks).rest == toks[n..] && Sees(toks[n..], "|")
    requires Pipeline(toks).Ok?
    ensures toks[n] == Sym('|') && Pipeline(toks[n + 1..]).Ok?
    ensures Pipeline(toks) == Ok(Pipe(Operand(toks).cmd, Pipeline(toks[n + 1..]).cmd), Pipeline(toks[n + 1..]).rest)
  {
    assert toks[n..][1..] == toks[n + 1..];
  }

  lemma {:induction false} PipeSound<W>(toks: seq<Token<W>>) returns (n: nat)
    requires Pipeline(toks).Ok?
    ensures n <= |toks| && Pipeline(toks).rest == toks[n..] && IsPipe(toks[..n], Pipeline(toks).cmd)
    decreases |toks|, 2
  {
    var k := OperandSound(toks);
    if !Sees(toks[k..], "|") {
      PipeAlone(toks, k);
      n := k;
    } else {
      PipeTwo(toks, k);
      var m := PipeSound(toks[k + 1..]);
      PipeJoin(toks, k, m, Operand(toks).cmd, Pipeline(toks[k + 1..]).cmd);
      n := k + 1 + m;
    }
  }

  lemma {:induction false} BacksSound<W>(toks: seq<Token<W>>, n: nat, c: Cmd<W>) returns (m: nat)
    requires n <= |toks| && IsBack(toks[..n], c)
    ensures n <= m <= |toks| && Backs(c, toks[n..]).rest == toks[m..] && IsBack(toks[..m], Backs(c, toks[n..]).cmd)
    decreases |toks| - n
  {
    m := n;
    if Sees(toks[n..], "&") {
      assert toks[..n + 1][..n] == toks[..n] && toks[n..][1..] == toks[n + 1..];
      m := BacksSound(toks, n + 1, Back(c));
    }
  }

  lemma ListJoin<W>(toks: seq<Token<W>>, k: nat, m: nat, l: Cmd<W>, r: Cmd<W>)
    requires k + 1 + m <= |toks| && toks[k] == Sym(';')
    requires IsBack(toks[..k], l) && IsLine(toks[k + 1..][..m], r)
    ensures IsLine(toks[..k + 1 + m], List(l, r)) && toks[k + 1 + m..] == toks[k + 1..][m..]
  {
    var n := k + 1 + m;
    assert toks[..n][..k] == toks[..k] && toks[..n][k + 1..] == toks[k + 1..][..m];
    assert ListedAt(toks[..n], k, List(l, r));
  }

  lemma {:induction false} LineSound<W>(toks: seq<Token<W>>) returns (n: nat)
    requires Line(toks).Ok?
    ensures n <= |toks| && Line(toks).rest == toks[n..] && IsLine(toks[..n], Line(toks).cmd)
    decreases |toks|, 3
  {
    n := PipeSound(toks);
    n := BacksSound(toks, n, Pipeline(toks).cmd);
    if Sees(toks[n..], ";") {
      var k, after := n, toks[n + 1..];
      assert toks[n..][1..] == after;
      var m := LineSound(after);
      n := k + 1 + m;
      ListJoin(toks, k, m, Backed(toks).cmd, Line(after).cmd);
    }
  }

  /** The parser decides the language: it accepts exactly the lines, and gives each the command it is. */
  lemma CommandIsLine<W>(toks: seq<Token<W>>, t: Cmd<W>)
    ensures Command(toks) == Ok(t, []) <==> IsLine(toks, t)
  {
    if IsLine(toks, t) {
      LineAccepted(toks, t, []);
      assert toks + [] == toks;
    }
    if Command(toks) == Ok(t, []) {
      var n := LineSound(toks);
      assert toks[..n] == toks;
    }
  }
}
