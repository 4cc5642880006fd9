/** sh.c: tokens in the input buffer. */
module ShellLexer {
  import opened ShellGrammar

  /** The characters of a C string, up to its terminating NUL. */
  type CString = s: string | forall i :: 0 <= i < |s| ==> s[i] != '\0'

  /** A word is where it starts and ends in the input. */
  datatype Span = Span(from: nat, to: nat)

  predicate IsSpace(c: char) {
    c == ' ' || c == '\t' || c == '\r' || c == '\n' || c == '\U{0B}'
  }

  predicate IsSymbol(c: char) {
    c == '<' || c == '|' || c == '>' || c == '&' || c == ';' || c == '(' || c == ')'
  }

  predicate IsPlain(c: char) {
    !IsSpace(c) && !IsSymbol(c)
  }

  /** The first place from `i` on that is not blank. */
  function Skip(s: string, i: nat): (r: nat)
    requires i <= |s|
    ensures i <= r <= |s| && (r < |s| ==> !IsSpace(s[r])) && forall k :: i <= k < r ==> IsSpace(s[k])
    decreases |s| - i
  {
    if i < |s| && IsSpace(s[i]) then Skip(s, i + 1) else i
  }

  function WordEnd(s: string, i: nat): (r: nat)
    requires i <= |s|
    ensures i <= r <= |s| && (r < |s| ==> !IsPlain(s[r])) && forall k :: i <= k < r ==> IsPlain(s[k])
    decreases |s| - i
  {
    if i < |s| && IsPlain(s[i]) then WordEnd(s, i + 1) else i
  }

  datatype Lexed = Lexed(tok: Token<Span>, end: nat)

  /** The token that starts at `i`. */
  function First(s: string, i: nat): (r: Lexed)
    requires i < |s| && !IsSpace(s[i])
    ensures i < r.end <= |s|
  {
    if s[i] == '>' && i + 1 < |s| && s[i + 1] == '>' then Lexed(Sym('+'), i + 2)
    else if IsSymbol(s[i]) then Lexed(Sym(s[i]), i + 1)
    else Lexed(Word(Span(i, WordEnd(s, i))), WordEnd(s, i))
  }

  /** The tokens from `i` on. */
  function Lex(s: string, i: nat): seq<Token<Span>>
    requires i <= |s|
    decreases |s| - i
  {
    var j := Skip(s, i);
    if j == |s| then [] else [First(s, j).tok] + Lex(s, First(s, j).end)
  }

  lemma LexSkips(s: string, i: nat)
    requires i <= |s|
    ensures Lex(s, Skip(s, i)) == Lex(s, i)
  {
    assert Skip(s, Skip(s, i)) == Skip(s, i);
  }

  /** A word has only plain characters, and the next character, if any, is not plain. */
  ghost predicate IsWord(s: string, w: Span) {
    && w.from < w.to <= |s|
    && (forall k :: w.from <= k < w.to ==> IsPlain(s[k]))
    && (w.to < |s| ==> !IsPlain(s[w.to]))
  }

  lemma {:induction false} LexWords(s: string, i: nat)
    requires i <= |s|
    ensures forall k :: 0 <= k < |Lex(s, i)| && Lex(s, i)[k].Word? ==> IsWord(s, Lex(s, i)[k].w)
    decreases |s| - i
  {
    var j := Skip(s, i);
    if j < |s| {
      LexWords(s, First(s, j).end);
    }
  }

  // ------------------------------------------------------------------ the text of tokens

  function Slice(s: string, w: Span): string {
    if w.from <= w.to <= |s| then s[w.from..w.to] else ""
  }

  /** The tokens with the text of each word. */
  function Texts(s: string, ts: seq<Token<Span>>): seq<Token<string>> {
    if ts == [] then [] else [TextOf(s, ts[0])] + Texts(s, ts[1..])
  }

  function TextOf(s: string, t: Token<Span>): Token<string> {
    match t
    case Sym(c) => Sym(c)
    case Word(w) => Word(Slice(s, w))
  }

  lemma {:induction false} TextsMap(s: string, ts: seq<Token<Span>>)
    ensures Texts(s, ts) == MapTokens(w => Slice(s, w), ts)
  {
    if ts != [] {
      TextsMap(s, ts[1..]);
    }
  }

  lemma OneBlank(s: string, e: nat)
    requires e < |s| && IsSpace(s[e])
    ensures Lex(s, e) == Lex(s, e + 1)
  {
    assert Skip(s, e) == Skip(s, e + 1);
  }
}

/** sh.c as code: a cursor into the input moves along as commands are read. */
module Shell {
  import opened ShellGrammar
  import opened ShellLexer
  import opened ShellSyntax

  method SkipBlanks(s: CString, i: nat) returns (j: nat)
    requires i <= |s|
    ensures j == Skip(s, i)
  {
    j := i;
    while j < |s| && IsSpace(s[j])
      invariant i <= j <= |s| && Skip(s, j) == Skip(s, i)
    {
      j := j + 1;
    }
  }

  /** `gettoken`: the token's kind, 'a' for a word and NUL at the end of the input, where it starts and ends,
      and the cursor after it. */
  method GetToken(s: CString, i: nat) returns (ret: char, q: nat, eq: nat, j: nat)
    requires i <= |s|
    ensures i <= j <= |s|
    ensures ret == '\0' <==> Lex(s, i) == []
    ensures ret == 'a' <==> Lex(s, i) != [] && Lex(s, i)[0].Word?
    ensures ret == 'a' ==> Lex(s, i)[0] == Word(Span(q, eq))
    ensures ret != '\0' && ret != 'a' ==> Lex(s, i)[0] == Sym(ret)
    ensures ret != '\0' ==> i < j && Lex(s, j) == Lex(s, i)[1..]
    ensures ret == '\0' ==> j == |s|
  {
    j := SkipBlanks(s, i);
    q := j;
    if j == |s| {
      return '\0', q, j, j;
    }
    ghost var f := First(s, j);
    if s[j] == '>' {
      ret, j := '>', j + 1;
      if j < |s| && s[j] == '>' {
        ret, j := '+', j + 1;
      }
    } else if IsSymbol(s[j]) {
      ret, j := s[j], j + 1;
    } else {
      ret := 'a';
      while j < |s| && !IsSpace(s[j]) && !IsSymbol(s[j])
        invariant q <= j <= |s| && WordEnd(s, j) == WordEnd(s, q)
      {
        j := j + 1;
      }
    }
    eq := j;
    assert j == f.end;
    LexSkips(s, j);
    j := SkipBlanks(s, j);
  }

  /** `peek`: the cursor moves past blanks. */
  method PeekAt(s: CString, i: nat, toks: string) returns (b: bool, j: nat)
    requires i <= |s|
    ensures i <= j <= |s| && Lex(s, j) == Lex(s, i) && (j == |s| <==> Lex(s, i) == [])
    ensures |toks| == 1 && IsSymbol(toks[0]) && toks[0] != '>' ==> (b <==> Peek(Lex(s, i), toks[0]))
    ensures toks == "<>" ==> (b <==> PeekRedir(Lex(s, i)))
    ensures toks == "|)&;" ==> (b <==> PeekStop(Lex(s, i)))
  {
    LexSkips(s, i);
    j := SkipBlanks(s, i);
    b := j < |s| && s[j] in toks;
  }

  /** A parsing routine went from `i` to `j` as the grammar says. */
  ghost predicate Follows(s: CString, j: nat, r: Result<Cmd<Span>>, spec: Result<Parsed<Span>>)
    requires j <= |s|
  {
    match r
    case Err(e) => spec == Err(e)
    case Ok(c) => spec == Ok(Parsed(c, Lex(s, j)))
  }

  /** One turn of the loop of parseredirs. */
  lemma RedirStep(ts: seq<Token<Span>>, rs: seq<Redirection<Span>>)
    requires PeekRedir(ts)
    ensures var more := ts[1..];
      ParseRedirs(ts, rs) ==
      if more == [] || !more[0].Word? then Err(MissingFile)
      else ParseRedirs(more[1..], rs + [To(more[0].w, ts[0] != Sym('<'))])
  {
    assert |ts| >= 2 ==> ts[1..][1..] == ts[2..];
  }

  /** `parseredirs`, from the redirections so far. */
  method ParseRedirsAt(s: CString, i: nat, rs: seq<Redirection<Span>>)
    returns (r: Result<seq<Redirection<Span>>>, j: nat)
    requires i <= |s|
    ensures i <= j <= |s|
    ensures r.Ok? ==> ParseRedirs(Lex(s, i), rs) == Ok(Redirs(r.value, Lex(s, j)))
    ensures r.Err? ==> ParseRedirs(Lex(s, i), rs) == Err(r.error)
  {
    var b, tok, tok2, q, eq;
    var to := rs;
    b, j := PeekAt(s, i, "<>");
    while b
      invariant i <= j <= |s| && ParseRedirs(Lex(s, j), to) == ParseRedirs(Lex(s, i), rs)
      invariant b <==> PeekRedir(Lex(s, j))
      decreases |s| - j
    {
      ghost var ts := Lex(s, j);
      tok, q, eq, j := GetToken(s, j);
      tok2, q, eq, j := GetToken(s, j);
      RedirStep(ts, to);
      if tok2 != 'a' {
        return Err(MissingFile), j;
      }
      to := to + [To(Span(q, eq), tok != '<')];
      b, j := PeekAt(s, j, "<>");
    }
    r := Ok(to);
  }

  /** The loop of `parseexec`. */
  method ParseArgsAt(s: CString, i: nat, rs: seq<Redirection<Span>>) returns (r: Result<Cmd<Span>>, j: nat)
    requires i <= |s|
    ensures i <= j <= |s| && Follows(s, j, r, ParseArgs(Lex(s, i), [], rs))
  {
    var to, argv := rs, [];
    var b, tok, q, eq;
    b, j := PeekAt(s, i, "|)&;");
    while !b
      invariant i <= j <= |s| && ParseArgs(Lex(s, j), argv, to) == ParseArgs(Lex(s, i), [], rs)
      invariant (b <==> PeekStop(Lex(s, j))) && |argv| < MAXARGS
      decreases |s| - j
    {
      tok, q, eq, j := GetToken(s, j);
      if tok == '\0' {
        break;
      }
      if tok != 'a' {
        return Err(Syntax), j;
      }
      if |argv| + 1 >= MAXARGS {
        return Err(TooManyArgs), j;
      }
      var x;
      x, j := ParseRedirsAt(s, j, to);
      if x.Err? {
        return Err(x.error), j;
      }
      argv, to := argv + [Span(q, eq)], x.value;
      b, j := PeekAt(s, j, "|)&;");
    }
    r := Ok(Wrap(Exec(argv), to));
  }

  /** `parseblock`. */
  method ParseBlockAt(s: CString, i: nat) returns (r: Result<Cmd<Span>>, j: nat)
    requires i <= |s| && Peek(Lex(s, i), '(')
    ensures i < j <= |s| && Follows(s, j, r, ParseExec(Lex(s, i)))
    decreases |s| - i, 0
  {
    var tok, q, eq, b;
    tok, q, eq, j := GetToken(s, i);
    r, j := ParseLineAt(s, j);
    if r.Err? {
      return;
    }
    b, j := PeekAt(s, j, ")");
    if !b {
      return Err(MissingParen), j;
    }
    tok, q, eq, j := GetToken(s, j);
    var x;
    x, j := ParseRedirsAt(s, j, []);
    r := if x.Err? then Err(x.error) else Ok(Wrap(r.value, x.value));
  }

  /** `parseexec`. */
  method ParseExecAt(s: CString, i: nat) returns (r: Result<Cmd<Span>>, j: nat)
    requires i <= |s|
    ensures i <= j <= |s| && Follows(s, j, r, ParseExec(Lex(s, i)))
    decreases |s| - i, 1
  {
    var b;
    b, j := PeekAt(s, i, "(");
    if b {
      r, j := ParseBlockAt(s, j);
      return;
    }
    var x;
    x, j := ParseRedirsAt(s, j, []);
    if x.Err? {
      return Err(x.error), j;
    }
    r, j := ParseArgsAt(s, j, x.value);
  }

  /** `parsepipe`. */
  method ParsePipeAt(s: CString, i: nat) returns (r: Result<Cmd<Span>>, j: nat)
    requires i <= |s|
    ensures i <= j <= |s| && Follows(s, j, r, ParsePipe(Lex(s, i)))
    decreases |s| - i, 2
  {
    r, j := ParseExecAt(s, i);
    if r.Err? {
      return;
    }
    var b, tok, q, eq;
    b, j := PeekAt(s, j, "|");
    if b {
      tok, q, eq, j := GetToken(s, j);
      var right;
      right, j := ParsePipeAt(s, j);
      r := if right.Err? then right else Ok(Pipe(r.value, right.value));
    }
  }

  /** The loop of `parseline`. */
  method ParseBacksAt(s: CString, i: nat, c: Cmd<Span>) returns (d: Cmd<Span>, j: nat)
    requires i <= |s|
    ensures i <= j <= |s| && ParseBacks(c, Lex(s, i)) == Parsed(d, Lex(s, j))
  {
    d := c;
    var b, tok, q, eq;
    b, j := PeekAt(s, i, "&");
    while b
      invariant i <= j <= |s| && ParseBacks(d, Lex(s, j)) == ParseBacks(c, Lex(s, i))
      invariant b <==> Peek(Lex(s, j), '&')
      decreases |s| - j
    {
      tok, q, eq, j := GetToken(s, j);
      d := Back(d);
      b, j := PeekAt(s, j, "&");
    }
  }

  /** `parseline`. */
  method ParseLineAt(s: CString, i: nat) returns (r: Result<Cmd<Span>>, j: nat)
    requires i <= |s|
    ensures i <= j <= |s| && Follows(s, j, r, ParseLine(Lex(s, i)))
    decreases |s| - i, 3
  {
    r, j := ParsePipeAt(s, i);
    if r.Err? {
      return;
    }
    var c;
    c, j := ParseBacksAt(s, j, r.value);
    r := Ok(c);
    var b, tok, q, eq;
    b, j := PeekAt(s, j, ";");
    if b {
      tok, q, eq, j := GetToken(s, j);
      var right;
      right, j := ParseLineAt(s, j);
      r := if right.Err? then right else Ok(List(c, right.value));
    }
  }

  /** `parsecmd`, before nulterminate. */
  method ParseInput(s: CString) returns (r: Result<Cmd<Span>>)
    ensures r == ParseCmd(Lex(s, 0))
  {
    var j, b;
    r, j := ParseLineAt(s, 0);
    if r.Err? {
      return;
    }
    b, j := PeekAt(s, j, "");
    if j != |s| {
      r := Err(Leftovers);
    }
  }

  // ------------------------------------------------------------------ ending the words

  /** Where the words of a command end. */
  function Ends(c: Cmd<Span>): set<nat> {
    match c
    case Exec(argv) => set k | 0 <= k < |argv| :: argv[k].to
    case Redir(d, to) => Ends(d) + {to.file.to}
    case Pipe(l, r) => Ends(l) + Ends(r)
    case List(l, r) => Ends(l) + Ends(r)
    case Back(d) => Ends(d)
  }

  /** `nulterminate`: NUL is written at the end of each word and nowhere else. */
  method NulTerminate(c: Cmd<Span>, buf: array<char>)
    requires forall k :: k in Ends(c) ==> k < buf.Length
    modifies buf
    ensures forall k :: 0 <= k < buf.Length ==> buf[k] == if k in Ends(c) then '\0' else old(buf[k])
  {
    match c
    case Exec(argv) =>
      for i := 0 to |argv|
        invariant forall k :: 0 <= k < buf.Length ==>
          buf[k] == if exists m :: 0 <= m < i && argv[m].to == k then '\0' else old(buf[k])
      {
        assert argv[i].to in Ends(c);
        buf[argv[i].to] := '\0';
      }
    case Redir(d, to) =>
      assert Ends(d) <= Ends(c) && to.file.to in Ends(c);
      NulTerminate(d, buf);
      buf[to.file.to] := '\0';
    case Pipe(l, r) =>
      assert Ends(l) <= Ends(c) && Ends(r) <= Ends(c);
      NulTerminate(l, buf);
      NulTerminate(r, buf);
    case List(l, r) =>
      assert Ends(l) <= Ends(c) && Ends(r) <= Ends(c);
      NulTerminate(l, buf);
      NulTerminate(r, buf);
    case Back(d) =>
      assert Ends(d) <= Ends(c);
      NulTerminate(d, buf);
  }

  /** The C string that starts at `i`. */
  function StringAt(b: seq<char>, i: nat): string
    requires i <= |b|
    decreases |b| - i
  {
    if i == |b| || b[i] == '\0' then "" else [b[i]] + StringAt(b, i + 1)
  }

  lemma {:induction false} StringIs(b: seq<char>, i: nat, e: nat)
    requires i <= e < |b| && b[e] == '\0' && forall k :: i <= k < e ==> b[k] != '\0'
    ensures StringAt(b, i) == b[i..e]
    decreases e - i
  {
    if i < e {
      StringIs(b, i + 1, e);
    }
  }

  /** No word ends inside another. */
  lemma {:induction false} EndsOutside(s: string, c: Cmd<Span>, k: nat, w: Span)
    requires All(c, w => IsWord(s, w)) && k in Ends(c) && IsWord(s, w)
    ensures k <= |s| && !(w.from <= k < w.to)
  {
    match c
    case Exec(argv) =>
      var m :| 0 <= m < |argv| && argv[m].to == k;
      assert IsWord(s, argv[m]);
    case Redir(d, to) =>
      if k in Ends(d) {
        EndsOutside(s, d, k, w);
      } else {
        assert IsWord(s, to.file);
      }
    case Pipe(l, r) => EndsOutside(s, if k in Ends(l) then l else r, k, w);
    case List(l, r) => EndsOutside(s, if k in Ends(l) then l else r, k, w);
    case Back(d) => EndsOutside(s, d, k, w);
  }

  lemma {:induction false} EndsWithin(s: string, c: Cmd<Span>, k: nat)
    requires All(c, w => IsWord(s, w)) && k in Ends(c)
    ensures k <= |s|
  {
    match c
    case Exec(argv) =>
      var m :| 0 <= m < |argv| && argv[m].to == k;
      assert IsWord(s, argv[m]);
    case Redir(d, to) =>
      if k in Ends(d) {
        EndsWithin(s, d, k);
      } else {
        assert IsWord(s, to.file);
      }
    case Pipe(l, r) => EndsWithin(s, if k in Ends(l) then l else r, k);
    case List(l, r) => EndsWithin(s, if k in Ends(l) then l else r, k);
    case Back(d) => EndsWithin(s, d, k);
  }

  /** A buffer with NUL at the ends of the words of `c`, and the input's own NUL. */
  ghost predicate Terminated(s: string, c: Cmd<Span>, b: seq<char>) {
    |b| == |s| + 1 && forall k :: 0 <= k < |b| ==> b[k] == if k in Ends(c) || k == |s| then '\0' else s[k]
  }

  /** Read as a C string, the word is its own text. */
  predicate Reads(s: string, b: seq<char>, w: Span) {
    w.from <= w.to <= |s| && w.from <= |b| && StringAt(b, w.from) == s[w.from..w.to]
  }

  /** A word that ends at a NUL has none before. */
  lemma WordSurvives(s: CString, c: Cmd<Span>, b: seq<char>, w: Span)
    requires All(c, w => IsWord(s, w)) && Terminated(s, c, b) && IsWord(s, w) && w.to in Ends(c)
    ensures Reads(s, b, w)
  {
    forall k | w.from <= k < w.to ensures b[k] == s[k] && b[k] != '\0' {
      if k in Ends(c) {
        EndsOutside(s, c, k, w);
      }
    }
    StringIs(b, w.from, w.to);
    assert b[w.from..w.to] == s[w.from..w.to];
  }

  ghost predicate Legible(s: string, b: seq<char>, c: Cmd<Span>) {
    All(c, (w: Span) => Reads(s, b, w))
  }

  lemma {:induction false} AllSurvive(s: CString, c: Cmd<Span>, b: seq<char>, d: Cmd<Span>)
    requires All(c, w => IsWord(s, w)) && Terminated(s, c, b) && All(d, w => IsWord(s, w)) && Ends(d) <= Ends(c)
    ensures Legible(s, b, d)
  {
    match d
    case Exec(argv) =>
      forall k | 0 <= k < |argv| ensures Reads(s, b, argv[k]) {
        assert argv[k].to in Ends(d) && IsWord(s, argv[k]);
        WordSurvives(s, c, b, argv[k]);
      }
    case Redir(e, to) =>
      AllSurvive(s, c, b, e);
      assert to.file.to in Ends(d) && IsWord(s, to.file);
      WordSurvives(s, c, b, to.file);
    case Pipe(l, r) =>
      AllSurvive(s, c, b, l);
      AllSurvive(s, c, b, r);
    case List(l, r) =>
      AllSurvive(s, c, b, l);
      AllSurvive(s, c, b, r);
    case Back(e) =>
      AllSurvive(s, c, b, e);
  }

  /** `parsecmd`: the tree is the one the grammar gives, and in the buffer every argument and file name has
      become a C string of its own, equal to its token. */
  method ParseCommand(s: CString, buf: array<char>) returns (r: Result<Cmd<Span>>)
    requires buf[..] == s + ['\0']
    modifies buf
    ensures r == ParseCmd(Lex(s, 0))
    ensures r.Ok? <==> exists l, c :: Writes(l, Lex(s, 0), c)
    ensures forall l, c :: Writes(l, Lex(s, 0), c) ==> r == Ok(c)
    ensures r.Ok? ==> Legible(s, buf[..], r.value)
  {
    r := ParseInput(s);
    GrammarDecides(Lex(s, 0));
    if r.Ok? {
      LexWords(s, 0);
      ParsedIsGood(Lex(s, 0), w => IsWord(s, w));
      forall k | k in Ends(r.value) ensures k < buf.Length {
        EndsWithin(s, r.value, k);
      }
      NulTerminate(r.value, buf);
      assert Terminated(s, r.value, buf[..]);
      AllSurvive(s, r.value, buf[..], r.value);
    }
  }
}
