/** Command lines as text: how tokens may be written, and that each text is read as the one sequence of tokens that it
    can be a writing of. */
module ShellText {
  import opened Sealed
  import opened ShellGrammar
  import opened ShellLexer
  import opened ShellSyntax

  const WHITESPACE: string := " \t\r\n\U{0B}"
  const SYMBOLS: string := "<|>&;()"

  /** A token and the blanks after it. */
  datatype Piece = Piece(tok: Token<string>, gap: string)

  predicate Blank(gap: string) {
    forall i :: 0 <= i < |gap| ==> gap[i] in WHITESPACE
  }

  predicate Plain(w: string) {
    w != "" && forall i :: 0 <= i < |w| ==> w[i] !in WHITESPACE && w[i] !in SYMBOLS
  }

  predicate Sayable(t: Token<string>) {
    match t
    case Sym(c) => c in SYMBOLS || c == '+'
    case Word(w) => Plain(w)
  }

  function Spelling(t: Token<string>): string {
    match t
    case Sym(c) => if c == '+' then ">>" else [c]
    case Word(w) => w
  }

  /** Without a blank between them they would be read as something else. */
  predicate Apart(a: Token<string>, b: Token<string>) {
    (a.Word? && b.Word?) || (a == Sym('>') && (b == Sym('>') || b == Sym('+')))
  }

  predicate Proper(ps: seq<Piece>) {
    && (forall i :: 0 <= i < |ps| ==> Sayable(ps[i].tok) && Blank(ps[i].gap))
    && forall i :: 0 <= i < |ps| - 1 && Apart(ps[i].tok, ps[i + 1].tok) ==> ps[i].gap != ""
  }

  function Tokens(ps: seq<Piece>): seq<Token<string>> {
    seq(|ps|, i requires 0 <= i < |ps| => ps[i].tok)
  }

  function Typeset(ps: seq<Piece>): string {
    if ps == [] then "" else Spelling(ps[0].tok) + (ps[0].gap + Typeset(ps[1..]))
  }

  // ------------------------------------------------------------------ reading what was written

  lemma Alphabet(c: char)
    ensures IsSpace(c) <==> c in WHITESPACE
    ensures IsSymbol(c) <==> c in SYMBOLS
  {
  }

  /** From `i` on, the input reads as these tokens. */
  ghost function ReadsAs(s: string, i: nat, ts: seq<Token<string>>): Status {
    if forall k {:trigger Open(k)} :: k == 0 ==> i <= |s| && Texts(s, Lex(s, i)) == ts then Sound else Broken
  }

  lemma ReadsBlank(s: string, i: nat, ts: seq<Token<string>>)
    requires i < |s| && IsSpace(s[i]) && ReadsAs(s, i + 1, ts) == Sound
    ensures ReadsAs(s, i, ts) == Sound
  {
    assert Open(0);
    OneBlank(s, i);
  }

  lemma {:induction false} ReadsGap(s: string, i: nat, gap: string, ts: seq<Token<string>>)
    requires i + |gap| <= |s| && s[i..i + |gap|] == gap && Blank(gap) && ReadsAs(s, i + |gap|, ts) == Sound
    ensures ReadsAs(s, i, ts) == Sound
    decreases |gap|
  {
    if gap != "" {
      assert s[i] == gap[0];
      Alphabet(s[i]);
      assert s[i + 1..i + |gap|] == gap[1..];
      ReadsGap(s, i + 1, gap[1..], ts);
      ReadsBlank(s, i, ts);
    }
  }

  lemma ReadsHead(s: string, i: nat, ts: seq<Token<string>>)
    requires i < |s| && !IsSpace(s[i]) && ReadsAs(s, First(s, i).end, ts) == Sound
    ensures ReadsAs(s, i, [TextOf(s, First(s, i).tok)] + ts) == Sound
  {
    assert Open(0);
    var f := First(s, i);
    var all := [f.tok] + Lex(s, f.end);
    assert Lex(s, i) == all && all[1..] == Lex(s, f.end);
  }

  /** What stands after a token does not become part of it. */
  predicate EndsThere(t: Token<string>, rest: string) {
    && (t.Word? && rest != "" ==> rest[0] in WHITESPACE || rest[0] in SYMBOLS)
    && (t == Sym('>') && rest != "" ==> rest[0] != '>')
  }

  lemma PiecesEnd(ps: seq<Piece>)
    requires ps != [] && Proper(ps)
    ensures EndsThere(ps[0].tok, ps[0].gap + Typeset(ps[1..]))
  {
    var rest := ps[0].gap + Typeset(ps[1..]);
    if ps[0].gap != "" {
      assert rest[0] == ps[0].gap[0];
    } else if |ps| > 1 {
      var next := ps[1].tok;
      assert rest == Typeset(ps[1..]) && ps[1..][0] == ps[1];
      assert Sayable(next);
      assert rest[0] == Spelling(next)[0];
    }
  }

  lemma FirstWord(s: string, i: nat, w: string, rest: string)
    requires i <= |s| && s[i..] == w + rest && Plain(w) && EndsThere(Word(w), rest)
    ensures i < |s| && !IsSpace(s[i]) && First(s, i) == Lexed(Word(Span(i, i + |w|)), i + |w|)
    ensures s[i..i + |w|] == w && s[i + |w|..] == rest
  {
    var e := i + |w|;
    assert s[i..][..|w|] == w && s[i..][|w|..] == rest;
    forall k | i <= k < e ensures IsPlain(s[k]) {
      assert s[k] == s[i..][k - i] == w[k - i];
      Alphabet(s[k]);
    }
    if e < |s| {
      assert s[e] == rest[0];
      Alphabet(s[e]);
    }
    EndOfWord(s, i, e);
  }

  lemma {:induction false} EndOfWord(s: string, i: nat, e: nat)
    requires i <= e <= |s| && (e < |s| ==> !IsPlain(s[e])) && forall k :: i <= k < e ==> IsPlain(s[k])
    ensures WordEnd(s, i) == e
    decreases e - i
  {
    if i < e {
      EndOfWord(s, i + 1, e);
    }
  }

  lemma FirstSymbol(s: string, i: nat, c: char, rest: string)
    requires i <= |s| && s[i..] == Spelling(Sym(c)) + rest && Sayable(Sym(c)) && EndsThere(Sym(c), rest)
    ensures i < |s| && !IsSpace(s[i]) && First(s, i) == Lexed(Sym(c), i + |Spelling(Sym(c))|)
    ensures s[i + |Spelling(Sym(c))|..] == rest
  {
    var u := s[i..];
    assert s[i] == u[0];
    Alphabet(s[i]);
    if i + 1 < |s| {
      assert s[i + 1] == u[1];
    }
    assert u[|Spelling(Sym(c))|..] == rest;
  }

  lemma CutTwo(s: string, i: nat, a: string, b: string, c: string)
    requires i <= |s| && s[i..] == a + (b + c)
    ensures i + |a| + |b| <= |s| && s[i + |a|..i + |a| + |b|] == b && s[i + |a| + |b|..] == c
  {
    var u := s[i..];
    assert u[|a|..|a| + |b|] == b && u[|a| + |b|..] == c;
  }

  lemma FirstToken(s: string, i: nat, t: Token<string>, rest: string)
    requires i <= |s| && s[i..] == Spelling(t) + rest && Sayable(t) && EndsThere(t, rest)
    ensures i < |s| && !IsSpace(s[i]) && First(s, i).end == i + |Spelling(t)| && TextOf(s, First(s, i).tok) == t
  {
    if t.Word? {
      FirstWord(s, i, t.w, rest);
    } else {
      FirstSymbol(s, i, t.c, rest);
    }
  }

  /** From `i` on, the text is `rest`. */
  ghost function EndsIn(s: string, i: nat, rest: string): Status {
    if forall k {:trigger Open(k)} :: k == 0 ==> i <= |s| && s[i..] == rest then Sound else Broken
  }

  lemma EndsCut(s: string, i: nat, a: string, b: string, c: string)
    requires EndsIn(s, i, a + (b + c)) == Sound
    ensures EndsIn(s, i + |a| + |b|, c) == Sound
  {
    assert Open(0);
    CutTwo(s, i, a, b, c);
  }

  lemma LexPiece(s: string, i: nat, t: Token<string>, gap: string, more: string, ts: seq<Token<string>>)
    requires EndsIn(s, i, Spelling(t) + (gap + more)) == Sound && Sayable(t) && Blank(gap) && EndsThere(t, gap + more)
    requires ReadsAs(s, i + |Spelling(t)| + |gap|, ts) == Sound
    ensures ReadsAs(s, i, [t] + ts) == Sound
  {
    assert i <= |s| && s[i..] == Spelling(t) + (gap + more) by {
      assert Open(0);
    }
    FirstToken(s, i, t, gap + more);
    CutTwo(s, i, Spelling(t), gap, more);
    ReadsGap(s, i + |Spelling(t)|, gap, ts);
    ReadsHead(s, i, ts);
  }

  /** Tokens written out properly are read as they were. */
  lemma {:induction false} LexTypeset(s: string, i: nat, ps: seq<Piece>)
    requires EndsIn(s, i, Typeset(ps)) == Sound && Proper(ps)
    ensures ReadsAs(s, i, Tokens(ps)) == Sound
    decreases |ps|
  {
    if ps == [] {
      NothingLeft(s, i);
      assert Tokens(ps) == [];
    } else {
      var t, gap, more := ps[0].tok, ps[0].gap, Typeset(ps[1..]);
      PiecesEnd(ps);
      ProperTail(ps);
      EndsCut(s, i, Spelling(t), gap, more);
      LexTypeset(s, i + |Spelling(t)| + |gap|, ps[1..]);
      LexPiece(s, i, t, gap, more, Tokens(ps[1..]));
      TokensHead(ps);
    }
  }

  lemma NothingLeft(s: string, i: nat)
    requires EndsIn(s, i, "") == Sound
    ensures ReadsAs(s, i, []) == Sound
  {
    assert Open(0);
    assert Texts(s, Lex(s, i)) == [];
  }

  lemma TokensHead(ps: seq<Piece>)
    requires ps != []
    ensures Tokens(ps) == [ps[0].tok] + Tokens(ps[1..])
  {
  }

  lemma ProperTail(ps: seq<Piece>)
    requires ps != [] && Proper(ps)
    ensures Proper(ps[1..])
  {
    var qs := ps[1..];
    forall i | 0 <= i < |qs| - 1 && Apart(qs[i].tok, qs[i + 1].tok) ensures qs[i].gap != "" {
      assert qs[i] == ps[i + 1] && qs[i + 1] == ps[i + 2];
    }
  }

  // ------------------------------------------------------------------ every text is a writing of tokens

  lemma FirstIs(s: string, i: nat)
    requires i < |s| && !IsSpace(s[i])
    ensures var t, e := TextOf(s, First(s, i).tok), First(s, i).end;
      && Sayable(t) && s[i..e] == Spelling(t)
      && (t.Word? && e < |s| ==> !IsPlain(s[e])) && (t == Sym('>') && e < |s| ==> s[e] != '>')
      && (t.Word? ==> IsPlain(s[i])) && (t == Sym('>') || t == Sym('+') ==> s[i] == '>')
  {
    var f := First(s, i);
    Alphabet(s[i]);
    if f.tok.Word? {
      forall k | i <= k < f.end ensures s[k] !in WHITESPACE && s[k] !in SYMBOLS {
        Alphabet(s[k]);
      }
    }
  }

  lemma GapBlank(s: string, e: nat)
    requires e <= |s|
    ensures Blank(s[e..Skip(s, e)])
  {
    var gap := s[e..Skip(s, e)];
    forall k | 0 <= k < |gap| ensures gap[k] in WHITESPACE {
      assert gap[k] == s[e + k];
      Alphabet(s[e + k]);
    }
  }

  lemma JoinThree(s: string, i: nat, e: nat, j: nat)
    requires i <= e <= j <= |s|
    ensures s[i..] == s[i..e] + (s[e..j] + s[j..])
  {
  }

  /** Two tokens that would run together are not next to each other. */
  lemma StandApart(s: string, i: nat, e: nat)
    requires i < |s| && !IsSpace(s[i]) && e == First(s, i).end < |s| && !IsSpace(s[e])
    ensures !Apart(TextOf(s, First(s, i).tok), TextOf(s, First(s, e).tok))
  {
    FirstIs(s, i);
    FirstIs(s, e);
  }

  lemma {:induction false} Pieces(s: string, i: nat) returns (ps: seq<Piece>)
    requires i <= |s| && (i < |s| ==> !IsSpace(s[i]))
    ensures Proper(ps) && s[i..] == Typeset(ps)
    ensures if i < |s| then ps != [] && ps[0].tok == TextOf(s, First(s, i).tok) else ps == []
    decreases |s| - i
  {
    if i == |s| {
      ps := [];
    } else {
      var t, e := TextOf(s, First(s, i).tok), First(s, i).end;
      var j := Skip(s, e);
      var more := Pieces(s, j);
      FirstIs(s, i);
      GapBlank(s, e);
      if e == j < |s| {
        StandApart(s, i, e);
      }
      ps := [Piece(t, s[e..j])] + more;
      assert ps[1..] == more;
      ProperCons(Piece(t, s[e..j]), more);
      JoinThree(s, i, e, j);
    }
  }

  lemma ProperCons(p: Piece, ps: seq<Piece>)
    requires Proper(ps) && Sayable(p.tok) && Blank(p.gap) && (ps != [] && Apart(p.tok, ps[0].tok) ==> p.gap != "")
    ensures Proper([p] + ps)
  {
    var qs := [p] + ps;
    forall i | 0 <= i < |qs| - 1 && Apart(qs[i].tok, qs[i + 1].tok) ensures qs[i].gap != "" {
      if i > 0 {
        assert qs[i] == ps[i - 1] && qs[i + 1] == ps[i];
      }
    }
  }

  /** `s` is a writing of the tokens: perhaps blanks, then the tokens with blanks after each, and at least one where two
      words or two `>` would run together. */
  ghost predicate IsWriting(s: string, lead: string, ps: seq<Piece>, ts: seq<Token<string>>) {
    Blank(lead) && Proper(ps) && s == lead + Typeset(ps) && Tokens(ps) == ts
  }

  /** Every text is a writing of the tokens it is read as. */
  lemma EveryText(s: string) returns (lead: string, ps: seq<Piece>)
    ensures IsWriting(s, lead, ps, Texts(s, Lex(s, 0)))
  {
    var i := Skip(s, 0);
    lead := s[..i];
    ps := Pieces(s, i);
    GapBlank(s, 0);
    assert s[0..i] == lead && s == lead + s[i..];
    WritingLexes(s, lead, ps);
  }

  /** A text is read as certain tokens exactly if it is a writing of them. */
  lemma LexesExactly(s: string, ts: seq<Token<string>>)
    ensures Texts(s, Lex(s, 0)) == ts <==> exists lead, ps :: IsWriting(s, lead, ps, ts)
  {
    var lead, ps := EveryText(s);
    forall lead, qs | IsWriting(s, lead, qs, ts) ensures Texts(s, Lex(s, 0)) == ts {
      WritingLexes(s, lead, qs);
    }
  }

  lemma WritingLexes(s: string, lead: string, ps: seq<Piece>)
    requires Blank(lead) && Proper(ps) && s == lead + Typeset(ps)
    ensures Texts(s, Lex(s, 0)) == Tokens(ps)
  {
    assert s[0..|lead|] == lead && s[|lead|..] == Typeset(ps);
    assert EndsIn(s, |lead|, Typeset(ps)) == Sound;
    LexTypeset(s, |lead|, ps);
    ReadsGap(s, 0, lead, Tokens(ps));
    assert Open(0);
  }

  // ------------------------------------------------------------------ commands as text

  /** What the shell makes of a text, with words instead of their places. */
  function ParseText(s: string): Result<Cmd<string>> {
    match ParseCmd(Lex(s, 0))
    case Err(e) => Err(e)
    case Ok(c) => Ok(MapCmd(w => Slice(s, w), c))
  }

  lemma ParseTextIs(s: string)
    ensures ParseText(s) == ParseCmd(Texts(s, Lex(s, 0)))
  {
    TextsMap(s, Lex(s, 0));
    MapParseCmd(w => Slice(s, w), Lex(s, 0));
  }

  /** `s` is a way to write `c` as text. */
  ghost predicate Says(s: string, c: Cmd<string>, l: LineSyn<string>, lead: string, ps: seq<Piece>) {
    Writes(l, LineTokens(l), c) && IsWriting(s, lead, ps, LineTokens(l))
  }

  /** The shell takes a text for a command exactly if the grammar generates tokens with that meaning and the text is a
      writing of them. */
  lemma TextParsesExactly(s: string, c: Cmd<string>)
    ensures ParseText(s) == Ok(c) <==> exists l, lead, ps :: Says(s, c, l, lead, ps)
  {
    var ts := Texts(s, Lex(s, 0));
    ParseTextIs(s);
    ParsesExactly(ts, c);
    LexesExactly(s, ts);
    if ParseText(s) == Ok(c) {
      var l :| Writes(l, ts, c);
      var lead, ps :| IsWriting(s, lead, ps, ts);
      assert Says(s, c, l, lead, ps);
    }
    forall l, lead, ps | Says(s, c, l, lead, ps) ensures ParseText(s) == Ok(c) {
      LexesExactly(s, LineTokens(l));
      assert Writes(l, ts, c);
    }
  }

  /** Tokens with a blank after each. */
  function Spaced(ts: seq<Token<string>>): seq<Piece> {
    seq(|ts|, i requires 0 <= i < |ts| => Piece(ts[i], " "))
  }

  ghost predicate Writable(c: Cmd<string>) {
    Good(c, Plain)
  }

  /** Every command tree can be written as text that parses to that tree, word for word. */
  lemma ParseRender(c: Cmd<string>)
    requires Writable(c)
    ensures ParseText(Typeset(Spaced(PrintLine(c)))) == Ok(c)
  {
    var ts := PrintLine(c);
    var s := Typeset(Spaced(ts));
    PrintSayable(c);
    ParsePrint(c);
    ParseTextIs(s);
    assert "" + s == s && Tokens(Spaced(ts)) == ts;
    WritingLexes(s, "", Spaced(ts));
  }

  predicate AllSayable(ts: seq<Token<string>>) {
    forall k :: 0 <= k < |ts| ==> Sayable(ts[k])
  }

  lemma {:induction false} WordsSayable(argv: seq<string>)
    requires forall i :: 0 <= i < |argv| ==> Plain(argv[i])
    ensures AllSayable(Words(argv))
  {
    if argv != [] {
      WordsSayable(argv[1..]);
    }
  }

  lemma {:induction false} RedirsSayable(rs: seq<Redirection<string>>)
    requires AllFiles(rs, Plain)
    ensures AllSayable(PrintRedirs(rs))
  {
    if rs != [] {
      RedirsSayable(rs[1..]);
    }
  }

  lemma {:induction false} ChainGood(c: Cmd<string>)
    requires All(c, Plain)
    ensures AllFiles(Chain(c), Plain) && All(Core(c), Plain)
  {
    if c.Redir? {
      ChainGood(c.cmd);
    }
  }

  lemma {:induction false} ExecSayable(c: Cmd<string>)
    requires All(c, Plain)
    ensures AllSayable(PrintExec(c))
    decreases Size(c), Rank(c, 0)
  {
    CoreInside(c);
    ChainGood(c);
    RedirsSayable(Chain(c));
    if Core(c).Exec? {
      WordsSayable(Core(c).argv);
    } else {
      LineSayable(Core(c));
    }
  }

  lemma {:induction false} PipeSayable(c: Cmd<string>)
    requires All(c, Plain)
    ensures AllSayable(PrintPipe(c))
    decreases Size(c), Rank(c, 1)
  {
    if c.Pipe? {
      ExecSayable(c.left);
      PipeSayable(c.right);
    } else {
      ExecSayable(c);
    }
  }

  lemma {:induction false} BacksSayable(c: Cmd<string>)
    requires All(c, Plain)
    ensures AllSayable(PrintBacks(c))
    decreases Size(c), Rank(c, 2)
  {
    if c.Back? {
      BacksSayable(c.cmd);
    } else {
      PipeSayable(c);
    }
  }

  lemma {:induction false} LineSayable(c: Cmd<string>)
    requires All(c, Plain)
    ensures AllSayable(PrintLine(c))
    decreases Size(c), Rank(c, 3)
  {
    if c.List? {
      BacksSayable(c.left);
      LineSayable(c.right);
    } else {
      BacksSayable(c);
    }
  }

  lemma PrintSayable(c: Cmd<string>)
    requires Writable(c)
    ensures AllSayable(PrintLine(c))
  {
    LineSayable(c);
  }
}
