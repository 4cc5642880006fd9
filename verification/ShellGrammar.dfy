/** sh.c: command trees and the recursive-descent parser over tokens. `W` is what a word is. */
module ShellGrammar {
  const MAXARGS := 10

  /** A symbol is one of `| ( ) ; & < >`, or `+` for `>>`. */
  datatype Token<W> = Sym(c: char) | Word(w: W)

  /** A redirection of standard output if `out`, of standard input otherwise. `>>` is the same as `>`. */
  datatype Redirection<W> = To(file: W, out: bool)

  datatype Cmd<W> =
    | Exec(argv: seq<W>)
    | Redir(cmd: Cmd<W>, to: Redirection<W>)
    | Pipe(left: Cmd<W>, right: Cmd<W>)
    | List(left: Cmd<W>, right: Cmd<W>)
    | Back(cmd: Cmd<W>)

  datatype Panic = Syntax | MissingFile | MissingParen | TooManyArgs | Leftovers

  datatype Result<T> = Ok(value: T) | Err(error: Panic)

  datatype Parsed<W> = Parsed(cmd: Cmd<W>, rest: seq<Token<W>>)

  datatype Redirs<W> = Redirs(to: seq<Redirection<W>>, rest: seq<Token<W>>)

  /** `peek`, for one symbol. */
  predicate Peek<W>(ts: seq<Token<W>>, c: char) {
    ts != [] && ts[0] == Sym(c)
  }

  predicate PeekRedir<W>(ts: seq<Token<W>>) {
    Peek(ts, '<') || Peek(ts, '>') || Peek(ts, '+')
  }

  predicate PeekStop<W>(ts: seq<Token<W>>) {
    Peek(ts, '|') || Peek(ts, ')') || Peek(ts, '&') || Peek(ts, ';')
  }

  function Wrap<W>(c: Cmd<W>, rs: seq<Redirection<W>>): Cmd<W>
    decreases |rs|
  {
    if rs == [] then c else Redir(Wrap(c, rs[..|rs| - 1]), rs[|rs| - 1])
  }

  /** `parseredirs`. */
  function ParseRedirs<W>(ts: seq<Token<W>>, rs: seq<Redirection<W>>): (r: Result<Redirs<W>>)
    ensures r.Ok? ==> |r.value.rest| <= |ts|
    decreases |ts|
  {
    if !PeekRedir(ts) then Ok(Redirs(rs, ts))
    else if |ts| < 2 || !ts[1].Word? then Err(MissingFile)
    else ParseRedirs(ts[2..], rs + [To(ts[1].w, ts[0].c != '<')])
  }

  /** The loop of `parseexec`. */
  function ParseArgs<W>(ts: seq<Token<W>>, args: seq<W>, rs: seq<Redirection<W>>): (r: Result<Parsed<W>>)
    ensures r.Ok? ==> |r.value.rest| <= |ts|
    decreases |ts|
  {
    if ts == [] || PeekStop(ts) then Ok(Parsed(Wrap(Exec(args), rs), ts))
    else if !ts[0].Word? then Err(Syntax)
    else if |args| + 1 >= MAXARGS then Err(TooManyArgs)
    else match ParseRedirs(ts[1..], rs)
      case Err(e) => Err(e)
      case Ok(x) => ParseArgs(x.rest, args + [ts[0].w], x.to)
  }

  /** `parseexec`, with `parseblock`. */
  function ParseExec<W>(ts: seq<Token<W>>): (r: Result<Parsed<W>>)
    ensures r.Ok? ==> |r.value.rest| <= |ts|
    decreases |ts|, 1
  {
    if Peek(ts, '(') then
      match ParseLine(ts[1..])
      case Err(e) => Err(e)
      case Ok(x) =>
        if !Peek(x.rest, ')') then Err(MissingParen)
        else match ParseRedirs(x.rest[1..], [])
          case Err(e) => Err(e)
          case Ok(y) => Ok(Parsed(Wrap(x.cmd, y.to), y.rest))
    else
      match ParseRedirs(ts, [])
      case Err(e) => Err(e)
      case Ok(x) => ParseArgs(x.rest, [], x.to)
  }

  /** `parsepipe`. */
  function ParsePipe<W>(ts: seq<Token<W>>): (r: Result<Parsed<W>>)
    ensures r.Ok? ==> |r.value.rest| <= |ts|
    decreases |ts|, 2
  {
    match ParseExec(ts)
    case Err(e) => Err(e)
    case Ok(x) =>
      if !Peek(x.rest, '|') then Ok(x)
      else match ParsePipe(x.rest[1..])
        case Err(e) => Err(e)
        case Ok(y) => Ok(Parsed(Pipe(x.cmd, y.cmd), y.rest))
  }

  /** The loop of `parseline`. */
  function ParseBacks<W>(c: Cmd<W>, ts: seq<Token<W>>): (x: Parsed<W>)
    ensures |x.rest| <= |ts|
    decreases |ts|
  {
    if Peek(ts, '&') then ParseBacks(Back(c), ts[1..]) else Parsed(c, ts)
  }

  /** `parseline`. */
  function ParseLine<W>(ts: seq<Token<W>>): (r: Result<Parsed<W>>)
    ensures r.Ok? ==> |r.value.rest| <= |ts|
    decreases |ts|, 3
  {
    match ParsePipe(ts)
    case Err(e) => Err(e)
    case Ok(x) =>
      var y := ParseBacks(x.cmd, x.rest);
      if !Peek(y.rest, ';') then Ok(y)
      else match ParseLine(y.rest[1..])
        case Err(e) => Err(e)
        case Ok(z) => Ok(Parsed(List(y.cmd, z.cmd), z.rest))
  }

  /** `parsecmd`. */
  function ParseCmd<W>(ts: seq<Token<W>>): Result<Cmd<W>> {
    match ParseLine(ts)
    case Err(e) => Err(e)
    case Ok(x) => if x.rest != [] then Err(Leftovers) else Ok(x.cmd)
  }

  // ------------------------------------------------------------------ a printer with parentheses

  /** The command under the outer redirections. */
  function Core<W>(c: Cmd<W>): Cmd<W> {
    if c.Redir? then Core(c.cmd) else c
  }

  function Chain<W>(c: Cmd<W>): seq<Redirection<W>> {
    if c.Redir? then Chain(c.cmd) + [c.to] else []
  }

  function Size<W>(c: Cmd<W>): nat {
    match c
    case Exec(_) => 1
    case Redir(d, _) => 1 + Size(d)
    case Pipe(l, r) => 1 + Size(l) + Size(r)
    case List(l, r) => 1 + Size(l) + Size(r)
    case Back(d) => 1 + Size(d)
  }

  lemma CoreInside<W>(c: Cmd<W>)
    ensures !Core(c).Redir? && Size(Core(c)) <= Size(c) && (c.Redir? ==> Size(Core(c)) < Size(c))
    ensures Wrap(Core(c), Chain(c)) == c
  {
    if c.Redir? {
      CoreInside(c.cmd);
      assert Chain(c)[..|Chain(c)| - 1] == Chain(c.cmd);
    }
  }

  /** The printer's levels go round, from line (3) down to exec (0) and by way of parentheses to line again;
      each kind of command has a level that it is taken apart at. */
  function Rank<W>(c: Cmd<W>, level: nat): nat
    requires level < 4
  {
    var own := match c case List(_, _) => 3 case Back(_) => 2 case Pipe(_, _) => 1 case _ => 0;
    (level - own + 4) % 4
  }

  function Words<W>(argv: seq<W>): seq<Token<W>> {
    if argv == [] then [] else [Word(argv[0])] + Words(argv[1..])
  }

  function PrintRedirs<W>(rs: seq<Redirection<W>>): seq<Token<W>> {
    if rs == [] then [] else [Sym(if rs[0].out then '>' else '<'), Word(rs[0].file)] + PrintRedirs(rs[1..])
  }

  /** What parseexec reads: a simple command or a block, with redirections. */
  function PrintExec<W>(c: Cmd<W>): seq<Token<W>>
    decreases Size(c), Rank(c, 0)
  {
    var k := Core(c);
    CoreInside(c);
    (if k.Exec? then Words(k.argv) else [Sym('(')] + PrintLine(k) + [Sym(')')]) + PrintRedirs(Chain(c))
  }

  function PrintPipe<W>(c: Cmd<W>): seq<Token<W>>
    decreases Size(c), Rank(c, 1)
  {
    if c.Pipe? then PrintExec(c.left) + [Sym('|')] + PrintPipe(c.right) else PrintExec(c)
  }

  function PrintBacks<W>(c: Cmd<W>): seq<Token<W>>
    decreases Size(c), Rank(c, 2)
  {
    if c.Back? then PrintBacks(c.cmd) + [Sym('&')] else PrintPipe(c)
  }

  function PrintLine<W>(c: Cmd<W>): seq<Token<W>>
    decreases Size(c), Rank(c, 3)
  {
    if c.List? then PrintBacks(c.left) + [Sym(';')] + PrintLine(c.right) else PrintBacks(c)
  }

  // ------------------------------------------------------------------ parsing what was printed

  /** No command has more words than parseexec takes. */
  predicate Fits<W>(c: Cmd<W>) {
    match c
    case Exec(argv) => |argv| < MAXARGS
    case Redir(d, _) => Fits(d)
    case Pipe(l, r) => Fits(l) && Fits(r)
    case List(l, r) => Fits(l) && Fits(r)
    case Back(d) => Fits(d)
  }

  // What may come after a command of each level.

  predicate EndsExec<W>(ts: seq<Token<W>>) {
    ts == [] || PeekStop(ts)
  }

  predicate EndsPipe<W>(ts: seq<Token<W>>) {
    ts == [] || Peek(ts, ')') || Peek(ts, '&') || Peek(ts, ';')
  }

  predicate EndsLine<W>(ts: seq<Token<W>>) {
    ts == [] || Peek(ts, ')')
  }

  lemma {:induction false} RedirsBack<W>(rs: seq<Redirection<W>>, before: seq<Redirection<W>>, rest: seq<Token<W>>)
    requires !PeekRedir(rest)
    ensures ParseRedirs(PrintRedirs(rs) + rest, before) == Ok(Redirs(before + rs, rest))
  {
    if rs == [] {
      assert PrintRedirs(rs) + rest == rest && before + rs == before;
    } else {
      var ts := PrintRedirs(rs) + rest;
      assert ts[2..] == PrintRedirs(rs[1..]) + rest;
      RedirsBack(rs[1..], before + [rs[0]], rest);
      assert before + [rs[0]] + rs[1..] == before + rs;
    }
  }

  /** One turn of the loop of parseexec. */
  lemma ArgStep<W>(w: W, ts: seq<Token<W>>, args: seq<W>, rs: seq<Redirection<W>>, x: Redirs<W>)
    requires |args| + 1 < MAXARGS && ParseRedirs(ts, rs) == Ok(x) && |x.rest| <= |ts|
    ensures ParseArgs([Word(w)] + ts, args, rs) == ParseArgs(x.rest, args + [w], x.to)
  {
    assert ([Word(w)] + ts)[1..] == ts;
  }

  lemma WordsHead<W>(argv: seq<W>, tail: seq<Token<W>>)
    requires argv != []
    ensures Words(argv) + tail == [Word(argv[0])] + (Words(argv[1..]) + tail)
  {
  }

  lemma NoRedirs<W>(argv: seq<W>, tail: seq<Token<W>>)
    requires argv != []
    ensures ParseRedirs(Words(argv) + tail, []) == Ok(Redirs([], Words(argv) + tail))
  {
    WordsHead(argv, tail);
  }

  lemma LastArg<W>(w: W, before: seq<W>, tail: seq<Token<W>>, rs: seq<Redirection<W>>, rest: seq<Token<W>>)
    requires |before| + 1 < MAXARGS && EndsExec(rest) && ParseRedirs(tail, []) == Ok(Redirs(rs, rest))
    ensures ParseArgs([Word(w)] + tail, before, []) == Ok(Parsed(Wrap(Exec(before + [w]), rs), rest))
  {
    ArgStep(w, tail, before, [], Redirs(rs, rest));
  }

  lemma {:induction false} ArgsBack<W>(argv: seq<W>, before: seq<W>, tail: seq<Token<W>>, rs: seq<Redirection<W>>,
                                       rest: seq<Token<W>>)
    requires argv != [] && |before| + |argv| < MAXARGS && EndsExec(rest)
    requires ParseRedirs(tail, []) == Ok(Redirs(rs, rest))
    ensures ParseArgs(Words(argv) + tail, before, []) == Ok(Parsed(Wrap(Exec(before + argv), rs), rest))
  {
    var w, more := argv[0], argv[1..];
    assert argv == [w] + more && before + [w] + more == before + argv;
    WordsHead(argv, tail);
    if more == [] {
      assert Words(more) + tail == tail && before + [w] == before + argv;
      LastArg(w, before, tail, rs, rest);
    } else {
      NoRedirs(more, tail);
      ArgStep(w, Words(more) + tail, before, [], Redirs([], Words(more) + tail));
      ArgsBack(more, before + [w], tail, rs, rest);
    }
  }

  /** A simple command with redirections. */
  lemma SimpleBack<W>(argv: seq<W>, tail: seq<Token<W>>, rs: seq<Redirection<W>>, rest: seq<Token<W>>)
    requires |argv| < MAXARGS && EndsExec(rest) && ParseRedirs(tail, []) == Ok(Redirs(rs, rest)) && !Peek(tail, '(')
    ensures ParseExec(Words(argv) + tail) == Ok(Parsed(Wrap(Exec(argv), rs), rest))
  {
    var ts := Words(argv) + tail;
    if argv == [] {
      assert ts == tail;
    } else {
      NoRedirs(argv, tail);
      WordFirst(argv, tail);
      ArgsBack(argv, [], tail, rs, rest);
      assert [] + argv == argv;
    }
  }

  lemma WordFirst<W>(argv: seq<W>, tail: seq<Token<W>>)
    requires argv != []
    ensures !Peek(Words(argv) + tail, '(')
  {
    WordsHead(argv, tail);
  }

  /** A block with redirections. */
  lemma BlockBack<W>(c: Cmd<W>, line: seq<Token<W>>, tail: seq<Token<W>>, rs: seq<Redirection<W>>, rest: seq<Token<W>>)
    requires ParseLine(line + ([Sym(')')] + tail)) == Ok(Parsed(c, [Sym(')')] + tail))
      && ParseRedirs(tail, []) == Ok(Redirs(rs, rest))
    ensures ParseExec([Sym('(')] + (line + ([Sym(')')] + tail))) == Ok(Parsed(Wrap(c, rs), rest))
  {
    var inner := line + ([Sym(')')] + tail);
    assert ([Sym('(')] + inner)[1..] == inner;
    assert ([Sym(')')] + tail)[1..] == tail;
  }

  lemma RedirsFirst<W>(rs: seq<Redirection<W>>, rest: seq<Token<W>>)
    requires EndsExec(rest)
    ensures ParseRedirs(PrintRedirs(rs) + rest, []) == Ok(Redirs(rs, rest)) && !Peek(PrintRedirs(rs) + rest, '(')
  {
    RedirsBack(rs, [], rest);
    assert [] + rs == rs;
    if rs == [] {
      assert PrintRedirs(rs) + rest == rest;
    }
  }

  lemma Assoc<W>(a: seq<Token<W>>, b: seq<Token<W>>, c: seq<Token<W>>)
    ensures (a + b) + c == a + (b + c)
  {
  }

  lemma Regroup<W>(line: seq<Token<W>>, rs: seq<Token<W>>, rest: seq<Token<W>>)
    ensures ([Sym('(')] + line + [Sym(')')] + rs) + rest == [Sym('(')] + (line + ([Sym(')')] + (rs + rest)))
  {
  }

  lemma {:induction false} ExecBack<W>(c: Cmd<W>, rest: seq<Token<W>>)
    requires Fits(c) && EndsExec(rest)
    ensures ParseExec(PrintExec(c) + rest) == Ok(Parsed(c, rest))
    decreases Size(c), Rank(c, 0)
  {
    var k, rs := Core(c), Chain(c);
    CoreInside(c);
    CoreFits(c);
    var tail := PrintRedirs(rs) + rest;
    RedirsFirst(rs, rest);
    if k.Exec? {
      Assoc(Words(k.argv), PrintRedirs(rs), rest);
      SimpleBack(k.argv, tail, rs, rest);
    } else {
      LineBack(k, [Sym(')')] + tail);
      BlockBack(k, PrintLine(k), tail, rs, rest);
      Regroup(PrintLine(k), PrintRedirs(rs), rest);
    }
  }

  lemma CoreFits<W>(c: Cmd<W>)
    requires Fits(c)
    ensures Fits(Core(c))
  {
    if c.Redir? {
      CoreFits(c.cmd);
    }
  }

  lemma {:induction false} PipeBack<W>(c: Cmd<W>, rest: seq<Token<W>>)
    requires Fits(c) && EndsPipe(rest)
    ensures ParsePipe(PrintPipe(c) + rest) == Ok(Parsed(c, rest))
    decreases Size(c), Rank(c, 1)
  {
    if c.Pipe? {
      var tail := PrintPipe(c.right) + rest;
      assert PrintPipe(c) + rest == PrintExec(c.left) + ([Sym('|')] + tail);
      ExecBack(c.left, [Sym('|')] + tail);
      assert ([Sym('|')] + tail)[1..] == tail;
      PipeBack(c.right, rest);
    } else {
      ExecBack(c, rest);
    }
  }

  lemma {:induction false} BacksBack<W>(c: Cmd<W>, rest: seq<Token<W>>)
    requires Fits(c) && EndsPipe(rest)
    ensures var r := ParsePipe(PrintBacks(c) + rest);
      r.Ok? && ParseBacks(r.value.cmd, r.value.rest) == ParseBacks(c, rest)
    decreases Size(c), Rank(c, 2)
  {
    if c.Back? {
      assert PrintBacks(c) + rest == PrintBacks(c.cmd) + ([Sym('&')] + rest);
      BacksBack(c.cmd, [Sym('&')] + rest);
      assert ([Sym('&')] + rest)[1..] == rest;
    } else {
      PipeBack(c, rest);
    }
  }

  lemma {:induction false} LineBack<W>(c: Cmd<W>, rest: seq<Token<W>>)
    requires Fits(c) && EndsLine(rest)
    ensures ParseLine(PrintLine(c) + rest) == Ok(Parsed(c, rest))
    decreases Size(c), Rank(c, 3)
  {
    if c.List? {
      var tail := PrintLine(c.right) + rest;
      assert PrintLine(c) + rest == PrintBacks(c.left) + ([Sym(';')] + tail);
      BacksBack(c.left, [Sym(';')] + tail);
      assert ([Sym(';')] + tail)[1..] == tail;
      LineBack(c.right, rest);
    } else {
      BacksBack(c, rest);
    }
  }

  /** Parsing undoes printing, for every command tree whose words fit. */
  lemma ParsePrint<W>(c: Cmd<W>)
    requires Fits(c)
    ensures ParseCmd(PrintLine(c)) == Ok(c)
  {
    LineBack(c, []);
    assert PrintLine(c) + [] == PrintLine(c);
  }

  // ------------------------------------------------------------------ what the parser accepts

  /** Every word in the command is `ok`. */
  predicate All<W(!new)>(c: Cmd<W>, ok: W -> bool) {
    match c
    case Exec(argv) => forall i :: 0 <= i < |argv| ==> ok(argv[i])
    case Redir(d, to) => All(d, ok) && ok(to.file)
    case Pipe(l, r) => All(l, ok) && All(r, ok)
    case List(l, r) => All(l, ok) && All(r, ok)
    case Back(d) => All(d, ok)
  }

  predicate Good<W(!new)>(c: Cmd<W>, ok: W -> bool) {
    Fits(c) && All(c, ok)
  }

  predicate AllTokens<W(!new)>(ts: seq<Token<W>>, ok: W -> bool) {
    forall i :: 0 <= i < |ts| && ts[i].Word? ==> ok(ts[i].w)
  }

  predicate AllFiles<W(!new)>(rs: seq<Redirection<W>>, ok: W -> bool) {
    forall i :: 0 <= i < |rs| ==> ok(rs[i].file)
  }

  lemma {:induction false} WrapGood<W(!new)>(c: Cmd<W>, rs: seq<Redirection<W>>, ok: W -> bool)
    requires Good(c, ok) && AllFiles(rs, ok)
    ensures Good(Wrap(c, rs), ok)
    decreases |rs|
  {
    if rs != [] {
      WrapGood(c, rs[..|rs| - 1], ok);
    }
  }

  lemma {:induction false} RedirsGood<W(!new)>(ts: seq<Token<W>>, rs: seq<Redirection<W>>, ok: W -> bool)
    requires AllTokens(ts, ok) && AllFiles(rs, ok) && ParseRedirs(ts, rs).Ok?
    ensures AllFiles(ParseRedirs(ts, rs).value.to, ok) && AllTokens(ParseRedirs(ts, rs).value.rest, ok)
    decreases |ts|
  {
    if PeekRedir(ts) {
      RedirsGood(ts[2..], rs + [To(ts[1].w, ts[0].c != '<')], ok);
    }
  }

  lemma {:induction false} ArgsGood<W(!new)>(ts: seq<Token<W>>, args: seq<W>, rs: seq<Redirection<W>>, ok: W -> bool)
    requires AllTokens(ts, ok) && Good(Exec(args), ok) && AllFiles(rs, ok) && ParseArgs(ts, args, rs).Ok?
    ensures Good(ParseArgs(ts, args, rs).value.cmd, ok) && AllTokens(ParseArgs(ts, args, rs).value.rest, ok)
    decreases |ts|
  {
    if ts == [] || PeekStop(ts) {
      WrapGood(Exec(args), rs, ok);
    } else {
      var x := ParseRedirs(ts[1..], rs).value;
      RedirsGood(ts[1..], rs, ok);
      ArgsGood(x.rest, args + [ts[0].w], x.to, ok);
    }
  }

  lemma {:induction false} BacksGood<W(!new)>(c: Cmd<W>, ts: seq<Token<W>>, ok: W -> bool)
    requires Good(c, ok) && AllTokens(ts, ok)
    ensures Good(ParseBacks(c, ts).cmd, ok) && AllTokens(ParseBacks(c, ts).rest, ok)
    decreases |ts|
  {
    if Peek(ts, '&') {
      BacksGood(Back(c), ts[1..], ok);
    }
  }

  lemma {:induction false} ExecGood<W(!new)>(ts: seq<Token<W>>, ok: W -> bool)
    requires AllTokens(ts, ok) && ParseExec(ts).Ok?
    ensures Good(ParseExec(ts).value.cmd, ok) && AllTokens(ParseExec(ts).value.rest, ok)
    decreases |ts|, 1
  {
    if Peek(ts, '(') {
      LineGood(ts[1..], ok);
      var x := ParseLine(ts[1..]).value;
      RedirsGood(x.rest[1..], [], ok);
      WrapGood(x.cmd, ParseRedirs(x.rest[1..], []).value.to, ok);
    } else {
      var x := ParseRedirs(ts, []).value;
      RedirsGood(ts, [], ok);
      ArgsGood(x.rest, [], x.to, ok);
    }
  }

  lemma {:induction false} PipeGood<W(!new)>(ts: seq<Token<W>>, ok: W -> bool)
    requires AllTokens(ts, ok) && ParsePipe(ts).Ok?
    ensures Good(ParsePipe(ts).value.cmd, ok) && AllTokens(ParsePipe(ts).value.rest, ok)
    decreases |ts|, 2
  {
    ExecGood(ts, ok);
    var x := ParseExec(ts).value;
    if Peek(x.rest, '|') {
      PipeGood(x.rest[1..], ok);
    }
  }

  lemma {:induction false} LineGood<W(!new)>(ts: seq<Token<W>>, ok: W -> bool)
    requires AllTokens(ts, ok) && ParseLine(ts).Ok?
    ensures Good(ParseLine(ts).value.cmd, ok) && AllTokens(ParseLine(ts).value.rest, ok)
    decreases |ts|, 3
  {
    PipeGood(ts, ok);
    var x := ParsePipe(ts).value;
    BacksGood(x.cmd, x.rest, ok);
    var y := ParseBacks(x.cmd, x.rest);
    if Peek(y.rest, ';') {
      LineGood(y.rest[1..], ok);
    }
  }

  /** The words of an accepted command are words of the input, and no command has too many. */
  lemma ParsedIsGood<W(!new)>(ts: seq<Token<W>>, ok: W -> bool)
    requires AllTokens(ts, ok) && ParseCmd(ts).Ok?
    ensures Good(ParseCmd(ts).value, ok)
  {
    LineGood(ts, ok);
  }

  /** Printing what was parsed and parsing again gives the same command. */
  lemma Normalised<W(!new)>(ts: seq<Token<W>>)
    requires ParseCmd(ts).Ok?
    ensures ParseCmd(PrintLine(ParseCmd(ts).value)) == ParseCmd(ts)
  {
    ParsedIsGood(ts, w => true);
    ParsePrint(ParseCmd(ts).value);
  }

  // ------------------------------------------------------------------ the parser does not look into words

  function MapToken<V, W>(f: V -> W, t: Token<V>): Token<W> {
    match t
    case Sym(c) => Sym(c)
    case Word(v) => Word(f(v))
  }

  function MapTokens<V, W>(f: V -> W, ts: seq<Token<V>>): seq<Token<W>> {
    seq(|ts|, i requires 0 <= i < |ts| => MapToken(f, ts[i]))
  }

  function MapSeq<V, W>(f: V -> W, vs: seq<V>): seq<W> {
    seq(|vs|, i requires 0 <= i < |vs| => f(vs[i]))
  }

  function MapRedirs<V, W>(f: V -> W, rs: seq<Redirection<V>>): seq<Redirection<W>> {
    seq(|rs|, i requires 0 <= i < |rs| => To(f(rs[i].file), rs[i].out))
  }

  function MapCmd<V, W>(f: V -> W, c: Cmd<V>): Cmd<W> {
    match c
    case Exec(argv) => Exec(MapSeq(f, argv))
    case Redir(d, to) => Redir(MapCmd(f, d), To(f(to.file), to.out))
    case Pipe(l, r) => Pipe(MapCmd(f, l), MapCmd(f, r))
    case List(l, r) => List(MapCmd(f, l), MapCmd(f, r))
    case Back(d) => Back(MapCmd(f, d))
  }

  function MapParsed<V, W>(f: V -> W, r: Result<Parsed<V>>): Result<Parsed<W>> {
    match r
    case Err(e) => Err(e)
    case Ok(x) => Ok(Parsed(MapCmd(f, x.cmd), MapTokens(f, x.rest)))
  }

  lemma MapTail<V, W>(f: V -> W, ts: seq<Token<V>>, n: nat)
    requires n <= |ts|
    ensures MapTokens(f, ts)[n..] == MapTokens(f, ts[n..])
  {
  }

  lemma {:induction false} MapWrap<V, W>(f: V -> W, c: Cmd<V>, rs: seq<Redirection<V>>)
    ensures MapCmd(f, Wrap(c, rs)) == Wrap(MapCmd(f, c), MapRedirs(f, rs))
    decreases |rs|
  {
    if rs != [] {
      MapWrap(f, c, rs[..|rs| - 1]);
      assert MapRedirs(f, rs)[..|rs| - 1] == MapRedirs(f, rs[..|rs| - 1]);
    }
  }

  lemma {:induction false} MapParseRedirs<V, W>(f: V -> W, ts: seq<Token<V>>, rs: seq<Redirection<V>>)
    ensures ParseRedirs(MapTokens(f, ts), MapRedirs(f, rs)) ==
            match ParseRedirs(ts,
              rs) { case Err(e) => Err(e) case Ok(x) => Ok(Redirs(MapRedirs(f, x.to), MapTokens(f, x.rest))) }
    decreases |ts|
  {
    if PeekRedir(ts) && |ts| >= 2 && ts[1].Word? {
      var r := To(ts[1].w, ts[0].c != '<');
      MapTail(f, ts, 2);
      assert MapRedirs(f, rs + [r]) == MapRedirs(f, rs) + [To(f(r.file), r.out)];
      MapParseRedirs(f, ts[2..], rs + [r]);
    }
  }

  lemma {:induction false} MapParseArgs<V, W>(f: V -> W, ts: seq<Token<V>>, args: seq<V>, rs: seq<Redirection<V>>)
    ensures ParseArgs(MapTokens(f, ts), MapSeq(f, args), MapRedirs(f, rs)) == MapParsed(f, ParseArgs(ts, args, rs))
    decreases |ts|
  {
    if ts == [] || PeekStop(ts) {
      MapWrap(f, Exec(args), rs);
    } else if ts[0].Word? && |args| + 1 < MAXARGS {
      MapTail(f, ts, 1);
      MapParseRedirs(f, ts[1..], rs);
      if ParseRedirs(ts[1..], rs).Ok? {
        var x := ParseRedirs(ts[1..], rs).value;
        assert MapSeq(f, args + [ts[0].w]) == MapSeq(f, args) + [f(ts[0].w)];
        MapParseArgs(f, x.rest, args + [ts[0].w], x.to);
      }
    }
  }

  lemma {:induction false} MapParseExec<V, W>(f: V -> W, ts: seq<Token<V>>)
    ensures ParseExec(MapTokens(f, ts)) == MapParsed(f, ParseExec(ts))
    decreases |ts|, 1
  {
    assert MapRedirs(f, []) == [] && MapSeq(f, []) == [];
    if Peek(ts, '(') {
      MapTail(f, ts, 1);
      MapParseLine(f, ts[1..]);
      if ParseLine(ts[1..]).Ok? {
        var x := ParseLine(ts[1..]).value;
        if Peek(x.rest, ')') {
          MapTail(f, x.rest, 1);
          MapParseRedirs(f, x.rest[1..], []);
          if ParseRedirs(x.rest[1..], []).Ok? {
            MapWrap(f, x.cmd, ParseRedirs(x.rest[1..], []).value.to);
          }
        }
      }
    } else {
      MapParseRedirs(f, ts, []);
      if ParseRedirs(ts, []).Ok? {
        MapParseArgs(f, ParseRedirs(ts, []).value.rest, [], ParseRedirs(ts, []).value.to);
      }
    }
  }

  lemma {:induction false} MapParsePipe<V, W>(f: V -> W, ts: seq<Token<V>>)
    ensures ParsePipe(MapTokens(f, ts)) == MapParsed(f, ParsePipe(ts))
    decreases |ts|, 2
  {
    MapParseExec(f, ts);
    if ParseExec(ts).Ok? && Peek(ParseExec(ts).value.rest, '|') {
      MapTail(f, ParseExec(ts).value.rest, 1);
      MapParsePipe(f, ParseExec(ts).value.rest[1..]);
    }
  }

  lemma {:induction false} MapParseBacks<V, W>(f: V -> W, c: Cmd<V>, ts: seq<Token<V>>)
    ensures
      var x := ParseBacks(c, ts);
      ParseBacks(MapCmd(f, c), MapTokens(f, ts)) == Parsed(MapCmd(f, x.cmd), MapTokens(f, x.rest))
    decreases |ts|
  {
    if Peek(ts, '&') {
      MapTail(f, ts, 1);
      MapParseBacks(f, Back(c), ts[1..]);
    }
  }

  lemma {:induction false} MapParseLine<V, W>(f: V -> W, ts: seq<Token<V>>)
    ensures ParseLine(MapTokens(f, ts)) == MapParsed(f, ParseLine(ts))
    decreases |ts|, 3
  {
    MapParsePipe(f, ts);
    if ParsePipe(ts).Ok? {
      var x := ParsePipe(ts).value;
      MapParseBacks(f, x.cmd, x.rest);
      var y := ParseBacks(x.cmd, x.rest);
      if Peek(y.rest, ';') {
        MapTail(f, y.rest, 1);
        MapParseLine(f, y.rest[1..]);
      }
    }
  }

  /** Replacing words before parsing or after it makes no difference. */
  lemma MapParseCmd<V, W>(f: V -> W, ts: seq<Token<V>>)
    ensures ParseCmd(MapTokens(f, ts)) == match ParseCmd(ts) { case Err(e) => Err(e) case Ok(c) => Ok(MapCmd(f, c)) }
  {
    MapParseLine(f, ts);
  }
}
