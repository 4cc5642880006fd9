/** The shell's grammar, apart from its parser: how a command may be written as tokens, and what each way of writing
    means. The parser accepts exactly what the grammar generates, with that meaning. */
module ShellSyntax {
  import opened ShellGrammar

  /** Words, and redirections each made of `<`, `>` or `+` and a file, in any order. */
  datatype Items<W> = Nil | Arg(w: W, more: Items<W>) | Rd(op: char, file: W, more: Items<W>)

  /** A simple command, or a block with redirections after it. */
  datatype ExecSyn<W> = Simple(items: Items<W>) | Block(line: LineSyn<W>, items: Items<W>)

  datatype PipeSyn<W> = Single(e: ExecSyn<W>) | Through(e: ExecSyn<W>, p: PipeSyn<W>)

  /** A pipeline with a number of `&` after it, and perhaps `;` and a line after that. */
  datatype LineSyn<W> = Last(p: PipeSyn<W>, backs: nat) | Semi(p: PipeSyn<W>, backs: nat, l: LineSyn<W>)

  // ------------------------------------------------------------------ how it is written

  function ItemTokens<W>(items: Items<W>): seq<Token<W>> {
    match items
    case Nil => []
    case Arg(w, more) => [Word(w)] + ItemTokens(more)
    case Rd(op, file, more) => [Sym(op), Word(file)] + ItemTokens(more)
  }

  function Backs<W>(n: nat): (ts: seq<Token<W>>)
    ensures |ts| == n
  {
    if n == 0 then [] else [Sym('&')] + Backs(n - 1)
  }

  function ExecTokens<W>(e: ExecSyn<W>): seq<Token<W>> {
    match e
    case Simple(items) => ItemTokens(items)
    case Block(line, items) => [Sym('(')] + (LineTokens(line) + ([Sym(')')] + ItemTokens(items)))
  }

  function PipeTokens<W>(p: PipeSyn<W>): seq<Token<W>> {
    match p
    case Single(e) => ExecTokens(e)
    case Through(e, q) => ExecTokens(e) + ([Sym('|')] + PipeTokens(q))
  }

  function LineTokens<W>(l: LineSyn<W>): seq<Token<W>> {
    match l
    case Last(p, n) => PipeTokens(p) + Backs(n)
    case Semi(p, n, m) => PipeTokens(p) + (Backs(n) + ([Sym(';')] + LineTokens(m)))
  }

  // ------------------------------------------------------------------ what it means

  function Args<W>(items: Items<W>): seq<W> {
    match items
    case Nil => []
    case Arg(w, more) => [w] + Args(more)
    case Rd(_, _, more) => Args(more)
  }

  /** `<` redirects standard input, `>` and `>>` standard output. */
  function Files<W>(items: Items<W>): seq<Redirection<W>> {
    match items
    case Nil => []
    case Arg(_, more) => Files(more)
    case Rd(op, file, more) => [To(file, op == '>' || op == '+')] + Files(more)
  }

  function InBack<W>(c: Cmd<W>, n: nat): Cmd<W>
    decreases n
  {
    if n == 0 then c else InBack(Back(c), n - 1)
  }

  function ExecMeans<W>(e: ExecSyn<W>): Cmd<W> {
    match e
    case Simple(items) => Wrap(Exec(Args(items)), Files(items))
    case Block(line, items) => Wrap(LineMeans(line), Files(items))
  }

  function PipeMeans<W>(p: PipeSyn<W>): Cmd<W> {
    match p
    case Single(e) => ExecMeans(e)
    case Through(e, q) => Pipe(ExecMeans(e), PipeMeans(q))
  }

  function LineMeans<W>(l: LineSyn<W>): Cmd<W> {
    match l
    case Last(p, n) => InBack(PipeMeans(p), n)
    case Semi(p, n, m) => List(InBack(PipeMeans(p), n), LineMeans(m))
  }

  // ------------------------------------------------------------------ what is allowed

  predicate IsOp(c: char) {
    c == '<' || c == '>' || c == '+'
  }

  predicate OpsOk<W>(items: Items<W>) {
    match items
    case Nil => true
    case Arg(_, more) => OpsOk(more)
    case Rd(op, _, more) => IsOp(op) && OpsOk(more)
  }

  /** At most nine words to a simple command, and none after a block. */
  predicate ExecOk<W>(e: ExecSyn<W>) {
    match e
    case Simple(items) => OpsOk(items) && |Args(items)| < MAXARGS
    case Block(line, items) => LineOk(line) && OpsOk(items) && Args(items) == []
  }

  predicate PipeOk<W>(p: PipeSyn<W>) {
    match p
    case Single(e) => ExecOk(e)
    case Through(e, q) => ExecOk(e) && PipeOk(q)
  }

  predicate LineOk<W>(l: LineSyn<W>) {
    match l
    case Last(p, _) => PipeOk(p)
    case Semi(p, _, m) => PipeOk(p) && LineOk(m)
  }

  // ------------------------------------------------------------------ the parser accepts it

  lemma Shift<T>(a: seq<T>, x: T, b: seq<T>)
    ensures a + ([x] + b) == a + [x] + b
  {
  }

  /** A redirection is read, in either spelling. */
  lemma FileRead<W>(op: char, file: W, ts: seq<Token<W>>, rs: seq<Redirection<W>>)
    requires IsOp(op)
    ensures ParseRedirs([Sym(op), Word(file)] + ts, rs) == ParseRedirs(ts, rs + [To(file, op == '>' || op == '+')])
  {
    assert ([Sym(op), Word(file)] + ts)[2..] == ts;
  }

  lemma WordStops<W>(w: W, ts: seq<Token<W>>, rs: seq<Redirection<W>>)
    ensures ParseRedirs([Word(w)] + ts, rs) == Ok(Redirs(rs, [Word(w)] + ts))
  {
  }

  /** What parseexec makes of `ts` after `args` and `rs`: redirections, then the loop. */
  function ParseItems<W>(ts: seq<Token<W>>, args: seq<W>, rs: seq<Redirection<W>>): Result<Parsed<W>> {
    match ParseRedirs(ts, rs)
    case Err(e) => Err(e)
    case Ok(x) => ParseArgs(x.rest, args, x.to)
  }

  lemma WordRead<W>(w: W, ts: seq<Token<W>>, args: seq<W>, rs: seq<Redirection<W>>)
    requires |args| + 1 < MAXARGS
    ensures ParseItems([Word(w)] + ts, args, rs) == ParseItems(ts, args + [w], rs)
  {
    WordStops(w, ts, rs);
    assert ([Word(w)] + ts)[1..] == ts;
  }

  lemma {:induction false} ItemsAccepted<W>(items: Items<W>, args: seq<W>, rs: seq<Redirection<W>>, rest: seq<Token<W>>)
    requires OpsOk(items) && |args| + |Args(items)| < MAXARGS && EndsExec(rest)
    ensures ParseItems(ItemTokens(items) + rest, args, rs)
         == Ok(Parsed(Wrap(Exec(args + Args(items)), rs + Files(items)), rest))
    decreases items
  {
    match items
    case Nil =>
      assert ItemTokens(items) + rest == rest && args + Args(items) == args && rs + Files(items) == rs;
    case Arg(w, more) =>
      Assoc([Word(w)], ItemTokens(more), rest);
      WordRead(w, ItemTokens(more) + rest, args, rs);
      ItemsAccepted(more, args + [w], rs, rest);
      Shift(args, w, Args(more));
    case Rd(op, file, more) =>
      var to := To(file, op == '>' || op == '+');
      Assoc([Sym(op), Word(file)], ItemTokens(more), rest);
      FileRead(op, file, ItemTokens(more) + rest, rs);
      ItemsAccepted(more, args, rs + [to], rest);
      Shift(rs, to, Files(more));
  }

  /** The redirections after a block. */
  lemma {:induction false} FilesAccepted<W>(items: Items<W>, rs: seq<Redirection<W>>, rest: seq<Token<W>>)
    requires OpsOk(items) && Args(items) == [] && EndsExec(rest)
    ensures ParseRedirs(ItemTokens(items) + rest, rs) == Ok(Redirs(rs + Files(items), rest))
    decreases items
  {
    match items
    case Nil =>
      assert ItemTokens(items) + rest == rest && rs + Files(items) == rs;
    case Rd(op, file, more) =>
      var to := To(file, op == '>' || op == '+');
      Assoc([Sym(op), Word(file)], ItemTokens(more), rest);
      FileRead(op, file, ItemTokens(more) + rest, rs);
      FilesAccepted(more, rs + [to], rest);
      Shift(rs, to, Files(more));
  }

  lemma NotBlock<W>(items: Items<W>, rest: seq<Token<W>>)
    requires OpsOk(items) && EndsExec(rest)
    ensures !Peek(ItemTokens(items) + rest, '(')
  {
    if items.Nil? {
      assert ItemTokens(items) + rest == rest;
    }
  }

  lemma {:induction false} ExecAccepted<W>(e: ExecSyn<W>, rest: seq<Token<W>>)
    requires ExecOk(e) && EndsExec(rest)
    ensures ParseExec(ExecTokens(e) + rest) == Ok(Parsed(ExecMeans(e), rest))
    decreases e
  {
    match e
    case Simple(items) =>
      NotBlock(items, rest);
      ItemsAccepted(items, [], [], rest);
      assert [] + Args(items) == Args(items) && [] + Files(items) == Files(items);
    case Block(line, items) =>
      var tail := [Sym(')')] + (ItemTokens(items) + rest);
      assert ExecTokens(e) + rest == [Sym('(')] + (LineTokens(line) + tail);
      assert ([Sym('(')] + (LineTokens(line) + tail))[1..] == LineTokens(line) + tail;
      LineAccepted(line, tail);
      assert tail[1..] == ItemTokens(items) + rest;
      FilesAccepted(items, [], rest);
      assert [] + Files(items) == Files(items);
  }

  lemma {:induction false} PipeAccepted<W>(p: PipeSyn<W>, rest: seq<Token<W>>)
    requires PipeOk(p) && EndsPipe(rest)
    ensures ParsePipe(PipeTokens(p) + rest) == Ok(Parsed(PipeMeans(p), rest))
    decreases p
  {
    match p
    case Single(e) => ExecAccepted(e, rest);
    case Through(e, q) =>
      var tail := [Sym('|')] + (PipeTokens(q) + rest);
      assert PipeTokens(p) + rest == ExecTokens(e) + tail;
      ExecAccepted(e, tail);
      assert tail[1..] == PipeTokens(q) + rest;
      PipeAccepted(q, rest);
  }

  lemma {:induction false} BacksAccepted<W>(c: Cmd<W>, n: nat, rest: seq<Token<W>>)
    requires !Peek(rest, '&')
    ensures ParseBacks(c, Backs(n) + rest) == Parsed(InBack(c, n), rest)
    decreases n
  {
    if n == 0 {
      assert Backs(n) + rest == rest;
    } else {
      assert (Backs(n) + rest)[1..] == Backs(n - 1) + rest;
      BacksAccepted(Back(c), n - 1, rest);
    }
  }

  lemma BacksEnd<W>(n: nat, rest: seq<Token<W>>)
    requires EndsPipe(rest)
    ensures EndsPipe(Backs(n) + rest)
  {
    if n == 0 {
      assert Backs(n) + rest == rest;
    }
  }

  lemma {:induction false} LineAccepted<W>(l: LineSyn<W>, rest: seq<Token<W>>)
    requires LineOk(l) && EndsLine(rest)
    ensures ParseLine(LineTokens(l) + rest) == Ok(Parsed(LineMeans(l), rest))
    decreases l
  {
    match l
    case Last(p, n) =>
      assert LineTokens(l) + rest == PipeTokens(p) + (Backs(n) + rest);
      BacksEnd(n, rest);
      PipeAccepted(p, Backs(n) + rest);
      BacksAccepted(PipeMeans(p), n, rest);
    case Semi(p, n, m) =>
      var tail := [Sym(';')] + (LineTokens(m) + rest);
      assert LineTokens(l) + rest == PipeTokens(p) + (Backs(n) + tail);
      BacksEnd(n, tail);
      PipeAccepted(p, Backs(n) + tail);
      BacksAccepted(PipeMeans(p), n, tail);
      assert tail[1..] == LineTokens(m) + rest;
      LineAccepted(m, rest);
  }

  // ------------------------------------------------------------------ and nothing else

  /** The redirections read from `ts`, put before `more`. */
  lemma {:induction false} RedirsWritten<W>(ts: seq<Token<W>>, rs: seq<Redirection<W>>, more: Items<W>,
                                            end: seq<Token<W>>) returns (items: Items<W>)
    requires ParseRedirs(ts, rs).Ok? && ItemTokens(more) + end == ParseRedirs(ts, rs).value.rest && OpsOk(more)
    ensures OpsOk(items) && ItemTokens(items) + end == ts && Args(items) == Args(more)
    ensures rs + Files(items) == ParseRedirs(ts, rs).value.to + Files(more)
    decreases |ts|
  {
    if !PeekRedir(ts) {
      items := more;
    } else {
      var op, file := ts[0].c, ts[1].w;
      var to := To(file, op == '>' || op == '+');
      var others := RedirsWritten(ts[2..], rs + [to], more, end);
      items := Rd(op, file, others);
      Assoc([Sym(op), Word(file)], ItemTokens(others), end);
      assert ts == [Sym(op), Word(file)] + ts[2..];
      Shift(rs, to, Files(others));
    }
  }

  lemma {:induction false} ArgsWritten<W>(ts: seq<Token<W>>, args: seq<W>, rs: seq<Redirection<W>>)
    returns (items: Items<W>)
    requires ParseArgs(ts, args, rs).Ok? && |args| < MAXARGS
    ensures OpsOk(items) && |args| + |Args(items)| < MAXARGS
    ensures ItemTokens(items) + ParseArgs(ts, args, rs).value.rest == ts
    ensures ParseArgs(ts, args, rs).value.cmd == Wrap(Exec(args + Args(items)), rs + Files(items))
    decreases |ts|
  {
    var end := ParseArgs(ts, args, rs).value.rest;
    if ts == [] || PeekStop(ts) {
      items := Nil;
      assert ItemTokens(items) + ts == ts && args + Args(items) == args && rs + Files(items) == rs;
    } else {
      var w, x := ts[0].w, ParseRedirs(ts[1..], rs).value;
      var more := ArgsWritten(x.rest, args + [w], x.to);
      var others := RedirsWritten(ts[1..], rs, more, end);
      items := Arg(w, others);
      WordWritten(ts, w, ItemTokens(others), end);
      Shift(args, w, Args(others));
    }
  }

  lemma WordWritten<W>(ts: seq<Token<W>>, w: W, more: seq<Token<W>>, end: seq<Token<W>>)
    requires ts != [] && ts[0] == Word(w) && ts[1..] == more + end
    ensures [Word(w)] + more + end == ts
  {
    Assoc([Word(w)], more, end);
    assert ts == [Word(w)] + ts[1..];
  }

  lemma {:induction false} ExecWritten<W>(ts: seq<Token<W>>) returns (e: ExecSyn<W>)
    requires ParseExec(ts).Ok?
    ensures ExecOk(e)
    ensures var x := ParseExec(ts).value; ExecTokens(e) + x.rest == ts && x.cmd == ExecMeans(e)
    decreases |ts|, 1
  {
    if Peek(ts, '(') {
      var x := ParseLine(ts[1..]).value;
      var line := LineWritten(ts[1..]);
      var items := FilesWritten(x.rest[1..]);
      e := Block(line, items);
      BlockWritten(ts, x.rest, LineTokens(line), ItemTokens(items), ParseExec(ts).value.rest);
    } else {
      var items := ItemsWritten(ts);
      e := Simple(items);
    }
  }

  lemma FilesWritten<W>(ts: seq<Token<W>>) returns (items: Items<W>)
    requires ParseRedirs(ts, []).Ok?
    ensures OpsOk(items) && Args(items) == []
    ensures var x := ParseRedirs(ts, []).value; ItemTokens(items) + x.rest == ts && Files(items) == x.to
  {
    var x := ParseRedirs(ts, []).value;
    assert ItemTokens(Items<W>.Nil) + x.rest == x.rest;
    items := RedirsWritten(ts, [], Nil, x.rest);
    assert [] + Files(items) == Files(items) && x.to + [] == x.to;
  }

  lemma ItemsWritten<W>(ts: seq<Token<W>>) returns (items: Items<W>)
    requires ParseItems(ts, [], []).Ok?
    ensures OpsOk(items) && |Args(items)| < MAXARGS
    ensures var x := ParseItems(ts, [], []).value;
      ItemTokens(items) + x.rest == ts && x.cmd == Wrap(Exec(Args(items)), Files(items))
  {
    var x := ParseRedirs(ts, []).value;
    var more := ArgsWritten(x.rest, [], x.to);
    items := RedirsWritten(ts, [], more, ParseItems(ts, [], []).value.rest);
    assert [] + Files(items) == Files(items) && [] + Args(more) == Args(more);
  }

  lemma BlockWritten<W>(ts: seq<Token<W>>, mid: seq<Token<W>>, line: seq<Token<W>>, files: seq<Token<W>>,
                        end: seq<Token<W>>)
    requires Peek(ts, '(') && ts[1..] == line + mid && Peek(mid, ')') && mid[1..] == files + end
    ensures [Sym('(')] + (line + ([Sym(')')] + files)) + end == ts
  {
    assert ts == [Sym('(')] + ts[1..] && mid == [Sym(')')] + mid[1..];
  }

  lemma {:induction false} PipeWritten<W>(ts: seq<Token<W>>) returns (p: PipeSyn<W>)
    requires ParsePipe(ts).Ok?
    ensures PipeOk(p)
    ensures var x := ParsePipe(ts).value; PipeTokens(p) + x.rest == ts && x.cmd == PipeMeans(p)
    decreases |ts|, 2
  {
    var x := ParseExec(ts).value;
    var e := ExecWritten(ts);
    if !Peek(x.rest, '|') {
      p := Single(e);
    } else {
      var q := PipeWritten(x.rest[1..]);
      p := Through(e, q);
      BarWritten(ts, ExecTokens(e), x.rest, PipeTokens(q), ParsePipe(ts).value.rest);
    }
  }

  lemma BarWritten<W>(ts: seq<Token<W>>, e: seq<Token<W>>, mid: seq<Token<W>>, q: seq<Token<W>>, end: seq<Token<W>>)
    requires ts == e + mid && Peek(mid, '|') && mid[1..] == q + end
    ensures e + ([Sym('|')] + q) + end == ts
  {
    assert mid == [Sym('|')] + mid[1..];
  }

  lemma {:induction false} BacksWritten<W>(c: Cmd<W>, ts: seq<Token<W>>) returns (n: nat)
    ensures var x := ParseBacks(c, ts); Backs(n) + x.rest == ts && x.cmd == InBack(c, n)
    decreases |ts|
  {
    if Peek(ts, '&') {
      n := BacksWritten(Back(c), ts[1..]);
      n := n + 1;
      assert ts == [Sym('&')] + ts[1..];
    } else {
      n := 0;
      assert Backs<W>(n) + ts == ts;
    }
  }

  lemma {:induction false} LineWritten<W>(ts: seq<Token<W>>) returns (l: LineSyn<W>)
    requires ParseLine(ts).Ok?
    ensures LineOk(l)
    ensures var x := ParseLine(ts).value; LineTokens(l) + x.rest == ts && x.cmd == LineMeans(l)
    decreases |ts|, 3
  {
    var x := ParsePipe(ts).value;
    var p := PipeWritten(ts);
    var n := BacksWritten(x.cmd, x.rest);
    var y := ParseBacks(x.cmd, x.rest);
    if !Peek(y.rest, ';') {
      l := Last(p, n);
      Assoc(PipeTokens(p), Backs(n), y.rest);
    } else {
      var m := LineWritten(y.rest[1..]);
      l := Semi(p, n, m);
      SemiWritten(ts, PipeTokens(p), Backs(n), y.rest, LineTokens(m), ParseLine(ts).value.rest);
    }
  }

  lemma SemiWritten<W>(ts: seq<Token<W>>, p: seq<Token<W>>, n: seq<Token<W>>, mid: seq<Token<W>>, m: seq<Token<W>>,
                       end: seq<Token<W>>)
    requires ts == p + (n + mid) && Peek(mid, ';') && mid[1..] == m + end
    ensures p + (n + ([Sym(';')] + m)) + end == ts
  {
    assert mid == [Sym(';')] + mid[1..];
  }

  /** `l` is a way of writing `c` as these tokens. */
  ghost predicate Writes<W(!new)>(l: LineSyn<W>, ts: seq<Token<W>>, c: Cmd<W>) {
    LineOk(l) && LineTokens(l) == ts && LineMeans(l) == c
  }

  /** The parser accepts exactly what the grammar generates, and gives it the grammar's meaning. */
  lemma ParsesExactly<W(!new)>(ts: seq<Token<W>>, c: Cmd<W>)
    ensures ParseCmd(ts) == Ok(c) <==> exists l :: Writes(l, ts, c)
  {
    if ParseCmd(ts) == Ok(c) {
      var l := LineWritten(ts);
      assert LineTokens(l) + [] == LineTokens(l);
      assert Writes(l, ts, c);
    }
    if l :| Writes(l, ts, c) {
      LineAccepted(l, []);
      assert LineTokens(l) + [] == LineTokens(l);
    }
  }

  lemma GrammarDecides<W(!new)>(ts: seq<Token<W>>)
    ensures ParseCmd(ts).Ok? <==> exists l, c :: Writes(l, ts, c)
    ensures forall l, c :: Writes(l, ts, c) ==> ParseCmd(ts) == Ok(c)
  {
    if ParseCmd(ts).Ok? {
      ParsesExactly(ts, ParseCmd(ts).value);
    }
    forall l, c | Writes(l, ts, c) ensures ParseCmd(ts) == Ok(c) {
      ParsesExactly(ts, c);
    }
  }

  // ------------------------------------------------------------------ the two ways of writing an output redirection

  function AsOutput<W>(t: Token<W>): Token<W> {
    if t == Sym('+') then Sym('>') else t
  }

  /** `>` for every `>>`. */
  function AllAsOutput<W>(ts: seq<Token<W>>): seq<Token<W>> {
    seq(|ts|, i requires 0 <= i < |ts| => AsOutput(ts[i]))
  }

  function OutputParsed<W>(r: Result<Parsed<W>>): Result<Parsed<W>> {
    match r
    case Err(e) => Err(e)
    case Ok(x) => Ok(Parsed(x.cmd, AllAsOutput(x.rest)))
  }

  lemma OutputTail<W>(ts: seq<Token<W>>, n: nat)
    requires n <= |ts|
    ensures AllAsOutput(ts)[n..] == AllAsOutput(ts[n..])
  {
  }

  lemma {:induction false} OutputRedirs<W>(ts: seq<Token<W>>, rs: seq<Redirection<W>>)
    ensures ParseRedirs(AllAsOutput(ts), rs) ==
      match ParseRedirs(ts, rs) { case Err(e) => Err(e) case Ok(x) => Ok(Redirs(x.to, AllAsOutput(x.rest))) }
    decreases |ts|
  {
    if PeekRedir(ts) && |ts| >= 2 && ts[1].Word? {
      OutputTail(ts, 2);
      OutputRedirs(ts[2..], rs + [To(ts[1].w, ts[0].c != '<')]);
    }
  }

  lemma {:induction false} OutputArgs<W>(ts: seq<Token<W>>, args: seq<W>, rs: seq<Redirection<W>>)
    ensures ParseArgs(AllAsOutput(ts), args, rs) == OutputParsed(ParseArgs(ts, args, rs))
    decreases |ts|
  {
    if ts != [] && !PeekStop(ts) && ts[0].Word? && |args| + 1 < MAXARGS {
      OutputTail(ts, 1);
      OutputRedirs(ts[1..], rs);
      if ParseRedirs(ts[1..], rs).Ok? {
        var x := ParseRedirs(ts[1..], rs).value;
        OutputArgs(x.rest, args + [ts[0].w], x.to);
      }
    }
  }

  lemma {:induction false} OutputExec<W>(ts: seq<Token<W>>)
    ensures ParseExec(AllAsOutput(ts)) == OutputParsed(ParseExec(ts))
    decreases |ts|, 1
  {
    if Peek(ts, '(') {
      OutputTail(ts, 1);
      OutputLine(ts[1..]);
      if ParseLine(ts[1..]).Ok? && Peek(ParseLine(ts[1..]).value.rest, ')') {
        OutputTail(ParseLine(ts[1..]).value.rest, 1);
        OutputRedirs(ParseLine(ts[1..]).value.rest[1..], []);
      }
    } else {
      OutputRedirs(ts, []);
      if ParseRedirs(ts, []).Ok? {
        OutputArgs(ParseRedirs(ts, []).value.rest, [], ParseRedirs(ts, []).value.to);
      }
    }
  }

  lemma {:induction false} OutputPipe<W>(ts: seq<Token<W>>)
    ensures ParsePipe(AllAsOutput(ts)) == OutputParsed(ParsePipe(ts))
    decreases |ts|, 2
  {
    OutputExec(ts);
    if ParseExec(ts).Ok? && Peek(ParseExec(ts).value.rest, '|') {
      OutputTail(ParseExec(ts).value.rest, 1);
      OutputPipe(ParseExec(ts).value.rest[1..]);
    }
  }

  lemma {:induction false} OutputBacks<W>(c: Cmd<W>, ts: seq<Token<W>>)
    ensures var x := ParseBacks(c, ts); ParseBacks(c, AllAsOutput(ts)) == Parsed(x.cmd, AllAsOutput(x.rest))
    decreases |ts|
  {
    if Peek(ts, '&') {
      OutputTail(ts, 1);
      OutputBacks(Back(c), ts[1..]);
    }
  }

  lemma {:induction false} OutputLine<W>(ts: seq<Token<W>>)
    ensures ParseLine(AllAsOutput(ts)) == OutputParsed(ParseLine(ts))
    decreases |ts|, 3
  {
    OutputPipe(ts);
    if ParsePipe(ts).Ok? {
      var x := ParsePipe(ts).value;
      OutputBacks(x.cmd, x.rest);
      var y := ParseBacks(x.cmd, x.rest);
      if Peek(y.rest, ';') {
        OutputTail(y.rest, 1);
        OutputLine(y.rest[1..]);
      }
    }
  }

  /** `>>` parses as `>` does, errors included. */
  lemma AppendIsOutput<W>(ts: seq<Token<W>>)
    ensures ParseCmd(AllAsOutput(ts)) == ParseCmd(ts)
  {
    OutputLine(ts);
  }
}
