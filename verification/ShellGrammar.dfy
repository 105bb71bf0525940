/** The command language of user/sh.c: tokens, command trees, the grammar that the recursive-descent
    parser follows, a canonical printer, and the round trip between the two. */
module ShellGrammar {

  const MAXARGS := 10

  /** < > and >>, with their open modes and descriptors implied. */
  datatype Kind = In | Out | Append

  datatype Cmd =
    | Exec(argv: seq<string>)
    | Redir(cmd: Cmd, file: string, kind: Kind)
    | Pipe(left: Cmd, right: Cmd)
    | List(first: Cmd, second: Cmd)
    | Back(bg: Cmd)

  /** A word, or one of | ( ) ; & < > and + for >>. */
  datatype Tok = Word(w: string) | Sym(c: char)

  // ---- characters ------------------------------------------------------------------------------------

  predicate White(c: char) {
    c in " \t\r\n\U{000B}"
  }

  predicate Symbol(c: char) {
    c in "<|>&;()"
  }

  predicate WordChar(c: char) {
    !White(c) && !Symbol(c)
  }

  predicate GoodWord(w: string) {
    w != "" && '\0' !in w && forall i :: 0 <= i < |w| ==> WordChar(w[i])
  }

  function KindOf(c: char): (k: Kind) {
    if c == '<' then In else if c == '>' then Out else Append
  }

  function SymOf(k: Kind): (c: char) {
    match k
    case In => '<'
    case Out => '>'
    case Append => '+'
  }

  // ---- the grammar -------------------------------------------------------------------------------------

  /** A parse: the tree and the tokens that are left, or one of the panics. */
  datatype Res = Ok(cmd: Cmd, rest: seq<Tok>) | Panic

  datatype Redirs = Redirs(rs: seq<(string, Kind)>, rest: seq<Tok>) | NoFile

  predicate Is(ts: seq<Tok>, c: char) {
    ts != [] && ts[0] == Sym(c)
  }

  predicate IsRedir(ts: seq<Tok>) {
    Is(ts, '<') || Is(ts, '>') || Is(ts, '+')
  }

  /** Later redirections go around earlier ones. */
  function Wrap(cmd: Cmd, rs: seq<(string, Kind)>): (r: Cmd) {
    if rs == [] then cmd else
      var n := |rs| - 1;
      Redir(Wrap(cmd, rs[..n]), rs[n].0, rs[n].1)
  }

  function ParseRedirs(rs: seq<(string, Kind)>, ts: seq<Tok>): (r: Redirs)
    ensures r.Redirs? ==> |r.rest| <= |ts| && rs <= r.rs
    decreases |ts|
  {
    if !IsRedir(ts) then Redirs(rs, ts)
    else if |ts| < 2 || !ts[1].Word? then NoFile
    else ParseRedirs(rs + [(ts[1].w, KindOf(ts[0].c))], ts[2..])
  }

  /** The end of a simple command. */
  predicate Stop(ts: seq<Tok>) {
    ts == [] || Is(ts, '|') || Is(ts, ')') || Is(ts, '&') || Is(ts, ';')
  }

  function ParseArgs(args: seq<string>, rs: seq<(string, Kind)>, ts: seq<Tok>): (r: Res)
    ensures r.Ok? ==> |r.rest| <= |ts|
    decreases |ts|
  {
    if Stop(ts) then Ok(Wrap(Exec(args), rs), ts)
    else if !ts[0].Word? then Panic
    else if |args| + 1 >= MAXARGS then Panic
    else
      var p := ParseRedirs(rs, ts[1..]);
      if p.NoFile? then Panic else ParseArgs(args + [ts[0].w], p.rs, p.rest)
  }

  function ParseExec(ts: seq<Tok>): (r: Res)
    ensures r.Ok? ==> |r.rest| <= |ts|
    decreases |ts|, 1
  {
    if Is(ts, '(') then ParseBlock(ts) else
      var p := ParseRedirs([], ts);
      if p.NoFile? then Panic else ParseArgs([], p.rs, p.rest)
  }

  function ParseBlock(ts: seq<Tok>): (r: Res)
    ensures r.Ok? ==> |r.rest| <= |ts|
    decreases |ts|, 0
  {
    if !Is(ts, '(') then Panic else
      var r := ParseLine(ts[1..]);
      if r.Panic? || !Is(r.rest, ')') then Panic else
        var p := ParseRedirs([], r.rest[1..]);
        if p.NoFile? then Panic else Ok(Wrap(r.cmd, p.rs), p.rest)
  }

  function ParsePipe(ts: seq<Tok>): (r: Res)
    ensures r.Ok? ==> |r.rest| <= |ts|
    decreases |ts|, 2
  {
    var r := ParseExec(ts);
    if r.Panic? || !Is(r.rest, '|') then r else
      var right := ParsePipe(r.rest[1..]);
      if right.Panic? then Panic else Ok(Pipe(r.cmd, right.cmd), right.rest)
  }

  function ParseBacks(cmd: Cmd, ts: seq<Tok>): (r: Res)
    ensures r.Ok? && |r.rest| <= |ts|
    decreases |ts|
  {
    if Is(ts, '&') then ParseBacks(Back(cmd), ts[1..]) else Ok(cmd, ts)
  }

  function ParseLine(ts: seq<Tok>): (r: Res)
    ensures r.Ok? ==> |r.rest| <= |ts|
    decreases |ts|, 3
  {
    var p := ParsePipe(ts);
    if p.Panic? then Panic else
      var r := ParseBacks(p.cmd, p.rest);
      if !Is(r.rest, ';') then r else
        var l := ParseLine(r.rest[1..]);
        if l.Panic? then Panic else Ok(List(r.cmd, l.cmd), l.rest)
  }

  /** parsecmd: nothing may be left over. */
  function ParseCmd(ts: seq<Tok>): (r: Res) {
    var r := ParseLine(ts);
    if r.Ok? && r.rest == [] then r else Panic
  }

  // ---- the printer ----------------------------------------------------------------------------------------

  function Words(ws: seq<string>): (ts: seq<Tok>)
    ensures |ts| == |ws|
  {
    if ws == [] then [] else Words(ws[..|ws| - 1]) + [Word(ws[|ws| - 1])]
  }

  /** As a simple command or a parenthesised block. */
  function PrintExec(c: Cmd): (ts: seq<Tok>)
    decreases c, 0
  {
    match c
    case Exec(argv) => Words(argv)
    case Redir(d, file, kind) => PrintExec(d) + [Sym(SymOf(kind)), Word(file)]
    case Pipe(l, r) => [Sym('(')] + (PrintExec(l) + [Sym('|')] + PrintPipe(r)) + [Sym(')')]
    case List(l, r) => [Sym('(')] + (PrintBacks(l) + [Sym(';')] + PrintLine(r)) + [Sym(')')]
    case Back(d) => [Sym('(')] + (PrintBacks(d) + [Sym('&')]) + [Sym(')')]
  }

  function PrintPipe(c: Cmd): (ts: seq<Tok>)
    decreases c, 1
  {
    if c.Pipe? then PrintExec(c.left) + [Sym('|')] + PrintPipe(c.right) else PrintExec(c)
  }

  function PrintBacks(c: Cmd): (ts: seq<Tok>)
    decreases c, 2
  {
    if c.Back? then PrintBacks(c.bg) + [Sym('&')] else PrintPipe(c)
  }

  function PrintLine(c: Cmd): (ts: seq<Tok>)
    decreases c, 3
  {
    if c.List? then PrintBacks(c.first) + [Sym(';')] + PrintLine(c.second) else PrintBacks(c)
  }

  /** Trees a user can write: proper words, and fewer than MAXARGS of them in a command. */
  predicate Good(c: Cmd) {
    match c
    case Exec(argv) => |argv| < MAXARGS && forall i :: 0 <= i < |argv| ==> GoodWord(argv[i])
    case Redir(d, file, _) => Good(d) && GoodWord(file)
    case Pipe(l, r) => Good(l) && Good(r)
    case List(l, r) => Good(l) && Good(r)
    case Back(d) => Good(d)
  }

  // ---- parsing what was printed ------------------------------------------------------------------------------

  /** The command and the redirections of a tree. */
  function Core(c: Cmd): (d: Cmd)
    ensures !d.Redir?
  {
    if c.Redir? then Core(c.cmd) else c
  }

  function RedirsOf(c: Cmd): (rs: seq<(string, Kind)>) {
    if c.Redir? then RedirsOf(c.cmd) + [(c.file, c.kind)] else []
  }

  function PrintRedirs(rs: seq<(string, Kind)>): (ts: seq<Tok>) {
    if rs == [] then [] else [Sym(SymOf(rs[0].1)), Word(rs[0].0)] + PrintRedirs(rs[1..])
  }

  lemma {:induction false} WrapCore(c: Cmd)
    ensures Wrap(Core(c), RedirsOf(c)) == c
  {
    if c.Redir? {
      WrapCore(c.cmd);
      assert RedirsOf(c)[..|RedirsOf(c)| - 1] == RedirsOf(c.cmd);
    }
  }

  lemma {:induction false} PrintRedirsMore(rs: seq<(string, Kind)>, r: (string, Kind))
    ensures PrintRedirs(rs + [r]) == PrintRedirs(rs) + [Sym(SymOf(r.1)), Word(r.0)]
  {
    if rs == [] {
      assert rs + [r] == [r];
    } else {
      PrintRedirsMore(rs[1..], r);
      assert (rs + [r])[1..] == rs[1..] + [r];
    }
  }

  lemma {:induction false} PrintExecSplit(c: Cmd)
    ensures PrintExec(c) == PrintExec(Core(c)) + PrintRedirs(RedirsOf(c))
  {
    if c.Redir? {
      PrintExecSplit(c.cmd);
      PrintRedirsMore(RedirsOf(c.cmd), (c.file, c.kind));
    }
  }

  lemma RedirStep(rs0: seq<(string, Kind)>, ts: seq<Tok>, r: (string, Kind))
    requires |ts| >= 2 && ts[0] == Sym(SymOf(r.1)) && ts[1] == Word(r.0)
    ensures ParseRedirs(rs0, ts) == ParseRedirs(rs0 + [r], ts[2..])
  {
    assert r == (r.0, r.1) && KindOf(SymOf(r.1)) == r.1;
  }

  lemma {:induction false} ParsePrintedRedirs(rs0: seq<(string, Kind)>, rs: seq<(string, Kind)>, rest: seq<Tok>)
    requires !IsRedir(rest)
    ensures ParseRedirs(rs0, PrintRedirs(rs) + rest) == Redirs(rs0 + rs, rest)
    decreases |rs|
  {
    if rs == [] {
      assert PrintRedirs(rs) + rest == rest && rs0 + rs == rs0;
    } else {
      var ts := PrintRedirs(rs) + rest;
      assert ts[0] == Sym(SymOf(rs[0].1)) && ts[1] == Word(rs[0].0);
      assert ts[2..] == PrintRedirs(rs[1..]) + rest;
      hide PrintRedirs;
      RedirStep(rs0, ts, rs[0]);
      ParsePrintedRedirs(rs0 + [rs[0]], rs[1..], rest);
      assert rs0 + [rs[0]] + rs[1..] == rs0 + rs;
    }
  }

  lemma {:induction false} WordsFront(ws: seq<string>)
    requires ws != []
    ensures Words(ws) == [Word(ws[0])] + Words(ws[1..])
  {
    var n := |ws| - 1;
    if n > 0 {
      WordsFront(ws[..n]);
      assert ws[..n][1..] == ws[1..][..n - 1];
    }
  }

  /** The words of a simple command, then its redirections, then something that ends it. */
  lemma {:induction false} ParsePrintedArgs(args: seq<string>, ws: seq<string>, rs: seq<(string, Kind)>, rest: seq<Tok>)
    requires Stop(rest) && |args| + |ws| < MAXARGS
    ensures ws != [] ==> ParseArgs(args, [], Words(ws) + PrintRedirs(rs) + rest) == Ok(Wrap(Exec(args + ws), rs), rest)
    ensures ws == [] ==> ParseArgs(args, rs, rest) == Ok(Wrap(Exec(args), rs), rest)
    decreases |ws|
  {
    if ws != [] {
      WordsFront(ws);
      var ts := Words(ws) + PrintRedirs(rs) + rest;
      var ts1 := Words(ws[1..]) + PrintRedirs(rs) + rest;
      assert ts[0] == Word(ws[0]) && ts[1..] == ts1;
      assert args + [ws[0]] + ws[1..] == args + ws;
      if ws[1..] == [] {
        assert ts1 == PrintRedirs(rs) + rest;
        ParsePrintedRedirs([], rs, rest);
        assert [] + rs == rs;
        assert ParseArgs(args + [ws[0]], rs, rest) == Ok(Wrap(Exec(args + [ws[0]]), rs), rest);
        assert args + [ws[0]] == args + ws;
      } else {
        WordsFront(ws[1..]);
        assert ts1[0].Word? && !IsRedir(ts1);
        ParsePrintedArgs(args + [ws[0]], ws[1..], rs, rest);
      }
    }
  }

  lemma ParsePrintedSimple(ws: seq<string>, rs: seq<(string, Kind)>, rest: seq<Tok>)
    requires Stop(rest) && |ws| < MAXARGS
    ensures ParseExec(Words(ws) + PrintRedirs(rs) + rest) == Ok(Wrap(Exec(ws), rs), rest)
  {
    hide ParseExec, ParseArgs, Wrap, PrintRedirs, Words;
    var ts := Words(ws) + PrintRedirs(rs) + rest;
    if ws == [] {
      ParseNoWords(rs, rest);
      assert ts == PrintRedirs(rs) + rest;
    } else {
      ParsePrintedArgs([], ws, rs, rest);
      assert [] + ws == ws;
      WordsFront(ws);
      ExecOfWord(ts);
    }
  }

  lemma ExecOfWord(ts: seq<Tok>)
    requires ts != [] && ts[0].Word?
    ensures ParseExec(ts) == ParseArgs([], [], ts)
  {
    hide ParseArgs;
  }

  lemma ParseNoWords(rs: seq<(string, Kind)>, rest: seq<Tok>)
    requires Stop(rest)
    ensures ParseExec(PrintRedirs(rs) + rest) == Ok(Wrap(Exec([]), rs), rest)
  {
    hide ParseLine, ParseBlock, Wrap, Words;
    var ts := PrintRedirs(rs) + rest;
    ParsePrintedRedirs([], rs, rest);
    assert [] + rs == rs;
    assert rs != [] ==> ts[0] == Sym(SymOf(rs[0].1));
    assert !Is(ts, '(');
  }

  /** A block: its line is parsed first. */
  lemma ParsePrintedBlock(line: seq<Tok>, c: Cmd, rs: seq<(string, Kind)>, rest: seq<Tok>)
    requires Stop(rest)
    requires ParseLine(line + ([Sym(')')] + PrintRedirs(rs) + rest)) == Ok(c, [Sym(')')] + PrintRedirs(rs) + rest)
    ensures ParseExec([Sym('(')] + line + [Sym(')')] + PrintRedirs(rs) + rest) == Ok(Wrap(c, rs), rest)
  {
    hide ParseExec, ParseLine, ParseRedirs, PrintRedirs, Wrap;
    var after := [Sym(')')] + PrintRedirs(rs) + rest;
    var ts := [Sym('(')] + line + [Sym(')')] + PrintRedirs(rs) + rest;
    assert ts[1..] == line + after && ts[0] == Sym('(');
    assert after[1..] == PrintRedirs(rs) + rest;
    ParsePrintedRedirs([], rs, rest);
    assert [] + rs == rs;
    ExecOfBlock(ts, c, after, rs, rest);
  }

  lemma ExecOfBlock(ts: seq<Tok>, c: Cmd, after: seq<Tok>, rs: seq<(string, Kind)>, rest: seq<Tok>)
    requires Is(ts, '(') && ParseLine(ts[1..]) == Ok(c, after) && Is(after, ')')
    requires ParseRedirs([], after[1..]) == Redirs(rs, rest)
    ensures ParseExec(ts) == Ok(Wrap(c, rs), rest)
  {
    hide ParseLine, ParseRedirs, Wrap;
  }

  /** Tokens that end a pipeline, a background command, a line. */
  predicate EndsPipe(ts: seq<Tok>) { Stop(ts) && !Is(ts, '|') }
  predicate EndsBacks(ts: seq<Tok>) { EndsPipe(ts) && !Is(ts, '&') }
  predicate EndsLine(ts: seq<Tok>) { EndsBacks(ts) && !Is(ts, ';') }

  lemma {:induction false} ExecRoundTrip(c: Cmd, rest: seq<Tok>)
    requires Good(c) && Stop(rest)
    ensures ParseExec(PrintExec(c) + rest) == Ok(c, rest)
    decreases c, 1
  {
    var d, rs := Core(c), RedirsOf(c);
    PrintExecSplit(c);
    WrapCore(c);
    CoreSmaller(c);
    if d.Exec? {
      ParsePrintedSimple(d.argv, rs, rest);
    } else {
      var after := [Sym(')')] + PrintRedirs(rs) + rest;
      var line := PrintLine(d);
      LineOfBlock(d);
      if d.Pipe? {
        PipeLine(d, after);
      } else if d.List? {
        ListLine(d, after);
      } else {
        BackLine(d, after);
      }
      ParsePrintedBlock(line, d, rs, rest);
      assert PrintExec(c) + rest == [Sym('(')] + line + [Sym(')')] + PrintRedirs(rs) + rest;
    }
  }

  lemma {:induction false} CoreSmaller(c: Cmd)
    requires Good(c)
    ensures Good(Core(c)) && (Core(c) == c || Core(c) < c)
  {
    if c.Redir? {
      CoreSmaller(c.cmd);
    }
  }

  lemma LineOfBlock(d: Cmd)
    requires d.Pipe? || d.List? || d.Back?
    ensures PrintExec(d) == [Sym('(')] + PrintLine(d) + [Sym(')')]
  {
    if d.Pipe? {
      PipeAsLine(d);
    } else if d.Back? {
      assert PrintLine(d) == PrintBacks(d) == PrintBacks(d.bg) + [Sym('&')];
    } else {
      assert PrintLine(d) == PrintBacks(d.first) + [Sym(';')] + PrintLine(d.second);
    }
  }

  lemma PipeAsLine(d: Cmd)
    requires d.Pipe?
    ensures PrintLine(d) == PrintExec(d.left) + [Sym('|')] + PrintPipe(d.right)
  {
    assert PrintLine(d) == PrintBacks(d);
    assert PrintBacks(d) == PrintPipe(d);
  }

  lemma {:induction false} PipeRoundTrip(c: Cmd, rest: seq<Tok>)
    requires Good(c) && EndsPipe(rest)
    ensures ParsePipe(PrintPipe(c) + rest) == Ok(c, rest)
    decreases c, 2
  {
    if c.Pipe? {
      var after := [Sym('|')] + PrintPipe(c.right) + rest;
      assert PrintPipe(c) + rest == PrintExec(c.left) + after;
      assert after[1..] == PrintPipe(c.right) + rest;
      ExecRoundTrip(c.left, after);
      PipeRoundTrip(c.right, rest);
    } else {
      ExecRoundTrip(c, rest);
    }
  }

  /** Trailing & signs: the pipeline in front of them, then one Back for each. */
  function Fore(c: Cmd): (d: Cmd)
    ensures !d.Back?
  {
    if c.Back? then Fore(c.bg) else c
  }

  function Ands(c: Cmd): (ts: seq<Tok>) {
    if c.Back? then Ands(c.bg) + [Sym('&')] else []
  }

  lemma {:induction false} PrintBacksSplit(c: Cmd)
    ensures PrintBacks(c) == PrintPipe(Fore(c)) + Ands(c)
  {
    if c.Back? {
      PrintBacksSplit(c.bg);
    }
  }

  function Backs(c: Cmd, ts: seq<Tok>): (r: Cmd) {
    if ts == [] then c else Back(Backs(c, ts[..|ts| - 1]))
  }

  lemma {:induction false} BacksFore(c: Cmd)
    ensures Backs(Fore(c), Ands(c)) == c && forall i :: 0 <= i < |Ands(c)| ==> Ands(c)[i] == Sym('&')
  {
    if c.Back? {
      BacksFore(c.bg);
      assert Ands(c)[..|Ands(c)| - 1] == Ands(c.bg);
    }
  }

  lemma {:induction false} BacksFront(c: Cmd, ts: seq<Tok>)
    requires ts != []
    ensures Backs(c, ts) == Backs(Back(c), ts[1..])
    decreases |ts|
  {
    var n := |ts| - 1;
    if n > 0 {
      BacksFront(c, ts[..n]);
      assert ts[1..][..n - 1] == ts[..n][1..];
    }
  }

  lemma {:induction false} ParsePrintedBacks(c: Cmd, ts: seq<Tok>, rest: seq<Tok>)
    requires !Is(rest, '&') && forall i :: 0 <= i < |ts| ==> ts[i] == Sym('&')
    ensures ParseBacks(c, ts + rest) == Ok(Backs(c, ts), rest)
    decreases |ts|
  {
    if ts == [] {
      assert ts + rest == rest;
    } else {
      BacksFront(c, ts);
      assert (ts + rest)[1..] == ts[1..] + rest;
      ParsePrintedBacks(Back(c), ts[1..], rest);
    }
  }

  lemma {:induction false} ForeSmaller(c: Cmd)
    requires Good(c)
    ensures Good(Fore(c)) && (Fore(c) == c || Fore(c) < c)
  {
    if c.Back? {
      ForeSmaller(c.bg);
    }
  }

  /** A pipeline with its & signs, at the front of a line. */
  lemma {:induction false} BacksRoundTrip(c: Cmd, rest: seq<Tok>)
    requires Good(c) && EndsBacks(rest)
    ensures var p := ParsePipe(PrintBacks(c) + rest); p.Ok? && ParseBacks(p.cmd, p.rest) == Ok(c, rest)
    decreases c, 3
  {
    PrintBacksSplit(c);
    BacksFore(c);
    ForeSmaller(c);
    var after := Ands(c) + rest;
    assert PrintBacks(c) + rest == PrintPipe(Fore(c)) + after;
    assert Ands(c) == [] ==> after == rest;
    assert Ands(c) != [] ==> after[0] == Sym('&');
    PipeRoundTrip(Fore(c), after);
    ParsePrintedBacks(Fore(c), Ands(c), rest);
  }

  /** Parsing inverts printing, whatever follows the line. */
  lemma {:induction false} LineRoundTrip(c: Cmd, rest: seq<Tok>)
    requires Good(c) && EndsLine(rest)
    ensures ParseLine(PrintLine(c) + rest) == Ok(c, rest)
    decreases c, 4
  {
    if c.List? {
      ListLine(c, rest);
    } else {
      BacksRoundTrip(c, rest);
    }
  }

  lemma {:induction false} ListLine(c: Cmd, rest: seq<Tok>)
    requires Good(c) && c.List? && EndsLine(rest)
    ensures ParseLine(PrintLine(c) + rest) == Ok(c, rest)
    decreases c, 0
  {
    var after := [Sym(';')] + PrintLine(c.second) + rest;
    assert PrintLine(c) + rest == PrintBacks(c.first) + after;
    assert after[1..] == PrintLine(c.second) + rest;
    BacksRoundTrip(c.first, after);
    LineRoundTrip(c.second, rest);
  }

  lemma {:induction false} PipeLine(c: Cmd, rest: seq<Tok>)
    requires Good(c) && c.Pipe? && EndsLine(rest)
    ensures ParseLine(PrintLine(c) + rest) == Ok(c, rest)
    decreases c, 0
  {
    var after := [Sym('|')] + PrintPipe(c.right) + rest;
    PipeAsLine(c);
    assert PrintLine(c) + rest == PrintExec(c.left) + after;
    assert after[1..] == PrintPipe(c.right) + rest;
    ExecRoundTrip(c.left, after);
    PipeRoundTrip(c.right, rest);
  }

  lemma {:induction false} BackLine(c: Cmd, rest: seq<Tok>)
    requires Good(c) && c.Back? && EndsLine(rest)
    ensures ParseLine(PrintLine(c) + rest) == Ok(c, rest)
    decreases c, 0
  {
    PrintBacksSplit(c);
    BacksFore(c);
    ForeSmaller(c);
    ForeOfBack(c);
    var after := Ands(c) + rest;
    assert PrintLine(c) + rest == PrintPipe(Fore(c)) + after;
    assert after[0] == Sym('&');
    PipeRoundTrip(Fore(c), after);
    ParsePrintedBacks(Fore(c), Ands(c), rest);
  }

  lemma ForeOfBack(c: Cmd)
    requires c.Back? && Good(c)
    ensures Fore(c) < c && Ands(c) != []
  {
    ForeSmaller(c.bg);
  }

  /** For every tree: parsing its printed tokens consumes them all and returns the tree. */
  lemma TokenRoundTrip(c: Cmd)
    requires Good(c)
    ensures ParseCmd(PrintLine(c)) == Ok(c, [])
  {
    LineRoundTrip(c, []);
    assert PrintLine(c) + [] == PrintLine(c);
  }
}
