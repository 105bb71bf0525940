/** The tokens of a command line (gettoken and peek of user/sh.c), and the printed form of a tree. */
module ShellLex {
  import opened ShellGrammar

  /** Leading white space. */
  function Skip(t: string): (n: nat)
    ensures n <= |t| && (n < |t| ==> !White(t[n])) && forall i :: 0 <= i < n ==> White(t[i])
  {
    if t != "" && White(t[0]) then 1 + Skip(t[1..]) else 0
  }

  /** Leading word characters. */
  function Span(t: string): (n: nat)
    ensures n <= |t| && (n < |t| ==> !WordChar(t[n])) && forall i :: 0 <= i < n ==> WordChar(t[i])
  {
    if t != "" && WordChar(t[0]) then 1 + Span(t[1..]) else 0
  }

  /** The first token of a text that starts with one, and how many characters it has. */
  function First(u: string): (r: (Tok, nat))
    requires u != "" && !White(u[0])
    ensures 1 <= r.1 <= |u|
  {
    if u[0] == '>' && |u| > 1 && u[1] == '>' then (Sym('+'), 2)
    else if Symbol(u[0]) then (Sym(u[0]), 1)
    else (Word(u[..Span(u)]), Span(u))
  }

  function Lex(t: string): (ts: seq<Tok>)
    decreases |t|
  {
    var u := t[Skip(t)..];
    if u == "" then [] else [First(u).0] + Lex(u[First(u).1..])
  }

  /** White space in front changes nothing. */
  lemma LexWhite(t: string)
    requires t != "" && White(t[0])
    ensures Lex(t) == Lex(t[1..])
  {
    assert t[Skip(t)..] == t[1..][Skip(t[1..])..];
  }

  lemma LexToken(t: string)
    requires t != "" && !White(t[0])
    ensures Lex(t) == [First(t).0] + Lex(t[First(t).1..])
  {
    assert t[Skip(t)..] == t;
  }

  // ---- printing ----------------------------------------------------------------------------------------

  function Text(tok: Tok): (t: string) {
    if tok.Word? then tok.w else if tok.c == '+' then ">>" else [tok.c]
  }

  /** Every token followed by a space. */
  function Render(ts: seq<Tok>): (t: string) {
    if ts == [] then "" else Text(ts[0]) + " " + Render(ts[1..])
  }

  function Print(c: Cmd): (t: string) {
    Render(PrintLine(c))
  }

  predicate GoodTok(tok: Tok) {
    if tok.Word? then GoodWord(tok.w) else Symbol(tok.c) || tok.c == '+'
  }

  lemma FirstText(tok: Tok, rest: string)
    requires GoodTok(tok)
    ensures var t := Text(tok) + " " + rest;
            t != "" && !White(t[0]) && First(t) == (tok, |Text(tok)|) && t[|Text(tok)|..] == " " + rest
  {
    var t := Text(tok) + " " + rest;
    if tok.Word? {
      SpanWord(tok.w, " " + rest);
      assert t == tok.w + (" " + rest) && t[0] == tok.w[0] && WordChar(t[0]);
    }
  }

  lemma {:induction false} SpanWord(w: string, rest: string)
    requires (forall i :: 0 <= i < |w| ==> WordChar(w[i])) && rest != "" && !WordChar(rest[0])
    ensures Span(w + rest) == |w|
  {
    if w == "" {
      assert w + rest == rest;
    } else {
      assert (w + rest)[1..] == w[1..] + rest;
      SpanWord(w[1..], rest);
    }
  }

  /** Reading back what was rendered. */
  lemma {:induction false} LexRender(ts: seq<Tok>)
    requires forall i :: 0 <= i < |ts| ==> GoodTok(ts[i])
    ensures Lex(Render(ts)) == ts
  {
    if ts != [] {
      var t, rest := Render(ts), Render(ts[1..]);
      FirstText(ts[0], rest);
      LexToken(t);
      LexWhite(" " + rest);
      assert (" " + rest)[1..] == rest;
      LexRender(ts[1..]);
    }
  }

  lemma GoodWords(ws: seq<string>)
    requires forall i :: 0 <= i < |ws| ==> GoodWord(ws[i])
    ensures forall i :: 0 <= i < |Words(ws)| ==> GoodTok(Words(ws)[i])
  {
  }

  lemma {:induction false} GoodExec(c: Cmd)
    requires Good(c)
    ensures forall i :: 0 <= i < |PrintExec(c)| ==> GoodTok(PrintExec(c)[i])
    decreases c, 0
  {
    match c
    case Exec(argv) => GoodWords(argv);
    case Redir(d, file, kind) => GoodExec(d);
    case Pipe(l, r) => GoodExec(l); GoodPipe(r);
    case List(l, r) => GoodBacks(l); GoodLine(r);
    case Back(d) => GoodBacks(d);
  }

  lemma {:induction false} GoodPipe(c: Cmd)
    requires Good(c)
    ensures forall i :: 0 <= i < |PrintPipe(c)| ==> GoodTok(PrintPipe(c)[i])
    decreases c, 1
  {
    if c.Pipe? {
      GoodExec(c.left);
      GoodPipe(c.right);
    } else {
      GoodExec(c);
    }
  }

  lemma {:induction false} GoodBacks(c: Cmd)
    requires Good(c)
    ensures forall i :: 0 <= i < |PrintBacks(c)| ==> GoodTok(PrintBacks(c)[i])
    decreases c, 2
  {
    if c.Back? {
      GoodBacks(c.bg);
    } else {
      GoodPipe(c);
    }
  }

  lemma {:induction false} GoodLine(c: Cmd)
    requires Good(c)
    ensures forall i :: 0 <= i < |PrintLine(c)| ==> GoodTok(PrintLine(c)[i])
    decreases c, 3
  {
    if c.List? {
      GoodBacks(c.first);
      GoodLine(c.second);
    } else {
      GoodBacks(c);
    }
  }

  /** The parser inverts the printer: every tree comes back, and all of its text is consumed. */
  lemma RoundTrip(c: Cmd)
    requires Good(c)
    ensures ParseCmd(Lex(Print(c))) == Ok(c, [])
  {
    GoodLine(c);
    LexRender(PrintLine(c));
    TokenRoundTrip(c);
  }

  // ---- what is accepted ----------------------------------------------------------------------------------

  ghost predicate GoodToks(ts: seq<Tok>) {
    forall i :: 0 <= i < |ts| ==> GoodTok(ts[i])
  }

  lemma GoodRest(ts: seq<Tok>, k: nat)
    requires GoodToks(ts) && k <= |ts|
    ensures GoodToks(ts[k..])
  {
  }

  lemma {:induction false} SpanGood(u: string)
    requires u != "" && WordChar(u[0]) && '\0' !in u
    ensures GoodWord(u[..Span(u)])
  {
    hide White, Symbol, WordChar;
  }

  /** Every token of a C string is a proper word or a symbol. */
  lemma {:induction false} LexGood(t: string)
    requires '\0' !in t
    ensures GoodToks(Lex(t))
    decreases |t|
  {
    var u := t[Skip(t)..];
    if u != "" {
      var f := First(u);
      if f.0.Word? {
        SpanGood(u);
      }
      LexGood(u[f.1..]);
      assert Lex(t) == [f.0] + Lex(u[f.1..]);
    }
  }

  ghost predicate GoodRs(rs: seq<(string, Kind)>) {
    forall i :: 0 <= i < |rs| ==> GoodWord(rs[i].0)
  }

  ghost predicate GoodRes(r: Res) {
    r.Ok? ==> Good(r.cmd) && GoodToks(r.rest)
  }

  lemma {:induction false} WrapGood(c: Cmd, rs: seq<(string, Kind)>)
    requires Good(c) && GoodRs(rs)
    ensures Good(Wrap(c, rs))
  {
    if rs != [] {
      WrapGood(c, rs[..|rs| - 1]);
    }
  }

  lemma {:induction false} RedirsGood(rs: seq<(string, Kind)>, ts: seq<Tok>)
    requires GoodRs(rs) && GoodToks(ts)
    ensures var p := ParseRedirs(rs, ts); p.Redirs? ==> GoodRs(p.rs) && GoodToks(p.rest)
    decreases |ts|
  {
    hide GoodWord;
    if IsRedir(ts) && |ts| >= 2 && ts[1].Word? {
      GoodRest(ts, 2);
      assert GoodTok(ts[1]);
      RedirsGood(rs + [(ts[1].w, KindOf(ts[0].c))], ts[2..]);
    }
  }

  lemma {:induction false} ArgsGood(args: seq<string>, rs: seq<(string, Kind)>, ts: seq<Tok>)
    requires GoodToks(ts) && GoodRs(rs) && |args| < MAXARGS && forall i :: 0 <= i < |args| ==> GoodWord(args[i])
    ensures GoodRes(ParseArgs(args, rs, ts))
    decreases |ts|
  {
    hide GoodWord, Wrap;
    if Stop(ts) {
      WrapGood(Exec(args), rs);
    } else if ts[0].Word? && |args| + 1 < MAXARGS {
      assert GoodTok(ts[0]);
      GoodRest(ts, 1);
      RedirsGood(rs, ts[1..]);
      var p := ParseRedirs(rs, ts[1..]);
      if p.Redirs? {
        ArgsGood(args + [ts[0].w], p.rs, p.rest);
      }
    }
  }

  lemma {:induction false} ExecGood(ts: seq<Tok>)
    requires GoodToks(ts)
    ensures GoodRes(ParseExec(ts))
    decreases |ts|, 1
  {
    hide GoodToks, ParseArgs, ParseRedirs, ParseLine;
    if Is(ts, '(') {
      BlockGood(ts);
    } else {
      RedirsGood([], ts);
      var p := ParseRedirs([], ts);
      if p.Redirs? {
        ArgsGood([], p.rs, p.rest);
      }
    }
  }

  lemma {:induction false} BlockGood(ts: seq<Tok>)
    requires GoodToks(ts)
    ensures GoodRes(ParseBlock(ts))
    decreases |ts|, 0
  {
    hide GoodToks, ParseRedirs, Wrap;
    if Is(ts, '(') {
      GoodRest(ts, 1);
      LineGood(ts[1..]);
      var r := ParseLine(ts[1..]);
      if r.Ok? && Is(r.rest, ')') {
        GoodRest(r.rest, 1);
        RedirsGood([], r.rest[1..]);
        var p := ParseRedirs([], r.rest[1..]);
        if p.Redirs? {
          WrapGood(r.cmd, p.rs);
        }
      }
    }
  }

  lemma {:induction false} PipeGood(ts: seq<Tok>)
    requires GoodToks(ts)
    ensures GoodRes(ParsePipe(ts))
    decreases |ts|, 2
  {
    hide GoodToks, ParseExec;
    ExecGood(ts);
    var r := ParseExec(ts);
    if r.Ok? && Is(r.rest, '|') {
      GoodRest(r.rest, 1);
      PipeGood(r.rest[1..]);
    }
  }

  lemma {:induction false} BacksGood(c: Cmd, ts: seq<Tok>)
    requires Good(c) && GoodToks(ts)
    ensures GoodRes(ParseBacks(c, ts))
    decreases |ts|
  {
    hide GoodToks;
    if Is(ts, '&') {
      GoodRest(ts, 1);
      BacksGood(Back(c), ts[1..]);
    }
  }

  lemma {:induction false} LineGood(ts: seq<Tok>)
    requires GoodToks(ts)
    ensures GoodRes(ParseLine(ts))
    decreases |ts|, 3
  {
    hide GoodToks, ParsePipe, ParseBacks;
    PipeGood(ts);
    var p := ParsePipe(ts);
    if p.Ok? {
      BacksGood(p.cmd, p.rest);
      var r := ParseBacks(p.cmd, p.rest);
      if Is(r.rest, ';') {
        GoodRest(r.rest, 1);
        LineGood(r.rest[1..]);
      }
    }
  }

  /** Every line that is accepted stands for a tree that can be printed: parsing its printed form gives the
      same tree. */
  lemma AcceptedRoundTrip(t: string)
    requires '\0' !in t
    ensures var r := ParseCmd(Lex(t)); r.Ok? ==> Good(r.cmd) && ParseCmd(Lex(Print(r.cmd))) == r
  {
    hide Lex, ParseLine, PrintLine, Render;
    LexGood(t);
    LineGood(Lex(t));
    var r := ParseCmd(Lex(t));
    if r.Ok? {
      RoundTrip(r.cmd);
    }
  }
}
