/** The parser of user/sh.c as the code runs it: a cursor that moves through the line, trees whose
    words are spans of the buffer, and nulterminate writing into the buffer at the end. */
module ShellCode {
  import opened ShellGrammar
  import opened ShellLex

  /** q and eq of a word. */
  datatype At = At(q: nat, eq: nat)

  datatype Tree =
    | TExec(argv: seq<At>)
    | TRedir(cmd: Tree, file: At, kind: Kind)
    | TPipe(left: Tree, right: Tree)
    | TList(first: Tree, second: Tree)
    | TBack(bg: Tree)

  /** A tree, or a panic. */
  datatype Parsed = Done(tree: Tree) | Syntax

  // ---- trees of spans ------------------------------------------------------------------------------------

  /** A maximal run of word characters. */
  ghost predicate IsWord(text: string, a: At) {
    && a.q < a.eq <= |text| && (forall i :: a.q <= i < a.eq ==> WordChar(text[i]))
    && (a.eq < |text| ==> !WordChar(text[a.eq]))
  }

  function Cut(text: string, a: At): (w: string) {
    if a.q <= a.eq <= |text| then text[a.q..a.eq] else ""
  }

  function CutAll(text: string, ws: seq<At>): (r: seq<string>)
    ensures |r| == |ws|
  {
    seq(|ws|, i requires 0 <= i < |ws| => Cut(text, ws[i]))
  }

  function CutRedirs(text: string, rs: seq<(At, Kind)>): (r: seq<(string, Kind)>)
    ensures |r| == |rs|
  {
    seq(|rs|, i requires 0 <= i < |rs| => (Cut(text, rs[i].0), rs[i].1))
  }

  /** The tree with its words read from the buffer. */
  function Strip(text: string, t: Tree): (c: Cmd) {
    match t
    case TExec(argv) => Exec(CutAll(text, argv))
    case TRedir(d, file, kind) => Redir(Strip(text, d), Cut(text, file), kind)
    case TPipe(l, r) => Pipe(Strip(text, l), Strip(text, r))
    case TList(l, r) => List(Strip(text, l), Strip(text, r))
    case TBack(d) => Back(Strip(text, d))
  }

  ghost function Spans(t: Tree): (s: set<At>) {
    match t
    case TExec(argv) => set a | a in argv
    case TRedir(d, file, kind) => Spans(d) + {file}
    case TPipe(l, r) => Spans(l) + Spans(r)
    case TList(l, r) => Spans(l) + Spans(r)
    case TBack(d) => Spans(d)
  }

  ghost predicate SpansOk(text: string, t: Tree) {
    forall a :: a in Spans(t) ==> IsWord(text, a)
  }

  function WrapTree(t: Tree, rs: seq<(At, Kind)>): (r: Tree) {
    if rs == [] then t else
      var n := |rs| - 1;
      TRedir(WrapTree(t, rs[..n]), rs[n].0, rs[n].1)
  }

  ghost predicate RedirsOk(text: string, rs: seq<(At, Kind)>) {
    forall i :: 0 <= i < |rs| ==> IsWord(text, rs[i].0)
  }

  lemma {:induction false} StripWrap(text: string, t: Tree, rs: seq<(At, Kind)>)
    requires SpansOk(text, t) && RedirsOk(text, rs)
    ensures Strip(text, WrapTree(t, rs)) == Wrap(Strip(text, t), CutRedirs(text, rs)) && SpansOk(text, WrapTree(t, rs))
  {
    if rs != [] {
      hide Cut, IsWord;
      var n := |rs| - 1;
      StripWrap(text, t, rs[..n]);
      assert CutRedirs(text, rs)[..n] == CutRedirs(text, rs[..n]);
      assert IsWord(text, rs[n].0);
    }
  }

  // ---- nulterminate -----------------------------------------------------------------------------------------

  ghost function Ends(t: Tree): (s: set<nat>) {
    set a | a in Spans(t) :: a.eq
  }

  /** The end of a word is never inside another word. */
  lemma EndsOutside(text: string, t: Tree, a: At, e: nat)
    requires SpansOk(text, t) && a in Spans(t) && e in Ends(t)
    ensures !(a.q <= e < a.eq)
  {
    var b :| b in Spans(t) && b.eq == e;
    assert IsWord(text, a) && IsWord(text, b);
  }

  /** nulterminate: a NUL at the end of every word, and nothing else changes. */
  method NulTerminate(buf: array<char>, t: Tree)
    requires forall a :: a in Spans(t) ==> a.eq < buf.Length
    modifies buf
    ensures forall i :: 0 <= i < buf.Length ==> buf[i] == if i in Ends(t) then '\0' else old(buf[i])
    decreases t
  {
    match t {
      case TExec(argv) =>
        var i := 0;
        while i < |argv|
          invariant 0 <= i <= |argv|
          invariant forall k :: 0 <= k < buf.Length ==>
            buf[k] == if exists j :: 0 <= j < i && argv[j].eq == k then '\0' else old(buf[k])
        {
          assert argv[i] in Spans(t);
          buf[argv[i].eq] := '\0';
          i := i + 1;
        }
        EndsOfExec(t);
      case TRedir(d, file, kind) =>
        assert file in Spans(t);
        NulTerminate(buf, d);
        buf[file.eq] := '\0';
        EndsOfRedir(t);
      case TPipe(l, r) =>
        NulTerminate(buf, l);
        NulTerminate(buf, r);
        EndsOfPair(t, l, r);
      case TList(l, r) =>
        NulTerminate(buf, l);
        NulTerminate(buf, r);
        EndsOfPair(t, l, r);
      case TBack(d) =>
        NulTerminate(buf, d);
        assert Ends(t) == Ends(d);
    }
  }

  lemma EndsOfExec(t: Tree)
    requires t.TExec?
    ensures forall k :: k in Ends(t) <==> exists j :: 0 <= j < |t.argv| && t.argv[j].eq == k
  {
    forall k | k in Ends(t) ensures exists j :: 0 <= j < |t.argv| && t.argv[j].eq == k {
      var a :| a in Spans(t) && a.eq == k;
      var j :| 0 <= j < |t.argv| && t.argv[j] == a;
    }
    forall j | 0 <= j < |t.argv| ensures t.argv[j].eq in Ends(t) {
      assert t.argv[j] in Spans(t);
    }
  }

  lemma EndsOfRedir(t: Tree)
    requires t.TRedir?
    ensures Ends(t) == Ends(t.cmd) + {t.file.eq}
  {
    assert t.file in Spans(t);
    forall k | k in Ends(t.cmd) ensures k in Ends(t) {
      var a :| a in Spans(t.cmd) && a.eq == k;
      assert a in Spans(t);
    }
  }

  lemma EndsOfPair(t: Tree, l: Tree, r: Tree)
    requires t == TPipe(l, r) || t == TList(l, r)
    ensures Ends(t) == Ends(l) + Ends(r)
  {
    forall k | k in Ends(l) + Ends(r) ensures k in Ends(t) {
      if k in Ends(l) {
        var a :| a in Spans(l) && a.eq == k;
        assert a in Spans(t);
      } else {
        var a :| a in Spans(r) && a.eq == k;
        assert a in Spans(t);
      }
    }
  }

  // ---- the parser ----------------------------------------------------------------------------------------------

  /** The character that peek sees at the start of a symbol. */
  function Char(c: char): (r: char) {
    if c == '+' then '>' else c
  }

  class Parser {
    /** The line, without its terminating NUL, and the cursor *ps. */
    const text: string
    var s: nat

    ghost predicate Valid()
      reads this
    {
      s <= |text| && '\0' !in text
    }

    ghost function Toks(): (ts: seq<Tok>)
      reads this
    {
      if s <= |text| then Lex(text[s..]) else []
    }

    constructor (line: string)
      requires '\0' !in line
      ensures Valid() && text == line && s == 0 && Toks() == Lex(line)
    {
      text, s := line, 0;
      new;
      assert text[0..] == line;
    }

    /** The loop that skips white space. */
    method SkipWhite()
      requires Valid()
      modifies this
      ensures Valid() && s >= old(s) && Toks() == old(Toks()) && (s < |text| ==> !White(text[s]))
    {
      hide Lex;
      while s < |text| && White(text[s])
        invariant Valid() && s >= old(s) && Toks() == old(Toks())
      {
        LexWhite(text[s..]);
        assert text[s..][1..] == text[s + 1..];
        s := s + 1;
      }
    }

    /** gettoken; '\0' at the end of the line, 'a' for a word. */
    method GetToken() returns (tok: char, a: At)
      requires Valid()
      modifies this
      ensures Valid() && s >= old(s)
      ensures (tok == '\0' <==> old(Toks()) == []) && (old(Toks()) == [] ==> Toks() == [])
      ensures old(Toks()) != [] ==> s > old(s) && Toks() == old(Toks())[1..]
      ensures old(Toks()) != [] && old(Toks())[0].Sym? ==> tok == old(Toks())[0].c && tok != 'a'
      ensures old(Toks()) != [] && old(Toks())[0].Word? ==>
        tok == 'a' && IsWord(text, a) && Cut(text, a) == old(Toks())[0].w
    {
      hide Lex, Skip, First, IsWord, Cut, White;
      SkipWhite();
      LexEmpty();
      var q := s;
      if s == |text| {
        assert text[s..] == "";
        return '\0', At(q, q);
      }
      ghost var u := text[s..];
      LexToken(u);
      tok := Advance();
      a := At(q, s);
      assert u[First(u).1..] == text[s..];
      assert old(Toks())[1..] == Toks();
      SkipWhite();
    }

    /** The switch of gettoken: move past the token at the cursor. */
    method Advance() returns (tok: char)
      requires Valid() && s < |text| && !White(text[s])
      modifies this
      ensures Valid() && s == old(s) + First(text[old(s)..]).1 && tok != '\0'
      ensures First(text[old(s)..]).0.Sym? ==> tok == First(text[old(s)..]).0.c && tok != 'a'
      ensures First(text[old(s)..]).0.Word? ==>
        tok == 'a' && IsWord(text, At(old(s), s)) && Cut(text, At(old(s), s)) == First(text[old(s)..]).0.w
    {
      hide Lex, Skip, Span;
      ghost var u := text[s..];
      assert u[0] == text[s] && (s + 1 < |text| ==> u[1] == text[s + 1]);
      tok := text[s];
      if tok == '|' || tok == '(' || tok == ')' || tok == ';' || tok == '&' || tok == '<' {
        s := s + 1;
      } else if tok == '>' {
        s := s + 1;
        if s < |text| && text[s] == '>' {
          tok := '+';
          s := s + 1;
        }
      } else {
        tok := 'a';
        TakeWord();
        assert u[..Span(u)] == text[old(s)..s];
      }
    }

    /** The loop that runs to the end of a word. */
    method TakeWord()
      requires Valid() && s < |text| && WordChar(text[s])
      modifies this
      ensures Valid() && IsWord(text, At(old(s), s)) && s == old(s) + Span(text[old(s)..])
    {
      ghost var u := text[s..];
      while s < |text| && !White(text[s]) && !Symbol(text[s])
        invariant old(s) <= s <= |text| && forall i :: old(s) <= i < s ==> WordChar(text[i])
      {
        s := s + 1;
      }
      SpanIs(u, s - old(s));
    }

    /** peek(ps, es, toks), for toks made of symbols. */
    method Peek(toks: string) returns (r: bool)
      requires Valid() && forall i :: 0 <= i < |toks| ==> Symbol(toks[i])
      modifies this
      ensures Valid() && s >= old(s) && Toks() == old(Toks()) && (s < |text| ==> !White(text[s]))
      ensures r <==> Toks() != [] && Toks()[0].Sym? && Char(Toks()[0].c) in toks
    {
      hide Lex, Skip, First, White, Symbol;
      SkipWhite();
      LexEmpty();
      if s == |text| {
        assert text[s..] == "";
        return false;
      }
      LexToken(text[s..]);
      FirstChar(text[s..]);
      r := text[s] in toks;
    }

    /** parseredirs, as a list of the redirections found. */
    method Redirections(rs0: seq<(At, Kind)>) returns (ok: bool, rs: seq<(At, Kind)>)
      requires Valid() && RedirsOk(text, rs0)
      modifies this
      ensures Valid() && s >= old(s) && (ok <==> ParseRedirs(CutRedirs(text, rs0), old(Toks())).Redirs?)
      ensures ok ==>
        RedirsOk(text, rs) && ParseRedirs(CutRedirs(text, rs0), old(Toks())) == Redirs(CutRedirs(text, rs), Toks())
    {
      hide Lex, Skip, IsWord;
      rs := rs0;
      ghost var goal := ParseRedirs(CutRedirs(text, rs0), Toks());
      while true
        invariant Valid() && s >= old(s) && RedirsOk(text, rs) && goal == ParseRedirs(CutRedirs(text, rs), Toks())
        decreases |text| - s
      {
        ghost var ts := Toks();
        var more := Peek("<>");
        if !more {
          assert !IsRedir(ts);
          return true, rs;
        }
        ghost var s0 := s;
        var tok, skip := GetToken();
        var tok2, file := GetToken();
        if tok2 != 'a' {
          return false, [];
        }
        assert ts[1..][1..] == ts[2..] && ts[1..][0] == ts[1];
        rs := rs + [(file, KindOf(tok))];
        CutRedirsMore(text, rs0, rs, file, KindOf(tok));
      }
    }

    /** parseexec without a leading parenthesis. */
    method Simple() returns (r: Parsed)
      requires Valid() && !Is(Toks(), '(')
      modifies this
      ensures Valid() && s >= old(s) && Agrees(text, r, Toks(), ParseExec(old(Toks())))
    {
      hide Lex, IsWord, ParseArgs, ParseRedirs, Cut, RedirsOk;
      ghost var goal := ParseExec(Toks());
      NoCuts(text);
      var ok, rs := Redirections([]);
      if !ok {
        return Syntax;
      }
      var args: seq<At> := [];
      assert CutAll(text, args) == [];
      while true
        invariant Valid() && s >= old(s) && RedirsOk(text, rs) && WordsOk(text, args)
        invariant goal == ParseArgs(CutAll(text, args), CutRedirs(text, rs), Toks())
        decreases |text| - s
      {
        ghost var ts := Toks();
        var stop := Peek("|)&;");
        ArgsStep(CutAll(text, args), CutRedirs(text, rs), ts);
        if stop {
          Assemble(text, args, rs);
          return Done(WrapTree(TExec(args), rs));
        }
        var tok, a := GetToken();
        if tok == '\0' {
          NoNul(ts);
          Assemble(text, args, rs);
          return Done(WrapTree(TExec(args), rs));
        }
        if tok != 'a' {
          return Syntax;
        }
        CutAllMore(text, args, a);
        args := args + [a];
        if |args| >= MAXARGS {
          return Syntax;
        }
        ok, rs := Redirections(rs);
        if !ok {
          return Syntax;
        }
      }
    }

    /** parseblock. */
    method Block() returns (r: Parsed)
      requires Valid()
      modifies this
      ensures Valid() && s >= old(s) && Agrees(text, r, Toks(), ParseBlock(old(Toks())))
      decreases |text| - s, 0
    {
      hide Lex, IsWord, ParseLine, ParseRedirs, Cut, RedirsOk, Strip, WrapTree, Wrap, SpansOk;
      ghost var ts := Toks();
      var open := Peek("(");
      if !open {
        return Syntax;
      }
      var skip, a := GetToken();
      r := Line();
      if r.Syntax? {
        return;
      }
      var line := r.tree;
      var close := Peek(")");
      if !close {
        return Syntax;
      }
      skip, a := GetToken();
      NoCuts(text);
      var ok, rs := Redirections([]);
      if !ok {
        return Syntax;
      }
      StripWrap(text, line, rs);
      r := Done(WrapTree(line, rs));
    }

    /** parseexec. */
    method ExecCmd() returns (r: Parsed)
      requires Valid()
      modifies this
      ensures Valid() && s >= old(s) && Agrees(text, r, Toks(), ParseExec(old(Toks())))
      decreases |text| - s, 1
    {
      hide Lex, Strip, SpansOk, ParseBlock, ParseArgs, ParseRedirs;
      var open := Peek("(");
      if open {
        r := Block();
      } else {
        r := Simple();
      }
    }

    /** parsepipe. */
    method PipeCmd() returns (r: Parsed)
      requires Valid()
      modifies this
      ensures Valid() && s >= old(s) && Agrees(text, r, Toks(), ParsePipe(old(Toks())))
      decreases |text| - s, 2
    {
      hide Lex, IsWord, ParseExec;
      r := ExecCmd();
      if r.Syntax? {
        return;
      }
      var left := r.tree;
      var bar := Peek("|");
      if bar {
        var skip, a := GetToken();
        var right := PipeCmd();
        if right.Syntax? {
          return Syntax;
        }
        r := Done(TPipe(left, right.tree));
      }
    }

    /** The loop over & in parseline. */
    method Backs(t: Tree) returns (r: Tree)
      requires Valid() && SpansOk(text, t)
      modifies this
      ensures Valid() && s >= old(s) && SpansOk(text, r)
      ensures ParseBacks(Strip(text, t), old(Toks())) == Ok(Strip(text, r), Toks())
    {
      hide Lex, IsWord;
      r := t;
      while true
        invariant Valid() && s >= old(s) && SpansOk(text, r)
        invariant ParseBacks(Strip(text, t), old(Toks())) == ParseBacks(Strip(text, r), Toks())
        decreases |text| - s
      {
        var amp := Peek("&");
        if !amp {
          return;
        }
        var skip, a := GetToken();
        r := TBack(r);
      }
    }

    /** parseline. */
    method Line() returns (r: Parsed)
      requires Valid()
      modifies this
      ensures Valid() && s >= old(s) && Agrees(text, r, Toks(), ParseLine(old(Toks())))
      decreases |text| - s, 3
    {
      hide Lex, IsWord, ParsePipe, ParseBacks;
      r := PipeCmd();
      if r.Syntax? {
        return;
      }
      var left := Backs(r.tree);
      r := Done(left);
      var semi := Peek(";");
      if semi {
        var skip, a := GetToken();
        var right := Line();
        if right.Syntax? {
          return Syntax;
        }
        r := Done(TList(left, right.tree));
      }
    }

    /** parsecmd up to nulterminate: the whole line is one command. */
    method Command() returns (r: Parsed)
      requires Valid()
      modifies this
      ensures Valid() && Agrees(text, r, [], ParseCmd(old(Toks())))
    {
      hide Lex, ParseLine, Strip, SpansOk;
      r := Line();
      if r.Syntax? {
        return;
      }
      var none := Peek("");
      Leftovers(text, s);
      if s != |text| {
        return Syntax;
      }
    }
  }

  /** The method's answer is the grammar's. */
  ghost predicate Agrees(text: string, r: Parsed, ts: seq<Tok>, f: Res) {
    if r.Done? then f == Ok(Strip(text, r.tree), ts) && SpansOk(text, r.tree) else f.Panic?
  }

  ghost predicate WordsOk(text: string, ws: seq<At>) {
    forall i :: 0 <= i < |ws| ==> IsWord(text, ws[i])
  }

  lemma NoCuts(text: string)
    ensures CutRedirs(text, []) == [] && RedirsOk(text, [])
  {
  }

  /** One round of parseexec's loop, in the grammar. */
  lemma ArgsStep(args: seq<string>, rs: seq<(string, Kind)>, ts: seq<Tok>)
    ensures Stop(ts) ==> ParseArgs(args, rs, ts) == Ok(Wrap(Exec(args), rs), ts)
    ensures !Stop(ts) && (!ts[0].Word? || |args| + 1 >= MAXARGS) ==> ParseArgs(args, rs, ts).Panic?
    ensures !Stop(ts) && ts[0].Word? && |args| + 1 < MAXARGS ==>
              var p := ParseRedirs(rs, ts[1..]);
              ParseArgs(args, rs, ts) == if p.NoFile? then Panic else ParseArgs(args + [ts[0].w], p.rs, p.rest)
    ensures Stop(ts) <==> ts == [] || (ts[0].Sym? && Char(ts[0].c) in "|)&;")
  {
    hide ParseRedirs;
  }

  lemma Assemble(text: string, args: seq<At>, rs: seq<(At, Kind)>)
    requires WordsOk(text, args) && RedirsOk(text, rs)
    ensures Strip(text, WrapTree(TExec(args), rs)) == Wrap(Exec(CutAll(text, args)), CutRedirs(text, rs))
    ensures SpansOk(text, WrapTree(TExec(args), rs))
  {
    hide Cut, IsWord;
    assert SpansOk(text, TExec(args));
    StripWrap(text, TExec(args), rs);
  }

  lemma CutAllMore(text: string, args: seq<At>, a: At)
    ensures CutAll(text, args + [a]) == CutAll(text, args) + [Cut(text, a)]
  {
  }

  lemma NoNul(ts: seq<Tok>)
    ensures ts == [] ==> Stop(ts)
  {
  }

  lemma LexEmpty()
    ensures Lex("") == []
  {
  }

  /** Past the white space, the line is used up exactly when no tokens are left. */
  lemma Leftovers(text: string, s: nat)
    requires s <= |text| && (s < |text| ==> !White(text[s]))
    ensures s == |text| <==> Lex(text[s..]) == []
  {
    LexEmpty();
    if s < |text| {
      LexToken(text[s..]);
    } else {
      assert text[s..] == "";
    }
  }

  lemma FirstChar(u: string)
    requires u != "" && !White(u[0])
    ensures First(u).0.Sym? ==> Char(First(u).0.c) == u[0]
    ensures First(u).0.Word? ==> !Symbol(u[0])
  {
    hide Span, White;
  }

  lemma SpanIs(u: string, n: nat)
    requires n <= |u| && (forall i :: 0 <= i < n ==> WordChar(u[i])) && (n < |u| ==> !WordChar(u[n]))
    ensures Span(u) == n
  {
  }

  lemma CutRedirsMore(text: string, rs0: seq<(At, Kind)>, rs: seq<(At, Kind)>, a: At, k: Kind)
    requires rs != [] && rs[|rs| - 1] == (a, k)
    ensures CutRedirs(text, rs) == CutRedirs(text, rs[..|rs| - 1]) + [(Cut(text, a), k)]
  {
  }

  /** parsecmd(s) on the buffer that holds the line and its NUL: the tree of the grammar, and each of
      its words a NUL-terminated string in the buffer. */
  method ParseBuffer(buf: array<char>, line: string) returns (r: Parsed)
    requires buf.Length == |line| + 1 && buf[..|line|] == line && '\0' !in line
    modifies buf
    ensures Agrees(line, r, [], ParseCmd(Lex(line)))
    ensures r.Done? ==> forall a :: a in Spans(r.tree) ==>
      a.q < a.eq < buf.Length && buf[a.q..a.eq] == Cut(line, a) && buf[a.eq] == '\0'
  {
    hide Lex, ParseCmd, Strip;
    var p := new Parser(line);
    r := p.Command();
    if r.Done? {
      ghost var was := buf[..];
      assert forall a :: a in Spans(r.tree) ==> IsWord(line, a);
      NulTerminate(buf, r.tree);
      forall a | a in Spans(r.tree)
        ensures a.q < a.eq < buf.Length && buf[a.q..a.eq] == Cut(line, a) && buf[a.eq] == '\0'
      {
        assert IsWord(line, a) && a.eq in Ends(r.tree);
        forall i | a.q <= i < a.eq ensures buf[i] == line[i] {
          if i in Ends(r.tree) {
            EndsOutside(line, r.tree, a, i);
          }
          assert was[..|line|][i] == line[i];
        }
      }
    }
  }
}
