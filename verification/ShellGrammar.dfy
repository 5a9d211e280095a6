/** The shell accepts exactly the lines that can be written, and every line means one command. */
module ShellGrammar {
  import opened Common
  import opened ShellLexer
  import opened ShellParser
  import opened ShellPrinter

  /** The symbols among the tokens have their own text. */
  predicate Genuine(s: string, ts: seq<Tok>) {
    forall t :: t in ts && t.kind != 'a' ==> Text(s, t) == Sym(t.kind).text
  }

  lemma {:induction false} RestGenuine(s: CString, pos: nat)
    requires pos <= |s|
    ensures Genuine(s, Rest(s, pos))
    decreases |s| - pos
  {
    var p := Skip(s, pos);
    if p < |s| {
      var t := TokenAt(s, p);
      RestGenuine(s, t.eq);
      assert t.kind == '+' ==> s[p..p + 2] == ">>";
      assert !IsSymbol('a') && !IsSymbol('+');
    }
  }

  /** The first token as it is written. */
  lemma {:induction false} FirstLexeme(s: string, ts: seq<Tok>)
    requires Genuine(s, ts) && ts != []
    ensures Texts(s, ts) == [Lexeme(ts[0].kind, Text(s, ts[0]))] + Texts(s, ts[1..]) && Genuine(s, ts[1..])
    ensures ts[0].kind != 'a' ==> Texts(s, ts) == [Sym(ts[0].kind)] + Texts(s, ts[1..])
  {
    assert ts == [ts[0]] + ts[1..];
    TextsCons(s, ts[0], ts[1..]);
    assert ts[0] in ts;
  }

  lemma {:induction false} Glue<T>(t0: seq<T>, a: seq<T>, t1: seq<T>, x: T, t2: seq<T>, b: seq<T>, t3: seq<T>)
    requires t0 == a + t1 && t1 == [x] + t2 && t2 == b + t3
    ensures t0 == a + [x] + b + t3
  {
  }

  lemma {:induction false} GlueOne<T>(a: seq<T>, t1: seq<T>, x: T, t2: seq<T>)
    requires t1 == [x] + t2
    ensures a + t1 == a + [x] + t2
  {
  }

  lemma {:induction false} WrapMore(c: Cmd<string>, a: seq<Item>, b: seq<Item>)
    ensures Wrap(Wrap(c, a), b) == Wrap(c, a + b)
    decreases |b|
  {
    if b == [] {
      assert a + b == a;
    } else {
      var n := |b| - 1;
      WrapMore(c, a, b[..n]);
      assert (a + b)[..|a| + n] == a + b[..n];
    }
  }

  lemma {:induction false} WrapCons(c: Cmd<string>, r: Item, rs: seq<Item>)
    ensures Wrap(Opened(c, r), rs) == Wrap(c, [r] + rs)
  {
    hide Opened;
    WrapNone(c);
    WrapSnoc(c, [], r);
    assert [] + [r] == [r];
    WrapMore(c, [r], rs);
  }

  lemma {:induction false} LItemsCons(i: Item, items: seq<Item>)
    ensures LItems([i] + items) == LItem(i) + LItems(items)
  {
    assert ([i] + items)[1..] == items;
  }

  /** A redirection that is read. */
  lemma {:induction false} RedirAhead(s: string, cmd: Cmd<Tok>, ts: seq<Tok>) returns (i: Item, d: Cmd<Tok>)
    requires Genuine(s, ts) && Redirs(cmd, ts).Ok? && Ahead(ts, "<>+")
    ensures |ts| >= 2 && i.Into? && IsRedir(i.sym) && Redirs(cmd, ts) == Redirs(d, ts[2..])
    ensures Reading(s, d) == Opened(Reading(s, cmd), i)
    ensures Texts(s, ts) == LItem(i) + Texts(s, ts[2..]) && Genuine(s, ts[2..])
  {
    i := Into(ts[0].kind, Text(s, ts[1]));
    d := Redir(cmd, ts[1], Mode(i.sym), Fd(i.sym));
    OneRedir(s, cmd, i, ts);
    RedirLexemes(s, ts);
  }

  lemma {:induction false} RedirLexemes(s: string, ts: seq<Tok>)
    requires Genuine(s, ts) && |ts| >= 2 && ts[0].kind != 'a' && ts[1].kind == 'a'
    ensures Texts(s, ts) == LItem(Into(ts[0].kind, Text(s, ts[1]))) + Texts(s, ts[2..]) && Genuine(s, ts[2..])
  {
    hide Texts, Genuine;
    FirstLexeme(s, ts);
    FirstLexeme(s, ts[1..]);
    assert ts[1..][1..] == ts[2..] && ts[1..][0] == ts[1];
  }

  lemma {:induction false} NoRedirs(cmd: Cmd<Tok>, ts: seq<Tok>)
    requires !Ahead(ts, "<>+")
    ensures Redirs(cmd, ts) == Ok(cmd, ts)
  {
  }

  /** What parseredirs has read. */
  lemma {:induction false} UnRedirs(s: string, cmd: Cmd<Tok>, ts: seq<Tok>) returns (rs: seq<Item>)
    requires Genuine(s, ts) && Redirs(cmd, ts).Ok?
    ensures var r := Redirs(cmd, ts);
      && Redirects(rs) && Texts(s, ts) == LItems(rs) + Texts(s, r.rest) && Genuine(s, r.rest)
      && Reading(s, r.cmd) == Wrap(Reading(s, cmd), rs)
    decreases |ts|
  {
    hide Genuine, Redirs, Texts, Reading, Wrap, Opened, LItems, LItem, Ahead;
    if Ahead(ts, "<>+") {
      var i, d := RedirAhead(s, cmd, ts);
      var more := UnRedirs(s, d, ts[2..]);
      rs := [i] + more;
      WrapCons(Reading(s, cmd), i, more);
      LItemsCons(i, more);
    } else {
      rs := [];
      NoRedirs(cmd, ts);
      NoLexemes();
      WrapNone(Reading(s, cmd));
    }
  }

  // ---------- words ----------

  lemma {:induction false} ArgAhead(s: string, cmd: Cmd<Tok>, argc: nat, ts: seq<Tok>)
    requires Genuine(s, ts) && Args(cmd, argc, ts).Ok? && ts != [] && !Ahead(ts, "|)&;")
    ensures ts[0].kind == 'a' && argc + 1 < MAXARGS && Redirs(AddArg(cmd, ts[0]), ts[1..]).Ok?
    ensures var r := Redirs(AddArg(cmd, ts[0]), ts[1..]); Args(cmd, argc, ts) == Args(r.cmd, argc + 1, r.rest)
    ensures Texts(s, ts) == LItem(Arg(Text(s, ts[0]))) + Texts(s, ts[1..]) && Genuine(s, ts[1..])
  {
    FirstLexeme(s, ts);
  }

  lemma {:induction false} ArgsStop(cmd: Cmd<Tok>, argc: nat, ts: seq<Tok>)
    requires ts == [] || Ahead(ts, "|)&;")
    ensures Args(cmd, argc, ts) == Ok(cmd, ts)
  {
  }

  lemma {:induction false} LexemesConcat(a: seq<Item>, b: seq<Item>)
    ensures LItems(a + b) == LItems(a) + LItems(b)
    decreases |a|
  {
    if a == [] {
      assert a + b == b;
    } else {
      assert (a + b)[1..] == a[1..] + b;
      LexemesConcat(a[1..], b);
      assert LItem(a[0]) + (LItems(a[1..]) + LItems(b)) == LItem(a[0]) + LItems(a[1..]) + LItems(b);
    }
  }

  lemma {:induction false} ArgsConcat(a: seq<Item>, b: seq<Item>)
    ensures ArgsOf(a + b) == ArgsOf(a) + ArgsOf(b)
    decreases |a|
  {
    if a == [] {
      assert a + b == b;
    } else {
      assert (a + b)[1..] == a[1..] + b;
      ArgsConcat(a[1..], b);
      var first := if a[0].Arg? then [a[0].text] else [];
      assert first + (ArgsOf(a[1..]) + ArgsOf(b)) == first + ArgsOf(a[1..]) + ArgsOf(b);
    }
  }

  lemma {:induction false} RedirsConcat(a: seq<Item>, b: seq<Item>)
    ensures RedirsOf(a + b) == RedirsOf(a) + RedirsOf(b)
    decreases |a|
  {
    if a == [] {
      assert a + b == b;
    } else {
      assert (a + b)[1..] == a[1..] + b;
      RedirsConcat(a[1..], b);
      var first := if a[0].Into? then [a[0]] else [];
      assert first + (RedirsOf(a[1..]) + RedirsOf(b)) == first + RedirsOf(a[1..]) + RedirsOf(b);
    }
  }

  lemma {:induction false} ItemsConcat(a: seq<Item>, b: seq<Item>)
    ensures LItems(a + b) == LItems(a) + LItems(b)
    ensures ArgsOf(a + b) == ArgsOf(a) + ArgsOf(b) && RedirsOf(a + b) == RedirsOf(a) + RedirsOf(b)
  {
    LexemesConcat(a, b);
    ArgsConcat(a, b);
    RedirsConcat(a, b);
  }

  lemma {:induction false} OneArg(w: string)
    ensures LItems([Arg(w)]) == LItem(Arg(w)) && ArgsOf([Arg(w)]) == [w] && RedirsOf([Arg(w)]) == []
  {
    assert [Arg(w)][1..] == [];
    NoLexemes();
    NoneOf();
  }

  lemma {:induction false} OnlyRedirs(rs: seq<Item>)
    requires Redirects(rs)
    ensures ArgsOf(rs) == [] && RedirsOf(rs) == rs && SymsOk(rs)
  {
    if rs != [] {
      OnlyRedirs(rs[1..]);
      assert rs == [rs[0]] + rs[1..];
    }
  }

  /** A word, redirections, and the items after them. */
  lemma {:induction false} ItemsFrom(w: string, rs: seq<Item>, items: seq<Item>)
    requires Redirects(rs) && SymsOk(items)
    ensures var all := [Arg(w)] + rs + items;
      && LItems(all) == LItem(Arg(w)) + LItems(rs) + LItems(items) && SymsOk(all)
      && ArgsOf(all) == [w] + ArgsOf(items) && RedirsOf(all) == rs + RedirsOf(items)
  {
    hide LItems, LItem, ArgsOf, RedirsOf;
    OnlyRedirs(rs);
    ItemsConcat([Arg(w)] + rs, items);
    ItemsConcat([Arg(w)], rs);
    OneArg(w);
  }

  /** What parseexec's loop has read. */
  lemma {:induction false} UnArgs(s: string, cmd: Cmd<Tok>, args: seq<string>, rs: seq<Item>, ts: seq<Tok>)
    returns (items: seq<Item>)
    requires Genuine(s, ts) && Args(cmd, |args|, ts).Ok? && Redirects(rs) && |args| < MAXARGS
    requires Reading(s, cmd) == Wrap(Exec(args), rs)
    ensures var r := Args(cmd, |args|, ts);
      && SymsOk(items) && |args| + |ArgsOf(items)| < MAXARGS
      && Texts(s, ts) == LItems(items) + Texts(s, r.rest) && Genuine(s, r.rest)
      && Reading(s, r.cmd) == Wrap(Exec(args + ArgsOf(items)), rs + RedirsOf(items))
    decreases |ts|
  {
    hide Genuine, Redirs, Args, Texts, Reading, Wrap, LItems, LItem, Ahead, ArgsOf, RedirsOf, Redirects, SymsOk;
    if ts == [] || Ahead(ts, "|)&;") {
      items := [];
      ArgsStop(cmd, |args|, ts);
      NoLexemes();
      NoneOf();
      EmptyOk();
      assert args + [] == args && rs + [] == rs;
    } else {
      var w := Text(s, ts[0]);
      ArgAhead(s, cmd, |args|, ts);
      AddArgReads(s, cmd, args, rs, ts[0]);
      var d := AddArg(cmd, ts[0]);
      var more := UnRedirs(s, d, ts[1..]);
      WrapMore(Exec(args + [w]), rs, more);
      BothRedirects(rs, more);
      var r := Redirs(d, ts[1..]);
      var rest := UnArgs(s, r.cmd, args + [w], rs + more, r.rest);
      items := [Arg(w)] + more + rest;
      ItemsFrom(w, more, rest);
      assert args + [w] + ArgsOf(rest) == args + ([w] + ArgsOf(rest));
      assert rs + more + RedirsOf(rest) == rs + (more + RedirsOf(rest));
    }
  }

  lemma {:induction false} EmptyOk()
    ensures SymsOk([]) && Redirects([])
  {
  }

  lemma {:induction false} BothRedirects(a: seq<Item>, b: seq<Item>)
    requires Redirects(a) && Redirects(b)
    ensures Redirects(a + b)
  {
  }

  // ---------- commands, pipes, lines ----------

  /** A line p for what the parser has read of ts. */
  ghost predicate Wrote(s: string, p: Src, lexemes: seq<Lexeme>, ts: seq<Tok>, r: Parse) {
    r.Ok? && WellFormed(p) && Texts(s, ts) == lexemes + Texts(s, r.rest) && Genuine(s, r.rest) &&
    Reading(s, r.cmd) == Meaning(p)
  }

  lemma {:induction false} UnSimple(s: string, ts: seq<Tok>) returns (p: Src)
    requires Genuine(s, ts) && ExecOrBlock(ts).Ok? && !Ahead(ts, "(")
    ensures p.Simple? && Wrote(s, p, LExec(p), ts, ExecOrBlock(ts))
  {
    hide Genuine, Redirs, Args, Texts, Wrap, LItems, Ahead, ArgsOf, RedirsOf, SymsOk;
    var r := Redirs(Exec([]), ts);
    var rs := UnRedirs(s, Exec([]), ts);
    var more := UnArgs(s, r.cmd, [], rs, r.rest);
    p := Simple(rs + more);
    OnlyRedirs(rs);
    ItemsConcat(rs, more);
    BothOk(rs, more);
    assert [] + ArgsOf(more) == ArgsOf(more);
  }

  lemma {:induction false} BothOk(a: seq<Item>, b: seq<Item>)
    requires SymsOk(a) && SymsOk(b)
    ensures SymsOk(a + b)
  {
  }

  lemma {:induction false} UnExec(s: string, ts: seq<Tok>) returns (p: Src)
    requires Genuine(s, ts) && ExecOrBlock(ts).Ok?
    ensures (p.Simple? || p.Group?) && Wrote(s, p, LExec(p), ts, ExecOrBlock(ts))
    decreases |ts|, 0
  {
    if Ahead(ts, "(") {
      p := UnBlock(s, ts);
    } else {
      p := UnSimple(s, ts);
    }
  }

  lemma {:induction false} UnBlock(s: string, ts: seq<Tok>) returns (p: Src)
    requires Genuine(s, ts) && ExecOrBlock(ts).Ok? && Ahead(ts, "(")
    ensures p.Group? && Wrote(s, p, LExec(p), ts, ExecOrBlock(ts))
    decreases |ts| - 1, 4
  {
    hide Genuine, Redirs, Texts, Wrap, LItems, Line, LLine, Reading;
    FirstLexeme(s, ts);
    var q := UnLine(s, ts[1..]);
    var r := Line(ts[1..]);
    FirstLexeme(s, r.rest);
    var rs := UnRedirs(s, r.cmd, r.rest[1..]);
    p := Group(q, rs);
  }

  lemma {:induction false} UnPipe(s: string, ts: seq<Tok>) returns (p: Src)
    requires Genuine(s, ts) && Piped(ts).Ok?
    ensures !p.Then? && !p.Amp? && Wrote(s, p, LPipe(p), ts, Piped(ts))
    decreases |ts|, 1
  {
    hide Genuine, Texts, ExecOrBlock, LExec, WellFormed, Meaning, Reading;
    var l := UnExec(s, ts);
    var r := ExecOrBlock(ts);
    if Ahead(r.rest, "|") {
      FirstLexeme(s, r.rest);
      var q := UnPipe(s, r.rest[1..]);
      var more := Piped(r.rest[1..]);
      p := Joined(l, q);
      Glue(Texts(s, ts), LExec(l), Texts(s, r.rest), Sym('|'), Texts(s, r.rest[1..]), LPipe(q), Texts(s, more.rest));
      JoinedMeans(s, l, q, r.cmd, more.cmd);
    } else {
      p := l;
    }
  }

  lemma {:induction false} JoinedMeans(s: string, l: Src, r: Src, c: Cmd<Tok>, d: Cmd<Tok>)
    requires WellFormed(l) && WellFormed(r) && Reading(s, c) == Meaning(l) && Reading(s, d) == Meaning(r)
    ensures WellFormed(Joined(l, r)) && Reading(s, Pipe(c, d)) == Meaning(Joined(l, r))
    ensures WellFormed(Then(l, r)) && Reading(s, List(c, d)) == Meaning(Then(l, r))
  {
  }

  lemma {:induction false} AmpMeans(s: string, p: Src, c: Cmd<Tok>)
    requires WellFormed(p) && Reading(s, c) == Meaning(p)
    ensures WellFormed(Amp(p)) && Reading(s, Back(c)) == Meaning(Amp(p)) && LBack(Amp(p)) == LBack(p) + [Sym('&')]
  {
  }

  lemma {:induction false} UnBacks(s: string, p: Src, cmd: Cmd<Tok>, ts: seq<Tok>) returns (q: Src)
    requires Genuine(s, ts) && WellFormed(p) && !p.Then? && Reading(s, cmd) == Meaning(p)
    ensures var r := Backs(cmd, ts);
      && !q.Then? && WellFormed(q) && Reading(s, r.cmd) == Meaning(q) && Genuine(s, r.rest)
      && LBack(p) + Texts(s, ts) == LBack(q) + Texts(s, r.rest)
    decreases |ts|
  {
    hide Genuine, Texts, LBack, WellFormed, Meaning, Reading;
    q := p;
    if Ahead(ts, "&") {
      FirstLexeme(s, ts);
      AmpMeans(s, p, cmd);
      GlueOne(LBack(p), Texts(s, ts), Sym('&'), Texts(s, ts[1..]));
      q := UnBacks(s, Amp(p), Back(cmd), ts[1..]);
    }
  }

  lemma {:induction false} UnLine(s: string, ts: seq<Tok>) returns (p: Src)
    requires Genuine(s, ts) && Line(ts).Ok?
    ensures Wrote(s, p, LLine(p), ts, Line(ts))
    decreases |ts|, 2
  {
    hide Genuine, Texts, Piped, Backs, LPipe, LBack, WellFormed, Meaning, Reading;
    var a := UnPipe(s, ts);
    var r := Piped(ts);
    PipeIsBack(a);
    p := UnBacks(s, a, r.cmd, r.rest);
    var b := Backs(r.cmd, r.rest);
    if Ahead(b.rest, ";") {
      FirstLexeme(s, b.rest);
      var q := UnLine(s, b.rest[1..]);
      var more := Line(b.rest[1..]);
      Glue(Texts(s, ts), LBack(p), Texts(s, b.rest), Sym(';'), Texts(s, b.rest[1..]), LLine(q), Texts(s, more.rest));
      JoinedMeans(s, p, q, b.cmd, more.cmd);
      p := Then(p, q);
    }
  }

  lemma {:induction false} PipeIsBack(p: Src)
    requires !p.Amp?
    ensures LBack(p) == LPipe(p)
  {
  }

  /** parsecmd accepts a line exactly when it is written in the grammar; and then the command is what
      it means, so that no text means two things. */
  lemma {:induction false} GrammarExactly(s: CString)
    ensures Command(s).Ok? <==> exists p :: WellFormed(p) && Scan(s, 0) == LLine(p)
    ensures forall p :: WellFormed(p) && Scan(s, 0) == LLine(p) ==>
      Command(s).Ok? && Reading(s, Command(s).cmd) == Meaning(p)
  {
    forall p | WellFormed(p) && Scan(s, 0) == LLine(p)
      ensures Command(s).Ok? && Reading(s, Command(s).cmd) == Meaning(p) {
      LineRead(s, p);
    }
    if Command(s).Ok? {
      RestGenuine(s, 0);
      var p := UnLine(s, Rest(s, 0));
      assert Texts(s, []) == [];
      assert WellFormed(p) && Scan(s, 0) == LLine(p);
    }
  }
}
