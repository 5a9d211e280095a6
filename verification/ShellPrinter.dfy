/** The shell's command lines as they are written, what they mean, and that the parser reads them so. */
module ShellPrinter {
  import opened ShellLexer
  import opened ShellParser

  // ---------- lines as written ----------

  /** A word, or a redirection: sym is '<', '>', or '+' for >>. */
  datatype Item = Arg(text: string) | Into(sym: char, file: string)

  /** A line as written: words and redirections in any order, a line in parentheses with redirections,
      a pipe, two commands with a semicolon, or one in the background. */
  datatype Src =
    | Simple(items: seq<Item>)
    | Group(body: Src, redirs: seq<Item>)
    | Joined(left: Src, right: Src)
    | Then(left: Src, right: Src)
    | Amp(src: Src)

  predicate IsRedir(c: char) { c == '<' || c == '>' || c == '+' }

  function Sym(c: char): Lexeme { Lexeme(c, if c == '+' then ">>" else [c]) }

  function LItem(i: Item): seq<Lexeme> {
    match i
    case Arg(text) => [Lexeme('a', text)]
    case Into(sym, file) => [Sym(sym), Lexeme('a', file)]
  }

  function LItems(items: seq<Item>): seq<Lexeme> {
    if items == [] then [] else LItem(items[0]) + LItems(items[1..])
  }

  /** Where a pipe's left side can stand: what is no simple command is put in parentheses. */
  function LExec(p: Src): seq<Lexeme>
    decreases p, 3
  {
    match p
    case Simple(items) => LItems(items)
    case Group(body, redirs) => [Sym('(')] + LLine(body) + [Sym(')')] + LItems(redirs)
    case _ => [Sym('(')] + LLine(p) + [Sym(')')]
  }

  function LPipe(p: Src): seq<Lexeme>
    decreases p, if p.Joined? then 0 else 4
  {
    match p
    case Joined(l, r) => LExec(l) + [Sym('|')] + LPipe(r)
    case _ => LExec(p)
  }

  function LBack(p: Src): seq<Lexeme>
    decreases p, if p.Amp? || p.Joined? then 1 else 5
  {
    match p
    case Amp(q) => LBack(q) + [Sym('&')]
    case _ => LPipe(p)
  }

  function LLine(p: Src): seq<Lexeme>
    decreases p, if p.Then? || p.Amp? || p.Joined? then 2 else 6
  {
    match p
    case Then(l, r) => LBack(l) + [Sym(';')] + LLine(r)
    case _ => LBack(p)
  }

  // ---------- what they mean ----------

  function ArgsOf(items: seq<Item>): seq<string> {
    if items == [] then [] else (if items[0].Arg? then [items[0].text] else []) + ArgsOf(items[1..])
  }

  function RedirsOf(items: seq<Item>): seq<Item> {
    if items == [] then [] else (if items[0].Into? then [items[0]] else []) + RedirsOf(items[1..])
  }

  /** The command with one redirection: < opens the file as standard input, > and >> create it for
      standard output. */
  function Opened(c: Cmd<string>, r: Item): Cmd<string> {
    match r
    case Arg(_) => c
    case Into('<', file) => Redir(c, file, 0x000, 0)
    case Into(_, file) => Redir(c, file, 0x201, 1)
  }

  /** ... with several, the last one outermost. */
  function Wrap(c: Cmd<string>, rs: seq<Item>): Cmd<string> {
    if rs == [] then c else Opened(Wrap(c, rs[..|rs| - 1]), rs[|rs| - 1])
  }

  function Meaning(p: Src): Cmd<string> {
    match p
    case Simple(items) => Wrap(Exec(ArgsOf(items)), RedirsOf(items))
    case Group(body, redirs) => Wrap(Meaning(body), redirs)
    case Joined(l, r) => Pipe(Meaning(l), Meaning(r))
    case Then(l, r) => List(Meaning(l), Meaning(r))
    case Amp(q) => Back(Meaning(q))
  }

  predicate Redirects(items: seq<Item>) {
    forall i :: 0 <= i < |items| ==> items[i].Into? && IsRedir(items[i].sym)
  }

  predicate ItemsOk(items: seq<Item>) {
    |ArgsOf(items)| < MAXARGS && SymsOk(items)
  }

  /** At most nine arguments, and the redirections there are. */
  predicate WellFormed(p: Src) {
    match p
    case Simple(items) => ItemsOk(items)
    case Group(body, redirs) => WellFormed(body) && Redirects(redirs)
    case Joined(l, r) => WellFormed(l) && WellFormed(r)
    case Then(l, r) => WellFormed(l) && WellFormed(r)
    case Amp(q) => WellFormed(q)
  }

  function TextsOf(s: string, ws: seq<Tok>): seq<string> {
    if ws == [] then [] else [Text(s, ws[0])] + TextsOf(s, ws[1..])
  }

  /** A parsed command with its words as strings. */
  function Reading(s: string, c: Cmd<Tok>): Cmd<string> {
    match c
    case Exec(argv) => Exec(TextsOf(s, argv))
    case Redir(d, file, mode, fd) => Redir(Reading(s, d), Text(s, file), mode, fd)
    case Pipe(l, r) => Pipe(Reading(s, l), Reading(s, r))
    case List(l, r) => List(Reading(s, l), Reading(s, r))
    case Back(d) => Back(Reading(s, d))
  }

  // ---------- parsing what is written ----------

  lemma {:induction false} TextsSplit(s: string, ts: seq<Tok>, a: seq<Lexeme>, b: seq<Lexeme>)
    requires Texts(s, ts) == a + b
    ensures |a| <= |ts| && ts == ts[..|a|] + ts[|a|..] && Texts(s, ts[..|a|]) == a && Texts(s, ts[|a|..]) == b
  {
    var all, left, right := Texts(s, ts), Texts(s, ts[..|a|]), Texts(s, ts[|a|..]);
    assert forall i :: 0 <= i < |a| ==> left[i] == all[i];
    assert forall i :: 0 <= i < |b| ==> right[i] == all[|a| + i];
  }

  lemma {:induction false} TextsOne(s: string, t: Tok, l: Lexeme)
    requires Texts(s, [t]) == [l]
    ensures t.kind == l.kind && Text(s, t) == l.text
  {
    assert Texts(s, [t])[0] == Lexeme(t.kind, Text(s, t));
  }

  /** a, then one token, then b. */
  lemma {:induction false} TextsMiddle(s: string, ts: seq<Tok>, a: seq<Lexeme>, l: Lexeme, b: seq<Lexeme>)
    returns (x: seq<Tok>, m: Tok, y: seq<Tok>)
    requires Texts(s, ts) == a + [l] + b
    ensures ts == x + [m] + y && Texts(s, x) == a && m.kind == l.kind && Text(s, m) == l.text && Texts(s, y) == b
  {
    TextsSplit(s, ts, a + [l], b);
    var front := ts[..|a| + 1];
    y := ts[|a| + 1..];
    TextsSplit(s, front, a, [l]);
    x := front[..|a|];
    m := front[|a|];
    assert front[|a|..] == [m];
    TextsOne(s, m, l);
  }

  predicate Follows(ts: seq<Tok>, kinds: string) {
    ts == [] || ts[0].kind in kinds
  }

  /** The parse goes on with redirections after cmd, and then with words. */
  function After(cmd: Cmd<Tok>, argc: nat, ts: seq<Tok>): Parse {
    var r := Redirs(cmd, ts);
    if r.Panic? then Panic else Args(r.cmd, argc, r.rest)
  }

  lemma {:induction false} TextsSnoc(s: string, ws: seq<Tok>, w: Tok)
    ensures TextsOf(s, ws + [w]) == TextsOf(s, ws) + [Text(s, w)]
  {
    if ws == [] {
      assert ws + [w] == [w];
    } else {
      assert (ws + [w])[1..] == ws[1..] + [w];
      TextsSnoc(s, ws[1..], w);
    }
  }

  /** A word goes to the program, whatever redirections are around it. */
  lemma {:induction false} AddArgReads(s: string, cmd: Cmd<Tok>, args: seq<string>, rs: seq<Item>, w: Tok)
    requires Reading(s, cmd) == Wrap(Exec(args), rs) && Redirects(rs)
    ensures Reading(s, AddArg(cmd, w)) == Wrap(Exec(args + [Text(s, w)]), rs)
    decreases |rs|
  {
    if rs == [] {
      TextsSnoc(s, cmd.argv, w);
    } else {
      AddArgReads(s, cmd.cmd, args, rs[..|rs| - 1], w);
    }
  }

  /** A redirection symbol and a word, behind cmd. */
  lemma {:induction false} OneRedir(s: string, cmd: Cmd<Tok>, r: Item, ts: seq<Tok>)
    requires r.Into? && IsRedir(r.sym) && |ts| >= 2 && ts[0].kind == r.sym && ts[1].kind == 'a'
    requires Text(s, ts[1]) == r.file
    ensures var c := Redir(cmd, ts[1], Mode(r.sym), Fd(r.sym));
      Redirs(cmd, ts) == Redirs(c, ts[2..]) && Reading(s, c) == Opened(Reading(s, cmd), r)
  {
  }

  lemma {:induction false} FirstItem(s: string, ts: seq<Tok>, items: seq<Item>)
    requires items != [] && Texts(s, ts) == LItems(items)
    ensures items[0].Arg? ==>
      ts != [] && ts[0].kind == 'a' && Text(s, ts[0]) == items[0].text && Texts(s, ts[1..]) == LItems(items[1..])
    ensures items[0].Into? ==>
      && |ts| >= 2 && ts[0].kind == items[0].sym && ts[1].kind == 'a' && Text(s, ts[1]) == items[0].file
      && Texts(s, ts[2..]) == LItems(items[1..])
  {
    TextsSplit(s, ts, LItem(items[0]), LItems(items[1..]));
    assert Texts(s, ts)[0] == Lexeme(ts[0].kind, Text(s, ts[0]));
    assert Texts(s, ts)[0] == LItem(items[0])[0];
    if items[0].Into? {
      assert Texts(s, ts)[1] == Lexeme(ts[1].kind, Text(s, ts[1]));
      assert Texts(s, ts)[1] == LItem(items[0])[1];
    }
  }

  lemma {:induction false} ItemsCons(args: seq<string>, rs: seq<Item>, items: seq<Item>)
    requires items != []
    ensures items[0].Arg? ==> args + ArgsOf(items) == args + [items[0].text] + ArgsOf(items[1..])
    ensures items[0].Arg? ==> RedirsOf(items) == RedirsOf(items[1..])
    ensures items[0].Into? ==> rs + RedirsOf(items) == rs + [items[0]] + RedirsOf(items[1..])
    ensures items[0].Into? ==> ArgsOf(items) == ArgsOf(items[1..])
  {
  }

  lemma {:induction false} NoneOf()
    ensures ArgsOf([]) == [] && RedirsOf([]) == []
  {
  }

  lemma {:induction false} WrapSnoc(c: Cmd<string>, rs: seq<Item>, r: Item)
    ensures Wrap(c, rs + [r]) == Opened(Wrap(c, rs), r)
  {
    assert (rs + [r])[..|rs|] == rs;
  }

  /** One redirection, or one word, behind what has been read. */
  lemma {:induction false} AfterRedir(s: string, cmd: Cmd<Tok>, argc: nat, r: Item, ts: seq<Tok>)
    requires r.Into? && IsRedir(r.sym) && |ts| >= 2 && ts[0].kind == r.sym && ts[1].kind == 'a'
    requires Text(s, ts[1]) == r.file
    ensures var c := Redir(cmd, ts[1], Mode(r.sym), Fd(r.sym));
      After(cmd, argc, ts) == After(c, argc, ts[2..]) && Reading(s, c) == Opened(Reading(s, cmd), r)
  {
    hide Args, Redirs;
    OneRedir(s, cmd, r, ts);
  }

  lemma {:induction false} AfterArg(cmd: Cmd<Tok>, argc: nat, ts: seq<Tok>)
    requires ts != [] && ts[0].kind == 'a' && argc + 1 < MAXARGS
    ensures After(cmd, argc, ts) == After(AddArg(cmd, ts[0]), argc + 1, ts[1..])
  {
    assert Redirs(cmd, ts) == Ok(cmd, ts);
  }

  lemma {:induction false} AfterStops(cmd: Cmd<Tok>, argc: nat, ts: seq<Tok>)
    requires Follows(ts, "|)&;")
    ensures After(cmd, argc, ts) == Ok(cmd, ts) && Redirs(cmd, ts) == Ok(cmd, ts)
  {
  }

  predicate SymsOk(items: seq<Item>) {
    forall i :: 0 <= i < |items| && items[i].Into? ==> IsRedir(items[i].sym)
  }

  lemma {:induction false} RedirectsMore(rs: seq<Item>, r: Item)
    requires Redirects(rs) && r.Into? && IsRedir(r.sym)
    ensures Redirects(rs + [r])
  {
  }

  lemma {:induction false} SymsRest(items: seq<Item>)
    requires SymsOk(items) && items != []
    ensures SymsOk(items[1..]) && (items[0].Into? ==> IsRedir(items[0].sym))
  {
  }

  lemma {:induction false} NoItems(s: string, ts: seq<Tok>, rest: seq<Tok>)
    requires Texts(s, ts) == LItems([])
    ensures ts + rest == rest
  {
  }

  /** Words and redirections, in any order, behind what has been read. */
  lemma {:induction false} ItemsBack(s: string, cmd: Cmd<Tok>, args: seq<string>, rs: seq<Item>, items: seq<Item>,
                                     ts: seq<Tok>, rest: seq<Tok>) returns (c: Cmd<Tok>)
    requires Texts(s, ts) == LItems(items) && Reading(s, cmd) == Wrap(Exec(args), rs) && Redirects(rs)
    requires |args| + |ArgsOf(items)| < MAXARGS && Follows(rest, "|)&;") && SymsOk(items)
    ensures After(cmd, |args|, ts + rest) == Ok(c, rest)
    ensures Reading(s, c) == Wrap(Exec(args + ArgsOf(items)), rs + RedirsOf(items))
    decreases |items|
  {
    hide After, Wrap, Texts, LItems, Reading, Opened, Follows, SymsOk, Redirects, ArgsOf, RedirsOf;
    if items == [] {
      NoneOf();
      NoItems(s, ts, rest);
      AfterStops(cmd, |args|, rest);
      assert args + [] == args && rs + [] == rs;
      c := cmd;
    } else {
      var i, all := items[0], ts + rest;
      FirstItem(s, ts, items);
      ItemsCons(args, rs, items);
      SymsRest(items);
      if i.Into? {
        assert all[2..] == ts[2..] + rest;
        AfterRedir(s, cmd, |args|, i, all);
        WrapSnoc(Exec(args), rs, i);
        RedirectsMore(rs, i);
        c := ItemsBack(s, Redir(cmd, ts[1], Mode(i.sym), Fd(i.sym)), args, rs + [i], items[1..], ts[2..], rest);
      } else {
        assert all[1..] == ts[1..] + rest;
        AfterArg(cmd, |args|, all);
        AddArgReads(s, cmd, args, rs, ts[0]);
        c := ItemsBack(s, AddArg(cmd, ts[0]), args + [i.text], rs, items[1..], ts[1..], rest);
      }
    }
  }

  /** Redirections behind a parenthesis. */
  lemma {:induction false} RedirsBack(s: string, cmd: Cmd<Tok>, t: Cmd<string>, done: seq<Item>, items: seq<Item>,
                                      ts: seq<Tok>, rest: seq<Tok>) returns (c: Cmd<Tok>)
    requires Texts(s, ts) == LItems(items) && Reading(s, cmd) == Wrap(t, done) && Redirects(items)
    requires Follows(rest, "|)&;")
    ensures Redirs(cmd, ts + rest) == Ok(c, rest) && Reading(s, c) == Wrap(t, done + items)
    decreases |items|
  {
    hide Redirs, Wrap, Texts, LItems, Reading, Opened, Follows;
    if items == [] {
      NoItems(s, ts, rest);
      AfterStops(cmd, 0, rest);
      assert done + [] == done;
      c := cmd;
    } else {
      var i, all := items[0], ts + rest;
      FirstItem(s, ts, items);
      assert all[2..] == ts[2..] + rest;
      OneRedir(s, cmd, i, all);
      WrapSnoc(t, done, i);
      c := RedirsBack(s, Redir(cmd, ts[1], Mode(i.sym), Fd(i.sym)), t, done + [i], items[1..], ts[2..], rest);
      assert done + [i] + items[1..] == done + items;
    }
  }

  lemma {:induction false} NotOpen(s: string, items: seq<Item>, ts: seq<Tok>, rest: seq<Tok>)
    requires SymsOk(items) && Texts(s, ts) == LItems(items) && Follows(rest, "|)&;")
    ensures !Ahead(ts + rest, "(")
  {
    hide Texts, LItems;
    if items == [] {
      NoItems(s, ts, rest);
    } else {
      FirstItem(s, ts, items);
      assert (ts + rest)[0] == ts[0];
    }
  }

  lemma {:induction false} SimpleBack(s: string, items: seq<Item>, ts: seq<Tok>, rest: seq<Tok>) returns (c: Cmd<Tok>)
    requires ItemsOk(items) && Texts(s, ts) == LItems(items) && Follows(rest, "|)&;")
    ensures Reading(s, c) == Wrap(Exec(ArgsOf(items)), RedirsOf(items)) && ExecOrBlock(ts + rest) == Ok(c, rest)
  {
    hide Texts, LItems, SymsOk, Redirs, Args, Follows, Ahead, ArgsOf, RedirsOf;
    c := ItemsBack(s, Exec([]), [], [], items, ts, rest);
    assert [] + ArgsOf(items) == ArgsOf(items) && [] + RedirsOf(items) == RedirsOf(items);
    NotOpen(s, items, ts, rest);
  }

  lemma {:induction false} ExecBack(s: string, p: Src, ts: seq<Tok>, rest: seq<Tok>) returns (c: Cmd<Tok>)
    requires WellFormed(p) && Texts(s, ts) == LExec(p) && Follows(rest, "|)&;")
    ensures Reading(s, c) == Meaning(p) && ExecOrBlock(ts + rest) == Ok(c, rest)
    decreases p, 3
  {
    hide Texts, LItems, Wrap, ExecOrBlock, Follows;
    match p
    case Simple(items) => c := SimpleBack(s, items, ts, rest);
    case Group(body, redirs) => c := BlockBack(s, body, redirs, ts, rest);
    case _ =>
      NoLexemes();
      WrapNone(Meaning(p));
      assert [Sym('(')] + LLine(p) + [Sym(')')] + LItems([]) == LExec(p);
      c := BlockBack(s, p, [], ts, rest);
  }

  lemma {:induction false} BlockStep(open: Tok, mid: seq<Tok>, d: Cmd<Tok>, close: Tok, rest: seq<Tok>)
    requires open.kind == '(' && close.kind == ')' && Line(mid) == Ok(d, [close] + rest)
    ensures ExecOrBlock([open] + mid) == Redirs(d, rest)
  {
    assert ([open] + mid)[1..] == mid && ([close] + rest)[1..] == rest;
  }

  lemma {:induction false} WrapNone(c: Cmd<string>)
    ensures Wrap(c, []) == c
  {
  }

  lemma {:induction false} BlockBack(s: string, p: Src, redirs: seq<Item>, ts: seq<Tok>, rest: seq<Tok>)
    returns (c: Cmd<Tok>)
    requires WellFormed(p) && Redirects(redirs) && Follows(rest, "|)&;")
    requires Texts(s, ts) == [Sym('(')] + LLine(p) + [Sym(')')] + LItems(redirs)
    ensures Reading(s, c) == Wrap(Meaning(p), redirs) && ExecOrBlock(ts + rest) == Ok(c, rest)
    decreases p, if p.Then? || p.Amp? || p.Joined? then 2 else 6, 1
  {
    hide Texts, Redirs, Wrap, LLine, LItems, Reading, Line, ExecOrBlock, WellFormed, Redirects, Meaning;
    var tail := LLine(p) + [Sym(')')] + LItems(redirs);
    assert Texts(s, ts) == [] + [Sym('(')] + tail;
    var none, open, y := TextsMiddle(s, ts, [], Sym('('), tail);
    var x, close, z := TextsMiddle(s, y, LLine(p), Sym(')'), LItems(redirs));
    var d := LineBack(s, p, x, [close] + (z + rest));
    BlockStep(open, x + ([close] + (z + rest)), d, close, z + rest);
    NothingBefore(s, none);
    assert ts + rest == [open] + (x + ([close] + (z + rest)));
    WrapNone(Meaning(p));
    c := RedirsBack(s, d, Meaning(p), [], redirs, z, rest);
    assert [] + redirs == redirs;
  }

  lemma {:induction false} NoLexemes()
    ensures LItems([]) == []
  {
  }

  lemma {:induction false} NothingBefore(s: string, ts: seq<Tok>)
    requires Texts(s, ts) == []
    ensures ts == []
  {
  }

  lemma {:induction false} PipeBack(s: string, p: Src, ts: seq<Tok>, rest: seq<Tok>) returns (c: Cmd<Tok>)
    requires WellFormed(p) && Texts(s, ts) == LPipe(p) && Follows(rest, ")&;")
    ensures Reading(s, c) == Meaning(p) && Piped(ts + rest) == Ok(c, rest)
    decreases p, if p.Joined? then 0 else 4
  {
    hide Texts, ExecOrBlock;
    if p.Joined? {
      var x, bar, y := TextsMiddle(s, ts, LExec(p.left), Sym('|'), LPipe(p.right));
      var more := [bar] + (y + rest);
      assert ts + rest == x + more && more[1..] == y + rest;
      var l := ExecBack(s, p.left, x, more);
      var r := PipeBack(s, p.right, y, rest);
      c := Pipe(l, r);
    } else {
      c := ExecBack(s, p, ts, rest);
    }
  }

  lemma {:induction false} BackBack(s: string, p: Src, ts: seq<Tok>, rest: seq<Tok>) returns (c: Cmd<Tok>)
    requires WellFormed(p) && Texts(s, ts) == LBack(p) && Follows(rest, ")&;")
    ensures Reading(s, c) == Meaning(p) && Piped(ts + rest).Ok?
    ensures Backs(Piped(ts + rest).cmd, Piped(ts + rest).rest) == Backs(c, rest)
    decreases p, if p.Amp? || p.Joined? then 1 else 5
  {
    if p.Amp? {
      assert LBack(p) == LBack(p.src) + [Sym('&')] + [];
      var x, amp, nothing := TextsMiddle(s, ts, LBack(p.src), Sym('&'), []);
      assert ts + rest == x + ([amp] + rest) && ([amp] + rest)[1..] == rest;
      var d := BackBack(s, p.src, x, [amp] + rest);
      c := Back(d);
    } else {
      c := PipeBack(s, p, ts, rest);
    }
  }

  lemma {:induction false} LineBack(s: string, p: Src, ts: seq<Tok>, rest: seq<Tok>) returns (c: Cmd<Tok>)
    requires WellFormed(p) && Texts(s, ts) == LLine(p) && Follows(rest, ")")
    ensures Reading(s, c) == Meaning(p) && Line(ts + rest) == Ok(c, rest)
    decreases p, if p.Then? || p.Amp? || p.Joined? then 2 else 6, 0
  {
    if p.Then? {
      var x, semi, y := TextsMiddle(s, ts, LBack(p.left), Sym(';'), LLine(p.right));
      var more := [semi] + (y + rest);
      assert ts + rest == x + more && more[1..] == y + rest;
      var l := BackBack(s, p.left, x, more);
      var r := LineBack(s, p.right, y, rest);
      c := List(l, r);
    } else {
      c := BackBack(s, p, ts, rest);
    }
  }

  /** Text whose tokens are those of a line is read as that line, however it is spaced. */
  lemma {:induction false} LineRead(s: string, p: Src)
    requires WellFormed(p) && Scan(s, 0) == LLine(p)
    ensures Command(s).Ok? && Reading(s, Command(s).cmd) == Meaning(p)
  {
    var c := LineBack(s, p, Rest(s, 0), []);
    assert Rest(s, 0) + [] == Rest(s, 0);
  }

  // ---------- printing ----------

  predicate LegalItem(i: Item) {
    LegalWord(if i.Arg? then i.text else i.file)
  }

  predicate LegalItems(items: seq<Item>) {
    forall i :: 0 <= i < |items| ==> LegalItem(items[i])
  }

  /** All its words are legal. */
  predicate LegalSrc(p: Src) {
    match p
    case Simple(items) => LegalItems(items)
    case Group(body, redirs) => LegalSrc(body) && LegalItems(redirs)
    case Joined(l, r) => LegalSrc(l) && LegalSrc(r)
    case Then(l, r) => LegalSrc(l) && LegalSrc(r)
    case Amp(q) => LegalSrc(q)
  }

  lemma {:induction false} ItemsLegal(items: seq<Item>)
    requires LegalItems(items) && SymsOk(items)
    ensures AllLegal(LItems(items))
  {
    if items != [] { ItemsLegal(items[1..]); }
  }

  lemma {:induction false} ExecLegal(p: Src)
    requires WellFormed(p) && LegalSrc(p)
    ensures AllLegal(LExec(p))
    decreases p, 3
  {
    match p
    case Simple(items) => ItemsLegal(items);
    case Group(body, redirs) => LineLegal(body); ItemsLegal(redirs);
    case _ => LineLegal(p);
  }

  lemma {:induction false} PipeLegal(p: Src)
    requires WellFormed(p) && LegalSrc(p)
    ensures AllLegal(LPipe(p))
    decreases p, if p.Joined? then 0 else 4
  {
    match p
    case Joined(l, r) => ExecLegal(l); PipeLegal(r);
    case _ => ExecLegal(p);
  }

  lemma {:induction false} BackLegal(p: Src)
    requires WellFormed(p) && LegalSrc(p)
    ensures AllLegal(LBack(p))
    decreases p, if p.Amp? || p.Joined? then 1 else 5
  {
    match p
    case Amp(q) => BackLegal(q);
    case _ => PipeLegal(p);
  }

  lemma {:induction false} LineLegal(p: Src)
    requires WellFormed(p) && LegalSrc(p)
    ensures AllLegal(LLine(p))
    decreases p, if p.Then? || p.Amp? || p.Joined? then 2 else 6
  {
    match p
    case Then(l, r) => BackLegal(l); LineLegal(r);
    case _ => BackLegal(p);
  }

  lemma {:induction false} RenderNoNul(ls: seq<Lexeme>)
    requires AllLegal(ls)
    ensures '\0' !in Render(ls)
  {
    if ls != [] {
      assert ls[0] in ls && LegalLexeme(ls[0]);
      RenderNoNul(ls[1..]);
    }
  }

  /** Printing a line, with every token followed by a space, and parsing it gives its meaning. */
  lemma {:induction false} RoundTrip(p: Src)
    requires WellFormed(p) && LegalSrc(p)
    ensures var s := Render(LLine(p));
      '\0' !in s && Command(s).Ok? && Reading(s, Command(s).cmd) == Meaning(p)
  {
    var s := Render(LLine(p));
    LineLegal(p);
    RenderNoNul(LLine(p));
    assert s[0..] == s;
    RenderedFrom(s, 0, LLine(p));
    RestRender(s, 0, LLine(p));
    LineRead(s, p);
  }

  /** A command with legal words, at most nine arguments, and the redirections there are. */
  predicate Legal(t: Cmd<string>) {
    match t
    case Exec(argv) => |argv| < MAXARGS && forall w :: w in argv ==> LegalWord(w)
    case Redir(c, file, mode, fd) => Legal(c) && LegalWord(file) &&
      ((mode == O_RDONLY && fd == 0) || (mode == O_WRONLY + O_CREATE && fd == 1))
    case Pipe(l, r) => Legal(l) && Legal(r)
    case List(l, r) => Legal(l) && Legal(r)
    case Back(c) => Legal(c)
  }

  function Arguments(argv: seq<string>): (items: seq<Item>)
    ensures |items| == |argv|
  {
    seq(|argv|, i requires 0 <= i < |argv| => Arg(argv[i]))
  }

  /** The line with one more redirection behind it. */
  function Redirected(p: Src, r: Item): Src {
    match p
    case Simple(items) => Simple(items + [r])
    case Group(body, redirs) => Group(body, redirs + [r])
    case _ => Group(p, [r])
  }

  /** A way to write a command. */
  function Written(t: Cmd<string>): Src {
    match t
    case Exec(argv) => Simple(Arguments(argv))
    case Redir(c, file, mode, fd) => Redirected(Written(c), Into(if fd == 0 then '<' else '>', file))
    case Pipe(l, r) => Joined(Written(l), Written(r))
    case List(l, r) => Then(Written(l), Written(r))
    case Back(c) => Amp(Written(c))
  }

  lemma {:induction false} ArgumentsAre(argv: seq<string>)
    ensures ArgsOf(Arguments(argv)) == argv && RedirsOf(Arguments(argv)) == []
  {
    if argv != [] {
      assert Arguments(argv)[1..] == Arguments(argv[1..]);
      ArgumentsAre(argv[1..]);
    }
  }

  lemma {:induction false} OneMore(items: seq<Item>, r: Item)
    requires r.Into?
    ensures ArgsOf(items + [r]) == ArgsOf(items) && RedirsOf(items + [r]) == RedirsOf(items) + [r]
  {
    if items == [] {
      assert items + [r] == [r];
    } else {
      assert (items + [r])[1..] == items[1..] + [r];
      OneMore(items[1..], r);
    }
  }

  lemma {:induction false} RedirectedMeans(p: Src, r: Item)
    requires WellFormed(p) && LegalSrc(p) && r.Into? && IsRedir(r.sym) && LegalWord(r.file)
    ensures var q := Redirected(p, r); WellFormed(q) && LegalSrc(q) && Meaning(q) == Opened(Meaning(p), r)
  {
    hide ArgsOf, RedirsOf, Wrap, LegalWord, Opened;
    match p
    case Simple(items) =>
      OneMore(items, r);
      WrapSnoc(Exec(ArgsOf(items)), RedirsOf(items), r);
    case Group(body, redirs) => WrapSnoc(Meaning(body), redirs, r);
    case _ =>
      WrapNone(Meaning(p));
      WrapSnoc(Meaning(p), [], r);
      assert [] + [r] == [r];
  }

  /** Every legal command can be written. */
  lemma {:induction false} WrittenMeans(t: Cmd<string>)
    requires Legal(t)
    ensures WellFormed(Written(t)) && LegalSrc(Written(t)) && Meaning(Written(t)) == t
  {
    match t
    case Exec(argv) => ArgumentsAre(argv);
    case Redir(c, file, mode, fd) =>
      WrittenMeans(c);
      RedirectedMeans(Written(c), Into(if fd == 0 then '<' else '>', file));
    case Pipe(l, r) => WrittenMeans(l); WrittenMeans(r);
    case List(l, r) => WrittenMeans(l); WrittenMeans(r);
    case Back(c) => WrittenMeans(c);
  }

  function Print(t: Cmd<string>): string { Render(LLine(Written(t))) }
}
