/** The shell's recursive-descent parser (sh.c).  The functions say what the grammar makes of a row
    of tokens; the methods are the source's parse functions, which advance a cursor over the
    characters, and are proved to do what the functions say. */
module ShellParser {
  import opened Common
  import opened ShellLexer

  const MAXARGS := 10
  const O_RDONLY := 0x000
  const O_WRONLY := 0x001
  const O_CREATE := 0x200

  /** A command, with words of type W: positions in the input, or strings. */
  datatype Cmd<W> =
    | Exec(argv: seq<W>)
    | Redir(cmd: Cmd<W>, file: W, mode: nat, fd: nat)
    | Pipe(left: Cmd<W>, right: Cmd<W>)
    | List(left: Cmd<W>, right: Cmd<W>)
    | Back(cmd: Cmd<W>)

  /** A command and the tokens after it, or a panic. */
  datatype Parse = Ok(cmd: Cmd<Tok>, rest: seq<Tok>) | Panic

  // ---------- the grammar ----------

  function Mode(kind: char): nat { if kind == '<' then O_RDONLY else O_WRONLY + O_CREATE }

  function Fd(kind: char): nat { if kind == '<' then 0 else 1 }

  /** < file and > file, any number of times; >> means the same as >. */
  function Redirs(cmd: Cmd<Tok>, ts: seq<Tok>): (r: Parse)
    ensures r.Ok? ==> |r.rest| <= |ts|
    decreases |ts|
  {
    if !Ahead(ts, "<>+") then Ok(cmd, ts)
    else if |ts| < 2 || ts[1].kind != 'a' then Panic
    else Redirs(Redir(cmd, ts[1], Mode(ts[0].kind), Fd(ts[0].kind)), ts[2..])
  }

  /** One more argument for the command inside the redirections. */
  function AddArg(cmd: Cmd<Tok>, w: Tok): Cmd<Tok> {
    match cmd
    case Exec(argv) => Exec(argv + [w])
    case Redir(c, file, mode, fd) => Redir(AddArg(c, w), file, mode, fd)
    case _ => cmd
  }

  /** Words, each followed by redirections, up to a symbol that ends the command. */
  function Args(cmd: Cmd<Tok>, argc: nat, ts: seq<Tok>): (r: Parse)
    ensures r.Ok? ==> |r.rest| <= |ts|
    decreases |ts|
  {
    if Ahead(ts, "|)&;") || ts == [] then Ok(cmd, ts)
    else if ts[0].kind != 'a' || argc + 1 >= MAXARGS then Panic
    else
      var r := Redirs(AddArg(cmd, ts[0]), ts[1..]);
      if r.Panic? then Panic else Args(r.cmd, argc + 1, r.rest)
  }

  function ExecOrBlock(ts: seq<Tok>): (r: Parse)
    ensures r.Ok? ==> |r.rest| <= |ts|
    decreases |ts|, 0
  {
    if Ahead(ts, "(") then Block(ts)
    else
      var r := Redirs(Exec([]), ts);
      if r.Panic? then Panic else Args(r.cmd, 0, r.rest)
  }

  function Block(ts: seq<Tok>): (r: Parse)
    requires ts != []
    ensures r.Ok? ==> |r.rest| < |ts|
    decreases |ts| - 1, 4
  {
    var r := Line(ts[1..]);
    if r.Ok? && Ahead(r.rest, ")") then Redirs(r.cmd, r.rest[1..]) else Panic
  }

  function Piped(ts: seq<Tok>): (r: Parse)
    ensures r.Ok? ==> |r.rest| <= |ts|
    decreases |ts|, 1
  {
    var r := ExecOrBlock(ts);
    if r.Ok? && Ahead(r.rest, "|") then
      var more := Piped(r.rest[1..]);
      if more.Panic? then Panic else Ok(Pipe(r.cmd, more.cmd), more.rest)
    else r
  }

  function Backs(cmd: Cmd<Tok>, ts: seq<Tok>): (r: Parse)
    ensures r.Ok? && |r.rest| <= |ts|
    decreases |ts|
  {
    if Ahead(ts, "&") then Backs(Back(cmd), ts[1..]) else Ok(cmd, ts)
  }

  function Line(ts: seq<Tok>): (r: Parse)
    ensures r.Ok? ==> |r.rest| <= |ts|
    decreases |ts|, 2
  {
    var r := Piped(ts);
    if r.Panic? then Panic
    else
      var b := Backs(r.cmd, r.rest);
      if Ahead(b.rest, ";") then
        var more := Line(b.rest[1..]);
        if more.Panic? then Panic else Ok(List(b.cmd, more.cmd), more.rest)
      else b
  }

  /** What the whole input means. */
  function Command(s: string): Parse {
    var r := Line(Rest(s, 0));
    if r.Ok? && r.rest == [] then r else Panic
  }

  // ---------- the parse functions of the source ----------

  /** What a parse function must return for the tokens from pos on. */
  predicate Agrees(s: string, spec: Parse, ok: bool, cmd: Cmd<Tok>, pos: nat, p: nat) {
    if spec.Panic? then !ok else ok && pos <= p <= |s| && cmd == spec.cmd && Rest(s, p) == spec.rest
  }

  /** parseredirs() */
  method ParseRedirs(start: Cmd<Tok>, s: CString, pos: nat) returns (cmd: Cmd<Tok>, p: nat, ok: bool)
    requires pos <= |s|
    ensures Agrees(s, Redirs(start, Rest(s, pos)), ok, cmd, pos, p)
  {
    cmd, p, ok := start, pos, true;
    var more;
    p, more := Peek(s, p, "<>");
    while more
      invariant pos <= p <= |s| && more == Ahead(Rest(s, p), "<>+")
      invariant Redirs(start, Rest(s, pos)) == Redirs(cmd, Rest(s, p))
      decreases |s| - p
    {
      ghost var ts := Rest(s, p);
      var kind, q0, eq0, p1 := GetToken(s, p);
      var file, q, eq, p2 := GetToken(s, p1);
      if file != 'a' {
        return cmd, p, false;
      }
      assert ts[1] == Tok('a', q, eq) && ts[2..] == Rest(s, p2);
      cmd := Redir(cmd, Tok('a', q, eq), Mode(kind), Fd(kind));
      p := p2;
      p, more := Peek(s, p, "<>");
    }
  }

  /** parseexec() */
  method ParseExec(s: CString, pos: nat) returns (cmd: Cmd<Tok>, p: nat, ok: bool)
    requires pos <= |s|
    ensures Agrees(s, ExecOrBlock(Rest(s, pos)), ok, cmd, pos, p)
    decreases |s| - pos, 1
  {
    var block;
    p, block := Peek(s, pos, "(");
    if block {
      cmd, p, ok := ParseBlock(s, p);
      return;
    }
    var argc := 0;
    cmd, p, ok := ParseRedirs(Exec([]), s, p);
    if !ok {
      return;
    }
    var stop;
    p, stop := Peek(s, p, "|)&;");
    while !stop
      invariant pos <= p <= |s| && stop == Ahead(Rest(s, p), "|)&;")
      invariant ok && ExecOrBlock(Rest(s, pos)) == Args(cmd, argc, Rest(s, p))
      decreases |s| - p
    {
      var kind, q, eq, p1 := GetToken(s, p);
      if kind == '\0' {
        p := p1;
        break;
      }
      if kind != 'a' {
        return cmd, p, false;
      }
      argc := argc + 1;
      if argc >= MAXARGS {
        return cmd, p, false;
      }
      cmd, p, ok := ParseRedirs(AddArg(cmd, Tok('a', q, eq)), s, p1);
      if !ok {
        return;
      }
      p, stop := Peek(s, p, "|)&;");
    }
  }

  /** parseblock(), at an open parenthesis. */
  method ParseBlock(s: CString, pos: nat) returns (cmd: Cmd<Tok>, p: nat, ok: bool)
    requires pos <= |s| && Ahead(Rest(s, pos), "(")
    ensures Agrees(s, Block(Rest(s, pos)), ok, cmd, pos, p)
    decreases |s| - pos, 0
  {
    var kind, q, eq, p1 := GetToken(s, pos);
    cmd, p, ok := ParseLine(s, p1);
    if !ok {
      return;
    }
    var close;
    p, close := Peek(s, p, ")");
    if !close {
      return cmd, p, false;
    }
    var kind2, q2, eq2, p2 := GetToken(s, p);
    cmd, p, ok := ParseRedirs(cmd, s, p2);
  }

  /** parsepipe() */
  method ParsePipe(s: CString, pos: nat) returns (cmd: Cmd<Tok>, p: nat, ok: bool)
    requires pos <= |s|
    ensures Agrees(s, Piped(Rest(s, pos)), ok, cmd, pos, p)
    decreases |s| - pos, 2
  {
    cmd, p, ok := ParseExec(s, pos);
    if !ok {
      return;
    }
    var bar;
    p, bar := Peek(s, p, "|");
    if bar {
      var kind, q, eq, p1 := GetToken(s, p);
      var right;
      right, p, ok := ParsePipe(s, p1);
      cmd := Pipe(cmd, right);
    }
  }

  /** parseline() */
  method ParseLine(s: CString, pos: nat) returns (cmd: Cmd<Tok>, p: nat, ok: bool)
    requires pos <= |s|
    ensures Agrees(s, Line(Rest(s, pos)), ok, cmd, pos, p)
    decreases |s| - pos, 3
  {
    cmd, p, ok := ParsePipe(s, pos);
    if !ok {
      return;
    }
    ghost var piped := Piped(Rest(s, pos));
    var amp;
    p, amp := Peek(s, p, "&");
    while amp
      invariant pos <= p <= |s| && amp == Ahead(Rest(s, p), "&")
      invariant Backs(piped.cmd, piped.rest) == Backs(cmd, Rest(s, p))
      decreases |s| - p
    {
      var kind, q, eq, p1 := GetToken(s, p);
      p := p1;
      cmd := Back(cmd);
      p, amp := Peek(s, p, "&");
    }
    var semi;
    p, semi := Peek(s, p, ";");
    if semi {
      var kind, q, eq, p1 := GetToken(s, p);
      var right;
      right, p, ok := ParseLine(s, p1);
      cmd := List(cmd, right);
    }
  }

  /** parsecmd(), up to nulterminate. */
  method ParseCmd(s: CString) returns (cmd: Cmd<Tok>, ok: bool)
    ensures ok == Command(s).Ok?
    ensures ok ==> cmd == Command(s).cmd
  {
    var p, b;
    cmd, p, ok := ParseLine(s, 0);
    if !ok {
      return;
    }
    p, b := Peek(s, p, "");
    ok := p == |s|;
  }
}
