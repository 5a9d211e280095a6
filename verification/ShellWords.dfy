/** The words of a parsed command, and nulterminate (sh.c), which ends each of them with a NUL in the
    input buffer itself. */
module ShellWords {
  import opened Common
  import opened ShellLexer
  import opened ShellParser
  import opened ShellPrinter

  // ---------- every word of a parsed command is a whole word of the input ----------

  /** t is a run of word characters that does not go on at its end. */
  predicate WordTok(s: string, t: Tok) {
    t.q < t.eq <= |s| && LegalWord(s[t.q..t.eq]) && (t.eq < |s| ==> !IsWordChar(s[t.eq]))
  }

  predicate WordsOnly(s: string, ts: seq<Tok>) {
    forall t :: t in ts && t.kind == 'a' ==> WordTok(s, t)
  }

  lemma {:induction false} RestWords(s: CString, pos: nat)
    requires pos <= |s|
    ensures WordsOnly(s, Rest(s, pos))
    decreases |s| - pos
  {
    var p := Skip(s, pos);
    if p < |s| {
      var t := TokenAt(s, p);
      RestWords(s, t.eq);
      if t.kind == 'a' {
        assert s[p] in s;
        assert forall i :: t.q <= i < t.eq ==> s[i] in s;
      }
    }
  }

  /** The words of a command, in the order nulterminate visits them. */
  function WordsOf(c: Cmd<Tok>): seq<Tok> {
    match c
    case Exec(argv) => argv
    case Redir(d, file, _, _) => WordsOf(d) + [file]
    case Pipe(l, r) => WordsOf(l) + WordsOf(r)
    case List(l, r) => WordsOf(l) + WordsOf(r)
    case Back(d) => WordsOf(d)
  }

  /** What the parser makes is a command with legal words. */
  predicate Sound(s: string, c: Cmd<Tok>) {
    match c
    case Exec(argv) => |argv| < MAXARGS && forall w :: w in argv ==> WordTok(s, w)
    case Redir(d, file, mode, fd) => Sound(s, d) && WordTok(s, file) &&
      ((mode == O_RDONLY && fd == 0) || (mode == O_WRONLY + O_CREATE && fd == 1))
    case Pipe(l, r) => Sound(s, l) && Sound(s, r)
    case List(l, r) => Sound(s, l) && Sound(s, r)
    case Back(d) => Sound(s, d)
  }

  /** The arguments of a redirected program, if that is what c is. */
  function ArgsIn(c: Cmd<Tok>): int {
    match c
    case Exec(argv) => |argv|
    case Redir(d, _, _, _) => ArgsIn(d)
    case _ => -1
  }

  lemma {:induction false} RedirsSound(s: string, c: Cmd<Tok>, ts: seq<Tok>)
    requires Sound(s, c) && WordsOnly(s, ts)
    ensures var r := Redirs(c, ts); r.Ok? ==> Sound(s, r.cmd) && WordsOnly(s, r.rest) && ArgsIn(r.cmd) == ArgsIn(c)
    decreases |ts|
  {
    if Ahead(ts, "<>+") && |ts| >= 2 && ts[1].kind == 'a' {
      assert ts[1] in ts;
      RedirsSound(s, Redir(c, ts[1], Mode(ts[0].kind), Fd(ts[0].kind)), ts[2..]);
    }
  }

  lemma {:induction false} AddArgSound(s: string, c: Cmd<Tok>, w: Tok)
    requires Sound(s, c) && WordTok(s, w) && 0 <= ArgsIn(c) < MAXARGS - 1
    ensures Sound(s, AddArg(c, w)) && ArgsIn(AddArg(c, w)) == ArgsIn(c) + 1
  {
    if c.Redir? { AddArgSound(s, c.cmd, w); }
  }

  lemma {:induction false} ArgsSound(s: string, c: Cmd<Tok>, argc: nat, ts: seq<Tok>)
    requires Sound(s, c) && WordsOnly(s, ts) && ArgsIn(c) == argc < MAXARGS
    ensures var r := Args(c, argc, ts); r.Ok? ==> Sound(s, r.cmd) && WordsOnly(s, r.rest)
    decreases |ts|
  {
    if !Ahead(ts, "|)&;") && ts != [] && ts[0].kind == 'a' && argc + 1 < MAXARGS {
      assert ts[0] in ts;
      AddArgSound(s, c, ts[0]);
      RedirsSound(s, AddArg(c, ts[0]), ts[1..]);
      var r := Redirs(AddArg(c, ts[0]), ts[1..]);
      if r.Ok? { ArgsSound(s, r.cmd, argc + 1, r.rest); }
    }
  }

  predicate SoundParse(s: string, r: Parse) {
    r.Ok? ==> Sound(s, r.cmd) && WordsOnly(s, r.rest)
  }

  lemma {:induction false} ExecSound(s: string, ts: seq<Tok>)
    requires WordsOnly(s, ts)
    ensures SoundParse(s, ExecOrBlock(ts))
    decreases |ts|, 0
  {
    if Ahead(ts, "(") {
      LineSound(s, ts[1..]);
      var r := Line(ts[1..]);
      if r.Ok? && Ahead(r.rest, ")") { RedirsSound(s, r.cmd, r.rest[1..]); }
    } else {
      RedirsSound(s, Exec([]), ts);
      var r := Redirs(Exec([]), ts);
      if r.Ok? { ArgsSound(s, r.cmd, 0, r.rest); }
    }
  }

  lemma {:induction false} PipedSound(s: string, ts: seq<Tok>)
    requires WordsOnly(s, ts)
    ensures SoundParse(s, Piped(ts))
    decreases |ts|, 1
  {
    ExecSound(s, ts);
    var r := ExecOrBlock(ts);
    if r.Ok? && Ahead(r.rest, "|") { PipedSound(s, r.rest[1..]); }
  }

  lemma {:induction false} BacksSound(s: string, c: Cmd<Tok>, ts: seq<Tok>)
    requires Sound(s, c) && WordsOnly(s, ts)
    ensures SoundParse(s, Backs(c, ts))
    decreases |ts|
  {
    if Ahead(ts, "&") { BacksSound(s, Back(c), ts[1..]); }
  }

  lemma {:induction false} LineSound(s: string, ts: seq<Tok>)
    requires WordsOnly(s, ts)
    ensures SoundParse(s, Line(ts))
    decreases |ts|, 2
  {
    PipedSound(s, ts);
    var r := Piped(ts);
    if r.Ok? {
      BacksSound(s, r.cmd, r.rest);
      var b := Backs(r.cmd, r.rest);
      if Ahead(b.rest, ";") { LineSound(s, b.rest[1..]); }
    }
  }

  lemma {:induction false} TextsLegal(s: string, ws: seq<Tok>)
    requires forall w :: w in ws ==> WordTok(s, w)
    ensures |TextsOf(s, ws)| == |ws| && forall x :: x in TextsOf(s, ws) ==> LegalWord(x)
  {
    if ws != [] {
      assert ws[0] in ws && WordTok(s, ws[0]);
      TextsLegal(s, ws[1..]);
    }
  }

  lemma {:induction false} ReadingLegal(s: string, c: Cmd<Tok>)
    requires Sound(s, c)
    ensures Legal(Reading(s, c))
  {
    match c
    case Exec(argv) => TextsLegal(s, argv);
    case Redir(d, _, _, _) => ReadingLegal(s, d);
    case Pipe(l, r) => ReadingLegal(s, l); ReadingLegal(s, r);
    case List(l, r) => ReadingLegal(s, l); ReadingLegal(s, r);
    case Back(d) => ReadingLegal(s, d);
  }

  /** Whatever the shell accepts is a legal command, so that printing and parsing it again gives the
      same command. */
  lemma {:induction false} ParsedIsLegal(s: CString)
    requires Command(s).Ok?
    ensures var t := Reading(s, Command(s).cmd);
      Legal(t) && Command(Print(t)).Ok? && Reading(Print(t), Command(Print(t)).cmd) == t
  {
    RestWords(s, 0);
    LineSound(s, Rest(s, 0));
    ReadingLegal(s, Command(s).cmd);
    WrittenMeans(Reading(s, Command(s).cmd));
    RoundTrip(Written(Reading(s, Command(s).cmd)));
  }

  // ---------- nulterminate ----------

  /** One of the words ends at i. */
  predicate EndsAt(ws: seq<Tok>, i: nat) {
    exists k :: 0 <= k < |ws| && ws[k].eq == i
  }

  lemma {:induction false} EndsConcat(a: seq<Tok>, b: seq<Tok>, i: nat)
    ensures EndsAt(a + b, i) <==> EndsAt(a, i) || EndsAt(b, i)
  {
    if EndsAt(a, i) {
      var k :| 0 <= k < |a| && a[k].eq == i;
      assert (a + b)[k].eq == i;
    }
    if EndsAt(b, i) {
      var k :| 0 <= k < |b| && b[k].eq == i;
      assert (a + b)[|a| + k].eq == i;
    }
  }

  /** The buffer with NULs at the ends of the words. */
  predicate Terminated(was: string, now: string, ws: seq<Tok>) {
    |now| == |was| && forall i :: 0 <= i < |was| ==> now[i] == if EndsAt(ws, i) then '\0' else was[i]
  }

  lemma {:induction false} TerminatedConcat(b0: string, b1: string, b2: string, xs: seq<Tok>, ys: seq<Tok>)
    requires Terminated(b0, b1, xs) && Terminated(b1, b2, ys)
    ensures Terminated(b0, b2, xs + ys)
  {
    forall i | 0 <= i < |b0| ensures b2[i] == if EndsAt(xs + ys, i) then '\0' else b0[i] {
      EndsConcat(xs, ys, i);
    }
  }

  predicate EndsIn(ws: seq<Tok>, n: nat) {
    forall k :: 0 <= k < |ws| ==> ws[k].eq < n
  }

  lemma {:induction false} EndsInParts(a: seq<Tok>, b: seq<Tok>, n: nat)
    requires EndsIn(a + b, n)
    ensures EndsIn(a, n) && EndsIn(b, n)
  {
    assert forall k :: 0 <= k < |a| ==> (a + b)[k] == a[k];
    assert forall k :: 0 <= k < |b| ==> (a + b)[|a| + k] == b[k];
  }

  /** One store of a NUL. */
  method Store(buf: array<char>, w: Tok)
    requires w.eq < buf.Length
    modifies buf
    ensures Terminated(old(buf[..]), buf[..], [w])
  {
    buf[w.eq] := '\0';
    assert [w][0].eq == w.eq;
  }

  /** nulterminate() */
  method NulTerminate(c: Cmd<Tok>, buf: array<char>)
    requires EndsIn(WordsOf(c), buf.Length)
    modifies buf
    ensures Terminated(old(buf[..]), buf[..], WordsOf(c))
    decreases c
  {
    match c
    case Exec(argv) =>
      var i := 0;
      while i < |argv|
        invariant 0 <= i <= |argv| && Terminated(old(buf[..]), buf[..], argv[..i])
      {
        ghost var mid := buf[..];
        Store(buf, argv[i]);
        TerminatedConcat(old(buf[..]), mid, buf[..], argv[..i], [argv[i]]);
        assert argv[..i] + [argv[i]] == argv[..i + 1];
        i := i + 1;
      }
      assert argv[..i] == argv;
    case Redir(d, file, mode, fd) =>
      EndsInParts(WordsOf(d), [file], buf.Length);
      assert [file][0].eq < buf.Length;
      NulTerminate(d, buf);
      ghost var mid := buf[..];
      Store(buf, file);
      TerminatedConcat(old(buf[..]), mid, buf[..], WordsOf(d), [file]);
    case Pipe(l, r) =>
      EndsInParts(WordsOf(l), WordsOf(r), buf.Length);
      NulTerminate(l, buf);
      ghost var mid := buf[..];
      NulTerminate(r, buf);
      TerminatedConcat(old(buf[..]), mid, buf[..], WordsOf(l), WordsOf(r));
    case List(l, r) =>
      EndsInParts(WordsOf(l), WordsOf(r), buf.Length);
      NulTerminate(l, buf);
      ghost var mid := buf[..];
      NulTerminate(r, buf);
      TerminatedConcat(old(buf[..]), mid, buf[..], WordsOf(l), WordsOf(r));
    case Back(d) =>
      NulTerminate(d, buf);
  }

  /** The C string at position i of a buffer. */
  function CStringAt(b: string, i: nat): string
    decreases |b| - i
  {
    if i >= |b| || b[i] == '\0' then "" else [b[i]] + CStringAt(b, i + 1)
  }

  lemma {:induction false} CStringIs(b: string, i: nat, j: nat)
    requires i <= j < |b| && b[j] == '\0' && forall k :: i <= k < j ==> b[k] != '\0'
    ensures CStringAt(b, i) == b[i..j]
    decreases j - i
  {
    if i < j {
      CStringIs(b, i + 1, j);
      assert b[i..j] == [b[i]] + b[i + 1..j];
    }
  }

  lemma {:induction false} SoundWords(s: string, c: Cmd<Tok>)
    requires Sound(s, c)
    ensures forall k :: 0 <= k < |WordsOf(c)| ==> WordTok(s, WordsOf(c)[k])
  {
    match c
    case Exec(argv) => {}
    case Redir(d, _, _, _) => SoundWords(s, d);
    case Pipe(l, r) => SoundWords(s, l); SoundWords(s, r);
    case List(l, r) => SoundWords(s, l); SoundWords(s, r);
    case Back(d) => SoundWords(s, d);
  }

  /** No NUL lands inside a word, so every word reads back as it was. */
  lemma {:induction false} WordReadsBack(s: CString, now: string, ws: seq<Tok>, k: nat)
    requires (forall i :: 0 <= i < |ws| ==> WordTok(s, ws[i])) && Terminated(s + ['\0'], now, ws) && k < |ws|
    ensures CStringAt(now, ws[k].q) == Text(s, ws[k])
  {
    var w := ws[k];
    var was := s + ['\0'];
    assert EndsAt(ws, w.eq);
    forall i | w.q <= i < w.eq ensures now[i] == s[i] && now[i] != '\0' {
      assert IsWordChar(s[w.q..w.eq][i - w.q]);
      assert !EndsAt(ws, i);
      assert was[i] == s[i];
    }
    CStringIs(now, w.q, w.eq);
    assert now[w.q..w.eq] == s[w.q..w.eq];
  }

  predicate ReadsBack(s: string, now: string, ws: seq<Tok>) {
    forall k :: 0 <= k < |ws| ==> CStringAt(now, ws[k].q) == Text(s, ws[k])
  }

  /** parsecmd(), on a buffer that holds s: afterwards every word of the command is a C string. */
  method ParseBuffer(s: CString, buf: array<char>) returns (cmd: Cmd<Tok>, ok: bool)
    requires buf[..] == s + ['\0']
    modifies buf
    ensures ok == Command(s).Ok?
    ensures ok ==> cmd == Command(s).cmd && ReadsBack(s, buf[..], WordsOf(cmd))
  {
    cmd, ok := ParseCmd(s);
    if !ok {
      return;
    }
    RestWords(s, 0);
    LineSound(s, Rest(s, 0));
    SoundWords(s, cmd);
    NulTerminate(cmd, buf);
    forall k | 0 <= k < |WordsOf(cmd)| ensures CStringAt(buf[..], WordsOf(cmd)[k].q) == Text(s, WordsOf(cmd)[k]) {
      WordReadsBack(s, buf[..], WordsOf(cmd), k);
    }
  }
}
