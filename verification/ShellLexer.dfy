/** The shell's scanner (sh.c): gettoken and peek over a C string, and the tokens they see. */
module ShellLexer {
  import opened Common

  predicate IsSpace(c: char) { c in " \t\r\n\U{0B}" }

  predicate IsSymbol(c: char) { c in "<|>&;()" }

  predicate IsWordChar(c: char) { !IsSpace(c) && !IsSymbol(c) && c != '\0' }

  /** A token: what gettoken returns ('a' for a word, '+' for >>), and where it begins and ends. */
  datatype Tok = Tok(kind: char, q: nat, eq: nat)

  /** The first position from pos on that is not white space. */
  function Skip(s: string, pos: nat): (p: nat)
    requires pos <= |s|
    ensures pos <= p <= |s| && (p < |s| ==> !IsSpace(s[p]))
    decreases |s| - pos
  {
    if pos < |s| && IsSpace(s[pos]) then Skip(s, pos + 1) else pos
  }

  /** Where the word at pos ends. */
  function WordEnd(s: string, pos: nat): (p: nat)
    requires pos <= |s|
    ensures pos <= p <= |s| && (p < |s| ==> IsSpace(s[p]) || IsSymbol(s[p]))
    ensures forall i :: pos <= i < p ==> !IsSpace(s[i]) && !IsSymbol(s[i])
    decreases |s| - pos
  {
    if pos < |s| && !IsSpace(s[pos]) && !IsSymbol(s[pos]) then WordEnd(s, pos + 1) else pos
  }

  function TokenAt(s: string, pos: nat): (t: Tok)
    requires pos < |s| && !IsSpace(s[pos])
    ensures t.q == pos < t.eq <= |s|
  {
    if !IsSymbol(s[pos]) then Tok('a', pos, WordEnd(s, pos + 1))
    else if s[pos] == '>' && pos + 1 < |s| && s[pos + 1] == '>' then Tok('+', pos, pos + 2)
    else Tok(s[pos], pos, pos + 1)
  }

  /** The tokens from pos on. */
  function Rest(s: string, pos: nat): (ts: seq<Tok>)
    requires pos <= |s|
    decreases |s| - pos
  {
    var p := Skip(s, pos);
    if p == |s| then [] else [TokenAt(s, p)] + Rest(s, TokenAt(s, p).eq)
  }

  /** White space between tokens does not count. */
  lemma {:induction false} RestSkip(s: string, pos: nat)
    requires pos <= |s|
    ensures Rest(s, Skip(s, pos)) == Rest(s, pos) && Skip(s, Skip(s, pos)) == Skip(s, pos)
  {
  }

  /** The next token is one of the kinds. */
  predicate Ahead(ts: seq<Tok>, kinds: string) {
    ts != [] && ts[0].kind in kinds
  }

  /** The kinds of token that begin with one of the characters toks: >> begins with >. */
  function KindsOf(toks: string): string {
    if '>' in toks then toks + "+" else toks
  }

  /** The loop over white space. */
  method SkipSpace(s: CString, pos: nat) returns (p: nat)
    requires pos <= |s|
    ensures p == Skip(s, pos)
  {
    p := pos;
    while p < |s| && IsSpace(s[p])
      invariant pos <= p <= |s| && Skip(s, p) == Skip(s, pos)
    {
      p := p + 1;
    }
  }

  /** gettoken(): 0 at the end of the string. */
  method GetToken(s: CString, pos: nat) returns (kind: char, q: nat, eq: nat, p: nat)
    requires pos <= |s|
    ensures pos <= p <= |s|
    ensures kind == '\0' <==> Rest(s, pos) == []
    ensures kind == '\0' ==> Rest(s, p) == []
    ensures kind != '\0' ==> Rest(s, pos) == [Tok(kind, q, eq)] + Rest(s, p) && p > pos
  {
    p := SkipSpace(s, pos);
    q := p;
    if p == |s| {
      return '\0', q, p, p;
    }
    kind := s[p];
    if kind == '>' {
      p := p + 1;
      if p < |s| && s[p] == '>' {
        kind := '+';
        p := p + 1;
      }
    } else if IsSymbol(kind) {
      p := p + 1;
    } else {
      kind := 'a';
      p := p + 1;
      while p < |s| && !IsSpace(s[p]) && !IsSymbol(s[p])
        invariant q < p <= |s| && WordEnd(s, p) == WordEnd(s, q + 1)
      {
        p := p + 1;
      }
    }
    eq := p;
    assert TokenAt(s, q) == Tok(kind, q, eq);
    RestSkip(s, eq);
    p := SkipSpace(s, p);
  }

  /** peek(): whether the next token begins with one of the characters. */
  method Peek(s: CString, pos: nat, toks: string) returns (p: nat, b: bool)
    requires pos <= |s| && forall c :: c in toks ==> IsSymbol(c)
    ensures pos <= p <= |s| && Rest(s, p) == Rest(s, pos)
    ensures b <==> Ahead(Rest(s, pos), KindsOf(toks))
    ensures p == |s| <==> Rest(s, pos) == []
  {
    p := SkipSpace(s, pos);
    RestSkip(s, pos);
    b := p < |s| && s[p] in toks;
    if p < |s| {
      assert Rest(s, pos)[0] == TokenAt(s, p);
      assert !IsSymbol('a') && !IsSymbol('+');
    }
  }

  // ---------- what a token reads as ----------

  /** A token's kind and text. */
  datatype Lexeme = Lexeme(kind: char, text: string)

  predicate InString(s: string, t: Tok) { t.q <= t.eq <= |s| }

  function Text(s: string, t: Tok): string {
    if InString(s, t) then s[t.q..t.eq] else ""
  }

  function Texts(s: string, ts: seq<Tok>): (ls: seq<Lexeme>)
    ensures |ls| == |ts|
  {
    seq(|ts|, i requires 0 <= i < |ts| => Lexeme(ts[i].kind, Text(s, ts[i])))
  }

  predicate LegalWord(w: string) {
    w != "" && forall i :: 0 <= i < |w| ==> IsWordChar(w[i])
  }

  /** A lexeme that can be printed: a word, or a symbol as itself. */
  predicate LegalLexeme(l: Lexeme) {
    if l.kind == 'a' then LegalWord(l.text)
    else if l.kind == '+' then l.text == ">>" else IsSymbol(l.kind) && l.text == [l.kind]
  }

  predicate AllLegal(ls: seq<Lexeme>) {
    forall l :: l in ls ==> LegalLexeme(l)
  }

  /** Every lexeme is followed by a space. */
  function Render(ls: seq<Lexeme>): string {
    if ls == [] then "" else ls[0].text + " " + Render(ls[1..])
  }

  /** What the tokens from pos on read as. */
  function Scan(s: string, pos: nat): seq<Lexeme>
    requires pos <= |s|
  {
    Texts(s, Rest(s, pos))
  }

  /** From pos on, s is the rendering of ls. */
  predicate Rendered(s: string, pos: nat, ls: seq<Lexeme>)
    decreases |ls|
  {
    if ls == [] then pos == |s|
    else SpacedAt(s, pos, ls[0].text) && Rendered(s, pos + |ls[0].text| + 1, ls[1..])
  }

  /** At pos there is w and a space. */
  predicate SpacedAt(s: string, pos: nat, w: string) {
    pos + |w| + 1 <= |s| && s[pos..pos + |w|] == w && s[pos + |w|] == ' '
  }

  lemma {:induction false} RenderedFrom(s: string, pos: nat, ls: seq<Lexeme>)
    requires pos <= |s| && s[pos..] == Render(ls)
    ensures Rendered(s, pos, ls)
    decreases |ls|
  {
    if ls != [] {
      SplitAt(s, pos, ls[0].text, Render(ls[1..]));
      RenderedFrom(s, pos + |ls[0].text| + 1, ls[1..]);
    }
  }

  lemma {:induction false} SplitAt(s: string, pos: nat, w: string, more: string)
    requires pos <= |s| && s[pos..] == w + " " + more
    ensures SpacedAt(s, pos, w) && s[pos + |w| + 1..] == more
  {
    var tail := s[pos..];
    assert tail[..|w|] == w && tail[|w|] == ' ' && tail[|w| + 1..] == more;
    assert s[pos..pos + |w|] == tail[..|w|] && s[pos + |w| + 1..] == tail[|w| + 1..];
  }

  /** Scanning a rendering gives the lexemes back. */
  lemma {:induction false} RestRender(s: string, pos: nat, ls: seq<Lexeme>)
    requires pos <= |s| && Rendered(s, pos, ls) && AllLegal(ls)
    ensures Scan(s, pos) == ls
    decreases |ls|
  {
    hide LegalLexeme;
    if ls != [] {
      assert LegalLexeme(ls[0]);
      ScanStep(s, pos, ls[0]);
      RestRender(s, pos + |ls[0].text| + 1, ls[1..]);
      assert ls == [ls[0]] + ls[1..];
    }
  }

  lemma {:induction false} ScanStep(s: string, pos: nat, l: Lexeme)
    requires SpacedAt(s, pos, l.text) && LegalLexeme(l)
    ensures Scan(s, pos) == [l] + Scan(s, pos + |l.text| + 1)
  {
    hide Rest, TokenAt, LegalLexeme, Texts;
    TokenIs(s, pos, l);
    RestStep(s, pos, l);
    TextsCons(s, TokenAt(s, pos), Rest(s, pos + |l.text| + 1));
  }

  lemma {:induction false} RestSpace(s: string, pos: nat)
    requires pos < |s| && s[pos] == ' '
    ensures Rest(s, pos) == Rest(s, pos + 1)
  {
    hide Rest;
    RestSkip(s, pos);
    RestSkip(s, pos + 1);
  }

  lemma {:induction false} RestStep(s: string, pos: nat, l: Lexeme)
    requires SpacedAt(s, pos, l.text) && LegalLexeme(l)
    ensures Rest(s, pos) == [TokenAt(s, pos)] + Rest(s, pos + |l.text| + 1)
  {
    hide TokenAt, LegalLexeme;
    TokenIs(s, pos, l);
    assert Skip(s, pos) == pos;
    RestSpace(s, pos + |l.text|);
  }

  lemma {:induction false} TextsCons(s: string, t: Tok, ts: seq<Tok>)
    ensures Texts(s, [t] + ts) == [Lexeme(t.kind, Text(s, t))] + Texts(s, ts)
  {
  }

  /** A lexeme with a space behind it is a token. */
  lemma {:induction false} TokenIs(s: string, pos: nat, l: Lexeme)
    requires SpacedAt(s, pos, l.text) && LegalLexeme(l)
    ensures !IsSpace(s[pos]) && TokenAt(s, pos) == Tok(l.kind, pos, pos + |l.text|)
  {
    var end := pos + |l.text|;
    assert forall i :: pos <= i < end ==> s[i] == s[pos..end][i - pos];
    if l.kind == 'a' {
      WordEndIs(s, pos + 1, end);
    }
  }

  lemma {:induction false} WordEndIs(s: string, pos: nat, end: nat)
    requires pos <= end < |s| && (IsSpace(s[end]) || IsSymbol(s[end]))
    requires forall i :: pos <= i < end ==> IsWordChar(s[i])
    ensures WordEnd(s, pos) == end
    decreases end - pos
  {
    if pos < end { WordEndIs(s, pos + 1, end); }
  }

  // ---------- the tokens are the one way to cut up the line ----------

  predicate Blank(s: string, i: nat, j: nat) {
    i <= j <= |s| && forall k :: i <= k < j ==> IsSpace(s[k])
  }

  /** t is a whole word, or >>, or a symbol that is not half of >>. */
  predicate Whole(s: string, t: Tok) {
    && t.q < t.eq <= |s|
    && if t.kind == 'a' then
         && (forall i :: t.q <= i < t.eq ==> !IsSpace(s[i]) && !IsSymbol(s[i]))
         && (t.eq == |s| || IsSpace(s[t.eq]) || IsSymbol(s[t.eq]))
       else if t.kind == '+' then t.eq == t.q + 2 && s[t.q] == '>' && s[t.q + 1] == '>'
       else && IsSymbol(t.kind) && t.eq == t.q + 1 && s[t.q] == t.kind
            && !(t.kind == '>' && t.eq < |s| && s[t.eq] == '>')
  }

  /** From pos on, s is blanks and the tokens ts, in turn. */
  predicate Cut(s: string, pos: nat, ts: seq<Tok>)
    decreases |ts|
  {
    if ts == [] then Blank(s, pos, |s|)
    else Whole(s, ts[0]) && Blank(s, pos, ts[0].q) && Cut(s, ts[0].eq, ts[1..])
  }

  lemma {:induction false} SkipIs(s: string, pos: nat, p: nat)
    requires Blank(s, pos, p) && (p < |s| ==> !IsSpace(s[p]))
    ensures Skip(s, pos) == p
    decreases p - pos
  {
    if pos < p { SkipIs(s, pos + 1, p); }
  }

  lemma {:induction false} SkipBlank(s: string, pos: nat)
    requires pos <= |s|
    ensures Blank(s, pos, Skip(s, pos))
    decreases |s| - pos
  {
    if pos < |s| && IsSpace(s[pos]) { SkipBlank(s, pos + 1); }
  }

  lemma {:induction false} TokenWhole(s: string, t: Tok)
    requires Whole(s, t)
    ensures !IsSpace(s[t.q]) && TokenAt(s, t.q) == t
  {
    assert !IsSymbol('a') && !IsSymbol('+') && IsSymbol('>');
    assert forall c :: IsSymbol(c) ==> !IsSpace(c);
    if t.kind == 'a' { WholeEnd(s, t.q + 1, t.eq); }
  }

  lemma {:induction false} WholeEnd(s: string, pos: nat, end: nat)
    requires pos <= end <= |s| && (end < |s| ==> IsSpace(s[end]) || IsSymbol(s[end]))
    requires forall i :: pos <= i < end ==> !IsSpace(s[i]) && !IsSymbol(s[i])
    ensures WordEnd(s, pos) == end
    decreases end - pos
  {
    if pos < end { WholeEnd(s, pos + 1, end); }
  }

  lemma {:induction false} WholeToken(s: string, pos: nat)
    requires pos < |s| && !IsSpace(s[pos])
    ensures Whole(s, TokenAt(s, pos))
  {
    assert !IsSymbol('a') && !IsSymbol('+');
  }

  /** gettoken's tokens are the only way to cut the line into blanks and whole tokens. */
  lemma {:induction false} ScanExactly(s: string, pos: nat, ts: seq<Tok>)
    requires pos <= |s|
    ensures ts == Rest(s, pos) <==> Cut(s, pos, ts)
    decreases |s| - pos
  {
    hide Skip, TokenAt, Whole, Blank;
    var p := Skip(s, pos);
    SkipBlank(s, pos);
    if p < |s| {
      WholeToken(s, p);
      ScanExactly(s, TokenAt(s, p).eq, Rest(s, TokenAt(s, p).eq));
      assert Rest(s, pos)[1..] == Rest(s, TokenAt(s, p).eq);
    }
    if Cut(s, pos, ts) {
      if ts == [] {
        SkipIs(s, pos, |s|);
      } else {
        TokenWhole(s, ts[0]);
        WholeBounds(s, ts[0]);
        SkipIs(s, pos, ts[0].q);
        BlankBounds(s, pos, ts[0].q);
        ScanExactly(s, ts[0].eq, ts[1..]);
        assert ts == [ts[0]] + ts[1..];
      }
    }
  }

  lemma {:induction false} WholeBounds(s: string, t: Tok)
    requires Whole(s, t)
    ensures t.q < t.eq <= |s|
  {
  }

  lemma {:induction false} BlankBounds(s: string, i: nat, j: nat)
    requires Blank(s, i, j)
    ensures i <= j
  {
  }
}
