/** The regular-expression matcher of grep.c, against a declarative account of its patterns. */
module Grep {
  import opened Common

  // ---------- what a pattern means ----------

  /** A pattern is a row of pieces: a character or '.', a starred one, or a final '$'. */
  datatype Piece = One(c: char) | Star(c: char) | Dollar

  function Pieces(re: string): seq<Piece> {
    if re == "" then []
    else if |re| >= 2 && re[1] == '*' then [Star(re[0])] + Pieces(re[2..])
    else if re == "$" then [Dollar]
    else [One(re[0])] + Pieces(re[1..])
  }

  predicate Agrees(c: char, x: char) { c == '.' || c == x }

  predicate All(c: char, w: string) { forall i :: 0 <= i < |w| ==> Agrees(c, w[i]) }

  /** The strings of one piece. */
  predicate Fits(p: Piece, w: string) {
    match p
    case One(c) => |w| == 1 && Agrees(c, w[0])
    case Star(c) => All(c, w)
    case Dollar => w == ""
  }

  function Concat(ws: seq<string>): string {
    if ws == [] then "" else ws[0] + Concat(ws[1..])
  }

  predicate AllFit(ps: seq<Piece>, ws: seq<string>) {
    |ws| == |ps| && forall i :: 0 <= i < |ps| ==> Fits(ps[i], ws[i])
  }

  /** The language of a row of pieces: the concatenations of strings that fit them one by one. */
  ghost predicate Lang(ps: seq<Piece>, w: string) {
    exists ws :: AllFit(ps, ws) && Concat(ws) == w
  }

  predicate ToTheEnd(ps: seq<Piece>) { ps != [] && ps[|ps| - 1].Dollar? }

  /** Some string of the language is a prefix of text: all of it, if the pattern ends with '$'. */
  ghost predicate Prefix(ps: seq<Piece>, text: string) {
    exists j :: 0 <= j <= |text| && Lang(ps, text[..j]) && (ToTheEnd(ps) ==> j == |text|)
  }

  /** Some string of the language is a substring of text, at its start if the pattern begins with
      '^' and at its end if it ends with '$'. */
  ghost predicate Found(re: string, text: string) {
    if re != "" && re[0] == '^' then Prefix(Pieces(re[1..]), text)
    else exists i :: 0 <= i <= |text| && Prefix(Pieces(re), text[i..])
  }

  // ---------- one piece at a time ----------

  lemma {:induction false} LangCons(p: Piece, ps: seq<Piece>, w: string, k: nat)
    requires k <= |w| && Fits(p, w[..k]) && Lang(ps, w[k..])
    ensures Lang([p] + ps, w)
  {
    var ws :| AllFit(ps, ws) && Concat(ws) == w[k..];
    var all := [w[..k]] + ws;
    assert all[1..] == ws;
    assert AllFit([p] + ps, all) && Concat(all) == w;
  }

  lemma {:induction false} LangUncons(p: Piece, ps: seq<Piece>, w: string) returns (k: nat)
    requires Lang([p] + ps, w)
    ensures k <= |w| && Fits(p, w[..k]) && Lang(ps, w[k..])
  {
    var all :| AllFit([p] + ps, all) && Concat(all) == w;
    k := |all[0]|;
    var ws := all[1..];
    forall i | 0 <= i < |ps| ensures Fits(ps[i], ws[i]) {
      assert ([p] + ps)[i + 1] == ps[i];
    }
    assert ([p] + ps)[0] == p;
    assert w == all[0] + Concat(ws);
    assert w[..k] == all[0] && w[k..] == Concat(ws);
    assert AllFit(ps, ws);
  }

  lemma {:induction false} PrefixCons(p: Piece, ps: seq<Piece>, text: string, k: nat)
    requires k <= |text| && Fits(p, text[..k]) && Prefix(ps, text[k..]) && !p.Dollar?
    ensures Prefix([p] + ps, text)
  {
    var j :| 0 <= j <= |text[k..]| && Lang(ps, text[k..][..j]) && (ToTheEnd(ps) ==> j == |text[k..]|);
    assert text[..k + j][..k] == text[..k] && text[..k + j][k..] == text[k..][..j];
    LangCons(p, ps, text[..k + j], k);
    assert ToTheEnd([p] + ps) ==> ToTheEnd(ps);
  }

  lemma {:induction false} PrefixUncons(p: Piece, ps: seq<Piece>, text: string) returns (k: nat)
    requires Prefix([p] + ps, text) && !p.Dollar?
    ensures k <= |text| && Fits(p, text[..k]) && Prefix(ps, text[k..])
  {
    var j :| 0 <= j <= |text| && Lang([p] + ps, text[..j]) && (ToTheEnd([p] + ps) ==> j == |text|);
    k := LangUncons(p, ps, text[..j]);
    assert text[..j][..k] == text[..k] && text[..j][k..] == text[k..][..j - k];
    assert ToTheEnd(ps) ==> ToTheEnd([p] + ps);
  }

  lemma {:induction false} PrefixEmpty(text: string)
    ensures Prefix([], text)
  {
    assert AllFit([], []) && Concat([]) == text[..0];
    assert Lang([], text[..0]);
  }

  lemma {:induction false} PrefixDollar(text: string)
    ensures Prefix([Dollar], text) <==> text == ""
  {
    if text == "" {
      assert AllFit([Dollar], [""]) && Concat([""]) == "";
      assert text[..0] == "" && Lang([Dollar], text[..0]);
    }
    if Prefix([Dollar], text) {
      var j :| 0 <= j <= |text| && Lang([Dollar], text[..j]) && (ToTheEnd([Dollar]) ==> j == |text|);
      assert [Dollar] == [Dollar] + [];
      var k := LangUncons(Dollar, [], text[..j]);
      var ws :| AllFit([], ws) && Concat(ws) == text[..j][k..];
    }
  }

  lemma {:induction false} PrefixOne(c: char, ps: seq<Piece>, text: string)
    ensures Prefix([One(c)] + ps, text) <==> text != "" && Agrees(c, text[0]) && Prefix(ps, text[1..])
  {
    if Prefix([One(c)] + ps, text) {
      var k := PrefixUncons(One(c), ps, text);
    }
    if text != "" && Agrees(c, text[0]) && Prefix(ps, text[1..]) {
      PrefixCons(One(c), ps, text, 1);
    }
  }

  /** c*re at the beginning of text. */
  ghost predicate Starred(c: char, ps: seq<Piece>, text: string) {
    exists k :: 0 <= k <= |text| && All(c, text[..k]) && Prefix(ps, text[k..])
  }

  lemma {:induction false} PrefixStar(c: char, ps: seq<Piece>, text: string)
    ensures Prefix([Star(c)] + ps, text) <==> Starred(c, ps, text)
  {
    if Prefix([Star(c)] + ps, text) {
      var k := PrefixUncons(Star(c), ps, text);
    }
    if Starred(c, ps, text) {
      var k :| 0 <= k <= |text| && All(c, text[..k]) && Prefix(ps, text[k..]);
      PrefixCons(Star(c), ps, text, k);
    }
  }

  // ---------- the matcher ----------

  /** The character at the front of a C string. */
  function Front(s: string): char { if s == "" then '\0' else s[0] }

  /** matchhere(): re matches at the beginning of text. */
  method MatchHere(re: CString, text: CString) returns (b: bool)
    ensures b <==> Prefix(Pieces(re), text)
    decreases |re|, 0
  {
    if Front(re) == '\0' {
      PrefixEmpty(text);
      return true;
    }
    if Front(re[1..]) == '*' {
      PrefixStar(re[0], Pieces(re[2..]), text);
      b := MatchStar(re[0], re[2..], text);
      return;
    }
    if re[0] == '$' && Front(re[1..]) == '\0' {
      PrefixDollar(text);
      return Front(text) == '\0';
    }
    PrefixOne(re[0], Pieces(re[1..]), text);
    if Front(text) != '\0' && (re[0] == '.' || re[0] == Front(text)) {
      b := MatchHere(re[1..], text[1..]);
      return;
    }
    return false;
  }

  /** matchstar(): c*re matches at the beginning of text. */
  method MatchStar(c: char, re: CString, text: CString) returns (b: bool)
    ensures b <==> Starred(c, Pieces(re), text)
    decreases |re|, 1
  {
    var i := 0;
    while true
      invariant 0 <= i <= |text| && All(c, text[..i])
      invariant forall k :: 0 <= k < i ==> !Prefix(Pieces(re), text[k..])
      decreases |text| - i
    {
      b := MatchHere(re, text[i..]);
      if b {
        return true;
      }
      if Front(text[i..]) == '\0' || !(text[i] == c || c == '.') {
        StarStops(c, text, i);
        return false;
      }
      i := i + 1;
    }
  }

  /** match(): re matches somewhere in text. */
  method Match(re: CString, text: CString) returns (b: bool)
    ensures b <==> Found(re, text)
  {
    if Front(re) == '^' {
      b := MatchHere(re[1..], text);
      return;
    }
    var i := 0;
    while true
      invariant 0 <= i <= |text|
      invariant forall k :: 0 <= k < i ==> !Prefix(Pieces(re), text[k..])
      decreases |text| - i
    {
      b := MatchHere(re, text[i..]);
      if b || Front(text[i..]) == '\0' {
        return;
      }
      i := i + 1;
    }
  }

  lemma {:induction false} StarStops(c: char, text: string, i: nat)
    requires i <= |text| && (i < |text| ==> !Agrees(c, text[i]))
    ensures forall k :: i < k <= |text| ==> !All(c, text[..k])
  {
  }
}
