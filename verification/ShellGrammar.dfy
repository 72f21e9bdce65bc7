/**
The command language of the shell: its tokens, its trees and its grammar.  Words are known by
their place in the line, as the shell keeps them.
*/
module ShellGrammar {
  const MAXARGS := 10

  /** The word from q up to eq. */
  datatype Span = Span(q: nat, eq: nat)

  /** Add stands for the two characters of ">>". */
  datatype Token = Eof | Sym(c: char) | Add | Word(span: Span)

  datatype Mode = Read | Write

  datatype Cmd =
    | Exec(argv: seq<Span>)
    | Redir(cmd: Cmd, file: Span, mode: Mode, fd: nat)
    | Pipe(left: Cmd, right: Cmd)
    | List(left: Cmd, right: Cmd)
    | Back(cmd: Cmd)

  /* ---- tokens ---- */

  predicate Blank(c: char) {
    c == ' ' || c == '\t' || c == '\r' || c == '\n' || c == '\U{0B}'
  }

  predicate Symbol(c: char) {
    c == '<' || c == '|' || c == '>' || c == '&' || c == ';' || c == '(' || c == ')'
  }

  predicate WordChar(c: char) {
    !Blank(c) && !Symbol(c)
  }

  function SkipBlank(text: string, p: nat): (r: nat)
    requires p <= |text|
    ensures p <= r <= |text| && (r < |text| ==> !Blank(text[r]))
    ensures forall k :: p <= k < r ==> Blank(text[k])
    decreases |text| - p
  {
    if p < |text| && Blank(text[p]) then SkipBlank(text, p + 1) else p
  }

  function WordEnd(text: string, p: nat): (r: nat)
    requires p <= |text|
    ensures p <= r <= |text| && (r < |text| ==> !WordChar(text[r]))
    ensures forall k :: p <= k < r ==> WordChar(text[k])
    decreases |text| - p
  {
    if p < |text| && WordChar(text[p]) then WordEnd(text, p + 1) else p
  }

  /** The token that begins at p, where no blank is, and the place behind it. */
  function TokenAt(text: string, p: nat): (t: Token)
    requires p <= |text| && (p < |text| ==> !Blank(text[p]))
  {
    if p == |text| then Eof
    else if WordChar(text[p]) then Word(Span(p, WordEnd(text, p)))
    else if text[p] == '>' && p + 1 < |text| && text[p + 1] == '>' then Add
    else Sym(text[p])
  }

  function TokenEnd(text: string, p: nat): (r: nat)
    requires p <= |text| && (p < |text| ==> !Blank(text[p]))
    ensures p <= r <= |text| && (p < |text| ==> p < r)
  {
    match TokenAt(text, p)
    case Eof => p
    case Word(w) => w.eq
    case Add => p + 2
    case Sym(_) => p + 1
  }

  /** All tokens from p on. */
  function Tokens(text: string, p: nat): (r: seq<Token>)
    requires p <= |text|
    decreases |text| - p
  {
    var q := SkipBlank(text, p);
    if q == |text| then [] else [TokenAt(text, q)] + Tokens(text, TokenEnd(text, q))
  }

  /** Skipping blanks skips no token. */
  lemma SkipTokens(text: string, p: nat)
    requires p <= |text|
    ensures Tokens(text, SkipBlank(text, p)) == Tokens(text, p)
    ensures SkipBlank(text, SkipBlank(text, p)) == SkipBlank(text, p)
  {
    var q := SkipBlank(text, p);
    assert SkipBlank(text, q) == q;
  }

  lemma NextToken(text: string, p: nat)
    requires p <= |text| && SkipBlank(text, p) < |text|
    ensures var q := SkipBlank(text, p);
            Tokens(text, p) == [TokenAt(text, q)] + Tokens(text, SkipBlank(text, TokenEnd(text, q)))
  {
    SkipTokens(text, TokenEnd(text, SkipBlank(text, p)));
  }

  /* ---- grammar ---- */

  predicate IsRedir(t: Token) {
    t == Sym('<') || t == Sym('>') || t == Add
  }

  function MakeRedir(c: Cmd, t: Token, file: Span): (r: Cmd) {
    if t == Sym('<') then Redir(c, file, Read, 0) else Redir(c, file, Write, 1)
  }

  /** A sequence of redirections. */
  predicate Redirs(t: seq<Token>) {
    t == [] || (|t| >= 2 && IsRedir(t[0]) && t[1].Word? && Redirs(t[2..]))
  }

  /** The command inside the redirections; later ones go around earlier ones. */
  function Wrap(c: Cmd, t: seq<Token>): (r: Cmd)
    requires Redirs(t)
    decreases |t|
  {
    if t == [] then c else Wrap(MakeRedir(c, t[0], t[1].span), t[2..])
  }

  /** Words and redirections in any order. */
  predicate Simple(t: seq<Token>) {
    || t == []
    || (t[0].Word? && Simple(t[1..]))
    || (|t| >= 2 && IsRedir(t[0]) && t[1].Word? && Simple(t[2..]))
  }

  /** The words that are arguments. */
  function Args(t: seq<Token>): (r: seq<Span>)
    requires Simple(t)
  {
    if t == [] then [] else if t[0].Word? then [t[0].span] + Args(t[1..]) else Args(t[2..])
  }

  /** The redirections among them. */
  function Files(t: seq<Token>): (r: seq<Token>)
    requires Simple(t)
    ensures Redirs(r)
  {
    if t == [] then []
    else if t[0].Word? then Files(t[1..])
    else
      var r := t[..2] + Files(t[2..]);
      assert r[2..] == Files(t[2..]);
      r
  }

  ghost predicate IsSimple(c: Cmd, t: seq<Token>) {
    Simple(t) && |Args(t)| < MAXARGS && c == Wrap(Exec(Args(t)), Files(t))
  }

  /** '(' line ')' redirections. */
  ghost predicate IsBlock(c: Cmd, t: seq<Token>)
    decreases |t|, 0
  {
    |t| >= 2 && t[0] == Sym('(') &&
    exists d: Cmd, k: nat :: k < |t| && BlockAt(c, t, d, k)
  }

  ghost predicate BlockAt(c: Cmd, t: seq<Token>, d: Cmd, k: nat)
    requires |t| >= 2 && k < |t|
    decreases |t|, 0, 0
  {
    1 <= k && t[k] == Sym(')') && IsLine(d, t[1..k]) && Redirs(t[k + 1..]) && c == Wrap(d, t[k + 1..])
  }

  ghost predicate IsExec(c: Cmd, t: seq<Token>)
    decreases |t|, 1
  {
    IsSimple(c, t) || IsBlock(c, t)
  }

  /** exec [ '|' pipe ] */
  ghost predicate IsPipe(c: Cmd, t: seq<Token>)
    decreases |t|, 3
  {
    IsExec(c, t) || (c.Pipe? && exists k: nat :: k < |t| && PipeAt(c, t, k))
  }

  ghost predicate PipeAt(c: Cmd, t: seq<Token>, k: nat)
    requires c.Pipe? && k < |t|
    decreases |t|, 2
  {
    t[k] == Sym('|') && IsExec(c.left, t[..k]) && IsPipe(c.right, t[k + 1..])
  }

  /** pipe { '&' } */
  ghost predicate IsBack(c: Cmd, t: seq<Token>)
    decreases |t|, 4
  {
    IsPipe(c, t) || (c.Back? && t != [] && t[|t| - 1] == Sym('&') && IsBack(c.cmd, t[..|t| - 1]))
  }

  /** back [ ';' line ] */
  ghost predicate IsLine(c: Cmd, t: seq<Token>)
    decreases |t|, 6
  {
    IsBack(c, t) || (c.List? && exists k: nat :: k < |t| && ListAt(c, t, k))
  }

  ghost predicate ListAt(c: Cmd, t: seq<Token>, k: nat)
    requires c.List? && k < |t|
    decreases |t|, 5
  {
    t[k] == Sym(';') && IsBack(c.left, t[..k]) && IsLine(c.right, t[k + 1..])
  }

  /* ---- where the words are ---- */

  function Spans(c: Cmd): (r: set<Span>) {
    match c
    case Exec(argv) => set w | w in argv
    case Redir(d, file, _, _) => Spans(d) + {file}
    case Pipe(l, r) => Spans(l) + Spans(r)
    case List(l, r) => Spans(l) + Spans(r)
    case Back(d) => Spans(d)
  }

  /** A whole word of the line: no word character stands behind it. */
  ghost predicate IsWord(text: string, w: Span) {
    && w.q < w.eq <= |text|
    && (forall k :: w.q <= k < w.eq ==> WordChar(text[k]))
    && (w.eq < |text| ==> !WordChar(text[w.eq]))
  }

  ghost predicate AllWords(text: string, c: Cmd) {
    forall w :: w in Spans(c) ==> IsWord(text, w)
  }

  /** Every word token is a whole word of the line. */
  lemma {:induction false} TokenWords(text: string, p: nat)
    requires p <= |text|
    ensures forall k :: 0 <= k < |Tokens(text, p)| && Tokens(text, p)[k].Word? ==> IsWord(text, Tokens(text, p)[k].span)
    decreases |text| - p
  {
    var q := SkipBlank(text, p);
    if q < |text| {
      TokenWords(text, TokenEnd(text, q));
    }
  }

  /** The words among some tokens. */
  ghost function WordsOf(t: seq<Token>): (r: set<Span>) {
    set k | 0 <= k < |t| && t[k].Word? :: t[k].span
  }

  lemma WordsOfPart(t: seq<Token>, a: nat, b: nat)
    requires a <= b <= |t|
    ensures WordsOf(t[a..b]) <= WordsOf(t)
  {
    forall w | w in WordsOf(t[a..b])
      ensures w in WordsOf(t)
    {
      var k :| 0 <= k < b - a && t[a..b][k].Word? && t[a..b][k].span == w;
      assert t[a + k].Word? && t[a + k].span == w;
    }
  }

  lemma {:induction false} WrapSpans(c: Cmd, t: seq<Token>)
    requires Redirs(t)
    ensures Spans(Wrap(c, t)) <= Spans(c) + WordsOf(t)
    decreases |t|
  {
    if t != [] {
      WrapSpans(MakeRedir(c, t[0], t[1].span), t[2..]);
      WordsOfPart(t, 2, |t|);
      assert t[1].span in WordsOf(t);
    }
  }

  lemma {:induction false} SimpleSpans(t: seq<Token>)
    requires Simple(t)
    ensures forall w :: w in Args(t) ==> w in WordsOf(t)
    ensures WordsOf(Files(t)) <= WordsOf(t)
    decreases |t|
  {
    if t != [] {
      if t[0].Word? {
        SimpleSpans(t[1..]);
        WordsOfPart(t, 1, |t|);
        assert t[0].span in WordsOf(t);
      } else {
        SimpleSpans(t[2..]);
        WordsOfPart(t, 2, |t|);
        FilesWords(t);
      }
    }
  }

  lemma FilesWords(t: seq<Token>)
    requires |t| >= 2 && !t[0].Word? && Simple(t)
    ensures forall w :: w in WordsOf(Files(t)) ==> w in WordsOf(t) || w in WordsOf(Files(t[2..]))
  {
    var f := Files(t);
    forall w | w in WordsOf(f)
      ensures w in WordsOf(t) || w in WordsOf(Files(t[2..]))
    {
      var k :| 0 <= k < |f| && f[k].Word? && f[k].span == w;
      if k < 2 {
        assert t[k].Word? && t[k].span == w;
      } else {
        assert Files(t[2..])[k - 2] == f[k];
      }
    }
  }

  lemma ExecSpans(c: Cmd, t: seq<Token>)
    requires IsExec(c, t)
    ensures Spans(c) <= WordsOf(t)
    decreases |t|, 1
  {
    if IsSimple(c, t) {
      SimpleSpans(t);
      WrapSpans(Exec(Args(t)), Files(t));
    } else {
      assert IsBlock(c, t);
      var d: Cmd, k: nat :| k < |t| && BlockAt(c, t, d, k);
      LineSpans(d, t[1..k]);
      WordsOfPart(t, 1, k);
      WrapSpans(d, t[k + 1..]);
      WordsOfPart(t, k + 1, |t|);
    }
  }

  lemma PipeSpans(c: Cmd, t: seq<Token>)
    requires IsPipe(c, t)
    ensures Spans(c) <= WordsOf(t)
    decreases |t|, 2
  {
    hide IsExec;
    if IsExec(c, t) {
      ExecSpans(c, t);
    } else {
      var k: nat :| k < |t| && PipeAt(c, t, k);
      ExecSpans(c.left, t[..k]);
      WordsOfPart(t, 0, k);
      PipeSpans(c.right, t[k + 1..]);
      WordsOfPart(t, k + 1, |t|);
    }
  }

  lemma {:induction false} BackSpans(c: Cmd, t: seq<Token>)
    requires IsBack(c, t)
    ensures Spans(c) <= WordsOf(t)
    decreases |t|, 3
  {
    hide IsPipe;
    if IsPipe(c, t) {
      PipeSpans(c, t);
    } else {
      BackSpans(c.cmd, t[..|t| - 1]);
      WordsOfPart(t, 0, |t| - 1);
    }
  }

  /** All words of a tree are words of the line it was made from. */
  lemma LineSpans(c: Cmd, t: seq<Token>)
    requires IsLine(c, t)
    ensures Spans(c) <= WordsOf(t)
    decreases |t|, 4
  {
    hide IsBack;
    if IsBack(c, t) {
      BackSpans(c, t);
    } else {
      var k: nat :| k < |t| && ListAt(c, t, k);
      BackSpans(c.left, t[..k]);
      WordsOfPart(t, 0, k);
      LineSpans(c.right, t[k + 1..]);
      WordsOfPart(t, k + 1, |t|);
    }
  }
}
