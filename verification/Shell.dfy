/**
The parser of the shell.  Each method moves the cursor ps over what it has read; None stands for a
syntax error, after which the shell gives the line up.
*/
module Shell {
  import opened Prelude
  import opened ShellGrammar
  import opened ShellParse

  class Parser {
    const text: string
    var ps: nat

    constructor (text: string)
      ensures this.text == text && ps == 0
    {
      this.text, ps := text, 0;
    }

    /** peek: skip blanks and look whether one of the characters follows. */
    method Peek(toks: string) returns (b: bool)
      requires ps <= |text|
      modifies this
      ensures ps == SkipBlank(text, old(ps))
      ensures b <==> ps < |text| && text[ps] in toks
    {
      while ps < |text| && Blank(text[ps])
        invariant ps <= |text| && SkipBlank(text, ps) == SkipBlank(text, old(ps))
        decreases |text| - ps
      {
        ps := ps + 1;
      }
      return ps < |text| && text[ps] in toks;
    }

    /** gettoken: the next token, with the blanks before and behind it. */
    method Gettoken() returns (t: Token)
      requires ps <= |text|
      modifies this
      ensures var q := SkipBlank(text, old(ps));
              t == TokenAt(text, q) && ps == SkipBlank(text, TokenEnd(text, q))
    {
      var s := ps;
      while s < |text| && Blank(text[s])
        invariant s <= |text| && SkipBlank(text, s) == SkipBlank(text, ps)
        decreases |text| - s
      {
        s := s + 1;
      }
      var q := s;
      if s == |text| {
        t := Eof;
      } else if text[s] in "|();&<" {
        t := Sym(text[s]);
        s := s + 1;
      } else if text[s] == '>' {
        t := Sym('>');
        s := s + 1;
        if s < |text| && text[s] == '>' {
          t := Add;
          s := s + 1;
        }
      } else {
        while s < |text| && !Blank(text[s]) && !Symbol(text[s])
          invariant q <= s <= |text| && WordEnd(text, s) == WordEnd(text, q)
          decreases |text| - s
        {
          s := s + 1;
        }
        t := Word(Span(q, s));
      }
      assert t == TokenAt(text, q) && s == TokenEnd(text, q);
      ghost var e := s;
      while s < |text| && Blank(text[s])
        invariant e <= s <= |text| && SkipBlank(text, s) == SkipBlank(text, e)
        decreases |text| - s
      {
        s := s + 1;
      }
      ps := s;
    }
  
    /** parseredirs: the redirections that follow. */
    method Parseredirs() returns (r: Option<seq<Token>>)
      requires ps <= |text|
      modifies this
      ensures old(ps) <= ps <= |text|
      ensures match TakeRedirs(Tokens(text, old(ps)))
              case None => r.None?
              case Some(x) => r == Some(x.value) && Tokens(text, ps) == x.rest
    {
      hide SkipBlank, Tokens, TokenAt, TokenEnd, Redirs;
      var done := [];
      JoinedNone(TakeRedirs(Tokens(text, ps)));
      while true
        invariant old(ps) <= ps <= |text|
        invariant TakeRedirs(Tokens(text, old(ps))) == Joined(done, TakeRedirs(Tokens(text, ps)))
        decreases |text| - ps
      {
        ghost var p := ps;
        PeekRedir(text, ps);
        var more := Peek("<>");
        if !more {
          RedirsEnd(Tokens(text, p));
          assert done + [] == done;
          return Some(done);
        }
        GetStep(text, ps);
        var tok := Gettoken();
        GetStep(text, ps);
        var file := Gettoken();
        if !file.Word? {
          RedirsFail(Tokens(text, p));
          return None;
        }
        RedirsNext(Tokens(text, p), done);
        done := done + [tok, file];
      }
    }

    /** The part of parseexec behind the test for a block. */
    method Parsesimple() returns (r: Option<Cmd>)
      requires ps <= |text|
      modifies this
      ensures old(ps) <= ps <= |text| && Agrees(text, ps, r, ParseSimple(Tokens(text, old(ps))))
    {
      hide SkipBlank, Tokens, TokenAt, TokenEnd, Redirs, TakeRedirs, TakeArgs, Wrap;
      NoRedirs();
      ghost var t := Tokens(text, ps);
      var first := Parseredirs();
      if first.None? {
        return None;
      }
      var args: seq<Span>, redirs := [], first.value;
      assert [] + redirs == redirs;
      while true
        invariant old(ps) <= ps <= |text| && Redirs(redirs) && |args| < MAXARGS
        invariant TakeMore([], [], t) == TakeArgs(args, redirs, Tokens(text, ps))
        decreases |text| - ps
      {
        ghost var p, t' := ps, Tokens(text, ps);
        PeekEnds(text, ps);
        var ends := Peek("|)&;");
        if ends {
          break;
        }
        GetStep(text, ps);
        var tok := Gettoken();
        if tok == Eof {
          break;
        }
        if !tok.Word? {
          ArgsFail(args, redirs, t');
          return None;
        }
        ArgsNext(args, redirs, t');
        args := args + [tok.span];
        if |args| >= MAXARGS {
          return None;
        }
        var more := Parseredirs();
        if more.None? {
          return None;
        }
        RedirsJoin(redirs, more.value);
        redirs := redirs + more.value;
      }
      ArgsEnd(args, redirs, Tokens(text, ps));
      return Some(Wrap(Exec(args), redirs));
    }
  
    /** parseblock, with its two panics. */
    method Parseblock() returns (r: Option<Cmd>)
      requires ps <= |text|
      modifies this
      ensures old(ps) <= ps <= |text|
      ensures var t := Tokens(text, old(ps));
              if Starts(t, Sym('(')) then Agrees(text, ps, r, ParseBlock(t)) else r.None?
      decreases |text| - ps, 0
    {
      hide SkipBlank, Tokens, TokenAt, TokenEnd, Redirs, TakeRedirs, ParseLine, Wrap;
      ghost var t := Tokens(text, ps);
      PeekSym(text, ps, '(');
      var open := Peek("(");
      if !open {
        return None;
      }
      GetStep(text, ps);
      var x := Gettoken();
      r := Parseline();
      if r.None? {
        return;
      }
      PeekSym(text, ps, ')');
      var close := Peek(")");
      if !close {
        return None;
      }
      GetStep(text, ps);
      x := Gettoken();
      var redirs := Parseredirs();
      if redirs.None? {
        return None;
      }
      return Some(Wrap(r.value, redirs.value));
    }

    method Parseexec() returns (r: Option<Cmd>)
      requires ps <= |text|
      modifies this
      ensures old(ps) <= ps <= |text| && Agrees(text, ps, r, ParseExec(Tokens(text, old(ps))))
      decreases |text| - ps, 1
    {
      hide SkipBlank, Tokens, ParseSimple, ParseBlock;
      PeekSym(text, ps, '(');
      var open := Peek("(");
      if open {
        r := Parseblock();
      } else {
        r := Parsesimple();
      }
    }

    method Parsepipe() returns (r: Option<Cmd>)
      requires ps <= |text|
      modifies this
      ensures old(ps) <= ps <= |text| && Agrees(text, ps, r, ParsePipe(Tokens(text, old(ps))))
      decreases |text| - ps, 2
    {
      hide SkipBlank, Tokens, TokenAt, TokenEnd, ParseExec;
      r := Parseexec();
      if r.None? {
        return;
      }
      PeekSym(text, ps, '|');
      var more := Peek("|");
      if more {
        GetStep(text, ps);
        var x := Gettoken();
        var right := Parsepipe();
        if right.None? {
          return None;
        }
        r := Some(Pipe(r.value, right.value));
      }
    }

    method Parseline() returns (r: Option<Cmd>)
      requires ps <= |text|
      modifies this
      ensures old(ps) <= ps <= |text| && Agrees(text, ps, r, ParseLine(Tokens(text, old(ps))))
      decreases |text| - ps, 3
    {
      hide SkipBlank, Tokens, TokenAt, TokenEnd, ParsePipe;
      r := Parsepipe();
      if r.None? {
        return;
      }
      ghost var first := r.value;
      ghost var t := Tokens(text, ps);
      var amp := true;
      while amp
        invariant old(ps) <= ps <= |text| && r.Some?
        invariant TakeAmps(first, t) == TakeAmps(r.value, Tokens(text, ps))
        invariant !amp ==> !Starts(Tokens(text, ps), Sym('&'))
        decreases |text| - ps, amp
      {
        PeekSym(text, ps, '&');
        amp := Peek("&");
        if amp {
          GetStep(text, ps);
          var x := Gettoken();
          r := Some(Back(r.value));
        }
      }
      PeekSym(text, ps, ';');
      var more := Peek(";");
      if more {
        GetStep(text, ps);
        var x := Gettoken();
        var right := Parseline();
        if right.None? {
          return None;
        }
        r := Some(List(r.value, right.value));
      }
    }
  }

  lemma PeekSym(text: string, p: nat, c: char)
    requires p <= |text| && Symbol(c) && c != '>'
    ensures var q := SkipBlank(text, p);
            && p <= q <= |text| && Tokens(text, q) == Tokens(text, p)
            && (q < |text| && text[q] == c <==> Starts(Tokens(text, p), Sym(c)))
  {
    SkipTokens(text, p);
  }

  /** What a method returns and leaves is what the parsing function says. */
  ghost predicate Agrees(text: string, ps: nat, r: Option<Cmd>, want: Option<Parsed<Cmd>>) {
    match want
    case None => r.None?
    case Some(x) => r == Some(x.value) && ps <= |text| && Tokens(text, ps) == x.rest
  }

  lemma ArgsEnd(args: seq<Span>, redirs: seq<Token>, t: seq<Token>)
    requires Redirs(redirs) && Ends(t)
    ensures TakeArgs(args, redirs, t) == Some(Parsed((args, redirs), t))
  {
  }

  lemma ArgsFail(args: seq<Span>, redirs: seq<Token>, t: seq<Token>)
    requires Redirs(redirs) && !Ends(t) && !t[0].Word?
    ensures TakeArgs(args, redirs, t) == None
  {
  }

  lemma ArgsNext(args: seq<Span>, redirs: seq<Token>, t: seq<Token>)
    requires Redirs(redirs) && !Ends(t) && t[0].Word?
    ensures TakeArgs(args, redirs, t) ==
            if |args| + 1 >= MAXARGS then None else TakeMore(args + [t[0].span], redirs, t[1..])
  {
  }

  lemma PeekEnds(text: string, p: nat)
    requires p <= |text|
    ensures var q := SkipBlank(text, p);
            && p <= q <= |text| && Tokens(text, q) == Tokens(text, p)
            && (q < |text| && text[q] in "|)&;" <==> Tokens(text, p) != [] && Ends(Tokens(text, p)))
  {
    SkipTokens(text, p);
  }

  /** Redirections read before, and what comes next. */
  ghost function Joined(done: seq<Token>, x: Option<Parsed<seq<Token>>>): (r: Option<Parsed<seq<Token>>>) {
    match x
    case None => None
    case Some(y) => Some(Parsed(done + y.value, y.rest))
  }

  lemma JoinedNone(x: Option<Parsed<seq<Token>>>)
    ensures Joined([], x) == x
  {
    if x.Some? {
      assert [] + x.value.value == x.value.value;
    }
  }

  lemma RedirsEnd(t: seq<Token>)
    requires t == [] || !IsRedir(t[0])
    ensures TakeRedirs(t) == Some(Parsed([], t))
  {
  }

  lemma RedirsFail(t: seq<Token>)
    requires t != [] && IsRedir(t[0]) && (|t| == 1 || !t[1].Word?)
    ensures TakeRedirs(t) == None
  {
  }

  lemma RedirsNext(t: seq<Token>, done: seq<Token>)
    requires |t| >= 2 && IsRedir(t[0]) && t[1].Word?
    ensures Joined(done, TakeRedirs(t)) == Joined(done + [t[0], t[1]], TakeRedirs(t[2..]))
  {
    hide TakeRedirs, Redirs;
    TakeRedirsStep(t);
    assert t[..2] == [t[0], t[1]];
    var x := TakeRedirs(t[2..]);
    if x.Some? {
      Append(done, t[..2], x.value.value);
    }
  }

  /** Reading a token takes it from the front of the tokens that are left. */
  lemma GetStep(text: string, p: nat)
    requires p <= |text|
    ensures var q := SkipBlank(text, p); var r := SkipBlank(text, TokenEnd(text, q));
            && p <= q <= r <= |text| && (q < |text| ==> q < r) && (TokenAt(text, q) == Eof <==> Tokens(text, p) == [])
            && (if Tokens(text, p) == [] then TokenAt(text, q) == Eof && Tokens(text, r) == []
                else TokenAt(text, q) == Tokens(text, p)[0] && Tokens(text, r) == Tokens(text, p)[1..] && p < r)
  {
    var q := SkipBlank(text, p);
    if q < |text| {
      NextToken(text, p);
    } else {
      assert SkipBlank(text, q) == q;
    }
  }

  lemma PeekRedir(text: string, p: nat)
    requires p <= |text|
    ensures var q := SkipBlank(text, p);
            && p <= q <= |text| && Tokens(text, q) == Tokens(text, p)
            && (q < |text| && text[q] in "<>" <==> Tokens(text, p) != [] && IsRedir(Tokens(text, p)[0]))
  {
    SkipTokens(text, p);
  }

  /* ---- the strings in the buffer ---- */

  /** The C string that begins at p. */
  function CString(s: string, p: nat): (r: string)
    requires p <= |s|
    ensures p + |r| <= |s| && (p + |r| < |s| ==> s[p + |r|] == '\0')
    ensures r == s[p..p + |r|] && forall k :: p <= k < p + |r| ==> s[k] != '\0'
    decreases |s| - p
  {
    if p == |s| || s[p] == '\0' then [] else
    var t := CString(s, p + 1);
    assert s[p..p + 1 + |t|] == [s[p]] + s[p + 1..p + 1 + |t|];
    [s[p]] + t
  }

  /** Some word of the tree ends at k. */
  ghost predicate EndsAt(c: Cmd, k: nat) {
    exists w :: w in Spans(c) && w.eq == k
  }

  /** nulterminate: a NUL behind every word of the tree, and nothing else. */
  method Nulterminate(buf: array<char>, c: Cmd)
    requires forall w :: w in Spans(c) ==> w.eq < buf.Length
    modifies buf
    ensures forall k :: 0 <= k < buf.Length ==> buf[k] == if EndsAt(c, k) then '\0' else old(buf[k])
    decreases c
  {
    match c
    case Exec(argv) =>
      var i := 0;
      while i < |argv|
        invariant 0 <= i <= |argv|
        invariant forall k :: 0 <= k < buf.Length ==>
                    buf[k] == if exists j :: 0 <= j < i && argv[j].eq == k then '\0' else old(buf[k])
      {
        assert argv[i] in Spans(c);
        buf[argv[i].eq] := '\0';
        i := i + 1;
      }
      forall k | 0 <= k < buf.Length
        ensures EndsAt(c, k) <==> exists j :: 0 <= j < i && argv[j].eq == k
      {
        ExecEnds(argv, k);
      }
    case Redir(d, file, _, _) =>
      Nulterminate(buf, d);
      assert file in Spans(c);
      buf[file.eq] := '\0';
      assert forall k: nat :: EndsAt(c, k) <==> EndsAt(d, k) || file.eq == k;
    case Pipe(l, r) =>
      Nulterminate(buf, l);
      Nulterminate(buf, r);
      assert forall k: nat :: EndsAt(c, k) <==> EndsAt(l, k) || EndsAt(r, k);
    case List(l, r) =>
      Nulterminate(buf, l);
      Nulterminate(buf, r);
      assert forall k: nat :: EndsAt(c, k) <==> EndsAt(l, k) || EndsAt(r, k);
    case Back(d) =>
      Nulterminate(buf, d);
      assert forall k: nat :: EndsAt(c, k) <==> EndsAt(d, k);
  }

  lemma ExecEnds(argv: seq<Span>, k: nat)
    ensures EndsAt(Exec(argv), k) <==> exists j :: 0 <= j < |argv| && argv[j].eq == k
  {
    if EndsAt(Exec(argv), k) {
      var w :| w in Spans(Exec(argv)) && w.eq == k;
      var j :| 0 <= j < |argv| && argv[j] == w;
    }
    if j :| 0 <= j < |argv| && argv[j].eq == k {
      assert argv[j] in Spans(Exec(argv));
    }
  }

  /** The end of a word lies in no word, so each word still reads as it did and then stops. */
  lemma WordsRead(text: string, s: string, r: string, c: Cmd, w: Span)
    requires AllWords(text, c) && w in Spans(c) && |text| < |s| == |r| && text == s[..|text|] && '\0' !in text
    requires forall k :: 0 <= k < |r| ==> r[k] == if EndsAt(c, k) then '\0' else s[k]
    ensures CString(r, w.q) == text[w.q..w.eq]
  {
    hide CString, AllWords, EndsAt, WordChar;
    WordOf(text, c, w);
    forall k: nat | w.q <= k < w.eq
      ensures r[k] == text[k] && text[k] != '\0'
    {
      InsideNoEnd(text, c, w, k);
      assert text[k] == s[k] && text[k] in text;
    }
    StringUpTo(r, w.q, w.eq);
    assert r[w.q..w.eq] == text[w.q..w.eq];
  }

  lemma WordOf(text: string, c: Cmd, w: Span)
    requires AllWords(text, c) && w in Spans(c)
    ensures IsWord(text, w) && EndsAt(c, w.eq)
  {
  }

  lemma InsideNoEnd(text: string, c: Cmd, w: Span, k: nat)
    requires AllWords(text, c) && IsWord(text, w) && w.q <= k < w.eq
    ensures !EndsAt(c, k)
  {
    forall v | v in Spans(c)
      ensures v.eq != k
    {
      assert IsWord(text, v);
    }
  }

  lemma {:induction false} StringUpTo(s: string, p: nat, e: nat)
    requires p <= e < |s| && s[e] == '\0' && forall k :: p <= k < e ==> s[k] != '\0'
    ensures CString(s, p) == s[p..e]
    decreases e - p
  {
    if p < e {
      StringUpTo(s, p + 1, e);
      assert s[p..e] == [s[p]] + s[p + 1..e];
    }
  }

  /**
  parsecmd.  A line is accepted exactly if the grammar derives it; then every argument and every
  file name of the tree is a whole word of the line, and reads as that word in the buffer.
  */
  method Parsecmd(buf: array<char>, ghost text: string) returns (r: Option<Cmd>)
    requires text == CString(buf[..], 0) && |text| < buf.Length
    modifies buf
    ensures r.None? ==> buf[..] == old(buf[..]) && forall c :: !IsLine(c, Tokens(text, 0))
    ensures r.Some? ==> IsLine(r.value, Tokens(text, 0))
    ensures r.Some? ==> forall w :: w in Spans(r.value) ==> IsWord(text, w) && CString(buf[..], w.q) == text[w.q..w.eq]
  {
    hide SkipBlank, Tokens, ParseLine, IsLine;
    var es := 0;
    while buf[es] != '\0'
      invariant 0 <= es <= |text|
      decreases |text| - es
    {
      es := es + 1;
    }
    assert es == |text|;
    var line := buf[..es];
    assert line == text;
    ghost var s := buf[..];
    var parser := new Parser(line);
    r := parser.Parseline();
    forall c
      ensures Parse(Tokens(text, 0)) == Some(c) <==> IsLine(c, Tokens(text, 0))
    {
      ParseExact(Tokens(text, 0), c);
    }
    if r.None? {
      return;
    }
    AtEnd(text, parser.ps);
    var x := parser.Peek("");
    if parser.ps != es {
      return None;
    }
    LineWords(text, r.value);
    Nulterminate(buf, r.value);
    forall w | w in Spans(r.value)
      ensures IsWord(text, w) && CString(buf[..], w.q) == text[w.q..w.eq]
    {
      WordsRead(text, s, buf[..], r.value, w);
    }
  }

  lemma AtEnd(text: string, p: nat)
    requires p <= |text|
    ensures SkipBlank(text, p) == |text| <==> Tokens(text, p) == []
  {
  }

  lemma LineWords(text: string, c: Cmd)
    requires IsLine(c, Tokens(text, 0))
    ensures AllWords(text, c) && forall w :: w in Spans(c) ==> w.eq <= |text|
  {
    hide IsLine, Tokens;
    LineSpans(c, Tokens(text, 0));
    TokenWords(text, 0);
  }
}
