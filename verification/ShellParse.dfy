/**
Predictive parsing of the shell's token lists, and the proof that it finds exactly the trees of
the grammar: at most one for each list, and one whenever there is one.
*/
module ShellParse {
  import opened Prelude
  import opened ShellGrammar

  /** A value, and the tokens that are left. */
  datatype Parsed<+T> = Parsed(value: T, rest: seq<Token>)

  predicate Starts(t: seq<Token>, x: Token) {
    t != [] && t[0] == x
  }

  /** The redirections at the front; None when a file name is missing. */
  function TakeRedirs(t: seq<Token>): (r: Option<Parsed<seq<Token>>>)
    ensures r.Some? ==> t == r.value.value + r.value.rest && Redirs(r.value.value)
    ensures r.Some? ==> r.value.rest == [] || !IsRedir(r.value.rest[0])
  {
    if t == [] || !IsRedir(t[0]) then Some(Parsed([], t))
    else if |t| < 2 || !t[1].Word? then None
    else
      match TakeRedirs(t[2..])
      case None => None
      case Some(x) =>
        var all := t[..2] + x.value;
        assert all[2..] == x.value;
        Some(Parsed(all, x.rest))
  }

  /** What may follow a simple command. */
  predicate Ends(t: seq<Token>) {
    t == [] || t[0] == Sym('|') || t[0] == Sym(')') || t[0] == Sym('&') || t[0] == Sym(';')
  }

  lemma {:induction false} RedirsJoin(a: seq<Token>, b: seq<Token>)
    requires Redirs(a) && Redirs(b)
    ensures Redirs(a + b)
  {
    if a == [] {
      assert a + b == b;
    } else {
      RedirsJoin(a[2..], b);
      assert (a + b)[2..] == a[2..] + b;
    }
  }

  /** The arguments of a command, and the redirections between them, after some have been read. */
  function TakeArgs(args: seq<Span>, redirs: seq<Token>, t: seq<Token>): (r: Option<Parsed<(seq<Span>, seq<Token>)>>)
    requires Redirs(redirs)
    ensures r.Some? ==> |r.value.rest| <= |t| && Redirs(r.value.value.1)
    decreases |t|, 0
  {
    if Ends(t) then Some(Parsed((args, redirs), t))
    else if !t[0].Word? || |args| + 1 >= MAXARGS then None
    else TakeMore(args + [t[0].span], redirs, t[1..])
  }

  function TakeMore(args: seq<Span>, redirs: seq<Token>, t: seq<Token>): (r: Option<Parsed<(seq<Span>, seq<Token>)>>)
    requires Redirs(redirs)
    ensures r.Some? ==> |r.value.rest| <= |t| && Redirs(r.value.value.1)
    decreases |t|, 1
  {
    match TakeRedirs(t)
    case None => None
    case Some(x) => RedirsJoin(redirs, x.value); TakeArgs(args, redirs + x.value, x.rest)
  }

  function ParseSimple(t: seq<Token>): (r: Option<Parsed<Cmd>>)
    ensures r.Some? ==> |r.value.rest| <= |t|
  {
    match TakeMore([], [], t)
    case None => None
    case Some(y) => Some(Parsed(Wrap(Exec(y.value.0), y.value.1), y.rest))
  }

  function ParseBlock(t: seq<Token>): (r: Option<Parsed<Cmd>>)
    requires Starts(t, Sym('('))
    ensures r.Some? ==> |r.value.rest| < |t|
    decreases |t|, 0
  {
    match ParseLine(t[1..])
    case None => None
    case Some(x) =>
      if !Starts(x.rest, Sym(')')) then None else
      match TakeRedirs(x.rest[1..])
      case None => None
      case Some(y) => Some(Parsed(Wrap(x.value, y.value), y.rest))
  }

  function ParseExec(t: seq<Token>): (r: Option<Parsed<Cmd>>)
    ensures r.Some? ==> |r.value.rest| <= |t|
    decreases |t|, 1
  {
    if Starts(t, Sym('(')) then ParseBlock(t) else ParseSimple(t)
  }

  function ParsePipe(t: seq<Token>): (r: Option<Parsed<Cmd>>)
    ensures r.Some? ==> |r.value.rest| <= |t|
    decreases |t|, 2
  {
    match ParseExec(t)
    case None => None
    case Some(x) =>
      if !Starts(x.rest, Sym('|')) then Some(x) else
      match ParsePipe(x.rest[1..])
      case None => None
      case Some(y) => Some(Parsed(Pipe(x.value, y.value), y.rest))
  }

  /** One Back for each '&'. */
  function TakeAmps(c: Cmd, t: seq<Token>): (r: Parsed<Cmd>)
    ensures |r.rest| <= |t|
    decreases |t|
  {
    if Starts(t, Sym('&')) then TakeAmps(Back(c), t[1..]) else Parsed(c, t)
  }

  function ParseLine(t: seq<Token>): (r: Option<Parsed<Cmd>>)
    ensures r.Some? ==> |r.value.rest| <= |t|
    decreases |t|, 3
  {
    match ParsePipe(t)
    case None => None
    case Some(x) =>
      var y := TakeAmps(x.value, x.rest);
      if !Starts(y.rest, Sym(';')) then Some(y) else
      match ParseLine(y.rest[1..])
      case None => None
      case Some(z) => Some(Parsed(List(y.value, z.value), z.rest))
  }

  /** The whole line. */
  function Parse(t: seq<Token>): (r: Option<Cmd>) {
    match ParseLine(t)
    case None => None
    case Some(x) => if x.rest == [] then Some(x.value) else None
  }

  /* ---- whatever the grammar derives is found ---- */

  lemma TakeRedirsStep(t: seq<Token>)
    requires |t| >= 2 && IsRedir(t[0]) && t[1].Word?
    ensures TakeRedirs(t) ==
            match TakeRedirs(t[2..]) case None => None case Some(x) => Some(Parsed(t[..2] + x.value, x.rest))
  {
  }

  lemma {:induction false} RedirsFound(t: seq<Token>, rest: seq<Token>)
    requires Redirs(t) && (rest == [] || !IsRedir(rest[0]))
    ensures TakeRedirs(t + rest) == Some(Parsed(t, rest))
    decreases |t|, 1
  {
    if t == [] {
      assert t + rest == rest;
    } else {
      RedirsFoundMore(t, rest);
    }
  }

  lemma RedirsFoundMore(t: seq<Token>, rest: seq<Token>)
    requires Redirs(t) && t != [] && (rest == [] || !IsRedir(rest[0]))
    ensures TakeRedirs(t + rest) == Some(Parsed(t, rest))
    decreases |t|, 0
  {
    hide TakeRedirs;
    RedirsFound(t[2..], rest);
    TakeRedirsStep(t + rest);
    assert (t + rest)[2..] == t[2..] + rest && (t + rest)[..2] == t[..2];
    assert t[..2] + t[2..] == t;
  }

  lemma OneRedir(t: seq<Token>)
    requires |t| == 2 && IsRedir(t[0]) && t[1].Word?
    ensures Redirs(t)
  {
    assert t[2..] == [];
  }

  /** A redirection at the front goes to the redirections read so far. */
  lemma RedirStep(args: seq<Span>, redirs: seq<Token>, t: seq<Token>)
    requires Redirs(redirs) && |t| >= 2 && IsRedir(t[0]) && t[1].Word?
    ensures Redirs(redirs + t[..2]) && TakeMore(args, redirs, t) == TakeMore(args, redirs + t[..2], t[2..])
  {
    hide TakeRedirs, TakeArgs, Redirs;
    OneRedir(t[..2]);
    RedirsJoin(redirs, t[..2]);
    TakeRedirsStep(t);
    var x := TakeRedirs(t[2..]);
    if x.Some? {
      assert redirs + (t[..2] + x.value.value) == redirs + t[..2] + x.value.value;
    }
  }

  /** A word at the front goes to the arguments. */
  lemma WordStep(args: seq<Span>, redirs: seq<Token>, t: seq<Token>)
    requires Redirs(redirs) && t != [] && t[0].Word? && |args| + 1 < MAXARGS
    ensures TakeMore(args, redirs, t) == TakeMore(args + [t[0].span], redirs, t[1..])
  {
    assert TakeRedirs(t) == Some(Parsed([], t));
    assert redirs + [] == redirs;
  }

  lemma {:induction false} SimpleFound(args: seq<Span>, redirs: seq<Token>, t: seq<Token>, rest: seq<Token>)
    requires Redirs(redirs) && Simple(t) && |args| + |Args(t)| < MAXARGS && Ends(rest)
    ensures TakeMore(args, redirs, t + rest) == Some(Parsed((args + Args(t), redirs + Files(t)), rest))
    decreases |t|, 1
  {
    hide TakeRedirs, TakeMore, TakeArgs, Redirs;
    if t == [] {
      assert t + rest == rest && args + Args(t) == args && redirs + Files(t) == redirs;
      SimpleEnds(args, redirs, rest);
    } else if t[0].Word? {
      WordFound(args, redirs, t, rest);
    } else {
      RedirFound(args, redirs, t, rest);
    }
  }

  lemma WordFound(args: seq<Span>, redirs: seq<Token>, t: seq<Token>, rest: seq<Token>)
    requires Redirs(redirs) && Simple(t) && |args| + |Args(t)| < MAXARGS && Ends(rest) && t != [] && t[0].Word?
    ensures TakeMore(args, redirs, t + rest) == Some(Parsed((args + Args(t), redirs + Files(t)), rest))
    decreases |t|, 0
  {
    hide TakeRedirs, TakeMore, TakeArgs, Redirs, Ends;
    var w := t[0].span;
    assert Args(t) == [w] + Args(t[1..]) && Files(t) == Files(t[1..]);
    SimpleFound(args + [w], redirs, t[1..], rest);
    WordStep(args, redirs, t + rest);
    Tail(t, rest, 1);
    Append(args, [w], Args(t[1..]));
  }

  lemma RedirFound(args: seq<Span>, redirs: seq<Token>, t: seq<Token>, rest: seq<Token>)
    requires Redirs(redirs) && Simple(t) && |args| + |Args(t)| < MAXARGS && Ends(rest) && t != [] && !t[0].Word?
    ensures TakeMore(args, redirs, t + rest) == Some(Parsed((args + Args(t), redirs + Files(t)), rest))
    decreases |t|, 0
  {
    hide TakeRedirs, TakeMore, TakeArgs, Redirs, Ends;
    assert Args(t) == Args(t[2..]) && Files(t) == t[..2] + Files(t[2..]);
    RedirStep(args, redirs, t + rest);
    Tail(t, rest, 2);
    SimpleFound(args, redirs + t[..2], t[2..], rest);
    Append(redirs, t[..2], Files(t[2..]));
  }

  lemma Tail(t: seq<Token>, rest: seq<Token>, k: nat)
    requires k <= |t|
    ensures (t + rest)[k..] == t[k..] + rest && (t + rest)[..k] == t[..k]
  {
  }

  lemma Append<T>(a: seq<T>, b: seq<T>, c: seq<T>)
    ensures a + b + c == a + (b + c)
  {
  }

  lemma SimpleEnds(args: seq<Span>, redirs: seq<Token>, rest: seq<Token>)
    requires Redirs(redirs) && Ends(rest)
    ensures TakeMore(args, redirs, rest) == Some(Parsed((args, redirs), rest))
  {
    assert redirs + [] == redirs;
  }

  lemma SimpleExecFound(c: Cmd, t: seq<Token>, rest: seq<Token>)
    requires IsSimple(c, t) && Ends(rest)
    ensures ParseExec(t + rest) == Some(Parsed(c, rest))
  {
    hide TakeMore, Wrap, Redirs;
    SimpleFound([], [], t, rest) by { NoRedirs(); }
    assert [] + Args(t) == Args(t) && [] + Files(t) == Files(t);
  }

  lemma NoRedirs()
    ensures Redirs([])
  {
  }

  lemma BlockFound(c: Cmd, t: seq<Token>, rest: seq<Token>, d: Cmd, k: nat)
    requires |t| >= 2 && t[0] == Sym('(') && k < |t| && BlockAt(c, t, d, k) && Ends(rest)
    ensures ParseExec(t + rest) == Some(Parsed(c, rest))
    decreases |t|, 0
  {
    hide ParseLine, TakeRedirs, Wrap, Redirs, IsLine;
    LineFound(d, t[1..k], t[k..] + rest);
    assert (t + rest)[1..] == t[1..k] + (t[k..] + rest);
    RedirsFound(t[k + 1..], rest);
    assert (t[k..] + rest)[1..] == t[k + 1..] + rest;
  }

  lemma ExecFound(c: Cmd, t: seq<Token>, rest: seq<Token>)
    requires IsExec(c, t) && Ends(rest)
    ensures ParseExec(t + rest) == Some(Parsed(c, rest))
    decreases |t|, 1
  {
    hide ParseExec, IsSimple;
    if IsSimple(c, t) {
      SimpleExecFound(c, t, rest);
    } else {
      assert IsBlock(c, t);
      var d: Cmd, k: nat :| k < |t| && BlockAt(c, t, d, k);
      BlockFound(c, t, rest, d, k);
    }
  }

  /** What may follow a pipeline. */
  predicate EndsPipe(t: seq<Token>) {
    Ends(t) && !Starts(t, Sym('|'))
  }

  lemma PipeFound(c: Cmd, t: seq<Token>, rest: seq<Token>)
    requires IsPipe(c, t) && EndsPipe(rest)
    ensures ParsePipe(t + rest) == Some(Parsed(c, rest))
    decreases |t|, 3
  {
    if IsExec(c, t) {
      hide ParseExec, IsExec;
      ExecFound(c, t, rest);
    } else {
      var k: nat :| k < |t| && PipeAt(c, t, k);
      PipeFoundAt(c, t, rest, k);
    }
  }

  lemma PipeFoundAt(c: Cmd, t: seq<Token>, rest: seq<Token>, k: nat)
    requires c.Pipe? && k < |t| && PipeAt(c, t, k) && EndsPipe(rest)
    ensures ParsePipe(t + rest) == Some(Parsed(c, rest))
    decreases |t|, 2
  {
    hide ParseExec, IsExec, IsPipe, ParsePipe;
    ExecFound(c.left, t[..k], t[k..] + rest);
    PipeFound(c.right, t[k + 1..], rest);
    assert t + rest == t[..k] + (t[k..] + rest);
    assert (t[k..] + rest)[1..] == t[k + 1..] + rest;
    PipeStep(t + rest, c.left, t[k..] + rest);
  }

  lemma PipeStep(t: seq<Token>, c: Cmd, rest: seq<Token>)
    requires ParseExec(t) == Some(Parsed(c, rest)) && Starts(rest, Sym('|'))
    ensures ParsePipe(t) ==
            match ParsePipe(rest[1..]) case None => None case Some(y) => Some(Parsed(Pipe(c, y.value), y.rest))
  {
  }

  /** A pipeline and the '&' behind it. */
  function ParseBack(t: seq<Token>): (r: Option<Parsed<Cmd>>) {
    match ParsePipe(t)
    case None => None
    case Some(x) => Some(TakeAmps(x.value, x.rest))
  }

  lemma {:induction false} BackFound(c: Cmd, t: seq<Token>, rest: seq<Token>)
    requires IsBack(c, t) && EndsPipe(rest)
    ensures ParseBack(t + rest) == Some(TakeAmps(c, rest))
    decreases |t|, 4
  {
    hide ParsePipe, IsPipe;
    if IsPipe(c, t) {
      PipeFound(c, t, rest);
    } else {
      var u := t[..|t| - 1];
      BackFound(c.cmd, u, [Sym('&')] + rest);
      assert u + ([Sym('&')] + rest) == t + rest;
      assert ([Sym('&')] + rest)[1..] == rest;
    }
  }

  /** What may follow a line. */
  predicate EndsLine(t: seq<Token>) {
    t == [] || t[0] == Sym(')')
  }

  lemma LineFound(c: Cmd, t: seq<Token>, rest: seq<Token>)
    requires IsLine(c, t) && EndsLine(rest)
    ensures ParseLine(t + rest) == Some(Parsed(c, rest))
    decreases |t|, 6
  {
    if IsBack(c, t) {
      hide ParsePipe, IsBack;
      BackFound(c, t, rest);
    } else {
      var k: nat :| k < |t| && ListAt(c, t, k);
      LineFoundAt(c, t, rest, k);
    }
  }

  lemma LineFoundAt(c: Cmd, t: seq<Token>, rest: seq<Token>, k: nat)
    requires c.List? && k < |t| && ListAt(c, t, k) && EndsLine(rest)
    ensures ParseLine(t + rest) == Some(Parsed(c, rest))
    decreases |t|, 5
  {
    hide ParsePipe, IsBack, IsLine, ParseLine;
    BackFound(c.left, t[..k], t[k..] + rest);
    LineFound(c.right, t[k + 1..], rest);
    assert t + rest == t[..k] + (t[k..] + rest);
    assert (t[k..] + rest)[1..] == t[k + 1..] + rest;
    LineStep(t + rest, c.left, t[k..] + rest);
  }

  lemma LineStep(t: seq<Token>, c: Cmd, rest: seq<Token>)
    requires ParseBack(t) == Some(Parsed(c, rest)) && Starts(rest, Sym(';'))
    ensures ParseLine(t) ==
            match ParseLine(rest[1..]) case None => None case Some(z) => Some(Parsed(List(c, z.value), z.rest))
  {
  }

  /* ---- whatever is found is derived by the grammar ---- */

  lemma {:induction false} SimpleSound(args: seq<Span>, redirs: seq<Token>, t: seq<Token>) returns (u: seq<Token>)
    requires Redirs(redirs) && TakeMore(args, redirs, t).Some? && |args| < MAXARGS
    ensures var y := TakeMore(args, redirs, t).value;
            t == u + y.rest && Simple(u) && y.value == (args + Args(u), redirs + Files(u)) && |args + Args(u)| < MAXARGS
    decreases |t|
  {
    hide TakeRedirs, TakeMore, TakeArgs, Redirs, Ends;
    SimpleCases(args, redirs, t);
    if Ends(t) {
      u := [];
      SimpleEnds(args, redirs, t);
      assert args + Args(u) == args && redirs + Files(u) == redirs;
    } else if t[0].Word? {
      WordStep(args, redirs, t);
      var v := SimpleSound(args + [t[0].span], redirs, t[1..]);
      u := [t[0]] + v;
      assert u[1..] == v;
      assert args + [t[0].span] + Args(v) == args + Args(u);
    } else {
      RedirStep(args, redirs, t);
      var v := SimpleSound(args, redirs + t[..2], t[2..]);
      u := t[..2] + v;
      assert u[2..] == v && u[..2] == t[..2];
      assert redirs + t[..2] + Files(v) == redirs + Files(u);
    }
  }

  lemma SimpleCases(args: seq<Span>, redirs: seq<Token>, t: seq<Token>)
    requires Redirs(redirs) && TakeMore(args, redirs, t).Some?
    ensures Ends(t) || (t != [] && t[0].Word? && |args| + 1 < MAXARGS) || (|t| >= 2 && IsRedir(t[0]) && t[1].Word?)
  {
  }

  lemma ExecSound(t: seq<Token>) returns (u: seq<Token>)
    requires ParseExec(t).Some?
    ensures t == u + ParseExec(t).value.rest && IsExec(ParseExec(t).value.value, u)
    decreases |t|, 1
  {
    if Starts(t, Sym('(')) {
      u := BlockSound(t);
    } else {
      NoRedirs();
      hide TakeMore, Redirs, Wrap;
      u := SimpleSound([], [], t);
      assert [] + Args(u) == Args(u) && [] + Files(u) == Files(u);
      assert IsSimple(ParseExec(t).value.value, u);
    }
  }

  lemma BlockSound(t: seq<Token>) returns (u: seq<Token>)
    requires Starts(t, Sym('(')) && ParseBlock(t).Some?
    ensures t == u + ParseBlock(t).value.rest && IsBlock(ParseBlock(t).value.value, u)
    decreases |t|, 0
  {
    hide ParseLine, TakeRedirs, Redirs, Wrap, IsLine;
    var x := ParseLine(t[1..]).value;
    var v := LineSound(t[1..]);
    var r := TakeRedirs(x.rest[1..]).value.value;
    u := [t[0]] + v + [Sym(')')] + r;
    assert t == [t[0]] + t[1..] && x.rest == [x.rest[0]] + x.rest[1..];
    var k := |v| + 1;
    assert u[1..k] == v && u[k + 1..] == r;
    assert BlockAt(ParseBlock(t).value.value, u, x.value, k);
  }

  lemma PipeSound(t: seq<Token>) returns (u: seq<Token>)
    requires ParsePipe(t).Some?
    ensures t == u + ParsePipe(t).value.rest && IsPipe(ParsePipe(t).value.value, u)
    decreases |t|, 2
  {
    hide ParseExec, IsExec, IsPipe;
    var x := ParseExec(t).value;
    u := ExecSound(t);
    if Starts(x.rest, Sym('|')) {
      var v := PipeSound(x.rest[1..]);
      PipeDerived(x.value, u, ParsePipe(x.rest[1..]).value.value, v);
      assert x.rest == [Sym('|')] + x.rest[1..];
      u := u + [Sym('|')] + v;
    } else {
      PipeIsExec(x.value, u);
    }
  }

  lemma PipeDerived(c: Cmd, u: seq<Token>, d: Cmd, v: seq<Token>)
    requires IsExec(c, u) && IsPipe(d, v)
    ensures IsPipe(Pipe(c, d), u + [Sym('|')] + v)
  {
    hide IsExec;
    var w := u + [Sym('|')] + v;
    assert w[..|u|] == u && w[|u| + 1..] == v;
    assert PipeAt(Pipe(c, d), w, |u|);
  }

  lemma PipeIsExec(c: Cmd, t: seq<Token>)
    requires IsExec(c, t)
    ensures IsPipe(c, t)
  {
    hide IsExec;
  }

  lemma {:induction false} AmpsSound(c: Cmd, u: seq<Token>, t: seq<Token>) returns (v: seq<Token>)
    requires IsBack(c, u)
    ensures u + t == v + TakeAmps(c, t).rest && IsBack(TakeAmps(c, t).value, v)
    decreases |t|
  {
    hide IsBack;
    v := u;
    if Starts(t, Sym('&')) {
      var w := u + [Sym('&')];
      AmpersandBack(c, u);
      v := AmpsSound(Back(c), w, t[1..]);
      assert u + t == w + t[1..];
    }
  }

  lemma AmpersandBack(c: Cmd, u: seq<Token>)
    requires IsBack(c, u)
    ensures IsBack(Back(c), u + [Sym('&')])
  {
    hide IsPipe;
    var w := u + [Sym('&')];
    assert w[..|w| - 1] == u;
  }

  lemma LineSound(t: seq<Token>) returns (u: seq<Token>)
    requires ParseLine(t).Some?
    ensures t == u + ParseLine(t).value.rest && IsLine(ParseLine(t).value.value, u)
    decreases |t|, 3
  {
    hide ParsePipe, IsBack, IsLine, TakeAmps;
    var x := ParsePipe(t).value;
    var p := PipeSound(t);
    BackIsPipe(x.value, p);
    var y := TakeAmps(x.value, x.rest);
    u := AmpsSound(x.value, p, x.rest);
    if Starts(y.rest, Sym(';')) {
      var v := LineSound(y.rest[1..]);
      ListDerived(y.value, u, ParseLine(y.rest[1..]).value.value, v);
      assert y.rest == [Sym(';')] + y.rest[1..];
      u := u + [Sym(';')] + v;
    } else {
      LineIsBack(y.value, u);
    }
  }

  lemma ListDerived(c: Cmd, u: seq<Token>, d: Cmd, v: seq<Token>)
    requires IsBack(c, u) && IsLine(d, v)
    ensures IsLine(List(c, d), u + [Sym(';')] + v)
  {
    hide IsBack;
    var w := u + [Sym(';')] + v;
    assert w[..|u|] == u && w[|u| + 1..] == v;
    assert ListAt(List(c, d), w, |u|);
  }

  lemma LineIsBack(c: Cmd, t: seq<Token>)
    requires IsBack(c, t)
    ensures IsLine(c, t)
  {
    hide IsBack;
  }

  lemma BackIsPipe(c: Cmd, t: seq<Token>)
    requires IsPipe(c, t)
    ensures IsBack(c, t)
  {
  }

  /** The parser accepts a line exactly if the grammar derives it, and finds the only tree. */
  lemma ParseExact(t: seq<Token>, c: Cmd)
    ensures Parse(t) == Some(c) <==> IsLine(c, t)
  {
    hide ParseLine, IsLine;
    if Parse(t) == Some(c) {
      var u := LineSound(t);
      assert u + [] == u;
    }
    if IsLine(c, t) {
      LineFound(c, t, []);
      assert t + [] == t;
    }
  }
}
