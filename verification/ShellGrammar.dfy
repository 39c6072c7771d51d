/** The command language of user/nsh.c: its tokens, its grammar as functions on token
  * sequences, and the round trip with a fully parenthesised printing.
  */
module ShellGrammar {

  const MAXARGS := 10

  predicate IsSpace(c: char) { c == ' ' || c == '\t' || c == '\r' || c == '\n' || c == 11 as char }

  predicate IsSymbol(c: char) { c == '<' || c == '|' || c == '>' || c == '&' || c == ';' || c == '(' || c == ')' }

  predicate IsWordChar(c: char) { !IsSpace(c) && !IsSymbol(c) && c != '\0' }

  // ---- tokens ------------------------------------------------------------------------

  datatype Token = Sym(c: char) | Append | Word(text: string)

  function SkipSpace(s: string): (r: string)
    ensures |r| <= |s| && (r != "" ==> !IsSpace(r[0]))
  {
    if s != "" && IsSpace(s[0]) then SkipSpace(s[1..]) else s
  }

  function WordLength(s: string): (n: nat)
    ensures n <= |s|
  {
    if s == "" || IsSpace(s[0]) || IsSymbol(s[0]) then 0 else 1 + WordLength(s[1..])
  }

  lemma {:induction false} WordLengthIs(s: string)
    ensures var n := WordLength(s);
            && (n < |s| ==> IsSpace(s[n]) || IsSymbol(s[n]))
            && (s != "" && !IsSpace(s[0]) && !IsSymbol(s[0]) ==> n > 0)
            && forall i :: 0 <= i < n ==> !IsSpace(s[i]) && !IsSymbol(s[i])
  {
    if s != "" && !IsSpace(s[0]) && !IsSymbol(s[0]) {
      WordLengthIs(s[1..]);
      var n := WordLength(s[1..]);
      forall i | 0 < i < 1 + n ensures !IsSpace(s[i]) && !IsSymbol(s[i]) { assert s[i] == s[1..][i - 1]; }
      assert 1 + n < |s| ==> s[1 + n] == s[1..][n];
    }
  }

  datatype Lexed = End | Got(token: Token, rest: string)

  /** The first token of a text, and what follows it. */
  function First(s: string): (r: Lexed)
    ensures r.Got? ==> |r.rest| < |s|
  {
    var t := SkipSpace(s);
    WordLengthIs(t);
    if t == "" then End
    else if t[0] == '>' && |t| > 1 && t[1] == '>' then Got(Append, t[2..])
    else if IsSymbol(t[0]) then Got(Sym(t[0]), t[1..])
    else Got(Word(t[..WordLength(t)]), t[WordLength(t)..])
  }

  function Tokens(s: string): seq<Token>
    decreases |s|
  {
    match First(s)
    case End => []
    case Got(t, rest) => [t] + Tokens(rest)
  }

  // ---- commands ------------------------------------------------------------------------

  datatype Direction =
    | In                               // O_RDONLY on descriptor 0
    | Out                              // O_WRONLY | O_CREATE on descriptor 1

  datatype Cmd<T> =
    | Exec(args: seq<T>)
    | Redir(cmd: Cmd<T>, file: T, dir: Direction)
    | Pipe(left: Cmd<T>, right: Cmd<T>)
    | List(left: Cmd<T>, right: Cmd<T>)
    | Back(cmd: Cmd<T>)

  datatype Parsed<T> = Ok(value: T) | Panic(msg: string)

  predicate Starts(ts: seq<Token>, c: char) { ts != [] && ts[0] == Sym(c) }

  predicate StartsRedir(ts: seq<Token>) { ts != [] && (ts[0] == Sym('<') || ts[0] == Sym('>') || ts[0] == Append) }

  predicate EndsExec(ts: seq<Token>) { Starts(ts, '|') || Starts(ts, ')') || Starts(ts, '&') || Starts(ts, ';') }

  function Wrap<T>(cmd: Cmd<T>, rs: seq<(T, Direction)>): Cmd<T>
    decreases |rs|
  {
    if rs == [] then cmd else Redir(Wrap(cmd, rs[..|rs| - 1]), rs[|rs| - 1].0, rs[|rs| - 1].1)
  }

  /** What is left is shorter. */
  predicate Consumes<T>(r: Parsed<(T, seq<Token>)>, ts: seq<Token>) { r.Ok? ==> |r.value.1| <= |ts| }

  function Redirs(rs: seq<(string, Direction)>, ts: seq<Token>): (r: Parsed<(seq<(string, Direction)>, seq<Token>)>)
    ensures Consumes(r, ts)
    decreases |ts|
  {
    if !StartsRedir(ts) then Ok((rs, ts))
    else if |ts| < 2 || !ts[1].Word? then Panic("missing file for redir")
    else Redirs(rs + [(ts[1].text, if ts[0] == Sym('<') then In else Out)], ts[2..])
  }

  function Args(args: seq<string>, rs: seq<(string, Direction)>, ts: seq<Token>): (r: Parsed<(Cmd<string>, seq<Token>)>)
    ensures Consumes(r, ts)
    decreases |ts|
  {
    if ts == [] || EndsExec(ts) then Ok((Wrap(Exec(args), rs), ts))
    else if !ts[0].Word? then Panic("syntax")
    else if |args| + 1 >= MAXARGS then Panic("too many args")
    else
      match Redirs(rs, ts[1..])
      case Panic(e) => Panic(e)
      case Ok((more, rest)) => Args(args + [ts[0].text], more, rest)
  }

  function ExecPart(ts: seq<Token>): (r: Parsed<(Cmd<string>, seq<Token>)>)
    ensures Consumes(r, ts)
    decreases |ts|, 1
  {
    if Starts(ts, '(') then Block(ts)
    else
      match Redirs([], ts)
      case Panic(e) => Panic(e)
      case Ok((rs, rest)) => Args([], rs, rest)
  }

  function Block(ts: seq<Token>): (r: Parsed<(Cmd<string>, seq<Token>)>)
    requires Starts(ts, '(')
    ensures Consumes(r, ts)
    decreases |ts|, 0
  {
    match Line(ts[1..])
    case Panic(e) => Panic(e)
    case Ok((cmd, rest)) =>
      if !Starts(rest, ')') then Panic("syntax ) missing")
      else
        match Redirs([], rest[1..])
        case Panic(e) => Panic(e)
        case Ok((rs, rest')) => Ok((Wrap(cmd, rs), rest'))
  }

  function PipePart(ts: seq<Token>): (r: Parsed<(Cmd<string>, seq<Token>)>)
    ensures Consumes(r, ts)
    decreases |ts|, 2
  {
    match ExecPart(ts)
    case Panic(e) => Panic(e)
    case Ok((cmd, rest)) =>
      if !Starts(rest, '|') then Ok((cmd, rest))
      else
        match PipePart(rest[1..])
        case Panic(e) => Panic(e)
        case Ok((right, rest')) => Ok((Pipe(cmd, right), rest'))
  }

  function Backs<T>(cmd: Cmd<T>, ts: seq<Token>): (r: (Cmd<T>, seq<Token>))
    ensures |r.1| <= |ts| && !Starts(r.1, '&')
    decreases |ts|
  {
    if Starts(ts, '&') then Backs(Back(cmd), ts[1..]) else (cmd, ts)
  }

  function Line(ts: seq<Token>): (r: Parsed<(Cmd<string>, seq<Token>)>)
    ensures Consumes(r, ts)
    decreases |ts|, 3
  {
    match PipePart(ts)
    case Panic(e) => Panic(e)
    case Ok((first, rest0)) =>
      var (cmd, rest) := Backs(first, rest0);
      if !Starts(rest, ';') then Ok((cmd, rest))
      else
        match Line(rest[1..])
        case Panic(e) => Panic(e)
        case Ok((right, rest')) => Ok((List(cmd, right), rest'))
  }

  /** parse_cmd on a whole text. */
  function Command(s: string): Parsed<Cmd<string>> {
    match Line(Tokens(s))
    case Panic(e) => Panic(e)
    case Ok((cmd, rest)) => if rest == [] then Ok(cmd) else Panic("syntax")
  }

  // ---- printing -------------------------------------------------------------------------

  function WordTokens(ws: seq<string>): seq<Token> { seq(|ws|, i requires 0 <= i < |ws| => Word(ws[i])) }

  function Paren(c: Cmd<string>): seq<Token>
    decreases c, 1
  {
    [Sym('(')] + Printed(c) + [Sym(')')]
  }

  /** Every sub-command in parentheses. */
  function Printed(c: Cmd<string>): seq<Token>
    decreases c, 0
  {
    match c
    case Exec(args) => WordTokens(args)
    case Redir(cmd, file, dir) => Paren(cmd) + [Sym(if dir == In then '<' else '>'), Word(file)]
    case Pipe(l, r) => Paren(l) + [Sym('|')] + Paren(r)
    case List(l, r) => Paren(l) + [Sym(';')] + Paren(r)
    case Back(cmd) => Paren(cmd) + [Sym('&')]
  }

  predicate PlainWord(w: string) { w != "" && forall i :: 0 <= i < |w| ==> IsWordChar(w[i]) }

  /** Fewer than MAXARGS words to a command, each a word of the language. */
  predicate Printable(c: Cmd<string>) {
    match c
    case Exec(args) => |args| < MAXARGS && forall i :: 0 <= i < |args| ==> PlainWord(args[i])
    case Redir(cmd, file, _) => PlainWord(file) && Printable(cmd)
    case Pipe(l, r) => Printable(l) && Printable(r)
    case List(l, r) => Printable(l) && Printable(r)
    case Back(cmd) => Printable(cmd)
  }

  predicate Closed(rest: seq<Token>) { rest == [] || rest[0] == Sym(')') }

  lemma {:induction false} ArgsBack(done: seq<string>, more: seq<string>, rest: seq<Token>)
    requires |done| + |more| < MAXARGS && Closed(rest)
    ensures Args(done, [], WordTokens(more) + rest) == Ok((Exec(done + more), rest))
    decreases |more|
  {
    var ts := WordTokens(more) + rest;
    if more == [] {
      assert ts == rest && done + more == done;
    } else {
      assert ts[0] == Word(more[0]) && ts[1..] == WordTokens(more[1..]) + rest;
      assert !StartsRedir(ts[1..]) by {
        if |more| > 1 { assert ts[1] == Word(more[1]); } else { assert ts[1..] == rest; }
      }
      ArgsBack(done + [more[0]], more[1..], rest);
      assert done + [more[0]] + more[1..] == done + more;
    }
  }

  lemma {:induction false} BlockBack(c: Cmd<string>, rest: seq<Token>)
    requires Printable(c)
    ensures Starts(Paren(c) + rest, '(')
    ensures ExecPart(Paren(c) + rest) ==
              match Redirs([], rest) case Panic(e) => Panic(e) case Ok((rs, rest')) => Ok((Wrap(c, rs), rest'))
    decreases c, 2
  {
    var ts := Paren(c) + rest;
    assert ts[1..] == Printed(c) + ([Sym(')')] + rest);
    LineBack(c, [Sym(')')] + rest);
    assert ([Sym(')')] + rest)[1..] == rest;
  }

  lemma {:induction false} BlockAlone(c: Cmd<string>, rest: seq<Token>)
    requires Printable(c) && !StartsRedir(rest)
    ensures ExecPart(Paren(c) + rest) == Ok((c, rest))
    decreases c, 3
  {
    BlockBack(c, rest);
  }

  lemma {:induction false} PipeBack(l: Cmd<string>, r: Cmd<string>, rest: seq<Token>)
    requires Printable(l) && Printable(r) && Closed(rest)
    ensures Line(Paren(l) + [Sym('|')] + Paren(r) + rest) == Ok((Pipe(l, r), rest))
    decreases Pipe(l, r), 0
  {
    hide ExecPart, Paren;
    var right := Paren(r) + rest;
    var more := [Sym('|')] + right;
    assert more[1..] == right;
    BlockAlone(l, more);
    BlockAlone(r, rest);
    assert PipePart(right) == Ok((r, rest));
    assert Paren(l) + [Sym('|')] + Paren(r) + rest == Paren(l) + more;
    assert PipePart(Paren(l) + more) == Ok((Pipe(l, r), rest));
  }

  lemma {:induction false} ListBack(l: Cmd<string>, r: Cmd<string>, rest: seq<Token>)
    requires Printable(l) && Printable(r) && Closed(rest)
    ensures Line(Paren(l) + [Sym(';')] + Paren(r) + rest) == Ok((List(l, r), rest))
    decreases List(l, r), 0
  {
    hide ExecPart, Paren;
    var right := Paren(r) + rest;
    var more := [Sym(';')] + right;
    assert more[1..] == right;
    BlockAlone(l, more);
    BlockAlone(r, rest);
    assert Line(right) == Ok((r, rest)) by { assert PipePart(right) == Ok((r, rest)); }
    assert Paren(l) + [Sym(';')] + Paren(r) + rest == Paren(l) + more;
    assert PipePart(Paren(l) + more) == Ok((l, more));
  }

  lemma {:induction false} BackBack(c: Cmd<string>, rest: seq<Token>)
    requires Printable(c) && Closed(rest)
    ensures Line(Paren(c) + [Sym('&')] + rest) == Ok((Back(c), rest))
    decreases Back(c), 0
  {
    hide ExecPart, Paren;
    var more := [Sym('&')] + rest;
    assert more[1..] == rest;
    BlockAlone(c, more);
    assert Paren(c) + [Sym('&')] + rest == Paren(c) + more;
    assert PipePart(Paren(c) + more) == Ok((c, more));
    assert Backs(c, more) == (Back(c), rest);
  }

  lemma {:induction false} RedirLine(c: Cmd<string>, file: string, dir: Direction, rest: seq<Token>)
    requires Printable(c) && Closed(rest)
    ensures Line(Paren(c) + [Sym(if dir == In then '<' else '>'), Word(file)] + rest) == Ok((Redir(c, file, dir), rest))
    decreases Redir(c, file, dir), 0
  {
    hide Paren;
    var more := [Sym(if dir == In then '<' else '>'), Word(file)] + rest;
    assert Paren(c) + [Sym(if dir == In then '<' else '>'), Word(file)] + rest == Paren(c) + more;
    BlockBack(c, more);
    RedirBack(c, file, dir, rest);
    assert PipePart(Paren(c) + more) == Ok((Redir(c, file, dir), rest));
  }

  lemma ExecLine(args: seq<string>, rest: seq<Token>)
    requires |args| < MAXARGS && Closed(rest)
    ensures Line(WordTokens(args) + rest) == Ok((Exec(args), rest))
  {
    hide Args, WordTokens;
    var ts := WordTokens(args) + rest;
    assert !StartsRedir(ts) && !Starts(ts, '(') by { WordsFirst(args, rest); }
    ArgsBack([], args, rest);
    assert [] + args == args;
    assert PipePart(ts) == Ok((Exec(args), rest));
  }

  lemma WordsFirst(args: seq<string>, rest: seq<Token>)
    requires Closed(rest)
    ensures !StartsRedir(WordTokens(args) + rest) && !Starts(WordTokens(args) + rest, '(')
  {
    if args == [] {
      assert WordTokens(args) + rest == rest;
    } else {
      assert (WordTokens(args) + rest)[0] == Word(args[0]);
    }
  }

  /** Parsing a printed command, up to the end or a closing parenthesis, gives it back. */
  lemma {:induction false} LineBack(c: Cmd<string>, rest: seq<Token>)
    requires Printable(c) && Closed(rest)
    ensures Line(Printed(c) + rest) == Ok((c, rest))
    decreases c, 1
  {
    hide Line, Paren;
    match c
    case Exec(args) => ExecLine(args, rest);
    case Redir(cmd, file, dir) => RedirLine(cmd, file, dir, rest);
    case Pipe(l, r) => PipeBack(l, r, rest);
    case List(l, r) => ListBack(l, r, rest);
    case Back(cmd) => BackBack(cmd, rest);
  }

  lemma RedirBack(cmd: Cmd<string>, file: string, dir: Direction, rest: seq<Token>)
    requires Closed(rest)
    ensures var more := [Sym(if dir == In then '<' else '>'), Word(file)] + rest;
            Redirs([], more) == Ok(([(file, dir)], rest)) && Wrap(cmd, [(file, dir)]) == Redir(cmd, file, dir)
  {
    var more := [Sym(if dir == In then '<' else '>'), Word(file)] + rest;
    assert more[2..] == rest && [] + [(file, dir)] == [(file, dir)];
    assert Redirs([(file, dir)], rest) == Ok(([(file, dir)], rest));
    assert [(file, dir)][..0] == [];
  }

  // ---- text ---------------------------------------------------------------------------

  function Show(t: Token): string {
    match t
    case Sym(c) => [c]
    case Append => ">>"
    case Word(w) => w
  }

  /** The tokens as text, each followed by a space. */
  function Render(ts: seq<Token>): string { if ts == [] then "" else Show(ts[0]) + " " + Render(ts[1..]) }

  predicate PlainToken(t: Token) {
    match t
    case Sym(c) => IsSymbol(c)
    case Append => true
    case Word(w) => PlainWord(w)
  }

  lemma LeadingSpace(s: string)
    ensures First(" " + s) == First(s)
  {
    assert (" " + s)[1..] == s;
  }

  lemma {:induction false} WordStops(w: string, s: string)
    requires forall i :: 0 <= i < |w| ==> IsWordChar(w[i])
    ensures WordLength(w + " " + s) == |w|
    decreases |w|
  {
    var t := w + " " + s;
    if w == "" {
      assert t[0] == ' ';
    } else {
      assert t[0] == w[0] && t[1..] == w[1..] + " " + s;
      WordStops(w[1..], s);
    }
  }

  lemma OneToken(t: Token, s: string)
    requires PlainToken(t)
    ensures First(Show(t) + " " + s) == Got(t, " " + s)
  {
    hide WordLength;
    var u := Show(t) + " " + s;
    assert u != "" && u[0] == Show(t)[0] && !IsSpace(u[0]);
    assert SkipSpace(u) == u;
    match t
    case Sym(c) => assert u[1..] == " " + s && u[1] == ' ';
    case Append => assert u[2..] == " " + s && u[0] == '>' && u[1] == '>';
    case Word(w) =>
      WordStops(w, s);
      assert u[..|w|] == w && u[|w|..] == " " + s;
  }

  lemma {:induction false} TokensOfRender(ts: seq<Token>)
    requires forall i :: 0 <= i < |ts| ==> PlainToken(ts[i])
    ensures Tokens(Render(ts)) == ts
    decreases |ts|
  {
    hide First, Show, PlainToken;
    if ts == [] {
      assert First("") == End by { FirstOfNone(); }
    } else {
      var s := Render(ts[1..]);
      OneToken(ts[0], s);
      LeadingSpace(s);
      TokensOfRender(ts[1..]);
      assert Tokens(" " + s) == Tokens(s);
      assert [ts[0]] + ts[1..] == ts;
    }
  }

  lemma FirstOfNone()
    ensures First("") == End
  {
  }

  lemma {:induction false} PrintedPlain(c: Cmd<string>)
    requires Printable(c)
    ensures forall i :: 0 <= i < |Printed(c)| ==> PlainToken(Printed(c)[i])
    ensures forall i :: 0 <= i < |Paren(c)| ==> PlainToken(Paren(c)[i])
  {
    match c
    case Exec(args) =>
    case Redir(cmd, _, _) => PrintedPlain(cmd);
    case Pipe(l, r) => PrintedPlain(l); PrintedPlain(r);
    case List(l, r) => PrintedPlain(l); PrintedPlain(r);
    case Back(cmd) => PrintedPlain(cmd);
  }

  /** Parsing the printed text of any command gives the command back. */
  lemma RoundTrip(c: Cmd<string>)
    requires Printable(c)
    ensures Command(Render(Printed(c))) == Ok(c)
  {
    hide Line, Printed, Tokens, Render;
    PrintedPlain(c);
    TokensOfRender(Printed(c));
    LineBack(c, []);
    assert Printed(c) + [] == Printed(c);
  }
}
