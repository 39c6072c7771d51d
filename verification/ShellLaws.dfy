/** What the grammar of user/nsh.c means for lines as people type them: plain commands with their
  * redirections anywhere, and commands printed with parentheses only where they are needed.
  */
module ShellLaws {
  import opened ShellGrammar
  import opened Shell

  // ---- plain commands --------------------------------------------------------------------------

  /** A word of a plain command, or a redirection: "<", ">" or ">>" and a file. */
  datatype Item = Arg(text: string) | From(file: string) | To(file: string) | AppendTo(file: string)

  function ItemTokens(items: seq<Item>): seq<Token> {
    if items == [] then []
    else
      (match items[0]
       case Arg(w) => [Word(w)]
       case From(f) => [Sym('<'), Word(f)]
       case To(f) => [Sym('>'), Word(f)]
       case AppendTo(f) => [Append, Word(f)]) + ItemTokens(items[1..])
  }

  /** The words of the line. */
  function ArgsOf(items: seq<Item>): seq<string> {
    if items == [] then [] else (if items[0].Arg? then [items[0].text] else []) + ArgsOf(items[1..])
  }

  /** The command in the redirections of the line, the first one innermost. */
  function Around(cmd: Cmd<string>, items: seq<Item>): Cmd<string>
    decreases |items|
  {
    if items == [] then cmd
    else
      match items[0]
      case Arg(_) => Around(cmd, items[1..])
      case From(f) => Around(Redir(cmd, f, In), items[1..])
      case To(f) => Around(Redir(cmd, f, Out), items[1..])
      case AppendTo(f) => Around(Redir(cmd, f, Out), items[1..])
  }

  /** What ends a plain command. */
  predicate Ended(rest: seq<Token>) {
    rest == [] || rest[0] == Sym('|') || rest[0] == Sym(')') || rest[0] == Sym('&') || rest[0] == Sym(';')
  }

  lemma WrapMore(cmd: Cmd<string>, rs: seq<(string, Direction)>, r: (string, Direction))
    ensures Wrap(cmd, rs + [r]) == Redir(Wrap(cmd, rs), r.0, r.1)
  {
    assert (rs + [r])[..|rs|] == rs;
  }

  /** Redirs takes a redirection and goes on. */
  lemma RedirsStep(rs: seq<(string, Direction)>, t: Token, f: string, rest: seq<Token>)
    requires t == Sym('<') || t == Sym('>') || t == Append
    ensures Redirs(rs, [t, Word(f)] + rest) == Redirs(rs + [(f, if t == Sym('<') then In else Out)], rest)
  {
    assert ([t, Word(f)] + rest)[2..] == rest;
  }

  /** The loop of parse_exec, between two words. */
  function Loop(args: seq<string>, rs: seq<(string, Direction)>, ts: seq<Token>): Parsed<(Cmd<string>, seq<Token>)> {
    match Redirs(rs, ts)
    case Panic(e) => Panic(e)
    case Ok((more, rest)) => Args(args, more, rest)
  }

  lemma LoopEnd(args: seq<string>, rs: seq<(string, Direction)>, rest: seq<Token>)
    requires Ended(rest)
    ensures Loop(args, rs, rest) == Ok((Wrap(Exec(args), rs), rest))
  {
  }

  lemma LoopWord(args: seq<string>, rs: seq<(string, Direction)>, w: string, rest: seq<Token>)
    ensures Loop(args, rs, [Word(w)] + rest) ==
              if |args| + 1 < MAXARGS then Loop(args + [w], rs, rest) else Panic("too many args")
  {
    assert ([Word(w)] + rest)[1..] == rest;
  }

  lemma RedirItem(items: seq<Item>, t: Token, f: string)
    requires items != [] && !items[0].Arg?
    requires (t, f) == match items[0] case From(g) => (Sym('<'), g) case To(g) => (Sym('>'), g)
                       case AppendTo(g) => (Append, g)
    ensures ItemTokens(items) == [t, Word(f)] + ItemTokens(items[1..]) && ArgsOf(items) == ArgsOf(items[1..])
  {
  }

  lemma {:induction false} LoopItems(args: seq<string>, rs: seq<(string, Direction)>, items: seq<Item>,
        rest: seq<Token>)
    requires Ended(rest) && |args| < 10
    ensures Loop(args, rs, ItemTokens(items) + rest) ==
              if |args| + |ArgsOf(items)| < 10 then Ok((Around(Wrap(Exec(args + ArgsOf(items)), rs), items), rest))
              else Panic("too many args")
    decreases |items|
  {
    hide Loop, Wrap, Redirs;
    if items == [] {
      assert ItemTokens(items) + rest == rest && args + [] == args;
      LoopEnd(args, rs, rest);
    } else {
      var more := ItemTokens(items[1..]) + rest;
      match items[0]
      case Arg(w) =>
        assert ItemTokens(items) + rest == [Word(w)] + more;
        LoopWord(args, rs, w, more);
        if |args| + 1 < 10 { LoopItems(args + [w], rs, items[1..], rest); }
        assert args + [w] + ArgsOf(items[1..]) == args + ArgsOf(items);
      case From(f) => LoopRedir(args, rs, items, Sym('<'), f, In, rest);
      case To(f) => LoopRedir(args, rs, items, Sym('>'), f, Out, rest);
      case AppendTo(f) => LoopRedir(args, rs, items, Append, f, Out, rest);
    }
  }

  lemma {:induction false} LoopRedir(args: seq<string>, rs: seq<(string, Direction)>, items: seq<Item>, t: Token,
        f: string, dir: Direction, rest: seq<Token>)
    requires Ended(rest) && |args| < 10 && items != [] && !items[0].Arg?
    requires (t, f, dir) == match items[0] case From(g) => (Sym('<'), g, In) case To(g) => (Sym('>'), g, Out)
                            case AppendTo(g) => (Append, g, Out)
    ensures Loop(args, rs, ItemTokens(items) + rest) ==
              if |args| + |ArgsOf(items)| < 10 then Ok((Around(Wrap(Exec(args + ArgsOf(items)), rs), items), rest))
              else Panic("too many args")
    decreases |items|, 0
  {
    hide Wrap, Redirs, Args;
    var more := ItemTokens(items[1..]) + rest;
    assert ItemTokens(items) + rest == [t, Word(f)] + more;
    assert ArgsOf(items) == ArgsOf(items[1..]);
    RedirsStep(rs, t, f, more);
    LoopItems(args, rs + [(f, dir)], items[1..], rest);
    WrapMore(Exec(args + ArgsOf(items)), rs, (f, dir));
  }

  /** A plain command line: whatever the order of words and redirections, it is the words, in the
    * redirections in their order; with ten words or more it is refused. */
  lemma PlainCommand(items: seq<Item>, rest: seq<Token>)
    requires Ended(rest)
    ensures ExecPart(ItemTokens(items) + rest) ==
              if |ArgsOf(items)| < 10 then Ok((Around(Exec(ArgsOf(items)), items), rest)) else Panic("too many args")
  {
    hide Redirs, Args;
    var ts := ItemTokens(items) + rest;
    assert !Starts(ts, '(') by { if items == [] { assert ts == rest; } else { assert ts[0] == ItemTokens(items)[0]; } }
    LoopItems([], [], items, rest);
    assert [] + ArgsOf(items) == ArgsOf(items);
    assert Wrap(Exec(ArgsOf(items)), []) == Exec(ArgsOf(items)) by { WrapNone(Exec(ArgsOf(items))); }
  }

  lemma WrapNone(cmd: Cmd<string>)
    ensures Wrap(cmd, []) == cmd
  {
  }

  // ---- parentheses only where needed ---------------------------------------------------------------

  /** Where a command stands: a whole line, before ";", before "|", or a single command. */
  datatype Place = InLine | InBacks | InPipe | InExec

  /** How many places a command passes before its own. */
  function Passes(c: Cmd<string>, at: Place): nat {
    match c
    case List(_, _) => (match at case InLine => 1 case InExec => 2 case InPipe => 3 case InBacks => 4)
    case Back(_) => (match at case InBacks => 1 case InLine => 2 case InExec => 3 case InPipe => 4)
    case Pipe(_, _) => (match at case InPipe => 1 case InBacks => 2 case InLine => 3 case InExec => 4)
    case _ => (match at case InExec => 1 case InPipe => 2 case InBacks => 3 case InLine => 4)
  }

  /** The tokens of a command, with parentheses only where its place needs them. */
  function Neat(c: Cmd<string>, at: Place): seq<Token>
    decreases c, Passes(c, at)
  {
    match at
    case InLine => if c.List? then Neat(c.left, InBacks) + [Sym(';')] + Neat(c.right, InLine) else Neat(c, InBacks)
    case InBacks => if c.Back? then Neat(c.cmd, InBacks) + [Sym('&')] else Neat(c, InPipe)
    case InPipe => if c.Pipe? then Neat(c.left, InExec) + [Sym('|')] + Neat(c.right, InPipe) else Neat(c, InExec)
    case InExec =>
      match c
      case Exec(args) => WordTokens(args)
      case Redir(cmd, file, dir) => Neat(cmd, InExec) + [Sym(if dir == In then '<' else '>'), Word(file)]
      case _ => [Sym('(')] + Neat(c, InLine) + [Sym(')')]
  }

  function Reds(c: Cmd<string>): seq<Item> {
    if c.Redir? then Reds(c.cmd) + [if c.dir == In then From(c.file) else To(c.file)] else []
  }

  function Base(c: Cmd<string>): (b: Cmd<string>)
    ensures !b.Redir? && (b == c || b < c)
  {
    if c.Redir? then Base(c.cmd) else c
  }

  function Items(args: seq<string>): seq<Item> { seq(|args|, i requires 0 <= i < |args| => Arg(args[i])) }

  lemma {:induction false} ItemTokensJoin(a: seq<Item>, b: seq<Item>)
    ensures ItemTokens(a + b) == ItemTokens(a) + ItemTokens(b)
    decreases |a|
  {
    if a == [] {
      assert a + b == b;
    } else {
      assert (a + b)[0] == a[0] && (a + b)[1..] == a[1..] + b;
      ItemTokensJoin(a[1..], b);
    }
  }

  lemma {:induction false} AroundJoin(cmd: Cmd<string>, a: seq<Item>, b: seq<Item>)
    ensures Around(cmd, a + b) == Around(Around(cmd, a), b)
    decreases |a|
  {
    if a == [] {
      assert a + b == b;
    } else {
      assert (a + b)[0] == a[0] && (a + b)[1..] == a[1..] + b;
      match a[0]
      case Arg(_) => AroundJoin(cmd, a[1..], b);
      case From(f) => AroundJoin(Redir(cmd, f, In), a[1..], b);
      case To(f) => AroundJoin(Redir(cmd, f, Out), a[1..], b);
      case AppendTo(f) => AroundJoin(Redir(cmd, f, Out), a[1..], b);
    }
  }

  lemma {:induction false} ArgsOfJoin(a: seq<Item>, b: seq<Item>)
    ensures ArgsOf(a + b) == ArgsOf(a) + ArgsOf(b)
    decreases |a|
  {
    if a == [] {
      assert a + b == b;
    } else {
      assert (a + b)[0] == a[0] && (a + b)[1..] == a[1..] + b;
      ArgsOfJoin(a[1..], b);
    }
  }

  lemma AroundOne(cmd: Cmd<string>, item: Item)
    requires item.From? || item.To?
    ensures Around(cmd, [item]) == Redir(cmd, item.file, if item.From? then In else Out)
    ensures ItemTokens([item]) == [Sym(if item.From? then '<' else '>'), Word(item.file)] && ArgsOf([item]) == []
  {
    assert [item][1..] == [];
  }

  /** A command is its base in its redirections. */
  lemma {:induction false} FromBase(c: Cmd<string>)
    ensures Around(Base(c), Reds(c)) == c && ArgsOf(Reds(c)) == []
    ensures Neat(c, InExec) == Neat(Base(c), InExec) + ItemTokens(Reds(c))
  {
    hide Around, ItemTokens, ArgsOf;
    if c.Redir? {
      FromBase(c.cmd);
      var last := if c.dir == In then From(c.file) else To(c.file);
      AroundJoin(Base(c), Reds(c.cmd), [last]);
      ItemTokensJoin(Reds(c.cmd), [last]);
      ArgsOfJoin(Reds(c.cmd), [last]);
      AroundOne(c.cmd, last);
    } else {
      NoItems(c);
    }
  }

  lemma NoItems(c: Cmd<string>)
    ensures Around(c, []) == c && ItemTokens([]) == [] && ArgsOf([]) == []
  {
  }

  lemma {:induction false} WordItems(args: seq<string>, cmd: Cmd<string>)
    ensures ItemTokens(Items(args)) == WordTokens(args) && ArgsOf(Items(args)) == args
    ensures Around(cmd, Items(args)) == cmd
    decreases |args|
  {
    if args != [] {
      assert Items(args)[1..] == Items(args[1..]) && WordTokens(args) == [Word(args[0])] + WordTokens(args[1..]);
      WordItems(args[1..], cmd);
    }
  }

  /** Words first and redirections after them. */
  lemma ExecNeat(c: Cmd<string>, rest: seq<Token>)
    requires Base(c).Exec? && |Base(c).args| < 10 && Ended(rest)
    ensures ExecPart(Neat(c, InExec) + rest) == Ok((c, rest))
  {
    hide ExecPart, Around, ItemTokens, ArgsOf;
    var args, rs := Base(c).args, Reds(c);
    FromBase(c);
    WordItems(args, Base(c));
    ItemTokensJoin(Items(args), rs);
    ArgsOfJoin(Items(args), rs);
    AroundJoin(Base(c), Items(args), rs);
    PlainCommand(Items(args) + rs, rest);
    assert args + [] == args;
  }

  lemma {:induction false} RedirsAll(rs0: seq<(string, Direction)>, b: Cmd<string>, items: seq<Item>, rest: seq<Token>)
    requires Ended(rest) && (forall i :: 0 <= i < |items| ==> !items[i].Arg?)
    ensures var r := Redirs(rs0, ItemTokens(items) + rest);
            r.Ok? && r.value.1 == rest && Wrap(b, r.value.0) == Around(Wrap(b, rs0), items)
    decreases |items|
  {
    hide Wrap;
    if items == [] {
      assert ItemTokens(items) + rest == rest;
    } else {
      var (t, f, dir) := match items[0] case From(g) => (Sym('<'), g, In) case To(g) => (Sym('>'), g, Out)
                         case AppendTo(g) => (Append, g, Out);
      assert ItemTokens(items) + rest == [t, Word(f)] + (ItemTokens(items[1..]) + rest);
      RedirsStep(rs0, t, f, ItemTokens(items[1..]) + rest);
      RedirsAll(rs0 + [(f, dir)], b, items[1..], rest);
      WrapMore(b, rs0, (f, dir));
    }
  }

  lemma {:induction false} RedsOnly(c: Cmd<string>)
    ensures forall i :: 0 <= i < |Reds(c)| ==> !Reds(c)[i].Arg?
  {
    if c.Redir? { RedsOnly(c.cmd); }
  }

  /** A block with redirections after it. */
  lemma BlockNeat(c: Cmd<string>, rest: seq<Token>)
    requires !Base(c).Exec? && Ended(rest)
    requires var more := [Sym(')')] + ItemTokens(Reds(c)) + rest;
             Line(Neat(Base(c), InLine) + more) == Ok((Base(c), more))
    ensures ExecPart(Neat(c, InExec) + rest) == Ok((c, rest))
  {
    hide Line, Around, ItemTokens, Redirs, Wrap, ExecPart, Neat;
    var b := Base(c);
    var after := ItemTokens(Reds(c)) + rest;
    var inner := Neat(b, InLine) + ([Sym(')')] + after);
    assert [Sym(')')] + ItemTokens(Reds(c)) + rest == [Sym(')')] + after;
    FromBase(c);
    RedsOnly(c);
    RedirsAll([], b, Reds(c), rest);
    WrapNone(b);
    InParens(b);
    assert Neat(c, InExec) + rest == [Sym('(')] + inner;
    BlockStep(b, inner, after);
  }

  lemma InParens(b: Cmd<string>)
    requires !b.Exec? && !b.Redir?
    ensures Neat(b, InExec) == [Sym('(')] + Neat(b, InLine) + [Sym(')')]
  {
  }

  /** parse_block after the line in it. */
  lemma BlockStep(b: Cmd<string>, inner: seq<Token>, after: seq<Token>)
    requires Line(inner) == Ok((b, [Sym(')')] + after)) && Redirs([], after).Ok?
    ensures ExecPart([Sym('(')] + inner) == Ok((Wrap(b, Redirs([], after).value.0), Redirs([], after).value.1))
  {
    hide Line, Redirs, Wrap;
    assert ([Sym('(')] + inner)[1..] == inner && ([Sym(')')] + after)[1..] == after;
  }

  predicate AfterPipe(rest: seq<Token>) {
    rest == [] || rest[0] == Sym(')') || rest[0] == Sym('&') || rest[0] == Sym(';')
  }

  lemma {:induction false} PrintableBase(c: Cmd<string>)
    requires Printable(c)
    ensures Printable(Base(c))
  {
    if c.Redir? { PrintableBase(c.cmd); }
  }

  lemma {:induction false} NeatExec(c: Cmd<string>, rest: seq<Token>)
    requires Printable(c) && Ended(rest)
    ensures ExecPart(Neat(c, InExec) + rest) == Ok((c, rest))
    decreases c, 5
  {
    hide ExecPart, Line, Neat;
    PrintableBase(c);
    if Base(c).Exec? {
      ExecNeat(c, rest);
    } else {
      NeatLine(Base(c), [Sym(')')] + ItemTokens(Reds(c)) + rest);
      BlockNeat(c, rest);
    }
  }

  lemma {:induction false} NeatPipe(c: Cmd<string>, rest: seq<Token>)
    requires Printable(c) && AfterPipe(rest)
    ensures PipePart(Neat(c, InPipe) + rest) == Ok((c, rest))
    decreases c, if c.Pipe? then 1 else 6
  {
    hide ExecPart, Printable;
    if c.Pipe? {
      assert Printable(c.left) && Printable(c.right) by { PrintableParts(c); }
      var right := Neat(c.right, InPipe) + rest;
      var more := [Sym('|')] + right;
      assert Neat(c, InPipe) + rest == Neat(c.left, InExec) + more && more[1..] == right;
      NeatExec(c.left, more);
      NeatPipe(c.right, rest);
    } else {
      NeatExec(c, rest);
    }
  }

  lemma PrintableParts(c: Cmd<string>)
    requires Printable(c)
    ensures (c.Pipe? || c.List? ==> Printable(c.left) && Printable(c.right)) && (c.Back? ==> Printable(c.cmd))
  {
  }

  /** parse_line up to its loop over "&". */
  function BacksPart(ts: seq<Token>): Parsed<(Cmd<string>, seq<Token>)> {
    match PipePart(ts)
    case Panic(e) => Panic(e)
    case Ok((first, rest)) => Ok(Backs(first, rest))
  }

  lemma {:induction false} NeatBacks(c: Cmd<string>, rest: seq<Token>)
    requires Printable(c) && AfterPipe(rest)
    ensures BacksPart(Neat(c, InBacks) + rest) == Ok(Backs(c, rest))
    decreases c, if c.Back? || c.Pipe? then 2 else 7
  {
    hide PipePart, Printable;
    if c.Back? {
      assert Printable(c.cmd) by { PrintableParts(c); }
      var more := [Sym('&')] + rest;
      assert Neat(c, InBacks) + rest == Neat(c.cmd, InBacks) + more && more[1..] == rest;
      NeatBacks(c.cmd, more);
    } else {
      NeatPipe(c, rest);
    }
  }

  lemma {:induction false} NeatLine(c: Cmd<string>, rest: seq<Token>)
    requires Printable(c) && Closed(rest)
    ensures Line(Neat(c, InLine) + rest) == Ok((c, rest))
    decreases c, if c.Exec? || c.Redir? then 8 else 3
  {
    hide PipePart, Printable;
    if c.List? {
      assert Printable(c.left) && Printable(c.right) by { PrintableParts(c); }
      var right := Neat(c.right, InLine) + rest;
      var more := [Sym(';')] + right;
      assert Neat(c, InLine) + rest == Neat(c.left, InBacks) + more && more[1..] == right;
      NeatBacks(c.left, more);
      NeatLine(c.right, rest);
    } else {
      NeatBacks(c, rest);
    }
  }

  lemma {:induction false} NeatPlain(c: Cmd<string>, at: Place)
    requires Printable(c)
    ensures forall i :: 0 <= i < |Neat(c, at)| ==> PlainToken(Neat(c, at)[i])
    decreases c, Passes(c, at)
  {
    hide PlainToken;
    SymbolsPlain();
    match at
    case InLine =>
      if c.List? { NeatPlain(c.left, InBacks); NeatPlain(c.right, InLine); } else { NeatPlain(c, InBacks); }
    case InBacks => if c.Back? { NeatPlain(c.cmd, InBacks); } else { NeatPlain(c, InPipe); }
    case InPipe =>
      if c.Pipe? { NeatPlain(c.left, InExec); NeatPlain(c.right, InPipe); } else { NeatPlain(c, InExec); }
    case InExec =>
      match c
      case Exec(args) =>
        forall i | 0 <= i < |args| ensures PlainToken(Word(args[i])) { WordPlain(args[i]); }
      case Redir(cmd, file, dir) => NeatPlain(cmd, InExec); WordPlain(file);
      case _ => NeatPlain(c, InLine);
  }

  lemma WordPlain(w: string)
    requires PlainWord(w)
    ensures PlainToken(Word(w))
  {
  }

  lemma SymbolsPlain()
    ensures PlainToken(Sym('(')) && PlainToken(Sym(')')) && PlainToken(Sym(';')) && PlainToken(Sym('|'))
    ensures PlainToken(Sym('&')) && PlainToken(Sym('<')) && PlainToken(Sym('>'))
  {
  }

  /** Parsing a command as people would write it gives the command back. */
  lemma NeatRoundTrip(c: Cmd<string>)
    requires Printable(c)
    ensures Command(Render(Neat(c, InLine))) == Ok(c)
  {
    hide Line, Neat, Tokens, Render, PlainToken;
    NeatPlain(c, InLine);
    TokensOfRender(Neat(c, InLine));
    NeatLine(c, []);
    assert Neat(c, InLine) + [] == Neat(c, InLine);
  }

  // ---- what is refused ------------------------------------------------------------------------------

  /** A closing parenthesis without an opening one. */
  lemma LeftoverRefused(s: string, c: Cmd<string>, rest: seq<Token>)
    requires Printable(c) && Tokens(s) == Neat(c, InLine) + [Sym(')')] + rest
    ensures Command(s) == Panic("syntax")
  {
    hide Line, Neat, Tokens;
    NeatLine(c, [Sym(')')] + rest);
    assert Tokens(s) == Neat(c, InLine) + ([Sym(')')] + rest);
  }

  /** An opening parenthesis without a closing one. */
  lemma UnclosedRefused(s: string, c: Cmd<string>)
    requires Printable(c) && Tokens(s) == [Sym('(')] + Neat(c, InLine)
    ensures Command(s) == Panic("syntax ) missing")
  {
    hide Neat, Tokens;
    var ts := Tokens(s);
    NeatLine(c, []);
    assert ts[1..] == Neat(c, InLine) == Neat(c, InLine) + [];
    LineOfExec(ts);
  }

  /** A redirection without a file. */
  lemma NoFileRefused(s: string, items: seq<Item>, t: Token, rest: seq<Token>)
    requires (t == Sym('<') || t == Sym('>') || t == Append) && (rest == [] || !rest[0].Word?)
    requires |ArgsOf(items)| < 10 && Tokens(s) == ItemTokens(items) + ([t] + rest)
    ensures Command(s) == Panic("missing file for redir")
  {
    hide Tokens, Args, Redirs, ItemTokens, ArgsOf;
    var ts := Tokens(s);
    NoFileInLoop([], [], items, t, rest);
    assert !Starts(ts, '(') by { FirstItem(items, [t] + rest); }
    LineOfExec(ts);
  }

  lemma FirstItem(items: seq<Item>, rest: seq<Token>)
    requires rest != [] && rest[0] != Sym('(')
    ensures !Starts(ItemTokens(items) + rest, '(')
  {
    if items == [] {
      assert ItemTokens(items) + rest == rest;
    } else {
      assert (ItemTokens(items) + rest)[0] == ItemTokens(items)[0];
    }
  }

  lemma {:induction false} NoFileInLoop(args: seq<string>, rs: seq<(string, Direction)>, items: seq<Item>, t: Token,
        rest: seq<Token>)
    requires (t == Sym('<') || t == Sym('>') || t == Append) && (rest == [] || !rest[0].Word?)
    requires |args| + |ArgsOf(items)| < 10
    ensures Loop(args, rs, ItemTokens(items) + ([t] + rest)) == Panic("missing file for redir")
    decreases |items|
  {
    hide Args;
    if items == [] {
      assert ItemTokens(items) + ([t] + rest) == [t] + rest;
    } else {
      var more := ItemTokens(items[1..]) + ([t] + rest);
      match items[0]
      case Arg(w) =>
        assert ItemTokens(items) + ([t] + rest) == [Word(w)] + more;
        LoopWord(args, rs, w, more);
        NoFileInLoop(args + [w], rs, items[1..], t, rest);
      case From(f) => RedirRefused(args, rs, items, Sym('<'), f, t, rest);
      case To(f) => RedirRefused(args, rs, items, Sym('>'), f, t, rest);
      case AppendTo(f) => RedirRefused(args, rs, items, Append, f, t, rest);
    }
  }

  lemma {:induction false} RedirRefused(args: seq<string>, rs: seq<(string, Direction)>, items: seq<Item>, u: Token,
        f: string, t: Token, rest: seq<Token>)
    requires (t == Sym('<') || t == Sym('>') || t == Append) && (rest == [] || !rest[0].Word?)
    requires |args| + |ArgsOf(items)| < 10 && items != [] && !items[0].Arg?
    requires (u, f) == match items[0] case From(g) => (Sym('<'), g) case To(g) => (Sym('>'), g)
                       case AppendTo(g) => (Append, g)
    ensures Loop(args, rs, ItemTokens(items) + ([t] + rest)) == Panic("missing file for redir")
    decreases |items|, 0
  {
    hide Args, Redirs, ItemTokens, ArgsOf;
    var more := ItemTokens(items[1..]) + ([t] + rest);
    RedirItem(items, u, f);
    assert ItemTokens(items) + ([t] + rest) == [u, Word(f)] + more;
    RedirsStep(rs, u, f, more);
    NoFileInLoop(args, rs + [(f, if u == Sym('<') then In else Out)], items[1..], t, rest);
  }

  // ---- characters ---------------------------------------------------------------------------------

  /** A character is of a word unless it is one of the five blanks, the seven symbols or the NUL. */
  lemma WordChars(c: char)
    ensures IsWordChar(c) <==> c !in " \t\r\n<|>&;()" && c != 11 as char && c != '\0'
  {
  }

  // ---- white space -------------------------------------------------------------------------------

  /** A gap: blanks, tabs, returns, newlines and vertical tabs. */
  predicate Gap(g: string) {
    forall i :: 0 <= i < |g| ==> g[i] == ' ' || g[i] == '\t' || g[i] == '\r' || g[i] == '\n' || g[i] == 11 as char
  }

  /** The tokens as text with the given gaps before, between and after them. */
  function Spaced(ts: seq<Token>, gaps: seq<string>): string
    requires |gaps| == |ts| + 1
  {
    if ts == [] then gaps[0] else gaps[0] + Show(ts[0]) + Spaced(ts[1..], gaps[1..])
  }

  /** Only two words need a gap, and a ">" before another or before ">>". */
  predicate Apart(t: Token, u: Token, gap: string) {
    gap == "" ==> !(t.Word? && u.Word?) && !(t == Sym('>') && (u == Sym('>') || u == Append))
  }

  ghost predicate Readable(ts: seq<Token>, gaps: seq<string>) {
    && |gaps| == |ts| + 1 && (forall i :: 0 <= i < |ts| ==> PlainToken(ts[i]))
    && (forall i :: 0 <= i < |gaps| ==> Gap(gaps[i]))
    && (forall i, j :: 0 <= i && j == i + 1 < |ts| ==> Apart(ts[i], ts[j], gaps[j]))
  }

  lemma {:induction false} SkipGap(g: string, s: string)
    requires Gap(g)
    ensures First(g + s) == First(s)
    decreases |g|
  {
    if g == "" {
      assert g + s == s;
    } else {
      assert (g + s)[0] == g[0] && (g + s)[1..] == g[1..] + s;
      SkipGap(g[1..], s);
    }
  }

  lemma {:induction false} WordStopsAt(w: string, s: string)
    requires (forall i :: 0 <= i < |w| ==> IsWordChar(w[i])) && (s == "" || IsSpace(s[0]) || IsSymbol(s[0]))
    ensures WordLength(w + s) == |w|
    decreases |w|
  {
    if w == "" {
      assert w + s == s;
    } else {
      assert (w + s)[0] == w[0] && (w + s)[1..] == w[1..] + s;
      WordStopsAt(w[1..], s);
    }
  }

  lemma TokenThen(t: Token, s: string)
    requires PlainToken(t) && (t.Word? ==> s == "" || IsSpace(s[0]) || IsSymbol(s[0]))
    requires t == Sym('>') ==> s == "" || s[0] != '>'
    ensures First(Show(t) + s) == Got(t, s)
  {
    hide WordLength;
    var u := Show(t) + s;
    assert u != "" && u[0] == Show(t)[0] && !IsSpace(u[0]);
    assert SkipSpace(u) == u;
    match t
    case Sym(c) => assert u[1..] == s && (s != "" ==> u[1] == s[0]);
    case Append => assert u[2..] == s && u[0] == '>' && u[1] == '>';
    case Word(w) =>
      WordStopsAt(w, s);
      assert u[..|w|] == w && u[|w|..] == s;
  }

  /** How the text after a token begins. */
  lemma SpacedFirst(t: Token, ts: seq<Token>, gaps: seq<string>)
    requires Readable([t] + ts, [""] + gaps)
    ensures |gaps| == |ts| + 1
    ensures var s := Spaced(ts, gaps);
            && (t.Word? ==> s == "" || IsSpace(s[0]) || IsSymbol(s[0])) && (t == Sym('>') ==> s == "" || s[0] != '>')
  {
    var s, all, g := Spaced(ts, gaps), [t] + ts, [""] + gaps;
    assert Gap(g[1]) && g[1] == gaps[0];
    if gaps[0] != "" {
      assert s[0] == gaps[0][0];
    } else if ts != [] {
      assert Apart(all[0], all[1], g[1]) && PlainToken(all[1]) && all[1] == ts[0];
      assert s[0] == Show(ts[0])[0];
    }
  }

  lemma ReadableRest(ts: seq<Token>, gaps: seq<string>)
    requires Readable(ts, gaps) && ts != []
    ensures Readable(ts[1..], gaps[1..]) && Readable([ts[0]] + ts[1..], [""] + gaps[1..])
  {
    hide PlainToken, Gap, Apart;
    assert [ts[0]] + ts[1..] == ts;
    assert Gap("") by { NoGap(); }
    forall i, j | 0 <= i && j == i + 1 < |ts| - 1 ensures Apart(ts[1..][i], ts[1..][j], gaps[1..][j]) {
      assert Apart(ts[j], ts[j + 1], gaps[j + 1]);
    }
  }

  lemma NoGap()
    ensures Gap("")
  {
  }

  /** The tokens of a text do not depend on the white space around them. */
  lemma {:induction false} TokensOfSpaced(ts: seq<Token>, gaps: seq<string>)
    requires Readable(ts, gaps)
    ensures Tokens(Spaced(ts, gaps)) == ts
    decreases |ts|
  {
    hide First, Show, PlainToken, Gap, Apart, Tokens, Readable;
    ReadableSize(ts, gaps);
    if ts == [] {
      assert gaps[0] + "" == gaps[0];
      SkipGap(gaps[0], "");
      FirstOfNone();
      NoTokens(gaps[0]);
    } else {
      var rest := Spaced(ts[1..], gaps[1..]);
      ReadableRest(ts, gaps);
      SpacedFirst(ts[0], ts[1..], gaps[1..]);
      TokenThen(ts[0], rest);
      SkipGap(gaps[0], Show(ts[0]) + rest);
      assert Spaced(ts, gaps) == gaps[0] + (Show(ts[0]) + rest);
      TokensOfSpaced(ts[1..], gaps[1..]);
      TokensGot(Spaced(ts, gaps), ts[0], rest);
      assert [ts[0]] + ts[1..] == ts;
    }
  }

  lemma ReadableSize(ts: seq<Token>, gaps: seq<string>)
    requires Readable(ts, gaps)
    ensures |gaps| == |ts| + 1 && Gap(gaps[0]) && (ts != [] ==> PlainToken(ts[0]))
  {
  }

  lemma NoTokens(s: string)
    requires First(s) == End
    ensures Tokens(s) == []
  {
  }

  lemma TokensGot(s: string, t: Token, rest: string)
    requires First(s) == Got(t, rest)
    ensures Tokens(s) == [t] + Tokens(rest)
  {
  }

  /** A plain command as typed: words and redirections in any order, with any white space. */
  lemma PlainLine(items: seq<Item>, gaps: seq<string>)
    requires Readable(ItemTokens(items), gaps)
    ensures Command(Spaced(ItemTokens(items), gaps)) ==
              if |ArgsOf(items)| < 10 then Ok(Around(Exec(ArgsOf(items)), items)) else Panic("too many args")
  {
    hide Tokens, Spaced, ExecPart, ItemTokens, Around, ArgsOf, Readable;
    TokensOfSpaced(ItemTokens(items), gaps);
    PlainCommand(items, []);
    assert ItemTokens(items) + [] == ItemTokens(items);
    LineOfExec(ItemTokens(items));
  }

  lemma LineOfExec(ts: seq<Token>)
    requires ExecPart(ts).Ok? ==> ExecPart(ts).value.1 == []
    ensures Line(ts) == ExecPart(ts)
  {
    hide ExecPart;
    var r := ExecPart(ts);
    assert PipePart(ts) == r;
  }

  lemma LsOutReadable(ts: seq<Token>, gaps: seq<string>)
    requires ts == [Word("ls"), Sym('>'), Word("out")] && gaps == ["", " ", " ", ""]
    ensures Readable(ts, gaps)
  {
  }

  /** "ls > out" is ls with its output in out. */
  lemma LsOut()
    ensures Command("ls > out") == Ok(Redir(Exec(["ls"]), "out", Out))
  {
    hide Command, Readable;
    var items, gaps := [Arg("ls"), To("out")], ["", " ", " ", ""];
    assert items[1..] == [To("out")] && items[1..][1..] == [];
    var ts := ItemTokens(items);
    assert ts == [Word("ls"), Sym('>'), Word("out")];
    var t1, t2, g1, g2 := [Sym('>'), Word("out")], [Word("out")], [" ", " ", ""], [" ", ""];
    assert ts[1..] == t1 && t1[1..] == t2 && t2[1..] == [] && gaps[1..] == g1 && g1[1..] == g2 && g2[1..] == [""];
    assert Spaced(t2, g2) == " out";
    assert Spaced(t1, g1) == " > out";
    assert Spaced(ts, gaps) == "ls > out";
    assert ArgsOf([]) == [] && ArgsOf([To("out")]) == [] && ArgsOf(items) == ["ls"];
    assert Around(Exec(["ls"]), items) == Around(Exec(["ls"]), [To("out")]);
    LsOutReadable(ts, gaps);
    PlainLine(items, gaps);
  }

  /** A command tree as typed. */
  lemma NeatLineRead(c: Cmd<string>, gaps: seq<string>)
    requires Printable(c) && Readable(Neat(c, InLine), gaps)
    ensures Command(Spaced(Neat(c, InLine), gaps)) == Ok(c)
  {
    hide Line, Neat, Tokens, Spaced, Readable;
    TokensOfSpaced(Neat(c, InLine), gaps);
    NeatLine(c, []);
    assert Neat(c, InLine) + [] == Neat(c, InLine);
  }

  lemma {:induction false} SpacedText(ts: seq<Token>, gaps: seq<string>)
    requires Readable(ts, gaps)
    ensures forall i :: 0 <= i < |Spaced(ts, gaps)| ==> Spaced(ts, gaps)[i] != '\0'
    decreases |ts|
  {
    assert Gap(gaps[0]);
    if ts != [] {
      assert PlainToken(ts[0]);
      ReadableRest(ts, gaps);
      SpacedText(ts[1..], gaps[1..]);
    }
  }

  /** The shell's parser on a command as typed leaves exactly that command. */
  method ParseTyped(text: array<char>, ghost c: Cmd<string>, ghost gaps: seq<string>) returns (r: Parsed<Cmd<Span>>)
    requires Printable(c) && Readable(Neat(c, InLine), gaps)
    requires text.Length > 0 && text[text.Length - 1] == '\0'
    requires text[..text.Length - 1] == Spaced(Neat(c, InLine), gaps)
    modifies text
    ensures r.Ok? && Reads(text[..], r.value) == c
  {
    hide Command, Spaced, Neat, Printable, Readable;
    SpacedText(Neat(c, InLine), gaps);
    var p := new Parser(text);
    NeatLineRead(c, gaps);
    r := p.ParseCmd();
  }
}
