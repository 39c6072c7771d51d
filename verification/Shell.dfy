/** The parser of user/nsh.c: recursive descent with one cursor over the text, then
  * null_terminate in place on the same text.
  */
module Shell {
  import opened ShellGrammar

  /** A token as the pointers q and eq give it: offsets into the text. */
  datatype Span = Span(lo: nat, hi: nat)

  /** The span is a maximal run of word characters. */
  ghost predicate WordAt(s: string, w: Span) {
    && w.lo < w.hi <= |s| && (forall i :: w.lo <= i < w.hi ==> IsWordChar(s[i]))
    && (w.hi < |s| ==> !IsWordChar(s[w.hi]))
  }

  ghost predicate AllWords(s: string, ws: seq<Span>) { forall i :: 0 <= i < |ws| ==> WordAt(s, ws[i]) }

  ghost predicate AllFiles(s: string, rs: seq<(Span, Direction)>) { forall i :: 0 <= i < |rs| ==> WordAt(s, rs[i].0) }

  ghost predicate CmdWords(s: string, c: Cmd<Span>) {
    match c
    case Exec(args) => AllWords(s, args)
    case Redir(cmd, file, _) => CmdWords(s, cmd) && WordAt(s, file)
    case Pipe(l, r) => CmdWords(s, l) && CmdWords(s, r)
    case List(l, r) => CmdWords(s, l) && CmdWords(s, r)
    case Back(cmd) => CmdWords(s, cmd)
  }

  // ---- a command on spans as a command on strings --------------------------------------

  function Text(s: string, w: Span): string { if w.lo <= w.hi <= |s| then s[w.lo..w.hi] else "" }

  function Texts(s: string, ws: seq<Span>): seq<string> { seq(|ws|, i requires 0 <= i < |ws| => Text(s, ws[i])) }

  function Files(s: string, rs: seq<(Span, Direction)>): seq<(string, Direction)> {
    seq(|rs|, i requires 0 <= i < |rs| => (Text(s, rs[i].0), rs[i].1))
  }

  function TextOf(s: string, c: Cmd<Span>): Cmd<string> {
    match c
    case Exec(args) => Exec(Texts(s, args))
    case Redir(cmd, file, dir) => Redir(TextOf(s, cmd), Text(s, file), dir)
    case Pipe(l, r) => Pipe(TextOf(s, l), TextOf(s, r))
    case List(l, r) => List(TextOf(s, l), TextOf(s, r))
    case Back(cmd) => Back(TextOf(s, cmd))
  }

  lemma {:induction false} WrapText(s: string, c: Cmd<Span>, rs: seq<(Span, Direction)>)
    requires CmdWords(s, c) && AllFiles(s, rs)
    ensures TextOf(s, Wrap(c, rs)) == Wrap(TextOf(s, c), Files(s, rs)) && CmdWords(s, Wrap(c, rs))
    decreases |rs|
  {
    if rs != [] {
      var n := |rs| - 1;
      WrapText(s, c, rs[..n]);
      assert Files(s, rs)[..n] == Files(s, rs[..n]);
    }
  }

  lemma FilesAdd(s: string, rs: seq<(Span, Direction)>, x: (Span, Direction))
    ensures Files(s, rs + [x]) == Files(s, rs) + [(Text(s, x.0), x.1)]
  {
  }

  lemma TextsAdd(s: string, ws: seq<Span>, w: Span)
    ensures Texts(s, ws + [w]) == Texts(s, ws) + [Text(s, w)]
  {
  }

  // ---- the lexer's facts -------------------------------------------------------------------

  lemma SkippedFirst(s: string)
    ensures First(SkipSpace(s)) == First(s) && Tokens(SkipSpace(s)) == Tokens(s)
  {
    assert SkipSpace(SkipSpace(s)) == SkipSpace(s);
  }

  function Code(t: Token): char {
    match t
    case Sym(c) => c
    case Append => '+'
    case Word(_) => 'a'
  }

  /** What peek sees, in terms of tokens. */
  lemma PeekTokens(s: string)
    ensures var t, ts := SkipSpace(s), Tokens(s);
            && (ts == [] <==> t == "")
            && (forall c :: IsSymbol(c) && c != '>' ==> (Starts(ts, c) <==> t != "" && t[0] == c))
            && (StartsRedir(ts) <==> t != "" && (t[0] == '<' || t[0] == '>'))
  {
    hide SkipSpace, WordLength;
  }

  class Parser {
    const text: array<char>            // the line, NUL-terminated
    const end: nat                     // str_end
    ghost const s: string
    var pos: nat                       // *str_p

    ghost predicate Valid()
      reads this, text
    {
      && text.Length == end + 1 && text[..end] == s && text[end] == '\0' && pos <= end
      && forall i :: 0 <= i < end ==> s[i] != '\0'
    }

    constructor (text: array<char>)
      requires text.Length > 0 && text[text.Length - 1] == '\0'
      requires forall i :: 0 <= i < text.Length - 1 ==> text[i] != '\0'
      ensures Valid() && this.text == text && s == text[..text.Length - 1] && pos == 0
    {
      this.text := text;
      end := text.Length - 1;
      s := text[..text.Length - 1];
      pos := 0;
    }

    ghost function Rest(): seq<Token>
      reads this, text
      requires Valid()
    {
      Tokens(s[pos..])
    }

    method Skip()
      requires Valid()
      modifies this`pos
      ensures Valid() && pos >= old(pos) && s[pos..] == SkipSpace(s[old(pos)..])
    {
      while pos < end && IsSpace(text[pos])
        invariant Valid() && pos >= old(pos) && SkipSpace(s[pos..]) == SkipSpace(s[old(pos)..])
      {
        assert s[pos..][1..] == s[pos + 1..] && text[pos] == s[pos];
        pos := pos + 1;
      }
      assert pos < end ==> text[pos] == s[pos];
    }

    /** peek keeps the tokens that are left. */
    method Peek(toks: string) returns (b: bool)
      requires Valid()
      modifies this`pos
      ensures Valid() && pos >= old(pos) && Rest() == old(Rest())
      ensures s[pos..] == SkipSpace(s[old(pos)..])
      ensures b <==> pos < end && s[pos] in toks
    {
      hide Tokens, First, SkipSpace;
      SkippedFirst(s[pos..]);
      Skip();
      assert pos < end ==> text[pos] == s[pos];
      b := text[pos] != '\0' && text[pos] in toks;
    }

    /** peek for one symbol: it is the next token. */
    method PeekAt(c: char) returns (b: bool)
      requires Valid() && IsSymbol(c) && c != '>'
      modifies this`pos
      ensures Valid() && pos >= old(pos) && Rest() == old(Rest()) && (b <==> Starts(Rest(), c))
    {
      hide Tokens, First, SkipSpace;
      PeekTokens(s[pos..]);
      b := Peek([c]);
    }

    /** get_token returns the code of the next token, 0 at the end, moves past it, and for a
      * word gives its span. */
    method GetToken() returns (code: char, w: Span)
      requires Valid()
      modifies this`pos
      ensures Valid() && pos >= old(pos)
      ensures old(Rest()) == [] ==> code == '\0' && Rest() == []
      ensures old(Rest()) != [] ==>
                pos > old(pos) && code != '\0' && code == Code(old(Rest())[0]) && Rest() == old(Rest())[1..]
      ensures old(Rest()) != [] && code == 'a' ==> WordAt(s, w) && old(Rest())[0] == Word(Text(s, w))
    {
      hide Tokens, First, SkipSpace, WordAt;
      ghost var s0 := s[pos..];
      SkippedFirst(s0);
      Skip();
      code, w := Lex(s0);
      SkippedFirst(s[pos..]);
      Skip();
    }

    /** The switch of get_token, at the first character of the token. */
    method Lex(ghost s0: string) returns (code: char, w: Span)
      requires Valid() && s[pos..] == SkipSpace(s0)
      modifies this`pos
      ensures Valid() && pos >= old(pos)
      ensures Tokens(s0) == [] ==> code == '\0' && pos == old(pos) == end
      ensures Tokens(s0) != [] ==>
                pos > old(pos) && code != '\0' && code == Code(Tokens(s0)[0]) && Tokens(s[pos..]) == Tokens(s0)[1..]
      ensures Tokens(s0) != [] && code == 'a' ==> WordAt(s, w) && Tokens(s0)[0] == Word(Text(s, w))
    {
      hide Tokens, First, SkipSpace, WordLength, WordAt, Text, IsSymbol, IsSpace;
      var q := pos;
      assert pos < end ==> text[pos] == s[pos];
      code := text[pos];
      w := Span(q, pos);
      LexEnd(s, s0, q);
      if text[pos] == '\0' { return; }
      if text[pos] == '>' {
        LexGreater(s, s0, q);
        pos := pos + 1;
        assert pos < end ==> text[pos] == s[pos];
        if text[pos] == '>' {
          code := '+';
          pos := pos + 1;
        }
      } else if IsSymbol(text[pos]) {
        LexSymbol(s, s0, q);
        pos := pos + 1;
      } else {
        code := 'a';
        LexWord(s, s0, q);
        ScanWord();
      }
      w := Span(q, pos);
    }

    /** The parser did what the grammar says of the tokens that were left. */
    ghost predicate Parses(r: Parsed<Cmd<Span>>, spec: Parsed<(Cmd<string>, seq<Token>)>)
      reads this, text
      requires Valid()
    {
      match spec
      case Panic(e) => r == Panic(e)
      case Ok((c, rest)) => r.Ok? && CmdWords(s, r.value) && TextOf(s, r.value) == c && Rest() == rest
    }

    method ParseRedirs(rs0: seq<(Span, Direction)>) returns (r: Parsed<seq<(Span, Direction)>>)
      requires Valid() && AllFiles(s, rs0)
      modifies this`pos
      ensures Valid() && pos >= old(pos)
      ensures match Redirs(Files(s, rs0), old(Rest()))
              case Panic(e) => r == Panic(e)
              case Ok((fs, rest)) => r.Ok? && AllFiles(s, r.value) && Files(s, r.value) == fs && Rest() == rest
    {
      hide Tokens, First, SkipSpace, WordAt, Text;
      ghost var spec := Redirs(Files(s, rs0), Rest());
      var rs := rs0;
      while true
        invariant Valid() && pos >= old(pos) && AllFiles(s, rs) && Redirs(Files(s, rs), Rest()) == spec
        decreases end - pos
      {
        PeekTokens(s[pos..]);
        var more := Peek("<>");
        if !more { break; }
        ghost var ts := Rest();
        var op, _ := GetToken();
        var code, file := GetToken();
        if code != 'a' {
          assert |ts| < 2 || !ts[1].Word?;
          return Panic("missing file for redir");
        }
        FilesAdd(s, rs, (file, if op == '<' then In else Out));
        rs := rs + [(file, if op == '<' then In else Out)];
        assert ts[1..][1..] == ts[2..];
      }
      r := Ok(rs);
    }

    /** The words of one command, with the redirections between them. */
    method ParseArgs(rs0: seq<(Span, Direction)>) returns (r: Parsed<Cmd<Span>>)
      requires Valid() && AllFiles(s, rs0)
      modifies this`pos
      ensures Valid() && pos >= old(pos) && Parses(r, Args([], Files(s, rs0), old(Rest())))
    {
      hide Tokens, First, SkipSpace, WordAt, Text, Redirs;
      ghost var spec := Args([], Files(s, rs0), Rest());
      var args: seq<Span>, rs := [], rs0;
      assert Texts(s, args) == [];
      while true
        invariant Valid() && pos >= old(pos) && AllFiles(s, rs) && AllWords(s, args) && |args| < MAXARGS
        invariant Args(Texts(s, args), Files(s, rs), Rest()) == spec
        decreases end - pos
      {
        PeekTokens(s[pos..]);
        ghost var ts := Rest();
        var stop := Peek("|)&;");
        assert stop <==> EndsExec(ts);
        if stop { break; }
        var code, w := GetToken();
        if code == '\0' { break; }
        if code != 'a' { return Panic("syntax"); }
        TextsAdd(s, args, w);
        args := args + [w];
        if |args| >= MAXARGS { return Panic("too many args"); }
        var more := ParseRedirs(rs);
        if more.Panic? { return Panic(more.msg); }
        rs := more.value;
      }
      WrapText(s, Exec(args), rs);
      r := Ok(Wrap(Exec(args), rs));
    }

    method ParseExec() returns (r: Parsed<Cmd<Span>>)
      requires Valid()
      modifies this`pos
      ensures Valid() && pos >= old(pos) && Parses(r, ExecPart(old(Rest())))
      decreases end - pos, 1
    {
      hide Tokens, First, SkipSpace, WordAt, Text, Redirs, Args, Block, TextOf, CmdWords;
      var open := PeekAt('(');
      if open {
        r := ParseBlock();
        return;
      }
      assert Files(s, []) == [];
      var rs := ParseRedirs([]);
      if rs.Panic? { return Panic(rs.msg); }
      r := ParseArgs(rs.value);
    }

    method ParseBlock() returns (r: Parsed<Cmd<Span>>)
      requires Valid() && Starts(Rest(), '(')
      modifies this`pos
      ensures Valid() && pos >= old(pos) && Parses(r, Block(old(Rest())))
      decreases end - pos, 0
    {
      hide Tokens, First, SkipSpace, WordAt, Text, Redirs, Line, TextOf, CmdWords, Wrap;
      var open := PeekAt('(');
      assert open;                     // so the panic for a missing parenthesis is unreachable
      var _, _ := GetToken();
      var cmd := ParseLine();
      if cmd.Panic? { return cmd; }
      var close := PeekAt(')');
      if !close { return Panic("syntax ) missing"); }
      var _, _ := GetToken();
      assert Files(s, []) == [];
      var rs := ParseRedirs([]);
      if rs.Panic? { return Panic(rs.msg); }
      WrapText(s, cmd.value, rs.value);
      r := Ok(Wrap(cmd.value, rs.value));
    }

    method ParsePipe() returns (r: Parsed<Cmd<Span>>)
      requires Valid()
      modifies this`pos
      ensures Valid() && pos >= old(pos) && Parses(r, PipePart(old(Rest())))
      decreases end - pos, 2
    {
      hide Tokens, First, SkipSpace, WordAt, Text, ExecPart;
      ghost var pos0 := pos;
      r := ParseExec();
      if r.Panic? { return; }
      var bar := PeekAt('|');
      if bar {
        var _, _ := GetToken();
        var right := ParsePipe();
        if right.Panic? { return right; }
        r := Ok(Pipe(r.value, right.value));
      }
    }

    method ParseLine() returns (r: Parsed<Cmd<Span>>)
      requires Valid()
      modifies this`pos
      ensures Valid() && pos >= old(pos) && Parses(r, Line(old(Rest())))
      decreases end - pos, 3
    {
      hide Tokens, First, SkipSpace, WordAt, Text, PipePart, Backs;
      r := ParsePipe();
      if r.Panic? { return; }
      var cmd := ParseBacks(r.value);
      var semi := PeekAt(';');
      if semi {
        var _, _ := GetToken();
        var right := ParseLine();
        if right.Panic? { return right; }
        cmd := List(cmd, right.value);
      }
      r := Ok(cmd);
    }

    method ParseBacks(cmd0: Cmd<Span>) returns (cmd: Cmd<Span>)
      requires Valid() && CmdWords(s, cmd0)
      modifies this`pos
      ensures Valid() && pos >= old(pos) && CmdWords(s, cmd)
      ensures Backs(TextOf(s, cmd0), old(Rest())) == (TextOf(s, cmd), Rest())
    {
      hide Tokens, First, SkipSpace, WordAt, Text;
      cmd := cmd0;
      ghost var back := Backs(TextOf(s, cmd), Rest());
      while true
        invariant Valid() && pos >= old(pos) && CmdWords(s, cmd) && Backs(TextOf(s, cmd), Rest()) == back
        decreases end - pos
      {
        var amp := PeekAt('&');
        if !amp { break; }
        var _, _ := GetToken();
        cmd := Back(cmd);
      }
    }

    /** parse_cmd: the strings that argv and the file names point to, read up to their NUL,
      * make up exactly the command that the grammar gives for the text. */
    method ParseCmd() returns (r: Parsed<Cmd<Span>>)
      requires Valid() && pos == 0
      modifies this`pos, text
      ensures match Command(s)
              case Panic(e) => r == Panic(e)
              case Ok(c) => r.Ok? && Reads(text[..], r.value) == c
    {
      hide Tokens, First, SkipSpace, WordAt, Line;
      assert s[0..] == s;
      r := ParseLine();
      if r.Panic? { return; }
      PeekTokens(s[pos..]);
      var _ := Peek("");
      if pos != end { return Panic("syntax"); }
      SpansInside(s, r.value);
      NullTerminate(text, r.value);
      ReadsBack(s, text[..], r.value, Ends(r.value)) by { EndsOfWords(s, r.value); }
    }

    method ScanWord()
      requires Valid()
      modifies this`pos
      ensures Valid() && pos == old(pos) + WordLength(s[old(pos)..])
    {
      while pos < end && !IsSpace(text[pos]) && !IsSymbol(text[pos])
        invariant Valid() && old(pos) <= pos && pos + WordLength(s[pos..]) == old(pos) + WordLength(s[old(pos)..])
      {
        assert s[pos..][1..] == s[pos + 1..] && text[pos] == s[pos];
        pos := pos + 1;
      }
      assert pos < end ==> text[pos] == s[pos];
    }
  }

  // ---- the first token, by the first character after the spaces --------------------------

  lemma LexEnd(s: string, s0: string, q: nat)
    requires q <= |s| && s[q..] == SkipSpace(s0)
    ensures Tokens(s0) == [] <==> q == |s|
  {
    hide SkipSpace, WordLength;
  }

  lemma LexGreater(s: string, s0: string, q: nat)
    requires q < |s| && s[q..] == SkipSpace(s0) && s[q] == '>'
    ensures if q + 1 < |s| && s[q + 1] == '>' then Tokens(s0) == [Append] + Tokens(s[q + 2..])
            else Tokens(s0) == [Sym('>')] + Tokens(s[q + 1..])
  {
    hide SkipSpace, WordLength;
    assert s[q..][1..] == s[q + 1..] && (q + 1 < |s| ==> s[q..][2..] == s[q + 2..]);
  }

  lemma LexSymbol(s: string, s0: string, q: nat)
    requires q < |s| && s[q..] == SkipSpace(s0) && IsSymbol(s[q]) && s[q] != '>'
    ensures Tokens(s0) == [Sym(s[q])] + Tokens(s[q + 1..]) && s[q] != '+' && s[q] != 'a'
  {
    hide SkipSpace, WordLength;
    assert s[q..][1..] == s[q + 1..];
  }

  lemma MaximalWord(s: string, q: nat)
    requires q < |s| && !IsSymbol(s[q]) && !IsSpace(s[q]) && forall i :: 0 <= i < |s| ==> s[i] != '\0'
    ensures var p := q + WordLength(s[q..]); q < p <= |s| && WordAt(s, Span(q, p))
  {
    var t, n := s[q..], WordLength(s[q..]);
    WordLengthIs(t);
    forall i | q <= i < q + n ensures IsWordChar(s[i]) { assert t[i - q] == s[i]; }
    assert q + n < |s| ==> t[n] == s[q + n];
    assert t[0] == s[q];
  }

  lemma FirstWord(s0: string, t: string)
    requires t == SkipSpace(s0) && t != "" && !IsSymbol(t[0])
    ensures First(s0) == Got(Word(t[..WordLength(t)]), t[WordLength(t)..])
  {
    hide SkipSpace, WordLength;
  }

  lemma Slices(s: string, q: nat, n: nat)
    requires q + n <= |s|
    ensures s[q..][n..] == s[q + n..] && s[q..][..n] == s[q..q + n]
  {
  }

  lemma TokensStep(s: string)
    requires First(s).Got?
    ensures Tokens(s) == [First(s).token] + Tokens(First(s).rest)
  {
    hide First;
  }

  lemma LexWord(s: string, s0: string, q: nat)
    requires q < |s| && s[q..] == SkipSpace(s0) && !IsSymbol(s[q]) && forall i :: 0 <= i < |s| ==> s[i] != '\0'
    ensures var p := q + WordLength(s[q..]);
            && q < p <= |s| && Tokens(s0) == [Word(Text(s, Span(q, p)))] + Tokens(s[p..]) && WordAt(s, Span(q, p))
  {
    hide SkipSpace, WordLength, WordAt, First, Tokens;
    var t, n := s[q..], WordLength(s[q..]);
    assert t[0] == s[q];
    MaximalWord(s, q);
    FirstWord(s0, t);
    TokensStep(s0);
    Slices(s, q, n);
  }

  // ---- null_terminate ------------------------------------------------------------------

  /** Where null_terminate writes. */
  function Ends(c: Cmd<Span>): set<nat> {
    match c
    case Exec(args) => set i | 0 <= i < |args| :: args[i].hi
    case Redir(cmd, file, _) => Ends(cmd) + {file.hi}
    case Pipe(l, r) => Ends(l) + Ends(r)
    case List(l, r) => Ends(l) + Ends(r)
    case Back(cmd) => Ends(cmd)
  }

  method NullTerminate(text: array<char>, c: Cmd<Span>)
    requires forall e :: e in Ends(c) ==> e < text.Length
    modifies text
    ensures forall i :: 0 <= i < text.Length ==> text[i] == if i in Ends(c) then '\0' else old(text[i])
    decreases c
  {
    match c
    case Exec(args) =>
      for i := 0 to |args|
        invariant forall k ::
                    0 <= k < text.Length ==>
                      text[k] == if exists j :: 0 <= j < i && args[j].hi == k then '\0' else old(text[k])
      {
        assert args[i].hi in Ends(c);
        text[args[i].hi] := '\0';
      }
    case Redir(cmd, file, _) =>
      assert Ends(cmd) <= Ends(c) && file.hi in Ends(c);
      NullTerminate(text, cmd);
      text[file.hi] := '\0';
    case Pipe(l, r) =>
      assert Ends(l) <= Ends(c) && Ends(r) <= Ends(c);
      NullTerminate(text, l);
      NullTerminate(text, r);
    case List(l, r) =>
      assert Ends(l) <= Ends(c) && Ends(r) <= Ends(c);
      NullTerminate(text, l);
      NullTerminate(text, r);
    case Back(cmd) =>
      assert Ends(cmd) <= Ends(c);
      NullTerminate(text, cmd);
  }

  lemma {:induction false} SpansInside(s: string, c: Cmd<Span>)
    requires CmdWords(s, c)
    ensures forall e :: e in Ends(c) ==> e < |s| + 1
  {
    match c
    case Exec(args) => forall i | 0 <= i < |args| ensures args[i].hi <= |s| { assert WordAt(s, args[i]); }
    case Redir(cmd, file, _) => SpansInside(s, cmd);
    case Pipe(l, r) => SpansInside(s, l); SpansInside(s, r);
    case List(l, r) => SpansInside(s, l); SpansInside(s, r);
    case Back(cmd) => SpansInside(s, cmd);
  }

  /** No NUL lands on a word character. */
  lemma {:induction false} EndsOfWords(s: string, c: Cmd<Span>)
    requires CmdWords(s, c)
    ensures forall e :: e in Ends(c) && e < |s| ==> !IsWordChar(s[e])
  {
    match c
    case Exec(args) => forall i | 0 <= i < |args| ensures args[i].hi < |s| ==>
        !IsWordChar(s[args[i].hi]) { assert WordAt(s, args[i]); }
    case Redir(cmd, file, _) => EndsOfWords(s, cmd);
    case Pipe(l, r) => EndsOfWords(s, l); EndsOfWords(s, r);
    case List(l, r) => EndsOfWords(s, l); EndsOfWords(s, r);
    case Back(cmd) => EndsOfWords(s, cmd);
  }

  /** The C string at i. */
  function CString(t: seq<char>, i: nat): string
    decreases |t| - i
  {
    if i >= |t| || t[i] == '\0' then "" else [t[i]] + CString(t, i + 1)
  }

  function ReadAll(t: seq<char>, ws: seq<Span>): seq<string> {
    seq(|ws|, i requires 0 <= i < |ws| => CString(t, ws[i].lo))
  }

  /** The command as run_cmd reads it, through the pointers to its words. */
  function Reads(t: seq<char>, c: Cmd<Span>): Cmd<string> {
    match c
    case Exec(args) => Exec(ReadAll(t, args))
    case Redir(cmd, file, dir) => Redir(Reads(t, cmd), CString(t, file.lo), dir)
    case Pipe(l, r) => Pipe(Reads(t, l), Reads(t, r))
    case List(l, r) => List(Reads(t, l), Reads(t, r))
    case Back(cmd) => Back(Reads(t, cmd))
  }

  lemma {:induction false} CStringIs(s: string, t: seq<char>, lo: nat, hi: nat)
    requires lo <= hi <= |s| && |t| == |s| + 1 && t[hi] == '\0'
    requires forall i :: lo <= i < hi ==> t[i] == s[i] && s[i] != '\0'
    ensures CString(t, lo) == s[lo..hi]
    decreases hi - lo
  {
    if lo < hi {
      CStringIs(s, t, lo + 1, hi);
      assert s[lo..hi] == [s[lo]] + s[lo + 1..hi];
    }
  }

  /** The text after null_terminate, with NULs at the given places. */
  ghost predicate Terminated(s: string, t: seq<char>, ends: set<nat>) {
    && |t| == |s| + 1 && t[|s|] == '\0'
    && (forall i :: 0 <= i < |s| ==> t[i] == if i in ends then '\0' else s[i])
    && (forall e :: e in ends && e < |s| ==> !IsWordChar(s[e]))
  }

  lemma ReadsWord(s: string, t: seq<char>, w: Span, ends: set<nat>)
    requires Terminated(s, t, ends) && WordAt(s, w) && w.hi in ends
    ensures CString(t, w.lo) == Text(s, w)
  {
    CStringIs(s, t, w.lo, w.hi);
  }

  lemma {:induction false} ReadsBack(s: string, t: seq<char>, c: Cmd<Span>, ends: set<nat>)
    requires CmdWords(s, c) && Ends(c) <= ends && Terminated(s, t, ends)
    ensures Reads(t, c) == TextOf(s, c)
  {
    hide Terminated, WordAt, CString, Text;
    match c
    case Exec(args) =>
      forall i | 0 <= i < |args| ensures CString(t, args[i].lo) == Text(s, args[i]) {
        assert args[i].hi in Ends(c);
        ReadsWord(s, t, args[i], ends);
      }
      assert ReadAll(t, args) == Texts(s, args);
    case Redir(cmd, file, _) => ReadsBack(s, t, cmd, ends); ReadsWord(s, t, file, ends);
    case Pipe(l, r) => ReadsBack(s, t, l, ends); ReadsBack(s, t, r, ends);
    case List(l, r) => ReadsBack(s, t, l, ends); ReadsBack(s, t, r, ends);
    case Back(cmd) => ReadsBack(s, t, cmd, ends);
  }

  /** The shell run on the printed text of a command reads back that command. */
  method ParsePrinted(text: array<char>, ghost c: Cmd<string>) returns (r: Parsed<Cmd<Span>>)
    requires Printable(c) && text.Length > 0 && text[..text.Length - 1] == Render(Printed(c))
    requires text[text.Length - 1] == '\0'
    modifies text
    ensures r.Ok? && Reads(text[..], r.value) == c
  {
    hide Command, Render, Printed, Printable;
    PrintedText(c);
    var p := new Parser(text);
    RoundTrip(c);
    r := p.ParseCmd();
  }

  lemma PrintedText(c: Cmd<string>)
    requires Printable(c)
    ensures forall i :: 0 <= i < |Render(Printed(c))| ==> Render(Printed(c))[i] != '\0'
  {
    hide Printable, Printed, Render;
    PrintedPlain(c);
    RenderText(Printed(c));
  }

  lemma {:induction false} RenderText(ts: seq<Token>)
    requires forall i :: 0 <= i < |ts| ==> PlainToken(ts[i])
    ensures forall i :: 0 <= i < |Render(ts)| ==> Render(ts)[i] != '\0'
    decreases |ts|
  {
    if ts != [] {
      RenderText(ts[1..]);
      assert PlainToken(ts[0]);
    }
  }
}
