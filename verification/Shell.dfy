// The parser of sh.c as it is written: a pointer that advances along the line,
// and NULs written into the line behind every token of the tree.

module Shell {
  import opened ShellModel

  // ------------------------------------------------------------ where words are

  ghost predicate CString(s: string) {
    forall i | 0 <= i < |s| :: s[i] != '\0'
  }

  ghost predicate Suffix(t: string, s: string) {
    |t| <= |s| && t == s[|s| - |t|..]
  }

  /** The word lies in the line where it says, and ends where words end. */
  ghost predicate GoodWord(s: string, w: Word) {
    && w.end < w.at <= |s| && w.text == s[|s| - w.at..|s| - w.end] && AllPlain(w.text)
    && (w.end > 0 ==> !Plain(s[|s| - w.end]))
  }

  ghost predicate GoodWords(s: string, ws: seq<Word>) {
    forall i | 0 <= i < |ws| :: GoodWord(s, ws[i])
  }

  ghost predicate GoodRedirs(s: string, rs: seq<Redirection>) {
    forall i | 0 <= i < |rs| :: GoodWord(s, rs[i].file)
  }

  ghost predicate GoodCmd(s: string, c: Cmd<Word>) {
    match c
    case Exec(argv) => GoodWords(s, argv)
    case Redir(d, file, _) => GoodCmd(s, d) && GoodWord(s, file)
    case Pipe(l, r) => GoodCmd(s, l) && GoodCmd(s, r)
    case List(l, r) => GoodCmd(s, l) && GoodCmd(s, r)
    case Back(d) => GoodCmd(s, d)
  }

  lemma SuffixSuffix(u: string, t: string, s: string)
    requires Suffix(u, t) && Suffix(t, s)
    ensures Suffix(u, s)
  {
  }

  lemma WordFromSuffix(t: string, s: string, w: Word)
    requires Suffix(t, s) && GoodWord(t, w)
    ensures GoodWord(s, w)
  {
    var d := |s| - |t|;
    assert t[|t| - w.at..|t| - w.end] == s[|s| - w.at..|s| - w.end];
    assert w.end > 0 ==> t[|t| - w.end] == s[|s| - w.end];
  }

  lemma {:induction false} CmdFromSuffix(t: string, s: string, c: Cmd<Word>)
    requires Suffix(t, s) && GoodCmd(t, c)
    ensures GoodCmd(s, c)
  {
    hide GoodWord, Suffix;
    match c
    case Exec(argv) => forall i | 0 <= i < |argv| { WordFromSuffix(t, s, argv[i]); }
    case Redir(d, file, _) => CmdFromSuffix(t, s, d); WordFromSuffix(t, s, file);
    case Pipe(l, r) => CmdFromSuffix(t, s, l); CmdFromSuffix(t, s, r);
    case List(l, r) => CmdFromSuffix(t, s, l); CmdFromSuffix(t, s, r);
    case Back(d) => CmdFromSuffix(t, s, d);
  }

  lemma SkipSuffix(s: string)
    ensures Suffix(Skip(s), s)
  {
    hide Skip;
    SkipDrops(s);
  }

  lemma TokenForm(s: string) returns (n: nat)
    ensures n <= |Skip(s)| && GetToken(s) == TokenAt(Skip(s), GetToken(s).kind, n)
    ensures GetToken(s).kind == WordTok ==>
      n == WordLen(Skip(s)) && Skip(s) != "" && !Symbol(Skip(s)[0]) && !White(Skip(s)[0])
  {
    hide Skip, WordLen;
    var t := Skip(s);
    n := if t == "" then 0
         else if t[0] == '>' && |t| > 1 && t[1] == '>' then 2
         else if Symbol(t[0]) then 1
         else WordLen(t);
  }

  lemma RestSuffix(t: string, kind: Kind, n: nat, s: string)
    requires Suffix(t, s) && n <= |t|
    ensures Suffix(TokenAt(t, kind, n).rest, s)
  {
    hide Skip;
    assert Suffix(t[n..], t);
    SkipSuffix(t[n..]);
    SuffixSuffix(Skip(t[n..]), t[n..], t);
    SuffixSuffix(Skip(t[n..]), t, s);
  }

  /** A token's word lies where it says. */
  lemma TokenGood(s: string)
    requires CString(s)
    ensures Suffix(GetToken(s).rest, s) && CString(GetToken(s).rest)
    ensures GetToken(s).kind == WordTok ==> GoodWord(s, GetToken(s).word)
  {
    hide Skip, WordLen, GetToken, TokenAt, Suffix, GoodWord, CString, White, Symbol;
    var n := TokenForm(s);
    var t, kind := Skip(s), GetToken(s).kind;
    SkipSuffix(s);
    SuffixCString(t, s);
    RestSuffix(t, kind, n, s);
    SuffixCString(GetToken(s).rest, s);
    if kind == WordTok {
      TokenWord(t);
      TokenHas(t, kind, n);
      WordFromSuffix(t, s, Word(t[..n], |t|, |t| - n));
    }
  }

  lemma TokenHas(t: string, kind: Kind, n: nat)
    requires n <= |t|
    ensures TokenAt(t, kind, n).word == Word(t[..n], |t|, |t| - n)
  {
  }

  lemma {:induction false} TokenWord(t: string)
    requires CString(t) && t != "" && !Symbol(t[0]) && !White(t[0])
    ensures GoodWord(t, Word(t[..WordLen(t)], |t|, |t| - WordLen(t)))
  {
  }

  lemma {:induction false} RedirsGood(rs: seq<Redirection>, s: string, all: string)
    requires CString(s) && Suffix(s, all) && GoodRedirs(all, rs)
    ensures var r := ParseRedirs(rs, s); r.Ok? ==> Suffix(r.rest, all) && CString(r.rest) && GoodRedirs(all, r.value)
    decreases |s|
  {
    hide Skip, GetToken, Peek, GoodWord, Suffix;
    if !Peek(s, {'<', '>'}) {
      SkipSuffix(s);
      SuffixSuffix(Skip(s), s, all);
      SuffixCString(Skip(s), s);
    } else {
      var tok := GetToken(s);
      TokenGood(s);
      SuffixSuffix(tok.rest, s, all);
      var file := GetToken(tok.rest);
      TokenGood(tok.rest);
      SuffixSuffix(file.rest, tok.rest, all);
      if file.kind == WordTok {
        WordFromSuffix(tok.rest, all, file.word);
        RedirsGood(rs + [Redirection(file.word, tok.kind == SymTok('<'))], file.rest, all);
      }
    }
  }

  lemma SuffixCString(t: string, s: string)
    requires Suffix(t, s) && CString(s)
    ensures CString(t)
  {
  }

  lemma {:induction false} ArgsGood(c: Simple, s: string, all: string)
    requires CString(s) && Suffix(s, all) && GoodWords(all, c.argv) && GoodRedirs(all, c.rs)
    ensures var r := ParseArgs(c, s);
      r.Ok? ==> Suffix(r.rest, all) && CString(r.rest) && GoodWords(all, r.value.argv) && GoodRedirs(all, r.value.rs)
    decreases |s|
  {
    hide Skip, GetToken, Peek, GoodWord, Suffix, ParseRedirs, GoodRedirs;
    TokenGood(s);
    var tok := GetToken(s);
    SuffixSuffix(tok.rest, s, all);
    SkipSuffix(s);
    SuffixSuffix(Skip(s), s, all);
    SuffixCString(Skip(s), s);
    if !Peek(s, {'|', ')', '&', ';'}) && tok.kind == WordTok && |c.argv| + 1 < MAXARGS {
      RedirsGood(c.rs, tok.rest, all);
      WordFromSuffix(s, all, tok.word);
      var redirs := ParseRedirs(c.rs, tok.rest);
      if redirs.Ok? {
        ArgsGood(Simple(c.argv + [tok.word], redirs.value), redirs.rest, all);
      }
    }
  }

  lemma {:induction false} WrapGood(s: string, c: Cmd<Word>, rs: seq<Redirection>)
    requires GoodCmd(s, c) && GoodRedirs(s, rs)
    ensures GoodCmd(s, Wrap(c, rs))
    decreases |rs|
  {
    hide GoodWord;
    if rs != [] {
      WrapGood(s, c, rs[..|rs| - 1]);
    }
  }

  lemma SuffixSelf(s: string)
    ensures Suffix(s, s)
  {
  }

  /** Every word of a parsed line lies where it says. */
  lemma {:induction false} ExecGood(s: string)
    requires CString(s)
    ensures var r := ParseExec(s); r.Ok? ==> Suffix(r.rest, s) && CString(r.rest) && GoodCmd(s, r.value)
    decreases |s|, 1
  {
    hide Skip, GetToken, Peek, GoodWord, Suffix, ParseRedirs, ParseArgs, ParseBlock, Wrap, GoodRedirs;
    if Peek(s, {'('}) {
      BlockGood(s);
    } else {
      SuffixSelf(s);
      NoRedirsGood(s);
      RedirsGood([], s, s);
      var redirs := ParseRedirs([], s);
      if redirs.Ok? {
        ArgsGood(Simple([], redirs.value), redirs.rest, s);
        var args := ParseArgs(Simple([], redirs.value), redirs.rest);
        if args.Ok? {
          WrapGood(s, Exec(args.value.argv), args.value.rs);
        }
      }
    }
  }

  lemma NoRedirsGood(s: string)
    ensures GoodRedirs(s, []) && GoodWords(s, [])
  {
  }

  lemma {:induction false} BlockGood(s: string)
    requires CString(s) && Peek(s, {'('})
    ensures var r := ParseBlock(s); r.Ok? ==> Suffix(r.rest, s) && CString(r.rest) && GoodCmd(s, r.value)
    decreases |s|, 0
  {
    PeekConsumes(s);
    hide Skip, GetToken, Peek, GoodWord, Suffix, ParseRedirs, ParseLine, Wrap, GoodRedirs, GoodCmd;
    TokenGood(s);
    var t := GetToken(s).rest;
    LineGood(t);
    var line := ParseLine(t);
    if line.Ok? && Peek(line.rest, {')'}) {
      TokenGood(line.rest);
      var u := GetToken(line.rest).rest;
      SuffixSuffix(line.rest, t, s);
      SuffixSuffix(u, line.rest, s);
      NoRedirsGood(s);
      RedirsGood([], u, s);
      CmdFromSuffix(t, s, line.value);
      var redirs := ParseRedirs([], u);
      if redirs.Ok? {
        WrapGood(s, line.value, redirs.value);
      }
    }
  }

  lemma PeekConsumes(s: string)
    ensures Peek(s, {'('}) || Peek(s, {'|'}) || Peek(s, {';'}) || Peek(s, {'&'}) ==> |GetToken(s).rest| < |s|
  {
    hide Skip;
  }

  lemma {:induction false} PipeGood(s: string)
    requires CString(s)
    ensures var r := ParsePipe(s); r.Ok? ==> Suffix(r.rest, s) && CString(r.rest) && GoodCmd(s, r.value)
    decreases |s|, 2
  {
    hide Skip, GetToken, Peek, GoodWord, Suffix, ParseExec;
    ExecGood(s);
    var left := ParseExec(s);
    if left.Ok? {
      SkipSuffix(left.rest);
      SuffixSuffix(Skip(left.rest), left.rest, s);
      SuffixCString(Skip(left.rest), left.rest);
      if Peek(left.rest, {'|'}) {
        PeekConsumes(left.rest);
        TokenGood(left.rest);
        var t := GetToken(left.rest).rest;
        SuffixSuffix(t, left.rest, s);
        PipeGood(t);
        var right := ParsePipe(t);
        if right.Ok? {
          SuffixSuffix(right.rest, t, s);
          CmdFromSuffix(t, s, right.value);
        }
      }
    }
  }

  lemma {:induction false} BacksGood(c: Cmd<Word>, s: string, all: string)
    requires CString(s) && Suffix(s, all) && GoodCmd(all, c)
    ensures var r := ParseBacks(c, s); Suffix(r.rest, all) && CString(r.rest) && GoodCmd(all, r.value)
    decreases |s|
  {
    hide Skip, GetToken, Peek, GoodWord, Suffix;
    if Peek(s, {'&'}) {
      PeekConsumes(s);
      TokenGood(s);
      SuffixSuffix(GetToken(s).rest, s, all);
      BacksGood(Back(c), GetToken(s).rest, all);
    } else {
      SkipSuffix(s);
      SuffixSuffix(Skip(s), s, all);
      SuffixCString(Skip(s), s);
    }
  }

  lemma {:induction false} LineGood(s: string)
    requires CString(s)
    ensures var r := ParseLine(s); r.Ok? ==> Suffix(r.rest, s) && CString(r.rest) && GoodCmd(s, r.value)
    decreases |s|, 3
  {
    hide Skip, GetToken, Peek, GoodWord, Suffix, ParsePipe, ParseBacks;
    PipeGood(s);
    var pipe := ParsePipe(s);
    if pipe.Ok? {
      BacksGood(pipe.value, pipe.rest, s);
      var backs := ParseBacks(pipe.value, pipe.rest);
      SkipSuffix(backs.rest);
      SuffixSuffix(Skip(backs.rest), backs.rest, s);
      SuffixCString(Skip(backs.rest), backs.rest);
      if Peek(backs.rest, {';'}) {
        PeekConsumes(backs.rest);
        TokenGood(backs.rest);
        var t := GetToken(backs.rest).rest;
        SuffixSuffix(t, backs.rest, s);
        LineGood(t);
        var next := ParseLine(t);
        if next.Ok? {
          SuffixSuffix(next.rest, t, s);
          CmdFromSuffix(t, s, next.value);
        }
      }
    }
  }

  // ------------------------------------------------------------ nulterminate

  /** Where nulterminate writes, in a line of n characters. */
  ghost function Ends(n: nat, c: Cmd<Word>): set<int> {
    match c
    case Exec(argv) => set w | w in argv :: n - w.end
    case Redir(d, file, _) => Ends(n, d) + {n - file.end}
    case Pipe(l, r) => Ends(n, l) + Ends(n, r)
    case List(l, r) => Ends(n, l) + Ends(n, r)
    case Back(d) => Ends(n, d)
  }

  ghost predicate HasWord(c: Cmd<Word>, w: Word) {
    match c
    case Exec(argv) => w in argv
    case Redir(d, file, _) => HasWord(d, w) || w == file
    case Pipe(l, r) => HasWord(l, w) || HasWord(r, w)
    case List(l, r) => HasWord(l, w) || HasWord(r, w)
    case Back(d) => HasWord(d, w)
  }

  /** Every recorded end lies in the line or at its NUL, outside every word. */
  lemma {:induction false} EndsOutside(s: string, c: Cmd<Word>, p: int)
    requires GoodCmd(s, c) && p in Ends(|s|, c)
    ensures 0 <= p <= |s| && (p < |s| ==> !Plain(s[p]))
    decreases c
  {
    match c
    case Exec(argv) =>
      var w :| w in argv && p == |s| - w.end;
      assert GoodWord(s, w);
    case Redir(d, file, _) => if p in Ends(|s|, d) { EndsOutside(s, d, p); }
    case Pipe(l, r) => if p in Ends(|s|, l) { EndsOutside(s, l, p); } else { EndsOutside(s, r, p); }
    case List(l, r) => if p in Ends(|s|, l) { EndsOutside(s, l, p); } else { EndsOutside(s, r, p); }
    case Back(d) => EndsOutside(s, d, p);
  }

  lemma {:induction false} WordGoodIn(s: string, c: Cmd<Word>, w: Word)
    requires GoodCmd(s, c) && HasWord(c, w)
    ensures GoodWord(s, w) && |s| - w.end in Ends(|s|, c)
    decreases c
  {
    hide GoodWord;
    match c
    case Exec(argv) =>
    case Redir(d, file, _) => if HasWord(d, w) { WordGoodIn(s, d, w); }
    case Pipe(l, r) => if HasWord(l, w) { WordGoodIn(s, l, w); } else { WordGoodIn(s, r, w); }
    case List(l, r) => if HasWord(l, w) { WordGoodIn(s, l, w); } else { WordGoodIn(s, r, w); }
    case Back(d) => WordGoodIn(s, d, w);
  }

  /** The C string at offset p of a buffer. */
  function CStr(b: string, p: nat): string
    decreases |b| - p
  {
    if p >= |b| || b[p] == '\0' then "" else [b[p]] + CStr(b, p + 1)
  }

  lemma {:induction false} CStrIs(b: string, p: nat, w: string)
    requires p + |w| < |b| && b[p..p + |w|] == w && CString(w) && b[p + |w|] == '\0'
    ensures CStr(b, p) == w
    decreases |w|
  {
    if w != "" {
      assert b[p] == w[0] && b[p + 1..p + |w|] == w[1..];
      CStrIs(b, p + 1, w[1..]);
    }
  }

  /** The line after nulterminate: NULs at the ends, the rest as it was. */
  ghost predicate Terminated(s: string, c: Cmd<Word>, b: string) {
    |b| == |s| + 1 && forall p | 0 <= p <= |s| :: b[p] == if p in Ends(|s|, c) || p == |s| then '\0' else s[p]
  }

  /** After the whole tree is terminated every word still reads back as the token that was parsed. */
  lemma ReadBack(s: string, c: Cmd<Word>, b: string, w: Word)
    requires GoodCmd(s, c) && HasWord(c, w) && Terminated(s, c, b)
    ensures w.at <= |s| && CStr(b, |s| - w.at) == w.text
  {
    WordGoodIn(s, c, w);
    var p := |s| - w.at;
    forall i | 0 <= i < |w.text| ensures b[p + i] == w.text[i] {
      assert Plain(w.text[i]) && s[p + i] == w.text[i];
      if p + i in Ends(|s|, c) {
        EndsOutside(s, c, p + i);
      }
    }
    assert b[p..p + |w.text|] == w.text;
    CStrIs(b, p, w.text);
  }

  /** For every line that parses, terminating the whole tree in place is safe. */
  lemma TerminateIsSafe(s: string, b: string, w: Word)
    requires CString(s) && ParseCmd(s).Ok? && HasWord(ParseCmd(s).value, w) && Terminated(s, ParseCmd(s).value, b)
    ensures w.at <= |s| && CStr(b, |s| - w.at) == w.text
  {
    hide ParseLine, GoodCmd, Terminated;
    LineGood(s);
    ReadBack(s, ParseCmd(s).value, b, w);
  }

  method Nulterminate(buf: array<char>, ghost s: string, c: Cmd<Word>)
    requires buf.Length == |s| + 1 && GoodCmd(s, c)
    modifies buf
    ensures forall p | 0 <= p <= |s| :: buf[p] == if p in Ends(|s|, c) then '\0' else old(buf[p])
    decreases c
  {
    match c
    case Exec(argv) =>
      var i := 0;
      while i < |argv|
        invariant i <= |argv|
        invariant forall p | 0 <= p <= |s| ::
          buf[p] == if exists k | 0 <= k < i :: p == |s| - argv[k].end then '\0' else old(buf[p])
      {
        assert GoodWord(s, argv[i]);
        buf[buf.Length - 1 - argv[i].end] := '\0';
        i := i + 1;
      }
      forall p | 0 <= p <= |s| ensures p in Ends(|s|, c) <==> exists k | 0 <= k < i :: p == |s| - argv[k].end {
      }
    case Redir(d, file, _) =>
      Nulterminate(buf, s, d);
      buf[buf.Length - 1 - file.end] := '\0';
    case Pipe(l, r) =>
      Nulterminate(buf, s, l);
      Nulterminate(buf, s, r);
    case List(l, r) =>
      Nulterminate(buf, s, l);
      Nulterminate(buf, s, r);
    case Back(d) =>
      Nulterminate(buf, s, d);
  }

  // ------------------------------------------------------------------ parser

  lemma SkipTwice(s: string, toks: set<char>)
    ensures Skip(Skip(s)) == Skip(s) && GetToken(Skip(s)) == GetToken(s) && (Peek(Skip(s), toks) <==> Peek(s, toks))
  {
    hide Skip, TokenAt, WordLen, Symbol, White;
    SkipNone(Skip(s));
  }

  class Parser {
    const line: string
    var s: nat

    ghost predicate Valid()
      reads this
    {
      s <= |line|
    }

    /** What is left to read. */
    ghost function Left(): string
      requires Valid()
      reads this
    {
      line[s..]
    }

    constructor (line: string)
      ensures this.line == line && s == 0
    {
      this.line := line;
      s := 0;
    }

    method SkipWhite()
      requires Valid()
      modifies this
      ensures Valid() && Left() == Skip(old(Left()))
    {
      hide Skip, White;
      while s < |line| && White(line[s])
        invariant Valid() && Skip(Left()) == Skip(old(Left()))
      {
        SkipBlank(Left());
        assert Left()[1..] == line[s + 1..];
        s := s + 1;
      }
      SkipNone(Left());
    }

    method Gettoken() returns (t: Token)
      requires Valid()
      modifies this
      ensures Valid() && t == GetToken(old(Left())) && Left() == t.rest
    {
      hide Skip, WordLen, White, Symbol, GetToken, Scans;
      ghost var all := Left();
      SkipWhite();
      var q := s;
      ghost var u := Left();
      var kind := ScanToken();
      ghost var n := s - q;
      assert u[..n] == line[q..s] && u[n..] == line[s..];
      var word := Word(line[q..s], |line| - q, |line| - s);
      SkipWhite();
      t := Token(kind, word, line[s..]);
      TokenIs(all, u, kind, n);
    }

    /** The switch in gettoken. */
    method ScanToken() returns (kind: Kind)
      requires Valid()
      modifies this
      ensures Valid() && s >= old(s) && Scans(old(Left()), kind, s - old(s))
    {
      hide WordLen;
      kind := EndTok;
      if s < |line| {
        if Symbol(line[s]) {
          kind := SymTok(line[s]);
          s := s + 1;
          if line[s - 1] == '>' && s < |line| && line[s] == '>' {
            kind := AppendTok;
            s := s + 1;
          }
        } else {
          kind := WordTok;
          ScanWord();
        }
      }
    }

    method ScanWord()
      requires Valid()
      modifies this
      ensures Valid() && s == old(s) + WordLen(old(Left()))
    {
      ghost var start := s;
      while s < |line| && !White(line[s]) && !Symbol(line[s])
        invariant start <= s && Valid() && s - start + WordLen(Left()) == WordLen(old(Left()))
      {
        assert Left()[1..] == line[s + 1..];
        s := s + 1;
      }
    }

    method PeekAt(toks: set<char>) returns (b: bool)
      requires Valid()
      modifies this
      ensures Valid() && Left() == Skip(old(Left())) && b == Peek(old(Left()), toks)
    {
      hide Skip;
      SkipWhite();
      b := s < |line| && line[s] in toks;
    }

    method Parseredirs(rs0: seq<Redirection>) returns (r: Result<seq<Redirection>>)
      requires Valid()
      modifies this
      ensures Valid() && r == ParseRedirs(rs0, old(Left())) && (r.Ok? ==> Left() == r.rest)
    {
      hide Skip, GetToken, Peek, ParseRedirs;
      var rs := rs0;
      ghost var was := Left();
      SkipTwice(was, {'<', '>'});
      var more := PeekAt({'<', '>'});
      while more
        invariant Valid() && Skip(was) == Left() && GetToken(was) == GetToken(Left()) && more == Peek(was, {'<', '>'})
        invariant ParseRedirs(rs0, old(Left())) == ParseRedirs(rs, was)
        decreases |was|
      {
        RedirsStep(rs, was);
        var tok := Gettoken();
        var file := Gettoken();
        if file.kind != WordTok {
          return Panic;
        }
        rs := rs + [Redirection(file.word, tok.kind == SymTok('<'))];
        was := Left();
        SkipTwice(was, {'<', '>'});
        more := PeekAt({'<', '>'});
      }
      RedirsStop(rs, was);
      r := Ok(rs, line[s..]);
    }

    method Parseargs(c0: Simple) returns (r: Result<Simple>)
      requires Valid() && |c0.argv| < MAXARGS
      modifies this
      ensures Valid() && r == ParseArgs(c0, old(Left())) && (r.Ok? ==> Left() == r.rest)
    {
      hide Skip, GetToken, Peek, ParseRedirs;
      var c := c0;
      ghost var was := Left();
      SkipTwice(was, {'|', ')', '&', ';'});
      var stop := PeekAt({'|', ')', '&', ';'});
      while !stop
        invariant Valid() && Skip(was) == Left() && GetToken(was) == GetToken(Left())
        invariant stop == Peek(was, {'|', ')', '&', ';'})
        invariant ParseArgs(c0, old(Left())) == ParseArgs(c, was) && |c.argv| < MAXARGS
        decreases |was|
      {
        var tok := Gettoken();
        if tok.kind == EndTok {
          return Ok(c, line[s..]);
        }
        if tok.kind != WordTok || |c.argv| + 1 >= MAXARGS {
          return Panic;
        }
        var redirs := Parseredirs(c.rs);
        if redirs.Panic? {
          return Panic;
        }
        c := Simple(c.argv + [tok.word], redirs.value);
        was := Left();
        SkipTwice(was, {'|', ')', '&', ';'});
        stop := PeekAt({'|', ')', '&', ';'});
      }
      r := Ok(c, line[s..]);
    }

    method Parseexec() returns (r: Result<Cmd<Word>>)
      requires Valid()
      modifies this
      ensures Valid() && r == ParseExec(old(Left())) && (r.Ok? ==> Left() == r.rest)
      decreases |line| - s, 1
    {
      hide Skip, GetToken, Peek, ParseRedirs, ParseArgs, ParseBlock, ParseExec, Wrap;
      ghost var was := Left();
      ExecForm(was);
      SkipTwice(was, {'('});
      var open := PeekAt({'('});
      if open {
        BlockSkips(was);
        r := Parseblock();
        return;
      }
      RedirsSkips([], was);
      var redirs := Parseredirs([]);
      if redirs.Panic? {
        return Panic;
      }
      var args := Parseargs(Simple([], redirs.value));
      if args.Panic? {
        return Panic;
      }
      r := Ok(Wrap(Exec(args.value.argv), args.value.rs), line[s..]);
    }

    method Parseblock() returns (r: Result<Cmd<Word>>)
      requires Valid() && Peek(Left(), {'('})
      modifies this
      ensures Valid() && r == ParseBlock(old(Left())) && (r.Ok? ==> Left() == r.rest)
      decreases |line| - s, 0
    {
      PeekConsumes(Left());
      hide Skip, GetToken, Peek, ParseRedirs, ParseLine;
      var tok := Gettoken();
      var inner := Parseline();
      if inner.Panic? {
        return Panic;
      }
      ghost var was := Left();
      SkipTwice(was, {')'});
      var close := PeekAt({')'});
      if !close {
        return Panic;
      }
      tok := Gettoken();
      var redirs := Parseredirs([]);
      if redirs.Panic? {
        return Panic;
      }
      r := Ok(Wrap(inner.value, redirs.value), line[s..]);
    }

    method Parsepipe() returns (r: Result<Cmd<Word>>)
      requires Valid()
      modifies this
      ensures Valid() && r == ParsePipe(old(Left())) && (r.Ok? ==> Left() == r.rest)
      decreases |line| - s, 2
    {
      hide Skip, GetToken, Peek, ParseExec;
      var left := Parseexec();
      if left.Panic? {
        return Panic;
      }
      ghost var was := Left();
      SkipTwice(was, {'|'});
      PeekConsumes(was);
      var more := PeekAt({'|'});
      if !more {
        return Ok(left.value, line[s..]);
      }
      var tok := Gettoken();
      var right := Parsepipe();
      if right.Panic? {
        return Panic;
      }
      r := Ok(Pipe(left.value, right.value), line[s..]);
    }

    method Parseline() returns (r: Result<Cmd<Word>>)
      requires Valid()
      modifies this
      ensures Valid() && r == ParseLine(old(Left())) && (r.Ok? ==> Left() == r.rest)
      decreases |line| - s, 3
    {
      hide Skip, GetToken, Peek, ParsePipe, ParseBacks;
      var pipe := Parsepipe();
      if pipe.Panic? {
        return Panic;
      }
      var cmd := Parsebacks(pipe.value);
      ghost var was := ParseBacks(pipe.value, pipe.rest).rest;
      SkipTwice(was, {';'});
      PeekConsumes(was);
      var more := PeekAt({';'});
      if !more {
        return Ok(cmd, line[s..]);
      }
      var tok := Gettoken();
      var next := Parseline();
      if next.Panic? {
        return Panic;
      }
      r := Ok(List(cmd, next.value), line[s..]);
    }

    method Parsebacks(c0: Cmd<Word>) returns (c: Cmd<Word>)
      requires Valid()
      modifies this
      ensures Valid() && Ok(c, Left()) == ParseBacks(c0, old(Left()))
    {
      hide Skip, GetToken, Peek;
      c := c0;
      ghost var was := Left();
      SkipTwice(was, {'&'});
      var more := PeekAt({'&'});
      while more
        invariant Valid() && Skip(was) == Left() && GetToken(was) == GetToken(Left()) && more == Peek(was, {'&'})
        invariant ParseBacks(c0, old(Left())) == ParseBacks(c, was)
        decreases |was|
      {
        PeekConsumes(was);
        var tok := Gettoken();
        c := Back(c);
        was := Left();
        SkipTwice(was, {'&'});
        more := PeekAt({'&'});
      }
    }

    /** parsecmd up to nulterminate. */
    method Parsecmd() returns (r: Result<Cmd<Word>>)
      requires s == 0
      modifies this
      ensures r == ParseCmd(line)
    {
      hide Skip, ParseLine;
      assert line[0..] == line;
      var cmd := Parseline();
      if cmd.Panic? {
        return Panic;
      }
      SkipWhite();
      if s != |line| {
        return Panic;
      }
      r := Ok(cmd.value, "");
    }
  }

  /** Every word of the tree reads back from the buffer as it was parsed. */
  ghost predicate AllReadBack(line: string, c: Cmd<Word>, b: string) {
    forall w: Word | HasWord(c, w) :: w.at <= |line| && CStr(b, |line| - w.at) == w.text
  }

  lemma CmdGood(line: string)
    requires CString(line) && ParseCmd(line).Ok?
    ensures GoodCmd(line, ParseCmd(line).value)
  {
    hide ParseLine, GoodCmd;
    LineGood(line);
  }

  lemma CmdReadBack(line: string, b: string)
    requires CString(line) && ParseCmd(line).Ok? && Terminated(line, ParseCmd(line).value, b)
    ensures AllReadBack(line, ParseCmd(line).value, b)
  {
    hide ParseCmd, HasWord, CStr, Terminated;
    forall w: Word | HasWord(ParseCmd(line).value, w) ensures w.at <= |line| && CStr(b, |line| - w.at) == w.text {
      TerminateIsSafe(line, b, w);
    }
  }

  /** parsecmd: the tree of the line, with every word terminated in the buffer. */
  method ParseAndTerminate(buf: array<char>, line: string) returns (r: Result<Cmd<Word>>)
    requires CString(line) && buf.Length == |line| + 1 && buf[..] == line + ['\0']
    modifies buf
    ensures r == ParseCmd(line) && (r.Panic? ==> buf[..] == old(buf[..]))
    ensures r.Ok? ==> AllReadBack(line, r.value, buf[..])
  {
    hide ParseCmd, AllReadBack, GoodCmd, Ends, CString;
    var p := new Parser(line);
    r := p.Parsecmd();
    if r.Ok? {
      CmdGood(line);
      ghost var was := buf[..];
      Nulterminate(buf, line, r.value);
      IsTerminated(line, r.value, was, buf[..]);
      CmdReadBack(line, buf[..]);
    }
  }

  lemma IsTerminated(line: string, c: Cmd<Word>, was: string, b: string)
    requires was == line + ['\0'] && |b| == |line| + 1
    requires forall p | 0 <= p <= |line| :: b[p] == if p in Ends(|line|, c) then '\0' else was[p]
    ensures Terminated(line, c, b)
  {
    hide Ends;
  }

  /** What the switch does to a line that starts with no white space. */
  predicate Scans(t: string, kind: Kind, n: nat) {
    if t == "" then kind == EndTok && n == 0
    else if t[0] == '>' && |t| > 1 && t[1] == '>' then kind == AppendTok && n == 2
    else if Symbol(t[0]) then kind == SymTok(t[0]) && n == 1
    else kind == WordTok && n == WordLen(t)
  }

  lemma TokenIs(s: string, t: string, kind: Kind, n: nat)
    requires t == Skip(s) && Scans(t, kind, n)
    ensures n <= |t| && GetToken(s) == Token(kind, Word(t[..n], |t|, |t| - n), Skip(t[n..]))
  {
    hide Skip, WordLen, White, Symbol, GetToken;
    TokenAtIs(s, t, kind, n);
    TokenFields(t, kind, n);
  }

  lemma TokenAtIs(s: string, t: string, kind: Kind, n: nat)
    requires t == Skip(s) && Scans(t, kind, n)
    ensures n <= |t| && GetToken(s) == TokenAt(t, kind, n)
  {
    hide Skip, WordLen, White, Symbol, TokenAt;
  }

  lemma TokenFields(t: string, kind: Kind, n: nat)
    requires n <= |t|
    ensures TokenAt(t, kind, n) == Token(kind, Word(t[..n], |t|, |t| - n), Skip(t[n..]))
  {
    hide Skip;
  }

  lemma RedirsStep(rs: seq<Redirection>, s: string)
    requires Peek(s, {'<', '>'})
    ensures var tok := GetToken(s); var file := GetToken(tok.rest);
      && |file.rest| < |s|
      && ParseRedirs(rs, s) ==
        if file.kind != WordTok then Panic
        else ParseRedirs(rs + [Redirection(file.word, tok.kind == SymTok('<'))], file.rest)
  {
    assert |GetToken(s).rest| < |s| by { RedirConsumes(s); }
    hide Skip, GetToken, Peek;
  }

  lemma RedirConsumes(s: string)
    requires Peek(s, {'<', '>'})
    ensures |GetToken(s).rest| < |s|
  {
    hide Skip;
  }

  lemma RedirsStop(rs: seq<Redirection>, s: string)
    requires !Peek(s, {'<', '>'})
    ensures ParseRedirs(rs, s) == Ok(rs, Skip(s))
  {
    hide Skip;
  }

  lemma BlockSkips(s: string)
    requires Peek(s, {'('}) && Peek(Skip(s), {'('})
    ensures ParseBlock(Skip(s)) == ParseBlock(s)
  {
    SkipTwice(s, {'('});
    hide Skip, GetToken, Peek, ParseLine, ParseRedirs;
  }

  lemma RedirsSkips(rs: seq<Redirection>, s: string)
    ensures ParseRedirs(rs, Skip(s)) == ParseRedirs(rs, s)
  {
    hide Skip, GetToken, Peek, ParseRedirs;
    SkipTwice(s, {'<', '>'});
    if Peek(s, {'<', '>'}) {
      RedirsStep(rs, s);
      RedirsStep(rs, Skip(s));
    } else {
      RedirsStop(rs, s);
      RedirsStop(rs, Skip(s));
    }
  }

  lemma ExecForm(s: string)
    ensures ParseExec(s) ==
      if Peek(s, {'('}) then ParseBlock(s)
      else if ParseRedirs([], s).Panic? then Panic
      else
        var args := ParseArgs(Simple([], ParseRedirs([], s).value), ParseRedirs([], s).rest);
        if args.Panic? then Panic else Ok(Wrap(Exec(args.value.argv), args.value.rs), args.rest)
  {
    hide Skip, GetToken, Peek, ParseRedirs, ParseArgs, ParseBlock, Wrap;
  }
}
