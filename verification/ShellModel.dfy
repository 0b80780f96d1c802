// The grammar of sh.c on values.  The parser's pointer is the string that is
// left to read; a token's end points count the characters left behind them.

module ShellModel {

  const MAXARGS: nat := 10

  predicate White(c: char) { c == ' ' || c == '\t' || c == '\r' || c == '\n' || c == 0x0B as char }

  predicate Symbol(c: char) { c == '<' || c == '|' || c == '>' || c == '&' || c == ';' || c == '(' || c == ')' }

  /** A character of a word. */
  predicate Plain(c: char) { !White(c) && !Symbol(c) && c != '\0' }

  ghost predicate AllPlain(w: string) {
    forall i | 0 <= i < |w| :: Plain(w[i])
  }

  // ----------------------------------------------------------------- tokens

  /** The word text, with `at` characters left from its start and `end` behind it. */
  datatype Word = Word(text: string, at: nat, end: nat)

  datatype Kind = EndTok | SymTok(c: char) | AppendTok | WordTok

  datatype Token = Token(kind: Kind, word: Word, rest: string)

  function Skip(s: string): (r: string)
    ensures |r| <= |s| && (r != "" ==> !White(r[0]))
  {
    if s != "" && White(s[0]) then Skip(s[1..]) else s
  }

  /** Skip only drops characters in front. */
  lemma {:induction false} SkipDrops(s: string)
    ensures Skip(s) == s[|s| - |Skip(s)|..]
  {
    if s != "" && White(s[0]) {
      SkipDrops(s[1..]);
      var k := |s| - |Skip(s)|;
      assert s[1..][k - 1..] == s[k..];
    }
  }

  /** The characters up to white space, a symbol or the end. */
  function WordLen(s: string): (n: nat)
    ensures n <= |s| && (n < |s| ==> White(s[n]) || Symbol(s[n]))
    ensures forall i | 0 <= i < n :: !White(s[i]) && !Symbol(s[i])
  {
    if s == "" || White(s[0]) || Symbol(s[0]) then 0 else 1 + WordLen(s[1..])
  }

  function TokenAt(s: string, kind: Kind, n: nat): (t: Token)
    requires n <= |s|
    ensures |t.rest| <= |s| - n
  {
    Token(kind, Word(s[..n], |s|, |s| - n), Skip(s[n..]))
  }

  /** gettoken. */
  function GetToken(s: string): (t: Token)
    ensures |t.rest| <= |s|
    ensures t.kind != EndTok ==> |t.rest| < |s|
  {
    var t := Skip(s);
    if t == "" then TokenAt(t, EndTok, 0)
    else if t[0] == '>' && |t| > 1 && t[1] == '>' then TokenAt(t, AppendTok, 2)
    else if Symbol(t[0]) then TokenAt(t, SymTok(t[0]), 1)
    else TokenAt(t, WordTok, WordLen(t))
  }

  /** peek: is the next character one of these? */
  predicate Peek(s: string, toks: set<char>) {
    var t := Skip(s);
    t != "" && t[0] in toks
  }

  // ---------------------------------------------------------------- commands

  datatype Cmd<W> =
    | Exec(argv: seq<W>)
    | Redir(cmd: Cmd<W>, file: W, input: bool)   // '<' reads on descriptor 0; '>' and '>>' both write on 1
    | Pipe(left: Cmd<W>, right: Cmd<W>)
    | List(left: Cmd<W>, right: Cmd<W>)
    | Back(cmd: Cmd<W>)

  datatype Result<T> = Ok(value: T, rest: string) | Panic

  datatype Redirection = Redirection(file: Word, input: bool)

  function Wrap(c: Cmd<Word>, rs: seq<Redirection>): Cmd<Word> {
    if rs == [] then c
    else Redir(Wrap(c, rs[..|rs| - 1]), rs[|rs| - 1].file, rs[|rs| - 1].input)
  }

  /** parseredirs: the redirections at the front, in order. */
  function ParseRedirs(rs: seq<Redirection>, s: string): (r: Result<seq<Redirection>>)
    ensures r.Ok? ==> |r.rest| <= |s|
    decreases |s|
  {
    if !Peek(s, {'<', '>'}) then Ok(rs, Skip(s))
    else
      var tok := GetToken(s);
      var file := GetToken(tok.rest);
      if file.kind != WordTok then Panic
      else ParseRedirs(rs + [Redirection(file.word, tok.kind == SymTok('<'))], file.rest)
  }

  datatype Simple = Simple(argv: seq<Word>, rs: seq<Redirection>)

  /** The words and redirections of a simple command. */
  function ParseArgs(c: Simple, s: string): (r: Result<Simple>)
    ensures r.Ok? ==> |r.rest| <= |s|
    decreases |s|
  {
    if Peek(s, {'|', ')', '&', ';'}) then Ok(c, Skip(s))
    else
      var tok := GetToken(s);
      if tok.kind == EndTok then Ok(c, tok.rest)
      else if tok.kind != WordTok || |c.argv| + 1 >= MAXARGS then Panic
      else
        var redirs := ParseRedirs(c.rs, tok.rest);
        if redirs.Panic? then Panic
        else ParseArgs(Simple(c.argv + [tok.word], redirs.value), redirs.rest)
  }

  function ParseExec(s: string): (r: Result<Cmd<Word>>)
    ensures r.Ok? ==> |r.rest| <= |s|
    decreases |s|, 1
  {
    if Peek(s, {'('}) then ParseBlock(s)
    else
      var redirs := ParseRedirs([], s);
      if redirs.Panic? then Panic
      else
        var args := ParseArgs(Simple([], redirs.value), redirs.rest);
        if args.Panic? then Panic else Ok(Wrap(Exec(args.value.argv), args.value.rs), args.rest)
  }

  function ParseBlock(s: string): (r: Result<Cmd<Word>>)
    requires Peek(s, {'('})
    ensures r.Ok? ==> |r.rest| <= |s|
    decreases |s|, 0
  {
    var line := ParseLine(GetToken(s).rest);
    if line.Panic? || !Peek(line.rest, {')'}) then Panic
    else
      var redirs := ParseRedirs([], GetToken(line.rest).rest);
      if redirs.Panic? then Panic else Ok(Wrap(line.value, redirs.value), redirs.rest)
  }

  function ParsePipe(s: string): (r: Result<Cmd<Word>>)
    ensures r.Ok? ==> |r.rest| <= |s|
    decreases |s|, 2
  {
    var left := ParseExec(s);
    if left.Panic? then Panic
    else if !Peek(left.rest, {'|'}) then Ok(left.value, Skip(left.rest))
    else
      var right := ParsePipe(GetToken(left.rest).rest);
      if right.Panic? then Panic else Ok(Pipe(left.value, right.value), right.rest)
  }

  /** The '&'s behind a pipeline. */
  function ParseBacks(c: Cmd<Word>, s: string): (r: Result<Cmd<Word>>)
    ensures r.Ok? && |r.rest| <= |s|
    decreases |s|
  {
    if Peek(s, {'&'}) then ParseBacks(Back(c), GetToken(s).rest) else Ok(c, Skip(s))
  }

  function ParseLine(s: string): (r: Result<Cmd<Word>>)
    ensures r.Ok? ==> |r.rest| <= |s|
    decreases |s|, 3
  {
    var pipe := ParsePipe(s);
    if pipe.Panic? then Panic
    else
      var backs := ParseBacks(pipe.value, pipe.rest);
      if !Peek(backs.rest, {';'}) then Ok(backs.value, Skip(backs.rest))
      else
        var next := ParseLine(GetToken(backs.rest).rest);
        if next.Panic? then Panic else Ok(List(backs.value, next.value), next.rest)
  }

  /** parsecmd: a line with nothing left over. */
  function ParseCmd(s: string): (r: Result<Cmd<Word>>) {
    var line := ParseLine(s);
    if line.Panic? || Skip(line.rest) != "" then Panic else Ok(line.value, "")
  }

  lemma SkipNone(s: string)
    requires s == "" || !White(s[0])
    ensures Skip(s) == s
  {
  }

  lemma SkipBlank(s: string)
    requires s != "" && White(s[0])
    ensures Skip(s) == Skip(s[1..])
  {
  }
}
