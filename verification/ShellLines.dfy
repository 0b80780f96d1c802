// The lines that the shell's parser accepts, as people write them: words and
// redirections in any order, pipelines, lists, background marks, parentheses,
// and blanks anywhere between tokens.  The parser against this grammar.

module ShellLines {
  import opened ShellModel

  // ------------------------------------------------------------------ spelling

  predicate IsWord(w: string) { w != "" && forall i | 0 <= i < |w| :: Plain(w[i]) }

  predicate Blank(g: string) { forall i | 0 <= i < |g| :: White(g[i]) }

  /** What may follow a word directly. */
  predicate Ends(t: string) { t == "" || White(t[0]) || Symbol(t[0]) }

  datatype Op = In | Out | Append

  function OpText(op: Op): string {
    match op
    case In => "<"
    case Out => ">"
    case Append => ">>"
  }

  /** A redirection, with the blanks behind the operator and behind the file. */
  datatype Redirect = Redirect(op: Op, gap: string, file: string, after: string)

  datatype Piece = Arg(text: string, after: string) | To(r: Redirect)

  datatype Item = Command(pieces: seq<Piece>) | Group(gap: string, line: Line, after: string, redirs: seq<Redirect>)

  datatype Pipeline = One(item: Item) | Bar(item: Item, gap: string, next: Pipeline)

  // backs holds the blanks behind each '&'
  datatype Line =
    | Last(pipe: Pipeline, backs: seq<string>)
    | Then(pipe: Pipeline, backs: seq<string>, gap: string, next: Line)

  // Each Show puts the text of its part in front of t.

  function ShowRedirect(r: Redirect, t: string): string {
    OpText(r.op) + (r.gap + (r.file + (r.after + t)))
  }

  function ShowRedirects(rs: seq<Redirect>, t: string): string {
    if rs == [] then t else ShowRedirect(rs[0], ShowRedirects(rs[1..], t))
  }

  function ShowPiece(p: Piece, t: string): string {
    match p
    case Arg(text, after) => text + (after + t)
    case To(r) => ShowRedirect(r, t)
  }

  function ShowPieces(ps: seq<Piece>, t: string): string {
    if ps == [] then t else ShowPiece(ps[0], ShowPieces(ps[1..], t))
  }

  function ShowBacks(backs: seq<string>, t: string): string {
    if backs == [] then t else "&" + (backs[0] + ShowBacks(backs[1..], t))
  }

  function ShowItem(i: Item, t: string): string {
    match i
    case Command(ps) => ShowPieces(ps, t)
    case Group(gap, line, after, rs) => "(" + (gap + ShowLine(line, ")" + (after + ShowRedirects(rs, t))))
  }

  function ShowPipe(p: Pipeline, t: string): string {
    match p
    case One(i) => ShowItem(i, t)
    case Bar(i, gap, next) => ShowItem(i, "|" + (gap + ShowPipe(next, t)))
  }

  function ShowLine(l: Line, t: string): string {
    match l
    case Last(p, backs) => ShowPipe(p, ShowBacks(backs, t))
    case Then(p, backs, gap, next) => ShowPipe(p, ShowBacks(backs, ";" + (gap + ShowLine(next, t))))
  }

  // Words are words, blanks are blanks, and two words have a blank between them.

  predicate GoodRedirect(r: Redirect, t: string) {
    Blank(r.gap) && IsWord(r.file) && Blank(r.after) && Ends(r.after + t)
  }

  predicate GoodRedirects(rs: seq<Redirect>, t: string) {
    rs != [] ==> GoodRedirect(rs[0], ShowRedirects(rs[1..], t)) && GoodRedirects(rs[1..], t)
  }

  predicate GoodPiece(p: Piece, t: string) {
    match p
    case Arg(text, after) => IsWord(text) && Blank(after) && Ends(after + t)
    case To(r) => GoodRedirect(r, t)
  }

  predicate GoodPieces(ps: seq<Piece>, t: string) {
    ps != [] ==> GoodPiece(ps[0], ShowPieces(ps[1..], t)) && GoodPieces(ps[1..], t)
  }

  predicate GoodItem(i: Item, t: string) {
    match i
    case Command(ps) => GoodPieces(ps, t)
    case Group(gap, line, after, rs) =>
      && Blank(gap) && Blank(after) && GoodRedirects(rs, t)
      && GoodLine(line, ")" + (after + ShowRedirects(rs, t)))
  }

  predicate GoodPipe(p: Pipeline, t: string) {
    match p
    case One(i) => GoodItem(i, t)
    case Bar(i, gap, next) => GoodItem(i, "|" + (gap + ShowPipe(next, t))) && Blank(gap) && GoodPipe(next, t)
  }

  predicate GoodBacks(backs: seq<string>) { forall i | 0 <= i < |backs| :: Blank(backs[i]) }

  predicate GoodLine(l: Line, t: string) {
    match l
    case Last(p, backs) => GoodPipe(p, ShowBacks(backs, t)) && GoodBacks(backs)
    case Then(p, backs, gap, next) =>
      && GoodPipe(p, ShowBacks(backs, ";" + (gap + ShowLine(next, t)))) && GoodBacks(backs)
      && Blank(gap) && GoodLine(next, t)
  }

  // ------------------------------------------------------------------- meaning

  // A redirection without its spelling: the file, and whether it is read.
  type Mark = (string, bool)

  function MarkOf(r: Redirect): Mark { (r.file, r.op.In?) }

  function Marks(rs: seq<Redirect>): seq<Mark> {
    if rs == [] then [] else [MarkOf(rs[0])] + Marks(rs[1..])
  }

  /** Each redirection around all that stands before it: the first is innermost. */
  function Nest(c: Cmd<string>, ms: seq<Mark>): Cmd<string>
    decreases |ms|
  {
    if ms == [] then c else Nest(Redir(c, ms[0].0, ms[0].1), ms[1..])
  }

  function Args(ps: seq<Piece>): seq<string> {
    if ps == [] then [] else (if ps[0].Arg? then [ps[0].text] else []) + Args(ps[1..])
  }

  function Redirects(ps: seq<Piece>): seq<Mark> {
    if ps == [] then [] else (if ps[0].To? then [MarkOf(ps[0].r)] else []) + Redirects(ps[1..])
  }

  function Backs(c: Cmd<string>, n: nat): Cmd<string>
    decreases n
  {
    if n == 0 then c else Backs(Back(c), n - 1)
  }

  function ItemMeans(i: Item): Cmd<string> {
    match i
    case Command(ps) => Nest(Exec(Args(ps)), Redirects(ps))
    case Group(_, line, _, rs) => Nest(LineMeans(line), Marks(rs))
  }

  function PipeMeans(p: Pipeline): Cmd<string> {
    match p
    case One(i) => ItemMeans(i)
    case Bar(i, _, next) => Pipe(ItemMeans(i), PipeMeans(next))
  }

  function LineMeans(l: Line): Cmd<string> {
    match l
    case Last(p, backs) => Backs(PipeMeans(p), |backs|)
    case Then(p, backs, _, next) => List(Backs(PipeMeans(p), |backs|), LineMeans(next))
  }

  /** At most 9 words in each simple command. */
  predicate ItemFits(i: Item) {
    match i
    case Command(ps) => |Args(ps)| < MAXARGS
    case Group(_, line, _, _) => LineFits(line)
  }

  predicate PipeFits(p: Pipeline) {
    match p
    case One(i) => ItemFits(i)
    case Bar(i, _, next) => ItemFits(i) && PipeFits(next)
  }

  predicate LineFits(l: Line) {
    match l
    case Last(p, _) => PipeFits(p)
    case Then(p, _, _, next) => PipeFits(p) && LineFits(next)
  }

  // -------------------------------------------------------- the parser's answer

  function WordTexts(ws: seq<Word>): (r: seq<string>)
    ensures |r| == |ws| && forall i | 0 <= i < |ws| :: r[i] == ws[i].text
  {
    seq(|ws|, i requires 0 <= i < |ws| => ws[i].text)
  }

  function RedirMarks(rs: seq<Redirection>): (r: seq<Mark>)
    ensures |r| == |rs| && forall i | 0 <= i < |rs| :: r[i] == (rs[i].file.text, rs[i].input)
  {
    seq(|rs|, i requires 0 <= i < |rs| => (rs[i].file.text, rs[i].input))
  }

  function Texts(c: Cmd<Word>): Cmd<string> {
    match c
    case Exec(argv) => Exec(WordTexts(argv))
    case Redir(d, file, input) => Redir(Texts(d), file.text, input)
    case Pipe(l, r) => Pipe(Texts(l), Texts(r))
    case List(l, r) => List(Texts(l), Texts(r))
    case Back(d) => Back(Texts(d))
  }

  /** Parsed as c, up to positions. */
  predicate Reads(r: Result<Cmd<Word>>, c: Cmd<string>, rest: string) {
    r.Ok? && Texts(r.value) == c && r.rest == rest
  }

  // -------------------------------------------------------------------- tokens

  lemma {:induction false} SkipBlanks(g: string, t: string)
    requires Blank(g)
    ensures Skip(g + t) == Skip(t)
  {
    if g == "" {
      assert g + t == t;
    } else {
      SkipBlanks(g[1..], t);
      assert (g + t)[1..] == g[1..] + t && (g + t)[0] == g[0];
    }
  }

  lemma SkipAgain(s: string)
    ensures Skip(Skip(s)) == Skip(s) && GetToken(Skip(s)) == GetToken(s)
  {
    hide Skip, TokenAt, WordLen;
    SkipNone(Skip(s));
  }

  lemma PeekAgain(s: string, toks: set<char>)
    ensures Peek(Skip(s), toks) == Peek(s, toks)
  {
    hide Skip;
    SkipNone(Skip(s));
  }

  /** The sets of characters that the parser peeks for. */
  lemma Peeks(s: string, c: char)
    requires s != "" && s[0] == c && !White(c)
    ensures Skip(s) == s && (Peek(s, {'('}) <==> c == '(') && (Peek(s, {')'}) <==> c == ')')
    ensures (Peek(s, {'|'}) <==> c == '|') && (Peek(s, {'&'}) <==> c == '&') && (Peek(s, {';'}) <==> c == ';')
    ensures (Peek(s, {'<', '>'}) <==> c == '<' || c == '>')
    ensures (Peek(s, {'|', ')', '&', ';'}) <==> c == '|' || c == ')' || c == '&' || c == ';')
  {
    hide Skip, White;
    SkipNone(s);
  }

  lemma WordLenIs(w: string, t: string)
    requires IsWord(w) && Ends(t)
    ensures WordLen(w + t) == |w|
  {
    var s := w + t;
    assert forall i | 0 <= i < |w| :: s[i] == w[i];
    assert t != "" ==> s[|w|] == t[0];
  }

  lemma WordToken(w: string, t: string)
    requires IsWord(w) && Ends(t)
    ensures GetToken(w + t).kind == WordTok && GetToken(w + t).word.text == w && GetToken(w + t).rest == Skip(t)
    ensures (w + t)[0] == w[0] && Plain(w[0]) && Skip(w + t) == w + t
  {
    hide Skip, WordLen;
    var s := w + t;
    assert s[0] == w[0] && Plain(s[0]);
    SkipNone(s);
    WordLenIs(w, t);
    assert s[|w|..] == t && s[..|w|] == w;
  }

  lemma SymbolToken(c: char, t: string)
    requires Symbol(c) && !(c == '>' && t != "" && t[0] == '>')
    ensures GetToken([c] + t).kind == SymTok(c) && GetToken([c] + t).rest == Skip(t)
    ensures ([c] + t)[0] == c && Skip([c] + t) == [c] + t
  {
    hide Skip;
    var s := [c] + t;
    assert s[0] == c && s[1..] == t && (|s| > 1 ==> s[1] == t[0]);
    SkipNone(s);
  }

  lemma OpToken(op: Op, t: string)
    requires t != "" ==> t[0] != '>'
    ensures var s := OpText(op) + t;
      && (GetToken(s).kind == SymTok('<') <==> op == In) && GetToken(s).rest == Skip(t)
      && s != "" && s[0] == if op == In then '<' else '>'
  {
    hide Skip, GetToken;
    match op
    case In => SymbolToken('<', t);
    case Out => SymbolToken('>', t);
    case Append => AppendToken(t);
  }

  lemma {:induction false} AppendToken(t: string)
    ensures GetToken(">>" + t).kind == AppendTok && GetToken(">>" + t).rest == Skip(t) && (">>" + t)[0] == '>'
  {
    hide Skip, WordLen;
    var s := ">>" + t;
    assert s[0] == '>' && s[1] == '>' && s[2..] == t;
    SkipNone(s);
  }

  // ------------------------------------------------------ words and redirections

  lemma {:induction false} RedirStep(rs: seq<Redirection>, s: string)
    requires Peek(s, {'<', '>'}) && GetToken(GetToken(s).rest).kind == WordTok
    ensures var file := GetToken(GetToken(s).rest);
      ParseRedirs(rs, s) == ParseRedirs(rs + [Redirection(file.word, GetToken(s).kind == SymTok('<'))], file.rest)
  {
    hide Peek, GetToken;
  }

  lemma {:induction false} RedirsEnd(rs: seq<Redirection>, s: string)
    ensures !Peek(s, {'<', '>'}) ==> ParseRedirs(rs, s) == Ok(rs, Skip(s))
    ensures Peek(s, {'<', '>'}) && GetToken(GetToken(s).rest).kind != WordTok ==> ParseRedirs(rs, s) == Panic
  {
    hide Skip, Peek, GetToken;
  }

  lemma {:induction false} RedirsSkip(rs: seq<Redirection>, s: string)
    ensures ParseRedirs(rs, Skip(s)) == ParseRedirs(rs, s)
  {
    hide Skip, GetToken, Peek, ParseRedirs;
    SkipAgain(s);
    PeekAgain(s, {'<', '>'});
    RedirsEnd(rs, s);
    RedirsEnd(rs, Skip(s));
    if Peek(s, {'<', '>'}) && GetToken(GetToken(s).rest).kind == WordTok {
      RedirStep(rs, s);
      RedirStep(rs, Skip(s));
    }
  }

  lemma NoRedirs(rs: seq<Redirection>, s: string)
    requires s == "" || (!White(s[0]) && s[0] != '<' && s[0] != '>')
    ensures ParseRedirs(rs, s) == Ok(rs, s)
  {
    hide Skip;
    SkipNone(s);
  }

  /** parseredirs on one redirection. */
  lemma RedirBack(rs: seq<Redirection>, r: Redirect, t: string) returns (d: Redirection)
    requires GoodRedirect(r, t)
    ensures d.file.text == r.file && d.input == r.op.In?
    ensures ParseRedirs(rs, ShowRedirect(r, t)) == ParseRedirs(rs + [d], t)
    ensures ShowRedirect(r, t) != "" && ShowRedirect(r, t)[0] == if r.op.In? then '<' else '>'
  {
    var s, u, v := ShowRedirect(r, t), r.gap + (r.file + (r.after + t)), r.file + (r.after + t);
    assert u[0] != '>' by { GapFirst(r.gap, r.file, r.after + t); }
    hide Skip, GetToken, Peek, ParseRedirs, IsWord, Blank, Ends, White;
    OpToken(r.op, u);
    Peeks(s, if r.op.In? then '<' else '>') by { assert !White('<') && !White('>') by { NotWhite(); } }
    SkipBlanks(r.gap, v);
    WordToken(r.file, r.after + t);
    assert GetToken(s).rest == v;
    SkipBlanks(r.after, t);
    RedirStep(rs, s);
    d := Redirection(GetToken(v).word, r.op.In?);
    RedirsSkip(rs + [d], t);
  }

  lemma NotWhite()
    ensures forall c | Symbol(c) :: !White(c)
  {
  }

  lemma GapFirst(gap: string, file: string, t: string)
    requires Blank(gap) && IsWord(file)
    ensures gap + (file + t) != "" && (gap + (file + t))[0] != '>'
  {
    var u := gap + (file + t);
    assert u[0] == if gap == "" then file[0] else gap[0];
    assert Plain(file[0]) && (gap != "" ==> White(gap[0]));
  }

  /** The redirections and words from here on. */
  function ParseRest(c: Simple, s: string): Result<Simple> {
    var redirs := ParseRedirs(c.rs, s);
    if redirs.Panic? then Panic else ParseArgs(Simple(c.argv, redirs.value), redirs.rest)
  }

  lemma RestRedir(c: Simple, r: Redirect, t: string) returns (d: Redirection)
    requires GoodRedirect(r, t)
    ensures d.file.text == r.file && d.input == r.op.In?
    ensures ParseRest(c, ShowRedirect(r, t)) == ParseRest(Simple(c.argv, c.rs + [d]), t)
  {
    hide ParseRedirs, ParseArgs, GoodRedirect, ShowRedirect;
    d := RedirBack(c.rs, r, t);
  }

  lemma ArgsStep(c: Simple, s: string)
    requires !Peek(s, {'|', ')', '&', ';'}) && GetToken(s).kind == WordTok
    ensures ParseArgs(c, s) ==
      if |c.argv| + 1 >= MAXARGS then Panic else ParseRest(Simple(c.argv + [GetToken(s).word], c.rs), GetToken(s).rest)
  {
    hide GetToken, Peek, ParseRedirs;
  }

  lemma RestWord(c: Simple, w: string, after: string, t: string)
    requires IsWord(w) && Blank(after) && Ends(after + t)
    ensures GetToken(w + (after + t)).word.text == w
    ensures ParseRest(c, w + (after + t)) ==
      if |c.argv| + 1 >= MAXARGS then Panic
      else ParseRest(Simple(c.argv + [GetToken(w + (after + t)).word], c.rs), t)
  {
    var s := w + (after + t);
    assert Plain(w[0]) ==> !White(w[0]) && !Symbol(w[0]);
    hide Skip, GetToken, Peek, ParseRedirs, ParseArgs, IsWord, Blank, Ends, White, Plain;
    WordToken(w, after + t);
    assert Symbol('|') && Symbol(')') && Symbol('&') && Symbol(';') && Symbol('<') && Symbol('>');
    Peeks(s, w[0]);
    NoRedirs(c.rs, s);
    ArgsStep(c, s);
    SkipBlanks(after, t);
    RedirsSkip(c.rs, t);
  }

  /** What may follow a simple command. */
  predicate Stops(t: string) { t == "" || t[0] in {'|', ')', '&', ';'} }

  lemma StopFacts(t: string)
    requires Stops(t)
    ensures Skip(t) == t && Ends(t) && !Peek(t, {'<', '>'}) && !Peek(t, {'('})
    ensures t != "" ==> Peek(t, {'|', ')', '&', ';'})
    ensures t == "" ==> GetToken(t).kind == EndTok && GetToken(t).rest == "" && !Peek(t, {'|', ')', '&', ';'})
  {
    if t != "" {
      Peeks(t, t[0]);
    }
  }

  lemma StopsFirst(t: string)
    requires Stops(t)
    ensures t == "" || (!White(t[0]) && t[0] != '<' && t[0] != '>')
  {
  }

  lemma RestStops(c: Simple, t: string)
    requires Stops(t)
    ensures ParseRest(c, t) == Ok(c, t)
  {
    hide GetToken, Peek, Skip, Stops;
    StopFacts(t);
    assert ParseRedirs(c.rs, t) == Ok(c.rs, t);
    assert Simple(c.argv, c.rs) == c;
  }

  /** c went on with these pieces. */
  predicate Continues(r: Simple, c: Simple, ps: seq<Piece>) {
    && WordTexts(r.argv) == WordTexts(c.argv) + Args(ps)
    && RedirMarks(r.rs) == RedirMarks(c.rs) + Redirects(ps)
  }

  lemma ContinuesWord(r: Simple, c: Simple, w: Word, ps: seq<Piece>)
    requires ps != [] && ps[0].Arg? && w.text == ps[0].text
    requires Continues(r, Simple(c.argv + [w], c.rs), ps[1..])
    ensures Continues(r, c, ps)
  {
    assert WordTexts(c.argv + [w]) == WordTexts(c.argv) + [w.text];
  }

  lemma ContinuesRedir(r: Simple, c: Simple, d: Redirection, ps: seq<Piece>)
    requires ps != [] && ps[0].To? && d.file.text == ps[0].r.file && d.input == ps[0].r.op.In?
    requires Continues(r, Simple(c.argv, c.rs + [d]), ps[1..])
    ensures Continues(r, c, ps)
  {
    assert RedirMarks(c.rs + [d]) == RedirMarks(c.rs) + [(d.file.text, d.input)];
  }

  lemma ContinuesNone(c: Simple)
    ensures Continues(c, c, [])
  {
    assert WordTexts(c.argv) + [] == WordTexts(c.argv) && RedirMarks(c.rs) + [] == RedirMarks(c.rs);
  }

  lemma PiecesFirst(ps: seq<Piece>, t: string)
    requires ps != []
    ensures ShowPieces(ps, t) == ShowPiece(ps[0], ShowPieces(ps[1..], t))
    ensures GoodPieces(ps, t) ==> GoodPiece(ps[0], ShowPieces(ps[1..], t)) && GoodPieces(ps[1..], t)
    ensures |Args(ps)| == |Args(ps[1..])| + if ps[0].Arg? then 1 else 0
  {
  }

  /** Words and redirections in any order are read back; ten words are refused. */
  lemma {:induction false} PiecesBack(c: Simple, ps: seq<Piece>, t: string)
    requires GoodPieces(ps, t) && Stops(t) && |c.argv| < MAXARGS
    ensures var r := ParseRest(c, ShowPieces(ps, t));
      if |c.argv| + |Args(ps)| < MAXARGS then r.Ok? && r.rest == t && Continues(r.value, c, ps) else r.Panic?
    decreases |ps|
  {
    hide ParseRest, ShowPieces, GoodPieces, Stops, Continues, Args, IsWord, Blank, Ends, GetToken;
    if ps == [] {
      RestStops(c, t);
      ContinuesNone(c);
      NoPieces(t);
    } else {
      PiecesFirst(ps, t);
      var u := ShowPieces(ps[1..], t);
      match ps[0]
      case Arg(w, after) =>
        RestWord(c, w, after, u);
        if |c.argv| + 1 < MAXARGS {
          var word := GetToken(w + (after + u)).word;
          var d := Simple(c.argv + [word], c.rs);
          PiecesBack(d, ps[1..], t);
          if ParseRest(d, u).Ok? {
            ContinuesWord(ParseRest(d, u).value, c, word, ps);
          }
        }
      case To(r) =>
        var red := RestRedir(c, r, u);
        var d := Simple(c.argv, c.rs + [red]);
        PiecesBack(d, ps[1..], t);
        if ParseRest(d, u).Ok? {
          ContinuesRedir(ParseRest(d, u).value, c, red, ps);
        }
    }
  }

  lemma NoPieces(t: string)
    ensures ShowPieces([], t) == t && Args([]) == []
  {
  }

  // ---------------------------------------------------------------------- nests

  lemma {:induction false} NestSnoc(c: Cmd<string>, ms: seq<Mark>, x: Mark)
    ensures Nest(c, ms + [x]) == Redir(Nest(c, ms), x.0, x.1)
    decreases |ms|
  {
    if ms == [] {
      assert [] + [x] == [x] && [x][1..] == [];
    } else {
      assert (ms + [x])[1..] == ms[1..] + [x];
      NestSnoc(Redir(c, ms[0].0, ms[0].1), ms[1..], x);
    }
  }

  /** The parser's nesting, built from the outside, is the nesting of the text. */
  lemma {:induction false} WrapNests(c: Cmd<Word>, rs: seq<Redirection>)
    ensures Texts(Wrap(c, rs)) == Nest(Texts(c), RedirMarks(rs))
  {
    if rs != [] {
      var init, d := rs[..|rs| - 1], rs[|rs| - 1];
      WrapNests(c, init);
      NestSnoc(Texts(c), RedirMarks(init), (d.file.text, d.input));
      assert RedirMarks(rs) == RedirMarks(init) + [(d.file.text, d.input)];
    }
  }

  // ------------------------------------------------------------- items and lines

  /** The line is read as c, or refused when it does not fit. */
  predicate Answers(r: Result<Cmd<Word>>, fits: bool, c: Cmd<string>, t: string) {
    if fits then Reads(r, c, t) else r.Panic?
  }

  lemma ExecIsRest(s: string)
    requires !Peek(s, {'('})
    ensures var r := ParseRest(Simple([], []), s);
      ParseExec(s) == if r.Panic? then Panic else Ok(Wrap(Exec(r.value.argv), r.value.rs), r.rest)
  {
    hide Peek, ParseRedirs, ParseArgs, Wrap;
  }

  lemma PiecesFront(ps: seq<Piece>, t: string)
    requires GoodPieces(ps, t) && Stops(t)
    ensures !Peek(ShowPieces(ps, t), {'('})
  {
    hide Skip, GetToken, Peek, Blank, Ends, ParseRedirs;
    if ps == [] {
      StopFacts(t);
    } else {
      var u := ShowPieces(ps[1..], t);
      match ps[0]
      case Arg(w, after) =>
        WordToken(w, after + u);
        Peeks(w + (after + u), w[0]);
      case To(r) =>
        var d := RedirBack([], r, u);
        Peeks(ShowRedirect(r, u), if r.op.In? then '<' else '>');
    }
  }

  lemma CommandBack(ps: seq<Piece>, t: string)
    requires GoodPieces(ps, t) && Stops(t)
    ensures Answers(ParseExec(ShowPieces(ps, t)), |Args(ps)| < MAXARGS, Nest(Exec(Args(ps)), Redirects(ps)), t)
  {
    hide Peek, ParseExec, ParseRest, ShowPieces, GoodPieces, Stops, Args, Redirects, Nest, Wrap;
    var s := ShowPieces(ps, t);
    PiecesFront(ps, t);
    ExecIsRest(s);
    PiecesBack(Simple([], []), ps, t);
    var r := ParseRest(Simple([], []), s);
    if r.Ok? {
      WrapNests(Exec(r.value.argv), r.value.rs);
      assert [] + Args(ps) == Args(ps) && [] + Redirects(ps) == Redirects(ps);
    }
  }

  lemma {:induction false} RedirectsBack(done: seq<Redirection>, rs: seq<Redirect>, t: string)
    requires GoodRedirects(rs, t) && Stops(t)
    ensures var r := ParseRedirs(done, ShowRedirects(rs, t));
      r.Ok? && r.rest == t && RedirMarks(r.value) == RedirMarks(done) + Marks(rs)
    decreases |rs|
  {
    hide ParseRedirs, GoodRedirect, ShowRedirect, Stops, IsWord, Blank, Ends, RedirMarks, Marks;
    if rs == [] {
      StopsFirst(t);
      NoRedirs(done, t);
      MarksNone(done);
    } else {
      var u := ShowRedirects(rs[1..], t);
      var d := RedirBack(done, rs[0], u);
      RedirectsBack(done + [d], rs[1..], t);
      MarksNext(done, d, rs);
    }
  }

  lemma MarksNone(done: seq<Redirection>)
    ensures RedirMarks(done) + Marks([]) == RedirMarks(done)
  {
  }

  lemma RedirMarksSnoc(done: seq<Redirection>, d: Redirection)
    ensures RedirMarks(done + [d]) == RedirMarks(done) + [(d.file.text, d.input)]
  {
  }

  lemma {:induction false} MarksNext(done: seq<Redirection>, d: Redirection, rs: seq<Redirect>)
    requires rs != [] && d.file.text == rs[0].file && d.input == rs[0].op.In?
    ensures RedirMarks(done + [d]) + Marks(rs[1..]) == RedirMarks(done) + Marks(rs)
  {
    hide RedirMarks;
    RedirMarksSnoc(done, d);
    assert Marks(rs) == [(d.file.text, d.input)] + Marks(rs[1..]);
  }

  lemma ParseSkip(s: string)
    ensures ParseExec(Skip(s)) == ParseExec(s) && ParsePipe(Skip(s)) == ParsePipe(s)
    ensures ParseLine(Skip(s)) == ParseLine(s)
  {
    hide Skip, Peek, GetToken, ParseRedirs, ParseArgs, Wrap;
    SkipAgain(s);
    PeekAgain(s, {'('});
    RedirsSkip([], s);
    assert ParseExec(Skip(s)) == ParseExec(s);
    PipeFrom(s);
    LineFrom(s);
  }

  lemma PipeFrom(s: string)
    requires ParseExec(Skip(s)) == ParseExec(s)
    ensures ParsePipe(Skip(s)) == ParsePipe(s)
  {
    hide Skip, Peek, GetToken, ParseExec;
  }

  lemma LineFrom(s: string)
    requires ParsePipe(Skip(s)) == ParsePipe(s)
    ensures ParseLine(Skip(s)) == ParseLine(s)
  {
    hide Skip, Peek, GetToken, ParsePipe, ParseBacks;
  }

  lemma Opened(x: string)
    ensures Peek("(" + x, {'('}) && GetToken("(" + x).rest == Skip(x)
  {
    SymbolToken('(', x);
    Peeks("(" + x, '(');
  }

  lemma Closed(y: string)
    ensures Peek(")" + y, {')'}) && GetToken(")" + y).rest == Skip(y)
  {
    SymbolToken(')', y);
    Peeks(")" + y, ')');
  }

  lemma BlockStep(x: string)
    ensures ParseExec("(" + x) == (
      var line := ParseLine(x);
      if line.Panic? || !Peek(line.rest, {')'}) then Panic
      else
        var redirs := ParseRedirs([], GetToken(line.rest).rest);
        if redirs.Panic? then Panic else Ok(Wrap(line.value, redirs.value), redirs.rest))
  {
    hide Skip, Peek, GetToken, ParseLine, ParseRedirs, Wrap;
    Opened(x);
    ParseSkip(x);
  }

  lemma GroupBack(gap: string, line: Line, after: string, rs: seq<Redirect>, t: string)
    requires Blank(gap) && Blank(after) && GoodRedirects(rs, t) && Stops(t)
    requires var y := ")" + (after + ShowRedirects(rs, t));
      Answers(ParseLine(ShowLine(line, y)), LineFits(line), LineMeans(line), y)
    ensures var s := ShowItem(Group(gap, line, after, rs), t);
      Answers(ParseExec(s), LineFits(line), Nest(LineMeans(line), Marks(rs)), t)
  {
    hide Skip, Peek, GetToken, ParseLine, ParseExec, ParseRedirs, Wrap, Nest, ShowLine, LineMeans, LineFits, Texts;
    hide ShowRedirects, GoodRedirects, Stops, Blank;
    var z := ShowRedirects(rs, t);
    var x := ShowLine(line, ")" + (after + z));
    BlockStep(gap + x);
    SkipBlanks(gap, x);
    ParseSkip(gap + x);
    ParseSkip(x);
    Closed(after + z);
    SkipBlanks(after, z);
    RedirsSkip([], z);
    RedirectsBack([], rs, t);
    var out := ParseRedirs([], z);
    assert [] + Marks(rs) == Marks(rs);
    if ParseLine(x).Ok? {
      WrapNests(ParseLine(x).value, out.value);
    }
  }

  /** What may follow a pipeline, and a line. */
  predicate PipeStops(t: string) { t == "" || t[0] in {')', '&', ';'} }

  predicate LineStops(t: string) { t == "" || t[0] == ')' }

  lemma PipeStopFacts(t: string)
    requires PipeStops(t)
    ensures Stops(t) && Skip(t) == t && !Peek(t, {'|'})
  {
    if t != "" {
      Peeks(t, t[0]);
    }
  }

  lemma LineStopFacts(t: string)
    requires LineStops(t)
    ensures PipeStops(t) && Skip(t) == t && !Peek(t, {'&'}) && !Peek(t, {';'})
  {
    if t != "" {
      Peeks(t, t[0]);
    }
  }

  lemma PipeLast(s: string, t: string)
    requires PipeStops(t) && (ParseExec(s).Ok? ==> ParseExec(s).rest == t)
    ensures ParsePipe(s) == ParseExec(s)
  {
    hide Skip, Peek, ParseExec, PipeStops;
    PipeStopFacts(t);
  }

  lemma PipeStep(s: string, u: string)
    requires ParseExec(s).Ok? ==> ParseExec(s).rest == "|" + u
    ensures ParsePipe(s) == (
      if ParseExec(s).Panic? || ParsePipe(u).Panic? then Panic
      else Ok(Pipe(ParseExec(s).value, ParsePipe(u).value), ParsePipe(u).rest))
  {
    hide Skip, Peek, GetToken, ParseExec;
    SymbolToken('|', u);
    Peeks("|" + u, '|');
    ParseSkip(u);
  }

  lemma BacksStep(v: Cmd<Word>, u: string)
    ensures ParseBacks(v, "&" + u) == ParseBacks(Back(v), u)
  {
    hide Skip, Peek, GetToken;
    SymbolToken('&', u);
    Peeks("&" + u, '&');
    BacksSkip(Back(v), u);
  }

  lemma {:induction false} BacksSkip(v: Cmd<Word>, s: string)
    ensures ParseBacks(v, Skip(s)) == ParseBacks(v, s)
  {
    hide Skip, Peek, GetToken;
    SkipAgain(s);
    PeekAgain(s, {'&'});
  }

  lemma BacksNone(v: Cmd<Word>, t: string)
    requires !Peek(t, {'&'}) && Skip(t) == t
    ensures ParseBacks(v, t) == Ok(v, t)
  {
    hide Skip, Peek, GetToken;
  }

  lemma {:induction false} BacksBack(v: Cmd<Word>, backs: seq<string>, t: string)
    requires GoodBacks(backs) && !Peek(t, {'&'}) && Skip(t) == t
    ensures Reads(ParseBacks(v, ShowBacks(backs, t)), Backs(Texts(v), |backs|), t)
    decreases |backs|
  {
    hide Skip, Peek, GetToken, Blank, ParseBacks;
    if backs == [] {
      BacksNone(v, t);
    } else {
      var u := ShowBacks(backs[1..], t);
      assert Blank(backs[0]);
      BacksStep(v, backs[0] + u);
      SkipBlanks(backs[0], u);
      BacksSkip(Back(v), backs[0] + u);
      BacksSkip(Back(v), u);
      BacksBack(Back(v), backs[1..], t);
    }
  }

  lemma LineLast(s: string, backs: seq<string>, t: string, c: Cmd<string>)
    requires GoodBacks(backs) && LineStops(t) && Reads(ParsePipe(s), c, ShowBacks(backs, t))
    ensures Reads(ParseLine(s), Backs(c, |backs|), t)
  {
    hide Skip, Peek, GetToken, ParsePipe, ParseBacks, LineStops, Backs, ShowBacks;
    LineStopFacts(t);
    BacksBack(ParsePipe(s).value, backs, t);
  }

  lemma LineStep(s: string, backs: seq<string>, u: string, c: Cmd<string>)
    requires GoodBacks(backs) && Reads(ParsePipe(s), c, ShowBacks(backs, ";" + u))
    ensures ParseLine(u).Panic? ==> ParseLine(s).Panic?
    ensures ParseLine(u).Ok? ==>
      Reads(ParseLine(s), List(Backs(c, |backs|), Texts(ParseLine(u).value)), ParseLine(u).rest)
  {
    hide Skip, Peek, GetToken, ParsePipe, ParseBacks, Backs, ShowBacks;
    SymbolToken(';', u);
    Peeks(";" + u, ';');
    ParseSkip(u);
    BacksBack(ParsePipe(s).value, backs, ";" + u);
  }

  lemma LinePanics(s: string)
    requires ParsePipe(s).Panic?
    ensures ParseLine(s).Panic?
  {
    hide Skip, Peek, GetToken, ParsePipe, ParseBacks;
  }

  lemma BacksStop(backs: seq<string>, t: string)
    requires PipeStops(t)
    ensures PipeStops(ShowBacks(backs, t))
  {
    if backs != [] {
      assert ShowBacks(backs, t)[0] == '&';
    }
  }

  lemma {:induction false} ItemBack(i: Item, t: string)
    requires GoodItem(i, t) && Stops(t)
    ensures Answers(ParseExec(ShowItem(i, t)), ItemFits(i), ItemMeans(i), t)
    decreases i
  {
    hide ParseExec, ParseLine, Stops, Answers, ShowPieces, ShowRedirects, GoodPieces, GoodRedirects, Blank, Nest;
    match i
    case Command(ps) => CommandBack(ps, t);
    case Group(gap, line, after, rs) =>
      var y := ")" + (after + ShowRedirects(rs, t));
      assert LineStops(y);
      LineBack(line, y);
      GroupBack(gap, line, after, rs, t);
  }

  lemma {:induction false} PipeBack(p: Pipeline, t: string)
    requires GoodPipe(p, t) && PipeStops(t)
    ensures Answers(ParsePipe(ShowPipe(p, t)), PipeFits(p), PipeMeans(p), t)
    decreases p
  {
    hide ParseExec, ParsePipe, PipeStops, Stops, Blank, Skip, GetToken, Peek;
    match p
    case One(i) =>
      PipeStopFacts(t);
      ItemBack(i, t);
      PipeLast(ShowItem(i, t), t);
    case Bar(i, gap, next) =>
      var u := ShowPipe(next, t);
      BarStops(gap + u);
      ItemBack(i, "|" + (gap + u));
      PipeStep(ShowItem(i, "|" + (gap + u)), gap + u);
      SkipBlanks(gap, u);
      ParseSkip(gap + u);
      ParseSkip(u);
      PipeBack(next, t);
  }

  lemma BarStops(u: string)
    ensures Stops("|" + u)
  {
  }

  /** Every line of the grammar is read as what it means, or refused exactly when
      a simple command in it has ten words or more. */
  lemma {:induction false} LineBack(l: Line, t: string)
    requires GoodLine(l, t) && LineStops(t)
    ensures Answers(ParseLine(ShowLine(l, t)), LineFits(l), LineMeans(l), t)
    decreases l
  {
    hide ParsePipe, ParseLine, PipeStops, LineStops, Blank, Skip, ShowBacks, GoodBacks, Backs;
    match l
    case Last(p, backs) =>
      var u := ShowBacks(backs, t);
      LineStopFacts(t);
      BacksStop(backs, t);
      PipeBack(p, u);
      if PipeFits(p) {
        LineLast(ShowPipe(p, u), backs, t, PipeMeans(p));
      } else {
        LinePanics(ShowPipe(p, u));
      }
    case Then(p, backs, gap, next) =>
      var v := ShowLine(next, t);
      var u := ShowBacks(backs, ";" + (gap + v));
      SemiStops(gap + v);
      BacksStop(backs, ";" + (gap + v));
      PipeBack(p, u);
      LineBack(next, t);
      SkipBlanks(gap, v);
      ParseSkip(gap + v);
      ParseSkip(v);
      if PipeFits(p) {
        LineStep(ShowPipe(p, u), backs, gap + v, PipeMeans(p));
      } else {
        LinePanics(ShowPipe(p, u));
      }
  }

  lemma SemiStops(u: string)
    ensures PipeStops(";" + u)
  {
  }

  // ------------------------------------------- every line that is read is a line

  predicate NoNul(s: string) { forall i | 0 <= i < |s| :: s[i] != '\0' }

  /** At a token: no blank in front, and no NUL. */
  predicate AtToken(s: string) { Skip(s) == s && NoNul(s) }

  lemma {:induction false} SkipSplit(s: string) returns (g: string)
    ensures Blank(g) && s == g + Skip(s) && Skip(Skip(s)) == Skip(s) && (NoNul(s) ==> NoNul(Skip(s)))
  {
    hide Skip, Blank;
    var k := |s| - |Skip(s)|;
    g := s[..k];
    SkipDrops(s);
    SkipNone(Skip(s));
    SkippedBlank(s);
  }

  lemma {:induction false} SkippedBlank(s: string)
    ensures Blank(s[..|s| - |Skip(s)|])
  {
    if s != "" && White(s[0]) {
      SkippedBlank(s[1..]);
      var g := s[1..][..|s[1..]| - |Skip(s[1..])|];
      assert s[..|s| - |Skip(s)|] == [s[0]] + g;
    }
  }

  lemma TokenSplit(s: string, n: nat) returns (after: string)
    requires n <= |s| && NoNul(s)
    ensures Blank(after) && s == s[..n] + (after + Skip(s[n..])) && s[n..] == after + Skip(s[n..])
    ensures AtToken(Skip(s[n..]))
  {
    hide Skip, Blank;
    after := SkipSplit(s[n..]);
  }

  lemma WordIs(s: string) returns (w: string, after: string)
    requires AtToken(s) && GetToken(s).kind == WordTok
    ensures IsWord(w) && Blank(after) && Ends(after + GetToken(s).rest) && s == w + (after + GetToken(s).rest)
    ensures GetToken(s).word.text == w && AtToken(GetToken(s).rest)
  {
    hide Skip, Blank, TokenAt;
    var n := WordLen(s);
    TokenWord(s);
    w := s[..n];
    after := TokenSplit(s, n);
  }

  lemma TokenWord(s: string)
    requires AtToken(s) && GetToken(s).kind == WordTok
    ensures var n := WordLen(s);
      n > 0 && IsWord(s[..n]) && Ends(s[n..]) && GetToken(s).word.text == s[..n] && GetToken(s).rest == Skip(s[n..])
  {
    hide Skip, WordLen;
    assert s != "" && !White(s[0]) && !Symbol(s[0]);
    WordLenPositive(s);
  }

  lemma WordLenPositive(s: string)
    requires s != "" && !White(s[0]) && !Symbol(s[0])
    ensures WordLen(s) > 0
  {
  }

  lemma OpIs(s: string) returns (op: Op, gap: string)
    requires AtToken(s) && Peek(s, {'<', '>'})
    ensures Blank(gap) && s == OpText(op) + (gap + GetToken(s).rest) && AtToken(GetToken(s).rest)
    ensures GetToken(s).kind == SymTok('<') <==> op.In?
  {
    hide Skip, Blank, GetToken, Peek, NoNul, OpText;
    PeekFirst(s);
    op := if s[0] == '<' then In else if |s| > 1 && s[1] == '>' then Append else Out;
    OpFirst(s, op);
    gap := TokenSplit(s, |OpText(op)|);
    OpRest(s, op);
  }

  lemma {:induction false} OpFirst(s: string, op: Op)
    requires s != "" && (s[0] == '<' || s[0] == '>')
    requires op == if s[0] == '<' then In else if |s| > 1 && s[1] == '>' then Append else Out
    ensures |OpText(op)| <= |s| && s[..|OpText(op)|] == OpText(op) && (op.Out? ==> |s| == 1 || s[1] != '>')
  {
  }

  lemma PeekFirst(s: string)
    requires Skip(s) == s && Peek(s, {'<', '>'})
    ensures s != "" && (s[0] == '<' || s[0] == '>')
  {
    hide Skip;
  }

  lemma {:induction false} OpRest(s: string, op: Op)
    requires Skip(s) == s && |OpText(op)| <= |s| && s[..|OpText(op)|] == OpText(op)
    requires op.Out? ==> |s| == 1 || s[1] != '>'
    ensures GetToken(s).rest == Skip(s[|OpText(op)|..]) && (GetToken(s).kind == SymTok('<') <==> op.In?)
  {
    hide Skip, WordLen;
    assert s[0] == OpText(op)[0] && (op.Append? ==> s[1] == OpText(op)[1]);
  }

  lemma SymbolIs(s: string, c: char) returns (gap: string)
    requires AtToken(s) && Peek(s, {c}) && Symbol(c) && c != '>'
    ensures Blank(gap) && s == [c] + (gap + GetToken(s).rest) && AtToken(GetToken(s).rest)
  {
    hide Skip, Blank;
    gap := TokenSplit(s, 1);
    assert s[..1] == [c];
  }

  /** What parseredirs reads is redirections. */
  lemma {:induction false} RedirsOnly(done: seq<Redirection>, s: string) returns (rs: seq<Redirect>)
    requires AtToken(s) && ParseRedirs(done, s).Ok?
    ensures var r := ParseRedirs(done, s);
      && s == ShowRedirects(rs, r.rest) && GoodRedirects(rs, r.rest) && AtToken(r.rest)
      && RedirMarks(r.value) == RedirMarks(done) + Marks(rs)
    decreases |s|
  {
    hide Skip, GetToken, Peek, IsWord, Blank, Ends, NoNul;
    if !Peek(s, {'<', '>'}) {
      rs := [];
      assert RedirMarks(done) + [] == RedirMarks(done);
    } else {
      var op, gap := OpIs(s);
      var u := GetToken(s).rest;
      var file, after := WordIs(u);
      var v := GetToken(u).rest;
      var d := Redirection(GetToken(u).word, GetToken(s).kind == SymTok('<'));
      var more := RedirsOnly(done + [d], v);
      var r := Redirect(op, gap, file, after);
      rs := [r] + more;
      assert rs[1..] == more;
      MarksNext(done, d, rs);
    }
  }

  lemma RestAt(c: Simple, s: string)
    requires AtToken(s) && !Peek(s, {'<', '>'})
    ensures ParseRest(c, s) == ParseArgs(c, s)
  {
    hide Skip, Peek, GetToken;
    assert ParseRedirs(c.rs, s) == Ok(c.rs, s);
  }

  lemma EndIs(s: string)
    requires AtToken(s) && GetToken(s).kind == EndTok
    ensures s == "" && GetToken(s).rest == ""
  {
    hide Skip;
  }

  lemma StopIs(s: string)
    requires AtToken(s) && Peek(s, {'|', ')', '&', ';'})
    ensures Stops(s)
  {
    hide Skip;
  }

  lemma PiecesMore(p: Piece, ps: seq<Piece>, t: string)
    requires GoodPieces(ps, t) && GoodPiece(p, ShowPieces(ps, t))
    ensures GoodPieces([p] + ps, t) && ShowPieces([p] + ps, t) == ShowPiece(p, ShowPieces(ps, t))
    ensures |Args([p] + ps)| == |Args(ps)| + if p.Arg? then 1 else 0
  {
    assert ([p] + ps)[1..] == ps;
  }

  lemma FirstRedir(c: Simple, s: string) returns (r: Redirect, d: Redirection, v: string)
    requires AtToken(s) && Peek(s, {'<', '>'}) && ParseRest(c, s).Ok?
    ensures d.file.text == r.file && d.input == r.op.In? && GoodRedirect(r, v) && s == ShowRedirect(r, v)
    ensures AtToken(v) && |v| < |s| && ParseRest(c, s) == ParseRest(Simple(c.argv, c.rs + [d]), v)
  {
    hide Skip, GetToken, Peek, IsWord, Blank, Ends, NoNul, ParseArgs;
    var op, gap := OpIs(s);
    var u := GetToken(s).rest;
    assert GetToken(u).kind == WordTok;
    var file, after := WordIs(u);
    v := GetToken(u).rest;
    r, d := Redirect(op, gap, file, after), Redirection(GetToken(u).word, GetToken(s).kind == SymTok('<'));
    RedirStep(c.rs, s);
  }

  lemma ArgsCases(c: Simple, s: string)
    requires AtToken(s) && ParseArgs(c, s).Ok?
    ensures Peek(s, {'|', ')', '&', ';'}) ==> ParseArgs(c, s) == Ok(c, s) && Stops(s)
    ensures !Peek(s, {'|', ')', '&', ';'}) && GetToken(s).kind == EndTok ==> ParseArgs(c, s) == Ok(c, s) && Stops(s)
    ensures !Peek(s, {'|', ')', '&', ';'}) && GetToken(s).kind != EndTok ==>
      GetToken(s).kind == WordTok && |c.argv| + 1 < MAXARGS
  {
    hide Skip, GetToken, Peek, ParseRedirs, NoNul;
    if Peek(s, {'|', ')', '&', ';'}) {
      StopIs(s);
    } else if GetToken(s).kind == EndTok {
      EndIs(s);
    }
  }

  lemma GoodNone(t: string)
    ensures GoodPieces([], t)
  {
  }

  /** What parseexec reads behind the redirections in front is words and redirections. */
  lemma {:induction false} RestOnly(c: Simple, s: string) returns (ps: seq<Piece>)
    requires AtToken(s) && ParseRest(c, s).Ok? && |c.argv| < MAXARGS
    ensures var r := ParseRest(c, s);
      && s == ShowPieces(ps, r.rest) && GoodPieces(ps, r.rest) && Stops(r.rest) && AtToken(r.rest)
      && Continues(r.value, c, ps) && |c.argv| + |Args(ps)| < MAXARGS
    decreases |s|
  {
    hide Skip, GetToken, Peek, IsWord, Blank, Ends, NoNul, ParseRedirs, ParseArgs, ParseRest, ShowPieces, GoodPieces;
    hide Continues, Args, Stops, AtToken;
    if Peek(s, {'<', '>'}) {
      var r, d, v := FirstRedir(c, s);
      var e := Simple(c.argv, c.rs + [d]);
      var more := RestOnly(e, v);
      ps := [To(r)] + more;
      PiecesMore(To(r), more, ParseRest(e, v).rest);
      ContinuesRedir(ParseRest(e, v).value, c, d, ps);
    } else {
      RestAt(c, s);
      ArgsCases(c, s);
      if Peek(s, {'|', ')', '&', ';'}) || GetToken(s).kind == EndTok {
        ps := [];
        ContinuesNone(c);
        NoPieces(s);
        GoodNone(s);
      } else {
        var w, after := WordIs(s);
        var u, d := GetToken(s).rest, Simple(c.argv + [GetToken(s).word], c.rs);
        ArgsStep(c, s);
        var more := RestOnly(d, u);
        ps := [Arg(w, after)] + more;
        PiecesMore(Arg(w, after), more, ParseRest(d, u).rest);
        ContinuesWord(ParseRest(d, u).value, c, GetToken(s).word, ps);
      }
    }
  }

  lemma CommandOnly(s: string) returns (ps: seq<Piece>)
    requires AtToken(s) && !Peek(s, {'('}) && ParseExec(s).Ok?
    ensures var r := ParseExec(s);
      && s == ShowPieces(ps, r.rest) && GoodPieces(ps, r.rest) && AtToken(r.rest)
      && |Args(ps)| < MAXARGS && Texts(r.value) == Nest(Exec(Args(ps)), Redirects(ps))
  {
    hide Peek, ParseExec, ParseRest, ShowPieces, GoodPieces, Stops, Args, Redirects, Nest, Wrap, AtToken;
    ExecIsRest(s);
    ps := RestOnly(Simple([], []), s);
    var r := ParseRest(Simple([], []), s).value;
    WrapNests(Exec(r.argv), r.rs);
    assert [] + Args(ps) == Args(ps) && [] + Redirects(ps) == Redirects(ps);
  }

  /** The text of item i stands in front of t and means c. */
  predicate IsItem(s: string, i: Item, t: string, c: Cmd<string>) {
    s == ShowItem(i, t) && GoodItem(i, t) && ItemFits(i) && ItemMeans(i) == c && AtToken(t)
  }

  predicate IsPipe(s: string, p: Pipeline, t: string, c: Cmd<string>) {
    s == ShowPipe(p, t) && GoodPipe(p, t) && PipeFits(p) && PipeMeans(p) == c && AtToken(t)
  }

  predicate IsLine(s: string, l: Line, t: string, c: Cmd<string>) {
    s == ShowLine(l, t) && GoodLine(l, t) && LineFits(l) && LineMeans(l) == c && AtToken(t)
  }

  lemma GroupIs(x: string, gap: string, line: Line, y: string, c: Cmd<string>, after: string, rs: seq<Redirect>,
                t: string)
    requires Blank(gap) && IsLine(x, line, y, c) && y == ")" + (after + ShowRedirects(rs, t))
    requires Blank(after) && GoodRedirects(rs, t) && AtToken(t)
    ensures IsItem("(" + (gap + x), Group(gap, line, after, rs), t, Nest(c, Marks(rs)))
  {
    hide ShowLine, GoodLine, LineMeans, LineFits, ShowRedirects, GoodRedirects, Nest, Blank, AtToken;
  }

  lemma {:induction false} ItemOnly(s: string) returns (i: Item)
    requires AtToken(s) && ParseExec(s).Ok?
    ensures IsItem(s, i, ParseExec(s).rest, Texts(ParseExec(s).value))
    decreases |s|, 1
  {
    hide Skip, Peek, GetToken, ParseExec, ParseLine, ParseRedirs, Wrap, Nest, AtToken, Texts, Blank;
    hide ShowPieces, GoodPieces, ShowRedirects, GoodRedirects, IsLine;
    if Peek(s, {'('}) {
      var gap := SymbolIs(s, '(');
      var x := GetToken(s).rest;
      BlockFacts(s);
      var line := LineOnly(x);
      var y := ParseLine(x).rest;
      LineRest(x, line, y, Texts(ParseLine(x).value));
      var after := SymbolIs(y, ')');
      var z := GetToken(y).rest;
      var rs := RedirsOnly([], z);
      var out := ParseRedirs([], z);
      assert [] + Marks(rs) == Marks(rs);
      WrapNests(ParseLine(x).value, out.value);
      i := Group(gap, line, after, rs);
      GroupIs(x, gap, line, y, Texts(ParseLine(x).value), after, rs, out.rest);
    } else {
      var ps := CommandOnly(s);
      i := Command(ps);
    }
  }

  lemma LineRest(x: string, l: Line, y: string, c: Cmd<string>)
    requires IsLine(x, l, y, c)
    ensures AtToken(y)
  {
  }

  lemma BlockFacts(s: string)
    requires Peek(s, {'('}) && ParseExec(s).Ok?
    ensures |GetToken(s).rest| < |s| && ParseLine(GetToken(s).rest).Ok?
    ensures var line := ParseLine(GetToken(s).rest);
      && Peek(line.rest, {')'}) && ParseRedirs([], GetToken(line.rest).rest).Ok?
      && var redirs := ParseRedirs([], GetToken(line.rest).rest);
         ParseExec(s) == Ok(Wrap(line.value, redirs.value), redirs.rest)
  {
    hide Skip, ParseLine, ParseRedirs, Wrap, TokenAt;
  }

  lemma {:induction false} PipeOnly(s: string) returns (p: Pipeline)
    requires AtToken(s) && ParsePipe(s).Ok?
    ensures IsPipe(s, p, ParsePipe(s).rest, Texts(ParsePipe(s).value))
    decreases |s|, 2
  {
    hide Skip, Peek, GetToken, ParseExec, AtToken, Blank, ShowItem, GoodItem, ItemMeans, ItemFits;
    var i := ItemOnly(s);
    var u := ParseExec(s).rest;
    if Peek(u, {'|'}) {
      var gap := SymbolIs(u, '|');
      ShorterToken(u, '|');
      var next := PipeOnly(GetToken(u).rest);
      p := Bar(i, gap, next);
    } else {
      AtTokenSkip(u);
      p := One(i);
    }
  }

  lemma ShorterToken(u: string, c: char)
    requires Peek(u, {c}) && Symbol(c)
    ensures |GetToken(u).rest| < |u|
  {
    hide Skip, TokenAt;
  }

  lemma AtTokenSkip(s: string)
    requires AtToken(s)
    ensures Skip(s) == s
  {
  }

  lemma {:induction false} BacksOnly(v: Cmd<Word>, s: string) returns (backs: seq<string>)
    requires AtToken(s)
    ensures var r := ParseBacks(v, s);
      && s == ShowBacks(backs, r.rest) && GoodBacks(backs) && AtToken(r.rest)
      && Texts(r.value) == Backs(Texts(v), |backs|)
    decreases |s|
  {
    hide Skip, Peek, GetToken, Blank, AtToken;
    if Peek(s, {'&'}) {
      var gap := SymbolIs(s, '&');
      ShorterToken(s, '&');
      var more := BacksOnly(Back(v), GetToken(s).rest);
      backs := [gap] + more;
      assert backs[1..] == more;
    } else {
      AtTokenSkip(s);
      backs := [];
    }
  }

  /** What parseline reads is a line, and means what it returns. */
  lemma {:induction false} LineOnly(s: string) returns (l: Line)
    requires AtToken(s) && ParseLine(s).Ok?
    ensures IsLine(s, l, ParseLine(s).rest, Texts(ParseLine(s).value))
    decreases |s|, 3
  {
    hide Skip, Peek, GetToken, ParsePipe, ParseBacks, AtToken, Blank, ShowPipe, GoodPipe, PipeMeans, PipeFits;
    hide ShowBacks, GoodBacks, Backs;
    var p := PipeOnly(s);
    var pipe := ParsePipe(s);
    var backs := BacksOnly(pipe.value, pipe.rest);
    var u := ParseBacks(pipe.value, pipe.rest).rest;
    if Peek(u, {';'}) {
      var gap := SymbolIs(u, ';');
      ShorterToken(u, ';');
      var next := LineOnly(GetToken(u).rest);
      l := Then(p, backs, gap, next);
    } else {
      AtTokenSkip(u);
      l := Last(p, backs);
    }
  }

  // ----------------------------------------------------------------- main results

  /** The line s spells l, after some blanks. */
  predicate Spells(s: string, lead: string, l: Line) {
    Blank(lead) && GoodLine(l, "") && s == lead + ShowLine(l, "")
  }

  /** parsecmd reads every line of the grammar as what it means, and refuses it
      exactly when a simple command in it has ten words or more. */
  lemma CmdBack(s: string, lead: string, l: Line)
    requires Spells(s, lead, l)
    ensures Answers(ParseCmd(s), LineFits(l), LineMeans(l), "")
  {
    hide Skip, ParseLine, ShowLine, GoodLine, LineMeans, LineFits, Texts, Blank;
    var t := ShowLine(l, "");
    SkipBlanks(lead, t);
    ParseSkip(s);
    ParseSkip(t);
    LineBack(l, "");
    SkipNone("");
  }

  /** parsecmd accepts a string if and only if it is such a line. */
  lemma AcceptsExactly(s: string)
    requires NoNul(s)
    ensures ParseCmd(s).Ok? <==> exists lead, l :: Spells(s, lead, l) && LineFits(l)
  {
    hide Spells, LineFits, LineMeans, NoNul, Texts;
    if ParseCmd(s).Ok? {
      var lead, l := CmdOnly(s);
    }
    if lead, l :| Spells(s, lead, l) && LineFits(l) {
      CmdBack(s, lead, l);
    }
  }

  lemma CmdOnly(s: string) returns (lead: string, l: Line)
    requires NoNul(s) && ParseCmd(s).Ok?
    ensures Spells(s, lead, l) && LineFits(l) && Texts(ParseCmd(s).value) == LineMeans(l)
  {
    hide Skip, ParseLine, ShowLine, GoodLine, LineMeans, LineFits, Texts, Blank, NoNul;
    lead := SkipSplit(s);
    ParseSkip(s);
    l := LineOnly(Skip(s));
    LineRest(Skip(s), l, ParseLine(s).rest, Texts(ParseLine(s).value));
  }

  // ------------------------------------------------------------------ round trip

  /** At most 9 words in each simple command, and words that are words. */
  predicate Printable(c: Cmd<string>) {
    match c
    case Exec(argv) => |argv| < MAXARGS && forall i | 0 <= i < |argv| :: IsWord(argv[i])
    case Redir(d, file, _) => Printable(d) && IsWord(file)
    case Pipe(l, r) => Printable(l) && Printable(r)
    case List(l, r) => Printable(l) && Printable(r)
    case Back(d) => Printable(d)
  }

  function Spaced(argv: seq<string>): seq<Piece> {
    if argv == [] then [] else [Arg(argv[0], " ")] + Spaced(argv[1..])
  }

  /** A line for any command, with parentheses around sub-commands. */
  function Written(c: Cmd<string>): Line {
    match c
    case Exec(argv) => Last(One(Command(Spaced(argv))), [])
    case Redir(d, file, input) =>
      Last(One(Group("", Written(d), "", [Redirect(if input then In else Out, "", file, " ")])), [])
    case Pipe(l, r) => Last(Bar(Group("", Written(l), "", []), "", One(Group("", Written(r), "", []))), [])
    case List(l, r) => Then(One(Group("", Written(l), "", [])), [], "", Last(One(Group("", Written(r), "", [])), []))
    case Back(d) => Last(One(Group("", Written(d), "", [])), [""])
  }

  lemma {:induction false} SpacedGood(argv: seq<string>, t: string)
    requires forall i | 0 <= i < |argv| :: IsWord(argv[i])
    ensures GoodPieces(Spaced(argv), t) && Args(Spaced(argv)) == argv && Redirects(Spaced(argv)) == []
  {
    hide IsWord;
    if argv != [] {
      SpacedGood(argv[1..], t);
      var p, ps := Arg(argv[0], " "), Spaced(argv[1..]);
      assert ([p] + ps)[1..] == ps;
      assert (" " + ShowPieces(ps, t))[0] == ' ';
    }
  }

  lemma OnlyCommand(ps: seq<Piece>, t: string)
    ensures var l := Last(One(Command(ps)), []);
      && (GoodLine(l, t) <==> GoodPieces(ps, t)) && (LineFits(l) <==> |Args(ps)| < MAXARGS)
      && LineMeans(l) == Nest(Exec(Args(ps)), Redirects(ps))
  {
    hide GoodPieces, Args, Redirects, Nest;
    var i := Command(ps);
    assert ItemFits(i) <==> |Args(ps)| < MAXARGS;
    assert PipeMeans(One(i)) == ItemMeans(i) == Nest(Exec(Args(ps)), Redirects(ps));
    assert ShowBacks([], t) == t;
    assert GoodPipe(One(i), t) <==> GoodItem(i, t);
  }

  predicate Says(l: Line, t: string, c: Cmd<string>) {
    GoodLine(l, t) && LineFits(l) && LineMeans(l) == c
  }

  lemma GroupSays(d: Line, rs: seq<Redirect>, t: string, c: Cmd<string>)
    requires GoodRedirects(rs, t) && Says(d, ")" + ("" + ShowRedirects(rs, t)), c)
    ensures var i := Group("", d, "", rs);
      GoodItem(i, t) && ItemFits(i) && ItemMeans(i) == Nest(c, Marks(rs)) && (rs == [] ==> ItemMeans(i) == c)
  {
    hide GoodLine, ShowLine, LineFits, LineMeans, GoodRedirects, ShowRedirects;
  }

  lemma RedirSays(d: Line, file: string, input: bool, t: string, c: Cmd<string>)
    requires IsWord(file)
    requires var r := Redirect(if input then In else Out, "", file, " "); Says(d, ")" + ("" + ShowRedirects([r], t)), c)
    ensures var r := Redirect(if input then In else Out, "", file, " ");
      Says(Last(One(Group("", d, "", [r])), []), t, Redir(c, file, input))
  {
    var r := Redirect(if input then In else Out, "", file, " ");
    assert (" " + t)[0] == ' ' && [r][1..] == [];
    assert GoodRedirects([r], t);
    assert Marks([r]) == [(file, input)] && [(file, input)][1..] == [];
    hide GoodLine, ShowLine, LineFits, LineMeans, IsWord;
    GroupSays(d, [r], t, c);
    OneSays(Group("", d, "", [r]), [], t);
  }

  lemma OneSays(i: Item, backs: seq<string>, t: string)
    requires GoodBacks(backs) && GoodItem(i, ShowBacks(backs, t)) && ItemFits(i)
    ensures Says(Last(One(i), backs), t, Backs(ItemMeans(i), |backs|))
  {
    hide GoodItem, ItemFits, ItemMeans, GoodBacks, ShowBacks, Backs;
    OneItem(i, ShowBacks(backs, t));
  }

  lemma OneItem(i: Item, t: string)
    ensures ShowPipe(One(i), t) == ShowItem(i, t) && (GoodPipe(One(i), t) <==> GoodItem(i, t))
    ensures (PipeFits(One(i)) <==> ItemFits(i)) && PipeMeans(One(i)) == ItemMeans(i)
  {
    hide GoodItem, ItemFits, ItemMeans, ShowItem;
  }

  lemma PairSays(i: Item, j: Item, t: string)
    requires ItemFits(i) && ItemFits(j) && GoodItem(j, t)
    ensures GoodItem(i, "|" + ("" + ShowItem(j, t))) ==>
      Says(Last(Bar(i, "", One(j)), []), t, Pipe(ItemMeans(i), ItemMeans(j)))
    ensures GoodItem(i, ";" + ("" + ShowItem(j, t))) ==>
      Says(Then(One(i), [], "", Last(One(j), [])), t, List(ItemMeans(i), ItemMeans(j)))
  {
    hide GoodItem, ItemFits, ItemMeans, ShowItem;
    OneItem(j, t);
    OneItem(i, ";" + ("" + ShowItem(j, t)));
    OneLine(j, t);
    assert ShowBacks([], t) == t && ShowBacks([], ";" + ("" + ShowItem(j, t))) == ";" + ("" + ShowItem(j, t));
    hide ShowBacks, ShowPipe, ShowLine;
    assert GoodPipe(Bar(i, "", One(j)), t) <==> GoodItem(i, "|" + ("" + ShowItem(j, t)));
    assert PipeFits(Bar(i, "", One(j))) && PipeMeans(Bar(i, "", One(j))) == Pipe(ItemMeans(i), ItemMeans(j));
  }

  lemma OneLine(j: Item, t: string)
    ensures var l := Last(One(j), []);
      && ShowLine(l, t) == ShowItem(j, t) && (GoodLine(l, t) <==> GoodItem(j, t))
      && (LineFits(l) <==> ItemFits(j)) && LineMeans(l) == ItemMeans(j)
  {
    hide GoodItem, ItemFits, ItemMeans, ShowItem;
    OneItem(j, t);
    assert ShowBacks([], t) == t;
  }

  lemma {:induction false} WrittenGood(c: Cmd<string>, t: string)
    requires Printable(c)
    ensures Says(Written(c), t, c)
    decreases c, 0
  {
    hide GoodLine, ShowLine, LineFits, LineMeans, GoodItem, ShowItem, ItemFits, ItemMeans, IsWord, Backs;
    match c
    case Exec(argv) =>
      SpacedGood(argv, t);
      OnlyCommand(Spaced(argv), t);
    case Redir(d, file, input) =>
      WrittenGood(d, ")" + ("" + ShowRedirects([Redirect(if input then In else Out, "", file, " ")], t)));
      RedirSays(Written(d), file, input, t, d);
    case Pipe(l, r) =>
      WrittenItem(r, t);
      var j := Group("", Written(r), "", []);
      WrittenItem(l, "|" + ("" + ShowItem(j, t)));
      PairSays(Group("", Written(l), "", []), j, t);
    case List(l, r) =>
      WrittenItem(r, t);
      var j := Group("", Written(r), "", []);
      WrittenItem(l, ";" + ("" + ShowItem(j, t)));
      PairSays(Group("", Written(l), "", []), j, t);
    case Back(d) =>
      var i := Group("", Written(d), "", []);
      WrittenItem(d, ShowBacks([""], t));
      OneSays(i, [""], t);
      assert Backs(d, 1) == Back(d) by { OneBack(d); }
  }

  lemma OneBack(c: Cmd<string>)
    ensures Backs(c, 1) == Back(c)
  {
    assert Backs(Back(c), 0) == Back(c);
  }

  lemma {:induction false} WrittenItem(c: Cmd<string>, t: string)
    requires Printable(c)
    ensures var i := Group("", Written(c), "", []); GoodItem(i, t) && ItemFits(i) && ItemMeans(i) == c
    decreases c, 1
  {
    hide GoodLine, ShowLine, LineFits, LineMeans, GoodItem, ItemFits, ItemMeans, Written;
    WrittenGood(c, ")" + ("" + t));
    assert ShowRedirects([], t) == t;
    GroupSays(Written(c), [], t, c);
  }

  /** Writing any command down and parsing the line gives back the command. */
  lemma RoundTrip(c: Cmd<string>)
    requires Printable(c)
    ensures Reads(ParseCmd(ShowLine(Written(c), "")), c, "")
  {
    hide ParseCmd, ShowLine, GoodLine, LineMeans, LineFits, Texts, Written;
    WrittenGood(c, "");
    assert Says(Written(c), "", c);
    assert "" + ShowLine(Written(c), "") == ShowLine(Written(c), "");
    CmdBack(ShowLine(Written(c), ""), "", Written(c));
  }
}
