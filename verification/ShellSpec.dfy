/** The shell's command language (sh.c): tokens, grammar, and a printer. */
module ShellSpec {
  const MAXARGS: nat := 10

  predicate Space(c: char) { c in {' ', '\t', '\r', '\n', '\U{000B}'} }
  predicate Symbol(c: char) { c in {'<', '|', '>', '&', ';', '(', ')'} }
  predicate WordChar(c: char) { !Space(c) && !Symbol(c) && c != '\0' }

  /** A symbol is its character, '+' standing for >>. */
  datatype Tok = W(text: string) | S(c: char)

  /** A command with words of type T. */
  datatype Cmd<T> =
    | Exec(argv: seq<T>)
    | Redir(cmd: Cmd<T>, file: T, mode: nat, fd: nat)
    | Pipe(left: Cmd<T>, right: Cmd<T>)
    | List(left: Cmd<T>, right: Cmd<T>)
    | Back(cmd: Cmd<T>)

  type Tree = Cmd<string>

  // ----- lexing -----

  function Skip(text: string, s: nat): (r: nat)
    requires s <= |text|
    ensures s <= r <= |text| && (r < |text| ==> !Space(text[r]))
    decreases |text| - s
  { if s < |text| && Space(text[s]) then Skip(text, s + 1) else s }

  function WordEnd(text: string, s: nat): (r: nat)
    requires s <= |text|
    ensures s <= r <= |text| && (r < |text| ==> !WordChar(text[r])) && forall i :: s <= i < r ==> WordChar(text[i])
    decreases |text| - s
  { if s < |text| && WordChar(text[s]) then WordEnd(text, s + 1) else s }

  predicate NoNul(text: string) { forall i :: 0 <= i < |text| ==> text[i] != '\0' }

  /** The token that starts at s, and where it ends. */
  function TokAt(text: string, s: nat): (r: (Tok, nat))
    requires s < |text| && !Space(text[s]) && NoNul(text)
    ensures s < r.1 <= |text|
  {
    if text[s] == '>' && s + 1 < |text| && text[s + 1] == '>' then (S('+'), s + 2)
    else if Symbol(text[s]) then (S(text[s]), s + 1)
    else (W(text[s..WordEnd(text, s)]), WordEnd(text, s))
  }

  function Lex(text: string, s: nat): (ts: seq<Tok>)
    requires s <= |text| && NoNul(text)
    decreases |text| - s
  {
    var a := Skip(text, s);
    if a == |text| then [] else [TokAt(text, a).0] + Lex(text, TokAt(text, a).1)
  }

  // ----- parsing, on tokens -----

  datatype Res = Ok(cmd: Tree, rest: seq<Tok>) | Fail

  predicate Next(ts: seq<Tok>, cs: set<char>) { ts != [] && ts[0].S? && ts[0].c in cs }

  /** Redirections around c. */
  function PRedirs(c: Tree, ts: seq<Tok>): (r: Res)
    ensures r.Ok? ==> |r.rest| <= |ts|
    decreases |ts|
  {
    if !Next(ts, {'<', '>', '+'}) then Ok(c, ts)
    else if |ts| < 2 || !ts[1].W? then Fail
    else PRedirs(if ts[0].c == '<' then Redir(c, ts[1].text, 0, 0) else Redir(c, ts[1].text, 0x201, 1), ts[2..])
  }

  /** One more argument for the command under the redirections. */
  function AddArg<T>(c: Cmd<T>, x: T): Cmd<T> {
    match c
    case Exec(argv) => Exec(argv + [x])
    case Redir(d, f, m, fd) => Redir(AddArg(d, x), f, m, fd)
    case _ => c
  }

  function PArgs(c: Tree, argc: nat, ts: seq<Tok>): (r: Res)
    ensures r.Ok? ==> |r.rest| <= |ts|
    decreases |ts|
  {
    if ts == [] || Next(ts, {'|', ')', '&', ';'}) then Ok(c, ts)
    else if ts[0].S? || argc + 1 >= MAXARGS then Fail
    else
      var r := PRedirs(AddArg(c, ts[0].text), ts[1..]);
      if r.Ok? then PArgs(r.cmd, argc + 1, r.rest) else Fail
  }

  function PExec(ts: seq<Tok>): (r: Res)
    ensures r.Ok? ==> |r.rest| <= |ts|
    decreases |ts|, 0
  {
    if Next(ts, {'('}) then
      var r := PLine(ts[1..]);
      if r.Ok? && Next(r.rest, {')'}) then PRedirs(r.cmd, r.rest[1..]) else Fail
    else
      var r := PRedirs(Exec([]), ts);
      if r.Ok? then PArgs(r.cmd, 0, r.rest) else Fail
  }

  function PPipe(ts: seq<Tok>): (r: Res)
    ensures r.Ok? ==> |r.rest| <= |ts|
    decreases |ts|, 1
  {
    var l := PExec(ts);
    if l.Fail? || !Next(l.rest, {'|'}) then l
    else
      var r := PPipe(l.rest[1..]);
      if r.Ok? then Ok(Pipe(l.cmd, r.cmd), r.rest) else Fail
  }

  function PBacks(c: Tree, ts: seq<Tok>): (r: Res)
    ensures r.Ok? && |r.rest| <= |ts|
    decreases |ts|
  { if Next(ts, {'&'}) then PBacks(Back(c), ts[1..]) else Ok(c, ts) }

  function PLine(ts: seq<Tok>): (r: Res)
    ensures r.Ok? ==> |r.rest| <= |ts|
    decreases |ts|, 2
  {
    var p := PPipe(ts);
    if p.Fail? then Fail
    else
      var l := PBacks(p.cmd, p.rest);
      if !Next(l.rest, {';'}) then l
      else
        var r := PLine(l.rest[1..]);
        if r.Ok? then Ok(List(l.cmd, r.cmd), r.rest) else Fail
  }

  /** The command a line stands for. */
  function Parse(text: string): (r: Res)
    requires NoNul(text)
  {
    var r := PLine(Lex(text, 0));
    if r.Ok? && r.rest != [] then Fail else r
  }

  // ----- printing -----

  predicate LegalWord(w: string) { w != [] && forall i :: 0 <= i < |w| ==> WordChar(w[i]) }

  /** The trees a line can stand for: any shape, with words that are words, at most MAXARGS - 1
      of them to a command, and the two kinds of redirection. */
  predicate Legal(t: Tree) {
    match t
    case Exec(argv) => |argv| < MAXARGS && forall i :: 0 <= i < |argv| ==> LegalWord(argv[i])
    case Redir(c, f, m, fd) => Legal(c) && LegalWord(f) && ((m == 0 && fd == 0) || (m == 0x201 && fd == 1))
    case Pipe(l, r) => Legal(l) && Legal(r)
    case List(l, r) => Legal(l) && Legal(r)
    case Back(c) => Legal(c)
  }

  function Words(argv: seq<string>): (ts: seq<Tok>) { if argv == [] then [] else [W(argv[0])] + Words(argv[1..]) }

  function RedirSym(fd: nat): Tok { if fd == 0 then S('<') else S('>') }

  function PrExec(t: Tree): (ts: seq<Tok>)
    decreases t, if t.Exec? || t.Redir? then 0 else if t.Pipe? then 3 else if t.Back? then 2 else 1
  {
    match t
    case Exec(argv) => Words(argv)
    case Redir(c, f, m, fd) => PrExec(c) + [RedirSym(fd), W(f)]
    case _ => [S('(')] + PrLine(t) + [S(')')]
  }

  function PrPipe(t: Tree): (ts: seq<Tok>)
    decreases t, if t.Exec? || t.Redir? then 1 else if t.Pipe? then 0 else if t.Back? then 3 else 2
  { if t.Pipe? then PrExec(t.left) + [S('|')] + PrPipe(t.right) else PrExec(t) }

  function PrBacks(t: Tree): (ts: seq<Tok>)
    decreases t, if t.Exec? || t.Redir? then 2 else if t.Pipe? then 1 else if t.Back? then 0 else 3
  { if t.Back? then PrBacks(t.cmd) + [S('&')] else PrPipe(t) }

  function PrLine(t: Tree): (ts: seq<Tok>)
    decreases t, if t.Exec? || t.Redir? then 3 else if t.Pipe? then 2 else if t.Back? then 1 else 0
  { if t.List? then PrBacks(t.left) + [S(';')] + PrLine(t.right) else PrBacks(t) }

  function ShowTok(t: Tok): string { if t.W? then t.text else if t.c == '+' then ">>" else [t.c] }

  /** Tokens separated by blanks. */
  function Show(ts: seq<Tok>): (text: string) { if ts == [] then "" else ShowTok(ts[0]) + " " + Show(ts[1..]) }

  /** The printer. */
  function Print(t: Tree): string { Show(PrLine(t)) }

  // ----- parsing undoes printing, on tokens -----

  datatype R = R(file: string, mode: nat, fd: nat)

  predicate LegalR(r: R) { LegalWord(r.file) && ((r.mode == 0 && r.fd == 0) || (r.mode == 0x201 && r.fd == 1)) }

  function Wrap(c: Tree, rs: seq<R>): Tree
    decreases |rs|
  { if rs == [] then c else Wrap(Redir(c, rs[0].file, rs[0].mode, rs[0].fd), rs[1..]) }

  function RToks(rs: seq<R>): seq<Tok> { if rs == [] then [] else [RedirSym(rs[0].fd), W(rs[0].file)] + RToks(rs[1..]) }

  /** What may follow a command, a pipeline, a background job, a line. */
  predicate Follow(k: seq<Tok>, cs: set<char>) { k == [] || Next(k, cs) }

  lemma {:induction false} RedirsBack(c: Tree, rs: seq<R>, k: seq<Tok>)
    requires (forall i :: 0 <= i < |rs| ==> LegalR(rs[i])) && !Next(k, {'<', '>', '+'})
    ensures PRedirs(c, RToks(rs) + k) == Ok(Wrap(c, rs), k)
    decreases |rs|
  {
    if rs == [] {
      assert RToks(rs) + k == k;
    } else {
      hide PRedirs;
      assert RToks(rs) + k == [RedirSym(rs[0].fd), W(rs[0].file)] + (RToks(rs[1..]) + k);
      RedirBack(c, rs[0], RToks(rs[1..]) + k);
      RedirsBack(Redir(c, rs[0].file, rs[0].mode, rs[0].fd), rs[1..], k);
    }
  }

  lemma {:induction false} RedirBack(c: Tree, r: R, rest: seq<Tok>)
    requires LegalR(r)
    ensures PRedirs(c, [RedirSym(r.fd), W(r.file)] + rest) == PRedirs(Redir(c, r.file, r.mode, r.fd), rest)
  {
    var ts := [RedirSym(r.fd), W(r.file)] + rest;
    assert ts[2..] == rest;
  }

  /** One turn of parseexec's loop. */
  lemma {:induction false} ArgStep(c: Tree, argc: nat, w: string, rest: seq<Tok>)
    requires argc + 1 < MAXARGS
    ensures PArgs(c, argc, [W(w)] + rest) ==
      var r := PRedirs(AddArg(c, w), rest); if r.Ok? then PArgs(r.cmd, argc + 1, r.rest) else Fail
  {
    hide PRedirs, AddArg;
    var ts := [W(w)] + rest;
    assert ts[0] == W(w) && ts[1..] == rest;
  }

  lemma {:induction false} LastArg(done: seq<string>, w: string, rs: seq<R>, k: seq<Tok>)
    requires |done| + 1 < MAXARGS && (forall i :: 0 <= i < |rs| ==> LegalR(rs[i])) && Follow(k, {'|', ')', '&', ';'})
    ensures PArgs(Exec(done), |done|, [W(w)] + (RToks(rs) + k)) == Ok(Wrap(Exec(done + [w]), rs), k)
  {
    hide PArgs, PRedirs, Wrap, RToks;
    ArgStep(Exec(done), |done|, w, RToks(rs) + k);
    RedirsBack(Exec(done + [w]), rs, k);
    WrapExec(Exec(done + [w]), rs, k);
  }

  lemma {:induction false} ArgsBack(done: seq<string>, argv: seq<string>, rs: seq<R>, k: seq<Tok>)
    requires argv != [] && |done| + |argv| < MAXARGS && (forall i :: 0 <= i < |rs| ==> LegalR(rs[i]))
    requires Follow(k, {'|', ')', '&', ';'})
    ensures PArgs(Exec(done), |done|, Words(argv) + RToks(rs) + k) == Ok(Wrap(Exec(done + argv), rs), k)
    decreases |argv|
  {
    hide PArgs, PRedirs, Wrap, RToks, Words, Next;
    var w, rest := argv[0], Words(argv[1..]) + RToks(rs) + k;
    WordsCons(argv, RToks(rs), k);
    if |argv| == 1 {
      assert rest == RToks(rs) + k;
      assert done + [w] == done + argv;
      LastArg(done, w, rs, k);
    } else {
      WordsCons(argv[1..], RToks(rs), k);
      MoreArgs(done, w, argv[1], rest);
      ArgsBack(done + [w], argv[1..], rs, k);
      assert done + [w] + argv[1..] == done + argv;
    }
  }

  lemma {:induction false} WordsCons(argv: seq<string>, r: seq<Tok>, k: seq<Tok>)
    requires argv != []
    ensures Words(argv) + r + k == [W(argv[0])] + (Words(argv[1..]) + r + k)
    ensures |argv| == 1 ==> Words(argv[1..]) == []
  {
  }

  lemma {:induction false} MoreArgs(done: seq<string>, w: string, next: string, rest: seq<Tok>)
    requires |done| + 1 < MAXARGS && rest != [] && rest[0] == W(next)
    ensures PArgs(Exec(done), |done|, [W(w)] + rest) == PArgs(Exec(done + [w]), |done| + 1, rest)
  {
    hide PArgs, PRedirs;
    ArgStep(Exec(done), |done|, w, rest);
    NoRedirs(Exec(done + [w]), rest);
  }

  lemma {:induction false} NoRedirs(c: Tree, ts: seq<Tok>)
    requires !Next(ts, {'<', '>', '+'})
    ensures PRedirs(c, ts) == Ok(c, ts)
  {
  }

  lemma {:induction false} WrapExec(c: Tree, rs: seq<R>, k: seq<Tok>)
    requires Follow(k, {'|', ')', '&', ';'})
    ensures forall n: nat :: PArgs(Wrap(c, rs), n, k) == Ok(Wrap(c, rs), k)
  {
  }

  lemma {:induction false} WordsBack(argv: seq<string>, rs: seq<R>, k: seq<Tok>)
    requires Legal(Exec(argv)) && (forall i :: 0 <= i < |rs| ==> LegalR(rs[i])) && Follow(k, {'|', ')', '&', ';'})
    ensures PExec(Words(argv) + RToks(rs) + k) == Ok(Wrap(Exec(argv), rs), k)
  {
    hide Wrap, PRedirs, PArgs;
    var ts := Words(argv) + RToks(rs) + k;
    if argv == [] {
      assert ts == RToks(rs) + k;
      RedirsBack(Exec([]), rs, k);
      WrapExec(Exec([]), rs, k);
      if rs != [] { assert ts[0] == RedirSym(rs[0].fd); } else { assert ts == k; }
    } else {
      assert ts[0] == W(argv[0]);
      NoRedirs(Exec([]), ts);
      ArgsBack([], argv, rs, k);
      assert [] + argv == argv;
    }
  }

  lemma {:induction false} BlockBack(t: Tree, rs: seq<R>, k: seq<Tok>, k': seq<Tok>)
    requires (forall i :: 0 <= i < |rs| ==> LegalR(rs[i])) && Follow(k, {'|', ')', '&', ';'})
    requires k' == [S(')')] + (RToks(rs) + k) && PLine(PrLine(t) + k') == Ok(t, k')
    ensures PExec([S('(')] + PrLine(t) + [S(')')] + RToks(rs) + k) == Ok(Wrap(t, rs), k)
  {
    var ts := [S('(')] + PrLine(t) + [S(')')] + RToks(rs) + k;
    assert ts == [S('(')] + (PrLine(t) + k') && ts[1..] == PrLine(t) + k';
    assert k'[1..] == RToks(rs) + k;
    RedirsBack(t, rs, k);
  }

  lemma {:induction false} ExecBack(t: Tree, rs: seq<R>, k: seq<Tok>)
    requires Legal(t) && (forall i :: 0 <= i < |rs| ==> LegalR(rs[i])) && Follow(k, {'|', ')', '&', ';'})
    ensures PExec(PrExec(t) + RToks(rs) + k) == Ok(Wrap(t, rs), k)
    decreases t, if t.Exec? || t.Redir? then 0 else if t.Pipe? then 3 else if t.Back? then 2 else 1
  {
    hide PExec, PLine;
    match t
    case Exec(argv) => WordsBack(argv, rs, k);
    case Redir(c, f, m, fd) =>
      var rs' := [R(f, m, fd)] + rs;
      assert rs'[1..] == rs;
      assert PrExec(t) + RToks(rs) + k == PrExec(c) + RToks(rs') + k;
      ExecBack(c, rs', k);
    case _ =>
      var k' := [S(')')] + (RToks(rs) + k);
      LineBack(t, k');
      BlockBack(t, rs, k, k');
  }

  lemma {:induction false} PipeBack(t: Tree, k: seq<Tok>)
    requires Legal(t) && Follow(k, {')', '&', ';'})
    ensures PPipe(PrPipe(t) + k) == Ok(t, k)
    decreases t, if t.Exec? || t.Redir? then 1 else if t.Pipe? then 0 else if t.Back? then 3 else 2
  {
    if t.Pipe? {
      var k' := [S('|')] + (PrPipe(t.right) + k);
      assert PrPipe(t) + k == PrExec(t.left) + RToks([]) + k' && k'[1..] == PrPipe(t.right) + k;
      ExecBack(t.left, [], k');
      PipeBack(t.right, k);
    } else {
      assert PrPipe(t) + k == PrExec(t) + RToks([]) + k;
      ExecBack(t, [], k);
    }
  }

  function Backs(t: Tree, n: nat): Tree
    decreases n
  { if n == 0 then t else Backs(Back(t), n - 1) }

  function Ampersands(n: nat): seq<Tok> { seq(n, _ => S('&')) }

  lemma {:induction false} BacksBack(t: Tree, n: nat, k: seq<Tok>)
    requires !Next(k, {'&'})
    ensures PBacks(t, Ampersands(n) + k) == Ok(Backs(t, n), k)
    decreases n
  {
    var ts := Ampersands(n) + k;
    if n == 0 {
      assert ts == k;
    } else {
      assert ts[0] == S('&') && ts[1..] == Ampersands(n - 1) + k;
      BacksBack(Back(t), n - 1, k);
    }
  }

  lemma {:induction false} JobBack(t: Tree, n: nat, k: seq<Tok>)
    requires Legal(t) && Follow(k, {')', ';'})
    ensures var p := PPipe(PrBacks(t) + Ampersands(n) + k); p.Ok? && PBacks(p.cmd, p.rest) == Ok(Backs(t, n), k)
    decreases t, if t.Exec? || t.Redir? then 2 else if t.Pipe? then 1 else if t.Back? then 0 else 3
  {
    if t.Back? {
      assert PrBacks(t) + Ampersands(n) + k == PrBacks(t.cmd) + Ampersands(n + 1) + k;
      JobBack(t.cmd, n + 1, k);
    } else {
      var k' := Ampersands(n) + k;
      assert PrBacks(t) + Ampersands(n) + k == PrPipe(t) + k';
      if n > 0 { assert k'[0] == S('&'); } else { assert k' == k; }
      PipeBack(t, k');
      BacksBack(t, n, k);
    }
  }

  lemma {:induction false} LineBack(t: Tree, k: seq<Tok>)
    requires Legal(t) && Follow(k, {')'})
    ensures PLine(PrLine(t) + k) == Ok(t, k)
    decreases t, if t.Exec? || t.Redir? then 3 else if t.Pipe? then 2 else if t.Back? then 1 else 0
  {
    if t.List? {
      var k' := [S(';')] + (PrLine(t.right) + k);
      assert PrLine(t) + k == PrBacks(t.left) + Ampersands(0) + k' && k'[1..] == PrLine(t.right) + k;
      JobBack(t.left, 0, k');
      LineBack(t.right, k);
    } else {
      assert PrLine(t) + k == PrBacks(t) + Ampersands(0) + k;
      JobBack(t, 0, k);
    }
  }

  // ----- lexing undoes showing -----

  predicate LegalTok(t: Tok) { if t.W? then LegalWord(t.text) else Symbol(t.c) || t.c == '+' }

  predicate LegalToks(ts: seq<Tok>) { forall i :: 0 <= i < |ts| ==> LegalTok(ts[i]) }

  lemma {:induction false} WordsLegal(argv: seq<string>)
    requires forall i :: 0 <= i < |argv| ==> LegalWord(argv[i])
    ensures LegalToks(Words(argv))
  {
    if argv != [] { WordsLegal(argv[1..]); }
  }

  lemma {:induction false} PrintedLegal(t: Tree)
    requires Legal(t)
    ensures LegalToks(PrExec(t)) && LegalToks(PrPipe(t)) && LegalToks(PrBacks(t)) && LegalToks(PrLine(t))
  {
    match t
    case Exec(argv) => WordsLegal(argv);
    case Redir(c, f, m, fd) => PrintedLegal(c);
    case Pipe(l, r) =>
      PrintedLegal(l);
      PrintedLegal(r);
      assert LegalToks(PrPipe(t)) && PrLine(t) == PrBacks(t) == PrPipe(t);
    case List(l, r) =>
      PrintedLegal(l);
      PrintedLegal(r);
      assert LegalToks(PrLine(t)) && LegalToks(PrExec(t));
    case Back(c) =>
      PrintedLegal(c);
      assert LegalToks(PrBacks(t)) && LegalToks(PrExec(t));
  }

  lemma {:induction false} WordEndAt(text: string, s: nat, e: nat)
    requires s <= e <= |text| && (forall i :: s <= i < e ==> WordChar(text[i])) && (e < |text| ==> !WordChar(text[e]))
    ensures WordEnd(text, s) == e
    decreases e - s
  {
    if s < e { WordEndAt(text, s + 1, e); }
  }

  /** A shown token is lexed as that token. */
  lemma {:induction false} TokShown(text: string, s: nat, e: nat, t: Tok)
    requires NoNul(text) && LegalTok(t) && s <= e < |text| && text[s..e] == ShowTok(t) && text[e] == ' '
    ensures Skip(text, s) == s < |text| && TokAt(text, s) == (t, e)
  {
    var w := text[s..e];
    assert text[s] == w[0];
    if t.W? {
      forall i | s <= i < e ensures WordChar(text[i]) { assert text[i] == w[i - s]; }
      WordEndAt(text, s, e);
    } else if t.c == '+' {
      assert text[s + 1] == w[1];
    }
  }

  lemma {:induction false} LexShown(text: string, s: nat, ts: seq<Tok>)
    requires s <= |text| && NoNul(text) && LegalToks(ts) && text[s..] == Show(ts)
    ensures Lex(text, s) == ts
    decreases |ts|
  {
    hide Lex, Skip, TokAt, ShowTok, LegalTok, NoNul;
    if ts == [] {
      LexEnd(text, s);
    } else {
      var e := s + |ShowTok(ts[0])|;
      Split(text, s, ShowTok(ts[0]), Show(ts[1..]));
      TokShown(text, s, e, ts[0]);
      LexShown(text, e + 1, ts[1..]);
      LexFirst(text, s, e, ts[0]);
    }
  }

  lemma {:induction false} LexEnd(text: string, s: nat)
    requires s <= |text| && NoNul(text) && text[s..] == ""
    ensures Lex(text, s) == []
  {
    assert |text[s..]| == 0;
  }

  lemma {:induction false} LexFirst(text: string, s: nat, e: nat, t: Tok)
    requires NoNul(text) && s <= e < |text| && Skip(text, s) == s && TokAt(text, s) == (t, e) && text[e] == ' '
    ensures Lex(text, s) == [t] + Lex(text, e + 1)
  {
    hide TokAt;
    assert Skip(text, e) == Skip(text, e + 1);
  }

  lemma {:induction false} Split(text: string, s: nat, w: string, rest: string)
    requires s <= |text| && text[s..] == w + " " + rest
    ensures var e := s + |w|; e < |text| && text[s..e] == w && text[e] == ' ' && text[e + 1..] == rest
  {
    var e := s + |w|;
    assert text[s..e] == text[s..][..|w|];
    assert text[e] == text[s..][|w|];
    assert text[e + 1..] == text[s..][|w| + 1..];
  }

  lemma {:induction false} ShownNoNul(ts: seq<Tok>)
    requires LegalToks(ts)
    ensures NoNul(Show(ts))
  {
    if ts != [] { ShownNoNul(ts[1..]); }
  }

  /** Parsing undoes printing, for every legal tree. */
  lemma {:induction false} ParsePrint(t: Tree)
    requires Legal(t)
    ensures NoNul(Print(t)) && Parse(Print(t)) == Ok(t, [])
  {
    PrintedLegal(t);
    ShownNoNul(PrLine(t));
    assert Print(t)[0..] == Show(PrLine(t));
    LexShown(Print(t), 0, PrLine(t));
    LineBack(t, []);
    assert PrLine(t) + [] == PrLine(t);
  }

  // ----- appending -----

  /** The tokens with > for every >>. */
  function Trunc(ts: seq<Tok>): (r: seq<Tok>)
    ensures |r| == |ts|
  { seq(|ts|, i requires 0 <= i < |ts| => if ts[i] == S('+') then S('>') else ts[i]) }

  function TruncRes(r: Res): Res { if r.Ok? then Ok(r.cmd, Trunc(r.rest)) else Fail }

  lemma {:induction false} TruncTail(ts: seq<Tok>, k: nat)
    requires k <= |ts|
    ensures Trunc(ts)[k..] == Trunc(ts[k..])
  {
  }

  /** Tokens other than redirections are looked at alike. */
  lemma {:induction false} TruncNext(ts: seq<Tok>, cs: set<char>)
    requires '>' in cs <==> '+' in cs
    ensures Next(Trunc(ts), cs) <==> Next(ts, cs)
  {
  }

  lemma {:induction false} TruncRedirs(c: Tree, ts: seq<Tok>)
    ensures PRedirs(c, Trunc(ts)) == TruncRes(PRedirs(c, ts))
    decreases |ts|
  {
    TruncNext(ts, {'<', '>', '+'});
    if Next(ts, {'<', '>', '+'}) && |ts| >= 2 && ts[1].W? {
      TruncTail(ts, 2);
      TruncRedirs(if ts[0].c == '<' then Redir(c, ts[1].text, 0, 0) else Redir(c, ts[1].text, 0x201, 1), ts[2..]);
    }
  }

  lemma {:induction false} TruncArgs(c: Tree, argc: nat, ts: seq<Tok>)
    ensures PArgs(c, argc, Trunc(ts)) == TruncRes(PArgs(c, argc, ts))
    decreases |ts|
  {
    hide PRedirs, Trunc;
    TruncNext(ts, {'|', ')', '&', ';'});
    if ts != [] && !Next(ts, {'|', ')', '&', ';'}) {
      TruncFirst(ts);
      TruncTail(ts, 1);
      if ts[0].W? {
        TruncRedirs(AddArg(c, ts[0].text), ts[1..]);
        var r := PRedirs(AddArg(c, ts[0].text), ts[1..]);
        if r.Ok? { TruncArgs(r.cmd, argc + 1, r.rest); }
      }
    }
  }

  lemma {:induction false} TruncFirst(ts: seq<Tok>)
    requires ts != []
    ensures (ts[0].W? ==> Trunc(ts)[0] == ts[0]) && (ts[0].S? <==> Trunc(ts)[0].S?)
  {
  }

  lemma {:induction false} TruncExec(ts: seq<Tok>)
    ensures PExec(Trunc(ts)) == TruncRes(PExec(ts))
    decreases |ts|, 0
  {
    hide PRedirs, PArgs, PLine, Trunc, Next;
    TruncNext(ts, {'('});
    if Next(ts, {'('}) {
      NonEmpty(ts, {'('});
      TruncTail(ts, 1);
      TruncLine(ts[1..]);
      var r := PLine(ts[1..]);
      if r.Ok? {
        TruncNext(r.rest, {')'});
        if Next(r.rest, {')'}) {
          NonEmpty(r.rest, {')'});
          TruncTail(r.rest, 1);
          TruncRedirs(r.cmd, r.rest[1..]);
        }
      }
    } else {
      TruncRedirs(Exec([]), ts);
      var r := PRedirs(Exec([]), ts);
      if r.Ok? { TruncArgs(r.cmd, 0, r.rest); }
    }
  }

  lemma {:induction false} NonEmpty(ts: seq<Tok>, cs: set<char>)
    requires Next(ts, cs)
    ensures |ts| > 0
  {
  }

  lemma {:induction false} TruncPipe(ts: seq<Tok>)
    ensures PPipe(Trunc(ts)) == TruncRes(PPipe(ts))
    decreases |ts|, 1
  {
    hide PExec, Trunc, Next;
    TruncExec(ts);
    var l := PExec(ts);
    if l.Ok? {
      TruncNext(l.rest, {'|'});
      if Next(l.rest, {'|'}) {
        NonEmpty(l.rest, {'|'});
        TruncTail(l.rest, 1);
        TruncPipe(l.rest[1..]);
      }
    }
  }

  lemma {:induction false} TruncBacks(c: Tree, ts: seq<Tok>)
    ensures PBacks(c, Trunc(ts)) == TruncRes(PBacks(c, ts))
    decreases |ts|
  {
    hide Trunc, Next;
    TruncNext(ts, {'&'});
    if Next(ts, {'&'}) {
      NonEmpty(ts, {'&'});
      TruncTail(ts, 1);
      TruncBacks(Back(c), ts[1..]);
    }
  }

  /** Wherever >> stands in a line, the grammar reads it as >. */
  lemma {:induction false} TruncLine(ts: seq<Tok>)
    ensures PLine(Trunc(ts)) == TruncRes(PLine(ts))
    decreases |ts|, 2
  {
    hide PPipe, PBacks, Trunc, Next;
    TruncPipe(ts);
    var p := PPipe(ts);
    if p.Ok? {
      TruncBacks(p.cmd, p.rest);
      var l := PBacks(p.cmd, p.rest);
      TruncNext(l.rest, {';'});
      if Next(l.rest, {';'}) {
        NonEmpty(l.rest, {';'});
        TruncTail(l.rest, 1);
        TruncLine(l.rest[1..]);
      }
    }
  }

  /** No line can append: two lines that differ only in >> for > stand for the same command, or
      neither stands for one. */
  lemma {:induction false} AppendIsTruncate(a: string, b: string)
    requires NoNul(a) && NoNul(b) && Trunc(Lex(a, 0)) == Trunc(Lex(b, 0))
    ensures Parse(a) == Parse(b)
  {
    hide PLine, Trunc, Lex;
    TruncLine(Lex(a, 0));
    TruncLine(Lex(b, 0));
    var r, q := PLine(Lex(a, 0)), PLine(Lex(b, 0));
    if r.Ok? { TruncSize(r.rest, q.rest); }
  }

  lemma {:induction false} TruncSize(ts: seq<Tok>, us: seq<Tok>)
    requires Trunc(ts) == Trunc(us)
    ensures |ts| == |us| && (ts == [] <==> us == [])
  {
    assert |Trunc(ts)| == |ts|;
  }
}
