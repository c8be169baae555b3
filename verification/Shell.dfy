/** The shell's parser (sh.c). */
module Shell {
  import opened ShellSpec

  /** A word in the buffer: from q up to eq. */
  datatype Span = Span(q: nat, eq: nat)

  /** The characters of a word, and no more of them. */
  predicate WordAt(text: string, x: Span) {
    && x.q < x.eq <= |text| && (forall i :: x.q <= i < x.eq ==> WordChar(text[i]))
    && (x.eq < |text| ==> !WordChar(text[x.eq]))
  }

  predicate WordsAt(text: string, c: Cmd<Span>) {
    match c
    case Exec(argv) => forall i :: 0 <= i < |argv| ==> WordAt(text, argv[i])
    case Redir(d, f, m, fd) => WordsAt(text, d) && WordAt(text, f)
    case Pipe(l, r) => WordsAt(text, l) && WordsAt(text, r)
    case List(l, r) => WordsAt(text, l) && WordsAt(text, r)
    case Back(d) => WordsAt(text, d)
  }

  function Text(text: string, x: Span): string
    requires WordAt(text, x)
  { text[x.q..x.eq] }

  function Texts(text: string, argv: seq<Span>): (r: seq<string>)
    requires forall i :: 0 <= i < |argv| ==> WordAt(text, argv[i])
  { seq(|argv|, i requires 0 <= i < |argv| => Text(text, argv[i])) }

  /** The command with its words spelled out. */
  function View(text: string, c: Cmd<Span>): Tree
    requires WordsAt(text, c)
  {
    match c
    case Exec(argv) => Exec(Texts(text, argv))
    case Redir(d, f, m, fd) => Redir(View(text, d), Text(text, f), m, fd)
    case Pipe(l, r) => Pipe(View(text, l), View(text, r))
    case List(l, r) => List(View(text, l), View(text, r))
    case Back(d) => Back(View(text, d))
  }

  lemma {:induction false} ViewAddArg(text: string, c: Cmd<Span>, x: Span)
    requires WordsAt(text, c) && WordAt(text, x)
    ensures WordsAt(text, AddArg(c, x)) && View(text, AddArg(c, x)) == AddArg(View(text, c), Text(text, x))
  {
    match c
    case Exec(argv) => assert Texts(text, argv + [x]) == Texts(text, argv) + [Text(text, x)];
    case Redir(d, f, m, fd) => ViewAddArg(text, d, x);
    case _ =>
  }

  /** The tokens that start with one of these characters. */
  function Starting(cs: set<char>): set<char> { if '>' in cs then cs + {'+'} else cs }

  lemma {:induction false} LexSkips(text: string, s: nat)
    requires s <= |text| && NoNul(text)
    ensures Lex(text, Skip(text, s)) == Lex(text, s) && Skip(text, Skip(text, s)) == Skip(text, s)
  {
  }

  lemma {:induction false} FirstChar(text: string, s: nat, cs: set<char>)
    requires s <= |text| && NoNul(text) && forall c :: c in cs ==> Symbol(c)
    ensures var a := Skip(text, s); (a < |text| && text[a] in cs) == Next(Lex(text, s), Starting(cs))
  {
  }

  class Parser {
    const text: string
    /** The cursor. */
    var s: nat

    constructor (t: string)
      ensures text == t && s == 0
    {
      text, s := t, 0;
    }

    ghost predicate Valid()
      reads this
    { s <= |text| && NoNul(text) }

    ghost function Rest(): seq<Tok>
      reads this
      requires Valid()
    { Lex(text, s) }

    method SkipSpace()
      requires Valid()
      modifies this`s
      ensures Valid() && s == Skip(text, old(s)) && Rest() == old(Rest())
    {
      LexSkips(text, s);
      while s < |text| && Space(text[s])
        invariant Valid() && Skip(text, s) == Skip(text, old(s))
      {
        s := s + 1;
      }
    }

    /** peek. */
    method Peek(toks: set<char>) returns (r: bool)
      requires Valid() && forall c :: c in toks ==> Symbol(c)
      modifies this`s
      ensures Valid() && s >= old(s) && Rest() == old(Rest()) && r == Next(Rest(), Starting(toks))
    {
      FirstChar(text, s, toks);
      SkipSpace();
      r := s < |text| && text[s] in toks;
    }

    /** gettoken: 0 at the end, 'a' for a word, '+' for >>, else the symbol. */
    method Gettoken() returns (ret: char, x: Span)
      requires Valid()
      modifies this`s
      ensures Valid() && (old(Rest()) == [] ==> ret == '\0' && Rest() == [] && s >= old(s))
      ensures old(Rest()) != [] ==>
        s > old(s) && Rest() == old(Rest())[1..] && ret != '\0' && (ret == 'a' <==> old(Rest())[0].W?)
      ensures old(Rest()) != [] && old(Rest())[0].S? ==> ret == old(Rest())[0].c
      ensures old(Rest()) != [] && old(Rest())[0].W? ==> WordAt(text, x) && Text(text, x) == old(Rest())[0].text
    {
      SkipSpace();
      var q := s;
      ghost var ts := Rest();
      if s == |text| {
        ret := '\0';
      } else if text[s] in {'|', '(', ')', ';', '&', '<'} {
        ret, s := text[s], s + 1;
      } else if text[s] == '>' {
        ret, s := '>', s + 1;
        if s < |text| && text[s] == '>' { ret, s := '+', s + 1; }
      } else {
        ret := 'a';
        while s < |text| && !Space(text[s]) && !Symbol(text[s])
          invariant q <= s <= |text| && WordEnd(text, s) == WordEnd(text, q)
        {
          s := s + 1;
        }
      }
      x := Span(q, s);
      assert q < |text| ==> ts == [TokAt(text, q).0] + Lex(text, TokAt(text, q).1) && s == TokAt(text, q).1;
      SkipSpace();
    }

    /** What a parsing method that returns c with success flag ok has to show for itself: it
        agrees with result p of the grammar. */
    ghost predicate Agrees(p: Res, c: Cmd<Span>, ok: bool)
      reads this
    {
      Valid() && (ok <==> p.Ok?) && (ok ==> WordsAt(text, c) && View(text, c) == p.cmd && Rest() == p.rest)
    }

    /** parseredirs. */
    method Parseredirs(c: Cmd<Span>) returns (r: Cmd<Span>, ok: bool)
      requires Valid() && WordsAt(text, c)
      modifies this`s
      ensures s >= old(s) && Agrees(PRedirs(View(text, c), old(Rest())), r, ok)
    {
      hide Lex, WordAt;
      r, ok := c, true;
      while true
        invariant Valid() && s >= old(s) && WordsAt(text, r) && ok
        invariant PRedirs(View(text, r), Rest()) == PRedirs(View(text, c), old(Rest()))
        decreases |text| - s
      {
        var more := Peek({'<', '>'});
        if !more { break; }
        ghost var ts := Rest();
        var tok, x := Gettoken();
        var w, y := Gettoken();
        if w != 'a' { ok := false; return; }
        assert ts[1..][1..] == ts[2..];
        if tok == '<' {
          r := Redir(r, y, 0, 0);
        } else {
          r := Redir(r, y, 0x201, 1);
        }
      }
    }

    /** parseexec. */
    method Parseexec() returns (r: Cmd<Span>, ok: bool)
      requires Valid()
      modifies this`s
      ensures s >= old(s) && Agrees(PExec(old(Rest())), r, ok)
      decreases |text| - s, 1
    {
      hide Lex, WordAt;
      var block := Peek({'('});
      if block {
        r, ok := Parseblock();
        return;
      }
      var argc := 0;
      r := Exec([]);
      assert View(text, r) == Exec([]);
      r, ok := Parseredirs(r);
      if !ok { return; }
      while true
        invariant Valid() && s >= old(s) && WordsAt(text, r) && ok
        invariant PArgs(View(text, r), argc, Rest()) == PExec(old(Rest()))
        decreases |text| - s
      {
        var stop := Peek({'|', ')', '&', ';'});
        if stop { break; }
        var tok, x := Gettoken();
        if tok == '\0' { break; }
        if tok != 'a' { ok := false; return; }
        ViewAddArg(text, r, x);
        r, argc := AddArg(r, x), argc + 1;
        if argc >= MAXARGS { ok := false; return; }
        r, ok := Parseredirs(r);
        if !ok { return; }
      }
    }

    /** parseblock, called at an opening parenthesis. */
    method Parseblock() returns (r: Cmd<Span>, ok: bool)
      requires Valid() && Next(Rest(), {'('})
      modifies this`s
      ensures s >= old(s) && Agrees(PExec(old(Rest())), r, ok)
      decreases |text| - s, 0
    {
      hide Lex, WordAt;
      var tok, x := Gettoken();
      r, ok := Parseline();
      if !ok { return; }
      ok := Peek({')'});
      if !ok { return; }
      tok, x := Gettoken();
      r, ok := Parseredirs(r);
    }

    /** parsepipe. */
    method Parsepipe() returns (r: Cmd<Span>, ok: bool)
      requires Valid()
      modifies this`s
      ensures s >= old(s) && Agrees(PPipe(old(Rest())), r, ok)
      decreases |text| - s, 2
    {
      hide Lex, WordAt;
      r, ok := Parseexec();
      if !ok { return; }
      var more := Peek({'|'});
      if more {
        var tok, x := Gettoken();
        var right;
        right, ok := Parsepipe();
        if ok { r := Pipe(r, right); }
      }
    }

    /** parseline. */
    method Parseline() returns (r: Cmd<Span>, ok: bool)
      requires Valid()
      modifies this`s
      ensures s >= old(s) && Agrees(PLine(old(Rest())), r, ok)
      decreases |text| - s, 3
    {
      hide Lex, WordAt;
      r, ok := Parsepipe();
      if !ok { return; }
      ghost var c, ts := View(text, r), Rest();
      while true
        invariant Valid() && s >= old(s) && WordsAt(text, r) && PBacks(View(text, r), Rest()) == PBacks(c, ts)
        decreases |text| - s
      {
        var more := Peek({'&'});
        if !more { break; }
        var tok, x := Gettoken();
        r := Back(r);
      }
      var more := Peek({';'});
      if more {
        var tok, x := Gettoken();
        var right;
        right, ok := Parseline();
        if ok { r := List(r, right); }
      }
    }
  }

  /** Where the words of a command end. */
  function Ends(c: Cmd<Span>): (e: set<nat>) {
    match c
    case Exec(argv) => set i | 0 <= i < |argv| :: argv[i].eq
    case Redir(d, f, m, fd) => Ends(d) + {f.eq}
    case Pipe(l, r) => Ends(l) + Ends(r)
    case List(l, r) => Ends(l) + Ends(r)
    case Back(d) => Ends(d)
  }

  /** nulterminate: a NUL goes where each word ends, and nowhere else. */
  method Nulterminate(c: Cmd<Span>, buf: array<char>)
    requires forall e :: e in Ends(c) ==> e < buf.Length
    modifies buf
    ensures forall i :: 0 <= i < buf.Length ==> buf[i] == if i in Ends(c) then '\0' else old(buf[i])
    decreases c
  {
    match c
    case Exec(argv) =>
      var i := 0;
      while i < |argv|
        invariant 0 <= i <= |argv|
        invariant forall k :: 0 <= k < buf.Length ==>
          buf[k] == if k in (set j | 0 <= j < i :: argv[j].eq) then '\0' else old(buf[k])
      {
        assert argv[i].eq in Ends(c);
        buf[argv[i].eq] := '\0';
        i := i + 1;
      }
    case Redir(d, f, m, fd) =>
      assert Ends(c) == Ends(d) + {f.eq};
      Nulterminate(d, buf);
      buf[f.eq] := '\0';
    case Pipe(l, r) =>
      assert Ends(c) == Ends(l) + Ends(r);
      Nulterminate(l, buf);
      Nulterminate(r, buf);
    case List(l, r) =>
      assert Ends(c) == Ends(l) + Ends(r);
      Nulterminate(l, buf);
      Nulterminate(r, buf);
    case Back(d) =>
      assert Ends(c) == Ends(d);
      Nulterminate(d, buf);
  }

  /** x is one of the words of c. */
  predicate WordOf(c: Cmd<Span>, x: Span) {
    match c
    case Exec(argv) => x in argv
    case Redir(d, f, m, fd) => WordOf(d, x) || x == f
    case Pipe(l, r) => WordOf(l, x) || WordOf(r, x)
    case List(l, r) => WordOf(l, x) || WordOf(r, x)
    case Back(d) => WordOf(d, x)
  }

  /** Words end outside all words: no NUL lands inside a word, and each word gets its own. */
  lemma {:induction false} EndsOutside(text: string, c: Cmd<Span>)
    requires WordsAt(text, c)
    ensures forall e :: e in Ends(c) ==> e <= |text| && (e < |text| ==> !WordChar(text[e]))
    ensures forall x {:trigger WordOf(c, x)} :: WordOf(c, x) ==> WordAt(text, x) && x.eq in Ends(c)
  {
    match c
    case Exec(argv) =>
    case Redir(d, f, m, fd) => EndsOutside(text, d);
    case Pipe(l, r) =>
      EndsOutside(text, l);
      EndsOutside(text, r);
    case List(l, r) =>
      EndsOutside(text, l);
      EndsOutside(text, r);
    case Back(d) => EndsOutside(text, d);
  }

  /** parsecmd on a line in a NUL-terminated buffer.  It succeeds exactly on the lines of the
      grammar, with the command they stand for, and leaves each word of it in the buffer as a
      C string. */
  method Parsecmd(buf: array<char>, ghost n: nat) returns (c: Cmd<Span>, ok: bool)
    requires n < buf.Length && buf[n] == '\0' && NoNul(buf[..n])
    modifies buf
    ensures ok <==> Parse(old(buf[..n])).Ok?
    ensures ok ==> WordsAt(old(buf[..n]), c) && View(old(buf[..n]), c) == Parse(old(buf[..n])).cmd
    ensures ok ==> forall x {:trigger WordOf(c, x)} :: WordOf(c, x) ==>
      x.q < x.eq < buf.Length && buf[x.eq] == '\0' && buf[x.q..x.eq] == old(buf[x.q..x.eq])
        && forall i :: x.q <= i < x.eq ==> buf[i] != '\0'
    ensures forall i :: 0 <= i < buf.Length && buf[i] != old(buf[i]) ==> ok && i in Ends(c) && buf[i] == '\0'
  {
    assert forall i :: 0 <= i < n ==> buf[i] == buf[..n][i];
    var es := 0;
    while buf[es] != '\0'
      invariant 0 <= es <= n
      decreases n - es
    {
      es := es + 1;
    }
    var ps := new Parser(buf[..es]);
    c, ok := ps.Parseline();
    if !ok { return; }
    ps.SkipSpace();
    AtEnd(ps.text, ps.s);
    if ps.s != es { ok := false; return; }
    EndsOutside(ps.text, c);
    Nulterminate(c, buf);
    forall x | WordOf(c, x)
      ensures x.q < x.eq < buf.Length && buf[x.eq] == '\0' && buf[x.q..x.eq] == old(buf[x.q..x.eq])
        && forall i :: x.q <= i < x.eq ==> buf[i] != '\0'
    {
      assert WordAt(ps.text, x);
    }
  }

  lemma {:induction false} AtEnd(text: string, s: nat)
    requires s <= |text| && NoNul(text) && Skip(text, s) == s
    ensures s == |text| <==> Lex(text, s) == []
  {
  }
}
