/** grep.c: the matcher for ^ . * $ patterns against a denotational semantics, and the line
    loop against the lines of its whole input. */
module Grep {
  // ----- what a pattern means -----

  /** One character of text, or any number; '.' stands for any character. */
  datatype Item = One(c: char) | Star(c: char)

  datatype Pattern = Pattern(items: seq<Item>, atEnd: bool)

  predicate CharOk(c: char, x: char) { c == '.' || c == x }

  ghost predicate PieceOk(it: Item, w: string) {
    match it
    case One(c) => |w| == 1 && CharOk(c, w[0])
    case Star(c) => forall k :: 0 <= k < |w| ==> CharOk(c, w[k])
  }

  ghost function Join(pieces: seq<string>): string {
    if pieces == [] then "" else pieces[0] + Join(pieces[1..])
  }

  ghost predicate Splits(items: seq<Item>, s: string, pieces: seq<string>) {
    && |pieces| == |items| && Join(pieces) == s
    && forall i :: 0 <= i < |items| ==> PieceOk(items[i], pieces[i])
  }

  /** s is in the language of the items: it cuts into one piece for each. */
  ghost predicate Denotes(items: seq<Item>, s: string) { exists pieces :: Splits(items, s, pieces) }

  /** Some prefix of text is in the language; all of it, if the pattern ends in $. */
  ghost predicate MatchesPrefix(p: Pattern, text: string) {
    exists j :: 0 <= j <= |text| && (p.atEnd ==> j == |text|) && Denotes(p.items, text[..j])
  }

  /** How grep reads a pattern after any leading ^: c* is tried before a final $. */
  function Parse(re: string): Pattern {
    if re == "" then Pattern([], false)
    else if |re| >= 2 && re[1] == '*' then var p := Parse(re[2..]); p.(items := [Star(re[0])] + p.items)
    else if re == "$" then Pattern([], true)
    else var p := Parse(re[1..]); p.(items := [One(re[0])] + p.items)
  }

  /** Some substring of text is in the language of re, at the start after ^, at the end
      before $. */
  ghost predicate Matches(re: string, text: string) {
    if re != "" && re[0] == '^' then MatchesPrefix(Parse(re[1..]), text)
    else exists i :: 0 <= i <= |text| && MatchesPrefix(Parse(re), text[i..])
  }

  // ----- the semantics unfolded from the left -----

  lemma {:induction false} DenotesEmpty(s: string)
    ensures Denotes([], s) <==> s == ""
  {
    if s == "" { assert Splits([], s, []); }
  }

  lemma {:induction false} DenotesCons(it: Item, rest: seq<Item>, s: string)
    ensures Denotes([it] + rest, s) <==> exists k :: 0 <= k <= |s| && PieceOk(it, s[..k]) && Denotes(rest, s[k..])
  {
    var items := [it] + rest;
    if Denotes(items, s) {
      var pieces :| Splits(items, s, pieces);
      var k := |pieces[0]|;
      assert s[..k] == pieces[0] && s[k..] == Join(pieces[1..]);
      assert PieceOk(items[0], pieces[0]);
      assert Splits(rest, s[k..], pieces[1..]) by {
        forall i | 0 <= i < |rest| ensures PieceOk(rest[i], pieces[1..][i]) {
          assert PieceOk(items[i + 1], pieces[i + 1]);
        }
      }
    }
    if k :| 0 <= k <= |s| && PieceOk(it, s[..k]) && Denotes(rest, s[k..]) {
      var tail :| Splits(rest, s[k..], tail);
      var pieces := [s[..k]] + tail;
      assert pieces[1..] == tail && s[..k] + s[k..] == s;
      assert Splits(items, s, pieces);
    }
  }

  lemma {:induction false} PrefixNil(atEnd: bool, text: string)
    ensures MatchesPrefix(Pattern([], atEnd), text) <==> (atEnd ==> text == "")
  {
    DenotesEmpty(text[..0]);
    forall j | 0 <= j <= |text| ensures Denotes([], text[..j]) <==> j == 0 { DenotesEmpty(text[..j]); }
    if atEnd ==> text == "" { assert Denotes([], text[..0]); }
  }

  /** Matching an item and then the rest: k characters go to the item. */
  ghost predicate After(it: Item, p: Pattern, text: string, k: nat) {
    k <= |text| && PieceOk(it, text[..k]) && MatchesPrefix(p, text[k..])
  }

  ghost predicate AfterSome(it: Item, p: Pattern, text: string) { exists k :: After(it, p, text, k) }

  lemma {:induction false} PrefixConsOnly(it: Item, p: Pattern, text: string)
    requires MatchesPrefix(p.(items := [it] + p.items), text)
    ensures AfterSome(it, p, text)
  {
    hide Denotes, PieceOk;
    var j :| 0 <= j <= |text| && (p.atEnd ==> j == |text|) && Denotes([it] + p.items, text[..j]);
    DenotesCons(it, p.items, text[..j]);
    var k :| 0 <= k <= j && PieceOk(it, text[..j][..k]) && Denotes(p.items, text[..j][k..]);
    assert text[..j][..k] == text[..k] && text[..j][k..] == text[k..][..j - k];
    assert After(it, p, text, k);
  }

  lemma {:induction false} PrefixConsIf(it: Item, p: Pattern, text: string, k: nat)
    requires After(it, p, text, k)
    ensures MatchesPrefix(p.(items := [it] + p.items), text)
  {
    hide Denotes, PieceOk;
    var i :| 0 <= i <= |text[k..]| && (p.atEnd ==> i == |text[k..]|) && Denotes(p.items, text[k..][..i]);
    var j := k + i;
    assert text[..j][..k] == text[..k] && text[..j][k..] == text[k..][..i];
    DenotesCons(it, p.items, text[..j]);
  }

  lemma {:induction false} PrefixCons(it: Item, p: Pattern, text: string)
    ensures MatchesPrefix(p.(items := [it] + p.items), text) <==> AfterSome(it, p, text)
  {
    hide MatchesPrefix, After;
    if MatchesPrefix(p.(items := [it] + p.items), text) { PrefixConsOnly(it, p, text); }
    if k: nat :| After(it, p, text, k) { PrefixConsIf(it, p, text, k); }
  }

  // ----- the matcher -----

  /** matchhere. */
  method MatchHere(re: string, text: string) returns (r: bool)
    ensures r <==> MatchesPrefix(Parse(re), text)
    decreases |re|, 0
  {
    if re == "" {
      PrefixNil(false, text);
      return true;
    }
    if |re| >= 2 && re[1] == '*' {
      PrefixCons(Star(re[0]), Parse(re[2..]), text);
      r := MatchStar(re[0], re[2..], text);
      return;
    }
    if re == "$" {
      PrefixNil(true, text);
      return text == "";
    }
    PrefixCons(One(re[0]), Parse(re[1..]), text);
    if text != "" && CharOk(re[0], text[0]) {
      r := MatchHere(re[1..], text[1..]);
      assert text[..1][0] == text[0];
      if r { assert After(One(re[0]), Parse(re[1..]), text, 1); }
    } else {
      r := false;
    }
  }

  /** matchstar. */
  method MatchStar(c: char, re: string, text: string) returns (r: bool)
    ensures r <==> AfterSome(Star(c), Parse(re), text)
    decreases |re|, 1
  {
    var t := 0;
    while true
      invariant 0 <= t <= |text| && PieceOk(Star(c), text[..t])
      invariant forall k :: 0 <= k < t ==> !After(Star(c), Parse(re), text, k)
      decreases |text| - t
    {
      var here := MatchHere(re, text[t..]);
      if here {
        assert After(Star(c), Parse(re), text, t);
        return true;
      }
      if t == |text| || !CharOk(c, text[t]) {
        forall k | t < k <= |text| ensures !PieceOk(Star(c), text[..k]) {
          assert text[..k][t] == text[t];
        }
        return false;
      }
      assert text[..t + 1] == text[..t] + [text[t]];
      t := t + 1;
    }
  }

  /** match. */
  method Match(re: string, text: string) returns (r: bool)
    ensures r <==> Matches(re, text)
  {
    if re != "" && re[0] == '^' {
      r := MatchHere(re[1..], text);
      return;
    }
    var t := 0;
    while true
      invariant 0 <= t <= |text|
      invariant forall i :: 0 <= i < t ==> !MatchesPrefix(Parse(re), text[i..])
      decreases |text| - t
    {
      var here := MatchHere(re, text[t..]);
      if here { return true; }
      if t == |text| { return false; }
      t := t + 1;
    }
  }

  // ----- lines -----

  /** Position of the first newline, or the length if there is none. */
  function NewlineAt(b: string): (i: nat)
    ensures i <= |b| && (i < |b| ==> b[i] == '\n') && forall k :: 0 <= k < i ==> b[k] != '\n'
  {
    if b == "" || b[0] == '\n' then 0 else 1 + NewlineAt(b[1..])
  }

  predicate HasNewline(b: string) { NewlineAt(b) < |b| }

  /** What grep is for: the complete lines of b that match re, newlines included. */
  ghost function MatchingLines(re: string, b: string): string
    decreases |b|
  {
    if !HasNewline(b) then ""
    else
      var n := NewlineAt(b);
      (if Matches(re, b[..n]) then b[..n + 1] else "") + MatchingLines(re, b[n + 1..])
  }

  /** What follows the last newline of b. */
  function Leftover(b: string): (r: string)
    ensures |r| <= |b|
    decreases |b|
  {
    if HasNewline(b) then Leftover(b[NewlineAt(b) + 1..]) else b
  }

  // ----- the line loop -----

  /** Where strchr(b, '\n') stops: the first newline or NUL, or the length. */
  function StopAt(b: string): (i: nat)
    ensures i <= |b| && (i < |b| ==> b[i] == '\n' || b[i] == '\0')
    ensures forall k :: 0 <= k < i ==> b[k] != '\n' && b[k] != '\0'
  {
    if b == "" || b[0] == '\n' || b[0] == '\0' then 0 else 1 + StopAt(b[1..])
  }

  /** strchr(b, '\n') != 0. */
  predicate Finds(b: string) { StopAt(b) < |b| && b[StopAt(b)] == '\n' }

  /** What the inner loop prints of a buffer, and what it leaves in it. */
  ghost function Shown(re: string, b: string): string
    decreases |b|
  {
    if !Finds(b) then ""
    else
      var n := StopAt(b);
      (if Matches(re, b[..n]) then b[..n + 1] else "") + Shown(re, b[n + 1..])
  }

  function Left(b: string): (r: string)
    ensures |r| <= |b|
    decreases |b|
  {
    if Finds(b) then Left(b[StopAt(b) + 1..]) else b
  }

  /** What the loop prints when the reads return these chunks and buf already holds b: a
      buffer in which strchr finds no newline is thrown away. */
  ghost function Printed(re: string, b: string, chunks: seq<string>): string
    decreases |chunks|
  {
    if chunks == [] then ""
    else
      var b' := b + chunks[0];
      Shown(re, b') + Printed(re, if Finds(b') then Left(b') else "", chunks[1..])
  }

  /** The inner loop of grep(): print the matching lines of the buffer. */
  method PrintLines(re: string, b: string) returns (out: string, rest: string)
    ensures out == Shown(re, b) && rest == Left(b)
  {
    hide Matches, Shown, Left;
    out := "";
    var p := 0;
    while Finds(b[p..])
      invariant 0 <= p <= |b|
      invariant Shown(re, b) == out + Shown(re, b[p..]) && Left(b) == Left(b[p..])
      decreases |b| - p
    {
      var line := b[p..];
      var q := StopAt(line);
      var m := Match(re, line[..q]);
      FirstShown(re, line);
      assert line[q + 1..] == b[p + q + 1..];
      if m { out := out + line[..q + 1]; }
      p := p + q + 1;
    }
    rest := b[p..];
    NoneShown(re, rest);
  }

  lemma {:induction false} FirstShown(re: string, b: string)
    requires Finds(b)
    ensures var n := StopAt(b);
      && Shown(re, b) == (if Matches(re, b[..n]) then b[..n + 1] else "") + Shown(re, b[n + 1..])
      && Left(b) == Left(b[n + 1..])
  {
    hide Matches;
  }

  lemma {:induction false} NoneShown(re: string, b: string)
    requires !Finds(b)
    ensures Shown(re, b) == "" && Left(b) == b
  {
  }

  lemma {:induction false} PrintedStep(re: string, b: string, chunk: string, rest: seq<string>)
    ensures var b' := b + chunk;
      Printed(re, b, [chunk] + rest) == Shown(re, b') + Printed(re, if Finds(b') then Left(b') else "", rest)
  {
    hide Shown, Left, Finds;
    assert ([chunk] + rest)[1..] == rest;
  }

  /** grep(). */
  method Grep(re: string, chunks: seq<string>) returns (out: string)
    ensures out == Printed(re, "", chunks)
  {
    hide Shown, Left, Finds, Printed;
    out := "";
    var buf := "";
    var i := 0;
    assert chunks[i..] == chunks;
    while i < |chunks|
      invariant 0 <= i <= |chunks|
      invariant Printed(re, "", chunks) == out + Printed(re, buf, chunks[i..])
    {
      var b := buf + chunks[i];
      assert chunks[i..] == [chunks[i]] + chunks[i + 1..];
      PrintedStep(re, buf, chunks[i], chunks[i + 1..]);
      var more, rest := PrintLines(re, b);
      out := out + more;
      buf := if Finds(b) then rest else "";
      i := i + 1;
    }
    assert chunks[i..] == [];
    NothingPrinted(re, buf);
  }

  lemma {:induction false} NothingPrinted(re: string, b: string)
    ensures Printed(re, b, []) == ""
  {
  }

  // ----- when grep does what it is for -----

  ghost function Concat(chunks: seq<string>): string {
    if chunks == [] then "" else chunks[0] + Concat(chunks[1..])
  }

  /** Every chunk that comes before a chunk with a newline has one itself. */
  predicate NoGap(chunks: seq<string>) {
    forall i, j :: 0 <= i < j < |chunks| && HasNewline(chunks[j]) ==> HasNewline(chunks[i])
  }

  /** No NUL before the last newline. */
  predicate Plain(b: string) { forall i, j :: 0 <= i < j < |b| && b[j] == '\n' ==> b[i] != '\0' }

  lemma {:induction false} NewlineIn(b: string)
    ensures HasNewline(b) <==> '\n' in b
    ensures Finds(b) ==> HasNewline(b) && StopAt(b) == NewlineAt(b)
    ensures Plain(b) && HasNewline(b) ==> Finds(b)
  {
    if '\n' in b {
      var j :| 0 <= j < |b| && b[j] == '\n';
      assert NewlineAt(b) <= j;
      assert StopAt(b) <= j;
    }
    if HasNewline(b) { assert b[NewlineAt(b)] == '\n'; }
  }

  lemma {:induction false} FirstLine(re: string, b: string)
    requires HasNewline(b)
    ensures var n := NewlineAt(b);
      && MatchingLines(re, b) == (if Matches(re, b[..n]) then b[..n + 1] else "") + MatchingLines(re, b[n + 1..])
      && Leftover(b) == Leftover(b[n + 1..])
  {
    hide Matches;
  }

  lemma {:induction false} LastLine(re: string, b: string)
    requires !HasNewline(b)
    ensures MatchingLines(re, b) == "" && Leftover(b) == b
  {
  }

  lemma {:induction false} PlainPart(a: string, b: string)
    requires Plain(a + b)
    ensures Plain(a) && Plain(b)
  {
    var w := a + b;
    forall i, j | 0 <= i < j < |a| && a[j] == '\n' ensures a[i] != '\0' { assert w[i] == a[i] && w[j] == a[j]; }
    forall i, j | 0 <= i < j < |b| && b[j] == '\n' ensures b[i] != '\0' {
      assert w[|a| + i] == b[i] && w[|a| + j] == b[j];
    }
  }

  lemma {:induction false} LeftoverSuffix(b: string)
    ensures Leftover(b) == b[|b| - |Leftover(b)|..] && !HasNewline(Leftover(b))
    decreases |b|
  {
    if HasNewline(b) {
      var n := NewlineAt(b) + 1;
      LeftoverSuffix(b[n..]);
      assert b[n..][|b[n..]| - |Leftover(b)|..] == b[|b| - |Leftover(b)|..];
    }
  }

  lemma {:induction false} LeftSuffix(b: string)
    ensures Left(b) == b[|b| - |Left(b)|..] && !Finds(Left(b))
    decreases |b|
  {
    if Finds(b) {
      var n := StopAt(b) + 1;
      LeftSuffix(b[n..]);
      assert b[n..][|b[n..]| - |Left(b)|..] == b[|b| - |Left(b)|..];
    }
  }

  /** Of a plain buffer the inner loop prints the matching lines. */
  lemma {:induction false} PlainShown(re: string, b: string)
    requires Plain(b)
    ensures Shown(re, b) == MatchingLines(re, b) && Left(b) == Leftover(b)
    decreases |b|
  {
    hide Matches, Shown, Left, MatchingLines, Leftover, Finds, HasNewline;
    NewlineIn(b);
    if HasNewline(b) {
      var n := NewlineAt(b);
      InRangeLine(b);
      assert b == b[..n + 1] + b[n + 1..];
      PlainPart(b[..n + 1], b[n + 1..]);
      FirstLine(re, b);
      FirstShown(re, b);
      PlainShown(re, b[n + 1..]);
    } else {
      LastLine(re, b);
      NoneShown(re, b);
    }
  }

  lemma {:induction false} InRangeLine(b: string)
    requires HasNewline(b)
    ensures NewlineAt(b) < |b|
  {
  }

  lemma {:induction false} FirstNewline(b: string, more: string)
    requires HasNewline(b)
    ensures HasNewline(b + more) && NewlineAt(b + more) == NewlineAt(b)
  {
    if b[0] != '\n' {
      assert (b + more)[1..] == b[1..] + more;
      FirstNewline(b[1..], more);
    }
  }

  lemma {:induction false} LinesOfConcat(re: string, b: string, more: string)
    ensures MatchingLines(re, b + more) == MatchingLines(re, b) + MatchingLines(re, Leftover(b) + more)
    decreases |b|
  {
    hide Matches, MatchingLines, Leftover;
    if HasNewline(b) {
      var n, w := NewlineAt(b), b + more;
      FirstNewline(b, more);
      assert w[..n] == b[..n] && w[..n + 1] == b[..n + 1] && w[n + 1..] == b[n + 1..] + more;
      FirstLine(re, b);
      FirstLine(re, w);
      LinesOfConcat(re, b[n + 1..], more);
    } else {
      LastLine(re, b);
    }
  }

  lemma {:induction false} BothNone(b: string, c: string)
    ensures HasNewline(b + c) <==> HasNewline(b) || HasNewline(c)
  {
    hide HasNewline;
    NewlineIn(b);
    NewlineIn(c);
    NewlineIn(b + c);
  }

  /** With no newline in sight nothing is printed, and nothing is to be. */
  lemma {:induction false} NoNewlines(re: string, b: string, chunks: seq<string>)
    requires !HasNewline(b) && forall i :: 0 <= i < |chunks| ==> !HasNewline(chunks[i])
    ensures !HasNewline(b + Concat(chunks)) && Printed(re, b, chunks) == ""
    decreases |chunks|
  {
    hide HasNewline, Finds, Shown, Left;
    if chunks == [] {
      assert b + Concat(chunks) == b;
    } else {
      assert !HasNewline(chunks[0]) && forall i :: 0 <= i < |chunks[1..]| ==> chunks[1..][i] == chunks[i + 1];
      NewlineIn("");
      BothNone(b, chunks[0]);
      NewlineIn(b + chunks[0]);
      NoneShown(re, b + chunks[0]);
      NoNewlines(re, b + chunks[0], chunks[1..]);
      NoNewlines(re, "", chunks[1..]);
      assert b + Concat(chunks) == (b + chunks[0]) + Concat(chunks[1..]);
    }
  }

  /** If no read without a newline comes before one with a newline, and no NUL before the last
      newline, grep prints exactly the matching lines of its whole input. */
  lemma {:induction false} PrintsAllLines(re: string, b: string, chunks: seq<string>)
    requires NoGap(chunks) && !HasNewline(b) && Plain(b + Concat(chunks))
    ensures Printed(re, b, chunks) == MatchingLines(re, b + Concat(chunks))
    decreases |chunks|
  {
    hide Finds, HasNewline, Shown, Left, Leftover, MatchingLines, Plain;
    if chunks == [] {
      assert b + Concat(chunks) == b;
      LastLine(re, b);
    } else {
      var b', rest := b + chunks[0], Concat(chunks[1..]);
      assert b + Concat(chunks) == b' + rest;
      BothNone(b, chunks[0]);
      PlainPart(b', rest);
      NewlineIn(b');
      PlainShown(re, b');
      LinesOfConcat(re, b', rest);
      if HasNewline(b') {
        LeftoverSuffix(b');
        var l := Leftover(b');
        assert b' + rest == b'[..|b'| - |l|] + (l + rest);
        PlainPart(b'[..|b'| - |l|], l + rest);
        forall i, j | 0 <= i < j < |chunks[1..]| && HasNewline(chunks[1..][j]) ensures HasNewline(chunks[1..][i]) {
          assert chunks[1..][i] == chunks[i + 1] && chunks[1..][j] == chunks[j + 1];
        }
        PrintsAllLines(re, l, chunks[1..]);
      } else {
        NoNewlines(re, b, chunks);
        LastLine(re, b' + rest);
      }
    }
  }

  // ----- and only then -----

  lemma {:induction false} EmptyMatches(text: string)
    ensures Matches("", text)
  {
    PrefixNil(false, text[0..]);
    assert MatchesPrefix(Parse(""), text[0..]);
  }

  /** With the empty pattern every complete line counts. */
  lemma {:induction false} AllComplete(b: string)
    ensures |MatchingLines("", b)| == |b| - |Leftover(b)|
    decreases |b|
  {
    hide Matches;
    if HasNewline(b) {
      EmptyMatches(b[..NewlineAt(b)]);
      AllComplete(b[NewlineAt(b) + 1..]);
    }
  }

  /** The length of the complete lines of b. */
  ghost function Complete(b: string): nat { |b| - |Leftover(b)| }

  lemma {:induction false} CompleteSome(b: string)
    ensures Complete(b) > 0 <==> HasNewline(b)
  {
  }

  /** Complete lines in front add up. */
  lemma {:induction false} CompleteAfter(b: string, more: string)
    ensures HasNewline(more) ==> Complete(b + more) == |b| + Complete(more)
    ensures Complete(b + more) >= Complete(more)
    decreases |b|
  {
    BothNone(b, more);
    if HasNewline(b) {
      var n := NewlineAt(b);
      FirstNewline(b, more);
      assert (b + more)[n + 1..] == b[n + 1..] + more;
      CompleteAfter(b[n + 1..], more);
    } else if HasNewline(more) {
      var n, w := NewlineAt(more), b + more;
      var m := NewlineAt(w);
      assert w[|b| + n] == '\n' && m >= |b| && w[m] == more[m - |b|];
      assert w[m + 1..] == more[n + 1..];
    } else {
      LastLine("", b + more);
    }
  }

  /** With the empty pattern the inner loop prints all it takes out of the buffer, and that is
      complete lines without NUL. */
  lemma {:induction false} EmptyShown(b: string, more: string)
    ensures |Shown("", b)| == |b| - |Left(b)| && Complete(b + more) == |b| - |Left(b)| + Complete(Left(b) + more)
    ensures forall i :: 0 <= i < |b| - |Left(b)| ==> b[i] != '\0'
    decreases |b|
  {
    hide Matches, Shown, Left, Complete;
    if Finds(b) {
      var n := StopAt(b);
      NewlineIn(b);
      FirstShown("", b);
      EmptyMatches(b[..n]);
      EmptyShown(b[n + 1..], more);
      FirstNewline(b, more);
      CompleteStep(b + more);
      assert (b + more)[n + 1..] == b[n + 1..] + more;
      forall i | 0 <= i < |b| - |Left(b)| ensures b[i] != '\0' {
        if i > n { assert b[i] == b[n + 1..][i - n - 1]; }
      }
    } else {
      NoneShown("", b);
    }
  }

  lemma {:induction false} CompleteStep(b: string)
    requires HasNewline(b)
    ensures Complete(b) == NewlineAt(b) + 1 + Complete(b[NewlineAt(b) + 1..])
  {
  }

  lemma {:induction false} SomeChunkHas(chunks: seq<string>, j: nat)
    requires j < |chunks| && HasNewline(chunks[j])
    ensures HasNewline(Concat(chunks))
    decreases |chunks|
  {
    BothNone(chunks[0], Concat(chunks[1..]));
    if j > 0 { SomeChunkHas(chunks[1..], j - 1); }
  }

  lemma {:induction false} StopConcat(b: string, c: string)
    ensures StopAt(b + c) == if StopAt(b) < |b| then StopAt(b) else |b| + StopAt(c)
  {
    if b == "" {
      assert b + c == c;
    } else {
      assert (b + c)[1..] == b[1..] + c;
      StopConcat(b[1..], c);
    }
  }

  /** A newline that strchr finds first in the new chunk is in that chunk. */
  lemma {:induction false} FoundInChunk(b: string, c: string)
    requires !Finds(b) && Finds(b + c)
    ensures HasNewline(c)
  {
    StopConcat(b, c);
    NewlineIn(c);
  }

  /** A NUL before a newline is still there when NUL-free lines are taken off the front. */
  lemma {:induction false} StillNul(a: string, l: string)
    requires !Plain(a + l) && forall i :: 0 <= i < |a| ==> a[i] != '\0'
    ensures !Plain(l)
  {
    var w := a + l;
    var i, j :| 0 <= i < j < |w| && w[j] == '\n' && w[i] == '\0';
    assert w[i] == l[i - |a|] && w[j] == l[j - |a|];
  }

  /** A read without a newline before one with a newline, or a NUL before a newline, costs
      output even with the empty pattern, which matches every line. */
  lemma {:induction false} GapsLose(b: string, chunks: seq<string>)
    requires !Finds(b) && forall i :: 0 <= i < |chunks| ==> chunks[i] != ""
    ensures |Printed("", b, chunks)| <= Complete(b + Concat(chunks))
    ensures !NoGap(chunks) || !Plain(b + Concat(chunks)) ==> |Printed("", b, chunks)| < Complete(b + Concat(chunks))
    decreases |chunks|
  {
    hide Shown, Left, Finds, HasNewline, Complete;
    if chunks == [] {
      assert b + Concat(chunks) == b;
      CompleteSome(b);
      NewlineIn(b);
    } else {
      var b', rest := b + chunks[0], Concat(chunks[1..]);
      assert b + Concat(chunks) == b' + rest;
      EmptyShown(b', rest);
      if Finds(b') {
        var l := Left(b');
        LeftSuffix(b');
        GapsLose(l, chunks[1..]);
        FoundInChunk(b, chunks[0]);
        if !NoGap(chunks) { GapLater(chunks); }
        if !Plain(b' + rest) {
          assert b' + rest == b'[..|b'| - |l|] + (l + rest);
          StillNul(b'[..|b'| - |l|], l + rest);
        }
      } else {
        NoneShown("", b');
        FindsNothing();
        GapsLose("", chunks[1..]);
        assert "" + rest == rest;
        CompleteAfter(b', rest);
        if !NoGap(chunks) { GapAhead(chunks); }
        if !Plain(b' + rest) { NewlineIn(b' + rest); }
        CompleteSome(rest);
        CompleteSome(b' + rest);
      }
    }
  }

  lemma {:induction false} FindsNothing()
    ensures !Finds("")
  {
  }

  lemma {:induction false} GapLater(chunks: seq<string>)
    requires !NoGap(chunks) && chunks != [] && HasNewline(chunks[0])
    ensures !NoGap(chunks[1..])
  {
    var i, j :| 0 <= i < j < |chunks| && HasNewline(chunks[j]) && !HasNewline(chunks[i]);
    assert chunks[1..][i - 1] == chunks[i] && chunks[1..][j - 1] == chunks[j];
  }

  lemma {:induction false} GapAhead(chunks: seq<string>)
    requires !NoGap(chunks) && chunks != []
    ensures HasNewline(Concat(chunks[1..]))
  {
    var i, j :| 0 <= i < j < |chunks| && HasNewline(chunks[j]) && !HasNewline(chunks[i]);
    assert chunks[1..][j - 1] == chunks[j];
    SomeChunkHas(chunks[1..], j - 1);
  }

  lemma {:induction false} StopsAtNul(line: string)
    requires '\0' in line && '\n' !in line
    ensures !Finds(line + "\n")
  {
    var i :| 0 <= i < |line| && line[i] == '\0';
    assert StopAt(line) <= i && line[StopAt(line)] in line;
    StopConcat(line, "\n");
  }

  lemma {:induction false} OneLine(line: string)
    requires '\n' !in line
    ensures MatchingLines("", line + "\n") == line + "\n"
  {
    hide MatchingLines, Matches;
    var b, n := line + "\n", |line|;
    assert b[n] == '\n' && forall k :: 0 <= k < n ==> b[k] == line[k];
    assert NewlineAt(b) == n;
    FirstLine("", b);
    EmptyMatches(b[..n]);
    assert b[n + 1..] == "" && b[..n + 1] == b;
    LastLine("", "");
  }

  /** One read of a line with a NUL in it meets NoGap, and the line is lost. */
  lemma {:induction false} NulLosesLine(line: string)
    requires '\0' in line && '\n' !in line
    ensures NoGap([line + "\n"]) && Printed("", "", [line + "\n"]) == ""
    ensures MatchingLines("", line + "\n") == line + "\n"
  {
    hide MatchingLines, Shown, Left, Finds;
    var b := line + "\n";
    var cs: seq<string> := [b];
    StopsAtNul(line);
    assert "" + b == b && cs[1..] == [];
    NoneShown("", b);
    OneLine(line);
  }

  /** grep prints exactly the matching lines of its input, whatever the pattern, if and only
      if no read without a newline comes before a read with one, and no NUL comes before the
      last newline: such a read is dropped, and strchr does not see past a NUL. */
  lemma {:induction false} GrepExact(chunks: seq<string>)
    requires forall i :: 0 <= i < |chunks| ==> chunks[i] != ""
    ensures NoGap(chunks) && Plain(Concat(chunks)) <==>
      forall re :: Printed(re, "", chunks) == MatchingLines(re, Concat(chunks))
  {
    hide Finds, HasNewline, MatchingLines;
    assert "" + Concat(chunks) == Concat(chunks);
    NewlineIn("");
    FindsNothing();
    if NoGap(chunks) && Plain(Concat(chunks)) {
      forall re ensures Printed(re, "", chunks) == MatchingLines(re, Concat(chunks)) { PrintsAllLines(re, "", chunks); }
    } else {
      GapsLose("", chunks);
      AllComplete(Concat(chunks));
      assert Printed("", "", chunks) != MatchingLines("", Concat(chunks));
    }
  }
}
