/** Blanking of Nix comments and indented strings before structural checks. */
module NixLexer {
  import opened Wrappers

  datatype Mode = Code | Line | Block(depth: nat) | Double | Indented

  /** What one step writes, which is as long as what it reads, and the mode after it. */
  datatype Chunk = Chunk(out: string, mode: Mode)

  predicate StartsWith(text: string, pair: string) {
    pair <= text
  }

  function Blank(c: char): char {
    if c == '\n' then '\n' else ' '
  }

  function Next(text: string, mode: Mode): (c: Chunk)
    requires text != ""
    ensures 1 <= |c.out| <= |text|
  {
    match mode
    case Line => if text[0] == '\n' then Chunk("\n", Code) else Chunk(" ", Line)
    case Block(depth) =>
      if StartsWith(text, "/*") then Chunk("  ", Block(depth + 1))
      else if StartsWith(text, "*/") then Chunk("  ", if depth <= 1 then Code else Block(depth - 1))
      else Chunk([Blank(text[0])], mode)
    case Double =>
      if text[0] == '\\' && |text| > 1 then Chunk(text[..2], Double)
      else Chunk(text[..1], if text[0] == '"' then Code else Double)
    case Indented =>
      if StartsWith(text, "''") then Chunk("  ", Code) else Chunk([Blank(text[0])], Indented)
    case Code =>
      if text[0] == '#' then Chunk(" ", Line)
      else if StartsWith(text, "/*") then Chunk("  ", Block(1))
      else if StartsWith(text, "''") then Chunk("  ", Indented)
      else Chunk(text[..1], if text[0] == '"' then Double else Code)
  }

  /** The rest of the output and the mode at the end of the text. */
  function Run(text: string, mode: Mode): (r: (string, Mode))
    ensures |r.0| == |text|
    decreases |text|
  {
    if text == "" then ("", mode)
    else
      var c := Next(text, mode);
      var rest := Run(text[|c.out|..], c.mode);
      (c.out + rest.0, rest.1)
  }

  /** The blanked text, or None where the lexer raises for an unterminated comment or string. */
  function Blanked(text: string): Option<string> {
    var r := Run(text, Code);
    if r.1.Code? || r.1.Line? then Some(r.0) else None
  }

  /** The output so far, followed by what the remaining text becomes, is the whole result. */
  ghost predicate Prefix(text: string, output: string, index: nat, mode: Mode)
    requires index <= |text|
  {
    var rest := Run(text[index..], mode);
    Run(text, Code) == (output + rest.0, rest.1)
  }

  lemma PrefixStart(text: string)
    ensures Prefix(text, "", 0, Code)
  {
    assert text[0..] == text;
    assert "" + Run(text, Code).0 == Run(text, Code).0;
  }

  lemma PrefixStep(text: string, output: string, index: nat, mode: Mode)
    requires index < |text| && Prefix(text, output, index, mode)
    ensures var c := Next(text[index..], mode); Prefix(text, output + c.out, index + |c.out|, c.mode)
  {
    hide Next;
    var c := Next(text[index..], mode);
    var rest := Run(text[index + |c.out|..], c.mode).0;
    assert text[index..][|c.out|..] == text[index + |c.out|..];
    assert output + (c.out + rest) == (output + c.out) + rest;
  }

  lemma PrefixEnd(text: string, output: string, mode: Mode)
    requires Prefix(text, output, |text|, mode)
    ensures Run(text, Code) == (output, mode)
  {
    assert text[|text|..] == "";
    assert output + "" == output;
  }

  datatype State = InCode | InLine | InBlock | InDouble | InIndented

  /** The mode that the loop's state and block depth stand for. */
  function View(state: State, depth: nat): Mode {
    match state
    case InCode => Code
    case InLine => Line
    case InBlock => Block(depth)
    case InDouble => Double
    case InIndented => Indented
  }

  /** The two characters at an index, or fewer at the end. */
  function Pair(text: string, index: nat): (pair: string)
    requires index <= |text|
    ensures forall two: string :: |two| == 2 ==> (pair == two <==> StartsWith(text[index..], two))
  {
    var end := if index + 2 <= |text| then index + 2 else |text|;
    assert text[index..end] == text[index..][..end - index];
    text[index..end]
  }

  lemma InsideComment(text: string, index: nat, depth: nat)
    requires index < |text|
    ensures Next(text[index..], Line) == (if text[index] == '\n' then Chunk([text[index]], Code) else Chunk(" ", Line))
    ensures Next(text[index..], Block(depth)) ==
            (if Pair(text, index) == "/*" then Chunk("  ", Block(depth + 1))
             else if Pair(text, index) == "*/" then Chunk("  ", if depth <= 1 then Code else Block(depth - 1))
             else Chunk(if text[index] == '\n' then "\n" else " ", Block(depth)))
  {
    hide Pair;
  }

  lemma InsideString(text: string, index: nat)
    requires index < |text|
    ensures Next(text[index..], Double) ==
            (if text[index] == '\\' && index + 1 < |text| then Chunk([text[index]] + [text[index + 1]], Double)
             else Chunk([text[index]], if text[index] == '"' then Code else Double))
    ensures Next(text[index..], Indented) ==
            (if Pair(text, index) == "''" then Chunk("  ", Code)
             else Chunk(if text[index] == '\n' then "\n" else " ", Indented))
  {
    hide Pair;
  }

  lemma InsideCode(text: string, index: nat)
    requires index < |text|
    ensures Next(text[index..], Code) ==
            (if text[index] == '#' then Chunk(" ", Line)
             else if Pair(text, index) == "/*" then Chunk("  ", Block(1))
             else if Pair(text, index) == "''" then Chunk("  ", Indented)
             else Chunk([text[index]], if text[index] == '"' then Double else Code))
  {
    hide Pair;
  }

  /** Blanks comments and indented strings; None where the source raises for an open one. */
  method NixCode(text: string) returns (result: Option<string>)
    ensures result == Blanked(text)
  {
    hide Run, Prefix, Pair, Next;
    var output: string := "";
    var index: nat, depth: nat, state := 0, 0, InCode;
    PrefixStart(text);
    while index < |text|
      invariant 0 <= index <= |text|
      invariant state == InBlock ==> depth > 0
      invariant Prefix(text, output, index, View(state, depth))
      decreases |text| - index
    {
      ghost var step := Next(text[index..], View(state, depth));
      ghost var written, start := output, index;
      PrefixStep(text, output, index, View(state, depth));
      var pair, first := Pair(text, index), text[index];
      match state {
        case InLine =>
          InsideComment(text, index, depth);
          if first == '\n' {
            output, state := output + [first], InCode;
          } else {
            output := output + " ";
          }
          index := index + 1;
        case InBlock =>
          InsideComment(text, index, depth);
          if pair == "/*" {
            output, depth, index := output + "  ", depth + 1, index + 2;
          } else if pair == "*/" {
            output, depth, index := output + "  ", depth - 1, index + 2;
            if depth == 0 {
              state := InCode;
            }
          } else {
            output, index := output + (if first == '\n' then "\n" else " "), index + 1;
          }
        case InDouble =>
          InsideString(text, index);
          output, index := output + [first], index + 1;
          if first == '\\' && index < |text| {
            output, index := output + [text[index]], index + 1;
            assert output == written + ([first] + [text[start + 1]]);
          } else if first == '"' {
            state := InCode;
          }
        case InIndented =>
          InsideString(text, index);
          if pair == "''" {
            output, index, state := output + "  ", index + 2, InCode;
          } else {
            output, index := output + (if first == '\n' then "\n" else " "), index + 1;
          }
        case InCode =>
          InsideCode(text, index);
          if first == '#' {
            output, index, state := output + " ", index + 1, InLine;
          } else if pair == "/*" {
            output, index, depth, state := output + "  ", index + 2, 1, InBlock;
          } else if pair == "''" {
            output, index, state := output + "  ", index + 2, InIndented;
          } else {
            output, index := output + [first], index + 1;
            if first == '"' {
              state := InDouble;
            }
          }
      }
      assert index == start + |step.out| && output == written + step.out && View(state, depth) == step.mode;
    }
    PrefixEnd(text, output, View(state, depth));
    if state == InBlock || state == InDouble || state == InIndented {
      result := None;
    } else {
      result := Some(output);
    }
  }

  // ----- what survives -----

  predicate KeptOrBlank(before: char, after: char) {
    (after == before || after == ' ') && (after == '\n' <==> before == '\n')
  }

  lemma NextKeepsOrBlanks(text: string, mode: Mode, i: nat)
    requires text != "" && i < |Next(text, mode).out|
    ensures KeptOrBlank(text[i], Next(text, mode).out[i])
  {}

  lemma {:induction false} RunKeepsOrBlanks(text: string, mode: Mode, i: nat)
    requires i < |text|
    ensures KeptOrBlank(text[i], Run(text, mode).0[i])
    decreases |text|
  {
    var c := Next(text, mode);
    if i < |c.out| {
      NextKeepsOrBlanks(text, mode, i);
    } else {
      RunKeepsOrBlanks(text[|c.out|..], c.mode, i - |c.out|);
    }
  }

  /** Same length; every character stays or becomes a space; newlines stay exactly where they were. */
  lemma LayoutPreserved(text: string, i: nat)
    requires Blanked(text).Some?
    ensures |Blanked(text).value| == |text|
    ensures i < |text| ==> KeptOrBlank(text[i], Blanked(text).value[i])
  {
    if i < |text| {
      RunKeepsOrBlanks(text, Code, i);
    }
  }

  // ----- what each construct becomes -----

  /** In `mode`, before `post`, the text is written as `out` and leaves the lexer in mode `after`. */
  ghost predicate Reads(text: string, mode: Mode, post: string, out: string, after: Mode) {
    Run(text + post, mode) == (out + Run(post, after).0, Run(post, after).1)
  }

  lemma ReadsNothing(mode: Mode, post: string)
    ensures Reads("", mode, post, "", mode)
  {
    assert "" + post == post && "" + Run(post, mode).0 == Run(post, mode).0;
  }

  lemma ReadsOne(text: string, mode: Mode, post: string)
    requires text != "" && |Next(text + post, mode).out| == |text|
    ensures var c := Next(text + post, mode); Reads(text, mode, post, c.out, c.mode)
  {
    hide Next;
    assert (text + post)[|text|..] == post;
  }

  lemma ReadsBoth(a: string, b: string, mode: Mode, post: string, outA: string, outB: string, mid: Mode, after: Mode)
    requires Reads(a, mode, b + post, outA, mid) && Reads(b, mid, post, outB, after)
    ensures Reads(a + b, mode, post, outA + outB, after)
  {
    hide Next;
    assert (a + b) + post == a + (b + post);
    assert (outA + outB) + Run(post, after).0 == outA + (outB + Run(post, after).0);
  }

  /** The text with every character but newlines made a space. */
  function Blanks(s: string): (r: string)
    ensures |r| == |s|
  {
    seq(|s|, i requires 0 <= i < |s| => Blank(s[i]))
  }

  lemma BlanksConcat(a: string, b: string)
    ensures Blanks(a + b) == Blanks(a) + Blanks(b)
  {
  }

  /** A comment body without a newline is blanked up to the end of its line. */
  lemma {:induction false} LineBody(body: string, post: string)
    requires '\n' !in body
    ensures Reads(body, Line, post, Blanks(body), Line)
    decreases |body|
  {
    hide Reads, Run;
    if body == "" {
      ReadsNothing(Line, post);
      assert Blanks(body) == "";
    } else {
      var head, tail := body[..1], body[1..];
      assert body == head + tail;
      ReadsOne(head, Line, tail + post);
      assert Blanks(head) == " ";
      LineBody(tail, post);
      ReadsBoth(head, tail, Line, post, Blanks(head), Blanks(tail), Line, Line);
      BlanksConcat(head, tail);
    }
  }

  /** A line comment is blanked and its newline ends it. */
  lemma LineCommentBlanked(body: string, post: string)
    requires '\n' !in body
    ensures Reads("#" + body + "\n", Code, post, Blanks("#" + body + "\n"), Code)
  {
    hide Reads, Run;
    ReadsOne("#", Code, body + ("\n" + post));
    LineBody(body, "\n" + post);
    ReadsOne("\n", Line, post);
    ReadsBoth("#", body, Code, "\n" + post, " ", Blanks(body), Line, Line);
    ReadsBoth("#" + body, "\n", Code, post, " " + Blanks(body), "\n", Line, Code);
    BlanksConcat("#", body);
    BlanksConcat("#" + body, "\n");
    assert Blanks("#") == " " && Blanks("\n") == "\n";
  }

  /** No position of the body starts a closing mark, not even one that its own last quote would begin. */
  predicate NoClosing(body: string) {
    forall i :: 0 <= i < |body| ==> !StartsWith((body + "''")[i..], "''")
  }

  lemma {:induction false} IndentedBody(body: string, post: string)
    requires NoClosing(body)
    ensures Reads(body, Indented, "''" + post, Blanks(body), Indented)
    decreases |body|
  {
    hide Reads, Run;
    if body == "" {
      ReadsNothing(Indented, "''" + post);
      assert Blanks(body) == "";
    } else {
      var head, tail := body[..1], body[1..];
      assert body == head + tail;
      assert !StartsWith((body + "''")[0..], "''");
      assert (head + (tail + ("''" + post)))[..2] == (body + "''")[..2];
      ReadsOne(head, Indented, tail + ("''" + post));
      assert Blanks(head) == [Blank(head[0])];
      forall i | 0 <= i < |tail| ensures !StartsWith((tail + "''")[i..], "''") {
        assert (tail + "''")[i..] == (body + "''")[i + 1..];
      }
      IndentedBody(tail, post);
      ReadsBoth(head, tail, Indented, "''" + post, Blanks(head), Blanks(tail), Indented, Indented);
      BlanksConcat(head, tail);
    }
  }

  /** An indented string is blanked, marks included, up to the first closing mark. */
  lemma IndentedStringBlanked(body: string, post: string)
    requires NoClosing(body)
    ensures Reads("''" + body + "''", Code, post, Blanks("''" + body + "''"), Code)
  {
    hide Reads, Run;
    ReadsOne("''", Code, body + ("''" + post));
    IndentedBody(body, post);
    ReadsOne("''", Indented, post);
    ReadsBoth("''", body, Code, "''" + post, "  ", Blanks(body), Indented, Indented);
    ReadsBoth("''" + body, "''", Code, post, "  " + Blanks(body), "  ", Indented, Code);
    BlanksConcat("''", body);
    BlanksConcat("''" + body, "''");
    assert Blanks("''") == "  ";
  }

  /** A double-quoted body: escaped pairs and characters other than a quote or a backslash. */
  datatype Quoted = Close | Plain(c: char, tail: Quoted) | Escape(e: char, tail: Quoted)

  function QuotedText(q: Quoted): string {
    match q
    case Close => ""
    case Plain(c, tail) => [c] + QuotedText(tail)
    case Escape(e, tail) => ['\\', e] + QuotedText(tail)
  }

  predicate QuotedOk(q: Quoted) {
    match q
    case Close => true
    case Plain(c, tail) => c != '"' && c != '\\' && QuotedOk(tail)
    case Escape(_, tail) => QuotedOk(tail)
  }

  lemma {:induction false} QuotedBody(q: Quoted, post: string)
    requires QuotedOk(q)
    ensures Reads(QuotedText(q), Double, post, QuotedText(q), Double)
  {
    hide Reads, Run;
    match q
    case Close => ReadsNothing(Double, post);
    case Plain(c, tail) =>
      ReadsOne([c], Double, QuotedText(tail) + post);
      QuotedBody(tail, post);
      ReadsBoth([c], QuotedText(tail), Double, post, [c], QuotedText(tail), Double, Double);
    case Escape(e, tail) =>
      ReadsOne(['\\', e], Double, QuotedText(tail) + post);
      QuotedBody(tail, post);
      ReadsBoth(['\\', e], QuotedText(tail), Double, post, ['\\', e], QuotedText(tail), Double, Double);
  }

  /** A double-quoted string is kept whole: openers inside it mean nothing, an escaped quote does not end it. */
  lemma StringKept(q: Quoted, post: string)
    requires QuotedOk(q)
    ensures Reads("\"" + QuotedText(q) + "\"", Code, post, "\"" + QuotedText(q) + "\"", Code)
  {
    hide Reads, Run;
    ReadsOne("\"", Code, QuotedText(q) + ("\"" + post));
    QuotedBody(q, "\"" + post);
    ReadsOne("\"", Double, post);
    ReadsBoth("\"", QuotedText(q), Code, "\"" + post, "\"", QuotedText(q), Double, Double);
    ReadsBoth("\"" + QuotedText(q), "\"", Code, post, "\"" + QuotedText(q), "\"", Double, Code);
  }

  /** The body of a block comment: characters and whole comments nested inside it. */
  datatype Nest = End | Chr(c: char, tail: Nest) | Sub(inner: Nest, tail: Nest)

  function NestText(n: Nest): string {
    match n
    case End => ""
    case Chr(c, tail) => [c] + NestText(tail)
    case Sub(inner, tail) => "/*" + NestText(inner) + "*/" + NestText(tail)
  }

  /** No character of the body starts an opening or closing mark, the closing mark after the body included. */
  predicate NestOk(n: Nest) {
    match n
    case End => true
    case Chr(c, tail) =>
      var ahead := [c] + NestText(tail) + "*/";
      !StartsWith(ahead, "/*") && !StartsWith(ahead, "*/") && NestOk(tail)
    case Sub(inner, tail) => NestOk(inner) && NestOk(tail)
  }

  lemma {:induction false} NestBody(n: Nest, depth: nat, post: string)
    requires NestOk(n) && depth > 0
    ensures Reads(NestText(n), Block(depth), "*/" + post, Blanks(NestText(n)), Block(depth))
    decreases n
  {
    hide Reads, Run;
    match n
    case End =>
      ReadsNothing(Block(depth), "*/" + post);
      assert Blanks("") == "";
    case Chr(c, tail) =>
      NestChar(c, tail, depth, post);
      NestBody(tail, depth, post);
      ReadsBoth([c], NestText(tail), Block(depth), "*/" + post, [Blank(c)], Blanks(NestText(tail)), Block(depth), Block(depth));
      BlanksConcat([c], NestText(tail));
      assert Blanks([c]) == [Blank(c)];
    case Sub(inner, tail) =>
      var t, rest := NestText(tail), NestText(tail) + ("*/" + post);
      NestBody(inner, depth + 1, rest);
      NestComment(inner, Block(depth), rest);
      NestBody(tail, depth, post);
      var whole := "/*" + NestText(inner) + "*/";
      ReadsBoth(whole, t, Block(depth), "*/" + post, Blanks(whole), Blanks(t), Block(depth), Block(depth));
      BlanksConcat(whole, t);
  }

  lemma NestChar(c: char, tail: Nest, depth: nat, post: string)
    requires NestOk(Chr(c, tail)) && depth > 0
    ensures Reads([c], Block(depth), NestText(tail) + ("*/" + post), [Blank(c)], Block(depth))
  {
    hide Reads, Run;
    var ahead := [c] + NestText(tail) + "*/";
    var full := [c] + (NestText(tail) + ("*/" + post));
    assert full[..2] == ahead[..2];
    ReadsOne([c], Block(depth), NestText(tail) + ("*/" + post));
  }

  /** From code or from inside a comment, a comment around a body that reads as a body ends where it began. */
  lemma NestComment(inner: Nest, outer: Mode, post: string)
    requires outer.Code? || (outer.Block? && outer.depth > 0)
    requires var d := if outer.Code? then 1 else outer.depth + 1;
      Reads(NestText(inner), Block(d), "*/" + post, Blanks(NestText(inner)), Block(d))
    ensures var whole := "/*" + NestText(inner) + "*/"; Reads(whole, outer, post, Blanks(whole), outer)
  {
    hide Reads, Run;
    var d := if outer.Code? then 1 else outer.depth + 1;
    var body := NestText(inner);
    ReadsOne("/*", outer, body + ("*/" + post));
    assert ("*/" + post)[..2] == "*/" && "*/" + post != "" && ("*/" + post)[0] != "/*"[0];
    assert Next("*/" + post, Block(d)) == Chunk("  ", outer);
    ReadsOne("*/", Block(d), post);
    ReadsBoth("/*", body, outer, "*/" + post, "  ", Blanks(body), Block(d), Block(d));
    ReadsBoth("/*" + body, "*/", outer, post, "  " + Blanks(body), "  ", Block(d), outer);
    BlanksConcat("/*", body);
    BlanksConcat("/*" + body, "*/");
    assert Blanks("/*") == "  " && Blanks("*/") == "  ";
  }

  /** A block comment is blanked up to the mark that closes it, comments nested to any depth included. */
  lemma BlockCommentBlanked(body: Nest, post: string)
    requires NestOk(body)
    ensures var whole := "/*" + NestText(body) + "*/"; Reads(whole, Code, post, Blanks(whole), Code)
  {
    NestBody(body, 1, post);
    NestComment(body, Code, post);
  }

  /** Any other character of code is kept. */
  lemma CodeKept(c: char, post: string)
    requires c != '#' && c != '"' && !StartsWith([c] + post, "/*") && !StartsWith([c] + post, "''")
    ensures Reads([c], Code, post, [c], Code)
  {
    hide Reads, Run;
    ReadsOne([c], Code, post);
  }

  // ----- running it again -----

  /** The mode a second run is in where the first was in `mode`. */
  function Second(mode: Mode): Mode {
    if mode.Double? then Double else Code
  }

  lemma BlankInCode(c: char, rest: string)
    requires c == ' ' || c == '\n'
    ensures Reads([c], Code, rest, [c], Code)
  {
    hide Reads;
    assert ([c] + rest)[0] == c;
    CodeKept(c, rest);
  }

  lemma TwoSpacesInCode(rest: string)
    ensures Reads("  ", Code, rest, "  ", Code)
  {
    hide Reads;
    assert " " + " " == "  ";
    BlankInCode(' ', " " + rest);
    BlankInCode(' ', rest);
    ReadsBoth(" ", " ", Code, rest, " ", " ", Code, Code);
  }

  lemma LoneBackslash()
    ensures Run("\\", Double).1.Double?
  {}

  /** What a first run writes in any mode, a second run reads back unchanged. */
  lemma {:induction false} SecondRun(text: string, mode: Mode)
    requires Run(text, mode).1.Code? || Run(text, mode).1.Line?
    ensures Run(Run(text, mode).0, Second(mode)) == (Run(text, mode).0, Code)
    decreases |text|
  {
    hide Next;
    if text != "" {
      var c := Next(text, mode);
      var rest := Run(text[|c.out|..], c.mode).0;
      SecondRun(text[|c.out|..], c.mode);
      assert Run(text, mode).0 == c.out + rest;
      LoneBackslash();
      SecondStep(text, mode, rest);
    }
  }

  /** What a step writes, read again before what a first run writes after it. */
  lemma SecondStep(text: string, mode: Mode, rest: string)
    requires text != ""
    requires mode.Double? ==> text != "\\"
    requires var c := Next(text, mode); rest == Run(text[|c.out|..], c.mode).0
    ensures var c := Next(text, mode); Reads(c.out, Second(mode), rest, c.out, Second(c.mode))
  {
    hide Reads, Run;
    var c := Next(text, mode);
    if mode.Double? {
      ReadsOne(c.out, Double, rest);
    } else if mode.Code? {
      SecondInCode(text, rest);
    } else if |c.out| == 2 {
      TwoSpacesInCode(rest);
    } else {
      BlankInCode(c.out[0], rest);
    }
  }

  /** Code that is kept cannot form a comment or string opener with blanked text after it. */
  lemma SecondInCode(text: string, rest: string)
    requires text != ""
    requires var c := Next(text, Code); rest == Run(text[|c.out|..], c.mode).0
    ensures var c := Next(text, Code); Reads(c.out, Code, rest, c.out, Second(c.mode))
  {
    hide Reads, Run;
    var c := Next(text, Code);
    if |c.out| == 2 {
      TwoSpacesInCode(rest);
    } else if text[0] == '#' {
      BlankInCode(' ', rest);
    } else {
      var again := c.out + rest;
      if |text| > 1 {
        RunKeepsOrBlanks(text[1..], c.mode, 0);
        assert again[1] == text[1] || again[1] == ' ';
      }
      assert Next(again, Code) == c;
      ReadsOne(c.out, Code, rest);
    }
  }

  /** Blanking is idempotent. */
  lemma BlankingTwice(text: string)
    requires Blanked(text).Some?
    ensures Blanked(Blanked(text).value) == Blanked(text)
  {
    hide Run;
    SecondRun(text, Code);
  }

  // ----- whole texts -----

  /** A text is a series of these, followed by how it ends. */
  datatype Piece =
    | Char(c: char)
    | LineComment(line: string)
    | BlockComment(body: Nest)
    | Quote(q: Quoted)
    | Multiline(lines: string)

  /** The body of a block comment that is never closed: `Deeper` is an opening mark without its closing one. */
  datatype Unclosed = Stop | Loose(c: char, tail: Unclosed) | Closed(inner: Nest, tail: Unclosed) | Deeper(tail: Unclosed)

  /** How a text ends: in code, in a line comment, or in a comment or string that is still open. */
  datatype Ending =
    | AtCode
    | AtLine(line: string)
    | OpenBlock(rest: Unclosed)
    | OpenQuote(q: Quoted, backslash: bool)
    | OpenMultiline(lines: string)

  function PieceText(p: Piece): string {
    match p
    case Char(c) => [c]
    case LineComment(line) => "#" + line + "\n"
    case BlockComment(body) => "/*" + NestText(body) + "*/"
    case Quote(q) => "\"" + QuotedText(q) + "\""
    case Multiline(lines) => "''" + lines + "''"
  }

  /** Code and quoted strings stay, comments and indented strings are blanked. */
  function PieceOut(p: Piece): string {
    if p.Char? || p.Quote? then PieceText(p) else Blanks(PieceText(p))
  }

  /** The piece is what it claims to be where `post` follows it. */
  predicate PieceOk(p: Piece, post: string) {
    match p
    case Char(c) => c != '#' && c != '"' && !StartsWith([c] + post, "/*") && !StartsWith([c] + post, "''")
    case LineComment(line) => '\n' !in line
    case BlockComment(body) => NestOk(body)
    case Quote(q) => QuotedOk(q)
    case Multiline(lines) => NoClosing(lines)
  }

  function UnclosedText(u: Unclosed): string {
    match u
    case Stop => ""
    case Loose(c, tail) => [c] + UnclosedText(tail)
    case Closed(inner, tail) => "/*" + NestText(inner) + "*/" + UnclosedText(tail)
    case Deeper(tail) => "/*" + UnclosedText(tail)
  }

  predicate UnclosedOk(u: Unclosed) {
    match u
    case Stop => true
    case Loose(c, tail) =>
      var ahead := [c] + UnclosedText(tail);
      !StartsWith(ahead, "/*") && !StartsWith(ahead, "*/") && UnclosedOk(tail)
    case Closed(inner, tail) => NestOk(inner) && UnclosedOk(tail)
    case Deeper(tail) => UnclosedOk(tail)
  }

  function EndText(e: Ending): string {
    match e
    case AtCode => ""
    case AtLine(line) => "#" + line
    case OpenBlock(rest) => "/*" + UnclosedText(rest)
    case OpenQuote(q, backslash) => "\"" + QuotedText(q) + (if backslash then "\\" else "")
    case OpenMultiline(lines) => "''" + lines
  }

  predicate EndOk(e: Ending) {
    match e
    case AtCode => true
    case AtLine(line) => '\n' !in line
    case OpenBlock(rest) => UnclosedOk(rest)
    case OpenQuote(q, _) => QuotedOk(q)
    case OpenMultiline(lines) => forall i :: 0 <= i < |lines| ==> !StartsWith(lines[i..], "''")
  }

  function WholeText(ps: seq<Piece>, e: Ending): string {
    if ps == [] then EndText(e) else PieceText(ps[0]) + WholeText(ps[1..], e)
  }

  function WholeOut(ps: seq<Piece>, e: Ending): string {
    if ps == [] then Blanks(EndText(e)) else PieceOut(ps[0]) + WholeOut(ps[1..], e)
  }

  /** The text is written as these pieces and this ending. */
  predicate Written(text: string, ps: seq<Piece>, e: Ending)
    decreases |ps|
  {
    if ps == [] then EndOk(e) && text == EndText(e)
    else PieceOk(ps[0], WholeText(ps[1..], e)) && text == WholeText(ps, e) && Written(WholeText(ps[1..], e), ps[1..], e)
  }

  lemma PieceReads(p: Piece, post: string)
    requires PieceOk(p, post)
    ensures Reads(PieceText(p), Code, post, PieceOut(p), Code)
  {
    hide Reads;
    match p
    case Char(c) => CodeKept(c, post);
    case LineComment(line) => LineCommentBlanked(line, post);
    case BlockComment(body) => BlockCommentBlanked(body, post);
    case Quote(q) => StringKept(q, post);
    case Multiline(lines) => IndentedStringBlanked(lines, post);
  }

  lemma Then(a: string, mode: Mode, post: string, out: string, after: Mode)
    requires Reads(a, mode, post, out, after)
    ensures Run(a + post, mode) == (out + Run(post, after).0, Run(post, after).1)
  {}

  lemma LineEnds(line: string)
    requires '\n' !in line
    ensures Run("#" + line, Code) == (Blanks("#" + line), Line)
  {
    hide Reads;
    ReadsOne("#", Code, line);
    Then("#", Code, line, " ", Line);
    LineBody(line, "");
    Then(line, Line, "", Blanks(line), Line);
    assert line + "" == line && Blanks(line) + "" == Blanks(line);
    BlanksConcat("#", line);
    assert Blanks("#") == " ";
  }

  lemma QuoteStaysOpen(q: Quoted, backslash: bool)
    requires QuotedOk(q)
    ensures Run("\"" + QuotedText(q) + (if backslash then "\\" else ""), Code).1 == Double
  {
    hide Reads;
    var post := if backslash then "\\" else "";
    ReadsOne("\"", Code, QuotedText(q) + post);
    Then("\"", Code, QuotedText(q) + post, "\"", Double);
    QuotedBody(q, post);
    Then(QuotedText(q), Double, post, QuotedText(q), Double);
    assert "\"" + QuotedText(q) + post == "\"" + (QuotedText(q) + post);
    LoneBackslash();
  }

  lemma {:induction false} MultilineStaysOpen(lines: string)
    requires forall i :: 0 <= i < |lines| ==> !StartsWith(lines[i..], "''")
    ensures Run(lines, Indented).1 == Indented
    decreases |lines|
  {
    if lines != "" {
      assert lines[0..] == lines;
      assert forall i :: 0 <= i < |lines[1..]| ==> lines[1..][i..] == lines[i + 1..];
      MultilineStaysOpen(lines[1..]);
    }
  }

  lemma {:induction false} BlockStaysOpen(u: Unclosed, depth: nat)
    requires UnclosedOk(u) && depth > 0
    ensures Run(UnclosedText(u), Block(depth)).1.Block?
    decreases u
  {
    hide Reads;
    match u
    case Stop =>
    case Loose(c, tail) =>
      BlockStaysOpen(tail, depth);
      assert UnclosedText(u)[1..] == UnclosedText(tail);
    case Closed(inner, tail) =>
      var rest := UnclosedText(tail);
      var whole := "/*" + NestText(inner) + "*/";
      NestBody(inner, depth + 1, rest);
      NestComment(inner, Block(depth), rest);
      Then(whole, Block(depth), rest, Blanks(whole), Block(depth));
      BlockStaysOpen(tail, depth);
    case Deeper(tail) =>
      ReadsOne("/*", Block(depth), UnclosedText(tail));
      Then("/*", Block(depth), UnclosedText(tail), "  ", Block(depth + 1));
      BlockStaysOpen(tail, depth + 1);
  }

  lemma EndReads(e: Ending)
    requires EndOk(e)
    ensures e.AtCode? || e.AtLine? ==> Blanked(EndText(e)) == Some(Blanks(EndText(e)))
    ensures !e.AtCode? && !e.AtLine? ==> Blanked(EndText(e)) == None
  {
    hide Reads;
    match e
    case AtCode => assert Blanks("") == "";
    case AtLine(line) => LineEnds(line);
    case OpenBlock(rest) =>
      ReadsOne("/*", Code, UnclosedText(rest));
      Then("/*", Code, UnclosedText(rest), "  ", Block(1));
      BlockStaysOpen(rest, 1);
    case OpenQuote(q, backslash) => QuoteStaysOpen(q, backslash);
    case OpenMultiline(lines) =>
      ReadsOne("''", Code, lines);
      Then("''", Code, lines, "  ", Indented);
      MultilineStaysOpen(lines);
  }

  /** A text ending in code or a line comment is blanked piece by piece; one that ends inside a comment or
      string is refused. */
  lemma {:induction false} WrittenIsBlanked(text: string, ps: seq<Piece>, e: Ending)
    requires Written(text, ps, e)
    ensures Blanked(text) == if e.AtCode? || e.AtLine? then Some(WholeOut(ps, e)) else None
    decreases |ps|
  {
    hide Reads, PieceText, PieceOut, Run;
    if ps == [] {
      EndReads(e);
    } else {
      var post := WholeText(ps[1..], e);
      PieceReads(ps[0], post);
      Then(PieceText(ps[0]), Code, post, PieceOut(ps[0]), Code);
      WrittenIsBlanked(post, ps[1..], e);
    }
  }

  // ----- every text is written so -----

  lemma {:induction false} SplitLine(text: string) returns (closed: bool, line: string, rest: string)
    ensures '\n' !in line && text == if closed then line + "\n" + rest else line
    ensures closed ==> |rest| < |text|
    decreases |text|
  {
    if text == "" {
      closed, line, rest := false, "", "";
    } else if text[0] == '\n' {
      closed, line, rest := true, "", text[1..];
      assert text == "\n" + text[1..];
    } else {
      closed, line, rest := SplitLine(text[1..]);
      line := [text[0]] + line;
      assert text == [text[0]] + text[1..];
    }
  }

  lemma {:induction false} SplitMultiline(text: string) returns (closed: bool, lines: string, rest: string)
    ensures closed ==> NoClosing(lines) && text == lines + "''" + rest
    ensures !closed ==> text == lines && forall i :: 0 <= i < |lines| ==> !StartsWith(lines[i..], "''")
    decreases |text|
  {
    if text == "" {
      closed, lines, rest := false, "", "";
    } else if StartsWith(text, "''") {
      closed, lines, rest := true, "", text[2..];
      assert text == "" + "''" + text[2..];
    } else {
      var tail;
      closed, tail, rest := SplitMultiline(text[1..]);
      lines := [text[0]] + tail;
      assert text == [text[0]] + text[1..];
      if closed {
        assert text == lines + "''" + rest;
        NoClosingStep(text[0], tail, rest);
      } else {
        forall i | 0 <= i < |lines| ensures !StartsWith(lines[i..], "''") {
          assert i == 0 ==> lines[i..] == text;
          assert i > 0 ==> lines[i..] == tail[i - 1..];
        }
      }
    }
  }

  lemma NoClosingStep(c: char, tail: string, rest: string)
    requires NoClosing(tail) && !StartsWith([c] + tail + "''" + rest, "''")
    ensures NoClosing([c] + tail)
  {
    var body := [c] + tail;
    forall i | 0 <= i < |body| ensures !StartsWith((body + "''")[i..], "''") {
      if i == 0 {
        assert (body + "''" + rest)[..2] == (body + "''")[..2];
      } else {
        assert (body + "''")[i..] == (tail + "''")[i - 1..];
      }
    }
  }

  lemma {:induction false} SplitQuote(text: string) returns (closed: bool, q: Quoted, backslash: bool, rest: string)
    ensures QuotedOk(q)
    ensures text == if closed then QuotedText(q) + "\"" + rest else QuotedText(q) + (if backslash then "\\" else "")
    decreases |text|
  {
    closed, q, backslash, rest := false, Close, false, "";
    if text == "" {
    } else if text[0] == '"' {
      closed, rest := true, text[1..];
      assert text == "" + "\"" + text[1..];
    } else if text[0] == '\\' && |text| == 1 {
      backslash := true;
      assert text == "\\";
    } else {
      var n := if text[0] == '\\' then 2 else 1;
      var tail;
      closed, tail, backslash, rest := SplitQuote(text[n..]);
      q := if n == 2 then Escape(text[1], tail) else Plain(text[0], tail);
      assert text == text[..n] + text[n..];
      assert QuotedText(q) == text[..n] + QuotedText(tail);
    }
  }

  lemma {:induction false} SplitBlock(text: string) returns (closed: bool, n: Nest, u: Unclosed, rest: string)
    ensures closed ==> NestOk(n) && text == NestText(n) + "*/" + rest
    ensures !closed ==> UnclosedOk(u) && text == UnclosedText(u)
    decreases |text|
  {
    closed, n, u, rest := false, End, Stop, "";
    if text == "" {
    } else if StartsWith(text, "*/") {
      closed, rest := true, text[2..];
      assert text == "" + "*/" + text[2..];
    } else if StartsWith(text, "/*") {
      var inner, open, after;
      closed, inner, open, after := SplitBlock(text[2..]);
      assert text == "/*" + text[2..];
      if closed {
        var tail;
        assert |after| < |text|;
        closed, tail, open, rest := SplitBlock(after);
        n, u := Sub(inner, tail), Closed(inner, open);
        NestedText(text, inner, tail, open, closed, after, rest);
      } else {
        u := Deeper(open);
      }
    } else {
      var tail, open;
      closed, tail, open, rest := SplitBlock(text[1..]);
      n, u := Chr(text[0], tail), Loose(text[0], open);
      assert text == [text[0]] + text[1..];
      if closed {
        NestOkStep(text, tail, rest);
      }
    }
  }

  lemma NestedText(text: string, inner: Nest, tail: Nest, open: Unclosed, closed: bool, after: string, rest: string)
    requires text == "/*" + (NestText(inner) + "*/" + after)
    requires after == if closed then NestText(tail) + "*/" + rest else UnclosedText(open)
    ensures text == if closed then NestText(Sub(inner, tail)) + "*/" + rest else UnclosedText(Closed(inner, open))
  {
    var whole := "/*" + NestText(inner) + "*/";
    assert text == whole + after;
    if closed {
      assert whole + (NestText(tail) + "*/" + rest) == (whole + NestText(tail)) + "*/" + rest;
    }
  }

  lemma NestOkStep(text: string, tail: Nest, rest: string)
    requires text != "" && text[1..] == NestText(tail) + "*/" + rest && NestOk(tail)
    requires !StartsWith(text, "/*") && !StartsWith(text, "*/")
    ensures NestOk(Chr(text[0], tail)) && text == NestText(Chr(text[0], tail)) + "*/" + rest
  {
    var ahead := [text[0]] + NestText(tail) + "*/";
    assert text == ahead + rest;
    assert ahead[..2] == text[..2];
  }

  /** Every text is written in such pieces, with an ending. */
  lemma {:induction false} EveryTextWritten(text: string) returns (ps: seq<Piece>, e: Ending)
    ensures Written(text, ps, e)
    decreases |text|
  {
    ps, e := [], AtCode;
    if text != "" {
      var first, rest;
      e, first, rest := FirstPiece(text);
      if first.Some? {
        ps, e := EveryTextWritten(rest);
        WrittenText(rest, ps, e);
        assert ([first.value] + ps)[1..] == ps;
        ps := [first.value] + ps;
      }
    }
  }

  lemma WrittenText(text: string, ps: seq<Piece>, e: Ending)
    requires Written(text, ps, e)
    ensures text == WholeText(ps, e)
  {}

  /** The first piece of a text and what follows it, or its ending. */
  lemma FirstPiece(text: string) returns (e: Ending, first: Option<Piece>, rest: string)
    requires text != ""
    ensures first.Some? ==> text == PieceText(first.value) + rest && PieceOk(first.value, rest) && |rest| < |text|
    ensures first.None? ==> EndOk(e) && text == EndText(e)
  {
    var closed;
    e, first, rest := AtCode, None, "";
    if text[0] == '#' {
      var line;
      closed, line, rest := SplitLine(text[1..]);
      assert text == "#" + text[1..];
      e, first := AtLine(line), if closed then Some(LineComment(line)) else None;
      assert closed ==> text == "#" + line + "\n" + rest;
    } else if StartsWith(text, "/*") {
      var n, u;
      closed, n, u, rest := SplitBlock(text[2..]);
      assert text == "/*" + text[2..];
      e, first := OpenBlock(u), if closed then Some(BlockComment(n)) else None;
      assert closed ==> text == "/*" + NestText(n) + "*/" + rest;
    } else if StartsWith(text, "''") {
      var lines;
      closed, lines, rest := SplitMultiline(text[2..]);
      assert text == "''" + text[2..];
      e, first := OpenMultiline(lines), if closed then Some(Multiline(lines)) else None;
      assert closed ==> text == "''" + lines + "''" + rest;
    } else if text[0] == '"' {
      var q, backslash;
      closed, q, backslash, rest := SplitQuote(text[1..]);
      assert text == "\"" + text[1..];
      e, first := OpenQuote(q, backslash), if closed then Some(Quote(q)) else None;
      assert closed ==> text == "\"" + QuotedText(q) + "\"" + rest;
      assert !closed ==> text == "\"" + QuotedText(q) + (if backslash then "\\" else "");
    } else {
      first, rest := Some(Char(text[0])), text[1..];
      assert text == [text[0]] + text[1..];
    }
  }

  /** The lexer succeeds exactly on texts of code, comments and closed strings that end in code or in a line
      comment, and blanks them piece by piece. */
  lemma BlankedIff(text: string, out: string)
    ensures Blanked(text) == Some(out) <==>
      exists ps, e :: Written(text, ps, e) && (e.AtCode? || e.AtLine?) && out == WholeOut(ps, e)
  {
    hide Written, WholeOut, Blanked;
    var ps, e := EveryTextWritten(text);
    WrittenIsBlanked(text, ps, e);
    forall qs, f | Written(text, qs, f)
      ensures Blanked(text) == if f.AtCode? || f.AtLine? then Some(WholeOut(qs, f)) else None
    {
      WrittenIsBlanked(text, qs, f);
    }
  }
}
