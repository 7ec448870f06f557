/**
 The line stripper of the linter: a scanner that drops comments and the contents of string literals,
 run in place over a NUL-terminated line.
 */
module LintStripper {
  const NUL := '\0'

  datatype Mode = Code | Text | Block

  /** What is left of a line, and whether a block comment is still open at its end. */
  datatype Stripped = Stripped(out: string, open: bool)

  function Emit(c: char, r: Stripped): Stripped {
    r.(out := [c] + r.out)
  }

  predicate Starts(s: string, a: char, b: char) {
    |s| >= 2 && s[0] == a && s[1] == b
  }

  function Scan(s: string, m: Mode): Stripped
    decreases |s|
  {
    if s == [] then Stripped([], m == Block)
    else match m
      case Block => if Starts(s, '*', '/') then Scan(s[2..], Code) else Scan(s[1..], Block)
      case Text =>
        if s[0] == '\\' && |s| >= 2 then Scan(s[2..], Text)
        else if s[0] == '"' then Emit('"', Scan(s[1..], Code))
        else Scan(s[1..], Text)
      case Code =>
        if Starts(s, '/', '*') then Scan(s[2..], Block)
        else if Starts(s, '/', '/') then Stripped([], false)
        else if s[0] == '"' then Emit('"', Scan(s[1..], Text))
        else Emit(s[0], Scan(s[1..], Code))
  }

  function Strip(s: string, inBlock: bool): Stripped {
    Scan(s, if inBlock then Block else Code)
  }

  // ----- What stripping does -----

  /** No line comment and no block comment starts anywhere in `s`. */
  ghost predicate NoOpener(s: string) {
    forall i :: 0 <= i < |s| - 1 ==> s[i] == '/' ==> s[i + 1] != '/' && s[i + 1] != '*'
  }

  lemma ConsNoOpener(c: char, s: string)
    requires NoOpener(s) && (c == '/' && s != [] ==> s[0] != '/' && s[0] != '*')
    ensures NoOpener([c] + s)
  {
  }

  /** For every line and every incoming flag the output starts no comment. */
  lemma {:induction false} OutputHasNoOpener(s: string, m: Mode)
    ensures NoOpener(Scan(s, m).out)
    decreases |s|
  {
    if s != [] {
      OutputHasNoOpener(s[1..], if m == Code && s[0] == '"' then Text else if m == Text && s[0] == '"' then Code else m);
      if |s| >= 2 {
        OutputHasNoOpener(s[2..], m);
        OutputHasNoOpener(s[2..], if m == Block then Code else Block);
      }
      if m == Code && s[0] != '"' && !Starts(s, '/', '*') && !Starts(s, '/', '/') {
        ConsNoOpener(s[0], Scan(s[1..], Code).out);
      }
      if m != Block && s[0] == '"' {
        ConsNoOpener('"', Scan(s[1..], if m == Code then Text else Code).out);
      }
    }
  }

  /** Scanning an output again changes nothing and leaves no block comment open. */
  lemma {:induction false} Rescan(s: string, m: Mode)
    ensures Scan(Scan(s, m).out, if m == Text then Text else Code) == Stripped(Scan(s, m).out, false)
    decreases |s|
  {
    if s != [] {
      Rescan(s[1..], if m == Code && s[0] == '"' then Text else if m == Text && s[0] == '"' then Code else m);
      if |s| >= 2 {
        Rescan(s[2..], m);
        Rescan(s[2..], if m == Block then Code else Block);
      }
      OutputHasNoOpener(s, m);
    }
  }

  lemma StripIsAFixpoint(s: string, inBlock: bool)
    ensures NoOpener(Strip(s, inBlock).out)
    ensures Strip(Strip(s, inBlock).out, false) == Stripped(Strip(s, inBlock).out, false)
  {
    OutputHasNoOpener(s, if inBlock then Block else Code);
    Rescan(s, if inBlock then Block else Code);
  }

  /**
   How the scanner leaves a piece of a line: in a mode, perhaps with a last character that could be half
   of a mark, or in a line comment.
   */
  datatype Left = In(m: Mode, half: bool) | Commented

  function Leaves(a: string, m: Mode): Left
    decreases |a|
  {
    if a == [] then In(m, false)
    else match m
      case Block =>
        if Starts(a, '*', '/') then Leaves(a[2..], Code)
        else if |a| == 1 then In(Block, a[0] == '*')
        else Leaves(a[1..], Block)
      case Text =>
        if a[0] == '\\' then if |a| >= 2 then Leaves(a[2..], Text) else In(Text, true)
        else Leaves(a[1..], if a[0] == '"' then Code else Text)
      case Code =>
        if Starts(a, '/', '*') then Leaves(a[2..], Block)
        else if Starts(a, '/', '/') then Commented
        else if a[0] == '"' then Leaves(a[1..], Text)
        else if |a| == 1 then In(Code, a[0] == '/')
        else Leaves(a[1..], Code)
  }

  lemma Cons(c: char, x: string, y: string)
    ensures [c] + x + y == [c] + (x + y)
  {
  }

  /** Two pieces of a line are scanned one after the other, unless a mark is split between them. */
  lemma {:induction false} ScanPieces(a: string, s: string, m: Mode)
    requires Leaves(a, m).In? && Leaves(a, m).m == Code
    requires Leaves(a, m).half && s != [] ==> s[0] != '/' && s[0] != '*'
    ensures Scan(a + s, m) == Stripped(Scan(a, m).out + Scan(s, Code).out, Scan(s, Code).open)
    decreases |a|, 1
  {
    if a == [] {
      assert a + s == s;
    } else {
      assert (a + s)[1..] == a[1..] + s;
      if |a| >= 2 { assert (a + s)[2..] == a[2..] + s; }
      match m
      case Block => ScanPieces(if Starts(a, '*', '/') then a[2..] else a[1..], s, if Starts(a, '*', '/') then Code else Block);
      case Text =>
        if a[0] == '\\' {
          ScanPieces(a[2..], s, Text);
        } else {
          ScanPieces(a[1..], s, if a[0] == '"' then Code else Text);
          if a[0] == '"' { Cons('"', Scan(a[1..], Code).out, Scan(s, Code).out); }
        }
      case Code => CodePieces(a, s);
    }
  }

  lemma {:induction false} CodePieces(a: string, s: string)
    requires a != [] && Leaves(a, Code).In? && Leaves(a, Code).m == Code
    requires Leaves(a, Code).half && s != [] ==> s[0] != '/' && s[0] != '*'
    ensures Scan(a + s, Code) == Stripped(Scan(a, Code).out + Scan(s, Code).out, Scan(s, Code).open)
    decreases |a|, 0
  {
    assert (a + s)[1..] == a[1..] + s;
    if Starts(a, '/', '*') {
      assert (a + s)[2..] == a[2..] + s;
      ScanPieces(a[2..], s, Block);
    } else {
      var m := if a[0] == '"' then Text else Code;
      ScanPieces(a[1..], s, m);
      Cons(a[0], Scan(a[1..], m).out, Scan(s, Code).out);
    }
  }

  /** No closing mark of a block comment in `c`. */
  ghost predicate NoCloser(c: string) {
    forall i :: 0 <= i <= |c| ==> !Starts(c[i..], '*', '/')
  }

  lemma NoCloserTail(c: string)
    requires c != []
    ensures NoCloser(c) <==> !Starts(c, '*', '/') && NoCloser(c[1..])
  {
    assert c[0..] == c;
    forall i | 0 <= i <= |c[1..]| ensures c[1..][i..] == c[i + 1..] {
    }
    if !Starts(c, '*', '/') && NoCloser(c[1..]) {
      forall i | 0 < i <= |c| ensures !Starts(c[i..], '*', '/') {
        assert c[i..] == c[1..][i - 1..];
      }
    }
  }

  /** Inside a block comment everything goes up to the first closing mark. */
  lemma {:induction false} BlockEnds(c: string, s: string)
    requires NoCloser(c)
    ensures Scan(c + "*/" + s, Block) == Scan(s, Code)
  {
    var all := c + "*/" + s;
    if c == [] {
      assert all[2..] == s;
    } else {
      assert all[1..] == c[1..] + "*/" + s;
      assert Starts(all, '*', '/') ==> Starts(c, '*', '/');
      NoCloserTail(c);
      BlockEnds(c[1..], s);
    }
  }

  lemma {:induction false} ScanComment(c: string, s: string)
    requires NoCloser(c)
    ensures Scan("/*" + (c + "*/" + s), Code) == Scan(s, Code)
  {
    BlockEnds(c, s);
    var rest := "/*" + (c + "*/" + s);
    assert rest[2..] == c + "*/" + s;
    hide NoCloser;
  }

  /** A block comment is cut out whole, on one line or begun on an earlier one. */
  lemma {:induction false} BlockCommentCut(a: string, inBlock: bool, c: string, s: string)
    requires Leaves(a, if inBlock then Block else Code) == In(Code, false)
    requires NoCloser(c)
    ensures Strip(a + "/*" + c + "*/" + s, inBlock) == Stripped(Strip(a, inBlock).out + Strip(s, false).out, Strip(s, false).open)
    ensures Strip(c + "*/" + s, true) == Strip(s, false)
  {
    BlockEnds(c, s);
    ScanComment(c, s);
    ScanPieces(a, "/*" + (c + "*/" + s), if inBlock then Block else Code);
    hide Scan, NoCloser, Leaves;
    assert a + "/*" + c + "*/" + s == a + ("/*" + (c + "*/" + s));
  }

  /** A line comment is cut to the end of the line. */
  lemma {:induction false} LineCommentCut(a: string, inBlock: bool, c: string)
    requires Leaves(a, if inBlock then Block else Code) == In(Code, false)
    ensures Strip(a + "//" + c, inBlock) == Stripped(Strip(a, inBlock).out, false)
  {
    ScanPieces(a, "//" + c, if inBlock then Block else Code);
    assert a + "//" + c == a + ("//" + c);
    assert Strip(a, inBlock).out + [] == Strip(a, inBlock).out;
  }

  /** The contents of a string literal: a backslash takes the next character along. */
  predicate Literal(c: string) {
    c == [] || (if c[0] == '\\' then |c| > 1 && Literal(c[2..]) else c[0] != '"' && Literal(c[1..]))
  }

  lemma TextSplit(a: string, c: string, s: string)
    ensures a + "\"" + c + "\"" + s == a + ("\"" + (c + "\"" + s)) && ("\"" + (c + "\"" + s))[1..] == c + "\"" + s
  {
    var rest := c + "\"" + s;
    assert a + "\"" + c + "\"" + s == a + "\"" + rest;
    assert ("\"" + rest)[1..] == rest;
  }

  lemma QuotesSplit(before: string, out: string)
    ensures before + (['"'] + (['"'] + out)) == before + "\"\"" + out
  {
  }

  lemma {:induction false} ScanLiteral(c: string, s: string)
    requires Literal(c)
    ensures Scan("\"" + (c + "\"" + s), Code) == Emit('"', Emit('"', Scan(s, Code)))
  {
    TextEnds(c, s);
    TextSplit("", c, s);
    hide Literal;
  }

  /** A string literal keeps its quotes and loses its contents. */
  lemma {:induction false} TextEmptied(a: string, inBlock: bool, c: string, s: string)
    requires Leaves(a, if inBlock then Block else Code).In? && Leaves(a, if inBlock then Block else Code).m == Code
    requires Literal(c)
    ensures Strip(a + "\"" + c + "\"" + s, inBlock) ==
            Stripped(Strip(a, inBlock).out + "\"\"" + Strip(s, false).out, Strip(s, false).open)
  {
    ScanLiteral(c, s);
    TextSplit(a, c, s);
    ScanPieces(a, "\"" + (c + "\"" + s), if inBlock then Block else Code);
    hide Scan, Literal, Leaves;
    QuotesSplit(Strip(a, inBlock).out, Scan(s, Code).out);
  }

  lemma {:induction false} TextEnds(c: string, s: string)
    requires Literal(c)
    ensures Scan(c + "\"" + s, Text) == Emit('"', Scan(s, Code))
  {
    var all := c + "\"" + s;
    if c == [] {
      assert all[1..] == s;
    } else if c[0] == '\\' {
      assert all[2..] == c[2..] + "\"" + s;
      TextEnds(c[2..], s);
    } else {
      assert all[1..] == c[1..] + "\"" + s;
      TextEnds(c[1..], s);
    }
  }

  // ----- A line by what it is made of -----

  /** A character of code, a string literal or a block comment, each without its marks. */
  datatype Piece = Plain(c: char) | Quoted(text: string) | Comment(text: string)

  /** A line ends after a piece, in a line comment, or inside a literal or a block comment. */
  datatype Ending = Finished | LineComment(text: string) | OpenText(text: string) | OpenBlock(text: string)

  function Written(ps: seq<Piece>, e: Ending): string {
    if ps == [] then
      match e
      case Finished => ""
      case LineComment(text) => "//" + text
      case OpenText(text) => "\"" + text
      case OpenBlock(text) => "/*" + text
    else
      match ps[0]
      case Plain(c) => [c] + Written(ps[1..], e)
      case Quoted(text) => "\"" + (text + "\"" + Written(ps[1..], e))
      case Comment(text) => "/*" + (text + "*/" + Written(ps[1..], e))
  }

  /** Code stays, literals keep their quotes, comments go. */
  function Kept(ps: seq<Piece>, e: Ending): string {
    if ps == [] then if e.OpenText? then "\"" else ""
    else
      match ps[0]
      case Plain(c) => [c] + Kept(ps[1..], e)
      case Quoted(_) => "\"\"" + Kept(ps[1..], e)
      case Comment(_) => Kept(ps[1..], e)
  }

  /** A literal that the line does not close, perhaps with a lone backslash at the end. */
  predicate Unclosed(c: string) {
    c == [] || (if c[0] == '\\' then |c| == 1 || Unclosed(c[2..]) else c[0] != '"' && Unclosed(c[1..]))
  }

  /** The pieces are what they are called: code holds no quote and starts no comment with what follows it. */
  ghost predicate WellWritten(ps: seq<Piece>, e: Ending) {
    if ps == [] then (e.OpenText? ==> Unclosed(e.text)) && (e.OpenBlock? ==> NoCloser(e.text))
    else
      && WellWritten(ps[1..], e)
      && match ps[0]
         case Plain(c) =>
           var rest := Written(ps[1..], e);
           c != '"' && (c == '/' && rest != [] ==> rest[0] != '/' && rest[0] != '*')
         case Quoted(text) => Literal(text)
         case Comment(text) => NoCloser(text)
  }

  /** Stripping keeps exactly the code and the quotes, and tells whether a block comment is still open. */
  lemma {:induction false} KeepsExactlyTheCode(ps: seq<Piece>, e: Ending)
    requires WellWritten(ps, e)
    ensures Strip(Written(ps, e), false) == Stripped(Kept(ps, e), e.OpenBlock?)
    decreases |ps|
  {
    if ps == [] {
      EndingIs(e);
    } else {
      var rest := Written(ps[1..], e);
      KeepsExactlyTheCode(ps[1..], e);
      match ps[0]
      case Plain(c) => ScanPlain(c, rest);
      case Quoted(text) => ScanLiteral(text, rest);
      case Comment(text) => ScanComment(text, rest);
      hide Scan, NoCloser, Literal;
    }
  }

  lemma ScanPlain(c: char, s: string)
    requires c != '"' && (c == '/' && s != [] ==> s[0] != '/' && s[0] != '*')
    ensures Scan([c] + s, Code) == Emit(c, Scan(s, Code))
  {
    assert ([c] + s)[1..] == s;
  }

  lemma {:induction false} EndingIs(e: Ending)
    requires WellWritten([], e)
    ensures Scan(Written([], e), Code) == Stripped(if e.OpenText? then "\"" else "", e.OpenBlock?)
  {
    match e
    case Finished =>
    case LineComment(text) =>
    case OpenText(text) =>
      UnclosedText(text);
      assert ("\"" + text)[1..] == text;
    case OpenBlock(text) =>
      UnclosedBlock(text);
      assert ("/*" + text)[2..] == text;
  }

  lemma {:induction false} UnclosedText(c: string)
    requires Unclosed(c)
    ensures Scan(c, Text) == Stripped([], false)
  {
    if c != [] && c[0] == '\\' && |c| > 1 {
      UnclosedText(c[2..]);
    } else if c != [] && c[0] != '\\' {
      UnclosedText(c[1..]);
    }
  }

  /** A line inside a block comment that it does not close is dropped whole. */
  lemma {:induction false} UnclosedBlock(c: string)
    requires NoCloser(c)
    ensures Strip(c, true) == Stripped([], true)
  {
    if c != [] {
      assert c[0..] == c;
      NoCloserTail(c);
      UnclosedBlock(c[1..]);
    }
  }

  /** Code without quotes and comments is its own output. */
  lemma {:induction false} CodeKept(a: string)
    requires NoOpener(a) && forall i :: 0 <= i < |a| ==> a[i] != '"'
    ensures Strip(a, false) == Stripped(a, false)
  {
    if a != [] {
      CodeKept(a[1..]);
      assert a == [a[0]] + a[1..];
    }
  }

  /** Every line is made of such pieces; so the result of stripping is fixed for every line. */
  lemma {:induction false} EveryLineIsWritten(s: string) returns (ps: seq<Piece>, e: Ending)
    ensures WellWritten(ps, e) && Written(ps, e) == s
    decreases |s|
  {
    if s == [] {
      return [], Finished;
    } else if Starts(s, '/', '/') {
      assert s == "//" + s[2..];
      return [], LineComment(s[2..]);
    } else if Starts(s, '/', '*') {
      assert s == "/*" + s[2..];
      var text, closed := BlockText(s[2..]);
      if !closed { return [], OpenBlock(s[2..]); }
      ps, e := EveryLineIsWritten(s[2..][|text| + 2..]);
      ps := PutFirst(Comment(text), ps, e);
    } else if s[0] == '"' {
      assert s == "\"" + s[1..];
      var text, closed := LiteralText(s[1..]);
      if !closed { return [], OpenText(s[1..]); }
      ps, e := EveryLineIsWritten(s[1..][|text| + 1..]);
      ps := PutFirst(Quoted(text), ps, e);
    } else {
      assert s == [s[0]] + s[1..];
      ps, e := EveryLineIsWritten(s[1..]);
      ps := PutFirst(Plain(s[0]), ps, e);
    }
  }

  lemma PutFirst(p: Piece, ps: seq<Piece>, e: Ending) returns (all: seq<Piece>)
    ensures all == [p] + ps && all[0] == p && all[1..] == ps
  {
    all := [p] + ps;
  }

  /** The text up to the first closing mark of a block comment, if there is one. */
  lemma {:induction false} BlockText(s: string) returns (text: string, closed: bool)
    ensures closed ==> |s| >= |text| + 2 && s == text + "*/" + s[|text| + 2..] && NoCloser(text)
    ensures !closed ==> NoCloser(s)
  {
    if s == [] { return [], false; }
    if Starts(s, '*', '/') {
      assert s == "*/" + s[2..];
      return [], true;
    }
    text, closed := BlockText(s[1..]);
    if closed {
      var rest := s[1..][|text| + 2..];
      assert s == [s[0]] + text + "*/" + rest;
      text := [s[0]] + text;
      assert text[1..] == s[1..][..|text| - 1];
      assert Starts(text, '*', '/') ==> Starts(s, '*', '/');
      NoCloserTail(text);
    } else {
      NoCloserTail(s);
    }
  }

  /** The text up to the quote that closes a literal, if there is one. */
  lemma {:induction false} LiteralText(s: string) returns (text: string, closed: bool)
    ensures closed ==> |s| >= |text| + 1 && s == text + "\"" + s[|text| + 1..] && Literal(text)
    ensures !closed ==> Unclosed(s)
    decreases |s|
  {
    if s == [] { return [], false; }
    if s[0] == '"' {
      assert s == "\"" + s[1..];
      return [], true;
    }
    var k := if s[0] == '\\' then 2 else 1;
    if k > |s| { return [], false; }
    text, closed := LiteralText(s[k..]);
    if closed {
      assert s == s[..k] + text + "\"" + s[k..][|text| + 1..];
      text := s[..k] + text;
      assert text[k..] == s[k..][..|text| - k];
    }
  }

  /**
   What is left of the line `t`, however it is written in pieces: its code and its quotes, from behind the
   block comment on if it begins in one, and nothing if that comment is not closed.
   */
  ghost predicate Keeps(t: string, inBlock: bool, out: string, open: bool) {
    if !inBlock then forall ps, e :: WellWritten(ps, e) && t == Written(ps, e) ==> out == Kept(ps, e) && open == e.OpenBlock?
    else
      && (NoCloser(t) ==> out == "" && open)
      && forall text, ps, e :: NoCloser(text) && WellWritten(ps, e) && t == text + "*/" + Written(ps, e) ==>
           out == Kept(ps, e) && open == e.OpenBlock?
  }

  lemma StripKeeps(t: string, inBlock: bool)
    ensures Keeps(t, inBlock, Strip(t, inBlock).out, Strip(t, inBlock).open)
  {
    if !inBlock {
      forall ps, e | WellWritten(ps, e) && t == Written(ps, e)
        ensures Strip(t, false) == Stripped(Kept(ps, e), e.OpenBlock?)
      {
        KeepsExactlyTheCode(ps, e);
      }
    } else {
      if NoCloser(t) { UnclosedBlock(t); }
      forall text, ps, e | NoCloser(text) && WellWritten(ps, e) && t == text + "*/" + Written(ps, e)
        ensures Strip(t, true) == Stripped(Kept(ps, e), e.OpenBlock?)
      {
        BlockEnds(text, Written(ps, e));
        KeepsExactlyTheCode(ps, e);
      }
    }
  }

  // ----- The array version -----

  /** The text of a C string: what comes before the first NUL. */
  function CString(s: string): string {
    if s == [] || s[0] == NUL then [] else [s[0]] + CString(s[1..])
  }

  ghost predicate NoNul(s: string) {
    forall i :: 0 <= i < |s| ==> s[i] != NUL
  }

  lemma {:induction false} CStringAt(s: string, n: nat)
    requires n < |s| && s[n] == NUL && forall i :: 0 <= i < n ==> s[i] != NUL
    ensures CString(s) == s[..n]
  {
    if n > 0 {
      CStringAt(s[1..], n - 1);
      assert s[..n] == [s[0]] + s[1..][..n - 1];
    }
  }

  lemma {:induction false} CStringNul(s: string)
    requires NUL in s
    ensures CString(s) < s && s[|CString(s)|] == NUL && NoNul(CString(s))
  {
    if s[0] != NUL { CStringNul(s[1..]); }
  }

  lemma {:induction false} ScanChars(s: string, m: Mode)
    requires NoNul(s)
    ensures NoNul(Scan(s, m).out) && |Scan(s, m).out| <= |s|
    decreases |s|
  {
    if s != [] {
      forall m' ensures NoNul(Scan(s[1..], m').out) && |Scan(s[1..], m').out| < |s| {
        ScanChars(s[1..], m');
      }
      if |s| >= 2 {
        forall m' ensures NoNul(Scan(s[2..], m').out) && |Scan(s[2..], m').out| < |s| {
          ScanChars(s[2..], m');
        }
      }
    }
  }

  function ModeOf(inBlock: bool, inString: bool): Mode {
    if inBlock then Block else if inString then Text else Code
  }

  /** What is written so far, then what the scanner makes of the rest. */
  function Resume(written: string, rest: string, m: Mode): Stripped {
    var r := Scan(rest, m);
    Stripped(written + r.out, r.open)
  }

  lemma ResumeEmit(written: string, rest: string, m: Mode, m': Mode)
    requires rest != [] && Scan(rest, m) == Emit(rest[0], Scan(rest[1..], m'))
    ensures Resume(written + [rest[0]], rest[1..], m') == Resume(written, rest, m)
  {
    var out := Scan(rest[1..], m').out;
    assert written + ([rest[0]] + out) == written + [rest[0]] + out;
  }

  /** The characters seen through `src` are those of the rest of the text. */
  lemma Peek(was: string, t: string, src: nat)
    requires t < was && was[|t|] == NUL && NoNul(t) && src <= |t|
    ensures was[src] == NUL <==> src == |t|
    ensures src < |t| ==> t[src..][0] == was[src] && t[src..][1..] == t[src + 1..]
    ensures src < |t| ==> (was[src + 1] == NUL <==> |t[src..]| == 1)
    ensures src + 1 < |t| ==> t[src..][1] == was[src + 1] && t[src..][2..] == t[src + 2..]
  {
  }

  /** The loop of `PreprocessLine`: leaves the kept characters before `dst`, the rest untouched. */
  method Rewrite(line: array<char>, inBlock: bool, ghost t: string) returns (dst: nat, open: bool)
    requires t < line[..] && line[|t|] == NUL && NoNul(t)
    modifies line
    ensures dst <= |t| && open == Strip(t, inBlock).open && dst == |Strip(t, inBlock).out|
    ensures forall i :: 0 <= i < dst ==> line[i] == Strip(t, inBlock).out[i]
    ensures forall i :: dst <= i < line.Length ==> line[i] == old(line[i])
  {
    ghost var was, written := line[..], [];
    var src, inString := 0, false;
    dst := 0;
    open := inBlock;
    while line[src] != NUL
      invariant dst <= src <= |t| && |written| == dst
      invariant forall i :: 0 <= i < dst ==> line[i] == written[i]
      invariant forall i :: dst <= i < line.Length ==> line[i] == was[i]
      invariant Resume(written, t[src..], ModeOf(open, inString)) == Strip(t, inBlock)
      invariant open ==> !inString
      decreases |t| - src
    {
      Peek(was, t, src);
      ghost var rest := t[src..];
      if open {
        if line[src] == '*' && line[src + 1] == '/' {
          open := false;
          src := src + 2;
        } else {
          src := src + 1;
        }
      } else if inString {
        if line[src] == '\\' && line[src + 1] != NUL {
          src := src + 2;
        } else if line[src] == '"' {
          inString := false;
          ResumeEmit(written, rest, Text, Code);
          written := written + [line[src]];
          line[dst] := line[src];
          dst, src := dst + 1, src + 1;
        } else {
          src := src + 1;
        }
      } else {
        if line[src] == '/' && line[src + 1] == '*' {
          open := true;
          src := src + 2;
        } else if line[src] == '/' && line[src + 1] == '/' {
          assert Scan(rest, Code) == Stripped([], false);
          break;
        } else if line[src] == '"' {
          inString := true;
          ResumeEmit(written, rest, Code, Text);
          written := written + [line[src]];
          line[dst] := line[src];
          dst, src := dst + 1, src + 1;
        } else {
          ResumeEmit(written, rest, Code, Code);
          written := written + [line[src]];
          line[dst] := line[src];
          dst, src := dst + 1, src + 1;
        }
      }
    }
    if line[src] == NUL { Peek(was, t, src); }
    assert Scan(t[src..], ModeOf(open, inString)) == Stripped([], open);
    assert written + [] == written;
  }

  /** Rewrites the line in place; what lies beyond the new terminator is left as it was. */
  method PreprocessLine(line: array<char>, inBlock: bool) returns (open: bool)
    requires NUL in line[..]
    modifies line
    ensures NUL in line[..]
    ensures Stripped(CString(line[..]), open) == Strip(CString(old(line[..])), inBlock)
    ensures Keeps(CString(old(line[..])), inBlock, CString(line[..]), open)
    ensures forall i :: |CString(line[..])| < i < line.Length ==> line[i] == old(line[i])
  {
    ghost var t := CString(line[..]);
    CStringNul(line[..]);
    var dst;
    dst, open := Rewrite(line, inBlock, t);
    line[dst] := NUL;
    ScanChars(t, if inBlock then Block else Code);
    assert line[..dst] == Strip(t, inBlock).out;
    CStringAt(line[..], dst);
    StripKeeps(t, inBlock);
    hide Keeps;
  }
}
