/** The parser reads exactly the grammar, and every JSON text of RFC 8259 is in it. */
module JsonTheorems {
  import opened JsonGrammar

  // ----- White space -----

  lemma {:induction false} SkipsBlank(ws: string, s: string)
    requires Blank(ws)
    ensures SkipBlank(ws + s) == SkipBlank(s)
  {
    if ws == [] {
      assert ws + s == s;
    } else {
      assert (ws + s)[1..] == ws[1..] + s;
      SkipsBlank(ws[1..], s);
    }
  }

  /** What SkipBlank drops. */
  ghost function SkippedBlank(s: string): (ws: string)
    ensures Blank(ws) && s == ws + SkipBlank(s)
  {
    if s != [] && IsSpace(s[0]) then [s[0]] + SkippedBlank(s[1..]) else []
  }

  lemma {:induction false} SkipTwice(s: string)
    ensures SkipBlank(SkipBlank(s)) == SkipBlank(s)
    ensures SkipBlank(s) != [] ==> !IsSpace(SkipBlank(s)[0])
  {
    if s != [] && IsSpace(s[0]) { SkipTwice(s[1..]); }
  }

  /** White space is the six characters of `isspace` in the C locale: nothing else may follow a value. */
  lemma {:induction false} WhiteSpaceIs(lex: Lexer, c: char)
    ensures Document(lex, "null" + [c]) == Accepted(JNull) <==> c == ' ' || 9 <= c as int <= 13
  {
    assert "null" <= "null" + [c] && ("null" + [c])[4..] == [c];
    assert SkipBlank("null" + [c]) == "null" + [c];
    assert [c][1..] == [];
    assert SkipBlank([c]) == if IsSpace(c) then SkipBlank([]) else [c];
  }

  // ----- Strings -----

  lemma {:induction false} RawLenOf(raw: string, rest: string)
    requires Raw(raw)
    ensures RawLen(raw + "\"" + rest) == |raw|
  {
    var s := raw + "\"" + rest;
    if raw != [] {
      if raw[0] == '\\' {
        assert s[2..] == raw[2..] + "\"" + rest;
        RawLenOf(raw[2..], rest);
      } else {
        assert s[1..] == raw[1..] + "\"" + rest;
        RawLenOf(raw[1..], rest);
      }
    }
  }

  lemma {:induction false} RawLenIsRaw(s: string)
    requires RawLen(s) < |s|
    ensures Raw(s[..RawLen(s)])
  {
    var raw := s[..RawLen(s)];
    if s[0] != '"' {
      if s[0] == '\\' && |s| > 1 {
        RawLenIsRaw(s[2..]);
        assert raw[2..] == s[2..][..RawLen(s[2..])];
      } else {
        RawLenIsRaw(s[1..]);
        assert raw[1..] == s[1..][..RawLen(s[1..])];
      }
    }
  }

  /** A quoted raw string is read back. */
  lemma Quoted(raw: string, rest: string)
    ensures var s := "\"" + raw + "\"" + rest;
      s[0] == '"' && s[1..] == raw + "\"" + rest && s[1..|raw| + 1] == raw && s[|raw| + 2..] == rest
  {
    var s, t := "\"" + raw + "\"" + rest, raw + "\"" + rest;
    assert s[1..] == t;
    assert t[..|raw|] == raw && t[|raw| + 1..] == rest;
    assert s[1..|raw| + 1] == t[..|raw|] && s[|raw| + 2..] == t[|raw| + 1..];
  }

  lemma RawStringReads(raw: string, rest: string)
    requires Raw(raw)
    ensures RawString("\"" + raw + "\"" + rest) == Got(raw, rest)
  {
    RawLenOf(raw, rest);
    hide Raw, RawLen;
    Quoted(raw, rest);
  }

  lemma RawStringSound(s: string)
    requires RawString(s).Got?
    ensures Raw(RawString(s).val) && s == "\"" + RawString(s).val + "\"" + RawString(s).rest
  {
    RawLenIsRaw(s[1..]);
    var n := RawLen(s[1..]);
    assert s[1..][..n] == s[1..n + 1];
  }

  // ----- The parser step by step -----

  /** A text that does not start with white space. */
  predicate Solid(s: string) {
    s != [] && !IsSpace(s[0])
  }

  lemma SkipsTo(ws: string, s: string)
    requires Blank(ws) && Solid(s)
    ensures SkipBlank(ws + s) == s
  {
    SkipsBlank(ws, s);
  }

  lemma ValueSkips(lex: Lexer, ws: string, s: string)
    requires Blank(ws)
    ensures Value(lex, ws + s) == Value(lex, s)
  {
    SkipsBlank(ws, s);
  }

  /** Dispatch on the first character. */
  lemma ValueOf(lex: Lexer, s: string)
    requires Solid(s)
    ensures s[0] == '[' ==> Value(lex, s) == Array(lex, s)
    ensures s[0] == '{' ==> Value(lex, s) == Object(lex, s)
    ensures s[0] == '"' ==> Value(lex, s) == String(s)
    ensures s[0] == 'n' ==> Value(lex, s) == Word(s, "null", JNull)
    ensures s[0] == 't' || s[0] == 'f' ==> Value(lex, s) == Bool(s)
    ensures StartsNumber(s[0]) && s[0] != 'n' ==> Value(lex, s) == Number(lex, s)
  {
  }

  lemma {:induction false} ItemsEnd(lex: Lexer, s: string, v: Json, post: string, rest: string)
    requires Value(lex, s) == Got(v, post + ("]" + rest)) && Blank(post)
    ensures Items(lex, s) == Got([v], rest)
  {
    SkipsTo(post, "]" + rest);
  }

  lemma {:induction false} ItemsGoOn(lex: Lexer, s: string, v: Json, post: string, next: string)
    requires Value(lex, s) == Got(v, post + ("," + next)) && Blank(post)
    ensures Items(lex, s) == Prepend(v, Items(lex, SkipBlank(next)))
  {
    SkipsTo(post, "," + next);
  }

  lemma ArrayEmpty(lex: Lexer, ws: string, rest: string)
    requires Blank(ws)
    ensures Value(lex, "[" + (ws + ("]" + rest))) == Got(JArr([]), rest)
  {
    SkipsTo(ws, "]" + rest);
    ValueOf(lex, "[" + (ws + ("]" + rest)));
  }

  lemma ArrayFull(lex: Lexer, s: string, items: seq<Json>, rest: string)
    requires SkipBlank(s) != [] && SkipBlank(s)[0] != ']' && Items(lex, SkipBlank(s)) == Got(items, rest)
    ensures Value(lex, "[" + s) == Got(JArr(items), rest)
  {
    ValueOf(lex, "[" + s);
  }

  lemma {:induction false} PairReads(lex: Lexer, key: string, mid: string, mid': string, value: string, v: Json, rest: string)
    requires Raw(key) && Blank(mid) && Blank(mid') && Solid(value) && Value(lex, value) == Got(v, rest)
    ensures Pair(lex, "\"" + key + "\"" + (mid + (":" + (mid' + value)))) == Got(Member(key, v), rest)
  {
    RawStringReads(key, mid + (":" + (mid' + value)));
    SkipsTo(mid, ":" + (mid' + value));
    SkipsTo(mid', value);
  }

  lemma MembersEnd(lex: Lexer, s: string, m: Member, post: string, rest: string)
    requires Pair(lex, s) == Got(m, post + ("}" + rest)) && Blank(post)
    ensures Members(lex, s) == Got([m], rest)
  {
    SkipsTo(post, "}" + rest);
  }

  lemma MembersGoOn(lex: Lexer, s: string, m: Member, post: string, next: string)
    requires Pair(lex, s) == Got(m, post + ("," + next)) && Blank(post)
    ensures Members(lex, s) == Prepend(m, Members(lex, SkipBlank(next)))
  {
    SkipsTo(post, "," + next);
  }

  lemma ObjectEmpty(lex: Lexer, ws: string, rest: string)
    requires Blank(ws)
    ensures Value(lex, "{" + (ws + ("}" + rest))) == Got(JObj([]), rest)
  {
    SkipsTo(ws, "}" + rest);
    ValueOf(lex, "{" + (ws + ("}" + rest)));
  }

  lemma ObjectFull(lex: Lexer, s: string, members: seq<Member>, rest: string)
    requires SkipBlank(s) != [] && SkipBlank(s)[0] != '}' && Members(lex, SkipBlank(s)) == Got(members, rest)
    ensures Value(lex, "{" + s) == Got(JObj(members), rest)
  {
    ValueOf(lex, "{" + s);
  }

  // ----- Every text of the grammar is read -----

  lemma {:induction false} TextIsSolid(lex: Lexer, c: Cst, rest: string)
    requires Ok(lex, c, rest)
    ensures Solid(Text(c, rest)) && Text(c, rest)[0] != ']'
  {
    if c.CNum? { assert (c.lexeme + rest)[0] == c.lexeme[0]; }
  }

  ghost predicate ReadsTo(lex: Lexer, c: Cst, rest: string) {
    Value(lex, Text(c, rest)) == Got(Tree(c), rest)
  }

  ghost predicate ItemsReadTo(lex: Lexer, cs: CItems, rest: string) {
    var s := SkipBlank(ItemsText(cs, rest));
    s != [] && s[0] != ']' && Items(lex, s) == Got(ItemTrees(cs), rest)
  }

  ghost predicate MembersReadTo(lex: Lexer, ms: CMembers, rest: string) {
    var s := SkipBlank(MembersText(ms, rest));
    s != [] && s[0] != '}' && Members(lex, s) == Got(MemberTrees(ms), rest)
  }

  lemma {:induction false} ReadsWord(lex: Lexer, c: Cst, rest: string)
    requires c.CNull? || c.CBool?
    ensures ReadsTo(lex, c, rest)
  {
    var s := Text(c, rest);
    ValueOf(lex, s);
    assert c == CNull ==> s[4..] == rest;
    assert c == CBool(true) ==> s[4..] == rest;
    assert c == CBool(false) ==> s[5..] == rest;
  }

  lemma ReadsNumber(lex: Lexer, lexeme: string, rest: string)
    requires lexeme != [] && lexeme[0] != 'n' && !IsSpace(lexeme[0]) && lex(lexeme + rest) == |lexeme|
    ensures Value(lex, lexeme + rest) == Got(JNum(lexeme), rest)
  {
    var s := lexeme + rest;
    assert s[0] == lexeme[0];
    ValueOf(lex, s);
    assert s[..|lexeme|] == lexeme && s[|lexeme|..] == rest;
  }

  lemma {:induction false} ReadsLeaf(lex: Lexer, c: Cst, rest: string)
    requires Ok(lex, c, rest) && !c.CArr? && !c.CObj?
    ensures ReadsTo(lex, c, rest)
  {
    match c
    case CNull => ReadsWord(lex, c, rest);
    case CBool(_) => ReadsWord(lex, c, rest);
    case CNum(lexeme) => ReadsNumber(lex, lexeme, rest);
    case CStr(raw) =>
      RawStringReads(raw, rest);
      ValueOf(lex, "\"" + raw + "\"" + rest);
    case CNoItems(ws) => ArrayEmpty(lex, ws, rest);
    case CNoMembers(ws) => ObjectEmpty(lex, ws, rest);
  }

  lemma {:induction false} ReadsItem(lex: Lexer, cs: CItems, rest: string)
    requires Blank(cs.pre) && Blank(cs.post)
    requires ReadsTo(lex, cs.v, cs.post + AfterItem(cs, rest))
    requires var text := Text(cs.v, cs.post + AfterItem(cs, rest)); Solid(text) && text[0] != ']'
    requires cs.MoreItems? ==> ItemsReadTo(lex, cs.more, rest)
    ensures ItemsReadTo(lex, cs, rest)
  {
    var text := Text(cs.v, cs.post + AfterItem(cs, rest));
    SkipsTo(cs.pre, text);
    if cs.LastItem? {
      ItemsEnd(lex, text, Tree(cs.v), cs.post, rest);
    } else {
      ItemsGoOn(lex, text, Tree(cs.v), cs.post, ItemsText(cs.more, rest));
    }
  }

  lemma {:induction false} ReadsMember(lex: Lexer, ms: CMembers, rest: string)
    requires Blank(ms.pre) && Blank(ms.post)
    requires var after := ms.post + AfterMember(ms, rest); Pair(lex, PairText(ms.m, after)) == Got(PairTree(ms.m), after)
    requires ms.MoreMembers? ==> MembersReadTo(lex, ms.more, rest)
    ensures MembersReadTo(lex, ms, rest)
  {
    var text := PairText(ms.m, ms.post + AfterMember(ms, rest));
    SkipsTo(ms.pre, text);
    if ms.LastMember? {
      MembersEnd(lex, text, PairTree(ms.m), ms.post, rest);
    } else {
      MembersGoOn(lex, text, PairTree(ms.m), ms.post, MembersText(ms.more, rest));
    }
  }

  lemma {:induction false} ReadsPair(lex: Lexer, m: CPair, rest: string)
    requires PairOk(lex, m, rest) && ReadsTo(lex, m.v, rest)
    ensures Pair(lex, PairText(m, rest)) == Got(PairTree(m), rest)
  {
    TextIsSolid(lex, m.v, rest);
    PairReads(lex, m.key, m.mid, m.mid', Text(m.v, rest), Tree(m.v), rest);
  }

  lemma {:induction false} ReadsValue(lex: Lexer, c: Cst, rest: string)
    requires Ok(lex, c, rest)
    ensures ReadsTo(lex, c, rest)
    decreases c, 2
  {
    match c
    case CArr(items) =>
      ReadsItems(lex, items, rest);
      ArrayFull(lex, ItemsText(items, rest), ItemTrees(items), rest);
    case CObj(members) =>
      ReadsMembers(lex, members, rest);
      ObjectFull(lex, MembersText(members, rest), MemberTrees(members), rest);
    case _ => ReadsLeaf(lex, c, rest);
  }

  lemma {:induction false} ReadsItems(lex: Lexer, cs: CItems, rest: string)
    requires ItemsOk(lex, cs, rest)
    ensures ItemsReadTo(lex, cs, rest)
    decreases cs, 1
  {
    ReadsValue(lex, cs.v, cs.post + AfterItem(cs, rest));
    TextIsSolid(lex, cs.v, cs.post + AfterItem(cs, rest));
    if cs.MoreItems? { ReadsItems(lex, cs.more, rest); }
    ReadsItem(lex, cs, rest);
  }

  lemma {:induction false} ReadsMembers(lex: Lexer, ms: CMembers, rest: string)
    requires MembersOk(lex, ms, rest)
    ensures MembersReadTo(lex, ms, rest)
    decreases ms, 1
  {
    ReadsValue(lex, ms.m.v, ms.post + AfterMember(ms, rest));
    ReadsPair(lex, ms.m, ms.post + AfterMember(ms, rest));
    if ms.MoreMembers? { ReadsMembers(lex, ms.more, rest); }
    ReadsMember(lex, ms, rest);
  }

  /** Parsing undoes writing, whatever white space was chosen. */
  lemma {:induction false} ReadsDocument(lex: Lexer, d: CDoc)
    requires DocOk(lex, d)
    ensures Document(lex, DocText(d)) == Accepted(Tree(d.v))
  {
    ReadsValue(lex, d.v, d.post);
    DocumentReads(lex, d.pre, Text(d.v, d.post), Tree(d.v), d.post);
  }

  lemma {:induction false} DocumentReads(lex: Lexer, pre: string, text: string, t: Json, post: string)
    requires Blank(pre) && Blank(post) && Value(lex, text) == Got(t, post)
    ensures Document(lex, pre + text) == Accepted(t)
  {
    ValueSkips(lex, pre, text);
    SkipsBlank(post, []);
    assert post + [] == post;
  }

  // ----- Whatever is read is a text of the grammar -----

  lemma {:induction false} BlankAppend(a: string, b: string)
    requires Blank(a) && Blank(b)
    ensures Blank(a + b)
  {
    if a == [] {
      assert a + b == b;
    } else {
      assert (a + b)[1..] == a[1..] + b;
      BlankAppend(a[1..], b);
    }
  }

  ghost predicate Writes(lex: Lexer, c: Cst, s: string, t: Json, rest: string) {
    s == Text(c, rest) && Ok(lex, c, rest) && Tree(c) == t
  }

  ghost predicate WritesItems(lex: Lexer, cs: CItems, s: string, ts: seq<Json>, rest: string) {
    s == ItemsText(cs, rest) && ItemsOk(lex, cs, rest) && ItemTrees(cs) == ts
  }

  ghost predicate WritesPair(lex: Lexer, m: CPair, s: string, t: Member, rest: string) {
    s == PairText(m, rest) && PairOk(lex, m, rest) && PairTree(m) == t
  }

  ghost predicate WritesMembers(lex: Lexer, ms: CMembers, s: string, ts: seq<Member>, rest: string) {
    s == MembersText(ms, rest) && MembersOk(lex, ms, rest) && MemberTrees(ms) == ts
  }

  /** White space and the character after it. */
  lemma Peel(s: string) returns (ws: string, c: char, tail: string)
    requires SkipBlank(s) != []
    ensures Blank(ws) && SkipBlank(s) == [c] + tail && c == SkipBlank(s)[0] && tail == SkipBlank(s)[1..]
    ensures s == ws + ([c] + tail)
  {
    ws := SkippedBlank(s);
    c, tail := SkipBlank(s)[0], SkipBlank(s)[1..];
  }

  lemma {:induction false} WordSound(lex: Lexer, s: string) returns (c: Cst)
    requires Solid(s) && s[0] in {'n', 't', 'f'} && Value(lex, s).Got?
    ensures Writes(lex, c, s, Value(lex, s).val, Value(lex, s).rest)
  {
    ValueOf(lex, s);
    if s[0] == 'n' {
      c := CNull;
      assert s == "null" + s[4..];
    } else if "true" <= s {
      c := CBool(true);
      assert s == "true" + s[4..];
    } else {
      c := CBool(false);
      assert s == "false" + s[5..];
    }
  }

  lemma {:induction false} StringSound(lex: Lexer, s: string) returns (c: Cst)
    requires Solid(s) && s[0] == '"' && Value(lex, s).Got?
    ensures Writes(lex, c, s, Value(lex, s).val, Value(lex, s).rest)
  {
    ValueOf(lex, s);
    RawStringSound(s);
    c := CStr(RawString(s).val);
  }

  lemma {:induction false} NumberSound(lex: Lexer, s: string) returns (c: Cst)
    requires Solid(s) && s[0] != 'n' && Number(lex, s).Got?
    ensures Writes(lex, c, s, Number(lex, s).val, Number(lex, s).rest)
  {
    var n := lex(s);
    assert s == s[..n] + s[n..];
    c := CNum(s[..n]);
  }

  /** The structure of a text that starts with a value. */
  lemma {:induction false} ValueSound(lex: Lexer, s: string) returns (c: Cst)
    requires Solid(s) && Value(lex, s).Got?
    ensures Writes(lex, c, s, Value(lex, s).val, Value(lex, s).rest)
    decreases |s|, 1
  {
    if s[0] in {'n', 't', 'f'} {
      c := WordSound(lex, s);
    } else if s[0] == '"' {
      c := StringSound(lex, s);
    } else if s[0] == '[' {
      c := ArraySound(lex, s);
    } else if s[0] == '{' {
      c := ObjectSound(lex, s);
    } else {
      c := NumberSound(lex, s);
    }
  }

  lemma {:induction false} NoItemsSound(lex: Lexer, s: string) returns (c: Cst)
    requires Solid(s) && s[0] == '[' && SkipBlank(s[1..]) != [] && SkipBlank(s[1..])[0] == ']'
    ensures Value(lex, s).Got? && Writes(lex, c, s, Value(lex, s).val, Value(lex, s).rest)
  {
    NoItemsRead(lex, s);
    var ws, _, rest := Peel(s[1..]);
    c := CNoItems(ws);
    assert s == "[" + s[1..];
  }

  lemma NoItemsRead(lex: Lexer, s: string)
    requires Solid(s) && s[0] == '[' && SkipBlank(s[1..]) != [] && SkipBlank(s[1..])[0] == ']'
    ensures Value(lex, s) == Got(JArr([]), SkipBlank(s[1..])[1..])
  {
    ValueOf(lex, s);
  }

  lemma ArrayUnfolds(lex: Lexer, s: string)
    requires Solid(s) && s[0] == '[' && Value(lex, s).Got?
    requires !(SkipBlank(s[1..]) != [] && SkipBlank(s[1..])[0] == ']')
    ensures var r := Items(lex, SkipBlank(s[1..])); r.Got? && Value(lex, s) == Got(JArr(r.val), r.rest)
  {
    ValueOf(lex, s);
  }

  lemma {:induction false} ArrayWrites(lex: Lexer, cs: CItems, s: string, ts: seq<Json>, rest: string)
    requires s != [] && s[0] == '[' && WritesItems(lex, cs, s[1..], ts, rest)
    ensures Writes(lex, CArr(cs), s, JArr(ts), rest)
  {
    assert s == "[" + s[1..];
  }

  lemma {:induction false} ArraySound(lex: Lexer, s: string) returns (c: Cst)
    requires Solid(s) && s[0] == '[' && Value(lex, s).Got?
    ensures Writes(lex, c, s, Value(lex, s).val, Value(lex, s).rest)
    decreases |s|, 0
  {
    if SkipBlank(s[1..]) != [] && SkipBlank(s[1..])[0] == ']' {
      c := NoItemsSound(lex, s);
    } else {
      ArrayUnfolds(lex, s);
      var ws := SkippedBlank(s[1..]);
      var r := Items(lex, SkipBlank(s[1..]));
      var cs := ItemsSound(lex, ws, SkipBlank(s[1..]));
      ArrayWrites(lex, cs, s, r.val, r.rest);
      c := CArr(cs);
    }
  }

  lemma {:induction false} LastItemWrites(lex: Lexer, pre: string, v: Cst, post: string, s: string, t: Json, rest: string)
    requires Blank(pre) && Blank(post) && Writes(lex, v, s, t, post + ("]" + rest))
    ensures WritesItems(lex, LastItem(pre, v, post), pre + s, [t], rest)
  {
  }

  lemma {:induction false} MoreItemsWrite(lex: Lexer, pre: string, v: Cst, post: string, cs: CItems, s: string, t: Json, s': string, ts: seq<Json>, rest: string)
    requires Blank(pre) && Blank(post) && Writes(lex, v, s, t, post + ("," + s')) && WritesItems(lex, cs, s', ts, rest)
    ensures WritesItems(lex, MoreItems(pre, v, post, cs), pre + s, [t] + ts, rest)
  {
  }

  lemma Assoc(a: string, b: string, c: string)
    ensures a + b + c == a + (b + c)
  {
  }

  lemma GrowBlank(ws: string, s: string) returns (pre: string)
    requires Blank(ws)
    ensures Blank(pre) && ws + s == pre + SkipBlank(s)
  {
    var skipped := SkippedBlank(s);
    BlankAppend(ws, skipped);
    pre := ws + skipped;
    Assoc(ws, skipped, SkipBlank(s));
  }

  lemma SkippedValue(lex: Lexer, s: string)
    requires Value(lex, s).Got?
    ensures Solid(SkipBlank(s)) && Value(lex, SkipBlank(s)) == Value(lex, s)
  {
    SkipTwice(s);
  }

  /** The text before the first item may be chosen as long as it is blank. */
  lemma {:induction false} ItemsSound(lex: Lexer, ws: string, s: string) returns (cs: CItems)
    requires Blank(ws) && Items(lex, s).Got?
    ensures WritesItems(lex, cs, ws + s, Items(lex, s).val, Items(lex, s).rest)
    decreases |s|, 2
  {
    var pre := GrowBlank(ws, s);
    SkippedValue(lex, s);
    var v := ValueSound(lex, SkipBlank(s));
    var t, first := Value(lex, s).val, SkipBlank(s);
    var post, c, tail := Peel(Value(lex, s).rest);
    if c == ']' {
      LastItemWrites(lex, pre, v, post, first, t, tail);
      cs := LastItem(pre, v, post);
    } else {
      var gap := SkippedBlank(tail);
      var more := ItemsSound(lex, gap, SkipBlank(tail));
      var r := Items(lex, SkipBlank(tail));
      MoreItemsWrite(lex, pre, v, post, more, first, t, tail, r.val, r.rest);
      cs := MoreItems(pre, v, post, more);
    }
  }

  lemma {:induction false} NoMembersSound(lex: Lexer, s: string) returns (c: Cst)
    requires Solid(s) && s[0] == '{' && SkipBlank(s[1..]) != [] && SkipBlank(s[1..])[0] == '}'
    ensures Value(lex, s).Got? && Writes(lex, c, s, Value(lex, s).val, Value(lex, s).rest)
  {
    NoMembersRead(lex, s);
    var ws, _, rest := Peel(s[1..]);
    c := CNoMembers(ws);
    assert s == "{" + s[1..];
  }

  lemma NoMembersRead(lex: Lexer, s: string)
    requires Solid(s) && s[0] == '{' && SkipBlank(s[1..]) != [] && SkipBlank(s[1..])[0] == '}'
    ensures Value(lex, s) == Got(JObj([]), SkipBlank(s[1..])[1..])
  {
    ValueOf(lex, s);
  }

  lemma ObjectUnfolds(lex: Lexer, s: string)
    requires Solid(s) && s[0] == '{' && Value(lex, s).Got?
    requires !(SkipBlank(s[1..]) != [] && SkipBlank(s[1..])[0] == '}')
    ensures var r := Members(lex, SkipBlank(s[1..])); r.Got? && Value(lex, s) == Got(JObj(r.val), r.rest)
  {
    ValueOf(lex, s);
  }

  lemma {:induction false} ObjectWrites(lex: Lexer, cs: CMembers, s: string, ts: seq<Member>, rest: string)
    requires s != [] && s[0] == '{' && WritesMembers(lex, cs, s[1..], ts, rest)
    ensures Writes(lex, CObj(cs), s, JObj(ts), rest)
  {
    assert s == "{" + s[1..];
  }

  lemma {:induction false} ObjectSound(lex: Lexer, s: string) returns (c: Cst)
    requires Solid(s) && s[0] == '{' && Value(lex, s).Got?
    ensures Writes(lex, c, s, Value(lex, s).val, Value(lex, s).rest)
    decreases |s|, 0
  {
    if SkipBlank(s[1..]) != [] && SkipBlank(s[1..])[0] == '}' {
      c := NoMembersSound(lex, s);
    } else {
      ObjectUnfolds(lex, s);
      var ws := SkippedBlank(s[1..]);
      var r := Members(lex, SkipBlank(s[1..]));
      var cs := MembersSound(lex, ws, SkipBlank(s[1..]));
      ObjectWrites(lex, cs, s, r.val, r.rest);
      c := CObj(cs);
    }
  }

  lemma PairUnfolds(lex: Lexer, s: string)
    requires Pair(lex, s).Got?
    ensures var r := RawString(s); r.Got? && SkipBlank(r.rest) != [] && SkipBlank(r.rest)[0] == ':' && |r.rest| < |s|
    ensures var r := RawString(s); var v := Value(lex, SkipBlank(SkipBlank(r.rest)[1..]));
      v.Got? && Pair(lex, s) == Got(Member(r.val, v.val), v.rest)
  {
  }

  lemma {:induction false} PairWrites(lex: Lexer, m: CPair, s: string, value: string, t: Json, rest: string)
    requires Raw(m.key) && Blank(m.mid) && Blank(m.mid') && Writes(lex, m.v, value, t, rest)
    requires s == "\"" + m.key + "\"" + (m.mid + (":" + (m.mid' + value)))
    ensures WritesPair(lex, m, s, Member(m.key, t), rest)
  {
  }

  lemma {:induction false} PairSound(lex: Lexer, s: string) returns (m: CPair)
    requires Pair(lex, s).Got?
    ensures WritesPair(lex, m, s, Pair(lex, s).val, Pair(lex, s).rest)
    decreases |s|, 2
  {
    PairUnfolds(lex, s);
    RawStringSound(s);
    var mid, _, tail := Peel(RawString(s).rest);
    var mid' := SkippedBlank(tail);
    var value := SkipBlank(tail);
    SkippedValue(lex, value);
    SkipTwice(tail);
    var v := ValueSound(lex, value);
    m := CPair(RawString(s).val, mid, mid', v);
    PairWrites(lex, m, s, value, Value(lex, value).val, Value(lex, value).rest);
  }

  lemma {:induction false} LastMemberWrites(lex: Lexer, pre: string, m: CPair, post: string, s: string, t: Member, rest: string)
    requires Blank(pre) && Blank(post) && WritesPair(lex, m, s, t, post + ("}" + rest))
    ensures WritesMembers(lex, LastMember(pre, m, post), pre + s, [t], rest)
  {
  }

  lemma {:induction false} MoreMembersWrite(lex: Lexer, pre: string, m: CPair, post: string, ms: CMembers, s: string, t: Member, s': string, ts: seq<Member>, rest: string)
    requires Blank(pre) && Blank(post) && WritesPair(lex, m, s, t, post + ("," + s')) && WritesMembers(lex, ms, s', ts, rest)
    ensures WritesMembers(lex, MoreMembers(pre, m, post, ms), pre + s, [t] + ts, rest)
  {
  }

  lemma {:induction false} MembersSound(lex: Lexer, ws: string, s: string) returns (ms: CMembers)
    requires Blank(ws) && Members(lex, s).Got?
    ensures WritesMembers(lex, ms, ws + s, Members(lex, s).val, Members(lex, s).rest)
    decreases |s|, 3
  {
    var m := PairSound(lex, s);
    var t := Pair(lex, s).val;
    var post, c, tail := Peel(Pair(lex, s).rest);
    if c == '}' {
      LastMemberWrites(lex, ws, m, post, s, t, tail);
      ms := LastMember(ws, m, post);
    } else {
      var gap := SkippedBlank(tail);
      var more := MembersSound(lex, gap, SkipBlank(tail));
      var r := Members(lex, SkipBlank(tail));
      MoreMembersWrite(lex, ws, m, post, more, s, t, tail, r.val, r.rest);
      ms := MoreMembers(ws, m, post, more);
    }
  }

  lemma {:induction false} DocumentSound(lex: Lexer, s: string) returns (d: CDoc)
    requires Document(lex, s).Accepted?
    ensures DocText(d) == s && DocOk(lex, d) && Tree(d.v) == Document(lex, s).t
  {
    SkippedValue(lex, s);
    var pre := SkippedBlank(s);
    var v := ValueSound(lex, SkipBlank(s));
    var post := SkippedBlank(Value(lex, s).rest);
    assert post + [] == post;
    d := CDoc(pre, v, post);
  }

  ghost predicate Derives(lex: Lexer, d: CDoc, s: string, t: Json) {
    DocText(d) == s && DocOk(lex, d) && Tree(d.v) == t
  }

  /** A text is accepted with a tree exactly when the grammar derives it with that tree. */
  lemma {:induction false} AcceptsExactlyTheGrammar(lex: Lexer, s: string, t: Json)
    ensures Document(lex, s) == Accepted(t) <==> exists d :: Derives(lex, d, s, t)
  {
    if Document(lex, s) == Accepted(t) {
      var d := DocumentSound(lex, s);
      assert Derives(lex, d, s, t);
    }
    if exists d :: Derives(lex, d, s, t) {
      var d :| Derives(lex, d, s, t);
      ReadsDocument(lex, d);
    }
  }

  /** The grammar is not ambiguous: a text has one tree. */
  lemma {:induction false} OneTree(lex: Lexer, d: CDoc, d': CDoc)
    requires DocOk(lex, d) && DocOk(lex, d') && DocText(d) == DocText(d')
    ensures Tree(d.v) == Tree(d'.v)
  {
    ReadsDocument(lex, d);
    ReadsDocument(lex, d');
  }
}
