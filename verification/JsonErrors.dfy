/**
 Where a rejected text goes wrong: what stands before the error position is the beginning of an
 accepted text.
 */
module JsonErrors {
  import opened JsonGrammar
  import opened JsonTheorems

  /** Characters that words and numbers of the C library are made of. */
  predicate InLexeme(c: char) {
    '0' <= c <= '9' || 'a' <= c <= 'z' || 'A' <= c <= 'Z' || c == '+' || c == '-' || c == '.' || c == '_' || c == '(' || c == ')'
  }

  /** A text at which a number ends: nothing, white space, or punctuation. */
  predicate Stops(rest: string) {
    rest == [] || !InLexeme(rest[0])
  }

  /** A number that the reader reads, it also reads when the text stops right after it. */
  ghost predicate Stable(lex: Lexer) {
    forall a: string, b: string, d: string :: a != [] && lex(a + b) == |a| && Stops(d) ==> lex(a + d) == |a|
  }

  lemma BlankStops(ws: string, rest: string)
    requires Blank(ws) && Stops(rest)
    ensures Stops(ws + rest)
  {
    if ws == [] { assert ws + rest == rest; }
  }

  // ----- Values in front of another text -----

  lemma {:induction false} OkMoves(lex: Lexer, c: Cst, f: string, f': string)
    requires Stable(lex) && Ok(lex, c, f) && Stops(f')
    ensures Ok(lex, c, f')
    decreases c, 2
  {
    match c
    case CNum(lexeme) => assert lex(lexeme + f) == |lexeme|; assert lex(lexeme + f') == |lexeme|;
    case CArr(items) => ItemsOkMoves(lex, items, f, f');
    case CObj(members) => MembersOkMoves(lex, members, f, f');
    case _ =>
  }

  lemma {:induction false} ItemsOkMoves(lex: Lexer, cs: CItems, f: string, f': string)
    requires Stable(lex) && ItemsOk(lex, cs, f)
    ensures ItemsOk(lex, cs, f')
    decreases cs, 1
  {
    BlankStops(cs.post, AfterItem(cs, f'));
    OkMoves(lex, cs.v, cs.post + AfterItem(cs, f), cs.post + AfterItem(cs, f'));
    if cs.MoreItems? { ItemsOkMoves(lex, cs.more, f, f'); }
  }

  lemma {:induction false} MembersOkMoves(lex: Lexer, ms: CMembers, f: string, f': string)
    requires Stable(lex) && MembersOk(lex, ms, f)
    ensures MembersOk(lex, ms, f')
    decreases ms, 1
  {
    BlankStops(ms.post, AfterMember(ms, f'));
    OkMoves(lex, ms.m.v, ms.post + AfterMember(ms, f), ms.post + AfterMember(ms, f'));
    if ms.MoreMembers? { MembersOkMoves(lex, ms.more, f, f'); }
  }

  /** What follows a value is just put behind it. */
  lemma {:induction false} TextAppend(c: Cst, x: string, r: string)
    ensures Text(c, x + r) == Text(c, x) + r
    decreases c, 2
  {
    match c
    case CNull => Assoc("null", x, r);
    case CBool(b) => Assoc(if b then "true" else "false", x, r);
    case CNum(lexeme) => Assoc(lexeme, x, r);
    case CStr(raw) => Assoc("\"" + raw + "\"", x, r);
    case CNoItems(ws) => AssocFour("[", ws, "]", x, r);
    case CArr(items) =>
      ItemsAppend(items, x, r);
      Assoc("[", ItemsText(items, x), r);
    case CNoMembers(ws) => AssocFour("{", ws, "}", x, r);
    case CObj(members) =>
      MembersAppend(members, x, r);
      Assoc("{", MembersText(members, x), r);
  }

  lemma AssocFour(a: string, b: string, c: string, d: string, e: string)
    ensures a + (b + (c + (d + e))) == a + (b + (c + d)) + e
  {
  }

  lemma {:induction false} ItemsAppend(cs: CItems, x: string, r: string)
    ensures ItemsText(cs, x + r) == ItemsText(cs, x) + r && AfterItem(cs, x + r) == AfterItem(cs, x) + r
    decreases cs, 1
  {
    if cs.LastItem? {
      Assoc("]", x, r);
    } else {
      ItemsAppend(cs.more, x, r);
      Assoc(",", ItemsText(cs.more, x), r);
    }
    Assoc(cs.post, AfterItem(cs, x), r);
    TextAppend(cs.v, cs.post + AfterItem(cs, x), r);
    Assoc(cs.pre, Text(cs.v, cs.post + AfterItem(cs, x)), r);
  }

  lemma {:induction false} PairAppend(m: CPair, x: string, r: string)
    ensures PairText(m, x + r) == PairText(m, x) + r
    decreases m, 3
  {
    TextAppend(m.v, x, r);
    AssocFour("\"" + m.key + "\"", m.mid, ":", m.mid' + Text(m.v, x), r);
    Assoc(m.mid', Text(m.v, x), r);
  }

  lemma {:induction false} MembersAppend(ms: CMembers, x: string, r: string)
    ensures MembersText(ms, x + r) == MembersText(ms, x) + r && AfterMember(ms, x + r) == AfterMember(ms, x) + r
    decreases ms, 1
  {
    if ms.LastMember? {
      Assoc("}", x, r);
    } else {
      MembersAppend(ms.more, x, r);
      Assoc(",", MembersText(ms.more, x), r);
    }
    Assoc(ms.post, AfterMember(ms, x), r);
    PairAppend(ms.m, ms.post + AfterMember(ms, x), r);
    Assoc(ms.pre, PairText(ms.m, ms.post + AfterMember(ms, x)), r);
  }

  // ----- Where parsing stops, and how the text before could go on -----

  /** The parser stopped in `s` before `rest`, after `pre`, and not at white space. */
  ghost predicate Cut(s: string, pre: string, rest: string) {
    s == pre + rest && (rest != [] ==> Solid(rest))
  }

  /** `pre` continued by `w` is a value, whatever `follow` comes next. */
  ghost predicate Mends(lex: Lexer, c: Cst, pre: string, w: string, follow: string) {
    Ok(lex, c, follow) && Text(c, follow) == pre + (w + follow)
  }

  ghost predicate MendsItems(lex: Lexer, cs: CItems, pre: string, w: string, follow: string) {
    ItemsOk(lex, cs, follow) && ItemsText(cs, follow) == pre + (w + follow)
  }

  ghost predicate MendsPair(lex: Lexer, m: CPair, pre: string, w: string, follow: string) {
    PairOk(lex, m, follow) && PairText(m, follow) == pre + (w + follow)
  }

  ghost predicate MendsMembers(lex: Lexer, ms: CMembers, pre: string, w: string, follow: string) {
    MembersOk(lex, ms, follow) && MembersText(ms, follow) == pre + (w + follow)
  }

  /** A string that is not closed becomes one with a quote, or two after a lone backslash. */
  lemma {:induction false} Unclosed(s: string) returns (raw: string, w: string)
    requires RawLen(s) == |s|
    ensures Raw(raw) && raw + "\"" == s + w
  {
    if s == [] {
      raw, w := [], "\"";
    } else if s[0] == '\\' && |s| > 1 {
      var r, v := Unclosed(s[2..]);
      raw, w := s[..2] + r, v;
      assert raw[2..] == r && s == s[..2] + s[2..];
      Assoc(s[..2], r, "\"");
      Assoc(s[..2], s[2..], v);
    } else if s[0] == '\\' {
      raw, w := s + "\"", "\"\"";
      assert raw[2..] == [];
    } else {
      var r, v := Unclosed(s[1..]);
      raw, w := [s[0]] + r, v;
      assert raw[1..] == r && s == [s[0]] + s[1..];
      Assoc([s[0]], r, "\"");
      Assoc([s[0]], s[1..], v);
    }
  }

  lemma UnclosedString(s: string) returns (raw: string, w: string)
    requires s != [] && s[0] == '"' && RawString(s).Fail?
    ensures RawString(s).rest == [] && Raw(raw) && "\"" + raw + "\"" == s + w
  {
    raw, w := Unclosed(s[1..]);
    assert s == "\"" + s[1..];
    Assoc("\"", s[1..], w);
    Assoc("\"", raw, "\"");
  }

  /** A value is expected and none begins: the words and numbers count from their first character. */
  lemma NothingRead(lex: Lexer, s: string, follow: string)
    requires SkipBlank(s) == s && Value(lex, s).Fail? && (s != [] ==> s[0] != '"' && s[0] != '[' && s[0] != '{')
    ensures Cut(s, [], Value(lex, s).rest) && Mends(lex, CNull, [], "null", follow)
  {
    SkipTwice(s);
    NothingMoves(lex, s);
    Nothing(s);
    Nothing("null" + follow);
  }

  lemma Nothing(s: string)
    ensures [] + s == s && s + [] == s
  {
  }

  lemma NothingMoves(lex: Lexer, s: string)
    requires SkipBlank(s) == s && Value(lex, s).Fail? && (s != [] ==> s[0] != '"' && s[0] != '[' && s[0] != '{')
    ensures Value(lex, s).rest == s
  {
  }

  lemma StringCut(lex: Lexer, s: string, follow: string) returns (c: Cst, w: string)
    requires Solid(s) && s[0] == '"' && Value(lex, s).Fail?
    ensures Cut(s, s, Value(lex, s).rest) && Mends(lex, c, s, w, follow)
  {
    ValueOf(lex, s);
    var raw;
    raw, w := UnclosedString(s);
    c := CStr(raw);
    assert s + [] == s;
    Assoc(s, w, follow);
  }

  lemma {:induction false} ValueCut(lex: Lexer, s: string, follow: string) returns (c: Cst, pre: string, w: string)
    requires Stable(lex) && Stops(follow) && SkipBlank(s) == s && Value(lex, s).Fail?
    ensures Cut(s, pre, Value(lex, s).rest) && Mends(lex, c, pre, w, follow)
    decreases |s|, 1
  {
    SkipTwice(s);
    if s != [] && s[0] == '"' {
      c, w := StringCut(lex, s, follow);
      pre := s;
    } else if s != [] && s[0] == '[' {
      c, pre, w := ArrayCut(lex, s, follow);
    } else if s != [] && s[0] == '{' {
      c, pre, w := ObjectCut(lex, s, follow);
    } else {
      NothingRead(lex, s, follow);
      c, pre, w := CNull, [], "null";
    }
  }

  lemma ArrayFails(lex: Lexer, s: string)
    requires Solid(s) && s[0] == '[' && Value(lex, s).Fail?
    ensures var r := Items(lex, SkipBlank(s[1..])); r.Fail? && r.rest == Value(lex, s).rest
  {
    ValueOf(lex, s);
  }

  lemma {:induction false} ArrayCut(lex: Lexer, s: string, follow: string) returns (c: Cst, pre: string, w: string)
    requires Stable(lex) && Stops(follow) && Solid(s) && s[0] == '[' && Value(lex, s).Fail?
    ensures Cut(s, pre, Value(lex, s).rest) && Mends(lex, c, pre, w, follow)
    decreases |s|, 0
  {
    ArrayFails(lex, s);
    var ws := SkippedBlank(s[1..]);
    SkipTwice(s[1..]);
    var cs, p, v := ItemsCut(lex, ws, SkipBlank(s[1..]), follow);
    ArrayMends(lex, cs, s, p, v, Value(lex, s).rest, follow);
    c, pre, w := CArr(cs), "[" + p, v;
  }

  lemma ArrayMends(lex: Lexer, cs: CItems, s: string, p: string, w: string, rest: string, follow: string)
    requires s != [] && s[0] == '[' && Cut(s[1..], p, rest) && MendsItems(lex, cs, p, w, follow)
    ensures Cut(s, "[" + p, rest) && Mends(lex, CArr(cs), "[" + p, w, follow)
  {
    assert s == "[" + s[1..];
    Assoc("[", p, rest);
    Assoc("[", p, w + follow);
  }

  /** The first item could not be read. */
  lemma FirstItemMends(lex: Lexer, ws: string, c: Cst, p: string, w: string, follow: string)
    requires Blank(ws) && Mends(lex, c, p, w, "]" + follow)
    ensures MendsItems(lex, LastItem(ws, c, []), ws + p, w + "]", follow)
  {
    Nothing("]" + follow);
    Assoc(ws, p, w + ("]" + follow));
    Assoc(w, "]", follow);
  }

  /** An item was read, and no bracket or comma follows: a bracket would do. */
  lemma LastItemMends(lex: Lexer, ws: string, v: Cst, post: string, follow: string)
    requires Blank(ws) && Blank(post) && Ok(lex, v, post + ("]" + follow))
    ensures MendsItems(lex, LastItem(ws, v, post), ws + (Text(v, []) + post), "]", follow)
  {
    TextAppend(v, [], post + ("]" + follow));
    Nothing(post + ("]" + follow));
    Threefold(ws, Text(v, []), post, "]" + follow);
  }

  /** The items after a comma could not be read. */
  lemma MoreItemsMend(lex: Lexer, ws: string, v: Cst, post: string, cs: CItems, p: string, w: string, follow: string)
    requires Blank(ws) && Blank(post) && Ok(lex, v, post + ("," + ItemsText(cs, follow))) && MendsItems(lex, cs, p, w, follow)
    ensures MendsItems(lex, MoreItems(ws, v, post, cs), ws + (Text(v, []) + (post + ("," + p))), w, follow)
  {
    var next := "," + ItemsText(cs, follow);
    TextAppend(v, [], post + next);
    Nothing(post + next);
    Regrouped(ws, Text(v, []), post, p, w + follow);
  }

  /** What was read of a value, without what follows it. */
  lemma {:induction false} ReadOf(lex: Lexer, s: string, follow: string) returns (v: Cst)
    requires Stable(lex) && Stops(follow) && SkipBlank(s) == s && Value(lex, s).Got?
    ensures s == Text(v, []) + Value(lex, s).rest && Ok(lex, v, follow)
  {
    SkippedValue(lex, s);
    v := ValueSound(lex, s);
    var after := Value(lex, s).rest;
    TextAppend(v, [], after);
    assert [] + after == after;
    OkMoves(lex, v, after, follow);
  }

  lemma {:induction false} ItemsCut(lex: Lexer, ws: string, s: string, follow: string) returns (cs: CItems, pre: string, w: string)
    requires Stable(lex) && Stops(follow) && Blank(ws) && SkipBlank(s) == s && Items(lex, s).Fail?
    ensures Cut(ws + s, pre, Items(lex, s).rest) && MendsItems(lex, cs, pre, w, follow)
    decreases |s|, 2
  {
    if Value(lex, s).Fail? {
      var c, p, v := ValueCut(lex, s, "]" + follow);
      FirstItemMends(lex, ws, c, p, v, follow);
      cs, pre, w := LastItem(ws, c, []), ws + p, v + "]";
      Assoc(ws, p, Value(lex, s).rest);
    } else {
      cs, pre, w := NextItemCut(lex, ws, s, follow);
    }
  }

  lemma ItemsFail(lex: Lexer, s: string)
    requires Value(lex, s).Got? && Items(lex, s).Fail?
    ensures var u := SkipBlank(Value(lex, s).rest);
      if u != [] && u[0] == ',' then
        Items(lex, SkipBlank(u[1..])).Fail? && Items(lex, s).rest == Items(lex, SkipBlank(u[1..])).rest && |u| < |s|
      else Items(lex, s).rest == u
  {
  }

  lemma {:induction false} NextItemCut(lex: Lexer, ws: string, s: string, follow: string) returns (cs: CItems, pre: string, w: string)
    requires Stable(lex) && Stops(follow) && Blank(ws) && SkipBlank(s) == s && Items(lex, s).Fail? && Value(lex, s).Got?
    ensures Cut(ws + s, pre, Items(lex, s).rest) && MendsItems(lex, cs, pre, w, follow)
    decreases |s|, 1
  {
    ItemsFail(lex, s);
    var u := SkipBlank(Value(lex, s).rest);
    if u != [] && u[0] == ',' {
      SkipTwice(u[1..]);
      var more, p, x := ItemsCut(lex, SkippedBlank(u[1..]), SkipBlank(u[1..]), follow);
      cs, pre := MoreItemsCut(lex, ws, s, more, p, x, Items(lex, s).rest, follow);
      w := x;
    } else {
      cs, pre := LastItemCut(lex, ws, s, follow);
      w := "]";
    }
  }

  /** An item that was read, in front of the white space behind it and another text. */
  lemma {:induction false} ItemBefore(lex: Lexer, s: string, next: string) returns (v: Cst, post: string)
    requires Stable(lex) && SkipBlank(s) == s && Value(lex, s).Got? && Stops(next)
    ensures Blank(post) && Ok(lex, v, post + next) && s == Text(v, []) + (post + SkipBlank(Value(lex, s).rest))
  {
    post := SkippedBlank(Value(lex, s).rest);
    BlankStops(post, next);
    v := ReadOf(lex, s, post + next);
  }

  lemma {:induction false} MoreItemsCut(lex: Lexer, ws: string, s: string, more: CItems, p: string, w: string, rest: string, follow: string)
    returns (cs: CItems, pre: string)
    requires Stable(lex) && Blank(ws) && SkipBlank(s) == s && Value(lex, s).Got? && MendsItems(lex, more, p, w, follow)
    requires var u := SkipBlank(Value(lex, s).rest); u != [] && u[0] == ',' && Cut(u[1..], p, rest)
    ensures Cut(ws + s, pre, rest) && MendsItems(lex, cs, pre, w, follow)
  {
    var v, post := ItemBefore(lex, s, "," + ItemsText(more, follow));
    MoreItemsMend(lex, ws, v, post, more, p, w, follow);
    CutLater(ws, s, Text(v, []), post, SkipBlank(Value(lex, s).rest), p, rest);
    cs, pre := MoreItems(ws, v, post, more), ws + (Text(v, []) + (post + ("," + p)));
  }

  lemma {:induction false} LastItemCut(lex: Lexer, ws: string, s: string, follow: string) returns (cs: CItems, pre: string)
    requires Stable(lex) && Blank(ws) && SkipBlank(s) == s && Value(lex, s).Got?
    ensures Cut(ws + s, pre, SkipBlank(Value(lex, s).rest)) && MendsItems(lex, cs, pre, "]", follow)
  {
    var v, post := ItemBefore(lex, s, "]" + follow);
    LastItemMends(lex, ws, v, post, follow);
    SkipTwice(Value(lex, s).rest);
    CutHere(ws, s, Text(v, []), post, SkipBlank(Value(lex, s).rest));
    cs, pre := LastItem(ws, v, post), ws + (Text(v, []) + post);
  }

  lemma CutHere(ws: string, s: string, body: string, post: string, u: string)
    requires s == body + (post + u) && (u != [] ==> Solid(u))
    ensures Cut(ws + s, ws + (body + post), u)
  {
    Assoc(body, post, u);
    Assoc(ws, body + post, u);
  }

  lemma CutLater(ws: string, s: string, body: string, post: string, u: string, p: string, rest: string)
    requires s == body + (post + u) && u != [] && u[0] == ',' && Cut(u[1..], p, rest)
    ensures Cut(ws + s, ws + (body + (post + ("," + p))), rest)
  {
    assert u == "," + u[1..];
    Regrouped(ws, body, post, p, rest);
  }

  lemma Threefold(a: string, b: string, c: string, d: string)
    ensures a + (b + (c + d)) == a + (b + c) + d
  {
  }

  lemma Regrouped(a: string, b: string, c: string, d: string, e: string)
    ensures a + (b + (c + ("," + (d + e)))) == a + (b + (c + ("," + d))) + e
  {
  }

  // ----- Objects -----

  lemma ObjectFails(lex: Lexer, s: string)
    requires Solid(s) && s[0] == '{' && Value(lex, s).Fail?
    ensures var r := Members(lex, SkipBlank(s[1..])); r.Fail? && r.rest == Value(lex, s).rest
  {
    ValueOf(lex, s);
  }

  lemma {:induction false} ObjectCut(lex: Lexer, s: string, follow: string) returns (c: Cst, pre: string, w: string)
    requires Stable(lex) && Stops(follow) && Solid(s) && s[0] == '{' && Value(lex, s).Fail?
    ensures Cut(s, pre, Value(lex, s).rest) && Mends(lex, c, pre, w, follow)
    decreases |s|, 0
  {
    ObjectFails(lex, s);
    var ws := SkippedBlank(s[1..]);
    SkipTwice(s[1..]);
    var ms, p, v := MembersCut(lex, ws, SkipBlank(s[1..]), follow);
    ObjectMends(lex, ms, s, p, v, Value(lex, s).rest, follow);
    c, pre, w := CObj(ms), "{" + p, v;
  }

  lemma ObjectMends(lex: Lexer, ms: CMembers, s: string, p: string, w: string, rest: string, follow: string)
    requires s != [] && s[0] == '{' && Cut(s[1..], p, rest) && MendsMembers(lex, ms, p, w, follow)
    ensures Cut(s, "{" + p, rest) && Mends(lex, CObj(ms), "{" + p, w, follow)
  {
    assert s == "{" + s[1..];
    Assoc("{", p, rest);
    Assoc("{", p, w + follow);
  }

  /** A key is expected and there is none. */
  lemma NoKey(lex: Lexer, s: string, follow: string)
    requires SkipBlank(s) == s && (s == [] || s[0] != '"')
    ensures Pair(lex, s) == Fail(s) && Cut(s, [], s)
    ensures MendsPair(lex, CPair([], [], [], CNull), [], "\"\":null", follow)
  {
    SkipTwice(s);
    Nothing(s);
    EmptyKey(follow);
  }

  lemma EmptyKey(follow: string)
    ensures PairText(CPair([], [], [], CNull), follow) == [] + ("\"\":null" + follow)
  {
    var word := "null" + follow;
    Nothing(word);
    Nothing(":" + word);
    Nothing("\"\":null" + follow);
    assert "\"" + [] + "\"" == "\"\"" && "\"\"" + ":" == "\"\":" && "\"\":" + "null" == "\"\":null";
    Assoc("\"\"", ":", word);
    Assoc("\"\":", "null", follow);
  }

  /** A key that is not closed. */
  lemma OpenKey(lex: Lexer, s: string, follow: string) returns (m: CPair, w: string)
    requires s != [] && s[0] == '"' && RawString(s).Fail?
    ensures Pair(lex, s) == Fail([]) && Cut(s, s, []) && MendsPair(lex, m, s, w, follow)
  {
    var raw, v := UnclosedString(s);
    m, w := CPair(raw, [], [], CNull), v + ":null";
    var quoted, rest := "\"" + raw + "\"", ":" + ("null" + follow);
    assert PairText(m, follow) == quoted + rest;
    assert rest == ":null" + follow && s + [] == s;
    Assoc(s, v, ":null" + follow);
    Assoc(v, ":null", follow);
  }

  /** A key without a colon. */
  lemma NoColon(lex: Lexer, s: string, follow: string) returns (m: CPair, pre: string)
    requires RawString(s).Got? && (SkipBlank(RawString(s).rest) == [] || SkipBlank(RawString(s).rest)[0] != ':')
    ensures Pair(lex, s) == Fail(SkipBlank(RawString(s).rest))
    ensures Cut(s, pre, SkipBlank(RawString(s).rest)) && MendsPair(lex, m, pre, ":null", follow)
  {
    RawStringSound(s);
    var k := RawString(s);
    SkipTwice(k.rest);
    m, pre := ColonMends(lex, k.val, SkippedBlank(k.rest), follow);
    Assoc("\"" + k.val + "\"", SkippedBlank(k.rest), SkipBlank(k.rest));
  }

  lemma ColonMends(lex: Lexer, key: string, mid: string, follow: string) returns (m: CPair, pre: string)
    requires Raw(key) && Blank(mid)
    ensures pre == "\"" + key + "\"" + mid && MendsPair(lex, m, pre, ":null", follow)
  {
    m, pre := CPair(key, mid, [], CNull), "\"" + key + "\"" + mid;
    Assoc("\"" + key + "\"", mid, ":null" + follow);
    ColonNull(follow);
  }

  lemma ColonNull(follow: string)
    ensures ":" + ([] + ("null" + follow)) == ":null" + follow
  {
    Nothing("null" + follow);
  }

  lemma PairFails(lex: Lexer, s: string)
    requires Pair(lex, s).Fail? && RawString(s).Got? && SkipBlank(RawString(s).rest) != [] && SkipBlank(RawString(s).rest)[0] == ':'
    ensures var value := SkipBlank(SkipBlank(RawString(s).rest)[1..]);
      Value(lex, value).Fail? && Value(lex, value).rest == Pair(lex, s).rest && |value| < |s| && SkipBlank(value) == value
  {
    SkipTwice(SkipBlank(RawString(s).rest)[1..]);
  }

  /** A key and a colon, and a value that stops. */
  lemma BadValueMends(lex: Lexer, m: CPair, p: string, w: string, follow: string)
    requires Raw(m.key) && Blank(m.mid) && Blank(m.mid') && Mends(lex, m.v, p, w, follow)
    ensures MendsPair(lex, m, "\"" + m.key + "\"" + (m.mid + (":" + (m.mid' + p))), w, follow)
  {
    Fivefold("\"" + m.key + "\"", m.mid, m.mid', p, w + follow);
  }

  lemma Fivefold(a: string, b: string, c: string, d: string, e: string)
    ensures a + (b + (":" + (c + (d + e)))) == a + (b + (":" + (c + d))) + e
  {
  }

  lemma BadValueCut(s: string, quoted: string, mid: string, mid': string, value: string, p: string, rest: string)
    requires s == quoted + (mid + (":" + (mid' + value))) && Cut(value, p, rest)
    ensures Cut(s, quoted + (mid + (":" + (mid' + p))), rest)
  {
    Fivefold(quoted, mid, mid', p, rest);
  }

  lemma {:induction false} PairCut(lex: Lexer, s: string, follow: string) returns (m: CPair, pre: string, w: string)
    requires Stable(lex) && Stops(follow) && SkipBlank(s) == s && Pair(lex, s).Fail?
    ensures Cut(s, pre, Pair(lex, s).rest) && MendsPair(lex, m, pre, w, follow)
    decreases |s|, 2
  {
    if s == [] || s[0] != '"' {
      NoKey(lex, s, follow);
      m, pre, w := CPair([], [], [], CNull), [], "\"\":null";
    } else if RawString(s).Fail? {
      m, w := OpenKey(lex, s, follow);
      pre := s;
    } else if SkipBlank(RawString(s).rest) == [] || SkipBlank(RawString(s).rest)[0] != ':' {
      m, pre := NoColon(lex, s, follow);
      w := ":null";
    } else {
      m, pre, w := PairValueCut(lex, s, follow);
    }
  }

  lemma {:induction false} PairValueCut(lex: Lexer, s: string, follow: string) returns (m: CPair, pre: string, w: string)
    requires Stable(lex) && Stops(follow) && Pair(lex, s).Fail? && RawString(s).Got?
    requires SkipBlank(RawString(s).rest) != [] && SkipBlank(RawString(s).rest)[0] == ':'
    ensures Cut(s, pre, Pair(lex, s).rest) && MendsPair(lex, m, pre, w, follow)
    decreases |s|, 1
  {
    PairFails(lex, s);
    RawStringSound(s);
    var mid, _, tail := Peel(RawString(s).rest);
    var mid', value := SkippedBlank(tail), SkipBlank(tail);
    var c, p, x := ValueCut(lex, value, follow);
    m := CPair(RawString(s).val, mid, mid', c);
    BadValueMends(lex, m, p, x, follow);
    BadValueCut(s, "\"" + m.key + "\"", mid, mid', value, p, Pair(lex, s).rest);
    pre, w := "\"" + m.key + "\"" + (mid + (":" + (mid' + p))), x;
  }

  lemma FirstMemberMends(lex: Lexer, ws: string, m: CPair, p: string, w: string, follow: string)
    requires Blank(ws) && MendsPair(lex, m, p, w, "}" + follow)
    ensures MendsMembers(lex, LastMember(ws, m, []), ws + p, w + "}", follow)
  {
    Nothing("}" + follow);
    Assoc(ws, p, w + ("}" + follow));
    Assoc(w, "}", follow);
  }

  lemma LastMemberMends(lex: Lexer, ws: string, m: CPair, post: string, follow: string)
    requires Blank(ws) && Blank(post) && PairOk(lex, m, post + ("}" + follow))
    ensures MendsMembers(lex, LastMember(ws, m, post), ws + (PairText(m, []) + post), "}", follow)
  {
    PairAppend(m, [], post + ("}" + follow));
    Nothing(post + ("}" + follow));
    Threefold(ws, PairText(m, []), post, "}" + follow);
  }

  lemma MoreMembersMend(lex: Lexer, ws: string, m: CPair, post: string, ms: CMembers, p: string, w: string, follow: string)
    requires Blank(ws) && Blank(post) && PairOk(lex, m, post + ("," + MembersText(ms, follow))) && MendsMembers(lex, ms, p, w, follow)
    ensures MendsMembers(lex, MoreMembers(ws, m, post, ms), ws + (PairText(m, []) + (post + ("," + p))), w, follow)
  {
    var next := "," + MembersText(ms, follow);
    PairAppend(m, [], post + next);
    Nothing(post + next);
    Regrouped(ws, PairText(m, []), post, p, w + follow);
  }

  /** What was read of a pair, without what follows it. */
  lemma {:induction false} PairReadOf(lex: Lexer, s: string, follow: string) returns (m: CPair)
    requires Stable(lex) && Stops(follow) && Pair(lex, s).Got?
    ensures s == PairText(m, []) + Pair(lex, s).rest && PairOk(lex, m, follow)
  {
    m := PairSound(lex, s);
    var after := Pair(lex, s).rest;
    PairAppend(m, [], after);
    assert [] + after == after;
    OkMoves(lex, m.v, after, follow);
  }

  lemma MembersFail(lex: Lexer, s: string)
    requires Pair(lex, s).Got? && Members(lex, s).Fail?
    ensures var u := SkipBlank(Pair(lex, s).rest);
      if u != [] && u[0] == ',' then
        Members(lex, SkipBlank(u[1..])).Fail? && Members(lex, s).rest == Members(lex, SkipBlank(u[1..])).rest && |u| < |s|
      else Members(lex, s).rest == u
  {
  }

  lemma {:induction false} MembersCut(lex: Lexer, ws: string, s: string, follow: string) returns (ms: CMembers, pre: string, w: string)
    requires Stable(lex) && Stops(follow) && Blank(ws) && SkipBlank(s) == s && Members(lex, s).Fail?
    ensures Cut(ws + s, pre, Members(lex, s).rest) && MendsMembers(lex, ms, pre, w, follow)
    decreases |s|, 3
  {
    if Pair(lex, s).Fail? {
      var m, p, v := PairCut(lex, s, "}" + follow);
      FirstMemberMends(lex, ws, m, p, v, follow);
      ms, pre, w := LastMember(ws, m, []), ws + p, v + "}";
      Assoc(ws, p, Pair(lex, s).rest);
    } else {
      ms, pre, w := NextMemberCut(lex, ws, s, follow);
    }
  }

  lemma {:induction false} NextMemberCut(lex: Lexer, ws: string, s: string, follow: string) returns (ms: CMembers, pre: string, w: string)
    requires Stable(lex) && Stops(follow) && Blank(ws) && Members(lex, s).Fail? && Pair(lex, s).Got?
    ensures Cut(ws + s, pre, Members(lex, s).rest) && MendsMembers(lex, ms, pre, w, follow)
    decreases |s|, 1
  {
    MembersFail(lex, s);
    var u := SkipBlank(Pair(lex, s).rest);
    if u != [] && u[0] == ',' {
      SkipTwice(u[1..]);
      var more, p, x := MembersCut(lex, SkippedBlank(u[1..]), SkipBlank(u[1..]), follow);
      ms, pre := MoreMembersCut(lex, ws, s, more, p, x, Members(lex, s).rest, follow);
      w := x;
    } else {
      ms, pre := LastMemberCut(lex, ws, s, follow);
      w := "}";
    }
  }

  /** A pair that was read, in front of the white space behind it and another text. */
  lemma {:induction false} PairBefore(lex: Lexer, s: string, next: string) returns (m: CPair, post: string)
    requires Stable(lex) && Pair(lex, s).Got? && Stops(next)
    ensures Blank(post) && PairOk(lex, m, post + next) && s == PairText(m, []) + (post + SkipBlank(Pair(lex, s).rest))
  {
    post := SkippedBlank(Pair(lex, s).rest);
    BlankStops(post, next);
    m := PairReadOf(lex, s, post + next);
  }

  lemma {:induction false} MoreMembersCut(lex: Lexer, ws: string, s: string, more: CMembers, p: string, w: string, rest: string, follow: string)
    returns (ms: CMembers, pre: string)
    requires Stable(lex) && Blank(ws) && Pair(lex, s).Got? && MendsMembers(lex, more, p, w, follow)
    requires var u := SkipBlank(Pair(lex, s).rest); u != [] && u[0] == ',' && Cut(u[1..], p, rest)
    ensures Cut(ws + s, pre, rest) && MendsMembers(lex, ms, pre, w, follow)
  {
    var m, post := PairBefore(lex, s, "," + MembersText(more, follow));
    MoreMembersMend(lex, ws, m, post, more, p, w, follow);
    CutLater(ws, s, PairText(m, []), post, SkipBlank(Pair(lex, s).rest), p, rest);
    ms, pre := MoreMembers(ws, m, post, more), ws + (PairText(m, []) + (post + ("," + p)));
  }

  lemma {:induction false} LastMemberCut(lex: Lexer, ws: string, s: string, follow: string) returns (ms: CMembers, pre: string)
    requires Stable(lex) && Blank(ws) && Pair(lex, s).Got?
    ensures Cut(ws + s, pre, SkipBlank(Pair(lex, s).rest)) && MendsMembers(lex, ms, pre, "}", follow)
  {
    var m, post := PairBefore(lex, s, "}" + follow);
    LastMemberMends(lex, ws, m, post, follow);
    SkipTwice(Pair(lex, s).rest);
    CutHere(ws, s, PairText(m, []), post, SkipBlank(Pair(lex, s).rest));
    ms, pre := LastMember(ws, m, post), ws + (PairText(m, []) + post);
  }

  // ----- Whole texts -----

  lemma MendedIsAccepted(lex: Lexer, ws: string, c: Cst, p: string, w: string)
    requires Blank(ws) && Mends(lex, c, p, w, [])
    ensures Document(lex, ws + p + w).Accepted?
  {
    ReadsDocument(lex, CDoc(ws, c, []));
    assert w + [] == w;
    Assoc(ws, p, w);
  }

  lemma TrailingIsCut(lex: Lexer, ws: string, s: string, v: Cst, after: string) returns (pre: string)
    requires Blank(ws) && s == Text(v, []) + after && Ok(lex, v, SkippedBlank(after))
    ensures Cut(ws + s, pre, SkipBlank(after)) && Document(lex, pre).Accepted?
  {
    var post := SkippedBlank(after);
    SkipTwice(after);
    TextAppend(v, [], post);
    assert [] + post == post;
    ReadsDocument(lex, CDoc(ws, v, post));
    CutHere(ws, s, Text(v, []), post, SkipBlank(after));
    pre := ws + (Text(v, []) + post);
  }

  lemma {:induction false} StoppedInValue(lex: Lexer, s: string) returns (pre: string, w: string)
    requires Stable(lex) && Value(lex, s).Fail?
    ensures Cut(s, pre, Document(lex, s).rest) && Document(lex, pre + w).Accepted?
  {
    SkipTwice(s);
    SameValue(lex, s);
    var ws := SkippedBlank(s);
    var c, p, x := ValueCut(lex, SkipBlank(s), []);
    SkipSolid(Value(lex, s).rest);
    MendedIsAccepted(lex, ws, c, p, x);
    Assoc(ws, p, Value(lex, s).rest);
    pre, w := ws + p, x;
  }

  lemma {:induction false} StoppedAfterValue(lex: Lexer, s: string) returns (pre: string)
    requires Stable(lex) && Value(lex, s).Got?
    ensures Cut(s, pre, SkipBlank(Value(lex, s).rest)) && Document(lex, pre).Accepted?
  {
    SkipTwice(s);
    SameValue(lex, s);
    var after := Value(lex, s).rest;
    BlankStops(SkippedBlank(after), []);
    Nothing(SkippedBlank(after));
    var v := ReadOf(lex, SkipBlank(s), SkippedBlank(after));
    pre := TrailingIsCut(lex, SkippedBlank(s), SkipBlank(s), v, after);
  }

  /**
   The text before the error position can be continued to an accepted text, and at the position there
   is no white space.  So when the position is the end, the whole text can be continued.
   */
  lemma {:induction false} ErrorPosition(lex: Lexer, s: string) returns (pre: string, w: string)
    requires Stable(lex) && Document(lex, s).Rejected?
    ensures Cut(s, pre, Document(lex, s).rest) && Document(lex, pre + w).Accepted?
  {
    if Value(lex, s).Fail? {
      pre, w := StoppedInValue(lex, s);
    } else {
      pre := StoppedAfterValue(lex, s);
      w := [];
      Nothing(pre);
    }
  }

  /** Some text that begins with `pre` is accepted. */
  ghost predicate Continues(lex: Lexer, pre: string) {
    exists w: string :: Document(lex, pre + w).Accepted?
  }

  /** The same of the position as a number. */
  lemma {:induction false} ErrorAt(lex: Lexer, s: string, n: nat)
    requires Stable(lex) && Document(lex, s).Rejected? && n <= |s| && s[n..] == Document(lex, s).rest
    ensures Continues(lex, s[..n]) && (n < |s| ==> !IsSpace(s[n]))
  {
    var pre, w := ErrorPosition(lex, s);
    var rest := s[n..];
    assert |pre| == n && s[..n] == pre;
    assert Document(lex, pre + w).Accepted?;
    if n < |s| { assert rest[0] == s[n]; }
  }

  lemma SkipSolid(s: string)
    requires s != [] ==> Solid(s)
    ensures SkipBlank(s) == s
  {
  }

  lemma SameValue(lex: Lexer, s: string)
    ensures Value(lex, SkipBlank(s)) == Value(lex, s)
  {
    SkipTwice(s);
  }
}
