/**
 Where a rejected text goes wrong, exactly: the text before the error position can go on, and whether
 it can with the character that stands there is read off the place where the parser last began to
 read a value.
 */
module JsonFirstError {
  import opened JsonErrors
  import opened JsonGrammar
  import opened JsonTheorems

  // ----- The last value begun -----

  /** What is left where the parser last begins to read a value, of a text that should begin with one. */
  function ValueTry(lex: Lexer, s: string): (u: string)
    ensures |u| <= |s| && (u != [] ==> !IsSpace(u[0]))
    decreases |s|, 1
  {
    var s := SkipBlank(s);
    if s == [] || (s[0] != '[' && s[0] != '{') then s
    else
      var t := SkipBlank(s[1..]);
      if s[0] == '[' then
        if t != [] && t[0] == ']' then s else ItemsTry(lex, t)
      else
        if t != [] && t[0] == '}' then s else MembersTry(lex, t)
  }

  function ItemsTry(lex: Lexer, s: string): (u: string)
    ensures |u| <= |s| && (u != [] ==> !IsSpace(u[0]))
    decreases |s|, 2
  {
    match Value(lex, s)
    case Fail(_) => ValueTry(lex, s)
    case Got(_, rest) =>
      var u := SkipBlank(rest);
      if u != [] && u[0] == ',' then ItemsTry(lex, SkipBlank(u[1..])) else ValueTry(lex, s)
  }

  /** Nothing where the key or the colon is missing. */
  function PairTry(lex: Lexer, s: string): (u: string)
    ensures |u| <= |s| && (u != [] ==> !IsSpace(u[0]))
    decreases |s|, 2
  {
    match RawString(s)
    case Fail(_) => []
    case Got(_, rest) =>
      var u := SkipBlank(rest);
      if u == [] || u[0] != ':' then [] else ValueTry(lex, SkipBlank(u[1..]))
  }

  function MembersTry(lex: Lexer, s: string): (u: string)
    ensures |u| <= |s| && (u != [] ==> !IsSpace(u[0]))
    decreases |s|, 3
  {
    match Pair(lex, s)
    case Fail(_) => PairTry(lex, s)
    case Got(_, rest) =>
      var u := SkipBlank(rest);
      if u != [] && u[0] == ',' then MembersTry(lex, SkipBlank(u[1..])) else PairTry(lex, s)
  }

  /** The number reader can read all of `a` and perhaps more. */
  ghost predicate ReadsOn(lex: Lexer, a: string) {
    exists w: string :: lex(a + w) >= |a|
  }

  predicate StartsWord(c: char) {
    c == 'n' || c == 't' || c == 'f'
  }

  /**
   Of a parser that last began to read a value at `u` and stopped at `r`: it stopped at the beginning
   of a word, or where a number begins or ends that the reader could read on through the character there.
   */
  ghost predicate MayGoOn(lex: Lexer, u: string, r: string) {
    r != [] && |r| <= |u| &&
    var k := |u| - |r|;
    if StartsWord(u[0]) then k == 0
    else u[0] != '"' && u[0] != '[' && u[0] != '{' && lex(u) == k && ReadsOn(lex, u[..k + 1])
  }

  /** What the number reader reads it reads in front of every text, that or more. */
  ghost predicate Greedy(lex: Lexer) {
    forall a: string, b: string, d: string :: a != [] && lex(a + b) == |a| ==> lex(a + d) >= |a|
  }

  // ----- The same text with another ending -----

  /** A text behind which a value is over whatever the number reader does. */
  predicate Halts(rest: string) {
    rest != [] && Stops(rest)
  }

  /** `s` ends in `r`, and `r` and `r'` begin with the same character, which is not white space. */
  predicate Fit(s: string, r: string, r': string) {
    r != [] && r' != [] && r[0] == r'[0] && !IsSpace(r[0]) && |r| <= |s| && s[|s| - |r|..] == r
  }

  /** `s` with `r'` for its ending `r`. */
  function Changed(s: string, r: string, r': string): string
    requires |r| <= |s|
  {
    s[..|s| - |r|] + r'
  }

  lemma FirstSame(s: string, r: string, r': string)
    requires Fit(s, r, r')
    ensures s != [] && Changed(s, r, r') != [] && Changed(s, r, r')[0] == s[0]
  {
    if |s| == |r| { assert s == r; }
  }

  lemma TailSame(s: string, r: string, r': string, k: nat)
    requires Fit(s, r, r') && k <= |s| - |r|
    ensures Fit(s[k..], r, r') && |Changed(s, r, r')| >= k
    ensures Changed(s, r, r')[k..] == Changed(s[k..], r, r') && Changed(s, r, r')[..k] == s[..k]
  {
    assert s[k..][|s[k..]| - |r|..] == s[|s| - |r|..];
    assert s[k..][..|s[k..]| - |r|] == s[k..|s| - |r|];
    assert s[..|s| - |r|] == s[..k] + s[k..|s| - |r|];
  }

  lemma EndingSame(r: string, r': string)
    ensures Changed(r, r, r') == r'
  {
    assert r[..0] + r' == r';
  }

  lemma FitBehind(x: string, rest: string, r: string, r': string)
    requires Fit(x + rest, r, r') && |r| <= |rest|
    ensures Fit(rest, r, r')
  {
    assert (x + rest)[|x|..] == rest;
    TailSame(x + rest, r, r', |x|);
  }

  // ----- White space and strings -----

  lemma {:induction false} SkipSame(s: string, r: string, r': string)
    requires Fit(s, r, r')
    ensures Fit(SkipBlank(s), r, r') && SkipBlank(Changed(s, r, r')) == Changed(SkipBlank(s), r, r')
  {
    FirstSame(s, r, r');
    if IsSpace(s[0]) {
      assert |s| == |r| ==> s == r;
      TailSame(s, r, r', 1);
      SkipSame(s[1..], r, r');
    }
  }

  lemma HaltsBefore(rest: string)
    requires Halts(SkipBlank(rest))
    ensures Halts(rest)
  {
  }

  lemma {:induction false} RawLenSame(s: string, r: string, r': string)
    requires Fit(s, r, r') && RawLen(s) < |s| - |r|
    ensures RawLen(Changed(s, r, r')) == RawLen(s)
    decreases |s|
  {
    FirstSame(s, r, r');
    if s[0] == '"' {
    } else if s[0] == '\\' && |s| > 1 {
      TailSame(s, r, r', 2);
      RawLenSame(s[2..], r, r');
    } else {
      TailSame(s, r, r', 1);
      RawLenSame(s[1..], r, r');
    }
  }

  lemma {:induction false} QuoteSame(s: string, r: string, r': string)
    requires Fit(s, r, r') && RawString(s).Got? && |RawString(s).rest| >= |r|
    ensures RawLen(s[1..]) + 2 <= |s| - |r| && RawLen(Changed(s, r, r')[1..]) == RawLen(s[1..])
    ensures Changed(s, r, r') != [] && Changed(s, r, r')[0] == '"'
  {
    FirstSame(s, r, r');
    TailSame(s, r, r', 1);
    RawLenSame(s[1..], r, r');
  }

  lemma Slices(s: string, t: string, n: nat)
    requires |s| >= n + 2 && |t| >= n + 2 && s[..n + 2] == t[..n + 2]
    ensures s[1..n + 1] == t[1..n + 1]
  {
    assert t[1..n + 1] == t[..n + 2][1..n + 1] && s[1..n + 1] == s[..n + 2][1..n + 1];
  }

  /** A string that is closed before the change. */
  lemma {:induction false} ClosedSame(s: string, r: string, r': string)
    requires Fit(s, r, r') && RawString(s).Got? && |RawString(s).rest| >= |r|
    ensures Fit(RawString(s).rest, r, r')
    ensures RawString(Changed(s, r, r')) == Got(RawString(s).val, Changed(RawString(s).rest, r, r'))
  {
    var n := RawLen(s[1..]);
    QuoteSame(s, r, r');
    TailSame(s, r, r', n + 2);
    Slices(s, Changed(s, r, r'), n);
    FirstSame(s[n + 2..], r, r');
  }

  lemma RawStringSame(s: string, r: string, r': string)
    requires Fit(s, r, r') && (RawString(s).Got? ==> |RawString(s).rest| >= |r|) && (RawString(s).Fail? ==> RawString(s).rest == r)
    ensures RawString(s).Got? ==> Fit(RawString(s).rest, r, r')
    ensures RawString(Changed(s, r, r')) == Moved(RawString(s), r, r')
  {
    if RawString(s).Got? {
      ClosedSame(s, r, r');
    } else {
      EndingSame(r, r');
    }
  }

  // ----- Values, where the parser stops before the change and cannot go on -----

  ghost predicate Reached<T>(lex: Lexer, p: Parsed<T>, u: string, r: string) {
    if p.Fail? then p.rest == r && !MayGoOn(lex, u, r) else |r| <= |p.rest|
  }

  /** So that the reader, if it read a number last, reads the same again. */
  ghost predicate Settled<T>(lex: Lexer, p: Parsed<T>, u: string, r: string) {
    Reached(lex, p, u, r) && (p.Got? ==> Halts(p.rest) || (p.rest == r && !MayGoOn(lex, u, r)))
  }

  function Moved<T>(p: Parsed<T>, r: string, r': string): Parsed<T>
    requires p.Got? ==> |r| <= |p.rest|
  {
    match p
    case Got(v, rest) => Got(v, Changed(rest, r, r'))
    case Fail(_) => Fail(r')
  }

  ghost predicate Firm(lex: Lexer) {
    Stable(lex) && Greedy(lex)
  }

  lemma {:induction false} ValueSame(lex: Lexer, s: string, r: string, r': string)
    requires Firm(lex) && Fit(s, r, r') && Settled(lex, Value(lex, s), ValueTry(lex, s), r)
    ensures Value(lex, Changed(s, r, r')) == Moved(Value(lex, s), r, r')
    decreases |s|, 1
  {
    SkipSame(s, r, r');
    SameValue(lex, s);
    SameValue(lex, Changed(s, r, r'));
    SkipTwice(s);
    var u := SkipBlank(s);
    FirstSame(u, r, r');
    if u[0] == '"' {
      RawStringSame(u, r, r');
    } else if u[0] == '[' {
      ArraySame(lex, u, r, r');
    } else if u[0] == '{' {
      ObjectSame(lex, u, r, r');
    } else if StartsWord(u[0]) {
      WordSame(lex, u, r, r');
    } else {
      NumberSame(lex, u, r, r');
    }
  }

  lemma PrefixSame(s: string, r: string, r': string, w: string)
    requires Fit(s, r, r') && |w| <= |s| - |r|
    ensures w <= s <==> w <= Changed(s, r, r')
    ensures Changed(s, r, r')[|w|..] == Changed(s[|w|..], r, r')
  {
    TailSame(s, r, r', |w|);
    var t := Changed(s, r, r');
    assert w <= s <==> s[..|w|] == w;
    assert w <= t <==> t[..|w|] == w;
  }

  lemma {:induction false} WordSame(lex: Lexer, s: string, r: string, r': string)
    requires Fit(s, r, r') && Solid(s) && StartsWord(s[0]) && Reached(lex, Value(lex, s), s, r)
    ensures Value(lex, Changed(s, r, r')) == Moved(Value(lex, s), r, r')
  {
    FirstSame(s, r, r');
    ValueOf(lex, s);
    ValueOf(lex, Changed(s, r, r'));
    assert Value(lex, s).Got?;
    if s[0] == 'n' {
      PrefixSame(s, r, r', "null");
    } else if s[0] == 't' {
      PrefixSame(s, r, r', "true");
    } else {
      PrefixSame(s, r, r', "false");
    }
  }

  /** A number whose reading cannot go on through the first character of the change is read again. */
  lemma {:induction false} StuckSame(lex: Lexer, s: string, n: nat, r': string)
    requires Greedy(lex) && n < |s| && lex(s) == n && r' != [] && r'[0] == s[n] && !ReadsOn(lex, s[..n + 1])
    ensures lex(s[..n] + r') == n
  {
    var a, b := s[..n], s[n..];
    assert a + b == s;
    if n > 0 { assert lex(a + b) == |a|; }
    assert a + r' == s[..n + 1] + r'[1..];
    assert !(lex(s[..n + 1] + r'[1..]) >= |s[..n + 1]|);
  }

  lemma {:induction false} NumberSame(lex: Lexer, s: string, r: string, r': string)
    requires Firm(lex) && Fit(s, r, r') && Solid(s) && Settled(lex, Number(lex, s), s, r)
    requires !StartsWord(s[0]) && s[0] != '"' && s[0] != '[' && s[0] != '{'
    ensures Number(lex, Changed(s, r, r')) == Moved(Number(lex, s), r, r')
  {
    var n := lex(s);
    TailSame(s, r, r', n);
    var a, b, d := s[..n], s[n..], Changed(s, r, r')[n..];
    assert a + b == s && a + d == Changed(s, r, r');
    if n > 0 && Halts(b) {
      FirstSame(b, r, r');
      assert lex(a + b) == |a| && Stops(d);
      assert lex(a + d) == |a|;
    } else {
      EndingSame(r, r');
      StuckSame(lex, s, n, r');
    }
  }

  // ----- Arrays -----

  lemma PrependMoved<T>(lex: Lexer, v: T, p: Parsed<seq<T>>, u: string, r: string, r': string)
    requires Reached(lex, Prepend(v, p), u, r)
    ensures Reached(lex, p, u, r) && Moved(Prepend(v, p), r, r') == Prepend(v, Moved(p, r, r'))
  {
  }

  /** Behind a comma. */
  lemma CommaSame(u: string, r: string, r': string)
    requires Fit(u, r, r') && |r| < |u|
    ensures Fit(SkipBlank(u[1..]), r, r') && Changed(u, r, r') != []
    ensures SkipBlank(Changed(u, r, r')[1..]) == Changed(SkipBlank(u[1..]), r, r')
  {
    TailSame(u, r, r', 1);
    SkipSame(u[1..], r, r');
  }

  lemma {:induction false} ArraySame(lex: Lexer, s: string, r: string, r': string)
    requires Firm(lex) && Fit(s, r, r') && s[0] == '[' && Reached(lex, Array(lex, s), ValueTry(lex, s), r)
    ensures Changed(s, r, r')[0] == '[' && Array(lex, Changed(s, r, r')) == Moved(Array(lex, s), r, r')
    decreases |s|, 0
  {
    FirstSame(s, r, r');
    CommaSame(s, r, r');
    SkipTwice(s[1..]);
    var u := SkipBlank(s[1..]);
    FirstSame(u, r, r');
    if u[0] == ']' {
      TailSame(u, r, r', 1);
    } else {
      ItemsSame(lex, u, r, r');
    }
  }

  /** Where white space follows, or the end of a value, the number reader is done. */
  lemma HaltsOrNot(rest: string)
    ensures SkipBlank(rest) == rest || Halts(rest)
  {
  }

  lemma {:induction false} ItemFit(lex: Lexer, s: string, r: string, r': string)
    requires Stable(lex) && Fit(s, r, r') && SkipBlank(s) == s && Value(lex, s).Got? && |r| <= |Value(lex, s).rest|
    ensures Fit(Value(lex, s).rest, r, r')
  {
    var v := ReadOf(lex, s, []);
    FitBehind(Text(v, []), Value(lex, s).rest, r, r');
  }

  /** What the text behind an item makes of the items. */
  function ItemsBehind(lex: Lexer, v: Json, u: string): Parsed<seq<Json>> {
    if u == [] then Fail(u)
    else if u[0] == ']' then Got([v], u[1..])
    else if u[0] == ',' then Prepend(v, Items(lex, SkipBlank(u[1..])))
    else Fail(u)
  }

  lemma ItemsStep(lex: Lexer, s: string)
    requires Value(lex, s).Got?
    ensures Items(lex, s) == ItemsBehind(lex, Value(lex, s).val, SkipBlank(Value(lex, s).rest))
  {
  }

  lemma {:induction false} ItemSettled(lex: Lexer, s: string, r: string)
    requires Value(lex, s).Got? && r != [] && Reached(lex, Items(lex, s), ItemsTry(lex, s), r)
    ensures Settled(lex, Value(lex, s), ValueTry(lex, s), r)
  {
    ItemsStep(lex, s);
    var rest := Value(lex, s).rest;
    HaltsOrNot(rest);
  }

  lemma {:induction false} ItemsSame(lex: Lexer, s: string, r: string, r': string)
    requires Firm(lex) && Fit(s, r, r') && SkipBlank(s) == s && Reached(lex, Items(lex, s), ItemsTry(lex, s), r)
    ensures Items(lex, Changed(s, r, r')) == Moved(Items(lex, s), r, r')
    decreases |s|, 2
  {
    if Value(lex, s).Fail? {
      ValueSame(lex, s, r, r');
    } else {
      ItemSettled(lex, s, r);
      ItemFit(lex, s, r, r');
      ValueSame(lex, s, r, r');
      ItemsStep(lex, s);
      ItemsStep(lex, Changed(s, r, r'));
      SkipSame(Value(lex, s).rest, r, r');
      ItemsBehindSame(lex, s, Value(lex, s).val, SkipBlank(Value(lex, s).rest), r, r');
    }
  }

  lemma {:induction false} ItemsBehindSame(lex: Lexer, s: string, v: Json, u: string, r: string, r': string)
    requires Firm(lex) && Fit(u, r, r') && |u| < |s| && Reached(lex, ItemsBehind(lex, v, u), ItemsTry(lex, s), r)
    requires Value(lex, s).Got? && u == SkipBlank(Value(lex, s).rest)
    ensures ItemsBehind(lex, v, Changed(u, r, r')) == Moved(ItemsBehind(lex, v, u), r, r')
    decreases |u|, 3
  {
    FirstSame(u, r, r');
    if u[0] == ']' {
      TailSame(u, r, r', 1);
    } else if u[0] == ',' {
      PrependMoved(lex, v, Items(lex, SkipBlank(u[1..])), ItemsTry(lex, s), r, r');
      CommaSame(u, r, r');
      SkipTwice(u[1..]);
      ItemsSame(lex, SkipBlank(u[1..]), r, r');
    } else {
      EndingSame(r, r');
    }
  }

  // ----- Objects -----

  lemma {:induction false} ObjectSame(lex: Lexer, s: string, r: string, r': string)
    requires Firm(lex) && Fit(s, r, r') && s[0] == '{' && Reached(lex, Object(lex, s), ValueTry(lex, s), r)
    ensures Changed(s, r, r')[0] == '{' && Object(lex, Changed(s, r, r')) == Moved(Object(lex, s), r, r')
    decreases |s|, 0
  {
    FirstSame(s, r, r');
    CommaSame(s, r, r');
    SkipTwice(s[1..]);
    var u := SkipBlank(s[1..]);
    FirstSame(u, r, r');
    if u[0] == '}' {
      TailSame(u, r, r', 1);
    } else {
      MembersSame(lex, u, r, r');
    }
  }

  /** What the text behind a key makes of the pair. */
  function PairBehind(lex: Lexer, key: string, u: string): Parsed<Member> {
    if u == [] || u[0] != ':' then Fail(u)
    else
      match Value(lex, SkipBlank(u[1..]))
      case Fail(rest) => Fail(rest)
      case Got(v, rest) => Got(Member(key, v), rest)
  }

  lemma PairStep(lex: Lexer, s: string)
    requires RawString(s).Got?
    ensures Pair(lex, s) == PairBehind(lex, RawString(s).val, SkipBlank(RawString(s).rest))
  {
  }

  lemma {:induction false} PairSame(lex: Lexer, s: string, r: string, r': string)
    requires Firm(lex) && Fit(s, r, r') && Settled(lex, Pair(lex, s), PairTry(lex, s), r)
    ensures Pair(lex, Changed(s, r, r')) == Moved(Pair(lex, s), r, r')
    decreases |s|, 2
  {
    RawStringSame(s, r, r');
    if RawString(s).Got? {
      PairStep(lex, s);
      PairStep(lex, Changed(s, r, r'));
      SkipSame(RawString(s).rest, r, r');
      PairBehindSame(lex, s, RawString(s).val, SkipBlank(RawString(s).rest), r, r');
    }
  }

  lemma {:induction false} PairBehindSame(lex: Lexer, s: string, key: string, u: string, r: string, r': string)
    requires Firm(lex) && Fit(u, r, r') && |u| < |s| && Settled(lex, PairBehind(lex, key, u), PairTry(lex, s), r)
    requires RawString(s).Got? && u == SkipBlank(RawString(s).rest)
    ensures PairBehind(lex, key, Changed(u, r, r')) == Moved(PairBehind(lex, key, u), r, r')
    decreases |u|, 3
  {
    FirstSame(u, r, r');
    if u[0] == ':' {
      CommaSame(u, r, r');
      ValueSame(lex, SkipBlank(u[1..]), r, r');
    } else {
      EndingSame(r, r');
    }
  }

  lemma {:induction false} MemberFit(lex: Lexer, s: string, r: string, r': string)
    requires Stable(lex) && Fit(s, r, r') && Pair(lex, s).Got? && |r| <= |Pair(lex, s).rest|
    ensures Fit(Pair(lex, s).rest, r, r')
  {
    var m := PairReadOf(lex, s, []);
    FitBehind(PairText(m, []), Pair(lex, s).rest, r, r');
  }

  /** What the text behind a member makes of the members. */
  function MembersBehind(lex: Lexer, m: Member, u: string): Parsed<seq<Member>> {
    if u == [] then Fail(u)
    else if u[0] == '}' then Got([m], u[1..])
    else if u[0] == ',' then Prepend(m, Members(lex, SkipBlank(u[1..])))
    else Fail(u)
  }

  lemma MembersStep(lex: Lexer, s: string)
    requires Pair(lex, s).Got?
    ensures Members(lex, s) == MembersBehind(lex, Pair(lex, s).val, SkipBlank(Pair(lex, s).rest))
  {
  }

  lemma {:induction false} MemberSettled(lex: Lexer, s: string, r: string)
    requires Pair(lex, s).Got? && r != [] && Reached(lex, Members(lex, s), MembersTry(lex, s), r)
    ensures Settled(lex, Pair(lex, s), PairTry(lex, s), r)
  {
    MembersStep(lex, s);
    HaltsOrNot(Pair(lex, s).rest);
  }

  lemma {:induction false} MembersSame(lex: Lexer, s: string, r: string, r': string)
    requires Firm(lex) && Fit(s, r, r') && Reached(lex, Members(lex, s), MembersTry(lex, s), r)
    ensures Members(lex, Changed(s, r, r')) == Moved(Members(lex, s), r, r')
    decreases |s|, 3
  {
    if Pair(lex, s).Fail? {
      PairSame(lex, s, r, r');
    } else {
      MemberSettled(lex, s, r);
      MemberFit(lex, s, r, r');
      PairSame(lex, s, r, r');
      MembersStep(lex, s);
      MembersStep(lex, Changed(s, r, r'));
      SkipSame(Pair(lex, s).rest, r, r');
      MembersBehindSame(lex, s, Pair(lex, s).val, SkipBlank(Pair(lex, s).rest), r, r');
    }
  }

  lemma {:induction false} MembersBehindSame(lex: Lexer, s: string, m: Member, u: string, r: string, r': string)
    requires Firm(lex) && Fit(u, r, r') && |u| < |s| && Reached(lex, MembersBehind(lex, m, u), MembersTry(lex, s), r)
    requires Pair(lex, s).Got? && u == SkipBlank(Pair(lex, s).rest)
    ensures MembersBehind(lex, m, Changed(u, r, r')) == Moved(MembersBehind(lex, m, u), r, r')
    decreases |u|, 4
  {
    FirstSame(u, r, r');
    if u[0] == '}' {
      TailSame(u, r, r', 1);
    } else if u[0] == ',' {
      PrependMoved(lex, m, Members(lex, SkipBlank(u[1..])), MembersTry(lex, s), r, r');
      CommaSame(u, r, r');
      MembersSame(lex, SkipBlank(u[1..]), r, r');
    } else {
      EndingSame(r, r');
    }
  }

  lemma {:induction false} DocumentSame(lex: Lexer, s: string, r: string, r': string)
    requires Firm(lex) && Fit(s, r, r') && Document(lex, s) == Rejected(r) && !MayGoOn(lex, ValueTry(lex, s), r)
    ensures Document(lex, Changed(s, r, r')).Rejected?
  {
    var v := Value(lex, s);
    if v.Fail? {
      FailedBefore(lex, s);
      ValueSame(lex, s, r, r');
    } else {
      HaltsOrNot(v.rest);
      ValueSame(lex, s, r, r');
      TailIs(lex, s, r, r');
      SkipSame(v.rest, r, r');
      EndingSame(r, r');
    }
  }

  lemma {:induction false} FailedBefore(lex: Lexer, s: string)
    requires Stable(lex) && Value(lex, s).Fail?
    ensures SkipBlank(Value(lex, s).rest) == Value(lex, s).rest
  {
    SkipTwice(s);
    SameValue(lex, s);
    var c, p, w := ValueCut(lex, SkipBlank(s), []);
    SkipSolid(Value(lex, s).rest);
  }

  lemma {:induction false} TailIs(lex: Lexer, s: string, r: string, r': string)
    requires Stable(lex) && Fit(s, r, r') && Value(lex, s).Got? && |r| <= |Value(lex, s).rest|
    ensures Fit(Value(lex, s).rest, r, r')
  {
    SkipTwice(s);
    SameValue(lex, s);
    SkipSame(s, r, r');
    ItemFit(lex, SkipBlank(s), r, r');
  }

  // ----- The text before the last value, with a whole value behind it -----

  /** A text that is one value, begun like `u`. */
  predicate Whole(lex: Lexer, u: string, t: string) {
    u != [] && t != [] && t[0] == u[0] && !IsSpace(u[0]) && Value(lex, t).Got? && Value(lex, t).rest == []
  }

  lemma {:induction false} ValueEnds(lex: Lexer, s: string, u: string, t: string)
    requires Firm(lex) && Fit(s, u, t) && Whole(lex, u, t) && u == ValueTry(lex, s)
    ensures Value(lex, Changed(s, u, t)).rest == []
    decreases |s|, 1
  {
    SkipSame(s, u, t);
    SameValue(lex, Changed(s, u, t));
    SkipTwice(s);
    if u == SkipBlank(s) {
      EndingSame(u, t);
    } else {
      NestedEnds(lex, SkipBlank(s), u, t);
    }
  }

  lemma {:induction false} NestedEnds(lex: Lexer, x: string, u: string, t: string)
    requires Firm(lex) && Fit(x, u, t) && Whole(lex, u, t) && u == ValueTry(lex, x) && Solid(x) && u != x
    ensures Value(lex, Changed(x, u, t)).rest == []
    decreases |x|, 0
  {
    FirstSame(x, u, t);
    CommaSame(x, u, t);
    SkipTwice(x[1..]);
    var y := SkipBlank(x[1..]);
    FirstSame(y, u, t);
    ValueOf(lex, Changed(x, u, t));
    if x[0] == '[' {
      ItemsEnd(lex, y, u, t);
    } else {
      MembersEnd(lex, y, u, t);
    }
  }

  lemma {:induction false} ItemsEnd(lex: Lexer, s: string, u: string, t: string)
    requires Firm(lex) && Fit(s, u, t) && Whole(lex, u, t) && SkipBlank(s) == s && u == ItemsTry(lex, s)
    ensures Items(lex, Changed(s, u, t)).rest == []
    decreases |s|, 2
  {
    var v := Value(lex, s);
    if v.Got? && SkipBlank(v.rest) != [] && SkipBlank(v.rest)[0] == ',' {
      HaltsOrNot(v.rest);
      ItemFit(lex, s, u, t);
      ValueSame(lex, s, u, t);
      ItemsStep(lex, Changed(s, u, t));
      SkipSame(v.rest, u, t);
      var x := SkipBlank(v.rest);
      FirstSame(x, u, t);
      CommaSame(x, u, t);
      SkipTwice(x[1..]);
      ItemsEnd(lex, SkipBlank(x[1..]), u, t);
    } else {
      ValueEnds(lex, s, u, t);
    }
  }

  lemma {:induction false} PairEnds(lex: Lexer, s: string, u: string, t: string)
    requires Firm(lex) && Fit(s, u, t) && Whole(lex, u, t) && u == PairTry(lex, s)
    ensures Pair(lex, Changed(s, u, t)).rest == []
    decreases |s|, 2
  {
    var x := SkipBlank(RawString(s).rest);
    ClosedSame(s, u, t);
    PairStep(lex, Changed(s, u, t));
    SkipSame(RawString(s).rest, u, t);
    FirstSame(x, u, t);
    CommaSame(x, u, t);
    ValueEnds(lex, SkipBlank(x[1..]), u, t);
  }

  lemma {:induction false} MembersEnd(lex: Lexer, s: string, u: string, t: string)
    requires Firm(lex) && Fit(s, u, t) && Whole(lex, u, t) && u == MembersTry(lex, s)
    ensures Members(lex, Changed(s, u, t)).rest == []
    decreases |s|, 3
  {
    var v := Pair(lex, s);
    if v.Got? && SkipBlank(v.rest) != [] && SkipBlank(v.rest)[0] == ',' {
      HaltsOrNot(v.rest);
      MemberFit(lex, s, u, t);
      PairSame(lex, s, u, t);
      MembersStep(lex, Changed(s, u, t));
      SkipSame(v.rest, u, t);
      MoreMembersEnd(lex, v.val, SkipBlank(v.rest), u, t);
    } else {
      PairEnds(lex, s, u, t);
    }
  }

  lemma {:induction false} MoreMembersEnd(lex: Lexer, m: Member, x: string, u: string, t: string)
    requires Firm(lex) && Fit(x, u, t) && Whole(lex, u, t) && x[0] == ',' && u == MembersTry(lex, SkipBlank(x[1..]))
    ensures MembersBehind(lex, m, Changed(x, u, t)).rest == []
    decreases |x|, 0
  {
    FirstSame(x, u, t);
    CommaSame(x, u, t);
    MembersEnd(lex, SkipBlank(x[1..]), u, t);
  }

  // ----- The last value begun is where it should be -----

  predicate EndsIn(s: string, u: string) {
    |u| <= |s| && s[|s| - |u|..] == u
  }

  lemma EndsTrans(s: string, t: string, u: string)
    requires EndsIn(s, t) && EndsIn(t, u)
    ensures EndsIn(s, u)
  {
    assert t[|t| - |u|..] == s[|s| - |t|..][|t| - |u|..] == s[|s| - |u|..];
  }

  lemma {:induction false} SkipEnds(s: string)
    ensures EndsIn(s, SkipBlank(s))
  {
    if s != [] && IsSpace(s[0]) {
      SkipEnds(s[1..]);
      assert EndsIn(s, s[1..]);
      EndsTrans(s, s[1..], SkipBlank(s[1..]));
    }
  }

  /** A character and the white space behind it. */
  lemma NextEnds(s: string)
    requires s != []
    ensures EndsIn(s, SkipBlank(s[1..]))
  {
    SkipEnds(s[1..]);
    assert EndsIn(s, s[1..]);
    EndsTrans(s, s[1..], SkipBlank(s[1..]));
  }

  lemma {:induction false} ValueTryEnds(lex: Lexer, s: string)
    requires Stable(lex)
    ensures EndsIn(s, ValueTry(lex, s))
    decreases |s|, 1
  {
    SkipEnds(s);
    if ValueTry(lex, s) != SkipBlank(s) {
      NestedTryEnds(lex, SkipBlank(s), ValueTry(lex, s));
      EndsTrans(s, SkipBlank(s), ValueTry(lex, s));
    }
  }

  lemma {:induction false} NestedTryEnds(lex: Lexer, x: string, u: string)
    requires Stable(lex) && Solid(x) && u != x
    requires x[0] == '[' ==> u == ItemsTry(lex, SkipBlank(x[1..]))
    requires x[0] != '[' ==> u == MembersTry(lex, SkipBlank(x[1..]))
    ensures EndsIn(x, u)
    decreases |x|, 0
  {
    var y := SkipBlank(x[1..]);
    NextEnds(x);
    SkipTwice(x[1..]);
    if x[0] == '[' {
      ItemsTryEnds(lex, y);
    } else {
      MembersTryEnds(lex, y);
    }
    EndsTrans(x, y, u);
  }

  /** What is left behind a comma or a colon, and white space, after something read. */
  lemma BehindEnds(s: string, x: string, rest: string)
    requires s == x + rest && SkipBlank(rest) != []
    ensures EndsIn(s, SkipBlank(SkipBlank(rest)[1..]))
  {
    assert s[|s| - |rest|..] == rest;
    SkipEnds(rest);
    NextEnds(SkipBlank(rest));
    EndsTrans(s, rest, SkipBlank(rest));
    EndsTrans(s, SkipBlank(rest), SkipBlank(SkipBlank(rest)[1..]));
  }

  lemma {:induction false} ItemsTryEnds(lex: Lexer, s: string)
    requires Stable(lex) && SkipBlank(s) == s
    ensures EndsIn(s, ItemsTry(lex, s))
    decreases |s|, 2
  {
    var v := Value(lex, s);
    if v.Got? && SkipBlank(v.rest) != [] && SkipBlank(v.rest)[0] == ',' {
      var c := ReadOf(lex, s, []);
      BehindEnds(s, Text(c, []), v.rest);
      var next := SkipBlank(SkipBlank(v.rest)[1..]);
      SkipTwice(SkipBlank(v.rest)[1..]);
      ItemsTryEnds(lex, next);
      EndsTrans(s, next, ItemsTry(lex, s));
    } else {
      ValueTryEnds(lex, s);
    }
  }

  lemma {:induction false} PairTryEnds(lex: Lexer, s: string)
    requires Stable(lex)
    ensures EndsIn(s, PairTry(lex, s))
    decreases |s|, 2
  {
    if RawString(s).Got? {
      var rest := RawString(s).rest;
      if SkipBlank(rest) != [] && SkipBlank(rest)[0] == ':' {
        RawStringSound(s);
        BehindEnds(s, "\"" + RawString(s).val + "\"", rest);
        var next := SkipBlank(SkipBlank(rest)[1..]);
        ValueTryEnds(lex, next);
        EndsTrans(s, next, PairTry(lex, s));
      }
    }
  }

  lemma {:induction false} MembersTryEnds(lex: Lexer, s: string)
    requires Stable(lex)
    ensures EndsIn(s, MembersTry(lex, s))
    decreases |s|, 3
  {
    var v := Pair(lex, s);
    if v.Got? && SkipBlank(v.rest) != [] && SkipBlank(v.rest)[0] == ',' {
      var m := PairReadOf(lex, s, []);
      BehindEnds(s, PairText(m, []), v.rest);
      var next := SkipBlank(SkipBlank(v.rest)[1..]);
      MembersTryEnds(lex, next);
      EndsTrans(s, next, MembersTry(lex, s));
    } else {
      PairTryEnds(lex, s);
    }
  }

  // ----- Whole texts -----

  lemma LongerNumber(lex: Lexer, a: string, w: string) returns (t: string)
    requires Stable(lex) && a != [] && lex(a + w) >= |a|
    ensures a <= t && lex(t) == |t|
  {
    var x := a + w;
    var m := lex(x);
    t := x[..m];
    var b := x[m..];
    assert t + b == x && t + [] == t;
    assert lex(t + b) == |t| && Stops([]);
    assert lex(t + []) == |t|;
  }

  /** A value that begins with what was read of the last one and the character where reading stopped. */
  lemma {:induction false} GoesOn(lex: Lexer, u: string, r: string) returns (t: string)
    requires Stable(lex) && MayGoOn(lex, u, r) && !IsSpace(u[0])
    ensures Whole(lex, u, t) && u[..|u| - |r| + 1] <= t
  {
    var a := u[..|u| - |r| + 1];
    if StartsWord(u[0]) {
      t := if u[0] == 'n' then "null" else if u[0] == 't' then "true" else "false";
      assert a == t[..1];
    } else {
      var w: string :| lex(a + w) >= |a|;
      t := LongerNumber(lex, a, w);
      assert t[0] == a[0] == u[0];
      assert t[|t|..] == [];
    }
  }

  /** What a whole value makes of the text before the last value begun. */
  lemma {:induction false} EndedContinues(lex: Lexer, s: string, u: string, t: string)
    requires Firm(lex) && Fit(s, u, t) && Whole(lex, u, t) && u == ValueTry(lex, s)
    ensures Continues(lex, Changed(s, u, t))
  {
    var d := Changed(s, u, t);
    ValueEnds(lex, s, u, t);
    if Document(lex, d).Rejected? {
      ErrorAt(lex, d, |d|);
      assert d[..|d|] == d;
    } else {
      assert d + [] == d;
    }
  }

  lemma ShorterContinues(lex: Lexer, a: string, b: string)
    requires Continues(lex, a + b)
    ensures Continues(lex, a)
  {
    var w: string :| Document(lex, a + b + w).Accepted?;
    var x := b + w;
    Assoc(a, b, w);
    assert Document(lex, a + x).Accepted?;
  }

  lemma SplitChanged(s: string, u: string, t: string, k: nat)
    requires EndsIn(s, u) && k < |u| && u[..k + 1] <= t
    ensures Changed(s, u, t) == s[..|s| - |u| + k + 1] + t[k + 1..]
  {
    assert s == s[..|s| - |u|] + u;
    assert t == u[..k + 1] + t[k + 1..];
  }

  lemma {:induction false} ContinuesThere(lex: Lexer, s: string, n: nat)
    requires Firm(lex) && n < |s| && MayGoOn(lex, ValueTry(lex, s), s[n..])
    ensures Continues(lex, s[..n + 1])
  {
    var u := ValueTry(lex, s);
    var k := |u| - |s[n..]|;
    ValueTryEnds(lex, s);
    var t := GoesOn(lex, u, s[n..]);
    EndedContinues(lex, s, u, t);
    SplitChanged(s, u, t, k);
    ShorterContinues(lex, s[..n + 1], t[k + 1..]);
  }

  lemma ChangedAt(s: string, n: nat, w: string)
    requires n < |s|
    ensures EndsIn(s, s[n..]) && Changed(s, s[n..], [s[n]] + w) == s[..n + 1] + w
  {
    assert s[..n + 1] == s[..n] + [s[n]];
    Assoc(s[..n], [s[n]], w);
  }

  lemma {:induction false} StopsThere(lex: Lexer, s: string, n: nat)
    requires Firm(lex) && Document(lex, s).Rejected? && n < |s| && s[n..] == Document(lex, s).rest && !IsSpace(s[n])
    requires !MayGoOn(lex, ValueTry(lex, s), s[n..])
    ensures !Continues(lex, s[..n + 1])
  {
    var pre := s[..n + 1];
    forall w: string ensures Document(lex, pre + w).Rejected? {
      ChangedAt(s, n, w);
      DocumentSame(lex, s, s[n..], [s[n]] + w);
    }
  }

  /**
   `n` is where `s` goes wrong: the text before it could go on, and no white space stands there.  With
   the character that does stand there it could go on exactly when that begins a word, or begins or
   continues a number for the reader, at the value last begun.
   */
  ghost predicate WrongAt(lex: Lexer, s: string, n: nat) {
    && n <= |s| && Continues(lex, s[..n])
    && (n < |s| ==> !IsSpace(s[n]) && (Continues(lex, s[..n + 1]) <==> MayGoOn(lex, ValueTry(lex, s), s[n..])))
  }

  /** The error position is where a rejected text goes wrong. */
  lemma {:induction false} ReportsWhereWrong(lex: Lexer, s: string, n: nat)
    requires Firm(lex) && Document(lex, s).Rejected? && n <= |s| && s[n..] == Document(lex, s).rest
    ensures WrongAt(lex, s, n)
  {
    ErrorAt(lex, s, n);
    if n < |s| {
      if MayGoOn(lex, ValueTry(lex, s), s[n..]) {
        ContinuesThere(lex, s, n);
      } else {
        StopsThere(lex, s, n);
      }
    }
  }

  /** An unfinished word is reported at its beginning, although the text could still go on. */
  lemma UnfinishedWord(lex: Lexer)
    ensures Document(lex, "nul") == Rejected("nul") && Continues(lex, "nul")
  {
    assert "nul" + "l" == "null";
    assert Document(lex, "nul" + "l").Accepted?;
  }
}
