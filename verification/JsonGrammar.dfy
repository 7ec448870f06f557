/**
 What the JSON parser reads.  `Document` follows the code as functions of the text that is left;
 `Cst` is the grammar written out: a syntax tree with every choice of white space in it.
 */
module JsonGrammar {

  /** Strings, keys and numbers are kept as their raw lexemes. */
  datatype Json =
    | JNull
    | JBool(b: bool)
    | JNum(lexeme: string)
    | JStr(raw: string)
    | JArr(items: seq<Json>)
    | JObj(members: seq<Member>)

  datatype Member = Member(key: string, value: Json)

  // ----- Characters -----

  predicate IsSpace(c: char) {
    c == ' ' || c == '\t' || c == '\n' || c == 11 as char || c == 12 as char || c == '\r'
  }

  predicate StartsNumber(c: char) {
    '0' <= c <= '9' || c == '+' || c == '-' || c == '.' || c == 'i' || c == 'I' || c == 'n' || c == 'N'
  }

  /**
   The number reader of the C library: how many characters of a text it reads, none if there is no
   number.  It never reads past the end, and what it reads starts like a number or with white space.
   */
  type Lexer = f: string -> nat |
    forall s :: f(s) <= |s| && (f(s) > 0 ==> StartsNumber(s[0]) || IsSpace(s[0]))
    witness (s: string) => 0

  predicate Blank(s: string) {
    s == [] || (IsSpace(s[0]) && Blank(s[1..]))
  }

  // ----- The parser, on the text that is left -----

  datatype Parsed<T> = Got(val: T, rest: string) | Fail(rest: string)

  function SkipBlank(s: string): (r: string)
    ensures |r| <= |s| && (r != [] ==> !IsSpace(r[0]))
  {
    if s != [] && IsSpace(s[0]) then SkipBlank(s[1..]) else s
  }

  function Word(s: string, w: string, v: Json): Parsed<Json> {
    if w <= s then Got(v, s[|w|..]) else Fail(s)
  }

  function Bool(s: string): Parsed<Json> {
    if "true" <= s then Got(JBool(true), s[4..])
    else if "false" <= s then Got(JBool(false), s[5..])
    else Fail(s)
  }

  function Number(lex: Lexer, s: string): Parsed<Json> {
    if lex(s) == 0 then Fail(s) else Got(JNum(s[..lex(s)]), s[lex(s)..])
  }

  /** The length of a raw string up to its closing quote, or to the end of the text. */
  function RawLen(s: string): (n: nat)
    ensures n <= |s| && (n < |s| ==> s[n] == '"')
  {
    if s == [] || s[0] == '"' then 0
    else if s[0] == '\\' && |s| > 1 then 2 + RawLen(s[2..])
    else 1 + RawLen(s[1..])
  }

  function RawString(s: string): Parsed<string> {
    if s == [] || s[0] != '"' then Fail(s)
    else
      var n := RawLen(s[1..]);
      if n == |s| - 1 then Fail([]) else Got(s[1..n + 1], s[n + 2..])
  }

  function String(s: string): Parsed<Json> {
    match RawString(s)
    case Got(raw, rest) => Got(JStr(raw), rest)
    case Fail(rest) => Fail(rest)
  }

  function Prepend<T>(v: T, r: Parsed<seq<T>>): Parsed<seq<T>> {
    match r
    case Got(vs, rest) => Got([v] + vs, rest)
    case Fail(rest) => Fail(rest)
  }

  function Value(lex: Lexer, s: string): (r: Parsed<Json>)
    ensures |r.rest| <= |s| && (r.Got? ==> |r.rest| < |s|)
    decreases |s|, 1
  {
    var s := SkipBlank(s);
    if s == [] then Fail(s)
    else
      match s[0]
      case 'n' => Word(s, "null", JNull)
      case 't' => Bool(s)
      case 'f' => Bool(s)
      case '"' => String(s)
      case '[' => Array(lex, s)
      case '{' => Object(lex, s)
      case _ => Number(lex, s)
  }

  function Array(lex: Lexer, s: string): (r: Parsed<Json>)
    requires s != [] && s[0] == '['
    ensures |r.rest| <= |s| && (r.Got? ==> |r.rest| < |s|)
    decreases |s|, 0
  {
    var s := SkipBlank(s[1..]);
    if s != [] && s[0] == ']' then Got(JArr([]), s[1..])
    else
      match Items(lex, s)
      case Got(items, rest) => Got(JArr(items), rest)
      case Fail(rest) => Fail(rest)
  }

  /** The items that are left and the closing bracket. */
  function Items(lex: Lexer, s: string): (r: Parsed<seq<Json>>)
    ensures |r.rest| <= |s|
    decreases |s|, 2
  {
    match Value(lex, s)
    case Fail(rest) => Fail(rest)
    case Got(v, rest) =>
      var s := SkipBlank(rest);
      if s == [] then Fail(s)
      else if s[0] == ']' then Got([v], s[1..])
      else if s[0] == ',' then Prepend(v, Items(lex, SkipBlank(s[1..])))
      else Fail(s)
  }

  function Object(lex: Lexer, s: string): (r: Parsed<Json>)
    requires s != [] && s[0] == '{'
    ensures |r.rest| <= |s| && (r.Got? ==> |r.rest| < |s|)
    decreases |s|, 0
  {
    var s := SkipBlank(s[1..]);
    if s != [] && s[0] == '}' then Got(JObj([]), s[1..])
    else
      match Members(lex, s)
      case Got(members, rest) => Got(JObj(members), rest)
      case Fail(rest) => Fail(rest)
  }

  /** A key, the colon and the value. */
  function Pair(lex: Lexer, s: string): (r: Parsed<Member>)
    ensures |r.rest| <= |s| && (r.Got? ==> |r.rest| < |s|)
    decreases |s|, 2
  {
    match RawString(s)
    case Fail(rest) => Fail(rest)
    case Got(key, rest) =>
      var s := SkipBlank(rest);
      if s == [] || s[0] != ':' then Fail(s)
      else
        match Value(lex, SkipBlank(s[1..]))
        case Fail(rest) => Fail(rest)
        case Got(v, rest) => Got(Member(key, v), rest)
  }

  function Members(lex: Lexer, s: string): (r: Parsed<seq<Member>>)
    ensures |r.rest| <= |s|
    decreases |s|, 3
  {
    match Pair(lex, s)
    case Fail(rest) => Fail(rest)
    case Got(m, rest) =>
      var s := SkipBlank(rest);
      if s == [] then Fail(s)
      else if s[0] == '}' then Got([m], s[1..])
      else if s[0] == ',' then Prepend(m, Members(lex, SkipBlank(s[1..])))
      else Fail(s)
  }

  /** The outcome of json_parse; a rejection reports what is left at the error position. */
  datatype Outcome = Accepted(t: Json) | Rejected(rest: string)

  function Document(lex: Lexer, s: string): Outcome {
    var r := Value(lex, s);
    var rest := SkipBlank(r.rest);
    if r.Got? && rest == [] then Accepted(r.val) else Rejected(rest)
  }

  // ----- The grammar -----

  datatype Cst =
    | CNull
    | CBool(b: bool)
    | CNum(lexeme: string)
    | CStr(raw: string)
    | CNoItems(ws: string)
    | CArr(items: CItems)
    | CNoMembers(ws: string)
    | CObj(members: CMembers)

  /** One or more items, each between white space. */
  datatype CItems = LastItem(pre: string, v: Cst, post: string) | MoreItems(pre: string, v: Cst, post: string, more: CItems)

  /** A key and a value, with the white space around the colon. */
  datatype CPair = CPair(key: string, mid: string, mid': string, v: Cst)

  datatype CMembers = LastMember(pre: string, m: CPair, post: string) | MoreMembers(pre: string, m: CPair, post: string, more: CMembers)

  /** A text: white space, a value, white space. */
  datatype CDoc = CDoc(pre: string, v: Cst, post: string)

  /** How a value is written in front of `rest`. */
  function Text(c: Cst, rest: string): string {
    match c
    case CNull => "null" + rest
    case CBool(b) => if b then "true" + rest else "false" + rest
    case CNum(lexeme) => lexeme + rest
    case CStr(raw) => "\"" + raw + "\"" + rest
    case CNoItems(ws) => "[" + (ws + ("]" + rest))
    case CArr(items) => "[" + ItemsText(items, rest)
    case CNoMembers(ws) => "{" + (ws + ("}" + rest))
    case CObj(members) => "{" + MembersText(members, rest)
  }

  function ItemsText(cs: CItems, rest: string): string
    decreases cs, 1
  {
    cs.pre + Text(cs.v, cs.post + AfterItem(cs, rest))
  }

  function AfterItem(cs: CItems, rest: string): string
    decreases cs, 0
  {
    if cs.LastItem? then "]" + rest else "," + ItemsText(cs.more, rest)
  }

  function PairText(m: CPair, rest: string): string {
    "\"" + m.key + "\"" + (m.mid + (":" + (m.mid' + Text(m.v, rest))))
  }

  function MembersText(ms: CMembers, rest: string): string
    decreases ms, 1
  {
    ms.pre + PairText(ms.m, ms.post + AfterMember(ms, rest))
  }

  function AfterMember(ms: CMembers, rest: string): string
    decreases ms, 0
  {
    if ms.LastMember? then "}" + rest else "," + MembersText(ms.more, rest)
  }

  function DocText(d: CDoc): string {
    d.pre + Text(d.v, d.post)
  }

  /** The contents of a string: any characters but quotes, a backslash takes the next one along. */
  predicate Raw(s: string) {
    s == [] || (if s[0] == '\\' then |s| > 1 && Raw(s[2..]) else s[0] != '"' && Raw(s[1..]))
  }

  /** A value is well written in front of `rest`, which matters to where its numbers end. */
  predicate Ok(lex: Lexer, c: Cst, rest: string) {
    match c
    case CNum(lexeme) => lexeme != [] && lexeme[0] != 'n' && !IsSpace(lexeme[0]) && lex(lexeme + rest) == |lexeme|
    case CStr(raw) => Raw(raw)
    case CNoItems(ws) => Blank(ws)
    case CArr(items) => ItemsOk(lex, items, rest)
    case CNoMembers(ws) => Blank(ws)
    case CObj(members) => MembersOk(lex, members, rest)
    case _ => true
  }

  predicate ItemsOk(lex: Lexer, cs: CItems, rest: string)
    decreases cs
  {
    && Blank(cs.pre) && Blank(cs.post) && Ok(lex, cs.v, cs.post + AfterItem(cs, rest))
    && (cs.MoreItems? ==> ItemsOk(lex, cs.more, rest))
  }

  predicate PairOk(lex: Lexer, m: CPair, rest: string)
    decreases m
  {
    Raw(m.key) && Blank(m.mid) && Blank(m.mid') && Ok(lex, m.v, rest)
  }

  predicate MembersOk(lex: Lexer, ms: CMembers, rest: string)
    decreases ms
  {
    && Blank(ms.pre) && Blank(ms.post) && PairOk(lex, ms.m, ms.post + AfterMember(ms, rest))
    && (ms.MoreMembers? ==> MembersOk(lex, ms.more, rest))
  }

  predicate DocOk(lex: Lexer, d: CDoc) {
    Blank(d.pre) && Blank(d.post) && Ok(lex, d.v, d.post)
  }

  /** What is left of a value without its white space. */
  function Tree(c: Cst): Json {
    match c
    case CNull => JNull
    case CBool(b) => JBool(b)
    case CNum(lexeme) => JNum(lexeme)
    case CStr(raw) => JStr(raw)
    case CNoItems(_) => JArr([])
    case CArr(items) => JArr(ItemTrees(items))
    case CNoMembers(_) => JObj([])
    case CObj(members) => JObj(MemberTrees(members))
  }

  function ItemTrees(cs: CItems): seq<Json> {
    if cs.LastItem? then [Tree(cs.v)] else [Tree(cs.v)] + ItemTrees(cs.more)
  }

  function PairTree(m: CPair): Member {
    Member(m.key, Tree(m.v))
  }

  function MemberTrees(ms: CMembers): seq<Member> {
    if ms.LastMember? then [PairTree(ms.m)] else [PairTree(ms.m)] + MemberTrees(ms.more)
  }
}
