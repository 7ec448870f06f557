/** RFC 8259 inside the grammar: its texts (sections 2 to 7) are accepted, and printed trees read back. */
module JsonRfc {
  import opened JsonGrammar
  import opened JsonTheorems

  // ----- Sections 2, 6 and 7 of RFC 8259 -----

  predicate IsRfcSpace(c: char) {
    c == ' ' || c == '\t' || c == '\n' || c == '\r'
  }

  predicate RfcBlank(s: string) {
    s == [] || (IsRfcSpace(s[0]) && RfcBlank(s[1..]))
  }

  predicate Digits(s: string) {
    s == [] || ('0' <= s[0] <= '9' && Digits(s[1..]))
  }

  /** A number: sign, integer part, fraction digits after the point, exponent digits after the mark. */
  datatype RfcNumber = RfcNumber(minus: bool, whole: string, frac: string, mark: string, exp: string)

  predicate ValidNumber(n: RfcNumber) {
    && (n.whole == "0" || (n.whole != [] && '1' <= n.whole[0] <= '9' && Digits(n.whole[1..])))
    && Digits(n.frac)
    && (n.mark in {"e", "E", "e+", "E+", "e-", "E-"} ==> n.exp != [] && Digits(n.exp))
    && (n.mark !in {"e", "E", "e+", "E+", "e-", "E-"} ==> n.mark == [] && n.exp == [])
  }

  function NumberText(n: RfcNumber): string {
    (if n.minus then "-" else "") + (n.whole + ((if n.frac == [] then "" else "." + n.frac) + (n.mark + n.exp)))
  }

  ghost predicate IsRfcNumber(s: string) {
    exists n :: ValidNumber(n) && NumberText(n) == s
  }

  predicate IsHex(c: char) {
    '0' <= c <= '9' || 'a' <= c <= 'f' || 'A' <= c <= 'F'
  }

  /** String contents: no control characters, and only the escapes of section 7. */
  predicate RfcChars(s: string) {
    if s == [] then true
    else if s[0] == '\\' then
      if |s| > 5 && s[1] == 'u' then IsHex(s[2]) && IsHex(s[3]) && IsHex(s[4]) && IsHex(s[5]) && RfcChars(s[6..])
      else |s| > 1 && s[1] in {'"', '\\', '/', 'b', 'f', 'n', 'r', 't'} && RfcChars(s[2..])
    else
      s[0] >= ' ' && s[0] != '"' && RfcChars(s[1..])
  }

  /** A value of sections 3 to 7, with the white space of section 2. */
  ghost predicate Rfc(c: Cst) {
    match c
    case CNull => true
    case CBool(_) => true
    case CNum(lexeme) => IsRfcNumber(lexeme)
    case CStr(raw) => RfcChars(raw)
    case CNoItems(ws) => RfcBlank(ws)
    case CArr(items) => RfcItems(items)
    case CNoMembers(ws) => RfcBlank(ws)
    case CObj(members) => RfcMembers(members)
  }

  ghost predicate RfcItems(cs: CItems) {
    RfcBlank(cs.pre) && Rfc(cs.v) && RfcBlank(cs.post) && (cs.MoreItems? ==> RfcItems(cs.more))
  }

  ghost predicate RfcPair(m: CPair) {
    RfcChars(m.key) && RfcBlank(m.mid) && RfcBlank(m.mid') && Rfc(m.v)
  }

  ghost predicate RfcMembers(ms: CMembers) {
    RfcBlank(ms.pre) && RfcPair(ms.m) && RfcBlank(ms.post) && (ms.MoreMembers? ==> RfcMembers(ms.more))
  }

  /** A JSON-text: ws value ws. */
  ghost predicate RfcText(d: CDoc) {
    RfcBlank(d.pre) && Rfc(d.v) && RfcBlank(d.post)
  }

  // ----- The contract of the number reader -----

  predicate Delimited(rest: string) {
    rest == [] || IsRfcSpace(rest[0]) || rest[0] in {',', ']', '}'}
  }

  /** Of an RFC number followed by a delimiter the reader reads exactly the number. */
  ghost predicate ReadsNumbers(lex: Lexer) {
    forall n, rest :: ValidNumber(n) && Delimited(rest) ==> lex(NumberText(n) + rest) == |NumberText(n)|
  }

  // ----- Every JSON text is accepted -----

  lemma {:induction false} RfcBlankIsBlank(s: string)
    requires RfcBlank(s)
    ensures Blank(s)
  {
    if s != [] { RfcBlankIsBlank(s[1..]); }
  }

  lemma {:induction false} RfcCharsAreRaw(s: string)
    requires RfcChars(s)
    ensures Raw(s)
  {
    if s != [] {
      if s[0] != '\\' {
        RfcCharsAreRaw(s[1..]);
      } else if |s| > 5 && s[1] == 'u' {
        RfcCharsAreRaw(s[6..]);
        HexIsRaw(s);
      } else {
        RfcCharsAreRaw(s[2..]);
      }
    }
  }

  lemma HexIsRaw(s: string)
    requires |s| > 5 && s[0] == '\\' && IsHex(s[2]) && IsHex(s[3]) && IsHex(s[4]) && IsHex(s[5]) && Raw(s[6..])
    ensures Raw(s)
  {
    assert Raw(s[5..]) by { assert s[5..][1..] == s[6..]; }
    assert Raw(s[4..]) by { assert s[4..][1..] == s[5..]; }
    assert Raw(s[3..]) by { assert s[3..][1..] == s[4..]; }
    assert Raw(s[2..]) by { assert s[2..][1..] == s[3..]; }
  }

  lemma BlankThenDelimiter(ws: string, rest: string)
    requires RfcBlank(ws) && Delimited(rest)
    ensures Delimited(ws + rest)
  {
    if ws == [] { assert ws + rest == rest; }
  }

  lemma NumberIsOk(lex: Lexer, lexeme: string, rest: string)
    requires ReadsNumbers(lex) && IsRfcNumber(lexeme) && Delimited(rest)
    ensures Ok(lex, CNum(lexeme), rest)
  {
    var n :| ValidNumber(n) && NumberText(n) == lexeme;
    assert lex(NumberText(n) + rest) == |NumberText(n)|;
    assert lexeme != [] && (lexeme[0] == '-' || lexeme[0] == n.whole[0]);
  }

  lemma {:induction false} RfcIsOk(lex: Lexer, c: Cst, rest: string)
    requires ReadsNumbers(lex) && Rfc(c) && Delimited(rest)
    ensures Ok(lex, c, rest)
    decreases c, 2
  {
    match c
    case CNum(lexeme) => NumberIsOk(lex, lexeme, rest);
    case CStr(raw) => RfcCharsAreRaw(raw);
    case CNoItems(ws) => RfcBlankIsBlank(ws);
    case CArr(items) => RfcItemsAreOk(lex, items, rest);
    case CNoMembers(ws) => RfcBlankIsBlank(ws);
    case CObj(members) => RfcMembersAreOk(lex, members, rest);
    case _ =>
  }

  lemma {:induction false} RfcItemsAreOk(lex: Lexer, cs: CItems, rest: string)
    requires ReadsNumbers(lex) && RfcItems(cs)
    ensures ItemsOk(lex, cs, rest)
    decreases cs, 1
  {
    RfcBlankIsBlank(cs.pre);
    RfcBlankIsBlank(cs.post);
    BlankThenDelimiter(cs.post, AfterItem(cs, rest));
    RfcIsOk(lex, cs.v, cs.post + AfterItem(cs, rest));
    if cs.MoreItems? { RfcItemsAreOk(lex, cs.more, rest); }
  }

  lemma {:induction false} RfcMembersAreOk(lex: Lexer, ms: CMembers, rest: string)
    requires ReadsNumbers(lex) && RfcMembers(ms)
    ensures MembersOk(lex, ms, rest)
    decreases ms, 1
  {
    RfcBlankIsBlank(ms.pre);
    RfcBlankIsBlank(ms.post);
    RfcBlankIsBlank(ms.m.mid);
    RfcBlankIsBlank(ms.m.mid');
    RfcCharsAreRaw(ms.m.key);
    BlankThenDelimiter(ms.post, AfterMember(ms, rest));
    RfcIsOk(lex, ms.m.v, ms.post + AfterMember(ms, rest));
    if ms.MoreMembers? { RfcMembersAreOk(lex, ms.more, rest); }
  }

  /** Every JSON text of RFC 8259 is accepted, with the tree it writes. */
  lemma {:induction false} RfcTextIsAccepted(lex: Lexer, d: CDoc)
    requires ReadsNumbers(lex) && RfcText(d)
    ensures Document(lex, DocText(d)) == Accepted(Tree(d.v))
  {
    RfcBlankIsBlank(d.pre);
    RfcBlankIsBlank(d.post);
    BlankThenDelimiter(d.post, []);
    assert d.post + [] == d.post;
    RfcIsOk(lex, d.v, d.post);
    ReadsDocument(lex, d);
  }

  // ----- Printing -----

  /** A tree whose numbers and strings are lexemes of RFC 8259. */
  ghost predicate Plain(t: Json) {
    match t
    case JNum(lexeme) => IsRfcNumber(lexeme)
    case JStr(raw) => RfcChars(raw)
    case JArr(items) => forall i :: 0 <= i < |items| ==> Plain(items[i])
    case JObj(members) => forall i :: 0 <= i < |members| ==> RfcChars(members[i].key) && Plain(members[i].value)
    case _ => true
  }

  /** A tree written without white space. */
  function Compact(t: Json): (c: Cst)
    decreases t
  {
    match t
    case JNull => CNull
    case JBool(b) => CBool(b)
    case JNum(lexeme) => CNum(lexeme)
    case JStr(raw) => CStr(raw)
    case JArr(items) => if items == [] then CNoItems("") else CArr(CompactItems(items))
    case JObj(members) => if members == [] then CNoMembers("") else CObj(CompactMembers(members))
  }

  function CompactItems(items: seq<Json>): CItems
    requires items != []
    decreases items
  {
    if |items| == 1 then LastItem("", Compact(items[0]), "") else MoreItems("", Compact(items[0]), "", CompactItems(items[1..]))
  }

  function CompactMembers(members: seq<Member>): CMembers
    requires members != []
    decreases members
  {
    var m := CPair(members[0].key, "", "", Compact(members[0].value));
    if |members| == 1 then LastMember("", m, "") else MoreMembers("", m, "", CompactMembers(members[1..]))
  }

  lemma {:induction false} CompactIs(t: Json)
    ensures Tree(Compact(t)) == t
    ensures Plain(t) ==> Rfc(Compact(t))
    decreases t
  {
    match t
    case JArr(items) => if items != [] { CompactItemsAre(items); }
    case JObj(members) => if members != [] { CompactMembersAre(members); }
    case _ =>
  }

  lemma {:induction false} CompactItemsAre(items: seq<Json>)
    requires items != []
    ensures ItemTrees(CompactItems(items)) == items
    ensures (forall i :: 0 <= i < |items| ==> Plain(items[i])) ==> RfcItems(CompactItems(items))
    decreases items
  {
    CompactIs(items[0]);
    if |items| > 1 { CompactItemsAre(items[1..]); }
  }

  lemma {:induction false} CompactMembersAre(members: seq<Member>)
    requires members != []
    ensures MemberTrees(CompactMembers(members)) == members
    ensures (forall i :: 0 <= i < |members| ==> RfcChars(members[i].key) && Plain(members[i].value)) ==> RfcMembers(CompactMembers(members))
    decreases members
  {
    CompactIs(members[0].value);
    if |members| > 1 { CompactMembersAre(members[1..]); }
  }

  function Print(t: Json): string {
    Text(Compact(t), "")
  }

  /** Parsing a printed tree gives the tree back. */
  lemma {:induction false} RoundTrip(lex: Lexer, t: Json)
    requires ReadsNumbers(lex) && Plain(t)
    ensures Document(lex, Print(t)) == Accepted(t)
  {
    CompactIs(t);
    var d := CDoc("", Compact(t), "");
    RfcTextIsAccepted(lex, d);
    assert DocText(d) == Print(t);
  }
}
