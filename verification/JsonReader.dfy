/**
 A number reader that keeps every contract asked of one: it reads the longest number of section 6 of
 RFC 8259 in front of a text.
 */
module JsonReader {
  import opened JsonErrors
  import opened JsonFirstError
  import opened JsonGrammar
  import opened JsonRfc
  import opened JsonTheorems

  /** The length of the longest number among the first `k` characters. */
  ghost function LongestTo(s: string, k: nat): (n: nat)
    requires k <= |s|
    ensures n <= k && (n > 0 ==> IsRfcNumber(s[..n]))
  {
    if k == 0 || IsRfcNumber(s[..k]) then k else LongestTo(s, k - 1)
  }

  ghost function Longest(s: string): nat {
    LongestTo(s, |s|)
  }

  lemma {:induction false} LongestToIs(s: string, k: nat, j: nat)
    requires j <= k <= |s| && IsRfcNumber(s[..j])
    ensures LongestTo(s, k) >= j
  {
    if k > j { LongestToIs(s, k - 1, j); }
  }

  /** No number in front is longer. */
  lemma LongestIs(a: string, d: string)
    requires IsRfcNumber(a)
    ensures Longest(a + d) >= |a|
  {
    assert (a + d)[..|a|] == a;
    LongestToIs(a + d, |a + d|, |a|);
  }

  predicate AllInLexeme(s: string) {
    forall i :: 0 <= i < |s| ==> InLexeme(s[i])
  }

  lemma {:induction false} DigitsInLexeme(s: string)
    requires Digits(s)
    ensures AllInLexeme(s)
  {
    if s != [] {
      DigitsInLexeme(s[1..]);
      assert s == [s[0]] + s[1..];
    }
  }

  lemma AppendInLexeme(a: string, b: string)
    requires AllInLexeme(a) && AllInLexeme(b)
    ensures AllInLexeme(a + b)
  {
  }

  lemma WholeInLexeme(n: RfcNumber)
    requires ValidNumber(n)
    ensures AllInLexeme(n.whole) && n.whole != [] && '0' <= n.whole[0] <= '9'
  {
    if n.whole != "0" {
      DigitsInLexeme(n.whole[1..]);
      assert n.whole == [n.whole[0]] + n.whole[1..];
    }
  }

  lemma MarkInLexeme(n: RfcNumber)
    requires ValidNumber(n)
    ensures AllInLexeme(n.mark + n.exp)
  {
    DigitsInLexeme(n.exp);
    assert AllInLexeme(n.mark);
    AppendInLexeme(n.mark, n.exp);
  }

  /** A number is made of lexeme characters and starts with a digit or a minus sign. */
  lemma NumberInLexeme(n: RfcNumber)
    requires ValidNumber(n)
    ensures AllInLexeme(NumberText(n)) && NumberText(n) != [] && StartsNumber(NumberText(n)[0])
  {
    WholeInLexeme(n);
    MarkInLexeme(n);
    DigitsInLexeme(n.frac);
    var frac := if n.frac == [] then "" else "." + n.frac;
    AppendInLexeme(".", n.frac);
    AppendInLexeme(frac, n.mark + n.exp);
    AppendInLexeme(n.whole, frac + (n.mark + n.exp));
    AppendInLexeme(if n.minus then "-" else "", n.whole + (frac + (n.mark + n.exp)));
  }

  lemma RfcInLexeme(s: string)
    requires IsRfcNumber(s)
    ensures AllInLexeme(s) && s != [] && StartsNumber(s[0])
  {
    var n :| ValidNumber(n) && NumberText(n) == s;
    NumberInLexeme(n);
  }

  lemma BrokenPrefix(a: string, d: string, m: nat)
    requires Stops(d) && |a| < m <= |a + d|
    ensures !AllInLexeme((a + d)[..m])
  {
    assert (a + d)[..m][|a|] == d[0];
  }

  /** Where a number stops, the reader stops. */
  lemma LongestStops(a: string, d: string)
    requires IsRfcNumber(a) && Stops(d)
    ensures Longest(a + d) == |a|
  {
    LongestIs(a, d);
    var m := Longest(a + d);
    if m > |a| {
      BrokenPrefix(a, d, m);
      RfcInLexeme((a + d)[..m]);
      assert false;
    }
  }

  lemma LongestStarts(s: string)
    ensures Longest(s) <= |s| && (Longest(s) > 0 ==> s != [] && StartsNumber(s[0]))
  {
    if Longest(s) > 0 { RfcInLexeme(s[..Longest(s)]); }
  }

  ghost predicate ReadsLongest(lex: Lexer) {
    forall s {:trigger Longest(s)} :: lex(s) == Longest(s)
  }

  lemma FirmAt(lex: Lexer, a: string, b: string, d: string)
    requires ReadsLongest(lex) && a != [] && lex(a + b) == |a|
    ensures lex(a + d) >= |a| && (Stops(d) ==> lex(a + d) == |a|)
  {
    assert (a + b)[..|a|] == a;
    assert Longest(a + b) == |a| && lex(a + d) == Longest(a + d);
    LongestIs(a, d);
    if Stops(d) { LongestStops(a, d); }
  }

  lemma LongestFirm(lex: Lexer)
    requires ReadsLongest(lex)
    ensures Firm(lex)
  {
    forall a: string, b: string, d: string | a != [] && lex(a + b) == |a|
      ensures lex(a + d) >= |a| && (Stops(d) ==> lex(a + d) == |a|)
    {
      FirmAt(lex, a, b, d);
    }
  }

  lemma ReadsAt(lex: Lexer, a: string, rest: string)
    requires ReadsLongest(lex) && IsRfcNumber(a) && Delimited(rest)
    ensures lex(a + rest) == |a|
  {
    assert lex(a + rest) == Longest(a + rest);
    LongestStops(a, rest);
  }

  lemma LongestReads(lex: Lexer)
    requires ReadsLongest(lex)
    ensures ReadsNumbers(lex)
  {
    forall n, rest | ValidNumber(n) && Delimited(rest) ensures lex(NumberText(n) + rest) == |NumberText(n)| {
      ReadsAt(lex, NumberText(n), rest);
    }
  }

  /** The contracts are those of a reader. */
  lemma RfcReader() returns (lex: Lexer)
    ensures Firm(lex) && ReadsNumbers(lex) && ReadsLongest(lex)
  {
    forall s: string ensures Longest(s) <= |s| && (Longest(s) > 0 ==> StartsNumber(s[0]) || IsSpace(s[0])) {
      LongestStarts(s);
    }
    lex := (s: string) => Longest(s);
    assert ReadsLongest(lex);
    LongestFirm(lex);
    LongestReads(lex);
  }
}
