/** Sequences read as duplicate-free lists: what the intrusive lists of the runtime hold. */
module Seqs {
  import opened Addresses

  /** The members of a list. */
  ghost function Elems(s: seq<Addr>): set<Addr> {
    if s == [] then {} else {s[0]} + Elems(s[1..])
  }

  /** No address occurs twice. */
  ghost predicate Distinct(s: seq<Addr>) {
    s == [] || (s[0] !in Elems(s[1..]) && Distinct(s[1..]))
  }

  /** The elements of `s` that are not in `out`, in the order of `s`. */
  ghost function Minus(s: seq<Addr>, out: set<Addr>): seq<Addr> {
    if s == [] then []
    else if s[0] in out then Minus(s[1..], out)
    else [s[0]] + Minus(s[1..], out)
  }

  lemma {:induction false} ElemsHas(s: seq<Addr>, i: nat)
    requires i < |s|
    ensures s[i] in Elems(s)
  {
    if i > 0 { ElemsHas(s[1..], i - 1); }
  }

  lemma {:induction false} ElemsIndex(s: seq<Addr>, x: Addr) returns (i: nat)
    requires x in Elems(s)
    ensures i < |s| && s[i] == x
  {
    if s[0] == x { return 0; }
    var j := ElemsIndex(s[1..], x);
    i := j + 1;
  }

  lemma {:induction false} ElemsAppend(a: seq<Addr>, b: seq<Addr>)
    ensures Elems(a + b) == Elems(a) + Elems(b)
  {
    if a == [] {
      assert a + b == b;
    } else {
      assert (a + b)[1..] == a[1..] + b;
      ElemsAppend(a[1..], b);
    }
  }

  lemma {:induction false} DistinctIndex(s: seq<Addr>, i: nat, j: nat)
    requires Distinct(s) && i < j < |s|
    ensures s[i] != s[j]
  {
    if i == 0 {
      ElemsHas(s[1..], j - 1);
    } else {
      DistinctIndex(s[1..], i - 1, j - 1);
    }
  }

  lemma {:induction false} MinusElems(s: seq<Addr>, out: set<Addr>)
    ensures Elems(Minus(s, out)) == Elems(s) - out
  {
    if s != [] {
      MinusElems(s[1..], out);
      assert s[0] !in out ==> Minus(s, out)[1..] == Minus(s[1..], out);
    }
  }

  lemma {:induction false} MinusDistinct(s: seq<Addr>, out: set<Addr>)
    requires Distinct(s)
    ensures Distinct(Minus(s, out))
  {
    if s != [] {
      MinusDistinct(s[1..], out);
      MinusElems(s[1..], out);
      assert s[0] !in out ==> Minus(s, out)[1..] == Minus(s[1..], out);
    }
  }

  lemma {:induction false} MinusAppend(a: seq<Addr>, b: seq<Addr>, out: set<Addr>)
    ensures Minus(a + b, out) == Minus(a, out) + Minus(b, out)
  {
    if a == [] {
      assert a + b == b;
    } else {
      assert (a + b)[1..] == a[1..] + b;
      MinusAppend(a[1..], b, out);
    }
  }

  lemma {:induction false} MinusNone(s: seq<Addr>, out: set<Addr>)
    requires Elems(s) !! out
    ensures Minus(s, out) == s
  {
    if s != [] { MinusNone(s[1..], out); }
  }

  /** Taking `s[i]` out of a duplicate-free list is cutting its i-th node. */
  lemma {:induction false} MinusAt(s: seq<Addr>, i: nat)
    requires Distinct(s) && i < |s|
    ensures Minus(s, {s[i]}) == s[..i] + s[i + 1..]
  {
    var t := s[1..];
    if i == 0 {
      MinusNone(t, {s[0]});
    } else {
      MinusAt(t, i - 1);
      DistinctIndex(s, 0, i);
      assert s[..i] + s[i + 1..] == [s[0]] + (t[..i - 1] + t[i..]);
    }
  }

  lemma {:induction false} DistinctCard(s: seq<Addr>)
    requires Distinct(s)
    ensures |Elems(s)| == |s|
  {
    if s != [] {
      DistinctCard(s[1..]);
    }
  }

  lemma {:induction false} ElemsLast(l: seq<Addr>, b: Addr)
    ensures Elems(l + [b]) == Elems(l) + {b}
    ensures Distinct(l) && b !in Elems(l) ==> Distinct(l + [b])
  {
    if l == [] {
      assert l + [b] == [b];
    } else {
      assert (l + [b])[1..] == l[1..] + [b];
      ElemsLast(l[1..], b);
    }
  }

  lemma {:induction false} DistinctPrefix(s: seq<Addr>, k: nat)
    requires Distinct(s) && k <= |s|
    ensures Distinct(s[..k]) && Elems(s[..k]) <= Elems(s)
  {
    if k > 0 {
      DistinctPrefix(s[1..], k - 1);
      assert s[..k][1..] == s[1..][..k - 1];
    }
  }

  lemma {:induction false} DistinctHead(a: seq<Addr>, b: seq<Addr>)
    requires Distinct(a + b)
    ensures Distinct(a)
  {
    if a != [] {
      assert (a + b)[1..] == a[1..] + b;
      ElemsAppend(a[1..], b);
      DistinctHead(a[1..], b);
    }
  }

  lemma {:induction false} DistinctTail(a: seq<Addr>, b: seq<Addr>)
    requires Distinct(a + b)
    ensures Distinct(b)
  {
    if a == [] {
      assert a + b == b;
    } else {
      assert (a + b)[1..] == a[1..] + b;
      DistinctTail(a[1..], b);
    }
  }
}
